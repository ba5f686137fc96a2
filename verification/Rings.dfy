/** The cache's intrusive circular lists: next and prev links around a dummy head, changed in place. */
module Rings {
  function After(c: seq<nat>, i: nat): nat
    requires i < |c|
  {
    if i == |c| - 1 then c[0] else c[i + 1]
  }

  ghost predicate Distinct(c: seq<nat>) {
    forall i, j :: 0 <= i < j < |c| ==> c[i] != c[j]
  }

  ghost predicate Linked(next: map<nat, nat>, prev: map<nat, nat>, x: nat, y: nat) {
    x in next && y in prev && next[x] == y && prev[y] == x
  }

  /** The links lead once around c and back. */
  ghost predicate Circle(next: map<nat, nat>, prev: map<nat, nat>, c: seq<nat>) {
    && c != [] && Distinct(c)
    && forall i :: 0 <= i < |c| ==> Linked(next, prev, c[i], After(c, i))
  }

  /** A list es behind its dummy head. */
  ghost predicate Ring(next: map<nat, nat>, prev: map<nat, nat>, head: nat, es: seq<nat>) {
    Circle(next, prev, [head] + es)
  }

  lemma Apart(c: seq<nat>, i: nat, j: nat)
    requires Distinct(c) && i < |c| && j < |c| && i != j
    ensures c[i] != c[j]
  {
  }

  lemma Neighbours(next: map<nat, nat>, prev: map<nat, nat>, c: seq<nat>, i: nat)
    requires Circle(next, prev, c) && i < |c|
    ensures c[i] in next && c[i] in prev && next[c[i]] == After(c, i)
    ensures prev[c[i]] == if i == 0 then c[|c| - 1] else c[i - 1]
  {
    assert Linked(next, prev, c[i], After(c, i));
    var before := if i == 0 then |c| - 1 else i - 1;
    assert Linked(next, prev, c[before], After(c, before));
  }

  lemma RingFacts(next: map<nat, nat>, prev: map<nat, nat>, head: nat, es: seq<nat>)
    requires Ring(next, prev, head, es)
    ensures head in next && head in prev && head !in es && Distinct(es)
    ensures next[head] == if es == [] then head else es[0]
  {
    var c := [head] + es;
    Neighbours(next, prev, c, 0);
    forall i | 0 <= i < |es| ensures es[i] != head {
      Apart(c, 0, i + 1);
    }
    forall i, j | 0 <= i < j < |es| ensures es[i] != es[j] {
      Apart(c, i + 1, j + 1);
    }
  }

  // ---- LRU_Remove --------------------------------------------------------------------------------------------

  function UnlinkNext(next: map<nat, nat>, prev: map<nat, nat>, e: nat): map<nat, nat>
    requires e in next && e in prev
  {
    next[prev[e] := next[e]]
  }

  function UnlinkPrev(next: map<nat, nat>, prev: map<nat, nat>, e: nat): map<nat, nat>
    requires e in next && e in prev
  {
    prev[next[e] := prev[e]]
  }

  function Without(es: seq<nat>, k: nat): (r: seq<nat>)
    requires k < |es|
    ensures |r| == |es| - 1
    ensures forall i :: 0 <= i < |r| ==> r[i] == if i < k then es[i] else es[i + 1]
  {
    es[..k] + es[k + 1..]
  }

  /** Taking out a node other than the first leaves the circle of the rest. */
  lemma UnlinkCircle(next: map<nat, nat>, prev: map<nat, nat>, c: seq<nat>, m: nat)
    requires Circle(next, prev, c) && 0 < m < |c|
    ensures c[m] in next && c[m] in prev
    ensures Circle(UnlinkNext(next, prev, c[m]), UnlinkPrev(next, prev, c[m]), Without(c, m))
  {
    Neighbours(next, prev, c, m);
    var d := Without(c, m);
    forall i, j | 0 <= i < j < |d| ensures d[i] != d[j] {
      Apart(c, if i < m then i else i + 1, if j < m then j else j + 1);
    }
    forall i | 0 <= i < |d|
      ensures Linked(UnlinkNext(next, prev, c[m]), UnlinkPrev(next, prev, c[m]), d[i], After(d, i))
    {
      StillLinked(next, prev, c, m, i);
    }
  }

  lemma StillLinked(next: map<nat, nat>, prev: map<nat, nat>, c: seq<nat>, m: nat, i: nat)
    requires Circle(next, prev, c) && 0 < m < |c| && i < |c| - 1 && c[m] in next && c[m] in prev
    ensures Linked(UnlinkNext(next, prev, c[m]), UnlinkPrev(next, prev, c[m]), Without(c, m)[i],
                   After(Without(c, m), i))
  {
    Neighbours(next, prev, c, m);
    var d := Without(c, m);
    var p := if i < m then i else i + 1;
    assert d[i] == c[p];
    if p == m - 1 {
      assert After(d, i) == After(c, m);
    } else {
      assert After(d, i) == After(c, p);
      Neighbours(next, prev, c, p);
      Apart(c, p, m - 1);
      AfterApart(c, p, m);
      assert Linked(next, prev, c[p], After(c, p));
    }
  }

  lemma AfterApart(c: seq<nat>, p: nat, m: nat)
    requires Distinct(c) && p < |c| && m < |c| && p != m
    ensures After(c, p) != After(c, m)
  {
    Apart(c, if p == |c| - 1 then 0 else p + 1, if m == |c| - 1 then 0 else m + 1);
  }

  lemma UnlinkKeepsRing(next: map<nat, nat>, prev: map<nat, nat>, head: nat, es: seq<nat>, k: nat)
    requires Ring(next, prev, head, es) && k < |es|
    ensures es[k] in next && es[k] in prev
    ensures Ring(UnlinkNext(next, prev, es[k]), UnlinkPrev(next, prev, es[k]), head, Without(es, k))
  {
    hide Circle, UnlinkNext, UnlinkPrev;
    var c := [head] + es;
    assert c[k + 1] == es[k];
    UnlinkCircle(next, prev, c, k + 1);
    assert Without(c, k + 1) == [head] + Without(es, k);
  }

  /** Two rings without a common node. */
  ghost predicate Separate(head: nat, es: seq<nat>, head': nat, es': seq<nat>) {
    forall i, j :: 0 <= i <= |es| && 0 <= j <= |es'| ==> ([head] + es)[i] != ([head'] + es')[j]
  }

  lemma UnlinkKeepsOther(next: map<nat, nat>, prev: map<nat, nat>, head: nat, es: seq<nat>, k: nat,
                         head': nat, es': seq<nat>)
    requires Ring(next, prev, head, es) && k < |es| && Ring(next, prev, head', es')
    requires Separate(head, es, head', es')
    ensures es[k] in next && es[k] in prev
    ensures Ring(UnlinkNext(next, prev, es[k]), UnlinkPrev(next, prev, es[k]), head', es')
  {
    var c, d := [head] + es, [head'] + es';
    assert c[k + 1] == es[k];
    Neighbours(next, prev, c, k + 1);
    forall i | 0 <= i < |d|
      ensures Linked(UnlinkNext(next, prev, es[k]), UnlinkPrev(next, prev, es[k]), d[i], After(d, i))
    {
      assert Linked(next, prev, d[i], After(d, i));
      assert d[i] != c[k] && d[if i == |d| - 1 then 0 else i + 1] != c[if k + 1 == |c| - 1 then 0 else k + 2];
    }
  }

  // ---- LRU_Append --------------------------------------------------------------------------------------------

  function LinkNext(next: map<nat, nat>, prev: map<nat, nat>, head: nat, e: nat): map<nat, nat>
    requires head in prev
  {
    next[e := head][prev[head] := e]
  }

  function LinkPrev(prev: map<nat, nat>, head: nat, e: nat): map<nat, nat>
    requires head in prev
  {
    prev[e := prev[head]][head := e]
  }

  lemma LinkKeepsRing(next: map<nat, nat>, prev: map<nat, nat>, head: nat, es: seq<nat>, e: nat)
    requires Ring(next, prev, head, es) && e != head && e !in es
    ensures head in prev && Ring(LinkNext(next, prev, head, e), LinkPrev(prev, head, e), head, es + [e])
  {
    var c := [head] + es;
    var d := [head] + (es + [e]);
    assert d == c + [e];
    Neighbours(next, prev, c, 0);
    assert forall i :: 0 <= i < |c| ==> c[i] in c;
    forall i | 0 <= i < |d|
      ensures Linked(LinkNext(next, prev, head, e), LinkPrev(prev, head, e), d[i], After(d, i))
    {
      if i < |c| - 1 {
        assert Linked(next, prev, c[i], After(c, i));
        Apart(c, i, |c| - 1);
        Apart(c, 0, i + 1);
      }
    }
  }

  lemma LinkKeepsOther(next: map<nat, nat>, prev: map<nat, nat>, head: nat, es: seq<nat>, e: nat,
                       head': nat, es': seq<nat>)
    requires Ring(next, prev, head, es) && Ring(next, prev, head', es') && e != head' && e !in es'
    requires Separate(head, es, head', es')
    ensures head in prev && Ring(LinkNext(next, prev, head, e), LinkPrev(prev, head, e), head', es')
  {
    var c, d := [head] + es, [head'] + es';
    Neighbours(next, prev, c, 0);
    forall i | 0 <= i < |d|
      ensures Linked(LinkNext(next, prev, head, e), LinkPrev(prev, head, e), d[i], After(d, i))
    {
      assert Linked(next, prev, d[i], After(d, i));
      assert d[i] != c[|c| - 1] && d[if i == |d| - 1 then 0 else i + 1] != c[0];
      assert d[i] in d && After(d, i) in d;
    }
  }
}
