/** Write batches (WriteBatch): operations, and the entries they become once numbered. */
module Batches {
  import opened InternalKeys
  import opened Visibility

  datatype Op = Op(user: UserKey, value: Option<Value>)

  function EntryOf(op: Op, seqno: nat): Entry {
    match op.value
    case Some(v) => Entry(IKey(op.user, seqno, Put), v)
    case None => Entry(IKey(op.user, seqno, Deletion), "")
  }

  /** The entries of a batch, numbered consecutively from first. */
  function Numbering(ops: seq<Op>, first: nat): set<Entry> {
    set i | 0 <= i < |ops| :: EntryOf(ops[i], first + i)
  }

  lemma NumberingBounds(ops: seq<Op>, first: nat)
    ensures forall e :: e in Numbering(ops, first) ==> first <= e.key.seqno < first + |ops|
    ensures Unique(Numbering(ops, first))
  {
  }

  lemma NumberingConcat(a: seq<Op>, b: seq<Op>, first: nat)
    ensures Numbering(a + b, first) == Numbering(a, first) + Numbering(b, first + |a|)
  {
    forall e | e in Numbering(b, first + |a|) ensures e in Numbering(a + b, first) {
      var i :| 0 <= i < |b| && e == EntryOf(b[i], first + |a| + i);
      assert (a + b)[|a| + i] == b[i];
    }
    forall e | e in Numbering(a, first) ensures e in Numbering(a + b, first) {
      var i :| 0 <= i < |a| && e == EntryOf(a[i], first + i);
      assert (a + b)[i] == a[i];
    }
    forall e | e in Numbering(a + b, first) ensures e in Numbering(a, first) + Numbering(b, first + |a|) {
      var i :| 0 <= i < |a + b| && e == EntryOf((a + b)[i], first + i);
      if i >= |a| {
        assert (a + b)[i] == b[i - |a|] && first + i == first + |a| + (i - |a|);
      }
    }
  }

  // ---- What batches do to reads --------------------------------------------------------------------------------

  /** The entries numbered behind the first n are newer, and the others are of the users of the first n operations. */
  lemma NumberedSoFar(ops: seq<Op>, first: nat, n: nat, u: UserKey)
    requires n <= |ops| && forall j :: 0 <= j < n ==> ops[j].user != u
    ensures forall x :: x in Numbering(ops, first) && x.key.user == u ==> x.key.seqno >= first + n
  {
  }

  lemma NumberedLast(ops: seq<Op>, first: nat, n: nat, i: nat)
    requires i < n <= |ops| && forall j :: i < j < n ==> ops[j].user != ops[i].user
    ensures EntryOf(ops[i], first + i) in Numbering(ops, first)
    ensures forall x :: x in Numbering(ops, first) && x.key.user == ops[i].user && x.key.seqno < first + n
                        ==> x.key.seqno <= first + i
  {
  }

  /** Over older entries, the last of the first n operations on a user key decides what is read of it at their sequence
      number: its value, or nothing for a deletion. */
  lemma LastOpDecides(ops: seq<Op>, first: nat, older: set<Entry>, n: nat, i: nat)
    requires Unique(Numbering(ops, first) + older) && forall e :: e in older ==> e.key.seqno < first
    requires i < n <= |ops| && forall j :: i < j < n ==> ops[j].user != ops[i].user
    ensures Read(Numbering(ops, first) + older, ops[i].user, first + n - 1) == ops[i].value
  {
    hide Numbering, Unique, Read;
    var e := EntryOf(ops[i], first + i);
    NumberedLast(ops, first, n, i);
    assert Newest(Numbering(ops, first) + older, ops[i].user, first + n - 1, e);
    ReadIsNewest(Numbering(ops, first) + older, ops[i].user, first + n - 1, e);
  }

  /** A user key none of the first n operations is on reads at their sequence number as before. */
  lemma OthersUntouched(ops: seq<Op>, first: nat, older: set<Entry>, n: nat, u: UserKey)
    requires Unique(Numbering(ops, first) + older) && first > 0 && forall e :: e in older ==> e.key.seqno < first
    requires n <= |ops| && forall j :: 0 <= j < n ==> ops[j].user != u
    ensures Read(Numbering(ops, first) + older, u, first + n - 1) == Read(older, u, first - 1)
  {
    hide Numbering, Unique, Read;
    NumberedSoFar(ops, first, n, u);
    UniquePart(Numbering(ops, first), older);
    ReadsAgree(Numbering(ops, first) + older, older, u, first + n - 1);
    SeesAll(older, u, first - 1, first + n - 1);
  }

  lemma UniquePart(a: set<Entry>, b: set<Entry>)
    requires Unique(a + b)
    ensures Unique(b)
  {
  }

  /** Reading past the newest entry is reading it. */
  lemma SeesAll(es: set<Entry>, u: UserKey, s: nat, q: nat)
    requires Unique(es) && (forall e :: e in es ==> e.key.seqno <= s) && s <= q
    ensures Read(es, u, q) == Read(es, u, s)
  {
    if e :| Newest(es, u, s, e) {
      assert Newest(es, u, q, e);
    } else if e :| Newest(es, u, q, e) {
      assert Newest(es, u, s, e);
    }
  }

  /** What a reader of u finds after some operations: the value of the last one on u, nothing if that is a deletion, and
      what was there before if there is none. */
  function Latest(ops: seq<Op>, u: UserKey, before: Option<Value>): Option<Value> {
    if ops == [] then before
    else
      var last := ops[|ops| - 1];
      if last.user == u then last.value else Latest(ops[..|ops| - 1], u, before)
  }

  /** Operation i - 1 is the last on u among the first n, or i is 0 and there is none. */
  ghost predicate LastOn(ops: seq<Op>, n: nat, u: UserKey, i: nat) {
    i <= n <= |ops| && (forall j :: i <= j < n ==> ops[j].user != u) && (i > 0 ==> ops[i - 1].user == u)
  }

  lemma {:induction false} LatestIs(ops: seq<Op>, n: nat, u: UserKey, before: Option<Value>) returns (i: nat)
    requires n <= |ops|
    ensures LastOn(ops, n, u, i) && Latest(ops[..n], u, before) == if i > 0 then ops[i - 1].value else before
  {
    if n == 0 {
      i := 0;
    } else if ops[n - 1].user == u {
      i := n;
    } else {
      i := LatestIs(ops, n - 1, u, before);
      assert ops[..n][..n - 1] == ops[..n - 1];
    }
  }

  /** Reading a numbered batch over older entries, at the sequence number of its n-th operation. */
  lemma ReadsLatest(ops: seq<Op>, first: nat, older: set<Entry>, n: nat, u: UserKey)
    requires Unique(Numbering(ops, first) + older) && first > 0 && forall e :: e in older ==> e.key.seqno < first
    requires n <= |ops|
    ensures Read(Numbering(ops, first) + older, u, first + n - 1) == Latest(ops[..n], u, Read(older, u, first - 1))
  {
    hide Latest, Numbering, Unique, Read;
    var i := LatestIs(ops, n, u, Read(older, u, first - 1));
    if i > 0 {
      LastOpDecides(ops, first, older, n, i - 1);
    } else {
      OthersUntouched(ops, first, older, n, u);
    }
  }

  /** Reading numbered operations at sequence number q finds what the first q of them leave. */
  lemma NumberingReads(ops: seq<Op>, u: UserKey, q: nat)
    requires q <= |ops|
    ensures Read(Numbering(ops, 1), u, q) == Latest(ops[..q], u, None)
  {
    hide Latest, Numbering, Unique, Read;
    NumberingBounds(ops, 1);
    assert Numbering(ops, 1) + {} == Numbering(ops, 1);
    ReadsLatest(ops, 1, {}, q, u);
    ReadNothing({}, u, 0);
  }
}
