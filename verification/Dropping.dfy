/** The drop rules of a compaction (DoCompactionWork) and what they do to reads. */
module Dropping {
  import opened InternalKeys
  import opened Visibility
  import opened Levels

  /** Some file of fs spans user key u. */
  ghost predicate Spanned(fs: set<File>, u: UserKey) {
    exists f :: f in fs && f.smallest.user <= u <= f.largest.user
  }

  /** The files below the output level. */
  ghost function Deeper(ls: Levels, level: nat): set<File> {
    set i, f | level + 2 <= i < NUM_LEVELS && f in ls[i] :: f
  }

  /** last_sequence_for_key when the loop reaches position k of its sorted input. */
  function LastSequence(input: seq<Entry>, k: nat): nat
    requires k < |input|
  {
    if k > 0 && input[k - 1].key.user == input[k].key.user then input[k - 1].key.seqno else MAX_SEQUENCE
  }

  /** Rule (A): hidden by a newer entry every snapshot sees. Otherwise: a tombstone every snapshot sees, with
      nothing below the output level. */
  ghost predicate Dropped(input: seq<Entry>, k: nat, smallest: nat, deeper: set<File>)
    requires k < |input|
  {
    || LastSequence(input, k) <= smallest
    || (input[k].key.kind.Deletion? && input[k].key.seqno <= smallest && !Spanned(deeper, input[k].key.user))
  }

  /** What is left of the first n input entries. */
  ghost function Survivors(input: seq<Entry>, n: nat, smallest: nat, deeper: set<File>): seq<Entry>
    requires n <= |input|
  {
    if n == 0 then []
    else Survivors(input, n - 1, smallest, deeper)
         + if Dropped(input, n - 1, smallest, deeper) then [] else [input[n - 1]]
  }

  lemma {:induction false} SurvivorsAre(input: seq<Entry>, n: nat, smallest: nat, deeper: set<File>)
    requires n <= |input|
    ensures forall e :: e in Survivors(input, n, smallest, deeper)
                        <==> exists k :: 0 <= k < n && input[k] == e && !Dropped(input, k, smallest, deeper)
  {
    if n > 0 {
      SurvivorsAre(input, n - 1, smallest, deeper);
      hide Dropped;
      var before := Survivors(input, n - 1, smallest, deeper);
      forall e | exists k :: 0 <= k < n && input[k] == e && !Dropped(input, k, smallest, deeper)
        ensures e in Survivors(input, n, smallest, deeper)
      {
        var k :| 0 <= k < n && input[k] == e && !Dropped(input, k, smallest, deeper);
        if k < n - 1 {
          assert e in before;
        }
      }
    }
  }

  /** In a sorted input the predecessor of a repeated user key repeats it. */
  lemma Repeats(es: set<Entry>, input: seq<Entry>, i: nat, j: nat)
    requires Sorted(input) && Unique(es) && ToSet(input) <= es && i < j < |input|
    requires input[i].key.user == input[j].key.user
    ensures input[j - 1].key.user == input[j].key.user
    ensures input[j].key.seqno < input[j - 1].key.seqno <= input[i].key.seqno
  {
    assert input[i] in ToSet(input) && input[j] in ToSet(input) && input[j - 1] in ToSet(input);
    assert Less(input[j - 1].key, input[j].key);
    assert i == j - 1 || Less(input[i].key, input[j - 1].key);
  }

  /** Behind an entry every snapshot sees, all older input entries of its key go. */
  lemma ShadowedGo(es: set<Entry>, input: seq<Entry>, smallest: nat, deeper: set<File>, k: nat, x: Entry)
    requires Sorted(input) && Unique(es) && ToSet(input) <= es && k < |input|
    requires input[k].key.seqno <= smallest
    requires x in Survivors(input, |input|, smallest, deeper)
    requires x.key.user == input[k].key.user
    ensures x.key.seqno >= input[k].key.seqno
  {
    SurvivorsAre(input, |input|, smallest, deeper);
    var j :| 0 <= j < |input| && input[j] == x && !Dropped(input, j, smallest, deeper);
    if j > k {
      Repeats(es, input, k, j);
    } else if j < k {
      assert Less(x.key, input[k].key);
    }
  }

  lemma DroppedIsGone(input: seq<Entry>, smallest: nat, deeper: set<File>, k: nat)
    requires Sorted(input) && k < |input| && Dropped(input, k, smallest, deeper)
    ensures input[k] !in Survivors(input, |input|, smallest, deeper)
  {
    SurvivorsAre(input, |input|, smallest, deeper);
    forall j | 0 <= j < |input| && input[j] == input[k]
      ensures j == k
    {
      assert !Less(input[j].key, input[k].key);
    }
  }

  /** The newest visible entry of a key is never hidden by rule (A). */
  lemma NewestNotHidden(es: set<Entry>, input: seq<Entry>, smallest: nat, k: nat, s: nat)
    requires Sorted(input) && Unique(es) && ToSet(input) <= es && k < |input| && smallest <= s
    requires Newest(es, input[k].key.user, s, input[k])
    requires smallest < MAX_SEQUENCE
    ensures LastSequence(input, k) > smallest
  {
    if k > 0 && input[k - 1].key.user == input[k].key.user {
      Repeats(es, input, k - 1, k);
      assert input[k - 1] in ToSet(input);
    }
  }

  ghost function Remaining(es: set<Entry>, input: seq<Entry>, smallest: nat, deeper: set<File>): set<Entry> {
    es - ToSet(input) + ToSet(Survivors(input, |input|, smallest, deeper))
  }

  lemma RemainingShrinks(es: set<Entry>, input: seq<Entry>, smallest: nat, deeper: set<File>)
    requires ToSet(input) <= es
    ensures Remaining(es, input, smallest, deeper) <= es
  {
    SurvivorsAre(input, |input|, smallest, deeper);
    forall e | e in Survivors(input, |input|, smallest, deeper)
      ensures e in es
    {
      var k :| 0 <= k < |input| && input[k] == e && !Dropped(input, k, smallest, deeper);
      assert e in ToSet(input);
    }
  }

  /** The tombstone t of u is what every snapshot reads, it is among the inputs, and nothing below the output
      level keeps it alive. */
  ghost predicate DropsTombstone(es: set<Entry>, input: seq<Entry>, smallest: nat, deeper: set<File>,
                                 u: UserKey, t: Entry) {
    && Newest(es, u, smallest, t) && t in input && t.key.kind.Deletion? && !Spanned(deeper, u)
  }

  /** Once such a tombstone is gone, readers of its key at t's snapshots see exactly what was outside the inputs. */
  lemma BehindTombstone(es: set<Entry>, input: seq<Entry>, smallest: nat, deeper: set<File>, u: UserKey, t: Entry,
                        s: nat)
    requires Sorted(input) && Unique(es) && ToSet(input) <= es && smallest < MAX_SEQUENCE
    requires DropsTombstone(es, input, smallest, deeper, u, t)
    requires smallest <= s && Newest(es, u, s, t)
    ensures Read(Remaining(es, input, smallest, deeper), u, s) == Read(es - ToSet(input), u, smallest)
  {
    var after, rest := Remaining(es, input, smallest, deeper), es - ToSet(input);
    RemainingShrinks(es, input, smallest, deeper);
    var k :| 0 <= k < |input| && input[k] == t;
    DroppedIsGone(input, smallest, deeper, k);
    forall x | x in Survivors(input, |input|, smallest, deeper) && x.key.user == u
      ensures x.key.seqno > s
    {
      ShadowedGo(es, input, smallest, deeper, k, x);
      assert x in after && x != t;
    }
    forall x | x in rest && x.key.user == u && x.key.seqno <= s
      ensures x.key.seqno <= smallest
    {
      assert x.key.seqno <= t.key.seqno;
    }
    SameVisible(after, rest, u, s, smallest);
  }

  lemma SameVisible(a: set<Entry>, b: set<Entry>, u: UserKey, s: nat, s': nat)
    requires Unique(a) && Unique(b)
    requires forall x: Entry :: x.key.user == u ==> ((x in a && x.key.seqno <= s) <==> (x in b && x.key.seqno <= s'))
    ensures Read(a, u, s) == Read(b, u, s')
  {
    if e :| Newest(a, u, s, e) {
      assert Newest(b, u, s', e);
    } else {
      if f :| Newest(b, u, s', f) {
        assert Newest(a, u, s, f);
      }
    }
  }

  /** Dropping changes no read of u at s unless it drops a tombstone that hides something outside the inputs. */
  lemma DroppingPreserves(es: set<Entry>, input: seq<Entry>, smallest: nat, deeper: set<File>, u: UserKey, s: nat)
    requires Sorted(input) && Unique(es) && ToSet(input) <= es && smallest < MAX_SEQUENCE && smallest <= s
    requires forall t :: DropsTombstone(es, input, smallest, deeper, u, t)
                         ==> Read(es - ToSet(input), u, smallest) == None
    ensures Read(Remaining(es, input, smallest, deeper), u, s) == Read(es, u, s)
  {
    var after := Remaining(es, input, smallest, deeper);
    RemainingShrinks(es, input, smallest, deeper);
    if e :| Newest(es, u, s, e) {
      if e in after {
        assert Newest(after, u, s, e);
      } else {
        assert e in input;
        var k :| 0 <= k < |input| && input[k] == e;
        SurvivorsAre(input, |input|, smallest, deeper);
        NewestNotHidden(es, input, smallest, k, s);
        assert Dropped(input, k, smallest, deeper);
        assert DropsTombstone(es, input, smallest, deeper, u, e);
        BehindTombstone(es, input, smallest, deeper, u, e, s);
      }
    } else {
      if f :| Newest(after, u, s, f) {
        var g := NewestExists(es, u, s, f);
      }
    }
  }

  /** And when it does, the read at the smallest snapshot changes. */
  lemma DroppingReveals(es: set<Entry>, input: seq<Entry>, smallest: nat, deeper: set<File>, u: UserKey, t: Entry)
    requires Sorted(input) && Unique(es) && ToSet(input) <= es && smallest < MAX_SEQUENCE
    requires DropsTombstone(es, input, smallest, deeper, u, t)
    requires Read(es - ToSet(input), u, smallest) != None
    ensures Read(Remaining(es, input, smallest, deeper), u, smallest) != Read(es, u, smallest)
  {
    BehindTombstone(es, input, smallest, deeper, u, t, smallest);
    ReadIsNewest(es, u, smallest, t);
  }
}
