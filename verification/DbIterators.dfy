/** DBIter (db/db_iter.cc): a cursor over the user keys visible at a sequence number, on top of a cursor over all
    entries. */
module DbIterators {
  import opened InternalKeys
  import opened Visibility
  import opened Versions
  import opened Cursors

  predicate Vis(es: seq<Entry>, j: nat, s: nat)
    requires j < |es|
  {
    es[j].key.seqno <= s
  }

  function User(es: seq<Entry>, j: nat): UserKey
    requires j < |es|
  {
    es[j].key.user
  }

  /** No entry of the same user key before j is visible. */
  ghost predicate FirstVisible(es: seq<Entry>, j: nat, s: nat)
    requires j < |es|
  {
    Vis(es, j, s) && forall i :: 0 <= i < j && User(es, i) == User(es, j) ==> !Vis(es, i, s)
  }

  /** The entry at j is what a read of its user key returns. */
  ghost predicate Shows(es: seq<Entry>, j: nat, s: nat)
    requires j < |es|
  {
    FirstVisible(es, j, s) && es[j].key.kind.Put?
  }

  type Pair = (UserKey, Value)

  /** What the first n entries show. */
  ghost function Shown(es: seq<Entry>, s: nat, n: nat): seq<Pair>
    requires n <= |es|
  {
    if n == 0 then []
    else Shown(es, s, n - 1) + if Shows(es, n - 1, s) then [(User(es, n - 1), es[n - 1].value)] else []
  }

  /** The sorted map of user keys visible at s, as a list. */
  ghost function View(es: seq<Entry>, s: nat): seq<Pair> {
    Shown(es, s, |es|)
  }

  ghost predicate Increasing(ps: seq<Pair>) {
    forall i, j :: 0 <= i < j < |ps| ==> ps[i].0 < ps[j].0
  }

  lemma UsersAscend(es: seq<Entry>, i: nat, j: nat)
    requires Sorted(es) && i <= j < |es|
    ensures User(es, i) <= User(es, j)
  {
    assert i == j || Less(es[i].key, es[j].key);
  }

  lemma {:induction false} ShownFrom(es: seq<Entry>, s: nat, n: nat)
    requires n <= |es|
    ensures forall p :: p in Shown(es, s, n)
                        <==> exists j :: 0 <= j < n && Shows(es, j, s) && p == (User(es, j), es[j].value)
  {
    if n > 0 {
      ShownFrom(es, s, n - 1);
      hide Shows;
      forall p | exists j :: 0 <= j < n && Shows(es, j, s) && p == (User(es, j), es[j].value)
        ensures p in Shown(es, s, n)
      {
        var j :| 0 <= j < n && Shows(es, j, s) && p == (User(es, j), es[j].value);
        if j < n - 1 {
          assert p in Shown(es, s, n - 1);
        }
      }
    }
  }

  lemma {:induction false} ShownIncreasing(es: seq<Entry>, s: nat, n: nat)
    requires Sorted(es) && n <= |es|
    ensures Increasing(Shown(es, s, n))
    ensures n < |es| && Shows(es, n, s) ==> forall p :: p in Shown(es, s, n) ==> p.0 < User(es, n)
  {
    if n > 0 {
      ShownIncreasing(es, s, n - 1);
      var before := Shown(es, s, n - 1);
      assert forall i :: 0 <= i < |before| ==> before[i] in before;
    }
    ShownFrom(es, s, n);
    if n < |es| && Shows(es, n, s) {
      forall p | p in Shown(es, s, n) ensures p.0 < User(es, n) {
        var j :| 0 <= j < n && Shows(es, j, s) && p == (User(es, j), es[j].value);
        UsersAscend(es, j, n);
      }
    }
  }

  /** The list is strictly increasing and holds exactly what reads at s return. */
  lemma ViewIsReads(es: seq<Entry>, s: nat, u: UserKey, v: Value)
    requires Sorted(es) && Unique(ToSet(es))
    ensures Increasing(View(es, s))
    ensures (u, v) in View(es, s) <==> Read(ToSet(es), u, s) == Some(v)
  {
    ShownIncreasing(es, s, |es|);
    if (u, v) in View(es, s) {
      ShownIsRead(es, s, u, v);
    }
    if Read(ToSet(es), u, s) == Some(v) {
      ReadIsShown(es, s, u, v);
    }
  }

  lemma ShownIsRead(es: seq<Entry>, s: nat, u: UserKey, v: Value)
    requires Sorted(es) && Unique(ToSet(es)) && (u, v) in View(es, s)
    ensures Read(ToSet(es), u, s) == Some(v)
  {
    ShownFrom(es, s, |es|);
    var j :| 0 <= j < |es| && Shows(es, j, s) && (u, v) == (User(es, j), es[j].value);
    FirstIsNewest(es, j, s);
    ReadIsNewest(ToSet(es), u, s, es[j]);
  }

  lemma ReadIsShown(es: seq<Entry>, s: nat, u: UserKey, v: Value)
    requires Sorted(es) && Unique(ToSet(es)) && Read(ToSet(es), u, s) == Some(v)
    ensures (u, v) in View(es, s)
  {
    ShownFrom(es, s, |es|);
    var e :| Newest(ToSet(es), u, s, e);
    ReadIsNewest(ToSet(es), u, s, e);
    var j :| 0 <= j < |es| && es[j] == e;
    NewestIsFirst(es, j, s);
    assert Shows(es, j, s);
  }

  lemma FirstIsNewest(es: seq<Entry>, j: nat, s: nat)
    requires Sorted(es) && j < |es| && FirstVisible(es, j, s)
    ensures Newest(ToSet(es), User(es, j), s, es[j])
  {
    forall x | x in ToSet(es) && x.key.user == User(es, j) && x.key.seqno <= s
      ensures x.key.seqno <= es[j].key.seqno
    {
      var i :| 0 <= i < |es| && es[i] == x;
      assert Vis(es, i, s) && User(es, i) == User(es, j);
      assert i <= j || Less(es[j].key, es[i].key);
    }
  }

  lemma NewestIsFirst(es: seq<Entry>, j: nat, s: nat)
    requires Sorted(es) && Unique(ToSet(es)) && j < |es| && Newest(ToSet(es), User(es, j), s, es[j])
    ensures FirstVisible(es, j, s)
  {
    forall i | 0 <= i < j && User(es, i) == User(es, j)
      ensures !Vis(es, i, s)
    {
      assert Less(es[i].key, es[j].key);
      assert es[i] in ToSet(es) && es[j] in ToSet(es);
    }
  }

  // ---- Positions ---------------------------------------------------------------------------------------------

  /** How many keys of the list are below u. */
  function KeyBound(ps: seq<Pair>, u: UserKey): (n: nat)
    ensures n <= |ps| && (forall i :: 0 <= i < n ==> ps[i].0 < u) && (n < |ps| ==> u <= ps[n].0)
  {
    if ps == [] || u <= ps[0].0 then 0 else 1 + KeyBound(ps[1..], u)
  }

  ghost function Rank(es: seq<Entry>, s: nat, n: nat): nat
    requires n <= |es|
  {
    |Shown(es, s, n)|
  }

  ghost predicate NothingShows(es: seq<Entry>, s: nat, lo: nat, hi: nat) {
    forall j :: lo <= j < hi && j < |es| ==> !Shows(es, j, s)
  }

  lemma {:induction false} RankSame(es: seq<Entry>, s: nat, lo: nat, hi: nat)
    requires lo <= hi <= |es| && NothingShows(es, s, lo, hi)
    ensures Rank(es, s, hi) == Rank(es, s, lo)
  {
    if lo < hi {
      RankSame(es, s, lo, hi - 1);
    }
  }

  lemma RankNone(es: seq<Entry>, s: nat)
    ensures Rank(es, s, 0) == 0
  {
  }

  lemma {:induction false} ShownPrefix(es: seq<Entry>, s: nat, n: nat, m: nat)
    requires n <= m <= |es|
    ensures Shown(es, s, n) <= Shown(es, s, m)
  {
    if n < m {
      ShownPrefix(es, s, n, m - 1);
    }
  }

  /** Where an entry that shows stands in the list. */
  lemma RankIsPlace(es: seq<Entry>, s: nat, j: nat)
    requires Sorted(es) && j < |es| && Shows(es, j, s)
    ensures var view := View(es, s);
            && Rank(es, s, |es|) == |view| && Rank(es, s, j) < |view| && view[Rank(es, s, j)] == (User(es, j), es[j].value)
            && KeyBound(view, User(es, j)) == Rank(es, s, j) && Rank(es, s, j + 1) == Rank(es, s, j) + 1
  {
    var view, r := View(es, s), Rank(es, s, j);
    ShownPrefix(es, s, j + 1, |es|);
    ShownIncreasing(es, s, |es|);
    assert Shown(es, s, j + 1)[r] == (User(es, j), es[j].value);
    KeyBoundIs(view, User(es, j), r);
  }

  lemma KeyBoundIs(ps: seq<Pair>, u: UserKey, n: nat)
    requires Increasing(ps) && n <= |ps|
    requires (n > 0 ==> ps[n - 1].0 < u) && (n < |ps| ==> u <= ps[n].0)
    ensures KeyBound(ps, u) == n
  {
    KeysAscend(ps);
  }

  lemma KeysAscend(ps: seq<Pair>)
    requires Increasing(ps)
    ensures forall i, j :: 0 <= i <= j < |ps| ==> ps[i].0 <= ps[j].0
  {
  }

  /** The cursor an entry that shows stands for, reached from a rank. */
  lemma PlaceAtRank(es: seq<Entry>, s: nat, j: nat, r: nat)
    requires Sorted(es) && j < |es| && Shows(es, j, s) && Rank(es, s, j) == r
    ensures r < |View(es, s)| && KeyBound(View(es, s), User(es, j)) == r
  {
    RankIsPlace(es, s, j);
  }

  /** A later entry of a user key that is visible already does not show. */
  lemma RepeatHidden(es: seq<Entry>, s: nat, i: nat, j: nat)
    requires i < j < |es| && User(es, i) == User(es, j) && Vis(es, i, s)
    ensures !Shows(es, j, s)
  {
  }

  /** Where a forward scan over [from, ..) looks for the first entry at or past lo that shows. Before lo it only
      meets entries it skips; what it has passed it recognises by user key. */
  ghost predicate Scanning(es: seq<Entry>, s: nat, lo: nat, from: nat, i: nat, skipping: bool, skip: Option<UserKey>) {
    && from <= i && from <= lo <= |es| && (skipping ==> skip.Some?)
    && NothingShows(es, s, lo, i)
    && (forall j :: from <= j < lo && Vis(es, j, s) ==> es[j].key.kind.Put? && skipping && User(es, j) <= skip.value)
    && (forall j, k :: 0 <= j < i && j < |es| && Vis(es, j, s) && from <= k < |es|
                       ==> User(es, j) < User(es, k) || (skipping && User(es, j) <= skip.value))
    && (skipping ==> forall k :: lo <= k < |es| && i <= k && User(es, k) <= skip.value ==> !Shows(es, k, s))
  }

  lemma SkipFacts(es: seq<Entry>, s: nat, lo: nat, from: nat, i: nat, skipping: bool, skip: Option<UserKey>)
    requires Scanning(es, s, lo, from, i, skipping, skip)
    ensures skipping ==> skip.Some?
  {
  }

  lemma ScanPastDeletion(es: seq<Entry>, s: nat, lo: nat, from: nat, i: nat, skipping: bool, skip: Option<UserKey>)
    requires Sorted(es) && Scanning(es, s, lo, from, i, skipping, skip) && i < |es|
    requires Vis(es, i, s) && es[i].key.kind.Deletion?
    ensures Scanning(es, s, lo, from, i + 1, true, Some(User(es, i)))
  {
    assert i >= lo;
    forall j | 0 <= j < i ensures User(es, j) <= User(es, i) {
      UsersAscend(es, j, i);
    }
    forall k | lo <= k < |es| && i + 1 <= k && User(es, k) <= User(es, i) ensures !Shows(es, k, s) {
      UsersAscend(es, i, k);
      RepeatHidden(es, s, i, k);
    }
  }

  lemma ScanPastHidden(es: seq<Entry>, s: nat, lo: nat, from: nat, i: nat, skipping: bool, skip: Option<UserKey>)
    requires Sorted(es) && Scanning(es, s, lo, from, i, skipping, skip) && i < |es|
    requires skipping && User(es, i) <= skip.value
    ensures Scanning(es, s, lo, from, i + 1, skipping, skip)
  {
    hide Shows;
  }

  lemma ScanPastInvisible(es: seq<Entry>, s: nat, lo: nat, from: nat, i: nat, skipping: bool, skip: Option<UserKey>)
    requires Scanning(es, s, lo, from, i, skipping, skip) && i < |es| && !Vis(es, i, s)
    ensures Scanning(es, s, lo, from, i + 1, skipping, skip)
  {
  }

  lemma ScanFinds(es: seq<Entry>, s: nat, lo: nat, from: nat, i: nat, skipping: bool, skip: Option<UserKey>)
    requires Scanning(es, s, lo, from, i, skipping, skip) && i < |es|
    requires Vis(es, i, s) && es[i].key.kind.Put? && !(skipping && User(es, i) <= skip.value)
    ensures lo <= i && Shows(es, i, s) && NothingShows(es, s, lo, i)
  {
  }

  lemma ScanEnds(es: seq<Entry>, s: nat, lo: nat, from: nat, i: nat, skipping: bool, skip: Option<UserKey>)
    requires Scanning(es, s, lo, from, i, skipping, skip)
    ensures lo <= |es| && NothingShows(es, s, lo, i)
  {
  }

  /** Where a backward scan from hi stands when everything from next on has been seen: kind and saved are those of
      the visible entry seen last, the one at d if it is a value. */
  ghost predicate ScanningBack(es: seq<Entry>, s: nat, hi: nat, next: nat, kind: Kind, saved: Option<UserKey>,
                               value: Value, d: nat) {
    && next <= hi <= |es|
    && (kind.Deletion? ==> NothingShows(es, s, next, hi))
    && (kind.Put? ==> next <= d < hi && Vis(es, d, s) && es[d].key.kind.Put? && saved == Some(User(es, d))
                      && value == es[d].value && NothingShows(es, s, d + 1, hi)
                      && forall j :: next <= j < d ==> !Vis(es, j, s))
  }

  lemma BackPastInvisible(es: seq<Entry>, s: nat, hi: nat, next: nat, kind: Kind, saved: Option<UserKey>,
                          value: Value, d: nat)
    requires ScanningBack(es, s, hi, next, kind, saved, value, d) && next > 0 && !Vis(es, next - 1, s)
    ensures ScanningBack(es, s, hi, next - 1, kind, saved, value, d)
  {
  }

  /** A visible entry of the same key overrides the one saved. */
  lemma BackOverrides(es: seq<Entry>, s: nat, hi: nat, next: nat, kind: Kind, saved: Option<UserKey>,
                      value: Value, d: nat)
    requires Sorted(es) && ScanningBack(es, s, hi, next, kind, saved, value, d) && next > 0 && Vis(es, next - 1, s)
    requires kind.Put? ==> saved.Some? && User(es, next - 1) >= saved.value
    ensures NothingShows(es, s, next, hi)
    ensures es[next - 1].key.kind.Deletion? ==> NothingShows(es, s, next - 1, hi)
  {
    if kind.Put? {
      UsersAscend(es, next - 1, d);
      RepeatHidden(es, s, next - 1, d);
    }
  }

  /** A visible entry of a smaller key confirms it, and so does the front of the list. */
  lemma BackConfirms(es: seq<Entry>, s: nat, hi: nat, next: nat, saved: Option<UserKey>, value: Value, d: nat)
    requires Sorted(es) && ScanningBack(es, s, hi, next, Put, saved, value, d)
    requires next > 0 ==> Vis(es, next - 1, s) && User(es, next - 1) < User(es, d)
    ensures d < hi && Shows(es, d, s) && NothingShows(es, s, d + 1, hi)
  {
    forall i | 0 <= i < d && User(es, i) == User(es, d)
      ensures !Vis(es, i, s)
    {
      if i < next {
        UsersAscend(es, i, next - 1);
      }
    }
  }

  lemma BackBegins(es: seq<Entry>, s: nat, hi: nat, saved: Option<UserKey>, value: Value)
    requires hi <= |es|
    ensures ScanningBack(es, s, hi, hi, Deletion, saved, value, 0)
  {
  }

  lemma BackSaves(es: seq<Entry>, s: nat, hi: nat, next: nat, kind: Kind, saved: Option<UserKey>, value: Value, d: nat)
    requires 0 < next <= hi <= |es| && Vis(es, next - 1, s) && kind == es[next - 1].key.kind
    requires NothingShows(es, s, next, hi) && (kind.Deletion? ==> NothingShows(es, s, next - 1, hi))
    requires kind.Put? ==> saved == Some(User(es, next - 1)) && value == es[next - 1].value && d == next - 1
    ensures ScanningBack(es, s, hi, next - 1, kind, saved, value, d)
  {
  }

  // ---- Where the operations start their scans ----------------------------------------------------------------

  ghost predicate ShownWithin(es: seq<Entry>, s: nat, i: nat, n: nat, u: UserKey) {
    exists j :: i <= j < n && j < |es| && Shows(es, j, s) && u == User(es, j)
  }

  lemma {:induction false} ShownRest(es: seq<Entry>, s: nat, i: nat, n: nat)
    requires i <= n <= |es|
    ensures Rank(es, s, i) <= Rank(es, s, n)
    ensures forall x :: Rank(es, s, i) <= x < Rank(es, s, n) ==> ShownWithin(es, s, i, n, Shown(es, s, n)[x].0)
  {
    if i < n {
      ShownRest(es, s, i, n - 1);
      forall x | Rank(es, s, i) <= x < Rank(es, s, n)
        ensures ShownWithin(es, s, i, n, Shown(es, s, n)[x].0)
      {
        if x < Rank(es, s, n - 1) {
          assert ShownWithin(es, s, i, n - 1, Shown(es, s, n - 1)[x].0);
        } else {
          assert Shows(es, n - 1, s) && Shown(es, s, n)[x].0 == User(es, n - 1);
        }
      }
    }
  }

  /** If i splits the list so that whatever shows before is below u and nothing after is, i's rank is u's place. */
  lemma RankIsBound(es: seq<Entry>, s: nat, i: nat, u: UserKey)
    requires Sorted(es) && i <= |es|
    requires forall j :: 0 <= j < i && Vis(es, j, s) ==> User(es, j) < u
    requires forall j :: i <= j < |es| ==> u <= User(es, j)
    ensures KeyBound(View(es, s), u) == Rank(es, s, i)
  {
    var view, r := View(es, s), Rank(es, s, i);
    ShownPrefix(es, s, i, |es|);
    ShownIncreasing(es, s, |es|);
    if r > 0 {
      ShownRest(es, s, 0, i);
      assert view[r - 1] == Shown(es, s, i)[r - 1];
    }
    if r < |view| {
      ShownRest(es, s, i, |es|);
    }
    KeyBoundIs(view, u, r);
  }

  lemma SeekSplits(es: seq<Entry>, s: nat, u: UserKey)
    requires Sorted(es)
    ensures var i := LowerBound(es, SeekKey(u, s));
            && (forall j :: 0 <= j < i && Vis(es, j, s) ==> User(es, j) < u)
            && (forall j :: i <= j < |es| ==> u <= User(es, j))
  {
    var i := LowerBound(es, SeekKey(u, s));
    forall j | 0 <= j < i && Vis(es, j, s) ensures User(es, j) < u {
      SeekKeySplits(u, s, es[j].key);
    }
    forall j | i <= j < |es| ensures u <= User(es, j) {
      SeekKeySplits(u, s, es[i].key);
      UsersAscend(es, i, j);
    }
  }

  lemma SeekStarts(es: seq<Entry>, s: nat, u: UserKey, saved: Option<UserKey>)
    requires Sorted(es)
    ensures var i := LowerBound(es, SeekKey(u, s));
            Scanning(es, s, i, i, i, false, saved) && KeyBound(View(es, s), u) == Rank(es, s, i)
  {
    var i := LowerBound(es, SeekKey(u, s));
    SeekSplits(es, s, u);
    RankIsBound(es, s, i, u);
    hide Shows, Sorted;
    forall j, k | 0 <= j < i && Vis(es, j, s) && i <= k < |es| ensures User(es, j) < User(es, k) {
      assert User(es, j) < u <= User(es, k);
    }
  }

  /** Next continues past the entry shown, or from just before it when it was reached going backward. */
  lemma NextStarts(es: seq<Entry>, s: nat, d: nat, from: nat)
    requires Sorted(es) && d < |es| && Shows(es, d, s) && from <= d + 1
    requires forall j :: from <= j < d ==> !Vis(es, j, s)
    ensures Scanning(es, s, d + 1, from, from, true, Some(User(es, d)))
  {
    forall j | 0 <= j <= d ensures User(es, j) <= User(es, d) {
      UsersAscend(es, j, d);
    }
    forall k | d < k < |es| && User(es, k) <= User(es, d) ensures !Shows(es, k, s) {
      UsersAscend(es, d, k);
      RepeatHidden(es, s, d, k);
    }
  }

  /** Entries of the key shown that precede it do not show. */
  lemma RunHidden(es: seq<Entry>, s: nat, a: nat, d: nat)
    requires a <= d < |es| && Shows(es, d, s)
    requires forall j :: a <= j < d ==> User(es, j) == User(es, d) || !Vis(es, j, s)
    ensures Rank(es, s, a) == Rank(es, s, d)
  {
    RankSame(es, s, a, d);
  }

  lemma BackFacts(es: seq<Entry>, s: nat, hi: nat, next: nat, kind: Kind, saved: Option<UserKey>, value: Value,
                  d: nat)
    requires ScanningBack(es, s, hi, next, kind, saved, value, d)
    ensures next <= hi <= |es| && (kind.Deletion? ==> NothingShows(es, s, next, hi))
    ensures kind.Put? ==> next <= d < |es| && saved == Some(User(es, d)) && value == es[d].value
                          && forall j :: next <= j < d ==> !Vis(es, j, s)
  {
  }

  class DbIterator {
    const sequence: nat
    var iter: Cursor<Entry>
    var forward: bool
    var valid: bool
    var savedKey: Option<UserKey>
    var savedValue: Value

    constructor (es: seq<Entry>, sequence: nat)
      requires Sorted(es)
      ensures Valid() && Abs() == Cursor(View(es, sequence), None)
    {
      this.sequence, iter := sequence, Cursor(es, None);
      forward, valid, savedKey, savedValue := true, false, None, "";
    }

    /** Moving forward, the entry cursor is on the entry shown. Moving backward it is on the nearest visible entry
        before the one shown, which has a smaller user key, or nowhere if there is none; entries in between, even
        of the shown key, are only known to be invisible. */
    ghost predicate Valid()
      reads this
    {
      && Sorted(iter.items)
      && (valid && forward ==> iter.Valid() && Shows(iter.items, iter.at.value, sequence))
      && (valid && !forward ==> exists d: nat :: Current(d))
    }

    ghost predicate Current(d: nat)
      reads this
    {
      && d < |iter.items| && Shows(iter.items, d, sequence)
      && savedKey == Some(User(iter.items, d)) && savedValue == iter.items[d].value
      && Before(d)
    }

    /** The entry cursor is on the nearest visible entry before d, of a smaller user key, or nowhere. */
    ghost predicate Before(d: nat)
      reads this
    {
      && d < |iter.items|
      && (iter.Valid() ==> iter.at.value < d && Vis(iter.items, iter.at.value, sequence)
                           && User(iter.items, iter.at.value) < User(iter.items, d))
      && forall j :: (if iter.Valid() then iter.at.value + 1 else 0) <= j < d ==> !Vis(iter.items, j, sequence)
    }

    function Key(): UserKey
      reads this
      requires valid && (forward ==> iter.Valid()) && (!forward ==> savedKey.Some?)
    {
      if forward then iter.Item().key.user else savedKey.value
    }

    function Value(): Value
      reads this
      requires valid && (forward ==> iter.Valid())
    {
      if forward then iter.Item().value else savedValue
    }

    ghost function Listing(): seq<Pair>
      reads this
    {
      View(iter.items, sequence)
    }

    /** The cursor this iterator amounts to. */
    ghost function Abs(): (a: Cursor<Pair>)
      reads this
      requires Valid()
      ensures valid <==> a.Valid()
      ensures valid ==> a.Item() == (Key(), Value())
    {
      if !valid then Cursor(Listing(), None)
      else
        var d: nat := Place();
        RankIsPlace(iter.items, sequence, d);
        Cursor(Listing(), None).ToIndex(KeyBound(Listing(), Key()))
    }

    /** The entry shown. */
    ghost function Place(): (d: nat)
      reads this
      requires Valid() && valid
      ensures d < |iter.items| && Shows(iter.items, d, sequence)
      ensures (User(iter.items, d), iter.items[d].value) == (Key(), Value())
      ensures if forward then d == iter.at.value else Current(d)
    {
      if forward then iter.at.value else var d: nat :| Current(d); d
    }

    /** The scan forward: stops on the first entry at or past lo that shows. */
    method FindNextUserEntry(startSkipping: bool, ghost lo: nat)
      requires Sorted(iter.items) && forward && iter.Valid()
      requires Scanning(iter.items, sequence, lo, iter.at.value, iter.at.value, startSkipping, savedKey)
      modifies this
      ensures iter.items == old(iter.items) && Valid()
      ensures Abs() == Cursor(Listing(), None).ToIndex(Rank(iter.items, sequence, lo))
    {
      hide Scanning, Sorted, Shows, NothingShows;
      var skipping := startSkipping;
      ghost var es, from := iter.items, iter.at.value;
      while true
        invariant iter.items == es && forward && iter.Valid()
        invariant Scanning(es, sequence, lo, from, iter.at.value, skipping, savedKey)
        decreases |es| - iter.at.value
      {
        var e := iter.Item();
        ghost var i := iter.at.value;
        SkipFacts(es, sequence, lo, from, i, skipping, savedKey);
        if e.key.seqno <= sequence {
          if e.key.kind.Deletion? {
            ScanPastDeletion(es, sequence, lo, from, i, skipping, savedKey);
            savedKey, skipping := Some(e.key.user), true;
          } else if skipping && e.key.user <= savedKey.value {
            ScanPastHidden(es, sequence, lo, from, i, skipping, savedKey);
          } else {
            ScanFinds(es, sequence, lo, from, i, skipping, savedKey);
            RankSame(es, sequence, lo, i);
            PlaceAtRank(es, sequence, i, Rank(es, sequence, lo));
            valid, savedKey := true, None;
            return;
          }
        } else {
          ScanPastInvisible(es, sequence, lo, from, i, skipping, savedKey);
        }
        iter := iter.Next();
        if !iter.Valid() {
          break;
        }
      }
      ScanEnds(es, sequence, lo, from, |es|, skipping, savedKey);
      RankSame(es, sequence, lo, |es|);
      savedKey, valid := None, false;
    }

    ghost function Unread(): nat
      reads this
    {
      if iter.Valid() then iter.at.value + 1 else 0
    }

    /** The loop of FindPrevUserEntry: back to the first entry of another key behind a value, or off the front. */
    method ScanBack() returns (kind: Kind, ghost d: nat)
      requires Sorted(iter.items) && !forward
      modifies this
      ensures iter.items == old(iter.items) && !forward
      ensures ScanningBack(iter.items, sequence, old(Unread()), Unread(), kind, savedKey, savedValue, d)
      ensures kind.Deletion? ==> !iter.Valid()
      ensures kind.Put? && iter.Valid() ==> Vis(iter.items, iter.at.value, sequence) && savedKey.Some?
                                            && User(iter.items, iter.at.value) < savedKey.value
    {
      hide ScanningBack, Sorted, Shows, NothingShows, Shown, KeyBound, View;
      kind := Deletion;
      d := 0;
      ghost var es, hi := iter.items, Unread();
      BackBegins(es, sequence, hi, savedKey, savedValue);
      if iter.Valid() {
        while true
          invariant iter.items == es && !forward && iter.Valid()
          invariant ScanningBack(es, sequence, hi, iter.at.value + 1, kind, savedKey, savedValue, d)
          decreases iter.at.value
        {
          var e := iter.Item();
          ghost var next := iter.at.value + 1;
          BackFacts(es, sequence, hi, next, kind, savedKey, savedValue, d);
          if e.key.seqno <= sequence {
            if !kind.Deletion? && e.key.user < savedKey.value {
              break;
            }
            BackOverrides(es, sequence, hi, next, kind, savedKey, savedValue, d);
            kind := e.key.kind;
            if kind.Deletion? {
              savedKey, savedValue := None, "";
            } else {
              savedKey, savedValue := Some(e.key.user), e.value;
              d := iter.at.value;
            }
            BackSaves(es, sequence, hi, next, kind, savedKey, savedValue, d);
          } else {
            BackPastInvisible(es, sequence, hi, next, kind, savedKey, savedValue, d);
          }
          iter := iter.Prev();
          if !iter.Valid() {
            break;
          }
        }
      }
    }

    /** The scan backward: stops just before the last entry below the start that shows, and saves that entry. */
    method FindPrevUserEntry()
      requires Sorted(iter.items) && !forward
      modifies this
      ensures iter.items == old(iter.items) && Valid()
      ensures Abs() == Cursor(Listing(), None).ToIndex(Rank(iter.items, sequence, old(Unread())) - 1)
    {
      hide ScanningBack, Sorted, Shows, NothingShows, Shown, KeyBound, View;
      ghost var es, hi := iter.items, Unread();
      var kind, d := ScanBack();
      BackFacts(es, sequence, hi, Unread(), kind, savedKey, savedValue, d);
      if kind.Deletion? {
        RankSame(es, sequence, 0, hi);
        RankNone(es, sequence);
        valid, forward, savedKey, savedValue := false, true, None, "";
      } else {
        BackConfirms(es, sequence, hi, Unread(), savedKey, savedValue, d);
        RankSame(es, sequence, d + 1, hi);
        RankIsPlace(es, sequence, d);
        valid := true;
        assert Current(d);
      }
    }

    method SeekToFirst()
      requires Valid()
      modifies this
      ensures Valid() && Abs() == old(Abs()).First()
    {
      hide Shows, Sorted;
      forward, savedValue := true, "";
      iter := iter.First();
      if iter.Valid() {
        FindNextUserEntry(false, 0);
      } else {
        valid := false;
      }
    }

    method SeekToLast()
      requires Valid()
      modifies this
      ensures Valid() && Abs() == old(Abs()).Last()
    {
      hide Shows, Sorted;
      forward, savedValue := false, "";
      iter := iter.Last();
      FindPrevUserEntry();
    }

    method Seek(target: UserKey)
      requires Valid()
      modifies this
      ensures Valid() && Abs() == Cursor(Listing(), None).ToIndex(KeyBound(Listing(), target)) && Listing() == old(Listing())
    {
      hide Shows, Sorted;
      forward, savedValue, savedKey := true, "", None;
      SeekStarts(iter.items, sequence, target, None);
      iter := SeekEntry(iter, SeekKey(target, sequence));
      if iter.Valid() {
        FindNextUserEntry(false, iter.at.value);
      } else {
        valid := false;
      }
    }

    method Next()
      requires Valid() && valid
      modifies this
      ensures Valid() && Abs() == old(Abs()).Next()
    {
      hide Shows, Sorted, Shown, KeyBound, View, Scanning;
      ghost var d := Place();
      RankIsPlace(iter.items, sequence, d);
      NextStarts(iter.items, sequence, d, if forward then d + 1 else Unread());
      if !forward {
        forward := true;
        if !iter.Valid() {
          iter := iter.First();
        } else {
          iter := iter.Next();
        }
      } else {
        savedKey := Some(iter.Item().key.user);
        iter := iter.Next();
      }
      if !iter.Valid() {
        valid, savedKey := false, None;
        return;
      }
      FindNextUserEntry(true, d + 1);
    }

    method Prev()
      requires Valid() && valid
      modifies this
      ensures Valid() && Abs() == old(Abs()).Prev()
    {
      hide Shows, Sorted;
      ghost var d, es := Place(), iter.items;
      RankIsPlace(es, sequence, d);
      if forward {
        savedKey := Some(iter.Item().key.user);
        while true
          invariant iter.items == es && forward && iter.Valid() && savedKey == Some(User(es, d)) && iter.at.value <= d
          invariant forall j :: iter.at.value <= j < d ==> User(es, j) == User(es, d)
          decreases iter.at.value
        {
          iter := iter.Prev();
          if !iter.Valid() {
            RunHidden(es, sequence, 0, d);
            valid, savedKey, savedValue := false, None, "";
            return;
          }
          UsersAscend(es, iter.at.value, d);
          if iter.Item().key.user < savedKey.value {
            break;
          }
        }
        forward := false;
      }
      RunHidden(es, sequence, Unread(), d);
      FindPrevUserEntry();
    }
  }
}
