/** How a table finds a key: an index of separators over sorted blocks. */
module Tables {
  import opened Coding
  import opened Comparators
  import opened Blocks
  import opened BlockIterators

  type Lists = seq<seq<Pair>>

  function Joined(blocks: Lists): seq<Pair> {
    if blocks == [] then [] else Joined(blocks[..|blocks| - 1]) + blocks[|blocks| - 1]
  }

  function LastKey(block: seq<Pair>): Bytes
    requires block != []
  {
    block[|block| - 1].key
  }

  /** sep may stand between a block ending with last and one beginning with first: it is last itself, or its user key
      lies between theirs. */
  predicate Separates(sep: Bytes, last: Bytes, first: Bytes) {
    sep == last || (Less(UserOf(last), UserOf(sep)) && Less(UserOf(sep), UserOf(first)))
  }

  /** No block is empty, keys ascend throughout, and the separators stand between the blocks; the last one only
      after its block. */
  ghost predicate Separated(blocks: Lists, seps: seq<Bytes>) {
    && |seps| <= |blocks| && (forall i :: 0 <= i < |blocks| ==> blocks[i] != [])
    && KeysAscend(Joined(blocks), InternalLess)
    && (forall i {:trigger seps[i]} :: 0 <= i < |seps| ==> !InternalLess(seps[i], LastKey(blocks[i])))
    && (forall i {:trigger seps[i]} :: 0 <= i < |seps| && i + 1 < |blocks|
                                      ==> Separates(seps[i], LastKey(blocks[i]), blocks[i + 1][0].key))
  }

  lemma InternalStrict()
    ensures StrictOrder(InternalLess)
  {
    forall a, b, c
      ensures InternalLess(a, b) ==> !InternalLess(b, a)
      ensures InternalLess(a, b) && InternalLess(b, c) ==> InternalLess(a, c)
      ensures InternalLess(a, c) ==> InternalLess(a, b) || InternalLess(b, c)
    {
      InternalOrder(a, b, c);
    }
    hide InternalLess;
  }

  lemma JoinedSnoc(blocks: Lists, b: seq<Pair>)
    ensures Joined(blocks + [b]) == Joined(blocks) + b
  {
    assert (blocks + [b])[..|blocks|] == blocks;
  }

  function Start(blocks: Lists, i: nat): nat
    requires i <= |blocks|
  {
    |Joined(blocks[..i])|
  }

  lemma {:induction false} PairAt(blocks: Lists, i: nat, m: nat)
    requires i < |blocks| && m < |blocks[i]|
    ensures Start(blocks, i + 1) == Start(blocks, i) + |blocks[i]|
    ensures Start(blocks, i) + m < |Joined(blocks)| && Joined(blocks)[Start(blocks, i) + m] == blocks[i][m]
  {
    var n := |blocks| - 1;
    assert blocks[..i + 1][..i] == blocks[..i];
    if i < n {
      PairAt(blocks[..n], i, m);
      assert blocks[..n][..i] == blocks[..i] && blocks[..n][..i + 1] == blocks[..i + 1];
    } else {
      assert blocks[..n + 1] == blocks;
    }
  }

  lemma {:induction false} BlockOf(blocks: Lists, x: nat) returns (i: nat, m: nat)
    requires x < |Joined(blocks)|
    ensures i < |blocks| && m < |blocks[i]| && x == Start(blocks, i) + m && Joined(blocks)[x] == blocks[i][m]
  {
    var n := |blocks| - 1;
    if x < |Joined(blocks[..n])| {
      i, m := BlockOf(blocks[..n], x);
      assert blocks[..n][..i] == blocks[..i];
    } else {
      i, m := n, x - |Joined(blocks[..n])|;
    }
  }

  lemma {:induction false} StartsGrow(blocks: Lists, i: nat, j: nat)
    requires i <= j <= |blocks|
    ensures Start(blocks, i) <= Start(blocks, j) <= |Joined(blocks)|
    decreases |blocks| + j - i
  {
    if i < j {
      assert blocks[..j][..j - 1] == blocks[..j - 1];
      StartsGrow(blocks, i, j - 1);
    }
    if j < |blocks| {
      StartsGrow(blocks[..|blocks| - 1], j, j);
      assert blocks[..|blocks| - 1][..j] == blocks[..j];
    } else {
      assert blocks[..j] == blocks;
    }
  }

  /** Keys in earlier blocks are smaller. */
  lemma EarlierBlock(blocks: Lists, i: nat, m: nat, j: nat, n: nat)
    requires KeysAscend(Joined(blocks), InternalLess) && i < j < |blocks| && m < |blocks[i]| && n < |blocks[j]|
    ensures InternalLess(blocks[i][m].key, blocks[j][n].key)
  {
    hide InternalLess;
    PairAt(blocks, i, m);
    PairAt(blocks, j, n);
    StartsGrow(blocks, i + 1, j);
  }

  lemma SameBlock(blocks: Lists, i: nat, m: nat, n: nat)
    requires KeysAscend(Joined(blocks), InternalLess) && i < |blocks| && m < n < |blocks[i]|
    ensures InternalLess(blocks[i][m].key, blocks[i][n].key)
  {
    hide InternalLess;
    PairAt(blocks, i, m);
    PairAt(blocks, i, n);
  }

  lemma NotAfterLast(blocks: Lists, i: nat, m: nat)
    requires KeysAscend(Joined(blocks), InternalLess) && i < |blocks| && m < |blocks[i]|
    ensures !InternalLess(LastKey(blocks[i]), blocks[i][m].key)
  {
    hide InternalLess;
    InternalOrder(LastKey(blocks[i]), blocks[i][m].key, []);
    InternalOrder(blocks[i][m].key, LastKey(blocks[i]), []);
    if m + 1 < |blocks[i]| {
      SameBlock(blocks, i, m, |blocks[i]| - 1);
    }
  }

  /** A block whose separator is before k holds only keys before k. */
  lemma PassedBlock(blocks: Lists, seps: seq<Bytes>, i: nat, m: nat, k: Bytes)
    requires Separated(blocks, seps) && i < |seps| && m < |blocks[i]| && InternalLess(seps[i], k)
    ensures InternalLess(blocks[i][m].key, k)
  {
    hide InternalLess;
    NotAfterLast(blocks, i, m);
    InternalOrder(seps[i], k, LastKey(blocks[i]));
    InternalOrder(seps[i], LastKey(blocks[i]), k);
    InternalOrder(LastKey(blocks[i]), blocks[i][m].key, k);
    InternalOrder(LastKey(blocks[i]), k, blocks[i][m].key);
  }

  /** Separators ascend. */
  lemma SepsAscend(blocks: Lists, seps: seq<Bytes>, i: nat, j: nat)
    requires Separated(blocks, seps) && i < j < |seps|
    ensures InternalLess(seps[i], seps[j])
  {
    hide KeysAscend, InternalLess, Less, UserOf, Separates, Joined;
    var first, last := blocks[i + 1][0].key, LastKey(blocks[j]);
    SepBeforeNext(blocks, seps, i);
    if i + 1 < j {
      EarlierBlock(blocks, i + 1, 0, j, |blocks[j]| - 1);
    } else {
      NotAfterLast(blocks, j, 0);
    }
    InternalOrder(seps[i], first, last);
    InternalOrder(seps[i], last, first);
    InternalOrder(seps[i], last, seps[j]);
    InternalOrder(seps[i], seps[j], last);
  }

  lemma SepBeforeNext(blocks: Lists, seps: seq<Bytes>, i: nat)
    requires Separated(blocks, seps) && i < |seps| && i + 1 < |blocks|
    ensures InternalLess(seps[i], blocks[i + 1][0].key)
  {
    EarlierBlock(blocks, i, |blocks[i]| - 1, i + 1, 0);
  }

  // ---- Lookup --------------------------------------------------------------------------------------------------

  /** The first key at or past k is in the block whose separator is first at or past k, or belongs to another user
      key. */
  lemma LookupDecides(blocks: Lists, seps: seq<Bytes>, k: Bytes, i: nat)
    requires Separated(blocks, seps) && |seps| == |blocks| && i <= |blocks|
    requires forall j :: 0 <= j < i ==> InternalLess(seps[j], k)
    requires i < |blocks| ==> !InternalLess(seps[i], k)
    ensures var all := Joined(blocks);
            var n := KeysBefore(all, k, InternalLess);
            if i == |blocks| then n == |all|
            else
              var m := KeysBefore(blocks[i], k, InternalLess);
              if m < |blocks[i]| then n == Start(blocks, i) + m && n < |all| && all[n] == blocks[i][m]
              else n < |all| ==> UserOf(all[n].key) != UserOf(k)
  {
    hide InternalLess, Less, KeysBefore, Separated, Joined, UserOf;
    var all := Joined(blocks);
    if i == |blocks| {
      BeforeBlock(blocks, seps, k, i, 0);
      assert blocks[..i] == blocks;
      KeysBeforeIs(all, k, InternalLess, |all|);
    } else {
      var m := KeysBefore(blocks[i], k, InternalLess);
      var n := Start(blocks, i) + m;
      BeforeBlock(blocks, seps, k, i, m);
      if m < |blocks[i]| {
        PairAt(blocks, i, m);
      } else {
        BehindBlock(blocks, seps, k, i);
      }
      KeysBeforeIs(all, k, InternalLess, n);
    }
  }

  /** Everything before position m of block i is before k when the earlier separators and the first m keys are. */
  lemma BeforeBlock(blocks: Lists, seps: seq<Bytes>, k: Bytes, i: nat, m: nat)
    requires Separated(blocks, seps) && i <= |seps| && i <= |blocks| && (i < |blocks| ==> m <= |blocks[i]|) && (i == |blocks| ==> m == 0)
    requires forall j :: 0 <= j < i ==> InternalLess(seps[j], k)
    requires i < |blocks| ==> forall y :: 0 <= y < m ==> InternalLess(blocks[i][y].key, k)
    ensures Start(blocks, i) + m <= |Joined(blocks)|
    ensures forall x :: 0 <= x < Start(blocks, i) + m ==> InternalLess(Joined(blocks)[x].key, k)
  {
    hide InternalLess, Separated, Joined, UserOf;
    StartsGrow(blocks, i, |blocks|);
    if m > 0 {
      PairAt(blocks, i, m - 1);
    }
    forall x | 0 <= x < Start(blocks, i) + m ensures InternalLess(Joined(blocks)[x].key, k) {
      if x < Start(blocks, i) {
        FrontBefore(blocks, seps, k, i, x);
      } else {
        PairAt(blocks, i, x - Start(blocks, i));
      }
    }
  }

  /** When block i holds only keys before k but its separator does not, the next block begins past k, at another
      user key. */
  lemma BehindBlock(blocks: Lists, seps: seq<Bytes>, k: Bytes, i: nat)
    requires Separated(blocks, seps) && i < |seps| && !InternalLess(seps[i], k)
    requires KeysBefore(blocks[i], k, InternalLess) == |blocks[i]|
    ensures var n := Start(blocks, i) + |blocks[i]|;
            n < |Joined(blocks)| ==> !InternalLess(Joined(blocks)[n].key, k) && UserOf(Joined(blocks)[n].key) != UserOf(k)
  {
    hide InternalLess, Less, UserOf, KeysAscend, Separates;
    PairAt(blocks, i, |blocks[i]| - 1);
    if i + 1 < |blocks| {
      PairAt(blocks, i + 1, 0);
      NextIsForeign(blocks, seps, k, i);
    } else {
      assert blocks[..i + 1] == blocks;
    }
  }

  lemma FrontBefore(blocks: Lists, seps: seq<Bytes>, k: Bytes, i: nat, x: nat)
    requires Separated(blocks, seps) && i <= |seps| && x < Start(blocks, i) && x < |Joined(blocks)|
    requires forall j :: 0 <= j < i ==> InternalLess(seps[j], k)
    ensures InternalLess(Joined(blocks)[x].key, k)
  {
    hide InternalLess;
    var j, m := BlockOf(blocks, x);
    if j >= i {
      StartsGrow(blocks, i, j);
    }
    PassedBlock(blocks, seps, j, m, k);
  }

  /** A key past all of a block but not past its separator lies below the next block's first user key. */
  lemma NextIsForeign(blocks: Lists, seps: seq<Bytes>, k: Bytes, i: nat)
    requires Separated(blocks, seps) && i < |seps| && i + 1 < |blocks| && !InternalLess(seps[i], k)
    requires InternalLess(LastKey(blocks[i]), k)
    ensures !InternalLess(blocks[i + 1][0].key, k) && UserOf(blocks[i + 1][0].key) != UserOf(k)
  {
    var sep, first := seps[i], blocks[i + 1][0].key;
    assert sep != LastKey(blocks[i]);
    LessOrder(UserOf(sep), UserOf(first), UserOf(k));
    LessOrder(UserOf(sep), UserOf(k), UserOf(first));
    LessOrder(UserOf(first), UserOf(k), UserOf(sep));
  }

  /** The first key at or past the seek key of (user, tag) is the newest entry of user no newer than tag, if its user
      key is the same; if not, there is none. */
  lemma FirstIsNewest(all: seq<Pair>, user: Bytes, tag: nat)
    requires KeysAscend(all, InternalLess) && tag < TWO_64
    ensures var n := KeysBefore(all, InternalKey(user, tag), InternalLess);
            && (n < |all| && UserOf(all[n].key) == user ==>
                  TagOf(all[n].key) <= tag
                  && forall i :: 0 <= i < |all| && UserOf(all[i].key) == user && TagOf(all[i].key) <= tag
                                 ==> TagOf(all[i].key) <= TagOf(all[n].key))
            && (n == |all| || UserOf(all[n].key) != user ==>
                  forall i :: 0 <= i < |all| && UserOf(all[i].key) == user ==> TagOf(all[i].key) > tag)
  {
    hide Less, KeysBefore, UserOf, TagOf;
    InternalKeyParts(user, tag);
    var k := InternalKey(user, tag);
    var n := KeysBefore(all, k, InternalLess);
    forall i | 0 <= i < |all| && UserOf(all[i].key) == user && TagOf(all[i].key) <= tag
      ensures n <= i && UserOf(all[n].key) == user && TagOf(all[i].key) <= TagOf(all[n].key)
    {
      LessOrder(user, user, user);
      assert !InternalLess(all[i].key, k);
      LessOrder(UserOf(all[n].key), user, user);
      LessOrder(user, UserOf(all[n].key), user);
      assert n == i || InternalLess(all[n].key, all[i].key);
    }
    if n < |all| {
      LessOrder(UserOf(all[n].key), user, user);
    }
  }
}
