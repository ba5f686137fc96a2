/** The bytewise order, the order of internal keys on top of it, and the short keys that may stand between two others
    (util/comparator.cc, db/dbformat.cc). */
module Comparators {
  import opened Coding

  /** Slice::compare: bytewise, a proper prefix first. */
  predicate Less(a: Bytes, b: Bytes) {
    b != [] && (a == [] || a[0] < b[0] || (a[0] == b[0] && Less(a[1..], b[1..])))
  }

  lemma {:induction false} LessOrder(a: Bytes, b: Bytes, c: Bytes)
    ensures Less(a, b) ==> !Less(b, a)
    ensures Less(a, b) && Less(b, c) ==> Less(a, c)
    ensures Less(a, c) ==> Less(a, b) || Less(b, c)
    ensures !Less(a, b) && !Less(b, a) ==> a == b
    ensures !Less(a, a)
    decreases |a| + |b| + |c|
  {
    if a != [] && b != [] {
      LessOrder(a[1..], b[1..], if c == [] then [] else c[1..]);
      assert a == [a[0]] + a[1..] && b == [b[0]] + b[1..];
    }
    if a != [] {
      LessOrder(a[1..], [], []);
    }
  }

  /** At the first position where two strings differ, the bytes there decide. */
  lemma {:induction false} LessAtDifference(a: Bytes, b: Bytes, n: nat)
    requires n < |a| && n < |b| && a[..n] == b[..n] && a[n] != b[n]
    ensures Less(a, b) <==> a[n] < b[n]
  {
    if n > 0 {
      assert a[0] == a[..n][0] == b[..n][0] == b[0];
      assert a[1..][..n - 1] == a[..n][1..] && b[1..][..n - 1] == b[..n][1..];
      LessAtDifference(a[1..], b[1..], n - 1);
    }
  }

  lemma {:induction false} PrefixIsLess(a: Bytes, b: Bytes)
    requires |a| < |b| && a == b[..|a|]
    ensures Less(a, b)
  {
    if a != [] {
      assert a[0] == b[0] && b[1..][..|a| - 1] == a[1..];
      PrefixIsLess(a[1..], b[1..]);
    }
  }

  /** Where two strings first differ and there is room between the bytes, the first is cut off and the byte counted up. */
  function Separator(start: Bytes, limit: Bytes): (r: Bytes)
    ensures r == start || (|r| <= |start| && Less(start, r) && Less(r, limit))
  {
    if start == [] || limit == [] then start
    else if start[0] == limit[0] then [start[0]] + Separator(start[1..], limit[1..])
    else if start[0] < 0xFF && start[0] + 1 < limit[0] then [start[0] + 1]
    else start
  }

  lemma {:induction false} SeparatorAt(start: Bytes, limit: Bytes, n: nat)
    requires n <= |start| && n <= |limit| && start[..n] == limit[..n]
    requires n < |start| && n < |limit| ==> start[n] != limit[n]
    ensures Separator(start, limit)
            == if n < |start| && n < |limit| && start[n] < 0xFF && start[n] + 1 < limit[n] then start[..n] + [start[n] + 1]
               else start
  {
    if n > 0 {
      assert start[0] == start[..n][0] == limit[..n][0] == limit[0];
      assert start[1..][..n - 1] == start[..n][1..] && limit[1..][..n - 1] == limit[..n][1..];
      SeparatorAt(start[1..], limit[1..], n - 1);
      assert [start[0]] + start[1..] == start && [start[0]] + start[1..][..n - 1] == start[..n];
    }
  }

  /** FindShortestSeparator: start itself, or something no longer strictly between start and limit. */
  method FindShortestSeparator(start: Bytes, limit: Bytes) returns (r: Bytes)
    ensures r == Separator(start, limit)
    ensures r == start || (|r| <= |start| && Less(start, r) && Less(r, limit))
  {
    var minLength := if |start| < |limit| then |start| else |limit|;
    var diff := 0;
    while diff < minLength && start[diff] == limit[diff]
      invariant diff <= minLength && start[..diff] == limit[..diff]
    {
      assert start[..diff + 1] == start[..diff] + [start[diff]] && limit[..diff + 1] == limit[..diff] + [limit[diff]];
      diff := diff + 1;
    }
    SeparatorAt(start, limit, diff);
    r := start;
    if diff < minLength {
      if start[diff] < 0xFF && start[diff] + 1 < limit[diff] {
        r := start[..diff] + [start[diff] + 1];
      }
    }
  }

  /** The first byte that can be counted up is, and the string is cut off behind it. */
  function Successor(key: Bytes): (r: Bytes)
    ensures r == key || (|r| <= |key| && Less(key, r))
  {
    if key == [] then key else if key[0] == 0xFF then [key[0]] + Successor(key[1..]) else [key[0] + 1]
  }

  lemma {:induction false} SuccessorAt(key: Bytes, n: nat)
    requires n <= |key| && (forall i :: 0 <= i < n ==> key[i] == 0xFF) && (n < |key| ==> key[n] != 0xFF)
    ensures Successor(key) == if n < |key| then key[..n] + [key[n] + 1] else key
  {
    if n > 0 {
      SuccessorAt(key[1..], n - 1);
      assert [key[0]] + key[1..] == key && [key[0]] + key[1..][..n - 1] == key[..n];
    }
  }

  /** FindShortSuccessor: the key itself, or something no longer after it. */
  method FindShortSuccessor(key: Bytes) returns (r: Bytes)
    ensures r == Successor(key)
    ensures r == key || (|r| <= |key| && Less(key, r))
  {
    for i := 0 to |key|
      invariant forall j :: 0 <= j < i ==> key[j] == 0xFF
    {
      if key[i] != 0xFF {
        SuccessorAt(key, i);
        r := key[..i] + [key[i] + 1];
        return;
      }
    }
    SuccessorAt(key, |key|);
    r := key;
  }

  // ---- Internal keys -----------------------------------------------------------------------------------------

  const MAX_TAG: nat := 0xFFFF_FFFF_FFFF_FF01

  function InternalKey(user: Bytes, tag: nat): Bytes {
    user + Fixed(tag, 8)
  }

  function UserOf(k: Bytes): Bytes {
    if |k| < 8 then [] else k[..|k| - 8]
  }

  function TagOf(k: Bytes): nat {
    if |k| < 8 then 0 else FixedOf(k[|k| - 8..])
  }

  lemma InternalKeyParts(user: Bytes, tag: nat)
    requires tag < TWO_64
    ensures UserOf(InternalKey(user, tag)) == user && TagOf(InternalKey(user, tag)) == tag
  {
    hide Fixed, FixedOf;
    assert InternalKey(user, tag)[|user|..] == Fixed(tag, 8);
    assert Pow256(2) == 0x1_0000 && Pow256(4) == TWO_32 && Pow256(6) == 256 * Pow256(5) && Pow256(5) == 256 * Pow256(4);
    FixedRoundTrip(tag, 8);
  }

  /** Increasing user key, then newest first. */
  predicate InternalLess(a: Bytes, b: Bytes) {
    Less(UserOf(a), UserOf(b)) || (UserOf(a) == UserOf(b) && TagOf(a) > TagOf(b))
  }

  lemma InternalOrder(a: Bytes, b: Bytes, c: Bytes)
    ensures InternalLess(a, b) ==> !InternalLess(b, a)
    ensures InternalLess(a, b) && InternalLess(b, c) ==> InternalLess(a, c)
    ensures InternalLess(a, c) ==> InternalLess(a, b) || InternalLess(b, c)
  {
    hide Less, UserOf, TagOf;
    LessOrder(UserOf(a), UserOf(b), UserOf(c));
    LessOrder(UserOf(b), UserOf(c), UserOf(a));
  }

  /** A shorter user key takes the place of the first one, with the largest tag: it then sorts before all of its own. */
  function SeparatorKey(start: Bytes, limit: Bytes): Bytes {
    var user := Separator(UserOf(start), UserOf(limit));
    if |user| < |UserOf(start)| && user != UserOf(start) then InternalKey(user, MAX_TAG) else start
  }

  function SuccessorKey(key: Bytes): Bytes {
    var user := Successor(UserOf(key));
    if |user| < |UserOf(key)| && user != UserOf(key) then InternalKey(user, MAX_TAG) else key
  }

  /** The separator of two internal keys is the first of them, or has a user key strictly between theirs. */
  method InternalSeparator(start: Bytes, limit: Bytes) returns (r: Bytes)
    requires |start| >= 8 && |limit| >= 8
    ensures r == start || (|r| >= 8 && Less(UserOf(start), UserOf(r)) && Less(UserOf(r), UserOf(limit)))
    ensures |r| <= |start|
    ensures r == SeparatorKey(start, limit)
  {
    var userStart := UserOf(start);
    var tmp := FindShortestSeparator(userStart, UserOf(limit));
    r := start;
    if |tmp| < |userStart| && Less(userStart, tmp) {
      InternalKeyParts(tmp, MAX_TAG);
      r := InternalKey(tmp, MAX_TAG);
    }
  }

  method InternalSuccessor(key: Bytes) returns (r: Bytes)
    requires |key| >= 8
    ensures r == key || (|r| >= 8 && Less(UserOf(key), UserOf(r)))
    ensures |r| <= |key|
    ensures r == SuccessorKey(key)
  {
    var user := UserOf(key);
    var tmp := FindShortSuccessor(user);
    r := key;
    if |tmp| < |user| && Less(user, tmp) {
      InternalKeyParts(tmp, MAX_TAG);
      r := InternalKey(tmp, MAX_TAG);
    }
  }
}
