/** What a read at a snapshot means, independently of where entries are stored. */
module Visibility {
  import opened InternalKeys

  ghost function ToSet(es: seq<Entry>): set<Entry> {
    set e | e in es
  }

  /** No two entries of one user key carry the same sequence number. */
  ghost predicate Unique(es: set<Entry>) {
    forall x, y :: x in es && y in es && x.key.user == y.key.user && x.key.seqno == y.key.seqno ==> x == y
  }

  /** e is the newest entry of u that snapshot s sees. */
  ghost predicate Newest(es: set<Entry>, u: UserKey, s: nat, e: Entry) {
    && e in es && e.key.user == u && e.key.seqno <= s
    && forall x :: x in es && x.key.user == u && x.key.seqno <= s ==> x.key.seqno <= e.key.seqno
  }

  function Payload(e: Entry): Option<Value> {
    if e.key.kind.Put? then Some(e.value) else None
  }

  /** The value a read of u at snapshot s returns: that of the newest visible entry, nothing for a tombstone. */
  ghost function Read(es: set<Entry>, u: UserKey, s: nat): Option<Value> {
    if exists e :: Newest(es, u, s, e) then
      var e :| Newest(es, u, s, e);
      Payload(e)
    else
      None
  }

  lemma NewestExists(es: set<Entry>, u: UserKey, s: nat, w: Entry) returns (e: Entry)
    requires w in es && w.key.user == u && w.key.seqno <= s
    ensures Newest(es, u, s, e) && w.key.seqno <= e.key.seqno
    decreases es
  {
    var rest := es - {w};
    if x :| x in rest && x.key.user == u && x.key.seqno <= s && x.key.seqno >= w.key.seqno {
      e := NewestExists(rest, u, s, x);
      assert es == rest + {w};
    } else {
      e := w;
    }
  }

  lemma ReadIsNewest(es: set<Entry>, u: UserKey, s: nat, e: Entry)
    requires Unique(es) && Newest(es, u, s, e)
    ensures Read(es, u, s) == Payload(e)
  {
  }

  lemma ReadNothing(es: set<Entry>, u: UserKey, s: nat)
    requires forall x :: x in es && x.key.user == u ==> x.key.seqno > s
    ensures Read(es, u, s) == None
  {
  }

  /** A read depends only on the visible entries of its key: if the newest visible entries of two sets agree, or
      neither has any, the reads agree. */
  lemma ReadsAgree(a: set<Entry>, b: set<Entry>, u: UserKey, s: nat)
    requires forall x: Entry :: x.key.user == u && x.key.seqno <= s ==> (x in a <==> x in b)
    requires Unique(a) && Unique(b)
    ensures Read(a, u, s) == Read(b, u, s)
  {
    if e :| Newest(a, u, s, e) {
      assert Newest(b, u, s, e);
    } else {
      if f :| Newest(b, u, s, f) {
        assert Newest(a, u, s, f);
      }
    }
  }
}
