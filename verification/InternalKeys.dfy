/** Internal keys (dbformat): a user key with the sequence number of the write and its kind, ordered by
    increasing user key, then newest first. */
module InternalKeys {

  datatype Option<+T> = None | Some(value: T)

  /** User keys are met only through a comparator, so any total order serves: a run touches finitely many
      user keys, and they are represented here by their ranks. */
  type UserKey = int
  type Value = string

  const MAX_SEQUENCE: nat := 0xFF_FFFF_FFFF_FFFF

  datatype Kind = Deletion | Put

  datatype IKey = IKey(user: UserKey, seqno: nat, kind: Kind)

  datatype Entry = Entry(key: IKey, value: Value)

  /** The word (sequence << 8) | type that ends an internal key. */
  function Tag(k: IKey): nat {
    k.seqno * 256 + (if k.kind.Put? then 1 else 0)
  }

  predicate Less(a: IKey, b: IKey) {
    a.user < b.user || (a.user == b.user && Tag(a) > Tag(b))
  }

  predicate AtMost(a: IKey, b: IKey) {
    !Less(b, a)
  }

  /** The key a lookup of u at sequence s seeks to: it sorts before every entry of u written at or before s. */
  function SeekKey(u: UserKey, s: nat): IKey {
    IKey(u, s, Put)
  }

  ghost predicate Sorted(es: seq<Entry>) {
    forall i, j :: 0 <= i < j < |es| ==> Less(es[i].key, es[j].key)
  }

  /** An entry is at or past the seek key of (u, s) exactly when it belongs to a later user key, or to u and is
      visible at s. */
  lemma SeekKeySplits(u: UserKey, s: nat, k: IKey)
    ensures AtMost(SeekKey(u, s), k) <==> (u < k.user || (k.user == u && k.seqno <= s))
  {
  }
}
