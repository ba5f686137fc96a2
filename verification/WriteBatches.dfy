/** Write batches as the bytes that go to the log (db/write_batch.cc): built up and patched in place, walked again when
    they are applied or replayed. */
module WriteBatches {
  import opened Coding

  const TYPE_DELETION: byte := 0
  const TYPE_VALUE: byte := 1

  /** An 8-byte sequence number and a 4-byte count come first. */
  const HEADER: nat := 12

  datatype BatchOp = Put(key: Bytes, value: Bytes) | Delete(key: Bytes)

  function OpBytes(op: BatchOp): Bytes {
    match op
    case Put(key, value) => [TYPE_VALUE] + (Prefixed(key) + Prefixed(value))
    case Delete(key) => [TYPE_DELETION] + Prefixed(key)
  }

  function OpsBytes(ops: seq<BatchOp>): Bytes {
    if ops == [] then [] else OpsBytes(ops[..|ops| - 1]) + OpBytes(ops[|ops| - 1])
  }

  predicate OpFits(op: BatchOp) { |op.key| < TWO_32 && (op.Put? ==> |op.value| < TWO_32) }

  lemma {:induction false} OpsConcat(a: seq<BatchOp>, b: seq<BatchOp>)
    ensures OpsBytes(a + b) == OpsBytes(a) + OpsBytes(b)
  {
    hide OpBytes;
    if b == [] {
      assert a + b == a;
    } else {
      var n := |b| - 1;
      assert (a + b)[..|a| + n] == a + b[..n];
      OpsConcat(a, b[..n]);
      assert OpsBytes(a) + (OpsBytes(b[..n]) + OpBytes(b[n])) == OpsBytes(a) + OpsBytes(b[..n]) + OpBytes(b[n]);
    }
  }

  lemma OpsSnoc(ops: seq<BatchOp>, op: BatchOp)
    ensures OpsBytes(ops + [op]) == OpsBytes(ops) + OpBytes(op)
  {
    assert (ops + [op])[..|ops|] == ops;
  }

  /** What a walk hands to its handler, and how it ends. */
  datatype Walk = Walk(handled: seq<BatchOp>, error: string)

  function OpOf(input: Bytes): Parsed<BatchOp>
    requires input != []
  {
    if input[0] == TYPE_VALUE then
      (match PrefixedOf(input[1..])
       case Failed => Failed
       case Parsed(key, rest) =>
       match PrefixedOf(rest)
       case Parsed(value, r) => Parsed(Put(key, value), r)
       case Failed => Failed)
    else if input[0] == TYPE_DELETION then
      (match PrefixedOf(input[1..])
       case Parsed(key, r) => Parsed(Delete(key), r)
       case Failed => Failed)
    else Failed
  }

  function Complaint(tag: byte): string {
    if tag == TYPE_VALUE then "bad WriteBatch Put"
    else if tag == TYPE_DELETION then "bad WriteBatch Delete"
    else "unknown WriteBatch tag"
  }

  lemma PrefixedShrinks(input: Bytes)
    ensures PrefixedOf(input).Parsed? ==> |PrefixedOf(input).rest| < |input|
  {
    VarintShrinks(input, 0, 0, 4, TWO_32);
  }

  lemma OpShrinks(input: Bytes)
    requires input != []
    ensures OpOf(input).Parsed? ==> |OpOf(input).rest| < |input|
  {
    hide PrefixedOf;
    PrefixedShrinks(input[1..]);
    if PrefixedOf(input[1..]).Parsed? {
      PrefixedShrinks(PrefixedOf(input[1..]).rest);
    }
  }

  /** The walk over what is left of a batch, with some operations handled already. */
  function Walked(input: Bytes, handled: seq<BatchOp>, count: nat): Walk
    decreases |input|
  {
    if input == [] then Walk(handled, if |handled| == count then "" else "WriteBatch has wrong count")
    else
      match OpOf(input)
      case Failed => Walk(handled, Complaint(input[0]))
      case Parsed(op, rest) => OpShrinks(input); Walked(rest, handled + [op], count)
  }

  lemma OpDecodes(op: BatchOp, rest: Bytes)
    requires OpFits(op)
    ensures OpBytes(op) + rest != [] && OpOf(OpBytes(op) + rest) == Parsed(op, rest)
  {
    hide Prefixed, PrefixedOf;
    var input := OpBytes(op) + rest;
    if op.Put? {
      assert input[1..] == Prefixed(op.key) + (Prefixed(op.value) + rest);
      PrefixedRoundTrip(op.key, Prefixed(op.value) + rest);
      PrefixedRoundTrip(op.value, rest);
    } else {
      assert input[1..] == Prefixed(op.key) + rest;
      PrefixedRoundTrip(op.key, rest);
    }
  }

  lemma {:induction false} OpsDecode(ops: seq<BatchOp>, rest: Bytes, handled: seq<BatchOp>, count: nat)
    requires forall op :: op in ops ==> OpFits(op)
    ensures Walked(OpsBytes(ops) + rest, handled, count) == Walked(rest, handled + ops, count)
    decreases |ops|
  {
    if ops == [] {
      assert OpsBytes(ops) + rest == rest && handled + ops == handled;
    } else {
      var n := |ops| - 1;
      assert ops[n] in ops && ops == ops[..n] + [ops[n]];
      assert OpsBytes(ops) + rest == OpsBytes(ops[..n]) + (OpBytes(ops[n]) + rest);
      OpsDecode(ops[..n], OpBytes(ops[n]) + rest, handled, count);
      OpDecodes(ops[n], rest);
      assert handled + ops[..n] + [ops[n]] == handled + ops;
    }
  }

  // ---- Batches that are damaged ------------------------------------------------------------------------------

  lemma OpStable(input: Bytes, more: Bytes)
    requires input != [] && OpOf(input).Parsed?
    ensures OpOf(input + more) == Parsed(OpOf(input).value, OpOf(input).rest + more)
  {
    hide PrefixedOf;
    assert (input + more)[0] == input[0] && (input + more)[1..] == input[1..] + more;
    PrefixedStable(input[1..], more);
    if input[0] == TYPE_VALUE {
      PrefixedStable(PrefixedOf(input[1..]).rest, more);
    }
  }

  lemma CutOp(op: BatchOp, n: nat)
    requires OpFits(op) && 0 < n < |OpBytes(op)|
    ensures OpOf(OpBytes(op)[..n]) == Failed && OpBytes(op)[..n][0] == OpBytes(op)[0]
  {
    hide OpOf, OpBytes;
    var front, back := OpBytes(op)[..n], OpBytes(op)[n..];
    assert front + back == OpBytes(op) && OpBytes(op) + [] == OpBytes(op);
    OpDecodes(op, []);
    if OpOf(front).Parsed? {
      OpStable(front, back);
    }
  }

  /** An operation cut short ends the walk with its own complaint, after the operations before it. */
  lemma CutBatch(ops: seq<BatchOp>, op: BatchOp, n: nat, count: nat)
    requires (forall o :: o in ops ==> OpFits(o)) && OpFits(op) && 0 < n < |OpBytes(op)|
    ensures Walked(OpsBytes(ops) + OpBytes(op)[..n], [], count)
            == Walk(ops, if op.Put? then "bad WriteBatch Put" else "bad WriteBatch Delete")
  {
    hide OpOf, OpsBytes, Prefixed;
    OpsDecode(ops, OpBytes(op)[..n], [], count);
    CutOp(op, n);
    assert [] + ops == ops;
    assert OpBytes(op)[..n] != [];
  }

  /** So does a tag that is neither, and the count is checked at the end. */
  lemma BadBatch(ops: seq<BatchOp>, rest: Bytes, count: nat)
    requires forall o :: o in ops ==> OpFits(o)
    ensures rest != [] && rest[0] > 1 ==> Walked(OpsBytes(ops) + rest, [], count) == Walk(ops, "unknown WriteBatch tag")
    ensures count != |ops| ==> Walked(OpsBytes(ops), [], count) == Walk(ops, "WriteBatch has wrong count")
  {
    hide OpsBytes, PrefixedOf;
    OpsDecode(ops, rest, [], count);
    OpsDecode(ops, [], [], count);
    assert [] + ops == ops && OpsBytes(ops) + [] == OpsBytes(ops);
  }

  // ---- The header, read and patched --------------------------------------------------------------------------

  function Framed(sequence: nat, count: nat, body: Bytes): Bytes {
    Fixed(sequence, 8) + Fixed(count, 4) + body
  }

  function SequenceOf(rep: Bytes): nat
    requires |rep| >= HEADER
  {
    FixedOf(rep[..8])
  }

  function CountOf(rep: Bytes): nat
    requires |rep| >= HEADER
  {
    FixedOf(rep[8..12])
  }

  function WithSequence(rep: Bytes, sequence: nat): Bytes
    requires |rep| >= HEADER
  {
    Fixed(sequence, 8) + rep[8..]
  }

  function WithCount(rep: Bytes, count: nat): Bytes
    requires |rep| >= HEADER
  {
    rep[..8] + Fixed(count, 4) + rep[12..]
  }

  lemma Widths()
    ensures Pow256(4) == TWO_32 && Pow256(8) == TWO_64
  {
    assert Pow256(2) == 0x1_0000;
    assert Pow256(6) == 256 * Pow256(5) && Pow256(5) == 256 * Pow256(4);
  }

  lemma HeaderReads(sequence: nat, count: nat, body: Bytes)
    requires sequence < TWO_64 && count < TWO_32
    ensures var rep := Framed(sequence, count, body);
            |rep| == HEADER + |body| && SequenceOf(rep) == sequence && CountOf(rep) == count && rep[HEADER..] == body
  {
    hide Fixed, FixedOf;
    var rep := Framed(sequence, count, body);
    Widths();
    FixedRoundTrip(sequence, 8);
    FixedRoundTrip(count, 4);
    assert rep[..8] == Fixed(sequence, 8) && rep[8..12] == Fixed(count, 4);
  }

  lemma HeaderPatches(sequence: nat, count: nat, body: Bytes, n: nat)
    ensures var rep := Framed(sequence, count, body);
            |rep| >= HEADER && WithSequence(rep, n) == Framed(n, count, body)
            && WithCount(rep, n) == Framed(sequence, n, body)
  {
    hide Fixed, FixedOf;
    var rep := Framed(sequence, count, body);
    assert rep[8..] == Fixed(count, 4) + body && rep[..8] == Fixed(sequence, 8) && rep[12..] == body;
  }

  class WriteBatch {
    var rep: Bytes
    /** What the batch stands for. */
    ghost var sequence: nat
    ghost var ops: seq<BatchOp>

    ghost predicate Valid()
      reads this
    {
      && sequence < TWO_64 && |ops| < TWO_32 && (forall op :: op in ops ==> OpFits(op))
      && rep == Framed(sequence, |ops|, OpsBytes(ops))
    }

    constructor ()
      ensures Valid() && ops == [] && sequence == 0
    {
      rep, sequence, ops := seq(HEADER, _ => 0), 0, [];
      new;
      ZeroHeader();
    }

    method Count() returns (n: nat)
      requires Valid()
      ensures n == |ops|
    {
      HeaderReads(sequence, |ops|, OpsBytes(ops));
      n := CountOf(rep);
    }

    method Sequence() returns (n: nat)
      requires Valid()
      ensures n == sequence
    {
      HeaderReads(sequence, |ops|, OpsBytes(ops));
      n := SequenceOf(rep);
    }

    method SetSequence(n: nat)
      requires Valid() && n < TWO_64
      modifies this
      ensures Valid() && sequence == n && ops == old(ops)
    {
      HeaderPatches(sequence, |ops|, OpsBytes(ops), n);
      rep, sequence := WithSequence(rep, n), n;
    }

    /** Put and Delete: the count goes up and the operation's bytes go to the end. */
    method Record(op: BatchOp)
      requires Valid() && OpFits(op) && |ops| + 1 < TWO_32
      modifies this
      ensures Valid() && ops == old(ops) + [op] && sequence == old(sequence)
    {
      hide OpBytes, OpsBytes, Fixed;
      var n := Count();
      HeaderPatches(sequence, n, OpsBytes(ops), n + 1);
      OpsSnoc(ops, op);
      assert Framed(sequence, n + 1, OpsBytes(ops)) + OpBytes(op)
             == Framed(sequence, n + 1, OpsBytes(ops) + OpBytes(op));
      rep := WithCount(rep, n + 1) + OpBytes(op);
      ops := ops + [op];
    }

    /** Append: the other batch's operations, without its header. */
    method Append(src: WriteBatch)
      requires Valid() && src.Valid() && src != this && |ops| + |src.ops| < TWO_32
      modifies this
      ensures Valid() && ops == old(ops) + src.ops && sequence == old(sequence)
    {
      hide OpBytes, OpsBytes, Fixed;
      var n := Count();
      var m := src.Count();
      HeaderPatches(sequence, n, OpsBytes(ops), n + m);
      HeaderReads(src.sequence, m, OpsBytes(src.ops));
      OpsConcat(ops, src.ops);
      assert Framed(sequence, n + m, OpsBytes(ops)) + OpsBytes(src.ops)
             == Framed(sequence, n + m, OpsBytes(ops) + OpsBytes(src.ops));
      rep := WithCount(rep, n + m) + src.rep[HEADER..];
      ops := ops + src.ops;
    }
  }

  /** Iterate, over any bytes: the operations handled, in order, and the complaint, if any. */
  method Iterate(rep: Bytes) returns (w: Walk)
    ensures w == if |rep| < HEADER then Walk([], "malformed WriteBatch (too small)")
                 else Walked(rep[HEADER..], [], CountOf(rep))
  {
    if |rep| < HEADER {
      return Walk([], "malformed WriteBatch (too small)");
    }
    hide OpOf;
    var input, handled: seq<BatchOp> := rep[HEADER..], [];
    while input != []
      invariant Walked(input, handled, CountOf(rep)) == Walked(rep[HEADER..], [], CountOf(rep))
      decreases |input|
    {
      var op := OpOf(input);
      OpShrinks(input);
      if op.Failed? {
        return Walk(handled, Complaint(input[0]));
      }
      handled, input := handled + [op.value], op.rest;
    }
    w := Walk(handled, if |handled| == CountOf(rep) then "" else "WriteBatch has wrong count");
  }

  /** Walking the bytes of a batch, in memory or read back from a log, gives exactly its operations. */
  lemma BatchRoundTrip(sequence: nat, ops: seq<BatchOp>)
    requires sequence < TWO_64 && |ops| < TWO_32 && forall op :: op in ops ==> OpFits(op)
    ensures var rep := Framed(sequence, |ops|, OpsBytes(ops));
            && |rep| >= HEADER && SequenceOf(rep) == sequence && CountOf(rep) == |ops|
            && Walked(rep[HEADER..], [], CountOf(rep)) == Walk(ops, "")
  {
    hide Walked, OpsBytes, Framed;
    HeaderReads(sequence, |ops|, OpsBytes(ops));
    OpsDecode(ops, [], [], |ops|);
    assert OpsBytes(ops) + [] == OpsBytes(ops) && [] + ops == ops;
    WalkEnds(ops);
  }

  lemma WalkEnds(ops: seq<BatchOp>)
    ensures Walked([], ops, |ops|) == Walk(ops, "")
  {
  }

  lemma ZeroHeader()
    ensures seq(HEADER, _ => 0) == Framed(0, 0, OpsBytes([]))
  {
    ZeroBytes(8);
    ZeroBytes(4);
  }

  lemma {:induction false} ZeroBytes(n: nat)
    ensures Fixed(0, n) == seq(n, _ => 0)
  {
    if n > 0 {
      ZeroBytes(n - 1);
    }
  }
}
