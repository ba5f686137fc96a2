/** What decoding makes of some bytes (nanopb pb_decode.c). Wire types matter only for skipping and for packed
    arrays: otherwise the field's own type says how to read. */
module PbDecoding {
  import opened Coding
  import opened PbFields
  import opened PbFieldIters
  import opened PbMessages
  import opened PbRequired
  import opened PbVarints
  import opened PbEncoding

  /** Descriptors with one field for each tag, at every depth. */
  predicate Distinct(fields: seq<Field>)
    decreases fields
  {
    TagsDistinct(fields) && forall i :: 0 <= i < |fields| ==> Distinct(fields[i].ptr)
  }

  // ---- Values --------------------------------------------------------------------------------------------------

  /** A C string ends at its first zero. */
  function UpToZero(b: Bytes): Bytes {
    if b == [] || b[0] == 0 then [] else [b[0]] + UpToZero(b[1..])
  }

  /** count bytes from the front. */
  function Taken(input: Bytes, count: nat): (r: Parsed<Bytes>)
    ensures r.Parsed? ==> |r.rest| == |input| - count
  {
    if count > |input| then Failed else Parsed(input[..count], input[count..])
  }

  /** The bytes behind their length. */
  function CountedIn(input: Bytes, max: nat): (r: Parsed<Bytes>)
    ensures r.Parsed? ==> |r.rest| < |input| && |r.value| < |input|
  {
    match PbVarint32Of(input)
    case Failed => Failed
    case Parsed(size, rest) => if size > max then Failed else Taken(rest, size)
  }

  function NumberIn(r: Parsed<nat>, size: nat): Parsed<Value> {
    match r
    case Failed => Failed
    case Parsed(value, rest) =>
      var n := AsSigned(value, if size == 8 then 8 else 4);
      if size in {1, 2, 4, 8} && AsSigned(n, size) == n then Parsed(Num(n), rest) else Failed
  }

  function UnsignedIn(r: Parsed<nat>, size: nat): Parsed<Value> {
    match r
    case Failed => Failed
    case Parsed(value, rest) => if size in {1, 2, 4, 8} && value % Span(size) == value then Parsed(Num(value), rest) else Failed
  }

  function ZigZagIn(r: Parsed<nat>, size: nat): Parsed<Value> {
    match r
    case Failed => Failed
    case Parsed(value, rest) =>
      var n := UnZigZag(value);
      if size in {1, 2, 4, 8} && AsSigned(n, size) == n then Parsed(Num(n), rest) else Failed
  }

  function FixedIn(input: Bytes, width: nat): (r: Parsed<Value>)
    ensures r.Parsed? ==> |r.rest| == |input| - width
  {
    match Taken(input, width) case Failed => Failed case Parsed(b, rest) => Parsed(Num(FixedOf(b)), rest)
  }

  function BlobIn(f: Field, input: Bytes): (r: Parsed<Value>)
    ensures r.Parsed? ==> |r.rest| < |input|
  {
    match CountedIn(input, f.dataSize)
    case Failed => Failed
    case Parsed(b, rest) =>
      if b == [] then Parsed(Data(seq(f.dataSize, _ => 0)), rest)
      else if |b| == f.dataSize then Parsed(Data(b), rest)
      else Failed
  }

  function ScalarIn(f: Field, input: Bytes): (r: Parsed<Value>)
    ensures r.Parsed? ==> |r.rest| < |input|
  {
    match f.ltype
    case LBool =>
      (match PbVarint32Of(input) case Failed => Failed case Parsed(v, rest) => Parsed(Num(if v != 0 then 1 else 0), rest))
    case LVarint => VarintShrinks(input, 0, 0, 9, TWO_64); NumberIn(Varint64Of(input), f.dataSize)
    case LUVarint => VarintShrinks(input, 0, 0, 9, TWO_64); UnsignedIn(Varint64Of(input), f.dataSize)
    case LSVarint => VarintShrinks(input, 0, 0, 9, TWO_64); ZigZagIn(Varint64Of(input), f.dataSize)
    case LFixed32 => FixedIn(input, 4)
    case LFixed64 => FixedIn(input, 8)
    case LBytes =>
      if f.dataSize < BYTES_HEADER then Failed
      else
        (match CountedIn(input, f.dataSize - BYTES_HEADER) case Failed => Failed case Parsed(b, rest) => Parsed(Data(b), rest))
    case LString =>
      if f.dataSize < 1 then Failed
      else
        (match CountedIn(input, f.dataSize - 1) case Failed => Failed case Parsed(b, rest) => Parsed(Data(UpToZero(b)), rest))
    case LFixedLengthBytes => BlobIn(f, input)
    case _ => Failed
  }

  // ---- Skipping ------------------------------------------------------------------------------------------------

  function SkipVarint(input: Bytes): (r: Parsed<nat>)
    ensures r.Parsed? ==> |r.rest| < |input|
    decreases |input|
  {
    if input == [] then Failed else if input[0] >= 128 then SkipVarint(input[1..]) else Parsed(0, input[1..])
  }

  function SkipBytes(input: Bytes, count: nat): (r: Parsed<nat>)
    ensures r.Parsed? ==> |r.rest| <= |input|
  {
    match Taken(input, count) case Failed => Failed case Parsed(_, rest) => Parsed(0, rest)
  }

  function SkipField(wire: nat, input: Bytes): (r: Parsed<nat>)
    ensures r.Parsed? ==> |r.rest| <= |input|
  {
    match wire
    case 0 => SkipVarint(input)
    case 1 => SkipBytes(input, 8)
    case 2 => (match PbVarint32Of(input) case Failed => Failed case Parsed(size, rest) => SkipBytes(rest, size))
    case 5 => SkipBytes(input, 4)
    case _ => Failed
  }

  // ---- Fields --------------------------------------------------------------------------------------------------

  /** Field i of a union begins with field GroupStart(i). */
  function GroupStart(fields: seq<Field>, i: nat): nat
    requires i < |fields|
  {
    if i > 0 && SameUnion(fields[i - 1], fields[i]) then GroupStart(fields, i - 1) else i
  }

  /** Fields of one union share one selector. */
  lemma {:induction false} OneSelector(fields: seq<Field>, i: nat)
    requires i < |fields|
    ensures GroupStart(fields, i) <= i && SizeAddress(fields, i) == SizeAddress(fields, GroupStart(fields, i))
    ensures DataAddress(fields, i) == DataAddress(fields, GroupStart(fields, i))
  {
    if i > 0 && SameUnion(fields[i - 1], fields[i]) {
      OneSelector(fields, i - 1);
    }
  }

  /** Choosing a field of a union drops the others. */
  function Chosen(fields: seq<Field>, m: seq<Slot>, i: nat, slot: Slot): (r: seq<Slot>)
    requires |m| == |fields| && i < |fields|
    ensures |r| == |m|
  {
    if fields[i].htype != Oneof then m[i := slot]
    else
      seq(|m|, j requires 0 <= j < |m| =>
        if j == i then slot
        else if fields[j].htype == Oneof && GroupStart(fields, j) == GroupStart(fields, i) then Choice(false, fields[j].init)
        else m[j])
  }

  /** Where the decoder stands: the message so far, the required fields seen, and the array of fixed size it is in the
      middle of, if any, with the number of its entries. */
  datatype State = State(m: seq<Slot>, seen: set<nat>, fixedField: int, fixedSize: nat)

  predicate StateOk(fields: seq<Field>, st: State) {
    |st.m| == |fields| && -1 <= st.fixedField < |fields|
  }

  function Put(items: seq<Value>, k: nat, v: Value): seq<Value> {
    if k < |items| then items[k := v] else items + [v]
  }

  datatype Filled = Filled(items: seq<Value>, count: nat)

  /** The entries of a packed array; more of them than there is room for is an error. */
  function Unpack(f: Field, items: seq<Value>, k: nat, input: Bytes): Parsed<Filled>
    decreases |input|
  {
    if input == [] then Parsed(Filled(items, k), [])
    else if k >= f.arraySize then Failed
    else
      match ScalarIn(f, input)
      case Failed => Failed
      case Parsed(v, rest) => Unpack(f, Put(items, k, v), k + 1, rest)
  }

  /** What a submessage is merged into. */
  function Storage(f: Field, v: Value): (m: seq<Slot>)
    ensures |m| == |f.ptr|
  {
    if |SlotsOf(v)| == |f.ptr| then SlotsOf(v) else Defaults(f.ptr)
  }

  function ValueOf(f: Field, old': Value, input: Bytes): (r: Parsed<Value>)
    ensures r.Parsed? ==> |r.rest| < |input|
    decreases |input|, 0
  {
    if f.ltype != LSubmessage then ScalarIn(f, input)
    else
      match CountedIn(input, |input|)
      case Failed => Failed
      case Parsed(body, rest) =>
      match MessageOf(f.ptr, Storage(f, old'), body)
      case Failed => Failed
      case Parsed(m, _) => Parsed(Msg(m), rest)
  }

  /** An array field: a packed run of entries, or one more entry. */
  function ArrayOf(f: Field, wire: nat, items: seq<Value>, k: nat, input: Bytes): (r: Parsed<Filled>)
    ensures r.Parsed? ==> |r.rest| <= |input|
    decreases |input|, 1
  {
    if wire == 2 && Packable(f) then
      match CountedIn(input, |input|)
      case Failed => Failed
      case Parsed(body, rest) =>
        (match Unpack(f, items, k, body) case Failed => Failed case Parsed(filled, _) => Parsed(filled, rest))
    else if k >= f.arraySize then Failed
    else
      match ValueOf(f, InitialValue(f), input)
      case Failed => Failed
      case Parsed(v, rest) => Parsed(Filled(Put(items, k, v), k + 1), rest)
  }

  /** A field that is not an array: its value is replaced, or merged if it is a submessage. */
  function SlotOf(f: Field, slot: Slot, input: Bytes): (r: Parsed<Slot>)
    ensures r.Parsed? ==> |r.rest| <= |input|
    decreases |input|, 1
  {
    var old' := if f.htype == Oneof && !(slot.Choice? && slot.chosen) then InitialValue(f) else ValueIn(slot);
    match ValueOf(f, old', input)
    case Failed => Failed
    case Parsed(v, rest) =>
      Parsed(if f.htype == Oneof then Choice(true, v) else if HasFlag(f) then Maybe(true, v) else One(v), rest)
  }

  /** Entering an array of fixed size ends the one before, which must be complete. */
  function FixedStart(fields: seq<Field>, st: State, i: nat): Parsed<nat>
    requires StateOk(fields, st)
  {
    if st.fixedField == i then Parsed(st.fixedSize, [])
    else if st.fixedField >= 0 && st.fixedSize != fields[st.fixedField].arraySize then Failed
    else Parsed(0, [])
  }

  function Seen(fields: seq<Field>, seen: set<nat>, i: nat): set<nat>
    requires i < |fields|
  {
    if fields[i].htype == Required && RequiredIndex(fields, i) < MAX_REQUIRED then seen + {RequiredIndex(fields, i)} else seen
  }

  function FieldOf(fields: seq<Field>, st: State, i: nat, wire: nat, input: Bytes): (r: Parsed<State>)
    requires StateOk(fields, st) && i < |fields|
    ensures r.Parsed? ==> |r.rest| <= |input| && StateOk(fields, r.value)
    decreases |input|, 2
  {
    var f, slot, seen := fields[i], st.m[i], Seen(fields, st.seen, i);
    if FixedCount(f) then
      match FixedStart(fields, st, i)
      case Failed => Failed
      case Parsed(k, _) =>
        (match ArrayOf(f, wire, ItemsIn(slot), k, input)
         case Failed => Failed
         case Parsed(a, rest) => Parsed(State(st.m[i := Many(a.items)], seen, i, a.count), rest))
    else if f.htype == Repeated then
      match ArrayOf(f, wire, ItemsIn(slot), |ItemsIn(slot)|, input)
      case Failed => Failed
      case Parsed(a, rest) => Parsed(st.(m := st.m[i := Many(a.items)], seen := seen), rest)
    else
      match SlotOf(f, slot, input)
      case Failed => Failed
      case Parsed(slot', rest) => Parsed(st.(m := Chosen(fields, st.m, i, slot'), seen := seen), rest)
  }

  /** The first field with the tag, or -1. */
  function IndexOf(fields: seq<Field>, tag: nat): (i: int)
    ensures -1 <= i < |fields|
    ensures i >= 0 ==> Matches(fields[i], tag)
    ensures i < 0 ==> forall j :: 0 <= j < |fields| ==> !Matches(fields[j], tag)
  {
    if fields == [] then -1
    else
      var i := IndexOf(fields[..|fields| - 1], tag);
      if i >= 0 then i else if Matches(fields[|fields| - 1], tag) then |fields| - 1 else -1
  }

  /** What follows one tag. Unknown fields are skipped; a message type without fields takes tag 0 for a bool that is
      stored nowhere. */
  function EntryOf(fields: seq<Field>, st: State, tag: nat, wire: nat, input: Bytes): (r: Parsed<State>)
    requires StateOk(fields, st)
    ensures r.Parsed? ==> |r.rest| <= |input| && StateOk(fields, r.value)
    decreases |input|, 3
  {
    var i := IndexOf(fields, tag);
    if i >= 0 then FieldOf(fields, st, i, wire, input)
    else if fields == [] && tag == 0 then
      match PbVarint32Of(input) case Failed => Failed case Parsed(_, rest) => Parsed(st.(seen := st.seen + {0}), rest)
    else
      match SkipField(wire, input) case Failed => Failed case Parsed(_, rest) => Parsed(st, rest)
  }

  /** The loop over the fields: to the end of the input or a zero where a tag should be. */
  function FieldsOf(fields: seq<Field>, st: State, input: Bytes): (r: Parsed<State>)
    requires StateOk(fields, st)
    ensures r.Parsed? ==> StateOk(fields, r.value)
    decreases |input|, 4
  {
    if input == [] then Parsed(st, [])
    else
      match PbVarint32Of(input)
      case Failed => Failed
      case Parsed(key, rest) =>
        if key == 0 then Parsed(st, rest)
        else
          match EntryOf(fields, st, key / 8, key % 8, rest)
          case Failed => Failed
          case Parsed(st', rest') => FieldsOf(fields, st', rest')
  }

  predicate Complete(fields: seq<Field>, st: State)
    requires StateOk(fields, st)
  {
    && (st.fixedField >= 0 ==> st.fixedSize == fields[st.fixedField].arraySize)
    && forall i :: 0 <= i < |fields| && fields[i].htype == Required && RequiredIndex(fields, i) < MAX_REQUIRED
                   ==> RequiredIndex(fields, i) in st.seen
  }

  function Begin(m: seq<Slot>): State { State(m, {}, -1, 0) }

  /** pb_decode_noinit: merging the input into m. */
  function MessageOf(fields: seq<Field>, m: seq<Slot>, input: Bytes): (r: Parsed<seq<Slot>>)
    requires |m| == |fields|
    ensures r.Parsed? ==> |r.value| == |fields|
    decreases |input|, 5
  {
    match FieldsOf(fields, Begin(m), input)
    case Failed => Failed
    case Parsed(st, rest) => if Complete(fields, st) then Parsed(st.m, rest) else Failed
  }
}
