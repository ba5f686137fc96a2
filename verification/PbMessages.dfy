/** Values, initial contents and presence of message fields (nanopb pb_encode.c, pb_decode.c), for fields stored in
    the message itself. */
module PbMessages {
  import opened Coding
  import opened PbFields

  /** No pointers, callbacks or extensions, at any depth. */
  predicate AllStatic(fields: seq<Field>)
    decreases fields
  {
    TagsOk(fields) && forall i :: 0 <= i < |fields| ==> fields[i].atype == Static && fields[i].ltype != LExtension && AllStatic(fields[i].ptr)
  }

  /** Reading storage as what the field's type says it is. */
  function NumOf(v: Value): int { if v.Num? then v.n else 0 }

  function DataOf(v: Value): Bytes { if v.Data? then v.data else [] }

  function SlotsOf(v: Value): seq<Slot> { if v.Msg? then v.slots else [] }

  function ValueIn(slot: Slot): Value { if slot.Many? then Num(0) else slot.v }

  function ItemsIn(slot: Slot): seq<Value> { if slot.Many? then slot.items else [] }

  function SlotAt(m: seq<Slot>, i: nat): Slot { if i < |m| then m[i] else One(Num(0)) }

  // ---- Presence ------------------------------------------------------------------------------------------------

  predicate HasFlag(f: Field) { f.htype == Optional && f.sizeOffset != 0 }

  predicate Implicit(f: Field) { f.htype == Optional && f.sizeOffset == 0 }

  predicate FixedCount(f: Field) { f.htype == Repeated && f.sizeOffset == 0 }

  /** pb_check_proto3_default_value. A union counts as unset when none of its fields is chosen. */
  predicate IsDefault(f: Field, slot: Slot)
    decreases f, 1
  {
    match f.htype
    case Required => false
    case Repeated => f.sizeOffset != 0 && |ItemsIn(slot)| == 0
    case Oneof => !(slot.Choice? && slot.chosen)
    case Optional =>
      if f.sizeOffset != 0 then !(slot.Maybe? && slot.has)
      else
        match f.ltype
        case LBytes => DataOf(ValueIn(slot)) == []
        case LString => DataOf(ValueIn(slot)) == []
        case LFixedLengthBytes => f.dataSize == 0
        case LSubmessage => AllDefault(f.ptr, SlotsOf(ValueIn(slot)))
        case _ => NumOf(ValueIn(slot)) == 0
  }

  predicate AllDefault(fields: seq<Field>, m: seq<Slot>)
    decreases fields, 0
  {
    forall i :: 0 <= i < |fields| ==> IsDefault(fields[i], SlotAt(m, i))
  }

  /** Whether a field that is not repeated is written. */
  predicate Present(f: Field, slot: Slot) {
    match f.htype
    case Required => true
    case Optional => if f.sizeOffset != 0 then slot.Maybe? && slot.has else !IsDefault(f, slot)
    case Oneof => slot.Choice? && slot.chosen
    case Repeated => false
  }

  // ---- Initial contents ----------------------------------------------------------------------------------------

  function InitialValue(f: Field): Value
    decreases f, 0
  {
    if f.ltype == LSubmessage then Msg(Defaults(f.ptr)) else f.init
  }

  /** pb_field_set_to_default. */
  function DefaultSlot(f: Field): Slot
    decreases f, 1
  {
    match f.htype
    case Required => One(InitialValue(f))
    case Optional => if f.sizeOffset != 0 then Maybe(false, InitialValue(f)) else One(InitialValue(f))
    case Repeated => Many(if f.sizeOffset != 0 then [] else seq(f.arraySize, _ => f.init))
    case Oneof => Choice(false, f.init)
  }

  function Defaults(fields: seq<Field>): (m: seq<Slot>)
    ensures |m| == |fields|
    decreases fields
  {
    seq(|fields|, i requires 0 <= i < |fields| => DefaultSlot(fields[i]))
  }

  // ---- Up to the payload of absent fields ------------------------------------------------------------------------

  function NormalValue(f: Field, v: Value): Value
    decreases f, 0
  {
    if f.ltype == LSubmessage then Msg(Normal(f.ptr, SlotsOf(v))) else v
  }

  /** The same field, with its initial payload if it is absent. */
  function NormalSlot(f: Field, slot: Slot): Slot
    decreases f, 1
  {
    match f.htype
    case Required => One(NormalValue(f, ValueIn(slot)))
    case Optional =>
      if f.sizeOffset != 0 then
        if Present(f, slot) then Maybe(true, NormalValue(f, ValueIn(slot))) else Maybe(false, InitialValue(f))
      else One(if Present(f, slot) then NormalValue(f, ValueIn(slot)) else InitialValue(f))
    case Repeated => Many(NormalItems(f, ItemsIn(slot)))
    case Oneof => if Present(f, slot) then Choice(true, NormalValue(f, ValueIn(slot))) else Choice(false, f.init)
  }

  function NormalItems(f: Field, items: seq<Value>): (r: seq<Value>)
    ensures |r| == |items|
    decreases f, 1, 0
  {
    seq(|items|, i requires 0 <= i < |items| => NormalValue(f, items[i]))
  }

  function Normal(fields: seq<Field>, m: seq<Slot>): (r: seq<Slot>)
    ensures |r| == |fields|
    decreases fields
  {
    seq(|fields|, i requires 0 <= i < |fields| => NormalSlot(fields[i], SlotAt(m, i)))
  }
}
