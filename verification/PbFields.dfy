/** Message descriptors (nanopb pb.h): a message type is a list of fields. Sizes and tags are 32 bits wide, as for
    PB_FIELD_32BIT. */
module PbFields {
  import opened Coding

  datatype LType = LBool | LVarint | LUVarint | LSVarint | LFixed32 | LFixed64 | LBytes | LString | LSubmessage
    | LExtension | LFixedLengthBytes

  datatype HType = Required | Optional | Repeated | Oneof

  datatype AType = Static | Pointer | Callback

  /** What is stored in a message: numbers, text and blobs, submessages. */
  datatype Value = Num(n: int) | Data(data: Bytes) | Msg(slots: seq<Slot>)

  /** The storage of a field: a value, a value with its has flag, a counted array, or its share of a union. */
  datatype Slot = One(v: Value) | Maybe(has: bool, v: Value) | Many(items: seq<Value>) | Choice(chosen: bool, v: Value)

  /** dataOffset counts from the end of the field before, sizeOffset from the data; ptr describes a submessage, init
      is the initial value of other fields. */
  datatype Field = Field(tag: nat, atype: AType, htype: HType, ltype: LType, dataOffset: nat, sizeOffset: int,
                         dataSize: nat, arraySize: nat, ptr: seq<Field>, init: Value)

  const SIZE_MAX: nat := 0xFFFF_FFFF

  /** sizeof(void*). */
  const SIZEOF_PTR: nat := 8

  const LAST_FIELD: Field := Field(0, Static, Required, LBool, 0, 0, 0, 0, [], Num(0))

  /** Only the terminator has tag 0. */
  predicate TagsOk(fields: seq<Field>) {
    forall i :: 0 <= i < |fields| ==> fields[i].tag > 0
  }

  predicate TagsDistinct(fields: seq<Field>) {
    forall i, j :: 0 <= i < j < |fields| ==> fields[i].tag != fields[j].tag
  }

  /** A field at the same place as its predecessor, in one union. */
  predicate SameUnion(prev: Field, f: Field) {
    prev.htype == Oneof && f.htype == Oneof && f.dataOffset == SIZE_MAX
  }

  /** How many of the first i fields are required. */
  function RequiredIndex(fields: seq<Field>, i: nat): nat
    requires i <= |fields|
  {
    if i == 0 then 0 else RequiredIndex(fields, i - 1) + if fields[i - 1].htype == Required then 1 else 0
  }

  lemma {:induction false} RequiredGrows(fields: seq<Field>, i: nat, j: nat)
    requires i <= j <= |fields|
    ensures RequiredIndex(fields, i) <= RequiredIndex(fields, j)
    ensures i < j && fields[i].htype == Required ==> RequiredIndex(fields, i) < RequiredIndex(fields, j)
  {
    if i < j {
      RequiredGrows(fields, i, j - 1);
    }
  }

  /** Every index below the number of required fields belongs to one. */
  lemma {:induction false} RequiredOnto(fields: seq<Field>, n: nat, x: nat) returns (i: nat)
    requires n <= |fields| && x < RequiredIndex(fields, n)
    ensures i < n && fields[i].htype == Required && RequiredIndex(fields, i) == x
  {
    if x < RequiredIndex(fields, n - 1) {
      i := RequiredOnto(fields, n - 1, x);
    } else {
      i := n - 1;
    }
  }
}
