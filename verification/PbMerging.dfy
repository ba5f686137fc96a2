/** Decoding into a message that already holds something (nanopb pb_decode_noinit): single fields are replaced, unions
    switched, arrays appended to, submessages merged, whatever was decoded before. */
module PbMerging {
  import opened Coding
  import opened PbFields
  import opened PbMessages
  import opened PbVarints
  import opened PbEncoding
  import opened PbDecoding
  import opened PbRoundTrips

  // ---- Unions ----------------------------------------------------------------------------------------------------

  /** Fields belong to one union exactly when they follow each other in it. */
  lemma {:induction false} OneUnion(fields: seq<Field>, i: nat, j: nat)
    requires i <= j < |fields|
    ensures GroupStart(fields, i) == GroupStart(fields, j)
            <==> forall k :: i < k <= j ==> SameUnion(fields[k - 1], fields[k])
  {
    GroupBounds(fields, i);
    if i < j {
      OneUnion(fields, i, j - 1);
    }
  }

  lemma {:induction false} GroupBounds(fields: seq<Field>, i: nat)
    requires i < |fields|
    ensures GroupStart(fields, i) <= i
  {
    if i > 0 && SameUnion(fields[i - 1], fields[i]) {
      GroupBounds(fields, i - 1);
    }
  }

  /** Storing a field sets it, unsets the others of its union, and touches nothing else. */
  lemma ChosenMeans(fields: seq<Field>, m: seq<Slot>, i: nat, slot: Slot, j: nat)
    requires |m| == |fields| && i < |fields| && j < |fields|
    ensures Chosen(fields, m, i, slot)[j]
            == if j == i then slot
               else if fields[i].htype == Oneof && fields[j].htype == Oneof && GroupStart(fields, j) == GroupStart(fields, i)
                    then Choice(false, fields[j].init)
               else m[j]
  {
  }

  // ---- Single fields -----------------------------------------------------------------------------------------------

  lemma WholeSlot(f: Field, slot: Slot)
    requires f.htype != Repeated && SlotTyped(f, slot) && Present(f, slot)
    ensures var v := ValueIn(slot);
            slot == if f.htype == Oneof then Choice(true, v) else if HasFlag(f) then Maybe(true, v) else One(v)
  {
    hide ValueTyped, IsDefault;
  }

  lemma ScalarStored(f: Field, before: Slot, input: Bytes, v: Value, rest: Bytes)
    requires f.ltype != LSubmessage && ScalarIn(f, input) == Parsed(v, rest)
    ensures SlotOf(f, before, input)
            == Parsed(if f.htype == Oneof then Choice(true, v) else if HasFlag(f) then Maybe(true, v) else One(v), rest)
  {
    hide ScalarIn, InitialValue;
  }

  lemma SingleField(fields: seq<Field>, st: State, i: nat, wire: nat, input: Bytes, slot: Slot, rest: Bytes)
    requires StateOk(fields, st) && i < |fields| && fields[i].htype != Repeated
    requires SlotOf(fields[i], st.m[i], input) == Parsed(slot, rest)
    ensures FieldOf(fields, st, i, wire, input)
            == Parsed(st.(m := Chosen(fields, st.m, i, slot), seen := Seen(fields, st.seen, i)), rest)
  {
    hide SlotOf, Chosen, Seen, ArrayOf;
  }

  /** A value other than a submessage takes the place of what was there, wherever the decoder stands. */
  lemma Replaces(fields: seq<Field>, st: State, i: nat, slot: Slot, rest: Bytes)
    requires WellFormed(fields) && StateOk(fields, st) && i < |fields|
    requires fields[i].htype != Repeated && fields[i].ltype != LSubmessage
    requires SlotTyped(fields[i], slot) && Present(fields[i], slot)
    requires FieldOut(fields[i], slot).Out? && |FieldOut(fields[i], slot).bytes| < TWO_32
    ensures FieldsOf(fields, st, FieldOut(fields[i], slot).bytes + rest)
            == FieldsOf(fields, st.(m := Chosen(fields, st.m, i, slot), seen := Seen(fields, st.seen, i)), rest)
  {
    hide WellFormed, SlotTyped, ValueTyped, ScalarOut, ScalarIn, TagBytes, Chosen, Present, FieldsOf, FieldOf, SlotOf;
    var f := fields[i];
    var tag, value := TagBytes(WireTypeOf(f), f.tag), ScalarOut(f, ValueIn(slot)).bytes;
    assert FieldOut(f, slot).bytes + rest == tag + (value + rest);
    TagLeads(fields, st, i, WireTypeOf(f), value + rest);
    PresentTyped(f, slot);
    ScalarRoundTrip(f, ValueIn(slot), rest);
    WholeSlot(f, slot);
    ScalarStored(f, st.m[i], value + rest, ValueIn(slot), rest);
    SingleField(fields, st, i, WireCode(WireTypeOf(f)), value + rest, slot, rest);
  }

  /** What a submessage is merged into: what is there, unless it is a field of a union that was not chosen. */
  function Into(f: Field, slot: Slot): seq<Slot> {
    if f.htype == Oneof && !(slot.Choice? && slot.chosen) then Defaults(f.ptr) else SlotsOf(ValueIn(slot))
  }

  /** A submessage is decoded into the one that is there. */
  lemma Merges(fields: seq<Field>, st: State, i: nat, slot: Slot, rest: Bytes)
    requires WellFormed(fields) && StateOk(fields, st) && i < |fields|
    requires fields[i].htype != Repeated && fields[i].ltype == LSubmessage && Present(fields[i], slot)
    requires |Into(fields[i], st.m[i])| == |fields[i].ptr|
    requires FieldOut(fields[i], slot).Out? && |FieldOut(fields[i], slot).bytes| < TWO_32
    ensures MessageOut(fields[i].ptr, SlotsOf(ValueIn(slot)), |fields[i].ptr|).Out?
    ensures var f := fields[i];
            var r := MessageOf(f.ptr, Into(f, st.m[i]), MessageOut(f.ptr, SlotsOf(ValueIn(slot)), |f.ptr|).bytes);
            FieldsOf(fields, st, FieldOut(f, slot).bytes + rest)
            == if r.Failed? then Failed
               else
                 var v := Msg(r.value);
                 var now := if f.htype == Oneof then Choice(true, v) else if HasFlag(f) then Maybe(true, v) else One(v);
                 FieldsOf(fields, st.(m := Chosen(fields, st.m, i, now), seen := Seen(fields, st.seen, i)), rest)
  {
    hide WellFormed, TagBytes, Chosen, Present, FieldsOf, MessageOut, MessageOf, CountedIn, Counted, Defaults, FieldOf, SlotOf;
    var f := fields[i];
    var body := MessageOut(f.ptr, SlotsOf(ValueIn(slot)), |f.ptr|).bytes;
    assert FieldOut(f, slot).bytes + rest == TagBytes(WireTypeOf(f), f.tag) + (Counted(body) + rest);
    TagLeads(fields, st, i, WireTypeOf(f), Counted(body) + rest);
    CountedLonger(body);
    CountedRoundTrip(body, |Counted(body) + rest|, rest);
    SubmessageStored(f, st.m[i], Counted(body) + rest, body, rest);
    var r := SlotOf(f, st.m[i], Counted(body) + rest);
    if r.Parsed? {
      SingleField(fields, st, i, WireCode(WireTypeOf(f)), Counted(body) + rest, r.value, rest);
    } else {
      SingleFails(fields, st, i, WireCode(WireTypeOf(f)), Counted(body) + rest);
    }
  }

  lemma SingleFails(fields: seq<Field>, st: State, i: nat, wire: nat, input: Bytes)
    requires StateOk(fields, st) && i < |fields| && fields[i].htype != Repeated && SlotOf(fields[i], st.m[i], input) == Failed
    ensures FieldOf(fields, st, i, wire, input) == Failed
  {
    hide SlotOf, Chosen, Seen, ArrayOf;
  }

  lemma SubmessageStored(f: Field, before: Slot, input: Bytes, body: Bytes, rest: Bytes)
    requires f.ltype == LSubmessage && CountedIn(input, |input|) == Parsed(body, rest) && |Into(f, before)| == |f.ptr|
    ensures var r := MessageOf(f.ptr, Into(f, before), body);
            SlotOf(f, before, input)
            == if r.Failed? then Failed
               else
                 var v := Msg(r.value);
                 Parsed(if f.htype == Oneof then Choice(true, v) else if HasFlag(f) then Maybe(true, v) else One(v), rest)
  {
    hide MessageOf, CountedIn, Defaults;
  }

  // ---- Arrays ----------------------------------------------------------------------------------------------------

  lemma {:induction false} UnpackAppends(f: Field, before: seq<Value>, items: seq<Value>, n: nat, rest: Bytes)
    requires Packable(f) && n <= |items| && |before| + n <= f.arraySize
    requires forall i :: 0 <= i < |items| ==> ValueTyped(f, items[i])
    requires ItemsOut(f, items, n).Out? && |ItemsOut(f, items, n).bytes| < TWO_32
    ensures Unpack(f, before, |before|, ItemsOut(f, items, n).bytes + rest)
            == Unpack(f, before + items[..n], |before| + n, rest)
    decreases n
  {
    hide ScalarOut, ScalarIn, ValueTyped;
    if n == 0 {
      assert ItemsOut(f, items, 0).bytes + rest == rest && before + items[..0] == before;
    } else {
      var v, front := items[n - 1], ItemsOut(f, items, n - 1).bytes;
      var b := ScalarOut(f, v).bytes;
      assert [] + b == b;
      assert ItemsOut(f, items, n).bytes + rest == front + (b + rest);
      UnpackAppends(f, before, items, n - 1, b + rest);
      ScalarRoundTrip(f, v, rest);
      UnpackStep(f, before + items[..n - 1], |before| + n - 1, b + rest, v, rest);
      assert before + items[..n] == before + items[..n - 1] + [v];
    }
  }

  lemma ScalarBytes(f: Field, v: Value)
    requires ScalarOut(f, v).Out? && Packable(f)
    ensures ScalarOut(f, v).bytes != []
  {
    hide ZigZag;
    assert Fixed(NumOf(v) % TWO_32, 4) != [] && Fixed(NumOf(v) % TWO_64, 8) != [];
  }

  /** An entry too many is an error. */
  lemma UnpackOverflows(f: Field, before: seq<Value>, items: seq<Value>)
    requires Packable(f) && |before| + |items| > f.arraySize >= |before|
    requires forall i :: 0 <= i < |items| ==> ValueTyped(f, items[i])
    requires ItemsOut(f, items, |items|).Out? && |ItemsOut(f, items, |items|).bytes| < TWO_32
    ensures Unpack(f, before, |before|, ItemsOut(f, items, |items|).bytes) == Failed
  {
    hide ScalarOut, ScalarIn, ValueTyped;
    var n := f.arraySize - |before|;
    var more := ItemsSplit(f, items, n, |items|);
    UnpackAppends(f, before, items, n, more);
  }

  lemma {:induction false} ItemsSplit(f: Field, items: seq<Value>, m: nat, n: nat) returns (more: Bytes)
    requires m <= n <= |items| && ItemsOut(f, items, n).Out? && Packable(f)
    ensures ItemsOut(f, items, m).Out? && ItemsOut(f, items, n).bytes == ItemsOut(f, items, m).bytes + more
    ensures m < n ==> more != []
    ensures |ItemsOut(f, items, m).bytes| <= |ItemsOut(f, items, n).bytes|
  {
    hide ScalarOut;
    if m == n {
      more := [];
    } else {
      var front := ItemsSplit(f, items, m, n - 1);
      var b := ScalarOut(f, items[n - 1]).bytes;
      assert [] + b == b;
      ScalarBytes(f, items[n - 1]);
      more := front + b;
      assert ItemsOut(f, items, m).bytes + front + b == ItemsOut(f, items, m).bytes + more;
    }
  }

  /** A packed array is appended to what is there; more entries than there is room for are an error. */
  lemma Appends(fields: seq<Field>, st: State, i: nat, slot: Slot, rest: Bytes)
    requires WellFormed(fields) && StateOk(fields, st) && i < |fields|
    requires fields[i].htype == Repeated && !FixedCount(fields[i]) && Packable(fields[i]) && SlotTyped(fields[i], slot)
    requires slot.items != [] && |ItemsIn(st.m[i])| <= fields[i].arraySize
    requires FieldOut(fields[i], slot).Out? && |FieldOut(fields[i], slot).bytes| < TWO_32
    ensures var f, all := fields[i], ItemsIn(st.m[i]) + slot.items;
            FieldsOf(fields, st, FieldOut(f, slot).bytes + rest)
            == if |all| > f.arraySize then Failed
               else FieldsOf(fields, st.(m := st.m[i := Many(all)], seen := Seen(fields, st.seen, i)), rest)
  {
    hide WellFormed, SlotTyped, ValueTyped, TagBytes, FieldsOf, ItemsOut, Unpack, CountedIn, Counted, Packable;
    var f, items, before := fields[i], ItemsIn(slot), ItemsIn(st.m[i]);
    ArrayTyped(f, slot);
    TypedItems(f, slot);
    var body := ItemsOut(f, items, |items|).bytes;
    assert FieldOut(f, slot).bytes + rest == TagBytes(WtString, f.tag) + (Counted(body) + rest);
    TagLeads(fields, st, i, WtString, Counted(body) + rest);
    CountedLonger(body);
    CountedRoundTrip(body, |Counted(body) + rest|, rest);
    if |before| + |items| > f.arraySize {
      UnpackOverflows(f, before, items);
    } else {
      UnpackAppends(f, before, items, |items|, []);
      assert body + [] == body && items[..|items|] == items;
      UnpackEnds(f, before + items, |before| + |items|);
    }
  }

  /** So is an entry that comes alone, packable or not. */
  lemma EntryAppends(fields: seq<Field>, st: State, i: nat, v: Value, rest: Bytes)
    requires WellFormed(fields) && StateOk(fields, st) && i < |fields| && ValueTyped(fields[i], v)
    requires fields[i].htype == Repeated && !FixedCount(fields[i])
    requires ValueOut(fields[i], v).Out? && |ValueOut(fields[i], v).bytes| < TWO_32
    ensures var f, before := fields[i], ItemsIn(st.m[i]);
            FieldsOf(fields, st, TagBytes(WireTypeOf(f), f.tag) + (ValueOut(f, v).bytes + rest))
            == if |before| >= f.arraySize then Failed
               else FieldsOf(fields, st.(m := st.m[i := Many(before + [NormalValue(f, v)])], seen := Seen(fields, st.seen, i)), rest)
  {
    hide WellFormed, FieldOk, ValueTyped, TagBytes, FieldsOf, ValueOut, ValueOf, NormalValue, InitialValue;
    var f := fields[i];
    FieldFacts(fields, i);
    TagLeads(fields, st, i, WireTypeOf(f), ValueOut(f, v).bytes + rest);
    ValueRoundTrip(f, v, rest);
  }

  lemma TypedItems(f: Field, slot: Slot)
    requires f.htype == Repeated && SlotTyped(f, slot)
    ensures forall i :: 0 <= i < |ItemsIn(slot)| ==> ValueTyped(f, ItemsIn(slot)[i])
    ensures |ItemsIn(slot)| <= f.arraySize
  {
    hide ValueTyped;
  }

  // ---- What is refused -------------------------------------------------------------------------------------------

  lemma {:induction false} FirstRequired(fields: seq<Field>, i: nat) returns (k: nat)
    requires i < |fields| && fields[i].htype == Required
    ensures k <= i && fields[k].htype == Required && RequiredIndex(fields, k) == 0
  {
    k := i;
    if RequiredIndex(fields, i) > 0 {
      k := RequiredOnto(fields, i, 0);
    }
  }

  /** Nothing at all is a message exactly of a type without required fields; what is there stays. */
  lemma NothingDecoded(fields: seq<Field>, m: seq<Slot>)
    requires |m| == |fields|
    ensures MessageOf(fields, m, [])
            == if exists i :: 0 <= i < |fields| && fields[i].htype == Required then Failed else Parsed(m, [])
  {
    if i :| 0 <= i < |fields| && fields[i].htype == Required {
      var k := FirstRequired(fields, i);
      assert !Complete(fields, Begin(m));
    }
  }

  /** Numbers that do not fit their field are refused. A signed field of less than eight bytes first keeps the low 32
      bits. */
  lemma NumbersRefused(v: nat, size: nat, rest: Bytes)
    requires size in {1, 2, 4, 8} && v < TWO_64
    ensures UnsignedIn(Parsed(v, rest), size) == if v < Span(size) then Parsed(Num(v), rest) else Failed
    ensures ZigZagIn(Parsed(v, rest), size) == if FitsSigned(UnZigZag(v), size) then Parsed(Num(UnZigZag(v)), rest) else Failed
    ensures var n := AsSigned(v, if size == 8 then 8 else 4);
            NumberIn(Parsed(v, rest), size) == if FitsSigned(n, size) then Parsed(Num(n), rest) else Failed
  {
    hide AsSigned, FitsSigned, UnZigZag;
    AsSignedFits(UnZigZag(v), size);
    AsSignedFits(AsSigned(v, if size == 8 then 8 else 4), size);
    FitsUnsigned(v, Span(size));
  }

  lemma FitsUnsigned(v: nat, n: nat)
    requires n > 0
    ensures v % n == v <==> v < n
  {
  }

  /** So are strings and blobs longer than the field has room for. */
  lemma LongRefused(b: Bytes, max: nat, rest: Bytes)
    requires |b| < TWO_32 && |b| > max
    ensures CountedIn(Counted(b) + rest, max) == Failed
  {
    hide Varint, PbVarint32Of;
    assert Counted(b) + rest == Varint(|b|) + (b + rest);
    PbVarint32RoundTrip(|b|, b + rest);
  }

  /** A blob of fixed length is read at that length alone; an empty one stands for zeros. */
  lemma BlobSizes(f: Field, b: Bytes, rest: Bytes)
    requires f.ltype == LFixedLengthBytes && |b| < TWO_32
    ensures ScalarIn(f, Counted(b) + rest)
            == if b == [] then Parsed(Data(seq(f.dataSize, _ => 0)), rest)
               else if |b| == f.dataSize then Parsed(Data(b), rest) else Failed
  {
    hide Varint, PbVarint32Of, Counted, CountedIn;
    if |b| > f.dataSize {
      LongRefused(b, f.dataSize, rest);
    } else {
      CountedRoundTrip(b, f.dataSize, rest);
    }
  }

  // ---- What is taken as something else -----------------------------------------------------------------------------

  /** Any number but zero is true. */
  lemma AnythingIsTrue(f: Field, v: nat, rest: Bytes)
    requires f.ltype == LBool && v < TWO_32
    ensures ScalarIn(f, Varint(v) + rest) == Parsed(Num(if v == 0 then 0 else 1), rest)
  {
    hide Varint, PbVarint32Of;
    PbVarint32RoundTrip(v, rest);
  }

  /** A string ends at its first zero, wherever its length says it ends. */
  lemma StringEnds(f: Field, b: Bytes, n: nat, rest: Bytes)
    requires f.ltype == LString && |b| < TWO_32 && |b| + 1 <= f.dataSize
    requires n <= |b| && (n < |b| ==> b[n] == 0) && forall i :: 0 <= i < n ==> b[i] != 0
    ensures ScalarIn(f, Counted(b) + rest) == Parsed(Data(b[..n]), rest)
  {
    hide Varint, Counted, CountedIn;
    CountedRoundTrip(b, f.dataSize - 1, rest);
    FirstZero(b, n);
  }

  lemma {:induction false} FirstZero(b: Bytes, n: nat)
    requires n <= |b| && (n < |b| ==> b[n] == 0) && forall i :: 0 <= i < n ==> b[i] != 0
    ensures UpToZero(b) == b[..n]
  {
    if n > 0 {
      FirstZero(b[1..], n - 1);
      assert b[..n] == [b[0]] + b[1..][..n - 1];
    }
  }
}
