/** Decoding what was encoded (nanopb): the same message, up to the payload of absent fields. */
module PbRoundTrips {
  import opened Coding
  import opened PbFields
  import opened PbFieldIters
  import opened PbMessages
  import opened PbRequired
  import opened PbVarints
  import opened PbEncoding
  import opened PbDecoding

  const MAX_TAG: nat := 0x2000_0000

  /** The initial value of a field whose presence is told by its value is zero. */
  predicate ZeroInit(f: Field) {
    match f.ltype
    case LSubmessage => true
    case LBytes => f.init == Data([])
    case LString => f.init == Data([])
    case LFixedLengthBytes => f.init == Data(seq(f.dataSize, _ => 0))
    case _ => f.init == Num(0)
  }

  predicate WellFormed(fields: seq<Field>)
    decreases fields
  {
    && TagsOk(fields) && TagsDistinct(fields)
    && forall i :: 0 <= i < |fields| ==> FieldOk(fields[i])
  }

  predicate FieldOk(f: Field)
    decreases f
  {
    f.atype == Static && f.ltype != LExtension && f.tag < MAX_TAG && (Implicit(f) ==> ZeroInit(f)) && WellFormed(f.ptr)
  }

  /** Such descriptors are accepted by the encoder and the decoder. */
  lemma WellFormedCodes(fields: seq<Field>)
    requires WellFormed(fields)
    ensures AllStatic(fields) && Distinct(fields)
    decreases fields
  {
    forall i | 0 <= i < |fields| ensures AllStatic(fields[i].ptr) && Distinct(fields[i].ptr) {
      assert FieldOk(fields[i]);
      WellFormedCodes(fields[i].ptr);
    }
    assert forall i :: 0 <= i < |fields| ==> FieldOk(fields[i]);
  }

  // ---- Contents that match the descriptor ------------------------------------------------------------------------

  predicate ValueTyped(f: Field, v: Value)
    decreases f, 0
  {
    match f.ltype
    case LBool => v == Num(0) || v == Num(1)
    case LVarint => v.Num? && f.dataSize in {1, 2, 4, 8} && FitsSigned(v.n, f.dataSize)
    case LUVarint => v.Num? && f.dataSize in {1, 2, 4, 8} && 0 <= v.n < Span(f.dataSize)
    case LSVarint => v.Num? && f.dataSize in {1, 2, 4, 8} && FitsSigned(v.n, f.dataSize)
    case LFixed32 => v.Num? && 0 <= v.n < TWO_32
    case LFixed64 => v.Num? && 0 <= v.n < TWO_64
    case LBytes => v.Data? && |v.data| + 4 <= f.dataSize
    case LString => v.Data? && |v.data| < f.dataSize && 0 !in v.data
    case LFixedLengthBytes => v.Data? && |v.data| == f.dataSize
    case LSubmessage => v.Msg? && MessageTyped(f.ptr, v.slots)
    case LExtension => false
  }

  /** The payload of an absent field may be anything. */
  predicate SlotTyped(f: Field, slot: Slot)
    decreases f, 1
  {
    match f.htype
    case Required => slot.One? && ValueTyped(f, slot.v)
    case Optional =>
      if f.sizeOffset != 0 then slot.Maybe? && (slot.has ==> ValueTyped(f, slot.v)) else slot.One? && ValueTyped(f, slot.v)
    case Repeated =>
      && slot.Many? && |slot.items| <= f.arraySize && (f.sizeOffset == 0 ==> |slot.items| == f.arraySize)
      && forall i :: 0 <= i < |slot.items| ==> ValueTyped(f, slot.items[i])
    case Oneof => slot.Choice? && (slot.chosen ==> ValueTyped(f, slot.v))
  }

  predicate IsChosen(f: Field, slot: Slot) { f.htype == Oneof && slot.Choice? && slot.chosen }

  /** At most one field of a union is chosen. */
  predicate OneChoice(fields: seq<Field>, m: seq<Slot>)
    requires |m| == |fields|
  {
    forall i, j :: 0 <= i < j < |fields| && IsChosen(fields[i], m[i]) && IsChosen(fields[j], m[j])
                   ==> GroupStart(fields, i) != GroupStart(fields, j)
  }

  predicate MessageTyped(fields: seq<Field>, m: seq<Slot>)
    decreases fields, 2
  {
    && |m| == |fields| && OneChoice(fields, m)
    && forall i :: 0 <= i < |fields| ==> SlotTyped(fields[i], m[i])
  }

  // ---- Scalars -----------------------------------------------------------------------------------------------------

  lemma CountedRoundTrip(b: Bytes, max: nat, rest: Bytes)
    requires |b| < TWO_32 && |b| <= max
    ensures CountedIn(Counted(b) + rest, max) == Parsed(b, rest)
  {
    hide Varint, PbVarint32Of;
    assert Counted(b) + rest == Varint(|b|) + (b + rest);
    PbVarint32RoundTrip(|b|, b + rest);
    assert (b + rest)[..|b|] == b && (b + rest)[|b|..] == rest;
  }

  lemma {:induction false} NoZeros(b: Bytes)
    requires 0 !in b
    ensures UpToZero(b) == b
  {
    if b != [] {
      NoZeros(b[1..]);
    }
  }

  lemma FixedBack(n: nat, width: nat, rest: Bytes)
    requires (width == 4 && n < TWO_32) || (width == 8 && n < TWO_64)
    ensures FixedIn(Fixed(n, width) + rest, width) == Parsed(Num(n), rest)
  {
    hide Fixed, FixedOf;
    assert Pow256(2) == 0x1_0000 && Pow256(4) == TWO_32 && Pow256(6) == 256 * Pow256(5) && Pow256(5) == 256 * Pow256(4);
    assert Pow256(8) == 0x1_0000 * Pow256(6);
    assert (Fixed(n, width) + rest)[..width] == Fixed(n, width) && (Fixed(n, width) + rest)[width..] == rest;
    FixedRoundTrip(n, width);
  }

  lemma SignedBack(n: int, size: nat, rest: Bytes)
    requires size in {1, 2, 4, 8} && FitsSigned(n, size)
    ensures NumberIn(Varint64Of(Varint(n % TWO_64) + rest), size) == Parsed(Num(n), rest)
  {
    hide Varint, Varint64Of, AsSigned, FitsSigned;
    Varint64RoundTrip(n % TWO_64, rest);
    SignExtended(n, size);
    AsSignedFits(n, size);
  }

  lemma UnsignedBack(n: nat, size: nat, rest: Bytes)
    requires size in {1, 2, 4, 8} && n < Span(size)
    ensures UnsignedIn(Varint64Of(Varint(n % TWO_64) + rest), size) == Parsed(Num(n), rest)
  {
    hide Varint, Varint64Of;
    Reduced(n, Span(size));
    Reduced(n, TWO_64);
    Varint64RoundTrip(n, rest);
  }

  lemma FitsWide(n: int, size: nat)
    requires FitsSigned(n, size)
    ensures FitsSigned(n, 8)
  {
  }

  lemma ZigZagBack(n: int, size: nat, rest: Bytes)
    requires size in {1, 2, 4, 8} && FitsSigned(n, size)
    ensures ZigZagIn(Varint64Of(Varint(ZigZag(n)) + rest), size) == Parsed(Num(n), rest)
  {
    hide Varint, Varint64Of, AsSigned, ZigZag, UnZigZag, FitsSigned;
    FitsWide(n, size);
    ZigZagRoundTrip(n);
    ZigZagWide(n);
    Varint64RoundTrip(ZigZag(n), rest);
    AsSignedFits(n, size);
  }

  lemma ZigZagWide(n: int)
    requires FitsSigned(n, 8)
    ensures ZigZag(n) < TWO_64
  {
    ZigZagRoundTrip(n);
    hide ZigZag, UnZigZag;
  }

  lemma ScalarRoundTrip(f: Field, v: Value, rest: Bytes)
    requires f.ltype != LSubmessage && ValueTyped(f, v)
    requires ScalarOut(f, v).Out? && |ScalarOut(f, v).bytes| < TWO_32
    ensures ScalarIn(f, ScalarOut(f, v).bytes + rest) == Parsed(v, rest)
  {
    hide Varint, PbVarint32Of, Varint64Of, FixedIn, Fixed, NumberIn, UnsignedIn, ZigZagIn, ZigZag, CountedIn, UpToZero, Counted;
    match f.ltype
    case LBool => PbVarint32RoundTrip(NumOf(v), rest);
    case LVarint => SignedBack(NumOf(v), f.dataSize, rest);
    case LUVarint => UnsignedBack(NumOf(v), f.dataSize, rest);
    case LSVarint => ZigZagBack(NumOf(v), f.dataSize, rest);
    case LFixed32 => FixedBack(NumOf(v), 4, rest);
    case LFixed64 => FixedBack(NumOf(v), 8, rest);
    case LBytes =>
      CountedLonger(v.data);
      CountedRoundTrip(v.data, f.dataSize - BYTES_HEADER, rest);
    case LString =>
      CountedLonger(v.data);
      CountedRoundTrip(v.data, f.dataSize - 1, rest);
      NoZeros(v.data);
    case LFixedLengthBytes =>
      CountedLonger(v.data);
      CountedRoundTrip(v.data, f.dataSize, rest);
      if v.data == [] {
        assert v.data == seq(f.dataSize, _ => 0);
      }
    case LExtension =>
  }

  lemma CountedLonger(b: Bytes)
    ensures |Counted(b)| > |b|
  {
  }

  // ---- States after some fields ----------------------------------------------------------------------------------

  /** The first n fields read back, the others untouched. */
  function Mixed(fields: seq<Field>, m: seq<Slot>, n: nat): (r: seq<Slot>)
    ensures |r| == |fields|
  {
    seq(|fields|, j requires 0 <= j < |fields| => if j < n then NormalSlot(fields[j], SlotAt(m, j)) else DefaultSlot(fields[j]))
  }

  predicate FillsFixed(f: Field, slot: Slot) { FixedCount(f) && ItemsIn(slot) != [] }

  function After(fields: seq<Field>, m: seq<Slot>, n: nat): (st: State)
    requires n <= |fields|
    ensures StateOk(fields, st)
  {
    if n == 0 then Begin(Mixed(fields, m, 0))
    else
      var st, i := After(fields, m, n - 1), n - 1;
      var fills := FillsFixed(fields[i], SlotAt(m, i));
      State(Mixed(fields, m, n), Seen(fields, st.seen, i), if fills then i else st.fixedField,
            if fills then fields[i].arraySize else st.fixedSize)
  }

  lemma {:induction false} AfterFacts(fields: seq<Field>, m: seq<Slot>, n: nat)
    requires n <= |fields|
    ensures After(fields, m, n).m == Mixed(fields, m, n) && After(fields, m, n).fixedField < n
    ensures var st := After(fields, m, n); st.fixedField >= 0 ==> st.fixedSize == fields[st.fixedField].arraySize
    ensures forall i :: 0 <= i < n && fields[i].htype == Required && RequiredIndex(fields, i) < MAX_REQUIRED
                        ==> RequiredIndex(fields, i) in After(fields, m, n).seen
  {
    hide NormalSlot, DefaultSlot, Mixed;
    if n > 0 {
      AfterFacts(fields, m, n - 1);
    }
  }

  lemma FieldFacts(fields: seq<Field>, i: nat)
    requires WellFormed(fields) && i < |fields|
    ensures FieldOk(fields[i]) && WellFormed(fields[i].ptr) && fields[i].tag > 0 && TagsDistinct(fields)
  {
  }

  lemma TypedFacts(fields: seq<Field>, m: seq<Slot>, i: nat)
    requires MessageTyped(fields, m) && i < |fields|
    ensures |m| == |fields| && SlotTyped(fields[i], m[i]) && SlotAt(m, i) == m[i] && OneChoice(fields, m)
  {
  }

  /** An absent field looks as if it had never been touched. */
  lemma AbsentIsDefault(f: Field, slot: Slot)
    requires f.htype != Repeated && !Present(f, slot)
    ensures NormalSlot(f, slot) == DefaultSlot(f)
  {
  }

  /** Storing field i, with what that does to its union, makes it the next of the fields read back. */
  lemma MixedNext(fields: seq<Field>, m: seq<Slot>, i: nat)
    requires |m| == |fields| && OneChoice(fields, m) && i < |fields|
    ensures var f, slot, now := fields[i], m[i], Mixed(fields, m, i);
            && (f.htype == Repeated ==> now[i := NormalSlot(f, slot)] == Mixed(fields, m, i + 1))
            && (f.htype != Repeated && !Present(f, slot) ==> now == Mixed(fields, m, i + 1))
            && (f.htype != Repeated && Present(f, slot) ==> Chosen(fields, now, i, NormalSlot(f, slot)) == Mixed(fields, m, i + 1))
  {
    hide NormalSlot, DefaultSlot, GroupStart;
    var f, slot, now, next := fields[i], m[i], Mixed(fields, m, i), Mixed(fields, m, i + 1);
    assert forall j :: 0 <= j < |fields| && j != i ==> now[j] == next[j];
    assert next[i] == NormalSlot(f, slot);
    if f.htype != Repeated && !Present(f, slot) {
      AbsentIsDefault(f, slot);
    }
    if f.htype == Oneof && Present(f, slot) {
      forall j | 0 <= j < |fields| && j != i && fields[j].htype == Oneof && GroupStart(fields, j) == GroupStart(fields, i)
        ensures next[j] == Choice(false, fields[j].init)
      {
        assert !IsChosen(fields[j], m[j]);
        UnchosenSlot(fields[j], m[j]);
      }
      assert Chosen(fields, now, i, NormalSlot(f, slot)) == next;
    }
  }

  lemma UnchosenSlot(f: Field, slot: Slot)
    requires f.htype == Oneof && !IsChosen(f, slot)
    ensures NormalSlot(f, slot) == DefaultSlot(f) == Choice(false, f.init)
  {
  }

  /** A tag written for field i leads back to field i. */
  lemma TagLeads(fields: seq<Field>, st: State, i: nat, w: WireType, more: Bytes)
    requires WellFormed(fields) && StateOk(fields, st) && i < |fields|
    ensures FieldsOf(fields, st, TagBytes(w, fields[i].tag) + more)
            == match FieldOf(fields, st, i, WireCode(w), more)
               case Failed => Failed
               case Parsed(st', rest) => FieldsOf(fields, st', rest)
  {
    hide Varint, PbVarint32Of, FieldOf, WellFormed, FieldOk;
    FieldFacts(fields, i);
    TagSmall(fields[i]);
    var key := fields[i].tag * 8 + WireCode(w);
    PbVarint32RoundTrip(key, more);
    var j := IndexOf(fields, fields[i].tag);
    TagMatches(fields[i]);
    OnlyMatch(fields, i, j, fields[i].tag);
    assert key / 8 == fields[i].tag && key % 8 == WireCode(w);
    NonemptyVarint(key, more);
  }

  lemma NonemptyVarint(v: nat, more: Bytes)
    ensures Varint(v) + more != []
  {
  }

  lemma TagSmall(f: Field)
    requires FieldOk(f)
    ensures f.tag < MAX_TAG
  {
  }

  lemma TagMatches(f: Field)
    requires FieldOk(f)
    ensures Matches(f, f.tag)
  {
  }

  // ---- Arrays ----------------------------------------------------------------------------------------------------

  predicate ItemsTyped(f: Field, items: seq<Value>) {
    |items| <= f.arraySize && forall i :: 0 <= i < |items| ==> ValueTyped(f, items[i])
  }

  /** An array after its first k entries were read; base is what was there before. */
  function Partly(f: Field, base: seq<Value>, items: seq<Value>, k: nat): seq<Value>
    requires k <= |items|
  {
    NormalItems(f, items)[..k] + if k <= |base| then base[k..] else []
  }

  lemma PartlyNext(f: Field, base: seq<Value>, items: seq<Value>, k: nat)
    requires k < |items| && (|base| == 0 || |base| == |items|)
    ensures Put(Partly(f, base, items, k), k, NormalValue(f, items[k])) == Partly(f, base, items, k + 1)
    ensures |Partly(f, base, items, k)| == if base == [] then k else |base|
  {
    hide NormalValue;
    assert NormalItems(f, items)[..k + 1] == NormalItems(f, items)[..k] + [NormalValue(f, items[k])];
  }

  lemma PartlyEnds(f: Field, base: seq<Value>, items: seq<Value>)
    requires |base| == 0 || |base| == |items|
    ensures Partly(f, base, items, 0) == base && Partly(f, base, items, |items|) == NormalItems(f, items)
  {
    hide NormalItems;
  }

  lemma {:induction false} UnpackRoundTrip(f: Field, base: seq<Value>, items: seq<Value>, n: nat, rest: Bytes)
    requires Packable(f) && ItemsTyped(f, items) && n <= |items| && (|base| == 0 || |base| == |items|)
    requires ItemsOut(f, items, n).Out? && |ItemsOut(f, items, n).bytes| < TWO_32
    ensures Unpack(f, base, 0, ItemsOut(f, items, n).bytes + rest) == Unpack(f, Partly(f, base, items, n), n, rest)
    decreases n
  {
    hide ScalarOut, ScalarIn, NormalValue, Partly, Put, ValueTyped;
    if n == 0 {
      PartlyEnds(f, base, items);
      assert ItemsOut(f, items, 0).bytes + rest == rest;
    } else {
      var v, front := items[n - 1], ItemsOut(f, items, n - 1).bytes;
      var b := ScalarOut(f, v).bytes;
      assert [] + b == b;
      assert ItemsOut(f, items, n).bytes + rest == front + (b + rest);
      UnpackRoundTrip(f, base, items, n - 1, b + rest);
      ScalarRoundTrip(f, v, rest);
      PlainValue(f, v);
      PartlyNext(f, base, items, n - 1);
      UnpackStep(f, Partly(f, base, items, n - 1), n - 1, b + rest, v, rest);
    }
  }

  lemma PlainValue(f: Field, v: Value)
    requires f.ltype != LSubmessage
    ensures NormalValue(f, v) == v
  {
  }

  lemma UnpackStep(f: Field, items: seq<Value>, k: nat, input: Bytes, v: Value, rest: Bytes)
    requires k < f.arraySize && ScalarIn(f, input) == Parsed(v, rest)
    ensures Unpack(f, items, k, input) == Unpack(f, Put(items, k, v), k + 1, rest)
  {
    hide Put;
  }

  // ---- Messages --------------------------------------------------------------------------------------------------

  lemma ValueRoundTrip(f: Field, v: Value, rest: Bytes)
    requires WellFormed(f.ptr) && ValueTyped(f, v) && ValueOut(f, v).Out? && |ValueOut(f, v).bytes| < TWO_32
    ensures ValueOf(f, InitialValue(f), ValueOut(f, v).bytes + rest) == Parsed(NormalValue(f, v), rest)
    decreases f, 0
  {
    if f.ltype != LSubmessage {
      ScalarRoundTrip(f, v, rest);
    } else {
      hide Varint, CountedIn, MessageOf, MessageOut, Normal;
      var body := MessageOut(f.ptr, v.slots, |f.ptr|).bytes;
      CountedLonger(body);
      CountedRoundTrip(body, |Counted(body) + rest|, rest);
      MessageRoundTrip(f.ptr, v.slots);
    }
  }

  lemma {:induction false} MixedParts(fields: seq<Field>, m: seq<Slot>, i: nat)
    requires |m| == |fields| && i < |fields|
    ensures var st := After(fields, m, i);
            st.m == Mixed(fields, m, i) && st.m[i] == DefaultSlot(fields[i]) && |st.m| == |fields| && st.fixedField < i
    ensures var st := After(fields, m, i); st.fixedField >= 0 ==> st.fixedSize == fields[st.fixedField].arraySize
  {
    hide DefaultSlot, NormalSlot;
    AfterFacts(fields, m, i);
  }

  /** What a single value is merged into has not been touched. */
  lemma FreshStorage(f: Field, input: Bytes)
    requires f.htype != Repeated
    ensures SlotOf(f, DefaultSlot(f), input)
            == match ValueOf(f, InitialValue(f), input)
               case Failed => Failed
               case Parsed(v, rest) =>
                 Parsed(if f.htype == Oneof then Choice(true, v) else if HasFlag(f) then Maybe(true, v) else One(v), rest)
  {
    hide ValueOf, InitialValue;
  }

  lemma PresentSlot(f: Field, slot: Slot)
    requires f.htype != Repeated && Present(f, slot)
    ensures var v := NormalValue(f, ValueIn(slot));
            NormalSlot(f, slot) == if f.htype == Oneof then Choice(true, v) else if HasFlag(f) then Maybe(true, v) else One(v)
  {
    hide NormalValue, IsDefault;
  }

  lemma PresentTyped(f: Field, slot: Slot)
    requires f.htype != Repeated && Present(f, slot) && SlotTyped(f, slot)
    ensures ValueTyped(f, ValueIn(slot))
  {
    hide ValueTyped, IsDefault;
  }

  lemma SingleStep(fields: seq<Field>, m: seq<Slot>, i: nat, rest: Bytes)
    requires WellFormed(fields) && MessageTyped(fields, m) && i < |fields|
    requires fields[i].htype != Repeated && Present(fields[i], m[i])
    requires FieldOut(fields[i], m[i]).Out? && |FieldOut(fields[i], m[i]).bytes| < TWO_32
    ensures FieldsOf(fields, After(fields, m, i), FieldOut(fields[i], m[i]).bytes + rest)
            == FieldsOf(fields, After(fields, m, i + 1), rest)
    decreases fields, 1
  {
    hide WellFormed, FieldOk, MessageTyped, SlotTyped, ValueTyped, ValueOut, ValueOf, SlotOf, TagBytes, DefaultSlot, NormalSlot,
         Mixed, Chosen, Present, FieldsOf, NormalValue, InitialValue;
    TypedFacts(fields, m, i);
    var f, slot, st := fields[i], m[i], After(fields, m, i);
    FieldFacts(fields, i);
    var tag, value := TagBytes(WireTypeOf(f), f.tag), ValueOut(f, ValueIn(slot)).bytes;
    assert FieldOut(f, slot).bytes + rest == tag + (value + rest);
    TagLeads(fields, st, i, WireTypeOf(f), value + rest);
    MixedParts(fields, m, i);
    FreshStorage(f, value + rest);
    PresentTyped(f, slot);
    ValueRoundTrip(f, ValueIn(slot), rest);
    PresentSlot(f, slot);
    MixedNext(fields, m, i);
  }

  lemma BaseOf(f: Field, items: seq<Value>)
    requires f.htype == Repeated && (FixedCount(f) ==> |items| == f.arraySize)
    ensures var base := ItemsIn(DefaultSlot(f)); (|base| == 0 || |base| == |items|) && (!FixedCount(f) ==> base == [])
  {
  }

  /** The state after k entries of the array field i. */
  function Amid(fields: seq<Field>, m: seq<Slot>, i: nat, k: nat): (st: State)
    requires |m| == |fields| && i < |fields| && k <= |ItemsIn(m[i])|
    ensures StateOk(fields, st)
  {
    var f, st, items := fields[i], After(fields, m, i), ItemsIn(m[i]);
    State(st.m[i := Many(Partly(f, ItemsIn(DefaultSlot(f)), items, k))], st.seen,
          if FixedCount(f) && k > 0 then i else st.fixedField, if FixedCount(f) && k > 0 then k else st.fixedSize)
  }

  lemma ArrayTyped(f: Field, slot: Slot)
    requires f.htype == Repeated && SlotTyped(f, slot)
    ensures slot == Many(ItemsIn(slot)) && ItemsTyped(f, ItemsIn(slot)) && (FixedCount(f) ==> |ItemsIn(slot)| == f.arraySize)
    ensures NormalSlot(f, slot) == Many(NormalItems(f, ItemsIn(slot)))
  {
    hide ValueTyped;
  }

  lemma AmidEnds(fields: seq<Field>, m: seq<Slot>, i: nat)
    requires MessageTyped(fields, m) && i < |fields| && fields[i].htype == Repeated
    ensures Amid(fields, m, i, 0) == After(fields, m, i)
    ensures Amid(fields, m, i, |ItemsIn(m[i])|) == After(fields, m, i + 1)
  {
    hide MessageTyped, SlotTyped, ItemsTyped, DefaultSlot, NormalSlot, Mixed, NormalItems, Partly, OneChoice;
    TypedFacts(fields, m, i);
    var f, items, st := fields[i], ItemsIn(m[i]), After(fields, m, i);
    ArrayTyped(f, m[i]);
    BaseOf(f, items);
    PartlyEnds(f, ItemsIn(DefaultSlot(f)), items);
    MixedParts(fields, m, i);
    MixedNext(fields, m, i);
    ManyDefault(f);
    assert st.m[i := DefaultSlot(f)] == st.m;
  }

  lemma ManyDefault(f: Field)
    requires f.htype == Repeated
    ensures DefaultSlot(f) == Many(ItemsIn(DefaultSlot(f)))
  {
  }

  /** Reading entries from the k-th on continues where the decoder stands. */
  lemma AmidArray(fields: seq<Field>, m: seq<Slot>, i: nat, k: nat, wire: nat, input: Bytes)
    requires MessageTyped(fields, m) && i < |fields| && fields[i].htype == Repeated && k <= |ItemsIn(m[i])|
    ensures var f, st := fields[i], Amid(fields, m, i, k);
            var here := Partly(f, ItemsIn(DefaultSlot(f)), ItemsIn(m[i]), k);
            FieldOf(fields, st, i, wire, input)
            == match ArrayOf(f, wire, here, k, input)
               case Failed => Failed
               case Parsed(a, rest) =>
                 Parsed(State(After(fields, m, i).m[i := Many(a.items)], st.seen, if FixedCount(f) then i else st.fixedField,
                              if FixedCount(f) then a.count else st.fixedSize), rest)
  {
    hide MessageTyped, SlotTyped, ItemsTyped, DefaultSlot, NormalSlot, Mixed, NormalItems, Partly, OneChoice, ArrayOf, SlotOf;
    TypedFacts(fields, m, i);
    var f, items := fields[i], ItemsIn(m[i]);
    ArrayTyped(f, m[i]);
    BaseOf(f, items);
    MixedParts(fields, m, i);
    var base := ItemsIn(DefaultSlot(f));
    PartlyLength(f, base, items, k);
    var st, now, here := Amid(fields, m, i, k), After(fields, m, i), Partly(f, base, items, k);
    assert ItemsIn(st.m[i]) == here && Seen(fields, st.seen, i) == st.seen;
    match ArrayOf(f, wire, here, k, input)
    case Failed =>
    case Parsed(a, _) => assert st.m[i := Many(a.items)] == now.m[i := Many(a.items)];
  }

  lemma PartlyLength(f: Field, base: seq<Value>, items: seq<Value>, k: nat)
    requires k <= |items| && (|base| == 0 || |base| == |items|)
    ensures |Partly(f, base, items, k)| == if base == [] then k else |base|
  {
    hide NormalItems;
  }

  lemma PackedStep(fields: seq<Field>, m: seq<Slot>, i: nat, rest: Bytes)
    requires WellFormed(fields) && MessageTyped(fields, m) && i < |fields|
    requires fields[i].htype == Repeated && Packable(fields[i]) && ItemsIn(m[i]) != []
    requires FieldOut(fields[i], m[i]).Out? && |FieldOut(fields[i], m[i]).bytes| < TWO_32
    ensures FieldsOf(fields, After(fields, m, i), FieldOut(fields[i], m[i]).bytes + rest)
            == FieldsOf(fields, After(fields, m, i + 1), rest)
  {
    hide WellFormed, FieldOk, MessageTyped, SlotTyped, ItemsTyped, TagBytes, DefaultSlot, NormalSlot, Mixed, NormalItems, Partly,
         OneChoice, FieldsOf, FieldOf, ItemsOut, Unpack, CountedIn, Counted, Amid, After, Packable;
    TypedFacts(fields, m, i);
    var f, items, st := fields[i], ItemsIn(m[i]), After(fields, m, i);
    var base, body := ItemsIn(DefaultSlot(f)), ItemsOut(f, items, |items|).bytes;
    ArrayTyped(f, m[i]);
    SmallArray(f, items);
    assert FieldOut(f, m[i]).bytes + rest == TagBytes(WtString, f.tag) + (Counted(body) + rest);
    TagLeads(fields, st, i, WtString, Counted(body) + rest);
    AmidEnds(fields, m, i);
    AmidArray(fields, m, i, 0, 2, Counted(body) + rest);
    CountedLonger(body);
    CountedRoundTrip(body, |Counted(body) + rest|, rest);
    BaseOf(f, items);
    PartlyEnds(f, base, items);
    UnpackRoundTrip(f, base, items, |items|, []);
    assert body + [] == body;
    UnpackEnds(f, Partly(f, base, items, |items|), |items|);
    AmidWhole(fields, m, i);
  }

  lemma SmallArray(f: Field, items: seq<Value>)
    requires ItemsTyped(f, items) && items != []
    ensures |items| <= f.arraySize
  {
  }

  lemma UnpackEnds(f: Field, items: seq<Value>, k: nat)
    ensures Unpack(f, items, k, []) == Parsed(Filled(items, k), [])
  {
  }

  lemma AmidWhole(fields: seq<Field>, m: seq<Slot>, i: nat)
    requires |m| == |fields| && i < |fields| && ItemsIn(m[i]) != []
    ensures var f, st, n := fields[i], After(fields, m, i), |ItemsIn(m[i])|;
            Amid(fields, m, i, n)
            == State(st.m[i := Many(Partly(f, ItemsIn(DefaultSlot(f)), ItemsIn(m[i]), n))], st.seen,
                     if FixedCount(f) then i else st.fixedField, if FixedCount(f) then n else st.fixedSize)
    ensures var start, st := Amid(fields, m, i, 0), After(fields, m, i);
            start.seen == st.seen && start.fixedField == st.fixedField && start.fixedSize == st.fixedSize
  {
    hide DefaultSlot, Partly;
  }

  /** The first n entries of an array that is not packed. */
  lemma {:induction false} ItemsStep(fields: seq<Field>, m: seq<Slot>, i: nat, n: nat, rest: Bytes)
    requires WellFormed(fields) && MessageTyped(fields, m) && i < |fields|
    requires fields[i].htype == Repeated && !Packable(fields[i]) && n <= |ItemsIn(m[i])|
    requires ItemsOut(fields[i], ItemsIn(m[i]), n).Out? && |ItemsOut(fields[i], ItemsIn(m[i]), n).bytes| < TWO_32
    ensures FieldsOf(fields, After(fields, m, i), ItemsOut(fields[i], ItemsIn(m[i]), n).bytes + rest)
            == FieldsOf(fields, Amid(fields, m, i, n), rest)
    decreases fields, 1, n
  {
    hide WellFormed, FieldOk, MessageTyped, SlotTyped, ValueTyped, TagBytes, DefaultSlot, NormalSlot, Mixed, NormalItems, Partly,
         OneChoice, FieldsOf, FieldOf, ValueOut, ValueOf, After, Packable, NormalValue, InitialValue;
    TypedFacts(fields, m, i);
    var f, items := fields[i], ItemsIn(m[i]);
    if n == 0 {
      AmidEnds(fields, m, i);
      assert ItemsOut(f, items, 0).bytes + rest == rest;
    } else {
      var front, v, base := ItemsOut(f, items, n - 1).bytes, items[n - 1], ItemsIn(DefaultSlot(f));
      var tag, b := TagBytes(WireTypeOf(f), f.tag), ValueOut(f, v).bytes;
      assert ItemsOut(f, items, n).bytes + rest == front + (tag + (b + rest));
      ItemsStep(fields, m, i, n - 1, tag + (b + rest));
      FieldFacts(fields, i);
      ArrayTyped(f, m[i]);
      TagLeads(fields, Amid(fields, m, i, n - 1), i, WireTypeOf(f), b + rest);
      AmidArray(fields, m, i, n - 1, WireCode(WireTypeOf(f)), b + rest);
      ValueRoundTrip(f, v, rest);
      BaseOf(f, items);
      PartlyNext(f, base, items, n - 1);
    }
  }

  lemma FieldStep(fields: seq<Field>, m: seq<Slot>, i: nat, rest: Bytes)
    requires WellFormed(fields) && MessageTyped(fields, m) && i < |fields|
    requires FieldOut(fields[i], m[i]).Out? && |FieldOut(fields[i], m[i]).bytes| < TWO_32
    ensures FieldsOf(fields, After(fields, m, i), FieldOut(fields[i], m[i]).bytes + rest)
            == FieldsOf(fields, After(fields, m, i + 1), rest)
    decreases fields, 2
  {
    hide WellFormed, MessageTyped, SlotTyped, DefaultSlot, NormalSlot, FieldsOf, ValueOut, ItemsOut, Amid, IsDefault, OneChoice,
         Mixed;
    TypedFacts(fields, m, i);
    var f, slot := fields[i], m[i];
    if f.htype == Repeated {
      if ItemsIn(slot) == [] {
        AmidEnds(fields, m, i);
        assert FieldOut(f, slot).bytes + rest == rest;
      } else if Packable(f) {
        PackedStep(fields, m, i, rest);
      } else {
        ItemsStep(fields, m, i, |ItemsIn(slot)|, rest);
        AmidEnds(fields, m, i);
      }
    } else if Present(f, slot) {
      SingleStep(fields, m, i, rest);
    } else {
      MixedParts(fields, m, i);
      MixedNext(fields, m, i);
      assert FieldOut(f, slot).bytes + rest == rest;
    }
  }

  lemma {:induction false} FieldsRoundTrip(fields: seq<Field>, m: seq<Slot>, n: nat, rest: Bytes)
    requires WellFormed(fields) && MessageTyped(fields, m) && n <= |fields|
    requires MessageOut(fields, m, n).Out? && |MessageOut(fields, m, n).bytes| < TWO_32
    ensures FieldsOf(fields, After(fields, m, 0), MessageOut(fields, m, n).bytes + rest)
            == FieldsOf(fields, After(fields, m, n), rest)
    decreases fields, 3, n
  {
    hide WellFormed, MessageTyped, FieldsOf, FieldOut, After;
    if n == 0 {
      assert MessageOut(fields, m, 0).bytes + rest == rest;
    } else {
      TypedFacts(fields, m, n - 1);
      var front, b := MessageOut(fields, m, n - 1).bytes, FieldOut(fields[n - 1], m[n - 1]).bytes;
      assert MessageOut(fields, m, n).bytes + rest == front + (b + rest);
      FieldsRoundTrip(fields, m, n - 1, b + rest);
      FieldStep(fields, m, n - 1, rest);
    }
  }

  lemma MixedEnds(fields: seq<Field>, m: seq<Slot>)
    ensures After(fields, m, 0) == Begin(Defaults(fields)) && Mixed(fields, m, |fields|) == Normal(fields, m)
  {
    hide DefaultSlot, NormalSlot;
  }

  /** pb_decode after pb_encode: the same message up to the payload of absent fields, for every descriptor and every
      contents that match it, whatever the nesting. */
  lemma MessageRoundTrip(fields: seq<Field>, m: seq<Slot>)
    requires WellFormed(fields) && MessageTyped(fields, m)
    requires MessageOut(fields, m, |fields|).Out? && |MessageOut(fields, m, |fields|).bytes| < TWO_32
    ensures MessageOf(fields, Defaults(fields), MessageOut(fields, m, |fields|).bytes) == Parsed(Normal(fields, m), [])
    decreases fields, 4
  {
    hide WellFormed, MessageTyped, MessageOut, After, Mixed, Normal, Defaults;
    var e := MessageOut(fields, m, |fields|).bytes;
    assert e + [] == e;
    FieldsRoundTrip(fields, m, |fields|, []);
    MixedEnds(fields, m);
    AfterFacts(fields, m, |fields|);
  }

  // ---- What the normal form keeps --------------------------------------------------------------------------------

  /** A field whose presence is told by its value loses nothing by being left out. */
  lemma AbsentImplicit(f: Field, v: Value)
    requires FieldOk(f) && Implicit(f) && ValueTyped(f, v) && IsDefault(f, One(v))
    ensures NormalValue(f, v) == InitialValue(f)
    decreases f, 0
  {
    hide WellFormed, MessageTyped, AllDefault;
    if f.ltype == LSubmessage {
      AllAbsent(f.ptr, v.slots);
    }
  }

  /** A message that counts as unset reads like a fresh one. */
  lemma AllAbsent(fields: seq<Field>, m: seq<Slot>)
    requires WellFormed(fields) && MessageTyped(fields, m) && AllDefault(fields, m)
    ensures Normal(fields, m) == Defaults(fields)
    decreases fields, 1
  {
    forall i | 0 <= i < |fields| ensures NormalSlot(fields[i], m[i]) == DefaultSlot(fields[i]) {
      hide NormalValue, InitialValue, ValueTyped, FieldOk, OneChoice;
      var f := fields[i];
      assert IsDefault(f, SlotAt(m, i)) && SlotTyped(f, m[i]) && FieldOk(f);
      if f.htype == Repeated {
        ArrayTyped(f, m[i]);
      } else {
        AbsentSlot(f, m[i]);
      }
    }
  }

  lemma AbsentSlot(f: Field, slot: Slot)
    requires IsDefault(f, slot) && f.htype != Repeated
    ensures NormalSlot(f, slot) == DefaultSlot(f)
  {
    hide NormalValue, InitialValue;
  }

  /** Present fields keep their value, and so do fields whose presence is told by their value. */
  lemma NothingLost(f: Field, slot: Slot)
    requires FieldOk(f) && SlotTyped(f, slot)
    ensures f.htype == Required || Implicit(f) ==> NormalSlot(f, slot) == One(NormalValue(f, slot.v))
    ensures HasFlag(f) && slot.has ==> NormalSlot(f, slot) == Maybe(true, NormalValue(f, slot.v))
    ensures f.htype == Oneof && slot.chosen ==> NormalSlot(f, slot) == Choice(true, NormalValue(f, slot.v))
    ensures f.htype == Repeated ==> NormalSlot(f, slot) == Many(NormalItems(f, slot.items))
    ensures HasFlag(f) && !slot.has ==> NormalSlot(f, slot) == Maybe(false, InitialValue(f))
    ensures f.htype == Oneof && !slot.chosen ==> NormalSlot(f, slot) == Choice(false, f.init)
  {
    hide NormalValue, InitialValue, IsDefault, ValueTyped, NormalItems;
    if Implicit(f) && !Present(f, slot) {
      ImplicitSlot(f, slot);
      AbsentImplicit(f, slot.v);
    }
  }

  lemma ImplicitSlot(f: Field, slot: Slot)
    requires Implicit(f) && SlotTyped(f, slot)
    ensures slot == One(slot.v) && ValueTyped(f, slot.v)
  {
  }

  // ---- Everything that matches its descriptor can be encoded -------------------------------------------------------

  lemma Encodes(fields: seq<Field>, m: seq<Slot>, n: nat)
    requires MessageTyped(fields, m) && n <= |fields|
    ensures MessageOut(fields, m, n).Out?
    decreases fields, 3, n
  {
    hide MessageTyped, FieldOut;
    if n > 0 {
      TypedFacts(fields, m, n - 1);
      FieldEncodes(fields[n - 1], m[n - 1]);
      Encodes(fields, m, n - 1);
    }
  }

  lemma FieldEncodes(f: Field, slot: Slot)
    requires SlotTyped(f, slot)
    ensures FieldOut(f, slot).Out?
    decreases f, 2
  {
    hide ValueTyped, ValueOut, ItemsOut, IsDefault;
    if f.htype == Repeated {
      ItemsEncode(f, slot.items, |slot.items|);
    } else if Present(f, slot) {
      PresentTyped(f, slot);
      ValueEncodes(f, ValueIn(slot));
    }
  }

  lemma {:induction false} ItemsEncode(f: Field, items: seq<Value>, n: nat)
    requires n <= |items| && forall i :: 0 <= i < |items| ==> ValueTyped(f, items[i])
    ensures ItemsOut(f, items, n).Out?
    decreases f, 1, n
  {
    hide ValueTyped, ValueOut;
    if n > 0 {
      ItemsEncode(f, items, n - 1);
      ValueEncodes(f, items[n - 1]);
    }
  }

  lemma ValueEncodes(f: Field, v: Value)
    requires ValueTyped(f, v)
    ensures ValueOut(f, v).Out?
    decreases f, 0
  {
    if f.ltype == LSubmessage {
      Encodes(f.ptr, v.slots, |f.ptr|);
    }
  }

  // ---- Nothing else can be -----------------------------------------------------------------------------------------

  /** The value fits its field: blobs beside their header, numbers in storage of a size there is, submessages as messages. */
  ghost predicate Storable(f: Field, v: Value) {
    && (f.ltype == LBytes ==> |DataOf(v)| + 4 <= f.dataSize)
    && (f.ltype in {LVarint, LUVarint, LSVarint} ==> f.dataSize in {1, 2, 4, 8})
    && (f.ltype == LSubmessage ==> MessageOut(f.ptr, SlotsOf(v), |f.ptr|).Out?)
  }

  lemma {:induction false} ItemsStorable(f: Field, items: seq<Value>, n: nat, k: nat)
    requires k < n <= |items| && ItemsOut(f, items, n).Out?
    ensures Storable(f, items[k])
  {
    if k < n - 1 {
      ItemsStorable(f, items, n - 1, k);
    }
  }

  /** What is encoded fits: no array holds more entries than its field has room for, and every value that is sent can be
      stored in its field. */
  lemma {:induction false} EncodedFits(fields: seq<Field>, m: seq<Slot>, n: nat, i: nat)
    requires i < n <= |fields| && MessageOut(fields, m, n).Out?
    ensures var (f, slot) := (fields[i], SlotAt(m, i));
            && (f.htype == Repeated && ItemsIn(slot) != [] ==> |ItemsIn(slot)| <= f.arraySize)
            && (f.htype == Repeated ==> forall k :: 0 <= k < |ItemsIn(slot)| ==> Storable(f, ItemsIn(slot)[k]))
            && (f.htype != Repeated && Present(f, slot) ==> Storable(f, ValueIn(slot)))
  {
    hide Storable, ValueOut, ItemsOut;
    if i < n - 1 {
      EncodedFits(fields, m, n - 1, i);
    } else {
      var (f, slot) := (fields[i], SlotAt(m, i));
      assert FieldOut(f, slot).Out?;
      if f.htype == Repeated {
        assert ArrayOut(f, ItemsIn(slot)).Out?;
        forall k | 0 <= k < |ItemsIn(slot)| ensures Storable(f, ItemsIn(slot)[k]) {
          ItemsStorable(f, ItemsIn(slot), |ItemsIn(slot)|, k);
        }
      } else if Present(f, slot) {
        ValueStorable(f, ValueIn(slot));
      }
    }
  }

  lemma ValueStorable(f: Field, v: Value)
    requires ValueOut(f, v).Out?
    ensures Storable(f, v)
  {
  }
}
