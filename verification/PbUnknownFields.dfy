/** Decoding with a descriptor that lacks some of the fields that were encoded (nanopb pb_skip_field): they are passed
    over, whatever their type. */
module PbUnknownFields {
  import opened Coding
  import opened PbFields
  import opened PbMessages
  import opened PbVarints
  import opened PbEncoding
  import opened PbDecoding
  import opened PbRoundTrips

  // ---- What was encoded is what is skipped ---------------------------------------------------------------------

  lemma {:induction false} VarintSkipped(v: nat, rest: Bytes)
    ensures SkipVarint(Varint(v) + rest) == Parsed(0, rest)
    decreases v
  {
    var input := Varint(v) + rest;
    if v < 128 {
      assert input[1..] == rest;
    } else {
      assert input[1..] == Varint(v / 128) + rest;
      VarintSkipped(v / 128, rest);
    }
  }

  lemma BytesSkipped(b: Bytes, rest: Bytes)
    ensures SkipBytes(b + rest, |b|) == Parsed(0, rest)
  {
    assert (b + rest)[|b|..] == rest;
  }

  lemma CountedSkipped(b: Bytes, rest: Bytes)
    requires |b| < TWO_32
    ensures SkipField(WireCode(WtString), Counted(b) + rest) == Parsed(0, rest)
  {
    hide Varint, PbVarint32Of;
    assert Counted(b) + rest == Varint(|b|) + (b + rest);
    PbVarint32RoundTrip(|b|, b + rest);
    BytesSkipped(b, rest);
  }

  lemma ValueSkipped(f: Field, v: Value, rest: Bytes)
    requires ValueOut(f, v).Out? && |ValueOut(f, v).bytes| < TWO_32
    ensures SkipField(WireCode(WireTypeOf(f)), ValueOut(f, v).bytes + rest) == Parsed(0, rest)
  {
    hide Varint, SkipVarint, SkipBytes, Counted, Fixed, MessageOut, Exactly, ZigZag;
    match f.ltype
    case LBool => VarintSkipped(if NumOf(v) != 0 then 1 else 0, rest);
    case LVarint => VarintSkipped(NumOf(v) % TWO_64, rest);
    case LUVarint => VarintSkipped(NumOf(v) % TWO_64, rest);
    case LSVarint => VarintSkipped(ZigZag(NumOf(v)), rest);
    case LFixed32 => BytesSkipped(Fixed(NumOf(v) % TWO_32, 4), rest);
    case LFixed64 => BytesSkipped(Fixed(NumOf(v) % TWO_64, 8), rest);
    case LBytes => DataSkipped(DataOf(v), rest);
    case LString => DataSkipped(DataOf(v), rest);
    case LFixedLengthBytes => DataSkipped(Exactly(DataOf(v), f.dataSize), rest);
    case LSubmessage => DataSkipped(MessageOut(f.ptr, SlotsOf(v), |f.ptr|).bytes, rest);
    case LExtension =>
  }

  lemma DataSkipped(b: Bytes, rest: Bytes)
    requires |Counted(b)| < TWO_32
    ensures SkipField(WireCode(WtString), Counted(b) + rest) == Parsed(0, rest)
  {
    CountedLonger(b);
    CountedSkipped(b, rest);
  }

  // ---- Fields the decoder does not know ------------------------------------------------------------------------

  predicate Unknown(fields: seq<Field>, tag: nat) {
    0 < tag < MAX_TAG && forall i :: 0 <= i < |fields| ==> fields[i].tag != tag
  }

  lemma UnknownTag(fields: seq<Field>, st: State, tag: nat, w: WireType, more: Bytes)
    requires StateOk(fields, st) && Unknown(fields, tag)
    ensures FieldsOf(fields, st, TagBytes(w, tag) + more)
            == var skipped := SkipField(WireCode(w), more);
               if skipped.Parsed? then FieldsOf(fields, st, skipped.rest) else Failed
  {
    hide Varint, PbVarint32Of, SkipField;
    var key := tag * 8 + WireCode(w);
    PbVarint32RoundTrip(key, more);
    NonemptyVarint(key, more);
    assert key / 8 == tag && key % 8 == WireCode(w);
    assert IndexOf(fields, tag) < 0;
  }

  lemma {:induction false} ItemsSkipped(fields: seq<Field>, st: State, g: Field, items: seq<Value>, n: nat, rest: Bytes)
    requires StateOk(fields, st) && Unknown(fields, g.tag) && !Packable(g) && n <= |items|
    requires ItemsOut(g, items, n).Out? && |ItemsOut(g, items, n).bytes| < TWO_32
    ensures FieldsOf(fields, st, ItemsOut(g, items, n).bytes + rest) == FieldsOf(fields, st, rest)
  {
    hide FieldsOf, TagBytes, ValueOut, SkipField, WireTypeOf, Packable;
    if n == 0 {
      assert ItemsOut(g, items, 0).bytes + rest == rest;
    } else {
      var front, b := ItemsOut(g, items, n - 1).bytes, ValueOut(g, items[n - 1]).bytes;
      var tag := TagBytes(WireTypeOf(g), g.tag);
      assert ItemsOut(g, items, n).bytes + rest == front + (tag + (b + rest));
      ItemsSkipped(fields, st, g, items, n - 1, tag + (b + rest));
      UnknownTag(fields, st, g.tag, WireTypeOf(g), b + rest);
      ValueSkipped(g, items[n - 1], rest);
    }
  }

  /** What was written for a field with a tag the descriptor lacks leaves no trace, wherever the decoder stands. */
  lemma FieldSkipped(fields: seq<Field>, st: State, g: Field, slot: Slot, rest: Bytes)
    requires StateOk(fields, st) && Unknown(fields, g.tag)
    requires FieldOut(g, slot).Out? && |FieldOut(g, slot).bytes| < TWO_32
    ensures FieldsOf(fields, st, FieldOut(g, slot).bytes + rest) == FieldsOf(fields, st, rest)
  {
    hide FieldsOf, TagBytes, ValueOut, SkipField, WireTypeOf, Packable, ItemsOut, Counted, Present;
    if g.htype == Repeated {
      var items := ItemsIn(slot);
      if items == [] {
        assert FieldOut(g, slot).bytes + rest == rest;
      } else if Packable(g) {
        var body := ItemsOut(g, items, |items|).bytes;
        assert FieldOut(g, slot).bytes + rest == TagBytes(WtString, g.tag) + (Counted(body) + rest);
        UnknownTag(fields, st, g.tag, WtString, Counted(body) + rest);
        DataSkipped(body, rest);
      } else {
        ItemsSkipped(fields, st, g, items, |items|, rest);
      }
    } else if Present(g, slot) {
      var b := ValueOut(g, ValueIn(slot)).bytes;
      assert FieldOut(g, slot).bytes + rest == TagBytes(WireTypeOf(g), g.tag) + (b + rest);
      UnknownTag(fields, st, g.tag, WireTypeOf(g), b + rest);
      ValueSkipped(g, ValueIn(slot), rest);
    } else {
      assert FieldOut(g, slot).bytes + rest == rest;
    }
  }

  // ---- A reader that knows fewer fields ------------------------------------------------------------------------

  /** Of the first n fields written, those the reader does not lack are its first k, with the same contents. */
  ghost predicate Narrows(wide: seq<Field>, w: seq<Slot>, n: nat, fields: seq<Field>, m: seq<Slot>, k: nat)
    requires n <= |wide| && k <= |fields| == |m|
  {
    if n == 0 then k == 0
    else
      var g, slot := wide[n - 1], SlotAt(w, n - 1);
      || (Unknown(fields, g.tag) && Narrows(wide, w, n - 1, fields, m, k))
      || (k > 0 && fields[k - 1].tag == g.tag && FieldOut(fields[k - 1], m[k - 1]) == FieldOut(g, slot)
          && Narrows(wide, w, n - 1, fields, m, k - 1))
  }

  lemma {:induction false} NarrowRoundTrip(wide: seq<Field>, w: seq<Slot>, n: nat, fields: seq<Field>, m: seq<Slot>, k: nat,
                                           rest: Bytes)
    requires WellFormed(fields) && MessageTyped(fields, m) && n <= |wide| && k <= |fields| == |m|
    requires Narrows(wide, w, n, fields, m, k)
    requires MessageOut(wide, w, n).Out? && |MessageOut(wide, w, n).bytes| < TWO_32
    ensures FieldsOf(fields, After(fields, m, 0), MessageOut(wide, w, n).bytes + rest)
            == FieldsOf(fields, After(fields, m, k), rest)
    decreases n
  {
    hide WellFormed, MessageTyped, FieldsOf, FieldOut, After, Unknown;
    if n == 0 {
      assert MessageOut(wide, w, 0).bytes + rest == rest;
    } else {
      var g, slot := wide[n - 1], SlotAt(w, n - 1);
      var front, b := MessageOut(wide, w, n - 1).bytes, FieldOut(g, slot).bytes;
      assert MessageOut(wide, w, n).bytes + rest == front + (b + rest);
      if Unknown(fields, g.tag) && Narrows(wide, w, n - 1, fields, m, k) {
        NarrowRoundTrip(wide, w, n - 1, fields, m, k, b + rest);
        FieldSkipped(fields, After(fields, m, k), g, slot, rest);
      } else {
        NarrowRoundTrip(wide, w, n - 1, fields, m, k - 1, b + rest);
        FieldStep(fields, m, k - 1, rest);
      }
    }
  }

  /** A reader that lacks some of the fields written decodes the others as it would have without them. */
  lemma OlderReader(wide: seq<Field>, w: seq<Slot>, fields: seq<Field>, m: seq<Slot>)
    requires WellFormed(fields) && MessageTyped(fields, m) && |m| == |fields|
    requires Narrows(wide, w, |wide|, fields, m, |fields|)
    requires MessageOut(wide, w, |wide|).Out? && |MessageOut(wide, w, |wide|).bytes| < TWO_32
    ensures MessageOf(fields, Defaults(fields), MessageOut(wide, w, |wide|).bytes) == Parsed(Normal(fields, m), [])
  {
    hide WellFormed, MessageTyped, MessageOut, After, Mixed, Normal, Defaults, Narrows;
    var e := MessageOut(wide, w, |wide|).bytes;
    assert e + [] == e;
    NarrowRoundTrip(wide, w, |wide|, fields, m, |fields|, []);
    MixedEnds(fields, m);
    AfterFacts(fields, m, |fields|);
  }

  /** In particular one unknown field in front of a message does not change what is decoded. */
  lemma UnknownInFront(fields: seq<Field>, m: seq<Slot>, g: Field, slot: Slot)
    requires WellFormed(fields) && MessageTyped(fields, m) && Unknown(fields, g.tag)
    requires FieldOut(g, slot).Out? && |FieldOut(g, slot).bytes| < TWO_32
    requires MessageOut(fields, m, |fields|).Out? && |MessageOut(fields, m, |fields|).bytes| < TWO_32
    ensures MessageOf(fields, Defaults(fields), FieldOut(g, slot).bytes + MessageOut(fields, m, |fields|).bytes)
            == Parsed(Normal(fields, m), [])
  {
    hide WellFormed, MessageTyped, MessageOut, FieldOut, FieldsOf, Normal, Defaults, Unknown;
    MessageRoundTrip(fields, m);
    FieldSkipped(fields, Begin(Defaults(fields)), g, slot, MessageOut(fields, m, |fields|).bytes);
  }
}
