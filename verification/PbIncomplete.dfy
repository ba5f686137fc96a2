/** Messages that stop short (nanopb pb_decode_noinit): required fields that never came and arrays of fixed count that
    were left incomplete are what makes them fail, and nothing else does. */
module PbIncomplete {
  import opened Coding
  import opened PbFields
  import opened PbMessages
  import opened PbEncoding
  import opened PbDecoding
  import opened PbRoundTrips

  // ---- Required fields -------------------------------------------------------------------------------------------

  lemma {:induction false} NotSeenYet(fields: seq<Field>, m: seq<Slot>, n: nat, i: nat)
    requires n <= i < |fields| && fields[i].htype == Required
    ensures RequiredIndex(fields, i) !in After(fields, m, n).seen
  {
    hide Mixed;
    if n > 0 {
      NotSeenYet(fields, m, n - 1, i);
      if fields[n - 1].htype == Required {
        RequiredGrows(fields, n - 1, i);
      }
    }
  }

  /** The first n fields alone are a message exactly if no field after them is required, as far as is checked; those
      fields have their first contents. */
  lemma FirstFieldsOnly(fields: seq<Field>, m: seq<Slot>, n: nat)
    requires WellFormed(fields) && MessageTyped(fields, m) && n <= |fields|
    requires MessageOut(fields, m, n).Out? && |MessageOut(fields, m, n).bytes| < TWO_32
    ensures MessageOf(fields, Defaults(fields), MessageOut(fields, m, n).bytes)
            == if exists i :: n <= i < |fields| && fields[i].htype == Required && RequiredIndex(fields, i) < 64
               then Failed else Parsed(Mixed(fields, m, n), [])
  {
    hide WellFormed, MessageTyped, MessageOut, After, Mixed, Defaults, Normal;
    var e := MessageOut(fields, m, n).bytes;
    assert e + [] == e;
    FieldsRoundTrip(fields, m, n, []);
    MixedEnds(fields, m);
    AfterFacts(fields, m, n);
    if i :| n <= i < |fields| && fields[i].htype == Required && RequiredIndex(fields, i) < 64 {
      NotSeenYet(fields, m, n, i);
    }
  }

  // ---- Arrays of fixed count -------------------------------------------------------------------------------------

  lemma AmidFixed(fields: seq<Field>, m: seq<Slot>, i: nat, n: nat)
    requires MessageTyped(fields, m) && i < |fields| && FixedCount(fields[i]) && 0 < n < |ItemsIn(m[i])|
    ensures Amid(fields, m, i, n).fixedField == i && Amid(fields, m, i, n).fixedSize == n < fields[i].arraySize
  {
    hide MessageTyped, SlotTyped, After, Partly;
    TypedFacts(fields, m, i);
    ArrayTyped(fields[i], m[i]);
  }

  /** An array of fixed count that got some of its entries and not all of them: the message is refused at its end. */
  lemma ShortArray(fields: seq<Field>, m: seq<Slot>, i: nat, n: nat)
    requires WellFormed(fields) && MessageTyped(fields, m) && i < |fields|
    requires FixedCount(fields[i]) && !Packable(fields[i]) && 0 < n < |ItemsIn(m[i])|
    requires MessageOut(fields, m, i).Out? && |MessageOut(fields, m, i).bytes| < TWO_32
    requires ItemsOut(fields[i], ItemsIn(m[i]), n).Out? && |ItemsOut(fields[i], ItemsIn(m[i]), n).bytes| < TWO_32
    ensures MessageOf(fields, Defaults(fields), MessageOut(fields, m, i).bytes + ItemsOut(fields[i], ItemsIn(m[i]), n).bytes)
            == Failed
  {
    hide WellFormed, MessageTyped, MessageOut, ItemsOut, After, Amid, Mixed, Defaults, Normal;
    TypedFacts(fields, m, i);
    var items := ItemsOut(fields[i], ItemsIn(m[i]), n).bytes;
    assert items + [] == items;
    FieldsRoundTrip(fields, m, i, items);
    MixedEnds(fields, m);
    ItemsStep(fields, m, i, n, []);
    AmidFixed(fields, m, i, n);
  }

  /** Or where another such array begins, whatever follows. */
  lemma Interrupted(fields: seq<Field>, m: seq<Slot>, i: nat, n: nat, j: nat, w: WireType, more: Bytes)
    requires WellFormed(fields) && MessageTyped(fields, m) && i < |fields| && j < |fields| && j != i
    requires FixedCount(fields[i]) && FixedCount(fields[j]) && !Packable(fields[i]) && 0 < n < |ItemsIn(m[i])|
    requires MessageOut(fields, m, i).Out? && |MessageOut(fields, m, i).bytes| < TWO_32
    requires ItemsOut(fields[i], ItemsIn(m[i]), n).Out? && |ItemsOut(fields[i], ItemsIn(m[i]), n).bytes| < TWO_32
    ensures MessageOf(fields, Defaults(fields), MessageOut(fields, m, i).bytes
                                                + (ItemsOut(fields[i], ItemsIn(m[i]), n).bytes
                                                   + (TagBytes(w, fields[j].tag) + more))) == Failed
  {
    hide WellFormed, MessageTyped, MessageOut, ItemsOut, After, Amid, Mixed, Defaults, Normal, TagBytes, FieldsOf;
    TypedFacts(fields, m, i);
    var rest := TagBytes(w, fields[j].tag) + more;
    FieldsRoundTrip(fields, m, i, ItemsOut(fields[i], ItemsIn(m[i]), n).bytes + rest);
    MixedEnds(fields, m);
    ItemsStep(fields, m, i, n, rest);
    AmidFixed(fields, m, i, n);
    TagLeads(fields, Amid(fields, m, i, n), j, w, more);
  }
}
