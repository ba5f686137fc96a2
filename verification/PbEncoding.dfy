/** Encoding messages (nanopb pb_encode.c) in the Protocol Buffers wire format: each submessage and packed array is
    first sized by a pass that does not write. */
module PbEncoding {
  import opened Coding
  import opened PbFields
  import opened PbFieldIters
  import opened PbMessages
  import opened PbVarints

  datatype WireType = WtVarint | Wt64Bit | WtString | Wt32Bit

  function WireCode(w: WireType): nat {
    match w case WtVarint => 0 case Wt64Bit => 1 case WtString => 2 case Wt32Bit => 5
  }

  predicate Packable(f: Field) {
    f.ltype in {LBool, LVarint, LUVarint, LSVarint, LFixed32, LFixed64}
  }

  function WireTypeOf(f: Field): WireType {
    match f.ltype
    case LBool => WtVarint
    case LVarint => WtVarint
    case LUVarint => WtVarint
    case LSVarint => WtVarint
    case LFixed32 => Wt32Bit
    case LFixed64 => Wt64Bit
    case _ => WtString
  }

  // ---- The wire format -----------------------------------------------------------------------------------------

  datatype Output = Out(bytes: Bytes) | Fails

  function Cat(a: Output, b: Output): Output {
    if a.Out? && b.Out? then Out(a.bytes + b.bytes) else Fails
  }

  function TagBytes(w: WireType, tag: nat): Bytes { Varint(tag * 8 + WireCode(w)) }

  /** offsetof(pb_bytes_array_t, bytes). */
  const BYTES_HEADER: nat := 4

  function Exactly(b: Bytes, n: nat): Bytes { if |b| == n then b else seq(n, _ => 0) }

  function Counted(b: Bytes): Bytes { Varint(|b|) + b }

  predicate NumberSize(f: Field) { f.dataSize in {1, 2, 4, 8} }

  function ScalarOut(f: Field, v: Value): Output {
    match f.ltype
    case LBool => Out(Varint(if NumOf(v) != 0 then 1 else 0))
    case LVarint => if NumberSize(f) then Out(Varint(NumOf(v) % TWO_64)) else Fails
    case LUVarint => if NumberSize(f) then Out(Varint(NumOf(v) % TWO_64)) else Fails
    case LSVarint => if NumberSize(f) then Out(Varint(ZigZag(NumOf(v)))) else Fails
    case LFixed32 => Out(Fixed(NumOf(v) % TWO_32, 4))
    case LFixed64 => Out(Fixed(NumOf(v) % TWO_64, 8))
    case LBytes => if |DataOf(v)| + BYTES_HEADER > f.dataSize then Fails else Out(Counted(DataOf(v)))
    case LString => Out(Counted(DataOf(v)))
    case LFixedLengthBytes => Out(Counted(Exactly(DataOf(v), f.dataSize)))
    case _ => Fails
  }

  function ValueOut(f: Field, v: Value): Output
    decreases f, 0
  {
    if f.ltype == LSubmessage then Delimited(MessageOut(f.ptr, SlotsOf(v), |f.ptr|)) else ScalarOut(f, v)
  }

  function Delimited(body: Output): Output {
    if body.Out? then Out(Counted(body.bytes)) else Fails
  }

  /** The first n items, one after the other, each behind its tag unless packed. */
  function ItemsOut(f: Field, items: seq<Value>, n: nat): Output
    requires n <= |items|
    decreases f, 1, n
  {
    if n == 0 then Out([])
    else Cat(ItemsOut(f, items, n - 1), Cat(Out(if Packable(f) then [] else TagBytes(WireTypeOf(f), f.tag)), ValueOut(f, items[n - 1])))
  }

  function ArrayOut(f: Field, items: seq<Value>): Output
    decreases f, 2
  {
    if items == [] then Out([])
    else if |items| > f.arraySize then Fails
    else if Packable(f) then Cat(Out(TagBytes(WtString, f.tag)), Delimited(ItemsOut(f, items, |items|)))
    else ItemsOut(f, items, |items|)
  }

  function FieldOut(f: Field, slot: Slot): Output
    decreases f, 3
  {
    if f.htype == Repeated then ArrayOut(f, ItemsIn(slot))
    else if Present(f, slot) then Cat(Out(TagBytes(WireTypeOf(f), f.tag)), ValueOut(f, ValueIn(slot)))
    else Out([])
  }

  /** The first n fields. */
  function MessageOut(fields: seq<Field>, m: seq<Slot>, n: nat): Output
    requires n <= |fields|
    decreases fields, n
  {
    if n == 0 then Out([]) else Cat(MessageOut(fields, m, n - 1), FieldOut(fields[n - 1], SlotAt(m, n - 1)))
  }

  /** A prefix that cannot be encoded, or does not fit, decides for the whole. */
  predicate Extends(whole: Output, part: Output) {
    whole.Out? ==> part.Out? && |part.bytes| <= |whole.bytes|
  }

  lemma {:induction false} MessagePrefix(fields: seq<Field>, m: seq<Slot>, i: nat, n: nat)
    requires i <= n <= |fields|
    ensures Extends(MessageOut(fields, m, n), MessageOut(fields, m, i))
  {
    hide FieldOut;
    if i < n {
      MessagePrefix(fields, m, i, n - 1);
    }
  }

  lemma {:induction false} ItemsPrefix(f: Field, items: seq<Value>, i: nat, n: nat)
    requires i <= n <= |items|
    ensures Extends(ItemsOut(f, items, n), ItemsOut(f, items, i))
  {
    hide ValueOut, TagBytes, WireTypeOf;
    if i < n {
      ItemsPrefix(f, items, i, n - 1);
    }
  }

  /** Fixed-width arrays need no sizing pass. */
  lemma {:induction false} FixedItems(f: Field, items: seq<Value>, n: nat)
    requires n <= |items|
    ensures f.ltype == LFixed32 ==> ItemsOut(f, items, n).Out? && |ItemsOut(f, items, n).bytes| == 4 * n
    ensures f.ltype == LFixed64 ==> ItemsOut(f, items, n).Out? && |ItemsOut(f, items, n).bytes| == 8 * n
  {
    if n > 0 {
      FixedItems(f, items, n - 1);
    }
  }

  // ---- Output streams ------------------------------------------------------------------------------------------

  datatype Error = NoError | StreamFull | ArrayMaxSizeExceeded | InvalidDataSize | BytesSizeExceeded | SubmsgSizeChanged
    | InvalidFieldType

  /** A stream at one moment; state is all that has reached the sink. */
  datatype Snap = Snap(writing: bool, state: Bytes, maxSize: nat, bytesWritten: nat, error: Error)

  predicate SnapOk(s: Snap) { (s.writing ==> s.bytesWritten <= s.maxSize) && s.error != SubmsgSizeChanged }

  predicate Fits(s: Snap, n: nat) { s.writing ==> s.bytesWritten + n <= s.maxSize }

  /** From a to b, out was written, or counted when sizing. It succeeds exactly when out exists and there is room. */
  predicate Emitted(out: Output, ok: bool, a: Snap, b: Snap) {
    && SnapOk(b) && b.writing == a.writing && b.maxSize == a.maxSize
    && (ok <==> out.Out? && Fits(a, |out.bytes|))
    && (ok ==> b.bytesWritten == a.bytesWritten + |out.bytes| && b.state == a.state + (if a.writing then out.bytes else []))
  }

  lemma NothingEmitted(a: Snap)
    requires SnapOk(a)
    ensures Emitted(Out([]), true, a, a)
  {
  }

  /** One after the other. */
  lemma ThenEmitted(x: Output, y: Output, ok: bool, a: Snap, b: Snap, c: Snap)
    requires SnapOk(a) && Emitted(x, true, a, b) && Emitted(y, ok, b, c)
    ensures Emitted(Cat(x, y), ok, a, c)
  {
  }

  /** What fails at the start fails as a whole. */
  lemma FailedEarly(x: Output, whole: Output, a: Snap, b: Snap)
    requires Emitted(x, false, a, b) && Extends(whole, x)
    ensures Emitted(whole, false, a, b)
  {
  }

  lemma EmittedOk(x: Output, ok: bool, a: Snap, b: Snap)
    requires Emitted(x, ok, a, b)
    ensures SnapOk(b) && b.writing == a.writing
    ensures ok ==> x.Out?
  {
  }

  lemma CatExtends(x: Output, y: Output)
    ensures Extends(Cat(x, y), x)
  {
  }

  class OStream {
    /** Whether there is a callback; a stream without one only counts. */
    var writing: bool
    var state: Bytes
    var maxSize: nat
    var bytesWritten: nat
    var error: Error

    function Now(): Snap
      reads this
    {
      Snap(writing, state, maxSize, bytesWritten, error)
    }

    constructor FromBuffer(bufsize: nat)
      ensures Now() == Snap(true, [], bufsize, 0, NoError)
    {
      writing, state, maxSize, bytesWritten, error := true, [], bufsize, 0, NoError;
    }

    /** PB_OSTREAM_SIZING. */
    constructor Sizing()
      ensures Now() == Snap(false, [], 0, 0, NoError)
    {
      writing, state, maxSize, bytesWritten, error := false, [], 0, 0, NoError;
    }

    /** pb_write; when sizing, the buffer may be left out. */
    method Write(buf: Bytes, count: nat) returns (ok: bool)
      requires SnapOk(Now()) && (writing ==> count == |buf|)
      modifies this
      ensures forall bytes: Bytes :: |bytes| == count && (old(writing) ==> bytes == buf)
                                     ==> Emitted(Out(bytes), ok, old(Now()), Now())
    {
      if count > 0 && writing {
        if bytesWritten + count > maxSize {
          error := StreamFull;
          return false;
        }
        state := state + buf;
      }
      bytesWritten := bytesWritten + count;
      ok := true;
    }

    method EncodeVarint(v: nat) returns (ok: bool)
      requires SnapOk(Now())
      modifies this
      ensures Emitted(Out(Varint(v)), ok, old(Now()), Now())
    {
      hide Emitted;
      if v <= 0x7F {
        Varint1(v);
        ok := Write([v], 1);
        return;
      }
      var buffer := VarintBuffer(v);
      ok := Write(buffer, |buffer|);
    }

    method EncodeSvarint(n: int) returns (ok: bool)
      requires SnapOk(Now())
      modifies this
      ensures Emitted(Out(Varint(ZigZag(n))), ok, old(Now()), Now())
    {
      var zigzagged := ZigZag(n);
      ok := EncodeVarint(zigzagged);
    }

    method EncodeFixed(n: nat, width: nat) returns (ok: bool)
      requires SnapOk(Now())
      modifies this
      ensures Emitted(Out(Fixed(n, width)), ok, old(Now()), Now())
    {
      hide Emitted;
      var bytes := Fixed(n, width);
      ok := Write(bytes, width);
    }

    method EncodeTag(w: WireType, tag: nat) returns (ok: bool)
      requires SnapOk(Now())
      modifies this
      ensures Emitted(Out(TagBytes(w, tag)), ok, old(Now()), Now())
    {
      hide Emitted;
      ok := EncodeVarint(tag * 8 + WireCode(w));
    }

    method EncodeString(buffer: Bytes) returns (ok: bool)
      requires SnapOk(Now())
      modifies this
      ensures Emitted(Out(Counted(buffer)), ok, old(Now()), Now())
    {
      hide Emitted, Varint;
      ghost var a := Now();
      ok := EncodeVarint(|buffer|);
      if !ok {
        CatExtends(Out(Varint(|buffer|)), Out(buffer));
        FailedEarly(Out(Varint(|buffer|)), Out(Counted(buffer)), a, Now());
        return;
      }
      ghost var b := Now();
      EmittedOk(Out(Varint(|buffer|)), ok, a, b);
      ok := Write(buffer, |buffer|);
      ThenEmitted(Out(Varint(|buffer|)), Out(buffer), ok, a, b, Now());
    }
  }

  /** The loop of pb_encode_varint: seven bits a byte, all marked as continued, the last mark taken back. Ten
      bytes are enough. */
  method VarintBuffer(v: nat) returns (buffer: Bytes)
    requires v > 0x7F
    ensures buffer == Varint(v) && (v < TWO_64 ==> |buffer| <= 10)
  {
    hide Varint;
    if v < TWO_64 {
      Varint64Short(v);
    }
    var left: nat := v;
    buffer := [];
    assert buffer + Varint(left) == Varint(v);
    while left > 0
      invariant left > 0 ==> buffer + Varint(left) == Varint(v)
      invariant left == 0 ==> buffer != [] && buffer[|buffer| - 1] >= 128 && Unmarked(buffer) == Varint(v)
    {
      BufferStep(buffer, left, v);
      buffer := buffer + [left % 128 + 128];
      left := left / 128;
    }
    buffer := Unmarked(buffer);
  }

  /** Takes back the mark on the last byte. */
  function Unmarked(buffer: Bytes): Bytes
    requires buffer != [] && buffer[|buffer| - 1] >= 128
  {
    buffer[..|buffer| - 1] + [buffer[|buffer| - 1] - 128]
  }

  lemma BufferStep(buffer: Bytes, left: nat, v: nat)
    requires left > 0 && buffer + Varint(left) == Varint(v)
    ensures left >= 128 ==> buffer + [left % 128 + 128] + Varint(left / 128) == Varint(v)
    ensures left < 128 ==> Unmarked(buffer + [left % 128 + 128]) == Varint(v)
  {
    hide Varint;
    if left < 128 {
      Varint1(left);
      assert (buffer + [left + 128])[..|buffer|] == buffer;
    } else {
      LongVarint(left);
    }
  }

  /** Two steps, the second taken only if the first succeeds. */
  lemma StepFailed(x: Output, y: Output, a: Snap, b: Snap)
    requires Emitted(x, false, a, b)
    ensures Emitted(Cat(x, y), false, a, b)
  {
  }

  // ---- Fields --------------------------------------------------------------------------------------------------

  method EncodeScalar(stream: OStream, f: Field, v: Value) returns (ok: bool)
    requires SnapOk(stream.Now())
    modifies stream
    ensures Emitted(ScalarOut(f, v), ok, old(stream.Now()), stream.Now())
  {
    hide Varint, Fixed;
    match f.ltype
    case LBool => ok := stream.EncodeVarint(if NumOf(v) != 0 then 1 else 0);
    case LVarint =>
      if !NumberSize(f) {
        stream.error := InvalidDataSize;
        return false;
      }
      ok := stream.EncodeVarint(NumOf(v) % TWO_64);
    case LUVarint =>
      if !NumberSize(f) {
        stream.error := InvalidDataSize;
        return false;
      }
      ok := stream.EncodeVarint(NumOf(v) % TWO_64);
    case LSVarint =>
      if !NumberSize(f) {
        stream.error := InvalidDataSize;
        return false;
      }
      ok := stream.EncodeSvarint(NumOf(v));
    case LFixed32 => ok := stream.EncodeFixed(NumOf(v) % TWO_32, 4);
    case LFixed64 => ok := stream.EncodeFixed(NumOf(v) % TWO_64, 8);
    case LBytes =>
      if |DataOf(v)| + BYTES_HEADER > f.dataSize {
        stream.error := BytesSizeExceeded;
        return false;
      }
      ok := stream.EncodeString(DataOf(v));
    case LString => ok := stream.EncodeString(DataOf(v));
    case LFixedLengthBytes => ok := stream.EncodeString(Exactly(DataOf(v), f.dataSize));
    case _ =>
      stream.error := InvalidFieldType;
      ok := false;
  }

  method EncodeValue(stream: OStream, f: Field, v: Value) returns (ok: bool)
    requires SnapOk(stream.Now()) && AllStatic(f.ptr)
    modifies stream
    ensures Emitted(ValueOut(f, v), ok, old(stream.Now()), stream.Now())
    decreases f, 0
  {
    hide Emitted, ScalarOut;
    if f.ltype == LSubmessage {
      ok := EncodeSubmessage(stream, f.ptr, SlotsOf(v));
    } else {
      ok := EncodeScalar(stream, f, v);
    }
  }

  /** The submessage is sized first. The writing pass then emits exactly as many bytes, so the branch
      that reports "submsg size changed" is never taken. */
  method EncodeSubmessage(stream: OStream, fields: seq<Field>, m: seq<Slot>) returns (ok: bool)
    requires SnapOk(stream.Now()) && AllStatic(fields)
    modifies stream
    ensures Emitted(Delimited(MessageOut(fields, m, |fields|)), ok, old(stream.Now()), stream.Now())
    decreases fields, 1
  {
    hide MessageOut, Varint, AllStatic;
    ghost var a, out := stream.Now(), MessageOut(fields, m, |fields|);
    var substream := new OStream.Sizing();
    ok := Encode(substream, fields, m);
    if !ok {
      stream.error := substream.error;
      return;
    }
    var size := substream.bytesWritten;
    ok := stream.EncodeVarint(size);
    if !ok {
      return;
    }
    if !stream.writing {
      ok := stream.Write([], size);
      assert Emitted(Out(out.bytes), ok, Snap(false, a.state, a.maxSize, a.bytesWritten + |Varint(size)|, stream.error), stream.Now());
      return;
    }
    if stream.bytesWritten + size > stream.maxSize {
      stream.error := StreamFull;
      return false;
    }
    substream.writing, substream.state, substream.maxSize, substream.bytesWritten, substream.error :=
      true, stream.state, size, 0, NoError;
    ok := Encode(substream, fields, m);
    stream.bytesWritten := stream.bytesWritten + substream.bytesWritten;
    stream.state := substream.state;
    stream.error := substream.error;
    if substream.bytesWritten != size {
      assert false;
    }
  }

  method EncodeArray(stream: OStream, f: Field, items: seq<Value>) returns (ok: bool)
    requires SnapOk(stream.Now()) && AllStatic(f.ptr)
    modifies stream
    ensures Emitted(ArrayOut(f, items), ok, old(stream.Now()), stream.Now())
    decreases f, 2
  {
    hide Emitted, SnapOk, ItemsOut, TagBytes, Varint, AllStatic;
    ghost var a := stream.Now();
    NothingEmitted(a);
    if items == [] {
      return true;
    }
    if |items| > f.arraySize {
      ok := false;
      stream.error := ArrayMaxSizeExceeded;
      FailsAtOnce(a, ArrayMaxSizeExceeded);
      return;
    }
    if Packable(f) {
      ok := EncodePacked(stream, f, items);
    } else {
      ok := EncodeItems(stream, f, items);
    }
  }

  lemma FailsAtOnce(a: Snap, e: Error)
    requires SnapOk(a) && e != SubmsgSizeChanged
    ensures Emitted(Fails, false, a, a.(error := e))
  {
  }

  /** The items one after the other: the loops of encode_array. */
  method EncodeItems(stream: OStream, f: Field, items: seq<Value>) returns (ok: bool)
    requires SnapOk(stream.Now()) && AllStatic(f.ptr)
    modifies stream
    ensures Emitted(ItemsOut(f, items, |items|), ok, old(stream.Now()), stream.Now())
    decreases f, 1, 0
  {
    hide Emitted, SnapOk, TagBytes, Varint, AllStatic, ValueOut, Packable;
    ghost var a := stream.Now();
    NothingEmitted(a);
    ok := true;
    for i := 0 to |items|
      invariant ok && SnapOk(stream.Now()) && Emitted(ItemsOut(f, items, i), true, a, stream.Now())
    {
      ghost var b := stream.Now();
      ghost var tag, value := Out(if Packable(f) then [] else TagBytes(WireTypeOf(f), f.tag)), ValueOut(f, items[i]);
      ItemsPrefix(f, items, i + 1, |items|);
      NothingEmitted(b);
      if !Packable(f) {
        ok := stream.EncodeTag(WireTypeOf(f), f.tag);
        if !ok {
          StepFailed(tag, value, b, stream.Now());
          ThenEmitted(ItemsOut(f, items, i), Cat(tag, value), false, a, b, stream.Now());
          FailedEarly(ItemsOut(f, items, i + 1), ItemsOut(f, items, |items|), a, stream.Now());
          return;
        }
      }
      ghost var c := stream.Now();
      EmittedOk(tag, true, b, c);
      ok := EncodeValue(stream, f, items[i]);
      EmittedOk(value, ok, c, stream.Now());
      ThenEmitted(tag, value, ok, b, c, stream.Now());
      ThenEmitted(ItemsOut(f, items, i), Cat(tag, value), ok, a, b, stream.Now());
      if !ok {
        FailedEarly(ItemsOut(f, items, i + 1), ItemsOut(f, items, |items|), a, stream.Now());
        return;
      }
    }
  }

  /** A tag, the size of the items together, and the items. */
  method EncodePacked(stream: OStream, f: Field, items: seq<Value>) returns (ok: bool)
    requires SnapOk(stream.Now()) && AllStatic(f.ptr) && Packable(f)
    modifies stream
    ensures Emitted(Cat(Out(TagBytes(WtString, f.tag)), Delimited(ItemsOut(f, items, |items|))), ok, old(stream.Now()), stream.Now())
    decreases f, 1, 1
  {
    hide Emitted, SnapOk, ItemsOut, TagBytes, Varint, AllStatic;
    ghost var a, tag, body := stream.Now(), Out(TagBytes(WtString, f.tag)), ItemsOut(f, items, |items|);
    ok := stream.EncodeTag(WtString, f.tag);
    if !ok {
      StepFailed(tag, Delimited(body), a, stream.Now());
      return;
    }
    ghost var b := stream.Now();
    EmittedOk(tag, true, a, b);
    FixedItems(f, items, |items|);
    var size: nat;
    if f.ltype == LFixed32 {
      size := 4 * |items|;
    } else if f.ltype == LFixed64 {
      size := 8 * |items|;
    } else {
      var sizestream := new OStream.Sizing();
      FreshSizing();
      ok := EncodeItems(sizestream, f, items);
      SizedAs(body, ok, sizestream.Now());
      if !ok {
        NoBody(b);
        ThenEmitted(tag, Delimited(body), false, a, b, stream.Now());
        return;
      }
      size := sizestream.bytesWritten;
    }
    ok := stream.EncodeVarint(size);
    ghost var c := stream.Now();
    EmittedOk(Out(Varint(size)), ok, b, c);
    if !ok {
      StepFailed(Out(Varint(size)), body, b, c);
      ThenEmitted(tag, Delimited(body), false, a, b, c);
      return;
    }
    if !stream.writing {
      ok := stream.Write([], size);
    } else {
      ok := EncodeItems(stream, f, items);
    }
    ThenEmitted(Out(Varint(size)), body, ok, b, c, stream.Now());
    ThenEmitted(tag, Delimited(body), ok, a, b, stream.Now());
  }

  lemma FreshSizing()
    ensures SnapOk(Snap(false, [], 0, 0, NoError))
  {
  }

  /** A sizing pass succeeds exactly when there is something to write, and counts it. */
  lemma SizedAs(body: Output, ok: bool, s: Snap)
    requires Emitted(body, ok, Snap(false, [], 0, 0, NoError), s)
    ensures ok <==> body.Out?
    ensures ok ==> s.bytesWritten == |body.bytes|
  {
  }

  lemma NoBody(a: Snap)
    requires SnapOk(a)
    ensures Emitted(Fails, false, a, a)
  {
  }

  method EncodeBasicField(stream: OStream, f: Field, slot: Slot) returns (ok: bool)
    requires SnapOk(stream.Now()) && AllStatic(f.ptr)
    modifies stream
    ensures Emitted(FieldOut(f, slot), ok, old(stream.Now()), stream.Now())
    decreases f, 3
  {
    hide Emitted, SnapOk, ArrayOut, ValueOut, TagBytes, AllStatic, IsDefault;
    ghost var a := stream.Now();
    NothingEmitted(a);
    if f.htype == Repeated {
      ok := EncodeArray(stream, f, ItemsIn(slot));
    } else if Present(f, slot) {
      ghost var tag, value := Out(TagBytes(WireTypeOf(f), f.tag)), ValueOut(f, ValueIn(slot));
      ok := stream.EncodeTag(WireTypeOf(f), f.tag);
      if !ok {
        StepFailed(tag, value, a, stream.Now());
        return;
      }
      ghost var b := stream.Now();
      EmittedOk(tag, true, a, b);
      ok := EncodeValue(stream, f, ValueIn(slot));
      ThenEmitted(tag, value, ok, a, b, stream.Now());
    } else {
      ok := true;
    }
  }

  /** pb_encode: the fields in the order of the descriptor. */
  method Encode(stream: OStream, fields: seq<Field>, m: seq<Slot>) returns (ok: bool)
    requires SnapOk(stream.Now()) && AllStatic(fields)
    modifies stream
    ensures Emitted(MessageOut(fields, m, |fields|), ok, old(stream.Now()), stream.Now())
    decreases fields, 0
  {
    hide Emitted, SnapOk, FieldOut;
    ghost var a := stream.Now();
    NothingEmitted(a);
    ok := true;
    var iter := new FieldIter(fields, 0);
    if fields == [] {
      return;
    }
    var more := true;
    while more
      invariant ok && iter.Valid() && iter.start == fields && SnapOk(stream.Now())
      invariant more ==> Emitted(MessageOut(fields, m, iter.pos), true, a, stream.Now())
      invariant !more ==> Emitted(MessageOut(fields, m, |fields|), true, a, stream.Now())
      decreases if more then |fields| - iter.pos else 0
    {
      ghost var i, b := iter.pos, stream.Now();
      ghost var field := FieldOut(fields[i], SlotAt(m, i));
      MessagePrefix(fields, m, i + 1, |fields|);
      ok := EncodeBasicField(stream, iter.Current(), SlotAt(m, iter.pos));
      EmittedOk(field, ok, b, stream.Now());
      ThenEmitted(MessageOut(fields, m, i), field, ok, a, b, stream.Now());
      if !ok {
        FailedEarly(MessageOut(fields, m, i + 1), MessageOut(fields, m, |fields|), a, stream.Now());
        return;
      }
      more := iter.Next();
    }
  }

  /** pb_get_encoded_size. */
  method GetEncodedSize(fields: seq<Field>, m: seq<Slot>) returns (ok: bool, size: nat)
    requires AllStatic(fields)
    ensures ok <==> MessageOut(fields, m, |fields|).Out?
    ensures ok ==> size == |MessageOut(fields, m, |fields|).bytes|
  {
    hide Emitted, MessageOut, AllStatic;
    var stream := new OStream.Sizing();
    FreshSizing();
    ok := Encode(stream, fields, m);
    SizedAs(MessageOut(fields, m, |fields|), ok, stream.Now());
    size := stream.bytesWritten;
  }
}
