/** Decoding from a stream (nanopb pb_decode.c): limited substreams, the field iterator and the bitmap of required
    fields, against the meaning given in PbDecoding. */
module PbReaders {
  import opened Bits
  import opened Coding
  import opened PbFields
  import opened PbFieldIters
  import opened PbMessages
  import opened PbRequired
  import opened PbVarints
  import opened PbEncoding
  import opened PbDecoding

  class IStream {
    const data: Bytes
    /** What state points at. */
    var pos: nat
    var bytesLeft: nat

    ghost predicate Valid()
      reads this
    {
      pos + bytesLeft <= |data|
    }

    /** The input that is left. */
    ghost function Left(): (input: Bytes)
      reads this
      requires Valid()
      ensures |input| == bytesLeft
    {
      data[pos..pos + bytesLeft]
    }

    ghost function End(): nat
      reads this
    {
      pos + bytesLeft
    }

    /** pb_istream_from_buffer, or a copy of another stream. */
    constructor (data: Bytes, pos: nat, bytesLeft: nat)
      requires pos + bytesLeft <= |data|
      ensures Valid() && this.data == data && this.pos == pos && this.bytesLeft == bytesLeft
    {
      this.data, this.pos, this.bytesLeft := data, pos, bytesLeft;
    }

    /** pb_readbyte. */
    method ReadByte() returns (ok: bool, b: byte)
      requires Valid()
      modifies this
      ensures Valid() && End() == old(End()) && ok == (old(Left()) != [])
      ensures ok ==> b == old(Left())[0] && Left() == old(Left())[1..]
      ensures !ok ==> Left() == old(Left())
    {
      b := 0;
      if bytesLeft == 0 {
        return false, 0;
      }
      b := data[pos];
      pos := pos + 1;
      bytesLeft := bytesLeft - 1;
      ok := true;
    }

    /** pb_read. */
    method Read(count: nat) returns (ok: bool, buf: Bytes)
      requires Valid()
      modifies this
      ensures Valid() && End() == old(End()) && ok == Taken(old(Left()), count).Parsed?
      ensures ok ==> Taken(old(Left()), count) == Parsed(buf, Left())
    {
      buf := [];
      ghost var input := Left();
      if count == 0 {
        assert input[..0] == [] && input[0..] == input;
        return true, [];
      }
      if bytesLeft < count {
        return false, [];
      }
      buf := data[pos..pos + count];
      pos := pos + count;
      bytesLeft := bytesLeft - count;
      assert Left() == input[count..] && buf == input[..count];
      ok := true;
    }

    method DecodeVarint32() returns (ok: bool, v: nat)
      requires Valid()
      modifies this
      ensures Valid() && End() == old(End()) && ok == PbVarint32Of(old(Left())).Parsed?
      ensures ok ==> PbVarint32Of(old(Left())) == Parsed(v, Left())
    {
      hide Varint32Rest, BitOr, Pow2;
      v := 0;
      ghost var input := Left();
      var some, b := ReadByte();
      if !some {
        return false, 0;
      }
      if b < 128 {
        return true, b;
      }
      var bitpos: nat, result: nat := 7, b % 128;
      while true
        invariant Valid() && End() == old(End()) && Varint32Rest(Left(), bitpos, result) == PbVarint32Of(input)
        decreases bytesLeft
      {
        RestStep(Left(), bitpos, result);
        some, b := ReadByte();
        if !some {
          return false, 0;
        }
        if bitpos >= 32 {
          var signExtension := if bitpos < 63 then 0xFF else 0x01;
          if b % 128 != 0 && (result < 0x8000_0000 || b != signExtension) {
            return false, 0;
          }
        } else {
          result := BitOr(result, b % 128 * Pow2(bitpos) % TWO_32);
        }
        bitpos := (bitpos + 7) % 256;
        if b < 128 {
          if bitpos == 35 && b / 16 % 8 != 0 {
            return false, 0;
          }
          return true, result;
        }
      }
    }

    /** pb_decode_varint: each byte fills bits no other byte fills, and what does not fit 64 bits is lost. */
    method DecodeVarint() returns (ok: bool, v: nat)
      requires Valid()
      modifies this
      ensures Valid() && End() == old(End()) && ok == Varint64Of(old(Left())).Parsed?
      ensures ok ==> Varint64Of(old(Left())) == Parsed(v, Left())
    {
      hide VarintFrom, Pow128;
      ghost var input := Left();
      var k: nat, result: nat := 0, 0;
      v := 0;
      while true
        invariant Valid() && End() == old(End()) && VarintFrom(Left(), k, result, 9, TWO_64) == Varint64Of(input)
        decreases bytesLeft
      {
        VarintStep(Left(), k, result);
        if k * 7 >= 64 {
          return false, 0;
        }
        var some, b := ReadByte();
        if !some {
          return false, 0;
        }
        result := result + b % 128 * Pow128(k) % TWO_64;
        k := k + 1;
        if b < 128 {
          return true, result;
        }
      }
    }

    method SkipVarint() returns (ok: bool)
      requires Valid()
      modifies this
      ensures Valid() && End() == old(End()) && ok == PbDecoding.SkipVarint(old(Left())).Parsed?
      ensures ok ==> PbDecoding.SkipVarint(old(Left())) == Parsed(0, Left())
    {
      ghost var input := Left();
      while true
        invariant Valid() && End() == old(End()) && PbDecoding.SkipVarint(Left()) == PbDecoding.SkipVarint(input)
        decreases bytesLeft
      {
        var some, b := ReadByte();
        if !some {
          return false;
        }
        if b < 128 {
          return true;
        }
      }
    }

    method SkipField(wire: nat) returns (ok: bool)
      requires Valid()
      modifies this
      ensures Valid() && End() == old(End()) && ok == PbDecoding.SkipField(wire, old(Left())).Parsed?
      ensures ok ==> PbDecoding.SkipField(wire, old(Left())) == Parsed(0, Left())
    {
      hide PbDecoding.SkipVarint, PbVarint32Of;
      var skipped: Bytes;
      if wire == 0 {
        ok := SkipVarint();
      } else if wire == 1 {
        ok, skipped := Read(8);
      } else if wire == 2 {
        var length: nat;
        ok, length := DecodeVarint32();
        if ok {
          ok, skipped := Read(length);
        }
      } else if wire == 5 {
        ok, skipped := Read(4);
      } else {
        ok := false;
      }
    }

    /** pb_make_string_substream: the substream ends with the string, this stream goes on behind it once the substream
        is closed. */
    method MakeStringSubstream() returns (ok: bool, sub: IStream)
      requires Valid()
      modifies this
      ensures Valid() && fresh(sub) && sub.Valid() && sub.data == data
      ensures ok == CountedIn(old(Left()), |old(Left())|).Parsed?
      ensures ok ==> CountedIn(old(Left()), |old(Left())|).value == sub.Left() && sub.bytesLeft < old(bytesLeft)
      ensures ok ==> sub.End() + bytesLeft == old(End())
                     && CountedIn(old(Left()), |old(Left())|).rest == data[sub.End()..old(End())]
    {
      hide PbVarint32Of;
      var size: nat;
      ok, size := DecodeVarint32();
      sub := new IStream(data, pos, bytesLeft);
      if !ok {
        return;
      }
      if sub.bytesLeft < size {
        return false, sub;
      }
      sub.bytesLeft := size;
      bytesLeft := bytesLeft - size;
    }

    /** pb_close_string_substream: what the substream left is passed over. */
    method CloseStringSubstream(sub: IStream, ghost end: nat)
      requires sub != this && sub.Valid() && sub.data == data && sub.End() + bytesLeft == end <= |data|
      modifies this, sub
      ensures Valid() && End() == end && Left() == data[old(sub.End())..end]
    {
      if sub.bytesLeft > 0 {
        var _, _ := sub.Read(sub.bytesLeft);
      }
      pos := sub.pos;
    }
  }

  lemma RestStep(input: Bytes, bitpos: nat, result: nat)
    ensures Varint32Rest(input, bitpos, result) ==
            if input == [] then Failed
            else
              var b := input[0];
              if bitpos >= 32 && b % 128 != 0 && (result < 0x8000_0000 || b != if bitpos < 63 then 0xFF else 0x01) then Failed
              else
                var result' := if bitpos >= 32 then result else BitOr(result, b % 128 * Pow2(bitpos) % TWO_32);
                var bitpos' := (bitpos + 7) % 256;
                if b >= 128 then Varint32Rest(input[1..], bitpos', result')
                else if bitpos' == 35 && b / 16 % 8 != 0 then Failed
                else Parsed(result', input[1..])
  {
    hide BitOr, Pow2;
  }

  lemma VarintStep(input: Bytes, k: nat, result: nat)
    ensures VarintFrom(input, k, result, 9, TWO_64) ==
            if k > 9 || input == [] then Failed
            else if input[0] >= 128 then VarintFrom(input[1..], k + 1, result + input[0] % 128 * Pow128(k) % TWO_64, 9, TWO_64)
            else Parsed(result + input[0] % 128 * Pow128(k) % TWO_64, input[1..])
  {
    hide Pow128;
  }

  // ---- Values --------------------------------------------------------------------------------------------------

  method DecScalar(stream: IStream, f: Field) returns (ok: bool, v: Value)
    requires stream.Valid()
    modifies stream
    ensures stream.Valid() && (ok ==> stream.End() == old(stream.End()))
    ensures ok == ScalarIn(f, old(stream.Left())).Parsed?
    ensures ok ==> ScalarIn(f, old(stream.Left())) == Parsed(v, stream.Left())
  {
    hide PbVarint32Of, Varint64Of, UnZigZag, UpToZero, FixedOf;
    v := Num(0);
    var n: nat, b: Bytes;
    match f.ltype
    case LBool =>
      ok, n := stream.DecodeVarint32();
      v := Num(if n != 0 then 1 else 0);
    case LVarint => ok, v := DecVarint(stream, f);
    case LUVarint =>
      ok, n := stream.DecodeVarint();
      if ok {
        ok := f.dataSize in {1, 2, 4, 8} && n % Span(f.dataSize) == n;
      }
      v := Num(n);
    case LSVarint =>
      ok, n := stream.DecodeVarint();
      var m := UnZigZag(n);
      if ok {
        ok := f.dataSize in {1, 2, 4, 8} && AsSigned(m, f.dataSize) == m;
      }
      v := Num(m);
    case LFixed32 =>
      ok, b := stream.Read(4);
      v := Num(FixedOf(b));
    case LFixed64 =>
      ok, b := stream.Read(8);
      v := Num(FixedOf(b));
    case LBytes =>
      ok, b := DecCounted(stream, f.dataSize - BYTES_HEADER);
      v := Data(b);
    case LString =>
      ok, b := DecCounted(stream, f.dataSize - 1);
      v := Data(UpToZero(b));
    case LFixedLengthBytes => ok, v := DecFixedLengthBytes(stream, f);
    case _ => ok := false;
  }

  method DecVarint(stream: IStream, f: Field) returns (ok: bool, v: Value)
    requires stream.Valid()
    modifies stream
    ensures stream.Valid() && stream.End() == old(stream.End())
    ensures ok == NumberIn(Varint64Of(old(stream.Left())), f.dataSize).Parsed?
    ensures ok ==> NumberIn(Varint64Of(old(stream.Left())), f.dataSize) == Parsed(v, stream.Left())
  {
    hide Varint64Of;
    var n: nat;
    v := Num(0);
    ok, n := stream.DecodeVarint();
    if !ok {
      return;
    }
    var svalue := if f.dataSize == 8 then AsSigned(n, 8) else AsSigned(n, 4);
    if f.dataSize !in {1, 2, 4, 8} {
      return false, v;
    }
    var clamped := AsSigned(svalue, f.dataSize);
    v := Num(clamped);
    ok := clamped == svalue;
  }

  /** Bytes and strings: a length within the room there is, and that many bytes. */
  method DecCounted(stream: IStream, max: int) returns (ok: bool, b: Bytes)
    requires stream.Valid()
    modifies stream
    ensures stream.Valid() && (ok ==> stream.End() == old(stream.End()))
    ensures ok == (max >= 0 && CountedIn(old(stream.Left()), max).Parsed?)
    ensures ok ==> CountedIn(old(stream.Left()), max) == Parsed(b, stream.Left())
  {
    hide PbVarint32Of;
    var size: nat;
    b := [];
    ok, size := stream.DecodeVarint32();
    if !ok {
      return;
    }
    if size > max {
      return false, [];
    }
    ok, b := stream.Read(size);
  }

  method DecFixedLengthBytes(stream: IStream, f: Field) returns (ok: bool, v: Value)
    requires stream.Valid()
    modifies stream
    ensures stream.Valid() && (ok ==> stream.End() == old(stream.End()))
    ensures ok == BlobIn(f, old(stream.Left())).Parsed?
    ensures ok ==> BlobIn(f, old(stream.Left())) == Parsed(v, stream.Left())
  {
    hide PbVarint32Of;
    var size: nat, b: Bytes;
    v := Num(0);
    ghost var input := stream.Left();
    ok, size := stream.DecodeVarint32();
    if !ok {
      return;
    }
    if size == 0 {
      assert stream.Left()[..0] == [] && stream.Left()[0..] == stream.Left();
      v := Data(seq(f.dataSize, _ => 0));
      return;
    }
    if size != f.dataSize {
      return false, v;
    }
    ok, b := stream.Read(f.dataSize);
    v := Data(b);
  }

  /** A value of any type; a submessage is decoded from a substream that ends with it. */
  method DecValue(stream: IStream, f: Field, old': Value) returns (ok: bool, v: Value)
    requires stream.Valid() && AllStatic(f.ptr) && Distinct(f.ptr)
    modifies stream
    ensures stream.Valid() && (ok ==> stream.End() == old(stream.End()))
    ensures ok == ValueOf(f, old', old(stream.Left())).Parsed?
    ensures ok ==> ValueOf(f, old', old(stream.Left())) == Parsed(v, stream.Left())
    decreases stream.bytesLeft, 0
  {
    hide ScalarIn, CountedIn, MessageOf, AllStatic, Distinct;
    v := Num(0);
    if f.ltype != LSubmessage {
      ok, v := DecScalar(stream, f);
      return;
    }
    ghost var end := stream.End();
    var sub: IStream, m: seq<Slot>;
    ok, sub := stream.MakeStringSubstream();
    if !ok {
      return;
    }
    ok, m := DecodeNoinit(sub, f.ptr, Storage(f, old'));
    if !ok {
      return;
    }
    stream.CloseStringSubstream(sub, end);
    v := Msg(m);
  }

  // ---- Fields --------------------------------------------------------------------------------------------------

  /** Packed entries, for as long as there is input and room. */
  method DecPacked(stream: IStream, f: Field, items: seq<Value>, k: nat) returns (ok: bool, r: Filled)
    requires stream.Valid()
    modifies stream
    ensures stream.Valid() && (ok ==> stream.End() == old(stream.End()))
    ensures ok == Unpack(f, items, k, old(stream.Left())).Parsed?
    ensures ok ==> Unpack(f, items, k, old(stream.Left())) == Parsed(r, []) && stream.bytesLeft == 0
  {
    hide ScalarIn, Put;
    ghost var input := stream.Left();
    r := Filled(items, k);
    ok := true;
    while stream.bytesLeft > 0 && r.count < f.arraySize
      invariant ok && stream.Valid() && stream.End() == old(stream.End())
      invariant Unpack(f, r.items, r.count, stream.Left()) == Unpack(f, items, k, input)
      decreases stream.bytesLeft
    {
      var v: Value;
      ok, v := DecScalar(stream, f);
      if !ok {
        return;
      }
      r := Filled(Put(r.items, r.count, v), r.count + 1);
    }
    ok := stream.bytesLeft == 0;
  }

  method DecArray(stream: IStream, f: Field, wire: nat, items: seq<Value>, k: nat) returns (ok: bool, r: Filled)
    requires stream.Valid() && AllStatic(f.ptr) && Distinct(f.ptr)
    modifies stream
    ensures stream.Valid() && (ok ==> stream.End() == old(stream.End()))
    ensures ok == ArrayOf(f, wire, items, k, old(stream.Left())).Parsed?
    ensures ok ==> ArrayOf(f, wire, items, k, old(stream.Left())) == Parsed(r, stream.Left())
    decreases stream.bytesLeft, 1
  {
    hide CountedIn, Unpack, ValueOf, InitialValue, AllStatic, Distinct, Packable;
    r := Filled(items, k);
    ghost var end := stream.End();
    if wire == 2 && Packable(f) {
      var sub: IStream;
      ok, sub := stream.MakeStringSubstream();
      if !ok {
        return;
      }
      ok, r := DecPacked(sub, f, items, k);
      if !ok {
        return;
      }
      stream.CloseStringSubstream(sub, end);
    } else {
      if k >= f.arraySize {
        return false, r;
      }
      var v: Value;
      ok, v := DecValue(stream, f, InitialValue(f));
      r := Filled(Put(items, k, v), k + 1);
    }
  }

  /** What a field's entry makes of the message and, for arrays, of the number of entries. */
  datatype Kept = Kept(m: seq<Slot>, count: nat)

  function Stored(fields: seq<Field>, m: seq<Slot>, i: nat, wire: nat, k: nat, input: Bytes): Parsed<Kept>
    requires |m| == |fields| && i < |fields|
  {
    var f := fields[i];
    if f.htype == Repeated then
      match ArrayOf(f, wire, ItemsIn(m[i]), k, input)
      case Failed => Failed
      case Parsed(a, rest) => Parsed(Kept(m[i := Many(a.items)], a.count), rest)
    else
      match SlotOf(f, m[i], input)
      case Failed => Failed
      case Parsed(slot, rest) => Parsed(Kept(Chosen(fields, m, i, slot), k), rest)
  }

  /** decode_static_field. */
  method DecodeStaticField(stream: IStream, fields: seq<Field>, m: seq<Slot>, i: nat, wire: nat, k: nat)
    returns (ok: bool, r: Kept)
    requires stream.Valid() && AllStatic(fields) && Distinct(fields) && |m| == |fields| && i < |fields|
    modifies stream
    ensures stream.Valid() && (ok ==> stream.End() == old(stream.End()) && |r.m| == |m|)
    ensures ok == Stored(fields, m, i, wire, k, old(stream.Left())).Parsed?
    ensures ok ==> Stored(fields, m, i, wire, k, old(stream.Left())) == Parsed(r, stream.Left())
    decreases stream.bytesLeft, 2
  {
    hide ArrayOf, ValueOf, InitialValue, Chosen;
    r := Kept(m, k);
    var f, v: Value := fields[i], Num(0);
    match f.htype
    case Required =>
      ok, v := DecValue(stream, f, ValueIn(m[i]));
      if ok {
        r := Kept(Chosen(fields, m, i, One(v)), k);
      }
    case Optional =>
      ok, v := DecValue(stream, f, ValueIn(m[i]));
      if ok {
        r := Kept(Chosen(fields, m, i, if f.sizeOffset != 0 then Maybe(true, v) else One(v)), k);
      }
    case Repeated =>
      var a: Filled;
      ok, a := DecArray(stream, f, wire, ItemsIn(m[i]), k);
      if ok {
        r := Kept(m[i := Many(a.items)], a.count);
      }
    case Oneof =>
      var chosen := m[i].Choice? && m[i].chosen;
      ok, v := DecValue(stream, f, if chosen then ValueIn(m[i]) else InitialValue(f));
      if ok {
        r := Kept(Chosen(fields, m, i, Choice(true, v)), k);
      }
  }

  /** The state after a field was stored; arrays of fixed size keep their count. */
  function Settled(r: Parsed<Kept>, seen: set<nat>, fixedField: int, fixedSize: nat, counts: bool): Parsed<State> {
    match r
    case Failed => Failed
    case Parsed(kept, rest) => Parsed(State(kept.m, seen, fixedField, if counts then kept.count else fixedSize), rest)
  }

  lemma FieldIsStored(fields: seq<Field>, st: State, i: nat, wire: nat, input: Bytes)
    requires StateOk(fields, st) && i < |fields|
    ensures !FixedCount(fields[i]) ==>
              FieldOf(fields, st, i, wire, input)
              == Settled(Stored(fields, st.m, i, wire, |ItemsIn(st.m[i])|, input), Seen(fields, st.seen, i),
                         st.fixedField, st.fixedSize, false)
    ensures FixedCount(fields[i]) && FixedStart(fields, st, i).Failed? ==> FieldOf(fields, st, i, wire, input) == Failed
    ensures FixedCount(fields[i]) && FixedStart(fields, st, i).Parsed? ==>
              FieldOf(fields, st, i, wire, input)
              == Settled(Stored(fields, st.m, i, wire, FixedStart(fields, st, i).value, input), Seen(fields, st.seen, i),
                         i, 0, true)
  {
    hide ArrayOf, SlotOf, Chosen;
  }

  lemma EntryStep(fields: seq<Field>, st: State, input: Bytes)
    requires StateOk(fields, st) && input != []
    ensures FieldsOf(fields, st, input) ==
            match PbVarint32Of(input)
            case Failed => Failed
            case Parsed(key, rest) =>
              if key == 0 then Parsed(st, rest)
              else
                match EntryOf(fields, st, key / 8, key % 8, rest)
                case Failed => Failed
                case Parsed(st', rest') => FieldsOf(fields, st', rest')
  {
    hide PbVarint32Of, EntryOf;
  }

  /** The number of required fields: the iterator runs to the end of the descriptor. */
  method CountRequired(iter: FieldIter) returns (reqFieldCount: nat)
    requires iter.Valid()
    modifies iter
    ensures reqFieldCount == RequiredIndex(iter.start, |iter.start|)
  {
    var last := iter.Current();
    reqFieldCount := iter.requiredFieldIndex;
    ghost var p: nat := iter.pos;
    var more := iter.Next();
    while more
      invariant iter.Valid() && more == (p + 1 < |iter.start|) && iter.pos == (if more then p + 1 else 0)
      invariant iter.start == [] || (p < |iter.start| && reqFieldCount == RequiredIndex(iter.start, p) && last == iter.start[p])
      invariant iter.start == [] ==> reqFieldCount == 0
      decreases |iter.start| - p
    {
      reqFieldCount, last := iter.requiredFieldIndex, iter.Current();
      p := iter.pos;
      more := iter.Next();
    }
    if last.htype == Required && iter.Current().tag != 0 {
      reqFieldCount := reqFieldCount + 1;
    }
  }

  lemma AllRequiredSeen(fields: seq<Field>, seen: set<nat>)
    ensures (forall x: nat :: x < RequiredIndex(fields, |fields|) && x < MAX_REQUIRED ==> x in seen)
            <==> forall i :: 0 <= i < |fields| && fields[i].htype == Required && RequiredIndex(fields, i) < MAX_REQUIRED
                             ==> RequiredIndex(fields, i) in seen
  {
    forall i | 0 <= i < |fields| && fields[i].htype == Required
      ensures RequiredIndex(fields, i) < RequiredIndex(fields, |fields|)
    {
      RequiredGrows(fields, i, |fields|);
    }
    if forall i :: 0 <= i < |fields| && fields[i].htype == Required && RequiredIndex(fields, i) < MAX_REQUIRED
                   ==> RequiredIndex(fields, i) in seen {
      forall x: nat | x < RequiredIndex(fields, |fields|) && x < MAX_REQUIRED ensures x in seen {
        var i := RequiredOnto(fields, |fields|, x);
      }
    }
  }

  /** The indices recorded belong to required fields. */
  ghost predicate SeenOk(fields: seq<Field>, seen: set<nat>) {
    fields == [] || forall x: nat :: x in seen ==> x < RequiredIndex(fields, |fields|)
  }

  lemma SeenMore(fields: seq<Field>, seen: set<nat>, i: nat)
    requires SeenOk(fields, seen) && i < |fields|
    ensures SeenOk(fields, Seen(fields, seen, i))
  {
    RequiredGrows(fields, i, |fields|);
  }

  lemma DistinctTags(fields: seq<Field>)
    requires Distinct(fields) && AllStatic(fields)
    ensures TagsDistinct(fields) && TagsOk(fields)
  {
  }

  /** One field found by the iterator: arrays of fixed size are entered and left, required fields are ticked off, and
      the value is read. A terminator that passed for a field reads a bool. */
  method DecodeEntry(stream: IStream, iter: FieldIter, st: State, wire: nat, words: Bitmap)
    returns (ok: bool, st': State, words': Bitmap)
    requires stream.Valid() && iter.Valid() && AllStatic(iter.start) && Distinct(iter.start) && StateOk(iter.start, st)
    requires Records(words, st.seen) && SeenOk(iter.start, st.seen) && Matches(iter.Current(), iter.Current().tag)
    modifies stream
    ensures stream.Valid() && (ok ==> stream.End() == old(stream.End()) && StateOk(iter.start, st'))
    ensures ok ==> Records(words', st'.seen) && SeenOk(iter.start, st'.seen)
    ensures ok == EntryOf(iter.start, st, iter.Current().tag, wire, old(stream.Left())).Parsed?
    ensures ok ==> EntryOf(iter.start, st, iter.Current().tag, wire, old(stream.Left())) == Parsed(st', stream.Left())
    decreases stream.bytesLeft, 3
  {
    hide AllStatic, Distinct, Records, FieldOf, Stored, SkipField, PbVarint32Of, RequiredIndex, SeenOk;
    var fields, i := iter.start, iter.pos;
    var f := iter.Current();
    st', words' := st, words;
    DistinctTags(fields);
    if i == |fields| {
      words' := MarkSeen(words, 0, st.seen);
      var v: Value;
      ok, v := DecScalar(stream, f);
      st' := st.(seen := st.seen + {0});
      NoFieldsSeen(st'.seen);
      return;
    }
    OnlyMatch(fields, i, IndexOf(fields, f.tag), f.tag);
    FieldIsStored(fields, st, i, wire, stream.Left());
    SeenMore(fields, st.seen, i);
    var fixedField, fixedSize, k := st.fixedField, st.fixedSize, |ItemsIn(st.m[i])|;
    if f.htype == Repeated && f.sizeOffset == 0 {
      if fixedField != i {
        if fixedField >= 0 && fixedSize != fields[fixedField].arraySize {
          return false, st, words;
        }
        fixedField, fixedSize := i, 0;
      }
      k := fixedSize;
    }
    if f.htype == Required && iter.requiredFieldIndex < MAX_REQUIRED {
      words' := MarkSeen(words, iter.requiredFieldIndex, st.seen);
    }
    var r: Kept;
    ok, r := DecodeStaticField(stream, fields, st.m, i, wire, k);
    if ok {
      st' := State(r.m, SeenAt(f, iter.requiredFieldIndex, st.seen), fixedField, if FixedCount(f) then r.count else fixedSize);
    }
  }

  function SeenAt(f: Field, index: nat, seen: set<nat>): set<nat> {
    if f.htype == Required && index < MAX_REQUIRED then seen + {index} else seen
  }

  lemma NoFieldsSeen(seen: set<nat>)
    ensures SeenOk([], seen)
  {
  }

  /** pb_decode_noinit: merges the input into dest. */
  method DecodeNoinit(stream: IStream, fields: seq<Field>, dest: seq<Slot>) returns (ok: bool, m: seq<Slot>)
    requires stream.Valid() && AllStatic(fields) && Distinct(fields) && |dest| == |fields|
    modifies stream
    ensures stream.Valid() && (ok ==> stream.End() == old(stream.End()))
    ensures ok == MessageOf(fields, dest, old(stream.Left())).Parsed?
    ensures ok ==> MessageOf(fields, dest, old(stream.Left())) == Parsed(m, stream.Left())
    decreases stream.bytesLeft, 4
  {
    hide AllStatic, Distinct, Records, FieldsOf, EntryOf, PbVarint32Of, RequiredIndex, SkipField, SeenOk;
    DistinctTags(fields);
    var iter := new FieldIter(fields, 0);
    var st, words, go := Begin(dest), [0, 0], true;
    m := dest;
    ghost var input := stream.Left();
    EmptyRecords();
    NoneSeen(fields);
    while go && stream.bytesLeft > 0
      invariant stream.Valid() && stream.End() == old(stream.End()) && iter.Valid() && iter.start == fields
      invariant StateOk(fields, st) && Records(words, st.seen) && SeenOk(fields, st.seen)
      invariant go ==> FieldsOf(fields, st, stream.Left()) == FieldsOf(fields, Begin(dest), input)
      invariant !go ==> FieldsOf(fields, Begin(dest), input) == Parsed(st, stream.Left())
      decreases stream.bytesLeft, go
    {
      EntryStep(fields, st, stream.Left());
      var key: nat;
      ok, key := stream.DecodeVarint32();
      if !ok {
        return;
      }
      if key == 0 {
        go := false;
      } else {
        var tag, wire := key / 8, key % 8;
        var found := iter.Find(tag);
        if !found {
          SkipsEntry(fields, st, tag, wire, stream.Left());
          ok := stream.SkipField(wire);
        } else {
          ok, st, words := DecodeEntry(stream, iter, st, wire, words);
        }
        if !ok {
          return;
        }
      }
    }
    if go {
      NoMore(fields, st);
    }
    m := st.m;
    ok := false;
    if st.fixedField >= 0 && st.fixedSize != fields[st.fixedField].arraySize {
      return;
    }
    var reqFieldCount := CountRequired(iter);
    AllRequiredSeen(fields, st.seen);
    SeenBound(fields, st.seen);
    ok := AllSeen(words, reqFieldCount, st.seen);
  }

  lemma NoneSeen(fields: seq<Field>)
    ensures SeenOk(fields, {})
  {
  }

  lemma SeenBound(fields: seq<Field>, seen: set<nat>)
    requires SeenOk(fields, seen)
    ensures var n := RequiredIndex(fields, |fields|); n > 0 ==> forall x: nat :: x in seen ==> x < n
  {
  }

  lemma NoMore(fields: seq<Field>, st: State)
    requires StateOk(fields, st)
    ensures FieldsOf(fields, st, []) == Parsed(st, [])
  {
  }

  lemma SkipsEntry(fields: seq<Field>, st: State, tag: nat, wire: nat, input: Bytes)
    requires StateOk(fields, st) && (forall i :: 0 <= i < |fields| ==> !Matches(fields[i], tag)) && !(fields == [] && tag == 0)
    ensures EntryOf(fields, st, tag, wire, input)
            == match SkipField(wire, input) case Failed => Failed case Parsed(_, rest) => Parsed(st, rest)
  {
    hide SkipField;
  }

  /** pb_decode: fields that do not occur keep their initial contents. */
  method Decode(stream: IStream, fields: seq<Field>) returns (ok: bool, m: seq<Slot>)
    requires stream.Valid() && AllStatic(fields) && Distinct(fields)
    modifies stream
    ensures stream.Valid()
    ensures ok == MessageOf(fields, Defaults(fields), old(stream.Left())).Parsed?
    ensures ok ==> MessageOf(fields, Defaults(fields), old(stream.Left())) == Parsed(m, stream.Left())
  {
    hide MessageOf, Defaults, AllStatic, Distinct;
    ok, m := DecodeNoinit(stream, fields, Defaults(fields));
  }
}
