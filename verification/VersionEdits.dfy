/** Version edits as manifest records (db/version_edit.cc). */
module VersionEdits {
  import opened InternalKeys
  import opened Coding
  import opened Levels

  const COMPARATOR: nat := 1
  const LOG_NUMBER: nat := 2
  const NEXT_FILE_NUMBER: nat := 3
  const LAST_SEQUENCE: nat := 4
  const COMPACT_KEY_TAG: nat := 5
  const DELETED_FILE: nat := 6
  const NEW_FILE: nat := 7
  const PREV_LOG_NUMBER: nat := 9

  /** Internal keys are byte strings here. */
  datatype NewFile = NewFile(level: nat, number: nat, size: nat, smallest: Bytes, largest: Bytes)

  /** deleted is a set kept in the order std::set lists it. */
  datatype VersionEdit = VersionEdit(comparator: Option<Bytes>, logNumber: Option<nat>, prevLogNumber: Option<nat>,
                                     nextFileNumber: Option<nat>, lastSequence: Option<nat>,
                                     compactPointers: seq<(nat, Bytes)>, deleted: seq<(nat, nat)>, newFiles: seq<NewFile>)

  const FRESH: VersionEdit := VersionEdit(None, None, None, None, None, [], [], [])

  /** One tagged entry of a record. */
  datatype Field =
    | Comparator(name: Bytes)
    | LogNumber(n: nat)
    | PrevLogNumber(n: nat)
    | NextFileNumber(n: nat)
    | LastSequence(n: nat)
    | CompactPointer(level: nat, key: Bytes)
    | Deleted(level: nat, n: nat)
    | Added(file: NewFile)

  // ---- Encoding ----------------------------------------------------------------------------------------------

  function EncodeField(f: Field): Bytes {
    match f
    case Comparator(name) => Varint(COMPARATOR) + Prefixed(name)
    case LogNumber(n) => Varint(LOG_NUMBER) + Varint(n)
    case PrevLogNumber(n) => Varint(PREV_LOG_NUMBER) + Varint(n)
    case NextFileNumber(n) => Varint(NEXT_FILE_NUMBER) + Varint(n)
    case LastSequence(n) => Varint(LAST_SEQUENCE) + Varint(n)
    case CompactPointer(level, key) => Varint(COMPACT_KEY_TAG) + (Varint(level) + Prefixed(key))
    case Deleted(level, n) => Varint(DELETED_FILE) + (Varint(level) + Varint(n))
    case Added(f) =>
      Varint(NEW_FILE)
      + (Varint(f.level) + (Varint(f.number) + (Varint(f.size) + (Prefixed(f.smallest) + Prefixed(f.largest)))))
  }

  function Encoded(fs: seq<Field>): Bytes {
    if fs == [] then [] else EncodeField(fs[0]) + Encoded(fs[1..])
  }

  function Optional(some: bool, f: Field): seq<Field> { if some then [f] else [] }

  function Pointers(e: VersionEdit): seq<Field> {
    seq(|e.compactPointers|, i requires 0 <= i < |e.compactPointers| =>
      CompactPointer(e.compactPointers[i].0, e.compactPointers[i].1))
  }

  function Deletions(e: VersionEdit): seq<Field> {
    seq(|e.deleted|, i requires 0 <= i < |e.deleted| => Deleted(e.deleted[i].0, e.deleted[i].1))
  }

  function Additions(e: VersionEdit): seq<Field> {
    seq(|e.newFiles|, i requires 0 <= i < |e.newFiles| => Added(e.newFiles[i]))
  }

  function NumberOr0(n: Option<nat>): nat { if n.Some? then n.value else 0 }

  function Scalars(e: VersionEdit): seq<Field> {
    Optional(e.comparator.Some?, Comparator(if e.comparator.Some? then e.comparator.value else []))
    + Optional(e.logNumber.Some?, LogNumber(NumberOr0(e.logNumber)))
    + Optional(e.prevLogNumber.Some?, PrevLogNumber(NumberOr0(e.prevLogNumber)))
    + Optional(e.nextFileNumber.Some?, NextFileNumber(NumberOr0(e.nextFileNumber)))
    + Optional(e.lastSequence.Some?, LastSequence(NumberOr0(e.lastSequence)))
  }

  /** The entries EncodeTo writes, in order. */
  function FieldsOf(e: VersionEdit): seq<Field> {
    Scalars(e) + Pointers(e) + Deletions(e) + Additions(e)
  }

  lemma {:induction false} EncodedConcat(a: seq<Field>, b: seq<Field>)
    ensures Encoded(a + b) == Encoded(a) + Encoded(b)
  {
    if a == [] {
      assert a + b == b;
    } else {
      assert (a + b)[1..] == a[1..] + b;
      EncodedConcat(a[1..], b);
    }
  }

  lemma EncodedSnoc(fs: seq<Field>, f: Field)
    ensures Encoded(fs + [f]) == Encoded(fs) + EncodeField(f)
  {
    EncodedConcat(fs, [f]);
    assert [f][1..] == [] && Encoded([f]) == EncodeField(f) + Encoded([]);
  }

  method EncodeScalars(e: VersionEdit) returns (dst: Bytes)
    ensures dst == Encoded(Scalars(e))
  {
    hide EncodeField, Encoded, Optional;
    EncodedNone();
    var c := e.comparator;
    dst := AppendIf([], c.Some?, Comparator(if c.Some? then c.value else []), []);
    ghost var f1 := [] + Optional(c.Some?, Comparator(if c.Some? then c.value else []));
    dst := AppendIf(dst, e.logNumber.Some?, LogNumber(NumberOr0(e.logNumber)), f1);
    ghost var f2 := f1 + Optional(e.logNumber.Some?, LogNumber(NumberOr0(e.logNumber)));
    dst := AppendIf(dst, e.prevLogNumber.Some?, PrevLogNumber(NumberOr0(e.prevLogNumber)), f2);
    ghost var f3 := f2 + Optional(e.prevLogNumber.Some?, PrevLogNumber(NumberOr0(e.prevLogNumber)));
    dst := AppendIf(dst, e.nextFileNumber.Some?, NextFileNumber(NumberOr0(e.nextFileNumber)), f3);
    ghost var f4 := f3 + Optional(e.nextFileNumber.Some?, NextFileNumber(NumberOr0(e.nextFileNumber)));
    dst := AppendIf(dst, e.lastSequence.Some?, LastSequence(NumberOr0(e.lastSequence)), f4);
    ghost var f5 := f4 + Optional(e.lastSequence.Some?, LastSequence(NumberOr0(e.lastSequence)));
    assert f1 == Optional(c.Some?, Comparator(if c.Some? then c.value else []));
  }

  method AppendIf(dst: Bytes, some: bool, f: Field, ghost fs: seq<Field>) returns (dst': Bytes)
    requires dst == Encoded(fs)
    ensures dst' == Encoded(fs + Optional(some, f))
  {
    if some {
      dst' := Append(dst, f, fs);
    } else {
      dst' := dst;
      assert fs + [] == fs;
    }
  }

  method EncodeTo(e: VersionEdit) returns (dst: Bytes)
    ensures dst == Encoded(FieldsOf(e))
  {
    hide EncodeField, Encoded, Scalars;
    dst := EncodeScalars(e);
    ghost var fs := Scalars(e);
    for i := 0 to |e.compactPointers|
      invariant dst == Encoded(fs) && fs == Scalars(e) + Pointers(e)[..i]
    {
      dst := Append(dst, CompactPointer(e.compactPointers[i].0, e.compactPointers[i].1), fs);
      fs := fs + [Pointers(e)[i]];
    }
    for i := 0 to |e.deleted|
      invariant dst == Encoded(fs) && fs == Scalars(e) + Pointers(e) + Deletions(e)[..i]
    {
      dst := Append(dst, Deleted(e.deleted[i].0, e.deleted[i].1), fs);
      fs := fs + [Deletions(e)[i]];
    }
    for i := 0 to |e.newFiles|
      invariant dst == Encoded(fs) && fs == Scalars(e) + Pointers(e) + Deletions(e) + Additions(e)[..i]
    {
      dst := Append(dst, Added(e.newFiles[i]), fs);
      fs := fs + [Additions(e)[i]];
    }
    assert fs == FieldsOf(e);
  }

  lemma EncodedNone()
    ensures Encoded([]) == []
  {
  }

  /** The PutVarint and PutLengthPrefixedSlice calls of one entry. */
  method Append(dst: Bytes, f: Field, ghost fs: seq<Field>) returns (dst': Bytes)
    requires dst == Encoded(fs)
    ensures dst' == Encoded(fs + [f])
  {
    EncodedSnoc(fs, f);
    dst' := dst + EncodeField(f);
  }

  // ---- Decoding ----------------------------------------------------------------------------------------------

  function LevelOf(input: Bytes): Parsed<nat> {
    match Varint32Of(input)
    case Parsed(v, rest) => if v < NUM_LEVELS then Parsed(v, rest) else Failed
    case Failed => Failed
  }

  /** InternalKey::DecodeFrom refuses the empty string. */
  function KeyOf(input: Bytes): Parsed<Bytes> {
    match PrefixedOf(input)
    case Parsed(s, rest) => if s != [] then Parsed(s, rest) else Failed
    case Failed => Failed
  }

  function NumberField(input: Bytes, make: nat -> Field): Parsed<Field> {
    match Varint64Of(input)
    case Parsed(n, rest) => Parsed(make(n), rest)
    case Failed => Failed
  }

  function AddedOf(input: Bytes): Parsed<Field> {
    match LevelOf(input)
    case Failed => Failed
    case Parsed(level, r0) =>
    match Varint64Of(r0)
    case Failed => Failed
    case Parsed(number, r1) =>
    match Varint64Of(r1)
    case Failed => Failed
    case Parsed(size, r2) =>
    match KeyOf(r2)
    case Failed => Failed
    case Parsed(smallest, r3) =>
    match KeyOf(r3)
    case Failed => Failed
    case Parsed(largest, r4) => Parsed(Added(NewFile(level, number, size, smallest, largest)), r4)
  }

  /** The entry behind a tag. */
  function FieldOf(tag: nat, input: Bytes): Parsed<Field> {
    if tag == COMPARATOR then
      (match PrefixedOf(input)
       case Parsed(s, rest) => Parsed(Comparator(s), rest)
       case Failed => Failed)
    else if tag == LOG_NUMBER then NumberField(input, (n: nat) => LogNumber(n))
    else if tag == PREV_LOG_NUMBER then NumberField(input, (n: nat) => PrevLogNumber(n))
    else if tag == NEXT_FILE_NUMBER then NumberField(input, (n: nat) => NextFileNumber(n))
    else if tag == LAST_SEQUENCE then NumberField(input, (n: nat) => LastSequence(n))
    else if tag == COMPACT_KEY_TAG then
      (match LevelOf(input)
       case Failed => Failed
       case Parsed(level, rest) =>
       match KeyOf(rest)
       case Parsed(key, r) => Parsed(CompactPointer(level, key), r)
       case Failed => Failed)
    else if tag == DELETED_FILE then
      (match LevelOf(input)
       case Failed => Failed
       case Parsed(level, rest) =>
       match Varint64Of(rest)
       case Parsed(n, r) => Parsed(Deleted(level, n), r)
       case Failed => Failed)
    else if tag == NEW_FILE then AddedOf(input)
    else Failed
  }

  function Message(tag: nat): string {
    if tag == COMPARATOR then "comparator name"
    else if tag == LOG_NUMBER then "log number"
    else if tag == PREV_LOG_NUMBER then "previous log number"
    else if tag == NEXT_FILE_NUMBER then "next file number"
    else if tag == LAST_SEQUENCE then "last sequence number"
    else if tag == COMPACT_KEY_TAG then "compaction pointer"
    else if tag == DELETED_FILE then "deleted file"
    else if tag == NEW_FILE then "new-file entry"
    else "unknown tag"
  }

  predicate PairLess(a: (nat, nat), b: (nat, nat)) { a.0 < b.0 || (a.0 == b.0 && a.1 < b.1) }

  /** Insertion into a std::set of pairs. */
  function InsertPair(ds: seq<(nat, nat)>, d: (nat, nat)): seq<(nat, nat)> {
    if ds == [] || PairLess(d, ds[0]) then [d] + ds
    else if ds[0] == d then ds
    else [ds[0]] + InsertPair(ds[1..], d)
  }

  function Set(e: VersionEdit, f: Field): VersionEdit {
    match f
    case Comparator(name) => e.(comparator := Some(name))
    case LogNumber(n) => e.(logNumber := Some(n))
    case PrevLogNumber(n) => e.(prevLogNumber := Some(n))
    case NextFileNumber(n) => e.(nextFileNumber := Some(n))
    case LastSequence(n) => e.(lastSequence := Some(n))
    case CompactPointer(level, key) => e.(compactPointers := e.compactPointers + [(level, key)])
    case Deleted(level, n) => e.(deleted := InsertPair(e.deleted, (level, n)))
    case Added(f) => e.(newFiles := e.newFiles + [f])
  }

  datatype Outcome = Ok(edit: VersionEdit) | Corrupt(message: string)

  lemma FieldShrinks(tag: nat, input: Bytes)
    ensures FieldOf(tag, input).Parsed? ==> |FieldOf(tag, input).rest| <= |input|
  {
    forall b: Bytes
      ensures Varint32Of(b).Parsed? ==> |Varint32Of(b).rest| < |b|
      ensures Varint64Of(b).Parsed? ==> |Varint64Of(b).rest| < |b|
    {
      VarintShrinks(b, 0, 0, 4, TWO_32);
      VarintShrinks(b, 0, 0, 9, TWO_64);
    }
    hide Varint32Of, Varint64Of;
  }

  /** What is left of a record, read into e. */
  function Decoded(input: Bytes, e: VersionEdit): Outcome
    decreases |input|
  {
    match Varint32Of(input)
    case Failed => if input == [] then Ok(e) else Corrupt("invalid tag")
    case Parsed(tag, rest) =>
      VarintShrinks(input, 0, 0, 4, TWO_32);
      match FieldOf(tag, rest)
      case Failed => Corrupt(Message(tag))
      case Parsed(f, rest') =>
        FieldShrinks(tag, rest);
        Decoded(rest', Set(e, f))
  }

  /** DecodeFrom, into a fresh edit. */
  method DecodeFrom(src: Bytes) returns (r: Outcome)
    ensures r == Decoded(src, FRESH)
  {
    hide FieldOf, Set, Varint32Of;
    var edit, input := FRESH, src;
    var message: Option<string> := None;
    while message.None?
      invariant message.None? ==> Decoded(input, edit) == Decoded(src, FRESH)
      invariant message.Some? ==> Decoded(src, FRESH) == Corrupt(message.value)
      decreases message.None?, |input|
    {
      var tag := GetVarint32(input);
      if tag.Failed? {
        break;
      }
      TagShrinks(input);
      FieldShrinks(tag.value, tag.rest);
      var f := FieldOf(tag.value, tag.rest);
      if f.Parsed? {
        edit, input := Set(edit, f.value), f.rest;
      } else {
        message := Some(Message(tag.value));
      }
    }
    if message.None? && input != [] {
      message := Some("invalid tag");
    }
    r := if message.Some? then Corrupt(message.value) else Ok(edit);
  }

  lemma TagShrinks(input: Bytes)
    ensures Varint32Of(input).Parsed? ==> |Varint32Of(input).rest| < |input|
  {
    VarintShrinks(input, 0, 0, 4, TWO_32);
  }

  // ---- Round trip --------------------------------------------------------------------------------------------

  predicate KeyOk(k: Bytes) { 0 < |k| < TWO_32 }

  /** The entry fits its machine words, its level exists and its keys are not empty. */
  predicate FieldOk(f: Field) {
    match f
    case Comparator(name) => |name| < TWO_32
    case LogNumber(n) => n < TWO_64
    case PrevLogNumber(n) => n < TWO_64
    case NextFileNumber(n) => n < TWO_64
    case LastSequence(n) => n < TWO_64
    case CompactPointer(level, key) => level < NUM_LEVELS && KeyOk(key)
    case Deleted(level, n) => level < NUM_LEVELS && n < TWO_64
    case Added(f) => f.level < NUM_LEVELS && f.number < TWO_64 && f.size < TWO_64 && KeyOk(f.smallest) && KeyOk(f.largest)
  }

  predicate EditOk(e: VersionEdit) {
    && (forall f :: f in FieldsOf(e) ==> FieldOk(f))
    && (forall i, j :: 0 <= i < j < |e.deleted| ==> PairLess(e.deleted[i], e.deleted[j]))
  }

  function TagOf(f: Field): nat {
    match f
    case Comparator(_) => COMPARATOR
    case LogNumber(_) => LOG_NUMBER
    case PrevLogNumber(_) => PREV_LOG_NUMBER
    case NextFileNumber(_) => NEXT_FILE_NUMBER
    case LastSequence(_) => LAST_SEQUENCE
    case CompactPointer(_, _) => COMPACT_KEY_TAG
    case Deleted(_, _) => DELETED_FILE
    case Added(_) => NEW_FILE
  }

  lemma LevelRoundTrip(level: nat, rest: Bytes)
    requires level < NUM_LEVELS
    ensures LevelOf(Varint(level) + rest) == Parsed(level, rest)
  {
    Varint32RoundTrip(level, rest);
  }

  lemma KeyRoundTrip(key: Bytes, rest: Bytes)
    requires KeyOk(key)
    ensures KeyOf(Prefixed(key) + rest) == Parsed(key, rest)
  {
    PrefixedRoundTrip(key, rest);
  }

  lemma AddedRoundTrip(f: NewFile, rest: Bytes)
    requires FieldOk(Added(f))
    ensures AddedOf(Varint(f.level) + (Varint(f.number) + (Varint(f.size) + (Prefixed(f.smallest) + Prefixed(f.largest))))
                    + rest) == Parsed(Added(f), rest)
  {
    hide Varint, Varint64Of, LevelOf, KeyOf, Prefixed;
    var r3 := Prefixed(f.largest) + rest;
    var r2 := Prefixed(f.smallest) + r3;
    var r1 := Varint(f.size) + r2;
    var r0 := Varint(f.number) + r1;
    assert Varint(f.level) + (Varint(f.number) + (Varint(f.size) + (Prefixed(f.smallest) + Prefixed(f.largest)))) + rest
           == Varint(f.level) + r0;
    LevelRoundTrip(f.level, r0);
    Varint64RoundTrip(f.number, r1);
    Varint64RoundTrip(f.size, r2);
    KeyRoundTrip(f.smallest, r3);
    KeyRoundTrip(f.largest, rest);
  }

  /** The bytes behind the tag. */
  function Body(f: Field): Bytes {
    match f
    case Comparator(name) => Prefixed(name)
    case CompactPointer(level, key) => Varint(level) + Prefixed(key)
    case Deleted(level, n) => Varint(level) + Varint(n)
    case Added(f) => Varint(f.level) + (Varint(f.number) + (Varint(f.size) + (Prefixed(f.smallest) + Prefixed(f.largest))))
    case _ => Varint(f.n)
  }

  lemma BodyRoundTrip(f: Field, rest: Bytes)
    requires FieldOk(f)
    ensures FieldOf(TagOf(f), Body(f) + rest) == Parsed(f, rest)
  {
    hide Varint, Varint64Of, LevelOf, KeyOf, Prefixed, PrefixedOf;
    match f
    case Comparator(name) => PrefixedRoundTrip(name, rest);
    case CompactPointer(level, key) =>
      assert Body(f) + rest == Varint(level) + (Prefixed(key) + rest);
      LevelRoundTrip(level, Prefixed(key) + rest);
      KeyRoundTrip(key, rest);
    case Deleted(level, n) =>
      assert Body(f) + rest == Varint(level) + (Varint(n) + rest);
      LevelRoundTrip(level, Varint(n) + rest);
      Varint64RoundTrip(n, rest);
    case Added(file) => AddedRoundTrip(file, rest);
    case _ => Varint64RoundTrip(f.n, rest);
  }

  lemma FieldDecodes(f: Field, rest: Bytes, e: VersionEdit)
    requires FieldOk(f)
    ensures Decoded(EncodeField(f) + rest, e) == Decoded(rest, Set(e, f))
  {
    hide Varint, Varint32Of, FieldOf, Body, Set;
    FieldIsTagged(f);
    var input := EncodeField(f) + rest;
    assert input == Varint(TagOf(f)) + (Body(f) + rest);
    Varint32RoundTrip(TagOf(f), Body(f) + rest);
    BodyRoundTrip(f, rest);
  }

  lemma FieldIsTagged(f: Field)
    ensures EncodeField(f) == Varint(TagOf(f)) + Body(f)
  {
    hide Varint, Prefixed;
  }

  function SetAll(e: VersionEdit, fs: seq<Field>): VersionEdit
    decreases |fs|
  {
    if fs == [] then e else SetAll(Set(e, fs[0]), fs[1..])
  }

  lemma {:induction false} FieldsDecodeTo(fs: seq<Field>, rest: Bytes, e: VersionEdit)
    requires forall f :: f in fs ==> FieldOk(f)
    ensures Decoded(Encoded(fs) + rest, e) == Decoded(rest, SetAll(e, fs))
    decreases |fs|
  {
    hide Decoded, EncodeField, Set;
    if fs == [] {
      assert Encoded(fs) + rest == rest;
    } else {
      assert fs[0] in fs && forall f :: f in fs[1..] ==> f in fs;
      assert Encoded(fs) + rest == EncodeField(fs[0]) + (Encoded(fs[1..]) + rest);
      FieldDecodes(fs[0], Encoded(fs[1..]) + rest, e);
      FieldsDecodeTo(fs[1..], rest, Set(e, fs[0]));
    }
  }

  lemma FieldsDecode(fs: seq<Field>, e: VersionEdit)
    requires forall f :: f in fs ==> FieldOk(f)
    ensures Decoded(Encoded(fs), e) == Ok(SetAll(e, fs))
  {
    hide SetAll, Encoded;
    FieldsDecodeTo(fs, [], e);
    assert Encoded(fs) + [] == Encoded(fs);
  }

  // ---- Records that are damaged --------------------------------------------------------------------------------

  /** What DecodeFrom complains of when an entry cannot be read. */
  function ComplaintOf(f: Field): string {
    match f
    case Comparator(_) => "comparator name"
    case LogNumber(_) => "log number"
    case PrevLogNumber(_) => "previous log number"
    case NextFileNumber(_) => "next file number"
    case LastSequence(_) => "last sequence number"
    case CompactPointer(_, _) => "compaction pointer"
    case Deleted(_, _) => "deleted file"
    case Added(_) => "new-file entry"
  }

  lemma LevelStable(input: Bytes, more: Bytes)
    requires LevelOf(input).Parsed?
    ensures LevelOf(input + more) == Parsed(LevelOf(input).value, LevelOf(input).rest + more)
  {
    hide Varint32Of;
    Varint32Stable(input, more);
  }

  lemma KeyStable(input: Bytes, more: Bytes)
    requires KeyOf(input).Parsed?
    ensures KeyOf(input + more) == Parsed(KeyOf(input).value, KeyOf(input).rest + more)
  {
    hide PrefixedOf;
    PrefixedStable(input, more);
  }

  lemma AddedStable(input: Bytes, more: Bytes)
    requires AddedOf(input).Parsed?
    ensures AddedOf(input + more) == Parsed(AddedOf(input).value, AddedOf(input).rest + more)
  {
    hide Varint64Of, LevelOf, KeyOf;
    LevelStable(input, more);
    var r1 := LevelOf(input).rest;
    Varint64Stable(r1, more);
    var r2 := Varint64Of(r1).rest;
    Varint64Stable(r2, more);
    var r3 := Varint64Of(r2).rest;
    KeyStable(r3, more);
    KeyStable(KeyOf(r3).rest, more);
  }

  lemma FieldStable(tag: nat, input: Bytes, more: Bytes)
    requires FieldOf(tag, input).Parsed?
    ensures FieldOf(tag, input + more) == Parsed(FieldOf(tag, input).value, FieldOf(tag, input).rest + more)
  {
    hide Varint64Of, PrefixedOf, LevelOf, KeyOf, AddedOf;
    if tag == COMPARATOR {
      PrefixedStable(input, more);
    } else if tag == COMPACT_KEY_TAG {
      LevelStable(input, more);
      KeyStable(LevelOf(input).rest, more);
    } else if tag == DELETED_FILE {
      LevelStable(input, more);
      Varint64Stable(LevelOf(input).rest, more);
    } else if tag == NEW_FILE {
      AddedStable(input, more);
    } else {
      Varint64Stable(input, more);
    }
  }

  lemma CutBody(f: Field, n: nat)
    requires FieldOk(f) && n < |Body(f)|
    ensures FieldOf(TagOf(f), Body(f)[..n]) == Failed
  {
    hide FieldOf, Body, FieldOk;
    var front, back := Body(f)[..n], Body(f)[n..];
    assert front + back == Body(f) && Body(f) + [] == Body(f);
    BodyRoundTrip(f, []);
    if FieldOf(TagOf(f), front).Parsed? {
      FieldStable(TagOf(f), front, back);
    }
  }

  lemma TagByte(f: Field, n: nat)
    requires 0 < n <= |EncodeField(f)|
    ensures EncodeField(f)[..n] == Varint(TagOf(f)) + Body(f)[..n - 1] && |EncodeField(f)| == 1 + |Body(f)|
    ensures Message(TagOf(f)) == ComplaintOf(f)
  {
    hide Varint, Body;
    FieldIsTagged(f);
    Varint1(TagOf(f));
  }

  /** A record that ends inside an entry is refused, with that entry's complaint. */
  lemma CutRecord(fs: seq<Field>, f: Field, n: nat, e: VersionEdit)
    requires (forall g :: g in fs ==> FieldOk(g)) && FieldOk(f) && 0 < n < |EncodeField(f)|
    ensures Decoded(Encoded(fs) + EncodeField(f)[..n], e) == Corrupt(ComplaintOf(f))
  {
    hide FieldOf, Body, Varint, Varint32Of, EncodeField, Encoded, FieldOk, SetAll, Message, ComplaintOf, TagOf;
    FieldsDecodeTo(fs, EncodeField(f)[..n], e);
    TagByte(f, n);
    SmallTag(f);
    Varint32RoundTrip(TagOf(f), Body(f)[..n - 1]);
    CutBody(f, n - 1);
  }

  lemma SmallTag(f: Field)
    ensures TagOf(f) < TWO_32
  {
  }

  /** The numbers and strings of an entry fit their words. */
  predicate WordsFit(f: Field) {
    match f
    case CompactPointer(level, key) => level < TWO_32 && |key| < TWO_32
    case Deleted(level, n) => level < TWO_32 && n < TWO_64
    case Added(f) => f.level < TWO_32 && f.number < TWO_64 && f.size < TWO_64 && |f.smallest| < TWO_32 && |f.largest| < TWO_32
    case _ => FieldOk(f)
  }

  lemma LevelOrNot(level: nat, rest: Bytes)
    requires level < TWO_32
    ensures LevelOf(Varint(level) + rest) == if level < 7 then Parsed(level, rest) else Failed
  {
    Varint32RoundTrip(level, rest);
  }

  lemma KeyOrNot(key: Bytes, rest: Bytes)
    requires |key| < TWO_32
    ensures KeyOf(Prefixed(key) + rest) == if key != [] then Parsed(key, rest) else Failed
  {
    PrefixedRoundTrip(key, rest);
  }

  lemma AddedOrNot(f: NewFile, rest: Bytes)
    requires WordsFit(Added(f)) && !FieldOk(Added(f))
    ensures AddedOf(Body(Added(f)) + rest) == Failed
  {
    hide Varint, Varint64Of, LevelOf, KeyOf, Prefixed;
    var r3 := Prefixed(f.largest) + rest;
    var r2 := Prefixed(f.smallest) + r3;
    var r1 := Varint(f.size) + r2;
    var r0 := Varint(f.number) + r1;
    assert Body(Added(f)) + rest == Varint(f.level) + r0;
    LevelOrNot(f.level, r0);
    Varint64RoundTrip(f.number, r1);
    Varint64RoundTrip(f.size, r2);
    KeyOrNot(f.smallest, r3);
    KeyOrNot(f.largest, rest);
  }

  lemma BodyOrNot(f: Field, rest: Bytes)
    requires WordsFit(f) && !FieldOk(f)
    ensures FieldOf(TagOf(f), Body(f) + rest) == Failed
  {
    hide Varint, Varint64Of, LevelOf, KeyOf, Prefixed, PrefixedOf, AddedOf;
    match f
    case CompactPointer(level, key) =>
      assert Body(f) + rest == Varint(level) + (Prefixed(key) + rest);
      LevelOrNot(level, Prefixed(key) + rest);
      KeyOrNot(key, rest);
    case Deleted(level, n) =>
      assert Body(f) + rest == Varint(level) + (Varint(n) + rest);
      LevelOrNot(level, Varint(n) + rest);
    case Added(file) => AddedOrNot(file, rest);
    case _ =>
  }

  /** So is one with a level from 7 on or an empty key. */
  lemma BadRecord(fs: seq<Field>, f: Field, rest: Bytes, e: VersionEdit)
    requires (forall g :: g in fs ==> FieldOk(g)) && WordsFit(f) && !FieldOk(f)
    ensures Decoded(Encoded(fs) + (EncodeField(f) + rest), e) == Corrupt(ComplaintOf(f))
  {
    hide FieldOf, Body, Varint, Varint32Of, EncodeField, Encoded, FieldOk, WordsFit, SetAll, Message, ComplaintOf, TagOf;
    FieldsDecodeTo(fs, EncodeField(f) + rest, e);
    FieldIsTagged(f);
    assert EncodeField(f) + rest == Varint(TagOf(f)) + (Body(f) + rest);
    NotEmpty(f);
    TagByte(f, |EncodeField(f)|);
    SmallTag(f);
    Varint32RoundTrip(TagOf(f), Body(f) + rest);
    BodyOrNot(f, rest);
  }

  lemma NotEmpty(f: Field)
    ensures EncodeField(f) != []
  {
    hide Varint, Prefixed;
    Varint1(TagOf(f));
    FieldIsTagged(f);
  }

  lemma {:induction false} SetAllConcat(e: VersionEdit, a: seq<Field>, b: seq<Field>)
    ensures SetAll(e, a + b) == SetAll(SetAll(e, a), b)
    decreases |a|
  {
    if a == [] {
      assert a + b == b;
    } else {
      assert (a + b)[1..] == a[1..] + b;
      SetAllConcat(Set(e, a[0]), a[1..], b);
    }
  }

  lemma {:induction false} SetPointers(e: VersionEdit, goal: VersionEdit, n: nat)
    requires n <= |goal.compactPointers| && e.compactPointers == goal.compactPointers[..n]
    ensures SetAll(e, Pointers(goal)[n..]) == e.(compactPointers := goal.compactPointers)
    decreases |goal.compactPointers| - n
  {
    var fs := Pointers(goal);
    if n < |fs| {
      assert fs[n..][0] == fs[n] && fs[n..][1..] == fs[n + 1..];
      SetPointers(Set(e, fs[n]), goal, n + 1);
    }
  }

  lemma {:induction false} InsertLast(ds: seq<(nat, nat)>, d: (nat, nat))
    requires forall x :: x in ds ==> PairLess(x, d)
    ensures InsertPair(ds, d) == ds + [d]
  {
    if ds != [] {
      assert ds[0] in ds;
      InsertLast(ds[1..], d);
    }
  }

  lemma {:induction false} SetDeletions(e: VersionEdit, goal: VersionEdit, n: nat)
    requires n <= |goal.deleted| && e.deleted == goal.deleted[..n]
    requires forall i, j :: 0 <= i < j < |goal.deleted| ==> PairLess(goal.deleted[i], goal.deleted[j])
    ensures SetAll(e, Deletions(goal)[n..]) == e.(deleted := goal.deleted)
    decreases |goal.deleted| - n
  {
    var fs := Deletions(goal);
    if n < |fs| {
      assert fs[n..][0] == fs[n] && fs[n..][1..] == fs[n + 1..];
      InsertLast(e.deleted, goal.deleted[n]);
      assert goal.deleted[..n] + [goal.deleted[n]] == goal.deleted[..n + 1];
      SetDeletions(Set(e, fs[n]), goal, n + 1);
    }
  }

  lemma {:induction false} SetAdditions(e: VersionEdit, goal: VersionEdit, n: nat)
    requires n <= |goal.newFiles| && e.newFiles == goal.newFiles[..n]
    ensures SetAll(e, Additions(goal)[n..]) == e.(newFiles := goal.newFiles)
    decreases |goal.newFiles| - n
  {
    var fs := Additions(goal);
    if n < |fs| {
      assert fs[n..][0] == fs[n] && fs[n..][1..] == fs[n + 1..];
      SetAdditions(Set(e, fs[n]), goal, n + 1);
    }
  }

  lemma SetOptional(e: VersionEdit, some: bool, f: Field)
    ensures SetAll(e, Optional(some, f)) == if some then Set(e, f) else e
  {
    if some {
      assert Optional(some, f) == [f] && [f][1..] == [];
      assert SetAll(Set(e, f), []) == Set(e, f);
    }
  }

  lemma SetScalars(goal: VersionEdit)
    ensures SetAll(FRESH, Scalars(goal)) == goal.(compactPointers := [], deleted := [], newFiles := [])
  {
    hide SetAll, Optional;
    var a := Comparator(if goal.comparator.Some? then goal.comparator.value else []);
    var b, c := LogNumber(NumberOr0(goal.logNumber)), PrevLogNumber(NumberOr0(goal.prevLogNumber));
    var d, f := NextFileNumber(NumberOr0(goal.nextFileNumber)), LastSequence(NumberOr0(goal.lastSequence));
    var as', bs := Optional(goal.comparator.Some?, a), Optional(goal.logNumber.Some?, b);
    var cs, ds := Optional(goal.prevLogNumber.Some?, c), Optional(goal.nextFileNumber.Some?, d);
    var fs := Optional(goal.lastSequence.Some?, f);
    SetAllConcat(FRESH, as' + bs + cs + ds, fs);
    SetAllConcat(FRESH, as' + bs + cs, ds);
    SetAllConcat(FRESH, as' + bs, cs);
    SetAllConcat(FRESH, as', bs);
    SetOptional(FRESH, goal.comparator.Some?, a);
    var e1 := SetAll(FRESH, as');
    SetOptional(e1, goal.logNumber.Some?, b);
    var e2 := SetAll(e1, bs);
    SetOptional(e2, goal.prevLogNumber.Some?, c);
    var e3 := SetAll(e2, cs);
    SetOptional(e3, goal.nextFileNumber.Some?, d);
    SetOptional(SetAll(e3, ds), goal.lastSequence.Some?, f);
  }

  /** Decoding an encoded edit gives it back. */
  lemma EditRoundTrip(e: VersionEdit)
    requires EditOk(e)
    ensures Decoded(Encoded(FieldsOf(e)), FRESH) == Ok(e)
  {
    hide FieldOk, SetAll, Scalars, Pointers, Deletions, Additions, Encoded, Decoded;
    FieldsDecode(FieldsOf(e), FRESH);
    SetAllConcat(FRESH, Scalars(e) + Pointers(e) + Deletions(e), Additions(e));
    SetAllConcat(FRESH, Scalars(e) + Pointers(e), Deletions(e));
    SetAllConcat(FRESH, Scalars(e), Pointers(e));
    SetScalars(e);
    var e1 := SetAll(FRESH, Scalars(e));
    assert Pointers(e)[0..] == Pointers(e) && Deletions(e)[0..] == Deletions(e) && Additions(e)[0..] == Additions(e);
    SetPointers(e1, e, 0);
    SetDeletions(e1.(compactPointers := e.compactPointers), e, 0);
    SetAdditions(e1.(compactPointers := e.compactPointers, deleted := e.deleted), e, 0);
  }
}
