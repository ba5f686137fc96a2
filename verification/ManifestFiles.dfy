/** Recovering a version from the bytes of a manifest (VersionSet::Recover): what a crash left of it gives the version of
    one of the states the engine went through. */
module ManifestFiles {
  import opened InternalKeys
  import opened Levels
  import opened Versions
  import opened Builder
  import opened Manifest
  import opened EditHistories
  import opened Runs
  import opened LogFormat
  import opened RawBytes
  import ByteValues
  import Coding
  import Comparators
  import LogReader
  import VersionEdits

  /** The ranks that stand for user keys, and the entries of the table stored under a number. */
  datatype Disk = Disk(rank: Coding.Bytes -> UserKey, entries: nat -> seq<Entry>)

  // ---- Records and edits -----------------------------------------------------------------------------------------

  function KeyIn(d: Disk, k: Coding.Bytes): IKey {
    var tag := Comparators.TagOf(k);
    IKey(d.rank(Comparators.UserOf(k)), tag / 256, if tag % 256 == 1 then Put else Deletion)
  }

  function FileIn(d: Disk, f: VersionEdits.NewFile): File {
    File(f.number, f.size, KeyIn(d, f.smallest), KeyIn(d, f.largest), d.entries(f.number))
  }

  function AddedIn(d: Disk, fs: seq<VersionEdits.NewFile>): seq<(nat, File)> {
    seq(|fs|, i requires 0 <= i < |fs| => (fs[i].level, FileIn(d, fs[i])))
  }

  /** The part of a record that changes the files. */
  function EditIn(d: Disk, e: VersionEdits.VersionEdit): Edit {
    Edit(e.deleted, AddedIn(d, e.newFiles))
  }

  function EditsIn(d: Disk, es: seq<VersionEdits.VersionEdit>): seq<Edit> {
    seq(|es|, i requires 0 <= i < |es| => EditIn(d, es[i]))
  }

  function FileRecords(es: seq<VersionEdits.VersionEdit>): seq<ByteValues.Bytes> {
    seq(|es|, i requires 0 <= i < |es| => Raw(VersionEdits.Encoded(VersionEdits.FieldsOf(es[i]))))
  }

  /** The first n records are those whose bytes all lie in the file. */
  ghost predicate Survive(file: ByteValues.Bytes, es: seq<VersionEdits.VersionEdit>, n: nat) {
    && n <= |es| && |LogBytes(FileRecords(es)[..n])| <= |file|
    && (n < |es| ==> |LogBytes(FileRecords(es)[..n + 1])| > |file|)
  }

  lemma RecordReads(es: seq<VersionEdits.VersionEdit>, i: nat)
    requires i < |es| && VersionEdits.EditOk(es[i])
    ensures VersionEdits.Decoded(Cooked(FileRecords(es)[i]), VersionEdits.FRESH) == VersionEdits.Ok(es[i])
  {
    hide VersionEdits.Encoded, VersionEdits.FieldsOf, VersionEdits.Decoded, VersionEdits.EditOk, Raw, Cooked;
    CookedRaw(VersionEdits.Encoded(VersionEdits.FieldsOf(es[i])));
    VersionEdits.EditRoundTrip(es[i]);
  }

  lemma EditInOk(d: Disk, e: VersionEdits.VersionEdit)
    requires VersionEdits.EditOk(e)
    ensures EditOk(EditIn(d, e))
  {
    hide FileIn;
    var fs := VersionEdits.FieldsOf(e);
    forall x | x in e.deleted ensures x.0 < NUM_LEVELS {
      var i :| 0 <= i < |e.deleted| && e.deleted[i] == x;
      DeletionListed(e, i);
    }
    forall a | a in AddedIn(d, e.newFiles) ensures a.0 < NUM_LEVELS {
      var i :| 0 <= i < |e.newFiles| && AddedIn(d, e.newFiles)[i] == a;
      AdditionListed(e, i);
    }
  }

  lemma DeletionListed(e: VersionEdits.VersionEdit, i: nat)
    requires i < |e.deleted|
    ensures VersionEdits.Deleted(e.deleted[i].0, e.deleted[i].1) in VersionEdits.FieldsOf(e)
  {
    assert VersionEdits.Deletions(e)[i] == VersionEdits.Deleted(e.deleted[i].0, e.deleted[i].1);
    assert VersionEdits.Deletions(e)[i] in VersionEdits.Deletions(e);
    hide VersionEdits.Deletions, VersionEdits.Scalars, VersionEdits.Pointers, VersionEdits.Additions;
  }

  lemma AdditionListed(e: VersionEdits.VersionEdit, i: nat)
    requires i < |e.newFiles|
    ensures VersionEdits.Added(e.newFiles[i]) in VersionEdits.FieldsOf(e)
  {
    assert VersionEdits.Additions(e)[i] == VersionEdits.Added(e.newFiles[i]);
    assert VersionEdits.Additions(e)[i] in VersionEdits.Additions(e);
    hide VersionEdits.Deletions, VersionEdits.Scalars, VersionEdits.Pointers, VersionEdits.Additions;
  }

  // ---- Recover -----------------------------------------------------------------------------------------------------

  /** The numbers a manifest keeps besides the files; later records replace what earlier ones said. */
  datatype Numbers = Numbers(nextFile: Option<nat>, lastSequence: Option<nat>, log: Option<nat>, prevLog: Option<nat>)

  function Latest(old': Option<nat>, said: Option<nat>): Option<nat> { if said.Some? then said else old' }

  function Noted(m: Numbers, e: VersionEdits.VersionEdit): Numbers {
    Numbers(Latest(m.nextFile, e.nextFileNumber), Latest(m.lastSequence, e.lastSequence), Latest(m.log, e.logNumber),
            Latest(m.prevLog, e.prevLogNumber))
  }

  function NextFiles(es: seq<VersionEdits.VersionEdit>): seq<Option<nat>> {
    seq(|es|, i requires 0 <= i < |es| => es[i].nextFileNumber)
  }

  function LastSequences(es: seq<VersionEdits.VersionEdit>): seq<Option<nat>> {
    seq(|es|, i requires 0 <= i < |es| => es[i].lastSequence)
  }

  function LogNumbers(es: seq<VersionEdits.VersionEdit>): seq<Option<nat>> {
    seq(|es|, i requires 0 <= i < |es| => es[i].logNumber)
  }

  function PrevLogNumbers(es: seq<VersionEdits.VersionEdit>): seq<Option<nat>> {
    seq(|es|, i requires 0 <= i < |es| => es[i].prevLogNumber)
  }

  /** No record says anything. */
  predicate Unsaid(said: seq<Option<nat>>) {
    forall i :: 0 <= i < |said| ==> said[i] == None
  }

  /** Some record says n, and none after it says anything. */
  predicate LastSaid(said: seq<Option<nat>>, n: nat) {
    exists i :: 0 <= i < |said| && said[i] == Some(n) && forall j :: i < j < |said| ==> said[j] == None
  }

  predicate IsLatest(x: Option<nat>, said: seq<Option<nat>>) {
    match x case None => Unsaid(said) case Some(n) => LastSaid(said, n)
  }

  /** The numbers are the last the records say. */
  ghost predicate AllLatest(m: Numbers, es: seq<VersionEdits.VersionEdit>) {
    && IsLatest(m.nextFile, NextFiles(es)) && IsLatest(m.lastSequence, LastSequences(es)) && IsLatest(m.log, LogNumbers(es))
    && IsLatest(m.prevLog, PrevLogNumbers(es))
  }

  lemma LatestKept(x: Option<nat>, said: seq<Option<nat>>, next: Option<nat>)
    requires IsLatest(x, said)
    ensures IsLatest(Latest(x, next), said + [next])
  {
    var more := said + [next];
    if next.Some? {
      assert more[|said|] == next;
    } else if x.Some? {
      var i :| 0 <= i < |said| && said[i] == x && forall j :: i < j < |said| ==> said[j] == None;
      assert more[i] == x;
    }
  }

  lemma NotedKept(m: Numbers, es: seq<VersionEdits.VersionEdit>, i: nat)
    requires i < |es| && AllLatest(m, es[..i])
    ensures AllLatest(Noted(m, es[i]), es[..i + 1])
  {
    hide IsLatest, Latest;
    var e := es[i];
    LatestKept(m.nextFile, NextFiles(es[..i]), e.nextFileNumber);
    LatestKept(m.lastSequence, LastSequences(es[..i]), e.lastSequence);
    LatestKept(m.log, LogNumbers(es[..i]), e.logNumber);
    LatestKept(m.prevLog, PrevLogNumbers(es[..i]), e.prevLogNumber);
    assert NextFiles(es[..i + 1]) == NextFiles(es[..i]) + [e.nextFileNumber];
    assert LastSequences(es[..i + 1]) == LastSequences(es[..i]) + [e.lastSequence];
    assert LogNumbers(es[..i + 1]) == LogNumbers(es[..i]) + [e.logNumber];
    assert PrevLogNumbers(es[..i + 1]) == PrevLogNumbers(es[..i]) + [e.prevLogNumber];
  }

  predicate Foreign(e: VersionEdits.VersionEdit, comparator: Coding.Bytes) {
    e.comparator.Some? && e.comparator.value != comparator
  }

  datatype Recovery =
    | Recovered(version: Version, nextFileNumber: nat, lastSequence: nat, logNumber: nat, prevLogNumber: nat)
    | WrongComparator(name: Coding.Bytes)
    | Corruption(message: string)

  /** What recovering from the records es must give: every number is the last that was recorded. */
  ghost predicate RecoversTo(r: Recovery, d: Disk, comparator: Coding.Bytes, es: seq<VersionEdits.VersionEdit>) {
    match r
    case Recovered(v, next, last, log, prev) =>
      && (forall e :: e in es && e.comparator.Some? ==> e.comparator.value == comparator)
      && next > 0 && LastSaid(NextFiles(es), next - 1) && LastSaid(LastSequences(es), last) && LastSaid(LogNumbers(es), log)
      && (LastSaid(PrevLogNumbers(es), prev) || (Unsaid(PrevLogNumbers(es)) && prev == 0))
      && |v.files| == NUM_LEVELS
      && forall l :: 0 <= l < NUM_LEVELS
                     ==> v.files[l] == SaveLevel(BuildAll(l, EditsIn(d, es)), [], BuildAll(l, EditsIn(d, es)).added)
    case WrongComparator(name) =>
      name != comparator
      && exists i :: 0 <= i < |es| && es[i].comparator == Some(name)
                     && forall k :: 0 <= k < i ==> es[k].comparator == None || es[k].comparator == Some(comparator)
    case Corruption(message) =>
      && (forall e :: e in es && e.comparator.Some? ==> e.comparator.value == comparator)
      && (Unsaid(NextFiles(es)) || Unsaid(LogNumbers(es)) || Unsaid(LastSequences(es)))
      && message == if Unsaid(NextFiles(es)) then "no meta-nextfile entry in descriptor"
                    else if Unsaid(LogNumbers(es)) then "no meta-lognumber entry in descriptor"
                    else "no last-sequence-number entry in descriptor"
  }

  /** A number is recorded or not. */
  lemma SaidOrNot(x: Option<nat>, said: seq<Option<nat>>)
    requires IsLatest(x, said)
    ensures x == None <==> Unsaid(said)
    ensures x.Some? ==> LastSaid(said, x.value)
  {
  }

  lemma AllSaidOrNot(m: Numbers, es: seq<VersionEdits.VersionEdit>)
    requires AllLatest(m, es)
    ensures (m.nextFile == None <==> Unsaid(NextFiles(es))) && (m.nextFile.Some? ==> LastSaid(NextFiles(es), m.nextFile.value))
    ensures (m.log == None <==> Unsaid(LogNumbers(es))) && (m.log.Some? ==> LastSaid(LogNumbers(es), m.log.value))
    ensures m.lastSequence == None <==> Unsaid(LastSequences(es))
    ensures m.lastSequence.Some? ==> LastSaid(LastSequences(es), m.lastSequence.value)
    ensures m.prevLog == None <==> Unsaid(PrevLogNumbers(es))
    ensures m.prevLog.Some? ==> LastSaid(PrevLogNumbers(es), m.prevLog.value)
  {
    hide IsLatest, Unsaid, LastSaid, NextFiles, LastSequences, LogNumbers, PrevLogNumbers;
    SaidOrNot(m.nextFile, NextFiles(es));
    SaidOrNot(m.log, LogNumbers(es));
    SaidOrNot(m.lastSequence, LastSequences(es));
    SaidOrNot(m.prevLog, PrevLogNumbers(es));
  }

  lemma OneMoreEdit(d: Disk, es: seq<VersionEdits.VersionEdit>, i: nat)
    requires i < |es|
    ensures forall l :: 0 <= l < NUM_LEVELS
                        ==> BuildAll(l, EditsIn(d, es[..i + 1]))
                            == ApplyLevel(BuildAll(l, EditsIn(d, es[..i])), l, EditIn(d, es[i]))
  {
    hide EditIn, ApplyLevel;
    assert es[..i + 1][..i] == es[..i];
    assert EditsIn(d, es[..i + 1])[..i] == EditsIn(d, es[..i]);
  }

  lemma ReadSurvives(file: ByteValues.Bytes, es: seq<VersionEdits.VersionEdit>, read: seq<ByteValues.Bytes>)
    requires read <= FileRecords(es) && |LogBytes(read)| <= |file|
    requires |read| < |FileRecords(es)| ==> |LogBytes(FileRecords(es)[..|read| + 1])| > |file|
    ensures Survive(file, es, |read|)
  {
    hide LogBytes;
    assert FileRecords(es)[..|read|] == read;
  }

  lemma NoRecords(d: Disk, es: seq<VersionEdits.VersionEdit>)
    ensures AllLatest(Numbers(None, None, None, None), es[..0])
    ensures forall l :: 0 <= l < NUM_LEVELS ==> BuildAll(l, EditsIn(d, es[..0])) == EMPTY_STATE
  {
    assert es[..0] == [];
  }

  /** Recover, on what a crash left of a manifest. */
  method Recover(file: ByteValues.Bytes, comparator: Coding.Bytes, d: Disk, ghost logged: seq<VersionEdits.VersionEdit>)
    returns (r: Recovery, ghost n: nat)
    requires file <= LogBytes(FileRecords(logged)) && forall e :: e in logged ==> VersionEdits.EditOk(e)
    ensures Survive(file, logged, n) && RecoversTo(r, d, comparator, logged[..n])
  {
    hide LogBytes, FileRecords, Survive, VersionEdits.EditOk, VersionEdits.Decoded, EditIn, EditsIn, BuildAll, ApplyLevel,
         SaveLevel, Noted, AllLatest, Unsaid, LastSaid, Cooked, EditOk, LogReader.Found;
    var records, reports;
    ghost var spans;
    records, reports, spans := LogReader.ReadLog(file, true, FileRecords(logged));
    n := |records|;
    Sizes(logged);
    ReadSurvives(file, logged, records);
    var builder := new VersionBuilder(EMPTY_VERSION);
    var m := Numbers(None, None, None, None);
    NoRecords(d, logged);
    for i := 0 to |records|
      invariant fresh(builder) && builder.base == EMPTY_VERSION && |builder.levels| == NUM_LEVELS
      invariant forall l :: 0 <= l < NUM_LEVELS ==> builder.levels[l] == BuildAll(l, EditsIn(d, logged[..i]))
      invariant AllLatest(m, logged[..i]) && forall k :: 0 <= k < i ==> !Foreign(logged[k], comparator)
    {
      RecordReads(logged, i);
      var outcome := VersionEdits.DecodeFrom(Cooked(records[i]));
      match outcome
      case Corrupt(message) =>
        return Corruption(message), n;
      case Ok(edit) =>
        if Foreign(edit, comparator) {
          return WrongComparator(edit.comparator.value), n;
        }
        EditInOk(d, edit);
        OneMoreEdit(d, logged, i);
        NotedKept(m, logged, i);
        builder.Apply(EditIn(d, edit));
        m := Noted(m, edit);
    }
    AllSaidOrNot(m, logged[..n]);
    if m.nextFile.None? {
      r := Corruption("no meta-nextfile entry in descriptor");
    } else if m.log.None? {
      r := Corruption("no meta-lognumber entry in descriptor");
    } else if m.lastSequence.None? {
      r := Corruption("no last-sequence-number entry in descriptor");
    } else {
      var v := builder.SaveTo();
      r := Recovered(v, m.nextFile.value + 1, m.lastSequence.value, m.log.value,
                     if m.prevLog.Some? then m.prevLog.value else 0);
    }
  }

  lemma Sizes(es: seq<VersionEdits.VersionEdit>)
    ensures |FileRecords(es)| == |es|
  {
  }

  // ---- The record of an edit -------------------------------------------------------------------------------------

  /** Record r stands for edit e: the same deletions in any order, the same additions. */
  ghost predicate Describes(d: Disk, r: VersionEdits.VersionEdit, e: Edit) {
    (forall x :: x in r.deleted <==> x in e.deleted) && AddedIn(d, r.newFiles) == e.added
  }

  function KeyBytes(name: UserKey -> Coding.Bytes, k: IKey): Coding.Bytes {
    Comparators.InternalKey(name(k.user), Tag(k))
  }

  function NewFileOf(name: UserKey -> Coding.Bytes, level: nat, f: File): VersionEdits.NewFile {
    VersionEdits.NewFile(level, f.number, f.size, KeyBytes(name, f.smallest), KeyBytes(name, f.largest))
  }

  /** RemoveFile for each deletion: they go into a set of pairs. */
  function InsertAll(ds: seq<(nat, nat)>): seq<(nat, nat)> {
    if ds == [] then [] else VersionEdits.InsertPair(InsertAll(ds[..|ds| - 1]), ds[|ds| - 1])
  }

  function RecordOf(name: UserKey -> Coding.Bytes, e: Edit): VersionEdits.VersionEdit {
    VersionEdits.FRESH.(
      deleted := InsertAll(e.deleted),
      newFiles := seq(|e.added|, i requires 0 <= i < |e.added| => NewFileOf(name, e.added[i].0, e.added[i].1)))
  }

  /** The key fits a record, and its user key is known by its name. */
  predicate KeyNamed(d: Disk, name: UserKey -> Coding.Bytes, k: IKey) {
    d.rank(name(k.user)) == k.user && |name(k.user)| + 8 < Coding.TWO_32 && k.seqno <= MAX_SEQUENCE
  }

  predicate FileNamed(d: Disk, name: UserKey -> Coding.Bytes, f: File) {
    && KeyNamed(d, name, f.smallest) && KeyNamed(d, name, f.largest) && f.number < Coding.TWO_64 && f.size < Coding.TWO_64
    && d.entries(f.number) == f.entries
  }

  ghost predicate Ascending(ds: seq<(nat, nat)>) {
    forall i, j :: 0 <= i < j < |ds| ==> VersionEdits.PairLess(ds[i], ds[j])
  }

  lemma {:induction false} InsertPairKeeps(ds: seq<(nat, nat)>, x: (nat, nat))
    requires Ascending(ds)
    ensures Ascending(VersionEdits.InsertPair(ds, x))
    ensures forall y :: y in VersionEdits.InsertPair(ds, x) <==> y in ds || y == x
  {
    if ds != [] && !VersionEdits.PairLess(x, ds[0]) && ds[0] != x {
      var rest := VersionEdits.InsertPair(ds[1..], x);
      InsertPairKeeps(ds[1..], x);
      assert ds == [ds[0]] + ds[1..];
      forall y | y in rest ensures VersionEdits.PairLess(ds[0], y) {
        if y != x {
          var i :| 0 <= i < |ds[1..]| && ds[1..][i] == y;
          assert ds[i + 1] == y;
        }
      }
    } else if ds == [] || VersionEdits.PairLess(x, ds[0]) {
      forall y | y in ds ensures VersionEdits.PairLess(x, y) {
        var i :| 0 <= i < |ds| && ds[i] == y;
        assert i == 0 || VersionEdits.PairLess(ds[0], ds[i]);
      }
    }
  }

  lemma {:induction false} InsertAllKeeps(ds: seq<(nat, nat)>)
    ensures Ascending(InsertAll(ds)) && forall y :: y in InsertAll(ds) <==> y in ds
  {
    if ds != [] {
      var n := |ds| - 1;
      assert ds == ds[..n] + [ds[n]];
      InsertAllKeeps(ds[..n]);
      InsertPairKeeps(InsertAll(ds[..n]), ds[n]);
    }
  }

  lemma KeyReads(d: Disk, name: UserKey -> Coding.Bytes, k: IKey)
    requires KeyNamed(d, name, k)
    ensures KeyIn(d, KeyBytes(name, k)) == k && VersionEdits.KeyOk(KeyBytes(name, k))
  {
    hide Comparators.UserOf, Comparators.TagOf;
    TagFits(k);
    Comparators.InternalKeyParts(name(k.user), Tag(k));
  }

  lemma TagFits(k: IKey)
    requires k.seqno <= MAX_SEQUENCE
    ensures Tag(k) < Coding.TWO_64 && Tag(k) / 256 == k.seqno && Tag(k) % 256 == if k.kind.Put? then 1 else 0
  {
  }

  /** Every edit over named files has a record that fits the format and stands for it. */
  lemma RecordStands(d: Disk, name: UserKey -> Coding.Bytes, e: Edit)
    requires EditOk(e) && (forall x :: x in e.deleted ==> x.1 < Coding.TWO_64)
    requires forall a :: a in e.added ==> FileNamed(d, name, a.1)
    ensures VersionEdits.EditOk(RecordOf(name, e)) && Describes(d, RecordOf(name, e), e)
  {
    hide KeyIn, KeyBytes, VersionEdits.KeyOk, KeyNamed, VersionEdits.InsertPair;
    var r := RecordOf(name, e);
    InsertAllKeeps(e.deleted);
    forall i | 0 <= i < |e.added|
      ensures FileIn(d, r.newFiles[i]) == e.added[i].1 && VersionEdits.FieldOk(VersionEdits.Added(r.newFiles[i]))
    {
      assert e.added[i] in e.added;
      KeyReads(d, name, e.added[i].1.smallest);
      KeyReads(d, name, e.added[i].1.largest);
    }
    assert forall x :: x in r.deleted ==> x.0 < NUM_LEVELS && x.1 < Coding.TWO_64;
    FieldsFit(r);
  }

  lemma FieldsFit(r: VersionEdits.VersionEdit)
    requires r == VersionEdits.FRESH.(deleted := r.deleted, newFiles := r.newFiles)
    requires forall x :: x in r.deleted ==> x.0 < NUM_LEVELS && x.1 < Coding.TWO_64
    requires forall i :: 0 <= i < |r.newFiles| ==> VersionEdits.FieldOk(VersionEdits.Added(r.newFiles[i]))
    ensures forall f :: f in VersionEdits.FieldsOf(r) ==> VersionEdits.FieldOk(f)
  {
    assert VersionEdits.Scalars(r) == [] && VersionEdits.Pointers(r) == [];
    forall f | f in VersionEdits.Deletions(r) ensures VersionEdits.FieldOk(f) {
      var i :| 0 <= i < |r.deleted| && VersionEdits.Deletions(r)[i] == f;
      assert r.deleted[i] in r.deleted;
    }
    forall f | f in VersionEdits.Additions(r) ensures VersionEdits.FieldOk(f) {
      var i :| 0 <= i < |r.newFiles| && VersionEdits.Additions(r)[i] == f;
    }
  }

  // ---- End to end ----------------------------------------------------------------------------------------------

  ghost predicate DescribesAll(d: Disk, rs: seq<VersionEdits.VersionEdit>, es: seq<Edit>) {
    |rs| == |es| && forall i :: 0 <= i < |rs| ==> Describes(d, rs[i], es[i])
  }

  lemma SameEffect(s: LevelState, level: nat, e: Edit, e': Edit)
    requires (forall x :: x in e.deleted <==> x in e'.deleted) && e.added == e'.added
    ensures ApplyLevel(s, level, e) == ApplyLevel(s, level, e')
  {
    DeleteAllEffect(s, level, e.deleted);
    DeleteAllEffect(s, level, e'.deleted);
    assert DeletedAt(e.deleted, level) == DeletedAt(e'.deleted, level);
  }

  lemma {:induction false} SameBuild(d: Disk, rs: seq<VersionEdits.VersionEdit>, es: seq<Edit>, level: nat)
    requires DescribesAll(d, rs, es)
    ensures BuildAll(level, EditsIn(d, rs)) == BuildAll(level, es)
  {
    hide ApplyLevel, AddedIn;
    if rs != [] {
      var n := |rs| - 1;
      SameBuild(d, rs[..n], es[..n], level);
      assert EditsIn(d, rs)[..n] == EditsIn(d, rs[..n]);
      assert Describes(d, rs[n], es[n]);
      SameEffect(BuildAll(level, es[..n]), level, EditIn(d, rs[n]), es[n]);
    }
  }

  /** The version recovered from a snapshot record of v and the records of edits es. */
  lemma RecoversApplied(v: Version, next: nat, es: seq<Edit>, d: Disk, rs: seq<VersionEdits.VersionEdit>, r: Recovery,
                        comparator: Coding.Bytes)
    requires VersionOk(v, next) && forall l :: 0 <= l < NUM_LEVELS ==> NeverReadds(v.files[l], l, es)
    requires DescribesAll(d, rs, [Snapshot(v)] + es) && RecoversTo(r, d, comparator, rs) && r.Recovered?
    ensures r.version == Applied(v, es)
  {
    hide NeverReadds, SaveLevel, BuildAll, DescribesAll, EditsIn, StepAll;
    forall l | 0 <= l < NUM_LEVELS ensures r.version.files[l] == Applied(v, es).files[l] {
      SameBuild(d, rs, [Snapshot(v)] + es, l);
      RecoverRebuilds(v, next, l, es);
    }
    assert r.version.files == Applied(v, es).files;
  }

  /** In every run: if a manifest was begun with a snapshot of the version at state i and holds the edits logged up to
      state j, then whatever prefix of its bytes a crash leaves, the version recovered is that of a state between. */
  lemma RecoveredVersionWasCurrent(states: seq<State>, labels: seq<Label>, edits: seq<seq<Edit>>, i: nat, j: nat, v: Version,
                                   d: Disk, logged: seq<VersionEdits.VersionEdit>, n: nat, r: Recovery,
                                   comparator: Coding.Bytes)
    returns (k: nat)
    requires LoggedRun(states, labels, edits) && i <= j <= |labels| && Holds(v, states[i])
    requires DescribesAll(d, logged, [Snapshot(v)] + Flat(edits[i..j])) && 1 <= n <= |logged|
    requires RecoversTo(r, d, comparator, logged[..n]) && r.Recovered?
    ensures i <= k <= j && Holds(r.version, states[k]) && Flat(edits[i..j])[..n - 1] == Flat(edits[i..k])
  {
    hide Step, Init, Logs, Flat, Describes, RecoversTo, NeverReadds, OnlyDown, LevelsOf, Applied, Snapshot, VersionOk;
    var es := Flat(edits[i..j]);
    k := PrefixIsSteps(states, labels, edits, i, j, n - 1);
    RunsKeepHistory(states, labels, edits, i, k, v);
    assert ([Snapshot(v)] + es)[..n] == [Snapshot(v)] + es[..n - 1];
    RecoversApplied(v, states[i].next, es[..n - 1], d, logged[..n], r, comparator);
  }
}
