/** What a crash leaves of the writes (RecoverLogFile): from any prefix of the log's bytes, the memtable of a prefix of the
    batches, and of all those that a synchronous write has returned for. */
module CrashRecovery {
  import opened InternalKeys
  import opened Visibility
  import opened Batches
  import opened Merging
  import opened MemTables
  import opened GroupCommit
  import opened WriteBatches
  import opened LogFormat
  import opened RawBytes
  import Coding
  import ByteValues
  import LogReader

  // ---- The log of a queue, batch by batch ----------------------------------------------------------------------

  function LogOps(log: seq<Record>): seq<Op> {
    if log == [] then [] else LogOps(log[..|log| - 1]) + log[|log| - 1].ops
  }

  /** How many requests the logs hold the batches of. */
  function LoggedCount(q: Queue): nat {
    q.done + if q.phase.Logged? || q.phase.Applied? then q.phase.n else 0
  }

  /** Number of operations of the first k requests. */
  ghost function OpsUpTo(rs: seq<Request>, k: nat): nat
    requires k <= |rs|
  {
    |Flatten(rs[..k])|
  }

  /** The first n records of the log end where a batch does. */
  ghost predicate EndsBatch(q: Queue, n: nat)
    requires n <= |q.log| && LoggedCount(q) <= |q.arrived|
  {
    exists k: nat :: k <= LoggedCount(q) && 1 + OpsUpTo(q.arrived, k) == q.base + LogLength(q.log[..n])
  }

  /** Request i has returned and its batch is on disk, in this log or an earlier one. */
  ghost predicate OnDisk(q: Queue, i: nat)
    requires i < |q.arrived| && q.synced <= |q.log|
  {
    Through(q.arrived, i) < q.base + LogLength(q.log[..q.synced])
  }

  ghost function Through(rs: seq<Request>, i: nat): nat
    requires i < |rs|
  {
    OpsUpTo(rs, i + 1)
  }

  /** The log holds the operations of the requests since it was begun, cut between batches, and whatever a synchronous
      write has returned for is on disk. */
  ghost predicate LogOk(q: Queue) {
    && q.synced <= |q.log| && LoggedCount(q) <= |q.arrived| && 0 < q.base <= 1 + OpsUpTo(q.arrived, LoggedCount(q))
    && LogOps(q.log) == Flatten(q.arrived[..LoggedCount(q)])[q.base - 1..]
    && (forall n: nat :: n <= |q.log| ==> EndsBatch(q, n))
    && (forall i: nat :: i < q.done && i < |q.arrived| && q.arrived[i].sync && q.arrived[i].ops.Some? ==> OnDisk(q, i))
  }

  // ---- Every step keeps it -----------------------------------------------------------------------------------

  lemma PrefixOps(a: seq<Request>, b: seq<Request>, k: nat)
    requires a <= b && k <= |a|
    ensures b[..k] == a[..k] && OpsUpTo(b, k) == OpsUpTo(a, k)
  {
    assert b[..|a|] == a;
  }

  lemma OpsAscend(rs: seq<Request>, j: nat, k: nat)
    requires j <= k <= |rs|
    ensures Flatten(rs[..j]) <= Flatten(rs[..k]) && OpsUpTo(rs, j) <= OpsUpTo(rs, k)
  {
    FlattenSplit(rs, j, k);
  }

  lemma KeepsEnds(q: Queue, q': Queue, n: nat)
    requires q'.base == q.base && q.arrived <= q'.arrived && LoggedCount(q) <= LoggedCount(q') <= |q'.arrived|
    requires LoggedCount(q) <= |q.arrived| && n <= |q.log| && n <= |q'.log| && q'.log[..n] == q.log[..n] && EndsBatch(q, n)
    ensures EndsBatch(q', n)
  {
    hide OpsUpTo, LogLength;
    var k: nat :| k <= LoggedCount(q) && 1 + OpsUpTo(q.arrived, k) == q.base + LogLength(q.log[..n]);
    PrefixOps(q.arrived, q'.arrived, k);
  }

  lemma KeepsOnDisk(q: Queue, q': Queue, i: nat)
    requires q'.base == q.base && q.arrived <= q'.arrived && i < |q.arrived|
    requires q.synced <= |q.log| && q'.synced <= |q'.log|
    requires LogLength(q.log[..q.synced]) <= LogLength(q'.log[..q'.synced]) && OnDisk(q, i)
    ensures OnDisk(q', i)
  {
    hide OpsUpTo, LogLength;
    PrefixOps(q.arrived, q'.arrived, i + 1);
  }

  /** Steps that leave the log alone. */
  lemma SameLog(q: Queue, q': Queue)
    requires LogOk(q) && q.arrived <= q'.arrived && q'.base == q.base && q'.log == q.log && q'.synced == q.synced
    requires LoggedCount(q) <= LoggedCount(q') <= |q'.arrived| && q.done <= |q.arrived|
    requires Flatten(q'.arrived[..LoggedCount(q')]) == Flatten(q.arrived[..LoggedCount(q)])
    requires forall i: nat :: q.done <= i < q'.done && i < |q'.arrived| && q'.arrived[i].sync && q'.arrived[i].ops.Some?
                              ==> OnDisk(q', i)
    ensures LogOk(q')
  {
    hide Flatten, LogLength, EndsBatch, OnDisk, LogOps;
    forall n: nat | n <= |q.log| ensures EndsBatch(q', n) {
      KeepsEnds(q, q', n);
    }
    forall i: nat | i < q'.done && i < |q'.arrived| && q'.arrived[i].sync && q'.arrived[i].ops.Some? ensures OnDisk(q', i) {
      if i < q.done {
        assert q'.arrived[i] == q.arrived[i];
        KeepsOnDisk(q, q', i);
      }
    }
  }

  lemma LogOpsSnoc(log: seq<Record>, r: Record)
    ensures LogOps(log + [r]) == LogOps(log) + r.ops
    ensures LogLength(log + [r]) == LogLength(log) + |r.ops|
  {
    assert (log + [r])[..|log|] == log;
  }

  lemma LengthAscends(log: seq<Record>, m: nat, n: nat)
    requires m <= n <= |log|
    ensures LogLength(log[..m]) <= LogLength(log[..n])
    decreases n
  {
    if m < n {
      LengthAscends(log, m, n - 1);
      assert log[..n][..n - 1] == log[..n - 1];
    }
  }

  lemma RotateKeepsLog(q: Queue, q': Queue)
    requires Inv(q) && LogOk(q) && Step(q, Rotate, q')
    ensures LogOk(q')
  {
    hide Flatten, Numbering, Replayed, Stored, InSequence, EndsBatch, OnDisk;
    assert EndsBatch(q', 0) by {
      EndsAt(q', 0, q.done);
    }
    forall i: nat | i < q'.done && i < |q'.arrived| ensures OnDisk(q', i) {
      OpsAscend(q.arrived, i + 1, q.done);
      IsOnDisk(q', i);
    }
  }

  lemma EndsAt(q: Queue, n: nat, k: nat)
    requires n <= |q.log| && k <= LoggedCount(q) <= |q.arrived|
    requires 1 + OpsUpTo(q.arrived, k) == q.base + LogLength(q.log[..n])
    ensures EndsBatch(q, n)
  {
    hide OpsUpTo, LogLength;
  }

  lemma IsOnDisk(q: Queue, i: nat)
    requires i < |q.arrived| && q.synced <= |q.log|
    requires OpsUpTo(q.arrived, i + 1) < q.base + LogLength(q.log[..q.synced])
    ensures OnDisk(q, i)
  {
    hide OpsUpTo, LogLength;
  }

  lemma LogKeepsLog(q: Queue, q': Queue)
    requires Inv(q) && LogOk(q) && Step(q, Log, q')
    ensures LogOk(q')
  {
    hide Flatten, Numbering, Replayed, Stored, InSequence, EndsBatch, OnDisk, LogOps, LogLength;
    var r, m := Record(q.last + 1, GroupOps(q)), q.done + q.phase.n;
    LogOpsSnoc(q.log, r);
    FlattenSplit(q.arrived, q.done, m);
    assert q'.log[..|q.log|] == q.log && q'.log[..|q'.log|] == q'.log && q.log[..|q.log|] == q.log;
    forall n: nat | n <= |q'.log| ensures EndsBatch(q', n) {
      if n <= |q.log| {
        assert q'.log[..n] == q.log[..n];
        KeepsEnds(q, q', n);
      } else {
        EndsAt(q', n, m);
      }
    }
    LengthAscends(q.log, q.synced, |q.log|);
    assert q'.log[..q.synced] == q.log[..q.synced];
    forall i: nat | i < q'.done && q'.arrived[i].sync && q'.arrived[i].ops.Some? ensures OnDisk(q', i) {
      KeepsOnDisk(q, q', i);
    }
  }

  /** Every synchronous request of a group that returns is on disk. */
  lemma FinishSyncs(q: Queue, q': Queue, i: nat)
    requires Inv(q) && LogOk(q) && Step(q, Finish, q') && q.done <= i < q'.done && q.arrived[i].sync
    ensures OnDisk(q', i)
  {
    hide Flatten, Numbering, Replayed, Stored, InSequence, EndsBatch, OnDisk, LogOps, LogLength;
    var m := q.done + q.phase.n;
    FlattenSplit(q.arrived, q.done, m);
    OpsAscend(q.arrived, i + 1, m);
    assert q.log[..|q.log|] == q.log;
    IsOnDisk(q', i);
  }

  lemma LogOkSizes(q: Queue)
    requires LogOk(q)
    ensures q.synced <= |q.log| && LoggedCount(q) <= |q.arrived|
  {
    hide EndsBatch, OnDisk, LogOps;
  }

  lemma OtherKeepsLog(q: Queue, e: Event, q': Queue)
    requires Inv(q) && LogOk(q) && Step(q, e, q') && !e.Rotate? && !e.Log?
    ensures LogOk(q')
  {
    hide Flatten, Numbering, Replayed, Stored, InSequence, EndsBatch, OnDisk, LogOps, LogLength, LogOk;
    LogOkSizes(q);
    if e.Enqueue? {
      PrefixOps(q.arrived, q'.arrived, LoggedCount(q));
    } else if e.Finish? {
      forall i: nat | q.done <= i < q'.done && i < |q'.arrived| && q'.arrived[i].sync && q'.arrived[i].ops.Some?
        ensures OnDisk(q', i)
      {
        FinishSyncs(q, q', i);
      }
    } else if e.Pass? {
      PassedNothing(q.arrived, q.done);
    }
    SameLog(q, q');
  }

  /** Every step of the protocol keeps what the log promises. */
  lemma StepKeepsLog(q: Queue, e: Event, q': Queue)
    requires Inv(q) && LogOk(q) && Step(q, e, q')
    ensures LogOk(q')
  {
    hide Inv, LogOk, Step;
    if e.Rotate? {
      RotateKeepsLog(q, q');
    } else if e.Log? {
      LogKeepsLog(q, q');
    } else {
      OtherKeepsLog(q, e, q');
    }
  }

  lemma {:induction false} RunsKeepLog(qs: seq<Queue>, es: seq<Event>, i: nat)
    requires Run(qs, es) && i <= |es|
    ensures Inv(qs[i]) && LogOk(qs[i])
  {
    hide Inv, Step, LogOk;
    RunsKeepInv(qs, es, i);
    if i == 0 {
      InitLogOk(qs[0]);
    } else {
      RunsKeepLog(qs, es, i - 1);
      StepKeepsLog(qs[i - 1], es[i - 1], qs[i]);
    }
  }

  lemma InitLogOk(q: Queue)
    requires Init(q)
    ensures LogOk(q)
  {
    assert q.arrived[..0] == [] && q.log[..0] == [];
    EndsAt(q, 0, 0);
  }

  // ---- What a prefix of the log stands for ---------------------------------------------------------------------

  lemma {:induction false} ReplayedBounds(log: seq<Record>, first: nat)
    requires InSequence(log, first)
    ensures forall e :: e in Replayed(log) ==> e.key.seqno < first + LogLength(log)
  {
    if log != [] {
      var n := |log| - 1;
      assert forall i :: 0 <= i < n ==> log[..n][..i] == log[..i];
      ReplayedBounds(log[..n], first);
      NumberingBounds(log[n].ops, log[n].first);
    }
  }

  lemma EmptySorted()
    ensures Sorted([]) && ToSet([]) == {}
  {
  }

  lemma PrefixInSequence(log: seq<Record>, first: nat, i: nat)
    requires InSequence(log, first) && i <= |log|
    ensures InSequence(log[..i], first)
  {
    assert forall j :: 0 <= j < i ==> log[..i][..j] == log[..j];
  }

  lemma RecordSnoc(log: seq<Record>, i: nat)
    requires i < |log|
    ensures Replayed(log[..i + 1]) == Replayed(log[..i]) + Numbering(log[i].ops, log[i].first)
    ensures LogLength(log[..i + 1]) == LogLength(log[..i]) + |log[i].ops|
  {
    assert log[..i + 1][..i] == log[..i];
  }

  lemma {:induction false} LogOpsLength(log: seq<Record>)
    ensures |LogOps(log)| == LogLength(log)
  {
    if log != [] {
      LogOpsLength(log[..|log| - 1]);
    }
  }

  lemma {:induction false} LogOpsPrefix(log: seq<Record>, n: nat)
    requires n <= |log|
    ensures LogOps(log[..n]) <= LogOps(log)
  {
    if n < |log| {
      var m := |log| - 1;
      LogOpsPrefix(log[..m], n);
      assert log[..m][..n] == log[..n];
    } else {
      assert log[..n] == log;
    }
  }

  /** A log in sequence replays to its operations, numbered from where it begins. */
  lemma {:induction false} ReplayedIsNumbering(log: seq<Record>, first: nat)
    requires InSequence(log, first)
    ensures Replayed(log) == Numbering(LogOps(log), first)
  {
    hide Numbering;
    if log == [] {
      NumberingNone(first);
    } else {
      var m := |log| - 1;
      PrefixInSequence(log, first, m);
      ReplayedIsNumbering(log[..m], first);
      LogOpsLength(log[..m]);
      NumberingConcat(LogOps(log[..m]), log[m].ops, first);
    }
  }

  /** The entries numbered from base on. */
  ghost function Since(es: set<Entry>, base: nat): set<Entry> {
    set e | e in es && e.key.seqno >= base
  }

  lemma NumberingSince(ops: seq<Op>, base: nat)
    requires 0 < base <= 1 + |ops|
    ensures Since(Numbering(ops, 1), base) == Numbering(ops[base - 1..], base)
  {
    hide Numbering;
    var front, back := ops[..base - 1], ops[base - 1..];
    assert ops == front + back;
    NumberingConcat(front, back, 1);
    NumberingBounds(front, 1);
    NumberingBounds(back, base);
  }

  /** Replaying the first n records of the log gives the batches of the first k requests, as far as this log has them,
      for some k; nothing of a later batch, and every batch that a synchronous write returned for if the first n records
      reach as far as the disk is known to. */
  lemma PrefixIsBatches(q: Queue, n: nat) returns (k: nat)
    requires Inv(q) && LogOk(q) && n <= |q.log|
    ensures k <= |q.arrived| && Replayed(q.log[..n]) == Since(Numbering(Flatten(q.arrived[..k]), 1), q.base)
    ensures q.synced <= n ==> forall i :: 0 <= i < q.done && q.arrived[i].sync && q.arrived[i].ops.Some?
                                          ==> Since(BatchEntries(q, i), q.base) <= Replayed(q.log[..n])
  {
    hide Numbering, Flatten, Replayed, Stored, LogLength, LogOps, OnDisk, Since, BatchEntries;
    assert EndsBatch(q, n);
    k :| k <= LoggedCount(q) && 1 + OpsUpTo(q.arrived, k) == q.base + LogLength(q.log[..n]);
    PrefixInSequence(q.log, q.base, n);
    ReplayedIsNumbering(q.log[..n], q.base);
    LogOpsLength(q.log[..n]);
    LogOpsPrefix(q.log, n);
    OpsAscend(q.arrived, k, LoggedCount(q));
    var all, part := Flatten(q.arrived[..LoggedCount(q)]), Flatten(q.arrived[..k]);
    assert part[q.base - 1..] == LogOps(q.log[..n]);
    NumberingSince(part, q.base);
    if q.synced <= n {
      LengthAscends(q.log, q.synced, n);
      forall i | 0 <= i < q.done && q.arrived[i].sync && q.arrived[i].ops.Some?
        ensures Since(BatchEntries(q, i), q.base) <= Replayed(q.log[..n])
      {
        assert OnDisk(q, i);
        DiskHolds(q, i, n, k);
      }
    }
  }

  lemma DiskHolds(q: Queue, i: nat, n: nat, k: nat)
    requires i < |q.arrived| && q.synced <= n <= |q.log| && OnDisk(q, i) && k <= |q.arrived|
    requires LogLength(q.log[..q.synced]) <= LogLength(q.log[..n])
    requires 1 + OpsUpTo(q.arrived, k) == q.base + LogLength(q.log[..n])
    ensures Since(BatchEntries(q, i), q.base) <= Since(Numbering(Flatten(q.arrived[..k]), 1), q.base)
  {
    hide Numbering, Flatten, LogLength;
    var ops := OpsOf(q.arrived[i]);
    OneMoreRequest(q.arrived, i, (s: seq<Op>) => 0);
    NumberingConcat(Flatten(q.arrived[..i]), ops, 1);
    if i + 1 <= k {
      OpsAscend(q.arrived, i + 1, k);
    } else {
      OpsAscend(q.arrived, k, i + 1);
    }
    NumberingPrefix(Flatten(q.arrived[..i + 1]), Flatten(q.arrived[..k]));
  }

  lemma NumberingPrefix(a: seq<Op>, b: seq<Op>)
    requires a <= b || (b <= a && |a| <= |b|)
    ensures Numbering(a, 1) <= Numbering(b, 1)
  {
    forall e | e in Numbering(a, 1) ensures e in Numbering(b, 1) {
      var i :| 0 <= i < |a| && e == EntryOf(a[i], 1 + i);
      assert a[i] == b[i];
    }
  }

  // ---- The log as bytes ----------------------------------------------------------------------------------------

  /** The ranks that stand for user keys, and the text that stands for values. */
  datatype Reading = Reading(rank: Coding.Bytes -> UserKey, text: Coding.Bytes -> Value)

  function OpIn(rd: Reading, b: BatchOp): Op {
    Op(rd.rank(b.key), if b.Put? then Some(rd.text(b.value)) else None)
  }

  function OpsIn(rd: Reading, bs: seq<BatchOp>): seq<Op> {
    seq(|bs|, i requires 0 <= i < |bs| => OpIn(rd, bs[i]))
  }

  /** A group's batch as it is logged. */
  datatype Batch = Batch(first: nat, ops: seq<BatchOp>)

  predicate BatchFits(b: Batch) {
    b.first < Coding.TWO_64 && |b.ops| < Coding.TWO_32 && forall op :: op in b.ops ==> OpFits(op)
  }

  function BatchBytes(b: Batch): Coding.Bytes {
    Framed(b.first, |b.ops|, OpsBytes(b.ops))
  }

  function FileRecords(bs: seq<Batch>): seq<ByteValues.Bytes> {
    seq(|bs|, i requires 0 <= i < |bs| => Raw(BatchBytes(bs[i])))
  }

  function RecordIn(rd: Reading, b: Batch): Record { Record(b.first, OpsIn(rd, b.ops)) }

  function LogIn(rd: Reading, bs: seq<Batch>): seq<Record> {
    seq(|bs|, i requires 0 <= i < |bs| => RecordIn(rd, bs[i]))
  }

  /** The bytes that stand for user keys and for values when a batch is made. */
  datatype Writing = Writing(name: UserKey -> Coding.Bytes, bytes: Value -> Coding.Bytes)

  /** What a call of Put or Delete adds to its batch. */
  function LoggedOp(w: Writing, op: Op): BatchOp {
    match op.value case Some(v) => BatchOp.Put(w.name(op.user), w.bytes(v)) case None => BatchOp.Delete(w.name(op.user))
  }

  function LoggedOps(w: Writing, ops: seq<Op>): seq<BatchOp> {
    seq(|ops|, i requires 0 <= i < |ops| => LoggedOp(w, ops[i]))
  }

  /** The records of a log as batches of bytes. */
  function Logged(w: Writing, log: seq<Record>): seq<Batch> {
    seq(|log|, i requires 0 <= i < |log| => Batch(log[i].first, LoggedOps(w, log[i].ops)))
  }

  /** The names and bytes in a log lead back to the user keys and values they stand for. */
  ghost predicate Legible(w: Writing, rd: Reading, log: seq<Record>) {
    forall r, op :: r in log && op in r.ops
                    ==> rd.rank(w.name(op.user)) == op.user && (op.value.Some? ==> rd.text(w.bytes(op.value.value)) == op.value.value)
  }

  lemma OpsLegible(w: Writing, rd: Reading, log: seq<Record>, i: nat)
    requires Legible(w, rd, log) && i < |log|
    ensures OpsIn(rd, LoggedOps(w, log[i].ops)) == log[i].ops
  {
    var ops := log[i].ops;
    forall j | 0 <= j < |ops|
      ensures OpIn(rd, LoggedOp(w, ops[j])) == ops[j]
    {
      assert log[i] in log && ops[j] in log[i].ops;
    }
  }

  /** Reading the batches of a log back gives the log. */
  lemma LogLegible(w: Writing, rd: Reading, log: seq<Record>)
    requires Legible(w, rd, log)
    ensures LogIn(rd, Logged(w, log)) == log
  {
    hide Legible, OpsIn, LoggedOps;
    forall i | 0 <= i < |log|
      ensures RecordIn(rd, Logged(w, log)[i]) == log[i]
    {
      OpsLegible(w, rd, log, i);
    }
  }

  /** The first n batches are those whose bytes all lie in the file. */
  ghost predicate Survive(file: ByteValues.Bytes, bs: seq<Batch>, n: nat) {
    && n <= |bs| && |LogBytes(FileRecords(bs)[..n])| <= |file|
    && (n < |bs| ==> |LogBytes(FileRecords(bs)[..n + 1])| > |file|)
  }

  /** Tables written along the way and the memtable left: sorted lists, each newer than those before. */
  ghost predicate Layered(tables: seq<seq<Entry>>, mem: seq<Entry>) {
    && Sorted(mem) && (forall i :: 0 <= i < |tables| ==> Sorted(tables[i]))
    && (forall i, x, y :: 0 <= i < |tables| && x in tables[i] && y in mem ==> x.key.seqno < y.key.seqno)
    && (forall i, j, x, y :: 0 <= i < j < |tables| && x in tables[i] && y in tables[j] ==> x.key.seqno < y.key.seqno)
  }

  ghost function EntriesIn(tables: seq<seq<Entry>>, mem: seq<Entry>): set<Entry> {
    (set i, e | 0 <= i < |tables| && e in tables[i] :: e) + ToSet(mem)
  }

  lemma MoreInMem(tables: seq<seq<Entry>>, mem: seq<Entry>, mem': seq<Entry>, es: set<Entry>, first: nat)
    requires Layered(tables, mem) && Sorted(mem') && ToSet(mem') == ToSet(mem) + es
    requires (forall e :: e in EntriesIn(tables, mem) ==> e.key.seqno < first) && forall e :: e in es ==> e.key.seqno >= first
    ensures Layered(tables, mem') && EntriesIn(tables, mem') == EntriesIn(tables, mem) + es
  {
    forall i, x, y | 0 <= i < |tables| && x in tables[i] && y in mem' ensures x.key.seqno < y.key.seqno {
      assert x in EntriesIn(tables, mem) && y in ToSet(mem');
      assert y in mem || y in es;
    }
  }

  lemma MemToTable(tables: seq<seq<Entry>>, mem: seq<Entry>)
    requires Layered(tables, mem)
    ensures Layered(tables + [mem], []) && EntriesIn(tables + [mem], []) == EntriesIn(tables, mem)
  {
    EntriesMove(tables, mem);
    hide Sorted, EntriesIn;
    EmptySorted();
  }

  lemma EntriesMove(tables: seq<seq<Entry>>, mem: seq<Entry>)
    ensures EntriesIn(tables + [mem], []) == EntriesIn(tables, mem)
  {
    var more := tables + [mem];
    forall e | e in EntriesIn(tables, mem) ensures e in EntriesIn(more, []) {
      if e in mem {
        assert e in more[|tables|];
      } else {
        var i :| 0 <= i < |tables| && e in tables[i];
        assert e in more[i];
      }
    }
  }

  lemma NothingYet(max: nat, first: nat)
    ensures Layered([], []) && EntriesIn([], []) == Replayed([]) && max == Larger(max, LastOf([], first))
  {
  }

  /** Reading a logged batch back gives its operations, and numbers them as they were. */
  lemma RecordReads(rd: Reading, bs: seq<Batch>, i: nat)
    requires i < |bs| && BatchFits(bs[i])
    ensures var rep := Cooked(FileRecords(bs)[i]);
            && |rep| >= HEADER && SequenceOf(rep) == bs[i].first && CountOf(rep) == |bs[i].ops|
            && Walked(rep[HEADER..], [], CountOf(rep)) == Walk(bs[i].ops, "")
  {
    hide BatchBytes, Framed, OpsBytes, Raw, Cooked, Walked, SequenceOf, CountOf;
    CookedRaw(BatchBytes(bs[i]));
    IsFramed(bs[i]);
    BatchRoundTrip(bs[i].first, bs[i].ops);
  }

  lemma IsFramed(b: Batch)
    ensures BatchBytes(b) == Framed(b.first, |b.ops|, OpsBytes(b.ops))
  {
  }

  function Larger(a: nat, b: nat): nat { if a < b then b else a }

  /** The last sequence number of a log, 0 for an empty one. */
  function LastOf(log: seq<Record>, first: nat): nat {
    if log == [] || first == 0 then 0 else first + LogLength(log) - 1
  }

  lemma MemBefore(log: seq<Record>, first: nat, i: nat, tables: seq<seq<Entry>>, mem: seq<Entry>)
    requires i < |log| && InSequence(log, first) && EntriesIn(tables, mem) == Replayed(log[..i])
    ensures log[i].first == first + LogLength(log[..i])
    ensures (forall e :: e in EntriesIn(tables, mem) ==> e.key.seqno < log[i].first)
    ensures forall e :: e in mem ==> e.key.seqno < log[i].first
  {
    hide Replayed, LogLength;
    PrefixInSequence(log, first, i);
    ReplayedBounds(log[..i], first);
    assert forall e :: e in mem ==> e in EntriesIn(tables, mem);
  }

  lemma OneMoreRecord(log: seq<Record>, first: nat, i: nat, tables: seq<seq<Entry>>, mem: seq<Entry>, mem': seq<Entry>)
    requires i < |log| && InSequence(log, first) && EntriesIn(tables, mem) == Replayed(log[..i]) && Layered(tables, mem)
    requires Sorted(mem') && ToSet(mem') == ToSet(mem) + Numbering(log[i].ops, log[i].first)
    ensures Layered(tables, mem') && EntriesIn(tables, mem') == Replayed(log[..i + 1])
  {
    hide Layered, EntriesIn, Sorted, Numbering, InSequence, Replayed, LogLength, ToSet;
    MemBefore(log, first, i, tables, mem);
    NumberingBounds(log[i].ops, log[i].first);
    MoreInMem(tables, mem, mem', Numbering(log[i].ops, log[i].first), log[i].first);
    RecordSnoc(log, i);
  }

  lemma OneMoreLast(log: seq<Record>, first: nat, i: nat, max: nat)
    requires i < |log| && InSequence(log, first) && first > 0
    ensures var last, before := log[i].first + |log[i].ops| - 1, Larger(max, LastOf(log[..i], first));
            last >= 0 && Larger(max, LastOf(log[..i + 1], first)) == Larger(before, last)
  {
    hide LogLength;
    RecordSnoc(log, i);
  }

  lemma ReadSurvives(file: ByteValues.Bytes, logged: seq<Batch>, read: seq<ByteValues.Bytes>)
    requires read <= FileRecords(logged) && |LogBytes(read)| <= |file|
    requires |read| < |FileRecords(logged)| ==> |LogBytes(FileRecords(logged)[..|read| + 1])| > |file|
    ensures Survive(file, logged, |read|)
  {
    hide LogBytes;
    assert FileRecords(logged)[..|read|] == read;
  }

  lemma RecordFacts(rd: Reading, logged: seq<Batch>, i: nat)
    requires i < |logged|
    ensures |LogIn(rd, logged)| == |logged| && LogIn(rd, logged)[i] == Record(logged[i].first, OpsIn(rd, logged[i].ops))
    ensures |OpsIn(rd, logged[i].ops)| == |logged[i].ops|
  {
  }

  /** RecoverLogFile, on what a crash left of a log: the batches that are there in full are replayed in order, full
      memtables becoming tables on the way, and the largest sequence number is kept track of. */
  method RecoverLogFile(file: ByteValues.Bytes, rd: Reading, full: seq<Entry> -> bool, paranoid: bool, max: nat,
                        ghost w: Writing, ghost log: seq<Record>, ghost first: nat)
    returns (tables: seq<seq<Entry>>, mem: seq<Entry>, max': nat, ok: bool, ghost n: nat)
    requires file <= LogBytes(FileRecords(Logged(w, log))) && (forall b :: b in Logged(w, log) ==> BatchFits(b))
    requires first > 0 && InSequence(log, first) && Legible(w, rd, log)
    ensures ok && Survive(file, Logged(w, log), n) && Layered(tables, mem)
    ensures n <= |log| && EntriesIn(tables, mem) == Replayed(log[..n])
    ensures max' == Larger(max, LastOf(log[..n], first))
    ensures (forall t :: t in tables ==> full(t)) && (mem != [] ==> !full(mem))
  {
    hide LogBytes, FileRecords, LogIn, Layered, EntriesIn, Sorted, Numbering, InSequence, Replayed, LogLength, Walked,
         Cooked, SequenceOf, CountOf, RecordIn, Survive, OpsIn, BatchFits, LastOf, ToSet, Legible, Logged, LogReader.Found;
    ghost var logged := Logged(w, log);
    LogLegible(w, rd, log);
    var records, reports;
    ghost var spans;
    records, reports, spans := LogReader.ReadLog(file, true, FileRecords(logged));
    n := |records|;
    Sizes(rd, logged);
    ReadSurvives(file, logged, records);
    tables, mem, max', ok := [], [], max, true;
    NothingYet(max, first);
    assert log[..0] == [];
    EmptySorted();
    var i := 0;
    while i < |records| && ok
      invariant i <= |records| && ok && Layered(tables, mem) && Sorted(mem)
      invariant EntriesIn(tables, mem) == Replayed(log[..i])
      invariant max' == Larger(max, LastOf(log[..i], first))
      invariant (forall t :: t in tables ==> full(t)) && (mem != [] ==> !full(mem))
    {
      var rep := Cooked(records[i]);
      RecordReads(rd, logged, i);
      RecordFacts(rd, logged, i);
      if |rep| < HEADER {
        ok := !paranoid;
      } else {
        var walk := Iterate(rep);
        MemBefore(log, first, i, tables, mem);
        ghost var before := mem;
        mem := InsertInto(OpsIn(rd, walk.handled), SequenceOf(rep), mem);
        OneMoreRecord(log, first, i, tables, before, mem);
        OneMoreLast(log, first, i, max);
        if walk.error != "" && paranoid {
          ok := false;
        } else {
          var last := SequenceOf(rep) + CountOf(rep) - 1;
          max' := if last > max' then last else max';
          if full(mem) {
            MemToTable(tables, mem);
            tables, mem := tables + [mem], [];
          }
        }
      }
      i := i + 1;
    }
  }

  lemma Sizes(rd: Reading, logged: seq<Batch>)
    ensures |LogIn(rd, logged)| == |logged| == |FileRecords(logged)|
  {
  }

  // ---- End to end ----------------------------------------------------------------------------------------------

  /** What was written reached the disk as far as the engine knows: the file is a prefix of the log's bytes with at
      least the records known to be synced. */
  ghost predicate Crashed(q: Queue, w: Writing, file: ByteValues.Bytes) {
    && q.synced <= |q.log| && file <= LogBytes(FileRecords(Logged(w, q.log)))
    && |LogBytes(FileRecords(Logged(w, q.log))[..q.synced])| <= |file|
  }

  lemma MoreBytes(records: seq<ByteValues.Bytes>, m: nat, n: nat)
    requires m <= n <= |records|
    ensures |LogBytes(records[..m])| <= |LogBytes(records[..n])|
  {
    hide LogBytes;
    LogGrows(records[..n], m);
    assert records[..n][..m] == records[..m];
  }

  lemma SyncedSurvive(q: Queue, w: Writing, file: ByteValues.Bytes, n: nat)
    requires Crashed(q, w, file) && Survive(file, Logged(w, q.log), n)
    ensures q.synced <= n <= |q.log|
  {
    hide LogBytes, FileRecords, Logged;
    LoggedSizes(w, q.log);
    if n < q.synced {
      MoreBytes(FileRecords(Logged(w, q.log)), n + 1, q.synced);
    }
  }

  lemma LoggedSizes(w: Writing, log: seq<Record>)
    ensures |FileRecords(Logged(w, log))| == |Logged(w, log)| == |log|
  {
  }

  /** In every run, at every moment: after a crash, what is recovered from the current log is the batches of the first k
      requests since that log was begun, each entirely, and every batch a synchronous write has returned for is among
      them. */
  lemma RecoveredAfterCrash(qs: seq<Queue>, es: seq<Event>, i: nat, w: Writing, file: ByteValues.Bytes, n: nat,
                            recovered: set<Entry>)
    returns (k: nat)
    requires Run(qs, es) && i <= |es| && Crashed(qs[i], w, file) && Survive(file, Logged(w, qs[i].log), n)
    requires n <= |qs[i].log| && recovered == Replayed(qs[i].log[..n])
    ensures k <= |qs[i].arrived| && recovered == Since(Numbering(Flatten(qs[i].arrived[..k]), 1), qs[i].base)
    ensures forall j :: 0 <= j < qs[i].done && j < |qs[i].arrived| && qs[i].arrived[j].sync && qs[i].arrived[j].ops.Some?
                        ==> Since(BatchEntries(qs[i], j), qs[i].base) <= recovered
  {
    hide Step, Inv, LogOk, Numbering, Flatten, Replayed, Since, BatchEntries, Logged, Survive, LogBytes, FileRecords;
    RunsKeepLog(qs, es, i);
    SyncedSurvive(qs[i], w, file, n);
    k := PrefixIsBatches(qs[i], n);
  }

  /** Recovering from the whole log of an idle engine gives back what its memtable holds, the very same list if no table
      was written on the way, and its last sequence number. */
  lemma RecoveredIsMemTable(q: Queue, mem: seq<Entry>, tables: seq<seq<Entry>>, recovered: seq<Entry>)
    requires Inv(q) && q.phase == Open && Sorted(mem) && ToSet(mem) == q.mem
    requires Layered(tables, recovered) && EntriesIn(tables, recovered) == Replayed(q.log)
    ensures EntriesIn(tables, recovered) == q.mem && (tables == [] ==> recovered == mem)
    ensures q.log != [] ==> LastOf(q.log, q.base) == q.last
  {
    hide Replayed, Flatten, Numbering, Stored, InSequence, Sorted, LogLength;
    if tables == [] {
      assert EntriesIn(tables, recovered) == ToSet(recovered);
      SortedUnique(mem, recovered);
    }
  }
}
