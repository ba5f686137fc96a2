/** Group commit (DBImpl::Write, BuildBatchGroup): a queue of writers whose head logs and applies a batch for several
    of them. */
module GroupCommit {
  import opened InternalKeys
  import opened Visibility
  import opened Batches
  import opened MemTables

  /** A call of Write: its batch, none for a request to compact, and whether it waits for the disk. */
  datatype Request = Request(ops: Option<seq<Op>>, sync: bool)

  /** A log record: the batch of a group, with its first sequence number; sync as its leader asked. */
  datatype Record = Record(first: nat, ops: seq<Op>)

  function OpsOf(r: Request): seq<Op> {
    if r.ops.Some? then r.ops.value else []
  }

  /** All operations of a list of requests, in order. */
  function Flatten(rs: seq<Request>): seq<Op> {
    if rs == [] then [] else Flatten(rs[..|rs| - 1]) + OpsOf(rs[|rs| - 1])
  }

  lemma {:induction false} FlattenConcat(a: seq<Request>, b: seq<Request>)
    ensures Flatten(a + b) == Flatten(a) + Flatten(b)
  {
    if b == [] {
      assert a + b == a;
    } else {
      var n := |b| - 1;
      assert (a + b)[..|a| + n] == a + b[..n];
      FlattenConcat(a, b[..n]);
      assert Flatten(a) + (Flatten(b[..n]) + OpsOf(b[n])) == Flatten(a) + Flatten(b[..n]) + OpsOf(b[n]);
    }
  }

  lemma FlattenSplit(rs: seq<Request>, i: nat, j: nat)
    requires i <= j <= |rs|
    ensures Flatten(rs[..j]) == Flatten(rs[..i]) + Flatten(rs[i..j])
  {
    assert rs[..j] == rs[..i] + rs[i..j];
    FlattenConcat(rs[..i], rs[i..j]);
  }

  // ---- The group ---------------------------------------------------------------------------------------------

  function TotalSize(rs: seq<Request>, size: seq<Op> -> nat): nat {
    if rs == [] then 0
    else TotalSize(rs[..|rs| - 1], size) + if rs[|rs| - 1].ops.Some? then size(rs[|rs| - 1].ops.value) else 0
  }

  /** Request r cannot join the group in front of it: it waits for the disk and the leader does not, or the group would
      grow past 1 MiB, or past 128 KiB more than a first batch of at most 128 KiB. */
  predicate Stops(group: seq<Request>, r: Request, size: seq<Op> -> nat)
    requires group != [] && group[0].ops.Some?
  {
    || (r.sync && !group[0].sync)
    || (r.ops.Some? &&
        var first, total := size(group[0].ops.value), TotalSize(group + [r], size);
        if first > 131072 then total > 1048576 else total - first > 131072)
  }

  /** BuildBatchGroup: the longest prefix of the queue such that nobody waiting for the disk joins a leader that does
      not, and the batch stays small; its batch is the concatenation. */
  method BuildBatchGroup(queue: seq<Request>, size: seq<Op> -> nat) returns (n: nat, batch: seq<Op>)
    requires queue != [] && queue[0].ops.Some?
    ensures 1 <= n <= |queue| && batch == Flatten(queue[..n])
    ensures forall i :: 1 <= i < n ==> !Stops(queue[..i], queue[i], size)
    ensures n < |queue| ==> Stops(queue[..n], queue[n], size)
  {
    hide Flatten, TotalSize;
    var first := queue[0];
    batch := first.ops.value;
    var total := size(batch);
    var max := 1048576;
    if total <= 131072 {
      max := total + 131072;
    }
    n := 1;
    OneRequest(queue, size);
    while n < |queue|
      invariant 1 <= n <= |queue| && batch == Flatten(queue[..n]) && total == TotalSize(queue[..n], size)
      invariant forall i :: 1 <= i < n ==> !Stops(queue[..i], queue[i], size)
    {
      var r := queue[n];
      OneMoreRequest(queue, n, size);
      if r.sync && !first.sync {
        return;
      }
      if r.ops.Some? {
        total := total + size(r.ops.value);
        if total > max {
          return;
        }
        batch := batch + r.ops.value;
      }
      n := n + 1;
    }
  }

  lemma OneMoreRequest(queue: seq<Request>, n: nat, size: seq<Op> -> nat)
    requires n < |queue|
    ensures queue[..n] + [queue[n]] == queue[..n + 1]
    ensures Flatten(queue[..n + 1]) == Flatten(queue[..n]) + OpsOf(queue[n])
    ensures TotalSize(queue[..n + 1], size)
            == TotalSize(queue[..n], size) + if queue[n].ops.Some? then size(queue[n].ops.value) else 0
  {
    assert queue[..n + 1][..n] == queue[..n];
  }

  lemma OneRequest(queue: seq<Request>, size: seq<Op> -> nat)
    requires queue != [] && queue[0].ops.Some?
    ensures Flatten(queue[..1]) == queue[0].ops.value && TotalSize(queue[..1], size) == size(queue[0].ops.value)
  {
    assert queue[..1][..0] == [];
    assert Flatten(queue[..1]) == Flatten(queue[..1][..0]) + OpsOf(queue[0]);
  }

  // ---- The protocol ------------------------------------------------------------------------------------------

  /** How far the leader is with the first n requests of the queue. */
  datatype Phase = Open | Chosen(n: nat) | Logged(n: nat) | Applied(n: nat)

  /** arrived lists every request ever made; the first done of them have returned, the rest are queued. base is the
      sequence number the current log begins at, synced counts its records known to be on disk; sealed holds earlier
      logs with their memtables. */
  datatype Queue = Queue(arrived: seq<Request>, done: nat, phase: Phase, last: nat, base: nat, log: seq<Record>,
                         synced: nat, mem: set<Entry>, sealed: seq<(seq<Record>, set<Entry>)>)

  ghost function Replayed(log: seq<Record>): set<Entry> {
    if log == [] then {}
    else Replayed(log[..|log| - 1]) + Numbering(log[|log| - 1].ops, log[|log| - 1].first)
  }

  function GroupOps(q: Queue): seq<Op>
    requires q.phase != Open && q.done + q.phase.n <= |q.arrived|
  {
    Flatten(q.arrived[q.done..q.done + q.phase.n])
  }

  ghost predicate InGroup(q: Queue) {
    q.phase != Open && q.phase.n > 0 && q.done + q.phase.n <= |q.arrived|
  }

  datatype Event = Enqueue(r: Request) | Rotate | Choose(n: nat) | Log | Apply | Finish | Pass

  ghost predicate Step(q: Queue, e: Event, q': Queue) {
    match e
    case Enqueue(r) =>
      q' == q.(arrived := q.arrived + [r])
    // MakeRoomForWrite at the head of the queue may start a new log and memtable.
    case Rotate =>
      && q.phase == Open && q.done < |q.arrived|
      && q' == q.(base := q.last + 1, log := [], synced := 0, mem := {}, sealed := q.sealed + [(q.log, q.mem)])
    case Choose(n) =>
      && q.phase == Open && 1 <= n && q.done + n <= |q.arrived| && q.arrived[q.done].ops.Some?
      && (forall i :: q.done <= i < q.done + n ==> q.arrived[i].sync ==> q.arrived[q.done].sync)
      && q' == q.(phase := Chosen(n))
    // The lock is not held from here to Finish; only the leader does these.
    case Log =>
      && InGroup(q) && q.phase.Chosen?
      && var log := q.log + [Record(q.last + 1, GroupOps(q))];
      && q' == q.(phase := Logged(q.phase.n), log := log, synced := if q.arrived[q.done].sync then |log| else q.synced)
    case Apply =>
      && InGroup(q) && q.phase.Logged?
      && q' == q.(phase := Applied(q.phase.n), mem := q.mem + Numbering(GroupOps(q), q.last + 1))
    case Finish =>
      && InGroup(q) && q.phase.Applied?
      && q' == q.(phase := Open, done := q.done + q.phase.n, last := q.last + |GroupOps(q)|)
    // A request without a batch at the head returns by itself.
    case Pass =>
      && q.phase == Open && q.done < |q.arrived| && q.arrived[q.done].ops.None?
      && q' == q.(done := q.done + 1)
  }

  /** How many requests the memtables and the logs hold the batches of. */
  function AppliedCount(q: Queue): nat {
    q.done + if q.phase.Applied? then q.phase.n else 0
  }

  ghost function Stored(q: Queue): set<Entry> {
    (set p, e | p in q.sealed && e in p.1 :: e) + q.mem
  }

  /** Records follow each other in sequence. */
  ghost predicate InSequence(log: seq<Record>, first: nat) {
    forall i :: 0 <= i < |log| ==> log[i].first == first + LogLength(log[..i])
  }

  function LogLength(log: seq<Record>): nat {
    if log == [] then 0 else LogLength(log[..|log| - 1]) + |log[|log| - 1].ops|
  }

  /** The memtables hold exactly the batches of the requests served, in arrival order, under consecutive sequence
      numbers from 1; every memtable is what its log replays to, but for a group logged and not yet applied. */
  ghost predicate Inv(q: Queue) {
    && q.done <= |q.arrived| && (q.phase != Open ==> InGroup(q))
    && q.last == |Flatten(q.arrived[..q.done])|
    && AppliedCount(q) <= |q.arrived| && Stored(q) == Numbering(Flatten(q.arrived[..AppliedCount(q)]), 1)
    && (forall p :: p in q.sealed ==> Replayed(p.0) == p.1)
    && Replayed(q.log) == (if q.phase.Logged? then q.mem + Numbering(GroupOps(q), q.last + 1) else q.mem)
    && q.base > 0 && InSequence(q.log, q.base)
    && q.base + LogLength(q.log) == q.last + 1 + (if q.phase.Logged? || q.phase.Applied? then |GroupOps(q)| else 0)
    && (q.phase.Logged? || q.phase.Applied? ==>
          q.arrived[q.done].sync ==> q.synced == |q.log|)
    && (q.phase != Open ==> forall i :: q.done <= i < q.done + q.phase.n ==> q.arrived[i].sync ==> q.arrived[q.done].sync)
  }

  ghost predicate Init(q: Queue) {
    q == Queue([], 0, Open, 0, 1, [], 0, {}, [])
  }

  lemma ReplayedSnoc(log: seq<Record>, r: Record)
    ensures Replayed(log + [r]) == Replayed(log) + Numbering(r.ops, r.first)
  {
    assert (log + [r])[..|log|] == log;
  }

  lemma SequenceSnoc(log: seq<Record>, first: nat, r: Record)
    requires InSequence(log, first) && r.first == first + LogLength(log)
    ensures InSequence(log + [r], first) && LogLength(log + [r]) == LogLength(log) + |r.ops|
  {
    assert (log + [r])[..|log|] == log;
    assert forall i :: 0 <= i < |log| ==> (log + [r])[..i] == log[..i];
  }

  lemma StepKeepsInv(q: Queue, e: Event, q': Queue)
    requires Inv(q) && Step(q, e, q')
    ensures Inv(q')
  {
    hide Inv, Numbering, Flatten, Replayed;
    match e
    case Enqueue(r) => EnqueueKeeps(q, r);
    case Rotate => RotateKeeps(q);
    case Choose(n) => ChooseKeeps(q, n);
    case Log => LogKeeps(q, q');
    case Apply => ApplyKeeps(q, q');
    case Finish => FinishKeeps(q, q');
    case Pass => PassKeeps(q);
  }

  lemma ChooseKeeps(q: Queue, n: nat)
    requires Inv(q) && Step(q, Choose(n), q.(phase := Chosen(n)))
    ensures Inv(q.(phase := Chosen(n)))
  {
    hide Numbering, Flatten, Replayed, Stored;
    SameStored(q, q.(phase := Chosen(n)));
  }

  lemma LogKeeps(q: Queue, q': Queue)
    requires Inv(q) && Step(q, Log, q')
    ensures Inv(q')
  {
    hide Numbering, Flatten, Replayed, Stored;
    hide InSequence, LogLength;
    ReplayedSnoc(q.log, Record(q.last + 1, GroupOps(q)));
    SequenceSnoc(q.log, q.base, Record(q.last + 1, GroupOps(q)));
    SameStored(q, q');
  }

  lemma FinishKeeps(q: Queue, q': Queue)
    requires Inv(q) && Step(q, Finish, q')
    ensures Inv(q')
  {
    hide Numbering, Flatten, Replayed, Stored;
    FlattenSplit(q.arrived, q.done, q.done + q.phase.n);
    SameStored(q, q');
  }

  lemma EnqueueKeeps(q: Queue, r: Request)
    requires Inv(q)
    ensures Inv(q.(arrived := q.arrived + [r]))
  {
    hide Numbering, Flatten, Replayed, Stored;
    var q' := q.(arrived := q.arrived + [r]);
    assert q'.arrived[..q.done] == q.arrived[..q.done];
    assert q'.arrived[..AppliedCount(q)] == q.arrived[..AppliedCount(q)];
    SameStored(q, q');
    if q.phase != Open {
      assert q'.arrived[q.done..q.done + q.phase.n] == q.arrived[q.done..q.done + q.phase.n];
    }
  }

  lemma SameStored(q: Queue, q': Queue)
    requires q'.sealed == q.sealed && q'.mem == q.mem
    ensures Stored(q') == Stored(q)
  {
  }

  lemma RotateKeeps(q: Queue)
    requires Inv(q) && q.phase == Open
    ensures Inv(q.(base := q.last + 1, log := [], synced := 0, mem := {}, sealed := q.sealed + [(q.log, q.mem)]))
  {
    hide Numbering, Flatten;
    var q' := q.(base := q.last + 1, log := [], synced := 0, mem := {}, sealed := q.sealed + [(q.log, q.mem)]);
    assert (q.log, q.mem) in q'.sealed;
    assert Stored(q') == Stored(q);
  }

  lemma ApplyKeeps(q: Queue, q': Queue)
    requires Inv(q) && Step(q, Apply, q')
    ensures Inv(q')
  {
    hide Numbering, Flatten, Replayed;
    var n := q.phase.n;
    FlattenSplit(q.arrived, q.done, q.done + n);
    NumberingConcat(Flatten(q.arrived[..q.done]), GroupOps(q), 1);
    assert Stored(q') == Stored(q) + Numbering(GroupOps(q), q.last + 1);
  }

  lemma PassKeeps(q: Queue)
    requires Inv(q) && q.phase == Open && q.done < |q.arrived| && q.arrived[q.done].ops.None?
    ensures Inv(q.(done := q.done + 1))
  {
    hide Numbering, Replayed, Flatten, Stored;
    PassedNothing(q.arrived, q.done);
    SameStored(q, q.(done := q.done + 1));
  }

  lemma PassedNothing(rs: seq<Request>, i: nat)
    requires i < |rs| && rs[i].ops.None?
    ensures Flatten(rs[..i + 1]) == Flatten(rs[..i])
  {
    assert rs[..i + 1][..i] == rs[..i];
  }

  // ---- What every run promises -------------------------------------------------------------------------------

  ghost predicate Run(qs: seq<Queue>, es: seq<Event>) {
    |qs| == |es| + 1 && Init(qs[0]) && forall i :: 0 <= i < |es| ==> Step(qs[i], es[i], qs[i + 1])
  }

  lemma InitFine(q: Queue)
    requires Init(q)
    ensures Inv(q)
  {
    assert q.arrived[..0] == [];
    assert Stored(q) == {} && Numbering([], 1) == {};
  }

  /** In every run every batch is applied once, in arrival order, under consecutive sequence numbers. */
  lemma {:induction false} RunsKeepInv(qs: seq<Queue>, es: seq<Event>, i: nat)
    requires Run(qs, es) && i <= |es|
    ensures Inv(qs[i])
  {
    hide Inv, Step, Init;
    if i == 0 {
      InitFine(qs[0]);
    } else {
      RunsKeepInv(qs, es, i - 1);
      StepKeepsInv(qs[i - 1], es[i - 1], qs[i]);
    }
  }

  /** What a reader at LastSequence sees, even between Apply and Finish: the batches of the requests that returned,
      each entirely, and nothing else. */
  lemma VisibleIsDone(q: Queue)
    requires Inv(q)
    ensures (set e | e in Stored(q) && e.key.seqno <= q.last) == Numbering(Flatten(q.arrived[..q.done]), 1)
  {
    hide Numbering, Flatten, Stored, Replayed, InSequence;
    var n := AppliedCount(q) - q.done;
    var old', group := Flatten(q.arrived[..q.done]), Flatten(q.arrived[q.done..q.done + n]);
    FlattenSplit(q.arrived, q.done, q.done + n);
    NumberingConcat(old', group, 1);
    NumberingBounds(old', 1);
    NumberingBounds(group, 1 + |old'|);
    CutAt(Numbering(old', 1), Numbering(group, 1 + |old'|), q.last);
  }

  lemma CutAt(a: set<Entry>, b: set<Entry>, s: nat)
    requires (forall e :: e in a ==> e.key.seqno <= s) && (forall e :: e in b ==> e.key.seqno > s)
    ensures (set e | e in a + b && e.key.seqno <= s) == a
  {
  }

  /** A snapshot taken at any time never splits a batch, whatever is written later. */
  lemma SnapshotsSeeWholeBatches(q: Queue, q': Queue, k: nat, e: Entry, f: Entry)
    requires Inv(q) && q.arrived <= q'.arrived && k < |q'.arrived|
    requires e in BatchEntries(q', k) && f in BatchEntries(q', k)
    ensures e.key.seqno <= q.last <==> f.key.seqno <= q.last
  {
    hide Numbering, Flatten, Stored, Replayed, InSequence, BatchEntries;
    BatchRange(q', k, e);
    BatchRange(q', k, f);
    assert q'.arrived[..q.done] == q.arrived[..q.done];
    if k < q.done {
      FlattenSplit(q'.arrived, k + 1, q.done);
    } else {
      FlattenSplit(q'.arrived, q.done, k);
    }
  }

  lemma BatchRange(q: Queue, k: nat, e: Entry)
    requires k < |q.arrived| && e in BatchEntries(q, k)
    ensures |Flatten(q.arrived[..k])| < e.key.seqno <= |Flatten(q.arrived[..k + 1])|
  {
    hide Numbering, Flatten;
    NumberingBounds(OpsOf(q.arrived[k]), 1 + |Flatten(q.arrived[..k])|);
    OneMoreRequest(q.arrived, k, (s: seq<Op>) => 0);
  }

  /** The entries of request k's batch. */
  ghost function BatchEntries(q: Queue, k: nat): set<Entry>
    requires k < |q.arrived|
  {
    Numbering(OpsOf(q.arrived[k]), 1 + |Flatten(q.arrived[..k])|)
  }

  /** A served batch is in the memtables in full. */
  lemma ServedIsStored(q: Queue, k: nat)
    requires Inv(q) && k < q.done
    ensures BatchEntries(q, k) <= Stored(q)
  {
    hide Numbering, Flatten, Stored, Replayed;
    var n := AppliedCount(q);
    FlattenSplit(q.arrived, k + 1, n);
    OneMoreRequest(q.arrived, k, (s: seq<Op>) => 0);
    NumberingConcat(Flatten(q.arrived[..k]), OpsOf(q.arrived[k]), 1);
    NumberingConcat(Flatten(q.arrived[..k + 1]), Flatten(q.arrived[k + 1..n]), 1);
  }

  /** When the writers of a group are released and one of them waited for the disk, all that was logged is there. */
  lemma SyncedOnReturn(q: Queue, q': Queue, i: nat)
    requires Inv(q) && Step(q, Finish, q') && q.done <= i < q'.done && q.arrived[i].sync
    ensures q'.synced == |q'.log|
  {
    hide Numbering, Flatten, Stored, Replayed;
  }

  // ---- The code that runs the protocol -----------------------------------------------------------------------

  class WriteQueue {
    const size: seq<Op> -> nat
    var writers: seq<Request>
    var lastSequence: nat
    var log: seq<Record>
    var synced: nat
    var mem: seq<Entry>
    ghost var returned: seq<Request>
    ghost var base: nat
    ghost var sealed: seq<(seq<Record>, set<Entry>)>

    ghost function Abs(): Queue
      reads this
    {
      Queue(returned + writers, |returned|, Open, lastSequence, base, log, synced, ToSet(mem), sealed)
    }

    ghost predicate Valid()
      reads this
    {
      Sorted(mem) && Inv(Abs())
    }

    constructor (size: seq<Op> -> nat)
      ensures Valid() && Init(Abs())
    {
      this.size := size;
      writers, lastSequence, log, synced, mem := [], 0, [], 0, [];
      returned, base, sealed := [], 1, [];
      new;
      InitFine(Abs());
    }

    method Push(r: Request)
      requires Valid()
      modifies this
      ensures Valid() && Step(old(Abs()), Enqueue(r), Abs())
    {
      hide Inv, Sorted, ToSet;
      ghost var before := Abs();
      assert returned + (writers + [r]) == returned + writers + [r];
      writers := writers + [r];
      StepKeepsInv(before, Enqueue(r), Abs());
    }

    /** A new log and memtable, as MakeRoomForWrite may start for the head of the queue. */
    method NewLog()
      requires Valid() && writers != []
      modifies this
      ensures Valid() && Step(old(Abs()), Rotate, Abs())
    {
      hide Inv;
      ghost var before := Abs();
      sealed := sealed + [(log, ToSet(mem))];
      base, log, synced, mem := lastSequence + 1, [], 0, [];
      StepKeepsInv(before, Rotate, Abs());
    }

    /** The writer at the head of the queue, from MakeRoomForWrite on: every change it makes is a step of the
        protocol. */
    method CommitHead() returns (ghost qs: seq<Queue>, ghost es: seq<Event>)
      requires Valid() && writers != []
      modifies this
      ensures Valid() && Steps(qs, es) && qs[0] == old(Abs()) && qs[|es|] == Abs()
      ensures Served(old(writers), writers, size)
    {
      hide Inv, Sorted, ToSet, Flatten, Replayed, Step;
      if writers[0].ops.None? {
        ghost var q0 := Abs();
        PassIsStep(q0);
        Release(1);
        StepKeepsInv(q0, Pass, Abs());
        qs, es := [q0, Abs()], [Pass];
      } else {
        qs, es := CommitGroup();
      }
    }

    /** Pops the first n writers. */
    method Release(n: nat)
      requires n <= |writers|
      modifies this`writers, this`returned
      ensures writers == old(writers)[n..] && returned == old(returned) + old(writers)[..n]
      ensures returned + writers == old(returned + writers) && |returned| == |old(returned)| + n
    {
      ghost var all := returned + writers;
      assert writers == writers[..n] + writers[n..];
      returned := returned + writers[..n];
      writers := writers[n..];
      assert returned + writers == all;
    }

    method CommitGroup() returns (ghost qs: seq<Queue>, ghost es: seq<Event>)
      requires Valid() && writers != [] && writers[0].ops.Some?
      modifies this
      ensures Valid() && Steps(qs, es) && qs[0] == old(Abs()) && qs[|es|] == Abs()
      ensures Served(old(writers), writers, size)
    {
      hide Inv, Sorted, ToSet, Numbering, Flatten, Replayed, Step, InGroup, GroupOps, Stops;
      ghost var q0 := Abs();
      MemBounded(q0, mem);
      var n, batch := BuildBatchGroup(writers, size);
      GroupIsChosen(q0, returned, writers, n, size);
      ghost var q1 := q0.(phase := Chosen(n));
      StepKeepsInv(q0, Choose(n), q1);
      var first := lastSequence + 1;
      log := log + [Record(first, batch)];
      if writers[0].sync {
        synced := |log|;
      }
      ghost var q2 := q1.(phase := Logged(n), log := log, synced := synced);
      LogIsStep(q1, n);
      StepKeepsInv(q1, Log, q2);
      mem := InsertInto(batch, first, mem);
      ghost var q3 := q2.(phase := Applied(n), mem := ToSet(mem));
      SameGroup(q1, q2);
      ApplyIsStep(q2, n);
      StepKeepsInv(q2, Apply, q3);
      lastSequence := lastSequence + |batch|;
      Release(n);
      SameGroup(q1, q3);
      FinishIsStep(q3, n);
      StepKeepsInv(q3, Finish, Abs());
      qs, es := [q0, q1, q2, q3, Abs()], [Choose(n), Log, Apply, Finish];
    }
  }

  /** Who has returned when the head of the queue is done: the head alone if it brings no batch, otherwise the longest
      group that may go together. */
  ghost predicate Served(queue: seq<Request>, rest: seq<Request>, size: seq<Op> -> nat) {
    && queue != [] && |rest| < |queue| && rest == queue[|queue| - |rest|..]
    && var n := |queue| - |rest|;
       if queue[0].ops.None? then n == 1
       else (forall i :: 1 <= i < n ==> !Stops(queue[..i], queue[i], size)) && (rest != [] ==> Stops(queue[..n], queue[n], size))
  }

  ghost predicate Steps(qs: seq<Queue>, es: seq<Event>) {
    |qs| == |es| + 1 && forall i :: 0 <= i < |es| ==> Step(qs[i], es[i], qs[i + 1])
  }

  lemma SameGroup(q: Queue, q': Queue)
    requires InGroup(q) && q'.phase != Open && q'.arrived == q.arrived && q'.done == q.done && q'.phase.n == q.phase.n
    ensures InGroup(q') && GroupOps(q') == GroupOps(q)
  {
  }

  lemma PassIsStep(q: Queue)
    requires q.phase == Open && q.done < |q.arrived| && q.arrived[q.done].ops.None?
    ensures Step(q, Pass, q.(done := q.done + 1))
  {
  }

  lemma LogIsStep(q: Queue, n: nat)
    requires q.phase == Chosen(n) && InGroup(q)
    ensures Step(q, Log, q.(phase := Logged(n), log := q.log + [Record(q.last + 1, GroupOps(q))],
                            synced := if q.arrived[q.done].sync then |q.log| + 1 else q.synced))
  {
  }

  lemma ApplyIsStep(q: Queue, n: nat)
    requires q.phase == Logged(n) && InGroup(q)
    ensures Step(q, Apply, q.(phase := Applied(n), mem := q.mem + Numbering(GroupOps(q), q.last + 1)))
  {
  }

  lemma FinishIsStep(q: Queue, n: nat)
    requires q.phase == Applied(n) && InGroup(q)
    ensures Step(q, Finish, q.(phase := Open, done := q.done + n, last := q.last + |GroupOps(q)|))
  {
  }

  lemma GroupIsChosen(q: Queue, returned: seq<Request>, writers: seq<Request>, n: nat, size: seq<Op> -> nat)
    requires q.phase == Open && q.arrived == returned + writers && q.done == |returned| && 1 <= n <= |writers|
    requires writers[0].ops.Some? && forall i :: 1 <= i < n ==> !Stops(writers[..i], writers[i], size)
    ensures Step(q, Choose(n), q.(phase := Chosen(n)))
    ensures InGroup(q.(phase := Chosen(n))) && InGroup(q.(phase := Logged(n))) && InGroup(q.(phase := Applied(n)))
    ensures q.done < |q.arrived| && q.arrived[q.done] == writers[0]
    ensures GroupOps(q.(phase := Chosen(n))) == GroupOps(q.(phase := Logged(n)))
            == GroupOps(q.(phase := Applied(n))) == Flatten(writers[..n])
  {
    hide Flatten, TotalSize;
    assert q.arrived[q.done..q.done + n] == writers[..n];
    forall i | 0 < i < n ensures writers[i].sync ==> writers[0].sync {
      assert !Stops(writers[..i], writers[i], size);
    }
    forall i | q.done <= i < q.done + n ensures q.arrived[i].sync ==> q.arrived[q.done].sync {
      assert q.arrived[i] == writers[i - q.done];
    }
  }

  lemma MemBounded(q: Queue, mem: seq<Entry>)
    requires Inv(q) && q.phase == Open && q.mem == ToSet(mem)
    ensures forall e :: e in mem ==> e.key.seqno < q.last + 1
  {
    NumberingBounds(Flatten(q.arrived[..q.done]), 1);
    assert q.mem <= Stored(q) && forall e :: e in mem ==> e in ToSet(mem);
  }
}
