/** A run in which the checksum pool fails while a read is in flight: the invariant is lost. */
module RestoreLostRead {
  import opened Collections
  import opened Octets
  import opened RestoreModel
  import opened RestoreInvariant
  import opened RestoreSystem
  import opened RestoreRuns
  import opened RestoreTheorems
  import opened RestoreLoss
  import opened RestoreValidator
  import CircularSearch
  import B = DirectBuffers
  import D = DirectDescriptors

  const CONFIG: Config := Config(2, 1, 2, 4_038_656, 4_028_928, 2, 2)

  function Extent(i: nat): ExtentRecord {
    ExtentRecord(Target, 2_019_328, i)
  }

  /** Two reads are submitted; the first completes and its checksum makes the only worker panic. */
  function Steps(): seq<Operation> {
    [Starts(1),
     Plans(Request(1, 7, Target), Extent(1), 1, 1), Reserves(1), Submits(1),
     Plans(Request(2, 7, Target), Extent(2), 1, 1), Reserves(2), Submits(2),
     CompletesRead(1, ExactRead),
     Dispatches, WorkerTake(0), WorkerVerify(0, true), WorkerSend(0)]
  }

  const BUFFER: B.Slot := B.Slot(0, B.Free, Zeros(B.BUFFER_BYTES))

  function Buffer(i: nat): B.BufferId {
    B.BufferId(i, 1)
  }

  function Slots(first: B.BufferState, second: B.BufferState): seq<B.Slot> {
    [BUFFER.(generation := if first.Free? then 0 else 1, state := first),
     BUFFER.(generation := if second.Free? then 0 else 1, state := second)]
  }

  function Descriptor(i: nat): D.Slot {
    D.Slot(1, false, Some(D.Entry(BindingOf(i + 1, Buffer(i)), true, false)))
  }

  const VACANT: D.Slot := D.Slot(0, false, None)

  function Planned(i: nat): Ticket {
    NewTicket(Extent(i), 1, 1, Request(i, 7, Target))
  }

  function Reserved(i: nat): Ticket
    requires i > 0
  {
    Planned(i).(state := BufferReserved, buffer := Some(Buffer(i - 1)))
  }

  function Submitted(i: nat): Ticket
    requires i > 0
  {
    Reserved(i).(state := ReadSubmitted, originalPending := true, originalToken := Some(D.Pack(i - 1, 1, false)), hash := HashReserved)
  }

  function Ready(hash: HashState): Ticket {
    Reserved(1).(state := DataReady, hash := hash)
  }

  function Idlers(): Workers {
    Workers(2, [], [Idle], [], false)
  }

  // ---------------------------------------------------------------- the tables of the run

  function Started(): Table {
    NewTable(CONFIG).(workers := Some(Idlers()))
  }

  function FirstPlanned(): Table {
    Started().(nextTicket := 2, tickets := map[1 := Planned(1)], requests := map[1 := 1], charges := map[7 := 2_014_464],
               physical := 2_019_328)
  }

  function FirstReserved(): Table {
    FirstPlanned().(tickets := map[1 := Reserved(1)], buffers := B.Pool(Slots(B.ReadQueued, B.Free), 1))
  }

  function FirstSubmitted(): Table {
    FirstPlanned().(tickets := map[1 := Submitted(1)], buffers := B.Pool(Slots(B.ReadInflight, B.Free), 1), hashJobs := 1,
                    descriptors := D.Descriptors([Descriptor(0), VACANT], 1), cq := Cq(2, 4, 1, 0, 0))
  }

  function SecondPlanned(): Table {
    FirstSubmitted().(nextTicket := 3, tickets := map[1 := Submitted(1), 2 := Planned(2)], requests := map[1 := 1, 2 := 2],
                      charges := map[7 := 4_028_928], physical := 4_038_656)
  }

  function SecondReserved(): Table {
    SecondPlanned().(tickets := map[1 := Submitted(1), 2 := Reserved(2)], buffers := B.Pool(Slots(B.ReadInflight, B.ReadQueued), 0))
  }

  function SecondSubmitted(): Table {
    SecondPlanned().(tickets := map[1 := Submitted(1), 2 := Submitted(2)], hashJobs := 2,
                     buffers := B.Pool(Slots(B.ReadInflight, B.ReadInflight), 0),
                     descriptors := D.Descriptors([Descriptor(0), Descriptor(1)], 0), cq := Cq(2, 4, 2, 0, 0))
  }

  function FirstReady(hash: HashState, workers: Workers): Table {
    SecondSubmitted().(tickets := map[1 := Ready(hash), 2 := Submitted(2)], workers := Some(workers),
                       buffers := B.Pool(Slots(B.HashingForRead, B.ReadInflight), 0),
                       descriptors := D.Descriptors([D.Slot(1, false, None), Descriptor(1)], 0), cq := Cq(2, 4, 1, 0, 0))
  }

  function TheTask(): Task {
    Task(HashJob(1, Buffer(0)), Extent(1))
  }

  function ThePanic(): Completion {
    Completion(HashJob(1, Buffer(0)), Panicked)
  }

  function Panicky(): Table {
    FirstReady(HashRunning, Idlers().(threads := [Exited], completions := [ThePanic()]))
  }

  // ---------------------------------------------------------------- the run

  lemma PlansFirst()
    ensures Plan(Started(), Request(1, 7, Target), Extent(1), 1, 1).table == FirstPlanned()
  {
  }

  lemma ReservesFirst()
    ensures ReserveBuffer(FirstPlanned(), 1).table == FirstReserved()
  {
    assert CircularSearch.Position(2, 0, 0) == 0;
    assert FirstPlanned().buffers.slots == Slots(B.Free, B.Free);
  }

  lemma AllocatesFirst()
    ensures D.Allocate(FirstReserved().descriptors, BindingOf(1, Buffer(0))) ==
            (FirstSubmitted().descriptors, Ok(D.Pack(0, 1, false)))
  {
    assert CircularSearch.Position(2, 0, 0) == 0;
    assert FirstReserved().descriptors.slots == [VACANT, VACANT];
    assert [VACANT, VACANT][0 := Descriptor(0)] == [Descriptor(0), VACANT];
  }

  lemma MovesFirst()
    ensures B.Transition(FirstReserved().buffers, Buffer(0), B.ReadInflight) == Ok(FirstSubmitted().buffers)
  {
    assert FirstReserved().buffers.slots[0 := FirstSubmitted().buffers.slots[0]] == FirstSubmitted().buffers.slots;
  }

  lemma SubmitsFirst()
    ensures SubmitRead(FirstReserved(), 1).table == FirstSubmitted()
  {
    hide D.Allocate, B.Transition, D.Pack, Slots;
    AllocatesFirst();
    MovesFirst();
  }

  lemma PlansSecond()
    ensures Plan(FirstSubmitted(), Request(2, 7, Target), Extent(2), 1, 1).table == SecondPlanned()
  {
    assert |map[1 := Submitted(1)]| == 1;
  }

  lemma ReservesSecond()
    ensures ReserveBuffer(SecondPlanned(), 2).table == SecondReserved()
  {
    assert CircularSearch.Position(2, 1, 0) == 1;
  }

  lemma AllocatesSecond()
    ensures D.Allocate(SecondReserved().descriptors, BindingOf(2, Buffer(1))) ==
            (SecondSubmitted().descriptors, Ok(D.Pack(1, 1, false)))
  {
    assert CircularSearch.Position(2, 1, 0) == 1;
    assert [Descriptor(0), VACANT][1 := Descriptor(1)] == [Descriptor(0), Descriptor(1)];
  }

  lemma MovesSecond()
    ensures B.Transition(SecondReserved().buffers, Buffer(1), B.ReadInflight) == Ok(SecondSubmitted().buffers)
  {
    assert SecondReserved().buffers.slots[1 := SecondSubmitted().buffers.slots[1]] == SecondSubmitted().buffers.slots;
  }

  lemma SubmitsSecond()
    ensures SubmitRead(SecondReserved(), 2).table == SecondSubmitted()
  {
    hide D.Allocate, B.Transition, D.Pack, Slots;
    AllocatesSecond();
    MovesSecond();
  }

  lemma ReapsFirst()
    ensures D.Resolve(SecondSubmitted().descriptors, D.Pack(0, 1, false)) == Ok(BindingOf(1, Buffer(0)))
    ensures D.Complete(SecondSubmitted().descriptors, D.Pack(0, 1, false)) == Ok(FirstReady(HashQueued, Idlers()).descriptors)
  {
    D.PackRoundTrips(0, 1, false);
    assert [Descriptor(0), Descriptor(1)][0 := D.Slot(1, false, None)] == [D.Slot(1, false, None), Descriptor(1)];
  }

  lemma HashesFirst()
    ensures B.Transition(SecondSubmitted().buffers, Buffer(0), B.HashingForRead) == Ok(FirstReady(HashQueued, Idlers()).buffers)
  {
    assert SecondSubmitted().buffers.slots[0 := FirstReady(HashQueued, Idlers()).buffers.slots[0]] == FirstReady(HashQueued, Idlers()).buffers.slots;
  }

  lemma CompletesFirst()
    ensures CompleteOriginal(SecondSubmitted(), 1, ExactRead) == Done(FirstReady(HashQueued, Idlers()))
  {
    hide D.Resolve, D.Complete, B.Transition, D.Pack, Slots;
    ReapsFirst();
    HashesFirst();
  }

  lemma DispatchesFirst()
    ensures DispatchChecksum(FirstReady(HashQueued, Idlers())).table == FirstReady(HashRunning, Idlers().(commands := [TheTask()]))
  {
    hide D.Pack;
    var t := FirstReady(HashQueued, Idlers());
    assert QueuedTickets(t) == {1};
    assert Least(QueuedTickets(t)) == 1;
    assert t.workers.value.threads[0].Idle?;
    assert t.tickets[1 := Ready(HashRunning)] == map[1 := Ready(HashRunning), 2 := Submitted(2)];
    assert [] + [TheTask()] == [TheTask()];
  }

  lemma WorkerPanics(decode: (ExtentRecord, Bytes) -> bool)
    ensures var t := FirstReady(HashRunning, Idlers().(commands := [TheTask()]));
            WorkerSends(WorkerVerifies(decode, WorkerTakes(t, 0), 0, true), 0) == Panicky()
  {
    hide D.Pack, Slots;
    var t := FirstReady(HashRunning, Idlers().(commands := [TheTask()]));
    assert [Idle][0 := Hashing(TheTask())] == [Hashing(TheTask())] && [TheTask()][1..] == [];
    assert [Hashing(TheTask())][0 := Sending(ThePanic())] == [Sending(ThePanic())];
    assert [Sending(ThePanic())][0 := Exited] == [Exited] && [] + [ThePanic()] == [ThePanic()];
    var u := WorkerTakes(t, 0);
    assert u.workers == Some(Idlers().(threads := [Hashing(TheTask())]));
    var v := WorkerVerifies(decode, u, 0, true);
    assert v.workers == Some(Idlers().(threads := [Sending(ThePanic())]));
  }

  lemma Extends(decode: (ExtentRecord, Bytes) -> bool, ops: seq<Operation>, op: Operation, s: System)
    requires Run(decode, NewSystem(CONFIG), ops) == s && SafeRun(decode, NewSystem(CONFIG), ops) && Safe(s.table, op)
    ensures Run(decode, NewSystem(CONFIG), ops + [op]) == Apply(decode, s, op) && SafeRun(decode, NewSystem(CONFIG), ops + [op])
  {
    hide Apply, Safe, NewSystem;
    assert (ops + [op])[..|ops|] == ops;
  }

  /** Only dispatching and polling can fail the pool. */
  lemma ExtendsQuietly(decode: (ExtentRecord, Bytes) -> bool, ops: seq<Operation>, op: Operation, s: System)
    requires Run(decode, NewSystem(CONFIG), ops) == s && SafeRun(decode, NewSystem(CONFIG), ops) && !op.Dispatches? && !op.Polls?
    ensures Run(decode, NewSystem(CONFIG), ops + [op]) == Apply(decode, s, op) && SafeRun(decode, NewSystem(CONFIG), ops + [op])
  {
    hide Apply, NewSystem, Run, SafeRun;
    Extends(decode, ops, op, s);
  }

  lemma StartsPool()
    ensures StartWorkers(NewTable(CONFIG), 1).table == Started()
  {
    assert seq(1, _ => Idle) == [Idle];
  }

  lemma RunsToFirst(decode: (ExtentRecord, Bytes) -> bool)
    ensures Run(decode, NewSystem(CONFIG), Steps()[..4]) == System(FirstSubmitted(), {}, {})
    ensures SafeRun(decode, NewSystem(CONFIG), Steps()[..4])
  {
    hide Run, SafeRun, Plan, ReserveBuffer, SubmitRead, StartWorkers, NewTable, Started, FirstPlanned, FirstReserved, FirstSubmitted, Extent;
    var steps := Steps();
    StartsPool();
    PlansFirst();
    ReservesFirst();
    SubmitsFirst();
    RunsNothing(decode);
    assert steps[..0] == [];
    ExtendsQuietly(decode, steps[..0], steps[0], System(NewTable(CONFIG), {}, {}));
    assert steps[..1] == steps[..0] + [steps[0]];
    ExtendsQuietly(decode, steps[..1], steps[1], System(Started(), {}, {}));
    assert steps[..2] == steps[..1] + [steps[1]];
    ExtendsQuietly(decode, steps[..2], steps[2], System(FirstPlanned(), {}, {}));
    assert steps[..3] == steps[..2] + [steps[2]];
    ExtendsQuietly(decode, steps[..3], steps[3], System(FirstReserved(), {}, {}));
    assert steps[..4] == steps[..3] + [steps[3]];
  }

  lemma RunsToSecond(decode: (ExtentRecord, Bytes) -> bool)
    ensures Run(decode, NewSystem(CONFIG), Steps()[..7]) == System(SecondSubmitted(), {}, {})
    ensures SafeRun(decode, NewSystem(CONFIG), Steps()[..7])
  {
    hide Run, SafeRun, Plan, ReserveBuffer, SubmitRead, FirstSubmitted, SecondPlanned, SecondReserved, SecondSubmitted, Extent;
    var steps := Steps();
    RunsToFirst(decode);
    PlansSecond();
    ReservesSecond();
    SubmitsSecond();
    ExtendsQuietly(decode, steps[..4], steps[4], System(FirstSubmitted(), {}, {}));
    assert steps[..5] == steps[..4] + [steps[4]];
    ExtendsQuietly(decode, steps[..5], steps[5], System(SecondPlanned(), {}, {}));
    assert steps[..6] == steps[..5] + [steps[5]];
    ExtendsQuietly(decode, steps[..6], steps[6], System(SecondReserved(), {}, {}));
    assert steps[..7] == steps[..6] + [steps[6]];
  }

  lemma RunsNothing(decode: (ExtentRecord, Bytes) -> bool)
    ensures Run(decode, NewSystem(CONFIG), []) == System(NewTable(CONFIG), {}, {}) && SafeRun(decode, NewSystem(CONFIG), [])
  {
  }

  function Queued(): Table {
    FirstReady(HashQueued, Idlers())
  }

  function Sent(): Table {
    FirstReady(HashRunning, Idlers().(commands := [TheTask()]))
  }

  lemma RunsToQueued(decode: (ExtentRecord, Bytes) -> bool)
    ensures Run(decode, NewSystem(CONFIG), Steps()[..8]) == System(Queued(), {}, {D.Pack(0, 1, false)})
    ensures SafeRun(decode, NewSystem(CONFIG), Steps()[..8])
  {
    hide Run, SafeRun, CompleteOriginal, D.Pack, Extent, FirstReady;
    var steps := Steps();
    RunsToSecond(decode);
    CompletesFirst();
    SecondToken();
    ExtendsQuietly(decode, steps[..7], steps[7], System(SecondSubmitted(), {}, {}));
    assert steps[..8] == steps[..7] + [steps[7]];
  }

  lemma SecondToken()
    ensures 1 in SecondSubmitted().tickets && SecondSubmitted().tickets[1].originalToken == Some(D.Pack(0, 1, false))
  {
  }

  lemma QueuedWorks()
    ensures !FailsPool(Queued(), Dispatches)
  {
    assert Queued().workers.value.threads[0].Idle?;
  }

  lemma RunsToSent(decode: (ExtentRecord, Bytes) -> bool)
    ensures Run(decode, NewSystem(CONFIG), Steps()[..9]) == System(Sent(), {}, {D.Pack(0, 1, false)})
    ensures SafeRun(decode, NewSystem(CONFIG), Steps()[..9])
  {
    hide Run, SafeRun, DispatchChecksum, D.Pack, Extent, FirstReady, FailsPool;
    var steps := Steps();
    RunsToQueued(decode);
    QueuedWorks();
    DispatchesFirst();
    Extends(decode, steps[..8], steps[8], System(Queued(), {}, {D.Pack(0, 1, false)}));
    assert steps[..9] == steps[..8] + [steps[8]];
  }

  lemma RunsToPanic(decode: (ExtentRecord, Bytes) -> bool)
    ensures Run(decode, NewSystem(CONFIG), Steps()) == System(Panicky(), {}, {D.Pack(0, 1, false)})
    ensures SafeRun(decode, NewSystem(CONFIG), Steps())
  {
    hide Run, SafeRun, WorkerTakes, WorkerVerifies, WorkerSends, D.Pack, Extent, FirstReady, Panicky;
    var steps, done := Steps(), {D.Pack(0, 1, false)};
    RunsToSent(decode);
    WorkerPanics(decode);
    ExtendsQuietly(decode, steps[..9], steps[9], System(Sent(), {}, done));
    assert steps[..10] == steps[..9] + [steps[9]];
    var taken := WorkerTakes(Sent(), 0);
    ExtendsQuietly(decode, steps[..10], steps[10], System(taken, {}, done));
    assert steps[..11] == steps[..10] + [steps[10]];
    ExtendsQuietly(decode, steps[..11], steps[11], System(WorkerVerifies(decode, taken, 0, true), {}, done));
    assert steps == steps[..11] + [steps[11]];
  }

  lemma PanickyFacts()
    ensures var t := Panicky();
            && t.workers.Some? && !t.workers.value.failed && |t.workers.value.completions| == 1
            && t.workers.value.completions[0] == ThePanic() && RunningJob(t, ThePanic().job)
            && 2 in Originals(t.tickets) && FailsPool(t, Polls)
  {
    hide Slots;
  }

  /** A run in which the pool has not failed yet; the next poll fails it with the second read in
      flight. The validator accepted the table before, rejects it then and in every continuation. */
  lemma PoolFailureLosesRead(decode: (ExtentRecord, Bytes) -> bool, rest: seq<Operation>)
    ensures SafeRun(decode, NewSystem(CONFIG), Steps())
    ensures var s := Run(decode, NewSystem(CONFIG), Steps());
            && Accepted(s.table) && FailsPool(s.table, Polls)
            && var u := Apply(decode, s, Polls);
            && Lost(u.table.tickets, 2) && !Accepted(u.table) && !Accepted(Run(decode, u, rest).table)
  {
    hide Run, SafeRun, Invariant, Accepted, Panicky, Consistent, Steps, FailsPool, Originals, LostReads, Apply, Lost;
    RunsToPanic(decode);
    RunsAreAcceptedExactly(decode, CONFIG, Steps());
    RunsAreConsistent(decode, CONFIG, Steps());
    var s := Run(decode, NewSystem(CONFIG), Steps());
    PanickyFacts();
    StepLoses(decode, s, Polls);
    StepKeepsConsistent(decode, s, Polls);
    var u := Apply(decode, s, Polls);
    LostMembers(u.table.tickets, 2);
    Rejected(decode, u, [], 2);
    RunOfNone(decode, u);
    Rejected(decode, u, rest, 2);
  }

  lemma LostMembers(tickets: map<nat, Ticket>, id: nat)
    ensures id in LostReads(tickets) <==> Lost(tickets, id)
  {
  }

  lemma RunOfNone(decode: (ExtentRecord, Bytes) -> bool, s: System)
    ensures Run(decode, s, []) == s
  {
  }
}
