/** Direct restore: tickets, waiters, buffers, descriptors, completions and checksum jobs (direct_restore.rs).

    Every operation maps a table to the table it leaves, successful or not, and its result. */
module RestoreModel {
  import opened Collections
  import opened Octets
  import B = DirectBuffers
  import D = DirectDescriptors

  const MAX_U64: nat := 0xFFFF_FFFF_FFFF_FFFF
  const MAX_U32: nat := 0xFFFF_FFFF

  // ---------------------------------------------------------------- data

  datatype Capability = Target | Mtp

  function PhysicalBytes(c: Capability): nat {
    if c.Target? then 2_019_328 else 2_052_096
  }

  function LogicalBytes(c: Capability): nat {
    if c.Target? then 2_014_464 else 2_046_464
  }

  predicate Satisfies(available: Capability, required: Capability) {
    available.Mtp? || required.Target?
  }

  /** An extent on the device; `identity` stands for the fields that only decoding looks at, with
      zero for a combination that does not validate. */
  datatype ExtentRecord = ExtentRecord(capability: Capability, length: nat, identity: nat)

  predicate Validates(r: ExtentRecord) {
    r.length == PhysicalBytes(r.capability) && r.identity != 0
  }

  datatype Config = Config(
    maxTickets: nat,
    maxWaiters: nat,
    maxHashJobs: nat,
    maxPhysical: nat,
    maxLogical: nat,
    bufferSlots: nat,
    descriptorCapacity: nat)

  datatype Request = Request(id: nat, tenant: nat, required: Capability)

  datatype Waiter = Waiter(tenant: nat, required: Capability)

  datatype TicketState = Planned | BufferReserved | ReadSubmitted | DataReady | HashVerified | Abandoned | Failed

  datatype HashState = NoHash | HashReserved | HashQueued | HashRunning

  datatype Ticket = Ticket(
    record: ExtentRecord,
    epoch: nat,
    catalog: nat,
    state: TicketState,
    buffer: Option<B.BufferId>,
    waiters: map<nat, Waiter>,
    originalPending: bool,
    cancelPending: bool,
    originalToken: Option<D.Token>,
    cancelToken: Option<D.Token>,
    hash: HashState)

  datatype HashJob = HashJob(ticket: nat, buffer: B.BufferId)

  datatype HashResult = HashResult(job: HashJob, verified: bool)

  datatype Task = Task(job: HashJob, record: ExtentRecord)

  datatype ChecksumOutcome = Verified(integrity: bool) | Panicked

  datatype Completion = Completion(job: HashJob, outcome: ChecksumOutcome)

  /** A worker thread between two of its channel operations. */
  datatype Worker = Idle | Hashing(task: Task) | Sending(completion: Completion) | Exited

  datatype Workers = Workers(
    capacity: nat,
    commands: seq<Task>,
    threads: seq<Worker>,
    completions: seq<Completion>,
    failed: bool)

  datatype CqKind = OriginalCqe | CancelCqe | FsyncCqe

  datatype Cq = Cq(capacity: nat, entries: nat, original: nat, cancel: nat, fsync: nat)

  datatype Table = Table(
    config: Config,
    nextTicket: nat,
    tickets: map<nat, Ticket>,
    requests: map<nat, nat>,
    charges: map<nat, nat>,
    physical: nat,
    hashJobs: nat,
    workers: Option<Workers>,
    retired: bool,
    buffers: B.Pool,
    descriptors: D.Descriptors,
    cq: Cq)

  datatype RestoreError =
    | BadConfig
    | BadRequest
    | BadRecord
    | BadCatalog
    | NoCapability
    | DuplicateRequest
    | MissingRequest
    | MissingTicket
    | TicketCapacity
    | WaiterCapacity
    | PhysicalCapacity
    | TenantCapacity
    | WrongState
    | DuplicateCompletion
    | CompletionOutstanding
    | IntegrityFailure
    | CqWait
    | CqUnderflow
    | HashWait
    | HashBinding
    | HashExecutionMode
    | WorkerConfig
    | WorkerWait
    | WorkerUnavailable
    | WorkerDisconnected
    | WorkerPanic
    | Accounting
    | Overflow
    | BufferFault(buffer: B.BufferError)
    | DescriptorFault(descriptor: D.DescriptorError)
    | DescriptorBinding

  /** The table an operation leaves and what it returns. */
  datatype Outcome<T> = Outcome(table: Table, result: Result<T, RestoreError>) {
    predicate IsFailure() { result.Err? }
    function PropagateFailure<U>(): Outcome<U>
      requires result.Err?
    {
      Outcome(table, Err(result.error))
    }
    function Extract(): Table
      requires result.Ok?
    {
      table
    }
  }

  function Fail<T>(t: Table, e: RestoreError): Outcome<T> {
    Outcome(t, Err(e))
  }

  function Done(t: Table): Outcome<()> {
    Outcome(t, Ok(()))
  }

  function Put(t: Table, id: nat, ticket: Ticket): Table {
    t.(tickets := t.tickets[id := ticket])
  }

  // ---------------------------------------------------------------- completion queue

  function TrySubmit(q: Cq, kind: CqKind): Result<Cq, RestoreError> {
    var next :=
      match kind
      case OriginalCqe => q.(original := q.original + 1)
      case CancelCqe => q.(cancel := q.cancel + 1)
      case FsyncCqe => q.(fsync := q.fsync + 1);
    if next.original > MAX_U32 || next.cancel > MAX_U32 || next.fsync > MAX_U32
       || next.original + next.cancel + next.fsync > MAX_U32 then Err(Overflow)
    else if next.original > q.capacity || next.fsync > q.capacity || next.original + next.cancel + next.fsync > q.entries then
      Err(CqWait)
    else Ok(next)
  }

  function Counter(q: Cq, kind: CqKind): nat {
    match kind
    case OriginalCqe => q.original
    case CancelCqe => q.cancel
    case FsyncCqe => q.fsync
  }

  function CompleteCqe(q: Cq, kind: CqKind): Result<Cq, RestoreError> {
    if Counter(q, kind) == 0 then Err(CqUnderflow)
    else
      match kind
      case OriginalCqe => Ok(q.(original := q.original - 1))
      case CancelCqe => Ok(q.(cancel := q.cancel - 1))
      case FsyncCqe => Ok(q.(fsync := q.fsync - 1))
  }

  // ---------------------------------------------------------------- charges

  function ChargeOf(t: Table, tenant: nat): nat {
    if tenant in t.charges then t.charges[tenant] else 0
  }

  function CheckCharge(t: Table, tenant: nat, bytes: nat): Result<(), RestoreError> {
    if ChargeOf(t, tenant) + bytes > MAX_U64 then Err(Overflow)
    else if ChargeOf(t, tenant) + bytes > t.config.maxLogical then Err(TenantCapacity)
    else Ok(())
  }

  function Charged(t: Table, tenant: nat, bytes: nat): Table {
    t.(charges := t.charges[tenant := ChargeOf(t, tenant) + bytes])
  }

  function Uncharge(t: Table, tenant: nat, bytes: nat): Outcome<()> {
    if tenant !in t.charges || t.charges[tenant] < bytes then Fail(t, Accounting)
    else if t.charges[tenant] == bytes then Done(t.(charges := t.charges - {tenant}))
    else Done(t.(charges := t.charges[tenant := t.charges[tenant] - bytes]))
  }

  /** Uncharges the first `n` of the waiters and forgets their requests. When a ticket is removed the
      request is forgotten first. */
  function ReleaseWaiters(t: Table, waiters: map<nat, Waiter>, ids: seq<nat>, n: nat, requestFirst: bool): Outcome<()>
    requires n <= |ids| && forall i | i in ids :: i in waiters
  {
    if n == 0 then Done(t)
    else
      var u :- ReleaseWaiters(t, waiters, ids, n - 1, requestFirst);
      var id := ids[n - 1];
      var uncharged := Uncharge(u, waiters[id].tenant, LogicalBytes(waiters[id].required));
      if uncharged.result.Err? then
        Outcome(if requestFirst then u.(requests := u.requests - {id}) else u, uncharged.result)
      else Done(uncharged.table.(requests := u.requests - {id}))
  }

  // ---------------------------------------------------------------- planning

  function Matches(t: Table, record: ExtentRecord, epoch: nat, catalog: nat, required: Capability): set<nat> {
    set id | id in t.tickets
      && t.tickets[id].record == record && t.tickets[id].epoch == epoch && t.tickets[id].catalog == catalog
      && Satisfies(t.tickets[id].record.capability, required)
      && !t.tickets[id].state.Abandoned? && !t.tickets[id].state.Failed?
  }

  datatype Admission = Created(ticket: nat) | Joined(ticket: nat)

  function NewTicket(record: ExtentRecord, epoch: nat, catalog: nat, request: Request): Ticket {
    Ticket(record, epoch, catalog, Planned, None, map[request.id := Waiter(request.tenant, request.required)],
           false, false, None, None, NoHash)
  }

  /** What a request is refused for before any ticket is looked at. */
  function CheckRequest(t: Table, request: Request, record: ExtentRecord, epoch: nat, catalog: nat): Result<(), RestoreError> {
    if request.id == 0 || request.tenant == 0 then Err(BadRequest)
    else if !Validates(record) then Err(BadRecord)
    else if epoch == 0 || catalog == 0 then Err(BadCatalog)
    else if !Satisfies(record.capability, request.required) then Err(NoCapability)
    else if request.id in t.requests then Err(DuplicateRequest)
    else CheckCharge(t, request.tenant, LogicalBytes(request.required))
  }

  function JoinTicket(t: Table, request: Request, id: nat): Outcome<Admission>
    requires id in t.tickets
  {
    var ticket := t.tickets[id];
    if |ticket.waiters| >= t.config.maxWaiters then Fail(t, WaiterCapacity)
    else
      var joined := ticket.(waiters := ticket.waiters[request.id := Waiter(request.tenant, request.required)]);
      Outcome(Put(Charged(t, request.tenant, LogicalBytes(request.required)), id, joined).(requests := t.requests[request.id := id]),
              Ok(Joined(id)))
  }

  function CreateTicket(t: Table, request: Request, record: ExtentRecord, epoch: nat, catalog: nat): Outcome<Admission> {
    if |t.tickets| >= t.config.maxTickets then Fail(t, TicketCapacity)
    else if t.physical + record.length > MAX_U64 then Fail(t, Overflow)
    else if t.physical + record.length > t.config.maxPhysical then Fail(t, PhysicalCapacity)
    else if t.nextTicket + 1 > MAX_U64 then Fail(t, Overflow)
    else
      var id := t.nextTicket;
      Outcome(Put(Charged(t, request.tenant, LogicalBytes(request.required)), id, NewTicket(record, epoch, catalog, request))
                .(nextTicket := id + 1, requests := t.requests[request.id := id], physical := t.physical + record.length),
              Ok(Created(id)))
  }

  function Plan(t: Table, request: Request, record: ExtentRecord, epoch: nat, catalog: nat): Outcome<Admission> {
    var check := CheckRequest(t, request, record, epoch, catalog);
    if check.Err? then Fail(t, check.error)
    else
      var found := Matches(t, record, epoch, catalog, request.required);
      if found != {} then JoinTicket(t, request, Least(found)) else CreateTicket(t, request, record, epoch, catalog)
  }

  // ---------------------------------------------------------------- ending a ticket

  function MoveBuffer(t: Table, buffer: B.BufferId, next: B.BufferState): Outcome<()> {
    var moved := B.Transition(t.buffers, buffer, next);
    if moved.Ok? then Done(t.(buffers := moved.value)) else Fail(t, BufferFault(moved.error))
  }

  function ReleaseHash(t: Table, id: nat): Outcome<()> {
    if id !in t.tickets then Fail(t, MissingTicket)
    else if t.tickets[id].hash.NoHash? then Done(t)
    else if t.hashJobs == 0 then Fail(t, Accounting)
    else Done(Put(t, id, t.tickets[id].(hash := NoHash)).(hashJobs := t.hashJobs - 1))
  }

  function RemoveTicket(t: Table, id: nat): Outcome<()> {
    if id !in t.tickets then Fail(t, MissingTicket)
    else
      var ticket := t.tickets[id];
      if ticket.originalPending || ticket.cancelPending then Fail(t, CompletionOutstanding)
      else if ticket.originalToken.Some? || ticket.cancelToken.Some? then Fail(t, DescriptorBinding)
      else if !ticket.hash.NoHash? then Fail(t, HashBinding)
      else
        var ids := Sorted(ticket.waiters.Keys);
        var u :- ReleaseWaiters(t.(tickets := t.tickets - {id}), ticket.waiters, ids, |ids|, true);
        if u.physical < ticket.record.length then Fail(u, Accounting)
        else Done(u.(physical := u.physical - ticket.record.length))
  }

  function ClearWaiters(t: Table, id: nat): Outcome<()> {
    if id !in t.tickets then Fail(t, MissingTicket)
    else
      var waiters := t.tickets[id].waiters;
      var ids := Sorted(waiters.Keys);
      var u :- ReleaseWaiters(t, waiters, ids, |ids|, false);
      if id !in u.tickets then Fail(u, MissingTicket)
      else Done(Put(u, id, u.tickets[id].(waiters := map[])))
  }

  function QuarantineBuffer(t: Table, buffer: B.BufferId): Outcome<()> {
    var slot := B.Find(t.buffers, buffer);
    if slot.Err? then Fail(t, BufferFault(slot.error))
    else if slot.value.state.Quarantined? then Done(t)
    else
      var u :- MoveBuffer(t, buffer, B.BufferFailed);
      MoveBuffer(u, buffer, B.Quarantined)
  }

  function FailTicket(t: Table, id: nat): Outcome<()> {
    if id !in t.tickets then Fail(t, MissingTicket)
    else if t.tickets[id].buffer.None? then Fail(t, WrongState)
    else
      var u :- QuarantineBuffer(t, t.tickets[id].buffer.value);
      var v :- ReleaseHash(u, id);
      var w :- ClearWaiters(v, id);
      if id !in w.tickets then Fail(w, MissingTicket)
      else
        var x := Put(w, id, w.tickets[id].(state := Failed));
        if x.tickets[id].originalPending || x.tickets[id].cancelPending then Done(x) else RemoveTicket(x, id)
  }

  /** Fails the first `n` of the listed tickets. */
  function FailTickets(t: Table, ids: seq<nat>, n: nat): Outcome<()>
    requires n <= |ids|
  {
    if n == 0 then Done(t)
    else
      var u :- FailTickets(t, ids, n - 1);
      FailTicket(u, ids[n - 1])
  }

  function HashHolders(tickets: map<nat, Ticket>): set<nat> {
    set id | id in tickets && !tickets[id].hash.NoHash?
  }

  function FailPool(t: Table): Outcome<()> {
    if t.workers.None? then Fail(t, WorkerUnavailable)
    else
      var ids := Sorted(HashHolders(t.tickets));
      FailTickets(t.(workers := Some(t.workers.value.(failed := true))), ids, |ids|)
  }

  function FinishAbandoned(t: Table, id: nat): Outcome<()> {
    if id !in t.tickets then Fail(t, MissingTicket)
    else if !t.tickets[id].state.Abandoned? then Fail(t, WrongState)
    else if t.tickets[id].originalPending || t.tickets[id].cancelPending then Done(t)
    else if t.tickets[id].buffer.None? then Fail(t, WrongState)
    else
      var u :- ReleaseHash(t, id);
      var released := B.ReleaseAbandoned(u.buffers, t.tickets[id].buffer.value);
      if released.Err? then Fail(u, BufferFault(released.error))
      else RemoveTicket(u.(buffers := released.value), id)
  }

  // ---------------------------------------------------------------- reading

  function ReserveBuffer(t: Table, id: nat): Outcome<B.BufferId> {
    if id !in t.tickets then Fail(t, MissingTicket)
    else if !t.tickets[id].state.Planned? || t.tickets[id].buffer.Some? then Fail(t, WrongState)
    else
      var (pool, found) := B.Reserve(t.buffers, B.CpuRead);
      var u := t.(buffers := pool);
      if found.Err? then Fail(u, BufferFault(found.error))
      else Outcome(Put(u, id, t.tickets[id].(buffer := Some(found.value), state := BufferReserved)), Ok(found.value))
  }

  function BindingOf(id: nat, buffer: B.BufferId): D.Binding {
    D.Binding(buffer, id, D.ReadOperation)
  }

  function CompleteDescriptor(t: Table, token: D.Token): Outcome<()> {
    var completed := D.Complete(t.descriptors, token);
    if completed.Ok? then Done(t.(descriptors := completed.value)) else Fail(t, DescriptorFault(completed.error))
  }

  function CompleteEntry(t: Table, kind: CqKind): Outcome<()> {
    var completed := CompleteCqe(t.cq, kind);
    if completed.Ok? then Done(t.(cq := completed.value)) else Fail(t, completed.error)
  }

  function SubmitRead(t: Table, id: nat): Outcome<()> {
    if t.retired then Fail(t, WorkerUnavailable)
    else if t.workers.Some? && t.workers.value.failed then Fail(t, WorkerPanic)
    else if id !in t.tickets then Fail(t, MissingTicket)
    else
      var ticket := t.tickets[id];
      if !ticket.state.BufferReserved? || ticket.originalPending || ticket.cancelPending || !ticket.hash.NoHash? then
        Fail(t, WrongState)
      else if t.hashJobs + 1 > MAX_U32 then Fail(t, Overflow)
      else if t.hashJobs + 1 > t.config.maxHashJobs then Fail(t, HashWait)
      else if ticket.buffer.None? then Fail(t, WrongState)
      else
        var buffer := ticket.buffer.value;
        var (descriptors, granted) := D.Allocate(t.descriptors, BindingOf(id, buffer));
        var u := t.(descriptors := descriptors);
        if granted.Err? then Fail(u, DescriptorFault(granted.error))
        else
          var token := granted.value;
          var queued := TrySubmit(u.cq, OriginalCqe);
          if queued.Err? then
            var v :- CompleteDescriptor(u, token);
            Fail(v, queued.error)
          else
            var w := u.(cq := queued.value);
            var moved := B.Transition(w.buffers, buffer, B.ReadInflight);
            if moved.Err? then
              var x :- CompleteEntry(w, OriginalCqe);
              var y :- CompleteDescriptor(x, token);
              Fail(y, BufferFault(moved.error))
            else
              Done(Put(w.(buffers := moved.value), id,
                       ticket.(originalPending := true, originalToken := Some(token), hash := HashReserved, state := ReadSubmitted))
                     .(hashJobs := t.hashJobs + 1))
  }

  function CopyIntoDestination(t: Table, id: nat, offset: nat, source: Bytes): Outcome<()> {
    if id !in t.tickets then Fail(t, MissingTicket)
    else
      var ticket := t.tickets[id];
      if !ticket.state.ReadSubmitted? || !ticket.originalPending || ticket.cancelPending || !ticket.hash.HashReserved?
         || ticket.buffer.None? then Fail(t, WrongState)
      else if offset + |source| > MAX_U64 then Fail(t, Overflow)
      else if offset + |source| > ticket.record.length then Fail(t, BadRecord)
      else
        var written := B.Write(t.buffers, ticket.buffer.value, offset, source);
        if written.Ok? then Done(t.(buffers := written.value)) else Fail(t, BufferFault(written.error))
  }

  // ---------------------------------------------------------------- cancellation

  datatype Cancellation =
    | WaiterRemoved
    | ReleasedBeforeSubmission
    | AbandonedWithoutAsyncCancel
    | AsyncCancelSubmitted
    | WaitingForHash
    | ReleasedAfterVerification

  function Returning(o: Outcome<()>, c: Cancellation): Outcome<Cancellation> {
    if o.result.Ok? then Outcome(o.table, Ok(c)) else Outcome(o.table, Err(o.result.error))
  }

  function ReleaseTicket(t: Table, id: nat, buffer: Option<B.BufferId>): Outcome<()> {
    if buffer.None? then Fail(t, WrongState)
    else
      var u :- MoveBuffer(t, buffer.value, B.Free);
      RemoveTicket(u, id)
  }

  /** The last waiter of a submitted read left: abandon it, cancelling asynchronously if that works. */
  function AbandonRead(t: Table, id: nat, async: bool): Outcome<Cancellation>
    requires id in t.tickets
  {
    var u := Put(t, id, t.tickets[id].(state := Abandoned));
    if !async then Outcome(u, Ok(AbandonedWithoutAsyncCancel))
    else
      var queued := TrySubmit(u.cq, CancelCqe);
      if queued.Err? then
        if queued.error.CqWait? then Outcome(u, Ok(AbandonedWithoutAsyncCancel)) else Fail(u, queued.error)
      else
        var v := u.(cq := queued.value);
        if v.tickets[id].originalToken.None? then Fail(v, WrongState)
        else
          var token := v.tickets[id].originalToken.value;
          var issued := D.IssueCancel(v.descriptors, token);
          if issued.Err? then
            var w :- CompleteEntry(v, CancelCqe);
            Fail(w, DescriptorFault(issued.error))
          else
            Outcome(Put(v.(descriptors := issued.value), id,
                        v.tickets[id].(cancelPending := true, cancelToken := Some(D.CancelOf(token)))),
                    Ok(AsyncCancelSubmitted))
  }

  function CancelWaiter(t: Table, request: nat, async: bool): Outcome<Cancellation> {
    if request !in t.requests then Fail(t, MissingRequest)
    else
      var id := t.requests[request];
      if id !in t.tickets then Fail(t, MissingTicket)
      else if request !in t.tickets[id].waiters then Fail(t, MissingRequest)
      else
        var waiter := t.tickets[id].waiters[request];
        var u :- Uncharge(t, waiter.tenant, LogicalBytes(waiter.required));
        var ticket := t.tickets[id].(waiters := t.tickets[id].waiters - {request});
        var v := Put(u, id, ticket).(requests := t.requests - {request});
        if ticket.waiters != map[] then Outcome(v, Ok(WaiterRemoved))
        else
          match ticket.state
          case Planned => Returning(RemoveTicket(v, id), ReleasedBeforeSubmission)
          case BufferReserved => Returning(ReleaseTicket(v, id, ticket.buffer), ReleasedBeforeSubmission)
          case ReadSubmitted => AbandonRead(v, id, async)
          case DataReady => Outcome(Put(v, id, ticket.(state := Abandoned)), Ok(WaitingForHash))
          case HashVerified => Returning(ReleaseTicket(v, id, ticket.buffer), ReleasedAfterVerification)
          case _ => Fail(v, WrongState)
  }

  // ---------------------------------------------------------------- completions

  datatype ReadCompletion = ExactRead | CancelledRead | FailedRead

  /** Checks a token against its ticket, then completes it in the table and the queue. */
  function ReapToken(t: Table, id: nat, token: Option<D.Token>, kind: CqKind): Outcome<()>
    requires id in t.tickets
  {
    if t.tickets[id].buffer.None? || token.None? then Fail(t, WrongState)
    else
      var bound := D.Resolve(t.descriptors, token.value);
      if bound.Err? then Fail(t, DescriptorFault(bound.error))
      else if bound.value != BindingOf(id, t.tickets[id].buffer.value) then Fail(t, DescriptorBinding)
      else if Counter(t.cq, kind) == 0 then Fail(t, CqUnderflow)
      else
        var u :- CompleteDescriptor(t, token.value);
        CompleteEntry(u, kind)
  }

  function CompleteOriginal(t: Table, id: nat, completion: ReadCompletion): Outcome<()> {
    if id !in t.tickets then Fail(t, MissingTicket)
    else
      var ticket := t.tickets[id];
      if !ticket.originalPending || (!ticket.state.ReadSubmitted? && !ticket.state.Abandoned?) then
        Fail(t, DuplicateCompletion)
      else
        var u :- ReapToken(t, id, ticket.originalToken, OriginalCqe);
        var v := Put(u, id, ticket.(originalPending := false, originalToken := None));
        if completion.FailedRead? || (ticket.state.ReadSubmitted? && completion.CancelledRead?) then FailTicket(v, id)
        else if ticket.state.Abandoned? then FinishAbandoned(v, id)
        else if ticket.buffer.None? then Fail(v, WrongState)
        else
          var w :- MoveBuffer(v, ticket.buffer.value, B.HashingForRead);
          if !ticket.hash.HashReserved? then Fail(w, HashBinding)
          else Done(Put(w, id, w.tickets[id].(hash := HashQueued, state := DataReady)))
  }

  function CompleteCancel(t: Table, id: nat): Outcome<()> {
    if id !in t.tickets then Fail(t, MissingTicket)
    else
      var ticket := t.tickets[id];
      if !ticket.cancelPending || (!ticket.state.Abandoned? && !ticket.state.Failed?) then Fail(t, DuplicateCompletion)
      else
        var u :- ReapToken(t, id, ticket.cancelToken, CancelCqe);
        var v := Put(u, id, ticket.(cancelPending := false, cancelToken := None));
        if ticket.originalPending then Done(v)
        else if ticket.state.Abandoned? then FinishAbandoned(v, id)
        else RemoveTicket(v, id)
  }

  // ---------------------------------------------------------------- checksums

  function QueuedTickets(t: Table): set<nat> {
    set id | id in t.tickets && t.tickets[id].hash.HashQueued?
  }

  /** A ticket whose bytes wait for their checksum and cannot change. */
  predicate AwaitsHash(ticket: Ticket) {
    (ticket.state.DataReady? || ticket.state.Abandoned?) && !ticket.originalPending && !ticket.cancelPending
  }

  predicate AllExited(w: Workers) {
    forall i | 0 <= i < |w.threads| :: w.threads[i].Exited?
  }

  function StartWorkers(t: Table, count: nat): Outcome<()> {
    if t.workers.Some? || t.retired || t.hashJobs != 0 || t.config.maxHashJobs == 0 || count == 0 || count > t.config.maxHashJobs then
      Fail(t, WorkerConfig)
    else Done(t.(workers := Some(Workers(t.config.maxHashJobs, [], seq(count, _ => Idle), [], false))))
  }

  function DispatchChecksum(t: Table): Outcome<Option<HashJob>> {
    if t.workers.None? then Fail(t, WorkerUnavailable)
    else if t.workers.value.failed then Fail(t, WorkerPanic)
    else if QueuedTickets(t) == {} then Outcome(t, Ok(None))
    else
      var id := Least(QueuedTickets(t));
      var ticket := t.tickets[id];
      if !AwaitsHash(ticket) || ticket.buffer.None? then Fail(t, HashBinding)
      else
        var job := HashJob(id, ticket.buffer.value);
        var bytes := B.HashBuffer(t.buffers, job.buffer);
        if bytes.Err? then Fail(t, BufferFault(bytes.error))
        else
          var w := t.workers.value;
          if AllExited(w) then
            var u :- FailPool(t);
            Fail(u, WorkerDisconnected)
          else if |w.commands| >= w.capacity then Fail(t, WorkerWait)
          else
            Outcome(Put(t, id, ticket.(hash := HashRunning))
                      .(workers := Some(w.(commands := w.commands + [Task(job, ticket.record)]))),
                    Ok(Some(job)))
  }

  function PollChecksum(t: Table): Outcome<Option<HashResult>> {
    if t.workers.None? then Fail(t, WorkerUnavailable)
    else if t.workers.value.failed then Fail(t, WorkerPanic)
    else
      var w := t.workers.value;
      if w.completions == [] then
        if AllExited(w) then
          var u :- FailPool(t);
          Fail(u, WorkerDisconnected)
        else Outcome(t, Ok(None))
      else
        var completion := w.completions[0];
        var u := t.(workers := Some(w.(completions := w.completions[1..])));
        if completion.job.ticket !in t.tickets then Fail(u, MissingTicket)
        else
          var ticket := t.tickets[completion.job.ticket];
          if !AwaitsHash(ticket) || !ticket.hash.HashRunning? || ticket.buffer != Some(completion.job.buffer) then
            Fail(u, HashBinding)
          else if completion.outcome.Verified? then
            Outcome(u, Ok(Some(HashResult(completion.job, completion.outcome.integrity))))
          else
            var v :- FailPool(u);
            Fail(v, WorkerPanic)
  }

  function ShutdownWorkers(t: Table): Outcome<()> {
    if t.hashJobs != 0 then Fail(t, CompletionOutstanding)
    else if t.workers.None? then Fail(t, WorkerUnavailable)
    else Done(t.(workers := None, retired := true))
  }

  function NextHashJob(t: Table): Outcome<Option<HashJob>> {
    if t.workers.Some? || t.retired then Fail(t, HashExecutionMode)
    else if QueuedTickets(t) == {} then Outcome(t, Ok(None))
    else
      var id := Least(QueuedTickets(t));
      var ticket := t.tickets[id];
      if !AwaitsHash(ticket) || ticket.buffer.None? then Fail(t, HashBinding)
      else Outcome(Put(t, id, ticket.(hash := HashRunning)), Ok(Some(HashJob(id, ticket.buffer.value))))
  }

  predicate RunningJob(t: Table, job: HashJob) {
    && job.ticket in t.tickets
    && var ticket := t.tickets[job.ticket];
    && AwaitsHash(ticket) && ticket.hash.HashRunning? && ticket.buffer == Some(job.buffer)
  }

  /** `decode` says whether the bytes decode as the record's extent. */
  function RunHashJob(decode: (ExtentRecord, Bytes) -> bool, t: Table, job: HashJob): Result<HashResult, RestoreError> {
    if t.workers.Some? || t.retired then Err(HashExecutionMode)
    else if job.ticket !in t.tickets then Err(MissingTicket)
    else if !RunningJob(t, job) then Err(HashBinding)
    else
      var bytes := B.Read(t.buffers, job.buffer);
      if bytes.Err? then Err(BufferFault(bytes.error))
      else if t.tickets[job.ticket].record.length > |bytes.value| then Err(BadRecord)
      else Ok(HashResult(job, decode(t.tickets[job.ticket].record, bytes.value[..t.tickets[job.ticket].record.length])))
  }

  function CompleteHash(t: Table, result: HashResult): Outcome<()> {
    var id := result.job.ticket;
    if id !in t.tickets then Fail(t, MissingTicket)
    else if !RunningJob(t, result.job) then Fail(t, HashBinding)
    else if !result.verified then
      var u :- FailTicket(t, id);
      Fail(u, IntegrityFailure)
    else
      var u :- MoveBuffer(t, result.job.buffer, B.HostReady);
      var v :- ReleaseHash(u, id);
      if t.tickets[id].state.Abandoned? then ReleaseTicket(v, id, Some(result.job.buffer))
      else if id !in v.tickets then Fail(v, MissingTicket)
      else Done(Put(v, id, v.tickets[id].(state := HashVerified)))
  }

  function FinishDelivery(t: Table, id: nat): Outcome<seq<nat>> {
    if id !in t.tickets then Fail(t, MissingTicket)
    else
      var ticket := t.tickets[id];
      if !ticket.state.HashVerified? || ticket.originalPending || ticket.cancelPending || !ticket.hash.NoHash? then
        Fail(t, WrongState)
      else
        var u :- ReleaseTicket(t, id, ticket.buffer);
        Outcome(u, Ok(Sorted(ticket.waiters.Keys)))
  }

  // ---------------------------------------------------------------- worker threads

  function SetThread(w: Workers, i: nat, state: Worker): Workers
    requires i < |w.threads|
  {
    w.(threads := w.threads[i := state])
  }

  /** An idle worker receives the next task. */
  function WorkerTakes(t: Table, i: nat): Table {
    if t.workers.None? || i >= |t.workers.value.threads| || !t.workers.value.threads[i].Idle? || t.workers.value.commands == [] then t
    else
      var w := t.workers.value;
      t.(workers := Some(SetThread(w, i, Hashing(w.commands[0])).(commands := w.commands[1..])))
  }

  /** A worker reads the shared buffer and decides, or panics. */
  function WorkerVerifies(decode: (ExtentRecord, Bytes) -> bool, t: Table, i: nat, panics: bool): Table {
    if t.workers.None? || i >= |t.workers.value.threads| || !t.workers.value.threads[i].Hashing? then t
    else
      var w := t.workers.value;
      var task := w.threads[i].task;
      t.(workers := Some(SetThread(w, i, Sending(Completion(task.job,
        if panics then Panicked else Verified(Decodes(decode, t.buffers, task.job.buffer, task.record)))))))
  }

  /** The current bytes of a buffer decode as a record. */
  predicate Decodes(decode: (ExtentRecord, Bytes) -> bool, pool: B.Pool, buffer: B.BufferId, record: ExtentRecord) {
    && buffer.slot < |pool.slots| && record.length <= |pool.slots[buffer.slot].bytes|
    && decode(record, pool.slots[buffer.slot].bytes[..record.length])
  }

  /** Whether a worker with something to send has to wait. */
  predicate SendBlocks(t: Table, i: nat) {
    && t.workers.Some? && i < |t.workers.value.threads| && t.workers.value.threads[i].Sending?
    && |t.workers.value.completions| >= t.workers.value.capacity
  }

  /** A worker sends its completion, unless the queue is full; after a panic it exits. */
  function WorkerSends(t: Table, i: nat): Table {
    if t.workers.None? || i >= |t.workers.value.threads| || !t.workers.value.threads[i].Sending? || SendBlocks(t, i) then t
    else
      var w := t.workers.value;
      var completion := w.threads[i].completion;
      t.(workers := Some(SetThread(w, i, if completion.outcome.Panicked? then Exited else Idle)
                           .(completions := w.completions + [completion])))
  }

  // ---------------------------------------------------------------- a new table

  predicate ConfigFits(c: Config) {
    && 0 < c.maxTickets <= MAX_U32 && 0 < c.maxWaiters <= MAX_U32 && 0 < c.maxHashJobs <= c.bufferSlots <= MAX_U32
    && 0 < c.maxPhysical <= MAX_U64 && 0 < c.maxLogical <= MAX_U64 && 0 < c.descriptorCapacity && 2 * c.descriptorCapacity <= MAX_U32
  }

  function NewTable(c: Config): Table {
    Table(c, 1, map[], map[], map[], 0, 0, None, false, B.NewPool(c.bufferSlots), D.NewTable(c.descriptorCapacity),
          Cq(c.descriptorCapacity, 2 * c.descriptorCapacity, 0, 0, 0))
  }
}
