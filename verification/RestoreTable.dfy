/** The restore table in place (direct_restore.rs). */
module RestoreTable {
  import opened Collections
  import opened Octets
  import opened RestoreModel
  import opened RestoreInvariant
  import opened RestoreCompletions
  import opened RestoreAdmissions
  import opened RestoreSubmissions
  import opened RestoreCancellations
  import opened RestorePool
  import opened RestoreChecksums
  import opened RestoreTheorems
  import B = DirectBuffers
  import D = DirectDescriptors

  lemma {:induction false} ReleaseFails(t: Table, waiters: map<nat, Waiter>, ids: seq<nat>, i: nat, n: nat, first: bool)
    requires i <= n <= |ids| && (forall k | k in ids :: k in waiters) && ReleaseWaiters(t, waiters, ids, i, first).result.Err?
    ensures ReleaseWaiters(t, waiters, ids, n, first) == ReleaseWaiters(t, waiters, ids, i, first)
  {
    hide Uncharge, LogicalBytes;
    if i < n {
      ReleaseFails(t, waiters, ids, i, n - 1, first);
    }
  }

  lemma ReleaseNone(t: Table, waiters: map<nat, Waiter>, ids: seq<nat>, first: bool)
    requires forall k | k in ids :: k in waiters
    ensures ReleaseWaiters(t, waiters, ids, 0, first) == Done(t)
  {
  }

  lemma ReleaseNext(t: Table, waiters: map<nat, Waiter>, ids: seq<nat>, i: nat, first: bool, u: Table)
    requires i < |ids| && (forall k | k in ids :: k in waiters) && ReleaseWaiters(t, waiters, ids, i, first) == Done(u)
    ensures var w := waiters[ids[i]];
            var uncharged := Uncharge(u, w.tenant, LogicalBytes(w.required));
            ReleaseWaiters(t, waiters, ids, i + 1, first) ==
            if uncharged.result.Ok? then Done(uncharged.table.(requests := u.requests - {ids[i]}))
            else Outcome(if first then u.(requests := u.requests - {ids[i]}) else u, uncharged.result)
  {
    hide Uncharge, LogicalBytes;
  }

  lemma {:induction false} FailingStops(t: Table, ids: seq<nat>, i: nat, n: nat)
    requires i <= n <= |ids| && FailTickets(t, ids, i).result.Err?
    ensures FailTickets(t, ids, n) == FailTickets(t, ids, i)
  {
    hide FailTicket;
    if i < n {
      FailingStops(t, ids, i, n - 1);
    }
  }

  lemma FailNone(t: Table, ids: seq<nat>)
    ensures FailTickets(t, ids, 0) == Done(t)
  {
  }

  lemma FailNext(t: Table, ids: seq<nat>, i: nat, u: Table)
    requires i < |ids| && FailTickets(t, ids, i) == Done(u)
    ensures FailTickets(t, ids, i + 1) == FailTicket(u, ids[i])
  {
    hide FailTicket;
  }

  class DirectRestoreTable {
    const config: Config
    const buffers: B.DirectBufferPool
    const descriptors: D.DirectDescriptorTable
    var nextTicket: nat
    var tickets: map<nat, Ticket>
    var requests: map<nat, nat>
    var charges: map<nat, nat>
    var physical: nat
    var hashJobs: nat
    var workers: Option<Workers>
    var retired: bool
    var cq: Cq

    ghost function Value(): Table
      reads this, buffers, descriptors
    {
      Table(config, nextTicket, tickets, requests, charges, physical, hashJobs, workers, retired,
            buffers.Value(), descriptors.Value(), cq)
    }

    ghost predicate Valid()
      reads this, buffers, descriptors
    {
      Invariant(Value())
    }

    constructor (c: Config)
      requires ConfigFits(c)
      ensures Value() == NewTable(c) && Valid() && fresh(buffers) && fresh(descriptors)
    {
      config := c;
      buffers := new B.DirectBufferPool(c.bufferSlots);
      descriptors := new D.DirectDescriptorTable(c.descriptorCapacity);
      nextTicket, tickets, requests, charges := 1, map[], map[], map[];
      physical, hashJobs, workers, retired := 0, 0, None, false;
      cq := Cq(c.descriptorCapacity, 2 * c.descriptorCapacity, 0, 0, 0);
      new;
      NewIsConsistent((r, b) => true, c);
    }

    // ---------------------------------------------------------------- building blocks

    method UnchargeTenant(tenant: nat, bytes: nat) returns (result: Result<(), RestoreError>)
      modifies this`charges
      ensures Outcome(Value(), result) == Uncharge(old(Value()), tenant, bytes)
    {
      if tenant !in charges || charges[tenant] < bytes {
        return Err(Accounting);
      }
      charges := charges[tenant := charges[tenant] - bytes];
      if charges[tenant] == 0 {
        charges := charges - {tenant};
      }
      return Ok(());
    }

    method ReleaseOne(id: nat, w: Waiter, first: bool) returns (result: Result<(), RestoreError>)
      modifies this`charges, this`requests
      ensures var u := Uncharge(old(Value()), w.tenant, LogicalBytes(w.required));
              && result == u.result
              && Value() == if u.result.Ok? then u.table.(requests := old(requests) - {id})
                            else if first then old(Value()).(requests := old(requests) - {id}) else old(Value())
    {
      if first {
        requests := requests - {id};
      }
      result := UnchargeTenant(w.tenant, LogicalBytes(w.required));
      if result.Ok? && !first {
        requests := requests - {id};
      }
    }

    /** Lets waiters go one after the other. */
    method LetGo(waiters: map<nat, Waiter>, first: bool) returns (result: Result<(), RestoreError>)
      modifies this`charges, this`requests
      ensures var ids := Sorted(waiters.Keys);
              Outcome(Value(), result) == ReleaseWaiters(old(Value()), waiters, ids, |ids|, first)
    {
      hide Uncharge, LogicalBytes, Sorted, ReleaseWaiters;
      var ids := Sorted(waiters.Keys);
      ghost var t := Value();
      ReleaseNone(t, waiters, ids, first);
      for i := 0 to |ids|
        invariant Done(Value()) == ReleaseWaiters(t, waiters, ids, i, first)
      {
        ReleaseNext(t, waiters, ids, i, first, Value());
        var released := ReleaseOne(ids[i], waiters[ids[i]], first);
        if released.Err? {
          ReleaseFails(t, waiters, ids, i + 1, |ids|, first);
          return released;
        }
      }
      return Ok(());
    }

    method MoveBufferTo(buffer: B.BufferId, to: B.BufferState) returns (result: Result<(), RestoreError>)
      modifies buffers
      ensures Outcome(Value(), result) == MoveBuffer(old(Value()), buffer, to)
    {
      hide B.Transition;
      var moved := buffers.MoveTo(buffer, to);
      if moved.Err? {
        return Err(BufferFault(moved.error));
      }
      return Ok(());
    }

    method ReleaseHashJob(id: nat) returns (result: Result<(), RestoreError>)
      modifies this`tickets, this`hashJobs
      ensures Outcome(Value(), result) == ReleaseHash(old(Value()), id)
    {
      if id !in tickets {
        return Err(MissingTicket);
      }
      if tickets[id].hash.NoHash? {
        return Ok(());
      }
      if hashJobs == 0 {
        return Err(Accounting);
      }
      hashJobs := hashJobs - 1;
      tickets := tickets[id := tickets[id].(hash := NoHash)];
      return Ok(());
    }

    method RemoveTicketNow(id: nat) returns (result: Result<(), RestoreError>)
      modifies this`tickets, this`charges, this`requests, this`physical
      ensures Outcome(Value(), result) == RemoveTicket(old(Value()), id)
    {
      hide ReleaseWaiters, Sorted;
      if id !in tickets {
        return Err(MissingTicket);
      }
      var ticket := tickets[id];
      if ticket.originalPending || ticket.cancelPending {
        return Err(CompletionOutstanding);
      }
      if ticket.originalToken.Some? || ticket.cancelToken.Some? {
        return Err(DescriptorBinding);
      }
      if !ticket.hash.NoHash? {
        return Err(HashBinding);
      }
      tickets := tickets - {id};
      var _ :- LetGo(ticket.waiters, true);
      if physical < ticket.record.length {
        return Err(Accounting);
      }
      physical := physical - ticket.record.length;
      return Ok(());
    }

    method ClearWaitersOf(id: nat) returns (result: Result<(), RestoreError>)
      modifies this`tickets, this`charges, this`requests
      ensures Outcome(Value(), result) == ClearWaiters(old(Value()), id)
    {
      hide ReleaseWaiters, Sorted;
      if id !in tickets {
        return Err(MissingTicket);
      }
      var _ :- LetGo(tickets[id].waiters, false);
      tickets := tickets[id := tickets[id].(waiters := map[])];
      return Ok(());
    }

    method Quarantine(buffer: B.BufferId) returns (result: Result<(), RestoreError>)
      modifies buffers
      ensures Outcome(Value(), result) == QuarantineBuffer(old(Value()), buffer)
    {
      hide MoveBuffer;
      var slot := B.Find(B.Pool(buffers.slots, buffers.next), buffer);
      if slot.Err? {
        return Err(BufferFault(slot.error));
      }
      if slot.value.state.Quarantined? {
        return Ok(());
      }
      var _ :- MoveBufferTo(buffer, B.BufferFailed);
      result := MoveBufferTo(buffer, B.Quarantined);
    }

    method FailTicketNow(id: nat) returns (result: Result<(), RestoreError>)
      modifies this`tickets, this`charges, this`requests, this`physical, this`hashJobs, buffers
      ensures Outcome(Value(), result) == FailTicket(old(Value()), id)
    {
      hide QuarantineBuffer, ReleaseHash, ClearWaiters, RemoveTicket;
      if id !in tickets {
        return Err(MissingTicket);
      }
      if tickets[id].buffer.None? {
        return Err(WrongState);
      }
      var _ :- Quarantine(tickets[id].buffer.value);
      var _ :- ReleaseHashJob(id);
      var _ :- ClearWaitersOf(id);
      if id !in tickets {
        return Err(MissingTicket);
      }
      tickets := tickets[id := tickets[id].(state := Failed)];
      if tickets[id].originalPending || tickets[id].cancelPending {
        return Ok(());
      }
      result := RemoveTicketNow(id);
    }

    method FailChecksumPool() returns (result: Result<(), RestoreError>)
      modifies this`tickets, this`charges, this`requests, this`physical, this`hashJobs, this`workers, buffers
      ensures Outcome(Value(), result) == FailPool(old(Value()))
    {
      hide FailTicket, Sorted, FailTickets;
      if workers.None? {
        return Err(WorkerUnavailable);
      }
      var ids := Sorted(HashHolders(tickets));
      workers := Some(workers.value.(failed := true));
      ghost var t := Value();
      FailNone(t, ids);
      for i := 0 to |ids|
        invariant Done(Value()) == FailTickets(t, ids, i)
      {
        FailNext(t, ids, i, Value());
        var failed := FailTicketNow(ids[i]);
        if failed.Err? {
          FailingStops(t, ids, i + 1, |ids|);
          return failed;
        }
        OnlyOk(failed);
      }
      return Ok(());
    }

    method FinishAbandonedIfReaped(id: nat) returns (result: Result<(), RestoreError>)
      modifies this`tickets, this`charges, this`requests, this`physical, this`hashJobs, buffers
      ensures Outcome(Value(), result) == FinishAbandoned(old(Value()), id)
    {
      hide ReleaseHash, RemoveTicket, B.ReleaseAbandoned;
      if id !in tickets {
        return Err(MissingTicket);
      }
      var ticket := tickets[id];
      if !ticket.state.Abandoned? {
        return Err(WrongState);
      }
      if ticket.originalPending || ticket.cancelPending {
        return Ok(());
      }
      if ticket.buffer.None? {
        return Err(WrongState);
      }
      var _ :- ReleaseHashJob(id);
      var released := buffers.ReleaseAbandonedRead(ticket.buffer.value);
      if released.Err? {
        return Err(BufferFault(released.error));
      }
      result := RemoveTicketNow(id);
    }

    method ReleaseTicketNow(id: nat, buffer: Option<B.BufferId>) returns (result: Result<(), RestoreError>)
      modifies this`tickets, this`charges, this`requests, this`physical, buffers
      ensures Outcome(Value(), result) == ReleaseTicket(old(Value()), id, buffer)
    {
      hide MoveBuffer, RemoveTicket;
      if buffer.None? {
        return Err(WrongState);
      }
      var _ :- MoveBufferTo(buffer.value, B.Free);
      result := RemoveTicketNow(id);
    }

    method CompleteDescriptorNow(token: D.Token) returns (result: Result<(), RestoreError>)
      modifies descriptors
      ensures Outcome(Value(), result) == CompleteDescriptor(old(Value()), token)
    {
      hide D.Complete, D.Resolve;
      var completed := descriptors.CompleteToken(token);
      CompletedResolves(old(descriptors.Value()), token);
      if completed.Err? {
        return Err(DescriptorFault(completed.error));
      }
      return Ok(());
    }

    method CompleteEntryNow(kind: CqKind) returns (result: Result<(), RestoreError>)
      modifies this`cq
      ensures Outcome(Value(), result) == CompleteEntry(old(Value()), kind)
    {
      var completed :- CompleteCqe(cq, kind);
      cq := completed;
      return Ok(());
    }

    // ---------------------------------------------------------------- operations

    method Check(request: Request, record: ExtentRecord, epoch: nat, catalog: nat) returns (result: Result<(), RestoreError>)
      ensures result == CheckRequest(Value(), request, record, epoch, catalog)
    {
      if request.id == 0 || request.tenant == 0 {
        return Err(BadRequest);
      }
      if !Validates(record) {
        return Err(BadRecord);
      }
      if epoch == 0 || catalog == 0 {
        return Err(BadCatalog);
      }
      if !Satisfies(record.capability, request.required) {
        return Err(NoCapability);
      }
      if request.id in requests {
        return Err(DuplicateRequest);
      }
      var charge := if request.tenant in charges then charges[request.tenant] else 0;
      if charge + LogicalBytes(request.required) > MAX_U64 {
        return Err(Overflow);
      }
      if charge + LogicalBytes(request.required) > config.maxLogical {
        return Err(TenantCapacity);
      }
      return Ok(());
    }

    /** The first live ticket that reads the same record for the same catalogue. */
    method CompatibleTicket(record: ExtentRecord, epoch: nat, catalog: nat, required: Capability) returns (found: Option<nat>)
      ensures var matches := Matches(Value(), record, epoch, catalog, required);
              found == if matches == {} then None else Some(Least(matches))
    {
      hide Least;
      var matches := set id | id in tickets
        && tickets[id].record == record && tickets[id].epoch == epoch && tickets[id].catalog == catalog
        && Satisfies(tickets[id].record.capability, required)
        && !tickets[id].state.Abandoned? && !tickets[id].state.Failed?;
      assert matches == Matches(Value(), record, epoch, catalog, required);
      return if matches == {} then None else Some(Least(matches));
    }

    method ChargeTenant(tenant: nat, bytes: nat)
      modifies this`charges
      ensures Value() == Charged(old(Value()), tenant, bytes)
    {
      charges := charges[tenant := (if tenant in charges then charges[tenant] else 0) + bytes];
    }

    method Join(request: Request, id: nat) returns (result: Result<Admission, RestoreError>)
      requires id in tickets
      modifies this`charges, this`tickets, this`requests
      ensures Outcome(Value(), result) == JoinTicket(old(Value()), request, id)
    {
      hide LogicalBytes, Charged;
      if |tickets[id].waiters| >= config.maxWaiters {
        return Err(WaiterCapacity);
      }
      ChargeTenant(request.tenant, LogicalBytes(request.required));
      ChargesOnly(old(Value()), request.tenant, LogicalBytes(request.required));
      tickets := tickets[id := tickets[id].(waiters := tickets[id].waiters[request.id := Waiter(request.tenant, request.required)])];
      requests := requests[request.id := id];
      return Ok(Joined(id));
    }

    method Create(request: Request, record: ExtentRecord, epoch: nat, catalog: nat) returns (result: Result<Admission, RestoreError>)
      modifies this`charges, this`tickets, this`requests, this`nextTicket, this`physical
      ensures Outcome(Value(), result) == CreateTicket(old(Value()), request, record, epoch, catalog)
    {
      hide LogicalBytes, Charged;
      if |tickets| >= config.maxTickets {
        return Err(TicketCapacity);
      }
      if physical + record.length > MAX_U64 {
        return Err(Overflow);
      }
      if physical + record.length > config.maxPhysical {
        return Err(PhysicalCapacity);
      }
      var id := nextTicket;
      if nextTicket + 1 > MAX_U64 {
        return Err(Overflow);
      }
      nextTicket := nextTicket + 1;
      ghost var t := Value();
      ChargeTenant(request.tenant, LogicalBytes(request.required));
      ChargesOnly(t, request.tenant, LogicalBytes(request.required));
      ChargesOnly(old(Value()), request.tenant, LogicalBytes(request.required));
      SameCharge(old(Value()), t, request.tenant, LogicalBytes(request.required));
      tickets := tickets[id := NewTicket(record, epoch, catalog, request)];
      requests := requests[request.id := id];
      physical := physical + record.length;
      return Ok(Created(id));
    }

    method PlanRequest(request: Request, record: ExtentRecord, epoch: nat, catalog: nat) returns (result: Result<Admission, RestoreError>)
      requires Valid()
      modifies this
      ensures Valid() && Outcome(Value(), result) == Plan(old(Value()), request, record, epoch, catalog)
    {
      hide Invariant, Least, CheckRequest, JoinTicket, CreateTicket;
      PlanKeeps(Value(), request, record, epoch, catalog);
      var _ :- Check(request, record, epoch, catalog);
      var found := CompatibleTicket(record, epoch, catalog, request.required);
      if found.Some? {
        result := Join(request, found.value);
      } else {
        result := Create(request, record, epoch, catalog);
      }
    }

    method ReserveBufferFor(id: nat) returns (result: Result<B.BufferId, RestoreError>)
      requires Valid()
      modifies this, buffers
      ensures Valid() && Outcome(Value(), result) == ReserveBuffer(old(Value()), id)
    {
      hide Invariant, B.Reserve, B.PoolFits;
      ReserveKeeps(Value(), id);
      SizesOf(Value());
      if id !in tickets {
        return Err(MissingTicket);
      }
      if !tickets[id].state.Planned? || tickets[id].buffer.Some? {
        return Err(WrongState);
      }
      var found := buffers.ReserveSlot(B.CpuRead);
      if found.Err? {
        return Err(BufferFault(found.error));
      }
      tickets := tickets[id := tickets[id].(buffer := Some(found.value), state := BufferReserved)];
      return Ok(found.value);
    }

    method CopyInto(id: nat, offset: nat, source: Bytes) returns (result: Result<(), RestoreError>)
      requires Valid()
      modifies buffers
      ensures Valid() && Outcome(Value(), result) == CopyIntoDestination(old(Value()), id, offset, source)
    {
      hide Invariant, B.Write;
      CopyKeeps(Value(), id, offset, source);
      if id !in tickets {
        return Err(MissingTicket);
      }
      var ticket := tickets[id];
      if !ticket.state.ReadSubmitted? || !ticket.originalPending || ticket.cancelPending || !ticket.hash.HashReserved? {
        return Err(WrongState);
      }
      if ticket.buffer.None? {
        return Err(WrongState);
      }
      if offset + |source| > MAX_U64 {
        return Err(Overflow);
      }
      if offset + |source| > ticket.record.length {
        return Err(BadRecord);
      }
      var written := buffers.WriteBytes(ticket.buffer.value, offset, source);
      if written.Err? {
        return Err(BufferFault(written.error));
      }
      return Ok(());
    }

    method SubmitReadNow(id: nat) returns (result: Result<(), RestoreError>)
      requires |descriptors.slots| > 0
      modifies this, buffers, descriptors
      ensures Outcome(Value(), result) == SubmitRead(old(Value()), id)
    {
      hide D.Allocate, B.Transition, CompleteDescriptor, CompleteEntry, TrySubmit;
      if retired {
        return Err(WorkerUnavailable);
      }
      if workers.Some? && workers.value.failed {
        return Err(WorkerPanic);
      }
      if id !in tickets {
        return Err(MissingTicket);
      }
      var ticket := tickets[id];
      if !ticket.state.BufferReserved? || ticket.originalPending || ticket.cancelPending || !ticket.hash.NoHash? {
        return Err(WrongState);
      }
      if hashJobs + 1 > MAX_U32 {
        return Err(Overflow);
      }
      if hashJobs + 1 > config.maxHashJobs {
        return Err(HashWait);
      }
      if ticket.buffer.None? {
        return Err(WrongState);
      }
      var granted := descriptors.AllocateSlot(BindingOf(id, ticket.buffer.value));
      if granted.Err? {
        return Err(DescriptorFault(granted.error));
      }
      var queued := TrySubmit(cq, OriginalCqe);
      if queued.Err? {
        var _ :- CompleteDescriptorNow(granted.value);
        return Err(queued.error);
      }
      cq := queued.value;
      var moved := buffers.MoveTo(ticket.buffer.value, B.ReadInflight);
      if moved.Err? {
        var _ :- CompleteEntryNow(OriginalCqe);
        var _ :- CompleteDescriptorNow(granted.value);
        return Err(BufferFault(moved.error));
      }
      tickets := tickets[id := ticket.(originalPending := true, originalToken := Some(granted.value), hash := HashReserved, state := ReadSubmitted)];
      hashJobs := hashJobs + 1;
      return Ok(());
    }

    method SubmitReadOf(id: nat) returns (result: Result<(), RestoreError>)
      requires Valid()
      modifies this, buffers, descriptors
      ensures Valid() && Outcome(Value(), result) == SubmitRead(old(Value()), id) && result != Err(CqWait)
    {
      hide Invariant, SubmitRead;
      SlotsExist(Value());
      SubmitKeeps(Value(), id);
      result := SubmitReadNow(id);
    }

    method Abandon(id: nat, async: bool) returns (result: Result<Cancellation, RestoreError>)
      requires id in tickets
      modifies this`tickets, this`cq, descriptors
      ensures Outcome(Value(), result) == AbandonRead(old(Value()), id, async)
    {
      hide TrySubmit, D.IssueCancel, CompleteEntry, D.CancelOf;
      tickets := tickets[id := tickets[id].(state := Abandoned)];
      if !async {
        return Ok(AbandonedWithoutAsyncCancel);
      }
      var queued := TrySubmit(cq, CancelCqe);
      if queued.Err? {
        if queued.error.CqWait? {
          return Ok(AbandonedWithoutAsyncCancel);
        }
        return Err(queued.error);
      }
      cq := queued.value;
      if tickets[id].originalToken.None? {
        return Err(WrongState);
      }
      var issued := descriptors.Cancel(tickets[id].originalToken.value);
      if issued.Err? {
        var _ :- CompleteEntryNow(CancelCqe);
        return Err(DescriptorFault(issued.error));
      }
      tickets := tickets[id := tickets[id].(cancelPending := true, cancelToken := Some(issued.value))];
      return Ok(AsyncCancelSubmitted);
    }

    method CancelNow(request: nat, async: bool) returns (result: Result<Cancellation, RestoreError>)
      modifies this, buffers, descriptors
      ensures Outcome(Value(), result) == CancelWaiter(old(Value()), request, async)
    {
      hide Uncharge, LogicalBytes, RemoveTicket, ReleaseTicket, AbandonRead;
      if request !in requests {
        return Err(MissingRequest);
      }
      var id := requests[request];
      if id !in tickets {
        return Err(MissingTicket);
      }
      if request !in tickets[id].waiters {
        return Err(MissingRequest);
      }
      var waiter := tickets[id].waiters[request];
      var _ :- UnchargeTenant(waiter.tenant, LogicalBytes(waiter.required));
      requests := requests - {request};
      var ticket := tickets[id].(waiters := tickets[id].waiters - {request});
      tickets := tickets[id := ticket];
      if ticket.waiters != map[] {
        return Ok(WaiterRemoved);
      }
      match ticket.state {
        case Planned =>
          var _ :- RemoveTicketNow(id);
          return Ok(ReleasedBeforeSubmission);
        case BufferReserved =>
          var _ :- ReleaseTicketNow(id, ticket.buffer);
          return Ok(ReleasedBeforeSubmission);
        case ReadSubmitted =>
          result := Abandon(id, async);
        case DataReady =>
          tickets := tickets[id := ticket.(state := Abandoned)];
          return Ok(WaitingForHash);
        case HashVerified =>
          var _ :- ReleaseTicketNow(id, ticket.buffer);
          return Ok(ReleasedAfterVerification);
        case _ =>
          return Err(WrongState);
      }
    }

    method Cancel(request: nat, async: bool) returns (result: Result<Cancellation, RestoreError>)
      requires Valid()
      modifies this, buffers, descriptors
      ensures Valid() && Outcome(Value(), result) == CancelWaiter(old(Value()), request, async)
      ensures async ==> result != Ok(AbandonedWithoutAsyncCancel)
    {
      hide Invariant, CancelWaiter;
      CancelKeeps(Value(), request, async);
      result := CancelNow(request, async);
    }

    method Reap(id: nat, token: Option<D.Token>, kind: CqKind) returns (result: Result<(), RestoreError>)
      requires id in tickets
      modifies this`cq, descriptors
      ensures Outcome(Value(), result) == ReapToken(old(Value()), id, token, kind)
    {
      hide CompleteDescriptor, CompleteEntry;
      if tickets[id].buffer.None? || token.None? {
        return Err(WrongState);
      }
      var bound := D.Resolve(D.Descriptors(descriptors.slots, descriptors.next), token.value);
      if bound.Err? {
        return Err(DescriptorFault(bound.error));
      }
      if bound.value != BindingOf(id, tickets[id].buffer.value) {
        return Err(DescriptorBinding);
      }
      if Counter(cq, kind) == 0 {
        return Err(CqUnderflow);
      }
      var _ :- CompleteDescriptorNow(token.value);
      result := CompleteEntryNow(kind);
    }

    method CompleteReadNow(id: nat, completion: ReadCompletion) returns (result: Result<(), RestoreError>)
      modifies this, buffers, descriptors
      ensures Outcome(Value(), result) == CompleteOriginal(old(Value()), id, completion)
    {
      hide ReapToken, FailTicket, FinishAbandoned, MoveBuffer;
      if id !in tickets {
        return Err(MissingTicket);
      }
      var ticket := tickets[id];
      if !ticket.originalPending || (!ticket.state.ReadSubmitted? && !ticket.state.Abandoned?) {
        return Err(DuplicateCompletion);
      }
      var _ :- Reap(id, ticket.originalToken, OriginalCqe);
      tickets := tickets[id := ticket.(originalPending := false, originalToken := None)];
      if completion.FailedRead? || (ticket.state.ReadSubmitted? && completion.CancelledRead?) {
        result := FailTicketNow(id);
        return;
      }
      if ticket.state.Abandoned? {
        result := FinishAbandonedIfReaped(id);
        return;
      }
      if ticket.buffer.None? {
        return Err(WrongState);
      }
      var _ :- MoveBufferTo(ticket.buffer.value, B.HashingForRead);
      if !ticket.hash.HashReserved? {
        return Err(HashBinding);
      }
      tickets := tickets[id := tickets[id].(hash := HashQueued, state := DataReady)];
      return Ok(());
    }

    method CompleteRead(id: nat, completion: ReadCompletion) returns (result: Result<(), RestoreError>)
      requires Valid()
      modifies this, buffers, descriptors
      ensures Valid() && Outcome(Value(), result) == CompleteOriginal(old(Value()), id, completion)
    {
      hide Invariant, CompleteOriginal;
      CompleteOriginalKeeps(Value(), id, completion);
      result := CompleteReadNow(id, completion);
    }

    method CompleteCancelNow(id: nat) returns (result: Result<(), RestoreError>)
      modifies this, buffers, descriptors
      ensures Outcome(Value(), result) == CompleteCancel(old(Value()), id)
    {
      hide ReapToken, FinishAbandoned, RemoveTicket;
      if id !in tickets {
        return Err(MissingTicket);
      }
      var ticket := tickets[id];
      if !ticket.cancelPending || (!ticket.state.Abandoned? && !ticket.state.Failed?) {
        return Err(DuplicateCompletion);
      }
      var _ :- Reap(id, ticket.cancelToken, CancelCqe);
      tickets := tickets[id := ticket.(cancelPending := false, cancelToken := None)];
      if ticket.originalPending {
        return Ok(());
      }
      if ticket.state.Abandoned? {
        result := FinishAbandonedIfReaped(id);
      } else {
        result := RemoveTicketNow(id);
      }
    }

    method CompleteCancelOf(id: nat) returns (result: Result<(), RestoreError>)
      requires Valid()
      modifies this, buffers, descriptors
      ensures Valid() && Outcome(Value(), result) == CompleteCancel(old(Value()), id)
    {
      hide Invariant, CompleteCancel;
      CompleteCancelKeeps(Value(), id);
      result := CompleteCancelNow(id);
    }

    // ---------------------------------------------------------------- checksums

    method StartChecksumWorkers(count: nat) returns (result: Result<(), RestoreError>)
      requires Valid()
      modifies this`workers
      ensures Valid() && Outcome(Value(), result) == StartWorkers(old(Value()), count)
    {
      hide Invariant;
      if workers.Some? || retired || hashJobs != 0 || config.maxHashJobs == 0 || count == 0 || count > config.maxHashJobs {
        return Err(WorkerConfig);
      }
      ghost var t := Value();
      workers := Some(Workers(config.maxHashJobs, [], seq(count, _ => Idle), [], false));
      WorkersDoNotMatter(t, Value());
      return Ok(());
    }

    /** The first ticket whose bytes wait for a checksum. */
    method FirstQueued() returns (found: Option<nat>)
      ensures found == if QueuedTickets(Value()) == {} then None else Some(Least(QueuedTickets(Value())))
      ensures found.Some? ==> found.value in tickets
    {
      hide Least;
      var queued := set id | id in tickets && tickets[id].hash.HashQueued?;
      assert queued == QueuedTickets(Value());
      return if queued == {} then None else Some(Least(queued));
    }

    /** Sends the first queued ticket to the workers; fails the pool if all of them are gone. */
    method DispatchNow() returns (result: Result<Option<HashJob>, RestoreError>)
      modifies this, buffers
      ensures Outcome(Value(), result) == DispatchChecksum(old(Value()))
    {
      hide FailPool, Least, AllExited, B.HashBuffer;
      if workers.None? {
        return Err(WorkerUnavailable);
      }
      if workers.value.failed {
        return Err(WorkerPanic);
      }
      var queued := FirstQueued();
      if queued.None? {
        return Ok(None);
      }
      var id := queued.value;
      var ticket := tickets[id];
      if !AwaitsHash(ticket) || ticket.buffer.None? {
        return Err(HashBinding);
      }
      var job := HashJob(id, ticket.buffer.value);
      var bytes := B.HashBuffer(B.Pool(buffers.slots, buffers.next), job.buffer);
      if bytes.Err? {
        return Err(BufferFault(bytes.error));
      }
      if AllExited(workers.value) {
        var _ :- FailChecksumPool();
        return Err(WorkerDisconnected);
      }
      if |workers.value.commands| >= workers.value.capacity {
        return Err(WorkerWait);
      }
      tickets := tickets[id := ticket.(hash := HashRunning)];
      workers := Some(workers.value.(commands := workers.value.commands + [Task(job, ticket.record)]));
      return Ok(Some(job));
    }

    /** Receives one completion; fails the pool after a panic or when all workers are gone. */
    method PollNow() returns (result: Result<Option<HashResult>, RestoreError>)
      modifies this, buffers
      ensures Outcome(Value(), result) == PollChecksum(old(Value()))
    {
      hide FailPool, AllExited;
      if workers.None? {
        return Err(WorkerUnavailable);
      }
      if workers.value.failed {
        return Err(WorkerPanic);
      }
      if workers.value.completions == [] {
        if AllExited(workers.value) {
          var _ :- FailChecksumPool();
          return Err(WorkerDisconnected);
        }
        return Ok(None);
      }
      var completion := workers.value.completions[0];
      workers := Some(workers.value.(completions := workers.value.completions[1..]));
      if completion.job.ticket !in tickets {
        return Err(MissingTicket);
      }
      var ticket := tickets[completion.job.ticket];
      if !AwaitsHash(ticket) || !ticket.hash.HashRunning? || ticket.buffer != Some(completion.job.buffer) {
        return Err(HashBinding);
      }
      if completion.outcome.Verified? {
        return Ok(Some(HashResult(completion.job, completion.outcome.integrity)));
      }
      var _ :- FailChecksumPool();
      return Err(WorkerPanic);
    }

    method DispatchNextChecksum() returns (result: Result<Option<HashJob>, RestoreError>)
      requires Valid()
      modifies this, buffers
      ensures Valid() && Outcome(Value(), result) == DispatchChecksum(old(Value()))
    {
      hide Invariant, DispatchChecksum;
      DispatchKeeps(Value());
      result := DispatchNow();
    }

    method PollChecksumResult() returns (result: Result<Option<HashResult>, RestoreError>)
      requires Valid()
      modifies this, buffers
      ensures Valid() && Outcome(Value(), result) == PollChecksum(old(Value()))
    {
      hide Invariant, PollChecksum;
      PollKeeps(Value());
      result := PollNow();
    }

    method ShutdownChecksumWorkers() returns (result: Result<(), RestoreError>)
      requires Valid()
      modifies this`workers, this`retired
      ensures Valid() && Outcome(Value(), result) == ShutdownWorkers(old(Value()))
    {
      hide Invariant;
      if hashJobs != 0 {
        return Err(CompletionOutstanding);
      }
      if workers.None? {
        return Err(WorkerUnavailable);
      }
      ghost var t := Value();
      workers, retired := None, true;
      WorkersDoNotMatter(t, Value());
      return Ok(());
    }

    method NextHashJobNow() returns (result: Result<Option<HashJob>, RestoreError>)
      modifies this`tickets
      ensures Outcome(Value(), result) == NextHashJob(old(Value()))
    {
      hide Least;
      if workers.Some? || retired {
        return Err(HashExecutionMode);
      }
      var queued := FirstQueued();
      if queued.None? {
        return Ok(None);
      }
      var id := queued.value;
      var ticket := tickets[id];
      if !AwaitsHash(ticket) || ticket.buffer.None? {
        return Err(HashBinding);
      }
      tickets := tickets[id := ticket.(hash := HashRunning)];
      return Ok(Some(HashJob(id, ticket.buffer.value)));
    }

    method TakeHashJob() returns (result: Result<Option<HashJob>, RestoreError>)
      requires Valid()
      modifies this`tickets
      ensures Valid() && Outcome(Value(), result) == NextHashJob(old(Value()))
    {
      hide Invariant, NextHashJob;
      NextHashKeeps(Value());
      result := NextHashJobNow();
    }

    /** Runs a checksum in the caller's thread. */
    method RunHash(decode: (ExtentRecord, Bytes) -> bool, job: HashJob) returns (result: Result<HashResult, RestoreError>)
      ensures result == RunHashJob(decode, Value(), job)
    {
      if workers.Some? || retired {
        return Err(HashExecutionMode);
      }
      if job.ticket !in tickets {
        return Err(MissingTicket);
      }
      var ticket := tickets[job.ticket];
      if !AwaitsHash(ticket) || !ticket.hash.HashRunning? || ticket.buffer != Some(job.buffer) {
        return Err(HashBinding);
      }
      var bytes := B.Read(B.Pool(buffers.slots, buffers.next), job.buffer);
      if bytes.Err? {
        return Err(BufferFault(bytes.error));
      }
      if ticket.record.length > |bytes.value| {
        return Err(BadRecord);
      }
      return Ok(HashResult(job, decode(ticket.record, bytes.value[..ticket.record.length])));
    }

    method CompleteHashNow(outcome: HashResult) returns (result: Result<(), RestoreError>)
      modifies this, buffers
      ensures Outcome(Value(), result) == CompleteHash(old(Value()), outcome)
    {
      hide FailTicket, MoveBuffer, ReleaseHash, ReleaseTicket;
      var id := outcome.job.ticket;
      if id !in tickets {
        return Err(MissingTicket);
      }
      var ticket := tickets[id];
      if !AwaitsHash(ticket) || !ticket.hash.HashRunning? || ticket.buffer != Some(outcome.job.buffer) {
        return Err(HashBinding);
      }
      if !outcome.verified {
        var _ :- FailTicketNow(id);
        return Err(IntegrityFailure);
      }
      var _ :- MoveBufferTo(outcome.job.buffer, B.HostReady);
      var _ :- ReleaseHashJob(id);
      if ticket.state.Abandoned? {
        result := ReleaseTicketNow(id, Some(outcome.job.buffer));
        return;
      }
      if id !in tickets {
        return Err(MissingTicket);
      }
      tickets := tickets[id := tickets[id].(state := HashVerified)];
      return Ok(());
    }

    method CompleteChecksum(outcome: HashResult) returns (result: Result<(), RestoreError>)
      requires Valid()
      modifies this, buffers
      ensures Valid() && Outcome(Value(), result) == CompleteHash(old(Value()), outcome)
    {
      hide Invariant, CompleteHash;
      CompleteHashKeeps(Value(), outcome);
      result := CompleteHashNow(outcome);
    }

    method FinishDeliveryNow(id: nat) returns (result: Result<seq<nat>, RestoreError>)
      modifies this, buffers
      ensures Outcome(Value(), result) == FinishDelivery(old(Value()), id)
    {
      hide ReleaseTicket, Sorted;
      if id !in tickets {
        return Err(MissingTicket);
      }
      var ticket := tickets[id];
      if !ticket.state.HashVerified? || ticket.originalPending || ticket.cancelPending || !ticket.hash.NoHash? {
        return Err(WrongState);
      }
      var ids := Sorted(ticket.waiters.Keys);
      var _ :- ReleaseTicketNow(id, ticket.buffer);
      return Ok(ids);
    }

    method FinishCpuDelivery(id: nat) returns (result: Result<seq<nat>, RestoreError>)
      requires Valid()
      modifies this, buffers
      ensures Valid() && Outcome(Value(), result) == FinishDelivery(old(Value()), id)
    {
      hide Invariant, FinishDelivery, Sorted;
      DeliveryKeeps(Value(), id);
      result := FinishDeliveryNow(id);
    }
  }

  lemma DispatchKeeps(t: Table)
    requires Invariant(t)
    ensures Invariant(DispatchChecksum(t).table)
  {
    hide Invariant, Accounts, FailedAll, FailPool, Least, Apart, B.HashBuffer;
    if t.workers.Some? && !t.workers.value.failed && QueuedTickets(t) != {} {
      var id := Least(QueuedTickets(t));
      RunningKeeps(t, id);
      if AllExited(t.workers.value) {
        PoolFails(t);
        PoolFailureKeeps(t);
      } else {
        WorkersDoNotMatter(Running(t, id), Running(t, id).(workers := DispatchChecksum(t).table.workers));
      }
    }
  }

  lemma PollKeeps(t: Table)
    requires Invariant(t)
    ensures Invariant(PollChecksum(t).table)
  {
    hide Invariant, Accounts, FailedAll, FailPool;
    if t.workers.Some? && !t.workers.value.failed {
      var w := t.workers.value;
      if w.completions == [] {
        if AllExited(w) {
          PoolFails(t);
          PoolFailureKeeps(t);
        }
      } else {
        var u := t.(workers := Some(w.(completions := w.completions[1..])));
        WorkersDoNotMatter(t, u);
        PoolFails(u);
        PoolFailureKeeps(u);
      }
    }
  }

  lemma SlotsExist(t: Table)
    requires Invariant(t)
    ensures |t.descriptors.slots| > 0
  {
  }

  lemma OnlyOk(r: Result<(), RestoreError>)
    requires r.Ok?
    ensures r == Ok(())
  {
    match r.value {
      case () =>
    }
  }

  lemma ChargesOnly(t: Table, tenant: nat, bytes: nat)
    ensures Charged(t, tenant, bytes) == t.(charges := Charged(t, tenant, bytes).charges)
  {
  }

  lemma SameCharge(t: Table, u: Table, tenant: nat, bytes: nat)
    requires u.charges == t.charges
    ensures Charged(u, tenant, bytes).charges == Charged(t, tenant, bytes).charges
  {
  }

  lemma CompletedResolves(d: D.Descriptors, token: D.Token)
    ensures D.Complete(d, token).Ok? ==> D.Resolve(d, token).Ok?
  {
  }
}
