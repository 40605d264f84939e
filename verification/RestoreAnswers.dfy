/** What each completion, cancellation, copy and checksum does to its ticket and to its buffer. */
module RestoreAnswers {
  import opened Collections
  import opened Octets
  import opened RestoreModel
  import opened RestoreInvariant
  import opened RestorePrimitives
  import opened RestoreSteps
  import opened RestoreCompletions
  import opened RestoreCancellations
  import opened RestoreSubmissions
  import B = DirectBuffers
  import D = DirectDescriptors

  // ---------------------------------------------------------------- endings

  /** The ticket is gone, nobody waits for it any more, and its buffer is in the given state. */
  ghost predicate Gone(t: Table, u: Table, id: nat, state: B.BufferState) {
    && id in t.tickets && id !in u.tickets
    && (forall r | r in t.tickets[id].waiters :: r !in u.requests)
    && (t.tickets[id].buffer.Some? ==>
          && t.tickets[id].buffer.value.slot < |u.buffers.slots|
          && u.buffers.slots[t.tickets[id].buffer.value.slot].state == state
          && (state.Free? ==> u.buffers.slots[t.tickets[id].buffer.value.slot].bytes == Zeros(B.BUFFER_BYTES)))
  }

  /** The requests of a ticket that is gone are forgotten. */
  lemma NobodyWaits(t: Table, u: Table, id: nat)
    requires Invariant(t) && Invariant(u) && Apart(t, u, id) && id in t.tickets && id !in u.tickets
    ensures forall r | r in t.tickets[id].waiters :: r !in u.requests
  {
    hide Sized, Held, Linked, Billed, Counted, TicketsFit, StateFits, HeldSlot;
    forall r | r in t.tickets[id].waiters ensures r !in u.requests {
      if r in u.requests {
        OneOwner(t.tickets, t.requests, u.requests[r], id, r);
      }
    }
  }

  lemma {:induction false} WaitersKeepBuffers(t: Table, waiters: map<nat, Waiter>, ids: seq<nat>, n: nat, first: bool)
    requires n <= |ids| && forall i | i in ids :: i in waiters
    ensures ReleaseWaiters(t, waiters, ids, n, first).table.buffers == t.buffers
  {
    if n > 0 {
      WaitersKeepBuffers(t, waiters, ids, n - 1, first);
    }
  }

  lemma RemovalKeepsBuffers(t: Table, id: nat)
    ensures RemoveTicket(t, id).table.buffers == t.buffers
  {
    hide ReleaseWaiters, Sorted;
    if id in t.tickets {
      var ids := Sorted(t.tickets[id].waiters.Keys);
      assert forall i | i in ids :: i in t.tickets[id].waiters;
      WaitersKeepBuffers(t.(tickets := t.tickets - {id}), t.tickets[id].waiters, ids, |ids|, true);
    }
  }

  lemma ClearingKeepsBuffers(t: Table, id: nat)
    ensures ClearWaiters(t, id).table.buffers == t.buffers
  {
    hide ReleaseWaiters, Sorted;
    if id in t.tickets {
      var ids := Sorted(t.tickets[id].waiters.Keys);
      assert forall i | i in ids :: i in t.tickets[id].waiters;
      WaitersKeepBuffers(t, t.tickets[id].waiters, ids, |ids|, false);
    }
  }

  lemma FailingQuarantines(t: Table, id: nat)
    requires FailTicket(t, id).result.Ok? && Accounts(t) && id in t.tickets && t.tickets[id].buffer.Some?
    requires BufferStateOf(t.buffers, t.tickets[id]).Some? && B.Active(BufferStateOf(t.buffers, t.tickets[id]).value)
    ensures BufferStateOf(FailTicket(t, id).table.buffers, t.tickets[id]) == Some(B.Quarantined)
  {
    hide Accounts, QuarantineBuffer, ClearWaiters, RemoveTicket, B.Active;
    Quarantines(t, id);
    var u := QuarantineBuffer(t, t.tickets[id].buffer.value).table;
    var v := ReleaseHash(u, id).table;
    ClearingKeepsBuffers(v, id);
    var w := ClearWaiters(v, id).table;
    if id in w.tickets {
      RemovalKeepsBuffers(Put(w, id, w.tickets[id].(state := Failed)), id);
    }
  }

  lemma FinishingFrees(t: Table, id: nat)
    requires FinishAbandoned(t, id).result.Ok? && Accounts(t) && id in t.tickets
    requires !t.tickets[id].originalPending && !t.tickets[id].cancelPending && t.tickets[id].buffer.Some?
    ensures HeldSlot(FinishAbandoned(t, id).table.buffers, t.tickets[id]).Some?
    ensures var slot := HeldSlot(FinishAbandoned(t, id).table.buffers, t.tickets[id]).value;
            slot.state.Free? && slot.bytes == Zeros(B.BUFFER_BYTES)
  {
    hide Accounts, RemoveTicket, Zeros;
    BufferOf(t, id);
    var u := ReleaseHash(t, id).table;
    var released := B.ReleaseAbandoned(u.buffers, t.tickets[id].buffer.value);
    if released.Ok? {
      RemovalKeepsBuffers(u.(buffers := released.value), id);
    }
  }

  lemma FinishingWaits(t: Table, id: nat)
    requires id in t.tickets && t.tickets[id].state.Abandoned? && t.tickets[id].cancelPending
    ensures FinishAbandoned(t, id) == Done(t)
  {
  }

  lemma ReleasingFrees(t: Table, id: nat)
    requires id in t.tickets && t.tickets[id].buffer.Some? && ReleaseTicket(t, id, t.tickets[id].buffer).result.Ok?
    ensures HeldSlot(ReleaseTicket(t, id, t.tickets[id].buffer).table.buffers, t.tickets[id]).Some?
    ensures var slot := HeldSlot(ReleaseTicket(t, id, t.tickets[id].buffer).table.buffers, t.tickets[id]).value;
            slot.state.Free? && slot.bytes == Zeros(B.BUFFER_BYTES)
  {
    hide RemoveTicket, Zeros;
    var u := MoveBuffer(t, t.tickets[id].buffer.value, B.Free).table;
    RemovalKeepsBuffers(u, id);
  }

  // ---------------------------------------------------------------- read completions

  /** A read that came back whole goes on to its checksum with its waiters and its bytes; a failed read, or a
      cancelled one that was still wanted, ends in failure; the read of an abandoned ticket frees its buffer.
      A ticket with a cancel outstanding stays for it. */
  ghost predicate ReadEnds(t: Table, u: Table, id: nat, completion: ReadCompletion) {
    && id in t.tickets
    && var ticket := t.tickets[id];
    && (ticket.state.ReadSubmitted? && completion.ExactRead? ==>
          && id in u.tickets
          && u.tickets[id] == ticket.(state := DataReady, hash := HashQueued, originalPending := false, originalToken := None)
          && BufferStateOf(u.buffers, ticket) == Some(B.HashingForRead)
          && BytesKept(t, u, ticket))
    && (ticket.state.ReadSubmitted? && !completion.ExactRead? ==> Gone(t, u, id, B.Quarantined))
    && (ticket.state.Abandoned? && completion.FailedRead? && !ticket.cancelPending ==> Gone(t, u, id, B.Quarantined))
    && (ticket.state.Abandoned? && !completion.FailedRead? && !ticket.cancelPending ==> Gone(t, u, id, B.Free))
    && (ticket.state.Abandoned? && ticket.cancelPending ==>
          && id in u.tickets && u.tickets[id].cancelPending && !u.tickets[id].originalPending && u.tickets[id].waiters == map[]
          && (completion.FailedRead? ==> u.tickets[id].state.Failed? && BufferStateOf(u.buffers, ticket) == Some(B.Quarantined))
          && (!completion.FailedRead? ==> u.tickets[id].state.Abandoned? && BufferStateOf(u.buffers, ticket) == Some(B.ReadInflight)))
  }

  predicate BytesKept(t: Table, u: Table, ticket: Ticket) {
    && HeldSlot(t.buffers, ticket).Some? && HeldSlot(u.buffers, ticket).Some?
    && HeldSlot(u.buffers, ticket).value.bytes == HeldSlot(t.buffers, ticket).value.bytes
  }

  lemma ExactReads(t: Table, v: Table, id: nat)
    requires Accounts(v) && id in v.tickets && v.buffers == t.buffers && id in t.tickets && t.tickets[id].buffer == v.tickets[id].buffer
    requires v.tickets[id].buffer.Some? && BufferStateOf(v.buffers, v.tickets[id]) == Some(B.ReadInflight)
    ensures var u := MoveBuffer(v, v.tickets[id].buffer.value, B.HashingForRead).table;
            BytesKept(t, u, t.tickets[id]) && BufferStateOf(u.buffers, t.tickets[id]) == Some(B.HashingForRead)
  {
    hide Accounts, MoveBuffer;
    BufferOf(v, id);
    Moves(v, id, B.HashingForRead);
  }

  lemma ReadsExactly(t: Table, id: nat, completion: ReadCompletion)
    requires Invariant(t)
    ensures var o := CompleteOriginal(t, id, completion);
            && (o.result.Ok? <==> id in t.tickets && t.tickets[id].originalPending && !t.tickets[id].state.Failed?)
            && (o.result.Err? ==> o.table == t)
            && (o.result.Ok? ==> ReadEnds(t, o.table, id, completion))
  {
    hide Accounts, Apart, Invariant, Quiet, ReapToken, FailTicket, FinishAbandoned, MoveBuffer, B.Active, D.Complete, CompleteOriginal, ReadEnds;
    CompleteOriginalKeeps(t, id, completion);
    if CompleteOriginal(t, id, completion).result.Ok? {
      ReadEndsSo(t, id, completion);
    }
  }

  lemma ReadEndsSo(t: Table, id: nat, completion: ReadCompletion)
    requires Invariant(t) && id in t.tickets && t.tickets[id].originalPending && !t.tickets[id].state.Failed?
    ensures ReadEnds(t, CompleteOriginal(t, id, completion).table, id, completion)
  {
    hide Accounts, Apart, Invariant, Quiet, ReapToken, FailTicket, FinishAbandoned, MoveBuffer, B.Active, D.Complete;
    CompleteOriginalKeeps(t, id, completion);
    Fitting(t, id);
    var ticket, u := t.tickets[id], CompleteOriginal(t, id, completion).table;
    Reaps(t, id, OriginalCqe);
    var v := Put(ReapToken(t, id, ticket.originalToken, OriginalCqe).table, id, Reaped(ticket, OriginalCqe));
    ActiveStates();
    BufferOf(t, id);
    if completion.FailedRead? || (ticket.state.ReadSubmitted? && completion.CancelledRead?) {
      Fails(v, id);
      FailingQuarantines(v, id);
    } else if ticket.state.Abandoned? {
      Finishes(t, v, id);
      if ticket.cancelPending {
        FinishingWaits(v, id);
      } else {
        FinishingFrees(v, id);
      }
    } else {
      ReadyToHash(t, v, id);
      ExactReads(t, v, id);
    }
    if id !in u.tickets {
      NobodyWaits(t, u, id);
    }
  }

  /** A cancel that came back leaves a ticket whose read is still out as it was; otherwise an abandoned
      ticket frees its buffer and a failed one goes, its buffer in quarantine. */
  lemma CancelsEnd(t: Table, id: nat)
    requires Invariant(t)
    ensures var o := CompleteCancel(t, id);
            && (o.result.Ok? <==> id in t.tickets && t.tickets[id].cancelPending)
            && (o.result.Err? ==> o.table == t)
            && (o.result.Ok? ==>
                  var ticket := t.tickets[id];
                  && (ticket.originalPending ==>
                        id in o.table.tickets && o.table.tickets[id] == ticket.(cancelPending := false, cancelToken := None)
                        && o.table.buffers == t.buffers)
                  && (!ticket.originalPending && ticket.state.Abandoned? ==> Gone(t, o.table, id, B.Free))
                  && (!ticket.originalPending && ticket.state.Failed? ==> Gone(t, o.table, id, B.Quarantined)))
  {
    hide Accounts, Apart, Invariant, Quiet, ReapToken, FinishAbandoned, RemoveTicket, B.Active, D.Complete;
    CompleteCancelKeeps(t, id);
    if id in t.tickets && t.tickets[id].cancelPending {
      Fitting(t, id);
      BufferOf(t, id);
      var ticket, u := t.tickets[id], CompleteCancel(t, id).table;
      Reaps(t, id, CancelCqe);
      var v := Put(ReapToken(t, id, ticket.cancelToken, CancelCqe).table, id, Reaped(ticket, CancelCqe));
      if ticket.originalPending {
      } else if ticket.state.Abandoned? {
        Finishes(t, v, id);
        FinishingFrees(v, id);
      } else {
        QuarantinedIsInactive();
        Removes(v, id);
      }
      if id !in u.tickets {
        NobodyWaits(t, u, id);
      }
    }
  }

  // ---------------------------------------------------------------- bytes from the device

  /** Bytes are copied exactly while the read is in flight and they fit the record; they land where they
      belong, and no other byte of any buffer changes. */
  lemma CopiesExactly(t: Table, id: nat, offset: nat, source: Bytes)
    requires Invariant(t)
    ensures var o := CopyIntoDestination(t, id, offset, source);
            && (o.result.Ok? <==> id in t.tickets && t.tickets[id].state.ReadSubmitted? && offset + |source| <= t.tickets[id].record.length)
            && (o.result.Err? ==> o.table == t)
            && (o.result.Ok? ==>
                  && t.tickets[id].buffer.Some?
                  && var i, u := t.tickets[id].buffer.value.slot, o.table.buffers;
                  && i < |t.buffers.slots| == |u.slots|
                  && |u.slots[i].bytes| == |t.buffers.slots[i].bytes| && offset + |source| <= |u.slots[i].bytes|
                  && u.slots[i].bytes[offset..offset + |source|] == source
                  && (forall k | 0 <= k < |u.slots[i].bytes| && !(offset <= k < offset + |source|) ::
                        u.slots[i].bytes[k] == t.buffers.slots[i].bytes[k])
                  && (forall j | 0 <= j < |u.slots| && j != i :: u.slots[j] == t.buffers.slots[j]))
  {
    hide Invariant, Accounts, StateFits;
    if id in t.tickets && t.tickets[id].state.ReadSubmitted? {
      Fitting(t, id);
      ReadIsOut(t, id);
      BufferOf(t, id);
      LengthFits(t, id);
    }
  }

  lemma ReadIsOut(t: Table, id: nat)
    requires id in t.tickets && t.tickets[id].state.ReadSubmitted? && StateFits(t.buffers, t.tickets[id])
    ensures var ticket := t.tickets[id];
            && ticket.buffer.Some? && BufferStateOf(t.buffers, ticket) == Some(B.ReadInflight)
            && ticket.originalPending && !ticket.cancelPending && ticket.hash.HashReserved?
  {
  }

  // ---------------------------------------------------------------- cancelling

  /** The waiter is gone from its ticket. The last one ends a ticket that was not submitted yet or was
      verified already, and abandons one whose read or checksum is under way. */
  ghost predicate WaiterLeaves(t: Table, u: Table, id: nat, request: nat, async: bool) {
    && id in t.tickets && request !in u.requests
    && var ticket := t.tickets[id];
    && var left := ticket.(waiters := ticket.waiters - {request});
    && (ticket.waiters.Keys != {request} ==> u.tickets == t.tickets[id := left] && u.buffers == t.buffers)
    && (ticket.waiters.Keys == {request} ==>
          && (ticket.state.Planned? || ticket.state.BufferReserved? || ticket.state.HashVerified? ==> Gone(t, u, id, B.Free))
          && (ticket.state.ReadSubmitted? ==>
                && ticket.originalToken.Some? && u.buffers == t.buffers
                && u.tickets == t.tickets[id := if async
                                                then left.(state := Abandoned, cancelPending := true,
                                                           cancelToken := Some(D.CancelOf(ticket.originalToken.value)))
                                                else left.(state := Abandoned)])
          && (ticket.state.DataReady? ==> u.tickets == t.tickets[id := left.(state := Abandoned)] && u.buffers == t.buffers))
  }

  lemma AbandonTickets(v: Table, id: nat, async: bool)
    requires id in v.tickets && v.tickets[id].originalToken.Some?
    requires AbandonRead(v, id, async).result == Ok(if async then AsyncCancelSubmitted else AbandonedWithoutAsyncCancel)
    ensures var u, ticket := AbandonRead(v, id, async).table, v.tickets[id];
            && u.buffers == v.buffers && u.requests == v.requests
            && u.tickets == v.tickets[id := if async
                                            then ticket.(state := Abandoned, cancelPending := true,
                                                         cancelToken := Some(D.CancelOf(ticket.originalToken.value)))
                                            else ticket.(state := Abandoned)]
  {
    hide TrySubmit, D.IssueCancel, D.CancelOf;
  }

  lemma CancelsWaiter(t: Table, request: nat, async: bool)
    requires Invariant(t)
    ensures var o := CancelWaiter(t, request, async);
            && (request !in t.requests ==> o.result == Err(MissingRequest) && o.table == t)
            && (request in t.requests ==> o.result.Ok? && WaiterLeaves(t, o.table, t.requests[request], request, async))
  {
    hide Invariant, Accounts, Apart, Quiet, WaiterLeaves, CancelWaiter;
    CancelKeeps(t, request, async);
    if request in t.requests {
      WaiterLeavesSo(t, request, async);
    }
  }

  lemma WaiterLeavesSo(t: Table, request: nat, async: bool)
    requires Invariant(t) && request in t.requests
    ensures WaiterLeaves(t, CancelWaiter(t, request, async).table, t.requests[request], request, async)
  {
    hide Invariant, Accounts, Apart, Quiet, RemoveTicket, ReleaseTicket, AbandonRead, Uncharge, LogicalBytes, D.IssueCancel, D.CancelOf;
    var id := t.requests[request];
    var u := CancelWaiter(t, request, async).table;
    CancelKeeps(t, request, async);
    KnownRequest(t, request);
    Fitting(t, id);
    NoTokens(t, id);
    Leaves(t, id, request);
    LastWaiter(t.tickets[id].waiters, request);
    var v := WithoutWaiter(t, id, request);
    if v.tickets[id].waiters == map[] {
      LastLeaves(t, v, id, async);
      match t.tickets[id].state {
        case Planned => Removes(v, id); NobodyWaits(t, u, id);
        case BufferReserved => ReleasingFrees(v, id); Releases(t, v, id); NobodyWaits(t, u, id);
        case HashVerified => ReleasingFrees(v, id); Releases(t, v, id); NobodyWaits(t, u, id);
        case ReadSubmitted => AbandonTickets(v, id, async);
        case _ =>
      }
    }
  }

  // ---------------------------------------------------------------- checksums and delivery

  /** A checksum result counts exactly when its ticket waits for that very job on that very buffer. Good bytes
      are ready for delivery, unchanged, or free the buffer of an abandoned ticket; bad ones end the ticket and
      quarantine the buffer. */
  lemma ResultsEnd(t: Table, result: HashResult)
    requires Invariant(t)
    ensures var o, id := CompleteHash(t, result), result.job.ticket;
            var counts := && id in t.tickets && t.tickets[id].hash.HashRunning? && t.tickets[id].buffer == Some(result.job.buffer)
                          && !t.tickets[id].originalPending && !t.tickets[id].cancelPending
                          && (t.tickets[id].state.DataReady? || t.tickets[id].state.Abandoned?);
            && (o.result.Ok? <==> counts && result.verified)
            && (!counts ==> o.table == t)
            && (counts && !result.verified ==> o.result == Err(IntegrityFailure) && Gone(t, o.table, id, B.Quarantined))
            && (counts && result.verified && t.tickets[id].state.Abandoned? ==> Gone(t, o.table, id, B.Free))
            && (counts && result.verified && t.tickets[id].state.DataReady? ==>
                  && id in o.table.tickets && o.table.tickets[id] == t.tickets[id].(hash := NoHash, state := HashVerified)
                  && BufferStateOf(o.table.buffers, t.tickets[id]) == Some(B.HostReady) && BytesKept(t, o.table, t.tickets[id]))
  {
    hide Accounts, Apart, Invariant, MoveBuffer, ReleaseHash, ReleaseTicket, FailTicket, Gone, B.Active;
    var id := result.job.ticket;
    if RunningJob(t, result.job) {
      Fitting(t, id);
      ActiveStates();
      BufferOf(t, id);
      if !result.verified {
        RefutedIsGone(t, id);
        RefutedKeeps(t, id);
      } else {
        VerifiedKeeps(t, id);
        if t.tickets[id].state.Abandoned? {
          VerifiedIsGone(t, id);
        } else {
          Fitting(CompleteHash(t, result).table, id);
        }
      }
    }
  }

  lemma RefutedIsGone(t: Table, id: nat)
    requires Invariant(t) && id in t.tickets && AwaitsHash(t.tickets[id]) && t.tickets[id].hash.HashRunning? && t.tickets[id].buffer.Some?
    ensures Gone(t, CompleteHash(t, HashResult(HashJob(id, t.tickets[id].buffer.value), false)).table, id, B.Quarantined)
  {
    hide Accounts, Apart, Invariant, FailTicket, B.Active;
    Fitting(t, id);
    ActiveStates();
    RefutedKeeps(t, id);
    Fails(t, id);
    FailingQuarantines(t, id);
    NobodyWaits(t, CompleteHash(t, HashResult(HashJob(id, t.tickets[id].buffer.value), false)).table, id);
  }

  lemma VerifiedIsGone(t: Table, id: nat)
    requires Invariant(t) && id in t.tickets && AwaitsHash(t.tickets[id]) && t.tickets[id].hash.HashRunning?
    requires t.tickets[id].state.Abandoned? && t.tickets[id].buffer.Some?
    ensures Gone(t, CompleteHash(t, HashResult(HashJob(id, t.tickets[id].buffer.value), true)).table, id, B.Free)
  {
    hide Accounts, Apart, Invariant, MoveBuffer, ReleaseHash, ReleaseTicket;
    Fitting(t, id);
    VerifiedKeeps(t, id);
    Moves(t, id, B.HostReady);
    var u := MoveBuffer(t, t.tickets[id].buffer.value, B.HostReady).table;
    ReleasesAnyHash(u, id);
    var v := ReleaseHash(u, id).table;
    ReleasingFrees(v, id);
    NobodyWaits(t, CompleteHash(t, HashResult(HashJob(id, t.tickets[id].buffer.value), true)).table, id);
  }

  /** Delivery returns exactly the waiters of a verified ticket, in order, and frees its buffer. */
  lemma DeliversExactly(t: Table, id: nat)
    requires Invariant(t)
    ensures var o := FinishDelivery(t, id);
            && (o.result.Ok? <==> id in t.tickets && t.tickets[id].state.HashVerified?)
            && (o.result.Err? ==> o.table == t)
            && (o.result.Ok? ==>
                  && (forall r :: r in o.result.value <==> r in t.tickets[id].waiters)
                  && (forall i, j | 0 <= i < j < |o.result.value| :: o.result.value[i] < o.result.value[j])
                  && Gone(t, o.table, id, B.Free))
  {
    hide Accounts, Apart, Invariant, Quiet, ReleaseTicket, StateFits;
    DeliveryKeeps(t, id);
    if FinishDelivery(t, id).result.Ok? {
      Fitting(t, id);
      VerifiedHoldsBuffer(t, id);
      ReleasingFrees(t, id);
      NobodyWaits(t, FinishDelivery(t, id).table, id);
    }
  }

  lemma VerifiedHoldsBuffer(t: Table, id: nat)
    requires id in t.tickets && t.tickets[id].state.HashVerified? && StateFits(t.buffers, t.tickets[id])
    ensures t.tickets[id].buffer.Some?
  {
  }

  // ---------------------------------------------------------------- which job is next

  /** Of the tickets whose bytes wait for a checksum, `id` is the first. */
  predicate FirstQueued(t: Table, id: nat) {
    id in t.tickets && t.tickets[id].hash.HashQueued? && forall k | k in t.tickets && t.tickets[k].hash.HashQueued? :: id <= k
  }

  lemma LeastIsFirst(t: Table)
    ensures QueuedTickets(t) == {} <==> forall id :: !FirstQueued(t, id)
    ensures QueuedTickets(t) != {} ==> forall id :: id == Least(QueuedTickets(t)) <==> FirstQueued(t, id)
  {
    if QueuedTickets(t) != {} {
      var first := Least(QueuedTickets(t));
      forall k | k in t.tickets && t.tickets[k].hash.HashQueued? ensures first <= k {
        assert k in QueuedTickets(t);
      }
      assert FirstQueued(t, first);
      forall id | FirstQueued(t, id) ensures id == first {
        assert id in QueuedTickets(t);
      }
    }
    forall id | FirstQueued(t, id) ensures QueuedTickets(t) != {} {
      assert id in QueuedTickets(t);
    }
  }

  /** Without workers, the caller is given the first queued ticket, and nothing exactly when none is queued. */
  lemma TakesFirst(t: Table)
    requires Invariant(t)
    ensures var o := NextHashJob(t);
            && (o.result.Ok? <==> t.workers.None? && !t.retired)
            && (o.result.Err? ==> o.table == t)
            && (o.result == Ok(None) ==> o.table == t && forall id :: !FirstQueued(t, id))
            && (o.result.Ok? && o.result.value.Some? ==>
                  var job := o.result.value.value;
                  && FirstQueued(t, job.ticket) && t.tickets[job.ticket].buffer == Some(job.buffer)
                  && o.table == t.(tickets := t.tickets[job.ticket := t.tickets[job.ticket].(hash := HashRunning)]))
  {
    hide Invariant, Apart;
    NextHashKeeps(t);
    LeastIsFirst(t);
  }

  /** With workers, the first queued ticket goes to the end of their queue. */
  lemma DispatchesFirst(t: Table)
    requires Invariant(t)
    ensures var o := DispatchChecksum(t);
            && (o.result == Ok(None) <==> t.workers.Some? && !t.workers.value.failed && forall id :: !FirstQueued(t, id))
            && (o.result.Ok? && o.result.value.Some? <==>
                  && t.workers.Some? && !t.workers.value.failed && (exists id :: FirstQueued(t, id))
                  && (exists i :: 0 <= i < |t.workers.value.threads| && !t.workers.value.threads[i].Exited?)
                  && |t.workers.value.commands| < t.workers.value.capacity)
            && (o.result.Ok? && o.result.value.Some? ==>
                  var job, w := o.result.value.value, t.workers.value;
                  && FirstQueued(t, job.ticket) && t.tickets[job.ticket].buffer == Some(job.buffer)
                  && o.table == t.(tickets := t.tickets[job.ticket := t.tickets[job.ticket].(hash := HashRunning)],
                                   workers := Some(w.(commands := w.commands + [Task(job, t.tickets[job.ticket].record)]))))
  {
    hide Invariant, Apart, FirstQueued, FailPool, AwaitsHash, B.HashBuffer;
    LeastIsFirst(t);
    if QueuedTickets(t) != {} {
      QueuedIsReady(t);
    }
  }

  lemma QueuedIsReady(t: Table)
    requires Invariant(t) && QueuedTickets(t) != {}
    ensures var id := Least(QueuedTickets(t));
            && FirstQueued(t, id) && AwaitsHash(t.tickets[id]) && t.tickets[id].buffer.Some?
            && B.HashBuffer(t.buffers, t.tickets[id].buffer.value).Ok?
  {
    hide Invariant, Apart, AwaitsHash, B.HashBuffer;
    LeastIsFirst(t);
    RunningKeeps(t, Least(QueuedTickets(t)));
  }
}
