/** Read completions, cancel completions and checksum results keep the invariant. */
module RestoreCompletions {
  import opened Collections
  import opened RestoreModel
  import opened RestoreInvariant
  import opened RestorePrimitives
  import opened RestoreSteps
  import B = DirectBuffers
  import D = DirectDescriptors

  lemma Fitting(t: Table, id: nat)
    requires Invariant(t) && id in t.tickets
    ensures Accounts(t) && StateFits(t.buffers, t.tickets[id])
  {
  }

  lemma ReadyToHash(t: Table, u: Table, id: nat)
    requires Invariant(t) && Apart(t, u, id) && Accounts(u) && id in u.tickets
    requires u.tickets[id].state.ReadSubmitted? && u.tickets[id].hash.HashReserved? && u.tickets[id].waiters != map[]
    requires !u.tickets[id].originalPending && !u.tickets[id].cancelPending
    requires BufferStateOf(u.buffers, u.tickets[id]) == Some(B.ReadInflight)
    ensures var o := MoveBuffer(u, u.tickets[id].buffer.value, B.HashingForRead);
            && o.result == Ok(()) && o.table.tickets == u.tickets && o.table.descriptors == u.descriptors
            && var v := Put(o.table, id, u.tickets[id].(hash := HashQueued, state := DataReady));
            && Invariant(v) && Apart(t, v, id)
  {
    hide Accounts, Apart, MoveBuffer, Invariant;
    Moves(u, id, B.HashingForRead);
    var v := MoveBuffer(u, u.tickets[id].buffer.value, B.HashingForRead).table;
    var ready := u.tickets[id].(hash := HashQueued, state := DataReady);
    PutKeepsAccounts(v, id, ready);
    ApartIsTransitive(t, u, v, id);
    ApartIsTransitive(t, v, Put(v, id, ready), id);
    Restores(t, Put(v, id, ready), id);
  }

  /** A read completion in any order with its cancel. It succeeds exactly when the read is pending
      and its ticket has not failed. */
  lemma CompleteOriginalKeeps(t: Table, id: nat, completion: ReadCompletion)
    requires Invariant(t)
    ensures var o := CompleteOriginal(t, id, completion);
            && Invariant(o.table) && Apart(t, o.table, id)
            && (o.result.Ok? <==> id in t.tickets && t.tickets[id].originalPending && !t.tickets[id].state.Failed?)
            && (o.result.Err? ==> o.table == t)
            && (o.result.Ok? ==>
                  && t.tickets[id].originalToken.Some? && Quiet(t, o.table, id)
                  && D.Complete(t.descriptors, t.tickets[id].originalToken.value) == Ok(o.table.descriptors))
  {
    hide Accounts, Apart, Invariant, ReapToken, FailTicket, FinishAbandoned, MoveBuffer, B.Active, D.Complete;
    ApartFromItself(t, id);
    if id in t.tickets {
      Fitting(t, id);
      var ticket := t.tickets[id];
      if ticket.originalPending && !ticket.state.Failed? {
        Reaps(t, id, OriginalCqe);
        var v := Put(ReapToken(t, id, ticket.originalToken, OriginalCqe).table, id, Reaped(ticket, OriginalCqe));
        ActiveStates();
        if completion.FailedRead? || (ticket.state.ReadSubmitted? && completion.CancelledRead?) {
          FailKeepsInvariant(t, v, id);
        } else if ticket.state.Abandoned? {
          Finishes(t, v, id);
        } else {
          ReadyToHash(t, v, id);
        }
      }
    }
  }

  lemma ActiveStates()
    ensures B.Active(B.ReadQueued) && B.Active(B.ReadInflight) && B.Active(B.HashingForRead) && B.Active(B.HostReady)
  {
  }

  /** A cancel completion succeeds exactly when the cancel is pending. */
  lemma CompleteCancelKeeps(t: Table, id: nat)
    requires Invariant(t)
    ensures var o := CompleteCancel(t, id);
            && Invariant(o.table) && Apart(t, o.table, id)
            && (o.result.Ok? <==> id in t.tickets && t.tickets[id].cancelPending)
            && (o.result.Err? ==> o.table == t)
            && (o.result.Ok? ==>
                  && t.tickets[id].cancelToken.Some? && Quiet(t, o.table, id)
                  && D.Complete(t.descriptors, t.tickets[id].cancelToken.value) == Ok(o.table.descriptors)
                  && (t.tickets[id].originalPending ==>
                        id in o.table.tickets && Ended(o.table.tickets[id]) && o.table.tickets[id].state == t.tickets[id].state))
  {
    hide Accounts, Apart, Invariant, ReapToken, FinishAbandoned, RemoveTicket, B.Active, D.Complete;
    ApartFromItself(t, id);
    if id in t.tickets {
      Fitting(t, id);
      var ticket := t.tickets[id];
      if ticket.cancelPending {
        Reaps(t, id, CancelCqe);
        var v := Put(ReapToken(t, id, ticket.cancelToken, CancelCqe).table, id, Reaped(ticket, CancelCqe));
        if ticket.originalPending {
          Restores(t, v, id);
        } else if ticket.state.Abandoned? {
          Finishes(t, v, id);
        } else {
          QuarantinedIsInactive();
          Removes(v, id);
          ApartIsTransitive(t, v, RemoveTicket(v, id).table, id);
          Restores(t, RemoveTicket(v, id).table, id);
        }
      }
    }
  }

  // ---------------------------------------------------------------- checksum results

  /** A positive checksum makes the bytes ready, or frees the buffer of an abandoned ticket. */
  lemma VerifiedKeeps(t: Table, id: nat)
    requires Invariant(t) && id in t.tickets && AwaitsHash(t.tickets[id]) && t.tickets[id].hash.HashRunning?
    ensures t.tickets[id].buffer.Some?
    ensures var o := CompleteHash(t, HashResult(HashJob(id, t.tickets[id].buffer.value), true));
            && o.result == Ok(()) && Invariant(o.table) && Apart(t, o.table, id) && o.table.descriptors == t.descriptors
            && (t.tickets[id].state.DataReady? ==>
                  && id in o.table.tickets && o.table.tickets[id] == t.tickets[id].(hash := NoHash, state := HashVerified)
                  && o.table.buffers.slots[t.tickets[id].buffer.value.slot].bytes
                       == t.buffers.slots[t.tickets[id].buffer.value.slot].bytes)
            && (t.tickets[id].state.Abandoned? ==> id !in o.table.tickets)
  {
    hide Accounts, Apart, Invariant, MoveBuffer, ReleaseHash, ReleaseTicket;
    Fitting(t, id);
    var ticket := t.tickets[id];
    var buffer := ticket.buffer.value;
    Moves(t, id, B.HostReady);
    BufferOf(t, id);
    var u := MoveBuffer(t, buffer, B.HostReady).table;
    ReleasesAnyHash(u, id);
    var v := ReleaseHash(u, id).table;
    ApartIsTransitive(t, u, v, id);
    if ticket.state.Abandoned? {
      Releases(t, v, id);
    } else {
      var verified := v.tickets[id].(state := HashVerified);
      PutKeepsAccounts(v, id, verified);
      ApartIsTransitive(t, v, Put(v, id, verified), id);
      Restores(t, Put(v, id, verified), id);
    }
  }

  lemma RefutedKeeps(t: Table, id: nat)
    requires Invariant(t) && id in t.tickets && AwaitsHash(t.tickets[id]) && t.tickets[id].hash.HashRunning?
    ensures t.tickets[id].buffer.Some?
    ensures var o := CompleteHash(t, HashResult(HashJob(id, t.tickets[id].buffer.value), false));
            && o.result == Err(IntegrityFailure) && Invariant(o.table) && Apart(t, o.table, id) && id !in o.table.tickets
            && o.table.descriptors == t.descriptors
  {
    hide Accounts, Apart, Invariant, FailTicket, B.Active;
    Fitting(t, id);
    ActiveStates();
    ApartFromItself(t, id);
    FailKeepsInvariant(t, t, id);
    Fails(t, id);
  }

  lemma CompleteHashKeeps(t: Table, result: HashResult)
    requires Invariant(t)
    ensures Invariant(CompleteHash(t, result).table) && Apart(t, CompleteHash(t, result).table, result.job.ticket)
  {
    hide Invariant, Apart, MoveBuffer, ReleaseHash, ReleaseTicket, FailTicket;
    var id := result.job.ticket;
    ApartFromItself(t, id);
    if RunningJob(t, result.job) {
      if result.verified {
        VerifiedKeeps(t, id);
      } else {
        RefutedKeeps(t, id);
      }
    }
  }

  /** Delivery frees the buffer and returns the waiters of the ticket. */
  lemma DeliveryKeeps(t: Table, id: nat)
    requires Invariant(t)
    ensures var o := FinishDelivery(t, id);
            && Invariant(o.table) && Apart(t, o.table, id)
            && (o.result.Ok? <==> id in t.tickets && t.tickets[id].state.HashVerified?)
            && (o.result.Err? ==> o.table == t)
            && (o.result.Ok? ==>
                  && id !in o.table.tickets && o.result.value == Sorted(t.tickets[id].waiters.Keys)
                  && o.table.descriptors == t.descriptors && Quiet(t, o.table, id))
  {
    hide Accounts, Apart, Invariant, ReleaseTicket, Sorted;
    ApartFromItself(t, id);
    if id in t.tickets {
      Fitting(t, id);
      if t.tickets[id].state.HashVerified? {
        Releases(t, t, id);
      }
    }
  }

  /** Queued tickets are ready: neither job queue refuses one. */
  lemma NextHashKeeps(t: Table)
    requires Invariant(t)
    ensures var o := NextHashJob(t);
            && Invariant(o.table)
            && (o.result.Err? ==> o.table == t && o.result.error == HashExecutionMode)
            && (o.result.Ok? && o.result.value.Some? ==>
                  var id := o.result.value.value.ticket;
                  && id in t.tickets && t.tickets[id].hash.HashQueued? && t.tickets[id].buffer == Some(o.result.value.value.buffer)
                  && AwaitsHash(t.tickets[id])
                  && o.table == Put(t, id, t.tickets[id].(hash := HashRunning)) && Apart(t, o.table, id))
  {
    hide Accounts, Apart, Invariant;
    if t.workers.None? && !t.retired && QueuedTickets(t) != {} {
      var id := Least(QueuedTickets(t));
      RunningKeeps(t, id);
    }
  }

  lemma RunningKeeps(t: Table, id: nat)
    requires Invariant(t) && id in t.tickets && t.tickets[id].hash.HashQueued?
    ensures AwaitsHash(t.tickets[id]) && t.tickets[id].buffer.Some? && B.HashBuffer(t.buffers, t.tickets[id].buffer.value).Ok?
    ensures var u := Put(t, id, t.tickets[id].(hash := HashRunning)); Invariant(u) && Apart(t, u, id)
  {
    hide Accounts, Apart, Invariant;
    Fitting(t, id);
    BufferOf(t, id);
    var running := t.tickets[id].(hash := HashRunning);
    PutKeepsAccounts(t, id, running);
    Restores(t, Put(t, id, running), id);
  }
}
