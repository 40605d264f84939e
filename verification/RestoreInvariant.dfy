/** The invariant of the restore table, component by component (direct_restore.rs, validate_invariants). */
module RestoreInvariant {
  import opened Collections
  import opened RestoreModel
  import B = DirectBuffers
  import D = DirectDescriptors

  // ---------------------------------------------------------------- sizes

  ghost predicate Sized(t: Table) {
    && ConfigFits(t.config) && 0 < t.nextTicket <= MAX_U64
    && B.PoolFits(t.buffers) && |t.buffers.slots| == t.config.bufferSlots
    && D.TableFits(t.descriptors) && |t.descriptors.slots| == t.config.descriptorCapacity
    && t.cq.capacity == t.config.descriptorCapacity && t.cq.entries == 2 * t.config.descriptorCapacity && t.cq.fsync == 0
    && (forall id | id in t.tickets :: 0 < id < t.nextTicket)
    && |t.tickets| <= t.config.maxTickets
  }

  // ---------------------------------------------------------------- buffers

  predicate Owns(ticket: Ticket, i: nat) {
    ticket.buffer.Some? && ticket.buffer.value.slot == i
  }

  /** Tickets hold different buffers, under their current generation, and every active slot is held. */
  ghost predicate Held(tickets: map<nat, Ticket>, pool: B.Pool) {
    && (forall id | id in tickets && tickets[id].buffer.Some? :: B.Find(pool, tickets[id].buffer.value).Ok?)
    && (forall x, y | x in tickets && y in tickets && x != y && tickets[x].buffer.Some? && tickets[y].buffer.Some? ::
          tickets[x].buffer.value.slot != tickets[y].buffer.value.slot)
    && (forall i | 0 <= i < |pool.slots| && B.Active(pool.slots[i].state) ::
          exists id :: id in tickets && Owns(tickets[id], i))
  }

  // ---------------------------------------------------------------- descriptors

  /** The token names the descriptor of this ticket, and the descriptor waits for what the ticket waits for. */
  predicate Names(d: D.Descriptors, token: D.Token, cancel: bool, id: nat, ticket: Ticket) {
    && ticket.buffer.Some? && D.IsCancel(token) == cancel && D.Find(d, token).Ok?
    && d.slots[D.SlotOf(token)].entry ==
       Some(D.Entry(BindingOf(id, ticket.buffer.value), ticket.originalPending, ticket.cancelPending))
  }

  predicate TokensFit(d: D.Descriptors, id: nat, ticket: Ticket) {
    && (ticket.originalPending <==> ticket.originalToken.Some?)
    && (ticket.cancelPending <==> ticket.cancelToken.Some?)
    && (ticket.originalPending ==> Names(d, ticket.originalToken.value, false, id, ticket))
    && (ticket.cancelPending ==> Names(d, ticket.cancelToken.value, true, id, ticket))
    && (ticket.originalPending && ticket.cancelPending ==>
          D.SlotOf(ticket.originalToken.value) == D.SlotOf(ticket.cancelToken.value))
  }

  predicate Uses(ticket: Ticket, i: nat) {
    || (ticket.originalToken.Some? && D.SlotOf(ticket.originalToken.value) == i)
    || (ticket.cancelToken.Some? && D.SlotOf(ticket.cancelToken.value) == i)
  }

  /** Tokens and descriptors correspond, and every occupied descriptor belongs to a ticket. */
  ghost predicate Linked(tickets: map<nat, Ticket>, d: D.Descriptors) {
    && (forall id | id in tickets :: TokensFit(d, id, tickets[id]))
    && (forall i | 0 <= i < |d.slots| && d.slots[i].entry.Some? ::
          var id := d.slots[i].entry.value.binding.operation;
          id in tickets && Uses(tickets[id], i))
  }

  // ---------------------------------------------------------------- waiters and charges

  ghost predicate Asked(tickets: map<nat, Ticket>, requests: map<nat, nat>) {
    && (forall r | r in requests :: requests[r] in tickets && r in tickets[requests[r]].waiters)
    && (forall id, r | id in tickets && r in tickets[id].waiters :: r in requests && requests[r] == id)
  }

  function AllWaiters(tickets: map<nat, Ticket>, requests: map<nat, nat>): map<nat, Waiter> {
    map r | r in requests && requests[r] in tickets && r in tickets[requests[r]].waiters :: tickets[requests[r]].waiters[r]
  }

  function Bills(all: map<nat, Waiter>, tenant: nat): map<nat, nat> {
    map r | r in all && all[r].tenant == tenant :: LogicalBytes(all[r].required)
  }

  function ChargeIn(charges: map<nat, nat>, tenant: nat): nat {
    if tenant in charges then charges[tenant] else 0
  }

  /** Every tenant is charged for exactly its waiters, within the limit. */
  ghost predicate Billed(all: map<nat, Waiter>, charges: map<nat, nat>, limit: nat) {
    && (forall tenant: nat :: ChargeIn(charges, tenant) == Sum(Bills(all, tenant)) <= limit)
    && (forall tenant | tenant in charges :: charges[tenant] > 0)
  }

  // ---------------------------------------------------------------- counters

  function Lengths(tickets: map<nat, Ticket>): map<nat, nat> {
    map id | id in tickets :: tickets[id].record.length
  }

  function Originals(tickets: map<nat, Ticket>): set<nat> {
    set id | id in tickets && tickets[id].originalPending
  }

  function Cancels(tickets: map<nat, Ticket>): set<nat> {
    set id | id in tickets && tickets[id].cancelPending
  }

  ghost predicate Counted(t: Table) {
    && t.physical == Sum(Lengths(t.tickets)) <= t.config.maxPhysical
    && t.hashJobs == |HashHolders(t.tickets)| <= t.config.maxHashJobs
    && t.cq.original == |Originals(t.tickets)|
    && t.cq.cancel == |Cancels(t.tickets)|
  }

  // ---------------------------------------------------------------- tickets

  predicate WaitersFit(c: Config, ticket: Ticket) {
    && Validates(ticket.record) && ticket.epoch != 0 && ticket.catalog != 0
    && |ticket.waiters| <= c.maxWaiters
    && (forall r | r in ticket.waiters ::
          r != 0 && ticket.waiters[r].tenant != 0 && Satisfies(ticket.record.capability, ticket.waiters[r].required))
  }

  ghost predicate TicketsFit(c: Config, tickets: map<nat, Ticket>) {
    forall id | id in tickets :: WaitersFit(c, tickets[id])
  }

  /** The slot of the buffer a ticket holds. */
  function HeldSlot(pool: B.Pool, ticket: Ticket): Option<B.Slot> {
    if ticket.buffer.Some? && ticket.buffer.value.slot < |pool.slots|
    then Some(pool.slots[ticket.buffer.value.slot]) else None
  }

  function BufferStateOf(pool: B.Pool, ticket: Ticket): Option<B.BufferState> {
    if HeldSlot(pool, ticket).Some? then Some(HeldSlot(pool, ticket).value.state) else None
  }

  /** Nobody waits for the ticket any more; it stays for its completions. */
  predicate Ended(ticket: Ticket) {
    ticket.state.Abandoned? || ticket.state.Failed?
  }

  /** The ticket has failed while its read was in flight. */
  predicate Lost(tickets: map<nat, Ticket>, id: nat) {
    id in tickets && tickets[id].state.Failed? && tickets[id].originalPending
  }

  function LostReads(tickets: map<nat, Ticket>): set<nat> {
    set id | id in tickets && Lost(tickets, id)
  }

  /** What each state of a ticket says about its waiters, its completions, its checksum and its buffer. */
  predicate StateFits(pool: B.Pool, ticket: Ticket) {
    var state := BufferStateOf(pool, ticket);
    && (ticket.waiters == map[] <==> Ended(ticket))
    && match ticket.state
       case Planned =>
         ticket.buffer.None? && !ticket.originalPending && !ticket.cancelPending && ticket.hash.NoHash?
       case BufferReserved =>
         state == Some(B.ReadQueued) && !ticket.originalPending && !ticket.cancelPending && ticket.hash.NoHash?
       case ReadSubmitted =>
         state == Some(B.ReadInflight) && ticket.originalPending && !ticket.cancelPending && ticket.hash.HashReserved?
       case DataReady =>
         && state == Some(B.HashingForRead) && !ticket.originalPending && !ticket.cancelPending
         && (ticket.hash.HashQueued? || ticket.hash.HashRunning?)
       case HashVerified =>
         state == Some(B.HostReady) && !ticket.originalPending && !ticket.cancelPending && ticket.hash.NoHash?
       case Abandoned =>
         || (state == Some(B.ReadInflight) && ticket.hash.HashReserved? && (ticket.originalPending || ticket.cancelPending))
         || (state == Some(B.HashingForRead) && (ticket.hash.HashQueued? || ticket.hash.HashRunning?)
             && !ticket.originalPending && !ticket.cancelPending)
       case Failed =>
         state == Some(B.Quarantined) && (ticket.originalPending || ticket.cancelPending) && ticket.hash.NoHash?
  }

  // ---------------------------------------------------------------- the invariant

  /** Everything that must hold even in the middle of an operation on one ticket. */
  ghost predicate Accounts(t: Table) {
    && Sized(t)
    && Held(t.tickets, t.buffers)
    && Linked(t.tickets, t.descriptors)
    && Asked(t.tickets, t.requests)
    && Billed(AllWaiters(t.tickets, t.requests), t.charges, t.config.maxLogical)
    && Counted(t)
    && TicketsFit(t.config, t.tickets)
  }

  ghost predicate Invariant(t: Table) {
    && Accounts(t)
    && (forall id | id in t.tickets :: StateFits(t.buffers, t.tickets[id]))
  }

  /** `u` differs from `t` at most in ticket `id`, that ticket's buffer slot, and the counters. */
  ghost predicate Apart(t: Table, u: Table, id: nat) {
    && u.config == t.config && u.nextTicket >= t.nextTicket && u.workers == t.workers && u.retired == t.retired
    && |u.buffers.slots| == |t.buffers.slots|
    && (forall k | k in t.tickets && k != id ::
          && k in u.tickets && u.tickets[k] == t.tickets[k]
          && HeldSlot(u.buffers, u.tickets[k]) == HeldSlot(t.buffers, t.tickets[k]))
    && (forall k | k in u.tickets && k != id :: k in t.tickets)
  }

  /** The ticket keeps its record, its buffer and the bytes in it. */
  predicate Kept(t: Table, u: Table, id: nat) {
    && id in t.tickets && id in u.tickets
    && u.tickets[id].record == t.tickets[id].record && u.tickets[id].buffer == t.tickets[id].buffer
    && HeldSlot(u.buffers, u.tickets[id]) == HeldSlot(t.buffers, t.tickets[id])
  }

  /** As far as checksums go, nothing happened to the ticket: a running job runs on over the same
      bytes, a verified ticket is gone or holds the same bytes, and neither is new. No read is lost,
      and no lost read returns. */
  predicate Quiet(t: Table, u: Table, id: nat) {
    && (id in t.tickets && t.tickets[id].hash.HashRunning? ==>
          Kept(t, u, id) && u.tickets[id].hash.HashRunning? && AwaitsHash(u.tickets[id]))
    && (id in u.tickets && u.tickets[id].hash.HashRunning? ==> id in t.tickets && t.tickets[id].hash.HashRunning?)
    && (id in u.tickets && u.tickets[id].state.HashVerified? ==> Kept(t, u, id) && t.tickets[id].state.HashVerified?)
    && (id in t.tickets && id in u.tickets && t.tickets[id].state.HashVerified? ==> u.tickets[id].state.HashVerified?)
    && (id in u.tickets && !u.tickets[id].hash.NoHash? ==> id in t.tickets && !t.tickets[id].hash.NoHash?)
    && (Lost(u.tickets, id) <==> Lost(t.tickets, id))
  }

  lemma ApartIsTransitive(t: Table, u: Table, v: Table, id: nat)
    requires Apart(t, u, id) && Apart(u, v, id)
    ensures Apart(t, v, id)
  {
    hide HeldSlot;
  }

  /** Putting the one touched ticket right restores the invariant. */
  lemma Restores(t: Table, u: Table, id: nat)
    requires Invariant(t) && Apart(t, u, id) && Accounts(u)
    requires id in u.tickets ==> StateFits(u.buffers, u.tickets[id])
    ensures Invariant(u)
  {
    hide Accounts;
    forall k | k in u.tickets ensures StateFits(u.buffers, u.tickets[k]) {
      if k != id {
        assert StateFits(t.buffers, t.tickets[k]);
      }
    }
  }
}
