/** What holds in every run of the restore table. */
module RestoreTheorems {
  import opened Collections
  import opened Octets
  import opened RestoreModel
  import opened RestoreInvariant
  import opened RestorePrimitives
  import opened RestoreCompletions
  import opened RestoreQueue
  import opened RestoreSubmissions
  import opened RestoreCancellations
  import opened RestoreWorkers
  import opened RestoreIntegrity
  import opened RestoreTokens
  import opened RestoreSystem
  import opened RestoreRuns
  import B = DirectBuffers
  import D = DirectDescriptors

  function NewSystem(c: Config): System {
    System(NewTable(c), {}, {})
  }

  lemma NothingBilled(charges: map<nat, nat>, limit: nat)
    ensures Billed(map[], charges, limit) <==> charges == map[]
  {
    forall tenant: nat ensures Sum(Bills(map[], tenant)) == 0 {
      assert Bills(map[], tenant) == map[];
    }
    if Billed(map[], charges, limit) {
      forall tenant: nat ensures tenant !in charges {
        assert ChargeIn(charges, tenant) == 0;
      }
    }
  }

  lemma NothingCounted(t: Table)
    requires t.tickets == map[]
    ensures Lengths(t.tickets) == map[] && HashHolders(t.tickets) == {} && Originals(t.tickets) == {} && Cancels(t.tickets) == {}
    ensures AllWaiters(t.tickets, t.requests) == map[]
    ensures Sum(Lengths(t.tickets)) == 0
  {
    SumOfNone();
  }

  lemma NewPoolsFit(c: Config)
    requires ConfigFits(c)
    ensures B.PoolFits(B.NewPool(c.bufferSlots)) && |B.NewPool(c.bufferSlots).slots| == c.bufferSlots
    ensures D.TableFits(D.NewTable(c.descriptorCapacity)) && |D.NewTable(c.descriptorCapacity).slots| == c.descriptorCapacity
    ensures Held(map[], B.NewPool(c.bufferSlots)) && Linked(map[], D.NewTable(c.descriptorCapacity))
  {
    hide Zeros;
  }

  lemma NewIsConsistent(decode: (ExtentRecord, Bytes) -> bool, c: Config)
    requires ConfigFits(c)
    ensures Consistent(decode, NewSystem(c))
  {
    hide B.NewPool, D.NewTable, B.PoolFits, D.TableFits, Held, Linked, Billed, Lengths, Originals, Cancels, HashHolders, AllWaiters, Sum;
    var t := NewTable(c);
    NewPoolsFit(c);
    NothingCounted(t);
    NothingBilled(t.charges, c.maxLogical);
    assert |t.tickets| == 0;
  }

  /** In every run from a new table the system is consistent. */
  lemma RunsAreConsistent(decode: (ExtentRecord, Bytes) -> bool, c: Config, ops: seq<Operation>)
    requires ConfigFits(c)
    ensures Consistent(decode, Run(decode, NewSystem(c), ops))
  {
    hide Consistent, Run;
    NewIsConsistent(decode, c);
    RunKeepsConsistent(decode, NewSystem(c), ops);
  }

  // ---------------------------------------------------------------- nothing waits

  /** Neither queue is ever the bottleneck: submitting a read never waits for the completion queue, a
      supported asynchronous cancel is always submitted, dispatching never finds the command queue
      full, and no worker ever blocks on its completion. */
  lemma NothingWaits(decode: (ExtentRecord, Bytes) -> bool, s: System, id: nat, request: nat, worker: nat)
    requires Consistent(decode, s)
    ensures SubmitRead(s.table, id).result != Err(CqWait)
    ensures CancelWaiter(s.table, request, true).result != Ok(AbandonedWithoutAsyncCancel)
    ensures CancelWaiter(s.table, request, true).result != Err(CqWait)
    ensures DispatchChecksum(s.table).result != Err(WorkerWait)
    ensures !SendBlocks(s.table, worker)
  {
    hide Invariant, WorkersFit, Sound, SubmitRead, CancelWaiter, DispatchChecksum, SendBlocks;
    SubmitKeeps(s.table, id);
    CancelKeeps(s.table, request, true);
    SendNeverBlocks(s.table, s.issued, worker);
    DispatchStep(decode, s);
  }

  // ---------------------------------------------------------------- delivery

  /** Whatever is delivered was decoded: at delivery the ticket's buffer holds exactly bytes that
      decode as the ticket's record, and the requests returned are the ticket's waiters. */
  lemma DeliveredIsVerified(decode: (ExtentRecord, Bytes) -> bool, s: System, id: nat)
    requires Consistent(decode, s) && FinishDelivery(s.table, id).result.Ok?
    ensures id in s.table.tickets && s.table.tickets[id].buffer.Some?
    ensures Decodes(decode, s.table.buffers, s.table.tickets[id].buffer.value, s.table.tickets[id].record)
    ensures FinishDelivery(s.table, id).result.value == Sorted(s.table.tickets[id].waiters.Keys)
    ensures forall r | r in FinishDelivery(s.table, id).result.value :: r in s.table.requests && s.table.requests[r] == id
  {
    hide WorkersFit, Accounts, Sorted, ReleaseTicket, Apart, Quiet, Decodes;
    DeliveryKeeps(s.table, id);
    assert Proven(decode, s.table, id);
    AskedOf(s.table);
  }

  /** No good extent is refused and no bad one accepted: a result handed out for a running job verifies the
      ticket exactly when the bytes now in its buffer decode as its record, and is an integrity failure
      exactly when they do not. */
  lemma VerdictsAreExact(decode: (ExtentRecord, Bytes) -> bool, s: System, result: HashResult)
    requires Consistent(decode, s) && result in s.issued && RunningJob(s.table, result.job)
    ensures var t, o := s.table, CompleteHash(s.table, result);
            && result.job.buffer.slot < |t.buffers.slots|
            && var record, bytes := t.tickets[result.job.ticket].record, t.buffers.slots[result.job.buffer.slot].bytes;
            && record.length <= |bytes|
            && (o.result == Ok(()) <==> decode(record, bytes[..record.length]))
            && (o.result == Err(IntegrityFailure) <==> !decode(record, bytes[..record.length]))
  {
    hide Accounts, Apart, WorkersFit, CompleteHash, Invariant;
    var t, id := s.table, result.job.ticket;
    assert RunningTicket(t, id);
    Fitting(t, id);
    BufferOf(t, id);
    LengthFits(t, id);
    if result.verified {
      VerifiedKeeps(t, id);
    } else {
      RefutedKeeps(t, id);
    }
  }

  lemma AskedOf(t: Table)
    requires Invariant(t)
    ensures Asked(t.tickets, t.requests)
  {
  }

  /** A token completed earlier in the run resolves and completes no more. */
  lemma CompletedTokensAreDead(decode: (ExtentRecord, Bytes) -> bool, s: System, token: D.Token)
    requires Consistent(decode, s) && token in s.completed
    ensures D.Resolve(s.table.descriptors, token).Err? && D.Complete(s.table.descriptors, token).Err?
  {
    SpentIsDead(s.table, token);
  }

  // ---------------------------------------------------------------- conservation

  function Occupied(d: D.Descriptors): set<nat> {
    set i: nat | i < |d.slots| && d.slots[i].entry.Some?
  }

  function ActiveSlots(p: B.Pool): set<nat> {
    set i: nat | i < |p.slots| && B.Active(p.slots[i].state)
  }

  function Waiting(tickets: map<nat, Ticket>): set<nat> {
    set id | id in tickets && (tickets[id].originalPending || tickets[id].cancelPending)
  }

  function ActiveHolders(t: Table): set<nat> {
    set id | id in t.tickets && BufferStateOf(t.buffers, t.tickets[id]).Some? && B.Active(BufferStateOf(t.buffers, t.tickets[id]).value)
  }

  lemma {:induction false} BijectionSize(f: map<nat, nat>, s: set<nat>)
    requires Injective(f) && (forall x | x in f :: f[x] in s) && (forall y | y in s :: exists x :: x in f && f[x] == y)
    ensures |f| == |s|
    decreases |f|
  {
    if f == map[] {
      assert s == {};
    } else {
      var x :| x in f;
      var rest, left := f - {x}, s - {f[x]};
      assert rest.Keys == f.Keys - {x};
      assert |rest| == |f| - 1;
      forall y | y in left ensures exists z :: z in rest && rest[z] == y {
        var z :| z in f && f[z] == y;
        assert z in rest;
      }
      BijectionSize(rest, left);
    }
  }

  function DescriptorOf(tickets: map<nat, Ticket>): map<nat, nat> {
    map id | id in tickets && (tickets[id].originalToken.Some? || tickets[id].cancelToken.Some?) ::
      D.SlotOf(if tickets[id].originalToken.Some? then tickets[id].originalToken.value else tickets[id].cancelToken.value)
  }

  lemma DescriptorsBalance(tickets: map<nat, Ticket>, d: D.Descriptors)
    requires Linked(tickets, d)
    ensures |Occupied(d)| == |Waiting(tickets)|
  {
    hide D.SlotOf, D.GenerationOf, D.IsCancel;
    var f := DescriptorOf(tickets);
    forall id | id in tickets ensures id in Waiting(tickets) <==> id in f
      ensures id in f ==> f[id] < |d.slots| && d.slots[f[id]].entry.Some? && d.slots[f[id]].entry.value.binding.operation == id
    {
      assert TokensFit(d, id, tickets[id]);
    }
    forall i | i in Occupied(d) ensures exists x :: x in f && f[x] == i {
      var id := d.slots[i].entry.value.binding.operation;
      assert Uses(tickets[id], i) && TokensFit(d, id, tickets[id]);
      assert id in f && f[id] == i;
    }
    BijectionSize(f, Occupied(d));
    assert f.Keys == Waiting(tickets);
    assert |f| == |f.Keys|;
  }

  function ActiveSlotOf(t: Table): map<nat, nat> {
    map id | id in ActiveHolders(t) && t.tickets[id].buffer.Some? :: t.tickets[id].buffer.value.slot
  }

  lemma BuffersBalance(t: Table)
    requires Held(t.tickets, t.buffers)
    ensures |ActiveSlots(t.buffers)| == |ActiveHolders(t)|
  {
    hide B.Active, B.Find;
    var f := ActiveSlotOf(t);
    assert f.Keys == ActiveHolders(t);
    forall i | i in ActiveSlots(t.buffers) ensures exists x :: x in f && f[x] == i {
      var id :| id in t.tickets && Owns(t.tickets[id], i);
      assert id in f && f[id] == i;
    }
    BijectionSize(f, ActiveSlots(t.buffers));
    assert |f| == |f.Keys|;
  }

  function WaiterCounts(tickets: map<nat, Ticket>): map<nat, nat> {
    map id | id in tickets :: |tickets[id].waiters|
  }

  lemma WaitersAsked(tickets: map<nat, Ticket>, requests: map<nat, nat>, id: nat)
    requires Asked(tickets, requests) && id in tickets
    ensures tickets[id].waiters.Keys <= requests.Keys
  {
  }

  lemma SizeSplits(m: map<nat, nat>, gone: set<nat>)
    requires gone <= m.Keys
    ensures |m| == |m - gone| + |gone|
  {
    assert (m - gone).Keys == m.Keys - gone;
    assert m.Keys == (m.Keys - gone) + gone;
    assert |m| == |m.Keys| && |m - gone| == |(m - gone).Keys|;
  }

  lemma CountsRemove(tickets: map<nat, Ticket>, id: nat)
    requires id in tickets
    ensures Sum(WaiterCounts(tickets)) == |tickets[id].waiters| + Sum(WaiterCounts(tickets - {id}))
    ensures |tickets - {id}| == |tickets| - 1
  {
    hide Sum;
    assert WaiterCounts(tickets - {id}) == WaiterCounts(tickets) - {id};
    SumSplits(WaiterCounts(tickets), id);
    assert (tickets - {id}).Keys == tickets.Keys - {id};
    assert |tickets - {id}| == |(tickets - {id}).Keys| && |tickets| == |tickets.Keys|;
  }

  lemma {:induction false} RequestsBalance(tickets: map<nat, Ticket>, requests: map<nat, nat>)
    requires Asked(tickets, requests)
    ensures |requests| == Sum(WaiterCounts(tickets))
    decreases |tickets|
  {
    hide Sum, AllWaiters, Asked, WaiterCounts;
    if tickets == map[] {
      NobodyAsked(requests);
    } else {
      var id :| id in tickets;
      var gone := tickets[id].waiters.Keys;
      WaitersAsked(tickets, requests, id);
      AskedRemoves(tickets, requests, id);
      CountsRemove(tickets, id);
      RequestsBalance(tickets - {id}, requests - gone);
      SizeSplits(requests, gone);
      assert |gone| == |tickets[id].waiters|;
    }
  }

  lemma NobodyAsked(requests: map<nat, nat>)
    requires Asked(map[], requests)
    ensures requests == map[] && Sum(WaiterCounts(map[])) == 0
  {
    assert WaiterCounts(map[]) == map[];
    SumOfNone();
    assert requests.Keys == {};
  }

  lemma SumOfNone()
    ensures Sum(map[]) == 0
  {
  }

  /** The conservation laws: bytes, requests, charges, descriptors, completion entries, buffers and
      checksum jobs are the sums over the live tickets. */
  lemma Conservation(t: Table, tenant: nat)
    requires Invariant(t)
    ensures t.physical == Sum(Lengths(t.tickets)) <= t.config.maxPhysical
    ensures |t.requests| == Sum(WaiterCounts(t.tickets))
    ensures ChargeOf(t, tenant) == Sum(Bills(AllWaiters(t.tickets, t.requests), tenant)) <= t.config.maxLogical
    ensures |Occupied(t.descriptors)| == |Waiting(t.tickets)|
    ensures t.cq.original == |Originals(t.tickets)| && t.cq.cancel == |Cancels(t.tickets)| && t.cq.fsync == 0
    ensures |ActiveSlots(t.buffers)| == |ActiveHolders(t)|
    ensures t.hashJobs == |HashHolders(t.tickets)| <= t.config.maxHashJobs
  {
    hide Linked, Held, Asked, Sum, StateFits, TicketsFit, AllWaiters, Bills, Lengths;
    DescriptorsBalance(t.tickets, t.descriptors);
    BuffersBalance(t);
    RequestsBalance(t.tickets, t.requests);
    assert ChargeOf(t, tenant) == ChargeIn(t.charges, tenant);
  }

  /** When no ticket remains, everything has returned to zero. */
  lemma EmptyIsZero(t: Table)
    requires Invariant(t) && t.tickets == map[]
    ensures t.physical == 0 && t.requests == map[] && t.charges == map[] && t.hashJobs == 0
    ensures t.cq.original == 0 && t.cq.cancel == 0 && t.cq.fsync == 0
    ensures Occupied(t.descriptors) == {} && ActiveSlots(t.buffers) == {}
  {
    hide Sum, Billed, Lengths, Originals, Cancels, HashHolders, AllWaiters, StateFits, TicketsFit, Linked, Held, Asked;
    NothingCounted(t);
    NothingBilled(t.charges, t.config.maxLogical);
    NobodyAsked(t.requests);
    DescriptorsBalance(t.tickets, t.descriptors);
    BuffersBalance(t);
    assert Waiting(t.tickets) == {} && ActiveHolders(t) == {};
  }
}
