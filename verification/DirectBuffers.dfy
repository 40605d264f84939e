/** The pool of extent buffers, whose slots are reused under new generations (direct_state.rs). */
module DirectBuffers {
  import opened Collections
  import opened CircularSearch
  import opened Octets

  const MAX_GENERATION: nat := 0xFFFF_FFFF_FFFF_FFFF
  const BUFFER_BYTES: nat := 2_052_096

  datatype BufferState =
    | Free
    | FillingFromHbm
    | HashingForWrite
    | WriteQueued
    | WriteInflight
    | ReadQueued
    | ReadInflight
    | HashingForRead
    | HostReady
    | CopyingToHbm
    | BufferFailed
    | Quarantined
    | Retired

  predicate Active(s: BufferState) {
    !s.Free? && !s.BufferFailed? && !s.Quarantined? && !s.Retired?
  }

  datatype BufferUse = CpuWrite | CpuRead

  datatype BufferId = BufferId(slot: nat, generation: nat)

  datatype Slot = Slot(generation: nat, state: BufferState, bytes: Bytes)

  datatype Pool = Pool(slots: seq<Slot>, next: nat)

  datatype BufferError =
    | NoBuffer
    | InvalidGeneration
    | UnknownBuffer
    | StaleBuffer
    | BadTransition(current: BufferState, requested: BufferState)

  predicate LegalMove(current: BufferState, next: BufferState) {
    (Active(current) && next.BufferFailed?) ||
    match (current, next)
    case (FillingFromHbm, HashingForWrite) => true
    case (HashingForWrite, WriteQueued) => true
    case (WriteQueued, WriteInflight) => true
    case (WriteQueued, Free) => true
    case (WriteInflight, Free) => true
    case (ReadQueued, ReadInflight) => true
    case (ReadQueued, Free) => true
    case (ReadInflight, HashingForRead) => true
    case (HashingForRead, HostReady) => true
    case (HostReady, CopyingToHbm) => true
    case (HostReady, Free) => true
    case (CopyingToHbm, Free) => true
    case (BufferFailed, Quarantined) => true
    case _ => false
  }

  ghost predicate PoolFits(p: Pool) {
    && |p.slots| > 0 && p.next < |p.slots|
    && (forall i | 0 <= i < |p.slots| :: p.slots[i].generation <= MAX_GENERATION && |p.slots[i].bytes| == BUFFER_BYTES)
  }

  function NewPool(capacity: nat): Pool {
    Pool(seq(capacity, _ => Slot(0, Free, Zeros(BUFFER_BYTES))), 0)
  }

  // ---------------------------------------------------------------- operations

  function Reserved(use: BufferUse): BufferState {
    if use.CpuWrite? then HashingForWrite else ReadQueued
  }

  predicate Available(s: Slot) {
    s.state.Free? && s.generation < MAX_GENERATION
  }

  /** A search passes occupied slots over and retires exhausted free ones. */
  const SLOTS: Rules<Slot> := Rules((s: Slot) => s.state.Free?, Available, (s: Slot) => s.(state := Retired))

  function Reserve(p: Pool, use: BufferUse): (Pool, Result<BufferId, BufferError>) {
    var (slots, found) := Search(p.slots, p.next, 0, SLOTS);
    if found.None? then (p.(slots := slots), Err(NoBuffer))
    else
      var i, generation := found.value, slots[found.value].generation + 1;
      (Pool(slots[i := Slot(generation, Reserved(use), Zeros(BUFFER_BYTES))], (i + 1) % |slots|), Ok(BufferId(i, generation)))
  }

  function Find(p: Pool, id: BufferId): (r: Result<Slot, BufferError>)
    ensures r.Ok? <==> id.generation != 0 && id.slot < |p.slots| && p.slots[id.slot].generation == id.generation
    ensures r.Ok? ==> r.value == p.slots[id.slot]
  {
    if id.generation == 0 then Err(InvalidGeneration)
    else if id.slot >= |p.slots| then Err(UnknownBuffer)
    else if p.slots[id.slot].generation != id.generation then Err(StaleBuffer)
    else Ok(p.slots[id.slot])
  }

  function Read(p: Pool, id: BufferId): Result<Bytes, BufferError> {
    var s :- Find(p, id);
    if !Active(s.state) then Err(BadTransition(s.state, s.state)) else Ok(s.bytes)
  }

  /** Writes `source` at `offset`; the caller keeps it inside the buffer. */
  function Write(p: Pool, id: BufferId, offset: nat, source: Bytes): Result<Pool, BufferError> {
    var s :- Find(p, id);
    if !Active(s.state) then Err(BadTransition(s.state, s.state))
    else if offset + |source| > |s.bytes| then Ok(p)
    else Ok(p.(slots := p.slots[id.slot := s.(bytes := s.bytes[..offset] + source + s.bytes[offset + |source|..])]))
  }

  /** What a checksum worker is given to read. */
  function HashBuffer(p: Pool, id: BufferId): Result<Bytes, BufferError> {
    var s :- Find(p, id);
    if !s.state.HashingForRead? then Err(BadTransition(s.state, HashingForRead)) else Ok(s.bytes)
  }

  function Moved(s: Slot, next: BufferState): Slot {
    s.(state := next, bytes := if next.Free? then Zeros(BUFFER_BYTES) else s.bytes)
  }

  function Transition(p: Pool, id: BufferId, next: BufferState): Result<Pool, BufferError> {
    var s :- Find(p, id);
    if !LegalMove(s.state, next) then Err(BadTransition(s.state, next))
    else Ok(p.(slots := p.slots[id.slot := Moved(s, next)]))
  }

  function ReleaseAbandoned(p: Pool, id: BufferId): Result<Pool, BufferError> {
    var s :- Find(p, id);
    if !s.state.ReadInflight? then Err(BadTransition(s.state, Free))
    else Ok(p.(slots := p.slots[id.slot := Moved(s, Free)]))
  }

  // ---------------------------------------------------------------- reserving

  /** A search may only retire exhausted free slots. */
  ghost predicate OnlyRetires(p: Pool, q: Pool, except: set<nat>) {
    && |q.slots| == |p.slots|
    && (forall i | 0 <= i < |p.slots| && i !in except ::
          q.slots[i] == p.slots[i] ||
          (p.slots[i].state.Free? && !Available(p.slots[i]) && q.slots[i] == p.slots[i].(state := Retired)))
  }

  /** What a search may do: take one available slot under its next generation, or nothing. */
  ghost predicate Found(p: Pool, use: BufferUse, q: Pool, r: Result<BufferId, BufferError>) {
    && PoolFits(q) && |q.slots| == |p.slots|
    && (r.Ok? ==>
          && r.value.slot < |p.slots| && Available(p.slots[r.value.slot])
          && r.value.generation == p.slots[r.value.slot].generation + 1
          && OnlyRetires(p, q, {r.value.slot})
          && q.slots[r.value.slot] == Slot(r.value.generation, Reserved(use), Zeros(BUFFER_BYTES)))
    && (r.Err? ==> r.error == NoBuffer && OnlyRetires(p, q, {}))
  }

  /** Reserving succeeds exactly when some free slot has a generation left. The slot was free, its
      new generation was never used, and nothing else changes but exhausted free slots, which retire. */
  lemma ReserveOutcome(p: Pool, use: BufferUse)
    requires PoolFits(p)
    ensures var (q, r) := Reserve(p, use);
            && PoolFits(q)
            && (r.Ok? <==> exists i :: 0 <= i < |p.slots| && Available(p.slots[i]))
            && Found(p, use, q, r)
  {
    hide Search, Zeros;
    CircularSearch.SearchOutcome(p.slots, p.next, SLOTS);
    var (slots, found) := Search(p.slots, p.next, 0, SLOTS);
    assert found.Some? ==> SLOTS.usable(p.slots[found.value]) && Available(p.slots[found.value]);
    forall i | 0 <= i < |p.slots| && Available(p.slots[i]) ensures found.Some? {
      assert SLOTS.usable(p.slots[i]);
    }
  }

  /** Slots are taken in rotation: the one reserved is the first available one from where the last search
      ended, `d` slots on, and the next search starts behind it. */
  lemma ReservesInRotation(p: Pool, use: BufferUse) returns (d: nat)
    requires PoolFits(p) && Reserve(p, use).1.Ok?
    ensures var (q, r) := Reserve(p, use);
            && d < |p.slots| && r.value.slot == Position(|p.slots|, p.next, d)
            && (forall e | 0 <= e < d :: !Available(p.slots[Position(|p.slots|, p.next, e)]))
            && q.next == (r.value.slot + 1) % |p.slots|
  {
    hide Search, Zeros, Position;
    d := FindsNearest(p.slots, p.next, 0, SLOTS);
    forall e | 0 <= e < d ensures !Available(p.slots[Position(|p.slots|, p.next, e)]) {
      assert !SLOTS.usable(p.slots[Position(|p.slots|, p.next, e)]);
    }
  }

  // ---------------------------------------------------------------- handles never revive

  /** The slot of a spent id is free, retired or quarantined under its generation, or has moved on. */
  predicate Spent(p: Pool, id: BufferId) {
    && id.slot < |p.slots|
    && var s := p.slots[id.slot];
    && (s.generation > id.generation ||
        (s.generation == id.generation && (s.state.Free? || s.state.Retired? || s.state.Quarantined?)))
  }

  datatype PoolStep =
    | Reserves(use: BufferUse)
    | Writes(id: BufferId, offset: nat, source: Bytes)
    | Moves(id: BufferId, next: BufferState)
    | Releases(id: BufferId)

  function PoolApply(p: Pool, step: PoolStep): Pool {
    match step
    case Reserves(use) => Reserve(p, use).0
    case Writes(id, offset, source) => if Write(p, id, offset, source).Ok? then Write(p, id, offset, source).value else p
    case Moves(id, next) => if Transition(p, id, next).Ok? then Transition(p, id, next).value else p
    case Releases(id) => if ReleaseAbandoned(p, id).Ok? then ReleaseAbandoned(p, id).value else p
  }

  function PoolRun(p: Pool, steps: seq<PoolStep>): Pool {
    if steps == [] then p else PoolApply(PoolRun(p, steps[..|steps| - 1]), steps[|steps| - 1])
  }

  lemma StepFits(p: Pool, step: PoolStep)
    requires PoolFits(p)
    ensures PoolFits(PoolApply(p, step)) && |PoolApply(p, step).slots| == |p.slots|
  {
    hide Reserve;
    if step.Reserves? {
      ReserveOutcome(p, step.use);
    }
  }

  lemma StepSpends(p: Pool, step: PoolStep, id: BufferId)
    requires PoolFits(p) && Spent(p, id)
    ensures Spent(PoolApply(p, step), id)
  {
    hide Reserve;
    if step.Reserves? {
      ReserveOutcome(p, step.use);
    }
  }

  /** A freed, retired or quarantined buffer id exposes no bytes and moves nowhere, ever again. */
  lemma {:induction false} SpentForever(p: Pool, steps: seq<PoolStep>, id: BufferId, next: BufferState, offset: nat, source: Bytes)
    requires PoolFits(p) && Spent(p, id)
    ensures var q := PoolRun(p, steps);
            && PoolFits(q) && Spent(q, id)
            && Read(q, id).Err? && Write(q, id, offset, source).Err? && HashBuffer(q, id).Err?
            && Transition(q, id, next).Err? && ReleaseAbandoned(q, id).Err?
  {
    hide PoolApply, PoolFits;
    if steps != [] {
      var q := PoolRun(p, steps[..|steps| - 1]);
      SpentForever(p, steps[..|steps| - 1], id, next, offset, source);
      StepFits(q, steps[|steps| - 1]);
      StepSpends(q, steps[|steps| - 1], id);
    }
  }

  /** An id handed out is new: whatever was spent before, it is not this one. */
  lemma ReservedIsNotSpent(p: Pool, use: BufferUse, id: BufferId)
    requires PoolFits(p) && Spent(p, id) && Reserve(p, use).1.Ok?
    ensures Reserve(p, use).1.value != id
  {
    ReserveOutcome(p, use);
  }

  // ---------------------------------------------------------------- no stage is skipped

  /** The stages of a buffer reserved for a read, and of one reserved for a write. */
  const READ_STAGES: seq<BufferState> := [ReadQueued, ReadInflight, HashingForRead, HostReady, CopyingToHbm]
  const WRITE_STAGES: seq<BufferState> := [HashingForWrite, WriteQueued, WriteInflight]

  function Stages(use: BufferUse): seq<BufferState> {
    if use.CpuRead? then READ_STAGES else WRITE_STAGES
  }

  lemma StepAdvances(p: Pool, step: PoolStep, i: nat, use: BufferUse, k: nat)
    requires PoolFits(p) && i < |p.slots| && k < |Stages(use)|
    requires i < |PoolApply(p, step).slots| && PoolApply(p, step).slots[i].state == Stages(use)[k]
    ensures var s, u := p.slots[i], PoolApply(p, step).slots[i];
            || (u.generation == s.generation && (s.state == Stages(use)[k] || (k > 0 && s.state == Stages(use)[k - 1])))
            || (k == 0 && (u.generation == s.generation + 1 || s.state.FillingFromHbm?))
  {
    hide Reserve, PoolFits;
    if step.Reserves? {
      ReserveOutcome(p, step.use);
    }
  }

  /** In every run, a buffer reserved in it has passed every earlier stage of its use under its present
      generation: what is ready on the host was queued, read and hashed before. */
  lemma {:induction false} StagesAreNotSkipped(p: Pool, steps: seq<PoolStep>, i: nat, use: BufferUse, k: nat, j: nat) returns (m: nat)
    requires PoolFits(p) && i < |p.slots| && j <= k < |Stages(use)|
    requires var q := PoolRun(p, steps);
             i < |q.slots| && q.slots[i].generation > p.slots[i].generation && q.slots[i].state == Stages(use)[k]
    ensures m <= |steps|
    ensures var q, r := PoolRun(p, steps), PoolRun(p, steps[..m]);
            i < |r.slots| && r.slots[i].generation == q.slots[i].generation && r.slots[i].state == Stages(use)[j]
    decreases |steps|
  {
    hide PoolApply, PoolFits, Stages;
    m := |steps|;
    assert steps[..m] == steps;
    if j < k {
      var front := steps[..|steps| - 1];
      RunFits(p, front);
      var before := PoolRun(p, front);
      StepAdvances(before, steps[|steps| - 1], i, use, k);
      m := StagesAreNotSkipped(p, front, i, use, if before.slots[i].state == Stages(use)[k] then k else k - 1, j);
      assert front[..m] == steps[..m];
    }
  }

  lemma {:induction false} RunFits(p: Pool, steps: seq<PoolStep>)
    requires PoolFits(p)
    ensures PoolFits(PoolRun(p, steps)) && |PoolRun(p, steps).slots| == |p.slots|
    decreases |steps|
  {
    hide PoolApply, PoolFits;
    if steps != [] {
      RunFits(p, steps[..|steps| - 1]);
      StepFits(PoolRun(p, steps[..|steps| - 1]), steps[|steps| - 1]);
    }
  }

  // ---------------------------------------------------------------- the pool in place

  class DirectBufferPool {
    var slots: seq<Slot>
    var next: nat

    ghost function Value(): Pool
      reads this
    {
      Pool(slots, next)
    }

    constructor (capacity: nat)
      requires capacity > 0
      ensures Value() == NewPool(capacity) && PoolFits(Value())
    {
      slots := seq(capacity, _ => Slot(0, Free, Zeros(BUFFER_BYTES)));
      next := 0;
    }

    method ReserveSlot(use: BufferUse) returns (result: Result<BufferId, BufferError>)
      requires PoolFits(Value())
      modifies this
      ensures PoolFits(Value()) && (Value(), result) == Reserve(old(Value()), use)
    {
      hide Position, Zeros, PoolFits;
      ReserveOutcome(Value(), use);
      FitsBounds(Value());
      var capacity := |slots|;
      for d := 0 to capacity
        invariant |slots| == capacity > 0 && next == old(next) < capacity
        invariant Search(slots, next, d, SLOTS) == Search(old(slots), old(next), 0, SLOTS)
      {
        var i := Position(capacity, next, d);
        var slot := slots[i];
        if !slot.state.Free? {
          continue;
        }
        if slot.generation + 1 > MAX_GENERATION {
          slots := slots[i := slot.(state := Retired)];
          continue;
        }
        slots := slots[i := Slot(slot.generation + 1, Reserved(use), Zeros(BUFFER_BYTES))];
        next := (i + 1) % capacity;
        return Ok(BufferId(i, slot.generation + 1));
      }
      return Err(NoBuffer);
    }

    method WriteBytes(id: BufferId, offset: nat, source: Bytes) returns (result: Result<(), BufferError>)
      modifies this
      ensures match Write(old(Value()), id, offset, source)
              case Ok(p) => Value() == p && result == Ok(())
              case Err(e) => Value() == old(Value()) && result == Err(e)
    {
      var slot :- Find(Pool(slots, next), id);
      if !Active(slot.state) {
        return Err(BadTransition(slot.state, slot.state));
      }
      if offset + |source| <= |slot.bytes| {
        slots := slots[id.slot := slot.(bytes := slot.bytes[..offset] + source + slot.bytes[offset + |source|..])];
      }
      return Ok(());
    }

    method MoveTo(id: BufferId, to: BufferState) returns (result: Result<(), BufferError>)
      modifies this
      ensures match Transition(old(Value()), id, to)
              case Ok(p) => Value() == p && result == Ok(())
              case Err(e) => Value() == old(Value()) && result == Err(e)
    {
      var slot :- Find(Pool(slots, next), id);
      if !LegalMove(slot.state, to) {
        return Err(BadTransition(slot.state, to));
      }
      slots := slots[id.slot := Moved(slot, to)];
      return Ok(());
    }

    method ReleaseAbandonedRead(id: BufferId) returns (result: Result<(), BufferError>)
      modifies this
      ensures match ReleaseAbandoned(old(Value()), id)
              case Ok(p) => Value() == p && result == Ok(())
              case Err(e) => Value() == old(Value()) && result == Err(e)
    {
      var slot :- Find(Pool(slots, next), id);
      if !slot.state.ReadInflight? {
        return Err(BadTransition(slot.state, Free));
      }
      slots := slots[id.slot := Moved(slot, Free)];
      return Ok(());
    }
  }

  lemma FitsBounds(p: Pool)
    requires PoolFits(p)
    ensures |p.slots| > 0 && p.next < |p.slots|
  {
  }
}
