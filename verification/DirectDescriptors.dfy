/** Completion tokens and the table of I/O descriptors they name (direct_state.rs). */
module DirectDescriptors {
  import opened Collections
  import opened CircularSearch
  import Buffers = DirectBuffers

  const MAX_U32: nat := 0xFFFF_FFFF

  // ---------------------------------------------------------------- tokens

  /** Generation in the high word, then 31 bits of slot, then the cancel bit. */
  type Token = nat

  function Pack(slot: nat, generation: nat, cancel: bool): Token {
    generation * 0x1_0000_0000 + slot * 2 + (if cancel then 1 else 0)
  }

  function SlotOf(t: Token): nat {
    (t / 2) % 0x8000_0000
  }

  function GenerationOf(t: Token): nat {
    t / 0x1_0000_0000
  }

  predicate IsCancel(t: Token) {
    t % 2 == 1
  }

  function CancelOf(t: Token): Token {
    Pack(SlotOf(t), GenerationOf(t), true)
  }

  /** Packing is invertible for every slot a table may have. */
  lemma PackRoundTrips(slot: nat, generation: nat, cancel: bool)
    requires slot < 0x8000_0000
    ensures var t := Pack(slot, generation, cancel);
            SlotOf(t) == slot && GenerationOf(t) == generation && (IsCancel(t) <==> cancel)
  {
    var t, low := Pack(slot, generation, cancel), slot * 2 + (if cancel then 1 else 0);
    assert t == generation * 0x1_0000_0000 + low && low < 0x1_0000_0000;
    assert t / 2 == generation * 0x8000_0000 + slot;
  }

  lemma UnpackRoundTrips(t: Token)
    ensures Pack(SlotOf(t), GenerationOf(t), IsCancel(t)) == t && SlotOf(t) < 0x8000_0000
  {
    assert t == 2 * (t / 2) + t % 2;
    assert t / 2 == 0x8000_0000 * (t / 2 / 0x8000_0000) + SlotOf(t);
    assert t / 2 / 0x8000_0000 == t / 0x1_0000_0000;
  }

  /** The shifts and masks of the machine word do the same. */
  lemma PackBits(slot: bv64, generation: bv64, role: bv64)
    requires slot <= 0x7FFF_FFFF && generation <= 0xFFFF_FFFF && role <= 1
    ensures var t := (generation << 32) | (slot << 1) | role;
            (t >> 1) & 0x7FFF_FFFF == slot && t >> 32 == generation && t & 1 == role
  {
  }

  // ---------------------------------------------------------------- the table

  datatype OperationKind = ReadOperation | WriteOperation | FsyncOperation

  datatype Binding = Binding(buffer: Buffers.BufferId, operation: nat, kind: OperationKind)

  datatype Entry = Entry(binding: Binding, original: bool, cancel: bool)

  datatype Slot = Slot(generation: nat, retired: bool, entry: Option<Entry>)

  datatype Descriptors = Descriptors(slots: seq<Slot>, next: nat)

  datatype DescriptorError =
    | NoDescriptor
    | BadIdentity
    | UnknownDescriptor
    | StaleDescriptor
    | WrongRole
    | NoEntry
    | NothingPending

  ghost predicate TableFits(t: Descriptors) {
    && 0 < |t.slots| <= 0x8000_0000 && t.next < |t.slots|
    && (forall i | 0 <= i < |t.slots| ::
          && t.slots[i].generation <= MAX_U32
          && (t.slots[i].entry.Some? ==> t.slots[i].generation > 0)
          && (t.slots[i].entry.Some? ==> t.slots[i].entry.value.original || t.slots[i].entry.value.cancel))
  }

  function NewTable(capacity: nat): Descriptors {
    Descriptors(seq(capacity, _ => Slot(0, false, None)), 0)
  }

  predicate Vacant(s: Slot) {
    !s.retired && s.entry.None?
  }

  /** Vacant with a generation left. */
  predicate Usable(s: Slot) {
    Vacant(s) && s.generation < MAX_U32
  }

  /** A search passes occupied slots over and retires exhausted vacant ones. */
  const SLOTS: Rules<Slot> := Rules(Vacant, Usable, (s: Slot) => s.(retired := true))

  function Allocate(t: Descriptors, binding: Binding): (Descriptors, Result<Token, DescriptorError>) {
    if binding.buffer.generation == 0 || binding.operation == 0 then (t, Err(BadIdentity))
    else
      var (slots, found) := Search(t.slots, t.next, 0, SLOTS);
      if found.None? then (t.(slots := slots), Err(NoDescriptor))
      else
        var i, generation := found.value, slots[found.value].generation + 1;
        (Descriptors(slots[i := Slot(generation, false, Some(Entry(binding, true, false)))], (i + 1) % |slots|),
         Ok(Pack(i, generation, false)))
  }

  function Find(t: Descriptors, token: Token): (r: Result<Slot, DescriptorError>)
    ensures r.Ok? <==> GenerationOf(token) != 0 && SlotOf(token) < |t.slots| && t.slots[SlotOf(token)].generation == GenerationOf(token)
    ensures r.Ok? ==> r.value == t.slots[SlotOf(token)]
  {
    if GenerationOf(token) == 0 then Err(BadIdentity)
    else if SlotOf(token) >= |t.slots| then Err(UnknownDescriptor)
    else if t.slots[SlotOf(token)].generation != GenerationOf(token) then Err(StaleDescriptor)
    else Ok(t.slots[SlotOf(token)])
  }

  /** Issues the cancel token `CancelOf(token)`. */
  function IssueCancel(t: Descriptors, token: Token): Result<Descriptors, DescriptorError> {
    if IsCancel(token) then Err(WrongRole)
    else
      var s :- Find(t, token);
      if s.entry.None? then Err(NoEntry)
      else if !s.entry.value.original || s.entry.value.cancel then Err(NothingPending)
      else Ok(t.(slots := t.slots[SlotOf(token) := s.(entry := Some(s.entry.value.(cancel := true)))]))
  }

  function Pending(e: Entry, cancel: bool): bool {
    if cancel then e.cancel else e.original
  }

  function Resolve(t: Descriptors, token: Token): Result<Binding, DescriptorError> {
    var s :- Find(t, token);
    if s.entry.None? then Err(NoEntry)
    else if !Pending(s.entry.value, IsCancel(token)) then Err(NothingPending)
    else Ok(s.entry.value.binding)
  }

  /** Completes one of the two pending completions; the last one vacates the slot. */
  function Complete(t: Descriptors, token: Token): Result<Descriptors, DescriptorError> {
    var s :- Find(t, token);
    if s.entry.None? then Err(NoEntry)
    else if !Pending(s.entry.value, IsCancel(token)) then Err(NothingPending)
    else
      var e := if IsCancel(token) then s.entry.value.(cancel := false) else s.entry.value.(original := false);
      Ok(t.(slots := t.slots[SlotOf(token) := s.(entry := if e.original || e.cancel then Some(e) else None)]))
  }

  // ---------------------------------------------------------------- allocation

  ghost predicate OnlyRetires(t: Descriptors, u: Descriptors, except: set<nat>) {
    && |u.slots| == |t.slots|
    && (forall i | 0 <= i < |t.slots| && i !in except ::
          u.slots[i] == t.slots[i] ||
          (Vacant(t.slots[i]) && !Usable(t.slots[i]) && u.slots[i] == t.slots[i].(retired := true)))
  }

  ghost predicate Found(t: Descriptors, binding: Binding, u: Descriptors, r: Result<Token, DescriptorError>) {
    && TableFits(u) && |u.slots| == |t.slots|
    && (r.Ok? ==>
          && SlotOf(r.value) < |t.slots| && Usable(t.slots[SlotOf(r.value)]) && !IsCancel(r.value)
          && GenerationOf(r.value) == t.slots[SlotOf(r.value)].generation + 1
          && OnlyRetires(t, u, {SlotOf(r.value)})
          && u.slots[SlotOf(r.value)] == Slot(GenerationOf(r.value), false, Some(Entry(binding, true, false))))
    && (r.Err? ==> r.error == NoDescriptor && OnlyRetires(t, u, {}))
  }

  /** For a proper binding, allocation succeeds exactly when some vacant slot has a generation left. */
  lemma AllocateOutcome(t: Descriptors, binding: Binding)
    requires TableFits(t) && binding.buffer.generation != 0 && binding.operation != 0
    ensures Allocate(t, binding).1.Ok? <==> exists i :: 0 <= i < |t.slots| && Usable(t.slots[i])
    ensures Found(t, binding, Allocate(t, binding).0, Allocate(t, binding).1)
  {
    hide Search, Pack, SlotOf, GenerationOf, IsCancel;
    CircularSearch.SearchOutcome(t.slots, t.next, SLOTS);
    var i := Search(t.slots, t.next, 0, SLOTS).1;
    if i.Some? {
      PackRoundTrips(i.value, t.slots[i.value].generation + 1, false);
    }
  }

  /** Descriptors are taken in rotation, as buffers are. */
  lemma AllocatesInRotation(t: Descriptors, binding: Binding) returns (d: nat)
    requires TableFits(t) && Allocate(t, binding).1.Ok?
    ensures var (u, r) := Allocate(t, binding);
            && d < |t.slots| && SlotOf(r.value) == Position(|t.slots|, t.next, d)
            && (forall e | 0 <= e < d :: !Usable(t.slots[Position(|t.slots|, t.next, e)]))
            && u.next == (SlotOf(r.value) + 1) % |t.slots|
  {
    hide Search, Pack, SlotOf, GenerationOf, IsCancel, Position;
    d := FindsNearest(t.slots, t.next, 0, SLOTS);
    CircularSearch.SearchOutcome(t.slots, t.next, SLOTS);
    var i := Search(t.slots, t.next, 0, SLOTS).1.value;
    PackRoundTrips(i, t.slots[i].generation + 1, false);
    forall e | 0 <= e < d ensures !Usable(t.slots[Position(|t.slots|, t.next, e)]) {
      assert !SLOTS.usable(t.slots[Position(|t.slots|, t.next, e)]);
    }
  }

  // ---------------------------------------------------------------- handles never revive

  datatype Step = Allocates(binding: Binding) | Issues(token: Token) | Completes(token: Token)

  function Apply(t: Descriptors, step: Step): Descriptors {
    match step
    case Allocates(binding) => Allocate(t, binding).0
    case Issues(token) => if IssueCancel(t, token).Ok? then IssueCancel(t, token).value else t
    case Completes(token) => if Complete(t, token).Ok? then Complete(t, token).value else t
  }

  function Run(t: Descriptors, steps: seq<Step>): Descriptors {
    if steps == [] then t else Apply(Run(t, steps[..|steps| - 1]), steps[|steps| - 1])
  }

  /** The slot has moved on, is vacant, or waits only for the cancel of this original. */
  predicate Finished(t: Descriptors, token: Token) {
    && SlotOf(token) < |t.slots|
    && var s := t.slots[SlotOf(token)];
    && (s.generation > GenerationOf(token) ||
        (s.generation == GenerationOf(token) && (s.entry.None? || (!IsCancel(token) && !s.entry.value.original))))
  }

  lemma StepFits(t: Descriptors, step: Step)
    requires TableFits(t)
    ensures TableFits(Apply(t, step))
  {
    hide Search, SlotOf, GenerationOf, IsCancel;
    if step.Allocates? && step.binding.buffer.generation != 0 && step.binding.operation != 0 {
      AllocateOutcome(t, step.binding);
    }
  }

  lemma StepFinishes(t: Descriptors, step: Step, token: Token)
    requires TableFits(t) && Finished(t, token)
    ensures Finished(Apply(t, step), token)
  {
    hide Search, SlotOf, GenerationOf, IsCancel;
    if step.Allocates? && step.binding.buffer.generation != 0 && step.binding.operation != 0 {
      AllocateOutcome(t, step.binding);
    }
  }

  /** A finished token never resolves, completes or is cancelled again. */
  lemma {:induction false} FinishedForever(t: Descriptors, steps: seq<Step>, token: Token)
    requires TableFits(t) && Finished(t, token)
    ensures var u := Run(t, steps);
            TableFits(u) && Finished(u, token) && Resolve(u, token).Err? && Complete(u, token).Err? && IssueCancel(u, token).Err?
  {
    hide Apply, TableFits, SlotOf, GenerationOf, IsCancel;
    if steps != [] {
      var u := Run(t, steps[..|steps| - 1]);
      FinishedForever(t, steps[..|steps| - 1], token);
      StepFits(u, steps[|steps| - 1]);
      StepFinishes(u, steps[|steps| - 1], token);
    }
  }

  /** Completing an original finishes it. A completed cancel is finished unless the original is
      still pending; then, and only then, the table would issue the same cancel token again. */
  lemma CompletedTokens(t: Descriptors, token: Token)
    requires TableFits(t) && Complete(t, token).Ok?
    ensures var u := Complete(t, token).value;
            && TableFits(u)
            && (!IsCancel(token) ==> Finished(u, token))
            && (IsCancel(token) ==>
                  ((exists steps :: Resolve(Run(u, steps), token).Ok?) <==>
                   t.slots[SlotOf(token)].entry.value.original))
  {
    hide SlotOf, GenerationOf, IsCancel, Pack;
    var u := Complete(t, token).value;
    StepFits(t, Completes(token));
    if IsCancel(token) {
      if t.slots[SlotOf(token)].entry.value.original {
        CancelReturns(u, token);
      } else {
        forall steps ensures Resolve(Run(u, steps), token).Err? {
          FinishedForever(u, steps, token);
        }
      }
    }
  }

  lemma CancelReturns(u: Descriptors, token: Token)
    requires TableFits(u) && IsCancel(token) && Find(u, token).Ok?
    requires u.slots[SlotOf(token)].entry.Some? && u.slots[SlotOf(token)].entry.value == Entry(u.slots[SlotOf(token)].entry.value.binding, true, false)
    ensures exists steps :: Resolve(Run(u, steps), token).Ok?
  {
    hide Pack;
    UnpackRoundTrips(token);
    var original := Pack(SlotOf(token), GenerationOf(token), false);
    PackRoundTrips(SlotOf(token), GenerationOf(token), false);
    hide SlotOf, GenerationOf, IsCancel;
    var steps := [Issues(original)];
    assert Run(u, steps) == Apply(u, steps[0]) by {
      assert steps[..0] == [];
    }
    assert Resolve(Run(u, steps), token).Ok?;
  }

  // ---------------------------------------------------------------- the table in place

  class DirectDescriptorTable {
    var slots: seq<Slot>
    var next: nat

    ghost function Value(): Descriptors
      reads this
    {
      Descriptors(slots, next)
    }

    constructor (capacity: nat)
      requires 0 < capacity <= 0x8000_0000
      ensures Value() == NewTable(capacity) && TableFits(Value())
    {
      slots := seq(capacity, _ => Slot(0, false, None));
      next := 0;
    }

    method AllocateSlot(binding: Binding) returns (result: Result<Token, DescriptorError>)
      requires |slots| > 0
      modifies this
      ensures (Value(), result) == Allocate(old(Value()), binding)
    {
      hide Position, Pack;
      if binding.buffer.generation == 0 || binding.operation == 0 {
        return Err(BadIdentity);
      }
      var capacity := |slots|;
      for d := 0 to capacity
        invariant |slots| == capacity > 0 && next == old(next)
        invariant Search(slots, next, d, SLOTS) == Search(old(slots), old(next), 0, SLOTS)
      {
        var i := Position(capacity, next, d);
        var slot := slots[i];
        if !Vacant(slot) {
          continue;
        }
        if slot.generation + 1 > MAX_U32 {
          slots := slots[i := slot.(retired := true)];
          continue;
        }
        slots := slots[i := Slot(slot.generation + 1, false, Some(Entry(binding, true, false)))];
        next := (i + 1) % capacity;
        return Ok(Pack(i, slot.generation + 1, false));
      }
      return Err(NoDescriptor);
    }

    method Cancel(original: Token) returns (result: Result<Token, DescriptorError>)
      modifies this
      ensures match IssueCancel(old(Value()), original)
              case Ok(t) => Value() == t && result == Ok(CancelOf(original))
              case Err(e) => Value() == old(Value()) && result == Err(e)
    {
      if IsCancel(original) {
        return Err(WrongRole);
      }
      var slot :- Find(Descriptors(slots, next), original);
      if slot.entry.None? {
        return Err(NoEntry);
      }
      var entry := slot.entry.value;
      if !entry.original || entry.cancel {
        return Err(NothingPending);
      }
      slots := slots[SlotOf(original) := slot.(entry := Some(entry.(cancel := true)))];
      return Ok(Pack(SlotOf(original), GenerationOf(original), true));
    }

    method CompleteToken(token: Token) returns (result: Result<Binding, DescriptorError>)
      modifies this
      ensures match Complete(old(Value()), token)
              case Ok(t) => Value() == t && result == Resolve(old(Value()), token)
              case Err(e) => Value() == old(Value()) && result == Err(e)
    {
      var slot :- Find(Descriptors(slots, next), token);
      if slot.entry.None? {
        return Err(NoEntry);
      }
      var entry := slot.entry.value;
      if !Pending(entry, IsCancel(token)) {
        return Err(NothingPending);
      }
      if IsCancel(token) {
        entry := entry.(cancel := false);
      } else {
        entry := entry.(original := false);
      }
      slots := slots[SlotOf(token) := slot.(entry := if entry.original || entry.cancel then Some(entry) else None)];
      return Ok(entry.binding);
    }
  }
}
