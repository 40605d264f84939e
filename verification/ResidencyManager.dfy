/** The residency manager with its loops (residency.rs). */
module Residents {
  import opened Collections
  import opened Page
  import opened T = Tier
  import opened ResidencyModel
  import opened ResidencyRuns

  lemma {:induction false} PlanFails(m: Manager, records: seq<Record>, i: nat, n: nat)
    requires i <= n <= |records| && PlanRecords(m, records, i).Err?
    ensures PlanRecords(m, records, n) == PlanRecords(m, records, i)
  {
    hide RegistrationAction;
    if i < n {
      PlanFails(m, records, i, n - 1);
    }
  }

  lemma {:induction false} EvictFails(m: Manager, order: seq<nat>, i: nat, n: nat, incoming: nat, dram: nat)
    requires i <= n <= |order| && (forall k | k in order :: k in m.entries) && EvictFirst(m, order, i, incoming, dram).Err?
    ensures EvictFirst(m, order, n, incoming, dram) == EvictFirst(m, order, i, incoming, dram)
  {
    hide Size;
    if i < n {
      EvictFails(m, order, i, n - 1, incoming, dram);
    }
  }

  /** Once the page fits, the rest of the candidates change nothing. */
  lemma {:induction false} EvictStops(m: Manager, order: seq<nat>, i: nat, n: nat, incoming: nat, dram: nat)
    requires i <= n <= |order| && (forall k | k in order :: k in m.entries) && EvictFirst(m, order, i, incoming, dram).Ok?
    requires EvictFirst(m, order, i, incoming, dram).value.hbm + incoming <= m.hbmLimit <= MAX_U64
    ensures EvictFirst(m, order, n, incoming, dram) == EvictFirst(m, order, i, incoming, dram)
  {
    hide Size;
    if i < n {
      EvictStops(m, order, i, n - 1, incoming, dram);
    }
  }

  /** The method did what the specification says, or failed as it says and changed nothing. */
  ghost predicate Performs(before: Manager, spec: Result<Manager, ResidencyError>, result: Result<(), ResidencyError>, after: Manager) {
    match spec
    case Ok(m) => after == m && result == Ok(())
    case Err(e) => after == before && result == Err(e)
  }

  /** The entries with the victims outside `left` moved. */
  function Partly(was: map<nat, Entry>, victims: map<nat, Location>, left: set<nat>): map<nat, Entry> {
    map k | k in was :: if k !in left && k in victims then Moved(was[k], victims[k]) else was[k]
  }

  lemma PartlyStep(was: map<nat, Entry>, victims: map<nat, Location>, left: set<nat>, k: nat)
    requires k in left && left <= was.Keys
    ensures k in Partly(was, victims, left)
    ensures var now := Partly(was, victims, left);
            Partly(was, victims, left - {k}) == if k in victims then now[k := Moved(now[k], victims[k])] else now
  {
    hide Moved;
  }

  lemma PartlyBounds(was: map<nat, Entry>, victims: map<nat, Location>)
    ensures Partly(was, victims, was.Keys) == was && Partly(was, victims, {}) == Evicted(was, victims)
  {
    hide Moved;
    assert forall k | k in was :: Partly(was, victims, was.Keys)[k] == was[k];
  }

  class ResidencyManager {
    const hbmLimit: nat
    const dramLimit: nat
    var entries: map<nat, Entry>
    var hbm: nat
    var dram: nat
    var clock: nat
    var generation: nat

    ghost function Value(): Manager
      reads this
    {
      Manager(hbmLimit, dramLimit, entries, hbm, dram, clock, generation)
    }

    ghost predicate Consistent()
      reads this
    {
      Valid(Value())
    }

    constructor (hbmLimit: nat, dramLimit: nat)
      requires 0 < hbmLimit <= MAX_U64 && dramLimit <= MAX_U64
      ensures Value() == New(hbmLimit, dramLimit) && Consistent()
    {
      this.hbmLimit, this.dramLimit := hbmLimit, dramLimit;
      entries, hbm, dram, clock, generation := map[], 0, 0, 0, 0;
      new;
      NewIsValid(hbmLimit, dramLimit);
    }

    method PlanNvmeRegistrations(records: seq<Record>) returns (result: Result<Registration, ResidencyError>)
      ensures result == PlanRegistrations(Value(), records)
    {
      hide RegistrationAction, Size;
      ghost var m := Value();
      var nextHbm, nextDram := hbm, dram;
      var keys: set<nat> := {};
      var planned: seq<Record> := [];
      for i := 0 to |records|
        invariant PlanRecords(m, records, i) == Ok(Registration(planned, nextHbm, nextDram, generation))
        invariant forall k :: k in keys <==> exists j :: 0 <= j < i && records[j].key == k
      {
        var r := records[i];
        if r.key in keys {
          PlanFails(m, records, i + 1, |records|);
          return Err(BadRecord);
        }
        keys := keys + {r.key};
        var action := Action(r);
        if action.Err? {
          PlanFails(m, records, i + 1, |records|);
          return Err(action.error);
        }
        if action.value.Retain? {
          continue;
        }
        if action.value.Replace? {
          if r.key !in entries {
            PlanFails(m, records, i + 1, |records|);
            return Err(NoEntry);
          }
          var bytes := EntryBytes(entries[r.key].record);
          if bytes.Err? {
            PlanFails(m, records, i + 1, |records|);
            return Err(bytes.error);
          }
          match entries[r.key].location {
            case InHbm =>
              if bytes.value > nextHbm {
                PlanFails(m, records, i + 1, |records|);
                return Err(OutOfRange);
              }
              nextHbm := nextHbm - bytes.value;
            case InDram =>
              if bytes.value > nextDram {
                PlanFails(m, records, i + 1, |records|);
                return Err(OutOfRange);
              }
              nextDram := nextDram - bytes.value;
            case OnNvme =>
            case Restoring =>
              PlanFails(m, records, i + 1, |records|);
              return Err(WrongState);
          }
        }
        planned := planned + [r];
      }
      return Ok(Registration(planned, nextHbm, nextDram, generation));
    }

    method Action(r: Record) returns (result: Result<Action, ResidencyError>)
      ensures result == RegistrationAction(Value(), r)
    {
      if CheckRecord(r).Err? || r.tier != Nvme {
        return Err(BadRecord);
      }
      if r.key !in entries {
        return Ok(Insert);
      }
      var e := entries[r.key];
      var relation := Relate(e.record, r);
      if relation.Err? {
        return Err(BadRecord);
      }
      if !relation.value.MtpUpgrade? {
        return Ok(Retain);
      }
      if r.generation <= e.record.generation {
        return Err(Stale);
      }
      if e.pins != 0 {
        return Err(Pinned);
      }
      if e.location.Restoring? {
        return Err(WrongState);
      }
      var bytes :- EntryBytes(e.record);
      return Ok(Replace);
    }

    method CommitNvmeRegistrations(plan: Registration) returns (result: Result<(), ResidencyError>)
      modifies this
      ensures Performs(old(Value()), Commit(old(Value()), plan), result, Value())
    {
      if plan.generation != generation {
        return Err(Stale);
      }
      if plan.records != [] && generation + 1 > MAX_U64 {
        return Err(OutOfRange);
      }
      var next := if plan.records == [] then generation else generation + 1;
      for i := 0 to |plan.records|
        invariant entries == Registered(old(entries), plan.records[..i])
        invariant hbm == old(hbm) && dram == old(dram) && clock == old(clock) && generation == old(generation)
      {
        var r := plan.records[i];
        assert plan.records[..i + 1] == plan.records[..i] + [r];
        RegistersLast(old(entries), plan.records[..i], r);
        entries := entries[r.key := Fresh(r)];
      }
      assert plan.records[..|plan.records|] == plan.records;
      hbm, dram, generation := plan.hbm, plan.dram, next;
      return Ok(());
    }

    method RegisterNvme(r: Record) returns (result: Result<(), ResidencyError>)
      requires Consistent()
      modifies this
      ensures Consistent() && Performs(old(Value()), Attempt(old(Value()), Registers([r])), result, Value())
    {
      hide Valid, PlanRecords, Commit;
      OperationKeepsValid(Value(), Registers([r]));
      var plan :- PlanNvmeRegistrations([r]);
      result := CommitNvmeRegistrations(plan);
    }

    method BeginRestore(request: nat, key: nat, ordinal: nat, rank: nat) returns (result: Result<RestoreRequest, ResidencyError>)
      requires Consistent()
      modifies this
      ensures Consistent()
      ensures match Attempt(old(Value()), Begins(request, key, ordinal, rank))
              case Ok(m) =>
                && Value() == m && key in old(entries)
                && result == Ok(RestoreRequest(request, key, old(entries)[key].record.namespace,
                                               old(entries)[key].record.generation, ordinal, rank))
              case Err(e) => Value() == old(Value()) && result == Err(e)
    {
      hide Valid, Size;
      OperationKeepsValid(Value(), Begins(request, key, ordinal, rank));
      if request == 0 || rank >= 4 || OwnerRank(ordinal) != rank {
        return Err(BadRequest);
      }
      if generation + 1 > MAX_U64 {
        return Err(OutOfRange);
      }
      if key !in entries {
        return Err(NoEntry);
      }
      var e := entries[key];
      if !e.location.OnNvme? {
        return Err(WrongState);
      }
      var bytes :- EntryBytes(e.record);
      if bytes > hbmLimit {
        return Err(WrongState);
      }
      entries := entries[key := e.(location := Location.Restoring, pending := Some(Pending(request, ordinal)))];
      generation := generation + 1;
      return Ok(RestoreRequest(request, key, e.record.namespace, e.record.generation, ordinal, rank));
    }

    method AbortRestore(key: nat) returns (result: Result<(), ResidencyError>)
      requires Consistent()
      modifies this
      ensures Consistent() && Performs(old(Value()), Attempt(old(Value()), Aborts(key)), result, Value())
    {
      hide Valid;
      OperationKeepsValid(Value(), Aborts(key));
      if generation + 1 > MAX_U64 {
        return Err(OutOfRange);
      }
      if key !in entries {
        return Err(NoEntry);
      }
      if !entries[key].location.Restoring? {
        return Err(WrongState);
      }
      entries := entries[key := entries[key].(location := OnNvme, pending := None)];
      generation := generation + 1;
      return Ok(());
    }

    method AbortRestoreIdentity(key: nat, request: nat, ordinal: nat) returns (result: Result<(), ResidencyError>)
      requires Consistent()
      modifies this
      ensures Consistent() && Performs(old(Value()), Attempt(old(Value()), AbortsIdentity(key, request, ordinal)), result, Value())
    {
      hide Valid;
      OperationKeepsValid(Value(), AbortsIdentity(key, request, ordinal));
      if key !in entries {
        return Err(NoEntry);
      }
      if !entries[key].location.Restoring? || entries[key].pending != Some(Pending(request, ordinal)) {
        return Err(WrongState);
      }
      if generation + 1 > MAX_U64 {
        return Err(OutOfRange);
      }
      entries := entries[key := entries[key].(location := OnNvme, pending := None)];
      generation := generation + 1;
      return Ok(());
    }

    /** Plans which pages make room, in the order of their last use. */
    method PlanHbmAdmission(incoming: nat, release: nat, excluded: nat) returns (result: Result<Admission, ResidencyError>)
      requires hbmLimit <= MAX_U64
      ensures result == PlanAdmission(Value(), incoming, release, excluded)
    {
      hide ByAge, EvictFirst, Size;
      if release > dram || hbm + incoming > MAX_U64 {
        return Err(OutOfRange);
      }
      if hbm + incoming <= hbmLimit {
        return Ok(Admission(map[], hbm + incoming, dram - release));
      }
      var m := Manager(hbmLimit, dramLimit, entries, hbm, dram, clock, generation);
      if exists k | k in Candidates(m, excluded) :: EntryBytes(m.entries[k].record).Err? {
        return Err(OutOfRange);
      }
      var plan :- Evict(m, ByAge(m, Candidates(m, excluded)), incoming, dram - release);
      if plan.hbm + incoming > MAX_U64 {
        return Err(OutOfRange);
      }
      if plan.hbm + incoming > hbmLimit {
        return Err(Pinned);
      }
      return Ok(plan.(hbm := plan.hbm + incoming));
    }

    method ApplyHbmAdmission(plan: Admission)
      modifies this
      ensures Value() == Admit(old(Value()), plan)
    {
      hide Moved, Partly;
      var left := entries.Keys;
      ghost var was := entries;
      PartlyBounds(was, plan.victims);
      while left != {}
        invariant left <= was.Keys && entries == Partly(was, plan.victims, left)
        invariant hbm == old(hbm) && dram == old(dram) && clock == old(clock) && generation == old(generation)
        decreases |left|
      {
        var k := Least(left);
        PartlyStep(was, plan.victims, left, k);
        if k in plan.victims {
          entries := entries[k := Moved(entries[k], plan.victims[k])];
        }
        left := left - {k};
      }
      hbm, dram := plan.hbm, plan.dram;
    }

    method CompleteRestore(request: nat, ordinal: nat, page: Contents) returns (result: Result<(), ResidencyError>)
      requires Consistent()
      modifies this
      ensures Consistent() && Performs(old(Value()), Attempt(old(Value()), Completes(request, ordinal, page)), result, Value())
    {
      hide Valid, PlanAdmission, Evicted, Size;
      OperationKeepsValid(Value(), Completes(request, ordinal, page));
      LimitsFit(Value());
      var key := page.record.key;
      if key !in entries {
        return Err(NoEntry);
      }
      var e := entries[key];
      if !e.location.Restoring? || e.pending != Some(Pending(request, ordinal)) || e.record != page.record {
        return Err(Stale);
      }
      var bytes :- EntryBytes(e.record);
      if clock + 1 > MAX_U64 {
        return Err(OutOfRange);
      }
      if generation + 1 > MAX_U64 {
        return Err(OutOfRange);
      }
      var plan :- PlanHbmAdmission(bytes, 0, key);
      entries := entries[key := e.(location := InHbm, restored := Some(page), pending := None, touch := clock + 1)];
      ApplyHbmAdmission(plan);
      clock := clock + 1;
      generation := generation + 1;
      return Ok(());
    }

    method PromoteDram(key: nat) returns (result: Result<(), ResidencyError>)
      requires Consistent()
      modifies this
      ensures Consistent() && Performs(old(Value()), Attempt(old(Value()), Promotes(key)), result, Value())
    {
      hide Valid, PlanAdmission, Evicted, Size;
      OperationKeepsValid(Value(), Promotes(key));
      LimitsFit(Value());
      if key !in entries {
        return Err(NoEntry);
      }
      var e := entries[key];
      if !e.location.InDram? {
        return Err(WrongState);
      }
      var bytes :- EntryBytes(e.record);
      if clock + 1 > MAX_U64 {
        return Err(OutOfRange);
      }
      if generation + 1 > MAX_U64 {
        return Err(OutOfRange);
      }
      var plan :- PlanHbmAdmission(bytes, bytes, key);
      entries := entries[key := e.(location := InHbm, touch := clock + 1)];
      ApplyHbmAdmission(plan);
      clock := clock + 1;
      generation := generation + 1;
      return Ok(());
    }

    method PinHbm(key: nat) returns (result: Result<(), ResidencyError>)
      requires Consistent()
      modifies this
      ensures Consistent() && Performs(old(Value()), Attempt(old(Value()), Pins(key)), result, Value())
    {
      hide Valid;
      OperationKeepsValid(Value(), Pins(key));
      if key !in entries {
        return Err(NoEntry);
      }
      var e := entries[key];
      if !e.location.InHbm? {
        return Err(WrongState);
      }
      if e.pins + 1 > MAX_U32 || clock + 1 > MAX_U64 || generation + 1 > MAX_U64 {
        return Err(OutOfRange);
      }
      entries := entries[key := e.(pins := e.pins + 1, touch := clock + 1)];
      clock := clock + 1;
      generation := generation + 1;
      return Ok(());
    }

    method UnpinCount(key: nat, count: nat) returns (result: Result<(), ResidencyError>)
      requires Consistent()
      modifies this
      ensures Consistent() && Performs(old(Value()), Attempt(old(Value()), Unpins(key, count)), result, Value())
    {
      hide Valid;
      OperationKeepsValid(Value(), Unpins(key, count));
      if count == 0 {
        return Err(BadRequest);
      }
      if key !in entries {
        return Err(NoEntry);
      }
      var e := entries[key];
      if !e.location.InHbm? || e.pins < count {
        return Err(WrongState);
      }
      if generation + 1 > MAX_U64 {
        return Err(OutOfRange);
      }
      entries := entries[key := e.(pins := e.pins - count)];
      generation := generation + 1;
      return Ok(());
    }
  }

  lemma LimitsFit(m: Manager)
    requires Valid(m)
    ensures m.hbmLimit <= MAX_U64
  {
  }

  /** The loop over the candidates: evict while the page does not fit. */
  method Evict(m: Manager, order: seq<nat>, incoming: nat, dram: nat) returns (result: Result<Admission, ResidencyError>)
    requires (forall k | k in order :: k in m.entries) && m.hbmLimit <= MAX_U64
    ensures result == EvictFirst(m, order, |order|, incoming, dram)
  {
    hide Size;
    var hbmAfter: nat, dramAfter: nat := m.hbm, dram;
    var victims: map<nat, Location> := map[];
    for i := 0 to |order|
      invariant EvictFirst(m, order, i, incoming, dram) == Ok(Admission(victims, hbmAfter, dramAfter))
    {
      if hbmAfter + incoming > MAX_U64 {
        EvictFails(m, order, i + 1, |order|, incoming, dram);
        return Err(OutOfRange);
      }
      if hbmAfter + incoming <= m.hbmLimit {
        EvictStops(m, order, i, |order|, incoming, dram);
        return Ok(Admission(victims, hbmAfter, dramAfter));
      }
      var bytes := Size(m.entries[order[i]].record);
      if bytes > hbmAfter || dramAfter + bytes > MAX_U64 {
        EvictFails(m, order, i + 1, |order|, incoming, dram);
        return Err(OutOfRange);
      }
      hbmAfter := hbmAfter - bytes;
      var destination := OnNvme;
      if dramAfter + bytes <= m.dramLimit {
        dramAfter := dramAfter + bytes;
        destination := InDram;
      }
      victims := victims[order[i] := destination];
    }
    return Ok(Admission(victims, hbmAfter, dramAfter));
  }
}
