/** Budgets, eviction order and stale plans in every run (residency.rs). */
module ResidencyRuns {
  import opened Collections
  import opened T = Tier
  import opened ResidencyModel

  // ---------------------------------------------------------------- sums

  /** What one entry contributes at a location. */
  function Share(entries: map<nat, Entry>, k: nat, at: Location): nat {
    if k in entries && entries[k].location == at then Size(entries[k].record) else 0
  }

  /** Changing one entry changes the sums by that entry alone. */
  lemma BytesUpdate(entries: map<nat, Entry>, k: nat, e: Entry, at: Location)
    ensures Share(entries, k, at) <= BytesAt(entries, at)
    ensures BytesAt(entries[k := e], at) ==
            BytesAt(entries, at) - Share(entries, k, at) + (if e.location == at then Size(e.record) else 0)
  {
    hide Sum, Size;
    var before, after := Sizes(entries, at), Sizes(entries[k := e], at);
    SumRemoves(before, k);
    if e.location == at {
      assert after == before[k := Size(e.record)];
      SumUpdates(before, k, Size(e.record));
    } else {
      assert after == before - {k};
    }
  }

  // ---------------------------------------------------------------- eviction

  /** The bytes of the first `j` candidates. */
  function Freed(m: Manager, order: seq<nat>, j: nat): nat
    requires j <= |order| && forall k | k in order :: k in m.entries
  {
    if j == 0 then 0 else Freed(m, order, j - 1) + Size(m.entries[order[j - 1]].record)
  }

  predicate Distinct(order: seq<nat>) {
    forall i, j | 0 <= i < j < |order| :: order[i] != order[j]
  }

  ghost predicate ShortestPrefix(m: Manager, order: seq<nat>, incoming: nat, j: nat)
    requires j <= |order| && forall k | k in order :: k in m.entries
  {
    && (forall i | 0 <= i < j :: m.hbm + incoming > m.hbmLimit + Freed(m, order, i))
    && (j < |order| ==> m.hbm + incoming <= m.hbmLimit + Freed(m, order, j))
  }

  /** The loop evicts a prefix of the order, and stops as soon as the page fits. */
  lemma {:induction false} EvictsPrefix(m: Manager, order: seq<nat>, n: nat, incoming: nat, dram: nat) returns (j: nat)
    requires n <= |order| && (forall k | k in order :: k in m.entries) && Distinct(order)
    requires EvictFirst(m, order, n, incoming, dram).Ok?
    ensures j <= n
    ensures var plan := EvictFirst(m, order, n, incoming, dram).value;
            && (forall k :: k in plan.victims <==> k in order[..j])
            && plan.hbm + Freed(m, order, j) == m.hbm
            && (forall i | 0 <= i < j :: m.hbm + incoming > m.hbmLimit + Freed(m, order, i))
            && (j < n ==> m.hbm + incoming <= m.hbmLimit + Freed(m, order, j))
  {
    hide Size;
    if n == 0 {
      j := 0;
    } else {
      j := EvictsPrefix(m, order, n - 1, incoming, dram);
      var plan := EvictFirst(m, order, n - 1, incoming, dram).value;
      if j == n - 1 && plan.hbm + incoming > m.hbmLimit {
        j := n;
        assert order[..n] == order[..n - 1] + [order[n - 1]];
      }
    }
  }

  /** Pages held in HBM by a pin. */
  function PinnedSizes(m: Manager): map<nat, nat> {
    map k | k in m.entries && m.entries[k].location.InHbm? && m.entries[k].pins > 0 :: Size(m.entries[k].record)
  }

  function PinnedBytes(m: Manager): nat {
    Sum(PinnedSizes(m))
  }

  function Members(order: seq<nat>): set<nat> {
    set k | k in order
  }

  lemma {:induction false} FreedIsRemoved(m: Manager, order: seq<nat>, j: nat)
    requires j <= |order| && (forall k | k in order :: k in m.entries && m.entries[k].location.InHbm?) && Distinct(order)
    ensures BytesAt(m.entries, InHbm) == Freed(m, order, j) + Sum(Sizes(m.entries, InHbm) - Members(order[..j]))
  {
    hide Sum, Size;
    var all := Sizes(m.entries, InHbm);
    if j == 0 {
      assert all - Members(order[..0]) == all;
    } else {
      var k := order[j - 1];
      var before, after := Members(order[..j - 1]), Members(order[..j]);
      FreedIsRemoved(m, order, j - 1);
      assert k !in before by {
        assert forall i | 0 <= i < j - 1 :: order[i] != k;
      }
      assert after == before + {k} by {
        assert order[..j] == order[..j - 1] + [k];
      }
      assert all - after == (all - before) - {k};
      SumRemoves(all - before, k);
    }
  }

  /** What is left after evicting every candidate is pinned. */
  lemma RestIsPinned(m: Manager, order: seq<nat>, excluded: nat)
    requires excluded in m.entries ==> !m.entries[excluded].location.InHbm?
    requires Distinct(order) && forall k :: k in order <==> k in Candidates(m, excluded)
    ensures BytesAt(m.entries, InHbm) == Freed(m, order, |order|) + PinnedBytes(m)
  {
    hide Sum, Size;
    FreedIsRemoved(m, order, |order|);
    assert order[..|order|] == order;
    assert Sizes(m.entries, InHbm) - Members(order) == PinnedSizes(m);
  }

  lemma {:induction false} FreedGrows(m: Manager, order: seq<nat>, i: nat, j: nat)
    requires i <= j <= |order| && forall k | k in order :: k in m.entries
    ensures Freed(m, order, i) <= Freed(m, order, j)
  {
    hide Size;
    if i < j {
      FreedGrows(m, order, i, j - 1);
    }
  }

  /** What the loop over the candidates comes to. */
  lemma LoopOutcome(m: Manager, order: seq<nat>, incoming: nat, dram: nat, pinned: nat) returns (j: nat)
    requires (forall k | k in order :: k in m.entries) && Distinct(order)
    requires m.hbm == Freed(m, order, |order|) + pinned
    requires EvictFirst(m, order, |order|, incoming, dram).Ok?
    ensures j <= |order|
    ensures var plan := EvictFirst(m, order, |order|, incoming, dram).value;
            && (plan.hbm + incoming > m.hbmLimit <==> incoming + pinned > m.hbmLimit)
            && (forall k :: k in plan.victims <==> k in order[..j])
            && plan.hbm + Freed(m, order, j) == m.hbm
            && ShortestPrefix(m, order, incoming, j)
  {
    hide Size, EvictFirst, Freed;
    j := EvictsPrefix(m, order, |order|, incoming, dram);
    FreedGrows(m, order, j, |order|);
  }

  /** The admission rule. Unless the arithmetic overflows, admission fails exactly when the incoming
      page and the pinned pages together exceed HBM; otherwise it evicts the shortest prefix of the
      unpinned pages in the order of their last use. */
  lemma AdmissionRule(m: Manager, incoming: nat, release: nat, excluded: nat) returns (j: nat)
    requires Valid(m) && (excluded in m.entries ==> !m.entries[excluded].location.InHbm?)
    requires PlanAdmission(m, incoming, release, excluded) != Err(OutOfRange)
    ensures var plan, order := PlanAdmission(m, incoming, release, excluded), ByAge(m, Candidates(m, excluded));
            && (plan.Err? ==> plan.error == Pinned)
            && (plan.Err? <==> incoming + PinnedBytes(m) > m.hbmLimit)
            && (plan.Ok? ==>
                  && j <= |order|
                  && ShortestPrefix(m, order, incoming, j)
                  && (forall k :: k in plan.value.victims <==> k in order[..j])
                  && plan.value.hbm + Freed(m, order, j) == m.hbm + incoming)
  {
    hide Size, EntryFits, BytesAt, EvictFirst, Sum, PinnedBytes, Freed, ByAge, Candidates;
    var order := ByAge(m, Candidates(m, excluded));
    AgeIsDistinct(m, order);
    RestIsPinned(m, order, excluded);
    if m.hbm + incoming > m.hbmLimit {
      j := LoopOutcome(m, order, incoming, m.dram - release, PinnedBytes(m));
    } else {
      j := 0;
      assert Freed(m, order, 0) == 0 by {
        NothingFreed(m, order);
      }
    }
  }

  lemma NothingFreed(m: Manager, order: seq<nat>)
    requires forall k | k in order :: k in m.entries
    ensures Freed(m, order, 0) == 0
  {
  }

  /** The arithmetic stays in range whenever the budgets leave room for one more page. */
  lemma AdmissionStaysInRange(m: Manager, incoming: nat, release: nat, excluded: nat)
    requires Valid(m) && (excluded in m.entries ==> !m.entries[excluded].location.InHbm?)
    requires m.hbmLimit + incoming <= MAX_U64 && m.dramLimit + 5_511_168 <= MAX_U64 && release <= m.dram
    ensures PlanAdmission(m, incoming, release, excluded) != Err(OutOfRange)
  {
    hide Size, BytesAt, EvictFirst, Sum, PinnedBytes, Freed, ByAge, Candidates, CheckRecord;
    var order := ByAge(m, Candidates(m, excluded));
    AgeIsDistinct(m, order);
    RestIsPinned(m, order, excluded);
    forall k | k in m.entries ensures Size(m.entries[k].record) <= 5_511_168 {
      assert EntryFits(k, m.entries[k], m.clock);
      CheckedSize(m.entries[k].record);
    }
    LoopStaysInRange(m, order, |order|, incoming, m.dram - release);
  }

  lemma CheckedSize(r: Record)
    requires CheckRecord(r).Ok?
    ensures Size(r) <= 5_511_168
  {
    forall i | 0 <= i < |r.pieces| ensures r.pieces[i].length <= 1_837_056 {
      PieceChecked(r, i, |r.pieces|);
    }
    PiecesBound(r.pieces);
  }

  lemma {:induction false} PieceChecked(r: Record, i: nat, n: nat)
    requires i < n <= |r.pieces| && CheckPieces(r, n).Ok?
    ensures r.pieces[i].length <= 1_837_056
  {
    if i < n - 1 {
      PieceChecked(r, i, n - 1);
    }
  }

  lemma {:induction false} PiecesBound(pieces: seq<PieceRecord>)
    requires forall i | 0 <= i < |pieces| :: pieces[i].length <= 1_837_056
    ensures PieceBytes(pieces) <= 1_837_056 * |pieces|
  {
    if pieces != [] {
      PiecesBound(pieces[..|pieces| - 1]);
    }
  }

  lemma {:induction false} LoopStaysInRange(m: Manager, order: seq<nat>, n: nat, incoming: nat, dram: nat)
    requires n <= |order| && (forall k | k in order :: k in m.entries) && Distinct(order)
    requires forall k | k in m.entries :: Size(m.entries[k].record) <= 5_511_168
    requires Freed(m, order, |order|) <= m.hbm <= m.hbmLimit && m.hbmLimit + incoming <= MAX_U64
    requires dram <= m.dramLimit && m.dramLimit + 5_511_168 <= MAX_U64
    ensures EvictFirst(m, order, n, incoming, dram).Ok?
    ensures EvictFirst(m, order, n, incoming, dram).value.dram <= m.dramLimit
    ensures EvictFirst(m, order, n, incoming, dram).value.hbm <= m.hbm
  {
    hide Size;
    if n > 0 {
      LoopStaysInRange(m, order, n - 1, incoming, dram);
      var j := EvictsPrefix(m, order, n - 1, incoming, dram);
      FreedGrows(m, order, n, |order|);
    }
  }

  lemma AgeIsDistinct(m: Manager, order: seq<nat>)
    requires forall i, j | 0 <= i < j < |order| :: order[i] in m.entries && order[j] in m.entries && Older(m, order[i], order[j])
    ensures Distinct(order)
  {
  }

  // ---------------------------------------------------------------- budgets

  lemma EvictsOne(base: map<nat, Entry>, victims: map<nat, Location>, k: nat, to: Location)
    requires k in base && k !in victims && base[k].location.InHbm? && (to.InDram? || to.OnNvme?)
    ensures var entries, after := Evicted(base, victims), Evicted(base, victims[k := to]);
            && BytesAt(entries, InHbm) == BytesAt(after, InHbm) + Size(base[k].record)
            && BytesAt(after, InDram) == BytesAt(entries, InDram) + (if to.InDram? then Size(base[k].record) else 0)
  {
    hide BytesAt, Size;
    var entries, moved := Evicted(base, victims), Moved(base[k], to);
    assert Evicted(base, victims[k := to]) == entries[k := moved];
    BytesUpdate(entries, k, moved, InHbm);
    BytesUpdate(entries, k, moved, InDram);
  }

  lemma NoneEvicted(base: map<nat, Entry>)
    ensures Evicted(base, map[]) == base
  {
    assert forall k | k in base :: Evicted(base, map[])[k] == base[k];
  }

  /** Evicting keeps the counters equal to the sums, whatever page arrived meanwhile. */
  lemma {:induction false} EvictionSums(m: Manager, base: map<nat, Entry>, order: seq<nat>, n: nat, incoming: nat, dram: nat)
    requires n <= |order| && (forall k | k in order :: k in m.entries) && Distinct(order)
    requires forall k | k in order :: k in base && base[k] == m.entries[k] && base[k].location.InHbm?
    requires BytesAt(base, InHbm) == m.hbm + incoming && BytesAt(base, InDram) == dram <= m.dramLimit
    requires EvictFirst(m, order, n, incoming, dram).Ok?
    ensures var plan := EvictFirst(m, order, n, incoming, dram).value;
            && BytesAt(Evicted(base, plan.victims), InHbm) == plan.hbm + incoming
            && BytesAt(Evicted(base, plan.victims), InDram) == plan.dram <= m.dramLimit
            && (forall k | k in plan.victims :: k in order[..n] && (plan.victims[k].InDram? || plan.victims[k].OnNvme?))
  {
    hide BytesAt, Size, Evicted;
    if n == 0 {
      NoneEvicted(base);
    } else {
      EvictionSums(m, base, order, n - 1, incoming, dram);
      var before, plan := EvictFirst(m, order, n - 1, incoming, dram).value, EvictFirst(m, order, n, incoming, dram).value;
      var k := order[n - 1];
      assert order[..n] == order[..n - 1] + [k];
      if k in plan.victims {
        assert k !in before.victims;
        EvictsOne(base, before.victims, k, plan.victims[k]);
      } else {
        assert plan == before;
      }
    }
  }

  lemma AdmissionSums(m: Manager, base: map<nat, Entry>, key: nat, incoming: nat, release: nat)
    requires key in base && base == m.entries[key := base[key]]
    requires key in m.entries ==> !m.entries[key].location.InHbm?
    requires BytesAt(base, InHbm) == m.hbm + incoming && BytesAt(base, InDram) == m.dram - release <= m.dramLimit
    requires PlanAdmission(m, incoming, release, key).Ok?
    ensures var plan := PlanAdmission(m, incoming, release, key).value;
            && BytesAt(Evicted(base, plan.victims), InHbm) == plan.hbm <= m.hbmLimit
            && BytesAt(Evicted(base, plan.victims), InDram) == plan.dram <= m.dramLimit
            && (forall k | k in plan.victims :: Evictable(m, k, key) && (plan.victims[k].InDram? || plan.victims[k].OnNvme?))
  {
    hide BytesAt, Size, EvictFirst, ByAge, EntryBytes;
    if m.hbm + incoming <= m.hbmLimit {
      assert Evicted(base, map[]) == base;
    } else {
      var order := ByAge(m, Candidates(m, key));
      AgeIsDistinct(m, order);
      EvictionSums(m, base, order, |order|, incoming, m.dram - release);
    }
  }

  /** Arriving in HBM with the evictions it needs keeps the invariant. */
  lemma ArrivalKeepsValid(m: Manager, key: nat, arrived: Entry, release: nat, clock: nat)
    requires Valid(m) && key in m.entries && clock == m.clock + 1
    requires EntryFits(key, arrived, clock) && arrived.location.InHbm? && arrived.record == m.entries[key].record
    requires !m.entries[key].location.InHbm? && release == Share(m.entries, key, InDram)
    requires PlanAdmission(m, Size(arrived.record), release, key).Ok?
    ensures Valid(Admit(m.(entries := m.entries[key := arrived]),
                        PlanAdmission(m, Size(arrived.record), release, key).value).(clock := clock))
  {
    hide BytesAt, Size, PlanAdmission, CheckRecord;
    var base := m.entries[key := arrived];
    BytesUpdate(m.entries, key, arrived, InHbm);
    BytesUpdate(m.entries, key, arrived, InDram);
    AdmissionSums(m, base, key, Size(arrived.record), release);
    var plan := PlanAdmission(m, Size(arrived.record), release, key).value;
    forall k | k in base ensures EntryFits(k, Evicted(base, plan.victims)[k], clock) {
      assert k != key ==> EntryFits(k, m.entries[k], m.clock);
    }
  }

  // ---------------------------------------------------------------- registration

  /** Registering one record takes the bytes of the entry it replaces off. */
  lemma RegisterSums(m: Manager, entries: map<nat, Entry>, r: Record)
    requires r.key in entries <==> r.key in m.entries
    requires r.key in entries ==> entries[r.key] == m.entries[r.key]
    ensures forall at: Location | at.InHbm? || at.InDram? ::
              BytesAt(entries, at) == BytesAt(entries[r.key := Fresh(r)], at) + Share(m.entries, r.key, at)
  {
    hide BytesAt, Size;
    BytesUpdate(entries, r.key, Fresh(r), InHbm);
    BytesUpdate(entries, r.key, Fresh(r), InDram);
  }

  /** One more record in the plan. */
  lemma PlanStep(m: Manager, records: seq<Record>, n: nat)
    requires n < |records| && PlanRecords(m, records, n + 1).Ok?
    ensures PlanRecords(m, records, n).Ok? && CheckRecord(records[n]).Ok?
    ensures forall i | 0 <= i < n :: records[i].key != records[n].key
    ensures var before, plan, r := PlanRecords(m, records, n).value, PlanRecords(m, records, n + 1).value, records[n];
            plan == before ||
            (&& plan.records == before.records + [r] && plan.generation == before.generation
             && before.hbm == plan.hbm + Share(m.entries, r.key, InHbm)
             && before.dram == plan.dram + Share(m.entries, r.key, InDram))
  {
    hide Relate, CheckRecord, Size;
  }

  function KeysOf(records: seq<Record>, n: nat): set<nat>
    requires n <= |records|
  {
    if n == 0 then {} else KeysOf(records, n - 1) + {records[n - 1].key}
  }

  lemma {:induction false} NewKey(records: seq<Record>, n: nat, key: nat)
    requires n <= |records| && forall i | 0 <= i < n :: records[i].key != key
    ensures key !in KeysOf(records, n)
  {
    if n > 0 {
      NewKey(records, n - 1, key);
    }
  }

  ghost predicate Untouched(m: Manager, entries: map<nat, Entry>, touched: set<nat>) {
    forall k | k !in touched :: (k in entries <==> k in m.entries) && (k in entries ==> entries[k] == m.entries[k])
  }

  lemma FreshFits(r: Record, clock: nat)
    requires CheckRecord(r).Ok?
    ensures EntryFits(r.key, Fresh(r), clock)
  {
  }

  /** The totals of a plan are the sums after it is committed. */
  lemma {:induction false} PlanSums(m: Manager, records: seq<Record>, n: nat)
    requires Valid(m) && n <= |records| && PlanRecords(m, records, n).Ok?
    ensures var plan := PlanRecords(m, records, n).value;
            var entries := Registered(m.entries, plan.records);
            && plan.generation == m.generation
            && plan.hbm == BytesAt(entries, InHbm) <= m.hbm && plan.dram == BytesAt(entries, InDram) <= m.dram
            && (forall k | k in entries :: EntryFits(k, entries[k], m.clock))
            && Untouched(m, entries, KeysOf(records, n))
  {
    hide BytesAt, CheckRecord, PlanRecords, Size, Share, Registered, EntryFits;
    if n == 0 {
      PlanNothing(m, records);
    } else {
      PlanStep(m, records, n - 1);
      PlanSums(m, records, n - 1);
      var before, plan := PlanRecords(m, records, n - 1).value, PlanRecords(m, records, n).value;
      var entries, r := Registered(m.entries, before.records), records[n - 1];
      if plan != before {
        RegistersLast(m.entries, before.records, r);
        NewKey(records, n - 1, r.key);
        FreshFits(r, m.clock);
        RegisterSums(m, entries, r);
      }
    }
  }

  lemma PlanNothing(m: Manager, records: seq<Record>)
    ensures PlanRecords(m, records, 0) == Ok(Registration([], m.hbm, m.dram, m.generation))
    ensures Registered(m.entries, []) == m.entries
  {
  }

  lemma RegistersLast(entries: map<nat, Entry>, records: seq<Record>, r: Record)
    ensures Registered(entries, records + [r]) == Registered(entries, records)[r.key := Fresh(r)]
  {
    assert (records + [r])[..|records|] == records;
  }

  // ---------------------------------------------------------------- runs

  datatype Operation =
    | Registers(records: seq<Record>)
    | Begins(request: nat, key: nat, ordinal: nat, rank: nat)
    | Aborts(key: nat)
    | AbortsIdentity(key: nat, request: nat, ordinal: nat)
    | Completes(request: nat, ordinal: nat, page: Contents)
    | Promotes(key: nat)
    | Pins(key: nat)
    | Unpins(key: nat, count: nat)

  function Attempt(m: Manager, op: Operation): Result<Manager, ResidencyError> {
    match op
    case Registers(records) => Register(m, records)
    case Begins(request, key, ordinal, rank) => BeginRestore(m, request, key, ordinal, rank)
    case Aborts(key) => AbortRestore(m, key)
    case AbortsIdentity(key, request, ordinal) => AbortIdentity(m, key, request, ordinal)
    case Completes(request, ordinal, page) => CompleteRestore(m, request, ordinal, page)
    case Promotes(key) => PromoteDram(m, key)
    case Pins(key) => Pin(m, key)
    case Unpins(key, count) => Unpin(m, key, count)
  }

  /** A failing operation changes nothing. */
  function Apply(m: Manager, op: Operation): Manager {
    if Attempt(m, op).Ok? then Attempt(m, op).value else m
  }

  function Run(m: Manager, ops: seq<Operation>): Manager {
    if ops == [] then m else Apply(Run(m, ops[..|ops| - 1]), ops[|ops| - 1])
  }

  lemma RegisterKeepsValid(m: Manager, records: seq<Record>)
    requires Valid(m) && Register(m, records).Ok?
    ensures Valid(Register(m, records).value)
  {
    hide BytesAt, EntryFits, PlanRecords, Registered;
    PlanSums(m, records, |records|);
  }

  /** Changing one entry at its place, or to a place that holds no bytes. */
  lemma ChangeKeepsValid(m: Manager, key: nat, e: Entry, clock: nat, generation: nat)
    requires Valid(m) && key in m.entries && EntryFits(key, e, clock) && clock >= m.clock
    requires e.record == m.entries[key].record
    requires e.location == m.entries[key].location ||
             (!e.location.InHbm? && !e.location.InDram? && !m.entries[key].location.InHbm? && !m.entries[key].location.InDram?)
    ensures Valid(m.(entries := m.entries[key := e], clock := clock, generation := generation))
  {
    hide BytesAt, Size, CheckRecord;
    BytesUpdate(m.entries, key, e, InHbm);
    BytesUpdate(m.entries, key, e, InDram);
  }

  lemma CompleteKeepsValid(m: Manager, request: nat, ordinal: nat, page: Contents)
    requires Valid(m) && CompleteRestore(m, request, ordinal, page).Ok?
    ensures Valid(CompleteRestore(m, request, ordinal, page).value)
  {
    hide BytesAt, Size, PlanAdmission, CheckRecord, Admit;
    var key := page.record.key;
    var e := m.entries[key];
    var arrived := e.(location := InHbm, restored := Some(page), pending := None, touch := m.clock + 1);
    assert EntryFits(key, e, m.clock);
    ArrivalKeepsValid(m, key, arrived, 0, m.clock + 1);
    GenerationIsFree(Admit(m.(entries := m.entries[key := arrived]), PlanAdmission(m, Size(e.record), 0, key).value).(clock := m.clock + 1), m.generation + 1);
  }

  lemma PromoteKeepsValid(m: Manager, key: nat)
    requires Valid(m) && PromoteDram(m, key).Ok?
    ensures Valid(PromoteDram(m, key).value)
  {
    hide BytesAt, Size, PlanAdmission, CheckRecord, Admit;
    var e := m.entries[key];
    var arrived := e.(location := InHbm, touch := m.clock + 1);
    assert EntryFits(key, e, m.clock);
    ArrivalKeepsValid(m, key, arrived, Size(e.record), m.clock + 1);
    GenerationIsFree(Admit(m.(entries := m.entries[key := arrived]), PlanAdmission(m, Size(e.record), Size(e.record), key).value).(clock := m.clock + 1), m.generation + 1);
  }

  lemma GenerationIsFree(m: Manager, generation: nat)
    requires Valid(m)
    ensures Valid(m.(generation := generation))
  {
  }

  lemma SimpleKeepsValid(m: Manager, op: Operation)
    requires Valid(m) && !op.Registers? && !op.Completes? && !op.Promotes? && Attempt(m, op).Ok?
    ensures Valid(Attempt(m, op).value)
  {
    hide BytesAt, Size, CheckRecord, Valid;
    var after := Attempt(m, op).value;
    KnownEntries(m);
    ChangeKeepsValid(m, op.key, after.entries[op.key], after.clock, after.generation);
  }

  lemma KnownEntries(m: Manager)
    requires Valid(m)
    ensures forall k | k in m.entries :: EntryFits(k, m.entries[k], m.clock)
  {
  }

  /** Every operation, successful or not, keeps the counters exact and within the budgets, pinned
      pages in HBM, and the contents of resident pages those of their records. */
  lemma OperationKeepsValid(m: Manager, op: Operation)
    requires Valid(m)
    ensures Valid(Apply(m, op))
  {
    hide Valid, Register, BeginRestore, AbortRestore, AbortIdentity, CompleteRestore, PromoteDram, Pin, Unpin;
    if Attempt(m, op).Ok? {
      if op.Registers? {
        RegisterKeepsValid(m, op.records);
      } else if op.Completes? {
        CompleteKeepsValid(m, op.request, op.ordinal, op.page);
      } else if op.Promotes? {
        PromoteKeepsValid(m, op.key);
      } else {
        SimpleKeepsValid(m, op);
      }
    }
  }

  function New(hbmLimit: nat, dramLimit: nat): Manager {
    Manager(hbmLimit, dramLimit, map[], 0, 0, 0, 0)
  }

  lemma NewIsValid(hbmLimit: nat, dramLimit: nat)
    requires hbmLimit <= MAX_U64 && dramLimit <= MAX_U64
    ensures Valid(New(hbmLimit, dramLimit))
  {
    assert Sizes(map[], InHbm) == map[] && Sizes(map[], InDram) == map[];
  }

  lemma {:induction false} RunKeepsValid(m: Manager, ops: seq<Operation>)
    requires Valid(m)
    ensures Valid(Run(m, ops))
  {
    hide Valid, Apply;
    if ops != [] {
      RunKeepsValid(m, ops[..|ops| - 1]);
      OperationKeepsValid(Run(m, ops[..|ops| - 1]), ops[|ops| - 1]);
    }
  }

  // ---------------------------------------------------------------- stale plans

  lemma OperationMoves(m: Manager, op: Operation)
    requires Valid(m)
    ensures Apply(m, op) == m || Apply(m, op).generation == m.generation + 1
  {
    hide BytesAt, Size, PlanAdmission, EntryFits, PlanRecords;
    if op.Registers? && Attempt(m, op).Ok? {
      PlanSums(m, op.records, |op.records|);
      PlanNothing(m, op.records);
    }
  }

  lemma {:induction false} RunMoves(m: Manager, ops: seq<Operation>)
    requires Valid(m)
    ensures Run(m, ops).generation >= m.generation
    ensures Run(m, ops).generation == m.generation ==> Run(m, ops) == m
  {
    hide Valid, Apply;
    if ops != [] {
      RunMoves(m, ops[..|ops| - 1]);
      RunKeepsValid(m, ops[..|ops| - 1]);
      OperationMoves(Run(m, ops[..|ops| - 1]), ops[|ops| - 1]);
    }
  }

  /** A plan is accepted later only if nothing at all has changed since it was made; committing it
      is then the same as planning and committing at once. */
  lemma StalePlansAreRejected(m: Manager, records: seq<Record>, ops: seq<Operation>)
    requires Valid(m) && PlanRegistrations(m, records).Ok?
    ensures var plan, later := PlanRegistrations(m, records).value, Run(m, ops);
            && (later != m ==> Commit(later, plan) == Err(Stale))
            && (later == m ==> Commit(later, plan) == Register(m, records))
  {
    hide Valid, PlanRecords, Run, Registered;
    RunMoves(m, ops);
    PlanSums(m, records, |records|);
  }
}
