/** Which pages are in HBM, in DRAM or only on NVMe, under two byte budgets (residency.rs). */
module ResidencyModel {
  import opened Collections
  import opened Octets
  import opened Page
  import opened T = Tier

  datatype ResidencyError = BadConfig | BadRecord | BadRequest | NoEntry | Stale | WrongState | Pinned | OutOfRange

  datatype Location = InHbm | InDram | OnNvme | Restoring

  datatype Contents = Contents(record: Record, pieces: map<Piece, Bytes>)

  datatype Pending = Pending(request: nat, ordinal: nat)

  datatype Entry = Entry(
    record: Record,
    location: Location,
    restored: Option<Contents>,
    pending: Option<Pending>,
    pins: nat,
    touch: nat)

  datatype Manager = Manager(
    hbmLimit: nat,
    dramLimit: nat,
    entries: map<nat, Entry>,
    hbm: nat,
    dram: nat,
    clock: nat,
    generation: nat)

  const MAX_U32: nat := 0xFFFF_FFFF

  // ---------------------------------------------------------------- sizes

  function PieceBytes(pieces: seq<PieceRecord>): nat {
    if pieces == [] then 0 else PieceBytes(pieces[..|pieces| - 1]) + pieces[|pieces| - 1].length
  }

  function Size(r: Record): nat {
    PieceBytes(r.pieces)
  }

  /** The size, unless it overflows; the partial sums only grow, so only the total matters. */
  function EntryBytes(r: Record): Result<nat, ResidencyError> {
    if Size(r) > MAX_U64 then Err(OutOfRange) else Ok(Size(r))
  }

  function NextGeneration(m: Manager): Result<nat, ResidencyError> {
    if m.generation + 1 > MAX_U64 then Err(OutOfRange) else Ok(m.generation + 1)
  }

  function NextClock(m: Manager): Result<nat, ResidencyError> {
    if m.clock + 1 > MAX_U64 then Err(OutOfRange) else Ok(m.clock + 1)
  }

  // ---------------------------------------------------------------- registration

  datatype Action = Insert | Replace | Retain

  function RegistrationAction(m: Manager, r: Record): Result<Action, ResidencyError> {
    if CheckRecord(r).Err? || r.tier != Nvme then Err(BadRecord)
    else if r.key !in m.entries then Ok(Insert)
    else
      var e := m.entries[r.key];
      var relation := Relate(e.record, r);
      if relation.Err? then Err(BadRecord)
      else if !relation.value.MtpUpgrade? then Ok(Retain)
      else if r.generation <= e.record.generation then Err(Stale)
      else if e.pins != 0 then Err(Pinned)
      else if e.location.Restoring? then Err(WrongState)
      else
        var _ :- EntryBytes(e.record);
        Ok(Replace)
  }

  datatype Registration = Registration(records: seq<Record>, hbm: nat, dram: nat, generation: nat)

  /** The plan for the first `n` records. */
  function PlanRecords(m: Manager, records: seq<Record>, n: nat): Result<Registration, ResidencyError>
    requires n <= |records|
  {
    if n == 0 then Ok(Registration([], m.hbm, m.dram, m.generation))
    else
      var plan :- PlanRecords(m, records, n - 1);
      var r := records[n - 1];
      if exists i | 0 <= i < n - 1 :: records[i].key == r.key then Err(BadRecord)
      else
        var action :- RegistrationAction(m, r);
        if action.Retain? then Ok(plan)
        else if action.Insert? then Ok(plan.(records := plan.records + [r]))
        else if r.key !in m.entries then Err(NoEntry)
        else
          var e := m.entries[r.key];
          var bytes :- EntryBytes(e.record);
          match e.location
          case InHbm =>
            if bytes > plan.hbm then Err(OutOfRange)
            else Ok(plan.(records := plan.records + [r], hbm := plan.hbm - bytes))
          case InDram =>
            if bytes > plan.dram then Err(OutOfRange)
            else Ok(plan.(records := plan.records + [r], dram := plan.dram - bytes))
          case OnNvme => Ok(plan.(records := plan.records + [r]))
          case Restoring => Err(WrongState)
  }

  function PlanRegistrations(m: Manager, records: seq<Record>): Result<Registration, ResidencyError> {
    PlanRecords(m, records, |records|)
  }

  function Fresh(r: Record): Entry {
    Entry(r, OnNvme, None, None, 0, 0)
  }

  function Registered(entries: map<nat, Entry>, records: seq<Record>): map<nat, Entry> {
    if records == [] then entries
    else
      var last := records[|records| - 1];
      Registered(entries, records[..|records| - 1])[last.key := Fresh(last)]
  }

  function Commit(m: Manager, plan: Registration): Result<Manager, ResidencyError> {
    if plan.generation != m.generation then Err(Stale)
    else
      var generation :- if plan.records == [] then Ok(m.generation) else NextGeneration(m);
      Ok(m.(entries := Registered(m.entries, plan.records), hbm := plan.hbm, dram := plan.dram, generation := generation))
  }

  function Register(m: Manager, records: seq<Record>): Result<Manager, ResidencyError> {
    var plan :- PlanRegistrations(m, records);
    Commit(m, plan)
  }

  // ---------------------------------------------------------------- least recently used

  predicate Older(m: Manager, x: nat, y: nat)
    requires x in m.entries && y in m.entries
  {
    var a, b := m.entries[x].touch, m.entries[y].touch;
    a < b || (a == b && x < y)
  }

  lemma {:induction false} OldestExists(m: Manager, s: set<nat>) returns (x: nat)
    requires s != {} && s <= m.entries.Keys
    ensures x in s && forall y | y in s :: y == x || Older(m, x, y)
  {
    x :| x in s;
    var rest := s - {x};
    if rest != {} {
      var o := OldestExists(m, rest);
      x := if Older(m, o, x) then o else x;
    }
    forall y | y in s ensures y == x || Older(m, x, y) {
      assert y in rest || rest == {} || y !in rest;
    }
  }

  function Oldest(m: Manager, s: set<nat>): (x: nat)
    requires s != {} && s <= m.entries.Keys
    ensures x in s && forall y | y in s :: y == x || Older(m, x, y)
  {
    assert exists x :: x in s && forall y | y in s :: y == x || Older(m, x, y) by {
      var o := OldestExists(m, s);
    }
    var x :| x in s && forall y | y in s :: y == x || Older(m, x, y);
    x
  }

  /** The keys of `s` by last touch, then by key. */
  function ByAge(m: Manager, s: set<nat>): (r: seq<nat>)
    requires s <= m.entries.Keys
    ensures forall x :: x in r <==> x in s
    ensures forall i, j | 0 <= i < j < |r| :: r[i] in m.entries && r[j] in m.entries && Older(m, r[i], r[j])
    decreases |s|
  {
    if s == {} then []
    else
      var x := Oldest(m, s);
      var rest := ByAge(m, s - {x});
      assert forall y | y in rest :: y in s - {x};
      [x] + rest
  }

  // ---------------------------------------------------------------- admission to HBM

  datatype Admission = Admission(victims: map<nat, Location>, hbm: nat, dram: nat)

  predicate Evictable(m: Manager, k: nat, excluded: nat) {
    k in m.entries && k != excluded && m.entries[k].location.InHbm? && m.entries[k].pins == 0
  }

  function Candidates(m: Manager, excluded: nat): (s: set<nat>)
    ensures s <= m.entries.Keys
    ensures forall k :: k in s <==> Evictable(m, k, excluded)
  {
    set k | k in m.entries && Evictable(m, k, excluded)
  }

  /** Goes through the first `n` candidates and evicts while the page does not fit. */
  function EvictFirst(m: Manager, order: seq<nat>, n: nat, incoming: nat, dram: nat): (r: Result<Admission, ResidencyError>)
    requires n <= |order| && forall k | k in order :: k in m.entries
    ensures r.Err? ==> r.error == OutOfRange
  {
    if n == 0 then Ok(Admission(map[], m.hbm, dram))
    else
      var plan :- EvictFirst(m, order, n - 1, incoming, dram);
      var k := order[n - 1];
      var bytes := Size(m.entries[k].record);
      if plan.hbm + incoming > MAX_U64 then Err(OutOfRange)
      else if plan.hbm + incoming <= m.hbmLimit then Ok(plan)
      else if bytes > plan.hbm || plan.dram + bytes > MAX_U64 then Err(OutOfRange)
      else if plan.dram + bytes <= m.dramLimit then
        Ok(Admission(plan.victims[k := InDram], plan.hbm - bytes, plan.dram + bytes))
      else Ok(Admission(plan.victims[k := OnNvme], plan.hbm - bytes, plan.dram))
  }

  function PlanAdmission(m: Manager, incoming: nat, release: nat, excluded: nat): Result<Admission, ResidencyError> {
    if release > m.dram || m.hbm + incoming > MAX_U64 then Err(OutOfRange)
    else if m.hbm + incoming <= m.hbmLimit then Ok(Admission(map[], m.hbm + incoming, m.dram - release))
    else if exists k | k in Candidates(m, excluded) :: EntryBytes(m.entries[k].record).Err? then Err(OutOfRange)
    else
      var order := ByAge(m, Candidates(m, excluded));
      var plan :- EvictFirst(m, order, |order|, incoming, m.dram - release);
      if plan.hbm + incoming > MAX_U64 then Err(OutOfRange)
      else if plan.hbm + incoming > m.hbmLimit then Err(Pinned)
      else Ok(plan.(hbm := plan.hbm + incoming))
  }

  function Moved(e: Entry, to: Location): Entry {
    e.(location := to, restored := if to.OnNvme? then None else e.restored)
  }

  function Evicted(entries: map<nat, Entry>, victims: map<nat, Location>): map<nat, Entry> {
    map k | k in entries :: if k in victims then Moved(entries[k], victims[k]) else entries[k]
  }

  function Admit(m: Manager, plan: Admission): Manager {
    m.(entries := Evicted(m.entries, plan.victims), hbm := plan.hbm, dram := plan.dram)
  }

  // ---------------------------------------------------------------- operations

  datatype RestoreRequest = RestoreRequest(
    request: nat, key: nat, namespace: nat, minimum: nat, ordinal: nat, rank: nat)

  function BeginRestore(m: Manager, request: nat, key: nat, ordinal: nat, rank: nat): Result<Manager, ResidencyError> {
    if request == 0 || rank >= 4 || OwnerRank(ordinal) != rank then Err(BadRequest)
    else
      var generation :- NextGeneration(m);
      if key !in m.entries then Err(NoEntry)
      else
        var e := m.entries[key];
        if !e.location.OnNvme? then Err(WrongState)
        else
          var bytes :- EntryBytes(e.record);
          if bytes > m.hbmLimit then Err(WrongState)
          else
            Ok(m.(entries := m.entries[key := e.(location := Location.Restoring, pending := Some(Pending(request, ordinal)))],
                  generation := generation))
  }

  function Abandoned(m: Manager, key: nat, generation: nat): Manager
    requires key in m.entries
  {
    m.(entries := m.entries[key := m.entries[key].(location := OnNvme, pending := None)], generation := generation)
  }

  function AbortRestore(m: Manager, key: nat): Result<Manager, ResidencyError> {
    var generation :- NextGeneration(m);
    if key !in m.entries then Err(NoEntry)
    else if !m.entries[key].location.Restoring? then Err(WrongState)
    else Ok(Abandoned(m, key, generation))
  }

  function AbortIdentity(m: Manager, key: nat, request: nat, ordinal: nat): Result<Manager, ResidencyError> {
    if key !in m.entries then Err(NoEntry)
    else if !m.entries[key].location.Restoring? || m.entries[key].pending != Some(Pending(request, ordinal)) then
      Err(WrongState)
    else
      var generation :- NextGeneration(m);
      Ok(Abandoned(m, key, generation))
  }

  function CompleteRestore(m: Manager, request: nat, ordinal: nat, page: Contents): Result<Manager, ResidencyError> {
    var key := page.record.key;
    if key !in m.entries then Err(NoEntry)
    else
      var e := m.entries[key];
      if !e.location.Restoring? || e.pending != Some(Pending(request, ordinal)) || e.record != page.record then Err(Stale)
      else
        var bytes :- EntryBytes(e.record);
        var clock :- NextClock(m);
        var generation :- NextGeneration(m);
        var plan :- PlanAdmission(m, bytes, 0, key);
        var arrived := e.(location := InHbm, restored := Some(page), pending := None, touch := clock);
        Ok(Admit(m.(entries := m.entries[key := arrived]), plan).(clock := clock, generation := generation))
  }

  function PromoteDram(m: Manager, key: nat): Result<Manager, ResidencyError> {
    if key !in m.entries then Err(NoEntry)
    else
      var e := m.entries[key];
      if !e.location.InDram? then Err(WrongState)
      else
        var bytes :- EntryBytes(e.record);
        var clock :- NextClock(m);
        var generation :- NextGeneration(m);
        var plan :- PlanAdmission(m, bytes, bytes, key);
        var arrived := e.(location := InHbm, touch := clock);
        Ok(Admit(m.(entries := m.entries[key := arrived]), plan).(clock := clock, generation := generation))
  }

  function Pin(m: Manager, key: nat): Result<Manager, ResidencyError> {
    if key !in m.entries then Err(NoEntry)
    else
      var e := m.entries[key];
      if !e.location.InHbm? then Err(WrongState)
      else if e.pins + 1 > MAX_U32 then Err(OutOfRange)
      else
        var clock :- NextClock(m);
        var generation :- NextGeneration(m);
        Ok(m.(entries := m.entries[key := e.(pins := e.pins + 1, touch := clock)], clock := clock, generation := generation))
  }

  function Unpin(m: Manager, key: nat, count: nat): Result<Manager, ResidencyError> {
    if count == 0 then Err(BadRequest)
    else if key !in m.entries then Err(NoEntry)
    else
      var e := m.entries[key];
      if !e.location.InHbm? || e.pins < count then Err(WrongState)
      else
        var generation :- NextGeneration(m);
        Ok(m.(entries := m.entries[key := e.(pins := e.pins - count)], generation := generation))
  }

  // ---------------------------------------------------------------- invariant

  /** The sizes of the entries at a location. */
  function Sizes(entries: map<nat, Entry>, at: Location): map<nat, nat> {
    map k | k in entries && entries[k].location == at :: Size(entries[k].record)
  }

  function BytesAt(entries: map<nat, Entry>, at: Location): nat {
    Sum(Sizes(entries, at))
  }

  predicate EntryFits(k: nat, e: Entry, clock: nat) {
    && e.record.key == k && CheckRecord(e.record).Ok?
    && (e.pins > 0 ==> e.location.InHbm?)
    && (e.pending.Some? <==> e.location.Restoring?)
    && (e.restored.Some? <==> e.location.InHbm? || e.location.InDram?)
    && (e.restored.Some? ==> e.restored.value.record == e.record)
    && e.touch <= clock
  }

  ghost predicate Valid(m: Manager) {
    && (forall k | k in m.entries :: EntryFits(k, m.entries[k], m.clock))
    && m.hbm == BytesAt(m.entries, InHbm) <= m.hbmLimit <= MAX_U64
    && m.dram == BytesAt(m.entries, InDram) <= m.dramLimit <= MAX_U64
  }
}
