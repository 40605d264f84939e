/** What each operation of the residency manager answers and changes (residency.rs). */
module ResidencyAnswers {
  import opened Collections
  import opened T = Tier
  import opened TierLaw
  import opened ResidencyModel
  import opened ResidencyRuns

  // ---------------------------------------------------------------- eviction

  /** The bytes that the first `n` of `order` take in DRAM. */
  function DramTaken(m: Manager, order: seq<nat>, victims: map<nat, Location>, n: nat): nat
    requires n <= |order| && forall k | k in order :: k in m.entries
  {
    if n == 0 then 0
    else
      var k := order[n - 1];
      DramTaken(m, order, victims, n - 1) + (if k in victims && victims[k].InDram? then Size(m.entries[k].record) else 0)
  }

  lemma {:induction false} SameTaken(m: Manager, order: seq<nat>, x: map<nat, Location>, y: map<nat, Location>, n: nat)
    requires n <= |order| && (forall k | k in order :: k in m.entries)
    requires forall i | 0 <= i < n :: (order[i] in x <==> order[i] in y) && (order[i] in x ==> x[order[i]] == y[order[i]])
    ensures DramTaken(m, order, x, n) == DramTaken(m, order, y, n)
  {
    if n > 0 {
      SameTaken(m, order, x, y, n - 1);
    }
  }

  /** Every victim goes to DRAM exactly when it fits beside what is there and what was evicted to DRAM
      before it; otherwise only its NVMe copy remains. */
  ghost predicate Placed(m: Manager, order: seq<nat>, n: nat, dram: nat, victims: map<nat, Location>)
    requires n <= |order| && forall k | k in order :: k in m.entries
  {
    && (forall k | k in victims :: k in order[..n])
    && (forall i | 0 <= i < n && order[i] in victims ::
          victims[order[i]] == if dram + DramTaken(m, order, victims, i) + Size(m.entries[order[i]].record) <= m.dramLimit
                               then InDram else OnNvme)
  }

  lemma PlacedMore(m: Manager, order: seq<nat>, n: nat, dram: nat, before: map<nat, Location>, after: map<nat, Location>)
    requires n < |order| && (forall k | k in order :: k in m.entries) && Distinct(order) && Placed(m, order, n, dram, before)
    requires after == before ||
             after == before[order[n] := if dram + DramTaken(m, order, before, n) + Size(m.entries[order[n]].record) <= m.dramLimit
                                         then InDram else OnNvme]
    ensures Placed(m, order, n + 1, dram, after)
    ensures DramTaken(m, order, after, n) == DramTaken(m, order, before, n)
  {
    hide Size, DramTaken;
    assert order[..n + 1] == order[..n] + [order[n]];
    forall i | 0 <= i < n ensures order[i] != order[n] && order[i] in order[..n + 1] {
    }
    forall i | 0 <= i <= n ensures DramTaken(m, order, after, i) == DramTaken(m, order, before, i) {
      SameTaken(m, order, before, after, i);
    }
    assert order[n] !in before;
  }

  lemma {:induction false} VictimsGo(m: Manager, order: seq<nat>, n: nat, incoming: nat, dram: nat)
    requires n <= |order| && (forall k | k in order :: k in m.entries) && Distinct(order)
    requires EvictFirst(m, order, n, incoming, dram).Ok?
    ensures var plan := EvictFirst(m, order, n, incoming, dram).value;
            plan.dram == dram + DramTaken(m, order, plan.victims, n) && Placed(m, order, n, dram, plan.victims)
  {
    hide Size, Placed;
    if n == 0 {
      NonePlaced(m, order, dram);
    } else {
      VictimsGo(m, order, n - 1, incoming, dram);
      var before, plan := EvictFirst(m, order, n - 1, incoming, dram).value, EvictFirst(m, order, n, incoming, dram).value;
      PlacedMore(m, order, n - 1, dram, before.victims, plan.victims);
      NotYet(m, order, n - 1, dram, before.victims);
    }
  }

  lemma NonePlaced(m: Manager, order: seq<nat>, dram: nat)
    requires forall k | k in order :: k in m.entries
    ensures Placed(m, order, 0, dram, map[])
  {
  }

  lemma NotYet(m: Manager, order: seq<nat>, n: nat, dram: nat, victims: map<nat, Location>)
    requires n < |order| && (forall k | k in order :: k in m.entries) && Distinct(order) && Placed(m, order, n, dram, victims)
    ensures order[n] !in victims
  {
    hide Size, DramTaken;
    assert order[n] !in order[..n];
  }

  /** A page leaves HBM only if it is unpinned and not the one admitted, and then nothing that could have
      left instead was used longer ago. */
  lemma VictimsAreOldest(m: Manager, incoming: nat, release: nat, excluded: nat)
    requires Valid(m) && (excluded in m.entries ==> !m.entries[excluded].location.InHbm?)
    requires PlanAdmission(m, incoming, release, excluded).Ok?
    ensures var victims := PlanAdmission(m, incoming, release, excluded).value.victims;
            && (forall v | v in victims ::
                  v in m.entries && v != excluded && m.entries[v].location.InHbm? && m.entries[v].pins == 0)
            && (forall v, w | v in victims && w in m.entries && w !in victims && w != excluded
                              && m.entries[w].location.InHbm? && m.entries[w].pins == 0 ::
                  m.entries[v].touch < m.entries[w].touch || (m.entries[v].touch == m.entries[w].touch && v < w))
  {
    hide Valid, PlanAdmission, ShortestPrefix, Freed, ByAge, Candidates;
    var j := AdmissionRule(m, incoming, release, excluded);
    OlderThanTheRest(m, excluded, ByAge(m, Candidates(m, excluded)), j, PlanAdmission(m, incoming, release, excluded).value.victims);
  }

  lemma OlderThanTheRest(m: Manager, excluded: nat, order: seq<nat>, j: nat, victims: map<nat, Location>)
    requires j <= |order| && (forall k :: k in order <==> k in Candidates(m, excluded))
    requires forall x, y | 0 <= x < y < |order| :: order[x] in m.entries && order[y] in m.entries && Older(m, order[x], order[y])
    requires forall k :: k in victims <==> k in order[..j]
    ensures forall v | v in victims :: Evictable(m, v, excluded)
    ensures forall v, w | v in victims && Evictable(m, w, excluded) && w !in victims :: Older(m, v, w)
  {
    forall v | v in victims ensures Evictable(m, v, excluded) && v in order[..j] {
      assert v in order;
    }
    forall v, w | v in victims && Evictable(m, w, excluded) && w !in victims ensures Older(m, v, w) {
      assert w in Candidates(m, excluded);
      var x :| 0 <= x < j && order[x] == v;
      var y :| 0 <= y < |order| && order[y] == w;
      NotBefore(order, j, y);
    }
  }

  lemma NotBefore(order: seq<nat>, j: nat, y: nat)
    requires j <= |order| && y < |order|
    ensures y < j ==> order[y] in order[..j]
  {
    if y < j {
      assert order[..j][y] == order[y];
    }
  }

  /** The victims of an admission, oldest first, fill DRAM and then fall back to NVMe. */
  lemma AdmissionPlaces(m: Manager, incoming: nat, release: nat, excluded: nat)
    requires PlanAdmission(m, incoming, release, excluded).Ok? && m.hbm + incoming > m.hbmLimit
    ensures var plan, order := PlanAdmission(m, incoming, release, excluded).value, ByAge(m, Candidates(m, excluded));
            && release <= m.dram && Placed(m, order, |order|, m.dram - release, plan.victims)
            && plan.dram == m.dram - release + DramTaken(m, order, plan.victims, |order|)
  {
    hide EvictFirst, Placed, DramTaken, ByAge, Candidates;
    var order := ByAge(m, Candidates(m, excluded));
    AgeIsDistinct(m, order);
    VictimsGo(m, order, |order|, incoming, m.dram - release);
  }

  // ---------------------------------------------------------------- operations

  /** Only the entry of `key` changes. */
  ghost predicate OthersStay(m: Manager, u: Manager, key: nat) {
    && u.entries.Keys == m.entries.Keys && u.hbmLimit == m.hbmLimit && u.dramLimit == m.dramLimit
    && (forall k | k in m.entries && k != key :: u.entries[k] == m.entries[k])
  }

  /** The others stay, or unpinned ones leave HBM for DRAM with their contents or for NVMe without. */
  ghost predicate OthersMayLeave(m: Manager, u: Manager, key: nat) {
    && u.entries.Keys == m.entries.Keys && u.hbmLimit == m.hbmLimit && u.dramLimit == m.dramLimit
    && (forall k | k in m.entries && k != key ::
          || u.entries[k] == m.entries[k]
          || (&& m.entries[k].location.InHbm? && m.entries[k].pins == 0
              && (u.entries[k] == m.entries[k].(location := InDram)
                  || u.entries[k] == m.entries[k].(location := OnNvme, restored := None))))
  }

  ghost predicate SameBudget(m: Manager, u: Manager) {
    u.hbm == m.hbm && u.dram == m.dram
  }

  /** The budgets leave room for one more page in 64 bits, so no sum overflows. */
  predicate RoomToCount(m: Manager) {
    m.hbmLimit + 5_511_168 <= MAX_U64 && m.dramLimit + 5_511_168 <= MAX_U64
  }

  lemma SizesFit(m: Manager, key: nat)
    requires Valid(m) && key in m.entries
    ensures Size(m.entries[key].record) <= 5_511_168 && EntryBytes(m.entries[key].record) == Ok(Size(m.entries[key].record))
  {
    hide Size, CheckRecord, BytesAt;
    assert EntryFits(key, m.entries[key], m.clock);
    CheckedSize(m.entries[key].record);
  }

  /** A restore begins exactly for a page on NVMe that HBM could hold, asked for by the rank that owns it. */
  lemma BeginsExactly(m: Manager, request: nat, key: nat, ordinal: nat, rank: nat)
    requires Valid(m)
    ensures var r := BeginRestore(m, request, key, ordinal, rank);
            && (r.Ok? <==>
                  && request > 0 && rank == ordinal % 4 && m.generation < MAX_U64
                  && key in m.entries && m.entries[key].location.OnNvme? && Size(m.entries[key].record) <= m.hbmLimit)
            && (r.Ok? ==>
                  && OthersStay(m, r.value, key) && SameBudget(m, r.value) && r.value.clock == m.clock
                  && r.value.generation == m.generation + 1
                  && r.value.entries[key] == m.entries[key].(location := Restoring, pending := Some(Pending(request, ordinal))))
  {
    hide Valid, Size;
    if key in m.entries {
      SizesFit(m, key);
    }
  }

  /** A restore is given up exactly while it runs; by identity, exactly when request and page are the ones
      that began it. */
  lemma AbortsExactly(m: Manager, key: nat, request: nat, ordinal: nat)
    ensures AbortRestore(m, key).Ok? <==> m.generation < MAX_U64 && key in m.entries && m.entries[key].location.Restoring?
    ensures AbortIdentity(m, key, request, ordinal).Ok? <==>
            AbortRestore(m, key).Ok? && m.entries[key].pending == Some(Pending(request, ordinal))
    ensures forall u | AbortRestore(m, key) == Ok(u) || AbortIdentity(m, key, request, ordinal) == Ok(u) ::
              && OthersStay(m, u, key) && SameBudget(m, u) && u.clock == m.clock && u.generation == m.generation + 1
              && u.entries[key] == m.entries[key].(location := OnNvme, pending := None)
  {
  }

  lemma ArrivalFrame(m: Manager, key: nat, arrived: Entry, incoming: nat, release: nat)
    requires Valid(m) && key in m.entries && !m.entries[key].location.InHbm?
    requires PlanAdmission(m, incoming, release, key).Ok?
    ensures var u := Admit(m.(entries := m.entries[key := arrived]), PlanAdmission(m, incoming, release, key).value);
            && OthersMayLeave(m, u, key) && u.entries[key] == arrived
  {
    hide Valid, PlanAdmission;
    VictimsAreOldest(m, incoming, release, key);
    VictimsMove(m, incoming, release, key);
  }

  lemma VictimsMove(m: Manager, incoming: nat, release: nat, excluded: nat)
    requires PlanAdmission(m, incoming, release, excluded).Ok?
    ensures var victims := PlanAdmission(m, incoming, release, excluded).value.victims;
            forall k | k in victims :: victims[k].InDram? || victims[k].OnNvme?
  {
    hide EvictFirst, DramTaken, ByAge, Candidates;
    if m.hbm + incoming > m.hbmLimit {
      AdmissionPlaces(m, incoming, release, excluded);
    }
  }

  /** A restore completes exactly for the request and page that began it, with the contents of the
      registered record, when it fits beside the pinned pages. */
  lemma CompletesExactly(m: Manager, request: nat, ordinal: nat, page: Contents)
    requires Valid(m)
    ensures var r, key := CompleteRestore(m, request, ordinal, page), page.record.key;
            var fits :=
              && key in m.entries && m.entries[key].location.Restoring?
              && m.entries[key].pending == Some(Pending(request, ordinal)) && m.entries[key].record == page.record
              && m.clock < MAX_U64 && m.generation < MAX_U64
              && Size(page.record) + PinnedBytes(m) <= m.hbmLimit;
            && (r.Ok? ==> fits)
            && (fits && RoomToCount(m) ==> r.Ok?)
            && (r.Ok? ==>
                  && OthersMayLeave(m, r.value, key) && r.value.clock == m.clock + 1 && r.value.generation == m.generation + 1
                  && r.value.entries[key] ==
                       m.entries[key].(location := InHbm, restored := Some(page), pending := None, touch := m.clock + 1))
  {
    hide Valid, Size, PlanAdmission, PinnedBytes, Evicted;
    var key := page.record.key;
    if key in m.entries && m.entries[key].location.Restoring? {
      SizesFit(m, key);
      var bytes := Size(m.entries[key].record);
      if RoomToCount(m) {
        AdmissionStaysInRange(m, bytes, 0, key);
      }
      if PlanAdmission(m, bytes, 0, key) != Err(OutOfRange) {
        var j := AdmissionRule(m, bytes, 0, key);
      }
      if PlanAdmission(m, bytes, 0, key).Ok? && m.clock < MAX_U64 {
        ArrivalFrame(m, key, m.entries[key].(location := InHbm, restored := Some(page), pending := None, touch := m.clock + 1), bytes, 0);
      }
    }
  }

  /** A page is promoted exactly from DRAM, when it fits beside the pinned pages; it keeps its contents. */
  lemma PromotesExactly(m: Manager, key: nat)
    requires Valid(m)
    ensures var r := PromoteDram(m, key);
            var fits :=
              && key in m.entries && m.entries[key].location.InDram? && m.clock < MAX_U64 && m.generation < MAX_U64
              && Size(m.entries[key].record) + PinnedBytes(m) <= m.hbmLimit;
            && (r.Ok? ==> fits)
            && (fits && RoomToCount(m) ==> r.Ok?)
            && (r.Ok? ==>
                  && OthersMayLeave(m, r.value, key) && r.value.clock == m.clock + 1 && r.value.generation == m.generation + 1
                  && r.value.entries[key] == m.entries[key].(location := InHbm, touch := m.clock + 1))
  {
    hide Valid, Size, PlanAdmission, PinnedBytes, Evicted;
    if key in m.entries && m.entries[key].location.InDram? {
      SizesFit(m, key);
      ResidentBytes(m, key);
      var bytes := Size(m.entries[key].record);
      if RoomToCount(m) {
        AdmissionStaysInRange(m, bytes, bytes, key);
      }
      if PlanAdmission(m, bytes, bytes, key) != Err(OutOfRange) {
        var j := AdmissionRule(m, bytes, bytes, key);
      }
      if PlanAdmission(m, bytes, bytes, key).Ok? && m.clock < MAX_U64 {
        ArrivalFrame(m, key, m.entries[key].(location := InHbm, touch := m.clock + 1), bytes, bytes);
      }
    }
  }

  lemma ResidentBytes(m: Manager, key: nat)
    requires Valid(m) && key in m.entries && m.entries[key].location.InDram?
    ensures Size(m.entries[key].record) <= m.dram
  {
    hide Size, BytesAt, EntryFits;
    BytesUpdate(m.entries, key, m.entries[key], InDram);
  }

  /** A page is pinned exactly in HBM, one pin at a time and as its latest use; it loses exactly the pins
      given back. */
  lemma PinsExactly(m: Manager, key: nat, count: nat)
    ensures Pin(m, key).Ok? <==>
            && key in m.entries && m.entries[key].location.InHbm? && m.entries[key].pins < MAX_U32
            && m.clock < MAX_U64 && m.generation < MAX_U64
    ensures Pin(m, key).Ok? ==>
            var u := Pin(m, key).value;
            && OthersStay(m, u, key) && SameBudget(m, u) && u.clock == m.clock + 1 && u.generation == m.generation + 1
            && u.entries[key] == m.entries[key].(pins := m.entries[key].pins + 1, touch := m.clock + 1)
    ensures Unpin(m, key, count).Ok? <==>
            count > 0 && key in m.entries && m.entries[key].location.InHbm? && count <= m.entries[key].pins && m.generation < MAX_U64
    ensures Unpin(m, key, count).Ok? ==>
            var u := Unpin(m, key, count).value;
            && OthersStay(m, u, key) && SameBudget(m, u) && u.clock == m.clock && u.generation == m.generation + 1
            && u.entries[key] == m.entries[key].(pins := m.entries[key].pins - count)
  {
  }

  // ---------------------------------------------------------------- registration

  /** A record is registered exactly when it is a well-formed NVMe record that is new, or the same page as
      before; a first draft replaces the entry when it is newer and the page is neither pinned nor being
      restored. */
  lemma RegistersExactly(m: Manager, r: Record)
    requires Valid(m)
    ensures var known := r.key in m.entries;
            var upgrades := known && r.mtp && !m.entries[r.key].record.mtp;
            && (Register(m, [r]).Ok? <==>
                  && WellFormed(r) && r.tier.Nvme?
                  && (known ==> SamePage(m.entries[r.key].record, r))
                  && (upgrades ==>
                        && r.generation > m.entries[r.key].record.generation && m.entries[r.key].pins == 0
                        && !m.entries[r.key].location.Restoring?)
                  && (!known || upgrades ==> m.generation < MAX_U64))
            && (Register(m, [r]).Ok? ==>
                  var u := Register(m, [r]).value;
                  if known && !upgrades then u == m
                  else
                    && u.generation == m.generation + 1 && u.clock == m.clock && u.entries.Keys == m.entries.Keys + {r.key}
                    && u.entries[r.key] == Entry(r, OnNvme, None, None, 0, 0)
                    && (forall k | k in m.entries && k != r.key :: u.entries[k] == m.entries[k]))
  {
    hide WellFormed, SamePage, Size, CheckRecord, Relate, BytesAt;
    var records := [r];
    assert records[..0] == [] && PlanRecords(m, records, 0) == Ok(Registration([], m.hbm, m.dram, m.generation));
    RecordsExactly(r);
    if r.key in m.entries {
      assert EntryFits(r.key, m.entries[r.key], m.clock);
      RecordsExactly(m.entries[r.key].record);
      if WellFormed(r) {
        RelationsExactly(m.entries[r.key].record, r);
      }
      SizesFit(m, r.key);
      SizesWithin(m, r.key);
    }
    assert Registered(m.entries, [r]) == m.entries[r.key := Fresh(r)] by {
      assert [r][..0] == [];
    }
  }

  lemma SizesWithin(m: Manager, key: nat)
    requires Valid(m) && key in m.entries
    ensures m.entries[key].location.InHbm? ==> Size(m.entries[key].record) <= m.hbm
    ensures m.entries[key].location.InDram? ==> Size(m.entries[key].record) <= m.dram
  {
    hide Size, BytesAt, EntryFits;
    BytesUpdate(m.entries, key, m.entries[key], InHbm);
    BytesUpdate(m.entries, key, m.entries[key], InDram);
  }
}
