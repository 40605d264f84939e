/** The store's invariant, opening, and reopening after a crash (store.rs). */
module StoreRecovery {
  import opened Collections
  import opened Octets
  import opened Tier
  import opened TierCodec
  import opened TierRecovery
  import opened TierLog
  import opened JournalFile
  import opened StoreExtents
  import opened StoreModel
  import opened StoreSteps

  datatype Store = Store(
    file: Bytes,
    data: Bytes,
    journal: Journal,
    published: Catalogue,
    nextTransaction: nat,
    nextOffset: nat,
    poisoned: bool)

  /** The files, the in-memory journal and the catalogue agree: the file decodes to the journal, the
      catalogue is what the journal shows, and its pieces lie apart and within the data file. */
  ghost predicate Agrees(crc: Bytes -> Word, s: Store) {
    && FileHolds(crc, s.file, s.journal.events)
    && Steady(s.journal.events, s.published)
    && s.nextTransaction == s.journal.next == Current(s.journal.events) + 1 <= MAX_U64
    && CheckExtents(s.published, |s.data|) == Ok(())
    && (s.journal.events == [] ==> s.data == [])
    && (!s.poisoned ==> |s.data| <= s.nextOffset)
  }

  /** Moreover, every record ever published is whole in the data file and apart from the others. Opening
      does not check this; it holds of stores that were only ever written by publishing. */
  ghost predicate Consistent(crc: Bytes -> Word, sha: Bytes -> Digest, s: Store) {
    Agrees(crc, s) && Stored(sha, PublishedRecords(s.journal.events), s.data)
  }

  /** Opening the two files. */
  function Open(crc: Bytes -> Word, file: Bytes, data: Bytes): Result<Store, StoreError> {
    var complete := |file| / 512 * 512;
    if complete == 0 && data != [] then Err(UnjournaledData)
    else
      var d :- DecodeJournal(crc, file);
      var journal := FromEvents(d.events);
      if journal.Err? then Err(TierFault(journal.error))
      else
        var published := Recover(d.events);
        if published.Err? then Err(TierFault(published.error))
        else
          var _ :- CheckExtents(published.value, |data|);
          var offset :- AlignUp(|data|);
          Ok(Store(file[..complete], data, journal.value, published.value, d.current + 1, offset, false))
  }

  /** The in-memory catalogue is the replay of the journal file. */
  lemma MemoryIsReplay(crc: Bytes -> Word, s: Store)
    requires Agrees(crc, s)
    ensures Catalogued(crc, s.file) == Ok(s.published)
  {
    hide Sequential, Replay, Visible, DecodeRecords, Recover, CheckExtents;
    RecoveryIsPublication(s.journal.events);
  }

  lemma {:induction false} MaxIsCurrent(events: seq<Event>)
    requires Sequential(events)
    ensures MaxTransaction(events) == Current(events)
  {
    if events != [] {
      MaxIsCurrent(events[..|events| - 1]);
    }
  }

  lemma CutHolds(crc: Bytes -> Word, file: Bytes, events: seq<Event>, cut: nat)
    requires FileHolds(crc, file, events) && Sequential(events) && cut <= |file|
    ensures var m := cut / 512;
            && m <= |events|
            && FileHolds(crc, file[..512 * m], events[..m])
            && DecodeRecords(crc, file[..cut], m) == Ok(Decoded(events[..m], Current(events[..m])))
            && Current(events[..m]) <= Current(events)
  {
    hide Decode, Sequential;
    var m := cut / 512;
    CutDecodes(crc, file, |events|, m);
    DecodedIsSequential(crc, file, m);
    assert file[..cut][..512 * m] == file[..512 * m] == file[..512 * m][..512 * m];
    SamePrefixDecodes(crc, file, file[..cut], m);
    SamePrefixDecodes(crc, file, file[..512 * m], m);
  }

  /** Whatever files open, the opened store agrees with them. */
  lemma OpenAgrees(crc: Bytes -> Word, file: Bytes, data: Bytes)
    requires Open(crc, file, data).Ok?
    ensures Agrees(crc, Open(crc, file, data).value) && Open(crc, file, data).value.data == data
  {
    hide Sequential, Replay, Visible, DecodeRecords, Recover, CheckExtents, MaxTransaction;
    var n := |file| / 512;
    var d, s := DecodeJournal(crc, file).value, Open(crc, file, data).value;
    DecodedIsSequential(crc, file, n);
    FullRecovery(d.events);
    MaxIsCurrent(d.events);
    assert file[..512 * n][..512 * n] == file[..512 * n];
    SamePrefixDecodes(crc, file, file[..512 * n], n);
    ExtentErrors(s.published, |data|);
  }

  /** Two empty files open to the empty store. */
  lemma EmptyIsConsistent(crc: Bytes -> Word, sha: Bytes -> Digest)
    ensures Open(crc, [], []).Ok? && Consistent(crc, sha, Open(crc, [], []).value)
    ensures Open(crc, [], []).value.published == map[]
  {
    var none: Bytes := [];
    assert Replay([]) == Ok(map[]) && Recover([]) == Ok(map[]);
    AcceptedExactly(map[], 0);
    assert Open(crc, none, none).Ok?;
    OpenAgrees(crc, none, none);
  }

  /** Reopening after the journal was cut at any byte, over any data file: the cut always decodes and
      replays, so opening is decided by the presence, the extents and the size of the data alone. The opened
      store shows what was published before the cut. */
  lemma ReopensExactly(crc: Bytes -> Word, s: Store, cut: nat, data: Bytes)
    requires Agrees(crc, s) && cut <= |s.file|
    ensures cut / 512 <= |s.journal.events| && Visible(s.journal.events[..cut / 512]).Ok?
    ensures var m, r := cut / 512, Open(crc, s.file[..cut], data);
            var c := Visible(s.journal.events[..m]).value;
            && (r.Ok? <==> (cut >= 512 || data == []) && CheckExtents(c, |data|) == Ok(()) && |data| + 4095 <= MAX_U64)
            && (r == Err(UnjournaledData) <==> cut < 512 && data != [])
            && (r.Err? && CheckExtents(c, |data|) == Ok(()) ==> r.error == UnjournaledData || r.error == StoreError.Overflow)
            && (r.Ok? ==>
                  && Agrees(crc, r.value) && r.value.journal.events == s.journal.events[..m]
                  && r.value.published == c && Grows(c, s.published)
                  && r.value.file == s.file[..512 * m] && r.value.data == data && !r.value.poisoned)
  {
    hide Sequential, Replay, Visible, DecodeRecords, Recover, CheckExtents, Grows, MaxTransaction;
    var events, m := s.journal.events, cut / 512;
    CutHolds(crc, s.file, events, cut);
    PrefixesReplay(events, m);
    VisibleGrows(events, m);
    RecoveryIsPublication(events[..m]);
    MaxIsCurrent(events[..m]);
    assert s.file[..cut][..512 * m] == s.file[..512 * m];
    ExtentErrors(Visible(events[..m]).value, |data|);
  }

  /** A crash cuts the journal at any byte and leaves the data file with any bytes after what was
      synced. A consistent store then opens and is consistent again; it refuses only data without a
      single complete journal record, and a data file at the end of the address range. */
  lemma CrashReopens(crc: Bytes -> Word, sha: Bytes -> Digest, s: Store, cut: nat, tail: Bytes)
    requires Consistent(crc, sha, s) && cut <= |s.file|
    ensures var r := Open(crc, s.file[..cut], s.data + tail);
            && (r.Ok? <==> (cut >= 512 || s.data + tail == []) && |s.data + tail| + 4095 <= MAX_U64)
            && (r.Err? ==> r.error == UnjournaledData || r.error == StoreError.Overflow)
            && (r.Ok? ==> Consistent(crc, sha, r.value))
  {
    hide Agrees, Visible, Open, Stored, CheckExtents, Grows, PublishedRecords;
    var events, m := s.journal.events, cut / 512;
    ReopensExactly(crc, s, cut, s.data + tail);
    PrefixPublishes(events, m);
    StoredPrefix(sha, PublishedRecords(events), PublishedRecords(events[..m]), s.data);
    KeepsStored(sha, PublishedRecords(events[..m]), s.data, s.data + tail);
    StoredIsAccepted(sha, events[..m], s.data + tail);
  }

  /** Reopening without loss succeeds for every store that agrees with its files. */
  lemma WholeReopens(crc: Bytes -> Word, s: Store, tail: Bytes)
    requires Agrees(crc, s) && |s.data + tail| + 4095 <= MAX_U64 && (s.journal.events == [] ==> tail == [])
    ensures var r := Open(crc, s.file, s.data + tail);
            r.Ok? && Agrees(crc, r.value) && r.value.published == s.published && r.value.journal.events == s.journal.events
  {
    hide Visible, Open, CheckExtents, Grows, DecodeRecords, Sequential, Replay;
    ReopensExactly(crc, s, |s.file|, s.data + tail);
    assert s.file[..|s.file|] == s.file && s.journal.events[..|s.journal.events|] == s.journal.events;
    LongerExtents(s.published, |s.data|, |s.data + tail|);
  }

  lemma LongerExtents(c: Catalogue, size: nat, longer: nat)
    requires CheckExtents(c, size) == Ok(()) && size <= longer
    ensures CheckExtents(c, longer) == Ok(())
  {
    hide CheckExtents;
    AcceptedExactly(c, size);
    AcceptedExactly(c, longer);
  }

  /** The data file left by a crash keeps what was published if it agrees with the old one up to
      the end of those pieces; the store only ever writes beyond them. */
  lemma KeepsStored(sha: Bytes -> Digest, records: seq<Record>, data: Bytes, longer: Bytes)
    requires Stored(sha, records, data) && data <= longer
    ensures Stored(sha, records, longer)
  {
    hide CheckRecord, RecordsApart;
    forall i | 0 <= i < |records| ensures Holds(sha, records[i], longer) {
      assert Holds(sha, records[i], data);
      forall p | p in records[i].pieces
        ensures p.offset + p.length <= |longer| && sha(longer[p.offset..p.offset + p.length]) == p.sha
      {
        assert longer[p.offset..p.offset + p.length] == data[p.offset..p.offset + p.length];
      }
    }
  }
}
