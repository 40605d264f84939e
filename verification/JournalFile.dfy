/** The journal file: decoding, and what a crash leaves of it (store.rs). */
module JournalFile {
  import opened Collections
  import opened Octets
  import opened Tier
  import opened TierCodec
  import opened TierRecovery

  datatype Decoded = Decoded(events: seq<Event>, current: nat)

  /** Decodes the first `n` complete records and checks their transaction numbers. */
  function DecodeRecords(crc: Bytes -> Word, bytes: Bytes, n: nat): Result<Decoded, StoreError>
    requires 512 * n <= |bytes|
  {
    if n == 0 then Ok(Decoded([], 0))
    else
      var d :- DecodeRecords(crc, bytes, n - 1);
      var e :- Decode(crc, bytes[512 * (n - 1)..512 * n]);
      if e.transaction == d.current then Ok(Decoded(d.events + [e], d.current))
      else if d.current + 1 > MAX_U64 then Err(StoreError.Overflow)
      else if e.transaction != d.current + 1 || !e.Begin? then Err(JournalSequence)
      else Ok(Decoded(d.events + [e], e.transaction))
  }

  /** Decodes all complete records; a torn last record is ignored. */
  function DecodeJournal(crc: Bytes -> Word, bytes: Bytes): Result<Decoded, StoreError> {
    var d :- DecodeRecords(crc, bytes, |bytes| / 512);
    if d.current + 1 > MAX_U64 then Err(StoreError.Overflow) else Ok(d)
  }

  function Catalogued(crc: Bytes -> Word, bytes: Bytes): Result<Catalogue, StoreError> {
    var d :- DecodeJournal(crc, bytes);
    var c := Recover(d.events);
    if c.Ok? then Ok(c.value) else Err(TierFault(c.error))
  }

  lemma {:induction false} DecodedIsSequential(crc: Bytes -> Word, bytes: Bytes, n: nat)
    requires 512 * n <= |bytes| && DecodeRecords(crc, bytes, n).Ok?
    ensures var d := DecodeRecords(crc, bytes, n).value;
            Sequential(d.events) && Current(d.events) == d.current && |d.events| == n
  {
    hide Decode;
    if n > 0 {
      DecodedIsSequential(crc, bytes, n - 1);
      var d := DecodeRecords(crc, bytes, n - 1).value;
      var e := Decode(crc, bytes[512 * (n - 1)..512 * n]).value;
      assert (d.events + [e])[..n - 1] == d.events;
    }
  }

  /** A shorter cut decodes to a prefix of the events. */
  lemma {:induction false} CutDecodes(crc: Bytes -> Word, bytes: Bytes, n: nat, m: nat)
    requires m <= n && 512 * n <= |bytes| && DecodeRecords(crc, bytes, n).Ok?
    ensures DecodeRecords(crc, bytes, m).Ok?
    ensures var d := DecodeRecords(crc, bytes, n).value;
            |d.events| == n && DecodeRecords(crc, bytes, m).value.events == d.events[..m]
            && DecodeRecords(crc, bytes, m).value.current <= d.current
    decreases n
  {
    hide Decode, Sequential;
    DecodedIsSequential(crc, bytes, n);
    var d := DecodeRecords(crc, bytes, n).value;
    if m < n {
      CutDecodes(crc, bytes, n - 1, m);
      var before := DecodeRecords(crc, bytes, n - 1).value;
      assert d.events[..n - 1] == before.events;
      assert d.events[..m] == before.events[..m];
    } else {
      assert d.events[..m] == d.events;
    }
  }

  lemma {:induction false} SamePrefixDecodes(crc: Bytes -> Word, x: Bytes, y: Bytes, n: nat)
    requires 512 * n <= |x| && 512 * n <= |y| && x[..512 * n] == y[..512 * n]
    ensures DecodeRecords(crc, x, n) == DecodeRecords(crc, y, n)
  {
    hide Decode;
    if n > 0 {
      assert forall i | 0 <= i < 512 * n :: x[i] == x[..512 * n][i] == y[..512 * n][i] == y[i];
      assert x[..512 * (n - 1)] == y[..512 * (n - 1)];
      assert x[512 * (n - 1)..512 * n] == y[512 * (n - 1)..512 * n];
      SamePrefixDecodes(crc, x, y, n - 1);
    }
  }

  lemma FullRecovery(events: seq<Event>)
    requires Sequential(events) && Recover(events).Ok?
    ensures Replay(events).Ok? && Recover(events) == Visible(events)
  {
    RecoveryIsPublication(events);
  }

  /** The events of a journal that opens. */
  function EventsOf(crc: Bytes -> Word, bytes: Bytes): (events: seq<Event>)
    requires Catalogued(crc, bytes).Ok?
  {
    DecodeJournal(crc, bytes).value.events
  }

  /** A cut at any byte opens and shows what the complete records before it publish. */
  lemma CutShows(crc: Bytes -> Word, bytes: Bytes, cut: nat)
    requires cut <= |bytes| && Catalogued(crc, bytes).Ok?
    ensures var events := EventsOf(crc, bytes);
            && |events| == |bytes| / 512
            && Visible(events[..cut / 512]).Ok?
            && Catalogued(crc, bytes[..cut]) == Ok(Visible(events[..cut / 512]).value)
  {
    hide Replay, Visible, Recover, Sequential, Decode, DecodeRecords;
    var n, m := |bytes| / 512, cut / 512;
    var events := EventsOf(crc, bytes);
    DecodedIsSequential(crc, bytes, n);
    FullRecovery(events);
    CutDecodes(crc, bytes, n, m);
    assert bytes[..cut][..512 * m] == bytes[..512 * m];
    SamePrefixDecodes(crc, bytes, bytes[..cut], m);
    PrefixesReplay(events, m);
    RecoveryIsPublication(events[..m]);
  }

  /** Crash consistency. A byte string that opens still opens when it is cut at any byte. The cut
      shows the catalogue as of the last complete Publish, the `p`-th record, and that catalogue
      keeps its keys, target identities and drafts in every longer cut. */
  lemma CrashConsistency(crc: Bytes -> Word, bytes: Bytes, cut: nat, p: nat)
    requires cut <= |bytes| && Catalogued(crc, bytes).Ok?
    requires p <= cut / 512
    requires forall i | p <= i < cut / 512 && i < |EventsOf(crc, bytes)| :: !EventsOf(crc, bytes)[i].Publish?
    ensures Catalogued(crc, bytes[..cut]).Ok?
    ensures Catalogued(crc, bytes[..cut]) == Catalogued(crc, bytes[..512 * p])
    ensures Grows(Catalogued(crc, bytes[..cut]).value, Catalogued(crc, bytes).value)
  {
    hide Visible, Catalogued, EventsOf, Grows;
    var events := EventsOf(crc, bytes);
    CutShows(crc, bytes, cut);
    CutShows(crc, bytes, 512 * p);
    CutShows(crc, bytes, |bytes|);
    assert events[..|bytes| / 512] == events;
    assert bytes[..|bytes|] == bytes;
    VisibleGrows(events, cut / 512);
    OnlyPublishShows(events, p, cut / 512);
  }
}
