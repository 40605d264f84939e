/** The durable page store over its two files (store.rs).

    The files are byte sequences; the failpoints are the crashes the source injects. */
module TierStore {
  import opened Collections
  import opened Octets
  import opened Tier
  import opened TierCodec
  import opened TierRecovery
  import opened TierLog
  import opened JournalFile
  import opened StoreExtents
  import opened StoreModel
  import opened StoreSteps
  import opened StoreRecovery
  import opened StorePublication
  import opened StoreReading

  /** A journal error as the store reports it. */
  function Lift<T>(r: Result<T, Error>): Result<T, StoreError> {
    if r.Ok? then Ok(r.value) else Err(TierFault(r.error))
  }

  class FileTierStore {
    const crc: Bytes -> Word
    const sha: Bytes -> Digest
    const journal: TierJournal
    var file: Bytes
    var data: Bytes
    var published: Catalogue
    var nextTransaction: nat
    var nextOffset: nat
    var poisoned: bool

    ghost function Value(): Store
      reads this, journal
    {
      Store(file, data, journal.Value(), published, nextTransaction, nextOffset, poisoned)
    }

    /** The files, the journal and the catalogue agree. */
    ghost predicate Valid()
      reads this, journal
    {
      Agrees(crc, Value())
    }

    constructor (crc: Bytes -> Word, sha: Bytes -> Digest, s: Store)
      ensures Value() == s && this.crc == crc && this.sha == sha && fresh(journal)
    {
      this.crc, this.sha := crc, sha;
      journal := new TierJournal(s.journal);
      file, data, published := s.file, s.data, s.published;
      nextTransaction, nextOffset, poisoned := s.nextTransaction, s.nextOffset, s.poisoned;
    }

    method AppendRecord(e: Event) returns (result: Result<(), StoreError>)
      modifies this`file
      ensures match Encode(crc, e)
              case Ok(b) => file == old(file) + b && result == Ok(())
              case Err(x) => file == old(file) && result == Err(x)
    {
      var bytes :- Encode(crc, e);
      file := file + bytes;
      return Ok(());
    }

    method WritePieces(record: Record, pieces: seq<PieceBytes>, ghost from: nat)
      requires Describes(sha, record, pieces, from) && |data| <= from
      modifies this`data
      ensures data == WriteAll(old(data), record, pieces, |pieces|)
      ensures WrittenUpTo(data, record, pieces, |pieces|) && old(data) <= data
    {
      hide WriteAt;
      for i := 0 to |pieces|
        invariant data == WriteAll(old(data), record, pieces, i)
      {
        data := WriteAt(data, record.pieces[i].offset, pieces[i].bytes);
      }
      WritesAll(sha, old(data), record, pieces, |pieces|, from);
    }

    /** Marks one piece durable in memory and in the file. */
    method MarkPiece(transaction: nat, p: PieceRecord, ghost r: Record, ghost k: nat) returns (result: Result<(), StoreError>)
      requires Midway(crc, Value(), r, k) && k < |r.pieces| && p == r.pieces[k]
      requires transaction == Current(journal.events) && Fits(PieceDurable(transaction, p.piece, p.sha))
      modifies this`file, journal
      ensures result == Ok(()) && Value() == Appended(crc, old(Value()), PieceDurable(transaction, p.piece, p.sha))
    {
      hide Midway, MarkDurable, Encode;
      MarksNext(crc, Value(), r, k);
      var marked := journal.PieceDurable(transaction, p.piece, p.sha);
      if marked.Err? {
        return Lift(marked);
      }
      result := AppendRecord(Event.PieceDurable(transaction, p.piece, p.sha));
    }

    /** Marks the pieces durable one after the other, or stops after the first. */
    method MarkPieces(transaction: nat, r: Record, stopAfterFirst: bool) returns (result: Result<(), StoreError>)
      requires Midway(crc, Value(), r, 0) && transaction == Current(journal.events) && |r.pieces| > 0 && MarksFit(transaction, r)
      modifies this`file, journal
      ensures Value() == MarkedUpTo(crc, old(Value()), transaction, r, if stopAfterFirst then 1 else |r.pieces|)
      ensures result == if stopAfterFirst then Err(InjectedCrash) else Ok(())
    {
      hide Midway, Fits, PublishedRecords;
      for i := 0 to |r.pieces|
        invariant Value() == MarkedUpTo(crc, old(Value()), transaction, r, i)
        invariant stopAfterFirst ==> i == 0
      {
        MarksAll(crc, old(Value()), transaction, r, i);
        var marked := MarkPiece(transaction, r.pieces[i], r, i);
        if marked.Err? {
          return marked;
        }
        if i == 0 && stopAfterFirst {
          return Err(InjectedCrash);
        }
      }
      return Ok(());
    }

    /** Begins the transaction of a decided record in memory and in the file. */
    method BeginTransaction(record: Record) returns (result: Result<nat, StoreError>)
      requires Valid() && CheckRecord(record).Ok?
      requires nextTransaction < MAX_U64 ==> Fits(Event.Begin(nextTransaction, record))
      modifies this`file, this`nextTransaction, journal
      ensures old(nextTransaction) == MAX_U64 ==> result == Err(StoreError.Overflow) && Value() == old(Value())
      ensures old(nextTransaction) < MAX_U64 ==>
                result == Ok(old(nextTransaction)) && Value() == Begun(crc, old(Value()), record)
    {
      hide BeginRecord, Fits, CheckRecord, Encode, FileHolds, Steady, CheckExtents, Midway;
      var transaction := nextTransaction;
      if nextTransaction + 1 > MAX_U64 {
        return Err(StoreError.Overflow);
      }
      Starts(crc, Value(), record);
      var begun := journal.Begin(record);
      if begun.Err? {
        return Lift(begun);
      }
      if begun.value != transaction {
        return Err(JournalSequence);
      }
      nextTransaction := nextTransaction + 1;
      var written := AppendRecord(Event.Begin(transaction, record));
      return Ok(transaction);
    }

    /** Publishes a transaction whose pieces are marked and written. */
    method FinishTransaction(transaction: nat, record: Record, next: nat, ghost from: nat)
      requires Midway(crc, Value(), record, |record.pieces|) && transaction == Current(journal.events)
      requires Merge(published, record) == Ok(published[record.key := record])
      requires Fits(Event.Publish(transaction)) && InBounds(published, from) && |data| <= next
      requires forall p | p in record.pieces :: from <= p.offset && p.offset + p.length <= |data|
      modifies this`file, this`published, this`nextOffset, journal
      ensures Value() == Finished(crc, old(Value()), transaction, record, next)
    {
      hide Midway, Agrees, Fits, Merge, Encode, Current, PublishRecord, InBounds, PublishedRecords;
      Finishes(crc, Value(), record, from, next);
      // Every piece is marked, so publishing in memory cannot fail.
      var finished := journal.Publish(transaction);
      assert finished == Ok(());
      var written := AppendRecord(Event.Publish(transaction));
      nextOffset := next;
      published := published[record.key := record];
    }

    /** Writes a decided record: begin, data, marks, publish. */
    method PublishPrevalidated(record: Record, pieces: seq<PieceBytes>, next: nat, failpoint: Option<Failpoint>)
      returns (result: Result<Record, StoreError>)
      requires Valid() && Planned(sha, Value(), record, pieces, next)
      modifies this, journal
      ensures poisoned == old(poisoned)
      ensures Value().(poisoned := result.Err?) == Wrote(crc, old(Value()), record, pieces, next, failpoint)
      ensures Agrees(crc, Value().(poisoned := result.Err?))
      ensures result == if old(nextTransaction) == MAX_U64 then Err(StoreError.Overflow)
                        else if failpoint.Some? then Err(InjectedCrash) else Ok(record)
    {
      hide Midway, FileHolds, Steady, Inside, PublishedRecords, Fits, MarksFit, Merge, CheckRecord, Encode, Current, CheckExtents;
      hide Describes, WrittenUpTo, Holds, WriteAll, InBounds, Appended;
      assert failpoint.None? || failpoint.value.BeginJournaled? || failpoint.value.DataSynced? || failpoint.value.FirstPieceJournaled?;
      ghost var s := Value();
      WroteAgrees(crc, sha, s, record, pieces, next, failpoint);
      PlannedData(sha, s, record, pieces, next);
      BoundsBelow(published, |data|, nextOffset);
      var begun := BeginTransaction(record);
      if begun.Err? {
        return Err(begun.error);
      }
      var transaction := begun.value;
      if failpoint == Some(BeginJournaled) {
        return Err(InjectedCrash);
      }
      Starts(crc, s, record);
      BegunFrame(crc, s, record);
      WritePieces(record, pieces, s.nextOffset);
      if failpoint == Some(DataSynced) {
        return Err(InjectedCrash);
      }
      DataGrows(crc, Begun(crc, s, record), record, 0, data);
      ghost var written := Value();
      var marked := MarkPieces(transaction, record, failpoint == Some(FirstPieceJournaled));
      if marked.Err? {
        return Err(marked.error);
      }
      MarksAll(crc, written, transaction, record, |record.pieces|);
      FinishTransaction(transaction, record, next, s.nextOffset);
      return Ok(record);
    }

    /** Publishes a page, or returns the record already published for it. */
    method PublishPage(request: Request, failpoint: Option<Failpoint>) returns (result: Result<Record, StoreError>)
      requires Valid()
      modifies this, journal
      ensures Valid() && Value() == AfterPublish(crc, sha, old(Value()), request, failpoint)
      ensures old(poisoned) ==> result == Err(WritePoisoned)
      ensures !old(poisoned) ==>
                match Decide(sha, old(published), old(nextOffset), request)
                case Err(e) => result == Err(e)
                case Ok(Keep(existing)) => result == Ok(existing)
                case Ok(Write(record, pieces, next)) =>
                  result == if old(nextTransaction) == MAX_U64 then Err(StoreError.Overflow)
                            else if failpoint.Some? then Err(InjectedCrash) else Ok(record)
    {
      hide Agrees, Planned, Wrote, Place, Relate, CheckRecord, SortPieces, Repeats;
      if poisoned {
        return Err(WritePoisoned);
      }
      var pieces := SortPieces(request.pieces);
      if pieces == [] || Repeats(pieces) {
        return Err(WrongPieces);
      }
      var placed :- PlacePieces(sha, pieces, nextOffset);
      var record := Record(request.namespace, request.key, request.generation, Nvme, request.mtp, placed.records);
      var checked := ValidateRecord(record);
      if checked.Err? {
        return Err(TierFault(checked.error));
      }
      if record.key in published {
        var relation := Relate(published[record.key], record);
        if relation.Err? {
          return Err(if relation.error.Collision? then ContentCollision else TierFault(relation.error));
        }
        if !relation.value.MtpUpgrade? {
          return Ok(published[record.key]);
        }
        if record.generation <= published[record.key].generation {
          return Err(StaleGeneration);
        }
      }
      var next :- AlignUp(placed.end);
      assert Decide(sha, published, nextOffset, request) == Ok(Write(record, pieces, next));
      DecidedIsPlanned(sha, Value(), request);
      result := PublishPrevalidated(record, pieces, next, failpoint);
      if result.Err? {
        poisoned := true;
      }
    }

    /** Reads a published page back and checks its digests. */
    method Restore(key: nat) returns (result: Result<Option<(Record, map<Piece, Bytes>)>, StoreError>)
      ensures key !in published ==> result == Ok(None)
      ensures key in published ==>
                match ReadPieces(sha, data, published[key].pieces, |published[key].pieces|)
                case Ok(pieces) => result == Ok(Some((published[key], pieces)))
                case Err(e) => result == Err(e)
    {
      if key !in published {
        return Ok(None);
      }
      var pieces :- ReadAll(sha, data, published[key].pieces);
      return Ok(Some((published[key], pieces)));
    }
  }

  /** The loop that reads a page back. */
  method ReadAll(sha: Bytes -> Digest, data: Bytes, records: seq<PieceRecord>) returns (result: Result<map<Piece, Bytes>, StoreError>)
    ensures result == ReadPieces(sha, data, records, |records|)
  {
    var pieces: map<Piece, Bytes> := map[];
    for i := 0 to |records|
      invariant ReadPieces(sha, data, records, i) == Ok(pieces)
    {
      var p := records[i];
      if p.offset + p.length > |data| {
        ReadFails(sha, data, records, i + 1, |records|);
        return Err(ShortRead);
      }
      var bytes := data[p.offset..p.offset + p.length];
      if sha(bytes) != p.sha {
        ReadFails(sha, data, records, i + 1, |records|);
        return Err(Checksum);
      }
      pieces := pieces[p.piece := bytes];
    }
    return Ok(pieces);
  }

  /** The loop that lays the pieces out. */
  method PlacePieces(sha: Bytes -> Digest, pieces: seq<PieceBytes>, offset: nat) returns (result: Result<Placed, StoreError>)
    ensures result == Place(sha, pieces, |pieces|, offset)
  {
    hide ExpectedBytes;
    var records: seq<PieceRecord> := [];
    var end: nat := offset;
    for i := 0 to |pieces|
      invariant Place(sha, pieces, i, offset) == Ok(Placed(records, end))
    {
      var p := pieces[i];
      if |p.bytes| != ExpectedBytes(p.piece) {
        PlaceFails(sha, pieces, i + 1, |pieces|, offset);
        return Err(WrongPieces);
      }
      var start := AlignUp(end);
      if start.Err? {
        PlaceFails(sha, pieces, i + 1, |pieces|, offset);
        return Err(start.error);
      }
      records := records + [PieceRecord(p.piece, |p.bytes|, start.value, sha(p.bytes))];
      end := start.value + ExpectedBytes(p.piece);
      if end > MAX_U64 {
        PlaceFails(sha, pieces, i + 1, |pieces|, offset);
        return Err(StoreError.Overflow);
      }
    }
    return Ok(Placed(records, end));
  }

  lemma {:induction false} PlaceFails(sha: Bytes -> Digest, pieces: seq<PieceBytes>, i: nat, n: nat, offset: nat)
    requires i <= n <= |pieces| && Place(sha, pieces, i, offset).Err?
    ensures Place(sha, pieces, n, offset) == Place(sha, pieces, i, offset)
  {
    if i < n {
      PlaceFails(sha, pieces, i, n - 1, offset);
    }
  }

  /** The loop that decodes the journal and follows its transaction numbers. */
  method DecodeBytes(crc: Bytes -> Word, bytes: Bytes) returns (result: Result<Decoded, StoreError>)
    ensures result == DecodeJournal(crc, bytes)
  {
    hide Decode;
    var n := |bytes| / 512;
    var events: seq<Event> := [];
    var current: nat := 0;
    for i := 0 to n
      invariant DecodeRecords(crc, bytes, i) == Ok(Decoded(events, current))
    {
      var e := Decode(crc, bytes[512 * i..512 * (i + 1)]);
      if e.Err? {
        DecodeFails(crc, bytes, i + 1, n);
        return Err(e.error);
      }
      if e.value.transaction != current {
        if current + 1 > MAX_U64 {
          DecodeFails(crc, bytes, i + 1, n);
          return Err(StoreError.Overflow);
        }
        if e.value.transaction != current + 1 || !e.value.Begin? {
          DecodeFails(crc, bytes, i + 1, n);
          return Err(JournalSequence);
        }
        current := e.value.transaction;
      }
      events := events + [e.value];
    }
    if current + 1 > MAX_U64 {
      return Err(StoreError.Overflow);
    }
    return Ok(Decoded(events, current));
  }

  lemma {:induction false} DecodeFails(crc: Bytes -> Word, bytes: Bytes, i: nat, n: nat)
    requires i <= n && 512 * n <= |bytes| && DecodeRecords(crc, bytes, i).Err?
    ensures DecodeRecords(crc, bytes, n) == DecodeRecords(crc, bytes, i)
  {
    hide Decode;
    if i < n {
      DecodeFails(crc, bytes, i, n - 1);
    }
  }

  /** Opens the files. */
  method OpenStore(crc: Bytes -> Word, sha: Bytes -> Digest, file: Bytes, data: Bytes)
    returns (result: Result<FileTierStore, StoreError>)
    ensures match Open(crc, file, data)
            case Ok(s) =>
              result.Ok? && result.value.Value() == s && result.value.crc == crc && result.value.sha == sha && result.value.Valid()
            case Err(e) => result == Err(e)
  {
    hide DecodeJournal, Recover, CheckExtents, MaxTransaction, Agrees;
    if Open(crc, file, data).Ok? {
      OpenAgrees(crc, file, data);
    }
    var complete := |file| / 512 * 512;
    if complete == 0 && data != [] {
      return Err(UnjournaledData);
    }
    var d :- DecodeBytes(crc, file);
    var next := LastTransaction(d.events) ;
    if next + 1 > MAX_U64 {
      return Err(TierFault(Error.Overflow));
    }
    var published := RecoverEvents(d.events);
    if published.Err? {
      return Err(TierFault(published.error));
    }
    var extents := CheckExtents(published.value, |data|);
    if extents.Err? {
      return Err(extents.error);
    }
    var offset :- AlignUp(|data|);
    var store := new FileTierStore(crc, sha,
      Store(file[..complete], data, Journal(d.events, next + 1), published.value, d.current + 1, offset, false));
    return Ok(store);
  }

  method LastTransaction(events: seq<Event>) returns (m: nat)
    ensures m == MaxTransaction(events)
  {
    m := 0;
    for i := 0 to |events|
      invariant m == MaxTransaction(events[..i])
    {
      MaxOf(events, i);
      if events[i].transaction > m {
        m := events[i].transaction;
      }
    }
    assert events[..|events|] == events;
  }
}
