/** Whole runs of the store: publications, interruptions, crashes and reopenings (store.rs). */
module StoreRuns {
  import opened Collections
  import opened Octets
  import opened Tier
  import opened TierCodec
  import opened TierRecovery
  import opened JournalFile
  import opened StoreModel
  import opened StoreSteps
  import opened StoreRecovery
  import opened StorePublication
  import opened StoreReading

  /** A call of publish, which an injected crash may interrupt, or a crash of the machine: the journal is
      cut at any byte, the data file has any bytes after those synced, and the files are opened again. */
  datatype Operation =
    | Publishes(request: Request, failpoint: Option<Failpoint>)
    | Crashes(cut: nat, tail: Bytes)

  function Kept(file: Bytes, cut: nat): Bytes {
    file[..if cut < |file| then cut else |file|]
  }

  function Step(crc: Bytes -> Word, sha: Bytes -> Digest, s: Store, op: Operation): Result<Store, StoreError> {
    match op
    case Publishes(request, failpoint) => Ok(AfterPublish(crc, sha, s, request, failpoint))
    case Crashes(cut, tail) => Open(crc, Kept(s.file, cut), s.data + tail)
  }

  function Run(crc: Bytes -> Word, sha: Bytes -> Digest, s: Store, ops: seq<Operation>): Result<Store, StoreError> {
    if ops == [] then Ok(s)
    else
      var t :- Run(crc, sha, s, ops[..|ops| - 1]);
      Step(crc, sha, t, ops[|ops| - 1])
  }

  lemma StepAgrees(crc: Bytes -> Word, sha: Bytes -> Digest, s: Store, op: Operation)
    requires Agrees(crc, s) && Step(crc, sha, s, op).Ok?
    ensures Agrees(crc, Step(crc, sha, s, op).value) && s.data <= Step(crc, sha, s, op).value.data
  {
    hide Agrees, AfterPublish, Open;
    match op {
      case Publishes(request, failpoint) =>
        PublishAgrees(crc, sha, s, request, failpoint);
      case Crashes(cut, tail) =>
        OpenAgrees(crc, Kept(s.file, cut), s.data + tail);
    }
  }

  lemma {:induction false} RunAgrees(crc: Bytes -> Word, sha: Bytes -> Digest, s: Store, ops: seq<Operation>)
    requires Agrees(crc, s) && Run(crc, sha, s, ops).Ok?
    ensures Agrees(crc, Run(crc, sha, s, ops).value) && s.data <= Run(crc, sha, s, ops).value.data
  {
    hide Agrees, Step;
    if ops != [] {
      RunAgrees(crc, sha, s, ops[..|ops| - 1]);
      StepAgrees(crc, sha, Run(crc, sha, s, ops[..|ops| - 1]).value, ops[|ops| - 1]);
    }
  }

  /** Whatever files were opened and whatever happened since, the in-memory catalogue is the replay of the
      journal file, and reopening without loss shows it again. */
  lemma MapIsReplayForever(crc: Bytes -> Word, sha: Bytes -> Digest, file: Bytes, data: Bytes, ops: seq<Operation>)
    requires Open(crc, file, data).Ok? && Run(crc, sha, Open(crc, file, data).value, ops).Ok?
    ensures var t := Run(crc, sha, Open(crc, file, data).value, ops).value;
            && Catalogued(crc, t.file) == Ok(t.published)
            && (|t.data| + 4095 <= MAX_U64 ==> Open(crc, t.file, t.data).Ok? && Open(crc, t.file, t.data).value.published == t.published)
  {
    hide Agrees, Run, Open, Catalogued;
    OpenAgrees(crc, file, data);
    RunAgrees(crc, sha, Open(crc, file, data).value, ops);
    var t := Run(crc, sha, Open(crc, file, data).value, ops).value;
    MemoryIsReplay(crc, t);
    if |t.data| + 4095 <= MAX_U64 {
      WholeReopens(crc, t, []);
      assert t.data + [] == t.data;
    }
  }

  // ---------------------------------------------------------------- stores that start empty

  lemma StepConsistent(crc: Bytes -> Word, sha: Bytes -> Digest, s: Store, op: Operation)
    requires Consistent(crc, sha, s)
    ensures var r := Step(crc, sha, s, op);
            if r.Ok? then Consistent(crc, sha, r.value) else r.error == UnjournaledData || r.error == StoreError.Overflow
  {
    hide Consistent, AfterPublish, Open;
    match op {
      case Publishes(request, failpoint) =>
        PublishConsistent(crc, sha, s, request, failpoint);
      case Crashes(cut, tail) =>
        CrashReopens(crc, sha, s, if cut < |s.file| then cut else |s.file|, tail);
    }
  }

  /** A store that starts with empty files keeps every record it ever published whole, through any
      interruptions and crashes. A crash costs it at most a data file without a complete journal
      record, or one at the end of the address range. */
  lemma {:induction false} EmptyRunsAreConsistent(crc: Bytes -> Word, sha: Bytes -> Digest, ops: seq<Operation>)
    ensures Open(crc, [], []).Ok?
    ensures var r := Run(crc, sha, Open(crc, [], []).value, ops);
            if r.Ok? then Consistent(crc, sha, r.value) else r.error == UnjournaledData || r.error == StoreError.Overflow
  {
    hide Consistent, Step, Open;
    EmptyIsConsistent(crc, sha);
    if ops != [] {
      EmptyRunsAreConsistent(crc, sha, ops[..|ops| - 1]);
      var before := Run(crc, sha, Open(crc, [], []).value, ops[..|ops| - 1]);
      if before.Ok? {
        StepConsistent(crc, sha, before.value, ops[|ops| - 1]);
      }
    }
  }

  // ---------------------------------------------------------------- pages read back

  /** A published page reads back as exactly the bytes of its request, after any further publications,
      interruptions, crashes and reopenings; while its events are there, its key stays catalogued with
      the same target digests and no draft is lost. */
  lemma PublishedReadsForever(crc: Bytes -> Word, sha: Bytes -> Digest, s: Store, request: Request, ops: seq<Operation>)
    requires Agrees(crc, s) && !s.poisoned && s.nextTransaction < MAX_U64
    requires Decide(sha, s.published, s.nextOffset, request).Ok? && Decide(sha, s.published, s.nextOffset, request).value.Write?
    requires Run(crc, sha, AfterPublish(crc, sha, s, request, None), ops).Ok?
    ensures var r, t := Decide(sha, s.published, s.nextOffset, request).value.record, AfterPublish(crc, sha, s, request, None);
            var u := Run(crc, sha, t, ops).value;
            var read := ReadPieces(sha, u.data, r.pieces, |r.pieces|);
            && read.Ok? && (forall p | p in request.pieces :: p.piece in read.value && read.value[p.piece] == p.bytes)
            && t.published == s.published[r.key := r]
            && (t.journal.events <= u.journal.events ==> Grows(t.published, u.published))
  {
    hide Agrees, Decide, Wrote, Run, ReadPieces, Grows, Describes, CheckRecord, Merge, Fits, MarksFit, WrittenUpTo, PublishedRecords, Holds, SortPieces;
    var d := Decide(sha, s.published, s.nextOffset, request).value;
    var t := AfterPublish(crc, sha, s, request, None);
    DecidedIsPlanned(sha, s, request);
    DecidedShape(sha, s.published, s.nextOffset, request);
    WrittenRecord(sha, s.published, s.nextOffset, request);
    WroteAgrees(crc, sha, s, d.record, d.pieces, d.next, None);
    RunAgrees(crc, sha, t, ops);
    var u := Run(crc, sha, t, ops).value;
    StaysWritten(t.data, u.data, d.record, d.pieces);
    ReadsWhatWasPublished(sha, u.data, d.record, d.pieces, s.nextOffset);
    SortPermutes(request.pieces);
    forall p | p in request.pieces ensures p in d.pieces {
      assert p in multiset(request.pieces);
    }
    if t.journal.events <= u.journal.events {
      LaterGrows(crc, t, u);
    }
  }

  lemma StaysWritten(data: Bytes, longer: Bytes, record: Record, pieces: seq<PieceBytes>)
    requires WrittenUpTo(data, record, pieces, |pieces|) && data <= longer
    ensures WrittenUpTo(longer, record, pieces, |pieces|)
  {
    forall i | 0 <= i < |pieces|
      ensures longer[record.pieces[i].offset..record.pieces[i].offset + |pieces[i].bytes|] == pieces[i].bytes
    {
      assert longer[record.pieces[i].offset..record.pieces[i].offset + |pieces[i].bytes|]
          == data[record.pieces[i].offset..record.pieces[i].offset + |pieces[i].bytes|];
    }
  }

  lemma LaterGrows(crc: Bytes -> Word, t: Store, u: Store)
    requires Agrees(crc, t) && Agrees(crc, u) && t.journal.events <= u.journal.events
    ensures Grows(t.published, u.published)
  {
    hide Visible, Replay, Sequential, FileHolds, Grows;
    VisibleGrows(u.journal.events, |t.journal.events|);
    assert u.journal.events[..|t.journal.events|] == t.journal.events;
  }
}
