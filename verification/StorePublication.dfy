/** One publication, step by step and interrupted at any failpoint (store.rs). */
module StorePublication {
  import opened Collections
  import opened Octets
  import opened Tier
  import opened TierCodec
  import opened TierRecovery
  import opened TierLog
  import opened StoreExtents
  import opened StoreModel
  import opened StoreSteps
  import opened StoreRecovery

  // ---------------------------------------------------------------- the steps

  /** The crashes the source injects into a publication. */
  datatype Failpoint = BeginJournaled | DataSynced | FirstPieceJournaled

  /** One more event in the journal and its file. */
  function Appended(crc: Bytes -> Word, s: Store, e: Event): Store {
    s.(file := s.file + (if Encode(crc, e).Ok? then Encode(crc, e).value else []),
       journal := s.journal.(events := s.journal.events + [e]))
  }

  /** The transaction of `r` has begun. */
  function Begun(crc: Bytes -> Word, s: Store, r: Record): Store {
    Appended(crc, s.(journal := s.journal.(next := s.journal.next + 1), nextTransaction := s.nextTransaction + 1),
             Begin(s.nextTransaction, r))
  }

  function WriteAll(data: Bytes, r: Record, pieces: seq<PieceBytes>, n: nat): Bytes
    requires n <= |pieces| && n <= |r.pieces|
  {
    if n == 0 then data else WriteAt(WriteAll(data, r, pieces, n - 1), r.pieces[n - 1].offset, pieces[n - 1].bytes)
  }

  /** The first `k` pieces are marked durable. */
  function MarkedUpTo(crc: Bytes -> Word, s: Store, id: nat, r: Record, k: nat): Store
    requires k <= |r.pieces|
  {
    if k == 0 then s
    else Appended(crc, MarkedUpTo(crc, s, id, r, k - 1), PieceDurable(id, r.pieces[k - 1].piece, r.pieces[k - 1].sha))
  }

  function Finished(crc: Bytes -> Word, s: Store, id: nat, r: Record, next: nat): Store {
    Appended(crc, s, Publish(id)).(published := s.published[r.key := r], nextOffset := next)
  }

  /** Writing a decided record: begin, data, marks, publish. An interruption poisons the store. */
  function Wrote(crc: Bytes -> Word, s: Store, r: Record, pieces: seq<PieceBytes>, next: nat, failpoint: Option<Failpoint>): Store
    requires 0 < |pieces| == |r.pieces|
  {
    if s.nextTransaction >= MAX_U64 then s.(poisoned := true)
    else
      var id := s.nextTransaction;
      var begun := Begun(crc, s, r);
      var written := begun.(data := WriteAll(s.data, r, pieces, |pieces|));
      match failpoint
      case Some(BeginJournaled) => begun.(poisoned := true)
      case Some(DataSynced) => written.(poisoned := true)
      case Some(FirstPieceJournaled) => MarkedUpTo(crc, written, id, r, 1).(poisoned := true)
      case None => Finished(crc, MarkedUpTo(crc, written, id, r, |r.pieces|), id, r, next)
  }

  /** A decided record has as many pieces as were given, and some. */
  lemma DecidedShape(sha: Bytes -> Digest, published: Catalogue, offset: nat, request: Request)
    requires Decide(sha, published, offset, request).Ok? && Decide(sha, published, offset, request).value.Write?
    ensures var d := Decide(sha, published, offset, request).value; 0 < |d.pieces| == |d.record.pieces|
  {
    hide Place, CheckRecord, Relate, SortPieces, Repeats;
    PlacedInOrder(sha, SortPieces(request.pieces), |SortPieces(request.pieces)|, offset);
  }

  /** The store after a call of publish. */
  function AfterPublish(crc: Bytes -> Word, sha: Bytes -> Digest, s: Store, request: Request, failpoint: Option<Failpoint>): Store {
    if s.poisoned then s
    else
      var decision := Decide(sha, s.published, s.nextOffset, request);
      if decision.Err? || decision.value.Keep? then s
      else
        DecidedShape(sha, s.published, s.nextOffset, request);
        Wrote(crc, s, decision.value.record, decision.value.pieces, decision.value.next, failpoint)
  }

  // ---------------------------------------------------------------- the data file

  /** A record written beyond the end of the data joins the stored ones. */
  lemma JoinsStored(sha: Bytes -> Digest, records: seq<Record>, data: Bytes, r: Record, from: nat)
    requires Stored(sha, records, data) && CheckRecord(r).Ok? && Holds(sha, r, data)
    requires forall p | p in r.pieces :: from <= p.offset
    requires forall i, q | 0 <= i < |records| && q in records[i].pieces :: q.offset + q.length <= from
    ensures Stored(sha, records + [r], data)
  {
    hide CheckRecord, Holds;
    var all := records + [r];
    forall i, j | 0 <= i < j < |all| ensures RecordsApart(all[i], all[j]) {
      if j < |records| {
        assert RecordsApart(records[i], records[j]);
      } else {
        assert all[i] == records[i] && all[j] == r;
      }
    }
  }

  /** The first `n` pieces are in the data file where the record says. */
  ghost predicate WrittenUpTo(data: Bytes, record: Record, pieces: seq<PieceBytes>, n: nat) {
    && n <= |pieces| == |record.pieces|
    && (forall i | 0 <= i < n ::
          && record.pieces[i].offset + |pieces[i].bytes| <= |data|
          && data[record.pieces[i].offset..record.pieces[i].offset + |pieces[i].bytes|] == pieces[i].bytes)
  }

  lemma WritesNext(sha: Bytes -> Digest, data: Bytes, record: Record, pieces: seq<PieceBytes>, n: nat, from: nat)
    requires Describes(sha, record, pieces, from) && WrittenUpTo(data, record, pieces, n) && n < |pieces|
    requires |data| <= (if n == 0 then from else record.pieces[n - 1].offset + record.pieces[n - 1].length)
    ensures var after := WriteAt(data, record.pieces[n].offset, pieces[n].bytes);
            && WrittenUpTo(after, record, pieces, n + 1)
            && data <= after
            && |after| == record.pieces[n].offset + record.pieces[n].length
  {
    var p := record.pieces[n];
    assert |data| <= p.offset;
    var after := WriteAt(data, p.offset, pieces[n].bytes);
    assert after[p.offset..p.offset + |pieces[n].bytes|] == pieces[n].bytes;
    forall i | 0 <= i < n
      ensures after[record.pieces[i].offset..record.pieces[i].offset + |pieces[i].bytes|] == pieces[i].bytes
    {
      assert after[record.pieces[i].offset..record.pieces[i].offset + |pieces[i].bytes|]
          == data[record.pieces[i].offset..record.pieces[i].offset + |pieces[i].bytes|];
    }
  }

  /** The pieces are in the data file where the record says, and nothing before is touched. */
  lemma {:induction false} WritesAll(sha: Bytes -> Digest, data: Bytes, record: Record, pieces: seq<PieceBytes>, n: nat, from: nat)
    requires Describes(sha, record, pieces, from) && |data| <= from && n <= |pieces|
    ensures var after := WriteAll(data, record, pieces, n);
            && WrittenUpTo(after, record, pieces, n) && data <= after
            && |after| == if n == 0 then |data| else record.pieces[n - 1].offset + record.pieces[n - 1].length
  {
    hide WriteAt;
    if n > 0 {
      WritesAll(sha, data, record, pieces, n - 1, from);
      WritesNext(sha, WriteAll(data, record, pieces, n - 1), record, pieces, n - 1, from);
    }
  }

  lemma AllWritten(sha: Bytes -> Digest, data: Bytes, record: Record, pieces: seq<PieceBytes>, from: nat)
    requires Describes(sha, record, pieces, from) && WrittenUpTo(data, record, pieces, |pieces|)
    ensures Holds(sha, record, data)
  {
    forall p | p in record.pieces
      ensures p.offset + p.length <= |data| && sha(data[p.offset..p.offset + p.length]) == p.sha
    {
      var i :| 0 <= i < |record.pieces| && record.pieces[i] == p;
      assert data[p.offset..p.offset + |pieces[i].bytes|] == pieces[i].bytes;
    }
  }

  /** The numbers of a planned record fit their words. */
  lemma BeginFits(sha: Bytes -> Digest, record: Record, pieces: seq<PieceBytes>, from: nat, request: Request, id: nat)
    requires Describes(sha, record, pieces, from) && CheckRecord(record).Ok? && 0 < id <= MAX_U64
    requires record.key == request.key && record.namespace == request.namespace && record.generation == request.generation
    ensures Fits(Begin(id, record)) && Fits(Publish(id))
    ensures forall i | 0 <= i < |record.pieces| :: Fits(PieceDurable(id, record.pieces[i].piece, record.pieces[i].sha))
  {
    hide CheckRecord, Power;
    WordsFit();
    DigestFits();
    forall p | p in record.pieces ensures PieceNumbersFit(p) {
      var i :| 0 <= i < |record.pieces| && record.pieces[i] == p;
    }
  }

  lemma DigestFits()
    ensures Power(32) == 0x1_0000_0000_0000_0000_0000_0000_0000_0000_0000_0000_0000_0000_0000_0000_0000_0000
  {
    WordsFit();
    PowerAdds(8, 8);
    PowerAdds(16, 16);
  }

  lemma {:induction false} PowerAdds(a: nat, b: nat)
    ensures Power(a + b) == Power(a) * Power(b)
  {
    if a > 0 {
      PowerAdds(a - 1, b);
      assert Power(a + b) == 256 * Power(a - 1 + b);
      assert 256 * (Power(a - 1) * Power(b)) == (256 * Power(a - 1)) * Power(b);
    }
  }

  // ---------------------------------------------------------------- inside a publication

  /** The store inside a publication of `r` with `k` pieces marked durable. */
  ghost predicate Midway(crc: Bytes -> Word, s: Store, r: Record, k: nat) {
    && FileHolds(crc, s.file, s.journal.events)
    && Inside(s.journal.events, r, k, s.published)
    && s.nextTransaction == s.journal.next == Current(s.journal.events) + 1 <= MAX_U64
    && CheckExtents(s.published, |s.data|) == Ok(())
  }

  lemma Starts(crc: Bytes -> Word, s: Store, r: Record)
    requires Agrees(crc, s) && CheckRecord(r).Ok? && s.nextTransaction + 1 <= MAX_U64
    requires Fits(Begin(s.nextTransaction, r))
    ensures Encode(crc, Begin(s.nextTransaction, r)).Ok?
    ensures BeginRecord(s.journal, r) == Ok(Begun(crc, s, r).journal)
    ensures Midway(crc, Begun(crc, s, r), r, 0) && Current(Begun(crc, s, r).journal.events) == s.nextTransaction
    ensures PublishedRecords(Begun(crc, s, r).journal.events) == PublishedRecords(s.journal.events)
  {
    hide FileHolds, Replay, Visible, Sequential, PublishedRecords, Fits, CheckRecord, Seal, Lay, CheckExtents;
    BeginStep(s.journal.events, r, s.published);
    AppendHolds(crc, s.file, s.journal.events, Begin(s.nextTransaction, r));
  }

  lemma MarksNext(crc: Bytes -> Word, s: Store, r: Record, k: nat)
    requires Midway(crc, s, r, k) && k < |r.pieces|
    requires Fits(PieceDurable(Current(s.journal.events), r.pieces[k].piece, r.pieces[k].sha))
    ensures var e := PieceDurable(Current(s.journal.events), r.pieces[k].piece, r.pieces[k].sha);
            && Encode(crc, e).Ok?
            && MarkDurable(s.journal, e.transaction, e.piece, e.sha) == Ok(Appended(crc, s, e).journal)
            && Midway(crc, Appended(crc, s, e), r, k + 1)
            && PublishedRecords(Appended(crc, s, e).journal.events) == PublishedRecords(s.journal.events)
  {
    hide FileHolds, Replay, Visible, Sequential, PublishedRecords, Fits, CheckRecord, Seal, Lay, MarkDurable, Marks, CheckExtents;
    DurableStep(s.journal.events, r, k, s.published, s.journal.next);
    AppendHolds(crc, s.file, s.journal.events, PieceDurable(Current(s.journal.events), r.pieces[k].piece, r.pieces[k].sha));
  }

  /** The events of one whole publication. */
  function Publication(id: nat, r: Record): seq<Event> {
    [Begin(id, r)] + Marked(id, r.pieces, |r.pieces|) + [Publish(id)]
  }

  function Marked(id: nat, pieces: seq<PieceRecord>, k: nat): seq<Event>
    requires k <= |pieces|
  {
    if k == 0 then [] else Marked(id, pieces, k - 1) + [PieceDurable(id, pieces[k - 1].piece, pieces[k - 1].sha)]
  }

  predicate MarksFit(id: nat, r: Record) {
    forall i | 0 <= i < |r.pieces| :: Fits(PieceDurable(id, r.pieces[i].piece, r.pieces[i].sha))
  }

  lemma {:induction false} MarksAll(crc: Bytes -> Word, s: Store, id: nat, r: Record, k: nat)
    requires Midway(crc, s, r, 0) && id == Current(s.journal.events) && MarksFit(id, r) && k <= |r.pieces|
    ensures var t := MarkedUpTo(crc, s, id, r, k);
            && Midway(crc, t, r, k) && Current(t.journal.events) == id
            && t.journal.events == s.journal.events + Marked(id, r.pieces, k)
            && PublishedRecords(t.journal.events) == PublishedRecords(s.journal.events)
            && t == s.(file := t.file, journal := t.journal)
  {
    hide Midway, Fits, PublishedRecords, Encode;
    if k > 0 {
      MarksAll(crc, s, id, r, k - 1);
      MarksNext(crc, MarkedUpTo(crc, s, id, r, k - 1), r, k - 1);
    }
  }

  lemma DataGrows(crc: Bytes -> Word, s: Store, r: Record, k: nat, data: Bytes)
    requires Midway(crc, s, r, k) && s.data <= data
    ensures Midway(crc, s.(data := data), r, k)
  {
    hide FileHolds, Inside, CheckExtents;
    LongerExtents(s.published, |s.data|, |data|);
  }

  /** An interrupted publication leaves a poisoned store that agrees with its files. */
  lemma InterruptedAgrees(crc: Bytes -> Word, s: Store, r: Record, k: nat)
    requires Midway(crc, s, r, k)
    ensures Agrees(crc, s.(poisoned := true))
  {
    hide FileHolds, Visible, CheckRecord, Marks, CheckExtents;
    assert s.journal.events != [] by {
      ReplayedTransactions(s.journal.events);
    }
  }

  /** A record beyond `from` joins a catalogue that ends there. */
  lemma ExtentsJoin(c: Catalogue, r: Record, from: nat, size: nat)
    requires CheckExtents(c, size) == Ok(()) && InBounds(c, from) && CheckRecord(r).Ok?
    requires forall p | p in r.pieces :: from <= p.offset && p.offset + p.length <= size
    ensures CheckExtents(c[r.key := r], size) == Ok(())
  {
    hide CheckExtents, CheckRecord;
    CheckedPieces(r);
    AcceptedExactly(c, size);
    AcceptedExactly(c[r.key := r], size);
    ApartJoin(c, r, from);
  }

  lemma ApartJoin(c: Catalogue, r: Record, from: nat)
    requires PiecesApart(c) && InBounds(c, from)
    requires forall p | p in r.pieces :: from <= p.offset
    requires forall i, j | 0 <= i < j < |r.pieces| :: !Overlap(r.pieces[i], r.pieces[j])
    ensures PiecesApart(c[r.key := r])
  {
  }

  /** Publishing with the data in place completes the invariant. */
  lemma Finishes(crc: Bytes -> Word, s: Store, r: Record, from: nat, next: nat)
    requires Midway(crc, s, r, |r.pieces|) && Merge(s.published, r) == Ok(s.published[r.key := r])
    requires Fits(Publish(Current(s.journal.events))) && InBounds(s.published, from) && |s.data| <= next
    requires forall p | p in r.pieces :: from <= p.offset && p.offset + p.length <= |s.data|
    ensures var id := Current(s.journal.events);
            && Encode(crc, Publish(id)).Ok?
            && PublishRecord(s.journal, id) == Ok(Finished(crc, s, id, r, next).journal)
            && Agrees(crc, Finished(crc, s, id, r, next))
            && PublishedRecords(Finished(crc, s, id, r, next).journal.events) == PublishedRecords(s.journal.events) + [r]
  {
    hide FileHolds, Replay, Visible, Sequential, PublishedRecords, Fits, CheckRecord, Seal, Lay, PublishRecord;
    hide Marks, Merge, CheckExtents, InBounds;
    PublishStep(s.journal.events, r, s.published, s.journal.next);
    AppendHolds(crc, s.file, s.journal.events, Publish(Current(s.journal.events)));
    ExtentsJoin(s.published, r, from, |s.data|);
  }

  /** What is already published ends before the offset the next record starts from. */
  lemma StoredBelow(sha: Bytes -> Digest, records: seq<Record>, data: Bytes, from: nat)
    requires Stored(sha, records, data) && |data| <= from
    ensures forall i, q | 0 <= i < |records| && q in records[i].pieces :: q.offset + q.length <= from
  {
    hide CheckRecord, RecordsApart;
    forall i, q | 0 <= i < |records| && q in records[i].pieces ensures q.offset + q.length <= from {
      assert Holds(sha, records[i], data);
    }
  }

  // ---------------------------------------------------------------- whole publications

  /** What is known of a record decided on in a store that agrees with its files. */
  ghost predicate Planned(sha: Bytes -> Digest, s: Store, r: Record, pieces: seq<PieceBytes>, next: nat) {
    && !s.poisoned && CheckRecord(r).Ok? && Describes(sha, r, pieces, s.nextOffset) && 0 < |pieces| == |r.pieces|
    && Merge(s.published, r) == Ok(s.published[r.key := r])
    && (forall p | p in r.pieces :: s.nextOffset <= p.offset && p.offset + p.length <= next)
    && (0 < s.nextTransaction <= MAX_U64 ==>
          Fits(Begin(s.nextTransaction, r)) && Fits(Publish(s.nextTransaction)) && MarksFit(s.nextTransaction, r))
  }

  lemma DecidedIsPlanned(sha: Bytes -> Digest, s: Store, request: Request)
    requires !s.poisoned && Decide(sha, s.published, s.nextOffset, request).Ok?
    requires Decide(sha, s.published, s.nextOffset, request).value.Write?
    ensures var d := Decide(sha, s.published, s.nextOffset, request).value; Planned(sha, s, d.record, d.pieces, d.next)
  {
    hide Decide, CheckRecord, Merge, Fits;
    var d := Decide(sha, s.published, s.nextOffset, request).value;
    WrittenRecord(sha, s.published, s.nextOffset, request);
    DecidedShape(sha, s.published, s.nextOffset, request);
    forall p | p in d.record.pieces ensures s.nextOffset <= p.offset {
      var i :| 0 <= i < |d.record.pieces| && d.record.pieces[i] == p;
    }
    if 0 < s.nextTransaction <= MAX_U64 {
      BeginFits(sha, d.record, d.pieces, s.nextOffset, request, s.nextTransaction);
    }
  }

  /** The data of a planned record, once written. */
  lemma PlannedData(sha: Bytes -> Digest, s: Store, r: Record, pieces: seq<PieceBytes>, next: nat)
    requires Planned(sha, s, r, pieces, next) && |s.data| <= s.nextOffset
    ensures var data := WriteAll(s.data, r, pieces, |pieces|);
            && s.data <= data && |data| <= next && WrittenUpTo(data, r, pieces, |pieces|) && Holds(sha, r, data)
            && (forall p | p in r.pieces :: p.offset + p.length <= |data|)
  {
    hide Merge, CheckRecord, Fits, MarksFit, Describes, WriteAll, WrittenUpTo;
    WritesAll(sha, s.data, r, pieces, |pieces|, s.nextOffset);
    AllWritten(sha, WriteAll(s.data, r, pieces, |pieces|), r, pieces, s.nextOffset);
    assert r.pieces[|pieces| - 1] in r.pieces;
  }

  lemma BoundsBelow(c: Catalogue, size: nat, from: nat)
    requires CheckExtents(c, size) == Ok(()) && size <= from
    ensures InBounds(c, from)
  {
    hide CheckExtents;
    AcceptedExactly(c, size);
  }

  /** Writing a planned record, whole or interrupted at any failpoint, keeps the files, the journal and
      the catalogue in agreement. Only a whole publication shows, and it shows exactly this record. */
  lemma WroteAgrees(crc: Bytes -> Word, sha: Bytes -> Digest, s: Store, r: Record, pieces: seq<PieceBytes>, next: nat, failpoint: Option<Failpoint>)
    requires Agrees(crc, s) && Planned(sha, s, r, pieces, next)
    ensures var w := Wrote(crc, s, r, pieces, next, failpoint);
            && Agrees(crc, w) && s.data <= w.data && s.journal.events <= w.journal.events
            && (if s.nextTransaction < MAX_U64 && failpoint.None? then
                  && w.published == s.published[r.key := r] && !w.poisoned && WrittenUpTo(w.data, r, pieces, |pieces|)
                  && w.journal.events == s.journal.events + Publication(s.nextTransaction, r)
                  && PublishedRecords(w.journal.events) == PublishedRecords(s.journal.events) + [r] && Holds(sha, r, w.data)
                else
                  && w.published == s.published && w.poisoned
                  && PublishedRecords(w.journal.events) == PublishedRecords(s.journal.events))
  {
    hide Midway, FileHolds, Steady, Inside, PublishedRecords, Fits, MarksFit, Merge, CheckRecord, Encode, CheckExtents, InBounds;
    hide Describes, WrittenUpTo, Holds, WriteAll, Current, Appended;
    PlannedData(sha, s, r, pieces, next);
    if s.nextTransaction < MAX_U64 {
      var id, begun := s.nextTransaction, Begun(crc, s, r);
      var written := begun.(data := WriteAll(s.data, r, pieces, |pieces|));
      Starts(crc, s, r);
      BegunFrame(crc, s, r);
      DataGrows(crc, begun, r, 0, written.data);
      BoundsBelow(s.published, |s.data|, s.nextOffset);
      match failpoint
      case Some(BeginJournaled) => InterruptedAgrees(crc, begun, r, 0);
      case Some(DataSynced) => InterruptedAgrees(crc, written, r, 0);
      case Some(FirstPieceJournaled) =>
        MarksAll(crc, written, id, r, 1);
        InterruptedAgrees(crc, MarkedUpTo(crc, written, id, r, 1), r, 1);
      case None =>
        MarksAll(crc, written, id, r, |r.pieces|);
        var marked := MarkedUpTo(crc, written, id, r, |r.pieces|);
        Finishes(crc, marked, r, s.nextOffset, next);
        FinishedFrame(crc, marked, id, r, next);
    }
  }

  lemma BegunFrame(crc: Bytes -> Word, s: Store, r: Record)
    ensures var b := Begun(crc, s, r);
            && b.published == s.published && b.data == s.data && b.nextOffset == s.nextOffset && b.poisoned == s.poisoned
            && b.journal.events == s.journal.events + [Begin(s.nextTransaction, r)]
  {
  }

  lemma FinishedFrame(crc: Bytes -> Word, s: Store, id: nat, r: Record, next: nat)
    ensures var f := Finished(crc, s, id, r, next);
            && f.published == s.published[r.key := r] && f.data == s.data && f.nextOffset == next && f.poisoned == s.poisoned
            && f.journal.events == s.journal.events + [Publish(id)]
  {
  }

  /** Every call of publish keeps the agreement, and never touches data or events already there. */
  lemma PublishAgrees(crc: Bytes -> Word, sha: Bytes -> Digest, s: Store, request: Request, failpoint: Option<Failpoint>)
    requires Agrees(crc, s)
    ensures var t := AfterPublish(crc, sha, s, request, failpoint);
            Agrees(crc, t) && s.data <= t.data && s.journal.events <= t.journal.events
  {
    hide Agrees, Decide, Wrote, Planned;
    var d := Decide(sha, s.published, s.nextOffset, request);
    if !s.poisoned && d.Ok? && d.value.Write? {
      DecidedIsPlanned(sha, s, request);
      DecidedShape(sha, s.published, s.nextOffset, request);
      WroteAgrees(crc, sha, s, d.value.record, d.value.pieces, d.value.next, failpoint);
    }
  }

  /** Every call of publish keeps what is published whole. */
  lemma PublishConsistent(crc: Bytes -> Word, sha: Bytes -> Digest, s: Store, request: Request, failpoint: Option<Failpoint>)
    requires Consistent(crc, sha, s)
    ensures Consistent(crc, sha, AfterPublish(crc, sha, s, request, failpoint))
  {
    hide Decide, Wrote, Stored, PublishedRecords, FileHolds, Steady, CheckExtents, CheckRecord, Describes, Merge, Fits, MarksFit, Holds;
    var d := Decide(sha, s.published, s.nextOffset, request);
    if !s.poisoned && d.Ok? && d.value.Write? {
      DecidedIsPlanned(sha, s, request);
      DecidedShape(sha, s.published, s.nextOffset, request);
      var w := AfterPublish(crc, sha, s, request, failpoint);
      var held := PublishedRecords(s.journal.events);
      WroteAgrees(crc, sha, s, d.value.record, d.value.pieces, d.value.next, failpoint);
      KeepsStored(sha, held, s.data, w.data);
      if PublishedRecords(w.journal.events) != held {
        StoredBelow(sha, held, s.data, s.nextOffset);
        JoinsStored(sha, held, w.data, d.value.record, s.nextOffset);
      }
    }
  }
}
