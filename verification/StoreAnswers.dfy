/** What the store's answers mean: which journals it reads, and what becomes of a request to publish. */
module StoreAnswers {
  import opened Collections
  import opened Octets
  import opened Tier
  import opened TierCodec
  import opened TierLaw
  import opened JournalFile
  import opened StoreModel

  // ---------------------------------------------------------------- reading the journal

  /** Record `i` of a journal file. */
  function RecordAt(bytes: Bytes, i: nat): Bytes
    requires 512 * (i + 1) <= |bytes|
  {
    bytes[512 * i..512 * (i + 1)]
  }

  /** The 512 bytes carry the checksum of the 508 before it, the magic number and the version, and say what
      the event is; a record they begin is well-formed. */
  ghost predicate Genuine(crc: Bytes -> Word, b: Bytes, e: Event) {
    && |b| == 512 && crc(b[..508] + [0, 0, 0, 0]) == FromLittle(b[508..])
    && b[..8] == [71, 76, 84, 74, 82, 78, 76, 50] && FromLittle(b[8..10]) == 2
    && e.transaction == FromLittle(b[12..20]) && e.transaction != 0
    && b[10] == (match e case Begin(_, _) => 1 case PieceDurable(_, _, _) => 2 case Publish(_) => 3)
    && (e.Begin? ==> WellFormed(e.record))
  }

  lemma DecodedIsGenuine(crc: Bytes -> Word, b: Bytes)
    requires Decode(crc, b).Ok?
    ensures Genuine(crc, b, Decode(crc, b).value)
  {
    hide FromLittle, CheckRecord, WellFormed, DecodePieces, DecodePiece;
    assert Zeros(4) == [0, 0, 0, 0];
    if Decode(crc, b).value.Begin? {
      RecordsExactly(Decode(crc, b).value.record);
    }
  }

  /** The transaction that event `i` follows. */
  function Before(events: seq<Event>, i: nat): nat
    requires i <= |events|
  {
    if i == 0 then 0 else events[i - 1].transaction
  }

  /** Transaction numbers count up from one, and only the beginning of a transaction brings a new one. */
  ghost predicate Counts(events: seq<Event>) {
    forall i | 0 <= i < |events| ::
      events[i].transaction == Before(events, i) || (events[i].transaction == Before(events, i) + 1 && events[i].Begin?)
  }

  lemma {:induction false} RecordsAreGenuine(crc: Bytes -> Word, bytes: Bytes, n: nat)
    requires 512 * n <= |bytes| && DecodeRecords(crc, bytes, n).Ok?
    ensures var d := DecodeRecords(crc, bytes, n).value;
            && |d.events| == n && Counts(d.events)
            && d.current == Before(d.events, n)
            && (forall i | 0 <= i < n :: Genuine(crc, RecordAt(bytes, i), d.events[i]))
  {
    hide Decode, Genuine;
    if n > 0 {
      RecordsAreGenuine(crc, bytes, n - 1);
      DecodedIsGenuine(crc, RecordAt(bytes, n - 1));
      var d := DecodeRecords(crc, bytes, n - 1).value;
      var e := Decode(crc, RecordAt(bytes, n - 1)).value;
      CountsMore(d.events, e);
    }
  }

  lemma CountsMore(events: seq<Event>, e: Event)
    requires Counts(events)
    requires var before := Before(events, |events|); e.transaction == before || (e.transaction == before + 1 && e.Begin?)
    ensures Counts(events + [e])
  {
    var all := events + [e];
    forall i | 0 <= i <= |events| ensures Before(all, i) == Before(events, i) {
    }
    forall i | 0 <= i < |all|
      ensures all[i].transaction == Before(all, i) || (all[i].transaction == Before(all, i) + 1 && all[i].Begin?)
    {
      if i < |events| {
        assert all[i] == events[i];
      }
    }
  }

  /** A journal is read only if every complete record in it is genuine and the transactions are in order: one
      record with a wrong checksum, and nothing is shown. */
  lemma CorruptionIsRefused(crc: Bytes -> Word, bytes: Bytes)
    requires DecodeJournal(crc, bytes).Ok?
    ensures var events := DecodeJournal(crc, bytes).value.events;
            && |events| == |bytes| / 512 && Counts(events)
            && (forall i | 0 <= i < |events| :: Genuine(crc, RecordAt(bytes, i), events[i]))
  {
    hide Genuine, Counts, DecodeRecords;
    RecordsAreGenuine(crc, bytes, |bytes| / 512);
  }

  // ---------------------------------------------------------------- publishing

  /** The pieces by kind: the KV bytes, the indexer bytes, the draft. */
  function Rank(p: Piece): nat {
    match p case TargetKv => 1 case TargetIndexer => 2 case DraftSidecar => 3
  }

  ghost predicate InOrder(s: seq<PieceBytes>) {
    forall i, j | 0 <= i < j < |s| :: Rank(s[i].piece) <= Rank(s[j].piece)
  }

  lemma {:induction false} InsertsInOrder(p: PieceBytes, s: seq<PieceBytes>)
    requires InOrder(s)
    ensures InOrder(InsertPiece(p, s))
  {
    if s != [] && PieceCode(p.piece) > PieceCode(s[0].piece) {
      InsertsInOrder(p, s[1..]);
      var rest := InsertPiece(p, s[1..]);
      InsertPermutes(p, s[1..]);
      forall i | 0 <= i < |rest| ensures Rank(s[0].piece) <= Rank(rest[i].piece) {
        assert rest[i] in multiset(rest);
        assert rest[i] == p || rest[i] in s[1..];
      }
    }
  }

  /** The pieces of a request are laid out in the order of their kinds. */
  lemma {:induction false} SortsInOrder(s: seq<PieceBytes>)
    ensures InOrder(SortPieces(s)) && multiset(SortPieces(s)) == multiset(s)
  {
    SortPermutes(s);
    if s != [] {
      SortsInOrder(s[1..]);
      InsertsInOrder(s[0], SortPieces(s[1..]));
    }
  }

  /** The bytes offered have the digests the record has for their kinds. */
  ghost predicate SameContent(sha: Bytes -> Digest, r: Record, pieces: seq<PieceBytes>) {
    forall p, q | p in r.pieces && q in pieces && p.piece == q.piece :: p.sha == sha(q.bytes)
  }

  /** A request with all the pieces it must have, each of its size, and none twice. */
  ghost predicate Complete(request: Request) {
    && request.namespace != 0 && request.key != 0 && request.generation != 0
    && |request.pieces| == (if request.mtp then 3 else 2)
    && (forall p | p in request.pieces ::
          && (p.piece.DraftSidecar? ==> request.mtp)
          && |p.bytes| == (match p.piece
                           case TargetKv => 64 * 78 * 368
                           case TargetIndexer => 64 * 21 * 132
                           case DraftSidecar => 64 * 500))
  }

  lemma {:induction false} PlacedPieces(sha: Bytes -> Digest, pieces: seq<PieceBytes>, offset: nat, record: Record, request: Request)
    requires Place(sha, pieces, |pieces|, offset).Ok? && record.pieces == Place(sha, pieces, |pieces|, offset).value.records
    requires multiset(pieces) == multiset(request.pieces) && WellFormed(record)
    requires record.namespace == request.namespace && record.key == request.key && record.generation == request.generation && record.mtp == request.mtp
    ensures Complete(request)
    ensures forall r: Record | WellFormed(r) && SamePage(r, record) :: SameContent(sha, r, request.pieces)
  {
    hide SamePage, SameDigest;
    PlacedInOrder(sha, pieces, |pieces|, offset);
    assert |request.pieces| == |multiset(pieces)| == |pieces|;
    forall q | q in request.pieces
      ensures exists p | p in record.pieces :: p.piece == q.piece && p.length == |q.bytes| && p.sha == sha(q.bytes)
    {
      assert q in multiset(request.pieces) && q in multiset(pieces);
      var i :| 0 <= i < |pieces| && pieces[i] == q;
      assert record.pieces[i] in record.pieces;
    }
    forall r: Record | WellFormed(r) && SamePage(r, record) ensures SameContent(sha, r, request.pieces) {
      SameContents(sha, r, record, request.pieces);
    }
  }

  lemma SameContents(sha: Bytes -> Digest, r: Record, record: Record, pieces: seq<PieceBytes>)
    requires WellFormed(r) && WellFormed(record) && SamePage(r, record)
    requires forall q | q in pieces :: exists p | p in record.pieces :: p.piece == q.piece && p.length == |q.bytes| && p.sha == sha(q.bytes)
    ensures SameContent(sha, r, pieces)
  {
    forall p, q | p in r.pieces && q in pieces && p.piece == q.piece ensures p.sha == sha(q.bytes) {
      var o :| o in record.pieces && o.piece == q.piece && o.sha == sha(q.bytes);
      assert p.piece.DraftSidecar? ==> r.mtp && record.mtp;
    }
  }

  /** What a decision means. Only complete requests are decided. A page already there is kept when the bytes
      offered are its own and bring no first draft; it is written when it is new, or when it brings the first
      draft to the very same bytes in a newer generation. */
  lemma DecisionMeans(sha: Bytes -> Digest, published: Catalogue, offset: nat, request: Request)
    requires forall k | k in published :: WellFormed(published[k])
    requires Decide(sha, published, offset, request).Ok?
    ensures Complete(request)
    ensures var d, k := Decide(sha, published, offset, request).value, request.key;
            && (d.Keep? ==>
                  && k in published && d.existing == published[k] && published[k].namespace == request.namespace
                  && (request.mtp ==> published[k].mtp) && SameContent(sha, published[k], request.pieces))
            && (d.Write? && k in published ==>
                  && published[k].namespace == request.namespace && request.mtp && !published[k].mtp
                  && request.generation > published[k].generation && SameContent(sha, published[k], request.pieces))
  {
    hide CheckRecord, SortPieces, Place, Repeats, WellFormed, SameDigest;
    var pieces := SortPieces(request.pieces);
    SortsInOrder(request.pieces);
    var placed := Place(sha, pieces, |pieces|, offset).value;
    var record := Record(request.namespace, request.key, request.generation, Nvme, request.mtp, placed.records);
    RecordsExactly(record);
    PlacedPieces(sha, pieces, offset, record, request);
    if record.key in published {
      RelationsExactly(published[record.key], record);
    }
  }
}
