/** What publishing a page adds to the journal and the data file (store.rs). */
module StoreModel {
  import opened Collections
  import opened Octets
  import opened Tier
  import opened TierCodec
  import opened TierRecovery
  import opened StoreExtents

  type Digest = x: nat | x < 0x1_0000_0000_0000_0000_0000_0000_0000_0000_0000_0000_0000_0000_0000_0000_0000_0000

  datatype PieceBytes = PieceBytes(piece: Piece, bytes: Bytes)

  type U64 = x: nat | x <= 0xFFFF_FFFF_FFFF_FFFF

  datatype Request = Request(namespace: Digest, key: Digest, generation: U64, mtp: bool, pieces: seq<PieceBytes>)

  function AlignUp(value: nat): Result<nat, StoreError> {
    if value + 4095 > MAX_U64 then Err(StoreError.Overflow) else Ok((value + 4095) / 4096 * 4096)
  }

  /** Writing at `offset`; a gap beyond the end reads as zeros. */
  function WriteAt(data: Bytes, offset: nat, bytes: Bytes): Bytes {
    if offset >= |data| then data + Zeros(offset - |data|) + bytes
    else if offset + |bytes| >= |data| then data[..offset] + bytes
    else data[..offset] + bytes + data[offset + |bytes|..]
  }

  // ---------------------------------------------------------------- planning a record

  function InsertPiece(p: PieceBytes, s: seq<PieceBytes>): seq<PieceBytes> {
    if s == [] then [p]
    else if PieceCode(p.piece) <= PieceCode(s[0].piece) then [p] + s
    else [s[0]] + InsertPiece(p, s[1..])
  }

  /** The pieces in the order of their kinds; pieces of one kind keep their order. */
  function SortPieces(s: seq<PieceBytes>): seq<PieceBytes> {
    if s == [] then [] else InsertPiece(s[0], SortPieces(s[1..]))
  }

  lemma {:induction false} InsertPermutes(p: PieceBytes, s: seq<PieceBytes>)
    ensures multiset(InsertPiece(p, s)) == multiset(s) + multiset{p}
  {
    if s != [] && PieceCode(p.piece) > PieceCode(s[0].piece) {
      InsertPermutes(p, s[1..]);
      assert s == [s[0]] + s[1..];
    }
  }

  /** Sorting keeps the pieces. */
  lemma {:induction false} SortPermutes(s: seq<PieceBytes>)
    ensures multiset(SortPieces(s)) == multiset(s)
  {
    if s != [] {
      SortPermutes(s[1..]);
      InsertPermutes(s[0], SortPieces(s[1..]));
      assert s == [s[0]] + s[1..];
    }
  }

  predicate Repeats(s: seq<PieceBytes>) {
    exists i | 0 <= i < |s| - 1 :: s[i].piece == s[i + 1].piece
  }

  datatype Placed = Placed(records: seq<PieceRecord>, end: nat)

  /** Places the first `n` pieces one after the other from `offset`, each aligned. */
  function Place(sha: Bytes -> Digest, pieces: seq<PieceBytes>, n: nat, offset: nat): Result<Placed, StoreError>
    requires n <= |pieces|
  {
    if n == 0 then Ok(Placed([], offset))
    else
      var front :- Place(sha, pieces, n - 1, offset);
      var p := pieces[n - 1];
      if |p.bytes| != ExpectedBytes(p.piece) then Err(WrongPieces)
      else
        var start :- AlignUp(front.end);
        if start + ExpectedBytes(p.piece) > MAX_U64 then Err(StoreError.Overflow)
        else
          Ok(Placed(front.records + [PieceRecord(p.piece, |p.bytes|, start, sha(p.bytes))],
                    start + ExpectedBytes(p.piece)))
  }

  datatype Decision = Keep(existing: Record) | Write(record: Record, pieces: seq<PieceBytes>, next: nat)

  /** What becomes of a request against the catalogue, before anything is written. */
  function Decide(sha: Bytes -> Digest, published: Catalogue, offset: nat, request: Request): Result<Decision, StoreError> {
    var pieces := SortPieces(request.pieces);
    if pieces == [] || Repeats(pieces) then Err(WrongPieces)
    else
      var placed :- Place(sha, pieces, |pieces|, offset);
      var record := Record(request.namespace, request.key, request.generation, Nvme, request.mtp, placed.records);
      if CheckRecord(record).Err? then Err(TierFault(CheckRecord(record).error))
      else
        var relation := if record.key in published then Relate(published[record.key], record) else Ok(MtpUpgrade);
        if relation.Err? then
          Err(if relation.error.Collision? then ContentCollision else TierFault(relation.error))
        else if !relation.value.MtpUpgrade? then Ok(Keep(published[record.key]))
        else if record.key in published && record.generation <= published[record.key].generation then
          Err(StaleGeneration)
        else
          var next :- AlignUp(placed.end);
          Ok(Write(record, pieces, next))
  }

  /** Where a written record lies, and what the digests are of. */
  ghost predicate Describes(sha: Bytes -> Digest, record: Record, pieces: seq<PieceBytes>, from: nat) {
    && |record.pieces| == |pieces|
    && (forall i | 0 <= i < |pieces| ::
          && record.pieces[i].piece == pieces[i].piece
          && record.pieces[i].length == |pieces[i].bytes|
          && record.pieces[i].sha == sha(pieces[i].bytes)
          && from <= record.pieces[i].offset
          && record.pieces[i].offset + record.pieces[i].length <= MAX_U64)
    && (forall i, j | 0 <= i < j < |pieces| ::
          record.pieces[i].offset + record.pieces[i].length <= record.pieces[j].offset)
  }

  lemma {:induction false} PlacedInOrder(sha: Bytes -> Digest, pieces: seq<PieceBytes>, n: nat, offset: nat)
    requires n <= |pieces| && Place(sha, pieces, n, offset).Ok?
    ensures var placed := Place(sha, pieces, n, offset).value;
            && |placed.records| == n && offset <= placed.end
            && (forall i | 0 <= i < n ::
                  && placed.records[i].piece == pieces[i].piece
                  && placed.records[i].length == |pieces[i].bytes|
                  && placed.records[i].sha == sha(pieces[i].bytes)
                  && offset <= placed.records[i].offset
                  && placed.records[i].offset + placed.records[i].length <= placed.end)
            && (n > 0 ==> placed.end <= MAX_U64)
            && (forall i, j | 0 <= i < j < n ::
                  placed.records[i].offset + placed.records[i].length <= placed.records[j].offset)
  {
    hide ExpectedBytes;
    if n > 0 {
      PlacedInOrder(sha, pieces, n - 1, offset);
    }
  }

  lemma WrittenRecord(sha: Bytes -> Digest, published: Catalogue, offset: nat, request: Request)
    requires Decide(sha, published, offset, request).Ok? && Decide(sha, published, offset, request).value.Write?
    ensures var d := Decide(sha, published, offset, request).value;
            && CheckRecord(d.record).Ok?
            && Describes(sha, d.record, d.pieces, offset)
            && d.next % 4096 == 0
            && (forall p | p in d.record.pieces :: p.offset + p.length <= d.next)
            && Merge(published, d.record) == Ok(published[d.record.key := d.record])
            && d.record.key == request.key && d.record.namespace == request.namespace
            && d.record.generation == request.generation && d.record.mtp == request.mtp
            && d.record.tier == Nvme && d.pieces == SortPieces(request.pieces)
  {
    hide CheckRecord, SortPieces, Place, Repeats;
    var pieces := SortPieces(request.pieces);
    PlacedInOrder(sha, pieces, |pieces|, offset);
  }

  // ---------------------------------------------------------------- what is published

  /** The records published so far, in file order. */
  function PublishedRecords(events: seq<Event>): seq<Record> {
    if events == [] then []
    else
      var front, last := events[..|events| - 1], events[|events| - 1];
      PublishedRecords(front) +
      (if last.Publish? && BegunRecord(front, last.transaction).Some?
       then [BegunRecord(front, last.transaction).value] else [])
  }

  /** The data file holds every piece of the record. */
  ghost predicate Holds(sha: Bytes -> Digest, r: Record, data: Bytes) {
    forall p | p in r.pieces ::
      p.offset + p.length <= |data| && sha(data[p.offset..p.offset + p.length]) == p.sha
  }

  ghost predicate RecordsApart(x: Record, y: Record) {
    forall p, q | p in x.pieces && q in y.pieces :: !Overlap(p, q)
  }

  ghost predicate Stored(sha: Bytes -> Digest, records: seq<Record>, data: Bytes) {
    && (forall i | 0 <= i < |records| :: CheckRecord(records[i]).Ok? && Holds(sha, records[i], data))
    && (forall i, j | 0 <= i < j < |records| :: RecordsApart(records[i], records[j]))
  }

  /** Every catalogued record was published. */
  lemma {:induction false} CatalogueWasPublished(events: seq<Event>)
    requires Visible(events).Ok?
    ensures var c := Visible(events).value;
            forall k | k in c :: c[k].key == k && c[k] in PublishedRecords(events)
  {
    hide Relate, BegunRecord;
    if events != [] {
      CatalogueWasPublished(events[..|events| - 1]);
    }
  }

  lemma CheckedPieces(r: Record)
    requires CheckRecord(r).Ok?
    ensures |r.pieces| <= 3
    ensures forall i, j | 0 <= i < j < |r.pieces| ::
              r.pieces[i].piece != r.pieces[j].piece && !Overlap(r.pieces[i], r.pieces[j])
    ensures forall p | p in r.pieces :: p.offset + p.length <= MAX_U64 && p.length == ExpectedBytes(p.piece)
  {
    forall i | 0 <= i < |r.pieces|
      ensures PieceFits(r, i) && r.pieces[i].offset + r.pieces[i].length <= MAX_U64
      ensures forall j | 0 <= j < i :: !Overlap(r.pieces[i], r.pieces[j])
    {
      PrefixChecks(r, i + 1);
    }
    assert forall p | p in r.pieces :: exists i :: 0 <= i < |r.pieces| && p == r.pieces[i];
  }

  lemma {:induction false} PrefixChecks(r: Record, n: nat)
    requires n <= |r.pieces| && CheckPieces(r, |r.pieces|).Ok?
    ensures CheckPieces(r, n).Ok?
    decreases |r.pieces| - n
  {
    if n < |r.pieces| {
      PrefixChecks(r, n + 1);
    }
  }

  /** The extents of the catalogue pass the check that opening makes. */
  lemma StoredIsAccepted(sha: Bytes -> Digest, events: seq<Event>, data: Bytes)
    requires Visible(events).Ok? && Stored(sha, PublishedRecords(events), data)
    ensures CheckExtents(Visible(events).value, |data|) == Ok(())
  {
    hide Visible, CheckRecord, CheckExtents, PublishedRecords;
    var c, records := Visible(events).value, PublishedRecords(events);
    CatalogueWasPublished(events);
    forall k | k in c ensures CheckRecord(c[k]).Ok? && Holds(sha, c[k], data) {
      var i :| 0 <= i < |records| && records[i] == c[k];
    }
    forall k, l | k in c && l in c && k != l ensures RecordsApart(c[k], c[l]) {
      var i :| 0 <= i < |records| && records[i] == c[k];
      var j :| 0 <= j < |records| && records[j] == c[l];
      assert i != j;
      assert RecordsApart(records[i], records[j]) || RecordsApart(records[j], records[i]);
    }
    forall k | k in c
      ensures forall p | p in c[k].pieces :: p.offset + p.length <= |data| && p.offset + p.length <= MAX_U64
      ensures forall i, j | 0 <= i < j < |c[k].pieces| :: !Overlap(c[k].pieces[i], c[k].pieces[j])
    {
      CheckedPieces(c[k]);
    }
    assert PiecesApart(c) && InBounds(c, |data|);
    AcceptedExactly(c, |data|);
  }

  /** A cut publishes a prefix of the records. */
  lemma {:induction false} PrefixPublishes(events: seq<Event>, m: nat)
    requires m <= |events|
    ensures PublishedRecords(events[..m]) <= PublishedRecords(events)
    decreases |events|
  {
    hide BegunRecord;
    if m == |events| {
      assert events[..m] == events;
    } else {
      var front := events[..|events| - 1];
      PrefixPublishes(front, m);
      assert front[..m] == events[..m];
    }
  }

  lemma StoredPrefix(sha: Bytes -> Digest, records: seq<Record>, prefix: seq<Record>, data: Bytes)
    requires Stored(sha, records, data) && prefix <= records
    ensures Stored(sha, prefix, data)
  {
    hide CheckRecord, Holds, RecordsApart;
    assert forall i | 0 <= i < |prefix| :: prefix[i] == records[i];
  }
}
