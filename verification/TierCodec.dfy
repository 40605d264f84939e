/** The 512-byte journal record (store.rs).

    `crc` stands for CRC32C; nothing is assumed about it. */
module TierCodec {
  import opened Collections
  import opened Octets
  import opened Tier

  type Word = x: nat | x < 0x1_0000_0000

  datatype StoreError =
    | TierFault(error: Error)
    | WrongPieces
    | Checksum
    | ContentCollision
    | StaleGeneration
    | JournalSequence
    | JournalEncoding
    | JournalChecksum
    | UnjournaledData
    | CatalogOverlap
    | CatalogOutOfBounds
    | Overflow
    | InjectedCrash
    | WritePoisoned
    | ShortRead

  // ---------------------------------------------------------------- little-endian numbers

  function Power(width: nat): nat {
    if width == 0 then 1 else 256 * Power(width - 1)
  }

  function Little(value: nat, width: nat): (b: Bytes)
    ensures |b| == width
  {
    if width == 0 then [] else [value % 256] + Little(value / 256, width - 1)
  }

  function FromLittle(b: Bytes): nat {
    if b == [] then 0 else b[0] + 256 * FromLittle(b[1..])
  }

  lemma {:induction false} LittleRoundTrips(value: nat, width: nat)
    requires value < Power(width)
    ensures FromLittle(Little(value, width)) == value
  {
    if width > 0 {
      LittleRoundTrips(value / 256, width - 1);
      assert Little(value, width)[1..] == Little(value / 256, width - 1);
    }
  }

  // ---------------------------------------------------------------- encoding

  const MAGIC: Bytes := [71, 76, 84, 74, 82, 78, 76, 50]
  const VERSION: nat := 2

  function PieceCode(p: Piece): Byte {
    match p
    case TargetKv => 1
    case TargetIndexer => 2
    case DraftSidecar => 3
  }

  function TierCode(t: Tier): Byte {
    if t.Dram? then 1 else 2
  }

  function EncodePiece(p: PieceRecord): (b: Bytes)
    ensures |b| == 56
  {
    [PieceCode(p.piece)] + (Zeros(7) + (Little(p.length, 8) + (Little(p.offset, 8) + Little(p.sha, 32))))
  }

  /** The pieces one after the other, followed by zeros. */
  function PieceTable(pieces: seq<PieceRecord>, size: nat): (b: Bytes)
    requires 56 * |pieces| <= size
    ensures |b| == size
  {
    if pieces == [] then Zeros(size) else EncodePiece(pieces[0]) + PieceTable(pieces[1..], size - 56)
  }

  /** The fields of a record as they lie in the 508 bytes before the checksum. */
  datatype Layout = Layout(
    kind: Byte,
    tier: Byte,
    transaction: nat,
    namespace: nat,
    key: nat,
    generation: nat,
    mtp: Byte,
    count: Byte,
    pieces: seq<PieceRecord>)

  function Lay(l: Layout): (b: Bytes)
    requires |l.pieces| <= 3
    ensures |b| == 508
  {
    MAGIC + (Little(VERSION, 2) + ([l.kind, l.tier] + (Little(l.transaction, 8) +
    (Little(l.namespace, 32) + (Little(l.key, 32) + (Little(l.generation, 8) +
    ([l.mtp, l.count, 0, 0] + PieceTable(l.pieces, 412))))))))
  }

  function Seal(crc: Bytes -> Word, body: Bytes): Bytes {
    body + Little(crc(body + Zeros(4)), 4)
  }

  function LayoutOf(e: Event): Layout
    requires e.Begin? ==> |e.record.pieces| <= 3
  {
    match e
    case Begin(id, r) =>
      Layout(1, TierCode(r.tier), id, r.namespace, r.key, r.generation, if r.mtp then 1 else 0, |r.pieces|, r.pieces)
    case PieceDurable(id, piece, sha) =>
      Layout(2, 0, id, 0, 0, 0, 0, 0, [PieceRecord(piece, ExpectedBytes(piece), 0, sha)])
    case Publish(id) => Layout(3, 0, id, 0, 0, 0, 0, 0, [])
  }

  function Encode(crc: Bytes -> Word, e: Event): Result<Bytes, StoreError> {
    if e.Begin? && CheckRecord(e.record).Err? then Err(TierFault(CheckRecord(e.record).error))
    else Ok(Seal(crc, Lay(LayoutOf(e))))
  }

  // ---------------------------------------------------------------- decoding

  function DecodePiece(b: Bytes, ordinal: nat): Result<PieceRecord, StoreError>
    requires |b| == 512 && ordinal < 3
  {
    var at := 96 + 56 * ordinal;
    if b[at] == 0 || b[at] > 3 then Err(JournalEncoding)
    else
      Ok(PieceRecord(if b[at] == 1 then TargetKv else if b[at] == 2 then TargetIndexer else DraftSidecar,
                     FromLittle(b[at + 8..at + 16]),
                     FromLittle(b[at + 16..at + 24]),
                     FromLittle(b[at + 24..at + 56])))
  }

  function DecodePieces(b: Bytes, n: nat): Result<seq<PieceRecord>, StoreError>
    requires |b| == 512 && n <= 3
  {
    if n == 0 then Ok([])
    else
      var front :- DecodePieces(b, n - 1);
      var p :- DecodePiece(b, n - 1);
      Ok(front + [p])
  }

  function Decode(crc: Bytes -> Word, b: Bytes): (r: Result<Event, StoreError>)
    ensures r.Ok? ==> r.value.transaction != 0
  {
    if |b| != 512 then Err(JournalEncoding)
    else if crc(b[..508] + Zeros(4)) != FromLittle(b[508..]) then Err(JournalChecksum)
    else if b[..8] != MAGIC || FromLittle(b[8..10]) != VERSION then Err(JournalEncoding)
    else
      var id := FromLittle(b[12..20]);
      if id == 0 then Err(JournalEncoding)
      else if b[10] == 1 then
        if b[11] == 0 || b[11] > 2 || b[93] == 0 || b[93] > 3 then Err(JournalEncoding)
        else
          var pieces :- DecodePieces(b, b[93]);
          if b[92] > 1 then Err(JournalEncoding)
          else
            var r := Record(FromLittle(b[20..52]), FromLittle(b[52..84]), FromLittle(b[84..92]),
                            if b[11] == 1 then Dram else Nvme, b[92] == 1, pieces);
            if CheckRecord(r).Err? then Err(TierFault(CheckRecord(r).error)) else Ok(Begin(id, r))
      else if b[10] == 2 then
        var p :- DecodePiece(b, 0);
        Ok(PieceDurable(id, p.piece, p.sha))
      else if b[10] == 3 then Ok(Publish(id))
      else Err(JournalEncoding)
  }

  // ---------------------------------------------------------------- round trip

  /** The numbers of an event fit the machine words that hold them. */
  predicate Fits(e: Event) {
    && 0 < e.transaction < Power(8)
    && (e.Begin? ==>
          && e.record.namespace < Power(32) && e.record.key < Power(32) && e.record.generation < Power(8)
          && forall p | p in e.record.pieces :: PieceNumbersFit(p))
    && (e.PieceDurable? ==> e.sha < Power(32))
  }

  predicate PieceNumbersFit(p: PieceRecord) {
    p.length < Power(8) && p.offset < Power(8) && p.sha < Power(32)
  }

  /** Splits off the field that starts at `k`. */
  lemma Peel(b: Bytes, k: nat, field: Bytes, rest: Bytes)
    requires k <= |b| && b[k..] == field + rest
    ensures k + |field| <= |b|
    ensures b[k..k + |field|] == field && b[k + |field|..] == rest
  {
    assert b[k..][..|field|] == field;
    assert b[k..][|field|..] == rest;
  }

  lemma SliceOfSlice(b: Bytes, x: nat, y: nat, i: nat, j: nat)
    requires x <= y <= |b| && i <= j <= y - x
    ensures b[x..y][i..j] == b[x + i..x + j]
  {
    var s, t := b[x..y][i..j], b[x + i..x + j];
    assert |s| == |t|;
    forall k | 0 <= k < |s| ensures s[k] == t[k] {
      assert b[x..y][i + k] == b[x + i + k];
    }
  }

  lemma LayFields(l: Layout, b: Bytes, tail: Bytes)
    requires |l.pieces| <= 3 && |tail| == 4 && b == Lay(l) + tail
    ensures |b| == 512 && b[..508] == Lay(l) && b[508..] == tail
    ensures b[..8] == MAGIC && b[8..10] == Little(VERSION, 2) && b[10] == l.kind && b[11] == l.tier
    ensures b[12..20] == Little(l.transaction, 8)
    ensures b[20..52] == Little(l.namespace, 32) && b[52..84] == Little(l.key, 32)
    ensures b[84..92] == Little(l.generation, 8) && b[92] == l.mtp && b[93] == l.count
    ensures b[96..508] == PieceTable(l.pieces, 412)
  {
    hide Little, PieceTable;
    var h := Lay(l);
    var t := PieceTable(l.pieces, 412);
    var r7 := [l.mtp, l.count, 0, 0] + t;
    var r6 := Little(l.generation, 8) + r7;
    var r5 := Little(l.key, 32) + r6;
    var r4 := Little(l.namespace, 32) + r5;
    var r3 := Little(l.transaction, 8) + r4;
    var r2 := [l.kind, l.tier] + r3;
    var r1 := Little(VERSION, 2) + r2;
    assert h[0..] == MAGIC + r1;
    Peel(h, 0, MAGIC, r1);
    Peel(h, 8, Little(VERSION, 2), r2);
    Peel(h, 10, [l.kind, l.tier], r3);
    Peel(h, 12, Little(l.transaction, 8), r4);
    Peel(h, 20, Little(l.namespace, 32), r5);
    Peel(h, 52, Little(l.key, 32), r6);
    Peel(h, 84, Little(l.generation, 8), r7);
    Peel(h, 92, [l.mtp, l.count, 0, 0], t);
    assert h[10] == h[10..12][0] && h[11] == h[10..12][1];
    assert h[92] == h[92..96][0] && h[93] == h[92..96][1];
    assert h[96..] == h[96..508];
    assert forall i, j | 0 <= i <= j <= 508 :: b[i..j] == h[i..j];
  }

  lemma {:induction false} TableEntry(pieces: seq<PieceRecord>, size: nat, i: nat)
    requires i < |pieces| && 56 * |pieces| <= size
    ensures PieceTable(pieces, size)[56 * i..56 * i + 56] == EncodePiece(pieces[i])
    decreases i
  {
    hide EncodePiece;
    var t := PieceTable(pieces, size);
    if i > 0 {
      var rest := PieceTable(pieces[1..], size - 56);
      TableEntry(pieces[1..], size - 56, i - 1);
      assert t[56 * i..56 * i + 56] == rest[56 * (i - 1)..56 * (i - 1) + 56];
    }
  }

  lemma PieceRoundTrips(b: Bytes, ordinal: nat, p: PieceRecord)
    requires |b| == 512 && ordinal < 3 && PieceNumbersFit(p)
    requires b[96 + 56 * ordinal..96 + 56 * ordinal + 56] == EncodePiece(p)
    ensures DecodePiece(b, ordinal) == Ok(p)
  {
    hide Little, FromLittle, Power;
    var at := 96 + 56 * ordinal;
    var e := EncodePiece(p);
    var r3 := Little(p.offset, 8) + Little(p.sha, 32);
    var r2 := Little(p.length, 8) + r3;
    var r1 := Zeros(7) + r2;
    assert e[0..] == [PieceCode(p.piece)] + r1;
    Peel(e, 0, [PieceCode(p.piece)], r1);
    Peel(e, 1, Zeros(7), r2);
    Peel(e, 8, Little(p.length, 8), r3);
    Peel(e, 16, Little(p.offset, 8), Little(p.sha, 32));
    assert e[24..] == e[24..56];
    assert b[at] == b[at..at + 56][0] == e[0];
    SliceOfSlice(b, at, at + 56, 8, 16);
    SliceOfSlice(b, at, at + 56, 16, 24);
    SliceOfSlice(b, at, at + 56, 24, 56);
    LittleRoundTrips(p.length, 8);
    LittleRoundTrips(p.offset, 8);
    LittleRoundTrips(p.sha, 32);
  }

  lemma {:induction false} PiecesRoundTrip(b: Bytes, pieces: seq<PieceRecord>, n: nat)
    requires |b| == 512 && n <= |pieces| <= 3 && (forall p | p in pieces :: PieceNumbersFit(p))
    requires b[96..508] == PieceTable(pieces, 412)
    ensures DecodePieces(b, n) == Ok(pieces[..n])
  {
    hide PieceTable, EncodePiece, DecodePiece, PieceNumbersFit;
    if n > 0 {
      PiecesRoundTrip(b, pieces, n - 1);
      TableEntry(pieces, 412, n - 1);
      SliceOfSlice(b, 96, 508, 56 * (n - 1), 56 * (n - 1) + 56);
      PieceRoundTrips(b, n - 1, pieces[n - 1]);
      assert pieces[..n] == pieces[..n - 1] + [pieces[n - 1]];
    }
  }

  lemma Sealed(crc: Bytes -> Word, l: Layout)
    requires |l.pieces| <= 3 && l.transaction < Power(8)
    ensures var b := Seal(crc, Lay(l));
            && |b| == 512
            && crc(b[..508] + Zeros(4)) == FromLittle(b[508..])
            && b[..8] == MAGIC && FromLittle(b[8..10]) == VERSION
            && b[10] == l.kind && b[11] == l.tier && b[92] == l.mtp && b[93] == l.count
            && FromLittle(b[12..20]) == l.transaction
            && b[20..52] == Little(l.namespace, 32) && b[52..84] == Little(l.key, 32)
            && b[84..92] == Little(l.generation, 8)
            && b[96..508] == PieceTable(l.pieces, 412)
  {
    hide Little, FromLittle, Power, PieceTable, Lay, Zeros;
    var word := crc(Lay(l) + Zeros(4));
    LayFields(l, Seal(crc, Lay(l)), Little(word, 4));
    WordsFit();
    LittleRoundTrips(word, 4);
    LittleRoundTrips(VERSION, 2);
    LittleRoundTrips(l.transaction, 8);
  }

  lemma BeginRoundTrips(crc: Bytes -> Word, e: Event, b: Bytes)
    requires e.Begin? && Fits(e) && Encode(crc, e) == Ok(b)
    ensures |b| == 512 && Decode(crc, b) == Ok(e)
  {
    hide Little, FromLittle, Power, CheckPieces, PieceTable, DecodePiece, Lay, Seal, Zeros, PieceNumbersFit;
    var l := LayoutOf(e);
    Sealed(crc, l);
    LittleRoundTrips(l.namespace, 32);
    LittleRoundTrips(l.key, 32);
    LittleRoundTrips(l.generation, 8);
    PiecesRoundTrip(b, l.pieces, |l.pieces|);
    assert l.pieces[..|l.pieces|] == l.pieces;
    hide DecodePieces;
  }

  lemma DurableRoundTrips(crc: Bytes -> Word, e: Event, b: Bytes)
    requires e.PieceDurable? && Fits(e) && Encode(crc, e) == Ok(b)
    ensures |b| == 512 && Decode(crc, b) == Ok(e)
  {
    hide Little, FromLittle, Power, PieceTable, DecodePiece, DecodePieces, Lay, Seal, Zeros, CheckRecord;
    var l := LayoutOf(e);
    Sealed(crc, l);
    TableEntry(l.pieces, 412, 0);
    SliceOfSlice(b, 96, 508, 0, 56);
    WordsFit();
    PieceRoundTrips(b, 0, l.pieces[0]);
  }

  /** What is written to the journal is read back. */
  lemma RoundTrips(crc: Bytes -> Word, e: Event)
    requires Fits(e) && Encode(crc, e).Ok?
    ensures |Encode(crc, e).value| == 512 && Decode(crc, Encode(crc, e).value) == Ok(e)
  {
    hide Fits, Little, FromLittle, Power, PieceTable, DecodePiece, DecodePieces, Lay, Seal, Zeros, CheckRecord;
    var b := Encode(crc, e).value;
    match e {
      case Begin(_, _) => BeginRoundTrips(crc, e, b);
      case PieceDurable(_, _, _) => DurableRoundTrips(crc, e, b);
      case Publish(_) =>
        PublishFits(e);
        Sealed(crc, LayoutOf(e));
    }
  }

  lemma PublishFits(e: Event)
    requires Fits(e)
    ensures 0 < e.transaction < Power(8)
  {
  }

  lemma WordsFit()
    ensures Power(4) == 0x1_0000_0000 && Power(2) == 65536 && Power(8) == 0x1_0000_0000_0000_0000
  {
    assert Power(4) == 256 * Power(3) && Power(3) == 256 * Power(2) && Power(2) == 256 * Power(1);
    assert Power(8) == 256 * Power(7) && Power(7) == 256 * Power(6) && Power(6) == 256 * Power(5);
    assert Power(5) == 256 * Power(4);
  }
}
