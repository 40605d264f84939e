/** The write-ahead law of the journal, event by event (tier.rs). */
module TierLaw {
  import opened Collections
  import opened Octets
  import opened Tier
  import opened TierCodec
  import opened TierRecovery
  import opened JournalFile

  // ---------------------------------------------------------------- records

  /** The pieces of a record are of different kinds: two for the target and, with MTP, a draft. */
  ghost predicate WellFormed(r: Record) {
    && r.namespace != 0 && r.key != 0 && r.generation != 0
    && |r.pieces| == (if r.mtp then 3 else 2)
    && (forall p | p in r.pieces ::
          && (p.piece.DraftSidecar? ==> r.mtp)
          && p.length == (match p.piece
                          case TargetKv => 64 * 78 * 368
                          case TargetIndexer => 64 * 21 * 132
                          case DraftSidecar => 64 * 500)
          && p.offset % (if r.tier.Dram? then 64 else 4096) == 0
          && p.offset + p.length <= 0xFFFF_FFFF_FFFF_FFFF
          && p.sha != 0)
    && (forall i, j | 0 <= i < j < |r.pieces| ::
          && r.pieces[i].piece != r.pieces[j].piece
          && (r.pieces[i].offset + r.pieces[i].length <= r.pieces[j].offset
              || r.pieces[j].offset + r.pieces[j].length <= r.pieces[i].offset))
  }

  lemma {:induction false} PiecesExactly(r: Record, n: nat)
    requires n <= |r.pieces|
    ensures CheckPieces(r, n).Ok? <==>
            && (forall i | 0 <= i < n :: PieceFits(r, i) && r.pieces[i].offset + r.pieces[i].length <= MAX_U64)
            && (forall i, j | 0 <= j < i < n :: !Overlap(r.pieces[i], r.pieces[j]))
  {
    hide PieceFits, Overlap;
    if n > 0 {
      PiecesExactly(r, n - 1);
    }
  }

  /** Validation accepts exactly the well-formed records. */
  lemma RecordsExactly(r: Record)
    ensures CheckRecord(r).Ok? <==> WellFormed(r)
  {
    hide CheckPieces;
    PiecesExactly(r, |r.pieces|);
    if WellFormed(r) {
      forall i | 0 <= i < |r.pieces| ensures PieceFits(r, i) && r.pieces[i].offset + r.pieces[i].length <= MAX_U64 {
        assert r.pieces[i] in r.pieces;
      }
    }
  }

  // ---------------------------------------------------------------- relations

  /** Both records give their piece of this kind the same digest. */
  ghost predicate SameDigest(x: Record, y: Record, kind: Piece) {
    forall p, q | p in x.pieces && q in y.pieces && p.piece == kind && q.piece == kind :: p.sha == q.sha
  }

  lemma {:induction false} FoundIdentity(pieces: seq<PieceRecord>, kind: Piece)
    ensures FindPiece(pieces, kind).Some? <==> exists p | p in pieces :: p.piece == kind
    ensures FindPiece(pieces, kind).Some? ==>
              exists p | p in pieces :: p.piece == kind && FindPiece(pieces, kind).value == (p.length, p.sha)
  {
    if pieces != [] {
      FoundIdentity(pieces[1..], kind);
      assert pieces == [pieces[0]] + pieces[1..];
    }
  }

  lemma PieceOf(r: Record, kind: Piece) returns (p: PieceRecord)
    requires WellFormed(r) && (kind.DraftSidecar? ==> r.mtp)
    ensures p in r.pieces && p.piece == kind
  {
    assert r.pieces[0] in r.pieces && r.pieces[1] in r.pieces && (r.mtp ==> r.pieces[2] in r.pieces);
    p := if r.pieces[0].piece == kind then r.pieces[0] else if r.pieces[1].piece == kind then r.pieces[1] else r.pieces[2];
  }

  lemma OneIdentity(r: Record, p: PieceRecord)
    requires WellFormed(r) && p in r.pieces
    ensures LogicalIdentity(r, p.piece) == Some((ExpectedBytes(p.piece), p.sha))
  {
    hide FindPiece;
    FoundIdentity(r.pieces, p.piece);
    var q :| q in r.pieces && q.piece == p.piece && FindPiece(r.pieces, p.piece).value == (q.length, q.sha);
    OnePiece(r, p, q);
  }

  lemma IdentityIsDigest(x: Record, y: Record, kind: Piece)
    requires WellFormed(x) && WellFormed(y) && (kind.DraftSidecar? ==> x.mtp && y.mtp)
    ensures LogicalIdentity(x, kind) == LogicalIdentity(y, kind) <==> SameDigest(x, y, kind)
  {
    hide WellFormed, LogicalIdentity;
    var p := PieceOf(x, kind);
    var q := PieceOf(y, kind);
    OneIdentity(x, p);
    OneIdentity(y, q);
    forall a, b | a in x.pieces && b in y.pieces && a.piece == kind && b.piece == kind ensures a == p && b == q {
      OnePiece(x, a, p);
      OnePiece(y, b, q);
    }
  }

  /** The same page: one namespace and key, the same target contents, and no two different drafts. */
  ghost predicate SamePage(x: Record, y: Record) {
    && x.namespace == y.namespace && x.key == y.key
    && SameDigest(x, y, TargetKv) && SameDigest(x, y, TargetIndexer)
    && (x.mtp && y.mtp ==> SameDigest(x, y, DraftSidecar))
  }

  /** A candidate relates to a record exactly when both name the same page, and upgrades it exactly when
      it brings the first draft. */
  lemma RelationsExactly(x: Record, y: Record)
    requires WellFormed(x) && WellFormed(y)
    ensures Relate(x, y).Ok? <==> SamePage(x, y)
    ensures Relate(x, y).Err? ==> Relate(x, y).error == Collision
    ensures Relate(x, y).Ok? ==> (Relate(x, y).value == MtpUpgrade <==> y.mtp && !x.mtp)
    ensures Relate(x, y).Ok? ==> (Relate(x, y).value == RetainMtp <==> x.mtp && !y.mtp)
  {
    hide WellFormed, CheckRecord, SameDigest, LogicalIdentity;
    RecordsExactly(x);
    RecordsExactly(y);
    IdentityIsDigest(x, y, TargetKv);
    IdentityIsDigest(x, y, TargetIndexer);
    if x.mtp && y.mtp {
      IdentityIsDigest(x, y, DraftSidecar);
    }
  }

  /** Publishing a record: the first under its key is shown, a first draft of a newer generation
      replaces it, the same page changes nothing, and anything else is refused. */
  lemma MergesExactly(c: Catalogue, r: Record)
    requires WellFormed(r) && (r.key in c ==> WellFormed(c[r.key]))
    ensures Merge(c, r) ==
            if r.key !in c then Ok(c[r.key := r])
            else if !SamePage(c[r.key], r) then Err(Collision)
            else if !r.mtp || c[r.key].mtp then Ok(c)
            else if r.generation > c[r.key].generation then Ok(c[r.key := r])
            else Err(BadJournal)
  {
    hide WellFormed, Relate, SamePage;
    if r.key in c {
      RelationsExactly(c[r.key], r);
    }
  }

  // ---------------------------------------------------------------- events

  /** Event `e` may follow the events `before`: a transaction begins once, with a well-formed record;
      it marks each piece of its record once, with its digest; it publishes once, after all its marks. */
  ghost predicate Legal(before: set<Event>, e: Event) {
    match e
    case Begin(id, r) => WellFormed(r) && forall x | x in before && x.Begin? :: x.transaction != id
    case PieceDurable(id, piece, sha) =>
      && (exists x | x in before :: x.Begin? && x.transaction == id && HasPiece(x.record, piece, sha))
      && Publish(id) !in before
      && (forall x | x in before && x.PieceDurable? && x.transaction == id :: x.piece != piece)
    case Publish(id) =>
      && (exists x | x in before :: x.Begin? && x.transaction == id && AllMarked(before, id, x.record))
      && Publish(id) !in before
  }

  ghost predicate HasPiece(r: Record, piece: Piece, sha: nat) {
    exists q | q in r.pieces :: q.piece == piece && q.sha == sha
  }

  ghost predicate AllMarked(before: set<Event>, id: nat, r: Record) {
    forall q | q in r.pieces :: PieceDurable(id, q.piece, q.sha) in before
  }

  ghost predicate AllLegal(events: seq<Event>) {
    forall i | 0 <= i < |events| :: Legal(Facts(events[..i]), events[i])
  }

  /** The events as a set. */
  function Facts(events: seq<Event>): set<Event> {
    set e | e in events
  }

  lemma FactsAppend(front: seq<Event>, last: Event)
    ensures Facts(front + [last]) == Facts(front) + {last}
  {
  }

  lemma LegalFront(events: seq<Event>)
    requires events != []
    ensures AllLegal(events) <==> AllLegal(events[..|events| - 1]) && Legal(Facts(events[..|events| - 1]), events[|events| - 1])
  {
    hide Legal;
    var front := events[..|events| - 1];
    assert forall i | 0 <= i < |front| :: front[..i] == events[..i] && front[i] == events[i];
  }

  /** The transactions of a replay are what the events say. */
  ghost predicate Reflects(t: map<nat, Transaction>, events: set<Event>) {
    && ReflectsBegins(t, events) && ReflectsMarks(t, events)
    && (forall id | id in t :: t[id].published <==> Publish(id) in events)
  }

  ghost predicate ReflectsBegins(t: map<nat, Transaction>, events: set<Event>) {
    && (forall id | id in t :: WellFormed(t[id].record) && Begin(id, t[id].record) in events)
    && (forall e | e in events && e.Begin? :: e.transaction in t && t[e.transaction].record == e.record)
    && (forall e | e in events :: e.transaction in t)
  }

  ghost predicate ReflectsMarks(t: map<nat, Transaction>, events: set<Event>) {
    && (forall id, p | id in t && p in t[id].durable :: PieceDurable(id, p, t[id].durable[p]) in events)
    && (forall e | e in events && e.PieceDurable? && e.transaction in t ::
          e.piece in t[e.transaction].durable && t[e.transaction].durable[e.piece] == e.sha)
    && (forall id, p | id in t && p in t[id].durable :: HasPiece(t[id].record, p, t[id].durable[p]))
  }

  lemma {:induction false} FoundPiece(pieces: seq<PieceRecord>, p: Piece)
    ensures FindRecord(pieces, p).Some? ==> FindRecord(pieces, p).value in pieces && FindRecord(pieces, p).value.piece == p
    ensures FindRecord(pieces, p).None? ==> forall q | q in pieces :: q.piece != p
  {
    if pieces != [] {
      FoundPiece(pieces[1..], p);
      assert pieces == [pieces[0]] + pieces[1..];
    }
  }

  lemma OnePiece(r: Record, x: PieceRecord, y: PieceRecord)
    requires WellFormed(r) && x in r.pieces && y in r.pieces && x.piece == y.piece
    ensures x == y
  {
  }

  lemma BeginIsLegal(t: map<nat, Transaction>, before: set<Event>, id: nat, r: Record)
    requires Reflects(t, before)
    ensures ReplayEvent(t, Begin(id, r)).Ok? <==> Legal(before, Begin(id, r))
  {
    hide WellFormed, CheckRecord, ReflectsMarks;
    RecordsExactly(r);
  }

  lemma BeginReflects(t: map<nat, Transaction>, before: set<Event>, id: nat, r: Record)
    requires Reflects(t, before) && ReplayEvent(t, Begin(id, r)).Ok?
    ensures Reflects(ReplayEvent(t, Begin(id, r)).value, before + {Begin(id, r)})
  {
    hide WellFormed, CheckRecord, ReflectsMarks, ReflectsBegins;
    RecordsExactly(r);
    BeginBegins(t, before, id, r);
    BeginMarks(t, before, id, r);
    NotKnown(t, before, id);
  }

  lemma NotKnown(t: map<nat, Transaction>, before: set<Event>, id: nat)
    requires ReflectsBegins(t, before) && id !in t
    ensures forall e | e in before :: e.transaction != id
  {
  }

  lemma BeginBegins(t: map<nat, Transaction>, before: set<Event>, id: nat, r: Record)
    requires ReflectsBegins(t, before) && id !in t && WellFormed(r)
    ensures ReflectsBegins(t[id := Transaction(r, map[], false)], before + {Begin(id, r)})
  {
    hide WellFormed;
  }

  lemma BeginMarks(t: map<nat, Transaction>, before: set<Event>, id: nat, r: Record)
    requires ReflectsBegins(t, before) && ReflectsMarks(t, before) && id !in t
    ensures ReflectsMarks(t[id := Transaction(r, map[], false)], before + {Begin(id, r)})
  {
    hide WellFormed, HasPiece;
  }

  lemma MarkIsLegal(t: map<nat, Transaction>, before: set<Event>, id: nat, piece: Piece, sha: nat)
    requires Reflects(t, before)
    ensures ReplayEvent(t, PieceDurable(id, piece, sha)).Ok? <==> Legal(before, PieceDurable(id, piece, sha))
  {
    hide WellFormed;
    if id in t {
      var r := t[id].record;
      FoundPiece(r.pieces, piece);
      var found := FindRecord(r.pieces, piece);
      if HasPiece(r, piece, sha) {
        var q :| q in r.pieces && q.piece == piece && q.sha == sha;
        OnePiece(r, q, found.value);
      }
    }
  }

  lemma MarkReflects(t: map<nat, Transaction>, before: set<Event>, id: nat, piece: Piece, sha: nat)
    requires Reflects(t, before) && ReplayEvent(t, PieceDurable(id, piece, sha)).Ok?
    ensures Reflects(ReplayEvent(t, PieceDurable(id, piece, sha)).value, before + {PieceDurable(id, piece, sha)})
  {
    hide WellFormed, HasPiece, ReflectsBegins, ReflectsMarks;
    MarkedPiece(t[id].record, piece, sha);
    MarkBegins(t, before, id, piece, sha);
    MarkMarks(t, before, id, piece, sha);
    assert Publish(id) !in before;
  }

  lemma MarkBegins(t: map<nat, Transaction>, before: set<Event>, id: nat, piece: Piece, sha: nat)
    requires ReflectsBegins(t, before) && id in t
    ensures ReflectsBegins(t[id := t[id].(durable := t[id].durable[piece := sha])], before + {PieceDurable(id, piece, sha)})
  {
    hide WellFormed;
  }

  lemma MarkMarks(t: map<nat, Transaction>, before: set<Event>, id: nat, piece: Piece, sha: nat)
    requires ReflectsMarks(t, before) && id in t && piece !in t[id].durable && HasPiece(t[id].record, piece, sha)
    ensures ReflectsMarks(t[id := t[id].(durable := t[id].durable[piece := sha])], before + {PieceDurable(id, piece, sha)})
  {
    hide HasPiece;
  }

  lemma MarkedPiece(r: Record, piece: Piece, sha: nat)
    requires FindRecord(r.pieces, piece).Some? && FindRecord(r.pieces, piece).value.sha == sha
    ensures HasPiece(r, piece, sha)
  {
    FoundPiece(r.pieces, piece);
  }

  lemma PublishReflects(t: map<nat, Transaction>, before: set<Event>, id: nat)
    requires Reflects(t, before) && ReplayEvent(t, Publish(id)).Ok?
    ensures Reflects(ReplayEvent(t, Publish(id)).value, before + {Publish(id)})
  {
    hide AllDurable, ReflectsBegins, ReflectsMarks;
    PublishBegins(t, before, id);
    PublishMarks(t, before, id);
  }

  lemma PublishBegins(t: map<nat, Transaction>, before: set<Event>, id: nat)
    requires ReflectsBegins(t, before) && id in t
    ensures ReflectsBegins(t[id := t[id].(published := true)], before + {Publish(id)})
  {
    hide WellFormed;
  }

  lemma PublishMarks(t: map<nat, Transaction>, before: set<Event>, id: nat)
    requires ReflectsMarks(t, before) && id in t
    ensures ReflectsMarks(t[id := t[id].(published := true)], before + {Publish(id)})
  {
    hide HasPiece;
  }

  lemma PublishIsLegal(t: map<nat, Transaction>, before: set<Event>, id: nat)
    requires Reflects(t, before)
    ensures ReplayEvent(t, Publish(id)).Ok? <==> Legal(before, Publish(id))
  {
    hide WellFormed, HasPiece, AllDurable, AllMarked;
    if id in t {
      MarkedIsDurable(t, before, id);
    }
  }

  lemma MarkedIsDurable(t: map<nat, Transaction>, before: set<Event>, id: nat)
    requires Reflects(t, before) && id in t
    ensures AllDurable(t[id]) <==> AllMarked(before, id, t[id].record)
  {
    hide WellFormed;
    var r := t[id].record;
    forall q | q in r.pieces ensures q.piece in t[id].durable <==> PieceDurable(id, q.piece, q.sha) in before {
      if q.piece in t[id].durable {
        var x :| x in r.pieces && x.piece == q.piece && x.sha == t[id].durable[q.piece];
        OnePiece(r, q, x);
      }
    }
  }

  /** Replay accepts exactly the journals in which every event is legal where it stands. */
  lemma {:induction false} ReplayExactly(events: seq<Event>)
    ensures Replay(events).Ok? <==> AllLegal(events)
    ensures Replay(events).Ok? ==> Reflects(Replay(events).value, Facts(events))
  {
    hide ReplayEvent, Legal, Reflects, AllLegal;
    if events == [] {
      NothingReflects();
    } else {
      var front, last := events[..|events| - 1], events[|events| - 1];
      ReplayExactly(front);
      LegalFront(events);
      assert front + [last] == events;
      FactsAppend(front, last);
      if Replay(front).Ok? {
        var t := Replay(front).value;
        match last
        case Begin(id, r) =>
          BeginIsLegal(t, Facts(front), id, r);
          if Replay(events).Ok? {
            BeginReflects(t, Facts(front), id, r);
          }
        case PieceDurable(id, piece, sha) =>
          MarkIsLegal(t, Facts(front), id, piece, sha);
          if Replay(events).Ok? {
            MarkReflects(t, Facts(front), id, piece, sha);
          }
        case Publish(id) =>
          PublishIsLegal(t, Facts(front), id);
          if Replay(events).Ok? {
            PublishReflects(t, Facts(front), id);
          }
      }
    }
  }

  lemma NothingReflects()
    ensures Reflects(map[], Facts([])) && AllLegal([])
  {
  }

  // ---------------------------------------------------------------- the law

  /** The record was begun, each of its pieces was marked durable with its digest, and only then was it
      published, by one transaction. */
  ghost predicate WrittenAhead(events: seq<Event>, r: Record, id: nat, j: nat) {
    j < |events| && events[j] == Publish(id) && Begin(id, r) in events[..j] && AllMarked(Facts(events[..j]), id, r)
  }

  lemma {:induction false} CollectedWasPublished(t: map<nat, Transaction>, ids: seq<nat>)
    requires Collect(t, ids).Ok?
    ensures var c := Collect(t, ids).value;
            forall k | k in c :: c[k].key == k && exists id :: id in t && t[id].published && t[id].record == c[k]
  {
    hide Relate;
    if ids != [] {
      CollectedWasPublished(t, ids[..|ids| - 1]);
    }
  }

  lemma PublishedWasMarked(events: seq<Event>, id: nat, r: Record)
    requires AllLegal(events) && Publish(id) in events && Begin(id, r) in events
    ensures exists j :: WrittenAhead(events, r, id, j)
  {
    hide WellFormed;
    var j :| 0 <= j < |events| && events[j] == Publish(id);
    assert Legal(Facts(events[..j]), events[j]);
    var x :| x in Facts(events[..j]) && x.Begin? && x.transaction == id && AllMarked(Facts(events[..j]), id, x.record);
    OneBegin(events, id, x.record, r);
    assert x == Begin(id, r);
    assert WrittenAhead(events, r, id, j);
  }

  lemma Earlier(events: seq<Event>, i: nat, j: nat)
    requires i < |events| && j < |events|
    ensures i < j ==> events[i] in Facts(events[..j])
  {
    if i < j {
      assert events[..j][i] == events[i];
    }
  }

  lemma OneBegin(events: seq<Event>, id: nat, x: Record, y: Record)
    requires AllLegal(events) && Begin(id, x) in events && Begin(id, y) in events
    ensures x == y
  {
    hide WellFormed;
    var i :| 0 <= i < |events| && events[i] == Begin(id, x);
    var j :| 0 <= j < |events| && events[j] == Begin(id, y);
    assert Legal(Facts(events[..i]), events[i]) && Legal(Facts(events[..j]), events[j]);
    Earlier(events, i, j);
    Earlier(events, j, i);
  }

  /** The write-ahead law: whatever recovery makes visible was begun, made durable piece by piece with the
      digests of the record, and published after that. */
  lemma RecoveredWasWrittenAhead(events: seq<Event>)
    requires Recover(events).Ok?
    ensures var c := Recover(events).value;
            forall k | k in c :: c[k].key == k && WellFormed(c[k]) && exists id, j :: WrittenAhead(events, c[k], id, j)
  {
    hide AllLegal, WellFormed, WrittenAhead, Collect, Replay;
    ReplayExactly(events);
    var t, c := Replay(events).value, Recover(events).value;
    CollectedWasPublished(t, Sorted(t.Keys));
    forall k | k in c ensures WellFormed(c[k]) && exists id, j :: WrittenAhead(events, c[k], id, j) {
      var id :| id in t && t[id].published && t[id].record == c[k];
      PublishedWasMarked(events, id, c[k]);
    }
  }

  /** The law for what a journal file shows when it is cut at any byte. */
  lemma CutsAreWrittenAhead(crc: Bytes -> Word, bytes: Bytes, cut: nat)
    requires cut <= |bytes| && Catalogued(crc, bytes).Ok?
    ensures Catalogued(crc, bytes[..cut]).Ok? && cut / 512 <= |EventsOf(crc, bytes)|
    ensures var c, events := Catalogued(crc, bytes[..cut]).value, EventsOf(crc, bytes)[..cut / 512];
            forall k | k in c :: c[k].key == k && exists id, j :: WrittenAhead(events, c[k], id, j)
  {
    hide WellFormed, WrittenAhead, Visible, Replay, Recover, DecodeRecords, Sequential;
    CutShows(crc, bytes, cut);
    var events := EventsOf(crc, bytes)[..cut / 512];
    DecodedIsSequential(crc, bytes, |bytes| / 512);
    FullRecovery(EventsOf(crc, bytes));
    PrefixesReplay(EventsOf(crc, bytes), cut / 512);
    RecoveryIsPublication(events);
    RecoveredWasWrittenAhead(events);
  }

  // ---------------------------------------------------------------- writing

  lemma {:induction false} BegunIsListed(events: seq<Event>, id: nat)
    ensures BegunRecord(events, id).Some? ==> Begin(id, BegunRecord(events, id).value) in events
    ensures BegunRecord(events, id).None? ==> forall e | e in events && e.Begin? :: e.transaction != id
  {
    if events != [] {
      BegunIsListed(events[1..], id);
      assert events == [events[0]] + events[1..];
    }
  }

  /** The journal marks and publishes exactly when the event is legal next; it begins well-formed records. */
  lemma JournalWritesExactly(j: Journal, r: Record, id: nat, piece: Piece, sha: nat)
    requires Replay(j.events).Ok?
    ensures BeginRecord(j, r).Ok? <==> WellFormed(r) && j.next < MAX_U64
    ensures MarkDurable(j, id, piece, sha).Ok? <==> Legal(Facts(j.events), PieceDurable(id, piece, sha))
    ensures PublishRecord(j, id).Ok? <==> Legal(Facts(j.events), Publish(id))
  {
    hide WellFormed, CheckRecord, Replay, Legal, AllLegal, Reflects;
    RecordsExactly(r);
    ReplayExactly(j.events);
    var t := Replay(j.events).value;
    JournalScans(t, j.events, id);
    MarkIsLegal(t, Facts(j.events), id, piece, sha);
    PublishIsLegal(t, Facts(j.events), id);
  }

  /** What the journal's own scans find is what replay holds. */
  lemma JournalScans(t: map<nat, Transaction>, events: seq<Event>, id: nat)
    requires Reflects(t, Facts(events))
    ensures OpenRecord(events, id).Ok? <==> id in t && !t[id].published
    ensures OpenRecord(events, id).Ok? ==> OpenRecord(events, id).value == t[id].record
    ensures id in t ==> forall p: Piece :: Durable(events, id, p) <==> p in t[id].durable
  {
    hide WellFormed, HasPiece;
    BegunIsListed(events, id);
    if Published(events, id) {
      assert Publish(id) in events;
    }
    if id in t {
      forall p: Piece ensures Durable(events, id, p) <==> p in t[id].durable {
        if p in t[id].durable {
          assert PieceDurable(id, p, t[id].durable[p]) in events;
        }
      }
    }
  }

  datatype Operation = Begins(record: Record) | Marks(id: nat, piece: Piece, sha: nat) | Publishes(id: nat)

  function Apply(j: Journal, op: Operation): Result<Journal, Error> {
    match op
    case Begins(r) => BeginRecord(j, r)
    case Marks(id, piece, sha) => MarkDurable(j, id, piece, sha)
    case Publishes(id) => PublishRecord(j, id)
  }

  function Run(j: Journal, ops: seq<Operation>): Journal {
    if ops == [] then j
    else
      var k := Run(j, ops[..|ops| - 1]);
      if Apply(k, ops[|ops| - 1]).Ok? then Apply(k, ops[|ops| - 1]).value else k
  }

  ghost predicate Open(j: Journal) {
    Replay(j.events).Ok? && forall e | e in j.events :: e.transaction < j.next
  }

  /** Whatever is asked of a journal, its events replay. */
  lemma {:induction false} JournalsReplay(j: Journal, ops: seq<Operation>)
    requires Open(j)
    ensures Open(Run(j, ops))
  {
    hide Replay, Apply, Open;
    if ops != [] {
      var k, op := Run(j, ops[..|ops| - 1]), ops[|ops| - 1];
      JournalsReplay(j, ops[..|ops| - 1]);
      if Apply(k, op).Ok? {
        StepReplays(k, op);
      }
    }
  }

  lemma StepReplays(j: Journal, op: Operation)
    requires Open(j) && Apply(j, op).Ok?
    ensures Open(Apply(j, op).value)
  {
    hide Replay, WellFormed, AllLegal, Reflects, HasPiece, AllMarked;
    var after := Apply(j, op).value.events;
    var e := after[|after| - 1];
    assert after == j.events + [e] && after[..|after| - 1] == j.events;
    match op {
      case Begins(r) => JournalWritesExactly(j, r, 0, TargetKv, 0);
      case Marks(id, piece, sha) => JournalWritesExactly(j, SomeRecord(), id, piece, sha);
      case Publishes(id) => JournalWritesExactly(j, SomeRecord(), id, TargetKv, 0);
    }
    LegalFront(after);
    ReplayExactly(j.events);
    ReplayExactly(after);
    if !e.Begin? {
      Known(Facts(j.events), e);
    }
  }

  function SomeRecord(): Record {
    Record(0, 0, 0, Nvme, false, [])
  }

  lemma Known(before: set<Event>, e: Event)
    requires Legal(before, e) && !e.Begin?
    ensures exists x | x in before :: x.transaction == e.transaction
  {
  }
}
