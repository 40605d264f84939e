/** What every reachable scheduler satisfies. */
module ScheduleInvariant {
  import opened Collections
  import opened ScheduleModel

  // ---------------------------------------------------------------- queues

  function IdsOf(q: seq<Queued>): set<nat> {
    set x | x in q :: x.id
  }

  function KeysOf(c: IoClass, q: seq<Queued>): set<(IoClass, OrderKey)> {
    set x | x in q :: (c, x.order)
  }

  ghost predicate QueueOk(q: seq<Queued>) {
    && (forall i, j | 0 <= i < j < |q| :: Before(q[i], q[j]))
    && (forall i, j | 0 <= i < j < |q| :: q[i].id != q[j].id && q[i].order != q[j].order)
  }

  lemma {:induction false} PushContents(q: seq<Queued>, x: Queued)
    ensures |Push(q, x)| == |q| + 1
    ensures forall y :: y in Push(q, x) <==> y in q || y == x
    ensures Bytes(Push(q, x)) == Bytes(q) + x.bytes
  {
    if q == [] || Before(x, q[0]) {
      assert ([x] + q)[1..] == q;
    } else {
      PushContents(q[1..], x);
      assert q == [q[0]] + q[1..];
      assert ([q[0]] + Push(q[1..], x))[1..] == Push(q[1..], x);
    }
  }

  lemma {:induction false} PushKeepsOrder(q: seq<Queued>, x: Queued)
    requires QueueOk(q)
    requires forall y | y in q :: y.id != x.id && y.order != x.order
    ensures QueueOk(Push(q, x))
  {
    if q == [] || Before(x, q[0]) {
      var r := [x] + q;
      forall i, j | 0 <= i < j < |r|
        ensures Before(r[i], r[j]) && r[i].id != r[j].id && r[i].order != r[j].order
      {
        assert r[j] == q[j - 1] && r[j] in q;
        if i > 0 {
          assert r[i] == q[i - 1];
        }
      }
    } else {
      var rest := Push(q[1..], x);
      PushKeepsOrder(q[1..], x);
      PushContents(q[1..], x);
      var r := [q[0]] + rest;
      forall i, j | 0 <= i < j < |r|
        ensures Before(r[i], r[j]) && r[i].id != r[j].id && r[i].order != r[j].order
      {
        assert r[j] == rest[j - 1] && r[j] in rest;
        if i == 0 {
          assert q[0] in q;
          if r[j] != x {
            var k :| 0 <= k < |q[1..]| && q[1..][k] == r[j];
            assert q[k + 1] == r[j];
          }
        }
      }
    }
  }

  /** The first element of a queue is its least, and leaves a queue behind. */
  lemma PopQueue(q: seq<Queued>)
    requires QueueOk(q) && q != []
    ensures QueueOk(q[1..])
    ensures forall y | y in q :: y == q[0] || Before(q[0], y)
    ensures IdsOf(q[1..]) == IdsOf(q) - {q[0].id} && q[0].id in IdsOf(q)
    ensures forall c :: KeysOf(c, q[1..]) == KeysOf(c, q) - {(c, q[0].order)} && (c, q[0].order) in KeysOf(c, q)
    ensures Bytes(q) == q[0].bytes + Bytes(q[1..])
    ensures forall y | y in q[1..] :: y in q
  {
    assert forall y | y in q[1..] :: y in q && y.id != q[0].id && y.order != q[0].order;
    assert q == [q[0]] + q[1..];
    forall c ensures KeysOf(c, q[1..]) == KeysOf(c, q) - {(c, q[0].order)} {
    }
  }

  // ---------------------------------------------------------------- the invariant

  /** The id set, the key set, the count and the byte total describe the five queues. */
  ghost predicate BooksOk(s: Scheduler) {
    && QueueOk(s.resume) && QueueOk(s.admission) && QueueOk(s.candidates) && QueueOk(s.admitted) && QueueOk(s.cleaner)
    && IdsOf(s.resume) !! IdsOf(s.admission) !! IdsOf(s.candidates) !! IdsOf(s.admitted) !! IdsOf(s.cleaner)
    && s.ids == IdsOf(s.resume) + IdsOf(s.admission) + IdsOf(s.candidates) + IdsOf(s.admitted) + IdsOf(s.cleaner)
    && KeysOf(PublicationWrite, s.candidates) !! KeysOf(PublicationWrite, s.admitted)
    && s.keys == KeysOf(ResumeRead, s.resume) + KeysOf(AdmissionRead, s.admission)
                 + KeysOf(PublicationWrite, s.candidates) + KeysOf(PublicationWrite, s.admitted)
                 + KeysOf(CleanerWrite, s.cleaner)
    && s.count == |s.resume| + |s.admission| + |s.candidates| + |s.admitted| + |s.cleaner|
    && s.readBytes == Bytes(s.resume) + Bytes(s.admission)
  }

  ghost predicate SizesOk(q: seq<Queued>, limit: nat) {
    forall x | x in q :: 0 < x.bytes <= limit
  }

  /** The three byte counters stay within their limits; a fresh admission has not been charged. */
  ghost predicate CountersOk(s: Scheduler) {
    && SizesOk(s.resume, s.config.maxRead) && SizesOk(s.admission, s.config.maxRead)
    && s.resumeWaited <= s.config.resumeLimit
    && s.candidateWaited <= s.config.admissionLimit
    && s.admittedWaited <= s.config.serviceLimit
    && (s.admittedSinceService ==> s.admitted != [] && s.candidateWaited == 0)
  }

  ghost predicate Valid(s: Scheduler) {
    CheckConfig(s.config).Ok? && BooksOk(s) && CountersOk(s)
  }

  lemma NewIsValid(c: Config)
    requires New(c).Ok?
    ensures Valid(New(c).value)
  {
  }

  // ---------------------------------------------------------------- arrivals

  lemma PushSets(q: seq<Queued>, x: Queued)
    ensures IdsOf(Push(q, x)) == IdsOf(q) + {x.id}
    ensures forall c :: KeysOf(c, Push(q, x)) == KeysOf(c, q) + {(c, x.order)}
  {
    PushContents(q, x);
    hide Push;
    assert x in Push(q, x);
    forall y | y in q ensures y.id in IdsOf(Push(q, x)) {
      assert y in Push(q, x);
    }
    forall c ensures KeysOf(c, Push(q, x)) == KeysOf(c, q) + {(c, x.order)} {
      forall y | y in q ensures (c, y.order) in KeysOf(c, Push(q, x)) {
        assert y in Push(q, x);
      }
    }
  }

  /** What a push onto one of the queues of a consistent scheduler does to that queue. */
  lemma PushFacts(q: seq<Queued>, x: Queued, c: IoClass)
    requires QueueOk(q) && x.id !in IdsOf(q) && (c, x.order) !in KeysOf(c, q)
    ensures QueueOk(Push(q, x)) && |Push(q, x)| == |q| + 1 && Bytes(Push(q, x)) == Bytes(q) + x.bytes
    ensures IdsOf(Push(q, x)) == IdsOf(q) + {x.id} && KeysOf(c, Push(q, x)) == KeysOf(c, q) + {(c, x.order)}
    ensures forall limit: nat :: SizesOk(Push(q, x), limit) <==> SizesOk(q, limit) && 0 < x.bytes <= limit
  {
    hide Push, Before, SizesOk;
    PushContents(q, x);
    PushSets(q, x);
    assert forall y | y in q :: y.id in IdsOf(q) && (c, y.order) in KeysOf(c, q);
    PushKeepsOrder(q, x);
    PushSizes(q, x);
  }

  lemma PushSizes(q: seq<Queued>, x: Queued)
    ensures forall limit: nat :: SizesOk(Push(q, x), limit) <==> SizesOk(q, limit) && 0 < x.bytes <= limit
  {
    hide Push, Before;
    PushContents(q, x);
    forall limit: nat ensures SizesOk(Push(q, x), limit) <==> SizesOk(q, limit) && 0 < x.bytes <= limit {
    }
  }

  lemma InsertKeepsValid(s: Scheduler, c: Command)
    requires Valid(s) && Insert(s, c).Ok?
    ensures Valid(Insert(s, c).value)
  {
    hide Push, QueueOk, Bytes, IdsOf, KeysOf, SizesOk, CheckConfig;
    var x := Queued(c.order, c.id, c.bytes);
    match c.class_
    case ResumeRead => PushFacts(s.resume, x, ResumeRead);
    case AdmissionRead => PushFacts(s.admission, x, AdmissionRead);
    case PublicationWrite => PushFacts(s.candidates, x, PublicationWrite);
    case CleanerWrite => PushFacts(s.cleaner, x, CleanerWrite);
  }

  // ---------------------------------------------------------------- service

  lemma KeysAreOfClass(s: Scheduler)
    ensures forall k | k in KeysOf(ResumeRead, s.resume) :: k.0.ResumeRead?
    ensures forall k | k in KeysOf(AdmissionRead, s.admission) :: k.0.AdmissionRead?
    ensures forall k | k in KeysOf(PublicationWrite, s.candidates) + KeysOf(PublicationWrite, s.admitted) :: k.0.PublicationWrite?
    ensures forall k | k in KeysOf(CleanerWrite, s.cleaner) :: k.0.CleanerWrite?
  {
  }

  lemma PopFacts(q: seq<Queued>, c: IoClass)
    requires QueueOk(q) && q != []
    ensures QueueOk(q[1..]) && Bytes(q) == q[0].bytes + Bytes(q[1..])
    ensures IdsOf(q[1..]) == IdsOf(q) - {q[0].id} && q[0].id in IdsOf(q)
    ensures KeysOf(c, q[1..]) == KeysOf(c, q) - {(c, q[0].order)} && (c, q[0].order) in KeysOf(c, q)
    ensures forall limit: nat | SizesOk(q, limit) :: SizesOk(q[1..], limit) && 0 < q[0].bytes <= limit
  {
    PopQueue(q);
    assert q[0] in q;
  }

  /** Taking a command out of a nonempty queue never fails and keeps the books. */
  lemma PopKeepsBooks(s: Scheduler, c: IoClass)
    requires BooksOk(s) && ServiceQueue(s, c) != []
    ensures PopService(s, c).Ok? && BooksOk(PopService(s, c).value.0)
    ensures PopService(s, c).value.1 == ToCommand(ServiceQueue(s, c)[0], c)
  {
    hide QueueOk, Bytes, IdsOf, KeysOf;
    PopFacts(ServiceQueue(s, c), c);
    KeysAreOfClass(s);
  }

  lemma ServeReadKeepsValid(s: Scheduler, r: Resources, c: IoClass)
    requires Valid(s) && IsRead(c) && ServiceQueue(s, c) != []
    ensures ServeRead(s, r, c).Ok? && Valid(ServeRead(s, r, c).value.scheduler) && ServeRead(s, r, c).value.resources == r
    ensures ServeRead(s, r, c).value.decision == Some(Service(ToCommand(ServiceQueue(s, c)[0], c)))
  {
    hide QueueOk, Bytes, IdsOf, KeysOf, CheckConfig;
    PopKeepsBooks(s, c);
    PopFacts(ServiceQueue(s, c), c);
  }

  lemma ServePublicationKeepsValid(s: Scheduler, r: Resources)
    requires Valid(s) && s.admitted != []
    ensures ServePublication(s, r).Ok? && Valid(ServePublication(s, r).value.scheduler)
    ensures ServePublication(s, r).value.resources == r
    ensures ServePublication(s, r).value.decision == Some(Service(ToCommand(s.admitted[0], PublicationWrite)))
  {
    hide QueueOk, Bytes, IdsOf, KeysOf, CheckConfig;
    PopKeepsBooks(s, PublicationWrite);
  }

  lemma AdmitKeepsValid(s: Scheduler, r: Resources)
    requires Valid(s) && s.candidates != [] && CanReserve(s.config, r)
    ensures Valid(AdmitPublication(s, r).scheduler)
    ensures |AdmitPublication(s, r).scheduler.admitted| == |s.admitted| + 1
  {
    hide QueueOk, Bytes, IdsOf, KeysOf, SizesOk, CheckConfig, Push;
    PopFacts(s.candidates, PublicationWrite);
    PushFacts(s.admitted, s.candidates[0], PublicationWrite);
    PushContents(s.admitted, s.candidates[0]);
  }

  lemma CleanerKeepsValid(s: Scheduler)
    requires Valid(s) && s.cleaner != []
    ensures PopService(s, CleanerWrite).Ok?
    ensures Valid(PopService(s, CleanerWrite).value.0.(admittedSinceService := false))
  {
    hide QueueOk, Bytes, IdsOf, KeysOf, SizesOk, CheckConfig;
    PopKeepsBooks(s, CleanerWrite);
  }

  /** A scheduling call fails only when the caller reports more resources than exist. */
  lemma NextKeepsValid(s: Scheduler, r: Resources)
    requires Valid(s)
    ensures Next(s, r).Ok? ==> Valid(Next(s, r).value.scheduler)
    ensures Next(s, r).Err? <==>
            r.buffers > s.config.totalBuffers || r.descriptors > s.config.totalDescriptors || r.cq > s.config.totalCq
    ensures Next(s, r).Err? ==> Next(s, r).error == BadResources
  {
    hide BooksOk, CountersOk, CheckConfig, ServeRead, ServePublication, AdmitPublication, PopService;
    if s.admission != [] { ServeReadKeepsValid(s, r, AdmissionRead); }
    if s.resume != [] { ServeReadKeepsValid(s, r, ResumeRead); }
    if s.admitted != [] { ServePublicationKeepsValid(s, r); }
    if s.candidates != [] && CanReserve(s.config, r) { AdmitKeepsValid(s, r); }
    if s.cleaner != [] { CleanerKeepsValid(s); }
  }
}
