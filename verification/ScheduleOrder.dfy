/** What the scheduler accepts, what it decides, and how long a class must wait before it overtakes
    another (direct_schedule.rs). */
module ScheduleOrder {
  import opened Collections
  import opened ScheduleModel
  import opened ScheduleInvariant
  import opened ScheduleFairness

  // ---------------------------------------------------------------- order

  /** Earlier epoch first; within it by owner, page and operation; then by command number. */
  ghost predicate Comes(x: Queued, y: Queued) {
    var a, b := x.order, y.order;
    || a.epoch < b.epoch
    || (a.epoch == b.epoch && a.owner < b.owner)
    || (a.epoch == b.epoch && a.owner == b.owner && a.page < b.page)
    || (a.epoch == b.epoch && a.owner == b.owner && a.page == b.page && a.operation < b.operation)
    || (a == b && x.id < y.id)
  }

  /** What a queue gives first comes before everything else in it. */
  lemma FirstComesFirst(q: seq<Queued>, y: Queued)
    requires QueueOk(q) && q != [] && y in q && y != q[0]
    ensures Comes(q[0], y)
  {
    PopQueue(q);
    var i :| 0 <= i < |q| && q[i] == y;
    assert Before(q[0], q[i]) && q[0].order != q[i].order;
  }

  // ---------------------------------------------------------------- arrivals

  /** Nothing that waits has this number. */
  ghost predicate NewNumber(s: Scheduler, id: nat) {
    forall x | x in s.resume + s.admission + s.candidates + s.admitted + s.cleaner :: x.id != id
  }

  /** Nothing of its class that waits has this place in the order. */
  ghost predicate NewPlace(s: Scheduler, c: IoClass, order: OrderKey) {
    var q := match c
             case ResumeRead => s.resume
             case AdmissionRead => s.admission
             case PublicationWrite => s.candidates + s.admitted
             case CleanerWrite => s.cleaner;
    forall x | x in q :: x.order != order
  }

  lemma NumbersExactly(s: Scheduler, id: nat)
    requires BooksOk(s)
    ensures id in s.ids <==> !NewNumber(s, id)
  {
  }

  lemma PlacesExactly(s: Scheduler, c: IoClass, order: OrderKey)
    requires BooksOk(s)
    ensures (c, order) in s.keys <==> !NewPlace(s, c, order)
  {
    hide QueueOk, IdsOf;
  }

  /** A command is accepted exactly when it is well formed, there is room, its number and its place are
      new, and a read is within the size limit. */
  lemma ArrivalsExactly(s: Scheduler, c: Command)
    requires Valid(s)
    ensures Insert(s, c).Ok? <==>
            && c.id > 0 && c.order.epoch > 0 && c.order.owner > 0 && c.bytes > 0
            && |s.resume| + |s.admission| + |s.candidates| + |s.admitted| + |s.cleaner| < s.config.maxQueued
            && NewNumber(s, c.id) && NewPlace(s, c.class_, c.order)
            && (c.class_.ResumeRead? || c.class_.AdmissionRead? ==>
                  c.bytes <= s.config.maxRead && Bytes(s.resume) + Bytes(s.admission) + c.bytes <= MAX_U64)
    ensures EnqueueReady(s, c) == if c.class_.PublicationWrite? then Err(NeedsAdmission) else Insert(s, c)
    ensures OfferPublication(s, c) == if c.class_.PublicationWrite? then Insert(s, c) else Err(BadClass)
  {
    hide NewNumber, NewPlace, QueueOk, IdsOf, KeysOf, Enqueued, CheckConfig;
    NumbersExactly(s, c.id);
    PlacesExactly(s, c.class_, c.order);
  }

  /** An accepted command joins the queue of its class, and no other queue changes. */
  lemma ArrivalJoins(s: Scheduler, c: Command)
    requires Insert(s, c).Ok?
    ensures var u, x := Insert(s, c).value, Queued(c.order, c.id, c.bytes);
            && (forall y :: y in u.resume <==> y in s.resume || (c.class_.ResumeRead? && y == x))
            && (forall y :: y in u.admission <==> y in s.admission || (c.class_.AdmissionRead? && y == x))
            && (forall y :: y in u.candidates <==> y in s.candidates || (c.class_.PublicationWrite? && y == x))
            && (forall y :: y in u.cleaner <==> y in s.cleaner || (c.class_.CleanerWrite? && y == x))
            && u.admitted == s.admitted && u.admittedWaited == s.admittedWaited && u.config == s.config
  {
    hide Push, CheckArrival;
    var x := Queued(c.order, c.id, c.bytes);
    PushContents(s.resume, x);
    PushContents(s.admission, x);
    PushContents(s.candidates, x);
    PushContents(s.cleaner, x);
  }

  // ---------------------------------------------------------------- decisions

  /** The read whose turn it is: a resume read, unless an admission read has waited for so many resume
      bytes that this one would pass the limit. */
  predicate ReadIs(s: Scheduler, c: IoClass, x: Queued) {
    var waits := s.admission != [] && s.resume != []
                 && (s.resumeWaited >= s.config.resumeLimit || s.resumeWaited + s.resume[0].bytes > s.config.resumeLimit);
    || (c.ResumeRead? && s.resume != [] && x == s.resume[0] && !waits)
    || (c.AdmissionRead? && s.admission != [] && x == s.admission[0] && (waits || s.resume == []))
  }

  /** So many read bytes have been served that the next read would pass the limit, or there is none. */
  ghost predicate ReadsHaveHadTheirs(s: Scheduler, waited: nat, limit: nat) {
    || waited >= limit
    || exists c, x :: ReadIs(s, c, x) && waited + x.bytes > limit
  }

  predicate NoReads(s: Scheduler) {
    s.resume == [] && s.admission == []
  }

  /** An admitted publication is written when no read waits or the reads have had their bytes. */
  ghost predicate Writes(s: Scheduler) {
    s.admitted != [] && (NoReads(s) || ReadsHaveHadTheirs(s, s.admittedWaited, s.config.serviceLimit))
  }

  /** A candidate is admitted when nothing was admitted since the last service, the resources above the
      read reserve suffice, and reads are few or have had their bytes. */
  ghost predicate Takes(s: Scheduler, r: Resources) {
    && s.candidates != [] && !s.admittedSinceService
    && r.buffers > s.config.reservedBuffers && r.descriptors > s.config.reservedDescriptors && r.cq >= s.config.reservedCq + 2
    && (Bytes(s.resume) + Bytes(s.admission) <= s.config.readHigh
        || ReadsHaveHadTheirs(s, s.candidateWaited, s.config.admissionLimit))
  }

  ghost predicate Cleans(s: Scheduler) {
    && NoReads(s) && s.cleaner != []
    && |s.candidates| + |s.admitted| <= s.config.publicationLow
  }

  function Names(c: IoClass, x: Queued): Command {
    Command(x.id, c, x.order, x.bytes)
  }

  lemma TurnExactly(s: Scheduler, waited: nat, limit: nat)
    ensures NextRead(s).None? <==> NoReads(s)
    ensures forall c, x | ReadIs(s, c, x) :: NextRead(s) == Some(x.bytes)
    ensures ReadWouldExceed(s, waited, limit) <==> ReadsHaveHadTheirs(s, waited, limit)
  {
    if AdmissionReadDue(s) {
      assert ReadIs(s, AdmissionRead, s.admission[0]);
    } else if s.resume != [] {
      assert ReadIs(s, ResumeRead, s.resume[0]);
    }
  }

  /** The decision, in order of precedence: an admitted publication, an admission, the read whose turn it
      is, and cleaning when nothing else waits. */
  lemma DecidesExactly(s: Scheduler, r: Resources)
    requires Valid(s) && r.buffers <= s.config.totalBuffers && r.descriptors <= s.config.totalDescriptors && r.cq <= s.config.totalCq
    ensures Next(s, r).Ok?
    ensures var d := Next(s, r).value.decision;
            && (Writes(s) ==> d == Some(Service(Names(PublicationWrite, s.admitted[0]))))
            && (!Writes(s) && Takes(s, r) ==> d == Some(Admitted(Names(PublicationWrite, s.candidates[0]))))
            && (!Writes(s) && !Takes(s, r) ==>
                  && (forall c, x | ReadIs(s, c, x) :: d == Some(Service(Names(c, x))))
                  && (Cleans(s) ==> d == Some(Service(Names(CleanerWrite, s.cleaner[0]))))
                  && (NoReads(s) && !Cleans(s) ==> d.None?))
  {
    hide QueueOk, IdsOf, KeysOf, CountersOk, CheckConfig, ReadsHaveHadTheirs, RecordRead, Push;
    NextKeepsValid(s, r);
    TurnExactly(s, s.admittedWaited, s.config.serviceLimit);
    TurnExactly(s, s.candidateWaited, s.config.admissionLimit);
    if NoReads(s) {
      EmptyBytes(s);
    }
    hide BooksOk, ReadWouldExceed;
  }

  /** Only the queue that is served or admitted from loses its first command. */
  lemma DecisionTakes(s: Scheduler, r: Resources)
    requires Valid(s) && Next(s, r).Ok?
    ensures var d, u := Next(s, r).value.decision, Next(s, r).value.scheduler;
            if d.None? then u == s
            else if d.value.Admitted? then
              && s.candidates != [] && u.candidates == s.candidates[1..]
              && (forall y :: y in u.admitted <==> y in s.admitted || y == s.candidates[0])
              && u.resume == s.resume && u.admission == s.admission && u.cleaner == s.cleaner
            else
              var c := d.value.command.class_;
              && (if c.ResumeRead? then s.resume != [] && u.resume == s.resume[1..] else u.resume == s.resume)
              && (if c.AdmissionRead? then s.admission != [] && u.admission == s.admission[1..] else u.admission == s.admission)
              && (if c.PublicationWrite? then s.admitted != [] && u.admitted == s.admitted[1..] else u.admitted == s.admitted)
              && (if c.CleanerWrite? then s.cleaner != [] && u.cleaner == s.cleaner[1..] else u.cleaner == s.cleaner)
              && u.candidates == s.candidates
  {
    hide Valid, Push;
    if s.candidates != [] {
      PushContents(s.admitted, s.candidates[0]);
    }
  }

  // ---------------------------------------------------------------- nobody overtakes early

  /** A step charges the waiting classes no more than the reads it serves. */
  lemma StepCharges(s: Scheduler, e: Event)
    requires Valid(s)
    ensures var u := Step(s, e);
            && u.resumeWaited <= s.resumeWaited + BytesServed(s, e, ResumeRead)
            && u.admittedWaited <= s.admittedWaited + ReadBytesServed(s, e)
            && u.candidateWaited <= s.candidateWaited + ReadBytesServed(s, e)
  {
    hide Valid, CheckArrival, Push, Next;
    if e.Call? {
      CallCharges(s, e.resources);
    }
  }

  lemma CallCharges(s: Scheduler, r: Resources)
    ensures var u := Step(s, Call(r));
            && u.resumeWaited <= s.resumeWaited + BytesServed(s, Call(r), ResumeRead)
            && u.admittedWaited <= s.admittedWaited + ReadBytesServed(s, Call(r))
            && u.candidateWaited <= s.candidateWaited + ReadBytesServed(s, Call(r))
  {
    hide Push, AdmissionReadDue, PublicationServiceDue, PublicationAdmissionDue, CanReserve, CleanerDue;
  }

  lemma {:induction false} RunCharges(s: Scheduler, events: seq<Event>)
    requires Valid(s)
    ensures var u := Run(s, events);
            && u.resumeWaited <= s.resumeWaited + ResumeBytes(s, events)
            && u.admittedWaited <= s.admittedWaited + ReadBytes(s, events)
            && u.candidateWaited <= s.candidateWaited + ReadBytes(s, events)
    decreases |events|
  {
    hide Valid, Step, BytesServed, ReadBytesServed;
    if events != [] {
      StepKeepsValid(s, events[0]);
      StepCharges(s, events[0]);
      RunCharges(Step(s, events[0]), events[1..]);
    }
  }

  /** Serving a class, or admitting, starts its count anew. */
  lemma ServiceResets(s: Scheduler, e: Event)
    requires Valid(s)
    ensures Serves(s, e, AdmissionRead) ==> Step(s, e).resumeWaited == 0
    ensures Serves(s, e, PublicationWrite) ==> Step(s, e).admittedWaited == 0
    ensures Admits(s, e) ==> Step(s, e).candidateWaited == 0
  {
    hide BooksOk, CountersOk, CheckConfig, CheckArrival, Push, Valid;
  }

  lemma TurnSizes(s: Scheduler, c: IoClass, x: Queued)
    requires Valid(s) && ReadIs(s, c, x)
    ensures x.bytes <= s.config.maxRead
  {
    hide BooksOk, CheckConfig, SizesOk;
    HeadSizes(s);
  }

  /** An admission read overtakes a waiting resume read only when, since the last admission read, resume
      reads have been served up to one read below their limit. */
  lemma AdmissionReadsWaitTheirTurn(c: Config, history: seq<Event>, first: Event, between: seq<Event>, second: Event)
    requires New(c).Ok?
    requires var s := Run(New(c).value, history);
             && Serves(s, first, AdmissionRead)
             && var t := Run(Step(s, first), between);
             Serves(t, second, AdmissionRead) && t.resume != []
    ensures ResumeBytes(Step(Run(New(c).value, history), first), between) + c.maxRead > c.resumeLimit
  {
    hide Valid, Step, Serves, ResumeBytes, Run;
    var s := Run(New(c).value, history);
    Reached(c, history, first, between);
    ServiceResets(s, first);
    RunCharges(Step(s, first), between);
    AdmissionReadNeeds(Run(Step(s, first), between), second);
  }

  lemma Reached(c: Config, history: seq<Event>, first: Event, between: seq<Event>)
    requires New(c).Ok?
    ensures var s := Run(New(c).value, history);
            && Valid(s) && Valid(Step(s, first)) && Valid(Run(Step(s, first), between))
            && s.config == Step(s, first).config == Run(Step(s, first), between).config == c
  {
    hide Valid, Step, Run;
    NewIsValid(c);
    RunKeepsValid(New(c).value, history);
    StepKeepsValid(Run(New(c).value, history), first);
    RunKeepsValid(Step(Run(New(c).value, history), first), between);
  }

  lemma AdmissionReadNeeds(s: Scheduler, e: Event)
    requires Valid(s) && Serves(s, e, AdmissionRead) && s.resume != []
    ensures s.resumeWaited + s.config.maxRead > s.config.resumeLimit
  {
    hide Valid, ReadsHaveHadTheirs, Next, Bytes, Takes, Writes, Cleans;
    SizedResume(s);
    OnlyRead(s, e.resources, AdmissionRead);
  }

  lemma SizedResume(s: Scheduler)
    requires Valid(s)
    ensures s.resume != [] ==> s.resume[0].bytes <= s.config.maxRead
    ensures s.config.maxRead > 0
  {
    hide BooksOk, SizesOk;
    HeadSizes(s);
  }

  /** Whatever read is served had its turn. */
  lemma OnlyRead(s: Scheduler, r: Resources, c: IoClass)
    requires Valid(s) && Serves(s, Call(r), c) && IsRead(c)
    ensures !NoReads(s) && exists x :: ReadIs(s, c, x)
  {
    hide Valid, ReadsHaveHadTheirs, Bytes, BooksOk;
    NextKeepsValid(s, r);
    DecidesExactly(s, r);
    if !NoReads(s) {
      SomeTurn(s);
    }
    hide Next;
  }

  lemma SomeTurn(s: Scheduler)
    requires !NoReads(s)
    ensures exists c, x :: ReadIs(s, c, x) && IsRead(c)
  {
    if s.resume != [] && ReadIs(s, ResumeRead, s.resume[0]) {
    } else {
      assert ReadIs(s, AdmissionRead, s.admission[0]);
    }
  }

  /** A publication is written while reads wait only when, since the last one, reads have been served up
      to one read below their limit. */
  lemma PublicationsWaitTheirTurn(c: Config, history: seq<Event>, first: Event, between: seq<Event>, second: Event)
    requires New(c).Ok?
    requires var s := Run(New(c).value, history);
             && Serves(s, first, PublicationWrite)
             && var t := Run(Step(s, first), between);
             Serves(t, second, PublicationWrite) && !NoReads(t)
    ensures ReadBytes(Step(Run(New(c).value, history), first), between) + c.maxRead > c.serviceLimit
  {
    hide Valid, Step, Serves, ReadBytes, Run;
    var s := Run(New(c).value, history);
    Reached(c, history, first, between);
    ServiceResets(s, first);
    RunCharges(Step(s, first), between);
    PublicationNeeds(Run(Step(s, first), between), second);
  }

  lemma PublicationNeeds(s: Scheduler, e: Event)
    requires Valid(s) && Serves(s, e, PublicationWrite) && !NoReads(s)
    ensures s.admittedWaited + s.config.maxRead > s.config.serviceLimit
  {
    hide Valid, Bytes, BooksOk;
    SizedResume(s);
    NextKeepsValid(s, e.resources);
    DecidesExactly(s, e.resources);
    SomeTurn(s);
    forall c, x | ReadIs(s, c, x) ensures x.bytes <= s.config.maxRead {
      TurnSizes(s, c, x);
    }
    hide Next;
  }

  /** A candidate is admitted above the high-water mark only when, since the last admission, reads have
      been served up to one read below their limit. */
  lemma CandidatesWaitTheirTurn(c: Config, history: seq<Event>, first: Event, between: seq<Event>, second: Event)
    requires New(c).Ok?
    requires var s := Run(New(c).value, history);
             && Admits(s, first)
             && var t := Run(Step(s, first), between);
             Admits(t, second) && Bytes(t.resume) + Bytes(t.admission) > c.readHigh
    ensures ReadBytes(Step(Run(New(c).value, history), first), between) + c.maxRead > c.admissionLimit
  {
    hide Valid, Step, Admits, ReadBytes, Run;
    var s := Run(New(c).value, history);
    Reached(c, history, first, between);
    ServiceResets(s, first);
    RunCharges(Step(s, first), between);
    CandidateNeeds(Run(Step(s, first), between), second);
  }

  lemma CandidateNeeds(s: Scheduler, e: Event)
    requires Valid(s) && Admits(s, e) && Bytes(s.resume) + Bytes(s.admission) > s.config.readHigh
    ensures s.candidateWaited + s.config.maxRead > s.config.admissionLimit
  {
    hide Valid, Bytes, BooksOk;
    SizedResume(s);
    NextKeepsValid(s, e.resources);
    DecidesExactly(s, e.resources);
    if !NoReads(s) {
      SomeTurn(s);
    }
    forall c, x | ReadIs(s, c, x) ensures x.bytes <= s.config.maxRead {
      TurnSizes(s, c, x);
    }
    hide Next;
  }
}
