/** Nothing that waits in the scheduler starves: exact byte bounds over every run. */
module ScheduleFairness {
  import opened Collections
  import opened ScheduleModel
  import opened ScheduleInvariant

  /** What can happen to a scheduler: work becomes ready, a publication is offered, or the
      caller asks for the next decision. */
  datatype Event = Ready(command: Command) | Offer(command: Command) | Call(resources: Resources)

  function Step(s: Scheduler, e: Event): Scheduler {
    match e
    case Ready(c) => var r := EnqueueReady(s, c); if r.Ok? then r.value else s
    case Offer(c) => var r := OfferPublication(s, c); if r.Ok? then r.value else s
    case Call(resources) => var r := Next(s, resources); if r.Ok? then r.value.scheduler else s
  }

  function DecisionAt(s: Scheduler, e: Event): Option<Decision> {
    if e.Call? && Next(s, e.resources).Ok? then Next(s, e.resources).value.decision else None
  }

  function Run(s: Scheduler, events: seq<Event>): Scheduler
    decreases |events|
  {
    if events == [] then s else Run(Step(s, events[0]), events[1..])
  }

  predicate Serves(s: Scheduler, e: Event, c: IoClass) {
    DecisionAt(s, e).Some? && DecisionAt(s, e).value.Service? && DecisionAt(s, e).value.command.class_ == c
  }

  predicate Admits(s: Scheduler, e: Event) {
    DecisionAt(s, e).Some? && DecisionAt(s, e).value.Admitted?
  }

  function BytesServed(s: Scheduler, e: Event, c: IoClass): nat {
    if Serves(s, e, c) then DecisionAt(s, e).value.command.bytes else 0
  }

  function ReadBytesServed(s: Scheduler, e: Event): nat {
    BytesServed(s, e, ResumeRead) + BytesServed(s, e, AdmissionRead)
  }

  lemma StepKeepsValid(s: Scheduler, e: Event)
    requires Valid(s)
    ensures Valid(Step(s, e)) && Step(s, e).config == s.config
  {
    hide Valid, Insert, Next;
    match e
    case Ready(c) => if Insert(s, c).Ok? { InsertKeepsValid(s, c); InsertConfig(s, c); }
    case Offer(c) => if Insert(s, c).Ok? { InsertKeepsValid(s, c); InsertConfig(s, c); }
    case Call(r) => NextKeepsValid(s, r); NextConfig(s, r);
  }

  lemma InsertConfig(s: Scheduler, c: Command)
    ensures Insert(s, c).Ok? ==> Insert(s, c).value.config == s.config
  {
  }

  lemma NextConfig(s: Scheduler, r: Resources)
    ensures Next(s, r).Ok? ==> Next(s, r).value.scheduler.config == s.config
  {
  }

  lemma {:induction false} RunKeepsValid(s: Scheduler, events: seq<Event>)
    requires Valid(s)
    ensures Valid(Run(s, events)) && Run(s, events).config == s.config
    decreases |events|
  {
    hide Valid, Step;
    if events != [] {
      StepKeepsValid(s, events[0]);
      RunKeepsValid(Step(s, events[0]), events[1..]);
    }
  }

  // ---------------------------------------------------------------- admission reads

  /** An admission read waits throughout, and none is served. */
  predicate AdmissionReadWaits(s: Scheduler, events: seq<Event>)
    decreases |events|
  {
    && s.admission != []
    && (events != [] ==> !Serves(s, events[0], AdmissionRead) && AdmissionReadWaits(Step(s, events[0]), events[1..]))
  }

  function ResumeBytes(s: Scheduler, events: seq<Event>): nat
    decreases |events|
  {
    if events == [] then 0 else BytesServed(s, events[0], ResumeRead) + ResumeBytes(Step(s, events[0]), events[1..])
  }

  /** While an admission read waits, the counter takes the full size of every resume read. */
  lemma ResumeCounterIsExact(s: Scheduler, e: Event)
    requires Valid(s) && s.admission != [] && !Serves(s, e, AdmissionRead) && Step(s, e).admission != []
    ensures Step(s, e).resumeWaited == s.resumeWaited + BytesServed(s, e, ResumeRead)
  {
    hide BooksOk, SizesOk, CheckConfig, Push, CheckArrival;
  }

  lemma {:induction false} ResumeCounterAdds(s: Scheduler, events: seq<Event>)
    requires Valid(s) && AdmissionReadWaits(s, events)
    ensures Run(s, events).resumeWaited == s.resumeWaited + ResumeBytes(s, events)
    decreases |events|
  {
    hide Valid, Step, Serves;
    if events != [] {
      StepKeepsValid(s, events[0]);
      ResumeCounterIsExact(s, events[0]);
      ResumeCounterAdds(Step(s, events[0]), events[1..]);
    }
  }

  /** Under any arrivals, the resume bytes served while an admission read waits, since the wait
      began or the last admission read was served, never exceed the configured limit. */
  lemma AdmissionReadsAreNotStarved(c: Config, history: seq<Event>, waiting: seq<Event>)
    requires New(c).Ok?
    requires AdmissionReadWaits(Run(New(c).value, history), waiting)
    ensures ResumeBytes(Run(New(c).value, history), waiting) <= c.resumeLimit
  {
    hide Step, ResumeBytes, AdmissionReadWaits, BooksOk, CheckConfig;
    NewIsValid(c);
    var s := Run(New(c).value, history);
    RunKeepsValid(New(c).value, history);
    ResumeCounterAdds(s, waiting);
    RunKeepsValid(s, waiting);
  }

  // ---------------------------------------------------------------- publications

  function ReadBytes(s: Scheduler, events: seq<Event>): nat
    decreases |events|
  {
    if events == [] then 0 else ReadBytesServed(s, events[0]) + ReadBytes(Step(s, events[0]), events[1..])
  }

  /** An admitted publication waits throughout, and none is served. */
  predicate PublicationWaits(s: Scheduler, events: seq<Event>)
    decreases |events|
  {
    && s.admitted != []
    && (events != [] ==> !Serves(s, events[0], PublicationWrite) && PublicationWaits(Step(s, events[0]), events[1..]))
  }

  /** While an admitted publication waits, its counter takes the full size of every read. */
  lemma ServiceCounterIsExact(s: Scheduler, e: Event)
    requires Valid(s) && s.admitted != [] && !Serves(s, e, PublicationWrite)
    ensures Step(s, e).admittedWaited == s.admittedWaited + ReadBytesServed(s, e)
  {
    hide BooksOk, SizesOk, CheckConfig, CheckArrival, Push, Next;
    if e.Call? {
      CallCountsService(s, e.resources);
    }
  }

  lemma CallCountsService(s: Scheduler, r: Resources)
    requires Valid(s) && s.admitted != [] && !Serves(s, Call(r), PublicationWrite)
    ensures Step(s, Call(r)).admittedWaited == s.admittedWaited + ReadBytesServed(s, Call(r))
  {
    hide BooksOk, SizesOk, CheckConfig, Push, QueueOk;
    if s.candidates != [] {
      PushContents(s.admitted, s.candidates[0]);
    }
  }

  lemma {:induction false} ServiceCounterAdds(s: Scheduler, events: seq<Event>)
    requires Valid(s) && PublicationWaits(s, events)
    ensures Run(s, events).admittedWaited == s.admittedWaited + ReadBytes(s, events)
    decreases |events|
  {
    hide Valid, Step, Serves, ReadBytesServed;
    if events != [] {
      StepKeepsValid(s, events[0]);
      ServiceCounterIsExact(s, events[0]);
      ServiceCounterAdds(Step(s, events[0]), events[1..]);
    }
  }

  /** Under any arrivals, the read bytes served while an admitted publication waits, since the
      last one was served, never exceed the configured limit. */
  lemma PublicationsAreNotStarved(c: Config, history: seq<Event>, waiting: seq<Event>)
    requires New(c).Ok?
    requires PublicationWaits(Run(New(c).value, history), waiting)
    ensures ReadBytes(Run(New(c).value, history), waiting) <= c.serviceLimit
  {
    hide Step, ReadBytes, PublicationWaits, BooksOk, CheckConfig;
    NewIsValid(c);
    var s := Run(New(c).value, history);
    RunKeepsValid(New(c).value, history);
    ServiceCounterAdds(s, waiting);
    RunKeepsValid(s, waiting);
  }

  // ---------------------------------------------------------------- publication candidates

  /** The caller offers more than the read reserves, and no more than exists. */
  predicate Ample(c: Config, r: Resources) {
    CanReserve(c, r) && r.buffers <= c.totalBuffers && r.descriptors <= c.totalDescriptors && r.cq <= c.totalCq
  }

  /** A candidate waits throughout although every call could admit it, and none is admitted. */
  predicate CandidateWaits(s: Scheduler, events: seq<Event>)
    decreases |events|
  {
    && s.candidates != []
    && (events != [] ==>
          && !Admits(s, events[0])
          && (events[0].Call? ==> Ample(s.config, events[0].resources))
          && CandidateWaits(Step(s, events[0]), events[1..]))
  }

  lemma CandidateCounterIsExact(s: Scheduler, e: Event)
    requires Valid(s) && s.candidates != [] && !Admits(s, e)
    requires e.Call? ==> Ample(s.config, e.resources)
    ensures Step(s, e).candidateWaited == s.candidateWaited + ReadBytesServed(s, e)
  {
    hide BooksOk, Push, CheckArrival;
    HeadSizes(s);
    hide SizesOk;
  }

  lemma HeadSizes(s: Scheduler)
    requires CountersOk(s)
    ensures s.resume != [] ==> 0 < s.resume[0].bytes <= s.config.maxRead
    ensures s.admission != [] ==> 0 < s.admission[0].bytes <= s.config.maxRead
  {
    if s.resume != [] { assert s.resume[0] in s.resume; }
    if s.admission != [] { assert s.admission[0] in s.admission; }
  }

  lemma {:induction false} CandidateCounterAdds(s: Scheduler, events: seq<Event>)
    requires Valid(s) && CandidateWaits(s, events)
    ensures Run(s, events).candidateWaited == s.candidateWaited + ReadBytes(s, events)
    decreases |events|
  {
    hide Valid, Step, Admits, ReadBytesServed, Ample;
    if events != [] {
      StepKeepsValid(s, events[0]);
      CandidateCounterIsExact(s, events[0]);
      CandidateCounterAdds(Step(s, events[0]), events[1..]);
    }
  }

  /** When every call has resources above the read reserves, the read bytes served while
      candidates wait stay within the admission limit. */
  lemma CandidatesAreNotStarved(c: Config, history: seq<Event>, waiting: seq<Event>)
    requires New(c).Ok?
    requires CandidateWaits(Run(New(c).value, history), waiting)
    ensures ReadBytes(Run(New(c).value, history), waiting) <= c.admissionLimit
  {
    hide Step, ReadBytes, CandidateWaits, BooksOk, CheckConfig;
    NewIsValid(c);
    var s := Run(New(c).value, history);
    RunKeepsValid(New(c).value, history);
    CandidateCounterAdds(s, waiting);
    RunKeepsValid(s, waiting);
  }

  // ---------------------------------------------------------------- work conservation

  /** Admission leaves the read reserves untouched and takes exactly one lease. */
  lemma AdmissionKeepsReserves(s: Scheduler, r: Resources)
    requires Next(s, r).Ok?
    ensures var o := Next(s, r).value;
            if o.decision.Some? && o.decision.value.Admitted? then
              && o.resources == Resources(r.buffers - 1, r.descriptors - 1, r.cq - 2)
              && o.resources.buffers >= s.config.reservedBuffers
              && o.resources.descriptors >= s.config.reservedDescriptors
              && o.resources.cq >= s.config.reservedCq
            else o.resources == r
  {
  }

  /** Two steps for every candidate, one for every other queued command. */
  function Work(s: Scheduler): nat {
    |s.resume| + |s.admission| + 2 * |s.candidates| + |s.admitted| + |s.cleaner|
  }

  lemma EmptyBytes(s: Scheduler)
    requires BooksOk(s) && s.resume == [] && s.admission == []
    ensures s.readBytes == 0
  {
  }

  /** With ample resources the scheduler is work-conserving: it decides nothing exactly when all
      five queues are empty, and every decision is one unit of work. */
  lemma NextWorks(s: Scheduler, r: Resources)
    requires Valid(s) && Ample(s.config, r)
    ensures Next(s, r).Ok?
    ensures var o := Next(s, r).value;
            if o.decision.None? then Work(s) == 0 && o.scheduler == s else Work(o.scheduler) == Work(s) - 1
  {
    hide QueueOk, IdsOf, KeysOf, SizesOk, CheckConfig, Bytes;
    NextKeepsValid(s, r);
    if s.resume == [] && s.admission == [] { EmptyBytes(s); }
    if s.candidates != [] { PushContents(s.admitted, s.candidates[0]); }
    hide Push, BooksOk, Before;
  }

  function CallAll(resources: seq<Resources>): seq<Event> {
    seq(|resources|, i requires 0 <= i < |resources| => Call(resources[i]))
  }

  /** A drain without arrivals terminates: after as many ample calls as there are units of work,
      every queue is empty, and every one of those calls decided something. */
  lemma {:induction false} DrainTerminates(s: Scheduler, resources: seq<Resources>)
    requires Valid(s) && |resources| == Work(s)
    requires forall r | r in resources :: Ample(s.config, r)
    ensures Work(Run(s, CallAll(resources))) == 0
    ensures forall i | 0 <= i < |resources| :: DecisionAt(Run(s, CallAll(resources[..i])), Call(resources[i])).Some?
    decreases |resources|
  {
    hide Valid, Next, Ample;
    if resources != [] {
      var r, rest := resources[0], resources[1..];
      assert r in resources;
      NextWorks(s, r);
      NextKeepsValid(s, r);
      NextConfig(s, r);
      var t := Next(s, r).value.scheduler;
      assert CallAll(resources)[1..] == CallAll(rest);
      DrainTerminates(t, rest);
      forall i | 0 <= i < |resources|
        ensures DecisionAt(Run(s, CallAll(resources[..i])), Call(resources[i])).Some?
      {
        if i == 0 {
          assert CallAll(resources[..0]) == [];
        } else {
          assert resources[i] == rest[i - 1];
          assert CallAll(resources[..i])[1..] == CallAll(rest[..i - 1]);
        }
      }
    }
  }
}
