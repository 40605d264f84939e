/** The direct-I/O scheduler as a value (direct_schedule.rs).

    A min-heap is the sorted list of its elements. The 64-bit byte counters are naturals: every
    comparison and clamp is against a limit that fits 64 bits, so an addition that would wrap
    behaves like one that exceeds the limit. */
module ScheduleModel {
  import opened Collections

  const MAX_QUEUED_COMMANDS: nat := 65_536
  const PUBLICATION_CQ_ENTRIES: nat := 2
  const MAX_U32: nat := 0xFFFF_FFFF
  const MAX_U64: nat := 0xFFFF_FFFF_FFFF_FFFF

  datatype Error =
    | BadConfig
    | BadCommand
    | BadClass
    | NeedsAdmission
    | DuplicateCommand
    | DuplicateOrder
    | QueueFull
    | ReadTooLarge
    | BadResources
    | Overflow
    | BrokenInvariant

  datatype IoClass = ResumeRead | AdmissionRead | PublicationWrite | CleanerWrite

  datatype OrderKey = OrderKey(epoch: nat, owner: nat, page: nat, operation: nat)

  datatype Command = Command(id: nat, class_: IoClass, order: OrderKey, bytes: nat)

  datatype Queued = Queued(order: OrderKey, id: nat, bytes: nat)

  datatype Config = Config(
    maxQueued: nat,
    totalBuffers: nat,
    reservedBuffers: nat,
    totalDescriptors: nat,
    reservedDescriptors: nat,
    totalCq: nat,
    reservedCq: nat,
    readLow: nat,
    readHigh: nat,
    publicationLow: nat,
    maxRead: nat,
    resumeLimit: nat,
    admissionLimit: nat,
    serviceLimit: nat)

  datatype Resources = Resources(buffers: nat, descriptors: nat, cq: nat)

  datatype Decision = Admitted(command: Command) | Service(command: Command)

  datatype Scheduler = Scheduler(
    config: Config,
    resume: seq<Queued>,
    admission: seq<Queued>,
    candidates: seq<Queued>,
    admitted: seq<Queued>,
    cleaner: seq<Queued>,
    ids: set<nat>,
    keys: set<(IoClass, OrderKey)>,
    count: nat,
    readBytes: nat,
    resumeWaited: nat,
    candidateWaited: nat,
    admittedWaited: nat,
    admittedSinceService: bool)

  // ---------------------------------------------------------------- configuration

  function CheckConfig(c: Config): Result<(), Error> {
    if 2 * c.totalDescriptors > MAX_U32 || 2 * c.reservedDescriptors > MAX_U32 then Err(Overflow)
    else if c.maxQueued == 0 || c.maxQueued > MAX_QUEUED_COMMANDS
            || c.totalBuffers == 0 || c.reservedBuffers >= c.totalBuffers
            || c.totalDescriptors == 0 || c.reservedDescriptors >= c.totalDescriptors
            || c.totalCq != 2 * c.totalDescriptors || c.reservedCq != 2 * c.reservedDescriptors
            || c.reservedCq >= c.totalCq
            || c.readLow > c.readHigh || c.publicationLow > c.maxQueued || c.maxRead == 0
            || c.resumeLimit < c.maxRead || c.admissionLimit < c.maxRead || c.serviceLimit < c.maxRead then Err(BadConfig)
    else Ok(())
  }

  function New(c: Config): Result<Scheduler, Error> {
    var _ :- CheckConfig(c);
    Ok(Scheduler(c, [], [], [], [], [], {}, {}, 0, 0, 0, 0, 0, false))
  }

  // ---------------------------------------------------------------- queues

  /** The order of the heaps: by order key, then id, then bytes. */
  predicate Before(x: Queued, y: Queued) {
    if x.order.epoch != y.order.epoch then x.order.epoch < y.order.epoch
    else if x.order.owner != y.order.owner then x.order.owner < y.order.owner
    else if x.order.page != y.order.page then x.order.page < y.order.page
    else if x.order.operation != y.order.operation then x.order.operation < y.order.operation
    else if x.id != y.id then x.id < y.id
    else x.bytes < y.bytes
  }

  /** Pushing onto a heap keeps the list sorted. */
  function Push(q: seq<Queued>, x: Queued): seq<Queued> {
    if q == [] || Before(x, q[0]) then [x] + q else [q[0]] + Push(q[1..], x)
  }

  function Bytes(q: seq<Queued>): nat {
    if q == [] then 0 else q[0].bytes + Bytes(q[1..])
  }

  function ToCommand(q: Queued, c: IoClass): Command {
    Command(q.id, c, q.order, q.bytes)
  }

  predicate IsRead(c: IoClass) {
    c.ResumeRead? || c.AdmissionRead?
  }

  /** The queue a class is served from. */
  function ServiceQueue(s: Scheduler, c: IoClass): seq<Queued> {
    match c
    case ResumeRead => s.resume
    case AdmissionRead => s.admission
    case PublicationWrite => s.admitted
    case CleanerWrite => s.cleaner
  }

  function SetServiceQueue(s: Scheduler, c: IoClass, q: seq<Queued>): Scheduler {
    match c
    case ResumeRead => s.(resume := q)
    case AdmissionRead => s.(admission := q)
    case PublicationWrite => s.(admitted := q)
    case CleanerWrite => s.(cleaner := q)
  }

  // ---------------------------------------------------------------- arrivals

  function CheckArrival(s: Scheduler, c: Command): Result<(), Error> {
    if c.id == 0 || c.order.epoch == 0 || c.order.owner == 0 || c.bytes == 0 then Err(BadCommand)
    else if s.count >= s.config.maxQueued then Err(QueueFull)
    else if c.id in s.ids then Err(DuplicateCommand)
    else if (c.class_, c.order) in s.keys then Err(DuplicateOrder)
    else if IsRead(c.class_) && c.bytes > s.config.maxRead then Err(ReadTooLarge)
    else if IsRead(c.class_) && s.readBytes + c.bytes > MAX_U64 then Err(Overflow)
    else Ok(())
  }

  /** Puts a command into its queue; a first waiter starts its byte counter anew. */
  function Placed(s: Scheduler, c: Command): Scheduler {
    var x := Queued(c.order, c.id, c.bytes);
    match c.class_
    case ResumeRead => s.(resume := Push(s.resume, x))
    case AdmissionRead =>
      s.(admission := Push(s.admission, x), resumeWaited := if s.admission == [] then 0 else s.resumeWaited)
    case PublicationWrite =>
      s.(candidates := Push(s.candidates, x), candidateWaited := if s.candidates == [] then 0 else s.candidateWaited)
    case CleanerWrite => s.(cleaner := Push(s.cleaner, x))
  }

  /** Queues a command and enters it into the books. */
  function Enqueued(s: Scheduler, c: Command): Scheduler {
    Placed(s, c).(ids := s.ids + {c.id}, keys := s.keys + {(c.class_, c.order)}, count := s.count + 1,
       readBytes := if IsRead(c.class_) then s.readBytes + c.bytes else s.readBytes)
  }

  function Insert(s: Scheduler, c: Command): Result<Scheduler, Error> {
    var _ :- CheckArrival(s, c);
    Ok(Enqueued(s, c))
  }

  function EnqueueReady(s: Scheduler, c: Command): Result<Scheduler, Error> {
    if c.class_.PublicationWrite? then Err(NeedsAdmission) else Insert(s, c)
  }

  function OfferPublication(s: Scheduler, c: Command): Result<Scheduler, Error> {
    if !c.class_.PublicationWrite? then Err(BadClass) else Insert(s, c)
  }

  // ---------------------------------------------------------------- decisions

  predicate AdmissionReadDue(s: Scheduler) {
    && s.admission != []
    && (s.resume == [] || s.resumeWaited >= s.config.resumeLimit
        || s.resumeWaited + s.resume[0].bytes > s.config.resumeLimit)
  }

  function NextRead(s: Scheduler): Option<nat> {
    if AdmissionReadDue(s) then Some(s.admission[0].bytes)
    else if s.resume != [] then Some(s.resume[0].bytes)
    else if s.admission != [] then Some(s.admission[0].bytes)
    else None
  }

  predicate ReadWouldExceed(s: Scheduler, waited: nat, limit: nat) {
    waited >= limit || (NextRead(s).Some? && waited + NextRead(s).value > limit)
  }

  predicate PublicationServiceDue(s: Scheduler) {
    s.admitted != [] && (NextRead(s).None? || ReadWouldExceed(s, s.admittedWaited, s.config.serviceLimit))
  }

  predicate PublicationAdmissionDue(s: Scheduler) {
    && !s.admittedSinceService && s.candidates != []
    && (s.readBytes <= s.config.readHigh || ReadWouldExceed(s, s.candidateWaited, s.config.admissionLimit))
  }

  predicate CanReserve(c: Config, r: Resources) {
    r.buffers > c.reservedBuffers && r.descriptors > c.reservedDescriptors
    && r.cq >= c.reservedCq + PUBLICATION_CQ_ENTRIES
  }

  function Reserve(r: Resources): Resources
    requires r.buffers > 0 && r.descriptors > 0 && r.cq >= PUBLICATION_CQ_ENTRIES
  {
    Resources(r.buffers - 1, r.descriptors - 1, r.cq - PUBLICATION_CQ_ENTRIES)
  }

  function Min(a: nat, b: nat): nat {
    if a <= b then a else b
  }

  /** Takes the first command of a class out of the queues and the books. */
  function PopService(s: Scheduler, c: IoClass): Result<(Scheduler, Command), Error> {
    var q := ServiceQueue(s, c);
    if q == [] then Err(BrokenInvariant)
    else
      var command := ToCommand(q[0], c);
      if command.id !in s.ids || (c, command.order) !in s.keys || s.count == 0
         || (IsRead(c) && s.readBytes < command.bytes) then Err(BrokenInvariant)
      else
        var t := SetServiceQueue(s, c, q[1..]);
        Ok((t.(ids := s.ids - {command.id}, keys := s.keys - {(c, command.order)}, count := s.count - 1,
               readBytes := if IsRead(c) then s.readBytes - command.bytes else s.readBytes),
            command))
  }

  /** Charges a served read to everything that is still waiting behind it. */
  function RecordRead(s: Scheduler, c: IoClass, bytes: nat): Scheduler {
    s.(resumeWaited :=
         if c.ResumeRead? && s.admission != [] then Min(s.resumeWaited + bytes, s.config.resumeLimit)
         else if c.AdmissionRead? || s.admission == [] then 0
         else s.resumeWaited,
       candidateWaited :=
         if s.candidates != [] then Min(s.candidateWaited + bytes, s.config.admissionLimit) else 0,
       admittedWaited :=
         if s.admitted != [] then Min(s.admittedWaited + bytes, s.config.serviceLimit) else 0)
  }

  datatype Outcome = Outcome(scheduler: Scheduler, resources: Resources, decision: Option<Decision>)

  function ServeRead(s: Scheduler, r: Resources, c: IoClass): Result<Outcome, Error> {
    var (t, command) :- PopService(s, c);
    Ok(Outcome(RecordRead(t.(admittedSinceService := false), c, command.bytes), r, Some(Service(command))))
  }

  function ServePublication(s: Scheduler, r: Resources): Result<Outcome, Error> {
    var (t, command) :- PopService(s, PublicationWrite);
    Ok(Outcome(t.(admittedWaited := 0, admittedSinceService := false), r, Some(Service(command))))
  }

  function AdmitPublication(s: Scheduler, r: Resources): Outcome
    requires s.candidates != [] && CanReserve(s.config, r)
  {
    var x := s.candidates[0];
    var admitted := Push(s.admitted, x);
    Outcome(s.(candidates := s.candidates[1..], admitted := admitted, candidateWaited := 0,
               admittedWaited := if |admitted| == 1 then 0 else s.admittedWaited,
               admittedSinceService := true),
            Reserve(r), Some(Admitted(ToCommand(x, PublicationWrite))))
  }

  predicate CleanerDue(s: Scheduler) {
    && s.cleaner != [] && s.readBytes <= s.config.readLow
    && |s.candidates| + |s.admitted| <= s.config.publicationLow
  }

  /** One scheduling decision. */
  function Next(s: Scheduler, r: Resources): Result<Outcome, Error> {
    if r.buffers > s.config.totalBuffers || r.descriptors > s.config.totalDescriptors || r.cq > s.config.totalCq then
      Err(BadResources)
    else if PublicationServiceDue(s) then ServePublication(s, r)
    else if PublicationAdmissionDue(s) && CanReserve(s.config, r) then Ok(AdmitPublication(s, r))
    else if AdmissionReadDue(s) then ServeRead(s, r, AdmissionRead)
    else if s.resume != [] then ServeRead(s, r, ResumeRead)
    else if s.admission != [] then ServeRead(s, r, AdmissionRead)
    else if s.admitted != [] then ServePublication(s, r)
    else if CleanerDue(s) then
      var (t, command) :- PopService(s, CleanerWrite);
      Ok(Outcome(t.(admittedSinceService := false), r, Some(Service(command))))
    else Ok(Outcome(s, r, None))
  }
}
