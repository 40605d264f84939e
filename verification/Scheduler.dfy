/** The scheduler as the source has it: heaps, sets and counters updated in place. */
module Scheduler {
  import opened Collections
  import Model = ScheduleModel
  import opened ScheduleModel
  import opened ScheduleInvariant

  class DirectIoScheduler {
    const config: Config
    var resume: seq<Queued>
    var admission: seq<Queued>
    var candidates: seq<Queued>
    var admitted: seq<Queued>
    var cleaner: seq<Queued>
    var ids: set<nat>
    var keys: set<(IoClass, OrderKey)>
    var count: nat
    var readBytes: nat
    var resumeWaited: nat
    var candidateWaited: nat
    var admittedWaited: nat
    var admittedSinceService: bool

    function Value(): Scheduler
      reads this
    {
      Model.Scheduler(config, resume, admission, candidates, admitted, cleaner, ids, keys, count, readBytes,
                      resumeWaited, candidateWaited, admittedWaited, admittedSinceService)
    }

    constructor (config: Config)
      requires CheckConfig(config).Ok?
      ensures New(config) == Ok(Value()) && Valid(Value())
    {
      this.config := config;
      resume, admission, candidates, admitted, cleaner := [], [], [], [], [];
      ids, keys, count, readBytes := {}, {}, 0, 0;
      resumeWaited, candidateWaited, admittedWaited, admittedSinceService := 0, 0, 0, false;
    }

    /** Queues work that already owns its resources; publications must be offered instead. */
    method EnqueueReady(c: Command) returns (r: Result<(), Error>)
      requires Valid(Value())
      modifies this
      ensures Valid(Value())
      ensures match Model.EnqueueReady(old(Value()), c)
              case Ok(s) => r == Ok(()) && Value() == s
              case Err(e) => r == Err(e) && Value() == old(Value())
    {
      if c.class_.PublicationWrite? {
        return Err(NeedsAdmission);
      }
      r := Insert(c);
    }

    method OfferPublication(c: Command) returns (r: Result<(), Error>)
      requires Valid(Value())
      modifies this
      ensures Valid(Value())
      ensures match Model.OfferPublication(old(Value()), c)
              case Ok(s) => r == Ok(()) && Value() == s
              case Err(e) => r == Err(e) && Value() == old(Value())
    {
      if !c.class_.PublicationWrite? {
        return Err(BadClass);
      }
      r := Insert(c);
    }

    method Place(c: Command)
      modifies this
      ensures Value() == Placed(old(Value()), c)
    {
      hide Push;
      var x := Queued(c.order, c.id, c.bytes);
      match c.class_ {
        case ResumeRead => resume := Push(resume, x);
        case AdmissionRead =>
          if admission == [] {
            resumeWaited := 0;
          }
          admission := Push(admission, x);
        case PublicationWrite =>
          if candidates == [] {
            candidateWaited := 0;
          }
          candidates := Push(candidates, x);
        case CleanerWrite => cleaner := Push(cleaner, x);
      }
    }

    method Insert(c: Command) returns (r: Result<(), Error>)
      requires Valid(Value())
      modifies this
      ensures Valid(Value())
      ensures match Model.Insert(old(Value()), c)
              case Ok(s) => r == Ok(()) && Value() == s
              case Err(e) => r == Err(e) && Value() == old(Value())
    {
      hide Valid, Placed, CheckArrival;
      if Model.Insert(Value(), c).Ok? {
        InsertKeepsValid(Value(), c);
      }
      var checked := CheckArrival(Value(), c);
      if checked.Err? {
        return checked;
      }
      PlacedBooks(Value(), c);
      Place(c);
      ids := ids + {c.id};
      keys := keys + {(c.class_, c.order)};
      count := count + 1;
      if IsRead(c.class_) {
        readBytes := readBytes + c.bytes;
      }
      r := Ok(());
    }

    method SetQueue(c: IoClass, q: seq<Queued>)
      modifies this
      ensures Value() == SetServiceQueue(old(Value()), c, q)
    {
      match c {
        case ResumeRead => resume := q;
        case AdmissionRead => admission := q;
        case PublicationWrite => admitted := q;
        case CleanerWrite => cleaner := q;
      }
    }

    /** Pops the first command of a class and strikes it from the books. */
    method PopService(c: IoClass) returns (r: Result<Command, Error>)
      requires BooksOk(Value()) && ServiceQueue(Value(), c) != []
      modifies this
      ensures var spec := Model.PopService(old(Value()), c);
              spec.Ok? && r == Ok(spec.value.1) && Value() == spec.value.0
    {
      hide BooksOk;
      PopKeepsBooks(Value(), c);
      var q := ServiceQueue(Value(), c);
      var command := ToCommand(q[0], c);
      SetQueue(c, q[1..]);
      if command.id !in ids || (c, command.order) !in keys {
        return Err(BrokenInvariant);
      }
      ids := ids - {command.id};
      keys := keys - {(c, command.order)};
      if count == 0 {
        return Err(BrokenInvariant);
      }
      count := count - 1;
      if IsRead(c) {
        if readBytes < command.bytes {
          return Err(BrokenInvariant);
        }
        readBytes := readBytes - command.bytes;
      }
      r := Ok(command);
    }

    method RecordReadService(c: IoClass, bytes: nat)
      modifies this`resumeWaited, this`candidateWaited, this`admittedWaited
      ensures Value() == RecordRead(old(Value()), c, bytes)
    {
      if c.ResumeRead? && admission != [] {
        resumeWaited := Min(resumeWaited + bytes, config.resumeLimit);
      } else if c.AdmissionRead? || admission == [] {
        resumeWaited := 0;
      }
      candidateWaited := if candidates != [] then Min(candidateWaited + bytes, config.admissionLimit) else 0;
      admittedWaited := if admitted != [] then Min(admittedWaited + bytes, config.serviceLimit) else 0;
    }

    method ServeReadNow(c: IoClass) returns (d: Result<Option<Decision>, Error>)
      requires Valid(Value()) && IsRead(c) && ServiceQueue(Value(), c) != []
      modifies this
      ensures forall r :: match ServeRead(old(Value()), r, c)
                          case Ok(o) => d == Ok(o.decision) && Value() == o.scheduler
                          case Err(e) => d == Err(e)
    {
      hide BooksOk, CountersOk, RecordRead;
      PopKeepsBooks(Value(), c);
      var command := PopService(c);
      if command.Err? {
        return Err(BrokenInvariant);
      }
      admittedSinceService := false;
      RecordReadService(c, command.value.bytes);
      d := Ok(Some(Service(command.value)));
    }

    method ServePublicationNow() returns (d: Result<Option<Decision>, Error>)
      requires Valid(Value()) && admitted != []
      modifies this
      ensures forall r :: match ServePublication(old(Value()), r)
                          case Ok(o) => d == Ok(o.decision) && Value() == o.scheduler
                          case Err(e) => d == Err(e)
    {
      hide BooksOk, CountersOk;
      PopKeepsBooks(Value(), PublicationWrite);
      var command := PopService(PublicationWrite);
      if command.Err? {
        return Err(BrokenInvariant);
      }
      admittedWaited := 0;
      admittedSinceService := false;
      d := Ok(Some(Service(command.value)));
    }

    /** The next decision; `resources` is the caller's count, which an admission draws down. */
    method Next(resources: Resources) returns (d: Result<Option<Decision>, Error>, left: Resources)
      requires Valid(Value())
      modifies this
      ensures Valid(Value())
      ensures match Model.Next(old(Value()), resources)
              case Ok(o) => d == Ok(o.decision) && Value() == o.scheduler && left == o.resources
              case Err(e) => d == Err(e) && Value() == old(Value()) && left == resources
    {
      hide BooksOk, CountersOk, CheckConfig, ServeRead, ServePublication, Push, ScheduleModel.PopService;
      NextKeepsValid(Value(), resources);
      left, d := resources, Ok(None);
      if resources.buffers > config.totalBuffers || resources.descriptors > config.totalDescriptors
         || resources.cq > config.totalCq {
        d := Err(BadResources);
        return;
      }
      var admissionReadDue := AdmissionReadDue(Value());
      if PublicationServiceDue(Value()) {
        ServePublicationKeepsValid(Value(), resources);
        d := ServePublicationNow();
        return;
      }
      if PublicationAdmissionDue(Value()) && CanReserve(config, resources) {
        left := Reserve(resources);
        var x := candidates[0];
        candidates := candidates[1..];
        admitted := Push(admitted, x);
        candidateWaited := 0;
        if |admitted| == 1 {
          admittedWaited := 0;
        }
        admittedSinceService := true;
        d := Ok(Some(Admitted(ToCommand(x, PublicationWrite))));
        return;
      }
      if admissionReadDue {
        ServeReadKeepsValid(Value(), resources, AdmissionRead);
        d := ServeReadNow(AdmissionRead);
      } else if resume != [] {
        ServeReadKeepsValid(Value(), resources, ResumeRead);
        d := ServeReadNow(ResumeRead);
      } else if admission != [] || admitted != [] {
        // Without resume reads these are due above; the source repeats both services here.
        assert false;
      } else if CleanerDue(Value()) {
        var command := PopService(CleanerWrite);
        if command.Err? {
          d := Err(BrokenInvariant);
          return;
        }
        admittedSinceService := false;
        d := Ok(Some(Service(command.value)));
      }
    }
  }

  /** Placing a command leaves the books alone. */
  lemma PlacedBooks(s: Model.Scheduler, c: Command)
    ensures var t := Placed(s, c);
            t.config == s.config && t.ids == s.ids && t.keys == s.keys && t.count == s.count && t.readBytes == s.readBytes
  {
  }
}
