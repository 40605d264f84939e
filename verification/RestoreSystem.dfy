/** The restore table with its callers and worker threads, step by step. */
module RestoreSystem {
  import opened Collections
  import opened Octets
  import opened RestoreModel
  import opened RestoreInvariant
  import opened RestoreCompletions
  import opened RestoreAdmissions
  import opened RestoreSubmissions
  import opened RestoreCancellations
  import opened RestoreWorkers
  import opened RestoreIntegrity
  import opened RestoreTokens
  import B = DirectBuffers
  import D = DirectDescriptors

  /** The table, the checksum results handed to callers, and the tokens completed so far. */
  datatype System = System(table: Table, issued: set<HashResult>, completed: set<D.Token>)

  ghost predicate Consistent(decode: (ExtentRecord, Bytes) -> bool, s: System) {
    && Invariant(s.table)
    && WorkersFit(s.table, s.issued)
    && Sound(decode, s.table, s.issued)
    && (forall token | token in s.completed :: TokenSpent(s.table, token))
  }

  // ---------------------------------------------------------------- quiet steps

  lemma IdsAreOld(t: Table, id: nat)
    requires Invariant(t)
    ensures id in t.tickets ==> id < t.nextTicket
  {
  }

  lemma AccountsOf(t: Table)
    requires Invariant(t)
    ensures Accounts(t)
  {
  }

  /** A step that is quiet about one ticket and leaves the descriptors alone. */
  lemma QuietStep(decode: (ExtentRecord, Bytes) -> bool, s: System, u: Table, id: nat)
    requires Consistent(decode, s) && Invariant(u) && Apart(s.table, u, id) && Quiet(s.table, u, id)
    requires id in u.tickets ==> id in s.table.tickets || id >= s.table.nextTicket
    requires u.descriptors == s.table.descriptors
    requires id in s.table.tickets && s.table.tickets[id].originalPending && Ended(s.table.tickets[id]) ==>
               id in u.tickets && Ended(u.tickets[id])
    ensures Consistent(decode, s.(table := u))
  {
    hide Invariant, Apart, Quiet, WorkersFit, Sound, TokenSpent, Accounts;
    QuietKeeps(decode, s.table, u, id, s.issued);
    AccountsOf(s.table);
    forall token | token in s.completed ensures TokenSpent(u, token) {
      SpentStays(s.table, u, id, token);
    }
  }

  lemma PlanStep(decode: (ExtentRecord, Bytes) -> bool, s: System, request: Request, record: ExtentRecord, epoch: nat, catalog: nat)
    requires Consistent(decode, s)
    ensures Consistent(decode, s.(table := Plan(s.table, request, record, epoch, catalog).table))
  {
    hide Consistent, Invariant, Apart, Quiet, Plan;
    InvariantOf(decode, s);
    PlanKeeps(s.table, request, record, epoch, catalog);
    var o := Plan(s.table, request, record, epoch, catalog);
    if o.result.Ok? {
      PlanIds(s.table, request, record, epoch, catalog);
      QuietStep(decode, s, o.table, o.result.value.ticket);
    } else {
      assert s.(table := s.table) == s;
    }
  }

  lemma PlanIds(t: Table, request: Request, record: ExtentRecord, epoch: nat, catalog: nat)
    requires Plan(t, request, record, epoch, catalog).result.Ok?
    ensures var id := Plan(t, request, record, epoch, catalog).result.value.ticket; id in t.tickets || id >= t.nextTicket
  {
    hide Charged, LogicalBytes, Least;
  }

  lemma InvariantOf(decode: (ExtentRecord, Bytes) -> bool, s: System)
    requires Consistent(decode, s)
    ensures Invariant(s.table)
  {
  }

  lemma ReserveStep(decode: (ExtentRecord, Bytes) -> bool, s: System, id: nat)
    requires Consistent(decode, s)
    ensures Consistent(decode, s.(table := ReserveBuffer(s.table, id).table))
  {
    hide Consistent, Invariant, Apart, Quiet, B.Reserve;
    InvariantOf(decode, s);
    ReserveKeeps(s.table, id);
    QuietStep(decode, s, ReserveBuffer(s.table, id).table, id);
  }

  lemma CopyStep(decode: (ExtentRecord, Bytes) -> bool, s: System, id: nat, offset: nat, source: Bytes)
    requires Consistent(decode, s)
    ensures Consistent(decode, s.(table := CopyIntoDestination(s.table, id, offset, source).table))
  {
    hide Consistent, Invariant, Apart, Quiet, CopyIntoDestination;
    InvariantOf(decode, s);
    CopyKeeps(s.table, id, offset, source);
    var u := CopyIntoDestination(s.table, id, offset, source).table;
    QuietStep(decode, s, u, id);
  }

  lemma DeliveryStep(decode: (ExtentRecord, Bytes) -> bool, s: System, id: nat)
    requires Consistent(decode, s)
    ensures Consistent(decode, s.(table := FinishDelivery(s.table, id).table))
  {
    hide Consistent, Invariant, Apart, Quiet, FinishDelivery, Sorted;
    InvariantOf(decode, s);
    DeliveryKeeps(s.table, id);
    if FinishDelivery(s.table, id).result.Ok? {
      QuietStep(decode, s, FinishDelivery(s.table, id).table, id);
    } else {
      assert s.(table := s.table) == s;
    }
  }

  // ---------------------------------------------------------------- steps on descriptors

  lemma CancelStep(decode: (ExtentRecord, Bytes) -> bool, s: System, request: nat, async: bool)
    requires Consistent(decode, s)
    ensures Consistent(decode, s.(table := CancelWaiter(s.table, request, async).table))
  {
    hide Invariant, Apart, Quiet, WorkersFit, Sound, TokenSpent, Accounts, CancelWaiter, D.IssueCancel;
    var t, u := s.table, CancelWaiter(s.table, request, async).table;
    CancelKeeps(t, request, async);
    if request in t.requests {
      var id := t.requests[request];
      QuietKeeps(decode, t, u, id, s.issued);
      AccountsOf(t);
      forall token | token in s.completed ensures TokenSpent(u, token) {
        if u.descriptors == t.descriptors {
          SpentStays(t, u, id, token);
        } else {
          SpentCancels(t, u, id, token);
        }
      }
    }
  }

  lemma OriginalStep(decode: (ExtentRecord, Bytes) -> bool, s: System, id: nat, completion: ReadCompletion)
    requires Consistent(decode, s)
    ensures var o := CompleteOriginal(s.table, id, completion);
            && (o.result.Err? ==> o.table == s.table)
            && (o.result.Ok? ==>
                  && id in s.table.tickets && s.table.tickets[id].originalToken.Some?
                  && Consistent(decode, s.(table := o.table, completed := s.completed + {s.table.tickets[id].originalToken.value})))
  {
    hide Invariant, Apart, Quiet, WorkersFit, Sound, TokenSpent, Accounts, CompleteOriginal, D.Complete;
    var t, o := s.table, CompleteOriginal(s.table, id, completion);
    CompleteOriginalKeeps(t, id, completion);
    if o.result.Ok? {
      QuietKeeps(decode, t, o.table, id, s.issued);
      AccountsOf(t);
      var done := t.tickets[id].originalToken.value;
      OwnerOf(t, id, done);
      NewlySpent(t, o.table, id, done);
      forall token | token in s.completed ensures TokenSpent(o.table, token) {
        SpentCompletes(t, o.table, id, token, done);
      }
    }
  }

  lemma CancelledStep(decode: (ExtentRecord, Bytes) -> bool, s: System, id: nat)
    requires Consistent(decode, s)
    ensures var o := CompleteCancel(s.table, id);
            && (o.result.Err? ==> o.table == s.table)
            && (o.result.Ok? ==>
                  && id in s.table.tickets && s.table.tickets[id].cancelToken.Some?
                  && Consistent(decode, s.(table := o.table, completed := s.completed + {s.table.tickets[id].cancelToken.value})))
  {
    hide Invariant, Apart, Quiet, WorkersFit, Sound, TokenSpent, Accounts, CompleteCancel, D.Complete, D.IsCancel;
    var t, o := s.table, CompleteCancel(s.table, id);
    CompleteCancelKeeps(t, id);
    if o.result.Ok? {
      QuietKeeps(decode, t, o.table, id, s.issued);
      AccountsOf(t);
      var done := t.tickets[id].cancelToken.value;
      OwnerOf(t, id, done);
      NewlySpent(t, o.table, id, done);
      forall token | token in s.completed ensures TokenSpent(o.table, token) {
        SpentCompletes(t, o.table, id, token, done);
      }
    }
  }

  lemma SubmitStep(decode: (ExtentRecord, Bytes) -> bool, s: System, id: nat)
    requires Consistent(decode, s)
    ensures Consistent(decode, s.(table := SubmitRead(s.table, id).table))
  {
    hide Invariant, Apart, WorkersFit, Sound, TokenSpent, Accounts, SubmitRead, D.Allocate;
    var t, o := s.table, SubmitRead(s.table, id);
    SubmitKeeps(t, id);
    AccountsOf(t);
    if o.result.Ok? {
      Fitting(t, id);
      SubmitFits(decode, t, o.table, id, s.issued);
      forall token | token in s.completed ensures TokenSpent(o.table, token) {
        SpentAllocates(t, o.table, id, token, BindingOf(id, t.tickets[id].buffer.value));
      }
    } else if o.table != t {
      var binding :| o.table.descriptors == D.Allocate(t.descriptors, binding).0;
      FreshId0(t);
      OnlyDescriptors(t, o.table);
      QuietKeeps(decode, t, o.table, 0, s.issued);
      forall token | token in s.completed ensures TokenSpent(o.table, token) {
        SpentAllocates(t, o.table, 0, token, binding);
      }
    }
  }

  lemma FreshId0(t: Table)
    requires Invariant(t)
    ensures 0 !in t.tickets
  {
  }

  lemma OnlyDescriptors(t: Table, u: Table)
    requires u == t.(descriptors := u.descriptors) && 0 !in t.tickets
    ensures Apart(t, u, 0) && Quiet(t, u, 0)
  {
  }

  /** A submitted read is a new job that has not run. */
  lemma SubmitFits(decode: (ExtentRecord, Bytes) -> bool, t: Table, u: Table, id: nat, issued: set<HashResult>)
    requires Invariant(t) && WorkersFit(t, issued) && Sound(decode, t, issued) && Apart(t, u, id)
    requires MaySubmit(t, id) && StateFits(t.buffers, t.tickets[id]) && id in u.tickets
    requires u.tickets[id].state.ReadSubmitted? && u.tickets[id].hash.HashReserved?
    ensures WorkersFit(u, issued) && Sound(decode, u, issued)
  {
    hide Invariant, Apart, JobsRun, OnePlace, Load, WorkersTrue, Proven;
    RunningAwaits(t);
    SubmitUndisturbed(t, u, id);
    UndisturbedKeepsWorkers(t, u, issued);
    UndisturbedKeepsSound(decode, t, u, issued);
  }

  lemma SubmitUndisturbed(t: Table, u: Table, id: nat)
    requires Apart(t, u, id) && id in t.tickets && id in u.tickets
    requires forall k | k in t.tickets && t.tickets[k].hash.HashRunning? :: AwaitsHash(t.tickets[k])
    requires t.tickets[id].state.BufferReserved? && t.tickets[id].hash.NoHash?
    requires u.tickets[id].state.ReadSubmitted? && u.tickets[id].hash.HashReserved?
    ensures Undisturbed(t, u)
  {
    hide HeldSlot;
  }
}
