/** What a page is published under never changes while it is live, in any run. */
module SequenceIdentity {
  import opened Collections
  import opened Page
  import opened SequenceModel
  import opened SequenceOps
  import opened SequenceRuns
  import Transitions = SequenceTransitions
  import Admission = SequenceAdmission
  import Answers = SequenceAnswers

  /** `c` publishes the content `b` publishes, at the same ordinal; it may add a draft `b` lacks, and then
      comes from a newer generation. */
  predicate Continues(b: PrefixBinding, c: PrefixBinding) {
    && c.ordinal == b.ordinal
    && c.attachment.namespace == b.attachment.namespace && c.attachment.key == b.attachment.key
    && c.attachment.kv == b.attachment.kv && c.attachment.indexer == b.attachment.indexer
    && (c.attachment == b.attachment
        || (b.attachment.draft.None? && c.attachment.draft.Some? && c.attachment.generation > b.attachment.generation))
  }

  /** Page `p` is published in `u` just as far as it was in `t`. */
  ghost predicate Stays(t: Table, u: Table, p: PageId) {
    p in t.physical && p in u.physical ==>
      && (t.physical[p].prefix.None? ==> u.physical[p].prefix.None?)
      && (t.physical[p].prefix.Some? ==>
            u.physical[p].prefix.Some? && Continues(t.physical[p].prefix.value, u.physical[p].prefix.value))
  }

  lemma AdmissionStays(t: Table, id: nat, mtp: bool, attachments: seq<Attachment>, p: PageId)
    requires Valid(t) && Transitions.Admit(t, id, mtp, attachments).Ok? && p in t.physical
    ensures Stays(t, Transitions.Admit(t, id, mtp, attachments).value, p)
  {
    hide Valid, Transitions.Admit, Admission.NewPages, Admission.NewDrafts, Locals;
    Admission.AdmissionGives(t, id, mtp, attachments);
    Admission.AdmissionExactly(t, id, mtp, attachments);
    if !Admission.NotAsked(t, attachments, 0, p) {
      var j :| 0 <= j < |attachments| && attachments[j].key in t.prefixes && t.prefixes[attachments[j].key] == p;
      assert Admission.MayJoin(t, attachments[j], j);
    }
  }

  lemma ForkStays(t: Table, source: nat, target: nat, p: PageId)
    requires Valid(t) && Transitions.Fork(t, source, target).Ok? && p in t.physical
    ensures Stays(t, Transitions.Fork(t, source, target).value, p)
  {
    hide Valid, Transitions.Fork;
    Answers.ForkGives(t, source, target);
    var s, u := t.sequences[source], Transitions.Fork(t, source, target).value;
    if j :| 0 <= j < |s.pages| && 64 * (j + 1) <= s.committed && s.pages[j].physical == p {
      assert Answers.Forked(t, u, s, j, u.sequences[target].pages[j]);
    }
  }

  lemma StepStays(t: Table, op: Operation, p: PageId)
    requires Valid(t) && p in t.physical
    ensures Stays(t, After(t, op), p)
  {
    hide Valid, Transitions.Admit, Transitions.Append, Transitions.Fork, Transitions.Begin, Transitions.Commit,
      Transitions.Rollback, Transitions.Remove, Answers.FilledTo;
    if Apply(t, op).Ok? {
      match op
      case Admit(id, mtp, attachments) => AdmissionStays(t, id, mtp, attachments, p);
      case Append(id, tokens) =>
        if tokens > 0 {
          Answers.AppendGives(t, id, tokens);
        } else {
          AppendNothing(t, id);
        }
      case Fork(source, id) => ForkStays(t, source, id, p);
      case Begin(id, tokens) => Answers.BeginGives(t, id, tokens);
      case Commit(id, tokens) => Answers.CommitsExactly(t, id, tokens);
      case Rollback(id) => Answers.RollbacksExactly(t, id);
      case Remove(id) => Answers.RemovesExactly(t, id);
      case Bind(generation) =>
      case Acknowledge(generation) =>
    }
  }

  lemma AppendNothing(t: Table, id: nat)
    ensures Transitions.Append(t, id, 0).Ok? ==> Transitions.Append(t, id, 0) == Ok(t)
  {
  }

  lemma StaysOn(t: Table, u: Table, v: Table, p: PageId)
    requires p in t.physical && p in u.physical && p in v.physical && Stays(t, u, p) && Stays(u, v, p)
    ensures Stays(t, v, p)
  {
  }

  /** Over every run: a page that stays live keeps the namespace, the key, the digests and the ordinal it is
      published under; its draft never changes either, except that a missing one may be added by a newer
      generation. A page that is not published stays so. */
  lemma {:induction false} LiveKeepsIdentity(t: Table, ops: seq<Operation>, p: PageId)
    requires Valid(t) && forall i | 0 <= i <= |ops| :: p in At(t, ops, i).physical
    ensures p in t.physical && p in Run(t, ops).physical && Stays(t, Run(t, ops), p)
    decreases |ops|
  {
    hide Valid, After, Stays;
    assert ops[..|ops|] == ops;
    assert p in At(t, ops, 0).physical && p in At(t, ops, |ops|).physical;
    if ops == [] {
      StaysHere(t, p);
    } else {
      var front := ops[..|ops| - 1];
      forall i | 0 <= i <= |front| ensures p in At(t, front, i).physical {
        assert front[..i] == ops[..i];
        assert p in At(t, ops, i).physical;
      }
      LiveKeepsIdentity(t, front, p);
      RunKeepsValid(t, front);
      StepStays(Run(t, front), ops[|ops| - 1], p);
      StaysOn(t, Run(t, front), Run(t, ops), p);
    }
  }

  lemma StaysHere(t: Table, p: PageId)
    ensures Stays(t, t, p)
  {
  }

  // ---------------------------------------------------------------- what a sequence was admitted with

  /** The first `n` pages of sequence `x` are still the same, with their tokens committed. */
  ghost predicate SameFront(t: Table, u: Table, x: nat, n: nat) {
    && x in t.sequences && x in u.sequences
    && n <= |t.sequences[x].pages| && n <= |u.sequences[x].pages|
    && t.sequences[x].pages[..n] == u.sequences[x].pages[..n] && 64 * n <= u.sequences[x].committed
  }

  lemma StepKeepsFront(t: Table, op: Operation, x: nat, n: nat)
    requires Valid(t) && op != Remove(x) && SameFront(t, t, x, n)
    ensures SameFront(t, After(t, op), x, n)
  {
    hide Valid, Transitions.Admit, Transitions.Append, Transitions.Fork, Transitions.Begin, Transitions.Commit,
      Transitions.Rollback, Transitions.Remove, Answers.FilledTo, Answers.Sheds, KeepsDrafts;
    if Apply(t, op).Ok? {
      if Target(op) != x {
        StepIsolates(t, op, x);
      } else {
        match op
        case Admit(id, mtp, attachments) => Admission.AdmissionExactly(t, id, mtp, attachments);
        case Append(id, tokens) =>
          if tokens > 0 {
            Answers.AppendGives(t, id, tokens);
          } else {
            AppendNothing(t, id);
          }
        case Fork(source, id) => Answers.ForksExactly(t, source, id);
        case Begin(id, tokens) => Answers.BeginGives(t, id, tokens);
        case Commit(id, tokens) => Answers.CommitsExactly(t, id, tokens);
        case Rollback(id) => Answers.RollbacksExactly(t, id);
        case Bind(generation) =>
        case Acknowledge(generation) =>
      }
    }
  }

  lemma FrontOn(t: Table, u: Table, v: Table, x: nat, n: nat)
    requires SameFront(t, u, x, n) && SameFront(u, v, x, n)
    ensures SameFront(t, v, x, n) && SameFront(u, u, x, n)
  {
  }

  lemma {:induction false} RunKeepsFront(t: Table, ops: seq<Operation>, x: nat, n: nat)
    requires Valid(t) && SameFront(t, t, x, n) && forall i | 0 <= i < |ops| :: ops[i] != Remove(x)
    ensures SameFront(t, Run(t, ops), x, n)
    decreases |ops|
  {
    hide Valid, After;
    if ops != [] {
      var front := ops[..|ops| - 1];
      RunKeepsFront(t, front, x, n);
      RunKeepsValid(t, front);
      StepKeepsFront(Run(t, front), ops[|ops| - 1], x, n);
      FrontOn(t, Run(t, front), Run(t, ops), x, n);
    }
  }

  lemma FrontIsLive(t: Table, u: Table, x: nat, n: nat, j: nat)
    requires Valid(u) && SameFront(t, u, x, n) && j < n
    ensures u.sequences[x].pages[j] == t.sequences[x].pages[j]
    ensures var p := t.sequences[x].pages[j].physical;
            p in u.physical && u.physical[p].state == HbmSealed && u.physical[p].valid == 64
  {
    hide Consistent;
    Answers.FilledExactly(u, x);
    assert u.sequences[x].pages[j] == u.sequences[x].pages[..n][j] == t.sequences[x].pages[..n][j];
  }

  lemma FrontKeepsIdentity(t: Table, ops: seq<Operation>, x: nat, n: nat, j: nat)
    requires Valid(t) && SameFront(t, t, x, n) && j < n && forall i | 0 <= i < |ops| :: ops[i] != Remove(x)
    ensures SameFront(t, Run(t, ops), x, n)
    ensures Stays(t, Run(t, ops), t.sequences[x].pages[j].physical)
  {
    hide Valid, Stays;
    var p := t.sequences[x].pages[j].physical;
    RunKeepsFront(t, ops, x, n);
    forall i | 0 <= i <= |ops| ensures p in At(t, ops, i).physical {
      RunKeepsFront(t, ops[..i], x, n);
      RunKeepsValid(t, ops[..i]);
      FrontIsLive(t, At(t, ops, i), x, n, j);
    }
    LiveKeepsIdentity(t, ops, p);
  }

  /** Over every run: until it is removed, page `j` of an admitted sequence is the page it was admitted with,
      live, full and sealed, and still published with the namespace, key and digests of attachment `j`, and
      with its draft when it had one. */
  lemma AdmittedPrefixStays(t: Table, id: nat, mtp: bool, attachments: seq<Attachment>, ops: seq<Operation>, j: nat)
    requires Valid(t) && Transitions.Admit(t, id, mtp, attachments).Ok? && j < |attachments|
    requires forall i | 0 <= i < |ops| :: ops[i] != Remove(id)
    ensures var u := Transitions.Admit(t, id, mtp, attachments).value;
            var v := Run(u, ops);
            && id in u.sequences && id in v.sequences && |u.sequences[id].pages| == |attachments| <= |v.sequences[id].pages|
            && v.sequences[id].pages[j] == u.sequences[id].pages[j] && v.sequences[id].pages[j].physical in v.physical
            && var page := v.physical[v.sequences[id].pages[j].physical];
            && page.state == HbmSealed && page.valid == 64
            && page.prefix.Some? && page.prefix.value.ordinal == j
            && Admission.Carries(page.prefix.value.attachment, attachments[j])
  {
    hide Valid, Transitions.Admit, Run, Admission.OnlyAsked, Admission.Merged;
    var u, n := Transitions.Admit(t, id, mtp, attachments).value, |attachments|;
    Admission.AdmissionGives(t, id, mtp, attachments);
    AdmitLeavesValid(t, id, mtp, attachments);
    var p := u.sequences[id].pages[j].physical;
    FrontKeepsIdentity(u, ops, id, n, j);
    RunKeepsValid(u, ops);
    FrontIsLive(u, Run(u, ops), id, n, j);
    assert Admission.Given(t, mtp, attachments[j], j, p, u.physical[p]);
  }

  lemma AdmitLeavesValid(t: Table, id: nat, mtp: bool, attachments: seq<Attachment>)
    requires Valid(t) && Transitions.Admit(t, id, mtp, attachments).Ok?
    ensures Valid(Transitions.Admit(t, id, mtp, attachments).value)
  {
    hide Valid, Transitions.Admit;
    Transitions.AdmitIsSound(t, id, mtp, attachments);
  }
}
