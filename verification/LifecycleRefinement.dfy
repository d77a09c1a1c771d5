/** Why runs need not assume what they guard: the completions that coordinators write in a
    truthful system come after a read of the target schema as ready. */
module LifecycleRefinement {
  import opened Services
  import opened Lifecycle
  import opened LifecycleRuns
  import C = LifecycleCoordinator

  /** One execution: its intent, the calls and answers of the whole of it, and the step of the
      system at which each of them took place. Where there are fewer steps than calls, the
      executor crashed after the last step. */
  datatype Executor = Executor(intent: Intent, trace: C.Trace, at: seq<nat>)

  /** The system answered an inspection of the target schema with ready. */
  predicate ReadsReady(e: C.Event) {
    e == C.Event(C.InspectTarget, C.Schema(C.SReady))
  }

  /** The step an event stands for, where it has an effect. */
  ghost predicate StepFor(i: Intent, e: C.Event, step: Step) {
    match e.call
    case Admit(command) => step == AdmitStep(command)
    case Apply(ApplyInitialSchema) => step == MaterialiseStep(i.service, TargetLayout(i))
    case Apply(ApplyTransition) => step.EvolveStep? && step.id == i.service && step.target == TargetLayout(i)
    case Finalize(completion) => step == CompleteStep(completion)
    case Recover(intent, at) => step == RecoverStep(intent, at)
    case _ => false
  }

  /** An answer of ready was truthful when it was given. Every other event had its effect, or
      none: it was a read, it failed, or its transaction was not committed. */
  ghost predicate Takes(i: Intent, e: C.Event, step: Step) {
    if ReadsReady(e) then step == ReadReadyStep(i.service, TargetLayout(i)) else StepFor(i, e, step) || step == CrashStep
  }

  ghost predicate Plays(x: Executor, steps: seq<Step>) {
    && |x.at| <= |x.trace|
    && (forall k :: 0 <= k < |x.at| ==> x.at[k] < |steps| && Takes(x.intent, x.trace[k], steps[x.at[k]]))
    && forall j, k :: 0 <= j < k < |x.at| ==> x.at[j] < x.at[k]
  }

  /** A step without the condition under which a coordinator completes. */
  ghost predicate Happens(a: System, step: Step, b: System) {
    if step.CompleteStep?
    then b == a.(registry := Committed(a.registry, FinalizeCompleted(a.registry, step.completion)))
    else Next(a, step, b)
  }

  /** Step `i` is the completion that the executor wrote at event `k`. */
  predicate Completes(x: Executor, k: nat, steps: seq<Step>, i: nat) {
    k < |x.at| <= |x.trace| && x.at[k] == i < |steps|
    && steps[i].CompleteStep? && x.trace[k].call == C.Finalize(steps[i].completion)
  }

  /** What any number of executors, of the same or of different keys, and everyone else did
      to the system. Only executors complete claims. */
  ghost predicate History(states: seq<System>, steps: seq<Step>, xs: set<Executor>) {
    && |states| == |steps| + 1 && Invariant(states[0])
    && (forall i :: 0 <= i < |steps| ==> Happens(states[i], steps[i], states[i + 1]))
    && (forall x :: x in xs ==> Plays(x, steps) && C.Justified(x.intent, x.trace))
    && forall i: nat :: i < |steps| && steps[i].CompleteStep? ==> exists x, k :: x in xs && Completes(x, k, steps, i)
  }

  lemma {:induction false} SeenGrows(states: seq<System>, steps: seq<Step>, i: nat, j: nat)
    requires |states| == |steps| + 1 && i <= j < |states|
    requires forall k :: 0 <= k < |steps| ==> Happens(states[k], steps[k], states[k + 1])
    ensures states[i].seen <= states[j].seen
    decreases j
  {
    if i < j {
      SeenGrows(states, steps, i, j - 1);
      SeenStays(states[j - 1], steps[j - 1], states[j]);
    }
  }

  lemma {:induction false} SeenStays(a: System, step: Step, b: System)
    requires Happens(a, step, b)
    ensures a.seen <= b.seen
  {
    hide ResolveOrAdmit, FinalizeCompleted, FinalizeRecovery, Purged, ValidService, ValidCommand, Blocks, Committed;
  }

  lemma {:induction false} PassIsRecent(t: C.Trace, e: C.Event)
    requires e in C.LastPass(t)
    ensures exists j :: 0 <= j < |t| && t[j] == e
  {
    var front := t[..|t| - 1];
    if e in C.LastPass(front) {
      PassIsRecent(front, e);
      var j :| 0 <= j < |front| && front[j] == e;
      assert t[j] == e;
    } else {
      assert t[|t| - 1] == e;
    }
  }

  /** A coordinator read the target as ready before it asked for completion. */
  lemma {:induction false} ReadBefore(x: Executor, k: nat) returns (j: nat)
    requires C.Justified(x.intent, x.trace) && k < |x.at| <= |x.trace| && x.trace[k].call.Finalize?
    ensures j < k && ReadsReady(x.trace[j])
    ensures x.trace[k].call.completion.intent == x.intent
            && x.trace[k].call.completion.storage.namespaceOf == x.intent.service
  {
    hide C.FoundationIs, C.LastPass, C.SourceRejected, C.Unrepairable;
    var done := x.trace[..|x.at|];
    C.PrefixJustified(x.intent, x.trace, |x.at|);
    var before := done[..k];
    assert C.JustifiedCall(x.intent, before, done[k].call);
    var e := C.Event(C.InspectTarget, C.Schema(C.SReady));
    assert e in C.LastPass(before);
    PassIsRecent(before, e);
    j :| 0 <= j < |before| && before[j] == e;
  }

  lemma {:induction false} CompletionIsGuarded(states: seq<System>, steps: seq<Step>, xs: set<Executor>, i: nat)
    requires History(states, steps, xs) && i < |steps| && steps[i].CompleteStep?
    ensures Next(states[i], steps[i], states[i + 1])
  {
    hide C.Justified, TargetLayout, FinalizeCompleted, Invariant;
    var x, k :| x in xs && Completes(x, k, steps, i);
    var j := ReadBefore(x, k);
    assert Takes(x.intent, x.trace[j], steps[x.at[j]]);
    assert Happens(states[x.at[j]], steps[x.at[j]], states[x.at[j] + 1]);
    SeenGrows(states, steps, x.at[j] + 1, i);
  }

  /** However many coordinators run, crash and race in a system that answers truthfully when
      it says ready: what they do is a run, so everything that runs keep holds of it. The
      condition on completing steps is not assumed but follows from what `execute` writes. */
  lemma {:induction false} CoordinatorsRefine(states: seq<System>, steps: seq<Step>, xs: set<Executor>)
    requires History(states, steps, xs)
    ensures Run(states, steps)
  {
    hide C.Justified, Invariant, Plays, Next;
    forall i | 0 <= i < |steps| ensures Next(states[i], steps[i], states[i + 1]) {
      assert Happens(states[i], steps[i], states[i + 1]);
      if steps[i].CompleteStep? {
        CompletionIsGuarded(states, steps, xs, i);
      }
    }
  }

  /** So in any history a completed claim has its terminal snapshot one revision up, and its
      store has had the target layout. */
  lemma {:induction false} CompletedInHistory(states: seq<System>, steps: seq<Step>, xs: set<Executor>, i: nat,
                                              k: ClaimKey)
    requires History(states, steps, xs) && i < |states|
    requires EndedLifecycle(states[i].registry, k) && RowPhase(states[i].registry.claims[k]) == Completed
    ensures var row := states[i].registry.claims[k];
            && row.result.Some? && ValidTerminal(row.intent, row.result.value)
            && row.result.value.revision == row.intent.expectedRevision + 1
            && Reached(states[i], row.intent.service, TargetLayout(row.intent))
  {
    hide History, ValidTerminal, TargetLayout, Run;
    CoordinatorsRefine(states, steps, xs);
    CompletedIsBacked(states, steps, i, k);
  }
}
