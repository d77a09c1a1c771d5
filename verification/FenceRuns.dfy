/** Crash-and-retry runs of operational transitions on one materialised service, with one live
    executor at a time: when a closed fence and the committed status agree. */
module FenceRuns {
  import opened Ordering
  import opened Text
  import opened PortableStore
  import opened Services
  import opened Payloads
  import opened Operations
  import opened Lifecycle

  /** An admitted operation; its fingerprint covers all but the key. */
  datatype Operation = Operation(kind: OpKind, expectedRevision: int, createdVia: Text)

  datatype OpClaim = OpClaim(operation: Operation, phase: Phase)

  /** Where the one live executor stands: it has read the admitted claim, or has also seen the
      fence in the state its target status needs. */
  datatype Executor = Idle | AtStart(key: Text, operation: Operation) | AtFence(key: Text, operation: Operation)

  /** The committed registry row of the service, its claims, its store fence, the executor. */
  datatype World = World(status: Status, revision: int, updatedAt: Time, claims: map<Text, OpClaim>,
                         fence: Fence, executor: Executor)

  /** How saving the service ends: it is saved; it is refused, or raises before anything was
      written; or the row is written and the live identity then fails to follow. */
  datatype Save = Saved | NotSaved | HalfSaved

  datatype Step =
    | AdmitStep(key: Text, operation: Operation)
    | FenceStep
    | FinalizeStep(at: Time, save: Save)
    | ExportStep(completes: bool)
    | RecoverStep
    | OtherSaveStep(at: Time)
    | CrashStep

  predicate Unended(w: World, key: Text) {
    key in w.claims && w.claims[key].phase != Completed
  }

  predicate AnyUnended(w: World) {
    exists key :: key in w.claims && Unended(w, key)
  }

  /** `resolve_or_prepare` on a service that exists; None when nothing is prepared for the
      caller. */
  function Resolve(w: World, key: Text, o: Operation): Option<World> {
    if key in w.claims then
      if w.claims[key] == OpClaim(o, Prepared) then Some(w) else None
    else if w.revision != o.expectedRevision || AnyUnended(w) then None
    else if Operational(o.kind) && !Allowed(o.kind, w.status) then None
    else if o.kind == Export && w.status == Active then None
    else if o.kind == Purge || o.kind == Import then None
    else Some(w.(claims := w.claims[key := OpClaim(o, Prepared)]))
  }

  function WithPhase(w: World, key: Text, o: Operation, phase: Phase): World {
    w.(claims := w.claims[key := OpClaim(o, phase)])
  }

  /** `finalize_operational` on a prepared claim. Whatever goes wrong inside marks recovery in
      the same transaction, which is then committed. */
  function Finalize(w: World, key: Text, o: Operation, at: Time, save: Save): World
    requires Operational(o.kind)
  {
    if w.revision != o.expectedRevision || at < w.updatedAt || !Allowed(o.kind, w.status) || save == NotSaved
    then WithPhase(w, key, o, RecoveryRequired)
    else
      WithPhase(w.(status := TargetStatus(o.kind), revision := w.revision + 1, updatedAt := at), key, o,
                if save == Saved then Completed else RecoveryRequired)
  }

  predicate WantsOpen(o: Operation) {
    o.kind == Resume
  }

  /** One step. Between any two the executor may crash; the same key may then be retried, by
      a coordinator of any backend. A coordinator of another backend marks recovery without
      looking at the fence (`transition`). Other operations save the service only while no
      claim is unended. */
  ghost predicate Next(a: World, step: Step, b: World) {
    match step
    case AdmitStep(key, o) =>
      a.executor == Idle && Resolve(a, key, o).Some? && b == Resolve(a, key, o).value.(executor := AtStart(key, o))
    case FenceStep =>
      && a.executor.AtStart? && Operational(a.executor.operation.kind)
      && TransitionFence(a.fence, a.fence, WantsOpen(a.executor.operation)).Some?
      && b == a.(fence := TransitionFence(a.fence, a.fence, WantsOpen(a.executor.operation)).value,
                 executor := AtFence(a.executor.key, a.executor.operation))
    case FinalizeStep(at, save) =>
      && a.executor.AtFence? && Operational(a.executor.operation.kind)
      && b == Finalize(a, a.executor.key, a.executor.operation, at, save).(executor := Idle)
    case ExportStep(completes) =>
      && a.executor.AtStart? && a.executor.operation.kind == Export
      && b == WithPhase(a, a.executor.key, a.executor.operation, if completes then Completed else RecoveryRequired).(executor := Idle)
    case RecoverStep =>
      && a.executor.AtStart? && Operational(a.executor.operation.kind)
      && b == WithPhase(a, a.executor.key, a.executor.operation, RecoveryRequired).(executor := Idle)
    case OtherSaveStep(at) =>
      && !AnyUnended(a) && a.status == Active && a.updatedAt <= at
      && b == a.(revision := a.revision + 1, updatedAt := at)
    case CrashStep => b == a.(executor := Idle)
  }

  /** A resume claim in one of the given phases. */
  predicate ResumeIn(w: World, prepared: bool) {
    exists key :: key in w.claims && w.claims[key].operation.kind == Resume
                  && (w.claims[key].phase == Prepared || (!prepared && w.claims[key].phase == RecoveryRequired))
  }

  /** A suspended or archived service has a closed fence, unless a resume is prepared. */
  predicate Fenced(w: World) {
    w.status != Active && w.fence.open ==> ResumeIn(w, true)
  }

  /** The same, allowing a resume that needs recovery. */
  predicate FencedOrRecovering(w: World) {
    w.status != Active && w.fence.open ==> ResumeIn(w, false)
  }

  ghost predicate Invariant(w: World) {
    && (forall k, m :: Unended(w, k) && Unended(w, m) ==> k == m)
    && (forall k :: k in w.claims && w.claims[k].phase == Prepared ==> Fits(w, w.claims[k].operation))
    && (w.executor != Idle ==> w.executor.key in w.claims && w.claims[w.executor.key] == OpClaim(w.executor.operation, Prepared))
    && (w.executor.AtFence? ==> w.fence.open == WantsOpen(w.executor.operation))
    && FencedOrRecovering(w)
  }

  /** While a claim is prepared its service is as it was admitted. */
  predicate Fits(w: World, o: Operation) {
    && w.revision == o.expectedRevision
    && (Operational(o.kind) ==> Allowed(o.kind, w.status))
    && (o.kind == Export ==> w.status != Active)
    && (Operational(o.kind) || o.kind == Export)
  }

  /** The three ways in which a resume is given up over an open fence: its clock is behind the
      last update of the service, saving the service fails, or recovery is marked before the
      fence is looked at, by a retry of an execution that had already opened it. */
  predicate GivesUp(a: World, step: Step) {
    match step
    case FinalizeStep(at, save) =>
      a.executor.AtFence? && a.executor.operation.kind == Resume && (at < a.updatedAt || save == NotSaved)
    case RecoverStep => a.executor.AtStart? && a.executor.operation.kind == Resume && a.fence.open
    case _ => false
  }

  lemma {:induction false} AdmitKeeps(a: World, b: World, key: Text, o: Operation)
    requires Invariant(a) && Next(a, AdmitStep(key, o), b)
    ensures Invariant(b) && (Fenced(a) ==> Fenced(b))
  {
    if key !in a.claims {
      assert forall k :: Unended(b, k) ==> k == key || Unended(a, k);
      assert forall k :: k in a.claims ==> b.claims[k] == a.claims[k] && k in b.claims;
    } else {
      assert forall k :: Unended(b, k) <==> Unended(a, k);
    }
  }

  lemma {:induction false} FenceKeeps(a: World, b: World)
    requires Invariant(a) && Next(a, FenceStep, b)
    ensures Invariant(b) && (Fenced(a) ==> Fenced(b))
  {
    var key := a.executor.key;
    assert Fits(a, a.claims[key].operation);
    assert forall k :: Unended(b, k) <==> Unended(a, k);
    if b.status != Active && b.fence.open {
      assert key in b.claims && b.claims[key].operation.kind == Resume && b.claims[key].phase == Prepared;
    }
  }

  lemma {:induction false} FinalizeKeeps(a: World, b: World, at: Time, save: Save)
    requires Invariant(a) && Next(a, FinalizeStep(at, save), b)
    ensures Invariant(b)
    ensures Fenced(a) ==> (Fenced(b) <==> !GivesUp(a, FinalizeStep(at, save)))
  {
    var key, o := a.executor.key, a.executor.operation;
    assert Unended(a, key);
    assert Fits(a, o);
    forall k | k in b.claims && k != key ensures b.claims[k] == a.claims[k] && a.claims[k].phase == Completed {
      assert !Unended(a, k);
    }
    assert forall k :: Unended(b, k) ==> k == key;
    if at < a.updatedAt || save == NotSaved {
      assert b.claims[key] == OpClaim(o, RecoveryRequired);
      assert forall k :: k in b.claims ==> b.claims[k].phase != Prepared;
    }
  }

  lemma {:induction false} EndKeeps(a: World, step: Step, b: World)
    requires Invariant(a) && Next(a, step, b) && (step.ExportStep? || step == RecoverStep)
    ensures Invariant(b) && (Fenced(a) ==> (Fenced(b) <==> !GivesUp(a, step)))
  {
    var key, o := a.executor.key, a.executor.operation;
    assert Unended(a, key);
    assert Fits(a, o);
    forall k | k in b.claims && k != key ensures b.claims[k] == a.claims[k] && a.claims[k].phase == Completed {
      assert !Unended(a, k);
    }
    assert forall k :: Unended(b, k) ==> k == key;
    if a.status != Active && a.fence.open {
      var resume :| resume in a.claims && a.claims[resume].operation.kind == Resume && Unended(a, resume);
      assert resume == key && key in b.claims && b.claims[key] == OpClaim(o, RecoveryRequired);
    }
  }

  lemma {:induction false} OtherKeeps(a: World, b: World, at: Time)
    requires Invariant(a) && Next(a, OtherSaveStep(at), b)
    ensures Invariant(b) && (Fenced(a) ==> Fenced(b))
  {
    forall k | k in a.claims ensures a.claims[k].phase == Completed {
      assert !Unended(a, k);
    }
    assert forall k :: !Unended(b, k);
  }

  /** Every step keeps the weaker statement; it keeps the strong one exactly when it does not
      give up a resume over an open fence. */
  lemma {:induction false} StepKeeps(a: World, step: Step, b: World)
    requires Invariant(a) && Next(a, step, b)
    ensures Invariant(b)
    ensures Fenced(a) ==> (Fenced(b) <==> !GivesUp(a, step))
  {
    match step {
      case AdmitStep(key, o) => AdmitKeeps(a, b, key, o);
      case FenceStep => FenceKeeps(a, b);
      case FinalizeStep(at, save) => FinalizeKeeps(a, b, at, save);
      case ExportStep(_) => EndKeeps(a, step, b);
      case RecoverStep => EndKeeps(a, step, b);
      case OtherSaveStep(at) => OtherKeeps(a, b, at);
      case CrashStep =>
        assert forall k :: Unended(b, k) <==> Unended(a, k);
    }
  }

  // ----- whole runs -----

  ghost predicate Run(states: seq<World>, steps: seq<Step>) {
    && |states| == |steps| + 1 && Invariant(states[0]) && Fenced(states[0])
    && forall i :: 0 <= i < |steps| ==> Next(states[i], steps[i], states[i + 1])
  }

  lemma {:induction false} RunKeeps(states: seq<World>, steps: seq<Step>, i: nat)
    requires Run(states, steps) && i < |states|
    ensures Invariant(states[i])
  {
    hide Invariant, Next, Fenced;
    if i > 0 {
      RunKeeps(states, steps, i - 1);
      StepKeeps(states[i - 1], steps[i - 1], states[i]);
    }
  }

  /** A resume that needs recovery over an open fence: nobody can move on from here. */
  ghost predicate Stuck(w: World) {
    && w.status != Active && w.fence.open && w.executor == Idle
    && exists key :: key in w.claims && w.claims[key].operation.kind == Resume && w.claims[key].phase == RecoveryRequired
  }

  lemma {:induction false} GivenUpIsStuck(a: World, step: Step, b: World)
    requires Invariant(a) && Next(a, step, b) && GivesUp(a, step)
    ensures Stuck(b)
  {
    var key, o := a.executor.key, a.executor.operation;
    assert Fits(a, o);
    assert b.claims[key] == OpClaim(o, RecoveryRequired);
  }

  lemma {:induction false} StuckStays(a: World, step: Step, b: World)
    requires Invariant(a) && Stuck(a) && Next(a, step, b)
    ensures Stuck(b) && !Fenced(b)
  {
    var key :| key in a.claims && a.claims[key].operation.kind == Resume && a.claims[key].phase == RecoveryRequired;
    assert Unended(a, key);
    forall k | k in a.claims ensures a.claims[k].phase != Prepared {
      if a.claims[k].phase == Prepared {
        assert Unended(a, k);
      }
    }
    assert AnyUnended(a);
  }

  /** A resume was given up over an open fence at some earlier step of the run. */
  ghost predicate GivenUp(states: seq<World>, steps: seq<Step>, n: nat)
    requires |states| == |steps| + 1 && n <= |steps|
  {
    exists i :: 0 <= i < n && GivesUp(states[i], steps[i])
  }

  /** Over any run of admissions, crashes and retries: the fence of a suspended or archived
      service is closed unless a resume is prepared, exactly as long as no resume was given up
      over an open fence. Once that has happened, the fence stays open under a resume that
      requires recovery. */
  lemma {:induction false} FenceIff(states: seq<World>, steps: seq<Step>, n: nat)
    requires Run(states, steps) && n <= |steps|
    ensures Fenced(states[n]) <==> !GivenUp(states, steps, n)
    ensures GivenUp(states, steps, n) ==> Stuck(states[n])
    ensures FencedOrRecovering(states[n])
  {
    hide Next, Fenced, Stuck, GivesUp;
    RunKeeps(states, steps, n);
    if n > 0 {
      FenceIff(states, steps, n - 1);
      RunKeeps(states, steps, n - 1);
      var a, step, b := states[n - 1], steps[n - 1], states[n];
      StepKeeps(a, step, b);
      if GivenUp(states, steps, n - 1) {
        StuckStays(a, step, b);
        var i :| 0 <= i < n - 1 && GivesUp(states[i], steps[i]);
        assert 0 <= i < n && GivesUp(states[i], steps[i]);
      } else {
        assert GivenUp(states, steps, n) <==> GivesUp(a, step);
        if GivesUp(a, step) {
          GivenUpIsStuck(a, step, b);
        }
      }
    }
  }

  const SAMPLE_RESUME: Operation := Operation(Resume, 7, [])

  /** A suspended service whose resume has been admitted, and then has opened the fence. */
  const SUSPENDED: World := World(Suspended, 7, 100, map[], Fence(2, false), Idle)
  const ADMITTED: World :=
    SUSPENDED.(claims := map[[1] := OpClaim(SAMPLE_RESUME, Prepared)], executor := AtStart([1], SAMPLE_RESUME))
  const OPENED: World := ADMITTED.(fence := Fence(3, true), executor := AtFence([1], SAMPLE_RESUME))
  const GIVEN_UP: World := OPENED.(claims := map[[1] := OpClaim(SAMPLE_RESUME, RecoveryRequired)], executor := Idle)

  lemma {:induction false} SampleSteps()
    ensures Invariant(SUSPENDED) && Fenced(SUSPENDED) && !Fenced(GIVEN_UP)
    ensures Next(SUSPENDED, AdmitStep([1], SAMPLE_RESUME), ADMITTED) && Next(ADMITTED, FenceStep, OPENED)
    ensures ADMITTED.claims[[1] := OpClaim(SAMPLE_RESUME, RecoveryRequired)] == GIVEN_UP.claims
  {
    assert SUSPENDED.claims[[1] := OpClaim(SAMPLE_RESUME, Prepared)] == ADMITTED.claims;
  }

  /** The failing runs: a suspended service is resumed and its fence opens; then the clock has
      gone back by one tick, or the service cannot be saved, when the resume is finalized. */
  lemma {:induction false} OpenWhileSuspended()
    ensures forall last: Step :: last == FinalizeStep(99, Saved) || last == FinalizeStep(100, NotSaved) ==>
              && Run([SUSPENDED, ADMITTED, OPENED, GIVEN_UP], [AdmitStep([1], SAMPLE_RESUME), FenceStep, last])
              && GIVEN_UP.status == Suspended && GIVEN_UP.fence.open && !Fenced(GIVEN_UP)
  {
    SampleSteps();
    assert Next(OPENED, FinalizeStep(99, Saved), GIVEN_UP) && Next(OPENED, FinalizeStep(100, NotSaved), GIVEN_UP);
  }

  /** Or the executor crashes with the fence open, and a coordinator of another backend retries
      the same key. */
  lemma {:induction false} OpenAfterForeignRetry()
    ensures Run([SUSPENDED, ADMITTED, OPENED, OPENED.(executor := Idle),
                 OPENED.(executor := AtStart([1], SAMPLE_RESUME)), GIVEN_UP],
                [AdmitStep([1], SAMPLE_RESUME), FenceStep, CrashStep, AdmitStep([1], SAMPLE_RESUME), RecoverStep])
    ensures GIVEN_UP.status == Suspended && GIVEN_UP.fence.open && !Fenced(GIVEN_UP)
  {
    SampleSteps();
    var idle, again := OPENED.(executor := Idle), OPENED.(executor := AtStart([1], SAMPLE_RESUME));
    assert Next(OPENED, CrashStep, idle) && Next(idle, AdmitStep([1], SAMPLE_RESUME), again);
    assert Next(again, RecoverStep, GIVEN_UP);
  }

  // ----- a change that nothing disturbs -----

  /** A new operation that may be admitted: the service is at the expected revision, nothing on
      it is unended, and its status allows the operation. */
  predicate Free(w: World, key: Text, o: Operation) {
    && w.executor == Idle && key !in w.claims && w.revision == o.expectedRevision
    && (forall k :: k in w.claims ==> w.claims[k].phase == Completed)
    && Operational(o.kind) && Allowed(o.kind, w.status)
  }

  /** From any world in which it may be admitted, a status change whose clock is not behind and
      whose save succeeds is three steps: the service then has the target status, one revision
      up, its fence is open exactly if it is active, and the claim is completed. */
  lemma {:induction false} ChangeCompletes(w: World, key: Text, o: Operation, at: Time)
    requires Free(w, key, o) && w.updatedAt <= at
    requires TransitionFence(w.fence, w.fence, TargetStatus(o.kind) == Active).Some?
    ensures exists a: World, b: World, c: World ::
              && Next(w, AdmitStep(key, o), a) && Next(a, FenceStep, b) && Next(b, FinalizeStep(at, Saved), c)
              && c.status == TargetStatus(o.kind) && c.revision == w.revision + 1 && c.updatedAt == at
              && (c.fence.open <==> c.status == Active) && c.executor == Idle
              && c.claims == w.claims[key := OpClaim(o, Completed)]
  {
    var a := Resolve(w, key, o).value.(executor := AtStart(key, o));
    var b := a.(fence := TransitionFence(a.fence, a.fence, WantsOpen(o)).value, executor := AtFence(key, o));
    var c := Finalize(b, key, o, at, Saved).(executor := Idle);
    assert Next(w, AdmitStep(key, o), a) && Next(a, FenceStep, b) && Next(b, FinalizeStep(at, Saved), c);
    assert c.claims == w.claims[key := OpClaim(o, Completed)];
  }

  /** Nothing is prepared anew under any other condition: a claim is admitted exactly when it
      was prepared before, or is free to be, or is an export of a service that is out of use. */
  lemma {:induction false} ResolvedIff(w: World, key: Text, o: Operation)
    requires w.executor == Idle
    ensures Resolve(w, key, o).Some?
       <==> (key in w.claims && w.claims[key] == OpClaim(o, Prepared))
            || Free(w, key, o)
            || (o.kind == Export && w.status != Active && key !in w.claims && w.revision == o.expectedRevision
                && forall k :: k in w.claims ==> w.claims[k].phase == Completed)
  {
    assert AnyUnended(w) <==> exists k :: k in w.claims && w.claims[k].phase != Completed by {
      assert forall k :: Unended(w, k) <==> k in w.claims && w.claims[k].phase != Completed;
    }
  }
}
