/** Why the runs of `FenceRuns` are the runs of the program: what a status change calls, in a
    registry and a store that do what they answer, is a path of those steps, wherever the
    execution stops. */
module FenceRefinement {
  import opened Ordering
  import opened Services
  import opened Operations
  import opened Lifecycle
  import opened FenceRuns
  import C = PortableCoordinator

  function OperationOf(r: C.Request): Operation {
    Operation(r.kind, r.expectedRevision, r.createdVia)
  }

  predicate CommittedFrom(t: C.Trace, k: nat) {
    exists j :: k <= j < |t| && t[j].call.CommitUow? && !t[j].answer.Failed?
  }

  predicate PreparedHere(w: World, r: C.Request) {
    r.key in w.claims && w.claims[r.key] == OpClaim(OperationOf(r), Prepared)
  }

  /** What the call at `k` does to the world, and that its answer is true of it. A write may be
      lost: an admission that is never committed, a fence whose change was not answered, a
      final transaction that is not committed. */
  ghost predicate Effect(request: C.Request, t: C.Trace, k: nat, a: World, b: World)
    requires k < |t|
  {
    var answer := t[k].answer;
    match t[k].call
    case Resolve(_) =>
      if answer.VerdictIs? && answer.verdict.PreparedFor? then
        && answer.verdict.request == request && Resolve(a, request.key, OperationOf(request)).Some?
        && (b == Resolve(a, request.key, OperationOf(request)).value || (b == a && !CommittedFrom(t, k)))
      else b == a
    case GetService => b == a && (answer.ServiceIs? && answer.service.Some? ==> answer.service.value.design == Materialised)
    case ReadFence => b == a && (answer.FenceIs? ==> answer.fence == a.fence)
    case ChangeFence(observed, open) =>
      || (b == a && !answer.FenceIs?)
      || (&& TransitionFence(a.fence, observed, open).Some?
          && b == a.(fence := TransitionFence(a.fence, observed, open).value)
          && (answer.FenceIs? ==> answer.fence == b.fence))
    case EndWith(FinalizeOperational(r, at)) =>
      b == a || (PreparedHere(a, r) && Operational(r.kind) && exists save :: b == Finalize(a, r.key, OperationOf(r), at, save))
    case EndWith(MarkRecovery(r, _)) =>
      b == a || (PreparedHere(a, r) && b == WithPhase(a, r.key, OperationOf(r), RecoveryRequired))
    case _ => b == a
  }

  /** The resume was marked for recovery over an open fence, and the service is still out of
      service. */
  predicate Abandons(r: C.Request, a: World, b: World) {
    && r.kind == Resume && a.fence.open && PreparedHere(a, r)
    && b.status != Active && r.key in b.claims && b.claims[r.key].phase == RecoveryRequired
  }

  predicate Abandoned(r: C.Request, worlds: seq<World>, n: nat)
    requires n < |worlds|
  {
    exists k :: 0 <= k < n && Abandons(r, worlds[k], worlds[k + 1])
  }

  /** The worlds before, between and after the calls; no executor is part of them. */
  ghost predicate Honest(request: C.Request, t: C.Trace, worlds: seq<World>) {
    && |worlds| == |t| + 1 && (forall w :: w in worlds ==> w.executor == Idle)
    && forall k: nat :: k < |t| ==> Effect(request, t, k, worlds[k], worlds[k + 1])
  }

  ghost predicate Path(states: seq<World>, steps: seq<Step>) {
    |states| == |steps| + 1 && forall i :: 0 <= i < |steps| ==> Next(states[i], steps[i], states[i + 1])
  }

  /** One world leads to another by steps of `FenceRuns`, of which one gives up a resume, or
      none does. */
  ghost predicate Leads(a: World, b: World, gaveUp: bool) {
    exists states, steps ::
      Path(states, steps) && states[0] == a && states[|states| - 1] == b && (gaveUp <==> GivenUp(states, steps, |steps|))
  }

  lemma {:induction false} LeadsSelf(a: World)
    ensures Leads(a, a, false)
  {
    var states, steps: seq<Step> := [a], [];
    assert Path(states, steps) && !GivenUp(states, steps, |steps|);
  }

  lemma {:induction false} LeadsNext(a: World, step: Step, b: World)
    requires Next(a, step, b)
    ensures Leads(a, b, GivesUp(a, step))
  {
    hide Next, GivesUp;
    var states, steps := [a, b], [step];
    assert Path(states, steps);
    assert GivesUp(states[0], steps[0]) ==> GivenUp(states, steps, |steps|);
  }

  /** Two paths, the second from where the first ends, are one. */
  lemma {:induction false} PathsJoin(s: seq<World>, x: seq<Step>, r: seq<World>, y: seq<Step>)
    requires Path(s, x) && Path(r, y) && s[|s| - 1] == r[0]
    ensures Path(s + r[1..], x + y)
  {
    hide Next;
    var states, steps := s + r[1..], x + y;
    forall i | 0 <= i < |steps| ensures Next(states[i], steps[i], states[i + 1]) {
      if i < |x| {
        assert Next(s[i], x[i], s[i + 1]);
      } else {
        assert states[i] == r[i - |x|] && states[i + 1] == r[i - |x| + 1];
      }
    }
  }

  lemma {:induction false} JoinGivesUp(s: seq<World>, x: seq<Step>, r: seq<World>, y: seq<Step>)
    requires |s| == |x| + 1 && |r| == |y| + 1 && s[|s| - 1] == r[0]
    ensures GivenUp(s + r[1..], x + y, |x + y|) <==> GivenUp(s, x, |x|) || GivenUp(r, y, |y|)
  {
    hide GivesUp;
    var states, steps := s + r[1..], x + y;
    forall i | 0 <= i < |x| ensures states[i] == s[i] && steps[i] == x[i] {
    }
    forall i | 0 <= i < |y| ensures states[i + |x|] == r[i] && steps[i + |x|] == y[i] {
    }
    if GivenUp(s, x, |x|) {
      var i :| 0 <= i < |x| && GivesUp(s[i], x[i]);
      assert GivesUp(states[i], steps[i]);
    }
    if GivenUp(r, y, |y|) {
      var i :| 0 <= i < |y| && GivesUp(r[i], y[i]);
      assert GivesUp(states[i + |x|], steps[i + |x|]);
    }
    if GivenUp(states, steps, |steps|) {
      var i :| 0 <= i < |steps| && GivesUp(states[i], steps[i]);
      if i >= |x| {
        assert states[i - |x| + |x|] == r[i - |x|] && steps[i - |x| + |x|] == y[i - |x|];
      }
    }
  }

  lemma {:induction false} LeadsOn(a: World, b: World, c: World, first: bool, second: bool)
    requires Leads(a, b, first) && Leads(b, c, second)
    ensures Leads(a, c, first || second)
  {
    hide Next, GivenUp;
    var s, x :| Path(s, x) && s[0] == a && s[|s| - 1] == b && (first <==> GivenUp(s, x, |x|));
    var r, y :| Path(r, y) && r[0] == b && r[|r| - 1] == c && (second <==> GivenUp(r, y, |y|));
    PathsJoin(s, x, r, y);
    JoinGivesUp(s, x, r, y);
    var states, steps := s + r[1..], x + y;
    assert Path(states, steps) && states[0] == a && states[|states| - 1] == c;
  }

  lemma {:induction false} InvariantAlong(states: seq<World>, steps: seq<Step>, i: nat)
    requires Path(states, steps) && Invariant(states[0]) && i < |states|
    ensures Invariant(states[i])
  {
    hide Invariant, Next, Fenced;
    if i > 0 {
      InvariantAlong(states, steps, i - 1);
      StepKeeps(states[i - 1], steps[i - 1], states[i]);
    }
  }

  lemma {:induction false} LeadsInvariant(a: World, b: World, gaveUp: bool)
    requires Invariant(a) && Leads(a, b, gaveUp)
    ensures Invariant(b)
  {
    hide Invariant, Next, GivenUp;
    var states, steps :| Path(states, steps) && states[0] == a && states[|states| - 1] == b
                         && (gaveUp <==> GivenUp(states, steps, |steps|));
    InvariantAlong(states, steps, |steps|);
  }

  /** What holds of the world at the end of a path. */
  lemma {:induction false} LeadsKeeps(a: World, b: World, gaveUp: bool)
    requires Invariant(a) && Fenced(a) && Leads(a, b, gaveUp)
    ensures Invariant(b) && FencedOrRecovering(b) && (Fenced(b) <==> !gaveUp)
  {
    hide Next, Invariant, Fenced, GivesUp, FencedOrRecovering;
    var states, steps :| Path(states, steps) && states[0] == a && states[|states| - 1] == b
                         && (gaveUp <==> GivenUp(states, steps, |steps|));
    assert Run(states, steps);
    FenceIff(states, steps, |steps|);
    RunKeeps(states, steps, |steps|);
  }

  // ----- where the executor stands -----

  /** The last answer of the store about the fence is true of the world. */
  ghost predicate FenceKnown(events: C.Trace, w: World) {
    events != [] && events[|events| - 1].answer.FenceIs? ==> events[|events| - 1].answer.fence == w.fence
  }

  /** The executor of a path, in terms of the calls made so far. */
  ghost predicate Stands(request: C.Request, t: C.Trace, n: nat, w: World, x: Executor)
    requires n <= |t|
  {
    var u := t[..n];
    var p, events := C.ProgressOf(u), C.StoreEvents(u);
    && (p.prepared.Some? ==> p.prepared == Some(request))
    && (p.service.Some? ==> p.service.value.design == Materialised)
    && (p.prepared.None? || C.Finals(u) != [] ==> x == Idle)
    && (x != Idle ==> x.key == request.key && x.operation == OperationOf(request))
    && (p.prepared.Some? && x == Idle && C.Finals(u) == [] ==> !p.committed && !CommittedFrom(t, n))
    && (x.AtFence? ==> |events| >= 2 && w.fence.open == WantsOpen(OperationOf(request)))
    && (events != [] && events[|events| - 1].call.ChangeFence? && events[|events| - 1].answer.FenceIs? && C.Finals(u) == [] ==>
          x.AtFence?)
    && FenceKnown(events, w)
  }

  lemma {:induction false} OneMore(t: C.Trace, n: nat)
    requires n < |t|
    ensures C.ProgressOf(t[..n + 1]) == C.Advance(C.ProgressOf(t[..n]), t[n])
    ensures C.StoreEvents(t[..n + 1]) == C.StoreEvents(t[..n]) + if C.AsksStore(t[n].call) then [t[n]] else []
    ensures C.Finals(t[..n + 1]) == C.Finals(t[..n]) + if C.Ends(t[n].call) then [t[n]] else []
  {
    assert t[..n + 1] == t[..n] + [t[n]];
    C.SelectOne(t[..n], t[n]);
    C.ProgressOne(t[..n], t[n]);
  }

  /** The target of an allowed change is open exactly for a resume. */
  lemma {:induction false} WantedFence(request: C.Request, status: Status)
    requires TransitionTarget(request.kind, status).Some?
    ensures (TransitionTarget(request.kind, status).value == Active) == WantsOpen(OperationOf(request))
  {
  }

  /** Reads, commits and closes: the executor stays where it is. */
  lemma {:induction false} AsideStands(request: C.Request, t: C.Trace, n: nat, a: World, b: World, x: Executor)
    requires n < |t| && Stands(request, t, n, a, x) && Effect(request, t, n, a, b)
    requires C.Quiet(t[n].call) || t[n].call.GetService? || t[n].call.ReadFence?
    ensures b == a && !Abandons(request, a, b) && Stands(request, t, n + 1, b, x)
  {
    hide C.ProgressOf, C.StoreEvents, C.Finals;
    OneMore(t, n);
    assert C.StoreEvents(t[..n]) + [] == C.StoreEvents(t[..n]) && C.Finals(t[..n]) + [] == C.Finals(t[..n]);
    assert CommittedFrom(t, n + 1) ==> CommittedFrom(t, n);
  }

  lemma {:induction false} ResolveStands(request: C.Request, t: C.Trace, n: nat, a: World, b: World, x: Executor)
    returns (y: Executor)
    requires n < |t| && Stands(request, t, n, a, x) && Effect(request, t, n, a, b) && a.executor == Idle
    requires t[n].call == C.Resolve(request) && C.ProgressOf(t[..n]) == C.NO_PROGRESS
    requires C.StoreEvents(t[..n]) == [] && C.Finals(t[..n]) == []
    ensures Leads(a.(executor := x), b.(executor := y), false) && !Abandons(request, a, b)
    ensures Stands(request, t, n + 1, b, y)
  {
    hide C.ProgressOf, C.StoreEvents, C.Finals, Leads;
    OneMore(t, n);
    assert CommittedFrom(t, n + 1) ==> CommittedFrom(t, n);
    var answer, o := t[n].answer, OperationOf(request);
    assert x == Idle && a.(executor := x) == a;
    if answer.VerdictIs? && answer.verdict.PreparedFor? && b == Resolve(a, request.key, o).value {
      y := AtStart(request.key, o);
      LeadsNext(a, AdmitStep(request.key, o), b.(executor := y));
    } else {
      y := Idle;
      assert b.(executor := y) == a;
      LeadsSelf(a);
    }
  }

  lemma {:induction false} ChangeStands(request: C.Request, backend: Backend, t: C.Trace, n: nat, a: World, b: World,
                                        x: Executor)
    returns (y: Executor)
    requires n < |t| && Stands(request, t, n, a, x) && Effect(request, t, n, a, b) && Operational(request.kind)
    requires t[n].call.ChangeFence? && C.MayChangeFence(request, backend, t[..n], t[n].call.observed, t[n].call.open)
    ensures Leads(a.(executor := x), b.(executor := y), false) && !Abandons(request, a, b)
    ensures Stands(request, t, n + 1, b, y)
  {
    hide C.ProgressOf, C.StoreEvents, C.Finals, Leads, C.StoreMatches;
    OneMore(t, n);
    assert CommittedFrom(t, n + 1) ==> CommittedFrom(t, n);
    assert C.Finals(t[..n]) + [] == C.Finals(t[..n]);
    WantedFence(request, C.ProgressOf(t[..n]).service.value.status);
    assert a.fence == t[n].call.observed && x.AtStart?;
    if b == a && !t[n].answer.FenceIs? {
      y := x;
      LeadsSelf(a.(executor := x));
    } else {
      y := AtFence(request.key, OperationOf(request));
      LeadsNext(a.(executor := x), FenceStep, b.(executor := y));
    }
  }

  lemma {:induction false} EndStands(request: C.Request, backend: Backend, t: C.Trace, n: nat, a: World, b: World,
                                     x: Executor)
    requires n < |t| && Stands(request, t, n, a, x) && Effect(request, t, n, a, b) && Operational(request.kind)
    requires t[n].call.EndWith? && C.MayCall(request, backend, t[..n], t[n].call)
    requires a.executor == Idle && b.executor == Idle && Invariant(a.(executor := x))
    ensures Leads(a.(executor := x), b, Abandons(request, a, b)) && Stands(request, t, n + 1, b, Idle)
  {
    hide C.ProgressOf, C.StoreEvents, C.Finals, Leads, C.StoreMatches, Finalize, WithPhase, Invariant;
    OneMore(t, n);
    assert CommittedFrom(t, n + 1) ==> CommittedFrom(t, n);
    assert C.StoreEvents(t[..n]) + [] == C.StoreEvents(t[..n]);
    WrittenFence(request, t, n, a, b);
    if b == a {
      LeadsNext(a.(executor := x), CrashStep, b);
    } else if t[n].call.final.FinalizeOperational? {
      FinalizeLeads(request, t, n, a, b, x);
    } else {
      RecoverLeads(request, backend, t, n, a, b, x);
    }
  }

  lemma {:induction false} WrittenFence(request: C.Request, t: C.Trace, n: nat, a: World, b: World)
    requires n < |t| && t[n].call.EndWith? && Effect(request, t, n, a, b)
    ensures b.fence == a.fence
  {
  }

  lemma {:induction false} FinalizeLeads(request: C.Request, t: C.Trace, n: nat, a: World, b: World, x: Executor)
    requires n < |t| && Stands(request, t, n, a, x) && Effect(request, t, n, a, b) && Operational(request.kind)
    requires t[n].call.EndWith? && t[n].call.final.FinalizeOperational?
    requires C.MayFinalize(request, t[..n], t[n].call.final.request)
    requires a.executor == Idle && b.executor == Idle && b != a && Invariant(a.(executor := x))
    ensures Leads(a.(executor := x), b, Abandons(request, a, b))
  {
    hide C.ProgressOf, C.StoreEvents, C.Finals, Leads, C.StoreMatches;
    var at, o := t[n].call.final.at, OperationOf(request);
    var save :| b == Finalize(a, request.key, o, at, save);
    WantedFence(request, C.ProgressOf(t[..n]).service.value.status);
    assert a.fence.open == WantsOpen(o);
    var start, ready := a.(executor := x), a.(executor := AtFence(request.key, o));
    assert Fits(start, o);
    if x.AtStart? {
      LeadsNext(start, FenceStep, ready);
    } else {
      assert start == ready;
      LeadsSelf(start);
    }
    assert Finalize(ready, request.key, o, at, save).(executor := Idle) == b;
    LeadsNext(ready, FinalizeStep(at, save), b);
    LeadsOn(start, ready, b, false, GivesUp(ready, FinalizeStep(at, save)));
    assert GivesUp(ready, FinalizeStep(at, save)) == Abandons(request, a, b);
  }

  lemma {:induction false} RecoverLeads(request: C.Request, backend: Backend, t: C.Trace, n: nat, a: World, b: World,
                                          x: Executor)
    requires n < |t| && Stands(request, t, n, a, x) && Effect(request, t, n, a, b) && Operational(request.kind)
    requires t[n].call.EndWith? && t[n].call.final.MarkRecovery?
    requires C.MayRecover(request, backend, t[..n], t[n].call.final.request)
    requires a.executor == Idle && b.executor == Idle && b != a && Invariant(a.(executor := x))
    ensures Leads(a.(executor := x), b, Abandons(request, a, b))
  {
    hide C.ProgressOf, C.StoreEvents, C.Finals, Leads, C.StoreMatches;
    var s := C.ProgressOf(t[..n]).service.value;
    if TransitionTarget(request.kind, s.status).Some? {
      WantedFence(request, s.status);
    }
    var start := a.(executor := x);
    assert x.AtStart? && Fits(start, OperationOf(request));
    LeadsNext(start, RecoverStep, b);
    assert GivesUp(start, RecoverStep) == Abandons(request, a, b);
  }

  /** Any execution of a status change against an honest registry and store leads from the
      world it found to the world it left, wherever it stopped, by steps of `FenceRuns`; one of
      them gives up a resume exactly when the execution abandoned its own. */
  lemma {:induction false} StatusRefines(request: C.Request, backend: Backend, t: C.Trace, worlds: seq<World>)
    requires Operational(request.kind) && C.Protocol(request, backend, t) && Honest(request, t, worlds)
    requires Invariant(worlds[0])
    ensures forall n :: 0 <= n <= |t| ==> Leads(worlds[0], worlds[n], Abandoned(request, worlds, n))
  {
    hide Leads, C.Protocol, Stands, Effect, Invariant, Abandoned;
    forall n | 0 <= n <= |t| ensures Leads(worlds[0], worlds[n], Abandoned(request, worlds, n)) {
      var x := Reached(request, backend, t, worlds, n);
      assert worlds[n] in worlds;
      assert worlds[n].(executor := x).(executor := Idle) == worlds[n];
      LeadsNext(worlds[n].(executor := x), CrashStep, worlds[n]);
      LeadsOn(worlds[0], worlds[n].(executor := x), worlds[n], Abandoned(request, worlds, n), false);
    }
  }

  lemma {:induction false} Reached(request: C.Request, backend: Backend, t: C.Trace, worlds: seq<World>, n: nat)
    returns (x: Executor)
    requires Operational(request.kind) && C.Protocol(request, backend, t) && Honest(request, t, worlds) && n <= |t|
    requires Invariant(worlds[0])
    ensures Leads(worlds[0], worlds[n].(executor := x), Abandoned(request, worlds, n))
    ensures Stands(request, t, n, worlds[n], x)
  {
    hide Leads, Stands, Effect, C.MayChangeFence, C.MayFinalize, C.MayRecover, Abandons, Invariant;
    assert worlds[n] in worlds;
    if n == 0 {
      x := Idle;
      assert worlds[0].(executor := Idle) == worlds[0];
      LeadsSelf(worlds[0]);
      NothingStands(request, t, worlds[0]);
    } else {
      var y := Reached(request, backend, t, worlds, n - 1);
      var a, b, call := worlds[n - 1], worlds[n], t[n - 1].call;
      assert a in worlds && Effect(request, t, n - 1, a, b) && C.MayCall(request, backend, t[..n - 1], call);
      if call.Resolve? {
        x := ResolveStands(request, t, n - 1, a, b, y);
      } else if call.ChangeFence? {
        x := ChangeStands(request, backend, t, n - 1, a, b, y);
      } else if call.EndWith? {
        LeadsInvariant(worlds[0], a.(executor := y), Abandoned(request, worlds, n - 1));
        EndStands(request, backend, t, n - 1, a, b, y);
        x := Idle;
        assert b.(executor := Idle) == b;
      } else {
        AsideStands(request, t, n - 1, a, b, y);
        x := y;
        LeadsSelf(a.(executor := y));
      }
      LeadsOn(worlds[0], a.(executor := y), b.(executor := x), Abandoned(request, worlds, n - 1), Abandons(request, a, b));
      OneMoreWorld(request, worlds, n);
    }
  }

  lemma {:induction false} OneMoreWorld(request: C.Request, worlds: seq<World>, n: nat)
    requires 0 < n < |worlds|
    ensures Abandoned(request, worlds, n) <==>
              Abandoned(request, worlds, n - 1) || Abandons(request, worlds[n - 1], worlds[n])
  {
    hide Abandons;
    if Abandoned(request, worlds, n - 1) {
      var k :| 0 <= k < n - 1 && Abandons(request, worlds[k], worlds[k + 1]);
      assert 0 <= k < n && Abandons(request, worlds[k], worlds[k + 1]);
    }
    if Abandons(request, worlds[n - 1], worlds[n]) {
      assert 0 <= n - 1 < n && Abandons(request, worlds[n - 1], worlds[n - 1 + 1]);
    }
  }

  lemma {:induction false} NothingStands(request: C.Request, t: C.Trace, w: World)
    ensures Stands(request, t, 0, w, Idle)
  {
    assert t[..0] == [];
    C.NothingYet();
  }

  // ----- many executions, one after the other -----

  /** What happens to a service between two moments without a live executor: a status change,
      given by all it would call and by where it stopped or crashed, or exports and the saves
      of other operations, given by their steps. */
  datatype Episode =
    | StatusChange(request: C.Request, backend: Backend, trace: C.Trace, stop: nat, worlds: seq<World>)
    | Others(states: seq<World>, steps: seq<Step>)

  predicate IsOther(step: Step) {
    match step
    case AdmitStep(_, o) => o.kind == Export
    case ExportStep(_) => true
    case OtherSaveStep(_) => true
    case CrashStep => true
    case _ => false
  }

  ghost predicate Spans(e: Episode, a: World, b: World) {
    match e
    case StatusChange(request, backend, trace, stop, worlds) =>
      && Operational(request.kind) && C.Protocol(request, backend, trace) && stop <= |trace|
      && Honest(request, trace[..stop], worlds) && worlds[0] == a && worlds[stop] == b
    case Others(states, steps) =>
      && Path(states, steps) && states[0] == a && states[|states| - 1] == b
      && forall step :: step in steps ==> IsOther(step)
  }

  /** The status change abandoned its resume. */
  predicate Fails(e: Episode) {
    e.StatusChange? && e.worlds != [] && Abandoned(e.request, e.worlds, |e.worlds| - 1)
  }

  ghost predicate FailedBefore(episodes: seq<Episode>, n: nat)
    requires n <= |episodes|
  {
    exists i :: 0 <= i < n && Fails(episodes[i])
  }

  /** A history of a service: any number of status changes, by coordinators of any backend,
      with retries and crashes, and of other operations, one executor at a time. */
  ghost predicate History(marks: seq<World>, episodes: seq<Episode>) {
    && |marks| == |episodes| + 1 && Invariant(marks[0]) && Fenced(marks[0])
    && forall i :: 0 <= i < |episodes| ==> Spans(episodes[i], marks[i], marks[i + 1])
  }

  /** What an execution that crashed has called is still what it might call. */
  lemma {:induction false} PrefixProtocol(request: C.Request, backend: Backend, t: C.Trace, n: nat)
    requires C.Protocol(request, backend, t) && n <= |t|
    ensures C.Protocol(request, backend, t[..n])
  {
    hide C.MayCall;
    forall i | 0 <= i < n ensures C.MayCall(request, backend, t[..n][..i], t[..n][i].call) {
      assert t[..n][..i] == t[..i];
    }
  }

  lemma {:induction false} EpisodeLeads(e: Episode, a: World, b: World)
    requires Spans(e, a, b) && Invariant(a)
    ensures Leads(a, b, Fails(e))
  {
    hide C.Protocol, Effect, Invariant, Abandons, Next, GivesUp;
    match e {
      case StatusChange(request, backend, trace, stop, worlds) =>
        PrefixProtocol(request, backend, trace, stop);
        StatusRefines(request, backend, trace[..stop], worlds);
      case Others(states, steps) =>
        forall i | 0 <= i < |steps| ensures !GivesUp(states[i], steps[i]) {
          assert steps[i] in steps;
          OtherSteps(states[i], steps[i]);
        }
        assert !GivenUp(states, steps, |steps|);
    }
  }

  lemma {:induction false} OtherSteps(a: World, step: Step)
    requires IsOther(step)
    ensures !GivesUp(a, step)
  {
  }

  /** In any history the fence of a suspended or archived service is closed unless a resume is
      prepared, if and only if no status change has abandoned a resume over an open fence; and
      the history is a run of `FenceRuns`. */
  lemma {:induction false} ExecutionsRefine(marks: seq<World>, episodes: seq<Episode>, n: nat)
    requires History(marks, episodes) && n <= |episodes|
    ensures Leads(marks[0], marks[n], FailedBefore(episodes, n))
    ensures Fenced(marks[n]) <==> !FailedBefore(episodes, n)
    ensures FencedOrRecovering(marks[n])
  {
    hide Leads, Spans, Invariant, Fenced, FencedOrRecovering, Fails;
    if n == 0 {
      LeadsSelf(marks[0]);
    } else {
      ExecutionsRefine(marks, episodes, n - 1);
      var before := FailedBefore(episodes, n - 1);
      LeadsInvariant(marks[0], marks[n - 1], before);
      EpisodeLeads(episodes[n - 1], marks[n - 1], marks[n]);
      LeadsOn(marks[0], marks[n - 1], marks[n], before, Fails(episodes[n - 1]));
      if before {
        var i :| 0 <= i < n - 1 && Fails(episodes[i]);
        assert 0 <= i < n && Fails(episodes[i]);
      }
      assert FailedBefore(episodes, n) <==> before || Fails(episodes[n - 1]);
    }
    LeadsKeeps(marks[0], marks[n], FailedBefore(episodes, n));
  }
}
