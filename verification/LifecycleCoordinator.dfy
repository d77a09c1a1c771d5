/** The re-observing lifecycle coordinator, run against an arbitrary environment: a storage
    and a registry that may answer every call as they like, knowing all calls before it. */
module LifecycleCoordinator {
  import opened Ordering
  import opened Relational
  import opened PortableStore
  import opened Services
  import opened Lifecycle

  datatype Error = Busy | TransientJournal | Unavailable | MigrationError | ContractError | OtherError

  datatype MigrationStatus = MUninitialised | MOutdated | MReady | MIncompatible | MDirty

  datatype SchemaStatus = SUnmaterialised | SReady | SIncompatible

  /** The calls a coordinator makes; `Pass` only marks the start of an observation pass. */
  datatype Call =
    | OpenAdmission | Admit(command: Command) | GetSource | CommitAdmission | RollbackAdmission | CloseAdmission
    | CatalogInfo | Allocate
    | Pass
    | InspectFoundation | ReconcileFoundation | InspectTarget | InspectSource
    | Apply(action: Action)
    | ReadClock | OpenTerminal | Finalize(completion: Completion) | Recover(intent: Intent, at: Time)
    | CommitTerminal | CloseTerminal

  /** `Strange` stands for any value of an unexpected type. */
  datatype Answer =
    | Raised(error: Error) | Done | Strange
    | Claimed(outcome: Outcome) | Source(service: Option<Service>)
    | Info(backend: Backend, serviceStore: bool) | Located(storage: Storage)
    | Migration(status: MigrationStatus) | Schema(schema: SchemaStatus) | Clock(at: Time)

  datatype Event = Event(call: Call, answer: Answer)

  type Trace = seq<Event>

  type Environment = (Trace, Call) -> Answer

  datatype Result =
    | ResultCompleted(service: Service) | ResultUnsupported | ResultStale | ResultConflict | ResultInProgress
    | ResultRecovery | ResultBusy | ResultUncertain | ResultUnavailable | ResultInternal

  datatype Seen<T> = Saw(value: T) | Stop(result: Result)

  /** A transient journal is a kind of unavailability. */
  predicate IsUnavailable(e: Error) {
    e == Unavailable || e == TransientJournal
  }

  // ----- what a trace records -----

  function Applies(t: Trace): nat {
    if t == [] then 0 else Applies(t[..|t| - 1]) + if t[|t| - 1].call.Apply? then 1 else 0
  }

  function Applied(t: Trace, a: Action): nat {
    if t == [] then 0 else Applied(t[..|t| - 1], a) + if t[|t| - 1].call == Apply(a) then 1 else 0
  }

  function Passes(t: Trace): nat {
    if t == [] then 0 else Passes(t[..|t| - 1]) + if t[|t| - 1].call.Pass? then 1 else 0
  }

  function TerminalCalls(t: Trace): nat {
    if t == [] then 0
    else TerminalCalls(t[..|t| - 1]) + if t[|t| - 1].call.Finalize? || t[|t| - 1].call.Recover? then 1 else 0
  }

  /** The events since the last observation pass began. */
  function LastPass(t: Trace): Trace {
    if t == [] || t[|t| - 1].call.Pass? then [] else LastPass(t[..|t| - 1]) + [t[|t| - 1]]
  }

  /** Calls that neither start a pass, nor act, nor write a terminal state. */
  predicate Plain(c: Call) {
    !c.Pass? && !c.Apply? && !c.Finalize? && !c.Recover?
  }

  ghost predicate Extends(t: Trace, u: Trace) {
    t <= u && forall i :: |t| <= i < |u| ==> Plain(u[i].call)
  }

  lemma {:induction false} ExtendsKeeps(t: Trace, u: Trace)
    requires Extends(t, u)
    ensures Applies(u) == Applies(t) && Passes(u) == Passes(t) && TerminalCalls(u) == TerminalCalls(t)
    ensures forall a :: Applied(u, a) == Applied(t, a)
    ensures LastPass(u) == LastPass(t) + u[|t|..]
    decreases |u|
  {
    if |u| > |t| {
      var v := u[..|u| - 1];
      assert Extends(t, v);
      ExtendsKeeps(t, v);
      assert v[|t|..] + [u[|u| - 1]] == u[|t|..];
    } else {
      assert u == t && LastPass(t) + [] == LastPass(t);
    }
  }

  lemma {:induction false} OneCall(t: Trace, e: Event)
    ensures var u := t + [e];
            && Applies(u) == Applies(t) + (if e.call.Apply? then 1 else 0)
            && (forall a :: Applied(u, a) == Applied(t, a) + (if e.call == Apply(a) then 1 else 0))
            && Passes(u) == Passes(t) + (if e.call.Pass? then 1 else 0)
            && TerminalCalls(u) == TerminalCalls(t) + (if e.call.Finalize? || e.call.Recover? then 1 else 0)
            && LastPass(u) == if e.call.Pass? then [] else LastPass(t) + [e]
  {
    assert (t + [e])[..|t|] == t;
  }

  // ----- a world in which nothing fails -----

  /** The physical actions, in the order they were tried. */
  function Actions(t: Trace): seq<Action> {
    if t == [] then []
    else Actions(t[..|t| - 1]) + if t[|t| - 1].call.Apply? then [t[|t| - 1].call.action] else []
  }

  function SchemaAction(kind: Kind): Action {
    if kind == Materialise then ApplyInitialSchema else ApplyTransition
  }

  /** What the registry has admitted and where, and how the physical store was found: its
      foundation, and what it holds of the target schema and of the source schema. */
  datatype World = World(intent: Intent, source: Service, storage: Storage,
                         foundation: MigrationStatus, target: SchemaStatus, held: SchemaStatus)

  /** No migration repairs this foundation: one that is incompatible, or one that is missing
      under a service that has been materialised before. */
  predicate BadFoundation(w: World) {
    w.foundation == MIncompatible || (w.intent.kind == Evolve && w.foundation == MUninitialised)
  }

  /** The store cannot be brought to the target: its foundation, or another schema in it. */
  predicate Hopeless(w: World) {
    || BadFoundation(w)
    || (w.target != SReady
        && if w.intent.kind == Materialise then w.target == SIncompatible else w.target == SUnmaterialised || w.held != SReady)
  }

  /** One store: it holds nothing of either schema, or it holds something. */
  predicate OneStore(w: World) {
    w.intent.kind == Evolve && w.target != SReady ==> (w.target == SUnmaterialised <==> w.held == SUnmaterialised)
  }

  /** The foundation is as found until it is prepared, and ready from then on. */
  function FoundationNow(w: World, t: Trace): MigrationStatus {
    if PrepareFoundation in Actions(t) && !BadFoundation(w) then MReady else w.foundation
  }

  /** The target schema is as found until it is applied, and ready from then on. */
  function TargetNow(w: World, t: Trace): SchemaStatus {
    if SchemaAction(w.intent.kind) in Actions(t) && !Hopeless(w) then SReady else w.target
  }

  /** An answer that this world gives: no call fails, each inspection tells the state of the
      store, and the registry writes what it is asked to for the intent that it admitted. */
  predicate Gives(w: World, before: Trace, c: Call, a: Answer) {
    match c
    case Admit(_) => a == Claimed(PreparedClaim(w.intent))
    case GetSource => a == Source(Some(w.source))
    case CatalogInfo => a == Info(w.storage.backend, true)
    case Allocate => a == Located(w.storage)
    case InspectFoundation => a == Migration(FoundationNow(w, before))
    case InspectTarget => a == Schema(TargetNow(w, before))
    case InspectSource => a == Schema(w.held)
    case Apply(action) => if action == PrepareFoundation then a == Migration(MReady) else !a.Raised?
    case ReadClock => a.Clock?
    case Finalize(_) => a.Claimed? && a.outcome.CompletedClaim?
    case Recover(_, _) => a == Claimed(RecoveryClaim)
    case _ => !a.Raised?
  }

  ghost predicate Smooth(w: World, t: Trace) {
    forall i :: 0 <= i < |t| ==> Gives(w, t[..i], t[i].call, t[i].answer)
  }

  /** The actions that are still to be tried. */
  function Missing(w: World, t: Trace): seq<Action> {
    if BadFoundation(w) then []
    else
      (if FoundationNow(w, t) == MReady then [] else [PrepareFoundation])
      + (if TargetNow(w, t) == SReady || Hopeless(w) then [] else [SchemaAction(w.intent.kind)])
  }

  lemma {:induction false} GivenAt(w: World, t: Trace, e: Event)
    ensures forall u :: t + [e] <= u && Smooth(w, u) ==> Gives(w, t, e.call, e.answer)
  {
    forall u | t + [e] <= u && Smooth(w, u) ensures Gives(w, t, e.call, e.answer) {
      assert u[..|t|] == t && u[|t|] == e;
    }
  }

  lemma {:induction false} SmoothBefore(w: World, t: Trace, u: Trace)
    requires t <= u && Smooth(w, u)
    ensures Smooth(w, t)
  {
    forall i | 0 <= i < |t| ensures Gives(w, t[..i], t[i].call, t[i].answer) {
      assert t[..i] == u[..i];
    }
  }

  lemma {:induction false} SmoothPrefixes(w: World, t: Trace)
    ensures forall u :: t <= u && Smooth(w, u) ==> Smooth(w, t)
  {
    forall u | t <= u && Smooth(w, u) ensures Smooth(w, t) {
      SmoothBefore(w, t, u);
    }
  }

  lemma {:induction false} OneAction(t: Trace, e: Event)
    ensures Actions(t + [e]) == Actions(t) + if e.call.Apply? then [e.call.action] else []
  {
    assert (t + [e])[..|t|] == t;
  }

  lemma {:induction false} NoAction(t: Trace, u: Trace)
    requires t <= u && forall i :: |t| <= i < |u| ==> !u[i].call.Apply?
    ensures Actions(u) == Actions(t)
    decreases |u|
  {
    if |u| > |t| {
      NoAction(t, u[..|u| - 1]);
    } else {
      assert u == t;
    }
  }

  lemma {:induction false} SameWorld(w: World, t: Trace, u: Trace)
    requires Actions(u) == Actions(t)
    ensures FoundationNow(w, u) == FoundationNow(w, t) && TargetNow(w, u) == TargetNow(w, t)
    ensures Missing(w, u) == Missing(w, t) && PlanNow(w, u) == PlanNow(w, t)
  {
  }

  lemma {:induction false} ExtendsSame(w: World, t: Trace, u: Trace)
    requires Extends(t, u)
    ensures Actions(u) == Actions(t)
    ensures FoundationNow(w, u) == FoundationNow(w, t) && TargetNow(w, u) == TargetNow(w, t)
  {
    NoAction(t, u);
  }

  method Ask(env: Environment, t: Trace, c: Call, ghost w: World) returns (a: Answer, u: Trace)
    ensures a == env(t, c) && u == t + [Event(c, a)]
    ensures Plain(c) ==> Extends(t, u)
    ensures forall v :: u <= v && Smooth(w, v) ==> Gives(w, t, c, a)
  {
    a := env(t, c);
    u := t + [Event(c, a)];
    GivenAt(w, t, Event(c, a));
  }

  predicate FoundationCall(c: Call) {
    c.InspectFoundation? || c.ReconcileFoundation?
  }

  /** The answer a foundation state was read from. */
  predicate ReadAs(f: Foundation, s: MigrationStatus) {
    match s
    case MUninitialised => f.Uninitialised?
    case MOutdated => f.Outdated?
    case MReady => f.ReadyFoundation?
    case MIncompatible => f.IncompatibleFoundation?
    case MDirty => f.Dirty?
  }

  function FoundationFrom(s: MigrationStatus): (f: Foundation)
    ensures ReadAs(f, s)
  {
    match s
    case MUninitialised => Uninitialised
    case MOutdated => Outdated
    case MReady => ReadyFoundation
    case MIncompatible => IncompatibleFoundation
    case MDirty => Dirty
  }

  predicate IsState(f: Foundation) {
    !f.UnseenFoundation? && !f.BusyFoundation? && !f.UnavailableFoundation? && !f.UncertainFoundation?
  }

  /** An exact foundation state is the status in the last answer. */
  predicate FoundationShown(f: Foundation, t: Trace, u: Trace) {
    IsState(f) ==>
      |u| > |t| && FoundationCall(u[|u| - 1].call) && u[|u| - 1].answer.Migration? && ReadAs(f, u[|u| - 1].answer.status)
  }

  /** The status was read by the first inspection of the pass, or by the reconciliation that
      followed when the storage was unavailable. A first inspection that met a transient
      journal is no such reading, whatever was answered later. */
  predicate ReadFirst(s: MigrationStatus, pass: Trace) {
    && pass != [] && pass[0].call == InspectFoundation
    && (pass[0].answer == Migration(s)
        || (pass[0].answer == Raised(Unavailable) && |pass| > 1 && pass[1] == Event(ReconcileFoundation, Migration(s))))
  }

  /** `_foundation`. After a transient journal only an exact ready state may be promoted:
      what the reconciling migration reports can never lead to recovery. */
  method ObserveFoundation(env: Environment, t: Trace, ghost w: World) returns (r: Seen<Foundation>, u: Trace)
    ensures Extends(t, u) && |u| > |t| && u[|t|].call == InspectFoundation
    ensures r.Saw? ==> !r.value.UnseenFoundation? && FoundationShown(r.value, t, u)
    ensures r.Saw? && IsState(r.value) && !r.value.ReadyFoundation? ==>
              forall s :: ReadAs(r.value, s) ==> ReadFirst(s, u[|t|..])
    ensures FoundationCall(u[|u| - 1].call) && (r == Saw(ReadyFoundation) <==> u[|u| - 1].answer == Migration(MReady))
    ensures r.Stop? ==> r.result == ResultInternal
    ensures u[|t|].answer == Raised(TransientJournal) && r.Saw? ==>
              r.value.ReadyFoundation? || r.value.BusyFoundation? || r.value.UncertainFoundation?
    ensures r == Saw(UnavailableFoundation) ==> |u| == |t| + 2 && u[|t| + 1].call == ReconcileFoundation
    ensures Smooth(w, u) ==> r == Saw(FoundationFrom(FoundationNow(w, t)))
  {
    hide Smooth, FoundationNow, TargetNow;
    var state: Answer;
    state, u := Ask(env, t, InspectFoundation, w);
    if state == Raised(Busy) {
      return Saw(BusyFoundation), u;
    }
    if state == Raised(TransientJournal) {
      state, u := Ask(env, u, ReconcileFoundation, w);
      if state.Raised? {
        if state.error == Busy {
          return Saw(BusyFoundation), u;
        }
        if IsUnavailable(state.error) {
          state, u := Ask(env, u, InspectFoundation, w);
          if state.Raised? {
            r := if state.error == Busy then Saw(BusyFoundation)
                 else if IsUnavailable(state.error) || state.error == MigrationError then Saw(UncertainFoundation)
                 else Stop(ResultInternal);
            return r, u;
          }
        } else {
          r := if state.error == MigrationError then Saw(UncertainFoundation) else Stop(ResultInternal);
          return r, u;
        }
      }
      if !state.Migration? {
        return Stop(ResultInternal), u;
      }
      if state.status != MReady {
        state, u := Ask(env, u, InspectFoundation, w);
        if state.Raised? {
          r := if state.error == Busy then Saw(BusyFoundation)
               else if IsUnavailable(state.error) || state.error == MigrationError then Saw(UncertainFoundation)
               else Stop(ResultInternal);
          return r, u;
        }
        if state != Migration(MReady) {
          return Saw(UncertainFoundation), u;
        }
      }
    } else if state == Raised(Unavailable) {
      state, u := Ask(env, u, ReconcileFoundation, w);
      if state.Raised? {
        r := if state.error == Busy then Saw(BusyFoundation)
             else if IsUnavailable(state.error) then Saw(UnavailableFoundation)
             else if state.error == MigrationError then Saw(UncertainFoundation)
             else Stop(ResultInternal);
        return r, u;
      }
    } else if state.Raised? {
      r := if state.error == MigrationError then Saw(UncertainFoundation) else Stop(ResultInternal);
      return r, u;
    }
    if !state.Migration? {
      return Stop(ResultInternal), u;
    }
    r := Saw(FoundationFrom(state.status));
  }

  predicate ShownAs(d: Domain, s: SchemaStatus) {
    match s
    case SUnmaterialised => d.Unmaterialised?
    case SReady => d.ReadyDomain?
    case SIncompatible => d.IncompatibleDomain?
  }

  function DomainFrom(s: SchemaStatus): (d: Domain)
    ensures ShownAs(d, s)
  {
    match s
    case SUnmaterialised => Unmaterialised
    case SReady => ReadyDomain
    case SIncompatible => IncompatibleDomain
  }

  /** An exact schema state is the answer to an inspection of that schema in the pass. */
  predicate DomainShown(d: Domain, c: Call, pass: Trace) {
    d.Unmaterialised? || d.ReadyDomain? || d.IncompatibleDomain? ==>
      exists e :: e in pass && e.call == c && e.answer.Schema? && ShownAs(d, e.answer.schema)
  }

  /** `_domain_state`. */
  method ObserveDomain(env: Environment, t: Trace, c: Call, ghost w: World) returns (r: Seen<Domain>, u: Trace)
    requires c == InspectTarget || c == InspectSource
    ensures Extends(t, u)
    ensures r.Saw? ==> !r.value.UnseenDomain? && DomainShown(r.value, c, u[|t|..])
    ensures |u| > |t|
    ensures forall s :: u[|u| - 1] == Event(c, Schema(s)) ==> r == Saw(DomainFrom(s))
    ensures r.Stop? ==> r.result == ResultInternal || r.result == ResultUncertain
    ensures Smooth(w, u) ==> r == Saw(DomainFrom(if c == InspectTarget then TargetNow(w, t) else w.held))
  {
    hide Smooth, FoundationNow, TargetNow;
    var state: Answer;
    state, u := Ask(env, t, c, w);
    if state == Raised(Busy) {
      return Saw(BusyDomain), u;
    }
    if state == Raised(TransientJournal) {
      var foundation: Seen<Foundation>;
      foundation, u := ObserveFoundation(env, u, w);
      if foundation.Stop? {
        return Stop(foundation.result), u;
      }
      if !foundation.value.ReadyFoundation? {
        r := match foundation.value
             case BusyFoundation => Saw(BusyDomain)
             case UnavailableFoundation => Saw(UnavailableDomain)
             case UncertainFoundation => Saw(UncertainDomain)
             case _ => Stop(ResultUncertain);
        return r, u;
      }
      state, u := Ask(env, u, c, w);
      if state.Raised? {
        r := if state.error == Busy then Saw(BusyDomain)
             else if IsUnavailable(state.error) || state.error == MigrationError then Saw(UncertainDomain)
             else Stop(ResultInternal);
        return r, u;
      }
    } else if state.Raised? {
      r := if state.error == Unavailable then Saw(UnavailableDomain)
           else if state.error == MigrationError then Saw(UncertainDomain)
           else Stop(ResultInternal);
      return r, u;
    }
    if !state.Schema? {
      return Stop(ResultInternal), u;
    }
    assert u[|t|..][|u| - 1 - |t|] == Event(c, state);
    r := Saw(DomainFrom(state.schema));
  }

  /** The state of the foundation that a pass read. */
  predicate FoundationIs(s: MigrationStatus, pass: Trace) {
    exists e :: e in pass && FoundationCall(e.call) && e.answer == Migration(s)
  }

  /** What an observation claims, traced back to answers of its own pass. */
  predicate Evidence(o: Observation, pass: Trace) {
    && (o.foundation.ReadyFoundation? ==> FoundationIs(MReady, pass))
    && (o.foundation.IncompatibleFoundation? ==> ReadFirst(MIncompatible, pass))
    && (o.foundation.Uninitialised? ==> ReadFirst(MUninitialised, pass))
    && DomainShown(o.target, InspectTarget, pass)
    && DomainShown(o.source, InspectSource, pass)
  }

  lemma {:induction false} MorePass(d: Domain, c: Call, pass: Trace, more: Trace)
    requires DomainShown(d, c, pass)
    ensures DomainShown(d, c, pass + more)
  {
    if d.Unmaterialised? || d.ReadyDomain? || d.IncompatibleDomain? {
      var e :| e in pass && e.call == c && e.answer.Schema? && ShownAs(d, e.answer.schema);
      assert e in pass + more;
    }
  }

  lemma {:induction false} ShownIs(f: Foundation, t: Trace, u: Trace, more: Trace)
    requires t <= u && FoundationShown(f, t, u) && IsState(f)
    ensures forall s :: ReadAs(f, s) ==> FoundationIs(s, u[|t|..] + more)
  {
    var e := u[|u| - 1];
    assert e == (u[|t|..] + more)[|u| - 1 - |t|];
    assert e in u[|t|..] + more;
    forall s | ReadAs(f, s) ensures FoundationIs(s, u[|t|..] + more) {
      assert e.answer == Migration(s);
    }
  }

  /** What a pass observes in such a world. */
  function ObservationNow(w: World, t: Trace): Observation {
    var f, d := FoundationFrom(FoundationNow(w, t)), DomainFrom(TargetNow(w, t));
    if !f.ReadyFoundation? then Observation(w.intent.kind, Prepared, f, UnseenDomain, UnseenDomain)
    else
      Observation(w.intent.kind, Prepared, f, d,
                  if w.intent.kind == Evolve && !d.ReadyDomain? then DomainFrom(w.held) else UnseenDomain)
  }

  /** `_observe`: foundation first, then the target schema, then for an evolution that
      needs it the source schema. */
  method Observe(env: Environment, t: Trace, kind: Kind, transition: bool, ghost w: World)
    returns (r: Seen<Observation>, u: Trace)
    ensures Extends(t, u)
    ensures r.Saw? ==> r.value.kind == kind && r.value.phase == Prepared && Evidence(r.value, u[|t|..])
    ensures r.Stop? ==> r.result == ResultInternal || r.result == ResultUncertain
    ensures Smooth(w, u) && kind == w.intent.kind && (kind == Evolve ==> transition) ==> r == Saw(ObservationNow(w, t))
  {
    hide Smooth, FoundationNow, TargetNow, Actions, FoundationFrom, ReadAs, ShownAs, IsState, FoundationIs,
         FoundationShown, ReadFirst, DomainShown, Applies, Applied, Passes, TerminalCalls, LastPass, Plain;
    var foundation: Seen<Foundation>;
    foundation, u := ObserveFoundation(env, t, w);
    if foundation.Stop? {
      return Stop(foundation.result), u;
    }
    var f := foundation.value;
    ghost var first := u;
    ExtendsSame(w, t, first);
    SmoothPrefixes(w, first);
    FoundationEvidence(f, t, first);
    NothingShown(first[|t|..]);
    if !f.ReadyFoundation? {
      return Saw(Observation(kind, Prepared, f, UnseenDomain, UnseenDomain)), u;
    }
    var target: Seen<Domain>;
    target, u := ObserveDomain(env, u, InspectTarget, w);
    if target.Stop? {
      return Stop(target.result), u;
    }
    ghost var second := u;
    ExtendsSame(w, first, second);
    SmoothPrefixes(w, second);
    assert second[|t|..] == first[|t|..] + second[|first|..];
    MoreTarget(target.value, InspectTarget, first[|t|..], second[|first|..]);
    var source := UnseenDomain;
    if kind == Evolve && (target.value.Unmaterialised? || target.value.IncompatibleDomain?) {
      if !transition {
        return Stop(ResultInternal), u;
      }
      var state: Seen<Domain>;
      state, u := ObserveDomain(env, u, InspectSource, w);
      if state.Stop? {
        return Stop(state.result), u;
      }
      source := state.value;
      assert u[|t|..] == second[|t|..] + u[|second|..];
      MorePass(target.value, InspectTarget, second[|t|..], u[|second|..]);
      MoreTarget(source, InspectSource, second[|t|..], u[|second|..]);
    }
    assert u[|t|..] == first[|t|..] + u[|first|..];
    MoreEvents(MReady, first[|t|..], u[|first|..]);
    NothingShown(u[|t|..]);
    r := Saw(Observation(kind, Prepared, f, target.value, source));
  }

  lemma {:induction false} MoreTarget(d: Domain, c: Call, before: Trace, pass: Trace)
    requires DomainShown(d, c, pass)
    ensures DomainShown(d, c, before + pass)
  {
    if d.Unmaterialised? || d.ReadyDomain? || d.IncompatibleDomain? {
      var e :| e in pass && e.call == c && e.answer.Schema? && ShownAs(d, e.answer.schema);
      assert e in before + pass;
    }
  }

  lemma {:induction false} FoundationEvidence(f: Foundation, t: Trace, u: Trace)
    requires t <= u && FoundationShown(f, t, u) && !f.UnseenFoundation?
    requires IsState(f) && !f.ReadyFoundation? ==> forall s :: ReadAs(f, s) ==> ReadFirst(s, u[|t|..])
    ensures f.ReadyFoundation? ==> FoundationIs(MReady, u[|t|..])
    ensures f.IncompatibleFoundation? ==> ReadFirst(MIncompatible, u[|t|..])
    ensures f.Uninitialised? ==> ReadFirst(MUninitialised, u[|t|..])
  {
    hide ReadFirst;
    if IsState(f) {
      ShownIs(f, t, u, []);
      assert u[|t|..] + [] == u[|t|..];
      assert f.IncompatibleFoundation? ==> ReadAs(f, MIncompatible);
      assert f.Uninitialised? ==> ReadAs(f, MUninitialised);
    }
  }

  lemma {:induction false} NothingShown(pass: Trace)
    ensures DomainShown(UnseenDomain, InspectTarget, pass) && DomainShown(UnseenDomain, InspectSource, pass)
  {
  }

  // ----- what a pass proves -----

  predicate SchemaIs(c: Call, s: SchemaStatus, pass: Trace) {
    Event(c, Schema(s)) in pass
  }

  /** The pass read a ready foundation and a ready target schema. */
  predicate ReadyPass(pass: Trace) {
    FoundationIs(MReady, pass) && SchemaIs(InspectTarget, SReady, pass)
  }

  /** The pass read a store that no action of this operation can repair. Neither dirt nor any
      raised error is such evidence, and neither is a foundation that was reconciled after a
      transient journal. */
  predicate Unrepairable(kind: Kind, pass: Trace) {
    || ReadFirst(MIncompatible, pass)
    || (kind == Evolve && ReadFirst(MUninitialised, pass))
    || (FoundationIs(MReady, pass) && kind == Materialise && SchemaIs(InspectTarget, SIncompatible, pass))
    || (FoundationIs(MReady, pass) && kind == Evolve
        && SchemaIs(InspectTarget, SIncompatible, pass) && SchemaIs(InspectSource, SIncompatible, pass))
    || (FoundationIs(MReady, pass) && kind == Evolve
        && SchemaIs(InspectTarget, SUnmaterialised, pass) && SchemaIs(InspectSource, SUnmaterialised, pass))
  }

  lemma {:induction false} ShownSchema(d: Domain, c: Call, s: SchemaStatus, pass: Trace)
    requires DomainShown(d, c, pass) && ShownAs(d, s)
    ensures SchemaIs(c, s, pass)
  {
    var e :| e in pass && e.call == c && e.answer.Schema? && ShownAs(d, e.answer.schema);
    assert e == Event(c, Schema(s));
  }

  /** A plan is justified by the answers of the pass it was made from. */
  lemma {:induction false} PlanJustified(o: Observation, pass: Trace)
    requires Evidence(o, pass)
    ensures o.foundation.ReadyFoundation? && o.target.ReadyDomain? ==> ReadyPass(pass)
    ensures ExactlyIncompatible(o) ==> Unrepairable(o.kind, pass)
  {
    hide FoundationIs, ReadFirst, DomainShown, SchemaIs;
    if o.target.ReadyDomain? {
      ShownSchema(o.target, InspectTarget, SReady, pass);
    }
    if o.target.IncompatibleDomain? {
      ShownSchema(o.target, InspectTarget, SIncompatible, pass);
    }
    if o.target.Unmaterialised? {
      ShownSchema(o.target, InspectTarget, SUnmaterialised, pass);
    }
    if o.source.IncompatibleDomain? {
      ShownSchema(o.source, InspectSource, SIncompatible, pass);
    }
    if o.source.Unmaterialised? {
      ShownSchema(o.source, InspectSource, SUnmaterialised, pass);
    }
  }

  lemma {:induction false} MoreEvents(s: MigrationStatus, pass: Trace, more: Trace)
    ensures FoundationIs(s, pass) ==> FoundationIs(s, pass + more)
  {
    if FoundationIs(s, pass) {
      var e :| e in pass && FoundationCall(e.call) && e.answer == Migration(s);
      assert e in pass + more;
    }
  }

  lemma {:induction false} JustificationStays(kind: Kind, pass: Trace, more: Trace)
    ensures ReadyPass(pass) ==> ReadyPass(pass + more)
    ensures Unrepairable(kind, pass) ==> Unrepairable(kind, pass + more)
  {
    hide FoundationIs;
    MoreEvents(MReady, pass, more);
  }

  // ----- terminal registry writes -----

  /** The results that remain possible once a physical action has been tried. */
  predicate AfterAction(r: Result) {
    r.ResultCompleted? || r.ResultBusy? || r.ResultUncertain? || r.ResultRecovery? || r.ResultInternal?
  }

  predicate Terminal(c: Call) {
    c.Finalize? || c.Recover?
  }

  function OutcomeResult(o: Outcome): Result {
    match o
    case CompletedClaim(s) => ResultCompleted(s)
    case Conflict => ResultConflict
    case StaleRevision => ResultStale
    case UnsupportedTransition => ResultUnsupported
    case InProgress => ResultInProgress
    case RecoveryClaim => ResultRecovery
    case PreparedClaim(_) => ResultInternal
  }

  /** The terminal transaction was answered, committed and closed. */
  ghost predicate Committed(t: Trace, c: Call, o: Outcome) {
    && |t| >= 3 && t[|t| - 3] == Event(c, Claimed(o))
    && t[|t| - 2].call == CommitTerminal && !t[|t| - 2].answer.Raised?
    && t[|t| - 1].call == CloseTerminal && !t[|t| - 1].answer.Raised?
  }

  /** The calls around a terminal write. */
  predicate Closing(c: Call) {
    c.ReadClock? || c.OpenTerminal? || c.CommitTerminal? || c.CloseTerminal?
  }

  /** What a terminal write adds to a trace. */
  ghost predicate Wrote(t: Trace, u: Trace, c: Call) {
    && t <= u && TerminalCalls(u) <= TerminalCalls(t) + 1
    && forall i :: |t| <= i < |u| ==> Closing(u[i].call) || u[i].call == c
  }

  lemma {:induction false} WroteKeeps(t: Trace, u: Trace, c: Call)
    requires t <= u && Terminal(c) && forall i :: |t| <= i < |u| ==> Closing(u[i].call) || u[i].call == c
    ensures Applies(u) == Applies(t) && Passes(u) == Passes(t)
    ensures forall a :: Applied(u, a) == Applied(t, a)
    ensures LastPass(u) == LastPass(t) + u[|t|..]
    decreases |u|
  {
    if |u| > |t| {
      var v := u[..|u| - 1];
      WroteKeeps(t, v, c);
      assert v[|t|..] + [u[|u| - 1]] == u[|t|..];
    } else {
      assert u == t && LastPass(t) + [] == LastPass(t);
    }
  }

  lemma {:induction false} WroteOne(t: Trace, e: Event)
    requires Terminal(e.call)
    ensures Wrote(t, t + [e], e.call)
  {
    OneCall(t, e);
  }

  lemma {:induction false} WroteThen(t: Trace, u: Trace, e: Event, c: Call)
    requires Wrote(t, u, c) && Closing(e.call)
    ensures Wrote(t, u + [e], c)
  {
    OneCall(u, e);
  }

  lemma {:induction false} ThenWrote(t: Trace, e: Event, v: Trace, c: Call)
    requires Closing(e.call) && Wrote(t + [e], v, c)
    ensures Wrote(t, v, c)
  {
    OneCall(t, e);
    assert v[|t|] == e;
  }

  /** `_terminal_write`: storage errors are uncertain here, because physical work came first. */
  method TerminalWrite(env: Environment, t: Trace, c: Call, ghost w: World) returns (r: Result, u: Trace)
    requires Terminal(c)
    ensures Wrote(t, u, c)
    ensures AfterAction(r)
    ensures forall s :: r == ResultCompleted(s) ==> Committed(u, c, CompletedClaim(s))
    ensures r == ResultRecovery ==> Committed(u, c, RecoveryClaim)
    ensures Smooth(w, u) ==> if c.Finalize? then r.ResultCompleted? else r == ResultRecovery
  {
    hide Smooth, FoundationNow, TargetNow, Wrote, Applies, Passes, Applied, LastPass, TerminalCalls, Extends;
    var answer: Answer;
    NothingWritten(t, c);
    answer, u := Ask(env, t, OpenTerminal, w);
    ghost var opening := Event(OpenTerminal, answer);
    WroteThen(t, t, opening, c);
    if answer.Raised? {
      return TerminalError(answer.error), u;
    }
    ghost var begun := u;
    answer, u := Ask(env, u, c, w);
    WroteOne(begun, Event(c, answer));
    ThenWrote(t, opening, u, c);
    if answer.Raised? {
      return TerminalError(answer.error), u;
    }
    if !answer.Claimed? || !(answer.outcome.CompletedClaim? || answer.outcome.RecoveryClaim?) {
      return ResultInternal, u;
    }
    var commit, close: Answer;
    ghost var written := u;
    commit, u := Ask(env, u, CommitTerminal, w);
    WroteThen(t, written, Event(CommitTerminal, commit), c);
    if commit.Raised? {
      return ResultUncertain, u;
    }
    ghost var committed := u;
    close, u := Ask(env, u, CloseTerminal, w);
    WroteThen(t, committed, Event(CloseTerminal, close), c);
    if close.Raised? {
      return ResultUncertain, u;
    }
    r := OutcomeResult(answer.outcome);
  }

  function TerminalError(e: Error): Result {
    if e == Busy then ResultBusy else if IsUnavailable(e) then ResultUncertain else ResultInternal
  }

  lemma {:induction false} NothingWritten(t: Trace, c: Call)
    ensures Wrote(t, t, c)
  {
  }

  /** The terminal write of an intent: a completion with this storage, or a recovery. */
  predicate Ends(c: Call, intent: Intent, storage: Option<Storage>) {
    if storage.Some? then c.Finalize? && c.completion.intent == intent && c.completion.storage == storage.value
    else c.Recover? && c.intent == intent
  }

  /** `_finalize_completed` and `_finalize_recovery`: the clock, then the terminal write. */
  method FinalizeNow(env: Environment, t: Trace, intent: Intent, storage: Option<Storage>, ghost w: World)
    returns (r: Result, u: Trace)
    ensures t <= u
    ensures exists c :: Ends(c, intent, storage) && Wrote(t, u, c)
                        && (forall s :: r == ResultCompleted(s) ==> Committed(u, c, CompletedClaim(s)))
                        && (r == ResultRecovery ==> Committed(u, c, RecoveryClaim))
    ensures AfterAction(r)
    ensures Smooth(w, u) ==> if storage.Some? then r.ResultCompleted? else r == ResultRecovery
  {
    hide Smooth, FoundationNow, TargetNow, Wrote, Applies, Passes, Applied, LastPass, TerminalCalls, Extends,
         Committed;
    var clock: Answer;
    clock, u := Ask(env, t, ReadClock, w);
    ghost var read := Event(ReadClock, clock);
    var at := if clock.Clock? then clock.at else 0;
    var c := if storage.Some? then Finalize(Completion(intent, at, storage.value)) else Recover(intent, at);
    NothingWritten(t, c);
    WroteThen(t, t, read, c);
    if !clock.Clock? {
      r := ResultInternal;
      assert Ends(c, intent, storage) && Wrote(t, u, c);
      return;
    }
    r, u := TerminalWrite(env, u, c, w);
    ThenWrote(t, read, u, c);
    assert Ends(c, intent, storage) && Wrote(t, u, c);
  }

  // ----- the reconciliation loop -----

  /** At most three actions in four passes, no action beyond its own bound. */
  ghost predicate Bounded(t: Trace) {
    && Applies(t) <= 3 && Passes(t) <= 4
    && Applied(t, PrepareFoundation) <= 2 && Applied(t, ApplyInitialSchema) <= 1 && Applied(t, ApplyTransition) <= 1
    && TerminalCalls(t) <= 1
  }

  /** The source was asked for, and no service was answered that matches the intent. */
  ghost predicate SourceRejected(intent: Intent, t: Trace) {
    && (exists e :: e in t && e.call == GetSource)
    && forall e :: e in t && e.call == GetSource && e.answer.Source? && e.answer.service.Some? ==>
         !SourceMatches(intent, e.answer.service.value)
  }

  lemma {:induction false} RejectedStays(intent: Intent, t: Trace, u: Trace, c: Call)
    requires SourceRejected(intent, t) && Terminal(c)
    requires t <= u && forall i :: |t| <= i < |u| ==> Closing(u[i].call) || u[i].call == c
    ensures SourceRejected(intent, u)
  {
    hide SourceMatches;
    var asked :| asked in t && asked.call == GetSource;
    assert asked in u;
    forall e | e in u && e.call == GetSource ensures e in t {
      var i :| 0 <= i < |u| && u[i] == e;
      assert i < |t| ==> t[i] == e;
    }
  }

  /** Completion of the intent is only written at the end of a pass that read ready and
      ready; recovery only at the end of a pass that read something beyond repair, or, before
      any pass, when the source is missing or does not match. */
  ghost predicate Justified(intent: Intent, t: Trace) {
    forall i :: 0 <= i < |t| ==> JustifiedCall(intent, t[..i], t[i].call)
  }

  ghost predicate JustifiedCall(intent: Intent, before: Trace, c: Call) {
    && (c.Finalize? ==> c.completion.intent == intent && c.completion.storage.namespaceOf == intent.service
                        && ReadyPass(LastPass(before)))
    && (c.Recover? ==>
          && c.intent == intent
          && if Passes(before) == 0 then SourceRejected(intent, before) else Unrepairable(intent.kind, LastPass(before)))
  }

  /** What a coordinator that crashed has done is justified as well. */
  lemma {:induction false} PrefixJustified(intent: Intent, t: Trace, n: nat)
    requires Justified(intent, t) && n <= |t|
    ensures Justified(intent, t[..n])
  {
    forall i | 0 <= i < n ensures JustifiedCall(intent, t[..n][..i], t[..n][i].call) {
      assert t[..n][..i] == t[..i];
    }
  }

  /** Nothing terminal has been written, and actions and passes are as counted. */
  ghost predicate Underway(t: Trace, applies: nat, passes: nat) {
    && Applies(t) == applies && Passes(t) == passes && TerminalCalls(t) == 0
    && forall e :: e in t ==> !Terminal(e.call)
  }

  lemma {:induction false} UnderwayExtends(t: Trace, u: Trace, applies: nat, passes: nat)
    requires Underway(t, applies, passes) && Extends(t, u)
    ensures Underway(u, applies, passes) && (forall a :: Applied(u, a) == Applied(t, a))
    ensures t <= u && LastPass(u) == LastPass(t) + u[|t|..]
  {
    ExtendsKeeps(t, u);
    forall e | e in u ensures !Terminal(e.call) {
      var i :| 0 <= i < |u| && u[i] == e;
      if i < |t| {
        assert t[i] == e;
      }
    }
  }

  lemma {:induction false} UnderwayOne(t: Trace, e: Event, applies: nat, passes: nat)
    requires Underway(t, applies, passes) && !Terminal(e.call)
    ensures Underway(t + [e], applies + (if e.call.Apply? then 1 else 0), passes + (if e.call.Pass? then 1 else 0))
    ensures forall a :: Applied(t + [e], a) == Applied(t, a) + (if e.call == Apply(a) then 1 else 0)
    ensures e.call.Pass? ==> LastPass(t + [e]) == []
  {
    OneCall(t, e);
  }

  /** A terminal write at the end of a justified pass. */
  lemma {:induction false} EndsJustified(intent: Intent, t: Trace, u: Trace, c: Call, applies: nat, passes: nat)
    requires Underway(t, applies, passes) && Terminal(c) && Wrote(t, u, c) && JustifiedCall(intent, t, c)
    ensures Justified(intent, u) && Applies(u) == applies && Passes(u) == passes && TerminalCalls(u) <= 1
    ensures forall a :: Applied(u, a) == Applied(t, a)
  {
    hide ReadyPass, Unrepairable, SourceRejected;
    WroteKeeps(t, u, c);
    forall i | 0 <= i < |u| ensures JustifiedCall(intent, u[..i], u[i].call) {
      if i < |t| {
        assert u[i] == t[i] && t[i] in t;
      } else if u[i].call == c {
        WroteKeeps(t, u[..i], c);
        JustificationStays(intent.kind, LastPass(t), u[..i][|t|..]);
        if c.Recover? && passes == 0 {
          RejectedStays(intent, t, u[..i], c);
        }
      }
    }
  }

  lemma {:induction false} NothingTerminal(intent: Intent, t: Trace, applies: nat, passes: nat)
    requires Underway(t, applies, passes)
    ensures Justified(intent, t)
  {
    forall i | 0 <= i < |t| ensures JustifiedCall(intent, t[..i], t[i].call) {
      assert t[i] in t;
    }
  }

  /** `_apply`; a migration status, nothing, or the result to return. */
  method ApplyAction(env: Environment, t: Trace, action: Action, ghost w: World)
    returns (r: Seen<Option<MigrationStatus>>, u: Trace)
    requires action == PrepareFoundation || action == ApplyInitialSchema || action == ApplyTransition
    ensures exists a :: u == t + [Event(Apply(action), a)]
    ensures r.Stop? ==> r.result.ResultBusy? || r.result.ResultUncertain? || r.result.ResultInternal?
    ensures r.Saw? && action == PrepareFoundation ==> r.value.Some?
    ensures Actions(u) == Actions(t) + [action]
    ensures forall v :: u <= v && Smooth(w, v) ==> r.Saw?
  {
    hide Smooth, Actions;
    var answer: Answer;
    answer, u := Ask(env, t, Apply(action), w);
    OneAction(t, Event(Apply(action), answer));
    if answer.Raised? {
      r := Stop(if answer.error == Busy then ResultBusy
                else if answer.error == ContractError then ResultInternal
                else ResultUncertain);
      return;
    }
    if action == PrepareFoundation {
      r := if answer.Migration? then Saw(Some(answer.status)) else Stop(ResultInternal);
      return;
    }
    r := Saw(None);
  }

  /** The actions tried so far, each once, and the one extra foundation reconciliation. */
  ghost predicate Tried(t: Trace, attempted: set<Action>, reconciled: bool, kind: Kind) {
    && attempted <= {PrepareFoundation, SchemaAction(kind)}
    && (reconciled ==> PrepareFoundation in attempted)
    && Applies(t) == |attempted| + (if reconciled then 1 else 0)
    && Applied(t, PrepareFoundation) == (if PrepareFoundation in attempted then 1 else 0) + (if reconciled then 1 else 0)
    && (forall a :: a != PrepareFoundation ==> Applied(t, a) == if a in attempted then 1 else 0)
  }

  lemma {:induction false} TriedBounded(t: Trace, attempted: set<Action>, reconciled: bool, kind: Kind)
    requires Tried(t, attempted, reconciled, kind)
    ensures Applies(t) <= 3 && Applied(t, PrepareFoundation) <= 2
    ensures Applied(t, ApplyInitialSchema) <= 1 && Applied(t, ApplyTransition) <= 1
  {
    SubsetSize(attempted, {PrepareFoundation, SchemaAction(kind)});
  }

  lemma {:induction false} SubsetSize(a: set<Action>, b: set<Action>)
    requires a <= b
    ensures |a| <= |b|
  {
    if a != {} {
      var x :| x in a;
      SubsetSize(a - {x}, b - {x});
    }
  }

  lemma {:induction false} TryOne(t: Trace, u: Trace, action: Action, attempted: set<Action>, reconciled: bool,
                                  kind: Kind)
    requires Tried(t, attempted, reconciled, kind) && (exists a :: u == t + [Event(Apply(action), a)])
    requires action !in attempted && (action == PrepareFoundation || action == SchemaAction(kind))
    ensures Tried(u, attempted + {action}, reconciled, kind)
  {
    var a :| u == t + [Event(Apply(action), a)];
    OneCall(t, Event(Apply(action), a));
  }

  lemma {:induction false} TryAgain(t: Trace, u: Trace, attempted: set<Action>, kind: Kind)
    requires Tried(t, attempted, false, kind) && (exists a :: u == t + [Event(Apply(PrepareFoundation), a)])
    requires PrepareFoundation in attempted
    ensures Tried(u, attempted, true, kind)
  {
    var a :| u == t + [Event(Apply(PrepareFoundation), a)];
    OneCall(t, Event(Apply(PrepareFoundation), a));
  }

  lemma {:induction false} TriedSame(t: Trace, u: Trace, attempted: set<Action>, reconciled: bool, kind: Kind)
    requires Tried(t, attempted, reconciled, kind) && Applies(u) == Applies(t) && forall a :: Applied(u, a) == Applied(t, a)
    ensures Tried(u, attempted, reconciled, kind)
  {
  }

  lemma {:induction false} ActedOn(t: Trace, u: Trace, action: Action, applies: nat, passes: nat)
    requires Underway(t, applies, passes) && exists a :: u == t + [Event(Apply(action), a)]
    ensures Underway(u, applies + 1, passes)
  {
    var a :| u == t + [Event(Apply(action), a)];
    UnderwayOne(t, Event(Apply(action), a), applies, passes);
  }

  datatype Planned = Planned(action: Action, dirty: bool)

  /** A plan that is justified by the pass it was made in. */
  ghost predicate Sensible(p: Planned, kind: Kind, t: Trace) {
    && (p.action == FinalizeRegistry ==> ReadyPass(LastPass(t)))
    && (p.action == RequireRecovery ==> Unrepairable(kind, LastPass(t)))
    && (p.action == FinalizeRegistry || p.action == RequireRecovery || p.action.Defer?
        || p.action == PrepareFoundation || p.action == SchemaAction(kind))
  }

  /** The first action that is missing, or when none is, the completion or the recovery. */
  function PlanNow(w: World, t: Trace): Action {
    if Missing(w, t) != [] then Missing(w, t)[0] else if Hopeless(w) then RequireRecovery else FinalizeRegistry
  }

  /** What is planned from what is observed in such a world. */
  lemma {:induction false} PlannedNow(w: World, t: Trace)
    ensures OneStore(w) ==> ValidObservation(ObservationNow(w, t))
    ensures OneStore(w) ==> PlanRecovery(w.intent.kind, Prepared, ObservationNow(w, t)) == Some(PlanNow(w, t))
  {
    hide Actions;
  }

  /** One observation pass and the plan made from it. */
  method PlanPass(env: Environment, t: Trace, kind: Kind, transition: bool, ghost applies: nat, ghost w: World)
    returns (r: Seen<Planned>, u: Trace)
    requires Underway(t, applies, applies)
    ensures t <= u && Underway(u, applies, applies + 1) && forall a :: Applied(u, a) == Applied(t, a)
    ensures r.Saw? ==> Sensible(r.value, kind, u)
    ensures r.Stop? ==> r.result == ResultInternal || r.result == ResultUncertain
    ensures Actions(u) == Actions(t)
    ensures Smooth(w, u) && kind == w.intent.kind && (kind == Evolve ==> transition) && OneStore(w) ==>
              r.Saw? && r.value.action == PlanNow(w, t)
  {
    hide Smooth, Actions, FoundationNow, TargetNow, ObservationNow, OneStore, Hopeless, PlanNow, Underway, Applies,
         Applied, Passes, TerminalCalls, LastPass, Extends, Evidence, ReadyPass, Unrepairable, ValidObservation,
         PlanRecovery, ExactlyIncompatible, Transient;
    u := t + [Event(Pass, Done)];
    ghost var marked := u;
    UnderwayOne(t, Event(Pass, Done), applies, applies);
    OneAction(t, Event(Pass, Done));
    assert Actions(t) + [] == Actions(t);
    SameWorld(w, t, marked);
    PlannedNow(w, marked);
    ghost var expected := ObservationNow(w, marked);
    var observed: Seen<Observation>;
    observed, u := Observe(env, u, kind, transition, w);
    ExtendsSame(w, marked, u);
    UnderwayExtends(marked, u, applies, applies + 1);
    assert LastPass(u) == u[|marked|..];
    if observed.Stop? {
      return Stop(observed.result), u;
    }
    var o := observed.value;
    if !ValidObservation(o) {
      return Stop(ResultInternal), u;
    }
    PlanMeaning(kind, o);
    PlanJustified(o, LastPass(u));
    r := Saw(Planned(PlanRecovery(kind, Prepared, o).value, o.foundation.Dirty?));
  }

  /** The state of the loop: counts, and what has been tried. */
  ghost predicate Going(t: Trace, applies: nat, passes: nat, attempted: set<Action>, reconciled: bool, kind: Kind) {
    Underway(t, applies, passes) && Tried(t, attempted, reconciled, kind) && applies <= 3 && passes <= 4
  }

  lemma {:induction false} GoingPass(t: Trace, u: Trace, applies: nat, attempted: set<Action>, reconciled: bool,
                                     kind: Kind)
    requires Going(t, applies, applies, attempted, reconciled, kind)
    requires Underway(u, applies, applies + 1) && forall a :: Applied(u, a) == Applied(t, a)
    ensures Going(u, applies, applies + 1, attempted, reconciled, kind)
  {
    TriedSame(t, u, attempted, reconciled, kind);
  }

  lemma {:induction false} GoingAct(t: Trace, u: Trace, action: Action, applies: nat, attempted: set<Action>,
                                    reconciled: bool, kind: Kind)
    requires Going(t, applies, applies + 1, attempted, reconciled, kind)
    requires exists a :: u == t + [Event(Apply(action), a)]
    requires if action in attempted then action == PrepareFoundation && !reconciled
             else action == PrepareFoundation || action == SchemaAction(kind)
    ensures Going(u, applies + 1, applies + 1, attempted + {action}, reconciled || action in attempted, kind)
  {
    ActedOn(t, u, action, applies, applies + 1);
    if action in attempted {
      TryAgain(t, u, attempted, kind);
      assert attempted + {action} == attempted;
    } else {
      TryOne(t, u, action, attempted, reconciled, kind);
    }
    TriedBounded(u, attempted + {action}, reconciled || action in attempted, kind);
  }

  lemma {:induction false} GoingEnds(t: Trace, applies: nat, passes: nat, attempted: set<Action>,
                                     reconciled: bool, intent: Intent)
    requires Going(t, applies, passes, attempted, reconciled, intent.kind)
    ensures Bounded(t) && Justified(intent, t) && (Applies(t) > 0 ==> attempted != {})
  {
    hide Justified;
    TriedBounded(t, attempted, reconciled, intent.kind);
    NothingTerminal(intent, t, applies, passes);
  }

  lemma {:induction false} GoingFinishes(t: Trace, u: Trace, c: Call, p: Planned, applies: nat, passes: nat,
                                         attempted: set<Action>, reconciled: bool, intent: Intent, storage: Storage)
    requires Going(t, applies, passes, attempted, reconciled, intent.kind) && Sensible(p, intent.kind, t)
    requires p.action == FinalizeRegistry || p.action == RequireRecovery
    requires Ends(c, intent, if p.action == FinalizeRegistry then Some(storage) else None) && Wrote(t, u, c)
    requires storage.namespaceOf == intent.service && passes > 0
    ensures Bounded(u) && Justified(intent, u)
  {
    hide Justified, ReadyPass, Unrepairable;
    EndsJustified(intent, t, u, c, applies, passes);
    TriedBounded(t, attempted, reconciled, intent.kind);
  }

  /** The loop is started for the intent of such a world, before any action. */
  ghost predicate Suits(w: World, start: Trace, intent: Intent, transition: bool) {
    intent == w.intent && (intent.kind == Evolve ==> transition) && OneStore(w) && Actions(start) == []
  }

  /** The loop of `execute`, for an admitted intent whose source matches. */
  method Reconcile(env: Environment, start: Trace, intent: Intent, storage: Storage, transition: bool, ghost w: World)
    returns (r: Result, t: Trace)
    requires Underway(start, 0, 0) && (forall a :: Applied(start, a) == 0) && intent.phase == Prepared
    requires storage.namespaceOf == intent.service
    ensures start <= t && Bounded(t) && Justified(intent, t)
    ensures Applies(t) > 0 ==> AfterAction(r)
    ensures forall s :: r == ResultCompleted(s) ==> exists c :: Terminal(c) && Committed(t, c, CompletedClaim(s))
    ensures Smooth(w, t) && Suits(w, start, intent, transition) ==>
              Actions(t) == Missing(w, start) && if Hopeless(w) then r == ResultRecovery else r.ResultCompleted?
  {
    hide Smooth, Actions, FoundationNow, TargetNow, Missing, OneStore, Hopeless, PlanNow, Going, Sensible, Bounded,
         Justified, Underway, Tried, Applies, Applied, Passes, TerminalCalls, LastPass, Extends, Wrote, Committed;
    var kind := intent.kind;
    var attempted: set<Action> := {};
    var foundationResult: Option<MigrationStatus> := None;
    var reconciled := false;
    t := start;
    ghost var applies: nat := 0;
    GoingStarts(start, kind);
    HeadStart(w, start);
    while true
      invariant start <= t && Going(t, applies, applies, attempted, reconciled, kind) && applies <= 3
      invariant Smooth(w, t) && Suits(w, start, intent, transition) ==> Ahead(w, start, t, attempted)
      decreases 3 - applies
    {
      ghost var begun := t;
      GoingUnderway(t, applies, applies, attempted, reconciled, kind);
      var planned: Seen<Planned>;
      planned, t := PlanPass(env, t, kind, transition, applies, w);
      AheadSame(w, start, begun, t, attempted);
      GoingPass(begun, t, applies, attempted, reconciled, kind);
      GoingEnds(t, applies, applies + 1, attempted, reconciled, intent);
      if planned.Stop? {
        return planned.result, t;
      }
      var plan := planned.value.action;
      SensibleAction(planned.value, kind, t);
      ghost var before := t;
      SmoothPrefixes(w, before);
      PlanAhead(w, start, before, attempted);
      if plan.Defer? {
        r := match plan.result
             case DeferBusy => ResultBusy
             case DeferUncertain => ResultUncertain
             case DeferUnavailable => if attempted != {} then ResultUncertain else ResultUnavailable;
        return r, t;
      }
      if plan == RequireRecovery || plan == FinalizeRegistry {
        r, t := FinalizeNow(env, t, intent, if plan == FinalizeRegistry then Some(storage) else None, w);
        ghost var c :| Ends(c, intent, if plan == FinalizeRegistry then Some(storage) else None) && Wrote(before, t, c)
                       && (forall s :: r == ResultCompleted(s) ==> Committed(t, c, CompletedClaim(s)));
        WroteNoAction(before, t, c);
        GoingFinishes(before, t, c, planned.value, applies, applies + 1, attempted, reconciled, intent, storage);
        return r, t;
      }
      if plan in attempted && (!(plan == PrepareFoundation && planned.value.dirty) || reconciled
                               || !(foundationResult == Some(MDirty) || foundationResult == Some(MReady))) {
        return ResultUncertain, t;
      }
      // Dirt after a dirty or a ready migration may belong to a cooperating executor of the
      // same key: one more reconciliation, never a verdict.
      var acted: Seen<Option<MigrationStatus>>;
      acted, t := ApplyAction(env, t, plan, w);
      AheadOne(w, start, before, t, plan, attempted);
      GoingAct(before, t, plan, applies, attempted, reconciled, kind);
      reconciled := reconciled || plan in attempted;
      attempted := attempted + {plan};
      applies := applies + 1;
      GoingUnderway(t, applies, applies, attempted, reconciled, kind);
      GoingEnds(t, applies, applies, attempted, reconciled, intent);
      if acted.Stop? {
        return acted.result, t;
      }
      if acted.value.Some? {
        foundationResult := acted.value;
      }
    }
  }

  /** How far the loop is in a smooth world: what was tried, then what is missing, are the
      actions that were missing at the start. */
  ghost predicate Ahead(w: World, start: Trace, t: Trace, attempted: set<Action>) {
    && Actions(t) + Missing(w, t) == Missing(w, start)
    && forall a :: a in attempted <==> a in Actions(t)
  }

  lemma {:induction false} HeadStart(w: World, start: Trace)
    ensures Actions(start) == [] ==> Ahead(w, start, start, {})
  {
    assert [] + Missing(w, start) == Missing(w, start);
  }

  lemma {:induction false} AheadSame(w: World, start: Trace, t: Trace, u: Trace, attempted: set<Action>)
    requires t <= u && Actions(u) == Actions(t)
    ensures Smooth(w, u) ==> Smooth(w, t)
    ensures Ahead(w, start, t, attempted) ==> Ahead(w, start, u, attempted)
    ensures PlanNow(w, u) == PlanNow(w, t)
  {
    SmoothPrefixes(w, t);
    SameWorld(w, t, u);
  }

  /** The planned action has not been tried. */
  lemma {:induction false} PlanAhead(w: World, start: Trace, t: Trace, attempted: set<Action>)
    ensures Ahead(w, start, t, attempted) ==> PlanNow(w, t) !in attempted
    ensures Ahead(w, start, t, attempted) && (PlanNow(w, t) == FinalizeRegistry || PlanNow(w, t) == RequireRecovery) ==>
              Actions(t) == Missing(w, start)
    ensures !PlanNow(w, t).Defer?
    ensures PlanNow(w, t) == RequireRecovery ==> Hopeless(w)
    ensures PlanNow(w, t) == FinalizeRegistry ==> !Hopeless(w)
  {
    assert Actions(t) + [] == Actions(t);
  }

  lemma {:induction false} AheadOne(w: World, start: Trace, t: Trace, u: Trace, action: Action, attempted: set<Action>)
    requires Actions(u) == Actions(t) + [action]
    ensures Ahead(w, start, t, attempted) && PlanNow(w, t) == action && action != FinalizeRegistry && action != RequireRecovery ==>
              Ahead(w, start, u, attempted + {action})
  {
    Assoc(Actions(t), [action], Missing(w, u));
    if PlanNow(w, t) == action && action != FinalizeRegistry && action != RequireRecovery {
      assert Missing(w, t) == [action] + Missing(w, u);
    }
  }

  lemma {:induction false} WroteNoAction(t: Trace, u: Trace, c: Call)
    requires Wrote(t, u, c) && Terminal(c)
    ensures Actions(u) == Actions(t)
  {
    NoAction(t, u);
  }

  lemma {:induction false} GoingStarts(t: Trace, kind: Kind)
    requires Underway(t, 0, 0) && forall a :: Applied(t, a) == 0
    ensures Going(t, 0, 0, {}, false, kind)
  {
    NothingTried(t, kind);
  }

  lemma {:induction false} GoingUnderway(t: Trace, applies: nat, passes: nat, attempted: set<Action>,
                                         reconciled: bool, kind: Kind)
    requires Going(t, applies, passes, attempted, reconciled, kind)
    ensures Underway(t, applies, passes) && applies <= 3 && Applies(t) == applies
  {
  }

  lemma {:induction false} SensibleAction(p: Planned, kind: Kind, t: Trace)
    requires Sensible(p, kind, t)
    ensures p.action == FinalizeRegistry || p.action == RequireRecovery || p.action.Defer?
            || p.action == PrepareFoundation || p.action == SchemaAction(kind)
  {
  }

  lemma {:induction false} NothingTried(t: Trace, kind: Kind)
    requires Underway(t, 0, 0) && forall a :: Applied(t, a) == 0
    ensures Tried(t, {}, false, kind) && Applies(t) == 0
  {
  }

  // ----- the whole of `execute` -----

  datatype Admission = Admitted(intent: Intent, source: Service) | SourceMissing(intent: Intent) | Refused(result: Result)

  function BeforeCommit(e: Error): Result {
    if e == Busy then ResultBusy else if IsUnavailable(e) then ResultUnavailable else ResultInternal
  }

  /** The source was asked for once, with this answer. */
  ghost predicate AskedOnce(t: Trace, source: Answer) {
    Event(GetSource, source) in t && forall e :: e in t && e.call == GetSource ==> e == Event(GetSource, source)
  }

  lemma {:induction false} AsksSource(t: Trace, source: Answer)
    requires forall e :: e in t ==> e.call != GetSource
    ensures AskedOnce(t + [Event(GetSource, source)], source)
  {
    var u := t + [Event(GetSource, source)];
    assert u[|t|] in u;
  }

  lemma {:induction false} AskedStays(t: Trace, e: Event, source: Answer)
    requires AskedOnce(t, source) && e.call != GetSource
    ensures AskedOnce(t + [e], source)
  {
  }

  /** What the answer to the one request for the source came to. */
  ghost predicate SourceAsked(a: Admission, t: Trace)
    requires !a.Refused?
  {
    exists source :: AskedOnce(t, source)
                     && if a.Admitted? then source == Source(Some(a.source)) else !(source.Source? && source.service.Some?)
  }

  lemma {:induction false} RejectedSource(a: Admission, t: Trace)
    requires !a.Refused? && SourceAsked(a, t) && (a.SourceMissing? || !SourceMatches(a.intent, a.source))
    ensures SourceRejected(a.intent, t)
  {
    hide SourceMatches;
    var source :| AskedOnce(t, source)
                  && if a.Admitted? then source == Source(Some(a.source)) else !(source.Source? && source.service.Some?);
    assert Event(GetSource, source).call == GetSource;
  }

  /** The transaction of the admission was committed. */
  ghost predicate CommittedIn(t: Trace) {
    exists e :: e in t && e.call == CommitAdmission && !e.answer.Raised?
  }

  /** `_commit_prepared`: an intent leaves here only after its commit. */
  method CommitPrepared(env: Environment, t: Trace, intent: Intent, source: Answer, ghost w: World)
    returns (a: Admission, u: Trace)
    requires AskedOnce(t, source)
    ensures Extends(t, u)
    ensures !a.Refused? ==> a.intent == intent && CommittedIn(u) && SourceAsked(a, u)
    ensures a.Refused? ==> a.result == ResultUncertain
    ensures Smooth(w, u) && source == Source(Some(w.source)) ==> a == Admitted(intent, w.source)
  {
    hide Smooth, FoundationNow, TargetNow, AskedOnce;
    var commit, close: Answer;
    commit, u := Ask(env, t, CommitAdmission, w);
    AskedStays(t, Event(CommitAdmission, commit), source);
    if commit.Raised? {
      return Refused(ResultUncertain), u;
    }
    ghost var committed := u;
    assert committed[|committed| - 1] in committed;
    close, u := Ask(env, u, CloseAdmission, w);
    AskedStays(committed, Event(CloseAdmission, close), source);
    assert committed[|committed| - 1] in u;
    if close.Raised? {
      return Refused(ResultUncertain), u;
    }
    a := if source.Source? && source.service.Some? then Admitted(intent, source.service.value) else SourceMissing(intent);
  }

  lemma {:induction false} ExtendsThrough(t: Trace, u: Trace, v: Trace, e: Event)
    requires Extends(t, u) && Extends(u, v) && e in u
    ensures Extends(t, v) && e in v
  {
    forall i | |t| <= i < |v| ensures Plain(v[i].call) {
      assert i < |u| ==> v[i] == u[i];
    }
    var k :| 0 <= k < |u| && u[k] == e;
    assert v[k] == e;
  }

  /** `_admit` and `_close_nonmutating`. */
  method AdmitCommand(env: Environment, c: Command, ghost w: World) returns (a: Admission, t: Trace)
    ensures Extends([], t)
    ensures !a.Refused? ==>
              && a.intent.phase == Prepared
              && Event(Admit(c), Claimed(PreparedClaim(a.intent))) in t
              && CommittedIn(t) && SourceAsked(a, t)
    ensures forall s :: a == Refused(ResultCompleted(s)) ==> Event(Admit(c), Claimed(CompletedClaim(s))) in t
    ensures Smooth(w, t) && w.intent.phase == Prepared ==> a == Admitted(w.intent, w.source)
  {
    hide Smooth, FoundationNow, TargetNow, AskedOnce, CommittedIn, SourceAsked;
    var answer: Answer;
    answer, t := Ask(env, [], OpenAdmission, w);
    if answer.Raised? {
      return Refused(BeforeCommit(answer.error)), t;
    }
    answer, t := Ask(env, t, Admit(c), w);
    if answer.Raised? {
      return Refused(BeforeCommit(answer.error)), t;
    }
    ghost var admitted := t;
    assert t[|t| - 1] in t;
    if answer.Claimed? && answer.outcome.PreparedClaim? && answer.outcome.intent.phase == Prepared {
      var source: Answer;
      source, t := Ask(env, t, GetSource, w);
      AsksSource(admitted, source);
      if source.Raised? {
        return Refused(BeforeCommit(source.error)), t;
      }
      ghost var asked := t;
      a, t := CommitPrepared(env, t, answer.outcome.intent, source, w);
      assert admitted[|admitted| - 1] in asked;
      ExtendsThrough([], asked, t, admitted[|admitted| - 1]);
      return;
    }
    var rollback, close: Answer;
    rollback, t := Ask(env, t, RollbackAdmission, w);
    if rollback.Raised? {
      return Refused(BeforeCommit(rollback.error)), t;
    }
    close, t := Ask(env, t, CloseAdmission, w);
    if close.Raised? {
      return Refused(BeforeCommit(close.error)), t;
    }
    assert forall e :: e in admitted ==> e in t;
    a := Refused(if answer.Claimed? then OutcomeResult(answer.outcome) else ResultInternal);
  }

  /** `_source_matches`. */
  predicate SourceMatches(i: Intent, s: Service) {
    && s.principal == i.principal && s.id == i.service && s.status == Active && s.revision == i.expectedRevision
    && s.schemaVersion == Some(i.expectedSchema) && s.manifest.Some?
    && if i.kind == Materialise
       then s.design == Seeded && s.manifest == Some(i.target) && s.schemaVersion == Some(1)
            && s.materialisedAt.None? && s.storage.None?
       else s.design == Materialised && s.materialisedAt.Some? && s.storage.Some?
  }

  /** `_locator`. */
  method Locate(env: Environment, t: Trace, i: Intent, s: Service, ghost w: World)
    returns (r: Seen<Storage>, u: Trace)
    ensures Extends(t, u)
    ensures r.Stop? ==> r.result == ResultBusy || r.result == ResultUnavailable || r.result == ResultInternal
    ensures r.Saw? ==> r.value.namespaceOf == i.service && (i.kind == Evolve ==> s.storage == Some(r.value))
    ensures Smooth(w, u) && w.storage.namespaceOf == i.service && (i.kind == Evolve ==> s.storage == Some(w.storage)) ==>
              r == Saw(w.storage)
  {
    hide Smooth, FoundationNow, TargetNow;
    var info, located: Answer;
    info, u := Ask(env, t, CatalogInfo, w);
    if info.Raised? {
      return Stop(BeforeCommit(info.error)), u;
    }
    located, u := Ask(env, u, Allocate, w);
    if located.Raised? {
      return Stop(BeforeCommit(located.error)), u;
    }
    if !info.Info? || !info.serviceStore || !located.Located?
       || located.storage.backend != info.backend || located.storage.namespaceOf != i.service {
      return Stop(ResultInternal), u;
    }
    if i.kind == Evolve && s.storage != Some(located.storage) {
      return Stop(ResultInternal), u;
    }
    r := Saw(located.storage);
  }

  lemma {:induction false} Untouched(t: Trace, intent: Intent)
    requires Extends([], t)
    ensures Underway(t, 0, 0) && (forall a :: Applied(t, a) == 0) && Bounded(t) && Justified(intent, t)
  {
    ExtendsKeeps([], t);
    NothingTerminal(intent, t, 0, 0);
  }

  lemma {:induction false} MismatchRecovers(intent: Intent, t: Trace, u: Trace, c: Call)
    requires Extends([], t) && Ends(c, intent, None) && Wrote(t, u, c) && SourceRejected(intent, t)
    ensures t <= u && Bounded(u) && Justified(intent, u) && Applies(u) == 0
  {
    hide Justified, SourceRejected;
    Untouched(t, intent);
    UntouchedCounts(t);
    EndsJustified(intent, t, u, c, 0, 0);
  }

  /** What was admitted can be carried out: its source and its storage match. */
  ghost predicate Fitting(w: World) {
    && w.intent.phase == Prepared && SourceMatches(w.intent, w.source) && w.storage.namespaceOf == w.intent.service
    && (w.intent.kind == Evolve ==>
          w.source.storage == Some(w.storage) && Classify(w.source.manifest.value, w.intent.target).Some?)
    && OneStore(w)
  }

  /** A completed result is a committed one. */
  ghost predicate CommittedResult(r: Result, t: Trace) {
    forall s :: r == ResultCompleted(s) ==> exists c :: Terminal(c) && Committed(t, c, CompletedClaim(s))
  }

  /** The part of `execute` for a source that is missing or does not match. */
  method RejectSource(env: Environment, start: Trace, a: Admission, ghost w: World) returns (r: Result, t: Trace)
    requires Extends([], start) && !a.Refused? && SourceAsked(a, start)
    requires a.SourceMissing? || !SourceMatches(a.intent, a.source)
    ensures start <= t && Bounded(t) && Justified(a.intent, t) && Applies(t) == 0 && CommittedResult(r, t)
    ensures Smooth(w, t) ==> r == ResultRecovery && Actions(t) == []
  {
    assert Actions([]) == [];
    hide Smooth, Actions, FoundationNow, TargetNow, Bounded, Justified, Applies, Applied, Passes, TerminalCalls,
         LastPass, Extends, Wrote, Committed, SourceAsked, SourceRejected, SourceMatches;
    ExtendsSame(w, [], start);
    r, t := FinalizeNow(env, start, a.intent, None, w);
    ghost var c :| Ends(c, a.intent, None) && Wrote(start, t, c)
                   && (forall s :: r == ResultCompleted(s) ==> Committed(t, c, CompletedClaim(s)));
    RejectedSource(a, start);
    WroteNoAction(start, t, c);
    MismatchRecovers(a.intent, start, t, c);
  }

  /** The part of `execute` for a source that matches. */
  method CarryOut(env: Environment, start: Trace, intent: Intent, source: Service, ghost w: World)
    returns (r: Result, t: Trace)
    requires Extends([], start) && intent.phase == Prepared
    ensures start <= t && Bounded(t) && Justified(intent, t) && CommittedResult(r, t)
    ensures Applies(t) > 0 ==> AfterAction(r)
    ensures Fitting(w) && Smooth(w, t) && intent == w.intent && source == w.source ==>
              Actions(t) == Missing(w, []) && if Hopeless(w) then r == ResultRecovery else r.ResultCompleted?
  {
    assert Actions([]) == [];
    hide Smooth, Actions, FoundationNow, TargetNow, OneStore, Hopeless, Missing, Classify, Bounded, Justified,
         Underway, Applies, Applied, Passes, TerminalCalls, LastPass, Extends, Wrote, Committed;
    var located: Seen<Storage>;
    located, t := Locate(env, start, intent, source, w);
    ghost var placed := t;
    SmoothPrefixes(w, placed);
    ExtendsTwice(start, t);
    ExtendsSame(w, [], placed);
    SameWorld(w, [], placed);
    Untouched(t, intent);
    UntouchedCounts(t);
    if located.Stop? {
      r := located.result;
      return;
    }
    var transition := false;
    if intent.kind == Evolve {
      if source.manifest.None? || Classify(source.manifest.value, intent.target).None? {
        r := ResultInternal;
        return;
      }
      transition := true;
    }
    r, t := Reconcile(env, t, intent, located.value, transition, w);
  }

  /** `execute`, against any environment: it ends, within its bounds; every terminal write is
      justified by answers of its last pass; after the first physical action a storage failure
      is no longer reported as unavailable; and a completed result is a committed one. Nothing
      physical or terminal is tried unless the registry admitted an intent. Where no call
      fails, an intent whose source matches is completed by exactly the actions that its store
      lacks, the foundation first, or, when its store is beyond repair, ends in recovery; and
      an intent whose source does not match ends in recovery before anything is tried. */
  method Execute(env: Environment, command: Command, ghost w: World)
    returns (r: Result, t: Trace, admitted: Option<Intent>)
    ensures Bounded(t)
    ensures match admitted
            case None => Applies(t) == Passes(t) == TerminalCalls(t) == 0
            case Some(i) => i.phase == Prepared && Event(Admit(command), Claimed(PreparedClaim(i))) in t && Justified(i, t)
    ensures Applies(t) > 0 ==> AfterAction(r)
    ensures forall s :: r == ResultCompleted(s) ==>
              Event(Admit(command), Claimed(CompletedClaim(s))) in t
              || exists c :: Terminal(c) && Committed(t, c, CompletedClaim(s))
    ensures Fitting(w) && Smooth(w, t) ==>
              && admitted == Some(w.intent) && Actions(t) == Missing(w, [])
              && if Hopeless(w) then r == ResultRecovery else r.ResultCompleted?
    ensures w.intent.phase == Prepared && !SourceMatches(w.intent, w.source) && Smooth(w, t) ==>
              r == ResultRecovery && Actions(t) == []
  {
    hide Smooth, Actions, FoundationNow, TargetNow, OneStore, Hopeless, Missing, Classify, Bounded, Justified,
         Applies, Applied, Passes, TerminalCalls, LastPass, Extends, Committed, SourceAsked, SourceMatches;
    var a: Admission;
    a, t := AdmitCommand(env, command, w);
    SmoothPrefixes(w, t);
    if a.Refused? {
      UntouchedCounts(t);
      return a.result, t, None;
    }
    admitted := Some(a.intent);
    if a.SourceMissing? || !SourceMatches(a.intent, a.source) {
      r, t := RejectSource(env, t, a, w);
    } else {
      r, t := CarryOut(env, t, a.intent, a.source, w);
    }
  }

  lemma {:induction false} UntouchedCounts(t: Trace)
    requires Extends([], t)
    ensures Applies(t) == Passes(t) == TerminalCalls(t) == 0 && Bounded(t)
  {
    ExtendsKeeps([], t);
  }

  lemma {:induction false} ExtendsTwice(t: Trace, u: Trace)
    requires Extends([], t) && Extends(t, u)
    ensures Extends([], u) && t <= u
  {
    forall i | 0 <= i < |u| ensures Plain(u[i].call) {
      if i < |t| {
        assert u[i] == t[i];
      }
    }
  }
}
