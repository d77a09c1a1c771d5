/** The portable coordinator, run against an arbitrary environment: registry, store, clock and
    destination may answer every call as they like. */
module PortableCoordinator {
  import opened Ordering
  import opened Text
  import opened PortableStore
  import opened Services
  import opened Payloads
  import opened PayloadContent
  import opened Operations
  import S = BundleStream

  /** What a request fixes; its fingerprint covers all of it but the key. */
  datatype Request = Request(kind: OpKind, principal: Text, createdVia: Text, service: Uuid, expectedRevision: int,
                             key: Text, root: Option<Text>)

  datatype Receipt = Receipt(id: Uuid, imported: bool, principal: Text, service: Uuid, root: Text, backend: Backend,
                             revision: int, status: Status, at: Time)

  /** The result stored with a completed claim. */
  datatype Stored = StoredService(service: Service) | StoredReceipt(receipt: Receipt) | StoredTombstone

  datatype Verdict =
    | PreparedFor(request: Request) | CompletedAs(stored: Stored) | NeedsRecovery | Conflicting | Stale | Unsupported
    | Ongoing | Collision | Tombstoned

  datatype Failure = BusyFailure | UnavailableFailure | MigrationFailure | ContractFailure | OtherFailure

  /** The registry writes that end an operation. */
  datatype Final =
    | FinalizeOperational(request: Request, at: Time)
    | CompleteExport(request: Request, receipt: Receipt)
    | PublishImport(request: Request, service: Service, receipt: Receipt)
    | FinalizePurge(request: Request, at: Time)
    | MarkRecovery(request: Request, at: Time)

  datatype Call =
    | OpenUow | Resolve(request: Request) | GetService | CommitUow | CloseUow
    | ReadFence | OpenSnapshot(fence: Fence) | ChangeFence(observed: Fence, open: bool)
    | StageStore(service: Service, members: seq<Member>, fence: Fence)
    | ObserveStore(service: Service, members: seq<Member>, fence: Fence)
    | PurgeStore | IsAbsent
    | ReadClock | NewReceiptId | WriteLine(line: Bytes) | FlushOutput
    | EndWith(final: Final)

  datatype Answer =
    | Failed(failure: Failure) | Fine | FenceIs(fence: Fence) | MembersAre(members: seq<Member>) | Holds(b: bool)
    | Staged(different: bool) | TimeIs(at: Time) | IdIs(id: Uuid) | Count(n: int)
    | VerdictIs(verdict: Verdict) | ServiceIs(service: Option<Service>)

  datatype Event = Event(call: Call, answer: Answer)

  type Trace = seq<Event>

  type Environment = (Trace, Call) -> Answer

  datatype Category =
    | CompletedResult | ConflictResult | StaleResult | UnsupportedResult | OngoingResult | CollisionResult
    | TombstonedResult | RecoveryResult | UncertainResult | BusyResult | UnavailableResult | InternalResult

  datatype Result = Result(category: Category, stored: Option<Stored>, summary: Option<S.Summary>, written: bool)

  function Only(c: Category): Result {
    Result(c, None, None, false)
  }

  // ----- what a trace records -----

  function Select(t: Trace, want: Call -> bool): Trace {
    if t == [] then []
    else Select(t[..|t| - 1], want) + if want(t[|t| - 1].call) then [t[|t| - 1]] else []
  }

  predicate AsksStore(c: Call) {
    c.ReadFence? || c.OpenSnapshot? || c.ChangeFence? || c.StageStore? || c.ObserveStore? || c.PurgeStore? || c.IsAbsent?
  }

  predicate Ends(c: Call) {
    c.EndWith?
  }

  function StoreEvents(t: Trace): Trace {
    Select(t, AsksStore)
  }

  function Finals(t: Trace): Trace {
    Select(t, Ends)
  }

  /** The bytes handed to the destination. */
  function Output(t: Trace): seq<Bytes> {
    if t == [] then []
    else Output(t[..|t| - 1]) + if t[|t| - 1].call.WriteLine? then [t[|t| - 1].call.line] else []
  }

  /** The service the registry answered last. */
  function ServiceRead(t: Trace): Option<Service> {
    if t == [] then None
    else if t[|t| - 1].call.GetService? && t[|t| - 1].answer.ServiceIs? then t[|t| - 1].answer.service
    else ServiceRead(t[..|t| - 1])
  }

  lemma {:induction false} SelectOne(t: Trace, e: Event)
    ensures StoreEvents(t + [e]) == StoreEvents(t) + if AsksStore(e.call) then [e] else []
    ensures Finals(t + [e]) == Finals(t) + if Ends(e.call) then [e] else []
    ensures Output(t + [e]) == Output(t) + if e.call.WriteLine? then [e.call.line] else []
    ensures ServiceRead(t + [e]) == if e.call.GetService? && e.answer.ServiceIs? then e.answer.service else ServiceRead(t)
  {
    assert (t + [e])[..|t|] == t;
  }

  /** Nothing but registry reads, clocks and identifiers in between. */
  ghost predicate Aside(t: Trace, u: Trace) {
    StoreEvents(u) == StoreEvents(t) && Finals(u) == Finals(t) && Output(u) == Output(t)
  }

  // ----- a world in which nothing is lost -----

  /** What the registry has admitted, what the store holds, and how the registry ends it. */
  datatype World = World(request: Request, service: Service, fence: Fence, members: seq<Member>, at: Time,
                         stored: Stored)

  /** An answer that this world gives. The store may fail to answer a change of the fence, a
      staging or a purge, as long as it shows afterwards that it was done. */
  predicate Gives(w: World, c: Call, a: Answer) {
    match c
    case Resolve(_) => a == VerdictIs(PreparedFor(w.request))
    case GetService => a == ServiceIs(Some(w.service))
    case ReadFence => a == FenceIs(w.fence)
    case ChangeFence(_, open) => if a.FenceIs? then a.fence.open == open else w.fence.open == open
    case OpenSnapshot(_) => a == MembersAre(w.members)
    case StageStore(_, _, _) => a != Staged(true)
    case ObserveStore(_, _, _) => a == Holds(true)
    case PurgeStore => true
    case IsAbsent => a == Holds(true)
    case ReadClock => a == TimeIs(w.at)
    case NewReceiptId => a.IdIs?
    case WriteLine(line) => a == Count(|line|)
    case EndWith(CompleteExport(_, receipt)) =>
      a.VerdictIs? && a.verdict.CompletedAs? && a.verdict.stored.StoredReceipt? && a.verdict.stored.receipt.root == receipt.root
    case EndWith(MarkRecovery(_, _)) => a == VerdictIs(NeedsRecovery)
    case EndWith(_) => a == VerdictIs(CompletedAs(w.stored))
    case _ => !a.Failed?
  }

  ghost predicate Smooth(w: World, t: Trace) {
    forall e :: e in t ==> Gives(w, e.call, e.answer)
  }

  lemma {:induction false} SmoothOne(w: World, t: Trace, e: Event)
    ensures Smooth(w, t + [e]) <==> Smooth(w, t) && Gives(w, e.call, e.answer)
  {
    hide Gives;
    var u := t + [e];
    assert e in u && forall x :: x in u <==> x in t || x == e;
  }

  method Ask(env: Environment, t: Trace, c: Call, ghost w: World) returns (a: Answer, u: Trace)
    ensures a == env(t, c) && u == t + [Event(c, a)]
    ensures Smooth(w, u) <==> Smooth(w, t) && Gives(w, c, a)
    ensures StoreEvents(u) == StoreEvents(t) + if AsksStore(c) then [Event(c, a)] else []
    ensures Finals(u) == Finals(t) + if Ends(c) then [Event(c, a)] else []
    ensures Output(u) == Output(t) + if c.WriteLine? then [c.line] else []
    ensures ServiceRead(u) == if c.GetService? && a.ServiceIs? then a.service else ServiceRead(t)
    ensures !AsksStore(c) && !Ends(c) && !c.WriteLine? ==> Aside(t, u)
  {
    a := env(t, c);
    u := t + [Event(c, a)];
    SelectOne(t, Event(c, a));
    SmoothOne(w, t, Event(c, a));
    hide Gives, Smooth;
    assert StoreEvents(t) + [] == StoreEvents(t) && Finals(t) + [] == Finals(t) && Output(t) + [] == Output(t);
  }

  /** How far an admission has come: the intent the registry answered, the service, and
      whether the transaction was committed. */
  datatype Progress = Progress(prepared: Option<Request>, service: Option<Service>, committed: bool)

  const NO_PROGRESS: Progress := Progress(None, None, false)

  function ProgressOf(t: Trace): Progress {
    if t == [] then NO_PROGRESS else Advance(ProgressOf(t[..|t| - 1]), t[|t| - 1])
  }

  function Advance(p: Progress, e: Event): Progress {
    match e.call
    case Resolve(_) =>
      if e.answer.VerdictIs? && e.answer.verdict.PreparedFor? then Progress(Some(e.answer.verdict.request), None, false) else p
    case GetService => if e.answer.ServiceIs? then p.(service := e.answer.service) else p
    case CommitUow => if e.answer.Failed? then p else p.(committed := true)
    case _ => p
  }

  /** Calls that neither admit, nor touch the store or the destination, nor end anything. */
  predicate Quiet(c: Call) {
    c.OpenUow? || c.CommitUow? || c.CloseUow? || c.ReadClock?
  }

  /** Quiet calls, and at most one that ends the operation. */
  ghost predicate Brief(t: Trace, u: Trace, final: Final) {
    && t <= u
    && (forall i :: |t| <= i < |u| ==> Quiet(u[i].call) || u[i].call == EndWith(final))
    && forall i, j :: |t| <= i < j < |u| ==> Quiet(u[i].call) || Quiet(u[j].call)
  }

  lemma {:induction false} BriefEnd(t: Trace, u: Trace, e: Event, final: Final)
    requires t <= u && (forall i :: |t| <= i < |u| ==> Quiet(u[i].call)) && e.call == EndWith(final)
    ensures Brief(t, u + [e], final)
  {
  }

  // ----- results -----

  function FailureResult(f: Failure, uncertain: bool): (r: Result)
    ensures !r.written && r.summary.None? && r.stored.None? && r.category != CompletedResult
  {
    if f == BusyFailure then Only(BusyResult)
    else if uncertain then Only(UncertainResult)
    else if f == UnavailableFailure then Only(UnavailableResult)
    else Only(InternalResult)
  }

  function VerdictResult(v: Verdict): (r: Result)
    ensures !r.written && r.summary.None? && (r.category == CompletedResult <==> v.CompletedAs?)
  {
    match v
    case CompletedAs(stored) => Result(CompletedResult, Some(stored), None, false)
    case NeedsRecovery => Only(RecoveryResult)
    case Conflicting => Only(ConflictResult)
    case Stale => Only(StaleResult)
    case Unsupported => Only(UnsupportedResult)
    case Ongoing => Only(OngoingResult)
    case Collision => Only(CollisionResult)
    case Tombstoned => Only(TombstonedResult)
    case PreparedFor(_) => Only(InternalResult)
  }

  datatype Admission = Admitted(request: Request, service: Option<Service>) | Stopped(result: Result)

  /** What an admission adds to a trace: the request is resolved once, and first. */
  ghost predicate Admits(t: Trace, u: Trace, request: Request) {
    && t <= u
    && (|u| > |t| ==> u[|t|].call == OpenUow) && (|u| > |t| + 1 ==> u[|t| + 1].call == Resolve(request))
    && forall i :: |t| + 2 <= i < |u| ==> u[i].call.GetService? || u[i].call.CommitUow? || u[i].call.CloseUow?
  }

  lemma {:induction false} AdmitsOne(t: Trace, u: Trace, e: Event, request: Request)
    requires Admits(t, u, request)
    requires |u| == |t| ==> e.call == OpenUow
    requires |u| == |t| + 1 ==> e.call == Resolve(request)
    requires |u| > |t| + 1 ==> e.call.GetService? || e.call.CommitUow? || e.call.CloseUow?
    ensures Admits(t, u + [e], request)
    ensures ProgressOf(u + [e]) == Advance(ProgressOf(u), e)
  {
    ProgressOne(u, e);
    hide ProgressOf;
  }

  lemma {:induction false} NothingAdmitted(t: Trace, request: Request)
    ensures Admits(t, t, request)
  {
  }

  /** What committing and closing a transaction adds to a trace. */
  ghost predicate CommitsAndCloses(t: Trace, u: Trace, ok: bool) {
    && t <= u && |t| < |u| <= |t| + 2 && u[|t|].call == CommitUow && (|u| == |t| + 2 ==> u[|t| + 1].call == CloseUow)
    && (ok ==> |u| == |t| + 2 && !u[|t|].answer.Failed?)
  }

  method CommitAndClose(env: Environment, t: Trace, ghost w: World) returns (ok: bool, u: Trace)
    ensures CommitsAndCloses(t, u, ok) && Aside(t, u) && ServiceRead(u) == ServiceRead(t)
    ensures Smooth(w, u) ==> Smooth(w, t) && ok
  {
    hide Smooth, StoreEvents, Finals, Output, ServiceRead;
    var answer: Answer;
    answer, u := Ask(env, t, CommitUow, w);
    if answer.Failed? {
      return false, u;
    }
    answer, u := Ask(env, u, CloseUow, w);
    ok := !answer.Failed?;
  }

  lemma {:induction false} AdmitsClosing(t: Trace, u: Trace, v: Trace, ok: bool, request: Request)
    requires Admits(t, u, request) && |u| > |t| + 1 && CommitsAndCloses(u, v, ok)
    ensures Admits(t, v, request)
    ensures ok ==> ProgressOf(v) == ProgressOf(u).(committed := true)
  {
    hide ProgressOf;
    AdmitsOne(t, u, v[|u|], request);
    assert v[..|u| + 1] == u + [v[|u|]];
    if |v| == |u| + 2 {
      AdmitsOne(t, u + [v[|u|]], v[|u| + 1], request);
      assert v == u + [v[|u|]] + [v[|u| + 1]];
    } else {
      assert v == u + [v[|u|]];
    }
  }

  lemma {:induction false} BriefClosing(t: Trace, u: Trace, v: Trace, ok: bool, final: Final)
    requires Brief(t, u, final) && CommitsAndCloses(u, v, ok)
    ensures Brief(t, v, final)
  {
    assert forall i :: |u| <= i < |v| ==> Quiet(v[i].call);
  }

  /** `_admit`. */
  method Admit(env: Environment, t: Trace, request: Request, needsService: bool, ghost w: World)
    returns (a: Admission, u: Trace)
    ensures Aside(t, u)
    ensures a.Admitted? ==> (needsService ==> a.service.Some? && ServiceRead(u) == a.service)
    ensures a.Stopped? ==> !a.result.written && a.result.summary.None?
    ensures a.Stopped? && a.result.category == CompletedResult ==> ServiceRead(u) == ServiceRead(t)
    ensures Admits(t, u, request)
    ensures a.Admitted? && needsService ==> ProgressOf(u) == Progress(Some(a.request), a.service, true)
    ensures Smooth(w, u) ==> Smooth(w, t) && a == Admitted(w.request, if needsService then Some(w.service) else None)
  {
    hide Smooth, StoreEvents, Finals, Output, ServiceRead, ProgressOf, Admits, FailureResult, VerdictResult,
         CommitsAndCloses;
    var answer: Answer;
    NothingAdmitted(t, request);
    answer, u := Ask(env, t, OpenUow, w);
    AdmitsOne(t, t, Event(OpenUow, answer), request);
    ghost var v := u;
    if answer.Failed? {
      return Stopped(FailureResult(answer.failure, false)), u;
    }
    answer, u := Ask(env, u, Resolve(request), w);
    AdmitsOne(t, v, Event(Resolve(request), answer), request);
    v := u;
    if answer.Failed? {
      return Stopped(FailureResult(answer.failure, false)), u;
    }
    if !answer.VerdictIs? || !answer.verdict.PreparedFor? {
      return Stopped(if answer.VerdictIs? then VerdictResult(answer.verdict) else Only(InternalResult)), u;
    }
    var admitted := answer.verdict.request;
    var service: Option<Service> := None;
    if needsService {
      answer, u := Ask(env, u, GetService, w);
      AdmitsOne(t, v, Event(GetService, answer), request);
      v := u;
      if answer.Failed? {
        return Stopped(FailureResult(answer.failure, false)), u;
      }
      if !answer.ServiceIs? || answer.service.None? {
        return Stopped(Only(InternalResult)), u;
      }
      service := answer.service;
    }
    var ok: bool;
    ok, u := CommitAndClose(env, u, w);
    AdmitsClosing(t, v, u, ok, request);
    a := if ok then Admitted(admitted, service) else Stopped(Only(UncertainResult));
  }

  /** At most one registry write, and nothing else that counts. */
  ghost predicate Ended(t: Trace, u: Trace, final: Final) {
    && StoreEvents(u) == StoreEvents(t) && Output(u) == Output(t) && ServiceRead(u) == ServiceRead(t)
    && (Finals(u) == Finals(t) || exists a :: Finals(u) == Finals(t) + [Event(EndWith(final), a)])
  }

  /** The operation was marked for recovery, or it completed with what the registry stored. */
  predicate Concludes(w: World, final: Final, r: Result) {
    if final.MarkRecovery? then r == Only(RecoveryResult)
    else
      && r.category == CompletedResult && r.stored.Some?
      && if final.CompleteExport? then r.stored.value.StoredReceipt? && r.stored.value.receipt.root == final.receipt.root
         else r.stored == Some(w.stored)
  }

  /** `_terminal`. A completed result is what the registry answered, committed and closed. */
  method EndOperation(env: Environment, t: Trace, final: Final, physical: bool, ghost w: World)
    returns (r: Result, u: Trace)
    ensures Ended(t, u, final)
    ensures !r.written && r.summary.None?
    ensures r.category == CompletedResult ==>
              exists stored :: r.stored == Some(stored) && Finals(u) == Finals(t) + [Event(EndWith(final), VerdictIs(CompletedAs(stored)))]
    ensures physical ==> r.category != UnavailableResult
    ensures Brief(t, u, final)
    ensures Smooth(w, u) ==> Smooth(w, t) && Concludes(w, final, r)
  {
    hide Smooth, StoreEvents, Finals, Output, ServiceRead, CommitsAndCloses;
    var answer: Answer;
    answer, u := Ask(env, t, OpenUow, w);
    if answer.Failed? {
      return FailureResult(answer.failure, physical), u;
    }
    BriefEnd(t, u, Event(EndWith(final), env(u, EndWith(final))), final);
    answer, u := Ask(env, u, EndWith(final), w);
    assert Finals(u) == Finals(t) + [Event(EndWith(final), answer)];
    if answer.Failed? {
      return FailureResult(answer.failure, physical), u;
    }
    if !answer.VerdictIs? || !(answer.verdict.CompletedAs? || answer.verdict.NeedsRecovery?) {
      return if answer.VerdictIs? then VerdictResult(answer.verdict) else Only(InternalResult), u;
    }
    ghost var ending := u;
    var ok: bool;
    ok, u := CommitAndClose(env, u, w);
    BriefClosing(t, ending, u, ok, final);
    r := if ok then VerdictResult(answer.verdict) else Only(UncertainResult);
  }

  ghost predicate OnlyRecovery(t: Trace, u: Trace) {
    && StoreEvents(u) == StoreEvents(t) && Output(u) == Output(t)
    && (Finals(u) == Finals(t) || exists request, at, a :: Finals(u) == Finals(t) + [Event(EndWith(MarkRecovery(request, at)), a)])
  }

  /** `_recover`. */
  method RecoverNow(env: Environment, t: Trace, request: Request, ghost w: World) returns (r: Result, u: Trace)
    ensures OnlyRecovery(t, u)
    ensures !r.written && r.category != UnavailableResult
    ensures exists at :: Brief(t, u, MarkRecovery(request, at))
    ensures Smooth(w, u) ==> Smooth(w, t) && r == Only(RecoveryResult)
  {
    hide Smooth, StoreEvents, Finals, Output, ServiceRead;
    var clock: Answer;
    clock, u := Ask(env, t, ReadClock, w);
    if !clock.TimeIs? {
      assert Brief(t, u, MarkRecovery(request, 0));
      return Only(UncertainResult), u;
    }
    ghost var read := u;
    r, u := EndOperation(env, u, MarkRecovery(request, clock.at), true, w);
    BriefAfter(t, read, u, MarkRecovery(request, clock.at));
  }

  lemma {:induction false} BriefAfter(t: Trace, u: Trace, v: Trace, final: Final)
    requires t <= u && |u| == |t| + 1 && Quiet(u[|t|].call) && Brief(u, v, final)
    ensures Brief(t, v, final)
  {
    assert v[|t|] == u[|t|];
  }

  // ----- transition, purge and import -----

  /** The fence is known to be in the wanted state from the last answer of the store. */
  predicate FenceShown(events: Trace, open: bool) {
    events != [] && events[|events| - 1].answer.FenceIs? && events[|events| - 1].answer.fence.open == open
  }

  /** The store answered the transition itself with the other state. */
  predicate FenceElsewhere(events: Trace, open: bool) {
    && events != [] && events[|events| - 1].call.ChangeFence? && events[|events| - 1].answer.FenceIs?
    && events[|events| - 1].answer.fence.open != open
  }

  /** Finals are absent, a recovery, or this one. */
  ghost predicate FinalOr(t: Trace, allowed: Final -> bool) {
    |Finals(t)| <= 1
    && forall e :: e in Finals(t) ==> e.call.EndWith? && (e.call.final.MarkRecovery? || allowed(e.call.final))
  }

  predicate StoreMatches(s: Service, backend: Backend) {
    s.storage.Some? && s.storage.value.backend == backend
  }

  /** The admission is committed and nothing has been ended. */
  ghost predicate Standing(t: Trace) {
    ProgressOf(t).prepared.Some? && ProgressOf(t).service.Some? && ProgressOf(t).committed && Finals(t) == []
  }

  ghost predicate MayChangeFence(request: Request, backend: Backend, before: Trace, observed: Fence, open: bool) {
    && Standing(before)
    && var s := ProgressOf(before).service.value;
       && s.design == Materialised && StoreMatches(s, backend) && TransitionTarget(request.kind, s.status).Some?
       && open == (TransitionTarget(request.kind, s.status).value == Active)
       && StoreEvents(before) == [Event(ReadFence, FenceIs(observed))]
  }

  ghost predicate MayFinalize(request: Request, before: Trace, admitted: Request) {
    && Standing(before) && ProgressOf(before).prepared == Some(admitted)
    && var s := ProgressOf(before).service.value;
       && TransitionTarget(request.kind, s.status).Some?
       && (s.design == Materialised ==>
             && |StoreEvents(before)| >= 2
             && FenceShown(StoreEvents(before), TransitionTarget(request.kind, s.status).value == Active))
  }

  ghost predicate MayRecover(request: Request, backend: Backend, before: Trace, admitted: Request) {
    && Standing(before) && ProgressOf(before).prepared == Some(admitted)
    && var s := ProgressOf(before).service.value;
       || (StoreEvents(before) == []
           && (TransitionTarget(request.kind, s.status).None? || (s.design == Materialised && !StoreMatches(s, backend))))
       || (s.design == Materialised && TransitionTarget(request.kind, s.status).Some?
           && FenceElsewhere(StoreEvents(before), TransitionTarget(request.kind, s.status).value == Active))
  }

  /** What a status change may call next. */
  ghost predicate MayCall(request: Request, backend: Backend, before: Trace, c: Call) {
    match c
    case Resolve(r) => r == request && ProgressOf(before) == NO_PROGRESS && StoreEvents(before) == [] && Finals(before) == []
    case ChangeFence(observed, open) => MayChangeFence(request, backend, before, observed, open)
    case EndWith(FinalizeOperational(admitted, _)) => MayFinalize(request, before, admitted)
    case EndWith(MarkRecovery(admitted, _)) => MayRecover(request, backend, before, admitted)
    case _ => Quiet(c) || c.GetService? || c.ReadFence?
  }

  /** Every call of the trace was one that might come next. */
  ghost predicate Protocol(request: Request, backend: Backend, t: Trace) {
    forall i :: 0 <= i < |t| ==> MayCall(request, backend, t[..i], t[i].call)
  }

  lemma {:induction false} ProtocolOne(request: Request, backend: Backend, t: Trace, e: Event)
    requires Protocol(request, backend, t) && MayCall(request, backend, t, e.call)
    ensures Protocol(request, backend, t + [e])
  {
    hide MayCall;
    var u := t + [e];
    forall i | 0 <= i < |u| ensures MayCall(request, backend, u[..i], u[i].call) {
      assert i < |t| ==> u[..i] == t[..i];
      assert i == |t| ==> u[..i] == t;
    }
  }

  lemma {:induction false} ProgressOne(t: Trace, e: Event)
    ensures ProgressOf(t + [e]) == Advance(ProgressOf(t), e)
  {
    assert (t + [e])[..|t|] == t;
  }

  lemma {:induction false} AdmitsProtocol(request: Request, backend: Backend, u: Trace)
    requires Admits([], u, request)
    ensures Protocol(request, backend, u)
  {
    forall i | 0 <= i < |u| ensures MayCall(request, backend, u[..i], u[i].call) {
      if i == 1 {
        assert u[..1] == [] + [u[0]];
        ProgressOne([], u[0]);
        SelectOne([], u[0]);
        NothingYet();
      }
    }
  }

  /** Quiet calls change nothing that the next call depends on. */
  lemma {:induction false} QuietKeeps(t: Trace, u: Trace)
    requires t <= u && Standing(t) && forall i :: |t| <= i < |u| ==> Quiet(u[i].call)
    ensures ProgressOf(u) == ProgressOf(t) && StoreEvents(u) == StoreEvents(t) && Finals(u) == Finals(t)
    decreases |u|
  {
    if |u| > |t| {
      var v := u[..|u| - 1];
      QuietKeeps(t, v);
      assert v + [u[|u| - 1]] == u;
      SelectOne(v, u[|u| - 1]);
      ProgressOne(v, u[|u| - 1]);
      assert StoreEvents(v) + [] == StoreEvents(v) && Finals(v) + [] == Finals(v);
    } else {
      assert u == t;
    }
  }

  lemma {:induction false} BriefProtocol(request: Request, backend: Backend, t: Trace, u: Trace, final: Final)
    requires Protocol(request, backend, t) && Brief(t, u, final)
    requires MayCall(request, backend, t, EndWith(final)) && (final.FinalizeOperational? || final.MarkRecovery?)
    ensures Protocol(request, backend, u)
  {
    hide ProgressOf, StoreEvents, Finals, FenceShown, FenceElsewhere;
    forall i | 0 <= i < |u| ensures MayCall(request, backend, u[..i], u[i].call) {
      if i < |t| {
        assert u[..i] == t[..i] && u[i] == t[i];
      } else if u[i].call == EndWith(final) {
        forall k | |t| <= k < i ensures Quiet(u[..i][k].call) {
          assert u[..i][k] == u[k];
        }
        QuietKeeps(t, u[..i]);
      }
    }
  }

  lemma {:induction false} AsideProtocol(request: Request, backend: Backend, t: Trace, e: Event)
    requires Protocol(request, backend, t) && (e.call.ReadFence? || e.call.ReadClock?)
    ensures Protocol(request, backend, t + [e]) && ProgressOf(t + [e]) == ProgressOf(t)
  {
    hide Protocol, ProgressOf;
    ProtocolOne(request, backend, t, e);
    ProgressOne(t, e);
  }

  lemma {:induction false} ChangeProtocol(request: Request, backend: Backend, t: Trace, observed: Fence, open: bool,
                                          answer: Answer)
    requires Protocol(request, backend, t) && MayChangeFence(request, backend, t, observed, open)
    ensures var u := t + [Event(ChangeFence(observed, open), answer)];
            Protocol(request, backend, u) && ProgressOf(u) == ProgressOf(t)
  {
    hide Protocol, ProgressOf, MayChangeFence;
    ProtocolOne(request, backend, t, Event(ChangeFence(observed, open), answer));
    ProgressOne(t, Event(ChangeFence(observed, open), answer));
  }

  lemma {:induction false} FinalizeProtocol(request: Request, backend: Backend, t: Trace, u: Trace, admitted: Request,
                                            at: Time)
    requires Protocol(request, backend, t) && Brief(t, u, FinalizeOperational(admitted, at))
    requires MayFinalize(request, t, admitted)
    ensures Protocol(request, backend, u)
  {
    hide MayFinalize, Brief, Protocol;
    BriefProtocol(request, backend, t, u, FinalizeOperational(admitted, at));
  }

  lemma {:induction false} RecoverProtocol(request: Request, backend: Backend, t: Trace, u: Trace, admitted: Request)
    requires Protocol(request, backend, t) && (exists at :: Brief(t, u, MarkRecovery(admitted, at)))
    requires MayRecover(request, backend, t, admitted)
    ensures Protocol(request, backend, u)
  {
    hide MayRecover, Brief, Protocol;
    var at :| Brief(t, u, MarkRecovery(admitted, at));
    BriefProtocol(request, backend, t, u, MarkRecovery(admitted, at));
  }

  /** `self._clock.now()`. */
  method ReadTime(env: Environment, t: Trace, ghost w: World) returns (at: Option<Time>, u: Trace)
    ensures exists a :: u == t + [Event(ReadClock, a)]
    ensures Aside(t, u) && ServiceRead(u) == ServiceRead(t)
    ensures Smooth(w, u) ==> Smooth(w, t) && at == Some(w.at)
  {
    var clock: Answer;
    clock, u := Ask(env, t, ReadClock, w);
    at := if clock.TimeIs? then Some(clock.at) else None;
  }

  lemma {:induction false} ClockProtocol(request: Request, backend: Backend, t: Trace, u: Trace)
    requires Protocol(request, backend, t) && exists a :: u == t + [Event(ReadClock, a)]
    ensures Protocol(request, backend, u) && ProgressOf(u) == ProgressOf(t)
  {
    var a :| u == t + [Event(ReadClock, a)];
    AsideProtocol(request, backend, t, Event(ReadClock, a));
  }

  /** How moving the fence went: it is where it should be, the store says it is elsewhere, or
      the change ends here. */
  datatype FenceMove = InPlace | Elsewhere | GaveUp(result: Result)

  /** Nothing has been ended, and the protocol has been followed. */
  ghost predicate Follows(request: Request, backend: Backend, t: Trace, u: Trace) {
    Protocol(request, backend, u) && ProgressOf(u) == ProgressOf(t) && Finals(u) == Finals(t) && Output(u) == Output(t)
  }

  /** The part of `transition` that asks the store: read, change, and after a failure read again. */
  method MoveFence(env: Environment, t: Trace, request: Request, backend: Backend, s: Service, ghost w: World)
    returns (r: FenceMove, u: Trace)
    requires Protocol(request, backend, t) && Standing(t) && ProgressOf(t).service == Some(s) && StoreEvents(t) == []
    requires s.design == Materialised && StoreMatches(s, backend) && TransitionTarget(request.kind, s.status).Some?
    ensures Follows(request, backend, t, u)
    ensures var open := TransitionTarget(request.kind, s.status).value == Active;
            && (r.InPlace? ==> |StoreEvents(u)| >= 2 && FenceShown(StoreEvents(u), open))
            && (r.Elsewhere? ==> FenceElsewhere(StoreEvents(u), open))
            && (r.GaveUp? ==> !r.result.written)
    ensures Smooth(w, u) ==> Smooth(w, t) && r.InPlace?
  {
    hide Smooth, StoreEvents, Finals, Output, ServiceRead, ProgressOf, Protocol, StoreMatches;
    var open := TransitionTarget(request.kind, s.status).value == Active;
    var observed, changed: Answer;
    observed, u := Ask(env, t, ReadFence, w);
    AsideProtocol(request, backend, t, Event(ReadFence, observed));
    if !observed.FenceIs? {
      return GaveUp(if observed.Failed? then FailureResult(observed.failure, false) else Only(InternalResult)), u;
    }
    ghost var read := u;
    changed, u := Ask(env, u, ChangeFence(observed.fence, open), w);
    ChangeProtocol(request, backend, read, observed.fence, open, changed);
    if changed.FenceIs? {
      return if changed.fence.open == open then InPlace else Elsewhere, u;
    }
    var failure := if changed.Failed? then changed.failure else OtherFailure;
    ghost var asked := u;
    observed, u := Ask(env, u, ReadFence, w);
    AsideProtocol(request, backend, asked, Event(ReadFence, observed));
    if !observed.FenceIs? || observed.fence.open != open {
      return GaveUp(FailureResult(failure, true)), u;
    }
    r := InPlace;
  }

  /** The transition is allowed, and a materialised service has its store on this backend. */
  predicate Changeable(kind: OpKind, s: Service, backend: Backend) {
    TransitionTarget(kind, s.status).Some? && (s.design == Materialised ==> StoreMatches(s, backend))
  }

  /** `transition`: the status changes only after the store has answered that its fence is in
      the state the new status needs. Recovery is marked for a transition that is not allowed
      and for a store of another backend, both before the store is asked anything, and after
      the store has answered the transition with the other state; never otherwise. Where
      nothing is lost, a change that may be made is completed, and any other is marked. */
  method ChangeStatus(env: Environment, request: Request, backend: Backend, ghost w: World)
    returns (r: Result, t: Trace, source: Option<Service>)
    requires Operational(request.kind)
    ensures Protocol(request, backend, t)
    ensures FinalOr(t, (f: Final) => f.FinalizeOperational?)
    ensures (exists e :: e in Finals(t) && e.call.final.FinalizeOperational?) ==>
              && source.Some?
              && TransitionTarget(request.kind, source.value.status).Some?
              && (source.value.design == Materialised ==> FenceShown(StoreEvents(t), TargetStatus(request.kind) == Active))
    ensures (exists e :: e in Finals(t) && e.call.final.MarkRecovery?) ==>
              && source.Some?
              && (|| (TransitionTarget(request.kind, source.value.status).None? && StoreEvents(t) == [])
                  || (source.value.design == Materialised && !StoreMatches(source.value, backend) && StoreEvents(t) == [])
                  || (source.value.design == Materialised
                      && FenceElsewhere(StoreEvents(t), TargetStatus(request.kind) == Active)))
    ensures Output(t) == [] && !r.written
    ensures Smooth(w, t) ==>
              if Changeable(request.kind, w.service, backend)
              then r == Result(CompletedResult, Some(w.stored), None, false) && |Finals(t)| == 1
                   && Finals(t)[0].call == EndWith(FinalizeOperational(w.request, w.at))
              else r == Only(RecoveryResult)
  {
    hide Smooth, StoreEvents, Finals, Output, ServiceRead, ProgressOf, Protocol, Brief, Admits, FenceShown,
         FenceElsewhere, StoreMatches, Quiet;
    NothingYet();
    var a: Admission;
    a, t := Admit(env, [], request, true, w);
    AdmitsProtocol(request, backend, t);
    if a.Stopped? {
      return a.result, t, None;
    }
    source := a.service;
    var service := a.service.value;
    var target := TransitionTarget(request.kind, service.status);
    ghost var begun := t;
    if target.None? || (service.design == Materialised && !StoreMatches(service, backend)) {
      r, t := RecoverNow(env, t, a.request, w);
      RecoverProtocol(request, backend, begun, t, a.request);
      return;
    }
    if service.design == Materialised {
      var moved: FenceMove;
      moved, t := MoveFence(env, t, request, backend, service, w);
      begun := t;
      if moved.GaveUp? {
        r := moved.result;
        return;
      }
      if moved.Elsewhere? {
        r, t := RecoverNow(env, t, a.request, w);
        RecoverProtocol(request, backend, begun, t, a.request);
        return;
      }
    }
    var at: Option<Time>;
    at, t := ReadTime(env, t, w);
    ClockProtocol(request, backend, begun, t);
    if at.None? {
      r := Only(UncertainResult);
      return;
    }
    begun := t;
    r, t := EndOperation(env, t, FinalizeOperational(a.request, at.value), service.design == Materialised, w);
    FinalizeProtocol(request, backend, begun, t, a.request, at.value);
  }

  lemma {:induction false} NothingYet()
    ensures StoreEvents([]) == [] && Finals([]) == [] && Output([]) == [] && ServiceRead([]) == None
  {
  }

  /** The last answer of the store was this one, and nothing else that counts happened. */
  ghost predicate Confirmed(t: Trace, u: Trace, e: Event) {
    && Finals(u) == Finals(t) && Output(u) == Output(t)
    && StoreEvents(u) != [] && StoreEvents(u)[|StoreEvents(u)| - 1] == e
  }

  /** The store was asked this before anything else. */
  ghost predicate FirstAsked(t: Trace, u: Trace, c: Call) {
    |StoreEvents(u)| > |StoreEvents(t)| && StoreEvents(u)[|StoreEvents(t)|].call == c
  }

  /** The part of `purge` that asks the store: purge it, and look that it is absent. */
  method PurgeAndLook(env: Environment, t: Trace, ghost w: World) returns (stop: Option<Result>, u: Trace)
    ensures Finals(u) == Finals(t) && Output(u) == Output(t)
    ensures stop.None? ==> Confirmed(t, u, Event(IsAbsent, Holds(true)))
    ensures stop.Some? ==> !stop.value.written
    ensures FirstAsked(t, u, PurgeStore)
    ensures Smooth(w, u) ==> Smooth(w, t) && stop.None?
  {
    hide Smooth, StoreEvents, Finals, Output, ServiceRead;
    var answer, absent: Answer;
    answer, u := Ask(env, t, PurgeStore, w);
    if answer.Failed? {
      absent, u := Ask(env, u, IsAbsent, w);
      if absent != Holds(true) {
        return Some(FailureResult(answer.failure, true)), u;
      }
    }
    absent, u := Ask(env, u, IsAbsent, w);
    if absent != Holds(true) {
      return Some(if absent.Failed? then FailureResult(absent.failure, true) else Only(UncertainResult)), u;
    }
    stop := None;
  }

  /** A service whose store this coordinator may purge. */
  predicate Purgeable(s: Service, backend: Backend) {
    s.design == Materialised && s.status == Archived && StoreMatches(s, backend)
  }

  /** `purge`: the tombstone is requested only after the store of a materialised service has
      answered that it is absent. The store of an archived service of this backend is asked to
      purge first, and no other store is asked anything. If the store shows that it is gone,
      and nothing else fails, the purge completes, whatever became of the purging call; any
      other materialised service is marked for recovery. */
  method PurgeService(env: Environment, request: Request, backend: Backend, ghost w: World)
    returns (r: Result, t: Trace, source: Option<Service>)
    requires request.kind == Purge
    ensures FinalOr(t, (f: Final) => f.FinalizePurge?)
    ensures (exists e :: e in Finals(t) && e.call.final.FinalizePurge?) ==>
              && source.Some?
              && (source.value.design == Materialised ==>
                    source.value.status == Archived && StoreEvents(t) != []
                    && StoreEvents(t)[|StoreEvents(t)| - 1] == Event(IsAbsent, Holds(true)))
    ensures Output(t) == [] && !r.written
    ensures source.Some? && Purgeable(source.value, backend) ==> FirstAsked([], t, PurgeStore)
    ensures !(source.Some? && Purgeable(source.value, backend)) ==> StoreEvents(t) == []
    ensures Smooth(w, t) ==>
              && source == Some(w.service)
              && if w.service.design == Seeded || Purgeable(w.service, backend)
                 then r == Result(CompletedResult, Some(w.stored), None, false) && |Finals(t)| == 1
                      && Finals(t)[0].call == EndWith(FinalizePurge(w.request, w.at))
                 else r == Only(RecoveryResult)
  {
    hide Smooth, StoreEvents, Finals, Output, ServiceRead, ProgressOf, Brief, Admits;
    NothingYet();
    var a: Admission;
    a, t := Admit(env, [], request, true, w);
    if a.Stopped? {
      return a.result, t, None;
    }
    source := a.service;
    var service := a.service.value;
    if service.design == Materialised {
      if !StoreMatches(service, backend) || service.status != Archived {
        r, t := RecoverNow(env, t, a.request, w);
        return;
      }
      var stop: Option<Result>;
      stop, t := PurgeAndLook(env, t, w);
      if stop.Some? {
        r := stop.value;
        return;
      }
    }
    var at: Option<Time>;
    at, t := ReadTime(env, t, w);
    if at.None? {
      r := Only(UncertainResult);
      return;
    }
    r, t := EndOperation(env, t, FinalizePurge(a.request, at.value), service.design == Materialised, w);
  }

  function ReceiptFor(id: Uuid, imported: bool, s: Service, root: Text, backend: Backend, at: Time): Receipt {
    Receipt(id, imported, s.principal, s.id, root, backend, s.revision, s.status, at)
  }

  /** The receipt of an import of this service to this backend. */
  predicate ImportReceipt(receipt: Receipt, s: Service, backend: Backend) {
    receipt == ReceiptFor(receipt.id, true, s, receipt.root, backend, receipt.at)
  }

  /** The clock and `_receipt`. */
  method MakeReceipt(env: Environment, t: Trace, imported: bool, s: Service, root: Option<Text>, backend: Backend,
                     ghost w: World)
    returns (r: Option<Receipt>, u: Trace)
    ensures Aside(t, u) && ServiceRead(u) == ServiceRead(t)
    ensures r.Some? ==> root.Some? && r.value == ReceiptFor(r.value.id, imported, s, root.value, backend, r.value.at)
    ensures Smooth(w, u) ==> Smooth(w, t) && (root.Some? ==> r.Some? && r.value.at == w.at)
  {
    hide Smooth, StoreEvents, Finals, Output, ServiceRead;
    var clock, id: Answer;
    clock, u := Ask(env, t, ReadClock, w);
    if !clock.TimeIs? || root.None? {
      return None, u;
    }
    id, u := Ask(env, u, NewReceiptId, w);
    if !id.IdIs? {
      return None, u;
    }
    r := Some(ReceiptFor(id.id, imported, s, root.value, backend, clock.at));
  }

  /** The part of `_import_validated` that asks the store: stage the content, and look that it
      is there exactly; a different store already there needs recovery. */
  method StageAndLook(env: Environment, t: Trace, c: Content, fence: Fence, ghost w: World)
    returns (different: bool, stop: Option<Result>, u: Trace)
    ensures Finals(u) == Finals(t) && Output(u) == Output(t)
    ensures !different && stop.None? ==> Confirmed(t, u, Event(ObserveStore(c.service, c.members, fence), Holds(true)))
    ensures stop.Some? ==> !stop.value.written
    ensures FirstAsked(t, u, StageStore(c.service, c.members, fence))
    ensures Smooth(w, u) ==> Smooth(w, t) && !different && stop.None?
  {
    hide Smooth, StoreEvents, Finals, Output, ServiceRead;
    different, stop := false, None;
    var staged, exact: Answer;
    staged, u := Ask(env, t, StageStore(c.service, c.members, fence), w);
    if staged == Staged(true) {
      different := true;
      return;
    }
    if !staged.Staged? {
      exact, u := Ask(env, u, ObserveStore(c.service, c.members, fence), w);
      if exact != Holds(true) {
        stop := Some(FailureResult(if staged.Failed? then staged.failure else OtherFailure, true));
        return;
      }
    }
    exact, u := Ask(env, u, ObserveStore(c.service, c.members, fence), w);
    if exact != Holds(true) {
      stop := Some(if exact.Failed? then FailureResult(exact.failure, true) else Only(UncertainResult));
    }
  }

  /** `_import_validated`: a service is published only after the store has answered that it
      holds exactly the decoded members behind the decoded fence. Staging is asked for first,
      and the receipt is one of an import. If the store shows that it holds the content, and
      nothing else fails, the import completes, whatever became of the staging call. */
  method ImportContent(env: Environment, request: Request, c: Content, backend: Backend, ghost w: World)
    returns (r: Result, t: Trace)
    requires request.kind == Import
    ensures FinalOr(t, (f: Final) => f.PublishImport?)
    ensures forall e :: e in Finals(t) && e.call.final.PublishImport? ==>
              && e.call.final.service == c.service && e.call.final.request.root == Some(e.call.final.receipt.root)
              && ImportReceipt(e.call.final.receipt, c.service, backend)
              && (c.service.design == Materialised ==>
                    c.fence.Some? && StoreEvents(t) != []
                    && StoreEvents(t)[|StoreEvents(t)| - 1] == Event(ObserveStore(c.service, c.members, c.fence.value), Holds(true)))
    ensures (exists e :: e in Finals(t) && e.call.final.PublishImport?) && r.category == CompletedResult ==>
              r.stored == Some(StoredService(c.service))
    ensures Output(t) == [] && !r.written
    ensures StoreEvents(t) != [] ==>
              c.service.design == Materialised && c.fence.Some?
              && FirstAsked([], t, StageStore(c.service, c.members, c.fence.value))
    ensures Smooth(w, t) && w.request.root.Some? && w.stored == StoredService(c.service)
            && (c.service.design == Materialised ==> c.fence.Some?) ==>
              r == Result(CompletedResult, Some(StoredService(c.service)), None, false) && |Finals(t)| == 1
              && Finals(t)[0].call.EndWith? && Finals(t)[0].call.final.PublishImport?
              && (StoreEvents(t) == [] <==> c.service.design == Seeded)
  {
    hide Smooth, StoreEvents, Finals, Output, ServiceRead, ProgressOf, Brief, Admits;
    NothingYet();
    var a: Admission;
    a, t := Admit(env, [], request, false, w);
    if a.Stopped? {
      return a.result, t;
    }
    if c.service.design == Materialised {
      if c.fence.None? {
        return Only(InternalResult), t;
      }
      var different: bool, stop: Option<Result>;
      different, stop, t := StageAndLook(env, t, c, c.fence.value, w);
      if different {
        r, t := RecoverNow(env, t, a.request, w);
        return;
      }
      if stop.Some? {
        return stop.value, t;
      }
    }
    var receipt: Option<Receipt>;
    receipt, t := MakeReceipt(env, t, true, c.service, a.request.root, backend, w);
    if receipt.None? {
      r, t := RecoverNow(env, t, a.request, w);
      return;
    }
    r, t := EndOperation(env, t, PublishImport(a.request, c.service, receipt.value), c.service.design == Materialised, w);
    if r.category == CompletedResult && r.stored != Some(StoredService(c.service)) {
      r := Only(InternalResult);
    }
  }
}
