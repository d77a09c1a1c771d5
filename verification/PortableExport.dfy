/** Export and its replay: what is written is what the committed receipt names, and a
    snapshot behind an unchanged closed fence is the store at the moment of the last check. */
module PortableExport {
  import opened Ordering
  import opened Text
  import opened CanonicalJson
  import opened Records
  import opened PortableStore
  import opened StoreValidation
  import opened Services
  import opened Payloads
  import opened PayloadService
  import opened PayloadContent
  import opened Operations
  import opened BundleIdentity
  import opened PortableCoordinator
  import B = Bundle
  import S = BundleStream

  /** What a coordinator is built with; `header` is the header payload for a creation time. */
  datatype Setup = Setup(p: B.Platform, n: Notation, f: Formats, backend: Backend, limit: int, header: Time -> Raw)

  /** `_encode`; None is the contract error. */
  function Encoded(e: Setup, s: Service, fence: Option<Fence>, members: seq<Member>, at: Time): Option<(seq<Bytes>, S.Summary)> {
    match EncodeService(e.n, s, fence)
    case None => None
    case Some(service) => S.WriteBundle(e.p, e.limit, ContentItems(e.n, e.header(at), service, members))
  }

  datatype StoreRead =
    | ReadStore(fence: Option<Fence>, members: seq<Member>) | WrongStore | OpenStore | NoManifest | ReadFailed(result: Result)

  /** The events of one snapshot behind a closed fence. */
  predicate SnapshotEvents(events: Trace, fence: Fence, members: seq<Member>) {
    !fence.open && events == [Event(ReadFence, FenceIs(fence)), Event(OpenSnapshot(fence), MembersAre(members))]
  }

  /** What was read is nothing for a seeded service, and a well-formed store otherwise. */
  ghost predicate ReadShown(e: Setup, s: Service, fence: Option<Fence>, members: seq<Member>, events: Trace) {
    if s.design == Seeded then fence.None? && members == [] && events == []
    else
      && fence.Some? && SnapshotEvents(events, fence.value, members) && s.manifest.Some?
      && WellFormed(e.f, CompileRecords(s.manifest.value), members)
  }

  /** The service has a store of this backend whose fence is closed and which holds a
      well-formed store of its manifest, or it is seeded. */
  ghost predicate Exportable(e: Setup, w: World, s: Service) {
    s.design == Materialised ==>
      && StoreMatches(s, e.backend) && !w.fence.open && s.manifest.Some?
      && WellFormed(e.f, CompileRecords(s.manifest.value), w.members)
  }

  function WorldFence(w: World, s: Service): Option<Fence> {
    if s.design == Seeded then None else Some(w.fence)
  }

  function WorldMembers(w: World, s: Service): seq<Member> {
    if s.design == Seeded then [] else w.members
  }

  /** The fence, the snapshot behind it and its validation. */
  method ReadMembers(env: Environment, t: Trace, e: Setup, s: Service, ghost w: World) returns (r: StoreRead, u: Trace)
    requires StoreEvents(t) == []
    ensures Finals(u) == Finals(t) && Output(u) == Output(t) && ServiceRead(u) == ServiceRead(t)
    ensures r.ReadStore? ==> ReadShown(e, s, r.fence, r.members, StoreEvents(u))
    ensures !r.ReadStore? ==> forall fence, members :: !ReadShown(e, s, fence, members, StoreEvents(u))
    ensures r.ReadFailed? ==> !r.result.written && r.result.summary.None? && r.result.category != CompletedResult
    ensures s.design == Materialised && StoreMatches(s, e.backend) <== r.ReadStore? && s.design == Materialised
    ensures s.design == Materialised && !StoreMatches(s, e.backend) ==> StoreEvents(u) == []
    ensures Smooth(w, u) ==> Smooth(w, t)
    ensures Smooth(w, u) && Exportable(e, w, s) ==> r == ReadStore(WorldFence(w, s), WorldMembers(w, s))
    ensures Smooth(w, u) && s.design == Materialised && (!StoreMatches(s, e.backend) || w.fence.open) ==>
              r.WrongStore? || r.OpenStore?
  {
    hide Smooth, StoreEvents, Finals, Output, ServiceRead, WellFormed;
    if s.design == Seeded {
      return ReadStore(None, []), t;
    }
    if !StoreMatches(s, e.backend) {
      return WrongStore, t;
    }
    var fence, snapshot: Answer;
    fence, u := Ask(env, t, ReadFence, w);
    if !fence.FenceIs? {
      return ReadFailed(if fence.Failed? then FailureResult(fence.failure, false) else Only(InternalResult)), u;
    }
    if fence.fence.open {
      return OpenStore, u;
    }
    snapshot, u := Ask(env, u, OpenSnapshot(fence.fence), w);
    assert StoreEvents(u) == [Event(ReadFence, fence), Event(OpenSnapshot(fence.fence), snapshot)];
    if !snapshot.MembersAre? {
      return ReadFailed(if snapshot.Failed? then FailureResult(snapshot.failure, false) else Only(InternalResult)), u;
    }
    if s.manifest.None? {
      return NoManifest, u;
    }
    var ok := ValidatePortableMembers(e.f, snapshot.members, CompileRecords(s.manifest.value));
    if !ok {
      return ReadFailed(Only(InternalResult)), u;
    }
    r := ReadStore(Some(fence.fence), snapshot.members);
  }

  /** A call that failed, or a line that was not taken whole. */
  predicate Disturbs(x: Event) {
    x.answer.Failed? || (x.call.WriteLine? && x.answer != Count(|x.call.line|))
  }

  ghost predicate Undisturbed(t: Trace) {
    forall x :: x in t ==> !Disturbs(x)
  }

  /** `_write_lines`. */
  method WriteLines(env: Environment, t: Trace, lines: seq<Bytes>, ghost w: World) returns (ok: bool, u: Trace)
    ensures StoreEvents(u) == StoreEvents(t) && Finals(u) == Finals(t) && ServiceRead(u) == ServiceRead(t)
    ensures ok ==> Output(u) == Output(t) + lines
    ensures !ok ==> exists x :: x in u && Disturbs(x)
    ensures exists k :: 0 <= k <= |lines| && Output(u) == Output(t) + lines[..k]
    ensures Smooth(w, u) ==> Smooth(w, t) && ok
  {
    hide Smooth, StoreEvents, Finals, Output, ServiceRead;
    u := t;
    for k := 0 to |lines|
      invariant StoreEvents(u) == StoreEvents(t) && Finals(u) == Finals(t) && Output(u) == Output(t) + lines[..k]
      invariant ServiceRead(u) == ServiceRead(t) && (Smooth(w, u) ==> Smooth(w, t))
    {
      var answer: Answer;
      answer, u := Ask(env, u, WriteLine(lines[k]), w);
      assert lines[..k] + [lines[k]] == lines[..k + 1];
      Assoc(Output(t), lines[..k], [lines[k]]);
      assert Output(u) == Output(t) + lines[..k + 1];
      assert u[|u| - 1] in u;
      if answer != Count(|lines[k]|) {
        assert Disturbs(u[|u| - 1]);
        return false, u;
      }
    }
    assert lines[..|lines|] == lines;
    var flushed: Answer;
    flushed, u := Ask(env, u, FlushOutput, w);
    assert u[|u| - 1] in u && (flushed.Failed? ==> Disturbs(u[|u| - 1]));
    ok := !flushed.Failed?;
  }

  /** Nothing was ended but for a recovery. */
  ghost predicate AtMostMarked(t: Trace, u: Trace) {
    Finals(u) == Finals(t) || exists rq, at, a :: Finals(u) == Finals(t) + [Event(EndWith(MarkRecovery(rq, at)), a)]
  }

  /** The claim and the service once more. */
  method VerifyClaim(env: Environment, t: Trace, request: Request, admitted: Request, s: Service, ghost w: World)
    returns (stop: Option<Result>, u: Trace)
    ensures Output(u) == Output(t) && StoreEvents(u) == StoreEvents(t)
    ensures if stop.None? then Finals(u) == Finals(t) && ServiceRead(u) == Some(s) else AtMostMarked(t, u)
    ensures stop.Some? ==> !stop.value.written
    ensures Smooth(w, u) ==> Smooth(w, t)
    ensures Smooth(w, u) && admitted == w.request && s == w.service ==> stop.None?
  {
    hide Smooth, StoreEvents, Finals, Output, ServiceRead, FailureResult, Brief;
    var opening, outcome, current: Answer;
    opening, u := Ask(env, t, OpenUow, w);
    if opening.Failed? {
      return Some(FailureResult(opening.failure, false)), u;
    }
    outcome, u := Ask(env, u, Resolve(request), w);
    if outcome.Failed? {
      return Some(FailureResult(outcome.failure, false)), u;
    }
    current, u := Ask(env, u, GetService, w);
    if current.Failed? {
      return Some(FailureResult(current.failure, false)), u;
    }
    if outcome != VerdictIs(PreparedFor(admitted)) || current != ServiceIs(Some(s)) {
      var r: Result;
      r, u := RecoverNow(env, u, admitted, w);
      return Some(r), u;
    }
    stop := None;
  }

  /** The second fence read, and the claim and the service once more. */
  method VerifyExport(env: Environment, t: Trace, request: Request, admitted: Request, s: Service, fence: Option<Fence>,
                      ghost w: World)
    returns (stop: Option<Result>, u: Trace)
    ensures Output(u) == Output(t)
    ensures stop.None? ==> Finals(u) == Finals(t) && ServiceRead(u) == Some(s)
    ensures stop.None? ==> StoreEvents(u) == StoreEvents(t) + if fence.Some? then [Event(ReadFence, FenceIs(fence.value))] else []
    ensures stop.Some? ==> AtMostMarked(t, u) && !stop.value.written
    ensures Smooth(w, u) ==> Smooth(w, t)
    ensures Smooth(w, u) && admitted == w.request && s == w.service && (fence.Some? ==> fence.value == w.fence) ==> stop.None?
  {
    hide Smooth, StoreEvents, Finals, Output, ServiceRead, FailureResult, Brief;
    u := t;
    assert StoreEvents(t) + [] == StoreEvents(t);
    if fence.Some? {
      var again: Answer;
      again, u := Ask(env, u, ReadFence, w);
      if !again.FenceIs? {
        return Some(if again.Failed? then FailureResult(again.failure, false) else Only(InternalResult)), u;
      }
      if again.fence != fence.value {
        var r: Result;
        r, u := RecoverNow(env, u, admitted, w);
        return Some(r), u;
      }
    }
    stop, u := VerifyClaim(env, u, request, admitted, s, w);
  }

  /** The receipt names the bundle of a service whose store was read behind a closed fence,
      and the same fence was read again before the claim was completed. */
  ghost predicate ReceiptShown(e: Setup, receipt: Receipt, events: Trace) {
    exists s: Service, fence: Option<Fence>, members: seq<Member> ::
      && Encoded(e, s, fence, members, receipt.at).Some?
      && Encoded(e, s, fence, members, receipt.at).value.1.root == receipt.root
      && receipt.service == s.id && receipt.revision == s.revision && receipt.status == s.status
      && Checked(e, s, fence, members, events)
  }

  ghost predicate Checked(e: Setup, s: Service, fence: Option<Fence>, members: seq<Member>, events: Trace) {
    if s.design == Seeded then fence.None? && members == [] && events == []
    else
      && fence.Some? && |events| == 3 && SnapshotEvents(events[..2], fence.value, members)
      && events[2] == Event(ReadFence, FenceIs(fence.value)) && s.manifest.Some?
      && WellFormed(e.f, CompileRecords(s.manifest.value), members)
  }

  /** Lines reach the destination only when a completed receipt names their root; when the
      artifact is reported as written, the destination got all of them and their digest is
      the root of the receipt. */
  ghost predicate ArtifactFits(e: Setup, r: Result, t: Trace) {
    r.written ==>
      && r.category == CompletedResult && r.stored.Some? && r.stored.value.StoredReceipt? && r.summary.Some?
      && Output(t) != [] && r.stored.value.receipt.root == r.summary.value.root == e.p.sha256(Body(Output(t)))
  }

  // ----- what a run writes, in terms of what it was answered -----

  /** The fence and the members that the store answered first. */
  function FenceRead(events: Trace): Option<Fence> {
    if events != [] && events[0].answer.FenceIs? then Some(events[0].answer.fence) else None
  }

  function MembersRead(events: Trace): seq<Member> {
    if |events| > 1 && events[1].answer.MembersAre? then events[1].answer.members else []
  }

  /** The bundle of the service, the fence and the members that were read in the trace. */
  function BundleRead(e: Setup, t: Trace, at: Time): Option<(seq<Bytes>, S.Summary)> {
    match ServiceRead(t)
    case None => None
    case Some(s) => Encoded(e, s, FenceRead(StoreEvents(t)), MembersRead(StoreEvents(t)), at)
  }

  /** An export that wrote its artifact: the registry completed the claim with a receipt for
      the service, checked at both ends, and the output is the bundle of what was read. */
  ghost predicate Exported(e: Setup, r: Result, t: Trace, rq: Request, receipt: Receipt, kept: Receipt) {
    && Completed(t, rq, receipt, kept) && r.stored == Some(StoredReceipt(kept))
    && ServiceRead(t).Some? && Stands(e, t, ServiceRead(t).value)
    && (exists root :: receipt == ReceiptFor(receipt.id, false, ServiceRead(t).value, root, e.backend, receipt.at))
    && r.summary.Some? && r.summary.value.root == receipt.root
    && BundleRead(e, t, receipt.at) == Some((Output(t), r.summary.value))
  }

  ghost predicate Stands(e: Setup, t: Trace, s: Service) {
    && Checked(e, s, FenceRead(StoreEvents(t)), MembersRead(StoreEvents(t)), StoreEvents(t))
    && (s.design == Materialised ==> StoreMatches(s, e.backend))
  }

  /** The receipt is for this request and for the service as it is. */
  predicate ReceiptFits(e: Setup, request: Request, receipt: Receipt, s: Service) {
    && !receipt.imported && receipt.principal == request.principal && receipt.service == request.service
    && receipt.backend == e.backend && s.revision == receipt.revision && s.status == receipt.status
  }

  /** The registry and the store have answered what the receipt was made from. */
  ghost predicate Repeatable(e: Setup, request: Request, receipt: Receipt, t: Trace) {
    && ServiceRead(t).Some? && ReceiptFits(e, request, receipt, ServiceRead(t).value)
    && ReadShown(e, ServiceRead(t).value, FenceRead(StoreEvents(t)), MembersRead(StoreEvents(t)), StoreEvents(t))
    && (ServiceRead(t).value.design == Materialised ==> StoreMatches(ServiceRead(t).value, e.backend))
    && BundleRead(e, t, receipt.at).Some? && BundleRead(e, t, receipt.at).value.1.root == receipt.root
  }

  /** What a replay does: it writes the bundle of what it read, whole, if and only if that is
      what the receipt was made from and nothing failed on the way. */
  ghost predicate Replayed(e: Setup, request: Request, receipt: Receipt, r: Result, t: Trace) {
    && (r.written ==>
          && Repeatable(e, request, receipt, t) && r.stored == Some(StoredReceipt(receipt)) && r.summary.Some?
          && BundleRead(e, t, receipt.at) == Some((Output(t), r.summary.value)))
    && (Repeatable(e, request, receipt, t) && Undisturbed(t) ==> r.written)
  }

  lemma {:induction false} ReadsOf(e: Setup, s: Service, fence: Option<Fence>, members: seq<Member>, events: Trace)
    requires ReadShown(e, s, fence, members, events) || Checked(e, s, fence, members, events)
    ensures FenceRead(events) == fence && MembersRead(events) == members
  {
    hide WellFormed;
    if s.design == Materialised && Checked(e, s, fence, members, events) {
      assert events[..2][0] == events[0] && events[..2][1] == events[1];
    }
  }

  lemma {:induction false} EncodedRoot(e: Setup, s: Service, fence: Option<Fence>, members: seq<Member>, at: Time)
    requires Encoded(e, s, fence, members, at).Some?
    ensures var (lines, summary) := Encoded(e, s, fence, members, at).value;
            lines != [] && summary.root == e.p.sha256(Body(lines))
  {
    hide S.WriteBundle, Body;
    WrittenRoot(e.p, e.limit, ContentItems(e.n, e.header(at), EncodeService(e.n, s, fence).value, members));
  }

  /** A trace on which nothing but the admission has happened. */
  ghost predicate Fresh(t: Trace) {
    StoreEvents(t) == [] && Finals(t) == [] && Output(t) == []
  }

  /** The claim was completed with the receipt, and this one was answered. */
  ghost predicate Completed(t: Trace, rq: Request, receipt: Receipt, kept: Receipt) {
    && Finals(t) == [Event(EndWith(CompleteExport(rq, receipt)), VerdictIs(CompletedAs(StoredReceipt(kept))))]
    && kept.root == receipt.root
  }

  /** The end of `export`: the claim is completed, and only then the lines are written. */
  method CompleteAndWrite(env: Environment, t: Trace, admitted: Request, receipt: Receipt, lines: seq<Bytes>,
                          summary: S.Summary, ghost w: World)
    returns (r: Result, u: Trace)
    requires Finals(t) == [] && Output(t) == [] && receipt.root == summary.root
    ensures StoreEvents(u) == StoreEvents(t) && ServiceRead(u) == ServiceRead(t)
    ensures Finals(u) == [] || exists a :: Finals(u) == [Event(EndWith(CompleteExport(admitted, receipt)), a)]
    ensures Output(u) != [] ==> exists kept :: Completed(u, admitted, receipt, kept)
    ensures r.written ==>
              && Output(u) == lines
              && exists kept ::
                   Completed(u, admitted, receipt, kept)
                   && r == Result(CompletedResult, Some(StoredReceipt(kept)), Some(summary), true)
    ensures Smooth(w, u) ==> Smooth(w, t) && r.written
  {
    hide Smooth, StoreEvents, Finals, Output, ServiceRead, Brief, Disturbs;
    r, u := EndOperation(env, t, CompleteExport(admitted, receipt), true, w);
    if r.category != CompletedResult || !r.stored.value.StoredReceipt? || r.stored.value.receipt.root != summary.root {
      return;
    }
    var kept := r.stored.value.receipt;
    assert Completed(u, admitted, receipt, kept);
    var ok: bool;
    ok, u := WriteLines(env, u, lines, w);
    assert [] + lines == lines;
    assert Completed(u, admitted, receipt, kept);
    r := if ok then Result(CompletedResult, r.stored, Some(summary), true)
         else Result(UncertainResult, r.stored, Some(summary), false);
  }

  /** The service can be exported, and what is read of it can be encoded within the limits. */
  ghost predicate WorldExports(e: Setup, w: World) {
    && Exportable(e, w, w.service)
    && Encoded(e, w.service, WorldFence(w, w.service), WorldMembers(w, w.service), w.at).Some?
  }

  /** `export`, once the registry has admitted it. Where nothing is lost, a service that can be
      exported is exported, whole; one whose fence is open, or whose store is on another
      backend, is marked for recovery. */
  method ExportAdmitted(env: Environment, start: Trace, e: Setup, request: Request, admitted: Request, s: Service,
                        ghost w: World)
    returns (r: Result, t: Trace)
    requires Fresh(start)
    ensures FinalOr(t, (f: Final) => f.CompleteExport?)
    ensures forall x :: x in Finals(t) && x.call.final.CompleteExport? ==> ReceiptShown(e, x.call.final.receipt, StoreEvents(t))
    ensures ArtifactFits(e, r, t)
    ensures r.written ==> exists rq, receipt, kept :: Exported(e, r, t, rq, receipt, kept)
    ensures Output(t) != [] ==> exists rq, receipt, kept :: Completed(t, rq, receipt, kept)
    ensures Smooth(w, t) ==> Smooth(w, start)
    ensures Smooth(w, t) && admitted == w.request && s == w.service && WorldExports(e, w) ==> r.written
    ensures Smooth(w, t) && s.design == Materialised && (!StoreMatches(s, e.backend) || w.fence.open) ==>
              r == Only(RecoveryResult)
  {
    hide Smooth, Gives, Exportable, StoreEvents, Finals, Output, ServiceRead, WellFormed, Encoded, Body, ReadShown,
         Checked, ReceiptShown, SnapshotEvents, Brief, Stands, StoreMatches, Completed, Exported, BundleRead;
    t := start;
    var clock: Answer;
    clock, t := Ask(env, t, ReadClock, w);
    TimeGiven(w, clock);
    if !clock.TimeIs? {
      return if clock.Failed? then FailureResult(clock.failure, false) else Only(InternalResult), t;
    }
    var read: StoreRead;
    read, t := ReadMembers(env, t, e, s, w);
    if read.ReadFailed? {
      return read.result, t;
    }
    if !read.ReadStore? || Encoded(e, s, read.fence, read.members, clock.at).None? {
      r, t := RecoverNow(env, t, admitted, w);
      return;
    }
    var (lines, summary) := Encoded(e, s, read.fence, read.members, clock.at).value;
    EncodedRoot(e, s, read.fence, read.members, clock.at);
    ghost var shown := StoreEvents(t);
    var stop: Option<Result>;
    stop, t := VerifyExport(env, t, request, admitted, s, read.fence, w);
    if stop.Some? {
      return stop.value, t;
    }
    CheckedBy(e, s, read.fence, read.members, shown, StoreEvents(t));
    var id: Answer;
    id, t := Ask(env, t, NewReceiptId, w);
    IdGiven(w, id);
    if !id.IdIs? {
      r, t := RecoverNow(env, t, admitted, w);
      return;
    }
    var receipt := ReceiptFor(id.id, false, s, summary.root, e.backend, clock.at);
    ShownBy(e, s, read.fence, read.members, receipt, StoreEvents(t));
    r, t := CompleteAndWrite(env, t, admitted, receipt, lines, summary, w);
    if r.written {
      ghost var kept :| Completed(t, admitted, receipt, kept)
                        && r == Result(CompletedResult, Some(StoredReceipt(kept)), Some(summary), true);
      ExportedBy(e, s, read.fence, read.members, r, t, admitted, receipt, kept, summary);
    } else {
      NotWritten(e, r, t);
    }
  }

  lemma {:induction false} TimeGiven(w: World, a: Answer)
    ensures Gives(w, ReadClock, a) <==> a == TimeIs(w.at)
  {
  }

  lemma {:induction false} IdGiven(w: World, a: Answer)
    ensures Gives(w, NewReceiptId, a) <==> a.IdIs?
  {
  }

  lemma {:induction false} ExportedBy(e: Setup, s: Service, fence: Option<Fence>, members: seq<Member>, r: Result,
                                      t: Trace, rq: Request, receipt: Receipt, kept: Receipt, summary: S.Summary)
    requires r == Result(CompletedResult, Some(StoredReceipt(kept)), Some(summary), true)
    requires Completed(t, rq, receipt, kept) && ServiceRead(t) == Some(s) && Checked(e, s, fence, members, StoreEvents(t))
    requires s.design == Materialised ==> StoreMatches(s, e.backend)
    requires receipt == ReceiptFor(receipt.id, false, s, summary.root, e.backend, receipt.at)
    requires Encoded(e, s, fence, members, receipt.at) == Some((Output(t), summary))
    ensures Exported(e, r, t, rq, receipt, kept) && ArtifactFits(e, r, t)
  {
    hide Encoded, StoreEvents, Finals, Output, ServiceRead, StoreMatches, Checked, Body;
    ReadsOf(e, s, fence, members, StoreEvents(t));
    EncodedRoot(e, s, fence, members, receipt.at);
  }

  lemma {:induction false} CheckedBy(e: Setup, s: Service, fence: Option<Fence>, members: seq<Member>,
                                     before: Trace, after: Trace)
    requires ReadShown(e, s, fence, members, before)
    requires after == before + if fence.Some? then [Event(ReadFence, FenceIs(fence.value))] else []
    ensures Checked(e, s, fence, members, after)
  {
    hide WellFormed;
    assert fence.Some? ==> after[..2] == before;
  }

  lemma {:induction false} ShownBy(e: Setup, s: Service, fence: Option<Fence>, members: seq<Member>,
                                   receipt: Receipt, events: Trace)
    requires Encoded(e, s, fence, members, receipt.at).Some? && Encoded(e, s, fence, members, receipt.at).value.1.root == receipt.root
    requires receipt.service == s.id && receipt.revision == s.revision && receipt.status == s.status
    requires Checked(e, s, fence, members, events)
    ensures ReceiptShown(e, receipt, events)
  {
    hide Encoded, Checked;
  }

  /** `_replay_export`: the same bundle, or nothing. */
  method ReplayExport(env: Environment, start: Trace, e: Setup, request: Request, receipt: Receipt, ghost w: World)
    returns (r: Result, t: Trace)
    requires Fresh(start) && ServiceRead(start).None?
    ensures Finals(t) == []
    ensures ArtifactFits(e, r, t)
    ensures Replayed(e, request, receipt, r, t)
    ensures Output(t) != [] ==> exists s, fence, members ::
              && Encoded(e, s, fence, members, receipt.at).Some? && ReadShown(e, s, fence, members, StoreEvents(t))
              && Encoded(e, s, fence, members, receipt.at).value.1.root == receipt.root
              && s.revision == receipt.revision && s.status == receipt.status
              && Output(t) <= Encoded(e, s, fence, members, receipt.at).value.0
    ensures Smooth(w, t) ==> Smooth(w, start)
  {
    hide Smooth, Gives, Exportable, StoreEvents, Finals, Output, ServiceRead, WellFormed, Encoded, Body, ReadShown,
         SnapshotEvents;
    var answer: Answer;
    answer, t := Ask(env, start, OpenUow, w);
    if answer.Failed? {
      return FailureResult(answer.failure, false), t;
    }
    answer, t := Ask(env, t, GetService, w);
    if answer.Failed? {
      return FailureResult(answer.failure, false), t;
    }
    if !answer.ServiceIs? || answer.service.None? || receipt.imported || receipt.principal != request.principal
       || receipt.service != request.service || receipt.backend != e.backend
       || answer.service.value.revision != receipt.revision || answer.service.value.status != receipt.status {
      return Only(StaleResult), t;
    }
    var s := answer.service.value;
    var read: StoreRead;
    read, t := ReadMembers(env, t, e, s, w);
    if !read.ReadStore? {
      r := match read
           case ReadFailed(result) => result
           case OpenStore => Only(StaleResult)
           case _ => Only(RecoveryResult);
      return;
    }
    ReadsOf(e, s, read.fence, read.members, StoreEvents(t));
    if Encoded(e, s, read.fence, read.members, receipt.at).None? {
      return Only(InternalResult), t;
    }
    var (lines, summary) := Encoded(e, s, read.fence, read.members, receipt.at).value;
    EncodedRoot(e, s, read.fence, read.members, receipt.at);
    if summary.root != receipt.root {
      return Only(StaleResult), t;
    }
    var ok: bool;
    ok, t := WriteLines(env, t, lines, w);
    assert [] + lines == lines && forall k :: 0 <= k <= |lines| ==> [] + lines[..k] == lines[..k];
    r := if ok then Result(CompletedResult, Some(StoredReceipt(receipt)), Some(summary), true) else Only(InternalResult);
  }

  /** `export`: a new export, or the replay of a completed one. */
  method ExportService(env: Environment, e: Setup, request: Request, ghost w: World) returns (r: Result, t: Trace)
    requires request.kind == Export
    ensures FinalOr(t, (f: Final) => f.CompleteExport?)
    ensures forall x :: x in Finals(t) && x.call.final.CompleteExport? ==> ReceiptShown(e, x.call.final.receipt, StoreEvents(t))
    ensures ArtifactFits(e, r, t)
    ensures r.written ==> (exists rq, receipt, kept :: Exported(e, r, t, rq, receipt, kept))
                          || (Finals(t) == [] && exists receipt :: Replayed(e, request, receipt, r, t))
    ensures Smooth(w, t) && WorldExports(e, w) ==> r.written
  {
    hide Smooth, Gives, WorldExports, StoreEvents, Finals, Output, ServiceRead, ArtifactFits, ReceiptShown,
         Exported, Replayed;
    NothingYet();
    var a: Admission;
    a, t := Admit(env, [], request, true, w);
    if a.Stopped? {
      if a.result.category == CompletedResult && a.result.stored.Some? && a.result.stored.value.StoredReceipt? {
        r, t := ReplayExport(env, t, e, request, a.result.stored.value.receipt, w);
      } else {
        NotWritten(e, a.result, t);
        r := a.result;
      }
      return;
    }
    r, t := ExportAdmitted(env, t, e, request, a.request, a.service.value, w);
  }

  lemma {:induction false} NotWritten(e: Setup, r: Result, t: Trace)
    requires !r.written
    ensures ArtifactFits(e, r, t)
  {
  }

  // ----- replaying is repeating -----

  /** The registry and the store answer the second run what they answered the first, up to
      the second look at the fence, which a replay does not take. */
  ghost predicate SameReads(t: Trace, u: Trace) {
    && ServiceRead(u) == ServiceRead(t)
    && StoreEvents(u) == if |StoreEvents(t)| <= 2 then StoreEvents(t) else StoreEvents(t)[..2]
  }

  lemma {:induction false} EncodedAnyLimit(e: Setup, limit: int, s: Service, fence: Option<Fence>, members: seq<Member>,
                                           at: Time)
    requires Encoded(e, s, fence, members, at).Some? && Encoded(e.(limit := limit), s, fence, members, at).Some?
    ensures Encoded(e.(limit := limit), s, fence, members, at) == Encoded(e, s, fence, members, at)
  {
    hide S.WriteBundle;
    LimitIrrelevant(e.p, e.limit, limit, ContentItems(e.n, e.header(at), EncodeService(e.n, s, fence).value, members));
  }

  /** Two runs: an export that wrote its artifact for a receipt of which the registry kept what
      it likes, and a replay of what was kept, under any byte limit, with the service, the fence
      and the members unchanged. What the replay writes is byte for byte what the export wrote
      if the time was kept, and before the trailer it is so in any case, unless SHA-256 collides
      on the export. If all but the id of the receipt was kept the replay does write, unless
      the limit is too small now or a call fails. */
  lemma {:induction false} ReplayRepeats(e: Setup, limit: int, request: Request, rq: Request, receipt: Receipt,
                                         kept: Receipt, r1: Result, t1: Trace, r2: Result, t2: Trace)
    requires r1.written && Exported(e, r1, t1, rq, receipt, kept)
    requires Replayed(e.(limit := limit), request, kept, r2, t2) && SameReads(t1, t2)
    requires ServiceRead(t1).Some? && request.principal == ServiceRead(t1).value.principal
             && request.service == ServiceRead(t1).value.id
    ensures r2.written && kept.at == receipt.at ==> Output(t2) == Output(t1) && r2.summary == r1.summary
    ensures r2.written && NoCollision(e, Body(Output(t1))) ==> Body(Output(t2)) == Body(Output(t1))
    ensures kept.(id := receipt.id) == receipt && BundleRead(e.(limit := limit), t2, kept.at).Some? && Undisturbed(t2) ==>
              r2.written
  {
    hide Encoded, StoreEvents, Finals, Output, ServiceRead, WellFormed, Disturbs, Body;
    var e2 := e.(limit := limit);
    var s := ServiceRead(t1).value;
    var fence, members := FenceRead(StoreEvents(t1)), MembersRead(StoreEvents(t1));
    SameSnapshot(e, s, StoreEvents(t1), StoreEvents(t2));
    if BundleRead(e2, t2, kept.at).Some? && kept.at == receipt.at {
      EncodedAnyLimit(e, limit, s, fence, members, receipt.at);
    }
    if r2.written {
      EncodedRoot(e, s, fence, members, receipt.at);
      EncodedRoot(e2, s, fence, members, kept.at);
    }
  }

  /** No other bytes have the digest of these. */
  ghost predicate NoCollision(e: Setup, body: Bytes) {
    forall other :: e.p.sha256(other) == e.p.sha256(body) ==> other == body
  }

  lemma {:induction false} SameSnapshot(e: Setup, s: Service, before: Trace, after: Trace)
    requires Checked(e, s, FenceRead(before), MembersRead(before), before)
    requires after == if |before| <= 2 then before else before[..2]
    ensures FenceRead(after) == FenceRead(before) && MembersRead(after) == MembersRead(before)
    ensures forall limit: int :: ReadShown(e.(limit := limit), s, FenceRead(after), MembersRead(after), after)
  {
    hide WellFormed;
    if s.design == Materialised {
      assert before[..2][0] == before[0] && before[..2][1] == before[1];
    }
  }

  /** Even from a store that changed, a replay writes the exported bytes before the trailer,
      unless SHA-256 collides on the two. */
  lemma {:induction false} SameRootSameBody(e: Setup, s: Service, fence: Option<Fence>, members: seq<Member>,
                         s2: Service, fence2: Option<Fence>, members2: seq<Member>, at: Time)
    requires Encoded(e, s, fence, members, at).Some? && Encoded(e, s2, fence2, members2, at).Some?
    requires Encoded(e, s, fence, members, at).value.1.root == Encoded(e, s2, fence2, members2, at).value.1.root
    requires NoCollision(e, Body(Encoded(e, s, fence, members, at).value.0))
    ensures Body(Encoded(e, s2, fence2, members2, at).value.0) == Body(Encoded(e, s, fence, members, at).value.0)
  {
    hide Encoded, Body;
    EncodedRoot(e, s, fence, members, at);
    EncodedRoot(e, s2, fence2, members2, at);
  }

  // ----- the snapshot argument -----

  /** The store answered each of these events truthfully, at non-decreasing moments of its
      own history; anyone may have changed it in between. */
  ghost predicate Truthful(events: Trace, h: seq<Moment>, times: seq<nat>) {
    && Timeline(h) && |times| == |events|
    && (forall i :: 0 <= i < |times| ==> times[i] < |h|)
    && (forall i, j :: 0 <= i < j < |times| ==> times[i] <= times[j])
    && forall i :: 0 <= i < |events| ==>
         match events[i].call
         case ReadFence => events[i].answer.FenceIs? ==> events[i].answer.fence == h[times[i]].fence
         case OpenSnapshot(expected) =>
           events[i].answer.MembersAre? ==> expected == h[times[i]].fence && events[i].answer.members == h[times[i]].members
         case _ => true
  }

  /** A receipt that an export completed names a bundle of exactly the members the store held
      when the fence was read the second time, and at every moment since the first read. */
  lemma {:induction false} ExportIsConsistent(e: Setup, receipt: Receipt, events: Trace, h: seq<Moment>,
                                              times: seq<nat>)
    requires ReceiptShown(e, receipt, events) && Truthful(events, h, times)
    ensures exists s: Service, fence: Option<Fence>, members: seq<Member> ::
              && Encoded(e, s, fence, members, receipt.at).Some?
              && Encoded(e, s, fence, members, receipt.at).value.1.root == receipt.root
              && receipt.service == s.id && receipt.revision == s.revision && receipt.status == s.status
              && (s.design == Materialised ==>
                    && |times| == 3 && fence.Some? && h[times[2]] == Moment(fence.value, members)
                    && forall k :: times[0] <= k <= times[2] ==> h[k] == Moment(fence.value, members))
  {
    hide Encoded, WellFormed, Timeline;
    var s: Service, fence: Option<Fence>, members: seq<Member> :|
      && Encoded(e, s, fence, members, receipt.at).Some?
      && Encoded(e, s, fence, members, receipt.at).value.1.root == receipt.root
      && receipt.service == s.id && receipt.revision == s.revision && receipt.status == s.status
      && Checked(e, s, fence, members, events);
    if s.design == Materialised {
      assert events[..2][0] == events[0] && events[..2][1] == events[1];
      forall k | times[0] <= k <= times[2] ensures h[k] == h[times[0]] {
        ClosedFenceFreezes(h, times[0], k, times[2]);
      }
    }
  }
}
