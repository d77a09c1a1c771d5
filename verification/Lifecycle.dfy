/** Lifecycle recovery: the pure planner, and the registry transactions it is planned for. */
module Lifecycle {
  import opened Ordering
  import opened Text
  import opened Manifest
  import opened Relational
  import opened PortableStore
  import opened Services

  datatype Kind = Materialise | Evolve

  datatype Phase = Prepared | Completed | RecoveryRequired

  datatype Foundation =
    | Uninitialised | Outdated | ReadyFoundation | Dirty | IncompatibleFoundation
    | UnseenFoundation | BusyFoundation | UnavailableFoundation | UncertainFoundation

  datatype Domain =
    | Unmaterialised | ReadyDomain | IncompatibleDomain
    | UnseenDomain | BusyDomain | UnavailableDomain | UncertainDomain

  datatype Action =
    | PrepareFoundation | ApplyInitialSchema | ApplyTransition | FinalizeRegistry | ReplayComplete
    | Defer(result: Deferred) | RequireRecovery

  datatype Deferred = DeferBusy | DeferUncertain | DeferUnavailable

  /** One ordered observation; a materialise observation has no source part. */
  datatype Observation = Observation(kind: Kind, phase: Phase, foundation: Foundation, target: Domain, source: Domain)

  predicate TransientDomain(d: Domain) {
    d.BusyDomain? || d.UnavailableDomain? || d.UncertainDomain?
  }

  /** The two observation constructors. */
  predicate ValidObservation(o: Observation) {
    if o.phase != Prepared then o.foundation.UnseenFoundation? && o.target.UnseenDomain? && o.source.UnseenDomain?
    else if o.foundation.UnseenFoundation? then false
    else if !o.foundation.ReadyFoundation? then o.target.UnseenDomain? && o.source.UnseenDomain?
    else if o.kind == Materialise then !o.target.UnseenDomain? && o.source.UnseenDomain?
    else
      match o.target
      case Unmaterialised => o.source.Unmaterialised? || TransientDomain(o.source)
      case IncompatibleDomain => o.source.ReadyDomain? || o.source.IncompatibleDomain? || TransientDomain(o.source)
      case UnseenDomain => false
      case _ => o.source.UnseenDomain?
  }

  function DeferFoundation(f: Foundation): Option<Action> {
    match f
    case BusyFoundation => Some(Defer(DeferBusy))
    case UncertainFoundation => Some(Defer(DeferUncertain))
    case UnavailableFoundation => Some(Defer(DeferUnavailable))
    case _ => None
  }

  function DeferDomain(d: Domain): Option<Action> {
    match d
    case BusyDomain => Some(Defer(DeferBusy))
    case UncertainDomain => Some(Defer(DeferUncertain))
    case UnavailableDomain => Some(Defer(DeferUnavailable))
    case _ => None
  }

  function PlanMaterialise(o: Observation): Action {
    match o.foundation
    case Uninitialised => PrepareFoundation
    case Outdated => PrepareFoundation
    case Dirty => PrepareFoundation
    case IncompatibleFoundation => RequireRecovery
    case _ =>
      if DeferDomain(o.target).Some? then DeferDomain(o.target).value
      else if o.target.Unmaterialised? then ApplyInitialSchema
      else if o.target.ReadyDomain? then FinalizeRegistry
      else RequireRecovery
  }

  function PlanEvolve(o: Observation): Action {
    if o.foundation.Outdated? || o.foundation.Dirty? then PrepareFoundation
    else if !o.foundation.ReadyFoundation? then RequireRecovery
    else if DeferDomain(o.target).Some? then DeferDomain(o.target).value
    else if o.target.ReadyDomain? then FinalizeRegistry
    else if o.target.Unmaterialised? then DeferDomain(o.source).GetOr(RequireRecovery)
    else if o.target.IncompatibleDomain? then
      if DeferDomain(o.source).Some? then DeferDomain(o.source).value
      else if o.source.ReadyDomain? then ApplyTransition
      else RequireRecovery
    else RequireRecovery
  }

  /** `plan_recovery`; None is the contract error. */
  function PlanRecovery(kind: Kind, phase: Phase, o: Observation): Option<Action> {
    if o.kind != kind || o.phase != phase then None
    else if phase == Completed then Some(ReplayComplete)
    else if phase == RecoveryRequired then Some(RequireRecovery)
    else if DeferFoundation(o.foundation).Some? then DeferFoundation(o.foundation)
    else if kind == Materialise then Some(PlanMaterialise(o))
    else Some(PlanEvolve(o))
  }

  /** The physical store is exactly known to be something no action can repair. */
  predicate ExactlyIncompatible(o: Observation) {
    || o.foundation.IncompatibleFoundation?
    || (o.kind == Evolve && o.foundation.Uninitialised?)
    || (o.foundation.ReadyFoundation? && o.kind == Materialise && o.target.IncompatibleDomain?)
    || (o.foundation.ReadyFoundation? && o.kind == Evolve && o.target.IncompatibleDomain? && o.source.IncompatibleDomain?)
    || (o.foundation.ReadyFoundation? && o.kind == Evolve && o.target.Unmaterialised? && o.source.Unmaterialised?)
  }

  predicate Transient(o: Observation) {
    DeferFoundation(o.foundation).Some? || TransientDomain(o.target) || TransientDomain(o.source)
  }

  /** What each plan stands for, over every observation a constructor admits. */
  lemma {:induction false} PlanMeaning(kind: Kind, o: Observation)
    requires ValidObservation(o) && o.kind == kind && o.phase == Prepared
    ensures var plan := PlanRecovery(kind, Prepared, o);
            && plan.Some?
            && (plan.value == FinalizeRegistry <==> o.foundation.ReadyFoundation? && o.target.ReadyDomain?)
            && (plan.value == RequireRecovery <==> ExactlyIncompatible(o))
            && (plan.value.Defer? <==> Transient(o))
            && plan.value != ReplayComplete
            && (plan.value == PrepareFoundation
                <==> o.foundation.Outdated? || o.foundation.Dirty? || (o.foundation.Uninitialised? && kind == Materialise))
            && (plan.value == ApplyInitialSchema
                <==> o.foundation.ReadyFoundation? && kind == Materialise && o.target.Unmaterialised?)
            && (plan.value == ApplyTransition
                <==> o.foundation.ReadyFoundation? && kind == Evolve && o.target.IncompatibleDomain? && o.source.ReadyDomain?)
  {
  }

  // ----- intents and claims -----

  datatype Command = Command(kind: Kind, principal: Text, createdVia: Text, service: Uuid, expectedRevision: int,
                             expectedSchema: int, key: Text, target: Option<Manifest>)

  /** The command constructors. */
  ghost predicate ValidCommand(c: Command) {
    && 1 <= c.expectedRevision <= MAX_SERVICE_REVISION && 1 <= c.expectedSchema <= MAX_SCHEMA_VERSION
    && (c.kind == Materialise ==> c.expectedSchema == 1 && c.target.None?)
    && (c.kind == Evolve ==> c.target.Some? && ValidManifest(c.target.value)
                             && c.target.value.schemaVersion == c.expectedSchema + 1)
  }

  datatype Intent = Intent(kind: Kind, phase: Phase, principal: Text, createdVia: Text, service: Uuid,
                           expectedRevision: int, expectedSchema: int, key: Text, target: Manifest)

  /** The request a fingerprint covers: everything but the key. A fingerprint is compared as
      the payload it hashes. */
  function Fingerprint(c: Command): Command {
    c.(key := [])
  }

  /** `_command_for_intent`. */
  function CommandOf(i: Intent): Command {
    Command(i.kind, i.principal, i.createdVia, i.service, i.expectedRevision, i.expectedSchema, i.key,
            if i.kind == Evolve then Some(i.target) else None)
  }

  /** `prepare_intent`. */
  function PrepareIntent(c: Command, target: Manifest): Intent {
    Intent(c.kind, Prepared, c.principal, c.createdVia, c.service, c.expectedRevision, c.expectedSchema, c.key, target)
  }

  /** The intent constructor. */
  ghost predicate ValidIntent(i: Intent) {
    && ValidCommand(CommandOf(i)) && ValidManifest(i.target)
    && i.target.schemaVersion == if i.kind == Materialise then 1 else i.expectedSchema + 1
  }

  type ServiceKey = (Text, Uuid)
  type ClaimKey = (Text, Text)

  /** A row of the claim table: a lifecycle claim, or one of another operation. */
  datatype Row =
    | LifecycleRow(intent: Intent, result: Option<Service>)
    | OtherRow(service: Uuid, phase: Phase)

  datatype Registry = Registry(services: map<ServiceKey, Service>, claims: map<ClaimKey, Row>)

  datatype Outcome =
    | CompletedClaim(service: Service) | PreparedClaim(intent: Intent) | RecoveryClaim
    | Conflict | StaleRevision | UnsupportedTransition | InProgress

  function ServiceOf(r: Registry, principal: Text, id: Uuid): Option<Service> {
    if (principal, id) in r.services then Some(r.services[(principal, id)]) else None
  }

  function RowPhase(row: Row): Phase {
    match row
    case LifecycleRow(intent, _) => intent.phase
    case OtherRow(_, phase) => phase
  }

  function RowService(row: Row): Uuid {
    match row
    case LifecycleRow(intent, _) => intent.service
    case OtherRow(service, _) => service
  }

  /** A claim that keeps every other operation off its service. */
  predicate Blocks(r: Registry, k: ClaimKey, principal: Text, id: Uuid) {
    k in r.claims && k.0 == principal && RowService(r.claims[k]) == id && RowPhase(r.claims[k]) != Completed
  }

  predicate SupportedState(s: Service, kind: Kind) {
    && s.status == Active && s.manifest.Some?
    && if kind == Materialise then s.design == Seeded && s.schemaVersion == Some(1) && s.materialisedAt.None? && s.storage.None?
       else s.design == Materialised && s.materialisedAt.Some? && s.storage.Some?
  }

  function ClaimOutcome(row: Row, c: Command): Outcome {
    match row
    case OtherRow(_, _) => Conflict
    case LifecycleRow(intent, result) =>
      if Fingerprint(CommandOf(intent)) != Fingerprint(c) || intent.kind != c.kind then Conflict
      else
        match intent.phase
        case Prepared => PreparedClaim(intent)
        case RecoveryRequired => RecoveryClaim
        case Completed => if result.Some? then CompletedClaim(result.value) else Conflict
  }

  predicate RecoveryBlocks(r: Registry, c: Command) {
    exists k ::
      k in r.claims && Blocks(r, k, c.principal, c.service) && r.claims[k].LifecycleRow?
      && RowPhase(r.claims[k]) == RecoveryRequired
  }

  predicate Blocked(r: Registry, c: Command) {
    exists k :: k in r.claims && Blocks(r, k, c.principal, c.service)
  }

  /** `resolve_or_admit`: the registry afterwards and the typed outcome. */
  function ResolveOrAdmit(r: Registry, c: Command): (Registry, Outcome) {
    if (c.principal, c.key) in r.claims then (r, ClaimOutcome(r.claims[(c.principal, c.key)], c))
    else
      match ServiceOf(r, c.principal, c.service)
      case None => (r, StaleRevision)
      case Some(s) =>
        if s.revision != c.expectedRevision || s.schemaVersion != Some(c.expectedSchema) then (r, StaleRevision)
        else if !SupportedState(s, c.kind) || s.revision >= MAX_SERVICE_REVISION then (r, UnsupportedTransition)
        else if Blocked(r, c) then (r, if RecoveryBlocks(r, c) then RecoveryClaim else InProgress)
        else if c.kind == Evolve && (c.target.None? || Classify(s.manifest.value, c.target.value).None?)
        then (r, UnsupportedTransition)
        else
          var intent := PrepareIntent(c, if c.kind == Materialise then s.manifest.value else c.target.value);
          (r.(claims := r.claims[(c.principal, c.key) := LifecycleRow(intent, None)]), PreparedClaim(intent))
  }

  /** What a coordinator proves to the registry when it finalizes. */
  datatype Completion = Completion(intent: Intent, at: Time, storage: Storage)

  predicate Preconditions(s: Service, c: Completion) {
    var i := c.intent;
    && s.principal == i.principal && s.id == i.service && s.status == Active && s.revision == i.expectedRevision
    && s.schemaVersion == Some(i.expectedSchema) && s.manifest.Some? && s.updatedAt <= c.at
    && if i.kind == Materialise
       then s.design == Seeded && s.manifest == Some(i.target) && s.schemaVersion == Some(1)
            && s.materialisedAt.None? && s.storage.None?
       else s.design == Materialised && s.materialisedAt.Some? && s.storage.Some?
            && i.target.schemaVersion == i.expectedSchema + 1
  }

  function TerminalService(s: Service, c: Completion): Service {
    var next := s.(updatedAt := c.at, lastActivityAt := c.at, revision := c.intent.expectedRevision + 1);
    if c.intent.kind == Materialise
    then next.(design := Materialised, materialisedAt := Some(c.at), storage := Some(c.storage))
    else next.(manifest := Some(c.intent.target), schemaVersion := Some(c.intent.target.schemaVersion))
  }

  function Stored(r: Registry, i: Intent): Option<Row> {
    var k := (i.principal, i.key);
    if i.phase != Prepared || k !in r.claims || !r.claims[k].LifecycleRow? then None
    else
      var intent := r.claims[k].intent;
      if Fingerprint(CommandOf(intent)) != Fingerprint(CommandOf(i)) || intent.kind != i.kind then None
      else if intent.phase == Prepared && intent != i then None
      else Some(r.claims[k])
  }

  function Terminated(r: Registry, i: Intent, phase: Phase, result: Option<Service>): Registry {
    r.(claims := r.claims[(i.principal, i.key) := LifecycleRow(i.(phase := phase), result)])
  }

  /** `finalize_completed`; None is the raised error, which rolls the transaction back. */
  function FinalizeCompleted(r: Registry, c: Completion): Option<(Registry, Outcome)> {
    var i := c.intent;
    match Stored(r, i)
    case None => None
    case Some(row) =>
      if row.intent.phase == RecoveryRequired then Some((r, RecoveryClaim))
      else if row.intent.phase == Completed then
        if row.result.Some? then Some((r, CompletedClaim(row.result.value))) else None
      else
        match ServiceOf(r, i.principal, i.service)
        case None => Some((Terminated(r, i, RecoveryRequired, None), RecoveryClaim))
        case Some(s) =>
          if c.at < s.updatedAt then None
          else if !Preconditions(s, c) then Some((Terminated(r, i, RecoveryRequired, None), RecoveryClaim))
          else if i.expectedRevision >= MAX_SERVICE_REVISION then None
          else
            var next := TerminalService(s, c);
            var saved := r.(services := r.services[(i.principal, i.service) := next]);
            Some((Terminated(saved, i, Completed, Some(next)), CompletedClaim(next)))
  }

  /** `finalize_recovery_required`. */
  function FinalizeRecovery(r: Registry, i: Intent): Option<(Registry, Outcome)> {
    match Stored(r, i)
    case None => None
    case Some(row) =>
      if row.intent.phase == RecoveryRequired then Some((r, RecoveryClaim))
      else if row.intent.phase == Completed then
        if row.result.Some? then Some((r, CompletedClaim(row.result.value))) else None
      else Some((Terminated(r, i, RecoveryRequired, None), RecoveryClaim))
  }

  /** `_validate_terminal_service`. */
  ghost predicate ValidTerminal(i: Intent, s: Service) {
    && s.principal == i.principal && s.id == i.service && s.revision == i.expectedRevision + 1
    && s.manifest == Some(i.target) && s.schemaVersion == Some(i.target.schemaVersion)
    && s.design == Materialised && s.status == Active && s.updatedAt == s.lastActivityAt
    && s.materialisedAt.Some? && s.storage.Some?
    && (i.kind == Materialise ==> s.schemaVersion == Some(1) && s.materialisedAt == Some(s.updatedAt))
  }

  /** The service a completion saves is a valid service and a valid terminal snapshot. */
  lemma {:induction false} TerminalIsValid(s: Service, c: Completion)
    requires ValidService(s) && ValidIntent(c.intent) && Preconditions(s, c)
    requires c.intent.expectedRevision < MAX_SERVICE_REVISION && c.storage.namespaceOf == c.intent.service
    ensures ValidService(TerminalService(s, c)) && ValidTerminal(c.intent, TerminalService(s, c))
  {
    hide ValidManifest;
  }

  // ----- what every registry transaction keeps -----

  /** Every row is under its own key; services and intents are valid; a completed claim has
      its terminal snapshot; at most one claim blocks a service. */
  ghost predicate Sound(r: Registry) {
    && (forall k :: k in r.services ==> ValidService(r.services[k]) && k == (r.services[k].principal, r.services[k].id))
    && (forall k :: k in r.claims && r.claims[k].LifecycleRow? ==> SoundRow(k, r.claims[k]))
    && (forall k, m, p: Text, id: Uuid :: Blocks(r, k, p, id) && Blocks(r, m, p, id) ==> k == m)
  }

  ghost predicate SoundRow(k: ClaimKey, row: Row)
    requires row.LifecycleRow?
  {
    && ValidIntent(row.intent) && k == (row.intent.principal, row.intent.key)
    && (row.intent.phase == Completed <==> row.result.Some?)
    && (row.result.Some? ==> ValidTerminal(row.intent, row.result.value))
  }

  lemma {:induction false} AdmitKeepsSound(r: Registry, c: Command)
    requires Sound(r) && ValidCommand(c)
    ensures Sound(ResolveOrAdmit(r, c).0)
  {
    hide ValidManifest, Classify;
    var s := ServiceOf(r, c.principal, c.service);
    if ResolveOrAdmit(r, c).0 != r {
      var target := if c.kind == Materialise then s.value.manifest.value else c.target.value;
      var k := (c.principal, c.key);
      var next := ResolveOrAdmit(r, c).0;
      assert next.claims[k] == LifecycleRow(PrepareIntent(c, target), None);
      assert SoundRow(k, next.claims[k]);
      OneMoreBlocker(r, next, k, c);
    }
  }

  lemma {:induction false} OneMoreBlocker(r: Registry, next: Registry, k: ClaimKey, c: Command)
    requires k !in r.claims && k.0 == c.principal && !Blocked(r, c)
    requires next.claims.Keys == r.claims.Keys + {k} && (forall m :: m in r.claims ==> next.claims[m] == r.claims[m])
    requires RowService(next.claims[k]) == c.service
    requires forall a, b, p: Text, id: Uuid :: Blocks(r, a, p, id) && Blocks(r, b, p, id) ==> a == b
    ensures forall a, b, p: Text, id: Uuid :: Blocks(next, a, p, id) && Blocks(next, b, p, id) ==> a == b
  {
    forall a, b, p: Text, id: Uuid | Blocks(next, a, p, id) && Blocks(next, b, p, id) ensures a == b {
      assert a != k ==> Blocks(r, a, p, id);
      assert b != k ==> Blocks(r, b, p, id);
    }
  }

  lemma {:induction false} TerminationKeepsSound(r: Registry, i: Intent, phase: Phase, result: Option<Service>)
    requires Sound(r) && Stored(r, i).Some? && Stored(r, i).value.intent == i && phase != Prepared
    requires phase == Completed <==> result.Some?
    requires result.Some? ==> ValidTerminal(i, result.value)
    ensures Sound(Terminated(r, i, phase, result))
  {
    hide ValidManifest;
    var next := Terminated(r, i, phase, result);
    var k := (i.principal, i.key);
    assert SoundRow(k, r.claims[k]);
    assert SoundRow(k, next.claims[k]);
    forall a, b, p: Text, id: Uuid | Blocks(next, a, p, id) && Blocks(next, b, p, id) ensures a == b {
      assert Blocks(r, a, p, id) && Blocks(r, b, p, id);
    }
  }

  /** Every registry transaction of the lifecycle keeps the registry sound, and its outcome
      can be constructed. */
  lemma {:induction false} CompleteKeepsSound(r: Registry, c: Completion)
    requires Sound(r) && FinalizeCompleted(r, c).Some? && c.storage.namespaceOf == c.intent.service
    ensures Sound(FinalizeCompleted(r, c).value.0)
    ensures match FinalizeCompleted(r, c).value.1
            case CompletedClaim(s) =>
              exists i: Intent ::
                i.principal == c.intent.principal && i.key == c.intent.key && ValidTerminal(i, s)
            case RecoveryClaim => true
            case _ => false
  {
    hide ValidManifest;
    var i := c.intent;
    var row := Stored(r, i).value;
    assert SoundRow((i.principal, i.key), row);
    if row.intent.phase == Prepared {
      assert row.intent == i;
      var s := ServiceOf(r, i.principal, i.service);
      if s.Some? && Preconditions(s.value, c) {
        TerminalIsValid(s.value, c);
        var next := TerminalService(s.value, c);
        var saved := r.(services := r.services[(i.principal, i.service) := next]);
        assert forall k: ClaimKey, p: Text, id: Uuid :: Blocks(saved, k, p, id) <==> Blocks(r, k, p, id);
        TerminationKeepsSound(saved, i, Completed, Some(next));
      } else {
        TerminationKeepsSound(r, i, RecoveryRequired, None);
      }
    }
  }

  lemma {:induction false} RecoverKeepsSound(r: Registry, i: Intent)
    requires Sound(r) && FinalizeRecovery(r, i).Some?
    ensures Sound(FinalizeRecovery(r, i).value.0)
  {
    if Stored(r, i).value.intent.phase == Prepared {
      TerminationKeepsSound(r, i, RecoveryRequired, None);
    }
  }
}
