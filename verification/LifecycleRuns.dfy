/** Runs of a whole system: any number of coordinators, same-key retries, crashes between any
    two steps, and every other operation of the registry, interleaved in any order. */
module LifecycleRuns {
  import opened Ordering
  import opened Text
  import opened Manifest
  import opened SampleManifest
  import opened Relational
  import opened PortableStore
  import opened Services
  import opened Lifecycle

  /** The physical shape a schema inspection compares; the version is not part of it. */
  datatype Layout = Layout(entities: seq<Entity>, relationships: seq<Relationship>, indices: seq<Index>)

  function LayoutOf(s: Specification): Layout {
    Layout(s.entities, s.relationships, s.indices)
  }

  /** A service store: its layout now, and every layout it has had. */
  datatype Store = Store(layout: Option<Layout>, past: set<Layout>)

  /** `seen` holds what any coordinator, alive or crashed, has read as ready; `identities` the
      service identities that are or were in use. */
  datatype System = System(registry: Registry, stores: map<Uuid, Store>, seen: set<(Uuid, Layout)>,
                           identities: set<ServiceKey>)

  datatype Step =
    | AdmitStep(command: Command)
    | CompleteStep(completion: Completion)
    | RecoverStep(intent: Intent, at: Time)
    | MaterialiseStep(id: Uuid, target: Layout)
    | EvolveStep(id: Uuid, source: Layout, target: Layout)
    | ReadReadyStep(id: Uuid, layout: Layout)
    | SaveStep(service: Service)
    | OtherClaimStep(key: ClaimKey, row: Row)
    | AddStep(service: Service)
    | PurgeStep(key: ClaimKey, id: Uuid)
    | EraseStep(id: Uuid)
    | CrashStep

  function StoreOf(s: System, id: Uuid): Store {
    if id in s.stores then s.stores[id] else Store(None, {})
  }

  function WithLayout(s: System, id: Uuid, l: Layout): System {
    s.(stores := s.stores[id := Store(Some(l), StoreOf(s, id).past + {l})])
  }

  function Committed(r: Registry, o: Option<(Registry, Outcome)>): Registry {
    if o.Some? then o.value.0 else r
  }

  /** The target layout of an intent. */
  function TargetLayout(i: Intent): Layout {
    LayoutOf(Compile(i.target))
  }

  /** The registry after a purge: the service is gone and its claims are tombstones. */
  function Purged(r: Registry, principal: Text, id: Uuid): Registry {
    Registry(r.services - {(principal, id)},
             map k | k in r.claims ::
               if k.0 == principal && RowService(r.claims[k]) == id then OtherRow(id, Completed) else r.claims[k])
  }

  /** One atomic step. A coordinator completes only after some read found its target ready;
      materialising changes only an empty store and evolving only one at the source layout;
      another operation saves a service one revision up, claims only a service that no claim
      blocks, and ends its claim; a purge is finalized under its own prepared claim, for an
      archived service; a new service takes an identity that was never used. */
  ghost predicate Next(a: System, step: Step, b: System) {
    match step
    case AdmitStep(c) => ValidCommand(c) && b == a.(registry := ResolveOrAdmit(a.registry, c).0)
    case CompleteStep(c) =>
      && (c.intent.service, TargetLayout(c.intent)) in a.seen && c.storage.namespaceOf == c.intent.service
      && b == a.(registry := Committed(a.registry, FinalizeCompleted(a.registry, c)))
    case RecoverStep(i, _) => b == a.(registry := Committed(a.registry, FinalizeRecovery(a.registry, i)))
    case MaterialiseStep(id, target) => b == if StoreOf(a, id).layout.None? then WithLayout(a, id, target) else a
    case EvolveStep(id, source, target) => b == if StoreOf(a, id).layout == Some(source) then WithLayout(a, id, target) else a
    case ReadReadyStep(id, layout) => StoreOf(a, id).layout == Some(layout) && b == a.(seen := a.seen + {(id, layout)})
    case SaveStep(s) =>
      && (s.principal, s.id) in a.registry.services && ValidService(s)
      && s.revision == a.registry.services[(s.principal, s.id)].revision + 1
      && b == a.(registry := a.registry.(services := a.registry.services[(s.principal, s.id) := s]))
    case OtherClaimStep(k, row) =>
      && row.OtherRow?
      && (if k in a.registry.claims then a.registry.claims[k] == OtherRow(row.service, Prepared) && row.phase != Prepared
          else row.phase == Completed || forall m :: m in a.registry.claims ==> !Blocks(a.registry, m, k.0, row.service))
      && b == a.(registry := a.registry.(claims := a.registry.claims[k := row]))
    case AddStep(s) =>
      && (s.principal, s.id) !in a.identities && ValidService(s)
      && b == a.(registry := a.registry.(services := a.registry.services[(s.principal, s.id) := s]),
                 identities := a.identities + {(s.principal, s.id)})
    case PurgeStep(k, id) =>
      && k in a.registry.claims && a.registry.claims[k] == OtherRow(id, Prepared)
      && (k.0, id) in a.registry.services && a.registry.services[(k.0, id)].status == Archived
      && b == a.(registry := Purged(a.registry, k.0, id))
    case EraseStep(id) => b == a.(stores := a.stores[id := Store(None, StoreOf(a, id).past)])
    case CrashStep => b == a
  }

  ghost predicate Reached(s: System, id: Uuid, l: Layout) {
    l in StoreOf(s, id).past
  }

  ghost predicate Invariant(s: System) {
    && Sound(s.registry) && s.registry.services.Keys <= s.identities
    && (forall x :: x in s.seen ==> Reached(s, x.0, x.1))
    && (forall id :: id in s.stores && s.stores[id].layout.Some? ==> s.stores[id].layout.value in s.stores[id].past)
    && forall k :: k in s.registry.claims && s.registry.claims[k].LifecycleRow? && RowPhase(s.registry.claims[k]) == Completed ==>
         Reached(s, s.registry.claims[k].intent.service, TargetLayout(s.registry.claims[k].intent))
  }

  lemma {:induction false} PhysicalKeeps(a: System, id: Uuid, l: Layout)
    requires Invariant(a)
    ensures Invariant(WithLayout(a, id, l))
  {
    hide TargetLayout, Sound;
    var b := WithLayout(a, id, l);
    forall i: Uuid, x: Layout | Reached(a, i, x) ensures Reached(b, i, x) {
    }
  }

  lemma {:induction false} CompletedBy(r: Registry, c: Completion, k: ClaimKey)
    requires FinalizeCompleted(r, c).Some? && k in FinalizeCompleted(r, c).value.0.claims
    requires var row := FinalizeCompleted(r, c).value.0.claims[k];
             row.LifecycleRow? && RowPhase(row) == Completed && (k in r.claims ==> row != r.claims[k])
    ensures FinalizeCompleted(r, c).value.0.claims[k].intent == c.intent.(phase := Completed)
  {
  }

  lemma {:induction false} SameKeys(r: Registry, c: Completion, i: Intent)
    ensures FinalizeCompleted(r, c).Some? ==> FinalizeCompleted(r, c).value.0.services.Keys == r.services.Keys
    ensures FinalizeRecovery(r, i).Some? ==> FinalizeRecovery(r, i).value.0.services == r.services
  {
    hide TerminalService, Preconditions;
  }

  lemma {:induction false} SameRegistryServices(r: Registry, command: Command)
    ensures ResolveOrAdmit(r, command).0.services == r.services
  {
    hide Classify;
  }

  lemma {:induction false} CompleteKeeps(a: System, b: System, c: Completion)
    requires Invariant(a) && Next(a, CompleteStep(c), b)
    ensures Invariant(b)
  {
    hide ValidManifest, Classify, Compile, FinalizeCompleted, Sound;
    if FinalizeCompleted(a.registry, c).Some? {
      CompleteKeepsSound(a.registry, c);
      SameKeys(a.registry, c, c.intent);
      forall k | k in b.registry.claims && b.registry.claims[k].LifecycleRow? && RowPhase(b.registry.claims[k]) == Completed
        ensures Reached(b, b.registry.claims[k].intent.service, TargetLayout(b.registry.claims[k].intent))
      {
        if k in a.registry.claims && b.registry.claims[k] == a.registry.claims[k] {
        } else {
          CompletedBy(a.registry, c, k);
          assert (c.intent.service, TargetLayout(c.intent)) in a.seen;
          assert TargetLayout(b.registry.claims[k].intent) == TargetLayout(c.intent);
        }
      }
    }
  }

  lemma {:induction false} NotCompletedBefore(r: Registry, i: Intent, k: ClaimKey)
    requires FinalizeRecovery(r, i).Some? && k in FinalizeRecovery(r, i).value.0.claims
    requires var row := FinalizeRecovery(r, i).value.0.claims[k]; row.LifecycleRow? && RowPhase(row) == Completed
    ensures k in r.claims && r.claims[k] == FinalizeRecovery(r, i).value.0.claims[k]
  {
  }

  lemma {:induction false} RecoverKeeps(a: System, b: System, i: Intent, at: Time)
    requires Invariant(a) && Next(a, RecoverStep(i, at), b)
    ensures Invariant(b)
  {
    hide TargetLayout, FinalizeRecovery, Sound;
    if FinalizeRecovery(a.registry, i).Some? {
      RecoverKeepsSound(a.registry, i);
      SameKeys(a.registry, Completion(i, at, Storage(Sqlite, i.service)), i);
      forall k | k in b.registry.claims && b.registry.claims[k].LifecycleRow? && RowPhase(b.registry.claims[k]) == Completed
        ensures Reached(b, b.registry.claims[k].intent.service, TargetLayout(b.registry.claims[k].intent))
      {
        NotCompletedBefore(a.registry, i, k);
      }
    }
  }

  lemma {:induction false} OldOrPrepared(r: Registry, c: Command, k: ClaimKey)
    requires k in ResolveOrAdmit(r, c).0.claims
    ensures (k in r.claims && r.claims[k] == ResolveOrAdmit(r, c).0.claims[k])
            || RowPhase(ResolveOrAdmit(r, c).0.claims[k]) == Prepared
  {
    hide Classify;
  }

  lemma {:induction false} AdmitKeeps(a: System, b: System, c: Command)
    requires Invariant(a) && Next(a, AdmitStep(c), b)
    ensures Invariant(b)
  {
    hide TargetLayout, ResolveOrAdmit, Sound, ValidCommand;
    AdmitKeepsSound(a.registry, c);
    SameRegistryServices(a.registry, c);
    forall k | k in b.registry.claims && b.registry.claims[k].LifecycleRow? && RowPhase(b.registry.claims[k]) == Completed
      ensures Reached(b, b.registry.claims[k].intent.service, TargetLayout(b.registry.claims[k].intent))
    {
      OldOrPrepared(a.registry, c, k);
    }
  }

  lemma {:induction false} SaveKeeps(a: System, b: System, s: Service)
    requires Invariant(a) && Next(a, SaveStep(s), b)
    ensures Invariant(b)
  {
    hide TargetLayout, ValidManifest, ValidService, SoundRow;
    assert forall k: ClaimKey, p: Text, id: Uuid :: Blocks(b.registry, k, p, id) <==> Blocks(a.registry, k, p, id);
  }

  lemma {:induction false} OtherKeeps(a: System, b: System, k: ClaimKey, row: Row)
    requires Invariant(a) && Next(a, OtherClaimStep(k, row), b)
    ensures Invariant(b)
  {
    hide TargetLayout, ValidService, SoundRow;
    forall x, y, p: Text, id: Uuid | Blocks(b.registry, x, p, id) && Blocks(b.registry, y, p, id) ensures x == y {
      assert x != k || k in a.registry.claims ==> Blocks(a.registry, x, p, id);
      assert y != k || k in a.registry.claims ==> Blocks(a.registry, y, p, id);
    }
  }

  /** Every step of every participant keeps the registry sound and keeps every completed claim
      backed by a store that reached its target. */
  lemma {:induction false} StepKeeps(a: System, step: Step, b: System)
    requires Invariant(a) && Next(a, step, b)
    ensures Invariant(b)
  {
    match step {
      case AdmitStep(c) => AdmitKeeps(a, b, c);
      case CompleteStep(c) => CompleteKeeps(a, b, c);
      case RecoverStep(i, at) => RecoverKeeps(a, b, i, at);
      case MaterialiseStep(id, target) => PhysicalKeeps(a, id, target);
      case EvolveStep(id, source, target) => PhysicalKeeps(a, id, target);
      case ReadReadyStep(id, layout) => ReadKeeps(a, b, id, layout);
      case SaveStep(s) => SaveKeeps(a, b, s);
      case OtherClaimStep(k, row) => OtherKeeps(a, b, k, row);
      case AddStep(s) => AddKeeps(a, b, s);
      case PurgeStep(k, id) => PurgeKeeps(a, b, k, id);
      case EraseStep(id) => EraseKeeps(a, b, id);
      case CrashStep =>
    }
  }

  lemma {:induction false} AddKeeps(a: System, b: System, s: Service)
    requires Invariant(a) && Next(a, AddStep(s), b)
    ensures Invariant(b)
  {
    hide TargetLayout, ValidManifest, ValidService, SoundRow;
    assert forall k: ClaimKey, p: Text, id: Uuid :: Blocks(b.registry, k, p, id) <==> Blocks(a.registry, k, p, id);
  }

  lemma {:induction false} PurgeKeeps(a: System, b: System, k: ClaimKey, id: Uuid)
    requires Invariant(a) && Next(a, PurgeStep(k, id), b)
    ensures Invariant(b)
  {
    hide TargetLayout, ValidService, SoundRow;
    forall x, y, p: Text, i: Uuid | Blocks(b.registry, x, p, i) && Blocks(b.registry, y, p, i) ensures x == y {
      assert Blocks(a.registry, x, p, i) && Blocks(a.registry, y, p, i);
    }
  }

  lemma {:induction false} EraseKeeps(a: System, b: System, id: Uuid)
    requires Invariant(a) && Next(a, EraseStep(id), b)
    ensures Invariant(b)
  {
    hide TargetLayout, Sound;
    forall i: Uuid, x: Layout | Reached(a, i, x) ensures Reached(b, i, x) {
    }
  }

  lemma {:induction false} ReadKeeps(a: System, b: System, id: Uuid, l: Layout)
    requires Invariant(a) && Next(a, ReadReadyStep(id, l), b)
    ensures Invariant(b)
  {
    hide TargetLayout, Sound;
  }

  // ----- whole runs -----

  ghost predicate Run(states: seq<System>, steps: seq<Step>) {
    && |states| == |steps| + 1 && Invariant(states[0])
    && forall i :: 0 <= i < |steps| ==> Next(states[i], steps[i], states[i + 1])
  }

  lemma {:induction false} RunKeeps(states: seq<System>, steps: seq<Step>, i: nat)
    requires Run(states, steps) && i < |states|
    ensures Invariant(states[i])
  {
    hide Invariant, Next;
    if i > 0 {
      RunKeeps(states, steps, i - 1);
      StepKeeps(states[i - 1], steps[i - 1], states[i]);
    }
  }

  /** The claim has ended, or is a tombstone or another operation's. */
  ghost predicate Ended(r: Registry, k: ClaimKey) {
    k in r.claims && (r.claims[k].OtherRow? || RowPhase(r.claims[k]) != Prepared)
  }

  lemma {:induction false} StepKeepsEnded(a: System, step: Step, b: System, k: ClaimKey)
    requires Invariant(a) && Next(a, step, b) && Ended(a.registry, k)
    ensures Ended(b.registry, k)
    ensures b.registry.claims[k] == a.registry.claims[k] || b.registry.claims[k].OtherRow?
  {
    hide ValidManifest, Classify, Compile, ValidService;
  }

  lemma {:induction false} EndedForever(states: seq<System>, steps: seq<Step>, i: nat, j: nat, k: ClaimKey)
    requires Run(states, steps) && i <= j < |states| && Ended(states[i].registry, k)
    ensures Ended(states[j].registry, k)
    decreases j
  {
    hide Invariant, Next;
    if i < j {
      EndedForever(states, steps, i, j - 1, k);
      RunKeeps(states, steps, j - 1);
      StepKeepsEnded(states[j - 1], steps[j - 1], states[j], k);
    }
  }

  /** A lifecycle claim that has ended. */
  predicate EndedLifecycle(r: Registry, k: ClaimKey) {
    k in r.claims && r.claims[k].LifecycleRow? && RowPhase(r.claims[k]) != Prepared
  }

  predicate Purges(step: Step, principal: Text, id: Uuid) {
    step.PurgeStep? && step.key.0 == principal && step.id == id
  }

  ghost predicate PurgedBetween(steps: seq<Step>, i: nat, j: nat, principal: Text, id: Uuid)
    requires j <= |steps|
  {
    exists m :: i <= m < j && Purges(steps[m], principal, id)
  }

  lemma {:induction false} EndedStep(a: System, step: Step, b: System, k: ClaimKey)
    requires Invariant(a) && Next(a, step, b) && EndedLifecycle(a.registry, k)
    ensures var row := a.registry.claims[k];
            && k in b.registry.claims
            && (if Purges(step, k.0, RowService(row)) then b.registry.claims[k] == OtherRow(RowService(row), Completed)
                else b.registry.claims[k] == row)
            && (RowPhase(row) == RecoveryRequired ==> !Purges(step, k.0, RowService(row)))
  {
    hide ValidManifest, Classify, Compile, ValidService, ValidTerminal;
    var row := a.registry.claims[k];
    if step.PurgeStep? {
      assert Blocks(a.registry, step.key, step.key.0, step.id);
      assert RowPhase(row) == RecoveryRequired ==> Blocks(a.registry, k, k.0, RowService(row));
    }
  }

  lemma {:induction false} TombstoneStep(a: System, step: Step, b: System, k: ClaimKey, id: Uuid)
    requires Next(a, step, b) && k in a.registry.claims && a.registry.claims[k] == OtherRow(id, Completed)
    ensures k in b.registry.claims && b.registry.claims[k] == OtherRow(id, Completed)
  {
    hide ValidManifest, Classify, Compile, ValidService;
  }

  /** An ended lifecycle claim keeps phase, intent and result for the rest of any run if and
      only if no purge of its service is finalized; a purge leaves its tombstone. A claim that
      requires recovery is never touched again: it keeps the purge from being admitted. */
  lemma {:induction false} EndedIff(states: seq<System>, steps: seq<Step>, i: nat, j: nat, k: ClaimKey)
    requires Run(states, steps) && i <= j < |states| && EndedLifecycle(states[i].registry, k)
    ensures var row := states[i].registry.claims[k];
            var purged := PurgedBetween(steps, i, j, k.0, RowService(row));
            && k in states[j].registry.claims
            && (states[j].registry.claims[k] == row <==> !purged)
            && (purged ==> states[j].registry.claims[k] == OtherRow(RowService(row), Completed))
            && (RowPhase(row) == RecoveryRequired ==> !purged)
    decreases j
  {
    hide Invariant, Next, Purges;
    if i < j {
      EndedIff(states, steps, i, j - 1, k);
      RunKeeps(states, steps, j - 1);
      var row := states[i].registry.claims[k];
      var a, step, b := states[j - 1], steps[j - 1], states[j];
      if PurgedBetween(steps, i, j - 1, k.0, RowService(row)) {
        TombstoneStep(a, step, b, k, RowService(row));
        var m :| i <= m < j - 1 && Purges(steps[m], k.0, RowService(row));
        assert i <= m < j && Purges(steps[m], k.0, RowService(row));
      } else {
        EndedStep(a, step, b, k);
        assert PurgedBetween(steps, i, j, k.0, RowService(row)) <==> Purges(step, k.0, RowService(row));
      }
    }
  }

  function SampleIntent(m: Manifest, id: Uuid): Intent {
    Intent(Materialise, Completed, [1], [], id, 1, 1, [7], m)
  }

  function SampleResult(m: Manifest, id: Uuid): Service {
    Service(id, [1], [], [], [], 0, 5, 5, Some(m), Some(1), Materialised, Active, 2, Some(5), Some(Storage(Sqlite, id)))
  }

  const SAMPLE_KEY: ClaimKey := ([1], [7])
  const SAMPLE_PURGE: ClaimKey := ([1], [8])

  /** A service materialised at revision 2 and archived at revision 3, its purge admitted. */
  function SampleRegistry(m: Manifest, id: Uuid): Registry {
    Registry(map[([1], id) := SampleResult(m, id).(status := Archived, revision := 3)],
             map[SAMPLE_KEY := LifecycleRow(SampleIntent(m, id), Some(SampleResult(m, id))),
                 SAMPLE_PURGE := OtherRow(id, Prepared)])
  }

  function SampleSystem(m: Manifest, id: Uuid): System {
    System(SampleRegistry(m, id), map[id := Store(None, {TargetLayout(SampleIntent(m, id))})], {}, {([1], id)})
  }

  lemma {:induction false} SampleSound(m: Manifest, id: Uuid)
    requires ValidManifest(m) && m.schemaVersion == 1
    ensures Sound(SampleRegistry(m, id))
  {
    hide ValidManifest;
    var r := SampleRegistry(m, id);
    assert SoundRow(SAMPLE_KEY, r.claims[SAMPLE_KEY]);
    forall x, p: Text, i: Uuid | Blocks(r, x, p, i) ensures x == SAMPLE_PURGE {
    }
  }

  lemma {:induction false} SamplePurge(m: Manifest, id: Uuid)
    requires Sound(SampleRegistry(m, id))
    ensures var a := SampleSystem(m, id);
            var b := a.(registry := Purged(a.registry, [1], id));
            && Invariant(a) && Next(a, PurgeStep(SAMPLE_PURGE, id), b)
            && Rewrites(a, b, SAMPLE_KEY)
  {
    hide Sound, TargetLayout, SampleResult;
    var a := SampleSystem(m, id);
    assert SAMPLE_KEY.0 == SAMPLE_PURGE.0 == [1] && SAMPLE_KEY != SAMPLE_PURGE;
    assert TargetLayout(SampleIntent(m, id)) in StoreOf(a, id).past;
  }

  /** The claim under `k` has completed and is another row afterwards. */
  ghost predicate Rewrites(a: System, b: System, k: ClaimKey) {
    && EndedLifecycle(a.registry, k) && RowPhase(a.registry.claims[k]) == Completed
    && k in b.registry.claims && b.registry.claims[k] != a.registry.claims[k]
  }

  /** The failing run: a materialised service, archived since, is purged, and the completed
      claim of its materialisation is rewritten. */
  lemma {:induction false} PurgeRewritesClaim()
    ensures exists a: System, b: System, step: Step, k: ClaimKey :: Run([a, b], [step]) && Rewrites(a, b, k)
  {
    var own := Attribute(SHORT, NumberType, false, false, None, None, None);
    var m, id: Uuid := Sample(own), 5;
    SampleValid(own);
    hide *;
    SampleSound(m, id);
    SamplePurge(m, id);
    var a := SampleSystem(m, id);
    OneStep(a, PurgeStep(SAMPLE_PURGE, id), a.(registry := Purged(a.registry, [1], id)));
  }

  lemma {:induction false} OneStep(a: System, step: Step, b: System)
    requires Invariant(a) && Next(a, step, b)
    ensures Run([a, b], [step])
  {
  }

  /** A lifecycle step of the claim under `k` that changed a service. */
  ghost predicate Moves(a: System, step: Step, b: System, k: ClaimKey) {
    && a.registry.services != b.registry.services
    && match step
       case CompleteStep(c) => (c.intent.principal, c.intent.key) == k
       case RecoverStep(i, _) => (i.principal, i.key) == k
       case AdmitStep(c) => (c.principal, c.key) == k
       case _ => false
  }

  /** Such a step takes exactly one service from the expected revision to the next one, gives
      it the claim's result, and completes the claim, which was prepared before. */
  lemma {:induction false} MoveIs(a: System, step: Step, b: System, k: ClaimKey)
    requires Invariant(a) && Next(a, step, b) && Moves(a, step, b, k)
    ensures step.CompleteStep? && Ended(b.registry, k) && !Ended(a.registry, k)
    ensures var i := step.completion.intent;
            var key := (i.principal, i.service);
            && key in a.registry.services && a.registry.services[key].revision == i.expectedRevision
            && b.registry.services == a.registry.services[key := b.registry.services[key]]
            && b.registry.services[key].revision == i.expectedRevision + 1
            && b.registry.claims[k].result == Some(b.registry.services[key])
  {
    hide ValidManifest, Classify, Compile, ValidService;
  }

  /** The revision moves for a claim at most once in a whole run, however many coordinators
      retry, crash and race. */
  lemma {:induction false} MovesOnce(states: seq<System>, steps: seq<Step>, i: nat, j: nat, k: ClaimKey)
    requires Run(states, steps) && i < j < |steps|
    requires Moves(states[i], steps[i], states[i + 1], k)
    ensures !Moves(states[j], steps[j], states[j + 1], k)
  {
    hide Invariant, Next, Moves, Ended;
    RunKeeps(states, steps, i);
    RunKeeps(states, steps, j);
    MoveIs(states[i], steps[i], states[i + 1], k);
    EndedForever(states, steps, i + 1, j, k);
    if Moves(states[j], steps[j], states[j + 1], k) {
      MoveIs(states[j], steps[j], states[j + 1], k);
    }
  }

  lemma {:induction false} StepRevision(a: System, step: Step, b: System, key: ServiceKey)
    requires Invariant(a) && Next(a, step, b) && key in a.identities
    ensures key in b.identities
    ensures key in b.registry.services ==>
              && key in a.registry.services
              && a.registry.services[key].revision <= b.registry.services[key].revision <= a.registry.services[key].revision + 1
  {
    hide ValidManifest, Classify, Compile, ValidService;
  }

  /** As long as a service exists its revision never falls and rises by at most one a step;
      a purged identity never comes back. */
  lemma {:induction false} RevisionRises(states: seq<System>, steps: seq<Step>, i: nat, j: nat, key: ServiceKey)
    requires Run(states, steps) && i <= j < |states| && key in states[i].identities
    ensures key in states[j].identities
    ensures key in states[j].registry.services ==>
              && key in states[i].registry.services
              && var r, q := states[i].registry.services[key].revision, states[j].registry.services[key].revision;
                 r <= q <= r + (j - i)
    decreases j
  {
    hide Invariant, Next;
    if i < j {
      RevisionRises(states, steps, i, j - 1, key);
      RunKeeps(states, steps, j - 1);
      StepRevision(states[j - 1], steps[j - 1], states[j], key);
    }
  }

  /** Wherever a run stands, a completed claim has its terminal snapshot one revision above
      the expected one, and its store has had the target layout. */
  lemma {:induction false} CompletedIsBacked(states: seq<System>, steps: seq<Step>, i: nat, k: ClaimKey)
    requires Run(states, steps) && i < |states|
    requires var r := states[i].registry; k in r.claims && r.claims[k].LifecycleRow? && RowPhase(r.claims[k]) == Completed
    ensures var row := states[i].registry.claims[k];
            && row.result.Some? && ValidTerminal(row.intent, row.result.value)
            && row.result.value.revision == row.intent.expectedRevision + 1
            && Reached(states[i], row.intent.service, TargetLayout(row.intent))
  {
    RunKeeps(states, steps, i);
    hide Next, Run, TargetLayout, ValidManifest;
    assert SoundRow(k, states[i].registry.claims[k]);
  }
}
