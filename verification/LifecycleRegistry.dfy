/** When the registry admits a lifecycle command, and what admission and completion change. */
module LifecycleRegistry {
  import opened Ordering
  import opened Text
  import opened Manifest
  import opened Relational
  import opened ManifestEvolution
  import opened PortableStore
  import opened Services
  import opened Lifecycle

  /** No claim of the principal on this service is still open or waits for recovery. */
  ghost predicate Unclaimed(r: Registry, principal: Text, id: Uuid) {
    forall k :: k in r.claims && k.0 == principal && RowService(r.claims[k]) == id ==> RowPhase(r.claims[k]) == Completed
  }

  /** The service is as the command expects it: at that revision and that schema version,
      active, seeded with a first manifest or materialised with one that the target adds to. */
  ghost predicate Ready(s: Service, c: Command) {
    && s.status == Active && s.manifest.Some? && s.revision == c.expectedRevision < MAX_SERVICE_REVISION
    && s.manifest.value.schemaVersion == c.expectedSchema
    && if c.kind == Materialise then s.design == Seeded
       else s.design == Materialised && c.target.Some? && Additive(s.manifest.value, c.target.value)
  }

  /** A new command of this key is admitted. */
  ghost predicate Admissible(r: Registry, c: Command) {
    && (c.principal, c.key) !in r.claims
    && ServiceOf(r, c.principal, c.service).Some? && Ready(ServiceOf(r, c.principal, c.service).value, c)
    && Unclaimed(r, c.principal, c.service)
  }

  /** The same request under the same key has been admitted before, and has not ended. */
  predicate Underway(r: Registry, c: Command) {
    && (c.principal, c.key) in r.claims && r.claims[(c.principal, c.key)].LifecycleRow?
    && var i := r.claims[(c.principal, c.key)].intent; i.phase == Prepared && CommandOf(i) == c
  }

  lemma {:induction false} BlockedIff(r: Registry, c: Command)
    ensures Blocked(r, c) <==> !Unclaimed(r, c.principal, c.service)
  {
    forall k | k in r.claims
      ensures Blocks(r, k, c.principal, c.service)
         <==> k.0 == c.principal && RowService(r.claims[k]) == c.service && RowPhase(r.claims[k]) != Completed
    {
    }
  }

  /** The checks on the service, one after the other, come to this. */
  lemma {:induction false} ReadyIff(s: Service, c: Command)
    requires ValidService(s) && ValidCommand(c)
    ensures Ready(s, c)
       <==> s.revision == c.expectedRevision && s.schemaVersion == Some(c.expectedSchema)
            && SupportedState(s, c.kind) && s.revision < MAX_SERVICE_REVISION
            && (c.kind == Evolve ==> Classify(s.manifest.value, c.target.value).Some?)
  {
    hide ValidManifest, Classify, Additive;
    if c.kind == Evolve && s.manifest.Some? {
      ClassifiedIff(s.manifest.value, c.target.value);
    }
  }

  lemma {:induction false} SameRequest(i: Intent, c: Command)
    requires i.principal == c.principal && i.key == c.key
    ensures Fingerprint(CommandOf(i)) == Fingerprint(c) && i.kind == c.kind <==> CommandOf(i) == c
  {
    var d := CommandOf(i);
    assert d == Fingerprint(d).(key := d.key) && c == Fingerprint(c).(key := c.key);
  }

  /** A command is admitted exactly when it is admissible; then the registry has one claim
      more, its own. A prepared claim is answered exactly for what was just admitted and for
      what was admitted before under the same key and has not ended. */
  lemma {:induction false} AdmittedIff(r: Registry, c: Command)
    requires Lifecycle.Sound(r) && ValidCommand(c)
    ensures var (next, outcome) := ResolveOrAdmit(r, c);
            && (next != r <==> Admissible(r, c))
            && (outcome.PreparedClaim? <==> Admissible(r, c) || Underway(r, c))
            && (outcome.PreparedClaim? ==> CommandOf(outcome.intent) == c && outcome.intent.phase == Prepared)
            && (Admissible(r, c) ==>
                  && next.services == r.services && next.claims.Keys == r.claims.Keys + {(c.principal, c.key)}
                  && (forall k :: k in r.claims ==> next.claims[k] == r.claims[k])
                  && next.claims[(c.principal, c.key)] == LifecycleRow(outcome.intent, None)
                  && (c.kind == Materialise ==>
                        Some(outcome.intent.target) == ServiceOf(r, c.principal, c.service).value.manifest))
  {
    hide ValidManifest, Classify, Additive, Blocked, Unclaimed, RecoveryBlocks, Ready, SupportedState, ValidService;
    var k := (c.principal, c.key);
    BlockedIff(r, c);
    if k in r.claims {
      if r.claims[k].LifecycleRow? {
        assert SoundRow(k, r.claims[k]);
        SameRequest(r.claims[k].intent, c);
      }
    } else {
      var s := ServiceOf(r, c.principal, c.service);
      if s.Some? {
        ReadyIff(s.value, c);
        ReadyManifest(s.value, c);
      }
    }
  }

  lemma {:induction false} ReadyManifest(s: Service, c: Command)
    ensures SupportedState(s, c.kind) ==> s.manifest.Some?
    ensures ValidCommand(c) && c.kind == Evolve ==> c.target.Some?
  {
    hide ValidManifest;
  }

  /** What no completion changes of a service. */
  predicate SameService(s: Service, t: Service) {
    && t.id == s.id && t.principal == s.principal && t.domainName == s.domainName && t.domainClass == s.domainClass
    && t.purpose == s.purpose && t.createdAt == s.createdAt && t.status == s.status
  }

  /** What a completion makes of a service: a materialise gives it its storage and the time,
      and keeps its manifest; an evolve gives it the target manifest, and keeps its storage and
      the time it was materialised. */
  predicate Completes(s: Service, t: Service, c: Completion) {
    && SameService(s, t) && t.revision == s.revision + 1 && t.updatedAt == t.lastActivityAt == c.at >= s.updatedAt
    && t.design == Materialised
    && if c.intent.kind == Materialise
       then t.manifest == s.manifest && t.schemaVersion == s.schemaVersion
            && t.materialisedAt == Some(c.at) && t.storage == Some(c.storage)
       else t.manifest == Some(c.intent.target) && t.schemaVersion == Some(s.schemaVersion.GetOr(0) + 1)
            && t.materialisedAt == s.materialisedAt && t.storage == s.storage
  }

  /** A completion that is not a repetition completes its own service and its own claim, and
      touches no other service and no other claim. */
  lemma {:induction false} CompletionChanges(r: Registry, c: Completion)
    requires Lifecycle.Sound(r) && FinalizeCompleted(r, c).Some? && Stored(r, c.intent).value.intent.phase == Prepared
    requires FinalizeCompleted(r, c).value.1.CompletedClaim?
    ensures var (next, outcome) := FinalizeCompleted(r, c).value;
            var i := c.intent;
            var s := ServiceOf(r, i.principal, i.service);
            && s.Some? && s.value.schemaVersion.Some? && Completes(s.value, outcome.service, c)
            && ServiceOf(next, i.principal, i.service) == Some(outcome.service)
            && next.services.Keys == r.services.Keys && next.claims.Keys == r.claims.Keys
            && (forall k :: k in r.services && k != (i.principal, i.service) ==> next.services[k] == r.services[k])
            && (forall k :: k in r.claims && k != (i.principal, i.key) ==> next.claims[k] == r.claims[k])
            && next.claims[(i.principal, i.key)] == LifecycleRow(i.(phase := Completed), Some(outcome.service))
  {
    hide ValidManifest;
    var i := c.intent;
    assert SoundRow((i.principal, i.key), Stored(r, i).value);
  }

  /** The service is still as it was when the intent was admitted. */
  predicate Unmoved(s: Service, i: Intent) {
    && s.status == Active && s.revision == i.expectedRevision && s.schemaVersion == Some(i.expectedSchema)
    && if i.kind == Materialise then s.design == Seeded && s.manifest == Some(i.target) else s.design == Materialised
  }

  /** A prepared intent is completed exactly when its service has not moved and the clock is
      not behind it; it is marked for recovery exactly when the service is gone or has moved;
      a clock that is behind, and the last revision, are errors that change nothing. */
  lemma {:induction false} CompletionIff(r: Registry, c: Completion)
    requires Lifecycle.Sound(r) && Stored(r, c.intent).Some? && Stored(r, c.intent).value.intent.phase == Prepared
    ensures var done, s := FinalizeCompleted(r, c), ServiceOf(r, c.intent.principal, c.intent.service);
            && (done.Some? && done.value.1.CompletedClaim?
                <==> s.Some? && Unmoved(s.value, c.intent) && s.value.updatedAt <= c.at && s.value.revision < MAX_SERVICE_REVISION)
            && (done.Some? && done.value.1.RecoveryClaim?
                <==> s.None? || (s.value.updatedAt <= c.at && !Unmoved(s.value, c.intent)))
            && (done.Some? ==> done.value.1.CompletedClaim? || done.value.1.RecoveryClaim?)
  {
    hide ValidManifest, TerminalService;
    var i := c.intent;
    assert SoundRow((i.principal, i.key), Stored(r, i).value);
    var s := ServiceOf(r, i.principal, i.service);
    if s.Some? {
      PreconditionsIff(s.value, c);
    }
  }

  lemma {:induction false} PreconditionsIff(s: Service, c: Completion)
    requires ValidService(s) && ValidIntent(c.intent) && s.principal == c.intent.principal && s.id == c.intent.service
    ensures Preconditions(s, c) <==> Unmoved(s, c.intent) && s.updatedAt <= c.at
  {
    hide ValidManifest;
  }
}
