# Verified model of the AIPCS core

This project models the decision logic of AIPCS, a service that keeps schema-described records
for agents, and proves properties of it. Five parts of the program are covered.

1. **The portable bundle format.** A canonical JSON printer and its strict decoder, framed
   lines with digests, an ordered digest state machine, a bounded writer and an independent
   streaming reader (`CanonicalJson`, `JsonParsing`, `JsonRoundTrip`, `Numbers`, `Bundle`,
   `Digests`, `BundleStream`, `BundleLanguage`, `BundleIdentity`), which items are written and
   what for (`BundleWriting`), and the logical payloads on top of it (`PayloadObjects`,
   `Payloads`, `PayloadService`, `PayloadContent`, `ContentWriting`), with the public form of
   manifests (`ManifestCodec`, `ManifestTransfer`).
2. **Schema evolution.** Manifests, their relational projection, the classifier of additive
   transitions and its recomputed delta, which transitions these are (`ManifestEvolution`), and
   cycle detection (`Manifest`, `SampleManifest`, `Relational`, `Transitions`, `Specifications`,
   `Cycles`), with the record validator, what it accepts, and why accepted data survives
   (`Records`, `RecordAcceptance`).
3. **Whole stores.** What makes a list of members well formed, the order of its members, and the
   imperative validator (`PortableStore`, `MemberOrder`, `StoreValidation`).
4. **Lifecycle recovery.** The planner, the registry transactions, the re-observing coordinator
   against an arbitrary environment, runs of many coordinators with crashes, and why the
   coordinators' traces are such runs (`Lifecycle`, `LifecycleRegistry`, `LifecycleCoordinator`,
   `LifecycleRuns`, `LifecycleRefinement`).
5. **Operational transitions and transfer.** Export, replay, import, purge and status changes
   against an arbitrary environment, the snapshot argument behind a closed fence,
   crash-and-retry runs, and why the coordinator's traces are such runs (`Operations`,
   `PortableCoordinator`, `PortableExport`, `FenceRuns`, `FenceRefinement`).

`Ordering` and `Text` hold sorting by key, UTF-8 and the UTF-16 key order.

**Environments.** The coordinators call registries, stores, clocks and streams. They are modelled
as functions from the trace of all earlier calls and answers to the next answer, so every
statement about a coordinator holds for every environment, including peers and storage that
answers falsely. That a coordinator also gets somewhere is stated over traces in which no answer is
lost: `World` describes what the registry and the store hold, `Smooth` that every answer of the
trace is one this world gives, and the result is then determined. Runs of several participants are sequences of atomic steps, with a crash
possible between any two; the refinement modules prove that what the coordinators do, in a
registry and a store whose answers are true, is such a sequence.

**Parameters.** SHA-256, rounding of decimals to binary64, the shortest decimal of a float, the
header constructor, the texts of UUIDs and times and the byte count of `json.dumps` are function
parameters; what is assumed of them is written where it is used (`Bundle.Regular`,
`JsonRoundTrip.Idempotent`, `Payloads.Faithful`, `PayloadContent.GenuineContent`). Nothing is assumed about hash collisions except in
`PortableExport.SameRootSameBody`, which says so. A float is the shortest decimal that stands for
it; integers are bounded where the program bounds them.

Every lemma switches automatic induction off, so each inductive step is written out.

**Properties that fail.** Five statements one might expect are false of the program. Each has a
concrete witness and the exact condition under which it holds.

- A canonical object does not always decode: a whole float outside the signed 64-bit range is
  written as an integer literal the decoder refuses (`JsonRoundTrip.WholeFloatIsLost`; the condition is
  `Decodable` in `JsonRoundTrip.DecodeEncode`).
- A stored record is not always accepted again after export and import: a whole float in a
  `number` field comes back as an integer and must fit in 53 bits (`Records.LargeNumberIsRefused`;
  the condition is in `Records.TransferredRecord`, for whole stores in `StoreValidation.TransferredStore`, and
  for whole bundles in `PayloadContent.LogicalRoundTrip`).
- A manifest does not always survive export and import: a float of an enumeration that is
  printed as an integer comes back as that integer, which may be a member already or beyond 53
  bits (`ManifestTransfer.EnumerationIsRefused`), and is another typed value in any case
  (`ManifestTransfer.EnumerationIsChanged`). It is accepted again if and only if its enumerations are
  portable (`ManifestTransfer.ManifestReadBack`), and unchanged if and only if no such float is in them
  (`ManifestTransfer.ManifestUnchanged`).
- A suspended service may have an open fence without a prepared resume: recovery of the resume is
  marked after its fence was opened, because the clock has gone back or the service could not be
  saved (`FenceRuns.OpenWhileSuspended`), or because a coordinator of another backend retried a
  crashed resume (`FenceRuns.OpenAfterForeignRetry`). The condition, the guards of these three
  branches, is `GivesUp` in `FenceRuns.FenceIff`.
- A terminal lifecycle claim is not immutable: a purge of its service turns a completed claim
  into a tombstone (`LifecycleRuns.PurgeRewritesClaim`). A claim is kept if and only if no such
  purge is finalized, and a claim that requires recovery always is (`LifecycleRuns.EndedIff`).

## Model

| member | source | states |
|---|---|---|
| `Decimals.EncodeIsCanonical` | src/aipcs_mcp/application/portable_codec.py:409-435 | The rewriting of `repr` text (fixed-point and exponent forms) yields one closed canonical number form for every shortest mantissa and exponent |
| `Numbers.PrintedValue` | src/aipcs_mcp/application/portable_codec.py:409-435 | The printed literal of a float, read as a rational by power-of-ten arithmetic, is exactly the value printed |
| `Numbers.LexToken` | src/aipcs_mcp/application/portable_codec.py:60-90 | A well-formed number literal followed by anything that cannot extend it is lexed as exactly that literal |
| `Numbers.IntegralText` | src/aipcs_mcp/application/portable_codec.py:409-432 | A whole float prints the same text as the integer it equals |
| `Numbers.IntegerOfValue` | src/aipcs_mcp/application/portable_codec.py:409-432 | The integer a whole float is read back as equals the float |
| `CanonicalJson.FreezeValue` | src/aipcs_mcp/application/portable_models.py:338-381 | The recursive freezing loops compute the frozen form: domains, depth limit, unique names, UTF-16 key order |
| `CanonicalJson.EncodeString` | src/aipcs_mcp/application/portable_codec.py:388-406 | Appending escaped pieces yields the quoted text; surrogates are refused |
| `CanonicalJson.EscapedIff` | src/aipcs_mcp/application/portable_codec.py:388-406 | A text is printed as itself exactly when it holds no character below 0x20, no quote and no backslash |
| `CanonicalJson.FreezeSound` | src/aipcs_mcp/application/portable_models.py:338-381 | Every frozen value is in the frozen domain and within depth 64 |
| `CanonicalJson.FreezeThaw` | src/aipcs_mcp/application/portable_models.py:338-389 | A frozen value, thawed and frozen again, is itself exactly when the depth limit leaves room |
| `CanonicalJson.FreezeIff` | src/aipcs_mcp/application/portable_models.py:338-381 | A value freezes exactly when its containers are nested at most 64 deep and nowhere in it is a non-finite float, an integer outside 64 bits, a surrogate in a text or name, a name given twice, or a value of another type |
| `CanonicalJson.InsertionOrderIrrelevant` | src/aipcs_mcp/application/portable_codec.py:37-46 | Canonical bytes do not depend on the insertion order of a dict |
| `JsonParsing.RequireBoundedNesting` | src/aipcs_mcp/application/portable_codec.py:438-462 | The scanning loop with its depth, string and escape flags decides the nesting predicate |
| `JsonRoundTrip.ScanIsDepth` | src/aipcs_mcp/application/portable_codec.py:438-462 | On the text of any value the scan accepts exactly container depth 64 or less |
| `JsonRoundTrip.NoLineBreaks` | src/aipcs_mcp/application/portable_codec.py:388-406 | Canonical text is scalar and its bytes hold no newline and no carriage return |
| `JsonRoundTrip.ParseEmit` | src/aipcs_mcp/application/portable_codec.py:49-97 | The JSON parser reads the text of any value, in front of any rest, back as that value with whole floats as integers, or refuses exactly when one is out of range |
| `JsonRoundTrip.DecodeEncode` | src/aipcs_mcp/application/portable_codec.py:37-97 | Decoding the canonical bytes of a frozen object returns it with whole floats as integers, if and only if none is outside 64 bits |
| `JsonRoundTrip.DecodeIffCanonical` | src/aipcs_mcp/application/portable_codec.py:49-97 | Bytes are accepted exactly when they are the canonical encoding of the object returned: one normal form |
| `JsonRoundTrip.EncodingInjective` | src/aipcs_mcp/application/portable_codec.py:37-46 | Two frozen values have equal bytes exactly when they are equal up to whole floats as integers |
| `JsonRoundTrip.WholeFloatIsLost` | src/aipcs_mcp/application/portable_codec.py:68-72 | The float 10^19 is encoded and its encoding is refused by the decoder |
| `Bundle.EncodedFrame` | src/aipcs_mcp/application/portable_codec.py:100-135 | An accepted frame line is the canonical text of one object carrying the digest of its core |
| `Bundle.FrameRoundTrip` | src/aipcs_mcp/application/portable_codec.py:100-160 | Decoding a frame line gives back kind, ordinal and digest, and the payload with whole floats as integers |
| `Bundle.DecodedFrame` | src/aipcs_mcp/application/portable_codec.py:138-160 | Every accepted frame object is the frame object built from its own parts |
| `Digests.OrderedBundleDigests.Add` | src/aipcs_mcp/application/portable_codec.py:245-283 | All checks precede all updates: the object takes the state of the specification or stays as it was; which frames are taken is `BundleWriting.AddFrameIff` |
| `Digests.TrailerIff` | src/aipcs_mcp/application/portable_codec.py:285-307 | From a reachable state exactly one trailer is accepted: the one that tells the count and digest of every section, the digest and length of all lines, once header and service are there and within the byte limit |
| `Digests.AddKeepsConsistent` | src/aipcs_mcp/application/portable_codec.py:221-283 | Every accepted add keeps: dense ordinals, header and service once and first, sections in order, counts summing to the ordinal, audit empty, root input equal to the sections end to end |
| `Digests.TrailerExists` | src/aipcs_mcp/application/portable_codec.py:285-302 | From a reachable state the trailer constructor fails only without a service frame or past the byte limit |
| `Digests.DecodeTrailerJson` | src/aipcs_mcp/application/portable_codec.py:163-218 | The object of a valid trailer decodes to that trailer |
| `Digests.DecodedTrailer` | src/aipcs_mcp/application/portable_codec.py:177-218 | Every accepted trailer object is the object of the trailer it decodes to |
| `BundleStream.ReadsLine` | src/aipcs_mcp/portable_io.py:167-181 | `readline` cuts a canonical line exactly at its end, whatever follows |
| `BundleStream.WrittenIsRead` | src/aipcs_mcp/application/portable_codec.py:315-360 | From any point of a writer run the reader accepts the rest with the same summary and lines |
| `BundleStream.ReadIsWritten` | src/aipcs_mcp/portable_io.py:87-164 | From any point of the reader loop an accepted rest is what the writer emits for its decoded payloads |
| `BundleLanguage.PortableBundleEncoder.Add` | src/aipcs_mcp/application/portable_codec.py:328-342 | The encoder object follows the writer specification and is unchanged when an item is refused; which items are taken, and the line of each, is `BundleWriting.AddIff` |
| `BundleLanguage.PortableBundleEncoder.Finish` | src/aipcs_mcp/application/portable_codec.py:344-360 | Finishing gives the trailer line and summary of the specification, once |
| `BundleLanguage.ValidateAndSpool` | src/aipcs_mcp/portable_io.py:87-164 | The reader loop over an unread byte source decides the language and spools exactly its lines |
| `BundleLanguage.WriterOutputAccepted` | src/aipcs_mcp/portable_io.py:87-164 | Any successful writer run is accepted under the same limit with equal summary and spooled lines |
| `BundleLanguage.AcceptedIsWritten` | src/aipcs_mcp/portable_io.py:87-164 | Any accepted stream is byte for byte what the writer re-emits for its decoded payloads |
| `BundleLanguage.AcceptedIffWritable` | src/aipcs_mcp/portable_io.py:87-164 | The reader accepts exactly the outputs of the writer |
| `BundleLanguage.PrefixFree` | src/aipcs_mcp/portable_io.py:184-190 | No accepted bundle is a proper prefix of an accepted bundle |
| `BundleLanguage.NumberedLines` | src/aipcs_mcp/portable_io.py:113-151 | Line i of an accepted bundle carries ordinal i and only the last line is a trailer |
| `BundleLanguage.TamperingDetected` | src/aipcs_mcp/portable_io.py:113-151 | A stream assembled from lines of an accepted bundle, any of them dropped, repeated or moved, is accepted if and only if it is that bundle; no hash assumption |
| `BundleIdentity.WrittenRoot` | src/aipcs_mcp/application/portable_codec.py:285-302 | The root of a written bundle is the digest of all bytes before the trailer line |
| `BundleIdentity.LimitIrrelevant` | src/aipcs_mcp/application/portable_codec.py:318-360 | A byte limit decides whether a bundle is written, never what is written |
| `BundleWriting.AddFrameIff` | src/aipcs_mcp/application/portable_codec.py:245-283 | From a reachable state a frame on its own line is taken exactly when it is the next one, in its place (header first, service second, no other of either, no audit, sections not falling), and one more frame is allowed |
| `BundleWriting.AddIff` | src/aipcs_mcp/application/portable_codec.py:328-342 | The writer takes an item exactly when, besides, it freezes to a decodable object whose frame fits its line, a header passes its check, and the line fits the limit; the line is the object with the digest of its core |
| `BundleWriting.TrailerFits` | src/aipcs_mcp/application/portable_codec.py:163-174 | The line of a valid trailer never exceeds the frame limit |
| `BundleWriting.WrittenIff` | src/aipcs_mcp/application/portable_codec.py:318-360 | Items are written if and only if they are in their sections, each fits its line and can be read back, and count and total length fit; the output is one line for each and the trailer that tells the number of frames and the digest of each section, told from the items alone |
| `Cycles.DepthFirst.Visit` | src/aipcs_mcp/relational.py:551-567 | The recursive visit terminates; true means a cycle exists, false means the node is finished after all its targets |
| `Cycles.RelationalHasCycle` | src/aipcs_mcp/relational.py:551-567 | The relational check is true exactly when the graph has a directed cycle; otherwise a topological order of all entities exists |
| `Cycles.ManifestHasCycle` | src/aipcs_mcp/manifest_v2.py:342-362 | The manifest check, which groups edges by source first, is true exactly when the edges have a directed cycle |
| `Specifications.ValidateReferences` | src/aipcs_mcp/manifest_v2.py:276-306 | The relationship loop of the manifest validator decides the endpoint rules and acyclicity of required edges |
| `Specifications.ValidateRelationships` | src/aipcs_mcp/relational.py:502-533 | The relationship loop of the specification validator decides endpoint rules, unique sources and acyclicity, and yields a topological order |
| `Specifications.RequiredEdgesAgree` | src/aipcs_mcp/relational.py:505-531 | The required graph of a compiled manifest has exactly the required edges of the manifest |
| `Specifications.CompileIsValid` | src/aipcs_mcp/relational.py:320-353 | Compiling a valid manifest passes every check of the specification constructor |
| `Relational.AdditionsAgree` | src/aipcs_mcp/relational.py:432-482 | The additions recomputed from two compiled specifications are the additions collected while classifying |
| `Relational.ProposedChanges` | src/aipcs_mcp/relational.py:402-413 | The metadata changes are sorted and without duplicates |
| `Relational.BuildNeverRejects` | src/aipcs_mcp/relational.py:280-317 | The transition factory never rejects what the classifier hands it |
| `ManifestEvolution.AllowedIff` | src/aipcs_mcp/relational.py:635-654 | Enumerations of a field may follow each other exactly when both are absent or all values are kept with their types, and the change is reported exactly when the set strictly grew |
| `ManifestEvolution.EntitiesIff` | src/aipcs_mcp/relational.py:378-400 | All entities pass exactly when each is still there under its name with its fields in place, unchanged in type, requirement and key, and only optional fields after them; the reported changes are exactly the differences |
| `ManifestEvolution.ClassifiedIff` | src/aipcs_mcp/relational.py:356-429 | A manifest may follow another if and only if it is an additive change of it (stated by names and sets, without the classifier), and the metadata changes of the transition are exactly the differences of the two |
| `Transitions.ClassifyTransition` | src/aipcs_mcp/relational.py:356-429 | The classifier with its shared, appended lists computes the specified transition or error; which pairs are accepted is `ManifestEvolution.ClassifiedIff` |
| `Transitions.AppendEntityChanges` | src/aipcs_mcp/relational.py:378-400 | The attribute loops of one entity append exactly its changes and new fields |
| `Transitions.AppendAttributeChange` | src/aipcs_mcp/relational.py:615-654 | One attribute pair appends its changes or is refused; which pairs and changes is `ManifestEvolution.AllowedIff` and `ManifestEvolution.ClassifiedIff` |
| `Transitions.DeltaIsLossless` | src/aipcs_mcp/relational.py:402-429 | The current specification plus the accepted additions, sorted again, is the target specification |
| `Records.FreezeRecordStable` | src/aipcs_mcp/records.py:110-141 | A frozen record object is its own frozen form |
| `RecordAcceptance.AcceptedIff` | src/aipcs_mcp/records.py:371-403 | A record or update is accepted under a manifest if and only if its entity is there, required fields are given, every name is a field of the entity and none of the server, every value has its type and is in its enumeration, and texts and size fit; the result is the given values in the order of names |
| `Records.DomainEvolves` | src/aipcs_mcp/relational.py:378-400 | An accepted transition keeps the type and requirement of every field, only widens enumerations and adds only optional fields |
| `Records.RecordSurvives` | src/aipcs_mcp/records.py:371-403 | A record or update accepted under a manifest is accepted with the same value after any accepted transition |
| `Records.RecordSurvivesChain` | src/aipcs_mcp/records.py:371-403 | The same over any chain of accepted transitions |
| `Records.TransferredRecord` | src/aipcs_mcp/records.py:1215-1262 | A stored record passes again after export and import exactly when its whole floats fit 53 bits and it stays within the size bound |
| `Records.LargeNumberIsRefused` | src/aipcs_mcp/numeric_domain.py:24-29 | Under a concrete valid manifest the number 10^17 is accepted, decodes, and is refused on import |
| `PortableStore.EventsAscend` | src/aipcs_mcp/application/portable_store.py:174-197 | In canonical order the events of one record come in strictly rising versions |
| `PortableStore.HistoriesIff` | src/aipcs_mcp/application/portable_store.py:205-220 | The grouped history checks hold exactly when every event and every live record fits its neighbours |
| `PortableStore.WalkParents` | src/aipcs_mcp/application/portable_store.py:222-231 | The parent walk terminates and succeeds exactly when the chain reaches a root |
| `PortableStore.ForestIff` | src/aipcs_mcp/application/portable_store.py:222-231 | Every walk reaches a root exactly when the branches form a forest with a falling rank |
| `MemberOrder.SortedIff` | src/aipcs_mcp/application/portable_store.py:138-158 | Strict order by sort key is: bundle sections in order; records by entity name and id, events also by version, branches by id, memberships by branch, entity name, id, the primary one first |
| `MemberOrder.WellFormedIff` | src/aipcs_mcp/application/portable_store.py:161-253 | A store is well formed exactly when its members are in that order, fit the manifest, have whole histories, and form a forest with memberships of what exists |
| `StoreValidation.OrderIff` | src/aipcs_mcp/application/portable_store.py:174-176 | Sorted keys without repetition are strict order; what that order is, is `MemberOrder.SortedIff` |
| `StoreValidation.CheckHistories` | src/aipcs_mcp/application/portable_store.py:205-220 | The loop over the histories dictionary decides all history checks |
| `StoreValidation.CheckMemberships` | src/aipcs_mcp/application/portable_store.py:233-250 | The membership loop decides existing ends, unique relationships and at most one primary branch for a record |
| `StoreValidation.ValidatePortableMembers` | src/aipcs_mcp/application/portable_store.py:161-253 | The validator accepts exactly the well-formed stores, which `MemberOrder.WellFormedIff` tells without sort keys |
| `StoreValidation.StoreSurvives` | src/aipcs_mcp/application/portable_store.py:161-253 | A well-formed store stays well formed under an accepted transition |
| `StoreValidation.StoreSurvivesChain` | src/aipcs_mcp/relational.py:356-429 | The same over any chain of accepted transitions |
| `StoreValidation.TransferredStore` | src/aipcs_mcp/application/portable_store.py:161-253 | A well-formed store is well formed after export and import exactly when every object has exact whole floats within the size bound |
| `Lifecycle.AdmitKeepsSound` | src/aipcs_mcp/storage/sqlite/uow.py:321-368 | Admission keeps the registry sound, with at most one unended claim for a service |
| `Lifecycle.CompleteKeepsSound` | src/aipcs_mcp/storage/sqlite/uow.py:370-406 | Completion keeps it sound and yields a valid terminal claim or recovery |
| `Lifecycle.RecoverKeepsSound` | src/aipcs_mcp/storage/sqlite/uow.py:408-417 | Marking recovery keeps it sound |
| `LifecycleRegistry.AdmittedIff` | src/aipcs_mcp/storage/sqlite/uow.py:321-368 | A command is admitted if and only if its key is unused, the service is at the expected revision and schema version in a state that allows it, no claim on it is open or in recovery, and an evolution is additive; the registry then has that one claim more, and a prepared claim is otherwise answered only for the same unended request |
| `LifecycleRegistry.CompletionIff` | src/aipcs_mcp/storage/sqlite/uow.py:370-406 | A prepared intent is completed exactly when its service has not moved, the clock is not behind and a revision is left; marked for recovery exactly when the service is gone or has moved; otherwise an error |
| `LifecycleRegistry.CompletionChanges` | src/aipcs_mcp/storage/sqlite/uow.py:539-562 | A completion touches no other service and no other claim; a materialise keeps the manifest and sets storage and time, an evolve sets the manifest and keeps storage and materialisation time |
| `LifecycleCoordinator.ObserveFoundation` | src/aipcs_mcp/lifecycle_coordinator.py:316-397 | An exact state is the last answered status, and ready is observed exactly when the last answer is ready; after a transient journal only ready, busy or uncertain can be observed |
| `LifecycleCoordinator.ObserveDomain` | src/aipcs_mcp/lifecycle_coordinator.py:399-441 | An exact schema state is an answer to an inspection of that schema in the pass, and an inspection answered last is what is observed |
| `LifecycleCoordinator.Observe` | src/aipcs_mcp/lifecycle_coordinator.py:276-314 | Every exact part of an observation is backed by an answer of its own pass |
| `LifecycleCoordinator.PlanJustified` | src/aipcs_mcp/lifecycle.py:534-598 | A finalize or recovery plan is justified by the answers of its pass; a foundation beyond repair was read first, not after a transient journal |
| `LifecycleCoordinator.ApplyAction` | src/aipcs_mcp/lifecycle_coordinator.py:443-468 | One physical call; its failures are busy, uncertain or internal, never unavailable |
| `LifecycleCoordinator.TerminalWrite` | src/aipcs_mcp/lifecycle_coordinator.py:493-518 | A completed or recovery result was answered, committed and closed; storage failures are uncertain; where no call fails the write is made |
| `LifecycleCoordinator.AdmitCommand` | src/aipcs_mcp/lifecycle_coordinator.py:192-237 | An intent leaves admission only after its commit, with the source that the registry answered to the one request for it; a replayed result is the registry answer |
| `LifecycleCoordinator.Locate` | src/aipcs_mcp/lifecycle_coordinator.py:239-259 | A locator is scoped to the service and, for an evolution, is the one stored with it |
| `LifecycleCoordinator.Reconcile` | src/aipcs_mcp/lifecycle_coordinator.py:109-190 | The loop ends with at most three actions and four passes, each schema action at most once; every terminal write comes at the end of a pass that justifies it, and transient or dirty observations never justify recovery; where no call fails it tries exactly the actions that the store lacks and completes, or ends in recovery when the store is beyond repair |
| `LifecycleCoordinator.Execute` | src/aipcs_mcp/lifecycle_coordinator.py:87-190 | Against any environment: bounds; completion only after ready and ready; recovery only after a pass that read a store beyond repair, never on transient or dirty observations alone, or, before any pass, when no service was answered that matches the intent; no storage-unavailable after the first action; completed means committed. Progress: where no call fails, a matching intent is completed by exactly the actions that its store lacks (prepare the foundation, then the one schema action), or ends in recovery if the store is beyond repair; a source that does not match ends in recovery before any action |
| `LifecycleRuns.StepKeeps` | src/aipcs_mcp/storage/sqlite/uow.py:321-417 | Every step of every participant keeps the registry sound and every completed claim backed by a store that reached its target |
| `LifecycleRuns.EndedIff` | src/aipcs_mcp/storage/sqlite/uow.py:767-824 | Over any run an ended lifecycle claim keeps phase, intent and result if and only if no purge of its service is finalized; one that requires recovery is always kept |
| `LifecycleRuns.PurgeRewritesClaim` | src/aipcs_mcp/storage/sqlite/uow.py:793-798 | The failing run: the purge of an archived service rewrites the completed claim of its materialisation |
| `LifecycleRuns.MoveIs` | src/aipcs_mcp/storage/sqlite/uow.py:382-406 | The step that moves a service for a claim takes it from the expected revision to the next one and stores that service as the result |
| `LifecycleRuns.MovesOnce` | src/aipcs_mcp/storage/sqlite/uow.py:370-406 | A claim moves its service at most once in any run with crashes, retries and races |
| `LifecycleRuns.RevisionRises` | src/aipcs_mcp/storage/sqlite/uow.py:243-269 | Over any run the revision of an existing service never falls and rises by at most one a step; a purged identity never returns |
| `LifecycleRuns.CompletedIsBacked` | src/aipcs_mcp/lifecycle_coordinator.py:470-482 | Anywhere in a run a completed claim has its terminal snapshot one revision up and its store has had the target layout |
| `LifecycleRefinement.CoordinatorsRefine` | src/aipcs_mcp/lifecycle_coordinator.py:87-190 | Any number of coordinators, complete or crashed, in a system that is truthful when it says ready, do a run: that a target was read before its completion follows from what `execute` writes |
| `LifecycleRefinement.CompletedInHistory` | src/aipcs_mcp/lifecycle_coordinator.py:470-482 | So the previous statement holds of what coordinators do, without any condition on their completing steps |
| `PayloadObjects.PayloadReadBack` | src/aipcs_mcp/application/portable.py:137-231 | A closed object written, frozen and decoded yields its values under exactly its names |
| `PayloadObjects.FrozenIsSound` | src/aipcs_mcp/application/portable_models.py:338-381 | An orderly value that can be frozen is its own frozen form |
| `Payloads.MemberBack` | src/aipcs_mcp/application/portable.py:353-439 | Decoding the canonical payload of a member gives the transferred member or refuses it, and never refuses a portable one |
| `PayloadService.MemberOrderly` | src/aipcs_mcp/application/portable.py:186-231 | The payload of a member that fits a valid manifest is an object in canonical order |
| `ManifestCodec.ParsedBack` | src/aipcs_mcp/application/portable.py:158-162 | The public form of any manifest reads back as that manifest with every float that is printed as an integer become the integer |
| `ManifestTransfer.ManifestTransfers` | src/aipcs_mcp/manifest_v2.py:77-101 | A valid manifest so changed passes all its checks again exactly when every such float fits 53 bits and meets no equal member |
| `ManifestTransfer.ManifestReadBack` | src/aipcs_mcp/application/portable.py:312-313 | Dumping and validating again gives the changed manifest, or is refused exactly when an enumeration is not portable |
| `ManifestTransfer.ManifestUnchanged` | src/aipcs_mcp/manifest_v2.py:60-82 | It comes back as itself exactly when no float of an enumeration is printed as an integer |
| `ManifestTransfer.EnumerationIsRefused` | src/aipcs_mcp/manifest_v2.py:80-89 | Two valid manifests whose import is refused: members 1 and 1.0, and the member 10^17 |
| `ManifestTransfer.EnumerationIsChanged` | src/aipcs_mcp/manifest_v2.py:60-82 | A valid manifest that comes back as another one: the lone member 1.0 |
| `ManifestTransfer.StoreTransferred` | src/aipcs_mcp/application/portable_store.py:161-253 | The same stores are well formed under a manifest and under the one it comes back as |
| `PayloadService.ServiceBack` | src/aipcs_mcp/application/portable.py:276-350 | A written service decodes to itself on its destination, its manifest so changed, with the same fence; it is refused exactly when an enumeration is not portable |
| `PayloadContent.CollectContent` | src/aipcs_mcp/application/portable.py:244-264 | The collecting loop over lines gathers one service and the members in order, or fails |
| `PayloadContent.WrittenFrames` | src/aipcs_mcp/application/portable.py:244-252 | The lines of a writer run decode to one frame for each item, in order |
| `PayloadContent.LogicalRoundTrip` | src/aipcs_mcp/application/portable.py:234-270 | A seeded service, or a materialised one with its store, exported and decoded, gives the same service on the destination, the same fence and the same members, whole floats as integers, exactly when every enumeration and every member is portable |
| `ContentWriting.ContentEncodes` | src/aipcs_mcp/application/portable.py:137-162 | A valid content is encoded exactly when the texts of its service have the form a bundle asks for |
| `ContentWriting.ContentIsWritten` | src/aipcs_mcp/portable_coordinator.py:548-576 | A seeded service, or a materialised one with a well-formed store, is written if and only if every frame fits its line and can be read back and all bytes fit the limit: neither order nor number of members is ever refused |
| `Operations.ClosedFenceFreezes` | src/aipcs_mcp/portable_coordinator.py:164-198 | While the same closed fence is read at both ends nothing was written in between, whoever else was at work |
| `PortableCoordinator.Admit` | src/aipcs_mcp/portable_coordinator.py:481-514 | Admission touches neither store nor destination nor terminal state, and where no call fails it hands on what the registry admitted |
| `PortableCoordinator.EndOperation` | src/aipcs_mcp/portable_coordinator.py:611-642 | At most one terminal write; a completed result was answered and committed; after physical work unavailability is uncertainty; where no call fails the result is what the registry stored |
| `PortableCoordinator.RecoverNow` | src/aipcs_mcp/portable_coordinator.py:599-609 | Recovery makes no other terminal write than the recovery mark |
| `PortableCoordinator.ChangeStatus` | src/aipcs_mcp/portable_coordinator.py:336-378 | A status change is finalized only for an allowed transition and only after the store answered with the fence in the wanted state; recovery is marked only for a transition that is not allowed, a store of another backend, or a fence the store itself reports elsewhere; every call follows the protocol. Where nothing is lost a change that may be made is completed and any other is marked |
| `PortableCoordinator.PurgeService` | src/aipcs_mcp/portable_coordinator.py:380-416 | The tombstone is requested only after the last store answer was absence, and only for an archived service; the store of an archived service of this backend is asked to purge before anything else, no other store is asked anything, and if it shows that it is gone and nothing else fails the purge completes |
| `PortableCoordinator.ImportContent` | src/aipcs_mcp/portable_coordinator.py:418-479 | A service is published only after the last store answer confirmed exactly its members and fence, with an import receipt; staging is asked for first; if the store shows the content and nothing else fails the import completes with that service |
| `PortableExport.ReadMembers` | src/aipcs_mcp/portable_coordinator.py:169-181 | Members are read behind a closed fence and are a well-formed store |
| `PortableExport.VerifyExport` | src/aipcs_mcp/portable_coordinator.py:516-546 | It lets the export go on only when the fence was read again unchanged |
| `PortableExport.WriteLines` | src/aipcs_mcp/portable_coordinator.py:719-726 | The destination receives a prefix of the lines, and all of them on success |
| `PortableExport.ExportAdmitted` | src/aipcs_mcp/portable_coordinator.py:162-222 | A completed receipt names the bundle of a snapshot behind a fence read twice; lines are written only for a completed receipt with the same root, and a written artifact is exactly the bundle of the service, fence and members that were read. Where nothing is lost a service that can be exported and encoded is exported whole |
| `PortableExport.ReplayExport` | src/aipcs_mcp/portable_coordinator.py:224-285 | A replay writes exactly the bundle of what it read, and it does so if what it read is what the receipt was made from and no call fails; it writes no terminal state |
| `PortableExport.ExportService` | src/aipcs_mcp/portable_coordinator.py:141-222 | Whenever the artifact is reported as written, the digest of the bytes before the trailer line is the root of the receipt, and the output is the bundle of what was read; where nothing is lost an export of a service that can be exported and encoded is written |
| `PortableExport.ReplayRepeats` | src/aipcs_mcp/portable_coordinator.py:197-285 | Two runs, under any byte limits: an export that wrote, and a replay of the receipt the registry kept, answered the same service, fence and members. Output is byte-identical if the time was kept, and before the trailer in any case unless SHA-256 collides; if all but the id was kept the replay writes unless its limit is too small or a call fails |
| `PortableExport.SameRootSameBody` | src/aipcs_mcp/portable_coordinator.py:273-275 | Even on a changed store a replay writes the exported bytes unless SHA-256 collides on them |
| `PortableExport.ExportIsConsistent` | src/aipcs_mcp/portable_coordinator.py:164-198 | Under arbitrary interleaving a completed export encodes exactly the members held at the second fence read, and at every moment since the first, for a service with the receipt's identity, revision and status |
| `FenceRuns.StepKeeps` | src/aipcs_mcp/portable_coordinator.py:336-378 | Each step keeps the fence statement exactly when it does not give up a resume over an open fence |
| `FenceRuns.ResolvedIff` | src/aipcs_mcp/storage/sqlite/uow.py:597-650 | An operation is admitted exactly when it was prepared before under its key, or the key is new, nothing is unended, the revision is expected and the status allows it |
| `FenceRuns.ChangeCompletes` | src/aipcs_mcp/storage/sqlite/uow.py:652-680 | From any world where it may be admitted, an undisturbed status change is three steps that end in the target status, one revision up, the fence open exactly if active, the claim completed and nothing else changed |
| `FenceRuns.FenceIff` | src/aipcs_mcp/storage/sqlite/uow.py:651-679 | Over any run: a suspended or archived service has a closed fence unless a resume is prepared, if and only if no resume was finalized with a clock behind or a failed save, nor marked for recovery by a retry that finds the fence open; afterwards the resume stays in recovery |
| `FenceRuns.OpenWhileSuspended` | src/aipcs_mcp/storage/sqlite/uow.py:661-678 | Two failing runs: resume admitted, fence opened, then the clock one tick back or the save refused |
| `FenceRuns.OpenAfterForeignRetry` | src/aipcs_mcp/portable_coordinator.py:353-355 | The third: resume admitted, fence opened, crash, and the same key retried by a coordinator of another backend |
| `FenceRefinement.StatusRefines` | src/aipcs_mcp/portable_coordinator.py:336-378 | What a status change does to a truthful registry and store, wherever it stops or crashes, is a path of these steps, one of which gives up a resume exactly when the execution abandoned its own |
| `FenceRefinement.ExecutionsRefine` | src/aipcs_mcp/portable_coordinator.py:336-378 | Over any sequence of status changes, retries, crashes, exports and other saves: a suspended or archived service has a closed fence unless a resume is prepared, if and only if no execution abandoned a resume over an open fence |

## Left out

- Payloads.Faithful: UUID texts, time texts, the shortest decimals of floats and the text checks of value constructors are parameters; that the identifiers, floats and times of a value read back is assumed, of times only for those that are written.
- ManifestCodec.LoadManifest: reads objects with exactly the names that `model_dump` writes; defaults for absent names, lax conversions and stripping of white space, which the dump of a validated manifest never needs, are not modelled.
- Relational.BuildNeverRejects: descriptions, discovery facets and query patterns enter only as compared values; their length and reference checks are not modelled.
- LifecycleCoordinator.Execute: cleanup calls whose answers the program ignores (rollback and close after a failure) are not events of the trace.
- LifecycleRuns.StepKeeps: assumes of the store that materialising changes only an empty store and evolving only one at the source layout, as the SQLite adapter does, and that other operations save by compare-and-swap.
- FenceRuns.FenceIff: assumes one live executor of the service at a time and that no other operation saves the service while a claim is unended; purge, which ends the service, is not a step.
- FenceRefinement.ExecutionsRefine: executions of one materialised service follow each other, as in `FenceRuns`; exports and saves of other operations enter as steps; that the answers are true of the registry and the store, and that an admission whose commit was answered took place, is its hypothesis.
- LifecycleRefinement.CoordinatorsRefine: that an inspection answering ready is truthful when it is answered is its hypothesis; the other answers may be anything.
- Operations.Timeline: a store is neither purged nor staged again within a timeline, which would reset the fence generation; a purge is not admitted while an export is prepared, and a purged identity is never staged again.
- Bundle.Regular: SHA-256, its empty digest, binary64 rounding and the header constructor are parameters; only the shape of digests and idempotence of rounding are assumed.
- Fingerprints are compared as the requests they hash.
- `json.loads` is modelled as a parser with its hooks; text that needs surrogate pairs in escapes is handled, positions in error messages are not.
- The record specification keeps entities and fields; facets, relationships, filters and queries of `records.py` are checks of one branch each.
- Temporary directories, permissions, descriptors and the cleanup of the spool in `portable_io.py`: only the byte stream and the spooled lines remain.
- The SQLite and PostgreSQL adapters, migrations, SQL, the MCP transport, the HTTP server, the command line, configuration and the import of legacy manifests are not part of this model.
- Audit events, receipts tables and identity reservations of the registry are not modelled beyond what a claim and its result say.
