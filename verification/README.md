# Aerial rescue: a verified model of its protocols

A Dafny model of the parts of the system whose correctness rests on something that must hold for every input, every
run or every interleaving:

- **Canonical JSON** (`Ordering`, `Unicode`, `Canonical`, `JsonGrammar`, `CanonicalScan`, `CanonicalRoundTrip`,
  `CanonicalInjective`, `CanonicalDigest`, `CanonicalHeap`). The printer, the raw-text scanner, the decoder and the
  domain-separated digests. Printer and decoder undo each other, the printed bytes identify the value, and the
  cycle guard on object graphs is exact. Escaping and member order follow sections 3.2.2.2 and 3.2.3 of RFC 8785,
  the grammar RFC 8259.
- **Mission state** (`Reducer`, `Delivery`, `LastWriter`, `Timeline`, `FrameReducer`, `Replay`, `ProposalBinding`).
  The fold over an ordered event log under loss, repetition and reordering, the second reducer that should simulate
  the first, the replay index, and the operator's binding of proposal, evidence and approval.
- **The source session** (`SessionModel`, `SessionProperties`, `SessionGuards`, `SourceSession`, `LiveSource`). The
  serial asynchronous session as a state machine with a step boundary at every `await`, the object that implements
  it, and the live stream adapter.
- **Schema rewriting** (`Schema`, `SchemaRewrite`, `SchemaPasses`, `SchemaEventUnion`, `SchemaEventExample`). The generator's passes as
  rewrites that accept the same instances, under the semantics of JSON Schema Core 2020-12.
- **Broker reading and monitoring** (`LineReader`, `EventMonitor`, `RetainedLog`, `RetainedLines`, `RotationLoss`,
  `RequestPacer`, `QueueHealth`, `QueueMonitor`). The bounded line reader and the monitoring loop over any source of
  chunks, the rotation-following source, the two together, and the rate bounds.
- **Affected-test selection** (`AffectedTests`).

Unicode normalisation, SHA-256, the generated schema validators, time instants and clock readings are parameters.
A hypothesis on one of them is written out where it is used: `IsNormalization` (normalisation is idempotent, keeps
strings scalar and leaves ASCII alone), `DigestsFormed` (digests are 64 lower-case hexadecimal digits), and in `DigestIdentifies` that
the hash does not collide on the two inputs at hand.

## Where the code does not meet a property

Each is kept as the code has it, shown by an input, and delimited exactly.

- The factoring pass overwrites an `allOf` beside the union it factors (`SiblingAllOfIsLost`); meaning survives
  exactly when that `allOf` adds nothing to the rest (`FactorKeepsExactly`).
- The event-schema pass overwrites `type`, `required`, `properties`, `additionalProperties` and `oneOf` beside the
  union and drops siblings of the references (`OverwrittenSiblingIsLost`, `OverwrittenSiblingExample`). It never refuses more than before
  (`EventUnionOnlyWidens`), and keeps the meaning exactly when what it drops adds nothing (`EventUnionKeepsExactly`).
- The reference pass does not tell keywords from values: a `const` that looks like a reference with siblings is
  rewritten and no longer accepts its own value (`ConstIsRewritten`). `NormalizeKeepsMeaning` asks that the values of
  keywords that hold no schemas contain nothing the pass rewrites.
- The runtime reducer applies frames the domain reducer refuses, and can reach a state that is no longer an anchor: an
  assignment to an unknown member (`DivergenceExample`), or an assigned sector without an assignee, which the frame
  schema lets through (`UnassignedDivergence`). `RuntimeDivergesExactly` says when the two disagree.
- A disposed session can still publish, and then shows a connected status (`DisposedShownConnected`,
  `DisposedFromStart`); `DisposedPublishesExactly` says when it publishes, `DisposedShowsExactly` when it is shown as
  something other than disposed.
- A run expected while a snapshot of another run is being anchored is forgotten without being confirmed
  (`OvertakenExpectation`, `OvertakenFromStart`); `ExpectationKeptExactly` says when the expectation survives every
  continuation.
- A runtime anchored while a snapshot of another runtime is being anchored is silently replaced (`RuntimeReplaced`,
  `ReplacedFromStart`); `RuntimeKeptExactly` says when an accepted runtime survives every continuation.
- A consumer that disposes while being told of a disconnection leaves the offline timer set (`TimerLeftExample`);
  `TimerLeftExactly` says which runs end that way, and `SilentAfterDispose` that nothing comes of it.
- `readline` with a limit below the pending fragment hands out a chunk over the limit (`SmallerLimitOverruns`);
  `OverrunExactly` says which calls do. With a limit equal to the fragment it reads nothing and, on a log that is only
  appended to, goes round for ever although bytes are available (`EqualLimitStalls`, `StallReached`);
  `EqualLimitReadsNothing` says what ends such a call, and `TurnReadsExactly` and `CallReadsExactly` that no other
  limit passes over available bytes.
- A rename rotation loses what is appended to the old file between its last read and the look at the path
  (`RotationLosesExactly`), and a rotation or truncation in the middle of a line makes two lines of it
  (`BrokenLineIsTwo`); `LogPiecesExactly` says when the monitor sees exactly the lines of the log.
- A queue poll reads again before its interval has passed when every earlier read let an unexpected exception
  escape, the pacer's own clock refusal for one (`EarlyReadExample`, `PollReadsExactly`); and after such an escape a
  poll returns a snapshot older than the interval (`RepeatedSnapshotFreshExactly`).
- The test selector's documentation says it never under-selects. It widens only for changed files and follows only the
  names it finds, so an unchanged file that does not parse (`UnparsedHidesTest`), a module name shared by two unchanged
  files (`SharedNameHidesTest`), and a package initialiser that an import of a module below it runs without naming it
  (`PackageHidesTest`) hide affected tests. `SelectsAffectedExactly` says when no affected test is missed, whatever the
  unparsed files import; `ClosureCompleteExactly` the same for all files; and `PlainProjectComplete` gives a condition
  on the project alone. Imports are the statements in the sources: dynamic imports are not part of this model.

## Model

| member | source | states |
|---|---|---|
| `Canonical.EncodePrintsCanon` | apps/dashboard/src/domain/canonical.ts:107-236 | the encoder succeeds exactly on accepted values and prints the canonical form: strings normalised, members sorted, no negative zero |
| `CanonicalScan.JsonStringToken` | apps/dashboard/src/contracts/bootstrap.ts:63-72 | the loop stops at the quote that ends the string JSON.parse reads there, and the token alone decodes to the same string |
| `CanonicalScan.ScanExact` | apps/dashboard/src/contracts/bootstrap.ts:74-110 | for every text that parses, the scan ends and refuses exactly the trees outside the profile: bad strings, keys or numbers, repeated member names at any depth |
| `CanonicalScan.ScanCanonicalJson` | apps/dashboard/src/contracts/bootstrap.ts:74-110 | the index loop with its stack of member sets returns true exactly on those texts |
| `CanonicalRoundTrip.CanonIsCanonical` | apps/dashboard/src/domain/canonical.ts:107-236 | the canonical form of an accepted value has normalised strings, strictly increasing keys and safe integers throughout |
| `CanonicalRoundTrip.CanonFixed` | apps/dashboard/src/domain/canonical.ts:107-236 | canonicalising such a value changes nothing |
| `CanonicalRoundTrip.CanonIdempotent` | apps/dashboard/src/domain/canonical.ts:107-236 | so canonicalising twice is canonicalising once |
| `CanonicalRoundTrip.ParsePrint` | apps/dashboard/src/domain/canonical.ts:84-236 | the grammar of RFC 8259 reads printed canonical text back to its tree and leaves what follows, whatever that is, unless the tree is a number and what follows would continue it |
| `CanonicalRoundTrip.DecodeEncode` | apps/dashboard/src/contracts/bootstrap.ts:112-125 | the canonical text of every accepted value passes the scan and decodes to that value in canonical form |
| `CanonicalRoundTrip.ProfileAccepted` | apps/dashboard/src/contracts/bootstrap.ts:40-61 | every tree in the profile becomes a value the encoder accepts, with distinct keys |
| `CanonicalRoundTrip.DecodedEncodes` | apps/dashboard/src/contracts/bootstrap.ts:112-125 | every text the decoder accepts decodes to a value the encoder never refuses, and re-encoding it decodes to its canonical form |
| `CanonicalInjective.SameCanon` | apps/dashboard/src/domain/canonical.ts:135-236 | two values have one canonical form exactly when they are the same up to member order, normalisation and the sign of zero |
| `CanonicalInjective.EncodeInjective` | apps/dashboard/src/domain/canonical.ts:212-236 | accepted values have equal text exactly when they are the same in that sense |
| `CanonicalInjective.CanonicalBytesInjective` | apps/dashboard/src/domain/canonical.ts:238-240 | the same for UTF-8 bytes, since printed text is scalar and UTF-8 is injective on scalar text |
| `Unicode.Utf8Injective` | apps/dashboard/src/domain/canonical.ts:238-240 | UTF-8 loses nothing on scalar strings |
| `CanonicalDigest.DigestCoveredDocument` | apps/dashboard/src/domain/canonical.ts:242-270 | the loop keeps every member but `digest` in order and refuses a non-object or a version other than 1 |
| `CanonicalDigest.DigestMaterialInjective` | apps/dashboard/src/domain/canonical.ts:272-279 | digest material is equal exactly for equal contexts and the same covered document |
| `CanonicalDigest.DigestIdentifies` | apps/dashboard/src/domain/canonical.ts:281-288 | where the hash does not collide, digests are equal exactly for equal contexts and the same covered document |
| `CanonicalDigest.HexadecimalForm` | apps/dashboard/src/domain/canonical.ts:281-283 | the rendering has two lower-case hexadecimal digits a byte |
| `CanonicalDigest.DigestMatches` | apps/dashboard/src/domain/canonical.ts:304-318 | the branch-free comparison is equality on well-formed digests and a form refusal on anything else |
| `CanonicalHeap.EncodeItemUnfolds` | apps/dashboard/src/domain/canonical.ts:176-236 | an object graph that unfolds to a finite value encodes as that value, sharing included, whatever is being encoded around it |
| `CanonicalHeap.AcceptedUnfolds` | apps/dashboard/src/domain/canonical.ts:176-200 | a graph the encoder accepts unfolds to a finite value |
| `CanonicalHeap.GraphEncoding` | apps/dashboard/src/domain/canonical.ts:176-240 | the encoder accepts a graph exactly when it unfolds to an accepted value; it reports a cycle only for a graph with a path that comes back to a container on it, and no such graph unfolds |
| `CanonicalHeap.CycleFound` | apps/dashboard/src/domain/canonical.ts:176-200 | from a cycle refusal anywhere inside a graph, such a path, which continues the containers being encoded |
| `Reducer.IdentifierOrder` | apps/dashboard/src/domain/reducer.ts:244-259 | the byte comparison loop is the lexicographic order, with zero exactly on equality |
| `Reducer.IdentifiersAreSortedAndUnique` | apps/dashboard/src/domain/reducer.ts:269-284 | true exactly on strictly increasing identifiers |
| `Reducer.DuplicateIdentifier` | apps/dashboard/src/domain/reducer.ts:204-213 | none exactly when all differ, otherwise the first identifier seen before |
| `Reducer.InitializePrepared` | apps/dashboard/src/domain/reducer.ts:152-202 | a prepared mission anchors exactly when no member and no sector repeats; fleet and sectors are permutations of the prepared ones and the result is an anchor |
| `Reducer.FinalizeIsIdentity` | apps/dashboard/src/domain/reducer.ts:261-311 | the final re-sort changes nothing but the ordinal on a canonical state |
| `Reducer.FoldKeepsAnchor` | apps/dashboard/src/domain/reducer.ts:577-684 | a refusal or duplicate keeps the checkpoint; an applied event yields an anchor again, of the same fleet, participation, sectors and mission, one ordinal on, witnessed by the event's digest |
| `Delivery.DeliveryConverges` | apps/dashboard/src/domain/reducer.ts:639-684 | any delivery of a log's events, with losses, repeats and reordering, leaves the direct fold of some prefix; the whole log, if it contains the log in order and every entry is acceptable |
| `Delivery.VerifiedDeliveryConverges` | apps/dashboard/src/domain/reducer.ts:686-703 | the same for frames folded against server state digests |
| `Delivery.ReachableAnchors` | apps/dashboard/src/domain/reducer.ts:113-136 | every checkpoint reached from an anchor by any folds passes the anchor check, keeps fleet ids, participation, sector ids and mission identity, and its ordinal never falls |
| `Delivery.VerifiedReachableAnchors` | apps/dashboard/src/domain/reducer.ts:686-703 | the same for frames folded against server state digests |
| `LastWriter.DirectIsProjection` | apps/dashboard/src/domain/reducer.ts:483-637 | after a direct fold, each simulated member's telemetry and connectivity, each sector's state and assignee and the lifecycle are those of the last event naming them, else the anchor's |
| `LastWriter.DeliveredStateIsProjection` | apps/dashboard/src/domain/reducer.ts:483-684 | the same for whatever prefix an arbitrary delivery leaves |
| `Timeline.OrderedUniqueByLoop` | apps/dashboard/src/domain/timeline.ts:9-20 | the filter with its set of seen ordinals is the specification of the next row |
| `Timeline.OrderedUniqueExact` | apps/dashboard/src/domain/timeline.ts:9-20 | ordinals strictly increase, and each ordinal keeps the first event that had it |
| `Timeline.AppendAllIsReplace` | apps/dashboard/src/domain/timeline.ts:22-39 | appending events one at a time gives the timeline a snapshot of all of them would |
| `FrameReducer.UpdatesAgree` | apps/dashboard/src/runtime/dashboard-reducer.ts:31-138 | on canonical states the runtime updates equal the domain's, and go further only for a refused assignee |
| `FrameReducer.RuntimeSimulatesDomain` | apps/dashboard/src/runtime/dashboard-reducer.ts:121-201 | whenever the verified domain fold accepts, the frame reducer reaches the same state and event digest, or reports only a full timeline |
| `FrameReducer.RuntimeDivergesExactly` | apps/dashboard/src/runtime/dashboard-reducer.ts:99-201 | from an anchor, a frame it applies is refused by the domain exactly when the event fails the domain boundary check, repeats the ordinal with another state digest, or assigns a sector to somebody not simulated |
| `FrameReducer.DivergenceExample` | apps/dashboard/src/runtime/dashboard-reducer.ts:99-119 | a well-formed frame that it applies, the domain refuses for its assignee, and that leaves no anchor |
| `FrameReducer.UnassignedDivergence` | apps/dashboard/src/runtime/dashboard-reducer.ts:99-119 | the same for an assigned sector without assignee, refused by the domain boundary check |
| `Replay.PrepareReplay` | apps/dashboard/src/dashboard-app.tsx:246-299 | ready exactly on the right scenario, the checksum of the bundle without its checksum, an anchor and an accepted fold; checkpoint i then holds the state, digest and timeline of folding the first i events |
| `Replay.MovesKeep` | apps/dashboard/src/dashboard-app.tsx:404-414 | over any cursor moves the index stays, the cursor is the last one clamped, and verification is exactly the end test and the digest test there |
| `Replay.ReplayShowsSimpleFold` | apps/dashboard/src/dashboard-app.tsx:262-414 | over any cursor moves on a prepared replay, what is shown is the simple fold up to the clamped cursor, verified only at the end and exactly on the promised final digest |
| `ProposalBinding.CurrentProposalBinding` | apps/dashboard/src/operator/proposal-binding.ts:31-68 | the loop finds the last proposal, and the last evidence and approval that match it, or nothing without evidence |
| `ProposalBinding.BindingIgnoresInterleaving` | apps/dashboard/src/operator/proposal-binding.ts:31-68 | re-interleaving a timeline while keeping each kind's own order keeps the binding |
| `ProposalBinding.EscalationIsTraceable` | apps/dashboard/src/operator/rescue-escalation.ts:15-75 | a request is built exactly on an approving decision about the bound evidence with a digest, and rests on events of the timeline that agree on mission, proposal, proposal digest and evidence |
| `SessionProperties.InitialConsistent` | apps/dashboard/src/sources/source-session.ts:108-117 | the initial session satisfies the invariant of the next row |
| `SessionProperties.NoLostUpdate` | apps/dashboard/src/sources/source-session.ts:145-373 | in every interleaving, a frame in flight folds from the checkpoint still current when it publishes; every publication shows the mission unchanged, an anchored snapshot, or the verified fold onto what was shown just before; with a refusal it is unchanged |
| `SessionProperties.InputsInOrder` | apps/dashboard/src/sources/source-session.ts:222-234 | in every interleaving inputs are processed one at a time and publish in enqueue order |
| `SessionProperties.GenerationIsolation` | apps/dashboard/src/sources/source-session.ts:180-234 | after any replacement or disposal, of the older inputs only the one already in flight can still publish, and publications are never rewritten |
| `SessionGuards.OneSubscription` | apps/dashboard/src/sources/source-session.ts:180-220 | once no `open` call is under way, at most the current generation's subscription is alive, and none after disposal |
| `SessionGuards.DisposedPublishesExactly` | apps/dashboard/src/sources/source-session.ts:145-234 | a disposed session stays disposed and publishes exactly when a runtime is anchored or the input in flight resumes and publishes |
| `SessionGuards.DisposedShownConnected` | apps/dashboard/src/sources/source-session.ts:339-373 | a frame in flight at disposal ends in a disposed session shown as live |
| `SessionGuards.DisposedShowsExactly` | apps/dashboard/src/sources/source-session.ts:145-373 | a step of a session shown as disposed shows another status exactly when it anchors a runtime other than the accepted one, or settles a snapshot that anchors or a frame that folds; and which |
| `SessionGuards.DisposedStaysExactly` | apps/dashboard/src/sources/source-session.ts:145-373 | over every run it is shown as disposed throughout exactly when no such step is taken |
| `SessionGuards.DisposedFromStart` | apps/dashboard/src/sources/source-session.ts:203-373 | a run of a new session that reaches this |
| `SessionGuards.ReachableIsGuarded` | apps/dashboard/src/sources/source-session.ts:121-471 | every state a new session can reach has its publications justified and in order, and one subscription |
| `SessionGuards.ReachableIsSound` | apps/dashboard/src/sources/source-session.ts:281-373 | every state a new session can reach shows a checkpoint that passes the anchor check and a timeline of strictly increasing ordinals |
| `SourceSession.DashboardSourceSession.ValidKeeps` | apps/dashboard/src/sources/source-session.ts:121-471 | so does the object after any calls: every method keeps it reachable |
| `SessionGuards.ExpectedRunIsConfirmed` | apps/dashboard/src/sources/source-session.ts:158-160 | in every interleaving without a newer expectation an awaited run stays awaited until a snapshot that confirms it is shown |
| `SessionGuards.ExpectationKeptExactly` | apps/dashboard/src/sources/source-session.ts:158-160 | an expectation survives every continuation until confirmed exactly when no snapshot that anchors without confirming it is in flight at the call |
| `SessionGuards.OvertakenExpectation` | apps/dashboard/src/sources/source-session.ts:281-337 | settling such a snapshot clears the expectation unconfirmed |
| `SessionGuards.OvertakenFromStart` | apps/dashboard/src/sources/source-session.ts:158-337 | a run of a new session in which that happens |
| `SessionGuards.RuntimeChangesExactly` | apps/dashboard/src/sources/source-session.ts:145-337 | from any state, a step changes an accepted runtime exactly when it settles a snapshot of another runtime that anchors |
| `SessionGuards.RuntimeStep` | apps/dashboard/src/sources/source-session.ts:145-155 | a session with no such snapshot in flight stays so exactly until a first runtime is anchored over one |
| `SessionGuards.RuntimeKeptExactly` | apps/dashboard/src/sources/source-session.ts:145-337 | an accepted runtime survives every continuation exactly when no such snapshot is in flight |
| `SessionGuards.RuntimeIsStable` | apps/dashboard/src/sources/source-session.ts:145-337 | in every run that never anchors over one, a runtime shown at any point is shown ever after |
| `SessionGuards.RuntimeIsStableFromStart` | apps/dashboard/src/sources/source-session.ts:145-337 | the same for every run of a new session |
| `SessionGuards.RuntimeReplaced` | apps/dashboard/src/sources/source-session.ts:281-337 | after a runtime is anchored over a snapshot in flight, settling it replaces the runtime exactly when the snapshot anchors |
| `SessionGuards.ReplacedFromStart` | apps/dashboard/src/sources/source-session.ts:145-337 | a run of a new session in which that happens |
| `SourceSession.DashboardSourceSession.AnchorRuntime` | apps/dashboard/src/sources/source-session.ts:145-155 | the new fields are those of the state machine's step: locked on another runtime, else published |
| `SourceSession.DashboardSourceSession.AcceptReplayResume` | apps/dashboard/src/sources/source-session.ts:163-178 | true and published exactly on a mode mismatch naming that replay session; otherwise nothing changes |
| `SourceSession.DashboardSourceSession.BeginReplaceSource` | apps/dashboard/src/sources/source-session.ts:180-191 | refused once disposed; otherwise the generation advances and the old subscription is closed |
| `SourceSession.DashboardSourceSession.FinishReplaceSource` | apps/dashboard/src/sources/source-session.ts:191-196 | the new subscription is kept exactly when its generation is still current, else disposed |
| `SourceSession.DashboardSourceSession.Dispose` | apps/dashboard/src/sources/source-session.ts:203-220 | the whole new state of disposal; a second call changes nothing |
| `SourceSession.DashboardSourceSession.StartNext` | apps/dashboard/src/sources/source-session.ts:222-279 | takes the next queued input when nothing is in flight, drops a stale one, and runs it to its await or its end |
| `SourceSession.DashboardSourceSession.Settle` | apps/dashboard/src/sources/source-session.ts:281-373 | resumes the input in flight: publishes its anchor or fold, or refuses, exactly as the state machine does |
| `LiveSource.LiveSubscription.TimerCallback` | apps/dashboard/src/sources/live-sse-source.ts:95-110 | reports offline once a disconnection and replaces a closed stream, unless disposed meanwhile |
| `LiveSource.LiveSubscription.FrameListener` | apps/dashboard/src/sources/live-sse-source.ts:111-115 | delivers the frame unless disposed, and keeps the invariant of one stream, one timer and the grammar, as the other callbacks do |
| `LiveSource.LiveSubscription.ErrorListener` | apps/dashboard/src/sources/live-sse-source.ts:116-122 | reports the first error of a disconnection and schedules at most one timer |
| `LiveSource.LiveSubscription.OpenListener` | apps/dashboard/src/sources/live-sse-source.ts:123-130 | ends a disconnection: flags cleared, timer cancelled, recovery reported |
| `LiveSource.LiveSubscription.Close` | apps/dashboard/src/sources/live-sse-source.ts:134-144 | the whole state after disposal |
| `LiveSource.TraceGrammar` | apps/dashboard/src/sources/live-sse-source.ts:64-145 | in every run, disposal inside any delivery included, the signals begin connecting (disconnected offline? recovered)*, at most one stream listens and at most one timer is pending |
| `LiveSource.SilentAfterDispose` | apps/dashboard/src/sources/live-sse-source.ts:76-80 | nothing is delivered after disposal, whatever still happens |
| `LiveSource.TimerOutlivesDispose` | apps/dashboard/src/sources/live-sse-source.ts:116-122 | a step disposes and leaves a timer set exactly when it is an error on the listening stream, the first of its disconnection, whose report the consumer answers by disposing |
| `LiveSource.TimerLeftExactly` | apps/dashboard/src/sources/live-sse-source.ts:64-145 | a run from the opening ends disposed with a timer set exactly when it has such a step and that timer has not fired since |
| `LiveSource.TimerLeftExample` | apps/dashboard/src/sources/live-sse-source.ts:116-122 | the shortest such run |
| `LiveSource.FramesDelivered` | apps/dashboard/src/sources/live-sse-source.ts:111-115 | frames reaching the listening stream are delivered once each and in order, across stream replacements |
| `SchemaRewrite.RewriteKeepsMeaning` | apps/dashboard/scripts/generate-dashboard-contracts.ts:286-296 | a bottom-up rewrite of records that keeps each record's meaning keeps the schema's, at every nesting depth |
| `SchemaPasses.NormalizeKeepsMeaning` | apps/dashboard/scripts/generate-dashboard-contracts.ts:239-257 | moving the siblings of a reference into an `allOf` accepts the same instances, at every depth, where only schemas hold references with siblings |
| `SchemaPasses.ConstIsRewritten` | apps/dashboard/scripts/generate-dashboard-contracts.ts:247-256 | a `const` value that looks like one is rewritten, and its own value no longer accepted |
| `SchemaPasses.VariantSplit` | apps/dashboard/scripts/generate-dashboard-contracts.ts:313-348 | a closed variant accepts what its residual and the common properties together accept |
| `SchemaPasses.FactorExact` | apps/dashboard/scripts/generate-dashboard-contracts.ts:297-357 | the factored record accepts exactly what the record without its `allOf` accepts |
| `SchemaPasses.FactorKeepsMeaning` | apps/dashboard/scripts/generate-dashboard-contracts.ts:286-358 | without a sibling `allOf`, factoring accepts the same instances at every nesting depth |
| `SchemaPasses.FactorKeepsExactly` | apps/dashboard/scripts/generate-dashboard-contracts.ts:349-357 | with one, meaning is kept exactly when that `allOf` adds nothing to the rest |
| `SchemaPasses.SiblingAllOfIsLost` | apps/dashboard/scripts/generate-dashboard-contracts.ts:349-357 | a schema that accepts nothing and whose factored form accepts a document |
| `SchemaEventUnion.FactorVariants` | apps/dashboard/scripts/generate-dashboard-contracts.ts:400-449 | the pass succeeds exactly when every variant is an envelope that agrees with the first on mission and time, and yields the factored variants with those two schemas |
| `SchemaEventUnion.DefinitionSplit` | apps/dashboard/scripts/generate-dashboard-contracts.ts:408-468 | an envelope definition accepts what the shared envelope and its factored variant together accept |
| `SchemaEventUnion.KindsExclude` | apps/dashboard/scripts/generate-dashboard-contracts.ts:442-468 | factored variants with different `kind` constants never both accept a document |
| `SchemaEventUnion.OptimizeEventSchema` | apps/dashboard/scripts/generate-dashboard-contracts.ts:397-468 | the generator's method yields the rewritten schema of the next row, or throws where it does |
| `SchemaEventUnion.EventUnionExact` | apps/dashboard/scripts/generate-dashboard-contracts.ts:397-468 | for variants that carry only envelope keywords and have pairwise distinct kinds, the discriminated `oneOf` accepts exactly what the untouched keywords and some referenced definition accept together |
| `SchemaEventUnion.EventUnionOnlyWidens` | apps/dashboard/scripts/generate-dashboard-contracts.ts:397-468 | it accepts whatever the schema accepted |
| `SchemaEventUnion.EventUnionKeepsExactly` | apps/dashboard/scripts/generate-dashboard-contracts.ts:450-467 | it accepts nothing more exactly when the overwritten keywords and the siblings of the references add nothing |
| `SchemaEventUnion.EventUnionKeepsMeaning` | apps/dashboard/scripts/generate-dashboard-contracts.ts:397-468 | in particular when nothing is overwritten and the variants are nothing but references |
| `SchemaEventUnion.OverwrittenSiblingIsLost` | apps/dashboard/scripts/generate-dashboard-contracts.ts:450-467 | a `required` beside the union is lost: a document lacking the name is refused before and accepted after |
| `SchemaEventExample.OverwrittenSiblingExample` | apps/dashboard/scripts/generate-dashboard-contracts.ts:450-467 | a schema, its semantics and a document for which that happens |
| `SchemaEventExample.SmallMeaning` | apps/dashboard/scripts/generate-dashboard-contracts.ts:408-432 | the definition of that schema accepts exactly the envelopes of its kind |
| `LineReader.SplitIsExact` | packages/broker/src/aerial_rescue_broker/event_monitor.py:527-533 | the plain split joins back to the input, and only the last line may lack a newline |
| `LineReader.LineSource.Readline` | packages/broker/src/aerial_rescue_broker/event_monitor.py:536-538 | an ideal `readline` takes the bounded first piece of the next line and leaves the rest |
| `LineReader.ReadAllChunks` | packages/broker/src/aerial_rescue_broker/event_monitor.py:536-538 | called until it returns nothing, it gives the ideal chunks of the input |
| `LineReader.IdealPieces` | packages/broker/src/aerial_rescue_broker/event_monitor.py:536-546 | over an ideal `readline` the pieces are the lines of the plain split |
| `LineReader.PiecesJoin` | packages/broker/src/aerial_rescue_broker/event_monitor.py:536-546 | over any source the pieces put together are the chunks put together |
| `LineReader.PiecesAreLinesExactly` | packages/broker/src/aerial_rescue_broker/event_monitor.py:536-546 | over any source of chunks with a newline only at their end, the pieces are the plain lines of what was read exactly when no chunk but the last was broken off |
| `LineReader.ReadBounded` | packages/broker/src/aerial_rescue_broker/event_monitor.py:536-546 | over any source, one call consumes exactly one piece, returns its payload without line ending, and flags it exactly when that payload is over 8192 bytes |
| `EventMonitor.LinesAreAccounted` | packages/broker/src/aerial_rescue_broker/event_monitor.py:557-585 | every line is alerted on or ignored |
| `EventMonitor.MonitorStream` | packages/broker/src/aerial_rescue_broker/event_monitor.py:549-585 | what is emitted is exactly the alerts of the pieces in order and a last one for the failure of the source or, unless a stop was requested, its end, cut where the sink fails or the clock cannot stamp an alert; the result is the matching error or the counters |
| `EventMonitor.MonitorBytes` | packages/broker/src/aerial_rescue_broker/event_monitor.py:549-585 | over an ideal `readline`, the same of the lines of the plain split |
| `EventMonitor.OutcomeAddsUp` | packages/broker/src/aerial_rescue_broker/event_monitor.py:557-585 | on completion alerts + ignored is lines, or lines + 1 when the source closed, and nothing intended was left unemitted |
| `RetainedLog.RunConserves` | packages/broker/src/aerial_rescue_broker/event_source.py:89-187 | over any run of reads, renames, truncations and failures with one limit, chunks handed out followed by the pending fragment are the bytes read, each chunk within the limit with a newline only at its end |
| `RetainedLog.CallsKeepBytes` | packages/broker/src/aerial_rescue_broker/event_source.py:89-187 | no byte is lost, invented or reordered over any calls with any limits |
| `RetainedLog.OverrunExactly` | packages/broker/src/aerial_rescue_broker/event_source.py:156-187 | over any calls with any limits, a call overruns its limit exactly when it hands something out and its limit is below the fragment pending at the call |
| `RetainedLog.GrowingLimitsNeverOverrun` | packages/broker/src/aerial_rescue_broker/event_source.py:156-187 | a caller that never lowers its limit is never overrun |
| `RetainedLog.SmallerLimitOverruns` | packages/broker/src/aerial_rescue_broker/event_source.py:156-170 | a limit below the pending fragment lets a line of any length out |
| `RetainedLog.EqualLimitReadsNothing` | packages/broker/src/aerial_rescue_broker/event_source.py:156-187 | with a limit equal to the pending fragment no turn reads anything, and the fragment goes out exactly on a rotation or truncation |
| `RetainedLog.TurnReadsExactly` | packages/broker/src/aerial_rescue_broker/event_source.py:156-170 | with bytes available a turn reads some exactly when the limit is not the length of the pending fragment |
| `RetainedLog.CallReadsExactly` | packages/broker/src/aerial_rescue_broker/event_source.py:156-187 | so does a call on a log that is only appended to |
| `RetainedLog.EqualLimitStalls` | packages/broker/src/aerial_rescue_broker/event_source.py:134-187 | so on a log that is only appended to such a call never returns |
| `RetainedLog.StallReached` | packages/broker/src/aerial_rescue_broker/event_source.py:156-187 | such a fragment is left by a stopped call with a larger limit |
| `RetainedLog.RunGap` | packages/broker/src/aerial_rescue_broker/event_source.py:119-132 | over any run no more than the maximum of consecutive missing-path polls is waited out |
| `RetainedLog.RetainedEventLogSource.RefreshAtEof` | packages/broker/src/aerial_rescue_broker/event_source.py:119-154 | the whole new state at end of file for a missing, unreadable, renamed, truncated or unchanged path, and for a descriptor that cannot tell or take its position |
| `RetainedLog.TurnHandsOut` | packages/broker/src/aerial_rescue_broker/event_source.py:113-117 | a turn hands out exactly what it returns, and never an empty chunk |
| `RetainedLog.RetainedEventLogSource.Turn` | packages/broker/src/aerial_rescue_broker/event_source.py:156-187 | one turn of the loop: open, read, hand out, or refresh |
| `RetainedLog.RetainedEventLogSource.Readline` | packages/broker/src/aerial_rescue_broker/event_source.py:172-187 | a bad bound changes nothing; otherwise the call is a stretch of the run, its line is the one chunk handed out and is over the limit exactly when the fragment pending at the call was, an empty line means the follower was stopped, and a refusal is that of the last turn, with nothing handed out |
| `RetainedLines.TurnBreaksOffExactly` | packages/broker/src/aerial_rescue_broker/event_source.py:134-187 | with the read limit, a turn hands out a broken-off chunk exactly when the file ended inside a line and the path names another or a shorter file |
| `RetainedLines.LogPiecesExactly` | packages/broker/src/aerial_rescue_broker/event_monitor.py:536-546 | over any turns, the pieces the reader makes of the log are all that was read but the pending fragment, and are its lines exactly when no line but the last was broken off by a rotation or truncation |
| `RetainedLines.BrokenLineIsTwo` | packages/broker/src/aerial_rescue_broker/event_monitor.py:536-546 | a line broken off is read as two |
| `RetainedLines.ReadLog` | packages/broker/src/aerial_rescue_broker/event_source.py:172-187 | successive calls with the read limit return the chunks handed out, until stopped or refused |
| `RetainedLines.MonitorLog` | packages/broker/src/aerial_rescue_broker/event_monitor.py:557-585 | the monitor on a new follower has the outcome of the pieces of what the follower hands out |
| `RotationLoss.RunAccounts` | packages/broker/src/aerial_rescue_broker/event_source.py:89-187 | over any run on files that are only appended to and renamed, what was read is all that each file left behind held when it was last read, in order, and the beginning of the current one |
| `RotationLoss.RotationLosesExactly` | packages/broker/src/aerial_rescue_broker/event_source.py:134-146 | the turn that leaves a file has read it to the end it had at that read, and loses exactly what was appended before the look at the path |
| `RotationLoss.LeavesExactly` | packages/broker/src/aerial_rescue_broker/event_source.py:134-146 | a file is left exactly when it was read to its end and the path then names another |
| `RequestPacer.SempRequestPacer.Pace` | packages/broker/src/aerial_rescue_broker/monitoring.py:96-110 | refuses exactly an invalid or backward clock, records nothing then, and otherwise sleeps at most one interval up to the paced instant |
| `RequestPacer.RecordedSpaced` | packages/broker/src/aerial_rescue_broker/monitoring.py:96-110 | for any clock, recorded instants are at least one interval apart |
| `RequestPacer.RequestBudget` | packages/broker/src/aerial_rescue_broker/monitoring.py:42-46 | for any clock, no half-open second holds more than five recorded requests |
| `RequestPacer.PacedIsEarliest` | packages/broker/src/aerial_rescue_broker/monitoring.py:107-110 | no earlier instant would keep the interval |
| `QueueHealth.BindMismatches` | packages/broker/src/aerial_rescue_broker/monitoring.py:175-189 | the loop collects, sorted, exactly the observed desired queues whose bind count is not the wanted one |
| `QueueHealth.HealthyExactly` | packages/broker/src/aerial_rescue_broker/monitoring.py:192-226 | healthy exactly when every desired queue is observed with its wanted bind count, every queue in the namespace is desired, and no owned dead-message queue holds a message |
| `QueueHealth.MessagesConserved` | packages/broker/src/aerial_rescue_broker/monitoring.py:192-226 | the message count is that of the owned queues and splits between primary backlog and dead messages |
| `QueueHealth.SnapshotIgnoresOrder` | packages/broker/src/aerial_rescue_broker/monitoring.py:192-226 | the snapshot does not depend on the order in which the broker lists its queues |
| `QueueMonitor.QueueHealthMonitor.Now` | packages/broker/src/aerial_rescue_broker/monitoring.py:260-268 | an invalid or backward reading is refused and changes nothing |
| `QueueMonitor.QueueHealthMonitor.Poll` | packages/broker/src/aerial_rescue_broker/monitoring.py:270-306 | outcome, read attempt and all four fields of one poll, for each outcome of the transport |
| `QueueMonitor.PollReadsExactly` | packages/broker/src/aerial_rescue_broker/monitoring.py:270-285 | a poll reads exactly when its clock is accepted and no attempt is live or every attempt so far escaped |
| `QueueMonitor.PollRepeats` | packages/broker/src/aerial_rescue_broker/monitoring.py:270-285 | a poll that does not read repeats the last attempt that did not escape |
| `QueueMonitor.AttemptsSpaced` | packages/broker/src/aerial_rescue_broker/monitoring.py:270-306 | in every run without escaping exceptions, attempts are at least 30 s apart and polls between them repeat the latest outcome |
| `QueueMonitor.EarlyOnlyAfterEscapes` | packages/broker/src/aerial_rescue_broker/monitoring.py:270-306 | in every run an early attempt follows nothing but escapes |
| `QueueMonitor.RepeatedSnapshotFreshExactly` | packages/broker/src/aerial_rescue_broker/monitoring.py:270-306 | in every run a repeated snapshot is younger than 30 s exactly when the last attempt did not escape |
| `QueueMonitor.EarlyReadExample` | packages/broker/src/aerial_rescue_broker/monitoring.py:279-301 | two reads one second apart |
| `AffectedTests.InvertModules` | tools/affected_tests.py:120-135 | in whatever order files are visited, the index holds exactly the names carried by one file and the ambiguous files are exactly the others |
| `AffectedTests.BuildGraph` | tools/affected_tests.py:150-172 | dependents are exactly the resolved imports inverted, and unclear files exactly those with a shared name or that do not parse |
| `AffectedTests.Closure` | tools/affected_tests.py:185-194 | the worklist ends and holds exactly what is reachable from the changed files |
| `AffectedTests.Select` | tools/affected_tests.py:175-203 | nothing for no change, the whole suite exactly when a changed path widens, otherwise the reachable tests, sorted, once each |
| `AffectedTests.SelectionUnique` | tools/affected_tests.py:197-203 | the selection is a function of the set of changed paths: no order and no repeat matters |
| `AffectedTests.SelectionMonotone` | tools/affected_tests.py:197-203 | more changes never select fewer tests |
| `AffectedTests.SelectionIsReachability` | tools/affected_tests.py:150-203 | a test is selected exactly when it reaches a changed file along resolved imports |
| `AffectedTests.PossibleExactly` | tools/affected_tests.py:138-165 | a file runs its way to a change under some content of the unparsed files exactly when it does so under all their possible references at once |
| `AffectedTests.ClosureCompleteExactly` | tools/affected_tests.py:91-194 | whatever the unparsed files refer to, resolved imports find every file whose imports run a changed file exactly when no shared module name, no package named only as part of a longer name and no unparsed file is crossed from outside |
| `AffectedTests.NarrowsCompleteExactly` | tools/affected_tests.py:91-194 | for a change that does not widen, exactly when every file parses and no such name is crossed |
| `AffectedTests.SelectsAffectedExactly` | tools/affected_tests.py:91-203 | when no changed path widens, no affected test is missed, whatever the unparsed files refer to, exactly when every test that runs its way to a changed or an unparsed file reaches a changed one along resolved imports |
| `AffectedTests.PossibleFromUnparsed` | tools/affected_tests.py:138-165 | from such a change, possibly running one's way to it is running one's way to it or to an unparsed file |
| `AffectedTests.CompleteSelects` | tools/affected_tests.py:197-203 | missing no file, the selection misses no affected test |
| `AffectedTests.PlainProjectComplete` | tools/affected_tests.py:91-203 | no affected test is missed, whatever changes, when all files parse, every reference to a module names the packages above it too, and no file with a shared name imports another |
| `AffectedTests.SharedNameHidesTest` | tools/affected_tests.py:175-194 | a family of projects in which a shared name keeps a test that refers its way to a change from being selected |
| `AffectedTests.UnparsedHidesTest` | tools/affected_tests.py:175-194 | the same for an unchanged file that does not parse |
| `AffectedTests.PackageHidesTest` | tools/affected_tests.py:91-110 | the same for a changed package initialiser and a test that imports a module below it |

## Left out

- React rendering, maps, panels and dialogs; fetch, EventSource, abort signals, the Solace client, SEMP over HTTP and file opening, of which only the ports are modelled.
- Unicode normalisation, SHA-256 and the generated validators themselves; they are parameters.
- What a getter returns and how JavaScript enumerates properties: own properties, accessors, symbol keys and sparse arrays are modelled only as far as the encoder tells them apart; a value of none of the supported kinds is one constructor.
- The order in which JSON.parse lists integer-like keys; key order does not matter to any decoded value.
- A canonicalisation refusal inside the reducers' digest computations; the digests are total functions of their documents.
- withoutRuntimeAnnotations, the snapshot branch of runtimeOptimizedSchema, and the keywords `patternProperties`, `unevaluatedProperties` and `$dynamicRef`; keywords the passes do not touch are an abstract predicate.
- CanonicalScan.JsonStringToken: requires a string body that ends, because the scan is only reached by texts JSON.parse accepted; on others the loop would not stop.
- EventMonitor.MonitorStream: an error inside a piece is placed at that piece; the readline call it happened in makes no difference to the outcome.
- RequestPacer.SempRequestPacer.Pace: arithmetic is over exact reals, without floating-point rounding.
- QueueMonitor.QueueHealthMonitor.constructor: takes the desired inventory as given, without the refusal of an empty, repeated or oversized one.
- QueueMonitor.QueueHealthMonitor.Poll: the reads of one attempt are one step with one of three outcomes.
- AffectedTests.BuildGraph: starts from module names and referenced names; deriving those from paths and syntax trees is not part of this model.
- SessionModel: `onState` never throws. In the source one that throws inside the catch handler rejects the promise chain, and the next input is then skipped.
- RotationLoss: a path that comes to name a file left before is read again from its start; the model allows it and counts the file twice.
- Queue provisioning, subscriptions, routing, retirement, the Event Mesh gateway, deployment checks and the policy gates of the repository's tooling, which would add only flat rule lists.
