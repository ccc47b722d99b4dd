# Verified core of akt

`akt` is a command line and terminal client for the Akash network. This project models
the parts of it where a mistake would be hard to see: the algebra of deployment
configuration patches, the protocol with the Console API, the synchronisation of the
local store with the chain, the action log, the context configuration, the changelog
assembler and the provider stream consumer. The main results range over all inputs, all
servers, all event sequences or all reachable states; where one needs a condition, the
condition is part of its statement, and "Left out" says what is not modelled.

Each part has two layers. A specification layer of functions says what an operation
means, without the iteration order of Go maps and without loops. A method layer has the
loops, fields and early returns of the source and is proved equal to the specification.
The laws are proved about the specification, so they hold of the methods.

| modules | what they model |
|---|---|
| `SdlDocument`, `SdlValidateLoops`, `SdlApply`, `SdlRouting`, `SdlApplyLaws`, `SdlApplyLoops` | documents, patches and their validation, how endpoints are reached, `Apply`, what it keeps and which moves it accepts |
| `SdlDiff`, `SdlEnvLaws`, `SdlExposeLaws`, `SdlRoundTrip`, `SdlDiffLoops` | `Diff`, the normal form, and the round trip with `Apply` |
| `YamlNodes`, `YamlExpansion`, `YamlMerging`, `YamlLoops`, `YamlSharing` | YAML node graphs: expansion under a visit counter, merge keys and their order, the sharing check |
| `ConsoleWire`, `ConsoleReplies`, `ConsoleLeases`, `ConsoleRuns`, `ConsoleWorld`, `ConsoleClient` | requests and replies, what is read out of replies, lease re-filing, what a run looks like on the wire, what is really on the server, the client against any server |
| `SyncRecords`, `SyncFold`, `SyncFoldMarket`, `SyncPlans`, `SyncEngine`, `SyncLaws`, `SyncEventLaws`, `SyncPages` | store records and keys, event fold, what answers prescribe, reconciliation, what events leave in a record, page walks |
| `ActionLogEntries`, `ActionLogFiles` | revision collapse, rotation, reading |
| `ContextConfig`, `ContextLaws`, `ContextViews`, `ContextManager` | networks, keyrings and contexts; referential soundness; what `Resolve` shows |
| `ChangelogText`, `Changelog`, `ChangelogLaws`, `ChangelogResume` | fragments, assembly, resuming after a crash |
| `ProviderStream` | interleavings of the record and close channels |
| `Basics` | optional values, results, decimal text, string order |

How the environment enters: a server or node is a function from the number of the request
and the request to an answer, fixed before the run but arbitrary, so a statement about it
holds for every behaviour. Clocks, failing saves, failing writes, cancellation and the
choice between two ready channels are parameters of the same kind. Map iteration picks an
arbitrary remaining key. What a client sent and what it was answered is on its wire, a
field, and results are stated as read off that wire.

Results that correct a plausible reading of the code:

- `Diff` after `Apply` succeeds exactly when every service is an object, its volumes are
  objects, and its `env` is a list of uniquely named strings or is left as it is
  (`SdlRoundTrip.RoundTripExactly`).
- A `Created` event for a deployment already stored wipes its local fields; reconciliation
  never does (`SyncFold.LocalSurvives`).
- Lease and bid keys are not injective: an id shares its key with another storable one
  exactly when its owner ends in a number after a colon and its own deployment number fits
  32 bits, its provider starts with a 32-bit number before a colon, or either holds three
  numbers in a row that fit the fields (`SyncRecords.TwinExactly`).
- On a chronological log whose revisions agree on the filtered fields, `Read` filters
  before it collapses without a visible difference exactly when no `Since` bound falls
  between two records of one transaction (`ActionLogEntries.CollapseCommutesExactly`).
- `RenameContext` accepts an empty new name, and the context can then no longer be
  resolved (`ContextViews.RenamedToNothingIsLost`).
- A fragment whose line ends like the `## Unreleased` heading parses, and assembling again
  then fails (`ChangelogLaws.MisleadingParses`, `ChangelogResume.ResumesExactly`).

## Model

| member | source | states |
|---|---|---|
| `SdlDocument.EnvEntrySplits` | internal/deploymentconfig/diff.go:179-186 | name and content of any entry join back to that entry, so splitting loses nothing |
| `SdlDocument.EnvEntryJoins` | internal/deploymentconfig/diff.go:179-186 | an assignment as the patch writes it splits back into the same name and content |
| `SdlApplyLaws.ApplyFrame` | internal/deploymentconfig/apply.go:16-78 | an accepted patch keeps every top-level key but services, the set of services, every unnamed service, and in a named one exactly the parts its patch does not assign |
| `SdlApplyLaws.ServiceFrame` | internal/deploymentconfig/apply.go:16-78 | within a service: which fields change, that each assigned field holds the assigned value, that cleared fields are gone |
| `SdlApplyLaws.ExposeFrame` | internal/deploymentconfig/apply.go:111-189 | number and order of endpoints stay, other fields of the service stay, every endpoint is kept as in EntryKept |
| `SdlApplyLaws.EntryKept` | internal/deploymentconfig/apply.go:111-261 | an endpoint keeps `to` and `proto`, so whether it has a global target; with one, and no or the TCP protocol, it is reached on port 80 (a non-zero `as`, else `port`) exactly if it was before; with a leased IP it keeps its container port and is reached on the same ports; unaddressed it is identical; addressed it holds what the patch assigns |
| `SdlRouting.MoveAllowedMeans` | internal/deploymentconfig/apply.go:148-156 | the kind and leased-IP checks on a move are exactly that, read off the fields of the endpoint before and after |
| `SdlRouting.HttpMeans` | internal/deploymentconfig/apply.go:210-232 | an endpoint is of the HTTP kind exactly with a global target, no protocol or TCP in any letter case, and port 80 |
| `SdlApplyLaws.ExposeAcceptedExactly` | internal/deploymentconfig/apply.go:111-189 | from distinct ports a patch of endpoints is accepted if and only if it names declared ports, keeps every endpoint's routing and leaves ports distinct |
| `SdlApplyLaws.SwapAccepted` | internal/deploymentconfig/apply.go:111-189 | two internal endpoints may trade their ports |
| `SdlApplyLaws.PortsStayDistinct` | internal/deploymentconfig/apply.go:111-189 | pairwise distinct container ports stay so, and so do external ports, whatever ports are swapped at once |
| `SdlApplyLaws.StorageFrame` | internal/deploymentconfig/apply.go:245-261 | only params changes; the set of volumes stays; unnamed volumes and other fields of named ones stay |
| `SdlApplyLaws.EditedEnvWritten` | internal/deploymentconfig/apply.go:80-109 | entries the patch does not name stay, first and in order; a variable it assigns is there with the new content and no other, one it removes is not |
| `SdlValidateLoops.CheckPatch` | internal/deploymentconfig/patch.go:85-158 | for every order over the maps, the nested loops and the switch over retry conditions accept exactly the valid patches |
| `SdlValidateLoops.CheckEnvName` | internal/deploymentconfig/patch.go:160-171 | the scan accepts exactly the names of letters, dots, dashes and underscores, with digits after the first place |
| `SdlApplyLoops.EditEnv` | internal/deploymentconfig/apply.go:80-109 | the filter and append loops write the specified environment |
| `SdlApplyLoops.MoveEndpoints` | internal/deploymentconfig/apply.go:111-189 | for every order over the patch map, ports move from the original ports and the verdict is the order-free one |
| `SdlApplyLoops.CheckEndpoints` | internal/deploymentconfig/apply.go:111-189 | addressing, kind, leased-IP and collision checks together accept exactly the allowed edits |
| `SdlApplyLoops.EditExpose` | internal/deploymentconfig/apply.go:111-189 | verdict and resulting endpoints of the loops equal the order-free specification |
| `SdlApplyLoops.EditStorage` | internal/deploymentconfig/apply.go:245-261 | verdict and volumes of the loop equal the order-free specification |
| `SdlApplyLoops.ApplyPatch` | internal/deploymentconfig/apply.go:16-78 | for every order over services, accept or reject and the resulting document equal the specification |
| `SdlEnvLaws.EditedEnvOverrides` | internal/deploymentconfig/apply.go:80-109 | read as a map, the edited environment is the old map overridden by the patch |
| `SdlEnvLaws.SameMapSameNormal` | internal/deploymentconfig/diff.go:267-293 | environments with the same map have the same normal form |
| `SdlEnvLaws.SameNormalSameMap` | internal/deploymentconfig/diff.go:267-293 | environments with the same normal form have the same map |
| `SdlEnvLaws.EnvRoundTrip` | internal/deploymentconfig/diff.go:122-186 | the difference of an environment and any edit of it exists, is valid, and applied gives that edit up to normal form |
| `SdlExposeLaws.EntryRoundTrip` | internal/deploymentconfig/diff.go:188-238 | the difference of an endpoint and any edit of it exists, is valid, moves the same ports and writes the same options |
| `SdlExposeLaws.ExposeRoundTrip` | internal/deploymentconfig/diff.go:188-238 | the difference of all endpoints exists, is accepted, and gives the same service again |
| `SdlExposeLaws.StorageRoundTrip` | internal/deploymentconfig/diff.go:240-263 | the difference of the volumes exists and applying it has the outcome of the original edit |
| `SdlRoundTrip.ServiceRoundTrip` | internal/deploymentconfig/diff.go:28-116 | for a service and any valid edit, up to normal form, the difference is found, valid, accepted and leads to the same normal form |
| `SdlRoundTrip.DiffExact` | internal/deploymentconfig/diff.go:28-293 | from a well-formed document Diff succeeds if and only if some patch leads to the requested document up to normal form, and then its own patch does |
| `SdlRoundTrip.RoundTripExactly` | internal/deploymentconfig/diff.go:28-293 | after any accepted patch, on any document, Diff succeeds if and only if the document is recoverable |
| `SdlDiffLoops.CollectEnv` | internal/deploymentconfig/diff.go:152-177 | the scan returns the name-to-content map, and an error exactly for non-strings and repeated names |
| `SdlDiffLoops.EnvDifference` | internal/deploymentconfig/diff.go:122-150 | for every map order the loops give the specified edits or the specified refusal |
| `SdlDiffLoops.ExposeDifference` | internal/deploymentconfig/diff.go:188-238 | the endpoint scan gives the specified edits or refusal |
| `SdlDiffLoops.StorageDifference` | internal/deploymentconfig/diff.go:240-263 | for every map order the volume loop gives the specified edits or refusal |
| `SdlDiffLoops.Normalize` | internal/deploymentconfig/diff.go:267-293 | for every order over services, the normal form of the document |
| `SdlDiffLoops.DiffDocuments` | internal/deploymentconfig/diff.go:28-116 | for every order over services, the patch or refusal of the specification |
| `YamlNodes.NodeValue` | internal/deploymentconfig/patch.go:210-302 | each call raises the visit counter and leaves it at most 100001, success at most 100000; the remaining count is the termination measure on any graph, cyclic or not |
| `YamlNodes.EarliestSourceWins` | internal/deploymentconfig/patch.go:210-302 | a merged mapping has exactly the keys of its sources, each from the earliest source that defines it |
| `YamlExpansion.NodeExact` | internal/deploymentconfig/patch.go:210-302 | at any depth and count the counted evaluation succeeds exactly when the plain expansion does and its visits fit, with that value and that count |
| `YamlExpansion.RootExact` | internal/deploymentconfig/patch.go:187-302 | for a whole document: value, success and number of visits against the plain expansion with explicit entries over merge sources |
| `YamlMerging.FirstListedWins` | internal/deploymentconfig/patch.go:237-245 | one merge value on top of what is there: a new key comes from the first element of the list that defines it |
| `YamlMerging.MergeOrder` | internal/deploymentconfig/patch.go:226-280 | in an expanded mapping a key without an entry of its own has the value of the first source, of the first merge key, that defines it |
| `YamlMerging.SequenceMergeOrder` | internal/deploymentconfig/patch.go:226-280 | for a merge value written as a sequence node: the first listed element, in document order, whose expansion defines the key provides it |
| `YamlMerging.ScalarsExpand` | internal/deploymentconfig/patch.go:286-301 | a scalar has its decoded value for the five plain tags, and none otherwise |
| `YamlMerging.EntryProvides` | internal/deploymentconfig/patch.go:250-280 | a string key, or an integer key by its decoded number, has the value of its own entry, whatever the merge sources hold |
| `YamlExpansion.ExpandMore` | internal/deploymentconfig/patch.go:210-302 | a value once obtained does not change with more allowed depth |
| `YamlExpansion.CyclesAreRefused` | internal/deploymentconfig/patch.go:210-302 | every node from which a walk revisits a node is refused, within the visit bound |
| `YamlLoops.Evaluate` | internal/deploymentconfig/patch.go:210-302 | the recursive loops with the shared counter return the value and count of the specification |
| `YamlSharing.MarkShared` | internal/deploymentconfig/apply.go:273-323 | marks exactly the unmarked part of what a node contains, and the marks stay closed |
| `YamlSharing.SharedNodes` | internal/deploymentconfig/apply.go:273-323 | the marked set is exactly the nodes reachable through content from some alias target |
| `YamlSharing.UnsharedHasOneRoute` | internal/deploymentconfig/apply.go:273-323 | an unmarked node is reached by one route only, following content and aliases |
| `YamlSharing.AcceptedIsPrivate` | internal/deploymentconfig/apply.go:273-395 | for every service whose patch can change anything at all, acceptance implies that services, the service, and the env, credentials, endpoints with their options, params, storage and volumes the patch writes are not aliases and not marked, and that neither the service nor, without a services key of its own, the document has a merge key |
| `YamlSharing.AcceptedEditsOnePlace` | internal/deploymentconfig/apply.go:273-395 | a service that an accepted patch can change is visible at one place of the document only |
| `YamlSharing.UnassignedChangesNothing` | internal/deploymentconfig/apply.go:380-395 | a patch that counts as assigning nothing changes no service it is accepted on |
| `YamlSharing.UnrefusedIsPrivate` | internal/deploymentconfig/apply.go:308-365 | a service is let through exactly when all that its patch writes below is private |
| `YamlSharing.PlainDocumentAccepted` | internal/deploymentconfig/apply.go:273-366 | a document without aliases and merge keys is never refused |
| `ConsoleLeases.RegroupedCorrectly` | internal/console/deployments.go:312-338 | every lease ends under an item with its own sequence number, and items keep their deployments |
| `ConsoleLeases.RegroupedConserves` | internal/console/deployments.go:312-338 | each lease is kept exactly as often as it came if its deployment is on the page, and otherwise dropped |
| `ConsoleLeases.RegroupedIdempotent` | internal/console/deployments.go:312-338 | re-filing twice is re-filing once |
| `ConsoleLeases.PairingIrrelevant` | internal/console/deployments.go:312-338 | per item, the multiset of leases does not depend on how the server paired them |
| `ConsoleLeases.RegroupLeases` | internal/console/deployments.go:312-338 | the in-place loops over the array leave the re-filed page |
| `ConsoleWire.SanitizingKeepsVerdict` | internal/console/deployment_secrets.go:45-71 | removing details from an error never changes whether it is definitive |
| `ConsoleWire.DefinitiveMeansRefused` | internal/console/deployments.go:136-143 | a failure taken as definitive comes from a 4xx reply other than 429 |
| `ConsoleWire.RefusedMeansDefinitive` | internal/console/deployments.go:136-143 | such a reply, when it ends the request, is always taken as definitive |
| `ConsoleReplies.SanitizedShows` | internal/console/deployment_secrets.go:45-71 | an error of a sensitive call shows its status and either the fixed text or one of nine codes that the reply carried, and a reply that carries one shows it |
| `ConsoleReplies.TransientMeans` | internal/console/deployments.go:448-453 | an update is tried again exactly after a 422 whose text holds the phrase in any letter case |
| `ConsoleReplies.FulfilsMeans` | internal/console/deployments.go:792-811 | a lease answers a request exactly when the four ids agree and its state reads "active" in any letter case |
| `ConsoleReplies.RequestedLeasesActive` | internal/console/deployments.go:792-811 | the nested loops say whether every requested lease, and at least one, is answered |
| `ConsoleReplies.RetriedExactly` | internal/console/client.go:238-351 | a reply asks for the request again exactly when it is a 429 or a server error to a GET, HEAD, PUT or DELETE |
| `ConsoleReplies.ClassesOfReplies` | internal/console/client.go:238-351 | a last answer is a success exactly as a 2xx with data, unauthorized, unfunded or not found exactly for 401, 402 and 404, and a lease code of an error reply to a lease submission speaks before its status |
| `ConsoleReplies.ValidDSeqMeans` | internal/console/manifests.go:19-26 | a deployment number is valid exactly when it is the decimal text of a positive 64-bit number, possibly after zeros |
| `ConsoleRuns.RunSendsAtMost` | internal/console/client.go:221-351 | one call sends only its own request, at most three times when idempotent and once otherwise |
| `ConsoleRuns.DefinitiveCreatesNothing` | internal/console/deployments.go:136-143 | on a server whose refusals are not applied, a definitive failure means nothing was created |
| `ConsoleClient.Client.DoJson` | internal/console/client.go:238-351 | what a retry loop may send and return, for every server: what is on the wire was played by the environment, retries only after retryable replies, result of the last, and fewer than three sends only after a final answer or a caller who gave up |
| `ConsoleClient.Client.Record` | internal/console/client.go:128-156 | exactly one log entry, a success exactly when there was no error |
| `ConsoleRuns.PageExtends` | internal/console/deployments.go:191-220 | a faithful page appended to a faithful prefix is a longer faithful prefix, complete exactly when no more is announced |
| `ConsoleRuns.NextPage` | internal/console/deployments.go:191-220 | what one more page does to a walk, as its requests and answers show: a missing page, too many records or a page that points nowhere end it without a result and for that reason, a last page ends it with everything listed, any other moves it to the offset announced |
| `ConsoleWorld.NewIsOurs` | internal/console/deployments.go:145-183 | on a server whose deployments come and stay, whose listings are faithful to it, and on which nobody else makes the hash, anything a read-back shows as new was made by this submission |
| `ConsoleWorld.OursIsShown` | internal/console/deployments.go:145-183 | and a read-back that completes shows what the submission made, as the only new one with the hash |
| `ConsoleWorld.CreateIsWorth` | internal/console/deployments.go:25-183 | so on such a server a number found by read-back is the one this submission made, and if it made one that was not found, no read-back ever completed |
| `ConsoleRuns.WalkBounds` | internal/console/deployments.go:191-220 | a listing walk is GETs of pages of 100 from offset 0, for at most 100 offsets, and yields at most 10000 records |
| `ConsoleClient.Client.ListAllDeployments` | internal/console/deployments.go:191-220 | the requests sent start at 0, never go back, ask each offset at most three times and at most 100 offsets, each the one the page before announced; the result is the concatenation of the pages answered; it fails only when the caller gave up, a page did not come for good, or the last one is too much, the hundredth or points nowhere; a faithful list comes back whole if and only if it has at most 10000 records |
| `ConsoleClient.FreshMatches` | internal/console/deployments.go:145-183 | finds exactly the items that are new and carry the submitted hash |
| `ConsoleClient.Client.ReconcileCreated` | internal/console/deployments.go:145-183 | one to five whole listings; a number is returned exactly as the only new one with the hash in the last of them, all earlier ones showing none; without one, they ran out, the caller gave up or the last shows several |
| `ConsoleClient.Client.Submit` | internal/console/deployments.go:25-82 | one POST at most; accepted exactly with a valid receipt on the wire, refused means nothing created by an honest server, unknown means no refusal was seen |
| `ConsoleClient.Client.CreateDeployment` | internal/console/deployments.go:25-183 | a document that cannot be prepared or holds unsealed secret references sends nothing; any other is listed, the listing failing only for the reasons of a walk, and then posted unless the caller gives up; the wire holds the snapshot listing, then at most one POST, then the read-backs; success is the acknowledged receipt, or the only new number with the hash in the last read-back that was not in the snapshot; a failure after read-backs means that the last failed, shows none or shows several, and was the fifth unless it shows several or the caller stopped waiting; one log entry, success exactly on success, failure meaning nothing created by an honest server, pending meaning unrefused; on an uncontended server what is found is what was made |
| `ConsoleClient.Client.CreateWithSecrets` | internal/console/deployment_secrets.go:73-116 | the same for creation with secrets, with no read-back: nothing sent for malformed options, the POST only after a usable sealing key was shown and then always unless the caller gives up, the key asked for as long as the answers allow |
| `ConsoleClient.Client.PutOnce` | internal/console/deployments.go:392-446 | one round of an update: at most three PUTs; a reply that shows the wanted number and hash ends it and is the result, and without one there is none |
| `ConsoleClient.Client.UpdateDeployment` | internal/console/deployments.go:392-426 | over the whole call at most nine PUTs, nothing sent after a reply that shows the wanted version, success exactly with such a reply and that reply; failure only when the last PUT was not answered with a transient failure, three were, or the caller gave up; one log entry |
| `ConsoleClient.Client.SubmitLease` | internal/console/deployments.go:636-790 | one POST at most; success exactly with a reply that shows every requested lease active, which is the last and the result; a failure was read back as often as its answer asks: not with a lease code, once after a refusal, else through the whole window; no POST only when the caller gave up; a failure is recorded as failed only after a refusal or a lease code, and as pending only without |
| `ConsoleClient.Client.CreateLease` | internal/console/deployments.go:636-811 | the same for the whole call, with one log entry exactly when every number is valid and no request otherwise |
| `ConsoleClient.Client.PatchDefinition` | internal/console/deployment_secrets.go:185-252 | one PATCH at most, sent exactly when it is ready (a rename without guard, or a saved definition the edit applies to and a usable sealing key) unless the caller gives up, and sent last; success exactly with an answer to it that shows the number and the new name, or a manifest version equal to the hash, and that answer; one log entry, a failure pending exactly when the answer is no refusal |
| `SyncRecords.DeploymentKeyInjective` | internal/store/store.go:265-267 | deployment keys separate every owner and number |
| `SyncRecords.RecordKeyInjective` | internal/store/store.go:271-291 | lease and bid keys separate ids of colon-free owners |
| `SyncRecords.RecordKeyInjectiveByProvider` | internal/store/store.go:271-291 | and ids of colon-free providers, whatever the owners |
| `SyncRecords.TwinExactly` | internal/store/store.go:139-291 | for every id with the field widths of the store, whether another such id has the same key: exactly when its owner ends in a number and its own number fits 32 bits, its provider starts with a 32-bit number, or either holds three numbers in a row that fit the fields |
| `SyncRecords.WideNumberStays` | internal/store/store.go:139-291 | an owner that ends in a number has no twin when its own number is wider than 32 bits |
| `SyncRecords.InnerNumbersCollide` | internal/store/store.go:139-291 | three numbers that fit the fields inside an owner give a twin although it ends in no number and the provider starts with none |
| `SyncRecords.ColonOwnersCollide` | internal/store/store.go:271-291 | two different ids with one key, when an owner has a colon |
| `SyncFold.FoldAt` | internal/sync/engine.go:37-223 | one key of the store after any sequence of writes is the run of that key's own writes |
| `SyncFold.ReconcilesKeepLocal` | internal/sync/reconcile.go:173-198 | any number of reconciliations keep all local fields and the first non-zero creation and closing times |
| `SyncFold.ReconcileIdempotent` | internal/sync/reconcile.go:173-198 | reports of an unchanged chain applied again change only update time and record version |
| `SyncFold.ClosedStaysClosed` | internal/sync/engine.go:62-119 | a closed record stays closed over its own events without a creation |
| `SyncFold.EventsRefineChain` | internal/sync/engine.go:62-119 | after a history that begins with creation, state and version are the chain's |
| `SyncFold.PathsAgree` | internal/sync/reconcile.go:173-198 | folding such a history and reconciling the chain it leads to give the same state and version |
| `SyncFold.LocalSurvives` | internal/sync/engine.go:62-119 | over any mix of events and reports, local fields survive exactly when there is no creation event among them |
| `SyncFoldMarket.LeaseReconcilesKeepLocal` | internal/sync/reconcile.go:201-219 | reconciliations keep a lease's provider address, endpoints and first times |
| `SyncFoldMarket.LeaseReconcileIdempotent` | internal/sync/reconcile.go:201-219 | the same lease reports again change only the record version |
| `SyncFoldMarket.BidReconcileIdempotent` | internal/sync/reconcile.go:222-238 | the same bid reports again change only the record version |
| `SyncPlans.SteadyPlan` | internal/sync/reconcile.go:110-169 | on a chain that stands still the answers prescribe everything on it, owner by owner |
| `SyncPlans.PlanSourced` | internal/sync/reconcile.go:110-169 | everything the answers prescribe was in an answer about a tracked owner |
| `SyncPlans.OutcomeThen` | internal/sync/reconcile.go:110-169 | a step after a successful one carries out the joined plan: the exact writes done, queries asked and accesses made, whatever fails |
| `SyncEngine.Engine.ReconcileDeployment` | internal/sync/reconcile.go:110-169 | if every access to the store works, exactly what the answers prescribe up to an unanswered query was written and no query asked after it, success meaning that all were answered; otherwise the failed access was the last, what comes before its record in the plan was written, and no query after that was asked |
| `SyncEngine.Engine.FullReconcile` | internal/sync/reconcile.go:110-169 | the same over all owners in order |
| `SyncEngine.Engine.ReconcileNow` | internal/sync/reconcile.go:64-169 | the height is recorded only when the whole plan was written and every access worked, and is the one read before any other query, so no greater than the chain height at any query of the run; a failed run leaves the recorded state alone; on a steady chain everything is written |
| `SyncEngine.Engine.HandleEvent` | internal/sync/engine.go:37-223 | an event of an untracked owner changes and accesses nothing; otherwise success means every access worked, as many as the event needs, and the event was written, and a failing read or write was the last access and leaves nothing, or a new lease whose bid was not marked |
| `SyncLaws.ReconcileNowIdempotent` | internal/sync/reconcile.go:64-238 | a second run on an unchanged chain leaves every deployment, lease and bid the same up to update time and record version |
| `SyncLaws.RunsKeepLocal` | internal/sync/reconcile.go:64-238 | over any sequence of reconciliations, complete or cut short, against any nodes, every record in the store keeps its local-only data and its first times |
| `SyncLaws.UnnamedUntouched` | internal/sync/reconcile.go:110-169 | a record no write names stays as it was |
| `SyncLaws.ReconcileLeavesUntracked` | internal/sync/reconcile.go:110-169 | a run, complete or cut short, changes no deployment of an untracked owner |
| `SyncLaws.ReconcileLeavesUntrackedMarket` | internal/sync/reconcile.go:110-169 | the same for leases and bids of colon-free owners |
| `SyncLaws.EventsLeaveUntracked` | internal/sync/engine.go:37-223 | no event sequence, whatever accesses fail, changes a deployment of an untracked owner |
| `SyncLaws.EventsLeaveUntrackedMarket` | internal/sync/engine.go:121-223 | the same for leases and bids of colon-free owners |
| `SyncLaws.ClosedStaysClosedInStore` | internal/sync/engine.go:37-223 | a deployment closed in the store stays closed over any events of any ids, whatever accesses fail, until one creates that very deployment |
| `SyncLaws.HistoryRefinesChain` | internal/sync/engine.go:37-223 | over any interleaving with other events, a deployment created in the history has the chain's state and version in the store |
| `SyncEventLaws.LastLeaseEventDecides` | internal/sync/engine.go:161-223 | over any events, whatever accesses fail, the last event of a lease that took effect decides its record: closed at that time with its terms kept, or active at the announced price with nothing local and no closing time |
| `SyncEventLaws.LeaseStands` | internal/sync/engine.go:161-223 | until it is created again, a lease keeps its price, provider data and creation time, and a closed one stays closed |
| `SyncEventLaws.LastBidEventDecides` | internal/sync/engine.go:121-201 | the last event of a bid that took effect decides its record: open at the announced price, closed, or matched by a lease on a known bid, the last two keeping its terms |
| `SyncEventLaws.BidStands` | internal/sync/engine.go:121-201 | until it is created again, a bid keeps its price, attributes and creation time |
| `SyncEventLaws.LastDeploymentEventDecides` | internal/sync/engine.go:62-119 | the last event of a deployment that took effect decides its state, version and times, and an update or closing keeps its local data |
| `SyncPages.Querier.WalkKeys` | internal/sync/querier.go:60-177 | the requests made follow the keys given, none twice, and stop at the last page, a failure or a repeated key; success exactly on a complete route, with the records answered in order |
| `SyncPages.RouteDecided` | internal/sync/querier.go:60-177 | a node has at most one complete route, and a walk that stopped anywhere else shows that it has none |
| `SyncPages.FaithfulWalk` | internal/sync/querier.go:60-177 | on a faithful node no request fails, no key repeats, and the last page completes the list |
| `SyncPages.Querier.Walk` | internal/sync/querier.go:60-177 | the same as callers see it: the requests are bounded by the keys there are and are the only complete route if the node has one, and then the walk succeeds; a faithful node's list comes back whole, each record once and in order |
| `ActionLogEntries.CollapseRevisions` | internal/actionlog/log.go:180-199 | the loop with its index map is the fold of the revisions |
| `ActionLogEntries.CollapseRepresents` | internal/actionlog/log.go:180-199 | the collapsed log has one entry per opening record, in order, with that record's time and every other field of the transaction's last record |
| `ActionLogEntries.CollapsedDistinct` | internal/actionlog/log.go:180-199 | no transaction occurs twice |
| `ActionLogEntries.CollapseIdempotent` | internal/actionlog/log.go:180-199 | collapsing twice is collapsing once |
| `ActionLogEntries.CollapseIncremental` | internal/actionlog/log.go:180-199 | collapsing a collapsed log with more entries is collapsing all of them |
| `ActionLogEntries.CollapseKeepsOrder` | internal/actionlog/log.go:180-199 | chronological entries stay chronological |
| `ActionLogEntries.CollapseCommutesExactly` | internal/actionlog/log.go:130-302 | on a chronological log whose revisions agree on the filtered fields, filtering before and after the collapse are the same if and only if the filter takes all or none of the records of each transaction |
| `ActionLogEntries.CollapseCommutesWithFilter` | internal/actionlog/log.go:130-302 | in any order of records, without Since, they are the same when revisions agree on the filtered fields |
| `ActionLogEntries.DisagreementDoesNotCommute` | internal/actionlog/log.go:130-302 | agreement on the filtered fields is needed: a log of two revisions of which only the later matches is told apart by the entry time |
| `ActionLogFiles.WriteKept` | internal/actionlog/log.go:96-127 | one entry is appended, and what is dropped is nothing or exactly the oldest of six files |
| `ActionLogFiles.ReplayBounded` | internal/actionlog/log.go:215-251 | after any history there are at most six files, each under 20 MiB, and every rotated one has at least 10 MiB |
| `ActionLogFiles.KeptIsSuffix` | internal/actionlog/log.go:96-251 | after any history the files, oldest first, are its end, and something is missing only with 50 MiB of newer entries there |
| `ActionLogFiles.Logger.MaybeRotate` | internal/actionlog/log.go:215-251 | the renames shift every file by one, drop the sixth and leave contiguous files |
| `ActionLogFiles.Logger.Log` | internal/actionlog/log.go:96-127 | exactly the oversized record is refused and changes nothing; otherwise the history grows by the stamped entry and the directory still holds it |
| `ActionLogFiles.ListedSatisfies` | internal/actionlog/log.go:130-302 | every listed entry has the type, account, number and workflow asked for and is not before Since; it is a stored record at the time of its transaction's first matching one |
| `ActionLogFiles.ListingCovers` | internal/actionlog/log.go:130-302 | every stored record with these values is in a listing that the limit does not cut, itself or through its transaction |
| `ActionLogFiles.ListingOrdered` | internal/actionlog/log.go:130-174 | the listing of a chronological log is newest first and within the limit |
| `ActionLogFiles.Logger.Read` | internal/actionlog/log.go:130-174 | the listing, newest first and limited, of the collapsed matching entries on disk, which are an end of the history and all of it unless 50 MiB are there |
| `ContextLaws.AttemptSound` | internal/context/manager.go:95-582 | every operation whose callbacks keep names, and that does not rename to nothing, keeps names unique and references leading somewhere, saved or not |
| `ContextLaws.RunSound` | internal/context/manager.go:46-582 | so does every run of operations and reloads, in memory and in the file |
| `ContextLaws.CreatableExactly` | internal/context/manager.go:262-321 | a context can be created exactly with a new name, references that lead somewhere, a network unless it is a Console context, and known authentication; the created one has its blanks filled with the defaults |
| `ContextLaws.ResolvesListed` | internal/context/manager.go:610-676 | in a sound configuration exactly the listed contexts resolve, and the unnamed one when a current context is set |
| `ContextLaws.ResolvedFromTables` | internal/context/manager.go:610-676 | and what each resolves to, field by field: the network and keyring of the tables, gas prices and adjustment of that network, the context's own accounts, gas and fees, and the defaults where it is blank |
| `ContextViews.UnreachedResolvesSame` | internal/context/manager.go:95-676 | a context an operation does not reach resolves to the same as before |
| `ContextViews.AttemptAchieves` | internal/context/manager.go:95-582 | what success of each operation means for later lookups and Resolve: what is created is found with its defaults, what is edited is found edited, what is deleted or renamed no longer resolves, a switch makes the unnamed context the chosen one |
| `ContextViews.StepDelivers` | internal/context/manager.go:41-582 | every call, saved or not: success is in the file and failure leaves the file alone, soundness is kept in both, contexts out of reach resolve as before, success achieves what was asked |
| `ContextViews.RenamedResolves` | internal/context/manager.go:478-508 | a renamed context resolves to what it was under the new name, and not under the old |
| `ContextViews.ForkResolves` | internal/context/manager.go:346-449 | the context sees the edited copy, and the network it was copied from is unchanged |
| `ContextViews.RenamedToNothingIsLost` | internal/context/manager.go:478-508 | renaming to an empty name is accepted and leaves a listed context that nothing resolves to |
| `ContextManager.Manager.CreateNetwork` | internal/context/manager.go:95-110 | verdict, memory and file; delivers as above, the network staying in memory when the save fails |
| `ContextManager.Manager.UpdateNetwork` | internal/context/manager.go:128-142 | verdict, memory and file; delivers as above, the callback's change staying in memory even when it fails |
| `ContextManager.Manager.ForkNetwork` | internal/context/manager.go:145-163 | verdict, memory and file; delivers as above, the source unchanged |
| `ContextManager.Manager.DeleteNetwork` | internal/context/manager.go:166-180 | verdict, memory and file; delivers as above, so no context that resolved stops resolving |
| `ContextManager.Manager.NetworkUsers` | internal/context/manager.go:183-199 | exactly the names of the contexts that refer to the network |
| `ContextManager.Manager.CreateContext` | internal/context/manager.go:262-321 | verdict, memory and file; delivers as above, and nothing changed unless it succeeds |
| `ContextManager.Manager.UseContext` | internal/context/manager.go:324-335 | verdict, memory and file; delivers as above |
| `ContextManager.Manager.UpdateContextAndNetwork` | internal/context/manager.go:346-449 | all or nothing: on success file and memory agree and hold both edits, otherwise neither changed, failing saves included; delivers as above |
| `ContextManager.Manager.DeleteContext` | internal/context/manager.go:453-475 | verdict, memory and file; delivers as above, never the current context |
| `ContextManager.Manager.RenameContext` | internal/context/manager.go:478-508 | verdict, memory and file; delivers as above, the current context following |
| `ContextManager.Manager.CreateKeyring` | internal/context/manager.go:544-563 | verdict, memory and file; delivers as above |
| `ContextManager.Manager.UpdateKeyring` | internal/context/manager.go:568-582 | verdict, memory and file; delivers as above, the callback's change staying in memory even when it fails |
| `ChangelogText.CountOne` | tools/changelog/main.go:118-123 | counting the heading to one is having it at its first place and nowhere else |
| `ChangelogLaws.ParsedWellFormed` | tools/changelog/main.go:97-116 | a parsed fragment has a one-line name and no body line that starts with a hash |
| `ChangelogLaws.ParsesExactly` | tools/changelog/main.go:97-116 | a fragment parses exactly with a slug and one of the six words in its name, a bullet that says something, and no line that starts like a heading or conflict marker or holds an assembly marker |
| `ChangelogLaws.MisleadingParses` | tools/changelog/main.go:97-116 | a bullet ending like the heading parses |
| `Changelog.AssembleArchive` | tools/changelog/main.go:118-159 | the nested loops give the specified archive or refusal |
| `ChangelogResume.ArchiveSurvives` | tools/changelog/main.go:118-159 | the old archive is prefix and suffix around one insertion with at most one added newline, below the heading and the empty line after it |
| `ChangelogResume.AdditionSpelledOut` | tools/changelog/main.go:118-159 | what is added is the six titled sections in their order, each with the marked blocks of its fragments not yet assembled, in file order |
| `ChangelogResume.AssembledHolds` | tools/changelog/main.go:118-159 | the new archive has one heading and the whole block of every fragment |
| `ChangelogResume.ResumesExactly` | tools/changelog/main.go:57-159 | assembling any of the fragments again succeeds and changes nothing, if and only if nothing was added or no body line ends like the heading |
| `ChangelogResume.CrashesDoNotShow` | tools/changelog/main.go:26-68 | after any number of runs cut short anywhere, a finished run leaves what one undisturbed run leaves |
| `ChangelogResume.Workspace.Assembly` | tools/changelog/main.go:26-68 | archive and remaining fragments after a run that dies after any number of file operations |
| `ProviderStream.EmittedIsPrefix` | internal/provider/gateway.go:89-122 | in every interleaving, at every point, what was emitted followed by what is left is the stream |
| `ProviderStream.ScheduleIndependent` | internal/provider/gateway.go:89-122 | every interleaving that drains both channels ends in the same state: all records, and the last non-empty reason |
| `ProviderStream.CanContinue` | internal/provider/gateway.go:89-122 | a run is drained exactly when no channel is left to receive from, so it never gets stuck |
| `ProviderStream.CloseFailsMeans` | internal/provider/gateway.go:71-83 | a close reason is an error unless it is empty or, when not following, speaks of EOF in any letter case |
| `ProviderStream.ConsumeStream` | internal/provider/gateway.go:74-122 | emitted records are a prefix; without cancellation or emit error all of them, with the verdict of the last non-empty reason; an emit error is at the first record not accepted, and a cancellation was offered while the channels were drained |
| `ProviderStream.RetainAll` | internal/provider/gateway.go:137-148 | folding RetainTail keeps exactly the last records up to a positive limit, and none otherwise |

## Left out

- The patch's name and manifest-version guard inside `Apply`, and trimming of names: they do not touch the document. `PatchDefinition` models their use.
- YAML and JSON text, the 1 MiB bound and strict decoding: printing and parsing are the identity on values, a number is its shortest decimal text, and negative zero is not told apart.
- Case-insensitive keys of Go's JSON decoder in `Validate`.
- Sorting of an `env` array that holds other values than strings: the normal form leaves it alone.
- YamlSharing.AcceptedIsPrivate: takes endpoints and volumes as the check does, by the literal text of the port and by directly declared keys; an endpoint whose port is only merged in is not found by it.
- Values behind aliases below a service: the sharing claims are about node graphs, and the patch laws about the expanded values.
- HTTP, TLS, timeouts, backoff and response size limits: a reply is its status and what decoding its body yields. Context deadlines and polling budgets are parameters.
- ConsoleClient.Client.CreateLease: does not claim that a logged failure means no lease, because the `manifest_not_delivered` outcome reports failure while the lease exists.
- `CloseDeployment`, `ListDeploymentsByState`, `FetchBids`, settings, wallet and marketplace calls: the same retry loop with easier claims; no at-most-once claim for DELETE, which may be resent.
- The content of manifests, hashes and sealed secrets: parameters of the calls.
- A missing action logger, and the diagnostics inside errors: an error is a refusal, with the class that callers branch on.
- Overflow of page offsets and of the 64-bit record version: both are unbounded here, and so is a deployment number outside lease and bid ids, where nothing depends on its width.
- ActionLogEntries.CollapseCommutesExactly: is stated for logs in order whose revisions agree on the filtered fields; without these, whether the two orders differ depends on the other fields and on the entries in between.
- The height-gap threshold of `Reconcile`, its counters, `UniqueDeploymentOwner`, and the decoding of chain responses into records.
- SyncPages.Querier.Walk: needs the node to have a finite supply of continuation keys, since a node that invents a fresh key for ever is never left by the source either.
- File-system failures during log rotation, stat failures, reads racing with rotation, other processes writing the log, and undecodable or overlong lines: a file is its sequence of entries, and the size of an entry is any function.
- Context data directories on disk, the Console API key file and the other settings in the configuration: the outcome of the directory work is a parameter.
- Slices shared between copies: a context and a network are values here. In the source the context copy handed to a callback shares its account list with the stored one, and a network made by `ForkNetwork` shares its endpoint lists with the network it was copied from, so an edit of list elements in place reaches both.
- A context created with a whole network or keyring object: a context refers to both by name, as the saved file does.
- `checkPR`, `readFragments` and fragments that do not parse: such a run is refused before anything is written.
- Invalid UTF-8 in fragments and other than ASCII upper case in close reasons, error texts and lease states.
- The terminal interface, flags, prompts, capability gating, deposit parsing, workflow engine, gas-price floor and keyring cache: user interface or smaller pieces that would only add easier members.
