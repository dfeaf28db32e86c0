# Verified model of the planner, rollback, retry, resilience, manifest, cache, cohort and drift code

A Dafny model of the parts of the repository whose correctness is hardest to see from the code, with proofs about
every input, every run and every interleaving. `dafny verify dfyconfig.toml` checks all of it.

## What is modelled

- **FamilySearch writes** (`Strings`, `Gedcomx`, `OpKeys`, `WriteFindings`, `WritePlan`, `WriteApply`, `TreeServer`;
  theorems in `PlanProperties`, `PlanMeaning`, `PlanDecisions`, `ApplyProperties`, `ApplyMeaning`, `Replan`,
  `HaltedRun`). `buildPlan` turns findings and a person document into an ordered list of operations; `applyPlan` plans
  again, posts what is both reviewed and still planned, and halts at the first failure. The server is a document that
  stores what is posted and shows a description only once the person refers to it, as `writeApply.ts:25-31` describes.
  The main results: a plan holds exactly what the texts of findings, person and document call for, plans are well
  formed, runs are safe, and planning again after any run, complete or halted, repeats exactly what the theorems name.
- **Rollback** (`TargetOrder`, `RollbackStores`, `RollbackExecutor`, `HealthGate`). The topological sort is proved
  against reachability of cycles and against the order of service; the executor against the three versioned stores;
  executor and gate together.
- **Requests** (`RequestRetry`). The retry loop with its three counters: attempts, sleep and outcome of every run from
  the answers alone, no write repeated unless it was refused, and bounds that are attained. Status 429 is that of
  section 4 of RFC 6585, the delay-seconds form of Retry-After that of section 10.2.3 of RFC 9110.
- **Resilience** (`RateLimiting`, `CircuitBreaking`, `FallbackChaining`, `Retrying`, `Hardening`,
  `HardeningInterleaved`, `StableSort`). State machines whose admissions, completions and timer firings interleave at
  will, and their composition, for one request and for any number at once.
- **Ingestion manifest** (`ManifestLines`, `ManifestProtocol`). Any number of processes append, prune, repair and
  review one file under a lock file, one file operation per step. Every interleaving is equivalent to running the
  finished operations one after the other, and no complete record is lost.
- **Cache, cohorts, drift** (`RagCaching`, `Cohorts`, `Drift`). The bounded cache against the plain map of last
  writes, the progression log, and deep equality against equality up to the order of keys.

Code that updates objects is modelled by classes and loops whose contracts equate the new state with a function of the
old one; the theorems are about these functions. Clocks, answers of servers, of the person who confirms and of
protected functions, and the verdicts of injected validators and handlers are parameters, so a theorem holds for all
of them. `Rules` holds the text functions `norm`, `yearOf`, `dayOf` and the tests for blank and bare-year texts as
arbitrary functions; `EmptyTextRules` says the only thing needed of them, that the empty text has the empty normal
form.

## Where the code differs from what it says

- `rollback-executor.ts:82` can be read as dependents first; the code emits dependencies first, and so does the model.
- Finding ids with commas can make operation ids collide (`CommaBreaksDistinctIds`), exactly as
  `OperationIdsDistinctIff` and `PlansWellFormed` say; the results about planning again ask that no two groups of
  findings collide (`CommaFreeApart`).
- A description that matches but has no usable id is skipped by neither branch of `writePlan.ts:313-354`, so planning
  again repeats its attachment (`UnnameableRepeats`); the fixed point holds exactly without such descriptions.
- A run that halts between creating a description and attaching it leaves one that the next plan creates again, as
  `writeApply.ts:25-31` warns (`HaltedRunCreatesAgain`); `RerunRepeatsIff` says exactly what comes back.
- A residence whose place has no part left after normalisation is added again by every plan (`PostedFactStatus`,
  `UnmatchableResidenceRepeats`); `CompleteRunRepeatsNoFingerprint` says exactly when a complete run repeats nothing.
- A cache rollback to a version that is no number succeeds and stores `undefined` (`CacheVersionRecorded`), since both
  range tests at `rollback-executor.ts:224` are false for NaN; `SuccessRestoresAll` says when a run restores
  everything. State-store versions with falsy values read as missing (`FalsyVersionFails`).
- With the default rate threshold of 0.5 a fresh circuit breaker opens at its first call if that fails, whatever
  `failureThreshold` says, because the rate is over the whole lifetime (`OpensAfterFailures`).
- A failed trial need not reopen that breaker when calls overlap (`OverlappingTrialMayStayHalfOpen`); it does exactly
  when a threshold is reached (`FailureOpensIff`), which sequential use guarantees (`FailedTrialReopens`).
- The token bucket never grants anything when its capacity is below one token (`SmallBucketStarves`), which the
  default burst of twice the rate gives for rates below one request every two seconds.
- `oldestRetainedDate` and `youngestArchivedDate` are the first dates in file order, not the extreme ones
  (`StatisticsDates`, `ChronologicalDates`, `OldestMayBeWrong`).
- The cache evicts by last write, not by last use as its comment on line 36 says (`RecentlyUsedMayGo`);
  `EvictionIsLru` says exactly when the victim is a least recently used key all the same.
- Assignment ids are unique for proposals without a hyphen (`SameIdIffSameRequest`), and otherwise may not be
  (`AssignmentIdsCollide`).
- The drift report has no changed field for some values that differ (`DriftWithoutFields`); `DriftIsReported` and
  `ParsedDriftIsReported` say when it has one.

## Model

| member | source | states |
|---|---|---|
| `Gedcomx.FirstPersonFound` | src/adapters/familysearch/writePlan.ts:244 | the person found is the first with the id, and there is none exactly when no person has it |
| `Gedcomx.DescriptionUrlRoundTrip` | src/adapters/familysearch/writePlan.ts:628-632 | the id read back from a description URL is always non-empty and free of `/`, `?`, `#`, and equals the id put in exactly for ids that are so |
| `Gedcomx.ReferencesRead` | src/adapters/familysearch/writePlan.ts:628-632 | a plain id is read as itself, alone, after a `#`, or before a query, a fragment or a slash |
| `OpKeys.OpKeyIdentity` | src/adapters/familysearch/writePlan.ts:107-109 | for comma-free finding ids two operation keys are equal exactly when type and multiset of findings are |
| `OpKeys.SameKeyIffSameText` | src/adapters/familysearch/writePlan.ts:107-109 | for any finding ids two operation keys are equal exactly when type and joined text are |
| `OpKeys.CommasCollide` | src/adapters/familysearch/writePlan.ts:107-108 | with a comma in a finding id two different sets of findings get one key |
| `WritePlan.AcceptFindings` | src/adapters/familysearch/writePlan.ts:260-273 | the intake loop computes accepted and dropped findings of the specification |
| `PlanProperties.IntakePartition` | src/adapters/familysearch/writePlan.ts:260-273 | accepted and dropped findings partition the input, in order: accepted are the valid ones whose id no earlier entry had; each other one is dropped with its own problem or as a duplicate |
| `PlanProperties.AcceptedIdsDistinct` | src/adapters/familysearch/writePlan.ts:262-269 | no finding id is accepted twice |
| `WritePlan.GroupBySource` | src/adapters/familysearch/writePlan.ts:285-289 | the grouping loop computes the groups of the specification |
| `PlanProperties.GroupsPartition` | src/adapters/familysearch/writePlan.ts:285-289 | keys are distinct, a group holds exactly the findings with its key in input order, every finding is in a group |
| `PlanProperties.FirstDescriptionFound` | src/adapters/familysearch/writePlan.ts:634-647 | the first description that matches by URL, marker or title is found, and none exactly when none matches |
| `WritePlan.PlanSourceOps` | src/adapters/familysearch/writePlan.ts:291-382 | the group loop plans creates and attachments as specified, or stops at the first malformed declared id |
| `PlanProperties.SourceOps` | src/adapters/familysearch/writePlan.ts:313-381 | a description is created for exactly the groups without an existing one, and attached for exactly those not attached |
| `WritePlan.PlanFindingOps` | src/adapters/familysearch/writePlan.ts:384-457 | the findings loop plans notes and conclusions as specified |
| `PlanProperties.NoteOps` | src/adapters/familysearch/writePlan.ts:395-420 | the notes planned are exactly those of the findings that are neither conclusions nor noted |
| `PlanProperties.FactOps` | src/adapters/familysearch/writePlan.ts:451-456 | every planned conclusion is that of an accepted finding whose conclusion the person lacks |
| `PlanProperties.ConclusionsCovered` | src/adapters/familysearch/writePlan.ts:431-456 | a missing conclusion is planned unless an equal one, or another one of the same unique kind, is |
| `PlanProperties.OperationIdsDistinct` | src/adapters/familysearch/writePlan.ts:320-459 | if no two groups of findings join their ids to the same text, all operation ids of a plan are distinct, and equal their fingerprints |
| `PlanProperties.CommaFreeApart` | src/adapters/familysearch/writePlan.ts:107-109 | with comma-free finding ids no two groups do |
| `PlanProperties.OperationIdsDistinctIff` | src/adapters/familysearch/writePlan.ts:320-459 | for any ids the operation ids of a plan are distinct exactly when no two groups with operations of the same type join their finding ids to the same text |
| `PlanProperties.CommaBreaksDistinctIds` | src/adapters/familysearch/writePlan.ts:107-108 | three well-formed raw findings, one with a comma in its fact id, for which `buildPlan` returns two operations with the same id |
| `PlanProperties.RawRoundTrip` | src/adapters/familysearch/writePlan.ts:177-216 | a finding comes back from the JSON object that spells it, which has no problem exactly when the finding is acceptable |
| `PlanProperties.SpelledAreAccepted` | src/adapters/familysearch/writePlan.ts:260-273 | every list of acceptable findings with distinct ids is what the intake makes of its spelling |
| `PlanProperties.DependenciesEarlier` | src/adapters/familysearch/writePlan.ts:360-459 | `dependsOn` always names an earlier create over the same findings, and only attachments have one |
| `PlanProperties.AtMostOneUniqueFact` | src/adapters/familysearch/writePlan.ts:440-450 | at most one birth and one death is added, and none if the person has such a fact |
| `PlanProperties.ConclusionsNeedOptIn` | src/adapters/familysearch/writePlan.ts:423-429 | without `allowConclusions` no fact and no name is planned |
| `PlanProperties.FindingsAccounted` | src/adapters/familysearch/writePlan.ts:386-456 | of any choice of accepted findings there are as many note outcomes as findings, and as many conclusion outcomes as the person lacks their conclusions: operations or recorded skips |
| `PlanProperties.EachFindingAccounted` | src/adapters/familysearch/writePlan.ts:386-456 | each accepted finding has exactly one note outcome, the one of its branch, and exactly one conclusion outcome if the person lacks its conclusion, none otherwise |
| `PlanProperties.PlansWellFormed` | src/adapters/familysearch/writePlan.ts:237-461 | every returned plan has earlier dependencies, ids equal to fingerprints and unique facts at most once, and distinct ids exactly when no two groups of accepted findings collide; so without commas in ids it is well formed, whatever the document |
| `WritePlan.BuildPlan` | src/adapters/familysearch/writePlan.ts:237-461 | `buildPlan` returns the specified outcome: missing person, possibly living, malformed declared id, or the plan; `PlanDecides` says what that is by the texts alone |
| `PlanDecisions.PlanDecides` | src/adapters/familysearch/writePlan.ts:237-461 | nothing is planned for a missing person or one that may be living; the call fails exactly for a malformed declared id; else operations and skips are, in order, those of every source and finding as their texts and those of person and document decide |
| `PlanDecisions.PlacesDecide` | src/adapters/familysearch/writePlan.ts:384-457 | places as pieces between commas: a finding is skipped as present exactly when a fact of its type agrees in date and the normalised pieces of one place are all pieces of the other; otherwise it has its note, and a residence its conclusion or a record of why not |
| `PlanDecisions.SanDiegoIsNotSanFrancisco` | src/adapters/familysearch/writePlan.ts:500-510 | San Diego in California never agrees with San Francisco in California; a piece more on one side does not matter |
| `PlanMeaning.SpellingDecides` | src/adapters/familysearch/writePlan.ts:503-510 | however two places are spelled as pieces, the pieces decide whether they agree |
| `PlanMeaning.PlaceMeans` | src/adapters/familysearch/writePlan.ts:503-510 | `placeAgrees` holds exactly for an unstated place, or if both have parts and the parts of one are all parts of the other |
| `PlanMeaning.UniqueDateMeans` | src/adapters/familysearch/writePlan.ts:487-498 | `uniqueDateAgrees` holds exactly for an unstated date, the same year of a bare year, the same full day, or else the same text |
| `PlanMeaning.StatusMeans` | src/adapters/familysearch/writePlan.ts:465-522 | a finding counts as present exactly if the person shows its name or a fact of its type with agreeing date and place, as absent exactly if the person lacks it, as conflict exactly for another birth or death |
| `PlanMeaning.FindingsPlanned` | src/adapters/familysearch/writePlan.ts:384-457 | the loop with its running sets plans for each finding what the person shows and lacks and the earlier findings say: of missing conclusions with one key, or of one unique kind, the first is planned and the others are recorded |
| `PlanMeaning.FindingDecided` | src/adapters/familysearch/writePlan.ts:386-456 | for findings with distinct ids each outcome of one is in the plan exactly in its case: present, noted, note planned, conclusion planned, conclusion recorded as not planned |
| `PlanMeaning.KeysMean` | src/adapters/familysearch/writePlan.ts:431-439 | findings equal but for spelling share their conclusion key, and unless a bar occurs in what is compared, which `norm` and `dayOf` never leave, only they do |
| `PlanDecisions.AcceptedExactly` | src/adapters/familysearch/writePlan.ts:177-211 | a parsed value is taken in exactly if it spells an acceptable finding, and as that finding |
| `PlanDecisions.DroppedFor` | src/adapters/familysearch/writePlan.ts:177-211 | a value that is not taken in is dropped for the first of the checks that it fails |
| `PlanDecisions.IdsShown` | src/adapters/familysearch/writePlan.ts:213-216 | the id under which a value is dropped names what it has of source id and fact id |
| `PlanDecisions.LivingMeans` | src/adapters/familysearch/writePlan.ts:227-235 | possibly living: marked so, or without a known death and born less than 110 years ago, or with an unknown birth year and not marked as dead |
| `PlanDecisions.SourcesPlanned` | src/adapters/familysearch/writePlan.ts:291-382 | the group loop plans a description for each source not known under an id, an attachment for each the person does not refer to, and records the others |
| `PlanDecisions.NeedsMean` | src/adapters/familysearch/writePlan.ts:299-354 | known: declared, or described by address, marker or title in a description with a usable id; referred to: by the address of a reference or, without one, by its id |
| `PlanDecisions.CreateReads` | src/adapters/familysearch/writePlan.ts:320-341 | a new description has the address and title of its source, its marker and all notes of its findings |
| `PlanDecisions.AttachReads` | src/adapters/familysearch/writePlan.ts:355-381 | an attachment refers to the planned or to the known description, and depends on the planned one |
| `PlanDecisions.TagsMean` | src/adapters/familysearch/writePlan.ts:301-308 | the tags are, once each, the types of the conclusions that the findings support |
| `PlanDecisions.NoteReads` | src/adapters/familysearch/writePlan.ts:599-611 | a note has its lines: kind and value, date and place if stated, source, the conflict if there is one, the remark and the marker |
| `PlanDecisions.ConclusionReads` | src/adapters/familysearch/writePlan.ts:524-588 | a conclusion says the name, or the type, date and place, of its finding |
| `WriteApply.ApplyPlan` | src/adapters/familysearch/writeApply.ts:63-186 | `applyPlan` is not refused exactly with confirmation and callback, the opt-in unless the writer is not production and the environment beta, no unknown environment, and verified sources if the plan creates one; else it is refused for the first that is missing; then it re-plans and executes as specified |
| `WriteApply.RefusalMeans` | src/adapters/familysearch/writeApply.ts:63-101 | each refusal exactly in its case, in the order of the checks |
| `WriteApply.PostApproved` | src/adapters/familysearch/writeApply.ts:159-183 | waiting, reference resolution, POST and bookkeeping of one approved operation |
| `WriteApply.ExecuteAll` | src/adapters/familysearch/writeApply.ts:128-184 | the execution loop |
| `ApplyProperties.StaleMeaning` | src/adapters/familysearch/writeApply.ts:118-126 | stale results are one `already_present` each for the reviewed operations that the fresh plan lacks |
| `ApplyProperties.ReviewedMeaning` | src/adapters/familysearch/writeApply.ts:111-128 | executed are exactly the fresh operations that were reviewed |
| `ApplyProperties.OneResultPerOperation` | src/adapters/familysearch/writeApply.ts:109-185 | exactly one result per planned operation, `already_present` exactly for the stale ones, whatever the fresh plan, confirmations and failures |
| `ApplyProperties.PostsAreReviewed` | src/adapters/familysearch/writeApply.ts:128-173 | the POSTs are a subsequence of the fresh operations that are reviewed and confirmed |
| `ApplyProperties.FailureHalts` | src/adapters/familysearch/writeApply.ts:128-183 | at most one `failed` result and only `not_run` after it; the run is halted exactly then |
| `ApplyProperties.PostsSpaced` | src/adapters/familysearch/writeApply.ts:159-176 | with a positive clock each POST starts at least `minIntervalMs` after the one before ended |
| `ApplyMeaning.PostsOnTime` | src/adapters/familysearch/writeApply.ts:142-176 | each POST starts when it is confirmed, unless that is less than the interval after the end of the one before: then it starts when the interval is over; so none waits longer than asked |
| `ApplyMeaning.CreatedAre` | src/adapters/familysearch/writeApply.ts:162-168 | the ids that later operations can refer to are exactly those of the creates that were posted and whose answers named an id |
| `ApplyMeaning.DependentsShareFate` | src/adapters/familysearch/writeApply.ts:133-141 | an operation whose create did not take place counts as declined if the create was declined, else as not run, and is never posted |
| `ApplyProperties.DependentsFollowCreates` | src/adapters/familysearch/writeApply.ts:133-168 | an operation with `dependsOn` is posted only after that create was posted and returned an id, and carries its URL |
| `ApplyProperties.ReferencesResolve` | src/adapters/familysearch/writeApply.ts:188-206 | `resolveRefs` never throws: on operations over plain texts a run fails only at a confirmation that throws or a rejected POST |
| `ApplyProperties.BodiesPosted` | src/adapters/familysearch/writeApply.ts:162-163 | every posted body is the planned one with only its own reference replaced |
| `ApplyProperties.PlansArePlain` | src/adapters/familysearch/writePlan.ts:320-456 | a plan over findings without reference prefixes has no stray reference in any body |
| `ApplyProperties.SafeRun` | src/adapters/familysearch/writeApply.ts:109-206 | all of this for one run at once, for any reviewed plan, any confirmations and any server; no operation is posted twice |
| `TreeServer.CreatedDescribes` | src/adapters/familysearch/writePlan.ts:336-339 | a description created for a group is found again for that group |
| `TreeServer.NoteCarriesMarker` | src/adapters/familysearch/writePlan.ts:603-611 | the text of a posted note contains the marker that later plans look for |
| `TreeServer.PresenceGrows` | src/adapters/familysearch/writePlan.ts:465-481 | a conclusion or note that is present stays present as the stored person grows |
| `TreeServer.EffectLasts` | src/adapters/familysearch/writeApply.ts:162-174 | the effect of each accepted POST is still in the document at the end of the run |
| `TreeServer.CreatedKept` | src/adapters/familysearch/writeApply.ts:25-31 | a created description stays stored, hidden from the person until it is attached |
| `TreeServer.AttachedIsListed` | src/adapters/familysearch/writeApply.ts:25-31 | once attached, a created description is listed in every later document |
| `Replan.SettledStays` | src/adapters/familysearch/writePlan.ts:299-354 | a group whose description is found, named and attached is planned no more |
| `Replan.UnnameableRepeats` | src/adapters/familysearch/writePlan.ts:299-354 | a group whose matching description has no usable id is attached again in every later plan |
| `Replan.PostedFactMatches` | src/adapters/familysearch/writePlan.ts:503-522 | a posted fact matches the finding it came from exactly when its place is blank or has a part left after normalisation |
| `Replan.PostedFactStatus` | src/adapters/familysearch/writePlan.ts:465-481 | after posting, the conclusion still counts as absent exactly for a residence with such an unmatchable place |
| `Replan.UnmatchableResidenceRepeats` | src/adapters/familysearch/writePlan.ts:503-510 | a residence at a place that normalises to nothing is in the plan of `buildPlan`, and after it was stored is in the next plan again |
| `Replan.PostedReturnsIff` | src/adapters/familysearch/writePlan.ts:237-461 | the exact account of what planning again repeats, whatever part of a plan was carried out and however the run ended: an operation that took effect, its answer lost or not, and any create, comes back exactly if it is a create whose group has no nameable and no newly listed description, an attachment of what cannot be named, or a residence that cannot be compared |
| `Replan.AttachedNeverReturns` | src/adapters/familysearch/writeApply.ts:25-31 | once its attachment took effect, a nameable group's description is neither created nor attached again |
| `Replan.RunLeaves` | src/adapters/familysearch/writeApply.ts:81-186 | a run against the storing server establishes what the fixed-point results need |
| `Replan.RerunRepeatsIff` | src/adapters/familysearch/writeApply.ts:105-186 | the same for whole `applyPlan` runs, complete or halted: in the next plan exactly if the person is not possibly living by then and the operation is one that returns |
| `HaltedRun.UnattachedReturns` | src/adapters/familysearch/writeApply.ts:25-31 | after a run in which no attachment took effect every create that was posted is in the next plan, unless the person is possibly living by then |
| `HaltedRun.HaltedRunCreatesAgain` | src/adapters/familysearch/writeApply.ts:25-31 | a run whose create is accepted and whose attachment is rejected, and the same create in the next plan |
| `Replan.FixedPoint` | src/adapters/familysearch/writePlan.ts:237-461 | with conclusions off, the next plan after all operations were posted is empty exactly when every matching description had a usable id |
| `Replan.OnlyNewConclusions` | src/adapters/familysearch/writePlan.ts:423-456 | with conclusions on, the next plan repeats no fingerprint exactly when every matching description had a usable id and every residence added can be compared; with usable ids it holds only conclusions |
| `Replan.ResidenceComesBack` | src/adapters/familysearch/writePlan.ts:431-456 | a residence that was added and cannot be compared is in the next plan with the same operation |
| `Replan.LivingAfter` | src/adapters/familysearch/writePlan.ts:227-236 | a complete run makes the person possibly living exactly when it adds a recent birth and no death is known or added |
| `Replan.CompleteRunFixedPoint` | src/adapters/familysearch/writeApply.ts:105-186 | the fixed point for whole `applyPlan` runs, conclusions off: both directions |
| `Replan.CompleteRunRepeatsNoFingerprint` | src/adapters/familysearch/writeApply.ts:105-186 | the same for whole `applyPlan` runs with conclusions on: no fingerprint of the applied plan comes back exactly when descriptions are usable and added residences comparable, or the run made the person possibly living |
| `TargetOrder.BuildGraph` | src/governance/rollback-executor.ts:83-101 | the graph loops build the edges, nodes and in-degrees of the declared dependencies, duplicates counted |
| `TargetOrder.Release` | src/governance/rollback-executor.ts:111-116 | the inner loop lowers the in-degree along every edge of the dequeued node and enqueues exactly those that reach zero |
| `TargetOrder.DequeueAll` | src/governance/rollback-executor.ts:103-119 | the queue loop dequeues each node at most once, so it ends, and keeps in-degrees equal to the open dependencies |
| `TargetOrder.ResolveDependencies` | src/governance/rollback-executor.ts:81-120 | the result lists targets at most once, after their listed dependencies, exactly those from which no dependency path reaches a cycle, and is a permutation of the targets exactly when their ids are distinct and there is no cycle; nodes are served first come, first served, and distinct targets without dependencies come back in input order |
| `TargetOrder.PathsDescend` | src/governance/rollback-executor.ts:97-117 | along a dependency path the positions in the order strictly fall |
| `TargetOrder.UnlistedReachesCycle` | src/governance/rollback-executor.ts:104-117 | a node that is never dequeued has a dependency path into a cycle |
| `TargetOrder.DoneExhausts` | src/governance/rollback-executor.ts:103-119 | when the queue is empty the dequeuing order has every node from which no dependency path reaches a cycle, once, after all its dependencies, and no other |
| `TargetOrder.SortedTargets` | src/governance/rollback-executor.ts:107-109 | the targets picked along such an order keep its guarantees, with external and repeated dependencies |
| `TargetOrder.AcyclicPermutation` | src/governance/rollback-executor.ts:81-120 | the targets picked along the final order are a permutation of all exactly when ids are distinct and there is no cycle |
| `TargetOrder.ScheduleMeans` | src/governance/rollback-executor.ts:103-117 | nodes without dependencies come first, as first mentioned; of two others the one whose last dependency is listed first, or which is declared first if they share it |
| `TargetOrder.InputOrder` | src/governance/rollback-executor.ts:103-117 | distinct targets without dependencies come back as they were given |
| `RollbackStores.StateStore.Rollback` | src/governance/rollback-executor.ts:139-154 | restores the recorded version or changes nothing |
| `RollbackStores.DatabaseRollback.RollbackToSnapshot` | src/governance/rollback-executor.ts:185-191 | restores the snapshot or changes nothing |
| `RollbackStores.CacheRollback.Rollback` | src/governance/rollback-executor.ts:222-227 | restores the recorded version or changes nothing; a version that is no number stores `undefined` |
| `RollbackExecutor.Executor.ExecuteStep` | src/governance/rollback-executor.ts:426-491 | one step changes the stores as specified and reports whether it could |
| `RollbackExecutor.Executor.ExecuteRollback` | src/governance/rollback-executor.ts:337-424 | the run restores all targets in order, records the steps and concludes as specified; for distinct ids it ends in an ordering violation exactly when a flag target stands before the first config target, and a report has status success or complete failure exactly if no step, or every one of some, failed |
| `RollbackExecutor.StepsAreLocal` | src/governance/rollback-executor.ts:426-491 | a failed step leaves everything as it was; a successful one changes only its own key, entry or table |
| `RollbackExecutor.LastRestoreWins` | src/governance/rollback-executor.ts:357-363 | each resource ends at the version of the last restorable target that names it, exactly unless that is a cache target whose version is no number: then it holds `undefined` |
| `RollbackExecutor.UntouchedStays` | src/governance/rollback-executor.ts:357-363 | resources that no target names are unchanged |
| `RollbackExecutor.SuccessRestoresAll` | src/governance/rollback-executor.ts:357-392 | after a run with status `success` over distinct resources every one is at its recorded version or snapshot exactly when every cache target's version is a number; a key whose version is none holds `undefined` |
| `RollbackExecutor.CacheVersionRecorded` | src/governance/rollback-executor.ts:222-227 | a successful cache step leaves a recorded value exactly when its version is a number |
| `RollbackExecutor.FalsyVersionFails` | src/governance/rollback-executor.ts:139-154 | a recorded version of a state key can be restored exactly when its value is not falsy |
| `RollbackExecutor.OverallMeaning` | src/governance/rollback-executor.ts:384-392 | `success` means all steps succeeded, `complete_failure` that there were some and none did |
| `RollbackExecutor.OrderViolated` | src/governance/rollback-executor.ts:365-380 | the order is violated exactly when some config target exists and a flag target stands before the first one |
| `RollbackExecutor.RestorableMeans` | src/governance/rollback-executor.ts:139-227 | a step succeeds exactly with a recorded version that is not falsy, a snapshot, a recorded cache key with a version in range or none that is a number, or a handler that agrees |
| `HealthGate.LineageFromMeaning` | src/rollback/health-check-gate.ts:163-184 | the lineage loop accepts exactly the logs that start with the expected steps, all successful |
| `HealthGate.GateLineage` | src/rollback/health-check-gate.ts:79-185 | without an injected lineage validator the gate passes exactly such logs, given its other checks |
| `RollbackExecutor.GatedRunReturns` | src/governance/rollback-executor.ts:365-415 | behind any gate the executor returns normally exactly when the gate's checks pass within ten seconds and an injected lineage validator agrees and no flag precedes the config, or without one the first five targets are state key, table, cache, config, flags in this order, all succeeded; it fails at the gate exactly otherwise, unless the order is violated |
| `RequestRetry.BudgetShrinks` | src/adapters/familysearch/FamilySearchAdapter.ts:293-354 | every further attempt uses up exactly one unit of the three budgets together |
| `RequestRetry.Request` | src/adapters/familysearch/FamilySearchAdapter.ts:287-364 | the loop ends and computes the specified verdict, attempts and total sleep; an answer is followed by another attempt exactly when it may be retried and the budget for it is left, the sleep is what those answers ask for, and the last one decides the outcome |
| `RequestRetry.WritesResentOnlyWhenRefused` | src/adapters/familysearch/FamilySearchAdapter.ts:306-351 | a write is sent again only after 401 or 429, never after a network error, a 5xx or any 2xx |
| `RequestRetry.RunMeans` | src/adapters/familysearch/FamilySearchAdapter.ts:293-364 | every run by its answers alone: one 401, so many 429 and, of a read, so many network errors and 5xx are retried and nothing else is; it sleeps 1000 times Retry-After, or 5000 ms, up to the cap per 429 and 200, 400, ... ms per failure; the last answer decides the outcome, a response exactly for 201 and 204, or 200 to 299 for reads |
| `RequestRetry.AttemptsCounted` | src/adapters/familysearch/FamilySearchAdapter.ts:293-350 | the attempts are one more than the units of budget used; writes use no transient retry |
| `RequestRetry.SleepCounted` | src/adapters/familysearch/FamilySearchAdapter.ts:313-349 | the total sleep is bounded by the rate limits and backoffs counted |
| `RequestRetry.RequestBounds` | src/adapters/familysearch/FamilySearchAdapter.ts:287-364 | at most L+2 attempts for a write, R+L+1 for a read, and at most L*maxRetryAfterMs + 100*(2^R - 2) ms of sleep (none of the second term for a write) |
| `RequestRetry.RequestBoundsAttained` | src/adapters/familysearch/FamilySearchAdapter.ts:287-364 | for every configuration some server attains both bounds |
| `RateLimiting.RateLimiter.TryConsume` | src/resilience/rateLimiter.ts:43-52 | takes a token exactly when the refilled bucket holds one |
| `RateLimiting.RateLimiter.GetMetrics` | src/resilience/rateLimiter.ts:73-84 | refills, and reports the whole tokens and the counters |
| `RateLimiting.TokensStayInRange` | src/resilience/rateLimiter.ts:43-71 | in every run with a clock that does not go back 0 <= tokens <= maxTokens, and every request is counted once |
| `RateLimiting.GrantBound` | src/resilience/rateLimiter.ts:43-71 | in every such run at most maxTokens + rate*(t2-t1) requests are granted within [t1, t2] |
| `RateLimiting.GrantedExactly` | src/resilience/rateLimiter.ts:43-71 | in every run a request is granted exactly when the bucket can hold a token and, with it, the grants since the beginning and since each event stay within the tokens there were, or a full bucket, plus the inflow: no saved token is lost |
| `RateLimiting.BurstGranted` | src/resilience/rateLimiter.ts:43-52 | of requests at one time the first are granted, as many as there are whole tokens |
| `RateLimiting.FullBucketBurst` | src/resilience/rateLimiter.ts:43-52 | a full bucket grants a burst of as many requests as it can hold whole tokens |
| `RateLimiting.SmallBucketStarves` | src/resilience/rateLimiter.ts:43-52 | a bucket smaller than one token grants nothing in any run |
| `RateLimiting.PatientRequestGranted` | src/resilience/rateLimiter.ts:43-71 | a request one token's time after the last refill is granted exactly when the bucket can hold a token |
| `CircuitBreaking.CircuitBreaker.Execute` | src/resilience/circuitBreaker.ts:51-64 | refused when OPEN at admission, else the completion is recorded on the state that other calls and the timer left while the function was awaited |
| `CircuitBreaking.CircuitBreaker.RecordSuccess` | src/resilience/circuitBreaker.ts:66-80 | success closes a HALF_OPEN breaker and disarms its timer |
| `CircuitBreaking.CircuitBreaker.RecordFailure` | src/resilience/circuitBreaker.ts:82-101 | failure opens the breaker and arms its timer when a threshold is reached |
| `CircuitBreaking.OpenIffArmed` | src/resilience/circuitBreaker.ts:51-118 | in every interleaving of calls, completions and timers: OPEN exactly while the timer is armed, every completion counted once |
| `CircuitBreaking.CountersAreHistory` | src/resilience/circuitBreaker.ts:66-86 | in every interleaving the counters are all successes, all failures and the failures since the last success |
| `CircuitBreaking.RateGrows` | src/resilience/circuitBreaker.ts:93 | (f+1)/(n+1) >= f/n when f <= n |
| `CircuitBreaking.SequentialKeepsTripped` | src/resilience/circuitBreaker.ts:82-111 | in sequential use the opening condition keeps holding until a success closes the breaker |
| `CircuitBreaking.FailedTrialReopens` | src/resilience/circuitBreaker.ts:82-111 | in sequential use a failed trial in HALF_OPEN always reopens it |
| `CircuitBreaking.FailureOpensIff` | src/resilience/circuitBreaker.ts:82-101 | after any interleaving that does not end OPEN a failure opens the breaker exactly when, with it, the failures since the last success reach the threshold or those of the whole history the rate |
| `CircuitBreaking.OverlappingTrialMayStayHalfOpen` | src/resilience/circuitBreaker.ts:66-101 | a run of the default breaker with overlapping calls whose failed trial leaves it HALF_OPEN with no timer |
| `CircuitBreaking.OpensAfterFailures` | src/resilience/circuitBreaker.ts:92-100 | a fresh breaker is open after n failures exactly when n reaches the threshold or the rate threshold is at most 1 |
| `StableSort.SortSorts` | src/resilience/fallbackChain.ts:62-63 | the sort used for providers and cohorts gives a sorted permutation |
| `StableSort.SortIsStable` | src/resilience/fallbackChain.ts:62-63 | it keeps the order of elements with equal keys |
| `FallbackChaining.FallbackChain.AddProvider` | src/resilience/fallbackChain.ts:61-76 | registers the provider in priority order with fresh counters and health |
| `FallbackChaining.FallbackChain.Execute` | src/resilience/fallbackChain.ts:78-158 | the provider loop is the run `Trace` of the interleaved system, whatever other calls, timers and registrations do while a provider is awaited; the loop walks a copy of the eligible providers, or the live list when every one is OPEN |
| `FallbackChaining.AnswerIsFirst` | src/resilience/fallbackChain.ts:78-158 | unless the loop walks the live list and a provider is registered meanwhile, the first provider on the initial list that works answers, whatever else happens |
| `FallbackChaining.UndisturbedCall` | src/resilience/fallbackChain.ts:78-158 | without interference that run gives the state and the answer of the sequential call |
| `FallbackChaining.ExecuteMeans` | src/resilience/fallbackChain.ts:78-158 | in sequential use the eligible providers (all when every one is OPEN) are asked by priority, each at most once, up to the first that works; that one answers; nobody else's record changes |
| `FallbackChaining.RunKeepsInv` | src/resilience/fallbackChain.ts:61-158 | every interleaving keeps: OPEN iff timer armed, CLOSED iff below the threshold, attempts = successes + failures + in flight per provider, total = sum of attempts |
| `FallbackChaining.ReachableInv` | src/resilience/fallbackChain.ts:61-158 | so it holds in every state reached from an empty chain |
| `FallbackChaining.ClosedByHistory` | src/resilience/fallbackChain.ts:100-151 | a provider is CLOSED exactly while fewer than the threshold of its attempts failed since its last success, in every interleaving |
| `FallbackChaining.FailureOpens` | src/resilience/fallbackChain.ts:116-151 | a failure leaves a provider CLOSED only below the threshold and opens one that was HALF_OPEN; a timer starts exactly when the state changes |
| `Retrying.RetryHandler.Execute` | src/resilience/retry.ts:42-66 | the attempt loop computes the specified counters, calls and sleep, whatever other calls add to the counters meanwhile |
| `Retrying.CallsMean` | src/resilience/retry.ts:45-63 | the function is called at most maxAttempts times and until it works; no call but the last worked |
| `Retrying.RetriedBalances` | src/resilience/retry.ts:42-66 | totalAttempts = successes + retries + failures is kept by every call |
| `Retrying.DelaysGrow` | src/resilience/retry.ts:68-71 | delays never shrink for multipliers of at least 1 and never exceed the cap |
| `Retrying.DelaysMultiply` | src/resilience/retry.ts:68-71 | the uncapped delays start with the initial one and each is the multiplier times the one before; the handler sleeps each or the cap if that is less |
| `Hardening.HardeningOrchestrator.Execute` | src/resilience/hardeningOrchestrator.ts:66-95 | one request among others: admitted, refused or let through by the state it finds; limiter, breaker, retry handler and chain end as the others' steps and its own leave them, whatever others do while the function or a fallback is awaited |
| `Hardening.UndisturbedRequest` | src/resilience/hardeningOrchestrator.ts:66-95 | without others that is the sequential request, on which the next three rows are stated |
| `Hardening.RequestCosts` | src/resilience/hardeningOrchestrator.ts:66-77 | one request takes at most one token, charges the breaker once exactly when admitted and not OPEN, and calls the function at most maxRetries times |
| `Hardening.FallbacksAskedOnce` | src/resilience/hardeningOrchestrator.ts:78-94 | each fallback is asked at most once, none when the function answered, and the one that answers is the first by priority that works |
| `Hardening.RunKeepsAccounts` | src/resilience/hardeningOrchestrator.ts:66-95 | in every sequential run: allowed = breaker total + OPEN refusals, retry attempts = successes + retries + failures, and breaker and retry handler agree on successes and failures |
| `HardeningInterleaved.InterleavingKeepsAccounts` | src/resilience/hardeningOrchestrator.ts:66-95 | in every interleaving of any number of requests, timers and fallback steps: allowed = OPEN refusals + breaker total + under way, attempts = successes + retries + failures + running, the breaker is behind the retry handler by the requests not yet recorded, no request makes more than maxRetries calls, and the fallback invariant holds |
| `HardeningInterleaved.ReachableAccounts` | src/resilience/hardeningOrchestrator.ts:40-95 | so from a fresh orchestrator on, and once nothing is under way breaker and retry handler agree exactly |
| `HardeningInterleaved.RequestAlone` | src/resilience/hardeningOrchestrator.ts:66-77 | a request whose steps follow each other is the sequential one, whatever else is under way, and the breaker refuses it exactly if it is OPEN at its admission |
| `ManifestLines.SplitForPrune` | src/ingestion/pruneManifest.ts:87-122 | the splitting loop computes retained and archived lines and the statistics |
| `ManifestLines.GetPruneStats` | src/ingestion/pruneManifest.ts:160-204 | the dry run reports what a prune with the same cutoff reports |
| `ManifestLines.StatisticsDates` | src/ingestion/pruneManifest.ts:105-117 | the date reported as oldest retained is the oldest exactly when no later retained date is before the first, and likewise for the youngest archived |
| `ManifestLines.ChronologicalDates` | src/ingestion/pruneManifest.ts:98-122 | in chronological order the oldest retained date is right, and the one reported as youngest archived is the oldest: right exactly when all archived dates are equal |
| `ManifestLines.OldestMayBeWrong` | src/ingestion/pruneManifest.ts:105-110 | two lines for which the date reported as oldest is the younger one |
| `ManifestLines.PrunePartitions` | src/ingestion/pruneManifest.ts:98-122 | every line goes to exactly one of retained, archived and dropped, and dropped are the malformed lines and `null` |
| `ManifestLines.PruneByDate` | src/ingestion/pruneManifest.ts:98-122 | a line dated at the cutoff or later stays, one dated before is archived; undated entries and scalars stay, invalid dates and everything dated under an invalid cutoff are archived, the rest is dropped |
| `ManifestLines.PruneConcat` | src/ingestion/pruneManifest.ts:98-122 | pruning two parts is pruning the whole, so lines stay and go in their order |
| `ManifestLines.PruneCounts` | src/ingestion/pruneManifest.ts:98-122 | a line is kept or archived as often as it occurs |
| `ManifestLines.CompleteSplits` | src/ingestion/pruneManifest.ts:98-122 | no complete record is dropped by a prune |
| `ManifestLines.PruneSettles` | src/ingestion/pruneManifest.ts:98-147 | a second prune with the same cutoff changes and archives nothing |
| `ManifestLines.ValidateRecord` | src/ingestion/repairManifest.ts:39-61 | collects the missing required fields; none exactly for complete records |
| `ManifestLines.SplitForRepair` | src/ingestion/repairManifest.ts:86-114 | the loop keeps the complete records and reports the rest |
| `ManifestLines.RepairKeepsComplete` | src/ingestion/repairManifest.ts:95-129 | a repair keeps exactly the complete records, each as often as it was |
| `ManifestLines.RepairPartitions` | src/ingestion/repairManifest.ts:95-114 | every line is kept or reported as corrupted |
| `ManifestLines.CompleteMeans` | src/ingestion/repairManifest.ts:39-61 | complete is a record with all ten fields; those reported as missing are exactly the ones it lacks |
| `ManifestLines.RepairOne` | src/ingestion/repairManifest.ts:95-114 | one line is kept exactly if it is a complete record, else reported, with its missing fields if it is a record |
| `ManifestLines.RepairConcat` | src/ingestion/repairManifest.ts:86-114 | repairing two parts is repairing the whole, so lines are kept and reported in their order |
| `ManifestLines.RepairSettles` | src/ingestion/repairManifest.ts:95-129 | a second repair changes nothing and reports nothing |
| `ManifestLines.PruneRepairCommute` | src/ingestion/pruneManifest.ts:98-147 | pruning and repairing commute on the manifest |
| `ManifestProtocol.Workspace.AcquireLock` | src/ingestion/ingestionManifest.ts:135-155 | succeeds exactly when the lock file was free within the time limit |
| `ManifestProtocol.Workspace.AppendRecord` | src/ingestion/ingestionManifest.ts:26-83 | one appended line under the lock, or nothing when locked; the lock is released |
| `ManifestProtocol.Workspace.PruneManifest` | src/ingestion/pruneManifest.ts:60-158 | one prune under the lock, or nothing when locked; the lock is released; each line is in manifest and archive as often as its date and the cutoff say |
| `ManifestProtocol.Workspace.RepairManifest` | src/ingestion/repairManifest.ts:63-140 | one repair under the lock, or nothing when locked; the lock is released; complete records stay as often as they were, other lines go, and the old manifest is backed up exactly if there were any |
| `ManifestProtocol.MutualExclusion` | src/ingestion/ingestionManifest.ts:135-165 | in every interleaving of any number of processes at most one is between acquire and release, and the lock file exists exactly then |
| `ManifestProtocol.LogIsAcquired` | src/ingestion/ingestionManifest.ts:135-165 | every operation begun took the lock, gave up or is waiting; those that took it are the log, in that order, each once, where the one inside may still be missing |
| `ManifestProtocol.Serialisable` | src/ingestion/pruneManifest.ts:60-158 | whenever the lock is free the files are the result of the operations that took it, run one after the other in that order |
| `ManifestProtocol.ApplyAllConserves` | src/ingestion/repairManifest.ts:63-140 | run one after the other, operations keep every complete record in manifest or archive |
| `ManifestProtocol.NoRecordLost` | src/ingestion/quarantineReview.ts:61-78 | whenever the lock is free, manifest plus archive hold exactly the complete records there at the start or appended since, for every interleaving of append, prune, repair and review |
| `RagCaching.Oldest` | src/cache/ragCache.ts:38-43 | a key with the smallest timestamp |
| `RagCaching.RagCache.Set` | src/cache/ragCache.ts:28-49 | stores the entry and evicts the oldest when over capacity |
| `RagCaching.RagCache.Get` | src/cache/ragCache.ts:51-68 | returns the value of an unexpired entry, else misses and removes an expired one |
| `RagCaching.EvictedIsOldest` | src/cache/ragCache.ts:36-48 | an evicted key leaves maxSize keys behind whose last writes are not older |
| `RagCaching.EvictionIsLru` | src/cache/ragCache.ts:36-48 | in every reachable state the evicted key is a least recently used one exactly when it was not hit since its last write, or every other key was written or hit no earlier than that hit |
| `RagCaching.RecentlyUsedMayGo` | src/cache/ragCache.ts:36-48 | a run in which the key just read is evicted |
| `RagCaching.RunKeeps` | src/cache/ragCache.ts:28-77 | in every run the cache is a part of the plain map of last writes, bounded in size, and every missing key is expired or outnumbered |
| `RagCaching.LookupsAreExplained` | src/cache/ragCache.ts:28-77 | in every reachable state a hit is the last value written and within its time to live; an unexpired written key misses only if maxSize other keys have last writes not older |
| `RagCaching.StatisticsAreHistory` | src/cache/ragCache.ts:28-81 | in every run hits, misses and evictions are the history since the last clear: every lookup a hit or a miss, every key added still there, evicted or found too old |
| `RagCaching.EvictsWhenFull` | src/cache/ragCache.ts:36-48 | a write evicts exactly when it adds a key to a full cache, and then one key goes |
| `Cohorts.MultiCohortEngine.RegisterCohort` | src/governance/multi-cohort-engine.ts:75-80 | adds the cohort unless its id is registered |
| `Cohorts.MultiCohortEngine.GetNextCohort` | src/governance/multi-cohort-engine.ts:93-115 | the cohort after the given one in the sorted list |
| `Cohorts.MultiCohortEngine.AllocateToCohort` | src/governance/multi-cohort-engine.ts:131-192 | assigns, under a new id, the first cohort whose size is strictly within 0.0015 or 1.5% of it around the target; refused exactly without cohorts, without such a cohort, or with the id taken |
| `Cohorts.MultiCohortEngine.ProgressToNextCohort` | src/governance/multi-cohort-engine.ts:242-289 | moves the first assignment with the id, and no other, one cohort and one stage on and appends the record; each refusal exactly in its case |
| `Cohorts.MultiCohortEngine.ValidateAssignmentSize` | src/governance/multi-cohort-engine.ts:202-224 | valid exactly if the cohort is registered and the size within the tolerance, ends included |
| `Cohorts.AssignmentMoves` | src/governance/multi-cohort-engine.ts:131-289 | a run in which an assignment starts in the cohort asked for and moves to the next |
| `Cohorts.NextIsSuccessor` | src/governance/multi-cohort-engine.ts:93-115 | the next cohort is the least one after the current by size and registration, and there is none exactly at the last |
| `Cohorts.ReachableInv` | src/governance/multi-cohort-engine.ts:67-289 | every reachable state is well formed |
| `Cohorts.AssignmentHistory` | src/governance/multi-cohort-engine.ts:202-289 | in every reachable state an assignment's records chain up to its cohort, its stage is their number and its size the registered one, every record goes strictly forward, and there are at most |cohorts|-1 steps, even while cohorts are registered |
| `Cohorts.SameIdIffSameText` | src/governance/multi-cohort-engine.ts:319-339 | two requests get the same assignment id exactly when proposal and user join to the same text, hash collisions notwithstanding |
| `Cohorts.AssignmentIdReads` | src/governance/multi-cohort-engine.ts:319-339 | an assignment id is the text of the request between the prefix and, in hexadecimal, the magnitude of the polynomial in 31 over its code units modulo 2^32 as a signed number |
| `Cohorts.SameIdIffSameRequest` | src/governance/multi-cohort-engine.ts:319-339 | for proposals without a hyphen that is exactly when the requests are the same |
| `Cohorts.RefusedIffRepeated` | src/governance/multi-cohort-engine.ts:131-192 | in every reachable state a request of matching size is refused as duplicate exactly when one that joins to the same text was assigned before; without hyphens that is the same request |
| `Cohorts.AssignmentIdsCollide` | src/governance/multi-cohort-engine.ts:319-324 | with a hyphen two different requests can have the same id, and the second is refused |
| `Drift.DeepEqualsIsStructural` | src/lib/drift.ts:191-226 | deep equality decides equality up to the order of keys |
| `Drift.DeepEqualsIsEquivalence` | src/lib/drift.ts:191-226 | it is an equivalence relation |
| `Drift.ObjectsEqual` | src/lib/drift.ts:212-223 | objects are compared key by key, although the code compares sorted key lists |
| `Drift.ReportedFields` | src/lib/drift.ts:164-172 | the report has exactly one entry per key of either value |
| `Drift.ReportReads` | src/lib/drift.ts:39-54 | an entry shows what the earlier and the later value hold under a key of either, and says changed exactly when these differ; no key is reported twice |
| `Drift.UniqueKeepsOrder` | src/lib/drift.ts:164-172 | entries are in the order in which their keys first appear, those of the earlier value first |
| `Drift.DriftIsReported` | src/lib/drift.ts:159-183 | for any two values a field is reported as changed exactly when a key of either reads differently, and there is drift exactly when some field is changed or the difference is in no field: a lone `undefined`, an array length, a primitive or the kind of value |
| `Drift.ArrayDrift` | src/lib/drift.ts:205-209 | arrays drift exactly when an item is reported as changed or the lengths differ |
| `Drift.ParsedDriftIsReported` | src/lib/drift.ts:159-183 | between two objects or two arrays without `undefined` drift is always reported, between primitives never |
| `Drift.DriftWithoutFields` | src/lib/drift.ts:164-172 | an object and an array with drift and no changed field: both empty, or both reading the same at index 0 |

## Left out

- HTTP, tokens and their refresh, the etcd, Unleash and Postgres clients, cron, command lines and all output.
- `norm`, `yearOf`, `dayOf` and the regular expressions behind them, as calendar and Unicode rules: they are the arbitrary functions of `Rules`; splitting places at commas is concrete.
- Rationales, change messages, citations, confidences, evidence URLs and dedupe records of operations: no later code matches on them. Titles, notes, markers, tags and references are modelled.
- Rendering of JSON values other than strings in the safe id of a malformed finding: it appears as one arbitrary text.
- Replan.RunLeaves: asks that no two groups of accepted findings join their ids to the same text, and so do the results built on it; otherwise two groups may share an operation id (`CommaBreaksDistinctIds`).
- ApplyProperties.ReferencesResolve: asks that no text of a finding starts with `@op:` or `@sd:`, which `resolveRefs` would rewrite.
- Replan.PostedReturnsIff: speaks of operations that took effect and of creates; of other operations that were posted in vain it says nothing.
- RollbackExecutor.SuccessRestoresAll: asks for distinct resources; `LastRestoreWins` says what happens otherwise.
- Config and feature-flag handlers are boolean answers: what they restore is not modelled. The per-step health reports are left out, since nothing decides on them.
- Stored values are opaque with a flag for falsiness; aliasing between a stored value and its history is not modelled.
- `consume()` of the rate limiter and `executeWithAsyncRateLimit`: waiting loops around `tryConsume`; the second takes another token inside `execute`.
- `requestWindow`, `lastFailureTime`, `lastError` and `successProvider`: recorded and never read for a decision.
- `reset()` of the resilience classes, and rounding of floating point: tokens, rates, sizes and delays are reals.
- Timeouts wrap one call of the protected function and are part of how that call ends; a call that goes on after its timeout is not followed.
- FallbackChaining.RunKeepsInv: asks for distinct provider names and a threshold of at least 1; registering a name again resets its counters while `totalAttempts` keeps counting.
- Hardening.HardeningOrchestrator.Execute: follows each of the four objects through the steps of the other requests, not the order of steps on different objects; in `HardeningInterleaved` that order is one, and the fallback call of a single request is not followed.
- Hardening.RunKeepsAccounts: sequential requests; timers fire between requests. `InterleavingKeepsAccounts` is the result for requests at once.
- Crashes of processes, stale lock files, `fsync` and the temporary file of the manifest: a process that enters leaves. All archive files count as one.
- ManifestProtocol.NoRecordLost: counts complete records; a prune archives or keeps incomplete ones and drops malformed lines, a repair drops both.
- The unlocked read of `approveQuarantine` and `rejectQuarantine`: whatever they read, they append one line, which is an `Append` of an arbitrary line. `backfillFromProcessedLines` is a sequence of appends.
- JSON text: a manifest line stands for what it parses to, and is written back unchanged.
- `generateKey` of the cache: hashing.
- Cohorts.MultiCohortEngine.ProgressToNextCohort: assignments are values in a list; that the caller of `allocateToCohort` holds the same object and sees it progress is not modelled.
- Drift.DeepEqualsIsStructural: NaN is no JSON value and is not modelled; an absent key yields `undefined`, so a key named like an inherited member of an object, array or string is not.
- `detectSchemaDrift`, registries, metrics exporters and the other services of the repository: look-ups, counters and formatting.
