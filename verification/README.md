# A Dafny model of the agent platform's core algorithms

The project models seven parts of the repository and proves what they promise. Each part is modelled in the form of
its source: objects whose methods change fields are classes, loops are loops with invariants, and expressions are
functions. A method is proved equal to a function of its inputs or of the old state, and lemmas say what that function
promises over all inputs, over every run of calls, or under every interleaving at the awaits.

1. **Plan ordering and execution** (`Graphs`, `Runtime*`, `GoalLoop*`). The depth-first sort equals naive
   exploration with repetitions dropped; it succeeds exactly on closed acyclic graphs, and its order is that of the
   first way that leads to each step. Every run of the goal loop is safe, its verdicts are exact, and with steps that
   pass it completes exactly on good plans.
2. **Payment batching** (`PaymentBatches`). The greedy cut is unique, uses the fewest batches of any order-preserving
   split, and fewer than twice as many as any packing.
3. **Prompt printer and section extractor** (`Prompt*`, `Output*`). Every bullet section reads back as the field that it
   was printed from, and the output format reads back exactly when nothing in it looks like a heading.
4. **Agent version registry** (`CanonicalJson`, `SemVer`, `Registry*`, `Cursor*`). Version histories, the audit trail,
   canonical hashing (precedence as in section 11 of Semantic Versioning 2.0.0) and pagination with base64url cursors
   (section 5 of RFC 4648).
5. **Orchestrator event lifecycle** (`Orchestrator*`, `EventRecords`). Classes whose event map and dead letters share
   record objects, a sequential model with restarts and crashes, and a model of the steps between awaits, tied to the
   sequential one. The records and replies of every event are read off its calls alone.
6. **Windows, tokens and caches** (`SlidingWindow`, `BucketLimiter`, `TokenRotation`, `Tool*`). Each fast stateful form
   agrees with a form that remembers everything.
7. **Meeting slot search** (`MeetingSlots`). The scan returns the earliest eligible hours, and any week has 45 of them.

## What turned out not to hold

Each of these is a lemma with an input, or an exact condition.

- A plan whose ids repeat never completes, and an empty plan with a cap of no sweeps fails
  (`GoalLoopVerdicts.CompletedExactlyWhenAllRecorded`).
- A section heading is found at its own place exactly when the mission has no line equal to it
  (`PromptReadback.HeadingFoundExactly`); the output format is cut short exactly when it holds a heading-like line
  (`PromptReadback.OutputFormatReadsBack`).
- Two first deliveries of an event that is not in memory may both run: while nothing waits for an id, it is safe from
  double execution exactly if it is in memory (`OrchestratorSteps.NeverDoubledExactly`). A cancel of a running execution
  is overwritten when the execution ends: a settled status lasts exactly if no execution of the id waits and, where it is
  completed, no cancel of it waits for its row (`OrchestratorSteps.SettledLastsExactly`).
- The JSON columns of a row come back as text, since no codec is set for them. After a restart a failed event can
  therefore not be reprocessed, its context failing the validation of a request, and cancelling a cancelled event stores
  the texts of its columns (`EventLifecycle.ReprocessesExactlyDeadLetters`, `EventLifecycle.SettledStatusIsAbsorbing`).
  The repository's tests put a lookup in place of the database that gives the context back as an object; the model
  follows the code of the database module.
- Objects whose keys the comparison ties keep the order those keys came in, so a hash ignores key order exactly where no
  object has tied keys (`CanonicalJson.KeyOrderIsUndoneExactly`).
- With a clock that goes back, the in-process limiter may allow a call that counting would refuse; it agrees with
  counting exactly if no call was pruned that still counts (`SlidingWindows.AnswersAgreeExactly`).
- The shared limiter reads the clock twice per call: when the readings fall into different buckets a stamp is filed where
  it may be pruned later. With distinct stamps a bucket lets through more than its maximum exactly if, at some check that
  comes after that many others of it, fewer of its stamps survive (`BucketLimiters.BucketExceedsExactly`); where
  operations reach the server in the order of their readings, exactly if two of its stamps, that many places apart, are a
  window apart (`BucketLimiters.InOrderExceedsExactly`). With one reading it lets through at most twice the maximum in a
  window, which is reached exactly when the window has room for it (`BucketLimiters.TwiceMaxIsReachedExactly`).
- A tool registered anew under its name leaves stale cached results behind (`ToolRuns.ReregisteredToolStaysStale`). A
  cached answer is sure to be that of the handler of now exactly if the last request that returned for its key ran that
  same handler (`ToolRuns.PythonAnswerIsCurrentExactly`).
- A busy period blocks only the hour it starts in, so a slot may overlap the later hours of a long meeting. No returned
  slot does exactly if some period starts in each working hour, up to the last slot, that a period lasts into
  (`MeetingSlots.ReturnedSlotsAvoidMeetingsExactly`).

## Model

| member | source | states |
|---|---|---|
| RuntimeGraphs.RuntimeGraph.AddStep | packages/agent-runtime/index.ts:16-20 | Adding a step stores it under its id; a new id goes to the end of the insertion order, a known one keeps its place and gets the new step. |
| RuntimeGraphs.RuntimeGraph.TopologicalOrder | packages/agent-runtime/index.ts:22-41 | Returns normally exactly when every dependency is registered and there is no cycle; then every registered step occurs once, after all its dependencies. The order is that of exploring the graph without any visited set and keeping first occurrences; an error is the error of that exploration. |
| RuntimeGraphs.Traversal.Dfs | packages/agent-runtime/index.ts:27-37 | One recursive call, which always ends: it answers what plain exploration of the id answers, appends the newly met steps in that order, leaves the id visited and restores the visiting set. |
| RuntimeGraphs.Traversal.DfsEach | packages/agent-runtime/index.ts:33-39 | The loop over dependencies, or over all ids: the first failing call decides the error, otherwise the output grows by the new steps only. |
| RuntimeGraphs.ExploreErrorsAreGenuine | packages/agent-runtime/index.ts:28-31 | `cycle_detected` comes only with a real non-empty dependency path from a step to itself, `missing_step` only with an unregistered id that some step depends on. |
| RuntimeGraphs.VisitedIsSkipped | packages/agent-runtime/index.ts:29 | Skipping a visited step loses nothing: exploring it again would succeed and contribute only repetitions. |
| RuntimeGraphs.FailureMeansBadGraph | packages/agent-runtime/index.ts:27-39 | An error of the sort shows that the graph is open or cyclic. |
| RuntimeGraphs.OrderMeansGoodGraph | packages/agent-runtime/index.ts:39-40 | A returned order shows that the graph is closed and acyclic. |
| RuntimeOrders.OrderIsByFirstWay | packages/agent-runtime/index.ts:26-40 | The order among the sorted steps: with a way being the choice of a key, then of a dependency, and so on, one step comes before another exactly if a way to it is sooner than every way to the other, earlier choices coming sooner and what is below a step before the step. |
| RuntimeOrders.KeysInOrderStay | packages/agent-runtime/index.ts:26-40 | Steps that were added with their dependencies first stay in the order in which they were added. |
| Graphs.OrderExcludesCycles | packages/agent-runtime/index.ts:22-41 | A list with every dependency at a smaller index leaves no room for a dependency cycle. |
| Graphs.BlockedSetHasCycle | agents/runtime/goal_loop.py:66-68 | Where every step of a finite set waits for another of the set, the set holds a dependency cycle. |
| Graphs.AcyclicWalksAreShort | agents/runtime/goal_loop.py:30 | Without cycles a dependency chain meets each registered step at most once. |
| Planners.ValidateDependencies | agents/runtime/planner.py:56-61 | Reports no error exactly when every reference names a step; otherwise the first step in order with dangling references, and exactly those references. |
| Planners.MissingReferencesAreExact | agents/runtime/planner.py:59 | The references reported for a step are exactly its dependencies that name no step, each as often as it is listed. |
| Planners.MissingReferencesInOrder | agents/runtime/planner.py:59 | They come in the order in which the step lists them. |
| Planners.BaseStepsAreOrdered | agents/runtime/planner.py:26-54 | The built-in plan has unique ids, closed references and lists its steps in dependency order. |
| GoalLoops.GoalLoop.ExecuteStep | agents/runtime/goal_loop.py:39-60 | One ready step: its calls of the executor, its events in order, and whether it passed, failed after the retry or was escalated. |
| GoalLoops.GoalLoop.SweepOnce | agents/runtime/goal_loop.py:33-60 | One pass over the steps keeps dictionary, call count and events equal to those of the history of attempts, and says whether anything progressed or a step failed. |
| GoalLoops.GoalLoop.Run | agents/runtime/goal_loop.py:23-71 | Status, results and the whole event trace are those of the outcome that the history-based loop has. |
| GoalLoopDecisions.DecisionsAre | agents/runtime/evaluator.py:22-30 | A quality at or above the proceed threshold proceeds; below it, one not under the escalate threshold is retried while retries are left; every other one escalates. |
| GoalLoopDecisions.StepRunIs | agents/runtime/goal_loop.py:39-60 | In qualities and thresholds: the executor is called a second time exactly if the first quality lies between the thresholds and a retry is allowed; when the step passes; and its events, one by one. |
| GoalLoopDecisions.StepFailuresAre | agents/runtime/goal_loop.py:52-60 | A run ends in an escalation of a step exactly if a first quality of it is below the proceed threshold and no retry is due, and in a failure after the retry exactly if a second quality of it is below that threshold. |
| GoalLoopDecisions.LastEventIs | agents/runtime/goal_loop.py:52-71 | The last event carries the goal and the number of steps for a completed run, and else the step or reason of the failure. |
| GoalLoopDecisions.RunIsSweeps | agents/runtime/goal_loop.py:30-71 | A run is a number of sweeps, at most the cap: all but the last left something undone and did something new, and the last one ends it as a completion, a step's failure, a deadlock, or by the cap. |
| GoalLoopRuns.EveryRunIsSafe | agents/runtime/goal_loop.py:33-60 | In every run each attempt is of a step whose dependencies are all recorded and which is not recorded itself; recorded attempts passed, and a step failure is a genuine attempt that did not pass. |
| GoalLoopRuns.StepsRunAtMostTwice | agents/runtime/goal_loop.py:40-50 | No run calls the executor more than twice for one step id. |
| GoalLoopRuns.RecordedResultsAreSound | agents/runtime/goal_loop.py:46-57 | Every recorded result meets the proceed threshold, and with unique ids recorded results are closed under dependencies. |
| GoalLoopRuns.TracesAreWellFormed | agents/runtime/goal_loop.py:24-71 | The trace starts with `goal.started`, has one terminal event, which is last and is `goal.completed` exactly for a completed run; before a step is planned or executed all its dependencies were evaluated to proceed. |
| GoalLoopRuns.DoneWithinPlan | agents/runtime/goal_loop.py:62 | As many results as steps means exactly that ids are unique and every step is recorded. |
| GoalLoopRuns.SweepLeavesOut | agents/runtime/goal_loop.py:34-37 | A step that a sweep leaves out, when the sweep runs to its end, has a dependency that was not recorded before the sweep. |
| GoalLoopVerdicts.CompletedExactlyWhenAllRecorded | agents/runtime/goal_loop.py:62-71 | A run completes exactly when the cap allows a sweep, ids are unique and every step is recorded at the end. |
| GoalLoopVerdicts.DeadlockMeansCycle | agents/runtime/goal_loop.py:66-68 | "execution deadlock" on a closed plan with unique ids gives a dependency cycle among the unfinished steps. |
| GoalLoopVerdicts.CapUnreachable | agents/runtime/goal_loop.py:30-71 | With a cap of at least one and at least the number of steps, `max_iterations_exceeded` never ends a run. |
| GoalLoopVerdicts.CompletesWithinLongestChain | agents/runtime/goal_loop.py:30-64 | With unique ids, closed references and steps that pass at once or on the retry, a cap of at least one and at least the longest dependency chain is enough to complete. |
| GoalLoopVerdicts.OrderedPlanCompletesInOneSweep | agents/runtime/goal_loop.py:33-64 | Such a plan listed in dependency order completes in its first sweep. |
| GoalLoopVerdicts.CompletesExactlyOnGoodPlans | agents/runtime/goal_loop.py:30-71 | With passing steps and a cap of one sweep per step, a run completes exactly when ids are unique, references closed and dependencies acyclic; otherwise it reports a deadlock. |
| GoalLoopVerdicts.BuiltInPlanCompletes | agents/runtime/planner.py:26-54 | The built-in plan passes its own validation and completes with any cap of at least one. |
| PaymentBatches.SchedulePaymentBatches | agents/financeiro/tools.py:325-337 | The batches concatenate back to the payables and are cut greedily: no batch could have taken the next payable, and only a first payable may pass the limit. The count is the number of batches. |
| PaymentBatches.GreedyIsUnique | agents/financeiro/tools.py:328-336 | Two greedy cuttings of the same payables are the same, so the method's contract fixes its result. |
| PaymentBatches.GreedyUsesFewestBatches | agents/financeiro/tools.py:328-337 | For non-negative amounts, no order-preserving split into batches within the limit, or of a single payable, has fewer batches; the greedy one is such a split. |
| PaymentBatches.GreedyWithinFactorTwo | agents/financeiro/tools.py:328-337 | Whenever the payables can be packed, in any grouping, into m groups within the limit, the greedy batches number at most 2m - 1 (none when m is 0). |
| PromptGenerator.UniqueStrings | scripts/generate-official-collection.ts:118-133 | The loop over a `seen` set gives the deduplicated list. |
| PromptGenerator.UniqueKeepsFirsts | scripts/generate-official-collection.ts:122-130 | The deduplicated list holds, in order, the first value of each kind ignoring case, trimmed, and every non-blank value's kind. |
| PromptGenerator.UniqueIsUnique | scripts/generate-official-collection.ts:118-133 | No two results are equal ignoring case, and each is trimmed and not blank. |
| PromptContents.CompiledPromptIs | scripts/generate-official-collection.ts:413-473 | The compiled prompt is the listed lines under one another: the introduction, then fifteen blocks with their headings and a blank line before each, every item after a dash. |
| PromptText.SplitJoin | scripts/generate-official-collection.ts:473 | Splitting at line ends undoes joining with them, for single-line items. |
| PromptText.TrimPadded | scripts/generate-pack-docs.ts:17 | Trimming a trimmed text that was padded with blanks gives it back. |
| PromptRoundTrip.HeadingFound | scripts/generate-pack-docs.ts:12-16 | The pattern's first match of a heading is at its own place exactly when no earlier line equals it. |
| PromptRoundTrip.StopsAtNextHeading | scripts/generate-pack-docs.ts:13 | The lazy capture of a section body without capitalised lines ends right before the next heading. |
| PromptRoundTrip.LastBodyReadsBack | scripts/generate-pack-docs.ts:13-17 | The last section is captured whole exactly when nothing in it looks like a heading. |
| PromptContents.HeadingLikeExactly | scripts/generate-pack-docs.ts:13 | What ends a section: a line end, a capital, at least one more capital or white space, and a line end, with nothing but these between. |
| PromptContents.ExtractsNothing | scripts/generate-pack-docs.ts:16-17 | From a text with no line equal to the heading that ends in a line end, nothing is extracted. |
| PromptContents.ExtractsBetween | scripts/generate-pack-docs.ts:11-18 | From any other text, what lies between the first such line and the first place after it that looks like a heading, or the end, trimmed. |
| PromptContents.BulletLineGivesItem | scripts/generate-pack-docs.ts:20-27 | A line of dashes, white space and a visible text, with any white space around it, is read as that text. |
| PromptContents.NoBulletGivesNone | scripts/generate-pack-docs.ts:20-27 | A blank line, a line whose text starts with no dash, and a line of dashes only are read as nothing. |
| PromptContents.EveryLineIsOneOrTheOther | scripts/generate-pack-docs.ts:20-27 | Every line is of one of these kinds. |
| PromptReadback.MiddleSectionReadsBack | scripts/generate-pack-docs.ts:11-18 | In any printed sectioned text, extracting a section that another follows gives its body, trimmed. |
| PromptReadback.LastSectionReadsBack | scripts/generate-pack-docs.ts:11-18 | Extracting the last section gives its body, trimmed, exactly when nothing in it looks like a heading. |
| PromptReadback.BulletSectionReadsBack | scripts/generate-pack-docs.ts:20-27 | Splitting a printed bullet list gives exactly the printed items, for trimmed single-line items, items that start with a dash included. |
| PromptReadback.HeadingFoundExactly | scripts/generate-official-collection.ts:415-471 | In a compiled prompt, each heading after the mission is found at its own place exactly when the mission has no line equal to it. |
| PromptReadback.BulletSectionsReadBack | scripts/generate-official-collection.ts:421-465 | Reading back any bullet section of a compiled prompt gives exactly its items. |
| PromptContents.FieldReadsBack | scripts/generate-official-collection.ts:415-468 | Heading by heading, for each bullet section but GUARDRAILS: extracting it and splitting it gives the field of the input that it was printed from. |
| PromptReadback.GuardrailsReadBack | scripts/generate-official-collection.ts:455-462 | Reading back GUARDRAILS gives exactly its deduplicated items, which `PromptContents.GuardrailsAreFirsts` spells out. |
| PromptContents.GuardrailsAreFirsts | scripts/generate-official-collection.ts:455-462 | What is read back under GUARDRAILS are the first occurrences, ignoring case and in order, of the rules, the guardrails and the three fixed lines, each kind once and none missing. |
| PromptReadback.OutputFormatReadsBack | scripts/generate-official-collection.ts:469-473 | Extracting FORMATO DE SAIDA gives the output format, trimmed, exactly when nothing in it looks like a heading. |
| PromptReadback.NoCapitalLinesMeansNoHeading | scripts/generate-pack-docs.ts:13 | A text with no line that starts with a capital letter holds nothing that looks like a heading. |
| OutputFormats.PrintIsCalm | scripts/generate-official-collection.ts:477-510 | Indented JSON of any value, quotes and line ends in its texts escaped, puts no capital letter at the start of a line. |
| OutputFormats.DefaultFormatReadsBack | scripts/generate-official-collection.ts:476-511 | The default output format, for any agent id and any outputs, is read back from FORMATO DE SAIDA exactly as it was printed. |
| OutputLines.FormatIsLines | scripts/generate-official-collection.ts:477-510 | The default output format is its JSON in lines, nested parts indented by two, a comma after each part but the last. |
| OutputLines.QuotedReadsBack | scripts/generate-official-collection.ts:477-510 | A reader of JSON strings gets every printed text back, and what follows it. |
| CanonicalJson.StableJsonIsNormalForm | packages/agents-registry/src/index.ts:103-116 | Two values have one image exactly when they are equal up to the order of object keys that the comparison does not tie, at every depth; any weak order of keys. |
| CanonicalJson.StableJsonIsIdempotent | packages/agents-registry/src/index.ts:103-116 | Canonicalising twice is canonicalising once, ties of the comparison included. |
| CanonicalJson.KeyOrderIsUndoneExactly | packages/agents-registry/src/index.ts:109-112 | Every reordering of the keys of a value is undone exactly if no object in it has two keys that the comparison ties. |
| CanonicalJson.HashesAgree | packages/agents-registry/src/index.ts:118-120 | Values equal up to the order of untied keys have one hash, and with a collision-free digest no others do. |
| CanonicalJson.HashIgnoresKeyOrder | packages/agents-registry/src/index.ts:118-120 | The hash of a manifest does not depend on key order if no object in it has tied keys and, with a collision-free digest, only then. |
| SemVers.PrecedenceOrder | packages/agents-registry/src/index.ts:256 | Precedence, pre-releases included, is a strict total order. |
| SemVers.LessIsPrecedes | packages/agents-registry/src/index.ts:256 | Precedence is section 11 of Semantic Versioning 2.0.0, said without comparing: major, minor and patch in this order, a pre-release before its release, numeric identifiers by value and before others, which follow ASCII order, and a proper prefix of the fields first. |
| CursorTexts.EncodingIsBase64 | packages/agents-registry/src/index.ts:99-101 | The letters of a cursor are, in the alphabet of section 5 of RFC 4648, the digits in base 64 of the number that its bytes are in base 256, filled up with zero bits. |
| CursorTexts.ValueExactly | packages/agents-registry/src/index.ts:91 | The letters of both alphabets of RFC 4648 are read by their places, and no other character is. |
| CursorTexts.DecimalIs | packages/agents-registry/src/index.ts:100 | An offset is printed with the value of its digits by places, and without a leading zero. |
| CursorTexts.ReadsNumeral | packages/agents-registry/src/index.ts:92-97 | Blanks, a sign if any, digits and a rest that does not go on with a digit are read as the value of the digits, with the sign. |
| CursorTexts.ReadsOnlyNumerals | packages/agents-registry/src/index.ts:92-97 | No other text is read as a number. |
| CursorTexts.OtherCursorsStartOver | packages/agents-registry/src/index.ts:85-97 | A missing or empty cursor, and one that decodes to no number, starts at the beginning. |
| Cursors.DecodeEncodeBytes | packages/agents-registry/src/index.ts:91-100 | Decoding base64url (section 5 of RFC 4648, unpadded) undoes encoding for every byte string. |
| Cursors.ParsePrinted | packages/agents-registry/src/index.ts:92-100 | Reading a printed integer gives the integer. |
| Cursors.DecodeEncodeCursor | packages/agents-registry/src/index.ts:85-101 | Every cursor handed out reads back as the offset it was made from, negative offsets included. |
| Cursors.WalkFollowsOffsets | packages/agents-registry/src/index.ts:372-418 | From any cursor, following `nextCursor` ends, and meets the pages at offsets a limit apart. |
| Cursors.WalkYieldsEverythingOnce | packages/agents-registry/src/index.ts:412-418 | From the first page, the pages concatenate to the filtered list, in order, and their number is the page count. |
| Cursors.PageCount | packages/agents-registry/src/index.ts:373 | The page count is the length divided by the limit, rounded up, and at least one. |
| Cursors.PagesAreFull | packages/agents-registry/src/index.ts:412 | Every page but the last holds as many items as the limit. |
| RegistryListings.LimitIs | packages/agents-registry/src/index.ts:373 | The limit is 20 if none is asked for, and clamped to 1 and 100. |
| RegistryListings.PageIs | packages/agents-registry/src/index.ts:412 | A page holds the items from the offset on, as many as the limit or as there are. |
| RegistryListings.NegativePageIs | packages/agents-registry/src/index.ts:412 | A negative offset counts from the end; the end of the page does only if it is negative too. |
| RegistryListings.NextPageIs | packages/agents-registry/src/index.ts:413-418 | There is a next cursor exactly if there are more items, and it reads back as the end of the page. |
| Registry.ActivateKeepsGood | packages/agents-registry/src/index.ts:292-302 | Deprecating the published version and publishing another keeps a history good: at most one version published, with a publish date, versions increasing, digests and changelogs right. |
| Registry.AppendKeepsGood | packages/agents-registry/src/index.ts:252-270 | A version that passes the checks is new, extends a strictly increasing history and carries its changelog when a plain major or minor change needs one. |
| Registry.PublishedVersionExactly | packages/agents-registry/src/index.ts:340 | In a good history a version is published exactly when it is the one that the search for a published version finds. |
| RegistryRuns.EveryRunIsGood | packages/agents-registry/src/index.ts:243-370 | After any sequence of calls, failing ones included: versions strictly increase in precedence, at most one is published and has a date, digests are the manifests' hashes, changelogs are there, and replaying the audit trail alone gives the status of every version of every agent. |
| RegistryRuns.FailedCallChangesNoVersion | packages/agents-registry/src/index.ts:243-370 | A call that fails changes no version and leaves no audit event. |
| RegistryRuns.RunsEvolve | packages/agents-registry/src/index.ts:157-203 | Over any run, versions stay in place, only status and publish date change, a publish date is never lost and no version returns to DRAFT. |
| RegistryRuns.PublishTakesOver | packages/agents-registry/src/index.ts:285-370 | After a successful publish or rollback the named version is the only published one. |
| RegistryClasses.SortReverses | packages/agents-registry/src/index.ts:173-176 | Sorting an increasing history by descending precedence reverses it. |
| RegistryClasses.InMemoryAgentRegistryStore.UpdateVersion | packages/agents-registry/src/index.ts:178-203 | The first record of the version gets the patch, the others and the other agents stay; a missing version fails without a change. |
| RegistryClasses.AgentRegistry.CreateVersion | packages/agents-registry/src/index.ts:243-283 | Does, with its store and audit trail, what the specification of the call says: same new state, same result or error. |
| RegistryClasses.AgentRegistry.PublishVersion | packages/agents-registry/src/index.ts:285-314 | Likewise: the search in the sorted list and the two updates amount to activating the version. |
| RegistryClasses.AgentRegistry.DeprecateVersion | packages/agents-registry/src/index.ts:316-331 | Likewise for deprecating. |
| RegistryClasses.AgentRegistry.RollbackVersion | packages/agents-registry/src/index.ts:333-370 | Likewise for rolling back; the audit event names the version that was published before. |
| RegistryOutcomes.CreateRefusesExactly | packages/agents-registry/src/index.ts:210-262 | On the version numbers: a version is refused as invalid exactly if it does not parse, for the time if the last version is from the future, as not greater if the last version does not precede it by section 11, and for its changelog if major or minor differ between two releases and the changelog is missing or blank. |
| RegistryOutcomes.CreateAppendsDraft | packages/agents-registry/src/index.ts:157-283 | An accepted version becomes a DRAFT at the end of its agent's history, with its id, hash, changelog and time, and one audit event names it. |
| RegistryOutcomes.CreateWritesAgent | packages/agents-registry/src/index.ts:126-155 | The agent is written down even if the version is then refused: a known one gets the name, tags and time and keeps the rest. |
| RegistryOutcomes.PublishChanges | packages/agents-registry/src/index.ts:285-314 | A missing version changes nothing; else it is published now, the one published before is deprecated, all else stays, and the audit event names it. |
| RegistryOutcomes.DeprecationChanges | packages/agents-registry/src/index.ts:316-331 | Likewise, the version alone becoming deprecated. |
| RegistryOutcomes.RollbackChanges | packages/agents-registry/src/index.ts:333-370 | As for publishing; the audit event names the version that was published before, if one was. |
| RegistryIndex.IndexAgent | packages/agents-registry/src/index.ts:378-396 | For one agent, the filters over the sorted list keep it exactly when some version of it is wanted; its entry has the newest and the published version. |
| RegistryIndex.ListByTenant | packages/agents-registry/src/index.ts:372-419 | A page of the tenant's matching agents, in order, as the cursor and the clamped limit ask. |
| RegistryListings.IndexIs | packages/agents-registry/src/index.ts:377-410 | The list that is paged shows exactly the tenant's agents that have a version of the status asked for, PUBLISHED if none is, and of the version asked for, that have the tag, and whose lowered name and tags hold the lowered search text; each once, in order, with its newest and its published version. |
| EventLifecycle.ExecuteWrites | apps/agent-orchestrator/main.py:154-212 | An execution either answers with a duplicate and changes nothing, or leaves its final event in memory and in the table, and among the dead letters exactly if it failed. |
| EventLifecycle.EveryRunIsGood | apps/agent-orchestrator/main.py:154-212 | After every run of deliver, reprocess, cancel, restart and crash: memory agrees with the table, failed events are dead letters, a dead letter is its event, failed or cancelled, with its context as an object, and counters balance. |
| EventRecords.RecordsAre | apps/agent-orchestrator/main.py:154-385 | After every run, the record in memory, the dead letter and the row of each event are, to the last field, what its calls leave: type, entity id, context and tenant of the last delivery that reached the runner, its status and result, and after a restart the texts of the columns and the event id for the entity id. |
| EventRecords.LastDelivery | apps/agent-orchestrator/main.py:154-172 | That delivery is the last one that came when the event was unseen or failed. |
| EventRecords.RepliesAre | apps/agent-orchestrator/main.py:154-385 | After every run, the replies to a delivery, a reprocess call and a cancel follow from the same. |
| EventRecords.FailedDeliveryIsRetried | apps/agent-orchestrator/main.py:343-359 | After a failed delivery the reprocess call runs the very request that was delivered. |
| EventRecords.DuplicateAnswersTheResult | apps/agent-orchestrator/main.py:155-158 | A delivery of an event that completed in this process answers with what the runner gave. |
| EventRecords.CountsAre | apps/agent-orchestrator/main.py:53-68 | The counters of a type are the runner calls of this process, those that succeeded and those that failed. |
| EventLifecycle.RunnerSucceedsAtMostOnce | apps/agent-orchestrator/main.py:154-157 | Over every such run the runner succeeds at most once per event id, crashes between the runner and the table included. |
| EventLifecycle.SettledStatusIsAbsorbing | apps/agent-orchestrator/main.py:156 | After any call a completed row reads the same; so does a cancelled one exactly unless the call cancels it again after a restart, which stores the texts of its JSON columns, and even then its status, type and tenant stay. |
| EventLifecycle.SettledForever | apps/agent-orchestrator/main.py:154-385 | Over every continuation of a run a completed row stays as it is, and a cancelled one keeps its status, type and tenant. |
| EventLifecycle.ReprocessesExactlyDeadLetters | apps/agent-orchestrator/main.py:343-357 | Exactly the failed events whose dead letter is in memory can be reprocessed; one that only its row remembers has a context that fails the validation of a request. |
| OrchestratorClasses.Orchestrator.FindEvent | apps/agent-orchestrator/main.py:155 | The record in the event map itself, or else a record of its own made from the row. |
| OrchestratorClasses.Orchestrator.BeginEvent | apps/agent-orchestrator/main.py:154-180 | The first half of an execution: a duplicate response without a change, or a new processing record counted, stored and persisted. |
| OrchestratorClasses.Orchestrator.FinishEvent | apps/agent-orchestrator/main.py:182-212 | The second half; after a failure the dead letter is the very object just put into the event map. |
| OrchestratorClasses.Orchestrator.ExecuteEvent | apps/agent-orchestrator/main.py:154-212 | A whole execution does what its specification says and keeps every dead letter the same object as its event. |
| OrchestratorClasses.Orchestrator.ReprocessDlqEvent | apps/agent-orchestrator/main.py:343-362 | Likewise for reprocessing, its refusals included. |
| OrchestratorClasses.Orchestrator.CancelEvent | apps/agent-orchestrator/main.py:373-385 | Likewise for cancelling, which marks the shared record, so that the dead letter shows it too. |
| OrchestratorClasses.Orchestrator.MarkCancelled | apps/agent-orchestrator/main.py:382 | Writing the status of one record changes what both maps say of its id, and nothing else. |
| OrchestratorSteps.CountersAlwaysBalance | apps/agent-orchestrator/main.py:53-68 | Under every interleaving at the awaits, each type's started count is succeeded plus failed plus executions in flight. |
| OrchestratorSteps.NoDoubleExecution | apps/agent-orchestrator/main.py:154-178 | From a state with nothing in flight, no interleaving of plain deliveries and cancels of ids in memory puts two executions of any id in flight. |
| OrchestratorSteps.NeverDoubledExactly | apps/agent-orchestrator/main.py:154-178 | While nothing waits for an id, no interleaving of plain deliveries and cancels of it with anything on other ids, retries and first deliveries included, puts two executions of it in flight exactly if it is in memory. |
| OrchestratorSteps.OnlyAnEndingOverwrites | apps/agent-orchestrator/main.py:154-212 | In one plain step a completed or cancelled status in memory changes only when an execution of that id ends. |
| OrchestratorSteps.SettledLastsExactly | apps/agent-orchestrator/main.py:154-212 | A completed or cancelled status of an id lasts over every run of plain deliveries and cancels of it with anything on other ids exactly if no execution of the id waits and, where it is completed, no cancel of it waits for its row. |
| OrchestratorSteps.FirstDeliveriesMayDouble | apps/agent-orchestrator/main.py:155-178 | From any state, two deliveries of an id that is not in memory can both reach the runner. |
| OrchestratorSteps.CancelOfRunningIsOverwritten | apps/agent-orchestrator/main.py:373-385 | Cancelling a running event is undone when its runner succeeds. |
| OrchestratorSteps.UninterruptedDeliveryIsExecute | apps/agent-orchestrator/main.py:154-212 | The two steps of a delivery, one after the other, do to statuses and counters what the sequential execution does. |
| OrchestratorSteps.KnownCancelIsCancel | apps/agent-orchestrator/main.py:373-385 | The cancel step does what the sequential cancel does. |
| OrchestratorSteps.NoCallIsStuck | apps/agent-orchestrator/main.py:154-212 | In every state each waiting call may go on, the runner's either way, and any id may be delivered or cancelled. |
| SlidingWindows.RateLimiter.Check | packages/security/index.ts:7-17 | One call: it prunes, counts and answers, and unless the clock has hidden a call of the key the answer is the one that counting all earlier calls in the window gives. |
| SlidingWindows.HidesExactly | packages/security/index.ts:10-15 | For any clock, the limiter counts no call too many, and counts all that the full history counts exactly if no call of the key still in the window was pruned by a later one whose clock was ahead. |
| SlidingWindows.AnswersAgreeExactly | packages/security/index.ts:10-15 | The pruned map and the full history, refused calls included, give the same answer for every maximum exactly if no call is hidden. |
| SlidingWindows.AnswersAreHistoryCounts | packages/security/index.ts:10-15 | While the clock never goes back for the key, both give the same answer. |
| SlidingWindows.InOrderHidesNone | packages/security/index.ts:10-12 | While the clock never goes back for a key, no call of it is hidden. |
| SlidingWindows.AtMostMaxPerSpan | packages/security/index.ts:7-17 | For any clock that hides no call of a key, any span of the clock shorter than the window holds at most `max` allowed calls of it. |
| SlidingWindows.ClockGoingBackMisleads | packages/security/index.ts:11-12 | For every window, calls with a clock that goes back for which the two forms differ. |
| BucketLimiters.RateLimiter.Client | agents/shared/rate_limiter.py:24-36 | A client is there exactly if one was connected before or can be connected now. |
| BucketLimiters.RateLimiter.CheckAndIncrement | agents/shared/rate_limiter.py:42-61 | The answer and the count are those of the server's sets after the history of operations; without the server it lets the call through and counts nothing. |
| BucketLimiters.RateLimiter.GetRemaining | agents/shared/rate_limiter.py:63-77 | The two calls, pruning and then counting, either of which may fail; the answer is the free places left by what the server then has. |
| BucketLimiters.CurrentBucketIsWhole | agents/shared/rate_limiter.py:52-57 | For a reading in a bucket, neither pruning nor expiry has removed any stamp of it, in whatever order operations reach the server. |
| BucketLimiters.CountsTheBucket | agents/shared/rate_limiter.py:52-58 | The count is the number of distinct stamps ever given to the bucket, in whatever order they came. |
| BucketLimiters.AllowsFirstOfBucket | agents/shared/rate_limiter.py:58 | A check with a distinct stamp passes exactly when fewer than `max` checks of its bucket came before. |
| BucketLimiters.BucketAllowsExactlyMax | agents/shared/rate_limiter.py:38-58 | A bucket lets through its first `max` checks and no other. |
| BucketLimiters.AtMostTwiceMaxPerSpan | agents/shared/rate_limiter.py:38-58 | Any span of the clock shorter than the window holds at most twice `max` checks let through by the server for a key, in whatever order they came; checks let through while the server is down are not counted. |
| BucketLimiters.RemainingPredictsTheNextCheck | agents/shared/rate_limiter.py:63-74 | What remains, counted after whatever came since the pruning, is `max` less the checks of the bucket, or zero, and the next check passes exactly if something remains. |
| BucketLimiters.TwiceMaxIsReached | agents/shared/rate_limiter.py:38-40 | A burst of twice `max` checks around the edge between two buckets all pass, for every maximum with room for the burst in a window. |
| BucketLimiters.TwiceMaxIsReachedExactly | agents/shared/rate_limiter.py:38-58 | That bound is reached exactly when a window has room for twice `max` microseconds. |
| BucketLimiters.BucketHoldsSurvivors | agents/shared/rate_limiter.py:52-57 | For any readings and any arrivals at most the grace late, what the server has for a bucket is exactly its stamps that no later operation on it, nor the reading, is a window ahead of. |
| BucketLimiters.SurvivorsAre | agents/shared/rate_limiter.py:53 | The surviving stamps, said of each check: younger than a window for everything that came after it on the bucket. |
| BucketLimiters.CountsTheSurvivors | agents/shared/rate_limiter.py:47-58 | A check with a new stamp is counted with the surviving stamps, hence with every stamp of its bucket exactly if all survive. |
| BucketLimiters.BucketAllowsFirstAndFreed | agents/shared/rate_limiter.py:38-58 | With distinct stamps a bucket lets through its first `max` checks, and then exactly those at which fewer than `max` stamps survive. |
| BucketLimiters.BucketHoldsTheWindow | agents/shared/rate_limiter.py:52-57 | For operations that reach the server in the order of their readings, straddling ones included: what it has for a bucket is exactly the stamps of the last window. |
| BucketLimiters.CountsAllExactlyIfYoung | agents/shared/rate_limiter.py:47-58 | In that order, a check with a new stamp is counted with every stamp of its bucket exactly if all of these are less than a window old. |
| BucketLimiters.AllowsFirstAndLate | agents/shared/rate_limiter.py:47-58 | In that order and with distinct stamps, a check passes exactly if it is among the first `max` of its bucket or comes a window or more after the check `max` places before it. |
| BucketLimiters.BucketAllowsFirstAndLate | agents/shared/rate_limiter.py:38-58 | So, in that order, the number a bucket lets through is that of its first `max` checks and its late ones. |
| BucketLimiters.InOrderExceedsExactly | agents/shared/rate_limiter.py:38-58 | In that order and with distinct stamps, a bucket lets through more than `max` checks exactly if two of its stamps, `max` places apart, are a window or more apart. |
| BucketLimiters.BucketAtMostMaxPerSpan | agents/shared/rate_limiter.py:38-58 | In that order and with distinct stamps, whatever the readings, a bucket lets through at most `max` checks in a span of the clock shorter than the window. |
| BucketLimiters.AtMostThriceMaxPerSpan | agents/shared/rate_limiter.py:38-58 | If moreover each call files its stamp in the bucket of its reading or the next one, such a span holds at most three times `max` checks let through for a key. |
| BucketLimiters.BucketExceedsExactly | agents/shared/rate_limiter.py:38-58 | It lets through more than `max` exactly if, at some check that comes after `max` others of it, fewer than `max` of its stamps survive. |
| BucketLimiters.StraddlingReadingsLoseAStamp | agents/shared/rate_limiter.py:47-49 | For every window, clock readings on either side of an edge with which a bucket of maximum one lets two checks through. |
| Tokens.AuthService.IssueTokens | packages/auth/index.ts:33-40 | An uninterrupted issue: the refresh token is stored once its signature is there, even if the second signature fails. |
| Tokens.AuthService.TakeRefreshToken | packages/auth/index.ts:48-58 | The step after verification: type and store checks, and the id deleted exactly if both pass. |
| Tokens.AuthService.RotateRefreshToken | packages/auth/index.ts:46-60 | An uninterrupted rotation: which errors leave the store alone, that the old id is gone once its token was accepted even if a signature then fails, and that the new pair has the old user. |
| TokenRuns.EveryRunIsGood | packages/auth/index.ts:33-60 | Under every interleaving at the awaits, every stored, signed or half-signed token was made once, under its own id. |
| TokenRuns.EachTokenRotatesAtMostOnce | packages/auth/index.ts:50-51 | No refresh id is rotated twice. |
| TokenRuns.RedeemsExactlyUnrotated | packages/auth/index.ts:49-51 | A signed token is accepted exactly if it is a refresh token that was never rotated. |
| TokenRuns.RefusesExactlySpent | packages/auth/index.ts:46-51 | In every run, a signed access token is refused for its type, a refresh token that was rotated before as revoked, and no other signed token is refused. |
| TokenRuns.RedeemingSpends | packages/auth/index.ts:48-60 | A redeemed refresh token leaves the store before anything is awaited, and the next pair is for its user. |
| TokenRuns.IssuedPairsAreSigned | packages/auth/index.ts:33-40 | In every run, an issued pair is a signed access and a signed refresh token of one user. |
| TokenRuns.StoreIsStoredMinusRotated | packages/auth/index.ts:38-51 | The store holds exactly the refresh ids stored and not rotated since. |
| TokenRuns.OneStoredTokenPerLogin | packages/auth/index.ts:33-60 | Of all refresh tokens that descend from one login at most one is stored. |
| TokenRuns.ClaimsComeFromALogin | packages/auth/index.ts:52-59 | The claims of every signed token are those of a user who logged in. |
| TokenRuns.ClaimsSurviveChains | packages/auth/index.ts:52-60 | The user's claims are the same at both ends of any chain of rotations. |
| ToolValues.NormalizeIsPlain | agents/shared/tool_runtime.py:41-52 | Normalised values hold only JSON values, with text keys that occur once. |
| ToolValues.NormalizeIsIdempotent | agents/shared/tool_runtime.py:41-52 | Normalising twice is normalising once, order of entries included. |
| ToolImages.NormalizesExactly | agents/shared/tool_runtime.py:41-52 | What a value becomes, said without normalising: sequences become lists of one length, element by element; a dictionary keeps, under the `str` of each key in order of first appearance, what its last value becomes; decimals, bytes and other objects are converted and scalars stay. The normal form is that value, and nothing else is. |
| ToolValues.KeysAgreeExactly | agents/shared/tool_runtime.py:78-80 | Two calls share a cache key exactly when their tools and normalised payloads have one JSON text with sorted keys. |
| ToolImages.SameJsonExactly | agents/shared/tool_runtime.py:79 | Two normalised values have one JSON text with sorted keys exactly if they are lists or dictionaries with the same parts, or scalars with one text. |
| ToolImages.KeysAgreeOnImages | agents/shared/tool_runtime.py:78-80 | Two calls share a cache key exactly when their tools print alike and their payloads become the same JSON value. |
| ToolRuntimes.ToolRuntime.RunTool | agents/shared/tool_runtime.py:83-114 | An uninterrupted call: validation, lookup, choice of the handler, its outcome (a validation error of the handler itself included), and what is stored and answered. |
| ToolAnswers.RefusedCall | agents/shared/tool_runtime.py:34-37 | A call whose payload its model refuses, or whose tool is unknown and not in the cache, is refused for that and leaves nothing behind. |
| ToolAnswers.RememberedCall | agents/shared/tool_runtime.py:90-93 | An idempotent call whose key is in the cache is answered from it, whether its tool is registered or not. |
| ToolAnswers.ReturningCall | agents/shared/tool_runtime.py:95-104 | Every other call runs its own handler before a registered one; what it returns is answered as the JSON value it becomes, and cached exactly if the call is idempotent. |
| ToolAnswers.FailingCall | agents/shared/tool_runtime.py:105-114 | A handler that times out, fails validation or raises is answered by that fault, and nothing is cached. |
| ToolRuns.UninterruptedCallAnswers | agents/shared/tool_runtime.py:83-114 | The two steps of a call, one after the other, do what the uninterrupted call does. |
| ToolRuns.CacheIsWhatHandlersGave | agents/shared/tool_runtime.py:91-101 | The cache holds for each key what the last handler that returned for it gave, and nothing from a call that failed. |
| ToolRuns.AnswersFromCacheExactly | agents/shared/tool_runtime.py:90-93 | A valid call is answered from the cache exactly if it is idempotent and a handler returned for its key, and then with what the last such handler gave. |
| ToolRuns.CachingIsTransparent | agents/shared/tool_runtime.py:83-104 | However calls interleave, an idempotent call that succeeds gets the data that it would get without the cache. |
| ToolRuns.ReregisteredToolStaysStale | agents/shared/tool_runtime.py:31-32 | Registering another handler under a name does not change answers already cached. |
| ToolRuns.CacheIsLastRequest | agents/shared/tool_runtime.py:90-99 | What the cache holds for a key is what the handler of the last request that returned for it gives for that request, for any behaviour of the handlers. |
| ToolRuns.CachedAnswerIsCurrentExactly | agents/shared/tool_runtime.py:90-99 | Cached answers to an idempotent call are, whatever handlers give, those of the handler it would run now exactly if the last request that returned for its key ran that handler, or none returned. |
| ToolRuns.PythonAnswerIsCurrentExactly | agents/shared/tool_runtime.py:78-99 | The same for the keys and normalised values of the Python code. |
| MeetingSlots.ScheduleMeeting | agents/sdr/tools.py:85-122 | The scan returns the first eligible hours of the week, as many as asked for or as there are. |
| MeetingSlots.EligibleHoursAreExact | agents/sdr/tools.py:115 | The eligible hours of a span, in strictly increasing order, and no others. |
| MeetingSlots.SlotsAre | agents/sdr/tools.py:85-122 | The slots are hours of the week from the first full hour after now on, Monday to Friday from 9 to 17, in which no busy period starts; in order, at most as many as asked for, and an hour of this kind is left out only if they are as many and all earlier. |
| MeetingSlots.SlotsAreTheEarliest | agents/sdr/tools.py:112-122 | Slots are in strictly increasing order, after now, at working hours in which no busy period starts, and no eligible hour before the last slot is left out. |
| MeetingSlots.AnyWeekHas45 | agents/sdr/tools.py:86-115 | Any seven days, from any hour on, hold exactly 45 weekday hours from 9 to 17. |
| MeetingSlots.SlotsFound | agents/sdr/tools.py:112-122 | The number of slots found, and that it is the number asked for exactly when at most 45 less that number of working hours have a busy start. |
| MeetingSlots.EligibleOverlapsExactly | agents/sdr/tools.py:103-121 | The half hour offered at an eligible hour overlaps a busy period exactly if the period starts in an earlier hour and lasts into it. |
| MeetingSlots.SlotsAvoidMeetingsExactly | agents/sdr/tools.py:103-121 | The eligible hours of a span avoid every busy period exactly if some period starts in each working hour that a period lasts into. |
| MeetingSlots.ReturnedSlotsAvoidMeetingsExactly | agents/sdr/tools.py:103-122 | No returned slot overlaps a busy period exactly if some period starts in each working hour, from the start of the search to the last slot, that a period lasts into. |
| MeetingSlots.ShortMeetingsAreAvoided | agents/sdr/tools.py:103-121 | A busy period that ends within the hour it starts in overlaps no slot. |
| MeetingSlots.LongMeetingIsNotAvoided | agents/sdr/tools.py:103-121 | The second hour of a two-hour busy period is still eligible, and its slot overlaps the period. |

## Left out

- HTTP routing, databases, queues, user interface, agents' fixed pipelines and configuration: no state or loop of their own.
- `detect_duplicate_payments` and `OrchestratorWorker._process_one`: one set test each, easy beside the rest.
- Executors that raise, and a quality that is not a number, in the goal loop; the executor is a function of the step and
  of how many calls came before.
- JavaScript's recursion limit in the depth-first sort.
- Floating-point rounding of amounts, qualities and latencies: they are reals.
- `toLowerCase`, SHA-256, the printing of a hashed manifest, Python's `str`, `float` and JSON text of scalars: parameters.
  So is the enumeration order of keys, any weak order; sorting is stable.
- The wording of the fixed prompt sections and of the learning clause is a parameter.
- Parsing of version strings and `semver.diff` where a pre-release takes part are parameters: the semver package is not
  part of this model. For such pairs the changelog rule follows whatever `semver.diff` answers.
- The limits of JavaScript numbers (cursors beyond 2^53, `Infinity`), and cursors that decode to bytes beyond ASCII.
- Concurrent registry calls, which await between reading and writing; each call reads the clock once. The Prisma store is
  left out.
- Time stamps and latencies of orchestrator events, failing durable writes, and the answer for an unknown event type,
  which request validation excludes. A crash is a step of the sequential specification, not a method of the class.
- OrchestratorSteps.NeverDoubledExactly: says nothing of overlapping reprocess calls of the id itself, which the source
  does not claim to be safe; what a lookup of a row returns is arbitrary.
- BucketLimiters.AtMostTwiceMaxPerSpan: supposes that both clock readings of a call fall into one bucket and that counted
  stamps of a bucket differ. The server's clock for expiry is taken to be the call's own reading, here and in the other
  results; a reply lost after the server did its work is not modelled.
- Token expiry and forged signatures appear as verification that may fail; a restart, which empties the store, is left out.
- ToolRuns.CachingIsTransparent: supposes handlers that do not change their payload and are functions of the tool and the
  payload's JSON text, and a digest without collisions; aliasing between an answer and the cached object, cancellation,
  logging and redaction are left out, and so are the cost figures and payloads whose JSON text cannot be formed: an
  estimate that raises comes after the cache is written.
- Time zones and changes of daylight saving time in the slot search, the formatting of slots, and pydantic's bounds on the
  number of slots; busy periods are given in local minutes.
