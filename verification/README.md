# Neuralgentics: proofs about its core logic

Neuralgentics is an agent platform made of a TypeScript plugin (`overlay/packages/opencode`), a Go backend, a Go
orchestrator and a Go MCP broker (`packages/*-go`), and a Python memory store (`packages/memini-core`). This project
models the parts of it whose correctness does not show in any single function body, and proves what they guarantee.
`dafny verify dfyconfig.toml` checks everything; nothing here executes the original programs.

The model has one module per component:

- `JsonRpc`, `JsonRpcRuns`: the JSON-RPC 2.0 conversation between the plugin's `GoBackendClient` and the backend's
  `handleStream` loop. The client is a class whose methods are proved against functions on its state; these functions,
  the server loop and the two pipes then form one step system, and the theorems are about every run of it: calls,
  answers, deliveries, timeouts, write errors, exits and shutdowns in any interleaving.
- `GraphTraversal`: the depth-bounded breadth-first search over memory relationships.
- `SkillLookup`: the tokenizer, bags of words, the cosine and the choice of a skill.
- `AgentsMdCache`, `AgentsMdRuns`: the AGENTS.md cache that is validated by modification time; first for one call
  alone, then for any number of calls whose `stat`, lookup, read and store steps interleave with changes to the files.
- `ConfigMerge`: merging the shipped `opencode.json` into the user's, and the list of changes.
- `Personalizations`, `UpdateFlow`, `ConfigUpdate`: the update of a configuration directory: the manifest-driven copy
  with backups, appending the user's overrides to the agent files, and both of them together as one object's method.
- `BoomerangProtocol`, `BoomerangCycle`: the nine-step protocol machine with its three levels of strictness, and the
  orchestrator that drives it, with its routing.
- `TextChunker`: the indexer's overlapping chunker.
- `EnvFile`: the `.env` merge against its two readers, one in TypeScript and one in Go.
- `EmbeddingMigration`: the batched, interruptible migration of embeddings, and its rollback.
- `BrokerTransports`: activation of an MCP server with rotating fallback, and the transport that a call then takes.
- `ModelPatch`: rewriting the `model:` line of an agent file.
- `Text`: strings as these programs handle them (trim, split, join, search).

Code that changes state is modelled by classes and methods with loops. Each such method is proved equal to a function
of its inputs or of the old state, and the lemmas below are about these functions. Files are maps from paths to
contents, database tables are maps from ids to rows, SHA-256 is an injective constructor, timestamps are parameters,
and what the network, processes or handlers do is an arbitrary outcome chosen from outside.

Where the code and its documentation disagree, the model follows the code:

- `shutdown` of the client is documented as safe to call several times. It is, exactly as long as the calls do not
  overlap; two overlapping calls make one of them call `kill` on null (`ShutdownCrashesExactlyOnOverlap`). `start`
  after `shutdown` is documented to reject; once the first `start` was fulfilled it returns the old, fulfilled promise
  (`LaterStartsAreFulfilled`), and no process is started again, so that all later calls fail (`NeverRestarts`).
- The merge's change list is documented as empty when nothing changed and as a description of all changes; an added
  `provider` block and an added empty section are not in it (`EmptyChangeList`, `ProviderIsNotReported`).
- The update promises a backup of every file it overwrites, but names backups by base name only, so that the first of
  two `SKILL.md` files is lost (`NothingLostExactlyWhen`, `TwoSkillFiles`). A file that the manifest records as
  current is skipped even if it has been deleted (`InstalledExactlyWhen`, `DeletedFileStaysMissing`).
- A waiver is said to let a step be skipped for certain phrases. `ApplyWaiver` accepts every phrase for every step, and
  a strict machine does not move for a waiver unless the step is the next one (`StrictStep`). `InitState` is said to
  fail on an existing state; it replaces it.
- The chunker's removal of a "near-duplicate" last chunk can drop text (`ChunksRebuild`, `SixHundredEqualCharacters`).
- `updateEnvFile` appends at least one more newline each time it is repeated (`UpdatedTwice`).
- `Call` does not use a transport that was activated over stdio while an HTTP client of the same name is left over, nor
  after the name is registered again, nor after another activation that failed in a handshake; for HTTP it always uses
  the last one (`CallsFollowTheLastActivation`, `HttpThenStdio`, `RegisteredAgain`, `ActivatedInVain`).
- Appending an override is skipped if "a previous merge appended it". The test behind that, for the body as a suffix,
  asks for less than a merge writes (`SuffixIsNotEnough`, `SuffixByChance`); what holds after it in any case is that
  the agent file ends in the body (`OverridesAreInForce`).
- A `model:` line with a value and a carriage return behind it is not recognised, so that files with such line ends are
  not patched (`ReturnHidesValue`, `ReturnsPreventPatches`).
- The rollback that is printed after a migration restores a row's original embedding only if the row still had it in use
  when an attempt first backed it up, or, if none did, at the end (`RollbackGivesBackedUpValue`, `RollbackRestores`).

## Model

| member | source | states |
|---|---|---|
| JsonRpc.HandleStream | packages/backend-go/cmd/backend/main.go:888-917 | The server loop answers input lines in order, each at most once, leaves out no line that has an answer, and fails exactly when a line is longer than the scanner's buffer |
| JsonRpc.GoBackendClient.Start | overlay/packages/opencode/src/neuralgentics/go-backend-client.ts:324-407 | A process is spawned only by the first `start`; the promise that is returned is a fulfilled one or the shared one of the first `start`, whose state follows the ready promise |
| JsonRpc.GoBackendClient.Call | overlay/packages/opencode/src/neuralgentics/go-backend-client.ts:452-493 | A call takes a fresh id and registers it with its timer, or is rejected at once when there is no process |
| JsonRpc.GoBackendClient.OnTimeout | overlay/packages/opencode/src/neuralgentics/go-backend-client.ts:452-493 | A timeout removes the entry and its timer and rejects the promise, unless it is settled already |
| JsonRpc.GoBackendClient.OnWriteError | overlay/packages/opencode/src/neuralgentics/go-backend-client.ts:452-493 | So does a failed write to the process's stdin |
| JsonRpc.GoBackendClient.OnLine | overlay/packages/opencode/src/neuralgentics/go-backend-client.ts:544-579 | The first line makes the client ready; a line settles a call only if it carries the id of a pending one, and every other line leaves all calls alone |
| JsonRpc.GoBackendClient.RejectAllPending | overlay/packages/opencode/src/neuralgentics/go-backend-client.ts:582-593 | The loop over the pending table leaves nothing pending, rejects each promise that was pending and touches no settled one, in whatever order the entries come |
| JsonRpc.GoBackendClient.OnSpawnError | overlay/packages/opencode/src/neuralgentics/go-backend-client.ts:324-407 | A failing spawn rejects the ready promise, if it is open, and every pending call |
| JsonRpc.GoBackendClient.FinishShutdown | overlay/packages/opencode/src/neuralgentics/go-backend-client.ts:496-507 | The end of `shutdown` drops the process, or crashes when an overlapping `shutdown` has dropped it |
| JsonRpcRuns.PipesStepByStep | overlay/packages/opencode/src/neuralgentics/go-backend-client.ts:452-593 | What each step does to the two pipes: a call writes its own request, with its id, name and parameters, and nothing that is written is lost or reordered |
| JsonRpcRuns.EachIdIsPendingOrSettled | overlay/packages/opencode/src/neuralgentics/go-backend-client.ts:452-593 | After every run, each id handed out is either pending with its timer armed or settled, never both, and nothing else is |
| JsonRpcRuns.SettlementIsFinal | overlay/packages/opencode/src/neuralgentics/go-backend-client.ts:452-593 | No later step of any kind changes a settlement |
| JsonRpcRuns.SettledWithOwnAnswer | overlay/packages/opencode/src/neuralgentics/go-backend-client.ts:544-579 | In every run, what a call resolves to, or the RPC error it is rejected with, is what the handler answered to that call's own request, which the server read exactly once |
| JsonRpcRuns.OnlyTheseSettle | overlay/packages/opencode/src/neuralgentics/go-backend-client.ts:452-593 | In every run an unsettled call is settled, and as follows, exactly by: the delivery of its answer, with the result's value or the error's code and message; its timeout; its failed write; exit, closed stdout or spawn error; or being made without a process |
| JsonRpcRuns.DeliveredAnswersSettle | overlay/packages/opencode/src/neuralgentics/go-backend-client.ts:544-579 | In every run a call whose answer has been delivered is settled |
| JsonRpcRuns.OneCallResolves | overlay/packages/opencode/src/neuralgentics/go-backend-client.ts:452-579 | There is such a run for every request and every result: a call that resolves with it |
| JsonRpcRuns.StrayLinesAreDropped | overlay/packages/opencode/src/neuralgentics/go-backend-client.ts:544-579 | Delivering a line changes the calls if and only if it is a message with the id of an issued, unsettled call; late, unknown and id-less lines are dropped |
| JsonRpcRuns.NothingPendingAfterExit | overlay/packages/opencode/src/neuralgentics/go-backend-client.ts:582-593 | After an exit, a closed stdout or a spawn error no call is pending, no timer is armed, and every id handed out is settled |
| JsonRpcRuns.ServerAnswersInOrder | packages/backend-go/cmd/backend/main.go:888-917 | In every run the responses follow the order of the requests, one per line at most, each with its request's id except a parse error's and the two sidecar handlers'; unsolicited output carries no id |
| JsonRpcRuns.RequestsAreAnswered | packages/backend-go/cmd/backend/main.go:888-917 | In every run each request that the server has read is answered with the handler's reply, if that can be marshalled; a line that does not parse is answered with error -32700, and no other line is answered |
| JsonRpcRuns.LifeStepByStep | overlay/packages/opencode/src/neuralgentics/go-backend-client.ts:324-593 | In every run, what each step does to readiness, process, `started` and the counters: only the first `start` spawns, only the end of a `shutdown` drops the process, readiness is settled once |
| JsonRpcRuns.StartFollowsRun | overlay/packages/opencode/src/neuralgentics/go-backend-client.ts:324-407 | After every run, `start` returns a fulfilled promise once the first one was resumed, else a failed one if the spawn failed before any line came, else a waiting one |
| JsonRpcRuns.NeverRestarts | overlay/packages/opencode/src/neuralgentics/go-backend-client.ts:324-407 | Once the process is dropped no run brings one back, and every later call is rejected |
| JsonRpcRuns.SpawnedAtMostOnce | overlay/packages/opencode/src/neuralgentics/go-backend-client.ts:324-407 | Every run spawns at most one process |
| JsonRpcRuns.LaterStartsAreFulfilled | overlay/packages/opencode/src/neuralgentics/go-backend-client.ts:324-407 | Once the first `start` is fulfilled, a `start` at any later point of any run returns a fulfilled promise, also after `shutdown` |
| JsonRpcRuns.ShutdownCrashesExactlyOnOverlap | overlay/packages/opencode/src/neuralgentics/go-backend-client.ts:496-507 | In a run whose shutdowns have all returned, one of them crashed if and only if two of them overlapped |
| JsonRpcRuns.OverlappingShutdownsCrash | overlay/packages/opencode/src/neuralgentics/go-backend-client.ts:496-507 | The concrete run with two overlapping shutdowns and one crash |
| GraphTraversal.Traverse | packages/memini-core/src/memini_core/graph.py:53-80 | The loop terminates and returns, without duplicates and nearest first, exactly the memories other than the start within `max_depth` undirected hops |
| GraphTraversal.NearIsDistance | packages/memini-core/src/memini_core/graph.py:53-80 | The distance in that contract is walk distance: within n hops if and only if a walk of at most n hops exists |
| GraphTraversal.LinksAreUndirected | packages/memini-core/src/memini_core/database.py:328-355 | Two memories are linked if and only if a relationship row joins them in either direction |
| GraphTraversal.NothingMissed | packages/memini-core/src/memini_core/graph.py:53-80 | Why the cut-off loses nothing: with exact depths in FIFO order, everything nearer than k expanded means everything within k enqueued |
| SkillLookup.BagOfWords | overlay/packages/opencode/src/self-evolution/skill_lookup.ts:45-53 | The frequency map counts exactly the lower-cased words that are not stop words |
| SkillLookup.BagOfConcat | overlay/packages/opencode/src/self-evolution/skill_lookup.ts:45-53 | The tokenizer is a homomorphism: the words of two texts with a separator between them are the words of the one followed by those of the other, so the bags add up and their order is immaterial |
| SkillLookup.Cosine | overlay/packages/opencode/src/self-evolution/skill_lookup.ts:56-70 | The three loops compute the squared cosine of the bags, in whatever order the maps are iterated |
| SkillLookup.CauchySchwarz | overlay/packages/opencode/src/self-evolution/skill_lookup.ts:56-70 | The squared inner product of any two bags is at most the product of their squared lengths |
| SkillLookup.ScoreRange | overlay/packages/opencode/src/self-evolution/skill_lookup.ts:56-70 | A score lies between 0 and 1 and is symmetric |
| SkillLookup.ScoreIsOne | overlay/packages/opencode/src/self-evolution/skill_lookup.ts:56-70 | A score is 1 if and only if the bags are not empty and proportional; equal non-empty bags in particular |
| SkillLookup.ScoreTimesLengths | overlay/packages/opencode/src/self-evolution/skill_lookup.ts:56-70 | The squared score times the squared lengths is the squared product, for all bags, empty ones included |
| SkillLookup.DotAdds | overlay/packages/opencode/src/self-evolution/skill_lookup.ts:56-70 | That product is additive; with the next row and symmetry this determines it |
| SkillLookup.DotOfWord | overlay/packages/opencode/src/self-evolution/skill_lookup.ts:56-70 | The product of a bag with a single word is the word's count |
| SkillLookup.ScoreIsPositive | overlay/packages/opencode/src/self-evolution/skill_lookup.ts:56-70 | A score is positive if and only if the bags share a word |
| SkillLookup.SkillTextWords | overlay/packages/opencode/src/self-evolution/skill_lookup.ts:104-110 | The words on which a skill is scored are those of its name, then of its description, if any, then of each tag in order, if any |
| SkillLookup.FoundByItsWords | overlay/packages/opencode/src/self-evolution/skill_lookup.ts:104-110 | A skill scores above zero if and only if its name, its description or a tag has a word of the context |
| SkillLookup.PickSkill | overlay/packages/opencode/src/self-evolution/skill_lookup.ts:92-124 | The loop returns the first skill with the maximal score, over the words of its name, description and tags, if that score qualifies, and null if no score does |
| SkillLookup.PickIsUnique | overlay/packages/opencode/src/self-evolution/skill_lookup.ts:92-124 | That contract determines the pick |
| SkillLookup.PickByScore | overlay/packages/opencode/src/self-evolution/skill_lookup.ts:98-123 | In terms of the scores themselves, not their squares: the pick is the first skill with the best score, if that is positive and not below the threshold, and null otherwise |
| SkillLookup.WordsIgnoreCase | overlay/packages/opencode/src/self-evolution/skill_lookup.ts:45-53 | Texts that differ only in upper and lower case have the same words |
| SkillLookup.WordsOfToken | overlay/packages/opencode/src/self-evolution/skill_lookup.ts:45-53 | A text without a separator is one word, in lower case, unless it is empty or a stop word; with the next row this determines the words of every text |
| SkillLookup.WordsOfParts | overlay/packages/opencode/src/self-evolution/skill_lookup.ts:45-53 | The words of parts put together with any separators are the words of the parts, one after the other |
| SkillLookup.PickIgnoresOrderCaseAndPunctuation | overlay/packages/opencode/src/self-evolution/skill_lookup.ts:92-124 | Contexts whose parts are the same up to order, case and empty parts, with any separators between them, get the same pick |
| SkillLookup.NoPickMeansAllBelow | overlay/packages/opencode/src/self-evolution/skill_lookup.ts:92-124 | For a positive threshold the result is null if and only if every score is below it |
| AgentsMdCache.AgentsMdLoader.LoadAgentsMd | overlay/packages/opencode/src/server.ts:112-132 | Undisturbed, the loop returns the first candidate's hit or content and leaves the cache with that entry |
| AgentsMdCache.CoherentReadsThrough | overlay/packages/opencode/src/server.ts:94-132 | With a cache that contradicts no file, an undisturbed call returns what reading the candidates without a cache returns, and leaves such a cache |
| AgentsMdCache.AloneIsCachedRead | overlay/packages/opencode/src/server.ts:112-132 | The steps of the concurrent model, run without interleaving, do exactly what the method does |
| AgentsMdCache.HitIsGenuine | overlay/packages/opencode/src/server.ts:112-132 | If mtimes vouch for contents, a hit is right: the entry's content was on disk during the call, or before it and then still at the call's own `stat` |
| AgentsMdCache.NoReuseVouches | overlay/packages/opencode/src/server.ts:94-132 | Mtimes vouch for contents in particular if none is ever reused for a path |
| AgentsMdCache.VouchingAllowsReuse | overlay/packages/opencode/src/server.ts:94-132 | The condition is weaker than that: an mtime may come back with the content that it came with |
| AgentsMdRuns.ReturnedContentWasOnDisk | overlay/packages/opencode/src/server.ts:94-132 | With any number of interleaved calls and file changes, if mtimes vouch for contents up to a call's return, a content that it returned was the candidate's content at some instant of that very call, and all candidates before it (all of them, for null) were unreadable at some instant of it |
| AgentsMdRuns.QuietCallReadsThrough | overlay/packages/opencode/src/server.ts:94-132 | If no file changes during such a call, it returns the content of the first readable candidate, whatever other calls do to the cache meanwhile and whatever changes later |
| AgentsMdRuns.SecondCallReturns | overlay/packages/opencode/src/server.ts:112-132 | In every history in which a path has the same mtime at two instants, there is a run whose second call returns any content that the path had in between |
| AgentsMdRuns.HonestExactlyWhenMtimesVouch | overlay/packages/opencode/src/server.ts:94-132 | For every history of the files: all calls of all runs with it return what was on disk during the call if and only if seeing an mtime twice vouches for the contents in between |
| ConfigMerge.UnionArrays | overlay/packages/opencode/src/neuralgentics/merge.ts:100-120 | The union is the de-duplicated concatenation, user entries first, absent and null arrays counting as empty |
| ConfigMerge.DedupElements | overlay/packages/opencode/src/neuralgentics/merge.ts:95-120 | De-duplication keeps exactly the elements, each once |
| ConfigMerge.DedupGrows | overlay/packages/opencode/src/neuralgentics/merge.ts:95-120 | Adding entries at the end keeps what was there, in place, as a prefix |
| ConfigMerge.MergeOpencodeJson | overlay/packages/opencode/src/neuralgentics/merge.ts:134-182 | The sequence of in-place additions gives, key by key, the left-biased merge |
| ConfigMerge.ArraysAreUnited | overlay/packages/opencode/src/neuralgentics/merge.ts:134-182 | `plugin` and `instructions` become arrays with the items of both, each once, the user's first |
| ConfigMerge.SectionsAreUnited | overlay/packages/opencode/src/neuralgentics/merge.ts:134-182 | `mcp`, `lsp` and `formatter` hold the entries of both, the user's where both have one |
| ConfigMerge.OtherKeysAreKept | overlay/packages/opencode/src/neuralgentics/merge.ts:134-182 | The provider block and the five scalars are the user's, or else the shipped ones; every other key is the user's |
| ConfigMerge.MergeAssociates | overlay/packages/opencode/src/neuralgentics/merge.ts:134-182 | Merging release 1 and then release 2 into a config is merging the merged releases |
| ConfigMerge.MergeTwice | overlay/packages/opencode/src/neuralgentics/merge.ts:134-182 | Merging is idempotent |
| ConfigMerge.MergeStaysWellFormed | overlay/packages/opencode/src/neuralgentics/merge.ts:134-182 | The result can be merged into again |
| ConfigMerge.MergeKeepsUser | overlay/packages/opencode/src/neuralgentics/merge.ts:6-17 | The provider block, section entries, scalars and unknown keys of the user keep their values, and the de-duplicated user array is a prefix of the merged one |
| ConfigMerge.MergeInventsNothing | overlay/packages/opencode/src/neuralgentics/merge.ts:6-17 | Every key, section entry and array item of the result is the user's or else the shipped one, except that `plugin` and `instructions` are created as empty arrays where both lack them |
| ConfigMerge.MergeOpencodeJsonWithDiff | overlay/packages/opencode/src/neuralgentics/merge.ts:188-245 | The change list names, in this order, each shipped plugin and instruction that the user lacks, repetitions included, the missing entries of each section once, and the missing scalars |
| ConfigMerge.ChangeListIsDifference | overlay/packages/opencode/src/neuralgentics/merge.ts:188-245 | Such a list holds exactly the items, entries and scalars that the merged config has and the user's has not |
| ConfigMerge.ReportedExactly | overlay/packages/opencode/src/neuralgentics/merge.ts:188-245 | Those are, key by key, the shipped items of the two arrays, the shipped entries of the three sections and the five shipped scalars that the user lacks |
| ConfigMerge.MissingItemsInOrder | overlay/packages/opencode/src/neuralgentics/merge.ts:188-245 | The items are listed in the order of the shipped ones |
| ConfigMerge.RerunReportsNothing | overlay/packages/opencode/src/neuralgentics/merge.ts:184-187 | Merging the same release again has nothing to report |
| ConfigMerge.EmptyChangeList | overlay/packages/opencode/src/neuralgentics/merge.ts:184-245 | The merge only normalises the user's file if and only if the change list is empty, no provider block is added and no section is created |
| ConfigMerge.NormalForm | overlay/packages/opencode/src/neuralgentics/merge.ts:134-182 | Normalising leaves a file alone if and only if both arrays are there and free of duplicates |
| ConfigMerge.ProviderIsNotReported | overlay/packages/opencode/src/neuralgentics/merge.ts:188-245 | Every shipped provider block can be added with an empty change list |
| Personalizations.StripYamlFrontmatter | overlay/packages/opencode/src/neuralgentics/personalizations.ts:60-84 | The scan returns the body, which is described without the scan: the text behind the first closing fence without its leading newlines, or the whole file if there is no closed frontmatter |
| Personalizations.BodyExactly | overlay/packages/opencode/src/neuralgentics/personalizations.ts:60-84 | That description determines the body, of every file |
| Personalizations.BodyIsSuffix | overlay/packages/opencode/src/neuralgentics/personalizations.ts:60-84 | The body is always a suffix of the file |
| Personalizations.StripRecoversBody | overlay/packages/opencode/src/neuralgentics/personalizations.ts:48-84 | Round trip: a body behind any frontmatter comes back |
| Personalizations.AppendedOnce | overlay/packages/opencode/src/neuralgentics/personalizations.ts:190-219 | Appending keeps the agent file as a prefix, ends it with the body, and the result is recognised as merged |
| Personalizations.DigestTestIsRedundant | overlay/packages/opencode/src/neuralgentics/personalizations.ts:196-219 | The digest comparison decides nothing that the suffix test does not |
| Personalizations.MergeResultsExactly | overlay/packages/opencode/src/neuralgentics/personalizations.ts:194-198 | A file can be the result of a merge if and only if it ends in the body as a paragraph of its own |
| Personalizations.SuffixIsNotEnough | overlay/packages/opencode/src/neuralgentics/personalizations.ts:200-219 | The suffix test asks for less: behind any text the body counts as merged, but a merge can have written it there if and only if a blank line precedes it |
| Personalizations.SuffixByChance | overlay/packages/opencode/src/neuralgentics/personalizations.ts:200-219 | The witness: a sentence that ends in the body's word |
| UpdateFlow.BackupNamesCollide | overlay/packages/opencode/src/neuralgentics/backup.ts:49-56 | Two backups of a run share a name if and only if the base names agree up to a final `.json` |
| UpdateFlow.CollidingNames | overlay/packages/opencode/src/neuralgentics/backup.ts:49-56 | In other words, if and only if they are the same or one is the other with `.json` behind it |
| UpdateFlow.BackupPlace | overlay/packages/opencode/src/neuralgentics/backup.ts:40-59 | Where the backup of each file is: its name without `.json`, the timestamp, and `.json` |
| UpdateFlow.CopyFileByFile | overlay/packages/opencode/src/neuralgentics/update.ts:204-255 | What becomes of each release file and of its manifest record: left out under `overrides/`, left alone if recorded with the released content and not forced, written and recorded otherwise |
| UpdateFlow.CopyInstallsTheRelease | overlay/packages/opencode/src/neuralgentics/update.ts:204-255 | After the copy loop every file that was not skipped has the released content, and every other file outside this run's backups is as it was |
| UpdateFlow.InstalledExactlyWhen | overlay/packages/opencode/src/neuralgentics/update.ts:221-255 | A release file is installed afterwards if and only if it was written or was there before with the released content |
| UpdateFlow.DeletedFileStaysMissing | overlay/packages/opencode/src/neuralgentics/update.ts:221-228 | A deleted file that the manifest records as current is not installed |
| UpdateFlow.CopyCountsEveryFile | overlay/packages/opencode/src/neuralgentics/update.ts:204-255 | updated + skipped + created is the number of release files outside `overrides/`, and there is one backup per update |
| UpdateFlow.CopyCounts | overlay/packages/opencode/src/neuralgentics/update.ts:204-255 | updated counts the files written over an existing one, created those written anew, skipped those left alone |
| UpdateFlow.BackupsAreOfOverwrittenFiles | overlay/packages/opencode/src/neuralgentics/update.ts:230-244 | The backup records are exactly those of the overwritten files |
| UpdateFlow.BackupHoldsLast | overlay/packages/opencode/src/neuralgentics/backup.ts:40-59 | A backup holds the previous content of the last overwritten file with its name |
| UpdateFlow.NothingLostExactlyWhen | overlay/packages/opencode/src/neuralgentics/backup.ts:40-59 | Every overwritten content is in its backup if and only if overwritten files whose names agree up to `.json` had equal contents |
| UpdateFlow.TwoSkillFiles | overlay/packages/opencode/src/neuralgentics/backup.ts:40-59 | Two `SKILL.md` files with different contents: one is lost |
| UpdateFlow.ManifestHasRelease | overlay/packages/opencode/src/neuralgentics/update.ts:246-255 | The new manifest records every file outside `overrides/` with its digest as released, before any override is appended |
| UpdateFlow.SecondCopyDoesNothing | overlay/packages/opencode/src/neuralgentics/update.ts:221-228 | Copying the same release again without force skips every file and reproduces the manifest, whatever is on disk by then |
| UpdateFlow.SecondAppendDoesNothing | overlay/packages/opencode/src/neuralgentics/personalizations.ts:196-219 | Appending the overrides again changes no file and counts nothing as merged |
| UpdateFlow.AppendTouchesAgentsOnly | overlay/packages/opencode/src/neuralgentics/personalizations.ts:122-251 | Appending writes inside `agents/` only |
| UpdateFlow.AppendedOrLeft | overlay/packages/opencode/src/neuralgentics/personalizations.ts:155-248 | Each agent file ends up as it was, or with its override appended and its previous content in its backup, independently of the other overrides |
| UpdateFlow.OverridesAreInForce | overlay/packages/opencode/src/neuralgentics/personalizations.ts:122-251 | For every file name: after appending, the agent file of an override whose body is not blank ends in the body, because it did before or because the body was appended as a paragraph and the file before it backed up; `README.md`, in any case, is no override; no other agent file changes |
| UpdateFlow.AppendCounts | overlay/packages/opencode/src/neuralgentics/personalizations.ts:155-248 | The counters count the overrides without an agent file, those that are appended, and the rest |
| UpdateFlow.MergedCountsChanges | overlay/packages/opencode/src/neuralgentics/personalizations.ts:155-248 | The number of merged overrides is the number of agent files that change |
| UpdateFlow.DryRunPredicts | overlay/packages/opencode/src/neuralgentics/personalizations.ts:221-224 | The dry run counts what the real run does |
| ConfigUpdate.ConfigDir.BackupFile | overlay/packages/opencode/src/neuralgentics/backup.ts:40-59 | An existing file is copied to its backup path and nothing else changes; a missing one has no backup |
| ConfigUpdate.ConfigDir.CopyFile | overlay/packages/opencode/src/neuralgentics/update.ts:215-255 | One round of the copy loop, with its three branches, is one step of the specified copy |
| ConfigUpdate.ConfigDir.MergePersonalizations | overlay/packages/opencode/src/neuralgentics/personalizations.ts:122-251 | The loop over the overrides leaves the specified files and counts; a dry run reports the same counts and changes no file |
| ConfigUpdate.ConfigDir.UpdateConfigDir | overlay/packages/opencode/src/neuralgentics/update.ts:170-290 | The whole update leaves the specified files, state and result; a dry run changes nothing |
| ConfigUpdate.UpdateFileByFile | overlay/packages/opencode/src/neuralgentics/update.ts:170-290 | After an update each release file outside `agents/` and `overrides/` has the released content, unless the state records it with that content and the update is not forced: then it is left as it is |
| ConfigUpdate.UpdateAppliesOverrides | overlay/packages/opencode/src/neuralgentics/update.ts:170-290 | After every update each override that is not blank and has an agent file is in force |
| ConfigUpdate.OverridesNeedAgents | overlay/packages/opencode/src/neuralgentics/personalizations.ts:122-140 | The overrides are gone through if and only if there is an `agents/` directory, from before or from the release |
| ConfigUpdate.StateAfterwards | overlay/packages/opencode/src/neuralgentics/update.ts:257-290 | The new state: version, manifest, whether a file was overwritten, and the type of the installation |
| ConfigUpdate.SecondUpdateDoesNothing | overlay/packages/opencode/src/neuralgentics/update.ts:170-290 | For any files, state and overrides, and a first update, forced or not, the same update again without force updates, creates, backs up and appends nothing, and leaves every file and the manifest as they are |
| ConfigUpdate.UpdateLosesNothing | overlay/packages/opencode/src/neuralgentics/update.ts:170-290 | Provided the names tell the contents apart, every content that any file had before the update is in place or in one of its two backups afterwards |
| ConfigUpdate.UpdateNeverWritesOverrides | overlay/packages/opencode/src/neuralgentics/update.ts:44-49 | No file under `overrides/` changes, whatever the release holds |
| BoomerangProtocol.ProtocolMachine.InitState | packages/orchestrator-go/src/neuralgentics/orchestrator/protocol.go:120-128 | The task gets a fresh state object; no other task's object changes |
| BoomerangProtocol.ProtocolMachine.Advance | packages/orchestrator-go/src/neuralgentics/orchestrator/protocol.go:163-208 | The three modes: strict rejects an unexpected step without any change, standard records a violation and moves, lenient moves; other tasks are untouched |
| BoomerangProtocol.ProtocolMachine.ApplyWaiver | packages/orchestrator-go/src/neuralgentics/orchestrator/protocol.go:220-228 | The phrase is recorded and the step tried, as by `Advance` |
| BoomerangProtocol.ProtocolMachine.CompleteProtocol | packages/orchestrator-go/src/neuralgentics/orchestrator/protocol.go:231-240 | The loop over the remaining steps ends in the specified state, and succeeds exactly when every step is taken and, in strict mode, none is missing |
| BoomerangProtocol.ProtocolMachine.Enforce | packages/orchestrator-go/src/neuralgentics/orchestrator/protocol.go:139-159 | Success means that the task exists and, in strict mode, that each mandatory step is completed or waived with a non-empty phrase |
| BoomerangProtocol.MissingSteps | packages/orchestrator-go/src/neuralgentics/orchestrator/protocol.go:243-256 | The list holds exactly the mandatory steps that are neither completed nor waived |
| BoomerangProtocol.OneStep | packages/orchestrator-go/src/neuralgentics/orchestrator/protocol.go:163-208 | One step in the three modes: a strict machine refuses an unexpected step; in every other case the machine goes there and records the step once, a standard one with a violation if the step was unexpected |
| BoomerangProtocol.OneWaiver | packages/orchestrator-go/src/neuralgentics/orchestrator/protocol.go:220-228 | A waiver is recorded in every mode, whatever the phrase, and then the step is tried |
| BoomerangProtocol.TableIsTheOrder | packages/orchestrator-go/src/neuralgentics/orchestrator/protocol.go:45-57 | The transition table allows the next mandatory step, and leaving after the first or the last; nothing else |
| BoomerangProtocol.TableElsewhere | packages/orchestrator-go/src/neuralgentics/orchestrator/protocol.go:45-57 | Nothing may follow the complete step, and anything may follow a step that the table does not know |
| BoomerangProtocol.StrictRunsFollowTheOrder | packages/orchestrator-go/src/neuralgentics/orchestrator/protocol.go:45-57 | After any run of a strict machine the completed steps are the first k mandatory ones, and it stands at the k-th, at idle for k = 0, or at complete for k = 1 or 9 |
| BoomerangProtocol.StrictStep | packages/orchestrator-go/src/neuralgentics/orchestrator/protocol.go:163-208 | A strict machine takes the next step, leaves where that is allowed, and ignores everything else, waived or not |
| BoomerangProtocol.CompleteIsFinal | packages/orchestrator-go/src/neuralgentics/orchestrator/protocol.go:45-57 | Complete is final until the task is initialised again |
| BoomerangProtocol.EnforceInStrictRuns | packages/orchestrator-go/src/neuralgentics/orchestrator/protocol.go:139-159 | In a strict run with k completed steps nothing is missing if and only if every later step has a non-empty waiver |
| BoomerangProtocol.StrictFinish | packages/orchestrator-go/src/neuralgentics/orchestrator/protocol.go:231-240 | A strict machine can be finished from the delegate step and from nowhere else, where nothing happens |
| BoomerangProtocol.FinishFromDelegate | packages/orchestrator-go/src/neuralgentics/orchestrator/protocol.go:231-240 | In every mode, finishing from the delegate step completes all nine steps without a violation |
| BoomerangProtocol.FinishManyTimes | packages/orchestrator-go/src/neuralgentics/orchestrator/protocol.go:163-240 | Repeated completions of a finished task leave one violation each in standard mode, none otherwise, and the task finished |
| BoomerangCycle.ResolvedAgentIsValid | packages/orchestrator-go/src/neuralgentics/orchestrator/routing.go:83-143 | If no rule forbids its own agent, the resolved agent always passes the validation, and where there is a rule no other agent does |
| BoomerangCycle.MatrixIsConsistent | packages/orchestrator-go/src/neuralgentics/orchestrator/routing.go:7-68 | The routing matrix forbids no rule's own agent |
| BoomerangCycle.ValidExactly | packages/orchestrator-go/src/neuralgentics/orchestrator/routing.go:111-143 | Under any matrix, an agent is valid if and only if the last rule for the task's type, if any, names it and does not forbid it |
| BoomerangCycle.AgentOfEachType | packages/orchestrator-go/src/neuralgentics/orchestrator/routing.go:7-90 | The agent of each type of task, which no other agent can replace; the architect for all other types, where every agent would be valid |
| BoomerangCycle.Orchestrator.HandleTaskStateless | packages/orchestrator-go/src/neuralgentics/orchestrator/orchestrator.go:101-170 | The task is initialised, routed and delegated, or blocked by strict routing; failures afterwards do not undo its progress; other tasks are untouched |
| BoomerangCycle.Orchestrator.HandleTaskInline | packages/orchestrator-go/src/neuralgentics/orchestrator/orchestrator.go:173-235 | The same for the inline way |
| BoomerangCycle.Orchestrator.CompleteTaskCycle | packages/orchestrator-go/src/neuralgentics/orchestrator/orchestrator.go:240-273 | Nothing happens without a wrap-up; with it the protocol is finished; other tasks are untouched |
| BoomerangCycle.CycleEndsFinished | packages/orchestrator-go/src/neuralgentics/orchestrator/orchestrator.go:101-273 | In every mode the cycle of a delegated task ends complete with the nine steps, no violation and nothing missing |
| BoomerangCycle.WholeCycle | packages/orchestrator-go/src/neuralgentics/orchestrator/orchestrator.go:101-273 | Under any matrix, handling a task and completing it n times: a task that strict routing blocks stays planned for good; every other one ends complete with all nine steps, with one violation if it was misrouted and n - 1 more in standard mode |
| TextChunker.ChunkText | packages/memini-core/src/memini_core/indexer.py:152-171 | The loop terminates, for overlap < size or a text of at most `size` characters, and yields the windows, without a last one that repeats the end of the one before |
| TextChunker.ChunksRebuild | packages/memini-core/src/memini_core/indexer.py:152-171 | The chunks rebuild the text if and only if it does not end in a repeated window longer than the overlap; otherwise exactly what that window adds is missing |
| TextChunker.ShortLastWindowIsDropped | packages/memini-core/src/memini_core/indexer.py:167-169 | A last window of at most `overlap` characters is always dropped, and nothing is lost by it |
| TextChunker.SixHundredEqualCharacters | packages/memini-core/src/memini_core/indexer.py:60-61 | With the default sizes 600 equal characters lose their last 100 |
| EnvFile.DotEnv.UpdateEnvFile | overlay/packages/opencode/src/neuralgentics/env-file.ts:42-95 | The existing file is backed up byte for byte and rewritten with the merged lines; without one the new lines are written |
| EnvFile.ParseEnvFile | overlay/packages/opencode/src/neuralgentics/db-stack.ts:157-176 | The reader folds the assignments of the lines into a record |
| EnvFile.ParseTakesLast | overlay/packages/opencode/src/neuralgentics/db-stack.ts:157-176 | The TypeScript reader gives each key its last value |
| EnvFile.LoadEnvFile | packages/backend-go/cmd/backend/main.go:120-149 | The loader folds the assignments of the lines into the environment |
| EnvFile.LoadTakesFirst | packages/backend-go/cmd/backend/main.go:120-149 | The Go loader gives each variable that is not set yet its first value |
| EnvFile.KeyOfTrimmed | overlay/packages/opencode/src/neuralgentics/db-stack.ts:157-176 | Looking for the key in the trimmed line, as TypeScript does, and in the line, as Go does, gives the same key and value |
| EnvFile.FieldsExactly | packages/backend-go/cmd/backend/main.go:120-149 | Which lines assign what: `key = value` with any blanks around both, a key that is not empty, has no `=` and does not begin with `#` |
| EnvFile.ValueOfExactly | packages/backend-go/cmd/backend/main.go:120-149 | The first or last value of a key, as used in the rows here, is that of an assignment with no other before or after it |
| EnvFile.QuotesAreStripped | packages/backend-go/cmd/backend/main.go:134-140 | Both readers strip two quotes of one kind around a value |
| EnvFile.OtherValuesStay | packages/backend-go/cmd/backend/main.go:134-140 | All other values stay as they are, except that the TypeScript reader makes a lone quote empty |
| EnvFile.ReadersUnquoteAlike | packages/backend-go/cmd/backend/main.go:134-140 | The two ways of stripping quotes differ exactly on a lone quote |
| EnvFile.ParsedAfterMerge | overlay/packages/opencode/src/neuralgentics/env-file.ts:42-95 | For any existing text, parsing the merged file gives the old assignments overridden by the new ones |
| EnvFile.ParsedNewFile | overlay/packages/opencode/src/neuralgentics/env-file.ts:53-58 | A newly created file is parsed as the new lines are |
| EnvFile.LoadedNewFile | overlay/packages/opencode/src/neuralgentics/env-file.ts:53-58 | The Go loader takes the same from it |
| EnvFile.FirstAfterMerge | overlay/packages/opencode/src/neuralgentics/env-file.ts:65-92 | The first assignment to a new key is the last new one if an existing line has the key, and the first new one otherwise |
| EnvFile.ReadersSeeNewValues | overlay/packages/opencode/src/neuralgentics/env-file.ts:42-95 | Both readers see a new value of every new key, even if the old file repeated it; they mean the same one if and only if the key was there already or its first and last new values agree, and then differ exactly on a lone quote |
| EnvFile.DistinctKeysSeenAlike | overlay/packages/opencode/src/neuralgentics/env-file.ts:42-95 | With distinct new keys they always mean the same one |
| EnvFile.MergeKeepsLines | overlay/packages/opencode/src/neuralgentics/env-file.ts:65-92 | Comments, blank lines and lines without a key or with another key stay as they are and where they are; every other line is replaced in place by a new line with its key; what follows them is new |
| EnvFile.AdditionsInOrder | overlay/packages/opencode/src/neuralgentics/env-file.ts:87-91 | The lines that are appended come in the order of the new lines |
| EnvFile.AdditionsExactly | overlay/packages/opencode/src/neuralgentics/env-file.ts:87-91 | A line is appended if and only if it is a new line with a key that no existing line has |
| EnvFile.UpdatedTwice | overlay/packages/opencode/src/neuralgentics/env-file.ts:42-95 | The same update again only adds one newline, if and only if no new line is a comment with a `=` and the new lines for a key that was not there are all alike |
| EnvFile.DistinctAssignmentsSettle | overlay/packages/opencode/src/neuralgentics/env-file.ts:42-95 | New lines with distinct keys that are not comments meet that condition |
| EmbeddingMigration.MemoryStore.MigrateEmbeddings | packages/backend-go/cmd/backend/main.go:2807-2973 | Error without a target model; otherwise the nested batch loops process the selected rows once each, in order, for any batch size; a dry run changes nothing |
| EmbeddingMigration.CountsAddUp | packages/backend-go/cmd/backend/main.go:2901-2954 | migrated + skipped + errors is the number of selected rows |
| EmbeddingMigration.TotalCountsRows | packages/backend-go/cmd/backend/main.go:2860-2892 | The total is the number of rows that are not archived and, if a source model is given, were made with it |
| EmbeddingMigration.CountsByRow | packages/backend-go/cmd/backend/main.go:2901-2954 | skipped counts the selected rows on the target model, errors those that fail, migrated all others |
| EmbeddingMigration.ErrorsNameTheirRows | packages/backend-go/cmd/backend/main.go:2901-2954 | The failures name exactly the rows that failed, and how |
| EmbeddingMigration.ReportedErrors | packages/backend-go/cmd/backend/main.go:2955-2960 | The report holds the first fifty failures |
| EmbeddingMigration.EachRowMigratedOrLeft | packages/backend-go/cmd/backend/main.go:2901-2954 | Wherever a run stops and whatever fails, each row is as it was or migrated |
| EmbeddingMigration.CompleteRunMigratesEachRow | packages/backend-go/cmd/backend/main.go:2901-2954 | Without failures every selected row is migrated and no other row changes |
| EmbeddingMigration.OtherRowsStay | packages/backend-go/cmd/backend/main.go:2860-2954 | Wherever a run stops, a row that is archived, made with another model than the given source model, or on the target model is unchanged |
| EmbeddingMigration.OtherRowsAreMigrated | packages/backend-go/cmd/backend/main.go:2860-2954 | After a complete run every other row that did not fail has the target model and the embedding of its text, and its other columns as before |
| EmbeddingMigration.BackupByColumns | packages/backend-go/cmd/backend/main.go:2838-2858 | The backup copies the columns in use to empty legacy columns and changes nothing else |
| EmbeddingMigration.ResumeIsOneRun | packages/backend-go/cmd/backend/main.go:2798-2806 | Stopping anywhere, with any failures, and running again gives every row the embedding and model of one uninterrupted run, and exactly when the legacy columns agree too |
| EmbeddingMigration.RollbackGivesBackedUpValue | overlay/packages/opencode/src/neuralgentics/migrate.ts:117-121 | After any sequence of attempts, backed up or not, interrupted and failing anywhere, the rollback gives a row without a legacy value what it had in use just before the first attempt that backed it up, or what it has at the end if none did |
| EmbeddingMigration.RollbackRestores | overlay/packages/opencode/src/neuralgentics/migrate.ts:117-121 | So a row that had an embedding is restored if and only if that value is its original one, and always if the first real attempt is backed up |
| EmbeddingMigration.RollbackKeepsNewEmbedding | overlay/packages/opencode/src/neuralgentics/migrate.ts:117-121 | A row with neither an embedding nor a legacy value is restored if and only if no attempt has changed it |
| EmbeddingMigration.RollbackGivesOldest | overlay/packages/opencode/src/neuralgentics/migrate.ts:117-121 | A row with a legacy value from before is rolled back to that value, whatever the attempts |
| EmbeddingMigration.UnbackedMigrationIsLost | packages/backend-go/cmd/backend/main.go:2838-2858 | The instance in which the condition fails: after a migration without backup and one with it, the rollback gives the first migration's embedding, not the original |
| BrokerTransports.Broker.RegisterServer | packages/broker-go/src/neuralgentics/broker/broker.go:134-141 | A valid configuration replaces the entry; an HTTP client of that name stays |
| BrokerTransports.Broker.RegisterMCPServer | packages/broker-go/src/neuralgentics/broker/broker.go:304-306 | The same with the first transport's configuration |
| BrokerTransports.Broker.StartServer | packages/broker-go/src/neuralgentics/broker/broker.go:152-203 | A failed launch leaves the pipes alone, a failed handshake clears them, success publishes the entry's own process |
| BrokerTransports.Broker.ActivateMCPServerWithTransport | packages/broker-go/src/neuralgentics/broker/broker.go:314-390 | The fallback loop tries the transports in rotation order up to the first that works and returns its type; other names are untouched |
| BrokerTransports.EachIndexOnce | packages/broker-go/src/neuralgentics/broker/broker.go:329-332 | No transport is tried twice, and if none works every one has been tried |
| BrokerTransports.TriedInRotation | packages/broker-go/src/neuralgentics/broker/broker.go:323-332 | The attempts begin at the requested transport, or at the first if there is no such one, and go round |
| BrokerTransports.WorksExactly | packages/broker-go/src/neuralgentics/broker/broker.go:329-380 | A transport works if and only if its attempt turns out well and, for HTTP, it has a URL |
| BrokerTransports.CommandLines | packages/broker-go/src/neuralgentics/broker/types/types.go:90-129 | The command line of each kind of transport, with the transport's own arguments in their order |
| BrokerTransports.SearchEndsAtFirst | packages/broker-go/src/neuralgentics/broker/broker.go:329-389 | The entry ends with the configuration of the first working transport, or with that of the start if none works; a failed handshake on the way costs the running process |
| BrokerTransports.Broker.DeregisterServer | packages/broker-go/src/neuralgentics/broker/broker.go:289-299 | Entry and HTTP client of the name are removed; other names are untouched |
| BrokerTransports.Broker.RouteOf | packages/broker-go/src/neuralgentics/broker/broker.go:509-547 | A call goes to the HTTP client if there is one, otherwise to the entry's pipes |
| BrokerTransports.HttpClientsAreRegistered | packages/broker-go/src/neuralgentics/broker/broker.go:289-384 | In every run a name has an HTTP client only while it is registered |
| BrokerTransports.RouteAfterRun | packages/broker-go/src/neuralgentics/broker/broker.go:509-547 | Where a call goes after any run with an activation: to the HTTP transport activated last, if any; else to the process of the transport activated last, or nowhere if that process is gone |
| BrokerTransports.CallsFollowTheLastActivation | packages/broker-go/src/neuralgentics/broker/broker.go:509-547 | In every run a call is routed to the transport activated last if and only if that is an HTTP transport, or its process has seen no new registration, exit or failed handshake and no HTTP transport was activated since the last deregistration |
| BrokerTransports.NoActivationNoRoute | packages/broker-go/src/neuralgentics/broker/broker.go:509-547 | Without an activation since the last deregistration a call reaches nothing |
| BrokerTransports.HttpThenStdio | packages/broker-go/src/neuralgentics/broker/broker.go:338-384 | The condition is necessary: after HTTP and then stdio, calls still go to the old HTTP server |
| BrokerTransports.RegisteredAgain | packages/broker-go/src/neuralgentics/broker/broker.go:134-141 | So is its second part: registering a running stdio server again leaves calls without a process |
| BrokerTransports.ActivatedInVain | packages/broker-go/src/neuralgentics/broker/broker.go:152-203 | So does activating it again with a failing handshake |
| ModelPatch.PatchModelLine | overlay/packages/opencode/src/neuralgentics/remodel.ts:101-135 | Reports the model named in the frontmatter, if any, and a change exactly when it is another one |
| ModelPatch.ModelValueExactly | overlay/packages/opencode/src/neuralgentics/remodel.ts:119-123 | What a model line is, and its value: `model:` at the start, any blanks around the value, no carriage return from the value on |
| ModelPatch.LocatesExactly | overlay/packages/opencode/src/neuralgentics/remodel.ts:101-135 | The line that is looked at is the first model line of the frontmatter, and it is found whenever there is one: only blank lines precede the opening fence, and the closing one is the first behind it |
| ModelPatch.NamedIfAny | overlay/packages/opencode/src/neuralgentics/remodel.ts:101-135 | A model is reported if and only if the frontmatter has a model line |
| ModelPatch.ApplyPatch | overlay/packages/opencode/src/neuralgentics/remodel.ts:333-353 | The index loops rewrite the model line that is found and nothing else |
| ModelPatch.PatchSticks | overlay/packages/opencode/src/neuralgentics/remodel.ts:333-353 | A patched file names the new model, and patching it again changes nothing |
| ModelPatch.PatchChangesText | overlay/packages/opencode/src/neuralgentics/remodel.ts:101-135 | Whenever a change is reported the text really changes |
| ModelPatch.PatchKeepsTheRest | overlay/packages/opencode/src/neuralgentics/remodel.ts:88-99 | Everything before and after one line, which lies between the fences, is kept character for character |
| ModelPatch.NothingToPatch | overlay/packages/opencode/src/neuralgentics/remodel.ts:333-353 | Without a model line the text is returned as it is |
| ModelPatch.ReturnHidesValue | overlay/packages/opencode/src/neuralgentics/remodel.ts:119-123 | A model line that ends in a carriage return matches if and only if its value is blank |
| ModelPatch.ReturnsPreventPatches | overlay/packages/opencode/src/neuralgentics/remodel.ts:333-353 | A file whose lines end in carriage returns is left alone by every patch if and only if its frontmatter has no model line with a blank value |
| Text.TrimExactly | overlay/packages/opencode/src/neuralgentics/remodel.ts:101-135 | Trimming removes all blanks at both ends and nothing else |
| Text.JoinOfSplit | overlay/packages/opencode/src/neuralgentics/remodel.ts:333-353 | Round trip: joining the lines of a text gives the text |
| Text.SplitOfJoin | overlay/packages/opencode/src/neuralgentics/remodel.ts:333-353 | Round trip: splitting joined lines gives the lines |

## Left out

- Real input and output: files, processes, the network, PostgreSQL and the sidecar are outcomes or maps; partial writes, permissions and I/O errors other than the ones named are not modelled.
- JsonRpc: a line holding the bare JSON value `null` makes `handleLine` throw; the model counts it as text that is not JSON. The environment set-up before the spawn and the classification of stderr are not modelled.
- JsonRpc.GoBackendClient.Call: models `call` after `waitForReady` has let it through; the readiness timeout of a call that never gets so far is not modelled, because such a call has no id.
- Text: whitespace and case folding are those of ASCII; the non-ASCII whitespace and letters that the runtimes know are not modelled.
- SkillLookup.Cosine: states the square of the score in exact arithmetic, because floating-point rounding is outside the model; squares order scores as the scores do.
- SkillLookup: the list of stop words is copied; nothing is proved about the single words in it.
- SkillLookup.PickSkill: the broker call that lists the skills is a parameter.
- AgentsMdCache: a read returns the content at one instant, so torn reads are not modelled; neither is a change of permissions that leaves the mtime alone.
- ConfigMerge.MergeOpencodeJsonWithDiff: the order of the messages within one section, which is that of the shipped document, is left open, because objects are maps here.
- ConfigMerge: arrays of objects (compared by reference), sections of the user that are neither objects, null nor absent (the source throws or extends an array), and keys found on the prototype are not modelled; nor is the sorting of keys on output, which does not change the value.
- ConfigUpdate: apart from `agents/`, a directory exists if a file is in it; a directory or a link where a file is expected is not modelled. The state file is kept apart from the other files, so a release that ships a file of that name is not modelled. Downloading, unpacking and the search for installations are not either.
- ConfigUpdate.ConfigDir.MergePersonalizations: the warnings are not modelled, only the counts and the files.
- BoomerangProtocol: the machine is sequential; data races on the unlocked state are not modelled. `IsStepComplete` and `CanWaiverStep`, which no modelled caller uses, are left out.
- BoomerangCycle: which other agents a rule forbids is copied; no outcome depends on it, because an agent other than the rule's own is invalid anyway (`ResolvedAgentIsValid`).
- BoomerangCycle: building the context package, the seed prompt and the execution plan, the trust adjustment and the improve phase are outcomes without effect on the protocol.
- TextChunker.ChunkText: requires overlap < size for a text longer than `size`; with a larger overlap the loop of the source does not terminate.
- GraphTraversal.Traverse: ids are compared as strings, so it states the result for ids in their canonical form; a start id in another spelling of the same UUID, which the database would match and the loop would not, is not modelled.
- EnvFile: keys with NUL characters (refused by the operating system) and the name `__proto__` are not modelled; neither is the path of the backup.
- EmbeddingMigration: an embedding is a function of the text; failures of the backup and selection statements, and rows inserted during a run, are not modelled.
- BrokerTransports: concurrency, the shared proxy's reader, tool lists, access checks, the audit log, and `ReloadServer` are not modelled; the environment of a configuration is reduced to its URL.
- Finite tables and easy members (port and host checks, command line flags, templates, model pickers, generated code) and the `init` flow, which repeats the merge logic.
