# A model of the memory bridges

The repository attaches long-term memories to a coding agent. This project models four of its parts and
proves what they promise, in Dafny:

- **The CURE store and its replay audit.** Rows live in two layers (repository-bound, and general with no
  project), supersede one another, and are written in atomic units over a connection whose every call may be
  refused. An independent audit re-derives each effect of an extraction from a snapshot and the result.
- **Recall.** A dirty-flag cache stands in front of a ranked search, a floor, a slice and a rank-then-fill loop
  under two character budgets.
- **The annotation protocol.** Searches, deliveries and generations are posted to a recorder that answers each
  post as it likes; the agent's call order decides what may be cited.
- **Three smaller algorithms.** mem0's audit of receipts against the store, TencentDB's chunked add and paginated
  query, and the run validator's duplicate check.

`dafny verify dfyconfig.toml` checks everything.

## How it is built

| files | what they hold |
|---|---|
| `wrappers.dfy` | the optional value |
| `cure_model.dfy`, `cure_upsert.dfy`, `cure_invariants.dfy` | rows, the SQL listing, the writer's effects, what they keep |
| `cure_extractor.dfy`, `cure_messages.dfy` | a model decision as deletions and candidates; the message log and its checkpoint |
| `cure_store.dfy`, `cure_system.dfy`, `cure_history.dfy` | the connection, the runtime, every history of requests |
| `cure_replay.dfy`, `cure_fallback.dfy`, `cure_generation.dfy` | the audit, the audit without a before snapshot, an extraction under the recorder |
| `recall_fill.dfy`, `cure_recall.dfy`, `cut_line.dfy` | rank-then-fill, the search, and a recall with a line below a cut one |
| `run_log.dfy`, `memory_backend.dfy`, `stale_cache.dfy` | a run as a log, the cache that keeps to it, and the run that stales it |
| `event_chunks.dfy`, `trace_protocol.dfy`, `trace_state.dfy` | chunking, the language of posts, the object that posts |
| `memory_agent.dfy` | the agent's loop and whole episodes |
| `mem0_audit.dfy`, `tencent_client.dfy`, `tencent_backend.dfy`, `run_validator.dfy` | the smaller algorithms |

The model's answer, the clock, the refused driver calls, the recorder's answers, the failing searches and
snapshots, and the sizes of events are arbitrary inputs. "The words of a target occur in a memory", "a text is
sensitive" and "a term occurs in a memory" are uninterpreted relations. A method that changes an object is proved
against a function of the old state; `CureHistory.History`, `AgentLoop.Episode` and `TencentBackend.Episode`
then quantify over whole runs.

## Findings

Five statements one would expect to hold do not hold of the code. Each is kept as the code has it, with the exact
condition under which it does hold and a run that shows the failure.

- A refused COMMIT in `atomic()` or `_write` leaves the transaction open, because the commit runs outside the
  `except` clause. "Nothing stays open" holds of a unit if and only if its COMMIT is not the refused call
  (`CureStore.UnitEndsOpenIff`), and of an extraction that starts with no open transaction if and only if the first
  refused call of its units is not the COMMIT of one of them (`CureSystem.CutEndsOpenIff`). One that starts with an
  open transaction is refused its first BEGIN and leaves that transaction open (`CureSystem.ExtractionCut`).
  `StaleCache.CutAtCommit` is an extraction that ends open.
- After such a COMMIT a clean recall cache can outlive the rows it shows: a record whose own statement is refused
  then rolls them back without marking the cache dirty. `StaleCache.RowIsRolledBack` is such a run. A record moves
  rows if and only if its statement is refused while an open transaction holds pending rows, and a coherent clean
  cache survives it if and only if that is not so or both tables recall the same
  (`RecallCache.MemoryBackend.Record`). Over whole runs: an episode returns the log of what reached the store and the
  cache, and a clean cache is a fresh recall of the rows at its last search. Those differ from the rows of now if and
  only if a record since then rolled rows back (`RunLog.RowsMovedIffLost`), which takes two refused calls and an
  extraction that ended with its transaction open (`RunLog.LosingTakesTwo`, `RunLog.LosingTakesAnOpenEnd`). So a
  clean cache is coherent if and only if there was no such record or both tables recall the same
  (`AgentLoop.SaneIsCoherent`).
- `memory_add` accepts the status "superseded", which breaks the lineage; an upsert keeps it if and only if the new
  row is not superseded (`CureInvariants.UpsertKeepsSound`, `CureInvariants.AddingSupersededBreaksLineage`).
- The recall docstring says that lines ranked below a line cut to fit get nothing. The `rstrip` in the cut can give
  characters back, and then they do (`CutLine.LineBelowACutIsDelivered`). They get nothing if and only if no
  non-empty one of them is exempt or fits the characters given back with its separator, and, where there is one, at
  most 40 were given back (`RecallFill.NothingBelowACutIff`). The budgets hold all the same.
- Without a before snapshot the audit matches a run's no-ops against the after snapshot, and can accuse an honest
  run (`CureFallback.FallbackAccusesHonestRun`). It does so if and only if some absorbed candidate would no longer
  be absorbed by the final table (`CureFallback.FallbackIsCleanIff`).

Where a search starts while the lane is off, the pending search is not cleared
(shared-bridge/src/shared_bridge/backend.py:1095-1097). Honest citation is therefore proved over the agent's call
order; the invariant that carries it is `RecallCache.MemoryBackend.Anchored`.

## Model

| member | source | states |
|---|---|---|
| CureModel.ListMemories | integration/cure_memory/src/cure_memory/store.py:191-217 | lists exactly the user's rows that pass the filters; a missing project filters nothing, a given one adds the general rows |
| CureModel.ListMemoriesIsOrdered | integration/cure_memory/src/cure_memory/store.py:214-216 | the listing is strictly by falling time, and of equal times by falling id |
| CureUpsert.UpsertRows | integration/cure_memory/src/cure_memory/system.py:223-270 | a stored candidate lists exactly the live rows of its slot, those rows and no others become superseded and point at it, and nothing else of them changes |
| CureUpsert.ActiveRows | integration/cure_memory/src/cure_memory/system.py:223-237 | a candidate is matched against exactly the live rows in its reach; a general one never reaches repository rows |
| CureUpsert.AbsorbedIff | integration/cure_memory/src/cure_memory/system.py:237-252 | a candidate is absorbed if and only if the newest live row in its reach has its value and its status |
| CureUpsert.DeleteBatchRows | integration/cure_memory/src/cure_memory/system.py:91-94 | the deletion batch marks exactly the selected rows and changes nothing else |
| CureUpsert.TwoRoundsSupersede | integration/cure_memory/src/cure_memory/system.py:260-269 | marking before the insert and pointing after it amounts to one superseding |
| CureUpsert.ReplaceRows | integration/cure_memory/src/cure_memory/system.py:164-185 | the replacement is approved, says the given text with the given confidence in the old row's slot and from its origin, and supersedes exactly that row, which points at it; no other row changes |
| CureInvariants.ChainEnd | integration/cure_memory/src/cure_memory/models.py:30-58 | in a sound table every supersedes chain ends in a row of the same slot that is not superseded, at a larger id |
| CureInvariants.SupersedingKeepsLineage | integration/cure_memory/src/cure_memory/system.py:223-270 | superseding keeps the lineage if and only if the new row is not itself superseded |
| CureInvariants.UpsertKeepsSound | integration/cure_memory/src/cure_memory/system.py:113-141 | an upsert keeps lineage and one live row per slot if and only if it does not store a superseded row |
| CureInvariants.ReplaceKeepsSound | integration/cure_memory/src/cure_memory/system.py:143-186 | a replacement keeps lineage and one live row per slot |
| CureInvariants.DeleteBatchKeepsSound | integration/cure_memory/src/cure_memory/system.py:88-94 | a deletion batch keeps lineage and one live row per slot |
| CureInvariants.ExtractKeepsSound | integration/cure_memory/src/cure_memory/system.py:88-103 | an extraction cut off after any number of units leaves a sound table |
| CureInvariants.ExtractTouches | integration/cure_memory/src/cure_memory/system.py:88-103 | an extraction changes only deleted rows and rows in its candidates' slots, and moves none |
| CureInvariants.AddingSupersededBreaksLineage | integration/cure_memory/src/cure_memory/system.py:122-133 | a concrete add that breaks the lineage |
| CureExtractor.MatchingMemories | integration/cure_memory/src/cure_memory/extractor.py:563-592 | a target selects exactly the live rows that mention it of the layer its scope addresses: the general rows on "user", this repository's otherwise |
| CureExtractor.SelectDeletions | integration/cure_memory/src/cure_memory/extractor.py:328-355 | the batch deletes exactly the rows some item matches, each once |
| CureExtractor.BuildCandidates | integration/cure_memory/src/cure_memory/extractor.py:357-377 | every candidate with a key and a value that is not sensitive, no other, in decision order |
| CureExtractor.MemoryFromCandidate | integration/cure_memory/src/cure_memory/extractor.py:379-437 | there is a memory iff key and value are not empty; it carries them, the item's type ("fact" when it gives none), confidence, flag and time and the gated status, belongs to the user of the message it names (or of the fallback message), and is general exactly when its scope is "user" or the session has no project |
| CureExtractor.ExtractDecision | integration/cure_memory/src/cure_memory/extractor.py:250-289 | errors exactly when the model was asked and failed, and then nothing is decided |
| CureExtractor.ReadableMessages | integration/cure_memory/src/cure_memory/extractor.py:258-270 | the model reads exactly the messages that are neither blank nor sensitive, in order |
| CureExtractor.DecisionIsConfined | integration/cure_memory/src/cure_memory/extractor.py:311-377 | whatever the decision, it selects and creates only rows of this user in this repository, or general ones when it names scope "user" |
| CureExtractor.ExtractionIsIsolated | integration/cure_memory/src/cure_memory/system.py:88-103 | a batch confined to a user's layer changes and adds rows only there, cut off anywhere |
| CureExtractor.DecisionIsIsolated | integration/cure_memory/src/cure_memory/extractor.py:337-355 | for every decision and every prefix of its units: no row disappears, and each row that changed or appeared is accounted for by an item of the decision, a deletion that matches it or an accepted candidate whose own type, key and scope name its slot; a general row in a repository session only by an item that itself names scope "user" |
| CureMessages.ListMessages | integration/cure_memory/src/cure_memory/store.py:155-162 | exactly the messages of the user and session past the checkpoint |
| CureMessages.ListingIsInOrder | integration/cure_memory/src/cure_memory/store.py:155-162 | the listing is in id order |
| CureMessages.BatchOfGrownLog | integration/cure_memory/src/cure_memory/store.py:155-162 | what lies below the checkpoint does not change when the log grows |
| CureMessages.CheckpointMoves | integration/cure_memory/src/cure_memory/system.py:98-102 | moving the checkpoint to the batch's largest id extends what was fed by exactly that batch |
| CureStore.SqliteStore.Write | integration/cure_memory/src/cure_memory/store.py:77-95 | inside a block a statement never commits; outside, it and its commit are two calls, and a refused commit stays pending |
| CureStore.SqliteStore.UpdateMemory | integration/cure_memory/src/cure_memory/store.py:176-189 | the row written carries the time read at the write, under both commit disciplines; a memory without an id is an error before any call |
| CureStore.SqliteStore.EnterAtomic | integration/cure_memory/src/cure_memory/store.py:97-113 | BEGIN succeeds if and only if it is not refused and no transaction is open; a nested block joins the outer one |
| CureStore.SqliteStore.AbortAtomic | integration/cure_memory/src/cure_memory/store.py:114-120 | an exception undoes the block and closes the transaction |
| CureStore.SqliteStore.CommitAtomic | integration/cure_memory/src/cure_memory/store.py:120-125 | a refused COMMIT rolls nothing back |
| CureStore.UnitEndsOpenIff | integration/cure_memory/src/cure_memory/store.py:97-125 | a unit commits iff no call of it is refused, and leaves a transaction open iff the refused call is its COMMIT |
| CureSystem.CureMemorySystem.StartSession | integration/cure_memory/src/cure_memory/system.py:41-54 | starts a checkpoint for a new (user, session) and keeps an existing one |
| CureSystem.CureMemorySystem.RecordMessage | integration/cure_memory/src/cure_memory/system.py:56-66 | a record succeeds iff there is a session and neither call is refused; it moves rows iff it rolls back rows left pending |
| CureSystem.CureMemorySystem.UpsertMemory | integration/cure_memory/src/cure_memory/system.py:223-270 | one candidate's unit commits the whole superseding or nothing, whichever call is refused |
| CureSystem.CureMemorySystem.MemoryAdd | integration/cure_memory/src/cure_memory/system.py:113-141 | an absorbed add changes nothing and returns the live row; any other is one unit |
| CureSystem.CureMemorySystem.MemoryReplace | integration/cure_memory/src/cure_memory/system.py:143-186 | replaces exactly a live row of the owner by a row with the given text and confidence, in one unit; otherwise not found and nothing changes |
| CureSystem.CureMemorySystem.FindLive | integration/cure_memory/src/cure_memory/system.py:150-163 | finds the row if and only if it is the user's and live |
| CureSystem.CureMemorySystem.DeleteRow | integration/cure_memory/src/cure_memory_bridge/endpoint.py:117-130 | marks exactly one live row of the owner deleted, if and only if neither of its two calls is refused; otherwise not found and nothing changes |
| CureSystem.CureMemorySystem.DeletionUnit | integration/cure_memory/src/cure_memory/system.py:88-94 | all deletions of an extraction commit together or not at all |
| CureSystem.CureMemorySystem.ExtractRuntimeMemories | integration/cure_memory/src/cure_memory/system.py:68-103 | what is written is the decision on the pending batch; success means no call was refused, commits all of it and feeds exactly that batch; a failure means the last call made was the first refused one, and that call fixes the prefix of units that is committed, while the checkpoint stays; a failed model call changes nothing |
| CureSystem.DoneIff | integration/cure_memory/src/cure_memory/system.py:88-103 | an extraction succeeds if and only if none of its units' calls is refused |
| CureSystem.CutEndsOpenIff | integration/cure_memory/src/cure_memory/store.py:97-125 | an extraction leaves a transaction open if and only if the first refused call is the COMMIT of one of its units |
| CureHistory.History | integration/cure_memory/src/cure_memory/system.py:41-186 | after any requests, clock and refusals on a sound database: lineage and one live row per slot of what is committed, and each checkpoint's batches are exactly its messages |
| CureReplay.FirstActiveRow | integration/cure_memory/src/cure_memory_bridge/backend.py:603-619 | the newest eligible row of the view, and none iff there is none |
| CureReplay.FirstActiveAgrees | integration/cure_memory/src/cure_memory_bridge/backend.py:603-619 | on a view that mirrors the table it is the row the writer matches |
| CureReplay.AuditDrift | integration/cure_memory/src/cure_memory_bridge/backend.py:621-636 | no drift if and only if view and snapshot agree on ids, status and successor |
| CureReplay.CandidateReplayed | integration/cure_memory/src/cure_memory_bridge/backend.py:556-582 | replaying one candidate records the writer's change and row, and the view keeps mirroring the table |
| CureReplay.ReplayRefinesWriter | integration/cure_memory/src/cure_memory_bridge/backend.py:544-586 | for every decision batch the replay explains everything, emits one change per deleted row and one per candidate, exactly the writer's, and reports drift iff the after snapshot disagrees with the written table |
| CureReplay.WrittenChangesShow | integration/cure_memory/src/cure_memory_bridge/backend.py:544-586 | those changes say what moved in the table: one delete per deleted row, and per candidate a no-op iff nothing moved, a creation iff one row was only added, an update of exactly the rows that became superseded, with the successor, otherwise |
| CureReplay.Classify | integration/cure_memory/src/cure_memory_bridge/backend.py:518-586 | the audit as it runs computes that replay and is clean iff the replay is and the snapshot agrees |
| CureReplay.LookUpSuperseded | integration/cure_memory/src/cure_memory_bridge/backend.py:559-566 | each superseded id is either found in the view or noted, and none is noted that is in it |
| CureReplay.DeletionsExplainedIff | integration/cure_memory/src/cure_memory_bridge/backend.py:547-553 | replayed deletions leave no note iff every deleted row is in the snapshot |
| CureReplay.AttributeNoop | integration/cure_memory/src/cure_memory_bridge/backend.py:588-601 | a candidate without an id is explained by the first active row or reported |
| CureFallback.NoopExplainedIff | integration/cure_memory/src/cure_memory_bridge/backend.py:588-619 | a snapshot explains a no-op iff its table would absorb the candidate |
| CureFallback.FallbackIsCleanIff | integration/cure_memory/src/cure_memory_bridge/backend.py:528-543 | without a before snapshot an honest run audits clean iff every absorbed candidate is still absorbed by the final table |
| CureFallback.FallbackAccusesHonestRun | integration/cure_memory/src/cure_memory_bridge/backend.py:528-543 | an honest run of two candidates that the fallback accuses |
| CureGeneration.DiffChanges | integration/cure_memory/src/cure_memory_bridge/backend.py:638-668 | exactly one change per observed transition, and none iff no row appeared and no status moved |
| CureGeneration.Attribute | integration/cure_memory/src/cure_memory_bridge/backend.py:518-586 | a finished extraction reports exactly what it wrote; a failed one reports the transitions between the snapshots, which are exactly the effects of its committed units and of one left pending |
| CureGeneration.PrefixIsReported | integration/cure_memory/src/cure_memory_bridge/backend.py:638-668 | of an extraction cut short, a change is reported if and only if it is a deletion of its batch, a visible row superseded by one of its candidates together with the successor, or a row stored that is no reported row's successor |
| CureGeneration.CutIsReported | integration/cure_memory/src/cure_memory_bridge/backend.py:638-668 | for every way an extraction may be cut, the snapshots show the prefix whose units the connection reads: the committed ones, and one more when its COMMIT was refused |
| CureGeneration.TracedExtraction | integration/cure_memory/src/cure_memory_bridge/backend.py:434-498 | the posts are those of one generation; a success with a before snapshot reports exactly what the store wrote, with nothing unexplained; a failure with both snapshots reports exactly the units in the table; only success moves the checkpoint |
| EventChunks.ChunkEvents | shared-bridge/src/shared_bridge/backend.py:127-152 | the chunks concatenate to the events, obey both caps and are cut only by need |
| EventChunks.ChunkAt | shared-bridge/src/shared_bridge/backend.py:119-152 | every chunk but a lone oversize event serializes within the recorder's body cap |
| EventChunks.BodyTextSize | shared-bridge/src/shared_bridge/backend.py:119-152 | the size computed from the events' sizes is the length of the body as it is written |
| RecallFill.FillLines | shared-bridge/src/shared_bridge/backend.py:900-951 | the loop over the body text computes the walk; the body is its lines joined; what becomes of every line is said by the lines and budgets alone |
| RecallFill.FillShows | shared-bridge/src/shared_bridge/backend.py:900-951 | each placed text is its line, exempt whole or else capped, unless the line did not fit what the ones before it left of the total: then it is a right-stripped prefix and the marker if at least 40 characters were left, and only with fewer left is a non-empty line skipped |
| RecallFill.FittingLinesArrive | shared-bridge/src/shared_bridge/backend.py:933-951 | when the capped lines with their separators fit the total, every non-empty line arrives, capped and in order |
| RecallFill.JoinSplits | shared-bridge/src/shared_bridge/backend.py:943-951 | the placed lines can be read off the body again |
| RecallFill.FillDelivers | shared-bridge/src/shared_bridge/backend.py:900-951 | delivered lines are an ordered, aligned selection; exempt lines all arrive whole; the others respect both budgets, separators counted; a usable budget delivers something |
| RecallFill.NoTotalDeliversAll | shared-bridge/src/shared_bridge/backend.py:934-951 | without a total budget every line arrives, cut only by its own cap |
| RecallFill.NothingBelowACutIff | shared-bridge/src/shared_bridge/backend.py:829-833 | lines below a cut line get nothing if and only if none of them takes the characters the cut gave back |
| CutLine.LineBelowACutIsDelivered | shared-bridge/src/shared_bridge/backend.py:943-951 | a sound table of two rows whose recall delivers the second below the first, which was cut |
| CureRecall.RankedIsStable | integration/cure_memory/src/cure_memory/system.py:204-212 | hits come by falling score, and ties keep the listing's order |
| CureRecall.MemorySearch | integration/cure_memory/src/cure_memory/system.py:188-218 | the hits are exactly the approved rows the user sees that match some position of the query, each scored by how many it matches, by falling number, then time, then id |
| CureRecall.ScoreCounts | integration/cure_memory/src/cure_memory/system.py:204-206 | a score is the number of query positions whose term occurs in the row |
| CureRecall.SelectedIsTop | shared-bridge/src/shared_bridge/backend.py:887-890 | floor and slice keep the best hits: the ranking up to the maximum or to the first hit under the floor |
| CureRecall.RenderRecall | shared-bridge/src/shared_bridge/backend.py:884-966 | floor, slice, fill and header together give the fresh recall of the rows and query |
| CureRecall.FittingRecallShowsAll | shared-bridge/src/shared_bridge/backend.py:884-966 | when the lines of the selected hits fit, recall serves all of them, best first, and below the header the block reads as exactly their lines |
| CureRecall.RecallIsEntitled | integration/cure_memory/src/cure_memory_bridge/backend.py:753-786 | every recalled memory is an approved row visible to the user in the project, matches the query and clears the floor; at most the maximum, each with its own origin |
| CureRecall.RenderingShows | integration/cure_memory/src/cure_memory_bridge/backend.py:801-809 | two rows of one type and key render alike iff they agree on layer, flag and value |
| CureRecall.OriginNamesItsInstance | shared-bridge/src/shared_bridge/backend.py:1040-1052 | the line of a row from another session names that session's instance, whatever the instance is called |
| CureRecall.OtherOriginsNameNone | shared-bridge/src/shared_bridge/backend.py:1040-1052 | an origin that is not an instance, a dash and 32 hex digits names no instance, and no origin leaves no suffix |
| RunLog.RowsMovedIffLost | integration/cure_memory/src/cure_memory/store.py:77-95 | in every possible run, the rows at a clean cache's last search differ from those of now if and only if a record since that search rolled back pending rows |
| RunLog.LosingTakesTwo | integration/cure_memory/src/cure_memory/store.py:77-125 | a run in which a record does so has at least two refused calls |
| RunLog.LosingTakesAnOpenEnd | integration/cure_memory/src/cure_memory/store.py:97-125 | and one of its extractions ended with a transaction open; otherwise what the connection reads is what is committed |
| RunLog.SearchesArePaid | shared-bridge/src/shared_bridge/backend.py:808-816 | the searches of a run are at most its queries and counted extractions, and one fewer while the cache is dirty |
| RecallCache.MemoryBackend.SetTask | shared-bridge/src/shared_bridge/backend.py:445-496 | drops the cache, arms the query and opens the trace session |
| RecallCache.MemoryBackend.Record | shared-bridge/src/shared_bridge/backend.py:501-542 | records iff live and not refused; moves rows iff its statement is refused over pending rows in an open transaction; a coherent clean cache survives iff it does not or both tables recall the same |
| RecallCache.MemoryBackend.Extract | shared-bridge/src/shared_bridge/backend.py:609-646 | a tick that is not ready touches nothing; a counted one, failed or not, marks the cache dirty, is logged as an extraction of the pending messages, and posts one generation if the lane is on |
| RecallCache.MemoryBackend.Rewrite | shared-bridge/src/shared_bridge/backend.py:731-767 | a success replaces the query and marks dirty; a failure leaves both |
| RecallCache.MemoryBackend.Finalize | shared-bridge/src/shared_bridge/backend.py:1813-1830 | one final flush, and dormant afterwards |
| RecallCache.MemoryBackend.RecallContext | shared-bridge/src/shared_bridge/backend.py:805-986 | serves what a search of the rows at the last search gives, which is what a search now would give unless rows were rolled back; searches, and posts that search, exactly when the cache is dirty and the query not blank; a failed search keeps the flag; its delivery may be cited |
| RecallCache.MemoryBackend.Memoize | shared-bridge/src/shared_bridge/backend.py:1121-1149 | the anchor memoized with a payload is its own recorded search or none |
| StaleCache.RowIsRolledBack | integration/cure_memory/src/cure_memory/store.py:71-125 | a run of a task, a record, an extraction, a recall and a record after which the clean cache shows a row that is in no table, and whose log has lost rows |
| TraceProtocol.KeptThen | shared-bridge/src/shared_bridge/backend.py:1090-1192 | one more segment keeps the protocol, the shut lanes and the honesty of deliveries |
| TraceProtocol.StartsAreUnique | shared-bridge/src/shared_bridge/backend.py:1098-1117 | an operation starts at most once |
| TraceProtocol.CitationsAreUnambiguous | shared-bridge/src/shared_bridge/backend.py:1678-1709 | a cited search determines the memories it returned |
| TraceProtocol.ShutForGood | shared-bridge/src/shared_bridge/backend.py:1439-1443 | in one session nothing at all is posted to the memory lane once it is shut |
| TraceProtocol.GenerationReads | shared-bridge/src/shared_bridge/backend.py:1557-1629 | a generation that is not refused reads as its start, the changes in order with index, number and the start's cursor, and one end; or it stops at the first chunk rejected with a status under 500, having posted a prefix of that |
| TraceWiring.TraceState.OpenSession | shared-bridge/src/shared_bridge/backend.py:462-496 | the session opens iff both lanes accept, else the trace is dropped |
| TraceWiring.TraceState.StartOperation | shared-bridge/src/shared_bridge/backend.py:1412-1461 | the operation binds at the returned cursor; 413 and 409 disable it and 409 shuts the lane |
| TraceWiring.TraceState.RecallSearch | shared-bridge/src/shared_bridge/backend.py:1090-1119 | with the lane off nothing happens, not even to the pending search; else it is cleared and a search begins |
| TraceWiring.TraceState.RecallRendered | shared-bridge/src/shared_bridge/backend.py:1121-1192 | posts one end unless the start was refused, and arms the anchor iff both posts were accepted and something is returned |
| TraceWiring.TraceState.MainLaneCursor | shared-bridge/src/shared_bridge/backend.py:1634-1650 | reads the main lane iff delivery is on, and the cursor is the accepted answer's or none |
| TraceWiring.TraceState.DeliverRecall | shared-bridge/src/shared_bridge/backend.py:1667-1767 | posts at most the one delivery, of the anchor or the pending search, and stops deliveries when it is not accepted |
| TraceWiring.TraceState.GenerationBegin | shared-bridge/src/shared_bridge/backend.py:1354-1410 | begins a generation iff the lane is on |
| TraceWiring.TraceState.PostGeneration | shared-bridge/src/shared_bridge/backend.py:1557-1604 | after its start come changes 0 to n-1 with count n, in chunks, then one end with count n, all bound at the start's cursor; a definitive rejection ends the series without an end |
| TraceWiring.Abandon | shared-bridge/src/shared_bridge/backend.py:1606-1629 | an abandoned generation shuts the memory lane |
| AgentLoop.RemoveMarker | shared-bridge/src/shared_bridge/agent.py:149-154 | removing the block from the end leaves every other message, in order |
| AgentLoop.MemoryAgent.AfterCall | shared-bridge/src/shared_bridge/agent.py:157-202 | delivers exactly when the search can be cited at a cursor and the call returned or is seen on the lane |
| AgentLoop.MemoryAgent.Inject | shared-bridge/src/shared_bridge/agent.py:118-202 | the cursor is read before the call, the block never persists, and a clean call leaves no search pending |
| AgentLoop.MemoryAgent.Query | shared-bridge/src/shared_bridge/agent.py:104-202 | searches exactly when the query is not blank and the cache not clean; the model sees the trajectory and the block of what the cache then serves; the posts are those of the search and those around the block; what is said is recorded |
| AgentLoop.MemoryAgent.Step | shared-bridge/src/shared_bridge/agent.py:93-102 | adds exactly the messages of the call and, after a clean call, of the observations; both ticks are attempted after a clean step and after no other, and logged as they come; the posts are those of the query, and of a generation if an extraction is counted |
| AgentLoop.Episode | shared-bridge/src/shared_bridge/agent.py:53-208 | for every script, model answer, clock, refusal and recorder: the posts follow the protocol in one session, shut lanes stay shut for good, every delivery cites a search recorded before it with exactly its memories; the log is that of the script, move by move; the store is what the log made of it, the cache is clean iff nothing but records followed its last search, and then is a fresh recall of the rows at that search; searches are paid for by task, extractions and rewrites |
| AgentLoop.SaneIsCoherent | shared-bridge/src/shared_bridge/backend.py:865-871 | in such a state a clean cache is coherent if and only if no record since its search rolled rows back or the rows before and after recall the same; always when at most one driver call was refused, and when no extraction ended with its transaction open |
| Mem0Audit.CollectClaims | integration/mem0/src/mem0_bridge/backend.py:333-369 | the claim table holds exactly the receipts' claims |
| Mem0Audit.AuditAgainstState | integration/mem0/src/mem0_bridge/backend.py:372-398 | no drift iff every observed difference has its receipt and every claim its net effect |
| Mem0Audit.CleanMeans | integration/mem0/src/mem0_bridge/backend.py:372-398 | a clean audit says exactly that the ids moved as claimed and that every text that differs, an empty one counting as none, was claimed as updated |
| Mem0Audit.HonestIsClean | integration/mem0/src/mem0_bridge/backend.py:331-398 | any batch of an honest engine audits clean |
| TencentClient.AtomicQuery | integration/tencentdb/src/tencentdb_bridge/client.py:308-356 | at most `page_limit` requests of any server; from an honest one the list in order, whole when it fits |
| TencentBackend.TencentDBBackend.ConversationAdd | integration/tencentdb/src/tencentdb_bridge/client.py:234-272 | succeeds iff none of its chunks' calls fails; on a failure the confirmed messages are exactly the chunks before the failed call, and their number is reported |
| TencentBackend.TencentDBBackend.SendPending | integration/tencentdb/src/tencentdb_bridge/backend.py:666-689 | fails iff a chunk's call fails, and then keeps exactly the unconfirmed tail |
| TencentBackend.FirstSightings | integration/tencentdb/src/tencentdb_bridge/backend.py:815-827 | produces each (id, version) not counted before, once |
| TencentBackend.KeysOfMeans | integration/tencentdb/src/tencentdb_bridge/backend.py:815-827 | the counted keys are the ids with their versions, 0 for a row without one; rows without an id have none |
| TencentBackend.TencentDBBackend.PerformExtraction | integration/tencentdb/src/tencentdb_bridge/backend.py:753-831 | a tick counts its answer's rows iff there is something to do, no call of its add fails, it drains and it is answered |
| TencentBackend.Episode | integration/tencentdb/src/tencentdb_bridge/backend.py:666-831 | over any run of stores, ticks and failures: confirmed messages followed by the buffer are the stored ones in order, the failed calls decide how many are confirmed and which ticks resolve, and the counters total the distinct row versions of the ticks that did, those below version 1 as added and the others as updated |
| RunValidator.RedundantIffLive | utils/validate_run.py:103-119 | a recording is redundant iff its key is still live |
| RunValidator.FindDuplicates | utils/validate_run.py:103-119 | the one-pass check finds exactly the recordings repeated without a retraction or rewrite between them |

## Left out

- Transports and formats: HTTP, SQLite's own locking, JSON text, digests, artifacts and sidecars; each is its answer or an equality.
- The annotator's retries and circuit breaker: a post it skips counts here as a post without an answer.
- Hooks and adapters that raise inside tracing: the model's tracing never raises, so the containment around it has nothing to contain.
- Strict mode, startup failures, the schedules and breakers of the ticks: a tick or rewrite may happen after any clean step.
- Two names for one object: memories and row views are values here, and each writer returns the objects it changed.
- The endpoint's add and update, which are sequences of the requests of `CureHistory.History`, and its request validation.
- Message metadata, evidence, confidence clamping and scope labels of rows.
- The inputs listed in a generation's start, and its degraded form when they are oversize.
- The order in which the audit and the exception diff visit row ids, which is left arbitrary.
- Bookkeeping counters, log events and the placement index and hash of a delivery.
- mem0's and TencentDB's own searches, and recall over them: only lines, budgets and exemption are modelled for those.
- The generic snapshot diff of the shared bridge beyond what the mem0 audit observes.
- TencentBackend.TencentDBBackend.PerformExtraction: failures other than the gateway's own error type keep the whole buffer there, and are not modelled; the final and the periodic drain are one flag.
- CureExtractor.MatchingMemories: the word match of a target in a memory is an uninterpreted relation.
- AgentLoop.Episode: one task is set, as the agent does; the rest of the agent framework is its outcome per call.
