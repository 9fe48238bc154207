# Reading companion model

A Dafny model of the parts of a spoiler-safe reading companion that have to be right for its promises to
hold, with proofs of those promises. A book is ingested chapter by chapter into a memory of facts stamped
with story time; a reader at a bookmark sees only what the chapters read so far reveal; questions are
answered from exact passages with audited citations; and background work, caches and locks keep paid calls
from being made twice.

The modules follow the program's components.

| component | modules |
|---|---|
| story memory and its bookmark view | `StoryMemory`, `BookmarkView`, `MemoryDatabase`, `StoryTime`, `StoreInvariants`, `ReadOrder`, `Retraction` |
| ingestion | `Resolution`, `Ingestion`, `IngestionTheorems`, `NameTable`, `IngestRows`, `IngestContents`, `KnownNames`, `Pipeline` |
| reading frontier | `Frontier` |
| single-flight recaps | `Flight`, `RecapRegistry`, `SinglePayment` |
| per-book request gate | `BookGate` |
| background preparation | `Prewarmer`, `PrewarmerObject`, `PlanPipeline`, `DiverseOrder` |
| reviewed answers | `AnswerBank`, `BankRuns`, `AnswerSharing` |
| passages and slices | `Passages`, `EvidenceText`, `Batching` |
| retrieval and context | `AskRetrieval`, `AskContext`, `ContextWorklist` |
| citation audits | `EvidenceAudit`, `AuditSplit`, `CitationReview` |

`Wrappers`, `OrderedDict`, `Sequences`, `Counting` and `Text` hold what several of them share.

Objects that the program updates in place are classes here (`MemoryDB`, `Registry`, `RecapPrewarmer`, `Bank`,
`Completion`, `WindowHeaps`), loops are loops, and each is proved against a function or predicate about which
the theorems are stated. The concurrent protocols are transition systems over any number of threads or
requests, with one atomic step for the code between two awaits or inside one gated block, and their theorems
quantify over every sequence of enabled steps.

Provider output, embeddings, hashes, clocks and Unicode classification are parameters: a theorem holds for
whatever they return. `dafny verify dfyconfig.toml` checks the whole project.

Where the code and its own documentation differ, the model follows the code:

- `relationships` selects `invalid_at`, so the later end of a tie is visible to a reader who has met the tie,
  whether the tie is ended or replaced, although the view is described as never depending on later chapters.
  `StoryTime.EndedEdgeUnseen` gives the exact condition for one write and `StoryTime.LaterWritesInvisible` for
  any sequence of writes; the ingestion run never ends a tie, so `IngestionTheorems.NonInterference` holds in full.
- `reextract_summary` is described as showing current reads only the new row. It commits twice, and in between
  the chapter has no current summary of that kind (`Retraction.ReextractedIsCurrent`).
- `retract_chapter` is described as cascading to all rows derived from the chapter, so that no orphaned chunk,
  summary or raw text survives. Those are gone, but entities, ties, events and states extracted from the chapter
  stay, and the key can never be used again (`Retraction.RetractedChapterIsGone`, `Retraction.RetractedKeyIsTaken`).
- Context completion describes missing names as covered greedily. A name can stay missing with room to spare when
  its bearers repeat evidence already selected: the opening of a chapter loses the title from its name text, a
  later copy of the same words does not (`AskContext.TitleTwinHidesName`). `AskContext.AlwaysCoveredExactly` and
  `AskContext.SolidExactly` say exactly which names no selection can miss. The program's own producers hand over
  no such twins: question retrieval keeps one excerpt for the same words of a chapter, so there every needed name
  is covered (`ContextWorklist.RetrievedNamesAreCovered`), and recap proof keys its candidates by their evidence
  (backend/app/recap_grounding.py:186-197). Twins can arise only in a pool that another caller supplies.

## Model

| member | source | states |
|---|---|---|
| `MemoryDatabase.MemoryDB.AddChapter` | spikes/lit-5-schema/dal.py:159-182 | A chapter write is refused, skipped, restamped in place or inserted exactly as the delta-skip, the primary key and the ordinal index decide; a refusal leaves every table as it was |
| `MemoryDatabase.MemoryDB.AddRaw` | spikes/lit-5-schema/dal.py:184-187 | One raw text per chapter key, of a chapter that exists, added as the last row under the id returned; otherwise the error and no change |
| `MemoryDatabase.MemoryDB.AddSummary` | spikes/lit-5-schema/dal.py:189-194 | A summary of an existing chapter is added as the last row, stamped with its ordinal, under the id returned |
| `MemoryDatabase.MemoryDB.AddEntity` | spikes/lit-5-schema/dal.py:196-199 | An entity gets the next id and its ordinal; nothing else moves |
| `MemoryDatabase.MemoryDB.AddAlias` | spikes/lit-5-schema/dal.py:201-204 | An alias of an existing entity is added as the last row under the id returned; otherwise the error and no change |
| `MemoryDatabase.MemoryDB.AddEdge` | spikes/lit-5-schema/dal.py:206-211 | A tie between existing entities with a non-empty window is added as the last row under the id returned; otherwise the error and no change |
| `MemoryDatabase.MemoryDB.ReplaceEdge` | spikes/lit-5-schema/dal.py:213-231 | In one transaction the old tie closes at `at` and the new one, between the same entities, opens there under the id returned, every other tie as before; or nothing changes |
| `MemoryDatabase.MemoryDB.EndEdge` | spikes/lit-5-schema/dal.py:233-237 | Closes a tie's window; an unknown id is no error; an empty window is refused |
| `MemoryDatabase.MemoryDB.AddEvent` | spikes/lit-5-schema/dal.py:239-248 | An event is added as the last row, stamped and open, under the id returned, or refused |
| `MemoryDatabase.MemoryDB.AddLink` | spikes/lit-5-schema/dal.py:245-248 | One participant link of an existing event and entity, never twice |
| `MemoryDatabase.MemoryDB.EndEvent` | spikes/lit-5-schema/dal.py:250-256 | Closes an event's window or refuses an empty one |
| `MemoryDatabase.MemoryDB.AddTheme` | spikes/lit-5-schema/dal.py:258-261 | A theme is added, stamped with its ordinal |
| `MemoryDatabase.MemoryDB.AddState` | spikes/lit-5-schema/dal.py:263-267 | A state of an existing entity with a non-empty window is added as the last row under the id returned, or refused |
| `MemoryDatabase.MemoryDB.ReplaceState` | spikes/lit-5-schema/dal.py:269-284 | In one transaction the old state closes at `at` and the new one of the same entity opens there under the id returned, every other state as before; or nothing changes |
| `MemoryDatabase.MemoryDB.AddChunk` | spikes/lit-5-schema/dal.py:286-304 | The pin is checked before the foreign key: a pinned book accepts a vector only of its model and dimension and stamps it; the row is the last, under the id returned; otherwise the error and no change |
| `MemoryDatabase.MemoryDB.RemoveChapter` | spikes/lit-5-schema/dal.py:389-393 | The chapter's four keyed tables are retracted, and no other table changes |
| `MemoryDatabase.MemoryDB.ReextractSummary` | spikes/lit-5-schema/dal.py:361-369 | After a first transaction that takes the old summaries of that chapter and kind back, a second adds the new one under the id returned, or refuses it and leaves the chapter without |
| `StoryTime.LaterWritesInvisible` | spikes/lit-5-schema/dal.py:121-144 | For every store and every sequence of writes stamped after a bookmark that reopen nothing closed by then and restamp no chapter: every read at the bookmark answers as before, and `relationships`, with the ends it selects, does exactly when no tie it shows gets another end |
| `StoryTime.ExtensionSameView` | spikes/lit-5-schema/dal.py:406-573 | Two stores that agree up to a bookmark give every read the same answer there, referential-closure semijoins included; the ends that `relationships` selects are the same exactly when the ties shown have the same ends |
| `StoryTime.EndedEdgeUnseen` | spikes/lit-5-schema/dal.py:213-237 | Ending or replacing a tie later leaves `relationships` at b unchanged if and only if the reader has not met the tie at b or it already carried that end |
| `StoryTime.SelectMembers` | spikes/lit-5-schema/dal.py:121-144 | The read funnel returns exactly the rows that pass the spoiler clause and the read's own condition |
| `StoryTime.EdgeHitMembers` | spikes/lit-5-schema/dal.py:449-456 | Which ties a read shows, in whatever order: those that are revealed, live, open and have both ends visible, and no others; their order is `ReadOrder.RelationshipsRead` |
| `ReadOrder.OrderBySorts` | spikes/lit-5-schema/dal.py:121-144 | Ordering by any strict weak order: no element stands behind one it comes before, every element is there once, and ties keep the order in which they were read |
| `ReadOrder.TextBeforeMeans` | spikes/lit-5-schema/dal.py:431-433 | Text keys are compared as a dictionary does: by the first character in which they differ, a prefix first |
| `ReadOrder.ReadLists` | spikes/lit-5-schema/dal.py:121-144 | Every read through the funnel lists exactly the seen rows that meet its condition, once each, none behind a row it comes before |
| `ReadOrder.ChaptersRead` | spikes/lit-5-schema/dal.py:431-433 | The chapters that may be seen, by ordinal and then by key |
| `ReadOrder.EntitiesRead` | spikes/lit-5-schema/dal.py:435-441 | The entities of a type that may be seen, by chapter and then by id |
| `ReadOrder.AliasesRead` | spikes/lit-5-schema/dal.py:443-447 | The aliases of an entity that may itself be seen, by chapter and then by id |
| `ReadOrder.RelationshipsRead` | spikes/lit-5-schema/dal.py:449-456 | The ties between two entities that may be seen, by chapter and then by id, each with its own end |
| `ReadOrder.TimelineRead` | spikes/lit-5-schema/dal.py:458-460 | The events that may be seen, by chapter, then by their place in it, then by id |
| `ReadOrder.ParticipantsRead` | spikes/lit-5-schema/dal.py:462-475 | The entities of an event's cast that may be seen while the event may, by chapter and then by id |
| `ReadOrder.EventsRead` | spikes/lit-5-schema/dal.py:477-486 | The events with a visible entity in the cast, by chapter and then by id |
| `ReadOrder.ThemesRead` | spikes/lit-5-schema/dal.py:488-490 | The themes that may be seen, by chapter and then by id |
| `ReadOrder.CurrentStateRead` | spikes/lit-5-schema/dal.py:492-499 | The newest of a visible entity's states that are valid, the later id among those of one chapter; nothing exactly when there is none |
| `ReadOrder.SummariesRead` | spikes/lit-5-schema/dal.py:501-505 | The chapter summaries of live chapters, by chapter and then by id |
| `ReadOrder.RawRead` | spikes/lit-5-schema/dal.py:507-516 | The text that was stored first for a live chapter, or nothing exactly when there is none |
| `ReadOrder.BioRead` | spikes/lit-5-schema/dal.py:518-532 | A biography exactly when the entity may be seen: its own columns, its aliases and events in the order of their reads, and its current state |
| `ReadOrder.CatchMeUpRead` | spikes/lit-5-schema/dal.py:535-544 | The newest rolling recap and the numbers of characters and ties that may be seen |
| `ReadOrder.SearchReturnsClosest` | spikes/lit-5-schema/dal.py:547-573 | A search returns the k closest of the chunks it may compare, or all when there are fewer, in non-increasing similarity and later keys first among equals; no chunk left out is closer than one returned |
| `StoreInvariants.FittingWrite` | spikes/lit-5-schema/dal.py:159-304 | Every write an ingestion makes keeps stamps, references and state windows sound and is invisible before its chapter |
| `StoreInvariants.CurrentStateIsTheState` | spikes/lit-5-schema/dal.py:492-499 | `current_state` is the one valid state of a visible entity, and nothing when none is valid |
| `Retraction.RetractedChapterIsGone` | spikes/lit-5-schema/dal.py:389-393 | After a retraction, at every bookmark: chapter list, texts, current summaries and rolling recaps, and search rankings lose exactly what belongs to the chapter; catching up counts the same people and ties and tells the newest recap left; every read of people, ties, events, themes and states is unchanged |
| `Retraction.RetractedKeyIsTaken` | spikes/lit-5-schema/dal.py:159-182 | A retracted chapter cannot be ingested again: the key is still the primary key, so the run raises and stores nothing |
| `Retraction.ReextractedIsCurrent` | spikes/lit-5-schema/dal.py:361-369 | A re-extraction of either kind: between its two transactions the chapter has no current summary of that kind at any bookmark, afterwards exactly the new one where it is visible, and other chapters keep theirs throughout |
| `Resolution.ResolveChapter` | spikes/lit-6-extraction/resolve.py:120-131 | Each mention is decided against the given roster and the creations before it, in that order: by the first entry of the earliest layer that has one, otherwise by the embedder's pick of the same-typed entries in roster order, otherwise as a new entity |
| `Resolution.EarliestLayerDecides` | spikes/lit-6-extraction/resolve.py:70-117 | A merge goes to the first entry of the earliest layer that has one, and there is one unless no layer has any: a same-typed entry of the same name-like name, linked or not; the one entry of the whole roster with all of a linked mention's two or more name tokens; a same-typed entry that shares a name-like form |
| `Resolution.DecidedOnce` | spikes/lit-6-extraction/resolve.py:70-117 | There is only one decision of which this is true |
| `Resolution.CreatedExactly` | spikes/lit-6-extraction/resolve.py:90-117 | Without an embedder an entity is created if and only if no same-typed entry shares a name-like form with the mention and the mention is not linked to one entry that alone has all of its name tokens |
| `Resolution.NothingKnownIsCreated` | spikes/lit-6-extraction/resolve.py:120-131 | In a chapter no created mention shares a name-like form with a same-typed entry of the roster or with one created earlier in the chapter |
| `Resolution.MergesReferBack` | spikes/lit-6-extraction/resolve.py:120-131 | Every merge names an entity of the given roster or a creation at an earlier index of the same chapter, so the pending-id lookup never fails |
| `Resolution.MergeEvidence` | spikes/lit-6-extraction/resolve.py:70-117 | Roster-link, exact and alias merges share a name-like form with an entry of the same type; a fuzzy merge has at least two name tokens, all of them in one entry's name only |
| `Resolution.EpithetsNeverMerge` | spikes/lit-6-extraction/resolve.py:53-67 | A mention known only by role epithets is never merged without an embedding backend |
| `Pipeline.IngestChapter` | spikes/lit-6-extraction/pipeline.py:38-134 | On every store whose rows refer to existing rows the outcome, report and rows are those of the ingestion function; a chapter whose turn has come leaves every table with exactly the rows that `IngestContents.ChapterSays` lists |
| `Pipeline.StoreMentions` | spikes/lit-6-extraction/pipeline.py:72-105 | The merge-or-create loop updates the store, the name table and the pending ids mention by mention; on a sound store it adds exactly the entities and aliases that `IngestRows.MentionsAreStored` lists |
| `Pipeline.StoreState` | spikes/lit-6-extraction/pipeline.py:84-90 | A merge advances the state timeline only when the current state is from an earlier chapter or there is none |
| `Pipeline.StoreRelations` | spikes/lit-6-extraction/pipeline.py:107-114 | Relations are stored or counted as unresolved, one for one |
| `Pipeline.ResolveCast` | spikes/lit-6-extraction/pipeline.py:117-124 | The participants of an event are collected once each, and unresolved ones counted |
| `IngestionTheorems.NonInterference` | spikes/lit-6-extraction/pipeline.py:38-134 | For every in-order run, every read at bookmark b answers the same after the whole run as after only the chapters with ordinal at most b |
| `IngestionTheorems.StateTimeline` | spikes/lit-6-extraction/pipeline.py:75-98 | At every bookmark an entity has at most one valid state, from its first state on exactly one, and it is the one `current_state` returns; no window is empty |
| `IngestionTheorems.ClosureHidesNothing` | spikes/lit-6-extraction/pipeline.py:62-125 | In a store built by an in-order run the referential-closure filters remove no row at any bookmark |
| `IngestionTheorems.TargetIsEntity` | spikes/lit-6-extraction/pipeline.py:76-79 | A merge always resolves to an entity that exists when the row is written |
| `IngestionTheorems.IngestConserves` | spikes/lit-6-extraction/pipeline.py:72-134 | Merges and creations add up to the mentions, new entities to the creations, ties and unresolved references to the relations, and events to the events extracted |
| `IngestionTheorems.RunBuilds` | spikes/lit-6-extraction/pipeline.py:38-134 | An in-order run keeps every store invariant, and only a mismatch with the pinned embedding model can stop it |
| `IngestionTheorems.ReplaySkips` | spikes/lit-6-extraction/pipeline.py:49-52 | Ingesting any chapter of a finished run again changes nothing |
| `IngestContents.ChapterSays` | spikes/lit-6-extraction/pipeline.py:49-130 | After a chapter: its row, raw text, summary and opening chunk are filed; mentions are decided as resolution says and add exactly the created entities and, in order, every form of a created mention and every form of a merged one that stood for nothing before it; ties, casts, states and themes are what the extraction says under the one table of names; only a vector that does not fit the pin raises, and then the chunk alone is missing |
| `IngestRows.MentionsAreStored` | spikes/lit-6-extraction/pipeline.py:72-105 | The mentions add exactly one entity each that is created, in order, and the fresh aliases of each, and every mention resolves to the entity its decision names or created |
| `IngestRows.FormsAreStored` | spikes/lit-6-extraction/pipeline.py:80-83 | The alias rows of one mention: all its forms if it is created, otherwise those whose key stands for nothing, in order, stamped with the chapter |
| `IngestRows.OpenFiles` | spikes/lit-6-extraction/pipeline.py:55-60 | A chapter opens with exactly its own row, its raw text unless that is empty, and its summary |
| `KnownNames.FormsCanBeRead` | spikes/lit-6-extraction/pipeline.py:80-96 | From its chapter on, an entity is read with every form it was introduced with, and a mentioned one with every form that stood for nothing before |
| `KnownNames.NextChapterSays` | spikes/lit-6-extraction/pipeline.py:38-134 | In every in-order run, each chapter that is reached is stored as its extraction says |
| `KnownNames.OneEntityPerName` | spikes/lit-6-extraction/pipeline.py:28-36 | In every in-order run, under any embedder: no entity has a name-like name that an earlier entity of its type is called, or was known by as an alias in the chapters before |
| `IngestContents.FirstStateWins` | spikes/lit-6-extraction/pipeline.py:84-98 | Of several states said of one entity in a chapter, merged or new, the first is kept; an entity nothing is said of keeps its state |
| `NameTable.NamesStandForMentions` | spikes/lit-6-extraction/pipeline.py:66-102 | A key stands for the last roster entry or mention called so; a key nothing is called, for the first that lists it as an alias; any other key for nothing |
| `NameTable.OneTable` | spikes/lit-6-extraction/pipeline.py:66-102 | Only one table of names tells this, so what the stored ties and casts mean is fixed by roster and mentions |
| `IngestContents.TiesAreStored` | spikes/lit-6-extraction/pipeline.py:109-112 | The stored ties are exactly those both of whose names resolve, in order, stamped with the chapter |
| `IngestContents.BeatsAreStored` | spikes/lit-6-extraction/pipeline.py:116-125 | Each event is linked to exactly the entities its participants stand for, and no earlier cast changes |
| `Frontier.ChapterBounds` | spikes/lit-12-frontier/frontier.py:23-41 | Contiguous, positive ranges of the given lengths starting at zero, or the number of the first chapter without length |
| `Frontier.BookmarkIsPrefix` | spikes/lit-12-frontier/frontier.py:61-66 | A chapter ends at or before the position exactly when its ordinal is within the bookmark |
| `Frontier.CurrentChapter` | spikes/lit-12-frontier/frontier.py:78-84 | The pending chapter contains the position and is always the one right after the bookmark, or one past the end |
| `Frontier.SessionIsFurthest` | spikes/lit-12-frontier/frontier.py:69-75 | The high-water mark of any list of reports is the bookmark of its furthest position |
| `Frontier.CoalescingLosesNothing` | backend/app/api/reading.py:78-80 | Replacing any reports by the furthest of them stores the same bookmark, whatever was stored before |
| `Frontier.VisibleIsFinished` | spikes/lit-12-frontier/frontier.py:61-75 | A fact visible at the session's bookmark comes from a chapter that ends at or before the furthest position |
| `Frontier.NothingUnreadIsShown` | spikes/lit-12-frontier/frontier.py:1-20 | From position to page: every read of the whole book answers as if only the chapters that end at or before the furthest position had been ingested |
| `Flight.FlightSafety` | backend/app/lifecycle_cache.py:154-194 | For every interleaving: free slots, registered keys and threads holding a slot add up to the limit; users of a key share one counted entry; at most one is in the body; the semaphore is never over-released |
| `Flight.FlightProgress` | backend/app/lifecycle_cache.py:154-194 | While a thread is inside, some step other than a new call is enabled |
| `Flight.KeysRunSideBySide` | backend/app/lifecycle_cache.py:154-194 | In every reachable state: a thread waits for a slot exactly while keys in use and slots in hand fill the limit, for the lock exactly while another thread of its own key is in the body, and for nothing else; a step takes its thread where the code goes and moves nobody else |
| `Flight.StepKeepsInv` | backend/app/lifecycle_cache.py:161-194 | Each gated block keeps the slot, reference and lock invariants |
| `RecapRegistry.Registry.Lookup` | backend/app/lifecycle_cache.py:118-123 | A hit is returned and becomes the newest entry; a miss changes nothing |
| `RecapRegistry.Registry.Store` | backend/app/lifecycle_cache.py:125-130 | The stored key becomes the newest and the cache stays within its limit |
| `RecapRegistry.Registry.FailureRecent` | backend/app/lifecycle_cache.py:132-142 | True exactly inside the time to live; an expired failure is forgotten, a recent one becomes the newest |
| `RecapRegistry.Registry.MarkFailed` | backend/app/lifecycle_cache.py:144-148 | A failure is stored as the newest within its own limit |
| `RecapRegistry.Registry.ClearFailed` | backend/app/lifecycle_cache.py:150-152 | Exactly that failure is forgotten |
| `RecapRegistry.Registry.Invalidate` | backend/app/lifecycle_cache.py:196-202 | Exactly the entries of the book are dropped from both maps |
| `RecapRegistry.StoredKeepsNewest` | backend/app/lifecycle_cache.py:113-130 | Storing keeps the new entry and evicts another only when full, and then the one untouched for longest |
| `SinglePayment.NoDoublePayment` | backend/app/api/views.py:1256-1275 | For every interleaving: two synthesis rounds of one key never overlap, and none runs while the key's payload is cached or its failure is inside the time to live |
| `SinglePayment.RoundIsRemembered` | backend/app/api/views.py:1413-1428 | A round that ends cleared or rejected makes the next request of the key a hit or a recent failure |
| `SinglePayment.PaysExactly` | backend/app/api/views.py:1264-1275 | A thread that gets into the body pays if and only if the recap of the expected frontier is not cached and no round of the key failed inside the time to live |
| `BookGate.GateSafety` | backend/app/deps.py:99-143 | For every interleaving and cancellation: a running mutation is alone on its book, position writes of a book exclude each other, the event is set exactly when nobody reads, and the registry holds exactly the books with live requests, each on one entry that counts them |
| `BookGate.GateProgress` | backend/app/deps.py:119-143 | While a request of a book is live, some request of that book can take a step without an arrival or a cancellation |
| `BookGate.ReadersShare` | backend/app/deps.py:119-139 | In every reachable state: a request waiting for the lock can be admitted exactly when no mutation of its book holds it, however many read; a position write waits inside only for another position write, a mutation only for readers; an admitted read is in its body, and all others stay where they are; no other book matters |
| `BookGate.MutationIsNotPassed` | backend/app/deps.py:135-139 | From the moment a mutation holds the entry lock, whatever arrives, the readers left are among those admitted before, and once running it stays running alone |
| `BookGate.StepKeepsInv` | backend/app/deps.py:106-143 | Every admission, wake-up, end and cancellation keeps the counts, the event and both locks consistent |
| `Prewarmer.PrewarmSafety` | backend/app/recap_warm.py:28-78 | Every reachable state before close: queued books are distinct, at most eight and, under a focus, only the focused one; exactly the queued and the active are pending; the unfinished count is the queue plus the active run, so `join` wakes exactly when nothing is left |
| `Prewarmer.TaskDoneNeverOverruns` | backend/app/recap_warm.py:40-129 | No action counts more tasks done than are unfinished |
| `Prewarmer.SuccessorExactly` | backend/app/recap_warm.py:107-117 | When a run that fell behind ends, its book is queued again exactly when it has the focus, or nobody has and there is room |
| `Prewarmer.ChangeIsNeverLost` | backend/app/recap_warm.py:57-78 | After any further notifications, a focused book whose frontier changed during its run is queued again when the run ends, if still eligible |
| `Prewarmer.NewRequestLeavesBehind` | backend/app/recap_warm.py:57-75 | An eligible request for the active book leaves its run behind with exactly the token wanted, unless exactly that token has been completed before |
| `Prewarmer.RequestIsQueued` | backend/app/recap_warm.py:40-75 | A request for an eligible book that is neither queued nor active queues it for the frontier on the shelf exactly when no other book has the focus, there is room or the request clears the queue, and it is forced or not yet prepared |
| `Prewarmer.CancelledExactly` | backend/app/recap_warm.py:40-64 | A request cancels the active run exactly when it brings another book into focus, or is about the active book and forces it, finds it not eligible or finds its frontier changed |
| `Prewarmer.FinishedIsNotRepeated` | backend/app/recap_warm.py:58-75 | A finished preparation stays at rest under every action but a forced request, a changed frontier, or being pushed out of the newest 128 |
| `Prewarmer.PreparedOnce` | backend/app/recap_warm.py:107-117 | In every run: a book whose preparation ended without being left behind is neither queued nor active for as long as nobody forces it, its frontier stays and fewer than 128 others have ended |
| `Prewarmer.CloseWindsDown` | backend/app/recap_warm.py:119-129 | After close, the active run ends, the runner stops, nothing is pending and `join` wakes |
| `PrewarmerObject.RecapPrewarmer.ScheduleNow` | backend/app/recap_warm.py:40-78 | The method's drains, cancellations, queueing and deferred `task_done` calls make exactly the specified step |
| `PrewarmerObject.RecapPrewarmer.FocusQueue` | backend/app/recap_warm.py:28-38 | Draining puts back only the focused key, forgets the others except the active one, and returns how many were drained |
| `PrewarmerObject.RecapPrewarmer.TakeNext` | backend/app/recap_warm.py:80-88 | The runner takes the oldest queued book with its pending token, or stops on the sentinel |
| `PrewarmerObject.RecapPrewarmer.EndRun` | backend/app/recap_warm.py:107-117 | The end of a run remembers a finished token within 128, forgets the book and schedules a successor exactly when the specification does |
| `PrewarmerObject.RecapPrewarmer.Shutdown` | backend/app/recap_warm.py:119-128 | Close cancels the run, empties the queue with its task counts and leaves one sentinel |
| `AnswerBank.Bank.Set` | backend/app/answer_bank.py:180-195 | A valid answer becomes the newest row; what is evicted beyond the limit is a paraphrase unless no paraphrase is left; an invalid one changes nothing; the checkpoint follows |
| `AnswerBank.StoredIsFound` | backend/app/answer_bank.py:172-195 | After an answer is stored its key looks it up, under the question it was reviewed for, unless it is the only paraphrase in a full bank or nothing is kept; it is a suggestion only as the original that already was one |
| `AnswerBank.EvictionSparesOriginals` | backend/app/answer_bank.py:191-194 | Any number of evictions removes that many rows, adds none, and gives up an original only when no paraphrase is left |
| `AnswerBank.Evict` | backend/app/answer_bank.py:191-194 | The eviction loop removes exactly the excess, one victim at a time |
| `AnswerBank.Bank.Candidates` | backend/app/answer_bank.py:197-213 | Each reviewed question of the scope is offered once, as the original when it is held and else as its newest paraphrase; best scores first, among equal scores the question stored most recently first, up to the count |
| `AnswerBank.OfferedRows` | backend/app/answer_bank.py:201-209 | The newest-first pass keeps one row per reviewed question, preferring the original, in the order in which the questions were last stored |
| `AnswerBank.TrimToFit` | backend/app/answer_bank.py:145-160 | Trimming stops at the first stage that fits, the oldest plans going first |
| `AnswerBank.ShrinksInOrder` | backend/app/answer_bank.py:154-160 | No row is trimmed while a plan is left, and rows go in eviction order |
| `AnswerBank.CheckpointIsAccepted` | backend/app/answer_bank.py:100-161 | Every checkpoint written for well-formed questions passes every check of the reader, with rows and plans in order and free of repeats |
| `AnswerBank.Bank.Save` | backend/app/answer_bank.py:140-163 | What is on file is the whole bank trimmed no more than the size limit requires, with its version and hash |
| `AnswerBank.Load` | backend/app/answer_bank.py:100-138 | A checkpoint is loaded whole or not at all, and an accepted one gives back its rows, attempts and plans |
| `AnswerBank.Restart` | backend/app/answer_bank.py:60-68 | A restarted process has exactly the saved rows, attempts and plans; rows are missing only when no plan was kept, and originals only when no paraphrase was |
| `BankRuns.EveryRunCanBeSaved` | backend/app/answer_bank.py:140-280 | For every run of operations from an empty bank: rows, attempts and plans stay within their limits, every incarnation has at most one plan, and every checkpoint trimmed from it is accepted when read back |
| `AnswerBank.Bank.SetPlan` | backend/app/answer_bank.py:268-280 | An invalid plan is refused; a valid one replaces every plan of its incarnation within the limit of sixteen, so one plan per incarnation stays one |
| `AnswerBank.ReplannedFacts` | backend/app/answer_bank.py:271-277 | After a replacement the new plan is the only one of its incarnation |
| `AnswerBank.Bank.MarkPrepared` | backend/app/answer_bank.py:243-252 | The attempt becomes the newest; plans of the incarnation go unless kept; one plan per incarnation stays one |
| `AnswerBank.AttemptedExactly` | backend/app/answer_bank.py:243-252 | Attempts are the newest of the others in their order with this one behind them; plans are kept, or exactly those of other incarnations are, in their order |
| `AnswerBank.PlannedExactly` | backend/app/answer_bank.py:268-280 | Plans are the newest sixteen, or the limit, of those of other incarnations in their order with the new one behind them |
| `AnswerBank.Bank.PlanFor` | backend/app/answer_bank.py:254-266 | The key's own plan exactly when it is for these facts; only without one, the newest plan of the incarnation for these facts, or nothing exactly when there is none |
| `AnswerBank.Bank.InvalidateBook` | backend/app/answer_bank.py:229-237 | Exactly the rows, attempts and plans of the book go, the others keep their order |
| `AnswerBank.ForgottenExactly` | backend/app/answer_bank.py:229-237 | Exactly the rows, attempts and plans of other books are left, in their order |
| `AnswerSharing.SharingSafety` | backend/app/answer_bank.py:70-94 | For every interleaving: operations for one question never overlap, at most eight run at once, and all callers of one future return the same outcome |
| `AnswerSharing.SharingProgress` | backend/app/answer_bank.py:83-94 | Whoever waits can receive the result, or the owner of its future can still settle it |
| `AnswerSharing.CallersShare` | backend/app/answer_bank.py:76-94 | In every reachable state: a caller joins the operation in flight for its question, or starts one, or is refused exactly when eight others are in flight; a waiter waits exactly while the operation it joined runs, and nobody else waits |
| `AnswerSharing.OutcomeIsShared` | backend/app/answer_bank.py:83-94 | A future holds its owner's outcome, and that is what the owner and every waiter on it return; then the question is off the map |
| `AnswerSharing.SettledIsFinal` | backend/app/answer_bank.py:86-94 | A settled future keeps its outcome after its question left the map |
| `Passages.PassageWindows` | backend/app/retrieval_passages.py:23-38 | The windows form a chain over the normalized text: each ends at the last space of its second half, the limit or the end, the next starts after the first space of the overlap, and the last one reaches the end |
| `Passages.WindowsAdvance` | backend/app/retrieval_passages.py:26-38 | No window is empty or longer than 1500, starts advance by at least 500 without a gap, and ends strictly increase |
| `Passages.WindowsCover` | backend/app/retrieval_passages.py:23-38 | Every character of the normalized text is inside a window |
| `Passages.QuotePreserved` | backend/app/retrieval_passages.py:23-38 | If no word is longer than W, at most 249, every stretch of at most 250 - W characters lies wholly inside one window, verbatim |
| `Passages.NormalizeKeepsWords` | backend/app/retrieval_passages.py:19-20 | Normalizing keeps the words and their order and is idempotent |
| `Batching.GreedyIsFewest` | backend/app/retrieval_passages.py:58-74 | Under limits that every part of a batch inherits, no order-preserving partition has fewer batches than the greedy one |
| `Batching.EmbeddingBatches` | backend/app/retrieval_passages.py:58-74 | Fails exactly when a passage cannot fit; otherwise a lossless in-order partition within the limit with the fewest batches |
| `Batching.EvidenceReviewBatches` | backend/app/ask_evidence.py:274-301 | Rejects an invalid allowance or the first claim with too many units; otherwise a lossless in-order partition into batches of two claims and the unit limit with the fewest batches |
| `Batching.ProofBatches` | backend/app/recap_grounding.py:285-302 | A lossless in-order partition of the recap claims with the fewest batches, each with exactly its claims' sources, once each |
| `Batching.ProofSources` | backend/app/recap_grounding.py:290-300 | No proof sees more than six sources when no claim has more, and only a lone claim may exceed its unit limit |
| `EvidenceText.SourcePassages` | backend/app/evidence_text.py:37-64 | Joining the slices gives the text back; at most 257 slices, and at most 128 for a text of at most 32768 characters; every slice ends with a sentence, before a space, or where a stretch of the limit offers neither, and without the white space at its ends is shorter than target and limit together, 768 for such a text |
| `EvidenceText.FieldSegments` | backend/app/evidence_text.py:12-34 | Joining the segments gives the field back; every segment of a field that is not blank is not blank, each ends with a clause or with the field, and no clause end inside one has something said on both sides |
| `EvidenceText.BoundaryIsNext` | backend/app/evidence_text.py:9 | The next boundary is the first clause mark before white space or the end, or the end of a run of line breaks |
| `EvidenceText.SentencesStand` | backend/app/evidence_text.py:8 | The sentences are the text cut at every sentence end before white space and after every line break, and nowhere else |
| `EvidenceText.CutLong` | backend/app/evidence_text.py:48-54 | Slicing a long sentence terminates, loses nothing, and makes slices of at least half the limit, each cut before a space or where the limit's second half has none |
| `EvidenceAudit.ReviewCitations` | backend/app/ask_evidence.py:376-411 | The review loop is the review function; it is an integrity failure exactly when the audit is not within its form or does not read every claim, unit by unit, at real passages; a success proves every claim and gives the sources its units mention |
| `EvidenceAudit.ReviewErrorsExactly` | backend/app/ask_evidence.py:376-411 | Integrity failure if and only if the form, a claim id, the unit ids in order, a source, a passage, a repeated source or passage, or a supported unit without reference is wrong, whatever else the audit says; otherwise rejection if and only if a unit is not supported or a claim mentions four sources |
| `EvidenceAudit.ForgedPassageFails` | backend/app/ask_evidence.py:393-396 | One passage id that its source does not have makes any audit an integrity failure and never a rejection |
| `EvidenceAudit.ProofListsMentions` | backend/app/ask_evidence.py:389-399 | A claim's citations are exactly the sources its units mention, once each, in order of first mention |
| `EvidenceAudit.AcceptedCitations` | backend/app/ask_evidence.py:376-411 | An accepted audit has, claim by claim and unit by unit, the given ids in order; every unit is supported by references to different sources, each to distinct passages that its source has; and each claim cites the one to three sources mentioned, in order of first mention |
| `AuditSplit.BatchesConcatenate` | backend/app/api/views.py:469-506 | If every batch is accepted, the concatenated audit is accepted for all their claims, with the citations of each batch |
| `AuditSplit.MergeSucceedsExactly` | backend/app/ask_evidence.py:327-352 | The merge succeeds exactly when the parts match up and each part is accepted by itself; it never lacks a claim |
| `AuditSplit.MergeableExactly` | backend/app/ask_evidence.py:327-346 | Parts match up if and only if both are within their form, every claim of the draft is in exactly one of them, each part is in draft order, and every approved unit is supported by sources that the draft cites for its claim |
| `AuditSplit.MergeFailsAsApproved` | backend/app/ask_evidence.py:347-352 | When the parts match up and the reviewed one is accepted, the merge fails with the approved part's own error |
| `AuditSplit.MergedCitations` | backend/app/ask_evidence.py:347-352 | In a merge that succeeds, the audit of each claim is the one of its own part, and it proves the claim at real passages by the sources it cites |
| `AuditSplit.RequestIsAnswered` | backend/app/ask_evidence.py:263-271 | Claims taken from the draft in its order are exactly what their ids request |
| `CitationReview.ReviewWaves` | backend/app/api/views.py:469-500 | Either every batch is answered and accepted, or the first wave with an error ends the review with that wave's weightiest error |
| `CitationReview.CompleteCitationEvidence` | backend/app/api/views.py:419-506 | Exactly when an answer is cleared and what fails it otherwise: an oversized claim, the first wave with an error by its weightiest, approvals that do not match, or the approved part's own error; in a cleared answer every claim is proved, unit by unit at real passages, by its audit among the approvals or the accepted batches, and cites the one to three sources this mentions |
| `ContextWorklist.CompleteAskContext` | backend/app/ask_context.py:116-203 | Names are looked for in the text without its chapter's title; the two-index worklist returns exactly what repeatedly appending the one wanted source returns; each malformed input fails closed |
| `ContextWorklist.Completion.CloseContinuity` | backend/app/ask_context.py:160-166 | Leaves no open continuity reference and appends only what the simple form wants next |
| `ContextWorklist.Completion.CloseContext` | backend/app/ask_context.py:168-179 | Leaves no open reference at all and appends only what the simple form wants next |
| `ContextWorklist.Completion.CoverNames` | backend/app/ask_context.py:183-203 | Covers names greedily until nothing is wanted |
| `ContextWorklist.ContextIsComplete` | backend/app/ask_context.py:116-203 | The selection stays in front, at most six candidates with distinct ids, nothing added repeats evidence; with room to spare every reference is followed and every solid name covered |
| `ContextWorklist.EqualNamesAreSolid` | backend/app/ask_context.py:183-202 | Where equal evidence has equal names, every needed name is solid |
| `ContextWorklist.RetrievedNamesAreCovered` | backend/app/ask.py:583-597 | Candidates that question retrieval produced repeat no words of a chapter, so whatever is selected of them a completion with room to spare covers every needed name |
| `AskContext.SpareRoomIsClosed` | backend/app/ask_context.py:158-181 | With room to spare the result is closed under context and continuity references, up to duplicate evidence |
| `AskContext.NameIsMissedExactly` | backend/app/ask_context.py:183-203 | For a given selection and one needed name: it stays missing exactly when closing the references alone leaves it out and every bearer of it shows evidence already there |
| `AskContext.AlwaysCoveredExactly` | backend/app/ask_context.py:183-203 | For any selection and any needed names: a name is covered whenever there is room to spare, exactly when no selection hides it, that is none that is closed, has room, lacks the name and shows the evidence of every bearer |
| `AskContext.SolidExactly` | backend/app/ask_context.py:183-203 | Where the candidates that repeat a bearer's evidence without its name fit into a selection, a name is always covered exactly when some bearer shows evidence that only bearers show |
| `AskContext.TitleTwinHidesName` | backend/app/ask_evidence.py:178-192 | The counterexample to full name coverage: the opening of a chapter whose text starts with its title, and a later copy of the same words, for every tokenizer that finds the name in the title only |
| `AskContext.BestIsFirstBest` | backend/app/ask_context.py:194-196 | The greedy choice is the first candidate that nothing outranks |
| `ContextWorklist.NamedFallback` | backend/app/ask_context.py:91-113 | Retrieval by name returns a greedy cover by at most three sources, or nothing |
| `ContextWorklist.FallbackKeepsNames` | backend/app/ask_context.py:138-142 | A retrieved cover has one to three sources of distinct evidence and keeps every required name through completion |
| `AskRetrieval.WindowHeaps.Lexical` | backend/app/ask.py:490 | The 64-entry heap sorted in reverse is the first 64 of the whole stream sorted by quality and earliest serial |
| `AskRetrieval.WindowHeaps.Recent` | backend/app/ask.py:491 | The 4-entry heap does the same for the newest chapter |
| `AskRetrieval.WindowHeaps.OfferWindow` | backend/app/ask.py:357-389 | Empty windows are not scored and unshared ones not kept; both heaps go on holding the best of what was offered |
| `AskRetrieval.RankedFacts` | backend/app/ask.py:490-491 | The reference order is a permutation of the stream and strictly descending |
| `AskRetrieval.FillSelection` | backend/app/ask.py:583-597 | Items are taken in order up to the limit, none made redundant by an earlier one, and whatever is passed over before the limit was covered by something taken earlier |
| `PlanPipeline.ValidatedCandidates` | backend/app/preparation_plan.py:188-206 | Exactly the eligible proposals become candidates, in order and under their own numbers, or the plan is refused |
| `PlanPipeline.KeptAreStanding` | backend/app/preparation_plan.py:188-206 | A proposal becomes a candidate, under its own number and trimmed, if and only if it says something in a wording no earlier candidate has, rests on known facts named once each, and has an earlier primary candidate as its parent exactly if it is a follow-up |
| `PlanPipeline.StripTrims` | backend/app/preparation_plan.py:193 | Trimming removes the white space around a question and nothing else |
| `PlanPipeline.ReviewedCandidates` | backend/app/preparation_plan.py:209-220 | A review that does not cover every question in order is refused; otherwise exactly the cleared candidates are accepted |
| `PlanPipeline.AcceptedAreSafe` | backend/app/preparation_plan.py:214-219 | A candidate is accepted if and only if its audit finds it safe on known facts, at least one and each named once, and, for a follow-up, its parent was accepted before it; the accepted keep their order |
| `PlanPipeline.KeptIsSaveable` | backend/app/preparation_plan.py:188-206 | Whatever a provider proposes, the candidates pass the checkpoint validator and rest on known facts |
| `PlanPipeline.AcceptedIsSaveable` | backend/app/preparation_plan.py:209-220 | Whatever a review says, the accepted questions pass the checkpoint validator: an accepted follow-up has its accepted primary parent before it |
| `PlanPipeline.PipelineCanBeSaved` | backend/app/preparation_plan.py:188-220 | For every plan and every review, checkpointing the candidates or the accepted questions cannot raise |
| `PlanPipeline.ValidSavedPlan` | backend/app/preparation_plan.py:242-268 | The validator accepts exactly the plans with a hex digest whose questions are numbered upwards, distinct, well formed and behind their parents |
| `DiverseOrder.Order` | backend/app/preparation_plan.py:223-239 | The first question of every kind stands in front; of each primary kind as many as its share allows, one summary, and none before an earlier candidate of its kind; at most two follow-ups, none left out while there is room; each behind its parent |
| `DiverseOrder.OpensWithFirsts` | backend/app/preparation_plan.py:226-233 | The order opens with the first candidate of each primary kind that occurs, in the order of the kinds, and nothing between |
| `DiverseOrder.CutKeepsParents` | backend/app/preparation_plan.py:239 | However short the plan is cut, every follow-up in it stands behind its own parent, also in it |
| `DiverseOrder.EveryKindIsCovered` | backend/app/preparation_plan.py:226-233 | Every primary kind that the candidates have is in the uncut order |

## Left out

- SQLite, its authorizer callback and trace log, and the per-connection read guard: tables are sequences of rows, and each writer is one transaction.
- Several books in one store: a store is one book, so the `book_id` conditions do not appear.
- Columns that no read of the model uses: `href`, `fragment`, `part_label`, extractor versions, recording times, participant roles.
- `reextract_entity`, `pin_models` and `repin_embedding`: in-place attribute edits and the pin are not part of an ingestion run; the pin is a constant of the store.
- The order of rows where a query names none: they come in id order (`raw_text`, and `search` before it ranks).
- Non-interference under transaction-time edits: retraction, re-extraction and restamping a chapter change earlier views by design.
- Schema validation of an extraction, the per-method counters of the ingestion report and the per-mention record fields other than the resolved id.
- Name normalisation, tokenisation and the embedding layer of `resolve_one`: parameters; the layer's threshold and margin are inside its parameter.
- `_cosine` and floating-point scores: an arbitrary real-valued similarity, and exact rationals as `real`.
- `chapter_progress` and `subchapter_visible`: easy members. `assert_aligned`: its conclusion is the precondition `Frontier.Aligned`.
- The recap registry's checkpoint file: the same shape as the answer bank's, without plans.
- FIFO order of `asyncio.Lock` and the fairness of threads: any waiter may be granted a free lock, which allows more interleavings; no theorem claims that a given waiter is served in bounded time.
- Exceptions raised by the catalog inside `_schedule`, and tasks that never end.
- The preparation itself, its delay and its scope checks: a run ends as finished, failed or stale.
- AnswerBank.Bank.Save: a failed write of the checkpoint file is not modelled; a checkpoint without rows and plans is assumed to fit two mebibytes.
- AnswerBank.Load: JSON decoding and the key shapes it checks are the type of a checkpoint; a file that does not decode is the absent file.
- `mark_suggestion`, `suggestions` and `prepared`: easy members.
- AnswerSharing.SharingProgress: an operation is assumed able to end; nothing is said about one that does not.
- `heapq`: any arrangement with a least item first; sift operations are the library's.
- The fusion of lexical and semantic rankings, neighbours and referent windows of question retrieval: the final filter is proved for every list of items.
- Batching.ProofBatches: which sources a sentence gets is a parameter; source ids stand for sources.
- CitationReview.CompleteCitationEvidence: the partial review by the second provider is the given `approved` audit, and the later name-context completion of citations is not modelled.
- Thread pools: the replies of a wave are collected in order, whatever order they arrive in.
- Diagnostics and feedback texts of rejected audits: an error carries only its kind.
- The word functions of context completion (`word_tokens`, `proper_words`): a parameter from text to words, and the words of the question.
- `preparation_facts`, prompts, routes, settings, cost ledger, catalog, worker, service worker and client.
