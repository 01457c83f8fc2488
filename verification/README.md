# trufflepig in Dafny

trufflepig is a local code search engine: a per-user daemon indexes repositories, answers
queries from a bounded worker pool or a file spool, keeps immutable result sets that are
paged by cursor, indexes first-parent Git history in batches, and keeps a small diagnostic
journal. This project models the parts whose correctness is easiest to get wrong and proves
what they promise, for every input and every interleaving.

- `RequestPool`, `Spool`, `Reconciler`, `Journal` are step systems or shared state: each
  atomic operation of the source is one step, and the theorems quantify over all runs.
- `HistoryStorage` and `HistoryTraversal` model the `commits`, `views` and `traversal`
  tables and every sequence of batches, faults, shallow grafts, restarts and retirements.
- `Pages`, `ResultSetStore`, `LinesPage`, `SourceRead` cover what a client sees: budgeted
  pages, retained sets, printed lines and source rows, and the cursors between them.
  `Identity` and `Text` hold the address grammar those cursors use.
- `SourceDiff`, `SourceSpan`, `Lines`, `Blame` cover line arithmetic, diff indexes and blame
  runs; `BindingIndex`, `TopK`, `PhpMarkers` cover local name resolution, bounded rankings and
  the marker codec; `ReadRecord` and `Audit` cover reading the journal back.
- `Basics`, `Order` and `Utf8` are shared vocabulary.

Conventions. Anything outside the program is a parameter: clock readings, fresh identifiers,
Git's answers, the hunks of the diff library, serialised lengths and the token budget. A
budget is an arbitrary predicate of the page's shape, never assumed monotone unless a clause
says so. SQLite transactions are single steps; tables are maps or ordered sequences. Code that
updates fields or runs loops is a class or a method with loop invariants, and is proved
against a specification function or predicate; the lemmas are about that specification.

Four properties one might expect turn out to be conditional, and the project states exactly
when they hold. Raising the shutdown flag, or even returning from a shutdown, does not stop a
job whose worker has already read the flag: exactly those jobs can still start. A completed
history view keeps its boundary if and only if no later index call fails to read its row. A
forgotten diagnostic event stays forgotten unless a later, interrupted `forget` reads an
earlier clock. A printed entry reads back to its own handle if and only if no further line of
its rendering looks like a handle row or the coverage line.

## Model

| member | source | states |
|---|---|---|
| RequestPool.InvStep | src/daemon/pool.rs:47-146 | every atomic step of submitters, workers, shutdowns and drains keeps the pool's invariant: exact counter, exclusive mutexes, one owner per job, no accepted job lost |
| RequestPool.InvAlways | src/daemon/pool.rs:47-146 | the invariant holds at every point of every interleaving |
| RequestPool.PendingIsExact | src/daemon/pool.rs:96-115 | `pending` is always the charged submissions plus queued plus unsettled jobs, and no decrement takes it below zero |
| RequestPool.EffectsAreFirst | src/daemon/pool.rs:60-85 | a job starts only if accepted, not yet started and not dropped, by a worker past its second flag test that holds it; it is dropped only unstarted and after the flag; a finish follows its start |
| RequestPool.EachJobOnce | src/daemon/pool.rs:54-85 | in every interleaving a job starts at most once, ends at most once, and is never both run and dropped |
| RequestPool.DrainMeansEnded | src/daemon/pool.rs:118-127 | a drain that reports success does so when every accepted job has finished or, after a shutdown began, been dropped, and no worker holds a job |
| RequestPool.ShutdownIsFinal | src/daemon/pool.rs:130-146 | after any shutdown returns, the flag stays up, the queue stays empty, the sender stays closed and nothing is accepted again |
| RequestPool.FlagStopsSubmissions | src/daemon/pool.rs:96-146 | once the flag is up at most one submission, the one already past the flag test, is still accepted |
| RequestPool.OnlyClearedJobsStart | src/daemon/pool.rs:70-81 | once the flag is up, only jobs that workers had by then taken past the second flag test still start, at most one per such worker |
| RequestPool.LateStartsExactly | src/daemon/pool.rs:74-80 | with the flag up, and after a shutdown has returned as well, some continuation of the run starts a job if and only if a worker holds it past its second flag test |
| RequestPool.JobStartsAfterReturn | src/daemon/pool.rs:74-80 | a concrete run, for every job, in which the job starts after a shutdown has returned |
| RequestPool.ShutdownIsNeverStuck | src/daemon/pool.rs:130-146 | a shutdown waiting for the receiver mutex can take it, or its holder can take its next step, even a worker blocked in `recv` |
| RequestPool.ShutdownCanReturn | src/daemon/pool.rs:130-146 | from every point of every run, whoever holds the mutexes and whatever is queued, some continuation lets a shutdown in progress return |
| RequestPool.WorkersStay | src/daemon/pool.rs:64-82 | a worker leaves its loop only for a shutdown: with the flag down no worker has left or is about to |
| RequestPool.QueuedJobCanStart | src/daemon/pool.rs:64-80 | accepted jobs run: at every point of every run of a pool made with a worker, while the flag is down, some continuation starts any queued job |
| RequestPool.RefusedForCause | src/daemon/pool.rs:96-115 | a call of `submit` that ends without its job accepted saw, at some point of that same call, the flag up, the sender closed or the queue full |
| RequestPool.OfferCanBeAccepted | src/daemon/pool.rs:96-115 | with the flag down, the sender mutex free or held by the submission and room in the queue, some continuation accepts its job |
| Spool.InvStep | src/daemon/spool.rs:26-200 | every step of clients, the claiming server, workers and refusals keeps a request in one place and its replies honest |
| Spool.InvAlways | src/daemon/spool.rs:26-200 | that invariant holds at every point of every interleaving |
| Spool.HandlerStartsAtMostOnce | src/daemon/server.rs:248-284 | in every interleaving, with crashed, restarted and competing servers and ids reused by retries, a request is claimed at most once and its handler starts at most once |
| Spool.NoDaemonMeansNeverRun | src/daemon/spool.rs:26-78 | a client told `None` knows its handler has not run and, unless it sends again, never will, and its request file is gone |
| Spool.OutputIsTheHandlers | src/daemon/spool.rs:165-199 | output a client receives is exactly what its own handler returned in its one run |
| Spool.ReplyCarriesAnswer | src/daemon/spool.rs:165-199 | what a server sends, and the whole reply file, is exactly what the handler returned, and a failure when none ran |
| Spool.TakenReplyDecides | src/daemon/spool.rs:53-61 | a client that takes a reply returns the handler's output if and only if the handler succeeded, and an error otherwise |
| Spool.OutputReachesExactly | src/daemon/spool.rs:191-199 | a handler's output can still reach its waiting client if and only if the server has yet to write it or its temporary or reply file is in the directory |
| Spool.RequestCanBeAnswered | src/daemon/spool.rs:26-199 | from every point of every run, a request not yet sent, taken back, or waiting unclaimed can end with whatever its handler returns |
| Spool.RefusalIsPublished | src/daemon/spool.rs:185-199 | a request refused by the full pool, or rejected as unreadable, has not run, and some continuation publishes its failure |
| Spool.DroppedIsNeverAnswered | src/daemon/server.rs:248-284 | a claimed request whose job the pool drops never gets a reply |
| Spool.TimedOutNeverRuns | src/daemon/spool.rs:74-77 | a request that times out unclaimed is never claimed and never runs |
| Spool.DeadlineFails | src/daemon/spool.rs:52-77 | a client past its deadline ends with an error, never with output or with no daemon |
| Spool.LostHeartbeatWithdraws | src/daemon/spool.rs:66-69 | a client that loses the heartbeat while its request waits can take it back and learn that no daemon is there |
| Spool.NoDaemonExactly | src/daemon/spool.rs:35-69 | a client is told that no daemon is there exactly without a heartbeat, on a write that fails that way, or after withdrawing its request |
| Spool.RemovedClaimNeverStarts | src/daemon/spool.rs:70-72 | once a client removes the claim of a vanished server, and its request is gone, its handler does not start any more |
| Spool.TakenReplyIsGone | src/daemon/spool.rs:54-55 | a taken reply is gone for good |
| Spool.AnsweredClaimIsGone | src/daemon/spool.rs:191-192 | once an answer is on its way the claim file is gone for good |
| HistoryStorage.HistoryStore.constructor | src/history/storage.rs:37-45 | a new history database has empty tables |
| HistoryStorage.HistoryStore.Schedule | src/history/storage.rs:23-35 | scheduling inserts a missing view and touches a complete one, and changes nothing else |
| HistoryStorage.HistoryStore.WriteRows | src/history/storage.rs:182-206 | the row loop stores the fetched rows at consecutive depths: first insert of a commit wins, traversal rows are replaced, eligibility follows the cutoff |
| HistoryStorage.HistoryStore.IndexBatch | src/history/storage.rs:115-230 | one batch leaves a complete view alone, else resumes at the parent of the deepest stored row, reads at most 128 more commits up to the depth limit, classifies the boundary and retires an oldest view not updated for 30 days |
| HistoryStorage.FindObsolete | src/history/storage.rs:217-223 | the scan returns the view the query returns |
| HistoryStorage.ObsoleteIsOldest | src/history/storage.rs:217-223 | that is an oldest view past the retention period, whichever of equally old ones is favoured, and there is one exactly when some view is past it |
| HistoryStorage.HistoryStore.Index | src/history/storage.rs:89-113 | an index call prepares the view, runs one batch, and records a failure category over the boundary |
| HistoryTraversal.FetchIsChain | src/history/storage.rs:125-157 | what a batch reads is the next stretch of the visible first-parent chain, of exactly the length the limits allow |
| HistoryTraversal.FetchIsTrue | src/history/storage.rs:182-197 | every row read carries the commit's real parent and time, also at a shallow graft |
| HistoryTraversal.FetchHidden | src/history/commands.rs:226-239 | the parent behind a graft is looked up and found exactly when the walk ends at one |
| HistoryTraversal.BatchInv | src/history/storage.rs:115-230 | a batch on a consistent database cannot fail to resume, and keeps every view consistent |
| HistoryTraversal.CallInv | src/history/storage.rs:89-113 | every schedule, index call, fault and retirement keeps every view consistent |
| HistoryTraversal.AnyRunStoresPrefixes | src/history/storage.rs:89-230 | after any run, each tip's rows are exactly a prefix of its first-parent chain, at most 20000 long, with real parents and the eligibility its cutoff gives |
| HistoryTraversal.EligibleWithinTwoYears | src/history/storage.rs:26-29 | after any run, a stored commit is eligible if and only if it is no older than two years before the call that made its view |
| HistoryTraversal.CompleteIsOneWalk | src/history/storage.rs:154-178 | a view completed by any run holds exactly what one unbounded walk yields |
| HistoryTraversal.BoundaryKeptExactly | src/history/storage.rs:89-120 | a complete view's boundary tells how that walk ends if and only if no index call for its tip since the call that completed it failed to read the view's row |
| HistoryTraversal.CompleteBoundaryCanBeLost | src/history/storage.rs:101-120 | a concrete run in which a completed view's boundary is overwritten by a failure category: the row's SELECT fails and the UPDATE succeeds |
| HistoryTraversal.IndexAdvances | src/history/storage.rs:115-230 | a fault-free call on an incomplete view stores a full batch or completes the view, and does not retire it while its own clock readings lie within the retention period |
| HistoryTraversal.EnoughCallsComplete | src/history/storage.rs:137-157 | 157 fault-free calls complete any view, however faults and other tips are interleaved, provided the view's own calls read the clock forwards and sweep within 30 days of it, no other tip's sweep comes more than 30 days after the view's last call, and no schedule of the tip is dated before that call |
| HistoryTraversal.OtherCallKeeps | src/history/storage.rs:217-227 | a call for one tip leaves another tip's view alone unless that view is past the retention period at the call's sweep |
| Lines.SplitJoins | src/history/source_diff.rs:114-127 | joining the newline-terminated lines of a buffer gives the buffer back |
| Lines.StartsGiveLines | src/history/source_diff.rs:114-127 | line `k` is the slice between consecutive line starts, and there are no other lines |
| SourceDiff.LineOffsets | src/history/source_diff.rs:114-127 | the offsets are exactly the line starts of the buffer and its end |
| SourceDiff.DiffInterned | src/history/source_diff.rs:68-112 | for any ordered matching hunks, the index has one change per hunk with its byte spans and one run per nonempty gap |
| SourceDiff.DiffSources | src/history/source_diff.rs:63-66 | the index of two buffers patches the old bytes into the new ones, with runs and changes in ascending order |
| SourceDiff.DiffTilesBothFiles | src/history/source_diff.rs:80-111 | every line of either file is in exactly one change or exactly one unchanged run, and lines past the end are in none |
| SourceDiff.PatchReconstructs | src/history/source_diff.rs:92-103 | replacing the changed byte spans in the old buffer yields exactly the new buffer |
| SourceDiff.MapAgreesWithScan | src/history/source_diff.rs:41-50 | the binary-searched line map agrees with a scan of all runs |
| SourceDiff.MapIsIncreasing | src/history/source_diff.rs:41-50 | mapped lines are identical lines, and the map is strictly increasing |
| SourceDiff.MapIsOnto | src/history/source_diff.rs:41-50 | every new line outside all changes is the image of an old line |
| SourceDiff.ShareAgreesWithScan | src/history/source_diff.rs:52-59 | the binary-searched shared-change test agrees with a scan of all changes, empty ranges included |
| Identity.HandleReadsBack | src/identity.rs:112-132 | a printed handle parses back to itself, and ordinal zero never parses |
| Identity.SpellingsReadBack | src/identity.rs:112-132 | the plain, hyphenated, braced and URN spellings of an identifier all read back to it |
| Identity.CursorReadsBack | src/identity.rs:139-155 | a printed result cursor parses back to itself |
| Identity.ReadCursorReadsBack | src/source/acquisition.rs:63-87 | a printed `read:` continuation parses back to its handle, side and offset |
| Identity.BaseOfReadCursor | src/cli/emitted_evidence.rs:355-363 | `base_handle` recovers the handle from every `read:` cursor, with or without a side |
| Identity.BaseOfHandle | src/cli/emitted_evidence.rs:355-363 | a bare handle, in any accepted spelling, is its own base |
| LinesPage.PageText | src/results/lines.rs:124-141 | the rendered page is its entries, coverage and footer, and reads back to exactly its handles whenever no field holds a line break |
| LinesPage.EntryEmits | src/results/lines.rs:14-71 | each kind of entry line, with its optional snippet line, yields its own handle and nothing else |
| LinesPage.PageEmitsHandles | src/output/lines.rs:45-52 | reading a page's handles gives exactly its entries' handles in order; coverage and footer yield none |
| LinesPage.LiveColumns | src/results/lines.rs:21-42 | a live hit's row is its handle, location and, as the detail and the hit ask for them, its name, resolution and repeats, one column each |
| LinesPage.CommitColumns | src/results/lines.rs:49-56 | a commit's row is its handle, name and the first line of its summary |
| LinesPage.ChangeColumns | src/results/lines.rs:57-68 | a change's row is its handle, status, path and name, one column each |
| LinesPage.PreviewReadsBack | src/results/lines.rs:43-47 | the preview line gives back its line number and its text |
| LinesPage.FooterLines | src/output/lines.rs:25-42 | the footer reads back as the command to go on with, its hint and the truncation marker, each exactly when present |
| LinesPage.LineBreakForgesHandle | src/results/lines.rs:22-36 | on every page, a live regular-expression hit printed with its name and no preview, whose matched text is any text, a break, a handle, a tab and any text, makes the reader report that handle after the hit's own |
| LinesPage.ForgingTextFits | src/search/live.rs:111-114 | such matched texts exist within the 96 characters a name may have |
| LinesPage.ReadsBackExactly | src/output/lines.rs:45-52 | an entry reads back wherever it stands on a page if and only if no line of its rendering after the first carries a handle or begins the coverage line |
| Pages.LargestFitting | src/results/page.rs:21-35 | for any predicate the result fits and its successor does not; it is the maximum under monotonicity; an error came from a probe; at most floor(log2(max))+1 probes |
| Pages.SnippetPage | src/results/page.rs:38-57 | snippets are kept only for a fitting page of at least eight hits, or of all that may be shown, to which no hit can be added; they are given up only if a page of at most eight does not fit |
| Pages.PlainPage | src/results/page.rs:116-165 | without snippets: the page to which no hit can be added, named exactly when that fits; or a lone hit with as many candidates as fit; or nothing, and then neither one hit nor one without candidates fits |
| Pages.PageAt | src/results/page.rs:59-174 | a page is a fitting, in-order slice of the set that advances unless the set is exhausted and shows as much as it may; a bad offset is refused, rendering fails only if some shape the page may try fails to render, and the budget is too small only if no page with snippets and no single hit fits |
| Pages.SnippetsWhenTheyFit | src/results/page.rs:38-57 | where fitting is monotone and eight hits with snippets fit, the page has snippets and as many hits as fit with them |
| Pages.EverythingFits | src/results/page.rs:59-107 | when everything fits, the page shows every hit it may, with snippets |
| Pages.ShortPageIsFull | src/results/page.rs:116-127 | a plain page of fewer hits than it may show is short because one more does not fit |
| Pages.More | src/results/page.rs:214-223 | a cursor that names this set is answered as the page at its offset, and every other text is refused |
| Pages.PageHits | src/results/page.rs:186-203 | one page shows the next hits in order, at least one if any are left, and carries the cursor for what follows |
| Pages.CandidatesAreCut | src/results/page.rs:186-202 | a shown hit lists the first of its candidates, all unless the page cut them, and tells their number exactly when some are missing |
| Pages.NextCursorNames | src/results/lines.rs:144-146 | the cursor is absent exactly at the end of the set, and its text names the offset it stands for |
| Pages.ChainShowsEveryHitOnce | src/results/page.rs:59-223 | following cursors through pages of any limits and budgets, every page keeps within its own request's cap and budget, every hit is shown once and in order, and the chain ends exactly when all are shown, within as many pages as hits |
| ResultSetStore.Fit | src/results/result_set_store.rs:31-49 | the kept set is a labelled prefix within the hit and byte limits, marked when cut; the longest allowed prefix is kept when it fits, a shorter one is the byte share of a prefix that did not, and it fails only when the bare metadata is too large |
| ResultSetStore.EvictionsSuffice | src/results/result_set_store.rs:60-70 | the counted evictions make room for the new set |
| ResultSetStore.EvictionsNeeded | src/results/result_set_store.rs:60-70 | any fewer evictions would not make room |
| ResultSetStore.Evict | src/results/result_set_store.rs:56-70 | the insert-then-evict loop terminates with the new row and exactly the newest others that fit |
| ResultSetStore.Store.Commit | src/results/result_set_store.rs:50-71 | one transaction expires, inserts and evicts, or rolls back on a duplicate identifier, keeping the table bounded |
| ResultSetStore.Store.Save | src/results/result_set_store.rs:31-73 | a save stores the fitted set under its handles as an unexpired row, or leaves the table untouched; it fails only if the identifier is taken by an unexpired row or the bare metadata is too large, and a set that fits is stored whole |
| ResultSetStore.SaveKeepsNewest | src/results/result_set_store.rs:55-70 | after a save the table is the new row and the newest unexpired others |
| ResultSetStore.SaveKeepsBounds | src/results/result_set_store.rs:60-71 | a save keeps at most 50 sets and 32 MiB, in `(created, id)` order |
| ResultSetStore.RunsStayBounded | src/results/result_set_store.rs:31-73 | after every run of saves the limits hold, every row belongs to some save, and the latest save is present |
| ResultSetStore.SpellingNamesItsEntry | src/results.rs:261-269 | any text that reads as a save's handle names that save's own entry while the save is kept and unexpired and is an error afterwards, never another set's entry |
| ResultSetStore.HandleNamesItsEntry | src/results.rs:261-269 | the same of the handle the save printed |
| ResultSetStore.RetainedWhileRoom | src/results/result_set_store.rs:54-70 | under a forward clock a save survives any later saves until it expires, as long as all saves since its second fit the limits together |
| BindingIndex.BuildIndex | src/extract/binding_index.rs:16-37 | the name index groups exactly the bindings of each name, in order |
| BindingIndex.PositionsExact | src/extract/binding_index.rs:20-25 | the positions of a name ascend and are those of its bindings and no others |
| BindingIndex.ScanLoop | src/extract/binding_index.rs:74-103 | the best/ambiguous loop computes the specified left-to-right scan |
| BindingIndex.Resolve | src/extract/binding_index.rs:58-120 | the definition settled on, the first 64 candidates and whether more exist, for any index and use |
| BindingIndex.ScanFinds | src/extract/binding_index.rs:76-103 | for every list, the best binding starts the last run of equal scopes among the nearest ones, and the scan is ambiguous exactly when that run has another member |
| BindingIndex.ResolvesToNearest | src/extract/binding_index.rs:104-118 | when the nearest bindings share a scope, a name resolves if and only if a single binding is nearest and unblocked, and then to it |
| BindingIndex.SyntaxScopesAreUniform | src/extract/bindings.rs:23-50 | nested-or-disjoint scopes always give nearest bindings one scope |
| BindingIndex.OrderDoesNotMatter | src/extract/binding_index.rs:89-118 | with one nearest scope, every reordering of the bindings resolves the same |
| BindingIndex.OrderMattersExactly | src/extract/binding_index.rs:89-118 | for every list of bindings, resolution is the same in all orders if and only if the nearest ones share a scope, are blocked, or all name one definition from pairwise different scopes |
| BindingIndex.TreeRangesNest | src/extract/bindings.rs:23-70 | any two node ranges of one syntax tree are nested or disjoint |
| BindingIndex.SyntaxOrderIsIrrelevant | src/extract/binding_index.rs:58-120 | for scopes that are node ranges of one syntax tree, as all scopes of the program are, a name resolves the same in every order of the bindings |
| BindingIndex.SyntaxResolvesToNearest | src/extract/binding_index.rs:58-120 | for such scopes a name resolves if and only if a single binding is nearest and unblocked, and then to it |
| BindingIndex.ResolvesLexically | src/extract/binding_index.rs:58-120 | in fields: a name settles on a definition if and only if a binding of that name with it is resolvable and visible at the position, lies in an inner scope of every other such binding or is declared later in the same one, and no later blocking declaration in a scope no longer makes the use too early |
| BindingIndex.OverlapDependsOnOrder | src/extract/binding_index.rs:89-103 | the syntax tree is needed: two overlapping scopes of equal length, which no tree has, for which the order decides the answer |
| Reconciler.Schedule.constructor | src/daemon/reconciler.rs:33-40 | a new schedule remembers its start and no event |
| Reconciler.Schedule.CheckDue | src/daemon/reconciler.rs:42-54 | notes a change and decides by interval, quiet time and oldest event |
| Reconciler.Schedule.Completed | src/daemon/reconciler.rs:56-60 | a completed scan clears the events and restarts the interval |
| Reconciler.InvAlways | src/daemon/reconciler.rs:132-190 | in every run the schedule's instants are ordered and never ahead of the clock reading in hand |
| Reconciler.ChangeIsReconciled | src/daemon/reconciler.rs:162-181 | no change is lost: a consultation one second after the first one that followed the change comes with or after a decision to scan, whatever is interleaved |
| Reconciler.QuietIsReconciled | src/daemon/reconciler.rs:42-54 | after 75 ms without further changes the decision has been made |
| Reconciler.DecisionIsActedOn | src/daemon/reconciler.rs:163-174 | after a decision the thread starts the scan or leaves before doing anything else |
| Reconciler.ChangeIsScanned | src/daemon/reconciler.rs:156-181 | after that consultation, a thread that has not left and is not about to scan, as at its next consultation, has started a scan since the change |
| Reconciler.ScansAreSpaced | src/daemon/reconciler.rs:46-60 | a decision comes at least 75 ms after every earlier completed scan |
| Reconciler.PeriodicRecovery | src/daemon/reconciler.rs:156-181 | an interval without a completed scan makes the next consultation decide, changes or not |
| Reconciler.NoChangeNoScan | src/daemon/reconciler.rs:42-60 | without a change since the last scan, a decision waits the whole interval |
| Journal.FitRecord | src/diagnostics/journal.rs:103-115 | keeps the most emitted identities that fit a record, for any length function, and fails only when none do |
| Journal.PrunedForCause | src/diagnostics/journal.rs:237-253 | a pruned segment had expired or stood in the way of the incoming bytes |
| Journal.PruneStops | src/diagnostics/journal.rs:245-249 | pruning stops at the first unexpired segment that leaves room |
| Journal.PruneLeavesFresh | src/diagnostics/journal.rs:230-254 | in a sorted directory no expired segment survives a prune |
| Journal.PruneMakesRoom | src/diagnostics/journal.rs:261-264 | within the database cap, pruning always makes room for a record or a session |
| Journal.AdmittedIsRecorded | src/diagnostics/journal.rs:77-134 | an admitted record of legal size is always recorded; any other is invalidated |
| Journal.Directory.Prune | src/diagnostics/journal.rs:230-266 | the running-total loop removes exactly the oldest-first prefix and reports room truthfully |
| Journal.Directory.Record | src/diagnostics/journal.rs:69-135 | the record path in order: disabled, dropped, invalidated, oversized, pruned, appended |
| Journal.Directory.Forget | src/diagnostics/journal.rs:182-211 | commits the new epoch and mark before deleting segments, wherever the deletion stops |
| Journal.RecordBounded | src/diagnostics/journal.rs:116-134 | a record keeps every bound, and a recorded event is on disk and counted by an audit at its own time |
| Journal.LimitsHold | src/diagnostics/journal.rs:116-180 | in every run each segment stays within 50 MiB and segments with database within 200 MiB |
| Journal.ForgetShutsOutWriters | src/diagnostics/journal.rs:77-84 | after a forget commits, no writer opened before it ever records again |
| Journal.ForgottenIsNeverCounted | src/diagnostics/audit.rs:106-114 | if later forgets read no earlier clock, no audit counts an event created at or before a forget, even after an interrupted deletion |
| Journal.ForgottenIsNeverRecorded | src/diagnostics/journal.rs:85-92 | nor can such an event be recorded again |
| Journal.LastForgetDecides | src/diagnostics/audit.rs:106-114 | an event left on disk is counted if and only if it was created after the last forget's clock reading, is no more than thirty days old and is of the session asked for, if any |
| Journal.SessionsAreExact | src/diagnostics/journal.rs:157-200 | the sessions that may record are exactly those registered since the last forget |
| Journal.BackwardClockRevives | src/diagnostics/journal.rs:191-208 | for every event between two clock readings, interrupted forgets at the later and then the earlier reading bring it back |
| ReadRecord.Read | src/diagnostics/audit.rs:215-238 | whatever the chunks, one call yields the next newline-terminated record, oversized exactly above 64 KiB, and leaves the rest of the stream |
| ReadRecord.ReadAll | src/diagnostics/audit.rs:91-98 | reading to the end depends on the bytes alone, not on the chunks |
| ReadRecord.RecordsAreLines | src/diagnostics/audit.rs:215-238 | the records are the newline-split lines in order |
| Audit.Run | src/diagnostics/audit.rs:85-138 | the accumulation loop over records computes the specified tally |
| Audit.EvidenceIsExact | src/diagnostics/audit.rs:106-136 | when every request is first mentioned within the limits, a request has evidence if and only if a counted event mentions it, with the server flag exact and the last delivery kept |
| Audit.CappedBeyondLimits | src/diagnostics/audit.rs:122-127 | the audit is capped if and only if some request is first mentioned after 10000 others or past 32 MiB of counted records; otherwise it keeps exactly the mentioned requests and their bytes |
| Audit.FewRecordsFit | src/diagnostics/audit.rs:122-127 | at most 10000 mentioned requests and 32 MiB of records that mention them are within the limits |
| Audit.BeyondLimitsIsDropped | src/diagnostics/audit.rs:122-127 | the first request mentioned beyond the limits is reached by a counted event and has no evidence |
| Audit.KeptEvidenceIsTrue | src/diagnostics/audit.rs:128-136 | capped or not, every kept server flag is backed by a counted event and every kept delivery is the request's last counted one |
| Audit.RequestsAreBounded | src/diagnostics/audit.rs:122-127 | at most 10000 requests are kept |
| Audit.ForgottenLeavesNoEvidence | src/diagnostics/audit.rs:109-111 | all delivery evidence was created after the forgotten mark and within retention |
| Audit.Summarize | src/diagnostics/audit.rs:169-202 | visiting the requests in any order gives the same totals of deliveries, tokens, accepted bytes and identities, and whole and other deliveries add up to the kept requests |
| Audit.AddDelivery | src/diagnostics/audit.rs:170-201 | one request adds its tokens and bytes from any receipt, and its identities only when the delivery was received whole |
| Audit.CountsAddUp | src/diagnostics/audit.rs:195-201 | every emitted identity of a whole delivery is counted once, as source or as metadata |
| Audit.ShareOfDelivery | src/diagnostics/audit.rs:170-201 | one delivery's share in terms of its receipt and identities alone; a request without a delivery is incomplete and adds nothing else |
| Audit.CountersAreExact | src/diagnostics/audit.rs:92-121 | the malformed, truncated and residency counters number exactly the records they stand for, capped or not |
| SourceSpan.CurrentSpan | src/source.rs:71-94 | the byte range of the requested lines; it fails exactly on a bad range or a first line past the end |
| SourceSpan.SpanIsUnique | src/source.rs:71-94 | a buffer has one start and one end of each line, so that range is the only one |
| SourceSpan.SpanReadsBack | src/source.rs:64-69 | for nonempty ranges `line_span` gives the requested lines back, clamped to the file's last line |
| SourceSpan.LinesCoverSpan | src/source.rs:57-94 | the lines of a nonempty span cover it with nothing to spare on either side |
| SourceRead.DisplayBytes | src/source.rs:211-227 | text is the bytes themselves when they are UTF-8, else their escaped form |
| SourceRead.DisplayReadsBack | src/source.rs:211-227 | displayed text reads back to the bytes in both encodings and is valid UTF-8 |
| SourceRead.EscapesOnlyWhatItMust | src/source.rs:211-227 | escaping leaves text alone if and only if all of it is printable ASCII other than the backslash |
| SourceRead.EscapeIsPrintable | src/source.rs:211-227 | escaped text is printable ASCII |
| Utf8.ValidExactly | src/source.rs:211-215 | bytes count as UTF-8 if and only if they encode some sequence of Unicode scalar values |
| SourceRead.Rows | src/source.rs:141-153 | the rows are the span's first lines, contiguous, numbered by `line_at`, up to 200 |
| SourceRead.DropRows | src/source.rs:154-208 | the most rows that fit, for any fitting predicate, and failure only when none do |
| SourceRead.RenderPage | src/source.rs:121-209 | a page shows at least one line unless the span is empty, fits, is as long as it can be, and has a cursor exactly when more remains; it fails only if some number of rows fails to render or not even one row fits |
| SourceRead.PagesReadSpanOnce | src/source.rs:141-163 | reading on from cursor to cursor shows the span's bytes exactly once in order, ends exactly at its end, in no more pages than bytes |
| Blame.JoinGroups | src/history/blame.rs:125-141 | taking one more line keeps the runs exact, nonempty and unjoinable |
| Blame.TakeSource | src/history/blame.rs:113-143 | a source line is accepted exactly when it has a header, is the next selected line byte for byte, and its run fits the staging budget |
| Blame.JoinRuns | src/history/blame.rs:97-162 | blame succeeds if and only if the porcelain covers each selected line once, in order, with identical bytes within budget, and the runs then expand to exactly the attributed lines |
| Blame.PorcelainReadsBack | src/history/blame.rs:112-158 | what Git writes for some records, with any lines about their commits in between, is read as exactly those records |
| Blame.BadNumberRefused | src/history/blame.rs:150-157 | a header line with a bad number fails the whole blame |
| Blame.SelectsTheSpan | src/history/blame.rs:102-111 | the selected lines of a nonempty span are all lines of the file from its first to its last |
| Blame.Attribute | src/history/blame.rs:97-174 | what is shown is the longest fitting prefix of the true attribution, the whole of it when no run was dropped; it is unavailable only if the porcelain is not accepted or rendering fails, and too small only if no number of runs fits |
| TopK.TopStep | src/search.rs:533-537 | pushing a candidate and popping a worst one past the limit keeps exactly the top candidates |
| TopK.FileHits | src/search.rs:496-553 | the filename lane is the first 1000 of all matching files in ranking order, truncated exactly when more matched |
| TopK.SearchTopK | src/semantic.rs:126-151 | the semantic lane is the first `limit` finite candidates in ranking order, also for limit zero |
| TopK.ArrivalOrderIsIrrelevant | src/semantic.rs:111-118 | the ranking does not depend on arrival order |
| TopK.TopIsBest | src/search.rs:560-570 | nothing left out ranks above anything returned |
| TopK.RankingInFields | src/search.rs:542-547 | the ranking goes by descending score, ties by ascending key |
| TopK.LeftOutIsNoBetter | src/search.rs:560-570 | nothing left out has a higher score than anything returned, nor an equal one and a smaller key |
| Order.LexFirstDifference | src/search.rs:540-545 | of two keys the one that is smaller at their first difference comes first, or the one that is a proper prefix of the other |
| TopK.MatchesExact | src/search.rs:499-532 | the candidates of the filename lane are exactly the paths with a positive score |
| TopK.FiniteExact | src/semantic.rs:135-142 | the candidates of the semantic lane are exactly those with a finite score |
| PhpMarkers.PushHex | src/extract/php_markers.rs:256-261 | appends the two lower-case digits of each byte |
| PhpMarkers.Encode | src/extract/php_markers.rs:121-162 | the pushed payload is the prefix and the marker's fields joined by colons |
| PhpMarkers.PayloadReadsBack | src/extract/php_markers.rs:164-188 | every marker decodes back from its payload, with absent, empty and arbitrary UTF-8 names |
| PhpMarkers.PayloadsDiffer | src/extract/php_markers.rs:121-162 | different markers have different payloads |
| PhpMarkers.ReencodingLowersHex | src/extract/php_markers.rs:243-286 | re-encoding any decoded payload changes nothing but the case of hexadecimal letters |
| PhpMarkers.RowReadsBack | src/extract/php_markers.rs:97-119 | a stored marker row decodes if and only if its identifiers, span and target are in order |

## Left out

- Tree-sitter extraction, scope collection and the owner and declaration-token maps of the binding index: bindings and scopes are inputs.
- SQL text, WAL, checkpoints and capacity probes of the history database: a transaction is one step, and a failed probe is one of the modelled faults.
- Git, the diff library, the tokenizer, JSON, hashing and UUID generation: arbitrary inputs constrained only as the source constrains them.
- Sockets, frames, thread spawning, joins in `Drop`, mutex poisoning and panics inside pool jobs.
- RequestPool.InvAlways: a pool of queue capacity zero refuses every submission in the model, while a rendezvous channel may hand a job to a waiting worker.
- Reconciler.ChangeIsScanned: states that a scan starts after a change, not that the scan succeeds; a failed scan also clears the noted events, as in the source.
- Journal.Directory.Record: torn writes, the drop counter and the privacy rewriting of records are not modelled.
- Audit.KeptEvidenceIsTrue: once the audit is capped, kept evidence is true but may lack events from before the request was admitted; the source reports such a window as incomplete.
- TopK.FileHits: the score of a path and Unicode lower-casing are an arbitrary function; floating-point scores are ranks of their total order.
- BindingIndex.Resolve: the enclosing function's start is an input of the query.
- SourceRead.PagesReadSpanOnce: a continuation reopens the same bytes; revision checks that would refuse changed bytes are not modelled.
- Blame.JoinRuns: recognising a header line is an arbitrary function of its bytes, and sums of line numbers are unbounded.
- Declaration correspondence, ranking fusion, workspace routing, caches, evaluation harnesses and the command line.
