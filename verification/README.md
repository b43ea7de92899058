# translator-to-notion, modelled in Dafny

This project models the core of translator-to-notion, a service that
translates long articles with a language model and publishes them to Notion.
An article arrives as text or as a URL. It is stored as a task in an
in-memory job store and queued for a single background worker. The worker
fetches the page if needed. It splits the text into token-bounded chunks and
translates the chunks one by one. Each chunk gets a bounded retry and the
tail of the previous translation as context. Tasks are snapshotted to disk
and recovered after a restart. A finished translation is turned into Notion
blocks that interleave each original paragraph with its translation.

Everything is pure functions over immutable values:

- Python dicts are maps plus their insertion order.
- The clock is a parameter `now` in seconds.
- Fresh uuids are parameters.
- The tokenizer, the translator, the page fetcher and `json.dumps` are
  function-valued parameters (oracles).
- The file system is a map from paths to contents, with a flag per
  operation that says whether the write succeeds.

| module (file) | models |
|---|---|
| `Opt`, `Text` (text.dfy) | `Optional`, Python truthiness, `str.strip`, `join`, `split`, `rfind`, `int()` |
| `Seqs`, `Json` (seqs.dfy) | stable `sorted`, slices with negative bounds, decoded JSON values and `dict.get` |
| `TaskStore` (task_store.dfy) | `backend/services/cache_service.py` |
| `Worker`, `WorkerLaws` (worker.dfy) | `backend/services/task_manager.py` |
| `Persistence` (persistence.dfy) | `backend/services/task_persistence.py` |
| `Chunking` (chunking.dfy) | `backend/services/chunking_service.py` |
| `TranslationService` (service.dfy) | `backend/services/translation_service.py` |
| `NotionText` (notion_text.dfy) | `agent/tools/notion_publisher.py` |
| `Schema` (schema.dfy) | `backend/schemas/translate_schema.py` |
| `Settings` (settings.dfy) | `config/settings.py` |
| `Prompts` (prompts.dfy) | `agent/prompts/translation_prompts.py` |
| `Domains` (domains.dfy) | `agent/prompts/domain_prompts.py` |
| `Auth` (auth.dfy) | `backend/middleware/auth.py` |

## Model

| member | source | states |
|---|---|---|
| `TaskStore.StatusOf` | backend/services/cache_service.py:16-22 | a status value that parses names a status whose value is that string |
| `TaskStore.StatusValueRoundTrip` | backend/services/cache_service.py:16-22 | every status's string value parses back to that status |
| `TaskStore.Progress` | backend/services/cache_service.py:52-57 | 0 without chunks, 100 once every chunk is translated, within 0..100 while translations do not outnumber chunks |
| `TaskStore.ProgressMonotone` | backend/services/cache_service.py:52-57 | more translated chunks of the same chunk list never lower the percentage |
| `TaskStore.PartialResultAppend` | backend/services/cache_service.py:64-67 | appending a chunk extends the partial result by a blank line and that chunk, or starts it with the chunk |
| `TaskStore.CleanupExpired` | backend/services/cache_service.py:376-393 | exactly the tasks not past their TTL survive, unchanged and in their order |
| `TaskStore.EnsureCapacity` | backend/services/cache_service.py:395-414 | below the limit nothing changes; at or above it exactly max(1, n // 10) tasks go, and none of them is younger than a task that stays |
| `TaskStore.EvictionFacts` | backend/services/cache_service.py:405-414 | the first k ids of the stable sort by creation time are k distinct stored ids, none younger than any id after them |
| `TaskStore.Insert` | backend/services/cache_service.py:130-133 | the new task is stored; every other survivor was stored, unexpired and unchanged; a store within its limit stays within it |
| `TaskStore.CapacityBound` | backend/services/cache_service.py:402-414 | cleanup never grows the store and eviction at the limit frees a slot, so an insert keeps the size within the limit |
| `TaskStore.CreateTask` | backend/services/cache_service.py:137-177 | the new task is IN_PROGRESS with the given chunks, no translations and creation time now, is not expired, and no other task changes |
| `TaskStore.CreateTaskPending` | backend/services/cache_service.py:576-618 | the new task is PENDING with no chunks and carries the given content, url, title, source and domain; no other task changes |
| `TaskStore.GetTask` | backend/services/cache_service.py:179-194 | a task is returned exactly when it is stored and unexpired; an expired one is deleted on the way and nothing else changes |
| `TaskStore.GetTaskSettles` | backend/services/cache_service.py:179-194 | a second lookup at the same time gives the same answer and changes nothing |
| `TaskStore.Advance` | backend/services/cache_service.py:220-228 | the record gains the chunk at the end, the current chunk becomes the count, tokens add up, it completes once every chunk is covered, and no other field moves |
| `TaskStore.UpdateProgress` | backend/services/cache_service.py:196-230 | succeeds exactly for a stored id, with no expiry check; only that record changes; an unknown id changes nothing |
| `TaskStore.ApplyProgressLaw` | backend/services/cache_service.py:196-230 | a run of updates appends exactly the given chunks, completes the task exactly when they cover its chunks, and leaves the order and every other task alone |
| `TaskStore.MarkCompleted` | backend/services/cache_service.py:232-249 | a stored task becomes COMPLETED, stamped now, and nothing else changes; an unknown id changes nothing |
| `TaskStore.MarkFailed` | backend/services/cache_service.py:251-270 | a stored task becomes FAILED with the given error (even an empty one), stamped now; an unknown id changes nothing |
| `TaskStore.SetTaskStatus` | backend/services/cache_service.py:544-574 | a stored task takes the status and time, and its error only when the given one is non-empty; every other field and task is kept |
| `TaskStore.MarkIsSetStatus` | backend/services/cache_service.py:232-270 | marking completed, or failed with a non-empty error, is the same as setting that status |
| `TaskStore.UpdateTaskPrepared` | backend/services/cache_service.py:620-652 | a stored task takes the content and chunks and becomes IN_PROGRESS; the title is filled only when it had none; translations, creation time and url are kept |
| `TaskStore.GetPendingChunks` | backend/services/cache_service.py:307-321 | a live task's chunks are its translated-prefix part followed by the pending ones; an absent or expired task has none |
| `TaskStore.PendingShrinks` | backend/services/cache_service.py:307-321 | a progress update consumes exactly the first pending chunk |
| `TaskStore.PreparedThenPending` | backend/services/cache_service.py:620-652 | after preparation, a task with nothing translated has all its new chunks pending |
| `TaskStore.GetTaskResult` | backend/services/cache_service.py:654-671 | a text comes back exactly for a live task that is COMPLETED or has a translated chunk, and it is the chunks joined by blank lines |
| `TaskStore.DeleteTask` | backend/services/cache_service.py:323-337 | the id is gone afterwards, and the answer says whether it was there |
| `TaskStore.DeleteThenAbsent` | backend/services/cache_service.py:323-337 | a deleted task is not found by a later lookup |
| `TaskStore.ClearAll` | backend/services/cache_service.py:339-349 | the store is emptied and the count is the number of tasks it held |
| `TaskStore.CountsAddUp` | backend/services/cache_service.py:358-363 | the per-status counts of any task list add up to its length |
| `TaskStore.ByStatus` | backend/services/cache_service.py:358-363 | a status is listed exactly when it occurs, with the number of tasks that have it |
| `TaskStore.GetStats` | backend/services/cache_service.py:351-370 | the total is the number of tasks; a status is listed exactly when some stored task has it; the listed counts add up to the total |
| `TaskStore.DisplayTitle` | backend/services/cache_service.py:468-475 | a non-empty title wins; otherwise the content, cut to 50 characters plus "..." when it is longer |
| `TaskStore.GetTaskMetadata` | backend/services/cache_service.py:452-488 | metadata exists exactly when the lookup finds the task, and reports its status, display title, progress, error and chunk counts |
| `TaskStore.Listed` | backend/services/cache_service.py:507-515 | the listing is newest first and a permutation of the stored tasks, or of those with the filtered status |
| `TaskStore.ListedKeepsTies` | backend/services/cache_service.py:515 | tasks with equal creation times keep their insertion order |
| `TaskStore.ListedContents` | backend/services/cache_service.py:509-517 | the listing holds as many tasks as the store, or as the store has with the filtered status |
| `TaskStore.ListedStatus` | backend/services/cache_service.py:511-512 | a filtered listing holds only tasks with the filtered status |
| `TaskStore.GetTasksList` | backend/services/cache_service.py:490-542 | the page is the slice [offset:offset+limit] of the sorted listing, the total counts the admitted tasks, and has_more says whether the slice ends before the total |
| `TaskStore.GetTasksListTotal` | backend/services/cache_service.py:517 | the total is the store's size, or the number of tasks with the filtered status |
| `TaskStore.GetTasksListSorted` | backend/services/cache_service.py:514-520 | the page is ordered newest first |
| `TaskStore.GetTasksListStatus` | backend/services/cache_service.py:511-520 | a filtered page holds only tasks with that status |
| `TaskStore.GetTasksListLength` | backend/services/cache_service.py:519-521 | the page has `limit` items, or what is left after `offset` when that is fewer |
| `TaskStore.ListTotalIsStatsCount` | backend/services/cache_service.py:358-363 | a filtered listing's total agrees with the statistics' count for that status |
| `TaskStore.RestoreTasks` | backend/services/cache_service.py:432-450 | the ids afterwards are the old ones plus the incoming ones; stored tasks are never overwritten; every added task came in with its id |
| `TaskStore.RestoreCountIsGrowth` | backend/services/cache_service.py:444-450 | the count is exactly how much the store grew |
| `TaskStore.RestoreCountsNewIds` | backend/services/cache_service.py:444-450 | the count is the number of distinct incoming ids the store lacked |
| `Seqs.SortBy` | backend/services/cache_service.py:406-409 | the result is sorted by the key and is a permutation of the input |
| `Seqs.SortByStable` | backend/services/cache_service.py:406-409 | among elements with equal keys the sort keeps the input order |
| `Worker.RetryDelays` | backend/services/task_manager.py:822-837 | the delays for attempts 0, 1 and 2 are 1, 2 and 4 seconds |
| `Worker.RetryDelayAdds` | backend/services/task_manager.py:822-837 | the delay is a power of two: the delay of a sum is the product of the delays |
| `Worker.AttemptsFacts` | backend/services/task_manager.py:731-768 | one to three calls; the first success is returned; every earlier call failed; one sleep of 2^k between attempts and none after the last; when all fail the last error is returned |
| `Worker.ExecuteChunkWithRetry` | backend/services/task_manager.py:705-768 | the loop makes the calls and sleeps of the reference definition and succeeds exactly when some attempt does |
| `Worker.SubmitTaskFast` | backend/services/task_manager.py:285-363 | not running raises; otherwise the task is stored PENDING with the given fields and `source_url or url`, the job is queued at the back and marked pending, and no other task changes |
| `Worker.RetryTask` | backend/services/task_manager.py:365-410 | only a live FAILED task is reset to PENDING with no error or translations and re-queued; the job carries its content but neither the url nor the Notion flag |
| `Worker.RetryTaskRefetching` | backend/services/task_manager.py:365-410 | as `RetryTask`, but the queued job also carries the task's url |
| `Worker.CancelTask` | backend/services/task_manager.py:412-436 | the id always leaves the pending set; the answer is true, and the task becomes FAILED with the cancel message, exactly when it was pending, live and PENDING |
| `Worker.SplitContent` | backend/services/task_manager.py:611-633 | the chunks are those of the semantic splitter (which keeps a text that fits as one chunk) |
| `Worker.Resolve` | backend/services/task_manager.py:531-554 | the job's own content wins; with no content and a url the fetch decides; a failed fetch or empty content is an error with its message; a resolved content is never empty and keeps a given title |
| `Worker.WorkerStep` | backend/services/task_manager.py:470-503 | an iteration exits once stopped and drained, idles on an empty queue, re-queues and stops on shutdown, skips a job no longer pending, and otherwise unmarks and executes the job |
| `WorkerLaws.TranslateFromSettles` | backend/services/task_manager.py:635-698 | the translation loop leaves the task COMPLETED or FAILED with its chunks, content and creation time, and touches no other task |
| `WorkerLaws.TranslateFromCount` | backend/services/task_manager.py:659-698 | the loop keeps and extends the translated prefix; the task completes exactly when every chunk is translated; one request per appended translation plus one for a failed chunk |
| `WorkerLaws.CountedFailure` | backend/services/task_manager.py:689-695 | a chunk whose retries all fail ends the loop with the translated prefix as it was |
| `WorkerLaws.TranslateFromOrder` | backend/services/task_manager.py:659-683 | chunks are sent in index order from the first untranslated one, each with the last 500 characters of the previous translation as context |
| `WorkerLaws.TranslateFromOutputs` | backend/services/task_manager.py:666-680 | every appended translation is the successful outcome of the request for its chunk |
| `WorkerLaws.TranslateFromFailure` | backend/services/task_manager.py:689-695 | a FAILED task names the 1-based number of the failed chunk and the last error |
| `WorkerLaws.PrepareFacts` | backend/services/task_manager.py:529-566 | preparation leaves the task live and IN_PROGRESS with the resolved content and chunks, its translations kept and every other task unchanged |
| `WorkerLaws.ExecuteTaskTranslates` | backend/services/task_manager.py:505-595 | once the content resolves, executing a live task is the translation loop on the prepared record, resumed after its translated prefix |
| `WorkerLaws.ExecuteTaskSettles` | backend/services/task_manager.py:505-595 | executing a live task ends with it COMPLETED or FAILED and leaves every other task as it was |
| `WorkerLaws.ExecuteTaskAbsent` | backend/services/task_manager.py:520-524 | a job whose task is gone or expired makes no translator call and changes nothing but the expiry purge |
| `WorkerLaws.ExecuteTaskUnresolved` | backend/services/task_manager.py:536-554 | a failed fetch or empty content fails the task with that message before any translator call |
| `WorkerLaws.ExecuteTaskResumes` | backend/services/task_manager.py:556-698 | the prepared task holds the resolved content and its chunks; the requests go to the chunks after the translated prefix in order, each with the previous translation's tail |
| `WorkerLaws.SubmitThenCancel` | backend/services/task_manager.py:412-436 | a task just submitted can be cancelled at once |
| `WorkerLaws.CancelThenRetry` | backend/services/task_manager.py:365-436 | a cancelled task is FAILED, so a retry succeeds and puts it back in the pending set and at the back of the queue |
| `WorkerLaws.CancelledJobIsSkipped` | backend/services/task_manager.py:488-493 | a cancelled job is skipped when dequeued and the store is not touched |
| `WorkerLaws.RetryForgetsUrl` | backend/services/task_manager.py:395-401 | as written, retrying a URL task whose fetch failed queues a job that fails on empty content, whatever the fetcher would return |
| `WorkerLaws.RetryRefetches` | backend/services/task_manager.py:395-401 | with the url carried along, the retried job resolves as a fresh submission of that url does, and a task with content resolves as before |
| `Persistence.ResultPathIsNotSnapshot` | backend/services/task_persistence.py:51-53 | no task id makes a result file collide with the snapshot files |
| `Persistence.Serialize` | backend/services/task_persistence.py:192-212 | a record holds chunk counts and no texts, and has a result reference exactly when the task is COMPLETED |
| `Persistence.SerializeTasks` | backend/services/task_persistence.py:178-216 | one record per stored task, in the store's order |
| `Persistence.SaveSnapshot` | backend/services/task_persistence.py:142-176 | a refused write returns false and changes nothing; otherwise the snapshot file holds the store, the temporary file is gone, and no other file changes |
| `Persistence.SaveIsAtomic` | backend/services/task_persistence.py:161-167 | between writing the temporary file and the rename, the snapshot file is still the old one |
| `Persistence.Deserialize` | backend/services/task_persistence.py:299-365 | a readable record gives a task with its id, chunks recomputed from its content, no translations and no url; a non-object is unreadable |
| `Persistence.DeserializeSerialize` | backend/services/task_persistence.py:178-365 | reading a record back gives the task's metadata again, with the chunks recomputed and the translations dropped |
| `Persistence.RestoreToCache` | backend/services/task_persistence.py:367-370 | restoring a task overwrites any stored task with its id |
| `Persistence.LoadAndRecover` | backend/services/task_persistence.py:224-297 | no snapshot file recovers nothing; the count is the number of jobs queued, behind the jobs already queued |
| `Persistence.RecoverKeeps` | backend/services/task_persistence.py:256-282 | recovery adds or overwrites exactly the readable ids and leaves every other task as it was |
| `Persistence.RecoverRestores` | backend/services/task_persistence.py:256-282 | each readable record ends up stored, with IN_PROGRESS turned back to PENDING with no translations |
| `Persistence.RecoverQueues` | backend/services/task_persistence.py:256-286 | one job per readable PENDING or IN_PROGRESS record, in file order; each job's task is stored PENDING with no translations |
| `Persistence.LoadIsRecover` | backend/services/task_persistence.py:252-293 | loading a snapshot restores its records and queues and marks the recovered jobs |
| `Persistence.LoadCounts` | backend/services/task_persistence.py:224-297 | loading reports as many tasks as it read PENDING and IN_PROGRESS records |
| `Persistence.LoadQueues` | backend/services/task_persistence.py:224-297 | every job loading adds behind the queue is queued and marked pending |
| `Persistence.LoadRestores` | backend/services/task_persistence.py:224-297 | every readable record is restored as the recovery rule makes it |
| `Persistence.LoadRecovers` | backend/services/task_persistence.py:224-297 | loading counts the readable PENDING and IN_PROGRESS records, queues and marks each, and restores every readable record |
| `Persistence.SaveThenRecover` | backend/services/task_persistence.py:142-297 | saving and then loading brings every task back, rebuilt from its record and put through the recovery rule |
| `Persistence.SaveResult` | backend/services/task_persistence.py:402-425 | a successful save overwrites the task's result file; a refused one changes nothing |
| `Persistence.LoadResult` | backend/services/task_persistence.py:427-447 | a text comes back exactly when the task's result file exists |
| `Persistence.DeleteResult` | backend/services/task_persistence.py:449-466 | the result file is gone afterwards, whether or not it existed, and no other file changes |
| `Persistence.ResultPathInjective` | backend/services/task_persistence.py:416 | different tasks have different result files |
| `Persistence.LoadAfterSave` | backend/services/task_persistence.py:402-447 | a saved result reads back, and every other task's result is unchanged |
| `Persistence.LoadAfterDelete` | backend/services/task_persistence.py:427-466 | after a delete the result is gone and other results are unchanged |
| `Persistence.RetiredIds` | backend/services/task_persistence.py:484-488 | exactly the listed ids of COMPLETED or FAILED tasks created before the seven-day cut-off |
| `Persistence.RemoveEachLaw` | backend/services/task_persistence.py:490-498 | the loop removes exactly the listed tasks and their result files, and no other file |
| `Persistence.CleanupExpiredTasks` | backend/services/task_persistence.py:468-505 | exactly the retired tasks go, with their result files; the count is how many went; it is positive exactly when some task was retired; a snapshot is saved only then |
| `Persistence.CleanupSettles` | backend/services/task_persistence.py:468-505 | a second cleanup at the same time removes nothing and changes nothing |
| `Persistence.OnStatusChange` | backend/services/task_persistence.py:507-530 | a snapshot is saved in every case, and the store changes only by the expiry purge of a completion's lookup |
| `Persistence.CompletionSavesResult` | backend/services/task_persistence.py:523-527 | a live task's completion leaves its whole joined result readable from disk |
| `Chunking.NormalizeNewlines` | backend/services/chunking_service.py:188-189 | no carriage return is left, no non-whitespace character is lost or added, the text never grows, and text without a carriage return comes back unchanged |
| `Chunking.NormalizeIsTwoPasses` | backend/services/chunking_service.py:189-189 | the one-pass normalisation equals the two `replace` calls made in order: every "\r\n" becomes "\n", then every remaining "\r" becomes "\n" |
| `Chunking.SplitBlank` | backend/services/chunking_service.py:191-193 | splitting on blank-line separators gives at least one piece and loses no non-whitespace character |
| `Chunking.SplitBlankJoin` | backend/services/chunking_service.py:191-193 | non-empty stripped pieces with no blank line inside, joined by "\n\n", split back into exactly those pieces: each separator is cut where it stands and nowhere else |
| `Chunking.GroupKeeps` | backend/services/chunking_service.py:198-216 | the heading-section loop keeps every non-whitespace character of the parts, in order |
| `Chunking.GroupWithoutHeadings` | backend/services/chunking_service.py:211-216 | before any heading, every non-blank part becomes a paragraph of its own, stripped |
| `Chunking.SectionAbsorbs` | backend/services/chunking_service.py:211-214 | once a heading has opened a section, the following non-heading parts all join that section |
| `Chunking.HeadingOpensSection` | backend/services/chunking_service.py:203-210 | a heading closes the open section (joined by a blank line) and starts a new one holding the heading |
| `Chunking.NonBlank` | backend/services/chunking_service.py:222 | the final filter drops nothing from a list of non-empty stripped paragraphs |
| `Chunking.SplitParagraphs` | backend/services/chunking_service.py:174-222 | paragraphs are non-empty and stripped, and together hold exactly the text's non-whitespace characters in order |
| `Chunking.SplitParagraphsJoin` | backend/services/chunking_service.py:188-222 | paragraphs without headings, carriage returns or blank lines, joined by a blank line, come back as exactly those paragraphs |
| `Chunking.SplitParagraphsSection` | backend/services/chunking_service.py:203-220 | a heading followed by plain paragraphs comes back as one paragraph: the heading and its content joined by blank lines |
| `Chunking.StripNonEmpty` | backend/services/chunking_service.py:288 | stripping and dropping blank pieces keeps the non-whitespace content and leaves only non-empty stripped pieces |
| `Chunking.SplitSentences` | backend/services/chunking_service.py:273-288 | sentences are non-empty and stripped, hold the text's content in order; each but the last ends with a terminator and none holds a terminator followed by whitespace |
| `Chunking.SplitSentencesJoin` | backend/services/chunking_service.py:286-288 | stripped sentences with no terminator followed by whitespace inside, each but the last ending with a terminator, joined by single spaces, split back into exactly those sentences (so "a.b" stays one sentence) |
| `Chunking.CharCut` | backend/services/chunking_service.py:311-317 | the cut lies in 1..max_chars, and falls before max_chars only at a space past the middle of the window |
| `Chunking.SplitByChars` | backend/services/chunking_service.py:290-322 | no piece is longer than max_chars; the pieces hold the text's content in order; a short text comes back whole and an empty one gives no piece |
| `Chunking.SplitByCharsFirstCut` | backend/services/chunking_service.py:311-319 | the first piece ends at the last space past the middle of the window, or at the window's end exactly when there is no such space |
| `Chunking.CharPassAsWritten` | backend/services/chunking_service.py:302-320 | one pass of the loop for any integer max_chars: it stops exactly when the text fits, with the text as the last piece |
| `Chunking.CharPassStuckAtZero` | backend/services/chunking_service.py:302-320 | with max_tokens 0 a pass appends an empty piece and continues with the same text, so the loop never ends |
| `Chunking.CharPassStuckNegative` | backend/services/chunking_service.py:302-320 | with max_chars -3 the text "a" comes back unchanged after a pass |
| `Chunking.CharPassProgress` | backend/services/chunking_service.py:302-320 | with max_chars at least 1 each pass shortens the text and is the step `SplitByChars` takes |
| `Chunking.OverlapSentences` | backend/services/chunking_service.py:324-346 | no overlap when there are no paragraphs or the setting is not positive; otherwise one unit, the whole last paragraph when it has few enough sentences, and always a suffix of its content |
| `Chunking.OverlapUnitOf` | backend/services/chunking_service.py:338-346 | the overlap unit's content is a suffix of the last paragraph's; it is the whole paragraph when that has few enough sentences; it is non-empty and stripped when the paragraph is |
| `Chunking.Oversized` | backend/services/chunking_service.py:115-130 | an oversized unit closes the current group, emits all its pieces but the last, and continues from the last; content and budget are kept |
| `Chunking.Admit` | backend/services/chunking_service.py:132-144 | a group is closed exactly when it is non-empty and the unit would pass the budget; the next group starts from the seed; the running count stays the sum of the group |
| `Chunking.LargeStep` | backend/services/chunking_service.py:245-266 | one sentence step keeps the content, the running count and the budget of every closed group |
| `Chunking.OneSentenceIsCharSplit` | backend/services/chunking_service.py:235-239 | a paragraph of at most one sentence is split by characters |
| `Chunking.LargeFoldContent` | backend/services/chunking_service.py:245-266 | the sentence loop keeps every non-whitespace character, in order |
| `Chunking.LargeFoldKeeps` | backend/services/chunking_service.py:245-266 | the sentence loop keeps groups within budget and pieces non-empty and stripped |
| `Chunking.LargeGroupsFacts` | backend/services/chunking_service.py:224-271 | the groups of a large paragraph hold its content, fit the budget, and are non-empty for a non-empty paragraph |
| `Chunking.SplitLargeParagraphFacts` | backend/services/chunking_service.py:224-271 | the pieces hold the paragraph's content, there is at least one for a non-empty paragraph, and each is non-empty and stripped |
| `Chunking.SemanticStep` | backend/services/chunking_service.py:111-144 | one paragraph step leaves a non-empty current group whose running count is its token sum |
| `Chunking.SemanticStepCloses` | backend/services/chunking_service.py:133-144 | a group is closed exactly when it is non-empty and the paragraph would pass the budget, and the next group is seeded with the overlap |
| `Chunking.SemanticStepContent` | backend/services/chunking_service.py:111-144 | without overlap a step adds exactly the paragraph's content |
| `Chunking.SemanticStepBudget` | backend/services/chunking_service.py:111-144 | without overlap a step keeps every closed group within budget |
| `Chunking.SemanticFoldKeeps` | backend/services/chunking_service.py:111-144 | the paragraph loop keeps the running count and the soundness of the groups |
| `Chunking.SemanticFoldContent` | backend/services/chunking_service.py:111-148 | without overlap the paragraph loop keeps every non-whitespace character, in order |
| `Chunking.SemanticFoldBudget` | backend/services/chunking_service.py:111-148 | without overlap every group the loop closes is within budget |
| `Chunking.SplitBySemantic` | backend/services/chunking_service.py:99-100 | a text within the budget is returned whole |
| `Chunking.SplitBySemanticUnits` | backend/services/chunking_service.py:84-150 | a text that needs chunking yields non-empty stripped chunks, and none exactly when it is all whitespace |
| `Chunking.SplitBySemanticNoOverlap` | backend/services/chunking_service.py:84-150 | without overlap the chunks hold exactly the text's content in order, and every group of several paragraphs fits the budget |
| `Chunking.SemanticChunksContent` | backend/services/chunking_service.py:103-150 | joining groups with a blank line keeps their content |
| `Chunking.SemanticGroupsFacts` | backend/services/chunking_service.py:103-148 | without overlap the groups hold the text's content and fit the budget |
| `Chunking.SplitToChunkObjects` | backend/services/chunking_service.py:152-172 | one chunk object per chunk text, in order, with its index and its token count |
| `NotionText.SeparatorCut` | agent/tools/notion_publisher.py:344-349 | the first separator in list order whose last occurrence lies past the middle of the window decides the cut, just after that occurrence; none exactly when no separator lies past the middle |
| `NotionText.SplitPoint` | agent/tools/notion_publisher.py:341-354 | the split point lies past the middle of the window; it follows the preferred separator, else the last space past the middle, else it is the window's end |
| `NotionText.CutAt` | agent/tools/notion_publisher.py:356-357 | one cut yields a piece that fits a block and a strictly shorter rest, both stripped, losing only whitespace |
| `NotionText.SplitRemaining` | agent/tools/notion_publisher.py:336-357 | the loop's pieces all fit a block and hold the text's non-whitespace characters in order |
| `NotionText.SplitText` | agent/tools/notion_publisher.py:320-359 | a text that fits (even an empty one) comes back whole; a longer one becomes at least one piece, each within 2000 characters, losing only whitespace |
| `NotionText.LongTextPieces` | agent/tools/notion_publisher.py:336-357 | the pieces of a long text are stripped, and non-empty after the first (and the first too when the text is stripped) |
| `NotionText.Scan` | agent/tools/notion_publisher.py:173-202 | one translation per original |
| `NotionText.ScanShape` | agent/tools/notion_publisher.py:173-202 | one pair per quote block; each original is a quote block; each translation is empty or a stripped non-quote block |
| `NotionText.ParseBlocks` | agent/tools/notion_publisher.py:173-204 | as many pairs as quote blocks, with readable translations |
| `NotionText.ParseInterleavedMarkdown` | agent/tools/notion_publisher.py:155-204 | the two lists returned have the same length |
| `NotionText.ParseInterleave` | agent/tools/notion_publisher.py:155-204 | reading back well-formed interleaved quote/translation blocks gives exactly the pairs they were written from |
| `NotionText.QuoteWithoutTranslation` | agent/tools/notion_publisher.py:186-197 | a quote block followed by nothing or by another quote gets an empty translation |
| `NotionText.LeadingTextDropped` | agent/tools/notion_publisher.py:198-202 | a non-quote block with no quote before it leaves no trace |
| `NotionText.Pieces` | agent/tools/notion_publisher.py:267-274 | a blank text publishes no piece; otherwise its pieces fit and keep its content |
| `NotionText.BuildSpacers` | agent/tools/notion_publisher.py:265-280 | n pairs get exactly n-1 spacers, and the blocks do not end with a spacer unless the last pair publishes nothing |
| `NotionText.BuildFits` | agent/tools/notion_publisher.py:250-311 | no quote or paragraph block exceeds the 2000-character limit, whatever the texts' lengths |
| `NotionText.BuildKeepsText` | agent/tools/notion_publisher.py:250-311 | the quote blocks carry the originals' content and the paragraph blocks the translations', losing only whitespace |
| `NotionText.MetadataLines` | agent/tools/notion_publisher.py:214-231 | a source line exactly when a source URL is given, a domain line (with its display name) when a domain is given, and always the time line last |
| `NotionText.BuildMetadataBlocks` | agent/tools/notion_publisher.py:206-248 | always a callout whose text is the metadata lines joined by line breaks, ending with the time line, then a divider |
| `NotionText.MetadataReadBack` | agent/tools/notion_publisher.py:214-236 | when the caller's values hold no line break, splitting the callout's text at line breaks gives back exactly the metadata lines in order |
| `Schema.DropNone` | backend/schemas/translate_schema.py:82 | exactly the items whose value is not None survive, and nothing else |
| `Schema.GetDropNone` | backend/schemas/translate_schema.py:82 | after dropping the None values a key reads back its value when that was not None, else the default |
| `Schema.HasKeyDropNone` | backend/schemas/translate_schema.py:82 | after dropping the None values a key is present exactly when its value was not None |
| `Schema.Validate` | backend/schemas/translate_schema.py:40-67 | each check fails exactly on the inputs it names, the messages come in check order, the list is empty exactly when one of content and url is given, the domain is known and a given url starts with http:// or https://; a truthy non-string url raises |
| `Schema.PresenceErrorsExclusive` | backend/schemas/translate_schema.py:49-55 | the "neither" and "both" errors never come together |
| `Schema.RequestFromDict` | backend/schemas/translate_schema.py:69-78 | missing keys read as None, except domain ("tech") and sync_to_notion (False) |
| `Schema.RequestToDict` | backend/schemas/translate_schema.py:80-82 | exactly the non-None fields, with distinct keys |
| `Schema.RequestRoundTrip` | backend/schemas/translate_schema.py:69-82 | to_dict then from_dict restores a request exactly when its domain and Notion flag are not None |
| `Schema.SyncFromDict` | backend/schemas/translate_schema.py:132-138 | a missing task id reads as the empty string, a present one as stored; the title reads as stored, None when missing |
| `Schema.SyncValidate` | backend/schemas/translate_schema.py:125-130 | no error exactly when the task id is truthy, else exactly the one message |
| `Schema.SyncToDict` | backend/schemas/translate_schema.py:140-142 | exactly the non-None fields |
| `Schema.SyncRoundTrip` | backend/schemas/translate_schema.py:120-142 | to_dict then from_dict restores a sync request exactly when its task id is not None |
| `Schema.SyncNeedsTaskId` | backend/schemas/translate_schema.py:125-138 | a sync request without a task id is refused with the one message |
| `Schema.TranslateDataDict` | backend/schemas/translate_schema.py:85-99 | the eight field names in declaration order, each paired with that field's value, None included |
| `Schema.TranslateDataReadBack` | backend/schemas/translate_schema.py:85-99 | the keys are distinct, so task id, translated content, title and Notion url read back under their own names |
| `Schema.SyncDataDict` | backend/schemas/translate_schema.py:145-153 | both fields in declaration order; the url and the page id (None included) read back under their names |
| `Schema.ResumeDataDict` | backend/schemas/translate_schema.py:173-185 | exactly the field items whose value is not None, with distinct keys; task id, status and progress always present; partial result, original content and error present exactly when given and then read back |
| `Schema.EnvelopeDict` | backend/schemas/translate_schema.py:109-116 | success first and read back; data present exactly when given and read back; error present exactly when given and non-empty, and read back |
| `Schema.SuccessEnvelope` | backend/schemas/translate_schema.py:244-246 | the success helper builds the same dict as a response envelope holding the data |
| `Schema.ErrorEnvelope` | backend/schemas/translate_schema.py:249-251 | the error helper builds the same dict as a failed envelope holding the error body |
| `Schema.ErrorBody` | backend/schemas/translate_schema.py:212-224 | code and message first; details present exactly when given and non-empty, and then read back as given |
| `Schema.ErrorResponse` | backend/schemas/translate_schema.py:226-228 | success reads false, error reads the error body, and there is no data |
| `Schema.SuccessResponse` | backend/schemas/translate_schema.py:244-246 | success reads true, data reads the payload, and there is no error |
| `Schema.ValidationErrorShape` | backend/schemas/translate_schema.py:254-260 | a validation error always carries its details with the messages in order, under the VALIDATION_ERROR code |
| `Schema.RejectedRequest` | backend/schemas/translate_schema.py:40-67 | a request whose checks fail is answered with a non-empty list of messages and success false |
| `Settings.EnvInt` | config/settings.py:134-142 | the default when the variable is unset or not an integer, else the parsed integer |
| `Settings.EnvIntOfText` | config/settings.py:134-142 | a variable holding a number's decimal text reads back as that number, whatever the default |
| `Settings.EnvBool` | config/settings.py:145-150 | the default only when unset; a set value is true exactly when, lower-cased, it is true, 1, yes or on |
| `Settings.EnvBoolIgnoresDefault` | config/settings.py:145-150 | once the variable is set the default no longer matters, and an empty value reads as false |
| `Settings.EnvBoolCaseInsensitive` | config/settings.py:150 | the upper- and title-case spellings of the true words are accepted |
| `Settings.EnvList` | config/settings.py:153-158 | unset gives the default or []; a set value yields only non-empty, stripped, comma-free items |
| `Settings.StrippedItemsAppend` | config/settings.py:156-158 | stripping and dropping blanks works piece by piece: the items of a concatenation are each part's items, in order |
| `Settings.StrippedItemsMembers` | config/settings.py:156-158 | a text is among the items exactly when it is non-empty and some piece strips to it |
| `Settings.EnvListPieces` | config/settings.py:153-158 | a value written from comma-free pieces reads back as those pieces, stripped, blanks dropped, in order |
| `Settings.EnvListMembers` | config/settings.py:153-158 | a set value's list holds exactly the non-blank stripped pieces between its commas |
| `Settings.EnvListSpacedPair` | config/settings.py:153-158 | two items written as "a, b" read back as exactly [a, b] |
| `Settings.EnvListSpaced` | config/settings.py:153-158 | ACCESS_KEYS set to "k1, k2" gives ["k1", "k2"] |
| `Settings.EnvListRoundTrip` | config/settings.py:153-158 | clean items joined with commas read back as the same list |
| `Settings.ParseDomainConfig` | config/settings.py:161-166 | a missing name or prompt modifier reads as "", a present one as stored |
| `Settings.DomainConfigRoundTrip` | config/settings.py:161-166 | a domain written as its two fields parses back to itself |
| `Settings.ParseDomains` | config/settings.py:169-175 | only object-valued entries are kept, each under its own key |
| `Settings.ParseDomainsKeeps` | config/settings.py:169-175 | every object-valued entry is kept, parsed |
| `Settings.ParseChunkingConfig` | config/settings.py:178-184 | each missing field takes its default (semantic, 8000 tokens, 2 sentences), a present one is read as stored |
| `Settings.ChunkingConfigRoundTrip` | config/settings.py:178-184 | a chunking section written as its three fields parses back to itself |
| `Settings.EmptyChunkingIsDefault` | config/settings.py:28-33 | an empty chunking section gives the dataclass defaults |
| `Settings.ParseAuthConfig` | config/settings.py:236-242 | the ACCESS_KEYS list when it has items, else the YAML list, absent counting as empty |
| `Settings.BlankEnvKeysFallBack` | config/settings.py:236-242 | a blank ACCESS_KEYS does not override the YAML list |
| `Settings.ValidateConfig` | config/settings.py:322-350 | each check fails exactly on the configurations it names, and failures come in check order |
| `Settings.ConfigErrors` | config/settings.py:322-350 | one message per failed check, in check order, at most four |
| `Settings.MessageInjective` | config/settings.py:335-349 | distinct checks have distinct messages |
| `Settings.ConfigErrorsMessages` | config/settings.py:322-350 | a check's message is returned exactly when that check fails |
| `Settings.NotionOptional` | config/settings.py:338-340 | without a Notion API key no parent page is required |
| `Settings.ValidIff` | config/settings.py:322-350 | a configuration passes exactly when the Anthropic key is set, Notion is off or has its page, and there are access keys and domains |
| `Auth.ValidKeys` | backend/middleware/auth.py:56-66 | APP_CONFIG's keys whenever it is set, even an empty list, else the ACCESS_KEYS setting or [] |
| `Auth.ValidateAccessKey` | backend/middleware/auth.py:56-80 | with APP_CONFIG set, true exactly for its keys; otherwise true exactly for the ACCESS_KEYS setting's keys; false when neither is set |
| `Auth.ValidateIsRequireAllow` | backend/middleware/auth.py:26-80 | a non-empty key validates exactly when the decorator lets the request through |
| `Auth.RequireAccessKey` | backend/middleware/auth.py:26-51 | 401 without a key; 500 when no keys are configured; 401 for an unknown key; the request proceeds exactly when a non-empty key is among the configured ones, and that key is recorded |
| `Auth.Authenticate` | backend/middleware/auth.py:134-153 | 401 naming the header without a key; 401 for a key that does not validate; success exactly when the key validates; never a 500 |
| `Auth.MissingKeyBeforeConfig` | backend/middleware/auth.py:28-31 | without a key the answer is the same 401 whatever the configuration |
| `Auth.EntryPointsAgree` | backend/middleware/auth.py:26-51 | the decorator and authenticate admit exactly the same requests with the same key, and differ only when no keys are configured (500 against 401) |
| `Auth.EmptyConfigLocksOut` | backend/middleware/auth.py:33-43 | an APP_CONFIG with an empty key list rejects every request, even a key the separate setting would accept |
| `Prompts.SystemPrompt` | agent/prompts/translation_prompts.py:53-65 | the prompt starts with the fixed base, and is exactly the base when the modifier is empty |
| `Prompts.SystemPromptReadBack` | agent/prompts/translation_prompts.py:53-65 | the modifier can be read back out of the prompt, so different modifiers give different prompts |
| `Prompts.SystemPromptForDomain` | agent/prompts/translation_prompts.py:53-65 | an unknown domain leaves the base prompt; a known one adds its instructions under the domain heading |
| `Prompts.InfoLines` | agent/prompts/translation_prompts.py:104-117 | one line per given non-empty value, title first, then source, then domain (by its display name) last |
| `Prompts.InfoLinesReadBack` | agent/prompts/translation_prompts.py:104-117 | each given value sits on the line with its own label and reads back: title, source, and the domain's display name |
| `Prompts.NoInfoExactly` | agent/prompts/translation_prompts.py:119 | the "no information" line appears exactly when no value is given |
| `Prompts.TranslationPrompt` | agent/prompts/translation_prompts.py:68-124 | the template's fixed head, the article information and the content, in that order, and its fixed tail, with nothing else: the length is the sum of the parts |
| `Prompts.DomainNamesAgree` | agent/prompts/translation_prompts.py:111-116 | the prompt names a domain as the domain table does in Chinese |
| `Prompts.ContextText` | agent/prompts/translation_prompts.py:162 | never empty; the given context when there is one |
| `Prompts.PositionReadBack` | agent/prompts/translation_prompts.py:128 | the chunk number and total are printed so that they parse back |
| `Prompts.ChunkPrompt` | agent/prompts/translation_prompts.py:127-169 | the position, the context (or the opening note) and the content in template order, and the fixed tail, with nothing else: the length is the sum of the parts |
| `Prompts.OpeningOnlyWithoutContext` | agent/prompts/translation_prompts.py:162 | the opening note appears only for an empty context (or a context equal to it) |
| `Prompts.Sections` | agent/prompts/translation_prompts.py:196-199 | chunk i becomes the section headed with number i+1 |
| `Prompts.CombinePrompt` | agent/prompts/translation_prompts.py:172-201 | the fixed head and tail, with exactly the numbered sections joined by the rule between them; head and tail alone for no chunks |
| `Prompts.CombineHasSection` | agent/prompts/translation_prompts.py:194-201 | no chunk is lost: each occurs in the prompt inside the section carrying its number |
| `Prompts.JoinHasPart` | agent/prompts/translation_prompts.py:194-197 | every part occurs in the joined text |
| `Prompts.CombineSnoc` | agent/prompts/translation_prompts.py:196-199 | one more chunk appends one separator and a section numbered after the others |
| `Prompts.SectionNumberReadBack` | agent/prompts/translation_prompts.py:197 | a section's heading line carries its 1-based number, which parses back |
| `Domains.Lookup` | agent/prompts/domain_prompts.py:26-158 | a table entry exactly for the three keys, each with instructions and two examples |
| `Domains.DomainPrompt` | agent/prompts/domain_prompts.py:161-174 | empty exactly for an unknown key, else the key's instructions |
| `Domains.DomainName` | agent/prompts/domain_prompts.py:177-191 | the Chinese name for "zh", the English one otherwise, the key itself when unknown |
| `Domains.AvailableDomains` | agent/prompts/domain_prompts.py:194-201 | each key with its Chinese name, in table order |
| `Domains.DomainExamples` | agent/prompts/domain_prompts.py:204-217 | the key's two examples, or none for an unknown key |
| `Domains.NameIdentifiesKey` | agent/prompts/domain_prompts.py:177-201 | a known key is recovered from its Chinese name; an unknown key is shown as itself |
| `TranslationService.RetryText` | backend/services/translation_service.py:38-39 | a retry line exactly for a present non-zero value |
| `TranslationService.DataText` | backend/services/translation_service.py:40-41 | a data line whenever data is present, even empty |
| `TranslationService.EventLines` | backend/services/translation_service.py:33-41 | at most four field lines, none exactly when no field qualifies |
| `TranslationService.ToText` | backend/services/translation_service.py:31-43 | the field lines and the empty line joined by newlines, with a final newline |
| `TranslationService.EventReadBack` | backend/services/translation_service.py:31-43 | a client reading the event line by line gets back exactly the written fields and the blank line that ends it, when no value spans lines |
| `TranslationService.PageTitle` | backend/services/translation_service.py:463 | the given title, else the task's title, else the default; never empty |
| `TranslationService.PreparePublish` | backend/services/translation_service.py:425-471 | refusals for a missing API key, a missing parent page, an absent or expired task, in that order; the publisher is called exactly for a live completed task, with its joined translation, source and domain |
| `TranslationService.PublishToNotion` | backend/services/translation_service.py:410-483 | success exactly when the request is sent and the publisher succeeds |
| `TranslationService.PublishOnlyCompleted` | backend/services/translation_service.py:446-471 | a live task that is not completed is refused with its status and stays in the store; a completed one is sent with its whole translation |
| `TranslationService.StreamContext` | backend/services/translation_service.py:298-300 | the last 500 characters of the chunk's translation, or all of it when shorter |
| `TranslationService.StreamContextIsTail` | backend/services/translation_service.py:300 | the stream's context rule is the background worker's |
| `TranslationService.ChunkContexts` | backend/services/translation_service.py:262-300 | the first chunk gets an empty context and every later one the tail of the previous chunk's translation, as in the background worker |
| `Text.Strip` | backend/services/chunking_service.py:199 | the result has no whitespace at either end, keeps every non-whitespace character, is empty exactly for an all-whitespace text, and leaves a stripped text alone |
| `Text.RFind` | backend/services/chunking_service.py:315 | the last position where the pattern occurs, or -1 when it does not occur |
| `Text.Tail` | backend/services/task_manager.py:683 | the last n characters, or the whole text when it is shorter |
| `Text.SplitOn` | config/settings.py:158 | no piece contains the separator and joining the pieces with it gives the text back |
| `Text.SplitOfJoin` | backend/services/translation_service.py:43 | splitting joined parts at a separator none of them contains gives the parts back |
| `Text.ParseIntOfIntToString` | config/settings.py:140 | formatting an integer in decimal and parsing it back gives the integer |
| `Seqs.PySlice` | backend/services/chunking_service.py:315-320 | with non-negative bounds, the slice is the stretch between them clipped to the sequence |
| `Json.Get` | backend/schemas/translate_schema.py:73-77 | the default for a missing key, else the value stored under the key |
| `TaskStore.Put` | backend/services/cache_service.py:133 | dict assignment: the record is stored under the id, a new id goes last and an existing one keeps its place |
| `TaskStore.RemoveIds` | backend/services/cache_service.py:391-392 | exactly the given ids leave the store, the others keep their order, and the size drops by their number |
| `TaskStore.Replace` | backend/services/cache_service.py:196-230 | only the given record changes; the order and the settings stay |
| `TaskStore.InsertKeeps` | backend/services/cache_service.py:130-133 | every task besides the new one was stored before, unexpired, and is unchanged |
| `TaskStore.InsertBound` | backend/services/cache_service.py:130-133 | with a positive limit, inserting never takes the store past max_entries |
| `TaskStore.EvictedOldest` | backend/services/cache_service.py:405-414 | every evicted task was created no later than any task that stays |
| `TaskStore.PercentFacts` | backend/services/cache_service.py:53-58 | the percentage is never negative, at most 100 while no more chunks are translated than exist, and exactly 100 when all are |
| `TaskStore.ApplyProgress` | backend/services/cache_service.py:196-230 | successive progress updates keep the store valid |
| `TaskStore.ApplyProgressAppends` | backend/services/cache_service.py:196-230 | the task's translations grow by exactly the given chunks, its chunks stay, and it is COMPLETED once they cover its chunks |
| `TaskStore.ApplyProgressOthers` | backend/services/cache_service.py:196-230 | progress updates leave the order and every other task alone |
| `TaskStore.WithStatus` | backend/services/cache_service.py:511-512 | a sub-multiset of the tasks, all with the given status |
| `TaskStore.ByStatusAddsUp` | backend/services/cache_service.py:358-363 | the per-status counts add up to the number of tasks |
| `TaskStore.StatsOccurrence` | backend/services/cache_service.py:360-363 | a status is counted exactly when some stored task has it |
| `TaskStore.Items` | backend/services/cache_service.py:525-540 | one list item per task of the page, in order |
| `Worker.AttemptsFromFacts` | backend/services/task_manager.py:705-768 | at most three calls; the first success is returned; one back-off sleep between attempts and none after the last; when all fail the last error is the outcome; success exactly when some attempt succeeds |
| `Worker.TranslateFrom` | backend/services/task_manager.py:659-698 | the loop keeps the store valid and makes at most one request per remaining chunk |
| `Worker.TranslateChunks` | backend/services/task_manager.py:635-698 | the resumed loop keeps the store valid |
| `Worker.Prepare` | backend/services/task_manager.py:529-566 | the two preparation updates keep the store valid |
| `Worker.ExecuteTask` | backend/services/task_manager.py:505-595 | executing a job keeps the store valid; what it computes is stated by the WorkerLaws lemmas |
| `Persistence.Recover` | backend/services/task_persistence.py:247-297 | recovery over the snapshot's records keeps the store valid |
| `Persistence.RemoveEach` | backend/services/task_persistence.py:490-498 | the removal loop keeps the store valid and its settings |

## Left out

- `TaskStore.Progress`: computes `|translated| * 100 / |chunks|` exactly on integers. The source computes `int(len(translated) / len(chunks) * 100)` in floating point (backend/services/cache_service.py:53-58), which can come out one lower. For example, 29 of 100 chunks gives 28 in Python and 29 here.
- `Worker.ExecuteTask`: leaves out the exception handlers that turn an unexpected error into FAILED, both the "准备阶段失败" one (backend/services/task_manager.py:574-578) and the phase-2 one (backend/services/task_manager.py:591-595). The fetcher's and translator's failures are modelled as outcomes instead of exceptions.
- `Worker.ExecuteTask`: leaves out `_sync_to_notion` after completion (backend/services/task_manager.py:700-702, 839-915), because it calls the Notion API.
- `Worker.ExecuteChunkWithRetry`: returns the backoff delays it would sleep instead of sleeping. The time-out on each translator call (backend/services/task_manager.py:770-819) is part of the translator oracle's outcome.
- `Worker.EnvOk`: requires a chunk budget of at least one token. The source accepts any integer and loops forever at zero or below (see Findings).
- `Persistence.Deserialize`: is stricter than `_deserialize_task` (backend/services/task_persistence.py:349-358). A title, source url or error that is not a string or null makes the record unreadable, and so does a non-integer token count, domain or completed count. Python would store such a value as it is. Timestamps are integers (seconds), not ISO strings.
- `Persistence.LoadAndRecover`: a snapshot whose version differs from 1 only logs a warning in the source. The model ignores the version.
- `Prompts.SystemPrompt`: the base text keeps only the opening sentence of `SYSTEM_PROMPT` (agent/prompts/translation_prompts.py:12-50). The sections on abilities, principles, output format, the example and the special rules are left out; the domain slot and its heading are kept. The translation, chunk and merge templates are kept in full.
- `Domains.DomainPrompt`: each domain's modifier text is shortened to its first line. The examples table is kept in full.
- Chunking: most members require `maxTokens >= 1`, the corrected budget (see Findings).
- `Chunking.Config`: the tokenizer (tiktoken) is a function-valued field. Its result is trusted as an uninterpreted count.
- `Text.ParseInt`: accepts an optional sign, digits and surrounding Python whitespace. Python's `int()` also accepts underscores between digits and non-ASCII digits, which are left out.
- `Text.Lower`: folds only the ASCII letters, which covers every value `_get_env_bool` compares with.
- `TaskStore`: `get_progress` and `get_all_tasks` (backend/services/cache_service.py:272-305, 420-430) are read-only views of what `GetTask` and the store already expose. They are not modelled separately.
- `Worker`: `submit_task` and `submit_task_with_cache` (backend/services/task_manager.py:157-283) are older entry points that chunk before queueing. Only `submit_task_fast` is modelled.
- `Worker`: `start`, `shutdown`, `get_queue_size` and the event-loop thread are left out, because they are thread plumbing. The shutdown flag is part of the worker state.
- `Persistence`: the periodic snapshot thread (backend/services/task_persistence.py:96-140) and real file atomicity are left out. The file system is a map.
- `Chunking`: `estimate_chunks` (backend/services/chunking_service.py:348-366) is left out, because it is float arithmetic.
- `TranslationService`: the streaming progress percentages (backend/services/translation_service.py:274, 316) are float arithmetic and are left out. So are the async generators around them.
- `TranslationService`: the Notion API calls are left out, including `publish_markdown`/`publish` (agent/tools/notion_publisher.py:94-153, 361-373).
- `Schema`: `HealthResponse` (backend/schemas/translate_schema.py:231-240) is left out. It is a constant shape.
- `Settings.ParseAuthConfig`: takes the YAML `access_keys` as a list of strings. A value of another type, which the source passes through unchanged (config/settings.py:236-242), is not modelled.
- `Settings`: the retry, translation, cache, Notion-metadata, agent and server parsers and `load_config` (YAML and dotenv reading) are left out. They copy values with defaults.
- The singletons (`get_cache_service`, `get_task_manager`, `get_persistence_service` and the `shutdown_*` functions), logging, the HTTP routes and the web fetcher are left out.

## Behaviour kept as written

- When a unit is too large, `Chunking.SplitBySemantic` computes the overlap and then discards it (backend/services/chunking_service.py:114-128). The model does the same.
- `NotionText.BuildInterleavedBlocks`: when the last pair is blank in both texts, the page ends with the previous pair's spacer (agent/tools/notion_publisher.py:263-280).
- A PENDING URL task that has no content yet is recovered without its url, because the snapshot does not store it. It then fails on empty content, like the retry in the first finding.

## Findings

| source | as written | input that shows it | evidently intended | confidence | as-written member | corrected member |
|---|---|---|---|---|---|---|
| backend/services/task_manager.py:395-401 | `retry_task` builds the new job from `original_content` and drops the task's `url` | a FAILED task whose URL fetch failed, with original_content "" and url "http://x" | the retried job carries the url and fetches the page again | not executed | `WorkerLaws.RetryForgetsUrl` (on `Worker.RetryTask`) | `WorkerLaws.RetryRefetches` (on `Worker.RetryTaskRefetching`) |
| backend/services/chunking_service.py:302-322 | `max_chars = max_tokens * 3` with no check that it is positive; config/settings.py:178-184 accepts any integer | max_tokens 0 with text "a" (each pass appends "" and keeps "a"), or max_chars -3 | the token budget is at least 1, so each pass shortens the text and the loop ends | not executed | `Chunking.CharPassStuckAtZero` (and `Chunking.CharPassStuckNegative`, on `Chunking.CharPassAsWritten`) | `Chunking.CharPassProgress` (the step `Chunking.SplitByChars` takes with maxChars at least 1) |
