# Verified model of the retrieval service's core

The service answers questions over knowledge bases. Its hard logic sits around Redis, HTTP and a language
model; this project models that logic in Dafny 4.11 and proves what it promises. `dafny verify dfyconfig.toml`
checks everything.

| part of the service | modules |
|---|---|
| cancelling a stream across nodes | `StreamCancel`, `StreamCancelDelivery`, `StreamTaskManager`, `StreamTask` |
| selection under a budget, and packing of text | `IntentCap`, `TableSplit`, `ChunkPacking`, `FixedSize` |
| multi-channel retrieval | `FanOut`, `RankFusion`, `RetrievalScope`, `GraphQuota`, `BestByKey` |
| ingestion pipelines and their conditions | `IngestionEngine`, `Conditions` |
| query terms | `TermMapping` |
| leased Redis keys | `ExpirableSemaphore`, `ConsumeGuard` |
| log search output, graph file names | `LogTree`, `GraphFileSource` |
| Go's `strings` and `sort.SliceStable`, shared definitions and entities | `Text`, `StableSort`, `Basics`, `Intents` |

How things are modelled:

- Loops that update slices and maps are methods with loops, specified by a function or a predicate that has
  properties of its own. Objects whose fields change are classes.
- What several goroutines, nodes or processes do is a state machine: a `Step` for each Redis command and each
  section under a mutex (for two methods, named under "Left out", one step for the whole method), a total
  function that applies it, and a fold over a sequence of steps. A lemma about all sequences is a lemma about
  all interleavings.
- `float64` is `real`; a clock, a Redis failure, a search result or a lost message is a parameter or a step.

Where the code does less than its comments or names suggest, the model follows the code, and a lemma gives the
exact condition or a family of inputs:

- An empty requester may not cancel anything (`isRequesterAllowed`), although the comment at
  `stream_task_manager.go:342` says that it counts as the system.
- The broadcast joins ID and requester into one text, and the stop handler passes any text as ID. A request that
  is read back as another one, such as one for `a|u` without requester or for an ID with a blank in front, cancels
  a stream that nobody asked for. Runs are safe exactly if no request is misread (`StreamCancel.AuthorityIff`).
- A request of somebody else is accepted while the owner key is not there
  (`StreamCancelDelivery.LapsedOwnerAdmitsAnyone`), and its marker takes the place of the owner's; a stop that came
  before the stream is then lost (`StreamCancelDelivery.NoCancelIsLostIff`).
- A circular pipeline is reported as an error but leaves the status at Running. A run is reported as completed and
  leaves nodes out exactly if the start leads to an end and there is a cycle beside it
  (`IngestionEngine.PipelineSucceedsIff`).
- The tolerance of a table block is granted by its first row alone, so for a table above the tolerance the number
  of chunks depends on the order of its rows (`TableSplit.LongRowFirstOrLast`).
- A mapping to a prefix of its own term never changes anything (`TermMapping.ShorteningNeverApplies`), and the
  guard against expanding a text twice is not enough for every mapping; for which it is, is exact
  (`TermMapping.EveryTextExpandsOnceIff`).
- `capGraphChunks` with limit 0 caps nothing, so a directed graph search with a budget of 1, or without a
  supplement ratio, is unbounded (`GraphQuota.SearchIsBoundedIff`).
- Rows that share a node ID can give a narrower shared scope than the scan it replaces, exactly if some active
  collection is bound by no row that is the best one of its ID (`RetrievalScope.ScopesAgreeIff`).
- A negative overlap drops text between two fixed-size windows (`FixedSize.NothingLostIff`).
- In a string condition a missing operand counts as true; when that decides the answer is exact
  (`Conditions.MissingOperandDecidesIff`). Only the JSON form fails closed.
- A lease shorter than a millisecond is stored as one that has run out.
- A client whose clock is past the end of a lease in force takes away its permit, even if it is not itself one too
  many: clients with correct clocks can then break the bound (`ExpirableSemaphore.AcquireKeepsBoundIff`). The bound
  holds as long as there is no such client (`ExpirableSemaphore.AlwaysCoveredIff`).
- Handlers of a key exclude each other exactly as long as none of them outlives its mark
  (`ConsumeGuard.ExclusiveIffPunctual`); a late one that fails removes the mark of the handler that took over.

## Model

| member | source | states |
|---|---|---|
| StreamCancel.PayloadRoundTrip | internal/biz/rag/stream_task_manager.go:169-172 | a broadcast payload splits into the same ID and requester exactly when neither can be misread |
| StreamCancel.CancelledOnlyByOwnerOrSystem | internal/biz/rag/stream_task_manager.go:132-265 | in every run of any number of nodes in which no request is misread, with Redis failing, forgetting and losing messages, a stream is cancelled only after a request for its ID by the system or by its exact non-empty owner |
| StreamCancel.AuthorityIff | internal/biz/rag/stream_task_manager.go:132-265 | whatever requests may occur: all runs with them cancel only what was asked for if and only if none of them is read back from the broadcast as another request with an ID and a requester |
| StreamCancel.RunStemsFromRequests | internal/biz/rag/stream_task_manager.go:106-265 | the invariant behind it: while no request is misread, every marker, effective message, call and decision stems from a request |
| StreamCancel.MisreadRunCancels | internal/biz/rag/stream_task_manager.go:169-172 | any misread request, followed through marker, broadcast and delivery, cancels the task it is taken for |
| StreamCancelDelivery.PublishedCancelReachesTask | internal/biz/rag/stream_task_manager.go:106-230 | no lost cancel: with reliable delivery of the cancels of that ID to that node, and nobody else asking for it, a published and delivered cancel of the owner or the system has cancelled the stream once `register` has returned, in every interleaving of marker, broadcast, insert and marker read, whatever fails for other IDs |
| StreamCancelDelivery.DeliveredCancelCancels | internal/biz/rag/stream_task_manager.go:106-265 | the same with the names written out: if only `__system__` and the non-empty owner ask for the ID, in plain names, a delivered cancel of either has cancelled the registered task; the cancel of the system does so whoever owns the task, also if nobody does |
| StreamCancelDelivery.NoCancelIsLostIff | internal/biz/rag/stream_task_manager.go:106-230 | if the owner or the system may ask at all: reliable runs lose none of their cancels exactly if nobody else asks for the ID and the broadcast carries their names |
| StreamCancelDelivery.PlainNamesLoseNoCancelIff | internal/biz/rag/stream_task_manager.go:106-230 | for names that the broadcast carries unchanged: exactly if nobody else asks for the ID |
| StreamCancelDelivery.OverwrittenMarkerLosesCancel | internal/biz/rag/stream_task_manager.go:157-168 | a cancel delivered before the task is there, then one of anybody else, whose marker takes the place of the first: the task runs on |
| StreamCancelDelivery.LapsedMarkerLosesCancel | internal/biz/rag/stream_task_manager.go:157-168 | a cancel delivered before the task is there, and a marker that lapses before the task is registered: the task runs on |
| StreamCancelDelivery.LapsedOwnerAdmitsAnyone | internal/biz/rag/stream_task_manager.go:132-151 | once the owner key has lapsed, a stop of anybody is accepted |
| StreamCancelDelivery.RunMissesNothing | internal/biz/rag/stream_task_manager.go:106-265 | the invariant behind it: a registered stream is cancelled, about to be, or will hear of every finished cancel |
| StreamCancelDelivery.OwnerIsNeverRefused | internal/biz/rag/stream_task_manager.go:132-151 | the owner's own stop is never refused, whatever stands in Redis |
| StreamTaskManager.StreamTaskManagers.Register | internal/biz/rag/stream_task_manager.go:106-128 | `register` as code: its four sections in order, its effect on every part of the state, and the new stream is cancelled at once exactly if the marker can be read and names `__system__` or the non-empty owner |
| StreamTaskManager.StreamTaskManagers.IsCancellationMarked | internal/biz/rag/stream_task_manager.go:205-230 | answers whether the marker can be read and names `__system__` or the non-empty owner |
| StreamTaskManager.StreamTaskManagers.CancelTaskByUser | internal/biz/rag/stream_task_manager.go:132-151 | only a requester whom a readable owner key contradicts is refused; otherwise the cancel is published |
| StreamTaskManager.StreamTaskManagers.CancelTaskBySystem | internal/biz/rag/stream_task_manager.go:153-155 | a cancel of the system is published whatever the owner key says |
| StreamTaskManager.StreamTaskManagers.PublishCancel | internal/biz/rag/stream_task_manager.go:157-178 | the marker is set before the broadcast; without Redis the local stream is cancelled |
| StreamTaskManager.StreamTaskManagers.CancelOnNode | internal/biz/rag/stream_task_manager.go:232-265 | cancels the node's current stream of that ID exactly for `__system__` and for its non-empty owner, and nothing else |
| StreamTaskManager.StreamTaskManagers.HandleMessage | internal/biz/rag/stream_task_manager.go:86-102 | one turn of the listener is one delivery of the protocol |
| StreamTaskManager.StreamTaskManagers.Unregister | internal/biz/rag/stream_task_manager.go:180-193 | the local entry goes first, then both keys |
| StreamTaskManager.StreamTaskManagers.CancelledWithAuthority | internal/biz/rag/stream_task_manager.go:132-265 | after any sequence of calls without a misread request, a cancelled stream was asked for by its owner or the system |
| StreamTask.Task.BindSection | internal/biz/rag/stream_task_manager.go:292-296 | the section of `bindHandle` performs its step of the protocol: the handle is stored, and the caller learns whether the stream was cancelled before |
| StreamTask.Task.BindRest | internal/biz/rag/stream_task_manager.go:297-299 | behind the section the handle is cancelled if the stream was cancelled before |
| StreamTask.Task.BindHandle | internal/biz/rag/stream_task_manager.go:292-300 | both steps in order: the handle is cancelled at once if the stream was, and only then |
| StreamTask.Task.CancelSection | internal/biz/rag/stream_task_manager.go:308-317 | the section of `cancelTask` performs its step of the protocol: the flag is set and the current handle handed out |
| StreamTask.Task.EnterOnce | internal/biz/rag/stream_task_manager.go:309 | only the first call gets into `once` |
| StreamTask.Task.CancelRest | internal/biz/rag/stream_task_manager.go:319-324 | behind the section the context is cancelled, and the handle that was taken |
| StreamTask.Task.CancelTask | internal/biz/rag/stream_task_manager.go:308-334 | the first call performs all three steps and cancels the context once, any other does nothing |
| StreamTask.Task.CancelledAtMostOnce | internal/biz/rag/stream_task_manager.go:292-334 | of the object after any sequence of its parts: nothing is cancelled twice, and the latest handle exactly once when both calls have returned |
| StreamTask.NothingIsCancelledTwice | internal/biz/rag/stream_task_manager.go:292-334 | in every interleaving of any number of bindings and cancels no handle and no context is cancelled twice |
| StreamTask.LatestHandleIsCancelledOnce | internal/biz/rag/stream_task_manager.go:292-334 | once the cancel and the latest binding have returned, the latest handle was cancelled exactly once |
| StreamTask.OneBindingOneCancel | internal/biz/rag/stream_task_manager.go:292-334 | with one binding, its handle was cancelled exactly once |
| StreamTask.CancelledStays | internal/biz/rag/stream_task_manager.go:308-340 | the cancelled flag never reverts |
| IntentCap.CapTotalIntents | internal/biz/rag/intent.go:245-284 | under the cap nothing changes; above it each sub-question keeps a sub-multiset, by falling score and then by ID; the number kept is the cap, or that of all bests and all candidates with other IDs than theirs if that is less; every sub-question keeps its best if there is room, no dropped candidate comes before a kept one that is not a best, and with distinct IDs exactly the cap is kept and no selection of that size that represents everyone scores higher; without room exactly the best of the bests are kept |
| IntentCap.GreedyIsOptimal | internal/biz/rag/intent.go:257-283 | keeping the heads and filling from the top of the ranking beats every other representing selection of the same size |
| IntentCap.TakeHeads | internal/biz/rag/intent.go:258-271 | any representing selection can be exchanged into one with all heads without losing score |
| IntentCap.FillFromTheTop | internal/biz/rag/intent.go:273-283 | among selections with the same heads, filling from the top scores highest |
| IntentCap.CollectIntentCandidates | internal/biz/rag/intent.go:286-303 | all candidates, each tagged with its sub-question, ranked by score and then ID |
| IntentCap.TiesKeepOrder | internal/biz/rag/intent.go:286-303 | candidates that score the same under one ID keep the order of their sub-questions |
| IntentCap.ContainsIntentCandidate | internal/biz/rag/intent.go:305-312 | finds a candidate by sub-question and node ID |
| IntentCap.RebuildSubQuestionIntents | internal/biz/rag/intent.go:314-334 | each sub-question gets its retained scores, sorted, and keeps its text |
| IntentCap.Regrouped | internal/biz/rag/intent.go:314-334 | regrouping neither loses nor invents a retained candidate |
| TableSplit.NeverEarlyIsMinimal | internal/biz/rag/chunk.go:303-329 | a split that closes a group only when the next row does not fit has no more groups than any other split within row cap and budget |
| TableSplit.SplitTableRows | internal/biz/rag/chunk.go:299-329 | no rows make one empty group; otherwise the groups concatenate to the rows, keep cap and budget (or hold one row), and are the fewest possible |
| TableSplit.SplitTableData | internal/biz/rag/chunk.go:303-329 | the table loop on at least one row |
| TableSplit.SplitHtmlData | internal/biz/rag/chunk.go:371-398 | the HTML loop: the same with its fixed overhead, and the rendered chunks are the groups in their frame |
| TableSplit.SplitHtmlRows | internal/biz/rag/chunk.go:359-398 | fewer than two rows stay one chunk; otherwise the best split under the chosen budget, every rendered chunk within it or a single row |
| TableSplit.StaysWholeIff | internal/biz/rag/chunk.go:303-329 | a table stays one chunk exactly if it has one row, or no more rows than the cap which fit the tolerance together |
| TableSplit.TableChunksAre | internal/biz/rag/chunk.go:303-329 | each chunk holds at most as many rows as the cap, 50 by default, and is within the budget or has one row, and the next row would break either; the budget is the size, 512 by default, or the tolerance if that is larger, the table has no more rows than the cap and its first row is within it |
| TableSplit.HtmlChunksAre | internal/biz/rag/chunk.go:359-398 | the same for an HTML table, whose length as a whole is held against the tolerance; the chunks are its groups, rendered |
| TableSplit.RowsStandInOrder | internal/biz/rag/chunk.go:382-398 | a rendered chunk is the opening tag, the header row, its rows in order and the closing tag |
| TableSplit.LongRowFirstOrLast | internal/biz/rag/chunk.go:317-320 | two rows that fit the tolerance, though not the chunk size, and a third above the tolerance make two chunks if the long row is last and three if it is first |
| ChunkPacking.PackMergeableChunks | internal/biz/rag/chunk.go:612-668 | the output follows a plan: passed chunks unchanged, runs of contiguous inputs, a carried copy exactly when overlap and budget allow it; outputs are numbered from 0 |
| ChunkPacking.PackingIsLossless | internal/biz/rag/chunk.go:634-660 | carried copies aside, the runs are the input cut into segments: nothing lost, doubled or reordered |
| ChunkPacking.PiecesAre | internal/biz/rag/chunk.go:634-681 | only paragraphs, lists, images and mixed chunks below the size are joined; a run that another run follows was closed because the next chunk did not fit; the output before is carried exactly if it is such a run, is no longer than the overlap and leaves room for the next chunk |
| ChunkPacking.RunHoldsItsText | internal/biz/rag/chunk.go:634-660 | what a merged chunk holds: every part's text that is not blank stands in it at its own place, in order, with exactly a blank line between neighbours and nothing else; it keeps a type that all parts share and is mixed otherwise; a run of one part is that part |
| ChunkPacking.GeneratedNames | internal/biz/rag/chunk.go:661-666 | content and type stay, the index is the position, a missing or generated name becomes the position in decimal behind a prefix, and any other name stays |
| ChunkPacking.PackingKeepsBudget | internal/biz/rag/chunk.go:642-653 | every merged chunk keeps the budget, every other output is an input, and without overlap nothing is carried |
| ChunkPacking.OverlapTail | internal/biz/rag/chunk.go:790-808 | the longest tail of the buffer within the budget |
| ChunkPacking.ChunksContentLength | internal/biz/rag/chunk.go:810-819 | the length of the contents joined by blank lines |
| ChunkPacking.MergedLength | internal/biz/rag/chunk.go:683-702 | merging never makes contents longer than their joined length |
| FixedSize.ChunkText | internal/biz/rag/chunk.go:54-97 | the windows of the text, numbered, the last one merged if it is too short; defaults for a size of 0 or less |
| FixedSize.MergeSmallChunks | internal/biz/rag/chunk.go:99-115 | a short last chunk is appended to the one before it, all others stay |
| FixedSize.ShortTailIsMerged | internal/biz/rag/chunk.go:99-115 | on numbered windows: a short last one follows the one before it on a new line, under its number |
| FixedSize.WindowsRebuildText | internal/biz/rag/chunk.go:70-91 | no window exceeds the size, and laid over each other they give the text back |
| FixedSize.WindowsOverlap | internal/biz/rag/chunk.go:67-91 | the k-th window is the text from k steps on, where a step is the size less the overlap, or the size if the overlap is not smaller; the last one reaches the end; neighbours share exactly the overlap |
| FixedSize.NothingLostIff | internal/biz/rag/chunk.go:67-91 | every character is in some window exactly when the overlap is not negative or one window suffices |
| FanOut.OrderDoesNotMatter | internal/biz/rag/retrieve_multi.go:188-258 | every completion order of the same answers and timeouts collects the same list |
| FanOut.OneOutcomeForEachChannel | internal/biz/rag/retrieve_multi.go:247-250 | the collector ends with the one outcome of every enabled channel and nothing else |
| FanOut.OnlyAnswersContribute | internal/biz/rag/retrieve_multi.go:233-258 | failed, timed-out and empty channels contribute nothing |
| FanOut.EveryAnswerContributes | internal/biz/rag/retrieve_multi.go:252-258 | every other answer is collected |
| FanOut.SendersNeverBlock | internal/biz/rag/retrieve_multi.go:189-193 | the queue has room for every worker |
| FanOut.NeverStuck | internal/biz/rag/retrieve_multi.go:194-250 | until the collector is done some step is possible, unless a search without a timer is out |
| FanOut.RunsAreBounded | internal/biz/rag/retrieve_multi.go:194-250 | there are at most three steps for each enabled channel |
| FanOut.Collect | internal/biz/rag/retrieve_multi.go:252-259 | the collecting loop gives the contributions and their chunks in channel order |
| BestByKey.Add | internal/biz/rag/retrieve_multi.go:374-384 | one item keeps the invariant: one best item for each key, by first occurrence |
| BestByKey.DedupedIsUnique | internal/biz/rag/retrieve_multi.go:374-386 | what deduplication returns is determined by its input, and its keys are distinct |
| BestByKey.KeysAreInOrderOfOccurrence | internal/biz/rag/retrieve_multi.go:374-386 | a key that comes earlier in the result was met earlier in the input |
| RankFusion.Dedup | internal/biz/rag/retrieve_multi.go:360-388 | of the chunks in channel priority order, one for each key at its first place: the first of the highest-scored |
| RankFusion.DedupKeepsKeys | internal/biz/rag/retrieve_multi.go:360-388 | no key is lost, and none comes twice |
| RankFusion.DedupReadsInOrder | internal/biz/rag/retrieve_multi.go:360-402 | channels are read as directed, keyword, global, graph, then others, each kind as it came; without results the chunks are read |
| RankFusion.IndexChannels | internal/biz/rag/retrieve_multi.go:513-533 | for each key the channels that list it, each once, in order |
| RankFusion.ChannelsAre | internal/biz/rag/retrieve_multi.go:513-533 | the channels of a key are exactly those of the results that list it, each once, and a further result never changes what stands before |
| RankFusion.FirstChannelOf | internal/biz/rag/retrieve_multi.go:446-451 | a chunk is attributed to the first channel that lists it |
| RankFusion.Scores | internal/biz/rag/retrieve_multi.go:456-462 | the scores are the weighted reciprocal-rank sums, for exactly the listed keys |
| RankFusion.EachHitIsWorth | internal/biz/rag/retrieve_multi.go:456-495 | built up from no results: a further chunk of a channel, at rank r from 0, adds the configured weight of that channel divided by k + r + 1 to its own key and nothing to others |
| RankFusion.OneHitIsWorth | internal/biz/rag/retrieve_multi.go:456-495 | a key listed once, at rank r, has a score that times k + r + 1 is the weight of that channel |
| RankFusion.Fusion | internal/biz/rag/retrieve_multi.go:439-478 | without results nothing changes, with one the list is attributed and cut, otherwise it is rescored, sorted stably and cut |
| RankFusion.FusionDominance | internal/biz/rag/retrieve_multi.go:456-462 | a key that does no worse in every channel scores no less, and more if it does better in one with weight |
| RankFusion.FusedIsRanked | internal/biz/rag/retrieve_multi.go:439-478 | keys stay distinct, scores never increase, the length is the smaller of list and limit, and every output is an input with its fused score and the first channel that lists it, or as it was if none does |
| RankFusion.TiesKeepOrder | internal/biz/rag/retrieve_multi.go:472-477 | chunks with equal scores keep their order |
| RankFusion.PipelineRespectsScores | internal/biz/rag/retrieve_multi.go:360-478 | deduplication and fusion together, for any weights: evidence with a lower fused score never comes before, or survives without, evidence with a higher one |
| RankFusion.PipelineRespectsDominance | internal/biz/rag/retrieve_multi.go:360-478 | in particular evidence that is dominated in rank never comes before, or survives without, what dominates it |
| RankFusion.AgreementBeatsTopHitIff | internal/biz/rag/retrieve_multi.go:360-478 | the trade-off in the fused list: with equal weights, what two channels list at rank r comes before the top hit of one channel, and is not cut off while that stays, if r < k + 1, and behind it if r > k + 1; it scores higher exactly if r < k + 1 |
| RetrievalScope.EffectiveCollectionNames | internal/biz/rag/intent.go:65-86 | the trimmed distinct names, or the older single name |
| RetrievalScope.UniqueTrimmedAre | internal/biz/rag/graph.go:570-585 | the active collections are the trimmed non-blank names, each once |
| RetrievalScope.CollectionsAre | internal/biz/rag/intent.go:65-86 | a node searches its listed names, trimmed, or only if all are blank its single name |
| RetrievalScope.CandidatesAre | internal/biz/rag/retrieval_scope.go:102-112 | the candidates are, in order, the scored nodes that are bound to knowledge bases, reach the threshold and have a collection to search |
| RetrievalScope.KeysTellApart | internal/biz/rag/retrieval_scope.go:113-116 | two candidates are one exactly if they have the same ID, or without IDs the same collections, if no name holds a comma |
| RetrievalScope.EffectiveScopeIntents | internal/biz/rag/retrieval_scope.go:102-128 | the best eligible candidate of each key, by first occurrence |
| RetrievalScope.Resolve | internal/biz/rag/retrieval_scope.go:43-100 | the scope of these candidates: directed exactly with an eligible intent at the threshold and a live binding |
| RetrievalScope.DirectedIff | internal/biz/rag/retrieval_scope.go:56-99 | directed exactly if a candidate reaches the threshold, or that is not positive, and the best candidate of some key is bound to an active collection; the targets are exactly those collections, the top score is the highest, never below 0 |
| RetrievalScope.ScopePartitionsActive | internal/biz/rag/retrieval_scope.go:76-99 | targets and supplement are the active collections split in order; directed has a target, anything else has them all |
| RetrievalScope.GraphResolveScope | internal/biz/rag/graph.go:528-568 | the graph channel's own scan, which the shared scope replaces |
| RetrievalScope.ScopesAgreeIff | internal/biz/rag/graph.go:535-568 | scope and scan agree exactly when the threshold is not met or the best candidates of the keys bind every active collection that any candidate binds; a directed scope is never wider |
| RetrievalScope.ScopeRefinesGraphScan | internal/biz/rag/retrieval_scope.go:43-128 | they agree whenever equal keys mean equal collections, so whenever non-blank IDs determine the node |
| RetrievalScope.SharedIdNarrowsTheScope | internal/biz/rag/retrieval_scope.go:113-121 | two candidates with one ID and different collections: the scan targets both, the scope one |
| RetrievalScope.ResolveDirectedIntentIDs | internal/biz/rag/retrieve_multi.go:303-352 | the directed IDs from the scope, or from the candidates above the threshold |
| RetrievalScope.DirectedIdsAgreeIff | internal/biz/rag/retrieve_multi.go:303-352 | under a directed scope both ways give the same IDs exactly if no best candidate without an ID has joined names that read like an ID; the scope never gives more |
| RetrievalScope.ExactlyOneVectorChannel | internal/biz/rag/search_channels.go:70-91 | under every resolved scope exactly one of the two vector channels is enabled, the directed one under a directed scope |
| RetrievalScope.SplitScopeQuota | internal/biz/rag/retrieval_scope.go:145-157 | the parts add up to the budget, the directed part is at least 1, the supplement is positive exactly for a directed scope with a supplement, a ratio and a budget of 2, and is the rounded share unless clamped |
| GraphQuota.GraphScopeQuotas | internal/biz/rag/graph.go:587-600 | the parts add up to topK; the second is positive exactly if both caps are real, and is the rounded share unless clamped |
| GraphQuota.MergeGraphChunks | internal/biz/rag/graph.go:609-632 | one best chunk for each ID, sorted by score and ID, in whatever order the map is walked |
| GraphQuota.MergedIsUnique | internal/biz/rag/graph.go:621-631 | so the result does not depend on the order of the map |
| GraphQuota.CombineEvidence | internal/biz/rag/graph.go:504-517 | what a search returns from matched and unmatched evidence |
| GraphQuota.SearchReturns | internal/biz/rag/graph.go:502-516 | the first topK matched chunks; under a directed scope the best chunk of each ID among the first of both kinds, by falling score, equal scores by ID |
| GraphQuota.SearchIsBoundedIff | internal/biz/rag/graph.go:512-516 | a search returns at most topK chunks, for all evidence, exactly if it is undirected or topK is at least 2 and the ratio positive |
| IngestionEngine.Execute | internal/biz/rag/ingestion.go:151-256 | duplicates, no start and several starts are refused before any node; otherwise log, data, error and status are those of the walk; the status stays Running exactly for a refused configuration and a circular pipeline, and is Failed for any other error, which is recorded, and Completed without one |
| IngestionEngine.RunFrom | internal/biz/rag/ingestion.go:187-255 | the main loop is the walk, and it ends |
| IngestionEngine.ExecuteNode | internal/biz/rag/ingestion.go:194-241 | a disabled node or one whose condition fails is logged as skipped, a missing implementation or a failure ends the walk |
| IngestionEngine.LogTells | internal/biz/rag/ingestion.go:194-241 | what each entry of the log means: disabled exactly if the node is not enabled, unmet exactly if it is and its condition is false of the data at that point, otherwise the result that executing it there gives; the data is what the nodes before have made of it |
| IngestionEngine.LogEnds | internal/biz/rag/ingestion.go:187-255 | how the walk ends: at a failed node, an unknown type, a missing or a visited successor, or without error behind a node that stops or has no successor |
| IngestionEngine.FindStartNodes | internal/biz/rag/ingestion.go:361-370 | the nodes that no node names, in the order of their IDs |
| IngestionEngine.IndexNodes | internal/biz/rag/ingestion.go:161-171 | node map and referenced IDs, or the first duplicate |
| IngestionEngine.WalkIsAPath | internal/biz/rag/ingestion.go:187-255 | whatever the nodes do, the log is a chain from the start that visits no node twice |
| IngestionEngine.WalkEnds | internal/biz/rag/ingestion.go:187-255 | if all goes well the walk ends behind the last node, at a missing node or at a real cycle |
| IngestionEngine.BackwardsForever | internal/biz/rag/ingestion.go:161-185 | a set of nodes each named from outside what was met holds a cycle |
| IngestionEngine.PipelineSucceedsIff | internal/biz/rag/ingestion.go:151-256 | with distinct IDs, one start and nodes that succeed: the run succeeds exactly if the chain from the start comes to a node without successor, and then leaves a node out exactly if there is a cycle; a missing node is reported exactly if the chain comes to one, a circular pipeline exactly if it comes to neither |
| IngestionEngine.PipelineCompleteIffSound | internal/biz/rag/ingestion.go:151-256 | under the same hypotheses every configured node is executed exactly once and without error if and only if all references resolve and there is no cycle |
| IngestionEngine.DetachedCycleGoesUnnoticed | internal/biz/rag/ingestion.go:173-197 | for any three different IDs: the run from the first completes the run and the cycle beside it is never executed |
| Conditions.ValidIffNothingMalformed | internal/biz/rag/ingestion_condition.go:32-72 | structurally valid means that nothing evaluation would descend into is malformed |
| Conditions.FailsClosed | internal/biz/rag/ingestion_condition.go:25-30 | a malformed part anywhere makes the whole condition false, under a negation too |
| Conditions.ConnectivesMean | internal/biz/rag/ingestion_condition.go:140-172 | all, any and not are forall, exists and negation on valid parts |
| Conditions.DeMorgan | internal/biz/rag/ingestion_condition.go:140-172 | De Morgan's laws, for every list of conditions |
| Conditions.LeavesMean | internal/biz/rag/ingestion_condition.go:74-88 | nothing is true, a boolean is itself, a string is evaluated, a number and a list are false |
| Conditions.RuleMeans | internal/biz/rag/ingestion_condition.go:173-180 | a rule compares the trimmed field with its value, by `eq` if it names no operator; without a field it is false |
| Conditions.FirstKeyDecides | internal/biz/rag/ingestion_condition.go:140-180 | of all, any and not the first that is there decides, whatever else the object holds |
| Conditions.SplitConditionExpression | internal/biz/rag/ingestion_condition.go:280-305 | the scanning loop cuts at the first separator outside quotes, and so on behind it |
| Conditions.PiecesRejoin | internal/biz/rag/ingestion_condition.go:280-305 | untrimmed, the pieces rejoin to the expression |
| Conditions.PiecesAreWhole | internal/biz/rag/ingestion_condition.go:280-305 | no separator outside quotes is left in a piece |
| Conditions.QuotesHide | internal/biz/rag/ingestion_condition.go:280-305 | behind an opening quote, of either kind, no separator counts until an unescaped quote of that kind closes it |
| Conditions.NothingHidden | internal/biz/rag/ingestion_condition.go:280-305 | where no unescaped quote has opened, every occurrence of the separator counts |
| Conditions.PartsAreShorter | internal/biz/rag/ingestion_condition.go:280-305 | each part is strictly shorter, so evaluation ends |
| Conditions.NegationCoversTheRest | internal/biz/rag/ingestion_condition.go:98-100 | a leading `!` negates all that follows, disjunctions included |
| Conditions.EvaluatesToMeaning | internal/biz/rag/ingestion_condition.go:90-116 | a string is evaluated to the boolean meaning of its parse into not, or, and, literals and atoms, where a missing operand is true |
| Conditions.TextMeans | internal/biz/rag/ingestion_condition.go:90-116 | without connectives: blank is true, each of the twelve spellings of a boolean is what it says, any other text is an atom |
| Conditions.OrMeans | internal/biz/rag/ingestion_condition.go:101-107 | two texts with two bars between them evaluate to their disjunction, if the first leaves no quote open and does not begin with `!`, and neither holds such bars of its own outside quotes |
| Conditions.AndMeans | internal/biz/rag/ingestion_condition.go:108-116 | with `&&` between them, to their conjunction, if neither holds a connective of its own |
| Conditions.AndBindsTighter | internal/biz/rag/ingestion_condition.go:101-116 | a, two bars, b, `&&`, c is a or (b and c) |
| Conditions.MissingOperandDecidesIff | internal/biz/rag/ingestion_condition.go:90-116 | reading a missing operand as true rather than false changes the answer exactly where all other operands of the disjunctions around it are false and of the conjunctions true; the answer is then true but under an odd number of negations |
| Conditions.ReplaceMeans | internal/biz/rag/ingestion_condition.go:90-116 | the same for any part of a condition and anything put in its place |
| TermMapping.ApplyQueryTermMapping | internal/biz/rag/query_term_normalizer.go:133-160 | the scanning loop is the recursive rewrite, and it ends for all non-empty terms |
| TermMapping.PrefixExpandsOnce | internal/biz/rag/query_term_normalizer.go:148-153 | if the term is a prefix of the target, a second application changes nothing, for every text |
| TermMapping.ShorteningNeverApplies | internal/biz/rag/query_term_normalizer.go:148-153 | a mapping to a prefix of its term changes nothing |
| TermMapping.EveryTextExpandsOnceIff | internal/biz/rag/query_term_normalizer.go:133-160 | a mapping expands every text once exactly if a term is empty, one term begins with the other, or there is no place from which a hit could reach over a target that was put in |
| TermMapping.LeavesHitExpandsTwice | internal/biz/rag/query_term_normalizer.go:133-160 | each such place gives a text that a second application changes |
| ExpirableSemaphore.Semaphore.TryAcquire | internal/framework/ratelimit/expirable_semaphore.go:12-69 | one attempt: argument errors, purge of what has run out, and a permit exactly if fewer than max are left |
| ExpirableSemaphore.Semaphore.Release | internal/framework/ratelimit/expirable_semaphore.go:88-96 | removes the named permit only; an empty token does nothing |
| ExpirableSemaphore.AlwaysCoveredIff | internal/framework/ratelimit/expirable_semaphore.go:12-24 | in every run, whatever the clients' clocks show: every lease in force has its permit all along if and only if no client's clock is past the end of a lease in force when it runs the script |
| ExpirableSemaphore.LiveNeverExceedsMax | internal/framework/ratelimit/expirable_semaphore.go:12-24 | in every such run, so in every run of clients whose clocks are not ahead, no more than max leases are in force |
| ExpirableSemaphore.StaysBoundedIff | internal/framework/ratelimit/expirable_semaphore.go:12-24 | from a state of any run on, clients whose clocks are not ahead keep the bound exactly if every lease in force has its permit |
| ExpirableSemaphore.AcquireKeepsBoundIff | internal/framework/ratelimit/expirable_semaphore.go:61-69 | after one acquire, on a semaphore that need not be full, they still do exactly if its client's clock is not past the end of a lease in force |
| ExpirableSemaphore.AdmitsIffLeaseFree | internal/framework/ratelimit/expirable_semaphore.go:18-22 | while every lease in force has its permit, a client with an up-to-date clock is admitted exactly when a lease is free |
| ExpirableSemaphore.OldReadingNeverOveradmits | internal/framework/ratelimit/expirable_semaphore.go:61-69 | and with a clock reading from before the script ran, never one too many |
| ExpirableSemaphore.OthersKeepTheirLease | internal/framework/ratelimit/expirable_semaphore.go:12-96 | an acquire ends no other lease, a release only the one it names |
| ExpirableSemaphore.LeaseLasts | internal/framework/ratelimit/expirable_semaphore.go:12-69 | a granted lease, and its permit, are in force for exactly the whole milliseconds of its length |
| ExpirableSemaphore.LateReleaseIsHarmless | internal/framework/ratelimit/expirable_semaphore.go:88-96 | releasing a lease that has run out frees nobody's permit |
| ExpirableSemaphore.FullAdmitsIff | internal/framework/ratelimit/expirable_semaphore.go:12-24 | with all permits in use and every lease in force having one, a client is admitted exactly if its clock reading is past the end of a lease in force, whatever the reading |
| ExpirableSemaphore.FastClockOveradmitsIff | internal/framework/ratelimit/expirable_semaphore.go:62-63 | then one lease too many is in force at once; otherwise the bound stays |
| ExpirableSemaphore.SubMillisecondLeaseNeverCounts | internal/framework/ratelimit/expirable_semaphore.go:62-63 | a lease below a millisecond never counts, unless its client's clock is ahead |
| ConsumeGuard.Guard.TryBegin | internal/framework/idempotent/consume.go:28-66 | the answer from the old value and the mark that is set if there was none |
| ConsumeGuard.Guard.Complete | internal/framework/idempotent/consume.go:69-71 | marks the key consumed for its time to live |
| ConsumeGuard.Guard.Fail | internal/framework/idempotent/consume.go:74-76 | removes the mark |
| ConsumeGuard.ExclusiveIffPunctual | internal/framework/idempotent/consume.go:28-76 | all along a run at most one handler of a key is at work and nobody would be admitted beside it, if and only if the handlers of that key end before their time to live |
| ConsumeGuard.HandlersNeverOverlap | internal/framework/idempotent/consume.go:28-76 | if the handlers of a key end before their time to live, no two of them are at work together |
| ConsumeGuard.CompletedIsNotRepeatedIff | internal/framework/idempotent/consume.go:49-71 | after Complete nobody is admitted for its time to live, however the run goes on, exactly if no other handler of the key was at work |
| ConsumeGuard.FailedIsRetriedIff | internal/framework/idempotent/consume.go:49-76 | after Fail the next attempt at the key is admitted, however the run goes on, exactly if no other handler of the key was at work |
| ConsumeGuard.PunctualHandlersAreAlone | internal/framework/idempotent/consume.go:28-76 | handlers that end in time meet that condition |
| ConsumeGuard.MarkExpires | internal/framework/idempotent/consume.go:28-60 | an abandoned mark keeps others out for its time to live and no longer |
| ConsumeGuard.UnknownValueIsUnreachable | internal/framework/idempotent/consume.go:62-65 | the branch for an unknown value is never taken, in any run |
| ConsumeGuard.OverrunningHandlerFreesAnother | internal/framework/idempotent/consume.go:74-76 | after the first late tick of any run a second handler is admitted beside the late one, and when that fails a third beside the second |
| LogTree.FilterLinesByRegexes | log-agent/backend/log_reader.go:669-688 | the string lines that match every expression, in order |
| LogTree.FilterLogOutput | log-agent/backend/log_reader.go:626-667 | the filtered tree, counters included |
| LogTree.KeptAre | log-agent/backend/log_reader.go:669-688 | built up from no lines: a line is kept, behind those before it, exactly if it is a string that matches every expression |
| LogTree.FilterChangesOnlyStreams | log-agent/backend/log_reader.go:626-667 | at every place of the tree only the lines change, the counter, which is their number, and the mark for being cut off, which is cleared; without expressions nothing does |
| LogTree.LinesFiltered | log-agent/backend/log_reader.go:626-667 | all lines of the filtered tree are the matching lines of the tree, in order, at every depth |
| LogTree.FilteringIsIdempotent | log-agent/backend/log_reader.go:626-667 | filtering twice is filtering once |
| LogTree.SummarizeLogOutput | log-agent/backend/log_reader.go:724-776 | the accumulating summary of the tree |
| LogTree.SummaryCountsLines | log-agent/backend/log_reader.go:724-776 | its totals are the numbers of lines in the whole tree |
| LogTree.SummaryNames | log-agent/backend/log_reader.go:724-776 | its errors and its non-blank files are exactly those that are found anywhere in the tree |
| LogTree.SummaryIsNamedAfter | log-agent/backend/log_reader.go:726-773 | it has the name of the tree if that has lines or no result has any, otherwise that of the first result with lines |
| LogTree.PartsOfName | log-agent/backend/log_reader.go:821-829 | names join their trimmed parts by a slash, and blank parts leave no trace |
| LogTree.TargetNameIs | log-agent/backend/log_reader.go:726-733 | a target is named by service, environment, pod and container |
| LogTree.ErrorsAreInOrder | log-agent/backend/log_reader.go:735-770 | a summary lists the errors of the streams, then of each result, then of the raw output |
| LogTree.FilteredSummaryCountsMatches | log-agent/backend/log_reader.go:227-228 | after filtering they are the numbers of matching lines of the original tree |
| LogTree.AppendUniqueStrings | log-agent/backend/log_reader.go:840-855 | appends the values that `AppendUniqueOneByOne` says, in order |
| LogTree.AppendUniqueOneByOne | log-agent/backend/log_reader.go:840-855 | values are taken one after the other: a blank one and one that is there already change nothing, any other is appended |
| LogTree.CollectBatch | log-agent/backend/log_reader.go:147-186 | the collecting loop of a batch: incremental summary, the commands of what was answered, and an output tree with an entry for every job that answered or failed |
| LogTree.CommandsAre | log-agent/backend/log_reader.go:149-169 | the commands of a batch are those of what was answered, in order |
| LogTree.WordsOfCommand | log-agent/backend/log_reader.go:169 | the words of a command stand in order with a space between two |
| LogTree.BatchReports | log-agent/backend/log_reader.go:148-168 | the summary is named batch, counts its jobs, and its errors are exactly those of the answers and, for each failed job, where it ran and why it failed |
| LogTree.BatchAgreesWithItsTree | log-agent/backend/log_reader.go:147-186 | incremental line totals and files equal the summary of the batch's own output; the errors agree exactly if no job failed |
| GraphFileSource.ParseIffMatches | internal/biz/rag/graph.go:33-54 | parsing answers these names exactly when the last path component matches the pattern with them |
| GraphFileSource.RoundTripIff | internal/biz/rag/graph.go:36-54 | encoding and parsing gives the trimmed names back exactly for a non-empty collection without slash or newline and a non-empty decimal ID |
| GraphFileSource.RoundTrip | internal/biz/rag/graph.go:36-54 | below any directory and behind any file extension |
| GraphFileSource.ExtensionIff | internal/biz/rag/graph.go:33 | a word behind a dot extends an extension exactly if it is of ASCII letters and digits and not empty |
| GraphFileSource.EncodeIsInjective | internal/biz/rag/graph.go:36-38 | different such names have different encodings |

## Left out

- The SSE events of finishing and cancelling a stream, the payload function and the heartbeat: `framework/sse` is not part of this model.
- StreamCancelDelivery.PublishedCancelReachesTask: Redis failures, lost messages and expiry of the marker are excluded by its hypotheses for this ID and node, as the code cannot then keep the promise; the authority theorem allows them. Requests of others for this ID are excluded too, as `NoCancelIsLostIff` shows they must be.
- StreamCancel.CancelledOnlyByOwnerOrSystem: `cancelLocal` and `isCancellationMarked` are one step each. That another task takes the ID between the lookup and the cancel of `cancelLocal`, or that a task is cancelled between its own check and the marker's, is not modelled; the owner of a task never changes and its cancelled flag never reverts.
- StreamTask.Task.CancelTask: a second caller that waits inside `once` for the first is not modelled, nor is a nil handle; the number of `bindHandle` calls is a parameter of the object.
- StreamTaskManager.StreamTaskManagers.Register: methods of the class run one at a time; interleavings are the subject of the two protocol modules.
- `setRedisClient` and `close`: which nodes have a Redis client is fixed in a run.
- ChunkPacking.PackMergeableChunks: embedding texts, outline paths, assets, provenance and metadata of merged chunks are not modelled, and the block type is the effective one.
- Building blocks into chunks, list blocks, Markdown tables and the scanning of HTML rows: rows and chunks are inputs.
- RankFusion.Fusion: attribution and sorting are done on values; that the code writes attribution into the caller's slice is not captured. Chunk keys are taken as given, so the hash of a text without ID is abstract.
- Rounding of `float64` in scores, quotas and thresholds: arithmetic is exact.
- FanOut.OrderDoesNotMatter: latency fields and the choice between a ready answer and a fired timer are left to the schedule.
- RetrievalScope.Resolve: a nil resolver, a nil backend and an error of the knowledge-base listing are not modelled.
- RetrievalScope.ExactlyOneVectorChannel: what the channels decide without a shared scope is a parameter.
- TermMapping.ApplyQueryTermMapping: paging, caching and sorting of mappings, and the chaining of several mappings.
- Conditions.SplitConditionExpression: what one comparison answers, field paths and literals are parameters; reading an object is modelled by its six known entries.
- IngestionEngine.ExecuteNode: nodes and conditions are functions of the data. A node is handed the whole context, so one could write its status and logs; no node of the repository does, and it is not modelled. Nor is a nil context.
- ExpirableSemaphore.Semaphore.TryAcquire: the polling of `Acquire` is a sequence of attempts; one maximum for all clients of a semaphore and tokens that are never used twice are assumed.
- ConsumeGuard.Guard.TryBegin: Redis failures other than a rejected time to live.
- LogTree.FilterLogOutput: the tree is a value; the code edits its maps in place. Regular expressions and JSON decoding are abstract, and the workers of a batch fill their slots as in `FanOut`.
- GraphFileSource.ParseIffMatches: characters are code points, so invalid UTF-8 is not modelled.
- HTTP, database, Milvus, LightRAG, language-model and rerank calls, prompts, configuration, tracing, `lock.go`, demo tools and page arithmetic: input and output, or easy members.
