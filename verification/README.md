# A verified model of the MLC LLM serving engine

MLC LLM serves language models. Its C++ engine (`cpp/serve`, `cpp/tokenizers`, `cpp/support`)
keeps many requests in flight, shares their common prompt prefixes in a paged radix tree, streams
text that may still be taken back, and drafts tokens ahead of the large model. This project models
the parts of it that hold the most state and proves, for every input and every run, what they are
for. Nothing here executes the engine.

| file | what it models |
|---|---|
| `RadixPages.dfy`, `RadixSteps.dfy`, `RadixTree.dfy` | the paged radix tree: page pool, split, merge, match, and the five operations as a refinement of a plain map |
| `PrefixCache.dfy` | active and kept sequences, lazy extension, reuse, fork, eviction |
| `Prefill.dfy`, `PromptData.dfy` | cutting inputs into chunks, splitting a prompt, starting a request from the prefix cache in step with the KV caches |
| `StopStrings.dfy` | online matching of several stop strings and the release of tokens |
| `RequestState.dfy`, `Retokenize.dfy`, `Speculative.dfy` | committed tokens, KV cache and stream: penalties, jump-forward with retokenization, one draft and verify round with a chain or a tree of draft tokens |
| `Queues.dfy`, `SequenceIds.dfy`, `Scheduler.dfy` | waiting and running queue, prefill, decode, preemption, finish, abort, and the ownership of sequence ids |
| `HandOff.dfy` | producers, loops, mutex and condition variable as interleaved single steps |
| `Encoding.dfy`, `PrefixMask.dfy` | UTF-8 and escape codecs, the prefix-token mask |
| `Lists.dfy`, `Tokens.dfy` | shared facts about sequences, shared names |

Check the project with `dafny verify dfyconfig.toml`.

## How to read the model

* An object whose fields the engine updates is a class; a container it mutates is a field. Each
  method is proved against a value-level specification, and the invariants are predicates over
  values, so that a step is one lemma.
* The text a page spells, the tokens released so far, the text streamed, the holder of an id are
  ghost fields. They tie the fields to what the operations mean and are never read by the code.
* `PagedRadixTree.Stored()` is the plain map that the tree stands for. `PrefixCache.View()` is the
  content of a cache that extends at once; all contracts of the cache are stated on it.
  `PrefixCache.Run` says for whole runs that lazy extension cannot be told from eager extension.
* The sampler, the tokenizer and the models appear through what they may answer: any token, any
  encoding whose token texts add up to the string, any number of free pages, an accepted prefix of
  the draft and one more token. A KV cache is the sequence of what was appended to it.

## What the code does differently from its description

* `TryFreeMemory` takes the first entry of an unordered map, so the sequence it drops is an
  arbitrary kept one, not the oldest. The contracts allow any choice.
* `SplitData` leaves the right part reversed when the cut falls between two items. `SplitBetween`
  says when the parts still make up the prompt: if at most one of the items after the cut takes up
  any positions, and only then if these items begin differently. `SplitSafeIff` is the exact
  condition for a caller that looks at kinds and lengths alone; `SplitSwaps` is a prompt that is
  not kept.
* A request that is aborted while it only waits never gives its id back, and neither does a
  preempted request whose sequence is not in the prefix cache; with the prefix cache disabled that
  is every preempted request. `Abort` and `PreemptLast` state exactly when this happens,
  `AbortLosesId` and `PreemptLosesId` are instances. The ids stay out of circulation; no id is ever
  used twice.
* A decode after a jump forward may replace the sampled token by nothing when the token has no text;
  then the next decode has nothing to feed. `CommitTokenMayRetokenize` states the exact condition,
  `SwallowingRun` is a run in which it happens, `TextIsNotSwallowed` says that a token with a text
  is safe.
* The exit flag is stored under the mutex of the instruction loop only. The instruction loop cannot
  sleep through it (`ExitNeverMissed`). The stream loop can (`ExitCanBeMissed`), exactly when the
  notification falls between its test of the flag and its sleep (`ExitMissedRuns`).
* The UTF-8 parser accepts overlong forms and values above 0x10FFFF. `ReprintedIff` says by the
  first two bytes which accepted sequences are printed back.
* A `\x` escape swallows every following hexadecimal digit. `EscapedReadBackIff` gives the exact
  condition for the round trip.

## Model

| member | source | states |
|---|---|---|
| `RadixTree.Run` | cpp/serve/radix_tree.cc:456-795 | any accepted run from a fresh tree: the tree stands for the plain map that the same run builds, is well formed, and uses exactly the pages reachable from the root; an empty map leaves only the root |
| `RadixTree.Perform` | cpp/serve/radix_tree.cc:543-682 | each operation does to the tree what the map operation does to the map, and nothing else |
| `RadixTree.PagedRadixTree.constructor` | cpp/serve/radix_tree.cc:467-475 | the fresh tree is well formed and stores nothing |
| `RadixTree.PagedRadixTree.NewPageBlock` | cpp/serve/radix_tree.cc:439-450 | a new block makes free pages available and keeps free and used pages apart and complete |
| `RadixTree.PagedRadixTree.Allocate` | cpp/serve/radix_tree.cc:365-379 | the page handed out was free and is in use by nobody |
| `RadixTree.PagedRadixTree.Free` | cpp/serve/radix_tree.cc:385-390 | the freed page is the only one that joins the free list |
| `RadixTree.PagedRadixTree.PopSequence` | cpp/serve/radix_tree.cc:189-212 | takes exactly the named sequence out; its page still spells its tokens |
| `RadixTree.PagedRadixTree.MergePage` | cpp/serve/radix_tree.cc:713-732 | joining a page with its only child changes no stored sequence and frees the child's page |
| `RadixTree.PagedRadixTree.CutPage` | cpp/serve/radix_tree.cc:739-755 | cutting a page moves the tail, the children and the ids to a new page and changes no stored sequence |
| `RadixTree.PagedRadixTree.SplitPage` | cpp/serve/radix_tree.cc:739-767 | whatever is merged around the cut, the returned page ends exactly at the cut, its only child starts with the token after the cut, and no stored sequence changes |
| `RadixTree.PagedRadixTree.FindChild` | cpp/serve/radix_tree.cc:283-288 | finds the child that starts with the token, or shows that none does |
| `RadixTree.PagedRadixTree.MatchInPage` | cpp/serve/radix_tree.cc:337-343 | the length of the longest common prefix of page and tokens |
| `RadixTree.PagedRadixTree.MatchSequence` | cpp/serve/radix_tree.cc:775-794 | the walk stops where no page goes on with the tokens; each round consumes at least one |
| `RadixTree.PagedRadixTree.HasSequence` | cpp/serve/radix_tree.cc:483-483 | true exactly for the stored ids |
| `RadixTree.PagedRadixTree.GetSequenceLength` | cpp/serve/radix_tree.cc:524-532 | the length of the stored sequence, summed along the parents |
| `RadixTree.PagedRadixTree.GetSequence` | cpp/serve/radix_tree.cc:491-503 | the stored sequence, filled in from the back |
| `RadixTree.PagedRadixTree.ForkSequence` | cpp/serve/radix_tree.cc:543-562 | the new id gets the first tokens of the parent, all other sequences stay |
| `RadixTree.PagedRadixTree.AddSequence` | cpp/serve/radix_tree.cc:568-573 | the new id gets the empty sequence, all other sequences stay |
| `RadixTree.PagedRadixTree.ExtendInPage` | cpp/serve/radix_tree.cc:592-597 | the leaf takes as many tokens as fit; its text grows by exactly these |
| `RadixTree.PagedRadixTree.ExtendByPage` | cpp/serve/radix_tree.cc:599-609 | one more page below, filled with the next tokens |
| `RadixTree.PagedRadixTree.ExtendSequence` | cpp/serve/radix_tree.cc:581-613 | the tokens are appended to the named sequence, all other sequences stay |
| `RadixTree.PagedRadixTree.RollBackPage` | cpp/serve/radix_tree.cc:632-648 | one round of the roll back leaves a page and frees it when nothing needs it |
| `RadixTree.PagedRadixTree.RollBackSequence` | cpp/serve/radix_tree.cc:621-661 | the named sequence loses its last tokens, all other sequences stay |
| `RadixTree.PagedRadixTree.RemoveSequence` | cpp/serve/radix_tree.cc:668-682 | the named id is gone, all other sequences stay, and the pages it alone needed are free |
| `RadixTree.PagedRadixTree.Iterate` | cpp/serve/radix_tree.cc:259-263 | visits every sequence below the siblings once |
| `RadixTree.PagedRadixTree.FindAllChildSequence` | cpp/serve/radix_tree.cc:242-253 | lists exactly the sequences at or below the page, each once |
| `RadixTree.PagedRadixTree.MatchPrefix` | cpp/serve/radix_tree.cc:510-516 | the maximum common prefix length over all stored sequences and, when positive, exactly the ids that attain it |
| `RadixPages.UsedIsReachable` | cpp/serve/radix_tree.cc:365-390 | every used page is reached from the root |
| `RadixPages.ReachableIsUsed` | cpp/serve/radix_tree.cc:365-390 | every page reached from the root is a used one |
| `RadixPages.PagesNeedSequences` | cpp/serve/radix_tree.cc:668-682 | without sequences there are no pages but the root |
| `RadixPages.SiblingsBelowDisjoint` | cpp/serve/radix_tree.cc:133-300 | no page lies below two siblings |
| `RadixPages.EdgeIsUnbranched` | cpp/serve/radix_tree.cc:133-300 | reading one token into a page already fixes the whole page: every text that gets there goes on below it |
| `RadixPages.PrefixIsAnc` | cpp/serve/radix_tree.cc:133-300 | a page's text is a prefix of another's exactly when it is an ancestor |
| `RadixSteps.MergeKeeps` | cpp/serve/radix_tree.cc:713-732 | a merge keeps links, distinct first tokens, page sizes, id lists and contents |
| `RadixSteps.SplitKeeps` | cpp/serve/radix_tree.cc:739-755 | a split keeps the same |
| `RadixSteps.GraftKeeps` | cpp/serve/radix_tree.cc:599-609 | hanging a new page below a page keeps the same |
| `RadixSteps.PruneKeeps` | cpp/serve/radix_tree.cc:632-648 | unhooking an unused leaf keeps the same |
| `RadixSteps.StopIsLongest` | cpp/serve/radix_tree.cc:775-794 | where the match stops, every page's text agrees with the tokens no further, and just as far exactly for the pages below |
| `PrefixCache.PrefixCache.ExtendSequence` | cpp/serve/prefix_cache.cc:147-149 | queueing an extension is, from outside, the extension itself |
| `PrefixCache.PrefixCache.CommitSequenceExtension` | cpp/serve/prefix_cache.cc:151-165 | moving the queue into the tree cannot be seen from outside |
| `PrefixCache.PrefixCache.RollBackSequence` | cpp/serve/prefix_cache.cc:174-178 | the sequence as extended loses its last tokens, all other sequences stay |
| `PrefixCache.PrefixCache.RecycleSequence` | cpp/serve/prefix_cache.cc:188-213 | the sequence is kept under its window, or removed; at the limit exactly one other kept sequence goes; all others keep state and window |
| `PrefixCache.PrefixCache.TryFreeMemory` | cpp/serve/prefix_cache.cc:222-240 | succeeds exactly when a sequence is kept, and removes one kept sequence; all others keep state and window |
| `PrefixCache.PrefixCache.MakeRoom` | cpp/serve/prefix_cache.cc:194-199 | one kept sequence goes exactly when their number has reached the limit |
| `PrefixCache.PrefixCache.Reuse` | cpp/serve/prefix_cache.cc:266-273 | a kept sequence becomes active, cut to the matched length |
| `PrefixCache.PrefixCache.FindShortest` | cpp/serve/prefix_cache.cc:85-98 | the shortest kept candidate under the same window, or none exists |
| `PrefixCache.PrefixCache.FindExact` | cpp/serve/prefix_cache.cc:72-81 | a kept candidate under the same window that is matched as a whole, or none exists |
| `PrefixCache.PrefixCache.FindForkable` | cpp/serve/prefix_cache.cc:112-126 | a candidate without a window, or none exists |
| `PrefixCache.PrefixCache.Decide` | cpp/serve/prefix_cache.cc:54-138 | the answer follows from the contents and tables: longest prefix, reuse before fork before new |
| `PrefixCache.PrefixCache.DecideWithWindow` | cpp/serve/prefix_cache.cc:69-81 | with a sliding window, only a kept sequence that is matched as a whole is reused |
| `PrefixCache.PrefixCache.DecideWithoutWindow` | cpp/serve/prefix_cache.cc:82-132 | without one, the shortest kept sequence is reused if nearly all of it matches |
| `PrefixCache.PrefixCache.DecideToFork` | cpp/serve/prefix_cache.cc:110-138 | otherwise a sequence without a window is forked, or a new one starts |
| `PrefixCache.PrefixCache.Enact` | cpp/serve/prefix_cache.cc:58-138 | tree and tables follow the answer |
| `PrefixCache.PrefixCache.InsertSequence` | cpp/serve/prefix_cache.cc:46-139 | one step of the eager cache; the sequence the prompt goes on with is active under the prompt's window and holds the matched part, which is never the whole prompt; every other sequence keeps contents, state and window; reuse without a window loses less than a tenth |
| `PrefixCache.InsertEffect` | cpp/serve/prefix_cache.cc:58-138 | the same, told from the answer alone |
| `PrefixCache.RecycleEffect` | cpp/serve/prefix_cache.cc:188-213 | what recycling does to states, windows, contents and stamps: the newest stamp is the greatest |
| `PrefixCache.KeptIsReused` | cpp/serve/prefix_cache.cc:72-109 | a kept sequence that alone matches a prompt but its last token, under the same window, is taken over whole |
| `PrefixCache.OtherWindowIsNot` | cpp/serve/prefix_cache.cc:72-138 | kept under another window it is not taken over, and with either window in use the prompt starts anew |
| `PrefixCache.ActiveIsForked` | cpp/serve/prefix_cache.cc:110-132 | an active sequence without a window that alone matches is forked |
| `PrefixCache.ComesAndGoes` | cpp/serve/prefix_cache.cc:46-213 | a prompt that comes, is extended and finished is kept with its text under its window |
| `PrefixCache.ComesBack` | cpp/serve/prefix_cache.cc:46-213 | when it comes again with one more token and nothing else matches as far, it is taken over whole |
| `PrefixCache.MatchedAsFar` | cpp/serve/prefix_cache.cc:54-63 | a match is as long as any sequence allows; without a common prefix the prompt starts anew |
| `PrefixCache.ShortestIsReused` | cpp/serve/prefix_cache.cc:69-98 | of the kept candidates a shortest one is taken over; with a window only a whole one |
| `PrefixCache.NearlyAllIff` | cpp/serve/prefix_cache.cc:99-99 | in integers: ten times the loss is less than the length |
| `PrefixCache.Run` | cpp/serve/prefix_cache.cc:46-273 | whatever calls are made, the answers and removed ids of the cache, and what it then holds, are those of a run of the cache that extends at once |
| `PrefixCache.Perform` | cpp/serve/prefix_cache.cc:46-240 | each accepted call is one step of that cache |
| `PrefixCache.Accepts` | cpp/serve/prefix_cache.cc:48-52 | looking whether a call is accepted cannot be seen from outside |
| `PrefixCache.FlushedLast` | cpp/serve/prefix_cache.cc:147-149 | the newest queued extension is applied last |
| `PrefixCache.FlushedRemove` | cpp/serve/prefix_cache.cc:222-240 | removing a sequence without queued extensions commutes with the queue |
| `PrefixCache.ForgetKept` | cpp/serve/prefix_cache.cc:235-238 | dropping a kept sequence keeps the two maps inverse, their domain the kept ids, and the limit |
| `PrefixCache.KeepKeeps` | cpp/serve/prefix_cache.cc:200-203 | keeping a sequence under the limit does the same |
| `PrefixCache.ActivateKeeps` | cpp/serve/prefix_cache.cc:266-273 | reusing a sequence does the same |
| `Prefill.MatchPrefixCache` | cpp/serve/engine_actions/new_request_prefill.cc:279-348 | the match is the one the cache chooses for the prompt; every model's KV cache for the resulting id holds the matched part, the remaining inputs and the prefill limit follow, the caches stay in agreement, the old id comes back exactly when another one was taken over, and only a fresh sequence gets a sliding window; a disabled cache, a started request or a prompt with images changes nothing |
| `Prefill.MatchTokens` | cpp/serve/engine_actions/new_request_prefill.cc:292-345 | the same for a prompt known to be made of tokens |
| `Prefill.MatchModels` | cpp/serve/engine_actions/disagg_prepare_recv.cc:365-408 | whatever the cache answers can be applied to all KV caches, which then hold the matched part |
| `Prefill.StartMatched` | cpp/serve/engine_actions/new_request_prefill.cc:292-335 | the cache's answer fixes matched length and id; the KV caches hold the matched part under that id |
| `Prefill.MatchCarriesOver` | cpp/serve/engine_actions/disagg_prepare_recv.cc:369-408 | one KV cache that agreed with the prefix cache agrees again, in the new, fork and reuse case |
| `Prefill.GetConcatPrefillInputData` | cpp/serve/engine_actions/batch_prefill_base.cc:496-508 | the token prompt in one piece, or nothing if it is not all tokens |
| `Prefill.PopPrefillInputData` | cpp/serve/engine_actions/batch_prefill_base.cc:510-525 | what remains is the prompt without its first positions |
| `Prefill.Chunk` | cpp/serve/engine_actions/batch_prefill_base.cc:330-386 | chunk and rest make up the inputs, the chunk fits, is full when all inputs are tokens, and otherwise stops short only before an image that does not fit |
| `Prefill.ChunkPrefillInputData` | cpp/serve/engine_actions/batch_prefill_base.cc:314-386 | the same on the request state; a request without inputs feeds its newest tokens |
| `Prefill.PrefillByChunks` | cpp/serve/engine_actions/batch_prefill_base.cc:314-386 | repeated chunking ends and visits each position once, in order |
| `PromptData.SplitData` | cpp/serve/data.cc:19-56 | both parts, told from the items and the position alone |
| `PromptData.KeptSpec` | cpp/serve/data.cc:26-36 | how many whole items lie before the position |
| `PromptData.ReversedAt` | cpp/serve/data.cc:52-52 | item k of the reversed list is the k-th from the end |
| `PromptData.UnitsInjective` | cpp/serve/data.cc:90-104 | a prompt of tokens can be read off its units |
| `PromptData.SplitLeft` | cpp/serve/data.cc:19-56 | the left part is the exact prefix |
| `PromptData.SplitInside` | cpp/serve/data.cc:37-54 | a cut inside an item loses nothing |
| `PromptData.SplitBetween` | cpp/serve/data.cc:26-36 | a cut between items keeps the prompt if at most one of the items after it takes up any positions, and only then if these items begin with different units |
| `PromptData.SplitSafeIff` | cpp/serve/data.cc:19-56 | a cut keeps every prompt of the given kinds and lengths exactly when it falls inside an item or at most one item after it takes up any positions |
| `PromptData.OneFullReversed` | cpp/serve/data.cc:26-36 | with at most one such item, the order does not matter |
| `PromptData.ReversedHeads` | cpp/serve/data.cc:26-36 | items that begin differently and read the same backwards are at most one |
| `PromptData.SplitSwaps` | cpp/serve/data.cc:26-36 | two cut-off items come back swapped |
| `StopStrings.CreatePartialMatchTable` | cpp/tokenizers/streamer.cc:158-170 | entry i is the longest proper border of the first i characters |
| `StopStrings.Advance` | cpp/tokenizers/streamer.cc:208-218 | one step keeps the longest prefix of the stop string that ends the text |
| `StopStrings.ShorterMatchIsBorder` | cpp/tokenizers/streamer.cc:158-170 | the shorter matches are the borders of the match |
| `StopStrings.StopStrHandler.constructor` | cpp/tokenizers/streamer.cc:172-184 | the handler starts with exact tables and nothing read |
| `StopStrings.StopStrHandler.ReadChar` | cpp/tokenizers/streamer.cc:202-234 | the stop is triggered exactly when a stop string ends the text; the earliest start, or the earliest live start, is found |
| `StopStrings.StopStrHandler.Release` | cpp/tokenizers/streamer.cc:236-250 | the longest run of whole tokens before the position is given back |
| `StopStrings.StopStrHandler.Put` | cpp/tokenizers/streamer.cc:186-258 | given back ++ held back = put in; nothing given back overlaps a live match, and no more could be; on a stop exactly the tokens before the earliest stop string are given back |
| `StopStrings.StopStrHandler.Finish` | cpp/tokenizers/streamer.h:95-98 | what was held back completes the tokens put in |
| `StopStrings.PutAll` | cpp/tokenizers/streamer.cc:186-258 | over a whole run: it stops in the very token in which a stop string first ends the text, with the tokens before the earliest stop string given back, or the text has no stop string |
| `StopStrings.PutNext` | cpp/tokenizers/streamer.cc:186-258 | one more token of a run; a stop lies in this token |
| `StopStrings.FirstStopUnique` | cpp/tokenizers/streamer.cc:202-234 | where the text stops depends on the text, not on how it is cut into tokens |
| `StopStrings.ScanDone` | cpp/tokenizers/streamer.cc:202-234 | the scan of all stop strings shows whether and where the text stops |
| `RequestState.RequestModelState.CommitToken` | cpp/serve/request_state.cc:50-62 | the token is appended and the counts are those of the committed tokens |
| `RequestState.RequestModelState.RollbackTokens` | cpp/serve/request_state.cc:64-77 | the last tokens go, and the counts follow with no zero entry left |
| `RequestState.RequestModelState.AddDraftToken` | cpp/serve/request_state.cc:79-90 | every parent lies before its child and the first-child links are right |
| `RequestState.RequestModelState.RemoveAllDraftTokens` | cpp/serve/request_state.cc:92-109 | the draft tree is empty again and every slot that was in use is given back once |
| `RequestState.DraftPath` | cpp/serve/logit_processor.cc:296-312 | the walk to the root ends and visits the path |
| `RequestState.PathIsAncestors` | cpp/serve/logit_processor.cc:301-311 | the path holds the tokens of a node and of all its ancestors, in this order |
| `RequestState.PenaltyCounts` | cpp/serve/logit_processor.cc:289-334 | the emitted counts are those of the committed tokens and of the draft token with all its ancestors, and the table comes back exactly |
| `Retokenize.RetokenizeWithNewString` | cpp/serve/engine_actions/batch_jumpforward.cc:133-178 | told from the last token of the encoding of the window with the string: if it cannot grow, the window becomes the encoding and all of the string is committed; if it can, it is left out, and nothing changes when its text is as long as the string; nothing is taken back that is committed again |
| `Retokenize.JumpedIs` | cpp/serve/engine_actions/batch_jumpforward.cc:157-165 | the same three cases for what the request commits |
| `Retokenize.RetokenizeWithNewToken` | cpp/serve/engine_actions/batch_decode.cc:215-252 | the window becomes its re-encoding with the new token; the text grows by exactly the token's text; nothing new is committed exactly when the token is swallowed |
| `Retokenize.Difference` | cpp/serve/engine_actions/batch_jumpforward.cc:167-177 | the least roll back and the tokens after it turn the window into the new tokens |
| `Retokenize.PastTokens` | cpp/serve/engine_actions/batch_jumpforward.cc:139-147 | the last ten tokens, or fewer, and their text |
| `Retokenize.FirstDifference` | cpp/serve/engine_actions/batch_jumpforward.cc:167-173 | the length of the longest common prefix |
| `Retokenize.ReplaceFromDifference` | cpp/serve/engine_actions/batch_jumpforward.cc:167-177 | taking back what differs and committing the rest replaces the whole window |
| `Retokenize.Generation.TakeBackStream` | cpp/serve/engine_actions/batch_jumpforward.cc:190-201 | the stream will be right for the tokens after the replacement |
| `Retokenize.Generation.TakeBackModel` | cpp/serve/engine_actions/batch_jumpforward.cc:203-215 | tokens, counts and KV cache lose the same tail |
| `Retokenize.Generation.Force` | cpp/serve/engine_actions/batch_jumpforward.cc:74-82 | the committed tokens become the re-encoding of the window with the forced string |
| `Retokenize.Generation.JumpForward` | cpp/serve/engine_actions/batch_jumpforward.cc:62-92 | the text grows by a prefix of the forced string, and stream, counts and KV cache stay consistent |
| `Retokenize.Generation.CommitTokenMayRetokenize` | cpp/serve/engine_actions/batch_decode.cc:254-295 | the text grows by the token's text; something is left to feed exactly when the token is not swallowed |
| `Retokenize.Generation.Decode` | cpp/serve/engine_actions/batch_decode.cc:102-122 | the KV cache catches up, then the text grows by the sampled token's text |
| `Retokenize.Generation.Callback` | cpp/serve/request_state.cc:171-210 | after the callback the client has the text of all committed tokens |
| `Retokenize.StreamAfter` | cpp/serve/engine_actions/batch_jumpforward.cc:188-201 | both branches of the stream bookkeeping keep sent text plus outstanding tokens equal to the whole text |
| `Retokenize.Run` | cpp/serve/engine_actions/batch_jumpforward.cc:62-92 | after any mix of jumps, decodes and callbacks: sent ++ prefix ++ outstanding = text, counts are exact, and KV length + tokens to feed = prompt length + committed |
| `Retokenize.TextIsNotSwallowed` | cpp/serve/engine_actions/batch_decode.cc:215-252 | a token with a text always leaves something to feed |
| `Retokenize.EmptyTokenSwallowed` | cpp/serve/engine_actions/batch_decode.cc:215-252 | with one token per character, a token without text is swallowed after any characters |
| `Retokenize.SwallowingRun` | cpp/serve/engine_actions/batch_decode.cc:254-295 | a jump and a decode after which nothing is left to feed |
| `Speculative.SpeculativeRequest.constructor` | cpp/serve/engine_actions/batch_verify.cc:174-266 | after the prefill both models are aligned |
| `Speculative.SpeculativeRequest.CatchUp` | cpp/serve/engine_actions/batch_draft.cc:147-165 | the first round feeds the newest token and all tokens that the draft model lacks |
| `Speculative.SpeculativeRequest.Leaves` | cpp/serve/engine_actions/batch_draft.cc:177-189 | the tokens without a child are exactly the newest level |
| `Speculative.SpeculativeRequest.FeedLeaves` | cpp/serve/engine_actions/batch_draft.cc:172-242 | the draft model has then seen every draft token, as a sequence in a chain, as a tree otherwise |
| `Speculative.SpeculativeRequest.Grow` | cpp/serve/engine_actions/batch_draft.cc:276-288 | the sampled tokens hang below their leaves, each in the slot of its leaf, and form the new level |
| `Speculative.SpeculativeRequest.FirstRound` | cpp/serve/engine_actions/batch_draft.cc:127-171 | the first sampled tokens hang below the last committed token |
| `Speculative.SpeculativeRequest.NextRound` | cpp/serve/engine_actions/batch_draft.cc:172-288 | a later round adds one level; the draft model has seen all levels but this one |
| `Speculative.SpeculativeRequest.Propose` | cpp/serve/engine_actions/batch_draft.cc:112-288 | the draft holds the sampled tokens of all rounds in order, each below its leaf and in the slot handed out for it; the draft model has seen all levels but the newest |
| `Speculative.SpeculativeRequest.UpdateVerifyKv` | cpp/serve/engine_actions/batch_verify.cc:216-219 | the large model keeps the last committed token and the accepted draft tokens |
| `Speculative.SpeculativeRequest.KeepAccepted` | cpp/serve/engine_actions/batch_verify.cc:186-223 | pop or tree commit leaves the accepted tokens that the draft model has seen |
| `Speculative.SpeculativeRequest.UpdateDraftKv` | cpp/serve/engine_actions/batch_verify.cc:186-257 | with the extra decode after a leaf, the draft model holds all committed tokens but the last |
| `Speculative.SpeculativeRequest.Verify` | cpp/serve/engine_actions/batch_verify.cc:174-266 | for every chain or tree and every accepted node, a round leaves both KV caches with prompt ++ committed without its last token, and gives every draft slot back once |
| `Speculative.SpeculativeRequest.Round` | cpp/serve/engine_actions/batch_verify.cc:83-266 | a whole round commits the way to some draft token and one more token, and gives back exactly the slots that were handed out |
| `Speculative.FlatAt` | cpp/serve/engine_actions/batch_draft.cc:276-288 | the k-th token sampled for the l-th leaf, its parent and its slot |
| `Speculative.AllSlotsAre` | cpp/serve/engine_actions/batch_draft.cc:272-288 | the slots of a proposal are those handed to its rounds |
| `Speculative.TrailIsPath` | cpp/serve/engine_actions/batch_verify.cc:98-103 | the way from the root to a node is the path from the node to the root, backwards |
| `Speculative.RootedTrail` | cpp/serve/engine_actions/batch_verify.cc:90-103 | in the tree that is verified, the way to a draft token starts with the last committed token |
| `Speculative.ChainTrail` | cpp/serve/engine_actions/batch_draft.cc:276-288 | in a chain, the way to a token is the chain up to it |
| `Speculative.TrailPrefix` | cpp/serve/engine_actions/batch_verify.cc:203-223 | the newest level has no part in the way to an older token |
| `Queues.Process` | cpp/serve/engine_actions/new_request_prefill.cc:68-84 | matched part, chunk and rest make up the inputs; a token is sampled exactly when nothing is left |
| `Queues.Advance` | cpp/serve/engine_actions/batch_prefill_base.cc:388-458 | becoming alive and leaving the waiting queue keep every request in the right queues |
| `Queues.SendBack` | cpp/serve/engine_actions/action_commons.cc:411-419 | so does going back to the waiting queue |
| `Queues.RequeuedFlat` | cpp/serve/engine_actions/action_commons.cc:369-398 | the inputs of a preempted request are its prompt and its committed tokens, merged into the last item if that is a token list |
| `Queues.DecodedConserves` | cpp/serve/engine_actions/batch_decode.cc:102-122 | a decode step keeps KV cache and inputs equal to what has been said |
| `Queues.LastReady` | cpp/serve/engine_actions/batch_decode.cc:53-60 | dropping the last entry on equality alone keeps the list of requests to decode exact |
| `Queues.ShrinkMore` | cpp/serve/engine_actions/batch_decode.cc:53-60 | one more preemption from the end of the running queue, nothing else changes |
| `SequenceIds.IdsExclusive` | cpp/serve/engine_state.h:26-49 | no id is free and in use, none is used by two requests, what is kept for reuse belongs to no request |
| `SequenceIds.TakenOver` | cpp/serve/engine_actions/disagg_prepare_recv.cc:394-400 | taking over a kept sequence leaves every id in exactly one place |
| `SequenceIds.RecyclesReleases` | cpp/serve/engine.cc:433-438 | what the prefix cache does when it recycles a sequence is what the engine's tables and free ids show |
| `SequenceIds.FreesEvicts` | cpp/serve/engine.cc:433-438 | the same when it frees memory |
| `Scheduler.EngineState.GetNewId` | cpp/serve/engine_state.h:31-39 | the id handed out was in use by nobody; a free one is preferred |
| `Scheduler.EngineState.RecycleId` | cpp/serve/engine_state.h:42-42 | the id is free again |
| `Scheduler.EngineState.RemoveFromCache` | cpp/serve/engine.cc:433-438 | the callback gives back exactly the id of the dropped sequence |
| `Scheduler.EngineState.TryFreeMemory` | cpp/serve/prefix_cache.cc:222-240 | drops some kept sequence and gives its id back, exactly when one is kept |
| `Scheduler.EngineState.RecycleSequence` | cpp/serve/prefix_cache.cc:188-213 | the sequence is kept for reuse, at the limit in place of exactly one other whose id comes back, or dropped and its id given back |
| `Scheduler.EngineState.LetGo` | cpp/serve/engine_actions/action_commons.cc:158-169 | where the id of a finished sequence goes: kept, with at most one other kept id coming back, pinned, or given back |
| `Scheduler.EngineState.AddRequest` | cpp/serve/engine.cc:693-722 | the request waits at the end under an id of its own |
| `Scheduler.EngineState.GetRunning` | cpp/serve/engine_state.cc:33-50 | the cached list equals its recomputation |
| `Scheduler.EngineState.Finish` | cpp/serve/engine_actions/action_commons.cc:172-233 | the request leaves the tables and its id goes where `Released` says; everything else stays |
| `Scheduler.EngineState.Abort` | cpp/serve/engine.cc:102-145 | the request is gone from everywhere and the queues keep their order; its id is lost exactly when it was waiting only |
| `Scheduler.AbortLosesId` | cpp/serve/engine.cc:102-145 | a request that comes and is aborted: nobody is left, and its id is neither free nor in use |
| `Scheduler.EngineState.PreemptLast` | cpp/serve/engine_actions/action_commons.cc:328-422 | the last running request starts again in front of the queue, under a new id, with an empty KV cache and inputs that stand for its prompt and committed tokens; the old id is lost exactly when the cache did not have it |
| `Scheduler.PreemptLosesId` | cpp/serve/engine_actions/action_commons.cc:401-410 | without a prefix cache every preemption loses an id |
| `Scheduler.EngineState.PrefillStep` | cpp/serve/engine_actions/new_request_prefill.cc:30-254 | ids, cache tables, queues, inputs and KV cache after one prefill: how much is computed, and nothing of the prompt is lost |
| `Scheduler.EngineState.PrefillMatched` | cpp/serve/engine_actions/new_request_prefill.cc:284-335 | a pending request is never in the cache yet; the answer decides which id goes on and what the cache tables become |
| `Scheduler.ChosenAnswers` | cpp/serve/prefix_cache.cc:46-139 | whatever the prefix cache chooses for a prompt is an answer the engine can take |
| `Scheduler.EngineState.MakeDecodable` | cpp/serve/engine_actions/batch_decode.cc:53-60 | the preemption loop ends, preempts only from the end of the queue and only when no kept sequence is left to drop, and returns exactly the requests ready to decode |
| `Scheduler.EngineState.DecodeStep` | cpp/serve/engine_actions/batch_decode.cc:42-122 | as many of the ready requests as fit get the token sampled for them, once each, and their newest token is computed, nothing else of them changes; every other request is as before or was preempted |
| `Scheduler.EngineState.DecodeAll` | cpp/serve/engine_actions/batch_decode.cc:173-189 | the requests of the batch change in just this way, all others stay |
| `Scheduler.Run` | cpp/serve/engine_state.h:51-110 | after any run: pending = waiting only, alive with inputs = both queues, alive without = running only, KV cache ++ inputs = prompt ++ committed, ids exclusive, at most the limit of sequences kept |
| `HandOff.InvStep` | cpp/serve/threaded_engine.cc:51-229 | every single step of every thread keeps mutual exclusion, order, counter, flag and wake-up |
| `HandOff.InvAlways` | cpp/serve/threaded_engine.cc:51-229 | so does every run |
| `HandOff.HandOffSafe` | cpp/serve/threaded_engine.cc:109-188 | executed ++ local rest ++ queue = everything that producers asked for, in the order in which they got the mutex; the counter is the queue length when the mutex is free; no sleeping loop has work and no notification on its way; the loop never sleeps while the engine has unfinished requests, goes on only for a reason, and ends only on exit |
| `HandOff.HistoryIsBrought` | cpp/serve/threaded_engine.cc:109-133 | what enters the queue is what the producers asked for |
| `HandOff.ExitEndsLoop` | cpp/serve/threaded_engine.cc:139-139 | once the exit flag is set, the loop tests it at most once more and ends |
| `HandOff.SleepStep` | cpp/serve/threaded_engine.cc:143-147 | no step puts the loop to sleep with unfinished requests |
| `HandOff.ExitSafe` | cpp/serve/threaded_engine.cc:222-229 | the instruction loop cannot sleep through the exit |
| `HandOff.ExitMissedIff` | cpp/serve/threaded_engine.cc:190-229 | from any state before the notification, the exit can be slept through exactly when the loop is between its test and its sleep |
| `HandOff.ExitMissedRuns` | cpp/serve/threaded_engine.cc:190-229 | the same for every run from the start up to the notification |
| `HandOff.MissedBecause` | cpp/serve/threaded_engine.cc:190-229 | every run that ends with the exit slept through had its notification in that moment |
| `HandOff.ExitNeverMissed` | cpp/serve/threaded_engine.cc:135-229 | no run of the instruction loop ends with the exit slept through |
| `HandOff.ExitCanBeMissed` | cpp/serve/threaded_engine.cc:190-229 | a run of the stream loop that ends with the exit slept through |
| `HandOff.NoLostWorkStep` | cpp/serve/threaded_engine.cc:109-152 | no step puts the loop to sleep with work queued and nobody about to notify |
| `Encoding.NextPrinted` | cpp/support/encoding.cc:14-37 | a printed codepoint is read back, whatever follows |
| `Encoding.ParsePrinted` | cpp/support/encoding.cc:132-144 | the text printed for any list of codepoints in 1..0x10FFFF parses to that list, up to the first zero byte |
| `Encoding.ParseNextUTF8` | cpp/support/encoding.cc:107-130 | the loop computes the announced number of bytes, or the error of the policy |
| `Encoding.ParseUTF8` | cpp/support/encoding.cc:132-144 | undoes the printing of any list of codepoints; a malformed sequence behind them spoils the strict answer |
| `Encoding.NextErrors` | cpp/support/encoding.cc:79-130 | by the bytes: which sequences are refused, or read as their first byte, and how long the others are |
| `Encoding.ParseMalformed` | cpp/support/encoding.cc:132-144 | behind good codepoints a malformed sequence makes the strict answer an error; the lenient one goes on behind its first byte |
| `Encoding.KnownBytes` | cpp/support/encoding.cc:14-37 | one codepoint of each length in its bytes |
| `Encoding.ReprintedIff` | cpp/support/encoding.cc:79-130 | what is accepted is printed back exactly when the first two bytes rule out an overlong form and a value out of range |
| `Encoding.OverlongAccepted` | cpp/support/encoding.cc:79-130 | an overlong form that is accepted and not printed back |
| `Encoding.EscapedReadBackIff` | cpp/support/encoding.cc:39-66 | an escaped codepoint is read back exactly when no hexadecimal digit follows a `\x` form |
| `Encoding.HexDigits` | cpp/support/encoding.cc:146-156 | the values of all hexadecimal digits, in both cases, and no others |
| `Encoding.NamedEscapes` | cpp/support/encoding.cc:42-45 | the thirteen named escapes, printed and read |
| `Encoding.OnlyNamed` | cpp/support/encoding.cc:160-163 | there are no other named escapes |
| `Encoding.PrintedShape` | cpp/support/encoding.cc:55-65 | any other codepoint is printed as it is, or as a hexadecimal form of the right length |
| `Encoding.EscapeErrors` | cpp/support/encoding.cc:177-207 | an escape is refused exactly when its letter is unknown or digits are missing |
| `Encoding.ParseNextUTF8OrEscaped` | cpp/support/encoding.cc:158-208 | the codepoint and the length of the escape, or the error |
| `PrefixMask.ScanNeighbours` | cpp/tokenizers/tokenizers.cc:109-125 | the scan marks exactly the tokens that are a proper prefix of a token, or equal to one with a greater id |
| `PrefixMask.NeighbourDecides` | cpp/tokenizers/tokenizers.cc:117-125 | the next token in the order decides for all tokens |
| `PrefixMask.BetweenExtends` | cpp/tokenizers/tokenizers.cc:117-125 | whatever lies between a string and an extension of it extends it too |
| `PrefixMask.Tokenizer.GetPrefixTokenMask` | cpp/tokenizers/tokenizers.cc:100-127 | the cached mask is the same mask |

## Left out

- Page memory: pages are records with a child list and a token list; the circular offset (always 0), the sibling pointers, the id-list nodes and the reuse of freed memory are not modelled. Between a page being left and its sequence being placed again, the stale entry of `seq2page` is dropped.
- Integer widths: sequence ids, positions and counters are unbounded; the 32-bit key of `seq2page` and overflow of a long `\x` escape are not modelled. Tokens are non-negative.
- PrefixCache.NearlyAll: compares with 0.9 over the reals, not in floating point.
- PrefixCache.PrefixCache.DropIt: removes a sequence from tables and tree in one step; the order within is not modelled.
- Cache against KV content after preemption or retokenization: `cached_committed_tokens` and the cache are not rolled back with the tokens, so `Prefill.MatchPrefixCache` takes the agreement beforehand as given.
- Scheduler.EngineState.PrefillStep: takes the requests of a batch one after the other; the engine takes them phase by phase. The choice of what to prefill, and decode requests joined to a prefill batch, are not modelled.
- Scheduler.EngineState.DecodeStep: an empty batch is a fatal error in the engine and does nothing here; jump-forward and speculative steps are modelled separately.
- Queues.Process: what the KV cache holds for a matched prefix is taken over from `Prefill.MatchPrefixCache`.
- Scheduler: the prefix cache appears through its tables; `PrefixCache.dfy` has the contents, and `ChosenAnswers`, `RecyclesReleases` and `FreesEvicts` connect the two.
- Scheduler.EngineState.AddRequest: special requests, over-long prompts, duplicate request ids and disaggregation are not modelled.
- Parallel generation (`n > 1`) and disaggregation.
- Retokenize.Generation.Callback: the case without stop strings; stop tokens, length limits and log probabilities are not modelled. The grammar matcher is represented by the string it forces.
- Speculative.SpeculativeRequest.Propose: one request at a time (the requests of a batch share no state); every leaf is given exactly as many children as the tree is wide; a lag that fits into one prefill chunk.
- `PrefillLaggedTokensByChunk`, which commits the wrong token of a long lag, is not modelled.
- StopStrings.StopStrHandler.constructor: the stop flag has no initialiser in the source and starts false here.
- HandOff: one queue and one loop at a time; reload and unload only as instructions. The stream loop is the same machine with the exit flag outside its mutex.
- Encoding: the additional escape maps and the variants on raw bytes and strings; byte operations are written as arithmetic.
- PrefixMask.SortTokens: an insertion sort stands for the library sort.
- `Reset` of pools, tree, cache and engine.
- The text streamer, the draft workspace manager, samplers, logit processing on device, models, memory estimation, configuration, JSON, templates, metrics, tracing: foreign calls, or field-by-field claims that would only add easy members.
