# Verified models of the diff engine, the embedding lifecycle, the crawler and the search store

This project models the algorithmic parts of the repository in Dafny and proves what their code and comments
promise. Each source file has its own module or modules. Loops over arrays, sets and maps stay loops, and each
one is proved against a specification function; the theorems are then lemmas about that function. Objects with
mutable fields are classes. Code that interleaves at `await` is a state machine whose steps are the stretches
between awaits, and its theorems hold in every reachable state.

| Module | Source | Subject |
|---|---|---|
| `Lcs` | `src/cache/lcs.ts`, `benchmarks/extraction/tokenizer.ts` | longest common subsequence: theory, packed 32-bit table, two-row form |
| `EditScript`, `ScriptChoice` | `src/cache/diff-engine.ts` | backtracked edit script, which minimal script it is, run pairing, edit-order normalization, line and character accounting |
| `HunkGrouping`, `UnifiedPatch`, `PatchText` | `src/cache/diff-engine.ts` | hunk grouping, patch application, printed patches read back |
| `LineText`, `LineSummary`, `ChangeHunks`, `Sections`, `DiffEngine`, `ChangedFlag` | `src/cache/diff-engine.ts`, `src/cache/diff-summary.ts` | line splitting, the three summaries, line, word and section hunks, the entry points, when a change is reported |
| `HunkReading`, `SectionReading` | `src/cache/diff-engine.ts` | what the hunks show, position by position |
| `EmbeddingLifecycle`, `EmbeddingHistory` | `src/embedding/fastembed-provider.ts` | loads, disposals and embeds in every interleaving, and what becomes of each load along a run |
| `SiteMapper` | `src/crawl/mapper.ts` | depth-limited, capped breadth-first mapping |
| `BrandPalette`, `PaletteRanking` | `src/extraction/brand-palette.ts` | k-means over colours, choice of palette colours |
| `RateLimiter`, `RequestSpacing` | `src/crawl/rate-limiter.ts` | adaptive cooldown, per-domain slots and queue, the spacing of requests |
| `VectorStore` | `src/cache/sqlite-vec-store.ts`, `src/embedding/embed.ts` | three tables as one map, truncated and overscanned search |
| `Levenshtein` | `src/cli/flag-bridge.ts` | two-row edit distance, nearest flag |
| `RankingMetrics` | `benchmarks/search/metrics.ts` | NDCG |
| `CrawlDedup` | `src/crawl/dedup.ts` | navigation stripping, boilerplate removal, the stored set |
| `Layout`, `Positions` | | joined texts by offsets, and lists of positions, with uniqueness of both |

## Where the code does less than it seems to promise

Each of these is a proved statement with its exact condition, an input that shows it, or both.

- The concurrency limit of the rate limiter is tested before the sleep and not again after it, so callers that
  sleep together can exceed it. Over a clock that never runs back and waits computed from random draws, responses
  and robots delays, it is kept in all runs exactly when the configured delay and every robots delay are zero
  (`RateLimiter.LimitKeptExactly`).
- A robots delay set after the cooldown multiplier has grown can push the waits past the cooldown ceiling; they
  stay below it exactly when the multiplier already fits the delay then in force, and the next block restores
  that (`RateLimiter.RaisedDelay`, `RateLimiter.RaisedDelayCanPassCeiling`, `RateLimiter.NextBlockRestores`).
- Filtered search over-fetches max(5 * limit, 50) neighbours; it is certain to be complete exactly for stores of
  at most that many rows (`VectorStore.OverfetchIsEnoughExactly`).
- `findSimilar` with `topK` below one can still return a hit (`VectorStore.OverscanExactExactly`).
- NDCG is certain to stay within 1 exactly for rankings that list no URL twice (`RankingMetrics.WithinOneExactly`).
- The engine and the diff summary report different counts for the same lines when some run of changes grows and
  some other run shrinks, and only then (`LineSummary.SummariesCompared`, `LineSummary.CountsDisagree`). In the
  same cases the approximation used over the line cap reports too few added and too few removed lines
  (`LineSummary.ApproximationUnderstatesExactly`).
- `changed` is set for texts with the same lines when they are over the line cap (`ChangedFlag.LinesChangedExactly`,
  `ChangedFlag.FinalNewlineOverCap`), and at word granularity when line endings trade places
  (`ChangedFlag.WordsChangedExactly`, `ChangedFlag.WordsChangedForSameLines`).
- Section comparison looks at titles and bodies only, so changing a heading's level, or reordering sections with
  different titles, reports nothing (`DiffEngine.SectionsMissHeadingLevel`, `DiffEngine.SectionsSilentExactly`).
- A hunk whose old or new side is empty states line 1 with length 0 there, where the GNU convention is line 0;
  a hunk has an empty side exactly when that whole text has no lines (`UnifiedPatch.EmptyOldSide`,
  `UnifiedPatch.EmptyNewSide`, `UnifiedPatch.DeletedOnlyLine`).
- A hunk need not lead with three context lines: when a run of equal lines closes a hunk only its seventh line
  stays pending, so a later hunk leads with all three exactly when nine equal lines stand before it
  (`HunkGrouping.FullLeadExactly`, `HunkGrouping.ShortLead`).
- Block splitting drops the text before the first heading; it drops nothing exactly when a heading comes first
  (`CrawlDedup.PrefaceDropped`).
- The palette looks at monochrome clusters only when there are fewer than two saturated ones, counted before
  near-identical ones are merged: red and white give two colours, red, almost the same red and white give one
  (`PaletteRanking.DistinctColourLost`, with the exact condition in `PaletteRanking.TwoColoursFromClusters`).

## Model

| member | source | states |
|---|---|---|
| Lcs.ComputeLcsTable | src/cache/lcs.ts:19-45 | after filling the flat `Uint32Array` in place, every cell i*stride+j holds the LCS length of the prefixes i and j; no 32-bit value ever wraps |
| Lcs.LcsLengthIsLongest | src/cache/lcs.ts:19-40 | the last cell is the length of some common subsequence, and no common subsequence is longer |
| Lcs.ScoreBound | src/cache/lcs.ts:19-40 | a cell never exceeds the shorter of its prefixes, which bounds it below 2^32 |
| Lcs.ScoreSymmetric | src/cache/lcs.ts:19-40 | swapping the texts transposes the table |
| Lcs.FullScoreMeansEqual | src/cache/lcs.ts:19-40 | texts of one length whose LCS is that length are equal |
| Lcs.CellsDistinct | src/cache/lcs.ts:19-40 | different table cells never share a position of the flat array |
| Lcs.LongestCommonSubsequence | benchmarks/extraction/tokenizer.ts:79-106 | the two swapped and refilled rows give the same length as the full table |
| EditScript.BuildEditScript | src/cache/diff-engine.ts:49-80 | backtracking the table with its tie-breaks and reversing the pushes gives the script of the recursive definition |
| EditScript.EqualsAtMostLcs | src/cache/diff-engine.ts:49-80 | no script from the old to the new lines keeps more lines than the LCS |
| EditScript.LcsScriptIsMinimal | src/cache/diff-engine.ts:49-80 | deletes and equals spell the old lines, inserts and equals the new, equals number the LCS, and no other script has fewer changes |
| ScriptChoice.ChosenScript | src/cache/diff-engine.ts:49-80 | among all scripts with as few changes the walk's script comes first: read from the end, at the first difference from any other it keeps a line, or deletes where the other inserts |
| ScriptChoice.AheadOneWay | src/cache/diff-engine.ts:49-80 | no script comes before another and after it, so only one script comes first |
| EditScript.CountsFromOps | src/cache/diff-engine.ts:82-108 | the run loop pairs min(removes, adds) of every maximal run of changes as modified and counts the rest as removed or added |
| EditScript.CountsConserve | src/cache/diff-engine.ts:82-108 | for any script every delete is counted once as removed or modified and every insert once as added or modified |
| EditScript.PureCounts | src/cache/diff-engine.ts:95-105 | lines count as added exactly when some run adds more than it removes, as removed exactly when some run removes more than it adds |
| EditScript.LineAccounting | src/cache/diff-engine.ts:82-108 | added plus modified is n - LCS, removed plus modified is m - LCS, added minus removed is n - m, and all are zero exactly for equal line lists |
| EditScript.ChangedCharsFromOps | src/cache/diff-engine.ts:110-117 | the loop totals the sizes of the lines that are not kept |
| EditScript.CharactersConserve | src/cache/diff-engine.ts:110-117 | changed characters plus twice the kept ones are the characters of both sides |
| EditScript.NormalizeEditOrder | src/cache/diff-engine.ts:223-242 | the loop holds inserts back and flushes them before the next equal and at the end, as the recursive reordering does |
| EditScript.NormalIsAReordering | src/cache/diff-engine.ts:223-242 | normalizing keeps both projections, the runs and the multiset of ops, keeps a sound script sound, and leaves no insert right before a delete |
| HunkGrouping.GroupOps | src/cache/diff-engine.ts:250-316 | the loop with its pending context and trailing count cuts the script into contiguous hunks with the exact context and the exact 1-based start lines on both sides |
| HunkGrouping.GroupingIsUnique | src/cache/diff-engine.ts:250-316 | that description fits one list of hunks only, so no other context, cut or start line would satisfy it |
| HunkGrouping.FullLeadExactly | src/cache/diff-engine.ts:268-290 | a first hunk has all three leading context lines exactly when three equal lines precede it, a later one exactly when nine do |
| HunkGrouping.ShortLead | src/cache/diff-engine.ts:268-290 | of two changes seven equal lines apart the second hunk leads with one context line |
| HunkGrouping.EachChangeInOneHunk | src/cache/diff-engine.ts:268-316 | every change op lies in one hunk and in no other |
| HunkGrouping.HunkShape | src/cache/diff-engine.ts:268-316 | a hunk is a slice of the script that starts and ends its core with a change, has at most three context lines on each end and at most six equal lines in a row between changes |
| HunkGrouping.HunksApart | src/cache/diff-engine.ts:268-316 | consecutive hunks skip at least three lines, all of them equal |
| HunkGrouping.HunksOrdered | src/cache/diff-engine.ts:268-316 | any earlier hunk ends at least three lines before any later one starts |
| UnifiedPatch.ForwardRoundTrip | src/cache/diff-engine.ts:249-342 | applying the hunks at their stated old and new positions and lengths to the old lines gives exactly the new lines |
| UnifiedPatch.ReverseRoundTrip | src/cache/diff-engine.ts:249-342 | applying the hunks in reverse to the new lines gives exactly the old lines |
| UnifiedPatch.EmptyOldSide | src/cache/diff-engine.ts:318-341 | a hunk states old length zero exactly when the old text has no lines, and then states old line 1 |
| UnifiedPatch.EmptyNewSide | src/cache/diff-engine.ts:318-341 | a hunk states new length zero exactly when the new text has no lines, and then states new line 1 |
| UnifiedPatch.DeletedOnlyLine | src/cache/diff-engine.ts:318-341 | deleting the only line of a text prints a hunk with new length zero at new line 1 |
| PatchText.PrintGroup | src/cache/diff-engine.ts:318-341 | the printed lengths are the numbers of old and new lines in the hunk, and the body prints each op under its sign |
| PatchText.RenderUnifiedDiff | src/cache/diff-engine.ts:249-342 | the rendered text is the print of a correct grouping of the given script |
| PatchText.RenderingIsUnique | src/cache/diff-engine.ts:249-342 | no other text is a rendering of that script |
| PatchText.ReadPatchBack | src/cache/diff-engine.ts:318-341 | parsing a printed patch by its headers gives back exactly its hunks |
| PatchText.PatchTextRoundTrip | src/cache/diff-engine.ts:249-342 | the rendered text of a script, parsed and applied, turns old lines into new and, in reverse, new into old; it is never empty |
| PatchText.PrintedExample | src/cache/diff-engine.ts:318-342 | the whole text printed for one changed line after one kept line, character by character |
| PatchText.DigitByDigit | src/cache/diff-engine.ts:334 | numbers in headers are decimal, most significant digit first |
| LineText.SplitLines | src/cache/diff-engine.ts:33-41 | the lines of `LinesOf`, as the laws below determine them: empty text has no lines, and joined the lines are the normalized text less one final newline |
| LineText.LinesArePlain | src/cache/diff-engine.ts:33-41 | no line of a text holds a line break of any kind |
| LineText.LinesOfJoin | src/cache/diff-engine.ts:33-41 | joining plain lines and splitting again loses exactly a final empty line |
| LineText.NormalizeInside | src/cache/diff-engine.ts:29-31 | inside any text a CRLF and a lone CR each become one LF and every other character stays |
| LineText.NormalizeInTwo | src/cache/diff-engine.ts:29-31 | a text may be normalized in two parts unless the cut goes through a CRLF |
| LineText.LinesSpellText | src/cache/diff-engine.ts:33-41 | for every text the joined lines are the normalized text without one final newline, if it has one; only the empty text has no lines |
| LineText.SameLinesExactly | src/cache/diff-engine.ts:33-41 | two texts have the same lines exactly when their normalized forms differ by at most one final newline and both or neither are empty |
| LineText.JoinLaysOut | src/cache/diff-engine.ts:399 | joined lines stand one after the other at exact offsets with one newline between neighbours and nothing else |
| Layout.JoinedIsUnique | src/cache/diff-engine.ts:399 | parts and separator leave one text that is laid out so |
| LineSummary.Summarize | src/cache/diff-engine.ts:82-117 | counts and changed characters of a line comparison |
| LineSummary.ApproximateSummaryForTruncated | src/cache/diff-engine.ts:119-142 | the summary over the cap, from line counts and lengths alone |
| LineSummary.ComputeDiffCounts | src/cache/diff-summary.ts:26-52 | the other module's counts come from the last table cell |
| LineSummary.SummariesAccount | src/cache/diff-summary.ts:26-52 | exact, approximate and diff-summary counts all satisfy added - removed = n - m, the two exact ones agree on added + modified = n - LCS and removed + modified = m - LCS, and neither the summary module nor the approximation reports both added and removed lines |
| LineSummary.SummariesCompared | src/cache/diff-summary.ts:26-52 | the engine never reports more modifications than the summary module, the two agree exactly when no run of changes grows or no run shrinks, and each is all zero exactly for equal line lists |
| LineSummary.CharactersCounted | src/cache/diff-engine.ts:110-142 | the approximation counts every character of both lists, the comparison all but those of the kept lines on both sides |
| LineSummary.CountsDisagree | src/cache/diff-summary.ts:26-52 | for x, k against k, y the engine counts one addition and one removal, the summary one modification, the approximation two modifications |
| LineSummary.ApproximationIsUpperBound | src/cache/diff-engine.ts:119-142 | the truncated approximation understates neither the changed characters nor the modified lines, nor added plus modified or removed plus modified lines |
| LineSummary.ApproximationUnderstatesExactly | src/cache/diff-engine.ts:119-142 | it understates the added lines, and the removed lines, exactly when some run of the real comparison grows and some run shrinks |
| ChangeHunks.TakeRun | src/cache/diff-engine.ts:388-397 | the inner loop takes the whole run of changes at a position and stops right behind it |
| ChangeHunks.LineHunks | src/cache/diff-engine.ts:350-414 | one hunk per run of changes, with its kind and its joined sides |
| ChangeHunks.LineHunksWhenChanged | src/cache/diff-engine.ts:350-414 | there are line hunks exactly when the line lists differ |
| HunkReading.RunsAreStretches | src/cache/diff-engine.ts:383-397 | the runs are the old and new sides of the maximal stretches of changes, all of them, in order |
| HunkReading.LineHunksRead | src/cache/diff-engine.ts:380-405 | one hunk for each maximal stretch, in order: its deleted lines joined before, its inserted lines joined after, of the kind that tells which side has lines |
| ChangeHunks.TokensSpellText | src/cache/diff-engine.ts:420-425 | tokens are the maximal runs of space and non-space characters, and joined they are the text |
| ChangeHunks.WordScriptSpellsTexts | src/cache/diff-engine.ts:427-512 | the joined projections of the word script are the two texts |
| ChangeHunks.WordHunks | src/cache/diff-engine.ts:427-512 | the word hunks are those of the runs, without whitespace-only ones |
| ChangeHunks.WordHunksKeepVisible | src/cache/diff-engine.ts:427-512 | leaving out whitespace-only runs loses no visible character on either side |
| HunkReading.WordHunksRead | src/cache/diff-engine.ts:461-494 | one word hunk for each maximal stretch that changes a visible character, in order: its deleted tokens before, its inserted tokens after |
| Sections.SplitSections | src/cache/diff-engine.ts:521-548 | the flushing loop gives the sections of the recursive split, an empty untitled part left out |
| Sections.SectionsSpellText | src/cache/diff-engine.ts:521-548 | every line is one heading or stands in one body, in order: the untitled body is what precedes the first heading, and each further part is a heading with its title and the lines up to the next heading |
| Sections.PartsCoverLines | src/cache/diff-engine.ts:521-548 | headings and body lines number as many as the lines, only the first part can be untitled, and every title comes from a heading |
| Sections.SplitUntitledFirst | src/cache/diff-engine.ts:521-548 | there is at most one untitled section and it comes first |
| Sections.BodyLineCount | src/cache/diff-engine.ts:521-548 | a section body never has more lines than the text, so under the cap no section comparison is cut short |
| Sections.PartnerMatches | src/cache/diff-engine.ts:603-622 | the k-th old section of a title is paired with the k-th new one of that title, exactly when there are enough |
| Sections.PartnersDiffer | src/cache/diff-engine.ts:603-622 | no new section is consumed twice |
| Sections.PartnerExists | src/cache/diff-engine.ts:635-647 | a new section is left over exactly when the old text has too few of its namesakes |
| Sections.PairsPerTitle | src/cache/diff-engine.ts:603-622 | exactly min(old count, new count) pairs form for each title |
| Sections.IndexByTitle | src/cache/diff-engine.ts:554-564 | each title's list holds the new sections of that title in order |
| Sections.ComparePreludes | src/cache/diff-engine.ts:578-601 | untitled sections are compared with each other, a missing one as empty |
| Sections.CompareSections | src/cache/diff-engine.ts:566-659 | the loops with shifted candidate lists and the consumed set report what the pairing prescribes: surplus sections once as removed or added, pairs with different bodies as modified |
| Sections.ComputeSectionHunks | src/cache/diff-engine.ts:550-659 | the section report of two texts |
| Sections.ComputeDiffSummaryOnly | src/cache/diff-engine.ts:192-216 | the summary of a comparison, exact up to the line cap and approximate over it |
| Sections.SectionAccounting | src/cache/diff-engine.ts:550-659 | added minus removed over all section hunks is the difference of the total body lines of the two texts |
| SectionReading.SectionReportRead | src/cache/diff-engine.ts:566-659 | the hunks are, in this order, the differing untitled texts, every old section that is gone or whose partner has another body, and every new section that is nobody's partner, each once, in document order, with the old body before and the new one after; the totals are those of the listed hunks |
| DiffEngine.ComputeUnifiedDiff | src/cache/diff-engine.ts:150-184 | up to the cap the diff text prints the normalized minimal script and applies forward and in reverse to the lines of the two inputs; it is empty exactly when the result is truncated or the lines are the same |
| DiffEngine.NormalScript | src/cache/diff-engine.ts:150-184 | the script that is rendered still turns the old lines into the new |
| DiffEngine.ComputeHunks | src/cache/diff-engine.ts:350-414 | by granularity the line, word or section result, none over the cap |
| DiffEngine.ComputeWordHunks | src/cache/diff-engine.ts:427-512 | word hunks, with the line summary |
| DiffEngine.ComputeDiffEnvelope | src/cache/diff-engine.ts:668-727 | unless word or section hunks are asked for, `changed` is true exactly when the texts differ and their lines differ or are over the cap; `truncated` exactly when the texts differ and are over the line cap, or word hunks are asked for and they are over the token cap; the diff text is returned exactly for differing texts in the unified shape that are not truncated, prints the minimal script and applies both ways |
| ChangedFlag.LinesChangedExactly | src/cache/diff-engine.ts:668-727 | that flag differs from a comparison of the lines exactly for different texts with the same lines over the cap |
| ChangedFlag.FinalNewlineOverCap | src/cache/diff-engine.ts:668-727 | adding a final newline to any text over the cap keeps its lines and sets the flag |
| ChangedFlag.WordsChangedExactly | src/cache/diff-engine.ts:427-512 | at word granularity `changed` is set exactly when the lines changed in that sense, or the texts differ and under the token cap some run of the word script changes a visible character |
| ChangedFlag.WordsChangedForSameLines | src/cache/diff-engine.ts:427-512 | two texts of the same two lines whose line endings trade places are reported as changed |
| ChangedFlag.SectionsChangedExactly | src/cache/diff-engine.ts:550-659 | at section granularity `changed` is set exactly when the texts differ and are over the cap, or differ before the first heading or in the bodies under some title |
| DiffEngine.SectionsSameWhenLinesSame | src/cache/diff-engine.ts:550-659 | texts with the same lines give no section hunk and a zero summary |
| DiffEngine.SectionsMissHeadingLevel | src/cache/diff-engine.ts:550-659 | texts that differ in a heading's level alone give no section hunk |
| DiffEngine.SectionsSilentExactly | src/cache/diff-engine.ts:550-659 | no hunk is reported exactly when the preludes agree and for every title the bodies under it are the same in the same order |
| EmbeddingLifecycle.FastembedEmbedProvider.GetModelNow | src/embedding/fastembed-provider.ts:148-189 | the resident model, else the load in flight, else a new load stamped with the current generation |
| EmbeddingLifecycle.FastembedEmbedProvider.EmbedBegins | src/embedding/fastembed-provider.ts:191-194 | the count is raised before the model is asked for |
| EmbeddingLifecycle.FastembedEmbedProvider.LoadResolved | src/embedding/fastembed-provider.ts:162-178 | a load of an older generation is never published: released at once when idle, deferred otherwise |
| EmbeddingLifecycle.FastembedEmbedProvider.LoadRejected | src/embedding/fastembed-provider.ts:179-185 | only the load that is still current clears the promise |
| EmbeddingLifecycle.FastembedEmbedProvider.EmbedEnds | src/embedding/fastembed-provider.ts:203-219 | the last embed takes all deferred sessions; without any it resolves the armed waiter |
| EmbeddingLifecycle.FastembedEmbedProvider.EmbedRechecks | src/embedding/fastembed-provider.ts:210-219 | after the releases the waiter is resolved only if no new embed has begun |
| EmbeddingLifecycle.FastembedEmbedProvider.Drain | src/embedding/fastembed-provider.ts:123-129 | disposals share one armed waiter |
| EmbeddingLifecycle.FastembedEmbedProvider.DisposeBegins | src/embedding/fastembed-provider.ts:138-146 | the generation is bumped, the resident model and the promise are dropped, and a waiter is needed exactly with embeds in flight; what that does to loads in flight is stated along runs below |
| EmbeddingLifecycle.InvKept | src/embedding/fastembed-provider.ts:138-220 | every step of every interleaving keeps each session with one owner and every active embed on an owner that cannot release yet |
| EmbeddingLifecycle.NeverReleasedInUse | src/embedding/fastembed-provider.ts:138-220 | in every reachable state no session is released twice, the resident one is not released, and no embed holds or awaits a released one |
| EmbeddingLifecycle.ObligationsAreKept | src/embedding/fastembed-provider.ts:123-219 | in every reachable state the counter is the number of active embeds, a deferred session means one is active, an armed waiter means some embed will still recheck, and every waiting disposal has a waiter that is armed or resolved |
| EmbeddingLifecycle.NothingLeaks | src/embedding/fastembed-provider.ts:162-219 | when nothing is pending, every session ever loaded except the resident one has been released |
| EmbeddingLifecycle.Progress | src/embedding/fastembed-provider.ts:138-220 | while a call is pending some step is possible without a new call |
| EmbeddingLifecycle.InternalStepsFinish | src/embedding/fastembed-provider.ts:138-220 | every step without a new call lowers a measure, so without new calls all calls end |
| EmbeddingHistory.DisposeInvalidates | src/embedding/fastembed-provider.ts:138-175 | a load in flight when some dispose begins is never the resident model at any later point of the run, and when it resolves its session is released or deferred |
| EmbeddingHistory.DisposeReleasesEverything | src/embedding/fastembed-provider.ts:138-175 | when no call asks for the model after a dispose and nothing is pending, no model is resident and every session ever made has been released |
| EmbeddingHistory.DisposeTakesModel | src/embedding/fastembed-provider.ts:138-146 | a dispose leaves no resident model; the session that was resident is released at once without active embeds, and kept by the waiting disposal otherwise |
| EmbeddingHistory.EmbedSharesModel | src/embedding/fastembed-provider.ts:148-150 | an embed takes the resident model, else joins the load in flight, and only without both begins a load |
| EmbeddingHistory.OneCurrentLoad | src/embedding/fastembed-provider.ts:148-189 | a load of the current generation in flight is the only one, it is the promise, and no model is resident |
| EmbeddingHistory.UndisturbedLoadIsPublished | src/embedding/fastembed-provider.ts:162-178 | a load that is begun and resolved with no dispose between becomes the resident model, and stays until the next dispose |
| SiteMapper.MapUrls | src/crawl/mapper.ts:70-162 | terminates with at most max(1, max_pages) distinct URLs, all within max_depth + 1 matching hops of the seed or a matching sitemap URL, all of those when below the cap, the seed first and nearer pages before farther ones, under the cap never a page left out for a farther one, each page fetched at most once, with the error cases |
| SiteMapper.AddSitemap | src/crawl/mapper.ts:95-116 | matching sitemap URLs are found at depth zero up to the cap |
| SiteMapper.VisitLinks | src/crawl/mapper.ts:129-149 | the matching links of a page are found one level deeper up to the cap, and the queue stays sorted by depth |
| SiteMapper.AddKeepsInv | src/crawl/mapper.ts:118-152 | adding a page behind the queue keeps visited sets, fetch log, reachability and depth order |
| SiteMapper.PopKeepsInv | src/crawl/mapper.ts:118-152 | taking the head moves the level up to its depth and keeps the invariant |
| SiteMapper.Complete | src/crawl/mapper.ts:118-152 | with an empty queue every page within k hops was found at distance at most k |
| SiteMapper.NearComplete | src/crawl/mapper.ts:118-152 | while the walk reads pages k hops away, every page within k hops has been found at no more than its distance, even when the cap cuts the level short |
| SiteMapper.ShortestFound | src/crawl/mapper.ts:118-152 | so recorded levels are shortest distances and nothing left out is nearer than anything listed |
| BrandPalette.PickSeeds | src/extraction/brand-palette.ts:123-145 | the seeds are the first k new colours at multiples of the stride max(1, floor(pixels / 4k)), in order, filled up with the drawn pixels |
| BrandPalette.SeedsArePixels | src/extraction/brand-palette.ts:123-145 | such seeds are pixels of the image, the strided ones pairwise different, the first of them pixel 0 |
| BrandPalette.PixelsHoldBytes | src/extraction/brand-palette.ts:130-133 | the channels of the pixels, red, green and blue in turn, are the bytes of the image in order |
| BrandPalette.DistanceByChannel | src/extraction/brand-palette.ts:147-152 | the distance adds up over the channels alike, is the square along one channel, and vanishes exactly between equal colours |
| BrandPalette.FindNearest | src/extraction/brand-palette.ts:158-221 | the first centroid at the least squared distance |
| BrandPalette.AssignPixels | src/extraction/brand-palette.ts:158-221 | the reset accumulators hold the channel sums and counts of the pixels assigned to each centroid |
| BrandPalette.UpdateCentroids | src/extraction/brand-palette.ts:158-221 | populated clusters move to their mean, empty ones keep their centroid, and `moved` says whether some channel moved by more than a unit |
| BrandPalette.MeanLowersClusterCost | src/extraction/brand-palette.ts:158-221 | no centre serves a populated cluster better than its mean |
| BrandPalette.IterationLowersCost | src/extraction/brand-palette.ts:158-221 | one iteration never raises the sum over pixels of the squared distance to the nearest centroid |
| BrandPalette.UpdateInRange | src/extraction/brand-palette.ts:158-221 | centroids stay inside the channel range |
| BrandPalette.CountsTotalPixels | src/extraction/brand-palette.ts:158-221 | the cluster counts total the pixel count |
| BrandPalette.Refine | src/extraction/brand-palette.ts:169-213 | the iterations leave centroids no worse than the seeds and stop at the cap or at an update that moved nothing by more than a unit |
| BrandPalette.KMeans | src/extraction/brand-palette.ts:158-221 | the result starts from those seeds, costs no more than they do, counts every pixel once, stays in range, and stops early only after an update that moved no channel by more than one unit either way |
| BrandPalette.ClusteringIsGood | src/extraction/brand-palette.ts:158-221 | the same guarantees for any result of one last update of centroids at least as good as the seeds |
| PaletteRanking.RankAndFilterClusters | src/extraction/brand-palette.ts:231-279 | the loops with their breaks give the candidates saturated-first and merged |
| PaletteRanking.PopulatedRead | src/extraction/brand-palette.ts:234-244 | the clusters with pixels and no others, in order, with channels rounded to the nearest integer |
| PaletteRanking.MonochromeExactly | src/extraction/brand-palette.ts:243-245 | for channels of a byte a cluster is monochrome exactly when its channels lie less than 30 apart |
| PaletteRanking.OnlyRead | src/extraction/brand-palette.ts:246-248 | the clusters of one kind and no others, in order |
| PaletteRanking.FirstColour | src/extraction/brand-palette.ts:231-279 | some colour comes out exactly when some cluster has pixels, and the first is a largest saturated one, or a largest grey when none is saturated |
| PaletteRanking.ToleranceIsEight | src/extraction/brand-palette.ts:263-273 | two colours are merged exactly when no channel differs by more than 8 |
| PaletteRanking.BySizeSortsStably | src/extraction/brand-palette.ts:231-279 | larger clusters come first, equal ones keep their order, none is lost |
| PaletteRanking.DedupeRepresents | src/extraction/brand-palette.ts:263-277 | kept colours keep their order, and every candidate is kept or within the tolerance of an earlier kept one |
| PaletteRanking.DedupeIsApart | src/extraction/brand-palette.ts:263-277 | no two palette colours are within the tolerance of each other |
| PaletteRanking.TwoColoursExactly | src/extraction/brand-palette.ts:249-277 | two colours come out exactly when some candidate is outside the tolerance of the first one |
| PaletteRanking.TwoColoursFromClusters | src/extraction/brand-palette.ts:231-279 | in terms of the clusters: with two or more saturated ones exactly when one of those considered is outside the tolerance of the largest, with one exactly when a grey is outside its tolerance, with none exactly when a grey is outside the tolerance of the largest grey |
| PaletteRanking.DistinctColourLost | src/extraction/brand-palette.ts:231-279 | red and white clusters give both colours; with an almost equal red beside them the white is lost |
| RateLimiter.RespondKeepsBounds | src/crawl/rate-limiter.ts:98-128 | one response keeps the multiplier between 1 and max(1, cooldownMax / delay) |
| RateLimiter.MultiplierBounded | src/crawl/rate-limiter.ts:98-128 | so does every sequence of responses |
| RateLimiter.BaseBounded | src/crawl/rate-limiter.ts:80-91 | the unjittered wait never passes the larger of base delay and cooldown ceiling |
| RateLimiter.WaitBounded | src/crawl/rate-limiter.ts:80-91 | every wait lies between the robots floor and max(floor, max(delay, cooldownMax) * (1 + jitter)) |
| RateLimiter.CooldownRecovers | src/crawl/rate-limiter.ts:114-128 | a multiplier within factor^k is exactly 1 after 3k consecutive successes |
| RequestSpacing.BlocksBackOff | src/crawl/rate-limiter.ts:102-112 | n blocks in a row multiply the multiplier by the factor n times, up to its cap, and end the success streak |
| RequestSpacing.SuccessesDecay | src/crawl/rate-limiter.ts:114-128 | from a fresh streak 3k successes divide the multiplier by the factor exactly k times, never below 1 |
| RequestSpacing.WaitAcrossDraws | src/crawl/rate-limiter.ts:80-91 | the wait runs evenly with the draw from base less jitter to base plus jitter, never under the robots delay or zero |
| RequestSpacing.DelayInForce | src/crawl/rate-limiter.ts:151-181 | the delay in force is the largest of the configured one and those set by robots |
| RateLimiter.RaisedDelay | src/crawl/rate-limiter.ts:174-178 | after a robots delay is set, all computed waits stay under the ceiling exactly when the multiplier is within the cap of the delay then in force |
| RateLimiter.RaisedDelayCanPassCeiling | src/crawl/rate-limiter.ts:174-178 | a fresh domain at 1 s, blocked twice and then given a robots delay of 2 s, waits 8 s where the ceiling is 5.2 s |
| RateLimiter.NextBlockRestores | src/crawl/rate-limiter.ts:102-112 | the next block brings the multiplier back under the cap of the raised delay |
| RateLimiter.Limiter.SetRobotsCrawlDelay | src/crawl/rate-limiter.ts:58-60 | seconds are stored as milliseconds for that domain alone |
| RateLimiter.Limiter.GetOrCreateState | src/crawl/rate-limiter.ts:151-181 | a new domain starts from configuration and robots delay, a known one only ever raises its delay |
| RateLimiter.Limiter.NextWaitMs | src/crawl/rate-limiter.ts:74-78 | the wait of a known domain, zero for an unknown one |
| RateLimiter.Limiter.RecordResponse | src/crawl/rate-limiter.ts:98-128 | only the responding domain changes, an unknown one not at all |
| RateLimiter.Limiter.StartRequest | src/crawl/rate-limiter.ts:183-191 | one more active request, stamped with the time |
| RateLimiter.Limiter.Acquire | src/crawl/rate-limiter.ts:130-149 | a free slot starts the caller or puts it to sleep without reserving the slot, a full domain queues it at the tail |
| RateLimiter.Limiter.Release | src/crawl/rate-limiter.ts:183-208 | the slot is freed and the head of the queue, if any, starts now when its wait is over and is scheduled otherwise |
| RequestSpacing.AcquireOutcome | src/crawl/rate-limiter.ts:130-149 | with a free slot a caller starts at once exactly when there was no request yet or its wait is over, and otherwise sleeps until the last request plus the wait; without one it queues |
| RequestSpacing.ReleaseOutcome | src/crawl/rate-limiter.ts:183-208 | the head of the queue starts exactly when a slot is free and its wait is over; otherwise its start is due at the last request plus the wait |
| RequestSpacing.StartsAreSpaced | src/crawl/rate-limiter.ts:130-208 | in every run, whoever starts in an acquire or a release after an earlier request does so at least the computed wait, hence the robots delay, after it |
| RequestSpacing.TimersAreSpaced | src/crawl/rate-limiter.ts:139-142 | in every run, whoever sleeps or stands on a timer starts at least the wait computed then after the request that was then the last |
| RequestSpacing.QueuedCallersAreSpaced | src/crawl/rate-limiter.ts:193-208 | in every run, a caller leaves the queue by a release only, and starts at least the wait computed there, hence the robots delay, after the last request before that release |
| RequestSpacing.WhoStarts | src/crawl/rate-limiter.ts:130-208 | a step starts nobody but its own caller, the head of the queue, or the caller whose sleep or timer ends |
| RateLimiter.InvKept | src/crawl/rate-limiter.ts:130-208 | every step, responses and robots delays included, keeps callers in one place each, the counter equal to the slots held, first-in first-out order, a server for a waiting queue, and no request later than the clock |
| RateLimiter.NobodyStranded | src/crawl/rate-limiter.ts:130-208 | in every run a non-empty queue implies a held slot or a scheduled start, and callers leave the queue in the order they joined |
| RateLimiter.StepsServe | src/crawl/rate-limiter.ts:130-208 | every wake, fired timer and release lowers the remaining work, and only a new call adds any |
| RateLimiter.ServingGoesOn | src/crawl/rate-limiter.ts:130-208 | while work remains such a step is possible, so without new calls everyone is served |
| RateLimiter.LimitHoldsWithoutWaits | src/crawl/rate-limiter.ts:130-208 | in a run whose computed waits leave nothing to wait for, active requests stay within the limit and a non-empty queue means the limit is fully used |
| RateLimiter.NoDelayNeverWaits | src/crawl/rate-limiter.ts:80-91 | with no delay configured and none from robots every run is of that kind, whatever the draws, responses and clock |
| RateLimiter.LimitKeptExactly | src/crawl/rate-limiter.ts:134-142 | the limit is kept in all runs exactly when the configured delay and all robots delays are zero; with a positive one, limit + 1 callers can sleep past the test and start together |
| VectorStore.SqliteVecStore.Upsert | src/cache/sqlite-vec-store.ts:73-115 | a batch, repeated ids included, leaves the three tables aligned and denoting the old map overwritten record by record |
| VectorStore.SqliteVecStore.Delete | src/cache/sqlite-vec-store.ts:211-233 | the listed ids disappear from all three tables and from the map, unknown ones are skipped |
| VectorStore.SqliteVecStore.Size | src/cache/sqlite-vec-store.ts:235-238 | the row count is the cardinality of the map |
| VectorStore.DenotesOneMap | src/cache/sqlite-vec-store.ts:73-115 | aligned tables denote one map and no other |
| VectorStore.UpdateRow | src/cache/sqlite-vec-store.ts:79-106 | storing under an existing row keeps the alignment and replaces that id's entry alone |
| VectorStore.InsertRow | src/cache/sqlite-vec-store.ts:79-106 | storing under the next row id keeps the alignment and adds that id's entry alone |
| VectorStore.DeleteRow | src/cache/sqlite-vec-store.ts:211-221 | removing a row with its cascade keeps the alignment and removes that id alone |
| VectorStore.LastRecordWins | src/cache/sqlite-vec-store.ts:73-115 | after a batch an id maps to its last record in the batch |
| VectorStore.PutAllTouches | src/cache/sqlite-vec-store.ts:73-115 | a batch touches the ids it mentions and no other |
| VectorStore.RemovedExactly | src/cache/sqlite-vec-store.ts:211-233 | deleting removes exactly the listed ids |
| VectorStore.SizeIsCardinality | src/cache/sqlite-vec-store.ts:235-238 | aligned tables have as many rows as the map has ids |
| VectorStore.SqliteVecStore.Search | src/cache/sqlite-vec-store.ts:117-209 | the loop with its skip and its early stop returns the first `limit` passing hits among the fetched neighbours |
| VectorStore.HitsOfPassing | src/cache/sqlite-vec-store.ts:181-206 | the hits are those of the rows that pass the filter and no others, in the order of the rows |
| VectorStore.FiltersByField | src/cache/sqlite-vec-store.ts:241-252 | a filter asks each of its fields separately, and the filter made of some metadata finds exactly metadata with that url, hash and model and at least those extra fields |
| VectorStore.UnfilteredSearch | src/cache/sqlite-vec-store.ts:117-209 | unfiltered search returns min(limit, size) hits, a prefix of the full ranking, and leaves out no entry that scores higher than a returned one |
| VectorStore.FilteredSearchIsPrefix | src/cache/sqlite-vec-store.ts:130-209 | filtered search returns a prefix of the filtered full ranking, at most limit long |
| VectorStore.HitsDescend | src/cache/sqlite-vec-store.ts:180-209 | scores never rise along a ranking and no id appears twice in it |
| VectorStore.HitsAreStored | src/cache/sqlite-vec-store.ts:180-209 | every hit is a stored entry that passes the filter, with its own metadata and score |
| VectorStore.CloserScoresHigher | src/cache/sqlite-vec-store.ts:198-202 | nearer entries score no lower, and scores lie in (0, 1] |
| VectorStore.Reciprocal | src/cache/sqlite-vec-store.ts:201 | the score times one plus the distance is one |
| VectorStore.SmallStoreMissesNothing | src/cache/sqlite-vec-store.ts:130-133 | a store no larger than the over-fetch gives the complete filtered answer |
| VectorStore.OverfetchIsEnoughExactly | src/cache/sqlite-vec-store.ts:130-133 | filtered search is certain to be complete exactly up to max(5 * limit, 50) rows |
| VectorStore.SqliteVecStore.FindSimilar | src/embedding/embed.ts:292-303 | no excluded id is returned; for topK >= 1 the results are the first topK hits of the full ranking outside the excluded ids, in order, as many as topK or as there are stored ids outside them; below one they are at most the first such hit of the overscan |
| VectorStore.FirstOutsideIsUnique | src/embedding/embed.ts:297-303 | only one list is the first topK hits outside the excluded ids |
| VectorStore.FirstKept | src/embedding/embed.ts:297-303 | the loop's specification is that list for any hits, excluded ids and limit |
| VectorStore.OverscanSuffices | src/embedding/embed.ts:292-303 | for distinct ids, searching max(topK + excluded, 2 * topK) hits loses nothing |
| VectorStore.FewAreDropped | src/embedding/embed.ts:297-303 | exclusion drops at most as many hits as there are excluded ids |
| VectorStore.OverscanExactExactly | src/embedding/embed.ts:292-303 | the overscan is exact for every list of distinct hits exactly when topK >= 1 or topK plus the excluded ids is at most zero |
| Levenshtein.LevenshteinDistance | src/cli/flag-bridge.ts:209-225 | the two swapped rows and the two early returns compute the recursive distance |
| Levenshtein.DistanceIsLeastCost | src/cli/flag-bridge.ts:209-225 | some script of keeps, replacements, removals and additions costs the distance and none costs less |
| Levenshtein.DistanceIsMetric | src/cli/flag-bridge.ts:209-225 | zero exactly between equals, symmetric, and the triangle inequality |
| Levenshtein.TriangleOfPrefixes | src/cli/flag-bridge.ts:209-225 | the triangle inequality for all prefixes |
| Levenshtein.DistanceBounds | src/cli/flag-bridge.ts:209-225 | between the difference and the maximum of the two lengths |
| Levenshtein.DistanceBetweenLcsBounds | benchmarks/extraction/tokenizer.ts:79-106 | max(m, n) - LCS <= distance <= m + n - 2 * LCS |
| Levenshtein.NearestFlag | src/cli/flag-bridge.ts:227-238 | a suggestion exactly when some known flag is within two edits, and then the first of the closest |
| RankingMetrics.ComputeDcg | benchmarks/search/metrics.ts:63-77 | skipping zero grades does not change the weighted sum |
| RankingMetrics.ComputeNdcg | benchmarks/search/metrics.ts:79-108 | the early returns agree with the ratio being zero or undefined |
| RankingMetrics.ComputeNdcgAtK | benchmarks/search/metrics.ts:110-123 | the score of the first k, zero for k <= 0 |
| RankingMetrics.NdcgIsShare | benchmarks/search/metrics.ts:79-108 | for every ranking, repeated URLs included, NDCG times the ideal DCG is the actual DCG, and NDCG is zero exactly when no listed URL has a positive grade |
| RankingMetrics.GradeIsFirst | benchmarks/search/metrics.ts:11-19 | the grade of a URL is that of its first judgment under the query, zero without one |
| RankingMetrics.QueryGradesRead | benchmarks/search/metrics.ts:87-98 | the query's grades are those of exactly its judgments, in order |
| RankingMetrics.IdealIsBest | benchmarks/search/metrics.ts:95-98 | the ideal grades are as many as URLs are ranked or judged, in descending order, and nothing left of the query's grades is larger |
| RankingMetrics.DcgOfSum | benchmarks/search/metrics.ts:63-77 | DCG is additive in the grades |
| RankingMetrics.DcgOfOne | benchmarks/search/metrics.ts:63-77 | a single grade counts with the weight of its position |
| RankingMetrics.SortSorts | benchmarks/search/metrics.ts:95-98 | the ideal grades are the query's grades in descending order |
| RankingMetrics.DistinctUrlsWithin | benchmarks/search/metrics.ts:11-19 | over distinct URLs each positive grade is used at most as often as it was judged |
| RankingMetrics.BestSum | benchmarks/search/metrics.ts:79-108 | no selection of judged grades sums to more than the best of that number |
| RankingMetrics.LeadCarriesOver | benchmarks/search/metrics.ts:63-77 | a lead in every prefix sum is a lead in DCG for any positive decreasing weights |
| RankingMetrics.DominatedScoresLess | benchmarks/search/metrics.ts:63-77 | dominated grades score no more, and the same only when they are the same grades |
| RankingMetrics.NdcgOfDistinctUrls | benchmarks/search/metrics.ts:79-108 | for distinct URLs actual DCG is at most ideal DCG, NDCG lies in [0, 1], and it is 1 exactly when some grade is positive and the grades are the ideal ones position by position |
| RankingMetrics.RepeatedUrlExceedsOne | benchmarks/search/metrics.ts:79-108 | a ranking that repeats a URL exceeds 1 when each listed URL is judged relevant once |
| RankingMetrics.WithinOneExactly | benchmarks/search/metrics.ts:79-108 | NDCG stays within 1 for all judgments exactly when no URL is listed twice |
| CrawlDedup.SplitIntoBlocks | src/crawl/dedup.ts:4-36 | cutting at the heading indices gives the blocks that headings open and other lines join |
| CrawlDedup.SlicesAreBlocks | src/crawl/dedup.ts:27-33 | slices between consecutive headings are those blocks |
| CrawlDedup.BlocksHoldTheRest | src/crawl/dedup.ts:22-33 | preface and blocks together are all lines, once and in order |
| CrawlDedup.PrefaceDropped | src/crawl/dedup.ts:22-33 | no line is lost exactly when a heading comes first |
| CrawlDedup.BlocksOfText | src/crawl/dedup.ts:4-36 | the blocks of a text are its parts that do not trim to nothing, trimmed, in order; the parts are the lines from each heading up to the next, joined, or the paragraphs of a text without headings |
| CrawlDedup.Tally | src/crawl/dedup.ts:66-83 | a page adds one for each key it has, however often |
| CrawlDedup.CountNavigation | src/crawl/dedup.ts:60-83 | counts are the true numbers of pages with the key among the first 30 or the last 20 lines |
| CrawlDedup.CutExactly | src/crawl/dedup.ts:60-95 | a line may be cut at the head of a page exactly when it is blank or its key is among the first 30 lines of at least 60% of the pages, and at the tail with the last 20 lines |
| CrawlDedup.StripLines | src/crawl/dedup.ts:89-97 | the two cursors leave the middle of the page |
| CrawlDedup.StrippedIsMiddle | src/crawl/dedup.ts:89-97 | stripping keeps one stretch, cuts only blank or repeated lines around it, and could cut no more |
| CrawlDedup.MiddleIsUnique | src/crawl/dedup.ts:89-97 | no other stretch has that property |
| CrawlDedup.StrippedPageReads | src/crawl/dedup.ts:60-97 | with four pages or more a page becomes that stretch of its lines, joined, under the same url; with fewer it stays |
| CrawlDedup.StripRepeatedNavigationLines | src/crawl/dedup.ts:60-97 | each page is stripped by the corpus-wide counts; fewer than four pages are left alone |
| CrawlDedup.FrequentHashes | src/crawl/dedup.ts:113-133 | a hash is frequent exactly when the true number of pages containing it is more than half |
| CrawlDedup.MajorityExactly | src/crawl/dedup.ts:113-133 | a block is boilerplate by majority exactly when the set of pages with its key is more than half of the pages |
| CrawlDedup.SurvivorsArePicked | src/crawl/dedup.ts:140-147 | survivors are exactly the blocks that are not boilerplate, in order |
| CrawlDedup.SurvivorsAreRare | src/crawl/dedup.ts:140-147 | nothing that survives is stored for the domain or on more than half of the pages |
| CrawlDedup.CleanPageIsCleaned | src/crawl/dedup.ts:139-147 | a cleaned page is exactly the blocks that are neither stored nor on more than half of the pages, in order, each whole, with two newlines between neighbours and nothing else |
| CrawlDedup.CountIfReordered | src/crawl/dedup.ts:113-124 | counting pages does not depend on their order |
| CrawlDedup.OrderDoesNotMatter | src/crawl/dedup.ts:99-148 | what a page becomes and what the domain learns do not depend on the order of the pages |
| CrawlDedup.DomainBoilerplate.GetStoredBoilerplate | src/crawl/dedup.ts:150-154 | the hashes stored for the domain |
| CrawlDedup.DomainBoilerplate.StoreBoilerplate | src/crawl/dedup.ts:156-169 | the domain's rows become exactly the given hashes, other domains keep theirs |
| CrawlDedup.DomainBoilerplate.DeduplicatePages | src/crawl/dedup.ts:99-148 | every returned page consists of exactly its rare blocks, in order and joined by exactly two newlines; the domain remembers what it knew plus the blocks on more than half of the pages, so its set never shrinks; one page passes through and changes nothing |

## Left out

- Regular expressions, HTML, URL parsing and hashing: the heading test, whitespace test, canonical form, pattern match, trimming and hashes are parameters; hashes appear as keys, so two texts are the same block exactly when their keys are equal.
- SQLite, ONNX, image decoding, timers and the network: only the table updates, load results, clock values and fetched links they produce are modelled; transactions are atomic and the clock is a parameter.
- Floating point: centroids, distances, scores, discounts, jitter and cooldown are real numbers, and `log2` is any positive, strictly decreasing weight.
- Exceptions caught and logged with a default result (the metrics, the tokenizer, the embedding service) cannot occur in the model.
- Extra metadata values are strings; values that compare by reference in JavaScript are not modelled, nor are `created_at` timestamps.
- The order in which the index returns equally distant rows is a parameter (`ranking`): any order that never puts a farther row first.
- VectorStore.SqliteVecStore.FindSimilar: starts from a known query vector; readiness of the provider, the cached size and the failure paths of the service are not modelled.
- EmbeddingLifecycle.NothingLeaks: a release that fails counts as a release, and the moment at which a stale load's own promise settles, after its release at once, is not separated from the release.
- BrandPalette.KMeans: requires whole pixels, as the decoder delivers three channels for each.
- PaletteRanking.RankAndFilterClusters: returns rounded channels; printing them as hexadecimal is not modelled.
- RateLimiter: the domain of a URL and whether its host is private are parameters, every caller releases its slot once, the clock never runs back, and no timer fires early.
- SiteMapper.MapUrls: completeness assumes that URLs with one canonical form have the same links, since the code fetches only one of them; finding sitemap URLs is an input.
- CrawlDedup.DomainBoilerplate.DeduplicatePages: the block order within a page is kept, the sample text column is not modelled.
- `benchmarks/search/metrics.ts` precision, reciprocal rank and latency percentiles, and the n-gram and overlap counts of the tokenizer: direct computations with no property beyond their definition.
- `src/cli/flag-bridge.ts` flag parsing, `src/embedding/embed.ts` provider loading, `src/embedding/background-queue.ts` and `src/crawl/sitemap-first.ts`: not modelled.
