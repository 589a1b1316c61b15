# Verification of the text-to-SQL service

A Dafny model of the algorithms and state machines this service rests on, with
proofs of what they promise. One module per component; `dafny verify dfyconfig.toml`
checks everything.

| area | modules |
|---|---|
| Server pool of the evaluation runner | `LruPool` |
| Result comparison | `Permutations`, `Comparison` |
| Server-sent events, parser and encoder | `SseFraming`, `SseChunking`, `SseBlocks`, `SseParser`, `SseEncoding` |
| Conversion checking | `LimitTie`, `LimitWindow`, `Verification`, `FaithfulConversion` |
| Resumable evaluation | `Taxonomy`, `RunStore`, `EvalRunner`, `QuestionSet`, `EvalChains` |
| Admission and streaming | `StreamProtocol`, `StreamDelivery`, `StreamLifetime`, `QueryService` |
| Benchmark conversion | `Identifiers`, `PgTypes`, `ConversionPlan`, `ForeignKeyTypes`, `ForeignKeyPasses` |
| Schema catalog | `SchemaIndexer` |
| Row limits | `RowLimit` |
| Model fallback | `FallbackChain` |
| Shared | `Wrappers`, `Sequences` |

Databases, engines, models and files appear as sequences, maps and functions whose
values are arbitrary: what a query returns, what an answerer says and which cast
succeeds are inputs. Code that updates objects is modelled by classes whose methods
are proved against functions of the old state, and the results are proved about those
functions. Concurrency is modelled as interleavings of the stretches between awaits.

## What one might expect and the code does not do

Each of these is proved, with a concrete input and, where there is one, the exact condition. Some are documented.

- A faithful conversion can be reported as a mismatch. The exact condition is `FaithfulConversion.CanMismatchIff`; causes
  are a tie at the near edge of a LIMIT/OFFSET window (`FaithfulConversion.NearEdgeTieMismatches`) and a tie check that is
  skipped, for DISTINCT, for a compound query, or because its probe fails as with an ORDER BY alias
  (`FaithfulConversion.SkippedCheckMismatches`, `FaithfulConversion.PlainLimitMismatchesIff`).
- A reported tie need not leave the answer open (`LimitTie.TieMayBeInvisible`, `LimitTie.UndeterminedIffVisibleTie`), and
  an ORDER BY ordinal makes every cut look tied (`LimitTie.ConstantKeyIsAlwaysTied`).
- A missing table or column does not stop a database from counting as verified
  (`Verification.ConversionFaultsDoNotUnverify`).
- Foreign keys that match a table only ignoring case are dropped, although the lookup exists to keep them
  (`ConversionPlan.CaseMismatchIsDropped`, `ConversionPlan.PlanOneKey`).
- One unification pass can leave chained foreign keys with different types (`ForeignKeyTypes.ChainedKeysMayDisagree`). It
  leaves every key settled exactly when a second pass is idle (`ForeignKeyPasses.OnePassSettlesIffSecondIsIdle`), and a key
  is safe when no later one shares its columns (`ForeignKeyPasses.LastOfItsColumnsIsSettled`).
- A LIMIT that is not a plain integer is replaced by the server's limit (`RowLimit.ComputedLimitIsIgnored`,
  `RowLimit.BoundedIsExactIff`).
- A matched question can be filed as a retrieval miss (`EvalRunner.MatchFiledAsMiss`, `EvalRunner.MatchedButNotClean`).
- A stream that is admitted and never read keeps its slot (`QueryService.NeverEnteredKeepsSlot`), and so does one whose
  worker raises outside the failures it handles (`QueryService.EnteredReleasesOnce`); enough of them stop all admission
  (`QueryService.AbandonedStreamsStarve`).
- A chain that found models spent forgets it when no model answers (`FallbackChain.UnansweredRequestForgets`,
  `FallbackChain.ExhaustedIsRememberedIff`), and overlapping requests can move it back
  (`FallbackChain.OverlapMaySetBack`, `FallbackChain.OverlapSetsBackIff`).
- The parser's line bound depends on how the network cut the text (`SseChunking.LineBoundDependsOnTheCut`,
  `SseChunking.SurvivesEveryCutIff`); an event without data is dispatched, unlike in section 9.2.6 of the WHATWG HTML
  Living Standard (`SseBlocks.FoldIsPerBlock`).
- `elements_written` counts writes, which are rows only if no element is listed twice
  (`SchemaIndexer.RepeatedElementIsOneRow`, `SchemaIndexer.WrittenCountsRowsIff`).

## Model

| member | source | states |
|---|---|---|
| LruPool.BiggerPoolNeverStartsMore | src/evals/run.py:134-143 | Raising `--mcp-max-live` never costs a launch: for every access sequence a pool with a larger bound starts at most as often as one with a smaller bound, which is what the advice in the help text needs |
| LruPool.SmallerPoolIsSuffix | src/evals/mcp_client.py:527-549 | The stack property behind it: after any accesses, what the smaller pool holds is exactly the most recent end of what the larger pool holds |
| LruPool.RecencyIsLastUseOrder | src/evals/mcp_client.py:527-549 | Recency order as the pool keeps it is the order of last use: every dataset used appears once, ordered by the position of its last access |
| LruPool.LiveIsNewestOfRecency | src/evals/mcp_client.py:527-549 | The live clients are the `max_live` most recently used distinct datasets, in recency order |
| LruPool.LiveIffRecentlyUsed | src/evals/mcp_client.py:537-540 | A dataset is live exactly when it was used and fewer than `max_live` other datasets were used since |
| LruPool.StartsAreMisses | src/evals/mcp_client.py:542-544 | `starts` counts exactly the accesses whose dataset was never used before, or was pushed out by `max_live` others since its last use |
| LruPool.StartsAtLeastDistinct | src/evals/mcp_client.py:511-522 | A run never starts fewer servers than it touches datasets, with any bound |
| LruPool.OneLiveIsEnoughIffGrouped | src/evals/mcp_client.py:495-499 | With a bound of one, each dataset starts exactly once if and only if the accesses are grouped by dataset, as the class promises for an ordered split |
| LruPool.McpClientPool.Create | src/evals/mcp_client.py:502-509 | A bound below one is refused, any other gives an empty pool |
| LruPool.McpClientPool.Acquire | src/evals/mcp_client.py:527-549 | The returned client runs and is pooled under its dataset, a pooled client is reused, other pooled clients are kept or closed, never replaced; order, launch count and bound follow the specification, and no server outside the pool is left running |
| LruPool.McpClientPool.Admit | src/evals/mcp_client.py:535-549 | One access end to end: order becomes that of the ordered dictionary after pop, evict and insert; one launch exactly on a miss; and the number of trees ever running at one moment stays within the bound |
| LruPool.McpClientPool.Launch | src/evals/mcp_client.py:542-544 | Starting happens with room already made: the servers running at that moment, the newcomer included, never exceed `max_live` |
| LruPool.McpClientPool.Take | src/evals/mcp_client.py:535-537 | `pop(dataset, None)` or a new, stopped client |
| LruPool.McpClientPool.EvictDown | src/evals/mcp_client.py:539-542 | Closes from the least recently used end until fewer than `max_live` remain, and leaves the rest running |
| LruPool.McpClientPool.EvictOldest | src/evals/mcp_client.py:540-542 | Removes and closes the least recently used client and no other |
| LruPool.McpClientPool.Insert | src/evals/mcp_client.py:548 | The acquired client becomes the most recently used |
| Comparison.CompareDecides | src/evals/comparison.py:97-169 | `compare` matches exactly when the results have one shape and some column permutation makes the rows equal (as a list or as a multiset), up to 8 columns; above that exactly when the rows are equal in place; and every match is sound |
| Comparison.OutcomeDecides | src/evals/comparison.py:122-169 | The rest of an outcome, for all inputs: a shape mismatch exactly for results of different shape, `match` exactly when matched, the order flag as asked, the fallback flag exactly for a non-empty pair of one shape wider than 8 columns, whose failure is a value mismatch |
| Comparison.VerdictDecides | src/evals/comparison.py:97-263 | The whole verdict by conditions on the data alone: shape, agreement, width, order, column contents |
| Comparison.SearchDecides | src/evals/comparison.py:180-213 | The identity-first, signature-pruned search with its early exit finds a candidate exactly when any permutation at all works |
| Comparison.PruningIsComplete | src/evals/comparison.py:202-213 | A permutation that works pairs columns with equal signatures, so neither the multiset test nor the pruning discards it |
| Comparison.SignatureMeans | src/evals/comparison.py:220-244 | Two columns have one signature exactly when they hold the same values, in the same order where order counts |
| Comparison.MatchIsReflexive | src/evals/comparison.py:97-169 | A result matches itself exactly when its rows have one width |
| Comparison.MatchIsSymmetric | src/evals/comparison.py:97-169 | Swapping predicted and gold does not change whether they match |
| Comparison.MatchIsTransitive | src/evals/comparison.py:97-169 | Matching is transitive, so with the two before it is an equivalence on well-shaped results |
| Comparison.ColumnOrderIsIgnored | src/evals/comparison.py:97-169 | Up to 8 columns, shuffling the predicted columns by any permutation leaves the verdict alone |
| Comparison.WideResultsAreStricter | src/evals/comparison.py:142-151 | A nine-column pair that differs by one column swap does not match, although some permutation works |
| Comparison.PairUpIffSignaturesAgree | src/evals/comparison.py:259-263 | The column signatures agree as multisets exactly when the columns can be paired with equal contents |
| Comparison.DiagnosisDecides | src/evals/comparison.py:245-263 | Each failing verdict names its cause exactly: order only, no pairing of column contents, or values; `NO_COLUMN_BIJECTION` means no permutation matches even ignoring row order |
| Permutations.OrderingsAreAll | src/evals/comparison.py:211-213 | The enumeration the search walks contains every permutation of the positions and nothing else |
| SseChunking.ChunkingIsInvisible | web/src/api/sse.ts:78-102 | For every text and every way of cutting it: feeding succeeds exactly when the event bound holds for the text and the line bound at every cut, and then frames and final state are those of the whole text |
| SseChunking.CutsAgree | web/src/api/sse.ts:78-102 | Two cuts of one text that both succeed give the same frames and the same state |
| SseChunking.EveryCutSucceedsIff | web/src/api/sse.ts:96-101 | No cut can trip a bound exactly when the events fit and no undrained tail of any prefix is too long |
| SseChunking.SurvivesEveryCutIff | web/src/api/sse.ts:96-101 | The same on the text: every line, with one more where its terminator starts with `\r`, and what follows the last line, are within the bound |
| SseChunking.ShortLinesNeverTrip | web/src/api/sse.ts:34-38 | Lines within the line bound and events within the event bound parse under every cut, to the frames of the whole text |
| SseChunking.LineBoundDependsOnTheCut | web/src/api/sse.ts:96-101 | The line bound is a property of the cut: an over-long comment line passes when its line feed comes with it and fails when it does not |
| SseChunking.PushStep | web/src/api/sse.ts:78-102 | Pushing a chunk after a text is parsing the concatenation, held `\r` included, or fails exactly on the bounds |
| SseFraming.BreakIsStable | web/src/api/sse.ts:110-128 | A line break found in a buffer is found at the same place whatever arrives later; a held `\r` is the reason |
| SseFraming.LinesAppend | web/src/api/sse.ts:84-94 | Draining what has arrived and then the rest gives the lines of the whole |
| SseFraming.LinesAreNormalizedSplit | web/src/api/sse.ts:110-128 | The lines are those of section 9.2.5 of the WHATWG HTML Living Standard: write every terminator as a line feed, split at line feeds |
| SseBlocks.FoldIsPerBlock | web/src/api/sse.ts:131-193 | Line-by-line interpretation equals reading the stream block by block between blank lines: frames are those of the blocks with a recognised field, and the event bound trips exactly when some block's data exceeds it |
| SseParser.Parser.Push | web/src/api/sse.ts:78-102 | The loop over the buffer computes the specified step on fields, buffer and frames, or the same error |
| SseParser.Parser.NextLineBreak | web/src/api/sse.ts:110-128 | The scan finds the first terminator, waiting on a final `\r` |
| SseParser.Parser.ConsumeLine | web/src/api/sse.ts:131-176 | Field parsing updates the event under assembly as specified, or reports the event bound |
| SseParser.Parser.DispatchEvent | web/src/api/sse.ts:179-193 | A blank line emits the event if any field was seen, data or not, and resets the assembly |
| SseFraming.FieldRule | web/src/api/sse.ts:141-146 | A line without a colon is a field name; otherwise the first colon ends the name, and one space after it is dropped |
| SseFraming.JoinThenSplit | web/src/api/sse.ts:186 | Several data lines are joined by single line feeds, in order: splitting the payload gives them back |
| SseFraming.DispatchMeans | web/src/api/sse.ts:179-193 | A blank line emits what was assembled, named `message` when it had no name and empty when it had no data, and resets; with no field seen it emits nothing |
| SseFraming.BoundsAre | web/src/api/sse.ts:34-43 | A line of a million characters and data of eight million are accepted, one more of either is not |
| SseParser.FeedAll | web/src/api/sse.ts:78-102 | A fresh parser fed a list of chunks returns the specified frames, or the first error |
| SseParser.FeedKeepsWhole | web/src/api/sse.ts:196-205 | A parser with nothing pending is as good as new: no half-assembled event |
| SseEncoding.RoundTrip | src/api/sse.py:80-99 | Any list of encoded events and heartbeats within the line bound, concatenated and cut anywhere, parses to exactly the events' names and payloads in order, no frame for a heartbeat, nothing pending |
| SseEncoding.EncodesIff | src/api/sse.py:80-99 | An event encodes exactly when its name is legal and its payload is on one line, and then to two field lines and a blank one |
| SseEncoding.NameRule | src/api/sse.py:49 | A legal name has 1 to 31 characters, the first a lower-case letter, the others lower-case letters or underscores; every such name is legal |
| SseEncoding.DeliveryConditions | src/api/sse.py:80-99 | The round trip survives every cut exactly when every data line is within the parser's line bound, and survives in one piece exactly when every payload is within its event bound |
| LimitTie.VerdictIsWellDefined | src/benchmark/verify.py:570-614 | The tie verdict does not depend on how the engine broke ties |
| LimitTie.UntiedPrefixIsDetermined | src/benchmark/verify.py:598-614 | If the ORDER BY key changes across the cut, or nothing was cut, any two sorted arrangements of the same rows keep the same multiset above the cut |
| LimitTie.VisibleTieIsUndetermined | src/benchmark/verify.py:598-614 | If the key ties across the cut and two rows with that key look different, another correct arrangement shows a different prefix |
| LimitTie.InvisibleTieIsDetermined | src/benchmark/verify.py:598-614 | If all rows with the tied key look alike, every arrangement shows the same prefix |
| LimitTie.UndeterminedIffVisibleTie | src/benchmark/verify.py:598-614 | Exactly when a cut leaves the answer open: the key ties across it and some two rows with that key look different |
| LimitTie.TiedVerdictIsTie | src/benchmark/verify.py:570-614 | What the code reports is precisely a tie of the keys the probe appends, at limit plus offset, for a query that is not DISTINCT and has literal counts |
| LimitTie.VerdictAtLimitPlusOffset | src/benchmark/verify.py:637-646 | With a literal LIMIT n and no OFFSET, or a literal one, the check fires exactly when the query is not DISTINCT and the probe ties at n plus the offset |
| LimitTie.UnreadableIsNotTied | src/benchmark/verify.py:584-646 | Without a LIMIT, with a computed LIMIT or OFFSET, without a probe or for anything but a plain SELECT it never fires |
| LimitTie.BareLimitIsAlwaysTied | src/benchmark/verify.py:610-612 | With no ORDER BY any LIMIT that removes a row counts as tied |
| LimitTie.TieMayBeInvisible | src/benchmark/verify.py:613-614 | The verdict is not sufficient for an open answer: two identical tied rows are reported and the answer is unique |
| LimitTie.ConstantKeyIsAlwaysTied | src/benchmark/verify.py:592-601 | An ORDER BY ordinal is appended to the probe as a constant, and then every cut that removes a row is reported as tied |
| LimitWindow.WindowIsDetermined | src/benchmark/verify.py:625-646 | For LIMIT with OFFSET: if neither edge of the window cuts a tie a reader can see, all correct engines show the same rows in it |
| LimitWindow.OpenWindowIsUndetermined | src/benchmark/verify.py:625-646 | If either edge of a non-empty window cuts a visible tie, another correct engine shows different rows |
| LimitWindow.NearEdgeNeedsOffset | src/benchmark/verify.py:625-646 | Without OFFSET the only edge that can be open is the far one, and then the code's check finds it |
| LimitWindow.TieCheckIsFarEdge | src/benchmark/verify.py:625-646 | With readable counts the check fires exactly when the far edge of the window shown ties |
| LimitWindow.WindowMeans | src/benchmark/verify.py:625-646 | The window is what remains after the skipped rows, up to the limit |
| FaithfulConversion.CanMismatchIff | src/benchmark/verify.py:445-556 | Exactly when a conversion holding the same rows and ordering keys the same way can be reported as a mismatch, for every query, every width and every outcome of the tie check: the check does not fire (not tied, not run, or a statement of it failed) and two correct engines can show answers that disagree |
| FaithfulConversion.FaithfulNeverMismatches | src/benchmark/verify.py:445-514 | Such a conversion is never reported as a mismatch when the tie check fires or no edge of the window cuts a visible tie |
| FaithfulConversion.PlainLimitMismatchesIff | src/benchmark/verify.py:584-596 | For LIMIT n without OFFSET it can be reported exactly when the answer is open and the check was skipped: DISTINCT, a failing probe, or an unlimited result that did not run |
| FaithfulConversion.ProbeSeesTies | src/benchmark/verify.py:592-614 | The probe sees every tie at the cut when its keys are the sort keys, and when they are constants |
| FaithfulConversion.DisputeNeedsOpenEdge | src/benchmark/verify.py:625-646 | Answers that disagree need an edge of the window that cuts a visible tie |
| FaithfulConversion.DisputedIffOpenEdge | src/benchmark/verify.py:625-646 | For results of one column, or too wide to permute, such an edge is also enough |
| FaithfulConversion.ValueTieIsDisputed | src/benchmark/verify.py:625-646 | At every width it is enough that a row inside ties with one outside that holds other values, in whatever order |
| Verification.AgreementKeepsValues | src/evals/comparison.py:97-169 | Results that match, up to a column permutation, hold the same values row by row |
| FaithfulConversion.NearEdgeTieMismatches | src/benchmark/verify.py:625-646 | A concrete mismatch with every check run: LIMIT 1 OFFSET 1 with the tie across the near edge only |
| FaithfulConversion.SkippedCheckMismatches | src/benchmark/verify.py:584-605 | Concrete mismatches of LIMIT 1 across a tie: under DISTINCT, for a compound query, and when the probe fails |
| Verification.ClassesMean | src/benchmark/verify.py:48-131 | Match, ambiguous order and undetermined limit in terms of the data: rows agree up to columns in order, only without order, or disagree while the cut ties and the unlimited results agree |
| Verification.MismatchIff | src/benchmark/verify.py:483-514 | A query that ran on both sides mismatches exactly when the rows differ even without order and the limit was not found undetermined |
| Verification.FailuresMean | src/benchmark/verify.py:454-480 | A statement that does not run is classified by the first thing that failed; of the errors of PostgreSQL, exactly undefined table, undefined column and invalid schema blame the conversion |
| Verification.ReportAddsUp | src/benchmark/verify.py:174-229 | Every check is comparable, unscoreable, or a failure to translate or build; comparable is matched plus mismatched; and verified means some comparable query and no mismatch |
| Verification.ReportMeans | src/benchmark/verify.py:181-223 | The same for the report object: what `verified`, `comparable`, `unscoreable` and `matched` say about its checks |
| Verification.ConversionFaultsDoNotUnverify | src/benchmark/verify.py:212-223 | A missing table or column in the converted copy leaves `verified` true |
| Verification.VerifyDatabase | src/benchmark/verify.py:384-428 | One check per question, in order |
| Taxonomy.InfrastructureIff | src/evals/taxonomy.py:72-143 | A question is filed as infrastructure exactly when its gold query ran and its error type is one that resumption retries; a gold error wins over everything |
| Taxonomy.EarliestCauseWins | src/evals/taxonomy.py:72-127 | The earliest cause wins: unanswerable before a recall shortfall, that before a failed execution, and all after gold and infrastructure failures |
| Taxonomy.NoFailureIff | src/evals/taxonomy.py:101-127 | `none` needs a match, no reported error and no recall shortfall |
| Taxonomy.ReportedErrorIsFiled | src/evals/taxonomy.py:119-173 | Where each reported error type is filed when nothing earlier explains the question |
| Taxonomy.VerdictIsFiled | src/evals/taxonomy.py:122-192 | Where each comparison verdict is filed when no error was reported and recall did not fall short |
| Taxonomy.ShortfallMeans | src/evals/taxonomy.py:114-117 | Recall fell short exactly when it was measured and its best value over the cut-offs is below one |
| Taxonomy.InfrastructureErrors | src/evals/taxonomy.py:143-178 | The four error types a resumed run asks again |
| Taxonomy.Counts | src/evals/taxonomy.py:211-221 | Every category is present with the number of times it occurs |
| EvalRunner.RetriedIffAnswererFailed | src/evals/runner.py:278-329 | Whether a question is asked again depends on the answerer's own failure, never on what the databases did with its SQL |
| EvalRunner.MatchedMeans | src/evals/runner.py:278-329 | A verdict is recorded exactly when the gold query ran, there is SQL and it ran; it is a match exactly when the two tables agree up to columns, as lists if the gold SQL orders them and as multisets if not |
| EvalRunner.MismatchIsFiled | src/evals/runner.py:278-329 | A mismatch nothing earlier explains is filed as wrong shape, row order or wrong values by conditions on the two tables |
| EvalRunner.FailedQueryIsRecorded | src/evals/runner.py:278-329 | A generated query that does not run is recorded as `execution_failed` unless the answerer reported something itself, and no other query is; a gold query that does not run is a gold error |
| EvalRunner.RecordedFromAttempt | src/evals/runner.py:278-349 | The rest of the artifact: id, model, tokens and recall of the attempt; an answerer that raised leaves an internal error, which is retried |
| EvalRunner.PendingKeepsOrder | src/evals/runner.py:245-250 | Pending questions are selected one by one, in the order of the set |
| EvalRunner.PendingOne | src/evals/runner.py:245-250 | A question is pending exactly when its id is not among those answered |
| EvalRunner.MatchedButNotClean | src/evals/runner.py:300-307 | A matched question is filed as something else exactly when the answerer also reported an error or recall fell short; as a retrieval miss exactly in the latter case without an infrastructure or unanswerable report |
| EvalRunner.MatchFiledAsMiss | src/evals/runner.py:300-307 | A concrete matched question filed as a retrieval miss |
| EvalRunner.EvaluateIsWellClassified | src/evals/runner.py:278-329 | Every artifact with a retried error type is outside the scored categories |
| EvalRunner.AskAll | src/evals/runner.py:251-269 | The loop records the pending questions in order until a streak of infrastructure failures reaches the bound |
| EvalRunner.Run | src/evals/runner.py:235-276 | A bad halting bound or another configuration ends the run before any question; otherwise the directory becomes what the specification says and the summary describes all of it |
| EvalRunner.Summarise | src/evals/runner.py:351-395 | The summary counts what the artifacts hold: totals, scored, matched, both kinds of exclusions, per model, per category, mean recall per cut-off, tokens |
| EvalRunner.SummariseRecall | src/evals/runner.py:365-384 | Mean recall at each cut-off over the artifacts that have it, which is never none |
| EvalRunner.RecallTallyCounts | src/evals/runner.py:365-368 | Every cut-off any artifact has is listed with the sum and the number of its values, and no other |
| EvalRunner.ModelTallyCounts | src/evals/runner.py:371-375 | Every model that answered something is listed with the number of questions it answered, and no other |
| RunStore.Store.Start | src/evals/artifacts.py:260-269 | The manifest is written once and never replaced |
| RunStore.Store.Resume | src/evals/artifacts.py:271-359 | Refuses another configuration; otherwise returns exactly the ids whose artifact is not an infrastructure failure |
| RunStore.Store.Record | src/evals/artifacts.py:361-364 | Overwrites the file of that question and no other |
| RunStore.Store.Artifacts | src/evals/artifacts.py:366-373 | Lists every recorded artifact exactly once |
| EvalChains.AnsweredIsNeverOverwritten | src/evals/artifacts.py:271-359 | A result that says something about the model survives every later run, whatever it asks and however it ends |
| EvalChains.WritesOnlyUnanswered | src/evals/runner.py:245-254 | With distinct question ids, every single write of a run lands on a question without such a result |
| EvalChains.OverwritesIffRepeated | src/evals/runner.py:245-254 | In general a write lands on an answered question exactly when its id was asked earlier in the same run and last got a result that was not an infrastructure failure |
| QuestionSet.AssertUnique | src/evals/dataset.py:94-108 | Holds exactly when no two questions share an id |
| QuestionSet.LoadQuestions | src/evals/dataset.py:53-91 | Succeeds exactly when every line is readable and no id of the chosen split repeats, and then gives the split in file order |
| QuestionSet.ApplyVerifiedGold | src/evals/gold.py:123-169 | Refuses a set with a question nobody verified, and otherwise keeps the scoreable ones with their verified SQL |
| QuestionSet.PrepareQuestions | src/evals/run.py:259-271 | What reaches a run has distinct ids, every question loaded, scoreable and with its verified SQL, and is exactly the verified split cut to the limit |
| QuestionSet.LimitedMeans | src/evals/run.py:269-270 | The limit keeps that many from the front, or drops that many from the end when negative |
| QuestionSet.GoldOfQuestion | src/evals/gold.py:123-169 | A scoreable question changes in its gold SQL alone, and one that is not is dropped |
| EvalChains.RepeatedIdsLoseAnAnswer | src/evals/dataset.py:94-108 | What the uniqueness check prevents: given a repeated id, a run would replace the answer to the first question by the failure of the second |
| EvalChains.RunShrinksUnanswered | src/evals/runner.py:235-276 | A run never un-answers a question, and strictly shrinks the unanswered set exactly when it records some result that is not an infrastructure failure |
| EvalChains.HaltsAtFirstStreak | src/evals/runner.py:251-269 | A run stops at the first streak of `halt_after` consecutive infrastructure failures and otherwise asks everything |
| EvalChains.ChainEqualsOneRun | src/evals/runner.py:235-276 | For a deterministic answerer, any chain of halted, failing, partial and resumed runs that ends with every question answered leaves the same directory as one uninterrupted run |
| EvalChains.ResumedRunsEqualOne | src/evals/runner.py:235-342 | The same for the runner itself: runs of one answerer, over one world, that each time fails for infrastructure reasons or answers as ever |
| EvalChains.ResumedRunsSummariseAlike | src/evals/runner.py:271-276 | And they report the same summary as the uninterrupted run |
| EvalChains.DeterministicAnswerer | src/evals/runner.py:278-342 | An answerer that fails for infrastructure reasons or gives one fixed attempt yields artifacts that are infrastructure failures or one fixed artifact |
| EvalChains.SummaryIsOfTheFiles | src/evals/runner.py:271-275 | The summary depends on the recorded files alone, not on the order in which they are read |
| EvalChains.SummaryAddsUp | src/evals/runner.py:351-395 | scored + gold errors + infrastructure errors = total, matched is at most scored, and the tally agrees with both exclusions |
| EvalChains.SummaryCounts | src/evals/runner.py:351-395 | Each count of the summary is the number of recorded artifacts it is about: all, scored, matched, per category, per model, with recall |
| EvalChains.ModelsNamed | src/evals/runner.py:371-375 | The models it names are those that answered anything |
| EvalChains.TokensAddUp | src/evals/runner.py:386-395 | Input tokens, output tokens and unresolved references are each added up artifact by artifact |
| EvalChains.ReaskedAreUnscored | src/evals/taxonomy.py:130-143 | Every question a resumed run re-asks is outside the scored set; an answered question is unscored only for a gold error |
| EvalChains.RunKeepsClassified | src/evals/runner.py:235-276 | Runs keep that relation for every artifact in the directory |
| EvalChains.OneConfigurationPerDirectory | src/evals/artifacts.py:271-300 | Over any sequence of runs with any configurations, the directory is what the runs of the first configuration alone would have left |
| QueryService.EveryRunIsGood | src/api/query.py:97-146 | In every interleaving of streaming and plain requests `held` is the number of admitted, unreleased requests and stays within 0..limit, and every stream keeps its invariant |
| QueryService.StepKeepsGood | src/api/query.py:175-219 | Each step of any request keeps that |
| QueryService.HeldChangesByOneRequest | src/api/query.py:125-142 | `held` rises only by admitting one new request and falls only by settling one that held a slot |
| QueryService.SettledForGood | src/api/query.py:183-186 | A request that gave its slot back, or was refused, is never touched again, so no slot is released twice |
| QueryService.RefusedExactlyAtLimit | src/api/query.py:125-138 | Refusal happens exactly at the limit and changes neither the count nor any other request |
| QueryService.AllSettledFreesAll | src/api/query.py:97-146 | No slot is held exactly when every request is settled |
| QueryService.EnteredReleasesOnce | src/api/query.py:317-338 | Every entered stream gives its slot back exactly once in every run that takes it as far as it goes, on success, error, cancellation or disconnect and whatever other requests do meanwhile, unless its worker ended with an exception of its own; then never |
| QueryService.FreedAtMostOnce | src/api/query.py:183-186 | Any admitted request gives its slot back once if it ends without one, and otherwise not at all |
| QueryService.FreeingLowersHeld | src/api/query.py:140-141 | Giving a slot back lowers `held` by one and touches no other request |
| QueryService.StreamRunsAlone | src/api/query.py:298-400 | In any interleaving a stream goes exactly as it would alone |
| QueryService.EnteredStreamIsShort | src/api/query.py:298-400 | An entered stream makes at most 23 moves besides heartbeats, so no run puts its end off for ever |
| QueryService.NeverEnteredKeepsSlot | src/api/query.py:214-219 | A stream whose generator is never entered keeps its slot through any run that does not enter it |
| QueryService.AbandonedStreamsStarve | src/api/query.py:214-219 | When such streams, or streams whose worker crashed, hold every slot, nothing is ever admitted again |
| QueryService.Admission.Acquire | src/api/query.py:125-138 | Takes a slot, or refuses and changes nothing |
| QueryService.Admission.Release | src/api/query.py:140-141 | Gives one slot back |
| QueryService.Service.Answer | src/api/query.py:175-186 | Admits or refuses at once, and keeps the invariant |
| QueryService.Service.OpenStream | src/api/query.py:188-219 | Takes the slot before the generator exists, or refuses |
| QueryService.Service.FinishAnswer | src/api/query.py:183-186 | The `finally` of a plain request releases its slot |
| QueryService.Service.FirstNext | src/api/query.py:314-316 | Entering the generator starts the worker and takes no further slot |
| QueryService.Service.StepStream | src/api/query.py:317-338 | Every step of a stream, releasing the slot exactly when the closed generator's worker has ended |
| StreamProtocol.ScriptOf | src/api/query.py:242-296 | The script is retrieve, generate, sql, then validate alone, or execute and rows, under the event names a client sees |
| StreamProtocol.StepKeepsInvariant | src/api/query.py:298-400 | Each step of worker or generator keeps: what was sent plus what is queued is what was produced, in order, and that is a prefix of the script, at most one terminal event, then the sentinel |
| StreamDelivery.TerminalIsLast | src/api/query.py:356-400 | `done` and `error` are pushed once, last before the sentinel, and `done` only after the whole script |
| StreamDelivery.DrainedStreamIsComplete | src/api/query.py:317-328 | A stream that ended by its sentinel sent the whole script and `done`, or a proper prefix and `error`, exactly when its worker did not crash; otherwise it sent a bare prefix |
| StreamDelivery.EndedWorkerDrains | src/api/query.py:340-400 | Once the worker has ended without being cancelled, taking what is queued ends the stream: no client waits for ever |
| StreamLifetime.RunsAreBounded | src/api/query.py:298-400 | Every run of a stream has a bounded number of moves that do something, heartbeats aside |
| StreamLifetime.EffectiveCounts | src/api/query.py:298-400 | That count goes up by one exactly with each move that uses up something of what is left |
| StreamLifetime.FreshStreamIsShort | src/api/query.py:298-400 | For a fresh stream that bound is 23 |
| StreamLifetime.IdleIffSettled | src/api/query.py:298-400 | A stream has nothing left to do but heartbeats and the client leaving exactly when its generator has ended |
| StreamLifetime.EveryMaximalRunSettles | src/api/query.py:329-338 | Every run that goes as far as it can ends the generator, and the release was reached exactly when the worker did not end with an exception of its own |
| StreamLifetime.EnteredStreamCanRelease | src/api/query.py:329-338 | From any state, the client leaving ends it in three moves |
| StreamDelivery.DrainedStreamIsDelivered | src/api/query.py:298-400 | End to end: whatever the interleaving, heartbeats and network cuts, the browser's parser yields exactly the frames of a complete answer and nothing is pending |
| StreamDelivery.StreamEventsEncode | src/api/query.py:242-296 | Every event of the script, `done` and `error` encode exactly when their payload is on one line |
| StreamDelivery.SingleLineStreamIsSendable | src/api/query.py:298-400 | A stream whose payloads are single lines never closes for an event it could not encode, whatever the interleaving |
| StreamDelivery.GeneratorIsNeverBlocked | src/api/query.py:317-328 | An open stream can always be sent its next item, a heartbeat, or be left, and each does that and nothing else |
| StreamDelivery.WorkerCanEndAnywhere | src/api/query.py:340-400 | After any number of script events the worker of an open stream can fail or crash, and after all of them it can complete |
| Identifiers.ToPgIdentifier | src/benchmark/identifiers.py:77-115 | Folds a usable name and refuses exactly the others |
| Identifiers.AcceptedNames | src/benchmark/identifiers.py:77-115 | A name is accepted exactly when what is left after removing blank ends has 1 to 63 characters, all printable ASCII but the double quote and the backslash, or the Kelvin sign; folding changes only capitals and that sign |
| Identifiers.Build | src/benchmark/identifiers.py:130-150 | Succeeds exactly when every name is usable and no two different names fold together; a reported collision names two such names, the earlier first, and any other error a name that is unusable |
| Identifiers.Safe | src/benchmark/identifiers.py:152-165 | Answers exactly for the names the map was built from, with their fold |
| Identifiers.ForwardIsInjective | src/benchmark/identifiers.py:117-150 | A map that was built never sends two names to one identifier |
| Identifiers.FoldIgnoresCase | src/benchmark/convert.py:446-456 | Names equal when lower-cased fold to one identifier |
| Identifiers.FoldIsIdempotent | src/benchmark/identifiers.py:77-115 | An identifier folds to itself |
| Identifiers.KelvinCollides | src/benchmark/identifiers.py:91-94 | The Kelvin sign folds to an ASCII letter, so it is accepted alone and refused beside `k` |
| PgTypes.InferPgType | src/benchmark/convert.py:85-131 | The scan over all values gives the type the storage-class rule gives for their classes |
| PgTypes.TypeMeans | src/benchmark/convert.py:137-156 | What a chosen type says of a column that holds anything: bigint exactly for integers, double exactly for numbers with a real, bytea exactly for blobs |
| PgTypes.AffinityMeans | src/benchmark/convert.py:64-83 | The affinity is that of the first of SQLite's rules that some part of the declaration meets |
| PgTypes.EmptyColumnType | src/benchmark/convert.py:64-83 | A column without values is bigint when its declaration mentions INT, else text for CHAR, CLOB or TEXT, else bytea for BLOB or a blank declaration, else double |
| PgTypes.PointIsAnInteger | src/benchmark/convert.py:67-72 | `POINT` is an integer type by those rules, and `VARCHAR(20)` text |
| PgTypes.ValuesFit | src/benchmark/convert.py:355-375 | Holds exactly when every value casts, and for bigint casts without truncation |
| PgTypes.FitsMeans | src/benchmark/convert.py:355-375 | Bigint takes integers, whole reals and what `int` accepts; double takes numbers and what `float` accepts |
| PgTypes.InferredTypeTakesAll | src/benchmark/convert.py:588-611 | Every value of a column converts to the type inferred from its classes, unchanged where the type is exact |
| PgTypes.FittedTypeTakesAll | src/benchmark/convert.py:588-611 | Every value converts to a numeric type the whole column was checked against |
| ConversionPlan.PlanDatabase | src/benchmark/convert.py:216-263 | Planning succeeds exactly when the schema name is usable, there is a table, every name is usable and none collide, and then plans every table; an unusable schema name is reported first |
| ConversionPlan.PlanTable | src/benchmark/convert.py:388-443 | Columns, names and surviving keys of one table, in declaration order |
| ConversionPlan.PlanOneKey | src/benchmark/convert.py:413-436 | A key is planned exactly when its table and all its columns are declared under exactly those names |
| ConversionPlan.ResolveFkTable | src/benchmark/convert.py:446-456 | The case-insensitive lookup answers exactly when some table matches ignoring case, and then with that name's identifier |
| ConversionPlan.CaseInsensitiveMatchIsUnique | src/benchmark/convert.py:446-456 | At most one table matches a name ignoring case |
| ConversionPlan.CaseMismatchIsDropped | src/benchmark/convert.py:417-425 | `REFERENCES Stadium` against `stadium` resolves and is dropped all the same |
| ConversionPlan.PlannedNamesAreDistinct | src/benchmark/convert.py:240-245 | No two planned tables and no two planned columns of a table share an identifier |
| ConversionPlan.ColumnIsPlanned | src/benchmark/convert.py:388-411 | Each source column gets one planned column, in order, under its fold, with a type decided by its values or, failing those, its declaration |
| ConversionPlan.PlannedKeysResolve | src/benchmark/convert.py:413-436 | Every planned key names an existing planned table and existing columns on both sides |
| ForeignKeyTypes.UnifyForeignKeyTypes | src/benchmark/convert.py:266-332 | The nested loops compute the pass over all column pairs, then retype the plans |
| ForeignKeyTypes.RetypedPlan | src/benchmark/convert.py:378-385 | Retyping gives each planned column its current type and leaves names, keys and order alone |
| ForeignKeyTypes.PairEqualOrUnchanged | src/benchmark/convert.py:303-326 | Each visited pair ends its step with equal types or with nothing changed, the latter exactly when it agrees, involves bytea, or the narrower side has a value that does not fit |
| ForeignKeyTypes.PassMovesUp | src/benchmark/convert.py:342-375 | The pass moves types only upwards in text < bigint < double, never touches bytea or a column no key mentions, retypes a column at most twice, never without changing it, and only to a type all its values fit |
| ForeignKeyTypes.NoChangeIff | src/benchmark/convert.py:298-332 | The pass changes nothing exactly when every pair agrees, involves bytea, or has a value that does not fit |
| ForeignKeyTypes.ChainedKeysMayDisagree | src/benchmark/convert.py:298-332 | One pass need not make chained keys agree |
| ForeignKeyPasses.LastOfItsColumnsIsSettled | src/benchmark/convert.py:298-332 | A pair no later pair shares a column with ends settled: equal, bytea, or blocked by a value that does not fit |
| ForeignKeyPasses.IdleIffAllSettled | src/benchmark/convert.py:298-332 | From any point, a pass changes nothing exactly when every pair is settled |
| ForeignKeyPasses.OnePassSettlesIffSecondIsIdle | src/benchmark/convert.py:298-332 | The single pass settles every key exactly when a second one would change nothing |
| ForeignKeyPasses.PassesSettleEverything | src/benchmark/convert.py:298-332 | Repeating the pass settles every key within four passes per pair and then stays put |
| ForeignKeyTypes.FinalType | src/benchmark/convert.py:315-332 | A column ends with its inferred type, or with a numeric type every one of its values was checked against |
| ForeignKeyTypes.EveryValueLoads | src/benchmark/convert.py:588-611 | For every convertible source, no value of any column makes `adapt` fail at the column's final type, and exact types keep it unchanged |
| SchemaIndexer.BuildRows | src/schema/indexer.py:194-228 | One element per table followed by its columns, in snapshot order |
| SchemaIndexer.DistinctEdges | src/schema/indexer.py:260-280 | Keeps the first key of each edge, in order |
| SchemaIndexer.Catalog.Index | src/schema/indexer.py:120-192 | A width mismatch or a wrong number of vectors fails and changes nothing, an empty snapshot changes nothing, and otherwise the catalog becomes the specified one and the report counts it |
| SchemaIndexer.Catalog.UpsertRows | src/schema/indexer.py:140-154 | Row-by-row upserts with the ids they return |
| SchemaIndexer.Catalog.Settle | src/schema/indexer.py:156-178 | Stale rows deleted by id, the dataset's edges replaced, and how many of each |
| SchemaIndexer.IndexReplacesScope | migrations/versions/003_schema_elements_null_column.py:40-49 | After indexing, the scope's rows are exactly the snapshot's, whatever was there; other datasets and models keep theirs to the id; an element already present keeps its id |
| SchemaIndexer.CatalogIsTheSnapshot | src/schema/indexer.py:194-228 | After indexing, the scope has a row exactly for each table and column of the snapshot |
| SchemaIndexer.TextsAreTheSnapshots | src/schema/indexer.py:130-140 | The embedder is sent each table's text followed by its columns' texts, in snapshot order |
| SchemaIndexer.TableIsCatalogued | src/schema/indexer.py:137-154 | After indexing a snapshot without repeats, each table's row holds its kind, comment and text, and the vector the embedder gave for exactly that text |
| SchemaIndexer.ColumnIsCatalogued | src/schema/indexer.py:137-154 | And each column's row its data type, comment and text, and the vector for that text |
| SchemaIndexer.HistoryDoesNotMatter | src/schema/indexer.py:120-192 | Two catalogs with any histories hold the same scope content after indexing the same snapshot |
| SchemaIndexer.ReindexIsStable | src/schema/indexer.py:120-192 | Indexing the same snapshot again keeps every element row and id and removes nothing |
| SchemaIndexer.IndexReplacesEdges | src/schema/indexer.py:163-178 | The dataset's edges become the snapshot's distinct edges, each named by the key that declared it first; other datasets keep theirs |
| SchemaIndexer.FirstSeenIsDistinct | src/schema/indexer.py:260-280 | No edge appears twice, so no insert violates the unique constraint, and the kept keys are exactly the first declarations |
| SchemaIndexer.WrittenCountsRowsIff | src/schema/indexer.py:180-189 | `elements_written` is the number of rows exactly when the snapshot lists no element twice |
| SchemaIndexer.RepeatedElementIsOneRow | src/schema/indexer.py:180-189 | A concrete snapshot that reports two elements written and leaves one row |
| RowLimit.BoundedIsExactIff | src/execution/executor.py:271-339 | The result is the first m rows of the query as written, flagged exactly when there were more, for no LIMIT and every integer literal; for any other LIMIT exactly when that LIMIT does not cut at or below m |
| RowLimit.ComputedLimitIsIgnored | src/execution/executor.py:318-332 | A concrete computed LIMIT that is not honoured: three rows for a query that asked for two |
| RowLimit.NeverMoreThanLimit | src/execution/executor.py:188-240 | No more rows than the clamped limit come back, always from the start of the result, all of them if fewer than the limit reported; that limit is below the clamped one only for a literal LIMIT |
| RowLimit.ClampStaysInRange | src/core/settings.py:187-191 | The limit used is the one nearest to the request within 1..ceiling, or the default when there is no request |
| RowLimit.SQLExecutor.Execute | src/execution/executor.py:168-264 | Every call is answered as specified and audited exactly once, with the outcome it had |
| RowLimit.ExecutedMeans | src/execution/executor.py:168-264 | Rows come back exactly when validation and the database allow; a refusal names the stage and error that refused, and the audit entry says which |
| RowLimit.SQLExecutor.Explain | src/execution/executor.py:114-166 | Validates without running, and is audited exactly once |
| RowLimit.ExplainPredictsExecute | src/execution/executor.py:125-132 | Explaining refuses exactly what executing would refuse before reaching the database, for the same reason |
| FallbackChain.QuotaFailuresAreBounded | src/adapters/llm/fallback.py:82-104 | When every request gets an answer, a whole run meets at most chain length minus one quota failures |
| FallbackChain.QuotaFailuresAreAmortised | src/adapters/llm/fallback.py:82-104 | In general total quota failures are the steps taken along the chain plus those wasted by requests nobody answered |
| FallbackChain.ActiveNeverDecreases | src/adapters/llm/fallback.py:82-104 | Over sequential requests the active index never decreases |
| FallbackChain.ExhaustedIsNeverCalledAgain | src/adapters/llm/fallback.py:79-84 | A model an answered request saw out of quota is never called again |
| FallbackChain.ExhaustedIsRememberedIff | src/adapters/llm/fallback.py:98-104 | A request moves the chain past every model it found spent exactly when it was answered or found none |
| FallbackChain.UnansweredRequestForgets | src/adapters/llm/fallback.py:98-110 | A concrete spent model called again after a request nobody answered |
| FallbackChain.ModelAnsweredLast | src/adapters/llm/fallback.py:45-53 | `model` names the client that gave the last answer |
| FallbackChain.OverlapSetsBackIff | src/adapters/llm/fallback.py:82-104 | A request that overlaps others lowers the active index exactly when it is answered earlier in the chain |
| FallbackChain.OverlapMaySetBack | src/adapters/llm/fallback.py:82-104 | A concrete pair of overlapping requests that does so |
| FallbackChain.FallbackLLMClient.Complete | src/adapters/llm/fallback.py:69-110 | Calls the clients from the active one to the first not out of quota, makes an answering one active, reports all of them exactly when each is out of quota, and otherwise the first that failed in another way |
| FallbackChain.FallbackLLMClient.Create | src/adapters/llm/fallback.py:39-43 | An empty chain is refused |

## Left out

- StreamProtocol.StepKeepsInvariant: lets other steps come between pushes the worker makes in one stretch, and lets the
  worker fail before any event of the script, which is more than the code allows; what holds here holds of the code.
- EvalRunner.Summarise: durations are not part of it, being clock readings, and mean recall is not rounded to four digits.
- LimitTie.TiedVerdictIsTie: speaks of the keys the probe appends; for an ORDER BY ordinal these are the ordinal itself,
  not the sort key, as `LimitTie.ConstantKeyIsAlwaysTied` says.
- QueryService.EnteredReleasesOnce: a second cancellation, arriving while the closing generator awaits its worker, is not
  modelled; it would release before the worker has ended.
- Canonical values: rounding and date formatting are not modelled; cells are compared as canonicalised, and a column's
  unordered signature is its multiset, so two different values with one `repr` are not considered.
- Reading SQL: limits, order keys, recall, top-level ORDER BY and gold elements are inputs; parsing and the
  read-only checks are not modelled.
- Keys that order equal are taken to be equal, and both engines of a faithful conversion to order keys the same way.
- Characters are code points where the browser counts UTF-16 units, so the two bounds are in characters here.
- JSON, hashes and file names: serialised payloads and configuration fingerprints are strings, and a question's file is
  identified by its id. Unreadable artifacts, result clipping and the written summary file are not modelled.
- `McpClientPool.close`, failing server starts and the MCP session itself.
- Worker threads that outlive a cancelled request: the cap counts requests, not threads.
- Detail messages, logging, timings, token costs of retries, and the text of error events.
- Lower-casing outside ASCII is modelled only where it yields ASCII; declared column types are taken upper-cased.
- Primary keys, row counts, `COPY`, constraint creation and grants of the conversion.
- Floating point: source reals are finite and exact here, and an integer in a double column keeps its value, where Python
  rounds integers above 2**53 and raises on infinities.
- Embeddings and serialised element texts are whatever the embedder and the serialiser return; the vector width is a number.
- Database errors, validation verdicts and timeouts of the executor are inputs; the audit trail is a list.
- Settings, prompts, retrieval, profiling, splits, and the web interface: thin or pointwise, with no property across functions.
