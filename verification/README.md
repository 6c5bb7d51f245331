# LineageLens in Dafny

LineageLens records which code in a workspace came from an AI tool and which prompt produced it.
This project models the parts of it that hold algorithms or protocols, one module per part, and
proves what each of them promises: for every input, every run and every interleaving.

**Texts.** `LineDiff` is the line diff of the provenance sidebar (table, backtrack, in-place
reversal): it is a lossless edit script, and a shortest one. `Levenshtein` is the two-row distance
of the correlator: it is the cost of a cheapest edit script, and a metric. `EditReplay` is the
replay of a multi-edit change event against the old text: it equals the simultaneous replacement
of all ranges. `BlockDiff` finds the inserted block of a save: sound, and as short as any
explanation of the change.

**Redaction.** `Regex` gives regular expressions of the shapes that the patterns use a meaning as
languages, and a backtracking matcher (greedy and lazy runs, word boundaries) that is proved complete for it.
`Secrets` holds the eleven patterns and proves that a scrubbed text has no match of any of them.
`SecretShapes` says in plain characters what a secret is, and that the patterns find exactly those;
`Redaction` has the functions for texts and records.

**Sessions and prompts.** `AgentSessions` is the single loop over two maps that builds the agent
sessions; it yields "partition by key, cut at gaps of more than 20 minutes" exactly when no
signature reads like a native key at the wrong moment. `WinnerSelection` is the ranking of prompt
candidates with its early break, and `ClaimTable` the table that keeps one prompt from being
attributed twice. `StableSort` stands for `Array.prototype.sort`.

**Wire format.** `ChunkedBody` is the chunked transfer coding of section 7.1 of RFC 9112 in the
CONNECT tunnel, reader and writer; `ChunkedAcceptance` says on the bytes alone what the reader
accepts, what it refuses and why.

**Protocols.** `ChangeQueue` (one promise chain per document), `Confirmations` (pending WebSocket
confirmations), `OfflineQueue`, `Outbox`, `CaptureStore` (hash chain, cap, reordering, review) and
`BodyLimit` (the ASGI middleware). Each has a state as a value, a step function whose events are
cut where the source awaits, a class whose methods do those steps in place, and theorems about all
runs of the step function. A class keeps more than the source's fields where a theorem speaks about
the past (what was delivered, sent or settled).

Where the code does not do what its comments or names suggest, the code is modelled as it is:

- The offline queue's maximum of 100 does not bound it: events enqueued during a flush that then
  fails come on top (`OfflineQueue.QueueOutgrowsCap`). It holds throughout a run exactly when no
  failing flush gives back more than fits (`OfflineQueue.CapHoldsThroughoutIff`), so in every run in
  which enqueues and flushes do not interleave (`OfflineQueue.QuietRunsKeepCap`).
- `documentChangeQueues.clear()` on deactivation lets two handlers of one document overlap in some
  later run, exactly unless nothing is outstanding (`ChangeQueue.ClearIsSafeIffIdle`,
  `ChangeQueue.ClearCanOverlap`).
- Two edits at the same offset are applied in list order, so an insertion listed behind a
  replacement lands inside it (`EditReplay.SameOffsetGoesWrong`). The ranges that the replay gives
  its edits follow each other exactly when the edits are separate
  (`EditReplay.RangesFollowIffSeparate`); for such a pair of edits the text is still right exactly
  when the insertion commutes with what it jumped over (`EditReplay.SameOffsetIsRightIff`).
- A signature that equals a native session key merges two sessions (`AgentSessions.SharedTextMerges`;
  the exact condition is `AgentSessions.Clean`).
- An outbox entry that arrives while a retry is sending is lost when the retry saves
  (`Outbox.LateEntryIsLost`), exactly if some entry was due when the retry loaded the outbox
  (`Outbox.LateEntrySurvivesIffNothingWasDue`). A retry without settings leaves no timer behind
  (`Outbox.UnconfiguredStrandsIff`, `Outbox.StrandedUntilCalled`).
- A chunked body whose stream ends right behind the digit of the last chunk is accepted, without
  line end or blank line; cut off anywhere before, it is refused
  (`ChunkedAcceptance.BrokenOffIsAcceptedIff`).
- The 413 can follow a response that the application has already started
  (`BodyLimit.RejectionComesFirstIffNothingWasSent`, `BodyLimit.RejectionCanComeSecond`).
- `reorder` duplicates a record whose id is dragged twice (`CaptureStore.ReorderPermutesIff`,
  `CaptureStore.DraggedTwiceDuplicates`), and an unknown drop target means "before the last record"
  (`CaptureStore.ReorderPlaces`).
- A capture added after reordering is linked to the record on top, not to the newest one, so two
  records can carry the same link (`CaptureStore.MoveThenAddForks`); the store stays one chain, and
  its head hash fixes the history, exactly if the reordering left the order alone
  (`CaptureStore.AddAfterReorderChainsIff`, `CaptureStore.AddForksIff`).
- The chain check notices a replaced record exactly if it does not carry its own hash
  (`CaptureStore.ForgeryIsDetectedIff`). One that was rehashed shows only as a reported break, and
  not at all if it is the newest (`CaptureStore.RehashedForgeryShowsIffNotNewest`). Loading seals
  every record without a hash, so one whose hash was removed passes afterwards
  (`CaptureStore.ForgeryIsDetectedAfterSealingIff`, `CaptureStore.StrippedForgeryPasses`).
- The line splitter of the sidebar stands unescaped inside a template literal
  (lineagelens-src/provenanceSidebar.ts:235 and 867), so the emitted script would hold real line
  breaks inside its regular expression. `LineDiff.SplitLines` models the expression as written, a
  split at CRLF, CR or LF.

`dafny verify dfyconfig.toml` checks the whole project.

## Model

| member | source | states |
|---|---|---|
| LineDiff.DiffIsLossless | lineagelens-src/provenanceSidebar.ts:796-837 | context and removed lines in order are the old text, context and added lines the new one |
| LineDiff.DiffIsMinimal | lineagelens-src/provenanceSidebar.ts:796-860 | no edit script between the two texts has fewer removed and added lines |
| LineDiff.ContextIsLongestCommon | lineagelens-src/provenanceSidebar.ts:805-814 | the context lines are a common subsequence of both texts, and none is longer |
| LineDiff.KeepsLcsLines | lineagelens-src/provenanceSidebar.ts:805-837 | for all prefixes, the backtrack keeps as many context lines as the table entry says |
| LineDiff.LcsIsAnUpperBound | lineagelens-src/provenanceSidebar.ts:839-860 | the table's recurrence bounds every common subsequence, given by its positions in both texts |
| LineDiff.AddedComesFirst | lineagelens-src/provenanceSidebar.ts:816-822 | the tie rule: read forward, no added line directly follows a removed one |
| LineDiff.BuildLcsTable | lineagelens-src/provenanceSidebar.ts:839-860 | the filled table holds at every index pair the longest common subsequence length of those prefixes |
| LineDiff.FillRow | lineagelens-src/provenanceSidebar.ts:847-856 | one row from the row before it, with no other row changed |
| LineDiff.Backtrack | lineagelens-src/provenanceSidebar.ts:801-836 | the three loops and the in-place reversal give the diff that the theorems are about |
| LineDiff.ComputeInlineDiff | lineagelens-src/provenanceSidebar.ts:796-837 | splitting and diffing two whole texts |
| LineDiff.TextsSurviveTheDiff | lineagelens-src/provenanceSidebar.ts:862-868 | both texts can be read back from the diff, up to the kind of line break |
| LineDiff.JoinPieces | lineagelens-src/provenanceSidebar.ts:867 | splitting at the three line breaks loses only their kind and leaves none inside a line |
| LineDiff.PiecesOfWoven | lineagelens-src/provenanceSidebar.ts:862-868 | splitting gives back exactly the lines that any of the three line breaks were put between |
| LineDiff.OnlyTheEmptyTextHasNoLines | lineagelens-src/provenanceSidebar.ts:862-868 | the empty text has no line, so against it every line is an edit, and no other text is without |
| Levenshtein.ComputeLevenshteinDistance | lineagelens-src/correlation.ts:548-599 | two rows and swapped operands give the recursive distance of the operands as passed |
| Levenshtein.NextRow | lineagelens-src/correlation.ts:579-596 | one turn of the outer loop, in place: previous row becomes the next row of distances |
| Levenshtein.DistanceIsLeastCost | lineagelens-src/correlation.ts:548-599 | the distance is the cost of a script of replacements, deletions and insertions, and no script is cheaper |
| Levenshtein.DistanceIsAMetric | lineagelens-src/correlation.ts:548-599 | zero exactly for equal texts, symmetric, and the triangle inequality |
| Levenshtein.ComposeFits | lineagelens-src/correlation.ts:548-599 | two scripts compose to one that costs no more than both, the reason for the triangle inequality |
| Levenshtein.DistIsSymmetric | lineagelens-src/correlation.ts:561-567 | for all prefixes, so swapping the operands is harmless |
| Levenshtein.DistIsBounded | lineagelens-src/correlation.ts:533-540 | between the length difference and the longer length |
| Levenshtein.SimilarityIsAFraction | lineagelens-src/correlation.ts:540-541 | the score is in [0, 1] before the clamp |
| Levenshtein.SimilarityIsUneditedShare | lineagelens-src/correlation.ts:515-542 | the score is the share of the longer text that no edit touches, over the first 4000 characters of each; a missing text scores 0, equal texts 1 |
| Levenshtein.RoundsToTheNearest | lineagelens-src/correlation.ts:541 | four decimals, to the nearest, upwards from the middle |
| Levenshtein.CalculateLevenshteinSimilarity | lineagelens-src/correlation.ts:515-542 | all early returns, the cut at 4000 characters and the rounding give one formula |
| Levenshtein.PerfectScoreMeansSameText | lineagelens-src/correlation.ts:522-541 | after rounding, a score of 1 means both texts are nonempty and agree in their first 4000 characters |
| StableSort.SortIsOrdered | lineagelens-src/extension.ts:983 | the sort's result is ordered |
| StableSort.SortIsStable | lineagelens-src/extension.ts:983 | elements that tie keep their order |
| EditReplay.ReplayIsSimultaneous | lineagelens-src/extension.ts:979-1016 | for separate edits in any order: the final text is the old text with all ranges replaced at once; the chunks are the nonempty inserted texts, stand exactly at their reported ranges, ranges in order, and each counts the lines of its own text and of its own slice of the old text |
| EditReplay.ChunksCountTheirOwnLines | lineagelens-src/extension.ts:993-1007 | added and removed lines chunk by chunk, from any point of the loop on |
| EditReplay.ReplayIsPatch | lineagelens-src/extension.ts:990-1013 | the same from any point of the loop on, with the text patched so far |
| EditReplay.ChainedIffSeparate | lineagelens-src/extension.ts:983 | after the sort the old ranges follow each other exactly when the edits are in range and separate |
| EditReplay.EveryEditIsReported | lineagelens-src/extension.ts:1000-1008 | the chunks are exactly the nonempty inserted texts in offset order |
| EditReplay.LinesAreCounted | lineagelens-src/extension.ts:1018-1027 | the lines of a text are its line ends, a CR and LF together being one, and one more for a last line without |
| EditReplay.SliceIsClamped | lineagelens-src/extension.ts:991-993 | the slices of the replay: negative positions count from the end, and what is out of range is cut off |
| EditReplay.OrderDoesNotMatter | lineagelens-src/extension.ts:983 | with distinct offsets every order of the event's edits gives the same result |
| EditReplay.RangesFollowIffSeparate | lineagelens-src/extension.ts:990-1013 | for edits in range: the ranges at which the shifted edits put their texts follow each other exactly when the edits are separate, deletions included |
| EditReplay.ReportedRangesFollowIffSeparate | lineagelens-src/extension.ts:1000-1008 | where every edit inserts something, the reported ranges follow each other exactly when the edits are separate |
| EditReplay.SameOffsetIsRightIff | lineagelens-src/extension.ts:983-1012 | a replacement listed before an insertion at its offset: for all texts, the result is the intended one exactly when the insertion commutes with the text between the place where it lands and the place where it belongs |
| EditReplay.SameOffsetGoesWrong | lineagelens-src/extension.ts:983-1013 | two edits of "abc" at offset 1 whose result is "axyIzc" and not the intended "aIxyzc" |
| EditReplay.ExtractInsertedChunks | lineagelens-src/extension.ts:979-1016 | the imperative loop returns the chunks and line count of the replay |
| EditReplay.GetCombinedInsertionSpan | lineagelens-src/extension.ts:1029-1050 | the tightest span over all chunks, none exactly for no chunks |
| BlockDiff.InsertedBlock | lineagelens-base-extension/src/capture.ts:66-84 | null exactly for equal texts or a pure deletion of consecutive lines; otherwise the new text is the first startLine old lines, the block and an old suffix, with the longest prefix and then the longest suffix that do not overlap |
| BlockDiff.MaximalFrameIsTightest | lineagelens-base-extension/src/capture.ts:70-81 | taking the prefix greedily first costs nothing: no other prefix and suffix cover more |
| BlockDiff.BlockIsShortest | lineagelens-base-extension/src/capture.ts:82-83 | no block that explains the change has fewer lines |
| BlockDiff.NullMeansNothingNew | lineagelens-base-extension/src/capture.ts:67-83 | a null result with as many lines as before means the text is unchanged |
| BlockDiff.JoinSplit | lineagelens-base-extension/src/capture.ts:68-69 | joining the split lines gives the text back |
| BlockDiff.SplitJoin | lineagelens-base-extension/src/capture.ts:83 | splitting the joined block gives its lines back |
| Regex.MatchAtIsComplete | lineagelens-base-extension/src/secrets.ts:19-32 | at a position, backtracking finds a match exactly when the pattern's language has one there, and what it finds is in the language |
| Regex.RunTakesItsFirstChoice | lineagelens-base-extension/src/secrets.ts:21-31 | a greedy run takes the longest, a lazy one the shortest length behind which the rest of the pattern matches |
| Regex.FindIsLeftmost | lineagelens-base-extension/src/secrets.ts:45-48 | the search returns the leftmost match, and none exactly when there is none |
| Regex.ReplaceIsRebuilt | lineagelens-base-extension/src/secrets.ts:45-48 | replacing puts the token in place of matches and changes nothing else, misses no place where a match starts, and counts the replacements |
| Secrets.NothingLeftToRedact | lineagelens-base-extension/src/secrets.ts:38-56 | after a scrub no pattern matches anywhere, and a second scrub changes and counts nothing |
| Secrets.PassesClean | lineagelens-base-extension/src/secrets.ts:44-49 | after k passes none of the first k patterns matches |
| Secrets.PassCleans | lineagelens-base-extension/src/secrets.ts:45-48 | a pass leaves no match of its own pattern, tokens and new neighbours included |
| Secrets.PassKeepsClean | lineagelens-base-extension/src/secrets.ts:44-49 | no pass makes a match for an earlier pattern |
| Secrets.PassCleansPem | lineagelens-base-extension/src/secrets.ts:21 | the PEM pass, whose lazy body may span tokens, leaves no header with a footer behind it |
| Secrets.BearerEndIsSafe | lineagelens-base-extension/src/secrets.ts:31 | a greedy bearer match ends where the rest of the text starts no new one at a false word boundary |
| Secrets.SealedStaysOnOneSide | lineagelens-base-extension/src/secrets.ts:15 | a match in a text with a redaction token lies wholly before or behind the token |
| SecretShapes.ScrubIsRight | lineagelens-base-extension/src/secrets.ts:38-56 | with a secret given by its characters alone: a scrub leaves none, counts something exactly if there was one, and leaves a text without one as it is |
| SecretShapes.CleanIffNoSecret | lineagelens-base-extension/src/secrets.ts:19-32 | no pattern matches a text exactly if no secret stands in it, in plain characters |
| SecretShapes.SecretsStart | lineagelens-base-extension/src/secrets.ts:19-32 | at each position: a secret of one of the eleven shapes starts there exactly if some pattern matches there |
| SecretShapes.KeyShapes | lineagelens-base-extension/src/secrets.ts:22-27 | five kinds of keys: the literal prefix, and behind it at least 16, 20 or 1 characters of the literal alphabet |
| SecretShapes.GithubShape | lineagelens-base-extension/src/secrets.ts:26 | "gh", one of p, o, u, s, r, an underscore and twenty letters or digits |
| SecretShapes.SlackShape | lineagelens-base-extension/src/secrets.ts:28 | "xox", one of b, a, p, r, s, a hyphen and ten letters, digits or hyphens |
| SecretShapes.AwsShape | lineagelens-base-extension/src/secrets.ts:29 | "AKIA" and sixteen capitals or digits |
| SecretShapes.JwtShape | lineagelens-base-extension/src/secrets.ts:30 | "eyJ" and three dotted parts of at least ten key characters |
| SecretShapes.BearerShape | lineagelens-base-extension/src/secrets.ts:31 | "bearer" in any case, not behind a word character, blanks, and twenty token characters |
| SecretShapes.PemShape | lineagelens-base-extension/src/secrets.ts:21 | a private key's BEGIN line with an END line somewhere behind it |
| Redaction.RedactSecrets | lineagelens-base-extension/src/secrets.ts:38-51 | the loop over the patterns: no secret is left, the count is positive exactly if the text held one, and a text without one comes back as it is |
| Redaction.ContainsSecret | lineagelens-base-extension/src/secrets.ts:54-56 | true exactly when the text holds a secret, which is when some pattern matches |
| Redaction.KeyIsFound | lineagelens-base-extension/src/secrets.ts:23 | in any surroundings, "sk-" with at least sixteen letters, digits, underscores or hyphens behind it is a secret |
| Redaction.RedactRecord | lineagelens-base-extension/src/secrets.ts:62-70 | only the inserted code changes and holds no secret afterwards; the count is zero exactly if it held none, and then the record is the same |
| Redaction.RedactRecords | lineagelens-base-extension/src/secrets.ts:76-86 | every record keeps its place and the rest of its fields, none holds a secret, and the total is the sum |
| AgentSessions.SessionsRefineIffClean | lineagelens-src/insights.ts:798-848 | for time-ordered records: for every key the sessions are its class cut exactly at the long gaps, if and only if no signature entry and native entry of the same text come too close |
| AgentSessions.SessionsOfAnyInput | lineagelens-src/insights.ts:786-848 | for any records in any order: filtering and sorting give such an input, and each record with a context is in exactly one session, as often as it was given |
| AgentSessions.CutIsRight | lineagelens-src/insights.ts:811 | cutting loses nothing, no group pauses longer than 20 minutes, and there is such a pause between groups |
| AgentSessions.TextsApartIsClean | lineagelens-src/insights.ts:805-809 | no signature equal to a native key is enough |
| AgentSessions.SharedTextMerges | lineagelens-src/insights.ts:805-809 | two records of different keys with the same text in one session |
| AgentSessions.RecordsAreConserved | lineagelens-src/insights.ts:811-848 | every record is in the sessions as often as in the input, whatever the keys |
| AgentSessions.LookupIsRight | lineagelens-src/insights.ts:807-809 | the two maps lead to the latest session of the entry's key, or to one too old to matter |
| AgentSessions.NativeIdLeadsToItsSession | lineagelens-src/insights.ts:831-847 | from then on an entry's native id leads to the session that the entry opened or joined, clashes included |
| AgentSessions.NativeKeyIsTheFirstId | lineagelens-src/insights.ts:1035-1037 | the first nonempty one of session id, run id and conversation id |
| AgentSessions.SessionsAreLabelled | lineagelens-src/insights.ts:811-846 | a session carries its first record's signature, starts with it and ends with its last record |
| AgentSessions.EqualTimesKeepOrder | lineagelens-src/insights.ts:786-793 | records of the same time keep the order in which they were given |
| AgentSessions.CleanKeepsInv | lineagelens-src/insights.ts:798-848 | what the loop keeps: both maps, the sessions' ends and the refinement |
| AgentSessions.SessionAccumulators.Find | lineagelens-src/insights.ts:807-809 | the lookup in the maps of accumulator objects |
| AgentSessions.SessionAccumulators.Add | lineagelens-src/insights.ts:798-848 | one turn of the loop on accumulator objects does one step of the value model, with every object in the list distinct |
| AgentSessions.AccumulateSessions | lineagelens-src/insights.ts:794-848 | the loop over the sorted entries gives the folded sessions |
| AgentSessions.BuildAgentSessions | lineagelens-src/insights.ts:778-893 | filter, sort, accumulate, sort by end, first twelve |
| AgentSessions.ShownAreTheLatest | lineagelens-src/insights.ts:891-892 | twelve sessions are shown, or all if there are no more: the first ones of a list in which no session ended later than one before it |
| WinnerSelection.ComparatorsArePreorders | lineagelens-src/correlation.ts:287-306 | both comparators (and the timing one) are total and transitive |
| WinnerSelection.ComparatorsFlip | lineagelens-src/correlation.ts:287-306 | swapping the operands flips the sign of both comparators |
| WinnerSelection.RankingIsLexicographic | lineagelens-src/correlation.ts:173 | in the ranked list no candidate stands behind one that it beats by file match, else by capture status, else by distance in time, else by the later response |
| WinnerSelection.BaselineIsNotBehind | lineagelens-src/correlation.ts:287-326 | the sign of the baseline comparator is that order of criteria, both ways |
| WinnerSelection.ComparatorsAreLexicographic | lineagelens-src/correlation.ts:287-358 | the two comparators criterion by criterion, content before baseline; this spells the definitions out |
| WinnerSelection.ResolvedWinnerIsSound | lineagelens-src/correlation.ts:328-361 | when content decides, the winner was scored, meets the threshold, scores at least every scored candidate and is the least by the comparator, in spite of the early break |
| WinnerSelection.BreakCostsLittle | lineagelens-src/correlation.ts:338-340 | the winner scores at least 0.95 or at least what any candidate would have scored, so none would have scored 0.05 more |
| WinnerSelection.StopIsFirstDecisive | lineagelens-src/correlation.ts:333-341 | scoring ends right behind the first candidate whose score is at least 0.95 and reaches the threshold, or at the end |
| WinnerSelection.UnresolvedWinnerIsBaseline | lineagelens-src/correlation.ts:173-182 | otherwise the winner is the least by the baseline comparator |
| WinnerSelection.ContentDecidesIffSomeQualifies | lineagelens-src/correlation.ts:333-346 | content decides exactly if two of the unsorted candidates are at most 500 ms behind every one, the code is not blank and some candidate's own score reaches the threshold: the break hides none |
| WinnerSelection.AmbiguousIff | lineagelens-src/correlation.ts:270-285 | the timing is ambiguous exactly if two candidates are at most 500 ms behind every candidate |
| WinnerSelection.RankedIsAmbiguousIff | lineagelens-src/correlation.ts:173-176 | the ranking before it makes no difference to that |
| WinnerSelection.UnresolvedWinnerIsOnTop | lineagelens-src/correlation.ts:173-182 | without a content decision the winner is the first of the ranking, and it carries its own score exactly if content was consulted |
| WinnerSelection.PerfectContentScoreIff | lineagelens-src/correlation.ts:333-341 | a content score of 1 means that the normalized body and the normalized code are nonempty and agree as far as they are compared |
| WinnerSelection.ScoreCandidates | lineagelens-src/correlation.ts:333-341 | in place: candidates up to the first decisive one are scored, the rest keep their fields |
| WinnerSelection.ResolveByContentSimilarity | lineagelens-src/correlation.ts:328-361 | whether some candidate qualifies; the array is re-sorted exactly then |
| WinnerSelection.SelectWinner | lineagelens-src/correlation.ts:173-182 | sorting, ambiguity and content in the source's order give the specified winner |
| WinnerSelection.ConfidenceIsBounded | lineagelens-src/correlation.ts:371-413 | the rounded confidence is within the status multiplier, never negative, and never rises with the distance in time |
| WinnerSelection.ConfidenceAtTheEnds | lineagelens-src/correlation.ts:383-411 | the weights: 0.85 for time, 0.15 for the file and the factor of each capture status, at both edges of the window and without one |
| WinnerSelection.ConfidenceIsLinear | lineagelens-src/correlation.ts:383-389 | between them the confidence falls evenly with the distance in time |
| WinnerSelection.BoostAtTheEnds | lineagelens-src/correlation.ts:391-401 | a content decision adds a tenth at the threshold, three tenths for a perfect score, and nothing below the threshold |
| ClaimTable.NeverAttributedTwice | lineagelens-src/correlation.ts:147-194 | over all histories: an id is attributed again only if a clock reading was more than five minutes past its claim or at least 1024 other ids were used since its last use; the table never exceeds 1024 |
| ClaimTable.ClaimedStaysBlocked | lineagelens-src/correlation.ts:157-159 | one correlation keeps a claim and does not attribute its id, unless there is such a reason |
| ClaimTable.BlockedThroughRun | lineagelens-src/correlation.ts:147-194 | the same through any run of correlations |
| ClaimTable.StepKeepsInv | lineagelens-src/correlation.ts:147-194 | no id twice, entries in order of last use, at most 1024 |
| ClaimTable.NewestDropsTheFirst | lineagelens-src/correlation.ts:671-678 | what the size limit drops has 1024 other ids used after it |
| ClaimTable.AttributableIff | lineagelens-src/correlation.ts:147-162 | a prompt can be attributed exactly if it is a candidate and was not claimed in the five minutes before |
| ClaimTable.AttributedIsClaimed | lineagelens-src/correlation.ts:767-771 | what is attributed is claimed, with the time of the claim, as the most recently used |
| ClaimTable.AvailableKeepsOrder | lineagelens-src/correlation.ts:157-159 | the filter drops exactly the claimed candidates and keeps the order of the others |
| ClaimTable.CandidatesAreRecent | lineagelens-src/correlation.ts:736-745 | after a correlation, with or without a winner, every claim of a candidate stands behind all other claims |
| ClaimTable.ResetFreesAll | lineagelens-src/correlation.ts:26-28 | after a reset every candidate can be attributed again |
| ClaimTable.ClaimedPromptRequestIds.PruneAt | lineagelens-src/correlation.ts:662-679 | drops what is too old and then the oldest beyond the limit, and nothing else |
| ClaimTable.ClaimedPromptRequestIds.LookUp | lineagelens-src/correlation.ts:736-745 | whether the id is claimed; a claimed id moves to the end with its time |
| ClaimTable.ClaimedPromptRequestIds.RememberAt | lineagelens-src/correlation.ts:767-771 | the claim is entered at the end and the table pruned |
| ClaimTable.ClaimedPromptRequestIds.FilterAvailable | lineagelens-src/correlation.ts:157-159 | the filter with its side effect: the unclaimed candidates in order, every claimed one touched |
| ClaimTable.ClaimedPromptRequestIds.CorrelateInsertion | lineagelens-src/correlation.ts:147-194 | prune, filter, choose and claim as one step |
| ChunkedBody.RoundTrip | lineagelens-proxy/connect_tunnel.py:339-371 | reading what the writer emits gives the concatenated chunks and leaves the cursor just behind the message, for any bytes around it, exactly up to the limit; above it the body is refused |
| ChunkedBody.MessageIsRead | lineagelens-proxy/connect_tunnel.py:339-371 | the same for every message the standard allows with white space, chunk extensions and trailers |
| ChunkedBody.WriterEmitsAMessage | lineagelens-proxy/connect_tunnel.py:485-498 | the writer's output is such a message; empty chunks are skipped |
| ChunkedBody.FramedIsValid | lineagelens-proxy/connect_tunnel.py:485-498 | its sizes are the chunks' lengths and its bodies concatenate to the body |
| ChunkedBody.ParsePrintedHex | lineagelens-proxy/connect_tunnel.py:491 | parsing the printed size of any natural number gives it back |
| ChunkedBody.SizeTextOfLine | lineagelens-proxy/connect_tunnel.py:348-350 | stripping and cutting at the semicolon finds the size in every valid chunk line |
| ChunkedBody.AcceptedBodyIsWithinLimit | lineagelens-proxy/connect_tunnel.py:366-368 | whatever the bytes, an accepted body is within the limit |
| ChunkedAcceptance.AcceptedIff | lineagelens-proxy/connect_tunnel.py:339-371 | for any bytes: a body is accepted exactly if complete chunks within the limit stand in front of a line of size 0, and then it is their bytes in order |
| ChunkedAcceptance.OutcomeIsRight | lineagelens-proxy/connect_tunnel.py:339-371 | for any bytes and every outcome: the reader passes complete chunks within the limit up to a place where the bytes give the reason that the outcome names |
| ChunkedAcceptance.BrokenOffIsAcceptedIff | lineagelens-proxy/connect_tunnel.py:339-371 | of the writer's output cut off anywhere, the reader accepts exactly what still has the digit of the last chunk and is within the limit |
| ChunkedAcceptance.TurnIsRight | lineagelens-proxy/connect_tunnel.py:344-364 | the same for one turn of the loop |
| ChunkedAcceptance.BrokenChunkIsRefused | lineagelens-proxy/connect_tunnel.py:344-364 | a chunk that is cut off is refused, wherever the cut is |
| ChunkedAcceptance.TrailersEndAtTheFirstBlank | lineagelens-proxy/connect_tunnel.py:355-358 | trailers are nonblank lines up to the first blank one or the end of the stream, which is consumed |
| ChunkedAcceptance.SizesAreHexTexts | lineagelens-proxy/connect_tunnel.py:349-353 | a size is accepted exactly if it is nonempty and all hex digits |
| ChunkedAcceptance.HexDigitsAreAscii | lineagelens-proxy/connect_tunnel.py:349-353 | the digits are those of ASCII, upper case in print and either case when read |
| ChunkedAcceptance.HexPlaces | lineagelens-proxy/connect_tunnel.py:349-353 | sizes are read in base sixteen |
| ChunkedAcceptance.SizeTextIsRight | lineagelens-proxy/connect_tunnel.py:348-350 | the size text is what stands in front of the first semicolon, between white space |
| ChunkedBody.ReadNextChunk | lineagelens-proxy/connect_tunnel.py:344-364 | one turn of the loop: result, errors and cursor |
| ChunkedBody.SkipTrailerLines | lineagelens-proxy/connect_tunnel.py:355-358 | consumes lines up to and including the first blank one |
| ChunkedBody.ReadChunkedHttpBody | lineagelens-proxy/connect_tunnel.py:339-371 | the loop on the consumed stream gives the specified result and cursor |
| ChunkedBody.WriteChunk | lineagelens-proxy/connect_tunnel.py:487-494 | appends one framed chunk, or nothing for an empty one |
| ChunkedBody.WriteStreamingBody | lineagelens-proxy/connect_tunnel.py:485-498 | appends all framed chunks and the last chunk |
| ChunkedBody.ReadHttpRequestBody | lineagelens-proxy/connect_tunnel.py:374-394 | either framing: too large exactly for a length outside the limit, exactly the announced bytes otherwise |
| ChangeQueue.HandlersAreSerialized | lineagelens-src/extension.ts:1482-1499 | in every interleaving: handlers of one document never overlap, start in arrival order, and a missing entry means all its work has settled |
| ChangeQueue.StepKeepsInv | lineagelens-src/extension.ts:1482-1499 | arrival, start, settling and cleanup keep the chain and the table |
| ChangeQueue.SomethingCanHappen | lineagelens-src/extension.ts:1485-1488 | no deadlock: while a handler has not settled, one can start or settle, failures included |
| ChangeQueue.NoLeak | lineagelens-src/extension.ts:1492-1496 | once every cleanup has happened the map is empty |
| ChangeQueue.EveryEventIsHandled | lineagelens-src/extension.ts:1482-1490 | over all runs: every event gets one handler, in the order of the events, for its own document |
| ChangeQueue.FailureDoesNotBlock | lineagelens-src/extension.ts:1485-1488 | a handler that fails enables the same next steps as one that succeeds |
| ChangeQueue.ClearIsSafeIffIdle | lineagelens-src/extension.ts:800 | from any state that the invariant admits: after clearing the map, handlers of one document overlap in no later run exactly when no work is outstanding |
| ChangeQueue.OverlapAfterClear | lineagelens-src/extension.ts:800 | the run that overlaps otherwise, from the first unsettled job |
| ChangeQueue.ClearCanOverlap | lineagelens-src/extension.ts:800 | a run in which two handlers of one document overlap after it |
| ChangeQueue.DocumentChangeQueues.Queue | lineagelens-src/extension.ts:1482-1490 | a new promise behind the table's entry, and the entry replaced |
| ChangeQueue.DocumentChangeQueues.Finally | lineagelens-src/extension.ts:1492-1496 | the entry goes only if it is still this promise |
| Confirmations.SettledExactlyOnce | lineagelens-src/backend.ts:573-630 | in every run: a waiter settles at most once and is unsettled exactly while it is in the table with a live timer that can still settle it; at most 50 entries |
| Confirmations.StepSettlesItsOwn | lineagelens-src/backend.ts:594-606 | an event settles a waiter only for a reason that fits the waiter's own key, and removes only its own entry |
| Confirmations.EventReachesExactly | lineagelens-src/backend.ts:573-630 | in every reachable state each event settles exactly the waiters it speaks of, with what it tells them |
| Confirmations.RegisterIsRight | lineagelens-src/backend.ts:573-608 | accepted exactly below fifty entries; then one new waiter is in the table, and its timer is live |
| Confirmations.LowerIgnoresCase | lineagelens-src/backend.ts:574 | two ids share an entry exactly if they differ in the case of letters only |
| Confirmations.ConfirmReachesTheNewest | lineagelens-src/backend.ts:610-615 | after a supersede, a confirmation in any letter case reaches the new waiter |
| Confirmations.StepKeepsInv | lineagelens-src/backend.ts:573-630 | table, timers and settlements agree after every event |
| Confirmations.FailingOneFirst | lineagelens-src/backend.ts:624-630 | failing all entries one by one, in any order, is failing them at once |
| Confirmations.PendingConfirmations.WaitForConfirmation | lineagelens-src/backend.ts:573-608 | refused exactly at 50 entries, even for an id that is already in the table; otherwise supersedes and registers |
| Confirmations.PendingConfirmations.SettleWaiter | lineagelens-src/backend.ts:594-606 | deletes the key, stops the timer, settles the promise |
| Confirmations.PendingConfirmations.RejectAllPendingConfirmations | lineagelens-src/backend.ts:624-630 | the loop over the map fails every entry and nothing else |
| OfflineQueue.DeliveredInOrder | lineagelens-src/backend.ts:203-247 | without overlapping flushes: delivered, in flight and waiting events are, in this order, what was enqueued less exactly the evicted ones |
| OfflineQueue.RunConserves | lineagelens-src/backend.ts:203-247 | with any number of overlapping flushes, every event is in exactly one place, once |
| OfflineQueue.StepConserves | lineagelens-src/backend.ts:203-247 | the same for one step |
| OfflineQueue.RunKeepsOrder | lineagelens-src/backend.ts:217-239 | order over whole runs |
| OfflineQueue.OldestIsEvicted | lineagelens-src/backend.ts:203-207 | a full queue gives up exactly the event that was enqueued first of all that wait; below the cap none goes |
| OfflineQueue.FlushIsRight | lineagelens-src/backend.ts:217-239 | a flush delivers the first k waiting events in order and the rest waits again, for every k at which a send can fail, or all |
| OfflineQueue.CapHoldsThroughoutIff | lineagelens-src/backend.ts:203-239 | in any run, overlapping flushes included, the queue stays within 100 throughout exactly when no failing flush gives back more than fits |
| OfflineQueue.StepKeepsCapIff | lineagelens-src/backend.ts:237-239 | the one step that takes a queue over the cap: a failing flush whose rest does not fit |
| OfflineQueue.QuietRunsKeepCap | lineagelens-src/backend.ts:203-239 | without overlapping flushes and with no enqueue during one, the queue stays within 100 throughout |
| OfflineQueue.CapHoldsUnlessFullDuringFlush | lineagelens-src/backend.ts:203-207 | the sum of queue and flight leaves the cap in exactly one kind of step: an enqueue during a flush when the two already fill it |
| OfflineQueue.EnqueuesKeepCap | lineagelens-src/backend.ts:204-207 | any number of enqueues fills a queue up to the cap and never lengthens one at the cap or over it |
| OfflineQueue.QueueOutgrowsCap | lineagelens-src/backend.ts:237-239 | for every m a run without overlapping flushes after which the queue holds (m + 1) * 100 events |
| OfflineQueue.OfflineQueueClient.EnqueueOffline | lineagelens-src/backend.ts:203-207 | drops the oldest at the cap and appends |
| OfflineQueue.OfflineQueueClient.BeginFlush | lineagelens-src/backend.ts:217-222 | takes the queue as it is |
| OfflineQueue.OfflineQueueClient.SendFails | lineagelens-src/backend.ts:232-239 | the undelivered rest goes back in front |
| Outbox.NothingIsLostOrStranded | lineagelens-base-extension/src/capture.ts:525-582 | from activation on, in every run with settings and no enqueue between a retry's load and save: unsent entries are in the outbox, no attempt count is the removal mark, and a nonempty outbox has a timer or a retry under way |
| Outbox.LeavesOnlyWhenSentOrCrowdedOut | lineagelens-base-extension/src/capture.ts:525-582 | an unsent entry leaves only by its own acknowledged send, or as one of the oldest of an outbox of 200 |
| Outbox.SendTouchesItsEntryOnly | lineagelens-base-extension/src/capture.ts:556-568 | a failed send is counted and waits for exactly the delay of its new count from the retry's start, a successful one is marked, and no other entry changes |
| Outbox.StepKeepsInv | lineagelens-base-extension/src/capture.ts:525-582 | what every such step keeps, overlapping retries included |
| Outbox.LateEntrySurvivesIffNothingWasDue | lineagelens-base-extension/src/capture.ts:550-577 | over any run from a retry's load of a nonempty outbox to its save: an entry that came in after the load survives the save exactly if no entry was due at the load |
| Outbox.LateEntryIsLost | lineagelens-base-extension/src/capture.ts:550-577 | a run that ends with an unsent entry and an empty outbox |
| Outbox.UnconfiguredStrandsIff | lineagelens-base-extension/src/capture.ts:546-548 | giving up for want of settings strands a nonempty outbox exactly when no timer and no other retry is left |
| Outbox.StrandedUntilCalled | lineagelens-base-extension/src/capture.ts:532-548 | a stranded outbox stays stranded until a new send fails or the extension is activated again, and either ends it |
| Outbox.UnconfiguredStrands | lineagelens-base-extension/src/capture.ts:546-548 | a run of three events that ends so |
| Outbox.EnqueueEntryIsRight | lineagelens-base-extension/src/sync/outbox.ts:25-42 | the new entry is kept, ids stay unique, at most the oldest goes |
| Outbox.EnqueuePlaces | lineagelens-base-extension/src/sync/outbox.ts:25-42 | an entry takes the place of the one with its id, or comes last; exactly the newest entries stay, as many as fit |
| Outbox.EnqueuedIsStored | lineagelens-base-extension/src/capture.ts:525-530 | the entry of a failed send is stored as it comes, counts as unsent, and a timer is armed |
| Outbox.RunKeepsCapped | lineagelens-base-extension/src/capture.ts:525-582 | at most 200 entries are stored throughout every run, overlapping retries included |
| Outbox.TimerIsArmedExactly | lineagelens-base-extension/src/capture.ts:532-581 | the timer is armed from a failed send, or from a retry that leaves something unsent, until it fires, and never else |
| Outbox.RemainingKeepsOrder | lineagelens-base-extension/src/capture.ts:573 | the entries that are left keep their order and number |
| Outbox.BackoffDoublesToCeiling | lineagelens-base-extension/src/sync/outbox.ts:45-47 | 30 seconds, doubling, up to ten minutes and never more |
| Outbox.DueFrom | lineagelens-base-extension/src/sync/outbox.ts:50-52 | exactly the entries whose time has come, in order |
| Outbox.Remaining | lineagelens-base-extension/src/capture.ts:573 | exactly the entries not marked as sent |
| Outbox.CaptureOutbox.Enqueue | lineagelens-base-extension/src/capture.ts:525-530 | stores the entry and makes sure of a timer |
| Outbox.CaptureOutbox.SendFails | lineagelens-base-extension/src/capture.ts:562-567 | one more attempt and a later time on the retry's copy |
| Outbox.CaptureOutbox.FinishRetry | lineagelens-base-extension/src/capture.ts:573-581 | saves what is left if anything changed, and re-arms the timer if anything is left |
| CaptureStore.HeadFixesHistory | lineagelens-base-extension/src/store.ts:357-361 | with an injective hash that is never the genesis, complete chains with the same head hash hold the same cores in the same order |
| CaptureStore.SameHeadSameHistory | lineagelens-base-extension/src/store.ts:357-368 | so two add-only runs without cap that end in the same head hash stored the same history |
| CaptureStore.HeadFixesWhatIsRetained | lineagelens-base-extension/src/store.ts:357-368 | with a cap, the head hash still fixes all that both stores retain |
| CaptureStore.AddKeepsChain | lineagelens-base-extension/src/store.ts:357-368 | adding under any cap keeps every record intact and linked to the next older one |
| CaptureStore.AdditionsStayChained | lineagelens-base-extension/src/store.ts:357-368 | the same over runs; without dropping, back to the first record |
| CaptureStore.AddKeepsTheNewest | lineagelens-base-extension/src/store.ts:358-368 | the new record is in front with the new head hash, and behind it stand the newest old ones, as many as the cap allows |
| CaptureStore.NegativeCapDropsTheOldest | lineagelens-base-extension/src/store.ts:364-367 | a negative cap drops that many of the oldest records |
| CaptureStore.ChainStartsAtGenesis | lineagelens-base-extension/src/store.ts:357-361 | on an empty store, or on top of an unsealed record, a new record is linked to sixty-four zeros |
| CaptureStore.VerifyFindsExactly | lineagelens-base-extension/src/evidence/hashChain.ts:81-116 | the check passes exactly when every record has a hash and it is the hash of its content; every other sealed record is named |
| CaptureStore.TamperingIsDetected | lineagelens-base-extension/src/evidence/hashChain.ts:98-102 | changing the content of one stored record, its stored hashes left as they were, is found and named |
| CaptureStore.ForgeryIsDetectedIff | lineagelens-base-extension/src/evidence/hashChain.ts:92-102 | replacing a record by any other is found, and the record named, exactly if it does not carry its own hash |
| CaptureStore.RehashedForgeryShowsIffNotNewest | lineagelens-base-extension/src/evidence/hashChain.ts:97-105 | a forgery rehashed behind the same predecessor passes the check, and shows as a break exactly if it is not the newest record |
| CaptureStore.HashesAreDistinct | lineagelens-base-extension/src/evidence/hashChain.ts:36-38 | no two records of a complete chain have the same hash |
| CaptureStore.NoFalseAlarm | lineagelens-base-extension/src/store.ts:332-465 | no run of adding, removing, reordering, classifying, reviewing and clearing makes the check fail |
| CaptureStore.OperationKeepsEvidence | lineagelens-base-extension/src/store.ts:395-465 | every record after an operation has the core and hashes of one before it, or is the one just added |
| CaptureStore.RemoveTakesOne | lineagelens-base-extension/src/store.ts:424-430 | removing takes out the first record with the id; all before and behind it stay in their order |
| CaptureStore.ClassifyChangesOne | lineagelens-base-extension/src/store.ts:436-443 | exactly that record gets the source, and the given confidence or 0.99, 0.95 or 0.5 |
| CaptureStore.ReviewChangesOne | lineagelens-base-extension/src/store.ts:450-460 | exactly that record is reviewed |
| CaptureStore.UnknownIdChangesNothing | lineagelens-base-extension/src/store.ts:424-465 | an id that no record has changes nothing, and clearing leaves nothing |
| CaptureStore.ChainBreaksAtTheEndOnly | lineagelens-base-extension/src/evidence/hashChain.ts:103-105 | a chain reports at most one break, where the cap cut it, and a complete one none |
| CaptureStore.VerificationIsOrderIndependent | lineagelens-base-extension/src/evidence/hashChain.ts:75-80 | any permutation of the records gets the same verdict, counts and failing ids |
| CaptureStore.CountsAddUp | lineagelens-base-extension/src/evidence/hashChain.ts:81-116 | every record is counted once, as verified, tampered or unsealed |
| CaptureStore.MissingLinkIsGenesis | lineagelens-base-extension/src/evidence/hashChain.ts:97 | a sealed record without a link is judged as the first of its chain |
| CaptureStore.VerifyChain | lineagelens-base-extension/src/evidence/hashChain.ts:81-116 | the two loops compute the specified verdict |
| CaptureStore.SealMissingInPlace | lineagelens-base-extension/src/evidence/hashChain.ts:46-59 | the loop from the oldest record on seals in place what has no hash, and says whether anything had none |
| CaptureStore.SealingKeepsEvidence | lineagelens-base-extension/src/evidence/hashChain.ts:40-45 | sealed records and all contents stay as they are, the others become intact |
| CaptureStore.SealedPassesIffItPassedBefore | lineagelens-base-extension/src/evidence/hashChain.ts:40-59 | after sealing the check passes exactly if the records that were already sealed pass it |
| CaptureStore.ForgeryIsDetectedAfterSealingIff | lineagelens-base-extension/src/evidence/hashChain.ts:46-59 | a replaced record is still found after sealing exactly if it carries a hash, and a wrong one |
| CaptureStore.StrippedForgeryPasses | lineagelens-base-extension/src/evidence/hashChain.ts:51-55 | a record without a hash fails the check before sealing and passes it afterwards, whatever its content |
| CaptureStore.SealingCompletesTheChain | lineagelens-base-extension/src/evidence/hashChain.ts:46-59 | unsealed records in front of a complete chain become part of it |
| CaptureStore.ReorderPermutesIff | lineagelens-base-extension/src/store.ts:395-421 | with unique ids, reordering permutes the records exactly when no stored id is dragged twice |
| CaptureStore.DraggedTwiceDuplicates | lineagelens-base-extension/src/store.ts:395-406 | a store of two records that has three after dragging one of them twice |
| CaptureStore.ReorderedChainIff | lineagelens-base-extension/src/store.ts:395-421 | permuted records of a complete chain are a chain exactly if they stand in their old order |
| CaptureStore.AddForksIff | lineagelens-base-extension/src/store.ts:358-361 | after a permutation, a new record's link is one that a stored record already has exactly if another record than the newest is on top |
| CaptureStore.AddAfterReorderChainsIff | lineagelens-base-extension/src/store.ts:358-361 | adding then gives a complete chain, whose head hash fixes the history, exactly if the order was left alone |
| CaptureStore.MoveThenAddForks | lineagelens-base-extension/src/store.ts:358-421 | a run of four operations after which two records have the same link |
| CaptureStore.ReorderKeepsOrder | lineagelens-base-extension/src/store.ts:396-418 | dragged records stand together in dragged order, all others keep theirs |
| CaptureStore.ReorderPlaces | lineagelens-base-extension/src/store.ts:404-418 | where they stand, for every kind of target |
| CaptureStore.AcceptedOnlyFromReviewed | lineagelens-base-extension/src/review/reviewState.ts:20-64 | the core stays, the state changes along an allowed transition only, and accepted is reached from reviewed only; time and note change with it |
| CaptureStore.ReviewMovesIffAllowed | lineagelens-base-extension/src/review/reviewState.ts:20-64 | the state changes exactly along the thirteen listed transitions, a missing state being unreviewed |
| CaptureStore.Store.AddRecord | lineagelens-base-extension/src/store.ts:357-368 | seals against the head, puts in front, cuts at the cap |
| CaptureStore.Store.Remove | lineagelens-base-extension/src/store.ts:424-430 | takes out the first record with the id, and says whether there was one |
| CaptureStore.Store.Move | lineagelens-base-extension/src/store.ts:395-421 | the three target cases on the stored list |
| CaptureStore.Store.SetClassification | lineagelens-base-extension/src/store.ts:436-443 | one record's source and confidence, with the defaults per source |
| CaptureStore.Store.SetReviewState | lineagelens-base-extension/src/store.ts:450-460 | one record's review, or nothing |
| BodyLimit.LimitHolds | lineagelens-backend/app/main.py:319-366 | in every interleaving: the application never gets more bytes than the limit and gets all below it; the client gets the application's messages and then, exactly if the limit was crossed, one rejection, start before body |
| BodyLimit.TransparentUpToTheLimit | lineagelens-backend/app/main.py:343-366 | in every interleaving: the client is sent all of the application's messages from before the crossing, in order, and none from behind it; the bytes that came in settle every message that either side gets |
| BodyLimit.StepAnswers | lineagelens-backend/app/main.py:319-366 | the answer to each event follows from the bytes seen so far |
| BodyLimit.RejectedStaysSilent | lineagelens-backend/app/main.py:343-364 | after that nothing of the application reaches the client and every receive is a disconnect |
| BodyLimit.RejectionComesFirstIffNothingWasSent | lineagelens-backend/app/main.py:323-341 | the 413 opens the response exactly if the application had sent nothing |
| BodyLimit.RejectionCanComeSecond | lineagelens-backend/app/main.py:354-364 | a run in which the rejection starts behind the application's own message |
| BodyLimit.StepKeepsInv | lineagelens-backend/app/main.py:319-366 | count, flags and sent messages agree after every step |
| BodyLimit.StreamingBodyLimit.MessageArrives | lineagelens-backend/app/main.py:348-359 | counts a body part, passes it on or rejects |
| BodyLimit.StreamingBodyLimit.SendRejection | lineagelens-backend/app/main.py:323-334 | begins the rejection once |
| BodyLimit.StreamingBodyLimit.SendUnlessRejected | lineagelens-backend/app/main.py:361-364 | forwards exactly while nothing was rejected |

## Left out

- HTTP, WebSocket and file transport, VS Code APIs, secret storage, webviews and status bars: their outcomes (a send succeeds or fails, a message arrives, a timer fires) are events.
- Clock values and timer delays: a timer that is armed may fire at any later step, and clock readings are parameters, so nothing is proved about how long anything takes. A read that times out in the tunnel is not modelled.
- SHA-256 and canonical JSON: the event hash is a function parameter; where a theorem needs it, it is assumed injective and never the genesis hash. The derived fields of a record (risk signals, range hash, schema version) are not modelled.
- Text is a sequence of characters; UTF-16 surrogate pairs, case folding beyond ASCII (confirmation ids, the bearer pattern) and the normalization before the similarity (a function parameter) are not modelled.
- Scores and confidences are exact reals; binary rounding of the intermediate results is not modelled.
- Integer parsing in Python also accepts signs, underscores and a 0x prefix for chunk sizes; here only hex digits are accepted, and the content length comes already parsed.
- The stream reader's line length limit, the response header block, the HEAD and non-streaming branches of the response writer, and header parsing.
- Collecting candidates (window, file context tokens, unavailable captures), the hook correlation and the copied request fields. A capture status outside the four that collection lets through does not occur.
- The summary that the dashboard computes per session (files, risk, cost, copied tool and model names); a session's end is compared as a number, which is the order of the ISO texts for years with four digits.
- The store's debounced save, write chain and export; loading from disk. An empty stored hash text counts as no hash.
- The outbox after disposal, and settings that change between events other than by a retry finding none. The stored array is a value, so a retry's marks are not seen by others before it saves.
- OfflineQueue.DeliveredInOrder: states nothing about order when two flushes overlap, because then the code itself interleaves deliveries; conservation is proved there too.
- Outbox.NothingIsLostOrStranded: excludes an enqueue between a retry's load and save, because the code loses that entry; the exact condition is stated beside it.
- Body-limit bypass for GET, HEAD, OPTIONS and non-HTTP scopes.
- Classifier rules, pricing, depth score, path helpers, telemetry and proxy header filters: only easy members.
