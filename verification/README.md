# Verified model of the Remis localization pipeline

Remis translates the text files of game mods with language models. This project models the
machinery around the model calls and proves what it promises: files are cut into batches, the
batches run concurrently and come back in any order, the results are put together and spliced
into the original lines, and progress is remembered so that an interrupted run can resume.

Where the program works step by step on mutable state, so does the model: methods with loops,
and classes whose methods change their fields, each proved against a function or relation. The
laws are lemmas about those functions and relations, over every input, run or interleaving. The
foreign parts (model calls, parsers of model output, clocks, failing writes, completion orders)
are arbitrary functions, parameters or nondeterministic choices.

| files | what they model |
|---|---|
| `BatchTypes`, `StreamScheduler`, `StreamRuns`, `StreamNames`, `StreamLoop` | the streaming scheduler as a step relation, its invariant, whole runs, the schedules of the loop with the exact condition on file names, and the loop itself |
| `BatchWorker`, `ParallelScheduler` | the retrying worker, and the all-at-once scheduler with the proof that both agree |
| `Strings`, `EditDistance`, `TermMatching` | occurrences of a string in another; Levenshtein distance; match tiers and two-stage deduplication of glossary terms |
| `GlossaryMerge`, `MergeLaws`, `MergeStore` | what a glossary merge does to the entry table, its laws, and the code that executes and previews it |
| `Checkpoint` | the checkpoint protocol with threads, failing writes, crashes and reloads |
| `ReviewBatches` | case building, greedy batching and alignment of advice in the glossary health review |
| `LocText`, `LocFile`, `LinePatch`, `FilePatch` | escaping, printing and parsing localization files; the line patcher and the header normalization |
| `DeepMerge` | the recursive merge of JSON parameters and its conflict report |
| `Chunks` | overlapping chunks for term mining |
| `I18nTree`, `I18nSessions` | collecting and replacing the strings of a JSON tree; resumable translation sessions |
| `PlanRegistry` | the life cycle of agent plans and the bounded audit trail |

## Where the code does not meet the expected property

For each of these there is the exact condition under which the code does meet the property, for all
inputs, and a lemma about an input that does not meet it:

* Streamed files share their tables by name. A run has delivered every file exactly when no file was
  submitted while an earlier one of its name still had a buffer (`StreamRuns.DeliveredIffClashFree`).
  On an executor that starts batches in the order of submission, all schedules deliver all files
  exactly when files with text have different names or, with a single worker, files of one name are
  kept apart by at least three batches of files in between (`StreamNames.AlwaysDeliversIff`,
  `StreamNames.SeparatedMeansDistinct`, `StreamNames.TwoFilesOneName`).
* The all-at-once scheduler numbers batches globally, so that none is lost
  (`ParallelScheduler.GlobalKeysDistinct`), but collects the results by file name. A file with text keeps
  its translation exactly when no other file with text has its name; otherwise it gets its source
  texts, although every batch succeeded (`ParallelScheduler.EnoughResultsIff`,
  `ParallelScheduler.ParallelIsChunkAndMap`, `ParallelScheduler.TwoFilesFallBack`), and of files of one
  name the table keeps the last (`ParallelScheduler.FileResultsAt`). Its caller passes base names
  of files from different directories.
* The merge preview also counts groups whose entries lie only in the target
  (`MergeLaws.PreviewSurplus`, `MergeLaws.PreviewIsExactIff`, `MergeLaws.PreviewPlansATargetOnlyTerm`).
* An unreadable checkpoint counts as no progress; of the files saved in it, the next successful write
  keeps just those that were marked again since (`Checkpoint.UnreadableKeepsIff`,
  `Checkpoint.UnreadableKeepsReadded`, `Checkpoint.UnreadableLosesAFile`).
* A `#` after a backslash and a quote in a translation makes the next patch of that line leave a
  piece of it behind (`LinePatch.PatchesExactlyIff`, `LinePatch.PutPut`,
  `LinePatch.BackslashQuoteHashIsUnsafe`, `LinePatch.SecondPatchLeavesAPiece`). A backslash at the end
  of a text is harmless (`LinePatch.PlainTextIsHashSafe`).
* The translation script writes its output file in place; stopping in the middle of a write loses
  every translation found so far (`I18nSessions.SessionKeepsIff`, `I18nSessions.SomeSessionIsTorn`,
  `I18nSessions.TornSessionLosesAText`).

One branch is dead for every input: the partial match tier can never produce a match, because its test
implies the exact tier's (`TermMatching.TierConfidence`).

Four more conditions are exact, and always met by the callers the program has today:

* Every text is chunked exactly when all fit in one chunk or the overlap is non-negative and below
  the size (`Chunks.AllTextsChunkedIff`, `Chunks.SettingsThatLoseTexts`); both callers use the sizes
  50 and 3.
* A term survives deduplication exactly when some match with it wins its id
  (`TermMatching.TermSurvivesIff`, `TermMatching.SharedIdLosesATerm`); the loaders read entries whose
  ids are primary keys, for which every term survives (`TermMatching.EntryIdsDetermine`,
  `TermMatching.DeduplicationIsMaximal`).
* Findings of the glossary health check get a case each exactly when no issue code, with the
  separator, begins another one (`ReviewBatches.FindingsKeptApartIff`,
  `ReviewBatches.ColonMergesFindings`); the six codes meet that (`ReviewBatches.HealthReportsKeepFindings`).
* Header normalization is idempotent exactly when the target's own header line matches the header
  pattern; for another line, patching a patched file would put one more line on top
  (`FilePatch.NormalizeTwice`, `FilePatch.HeaderPilesUp`, `FilePatch.EnglishIsNoHeader`). Builds start
  from the lines of the source file, and the proofreading that patches its own output
  (`scripts/core/services/proofreading_service.py:484`, `587`) always passes a key with the prefix `l_`,
  which matches.

## Model

| member | source | states |
|---|---|---|
| BatchTypes.Config.EffectiveOverride | scripts/core/parallel_processor.py:23-26 | a chunk size override of zero or none is ignored, any other is at least one |
| BatchTypes.Config.ChunkSize | scripts/core/parallel_processor.py:131-138 | the chunk size is positive for every provider, so cutting a file terminates |
| BatchTypes.ChunkSizes | scripts/core/parallel_processor.py:131-138 | an override other than zero is the size for every provider, at least one; without one it is 20, 10 or 40 by the kind of provider |
| BatchTypes.Slices | scripts/core/parallel_processor.py:221-228 | joining the slices of a list gives the list back |
| BatchTypes.SliceAt | scripts/core/parallel_processor.py:226-228 | slice number i is the range that starts at i times the chunk size, cut at the end of the list |
| BatchTypes.SliceCount | scripts/core/parallel_processor.py:221 | the number of slices is the rounded-up quotient computed before the batches are cut, positive for a non-empty file |
| BatchTypes.SliceIndex | scripts/core/parallel_processor.py:226 | a slice with number k exists exactly when k times the chunk size is still inside the list |
| StreamScheduler.CutIsBatch | scripts/core/parallel_processor.py:226-236 | the cut at offset k times the chunk size is the file's batch number k, and dividing the offset gives k back |
| StreamScheduler.SubmitKeeps | scripts/core/parallel_processor.py:214-275 | submitting a file, empty or not, keeps the invariant unless a file of its name still has a buffer: open files have different names, and every batch of an open file is either outstanding or stored, never both |
| StreamScheduler.FinishKeeps | scripts/core/parallel_processor.py:285-337 | taking any finished future, successful or thrown, keeps the invariant, whether or not it completes its file; no branch for a forgotten file or a missing index is taken |
| StreamScheduler.ApplyKeeps | scripts/core/parallel_processor.py:260-337 | every step of the loop without such a clash keeps the invariant |
| StreamScheduler.NewNameIsFree | scripts/core/parallel_processor.py:222-224 | when files with text have different names, no submission clashes |
| StreamScheduler.ExpectedInFull | scripts/core/parallel_processor.py:285-323 | what is expected of an emission, in terms of the worker's replies alone: texts, flag and warnings |
| StreamRuns.BackPressure | scripts/core/parallel_processor.py:254-275 | for files of any names, in every reachable state the pending counter is the number of outstanding futures and at most 4 times the workers, minus one, plus the batch count of the largest file |
| StreamRuns.NeverStalls | scripts/core/parallel_processor.py:260-283 | for files of any names, whenever the loop goes on, some step is possible |
| StreamRuns.RunLength | scripts/core/parallel_processor.py:260-337 | for files of any names, a run is over after exactly one step per file, per batch and for the end of the stream |
| StreamRuns.DeliveredIffClashFree | scripts/core/parallel_processor.py:214-337 | a run that is over has delivered every file once and as expected if and only if no file was submitted while an earlier one of its name had a buffer; then all tables are empty and nothing was raised |
| StreamRuns.ClashIsFinal | scripts/core/parallel_processor.py:214-337 | a run with a clash, even one that an exception ended, has not delivered every file |
| StreamRuns.EveryRunDelivers | scripts/core/parallel_processor.py:178-337 | when files with text have different names, for every completion order and failure pattern a run ends after exactly one step per file, per batch and for the end of the stream; it has then emitted every file once, batches in index order, flagged as failed iff some batch failed or fell back, with that file's warnings and no others, and all tables are empty |
| StreamRuns.EmissionsInFull | scripts/core/parallel_processor.py:285-337 | in every run that is over and met no clash, an emitted file is flagged if and only if one of its batches threw, failed or fell back; its texts are those of its batches in order, a thrown batch leaving its source texts, and its warnings are exactly those of the replies |
| StreamRuns.BasicSubmit | scripts/core/parallel_processor.py:214-275 | for any names, submitting adds just the futures of the file's batches and keeps the counter exact |
| StreamRuns.BasicFinish | scripts/core/parallel_processor.py:285-287 | for any names, taking a future removes it alone and keeps the counter exact |
| StreamNames.TwoFilesOneName | scripts/core/parallel_processor.py:222-224 | two neighbouring files of one name with one text each: for every number of workers some schedule ends without having delivered both |
| StreamNames.AlwaysDeliversIff | scripts/core/parallel_processor.py:178-337 | on an executor that starts batches in submission order, every schedule of the loop delivers every file without an exception if and only if files with text have different names or, with one worker, at least three batches of files lie between two files of one name |
| StreamNames.SharedNameLosesAFile | scripts/core/parallel_processor.py:214-337 | for any two files with text of one name that are not kept apart in this way there is a schedule that ends without having delivered every file |
| StreamNames.SeparatedMeansDistinct | scripts/core/parallel_processor.py:222-224 | with two workers or more the condition is that files with text have different names |
| StreamNames.DeliversIffQuiet | scripts/core/parallel_processor.py:260-337 | a schedule that is over has delivered if and only if none of its turns took a file whose name still had a buffer |
| StreamNames.ToTheEnd | scripts/core/parallel_processor.py:260-283 | from every state of the loop some schedule comes to an end |
| StreamLoop.StreamRun.SubmitFile | scripts/core/parallel_processor.py:214-240 | an empty file is emitted at once; any other gets empty tables under its name, its futures, and is added to the counter |
| StreamLoop.StreamRun.SubmitBatches | scripts/core/parallel_processor.py:226-239 | the cutting loop registers one future for each slice of the file, and nothing else |
| StreamLoop.StreamRun.FinishFuture | scripts/core/parallel_processor.py:285-337 | the future is taken off and the counter lowered, the result is stored or, for a forgotten file, dropped, and a complete file is emitted |
| StreamLoop.StreamRun.EmitFile | scripts/core/parallel_processor.py:307-337 | a complete file is assembled in index order, emitted, and removed from all tables; with a batch index missing an exception ends the run and nothing is emitted |
| StreamLoop.StreamRun.Fill | scripts/core/parallel_processor.py:262-275 | for files of any names, the inner loop submits until at least 4 times the workers are pending or the stream is used up; what it did is a legal run that continues the one before |
| StreamLoop.StreamRun.Drain | scripts/core/parallel_processor.py:280-337 | for files of any names, taking a set of finished futures in any order continues the legal run; unless an exception ends it, it makes one step for each of them and takes off just these |
| StreamLoop.StreamRun.Run | scripts/core/parallel_processor.py:260-337 | for files of any names, the whole loop terminates after a legal run, with every file delivered as expected if and only if that run had no clash of names; then there was no exception and all tables are empty, and with different names there is no clash |
| BatchWorker.FirstAccepted | scripts/core/base_handler.py:257-272 | the first attempt whose list has the right length and is not the task's own list |
| BatchWorker.TaskCell.TranslateBatch | scripts/core/base_handler.py:250-319 | the task ends with the texts of the first attempt that gave a list of its own of the right length, and without flags; or, when no attempt did, with its source texts, both flags and the fallback warning; each failed attempt has left one warning, of the kind and with the message of its error, and only a failing prompt raises |
| BatchWorker.TranslateKeepsLength | scripts/core/base_handler.py:250-319 | every reply has as many texts as the batch; it is marked failed iff no attempt was accepted, and then holds the source texts |
| BatchWorker.ReplyIsFirstGiven | scripts/core/base_handler.py:250-319 | in a reply that is not flagged the texts are those of the first attempt that gave any; a flagged one holds the source texts, and no attempt gave any |
| BatchWorker.WrapperAdds | scripts/core/parallel_processor.py:140-176 | for any worker the wrapper adds only the flag of a batch without texts, the validator's warnings behind the worker's, and the validator's exception |
| BatchWorker.BatchInFull | scripts/core/parallel_processor.py:140-176 | handed to the retrying worker and its wrapper, a batch counts as unfinished, and contributes its source texts, if and only if its prompt could not be built, no attempt gave texts, or the validator raised |
| BatchWorker.StreamTranslates | scripts/core/parallel_processor.py:178-337 | from the attempts to the emitted file: in every finished run without a clash a file is flagged if and only if one of its batches was left in its source texts, and holds otherwise, batch by batch, the first texts an attempt gave |
| BatchWorker.ExpectedLength | scripts/core/parallel_processor.py:307-323 | with a length-preserving worker an emitted file has as many texts as its source |
| BatchWorker.StreamKeepsLengths | scripts/core/parallel_processor.py:178-337 | with the retrying worker, every finished run without a clash of names has delivered every file, with exactly as many texts as the file has, however many calls failed |
| ParallelScheduler.CreateBatchTasks | scripts/core/parallel_processor.py:47-70 | the batches of all files in order, numbered through globally; files without text contribute none |
| ParallelScheduler.CutFile | scripts/core/parallel_processor.py:51-68 | the batches of one file under consecutive global numbers |
| ParallelScheduler.ProcessBatchesParallel | scripts/core/parallel_processor.py:72-129 | for every completion order: a result for each batch under its own key, or an exception iff some batch throws or is marked failed |
| ParallelScheduler.AssembleFile | scripts/core/parallel_processor.py:366-380 | a file's batches joined in order of their numbers, or its source texts when one fell back or the number of texts is wrong |
| ParallelScheduler.CollectFileResults | scripts/core/parallel_processor.py:339-382 | the result table holds every file, the empty ones with an empty list |
| ParallelScheduler.ProcessFilesParallel | scripts/core/parallel_processor.py:28-45 | the run raises iff some batch of some file throws or comes back marked as failed, and otherwise gives the table assembled from all batches |
| ParallelScheduler.GlobalKeysDistinct | scripts/core/parallel_processor.py:49-68 | global numbers keep all batch keys apart, even for files of one name |
| ParallelScheduler.FiledJoins | scripts/core/parallel_processor.py:346-374 | for any names, what is collected under a name in order of the numbers is the results of all files of that name, one file after the other |
| ParallelScheduler.FileInFull | scripts/core/parallel_processor.py:346-380 | for any names and any worker, a file with text gets its source texts if and only if some batch of a file of its name came back failed or fallen back, or the files of its name gave another number of texts than it has; else what they gave |
| ParallelScheduler.EnoughResultsIff | scripts/core/parallel_processor.py:346-380 | with a worker that never fails, the length test of a file with text succeeds if and only if no other file with text has its name |
| ParallelScheduler.FileResultsAt | scripts/core/parallel_processor.py:339-382 | under a name, the table holds what the last file of that name got |
| ParallelScheduler.TwoFilesFallBack | scripts/core/parallel_processor.py:346-380 | two files of one name with one text each both get their source text from any worker that never fails, and the table has only the second |
| ParallelScheduler.StreamIsChunkAndMap | scripts/core/parallel_processor.py:178-337 | with a worker that never fails, an emitted file is its slices mapped through the worker and joined |
| ParallelScheduler.ParallelIsChunkAndMap | scripts/core/parallel_processor.py:47-70 | the same for the all-at-once scheduler, for files of any names and workers that do not look at the batch number, unless another file with text has the name: then the file gets its source texts |
| ParallelScheduler.SchedulersAgree | scripts/core/parallel_processor.py:178-337 | every finished streaming run without a clash and the all-at-once run give every file the same texts, although one numbers batches per file and the other globally, except the files with text that share their name, which get their source texts from the latter; the table holds the result when no later file has the name |
| EditDistance.Levenshtein | scripts/core/glossary_manager.py:1572-1584 | the two-row loop with its argument swap computes the edit distance |
| EditDistance.NextRow | scripts/core/glossary_manager.py:1577-1583 | from the distances of a prefix to all prefixes of the other word, the inner loop computes those of the next longer prefix |
| EditDistance.DistIsLeastScript | scripts/core/glossary_manager.py:1572-1584 | the distance is the length of a shortest sequence of single-character insertions, deletions and replacements |
| EditDistance.Symmetric | scripts/core/glossary_manager.py:1573 | the distance is symmetric, so swapping the arguments is sound |
| EditDistance.Bounds | scripts/core/glossary_manager.py:1572-1584 | it lies between the difference of the lengths and the longer length |
| EditDistance.ZeroIffEqual | scripts/core/glossary_manager.py:1572-1584 | it is zero exactly for equal words |
| EditDistance.Triangle | scripts/core/glossary_manager.py:1572-1584 | it obeys the triangle inequality |
| TermMatching.IsSimilarWord | scripts/core/glossary_manager.py:1566-1570 | similar means both words have three letters or more and the edit distance is within a quarter of the first word's length, at least one |
| TermMatching.CheckMultiWord | scripts/core/glossary_manager.py:1544-1559 | the nested loops count each source token once that some text token equals or resembles, and give a confidence iff more than half are found |
| TermMatching.FuzzyRange | scripts/core/glossary_manager.py:1527-1559 | every fuzzy confidence lies in [0.3, 0.6] |
| TermMatching.SingleWordScore | scripts/core/glossary_manager.py:1536-1542 | one word scores if and only if it is near the text, and its score falls evenly with the distance, from 0.6 to 0.3 at the greatest one allowed |
| TermMatching.TokenFoundIff | scripts/core/glossary_manager.py:1548-1554 | a token is found when it is among the text's tokens, or when it and one of those have three letters or more and are near to each other |
| TermMatching.MultiWordScore | scripts/core/glossary_manager.py:1544-1559 | several words score if and only if more than half of them are found: 0.3 and that share of another 0.3 |
| TermMatching.FuzzyIff | scripts/core/glossary_manager.py:1527-1534 | fuzzy matching succeeds exactly outside strict mode, by distance for one token and by the share of found tokens else |
| TermMatching.TierConfidence | scripts/core/glossary_manager.py:1417-1459 | fuzzy matches are exactly those of confidence at most 0.6, all other tiers have at least 0.85, and the partial tier is never reached |
| TermMatching.MatchEntry | scripts/core/glossary_manager.py:1418-1457 | the tiers are tried in order, the first three ending the search, and the last two both collected |
| TermMatching.MatchesIff | scripts/core/glossary_manager.py:1418-1457 | exactly with which kinds and confidences an entry matches: the first of the exact, phonetic and variant tiers that applies, else an abbreviation and a fuzzy match |
| TermMatching.MatchesInOrder | scripts/core/glossary_manager.py:1417-1457 | the matches come in the order of the entries |
| TermMatching.SmartTermMatching | scripts/core/glossary_manager.py:1405-1459 | the matches of all entries are collected and deduplicated |
| TermMatching.DeduplicateMatches | scripts/core/glossary_manager.py:1594-1615 | the two loops over insertion-ordered dictionaries keep the best per id and then the best per term |
| TermMatching.KeepBestIsBest | scripts/core/glossary_manager.py:1596-1614 | one loop keeps exactly one match per key, each from the input, and no input ranks above the one kept for its key |
| TermMatching.KeepBestIsWinners | scripts/core/glossary_manager.py:1596-1614 | one loop keeps exactly the winners: the matches that no match with the same key outranks and none before equals |
| TermMatching.KeepBestOrder | scripts/core/glossary_manager.py:1595-1615 | what is kept stands in the order in which its keys first occurred |
| TermMatching.KeptIff | scripts/core/glossary_manager.py:1594-1615 | for any ids and in terms of the fields alone, exactly what is kept: the first most confident match of each id, and of these, for each term, the one of the highest priority, then of the highest confidence, and between equals the one whose id occurred first |
| TermMatching.DeduplicationIsMaximal | scripts/core/glossary_manager.py:1594-1615 | when an id fixes term and priority, exactly one match is kept for each normalized term, and no input match of the term has a higher priority, or the same and more confidence |
| TermMatching.TermSurvivesIff | scripts/core/glossary_manager.py:1594-1615 | for any ids, a normalized term is in the result if and only if some match with it is the first of the most confident ones with its id |
| TermMatching.SharedIdLosesATerm | scripts/core/glossary_manager.py:1597-1600 | when all matches share an id, at most one survives, so of two different terms at least one is lost |
| TermMatching.DeduplicationIsIdempotent | scripts/core/glossary_manager.py:1594-1615 | deduplicating twice is deduplicating once, for every input |
| TermMatching.EntryIdsDetermine | scripts/core/glossary_manager.py:1461-1471 | distinct entry ids fix term and priority of every match |
| TermMatching.AbbreviationBeatsFuzzy | scripts/core/glossary_manager.py:1442-1459 | an entry that matches by abbreviation and fuzzily never survives as the fuzzy match |
| GlossaryMerge.ChosenByStrategy | scripts/core/glossary_manager.py:1172-1188 | the choice is, in a conflict kept for the target, the entry of the target with the least id; in a conflict kept last, of the source entries whose glossary was selected last, the one with the greatest id; else, of those whose glossary was selected first, the one with the least id |
| GlossaryMerge.HandledIff | scripts/core/glossary_manager.py:1159-1180 | a term is merged if and only if it is not empty, has a source entry, and, when conflicts are skipped, all its entries mean the same |
| GlossaryMerge.SourceTextIs | scripts/core/glossary_health_service.py:13-24 | the source text is that of the metadata, else the translation into the source language, else the English one, else the first that is not empty; it is empty only when all of these are |
| GlossaryMerge.SameMeaningIff | scripts/core/glossary_health_service.py:31-40 | entries mean the same when they agree in all but the order of their translations and the bookkeeping keys |
| MergeLaws.OutsideTargetUnchanged | scripts/core/glossary_manager.py:1202-1219 | no entry outside the target changes |
| MergeLaws.NoConflictNoChange | scripts/core/glossary_manager.py:1180-1209 | a group without conflict never changes what an entry of the target means |
| MergeLaws.HandledTermArrives | scripts/core/glossary_manager.py:1159-1219 | every term that is not skipped ends up in the target with the content its strategy selects |
| MergeLaws.NothingToCreate | scripts/core/glossary_manager.py:1172-1219 | after a merge every handled term is in the target, so a second run creates nothing |
| MergeLaws.MergeIsIdempotent | scripts/core/glossary_manager.py:1093-1237 | running a merge twice adds no entry and changes no meaning the second time, under all strategies, whether or not the target is a source |
| MergeLaws.PreviewSurplus | scripts/core/glossary_manager.py:1034-1062 | each count of the preview is that of the merge plus the terms concerned that have no source entry |
| MergeLaws.PreviewIsExactIff | scripts/core/glossary_manager.py:1034-1062 | each count agrees exactly when every term concerned has a source entry |
| MergeLaws.PreviewIsExact | scripts/core/glossary_manager.py:1034-1090 | conflicts, duplicates and planned terms are those of the merge when the target is new or itself a source |
| MergeLaws.PreviewPlansATargetOnlyTerm | scripts/core/glossary_manager.py:1034-1062 | one entry in a target that is no source: the preview plans a term, the merge writes none |
| MergeLaws.DuplicateIff | scripts/core/glossary_manager.py:1166-1170 | a term counts as duplicate if and only if it has two entries at least and all of them mean the same |
| MergeStore.Unique | scripts/core/glossary_manager.py:942 | the selected ids, each once |
| MergeStore.UniqueInOrder | scripts/core/glossary_manager.py:942 | they keep the order in which they were first selected, which is their priority |
| MergeStore.ProblemIff | scripts/core/glossary_manager.py:942-980 | exactly when preparing a merge fails for each of its reasons: fewer than two glossaries, an unknown one, different games, an empty name, a name in use; each presupposes that those before it do not apply |
| MergeStore.RefusalIff | scripts/core/glossary_manager.py:1093-1125 | an executed merge refuses, before these, unknown strategies and keeping the target of a new glossary |
| MergeStore.GroupEntries | scripts/core/glossary_manager.py:992-1003 | the loop over the sorted entries gives each non-empty term exactly the entries of the selected glossaries and the target that have it, by the place of their glossary in the selection and then by id, and counts the entries without a term |
| MergeStore.DecideIsSpecified | scripts/core/glossary_manager.py:1160-1188 | the branches on the sorted list choose what is specified on the set: the first or last source entry, or the first entry of the target |
| MergeStore.PreviewGroups | scripts/core/glossary_manager.py:1034-1062 | the preview's loop counts conflicts, duplicates and planned terms over all groups |
| MergeStore.GlossaryStore.TargetId | scripts/core/glossary_manager.py:1125-1144 | the id of an existing target, or one that no glossary and no entry uses |
| MergeStore.GlossaryStore.AddGlossary | scripts/core/glossary_manager.py:1125-1144 | a new target has the stripped name and the game of the first selected glossary |
| MergeStore.GlossaryStore.PreviewMerge | scripts/core/glossary_manager.py:1016-1091 | the preview refuses exactly for the problems checked, in their order, and otherwise returns its counts; it changes nothing |
| MergeStore.GlossaryStore.MergeGlossaries | scripts/core/glossary_manager.py:1093-1237 | the merge refuses, leaving all as it was, exactly for the problems checked; otherwise the entry table changes as specified and the counts are right |
| MergeStore.GlossaryStore.MergeGroups | scripts/core/glossary_manager.py:1154-1219 | deciding group by group on the table as it changes executes the merge specified on the original table; as many rows are added as are counted as created, and every new or changed row carries the time and, as its lineage, the rows with its term in their order |
| MergeStore.GlossaryStore.MergeGroup | scripts/core/glossary_manager.py:1159-1219 | one group writes or creates its target entry, with the group as its lineage, and leaves all others alone |
| Checkpoint.CheckpointManager.constructor | scripts/core/checkpoint_manager.py:19-51 | loading gives the saved set and metadata, no progress for a missing or unreadable file |
| Checkpoint.CheckpointManager.AddCompleted | scripts/core/checkpoint_manager.py:107-117 | the first critical section of a mark adds the file in memory and updates the metadata: last file, time, count, the caller's values over these, and the last ten files |
| Checkpoint.MarkedKeys | scripts/core/checkpoint_manager.py:107-117 | what a mark makes of each key but one: the caller's value, else the file, the time or the count, else what it was |
| Checkpoint.MarkedRecent | scripts/core/checkpoint_manager.py:107-117 | the remaining key holds the last ten, or all of up to ten, of the files marked before, as the caller's metadata may replace them, and this one |
| Checkpoint.CheckpointManager.SaveCheckpoint | scripts/core/checkpoint_manager.py:77-95 | the second one writes the whole set with a fresh count, or fails and leaves the file alone |
| Checkpoint.ImageKeys | scripts/core/checkpoint_manager.py:77-95 | what a save writes for each key: a fresh count, and the rest as it was |
| Checkpoint.CheckpointManager.MarkFileCompleted | scripts/core/checkpoint_manager.py:102-129 | an undisturbed mark is these two steps |
| Checkpoint.CheckpointManager.ClearCheckpoint | scripts/core/checkpoint_manager.py:147-155 | clearing removes the file and nothing else |
| Checkpoint.CheckpointManager.FilterPendingFiles | scripts/core/checkpoint_manager.py:131-145 | the files to do are those not completed, in order |
| Checkpoint.StepKeeps | scripts/core/checkpoint_manager.py:77-129 | every step that does not meet an unreadable file keeps the protocol invariant, and only a clear shrinks the saved set |
| Checkpoint.SavedIsTrustworthy | scripts/core/checkpoint_manager.py:77-129 | in every run, with any interleaving, failed writes, crashes and clears, what is saved is in memory, the saved count is right, and every file whose mark returned after a successful write is saved |
| Checkpoint.LaterWriteSavesIt | scripts/core/checkpoint_manager.py:77-129 | any later successful write saves an added file, also when its own write failed, and it stays saved through crashes until a clear |
| Checkpoint.UnreadableKeepsIff | scripts/core/checkpoint_manager.py:44-51 | loading an unreadable file keeps the invariant exactly when it held no files |
| Checkpoint.UnreadableKeepsReadded | scripts/core/checkpoint_manager.py:44-51 | in every run, after a reload that could not read the file, the next successful write keeps a file if and only if some mark added it again since |
| Checkpoint.UnreadableLosesAFile | scripts/core/checkpoint_manager.py:44-51 | the smallest instance: a saved file whose mark had returned is gone after the next write |
| Checkpoint.PendingIsTheRest | scripts/core/checkpoint_manager.py:131-145 | the pending files are exactly the unfinished ones, each as often as it occurs |
| Checkpoint.PendingInOrder | scripts/core/checkpoint_manager.py:131-145 | filtering distributes over concatenation, so the order is kept |
| Checkpoint.ReloadResumes | scripts/core/checkpoint_manager.py:30-51 | after a reload the files to do are exactly those not saved; no file is repeated whose mark returned after a successful write |
| ReviewBatches.BuildCases | scripts/core/glossary_health_reviewer.py:118-150 | the nested loops make one case for each complete finding not seen before |
| ReviewBatches.CasesCover | scripts/core/glossary_health_reviewer.py:118-150 | case ids are distinct, and every complete finding has a case |
| ReviewBatches.CaseIsFirstFinding | scripts/core/glossary_health_reviewer.py:118-150 | each case has the code, the entry and the detail of a complete finding, the first one of its id |
| ReviewBatches.CasesInOrder | scripts/core/glossary_health_reviewer.py:118-150 | cases of earlier issues come first |
| ReviewBatches.CodesCollideIff | scripts/core/glossary_health_reviewer.py:108-110 | different issue codes can give equal case ids if and only if one of them, with the separator, begins the other |
| ReviewBatches.CaseIdIsInjective | scripts/core/glossary_health_reviewer.py:108-110 | for codes none of which begins another in this way, a case id determines the finding |
| ReviewBatches.ColonMergesFindings | scripts/core/glossary_health_reviewer.py:123-133 | whenever one code begins another in this way, some report with two different findings gives a single case |
| ReviewBatches.FindingsKeptApartIff | scripts/core/glossary_health_reviewer.py:118-150 | for any set of codes: in all reports with these codes every finding has a case of its own if and only if no code begins another in this way |
| ReviewBatches.HealthReportsKeepFindings | scripts/core/glossary_health_service.py:47-54 | the six codes of the health check meet the condition, so its findings are never merged |
| ReviewBatches.EstimateTokens | scripts/core/glossary_health_reviewer.py:101-106 | the estimate is at least one and at least a quarter of the characters, and exact: it exceeds the CJK characters by the other ones' quarter, rounded up |
| ReviewBatches.CountCjkIs | scripts/core/glossary_health_reviewer.py:101-106 | what is counted is the positions of CJK characters |
| ReviewBatches.BuildBatches | scripts/core/glossary_health_reviewer.py:152-174 | the loop computes the greedy batches |
| ReviewBatches.GreedyPartitions | scripts/core/glossary_health_reviewer.py:152-174 | the batches are an order-preserving partition into non-empty batches of at most 12 cases within the token budget, single cases excepted |
| ReviewBatches.GreedyIsOptimal | scripts/core/glossary_health_reviewer.py:152-174 | no such partition has fewer batches |
| ReviewBatches.BatchTextIsBounded | scripts/core/glossary_health_reviewer.py:152-174 | with this estimate as cost, a batch of two cases or more has at most 8800 characters |
| ReviewBatches.AlignAdvice | scripts/core/glossary_health_reviewer.py:269-295 | advice is accepted exactly when it answers each case once, nothing else, with acceptable suggestions, and is then put into the order of the batch |
| ReviewBatches.AnswersIff | scripts/core/glossary_health_reviewer.py:269-295 | advice answers a batch if and only if there is as much of it as there are cases and each case has a suggestion with its id, entry and code that passes the checks |
| ReviewBatches.ReviewBatch | scripts/core/glossary_health_reviewer.py:297-314 | a batch is tried at most twice, the second time only after a structural error |
| ReviewBatches.OutcomeIff | scripts/core/glossary_health_reviewer.py:297-314 | how the review of a batch ends: with a model error exactly when a request fails before a good answer, with a structural error exactly when both answers are rejected, and else with the advice of the first good answer |
| ReviewBatches.ReviewIff | scripts/core/glossary_health_reviewer.py:316-344 | a review fails exactly as its first failing batch does, and else has the advice of all batches in order |
| ReviewBatches.ReviewSequentially | scripts/core/glossary_health_reviewer.py:316-344 | one after the other: the first failure, or all advice in batch order |
| ReviewBatches.ReviewConcurrently | scripts/core/glossary_health_reviewer.py:316-344 | in any completion order: the same |
| ReviewBatches.ReviewReport | scripts/core/glossary_health_reviewer.py:316-344 | the result does not depend on the concurrency limit |
| ReviewBatches.SuccessfulReviewIsAligned | scripts/core/glossary_health_reviewer.py:269-344 | a successful review returns one advice for each case, in the order of the cases, with its id, entry and code, that passes the checks |
| LocText.UnescapeEscape | scripts/core/loc_parser.py:16-23 | unescaping undoes escaping for every string, backslashes included |
| LocText.EscapeUnescape | scripts/core/loc_parser.py:16-23 | escaping undoes unescaping exactly for strings whose quotes are all escaped |
| LocText.EntryMatches | scripts/core/loc_parser.py:13 | the entry pattern reads a head, a quoted value with any quotes in it, and a quote-free tail as such |
| LocText.HeadMatches | scripts/core/loc_parser.py:13 | the pattern's head: a key without colons and white space, a colon and perhaps a version in digits, with any white space around them |
| LocText.Characters | scripts/core/loc_parser.py:13 | the characters that end a line and those that are white space, one by one |
| LocFile.SplitJoin | scripts/core/loc_parser.py:55 | splitting into lines undoes joining rows without line breaks |
| LocFile.EmitLocFile | scripts/core/loc_parser.py:123-134 | the printed file is the header and one row for each entry |
| LocFile.ParseLocFile | scripts/core/loc_parser.py:55-78 | the loop reads the entries line by line and leaves out the filtered ones |
| LocFile.LineReads | scripts/core/loc_parser.py:55-78 | what is read from a line with a head and a quoted value: nothing if the value is empty, repeats the key, or is a name between two dollar signs; else the unescaped value under the key, with the version if there is one |
| LocFile.PureVariableIff | scripts/core/loc_parser.py:73-75 | the dollar test means one name, without a dollar sign, between two of them |
| LocFile.ParseEmitted | scripts/core/loc_parser.py:55-134 | parsing what was printed returns the entries in order under `key:0` with unescaped values, minus empty, pure-variable and key-equal ones, for all keys without colons and white space and all values without line breaks |
| LocFile.EmitIsStable | scripts/core/loc_parser.py:123-134 | values that are already escaped are printed as they are |
| LinePatch.Patch | scripts/core/file_builder.py:19-77 | the body of the patching loop computes the specified splice, or keeps the line in the three warning cases |
| LinePatch.KeptIff | scripts/core/file_builder.py:30-69 | a line is kept if and only if it does not contain the key part, no quote follows that, or no second quote follows before the end of the search |
| LinePatch.FindSearchEnd | scripts/core/file_builder.py:44-65 | the scanner's loop finds the first comment sign outside quotes |
| LinePatch.PatchIs | scripts/core/file_builder.py:19-77 | what a patch of a well-formed line does for any old value: the text followed by what starts with the last quote before a bare comment sign, or by nothing |
| LinePatch.PatchesExactlyIff | scripts/core/file_builder.py:19-77 | patching a well-formed line replaces exactly the value, if and only if the scanner sees no bare comment sign in the old value |
| LinePatch.PutGet | scripts/core/file_builder.py:19-77 | for any one-line old value the parser reads the text with the left-over piece, and so the text itself if and only if the old value shows no bare comment sign and the text has no line break |
| LinePatch.GetPut | scripts/core/file_builder.py:19-77 | writing back the value read gives the same line, if and only if its quotes are escaped and no comment sign is bare |
| LinePatch.PutPut | scripts/core/file_builder.py:19-77 | for any old value, the last of two patches wins if and only if the first one leaves over the same piece, which on an old value without a bare comment sign means that the first text, escaped, shows none |
| LinePatch.PlainTextIsHashSafe | scripts/core/file_builder.py:51-63 | texts without a backslash directly before a quote are safe, also those ending in a backslash |
| LinePatch.BackslashQuoteHashIsUnsafe | scripts/core/file_builder.py:51-63 | a backslash, a quote and a comment sign are not |
| LinePatch.SecondPatchLeavesAPiece | scripts/core/file_builder.py:19-77 | on a concrete line: the first patch writes such a text correctly, the second leaves its quote and comment sign behind the new text |
| LinePatch.AWellFormedLine | scripts/core/file_builder.py:19-77 | that line is one the laws are about |
| FilePatch.NormalizeHeaders | scripts/core/file_builder.py:79-106 | finding the headers, popping all but the first from the back, and replacing it or inserting one on top give the list with one header that filtering gives |
| FilePatch.PopAll | scripts/core/file_builder.py:94-96 | popping the collected indices in reverse is filtering, and the index of the first header stays valid |
| FilePatch.HeaderForm | scripts/core/file_builder.py:82 | a line that matches the header pattern is white space, `l_`, a name, a colon and any rest |
| FilePatch.IsAHeader | scripts/core/file_builder.py:82 | every such line matches |
| FilePatch.LanguagesAreHeaders | scripts/app_settings.py:255-265 | the header lines of all configured languages match |
| FilePatch.NormalizedShape | scripts/core/file_builder.py:236-260 | all lines that are no headers survive in order around one header line, which stands where the first header stood or on top |
| FilePatch.ExactlyOneHeader | scripts/core/file_builder.py:79-106 | the result has just one line more than the input has non-headers, and no other line than the target's matches the header pattern |
| FilePatch.NormalizeTwice | scripts/core/file_builder.py:79-106 | normalizing twice is normalizing once, if and only if the target's header line matches the pattern |
| FilePatch.HeaderPilesUp | scripts/core/file_builder.py:98-104 | a target line that does not match the pattern is put on top once more by every further normalization |
| FilePatch.EnglishIsNoHeader | scripts/core/file_builder.py:98-104 | the language key "english" is such a target |
| FilePatch.PatchKeepsHeader | scripts/core/file_builder.py:72-77 | patching a line does not turn it into a header or back |
| FilePatch.PatchFileContent | scripts/core/file_builder.py:4-106 | the patched file is the patched lines with normalized headers |
| FilePatch.UnmappedLinesSurvive | scripts/core/file_builder.py:21-77 | lines that are not mapped are never altered |
| FilePatch.MappedLineIsItsPatch | scripts/core/file_builder.py:21-77 | with distinct line numbers every mapped line is the splice of its own translation, or unchanged |
| FilePatch.LastPatchWins | scripts/core/file_builder.py:21-77 | when several entries name one line, the last one whose patch succeeds wins, and its patch is made from the original line |
| FilePatch.PatchedFileShape | scripts/core/file_builder.py:4-106 | one header line, and around it in order the patched form of every line of the original that is no header |
| DeepMerge.DeepMerge | scripts/core/reasoning_policy.py:57-73 | the loop with recursion computes the specified merge and conflict list |
| DeepMerge.MergeDenotes | scripts/core/reasoning_policy.py:63-72 | the merge of ordered objects means the key-by-key merge of maps, nested where both sides are objects |
| DeepMerge.MergeKeepsOrder | scripts/core/reasoning_policy.py:62-72 | the merged object has the keys of the base in their order and then the new ones of the override in theirs |
| DeepMerge.ScalarsEqualIff | scripts/core/reasoning_policy.py:70 | when scalars are equal: a truth value also equals the number one or zero |
| DeepMerge.ObjectsEqualIff | scripts/core/reasoning_policy.py:70 | objects are equal when they have the same keys with equal values, in whatever order |
| DeepMerge.ConflictsAreRendered | scripts/core/reasoning_policy.py:65-71 | the reported strings are the dotted renderings of key paths, in order |
| DeepMerge.RenderIsDotted | scripts/core/reasoning_policy.py:65-71 | a rendering is the keys with dots between them, below the prefix; empty keys at the front vanish |
| DeepMerge.ConflictsAreDotted | scripts/core/reasoning_policy.py:57-73 | at the top, each reported string is the dotted form of the conflicting path at its place |
| DeepMerge.ReportsExactly | scripts/core/reasoning_policy.py:66-71 | the reported paths are exactly those at which both sides hold values that differ and are not both objects |
| DeepMerge.EmptyIsIdentity | scripts/core/reasoning_policy.py:57-73 | the empty object is neutral on both sides and reports nothing |
| DeepMerge.ReapplyIsSilent | scripts/core/reasoning_policy.py:57-73 | applying the same override again changes nothing and reports nothing |
| DeepMerge.SilentIffExtends | scripts/core/reasoning_policy.py:57-73 | nothing is reported if and only if the result extends the base |
| Chunks.SliceSpan | scripts/core/neologism_manager.py:368 | a slice with any upper bound, also a negative or too large one, is a run inside the list |
| Chunks.ChunkTexts | scripts/core/neologism_manager.py:360-371 | for any sizes, the loop with its early break gives the joined runs of the specified spans, or the exception of a zero step |
| Chunks.ChunksOverlapExactly | scripts/core/neologism_manager.py:365-371 | for 0 <= overlap < size: no chunk exceeds the size, all but the last are full, neighbours share exactly the overlap, and each holds more than that |
| Chunks.ChunksRebuild | scripts/core/neologism_manager.py:365-371 | dropping from each chunk the part shared with its predecessor rebuilds the list |
| Chunks.EveryWindowInOneChunk | scripts/core/neologism_manager.py:365-371 | any overlap + 1 consecutive texts lie together in some chunk, in spite of the early break |
| Chunks.LongerWindowCanBeSplit | scripts/core/neologism_manager.py:365-371 | overlap + 2 consecutive texts need not |
| Chunks.AllTextsChunkedIff | scripts/core/neologism_manager.py:360-371 | for any sizes, every text reaches a chunk if and only if they all fit in one or 0 <= overlap < size |
| Chunks.SettingsThatLoseTexts | scripts/core/neologism_manager.py:360-371 | three texts with sizes that raise, that give no chunk, and that leave a gap |
| I18nTree.Collected.Traverse | scripts/translate_i18n.py:23-31 | the traversal appends to the shared list the strings of the tree with their paths, in order |
| I18nTree.PathsAreDistinct | scripts/translate_i18n.py:23-31 | all collected paths are different |
| I18nTree.CollectMappedIff | scripts/translate_i18n.py:33-42 | collecting from the replaced tree gives the same paths in the same order with mapped texts, if and only if no mapped path is that of a node that is not a string |
| I18nTree.LeafKeysAvoidInner | scripts/translate_i18n.py:33-36 | mappings over leaf paths meet that condition |
| I18nTree.ReplaceUndoesCollect | scripts/translate_i18n.py:23-42 | putting the collected strings back gives the tree back |
| I18nSessions.Accepted | scripts/translate_i18n.py:56-80 | a batch succeeds iff one of the first four attempts is a list of the right length, and the result is the first such list |
| I18nSessions.TranslateBatch | scripts/translate_i18n.py:44-80 | the retry loop returns the list of the first attempt with the right length, or the error exactly when no attempt has it |
| I18nSessions.SplitDone | scripts/translate_i18n.py:141-148 | the loop keeps the existing texts that differ from English and lists the rest for translation |
| I18nSessions.TodoInOrder | scripts/translate_i18n.py:141-148 | what is left to translate stays in the order of the tree |
| I18nSessions.AssignAll | scripts/translate_i18n.py:160-161 | the zip loop extends the mapping by one batch |
| I18nSessions.BatchIsZipped | scripts/translate_i18n.py:160-161 | every path of a batch gets the answer at its own position |
| I18nSessions.SavedIsAnswered | scripts/translate_i18n.py:152-166 | from the save after its batch on, every string is saved with the text at its position in the first good answer to that batch |
| I18nSessions.FirstBatchIs | scripts/translate_i18n.py:153-155 | a batch is the next hundred strings, or what is left |
| I18nSessions.TranslateNext | scripts/translate_i18n.py:154-161 | one batch gives the extended mapping, or none when the model call fails |
| I18nSessions.TranslateBatches | scripts/translate_i18n.py:152-169 | the batch loop saves after every batch the English tree with the mapping so far, and stops at the first failing batch |
| I18nSessions.TranslateLanguage | scripts/translate_i18n.py:119-173 | one session saves exactly the trees of its successive mappings, and ends well iff no batch fails |
| I18nSessions.SavesHaveEnglishShape | scripts/translate_i18n.py:160-166 | every saved tree has the English paths in order with the mapped texts |
| I18nSessions.SaveKeepsTranslations | scripts/translate_i18n.py:125-166 | resuming from any save finds every text that differed from English before |
| I18nSessions.SessionKeepsIff | scripts/translate_i18n.py:125-166 | a session keeps all translations if and only if it does not stop inside a write, or there were none |
| I18nSessions.SomeSessionIsTorn | scripts/translate_i18n.py:163-166 | whenever strings are left to translate, some session stops inside its first write, and nothing is found after it |
| I18nSessions.TornSessionLosesAText | scripts/translate_i18n.py:163-166 | an instance: one of two strings is translated before such a session, none after it |
| I18nSessions.SessionsKeepTranslations | scripts/translate_i18n.py:125-166 | over any number of sessions that stop between writes, no translation is lost or changed |
| I18nSessions.FinishedSessionLeavesEchoes | scripts/translate_i18n.py:141-166 | after a session without failing batches every path is mapped, and the next session has to translate just the strings whose translation equals the English text |
| PlanRegistry.AgentRegistry.constructor | scripts/core/agent_service.py:52-73 | the registry starts like a restart: from the saved payload, or empty when the file is missing or cannot be read |
| PlanRegistry.AgentRegistry.CreatePlan | scripts/core/agent_service.py:84-113 | a new plan is ready or awaiting approval by its kind and expires 30 minutes after its creation; the event is recorded, other plans and jobs stay, and a failing save leaves the change in memory only |
| PlanRegistry.AgentRegistry.ConsumePlan | scripts/core/agent_service.py:115-139 | the four refusals in their order (unknown, already consumed, expired, not approved) change nothing; otherwise status and stamp are set together, the event is recorded and saved |
| PlanRegistry.CheckIff | scripts/core/agent_service.py:115-139 | exactly when each refusal is given, and when none |
| PlanRegistry.AgentRegistry.ReleasePlan | scripts/core/agent_service.py:141-150 | stamp and status go back to unconsumed, the expiry stays, nothing is recorded; an unknown plan is ignored without a save |
| PlanRegistry.AgentRegistry.AddJob | scripts/core/agent_service.py:152-179 | the job is stored without a snapshot, and the event recorded and saved |
| PlanRegistry.AgentRegistry.SetSnapshot | scripts/core/agent_service.py:191-198 | only snapshot and time of a known job change, nothing is recorded; an unknown job is ignored |
| PlanRegistry.AgentRegistry.AddEvent | scripts/core/agent_service.py:200-203 | only the audit changes, by the one event, and is saved |
| PlanRegistry.StatusAgrees | scripts/core/agent_service.py:84-150 | in every reachable state, in memory and in the file, a plan is consumed iff it carries a stamp, else ready or awaiting approval by its kind, its expiry is 30 minutes after its creation, and the audit has at most 500 entries |
| PlanRegistry.PlansComeFromCreations | scripts/core/agent_service.py:84-150 | every plan known in memory or in the file carries the mode, time and project of its creation |
| PlanRegistry.ConsumedInTimeWithApproval | scripts/core/agent_service.py:115-139 | in every run with failing saves and restarts, a consumption succeeds only within 30 minutes of the plan's creation, whatever was released, and only with approval unless the plan is a dry run |
| PlanRegistry.OneConsumptionPerRelease | scripts/core/agent_service.py:115-150 | in every such run two successful consumptions of a plan are separated by a release of it |
| PlanRegistry.RegistryIsHistory | scripts/core/agent_service.py:84-150 | without faults a plan is known iff it was created, and stamped iff some successful consumption was not followed by a release |
| PlanRegistry.ConsumesIff | scripts/core/agent_service.py:115-139 | without faults a consumption succeeds if and only if the plan was created, is not taken, not expired, and a dry run or approved |
| PlanRegistry.AuditIsLastEntries | scripts/core/agent_service.py:205-214 | in every run the audit is the last 500 entries of the untrimmed trail, in memory and in the file |
| PlanRegistry.LastEntriesAre | scripts/core/agent_service.py:205-214 | trimming keeps all of up to 500 entries, and of more the newest 500 |
| PlanRegistry.AuditIsLastEvents | scripts/core/agent_service.py:205-214 | without faults it is the last 500 events of the whole run |
| PlanRegistry.RestartRestores | scripts/core/agent_service.py:60-82 | what an operation saved survives an immediate restart |

## Left out

Contracts that hold under a condition the code does not check:

- StreamRuns.EveryRunDelivers: is about files with different names; `StreamRuns.DeliveredIffClashFree` and `StreamNames.AlwaysDeliversIff` are exact for any names. The warnings of a file are compared as a multiset, their order follows the completion order.
- ParallelScheduler.SchedulersAgree: needs a streaming run without a clash of names, as other runs have not delivered every file, a worker that never fails, and one that does not look at the batch number, which the two schedulers assign differently.
- TermMatching.DeduplicationIsMaximal: needs ids that fix term and priority, which `TermMatching.EntryIdsDetermine` derives from distinct entry ids; `TermMatching.TermSurvivesIff` says for any ids which terms survive.
- Checkpoint.SavedIsTrustworthy: leaves out reloads that find an unreadable file, for which `Checkpoint.UnreadableKeepsReadded` says exactly what is kept.
- I18nSessions.SessionsKeepTranslations: leaves out sessions that stop inside a write, for which `I18nSessions.SessionKeepsIff` is exact; the English tree stays the same between the sessions.
- LinePatch.PatchesExactlyIff: is about lines made of a key with its colon and version, a quoted value and a tail without quotes; other lines are spliced as the code does, but without a law.
- LinePatch.PutGet: leaves out old values that hold both a bare comment sign and a line break, which the parser never reads as one value.

The program's parts that are not modelled:

* Provider handlers, prompts, rate limits, delays, logging and messages; SQL, the file system, threads and executors. Calls into these are arbitrary functions or nondeterministic choices, and database rows are maps from ids to records.
* Scheduler: a file task is identified by its position in the stream; the stream is finite and its consumer reads to the end; the future of a batch returns the batch's own task. Of the executor the model keeps that batches are started in the order of submission, as many at a time as there are workers; their durations are arbitrary. Progress callbacks and the text of the exception that halts the all-at-once run are not modelled.
* Term matching: case mapping, phonetics, the abbreviation search, the tokenizer and term normalization are parameters; confidences are reals, not floating-point numbers. Sorting the terms for the prompt is not modelled.
* Glossary merge: descriptions, sources, timestamps and other bookkeeping metadata of glossaries carry no meaning; entry ids are numbers in their order; the list of conflicts and its cut at 50 are not modelled.
* Checkpoint: the comparison of the saved configuration, which only logs; the file name.
* Health review: prompts and the decoding of model output; the model is an arbitrary function from batch and attempt to an answer. How a case is written as text, and which characters count as CJK, are parameters.
* Localization files: the JSON branch of the parser, punctuation cleaning, and the names of output files. `\w` in the header pattern is ASCII only. Line numbers of the key map must exist, the program raises otherwise.
* JSON values: not-a-number, which differs from itself, does not occur. Presets and the validation of custom parameters (`scripts/core/reasoning_policy.py:40-54`, `76-154`) would only add easy members.
* Term mining: the candidate records and their approval, and the locks around them.
* Translation of the interface: command line, key loading, and the removal of code fences from answers.
* Plan registry: the copy without secrets of arguments and fields, whose results are parameters; job queries; the version number. Identifiers are fresh, as they are random. Clock readings are arbitrary integers, no theorem needs them to grow.
* Archives, projects, deployment, migrations, web routes and deprecated code.
