# A verified model of the content-based news recommender

The recommender keeps click counters per category and per user, turns them into smoothed interests and news trends, and
answers a request with a list of categories that is drawn by a weighted lottery. Its events go through a periodic log
that survives crashes; a framework around it stores documents as binary records, ranks candidates and caches results per
user. This project models those parts in Dafny, in the form the C++ has them (classes with fields, loops, in-place
arrays), proves every method against a specification, and proves what the specifications are for.

`dafny verify dfyconfig.toml` checks everything.

| file | models |
|---|---|
| `WeightedDraw.dfy`, `Lottery.dfy`, `Marshaler.dfy` | `src/core/marshaler.cpp`: one draw, the lottery as an abstract machine, and the code with its ring buffer and flag arrays |
| `Decimal.dfy`, `LogFiles.dfy`, `LogRuns.dfy`, `LogReplay.dfy`, `PeriodicLog.dfy` | `src/core/periodic_log.cpp`: files and crashes during open, numbering over whole runs, replay of a session, and the object |
| `DistTable.dfy` | `src/core/dist_table.cpp`: tagged records, windowed replay and elimination |
| `Counters.dfy`, `Rebuild.dfy`, `UserInterests.dfy` | `src/core/user_interests.cpp`: the counters as values with their laws, what a restart makes of them, and the object over its log |
| `NewsTrends.dfy` | `src/core/news_trends.cpp`: training, table file, the two swapped buffers |
| `Prediction.dfy`, `PredictionLaws.dfy`, `ContentBased.dfy`, `Recommendation.dfy` | `src/core/content_based.cpp`: the predicted list and its uniqueness, what mixing and reweighting mean, the code that mixes, reweights, sorts and deals, and the whole request |
| `DocumentLayout.dfy`, `DocumentRecord.dfy`, `DocumentWriter.dfy`, `DocumentReader.dfy` | the document record of `src/framework/CF_framework_center.h`: its bytes, a walk that reads them back, the writer and the logging reader |
| `Ranking.dfy` | the partition and scoring loops of `process_query` in the same header |
| `ResultCache.dfy` | `src/framework/CF_framework_cache.h` |
| `Options.dfy`, `Reals.dfy`, `Sums.dfy` | shared values, arithmetic and sums |

Weights and counts are exact reals; a division by zero is a separate value `NotFinite`. The random draw is any value in
0..99, the clock is a parameter. A crash may lose everything appended since the last flush and may leave one torn entry.

## What turned out not to hold

- **The lottery does not always end.** It fills every request, for all draws, if and only if more than N weights are
  positive (`LotteryTerminates`); otherwise it gives each positive category out at most once more and loops for ever.
- **Sealed logs are overwritten.** The header written at a rollover is one behind the counter, so a restart after a
  rollover steps the counter back. As long as no rollover is cut off, a rollover replaces an earlier sealed log exactly
  when something was sealed before and the session has not rolled over yet (`RolloverOverwrites`, with the run in
  `SealedLogLost`); until then no windowed reader sees the newest sealed log (`RestartHidesNewest`). A rollover cut off
  between the rename and the header sends the number back to zero, and every sealed log out of every window.
- **A log without a header loses its first record.** The very first open, cut off between creating the file and
  appending the header, leaves such a log (`FreshOpenInterrupted`); a record written is read back if and only if the
  header is there (`WriteIsReplayed`). A crash in the middle of a rollover makes the next open start from the number it
  was passed (`RolloverInterrupted`).
- **A restart does not keep the counters.** `init` clears what recovery counted and counts the window below the number
  the log restarts with, which a rollover has left one behind. The tables come back as they were if and only if what the
  rebuild misses (the active log, the newest sealed log once the session has rolled, logs that left the window, a record
  without header, events grown too old) counts exactly what the session had recovered or received too late
  (`RebuildIsLive`). A click can be forgotten with nothing in the active log (`RolledClickIsForgotten`), and a click that
  was cleared away can come back (`RecoveredClickReturns`).
- **Elimination never happens as wired**, because the loop bound and the age limit are the same number
  (`NothingExpires`, `Eliminate`). If it did, a score could be divided by zero (`ScoreUndefinedAfterElimination`),
  exactly when a category's users hold nothing but swallowed decrements (`ScoreUndefinedExactly`).
- **Category 13 is not always the lightest**: it outweighs category 10 exactly when the least power exceeds 0.6 of
  category 10's (`OverriddenIsLight`, `OverriddenMayExceedDamped`).
- **A ranking score is undefined** exactly for the items past the front when all their times are zero (`Score`).

## Model

| member | source | states |
|---|---|---|
| WeightedDraw.DrawTotality | src/core/marshaler.cpp:12-44 | a draw fails exactly when every positive weight is flagged or masked; otherwise it names an open trend of positive weight |
| WeightedDraw.DrawAccuracy | src/core/marshaler.cpp:29-43 | of the hundred draws, the number that select an open trend differs from its exact share by less than one |
| WeightedDraw.DrawMonotone | src/core/marshaler.cpp:36-41 | a larger draw never selects an earlier trend |
| WeightedDraw.OneWinner | src/core/marshaler.cpp:36-41 | the slices do not overlap: at most one trend wins a draw, and it is open with positive weight |
| CategoryLottery.RunKeepsSpacing | src/core/marshaler.cpp:89-101 | over any run, for all draws, any N+1 consecutive picks stay pairwise distinct and earlier picks are kept |
| CategoryLottery.FreshEpochSucceeds | src/core/marshaler.cpp:98-100 | after the flags are cleared no draw can fail when more than N weights are positive |
| CategoryLottery.RunProgress | src/core/marshaler.cpp:89-101 | with more than N positive weights at most every other draw fails, so draws are bounded by twice the picks plus one |
| CategoryLottery.RunStalls | src/core/marshaler.cpp:89-101 | with at most N positive weights a run of any length gives each of them out at most once more |
| CategoryLottery.LotteryTerminates | src/core/marshaler.cpp:85-101 | from any state the lottery fills every request for all draws if and only if more than N weights are positive |
| CategoryLottery.EpochNeverRepeats | src/core/marshaler.cpp:93-97 | until the flags are cleared no trend is picked twice, and exactly the picks since then are added to the flags |
| CategoryLottery.RunFollows | src/core/marshaler.cpp:76-102 | told from picks and draws alone: every draw is made among the trends picked neither in the last N places nor since the last failed draw or the last P-th pick; at the start nothing is flagged |
| CategoryLottery.FirstEpoch | src/core/marshaler.cpp:85-101 | without a failed draw the first P picks of the lottery are pairwise distinct, and the flags are first cleared with the P-th |
| Marshaling.RingPush | src/core/marshaler.cpp:80-94 | writing at g modulo N keeps the ring equal to the last N picks, with zero in slots never written |
| Marshaling.MaskIsRecent | src/core/marshaler.cpp:23-28 | the trends the mask bars are exactly the last N picks, and trend 0 while fewer than N were made |
| Marshaling.FirstOverIs | src/core/marshaler.cpp:58-70 | every prefix up to the index found stays within r and the next one exceeds it |
| Marshaling.ReachIs | src/core/marshaler.cpp:58-70 | the head size and the period are the least number, from the option on, whose prefix weighs more than the limit, one past the trends counting as enough |
| Marshaling.Marshaler.CloseTrends | src/core/marshaler.cpp:14-29 | the open mass is the weight of the trends neither flagged nor masked, each subtracted once where the two overlap |
| Marshaling.Marshaler.SelectInteresting | src/core/marshaler.cpp:12-44 | returns what the abstract draw returns; -1 exactly when no positive weight is open |
| Marshaling.Marshaler.MarshalHead | src/core/marshaler.cpp:72-83 | the head is the first trends in order, none twice, and all of them are in the ring |
| Marshaling.Marshaler.MarshalDraws | src/core/marshaler.cpp:85-104 | ends for all draws, reaches the size asked for, and its picks are those of a run of the abstract lottery |
| Marshaling.Marshaler.Marshal | src/core/marshaler.cpp:46-106 | first the head: the least number of trends from TOPT on that weighs more than r1; then draws in epochs of the least number from P on that weighs more than r2; the size is the larger of T and the head, picks are spaced by N, at most two draws per pick |
| LogFiles.OpenStepKeepsLog | src/core/periodic_log.cpp:134-207 | each file operation of open leaves the recoverable records and the sealed files as they were |
| LogFiles.InterruptedKeepsLog | src/core/periodic_log.cpp:120-213 | a crash at any point of open, with any loss of unflushed data, loses no record |
| LogFiles.CrashSafeRecovery | src/core/periodic_log.cpp:120-213 | after any number of interrupted opens a completed one has the same records in the same order, flushed, and no leftover |
| LogFiles.FreshOpenInterrupted | src/core/periodic_log.cpp:141-149 | what the first open leaves at each crash point: nothing, a log without header, or the header |
| LogRuns.RestartKeepsLog | src/core/periodic_log.cpp:120-162 | open on any directory gives a live log with the records found there and the counter of its header |
| LogRuns.RolloverInterrupted | src/core/periodic_log.cpp:215-240 | the counter the next open starts from for each crash point inside rollover |
| LogRuns.ChainKeepsOrStarts | src/core/periodic_log.cpp:120-213 | a crash and any number of interrupted opens keep the log there was; without one they leave none, an empty one, or the header 0 |
| LogRuns.Numbering | src/core/periodic_log.cpp:215-240 | over every run of writes, rollovers and restarts, with crashes at any point of a rollover, of an open (the first one too) and between them: counter, header and sealed numbers are those of a ledger of numbers alone |
| LogRuns.LedgerFacts | src/core/periodic_log.cpp:215-240 | the header trails the counter by one exactly when the session has rolled over; what is sealed reaches past the header once anything was sealed, and exactly how far when no rollover was cut off |
| LogRuns.RestartCounter | src/core/periodic_log.cpp:189-191 | a restart lowers the counter by one exactly when the session had rolled over, and never below zero |
| LogRuns.RolloverOverwrites | src/core/periodic_log.cpp:219-225 | a rollover replaces an existing sealed log exactly when the counter is below the ledger's high mark: unless a rollover was cut off, when one was sealed before and this session has not rolled over |
| LogRuns.RestartHidesNewest | src/core/periodic_log.cpp:115-118 | after a restart a sealed log carries the counter's own number, outside every window, exactly if anything was sealed; after a rollover cut off before its header the counter is zero |
| LogRuns.SealedLogLost | src/core/periodic_log.cpp:215-240 | a concrete run that loses a sealed record: seal, restart, seal |
| LogReplay.WriteIsReplayed | src/core/periodic_log.cpp:189-195 | a record written is a record replayed if and only if the active file has its header |
| LogReplay.SessionReplay | src/core/periodic_log.cpp:215-252 | the session's sealed logs in order and then the active log give exactly what was written, but for the first record of a log without a header |
| LogReplay.SessionStaysIntact | src/core/periodic_log.cpp:215-252 | every entry of the active file stays readable, rollovers count the number up, and the sealed names of a session are consecutive |
| PeriodicLogs.PeriodicLog.Open | src/core/periodic_log.cpp:120-162 | reaches the specified state through the specified file operations and visits every record after the header |
| PeriodicLogs.PeriodicLog.Recovery | src/core/periodic_log.cpp:164-213 | copies the readable prefix, takes the counter from the first record, flushes before it removes the source |
| PeriodicLogs.PeriodicLog.Rollover | src/core/periodic_log.cpp:215-240 | seals under the counter, starts a file whose header is the old counter, then counts up |
| PeriodicLogs.PeriodicLog.Write | src/core/periodic_log.cpp:242-252 | appends one flushed record to the active file and changes nothing else |
| Decimal.AtoiInvertsItoa | src/core/periodic_log.cpp:146-149 | reading a printed number back gives the number |
| Decimal.ItoaDigits | src/core/periodic_log.cpp:146-149 | a number is printed in decimal digits, the highest first |
| DistTables.DecodeInvertsEncode | src/core/dist_table.cpp:290-312 | a record carries C for a click and I for an item, is never empty and is decoded to the event of the right kind |
| DistTables.DecodeNeedsTag | src/core/dist_table.cpp:150-188 | a record is decoded exactly if its tag is known and its message parses |
| DistTables.WindowIsPermutation | src/core/dist_table.cpp:191-210 | newest-first replay delivers the same events as ascending replay, each as often |
| DistTables.EndToEndReplay | src/core/dist_table.cpp:239-312 | for any interleaving of added events and rollovers, the logs read back as exactly the events, in order, after what was recovered; only an event added first to a log without header is lost |
| DistTables.NothingExpires | src/core/dist_table.cpp:212-224 | no set of logs ever has an expired one if and only if the age limit is out of the window's reach |
| DistTables.DistTable.Init | src/core/dist_table.cpp:42-51 | opens with number 0 and hands the decoded records of the active log to recovery, in order |
| DistTables.DistTable.ReadPeriodicLog | src/core/dist_table.cpp:239-288 | skips the header, stops at the first unreadable record, delivers every record that decodes, in order |
| DistTables.DistTable.TrainPeriodicLog | src/core/dist_table.cpp:191-210 | replays the existing logs of the window, newest first |
| DistTables.DistTable.EliminatePeriodicLog | src/core/dist_table.cpp:212-237 | removes exactly the existing logs of the window that reached the age limit, replaying each once |
| Counters.TrainingTallies | src/core/user_interests.cpp:240-293 | the trained tables are the tallies of the events newer than the cutoff, with keys only where something was counted |
| Counters.TrainingIsPermutationInvariant | src/core/user_interests.cpp:58-71 | the order in which events are counted does not matter |
| Counters.TablesShowCounts | src/core/user_interests.cpp:240-293 | two lists of events give the same tables exactly when every category and every user and category is counted equally often |
| Rebuilding.RestartAt | src/core/periodic_log.cpp:120-240 | the number a restart continues with, and the sealed logs it finds, for a crash at any point of a session |
| Rebuilding.TallyBalance | src/core/user_interests.cpp:47-71 | live count plus recovered events equals rebuilt count plus missed events, for every kind of event |
| Rebuilding.RebuildIsLive | src/core/user_interests.cpp:47-71 | init, events, rollovers and eliminations as wired, a crash at any point, init again: the tables are the same if and only if the missed events count what the recovered and the outdated ones count |
| Rebuilding.RestartKeepsTables | src/core/user_interests.cpp:47-71 | when nothing recovered or outdated counts, a restart keeps the tables if and only if nothing that counts was swallowed, left the window, lies at or above the restart number or in the active log, or became too old |
| Rebuilding.RolledClickIsForgotten | src/core/user_interests.cpp:47-71 | an input where the active log is empty at the restart and the tables still come back empty, for every window |
| Rebuilding.RecoveredClickReturns | src/core/user_interests.cpp:47-71 | an input where a restart brings back a click that the life before it had cleared away |
| Counters.Conservation | src/core/user_interests.cpp:219-293 | with click priors, the users' counts of a category exceed the global count by exactly the swallowed decrements |
| Counters.ApplyBalances | src/core/user_interests.cpp:261-293 | one update keeps that balance and keeps user counts whole and non-negative |
| Counters.TrainKeepsConsistent | src/core/user_interests.cpp:240-249 | counting up keeps user counts at least one and summing to the global count |
| Counters.EliminateUndoesTrain | src/core/user_interests.cpp:219-293 | an event counted and then grown too old is taken back completely, for either prior |
| Counters.ScoreBounds | src/core/user_interests.cpp:119-170 | no division by zero, and each score lies between G/(n+G) and (total+G)/(n+G) |
| Counters.ScoreSmoothed | src/core/user_interests.cpp:145-165 | the equation every defined score solves, whatever the order of operations |
| Counters.ScoreOrder | src/core/user_interests.cpp:145-165 | a user's scores rank the categories by how large a part of all their clicks is the user's |
| Counters.SmoothingIdentity | src/core/user_interests.cpp:145-165 | a present user's scores, weighted by the click counts, sum to the click total: their weighted average is one |
| Counters.ScoreUndefinedExactly | src/core/user_interests.cpp:145-165 | after any run of training and elimination a score is undefined exactly when the virtual clicks cancel the total, or what the users hold of the category are swallowed decrements |
| Counters.ScoreUndefinedAfterElimination | src/core/user_interests.cpp:155-163 | the shortest such run: a click counted and taken back leaves a score divided by zero |
| UserInterest.UserInterests.TrainCategory | src/core/user_interests.cpp:261-271 | the global count moves by the given amount, below zero as well |
| UserInterest.UserInterests.TrainUserCategory | src/core/user_interests.cpp:273-293 | the user's count moves but never below zero |
| UserInterest.UserInterests.AddEvent | src/core/user_interests.cpp:305-316 | counts the event and logs it; keeps the counters consistent |
| UserInterest.UserInterests.Train | src/core/user_interests.cpp:58-71 | the counters become the count over the window of sealed logs, whatever they were |
| UserInterest.UserInterests.Init | src/core/user_interests.cpp:47-56 | after a restart the counters are the count over the sealed logs below the restart number alone, and consistent |
| UserInterest.UserInterests.Serve | src/core/user_interests.cpp:208-316 | any run of events and rollovers with eliminations: each event counts if it is newer than the cutoff of its moment, and all are logged |
| UserInterest.LiveThenRestart | src/core/user_interests.cpp:47-71 | two objects, one crash: the successor's counters are the first one's if and only if missed and recovered events count the same |
| UserInterest.UserInterests.Eliminate | src/core/user_interests.cpp:208-238 | takes back and removes exactly the expired logs; with the age limit at the window it changes no counter and no log |
| UserInterest.UserInterests.ScoreOf | src/core/user_interests.cpp:145-165 | the code's chain of quotients is the closed form of the score |
| UserInterest.UserInterests.QueryUserCurrentInterests | src/core/user_interests.cpp:119-170 | not found exactly without counters; otherwise a score per category, undefined exactly when the total is cancelled or the global count is zero, and positive for consistent counters |
| News.TrendIsNormalised | src/core/news_trends.cpp:56-84 | normalised counts are the shares of all unexpired clicks; they are positive and sum to one |
| News.NewsTrends.Train | src/core/news_trends.cpp:86-115 | publishes, through the swapped buffer, exactly the shares of the window's unexpired clicks, and files the same map |
| News.NewsTrends.DumpTable | src/core/news_trends.cpp:56-84 | divides in place by the total and writes tags that load back as the same map |
| News.FirstTagWins | src/core/news_trends.cpp:47-54 | loading keeps the first tag of each category and no other categories |
| News.NewsTrends.Reload | src/core/news_trends.cpp:35-54 | publishes the file's map through the other buffer, or leaves everything published as it was |
| News.NewsTrends.TrainAndReload | src/core/news_trends.cpp:35-98 | training and then reloading publishes the same trend from two distinct buffers |
| Predictions.SumsToOne | src/core/content_based.cpp:357-370 | the weights sum to one exactly when the adjusted powers have a positive sum |
| Predictions.OverriddenIsLight | src/core/content_based.cpp:347-370 | category 13 is no heavier than any category but 10, and than 10 exactly under the stated condition |
| Predictions.OverriddenMayExceedDamped | src/core/content_based.cpp:347-370 | an input on which category 13 outweighs category 10 |
| Predictions.MeetsMarshal | src/core/content_based.cpp:332-374 | for positive powers the prediction is normalised, positive and without repeated categories, as the marshaler demands |
| Predictions.MixIsPositive | src/core/content_based.cpp:423-474 | mixing positive distributions gives positive powers |
| PredictionLaws.BlendBetween | src/core/content_based.cpp:430-445 | a mixed power is the long-term share for alpha 1, the current share for alpha 0, and in proportion to alpha in between |
| PredictionLaws.MixSumsToOne | src/core/content_based.cpp:430-445 | over the same categories the shares of the two distributions mix to powers that sum to one |
| ContentBasedModel.ContentBased.PredictMix | src/core/content_based.cpp:404-477 | which categories are listed, each once, and with which power against the input maps, for each combination of available distributions |
| PredictionLaws.ReweightedReflects | src/core/content_based.cpp:347-372 | up to a common total, category 13 enters the predicted list with the least power, category 10 with 0.6 of its own, every other with its own |
| PredictionLaws.WeightsInRatio | src/core/content_based.cpp:347-372 | predicted weights are in the ratio of the powers: own powers for two ordinary categories, 0.6 of its power for category 10, the least power for category 13 |
| PredictionLaws.PredictionReflects | src/core/content_based.cpp:332-374 | the same of any prediction of a mix, category by category |
| ContentBasedModel.ContentBased.PredictUserInterests | src/core/content_based.cpp:332-374 | fails exactly on an empty mix; otherwise a descending list with an entry for every category and no others, in the ratio above, summing to one for positive powers |
| Predictions.PredictionsAgree | src/core/content_based.cpp:332-374 | whatever order the maps and the sort choose, the predictions of a mix have the same weights in the same places |
| Predictions.HeadIsReach | src/core/content_based.cpp:332-374 | so the size of the head is a number of the mix, not of the prediction chosen |
| ContentBasedModel.ContentBased.MarshalUserInterests | src/core/content_based.cpp:377-402 | the marshaler is always called within its demands; the exact size (the larger of the request and the head), and that the categories, spaced and of the mix, are the head and then a run of the lottery over a prediction |
| Recommendation.Recommend | src/core/content_based.cpp:377-477 | a request over counters that only counted up and a trained trend returns exactly as many categories as the larger of the request and the head, spaced, of the mix and as dealt from a prediction |
| Recommendation.MixIsCurrent | src/core/content_based.cpp:421-456 | a user with counters and no long-term interests is dealt from all categories, by exactly the current scores |
| DocumentLayout.IntRoundTrip | src/framework/CF_framework_center.h:1736-1753 | an int in memory reads back as itself, negative values included |
| DocumentLayout.EmitDone | src/framework/CF_framework_center.h:1666-1703 | writing succeeds exactly when nothing is missing and everything fits, and then writes the concatenation |
| DocumentLayout.EmitCases | src/framework/CF_framework_center.h:1666-1757 | writing overflows exactly when the bytes before the first missing field do not fit; otherwise that field decides |
| DocumentLayout.DocumentFirstFail | src/framework/CF_framework_center.h:1867-2020 | the error code of the first missing field, in the order of writing |
| DocumentLayout.CompleteIffNoFail | src/framework/CF_framework_center.h:1867-2020 | the pieces of a document contain no failure exactly when every field and every word entry is complete |
| DocumentLayout.DocumentBytes | src/framework/CF_framework_center.h:1867-2020 | the bytes of a complete document: all twelve fields in order, each array behind its count |
| DocumentRecord.RecordRoundTrip | src/framework/CF_framework_center.h:1860-2022 | a walk over the bytes alone, least significant byte first, gives all twelve fields back and stops behind the last |
| DocumentWriter.PutBytes | src/framework/CF_framework_center.h:1687-1699 | writes only behind its size check and leaves the rest of the buffer alone |
| DocumentWriter.ParseArray | src/framework/CF_framework_center.h:1666-1703 | count, then length and bytes of each string; -2 exactly on overflow |
| DocumentWriter.ParseArrayObject | src/framework/CF_framework_center.h:1705-1757 | as above with a count per word; -1 exactly on a missing member |
| DocumentWriter.ParseDocument | src/framework/CF_framework_center.h:1867-2020 | succeeds exactly for twelve members, a complete document and enough room, and then the bytes read back as its fields; otherwise the code of the first missing field, or -200 exactly on overflow; never past the capacity |
| DocumentReader.CStringStops | src/framework/CF_framework_center.h:1550-1553 | a string terminated in place prints as itself |
| DocumentReader.PrintText | src/framework/CF_framework_center.h:1550-1553 | prints the string and puts the overwritten byte back |
| DocumentReader.ReadTexts | src/framework/CF_framework_center.h:1545-1556 | walks over the strings in order, ends after the last, buffer unchanged |
| DocumentReader.ReadWords | src/framework/CF_framework_center.h:1563-1577 | walks over words and counts in order, buffer unchanged |
| DocumentReader.SaveLogDocument | src/framework/CF_framework_center.h:1509-1586 | logs the id, push time, categories, words and counts of the document in the buffer and leaves the buffer unchanged |
| DocumentReader.ParseAndLog | src/framework/CF_framework_center.h:1509-2020 | whatever the writer accepts, the reader logs as it was given |
| Ranking.Partition | src/framework/CF_framework_center.h:1201-1228 | rows move together; exactly the rows with negative times come first, in original order; the sum of the other times |
| Ranking.Score | src/framework/CF_framework_center.h:1233-1242 | a top row has the combined power, every other gives it its weight and adds its part of the time factor; exactly when all are defined |
| Ranking.BonusesTotalFactor | src/framework/CF_framework_center.h:1204-1242 | after the partition the time bonuses add up to exactly the time factor |
| Ranking.ScoresTotalFactor | src/framework/CF_framework_center.h:1204-1242 | after both passes the scores past the tops hold, besides the combined powers, exactly the time factor in all |
| ResultCache.Cache.Get | src/framework/CF_framework_cache.h:53-131 | in time: ids from the front, never more than asked for or six, as many as asked for or at least three or all there are; late: none and the entry emptied; return code and search stamp per branch; no other user touched |
| ResultCache.Cache.PutAndServe | src/framework/CF_framework_cache.h:53-157 | after a put and any calls by any users, what this user was given followed by what remains is the list put, or nothing remains if a call came too late; never more than asked for; a third as many calls for three or more use the list up; other users are not affected |
| ResultCache.DeliveredAmount | src/framework/CF_framework_cache.h:76-87 | how many ids a run of requests gets, at most and at least |
| ResultCache.ConsumedAsQueue | src/framework/CF_framework_cache.h:53-131 | over any run of requests the returned ids are a prefix of the list put, followed by what remains until the entry expires |
| ResultCache.NothingAfterExpiry | src/framework/CF_framework_cache.h:110-123 | after a late request nothing is returned until the next put, whatever the clock says |
| ResultCache.StampsAreSpaced | src/framework/CF_framework_cache.h:99-123 | search stamps are more than sixty seconds apart and the entry carries the last one |

## Left out

- Sockets, the message broker, gRPC, threads and monitor loops, logging, configuration reading and generated message code.
- The classes behind the log files, table files, user and item tables and the hash table are not part of this model: a
  file is a list of entries, creating it truncates, renaming is atomic, an append flushes unless told not to, a hash
  table is a map without reserved keys.
- Message serialisation: any pair of encoders and parsers that round-trips.
- Rounding of floating-point numbers and overflow of integers; byte order is little-endian.
- Failing file operations: every operation succeeds, so their error returns are not modelled.
- Data races: a section under a mutex and a swap of buffers is one step.
- Marshaling.Marshaler.Marshal: requires at most 100 trends, more than N positive weights when draws are needed, r1 below
  one and TOPT within the trends; beyond these the source indexes past an array or never returns.
- ContentBasedModel.ContentBased.MarshalUserInterests: requires positive powers and a mixing factor within 0..1; a mix
  with zero powers is not covered.
- The order in which a map is iterated and the order of ties in the library sort are left open.
- The substitution of one user id for another that the source makes for debugging.
- The feedback record, whose writer emits a second count its reader does not skip.
- The alignment of algorithm powers with ids after the ranking partition, and the library sort that follows it.
- Storage capacity and trimming of the result cache; the return code the source leaves unset is any value.
- Item-weight queries, action and item updates, timers and the conversion tools: they only pass values on.
