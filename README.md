# BulletJournal backend core in Dafny

This project models the server-side rules of the BulletJournal backend:

- **Offline sync** (`sync.dfy`, module `SyncEngine`). A client uploads tasks, expenses, journals and reflections. The server upserts each record by id. Ownership is checked and conflicts are settled last-write-wins on `updatedAt`. A batch has a 1000-item cap and a task-owner pre-scan. Tasks go first, then expenses, journals and reflections, and the first refused record stops the batch. Download counts what a user owns. The per-table store is a class (`SyncStore`) whose loops are proved against the functional `Upsert`/`UpsertAll`/`Sync`. The properties are proved about those functions: isolation of other users' rows, the fate of replayed and older records, commit-per-record survival, and per-user counts.
- **XP and levels** (`leveling.dfy`, module `Leveling`). Gaining XP (the stored user is a class updated in place), the level an XP total reaches, and the cost of the next level.
- **Personality tests** (`profile_tests.dfy`, module `ProfileTests`). Holland RIASEC scoring with its top-three code, proved a stable sort by score (ties keep R, I, A, S, E, C order). MBTI scoring by majority in each letter pair.
- **AI digest scheduling** (`digest.dfy`, module `DigestSchedule`). Quiet hours, including windows that wrap past midnight, with `HH:MM` parsing. The trigger minute, which digest types are due, and the period (day, ISO week, month, year) a digest covers.
- **Task analytics** (`analytics.dfy`, module `Analytics`). The date range of a weekly or monthly period, and the aggregation of a period's tasks into totals and per-day tallies.

`gregorian.dfy` (module `Gregorian`) models the proleptic Gregorian calendar of Python's `datetime.date`. It covers years 1 to 9999, ordinal day numbers, the weekday with Monday as 0, and the week-numbering year of ISO 8601:2004 section 2.2.10 (week 1 holds the year's first Thursday). `wrappers.dfy` holds `Option` and `Result`.

Clock readings (`datetime.utcnow()`), the user's local time and the database are parameters or values: `now`, `LocalTime` and the `Tables` maps.

## Model

| member | source | states |
|---|---|---|
| SyncEngine.Status | backend/app/api/sync.py:256-270 | The oversize batch is the only 400; ownership refusals are 403 |
| SyncEngine.Upsert | backend/app/api/sync.py:22-77 | An upsert is refused exactly when the id exists and belongs to another user, naming the kind and id; otherwise the id is present afterwards and no other key appears or disappears |
| SyncEngine.UpsertRow | backend/app/api/sync.py:22-77 | The per-record upsert returns the conflict flag and table that `Upsert` defines, and leaves the table unchanged when it refuses |
| SyncEngine.UpsertInsertsNewId | backend/app/api/sync.py:60-77 | A new id is inserted, owned by the caller whatever `userId` the record declares, stamped with the write time, and not counted as a conflict |
| SyncEngine.UpsertLastWriteWins | backend/app/api/sync.py:38-59 | On the caller's own row, a conflict is reported iff both timestamps exist and the client's is not strictly newer; then the row is untouched, otherwise it takes the record's fields and owner and is re-stamped |
| SyncEngine.UpsertWithoutTimestampApplies | backend/app/api/sync.py:52-59 | When either timestamp is missing the client's fields are applied without a conflict |
| SyncEngine.UpsertFrame | backend/app/api/sync.py:36-77 | An upsert never touches any id other than the record's |
| SyncEngine.UpsertIsolation | backend/app/api/sync.py:60-68 | A row owned by another user is never changed, and a record aimed at it is refused |
| SyncEngine.UpsertReplayIsConflict | backend/app/api/sync.py:40-51 | Re-sending a record that was just applied is reported as a conflict and changes nothing, because the stored stamp is the server's write time |
| SyncEngine.OlderRecordLosesAfterNewer | backend/app/api/sync.py:40-51 | After a newer record was applied, an older record for the same id loses as a conflict |
| SyncEngine.OlderRecordCanWinWhenClientClockAhead | backend/app/api/sync.py:40-48 | A concrete case in which an older edit overwrites a newer one: a client timestamp later than the server's write time lets a stale record win |
| SyncEngine.UpsertTimestampMonotone | backend/app/api/sync.py:46-57 | With a clock that does not go backwards, a row's `updatedAt` never decreases |
| SyncEngine.UpsertOwner | backend/app/api/sync.py:43-45 | The owner after an upsert: the caller for a new id, unchanged on a conflict, otherwise the record's `userId`, copied by the attribute loop |
| SyncEngine.UpsertAll | backend/app/api/sync.py:273-277 | Conflicts never exceed the number of records, and a stop is always an ownership refusal of this table's kind |
| SyncEngine.FailurePersists | backend/app/api/sync.py:273-277 | Once a record is refused, nothing after it is applied |
| SyncEngine.CommittedPrefixSurvives | backend/app/api/sync.py:47-75 | A refused record leaves every row committed before it in place, because each upsert commits on its own |
| SyncEngine.UpsertAllIsolation | backend/app/api/sync.py:273-277 | A batch never changes a row owned by another user |
| SyncEngine.UpsertAllOwners | backend/app/api/sync.py:273-277 | Every row a batch leaves is unchanged, owned by the caller, or owned by the `userId` of some record of the batch |
| SyncEngine.UpsertAllFresh | backend/app/api/sync.py:60-77 | Records with new distinct ids are all inserted with no conflict, and the caller then owns exactly one more row per record |
| SyncEngine.SyncCap | backend/app/api/sync.py:249-261 | A batch is refused with `TooManyItems` iff it has more than 1000 records, and then nothing is written |
| SyncEngine.SyncPreScan | backend/app/api/sync.py:263-270 | Within the cap, a batch is refused before any write iff some task declares a non-empty foreign `userId` |
| SyncEngine.SyncCounters | backend/app/api/sync.py:242-313 | A successful sync reports each list's length as synced. Its conflict count is exactly the number of records, over the four lists, that met a row of the caller's with both timestamps and the client's not newer, and at most the batch size. A failure is a 403 refusal or the oversize 400 |
| SyncEngine.UpsertConflictFlag | backend/app/api/sync.py:38-51 | An upsert that goes through reports a conflict iff the record's id holds a row of the caller's whose timestamp and the record's both exist with the record's not newer; a conflict leaves the table as it was |
| SyncEngine.UpsertAllConflicts | backend/app/api/sync.py:273-277 | A list upserted without a refusal counts as conflicts exactly its records kept at the server version, each judged against the table the records before it left |
| SyncEngine.SyncShape | backend/app/api/sync.py:272-298 | Each table ends either as it was or as its list's batch upsert left it |
| SyncEngine.SyncIsolation | backend/app/api/sync.py:234-324 | A sync never changes any row, in any table, owned by another user |
| SyncEngine.SyncTaskOwners | backend/app/api/sync.py:263-277 | After a sync every task is unchanged, owned by the caller or has the empty owner: the pre-scan stops foreign task owners |
| SyncEngine.SyncKeepsOthersTaskCount | backend/app/api/sync.py:336-349 | A sync never changes how many tasks another, non-empty user downloads |
| SyncEngine.ExpenseOwnerCanChange | backend/app/api/sync.py:94-111 | A concrete case: an expense update carrying another `userId` hands the row to that user, since only tasks are pre-scanned |
| SyncEngine.EmptyTaskOwnerAccepted | backend/app/api/sync.py:263-277 | A concrete case: a task with an empty `userId` passes the pre-scan and leaves its row owned by nobody, so the caller's download count drops |
| SyncEngine.OwnedIdsCount | backend/app/api/sync.py:336-339 | The number of rows a user owns is at most the table's size, zero iff the user owns no row, and the whole table when the user owns every row |
| SyncEngine.DownloadCounts | backend/app/api/sync.py:326-361 | Each count a download returns is the caller's share of that table, bounded by it, zero iff the caller owns none of it, all of it when every row is the caller's, and conflicts are always 0 |
| SyncEngine.SyncFreshThenDownload | backend/app/api/sync.py:326-354 | Uploading new distinct records succeeds with no conflicts, and the caller's download counts grow by exactly each list's length |
| SyncEngine.SyncStore.constructor | backend/app/api/sync.py:22-230 | The store's empty starting state: the four tables the upsert functions write, all empty |
| SyncEngine.SyncStore.UpsertTask | backend/app/api/sync.py:22-77 | Updates the task table as `Upsert` defines and leaves the other tables alone |
| SyncEngine.SyncStore.UpsertExpense | backend/app/api/sync.py:79-128 | Updates the expense table as `Upsert` defines and leaves the other tables alone |
| SyncEngine.SyncStore.UpsertJournal | backend/app/api/sync.py:130-179 | Updates the journal table as `Upsert` defines and leaves the other tables alone |
| SyncEngine.SyncStore.UpsertReflection | backend/app/api/sync.py:181-230 | Updates the reflection table as `Upsert` defines and leaves the other tables alone |
| SyncEngine.SyncStore.UpsertTasks | backend/app/api/sync.py:273-277 | The task loop leaves the table, conflict count and stop that `UpsertAll` defines, and counts every record when nothing is refused |
| SyncEngine.SyncStore.UpsertExpenses | backend/app/api/sync.py:280-284 | The expense loop leaves the table, conflict count and stop that `UpsertAll` defines |
| SyncEngine.SyncStore.UpsertJournals | backend/app/api/sync.py:287-291 | The journal loop leaves the table, conflict count and stop that `UpsertAll` defines |
| SyncEngine.SyncStore.UpsertReflections | backend/app/api/sync.py:294-298 | The reflection loop leaves the table, conflict count and stop that `UpsertAll` defines |
| SyncEngine.SyncStore.SyncData | backend/app/api/sync.py:234-324 | The sync endpoint leaves the tables and returns the response or refusal that `Sync` defines, so every lemma about `Sync` holds of it |
| SyncEngine.SyncStore.UpsertBatch | backend/app/api/sync.py:272-313 | The four upload loops in order give what the task stage of `Sync` defines |
| SyncEngine.SyncStore.UpsertFromExpenses | backend/app/api/sync.py:279-313 | The expense, journal and reflection loops give what the expense stage of `Sync` defines |
| SyncEngine.SyncStore.UpsertFromJournals | backend/app/api/sync.py:286-313 | The journal and reflection loops give what the journal stage of `Sync` defines |
| SyncEngine.SyncStore.UpsertFromReflections | backend/app/api/sync.py:293-313 | The reflection loop and the response give what the reflection stage of `Sync` defines |
| Leveling.ThresholdsInLevelOrder | backend/app/services/leveling_service.py:8-19 | Looking up a level's threshold by name gives the threshold in level order |
| Leveling.IndexIn | backend/app/services/leveling_service.py:36-40 | `LEVELS.index`: `None` exactly when the name is not a level, otherwise its first position |
| Leveling.TableLevelIndex | backend/app/services/leveling_service.py:10-19 | The table level of an XP total has met every lower threshold and not its own, Diamond excepted |
| Leveling.TableLevelMonotone | backend/app/services/leveling_service.py:61-76 | More XP never gives a lower level |
| Leveling.PromotedIndex | backend/app/services/leveling_service.py:44-52 | Promotion never moves down or past Diamond, passes only met thresholds and stops at the first unmet one |
| Leveling.PromotionReachesTableLevel | backend/app/services/leveling_service.py:44-52 | Promotion from a level ends at the higher of that level and the XP table's level |
| Leveling.StoredLevel | backend/app/services/leveling_service.py:29 | A missing or empty stored level reads as Iron; any other is kept |
| Leveling.StartIndex | backend/app/services/leveling_service.py:35-40 | Promotion starts at the stored level's position, or at Iron for an unknown level |
| Leveling.CalculateLevelFromXp | backend/app/services/leveling_service.py:61-76 | The level an XP total reaches is the XP table's level (Iron below 100 and for negative XP, Diamond from 3000) |
| Leveling.NextLevelInfo | backend/app/services/leveling_service.py:78-95 | Unknown levels raise; Diamond has no next level; otherwise the next level, its threshold, and an XP-to-go that is zero iff the threshold is met and otherwise closes the gap exactly |
| Leveling.NextLevelCost | backend/app/services/leveling_service.py:78-95 | Gaining a non-negative amount promotes at least one level iff the amount is at least the reported XP-to-go |
| Leveling.UserAccount.constructor | backend/app/services/leveling_service.py:21-30 | An account holds the given XP and level |
| Leveling.GainXp | backend/app/services/leveling_service.py:21-59 | No user gives false. Otherwise XP grows by the amount, and the result is true iff promotion moves up. The new level is the promoted level, Iron for an unknown stored level, or unchanged |
| Leveling.Promote | backend/app/services/leveling_service.py:43-52 | The promotion loop reports a level-up iff `PromotedIndex` moves, and returns that level |
| ProfileTests.Count | backend/app/api/profile_tests.py:43-45 | A letter's score never exceeds the number of answers |
| ProfileTests.ValidCount | backend/app/api/profile_tests.py:43-45 | The answers that are one of the letters never outnumber the answers |
| ProfileTests.Tally | backend/app/api/profile_tests.py:40-45 | The score dictionary has exactly the test's letters as keys |
| ProfileTests.TallyPointwise | backend/app/api/profile_tests.py:40-45 | Any dictionary with the test's letters as keys and each letter's answer count as value is the tally |
| ProfileTests.CountAnswers | backend/app/api/profile_tests.py:40-45 | The counting loop produces the tally: every letter scores the number of answers equal to it |
| ProfileTests.ScoresSumToValidAnswers | backend/app/api/profile_tests.py:40-45 | The scores add up to the number of answers that are one of the letters; other answers are ignored |
| ProfileTests.SumOverEmpty | backend/app/api/profile_tests.py:40 | Without answers every score is zero |
| ProfileTests.SumOverSnoc | backend/app/api/profile_tests.py:43-45 | One more answer raises the score sum by one iff it is a letter of the test |
| ProfileTests.InsertByScore | backend/app/api/profile_tests.py:48 | Inserting a letter into a ranking keeps the other letters and adds that one |
| ProfileTests.SortByScore | backend/app/api/profile_tests.py:48 | The ranking holds exactly the letters given |
| ProfileTests.SortByScoreIsPermutation | backend/app/api/profile_tests.py:48 | The ranking is a permutation of the letters |
| ProfileTests.InsertIsPermutation | backend/app/api/profile_tests.py:48 | Insertion adds exactly one occurrence of the letter |
| ProfileTests.InsertKeepsOrder | backend/app/api/profile_tests.py:48 | Inserting a letter that precedes all others in R, I, A, S, E, C order keeps a ranking ordered by score, highest first, with ties in letter order |
| ProfileTests.InsertAtHead | backend/app/api/profile_tests.py:48 | A letter scoring at least the head's goes first |
| ProfileTests.InsertBehindHead | backend/app/api/profile_tests.py:48 | A letter scoring less than the head goes behind it, and the order is kept |
| ProfileTests.SortByScoreOrdered | backend/app/api/profile_tests.py:48 | Sorting the letters in R, I, A, S, E, C order gives the stable descending ranking of `sorted(..., reverse=True)` |
| ProfileTests.TopOfRanking | backend/app/api/profile_tests.py:48-49 | The first n letters of an ordered ranking are distinct, in rank order, and rank before every letter left out |
| ProfileTests.DominantIsTopThree | backend/app/api/profile_tests.py:48-49 | The dominant code is three distinct Holland letters, in rank order, each ranking before every letter left out |
| ProfileTests.ComputeHollandScores | backend/app/api/profile_tests.py:29-51 | Returns the tally of the answers and its dominant code |
| ProfileTests.HollandWithoutAnswers | backend/app/api/profile_tests.py:40-49 | Without answers all six scores are zero and the dominant code is "RIA" |
| ProfileTests.TiesRankByLetter | backend/app/api/profile_tests.py:48-49 | When all six scores tie, the dominant code is "RIA", because the sort is stable |
| ProfileTests.RiaInRankOrder | backend/app/api/profile_tests.py:49 | Three letters holding R, I and A, in rank order, spell "RIA" |
| ProfileTests.PairLetter | backend/app/api/profile_tests.py:126-129 | A pair yields its first letter iff that letter scores at least as much as the second, so ties go to the first |
| ProfileTests.MbtiTypeByMajority | backend/app/api/profile_tests.py:126-131 | The type has four letters; letter k is from the k-th pair and is the pair's first iff it scores at least the second |
| ProfileTests.ComputeMbtiType | backend/app/api/profile_tests.py:103-133 | Returns the tally of the answers and the majority type of that tally |
| ProfileTests.MbtiWithoutAnswers | backend/app/api/profile_tests.py:118-131 | Without answers all eight scores are zero and the type is "ESTJ" |
| DigestSchedule.Clamp | backend/app/services/ai_digest_service.py:31-32 | The result lies in the bounds and equals the value when the value does; below gives the minimum, above the maximum, and inverted bounds give the minimum |
| DigestSchedule.ClampIdempotent | backend/app/services/ai_digest_service.py:31-32 | Clamping twice is clamping once |
| DigestSchedule.ParseDigestType | backend/app/services/ai_digest_service.py:126-135 | A name parses only to the digest type that has that name |
| DigestSchedule.ParseName | backend/app/services/ai_digest_service.py:126-135 | Every digest type's name parses back to it |
| DigestSchedule.IsDigestEnabled | backend/app/services/ai_digest_service.py:126-135 | An unknown name is never enabled; a type's name is enabled iff the preference flag of that type is set |
| DigestSchedule.Split | backend/app/services/ai_digest_service.py:154-155 | `str.split` with one separator yields at least one part and no part holds the separator |
| DigestSchedule.JoinSplit | backend/app/services/ai_digest_service.py:154-155 | Joining the parts back gives the original string |
| DigestSchedule.SplitJoin | backend/app/services/ai_digest_service.py:154-155 | Splitting separator-free parts joined by the separator gives those parts |
| DigestSchedule.ParseInt | backend/app/services/ai_digest_service.py:154-155 | `int()` never accepts the empty string |
| DigestSchedule.ParseTwoDigits | backend/app/services/ai_digest_service.py:154-155 | A two-digit rendering of a number below 100 parses back to it |
| DigestSchedule.ParseFormattedTime | backend/app/services/ai_digest_service.py:153-161 | An `HH:MM` time parses back to its hour and minute |
| DigestSchedule.WrappedWindowIsComplement | backend/app/services/ai_digest_service.py:163-169 | A window that wraps past midnight is exactly the complement of the window running the other way |
| DigestSchedule.QuietWindow | backend/app/services/ai_digest_service.py:147-161 | A quiet window exists iff quiet hours are on, both bounds are present and non-empty, and both parse |
| DigestSchedule.QuietWindowOfFormattedBounds | backend/app/services/ai_digest_service.py:153-161 | Bounds written as `HH:MM` give the window of those minutes of the day |
| DigestSchedule.InQuietHours | backend/app/services/ai_digest_service.py:146-169 | Off, missing or unparsable settings are never quiet; equal bounds are never quiet; otherwise the minute is quiet iff it lies in the half-open window, which wraps past midnight when start is after end |
| DigestSchedule.ShouldTrigger | backend/app/services/ai_digest_service.py:172-182 | Digests fire iff the local time is exactly the configured hour and minute (20:00 by default) and not in quiet hours |
| DigestSchedule.TriggerAtMostOncePerDay | backend/app/services/ai_digest_service.py:172-182 | Digests fire at one minute of the day at most |
| DigestSchedule.FormatHM | backend/app/models/ai_coach.py:25-26 | `HH:MM` is five characters |
| DigestSchedule.DueDigestTypes | backend/app/services/ai_digest_service.py:185-201 | A type is due iff digests fire at this minute, the type is enabled and it is the type's day (daily always, weekly on Sunday, monthly on the 1st, yearly on January 1). Due types come in daily, weekly, monthly, yearly order without repeats |
| DigestSchedule.DueIsEnabled | backend/app/services/ai_digest_service.py:185-201 | Every due type is enabled when asked by name |
| DigestSchedule.PeriodBounds | backend/app/services/ai_digest_service.py:204-228 | An unknown name is the only unsupported-type error; a type's name gives that type's period |
| DigestSchedule.PeriodOf | backend/app/services/ai_digest_service.py:204-226 | Every period is a range of valid dates holding the target date, or the date-range overflow error |
| DigestSchedule.WeekBounds | backend/app/services/ai_digest_service.py:208-212 | The week is a range of dates that holds the target, or overflows |
| DigestSchedule.WeeklyPeriod | backend/app/services/ai_digest_service.py:208-212 | The weekly period runs Monday to Sunday, and its key is the target's ISO year and week: that week's Monday is the period's Monday, and the target comes before week 1 of the next ISO year |
| DigestSchedule.WeeklyOutOfRange | backend/app/services/ai_digest_service.py:209-210 | The weekly period overflows exactly for 27 to 31 December 9999, whose Sunday lies beyond the last date |
| DigestSchedule.WeekStart | backend/app/services/ai_digest_service.py:209 | The start of the week is the Monday on or before the date |
| DigestSchedule.MonthBounds | backend/app/services/ai_digest_service.py:214-221 | The month runs from its 1st to its last day and is keyed by year and month; December 9999 overflows computing the next month |
| DigestSchedule.YearBounds | backend/app/services/ai_digest_service.py:223-226 | The year runs from 1 January to 31 December and holds the target |
| DigestSchedule.MondayOfLastWeek | backend/app/services/ai_digest_service.py:209-210 | The Sunday of a day's week lies past the last representable day iff the day is among the last five |
| DigestSchedule.LastDaysOfRange | backend/app/services/ai_digest_service.py:209-210 | The last five representable days are 27 to 31 December 9999 |
| Analytics.StatusOf | backend/app/api/analytics.py:133-149 | Invalid period types and dates are 400 (`ValueError`); a date overflow is 500 |
| Analytics.FirstMonday | backend/app/api/analytics.py:21-27 | The endpoint's week-1 Monday is a valid date and is the ISO 8601 week-1 Monday |
| Analytics.FirstMondayNotBeforeYearOne | backend/app/api/analytics.py:21-27 | Stepping back to Monday from 1 January never leaves the calendar |
| Analytics.FirstMondayHoldsFirstThursday | backend/app/api/analytics.py:23-27 | The chosen Monday is a Monday whose week holds the year's first Thursday. It is on or before 1 January iff 1 January falls Monday to Thursday |
| Analytics.WeeksLater | backend/app/api/analytics.py:30 | Whole weeks later is the same weekday |
| Analytics.GetPeriodDates | backend/app/api/analytics.py:16-41 | Only "weekly" and "monthly" are accepted; a range it returns is ordered, valid dates within the calendar |
| Analytics.WeekDates | backend/app/api/analytics.py:18-31 | A year beyond a C `int` is `DateOverflow` (500); other years outside 1 to 9999 are `InvalidDate`. Otherwise the week is accepted iff its seven days are representable, with no check of the week number. It starts on a Monday `period - 1` weeks after the ISO week-1 Monday and ends six days later |
| Analytics.WeekOfIsoCalendar | backend/app/api/analytics.py:18-31 | Asking for a date's own ISO year and week gives the week holding that date, from its Monday |
| Analytics.MonthDates | backend/app/api/analytics.py:33-37 | A year or month beyond a C `int` is `DateOverflow` (500); any other bad year or month number is `InvalidDate` (400); otherwise the range is the month's first to last day |
| Analytics.PeriodErrorStatus | backend/app/api/analytics.py:133-149 | Week of year 3000000000 and month 3000000000 answer 500; month 13 and year 0 answer 400 |
| Analytics.CountDone | backend/app/api/analytics.py:95 | Completed tasks never outnumber tasks |
| Analytics.Bump | backend/app/api/analytics.py:105-108 | `dict.get(key, 0) + amount` writes only that key, adds it if new, and raises the value total by the amount |
| Analytics.CompletedTallyStep | backend/app/api/analytics.py:104-105 | Counting one more task keeps the per-day completed tally and the completed count |
| Analytics.TimeTallyStep | backend/app/api/analytics.py:106-109 | Counting one more task keeps the per-day positive-time tally |
| Analytics.ComputeAnalytics | backend/app/api/analytics.py:93-131 | Created is the task count and completed the number done, never more. Total time includes every spent time. Each date maps to its completed count and its positive spent time, dates with none are absent, and the per-day values add up to the totals. Active days are the dates with positive time |
| Analytics.PositiveTimeIsTotal | backend/app/api/analytics.py:96-108 | With no negative spent times, the per-day time adds up to the total time |
| Gregorian.DayNumberInjective | backend/app/api/analytics.py:21 | Distinct valid dates have distinct day numbers |
| Gregorian.PythonDateRange | backend/app/services/ai_digest_service.py:209-220 | A date is within year 9999 iff its day number is at most 3652059 |
| Gregorian.IsoCalendarWeek | backend/app/services/ai_digest_service.py:211 | `isocalendar()` gives a year within one of the date's, a week 1 to 53, and that week's Monday is the date's Monday |
| Gregorian.IsoCalendarBeforeNextYear | backend/app/services/ai_digest_service.py:211 | The date comes before week 1 of the ISO year after the one `isocalendar()` gives it |
| Gregorian.IsoCalendarUnique | backend/app/services/ai_digest_service.py:211 | Any year and week from 1 whose week starts on the date's Monday and whose next year's week 1 starts after the date are the ones `isocalendar()` gives |
| Gregorian.Week1MondayMonotone | backend/app/services/ai_digest_service.py:211 | For years `a < b`, week 1 of `b` starts no earlier than week 1 of `a + 1` |

## Left out

- Time zones: converting UTC to the user's zone (`ZoneInfo`, with UTC as the fallback) is not modelled. `DueDigestTypes` and `ShouldTrigger` take the local hour, minute, day, month and weekday as a `LocalTime`.
- Client timestamps: the model takes them as already-parsed integers. `dateutil` parsing (an unparsable string reads as missing) and comparing naive with aware datetimes are not modelled. The server clock `datetime.utcnow()` is the parameter `now`. The model reads it once per batch, where the code reads it again for each record.
- Columns: a record's fields are one value copied wholesale. The `hasattr(row, key)` filter applies every client field that is a column, with the owner `userId` modelled separately. Task columns the upload schema does not carry (`spentTime`, `timeLogs`) are kept on update and take their defaults on insert.
- Database errors: sessions, `refresh` and the generic exception path of the sync endpoint (500 after a rollback) are not modelled. Because each upsert commits on its own, the rollback undoes nothing committed, and the model keeps the committed prefix.
- Download: modelled as the counts it returns (`Download`, stated by `DownloadCounts`). Row contents are not returned by the endpoint.
- Floating point: expense amounts are `real` values copied unchanged; `Clamp` is over `real`. Spent time in analytics is an integer, since only its sum and sign matter here.
- Timestamps on results: the time-of-day parts of analytics ranges (`23:59:59` on the end date) are dropped; ranges are dates.
- The analytics SQL query, its `no such column` fallback to empty analytics and the per-task `task_details` list are not modelled. `ComputeAnalytics` takes the period's task rows as input.
- `ParseInt` accepts an optional sign followed by ASCII digits. Python's `int()` also accepts surrounding whitespace, `_` separators and non-ASCII digits; those inputs are not modelled.
- Period keys are structured values (`DayKey(date)`, `WeekKey(isoYear, week)`, `MonthKey`, `YearKey`) rather than the strings `2024-01-05`, `2024-W07`, `2024-01`, `2024`.
- Answer dictionaries are modelled as the sequence of their values, in iteration order. Answers that are not strings are read as strings that match no letter.
- Logging, rate limiting, the language model calls and the rest of the digest service (payload building, scoring, messages) are not part of this model.
- Last-write-wins is expected to converge. The code stores the server's write time as `updatedAt`, not the client's edit time, so the outcome depends on the client clock against the server clock. `UpsertReplayIsConflict` and `OlderRecordCanWinWhenClientClockAhead` state the behaviour as written.
- Only tasks are pre-scanned for a foreign `userId`. Expenses, journals and reflections copy the record's `userId` onto the row on update (`ExpenseOwnerCanChange`). A task with an empty `userId` passes and leaves the row unowned (`EmptyTaskOwnerAccepted`). The model follows the code.
- `WeekDates` does not check the week number beyond the calendar's range, as the code does not: week 0 or week 60 give weeks of the neighbouring years.
