# Verified model of Tabayyun's data plane

Tabayyun judges the quality of time series. Its core caches series in Parquet objects, decomposes and
bins them, scores findings and draws charts; its API stores findings, plans fetches and limits
requests. Most of that code is a fast or incremental form of something simple, and this project proves
that the two agree. It is written in Dafny 4.11; `dafny verify dfyconfig.toml` checks all of it.

What the modules model, one group a paragraph:

- **The Parquet cache as a last-write-wins store.** `Frame` normalises what a source delivered.
  `Calendar` is the day arithmetic of the proleptic Gregorian calendar (section 3.2.1 of ISO 8601:2004)
  with its saturation at the 64-bit limits. `Store` is a growing set of immutable parts and the map
  they stand for; `Cache` is the class whose `Write` and `Read` are proved to implement that map through
  month splits, bucket and month listings, row-group pruning and merging. `Stamps` is the lock-free
  stamp counter as a protocol over interleaved steps. `Answers` says what a read returns of the columns
  written.
- **Decomposition and binning.** `Seasonal` (moving average, detrending), `Strength` (seasonal strength
  and the law of total variance) and `Align` (`regularise` and `align`), whose results `AlignMeaning`
  states of the samples.
- **Scoring.** `Sweep` is the sweep line of `merged_coverage`; `Score` and `ScoreLaws` are the scorer and
  the laws of its scores; `ScoreMeaning` states impacts and scores of the findings themselves.
  `Counting` holds counting lemmas, `Arithmetic` those on products, quotients and remainders.
- **Findings.** `Findings` has records, candidates, merges and the step relation; `FindingLaws` the
  invariant over every interleaving; `FindingRuns` occurrences and re-run stability; `FindingStore` the
  class that changes the table; `FindingMeaning` what each step does field by field; `FindingReports` the
  whole reports that the callers persist.
- **Charts and episodes.** `Bins`, `Downsample`, `GapBreaks`, `Rug` and `RugLaws` for chart data,
  `Episodes` for runs of flagged bins; `M4Meaning`, `RugMeaning` and `EpisodeMeaning` state their results
  of the samples and timestamps.
- **Gap planning and rate limits.** `Coverage`, `Plan`, `Fetching` and `RateLimits`, with `Timeconv` for
  microsecond rounding.

Conventions. Integers are unbounded and every saturating or wrapping operation the results depend on is
written out (`Int64`). A float is NaN, an infinity or an exact real. Loops and objects of the source are
Dafny loops and classes, each proved against a specification function or predicate; the laws are then
lemmas about those. The main results are stated a second time without those functions, of the fields of
inputs and results alone, so that they do not depend on how a threshold, an order or a class is defined
in between. Stores, tables and atomics are modelled as sets, sequences and maps; the ids of new rows and
the names of new objects are fresh by assumption; clocks, stamps and the order in which objects arrive
are arguments or arbitrary choices.

Where the code does less than it is said to do, the model follows the code:

- `merged_coverage` is the coverage it is documented to be exactly in windows no longer than `i64::MAX`
  nanoseconds (`Sweep.CoverageExactIffShort`, with the failing input of `Sweep.LongWindowFails`).
- `next_write_ns` is said to be strictly increasing. Its stamps rise if and only if no exchange starts
  from a counter at `i64::MAX`, where the increment wraps (`Stamps.RisingIffNeverFull`, on the clocks
  `Stamps.NeverFullIffRoom`, with the failing run of `Stamps.FullCounterTies`).
- Quality runs are documented as half-open. They are for all sorted frames if and only if `buckets`
  divides the span of the window; else `bin_of` and `bin_start` round differently and a sample can lie at
  the end of its run (`RugLaws.HalfOpenIffDivides`, with the failing frames of `RugLaws.SampleAtRunEnd`,
  and `Bins.BinStartInItsBin` for the bins).
- `gap_breaks` bridges no gap if and only if the limit is at least one nanosecond
  (`GapBreaks.NoLineAcrossGapIff`, with the failing lines of `GapBreaks.TightLimitBreaks`).
- The documentation of `normalized` says conflicting duplicates are kept; the code keeps the first sample
  of a timestamp and only counts the others. Nothing but exact duplicates is dropped if and only if there
  is no conflicting one (`Frame.OnlyExactDuplicatesDropped`, with the input of `Frame.ConflictIsDropped`).

`occurrences` is raised whenever the reporting run is not the last one, which counts distinct runs if and
only if no run returns to a record after another one (`FindingRuns.OccurrencesCountRuns`). The callers
persist a run once, in the transaction that completes it, with one report per series; so for them it
always counts distinct runs (`FindingReports.WholeReportsCountRuns`). Only a caller that persisted one
run twice would see a difference (`FindingRuns.ReturningRunCountsTwice`).

## Model

| member | source | states |
|---|---|---|
| `Calendar.CivilFromDaysUnique` | core/tabayyun-core/src/cache.rs:624-648 | for every integer day, `civil_from_days` gives a month exactly when that month is valid and its days, from its first to the next month's first, hold the day |
| `Calendar.CivilFromDaysBrackets` | core/tabayyun-core/src/cache.rs:624-648 | the month found is valid and `days_from_civil(y, m) <= z < days_from_civil(y, m + 1)`, with month 13 as the next January |
| `Calendar.DaysFromCivilCountsMonthLengths` | core/tabayyun-core/src/cache.rs:638-648 | 1970-01 starts at day 0 and consecutive months are apart by the Gregorian month length, leap years included; this fixes every day number |
| `Calendar.CivilOfFirstDay` | core/tabayyun-core/src/cache.rs:624-648 | round trip: the month of the first day of a valid month is that month |
| `Calendar.CivilFromDaysMonotone` | core/tabayyun-core/src/cache.rs:624-636 | later days lie in the same or a later month, in lexicographic order |
| `Calendar.YearMonthUnique` | core/tabayyun-core/src/cache.rs:650-658 | `year_month` of any instant, also negative, is the one valid month whose nanoseconds hold it |
| `Calendar.YearMonthMonotone` | core/tabayyun-core/src/cache.rs:652-654 | `year_month` is monotone |
| `Calendar.MonthEndSeparates` | core/tabayyun-core/src/cache.rs:656-658 | the month end, which saturates at `i64::MAX`, separates exactly the later instants of the month from those of the next ones, except that `i64::MAX` itself is never before a saturated end |
| `Calendar.MonthNanoseconds` | core/tabayyun-core/src/cache.rs:656-658 | January 1970 starts at 0, and a month starts its predecessor's days of 24 * 60 * 60 * 10^9 nanoseconds later, up to the 64-bit limits |
| `Calendar.MonthsBetween` | core/tabayyun-core/src/cache.rs:660-676 | terminates and lists, strictly increasing, exactly the months that hold an instant of a non-empty range, an end of `END_OF_TIME` included |
| `Calendar.MonthIsExact` | core/tabayyun-core/src/time.rs:60-68 | a month lies between the months of the first and the last instant exactly when some 64-bit instant of the range, judged by `before_end`, lies in it |
| `Frame.Normalized` | core/tabayyun-core/src/frame.rs:182-213 | keeps, in time order, exactly the first delivered sample of every timestamp with its value, quality and ingest time; counts exact and conflicting duplicates separately, and the three counts add up |
| `Frame.NormalizedIsUnique` | core/tabayyun-core/src/frame.rs:182-213 | the normalised frame is determined by the delivered one |
| `Frame.NormalizedColumns` | core/tabayyun-core/src/frame.rs:182-213 | column by column: strictly increasing times, the same instants as delivered, and each row with the value, quality and ingest time of the first delivered sample of its instant |
| `Frame.NormalizedIsStable` | core/tabayyun-core/src/frame.rs:182-213 | normalising again changes nothing and finds no duplicate |
| `Frame.OnlyExactDuplicatesDropped` | core/tabayyun-core/src/frame.rs:179-213 | nothing but exact duplicates is dropped if and only if no duplicate is conflicting |
| `Frame.ConflictIsDropped` | core/tabayyun-core/src/frame.rs:179-213 | two samples of one timestamp with values 1 and 2: only the first is kept |
| `Store.PruningKeepsWantedRows` | core/tabayyun-core/src/cache.rs:480-504 | a row group whose statistics are true bounds and that holds a wanted row is never skipped |
| `Store.PruningIsTight` | core/tabayyun-core/src/cache.rs:480-504 | and a row group is decoded only when its statistics allow some wanted row in the range |
| `Store.LastWriteWinsHoldsNewest` | core/tabayyun-core/src/cache.rs:380-397 | the map obtained by applying writes in turn holds exactly the covered cells, each with the row of a covering write of largest stamp |
| `Store.LaterWriteOverwrites` | core/tabayyun-core/src/cache.rs:597-611 | with stamps in write order the last-write-wins map is plain overwriting |
| `Cache.GroupsHoldRows` | core/tabayyun-core/src/cache.rs:444-478 | cutting a part into row groups keeps every row, no group is too large, and their statistics bound their rows |
| `Cache.SplitByMonth` | core/tabayyun-core/src/cache.rs:259-277 | the month loop terminates; its parts are consecutive slices that together are the frame, each row lies in the month of its part's key, and only a sample at `i64::MAX` can give a month a second part |
| `Cache.DecodePart` | core/tabayyun-core/src/cache.rs:507-573 | adds exactly the part's rows that are wanted and inside the range, although row groups are skipped |
| `Cache.MergeRows` | core/tabayyun-core/src/cache.rs:387-397 | one row per timestamp, in time order, and no row of a larger stamp was dropped |
| `Cache.ParquetCache.Write` | core/tabayyun-core/src/cache.rs:246-295 | adds immutable parts of the normalised frame and nothing else; an empty frame or a bad path segment changes nothing; the reported range contains every written instant |
| `Cache.ParquetCache.Read` | core/tabayyun-core/src/cache.rs:312-413 | answers every id in request order with exactly the newest written row per instant of the range, whatever order parts are fetched in. Each frame is valid and in strict time order; its rows have the time, value and quality of a row of the newest write that holds the instant; it has an ingest column if and only if it has rows and each of those writes has one, and then holds exactly their times. With distinct stamps the same holds of the cells of the last-write-wins map |
| `Cache.ParquetCache.Fetch` | core/tabayyun-core/src/cache.rs:359-385 | fetching and decoding the listed parts in any order collects the same rows |
| `Cache.WriteIsFetched` | core/tabayyun-core/src/cache.rs:331-343 | listing only the buckets of the wanted ids and the months of the range loses no row of any write |
| `Cache.FetchedFromWrite` | core/tabayyun-core/src/cache.rs:380-385 | every fetched row comes from a write that covers its cell, with that write's stamp |
| `Cache.KeptAreNewest` | core/tabayyun-core/src/cache.rs:380-397 | the merged rows are the newest samples of the write history in the range |
| `Cache.ReadRefinesLastWriteWins` | core/tabayyun-core/src/cache.rs:297-413 | a frame of newest rows is the time-ordered restriction of the last-write-wins map to `[start, end)`, cell by cell and column by column |
| `Cache.RestrictionIsUnique` | core/tabayyun-core/src/cache.rs:387-412 | the frame that restricts the map is determined by it |
| `Cache.WriteThenReadAll` | core/tabayyun-core/src/cache.rs:246-413 | round trip: reading `[i64::MIN, END_OF_TIME)` after one write returns the normalised frame, a sample at `i64::MAX` included |
| `Stamps.ExchangeRaises` | core/tabayyun-core/src/cache.rs:598-611 | a successful exchange raises the counter if and only if the counter is below `i64::MAX`, where the increment wraps |
| `Stamps.RunKeepsInv` | core/tabayyun-core/src/cache.rs:595-611 | over every interleaving of loads, failed and successful exchanges, whatever the clocks read, each finished call took the counter from the stamp of the call before it to its own |
| `Stamps.StampsAre` | core/tabayyun-core/src/cache.rs:595-611 | every stamp is its call's clock reading when that passed the stamp before it, else one more than that; after `i64::MAX` it is the reading again |
| `Stamps.RisingIffNeverFull` | core/tabayyun-core/src/cache.rs:595-611 | for every run, stamps rise strictly in the order of the exchanges if and only if no exchange starts from a counter at `i64::MAX` |
| `Stamps.NeverFullIffRoom` | core/tabayyun-core/src/cache.rs:595-611 | no exchange finds the counter full if and only if each clock reading leaves room for one increment per later exchange |
| `Stamps.FullCounterTies` | core/tabayyun-core/src/cache.rs:595-611 | a run of six steps in which one thread, whose clock reads `i64::MAX` twice, gets the same stamp for two calls that follow one another |
| `Stamps.StampsDistinctAndOrdered` | core/tabayyun-core/src/cache.rs:595-611 | for any number of threads, in every run whose exchanges never find the counter full, stamps are distinct, and a call begun after another returned gets a larger one |
| `Stamps.LaterWriteWinsInOneProcess` | core/tabayyun-core/src/cache.rs:597-611 | in such a run the writes of one process never tie, and if each began after the one before had its stamp the later write wins on read |
| `Stamps.ClocksBelowNeverFill` | core/tabayyun-core/src/cache.rs:595-611 | clocks that read at most `k` leave room for `i64::MAX - k` calls |
| `Seasonal.MovingAverage` | core/tabayyun-core/src/seasonal.rs:90-128 | the prefix-sum loop returns at every index whose window lies in the series, with at least half of the window's weight finite, the mean of the finite values weighted 1 inside the window and 1/2 at both ends of an even period, and NaN elsewhere |
| `Seasonal.PrefixSums` | core/tabayyun-core/src/seasonal.rs:99-106 | prefix sums of finite values and of their count |
| `Seasonal.Detrend` | core/tabayyun-core/src/seasonal.rs:130-133 | finite values minus that average, infinities as they are, NaN without a value or an average |
| `Seasonal.AverageIsTheLine` | core/tabayyun-core/src/seasonal.rs:93-128 | for a line plus any pattern of odd or even period, the average on the interior is the line plus the pattern's mean |
| `Seasonal.DetrendIsThePattern` | core/tabayyun-core/src/seasonal.rs:93-133 | detrending returns the centred pattern on the interior and NaN elsewhere |
| `Strength.SeasonalStrength` | core/tabayyun-core/src/seasonal.rs:140-178 | None exactly for a period below 2, fewer than two periods of finite detrended values or a phase without any; 0 when the variance is at most `2^-52 (1 + max)^2`; else the strength times the sum of squares around the mean is the sum of squares of the phase means around it |
| `Strength.PhaseComponent` | core/tabayyun-core/src/seasonal.rs:153-166 | centred mean per phase, or not full when a phase has no value |
| `Strength.PhaseMeansOrthogonal` | core/tabayyun-core/src/seasonal.rs:164-168 | deviations from the phase means are orthogonal to everything that depends on the phase only |
| `Strength.TotalVariance` | core/tabayyun-core/src/seasonal.rs:167-173 | total variance is the variance around the phase means plus the variance between phases |
| `Strength.LawOfTotalVariance` | core/tabayyun-core/src/seasonal.rs:167-177 | the residual variance lies between 0 and the total variance, whatever entries are missing |
| `Strength.ClampNeverActs` | core/tabayyun-core/src/seasonal.rs:174-177 | a returned strength is already in [0, 1] before the clamp, and the division is by a positive total |
| `Strength.StrengthIs` | core/tabayyun-core/src/seasonal.rs:140-178 | the unclamped strength is that share of the variance, so the clamp changes nothing |
| `Strength.PeriodicSeriesStrength` | core/tabayyun-core/src/seasonal.rs:140-178 | a line plus a pattern with two periods of detrended values has strength exactly 1, or 0 when its variance fails the epsilon test |
| `Align.Regularise` | core/tabayyun-core/src/seasonal.rs:33-63 | returns bins under exactly the source's conditions (positive step, no overflow, at most `MAX_BINS`), anchored at multiples of the step, each holding the mean of its usable finite samples |
| `Align.Align` | core/tabayyun-core/src/align.rs:50-91 | for every grid the aligned bin starts and columns, each column the bin means of its member, also for unsorted frames, negative timestamps and negative grids; no bins beyond `MAX_CELLS` values; a panic exactly when the division fails: samples and a grid of 0, or of -1 with a sample at `i64::MIN` |
| `Align.Column` | core/tabayyun-core/src/align.rs:70-88 | accumulating sums in place and dividing yields the bin means |
| `Align.RegulariseAgreesWithAlign` | core/tabayyun-core/src/align.rs:51-91 | whenever `regularise` returns bins, aligning that one series to the same step gives the same starts and values |
| `Align.BinningConserves` | core/tabayyun-core/src/align.rs:68-88 | for every grid but zero each usable sample is in exactly one bin, counts sum to their number, and count-weighted means sum to their total |
| `Align.BinsCover` | core/tabayyun-core/src/align.rs:57-66 | the bins built from the earliest and latest timestamp cover every sample of every member |
| `AlignMeaning.RegularisedIs` | core/tabayyun-core/src/seasonal.rs:33-63 | of the samples themselves: the bins reach exactly from the first to the last timestamp, each value is the mean of the finite good or estimated samples in its `step` nanoseconds, and nothing is returned exactly without samples, for a step below 1, or when the first start, the span or 500 000 bins are exceeded |
| `AlignMeaning.AlignmentIs` | core/tabayyun-core/src/align.rs:50-91 | of the samples themselves: the bins of `\|grid\|` nanoseconds from the first to the last occupied one, their starts kept inside 64 bits, and the mean per member and bin; empty without a grid or a sample or beyond 20 million values; a panic exactly when a division fails |
| `AlignMeaning.GridIs` | core/tabayyun-core/src/align.rs:43-47 | the grid is the given one when positive, else the largest of the members' expected intervals |
| `Sweep.NoCloseLacksItsOpen` | core/tabayyun-core/src/score.rs:67-81 | in every prefix of the sorted events each close has its own open before it |
| `Sweep.StepKeepsActive` | core/tabayyun-core/src/score.rs:74-81 | the active-count map always equals the multiset of opened and not yet closed keys |
| `Sweep.TopKeyIsMax` | core/tabayyun-core/src/score.rs:70-72 | between events the last key of the map is the maximum key of the intervals covering each instant |
| `Sweep.Integrate` | core/tabayyun-core/src/score.rs:66-82 | the loop computes the swept integral with saturating time differences |
| `Sweep.MergedCoverage` | core/tabayyun-core/src/score.rs:48-84 | for a window no longer than `i64::MAX` the result is the sum over instants of the maximum key of the covering intervals, divided by the span |
| `Sweep.CoverageExactIffShort` | core/tabayyun-core/src/score.rs:50-84 | the sweep is right for all intervals if and only if the window is no longer than `i64::MAX` nanoseconds |
| `Sweep.LongWindowFails` | core/tabayyun-core/src/score.rs:50-51 | in every longer window one interval of a nanosecond is counted wrongly, because the divisor saturates |
| `Sweep.CoverageIsClose` | core/tabayyun-core/src/score.rs:64-84 | the quantised coverage differs from the coverage of the true weights by at most 5e-7 |
| `Sweep.CoverageIsMean` | core/tabayyun-core/src/score.rs:48-84 | the coverage is, to within 5e-7, the mean over the instants of the window of the largest weight of the unclipped intervals that cover each, at most 1 |
| `Score.DimensionImpact` | core/tabayyun-core/src/score.rs:104-127 | span findings as swept coverage of their densities plus point findings deduplicated by window at their largest impact, clamped; in windows of every length (`ScoreMeaning.ImpactMeans` says what that is) |
| `Score.ScoreWindow` | core/tabayyun-core/src/score.rs:96-129 | the report of a window of any length: each dimension scores 100 less its swept impact in percent, rounded to a tenth, with the overall score and the number of findings as below |
| `Score.ShortWindowScores` | core/tabayyun-core/src/score.rs:96-129 | in windows no longer than `i64::MAX` nanoseconds those impacts and scores are the ones defined by the coverage of the findings |
| `Score.Finish` | core/tabayyun-core/src/score.rs:143-162 | every one of the seven dimensions scores `100 * (1 - impact)` rounded to a tenth, halves away from zero, with impacts below 0 and above 1 taken as 0 and 1; the overall score is the rounded weighted mean, with weight 1 where none is given, and 100 without weight; findings of the series are counted |
| `ScoreLaws.MoreFindingsNeverRaiseScores` | core/tabayyun-core/src/score.rs:86-163 | adding findings never raises a dimension score or the overall score, for non-negative weights and impacts |
| `ScoreLaws.SameFindingsSameScores` | core/tabayyun-core/src/score.rs:86-163 | scores depend on the set of findings only: permuting or repeating them changes nothing |
| `ScoreLaws.ImpactAtMostSum` | core/tabayyun-core/src/score.rs:107-126 | a dimension's impact is at most the sum of its findings' impacts, up to the quantisation |
| `ScoreLaws.OneSpanContributesItsImpact` | core/tabayyun-core/src/score.rs:89-92 | one span finding meeting the window contributes its own impact, up to the quantisation |
| `ScoreMeaning.ImpactMeans` | core/tabayyun-core/src/score.rs:86-129 | of the findings themselves: an impact is, up to 1 and to within 5e-7, the share of the window under the largest density of the wide findings plus, per clipped window, the largest impact of the narrow ones; narrow is a density above 0.1, 0.3, 0.6 or 1 by severity |
| `ScoreMeaning.ScoresMean` | core/tabayyun-core/src/score.rs:86-163 | every dimension scores within 0.05005 of what that leaves of 100 |
| `ScoreMeaning.OneFindingScores` | core/tabayyun-core/src/score.rs:86-163 | one finding of impact `x` that meets the window, wide or narrow, scores within 0.05005 of `100 * (1 - x)`, and the other dimensions score 100 |
| `ScoreMeaning.UnmetScores100` | core/tabayyun-core/src/score.rs:102-125 | a dimension that no finding of the series meets scores exactly 100 |
| `Findings.StoredWindowIsLeast` | api/src/tabayyun/services/findings.py:111-115 | the stored window holds the core's, and no smaller window of whole microseconds does |
| `Findings.RatioOfOverlapping` | api/src/tabayyun/services/findings.py:123-127 | the overlap ratio of overlapping windows lies in (0, 1], is symmetric, and is 1 only for equal windows |
| `Findings.RatioIsShare` | api/src/tabayyun/services/findings.py:123-127 | the ratio times the number of microseconds in either window is the number in both |
| `Findings.UnionOfOverlapping` | api/src/tabayyun/services/findings.py:179-181 | the union window of overlapping windows holds exactly the instants of the two |
| `Findings.CandidateHasSameKind` | api/src/tabayyun/services/findings.py:155-162 | the evidence test of a candidate holds exactly when check, evidence keys, group and partner agree |
| `FindingMeaning.AbsorbsIff` | api/src/tabayyun/services/findings.py:141-162 | field by field: a record absorbs a finding when workspace, series, check, evidence keys, group and partner agree, it is open or acknowledged, their stored windows overlap and another run created it |
| `Findings.ExactWindowWins` | api/src/tabayyun/services/findings.py:165-166 | a record with exactly the incoming window is preferred to any other |
| `FindingLaws.MergedIsFolded` | api/src/tabayyun/services/findings.py:169-217 | a merge keeps a record in step with its history: window the exact union, kind unchanged, newest facts, first and last run, occurrences |
| `FindingLaws.StepKeepsInv` | api/src/tabayyun/services/findings.py:252-312 | every persisted finding and every status change keeps the table invariant: unique ids through delete and insert, records in step with their histories, every finding absorbed |
| `FindingLaws.RunKeepsInv` | api/src/tabayyun/services/findings.py:252-312 | the invariant holds after every interleaving of persisted findings and status changes |
| `FindingLaws.AbsorbedByExactlyOne` | api/src/tabayyun/services/findings.py:279-310 | conservation: every finding ever persisted was absorbed by exactly one record |
| `FindingLaws.StepKeepsRecord` | api/src/tabayyun/services/findings.py:169-217 | no record is lost; identity, kind, first run and creation are kept, windows only grow, and persisting changes at most an absorbing candidate |
| `FindingLaws.RunKeepsRecord` | api/src/tabayyun/services/findings.py:169-217 | the same over any run |
| `FindingLaws.PersistLeavesClosed` | api/src/tabayyun/services/findings.py:147-150 | the records whose status is muted or resolved before and after persisting are the same ones, unchanged |
| `FindingMeaning.PersistMeans` | api/src/tabayyun/services/findings.py:169-217 | field by field: a finding that no record absorbs becomes a new open record; any other changes the record with the largest share of common microseconds, of equal ones the earliest, to the newest facts, the union window and one occurrence per run, and no other record; muted and resolved records stay |
| `FindingRuns.BlocksCountRuns` | api/src/tabayyun/services/findings.py:187-189 | counting a run whenever it differs from the last one counts distinct runs if and only if no run comes back after another, and never too few |
| `FindingRuns.OccurrencesCountRuns` | api/src/tabayyun/services/findings.py:187-189 | over every run `occurrences` is the number of distinct runs that reported the record if and only if no run returns to it, which one report per run and series guarantees |
| `FindingRuns.ReturningRunCountsTwice` | api/src/tabayyun/services/findings.py:187-189 | if a caller persisted one run twice: reports of runs 1, 2, 3 and 2 end with four occurrences |
| `FindingReports.WholeReportsCountRuns` | api/src/tabayyun/services/findings.py:252-312 | over every interleaving of whole reports and status changes in which a run reports a series once, `occurrences` of every record is the number of distinct runs that reported it |
| `FindingReports.CompletedRunsReportWhole` | api/src/tabayyun/services/runs.py:333-369 | the reports that completed runs persist, each run once and one report per series, are such reports (likewise dataset_runs.py:367-411) |
| `FindingRuns.RerunCreatesNothing` | api/src/tabayyun/services/findings.py:278-310 | re-run stability: over any interleaving in which nothing is muted or resolved, a fresh run that repeats earlier findings merges every one |
| `FindingStore.FindingTable.BestCandidate` | api/src/tabayyun/services/findings.py:130-166 | None exactly when no record absorbs the finding, else the absorbing record with the largest share of common microseconds, of equal ones the one with the earliest window, then the oldest |
| `FindingStore.FindingTable.Merge` | api/src/tabayyun/services/findings.py:169-217 | the row is updated in place, or deleted and inserted under the same id when its window starts earlier, and no other row changes |
| `FindingStore.FindingTable.PersistOne` | api/src/tabayyun/services/findings.py:278-310 | one finding becomes a new open record or changes the chosen one, as `FindingMeaning.PersistMeans` says, and no muted or resolved record |
| `FindingStore.FindingTable.PersistReport` | api/src/tabayyun/services/findings.py:278-312 | `new + merged` is the number of incoming findings, the table grows by `new` rows, and every muted or resolved record is there after exactly when it was there before |
| `FindingStore.FindingTable.ChangeStatus` | api/src/tabayyun/services/findings.py:382-405 | the four status words, the seven permitted transitions, and of the changed record the status, the stripped reason, `statusAt` and `updatedAt` and nothing else; unknown status, missing record and conflict change nothing |
| `Findings.ReasonIsStripped` | api/src/tabayyun/services/findings.py:400 | a stored reason is the given one without its white ends, and None exactly when it is white throughout |
| `FindingStore.RepeatedReportCreatesNothing` | api/src/tabayyun/services/findings.py:252-312 | persisting a report again under a fresh run id leaves the number of records unchanged |
| `Timeconv.RoundingBracket` | api/src/tabayyun/services/timeconv.py:22-29 | flooring and ceiling to the microsecond bracket the instant, and agree on whole microseconds |
| `Bins.BinBracket` | core/tabayyun-core/src/downsample.rs:61-72 | an instant of the window lies between the start of its bin and the start of the next one, strictly before the latter at an exact edge |
| `Bins.BinStartInItsBin` | core/tabayyun-core/src/downsample.rs:61-72 | the start of bin c lies in bin c if and only if that edge is a whole number of nanoseconds; else in an earlier bin |
| `Bins.BinMonotone` | core/tabayyun-core/src/downsample.rs:62-66 | later instants lie in the same or a later bin |
| `Bins.BinEdgeExample` | core/tabayyun-core/src/downsample.rs:61-72 | span 10 and 3 buckets: t = 3 is in bin 0 although bin 1 starts at 3 |
| `Bins.WindowRange` | core/tabayyun-core/src/downsample.rs:74-79 | the index range of a sorted frame holds exactly the samples inside the window |
| `Downsample.ScanBin` | core/tabayyun-core/src/downsample.rs:99-118 | one bin is scanned to its last sample, with its first minimum and first maximum among finite values |
| `Downsample.SortedPicks` | core/tabayyun-core/src/downsample.rs:119-127 | the picks of a bin, increasing, without repetition and at most four |
| `Downsample.M4Window` | core/tabayyun-core/src/downsample.rs:81-133 | an index-increasing subsequence of the window of at most 4 points per bucket: the first, last, first minimum and first maximum of every occupied bin and nothing else, or the whole of a small window |
| `M4Meaning.M4Keeps` | core/tabayyun-core/src/downsample.rs:81-133 | of the samples themselves: with at most four per bucket all samples of the window, else exactly those that are the first or the last of their bin or the first to hold its least or greatest finite value, in order; nothing for an empty window or no buckets |
| `Downsample.M4Unique` | core/tabayyun-core/src/downsample.rs:88-133 | the kept samples are determined by frame and window |
| `Downsample.BinEnvelope` | core/tabayyun-core/src/downsample.rs:83-87 | for every sample of the window its bin's ends are kept, and kept finite samples of its bin are at least as low and as high |
| `Downsample.M4Idempotent` | core/tabayyun-core/src/downsample.rs:88-133 | applying it again to its own output changes nothing |
| `GapBreaks.Break` | core/tabayyun-core/src/downsample.rs:135-149 | every sample in order, with a NaN point one nanosecond after exactly those that are not NaN and whose next sample is more than the limit later; a limit of `i64::MAX` breaks nothing, because no 64-bit step is longer |
| `GapBreaks.NoLineAcrossGap` | core/tabayyun-core/src/downsample.rs:135-136 | no line bridges a gap: in the output every point whose next point is later by more than a limit of at least one nanosecond is NaN |
| `GapBreaks.NoLineAcrossGapIff` | core/tabayyun-core/src/downsample.rs:135-149 | that holds of all inputs if and only if the limit is at least one nanosecond |
| `GapBreaks.BreakIdempotent` | core/tabayyun-core/src/downsample.rs:137-149 | with such a limit breaking a broken line again changes nothing |
| `GapBreaks.BreakIdempotentIff` | core/tabayyun-core/src/downsample.rs:137-149 | for all inputs if and only if the limit is at least one nanosecond |
| `GapBreaks.BrokenIncreasing` | core/tabayyun-core/src/downsample.rs:137-149 | with such a limit strictly increasing times stay so |
| `GapBreaks.BrokenIncreasingIff` | core/tabayyun-core/src/downsample.rs:137-149 | for all inputs if and only if the limit is at least one nanosecond |
| `GapBreaks.TightLimitBreaks` | core/tabayyun-core/src/downsample.rs:137-149 | two samples a step apart under a smaller limit: the inserted point is itself followed by a longer step |
| `Rug.ClassifyBins` | core/tabayyun-core/src/downsample.rs:178-197 | the bins with non-good samples in order, each with its worst class, broken exactly when good samples lie before its first non-good one |
| `Rug.MergeBins` | core/tabayyun-core/src/downsample.rs:198-206 | maximal merging of unbroken neighbours of one class, with the bounds of their bins |
| `Rug.QualityRuns` | core/tabayyun-core/src/downsample.rs:169-207 | the runs are those of the classified bins of the window; nothing for an empty window or grid |
| `RugLaws.SampleInOneRun` | core/tabayyun-core/src/downsample.rs:169-207 | every non-good sample of the window belongs to exactly one run, at least as bad, with `start <= t <= end`, strictly before the end when `buckets` divides the span |
| `RugLaws.SampleAtRunEnd` | core/tabayyun-core/src/downsample.rs:151-207 | whenever `buckets` does not divide the span, a frame of one bad sample at the start of bin 1 has one run, which owns the sample and ends exactly at it |
| `RugLaws.HalfOpenIffDivides` | core/tabayyun-core/src/downsample.rs:151-207 | over all sorted frames every sample lies in `[start, end)` of the run that owns it if and only if `buckets` divides the span |
| `RugLaws.RunsInOrder` | core/tabayyun-core/src/downsample.rs:198-206 | runs are ordered, do not overlap and stay inside the window |
| `RugLaws.ClassWitnessed` | core/tabayyun-core/src/downsample.rs:186-195 | a run's class is the class of a sample in each of its occupied bins, and the worst one there |
| `RugLaws.NoGoodInside` | core/tabayyun-core/src/downsample.rs:178-206 | inside a run nothing lies between the last non-good sample of a bin and the first of the next one |
| `RugLaws.GoodBetween` | core/tabayyun-core/src/downsample.rs:198-206 | two neighbouring runs of one class have a good sample between them |
| `RugMeaning.RunsShow` | core/tabayyun-core/src/downsample.rs:159-207 | of the samples themselves: the runs hold every sample of the window that is not good, each spans exactly the bins of its samples, all of its class, with no good sample between two bins; neighbours lie in different bins and differ in class or have a good sample between them |
| `RugMeaning.EntryClass` | core/tabayyun-core/src/downsample.rs:159-195 | the class of a bin is bad if one of its samples is bad, else estimated if one is estimated, else uncertain |
| `Episodes.FlaggedRuns` | core/tabayyun-core/src/cross.rs:188-201 | all maximal runs of flagged bins one grid step apart, in order |
| `Episodes.MergeRuns` | core/tabayyun-core/src/cross.rs:202-214 | short runs are dropped first; the others are grouped exactly at the gaps shorter than the minimum |
| `Episodes.FindEpisodes` | core/tabayyun-core/src/cross.rs:187-215 | the episodes are those of the flagged runs |
| `Episodes.BinInOneEpisode` | core/tabayyun-core/src/cross.rs:183-215 | the bins of all episodes are exactly those of maximal runs lasting at least the minimum, each in one episode |
| `Episodes.EpisodeLasts` | core/tabayyun-core/src/cross.rs:202-212 | an episode's window spans its first to its last bin and lasts at least the minimum |
| `Episodes.EpisodesApart` | core/tabayyun-core/src/cross.rs:205-213 | episodes are ordered and at least the minimum apart |
| `EpisodeMeaning.EpisodesShow` | core/tabayyun-core/src/cross.rs:183-215 | on timestamps: the bins of episodes are those of maximal runs of flagged bins one step apart that last at least the minimum; neighbouring bins of an episode follow one another or are less than the minimum apart, and episodes at least the minimum |
| `Coverage.MissingRanges` | api/src/tabayyun/services/coverage.py:20-41 | exactly the uncovered instants of the range, as ordered gaps that are not empty and do not touch |
| `Coverage.MissingUnique` | api/src/tabayyun/services/coverage.py:20-41 | the gaps are determined by the covered instants |
| `Coverage.CoverageTable.Record` | api/src/tabayyun/services/coverage.py:44-77 | the cached instants become the old ones plus those of the range widened outwards to whole microseconds; the row with the same start is widened, no other row changes |
| `Coverage.CoverageTable.CoveredRanges` | api/src/tabayyun/services/coverage.py:80-89 | the recorded ranges of a series, oldest first, hold exactly its cached instants |
| `Coverage.GapsAligned` | api/src/tabayyun/services/coverage.py:20-41 | gaps begin and end at whole microseconds when the range and the covered ranges do |
| `Plan.Spans` | api/src/tabayyun/connectors/plan.py:28-36 | a gap cut from its start |
| `Plan.CutHoldsOnce` | api/src/tabayyun/connectors/plan.py:28-36 | the spans hold each instant of the gap once and nothing else, none longer than allowed |
| `Plan.CutIsGreedy` | api/src/tabayyun/connectors/plan.py:28-36 | the spans follow one another to the end of the gap, all but the last as long as allowed |
| `Plan.GroupBySpan` | api/src/tabayyun/connectors/plan.py:41-45 | for every span the points that need it, in the order they were met |
| `Plan.ChunkPoints` | api/src/tabayyun/connectors/plan.py:47-50 | the calls of one span list all its points in order, full but for the last call |
| `Plan.PlanCalls` | api/src/tabayyun/connectors/plan.py:39-51 | exact cover: at every instant the calls name each point as often as its gaps hold that instant; within both limits, in time order, packed |
| `Sorting.StringLeIs` | api/src/tabayyun/connectors/plan.py:47-48 | the order of ids in a call: the string that is smaller where the two first differ, or a prefix of the other, comes first |
| `Fetching.MissingFetchedOnce` | api/src/tabayyun/connectors/plan.py:39-51 | each missing instant of a point is in exactly one call naming it, and no call names a point outside its gaps |
| `Fetching.RecordCall` | api/src/tabayyun/services/fetches.py:483-500 | a call caches its span up to `now - settle`, widened to whole microseconds, for exactly those of its points that it did not report as failed, in the layer `raw` |
| `Fetching.RecordCalls` | api/src/tabayyun/services/fetches.py:483-500 | recording a whole plan, each call with its own clock reading and failed points, caches exactly what its calls record |
| `Fetching.CollectGaps` | api/src/tabayyun/services/fetches.py:412-429 | per point the missing parts of the window, points without gaps left out, or with `force` the whole window |
| `Fetching.Fetch` | api/src/tabayyun/services/fetches.py:395-500 | the whole chain of gathering gaps, planning, recording and gathering again: afterwards a missing instant of a point is cached if every call found it settled and the point not failed, stays missing if none did, and nothing is left when every call settled the window and no point failed |
| `Fetching.SettledIsRecorded` | api/src/tabayyun/connectors/plan.py:54-56 | a missing instant that every call finds settled for a point that did not fail is recorded |
| `Fetching.YoungIsUnrecorded` | api/src/tabayyun/connectors/plan.py:54-56 | an instant that every call finds younger than `now - settle`, or whose point failed, is not |
| `Fetching.NothingLeft` | api/src/tabayyun/services/fetches.py:412-429 | when every call ended with the window settled and no point failed, the gaps asked for next are empty |
| `Fetching.CallAligned` | api/src/tabayyun/connectors/plan.py:28-51 | calls planned from aligned gaps with an aligned limit begin and end at whole microseconds |
| `Fetching.YoungIsLeft` | api/src/tabayyun/connectors/plan.py:54-56 | for aligned gaps recording leaves exactly the instants at or after the clock less the settle seconds of the call that fetched them, and the points it reported as failed |
| `Fetching.OnlyGapsRecorded` | api/src/tabayyun/connectors/plan.py:39-56 | nothing outside the gaps of the point is recorded |
| `RateLimits.RulesAreValid` | api/src/tabayyun/services/rate_limits.py:42-56 | every rule has a window of at most the day that counters are kept |
| `RateLimits.RuleTable` | api/src/tabayyun/services/rate_limits.py:42-56 | the limits of all eight buckets, in requests per seconds |
| `RateLimits.RetryReachesLaterWindow` | api/src/tabayyun/services/rate_limits.py:68-78 | waiting the returned seconds (Retry-After, section 10.2.3 of RFC 9110) reaches a later window, and one second less does not suffice on its own |
| `RateLimits.TwoWindows` | api/src/tabayyun/services/rate_limits.py:68-72 | an interval as long as the window meets only two neighbouring windows |
| `RateLimits.RateLimiter.Hit` | api/src/tabayyun/services/rate_limits.py:85-105 | counts the request, also a refused one, in the window of `now`, which starts at a multiple of its length, allows it while within the limit, and names the least whole number of seconds, at least one, after which that window has ended |
| `RateLimits.RateLimiter.Prune` | api/src/tabayyun/services/rate_limits.py:108-113 | keeps exactly the windows that started at most 86 400 seconds before, with their counts, and says how many it deleted |
| `RateLimits.CountersExact` | api/src/tabayyun/services/rate_limits.py:85-113 | over every run pruning never resets a window that can still be hit: its counter is the number of its hits |
| `RateLimits.AllowedIffBelowLimit` | api/src/tabayyun/services/rate_limits.py:102 | a request is allowed if and only if fewer than `limit` requests hit its window before it |
| `RateLimits.WindowAllowsLimit` | api/src/tabayyun/services/rate_limits.py:33-39 | of the requests of a fixed window exactly the first `limit` are allowed |
| `RateLimits.IntervalAllowsTwiceLimit` | api/src/tabayyun/services/rate_limits.py:33-39 | any interval as long as the window allows at most `2 * limit` requests |

## Left out

- Sweep.MergedCoverage: equality with the coverage is stated for windows no longer than `i64::MAX` nanoseconds, because it fails in every longer one; there the contract only says what the saturating loop computes.
- Score.ScoreWindow: its window is given; `score`, which takes the union of the finding windows, is not modelled.
- ScoreLaws.OneSpanContributesItsImpact: for impacts of at most 1, since a larger one is clamped to 1.
- ScoreMeaning.ImpactMeans: for windows no longer than `i64::MAX` nanoseconds, as `Sweep.MergedCoverage`, and impacts that are not negative.
- ScoreMeaning.OneFindingScores: for impacts of at most 1, since a larger one is clamped to 1.
- EpisodeMeaning.EpisodesShow: for bin starts at least one positive grid step apart, as an alignment grid has them; `Episodes.FindEpisodes` holds for all timestamps.
- Align.Align: the expected interval of every member is an argument; the modal interval that replaces missing metadata is not modelled.
- Align.Regularise: counts are unbounded where the source uses 32-bit counters.
- Cache.WriteThenReadAll: for a frame with samples; an empty frame writes nothing, so its ingest column is not remembered.
- Cache.ParquetCache.Write: the stamp is an argument, as `Stamps` specifies it; a failing or partial upload is not modelled.
- Stamps.StampsDistinctAndOrdered: for runs in which no exchange finds the counter at `i64::MAX`, because it fails in others (`Stamps.FullCounterTies`).
- Fetching.YoungIsLeft: for gaps and a longest span of whole microseconds, as the planner's inputs are (`Coverage.GapsAligned`); `Fetching.Fetch` needs no alignment.
- Fetching.Fetch: one pass over the plan in which every call ends; a call that stops the fetch is one that reports all of its points, and those of the calls after it, as failed. Rows written and error texts are not modelled.
- GapBreaks.NoLineAcrossGap: for a limit of at least one nanosecond, because it fails for every smaller one (`GapBreaks.NoLineAcrossGapIff`).
- Floating-point rounding: sums, means, ratios, scores and `timedelta` seconds are exact reals, NaN is one value, and the casts of huge floats to integers do not saturate.
- Parquet and Arrow encoding, object stores, the endpoint and bucket checks, read counters and error texts: parts store and yield rows, statistics are true bounds.
- `bucket_of`: any function of the series id, which is all the cache relies on.
- Series metadata other than the id, and the conversion of frames to record batches.
- `m4`, whose bin edges are floating point, `modal_interval`, `snap_to_nice`, `acf_at` and `detect`.
- The products of `bin_of` and `bin_start` are exact; for more than 2^63 buckets the source's 128-bit products could overflow.
- Metric and score rows of a report, listing and pagination of findings, and organisations (a workspace stands for both).
- Order of rows among equal (window start, creation time) in the candidate query: any order the database may choose satisfies the contract.
- The database-failure branch of the rate limiter, which allows the request, and the counting of deleted rows by the driver.
- The pacer, the fetch engine around the plan, connectors, routers, sign-in, mail, migrations and the web application.
