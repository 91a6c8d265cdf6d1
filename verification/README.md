# Verified model of the feature store

The repository streams exchange fills through an in-memory feature engine and
pushes the features, as asynchronous blind upserts, into keyed tables that an
inference step reads. This project models that whole path in Dafny and proves
what it keeps:

    fills -> engine -> write log -> pipeline -> tables -> reads -> score

Prices, sizes and notionals are exact reals, timestamps are unbounded integers.
Nothing is assumed about the sign of a price or size except where a bound needs
it (`Fills.NonNegative`: every notional is at least 0).

## How the proofs are organised

- `Seqs`, `Reals`, `Dicts`, `Fills`: streams that grow at the end, Python dictionaries
  with their insertion order, fills and day files.
- `FeatureSpec`: every feature as a batch definition over a whole history. No
  running state.
- `FeatureEngine`: the classes of `features.py` with the fields they mutate.
  Each object carries, as ghost state, the fills it absorbed; its invariant says
  that its fields are the batch features of exactly those fills.
- `Windows`, `Lifetimes`, `Streams`, `Conservation`, `Symmetry`: which bucket is
  open, when it closes, what is dropped; order independence; nesting of windows;
  conservation of volume, signed volume, PnL and fill counts between the feature
  groups; buy/sell symmetry.
- `Positions`, `Bounds`: average-cost accounting; ranges of bucket features.
- `Tables`, `Convergence`: the ordered write log, the rows that each table should
  hold, what the tables hold at any moment of a run, and why every schedule of
  flushes and every crash followed by a rerun leaves exactly the expected rows.
- `Writer`, `Pipelines`: the semaphore-gated pipeline as interleaved steps of a
  caller thread, callback threads, a last-writer-wins store, and processes that
  may die; and the pipeline object, whose methods perform those steps and give
  way to an arbitrary environment in between.
- `Consumer`: the consumer's loop, over the engine and the pipeline.
- `Scorer`, `Pacing`, `Sharding`, `SchemaSplitter`: score ranges, replay pacing,
  load-generator shards, the schema splitter.
- `Columns`: what every stored column means on the fills' own columns, with every
  constant written out, up to the rows of the tables.
- `Reads`: what newest-first reads return, after a flush and between flushes, and
  the scores and rate ratios computed from them.
- `EndToEnd`: the parts composed.

## Assumptions about what cannot be seen

- The store resolves two rows of one key by issue order (`cql/schema.cql:14`
  calls it last writer wins); landings may happen in any order, at any time after
  issue, also after the process that issued them has died.
- `execute_async` does not raise; each request gets exactly one callback, and a
  success callback means that the row has landed.
- Clock readings are inputs; sleeps take exactly as long as asked; any
  non-negative delay may pass anywhere else.
- `math.exp` is a positive, strictly increasing function that is 1 at 0.

## Where the code falls short of a plausible claim

- Ingest pacing. Between two emissions the replayed data runs ahead of the wall
  clock by at most one second, except when counted from the first fill: that one
  is emitted whenever it arrives, while the schedule starts before the loop. At
  each speed the claim holds from the first fill on exactly when the start-up
  delay is at most one second (`Pacing.StartupCondition`, `Pacing.LateStartBreaksBound`).
- Volume spike. Snapshots of one engine state have a 1m/1h rate ratio of at most
  60, but closes are written at once and open buckets only by a flush, so between
  flushes a read can pair a minute of now with an older hour, or with none. The
  ratio read stays within 60 exactly until a minute of the coin closes after the
  last flush, and from then on exactly while the newest closed minute has no more
  volume than the hour row (`Reads.RatioBetweenFlushes`). It can fail before the
  first flush and again after every one (`Reads.MixedReadExceedsSixty`,
  `Reads.StaleHourExceedsSixty`).
- `drain(m)` with more than `max_inflight` permits never returns
  (`Writer.OversizedDrainIsStuck`), and after a full drain `count + errors` may
  still lag the issued requests, because callbacks release before they count
  (`Writer.CountersCanLagDrain`).
- `opens` and `closes` count taker and maker fills, and the load generator
  shards by row index and not by `hash(addr)` as its header says; `gross_volume`
  sums `px * sz` without the absolute value of `cql/schema.cql:85`, and the raw
  partition `time_bucket` is the start of its ten seconds and not their number
  (`cql/schema.cql:105`). The model follows the code.

## Model

| member | source | states |
|---|---|---|
| Fills.DayFiles | src/feature_store/replay.py:57-59 | a prefix of the sorted files: all of them without a limit or with 0, at most a positive limit, all but the last files for a negative one |
| Fills.IterFills | src/feature_store/replay.py:69-82 | yields a prefix of the concatenated day files; max_fills is only looked at after a fill, so any negative value yields one |
| Fills.FillColumns | src/feature_store/replay.py:77-79 | each yielded fill carries its row's columns; a missing PnL is 0 and a missing taker flag false |
| Fills.ConcatenationIsTimeOrdered | src/feature_store/replay.py:72-73 | sorted, disjoint and ordered day files give a stream in global timestamp order |
| FeatureEngine.WalletCoinState.Update | src/feature_store/features.py:44-62 | position, entry price, PnL, count and last time stay the batch features of all fills absorbed |
| FeatureEngine.NextEntryIsWeighted | src/feature_store/features.py:49-58 | the code's average over magnitudes is the average-cost price over signed sizes, on longs and shorts |
| FeatureEngine.WalletState.Update | src/feature_store/features.py:78-88 | all wallet totals stay the batch sums over the wallet's fills |
| FeatureEngine.Bucket.Add | src/feature_store/features.py:124-134 | volume, taker sides and the flow dictionary, with its key order, stay the batch aggregate of the bucket's fills |
| FeatureEngine.SnapshotIsBatch | src/feature_store/features.py:136-159 | a live bucket's snapshot, joined with the wallet dictionary, is the batch snapshot of its fills |
| FeatureEngine.CoinWindowAggregator.Touch | src/feature_store/features.py:178-189 | one turn of the window loop: afterwards the bucket is the open one of the longer history, and a close reports the batch snapshot of the old one |
| FeatureEngine.CoinWindowAggregator.Update | src/feature_store/features.py:173-190 | for any arrival order, every open bucket starts at the floor of the coin's newest time and holds every fill so far in it; the closed list is exactly the buckets passed |
| FeatureEngine.CoinWindowAggregator.SnapshotListIsBatch | src/feature_store/features.py:192-195 | the open snapshots are the batch snapshots of the open buckets, in dictionary order |
| FeatureEngine.FeatureEngine.Apply | src/feature_store/features.py:206-218 | all three groups absorb the same fill; wallets are updated before windows close |
| FeatureEngine.FeatureEngine.SnapshotListIsBatch | src/feature_store/features.py:220-222 | the engine's open snapshots are a function of its fill history alone |
| FeatureEngine.FeatureEngine.ActiveCoins | src/feature_store/dashboard.py:223 | a third of the open buckets is exactly the number of distinct coins |
| Positions.CashIsCostLessGains | src/feature_store/features.py:44-62 | over every fill sequence, signed cash is position times entry price less the average-cost gains on closed size |
| Positions.EntryWithinLeg | src/feature_store/features.py:47-58 | an open position's entry price lies between two prices of fills that opened, flipped into or grew the current leg |
| Positions.EntryAfterFill | src/feature_store/features.py:44-59 | on the side and size columns: a fill on the side held is averaged in by size, one against it keeps the entry price, and the part beyond it opens a leg at its own price |
| Windows.OpenTsSnoc | src/feature_store/features.py:176-189 | a fill moves the open bucket of its own coin forward, never back, and no other |
| Windows.NothingAbove | src/feature_store/features.py:183-188 | no fill lies in a bucket newer than the open one |
| Windows.BucketSpan | src/feature_store/features.py:176-179 | a bucket starts at a multiple of 60, 300 or 3600 seconds and spans exactly that many |
| Windows.OpenBucketSpan | src/feature_store/features.py:176-189 | the open bucket of a coin spans the second of its newest fill |
| Windows.BucketHolds | src/feature_store/features.py:176-179 | a bucket's fills are exactly its coin's fills in those seconds, in stream order |
| Streams.OpenSnapshotsAreOrderIndependent | src/feature_store/features.py:173-195 | any two arrival orders of the same fills leave the same open snapshots, hhi, large and smart flow included |
| Streams.WeightPermuted | src/feature_store/features.py:22-30 | a wallet's weight does not depend on the order of its fills |
| Lifetimes.RowFillsAreRetained | src/feature_store/features.py:181-189 | a bucket collects exactly the fills of its slot that were not late on arrival |
| Lifetimes.TimeOrderedDropsNothing | src/feature_store/features.py:187-188 | on a time-ordered stream no window drops a fill |
| Lifetimes.LateMeans | src/feature_store/features.py:187-188 | a fill is dropped exactly when its coin has already traded in a later minute, five minutes or hour |
| Lifetimes.LifetimeEndsAtOnce | src/feature_store/features.py:183-186 | a bucket closes with the first fill of its coin in a later bucket |
| Lifetimes.ClosedExactlyWhenPassed | src/feature_store/features.py:183-186 | over a whole run a bucket is closed if and only if it collected a fill and was passed, with the batch snapshot of that moment |
| Lifetimes.ClosesInOrder | src/feature_store/features.py:183-186 | each coin and window closes buckets in strictly increasing order, so none twice |
| Lifetimes.OpenUntilClosed | src/feature_store/features.py:183-186 | once a coin is traded, its bucket of a window stays the open one exactly until the next close |
| Conservation.OpenBucketsNest | src/feature_store/features.py:18 | even after late fills, an open bucket is cut out of the open bucket of any longer window |
| Conservation.OpenSnapshotsMonotone | src/feature_store/features.py:173-195 | volume, both taker sides and active wallets grow from 1m to 5m to 1h |
| Conservation.RowIsSumOfMinutes | src/feature_store/features.py:173-190 | on a time-ordered stream a bucket is the sum of its one-minute buckets, for any measure of fills |
| Conservation.RowSnapshotIsSumOfMinutes | src/feature_store/features.py:136-155 | so are the volume and taker columns of its row |
| Conservation.VolumeIsConserved | src/feature_store/features.py:173-222 | for any arrival order, the volumes of all snapshots of a window that the engine closed and of its open ones, plus what the window dropped, equal the gross volume of all wallets |
| Conservation.NoVolumeMissingOnTime | src/feature_store/features.py:173-190 | on time-ordered streams nothing is missing |
| Conservation.SignedVolumeIsConserved | src/feature_store/features.py:83 | a wallet's signed volume is its net flow over all buckets plus its dropped fills |
| Conservation.WalletIsSumOfPositions | src/feature_store/features.py:206-218 | a wallet's PnL and fill count are the sums over its (wallet, coin) entries |
| Conservation.WalletTotals | src/feature_store/features.py:84-87 | opens and closes add up to total fills; net volume never exceeds gross |
| Conservation.BucketWalletsAreKnown | src/feature_store/features.py:148 | every address with flow in a bucket has a wallet entry, so the weight lookup never misses |
| Symmetry.PositionMirror | src/feature_store/features.py:44-62 | with every side exchanged the position is opposite and its entry price and PnL are the same |
| Symmetry.OpenSnapshotMirror | src/feature_store/features.py:136-159 | with every side exchanged open snapshots swap taker sides, negate imbalance and flows, keep volume and hhi |
| Symmetry.OneSidedIsDirectional | src/feature_store/features.py:95-110 | a wallet that only buys or only sells is directional as soon as it has volume |
| Symmetry.TakersAreNotMakers | src/feature_store/features.py:104-107 | a wallet without maker fills is never a market maker and has positive weight |
| Bounds.HhiRange | src/feature_store/features.py:140-141 | with positive gross flow, hhi lies between 1/active_wallets and 1 |
| Bounds.HhiTimesGross | src/feature_store/features.py:140-141 | hhi times the square of gross flow is the sum of the squared wallet flows |
| Bounds.HhiIsOne | src/feature_store/features.py:140-141 | with positive gross flow hhi is 1 if and only if one wallet has all the flow |
| Bounds.LargeFlowWithinGross | src/feature_store/features.py:142 | large flow never exceeds gross flow |
| Bounds.SmartFlowWithinGross | src/feature_store/features.py:146-148 | nor does smart flow, for any weights in [0, 1] |
| Bounds.WeightInUnit | src/feature_store/features.py:28-30 | every weight is in [0, 1] |
| Bounds.ArchetypeThresholds | src/feature_store/features.py:95-110 | when a wallet is a market maker or directional, in terms of volumes and counts; only market makers weigh nothing, only profitable directional wallets weigh 1 |
| Bounds.WeightValues | src/feature_store/features.py:22-30 | the weight of every archetype, with and without profit |
| Bounds.GrossWithinVolume | src/feature_store/features.py:132-140 | netting each wallet's buys and sells never exceeds the bucket's volume |
| Bounds.TakerSidesWithinVolume | src/feature_store/features.py:125-131 | both taker sides are non-negative and together within volume |
| Bounds.TakerSidesMean | src/feature_store/features.py:125-138 | the taker sides add up to the takers' notional and differ by its signed sum; imbalance is their ratio |
| Bounds.ImbalanceSign | src/feature_store/features.py:138 | the sign of the imbalance says which taker side is larger |
| Bounds.FlowsAddUp | src/feature_store/features.py:132-142 | wallet flows add up to the bucket's net notional, split between large and other wallets |
| Bounds.SnapshotInRange | src/feature_store/features.py:136-159 | every snapshot of any bucket of non-negative fills satisfies all the ranges at once |
| Columns.PairTable | src/feature_store/consumer.py:70-74 | in the tables a pair row holds bought less sold size, the PnL sum, the fill count and the last time of the pair's fills, and exists exactly for traded pairs |
| Columns.OneWayPosition | src/feature_store/features.py:44-59 | buying only leaves a long and selling only a short, of the summed size at the size-weighted average price |
| Columns.WalletTable | src/feature_store/consumer.py:60-65 | a wallet row holds PnL, fill count, notional, bought less sold notional in magnitude, the maker share as churn, the archetype and the last time, on the wallet's own fills |
| Columns.ChurnMeans | src/feature_store/features.py:90-93 | churn times the number of fills is the number of maker fills, and 0 exactly when there is none |
| Columns.WeightColumns | src/feature_store/features.py:22-30 | a wallet's weight read off its row; an unknown wallet weighs nothing |
| Columns.BucketTable | src/feature_store/features.py:136-190 | for any arrival order a bucket row describes exactly the coin's fills in its seconds that were not late, column by column |
| Columns.BucketColumns | src/feature_store/features.py:136-159 | volume, taker sides, imbalance, distinct wallets, hhi, large flow from 100000 on and weighted flow, on the side, price, size and taker columns |
| Columns.RawTable | src/feature_store/consumer.py:84-94 | the newest fill of each coin, time and address is stored with its own columns, in the ten seconds it falls in |
| Tables.ApplyAllLookup | cql/schema.cql:13-17 | last writer wins: after a log of blind upserts a key holds the row of its last write, or what it held if there is none |
| Tables.ExpectMonotone | src/feature_store/consumer.py:67-103 | a row once expected stays expected as the stream grows |
| Convergence.FillWritesAreCurrent | src/feature_store/consumer.py:70-94 | every write caused by a fill carries the row that its key should have at that moment |
| Convergence.FlushWritesAreCurrent | src/feature_store/consumer.py:52-65 | so does every write of a flush |
| Convergence.FlushOrder | src/feature_store/consumer.py:52-65 | a flush writes the three buckets of every coin and then every wallet, each once, in order |
| Convergence.FillOrder | src/feature_store/consumer.py:70-94 | a fill writes its pair, then the buckets it closed from the shortest window on, then its raw row |
| Convergence.FillKeepsFresh | src/feature_store/consumer.py:67-94 | between flushes, once issued writes have landed, every row is right as of some earlier moment, and written-through rows are right now |
| Convergence.FlushMatches | src/feature_store/consumer.py:52-65 | a flush makes every row of every table right |
| Convergence.TablesBetweenFlushes | src/feature_store/consumer.py:67-103 | the whole tables at any moment under any flush schedule, once issued writes have landed: written-through rows are those of now, wallets and open buckets exactly those of the last flush |
| Convergence.RunMatches | src/feature_store/consumer.py:67-112 | from empty tables a completed run leaves exactly the expected rows, whatever its flush schedule |
| Convergence.FlushScheduleIsIrrelevant | src/feature_store/consumer.py:100-112 | two runs that differ only in when flushes fire leave the same tables |
| Convergence.CrashedRunIsOwned | src/feature_store/consumer.py:67-112 | a run on any prefix, cut after any write, only leaves rows whose keys the full stream owns |
| Convergence.RerunConverges | src/feature_store/features.py:3-5 | over the remains of any crashed runs, a full rerun gives the tables of one run |
| Convergence.CrashThenRerun | src/feature_store/features.py:3-5 | in particular after one run on any prefix stopped at any point |
| Convergence.ReadReturnsOpenSnapshot | src/feature_store/statements.py:34-36 | after a flush the newest-first read of a coin and window returns the open bucket's snapshot |
| Convergence.ReadOfUnknownCoinIsEmpty | src/feature_store/statements.py:34-36 | a coin never traded has no row to read |
| Convergence.RowsBetweenFlushes | src/feature_store/consumer.py:76-82 | between flushes, once issued writes have landed, rows older than the open bucket are final, and the open bucket's row never overstates volume |
| Consumer.Flush | src/feature_store/consumer.py:52-65 | issues the open snapshots and then every wallet row, in dictionary order |
| Consumer.Consume | src/feature_store/consumer.py:68-94 | one fill's writes: pair row, closed buckets, raw sink |
| Consumer.Run | src/feature_store/consumer.py:37-113 | the loop interleaved with the pipeline, against any environment that answers: for any clock readings exactly the run log of the flush times they imply is executed, in order, and drained; every 97th key is sampled up to the cap |
| Consumer.FlushesAreSpaced | src/feature_store/consumer.py:100-103 | a flush fires after a fill if and only if flush_secs have passed since the one before, or since the start |
| Consumer.SampleColumns | src/feature_store/consumer.py:96-98 | the sample is the keys of the 97th, 194th, ... fill, at most 50000 |
| Writer.ExecKeepsInv | src/feature_store/writer.py:29-55 | every interleaving keeps permits, counters, drain state and store sound |
| Writer.PermitsAndRequestsAccountedFor | src/feature_store/writer.py:29-48 | free and held permits and requests in flight add up to max_inflight; issued requests are counted, in flight, or between release and count |
| Writer.DrainWaits | src/feature_store/writer.py:50-55 | drain(m) passes its acquire loop only with at most max_inflight - m in flight, none when equal, and never when m is larger; counters then lag by exactly the uncounted callbacks |
| Writer.IdlePermits | src/feature_store/writer.py:52-55 | once the caller is idle again, all permits not held by requests are free |
| Writer.DrainOnlyProgresses | src/feature_store/writer.py:50-55 | during a drain every possible step shortens what remains, so it ends in every interleaving |
| Writer.DrainNeverDeadlocks | src/feature_store/writer.py:50-55 | while m is at most max_inflight some step is always possible |
| Writer.OversizedDrainIsStuck | src/feature_store/writer.py:52-53 | a drain of more permits than exist never leaves its acquire loop |
| Writer.CountersCanLagDrain | src/feature_store/writer.py:36-46 | a run in which drain returns before a completed request is counted |
| Writer.StoreRefinesSequential | src/feature_store/writer.py:34-48 | in every interleaving the store shows the landed writes applied one by one in issue order |
| Writer.QuietStoreIsSequential | src/feature_store/writer.py:29-55 | once all requests have given their permits back without failures, the tables are the executed writes applied in order, over what dead processes left |
| Writer.SettledKeyIsSequential | src/feature_store/writer.py:29-48 | whatever else is in flight, a key whose executed writes have landed shows what the executed writes applied in order would leave |
| Writer.FewWritesBehind | src/feature_store/writer.py:29-36 | without failures at most max_inflight executed writes have not landed, at any step |
| Pipelines.Pipeline.Execute | src/feature_store/writer.py:29-48 | against any environment that answers, execute returns having issued exactly its write, after all earlier ones |
| Pipelines.Pipeline.Drain | src/feature_store/writer.py:50-55 | drain returns against any such environment with all permits given back, at most max_inflight - m requests in flight, and none when m is max_inflight |
| Pipelines.Pipeline.PushAll | src/feature_store/consumer.py:112-113 | a list of writes is executed in order and is quiet after the full drain |
| Pipelines.PromptAnswers | src/feature_store/writer.py:36-48 | environments that answer every request with success exist |
| Scorer.SigRises | src/feature_store/scorer.py:71-74 | the squash rises strictly and is one half at its centre |
| Scorer.RatioMeans | src/feature_store/scorer.py:12-29 | the rate ratio times the hour's volume is 60 times the minute's; an empty hour counts 0.000000001 per second |
| Scorer.VolSpikeMeans | src/feature_store/scorer.py:27-29 | vol_spike is the logistic of the ratio around 3, where it is one half |
| Scorer.ScoreRisesWithRatio | src/feature_store/scorer.py:41-46 | all else equal the score rises strictly with the ratio, by 0.35 of the spike's rise, whatever the 5m row |
| Scorer.SpikeOnly | src/feature_store/scorer.py:31-46 | without buy-side imbalance, concentration and large buying the score is 0.35 of the spike |
| Scorer.ImbalanceCounts | src/feature_store/scorer.py:31-46 | imbalance adds 0.30 per unit on the buy side and nothing on the sell side |
| Scorer.HhiCounts | src/feature_store/scorer.py:34-46 | hhi adds one for one up to 0.2 and nothing beyond |
| Scorer.LargeFlowCounts | src/feature_store/scorer.py:37-46 | large buying adds 0.15 of its share of the volume, large selling nothing |
| Scorer.LabelsMean | src/feature_store/scorer.py:55-56 | the three labels, if and only if the score is at least 0.6, at least 0.4, or less |
| Scorer.EngineScore | src/feature_store/scorer.py:18-57 | on rows of any buckets of non-negative fills: every component and the score lie in [0, 1]; flow with at most five active wallets means concentration exactly 1; the upper clamp of big_flow and both clamps of smart_norm change nothing; without net taker buying and large buying the label is never unusual-accumulation |
| Scorer.ClampsNeverBind | src/feature_store/dashboard.py:332-336 | the upper clamp of big_flow and both clamps of smart_norm change nothing |
| Scorer.RatioWithinSixty | src/feature_store/scorer.py:27-29 | the rate ratio is within 60 if and only if the minute's volume is within the hour's |
| Scorer.OneStateRatio | src/feature_store/scorer.py:27-29 | which holds for the snapshots of one engine state |
| Scorer.SignalFollowsSmartMoney | src/feature_store/dashboard.py:337-343 | LONG needs net smart buying and SHORT net smart selling |
| Scorer.SignalMeans | src/feature_store/dashboard.py:332-343 | when the dashboard signals LONG and SHORT, as if-and-only-ifs on score, smart flow and volume |
| Pacing.PaceIngest | src/feature_store/dashboard.py:148-169 | the ingest loop emits each fill at the moment the schedule defines, through sleeps, lateness and resyncs, and its emissions keep the bound of DataNeverRunsAhead |
| Pacing.DataNeverRunsAhead | src/feature_store/dashboard.py:160-167 | for varying positive speeds, data runs ahead of the wall clock by at most a second, or the start-up delay from the first fill |
| Pacing.PacedTick | src/feature_store/dashboard.py:160-167 | a fill goes out at its slot or on arrival; only one more than a second late restarts the schedule |
| Pacing.ScheduleKept | src/feature_store/dashboard.py:160-167 | the schedule keeps pace with the data if and only if no fill is more than a second late, and otherwise slips by more than a second |
| Pacing.PaceBoundHolds | src/feature_store/dashboard.py:160-167 | at a constant speed, data time is at most speed times (wall time plus one second) |
| Pacing.LateStartBreaksBound | src/feature_store/dashboard.py:125-126 | at every positive speed a start-up delay above one second breaks that bound |
| Pacing.StartupCondition | src/feature_store/dashboard.py:125-167 | at each positive speed the bound holds from the first fill on, over all runs with a given start-up delay, if and only if that delay is at most one second |
| Pacing.PaceReplay | src/feature_store/replay.py:95-105 | each fill is emitted on arrival or when its offset from the first has passed |
| Pacing.ReplayLateness | src/feature_store/replay.py:95-105 | exactly how late each fill is: the latest, over all earlier fills, of that fill's slot plus the delays since |
| Pacing.ReplayNeverAhead | src/feature_store/replay.py:101-104 | the replayer is never ahead of the data, measured from its start |
| Pacing.ReplayLagIsDelays | src/feature_store/replay.py:95-105 | on a time-ordered stream a fill is at most the sum of all delays so far behind its slot |
| Sharding.LoadShard | src/feature_store/loadgen.py:52-64 | worker wid's j-th row is row j * procs + wid of the concatenated files, to the end, for any file lengths |
| Sharding.ShardColumns | src/feature_store/loadgen.py:57-61 | each kept row has its columns, its size signed by its side |
| Sharding.ShardsPartition | src/feature_store/loadgen.py:48-51 | every row is at one place of one shard |
| Sharding.ShardsAreBalanced | src/feature_store/loadgen.py:48-51 | shards differ in size by at most one row |
| SchemaSplitter.StripKeepsAll | src/feature_store/apply_schema.py:15-16 | the regex removal keeps exactly the characters with no two dashes before them on their line |
| SchemaSplitter.ItemsAreStatements | src/feature_store/apply_schema.py:17-20 | each item is trimmed, contains no comment, and has one semicolon, its last character |
| SchemaSplitter.SplitterIsStable | src/feature_store/apply_schema.py:14-20 | joining the output and splitting again gives the same list, for every text |
| SchemaSplitter.StatementsInText | src/feature_store/apply_schema.py:14-20 | outside comments the text is the statements in order, with only white space and semicolons around them and a semicolon between any two |
| SchemaSplitter.SpacesMean | src/feature_store/apply_schema.py:18 | blanks, tabs and line ends are trimmed; letters, digits and punctuation are not |
| SchemaSplitter.SplitterKeepsText | src/feature_store/apply_schema.py:14-20 | the output carries exactly the significant characters outside comments, in order |
| EndToEnd.CrashedRunsAreOwned | src/feature_store/features.py:3-5 | whatever crashed processes left in flight only writes keys that the full stream owns |
| EndToEnd.StoreRowsAreDated | src/feature_store/consumer.py:67-113 | at every step of the protocol, with writes in flight and crashed processes, each visible row is the expected row as of some moment of the stream |
| EndToEnd.StoreNeverOverstates | src/feature_store/consumer.py:76-82 | so a visible bucket row never holds more volume than the bucket ends with, in any interleaving |
| EndToEnd.SettledRowsAreExact | src/feature_store/consumer.py:67-103 | between two fills, with other writes in flight, a row whose writes have landed is exactly the one of now, or of the last flush for wallets and open buckets |
| EndToEnd.PipelinedRunMatches | src/feature_store/consumer.py:67-113 | after any number of crashed runs whose writes may land at any time, a run that executed the whole log in any interleaving leaves exactly the expected rows once quiet without failures |
| EndToEnd.ConsumeThroughPipeline | src/feature_store/consumer.py:37-113 | the consumer process on top of whatever crashed processes left, against any environment that answers: the tables hold exactly the expected rows when it returns, if no request failed, and always if the environment reports no errors |
| EndToEnd.ConsumeIntoEmptyTables | src/feature_store/consumer.py:31-113 | a new process over empty tables, in an environment that answers without errors, always ends with exactly the expected rows |
| EndToEnd.TablesConserveVolume | cql/schema.cql:55-90 | the volume column of each window plus what it dropped equals the gross volume column of the wallets |
| Reads.TableScoreIsEngineScore | src/feature_store/api.py:45-61 | after a flush the score of the rows read equals the score of the live engine, is in range, and its rate ratio is at most 60 |
| Reads.ReadIsVisibleRow | src/feature_store/statements.py:34-36 | what the newest-first read returns at any moment under any flush schedule: the open bucket as of the last flush if it is still open, or else the newest closed bucket |
| Reads.RatioBetweenFlushes | src/feature_store/dashboard.py:325-331 | the rate ratio read is at most 60 if and only if no minute of the coin has closed since the last flush, or the newest closed minute has no more volume than the visible hour row |
| Reads.UnflushedRatioIsUnbounded | src/feature_store/dashboard.py:325-331 | before the first flush of a coin's first hour, a closed minute is read against no hour row and the ratio exceeds 60 |
| Reads.MixedReadExceedsSixty | src/feature_store/dashboard.py:325-331 | two fills a minute apart already do so |
| Reads.StaleHourExceedsSixty | src/feature_store/dashboard.py:325-331 | after a flush, with an hour row present, three fills make the ratio read 6060 |

## Left out

- Convergence.FillKeepsFresh: is about tables in which every issued write has landed; with writes in flight `EndToEnd.StoreRowsAreDated` holds for all rows, and `EndToEnd.SettledRowsAreExact` for those whose writes have landed.
- Convergence.RowsBetweenFlushes: likewise; while a close is in flight an older row may not be final, and `EndToEnd.StoreNeverOverstates` still holds.
- Reads.RatioBetweenFlushes: reads tables in which every issued write has landed, and both rows at one moment.
- Threads: each protocol step is atomic, so Python's locking inside a step is not captured; one caller thread per pipeline, as in the source.
- Latencies: the sampled write latencies, percentiles, throughput reports and the read benchmark are measurement.
- Float rounding: `round(..., 4)`, `OverflowError` in the squash and rounding of sums are idealised away by exact reals.
- Cluster and driver: setup, consistency levels, routing, retries, compaction and row expiry; only keyed upserts, last writer wins and newest-first order remain.
- Rows of other data: tables start empty or hold remains of runs on prefixes of the same stream.
- Dashboard ingest writes: it issues the same pair and window writes as the consumer, without wallet rows; only its pacing and coin count are modelled.
- Write blaster: it overwrites pair rows with values that no engine computed.
- Missing wallet dictionary: `wallets=None` is the empty dictionary, for which every weight is 0.
- Sampled keys of the load generator: a bounded sample for the read benchmark.
- Decoding and sorting of day files: a day is a given sequence of rows.
- Web endpoints, websocket, page, process start and stop: input, output and user interface.
- Progress reports and summaries of the consumer: printed output.
- Replay at zero speed: no pacing, the stream itself.
