# TelecomOptimizer derived-metrics pipeline, modelled in Dafny

This project models the computing core of `TelecomOptimizer` in `CAT_2.py`. The
program holds a fixed table of five service components. Each row gives CPU,
memory, own latency, throughput, reliability, requests per second and an
optional dependency. The optimizer derives a chain of metrics from the table
and stores each one in its `results` dictionary:

- **Stage A.** For every row, the total latency along its dependency chain,
  computed by a memoised recursion. The dominant component is the first row
  with the largest total.
- **Stage B.** The consensus threshold, 90% of the largest total. A flag says
  whether every row's *own* latency is within it.
- **Stage C.** The contention rate, mean(latency · load) / mean(latency).
- **Stages D and E.** The elasticity and the throughput bound
  min(1150, quotient).
- **Stage F.** A heap-based ranking of the rows by
  theta = min(throughput, bound · reliability / 100).
- **Stage G.** A validation chain that reports at most one violation.

Modules, one per concern:

- `Records` (`records.dfy`): the row datatype, lookup by name, and the fixed
  table.
- `Chains` (`chains.dfy`): dependency chains, their depth, and the chain sum
  that the resolver is proved against.
- `Metrics` (`metrics.dfy`): first arg-max, threshold and its flag,
  contention rate, the throughput cap and theta.
- `Ranking` (`ranking.dfy`): the heap tuples and Python's tuple and string
  order, the push loop, the pop, and the pop loop.
- `Results` (`results.dfy`): the store's keys and values.
- `Validation` (`validation.dfy`): the stage G rules.
- `Optimizer` (`optimizer.dfy`): two classes. `TelecomOptimizer` holds the
  table, the memo and the `results` field. `LatencyMemo` is the memo
  dictionary.
- `FixtureFacts` (`fixture.dfy`): what the stages give on the fixed table.

Behaviour kept as the code has it:

- **The memo is shared.** It is the mutable default argument of
  `total_latency`, so one dictionary serves every call on every optimizer. It
  is therefore its own object (`LatencyMemo`), handed to each optimizer.
- **The schedule has ⌈n/2⌉ entries.** The pop loop
  `[heapq.heappop(pq) for _ in pq]` walks the list by position while every pop
  shortens it. It stops after ⌈n/2⌉ pops, so the fixed table yields 3
  entries, not 5.
- **Ties on theta follow the heap tuple.** They are broken by the rest of the
  tuple: contended latency, then memory, then name, then row index. Table
  order does not decide them.

- **No cycle detection.** `total_latency` follows dependencies without
  checking for a cycle; the model requires every chain to end at a root.
- **The schedule is still determined.** Every row's tuple carries its row
  index, so no two tuples are equal. Whatever the heap layout, the pop loop
  yields the ⌈n/2⌉ smallest tuples in order, and only one sequence qualifies.

CPU, latency, requests and the total latencies are unbounded integers.
Memory and reliability are exact `real`s. Throughput is a whole number in the
table, but it is kept as a `real` because theta takes its minimum with a
real-valued cap. The threshold, the contention rate, the elasticity, the bound
and the heap-tuple fields are exact `real`s as well.

## Model

| member | source | states |
|---|---|---|
| `Records.Lookup` | CAT_2.py:43 | The row selected for a name has that name. |
| `Records.LookupFirst` | CAT_2.py:43 | The row selected is the first row with that name. None comes back exactly when no row has it, which is where the source's `iloc[0]` fails. |
| `Records.Fixture` | CAT_2.py:10-20 | The fixed table has five in-range rows with pairwise different names. |
| `Records.LookupOwnName` | CAT_2.py:43 | Every name of the table is found, at or before its own row. |
| `Chains.TotalLatencyEquation` | CAT_2.py:40-53 | total_latency(name) is the row's own latency when it has no dependency. Otherwise the dependency exists and the total is the own latency plus the dependency's total. |
| `Chains.DepthStep` | CAT_2.py:50 | The dependency a row names exists and sits one hop closer to the root, so the recursive call terminates. |
| `Chains.ChainSumIsPathLatency` | CAT_2.py:44-51 | The recursion's result is the sum of the own latencies of exactly the rows on the chain from the row to its root. |
| `Chains.Chain` | CAT_2.py:45-50 | The chain the recursion follows starts at the row, has depth + 1 rows, stays inside the table, and ends at a row whose dependency is None. |
| `Chains.ChainSumBounds` | CAT_2.py:50-51 | With positive latencies, a row's total is at least its own latency and strictly exceeds its dependency's total. |
| `Chains.CachedAlongChain` | CAT_2.py:47-52 | In a sound memo, a cached name has every component of its chain cached as well. |
| `Optimizer.LatencyMemo.constructor` | CAT_2.py:40 | The default `memo={}` starts out empty. |
| `Optimizer.TelecomOptimizer.constructor` | CAT_2.py:25-27 | A new optimizer holds the table and an empty results store, and uses the shared memo. |
| `Optimizer.TelecomOptimizer.TotalLatency` | CAT_2.py:40-53 | Returns the chain sum of the named row and keeps the memo sound: every entry holds its name's chain sum. A cache hit leaves the memo unchanged. Afterwards the name is cached, no entry is dropped, and every entry added names a row on the chain. |
| `Chains.MemoInsert` | CAT_2.py:47-52 | Caching a name's total once its dependency is cached keeps the memo sound. |
| `Metrics.FirstArgmax` | CAT_2.py:63 | `idxmax`: the position holds the largest value, and every earlier position holds a strictly smaller one. |
| `Metrics.Threshold` | CAT_2.py:78 | For a positive maximum the threshold lies strictly between 0 and the maximum total latency; a zero maximum gives 0. |
| `Metrics.Dominant` | CAT_2.py:61-64 | The dominant row has the maximum total latency, and it is the first row in table order that does. |
| `Optimizer.TelecomOptimizer.TotalLatencyColumn` | CAT_2.py:60-61 | The `apply` yields the total-latency column, one entry per row in row order. The memo stays sound, keeps its entries, and ends up holding every row's name. |
| `Optimizer.TelecomOptimizer.DependencyRecursion` | CAT_2.py:55-64 | Stores the total-latency column, with one entry per row in row order, and the dominant component's name. Nothing else changes. The memo grows, and every row's name ends up cached. |
| `Metrics.AllWithin` | CAT_2.py:79 | The flag is true iff every row's own latency is at or below the threshold. The scan stops at the first row above it. |
| `Optimizer.TelecomOptimizer.ConsensusRpc` | CAT_2.py:71-80 | Without `a_df` the result is a KeyError and the store is unchanged. Otherwise it stores threshold = 0.9 × the maximum of the stored column, which equals 0.9 × the maximum total latency. The returned flag is true iff every own latency is within that threshold. |
| `Metrics.ContentionRate` | CAT_2.py:91-93 | mean(latency·load) / mean(latency) equals Σ(latency·cpu/100) / Σ latency: the row count cancels. |
| `Metrics.WeightedSumBounds` | CAT_2.py:91-93 | On valid records, 0 ≤ Σ(latency·load) ≤ Σ latency, and Σ latency > 0 for a non-empty table. |
| `Metrics.ContentionRateInUnitInterval` | CAT_2.py:91-94 | On valid records the contention rate lies in [0, 1], so it can never exceed the 1.2 limit of the validation stage. |
| `Optimizer.TelecomOptimizer.ContentionModel` | CAT_2.py:86-94 | Stores the contention rate and nothing else, and the stored rate lies in [0, 1]. |
| `Optimizer.TelecomOptimizer.LatencyElasticity` | CAT_2.py:104-109 | Stores the given elasticity and nothing else. |
| `Metrics.CapBound` | CAT_2.py:125 | The throughput bound is at most 1150 and at most the raw quotient, and it equals one of the two. |
| `Optimizer.TelecomOptimizer.ThroughputOptimization` | CAT_2.py:119-126 | Without `elasticity` the result is a KeyError and the store is unchanged. Otherwise it stores min(1150, quotient(elasticity)) and nothing else. |
| `Metrics.Contended` | CAT_2.py:139-141 | The contended latency is never below the row's own latency when the power term is non-negative. |
| `Metrics.Theta` | CAT_2.py:142-143 | theta is at most the throughput and at most bound × reliability / 100, and it equals one of the two. |
| `Ranking.RowEntry` | CAT_2.py:139-144 | A row's heap tuple carries its index, name and memory, and −theta is at most the throughput and at most bound × reliability / 100. |
| `Ranking.EnqueueRows` | CAT_2.py:137-144 | The push loop queues exactly one tuple per row, in row order. Each tuple carries the row index and −theta. |
| `Ranking.PopMin` | CAT_2.py:145 | The pop removes one tuple that no tuple in the queue is smaller than. The rest of the queue is unchanged. |
| `Ranking.StrLessTransitive` | CAT_2.py:144 | Python's string order, the name field of the tuple, is transitive. |
| `Ranking.StrLessTotal` | CAT_2.py:144 | Any two distinct strings are ordered one way or the other. |
| `Ranking.EntryLessTransitive` | CAT_2.py:144 | Python's order on the heap tuples is transitive. |
| `Ranking.EntryLessTotal` | CAT_2.py:144 | The tuple order is irreflexive, and any two distinct tuples are ordered exactly one way. |
| `Ranking.DrainWhileIterating` | CAT_2.py:145 | The pop loop yields ⌈n/2⌉ tuples in non-decreasing order. Together with the tuples left behind they are the queue's contents, and no tuple left behind is smaller than one popped. |
| `Ranking.SortedScheduleOrder` | CAT_2.py:144-145 | Along the schedule theta never increases. Rows with equal theta come in order of contended latency, not table order. |
| `Optimizer.TelecomOptimizer.OptimizationLogic` | CAT_2.py:131-146 | Without `throughput_bound` the result is a KeyError and the store is unchanged. Otherwise it stores only the schedule: the ⌈n/2⌉ smallest tuples of the rows' heap tuples under the stored bound, in order. |
| `Results.NumberOr0` | CAT_2.py:160-162 | `results.get(key, 0)`: the stored number, or 0 when the key is absent. |
| `Validation.ViolationsAreFirstFailedRule` | CAT_2.py:157-163 | The chain reports at most one violation: the first failing rule in the priority order missing b, contention too high, extreme non-linearity. |
| `Validation.ValidExactly` | CAT_2.py:157-169 | The verdict is valid iff the threshold is present, contention (or 0) ≤ 1.2, and elasticity (or 0) ≤ 2.0. |
| `Validation.ContentionOutranksElasticity` | CAT_2.py:158-163 | A store that breaks both the contention and the elasticity rule reports only "contention too high". |
| `Validation.Violations` | CAT_2.py:157-163 | The chain yields at most one violation, one of the three messages. It is "missing b" exactly when the threshold is absent. |
| `Optimizer.TelecomOptimizer.ArchitectureValidation` | CAT_2.py:152-169 | Returns the chain's violation list and "valid" iff it is empty. A valid verdict names the stored dominant component, or "N/A". |
| `Optimizer.TelecomOptimizer.RunFullPipeline` | CAT_2.py:171-178 | After A to G every stage key holds a value fixed by the table and the opaque inputs; for the schedule, `Ranking.RowScheduleUnique` shows only one qualifies. On valid records the verdict is valid iff elasticity ≤ 2.0. |
| `Ranking.HalfDrainUnique` | CAT_2.py:145 | A queue without repeated tuples has exactly one sequence of ⌈n/2⌉ pops: the same tuples in the same order, whatever the heap layout. |
| `Ranking.RowScheduleUnique` | CAT_2.py:137-146 | Two schedules drawn from the same table, bound and power are equal, so two full runs store the same schedule. |
| `Ranking.SortedSameElemsEqual` | CAT_2.py:145 | Two sorted sequences without repeats that hold the same tuples are equal. |
| `Ranking.SubDistinct` | CAT_2.py:145 | Tuples popped from a queue without repeats contain no repeats. |
| `FixtureFacts.FixtureIsWellFormed` | CAT_2.py:10-20 | The fixed table meets the optimizer's invariant. Row i sits i hops from the root AuthCore. |
| `FixtureFacts.FixtureTotals` | CAT_2.py:11-18 | The fixed table's total latencies are 21, 48, 79, 117 and 161. |
| `FixtureFacts.FixtureDominantAndThreshold` | CAT_2.py:61-80 | On the fixed table CloudInference dominates with 161. The threshold is 144.9 and every own latency is within it. |
| `FixtureFacts.FixtureContention` | CAT_2.py:12-14 | On the fixed table the contention rate is 9718 / 16100. |

## Left out

- Console output: printing, centring, banners, `clear_line`, `flash_print` and its `time.sleep`, and screen clearing.
- The `main` and `get_back_choice` menu loops. Menu options 1 to 7 run prefixes of the stages; the model gives the stages as separate methods, plus the full run.
- Stage D's regression (`np.log`, `np.polyfit`): floating-point library numerics. The elasticity is an input of `LatencyElasticity`.
- Stage E's mean, population variance, square root and divisions: floating-point library numerics. The raw quotient is an opaque function `quotient` of the stored elasticity; only the min with 1150 is modelled.
- `load ** 1.4` in the contended latency: a fractional power. It is the function parameter `pow`, used only inside the tie-breaking field of the heap tuple.
- Floating-point rounding: all decimals are exact reals, so 0.9 × 161 is exactly 144.9, and float NaN and infinity do not arise.
- pandas mechanics (`DataFrame`, `copy`, `apply`, `iterrows`): the table is a sequence of records, and the stored `a_df` keeps only its `Total Latency` column, the one part later stages read.
- `FaultEvents`: it is never read by any computation.
- Integer width: pandas holds CPU, latency, requests and the total-latency column as 64-bit integers. The model uses unbounded integers and does not model int64 overflow; the fixed table's totals stay below 200.
- `Ranking.PopMin`: models the heap by its contents only; the array layout `heapq` keeps is not modelled. Every pop still returns a smallest tuple, and tuples differ in their index field, so the popped sequence does not depend on that layout (`Ranking.HalfDrainUnique`).
- `Optimizer.TelecomOptimizer.TotalLatency`: requires that the name exists and that every chain ends at a root. On a missing name the source raises at `iloc[0]`; on a cycle it recurses until Python's recursion limit. The model has neither error path.
- `Optimizer.TelecomOptimizer.constructor`: requires a non-empty table of in-range records whose chains resolve, and a memo that is sound for that table. On an empty table the source would run into NaN maxima and an `idxmax` error. Two optimizers over different tables sharing the default memo would read each other's stale totals. Neither case is modelled.
- `Optimizer.TelecomOptimizer.ConsensusRpc`: does not model the KeyError on `dominant` in the report line. Under the store invariant, stage A always writes `dominant` together with `a_df`, so that read cannot fail.
