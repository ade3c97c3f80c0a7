/** The TelecomOptimizer object: a fixed table, the memo of the latency
    resolver and the results dictionary that stages A to F fill in and
    stage G reads. */
module Optimizer {
  import opened Records
  import opened Chains
  import opened Metrics
  import opened Ranking
  import opened Results
  import opened Validation

  /** A stage either completes or stops on a key an earlier stage should
      have stored (a KeyError), leaving the store as it was. */
  datatype Status = Done | KeyError(key: Key)

  /** What the optimizer assumes of its table: at least one row, every row
      in range, every dependency chain ending at a root. */
  predicate TableInvariant(t: Table)
  {
    |t| > 0 && ValidRecords(t) && Resolvable(t)
  }

  /** What each key of the store holds once a stage has written it. */
  ghost predicate StoreInvariant(t: Table, r: Store)
    requires TableInvariant(t)
  {
    && (A_DF in r ==> r[A_DF] == Totals(TotalsColumn(t)) && DOMINANT in r)
    && (DOMINANT in r ==> r[DOMINANT] == Label(t[Dominant(t)].name))
    && (THRESHOLD in r ==> r[THRESHOLD] == Number(Threshold(MaxTotal(t))) && A_DF in r)
    && (CONTENTION in r ==> LatencySum(t) != 0.0 && r[CONTENTION] == Number(ContentionRate(t)))
    && NumberAt(r, ELASTICITY)
    && (BOUND in r ==> r[BOUND].Number? && r[BOUND].x <= 1150.0 && ELASTICITY in r)
    && (SCHEDULE in r ==>
          && r[SCHEDULE].Schedule?
          && |r[SCHEDULE].entries| == (|t| + 1) / 2
          && Sorted(r[SCHEDULE].entries)
          && BOUND in r)
  }

  /** Stage A's two writes keep the store invariant. */
  lemma StageAKeepsStore(t: Table, r: Store)
    requires TableInvariant(t) && StoreInvariant(t, r)
    ensures StoreInvariant(t, r[A_DF := Totals(TotalsColumn(t))][DOMINANT := Label(t[Dominant(t)].name)])
  {
  }

  /** The memo of total_latency. It is the method's default argument,
      created once, so every call on every optimizer shares the one map. */
  class LatencyMemo {
    var cache: map<string, int>

    constructor ()
      ensures cache == map[]
    {
      cache := map[];
    }
  }

  class TelecomOptimizer {
    const table: Table
    const memo: LatencyMemo
    var results: Store

    ghost predicate Valid()
      reads this, memo
    {
      && TableInvariant(table)
      && MemoSound(table, memo.cache)
      && StoreInvariant(table, results)
    }

    /** A new optimizer over `t` with an empty store, using the shared memo. */
    constructor (t: Table, sharedMemo: LatencyMemo)
      requires TableInvariant(t) && MemoSound(t, sharedMemo.cache)
      ensures Valid()
      ensures table == t && memo == sharedMemo && results == map[]
    {
      table := t;
      memo := sharedMemo;
      results := map[];
    }

    /** total_latency: a cached name is answered from the memo without
        looking at the table; otherwise the row's own latency is added to the
        total of its dependency, and the sum is cached. */
    method TotalLatency(component: string) returns (total: int)
      requires Resolvable(table) && MemoSound(table, memo.cache)
      requires Lookup(table, component).Some?
      modifies memo
      ensures MemoSound(table, memo.cache)
      ensures total == TotalLatencyOf(table, component)
      ensures component in memo.cache
      ensures component in old(memo.cache) ==> memo.cache == old(memo.cache)
      ensures old(memo.cache).Keys <= memo.cache.Keys
      ensures forall n :: n in memo.cache && n !in old(memo.cache) ==>
        Lookup(table, n).value in Chain(table, Lookup(table, component).value)
      decreases Depth(table, Lookup(table, component).value)
    {
      if component in memo.cache {
        return memo.cache[component];
      }
      var i := Lookup(table, component).value;
      var row := table[i];
      TotalLatencyEquation(table, component);
      match row.dependency {
        case None =>
          total := row.latency;
        case Some(dep) =>
          DepthStep(table, i);
          ghost var j := Lookup(table, dep).value;
          assert Chain(table, i) == [i] + Chain(table, j);
          var depLatency := TotalLatency(dep);
          total := row.latency + depLatency;
      }
      MemoInsert(table, memo.cache, component, total);
      memo.cache := memo.cache[component := total];
    }

    /** The `apply` of stage A: total_latency for every row, in row order. */
    method TotalLatencyColumn() returns (column: seq<int>)
      requires Resolvable(table) && MemoSound(table, memo.cache)
      modifies memo
      ensures column == TotalsColumn(table)
      ensures MemoSound(table, memo.cache)
      ensures old(memo.cache).Keys <= memo.cache.Keys
      ensures forall k :: 0 <= k < |table| ==> table[k].name in memo.cache
    {
      column := [];
      var k := 0;
      while k < |table|
        invariant 0 <= k <= |table| && column == TotalsColumn(table)[..k]
        invariant MemoSound(table, memo.cache)
        invariant forall j :: 0 <= j < k ==> table[j].name in memo.cache
        invariant old(memo.cache).Keys <= memo.cache.Keys
      {
        LookupOwnName(table, k);
        var total := TotalLatency(table[k].name);
        assert total == RowTotal(table, k);
        assert TotalsColumn(table)[..k + 1] == column + [total];
        column := column + [total];
        k := k + 1;
      }
    }

    /** Stage A: the total latency of every row, in row order, then the
        first row with the largest total as the dominant component. */
    method DependencyRecursion()
      requires Valid()
      modifies this, memo
      ensures Valid()
      ensures results == old(results)[A_DF := Totals(TotalsColumn(table))]
                                      [DOMINANT := Label(table[Dominant(table)].name)]
      ensures old(memo.cache).Keys <= memo.cache.Keys
      ensures forall k :: 0 <= k < |table| ==> table[k].name in memo.cache
    {
      var column := TotalLatencyColumn();
      StageAKeepsStore(table, results);
      results := results[A_DF := Totals(column)];
      var dominant := FirstArgmax(column);
      results := results[DOMINANT := Label(table[dominant].name)];
    }

    /** Stage B: the threshold is 90% of the largest total latency read back
        from stage A's column; the flag reports whether every row's own
        latency is within it. Only the threshold is stored. */
    method ConsensusRpc() returns (status: Status, allBelow: bool)
      requires Valid()
      modifies this
      ensures Valid()
      ensures A_DF !in old(results) ==> status == KeyError(A_DF) && results == old(results)
      ensures A_DF in old(results) ==>
        var column := old(results)[A_DF].column;
        && |column| > 0
        && status == Done
        && results == old(results)[THRESHOLD := Number(Threshold(column[FirstArgmax(column)]))]
        && results[THRESHOLD] == Number(Threshold(MaxTotal(table)))
        && (allBelow <==> forall i :: 0 <= i < |table| ==> table[i].latency as real <= Threshold(MaxTotal(table)))
    {
      if A_DF !in results {
        return KeyError(A_DF), false;
      }
      var column := results[A_DF].column;
      var threshold := Threshold(column[FirstArgmax(column)]);
      allBelow := AllWithin(table, threshold);
      results := results[THRESHOLD := Number(threshold)];
      status := Done;
    }

    /** Stage C: mean(latency * load) / mean(latency), a rate in [0, 1]. */
    method ContentionModel()
      requires Valid()
      modifies this
      ensures Valid()
      ensures LatencySum(table) != 0.0
      ensures results == old(results)[CONTENTION := Number(ContentionRate(table))]
      ensures 0.0 <= ContentionRate(table) <= 1.0
    {
      ContentionRateInUnitInterval(table);
      results := results[CONTENTION := Number(ContentionRate(table))];
    }

    /** Stage D: stores the elasticity, whose regression is not modelled. */
    method LatencyElasticity(elasticity: real)
      requires Valid()
      modifies this
      ensures Valid()
      ensures results == old(results)[ELASTICITY := Number(elasticity)]
    {
      results := results[ELASTICITY := Number(elasticity)];
    }

    /** Stage E: reads the elasticity and stores min(1150, quotient(e)), where
        quotient stands for 2000 / (mean latency * sqrt(memory divergence)) / e. */
    method ThroughputOptimization(quotient: real -> real) returns (status: Status)
      requires Valid()
      modifies this
      ensures Valid()
      ensures ELASTICITY !in old(results) ==> status == KeyError(ELASTICITY) && results == old(results)
      ensures ELASTICITY in old(results) ==>
        && status == Done
        && results == old(results)[BOUND := Number(CapBound(quotient(old(results)[ELASTICITY].x)))]
    {
      if ELASTICITY !in results {
        return KeyError(ELASTICITY);
      }
      var elasticity := results[ELASTICITY].x;
      results := results[BOUND := Number(CapBound(quotient(elasticity)))];
      status := Done;
    }

    /** Stage F: pushes every row's tuple, then pops while iterating the
        shrinking queue, and stores the ceil(n/2) tuples popped. */
    method OptimizationLogic(pow: real -> real) returns (status: Status)
      requires Valid()
      modifies this
      ensures Valid()
      ensures BOUND !in old(results) ==> status == KeyError(BOUND) && results == old(results)
      ensures BOUND in old(results) ==>
        var bound := old(results)[BOUND].x;
        && status == Done
        && SCHEDULE in results && results[SCHEDULE].Schedule?
        && results == old(results)[SCHEDULE := results[SCHEDULE]]
        && IsHalfDrain(results[SCHEDULE].entries, RowEntries(table, bound, pow))
    {
      if BOUND !in results {
        return KeyError(BOUND);
      }
      var bound := results[BOUND].x;
      var pq := EnqueueRows(table, bound, pow);
      var schedule, left := DrainWhileIterating(pq);
      results := results[SCHEDULE := Schedule(schedule)];
      status := Done;
    }

    /** Stage G: the violation list of the if/elif chain and the verdict;
        a valid verdict names the dominant component, or "N/A". */
    method ArchitectureValidation() returns (valid: bool, violations: seq<string>, dominant: string)
      requires Valid()
      ensures violations == Violations(results)
      ensures valid <==> violations == []
      ensures valid ==> dominant == if DOMINANT in results then results[DOMINANT].name else "N/A"
    {
      violations := [];
      if THRESHOLD !in results {
        violations := violations + [MISSING_B];
      } else if NumberOr0(results, CONTENTION) > 1.2 {
        violations := violations + [CONTENTION_TOO_HIGH];
      } else if NumberOr0(results, ELASTICITY) > 2.0 {
        violations := violations + [NON_LINEAR];
      }
      valid := violations == [];
      dominant := if !valid then "" else if DOMINANT in results then results[DOMINANT].name else "N/A";
    }

    /** Stages A to G in order. Every key is written, so the store afterwards
        depends only on the table and the opaque inputs, and on valid records
        the contention rule cannot fire: the verdict hinges on the
        elasticity alone. */
    method RunFullPipeline(elasticity: real, quotient: real -> real, pow: real -> real)
      returns (valid: bool, violations: seq<string>)
      requires Valid()
      modifies this, memo
      ensures Valid()
      ensures forall k: Key :: k in results
      ensures results[A_DF] == Totals(TotalsColumn(table))
      ensures results[DOMINANT] == Label(table[Dominant(table)].name)
      ensures results[THRESHOLD] == Number(Threshold(MaxTotal(table)))
      ensures LatencySum(table) != 0.0 && results[CONTENTION] == Number(ContentionRate(table))
      ensures results[ELASTICITY] == Number(elasticity)
      ensures results[BOUND] == Number(CapBound(quotient(elasticity)))
      ensures results[SCHEDULE].Schedule?
      ensures IsHalfDrain(results[SCHEDULE].entries, RowEntries(table, CapBound(quotient(elasticity)), pow))
      ensures violations == (if elasticity > 2.0 then [NON_LINEAR] else [])
      ensures valid <==> elasticity <= 2.0
    {
      DependencyRecursion();
      var status, allBelow := ConsensusRpc();
      ContentionModel();
      LatencyElasticity(elasticity);
      status := ThroughputOptimization(quotient);
      status := OptimizationLogic(pow);
      var dominant;
      valid, violations, dominant := ArchitectureValidation();
      forall k: Key ensures k in results {
        match k
        case A_DF => case DOMINANT => case THRESHOLD => case CONTENTION =>
        case ELASTICITY => case BOUND => case SCHEDULE =>
      }
    }
  }
}
