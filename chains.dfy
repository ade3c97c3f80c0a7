/** The dependency chains of the component table and the cumulative latency
    along them: the specification that the memoised resolver is proved
    against. */
module Chains {
  import opened Records

  /** Number of dependency hops from row `i` to the root of its chain, when
      the root is reached within `fuel` hops and every dependency on the way
      names an existing row. */
  function Hops(t: Table, i: nat, fuel: nat): Option<nat>
    requires i < |t|
    decreases fuel
  {
    match t[i].dependency
    case None => Some(0)
    case Some(d) =>
      match Lookup(t, d)
      case None => None
      case Some(j) =>
        if fuel == 0 then None
        else match Hops(t, j, fuel - 1)
          case None => None
          case Some(h) => Some(h + 1)
  }

  /** Every row's chain ends at a row without dependency, so the recursion of
      the resolver terminates and never looks up a missing name. An acyclic
      chain over n rows has fewer than n hops, so fuel |t| suffices. */
  predicate Resolvable(t: Table)
  {
    forall i :: 0 <= i < |t| ==> Hops(t, i, |t|).Some?
  }

  lemma {:induction false} HopsMonotone(t: Table, i: nat, f: nat, g: nat)
    requires i < |t| && f <= g && Hops(t, i, f).Some?
    ensures Hops(t, i, g) == Hops(t, i, f)
    decreases f
  {
    match t[i].dependency
    case None =>
    case Some(d) =>
      var j := Lookup(t, d).value;
      HopsMonotone(t, j, f - 1, g - 1);
  }

  /** Position of row `i` in its chain, counted from the root. */
  function Depth(t: Table, i: nat): nat
    requires Resolvable(t) && i < |t|
  {
    Hops(t, i, |t|).value
  }

  /** One hop of the chain: a row with a dependency that reaches the root
      within `fuel` hops names an existing row, which reaches it in one hop
      fewer. */
  lemma HopsStep(t: Table, i: nat, fuel: nat)
    requires i < |t| && t[i].dependency.Some? && Hops(t, i, fuel).Some?
    ensures fuel > 0 && Lookup(t, t[i].dependency.value).Some?
    ensures Hops(t, Lookup(t, t[i].dependency.value).value, fuel - 1).Some?
    ensures Hops(t, i, fuel).value == Hops(t, Lookup(t, t[i].dependency.value).value, fuel - 1).value + 1
  {
  }

  /** The same hop, with the same fuel on both sides. */
  lemma HopsStepSameFuel(t: Table, i: nat, fuel: nat)
    requires i < |t| && t[i].dependency.Some? && Hops(t, i, fuel).Some?
    ensures Lookup(t, t[i].dependency.value).Some?
    ensures Hops(t, Lookup(t, t[i].dependency.value).value, fuel).Some?
    ensures Hops(t, i, fuel).value == Hops(t, Lookup(t, t[i].dependency.value).value, fuel).value + 1
  {
    HopsStep(t, i, fuel);
    HopsMonotone(t, Lookup(t, t[i].dependency.value).value, fuel - 1, fuel);
  }

  /** The row a dependency names exists and sits one step closer to the root. */
  lemma DepthStep(t: Table, i: nat)
    requires Resolvable(t) && i < |t| && t[i].dependency.Some?
    ensures Lookup(t, t[i].dependency.value).Some?
    ensures Depth(t, Lookup(t, t[i].dependency.value).value) + 1 == Depth(t, i)
  {
    HopsStepSameFuel(t, i, |t|);
  }

  /** Own latency of row `i` plus the cumulative latency of its dependency. */
  function ChainSum(t: Table, i: nat): int
    requires Resolvable(t) && i < |t|
    decreases Depth(t, i)
  {
    match t[i].dependency
    case None => t[i].latency
    case Some(d) =>
      DepthStep(t, i);
      t[i].latency + ChainSum(t, Lookup(t, d).value)
  }

  /** The rows visited from row `i` to the root of its chain. */
  function Chain(t: Table, i: nat): (c: seq<nat>)
    requires Resolvable(t) && i < |t|
    ensures |c| == Depth(t, i) + 1 && c[0] == i
    ensures forall k :: 0 <= k < |c| ==> c[k] < |t|
    ensures t[c[|c| - 1]].dependency.None?
    decreases Depth(t, i)
  {
    match t[i].dependency
    case None => [i]
    case Some(d) =>
      DepthStep(t, i);
      [i] + Chain(t, Lookup(t, d).value)
  }

  /** Sum of the own latencies of the rows `ks`. */
  function PathLatency(t: Table, ks: seq<nat>): int
    requires forall k :: 0 <= k < |ks| ==> ks[k] < |t|
  {
    if ks == [] then 0 else t[ks[0]].latency + PathLatency(t, ks[1..])
  }

  /** The recursion adds up exactly the own latencies of the rows on the chain. */
  lemma {:induction false} ChainSumIsPathLatency(t: Table, i: nat)
    requires Resolvable(t) && i < |t|
    ensures ChainSum(t, i) == PathLatency(t, Chain(t, i))
    decreases Depth(t, i)
  {
    match t[i].dependency
    case None =>
    case Some(d) =>
      DepthStep(t, i);
      var j := Lookup(t, d).value;
      ChainSumIsPathLatency(t, j);
      assert Chain(t, i)[1..] == Chain(t, j);
  }

  /** With positive latencies, a row's cumulative latency is at least its own
      and exceeds that of its dependency. */
  lemma {:induction false} ChainSumBounds(t: Table, i: nat)
    requires Resolvable(t) && i < |t| && ValidRecords(t)
    ensures ChainSum(t, i) >= t[i].latency > 0
    ensures t[i].dependency.Some? ==>
      Lookup(t, t[i].dependency.value).Some? &&
      ChainSum(t, i) > ChainSum(t, Lookup(t, t[i].dependency.value).value)
    decreases Depth(t, i)
  {
    match t[i].dependency
    case None =>
    case Some(d) =>
      DepthStep(t, i);
      ChainSumBounds(t, Lookup(t, d).value);
  }

  /** total_latency(name): the cumulative latency of the first row named `name`. */
  function TotalLatencyOf(t: Table, name: string): int
    requires Resolvable(t) && Lookup(t, name).Some?
  {
    ChainSum(t, Lookup(t, name).value)
  }

  /** The resolver's equation at the level of names: own latency, plus the
      total latency of the named dependency when there is one. */
  lemma TotalLatencyEquation(t: Table, name: string)
    requires Resolvable(t) && Lookup(t, name).Some?
    ensures var row := t[Lookup(t, name).value];
      && (row.dependency.None? ==> TotalLatencyOf(t, name) == row.latency)
      && (row.dependency.Some? ==>
            Lookup(t, row.dependency.value).Some? &&
            TotalLatencyOf(t, name) == row.latency + TotalLatencyOf(t, row.dependency.value))
  {
    var i := Lookup(t, name).value;
    if t[i].dependency.Some? {
      DepthStep(t, i);
    }
  }

  /** total_latency of the name in row `k`; that name is always found. */
  function RowTotal(t: Table, k: nat): int
    requires Resolvable(t) && k < |t|
  {
    LookupOwnName(t, k);
    TotalLatencyOf(t, t[k].name)
  }

  /** The `Total Latency` column: one entry per row, in row order. */
  function TotalsColumn(t: Table): (col: seq<int>)
    requires Resolvable(t)
    ensures |col| == |t|
  {
    seq(|t|, k requires 0 <= k < |t| => RowTotal(t, k))
  }

  /** A memo whose every entry names a row, holds that name's total latency,
      and whose every entry's dependency is cached too (entries are only
      stored after the dependency's own call has returned). */
  predicate MemoSound(t: Table, cache: map<string, int>)
    requires Resolvable(t)
  {
    forall n {:trigger cache[n]} :: n in cache ==>
      && Lookup(t, n).Some?
      && cache[n] == TotalLatencyOf(t, n)
      && (t[Lookup(t, n).value].dependency.Some? ==>
            t[Lookup(t, n).value].dependency.value in cache)
  }

  /** Caching a name's total keeps the memo sound once its dependency is
      cached. */
  lemma MemoInsert(t: Table, cache: map<string, int>, name: string, total: int)
    requires Resolvable(t) && MemoSound(t, cache) && Lookup(t, name).Some?
    requires total == TotalLatencyOf(t, name)
    requires t[Lookup(t, name).value].dependency.Some? ==>
      t[Lookup(t, name).value].dependency.value in cache
    ensures MemoSound(t, cache[name := total])
  {
  }

  /** Once a name is cached in a sound memo, so is every component on its chain. */
  lemma {:induction false} CachedAlongChain(t: Table, cache: map<string, int>, name: string)
    requires Resolvable(t) && MemoSound(t, cache) && name in cache
    ensures forall k :: k in Chain(t, Lookup(t, name).value) ==> t[k].name in cache
    decreases Depth(t, Lookup(t, name).value)
  {
    var i := Lookup(t, name).value;
    match t[i].dependency
    case None =>
    case Some(d) =>
      DepthStep(t, i);
      CachedAlongChain(t, cache, d);
  }
}
