/** What the stages compute on the program's fixed five-row table. */
module FixtureFacts {
  import opened Records
  import opened Chains
  import opened Metrics
  import opened Ranking
  import opened Optimizer

  /** Each name is found at its own row. */
  lemma FixtureLookups()
    ensures Lookup(Fixture(), "AuthCore") == Some(0)
    ensures Lookup(Fixture(), "QueueRelay") == Some(1)
    ensures Lookup(Fixture(), "EdgeOrchestrator") == Some(2)
    ensures Lookup(Fixture(), "WebGateway") == Some(3)
    ensures Lookup(Fixture(), "CloudInference") == Some(4)
  {
  }

  /** Row i depends on row i - 1, so it sits i hops from the root AuthCore. */
  lemma {:induction false} FixtureHop(i: nat)
    requires i < 5
    ensures Hops(Fixture(), i, i) == Some(i)
  {
    if i > 0 {
      FixtureLookups();
      FixtureHop(i - 1);
      assert Fixture()[i].dependency == Some(Fixture()[i - 1].name);
    }
  }

  lemma FixtureHops()
    ensures forall i :: 0 <= i < 5 ==> Hops(Fixture(), i, 5) == Some(i)
  {
    forall i | 0 <= i < 5 ensures Hops(Fixture(), i, 5) == Some(i) {
      FixtureHop(i);
      HopsMonotone(Fixture(), i, i, 5);
    }
  }

  /** The fixed table meets the optimizer's table invariant: every record is
      in range and the chain CloudInference -> WebGateway -> EdgeOrchestrator
      -> QueueRelay -> AuthCore ends at AuthCore. */
  lemma FixtureIsWellFormed()
    ensures TableInvariant(Fixture())
    ensures forall i :: 0 <= i < 5 ==> Depth(Fixture(), i) == i
  {
    FixtureHops();
  }

  /** The total latencies are 21, 48, 79, 117 and 161 ms. */
  lemma FixtureTotals()
    ensures TableInvariant(Fixture())
    ensures TotalsColumn(Fixture()) == [21, 48, 79, 117, 161]
  {
    FixtureIsWellFormed();
    FixtureLookups();
    var t := Fixture();
    assert ChainSum(t, 0) == 21;
    DepthStep(t, 1);
    assert ChainSum(t, 1) == 48;
    DepthStep(t, 2);
    assert ChainSum(t, 2) == 79;
    DepthStep(t, 3);
    assert ChainSum(t, 3) == 117;
    DepthStep(t, 4);
    assert ChainSum(t, 4) == 161;
  }

  /** CloudInference dominates with 161 ms; the threshold is 144.9 ms, and
      every own latency is within it. */
  lemma FixtureDominantAndThreshold()
    ensures TableInvariant(Fixture())
    ensures Fixture()[Dominant(Fixture())].name == "CloudInference"
    ensures MaxTotal(Fixture()) == 161
    ensures Threshold(MaxTotal(Fixture())) == 144.9
    ensures forall i :: 0 <= i < |Fixture()| ==> Fixture()[i].latency as real <= 144.9
  {
    FixtureTotals();
    var col := TotalsColumn(Fixture());
    assert col == [21, 48, 79, 117, 161];
    assert FirstArgmax(col) == 4;
  }

  /** The contention rate is 9718 / 16100, about 0.60. */
  lemma FixtureContention()
    ensures LatencySum(Fixture()) == 161.0
    ensures ContentionRate(Fixture()) == 9718.0 / 16100.0
  {
    var t := Fixture();
    assert WeightedLatencySum(t) == 97.18;
  }
}
