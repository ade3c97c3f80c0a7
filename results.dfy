/** The optimizer's results dictionary: the names under which the stages
    store their outputs and the kinds of value stored. */
module Results {
  import opened Ranking

  /** A value held in the store. `Totals` stands for the table copy of stage A,
      of which later stages read only its `Total Latency` column. */
  datatype Value =
    | Totals(column: seq<int>)
    | Label(name: string)
    | Number(x: real)
    | Schedule(entries: seq<Entry>)

  /** The keys the stages write, one per string key of the dictionary:
      "a_df", "dominant", "consensus_threshold", "contention_rate",
      "elasticity", "throughput_bound" and "schedule". */
  datatype Key = A_DF | DOMINANT | THRESHOLD | CONTENTION | ELASTICITY | BOUND | SCHEDULE

  type Store = map<Key, Value>

  /** `key` is absent or holds a number. */
  predicate NumberAt(r: Store, key: Key)
  {
    key in r ==> r[key].Number?
  }

  /** `results.get(key, 0)` for a key that holds a number when present. */
  function NumberOr0(r: Store, key: Key): (x: real)
    requires NumberAt(r, key)
    ensures key !in r ==> x == 0.0
    ensures key in r ==> r[key] == Number(x)
  {
    if key in r then r[key].x else 0.0
  }
}
