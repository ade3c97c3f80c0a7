/** The component table of the telecom optimizer: one record per service
    component, looked up by name the way a filter on the `Component` column
    followed by "take the first row" does. */
module Records {

  datatype Option<T> = None | Some(value: T)

  /** One row of the table. CPU, latency and requests are whole numbers;
      memory and reliability are decimals. Throughput is whole Mbps in the
      table and is kept as a real because theta takes its minimum with a
      real-valued cap. The fault-event labels of the table are never read by
      any computation and are not kept. */
  datatype Component = Component(
    name: string,
    cpu: int,                   // CPU(%)
    memory: real,               // Memory(GB)
    latency: int,               // Latency(ms): own, not cumulative
    throughput: real,           // Throughput(Mbps)
    reliability: real,          // Reliability(%)
    requests: int,              // Requests/sec
    dependency: Option<string>) // name of the component this one depends on

  type Table = seq<Component>

  /** The value ranges a record of the table is meant to have. */
  predicate ValidRecord(c: Component)
  {
    && c.latency > 0
    && 0 <= c.cpu <= 100
    && c.memory > 0.0
    && c.throughput > 0.0
    && 0.0 <= c.reliability <= 100.0
    && c.requests > 0
  }

  predicate ValidRecords(t: Table)
  {
    forall i :: 0 <= i < |t| ==> ValidRecord(t[i])
  }

  /** The first row whose name is `name`, or None when there is no such row
      (where the source would fail to take row 0 of an empty selection). */
  function Lookup(t: Table, name: string): (r: Option<nat>)
    ensures r.Some? ==> r.value < |t| && t[r.value].name == name
  {
    if |t| == 0 then None
    else if t[0].name == name then Some(0)
    else match Lookup(t[1..], name)
      case None => None
      case Some(j) => Some(j + 1)
  }

  /** Lookup finds the first row with the name, and finds nothing exactly
      when no row has it. */
  lemma {:induction false} LookupFirst(t: Table, name: string)
    ensures Lookup(t, name).Some? ==> forall j :: 0 <= j < Lookup(t, name).value ==> t[j].name != name
    ensures Lookup(t, name).None? <==> forall j :: 0 <= j < |t| ==> t[j].name != name
  {
    if |t| > 0 && t[0].name != name {
      LookupFirst(t[1..], name);
      assert forall j :: 1 <= j < |t| ==> t[j] == t[1..][j - 1];
    }
  }

  /** Every name of the table is found, at its first occurrence. */
  lemma LookupOwnName(t: Table, k: nat)
    requires k < |t|
    ensures Lookup(t, t[k].name).Some?
    ensures Lookup(t, t[k].name).value <= k
  {
    LookupFirst(t, t[k].name);
  }

  /** The fixed five-row data set of the program. */
  function Fixture(): (t: Table)
    ensures |t| == 5 && ValidRecords(t)
    ensures forall i, j :: 0 <= i < j < |t| ==> t[i].name != t[j].name
  {
    [ Component("AuthCore",         47, 2.4, 21,  520.0, 97.6, 165, None),
      Component("QueueRelay",       63, 3.1, 27,  430.0, 96.8, 118, Some("AuthCore")),
      Component("EdgeOrchestrator", 58, 4.6, 31,  610.0, 96.9, 190, Some("QueueRelay")),
      Component("WebGateway",       52, 3.7, 38,  690.0, 94.7, 215, Some("EdgeOrchestrator")),
      Component("CloudInference",   74, 9.3, 44, 1150.0, 92.4, 275, Some("WebGateway")) ]
  }
}
