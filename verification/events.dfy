/**
 The observable effects of a replay run: the per-input counters and the
 sequence of events (log lines and export calls) the run produces, in order.
 Log lines are abstract events; their text formatting is not modelled.
 */
module Events {
  import opened Telemetry

  /** The three per-input counters: lines sent as traces, metrics and logs. */
  datatype Counters = Counters(traces: nat, metrics: nat, logs: nat)

  /** The counters every input starts from. */
  const Zero := Counters(0, 0, 0)

  /** The counter kept for kind `k`. */
  function Get(c: Counters, k: Kind): nat
  {
    match k
    case Trace => c.traces
    case Metric => c.metrics
    case Log => c.logs
  }

  /** The sum of the three counters. */
  function Total(c: Counters): nat
  {
    c.traces + c.metrics + c.logs
  }

  /** Increment the counter of kind `k`, leaving the other two alone. */
  function Bump(c: Counters, k: Kind): (c': Counters)
    ensures Get(c', k) == Get(c, k) + 1
    ensures forall j: Kind :: j != k ==> Get(c', j) == Get(c, j)
    ensures Total(c') == Total(c) + 1
  {
    match k
    case Trace => c.(traces := c.traces + 1)
    case Metric => c.(metrics := c.metrics + 1)
    case Log => c.(logs := c.logs + 1)
  }

  /** One observable step of a run. */
  datatype Event =
    | OpenFailed(file: string)                 // "Failed to open file"
    | GzipFailed(file: string)                 // "Failed to open gzip file"
    | Exported(kind: Kind)                     // one Export call of that kind
    | ExportFailed(kind: Kind)                 // "Failed to send traces/metrics/logs"
    | ParseFailed                              // "Failed to parse"
    | Finished(counts: Counters)               // the per-input summary
    | Done                                     // the final marker
}
