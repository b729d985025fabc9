/**
 This module describes one scanned input line the way the replay loop sees it:
 three JSON unmarshal attempts (traces, metrics, logs), each reporting either a
 decoded batch's element count or an error. The JSON decoding itself is not
 modelled; only the element counts it yields matter to the loop.
 */
module Telemetry {

  /** The three signal kinds, listed in the order the loop tries their decoders. */
  datatype Kind = Trace | Metric | Log

  /** The outcome of one unmarshal attempt: the element count of the decoded
      batch (spans, metrics or log records), or a decode error. */
  datatype Unmarshaled = Decoded(count: nat) | DecodeError

  /** The element count the loop reads from an unmarshal attempt. The error is
      discarded; the batch returned with it is taken to report no elements. */
  function ElementCount(u: Unmarshaled): nat
  {
    match u
    case Decoded(n) => n
    case DecodeError => 0
  }

  /** One line of input, as seen by the three unmarshalers. */
  datatype Record = Record(traces: Unmarshaled, metrics: Unmarshaled, logs: Unmarshaled)

  /** The element count of the batch of kind `k` decoded from `r`. */
  function Count(r: Record, k: Kind): nat
  {
    match k
    case Trace => ElementCount(r.traces)
    case Metric => ElementCount(r.metrics)
    case Log => ElementCount(r.logs)
  }

  /** A kind is populated when its decoded batch is non-empty. */
  predicate Populated(r: Record, k: Kind)
  {
    Count(r, k) > 0
  }
}
