/**
 The per-line classifier: the first kind, in the fixed order trace, metric,
 log, whose decoded batch is non-empty; otherwise the line is unparseable.
 */
module Classifier {
  import opened Telemetry

  datatype Classification = Classified(kind: Kind) | Unparseable

  /** The decision chain of the replay loop: a trace decode with spans wins,
      then a metric decode with metrics, then a log decode with log records. */
  function Classify(r: Record): (c: Classification)
    ensures c == Classified(Trace) <==> Populated(r, Trace)
    ensures c == Classified(Metric) <==> !Populated(r, Trace) && Populated(r, Metric)
    ensures c == Classified(Log) <==> !Populated(r, Trace) && !Populated(r, Metric) && Populated(r, Log)
    ensures c == Unparseable <==> forall k: Kind :: !Populated(r, k)
  {
    if ElementCount(r.traces) > 0 then Classified(Trace)
    else if ElementCount(r.metrics) > 0 then Classified(Metric)
    else if ElementCount(r.logs) > 0 then Classified(Log)
    else Unparseable
  }

  /** The priority order as data, and each kind's position in it. */
  const Priority: seq<Kind> := [Trace, Metric, Log]

  function Rank(k: Kind): (i: nat)
    ensures i < |Priority| && Priority[i] == k
  {
    match k
    case Trace => 0
    case Metric => 1
    case Log => 2
  }

  /** Reference definition: scan an order of kinds and return the first one
      that is populated. */
  function FirstPopulated(order: seq<Kind>, r: Record): Classification
  {
    if |order| == 0 then Unparseable
    else if Populated(r, order[0]) then Classified(order[0])
    else FirstPopulated(order[1..], r)
  }

  /** `k` sits at position `i` of `order`, is populated, and no kind before it is. */
  predicate FirstAt(order: seq<Kind>, r: Record, k: Kind, i: nat)
  {
    i < |order| && order[i] == k && Populated(r, k)
    && forall j :: 0 <= j < i ==> !Populated(r, order[j])
  }

  /** Being first at a later position of `order` is being first in its tail,
      behind an unpopulated head. */
  lemma FirstAtShift(order: seq<Kind>, r: Record, k: Kind, i: nat)
    requires |order| > 0
    ensures FirstAt(order, r, k, i + 1) <==> !Populated(r, order[0]) && FirstAt(order[1..], r, k, i)
  {
  }

  /** The priority search returns `k` exactly when `k` is the first populated
      kind of the order. */
  lemma {:induction false} FirstPopulatedIsFirst(order: seq<Kind>, r: Record, k: Kind)
    ensures FirstPopulated(order, r) == Classified(k) <==> exists i: nat :: FirstAt(order, r, k, i)
    decreases |order|
  {
    if |order| > 0 {
      FirstPopulatedIsFirst(order[1..], r, k);
      if Populated(r, order[0]) {
        if order[0] == k {
          assert FirstAt(order, r, k, 0);
        } else {
          forall i: nat
            ensures !FirstAt(order, r, k, i)
          {
            if i > 0 {
              FirstAtShift(order, r, k, i - 1);
            }
          }
        }
      } else {
        if FirstPopulated(order[1..], r) == Classified(k) {
          var i: nat :| FirstAt(order[1..], r, k, i);
          FirstAtShift(order, r, k, i);
        }
        forall i: nat | FirstAt(order, r, k, i)
          ensures FirstPopulated(order[1..], r) == Classified(k)
        {
          FirstAtShift(order, r, k, i - 1);
        }
      }
    }
  }

  /** The decision chain is the priority search over trace, metric, log. */
  lemma ClassifyIsPrioritySearch(r: Record)
    ensures Classify(r) == FirstPopulated(Priority, r)
  {
    var afterTrace, afterMetric := Priority[1..], Priority[1..][1..];
    assert afterTrace == [Metric, Log] && afterMetric == [Log];
    assert FirstPopulated(afterMetric[1..], r) == Unparseable;
    assert FirstPopulated(afterMetric, r) == if Populated(r, Log) then Classified(Log) else Unparseable;
    assert FirstPopulated(afterTrace, r) ==
      if Populated(r, Metric) then Classified(Metric) else FirstPopulated(afterMetric, r);
  }

  /** A line is classified as `k` exactly when `k` is populated and every
      kind of higher priority is not. */
  lemma ClassifyPicksHighestPriority(r: Record, k: Kind)
    ensures Classify(r) == Classified(k) <==>
              Populated(r, k) && forall j: Kind :: Rank(j) < Rank(k) ==> !Populated(r, j)
  {
    // Classify's own ensures already decide this; the proof below goes
    // through the reference search to document the link to it.
    ClassifyIsPrioritySearch(r);
    FirstPopulatedIsFirst(Priority, r, k);
    if Populated(r, k) && forall j: Kind :: Rank(j) < Rank(k) ==> !Populated(r, j) {
      var i := Rank(k);
      assert forall j :: 0 <= j < i ==> !Populated(r, Priority[j]) by {
        forall j | 0 <= j < i
          ensures !Populated(r, Priority[j])
        {
          assert Rank(Priority[j]) == j;
        }
      }
    }
  }

  /** A line whose only non-empty batch is of kind `k` is classified as `k`,
      whatever the priority order. */
  lemma SinglePopulatedKindIsChosen(r: Record, k: Kind)
    requires Populated(r, k)
    requires forall j: Kind :: j != k ==> !Populated(r, j)
    ensures Classify(r) == Classified(k)
  {
  }

  /** Classification reads nothing but the three element counts: two lines with
      equal counts are classified alike, whether a zero came from an empty
      batch or from a discarded decode error. */
  lemma ClassifyDependsOnlyOnCounts(r1: Record, r2: Record)
    requires forall k: Kind :: Count(r1, k) == Count(r2, k)
    ensures Classify(r1) == Classify(r2)
  {
  }
}
