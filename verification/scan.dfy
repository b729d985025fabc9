/**
 The scan of one opened input: a left fold over its lines that keeps the three
 counters and emits, per line, either one export call (plus an error event when
 that call fails) or one "Failed to parse" event.
 */
module Scan {
  import opened Telemetry
  import opened Classifier
  import opened Events

  /** What the export call returns for a line; the network is not modelled, so
      the outcome is an input. */
  datatype ExportOutcome = Ack | Rejected

  /** One scanned line together with the outcome its export call would have. */
  datatype Line = Line(record: Record, outcome: ExportOutcome)

  /** The state of the scan loop: the counters and the events emitted so far. */
  datatype ScanState = ScanState(counters: Counters, events: seq<Event>)

  /** Every input starts from zero counters and no events. */
  const Start := ScanState(Zero, [])

  /** The events one line produces. The export error is logged and the loop
      goes on with the next line. */
  function LineEvents(l: Line): seq<Event>
  {
    match Classify(l.record)
    case Unparseable => [ParseFailed]
    case Classified(k) =>
      if l.outcome == Rejected then [Exported(k), ExportFailed(k)] else [Exported(k)]
  }

  /** One iteration of the scan loop. The counter is incremented before the
      export call, so it is incremented whatever the call returns. */
  function Step(s: ScanState, l: Line): ScanState
  {
    match Classify(l.record)
    case Unparseable => ScanState(s.counters, s.events + LineEvents(l))
    case Classified(k) => ScanState(Bump(s.counters, k), s.events + LineEvents(l))
  }

  /** The scan loop over all lines of one input, as a left fold. */
  function ScanLines(lines: seq<Line>): ScanState
  {
    if |lines| == 0 then Start
    else Step(ScanLines(lines[..|lines| - 1]), lines[|lines| - 1])
  }

  /** Scanning one more line is one more step. */
  lemma ScanLinesSnoc(init: seq<Line>, last: Line)
    ensures ScanLines(init + [last]) == Step(ScanLines(init), last)
  {
    var lines := init + [last];
    assert lines[..|lines| - 1] == init && lines[|lines| - 1] == last;
  }

  lemma ScanLinesNext(lines: seq<Line>, i: nat)
    requires i < |lines|
    ensures ScanLines(lines[..i + 1]) == Step(ScanLines(lines[..i]), lines[i])
  {
    assert lines[..i + 1] == lines[..i] + [lines[i]];
    ScanLinesSnoc(lines[..i], lines[i]);
  }

  // ---------------------------------------------------------------------------
  // Reference definitions, independent of the loop.

  /** The kinds of the classified lines, in line order. */
  function KindsOf(lines: seq<Line>): seq<Kind>
  {
    if |lines| == 0 then []
    else
      match Classify(lines[0].record)
      case Unparseable => KindsOf(lines[1..])
      case Classified(k) => [k] + KindsOf(lines[1..])
  }

  /** The counters an input's summary should report: how many of its lines
      were classified as each kind. */
  function Tally(lines: seq<Line>): Counters
  {
    var m := multiset(KindsOf(lines));
    Counters(m[Trace], m[Metric], m[Log])
  }

  /** Lines that were classified and whose export call failed. */
  function Rejections(lines: seq<Line>): nat
  {
    if |lines| == 0 then 0
    else
      (if Classify(lines[0].record).Classified? && lines[0].outcome == Rejected then 1 else 0)
      + Rejections(lines[1..])
  }

  /** The kinds of the export calls in an event sequence, in order. */
  function ExportedKinds(events: seq<Event>): seq<Kind>
  {
    if |events| == 0 then []
    else (if events[0].Exported? then [events[0].kind] else []) + ExportedKinds(events[1..])
  }

  /** The number of export-error events in an event sequence. */
  function ExportErrors(events: seq<Event>): nat
  {
    if |events| == 0 then 0
    else (if events[0].ExportFailed? then 1 else 0) + ExportErrors(events[1..])
  }

  /** The number of per-line verdicts (an export call or a parse failure). */
  function Verdicts(events: seq<Event>): nat
  {
    if |events| == 0 then 0
    else (if events[0].Exported? || events[0].ParseFailed? then 1 else 0) + Verdicts(events[1..])
  }

  // ---------------------------------------------------------------------------
  // Splitting lemmas for the reference definitions.

  lemma {:induction false} KindsOfAppend(a: seq<Line>, b: seq<Line>)
    ensures KindsOf(a + b) == KindsOf(a) + KindsOf(b)
    decreases |a|
  {
    if |a| > 0 {
      assert (a + b)[1..] == a[1..] + b;
      KindsOfAppend(a[1..], b);
    } else {
      assert a + b == b;
    }
  }

  lemma {:induction false} RejectionsAppend(a: seq<Line>, b: seq<Line>)
    ensures Rejections(a + b) == Rejections(a) + Rejections(b)
    decreases |a|
  {
    if |a| > 0 {
      assert (a + b)[1..] == a[1..] + b;
      RejectionsAppend(a[1..], b);
    } else {
      assert a + b == b;
    }
  }

  lemma {:induction false} EventCountsAppend(a: seq<Event>, b: seq<Event>)
    ensures ExportedKinds(a + b) == ExportedKinds(a) + ExportedKinds(b)
    ensures ExportErrors(a + b) == ExportErrors(a) + ExportErrors(b)
    ensures Verdicts(a + b) == Verdicts(a) + Verdicts(b)
    decreases |a|
  {
    if |a| > 0 {
      assert (a + b)[1..] == a[1..] + b;
      EventCountsAppend(a[1..], b);
    } else {
      assert a + b == b;
    }
  }

  /** A multiset of kinds is the sum of its three multiplicities. */
  lemma {:induction false} KindMultiplicities(s: seq<Kind>)
    ensures |s| == multiset(s)[Trace] + multiset(s)[Metric] + multiset(s)[Log]
    decreases |s|
  {
    if |s| > 0 {
      KindMultiplicities(s[1..]);
      assert s == [s[0]] + s[1..];
      var m, rest := multiset(s), multiset(s[1..]);
      assert m == multiset{s[0]} + rest;
      match s[0]
      case Trace =>
        assert m[Trace] == rest[Trace] + 1 && m[Metric] == rest[Metric] && m[Log] == rest[Log];
      case Metric =>
        assert m[Trace] == rest[Trace] && m[Metric] == rest[Metric] + 1 && m[Log] == rest[Log];
      case Log =>
        assert m[Trace] == rest[Trace] && m[Metric] == rest[Metric] && m[Log] == rest[Log] + 1;
    }
  }

  /** One more line adds one to the tally of its kind, if it has one. */
  lemma TallySnoc(init: seq<Line>, last: Line)
    ensures Classify(last.record).Unparseable? ==> Tally(init + [last]) == Tally(init)
    ensures Classify(last.record).Classified? ==>
              Tally(init + [last]) == Bump(Tally(init), Classify(last.record).kind)
  {
    KindsOfAppend(init, [last]);
    assert [last][1..] == [];
    var m := multiset(KindsOf(init));
    match Classify(last.record)
    case Unparseable =>
      assert KindsOf(init + [last]) == KindsOf(init);
    case Classified(k) =>
      assert KindsOf(init + [last]) == KindsOf(init) + [k];
      var m' := multiset(KindsOf(init + [last]));
      assert m' == m + multiset{k};
      match k
      case Trace =>
        assert Tally(init + [last]) == Counters(m[Trace] + 1, m[Metric], m[Log]);
      case Metric =>
        assert Tally(init + [last]) == Counters(m[Trace], m[Metric] + 1, m[Log]);
      case Log =>
        assert Tally(init + [last]) == Counters(m[Trace], m[Metric], m[Log] + 1);
  }

  /** The reference counts of a single event. */
  lemma OneEvent(e: Event)
    ensures ExportedKinds([e]) == (if e.Exported? then [e.kind] else [])
    ensures ExportErrors([e]) == (if e.ExportFailed? then 1 else 0)
    ensures Verdicts([e]) == (if e.Exported? || e.ParseFailed? then 1 else 0)
  {
    assert [e][1..] == [];
  }

  /** The reference counts of a single line's events. */
  lemma OneLine(l: Line)
    ensures ExportedKinds(LineEvents(l)) == KindsOf([l])
    ensures Verdicts(LineEvents(l)) == 1
    ensures ExportErrors(LineEvents(l)) == Rejections([l])
  {
    assert [l][1..] == [];
    match Classify(l.record)
    case Unparseable =>
      OneEvent(ParseFailed);
    case Classified(k) =>
      OneEvent(Exported(k));
      if l.outcome == Rejected {
        OneEvent(ExportFailed(k));
        EventCountsAppend([Exported(k)], [ExportFailed(k)]);
        assert LineEvents(l) == [Exported(k)] + [ExportFailed(k)];
      }
  }

  // ---------------------------------------------------------------------------
  // Properties of the scan loop.

  /** The counters of a scan are exactly the number of lines classified as
      each kind. */
  lemma {:induction false} CountersCountClassifiedLines(lines: seq<Line>)
    ensures ScanLines(lines).counters == Tally(lines)
    decreases |lines|
  {
    if |lines| > 0 {
      var init, last := lines[..|lines| - 1], lines[|lines| - 1];
      assert lines == init + [last];
      CountersCountClassifiedLines(init);
      ScanLinesSnoc(init, last);
      TallySnoc(init, last);
    }
  }

  /** Each line increments at most one counter: the counters add up to the
      number of classified lines, which is at most the number of lines. */
  lemma SentNeverExceedsScanned(lines: seq<Line>)
    ensures Total(ScanLines(lines).counters) == |KindsOf(lines)| <= |lines|
  {
    CountersCountClassifiedLines(lines);
    KindMultiplicities(KindsOf(lines));
    KindsOfBounded(lines);
  }

  lemma {:induction false} KindsOfBounded(lines: seq<Line>)
    ensures |KindsOf(lines)| <= |lines|
    decreases |lines|
  {
    if |lines| > 0 {
      KindsOfBounded(lines[1..]);
    }
  }

  /** Export calls are issued in line order, one per classified line, with
      that line's kind. */
  lemma {:induction false} ExportsFollowLineOrder(lines: seq<Line>)
    ensures ExportedKinds(ScanLines(lines).events) == KindsOf(lines)
    decreases |lines|
  {
    if |lines| > 0 {
      var init, last := lines[..|lines| - 1], lines[|lines| - 1];
      ExportsFollowLineOrder(init);
      assert lines == init + [last];
      ScanLinesSnoc(init, last);
      KindsOfAppend(init, [last]);
      RejectionsAppend(init, [last]);
      EventCountsAppend(ScanLines(init).events, LineEvents(last));
      OneLine(last);
    }
  }

  /** A failed export never stops the scan: every line yields exactly one
      verdict, and every failed export of a classified line is logged once. */
  lemma {:induction false} EveryLineGetsAVerdict(lines: seq<Line>)
    ensures Verdicts(ScanLines(lines).events) == |lines|
    ensures ExportErrors(ScanLines(lines).events) == Rejections(lines)
    decreases |lines|
  {
    if |lines| > 0 {
      var init, last := lines[..|lines| - 1], lines[|lines| - 1];
      EveryLineGetsAVerdict(init);
      assert lines == init + [last];
      ScanLinesSnoc(init, last);
      KindsOfAppend(init, [last]);
      RejectionsAppend(init, [last]);
      EventCountsAppend(ScanLines(init).events, LineEvents(last));
      OneLine(last);
    }
  }

  /** The kinds of the classified lines do not depend on export outcomes. */
  lemma {:induction false} KindsIgnoreOutcomes(a: seq<Line>, b: seq<Line>)
    requires |a| == |b|
    requires forall i :: 0 <= i < |a| ==> a[i].record == b[i].record
    ensures KindsOf(a) == KindsOf(b)
    decreases |a|
  {
    if |a| > 0 {
      KindsIgnoreOutcomes(a[1..], b[1..]);
    }
  }

  /** A counter is incremented whether or not its export call fails: the
      counters of a scan do not depend on the export outcomes at all. */
  lemma CountersIgnoreExportOutcomes(a: seq<Line>, b: seq<Line>)
    requires |a| == |b|
    requires forall i :: 0 <= i < |a| ==> a[i].record == b[i].record
    ensures ScanLines(a).counters == ScanLines(b).counters
  {
    KindsIgnoreOutcomes(a, b);
    CountersCountClassifiedLines(a);
    CountersCountClassifiedLines(b);
  }

  /** A line with spans is exported as traces and bumps only the trace
      counter, whatever its metric and log counts are. */
  lemma TraceLineBumpsOnlyTraces(s: ScanState, l: Line)
    requires Populated(l.record, Trace)
    ensures Step(s, l).counters == Bump(s.counters, Trace)
    ensures Step(s, l).events == s.events + [Exported(Trace)]
                                 + (if l.outcome == Rejected then [ExportFailed(Trace)] else [])
  {
  }

  /** A line without spans but with metrics is exported as metrics. */
  lemma MetricLineBumpsOnlyMetrics(s: ScanState, l: Line)
    requires !Populated(l.record, Trace) && Populated(l.record, Metric)
    ensures Step(s, l).counters == Bump(s.counters, Metric)
    ensures Step(s, l).events == s.events + [Exported(Metric)]
                                 + (if l.outcome == Rejected then [ExportFailed(Metric)] else [])
  {
  }

  /** A line with only log records is exported as logs. */
  lemma LogLineBumpsOnlyLogs(s: ScanState, l: Line)
    requires !Populated(l.record, Trace) && !Populated(l.record, Metric) && Populated(l.record, Log)
    ensures Step(s, l).counters == Bump(s.counters, Log)
    ensures Step(s, l).events == s.events + [Exported(Log)]
                                 + (if l.outcome == Rejected then [ExportFailed(Log)] else [])
  {
  }

  /** A line with no non-empty batch changes no counter, issues no export and
      only logs a parse failure. */
  lemma EmptyLineOnlyFailsToParse(s: ScanState, l: Line)
    requires forall k: Kind :: !Populated(l.record, k)
    ensures Step(s, l) == ScanState(s.counters, s.events + [ParseFailed])
  {
  }

  /** Lines that all carry spans are all counted as traces, whichever of
      their exports fail. */
  lemma {:induction false} EveryTraceLineCounted(lines: seq<Line>)
    requires forall i :: 0 <= i < |lines| ==> Populated(lines[i].record, Trace)
    ensures ScanLines(lines).counters == Counters(|lines|, 0, 0)
    decreases |lines|
  {
    if |lines| > 0 {
      var init := lines[..|lines| - 1];
      EveryTraceLineCounted(init);
      TraceLineBumpsOnlyTraces(ScanLines(init), lines[|lines| - 1]);
    }
  }

  /** The scan loop as written: counters start at zero, and each line goes
      through the trace, metric, log decision chain. */
  method ScanInput(lines: seq<Line>) returns (tcount: nat, mcount: nat, lcount: nat, events: seq<Event>)
    ensures ScanLines(lines) == ScanState(Counters(tcount, mcount, lcount), events)
    ensures Counters(tcount, mcount, lcount) == Tally(lines)
  {
    tcount, mcount, lcount := 0, 0, 0;
    events := [];
    var i := 0;
    while i < |lines|
      invariant i <= |lines|
      invariant ScanLines(lines[..i]) == ScanState(Counters(tcount, mcount, lcount), events)
    {
      var l := lines[i];
      var before := ScanState(Counters(tcount, mcount, lcount), events);
      ScanLinesNext(lines, i);
      if ElementCount(l.record.traces) > 0 {
        TraceLineBumpsOnlyTraces(before, l);
        tcount := tcount + 1;
        events := events + [Exported(Trace)];
        if l.outcome == Rejected {
          events := events + [ExportFailed(Trace)];
        }
      } else if ElementCount(l.record.metrics) > 0 {
        MetricLineBumpsOnlyMetrics(before, l);
        mcount := mcount + 1;
        events := events + [Exported(Metric)];
        if l.outcome == Rejected {
          events := events + [ExportFailed(Metric)];
        }
      } else if ElementCount(l.record.logs) > 0 {
        LogLineBumpsOnlyLogs(before, l);
        lcount := lcount + 1;
        events := events + [Exported(Log)];
        if l.outcome == Rejected {
          events := events + [ExportFailed(Log)];
        }
      } else {
        EmptyLineOnlyFailsToParse(before, l);
        events := events + [ParseFailed];
      }
      assert ScanState(Counters(tcount, mcount, lcount), events) == Step(before, l);
      i := i + 1;
    }
    assert lines[..i] == lines;
    CountersCountClassifiedLines(lines);
  }
}
