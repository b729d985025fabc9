/**
 The run controller: choose the list of inputs, open each one (through gzip
 when its name says so), scan it from fresh counters, log its summary, and
 end the run with one final marker. The file system, gzip and the line
 scanner are not modelled; an input is described by what opening and
 scanning it yields.
 */
module Controller {
  import opened Telemetry
  import opened Classifier
  import opened Events
  import opened Scan

  /** The input read when no file names are given. */
  const DefaultInput: string := "telemetry.json"

  /** The name suffix that marks a gzip-compressed input. */
  const GzipSuffix: string := ".gz"

  /** The inputs of a run: the positional arguments, or the default input
      when there are none. */
  function Inputs(args: seq<string>): seq<string>
  {
    if |args| == 0 then [DefaultInput] else args
  }

  /** True when `s` ends with `suffix`, as strings.HasSuffix decides it. */
  predicate HasSuffix(s: string, suffix: string)
  {
    |suffix| <= |s| && s[|s| - |suffix|..] == suffix
  }

  /** An input is read through gzip exactly when its name ends in ".gz". */
  predicate IsGzip(name: string)
  {
    HasSuffix(name, GzipSuffix)
  }

  /** How the line scanner stops: at the end of the stream, or on a scanner
      error (an over-long line, a read error) met before line `pos`. */
  datatype ScanEnd = EndOfStream | ErrorAt(pos: nat)

  /** What an openable input yields: whether its gzip header is valid (only
      consulted for ".gz" names), the lines of its stream (after
      decompression), and how the scanner stops on it. */
  datatype Source = Source(gzipHeaderOk: bool, stream: seq<Line>, end: ScanEnd)

  /** The smaller of two counts. */
  function Min(a: nat, b: nat): nat
  {
    if a < b then a else b
  }

  /** The lines the scanner delivers before it stops: the whole stream, or
      the lines before the error position. */
  function Delivered(src: Source): (lines: seq<Line>)
    ensures lines <= src.stream
    ensures src.end.EndOfStream? ==> lines == src.stream
    ensures src.end.ErrorAt? ==> |lines| == Min(src.end.pos, |src.stream|)
  {
    match src.end
    case EndOfStream => src.stream
    case ErrorAt(pos) => if pos < |src.stream| then src.stream[..pos] else src.stream
  }

  /** The inputs that can be opened; a name outside the map fails to open. */
  type FileSystem = map<string, Source>

  /** The result of opening an input: its lines, or the error event that
      makes the run skip it. */
  datatype Opened = Reader(lines: seq<Line>) | OpenError(event: Event)

  function Open(fs: FileSystem, name: string): Opened
  {
    if name !in fs then OpenError(OpenFailed(name))
    else if IsGzip(name) && !fs[name].gzipHeaderOk then OpenError(GzipFailed(name))
    else Reader(Delivered(fs[name]))
  }

  /** An input is scanned when it opens and, for a ".gz" name, its gzip
      header is valid. */
  predicate Opens(fs: FileSystem, name: string)
  {
    name in fs && (IsGzip(name) ==> fs[name].gzipHeaderOk)
  }

  /** The events of one input: a skip, or the scan followed by the summary of
      the counters the scan ended with. Scanning stops at the end of the
      stream and on a scanner error alike, and the summary follows either way. */
  function ProcessInput(fs: FileSystem, name: string): seq<Event>
  {
    match Open(fs, name)
    case OpenError(e) => [e]
    case Reader(lines) =>
      var s := ScanLines(lines);
      s.events + [Finished(s.counters)]
  }

  /** The events of a list of inputs, processed one after the other. */
  function InputsEvents(fs: FileSystem, files: seq<string>): seq<Event>
  {
    if |files| == 0 then []
    else ProcessInput(fs, files[0]) + InputsEvents(fs, files[1..])
  }

  /** The events of a whole run. */
  function RunEvents(fs: FileSystem, args: seq<string>): seq<Event>
  {
    InputsEvents(fs, Inputs(args)) + [Done]
  }

  // ---------------------------------------------------------------------------
  // Reference definitions.

  /** The counts reported by the summaries of an event sequence, in order. */
  function Summaries(events: seq<Event>): seq<Counters>
  {
    if |events| == 0 then []
    else (if events[0].Finished? then [events[0].counts] else []) + Summaries(events[1..])
  }

  /** The summaries a list of inputs should produce: one per input that opens,
      reporting the classified lines of that input alone. */
  function ExpectedSummaries(fs: FileSystem, files: seq<string>): seq<Counters>
  {
    if |files| == 0 then []
    else (if Opens(fs, files[0]) then [Tally(Delivered(fs[files[0]]))] else [])
         + ExpectedSummaries(fs, files[1..])
  }

  /** The number of skip events (open or gzip-header failures). */
  function Skips(events: seq<Event>): nat
  {
    if |events| == 0 then 0
    else (if events[0].OpenFailed? || events[0].GzipFailed? then 1 else 0) + Skips(events[1..])
  }

  /** The number of inputs that fail to open. */
  function Unopened(fs: FileSystem, files: seq<string>): nat
  {
    if |files| == 0 then 0
    else (if Opens(fs, files[0]) then 0 else 1) + Unopened(fs, files[1..])
  }

  // ---------------------------------------------------------------------------
  // Input selection and opening.

  /** The input list is the default input when no names are given, and
      exactly the given names otherwise; it is never empty. */
  lemma InputsDefault(args: seq<string>)
    ensures |Inputs(args)| > 0
    ensures |args| == 0 ==> Inputs(args) == ["telemetry.json"]
    ensures |args| > 0 ==> Inputs(args) == args
  {
  }

  /** A name is read through gzip exactly when it is some name followed by ".gz". */
  lemma GzipIffDotGzName(name: string)
    ensures IsGzip(name) <==> exists stem: string :: name == stem + ".gz"
  {
    if IsGzip(name) {
      var stem := name[..|name| - 3];
      assert name == stem + name[|name| - 3..];
    }
    if exists stem: string :: name == stem + ".gz" {
      var stem: string :| name == stem + ".gz";
      assert name[|name| - 3..] == ".gz";
    }
  }

  /** Opening skips an input exactly when the file cannot be opened or, for a
      ".gz" name, its gzip header is invalid; the skip is one error event. */
  lemma OpenSkipsUnopenable(fs: FileSystem, name: string)
    ensures Open(fs, name).Reader? <==> Opens(fs, name)
    ensures name !in fs ==> ProcessInput(fs, name) == [OpenFailed(name)]
    ensures name in fs && IsGzip(name) && !fs[name].gzipHeaderOk ==> ProcessInput(fs, name) == [GzipFailed(name)]
    ensures name in fs && !IsGzip(name) ==> Open(fs, name) == Reader(Delivered(fs[name]))
  {
  }

  // ---------------------------------------------------------------------------
  // One input.

  /** The events of a scan are only per-line events: export calls, export
      errors and parse failures. */
  lemma {:induction false} ScanEventsArePerLine(lines: seq<Line>)
    ensures forall e :: e in ScanLines(lines).events ==> e.Exported? || e.ExportFailed? || e.ParseFailed?
    decreases |lines|
  {
    if |lines| > 0 {
      ScanEventsArePerLine(lines[..|lines| - 1]);
    }
  }

  /** An opened input is scanned from zero counters and its summary reports
      exactly the classified lines of that input, after all its per-line
      events; a skipped input yields one error event and no summary. */
  lemma ProcessInputShape(fs: FileSystem, name: string)
    ensures Opens(fs, name) ==>
              ProcessInput(fs, name) == ScanLines(Delivered(fs[name])).events + [Finished(Tally(Delivered(fs[name])))]
    ensures !Opens(fs, name) ==>
              |ProcessInput(fs, name)| == 1 && Skips(ProcessInput(fs, name)) == 1
              && Summaries(ProcessInput(fs, name)) == []
    ensures Done !in ProcessInput(fs, name)
  {
    if Opens(fs, name) {
      CountersCountClassifiedLines(Delivered(fs[name]));
      ScanEventsArePerLine(Delivered(fs[name]));
    }
  }

  /** A scanner error before line `pos` (after the last line, when `pos` is
      past the end) ends the scan there. The input is still summarised, with
      the counts of the lines delivered before the error, and no later line
      is exported: the input reads exactly as a stream that ends at the
      error would. */
  lemma ScanErrorStillSummarises(fs: FileSystem, name: string, pos: nat)
    requires Opens(fs, name) && fs[name].end == ErrorAt(pos)
    ensures var before := fs[name].stream[..Min(pos, |fs[name].stream|)];
            && ProcessInput(fs, name) == ScanLines(before).events + [Finished(Tally(before))]
            && ExportedKinds(ProcessInput(fs, name)) == KindsOf(before)
            && ProcessInput(fs, name) == ProcessInput(fs[name := Source(fs[name].gzipHeaderOk, before, EndOfStream)], name)
  {
    var before := fs[name].stream[..Min(pos, |fs[name].stream|)];
    assert Delivered(fs[name]) == before;
    ProcessInputShape(fs, name);
    ExportsFollowLineOrder(before);
    EventCountsAppend(ScanLines(before).events, [Finished(Tally(before))]);
    OneEvent(Finished(Tally(before)));
  }

  // ---------------------------------------------------------------------------
  // The whole run.

  lemma {:induction false} InputsEventsAppend(fs: FileSystem, a: seq<string>, b: seq<string>)
    ensures InputsEvents(fs, a + b) == InputsEvents(fs, a) + InputsEvents(fs, b)
    decreases |a|
  {
    if |a| > 0 {
      assert (a + b)[1..] == a[1..] + b;
      InputsEventsAppend(fs, a[1..], b);
    } else {
      assert a + b == b;
    }
  }

  lemma {:induction false} ExpectedSummariesAppend(fs: FileSystem, a: seq<string>, b: seq<string>)
    ensures ExpectedSummaries(fs, a + b) == ExpectedSummaries(fs, a) + ExpectedSummaries(fs, b)
    ensures Unopened(fs, a + b) == Unopened(fs, a) + Unopened(fs, b)
    decreases |a|
  {
    if |a| > 0 {
      assert (a + b)[1..] == a[1..] + b;
      ExpectedSummariesAppend(fs, a[1..], b);
    } else {
      assert a + b == b;
    }
  }

  lemma {:induction false} EventTalliesAppend(a: seq<Event>, b: seq<Event>)
    ensures Summaries(a + b) == Summaries(a) + Summaries(b)
    ensures Skips(a + b) == Skips(a) + Skips(b)
    decreases |a|
  {
    if |a| > 0 {
      assert (a + b)[1..] == a[1..] + b;
      EventTalliesAppend(a[1..], b);
    } else {
      assert a + b == b;
    }
  }

  lemma InputsEventsNext(fs: FileSystem, files: seq<string>, i: nat)
    requires i < |files|
    ensures InputsEvents(fs, files[..i + 1]) == InputsEvents(fs, files[..i]) + ProcessInput(fs, files[i])
  {
    InputsEventsAppend(fs, files[..i], [files[i]]);
    assert files[..i + 1] == files[..i] + [files[i]];
    assert [files[i]][1..] == [];
  }

  /** Per-line events carry neither summaries nor skips. */
  lemma {:induction false} PerLineEventsHaveNoSummaries(events: seq<Event>)
    requires forall e :: e in events ==> e.Exported? || e.ExportFailed? || e.ParseFailed?
    ensures Summaries(events) == []
    ensures Skips(events) == 0
    decreases |events|
  {
    if |events| > 0 {
      assert events[0] in events;
      assert forall e :: e in events[1..] ==> e in events;
      PerLineEventsHaveNoSummaries(events[1..]);
    }
  }

  /** One input's summaries and skips. */
  lemma ProcessInputTallies(fs: FileSystem, name: string)
    ensures Summaries(ProcessInput(fs, name)) == (if Opens(fs, name) then [Tally(Delivered(fs[name]))] else [])
    ensures Skips(ProcessInput(fs, name)) == (if Opens(fs, name) then 0 else 1)
  {
    ProcessInputShape(fs, name);
    if Opens(fs, name) {
      var scan := ScanLines(Delivered(fs[name])).events;
      ScanEventsArePerLine(Delivered(fs[name]));
      PerLineEventsHaveNoSummaries(scan);
      EventTalliesAppend(scan, [Finished(Tally(Delivered(fs[name])))]);
      assert [Finished(Tally(Delivered(fs[name])))][1..] == [];
    }
  }

  /** Counters reset for every input: the run's summaries are, in order, one
      per input that opens, each reporting that input's own classified lines;
      every input that fails to open is reported by one skip event. */
  lemma {:induction false} SummariesPerOpenedInput(fs: FileSystem, files: seq<string>)
    ensures Summaries(InputsEvents(fs, files)) == ExpectedSummaries(fs, files)
    ensures Skips(InputsEvents(fs, files)) == Unopened(fs, files)
    decreases |files|
  {
    if |files| > 0 {
      SummariesPerOpenedInput(fs, files[1..]);
      ProcessInputTallies(fs, files[0]);
      EventTalliesAppend(ProcessInput(fs, files[0]), InputsEvents(fs, files[1..]));
    }
  }

  /** A skipped input does not disturb the others: the run's events are those
      of the inputs before it, its one error event, and those of the inputs
      after it. */
  lemma SkippedInputIsIsolated(fs: FileSystem, before: seq<string>, name: string, after: seq<string>)
    requires !Opens(fs, name)
    ensures InputsEvents(fs, before + [name] + after) ==
              InputsEvents(fs, before) + [Open(fs, name).event] + InputsEvents(fs, after)
  {
    InputsEventsAppend(fs, before + [name], after);
    InputsEventsAppend(fs, before, [name]);
    assert [name][1..] == [];
  }

  /** No input's events contain the final marker. */
  lemma {:induction false} NoDoneBeforeEnd(fs: FileSystem, files: seq<string>)
    ensures Done !in InputsEvents(fs, files)
    decreases |files|
  {
    if |files| > 0 {
      NoDoneBeforeEnd(fs, files[1..]);
      ProcessInputShape(fs, files[0]);
    }
  }

  /** A run ends with exactly one final marker, after every input's events,
      and its summaries are one per opened input. */
  lemma RunEndsWithSingleDone(fs: FileSystem, args: seq<string>)
    ensures var ev := RunEvents(fs, args);
            |ev| > 0 && ev[|ev| - 1] == Done && Done !in ev[..|ev| - 1]
    ensures Summaries(RunEvents(fs, args)) == ExpectedSummaries(fs, Inputs(args))
  {
    var ev := RunEvents(fs, args);
    NoDoneBeforeEnd(fs, Inputs(args));
    assert ev[..|ev| - 1] == InputsEvents(fs, Inputs(args));
    SummariesPerOpenedInput(fs, Inputs(args));
    EventTalliesAppend(InputsEvents(fs, Inputs(args)), [Done]);
    assert [Done][1..] == [];
  }

  // ---------------------------------------------------------------------------
  // The run as written.

  /** The main loop: pick the inputs, skip those that fail to open or whose
      gzip header is invalid, scan the others from fresh counters, log each
      summary, then log the final marker. */
  method Replay(fs: FileSystem, args: seq<string>) returns (events: seq<Event>)
    ensures events == RunEvents(fs, args)
    ensures Summaries(events) == ExpectedSummaries(fs, Inputs(args))
    ensures |events| > 0 && events[|events| - 1] == Done && Done !in events[..|events| - 1]
  {
    var files := args;
    if |files| == 0 {
      files := [DefaultInput];
    }
    events := [];
    var i := 0;
    while i < |files|
      invariant i <= |files|
      invariant events == InputsEvents(fs, files[..i])
    {
      var name := files[i];
      var chunk: seq<Event>;
      if name !in fs {
        chunk := [OpenFailed(name)];
      } else if HasSuffix(name, GzipSuffix) && !fs[name].gzipHeaderOk {
        chunk := [GzipFailed(name)];
      } else {
        var tcount, mcount, lcount, lineEvents := ScanInput(Delivered(fs[name]));
        chunk := lineEvents + [Finished(Counters(tcount, mcount, lcount))];
      }
      assert chunk == ProcessInput(fs, name);
      InputsEventsNext(fs, files, i);
      events := events + chunk;
      i := i + 1;
    }
    assert files[..i] == Inputs(args);
    events := events + [Done];
    RunEndsWithSingleDone(fs, args);
  }

  // ---------------------------------------------------------------------------
  // Worked scenarios.

  /** A missing first input is skipped and the second is still processed,
      followed by the final marker. */
  lemma MissingFirstInputScenario(fs: FileSystem, missing: string, present: string)
    requires missing !in fs && Opens(fs, present)
    ensures RunEvents(fs, [missing, present]) ==
              [OpenFailed(missing)] + ScanLines(Delivered(fs[present])).events
              + [Finished(Tally(Delivered(fs[present]))), Done]
  {
    ProcessInputShape(fs, present);
    var files := [missing, present];
    assert files[1..] == [present] && files[1..][1..] == [];
    assert InputsEvents(fs, files[1..]) == ProcessInput(fs, present);
    assert InputsEvents(fs, files) == [OpenFailed(missing)] + ProcessInput(fs, present);
  }
}
