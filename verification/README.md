# otlp-replay: a Dafny model of the replay loop

otlp-replay reads newline-delimited OTLP JSON files (optionally gzip-compressed),
sends each line that decodes as a non-empty batch of traces, metrics or logs to
an OTLP/gRPC receiver, and logs the other lines as unparseable. A scanner error
ends the reading of a file. This project models the one piece of logic in its
`main` function: how the inputs are chosen and opened, how each line is
classified, which counter it bumps, which export call it issues, and which log
lines the run writes, in which order.

Modules (one per component of the loop):

- `Telemetry` (`telemetry.dfy`): a line as the three JSON unmarshalers see it.
  Each attempt yields an element count or a decode error. The code discards
  the error; the batch returned with it is taken to report no elements.
- `Classifier` (`classifier.dfy`): the trace, then metric, then log decision
  chain `Classify` (main.go:77-105). It is proved equal to an independent reference, a search for the first
  populated kind along the priority order.
- `Events` (`events.dfy`): the three per-input counters and the observable
  events of a run. Events are export calls and the abstract log lines "Failed to
  open file", "Failed to open gzip file", "Failed to send …", "Failed to parse",
  "Finished" and "Done".
- `Scan` (`scan.dfy`): one loop iteration `Step` (main.go:77-105), the
  per-input scan loop `ScanLines` as a left fold of it (main.go:76-106), and
  the method `ScanInput` that mirrors the loop. They are related to reference
  counts (`KindsOf`, `Tally`, `Rejections`).
- `Controller` (`controller.dfy`): the input list `Inputs` (main.go:47-49),
  opening and gzip detection `Open` (main.go:51-67), one input's events
  `ProcessInput` (main.go:51-107), the whole run `RunEvents` (main.go:47-109),
  and the method `Replay` that mirrors `main`'s file loop.

The outside world is given as parameters. A `FileSystem` maps each openable
name to the lines of its stream, after decompression. It also records whether
the gzip header is valid and whether the scanner stops on an error, and before
which line. Each line carries the outcome its export call would have.

The counters count classified lines, not successful exports. Each counter is
incremented before its export call (main.go:80, 89, 98) and the increment is
kept when the call fails (main.go:82-84, 91-93, 100-102). So three trace lines
whose second export fails give a trace count of 3 (`Scan.EveryTraceLineCounted`,
`Scan.CountersIgnoreExportOutcomes`).

## Model

| member | source | states |
|---|---|---|
| Classifier.Classify | main.go:77-105 | a line is trace iff it has spans; metric iff no spans and some metrics; log iff no spans, no metrics and some log records; unparseable iff no batch is non-empty |
| Classifier.ClassifyIsPrioritySearch | main.go:76-105 | the decision chain equals the reference search for the first populated kind along the order trace, metric, log |
| Classifier.ClassifyPicksHighestPriority | main.go:77-105 | a line is classified as a kind exactly when that kind is populated and every higher-priority kind is empty |
| Classifier.SinglePopulatedKindIsChosen | main.go:77-104 | a line with exactly one non-empty kind is classified as that kind, so the order only matters when several are populated |
| Classifier.ClassifyDependsOnlyOnCounts | main.go:77-97 | lines with the same three element counts are classified alike, whether a zero came from an empty batch or a decode error |
| Events.Bump | main.go:80-98 | a counter increment raises that kind's counter by one and leaves the other two unchanged |
| Scan.TraceLineBumpsOnlyTraces | main.go:77-86 | a line with spans bumps only the trace counter and issues one trace export, followed by an error event exactly when that export fails, whatever its metric and log counts |
| Scan.MetricLineBumpsOnlyMetrics | main.go:87-95 | a line without spans but with metrics bumps only the metric counter and issues one metric export |
| Scan.LogLineBumpsOnlyLogs | main.go:96-104 | a line with only log records bumps only the log counter and issues one log export |
| Scan.EmptyLineOnlyFailsToParse | main.go:105 | a line with all three counts zero changes no counter, issues no export and yields only a "Failed to parse" event |
| Scan.CountersCountClassifiedLines | main.go:75-106 | from zero counters, the scan ends with each counter equal to the number of lines classified as that kind |
| Scan.SentNeverExceedsScanned | main.go:76-106 | the three counters add up to the number of classified lines, which is at most the number of scanned lines |
| Scan.ExportsFollowLineOrder | main.go:76-106 | the export calls of a scan are, in order, one per classified line with that line's kind |
| Scan.EveryLineGetsAVerdict | main.go:80-105 | every line yields exactly one export or parse-failure event, and each failed export is logged once, so no export that returns an error stops the loop |
| Scan.CountersIgnoreExportOutcomes | main.go:80-102 | the counters of a scan are the same whatever the export calls return |
| Scan.EveryTraceLineCounted | main.go:78-85 | when every line has spans, the trace counter equals the number of lines even if some exports fail |
| Scan.ScanInput | main.go:75-106 | the loop as written, from zero counters, ends with the events and counters of the scan, and each counter equals the number of lines classified as its kind |
| Controller.InputsDefault | main.go:47-49 | with no arguments the only input is "telemetry.json"; otherwise the inputs are exactly the arguments |
| Controller.GzipIffDotGzName | main.go:59 | an input is read through gzip exactly when its name is some name followed by ".gz" |
| Controller.OpenSkipsUnopenable | main.go:51-67 | an input is skipped exactly when it cannot be opened or, for a ".gz" name, its gzip header is invalid; the skip is one error event |
| Controller.ProcessInputShape | main.go:51-107 | an opened input yields its per-line events and then a "Finished" summary of that input's own classified lines; a skipped input yields one error event and no summary; neither contains "Done" |
| Controller.Delivered | main.go:76 | the scanner delivers a prefix of the stream: all of it when it reaches the end, and the lines before the error position when it stops on an error |
| Controller.ScanErrorStillSummarises | main.go:76-107 | a scan stopped by a scanner error is still summarised, with the counts of the lines delivered before the error; no later line is exported, and the input's events are those of a stream that ends at the error |
| Controller.SummariesPerOpenedInput | main.go:50-108 | counters reset per input: the run's summaries are, in order, one per opened input, each reporting only that input's lines; the skip events are one per unopened input |
| Controller.SkippedInputIsIsolated | main.go:50-66 | a skipped input contributes one error event and leaves the events of the inputs before and after it unchanged |
| Controller.RunEndsWithSingleDone | main.go:50-109 | a run ends with "Done", has no other "Done", and carries one summary per opened input |
| Controller.Replay | main.go:47-109 | `main`'s file loop as written produces the run's events: skips, scans from fresh counters, summaries, then one final "Done" |
| Controller.MissingFirstInputScenario | main.go:50-109 | a missing first input is reported and the second is still scanned, summarised, and followed by "Done" |

## Left out

- gRPC connection setup and the three export clients (main.go:39-45): network I/O. An export is an event, and its outcome is an input on each line.
- Line.outcome: each export's outcome is fixed per line of an input, so an input named twice in one run repeats the same outcomes. In the code each `Export` call (main.go:81, 90, 99) is a separate network call, and a second attempt can fail where the first succeeded.
- Scan.EveryLineGetsAVerdict: holds only for runs in which every export call returns. The calls use `context.Background()` (main.go:81, 90, 99), which sets no deadline, so an export that never returns stops the loop; the model cannot represent that, and neither can the other scan and run properties.
- JSON decoding through pdata (main.go:69-71): a foreign library. Each line is reduced to the three unmarshal outcomes. What the library returns alongside an error is taken to report no elements. The library's own behaviour there is not part of this model, and the library documents a zero-value batch as not valid for use, so the count call at main.go:78, 88 or 97 might fail on it instead of reaching "Failed to parse" (main.go:105). Resting on this assumption, for lines where an unmarshaler errors: `Scan.EmptyLineOnlyFailsToParse`, the decode-error half of `Classifier.ClassifyDependsOnlyOnCounts`, and the scan and run properties for inputs containing such lines.
- gzip decompression (main.go:60) and `bufio.Scanner` line splitting with the 10 MiB shared buffer (main.go:29-31, 72-73): library behaviour. An input's lines and the position of any scanner error are given. The line-size limit that causes the scanner error is not modelled.
- The `MultiTelemetry` type (main.go:23-27): declared but never used by the loop.
- `defer f.Close()` and `gz.Close()` (main.go:56, 65): resource lifetime. The handles are released only when `main` returns, and the model does not track them. A `FileSystem` fixes each name's open result for the whole run, so a name listed twice opens both times or fails both times. In the code the open handles pile up, so a later `os.Open` can fail with "too many open files" where an earlier one succeeded.
- Flag parsing and log formatting (main.go:33, 36, and the `slog` calls): I/O plumbing. Log lines are abstract events. The "Finished" event carries only the three counts, as the code logs no file name with it.
- The run-time failure to create the gRPC client (main.go:40-42 panic): the process never reaches the loop, so no event sequence is modelled for it.
- Controller.InputsDefault: states two implications instead of an "if and only if", because the argument list `["telemetry.json"]` also yields that input list.
- Events.Bump: the counters are unbounded naturals. The code's `tcount`, `mcount` and `lcount` are Go `int` (main.go:75), which wraps past its maximum (2^63 - 1 on 64-bit platforms); the model leaves that out as unreachable in practice.
