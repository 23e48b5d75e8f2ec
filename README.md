# ginkgoToHtml log parser, modelled in Dafny

ginkgoToHtml turns a plain-text test-run log into an HTML report. This project models its parser,
`parseTestReport`, and the two records the parser produces (`TestCase` and `TestReport`).

The parser makes one pass over the log's lines:

1. It skips everything up to and including the first line that contains the 30-dash separator.
2. It cuts what follows into segments at every separator line.
3. For each segment it:
   - accumulates the log text;
   - takes the status from the last `[SKIPPED]` or `[FAILED]` line;
   - collects title lines until a line containing `> Enter`.
4. It appends each segment as a test case when the next separator or the end of the input closes it. This stops for good once a line containing `Summarizing` has been read after the first separator line, and the segment open at that moment is dropped too. A `Summarizing` line in the preamble, or on the first separator line itself, has no such effect, because the first loop never tests for it.
5. A final pass turns every empty status into `pass`.
6. The total is recomputed as the sum of the three counters.

The project has five modules:

- `Strings` holds `Contains` and `Join`, the two pieces of Go's `strings` package the parser uses, and lemmas that pin `Join` down.
- `Report` holds the records, the marker constants, the per-line status marker and the status counter. `Status` is an enumeration: `Unset`, `Pass`, `Fail` and `Skip` stand for the strings `""`, `"pass"`, `"fail"` and `"skip"`.
- `Segmentation` is a declarative account of the result. It says:
  - where the preamble ends;
  - how the rest is cut into segments;
  - which segments are kept;
  - which case each kept segment becomes.

  `Parse` is that account as one function.
- `Parser` is the parser as the program runs it, as methods. The first loop is `SkipPreamble`. The body of the second loop is `ScanLine`, split into `AppendCase` and `ReadContentLine`. `ScanLines` is the loop itself, and the append after it is in `ScanCases`. The last loop is `DefaultStatuses`. `ParseTestReport` chains them and is proved to return exactly `Parse(lines, generatedAt)`. So every property proved about `Parse` holds for the parser.
- `Properties` proves what the report promises. It covers:
  - counters and statuses;
  - how statuses and titles come about;
  - where the logs come from;
  - how many cases there are;
  - that nothing after a `Summarizing` line matters.

Four behaviours of the code are easy to misread:

- While the summary flag is set, a content line is skipped entirely (main.go:129-131). It is not classified, and it is not logged.
- The segment that is open when the `Summarizing` line arrives is discarded. This holds even when that line is itself a separator, because the flag is set before the separator test (main.go:92-99). So a log with three segments, a `Summarizing` line inside the third, and one more segment yields two cases, not three. Three cases come out only when a separator closes the third segment before the `Summarizing` line (`Properties.CaseCountWithSummary`).
- Of the two marker kinds, only `[SKIPPED]` lines are barred from titles. A `[FAILED]` line before the entry marker becomes a title component (main.go:150).
- The comment at main.go:148 speaks of collecting "non-indented" lines, but the code never tests indentation. An indented line before the entry marker is a title component like any other, provided it is non-empty and contains neither `[SKIPPED]` nor `/`. The model follows the code (`Properties.TitleIs`).

## Model

The model rests on these definitions. They carry no contract of their own; the rows below state what is proved about them.

- `Strings.Contains` is `strings.Contains` (main.go:81, 92, 97, 137-150).
- `Strings.Join` is `strings.Join` (main.go:102).
- `Segmentation.Segments` cuts the lines into segments at separator lines (main.go:96-134).
- `Segmentation.KeptSegments` chooses the segments that are appended: main.go:91-99 and main.go:155-156.
- `Segmentation.CaseOf` is the final case of one segment (main.go:99-152 and 177-184).
- `Segmentation.Parse` is the whole report (main.go:66-190).

Rows whose third column begins with "Proof step" apply a definition to one more line or one more segment. They link the loops to the definitions; the properties are in the other rows.

| member | source | states |
|---|---|---|
| Report.EmptyReport | main.go:69-70 | the report starts with no cases and every counter at zero |
| Report.Marker | main.go:136-141 | a line announces `skip` iff it contains `[SKIPPED]`; it announces `fail` iff it contains `[FAILED]` but not `[SKIPPED]`; it never announces `pass` |
| Report.CountStatusUpdate | main.go:178-184 | changing one case's status moves that case from one status count to the other and leaves the other counts alone |
| Strings.JoinLength | main.go:102 | `strings.Join` output is as long as the parts plus one separator between each pair |
| Strings.JoinSplit | main.go:102 | joining splits at any inner boundary into the earlier parts joined, one separator, and the later parts joined; so the separator stands exactly between consecutive parts |
| Segmentation.IndexOfLineContaining | main.go:79-85 | the result is the index of the first line containing the pattern; it is none iff no line contains it |
| Segmentation.IndexOfLineContainingSnoc | main.go:91-94 | reading one more line changes the first match only if there was none yet, so the summary flag is sticky |
| Segmentation.EnterPos | main.go:143-146 | the position of the first `> Enter` line, or the segment's end iff there is none; no earlier line contains the marker |
| Segmentation.LastMarker | main.go:136-141 | the status before defaulting is never `pass` |
| Segmentation.Classify | main.go:177-184 | the final status is never empty |
| Segmentation.SegmentsCount | main.go:96-126 | k separator lines cut the lines into k + 1 segments |
| Segmentation.SegmentsHaveNoSeparator | main.go:96-126 | no segment holds a separator line |
| Segmentation.SegmentsFlatten | main.go:96-134 | the segments laid end to end are exactly the non-separator lines, in order |
| Segmentation.ClosedSegmentsSnoc | main.go:96-126 | Proof step: a separator closes the open segment and opens an empty one; any other line joins the open segment |
| Segmentation.BeforeSummarySnoc | main.go:91-94 | after a `Summarizing` line, further lines do not change what comes before it |
| Segmentation.KeptSegmentsAtEnd | main.go:155-175 | without a `Summarizing` line every segment is kept, the open one included; with one, only the segments closed before it are kept |
| Segmentation.LastMarkerSnoc | main.go:136-141 | Proof step: a marker line overwrites the status; any other line keeps it |
| Segmentation.LogOfSnoc | main.go:133-134 | Proof step: each content line is logged with its newline, after the earlier ones |
| Segmentation.TitleLinesSnoc | main.go:143-152 | the entry marker latches `HasEnter`; until then each candidate line is added to the title lines; from it on, nothing is added |
| Segmentation.CasesOf | main.go:99-117 | as many cases as segments |
| Segmentation.CasesOfAt | main.go:99-117 | the case at each position is the case of the segment at that position |
| Segmentation.CasesOfSnoc | main.go:99-117 | Proof step: one more segment appends its case after the earlier ones and changes none of them |
| Segmentation.AfterPreambleAt | main.go:78-87 | Proof step: the second loop reads exactly the lines after the first separator line |
| Segmentation.DefaultedRawCase | main.go:177-184 | Proof step: defaulting the appended case's status gives the segment's final case |
| Parser.AppendCase | main.go:99-117 | the case is appended after the earlier ones, which stay as they were; the title is the joined title lines, or is left as it was when there are none; the log is the buffer; the total grows by one; the counters stay in agreement with the cases |
| Parser.ReadContentLine | main.go:133-152 | reading a content line keeps the case in progress, the log buffer and the title lines equal to what the segment read so far determines |
| Parser.SkipPreamble | main.go:78-85 | the first loop stops right after the first separator line and reports whether there was one; without one it reads every line |
| Parser.ConsistentInitially | main.go:69-76 | Proof step: the initial state describes the empty input |
| Parser.ScanLine | main.go:88-153 | one step of the second loop keeps the state in agreement with the lines read: the summary flag, the cases of the closed segments before the summary, the case in progress and the counters |
| Parser.ScanLines | main.go:87-153 | after the second loop, the state agrees with all the lines after the preamble |
| Parser.ScanCases | main.go:87-175 | after the final append, the report holds the cases of exactly the kept segments, in order, with counters that agree |
| Parser.DefaultStatuses | main.go:177-184 | every empty status becomes `pass` and no other case changes; `passed` grows by exactly the number of empty statuses; `failed`, `skipped`, the total and the timestamp stay as they were; the counters keep agreeing with the cases |
| Report.CountStatusAbsent | main.go:177-184 | a status that no case has is counted zero times, so no empty status remains to be counted after the final pass |
| Parser.ScannedCasesAreParsed | main.go:177-184 | the appended cases, once their statuses are defaulted, are exactly the cases `Parse` describes |
| Parser.ParseTestReport | main.go:66-190 | the parser returns exactly the report that `Parse` describes |
| Properties.CountStatusSum | main.go:186-187 | when every case has a final status, the three counters count every case exactly once |
| Properties.ParseTotals | main.go:177-187 | total == passed + failed + skipped == the number of cases, and every case is `pass`, `fail` or `skip` |
| Properties.NoSeparatorNoCases | main.go:79-85 | without a separator line the report has no cases and every counter is zero |
| Properties.LastMarkerNone | main.go:136-141 | a segment has an empty status before defaulting iff none of its lines is a marker line |
| Properties.LastMarkerWins | main.go:136-141 | of several marker lines, the last one decides the status |
| Properties.ClassifyPass | main.go:177-184 | a segment ends as `pass` iff it has no marker line |
| Properties.ClassifyLastMarker | main.go:136-141 | the status is `skip` if the last marker line contains `[SKIPPED]`, and `fail` otherwise |
| Properties.ClassifyOneKind | main.go:136-141 | when all marker lines announce the same status, and there is at least one, the segment ends with that status |
| Properties.ClassifyFailed | main.go:136-141 | a segment with a `[FAILED]` line and no `[SKIPPED]` line fails |
| Properties.ClassifySkipped | main.go:136-141 | a segment with a `[SKIPPED]` line and no `[FAILED]` line is skipped |
| Properties.TitleCandidatesAppend | main.go:148-152 | the title candidates keep their order: filtering distributes over concatenation |
| Properties.TitleCandidatesMembers | main.go:148-152 | the title candidates are exactly the candidate lines |
| Properties.TitleIs | main.go:143-152 | the title components are the lines strictly before the first `> Enter` line that are non-empty and contain neither `[SKIPPED]` nor `/`; the title is empty iff there are none |
| Properties.TitleExample | main.go:143-152 | `["Alpha", "at a/b.go:3", "Beta", "> Enter", "Gamma"]` gets the title `"Alpha, Beta"` |
| Properties.LogOfAppend | main.go:133-134 | the log of two runs of lines is the log of the first followed by the log of the second |
| Properties.AllLogsOfCases | main.go:105 | the cases' logs together are the log of their segments laid end to end |
| Properties.LogsAreContentLines | main.go:96-134 | the logs of all cases, in order, form a prefix of the non-separator lines between the first separator and the first `Summarizing` line; without a `Summarizing` line they are all of those lines. So the preamble and the separators never appear in a log |
| Properties.CaseCountWithoutSummary | main.go:96-175 | with k separator lines and no `Summarizing` line after the first one, there are exactly k cases |
| Properties.CaseCountWithSummary | main.go:91-131 | with a `Summarizing` line, there is one case per separator line strictly between the first separator and that line |
| Properties.TrailingSeparatorCase | main.go:155-181 | a log ending in a separator line, with no `Summarizing` line, yields the cases of the segments the separators closed followed by one empty case: empty title, empty log, `pass`, no entry marker |
| Properties.SeparatorAtEnd | main.go:120-125 | Proof step: when the last line is a separator, no segment is left open after the first separator |
| Properties.TrailingEmptySegment | main.go:155-181 | without a `Summarizing` line and with no segment left open, the cases are those of the closed segments and then the case of the empty segment |
| Properties.OpenSegmentAfterSeparator | main.go:120-125 | Proof step: after a separator line the case in progress is empty |
| Properties.EmptySegmentCase | main.go:177-181 | Proof step: an empty segment becomes an untitled `pass` case with an empty log |
| Properties.KeptSegmentsExtend | main.go:91-131 | lines after a `Summarizing` line do not change which segments are kept |
| Properties.ParsedCasesFinal | main.go:91-131 | once a `Summarizing` line has been read after the first separator, later lines add no case |
| Properties.SummaryIsFinal | main.go:91-156 | once a `Summarizing` line has been read after the first separator, appending any further lines leaves the report unchanged |

## Left out

- `main` (main.go:32-64) is left out: flag parsing, opening the file, exit codes and console output are command-line plumbing.
- `generateHTMLReport` (main.go:192-489) is left out. It fills an HTML template with Go's `html/template` engine and writes the result to a file. Escaping and the "Failed" badge belong to that engine, which is not part of this model.
- The timestamp `time.Now().Format(...)` (main.go:70) comes from the wall clock. It is the `generatedAt` parameter instead.
- Line splitting by `bufio.Scanner` (main.go:67) is not modelled: CR stripping, the token-size limit and read errors. The input is the sequence of lines it would produce.
- The `DisplayTime` field (main.go:19) is never set by the parser, so the model omits it.
- Go's `int` counters can overflow. The model uses unbounded integers, since overflow would need more than 2^31 or 2^63 cases, depending on the platform.
- Lines are Dafny strings, which are sequences of Unicode characters, while Go strings are byte sequences. Every marker the parser looks for is ASCII, so the substring tests come out the same. But `LogContent` is built byte for byte in the source, and the model does not capture that byte-level content, such as invalid UTF-8.
- The parser's local variables are fields of one `ScanState` record, and its `strings.Builder` buffer is a string. The model does not capture aliasing or in-place update of these locals, because the source never shares them.
