/** The log parser as the program runs it: one pass over the lines that skips the preamble, then
    builds each case line by line, appends it at the next separator or at the end of the input
    unless the summary block has begun, and finally defaults the empty statuses to `Pass`. */
module Parser {
  import opened Strings
  import opened Report
  import opened Segmentation

  /** Every counter of `report` agrees with the number of its cases of that status. */
  predicate CountersAgree(report: TestReport)
  {
    report.passedTests == CountStatus(report.testCases, Pass) &&
    report.failedTests == CountStatus(report.testCases, Fail) &&
    report.skippedTests == CountStatus(report.testCases, Skip)
  }

  /** Closes the case in progress: its title is the joined title lines (left as it was when there are
      none), its log the buffer; it is appended to the report and counted under its status. */
  method AppendCase(report: TestReport, current: TestCase, titleLines: seq<string>, buffer: string)
    returns (r: TestReport)
    ensures |r.testCases| == |report.testCases| + 1
    ensures r.testCases == report.testCases + [r.testCases[|report.testCases|]]
    ensures var c := r.testCases[|report.testCases|];
      c.status == current.status && c.hasEnter == current.hasEnter && c.logContent == buffer &&
      c.title == (if titleLines == [] then current.title else Join(titleLines, TitleSeparator))
    ensures r.totalTests == report.totalTests + 1 && r.generatedAt == report.generatedAt
    ensures CountersAgree(report) ==> CountersAgree(r)
  {
    var c := current;
    if |titleLines| > 0 {
      c := c.(title := Join(titleLines, TitleSeparator));
    }
    c := c.(logContent := buffer);
    r := report.(testCases := report.testCases + [c], totalTests := report.totalTests + 1);
    match c.status {
      case Pass => r := r.(passedTests := r.passedTests + 1);
      case Fail => r := r.(failedTests := r.failedTests + 1);
      case Skip => r := r.(skippedTests := r.skippedTests + 1);
      case Unset =>
    }
  }

  /** The state of the case in progress (its record, log buffer and title lines) is what the segment
      lines `seg` read so far make of it. */
  ghost predicate Tracks(seg: seq<string>, current: TestCase, buffer: string, titleLines: seq<string>)
  {
    buffer == LogOf(seg) && titleLines == TitleLines(seg) &&
    current == NewCase.(status := LastMarker(seg), hasEnter := HasEnter(seg))
  }

  /** Reads one content line into the case in progress: the line goes to the log, a marker line sets
      the status, the entry marker ends title collection, and a title candidate read before the
      entry marker joins the title lines. */
  method ReadContentLine(current: TestCase, buffer: string, titleLines: seq<string>, line: string,
                         ghost seg: seq<string>)
    returns (current': TestCase, buffer': string, titleLines': seq<string>)
    requires Tracks(seg, current, buffer, titleLines)
    ensures Tracks(seg + [line], current', buffer', titleLines')
  {
    LogOfSnoc(seg, line);
    LastMarkerSnoc(seg, line);
    TitleLinesSnoc(seg, line);
    current', buffer', titleLines' := current, buffer, titleLines;
    buffer' := buffer' + line + "\n";
    if Contains(line, SkippedMarker) {
      current' := current'.(status := Skip);
    } else if Contains(line, FailedMarker) {
      current' := current'.(status := Fail);
    }
    if Contains(line, EnterMarker) {
      current' := current'.(hasEnter := true);
    }
    if !current'.hasEnter && line != "" && !Contains(line, SkippedMarker) && !Contains(line, PathMarker) {
      titleLines' := titleLines' + [line];
    }
  }

  /** The first loop: reads up to and including the first separator line. It returns the index of
      the line after it and whether there was one; without one every line is read. */
  method SkipPreamble(lines: seq<string>) returns (i: nat, inTestCase: bool)
    ensures inTestCase ==> 0 < i <= |lines| && IndexOfLineContaining(lines, Separator) == Some(i - 1)
    ensures !inTestCase ==> i == |lines| && IndexOfLineContaining(lines, Separator) == None
  {
    inTestCase := false;
    i := 0;
    while i < |lines|
      invariant 0 <= i <= |lines|
      invariant !inTestCase
      invariant forall j :: 0 <= j < i ==> !IsSeparator(lines[j])
    {
      var line := lines[i];
      i := i + 1;
      if IsSeparator(line) {
        inTestCase := true;
        break;
      }
    }
    if inTestCase {
      IndexOfLineContainingIs(lines, Separator, i - 1);
    }
  }

  /** The parser's local state while it reads the lines after the preamble. */
  datatype ScanState = ScanState(
    report: TestReport,
    current: TestCase,
    inTestCase: bool,
    buffer: string,
    titleLines: seq<string>,
    inSummarizing: bool)

  /** The appended cases are those of `segs`, in order, before the final pass sets default statuses. */
  ghost predicate CasesMatch(cases: seq<TestCase>, segs: seq<seq<string>>)
  {
    |cases| == |segs| && forall k :: 0 <= k < |cases| ==> cases[k] == RawCaseOf(segs[k])
  }

  /** Appending the case that tracks `seg` extends the match by that segment. */
  lemma CasesMatchSnoc(cases: seq<TestCase>, segs: seq<seq<string>>, c: TestCase, seg: seq<string>)
    requires CasesMatch(cases, segs) && c == RawCaseOf(seg)
    ensures CasesMatch(cases + [c], segs + [seg])
  {
    var cs, ss := cases + [c], segs + [seg];
    forall k | 0 <= k < |cs|
      ensures cs[k] == RawCaseOf(ss[k])
    {
      if k < |cases| {
        assert cs[k] == cases[k] && ss[k] == segs[k];
      }
    }
  }

  /** The case in progress, given its title and its log, is the case of the segment it tracks. */
  lemma TrackedCase(seg: seq<string>, current: TestCase, buffer: string, titleLines: seq<string>)
    requires Tracks(seg, current, buffer, titleLines)
    ensures current.title == "" && Join(titleLines, TitleSeparator) == Title(seg)
    ensures forall c: TestCase ::
      c.status == current.status && c.hasEnter == current.hasEnter && c.logContent == buffer &&
      c.title == (if titleLines == [] then current.title else Join(titleLines, TitleSeparator))
      ==> c == RawCaseOf(seg)
  {
  }

  /** What the state is after reading `read` (the lines after the preamble): the summary flag is set
      exactly when one of them contains Summarizing; the report holds the cases of the segments
      closed before that line (or so far, if there is none); while no Summarizing line has been
      read, the case in progress describes the open segment; the counters agree with the cases. */
  ghost predicate Consistent(st: ScanState, read: seq<string>)
  {
    st.inSummarizing == IndexOfLineContaining(read, SummarizingMarker).Some? &&
    CasesMatch(st.report.testCases, ClosedSegments(BeforeSummary(read))) &&
    (!st.inSummarizing ==> Tracks(OpenSegment(read), st.current, st.buffer, st.titleLines)) &&
    CountersAgree(st.report)
  }

  /** The body of the second loop: reads one line after the preamble. A Summarizing line sets the
      summary flag for good; a separator line appends the case in progress (unless the flag is
      set) and starts a new one; any other line is read into the case in progress unless the flag
      is set. */
  method ScanLine(st: ScanState, line: string, ghost read: seq<string>) returns (st': ScanState)
    requires st.inTestCase && Consistent(st, read)
    ensures st'.inTestCase && Consistent(st', read + [line])
    ensures st'.report.generatedAt == st.report.generatedAt
  {
    IndexOfLineContainingSnoc(read, line, SummarizingMarker);
    BeforeSummarySnoc(read, line);
    ClosedSegmentsSnoc(read, line);
    var report, current, inTestCase := st.report, st.current, st.inTestCase;
    var buffer, titleLines, inSummarizing := st.buffer, st.titleLines, st.inSummarizing;

    // The summary block has begun: nothing from here on is appended.
    if IsSummarizing(line) {
      inSummarizing := true;
    }

    if IsSeparator(line) {
      if inTestCase && !inSummarizing {
        report := AppendCase(report, current, titleLines, buffer);
        TrackedCase(OpenSegment(read), st.current, st.buffer, st.titleLines);
        CasesMatchSnoc(st.report.testCases, ClosedSegments(read), report.testCases[|st.report.testCases|], OpenSegment(read));
      }
      current := NewCase;
      buffer := "";
      titleLines := [];
      inTestCase := true;
    } else if !inSummarizing {
      current, buffer, titleLines := ReadContentLine(current, buffer, titleLines, line, OpenSegment(read));
    }
    st' := ScanState(report, current, inTestCase, buffer, titleLines, inSummarizing);
  }

  lemma SliceSnoc(lines: seq<string>, lo: nat, hi: nat)
    requires lo <= hi < |lines|
    ensures lines[lo..hi + 1] == lines[lo..hi] + [lines[hi]]
  {
  }

  /** The state before the second loop reads its first line. */
  lemma ConsistentInitially(generatedAt: string, found: bool)
    ensures Consistent(ScanState(EmptyReport(generatedAt), NewCase, found, "", [], false), [])
  {
    assert Segments([]) == [[]];
  }

  /** The second loop: reads the lines from `start` on, one at a time. `found` says whether the
      preamble ended in a separator; if it did not, there is nothing left to read. */
  method ScanLines(lines: seq<string>, start: nat, found: bool, generatedAt: string)
    returns (st: ScanState)
    requires start <= |lines|
    requires !found ==> start == |lines|
    ensures st.inTestCase == found && Consistent(st, lines[start..])
    ensures st.report.generatedAt == generatedAt
  {
    st := ScanState(EmptyReport(generatedAt), NewCase, found, "", [], false);
    ConsistentInitially(generatedAt, found);
    var i := start;
    ghost var read: seq<string> := [];
    while i < |lines|
      invariant start <= i <= |lines| && read == lines[start..i]
      invariant st.inTestCase == found
      invariant Consistent(st, read) && st.report.generatedAt == generatedAt
    {
      SliceSnoc(lines, start, i);
      st := ScanLine(st, lines[i], read);
      read := read + [lines[i]];
      i := i + 1;
    }
    assert read == lines[start..];
  }

  /** The second loop and the append after it: the last case is appended unless the summary block
      has begun. The cases appended are the kept segments' cases, still without their default
      status, and the counters agree with them. */
  method ScanCases(lines: seq<string>, start: nat, found: bool, generatedAt: string)
    returns (report: TestReport)
    requires start <= |lines|
    requires !found ==> start == |lines|
    ensures found ==> CasesMatch(report.testCases, KeptSegments(lines[start..]))
    ensures !found ==> report.testCases == []
    ensures CountersAgree(report) && report.generatedAt == generatedAt
  {
    ghost var rest := lines[start..];
    var st := ScanLines(lines, start, found, generatedAt);
    report := st.report;
    if st.inTestCase && !st.inSummarizing {
      report := AppendCase(report, st.current, st.titleLines, st.buffer);
      KeptSegmentsAtEnd(rest);
      TrackedCase(OpenSegment(rest), st.current, st.buffer, st.titleLines);
      CasesMatchSnoc(st.report.testCases, ClosedSegments(rest), report.testCases[|st.report.testCases|], OpenSegment(rest));
    } else if found {
      KeptSegmentsAtEnd(rest);
    }
  }

  /** The final loop: every case still without a status passed, and the pass counter grows by one
      for each; nothing else changes. */
  method DefaultStatuses(report: TestReport) returns (r: TestReport)
    requires CountersAgree(report)
    ensures CountersAgree(r)
    ensures |r.testCases| == |report.testCases|
    ensures forall k :: 0 <= k < |r.testCases| ==> r.testCases[k] == Defaulted(report.testCases[k])
    ensures r.generatedAt == report.generatedAt
    ensures r.passedTests == report.passedTests + CountStatus(report.testCases, Unset)
    ensures r.failedTests == report.failedTests && r.skippedTests == report.skippedTests
    ensures r.totalTests == report.totalTests
  {
    r := report;
    var k := 0;
    while k < |r.testCases|
      invariant 0 <= k <= |r.testCases| == |report.testCases|
      invariant forall j :: 0 <= j < k ==> r.testCases[j] == Defaulted(report.testCases[j])
      invariant forall j :: k <= j < |r.testCases| ==> r.testCases[j] == report.testCases[j]
      invariant CountersAgree(r) && r.generatedAt == report.generatedAt
      invariant r.passedTests + CountStatus(r.testCases, Unset) ==
        report.passedTests + CountStatus(report.testCases, Unset)
      invariant r.failedTests == report.failedTests && r.skippedTests == report.skippedTests
      invariant r.totalTests == report.totalTests
    {
      if r.testCases[k].status == Unset {
        var c := r.testCases[k].(status := Pass);
        CountStatusUpdate(r.testCases, k, c, Pass);
        CountStatusUpdate(r.testCases, k, c, Fail);
        CountStatusUpdate(r.testCases, k, c, Skip);
        CountStatusUpdate(r.testCases, k, c, Unset);
        r := r.(testCases := r.testCases[k := c], passedTests := r.passedTests + 1);
      }
      k := k + 1;
    }
    CountStatusAbsent(r.testCases, Unset);
  }

  /** When the first loop stops after the separator at `f`, Parse keeps the segments of the lines
      after it. */
  lemma ParsedCasesAfterPreamble(lines: seq<string>, f: nat, start: nat)
    requires IndexOfLineContaining(lines, Separator) == Some(f) && start == f + 1
    ensures ParsedCases(lines) == CasesOf(KeptSegments(lines[start..]))
  {
    ParsedCasesAt(lines, f);
  }

  /** The cases the scan appends, with their statuses defaulted, are the cases Parse describes. */
  lemma ScannedCasesAreParsed(lines: seq<string>, kept: seq<seq<string>>, raw: seq<TestCase>, cases: seq<TestCase>)
    requires ParsedCases(lines) == CasesOf(kept) && CasesMatch(raw, kept)
    requires |cases| == |raw| && forall k :: 0 <= k < |raw| ==> cases[k] == Defaulted(raw[k])
    ensures cases == ParsedCases(lines)
  {
    forall k | 0 <= k < |kept|
      ensures cases[k] == CasesOf(kept)[k]
    {
      CasesOfAt(kept, k);
      DefaultedRawCase(kept[k]);
    }
  }

  /** Parses the log `lines`; `generatedAt` is the timestamp the report carries. The result is the
      report Parse describes. */
  method ParseTestReport(lines: seq<string>, generatedAt: string) returns (report: TestReport)
    ensures report == Parse(lines, generatedAt)
  {
    var start, inTestCase := SkipPreamble(lines);
    var scanned := ScanCases(lines, start, inTestCase, generatedAt);
    report := DefaultStatuses(scanned);
    ghost var kept: seq<seq<string>> := [];
    if inTestCase {
      kept := KeptSegments(lines[start..]);
      ParsedCasesAfterPreamble(lines, start - 1, start);
    } else {
      assert CasesOf(kept) == [];
    }
    ScannedCasesAreParsed(lines, kept, scanned.testCases, report.testCases);
    // The total is the sum of the three counters.
    report := report.(totalTests := report.passedTests + report.failedTests + report.skippedTests);
  }
}
