/** The records the log parser produces, and the textual markers of the log dialect it reads. */
module Report {
  import opened Strings

  /** A test case's status. `Unset` is the empty status a case has until a marker line is seen or
      the final pass defaults it; the other three are the strings "pass", "fail" and "skip". */
  datatype Status = Unset | Pass | Fail | Skip

  /** One segment of the log between two separator lines. */
  datatype TestCase = TestCase(
    title: string,
    status: Status,
    logContent: string,
    hasEnter: bool)

  /** The parse result: the cases in log order and the counters. */
  datatype TestReport = TestReport(
    totalTests: int,
    passedTests: int,
    failedTests: int,
    skippedTests: int,
    testCases: seq<TestCase>,
    generatedAt: string)

  /** The initial report: no cases, every counter zero. */
  function EmptyReport(generatedAt: string): (r: TestReport)
    ensures r.testCases == [] && r.generatedAt == generatedAt
    ensures r.totalTests == r.passedTests == r.failedTests == r.skippedTests == 0
  {
    TestReport(0, 0, 0, 0, [], generatedAt)
  }

  /** The case a new segment starts with: empty title, log and status, no entry marker seen. */
  const NewCase := TestCase("", Unset, "", false)

  /** Thirty dashes: any line containing them separates segments. */
  const Separator := "------------------------------"
  /** Marks the start of the trailing summary block. */
  const SummarizingMarker := "Summarizing"
  const SkippedMarker := "[SKIPPED]"
  const FailedMarker := "[FAILED]"
  /** The entry marker: the test body has begun and title collection stops. */
  const EnterMarker := "> Enter"
  /** Lines holding a path separator (stack frames, source locations) never become title parts. */
  const PathMarker := "/"
  const TitleSeparator := ", "

  predicate IsSeparator(line: string)
  {
    Contains(line, Separator)
  }

  predicate IsSummarizing(line: string)
  {
    Contains(line, SummarizingMarker)
  }

  /** The status a single content line announces: `[SKIPPED]` wins over `[FAILED]` on one line. */
  function Marker(line: string): (s: Status)
    ensures s == Skip <==> Contains(line, SkippedMarker)
    ensures s == Fail <==> !Contains(line, SkippedMarker) && Contains(line, FailedMarker)
    ensures s != Pass
  {
    if Contains(line, SkippedMarker) then Skip
    else if Contains(line, FailedMarker) then Fail
    else Unset
  }

  /** A line before the entry marker that may become part of a title. */
  predicate IsTitleCandidate(line: string)
  {
    line != "" && !Contains(line, SkippedMarker) && !Contains(line, PathMarker)
  }

  /** How many cases in `cases` have status `s`. */
  function CountStatus(cases: seq<TestCase>, s: Status): (n: nat)
    ensures n <= |cases|
  {
    if cases == [] then 0
    else CountStatus(cases[..|cases| - 1], s) + (if cases[|cases| - 1].status == s then 1 else 0)
  }

  /** Changing one case's status moves it from one count to another and leaves the rest alone. */
  lemma {:induction false} CountStatusUpdate(cases: seq<TestCase>, k: nat, c: TestCase, s: Status)
    requires k < |cases|
    ensures CountStatus(cases[k := c], s) ==
      CountStatus(cases, s) - (if cases[k].status == s then 1 else 0) + (if c.status == s then 1 else 0)
  {
    var n := |cases|;
    var updated := cases[k := c];
    if k < n - 1 {
      assert updated[..n - 1] == cases[..n - 1][k := c];
      CountStatusUpdate(cases[..n - 1], k, c, s);
    } else {
      assert updated[..n - 1] == cases[..n - 1];
    }
  }

  /** A status no case has is counted zero times. */
  lemma {:induction false} CountStatusAbsent(cases: seq<TestCase>, s: Status)
    requires forall k :: 0 <= k < |cases| ==> cases[k].status != s
    ensures CountStatus(cases, s) == 0
  {
    if cases != [] {
      CountStatusAbsent(cases[..|cases| - 1], s);
    }
  }
}
