/** A declarative account of what the log parser computes: where the preamble ends, how the rest
    is cut into segments, which segments are kept, and what case each kept segment becomes.
    `Parse` is the reference the imperative parser is proved against. */
module Segmentation {
  import opened Strings
  import opened Report

  datatype Option<T> = None | Some(value: T)

  /** The index of the first line that contains `pat`, if any. */
  function IndexOfLineContaining(xs: seq<string>, pat: string): (r: Option<nat>)
    ensures r.Some? ==> r.value < |xs| && Contains(xs[r.value], pat)
    ensures r.Some? ==> forall j {:trigger Contains(xs[j], pat)} :: 0 <= j < r.value ==> !Contains(xs[j], pat)
    ensures r.None? <==> forall j {:trigger Contains(xs[j], pat)} :: 0 <= j < |xs| ==> !Contains(xs[j], pat)
  {
    if xs == [] then None
    else if Contains(xs[0], pat) then Some(0)
    else match IndexOfLineContaining(xs[1..], pat)
      case None => None
      case Some(k) => Some(k + 1)
  }

  /** The first line containing `pat` is determined by the two facts IndexOfLineContaining promises. */
  lemma IndexOfLineContainingIs(xs: seq<string>, pat: string, m: nat)
    requires m < |xs| && Contains(xs[m], pat)
    requires forall j :: 0 <= j < m ==> !Contains(xs[j], pat)
    ensures IndexOfLineContaining(xs, pat) == Some(m)
  {
  }

  /** Looking one line further changes the first match only if there was none yet. */
  lemma IndexOfLineContainingSnoc(xs: seq<string>, line: string, pat: string)
    ensures IndexOfLineContaining(xs + [line], pat) ==
      if IndexOfLineContaining(xs, pat).Some? then IndexOfLineContaining(xs, pat)
      else if Contains(line, pat) then Some(|xs|)
      else None
  {
    var ys := xs + [line];
    match IndexOfLineContaining(xs, pat)
    case Some(m) =>
      assert ys[m] == xs[m];
      IndexOfLineContainingIs(ys, pat, m);
    case None =>
      if Contains(line, pat) {
        IndexOfLineContainingIs(ys, pat, |xs|);
      } else {
        forall j | 0 <= j < |ys|
          ensures !Contains(ys[j], pat)
        {
          if j < |xs| {
            assert ys[j] == xs[j];
          }
        }
      }
  }

  // ---------------------------------------------------------------------------------------------
  // Cutting the lines after the preamble into segments

  /** The lines cut at every separator line: k separator lines give k + 1 segments, and the
      separator lines themselves belong to none of them. */
  function Segments(xs: seq<string>): (segs: seq<seq<string>>)
    ensures |segs| >= 1
  {
    if xs == [] then [[]]
    else
      var prev := Segments(xs[..|xs| - 1]);
      var line := xs[|xs| - 1];
      if IsSeparator(line) then prev + [[]]
      else prev[..|prev| - 1] + [prev[|prev| - 1] + [line]]
  }

  function CountSeparators(xs: seq<string>): nat
  {
    if xs == [] then 0
    else CountSeparators(xs[..|xs| - 1]) + (if IsSeparator(xs[|xs| - 1]) then 1 else 0)
  }

  /** The lines that are not separators, in order. */
  function NonSeparatorLines(xs: seq<string>): seq<string>
  {
    if xs == [] then []
    else NonSeparatorLines(xs[..|xs| - 1]) + (if IsSeparator(xs[|xs| - 1]) then [] else [xs[|xs| - 1]])
  }

  /** The segments laid end to end. */
  function Flatten(segs: seq<seq<string>>): seq<string>
  {
    if segs == [] then [] else Flatten(segs[..|segs| - 1]) + segs[|segs| - 1]
  }

  lemma SegmentsSnoc(xs: seq<string>, line: string)
    ensures Segments(xs + [line]) ==
      var prev := Segments(xs);
      if IsSeparator(line) then prev + [[]]
      else prev[..|prev| - 1] + [prev[|prev| - 1] + [line]]
  {
    assert (xs + [line])[..|xs|] == xs;
  }

  /** There is one segment more than there are separator lines. */
  lemma {:induction false} SegmentsCount(xs: seq<string>)
    ensures |Segments(xs)| == CountSeparators(xs) + 1
  {
    if xs != [] {
      SegmentsCount(xs[..|xs| - 1]);
    }
  }

  /** No segment holds a separator line. */
  lemma {:induction false} SegmentsHaveNoSeparator(xs: seq<string>)
    ensures forall k, j :: 0 <= k < |Segments(xs)| && 0 <= j < |Segments(xs)[k]| ==>
      !IsSeparator(Segments(xs)[k][j])
  {
    if xs != [] {
      var init := xs[..|xs| - 1];
      var line := xs[|xs| - 1];
      SegmentsHaveNoSeparator(init);
      var prev := Segments(init);
      var segs := Segments(xs);
      forall k, j | 0 <= k < |segs| && 0 <= j < |segs[k]|
        ensures !IsSeparator(segs[k][j])
      {
        if k < |prev| - 1 || (IsSeparator(line) && k < |prev|) {
          assert segs[k] == prev[k];
        } else if !IsSeparator(line) {
          assert segs[k] == prev[|prev| - 1] + [line];
        }
      }
    }
  }

  /** The segments laid end to end are exactly the non-separator lines, in their original order. */
  lemma {:induction false} SegmentsFlatten(xs: seq<string>)
    ensures Flatten(Segments(xs)) == NonSeparatorLines(xs)
  {
    if xs != [] {
      var init := xs[..|xs| - 1];
      var line := xs[|xs| - 1];
      SegmentsFlatten(init);
      var prev := Segments(init);
      var n := |prev|;
      if IsSeparator(line) {
        FlattenSnoc(prev, []);
      } else {
        var closed, open := prev[..n - 1], prev[n - 1];
        assert prev == closed + [open];
        FlattenSnoc(closed, open);
        FlattenSnoc(closed, open + [line]);
      }
    }
  }

  lemma FlattenSnoc(segs: seq<seq<string>>, seg: seq<string>)
    ensures Flatten(segs + [seg]) == Flatten(segs) + seg
  {
    assert (segs + [seg])[..|segs|] == segs;
  }

  // ---------------------------------------------------------------------------------------------
  // What one segment becomes

  /** The segment's status before defaulting: that of its last marker line, or Unset if none. */
  function LastMarker(seg: seq<string>): (s: Status)
    ensures s != Pass
  {
    if seg == [] then Unset
    else if Marker(seg[|seg| - 1]) != Unset then Marker(seg[|seg| - 1])
    else LastMarker(seg[..|seg| - 1])
  }

  /** The final status: the last marker line's, `Pass` if the segment has none. */
  function Classify(seg: seq<string>): (s: Status)
    ensures s != Unset
  {
    if LastMarker(seg) == Unset then Pass else LastMarker(seg)
  }

  /** Whether some line of the segment contains the entry marker. */
  predicate HasEnter(seg: seq<string>)
  {
    IndexOfLineContaining(seg, EnterMarker).Some?
  }

  /** The index of the first entry-marker line, or the segment's length if there is none. */
  function EnterPos(seg: seq<string>): (p: nat)
    ensures p <= |seg|
    ensures p < |seg| <==> HasEnter(seg)
    ensures p < |seg| ==> Contains(seg[p], EnterMarker)
    ensures forall j {:trigger Contains(seg[j], EnterMarker)} :: 0 <= j < p ==> !Contains(seg[j], EnterMarker)
  {
    match IndexOfLineContaining(seg, EnterMarker)
    case None => |seg|
    case Some(m) => m
  }

  /** The title candidates among `xs`, in order. */
  function TitleCandidates(xs: seq<string>): seq<string>
  {
    if xs == [] then []
    else TitleCandidates(xs[..|xs| - 1]) + (if IsTitleCandidate(xs[|xs| - 1]) then [xs[|xs| - 1]] else [])
  }

  /** The title components: the candidates strictly before the first entry-marker line. */
  function TitleLines(seg: seq<string>): seq<string>
  {
    TitleCandidates(seg[..EnterPos(seg)])
  }

  function Title(seg: seq<string>): string
  {
    Join(TitleLines(seg), TitleSeparator)
  }

  /** The segment's lines, each followed by a newline. */
  function LogOf(seg: seq<string>): string
  {
    if seg == [] then "" else LogOf(seg[..|seg| - 1]) + seg[|seg| - 1] + "\n"
  }

  /** The case a segment becomes when it is appended, before the final pass defaults its status. */
  function RawCaseOf(seg: seq<string>): TestCase
  {
    TestCase(Title(seg), LastMarker(seg), LogOf(seg), HasEnter(seg))
  }

  /** The case a segment stands for in the finished report. */
  function CaseOf(seg: seq<string>): TestCase
  {
    TestCase(Title(seg), Classify(seg), LogOf(seg), HasEnter(seg))
  }

  /** The status the final pass gives a case: an empty status becomes `Pass`. */
  function Defaulted(c: TestCase): TestCase
  {
    if c.status == Unset then c.(status := Pass) else c
  }

  lemma DefaultedRawCase(seg: seq<string>)
    ensures Defaulted(RawCaseOf(seg)) == CaseOf(seg)
  {
  }

  /** The case of each segment, in order. */
  function CasesOf(segs: seq<seq<string>>): (cases: seq<TestCase>)
    ensures |cases| == |segs|
  {
    if segs == [] then [] else CasesOf(segs[..|segs| - 1]) + [CaseOf(segs[|segs| - 1])]
  }

  /** Each segment becomes the case at its own position. */
  lemma {:induction false} CasesOfAt(segs: seq<seq<string>>, k: nat)
    requires k < |segs|
    ensures CasesOf(segs)[k] == CaseOf(segs[k])
  {
    if k < |segs| - 1 {
      CasesOfAt(segs[..|segs| - 1], k);
    }
  }

  lemma CasesOfSnoc(segs: seq<seq<string>>, seg: seq<string>)
    ensures CasesOf(segs + [seg]) == CasesOf(segs) + [CaseOf(seg)]
  {
    assert (segs + [seg])[..|segs|] == segs;
  }

  lemma LastMarkerSnoc(seg: seq<string>, line: string)
    ensures LastMarker(seg + [line]) == if Marker(line) != Unset then Marker(line) else LastMarker(seg)
  {
    assert (seg + [line])[..|seg|] == seg;
  }

  lemma LogOfSnoc(seg: seq<string>, line: string)
    ensures LogOf(seg + [line]) == LogOf(seg) + line + "\n"
  {
    assert (seg + [line])[..|seg|] == seg;
  }

  /** Title components are gathered line by line until the first entry-marker line, which is itself
      excluded. */
  lemma TitleLinesSnoc(seg: seq<string>, line: string)
    ensures HasEnter(seg + [line]) == (HasEnter(seg) || Contains(line, EnterMarker))
    ensures TitleLines(seg + [line]) ==
      if HasEnter(seg + [line]) then TitleLines(seg)
      else TitleLines(seg) + (if IsTitleCandidate(line) then [line] else [])
  {
    var ys := seg + [line];
    IndexOfLineContainingSnoc(seg, line, EnterMarker);
    if HasEnter(seg) {
      assert ys[..EnterPos(seg)] == seg[..EnterPos(seg)];
    } else if Contains(line, EnterMarker) {
      assert ys[..|seg|] == seg[..|seg|];
    } else {
      assert ys[..|ys|] == ys;
      assert ys[..|ys| - 1] == seg[..|seg|];
    }
  }

  // ---------------------------------------------------------------------------------------------
  // The whole report

  /** The segments already closed by a separator: all but the one still open at the end. */
  function ClosedSegments(xs: seq<string>): seq<seq<string>>
  {
    var segs := Segments(xs);
    segs[..|segs| - 1]
  }

  /** The segment still open at the end of `xs`. */
  function OpenSegment(xs: seq<string>): seq<string>
  {
    var segs := Segments(xs);
    segs[|segs| - 1]
  }

  /** A separator closes the open segment and opens an empty one; any other line joins the open one. */
  lemma ClosedSegmentsSnoc(xs: seq<string>, line: string)
    ensures ClosedSegments(xs + [line]) ==
      if IsSeparator(line) then ClosedSegments(xs) + [OpenSegment(xs)] else ClosedSegments(xs)
    ensures OpenSegment(xs + [line]) == if IsSeparator(line) then [] else OpenSegment(xs) + [line]
  {
    SegmentsSnoc(xs, line);
    var prev := Segments(xs);
    var n := |prev|;
    if IsSeparator(line) {
      assert (prev + [[]])[..n] == prev[..n - 1] + [prev[n - 1]];
    } else {
      assert (prev[..n - 1] + [prev[n - 1] + [line]])[..n - 1] == prev[..n - 1];
    }
  }

  /** The lines before the first Summarizing line; all of them if there is none. */
  function BeforeSummary(xs: seq<string>): seq<string>
  {
    match IndexOfLineContaining(xs, SummarizingMarker)
    case None => xs
    case Some(m) => xs[..m]
  }

  /** Once a Summarizing line has been read, reading further leaves BeforeSummary as it is. */
  lemma BeforeSummarySnoc(xs: seq<string>, line: string)
    ensures BeforeSummary(xs + [line]) ==
      if IndexOfLineContaining(xs, SummarizingMarker).Some? then BeforeSummary(xs)
      else if IsSummarizing(line) then xs
      else xs + [line]
  {
    IndexOfLineContainingSnoc(xs, line, SummarizingMarker);
    var r := IndexOfLineContaining(xs, SummarizingMarker);
    if r.Some? {
      TakeSnoc(xs, line, r.value);
    } else {
      TakeSnoc(xs, line, |xs|);
    }
  }

  lemma TakeSnoc(xs: seq<string>, line: string, m: nat)
    requires m <= |xs|
    ensures (xs + [line])[..m] == xs[..m]
  {
  }

  /** The segments that become cases, given the lines after the first separator. Without a
      Summarizing line every segment is kept; otherwise only those closed by a separator strictly
      before the first Summarizing line (the segment still open there is dropped). */
  function KeptSegments(rest: seq<string>): seq<seq<string>>
  {
    match IndexOfLineContaining(rest, SummarizingMarker)
    case None => Segments(rest)
    case Some(m) => ClosedSegments(rest[..m])
  }

  /** The kept segments: those closed before the first Summarizing line if there is one; all of
      them, the open one included, otherwise. */
  lemma KeptSegmentsAtEnd(rest: seq<string>)
    ensures KeptSegments(rest) ==
      if IndexOfLineContaining(rest, SummarizingMarker).Some? then ClosedSegments(BeforeSummary(rest))
      else ClosedSegments(rest) + [OpenSegment(rest)]
  {
    var segs := Segments(rest);
    assert segs == segs[..|segs| - 1] + [segs[|segs| - 1]];
  }

  /** The lines the second loop reads: those after the first separator line; none without one. */
  function AfterPreamble(lines: seq<string>): seq<string>
  {
    match IndexOfLineContaining(lines, Separator)
    case None => []
    case Some(f) => lines[f + 1..]
  }

  lemma AfterPreambleAt(lines: seq<string>, f: nat)
    requires IndexOfLineContaining(lines, Separator) == Some(f)
    ensures AfterPreamble(lines) == lines[f + 1..]
  {
  }

  /** The cases the log describes, in log order: none without a separator line; otherwise the
      cases of the kept segments after the first one. */
  function ParsedCases(lines: seq<string>): seq<TestCase>
  {
    if IndexOfLineContaining(lines, Separator).None? then [] else CasesOf(KeptSegments(AfterPreamble(lines)))
  }

  /** The cases after the first separator, at index `f`. */
  lemma ParsedCasesAt(lines: seq<string>, f: nat)
    requires IndexOfLineContaining(lines, Separator) == Some(f)
    ensures ParsedCases(lines) == CasesOf(KeptSegments(lines[f + 1..]))
  {
    AfterPreambleAt(lines, f);
  }

  /** The report for `lines`: its cases and the counters, with the total as the sum of the three. */
  function Parse(lines: seq<string>, generatedAt: string): TestReport
  {
    var cases := ParsedCases(lines);
    var passed := CountStatus(cases, Pass);
    var failed := CountStatus(cases, Fail);
    var skipped := CountStatus(cases, Skip);
    TestReport(passed + failed + skipped, passed, failed, skipped, cases, generatedAt)
  }
}
