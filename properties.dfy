/** What the parse result promises, stated over `Parse`, which the parser method computes exactly:
    the counters add up, every case has a final status, how a segment's status and title come
    about, where the logs come from, how many cases there are, and that nothing counts after the
    summary block has begun. */
module Properties {
  import opened Strings
  import opened Report
  import opened Segmentation

  // ---------------------------------------------------------------------------------------------
  // Counters and statuses

  /** When every case has a final status, the three counters together count every case once. */
  lemma {:induction false} CountStatusSum(cases: seq<TestCase>)
    requires forall k :: 0 <= k < |cases| ==> cases[k].status != Unset
    ensures CountStatus(cases, Pass) + CountStatus(cases, Fail) + CountStatus(cases, Skip) == |cases|
  {
    if cases != [] {
      CountStatusSum(cases[..|cases| - 1]);
    }
  }

  /** The total is the sum of the three counters and also the number of cases, and every case is
      passed, failed or skipped: none keeps an empty status. */
  lemma ParseTotals(lines: seq<string>, generatedAt: string)
    ensures var r := Parse(lines, generatedAt);
      r.totalTests == r.passedTests + r.failedTests + r.skippedTests == |r.testCases| &&
      forall k :: 0 <= k < |r.testCases| ==> r.testCases[k].status in {Pass, Fail, Skip}
  {
    var cases := ParsedCases(lines);
    if IndexOfLineContaining(lines, Separator).Some? {
      var f := IndexOfLineContaining(lines, Separator).value;
      var segs := KeptSegments(lines[f + 1..]);
      ParsedCasesAt(lines, f);
      forall k | 0 <= k < |cases|
        ensures cases[k].status != Unset
      {
        CasesOfAt(segs, k);
      }
    }
    CountStatusSum(cases);
  }

  /** Without a separator line there is nothing but preamble: no cases and every counter zero. */
  lemma NoSeparatorNoCases(lines: seq<string>, generatedAt: string)
    requires forall i :: 0 <= i < |lines| ==> !IsSeparator(lines[i])
    ensures Parse(lines, generatedAt) == TestReport(0, 0, 0, 0, [], generatedAt)
  {
  }

  // ---------------------------------------------------------------------------------------------
  // Status classification

  /** A segment has no status before defaulting exactly when none of its lines is a marker line. */
  lemma {:induction false} LastMarkerNone(seg: seq<string>)
    ensures LastMarker(seg) == Unset <==> forall i :: 0 <= i < |seg| ==> Marker(seg[i]) == Unset
  {
    if seg != [] {
      var init := seg[..|seg| - 1];
      LastMarkerNone(init);
      assert forall i :: 0 <= i < |init| ==> init[i] == seg[i];
    }
  }

  /** Of several marker lines, the last one decides the status. */
  lemma {:induction false} LastMarkerWins(seg: seq<string>, i: nat)
    requires i < |seg| && Marker(seg[i]) != Unset
    requires forall j :: i < j < |seg| ==> Marker(seg[j]) == Unset
    ensures LastMarker(seg) == Marker(seg[i])
  {
    if i < |seg| - 1 {
      var init := seg[..|seg| - 1];
      assert init[i] == seg[i];
      forall j | i < j < |init|
        ensures Marker(init[j]) == Unset
      {
        assert init[j] == seg[j];
      }
      LastMarkerWins(init, i);
    }
  }

  /** A segment passes exactly when it has no marker line. */
  lemma ClassifyPass(seg: seq<string>)
    ensures Classify(seg) == Pass <==> forall i :: 0 <= i < |seg| ==> Marker(seg[i]) == Unset
  {
    LastMarkerNone(seg);
  }

  /** With a last marker line, the segment is skipped if that line contains `[SKIPPED]` and failed
      otherwise (it then contains `[FAILED]`). */
  lemma ClassifyLastMarker(seg: seq<string>, i: nat)
    requires i < |seg| && Marker(seg[i]) != Unset
    requires forall j :: i < j < |seg| ==> Marker(seg[j]) == Unset
    ensures Classify(seg) == if Contains(seg[i], SkippedMarker) then Skip else Fail
    ensures Classify(seg) == Fail ==> Contains(seg[i], FailedMarker)
  {
    LastMarkerWins(seg, i);
  }

  /** A segment whose marker lines all announce the same status `s` (and that has at least one)
      ends up with status `s`, whatever their order. */
  lemma {:induction false} ClassifyOneKind(seg: seq<string>, s: Status)
    requires s == Fail || s == Skip
    requires exists i :: 0 <= i < |seg| && Marker(seg[i]) == s
    requires forall i :: 0 <= i < |seg| ==> Marker(seg[i]) == Unset || Marker(seg[i]) == s
    ensures Classify(seg) == s
  {
    var last := seg[|seg| - 1];
    if Marker(last) == Unset {
      var init := seg[..|seg| - 1];
      var i :| 0 <= i < |seg| && Marker(seg[i]) == s;
      assert init[i] == seg[i];
      forall j | 0 <= j < |init|
        ensures Marker(init[j]) == Unset || Marker(init[j]) == s
      {
        assert init[j] == seg[j];
      }
      ClassifyOneKind(init, s);
    }
  }

  /** A segment with a `[FAILED]` line and no `[SKIPPED]` line fails. */
  lemma ClassifyFailed(seg: seq<string>)
    requires exists i :: 0 <= i < |seg| && Contains(seg[i], FailedMarker)
    requires forall i :: 0 <= i < |seg| ==> !Contains(seg[i], SkippedMarker)
    ensures Classify(seg) == Fail
  {
    ClassifyOneKind(seg, Fail);
  }

  /** A segment with a `[SKIPPED]` line and no `[FAILED]` line is skipped. */
  lemma ClassifySkipped(seg: seq<string>)
    requires exists i :: 0 <= i < |seg| && Contains(seg[i], SkippedMarker)
    requires forall i :: 0 <= i < |seg| ==> !Contains(seg[i], FailedMarker)
    ensures Classify(seg) == Skip
  {
    ClassifyOneKind(seg, Skip);
  }

  // ---------------------------------------------------------------------------------------------
  // Titles

  /** Filtering for title candidates distributes over concatenation: the candidates keep their
      order. */
  lemma {:induction false} TitleCandidatesAppend(xs: seq<string>, ys: seq<string>)
    ensures TitleCandidates(xs + ys) == TitleCandidates(xs) + TitleCandidates(ys)
  {
    if ys == [] {
      assert xs + ys == xs;
    } else {
      var init := ys[..|ys| - 1];
      assert (xs + ys)[..|xs + ys| - 1] == xs + init;
      TitleCandidatesAppend(xs, init);
    }
  }

  /** The title candidates of `xs` are exactly its lines that are candidates. */
  lemma {:induction false} TitleCandidatesMembers(xs: seq<string>)
    ensures forall t :: t in TitleCandidates(xs) <==> t in xs && IsTitleCandidate(t)
  {
    if xs != [] {
      var init := xs[..|xs| - 1];
      TitleCandidatesMembers(init);
      assert xs == init + [xs[|xs| - 1]];
    }
  }

  /** The title components are the candidate lines strictly before the first entry-marker line:
      non-empty, without `[SKIPPED]` and without `/`; the title is empty exactly when there are
      none. */
  lemma TitleIs(seg: seq<string>)
    ensures forall t :: t in TitleLines(seg) <==>
      t in seg[..EnterPos(seg)] && t != "" && !Contains(t, SkippedMarker) && !Contains(t, PathMarker)
    ensures Title(seg) == "" <==> forall i :: 0 <= i < EnterPos(seg) ==> !IsTitleCandidate(seg[i])
  {
    var before := seg[..EnterPos(seg)];
    var parts := TitleLines(seg);
    TitleCandidatesMembers(before);
    if parts != [] {
      assert parts[0] in parts;
      JoinLength(parts, TitleSeparator);
      assert Title(seg) != "";
      var i :| 0 <= i < |before| && before[i] == parts[0];
      assert seg[i] == before[i];
    } else {
      forall i | 0 <= i < EnterPos(seg)
        ensures !IsTitleCandidate(seg[i])
      {
        assert seg[i] == before[i];
      }
    }
  }

  /** A worked case: a source location line is left out of the title because it holds a `/`, and
      nothing after the entry marker line is collected. */
  lemma TitleExample()
    ensures Title(["Alpha", "at a/b.go:3", "Beta", "> Enter", "Gamma"]) == "Alpha, Beta"
  {
    var seg := ["Alpha", "at a/b.go:3", "Beta", "> Enter", "Gamma"];
    calc {
      Title(seg);
    ==
      Join(TitleCandidates(seg[..EnterPos(seg)]), TitleSeparator);
    == { ExampleEnterPos(); assert seg[..3] == ["Alpha", "at a/b.go:3", "Beta"]; }
      Join(TitleCandidates(["Alpha", "at a/b.go:3", "Beta"]), TitleSeparator);
    == { ExampleCandidates(); }
      Join(["Alpha", "Beta"], TitleSeparator);
    == { assert ["Alpha", "Beta"][1..] == ["Beta"]; }
      "Alpha, Beta";
    }
  }

  lemma ExampleEnterPos()
    ensures EnterPos(["Alpha", "at a/b.go:3", "Beta", "> Enter", "Gamma"]) == 3
  {
    var seg := ["Alpha", "at a/b.go:3", "Beta", "> Enter", "Gamma"];
    assert OccursAt(seg[3], EnterMarker, 0);
    MissingFirstChar(seg[1], EnterMarker);
    IndexOfLineContainingIs(seg, EnterMarker, 3);
  }

  lemma ExampleCandidates()
    ensures TitleCandidates(["Alpha", "at a/b.go:3", "Beta"]) == ["Alpha", "Beta"]
  {
    var xs := ["Alpha", "at a/b.go:3", "Beta"];
    assert OccursAt(xs[1], PathMarker, 4);
    MissingFirstChar("Alpha", PathMarker);
    MissingFirstChar("Beta", PathMarker);
    assert xs[..2] == ["Alpha", "at a/b.go:3"];
    assert xs[..2][..1] == ["Alpha"];
    assert TitleCandidates(xs[..2][..1]) == ["Alpha"];
    assert TitleCandidates(xs[..2]) == ["Alpha"];
  }

  // ---------------------------------------------------------------------------------------------
  // Logs

  /** The logs of `cases` laid end to end. */
  function AllLogs(cases: seq<TestCase>): string
  {
    if cases == [] then "" else AllLogs(cases[..|cases| - 1]) + cases[|cases| - 1].logContent
  }

  lemma {:induction false} LogOfAppend(a: seq<string>, b: seq<string>)
    ensures LogOf(a + b) == LogOf(a) + LogOf(b)
  {
    if b == [] {
      assert a + b == a;
    } else {
      var init := b[..|b| - 1];
      assert (a + b)[..|a + b| - 1] == a + init;
      LogOfAppend(a, init);
    }
  }

  /** The cases' logs together are the log of the segments laid end to end. */
  lemma {:induction false} AllLogsOfCases(segs: seq<seq<string>>)
    ensures AllLogs(CasesOf(segs)) == LogOf(Flatten(segs))
  {
    if segs != [] {
      var init := segs[..|segs| - 1];
      assert CasesOf(segs)[..|segs| - 1] == CasesOf(init);
      AllLogsOfCases(init);
      LogOfAppend(Flatten(init), segs[|segs| - 1]);
    }
  }

  /** The logs of all cases, in order, are a prefix of the non-separator lines read after the first
      separator and before the first Summarizing line, each with its newline; without a Summarizing
      line they are all of them. So neither the preamble nor a separator line nor anything from the
      Summarizing line on appears in any log. */
  lemma LogsAreContentLines(lines: seq<string>, f: nat)
    requires IndexOfLineContaining(lines, Separator) == Some(f)
    ensures var rest := lines[f + 1..];
      var content := LogOf(NonSeparatorLines(BeforeSummary(rest)));
      AllLogs(ParsedCases(lines)) <= content &&
      (IndexOfLineContaining(rest, SummarizingMarker).None? ==> AllLogs(ParsedCases(lines)) == content)
  {
    var rest := lines[f + 1..];
    var before := BeforeSummary(rest);
    var kept := KeptSegments(rest);
    ParsedCasesAt(lines, f);
    SegmentsFlatten(before);
    AllLogsOfCases(kept);
    if IndexOfLineContaining(rest, SummarizingMarker).Some? {
      KeptSegmentsAtEnd(rest);
      FlattenClosedOpen(before);
      LogOfAppend(Flatten(kept), OpenSegment(before));
    }
  }

  /** The segments laid end to end are the closed ones followed by the open one. */
  lemma FlattenClosedOpen(xs: seq<string>)
    ensures Flatten(Segments(xs)) == Flatten(ClosedSegments(xs)) + OpenSegment(xs)
  {
    var segs := Segments(xs);
    assert segs[..|segs| - 1] == ClosedSegments(xs);
  }

  // ---------------------------------------------------------------------------------------------
  // How many cases

  lemma {:induction false} CountSeparatorsAppend(a: seq<string>, b: seq<string>)
    ensures CountSeparators(a + b) == CountSeparators(a) + CountSeparators(b)
  {
    if b == [] {
      assert a + b == a;
    } else {
      var init := b[..|b| - 1];
      assert (a + b)[..|a + b| - 1] == a + init;
      CountSeparatorsAppend(a, init);
    }
  }

  /** The separators in `lines` up to and including the first one: exactly one. */
  lemma {:induction false} CountSeparatorsUpToFirst(lines: seq<string>, f: nat)
    requires IndexOfLineContaining(lines, Separator) == Some(f)
    ensures CountSeparators(lines[..f + 1]) == 1
  {
    var xs := lines[..f + 1];
    assert xs[..f] == lines[..f];
    CountSeparatorsNone(lines[..f]);
  }

  lemma {:induction false} CountSeparatorsNone(xs: seq<string>)
    requires forall i :: 0 <= i < |xs| ==> !IsSeparator(xs[i])
    ensures CountSeparators(xs) == 0
  {
    if xs != [] {
      CountSeparatorsNone(xs[..|xs| - 1]);
    }
  }

  /** With k separator lines and no Summarizing line after the first of them, there are exactly k
      cases: one for each separator, the segment after the last one included. */
  lemma CaseCountWithoutSummary(lines: seq<string>, f: nat)
    requires IndexOfLineContaining(lines, Separator) == Some(f)
    requires IndexOfLineContaining(lines[f + 1..], SummarizingMarker) == None
    ensures |ParsedCases(lines)| == CountSeparators(lines)
  {
    var pre, rest := lines[..f + 1], lines[f + 1..];
    calc {
      |ParsedCases(lines)|;
    == { ParsedCasesAt(lines, f); }
      |KeptSegments(rest)|;
    ==
      |Segments(rest)|;
    == { SegmentsCount(rest); CountSeparatorsUpToFirst(lines, f); }
      CountSeparators(pre) + CountSeparators(rest);
    == { CountSeparatorsAppend(pre, rest); TakeDrop(lines, f + 1); }
      CountSeparators(lines);
    }
  }

  lemma TakeDrop(a: seq<string>, n: nat)
    requires n <= |a|
    ensures a[..n] + a[n..] == a
  {
  }

  /** With a Summarizing line at index m after the first separator, there is one case for each
      separator line strictly between the two. The segment open at the Summarizing line is dropped,
      even when that line is itself a separator. */
  lemma CaseCountWithSummary(lines: seq<string>, f: nat, m: nat)
    requires IndexOfLineContaining(lines, Separator) == Some(f)
    requires IndexOfLineContaining(lines[f + 1..], SummarizingMarker) == Some(m)
    ensures |ParsedCases(lines)| == CountSeparators(lines[f + 1..][..m])
  {
    var upto := lines[f + 1..][..m];
    ParsedCasesAt(lines, f);
    SegmentsCount(upto);
  }

  /** A log ending in a separator line, with no Summarizing line after the first separator, ends with
      a case for the empty segment after it: empty title, empty log, passed, no entry marker. The
      cases before it are those of the segments the separators closed. */
  lemma TrailingSeparatorCase(lines: seq<string>, f: nat)
    requires IndexOfLineContaining(lines, Separator) == Some(f)
    requires IndexOfLineContaining(lines[f + 1..], SummarizingMarker) == None
    requires IsSeparator(lines[|lines| - 1])
    ensures ParsedCases(lines) == CasesOf(ClosedSegments(lines[f + 1..])) + [TestCase("", Pass, "", false)]
  {
    SeparatorAtEnd(lines, f);
    ParsedCasesAt(lines, f);
    TrailingEmptySegment(lines[f + 1..]);
  }

  /** After the separator line at index `f`, lines that end in a separator line leave no segment
      open. */
  lemma SeparatorAtEnd(lines: seq<string>, f: nat)
    requires f < |lines| && IsSeparator(lines[|lines| - 1])
    ensures OpenSegment(lines[f + 1..]) == []
  {
    var rest := lines[f + 1..];
    if rest != [] {
      assert rest[|rest| - 1] == lines[|lines| - 1];
    }
    OpenSegmentAfterSeparator(rest);
  }

  /** Without a Summarizing line, when no segment is left open at the end (the lines end in a
      separator or there are none), the last case is that of an empty segment. */
  lemma TrailingEmptySegment(rest: seq<string>)
    requires IndexOfLineContaining(rest, SummarizingMarker) == None
    requires OpenSegment(rest) == []
    ensures CasesOf(KeptSegments(rest)) == CasesOf(ClosedSegments(rest)) + [TestCase("", Pass, "", false)]
  {
    KeptSegmentsAtEnd(rest);
    CasesOfSnoc(ClosedSegments(rest), []);
    EmptySegmentCase();
  }

  /** After a separator line (or before any line) the open segment is empty. */
  lemma OpenSegmentAfterSeparator(rest: seq<string>)
    requires rest != [] ==> IsSeparator(rest[|rest| - 1])
    ensures OpenSegment(rest) == []
  {
    if rest != [] {
      assert rest[..|rest| - 1] + [rest[|rest| - 1]] == rest;
      ClosedSegmentsSnoc(rest[..|rest| - 1], rest[|rest| - 1]);
    }
  }

  /** An empty segment becomes a passed case with empty title and log. */
  lemma EmptySegmentCase()
    ensures CaseOf([]) == TestCase("", Pass, "", false)
  {
    assert TitleLines([]) == [];
  }

  // ---------------------------------------------------------------------------------------------
  // The summary block

  /** The first line containing `pat` stays the first however many lines follow. */
  lemma IndexOfLineContainingPrefix(xs: seq<string>, ys: seq<string>, pat: string, m: nat)
    requires IndexOfLineContaining(xs, pat) == Some(m)
    ensures IndexOfLineContaining(xs + ys, pat) == Some(m)
  {
    var zs := xs + ys;
    assert zs[m] == xs[m];
    forall j | 0 <= j < m
      ensures !Contains(zs[j], pat)
    {
      assert zs[j] == xs[j];
    }
    IndexOfLineContainingIs(zs, pat, m);
  }

  /** Lines after the first Summarizing line do not change which segments are kept. */
  lemma KeptSegmentsExtend(rest: seq<string>, more: seq<string>)
    requires IndexOfLineContaining(rest, SummarizingMarker).Some?
    ensures KeptSegments(rest + more) == KeptSegments(rest)
  {
    var m := IndexOfLineContaining(rest, SummarizingMarker).value;
    IndexOfLineContainingPrefix(rest, more, SummarizingMarker, m);
    assert (rest + more)[..m] == rest[..m];
  }

  lemma DropAppend(a: seq<string>, b: seq<string>, n: nat)
    requires n <= |a|
    ensures (a + b)[n..] == a[n..] + b
  {
  }

  /** Once a Summarizing line has been read after the first separator, later lines add no case. */
  lemma ParsedCasesFinal(lines: seq<string>, more: seq<string>, f: nat)
    requires IndexOfLineContaining(lines, Separator) == Some(f)
    requires IndexOfLineContaining(lines[f + 1..], SummarizingMarker).Some?
    ensures ParsedCases(lines + more) == ParsedCases(lines)
  {
    ParsedCasesAt(lines, f);
    IndexOfLineContainingPrefix(lines, more, Separator, f);
    ParsedCasesAt(lines + more, f);
    DropAppend(lines, more, f + 1);
    KeptSegmentsExtend(lines[f + 1..], more);
  }

  /** Once a Summarizing line has been read after the first separator, whatever follows changes
      nothing in the report. */
  lemma SummaryIsFinal(lines: seq<string>, more: seq<string>, f: nat, generatedAt: string)
    requires IndexOfLineContaining(lines, Separator) == Some(f)
    requires IndexOfLineContaining(lines[f + 1..], SummarizingMarker).Some?
    ensures Parse(lines + more, generatedAt) == Parse(lines, generatedAt)
  {
    ParsedCasesFinal(lines, more, f);
  }
}
