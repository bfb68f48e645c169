/** The CI contract's job check on whole files: what it reports for a text written as headers and lines. */
module CiTexts {
  import opened Prelude
  import opened CiBlocks

  // ------------------------------------------------------------------------------------------
  // Lines and their ends.

  /** The characters at which `str.splitlines` ends a line. */
  predicate EndsLine(c: char) {
    || c == '\n' || c == '\U{0B}' || c == '\U{0C}' || c == '\r' || c == '\U{1C}' || c == '\U{1D}' || c == '\U{1E}'
    || c == '\U{85}' || c == '\U{2028}' || c == '\U{2029}'
  }

  predicate OneLine(s: string) {
    forall i :: 0 <= i < |s| ==> !EndsLine(s[i])
  }

  lemma SameLineEnds(c: char)
    ensures EndsLine(c) <==> IsLineEnd(c)
  {
  }

  /** What ends a line: carriage return and newline together, or one of the characters. */
  predicate IsEnd(s: string) {
    (|s| == 2 && s[0] == '\r' && s[1] == '\n') || (|s| == 1 && EndsLine(s[0]))
  }

  /** Lines and their ends, alternating. */
  function Weave(lines: seq<string>, ends: seq<string>): string
    requires |lines| == |ends|
    decreases |lines|
  {
    if lines == [] then "" else lines[0] + ends[0] + Weave(lines[1..], ends[1..])
  }

  /** The ends that splitting takes away. */
  function EndsOf(s: string): (ends: seq<string>)
    decreases |s|
  {
    if s == "" then []
    else
      var n := LineLength(s);
      var m := EndLength(s, n);
      [s[n..n + m]] + EndsOf(s[n + m..])
  }

  lemma ThreeParts(s: string, i: nat, j: nat)
    requires i <= j <= |s|
    ensures s[..i] + s[i..j] + s[j..] == s
  {
  }

  lemma FirstLineWhole(s: string)
    ensures OneLine(s[..LineLength(s)])
  {
    forall i | 0 <= i < LineLength(s) ensures !EndsLine(s[i]) { SameLineEnds(s[i]); }
  }

  lemma FirstEnd(s: string)
    requires LineLength(s) < |s|
    ensures var n := LineLength(s); IsEnd(s[n..n + EndLength(s, n)])
  {
    var n := LineLength(s);
    var end := s[n..n + EndLength(s, n)];
    SameLineEnds(s[n]);
    if |end| == 2 {
      assert end[0] == s[n] && end[1] == s[n + 1];
    } else {
      assert |end| == 1 && end[0] == s[n];
    }
  }

  /** Every end ends its line; only the last may be missing, and then its line is not empty. */
  ghost predicate Ended(lines: seq<string>, ends: seq<string>)
    requires |lines| == |ends|
  {
    && (forall i :: 0 <= i < |lines| ==> OneLine(lines[i]))
    && (forall i :: 0 <= i < |ends| - 1 ==> IsEnd(ends[i]))
    && (ends != [] ==> IsEnd(ends[|ends| - 1]) || (ends[|ends| - 1] == "" && lines[|lines| - 1] != ""))
  }

  lemma EndedBefore(line: string, end: string, lines: seq<string>, ends: seq<string>)
    requires |lines| == |ends| && Ended(lines, ends) && OneLine(line)
    requires IsEnd(end) || (end == "" && line != "" && lines == [])
    ensures Ended([line] + lines, [end] + ends)
  {
  }

  /**
   Splitting takes nothing but line ends: with them put back, the lines are the text. Lines hold no character that
   ends one, and each is ended but perhaps the last.
   */
  lemma {:induction false} SplitKeepsText(s: string)
    ensures |EndsOf(s)| == |SplitLines(s)| && Weave(SplitLines(s), EndsOf(s)) == s
    ensures Ended(SplitLines(s), EndsOf(s))
    decreases |s|
  {
    if s != "" {
      var n := LineLength(s);
      var m := EndLength(s, n);
      var rest := s[n + m..];
      SplitKeepsText(rest);
      FirstLineWhole(s);
      if n < |s| { FirstEnd(s); }
      ThreeParts(s, n, n + m);
      EndedBefore(s[..n], s[n..n + m], SplitLines(rest), EndsOf(rest));
      WeaveBefore(s[..n], s[n..n + m], SplitLines(rest), EndsOf(rest));
    }
  }

  lemma WeaveBefore(line: string, end: string, lines: seq<string>, ends: seq<string>)
    requires |lines| == |ends|
    ensures Weave([line] + lines, [end] + ends) == line + end + Weave(lines, ends)
  {
    assert ([line] + lines)[1..] == lines && ([end] + ends)[1..] == ends;
  }

  // ------------------------------------------------------------------------------------------
  // Splitting what was written line by line.

  lemma LineThen(line: string, rest: string)
    requires OneLine(line)
    ensures SplitLines(line + "\n" + rest) == [line] + SplitLines(rest)
  {
    var s := line + "\n" + rest;
    FirstLineLength(line, "\n" + rest);
    assert line + ("\n" + rest) == s;
    assert s[|line|] == '\n' && s[..|line|] == line && s[|line| + 1..] == rest;
  }

  lemma {:induction false} FirstLineLength(line: string, rest: string)
    requires OneLine(line) && (rest == "" || EndsLine(rest[0]))
    ensures LineLength(line + rest) == |line|
    decreases |line|
  {
    if line == "" {
      assert line + rest == rest;
    } else {
      assert (line + rest)[1..] == line[1..] + rest && !IsLineEnd(line[0]);
      FirstLineLength(line[1..], rest);
    }
  }

  lemma LastLine(line: string)
    requires OneLine(line)
    ensures SplitLines(line) == if line == "" then [] else [line]
  {
    if line != "" {
      FirstLineLength(line, "");
      assert line + "" == line && line[..|line|] == line && line[|line|..] == "";
    }
  }

  predicate AllLines(lines: seq<string>) {
    forall i :: 0 <= i < |lines| ==> OneLine(lines[i])
  }

  function WithoutLastEmpty(lines: seq<string>): seq<string> {
    if lines != [] && lines[|lines| - 1] == "" then lines[..|lines| - 1] else lines
  }

  lemma WithoutLastEmptyBehind(line: string, rest: seq<string>)
    requires rest != []
    ensures WithoutLastEmpty([line] + rest) == [line] + WithoutLastEmpty(rest)
  {
  }

  /** Lines joined by newlines split into themselves, but for an empty last one. */
  lemma {:induction false} SplitJoined(lines: seq<string>)
    requires AllLines(lines) && lines != []
    ensures SplitLines(Join(lines, "\n")) == WithoutLastEmpty(lines)
    decreases |lines|
  {
    if |lines| == 1 {
      LastLine(lines[0]);
      assert lines == [lines[0]];
    } else {
      var rest := lines[1..];
      assert lines == [lines[0]] + rest;
      calc {
        SplitLines(Join(lines, "\n"));
        { LineThen(lines[0], Join(rest, "\n")); }
        [lines[0]] + SplitLines(Join(rest, "\n"));
        { SplitJoined(rest); }
        [lines[0]] + WithoutLastEmpty(rest);
        { WithoutLastEmptyBehind(lines[0], rest); }
        WithoutLastEmpty(lines);
      }
    }
  }

  /** With a newline at the end, into themselves. */
  lemma {:induction false} SplitEnded(lines: seq<string>)
    requires AllLines(lines) && lines != []
    ensures SplitLines(Join(lines, "\n") + "\n") == lines
    decreases |lines|
  {
    if |lines| == 1 {
      LineThen(lines[0], "");
      assert lines[0] + "\n" + "" == lines[0] + "\n" && lines == [lines[0]] + [];
    } else {
      var rest := lines[1..];
      assert lines == [lines[0]] + rest;
      calc {
        SplitLines(Join(lines, "\n") + "\n");
        { assert Join(lines, "\n") + "\n" == lines[0] + "\n" + (Join(rest, "\n") + "\n"); }
        SplitLines(lines[0] + "\n" + (Join(rest, "\n") + "\n"));
        { LineThen(lines[0], Join(rest, "\n") + "\n"); }
        [lines[0]] + SplitLines(Join(rest, "\n") + "\n");
        { SplitEnded(rest); }
        [lines[0]] + rest;
      }
    }
  }

  // ------------------------------------------------------------------------------------------
  // Files of headers and lines.

  /** A name that makes a header: not empty, and not starting with a space, a tab or a dash. */
  predicate PlainName(name: string) {
    name != "" && name[0] != ' ' && name[0] != '\t' && name[0] != '-' && OneLine(name)
  }

  /** A line that is no header: empty, or starting with a space, a tab or a dash, or not ending in a colon. */
  predicate PlainLine(line: string) {
    && OneLine(line)
    && (line == "" || line[0] == ' ' || line[0] == '\t' || line[0] == '-' || line[|line| - 1] != ':')
  }

  predicate PlainLines(lines: seq<string>) {
    forall i :: 0 <= i < |lines| ==> PlainLine(lines[i])
  }

  predicate PlainJobs(jobs: seq<Segment>) {
    forall i :: 0 <= i < |jobs| ==> PlainName(jobs[i].name) && PlainLines(jobs[i].body)
  }

  /** Each job as its name with a colon, and its lines. */
  function JobLines(jobs: seq<Segment>): seq<string> {
    if jobs == [] then [] else [jobs[0].name + ":"] + jobs[0].body + JobLines(jobs[1..])
  }

  lemma HeaderOfName(name: string)
    requires PlainName(name)
    ensures IsHeader(name + ":") && HeaderName(name + ":") == name && OneLine(name + ":")
  {
  }

  lemma PlainIsNoHeader(line: string)
    requires PlainLine(line)
    ensures !IsHeader(line)
  {
  }

  lemma {:induction false} LinesInFront(lines: seq<string>, rest: seq<string>)
    requires PlainLines(lines)
    ensures Segments(lines + rest) == Segments(rest) && Preamble(lines + rest) == lines + Preamble(rest)
    decreases |lines|
  {
    if lines == [] {
      assert lines + rest == rest && [] + Preamble(rest) == Preamble(rest);
    } else {
      PlainIsNoHeader(lines[0]);
      assert (lines + rest)[0] == lines[0] && (lines + rest)[1..] == lines[1..] + rest;
      LinesInFront(lines[1..], rest);
      assert lines + Preamble(rest) == [lines[0]] + (lines[1..] + Preamble(rest));
    }
  }

  /** Cutting the written lines at the headers gives the jobs back. */
  lemma {:induction false} JobsCutBack(jobs: seq<Segment>)
    requires PlainJobs(jobs)
    ensures Segments(JobLines(jobs)) == jobs && Preamble(JobLines(jobs)) == [] && AllLines(JobLines(jobs))
    decreases |jobs|
  {
    if jobs != [] {
      var head, body, rest := jobs[0].name + ":", jobs[0].body, JobLines(jobs[1..]);
      assert PlainName(jobs[0].name) && PlainLines(body);
      HeaderOfName(jobs[0].name);
      JobsCutBack(jobs[1..]);
      LinesInFront(body, rest);
      assert JobLines(jobs) == [head] + (body + rest);
      assert ([head] + (body + rest))[1..] == body + rest;
      assert body + [] == body && [Segment(jobs[0].name, body)] + jobs[1..] == jobs;
    }
  }

  // ------------------------------------------------------------------------------------------
  // Empty lines at the end do not matter.

  lemma {:induction false} EmptyLineLast(lines: seq<string>, name: string)
    ensures var a, b := LastBody(Segments(lines), name), LastBody(Segments(lines + [""]), name);
            (a.None? && b.None?) || (a.Some? && b.Some? && (b.value == a.value || b.value == a.value + [""]))
    ensures Preamble(lines + [""]) == Preamble(lines) || Preamble(lines + [""]) == Preamble(lines) + [""]
    decreases |lines|
  {
    if lines != [] {
      assert (lines + [""])[0] == lines[0] && (lines + [""])[1..] == lines[1..] + [""];
      EmptyLineLast(lines[1..], name);
      if IsHeader(lines[0]) {
        var first := Segment(HeaderName(lines[0]), Preamble(lines[1..]));
        var first' := Segment(HeaderName(lines[0]), Preamble(lines[1..] + [""]));
        assert Segments(lines) == [first] + Segments(lines[1..]);
        assert Segments(lines + [""]) == [first'] + Segments(lines[1..] + [""]);
        assert ([first] + Segments(lines[1..]))[1..] == Segments(lines[1..]);
        assert ([first'] + Segments(lines[1..] + [""]))[1..] == Segments(lines[1..] + [""]);
      }
    } else {
      assert lines + [""] == [""] && [""][1..] == [];
    }
  }

  lemma MarkerNotInEmptyLine(body: seq<string>, marker: string)
    requires marker != ""
    ensures SomeLineHas(body + [""], marker) <==> SomeLineHas(body, marker)
  {
    assert !Occurs(marker, "");
    if SomeLineHas(body, marker) {
      var i :| 0 <= i < |body| && Occurs(marker, body[i]);
      assert (body + [""])[i] == body[i];
    }
  }

  // ------------------------------------------------------------------------------------------
  // What is reported.

  /** Some line of the body holds the text. */
  ghost predicate Holds(body: seq<string>, text: string) {
    exists k, a, b :: 0 <= k < |body| && body[k] == a + text + b
  }

  /** Job i is the last of this name, is of the test or build stage, and allows failure. */
  ghost predicate Offending(jobs: seq<Segment>, name: string, i: nat) {
    && i < |jobs| && jobs[i].name == name && (forall j :: i < j < |jobs| ==> jobs[j].name != name)
    && (Holds(jobs[i].body, "  stage: test") || Holds(jobs[i].body, "  stage: build"))
    && Holds(jobs[i].body, "  allow_failure: true")
  }

  lemma HoldsIff(body: seq<string>, text: string)
    ensures Holds(body, text) <==> SomeLineHas(body, text)
  {
    if Holds(body, text) {
      var k, a, b :| 0 <= k < |body| && body[k] == a + text + b;
      assert OccursAt(text, body[k], |a|);
      OccursIn(text, body[k], |a|);
    }
    if SomeLineHas(body, text) {
      var k :| 0 <= k < |body| && Occurs(text, body[k]);
      var i :| 0 <= i <= |body[k]| && OccursAt(text, body[k], i);
      assert body[k] == body[k][..i] + text + body[k][i + |text|..];
    }
  }

  lemma {:induction false} LastBodyAt(jobs: seq<Segment>, name: string) returns (i: nat)
    requires LastBody(jobs, name).Some?
    ensures i < |jobs| && jobs[i].name == name && LastBody(jobs, name) == Some(jobs[i].body)
    ensures forall j :: i < j < |jobs| ==> jobs[j].name != name
    decreases |jobs|
  {
    if LastBody(jobs[1..], name).Some? {
      var k := LastBodyAt(jobs[1..], name);
      i := k + 1;
      assert forall j :: i < j < |jobs| ==> jobs[j] == jobs[1..][j - 1];
    } else {
      i := 0;
      forall j | 0 < j < |jobs| ensures jobs[j].name != name {
        if jobs[j].name == name {
          LastBodyFound(jobs[1..], name, j - 1);
        }
      }
    }
  }

  lemma {:induction false} LastBodyFound(jobs: seq<Segment>, name: string, i: nat)
    requires i < |jobs| && jobs[i].name == name
    ensures LastBody(jobs, name).Some?
    decreases |jobs|
  {
    if i > 0 { LastBodyFound(jobs[1..], name, i - 1); }
  }

  lemma OffendingIff(jobs: seq<Segment>, name: string)
    ensures (exists i: nat :: Offending(jobs, name, i)) <==>
            var last := LastBody(jobs, name);
            last.Some? && (SomeLineHas(last.value, "  stage: test") || SomeLineHas(last.value, "  stage: build"))
            && SomeLineHas(last.value, "  allow_failure: true")
  {
    if LastBody(jobs, name).Some? {
      var k := LastBodyAt(jobs, name);
      HoldsIff(jobs[k].body, "  stage: test");
      HoldsIff(jobs[k].body, "  stage: build");
      HoldsIff(jobs[k].body, "  allow_failure: true");
      forall i: nat | Offending(jobs, name, i) ensures i == k {
      }
      if Holds(jobs[k].body, "  stage: test") || Holds(jobs[k].body, "  stage: build") {
        if Holds(jobs[k].body, "  allow_failure: true") { assert Offending(jobs, name, k); }
      }
    } else if i: nat :| Offending(jobs, name, i) {
      LastBodyFound(jobs, name, i);
    }
  }

  /** The lines of a file: some before the first header, then the jobs. */
  function FileLines(before: seq<string>, jobs: seq<Segment>): seq<string> {
    before + JobLines(jobs)
  }

  lemma FileCutBack(before: seq<string>, jobs: seq<Segment>)
    requires PlainLines(before) && PlainJobs(jobs)
    ensures Segments(FileLines(before, jobs)) == jobs && AllLines(FileLines(before, jobs))
  {
    JobsCutBack(jobs);
    LinesInFront(before, JobLines(jobs));
  }

  /** An empty line at the end of the file changes no marker of the last body. */
  lemma LastLineEmpty(lines: seq<string>, name: string)
    ensures var a, b := LastBody(Segments(lines), name), LastBody(Segments(lines + [""]), name);
            (a.Some? <==> b.Some?) &&
            (a.Some? ==> forall marker :: marker != "" ==>
              (SomeLineHas(a.value, marker) <==> SomeLineHas(b.value, marker)))
  {
    EmptyLineLast(lines, name);
    var a, b := LastBody(Segments(lines), name), LastBody(Segments(lines + [""]), name);
    forall marker | a.Some? && marker != "" ensures SomeLineHas(a.value, marker) <==> SomeLineHas(b.value, marker) {
      MarkerNotInEmptyLine(a.value, marker);
    }
  }

  /**
   For every file written as plain lines and jobs, with or without a newline at its end, the check reports a name
   if and only if the last job of that name is of the test or build stage and allows failure.
   */
  lemma FileReportsExactly(before: seq<string>, jobs: seq<Segment>, ended: bool, name: string)
    requires PlainLines(before) && PlainJobs(jobs) && FileLines(before, jobs) != []
    ensures var text := Join(FileLines(before, jobs), "\n") + if ended then "\n" else "";
            name in Report(text) <==> exists i: nat :: Offending(jobs, name, i)
  {
    var lines := FileLines(before, jobs);
    var text := Join(lines, "\n") + if ended then "\n" else "";
    FileCutBack(before, jobs);
    OffendingIff(jobs, name);
    ReportsExactly(text, name);
    if ended {
      SplitEnded(lines);
    } else {
      assert text == Join(lines, "\n");
      SplitJoined(lines);
      if lines[|lines| - 1] == "" {
        assert lines == lines[..|lines| - 1] + [""];
        LastLineEmpty(lines[..|lines| - 1], name);
      }
    }
  }
}
