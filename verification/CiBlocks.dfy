/**
 The CI contract's block scanner: a dictionary of top-level blocks in which a repeated header replaces
 the earlier block, and the job check that searches the joined text of each block.
 */
module CiBlocks {
  import opened Prelude

  // ------------------------------------------------------------------------------------------
  // Lines.

  /** A character that ends a line for `str.splitlines`. */
  predicate IsLineEnd(c: char) {
    var n := c as int;
    10 <= n <= 13 || 28 <= n <= 30 || n == 0x85 || n == 0x2028 || n == 0x2029
  }

  /** The length of the first line. */
  function LineLength(s: string): (n: nat)
    ensures n <= |s| && (forall i :: 0 <= i < n ==> !IsLineEnd(s[i])) && (n < |s| ==> IsLineEnd(s[n]))
  {
    if s == "" || IsLineEnd(s[0]) then 0 else 1 + LineLength(s[1..])
  }

  /** How many characters the line end at position n has: a carriage return takes a following newline along. */
  function EndLength(s: string, n: nat): (m: nat)
    requires n <= |s|
    ensures n + m <= |s| && (n < |s| ==> m > 0)
  {
    if n == |s| then 0
    else if s[n] == '\r' && n + 1 < |s| && s[n + 1] == '\n' then 2
    else 1
  }

  /** `content.splitlines()`. */
  function SplitLines(s: string): (lines: seq<string>)
    ensures forall i :: 0 <= i < |lines| ==> forall c :: c in lines[i] ==> !IsLineEnd(c)
    decreases |s|
  {
    if s == "" then []
    else
      var n := LineLength(s);
      [s[..n]] + SplitLines(s[n + EndLength(s, n)..])
  }

  // ------------------------------------------------------------------------------------------
  // Blocks.

  predicate IsHeader(line: string) {
    line != "" && line[0] != ' ' && line[0] != '\t' && line[0] != '-' && line[|line| - 1] == ':'
  }

  function HeaderName(line: string): string
    requires IsHeader(line)
  {
    line[..|line| - 1]
  }

  /** A dictionary with its keys in order of first insertion. */
  datatype Blocks = Blocks(order: seq<string>, body: map<string, seq<string>>)

  predicate Consistent(b: Blocks) {
    && (forall i, j :: 0 <= i < j < |b.order| ==> b.order[i] != b.order[j])
    && (forall k :: k in b.body ==> k in b.order)
    && (forall i :: 0 <= i < |b.order| ==> b.order[i] in b.body)
  }

  /** `blocks[name] = body`. */
  function Put(b: Blocks, name: string, body: seq<string>): Blocks {
    Blocks(if name in b.order then b.order else b.order + [name], b.body[name := body])
  }

  /** One turn of the scanner: the blocks so far and the name of the current one. */
  function Scan(b: Blocks, current: Option<string>, lines: seq<string>): Blocks
    decreases |lines|
  {
    if lines == [] then b
    else if IsHeader(lines[0]) then
      Scan(Put(b, HeaderName(lines[0]), []), Some(HeaderName(lines[0])), lines[1..])
    else if current.Some? && current.value in b.body then
      Scan(Put(b, current.value, b.body[current.value] + [lines[0]]), current, lines[1..])
    else Scan(b, current, lines[1..])
  }

  const EMPTY := Blocks([], map[])

  method CollectTopLevelBlocks(content: string) returns (blocks: Blocks)
    ensures blocks == Scan(EMPTY, None, SplitLines(content)) && Consistent(blocks)
  {
    blocks := EMPTY;
    var current: Option<string> := None;
    var lines := SplitLines(content);
    assert lines[0..] == lines;
    for i := 0 to |lines|
      invariant Scan(blocks, current, lines[i..]) == Scan(EMPTY, None, lines)
      invariant Consistent(blocks) && (current.Some? ==> current.value in blocks.body)
    {
      var line := lines[i];
      assert lines[i..][0] == line && lines[i..][1..] == lines[i + 1..];
      if IsHeader(line) {
        current := Some(HeaderName(line));
        blocks := Put(blocks, current.value, []);
      } else if current.Some? {
        blocks := Put(blocks, current.value, blocks.body[current.value] + [line]);
      }
    }
  }

  // ------------------------------------------------------------------------------------------
  // Reference: cutting the lines at the headers.

  datatype Segment = Segment(name: string, body: seq<string>)

  /** The lines before the first header. */
  function Preamble(lines: seq<string>): seq<string> {
    if lines == [] || IsHeader(lines[0]) then [] else [lines[0]] + Preamble(lines[1..])
  }

  /** Each header with the lines up to the next one. */
  function Segments(lines: seq<string>): seq<Segment> {
    if lines == [] then []
    else if IsHeader(lines[0]) then [Segment(HeaderName(lines[0]), Preamble(lines[1..]))] + Segments(lines[1..])
    else Segments(lines[1..])
  }

  /** Writing segments out again. */
  function Unsegment(segments: seq<Segment>): seq<string> {
    if segments == [] then [] else [segments[0].name + ":"] + segments[0].body + Unsegment(segments[1..])
  }

  /** The cut loses nothing: preamble and segments, in order, are the lines. */
  lemma {:induction false} CutIsComplete(lines: seq<string>)
    ensures Preamble(lines) + Unsegment(Segments(lines)) == lines
    decreases |lines|
  {
    if lines != [] {
      var line, rest := lines[0], lines[1..];
      CutIsComplete(rest);
      assert lines == [line] + (Preamble(rest) + Unsegment(Segments(rest)));
      if IsHeader(line) {
        assert HeaderName(line) + ":" == line;
        UnsegmentFirst(Segment(HeaderName(line), Preamble(rest)), Segments(rest));
      }
    }
  }

  lemma UnsegmentFirst(first: Segment, more: seq<Segment>)
    ensures Unsegment([first] + more) == [first.name + ":"] + (first.body + Unsegment(more))
  {
    assert ([first] + more)[1..] == more;
  }

  /** Entering segments into the dictionary one after the other. */
  function Enter(b: Blocks, segments: seq<Segment>): Blocks
    decreases |segments|
  {
    if segments == [] then b else Enter(Put(b, segments[0].name, segments[0].body), segments[1..])
  }

  lemma PutTwice(b: Blocks, name: string, x: seq<string>, y: seq<string>)
    ensures Put(Put(b, name, x), name, y) == Put(b, name, y)
  {
    assert b.body[name := x][name := y] == b.body[name := y];
  }

  /** The current block completed by the lines before the next header. */
  function Completed(b: Blocks, current: Option<string>, lines: seq<string>): Blocks
    requires current.Some? ==> current.value in b.body
  {
    if current.Some? then Put(b, current.value, b.body[current.value] + Preamble(lines)) else b
  }

  lemma CompletedByNothing(b: Blocks, current: Option<string>, lines: seq<string>)
    requires current.Some? ==> current.value in b.body && current.value in b.order
    requires Preamble(lines) == []
    ensures Completed(b, current, lines) == b
  {
    if current.Some? {
      assert b.body[current.value] + [] == b.body[current.value];
      assert b.body[current.value := b.body[current.value]] == b.body;
    }
  }

  lemma CompletedLater(b: Blocks, name: string, line: string, rest: seq<string>)
    requires name in b.body && !IsHeader(line)
    ensures Completed(Put(b, name, b.body[name] + [line]), Some(name), rest) == Completed(b, Some(name), [line] + rest)
  {
    assert ([line] + rest)[1..] == rest;
    PutTwice(b, name, b.body[name] + [line], b.body[name] + [line] + Preamble(rest));
    assert b.body[name] + [line] + Preamble(rest) == b.body[name] + ([line] + Preamble(rest));
  }

  lemma CompletedFresh(b: Blocks, name: string, rest: seq<string>)
    ensures Completed(Put(b, name, []), Some(name), rest) == Put(b, name, Preamble(rest))
  {
    PutTwice(b, name, [], Preamble(rest));
    assert [] + Preamble(rest) == Preamble(rest);
  }

  /** The line scanner fills the dictionary exactly as the segments would. */
  lemma {:induction false} ScanEntersSegments(b: Blocks, current: Option<string>, lines: seq<string>)
    requires current.Some? ==> current.value in b.body && current.value in b.order
    ensures Scan(b, current, lines) == Enter(Completed(b, current, lines), Segments(lines))
    decreases |lines|
  {
    if lines == [] {
      CompletedByNothing(b, current, lines);
    } else {
      var line, rest := lines[0], lines[1..];
      if IsHeader(line) {
        var name := HeaderName(line);
        CompletedByNothing(b, current, lines);
        ScanEntersSegments(Put(b, name, []), Some(name), rest);
        CompletedFresh(b, name, rest);
        assert Segments(lines)[1..] == Segments(rest);
      } else if current.Some? {
        ScanEntersSegments(Put(b, current.value, b.body[current.value] + [line]), current, rest);
        CompletedLater(b, current.value, line, rest);
        assert lines == [line] + rest;
      } else {
        ScanEntersSegments(b, current, rest);
      }
    }
  }

  /** The body of the last segment with this name. */
  function LastBody(segments: seq<Segment>, name: string): Option<seq<string>>
    decreases |segments|
  {
    if segments == [] then None
    else
      var later := LastBody(segments[1..], name);
      if later.Some? then later else if segments[0].name == name then Some(segments[0].body) else None
  }

  /** The names in order of first occurrence, those already seen left out. */
  function FirstNames(seen: seq<string>, segments: seq<Segment>): seq<string>
    decreases |segments|
  {
    if segments == [] then seen
    else FirstNames(if segments[0].name in seen then seen else seen + [segments[0].name], segments[1..])
  }

  lemma {:induction false} EnterMeans(b: Blocks, segments: seq<Segment>, name: string)
    requires Consistent(b)
    ensures var e := Enter(b, segments);
            && Consistent(e) && e.order == FirstNames(b.order, segments)
            && (name in e.body <==> name in b.body || LastBody(segments, name).Some?)
            && (name in e.body ==>
                  e.body[name] ==
                  if LastBody(segments, name).Some? then LastBody(segments, name).value else b.body[name])
    decreases |segments|
  {
    if segments != [] {
      EnterMeans(Put(b, segments[0].name, segments[0].body), segments[1..], name);
    }
  }

  /** Last block wins; keys stand in order of first occurrence. */
  lemma LastBlockWins(lines: seq<string>, name: string)
    ensures var blocks := Scan(EMPTY, None, lines);
            && blocks.order == FirstNames([], Segments(lines))
            && (name in blocks.body <==> LastBody(Segments(lines), name).Some?)
            && (name in blocks.body ==> blocks.body[name] == LastBody(Segments(lines), name).value)
  {
    ScanEntersSegments(EMPTY, None, lines);
    EnterMeans(EMPTY, Segments(lines), name);
  }

  // ------------------------------------------------------------------------------------------
  // What the dictionary keeps of the file.

  predicate DistinctNames(segments: seq<Segment>) {
    forall i, j :: 0 <= i < j < |segments| ==> segments[i].name != segments[j].name
  }

  /** The dictionary written out as segments, in key order. */
  function Items(b: Blocks): seq<Segment>
    requires Consistent(b)
  {
    seq(|b.order|, i requires 0 <= i < |b.order| => Segment(b.order[i], b.body[b.order[i]]))
  }

  function Names(segments: seq<Segment>): seq<string> {
    seq(|segments|, i requires 0 <= i < |segments| => segments[i].name)
  }

  lemma {:induction false} FirstNamesOfDistinct(seen: seq<string>, segments: seq<Segment>)
    requires DistinctNames(segments) && forall i :: 0 <= i < |segments| ==> segments[i].name !in seen
    ensures FirstNames(seen, segments) == seen + Names(segments)
    decreases |segments|
  {
    if segments != [] {
      var seen' := seen + [segments[0].name];
      forall i | 0 <= i < |segments[1..]| ensures segments[1..][i].name !in seen' {
        assert segments[1..][i] == segments[i + 1];
      }
      FirstNamesOfDistinct(seen', segments[1..]);
      assert Names(segments) == [segments[0].name] + Names(segments[1..]);
    }
  }

  lemma {:induction false} LastBodyOfDistinct(segments: seq<Segment>, i: nat)
    requires DistinctNames(segments) && i < |segments|
    ensures LastBody(segments, segments[i].name) == Some(segments[i].body)
    decreases |segments|
  {
    if i == 0 {
      NoLastBody(segments[1..], segments[0].name);
    } else {
      LastBodyOfDistinct(segments[1..], i - 1);
    }
  }

  lemma {:induction false} NoLastBody(segments: seq<Segment>, name: string)
    requires forall i :: 0 <= i < |segments| ==> segments[i].name != name
    ensures LastBody(segments, name).None?
    decreases |segments|
  {
    if segments != [] {
      assert segments[0].name != name;
      NoLastBody(segments[1..], name);
    }
  }

  /** Each occurrence after the first makes the list of keys shorter than the list of segments. */
  lemma {:induction false} FirstNamesShorter(seen: seq<string>, segments: seq<Segment>)
    ensures |FirstNames(seen, segments)| <= |seen| + |segments|
    ensures |FirstNames(seen, segments)| == |seen| + |segments| ==>
              DistinctNames(segments) && forall i :: 0 <= i < |segments| ==> segments[i].name !in seen
    decreases |segments|
  {
    if segments != [] {
      var seen' := if segments[0].name in seen then seen else seen + [segments[0].name];
      FirstNamesShorter(seen', segments[1..]);
      if |FirstNames(seen, segments)| == |seen| + |segments| {
        forall i | 0 < i < |segments| ensures segments[i].name !in seen' {
          assert segments[1..][i - 1] == segments[i];
        }
        forall i, j | 0 <= i < j < |segments| ensures segments[i].name != segments[j].name {
          if i > 0 { assert segments[1..][i - 1].name != segments[1..][j - 1].name; }
        }
      }
    }
  }

  lemma ItemsOfDistinct(lines: seq<string>)
    requires DistinctNames(Segments(lines)) && Consistent(Scan(EMPTY, None, lines))
    requires Scan(EMPTY, None, lines).order == Names(Segments(lines))
    ensures Items(Scan(EMPTY, None, lines)) == Segments(lines)
  {
    var segments, blocks := Segments(lines), Scan(EMPTY, None, lines);
    forall i | 0 <= i < |segments| ensures Items(blocks)[i] == segments[i] {
      LastBlockWins(lines, segments[i].name);
      LastBodyOfDistinct(segments, i);
    }
  }

  /** The dictionary's items are the segments if and only if no header is repeated. */
  lemma ItemsAreSegmentsIff(lines: seq<string>)
    ensures Consistent(Scan(EMPTY, None, lines))
    ensures Items(Scan(EMPTY, None, lines)) == Segments(lines) <==> DistinctNames(Segments(lines))
  {
    var segments := Segments(lines);
    ScanEntersSegments(EMPTY, None, lines);
    EnterMeans(EMPTY, segments, "");
    if DistinctNames(segments) {
      FirstNamesOfDistinct([], segments);
      assert [] + Names(segments) == Names(segments);
      ItemsOfDistinct(lines);
    } else {
      FirstNamesShorter([], segments);
    }
  }

  /** Preamble and dictionary reproduce the file line by line if and only if no header is repeated. */
  lemma ReassemblyIff(lines: seq<string>)
    ensures Consistent(Scan(EMPTY, None, lines))
    ensures Preamble(lines) + Unsegment(Items(Scan(EMPTY, None, lines))) == lines <==> DistinctNames(Segments(lines))
  {
    ItemsAreSegmentsIff(lines);
    var items, segments := Items(Scan(EMPTY, None, lines)), Segments(lines);
    CutIsComplete(lines);
    if Preamble(lines) + Unsegment(items) == lines {
      assert Unsegment(items) == lines[|Preamble(lines)|..] == Unsegment(segments);
      HeadersCount(lines);
      ItemBodiesPlain(lines);
      HeadersOf(items);
      HeadersOf(segments);
      FirstNamesShorter([], segments);
      ScanEntersSegments(EMPTY, None, lines);
      EnterMeans(EMPTY, segments, "");
    }
  }

  /** The number of header lines. */
  function HeaderCount(lines: seq<string>): nat {
    if lines == [] then 0 else (if IsHeader(lines[0]) then 1 else 0) + HeaderCount(lines[1..])
  }

  lemma {:induction false} HeaderCountAppend(a: seq<string>, b: seq<string>)
    ensures HeaderCount(a + b) == HeaderCount(a) + HeaderCount(b)
    decreases |a|
  {
    if a == [] {
      assert a + b == b;
    } else {
      assert (a + b)[1..] == a[1..] + b;
      HeaderCountAppend(a[1..], b);
    }
  }

  predicate PlainBody(body: seq<string>) {
    forall i :: 0 <= i < |body| ==> !IsHeader(body[i])
  }

  predicate PlainSegments(segments: seq<Segment>) {
    forall i :: 0 <= i < |segments| ==> PlainBody(segments[i].body) && IsHeader(segments[i].name + ":")
  }

  lemma {:induction false} PreamblePlain(lines: seq<string>)
    ensures PlainBody(Preamble(lines))
    decreases |lines|
  {
    if lines != [] && !IsHeader(lines[0]) { PreamblePlain(lines[1..]); }
  }

  lemma {:induction false} NoHeaders(body: seq<string>)
    requires PlainBody(body)
    ensures HeaderCount(body) == 0
    decreases |body|
  {
    if body != [] {
      assert !IsHeader(body[0]);
      NoHeaders(body[1..]);
    }
  }

  lemma {:induction false} HeadersCount(lines: seq<string>)
    ensures PlainSegments(Segments(lines))
    decreases |lines|
  {
    if lines != [] {
      HeadersCount(lines[1..]);
      if IsHeader(lines[0]) {
        PreamblePlain(lines[1..]);
        assert HeaderName(lines[0]) + ":" == lines[0];
      }
    }
  }

  /** Writing n segments produces n header lines. */
  lemma {:induction false} HeadersOf(segments: seq<Segment>)
    requires PlainSegments(segments)
    ensures HeaderCount(Unsegment(segments)) == |segments|
    decreases |segments|
  {
    if segments != [] {
      assert PlainBody(segments[0].body) && IsHeader(segments[0].name + ":");
      HeadersOf(segments[1..]);
      NoHeaders(segments[0].body);
      HeaderCountAppend([segments[0].name + ":"] + segments[0].body, Unsegment(segments[1..]));
      assert ([segments[0].name + ":"] + segments[0].body)[1..] == segments[0].body;
    }
  }

  lemma {:induction false} LastBodyListed(segments: seq<Segment>, name: string)
    requires LastBody(segments, name).Some?
    ensures Segment(name, LastBody(segments, name).value) in segments
    decreases |segments|
  {
    if LastBody(segments[1..], name).Some? {
      LastBodyListed(segments[1..], name);
    }
  }

  lemma ItemBodiesPlain(lines: seq<string>)
    ensures Consistent(Scan(EMPTY, None, lines)) && PlainSegments(Items(Scan(EMPTY, None, lines)))
  {
    var blocks, segments := Scan(EMPTY, None, lines), Segments(lines);
    ScanEntersSegments(EMPTY, None, lines);
    EnterMeans(EMPTY, segments, "");
    HeadersCount(lines);
    forall i | 0 <= i < |blocks.order|
      ensures PlainBody(blocks.body[blocks.order[i]]) && IsHeader(blocks.order[i] + ":")
    {
      LastBlockWins(lines, blocks.order[i]);
      LastBodyListed(segments, blocks.order[i]);
    }
  }

  // ------------------------------------------------------------------------------------------
  // The job check.

  const TEST_STAGE := "  stage: test"
  const BUILD_STAGE := "  stage: build"
  const ALLOW_FAILURE := "  allow_failure: true"

  predicate SomeLineHas(lines: seq<string>, marker: string) {
    exists i :: 0 <= i < |lines| && Occurs(marker, lines[i])
  }

  /** What the check finds by searching the joined text of a block. */
  predicate Offends(body: seq<string>) {
    var block := Join(body, "\n");
    (Occurs(TEST_STAGE, block) || Occurs(BUILD_STAGE, block)) && Occurs(ALLOW_FAILURE, block)
  }

  /** The names reported, in key order. */
  function Reported(b: Blocks, n: nat): seq<string>
    requires Consistent(b) && n <= |b.order|
  {
    if n == 0 then []
    else Reported(b, n - 1) + (if Offends(b.body[b.order[n - 1]]) then [b.order[n - 1]] else [])
  }

  lemma ScanConsistent(lines: seq<string>)
    ensures Consistent(Scan(EMPTY, None, lines))
  {
    ScanEntersSegments(EMPTY, None, lines);
    EnterMeans(EMPTY, Segments(lines), "");
  }

  /** The names the check reports for a file. */
  function Report(content: string): seq<string> {
    ScanConsistent(SplitLines(content));
    var blocks := Scan(EMPTY, None, SplitLines(content));
    Reported(blocks, |blocks.order|)
  }

  method RequireBlockingTestAndBuildJobs(content: string) returns (failures: seq<string>)
    ensures failures == Report(content)
  {
    var blocks := CollectTopLevelBlocks(content);
    failures := [];
    for i := 0 to |blocks.order|
      invariant failures == Reported(blocks, i)
    {
      var name := blocks.order[i];
      var block := Join(blocks.body[name], "\n");
      var isBlockingStage := Occurs("  stage: test", block) || Occurs("  stage: build", block);
      if isBlockingStage && Occurs("  allow_failure: true", block) {
        failures := failures + [name];
      }
    }
  }

  lemma OccursIn(marker: string, hay: string, i: int)
    requires OccursAt(marker, hay, i)
    ensures Occurs(marker, hay)
  {
  }

  lemma OccursAppend(marker: string, a: string, b: string)
    ensures Occurs(marker, a) ==> Occurs(marker, a + b)
    ensures Occurs(marker, b) ==> Occurs(marker, a + b)
  {
    if Occurs(marker, a) {
      var i :| 0 <= i <= |a| && OccursAt(marker, a, i);
      assert (a + b)[i..i + |marker|] == a[i..i + |marker|];
      OccursIn(marker, a + b, i);
    }
    if Occurs(marker, b) {
      var i :| 0 <= i <= |b| && OccursAt(marker, b, i);
      assert (a + b)[|a| + i..|a| + i + |marker|] == b[i..i + |marker|];
      OccursIn(marker, a + b, |a| + i);
    }
  }

  /** A marker without a newline cannot straddle one. */
  lemma OccursAcrossNewline(marker: string, a: string, b: string)
    requires '\n' !in marker && Occurs(marker, a + "\n" + b)
    ensures Occurs(marker, a) || Occurs(marker, b)
  {
    var s := a + "\n" + b;
    var i :| 0 <= i <= |s| && OccursAt(marker, s, i);
    forall j | i <= j < i + |marker| ensures s[j] != '\n' {
      assert s[j] == marker[j - i];
    }
    assert s[|a|] == '\n';
    if i + |marker| <= |a| {
      assert a[i..i + |marker|] == s[i..i + |marker|];
      OccursIn(marker, a, i);
    } else if i > |a| {
      var j := i - |a| - 1;
      assert b[j..j + |marker|] == s[i..i + |marker|];
      OccursIn(marker, b, j);
    } else {
      assert false;
    }
  }

  /** A non-empty marker without a newline occurs in the joined text if and only if it occurs in one line. */
  lemma {:induction false} JoinSearch(lines: seq<string>, marker: string)
    requires marker != "" && '\n' !in marker
    ensures Occurs(marker, Join(lines, "\n")) <==> SomeLineHas(lines, marker)
    decreases |lines|
  {
    if |lines| > 1 {
      var a, b := lines[0], Join(lines[1..], "\n");
      JoinSearch(lines[1..], marker);
      OccursAppend(marker, a, "\n" + b);
      OccursAppend(marker, "\n", b);
      assert a + ("\n" + b) == a + "\n" + b;
      if Occurs(marker, Join(lines, "\n")) {
        OccursAcrossNewline(marker, a, b);
        if Occurs(marker, b) {
          var i :| 0 <= i < |lines[1..]| && Occurs(marker, lines[1..][i]);
          assert lines[i + 1] == lines[1..][i];
        }
      }
      if SomeLineHas(lines, marker) {
        var i :| 0 <= i < |lines| && Occurs(marker, lines[i]);
        if i > 0 {
          assert lines[1..][i - 1] == lines[i];
        }
      }
    }
  }

  lemma OffendsByLines(body: seq<string>)
    ensures Offends(body) <==>
            (SomeLineHas(body, TEST_STAGE) || SomeLineHas(body, BUILD_STAGE)) && SomeLineHas(body, ALLOW_FAILURE)
  {
    JoinSearch(body, TEST_STAGE);
    JoinSearch(body, BUILD_STAGE);
    JoinSearch(body, ALLOW_FAILURE);
  }

  lemma {:induction false} ReportedMembers(b: Blocks, n: nat, name: string)
    requires Consistent(b) && n <= |b.order|
    ensures name in Reported(b, n) <==> name in b.order[..n] && Offends(b.body[name])
    decreases n
  {
    if n > 0 {
      ReportedMembers(b, n - 1, name);
      assert b.order[..n] == b.order[..n - 1] + [b.order[n - 1]];
    }
  }

  /**
   The check reports a name if and only if the last top-level block with that header has a line with a
   test or build stage marker and a line that allows failure.
   */
  lemma ReportsExactly(content: string, name: string)
    ensures var last := LastBody(Segments(SplitLines(content)), name);
            name in Report(content) <==>
              last.Some?
              && (SomeLineHas(last.value, TEST_STAGE) || SomeLineHas(last.value, BUILD_STAGE))
              && SomeLineHas(last.value, ALLOW_FAILURE)
  {
    var lines := SplitLines(content);
    var blocks := Scan(EMPTY, None, lines);
    ScanEntersSegments(EMPTY, None, lines);
    EnterMeans(EMPTY, Segments(lines), name);
    LastBlockWins(lines, name);
    ReportedMembers(blocks, |blocks.order|, name);
    assert blocks.order[..|blocks.order|] == blocks.order;
    if name in blocks.body {
      OffendsByLines(blocks.body[name]);
    }
  }
}
