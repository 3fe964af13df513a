/** Splitting a long outbound message into Slack-sized parts without breaking markdown code fences
    (`SlackAdapter._split_text_for_slack`). */
module SlackSplit {
  import opened Text

  const FENCE := "```"
  const MAX_TEXT_LEN := 3000

  /** A line whose first visible characters are a code fence. */
  predicate IsFence(line: string) {
    FENCE <= LStrip(line)
  }

  function FenceTotal(lines: seq<string>): nat {
    if lines == [] then 0 else (if IsFence(lines[0]) then 1 else 0) + FenceTotal(lines[1..])
  }

  /** How many lines of a text are fences. */
  function FenceLines(text: string): nat {
    FenceTotal(SplitLines(text))
  }

  predicate Balanced(parts: seq<string>) {
    forall p :: p in parts ==> FenceLines(p) % 2 == 0
  }

  function LongestLine(lines: seq<string>): nat {
    if lines == [] then 0 else
      var rest := LongestLine(lines[1..]);
      if |lines[0]| > rest then |lines[0]| else rest
  }

  // ---------------------------------------------------------------- what a split is

  /** A run of consecutive source lines, with the fences the splitter put around it. */
  datatype Segment = Segment(reopened: bool, lines: seq<string>, closed: bool) {
    function Opened(): string {
      (if reopened then "```\n" else "") + Flatten(lines)
    }

    function Rendered(): string {
      Strip(Opened() + if closed then "\n```" else "")
    }

    /** A fence is added at the end exactly when the segment's own fences leave a block open, and a
        segment of several lines was within the limit. */
    ghost predicate Valid(maxLen: int) {
      && lines != []
      && closed == (reopened != (FenceTotal(lines) % 2 == 1))
      && (|lines| > 1 ==> |Opened()| <= maxLen)
    }
  }

  function SourceLines(segs: seq<Segment>): seq<string> {
    if segs == [] then [] else SourceLines(segs[..|segs| - 1]) + segs[|segs| - 1].lines
  }

  /** The parts that are sent: blank segments disappear. */
  function Parts(segs: seq<Segment>): seq<string> {
    if segs == [] then [] else Flush(Parts(segs[..|segs| - 1]), segs[|segs| - 1].Rendered())
  }

  function Flush(parts: seq<string>, current: string): seq<string> {
    if Strip(current) != "" then parts + [Strip(current)] else parts
  }

  /** Segments follow each other: a block closed at a cut is reopened after it and no other fence is
      inserted, and a cut is made only where the next line would not have fitted. */
  ghost predicate Chained(segs: seq<Segment>, maxLen: int) {
    segs == [] || (Chained(segs[..|segs| - 1], maxLen)
                   && Link(segs[..|segs| - 1], segs[|segs| - 1], maxLen))
  }

  ghost predicate Link(before: seq<Segment>, seg: Segment, maxLen: int) {
    && seg.Valid(maxLen)
    && seg.reopened == LeftOpen(before)
    && (before != [] ==> Overflows(before, seg.lines[0], maxLen))
  }

  /** The last segment had no room for this line. */
  predicate Overflows(segs: seq<Segment>, line: string, maxLen: int)
    requires segs != []
  {
    |segs[|segs| - 1].Opened()| + |line| > maxLen
  }

  /** Whether the last cut was made inside a code block. */
  predicate LeftOpen(segs: seq<Segment>) {
    segs != [] && segs[|segs| - 1].closed
  }

  lemma {:induction false} ChainedAt(segs: seq<Segment>, maxLen: int, j: nat)
    requires Chained(segs, maxLen) && j < |segs|
    ensures Link(segs[..j], segs[j], maxLen)
  {
    if j < |segs| - 1 {
      ChainedAt(segs[..|segs| - 1], maxLen, j);
      assert segs[..|segs| - 1][..j] == segs[..j];
    }
  }

  /** What a chain is, segment by segment.  A segment is opened exactly when the one before it was closed, and
      closed exactly when it then holds an odd number of fences; if it has several lines, they fit; and the first
      line of the next one would not have fitted.  A reopened segment is four characters longer. */
  lemma ChainExact(segs: seq<Segment>, maxLen: int, j: nat)
    requires Chained(segs, maxLen) && j < |segs|
    ensures var seg := segs[j];
            && seg.lines != []
            && seg.reopened == (j > 0 && segs[j - 1].closed)
            && seg.closed == (((if seg.reopened then 1 else 0) + FenceTotal(seg.lines)) % 2 == 1)
            && (|seg.lines| > 1 ==> (if seg.reopened then 4 else 0) + |Flatten(seg.lines)| <= maxLen)
    ensures j > 0 ==>
              (if segs[j - 1].reopened then 4 else 0) + |Flatten(segs[j - 1].lines)| + |segs[j].lines[0]| > maxLen
  {
    ChainedAt(segs, maxLen, j);
  }

  /** What is sent of a segment: its lines with the fences around them, trimmed, unless nothing is left. */
  lemma PartsExact(segs: seq<Segment>, seg: Segment)
    ensures Parts([]) == []
    ensures var text := Strip((if seg.reopened then "```\n" else "") + Flatten(seg.lines)
                              + (if seg.closed then "\n```" else ""));
            Parts(segs + [seg]) == Parts(segs) + if text == "" then [] else [text]
  {
    SnocInit(segs, seg);
    StripTwice(seg.Opened() + if seg.closed then "\n```" else "");
    AppendEmpty(Parts(segs));
  }

  /** A fence line is one that has three backticks behind its leading whitespace. */
  lemma FenceExact(blank: string, rest: string)
    requires Blank(blank) && (rest == "" || !IsSpace(rest[0]))
    ensures IsFence(blank + rest) <==> |rest| >= 3 && rest[0] == rest[1] == rest[2] == '`'
  {
    LeadingSpacesOf(blank, rest);
    assert LStrip(blank + rest) == rest;
    assert |rest| >= 3 ==> (FENCE <= rest <==> rest[..3] == FENCE);
    assert |rest| >= 3 && rest[0] == rest[1] == rest[2] == '`' ==> rest[..3] == FENCE;
  }

  // ---------------------------------------------------------------- scanning for fences

  /** Where a reader is within a line: before its first visible character, after one or two leading
      backticks, or past the point where a fence could start. */
  datatype Scan = LineStart | OneTick | TwoTicks | InLine

  function Advance(q: Scan, c: char): Scan {
    if IsLineBreak(c) then LineStart
    else match q
      case LineStart => if c == '`' then OneTick else if IsSpace(c) then LineStart else InLine
      case OneTick => if c == '`' then TwoTicks else InLine
      case TwoTicks => InLine
      case InLine => InLine
  }

  function ScanEnd(s: string, q: Scan): Scan {
    if s == "" then q else ScanEnd(s[1..], Advance(q, s[0]))
  }

  function ScanCount(s: string, q: Scan): nat {
    if s == "" then 0
    else (if q == TwoTicks && s[0] == '`' then 1 else 0) + ScanCount(s[1..], Advance(q, s[0]))
  }

  lemma {:induction false} ScanConcat(a: string, b: string, q: Scan)
    ensures ScanEnd(a + b, q) == ScanEnd(b, ScanEnd(a, q))
    ensures ScanCount(a + b, q) == ScanCount(a, q) + ScanCount(b, ScanEnd(a, q))
  {
    if a == "" {
      assert a + b == b;
    } else {
      ScanConcat(a[1..], b, Advance(q, a[0]));
      assert (a + b)[1..] == a[1..] + b;
    }
  }

  lemma {:induction false} ScanBlank(s: string, q: Scan)
    requires Blank(s)
    ensures ScanCount(s, q) == 0
    ensures q == LineStart ==> ScanEnd(s, q) == LineStart
  {
    if s != "" {
      assert IsSpace(s[0]) && Blank(s[1..]);
      ScanBlank(s[1..], Advance(q, s[0]));
    }
  }

  lemma {:induction false} ScanInLine(body: string)
    requires forall i :: 0 <= i < |body| ==> !IsLineBreak(body[i])
    ensures ScanCount(body, InLine) == 0
  {
    if body != "" {
      ScanInLine(body[1..]);
    }
  }

  /** Trimming does not change how many fence lines a text has. */
  lemma ScanStrip(s: string)
    ensures ScanCount(Strip(s), LineStart) == ScanCount(s, LineStart)
  {
    var before, after := StripShape(s);
    ScanConcat(before + Strip(s), after, LineStart);
    ScanConcat(before, Strip(s), LineStart);
    ScanBlank(before, LineStart);
    ScanBlank(after, ScanEnd(before + Strip(s), LineStart));
  }

  /** A line that starts with a fence is counted once. */
  lemma AFence(body: string, end: string)
    requires IsLine(body, end) && |body| >= 3 && body[..3] == FENCE
    ensures ScanCount(body, LineStart) == 1 && FENCE <= body + end
  {
    assert body[0] == body[..3][0] && body[1] == body[..3][1] && body[2] == body[..3][2];
    assert body[1..][1..] == body[2..] && body[2..][1..] == body[3..];
    ScanInLine(body[3..]);
    assert ScanCount(body[2..], TwoTicks) == 1;
    assert (body + end)[..3] == FENCE;
  }

  lemma BlankLine(end: string)
    requires Blank(end)
    ensures !IsFence(end)
  {
    LeadingSpacesOf(end, "");
    AppendEmpty(end);
    assert LStrip(end) == "";
  }

  lemma SpaceThenLine(body: string, end: string)
    requires body != "" && IsSpace(body[0])
    ensures IsFence(body + end) <==> IsFence(body[1..] + end)
    ensures ScanCount(body, LineStart) == ScanCount(body[1..], LineStart)
  {
    ConcatTail(body, end);
    assert LStrip(body + end) == LStrip(body[1..] + end);
  }

  lemma {:induction false} ScanLineBody(body: string, end: string)
    requires IsLine(body, end)
    ensures ScanCount(body, LineStart) == if IsFence(body + end) then 1 else 0
  {
    if body == "" {
      BlankLine(end);
      AppendEmpty(end);
    } else if IsSpace(body[0]) {
      ScanLineBody(body[1..], end);
      SpaceThenLine(body, end);
    } else {
      assert LStrip(body + end) == body + end;
      if |body| >= 3 && body[..3] == FENCE {
        AFence(body, end);
      } else {
        NotAFence(body, end);
      }
    }
  }

  lemma NotPrefix(line: string, k: nat)
    requires k < 3 && k < |line| && line[k] != '`'
    ensures !(FENCE <= line)
  {
    assert FENCE[k] == '`';
  }

  /** A visible line with fewer than three leading backticks: the scan counts nothing in it. */
  lemma NotAFence(body: string, end: string)
    requires IsLine(body, end) && body != "" && !IsSpace(body[0])
    requires !(|body| >= 3 && body[..3] == FENCE)
    ensures ScanCount(body, LineStart) == 0 && !(FENCE <= body + end)
  {
    var line := body + end;
    var k := if body[0] != '`' then 0 else if |body| == 1 || body[1] != '`' then 1 else 2;
    FewTicks(body, k);
    if k < |body| {
      NotPrefix(line, k);
    } else if end != "" {
      assert line[k] == end[0];
      NotPrefix(line, k);
    }
  }

  lemma FewTicks(body: string, k: nat)
    requires forall i :: 0 <= i < |body| ==> !IsLineBreak(body[i])
    requires body != "" && !IsSpace(body[0]) && k <= 2 && k <= |body|
    requires (k > 0 ==> body[0] == '`') && (k > 1 ==> body[1] == '`') && (k < |body| ==> body[k] != '`')
    ensures ScanCount(body, LineStart) == 0
  {
    assert |body| >= 2 ==> body[1..][1..] == body[2..];
    assert |body| >= 3 ==> body[2..][1..] == body[3..];
    if k < |body| {
      ScanInLine(body[k + 1..]);
    }
    if |body| >= 2 && k == 2 {
      assert ScanCount(body[2..], TwoTicks) == 0;
      assert ScanCount(body[1..], OneTick) == 0;
    }
  }

  /** Scanning a line counts it when it is a fence; every line but the last ends where a line starts. */
  ghost predicate Scannable(lines: seq<string>) {
    && (forall k :: 0 <= k < |lines| ==>
          ScanCount(lines[k], LineStart) == if IsFence(lines[k]) then 1 else 0)
    && (forall k :: 0 <= k < |lines| - 1 ==> ScanEnd(lines[k], LineStart) == LineStart)
  }

  lemma FirstLineScan(s: string)
    requires s != ""
    ensures var line := s[..LineLength(s)];
            && ScanCount(line, LineStart) == (if IsFence(line) then 1 else 0)
            && (LineLength(s) < |s| ==> ScanEnd(line, LineStart) == LineStart)
  {
    var body, end := FirstLineShape(s);
    ScanLineBody(body, end);
    ScanConcat(body, end, LineStart);
    assert Blank(end);
    ScanBlank(end, ScanEnd(body, LineStart));
    if end != "" {
      assert Advance(ScanEnd(body, LineStart), end[0]) == LineStart;
      BlankDrop(end, 1);
      ScanBlank(end[1..], LineStart);
    }
  }

  lemma {:induction false} SplitLinesScannable(s: string)
    ensures Scannable(SplitLines(s))
    decreases |s|
  {
    if s != "" {
      var rest := SplitLines(s[LineLength(s)..]);
      FirstLineScan(s);
      SplitLinesScannable(s[LineLength(s)..]);
      assert SplitLines(s) == [s[..LineLength(s)]] + rest;
      assert LineLength(s) == |s| ==> rest == [];
    }
  }

  lemma {:induction false} ScanLines(lines: seq<string>)
    requires Scannable(lines)
    ensures ScanCount(Flatten(lines), LineStart) == FenceTotal(lines)
  {
    if lines != [] {
      assert Scannable(lines[1..]);
      ScanLines(lines[1..]);
      ScanConcat(lines[0], Flatten(lines[1..]), LineStart);
      if |lines| == 1 {
        assert Flatten(lines[1..]) == "";
      }
    }
  }

  /** Counting fence lines line by line is the same as scanning the characters once. */
  lemma FenceLinesScan(s: string)
    ensures FenceLines(s) == ScanCount(s, LineStart)
  {
    SplitLinesScannable(s);
    ScanLines(SplitLines(s));
    SplitLinesLossless(s);
  }

  // ---------------------------------------------------------------- properties of the parts

  lemma OpenedFences(seg: Segment)
    requires Scannable(seg.lines)
    ensures ScanCount(seg.Opened(), LineStart)
         == (if seg.reopened then 1 else 0) + FenceTotal(seg.lines)
  {
    ScanLines(seg.lines);
    if seg.reopened {
      ScanConcat("```\n", Flatten(seg.lines), LineStart);
      ReopeningFence();
    } else {
      assert seg.Opened() == Flatten(seg.lines);
    }
  }

  lemma RenderedFences(seg: Segment)
    ensures ScanCount(seg.Rendered(), LineStart)
         == ScanCount(seg.Opened(), LineStart) + if seg.closed then 1 else 0
  {
    var before := seg.Opened();
    if seg.closed {
      ScanConcat(before, "\n```", LineStart);
      ClosingFence(ScanEnd(before, LineStart));
      ScanStrip(before + "\n```");
    } else {
      assert before + "" == before;
      ScanStrip(before);
    }
  }

  /** Every rendered segment is balanced, whatever its own lines contain. */
  lemma RenderedBalanced(seg: Segment, maxLen: int)
    requires seg.Valid(maxLen) && Scannable(seg.lines)
    ensures FenceLines(seg.Rendered()) % 2 == 0
  {
    OpenedFences(seg);
    RenderedFences(seg);
    FenceLinesScan(seg.Rendered());
    ClosedParity(seg, maxLen, FenceTotal(seg.lines));
  }

  lemma ClosedParity(seg: Segment, maxLen: int, total: nat)
    requires seg.Valid(maxLen) && total == FenceTotal(seg.lines)
    ensures ((if seg.reopened then 1 else 0) + total + if seg.closed then 1 else 0) % 2 == 0
  {
  }

  lemma ReopeningFence()
    ensures ScanCount("```\n", LineStart) == 1 && ScanEnd("```\n", LineStart) == LineStart
  {
    var s := "```\n";
    assert s[1..] == "``\n" && s[1..][1..] == "`\n" && s[1..][1..][1..] == "\n";
    assert ScanCount("`\n", TwoTicks) == 1 && ScanEnd("`\n", TwoTicks) == LineStart;
    assert ScanCount("``\n", OneTick) == 1 && ScanEnd("``\n", OneTick) == LineStart;
  }

  lemma ClosingFence(q: Scan)
    ensures ScanCount("\n```", q) == 1
  {
    var s := "\n```";
    assert s[1..] == "```" && s[1..][1..] == "``" && s[1..][1..][1..] == "`";
    assert ScanCount("`", TwoTicks) == 1;
    assert ScanCount("``", OneTick) == 1;
  }

  lemma StripShorter(s: string)
    ensures |Strip(s)| <= |s|
  {
  }

  lemma {:induction false} LongestLineBounds(lines: seq<string>, k: nat)
    requires k < |lines|
    ensures |lines[k]| <= LongestLine(lines)
  {
    if k > 0 {
      LongestLineBounds(lines[1..], k - 1);
    }
  }

  function Limit(maxLen: int, longest: nat): int {
    (if maxLen > longest + 4 then maxLen else longest + 4) + 4
  }

  lemma RenderedBounded(seg: Segment, maxLen: int, longest: nat)
    requires seg.Valid(maxLen)
    requires |seg.lines[0]| <= longest
    ensures |seg.Rendered()| <= Limit(maxLen, longest)
  {
    if |seg.lines| == 1 {
      assert Flatten(seg.lines) == seg.lines[0] + Flatten(seg.lines[1..]);
    }
    StripShorter(seg.Opened() + if seg.closed then "\n```" else "");
  }

  lemma BlankPart(before: string, s: string, after: string)
    requires Blank(before + s + after)
    ensures Blank(s)
  {
    forall i | 0 <= i < |s| ensures IsSpace(s[i]) {
      assert s[i] == (before + s + after)[|before| + i];
    }
  }

  lemma BlankRendered(seg: Segment)
    requires seg.Rendered() == ""
    ensures Blank(Flatten(seg.lines))
  {
    var start, end := if seg.reopened then "```\n" else "", if seg.closed then "\n```" else "";
    StripBlank(start + Flatten(seg.lines) + end);
    BlankPart(start, Flatten(seg.lines), end);
  }

  /** If nothing is sent, there was nothing but whitespace to send. */
  lemma {:induction false} NoPartsMeansBlank(segs: seq<Segment>)
    requires Parts(segs) == []
    ensures Blank(Flatten(SourceLines(segs)))
  {
    if segs != [] {
      var init, last := segs[..|segs| - 1], segs[|segs| - 1];
      StripTwice(last.Opened() + if last.closed then "\n```" else "");
      NoPartsMeansBlank(init);
      BlankRendered(last);
      FlattenAppend(SourceLines(init), last.lines);
      BlankConcat(Flatten(SourceLines(init)), Flatten(last.lines));
    }
  }

  lemma StripTwice(s: string)
    ensures Strip(Strip(s)) == Strip(s)
  {
    var before, after := StripShape(s);
    StripIgnoresEnds(before, Strip(s), after);
  }

  /** What holds of every part follows from what holds of every segment. */
  lemma {:induction false} PartsFrom(segs: seq<Segment>, p: string) returns (k: nat)
    requires p in Parts(segs)
    ensures k < |segs| && p == segs[k].Rendered()
  {
    var last := segs[|segs| - 1];
    StripTwice(last.Opened() + if last.closed then "\n```" else "");
    if p in Parts(segs[..|segs| - 1]) {
      k := PartsFrom(segs[..|segs| - 1], p);
    } else {
      k := |segs| - 1;
    }
  }

  lemma {:induction false} SegmentLines(segs: seq<Segment>, k: nat) returns (at: nat)
    requires k < |segs|
    ensures at + |segs[k].lines| <= |SourceLines(segs)|
    ensures segs[k].lines == SourceLines(segs)[at..at + |segs[k].lines|]
  {
    if k == |segs| - 1 {
      at := |SourceLines(segs[..k])|;
    } else {
      at := SegmentLines(segs[..|segs| - 1], k);
    }
  }

  lemma ScannableSlice(lines: seq<string>, from: nat, to: nat)
    requires Scannable(lines) && from <= to <= |lines|
    ensures Scannable(lines[from..to])
  {
    var part := lines[from..to];
    forall k | 0 <= k < |part|
      ensures ScanCount(part[k], LineStart) == if IsFence(part[k]) then 1 else 0
      ensures k < |part| - 1 ==> ScanEnd(part[k], LineStart) == LineStart
    {
      assert part[k] == lines[from + k];
    }
  }

  lemma PartSound(lines: seq<string>, segs: seq<Segment>, maxLen: int, p: string)
    requires Chained(segs, maxLen) && SourceLines(segs) == lines && Scannable(lines)
    requires p in Parts(segs)
    ensures FenceLines(p) % 2 == 0 && |p| <= Limit(maxLen, LongestLine(lines))
  {
    var k := PartsFrom(segs, p);
    var seg := segs[k];
    var at := SegmentLines(segs, k);
    ChainLinks(segs, k, maxLen);
    ScannableSlice(lines, at, at + |seg.lines|);
    RenderedBalanced(seg, maxLen);
    LongestLineBounds(lines, at);
    RenderedBounded(seg, maxLen, LongestLine(lines));
  }

  /** Every part of a split is balanced, within the limit, and there is at least one part. */
  lemma PartsSound(text: string, segs: seq<Segment>, maxLen: int)
    requires Chained(segs, maxLen) && SourceLines(segs) == SplitLines(text)
    ensures Balanced(Parts(segs))
    ensures forall p :: p in Parts(segs) ==> |p| <= Limit(maxLen, LongestLine(SplitLines(text)))
    ensures Strip(text) != "" ==> Parts(segs) != []
  {
    SplitLinesScannable(text);
    forall p | p in Parts(segs)
      ensures FenceLines(p) % 2 == 0 && |p| <= Limit(maxLen, LongestLine(SplitLines(text)))
    {
      PartSound(SplitLines(text), segs, maxLen, p);
    }
    if Parts(segs) == [] {
      NoPartsMeansBlank(segs);
      SplitLinesLossless(text);
      StripBlank(text);
    }
  }

  // ---------------------------------------------------------------- the splitter

  lemma {:induction false} FenceTotalSnoc(lines: seq<string>, line: string)
    ensures FenceTotal(lines + [line]) == FenceTotal(lines) + if IsFence(line) then 1 else 0
  {
    if lines == [] {
      assert lines + [line] == [line];
      assert FenceTotal([line][1..]) == 0;
    } else {
      FenceTotalSnoc(lines[1..], line);
      assert (lines + [line])[1..] == lines[1..] + [line];
    }
  }

  /** Closing the running segment: the code appends the fence with a trailing line break, which
      trimming removes. */
  lemma CutFacts(segs: seq<Segment>, seg: Segment, current: string)
    requires current == seg.Opened()
    ensures seg.closed ==> Parts(segs + [seg]) == Flush(Parts(segs), current + "\n```\n")
    ensures seg.closed ==> Parts(segs + [seg]) == Flush(Parts(segs), current + "\n```")
    ensures !seg.closed ==> Parts(segs + [seg]) == Flush(Parts(segs), current)
    ensures SourceLines(segs + [seg]) == SourceLines(segs) + seg.lines
  {
    SnocInit(segs, seg);
    if seg.closed {
      var raw := current + "\n```";
      StripTwice(raw);
      assert "" + raw + "\n" == current + "\n```\n";
      assert Blank("\n") && Blank("");
      StripIgnoresEnds("", raw, "\n");
    } else {
      assert current + "" == current;
      StripTwice(current);
    }
  }

  lemma {:induction false} ChainLinks(segs: seq<Segment>, k: nat, maxLen: int)
    requires Chained(segs, maxLen) && k < |segs|
    ensures Link(segs[..k], segs[k], maxLen)
  {
    if k < |segs| - 1 {
      ChainLinks(segs[..|segs| - 1], k, maxLen);
      assert segs[..|segs| - 1][..k] == segs[..k];
    }
  }

  lemma ChainSnoc(segs: seq<Segment>, seg: Segment, maxLen: int)
    requires Chained(segs, maxLen) && Link(segs, seg, maxLen)
    ensures Chained(segs + [seg], maxLen)
  {
    SnocInit(segs, seg);
  }

  /** The state between two lines: `segs` are the finished segments and `run` the lines of the running
      one; together they are the first `i` lines. */
  ghost predicate Running(lines: seq<string>, i: nat, segs: seq<Segment>, run: seq<string>, maxLen: int,
                          parts: seq<string>, current: string, inCodeBlock: bool)
  {
    && i <= |lines| && SourceLines(segs) + run == lines[..i]
    && Chained(segs, maxLen) && parts == Parts(segs)
    && current == Segment(LeftOpen(segs), run, false).Opened()
    && inCodeBlock == (LeftOpen(segs) != (FenceTotal(run) % 2 == 1))
    && (|run| > 1 ==> |current| <= maxLen)
    && (segs != [] && run != [] ==> Overflows(segs, run[0], maxLen))
    && (segs != [] && run == [] && i < |lines| ==> Overflows(segs, lines[i], maxLen))
  }

  lemma CutStep(lines: seq<string>, i: nat, segs: seq<Segment>, run: seq<string>, maxLen: int,
                parts: seq<string>, current: string, inCodeBlock: bool) returns (seg: Segment)
    requires Running(lines, i, segs, run, maxLen, parts, current, inCodeBlock) && run != []
    requires i < |lines| ==> |current| + |lines[i]| > maxLen
    ensures Running(lines, i, segs + [seg], [], maxLen, Parts(segs + [seg]),
                    if inCodeBlock then "```\n" else "", inCodeBlock)
    ensures inCodeBlock ==> Parts(segs + [seg]) == Flush(parts, current + "\n```\n")
    ensures inCodeBlock ==> Parts(segs + [seg]) == Flush(parts, current + "\n```")
    ensures !inCodeBlock ==> Parts(segs + [seg]) == Flush(parts, current)
  {
    seg := Segment(LeftOpen(segs), run, inCodeBlock);
    assert current == seg.Opened();
    CutFacts(segs, seg, current);
    ChainSnoc(segs, seg, maxLen);
    SnocInit(segs, seg);
    assert LeftOpen(segs + [seg]) == inCodeBlock;
    AppendEmpty(SourceLines(segs + [seg]));
    NothingRunning(inCodeBlock);
  }

  lemma NothingRunning(reopened: bool)
    ensures FenceTotal([]) == 0
    ensures Segment(reopened, [], false).Opened() == if reopened then "```\n" else ""
  {
    assert Flatten<char>([]) == "";
  }

  lemma OpenedSnoc(reopened: bool, lines: seq<string>, line: string)
    ensures Segment(reopened, lines + [line], false).Opened()
         == Segment(reopened, lines, false).Opened() + line
  {
    FlattenSnoc(lines, line);
    if reopened {
      assert ("```\n" + Flatten(lines)) + line == "```\n" + (Flatten(lines) + line);
    } else {
      assert ("" + Flatten(lines)) + line == "" + (Flatten(lines) + line);
    }
  }

  lemma AppendStep(lines: seq<string>, i: nat, segs: seq<Segment>, run: seq<string>, maxLen: int,
                   parts: seq<string>, current: string, inCodeBlock: bool)
    requires Running(lines, i, segs, run, maxLen, parts, current, inCodeBlock) && i < |lines|
    requires run != [] ==> |current| + |lines[i]| <= maxLen
    ensures Running(lines, i + 1, segs, run + [lines[i]], maxLen, parts, current + lines[i],
                    inCodeBlock != IsFence(lines[i]))
  {
    TakeSnoc(lines, i);
    ConcatAssoc(SourceLines(segs), run, [lines[i]]);
    OpenedSnoc(LeftOpen(segs), run, lines[i]);
    FenceParitySnoc(run, lines[i]);
  }

  lemma FenceParitySnoc(lines: seq<string>, line: string)
    ensures (FenceTotal(lines + [line]) % 2 == 1) == ((FenceTotal(lines) % 2 == 1) != IsFence(line))
  {
    FenceTotalSnoc(lines, line);
  }

  /** What one line does to the parts, the running part, and whether that has an open fence. */
  ghost predicate Packed(parts: seq<string>, current: string, inCodeBlock: bool, line: string, maxLen: int,
                         parts': seq<string>, current': string, inCodeBlock': bool)
  {
    var cut := |current| + |line| > maxLen && current != "";
    && parts' == (if !cut then parts
                  else if inCodeBlock then Flush(parts, current + "\n```\n")
                  else Flush(parts, current))
    && current' == (if !cut then current else if inCodeBlock then "```\n" else "") + line
    && inCodeBlock' == (inCodeBlock != IsFence(line))
  }

  method PackLine(parts: seq<string>, current: string, inCodeBlock: bool, line: string, maxLen: int)
    returns (parts': seq<string>, current': string, inCodeBlock': bool)
    ensures Packed(parts, current, inCodeBlock, line, maxLen, parts', current', inCodeBlock')
    ensures line != "" ==> current' != ""
  {
    parts', current', inCodeBlock' := parts, current, inCodeBlock;
    var isFence := IsFence(line);
    if |current| + |line| > maxLen && current != "" {
      if inCodeBlock {
        current' := current' + "\n```\n";
      }
      parts', current' := Flush(parts, current'), "";
      if inCodeBlock {
        current' := "```\n";
      }
    }
    current' := current' + line;
    if isFence {
      inCodeBlock' := !inCodeBlock;
    }
  }

  /** One iteration, from the values before it to the values after it. */
  lemma LineStep(lines: seq<string>, i: nat, segs: seq<Segment>, run: seq<string>, maxLen: int,
                 parts: seq<string>, current: string, inCodeBlock: bool,
                 parts': seq<string>, current': string, inCodeBlock': bool)
    returns (segs': seq<Segment>, run': seq<string>)
    requires Running(lines, i, segs, run, maxLen, parts, current, inCodeBlock) && i < |lines|
    requires current == "" <==> run == []
    requires Packed(parts, current, inCodeBlock, lines[i], maxLen, parts', current', inCodeBlock')
    ensures Running(lines, i + 1, segs', run', maxLen, parts', current', inCodeBlock') && run' != []
  {
    if |current| + |lines[i]| > maxLen && current != "" {
      var seg := CutStep(lines, i, segs, run, maxLen, parts, current, inCodeBlock);
      segs', run' := segs + [seg], [lines[i]];
      AppendStep(lines, i, segs', [], maxLen, parts', if inCodeBlock then "```\n" else "", inCodeBlock);
      AppendEmpty(run');
    } else {
      segs', run' := segs, run + [lines[i]];
      AppendStep(lines, i, segs, run, maxLen, parts, current, inCodeBlock);
    }
  }

  /** Closing the last segment. */
  lemma LastStep(lines: seq<string>, segs: seq<Segment>, run: seq<string>, maxLen: int,
                 parts: seq<string>, current: string, inCodeBlock: bool, parts': seq<string>)
    returns (segs': seq<Segment>)
    requires Running(lines, |lines|, segs, run, maxLen, parts, current, inCodeBlock) && run != []
    requires parts' == if inCodeBlock then Flush(parts, current + "\n```") else Flush(parts, current)
    ensures SourceLines(segs') == lines && Chained(segs', maxLen) && parts' == Parts(segs')
  {
    var seg := CutStep(lines, |lines|, segs, run, maxLen, parts, current, inCodeBlock);
    segs' := segs + [seg];
    AppendEmpty(SourceLines(segs'));
    TakeAll(lines);
  }

  lemma NothingPacked(lines: seq<string>, maxLen: int)
    ensures Running(lines, 0, [], [], maxLen, [], "", false)
  {
    NothingRunning(false);
  }

  /** The loop over the lines: `current` is the running part, `inCodeBlock` whether it has an open fence. */
  method PackLines(lines: seq<string>, maxLen: int) returns (parts: seq<string>, ghost segs: seq<Segment>)
    requires forall k :: 0 <= k < |lines| ==> lines[k] != ""
    ensures SourceLines(segs) == lines && Chained(segs, maxLen) && parts == Parts(segs)
  {
    parts, segs := [], [];
    var current, inCodeBlock := "", false;
    ghost var run := [];
    NothingPacked(lines, maxLen);
    var i := 0;
    while i < |lines|
      invariant Running(lines, i, segs, run, maxLen, parts, current, inCodeBlock)
      invariant current == "" <==> i == 0
      invariant run == [] <==> i == 0
    {
      ghost var parts0, current0, inCodeBlock0 := parts, current, inCodeBlock;
      parts, current, inCodeBlock := PackLine(parts, current, inCodeBlock, lines[i], maxLen);
      segs, run := LineStep(lines, i, segs, run, maxLen, parts0, current0, inCodeBlock0, parts, current, inCodeBlock);
      i := i + 1;
    }
    if current != "" {
      ghost var parts0, current0 := parts, current;
      if inCodeBlock {
        current := current + "\n```";
      }
      parts, current := Flush(parts, current), "";
      segs := LastStep(lines, segs, run, maxLen, parts0, current0, inCodeBlock, parts);
    }
  }

  method SplitTextForSlack(text: string, maxLen: int := MAX_TEXT_LEN)
    returns (parts: seq<string>, ghost segs: seq<Segment>)
    ensures parts != []
    // a short text is sent as it is, an empty one as an empty part
    ensures Strip(text) == "" ==> parts == [""]
    ensures |Strip(text)| <= maxLen ==> parts == [Strip(text)]
    // a long text is cut between lines: every line lands in exactly one segment, in order
    ensures Strip(text) != "" && |Strip(text)| > maxLen ==>
              && SourceLines(segs) == SplitLines(Strip(text))
              && Chained(segs, maxLen)
              && parts == Parts(segs)
    ensures forall p :: p in parts ==> |p| <= Limit(maxLen, LongestLine(SplitLines(Strip(text))))
    // all parts have balanced fences, except that a short text is never balanced by the splitter
    ensures Balanced(parts) <==> |Strip(text)| > maxLen || FenceLines(Strip(text)) % 2 == 0
  {
    segs := [];
    var body := Strip(text);
    if body == "" {
      ShortText(text);
      return [""], [];
    }
    if |body| <= maxLen {
      ShortText(text);
      return [body], [];
    }
    SplitLinesLossless(body);
    parts, segs := PackLines(SplitLines(body), maxLen);
    StripTwice(text);
    PartsSound(body, segs, maxLen);
    parts := if parts != [] then parts else [Slice(body, 0, maxLen)];
  }

  /** A text sent as it is. */
  lemma ShortText(text: string)
    ensures Balanced([Strip(text)]) <==> FenceLines(Strip(text)) % 2 == 0
    ensures Strip(text) == "" ==> FenceLines(Strip(text)) == 0
  {
  }
}
