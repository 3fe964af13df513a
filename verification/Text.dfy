/** Strings as the Python code sees them: whitespace, stripping, line splitting, slicing,
    searching and joining.  Everything here is a total function on all strings. */
module Text {

  datatype Option<+T> = None | Some(value: T)

  datatype Result<+T, +E> = Ok(value: T) | Err(error: E)

  // ---------------------------------------------------------------- characters

  /** The characters for which `str.isspace` holds; `str.strip` removes them and `\s` matches them. */
  predicate IsSpace(c: char) {
    || '\t' <= c <= '\r'
    || '\U{001C}' <= c <= ' '
    || c in {'\U{0085}', '\U{00A0}', '\U{1680}', '\U{202F}', '\U{205F}', '\U{3000}'}
    || '\U{2000}' <= c <= '\U{200A}'
    || c in {'\U{2028}', '\U{2029}'}
  }

  /** The characters at which `str.splitlines` ends a line. */
  predicate IsLineBreak(c: char) {
    || '\n' <= c <= '\r'
    || '\U{001C}' <= c <= '\U{001E}'
    || c in {'\U{0085}', '\U{2028}', '\U{2029}'}
  }

  /** The same as code points. */
  lemma CharacterTables(c: char)
    ensures IsSpace(c)
       <==> c as int in {9, 10, 11, 12, 13, 28, 29, 30, 31, 32, 133, 160, 5760, 8192, 8193, 8194, 8195, 8196, 8197,
                         8198, 8199, 8200, 8201, 8202, 8232, 8233, 8239, 8287, 12288}
    ensures IsLineBreak(c) <==> c as int in {10, 11, 12, 13, 28, 29, 30, 133, 8232, 8233}
  {
  }

  predicate Blank(s: string) {
    forall i :: 0 <= i < |s| ==> IsSpace(s[i])
  }

  lemma BlankDrop(s: string, n: nat)
    requires Blank(s) && n <= |s|
    ensures Blank(s[n..])
  {
  }

  // ---------------------------------------------------------------- stripping

  function LeadingSpaces(s: string): (n: nat)
    ensures n <= |s| && Blank(s[..n])
    ensures n < |s| ==> !IsSpace(s[n])
  {
    if s == "" || !IsSpace(s[0]) then 0 else
      var n := 1 + LeadingSpaces(s[1..]);
      assert forall i :: 0 < i < n ==> s[i] == s[1..][i - 1];
      n
  }

  function TrailingSpaces(s: string): (n: nat)
    ensures n <= |s| && Blank(s[|s| - n..])
    ensures n < |s| ==> !IsSpace(s[|s| - n - 1])
  {
    if s == "" || !IsSpace(s[|s| - 1]) then 0 else
      var n := 1 + TrailingSpaces(s[..|s| - 1]);
      assert forall i :: |s| - n <= i < |s| - 1 ==> s[i] == s[..|s| - 1][i];
      n
  }

  function LStrip(s: string): string {
    s[LeadingSpaces(s)..]
  }

  function RStrip(s: string): string {
    s[..|s| - TrailingSpaces(s)]
  }

  function Strip(s: string): string {
    RStrip(LStrip(s))
  }

  lemma {:induction false} LeadingSpacesOf(before: string, rest: string)
    requires Blank(before) && (rest == "" || !IsSpace(rest[0]))
    ensures LeadingSpaces(before + rest) == |before|
  {
    if before == "" {
      assert before + rest == rest;
    } else {
      assert IsSpace(before[0]);
      assert Blank(before[1..]);
      LeadingSpacesOf(before[1..], rest);
      assert (before + rest)[1..] == before[1..] + rest;
    }
  }

  lemma {:induction false} TrailingSpacesOf(rest: string, after: string)
    requires Blank(after) && (rest == "" || !IsSpace(rest[|rest| - 1]))
    ensures TrailingSpaces(rest + after) == |after|
  {
    if after == "" {
      assert rest + after == rest;
    } else {
      var most := after[..|after| - 1];
      assert IsSpace(after[|after| - 1]);
      assert Blank(most);
      TrailingSpacesOf(rest, most);
      assert (rest + after)[..|rest + after| - 1] == rest + most;
    }
  }

  /** `Strip` removes a blank prefix and a blank suffix and nothing else; what is left neither starts
      nor ends with whitespace. */
  lemma StripShape(s: string) returns (before: string, after: string)
    ensures s == before + Strip(s) + after
    ensures Blank(before) && Blank(after)
    ensures Strip(s) != "" ==> !IsSpace(Strip(s)[0]) && !IsSpace(Strip(s)[|Strip(s)| - 1])
  {
    var left := LStrip(s);
    before, after := s[..LeadingSpaces(s)], left[|left| - TrailingSpaces(left)..];
    SplitAt(s, LeadingSpaces(s));
    SplitAt(left, |left| - TrailingSpaces(left));
    ConcatAssoc(before, Strip(s), after);
    if Strip(s) != "" {
      assert Strip(s)[0] == left[0] == s[|before|];
      assert Strip(s)[|Strip(s)| - 1] == left[|left| - TrailingSpaces(left) - 1];
    }
  }

  /** The stripped text is the one way of cutting blank ends off down to a core with solid ends. */
  lemma StripUnique(before: string, core: string, after: string)
    requires Blank(before) && Blank(after)
    requires core != "" ==> !IsSpace(core[0]) && !IsSpace(core[|core| - 1])
    ensures Strip(before + core + after) == core
  {
    if core == "" {
      LeadingSpacesOf(before + after, "");
      assert before + core + after == (before + after) + "";
    } else {
      LeadingSpacesOf(before, core + after);
      assert before + core + after == before + (core + after);
      TrailingSpacesOf(core, after);
      assert LStrip(before + core + after) == core + after;
    }
  }

  lemma StripBlank(s: string)
    ensures Strip(s) == "" <==> Blank(s)
  {
    var b, a := StripShape(s);
    if Blank(s) {
      StripUnique(s, "", "");
      assert s + "" + "" == s;
    }
  }

  /** Whitespace added at either end is removed again. */
  lemma StripIgnoresEnds(before: string, s: string, after: string)
    requires Blank(before) && Blank(after)
    ensures Strip(before + s + after) == Strip(s)
  {
    var b, a := StripShape(s);
    Regroup(before, b, Strip(s), a, after);
    BlankConcat(before, b);
    BlankConcat(a, after);
    StripUnique(before + b, Strip(s), a + after);
  }

  lemma Regroup<T>(p: seq<T>, q: seq<T>, r: seq<T>, s: seq<T>, t: seq<T>)
    ensures p + (q + r + s) + t == (p + q) + r + (s + t)
  {
  }

  lemma BlankConcat(a: string, b: string)
    requires Blank(a) && Blank(b)
    ensures Blank(a + b)
  {
  }

  // ---------------------------------------------------------------- sequences of strings

  lemma TakeSnoc<T>(xs: seq<T>, n: nat)
    requires n < |xs|
    ensures xs[..n] + [xs[n]] == xs[..n + 1]
  {
  }

  lemma SplitAt<T>(xs: seq<T>, n: nat)
    requires n <= |xs|
    ensures xs[..n] + xs[n..] == xs
  {
  }

  lemma AppendSlice<T>(before: seq<T>, xs: seq<T>, a: nat, k: nat)
    requires a <= k < |xs|
    ensures (before + xs[a..k]) + [xs[k]] == before + xs[a..k + 1]
  {
  }

  lemma TakeAll<T>(xs: seq<T>)
    ensures xs[..|xs|] == xs
  {
  }

  lemma ConcatTail<T>(xs: seq<T>, ys: seq<T>)
    requires xs != []
    ensures (xs + ys)[1..] == xs[1..] + ys && (xs + ys)[0] == xs[0]
  {
  }

  lemma ConcatAssoc<T>(xs: seq<T>, ys: seq<T>, zs: seq<T>)
    ensures (xs + ys) + zs == xs + (ys + zs)
  {
  }

  lemma AppendEmpty<T>(xs: seq<T>)
    ensures xs + [] == xs && [] + xs == xs
  {
  }

  lemma EmptySlice<T>(xs: seq<T>, a: nat)
    requires a <= |xs|
    ensures xs[a..a] == []
  {
  }

  lemma SnocInit<T>(xs: seq<T>, x: T)
    ensures (xs + [x])[..|xs + [x]| - 1] == xs
    ensures (xs + [x])[|xs + [x]| - 1] == x
  {
  }

  function Flatten<T>(xss: seq<seq<T>>): seq<T> {
    if xss == [] then [] else xss[0] + Flatten(xss[1..])
  }

  lemma {:induction false} FlattenAppend<T>(xss: seq<seq<T>>, yss: seq<seq<T>>)
    ensures Flatten(xss + yss) == Flatten(xss) + Flatten(yss)
  {
    if xss == [] {
      assert xss + yss == yss;
    } else {
      FlattenAppend(xss[1..], yss);
      ConcatAssoc(xss[0], Flatten(xss[1..]), Flatten(yss));
      ConcatTail(xss, yss);
    }
  }

  lemma FlattenSnoc<T>(xss: seq<seq<T>>, xs: seq<T>)
    ensures Flatten(xss + [xs]) == Flatten(xss) + xs
  {
    FlattenAppend(xss, [xs]);
    assert Flatten([xs]) == xs + Flatten([]);
  }

  /** `sep.join(parts)` */
  function Join(sep: string, parts: seq<string>): string {
    if parts == [] then ""
    else if |parts| == 1 then parts[0]
    else parts[0] + sep + Join(sep, parts[1..])
  }

  lemma JoinExact(sep: string, x: string, ys: seq<string>)
    ensures Join(sep, []) == "" && Join(sep, [x]) == x
    ensures ys != [] ==> Join(sep, [x] + ys) == x + sep + Join(sep, ys)
  {
    ConcatTail([x], ys);
    AppendEmpty(ys);
  }

  lemma {:induction false} JoinAppend(sep: string, xs: seq<string>, ys: seq<string>)
    requires xs != [] && ys != []
    ensures Join(sep, xs + ys) == Join(sep, xs) + sep + Join(sep, ys)
  {
    if |xs| == 1 {
      assert (xs + ys)[1..] == ys;
    } else {
      JoinAppend(sep, xs[1..], ys);
      assert (xs + ys)[1..] == xs[1..] + ys;
      assert xs[0] + sep + (Join(sep, xs[1..]) + sep + Join(sep, ys))
          == (xs[0] + sep + Join(sep, xs[1..])) + sep + Join(sep, ys);
    }
  }

  // ---------------------------------------------------------------- slicing and searching

  function Clamp(i: int, n: nat): (j: nat)
    ensures j <= n
  {
    if i > n then n else if i >= 0 then i else if n + i >= 0 then n + i else 0
  }

  /** `s[lo:hi]` for arbitrary integer bounds, negative ones counting from the end. */
  function Slice<T>(s: seq<T>, lo: int, hi: int): seq<T> {
    var a, b := Clamp(lo, |s|), Clamp(hi, |s|);
    if a <= b then s[a..b] else []
  }

  /** Bounds within the sequence cut it there, a negative one counts from the end, and one beyond either end
      stands for that end. */
  lemma SliceExact<T>(s: seq<T>, lo: nat, hi: nat, n: int)
    ensures lo <= hi <= |s| ==> Slice(s, lo, hi) == s[lo..hi]
    ensures lo <= |s| <= hi ==> Slice(s, lo, hi) == s[lo..]
    ensures lo >= |s| || lo >= hi ==> Slice(s, lo, hi) == []
    ensures 0 < n <= |s| ==> Slice(s, -n, |s|) == s[|s| - n..] && Slice(s, 0, -n) == s[..|s| - n]
    ensures n > |s| ==> Slice(s, -n, |s|) == s && Slice(s, 0, -n) == []
  {
  }

  predicate OccursAt(s: string, pat: string, i: nat) {
    i + |pat| <= |s| && s[i..i + |pat|] == pat
  }

  lemma OccursTail(s: string, pat: string, j: nat)
    requires s != ""
    ensures OccursAt(s, pat, j + 1) <==> OccursAt(s[1..], pat, j)
  {
    if j + 1 + |pat| <= |s| {
      assert s[1..][j..j + |pat|] == s[j + 1..j + 1 + |pat|];
    }
  }

  lemma FindTail(s: string, pat: string, r: int)
    requires s != "" && !OccursAt(s, pat, 0)
    requires r == -1 || (0 <= r && OccursAt(s[1..], pat, r))
    requires forall j: nat :: OccursAt(s[1..], pat, j) ==> 0 <= r <= j
    ensures r >= 0 ==> OccursAt(s, pat, r + 1)
    ensures forall j: nat :: OccursAt(s, pat, j) ==> 0 <= r < j
  {
    if r >= 0 {
      OccursTail(s, pat, r);
    }
    forall j: nat | OccursAt(s, pat, j) ensures 0 <= r < j {
      if j > 0 {
        OccursTail(s, pat, j - 1);
      }
    }
  }

  /** `s.find(pat)`: the first position at which `pat` occurs, or -1. */
  function Find(s: string, pat: string): (i: int)
    ensures i == -1 || (0 <= i && OccursAt(s, pat, i))
    ensures forall j: nat :: OccursAt(s, pat, j) ==> 0 <= i <= j
  {
    if |s| < |pat| then -1
    else if OccursAt(s, pat, 0) then 0
    else if s == "" then -1
    else
      var r := Find(s[1..], pat);
      FindTail(s, pat, r);
      if r == -1 then -1 else r + 1
  }

  predicate IsSuffix<T(==)>(xs: seq<T>, ys: seq<T>) {
    |xs| <= |ys| && xs == ys[|ys| - |xs|..]
  }

  // ---------------------------------------------------------------- lines

  /** Length of the first line of a non-empty text, its terminator included; "\r\n" is one terminator. */
  function LineLength(s: string): (n: nat)
    requires s != ""
    ensures 0 < n <= |s|
  {
    if IsLineBreak(s[0]) then (if s[0] == '\r' && |s| > 1 && s[1] == '\n' then 2 else 1)
    else if |s| == 1 then 1
    else 1 + LineLength(s[1..])
  }

  /** `s.splitlines(keepends=True)` */
  function SplitLines(s: string): seq<string> {
    if s == "" then [] else [s[..LineLength(s)]] + SplitLines(s[LineLength(s)..])
  }

  /** Splitting into lines loses nothing. */
  lemma {:induction false} SplitLinesLossless(s: string)
    ensures Flatten(SplitLines(s)) == s
    ensures forall k :: 0 <= k < |SplitLines(s)| ==> SplitLines(s)[k] != ""
    ensures s != "" ==> SplitLines(s) != []
    decreases |s|
  {
    if s != "" {
      var n := LineLength(s);
      SplitLinesLossless(s[n..]);
      assert SplitLines(s)[1..] == SplitLines(s[n..]);
      assert s == s[..n] + s[n..];
    }
  }

  /** A line with its terminator: a body free of line breaks, then breaks only. */
  ghost predicate IsLine(body: string, end: string) {
    && (forall i :: 0 <= i < |body| ==> !IsLineBreak(body[i]))
    && (forall i :: 0 <= i < |end| ==> IsLineBreak(end[i]))
  }

  /** Nothing, one break, or "\r\n". */
  predicate IsLineEnd(end: string) {
    end == "" || end == "\r\n" || (|end| == 1 && IsLineBreak(end[0]))
  }

  lemma {:induction false} FirstLineShape(s: string) returns (body: string, end: string)
    requires s != ""
    ensures s[..LineLength(s)] == body + end && IsLine(body, end)
    ensures LineLength(s) < |s| ==> end != ""
    ensures IsLineEnd(end)
    ensures LineLength(s) < |s| && end == "\r" ==> s[LineLength(s)] != '\n'
  {
    if IsLineBreak(s[0]) {
      body, end := "", s[..LineLength(s)];
      assert end == if s[0] == '\r' && |s| > 1 && s[1] == '\n' then "\r\n" else [s[0]];
    } else if |s| == 1 {
      body, end := s, "";
    } else {
      var b, e := FirstLineShape(s[1..]);
      body, end := [s[0]] + b, e;
      assert s[..LineLength(s)] == [s[0]] + s[1..][..LineLength(s[1..])];
    }
  }

  /** The lines are cut behind every line break and nowhere else, with "\r\n" as one break. */
  lemma {:induction false} SplitLinesExact(s: string, k: nat) returns (body: string, end: string)
    requires k < |SplitLines(s)|
    ensures SplitLines(s)[k] == body + end && IsLineEnd(end)
    ensures forall i :: 0 <= i < |body| ==> !IsLineBreak(body[i])
    ensures k + 1 < |SplitLines(s)| ==> end != ""
    ensures k + 1 < |SplitLines(s)| && end == "\r" ==> !("\n" <= SplitLines(s)[k + 1])
    decreases |s|
  {
    var n := LineLength(s);
    if k == 0 {
      body, end := FirstLineShape(s);
      if n < |s| {
        SplitLinesLossless(s[n..]);
        assert SplitLines(s)[1] == s[n..][..LineLength(s[n..])];
      }
    } else {
      body, end := SplitLinesExact(s[n..], k - 1);
    }
  }
}
