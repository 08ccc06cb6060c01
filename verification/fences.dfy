/** The fenced code block rule (`lib/lexer_block/fences.js`): an opening
    line of at least three backticks or tildes, content lines, and a closing
    line with a run of the same character at least as long, followed only by
    spaces.  A fence with no closing line ends at the end of the scanned
    range. */
module Fences {
  import opened Maybe
  import opened JsText
  import opened LineIndex
  import opened Tokens

  predicate IsFenceMarker(c: char) {
    c == '~' || c == '`'
  }

  /** Length of the leading run of `c` in `t`. */
  function RunLen(t: string, c: char): (n: nat)
    ensures n <= |t|
    ensures forall i :: 0 <= i < n ==> t[i] == c
    ensures n == |t| || t[n] != c
  {
    if t == [] || t[0] != c then 0
    else
      var n := RunLen(t[1..], c);
      assert forall i :: 1 <= i < n + 1 ==> t[i] == t[1..][i - 1];
      n + 1
  }

  /** Scanning a run of `c` from `pos` measures the leading run of `c` in
      `src[pos..max]`, provided the run cannot continue past `max`. */
  lemma {:induction false} SkipCharsIsRunLen(src: string, pos: nat, max: nat, c: char)
    requires pos <= max <= |src|
    requires max == |src| || src[max] != c
    ensures SkipChars(src, pos, c) <= max
    ensures SkipChars(src, pos, c) - pos == RunLen(src[pos..max], c)
    decreases max - pos
  {
    if pos < max && src[pos] == c {
      SkipCharsIsRunLen(src, pos + 1, max, c);
      assert src[pos..max][1..] == src[pos + 1..max];
    }
  }

  /** A recognised opening line: the marker character, the length of its
      run, and the trimmed info string after it. */
  datatype Opener = Opener(marker: char, len: nat, info: string)

  /** The opening-line checks of lines 13-34, on the text from `pos` (after
      the indentation) to `max` (the end of the line). */
  function OpenAt(src: string, pos: nat, max: nat): (r: Option<Opener>)
    requires pos <= max <= |src|
    ensures r.Some? ==> IsFenceMarker(r.value.marker) && r.value.len >= 3 && '`' !in r.value.info
  {
    if pos + 3 > max then None
    else
      var marker := src[pos];
      if marker != '~' && marker != '`' then None
      else
        var end := SkipChars(src, pos, marker);
        var len := end - pos;
        if len < 3 then None
        else
          var params := Trim(Slice(src, end, max));
          if '`' in params then None
          else Some(Opener(marker, len, params))
  }

  /** The opener on line `line`, if it opens a fence. */
  function OpenFence(s: Source, line: nat): Option<Opener>
    requires Valid(s) && line < s.lineMax
  {
    assert LineOk(s, line);
    OpenAt(s.src, s.bMarks[line] + s.tShift[line], s.eMarks[line])
  }

  /** A line (after its indentation) that opens a fence: at least three
      characters, a fence character whose run is at least three long, and no
      backtick after the run (for either fence character). */
  predicate OpensFence(t: string) {
    && |t| >= 3
    && IsFenceMarker(t[0])
    && RunLen(t, t[0]) >= 3
    && '`' !in t[RunLen(t, t[0])..]
  }

  /** What the opener found on a line says about the line after its
      indentation: there is one exactly for the lines of `OpensFence`, and
      it records the fence character, the run length and the trimmed rest
      of the line. */
  predicate Describes(r: Option<Opener>, t: string) {
    && (r.Some? <==> OpensFence(t))
    && (r.Some? ==>
          && r.value.marker == t[0]
          && r.value.len == RunLen(t, t[0])
          && r.value.info == Trim(t[r.value.len..]))
  }

  /** The checks on positions agree with `OpensFence` on the text they
      scan, when that text is a whole line. */
  lemma OpenAtShape(src: string, pos: nat, max: nat)
    requires pos <= max <= |src|
    requires max == |src| || !IsFenceMarker(src[max])
    ensures Describes(OpenAt(src, pos, max), src[pos..max])
  {
    var t := src[pos..max];
    if pos + 3 <= max && IsFenceMarker(src[pos]) {
      var c := src[pos];
      assert t[0] == c;
      SkipCharsIsRunLen(src, pos, max, c);
      var end := SkipChars(src, pos, c);
      var k := RunLen(t, c);
      if k >= 3 {
        var rest := Slice(src, end, max);
        assert rest == t[k..];
        TrimKeepsNonWhitespace(rest, '`');
      }
    }
  }

  /** The source's checks on a line agree with `OpensFence` on the line
      after its indentation. */
  lemma OpenFenceShape(s: Source, line: nat)
    requires Valid(s) && line < s.lineMax
    ensures Describes(OpenFence(s, line), AfterIndent(s, line))
  {
    assert LineOk(s, line);
    OpenAtShape(s.src, s.bMarks[line] + s.tShift[line], s.eMarks[line]);
  }

  /** The closing-line test of lines 55-68, as the source performs it on the
      text: the first character after the indentation is the marker, its run
      is at least as long as the opening one, and only spaces follow up to
      the end of the line. */
  predicate IsClosing(s: Source, l: nat, o: Opener)
    requires Valid(s) && l < s.lineMax
  {
    assert LineOk(s, l);
    var pos := s.bMarks[l] + s.tShift[l];
    var max := s.eMarks[l];
    && pos < |s.src|
    && s.src[pos] == o.marker
    && var p := SkipChars(s.src, pos, o.marker);
       && p - pos >= o.len
       && SkipSpaces(s.src, p) >= max
  }

  /** A line closes a fence exactly when, after its indentation, it is a run
      of the fence character at least as long as the opening run, followed
      by nothing but spaces.  So a shorter run, or a run of the other fence
      character, never closes it. */
  lemma ClosingLineShape(s: Source, l: nat, o: Opener)
    requires Valid(s) && l < s.lineMax
    requires IsFenceMarker(o.marker) && o.len >= 1
    ensures IsClosing(s, l, o) <==>
      var t := AfterIndent(s, l);
      var k := RunLen(t, o.marker);
      k >= o.len && AllSpaces(t[k..])
  {
    assert LineOk(s, l);
    var pos := s.bMarks[l] + s.tShift[l];
    var max := s.eMarks[l];
    var t := AfterIndent(s, l);
    var k := RunLen(t, o.marker);
    var p := SkipChars(s.src, pos, o.marker);
    assert p == pos + k by {
      SkipCharsIsRunLen(s.src, pos, max, o.marker);
    }
    assert AllSpaces(t[k..]) <==> SkipSpaces(s.src, p) >= max by {
      TrailingSpaces(s, l, p);
      assert t[k..] == s.src[p..max];
    }
    assert pos < |s.src| && s.src[pos] == o.marker <==> k >= 1 by {
      if pos < max { assert t[0] == s.src[pos]; }
    }
  }

  /** From a position inside a line, skipping spaces reaches the end of the
      line exactly when only spaces remain on it. */
  lemma TrailingSpaces(s: Source, l: nat, p: nat)
    requires Valid(s) && l < s.lineMax
    requires s.bMarks[l] <= p <= s.eMarks[l]
    ensures s.eMarks[l] <= |s.src|
    ensures AllSpaces(s.src[p..s.eMarks[l]]) <==> SkipSpaces(s.src, p) >= s.eMarks[l]
  {
    assert LineOk(s, l);
    SkipCharsInLine(s, l, p, ' ');
    var max := s.eMarks[l];
    var q := SkipSpaces(s.src, p);
    var u := s.src[p..max];
    assert forall j :: 0 <= j < |u| ==> u[j] == s.src[p + j];
  }

  /** The search for the closing line (lines 40-72) as evidently intended:
      the first closing line after `n`, or `endLine` when the fence runs to
      the end of the range. */
  function FindClose(s: Source, o: Opener, n: nat, endLine: nat): (r: nat)
    requires Valid(s) && n < endLine <= s.lineMax
    ensures n < r <= endLine
    ensures r < endLine ==> IsClosing(s, r, o)
    ensures forall l :: n < l < r ==> !IsClosing(s, l, o)
    decreases endLine - n
  {
    if n + 1 >= endLine then endLine
    else if IsClosing(s, n + 1, o) then n + 1
    else FindClose(s, o, n + 1, endLine)
  }

  /** The search loop of lines 40-72 as written: it stops on a closing line,
      or, when the next line would reach `endLine`, on the line before
      `endLine`. */
  function ScanAsWritten(s: Source, o: Opener, n: nat, endLine: nat): (r: nat)
    requires Valid(s) && n < endLine <= s.lineMax
    ensures n <= r < endLine
    decreases endLine - n
  {
    if n + 1 >= endLine then n
    else if IsClosing(s, n + 1, o) then n + 1
    else ScanAsWritten(s, o, n + 1, endLine)
  }

  /** The loop as written finds the same closing line as the intended
      search, but on an unclosed fence it stops one line short of
      `endLine`. */
  lemma {:induction false} ScanAsWrittenVsFindClose(s: Source, o: Opener, n: nat, endLine: nat)
    requires Valid(s) && n < endLine <= s.lineMax
    ensures ScanAsWritten(s, o, n, endLine) ==
      (if FindClose(s, o, n, endLine) < endLine then FindClose(s, o, n, endLine) else endLine - 1)
    decreases endLine - n
  {
    if n + 1 < endLine && !IsClosing(s, n + 1, o) {
      ScanAsWrittenVsFindClose(s, o, n + 1, endLine);
    }
  }

  /** The fence content of lines 75-84: lines `a` up to `b` with their
      newlines, and, when the opening line is indented by `k` spaces, up to
      `k` leading spaces removed at every line start (`^ {1,k}` with flags
      `mg`; the source skips the replacement when `k` is 0). */
  function Content(s: Source, a: nat, b: nat, k: nat): (r: string)
    requires Valid(s) && a <= b <= s.lineMax
    ensures Unspaced(r) == Unspaced(GetLines(s, a, b))
    ensures k == 0 ==> r == GetLines(s, a, b)
  {
    if k == 0 then GetLines(s, a, b)
    else
      StripAtLineStartsKeepsText(GetLines(s, a, b), k, false);
      StripAtLineStarts(GetLines(s, a, b), k, false)
  }

  lemma {:induction false} StripEachNothing(lines: seq<string>)
    ensures StripEach(lines, 0, false) == lines
  {
    var r := StripEach(lines, 0, false);
    assert forall k :: 0 <= k < |r| ==> r[k] == lines[k];
  }

  /** Fence content is its lines, each with at most `k` leading spaces
      removed (fewer when the line has fewer), each followed by a newline;
      with no indentation the lines are copied verbatim. */
  lemma ContentPerLine(s: Source, a: nat, b: nat, k: nat)
    requires Valid(s) && a <= b <= s.lineMax
    requires PlainLines(s)
    ensures Content(s, a, b, k) == JoinLines(StripEach(Lines(s, a, b), k, false))
    ensures k == 0 ==> Content(s, a, b, k) == JoinLines(Lines(s, a, b))
  {
    var lines := Lines(s, a, b);
    StripEachNothing(lines);
    if k > 0 {
      forall l | a <= l < b ensures NoLineTerminator(Line(s, l)) {
        LinePlain(s, l);
      }
      StripAtLineStartsLines(lines, [], k, false);
      assert JoinLines(lines) + [] == JoinLines(lines);
      assert JoinLines(StripEach(lines, k, false)) + [] == JoinLines(StripEach(lines, k, false));
    }
  }

  /** The fence token for an opener on `startLine` whose content runs up to
      (excluding) line `close`. */
  function FenceToken(s: Source, startLine: nat, close: nat, o: Opener): Token
    requires Valid(s) && startLine < s.lineMax && startLine + 1 <= close <= s.lineMax
  {
    Fence(Params(o.info), Content(s, startLine + 1, close, s.tShift[startLine]))
  }

  /** The fence rule with the evidently intended search: an unclosed fence
      takes every remaining line of the range as content.  A line that does
      not open a fence leaves the state alone; in validation mode
      (`silent`) an opening line is reported without changing the state;
      otherwise one fence token is appended and the lexer resumes after the
      closing line, or at `endLine` when there is none. */
  function FenceRule(s: Source, startLine: nat, endLine: nat, silent: bool, before: Progress): (r: Applied)
    requires Valid(s) && startLine < endLine <= s.lineMax
    ensures r.ok <==> OpenFence(s, startLine).Some?
    ensures !r.ok || silent ==> r.after == before
    ensures r.ok && !silent ==>
      && startLine < r.after.line <= endLine
      && |r.after.tokens| == |before.tokens| + 1
      && r.after.tokens[..|before.tokens|] == before.tokens
      && r.after.tokens[|before.tokens|].Fence?
  {
    match OpenFence(s, startLine)
    case None => Applied(false, before)
    case Some(o) =>
      if silent then Applied(true, before)
      else
        var close := FindClose(s, o, startLine, endLine);
        var line := if close < endLine then close + 1 else endLine;
        Applied(true, Progress(before.tokens + [FenceToken(s, startLine, close, o)], line))
  }

  /** The fence rule as written: the content ends at the line the search
      loop stops on, which for an unclosed fence is the last line of the
      range, so that line is lost. */
  function FenceRuleAsWritten(s: Source, startLine: nat, endLine: nat, silent: bool, before: Progress): (r: Applied)
    requires Valid(s) && startLine < endLine <= s.lineMax
    ensures r.ok <==> OpenFence(s, startLine).Some?
    ensures !r.ok || silent ==> r.after == before
    ensures r.ok && !silent ==>
      && startLine < r.after.line <= endLine
      && |r.after.tokens| == |before.tokens| + 1
      && r.after.tokens[..|before.tokens|] == before.tokens
  {
    match OpenFence(s, startLine)
    case None => Applied(false, before)
    case Some(o) =>
      if silent then Applied(true, before)
      else
        var next := ScanAsWritten(s, o, startLine, endLine);
        var close := if next < startLine + 1 then startLine + 1 else next;
        Applied(true, Progress(before.tokens + [FenceToken(s, startLine, close, o)], next + 1))
  }

  /** When the fence is closed inside the range, the rule as written and
      the intended rule agree. */
  lemma FenceRuleAgreesWhenClosed(s: Source, startLine: nat, endLine: nat, silent: bool, before: Progress)
    requires Valid(s) && startLine < endLine <= s.lineMax
    requires OpenFence(s, startLine).Some?
    requires FindClose(s, OpenFence(s, startLine).value, startLine, endLine) < endLine
    ensures FenceRuleAsWritten(s, startLine, endLine, silent, before) == FenceRule(s, startLine, endLine, silent, before)
  {
    ScanAsWrittenVsFindClose(s, OpenFence(s, startLine).value, startLine, endLine);
  }

  /** On an unclosed fence with at least one content line, the rule as
      written ends the content one line early: its token holds the lines up
      to `endLine - 1` only, and the lexer resumes at `endLine`, so the last
      line of the range is lost. */
  lemma FenceRuleAsWrittenDropsLastLine(s: Source, startLine: nat, endLine: nat, before: Progress)
    requires Valid(s) && startLine + 1 < endLine <= s.lineMax
    requires OpenFence(s, startLine).Some?
    requires FindClose(s, OpenFence(s, startLine).value, startLine, endLine) == endLine
    ensures var o := OpenFence(s, startLine).value;
      FenceRuleAsWritten(s, startLine, endLine, false, before).after
        == Progress(before.tokens + [Fence(Params(o.info), Content(s, startLine + 1, endLine - 1, s.tShift[startLine]))], endLine)
  {
    ScanAsWrittenVsFindClose(s, OpenFence(s, startLine).value, startLine, endLine);
  }

  /** On an unclosed fence the intended rule takes every remaining line of
      the range, the last one included, and resumes at `endLine`. */
  lemma FenceRuleKeepsLastLine(s: Source, startLine: nat, endLine: nat, before: Progress)
    requires Valid(s) && startLine < endLine <= s.lineMax
    requires OpenFence(s, startLine).Some?
    requires FindClose(s, OpenFence(s, startLine).value, startLine, endLine) == endLine
    ensures var o := OpenFence(s, startLine).value;
      FenceRule(s, startLine, endLine, false, before).after
        == Progress(before.tokens + [Fence(Params(o.info), Content(s, startLine + 1, endLine, s.tShift[startLine]))], endLine)
  {
  }

  /** The text "```\nfoo\n": an unclosed fence whose one content line is
      "foo". */
  function UnclosedExample(): (s: Source)
    ensures Valid(s) && s.lineMax == 2
  {
    var s := Source("```\nfoo\n", [0, 4], [3, 7], [0, 0], 2);
    assert LineOk(s, 0) && LineOk(s, 1);
    s
  }

  lemma UnclosedExampleOpens()
    ensures OpenFence(UnclosedExample(), 0) == Some(Opener('`', 3, []))
  {
    var s := UnclosedExample();
    assert AfterIndent(s, 0) == "```";
    OpenFenceShape(s, 0);
  }

  lemma UnclosedExampleHasNoClose()
    ensures FindClose(UnclosedExample(), Opener('`', 3, []), 0, 2) == 2
  {
    var s := UnclosedExample();
    assert s.src[4] == 'f';
    assert !IsClosing(s, 1, Opener('`', 3, []));
  }

  lemma UnclosedExampleContent()
    ensures Content(UnclosedExample(), 1, 1, 0) == []
    ensures Content(UnclosedExample(), 1, 2, 0) == "foo\n"
  {
    var s := UnclosedExample();
    assert Lines(s, 1, 1) == [];
    assert Line(s, 1) == "foo";
    assert Lines(s, 1, 2) == ["foo"];
  }

  /** On "```\nfoo\n" the rule as written yields an empty fence, the
      intended rule a fence holding "foo\n". */
  lemma UnclosedExampleLosesLine()
    ensures FenceRuleAsWritten(UnclosedExample(), 0, 2, false, Progress([], 0)).after
              == Progress([Fence([], [])], 2)
    ensures FenceRule(UnclosedExample(), 0, 2, false, Progress([], 0)).after
              == Progress([Fence([], "foo\n")], 2)
  {
    var s := UnclosedExample();
    UnclosedExampleOpens();
    UnclosedExampleHasNoClose();
    UnclosedExampleContent();
    assert s.tShift[0] == 0;
    assert Params([]) == [];
    FenceRuleAsWrittenDropsLastLine(s, 0, 2, Progress([], 0));
    FenceRuleKeepsLastLine(s, 0, 2, Progress([], 0));
  }
}
