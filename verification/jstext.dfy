/** Models of the JavaScript string operations the block rules rely on:
    `String.prototype.trim`, `split(/\s+/g)`, `slice`, and replacement of
    leading spaces with a multi-line anchored regular expression
    (`^ {n}` and `^ {1,n}` with the `m` and `g` flags). */
module JsText {

  /** `\s` in a JavaScript regular expression, which is also the set of
      characters `trim` removes: the WhiteSpace and LineTerminator classes. */
  predicate IsWhitespace(c: char) {
    || c == ' ' || c == '\t' || c == '\n' || c == '\U{000B}' || c == '\U{000C}' || c == '\r'
    || c == '\U{00A0}' || c == '\U{1680}' || ('\U{2000}' <= c <= '\U{200A}')
    || c == '\U{2028}' || c == '\U{2029}' || c == '\U{202F}' || c == '\U{205F}'
    || c == '\U{3000}' || c == '\U{FEFF}'
  }

  /** The characters after which `^` matches in a multi-line regular expression. */
  predicate IsLineTerminator(c: char) {
    c == '\n' || c == '\r' || c == '\U{2028}' || c == '\U{2029}'
  }

  predicate NoLineTerminator(s: string) {
    forall i :: 0 <= i < |s| ==> !IsLineTerminator(s[i])
  }

  predicate AllWhitespace(s: string) {
    forall i :: 0 <= i < |s| ==> IsWhitespace(s[i])
  }

  predicate NoWhitespace(s: string) {
    forall i :: 0 <= i < |s| ==> !IsWhitespace(s[i])
  }

  predicate AllSpaces(s: string) {
    forall i :: 0 <= i < |s| ==> s[i] == ' '
  }

  // ---------------------------------------------------------------- trim

  /** Drops leading whitespace: the result is the suffix that starts at the
      first non-whitespace character. */
  function TrimStart(s: string): (r: string)
    ensures |r| <= |s| && r == s[|s| - |r|..]
    ensures forall i :: 0 <= i < |s| - |r| ==> IsWhitespace(s[i])
    ensures r == [] || !IsWhitespace(r[0])
  {
    if s == [] || !IsWhitespace(s[0]) then s
    else
      var r := TrimStart(s[1..]);
      assert s[1..][|s| - 1 - |r|..] == s[|s| - |r|..];
      assert forall i :: 1 <= i < |s| - |r| ==> s[i] == s[1..][i - 1];
      r
  }

  /** Drops trailing whitespace: the result is the prefix that ends at the
      last non-whitespace character. */
  function TrimEnd(s: string): (r: string)
    ensures |r| <= |s| && r == s[..|r|]
    ensures forall i :: |r| <= i < |s| ==> IsWhitespace(s[i])
    ensures r == [] || !IsWhitespace(r[|r| - 1])
  {
    if s == [] || !IsWhitespace(s[|s| - 1]) then s
    else
      var r := TrimEnd(s[..|s| - 1]);
      assert s[..|s| - 1][..|r|] == s[..|r|];
      assert forall i :: |r| <= i < |s| - 1 ==> s[i] == s[..|s| - 1][i];
      r
  }

  /** `s.trim()`. */
  function Trim(s: string): (r: string)
    ensures r == [] <==> AllWhitespace(s)
    ensures r == [] || (!IsWhitespace(r[0]) && !IsWhitespace(r[|r| - 1]))
  {
    var t := TrimStart(s);
    var r := TrimEnd(t);
    assert r == [] ==> AllWhitespace(s) by {
      if r == [] {
        forall i | |s| - |t| <= i < |s| ensures IsWhitespace(s[i]) {
          assert s[i] == t[i - (|s| - |t|)];
        }
      }
    }
    r
  }

  /** Trimming removes only whitespace, so a character that is not
      whitespace occurs in the trimmed string exactly when it occurs in the
      original one. */
  lemma TrimKeepsNonWhitespace(s: string, c: char)
    requires !IsWhitespace(c)
    ensures c in Trim(s) <==> c in s
  {
    var t := TrimStart(s);
    var r := TrimEnd(t);
    var a := |s| - |t|;
    assert r == s[a..a + |r|];
    if c in r {
      var j :| 0 <= j < |r| && r[j] == c;
      assert s[a + j] == c;
    }
    if c in s {
      var i :| 0 <= i < |s| && s[i] == c;
      assert a <= i < a + |r|;
      assert r[i - a] == c;
    }
  }

  // ---------------------------------------------------------------- split

  /** Length of the leading run of non-whitespace characters. */
  function WordEnd(s: string): (n: nat)
    ensures n <= |s|
    ensures NoWhitespace(s[..n])
    ensures n == |s| || IsWhitespace(s[n])
  {
    if s == [] || IsWhitespace(s[0]) then 0
    else
      var n := WordEnd(s[1..]);
      assert forall i :: 1 <= i < n + 1 ==> s[i] == s[1..][..n][i - 1];
      n + 1
  }

  /** The maximal runs of non-whitespace characters of `s`, in order.  On a
      trimmed, non-empty string this is `s.split(/\s+/g)`. */
  function Words(s: string): (r: seq<string>)
    ensures forall k :: 0 <= k < |r| ==> r[k] != [] && NoWhitespace(r[k])
    ensures r == [] <==> AllWhitespace(s)
    decreases |s|
  {
    if s == [] then []
    else if IsWhitespace(s[0]) then
      var w := Words(s[1..]);
      assert w == [] ==> AllWhitespace(s) by {
        if w == [] {
          forall i | 0 <= i < |s| ensures IsWhitespace(s[i]) {
            if i > 0 { assert s[1..][i - 1] == s[i]; }
          }
        }
      }
      w
    else
      var n := WordEnd(s);
      [s[..n]] + Words(s[n..])
  }

  /** The `params` field of a fence token: no words for an empty info
      string, otherwise the info string split on whitespace runs. */
  function Params(info: string): (r: seq<string>)
    ensures r == [] <==> AllWhitespace(info)
  {
    if info == [] then [] else Words(info)
  }

  function Flatten(ws: seq<string>): string {
    if ws == [] then [] else ws[0] + Flatten(ws[1..])
  }

  /** `s` with every whitespace character removed. */
  function NonWhitespace(s: string): string {
    if s == [] then []
    else if IsWhitespace(s[0]) then NonWhitespace(s[1..])
    else [s[0]] + NonWhitespace(s[1..])
  }

  lemma {:induction false} NonWhitespaceAppend(a: string, b: string)
    ensures NonWhitespace(a + b) == NonWhitespace(a) + NonWhitespace(b)
    decreases |a|
  {
    if a != [] {
      assert (a + b)[1..] == a[1..] + b;
      NonWhitespaceAppend(a[1..], b);
    } else {
      assert a + b == b;
    }
  }

  lemma {:induction false} NonWhitespaceOfWord(w: string)
    requires NoWhitespace(w)
    ensures NonWhitespace(w) == w
    decreases |w|
  {
    if w != [] {
      NonWhitespaceOfWord(w[1..]);
    }
  }

  /** Splitting loses nothing but whitespace: the words, glued back
      together, are the string with its whitespace removed. */
  lemma {:induction false} WordsKeepText(s: string)
    ensures Flatten(Words(s)) == NonWhitespace(s)
    decreases |s|
  {
    if s == [] {
    } else if IsWhitespace(s[0]) {
      WordsKeepText(s[1..]);
    } else {
      var n := WordEnd(s);
      assert s == s[..n] + s[n..];
      WordsKeepText(s[n..]);
      NonWhitespaceAppend(s[..n], s[n..]);
      NonWhitespaceOfWord(s[..n]);
      assert ([s[..n]] + Words(s[n..]))[1..] == Words(s[n..]);
    }
  }

  /** Length of the leading run of whitespace characters. */
  function SpaceEnd(s: string): (n: nat)
    ensures n <= |s|
    ensures AllWhitespace(s[..n])
    ensures n == |s| || !IsWhitespace(s[n])
  {
    if s == [] || !IsWhitespace(s[0]) then 0
    else
      var n := SpaceEnd(s[1..]);
      assert forall i :: 1 <= i < n + 1 ==> s[i] == s[1..][..n][i - 1];
      n + 1
  }

  /** The words with the separators put back between them. */
  function Interleave(ws: seq<string>, seps: seq<string>): string
    requires |seps| + 1 == |ws|
    decreases |seps|
  {
    if seps == [] then ws[0] else ws[0] + seps[0] + Interleave(ws[1..], seps[1..])
  }

  /** Leading whitespace contributes no word. */
  lemma {:induction false} WordsDropSpaces(t: string, k: nat)
    requires k <= |t| && AllWhitespace(t[..k])
    ensures Words(t) == Words(t[k..])
    decreases k
  {
    if k > 0 {
      assert IsWhitespace(t[..k][0]);
      assert t[1..][..k - 1] == t[1..k];
      assert forall i :: 0 <= i < k - 1 ==> t[1..k][i] == t[..k][i + 1];
      WordsDropSpaces(t[1..], k - 1);
      assert t[1..][k - 1..] == t[k..];
    }
  }

  /** A separator between two words: a non-empty run of whitespace. */
  predicate IsGap(g: string) {
    g != [] && AllWhitespace(g)
  }

  /** One step of the split: after the first word of such a string come a
      non-empty whitespace run and a string of the same kind. */
  lemma WordsStep(s: string) returns (n: nat, m: nat)
    requires s != [] && !IsWhitespace(s[0]) && !IsWhitespace(s[|s| - 1])
    requires WordEnd(s) < |s|
    ensures n == WordEnd(s) && n < m < |s|
    ensures !IsWhitespace(s[m]) && IsGap(s[n..m])
    ensures Words(s) == [s[..n]] + Words(s[m..])
  {
    n := WordEnd(s);
    var t := s[n..];
    var k := SpaceEnd(t);
    assert k < |t| by {
      assert t[|t| - 1] == s[|s| - 1];
    }
    m := n + k;
    assert t[k..] == s[m..];
    assert s[n..m] == t[..k];
    WordsDropSpaces(t, k);
  }

  /** `s` is the words `ws` with the separators `gaps` between them, every
      separator a non-empty run of whitespace. */
  predicate SplitsInto(s: string, ws: seq<string>, gaps: seq<string>) {
    && |gaps| + 1 == |ws|
    && (forall k :: 0 <= k < |gaps| ==> IsGap(gaps[k]))
    && Interleave(ws, gaps) == s
  }

  /** On a string that neither starts nor ends with whitespace, the words
      and the whitespace runs `gaps` between them alternate and make up the
      whole string: the words are exactly the pieces `split(/\s+/)` cuts
      such a string into. */
  lemma {:induction false} WordsSplitAtRuns(s: string) returns (gaps: seq<string>)
    requires s != [] && !IsWhitespace(s[0]) && !IsWhitespace(s[|s| - 1])
    ensures SplitsInto(s, Words(s), gaps)
    decreases |s|
  {
    if WordEnd(s) == |s| {
      WordsOfOneWord(s);
      gaps := [];
    } else {
      var n, m := WordsStep(s);
      var rest := WordsSplitAtRuns(s[m..]);
      SplitCons(s[..n], s[n..m], s[m..], Words(s[m..]), rest);
      gaps := [s[n..m]] + rest;
      SliceInThree(s, n, m);
    }
  }

  lemma SliceInThree(s: string, n: nat, m: nat)
    requires n <= m <= |s|
    ensures s[..n] + s[n..m] + s[m..] == s
  {
  }

  /** The `params` of a fence whose trimmed info string is not empty: the
      trimmed string is exactly its words with whitespace runs between
      them. */
  lemma ParamsSplitAtRuns(raw: string) returns (gaps: seq<string>)
    requires !AllWhitespace(raw)
    ensures SplitsInto(Trim(raw), Params(Trim(raw)), gaps)
  {
    var t := Trim(raw);
    assert t != [] && Params(t) == Words(t);
    gaps := WordsSplitAtRuns(t);
  }

  lemma SplitCons(w: string, g: string, t: string, ws: seq<string>, gaps: seq<string>)
    requires IsGap(g) && SplitsInto(t, ws, gaps)
    ensures SplitsInto(w + g + t, [w] + ws, [g] + gaps)
  {
    var gaps' := [g] + gaps;
    assert forall k :: 1 <= k < |gaps'| ==> gaps'[k] == gaps[k - 1];
    InterleaveCons(w, g, ws, gaps);
  }

  lemma WordsOfOneWord(s: string)
    requires s != [] && WordEnd(s) == |s|
    ensures Words(s) == [s]
  {
    assert s[..WordEnd(s)] == s;
    assert !IsWhitespace(s[0]);
    assert s[|s|..] == [];
  }

  lemma InterleaveCons(w: string, g: string, ws: seq<string>, gs: seq<string>)
    requires |gs| + 1 == |ws|
    ensures Interleave([w] + ws, [g] + gs) == w + g + Interleave(ws, gs)
  {
    assert ([w] + ws)[1..] == ws && ([g] + gs)[1..] == gs;
  }

  // ---------------------------------------------------------------- slice

  /** `s.slice(a, b)` for non-negative arguments: both ends are clamped to
      the length, and a start at or after the end gives the empty string. */
  function Slice(s: string, a: nat, b: nat): (r: string)
    ensures a <= b <= |s| ==> r == s[a..b]
    ensures b <= a ==> r == []
  {
    var a' := if a <= |s| then a else |s|;
    var b' := if b <= |s| then b else |s|;
    if a' < b' then s[a'..b'] else []
  }

  // ------------------------------------------- leading-space replacement

  /** `line.replace(/^ {1,n}/, '')` on one line: removes the leading spaces,
      but at most `n` of them. */
  function StripUpTo(line: string, n: nat): (r: string)
    ensures |r| <= |line| && r == line[|line| - |r|..]
    ensures |line| - |r| <= n
    ensures forall i :: 0 <= i < |line| - |r| ==> line[i] == ' '
    ensures |line| - |r| == n || r == [] || r[0] != ' '
  {
    if n == 0 || line == [] || line[0] != ' ' then line
    else
      var r := StripUpTo(line[1..], n - 1);
      assert line[1..][|line| - 1 - |r|..] == line[|line| - |r|..];
      assert forall i :: 1 <= i < |line| - |r| ==> line[i] == line[1..][i - 1];
      r
  }

  /** `line.replace(/^ {n}/, '')` on one line: removes exactly `n` leading
      spaces when the line starts with at least that many, otherwise
      leaves it alone. */
  function StripExact(line: string, n: nat): string {
    if n <= |line| && AllSpaces(line[..n]) then line[n..] else line
  }

  function Strip(line: string, n: nat, exact: bool): string {
    if exact then StripExact(line, n) else StripUpTo(line, n)
  }

  function StripEach(lines: seq<string>, n: nat, exact: bool): (r: seq<string>)
    ensures |r| == |lines|
    ensures forall k :: 0 <= k < |r| ==> r[k] == Strip(lines[k], n, exact)
  {
    if lines == [] then [] else [Strip(lines[0], n, exact)] + StripEach(lines[1..], n, exact)
  }

  /** Each line followed by a newline, concatenated: the text of a run of
      whole source lines. */
  function JoinLines(lines: seq<string>): string {
    if lines == [] then [] else lines[0] + "\n" + JoinLines(lines[1..])
  }

  /** Number of leading spaces of `t`, counting at most `n`. */
  function LeadingSpaces(t: string, n: nat): (k: nat)
    ensures k <= n && k <= |t|
    ensures forall i :: 0 <= i < k ==> t[i] == ' '
    ensures k == n || k == |t| || t[k] != ' '
  {
    if n == 0 || t == [] || t[0] != ' ' then 0
    else
      var k := LeadingSpaces(t[1..], n - 1);
      assert forall i :: 1 <= i < k + 1 ==> t[i] == t[1..][i - 1];
      k + 1
  }

  /** What is left of `t` after the pattern is applied at its start. */
  function AfterLeadingSpaces(t: string, n: nat, exact: bool): (u: string)
    ensures |u| <= |t|
  {
    var k := LeadingSpaces(t, n);
    if exact && k < n then t else t[k..]
  }

  /** The replacement a JavaScript regular expression `^ {n}` (when `exact`)
      or `^ {1,n}` (otherwise) with flags `mg` performs: at the start of the
      text and after every line terminator, the leading spaces that the
      pattern matches are deleted; everything else is copied. */
  function StripAtLineStarts(t: string, n: nat, exact: bool): string
    decreases |t|, 1
  {
    RestOfLine(AfterLeadingSpaces(t, n, exact), n, exact)
  }

  /** The replacement inside a line: characters are copied up to and
      including the next line terminator, where a new line start begins. */
  function RestOfLine(u: string, n: nat, exact: bool): string
    decreases |u|, 0
  {
    if u == [] then []
    else if IsLineTerminator(u[0]) then [u[0]] + StripAtLineStarts(u[1..], n, exact)
    else [u[0]] + RestOfLine(u[1..], n, exact)
  }

  /** `t` with every space removed. */
  function Unspaced(t: string): string {
    if t == [] then [] else (if t[0] == ' ' then [] else [t[0]]) + Unspaced(t[1..])
  }

  lemma {:induction false} UnspacedAppend(a: string, b: string)
    ensures Unspaced(a + b) == Unspaced(a) + Unspaced(b)
    decreases |a|
  {
    if a != [] {
      assert (a + b)[1..] == a[1..] + b;
      UnspacedAppend(a[1..], b);
    } else {
      assert a + b == b;
    }
  }

  lemma {:induction false} UnspacedDropSpaces(t: string, k: nat)
    requires k <= |t| && forall i :: 0 <= i < k ==> t[i] == ' '
    ensures Unspaced(t[k..]) == Unspaced(t)
    decreases k
  {
    if k > 0 {
      UnspacedDropSpaces(t[1..], k - 1);
      assert t[1..][k - 1..] == t[k..];
    }
  }

  /** The replacement deletes nothing but spaces: with the spaces removed,
      the result and the original text are the same. */
  lemma {:induction false} StripAtLineStartsKeepsText(t: string, n: nat, exact: bool)
    ensures Unspaced(StripAtLineStarts(t, n, exact)) == Unspaced(t)
    decreases |t|, 1
  {
    var k := LeadingSpaces(t, n);
    var u := AfterLeadingSpaces(t, n, exact);
    if !(exact && k < n) {
      UnspacedDropSpaces(t, k);
    }
    RestOfLineKeepsText(u, n, exact);
  }

  lemma {:induction false} RestOfLineKeepsText(u: string, n: nat, exact: bool)
    ensures Unspaced(RestOfLine(u, n, exact)) == Unspaced(u)
    decreases |u|, 0
  {
    if u != [] {
      var head := if u[0] == ' ' then [] else [u[0]];
      if IsLineTerminator(u[0]) {
        StripAtLineStartsKeepsText(u[1..], n, exact);
        assert ([u[0]] + StripAtLineStarts(u[1..], n, exact))[1..] == StripAtLineStarts(u[1..], n, exact);
      } else {
        RestOfLineKeepsText(u[1..], n, exact);
        assert ([u[0]] + RestOfLine(u[1..], n, exact))[1..] == RestOfLine(u[1..], n, exact);
      }
    }
  }

  lemma StripUpToByCount(t: string, n: nat)
    ensures StripUpTo(t, n) == t[LeadingSpaces(t, n)..]
  {
    var k := LeadingSpaces(t, n);
    var r := StripUpTo(t, n);
    var d := |t| - |r|;
    assert d == k;
  }

  lemma StripExactByCount(t: string, n: nat)
    ensures StripExact(t, n) == (if LeadingSpaces(t, n) < n then t else t[n..])
  {
    var k := LeadingSpaces(t, n);
    if k < n && n <= |t| {
      assert t[..n][k] == t[k];
    }
  }

  lemma StripByCount(t: string, n: nat, exact: bool)
    ensures Strip(t, n, exact) == AfterLeadingSpaces(t, n, exact)
  {
    if exact {
      StripExactByCount(t, n);
    } else {
      StripUpToByCount(t, n);
    }
  }

  lemma {:induction false} LeadingSpacesOfLine(line: string, rest: string, n: nat)
    requires rest != [] && rest[0] != ' '
    ensures LeadingSpaces(line + rest, n) == LeadingSpaces(line, n)
    decreases |line|
  {
    if n > 0 && line != [] && line[0] == ' ' {
      assert (line + rest)[1..] == line[1..] + rest;
      LeadingSpacesOfLine(line[1..], rest, n - 1);
    } else if line == [] {
      assert line + rest == rest;
    }
  }

  lemma {:induction false} RestOfLastLine(u: string, n: nat, exact: bool)
    requires NoLineTerminator(u)
    ensures RestOfLine(u, n, exact) == u
    decreases |u|
  {
    if u != [] {
      assert !IsLineTerminator(u[0]);
      RestOfLastLine(u[1..], n, exact);
    }
  }

  lemma {:induction false} RestOfLineLine(sl: string, tail: string, n: nat, exact: bool)
    requires NoLineTerminator(sl)
    ensures RestOfLine(sl + "\n" + tail, n, exact) == sl + "\n" + StripAtLineStarts(tail, n, exact)
    decreases |sl|
  {
    if sl == [] {
      assert sl + "\n" + tail == "\n" + tail;
      assert ("\n" + tail)[1..] == tail;
    } else {
      assert !IsLineTerminator(sl[0]);
      var u := sl + "\n" + tail;
      HeadOfThree(sl, "\n", tail);
      assert u[0] == sl[0] && u[1..] == sl[1..] + "\n" + tail;
      RestOfLineLine(sl[1..], tail, n, exact);
      HeadOfThree(sl, "\n", StripAtLineStarts(tail, n, exact));
    }
  }

  lemma HeadOfThree(a: string, b: string, c: string)
    requires a != []
    ensures a + b + c == [a[0]] + (a[1..] + b + c)
  {
    assert a == [a[0]] + a[1..];
  }

  /** On a text with no line terminator the replacement strips the one line. */
  lemma StripAtLineStartsOneLine(last: string, n: nat, exact: bool)
    requires NoLineTerminator(last)
    ensures StripAtLineStarts(last, n, exact) == Strip(last, n, exact)
  {
    StripByCount(last, n, exact);
    StripKeepsNoTerminator(last, n, exact);
    RestOfLastLine(Strip(last, n, exact), n, exact);
  }

  /** Applying the pattern to a line followed by more text only touches the line. */
  lemma AfterLeadingSpacesOfLine(line: string, rest: string, n: nat, exact: bool)
    requires rest != [] && rest[0] != ' '
    ensures AfterLeadingSpaces(line + rest, n, exact) == Strip(line, n, exact) + rest
  {
    LeadingSpacesOfLine(line, rest, n);
    StripByCount(line, n, exact);
    var k := LeadingSpaces(line, n);
    if !(exact && k < n) {
      assert (line + rest)[k..] == line[k..] + rest;
    }
  }

  lemma StripKeepsNoTerminator(line: string, n: nat, exact: bool)
    requires NoLineTerminator(line)
    ensures NoLineTerminator(Strip(line, n, exact))
  {
    var r := Strip(line, n, exact);
    assert r == line[|line| - |r|..];
  }

  /** One step of the replacement: once the start of the text is handled
      and its first line is known, the rest restarts after the newline. */
  lemma StripAtLineStartsStep(t: string, n: nat, exact: bool, sl: string, tail: string)
    requires AfterLeadingSpaces(t, n, exact) == sl + "\n" + tail
    requires NoLineTerminator(sl)
    ensures StripAtLineStarts(t, n, exact) == sl + "\n" + StripAtLineStarts(tail, n, exact)
  {
    RestOfLineLine(sl, tail, n, exact);
  }

  /** A first whole line is stripped on its own and the rest of the text is
      handled from the line start after its newline. */
  lemma StripAtLineStartsFirstLine(line: string, tail: string, n: nat, exact: bool)
    requires NoLineTerminator(line)
    ensures StripAtLineStarts(line + "\n" + tail, n, exact)
            == Strip(line, n, exact) + "\n" + StripAtLineStarts(tail, n, exact)
  {
    var sl := Strip(line, n, exact);
    var t := line + "\n" + tail;
    assert AfterLeadingSpaces(t, n, exact) == sl + "\n" + tail by {
      assert t == line + ("\n" + tail);
      AfterLeadingSpacesOfLine(line, "\n" + tail, n, exact);
      assert sl + ("\n" + tail) == sl + "\n" + tail;
    }
    assert NoLineTerminator(sl) by {
      StripKeepsNoTerminator(line, n, exact);
    }
    StripAtLineStartsStep(t, n, exact, sl, tail);
  }

  lemma JoinLinesCons(lines: seq<string>, last: string)
    requires lines != []
    ensures JoinLines(lines) + last == lines[0] + "\n" + (JoinLines(lines[1..]) + last)
  {
  }

  /** The regular-expression replacement works line by line: on a text made
      of whole lines (each ending in a newline) and a final partial line, it
      strips every line independently and keeps the newlines. */
  lemma {:induction false} StripAtLineStartsLines(lines: seq<string>, last: string, n: nat, exact: bool)
    requires forall k :: 0 <= k < |lines| ==> NoLineTerminator(lines[k])
    requires NoLineTerminator(last)
    ensures StripAtLineStarts(JoinLines(lines) + last, n, exact)
            == JoinLines(StripEach(lines, n, exact)) + Strip(last, n, exact)
    decreases |lines|
  {
    if lines == [] {
      assert JoinLines(lines) + last == last;
      StripAtLineStartsOneLine(last, n, exact);
    } else {
      JoinLinesCons(lines, last);
      StripAtLineStartsFirstLine(lines[0], JoinLines(lines[1..]) + last, n, exact);
      StripAtLineStartsLines(lines[1..], last, n, exact);
      var stripped := StripEach(lines, n, exact);
      assert stripped[1..] == StripEach(lines[1..], n, exact);
      JoinLinesCons(stripped, Strip(last, n, exact));
    }
  }

  /** Lines joined with one newline between neighbours and none after the
      last: the text of a run of source lines cut out of the middle of the
      source. */
  function JoinText(lines: seq<string>): string {
    if lines == [] then [] else if |lines| == 1 then lines[0] else lines[0] + "\n" + JoinText(lines[1..])
  }

  lemma {:induction false} JoinTextSnoc(lines: seq<string>, last: string)
    requires lines != []
    ensures JoinText(lines + [last]) == JoinText(lines) + "\n" + last
    decreases |lines|
  {
    if |lines| == 1 {
      assert (lines + [last])[1..] == [last];
    } else {
      assert (lines + [last])[1..] == lines[1..] + [last];
      JoinTextSnoc(lines[1..], last);
    }
  }

  lemma {:induction false} JoinTextAsLines(lines: seq<string>)
    requires lines != []
    ensures JoinText(lines) == JoinLines(lines[..|lines| - 1]) + lines[|lines| - 1]
    decreases |lines|
  {
    if |lines| > 1 {
      JoinTextAsLines(lines[1..]);
      assert lines[..|lines| - 1][1..] == lines[1..][..|lines| - 2];
      JoinLinesCons(lines[..|lines| - 1], lines[|lines| - 1]);
    }
  }

  /** The replacement on lines separated by newlines strips every line on
      its own, the last one included. */
  lemma StripAtLineStartsText(lines: seq<string>, n: nat, exact: bool)
    requires lines != []
    requires forall k :: 0 <= k < |lines| ==> NoLineTerminator(lines[k])
    ensures StripAtLineStarts(JoinText(lines), n, exact) == JoinText(StripEach(lines, n, exact))
  {
    var k := |lines| - 1;
    JoinTextAsLines(lines);
    StripAtLineStartsLines(lines[..k], lines[k], n, exact);
    var stripped := StripEach(lines, n, exact);
    assert StripEach(lines[..k], n, exact) == stripped[..k];
    JoinTextAsLines(stripped);
  }
}
