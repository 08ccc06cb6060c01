/** The per-line index the block lexer works over: the source text and, for
    every line, the offset where it begins (`bMarks`), the offset of its end
    (`eMarks`, the position of its newline) and the number of leading spaces
    (`tShift`), plus the number of indexed lines (`lineMax`).  The index is
    built outside the rules modelled here; `Valid` states what the rules
    rely on it to satisfy.  The helpers `skipChars`, `skipSpaces`,
    `getLines` and `isEmpty` of the lexer are given here with their assumed
    meaning. */
module LineIndex {
  import opened JsText

  datatype Source = Source(
    src: string,
    bMarks: seq<nat>,
    eMarks: seq<nat>,
    tShift: seq<nat>,
    lineMax: nat)

  /** Line `i` lies inside the text, ends at a newline (or at the end of the
      text), and starts with exactly `tShift[i]` spaces.  The index splits
      at newlines only, so a line may hold a carriage return or a Unicode
      line or paragraph separator. */
  predicate LineOk(s: Source, i: nat)
    requires i < |s.bMarks| && i < |s.eMarks| && i < |s.tShift|
  {
    var b, e, t := s.bMarks[i], s.eMarks[i], s.tShift[i];
    && b + t <= e <= |s.src|
    && (e < |s.src| ==> s.src[e] == '\n')
    && (forall j :: b <= j < b + t ==> s.src[j] == ' ')
    && (b + t < e ==> s.src[b + t] != ' ')
  }

  predicate Valid(s: Source) {
    && |s.bMarks| == s.lineMax
    && |s.eMarks| == s.lineMax
    && |s.tShift| == s.lineMax
    && forall i :: 0 <= i < s.lineMax ==> LineOk(s, i)
  }

  /** The text of line `i`, without its newline. */
  function Line(s: Source, i: nat): (r: string)
    requires Valid(s) && i < s.lineMax
    ensures |r| == s.eMarks[i] - s.bMarks[i]
    ensures forall j :: 0 <= j < |r| ==> r[j] == s.src[s.bMarks[i] + j]
  {
    assert LineOk(s, i);
    s.src[s.bMarks[i]..s.eMarks[i]]
  }

  /** No indexed line holds a line terminator other than the newline that
      ends it: the lines the index sees are the lines a multi-line regular
      expression sees. */
  predicate PlainLines(s: Source)
    requires Valid(s)
  {
    forall i, j :: 0 <= i < s.lineMax && s.bMarks[i] <= j < s.eMarks[i] && j < |s.src|
      ==> !IsLineTerminator(s.src[j])
  }

  lemma LinePlain(s: Source, i: nat)
    requires Valid(s) && PlainLines(s) && i < s.lineMax
    ensures NoLineTerminator(Line(s, i))
  {
    assert LineOk(s, i);
  }

  /** The rest of a plain line from a position inside it is plain too. */
  lemma LineRestPlain(s: Source, i: nat, from: nat)
    requires Valid(s) && PlainLines(s) && i < s.lineMax
    requires s.bMarks[i] <= from <= s.eMarks[i]
    ensures s.eMarks[i] <= |s.src| && NoLineTerminator(s.src[from..s.eMarks[i]])
  {
    assert LineOk(s, i);
    var r := s.src[from..s.eMarks[i]];
    assert forall j :: 0 <= j < |r| ==> r[j] == s.src[from + j];
  }

  lemma {:induction false} LinesPlain(s: Source, a: nat, b: nat)
    requires Valid(s) && PlainLines(s) && a <= b <= s.lineMax
    ensures forall k :: 0 <= k < b - a ==> NoLineTerminator(Lines(s, a, b)[k])
  {
    forall k | 0 <= k < b - a ensures NoLineTerminator(Lines(s, a, b)[k]) {
      LinePlain(s, a + k);
    }
  }

  /** The text of line `i` after its indentation. */
  function AfterIndent(s: Source, i: nat): (r: string)
    requires Valid(s) && i < s.lineMax
    ensures |r| == s.eMarks[i] - (s.bMarks[i] + s.tShift[i])
  {
    assert LineOk(s, i);
    s.src[s.bMarks[i] + s.tShift[i]..s.eMarks[i]]
  }

  /** `isEmpty(state, line)`: the line holds nothing but its indentation. */
  predicate IsEmpty(s: Source, i: nat)
    requires Valid(s) && i < s.lineMax
  {
    s.bMarks[i] + s.tShift[i] >= s.eMarks[i]
  }

  /** An empty line is exactly a line made of spaces only. */
  lemma IsEmptyIffBlank(s: Source, i: nat)
    requires Valid(s) && i < s.lineMax
    ensures IsEmpty(s, i) <==> AllSpaces(Line(s, i))
  {
    assert LineOk(s, i);
    var b, t := s.bMarks[i], s.tShift[i];
    var l := Line(s, i);
    if !IsEmpty(s, i) {
      assert l[t] == s.src[b + t];
    } else {
      forall j | 0 <= j < |l| ensures l[j] == ' ' {
        assert l[j] == s.src[b + j];
      }
    }
  }

  /** `eMarks[i]`, and the end of the text past the last indexed line (the
      index keeps one extra entry there). */
  function EndOf(s: Source, i: nat): (r: nat)
    requires Valid(s)
    ensures r <= |s.src|
  {
    if i < s.lineMax then (assert LineOk(s, i); s.eMarks[i]) else |s.src|
  }

  /** `skipChars(state, pos, c)`: the first position at or after `pos` that
      does not hold `c`, or the end of the text. */
  function SkipChars(src: string, pos: nat, c: char): (r: nat)
    requires pos <= |src|
    ensures pos <= r <= |src|
    ensures forall j :: pos <= j < r ==> src[j] == c
    ensures r == |src| || src[r] != c
    decreases |src| - pos
  {
    if pos < |src| && src[pos] == c then SkipChars(src, pos + 1, c) else pos
  }

  /** `skipSpaces(state, pos)`. */
  function SkipSpaces(src: string, pos: nat): (r: nat)
    requires pos <= |src|
    ensures pos <= r <= |src|
    ensures forall j :: pos <= j < r ==> src[j] == ' '
    ensures r == |src| || src[r] != ' '
  {
    SkipChars(src, pos, ' ')
  }

  /** Scanning a run of a character other than the newline from inside a
      line never leaves the line. */
  lemma SkipCharsInLine(s: Source, i: nat, pos: nat, c: char)
    requires Valid(s) && i < s.lineMax
    requires s.bMarks[i] <= pos <= s.eMarks[i] && c != '\n'
    ensures pos <= |s.src|
    ensures SkipChars(s.src, pos, c) <= s.eMarks[i]
  {
    assert LineOk(s, i);
  }

  /** Lines `a` up to (excluding) `b`. */
  function Lines(s: Source, a: nat, b: nat): (r: seq<string>)
    requires Valid(s) && a <= b <= s.lineMax
    ensures |r| == b - a
    ensures forall k :: 0 <= k < |r| ==> r[k] == Line(s, a + k)
    decreases b - a
  {
    if a == b then [] else [Line(s, a)] + Lines(s, a + 1, b)
  }

  /** `getLines(state, a, b, true)`: lines `a` up to (excluding) `b`, each
      with its newline. */
  function GetLines(s: Source, a: nat, b: nat): string
    requires Valid(s) && a <= b <= s.lineMax
  {
    JoinLines(Lines(s, a, b))
  }

  /** Every indexed line starts right after the newline of the one before
      it: the index covers the text without gaps. */
  predicate Consecutive(s: Source)
    requires Valid(s)
  {
    forall i :: 0 <= i && i + 1 < s.lineMax ==> s.bMarks[i + 1] == s.eMarks[i] + 1
  }

  lemma LinesSnoc(s: Source, a: nat, b: nat)
    requires Valid(s) && a <= b < s.lineMax
    ensures Lines(s, a, b + 1) == Lines(s, a, b) + [Line(s, b)]
  {
  }

  /** On a gap-free index, the text up to the end of line `l + 1` is the
      text up to the end of line `l`, a newline and line `l + 1`. */
  lemma SliceNextLine(s: Source, l: nat, from: nat)
    requires Valid(s) && Consecutive(s) && l + 1 < s.lineMax
    requires from <= s.eMarks[l] < s.eMarks[l + 1] <= |s.src|
    ensures s.src[from..s.eMarks[l + 1]] == s.src[from..s.eMarks[l]] + "\n" + Line(s, l + 1)
  {
    assert LineOk(s, l);
    assert LineOk(s, l + 1);
    var e := s.eMarks[l];
    assert s.bMarks[l + 1] == e + 1;
    assert s.src[from..s.eMarks[l + 1]] == s.src[from..e] + s.src[e..e + 1] + s.src[e + 1..s.eMarks[l + 1]];
  }

  /** On a gap-free index, the text from a position inside line `first` to
      the end of line `last` is the rest of line `first` and the whole lines
      after it, separated by newlines. */
  lemma {:induction false} SliceLines(s: Source, first: nat, last: nat, from: nat)
    requires Valid(s) && Consecutive(s) && first <= last < s.lineMax
    requires s.bMarks[first] <= from <= s.eMarks[first] <= |s.src|
    ensures from <= s.eMarks[last] <= |s.src|
    ensures s.src[from..s.eMarks[last]]
            == JoinText([s.src[from..s.eMarks[first]]] + Lines(s, first + 1, last + 1))
    decreases last - first
  {
    if last == first {
      assert Lines(s, first + 1, last + 1) == [];
      assert [s.src[from..s.eMarks[first]]] + [] == [s.src[from..s.eMarks[first]]];
    } else {
      SliceLines(s, first, last - 1, from);
      SliceLinesStep(s, first, last, from);
    }
  }

  lemma SliceLinesStep(s: Source, first: nat, last: nat, from: nat)
    requires Valid(s) && Consecutive(s) && first < last < s.lineMax
    requires s.bMarks[first] <= from <= s.eMarks[first] <= |s.src|
    requires from <= s.eMarks[last - 1] <= |s.src|
    requires s.src[from..s.eMarks[last - 1]]
             == JoinText([s.src[from..s.eMarks[first]]] + Lines(s, first + 1, last))
    ensures from <= s.eMarks[last] <= |s.src|
    ensures s.src[from..s.eMarks[last]]
            == JoinText([s.src[from..s.eMarks[first]]] + Lines(s, first + 1, last + 1))
  {
    assert LineOk(s, last - 1) && LineOk(s, last);
    SliceNextLine(s, last - 1, from);
    LinesSnoc(s, first + 1, last);
    var head := [s.src[from..s.eMarks[first]]];
    var mid := Lines(s, first + 1, last);
    var line := Line(s, last);
    AppendSnoc(head, mid, line);
    JoinTextSnoc(head + mid, line);
  }

  lemma AppendSnoc<T>(a: seq<T>, b: seq<T>, x: T)
    ensures a + (b + [x]) == a + b + [x]
  {
  }
}
