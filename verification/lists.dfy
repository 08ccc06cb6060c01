/** The list rule (`lib/lexer_block/list.js`): a run of bullet items
    (`*`, `-`, `+`) or of ordered items (digits followed by `.` or `)`),
    each item's content handed to a nested block lexer, wrapped in list and
    item open/close tokens. */
module Lists {
  import opened Maybe
  import opened JsText
  import opened LineIndex
  import opened Tokens

  // ------------------------------------------------------------ markers

  predicate IsBullet(c: char) {
    c == '*' || c == '-' || c == '+'
  }

  predicate IsDigit(c: char) {
    '0' <= c <= '9'
  }

  predicate IsDelimiter(c: char) {
    c == '.' || c == ')'
  }

  /** Length of the leading run of decimal digits of `t`. */
  function DigitRun(t: string): (n: nat)
    ensures n <= |t|
    ensures forall i :: 0 <= i < n ==> IsDigit(t[i])
    ensures n == |t| || !IsDigit(t[n])
  {
    if t == [] || !IsDigit(t[0]) then 0
    else
      var n := DigitRun(t[1..]);
      assert forall i :: 1 <= i < n + 1 ==> t[i] == t[1..][i - 1];
      n + 1
  }

  /** `skipBulletListMarker` (lines 12-37): the position after the bullet,
      or -1. */
  function BulletAt(src: string, shift: nat, pos: nat, max: nat): (r: int)
    requires pos <= max <= |src|
    ensures r >= 0 ==> pos < r <= max
  {
    if shift > 3 then -1
    else if pos >= max then -1
    else if !IsBullet(src[pos]) then -1
    else if pos + 1 < max && src[pos + 1] != ' ' then -1
    else pos + 1
  }

  /** The digit loop of `skipOrderedListMarker` (lines 52-68), entered after
      the first digit: further digits, then a delimiter, then a space or the
      end of the line. */
  function ScanOrdered(src: string, pos: nat, max: nat): (r: int)
    requires pos <= max <= |src|
    ensures r >= 0 ==> pos < r <= max
    decreases max - pos
  {
    if pos >= max then -1
    else if IsDigit(src[pos]) then ScanOrdered(src, pos + 1, max)
    else if !IsDelimiter(src[pos]) then -1
    else if pos + 1 < max && src[pos + 1] != ' ' then -1
    else pos + 1
  }

  /** `skipOrderedListMarker` (lines 41-76): the position after the
      delimiter, or -1.  Unlike the bullet check it does not limit the
      indentation. */
  function OrderedAt(src: string, pos: nat, max: nat): (r: int)
    requires pos <= max <= |src|
    ensures r >= 0 ==> pos + 2 <= r <= max
  {
    if pos + 1 >= max then -1
    else if !IsDigit(src[pos]) then -1
    else ScanOrdered(src, pos + 1, max)
  }

  /** The text after the indentation starts with a bullet followed by a
      space or the end of the line. */
  predicate BulletShape(t: string) {
    |t| >= 1 && IsBullet(t[0]) && (|t| == 1 || t[1] == ' ')
  }

  /** The text after the indentation starts with at least one digit and a
      delimiter, followed by a space or the end of the line. */
  predicate OrderedShape(t: string) {
    var d := DigitRun(t);
    && 1 <= d < |t|
    && IsDelimiter(t[d])
    && (d + 1 == |t| || t[d + 1] == ' ')
  }

  /** The bullet scan on a line accepts exactly a bullet followed by a space
      or the end of the line, at most three spaces in, and returns the
      position just after the bullet. */
  lemma BulletAtShape(src: string, shift: nat, pos: nat, max: nat)
    requires pos <= max <= |src|
    ensures var r := BulletAt(src, shift, pos, max);
      && (r >= 0 <==> shift <= 3 && BulletShape(src[pos..max]))
      && (r >= 0 ==> r == pos + 1)
  {
    var t := src[pos..max];
    if pos < max {
      assert t[0] == src[pos];
    }
    if pos + 1 < max {
      assert t[1] == src[pos + 1];
    }
  }

  /** The digit loop, started inside a digit run, stops at the delimiter
      after the run. */
  lemma {:induction false} ScanOrderedShape(src: string, start: nat, pos: nat, max: nat)
    requires start < pos <= max <= |src|
    requires forall j :: start <= j < pos ==> IsDigit(src[j])
    ensures var t := src[start..max];
      var d := DigitRun(t);
      var r := ScanOrdered(src, pos, max);
      && (r >= 0 <==> OrderedShape(t))
      && (r >= 0 ==> r == start + d + 1)
    decreases max - pos
  {
    var t := src[start..max];
    var d := DigitRun(t);
    assert forall j :: 0 <= j < |t| ==> t[j] == src[start + j];
    if pos < max && IsDigit(src[pos]) {
      ScanOrderedShape(src, start, pos + 1, max);
    } else {
      assert d == pos - start;
    }
  }

  /** The ordered scan on a line accepts exactly digits, a delimiter, then a
      space or the end of the line, and returns the position just after the
      delimiter. */
  lemma OrderedAtShape(src: string, pos: nat, max: nat)
    requires pos <= max <= |src|
    ensures var t := src[pos..max];
      var r := OrderedAt(src, pos, max);
      && (r >= 0 <==> OrderedShape(t))
      && (r >= 0 ==> r == pos + DigitRun(t) + 1)
  {
    var t := src[pos..max];
    if pos < max {
      assert t[0] == src[pos];
    }
    if pos + 1 < max && IsDigit(src[pos]) {
      ScanOrderedShape(src, pos, pos + 1, max);
    }
  }

  /** The value of a string of decimal digits (`Number` of it). */
  function DecimalValue(ds: string): nat
    decreases |ds|
  {
    if ds == [] then 0
    else
      var c := ds[|ds| - 1];
      var v := if IsDigit(c) then (c as int) - ('0' as int) else 0;
      DecimalValue(ds[..|ds| - 1]) * 10 + v
  }

  /** The decimal digits of `n`, most significant first, without leading
      zeros. */
  function Digits(n: nat): (ds: string)
    ensures |ds| >= 1
    ensures forall i :: 0 <= i < |ds| ==> IsDigit(ds[i])
    ensures n > 0 ==> ds[0] != '0'
  {
    var c := (('0' as int) + n % 10) as char;
    if n < 10 then [c] else Digits(n / 10) + [c]
  }

  /** Reading the digits of `n` gives back `n`. */
  lemma {:induction false} DecimalValueOfDigits(n: nat)
    ensures DecimalValue(Digits(n)) == n
  {
    var ds := Digits(n);
    assert ds[..|ds| - 1] == (if n < 10 then [] else Digits(n / 10));
    if n >= 10 {
      DecimalValueOfDigits(n / 10);
    }
  }

  /** Leading zeros do not change the value. */
  lemma {:induction false} DecimalValueLeadingZero(ds: string)
    ensures DecimalValue("0" + ds) == DecimalValue(ds)
    decreases |ds|
  {
    if ds != [] {
      assert ("0" + ds)[..|"0" + ds| - 1] == "0" + ds[..|ds| - 1];
      DecimalValueLeadingZero(ds[..|ds| - 1]);
    }
  }

  // ------------------------------------------------- markers on a line

  /** `skipBulletListMarker(state, line)`. */
  function BulletMarker(s: Source, line: nat): (r: int)
    requires Valid(s) && line < s.lineMax
    ensures r >= 0 ==> s.bMarks[line] + s.tShift[line] < r <= s.eMarks[line]
  {
    assert LineOk(s, line);
    BulletAt(s.src, s.tShift[line], s.bMarks[line] + s.tShift[line], s.eMarks[line])
  }

  /** `skipOrderedListMarker(state, line)`. */
  function OrderedMarker(s: Source, line: nat): (r: int)
    requires Valid(s) && line < s.lineMax
    ensures r >= 0 ==> s.bMarks[line] + s.tShift[line] + 2 <= r <= s.eMarks[line]
  {
    assert LineOk(s, line);
    OrderedAt(s.src, s.bMarks[line] + s.tShift[line], s.eMarks[line])
  }

  /** The marker check of the list's kind (lines 138-144). */
  function Marker(s: Source, line: nat, ordered: bool): (r: int)
    requires Valid(s) && line < s.lineMax
    ensures r >= 0 ==> s.bMarks[line] + s.tShift[line] < r <= s.eMarks[line]
  {
    if ordered then OrderedMarker(s, line) else BulletMarker(s, line)
  }

  /** Lines 97-104: the kind of list a line starts (`true` for ordered,
      which is tried first), if any. */
  function ListStart(s: Source, line: nat): Option<bool>
    requires Valid(s) && line < s.lineMax
  {
    if OrderedMarker(s, line) >= 0 then Some(true)
    else if BulletMarker(s, line) >= 0 then Some(false)
    else None
  }

  /** Line 114: the number of an ordered marker, `Number` of the digits
      before the delimiter. */
  function Order(s: Source, line: nat): nat
    requires Valid(s) && line < s.lineMax
  {
    assert LineOk(s, line);
    var p := OrderedMarker(s, line);
    var start := s.bMarks[line] + s.tShift[line];
    if p < 0 then 0 else DecimalValue(s.src[start..p - 1])
  }

  /** On the line after its indentation: an ordered list starts exactly at
      digits, a delimiter and a space or the end of the line, at any
      indentation; a bullet list starts exactly at a bullet and a space or
      the end of the line, at most three spaces in; the two never both
      apply. */
  lemma ListStartShape(s: Source, line: nat)
    requires Valid(s) && line < s.lineMax
    ensures var t := AfterIndent(s, line);
      && (ListStart(s, line) == Some(true) <==> OrderedShape(t))
      && (ListStart(s, line) == Some(false) <==> s.tShift[line] <= 3 && BulletShape(t))
  {
    assert LineOk(s, line);
    var pos := s.bMarks[line] + s.tShift[line];
    OrderedAtShape(s.src, pos, s.eMarks[line]);
    BulletAtShape(s.src, s.tShift[line], pos, s.eMarks[line]);
  }

  /** The marker checks return the position right after the marker: after
      the delimiter of an ordered marker, after the bullet of a bullet. */
  lemma MarkerEnds(s: Source, line: nat)
    requires Valid(s) && line < s.lineMax
    ensures var t := AfterIndent(s, line);
      var pos := s.bMarks[line] + s.tShift[line];
      && (OrderedMarker(s, line) >= 0 ==> OrderedMarker(s, line) == pos + DigitRun(t) + 1)
      && (BulletMarker(s, line) >= 0 ==> BulletMarker(s, line) == pos + 1)
  {
    assert LineOk(s, line);
    var pos := s.bMarks[line] + s.tShift[line];
    OrderedAtShape(s.src, pos, s.eMarks[line]);
    BulletAtShape(s.src, s.tShift[line], pos, s.eMarks[line]);
  }

  /** The number of an ordered marker is the value of its digits. */
  lemma OrderIsDigitValue(s: Source, line: nat)
    requires Valid(s) && line < s.lineMax
    ensures var t := AfterIndent(s, line);
      OrderedShape(t) ==> Order(s, line) == DecimalValue(t[..DigitRun(t)])
  {
    assert LineOk(s, line);
    var pos := s.bMarks[line] + s.tShift[line];
    var t := AfterIndent(s, line);
    OrderedAtShape(s.src, pos, s.eMarks[line]);
    if OrderedShape(t) {
      PrefixOfSlice(s.src, pos, s.eMarks[line], DigitRun(t));
    }
  }

  lemma PrefixOfSlice(src: string, pos: nat, max: nat, d: nat)
    requires pos + d <= max <= |src|
    ensures src[pos..max][..d] == src[pos..pos + d]
  {
  }

  // ------------------------------------------------------- item layout

  /** Where an item's content starts, how many spaces after the marker
      count (`indentAfterMarker`), and the column continuation lines must
      reach (`indent`). */
  datatype Layout = Layout(contentStart: nat, indentAfterMarker: nat, indent: nat)

  /** Lines 146-166 for an item on `line` whose marker ends at
      `posAfterMarker`.  Continuation lines must reach the column of the
      item's content when one to four spaces separate it from the marker;
      otherwise (no content on the line, or more than four spaces, which
      make the content an indented code block) one column past the
      marker. */
  function ItemLayout(s: Source, line: nat, posAfterMarker: nat): (r: Layout)
    requires Valid(s) && line < s.lineMax
    requires s.bMarks[line] < posAfterMarker <= s.eMarks[line]
    ensures 1 <= r.indentAfterMarker <= 4
    ensures r.indent == posAfterMarker - s.bMarks[line] + r.indentAfterMarker
    ensures posAfterMarker <= r.contentStart <= s.eMarks[line] <= |s.src|
    ensures forall j :: posAfterMarker <= j < r.contentStart ==> s.src[j] == ' '
    ensures r.contentStart < s.eMarks[line] ==> s.src[r.contentStart] != ' '
    ensures r.contentStart < s.eMarks[line] && 1 <= r.contentStart - posAfterMarker <= 4
            ==> s.bMarks[line] + r.indent == r.contentStart
    ensures r.contentStart == s.eMarks[line] || r.contentStart - posAfterMarker > 4
            ==> r.indent == posAfterMarker - s.bMarks[line] + 1
  {
    assert LineOk(s, line);
    SkipCharsInLine(s, line, posAfterMarker, ' ');
    var contentStart := SkipSpaces(s.src, posAfterMarker);
    var max := s.eMarks[line];
    var gap := if contentStart >= max then 1 else contentStart - posAfterMarker;
    var gap := if gap > 4 then 1 else gap;
    var gap := if gap < 1 then 1 else gap;
    Layout(contentStart, gap, posAfterMarker - s.bMarks[line] + gap)
  }

  // ------------------------------------------------- continuation lines

  /** The scan of lines 177-190 from line `next`: blank lines and lines
      indented at least `indent` belong to the item; `last` becomes the
      last such non-blank line before `endLine`.  Returns the line the scan
      stops at and the updated `last`. */
  function ScanItem(s: Source, next: nat, indent: nat, endLine: nat, last: int): (r: (nat, int))
    requires Valid(s)
    ensures next <= r.0
    ensures next <= s.lineMax ==> r.0 <= s.lineMax
    ensures forall l :: next <= l < r.0 ==> l < s.lineMax && (IsEmpty(s, l) || s.tShift[l] >= indent)
    ensures r.0 < s.lineMax ==> !IsEmpty(s, r.0) && s.tShift[r.0] < indent
    ensures r.1 == last || (next <= r.1 < r.0 && r.1 < endLine && !IsEmpty(s, r.1))
    ensures forall l :: next <= l < r.0 && l < endLine && !IsEmpty(s, l) ==> l <= r.1
    decreases s.lineMax - next
  {
    if next < s.lineMax then
      if IsEmpty(s, next) then ScanItem(s, next + 1, indent, endLine, last)
      else if s.tShift[next] >= indent then
        ScanItem(s, next + 1, indent, endLine, if next < endLine then next else last)
      else (next, last)
    else (next, last)
  }

  // ------------------------------------------------- nested lexer calls

  /** The text handed to the nested lexer (lines 194-202): from
      `contentStart` to the end of line `lastLine`, with exactly `indent`
      leading spaces removed at every line start that has them, followed by
      the whole rest of the text from the end of `lastLine` on. */
  function SubText(s: Source, contentStart: nat, lastLine: nat, indent: nat): (r: string)
    requires Valid(s)
    ensures contentStart <= EndOf(s, lastLine) ==> Unspaced(r) == Unspaced(s.src[contentStart..])
  {
    var e := EndOf(s, lastLine);
    var head := Slice(s.src, contentStart, e);
    var tail := if lastLine < s.lineMax then Slice(s.src, e, |s.src|) else [];
    if contentStart <= e then
      assert tail == s.src[e..];
      RestKeepsText(s.src, contentStart, e, indent);
      StripAtLineStarts(head, indent, true) + tail
    else StripAtLineStarts(head, indent, true) + tail
  }

  lemma RestKeepsText(src: string, a: nat, e: nat, n: nat)
    requires a <= e <= |src|
    ensures Unspaced(StripAtLineStarts(src[a..e], n, true) + src[e..]) == Unspaced(src[a..])
  {
    var x, y := src[a..e], src[e..];
    assert x + y == src[a..];
    KeepsTextAppend(x, y, n);
  }

  lemma KeepsTextAppend(x: string, y: string, n: nat)
    ensures Unspaced(StripAtLineStarts(x, n, true) + y) == Unspaced(x + y)
  {
    StripAtLineStartsKeepsText(x, n, true);
    UnspacedAppend(StripAtLineStarts(x, n, true), y);
    UnspacedAppend(x, y);
  }

  /** On a gap-free index the nested lexer's text is made of whole lines:
      the rest of line `first` from `contentStart` and every line after it
      up to `lastLine`, each dedented on its own (exactly `indent` spaces or
      none), separated by newlines and followed by the untouched rest of the
      source from the end of `lastLine`. */
  lemma SubTextLines(s: Source, first: nat, lastLine: nat, contentStart: nat, indent: nat)
    requires Valid(s) && Consecutive(s) && PlainLines(s) && first <= lastLine < s.lineMax
    requires s.bMarks[first] <= contentStart <= s.eMarks[first]
    ensures SubText(s, contentStart, lastLine, indent)
      == JoinText(StripEach([Slice(s.src, contentStart, s.eMarks[first])] + Lines(s, first + 1, lastLine + 1), indent, true))
         + Slice(s.src, s.eMarks[lastLine], |s.src|)
  {
    SubTextUnfold(s, contentStart, lastLine, indent);
    var lines := ItemLines(s, first, lastLine, contentStart);
    StripAtLineStartsText(lines, indent, true);
  }

  /** The lines an item's text covers, the first one cut at `contentStart`. */
  lemma ItemLines(s: Source, first: nat, lastLine: nat, contentStart: nat) returns (lines: seq<string>)
    requires Valid(s) && Consecutive(s) && PlainLines(s) && first <= lastLine < s.lineMax
    requires s.bMarks[first] <= contentStart <= s.eMarks[first]
    ensures lines == [Slice(s.src, contentStart, s.eMarks[first])] + Lines(s, first + 1, lastLine + 1)
    ensures lines != [] && Slice(s.src, contentStart, s.eMarks[lastLine]) == JoinText(lines)
    ensures forall k :: 0 <= k < |lines| ==> NoLineTerminator(lines[k])
  {
    assert LineOk(s, first) && LineOk(s, lastLine);
    SliceLines(s, first, lastLine, contentStart);
    lines := [Slice(s.src, contentStart, s.eMarks[first])] + Lines(s, first + 1, lastLine + 1);
    ItemLinesPlain(s, first, lastLine, contentStart);
  }

  lemma ItemLinesPlain(s: Source, first: nat, lastLine: nat, contentStart: nat)
    requires Valid(s) && PlainLines(s) && first <= lastLine < s.lineMax
    requires s.bMarks[first] <= contentStart <= s.eMarks[first]
    ensures var lines := [Slice(s.src, contentStart, s.eMarks[first])] + Lines(s, first + 1, lastLine + 1);
      forall k :: 0 <= k < |lines| ==> NoLineTerminator(lines[k])
  {
    LineRestPlain(s, first, contentStart);
    LinesPlain(s, first + 1, lastLine + 1);
    AllPlainCons(Slice(s.src, contentStart, s.eMarks[first]), Lines(s, first + 1, lastLine + 1));
  }

  lemma SubTextUnfold(s: Source, contentStart: nat, lastLine: nat, indent: nat)
    requires Valid(s) && lastLine < s.lineMax
    ensures SubText(s, contentStart, lastLine, indent)
      == StripAtLineStarts(Slice(s.src, contentStart, s.eMarks[lastLine]), indent, true)
         + Slice(s.src, s.eMarks[lastLine], |s.src|)
  {
  }

  lemma AllPlainCons(head: string, rest: seq<string>)
    requires NoLineTerminator(head)
    requires forall k :: 0 <= k < |rest| ==> NoLineTerminator(rest[k])
    ensures forall k :: 0 <= k < |[head] + rest| ==> NoLineTerminator(([head] + rest)[k])
  {
  }

  type Pos = n: nat | n >= 1 witness 1

  /** What the nested block lexer reports for one call: how many lines of
      its text it consumed (`subState.line`; it always advances), whether
      the content was tight, and the tokens it appended. */
  datatype SubResult = SubResult(consumed: Pos, tight: bool, tokens: seq<Token>)

  /** One call of the nested lexer: the item lines it covers (from `first`,
      the source's `startLine` at the call, to `last`, its `lastLine`), its
      text, its `endLine`, and its report. */
  datatype SubCall = SubCall(first: nat, last: nat, text: string, endLine: nat, result: SubResult)

  /** One list item: the line of its marker, its continuation indent, the
      nested lexer calls made for it, in order, and the line its scan ends
      on (where the next item, if any, starts). */
  datatype Item = Item(line: nat, indent: nat, calls: seq<SubCall>, stop: nat)

  function OpenToken(ordered: bool, order: nat, tight: bool): Token {
    if ordered then OrderedListOpen(order, tight) else BulletListOpen(tight)
  }

  function CloseToken(ordered: bool): Token {
    if ordered then OrderedListClose else BulletListClose
  }

  /** The tokens of the calls, in call order. */
  function CallsTokens(calls: seq<SubCall>): seq<Token> {
    if calls == [] then [] else CallsTokens(calls[..|calls| - 1]) + calls[|calls| - 1].result.tokens
  }

  function ItemTokens(item: Item): seq<Token> {
    [ListItemOpen] + CallsTokens(item.calls) + [ListItemClose]
  }

  /** The tokens of the items, in item order. */
  function ItemsTokens(items: seq<Item>): seq<Token> {
    if items == [] then [] else ItemsTokens(items[..|items| - 1]) + ItemTokens(items[|items| - 1])
  }

  predicate CallsTight(calls: seq<SubCall>) {
    forall j :: 0 <= j < |calls| ==> calls[j].result.tight
  }

  /** Every nested lexer call of every item reported tight content. */
  predicate AllTight(items: seq<Item>) {
    forall i :: 0 <= i < |items| ==> CallsTight(items[i].calls)
  }

  /** Every nested lexer call produced a well-nested token list. */
  predicate CallsBalanced(calls: seq<SubCall>) {
    forall j :: 0 <= j < |calls| ==> Balanced(calls[j].result.tokens)
  }

  lemma {:induction false} CallsTokensBalanced(calls: seq<SubCall>)
    requires CallsBalanced(calls)
    ensures Balanced(CallsTokens(calls))
    decreases |calls|
  {
    if calls != [] {
      var k := |calls| - 1;
      assert CallsBalanced(calls[..k]);
      CallsTokensBalanced(calls[..k]);
      assert Balanced(calls[k].result.tokens);
      BalancedConcat(CallsTokens(calls[..k]), calls[k].result.tokens);
    }
  }

  lemma {:induction false} ItemsTokensBalanced(items: seq<Item>)
    requires forall i :: 0 <= i < |items| ==> CallsBalanced(items[i].calls)
    ensures Balanced(ItemsTokens(items))
    decreases |items|
  {
    if items != [] {
      var k := |items| - 1;
      ItemsTokensBalanced(items[..k]);
      CallsTokensBalanced(items[k].calls);
      BalancedInBrackets(CallsTokens(items[k].calls), 0, true);
      BalancedConcat(ItemsTokens(items[..k]), ItemTokens(items[k]));
    }
  }

  /** The rule's own tokens nest: when every nested call returned
      well-nested tokens, the list open token, the items each wrapped in
      an item open/close pair, and the list close token are well nested. */
  lemma ListTokensBalanced(ordered: bool, order: nat, tight: bool, items: seq<Item>)
    requires forall i :: 0 <= i < |items| ==> CallsBalanced(items[i].calls)
    ensures Balanced([OpenToken(ordered, order, tight)] + ItemsTokens(items) + [CloseToken(ordered)])
  {
    ItemsTokensBalanced(items);
    BalancedInBrackets(ItemsTokens(items), order, tight);
  }

  // ------------------------------------------------------------ the rule

  /** The list-open token at `idx` as it stands after `calls`: reset to
      loose when one of them reported loose content. */
  function Patched(tokens: seq<Token>, idx: nat, ordered: bool, order: nat, calls: seq<SubCall>): seq<Token>
    requires idx < |tokens|
  {
    if CallsTight(calls) then tokens else tokens[idx := OpenToken(ordered, order, false)]
  }

  /** The only change the patch makes is to the list-open token at `idx`,
      which can only become loose; once loose, later calls leave it loose. */
  lemma PatchedOnlyLoosens(tokens: seq<Token>, idx: nat, ordered: bool, order: nat,
                                             calls: seq<SubCall>, more: seq<SubCall>)
    requires idx < |tokens|
    ensures var p := Patched(tokens, idx, ordered, order, calls);
      && |p| == |tokens|
      && (forall i :: 0 <= i < |tokens| && i != idx ==> p[i] == tokens[i])
      && (p[idx] == tokens[idx] || p[idx] == OpenToken(ordered, order, false))
    ensures !CallsTight(calls) ==>
      Patched(tokens, idx, ordered, order, calls + more) == Patched(tokens, idx, ordered, order, calls)
  {
    if !CallsTight(calls) {
      var j :| 0 <= j < |calls| && !calls[j].result.tight;
      assert (calls + more)[j] == calls[j];
    }
  }

  /** Lines 204-216 on the tokens: the nested lexer appends its tokens
      (the cloned state shares the token list), and a loose report resets
      the list-open token at `idx` to loose. */
  function AddCall(tokens: seq<Token>, idx: nat, ordered: bool, order: nat, res: SubResult): (r: seq<Token>)
    requires idx < |tokens|
    ensures |r| == |tokens| + |res.tokens|
  {
    var t := tokens + res.tokens;
    if res.tight then t else t[idx := OpenToken(ordered, order, false)]
  }

  /** Appending one call's tokens and resetting the list-open token keeps
      the tokens in the shape `Patched(...) + CallsTokens(...)`. */
  lemma PatchedStep(tokens0: seq<Token>, idx: nat, ordered: bool, order: nat,
                    calls: seq<SubCall>, call: SubCall)
    requires idx < |tokens0|
    ensures Patched(tokens0, idx, ordered, order, calls + [call]) + CallsTokens(calls + [call])
      == AddCall(Patched(tokens0, idx, ordered, order, calls) + CallsTokens(calls), idx, ordered, order, call.result)
  {
    var calls' := calls + [call];
    assert calls'[..|calls'| - 1] == calls;
    assert CallsTight(calls') <==> CallsTight(calls) && call.result.tight by {
      assert forall j :: 0 <= j < |calls| ==> calls'[j] == calls[j];
      assert calls'[|calls|] == call;
    }
    var p := Patched(tokens0, idx, ordered, order, calls);
    var v := OpenToken(ordered, order, false);
    var rest := CallsTokens(calls) + call.result.tokens;
    assert CallsTokens(calls') == rest;
    assert p + CallsTokens(calls) + call.result.tokens == p + rest;
    if !call.result.tight {
      assert (p + rest)[idx := v] == p[idx := v] + rest;
      if !CallsTight(calls) {
        assert p[idx := v] == p;
      }
    }
  }

  /** An item may end before `line`: the end of the range, or a line that
      is not the first of two blank lines. */
  predicate ItemMayStopAt(s: Source, line: nat, endLine: nat)
    requires Valid(s) && endLine <= s.lineMax && line >= 1
  {
    line < endLine ==> (IsEmpty(s, line) ==> IsEmpty(s, line - 1))
  }

  /** `call` is the nested lexer run on the lines `call.first` to
      `call.last` (lines 194-205): its text starts at `content` and is
      dedented by `indent`, its `endLine` counts those lines, and its
      report is what `sub` returns for them. */
  predicate CallMade(s: Source, sub: (string, nat) -> SubResult, indent: nat, content: nat, call: SubCall)
    requires Valid(s)
  {
    && call.first <= call.last
    && call.text == SubText(s, content, call.last, indent)
    && call.endLine == call.last - call.first + 1
    && call.result == sub(call.text, call.endLine)
  }

  /** The source's `startLine` after a call: the lines it consumed are
      skipped (line 206). */
  function After(call: SubCall): nat {
    call.first + call.result.consumed
  }

  /** Lines 212-226: after a call that leaves the lexer at line `p`, the
      item ends when `p` reaches `endLine` or when `p` and the line after
      it are blank ("two newlines end the list"). */
  predicate EndsAfterCall(s: Source, p: nat, endLine: nat)
    requires Valid(s) && endLine <= s.lineMax
  {
    p >= endLine || (IsEmpty(s, p) && (p + 1 >= endLine || IsEmpty(s, p + 1)))
  }

  /** Where the scan resumes after a call that leaves the lexer at `p`:
      one blank line is stepped over (line 223). */
  function ResumeAt(s: Source, p: nat, endLine: nat): nat
    requires Valid(s) && endLine <= s.lineMax
  {
    if p < endLine && IsEmpty(s, p) then p + 1 else p
  }

  /** A further call of the same item: the item did not end after `prev`,
      the scan resumed from where `prev` left the lexer (with `lastLine`
      reset to -1) and found the non-blank continuation line `call.last`,
      and the text now starts at the end of the line the lexer is on
      (line 208). */
  predicate NextCall(s: Source, sub: (string, nat) -> SubResult, endLine: nat, indent: nat,
                     prev: SubCall, call: SubCall)
    requires Valid(s) && endLine <= s.lineMax
  {
    var p := After(prev);
    && !EndsAfterCall(s, p, endLine)
    && call.first == p
    && call.last as int == ScanItem(s, ResumeAt(s, p, endLine), indent, endLine, -1).1
    && CallMade(s, sub, indent, EndOf(s, p), call)
  }

  /** The nested calls of the item whose marker is on `line`, entered with
      the source's `startLine` at `start` (lines 171-227): the first call
      covers `start` up to the last continuation line the scan from
      `line + 1` found (or `start` itself), with the text starting at
      `contentStart`; each further call follows the previous one. */
  predicate ItemCalls(s: Source, sub: (string, nat) -> SubResult, endLine: nat, line: nat,
                      indent: nat, contentStart: nat, start: nat, calls: seq<SubCall>)
    requires Valid(s) && endLine <= s.lineMax
  {
    && |calls| >= 1
    && calls[0].first == start
    && calls[0].last as int == ScanItem(s, line + 1, indent, endLine, start).1
    && CallMade(s, sub, indent, contentStart, calls[0])
    && forall j :: 1 <= j < |calls| ==> NextCall(s, sub, endLine, indent, calls[j - 1], calls[j])
  }

  /** The line an item's loop stops on after its last call: `endLine` or
      beyond, the second of two blank lines, or, when the scan from where
      the call left the lexer finds no further continuation line, the line
      that scan stops at. */
  predicate ItemEnd(s: Source, endLine: nat, indent: nat, last: SubCall, stop: nat)
    requires Valid(s) && endLine <= s.lineMax
  {
    var p := After(last);
    if EndsAfterCall(s, p, endLine) then stop == (if p >= endLine then p else p + 1)
    else
      var r := ScanItem(s, ResumeAt(s, p, endLine), indent, endLine, -1);
      r.1 < 0 && stop == r.0
  }

  /** The scan of lines 177-190 as a step of the item loop. */
  method Scan(s: Source, next: nat, indent: nat, endLine: nat, last: int) returns (stop: nat, last': int)
    requires Valid(s) && next <= s.lineMax
    ensures (stop, last') == ScanItem(s, next, indent, endLine, last)
    ensures next <= stop <= s.lineMax
    ensures stop < s.lineMax ==> !IsEmpty(s, stop)
    ensures last' == last || next <= last' < endLine
  {
    var r := ScanItem(s, next, indent, endLine, last);
    stop, last' := r.0, r.1;
  }

  /** Lines 194-216: one nested lexer call on the item's lines from
      `start` to `lastLine`, its text starting at `content`.  The call is
      `sub` applied to the dedented text and the number of lines; its
      tokens are appended and a loose report resets the list-open token. */
  method CallStep(s: Source, sub: (string, nat) -> SubResult, start: nat, lastLine: nat,
                  content: nat, indent: nat, tokens0: seq<Token>, idx: nat, ordered: bool, order: nat,
                  calls: seq<SubCall>, tokens: seq<Token>)
    returns (call: SubCall, tokens': seq<Token>)
    requires Valid(s) && start <= lastLine && idx < |tokens0|
    requires tokens == Patched(tokens0, idx, ordered, order, calls) + CallsTokens(calls)
    ensures call.first == start && call.last == lastLine
    ensures CallMade(s, sub, indent, content, call)
    ensures tokens' == Patched(tokens0, idx, ordered, order, calls + [call]) + CallsTokens(calls + [call])
  {
    var n := lastLine - start + 1;
    var text := SubText(s, content, lastLine, indent);
    var res := sub(text, n);
    call := SubCall(start, lastLine, text, n, res);
    PatchedStep(tokens0, idx, ordered, order, calls, call);
    tokens' := AddCall(tokens, idx, ordered, order, res);
  }

  lemma ItemCallsFirst(s: Source, sub: (string, nat) -> SubResult, endLine: nat, line: nat,
                       indent: nat, contentStart: nat, start: nat, call: SubCall)
    requires Valid(s) && endLine <= s.lineMax
    requires call.first == start
    requires call.last as int == ScanItem(s, line + 1, indent, endLine, start).1
    requires CallMade(s, sub, indent, contentStart, call)
    ensures ItemCalls(s, sub, endLine, line, indent, contentStart, start, [call])
  {
  }

  lemma ItemCallsSnoc(s: Source, sub: (string, nat) -> SubResult, endLine: nat, line: nat,
                      indent: nat, contentStart: nat, start: nat, calls: seq<SubCall>, call: SubCall)
    requires Valid(s) && endLine <= s.lineMax
    requires ItemCalls(s, sub, endLine, line, indent, contentStart, start, calls)
    requires NextCall(s, sub, endLine, indent, calls[|calls| - 1], call)
    ensures ItemCalls(s, sub, endLine, line, indent, contentStart, start, calls + [call])
  {
    var calls' := calls + [call];
    assert forall j :: 0 <= j < |calls| ==> calls'[j] == calls[j];
  }

  /** The item loop at the head of `for (;;)` (line 176), entered with
      the source's `startLine` at `start`: before the first call the scan
      starts after the marker line with `lastLine = start`; after a call
      the calls so far are those `ItemCalls` describes, the item did not
      end after the last one, and the scan resumes where it left the lexer
      with `lastLine = -1`. */
  predicate AtLoopHead(s: Source, sub: (string, nat) -> SubResult, endLine: nat, itemLine: nat,
                       indent: nat, contentStart: nat, start: nat, calls: seq<SubCall>,
                       start': nat, nextLine: nat, lastLine: int, content: nat)
    requires Valid(s) && endLine <= s.lineMax
  {
    && start <= start' <= nextLine <= endLine
    && start' < endLine
    && (calls == [] ==> lastLine == start == start' && nextLine == itemLine + 1 && content == contentStart)
    && (calls != [] ==>
          && ItemCalls(s, sub, endLine, itemLine, indent, contentStart, start, calls)
          && start < start' == After(calls[|calls| - 1])
          && !EndsAfterCall(s, start', endLine)
          && nextLine == ResumeAt(s, start', endLine)
          && lastLine == -1
          && content == EndOf(s, start')
          && ItemMayStopAt(s, nextLine, endLine))
  }

  /** The item loop has ended: the calls are those `ItemCalls` describes,
      the source's `startLine` is where the last one left the lexer, and
      the loop stopped where `ItemEnd` says. */
  predicate ItemDone(s: Source, sub: (string, nat) -> SubResult, endLine: nat, itemLine: nat,
                     indent: nat, contentStart: nat, start: nat, calls: seq<SubCall>,
                     start': nat, nextLine: nat)
    requires Valid(s) && endLine <= s.lineMax
  {
    && ItemCalls(s, sub, endLine, itemLine, indent, contentStart, start, calls)
    && start' == After(calls[|calls| - 1])
    && ItemEnd(s, endLine, indent, calls[|calls| - 1], nextLine)
    && start < start' <= nextLine
    && ItemMayStopAt(s, nextLine, endLine)
  }

  /** One pass of `for (;;)` (lines 176-226): scan; stop when the scan
      found nothing after a call; otherwise call the nested lexer and
      decide whether the item goes on. */
  method ItemStep(s: Source, endLine: nat, sub: (string, nat) -> SubResult,
                  start: nat, itemLine: nat, indent: nat, contentStart: nat,
                  tokens0: seq<Token>, idx: nat, ordered: bool, order: nat,
                  calls: seq<SubCall>, start': nat, nextLine: nat, lastLine: int, content: nat,
                  tokens: seq<Token>)
    returns (calls': seq<SubCall>, start'': nat, nextLine': nat, lastLine': int, content': nat,
             tokens': seq<Token>, done: bool)
    requires Valid(s) && start <= itemLine < endLine <= s.lineMax && idx < |tokens0|
    requires AtLoopHead(s, sub, endLine, itemLine, indent, contentStart, start, calls, start', nextLine, lastLine, content)
    requires tokens == Patched(tokens0, idx, ordered, order, calls) + CallsTokens(calls)
    ensures tokens' == Patched(tokens0, idx, ordered, order, calls') + CallsTokens(calls')
    ensures done ==> ItemDone(s, sub, endLine, itemLine, indent, contentStart, start, calls', start'', nextLine')
    ensures !done ==> start' < start''
    ensures !done ==>
      AtLoopHead(s, sub, endLine, itemLine, indent, contentStart, start, calls', start'', nextLine', lastLine', content')
  {
    var stop, found := Scan(s, nextLine, indent, endLine, lastLine);
    if found < 0 {
      ScanEndsItem(s, sub, endLine, itemLine, indent, contentStart, start, calls, start', nextLine, lastLine, content);
      calls', start'', nextLine', lastLine', content', tokens', done := calls, start', stop, lastLine, content, tokens, true;
      return;
    }
    var call;
    call, tokens' := CallStep(s, sub, start', found, content, indent,
                              tokens0, idx, ordered, order, calls, tokens);
    CallExtends(s, sub, endLine, itemLine, indent, contentStart, start, calls, start', nextLine, lastLine, content, call);
    calls' := calls + [call];
    start'' := After(call);
    lastLine' := -1;
    content' := EndOf(s, start'');
    nextLine', done := Continue(s, start'', endLine);
    AfterCall(s, sub, endLine, itemLine, indent, contentStart, start, calls, call, nextLine', done);
  }

  /** A scan that finds no continuation line ends the item; it happens
      only after a call, since before the first one `lastLine` is
      `start`. */
  lemma ScanEndsItem(s: Source, sub: (string, nat) -> SubResult, endLine: nat, itemLine: nat,
                     indent: nat, contentStart: nat, start: nat, calls: seq<SubCall>,
                     start': nat, nextLine: nat, lastLine: int, content: nat)
    requires Valid(s) && endLine <= s.lineMax
    requires AtLoopHead(s, sub, endLine, itemLine, indent, contentStart, start, calls, start', nextLine, lastLine, content)
    requires ScanItem(s, nextLine, indent, endLine, lastLine).1 < 0
    ensures ItemDone(s, sub, endLine, itemLine, indent, contentStart, start, calls, start',
                     ScanItem(s, nextLine, indent, endLine, lastLine).0)
  {
    assert calls != [];
  }

  /** The call made at the loop head extends the item's calls as
      `ItemCalls` describes. */
  lemma CallExtends(s: Source, sub: (string, nat) -> SubResult, endLine: nat, itemLine: nat,
                    indent: nat, contentStart: nat, start: nat, calls: seq<SubCall>,
                    start': nat, nextLine: nat, lastLine: int, content: nat, call: SubCall)
    requires Valid(s) && endLine <= s.lineMax
    requires AtLoopHead(s, sub, endLine, itemLine, indent, contentStart, start, calls, start', nextLine, lastLine, content)
    requires call.first == start'
    requires call.last as int == ScanItem(s, nextLine, indent, endLine, lastLine).1
    requires CallMade(s, sub, indent, content, call)
    ensures ItemCalls(s, sub, endLine, itemLine, indent, contentStart, start, calls + [call])
  {
    if calls == [] {
      ItemCallsFirst(s, sub, endLine, itemLine, indent, contentStart, start, call);
    } else {
      ItemCallsSnoc(s, sub, endLine, itemLine, indent, contentStart, start, calls, call);
    }
  }

  /** After a call the item either ends as `ItemEnd` says or the loop
      head is reached again. */
  lemma AfterCall(s: Source, sub: (string, nat) -> SubResult, endLine: nat, itemLine: nat,
                  indent: nat, contentStart: nat, start: nat, calls: seq<SubCall>, call: SubCall,
                  nextLine: nat, done: bool)
    requires Valid(s) && endLine <= s.lineMax
    requires ItemCalls(s, sub, endLine, itemLine, indent, contentStart, start, calls + [call])
    requires start <= call.first && After(call) >= 1
    requires done <==> EndsAfterCall(s, After(call), endLine)
    requires done ==> nextLine == (if After(call) >= endLine then After(call) else After(call) + 1)
    requires !done ==> After(call) < endLine && nextLine == ResumeAt(s, After(call), endLine)
    requires After(call) <= nextLine && (!done ==> nextLine <= endLine)
    requires ItemMayStopAt(s, nextLine, endLine)
    ensures done ==> ItemDone(s, sub, endLine, itemLine, indent, contentStart, start, calls + [call], After(call), nextLine)
    ensures !done ==> AtLoopHead(s, sub, endLine, itemLine, indent, contentStart, start, calls + [call],
                                 After(call), nextLine, -1, EndOf(s, After(call)))
  {
    assert (calls + [call])[|calls|] == call;
  }

  /** Lines 171-227 for the item whose marker is on `itemLine`: scan the
      continuation lines, hand them to the nested lexer, and repeat after
      what it consumed while further continuation lines follow.  `start` is
      the source's `startLine` on entry.  The calls made are exactly those
      `ItemCalls` describes, the new `startLine` is where the last one left
      the lexer, and the loop stops where `ItemEnd` says. */
  method ItemLoop(s: Source, endLine: nat, sub: (string, nat) -> SubResult,
                  start: nat, itemLine: nat, indent: nat, contentStart: nat,
                  tokens0: seq<Token>, idx: nat, ordered: bool, order: nat)
    returns (calls: seq<SubCall>, start': nat, nextLine: nat, tokens: seq<Token>)
    requires Valid(s) && start <= itemLine < endLine <= s.lineMax
    requires idx < |tokens0|
    ensures ItemCalls(s, sub, endLine, itemLine, indent, contentStart, start, calls)
    ensures start' == After(calls[|calls| - 1])
    ensures ItemEnd(s, endLine, indent, calls[|calls| - 1], nextLine)
    ensures start < start' <= nextLine
    ensures ItemMayStopAt(s, nextLine, endLine)
    ensures tokens == Patched(tokens0, idx, ordered, order, calls) + CallsTokens(calls)
  {
    var lastLine: int := start;
    var content := contentStart;
    start' := start;
    nextLine := itemLine + 1;
    calls := [];
    tokens := tokens0;
    var done := false;
    while !done
      invariant !done ==> AtLoopHead(s, sub, endLine, itemLine, indent, contentStart, start, calls, start', nextLine, lastLine, content)
      invariant done ==> ItemDone(s, sub, endLine, itemLine, indent, contentStart, start, calls, start', nextLine)
      invariant tokens == Patched(tokens0, idx, ordered, order, calls) + CallsTokens(calls)
      decreases !done, endLine - start'
    {
      calls, start', nextLine, lastLine, content, tokens, done :=
        ItemStep(s, endLine, sub, start, itemLine, indent, contentStart, tokens0, idx, ordered, order,
                 calls, start', nextLine, lastLine, content, tokens);
    }
  }

  /** Lines 212-226 after a call that leaves the lexer at `p`: the item
      ends (`done`) at `endLine` or beyond, or on the second of two blank
      lines; otherwise the scan resumes at `p`, or after it when `p` is
      blank.  Either way the item does not stop on the first of two blank
      lines. */
  method Continue(s: Source, p: nat, endLine: nat) returns (nextLine: nat, done: bool)
    requires Valid(s) && endLine <= s.lineMax && p >= 1
    ensures done <==> EndsAfterCall(s, p, endLine)
    ensures done ==> nextLine == (if p >= endLine then p else p + 1)
    ensures !done ==> p < endLine && nextLine == ResumeAt(s, p, endLine)
    ensures p <= nextLine <= p + 1 && (!done ==> nextLine <= endLine)
    ensures ItemMayStopAt(s, nextLine, endLine)
  {
    nextLine := p;
    done := false;
    if nextLine >= endLine {
      done := true;
      return;
    }
    if IsEmpty(s, nextLine) {
      nextLine := nextLine + 1;
      if nextLine >= endLine || IsEmpty(s, nextLine) {
        done := true;
      }
    }
  }

  lemma AllTightAppend(items: seq<Item>, item: Item)
    ensures AllTight(items + [item]) <==> AllTight(items) && CallsTight(item.calls)
  {
    var items' := items + [item];
    assert forall i :: 0 <= i < |items| ==> items'[i] == items[i];
    assert items'[|items|] == item;
  }

  /** Closing an item: its calls' tokens follow the item-open token, the
      item-close token follows them, and the list-open token is loose once
      any call of any item so far was. */
  lemma ItemTokensStep(before: seq<Token>, ordered: bool, order: nat, items: seq<Item>, item: Item)
    ensures var head := before + [OpenToken(ordered, order, AllTight(items))] + ItemsTokens(items) + [ListItemOpen];
      Patched(head, |before|, ordered, order, item.calls) + CallsTokens(item.calls) + [ListItemClose]
        == before + [OpenToken(ordered, order, AllTight(items + [item]))] + ItemsTokens(items + [item])
  {
    ItemsTokensSnoc(items, item);
    AllTightAppend(items, item);
    var open := OpenToken(ordered, order, AllTight(items));
    var open' := OpenToken(ordered, order, AllTight(items + [item]));
    var head := before + [open] + ItemsTokens(items) + [ListItemOpen];
    var tail := ItemsTokens(items) + [ListItemOpen];
    Regroup(before, open, ItemsTokens(items), [ListItemOpen]);
    assert Patched(head, |before|, ordered, order, item.calls) == before + [open'] + tail by {
      if !CallsTight(item.calls) {
        UpdateAt(before, open, open', tail);
      }
    }
    Regroup5(before, open', ItemsTokens(items), [ListItemOpen], CallsTokens(item.calls), [ListItemClose]);
  }

  lemma ItemsTokensSnoc(items: seq<Item>, item: Item)
    ensures ItemsTokens(items + [item]) == ItemsTokens(items) + ItemTokens(item)
  {
    assert (items + [item])[..|items|] == items;
  }

  lemma Regroup<T>(a: seq<T>, x: T, b: seq<T>, c: seq<T>)
    ensures a + [x] + b + c == a + [x] + (b + c)
  {
  }

  lemma UpdateAt<T>(a: seq<T>, x: T, y: T, b: seq<T>)
    ensures (a + [x] + b)[|a| := y] == a + [y] + b
  {
  }

  lemma Regroup5<T>(a: seq<T>, x: T, b: seq<T>, c: seq<T>, d: seq<T>, e: seq<T>)
    ensures a + [x] + (b + c) + d + e == a + [x] + (b + (c + d + e))
  {
  }


  /** Item `item`, entered with the source's `startLine` at `start`, is what
      lines 137-230 make of the marker on `item.line`: the marker is of the
      list's kind, the continuation indent is the one `ItemLayout` computes
      for it, and the item's nested calls and end line are those the item
      loop makes. */
  predicate ItemOk(s: Source, sub: (string, nat) -> SubResult, endLine: nat, ordered: bool,
                   start: nat, item: Item)
    requires Valid(s) && endLine <= s.lineMax
  {
    && item.line < endLine
    && Marker(s, item.line, ordered) >= 0
    && var layout := ItemLayout(s, item.line, Marker(s, item.line, ordered));
    && item.indent == layout.indent
    && ItemCalls(s, sub, endLine, item.line, item.indent, layout.contentStart, start, item.calls)
    && ItemEnd(s, endLine, item.indent, item.calls[|item.calls| - 1], item.stop)
  }

  /** The source's `startLine` after an item: where its last call left the
      lexer. */
  function ItemAfter(item: Item): nat {
    if item.calls == [] then 0 else After(item.calls[|item.calls| - 1])
  }

  /** The source's `startLine` when the item after `items` is entered. */
  function NextStart(startLine: nat, items: seq<Item>): nat {
    if items == [] then startLine else ItemAfter(items[|items| - 1])
  }

  /** The items of a list that starts on `startLine`: each is made as
      `ItemOk` says, entered where the one before it left `startLine`, and
      each after the first starts on the line where the one before it
      stopped. */
  predicate ItemsOk(s: Source, sub: (string, nat) -> SubResult, endLine: nat, ordered: bool,
                    startLine: nat, items: seq<Item>)
    requires Valid(s) && endLine <= s.lineMax
    decreases |items|
  {
    items == [] ||
      var prev := items[..|items| - 1];
      var item := items[|items| - 1];
      && ItemsOk(s, sub, endLine, ordered, startLine, prev)
      && ItemOk(s, sub, endLine, ordered, NextStart(startLine, prev), item)
      && (prev != [] ==> item.line == prev[|prev| - 1].stop)
  }

  lemma ItemsOkSnoc(s: Source, sub: (string, nat) -> SubResult, endLine: nat, ordered: bool,
                    startLine: nat, items: seq<Item>, item: Item)
    requires Valid(s) && endLine <= s.lineMax
    requires ItemsOk(s, sub, endLine, ordered, startLine, items)
    requires ItemOk(s, sub, endLine, ordered, NextStart(startLine, items), item)
    requires items != [] ==> item.line == items[|items| - 1].stop
    ensures ItemsOk(s, sub, endLine, ordered, startLine, items + [item])
  {
    assert (items + [item])[..|items|] == items;
  }

  /** A list of the given kind may stop at `line`: the end of the range, or
      a line where no item of its kind starts and which is not the first of
      two blank lines. */
  predicate MayEndAt(s: Source, line: nat, endLine: nat, ordered: bool)
    requires Valid(s) && endLine <= s.lineMax && line >= 1
  {
    && (line < endLine ==> Marker(s, line, ordered) < 0)
    && ItemMayStopAt(s, line, endLine)
  }

  /** One pass of the loop of lines 137-230 for the item on `line`, whose
      marker ends at `posAfterMarker`, entered with the source's
      `startLine` at `start`. */
  method OneItem(s: Source, endLine: nat, sub: (string, nat) -> SubResult,
                 start: nat, line: nat, posAfterMarker: nat,
                 before: seq<Token>, items: seq<Item>, ordered: bool, order: nat)
    returns (item: Item, start': nat, nextLine: nat, tokens: seq<Token>)
    requires Valid(s) && start <= line < endLine <= s.lineMax
    requires posAfterMarker == Marker(s, line, ordered) >= 0
    ensures item.line == line
    ensures ItemOk(s, sub, endLine, ordered, start, item)
    ensures start' == ItemAfter(item) && nextLine == item.stop
    ensures start < start' <= nextLine
    ensures ItemMayStopAt(s, nextLine, endLine)
    ensures tokens == before + [OpenToken(ordered, order, AllTight(items + [item]))] + ItemsTokens(items + [item])
  {
    var layout := ItemLayout(s, line, posAfterMarker);
    var head := before + [OpenToken(ordered, order, AllTight(items))] + ItemsTokens(items) + [ListItemOpen];
    var calls, tokens';
    calls, start', nextLine, tokens' :=
      ItemLoop(s, endLine, sub, start, line, layout.indent, layout.contentStart,
               head, |before|, ordered, order);
    item := Item(line, layout.indent, calls, nextLine);
    ItemTokensStep(before, ordered, order, items, item);
    tokens := tokens' + [ListItemClose];
  }

  /** The items of a list whose first marker is on `startLine` (lines
      129-230): the items found, the tokens up to the last item-close token,
      and the line the list ends on, which is where the last item
      stopped. */
  method ListItems(s: Source, startLine: nat, endLine: nat, sub: (string, nat) -> SubResult,
                   before: seq<Token>, ordered: bool, order: nat)
    returns (tokens: seq<Token>, items: seq<Item>, nextLine: nat)
    requires Valid(s) && startLine < endLine <= s.lineMax
    requires Marker(s, startLine, ordered) >= 0
    ensures |items| >= 1 && items[0].line == startLine
    ensures ItemsOk(s, sub, endLine, ordered, startLine, items)
    ensures nextLine == items[|items| - 1].stop
    ensures tokens == before + [OpenToken(ordered, order, AllTight(items))] + ItemsTokens(items)
    ensures startLine < nextLine
    ensures MayEndAt(s, nextLine, endLine, ordered)
  {
    tokens := before + [OpenToken(ordered, order, true)];
    nextLine := startLine;
    var start := startLine;
    items := [];
    while nextLine < endLine
      invariant ListSoFar(s, sub, endLine, ordered, startLine, items, start, nextLine)
      invariant tokens == before + [OpenToken(ordered, order, AllTight(items))] + ItemsTokens(items)
      decreases endLine - start
    {
      var posAfterMarker := Marker(s, nextLine, ordered);
      if posAfterMarker < 0 {
        break;
      }
      items, start, nextLine, tokens :=
        ListStep(s, endLine, sub, startLine, items, start, nextLine, posAfterMarker, before, ordered, order);
    }
  }

  /** The state of the loop of lines 137-230 between two items: the items
      found so far, the line the next one starts from and the line the
      last one stopped on. */
  predicate ListSoFar(s: Source, sub: (string, nat) -> SubResult, endLine: nat, ordered: bool,
                      startLine: nat, items: seq<Item>, start: nat, nextLine: nat)
    requires Valid(s) && endLine <= s.lineMax
  {
    && start <= nextLine
    && start == NextStart(startLine, items)
    && (items == [] ==> nextLine == startLine)
    && (items != [] ==> startLine < start && items[0].line == startLine && nextLine == items[|items| - 1].stop)
    && ItemsOk(s, sub, endLine, ordered, startLine, items)
    && (items != [] ==> ItemMayStopAt(s, nextLine, endLine))
  }

  /** One more item of the list, on `nextLine`. */
  method ListStep(s: Source, endLine: nat, sub: (string, nat) -> SubResult, startLine: nat,
                  items: seq<Item>, start: nat, nextLine: nat, posAfterMarker: nat,
                  before: seq<Token>, ordered: bool, order: nat)
    returns (items': seq<Item>, start': nat, nextLine': nat, tokens: seq<Token>)
    requires Valid(s) && nextLine < endLine <= s.lineMax
    requires ListSoFar(s, sub, endLine, ordered, startLine, items, start, nextLine)
    requires posAfterMarker == Marker(s, nextLine, ordered) >= 0
    ensures ListSoFar(s, sub, endLine, ordered, startLine, items', start', nextLine')
    ensures items' != [] && start < start'
    ensures tokens == before + [OpenToken(ordered, order, AllTight(items'))] + ItemsTokens(items')
  {
    var item;
    item, start', nextLine', tokens := OneItem(s, endLine, sub, start, nextLine, posAfterMarker, before, items, ordered, order);
    ItemsOkSnoc(s, sub, endLine, ordered, startLine, items, item);
    items' := items + [item];
  }

  /** The list rule (lines 79-241).  `sub` stands for the nested block
      lexer run on a cloned state (lines 204-205).  Besides the rule's
      result the method returns the items it found, which the contract
      describes: the list starts at `startLine`; every item is made as
      `ItemOk` says (a marker of the list's kind, the layout's indent, the
      nested calls on exactly the scanned lines and their dedented text),
      and the next item starts where the one before it stopped; the tokens
      are the list-open token (loose exactly when some nested call reported
      loose content), each item's nested tokens between item-open and
      item-close tokens, and the list-close token; the lexer moves to where
      the last item stopped, which is `endLine` or beyond, or a line where
      no item of the list's kind starts and which is not the first of two
      blank lines. */
  method ListRule(s: Source, startLine: nat, endLine: nat, silent: bool,
                  sub: (string, nat) -> SubResult, before: Progress)
    returns (r: Applied, items: seq<Item>)
    requires Valid(s) && startLine < endLine <= s.lineMax
    ensures r.ok <==> ListStart(s, startLine).Some?
    ensures !r.ok || silent ==> r.after == before && items == []
    ensures r.ok && !silent ==>
      var ordered := ListStart(s, startLine).value;
      && |items| >= 1
      && items[0].line == startLine
      && ItemsOk(s, sub, endLine, ordered, startLine, items)
      && r.after.tokens == before.tokens
           + [OpenToken(ordered, Order(s, startLine), AllTight(items))]
           + ItemsTokens(items)
           + [CloseToken(ordered)]
      && r.after.line == items[|items| - 1].stop
      && startLine < r.after.line
      && MayEndAt(s, r.after.line, endLine, ordered)
  {
    var ordered: bool;
    var posAfterMarker := OrderedMarker(s, startLine);
    if posAfterMarker >= 0 {
      ordered := true;
    } else {
      posAfterMarker := BulletMarker(s, startLine);
      if posAfterMarker >= 0 {
        ordered := false;
      } else {
        return Applied(false, before), [];
      }
    }
    if silent {
      return Applied(true, before), [];
    }
    var tokens, nextLine;
    tokens, items, nextLine := ListItems(s, startLine, endLine, sub, before.tokens, ordered, Order(s, startLine));
    tokens := tokens + [CloseToken(ordered)];
    r := Applied(true, Progress(tokens, nextLine));
  }
}
