# markdown-it block rules: fenced code and lists

A Dafny model of two block rules of the markdown-it lexer, with proofs about
them:

- **fences** (`lib/lexer_block/fences.js`). It recognises an opening line of
  at least three backticks or tildes and validates its info string. It then
  searches for the closing line, dedents the content and pushes one `fence`
  token.
- **list** (`lib/lexer_block/list.js`). It covers the two marker scanners
  `skipBulletListMarker` and `skipOrderedListMarker` and the item loop:
  - item layout (`indentAfterMarker`, `indent`);
  - the scan for continuation lines;
  - the dedented text handed to the nested block lexer;
  - the tight/loose patch of the list-open token;
  - the conditions that end an item and the list.

Both rules read an immutable source text through a per-line index. The index
gives, for each line, where it begins (`bMarks`), where it ends (`eMarks`),
its leading spaces (`tShift`), and the number of lines (`lineMax`). Each rule
either declines and changes nothing, or matches and appends tokens and moves
the current line.

## Files

| file | module | contents |
|---|---|---|
| `option.dfy` | `Maybe` | `Option` |
| `jstext.dfy` | `JsText` | the JavaScript string operations the rules use: `trim`, `split(/\s+/)`, `slice`, and the `^ {n}` / `^ {1,n}` multiline replacements, each defined on characters |
| `lineindex.dfy` | `LineIndex` | the source and its line index, what the rules rely on it to satisfy (`Valid`), and the helpers `skipChars`, `skipSpaces`, `isEmpty` and `getLines` |
| `tokens.dfy` | `Tokens` | the tokens, the rule result (`Applied`), and well-nestedness of token lists (`Balanced`) |
| `fences.dfy` | `Fences` | the fence rule |
| `lists.dfy` | `Lists` | the list rule |

The rule is modelled as follows:
- The fence rule is written twice, as pure functions:
  - `FenceRuleAsWritten` follows `fences.js` as written, including its
    search loop, which on an unclosed fence stops one line short of
    `endLine` (lines 42-51, 81 and 87; see "## Findings");
  - `FenceRule` is the corrected rule, in which an unclosed fence takes every
    remaining line of the range. The two agree whenever a closing line
    exists (`FenceRuleAgreesWhenClosed`).
- The list rule is a method `ListRule`. It follows the source's loops:
  - `ListItems` is the outer `while`, one item per `ListStep`;
  - `OneItem` handles one item;
  - `ItemLoop` is the inner `for (;;)`, one pass per `ItemStep`;
  - `CallStep` is one nested lexer call.
- The nested block lexer (`state.clone` + `state.lexerBlock.tokenize`) is a
  parameter `sub: (text, endLine) -> SubResult`. It reports:
  - how many lines it consumed (at least one);
  - whether the content was tight;
  - the tokens it appended.

  `ListRule` also returns the items it found, each with the nested calls made
  for it, so that its contract can describe the tokens.

## Model

| member | source | states |
|---|---|---|
| JsText.Trim | lib/lexer_block/fences.js:32 | the trimmed info string is empty exactly when the text is all whitespace, and otherwise begins and ends with a non-whitespace character |
| JsText.TrimKeepsNonWhitespace | lib/lexer_block/fences.js:32-34 | a non-whitespace character (such as the backtick) occurs in the trimmed string iff it occurs in the untrimmed one, so the backtick check may be read on the raw rest of the line |
| JsText.Words | lib/lexer_block/fences.js:79 | the split yields non-empty words without whitespace, and no words exactly for an all-whitespace string (where the split falls is `WordsSplitAtRuns`) |
| JsText.Params | lib/lexer_block/fences.js:79 | `params` is empty exactly when the info string is empty (a trimmed string is empty iff all whitespace) |
| JsText.WordsKeepText | lib/lexer_block/fences.js:79 | splitting loses only whitespace: the words concatenated equal the info string with its whitespace removed |
| JsText.WordsSplitAtRuns | lib/lexer_block/fences.js:79 | on a string that neither starts nor ends with whitespace, there are separators, one fewer than the words, each a non-empty whitespace run, such that words and separators alternating give back the string: the words are the pieces between maximal whitespace runs |
| JsText.ParamsSplitAtRuns | lib/lexer_block/fences.js:79 | for a non-blank info string, `params` and whitespace-run separators alternating give back the trimmed info string |
| JsText.StripUpTo | lib/lexer_block/fences.js:84 | `^ {1,k}` on one line removes a prefix of at most `k` characters, all spaces, and removes fewer only when the line has no more leading spaces |
| JsText.StripExactByCount | lib/lexer_block/list.js:194-195 | `^ {indent}` on one line removes exactly `indent` spaces when the line has that many leading spaces and otherwise leaves the line unchanged |
| JsText.StripAtLineStartsKeepsText | lib/lexer_block/fences.js:84 | the multiline replacement removes nothing but spaces: with the spaces taken out, the replaced text and the original are equal |
| JsText.StripAtLineStartsLines | lib/lexer_block/fences.js:81-84 | the multiline replacement on newline-terminated lines strips each line independently and keeps every newline |
| JsText.StripAtLineStartsText | lib/lexer_block/list.js:194-195 | the same for lines separated by newlines: each line, the last included, is stripped on its own |
| LineIndex.IsEmptyIffBlank | lib/lexer_block/list.js:181 | `isEmpty` (nothing after the indentation) holds exactly when the line is made of spaces only |
| LineIndex.SliceLines | lib/lexer_block/list.js:194 | on a gap-free index, the slice from inside line `first` to the end of line `last` is the rest of line `first` and the whole lines after it, joined by newlines |
| Tokens.RunAppend | lib/lexer_block/list.js:110-237 | reading tokens in two parts gives the same bracket stack as reading them at once |
| Tokens.BalancedConcat | lib/lexer_block/list.js:174-229 | two well-nested token lists in sequence are well nested |
| Tokens.BalancedWrap | lib/lexer_block/list.js:174-229 | a well-nested list between a matching open and close token is well nested |
| Tokens.BalancedInBrackets | lib/lexer_block/list.js:116-237 | item, bullet-list and ordered-list open/close pairs each wrap a well-nested list into a well-nested list |
| Fences.SkipCharsIsRunLen | lib/lexer_block/fences.js:25-28 | the marker scan measures exactly the leading run of the marker character on the line |
| Fences.OpenAt | lib/lexer_block/fences.js:13-34 | an accepted opener has a fence character, a run of at least three, and no backtick in its info string |
| Fences.OpenAtShape | lib/lexer_block/fences.js:16-34 | the position-level checks accept exactly the lines of `OpensFence` (at least three characters; a fence character; a run of at least three; no backtick after the run, for either character), and record the character, the run length and the trimmed rest |
| Fences.OpenFenceShape | lib/lexer_block/fences.js:13-34 | the same for the opener on a line of the index, read on the line after its indentation |
| Fences.ClosingLineShape | lib/lexer_block/fences.js:55-68 | a line closes the fence iff, after its indentation, its run of the opening character is at least the opening length and only spaces follow it; another character or a shorter run never closes |
| Fences.TrailingSpaces | lib/lexer_block/fences.js:66-68 | `skipSpaces` reaching the end of the line is the same as the rest of the line being all spaces |
| Fences.ScanAsWritten | lib/lexer_block/fences.js:42-72 | the loop as written stops at or after the opener and strictly before `endLine`, so its `nextLine + 1` never passes `endLine` (its relation to the intended search is `ScanAsWrittenVsFindClose`) |
| Fences.FindClose | lib/lexer_block/fences.js:40-72 | the search returns the first closing line after the opener (no line strictly between closes), or `endLine` when there is none before it |
| Fences.ScanAsWrittenVsFindClose | lib/lexer_block/fences.js:42-72 | the loop as written stops on the same closing line as the intended search, but on an unclosed fence it stops at `endLine - 1` instead of `endLine` |
| Fences.Content | lib/lexer_block/fences.js:74-85 | the content loses nothing but spaces: with spaces taken out it equals `getLines` of the same lines, and with no indentation it is `getLines` itself |
| Fences.ContentPerLine | lib/lexer_block/fences.js:74-85 | the content is the lines between opener and close, each with at most `tShift[startLine]` leading spaces removed (fewer if it has fewer) and followed by a newline; with no indentation the lines are copied verbatim |
| Fences.FenceRule | lib/lexer_block/fences.js:11-89 | matches iff the line opens a fence; a non-match and a silent match change nothing; otherwise exactly one fence token is appended, earlier tokens are untouched, and the line moves to `startLine < line <= endLine` |
| Fences.FenceRuleAsWritten | lib/lexer_block/fences.js:11-89 | the rule with the loop as written keeps the same match, silence and single-token guarantees |
| Fences.FenceRuleAgreesWhenClosed | lib/lexer_block/fences.js:42-87 | when a closing line exists in the range, the rule as written and the intended rule produce the same result |
| Fences.FenceRuleAsWrittenDropsLastLine | lib/lexer_block/fences.js:43-87 | on an unclosed fence the rule as written takes the content only up to line `endLine - 1` and resumes at `endLine`, so the last line of the range is lost |
| Fences.FenceRuleKeepsLastLine | lib/lexer_block/fences.js:43-87 | on an unclosed fence the intended rule takes every remaining line of the range as content and resumes at `endLine` |
| Fences.UnclosedExampleLosesLine | lib/lexer_block/fences.js:43-87 | on the two-line text whose first line is three backticks and whose second line is "foo", the rule as written yields a fence with empty content, and the intended rule a fence holding "foo\n" |
| Lists.DigitRun | lib/lexer_block/list.js:52-60 | the length of the leading run of ASCII digits |
| Lists.BulletAt | lib/lexer_block/list.js:12-37 | on success the position after the bullet lies after `pos` and within the line (the accepted shape is `BulletAtShape`) |
| Lists.BulletAtShape | lib/lexer_block/list.js:12-37 | the bullet scan succeeds iff the indentation is at most 3 and the line after it is `*`, `-` or `+` followed by a space or the end of the line; on success it returns the position right after the bullet |
| Lists.ScanOrderedShape | lib/lexer_block/list.js:52-68 | the digit loop stops after the first non-digit, succeeding iff it is `.` or `)` before the end of the line |
| Lists.OrderedAt | lib/lexer_block/list.js:41-76 | on success the position after the delimiter is at least two past `pos` (a digit and a delimiter) and within the line (the accepted shape is `OrderedAtShape`) |
| Lists.OrderedAtShape | lib/lexer_block/list.js:41-76 | the ordered scan succeeds iff the line after its indentation is at least one digit, a `.` or `)`, then a space or the end of the line, with no indentation limit; on success it returns the position right after the delimiter |
| Lists.ListStartShape | lib/lexer_block/list.js:97-104 | a line starts an ordered list iff it has the ordered shape, and a bullet list iff its indentation is at most 3 and it has the bullet shape, ordered being tried first |
| Lists.MarkerEnds | lib/lexer_block/list.js:12-76 | on a line of the index, the marker checks return the position just after the bullet or delimiter |
| Lists.OrderIsDigitValue | lib/lexer_block/list.js:112-114 | the `order` of an ordered list is the decimal value of the first item's digit run |
| Lists.DecimalValueOfDigits | lib/lexer_block/list.js:114 | reading the decimal digits of `n` gives back `n` (the `Number` conversion is a left inverse of printing) |
| Lists.DecimalValueLeadingZero | lib/lexer_block/list.js:114 | leading zeros do not change the value (`01.` is item 1) |
| Lists.ItemLayout | lib/lexer_block/list.js:146-166 | `indentAfterMarker` is within [1,4]; `indent` is the marker's offset in its line plus it; the content starts after the spaces following the marker; continuation lines must reach the content's column when 1-4 spaces separate it from the marker, else one column past the marker |
| Lists.ScanItem | lib/lexer_block/list.js:177-190 | the scan passes exactly blank lines and lines indented at least `indent`, stops at the first other line or the end of the index, and updates `lastLine` to the last passed non-blank line before `endLine` |
| Lists.SubText | lib/lexer_block/list.js:194-202 | the text handed to the nested lexer loses nothing but spaces: with spaces taken out it equals the rest of the source from `contentStart` |
| Lists.SubTextLines | lib/lexer_block/list.js:194-202 | on a gap-free index, the nested lexer's text is the item's lines from `contentStart` to `lastLine`, each with exactly `indent` spaces removed when it has them (else unchanged), joined by newlines and followed by the rest of the source |
| Lists.CallsTokensBalanced | lib/lexer_block/list.js:204-205 | the tokens of a sequence of well-nested nested-lexer outputs are well nested |
| Lists.ItemsTokensBalanced | lib/lexer_block/list.js:174-229 | items, each wrapped in item open/close tokens, form a well-nested list |
| Lists.ListTokensBalanced | lib/lexer_block/list.js:110-237 | the list's tokens (open, items, close of the same kind) are well nested whenever every nested lexer output is |
| Lists.PatchedOnlyLoosens | lib/lexer_block/list.js:214-216 | the patch changes only the list-open token, only to loose, and once loose the token stays loose |
| Lists.PatchedStep | lib/lexer_block/list.js:204-216 | appending one call's tokens and patching keeps the tokens equal to the patched open token followed by all calls' tokens |
| Lists.CallStep | lib/lexer_block/list.js:194-216 | the call covers lines `startLine` to `lastLine`; its text is `SubText` from `contentStart` to the end of `lastLine` dedented by `indent`, its line count is `lastLine - startLine + 1`, its report is exactly what the nested lexer `sub` returns for that text and count (`CallMade`); its tokens are appended and a loose report resets the list-open token |
| Lists.ItemLoop | lib/lexer_block/list.js:171-227 | the calls are exactly those the source makes (`ItemCalls`): the first covers `startLine` to the last continuation line the scan from the line after the marker finds (or `startLine` itself) with text from `contentStart`; each later one starts where the previous left the lexer, when the item did not end there, with text from the end of that line, and covers up to the continuation line the resumed scan finds; `startLine` ends where the last call left the lexer, the loop stops on the line `ItemEnd` names (`endLine` or beyond, the second of two blank lines, or where the scan found no continuation line), never on the first of two blank lines, and the tokens are the patched prefix followed by all calls' tokens |
| Lists.Continue | lib/lexer_block/list.js:218-226 | after a call that leaves the lexer at `p`, the item ends iff `p` reaches `endLine` or `p` and the line after it are blank; otherwise the scan resumes at `p`, or after it when `p` is blank; it never stops on the first of two blank lines |
| Lists.ItemStep | lib/lexer_block/list.js:177-226 | one pass of `for (;;)` keeps the loop state (`AtLoopHead`) and strictly advances `startLine`, or ends the item as `ItemDone` says |
| Lists.AllTightAppend | lib/lexer_block/list.js:214-216 | a list stays tight after another item iff it was tight and all of the item's calls were tight |
| Lists.ItemTokensStep | lib/lexer_block/list.js:174-229 | closing an item extends the list tokens by that item's tokens, with tightness updated |
| Lists.OneItem | lib/lexer_block/list.js:137-230 | the item on the marker line is made as `ItemOk` says: a marker of the list's kind, the continuation indent `ItemLayout` computes for it, the nested calls of `ItemLoop` with text from the layout's content start, and the stop line `ItemEnd` names, which is where the list goes on; the list tokens grow by the item's tokens |
| Lists.ListItems | lib/lexer_block/list.js:129-230 | the first item is on `startLine`; every item is made as `ItemOk` says, entered where the previous one left `startLine`, and starts on the line where the previous one stopped (`ItemsOk`); the list stops where the last item stopped, which is `endLine`, or a line where no marker of the kind starts and which is not the first of two blank lines; the tokens are the list-open token followed by the items |
| Lists.ListStep | lib/lexer_block/list.js:129-230 | one more item keeps the list state (`ListSoFar`: items as `ItemsOk` says, the next item entered where the last one stopped) and strictly advances `startLine` |
| Lists.ListRule | lib/lexer_block/list.js:79-241 | matches iff the line starts a list; a non-match and a silent match change nothing; otherwise the items are those `ItemsOk` describes starting on `startLine`, the tokens gain the list-open token (with `order` for ordered lists, tight iff every nested call was tight), each item between item tokens, and the close token of the same kind, and the line moves to where the last item stopped, past `startLine` and where the list may end |

## Left out

- The nested block lexer and `state.clone` (lib/lexer_block/list.js:204-205)
  are not part of this model. They are the parameter `sub`. The model assumes:
  - `sub` consumes at least one line, which is what makes the item loop end;
  - the clone shares the token list, so the nested tokens land between the
    item tokens;
  - the nested lexer's mode flag is not modelled.
- The helpers module is not part of this model. `skipChars`, `skipSpaces`,
  `isEmpty` and `getLines` are defined in `LineIndex` with their assumed
  meaning:
  - `getLines(a, b)` gives lines `a` to `b - 1`, each followed by a newline.
    This includes a last line of the text that has none.
  - `isEmpty` means that nothing follows the indentation.
- Lists.SubTextLines: requires a gap-free index (each line begins right after
  the previous line's newline). The index builder is not part of this model.
- Fences.ContentPerLine and Lists.SubTextLines also require `PlainLines`: no
  indexed line holds a carriage return, U+2028 or U+2029. The index splits
  lines at `\n` only, while `^` with the `m` flag also matches after those
  characters. On other texts the replacement also strips after them. These
  two lemmas make no per-line claim there; the rules themselves, `Content`
  and `SubText` carry no such requirement.
- `Number` on a long digit string is a floating-point value in JavaScript. The
  model's `order` is the exact natural number, and rounding is not modelled.
- Regular expressions are modelled as explicit per-line space removal and
  whitespace splitting, not by a regular-expression engine.
- JavaScript's full whitespace set for `trim` and `\s` is modelled:
  - tab, vertical tab, form feed and space;
  - no-break space;
  - the line terminators;
  - the byte-order mark;
  - the Unicode space separators.

  Surrogate pairs and any other Unicode handling are not modelled.
- The commented-out `blkLevel` branch (lib/lexer_block/fences.js:46-49) is
  left out. So are the TODO notes about loose detection and about slicing the
  whole rest of the document (lib/lexer_block/list.js:197-200, 210-211). The
  model keeps the text that is handed over; the cost of building it is not
  modelled.
- `endOfList` (lib/lexer_block/list.js:94, 135-137) is never set to true, so
  the model's item loop omits it from the guard.
- The backtick check on the info string (lib/lexer_block/fences.js:34)
  applies to tilde fences as well as backtick fences. Some descriptions of
  the rule restrict it to backtick fences; the model follows the code.
- Lists.ItemLoop: the contract does not exclude one behaviour of the source.
  After a blank line between two items, `lastLine = startLine`
  (lib/lexer_block/list.js:171) makes the next item's first nested call start
  at the blank line. Whether this yields a spurious item depends on the nested
  lexer, which is not part of this model, so it is not claimed as a defect.

## Findings

| source | as written | input that shows it | evidently intended | confidence | as-written member | corrected member |
|---|---|---|---|---|---|---|
| lib/lexer_block/fences.js:43-87 | when no closing line exists, the search loop breaks with `nextLine = endLine - 1`; the content is `getLines(startLine + 1, nextLine)` and the line moves to `nextLine + 1 = endLine`, so the last line of the range belongs neither to the fence nor to any later block | the two lines "three backticks" then "foo" (`endLine = 2`): the fence's content is empty and "foo" is dropped | an unclosed fence takes every remaining line of the range: content "foo\n", next line `endLine` | not executed | Fences.FenceRuleAsWritten, Fences.FenceRuleAsWrittenDropsLastLine, Fences.UnclosedExampleLosesLine | Fences.FenceRule, Fences.FenceRuleKeepsLastLine |
