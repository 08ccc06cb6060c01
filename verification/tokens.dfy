/** The block tokens the fence and list rules emit, the lexer's progress
    (token list and current line), and well-nestedness of a token list. */
module Tokens {
  import opened Maybe

  datatype Token =
    | Fence(params: seq<string>, content: string)
    | BulletListOpen(tight: bool)
    | BulletListClose
    | OrderedListOpen(order: nat, tight: bool)
    | OrderedListClose
    | ListItemOpen
    | ListItemClose
      /** A token of a block rule outside this model; it opens nothing. */
    | Other(name: string)

  /** The part of the lexer state a rule changes: `state.tokens` and `state.line`. */
  datatype Progress = Progress(tokens: seq<Token>, line: int)

  /** What a rule reports: whether it matched, and the state it leaves. */
  datatype Applied = Applied(ok: bool, after: Progress)

  /** The kinds of token pairs that must nest. */
  datatype Bracket = BulletList | OrderedList | ListItem

  /** The effect of one token on the stack of still-open brackets, or
      `None` when it closes something that is not innermost. */
  function Step(stack: seq<Bracket>, t: Token): Option<seq<Bracket>> {
    match t
    case BulletListOpen(_) => Some(stack + [BulletList])
    case OrderedListOpen(_, _) => Some(stack + [OrderedList])
    case ListItemOpen => Some(stack + [ListItem])
    case BulletListClose => Pop(stack, BulletList)
    case OrderedListClose => Pop(stack, OrderedList)
    case ListItemClose => Pop(stack, ListItem)
    case _ => Some(stack)
  }

  function Pop(stack: seq<Bracket>, b: Bracket): Option<seq<Bracket>> {
    if |stack| > 0 && stack[|stack| - 1] == b then Some(stack[..|stack| - 1]) else None
  }

  /** The stack left after reading `ts` from `stack`. */
  function Run(ts: seq<Token>, stack: seq<Bracket>): Option<seq<Bracket>>
    decreases |ts|
  {
    if ts == [] then Some(stack)
    else match Step(stack, ts[0])
      case None => None
      case Some(st) => Run(ts[1..], st)
  }

  /** Every open token has a matching close later on, and pairs do not cross. */
  predicate Balanced(ts: seq<Token>) {
    Run(ts, []) == Some([])
  }

  function Then(r: Option<seq<Bracket>>, ts: seq<Token>): Option<seq<Bracket>> {
    match r
    case None => None
    case Some(st) => Run(ts, st)
  }

  lemma {:induction false} RunAppend(a: seq<Token>, b: seq<Token>, stack: seq<Bracket>)
    ensures Run(a + b, stack) == Then(Run(a, stack), b)
    decreases |a|
  {
    if a == [] {
      assert a + b == b;
    } else {
      assert (a + b)[0] == a[0];
      assert (a + b)[1..] == a[1..] + b;
      match Step(stack, a[0])
      case None =>
      case Some(st) => RunAppend(a[1..], b, st);
    }
  }

  /** Brackets already open below the current ones do not affect a run
      that succeeds on its own. */
  lemma {:induction false} RunUnder(ts: seq<Token>, stack: seq<Bracket>, result: seq<Bracket>, base: seq<Bracket>)
    requires Run(ts, stack) == Some(result)
    ensures Run(ts, base + stack) == Some(base + result)
    decreases |ts|
  {
    if ts != [] {
      var st :| Step(stack, ts[0]) == Some(st);
      assert Step(base + stack, ts[0]) == Some(base + st) by {
        match ts[0]
        case BulletListOpen(_) => assert base + stack + [BulletList] == base + (stack + [BulletList]);
        case OrderedListOpen(_, _) => assert base + stack + [OrderedList] == base + (stack + [OrderedList]);
        case ListItemOpen => assert base + stack + [ListItem] == base + (stack + [ListItem]);
        case BulletListClose => assert (base + stack)[..|base + stack| - 1] == base + stack[..|stack| - 1];
        case OrderedListClose => assert (base + stack)[..|base + stack| - 1] == base + stack[..|stack| - 1];
        case ListItemClose => assert (base + stack)[..|base + stack| - 1] == base + stack[..|stack| - 1];
        case _ =>
      }
      RunUnder(ts[1..], st, result, base);
    }
  }

  lemma BalancedConcat(a: seq<Token>, b: seq<Token>)
    requires Balanced(a) && Balanced(b)
    ensures Balanced(a + b)
  {
    RunAppend(a, b, []);
  }

  /** A balanced list wrapped in a matching open/close pair is balanced. */
  lemma BalancedWrap(open: Token, inner: seq<Token>, close: Token, b: Bracket)
    requires Balanced(inner)
    requires Step([], open) == Some([b]) && Step([b], close) == Some([])
    ensures Balanced([open] + inner + [close])
  {
    RunUnder(inner, [], [], [b]);
    assert [b] + [] == [b];
    assert Run([open], []) == Some([b]);
    RunAppend([open], inner, []);
    assert Run([open] + inner, []) == Some([b]);
    assert Run([close], [b]) == Some([]);
    RunAppend([open] + inner, [close], []);
  }

  /** The three bracket kinds wrap balanced lists into balanced lists. */
  lemma BalancedInBrackets(inner: seq<Token>, order: nat, tight: bool)
    requires Balanced(inner)
    ensures Balanced([ListItemOpen] + inner + [ListItemClose])
    ensures Balanced([BulletListOpen(tight)] + inner + [BulletListClose])
    ensures Balanced([OrderedListOpen(order, tight)] + inner + [OrderedListClose])
  {
    assert [ListItem][..0] == [] && [] + [ListItem] == [ListItem];
    BalancedWrap(ListItemOpen, inner, ListItemClose, ListItem);
    assert [BulletList][..0] == [] && [] + [BulletList] == [BulletList];
    BalancedWrap(BulletListOpen(tight), inner, BulletListClose, BulletList);
    assert [OrderedList][..0] == [] && [] + [OrderedList] == [OrderedList];
    BalancedWrap(OrderedListOpen(order, tight), inner, OrderedListClose, OrderedList);
  }
}
