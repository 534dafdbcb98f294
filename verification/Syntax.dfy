/**
 * Operator expressions as trees and as token sequences, and how a grammar with
 * operator precedences reads the tokens. Operators are their spellings, as in
 * the source's BinaryOp and UnaryOp string types.
 */
module Syntax {

  datatype Token = Name(text: string) | Operator(spelling: string) | Open | Close | Comma

  /** An expression as written, parentheses included. */
  datatype Written =
    | Word(text: string)
    | Paren(inner: Written)
    | Prefix(op: string, operand: Written)
    | Infix(left: Written, op: string, right: Written)
    | Invoke(callee: string, args: seq<Written>)

  /** An expression; Text is one kept as the source it was written as. */
  datatype Expr =
    | Atom(text: string)
    | Text(source: Written)
    | Unary(op: string, operand: Expr)
    | Binary(left: Expr, op: string, right: Expr)
    | Call(callee: string, args: seq<Expr>)

  /**
   * How tightly a grammar binds each binary operator, which of them group to the
   * right, and the loosest binary operator an operand of a unary one may hold.
   */
  datatype Grammar = Grammar(precedence: string -> nat, groupsRight: string -> bool, unary: nat)

  // ------------------------------------------------------------- tokens

  function Tokens(w: Written): seq<Token> {
    match w
    case Word(text) => [Name(text)]
    case Paren(inner) => [Open] + Tokens(inner) + [Close]
    case Prefix(op, operand) => [Operator(op)] + Tokens(operand)
    case Infix(left, op, right) => Tokens(left) + [Operator(op)] + Tokens(right)
    case Invoke(callee, args) => [Name(callee), Open] + ArgTokens(args) + [Close]
  }

  function ArgTokens(args: seq<Written>): seq<Token> {
    if args == [] then []
    else if |args| == 1 then Tokens(args[0])
    else Tokens(args[0]) + [Comma] + ArgTokens(args[1..])
  }

  /** The expression a written one stands for: parentheses only group. */
  function Erase(w: Written): Expr {
    match w
    case Word(text) => Atom(text)
    case Paren(inner) => Erase(inner)
    case Prefix(op, operand) => Unary(op, Erase(operand))
    case Infix(left, op, right) => Binary(Erase(left), op, Erase(right))
    case Invoke(callee, args) => Call(callee, EraseAll(args))
  }

  function EraseAll(args: seq<Written>): seq<Expr> {
    if args == [] then [] else [Erase(args[0])] + EraseAll(args[1..])
  }

  // ------------------------------------------------------------- parsing

  datatype Parsed<+T> = Parsed(value: T, rest: seq<Token>) | Failed

  /** The loosest operator the right operand of op may hold unparenthesised. */
  function RightMin(g: Grammar, op: string): nat {
    if g.groupsRight(op) then g.precedence(op) else g.precedence(op) + 1
  }

  /** Reads an expression of operators no looser than min. */
  function ParseExpr(g: Grammar, tokens: seq<Token>, min: nat): (r: Parsed<Expr>)
    ensures r.Parsed? ==> |r.rest| < |tokens|
    decreases |tokens|, 1
  {
    match ParseOperand(g, tokens)
    case Failed => Failed
    case Parsed(left, rest) => ParseTail(g, left, rest, min)
  }

  /** Extends left by the operators, no looser than min, that follow it. */
  function ParseTail(g: Grammar, left: Expr, tokens: seq<Token>, min: nat): (r: Parsed<Expr>)
    ensures r.Parsed? ==> |r.rest| <= |tokens|
    decreases |tokens|, 1
  {
    if tokens != [] && tokens[0].Operator? && g.precedence(tokens[0].spelling) >= min then
      var op := tokens[0].spelling;
      match ParseExpr(g, tokens[1..], RightMin(g, op))
      case Failed => Failed
      case Parsed(right, rest) => ParseTail(g, Binary(left, op, right), rest, min)
    else
      Parsed(left, tokens)
  }

  function ParseOperand(g: Grammar, tokens: seq<Token>): (r: Parsed<Expr>)
    ensures r.Parsed? ==> |r.rest| < |tokens|
    decreases |tokens|, 0
  {
    if tokens == [] then Failed else
      match tokens[0]
      case Name(text) =>
        if |tokens| > 1 && tokens[1].Open? then
          match ParseArgs(g, tokens[2..])
          case Failed => Failed
          case Parsed(args, rest) => Parsed(Call(text, args), rest)
        else
          Parsed(Atom(text), tokens[1..])
      case Operator(op) =>
        (match ParseExpr(g, tokens[1..], g.unary)
         case Failed => Failed
         case Parsed(operand, rest) => Parsed(Unary(op, operand), rest))
      case Open =>
        (match ParseExpr(g, tokens[1..], 0)
         case Failed => Failed
         case Parsed(inner, rest) => if rest != [] && rest[0].Close? then Parsed(inner, rest[1..]) else Failed)
      case Close => Failed
      case Comma => Failed
  }

  /** Reads a call's arguments up to and including its closing parenthesis. */
  function ParseArgs(g: Grammar, tokens: seq<Token>): (r: Parsed<seq<Expr>>)
    ensures r.Parsed? ==> |r.rest| < |tokens|
    decreases |tokens|, 3
  {
    if tokens == [] then Failed
    else if tokens[0].Close? then Parsed([], tokens[1..])
    else ParseMoreArgs(g, tokens)
  }

  function ParseMoreArgs(g: Grammar, tokens: seq<Token>): (r: Parsed<seq<Expr>>)
    ensures r.Parsed? ==> |r.rest| < |tokens|
    decreases |tokens|, 2
  {
    match ParseExpr(g, tokens, 0)
    case Failed => Failed
    case Parsed(first, rest) =>
      if rest == [] then Failed
      else if rest[0].Close? then Parsed([first], rest[1..])
      else if rest[0].Comma? then
        match ParseMoreArgs(g, rest[1..])
        case Failed => Failed
        case Parsed(more, after) => Parsed([first] + more, after)
      else Failed
  }

  function Parse(g: Grammar, tokens: seq<Token>): Parsed<Expr> {
    match ParseExpr(g, tokens, 0)
    case Failed => Failed
    case Parsed(e, rest) => if rest == [] then Parsed(e, []) else Failed
  }

  // ------------------------------------------------------------- reading

  /** Nothing at the right edge of w takes an operator op that follows w. */
  ghost predicate Releases(g: Grammar, w: Written, op: string) {
    match w
    case Word(_) => true
    case Paren(_) => true
    case Prefix(_, operand) => g.precedence(op) < g.unary && Releases(g, operand, op)
    case Infix(_, o, right) => g.precedence(op) < RightMin(g, o) && Releases(g, right, op)
    case Invoke(_, _) => true
  }

  /** Unless parenthesised, w is built by an operator no looser than min. */
  ghost predicate Fits(g: Grammar, w: Written, min: nat) {
    w.Infix? ==> g.precedence(w.op) >= min
  }

  /** The parentheses of w are enough for the grammar to group it as w does. */
  ghost predicate Reading(g: Grammar, w: Written) {
    match w
    case Word(_) => true
    case Paren(inner) => Reading(g, inner)
    case Prefix(_, operand) => Reading(g, operand) && Fits(g, operand, g.unary)
    case Infix(left, op, right) =>
      && Reading(g, left) && Releases(g, left, op) && Fits(g, left, g.precedence(op))
      && Reading(g, right) && Fits(g, right, RightMin(g, op))
    case Invoke(_, args) => forall i :: 0 <= i < |args| ==> Reading(g, args[i])
  }

  /** What comes after an expression: no call, and no operator its right edge would take. */
  ghost predicate Continues(g: Grammar, w: Written, rest: seq<Token>) {
    rest != [] ==> !rest[0].Open? && (rest[0].Operator? ==> Releases(g, w, rest[0].spelling))
  }

  lemma {:induction false} OperandReadsBack(g: Grammar, w: Written, rest: seq<Token>)
    requires Reading(g, w) && !w.Infix? && Continues(g, w, rest)
    ensures ParseOperand(g, Tokens(w) + rest) == Parsed(Erase(w), rest)
    decreases w, 0
  {
    match w
    case Word(_) =>
      assert (Tokens(w) + rest)[1..] == rest;
    case Paren(inner) =>
      ExprReadsBack(g, inner, [Close] + rest, 0);
      ParenReadsBack(g, inner, rest);
    case Prefix(op, operand) =>
      assert (Tokens(w) + rest)[1..] == Tokens(operand) + rest;
      ExprReadsBack(g, operand, rest, g.unary);
    case Invoke(callee, args) =>
      if args != [] {
        ArgsReadBack(g, args, rest, w);
      }
      ArgListReadsBack(g, args, rest);
      hide ParseArgs, ArgTokens, EraseAll;
      assert (Tokens(w) + rest)[2..] == ArgTokens(args) + ([Close] + rest);
  }

  lemma ParenReadsBack(g: Grammar, inner: Written, rest: seq<Token>)
    requires ParseExpr(g, Tokens(inner) + ([Close] + rest), 0) == ParseTail(g, Erase(inner), [Close] + rest, 0)
    ensures ParseOperand(g, Tokens(Paren(inner)) + rest) == Parsed(Erase(Paren(inner)), rest)
  {
    TailStops(g, Erase(inner), rest);
    hide ParseExpr, ParseTail;
    var tokens := Tokens(Paren(inner)) + rest;
    assert tokens[1..] == Tokens(inner) + ([Close] + rest);
    assert ([Close] + rest)[1..] == rest;
  }

  lemma TailStops(g: Grammar, e: Expr, rest: seq<Token>)
    ensures ParseTail(g, e, [Close] + rest, 0) == Parsed(e, [Close] + rest)
  {
    hide ParseExpr;
  }

  lemma ArgListReadsBack(g: Grammar, args: seq<Written>, rest: seq<Token>)
    requires args != [] ==> ParseMoreArgs(g, ArgTokens(args) + ([Close] + rest)) == Parsed(EraseAll(args), rest)
    ensures ParseArgs(g, ArgTokens(args) + ([Close] + rest)) == Parsed(EraseAll(args), rest)
  {
    var tokens := ArgTokens(args) + ([Close] + rest);
    if args == [] {
      assert tokens[1..] == rest;
    } else {
      TokensStartOperand(args[0]);
      ArgTokensStart(args);
      assert tokens[0] == Tokens(args[0])[0];
    }
  }

  lemma {:induction false} ExprReadsBack(g: Grammar, w: Written, rest: seq<Token>, min: nat)
    requires Reading(g, w) && Fits(g, w, min) && Continues(g, w, rest)
    ensures ParseExpr(g, Tokens(w) + rest, min) == ParseTail(g, Erase(w), rest, min)
    decreases w, 1
  {
    if w.Infix? {
      var Infix(left, op, right) := w;
      var tail := [Operator(op)] + Tokens(right) + rest;
      assert Tokens(w) + rest == Tokens(left) + tail;
      ExprReadsBack(g, left, tail, min);
      assert tail[1..] == Tokens(right) + rest;
      ExprReadsBack(g, right, rest, RightMin(g, op));
    } else {
      OperandReadsBack(g, w, rest);
    }
  }

  lemma {:induction false} ArgsReadBack(g: Grammar, args: seq<Written>, rest: seq<Token>, w: Written)
    requires args != [] && forall i :: 0 <= i < |args| ==> Reading(g, args[i]) && args[i] < w
    ensures ParseMoreArgs(g, ArgTokens(args) + ([Close] + rest)) == Parsed(EraseAll(args), rest)
    decreases w, 0, |args|
  {
    if |args| == 1 {
      ExprReadsBack(g, args[0], [Close] + rest, 0);
      OneArgReadsBack(g, args[0], rest);
      assert args == [args[0]];
    } else {
      var more := ArgTokens(args[1..]) + ([Close] + rest);
      ExprReadsBack(g, args[0], [Comma] + more, 0);
      ArgsReadBack(g, args[1..], rest, w);
      NextArgReadsBack(g, args, rest);
    }
  }

  lemma OneArgReadsBack(g: Grammar, arg: Written, rest: seq<Token>)
    requires ParseExpr(g, Tokens(arg) + ([Close] + rest), 0) == ParseTail(g, Erase(arg), [Close] + rest, 0)
    ensures ParseMoreArgs(g, ArgTokens([arg]) + ([Close] + rest)) == Parsed(EraseAll([arg]), rest)
  {
    hide ParseExpr, Erase, Tokens;
    assert ([Close] + rest)[1..] == rest;
    assert EraseAll([arg]) == [Erase(arg)];
    assert ArgTokens([arg]) == Tokens(arg);
  }

  lemma NextArgReadsBack(g: Grammar, args: seq<Written>, rest: seq<Token>)
    requires |args| > 1
    requires var more := ArgTokens(args[1..]) + ([Close] + rest);
      && ParseExpr(g, Tokens(args[0]) + ([Comma] + more), 0) == ParseTail(g, Erase(args[0]), [Comma] + more, 0)
      && ParseMoreArgs(g, more) == Parsed(EraseAll(args[1..]), rest)
    ensures ParseMoreArgs(g, ArgTokens(args) + ([Close] + rest)) == Parsed(EraseAll(args), rest)
  {
    hide ParseExpr, Erase, Tokens;
    var more := ArgTokens(args[1..]) + ([Close] + rest);
    assert ArgTokens(args) + ([Close] + rest) == Tokens(args[0]) + ([Comma] + more);
    assert ([Comma] + more)[1..] == more;
  }

  /** An expression's first token can start an operand. */
  lemma TokensStartOperand(w: Written)
    ensures Tokens(w) != [] && !Tokens(w)[0].Close? && !Tokens(w)[0].Comma?
  {
  }

  lemma ArgTokensStart(args: seq<Written>)
    requires args != []
    ensures ArgTokens(args) != [] && ArgTokens(args)[0] == Tokens(args[0])[0]
  {
    TokensStartOperand(args[0]);
  }

  /** A grammar reads tokens that have enough parentheses back as the tree they were written for. */
  lemma ReadsBack(g: Grammar, w: Written)
    requires Reading(g, w)
    ensures Parse(g, Tokens(w)) == Parsed(Erase(w), [])
  {
    assert Tokens(w) + [] == Tokens(w);
    ExprReadsBack(g, w, [], 0);
  }

  /** Two ways of writing the same tokens that both group as the grammar does are the same expression. */
  lemma Unambiguous(g: Grammar, v: Written, w: Written)
    requires Reading(g, v) && Reading(g, w) && Tokens(v) == Tokens(w)
    ensures Erase(v) == Erase(w)
  {
    ReadsBack(g, v);
    ReadsBack(g, w);
  }
}
