/**
 * What a grammar reads: exactly the token sequences of writings whose parentheses
 * are enough for it, each as the expression it was written for.
 */
module Parsing {
  import opened Syntax

  // ------------------------------------------------ every parse is a reading

  /** Where reading stopped: at no operator that min or the right edge of w would take. */
  ghost predicate Stops(g: Grammar, w: Written, rest: seq<Token>, min: nat) {
    rest != [] && rest[0].Operator? ==> g.precedence(rest[0].spelling) < min && Releases(g, w, rest[0].spelling)
  }

  ghost predicate Read(g: Grammar, w: Written, tokens: seq<Token>, value: Expr, rest: seq<Token>) {
    Reading(g, w) && tokens == Tokens(w) + rest && Erase(w) == value
  }

  lemma {:induction false} ParseExprReads(g: Grammar, tokens: seq<Token>, min: nat) returns (w: Written)
    requires ParseExpr(g, tokens, min).Parsed?
    ensures var r := ParseExpr(g, tokens, min); Read(g, w, tokens, r.value, r.rest) && Fits(g, w, min) && Stops(g, w, r.rest, min)
    decreases |tokens|, 1
  {
    hide Reading, Releases, Tokens;
    var left := ParseOperandReads(g, tokens);
    var r := ParseOperand(g, tokens);
    w := ParseTailReads(g, left, r.rest, min);
    assert tokens == Tokens(left) + r.rest;
    Extends(g, tokens, left, r.rest, w, ParseExpr(g, tokens, min).rest);
  }

  /** What is read of left and of the tokens after it is read of them together. */
  lemma Extends(g: Grammar, tokens: seq<Token>, left: Written, after: seq<Token>, w: Written, rest: seq<Token>)
    requires tokens == Tokens(left) + after && Tokens(left) + after == Tokens(w) + rest
    ensures tokens == Tokens(w) + rest
  {
  }

  lemma InfixReads(g: Grammar, left: Written, op: string, right: Written, rest: seq<Token>, min: nat)
    requires Reading(g, left) && Releases(g, left, op) && Fits(g, left, g.precedence(op)) && g.precedence(op) >= min
    requires Reading(g, right) && Fits(g, right, RightMin(g, op)) && Stops(g, right, rest, RightMin(g, op))
    ensures var w := Infix(left, op, right); Reading(g, w) && Fits(g, w, min) && Leads(g, w, rest)
  {
  }

  /** An operator that follows w can take it for its left operand. */
  ghost predicate Leads(g: Grammar, w: Written, rest: seq<Token>) {
    rest != [] && rest[0].Operator? ==> Releases(g, w, rest[0].spelling) && Fits(g, w, g.precedence(rest[0].spelling))
  }

  lemma InfixTokens(left: Written, op: string, right: Written, tokens: seq<Token>, rest: seq<Token>)
    requires tokens != [] && tokens[0] == Operator(op) && tokens[1..] == Tokens(right) + rest
    ensures Tokens(Infix(left, op, right)) + rest == Tokens(left) + tokens
    ensures Erase(Infix(left, op, right)) == Binary(Erase(left), op, Erase(right))
  {
    assert tokens == [Operator(op)] + tokens[1..];
    hide Erase;
    assert Tokens(Infix(left, op, right)) == Tokens(left) + [Operator(op)] + Tokens(right);
  }

  lemma TailGoesOn(g: Grammar, left: Expr, tokens: seq<Token>, min: nat)
    requires tokens != [] && tokens[0].Operator? && g.precedence(tokens[0].spelling) >= min && ParseTail(g, left, tokens, min).Parsed?
    ensures var op := tokens[0].spelling;
            var r := ParseExpr(g, tokens[1..], RightMin(g, op));
            r.Parsed? && ParseTail(g, left, tokens, min) == ParseTail(g, Binary(left, op, r.value), r.rest, min)
  {
    hide ParseExpr, RightMin;
  }

  lemma TailStopsHere(g: Grammar, left: Written, tokens: seq<Token>, min: nat)
    requires !(tokens != [] && tokens[0].Operator? && g.precedence(tokens[0].spelling) >= min)
    requires Leads(g, left, tokens) && Reading(g, left)
    ensures ParseTail(g, Erase(left), tokens, min) == Parsed(Erase(left), tokens)
    ensures Stops(g, left, tokens, min) && Read(g, left, Tokens(left) + tokens, Erase(left), tokens)
  {
    hide ParseExpr, Releases, Reading;
  }

  lemma {:induction false} ParseTailReads(g: Grammar, left: Written, tokens: seq<Token>, min: nat) returns (w: Written)
    requires ParseTail(g, Erase(left), tokens, min).Parsed? && Reading(g, left) && Fits(g, left, min) && Leads(g, left, tokens)
    ensures var r := ParseTail(g, Erase(left), tokens, min);
            Read(g, w, Tokens(left) + tokens, r.value, r.rest) && Fits(g, w, min) && Stops(g, w, r.rest, min)
    decreases |tokens|, 1
  {
    if tokens != [] && tokens[0].Operator? && g.precedence(tokens[0].spelling) >= min {
      var op := tokens[0].spelling;
      assert Releases(g, left, op) && Fits(g, left, g.precedence(op));
      hide *;
      TailGoesOn(g, Erase(left), tokens, min);
      var right := ParseExprReads(g, tokens[1..], RightMin(g, op));
      var r := ParseExpr(g, tokens[1..], RightMin(g, op));
      ReadParts(g, right, tokens[1..], r.value, r.rest);
      InfixReads(g, left, op, right, r.rest, min);
      InfixTokens(left, op, right, tokens, r.rest);
      w := ParseTailReads(g, Infix(left, op, right), r.rest, min);
    } else {
      TailStopsHere(g, left, tokens, min);
      w := left;
    }
  }

  lemma ReadParts(g: Grammar, w: Written, tokens: seq<Token>, value: Expr, rest: seq<Token>)
    requires Read(g, w, tokens, value, rest)
    ensures Reading(g, w) && tokens == Tokens(w) + rest && Erase(w) == value
  {
  }

  lemma WrappedTokens(inner: Written, tokens: seq<Token>, rest: seq<Token>)
    requires tokens != [] && tokens[0].Open? && tokens[1..] == Tokens(inner) + ([Close] + rest)
    ensures tokens == Tokens(Paren(inner)) + rest
  {
    hide Erase;
    assert tokens == [Open] + tokens[1..];
    assert Tokens(Paren(inner)) == [Open] + Tokens(inner) + [Close];
  }

  lemma PrefixTokens(op: string, operand: Written, tokens: seq<Token>, rest: seq<Token>)
    requires tokens != [] && tokens[0] == Operator(op) && tokens[1..] == Tokens(operand) + rest
    ensures tokens == Tokens(Prefix(op, operand)) + rest
  {
    assert tokens == [Operator(op)] + tokens[1..];
    assert Tokens(Prefix(op, operand)) == [Operator(op)] + Tokens(operand);
  }

  lemma InvokeTokens(callee: string, args: seq<Written>, tokens: seq<Token>, rest: seq<Token>)
    requires |tokens| > 1 && tokens[0] == Name(callee) && tokens[1].Open? && tokens[2..] == ArgTokens(args) + [Close] + rest
    ensures tokens == Tokens(Invoke(callee, args)) + rest
  {
    hide ArgTokens;
    assert tokens == [Name(callee), Open] + tokens[2..];
    assert Tokens(Invoke(callee, args)) == [Name(callee), Open] + ArgTokens(args) + [Close];
  }

  lemma {:induction false} ParseOperandReads(g: Grammar, tokens: seq<Token>) returns (w: Written)
    requires ParseOperand(g, tokens).Parsed?
    ensures var r := ParseOperand(g, tokens);
            Read(g, w, tokens, r.value, r.rest) && !w.Infix? && (r.rest != [] && r.rest[0].Operator? ==> Releases(g, w, r.rest[0].spelling))
    decreases |tokens|, 0
  {
    hide ParseExpr, ParseArgs, Tokens;
    var r := ParseOperand(g, tokens);
    match tokens[0]
    case Name(text) =>
      if |tokens| > 1 && tokens[1].Open? {
        var args := ParseArgsReads(g, tokens[2..]);
        w := Invoke(text, args);
        InvokeTokens(text, args, tokens, r.rest);
      } else {
        w := Word(text);
        WordTokens(text, tokens);
      }
    case Operator(op) =>
      var operand := ParseExprReads(g, tokens[1..], g.unary);
      w := Prefix(op, operand);
      PrefixTokens(op, operand, tokens, r.rest);
    case Open =>
      var inner := ParseExprReads(g, tokens[1..], 0);
      var rest := ParseExpr(g, tokens[1..], 0).rest;
      w := Paren(inner);
      assert rest == [Close] + r.rest;
      WrappedTokens(inner, tokens, r.rest);
  }

  lemma WordTokens(text: string, tokens: seq<Token>)
    requires tokens != [] && tokens[0] == Name(text)
    ensures tokens == Tokens(Word(text)) + tokens[1..]
  {
  }

  lemma {:induction false} ParseArgsReads(g: Grammar, tokens: seq<Token>) returns (args: seq<Written>)
    requires ParseArgs(g, tokens).Parsed?
    ensures var r := ParseArgs(g, tokens);
            && (forall i :: 0 <= i < |args| ==> Reading(g, args[i])) && EraseAll(args) == r.value
            && tokens == ArgTokens(args) + [Close] + r.rest
    decreases |tokens|, 3
  {
    if tokens[0].Close? {
      args := [];
      assert tokens == [tokens[0]] + tokens[1..];
    } else {
      args := ParseMoreArgsReads(g, tokens);
    }
  }

  lemma LastArgTokens(first: Written, tokens: seq<Token>, rest: seq<Token>)
    requires tokens == Tokens(first) + rest && rest != [] && rest[0].Close?
    ensures tokens == ArgTokens([first]) + [Close] + rest[1..] && EraseAll([first]) == [Erase(first)]
  {
    hide Tokens, Erase;
    assert rest == [Close] + rest[1..];
    assert ArgTokens([first]) == Tokens(first);
  }

  lemma NextArgTokens(first: Written, more: seq<Written>, tokens: seq<Token>, rest: seq<Token>, after: seq<Token>)
    requires tokens == Tokens(first) + rest && rest != [] && rest[0].Comma? && more != []
    requires rest[1..] == ArgTokens(more) + [Close] + after
    ensures tokens == ArgTokens([first] + more) + [Close] + after && EraseAll([first] + more) == [Erase(first)] + EraseAll(more)
  {
    hide Tokens, Erase;
    assert rest == [Comma] + rest[1..];
    assert ([first] + more)[1..] == more;
    assert ArgTokens([first] + more) == Tokens(first) + [Comma] + ArgTokens(more);
  }

  lemma {:induction false} ParseMoreArgsReads(g: Grammar, tokens: seq<Token>) returns (args: seq<Written>)
    requires ParseMoreArgs(g, tokens).Parsed?
    ensures var r := ParseMoreArgs(g, tokens);
            && args != [] && (forall i :: 0 <= i < |args| ==> Reading(g, args[i])) && EraseAll(args) == r.value
            && tokens == ArgTokens(args) + [Close] + r.rest
    decreases |tokens|, 2
  {
    hide Reading, Tokens, Releases, ParseExpr, ArgTokens, EraseAll;
    var first := ParseExprReads(g, tokens, 0);
    var rest := ParseExpr(g, tokens, 0).rest;
    if rest[0].Close? {
      args := [first];
      LastArgTokens(first, tokens, rest);
    } else {
      var more := ParseMoreArgsReads(g, rest[1..]);
      args := [first] + more;
      NextArgTokens(first, more, tokens, rest, ParseMoreArgs(g, tokens).rest);
    }
  }

  /** A grammar reads a token sequence as an expression exactly when it is a writing of it with enough parentheses. */
  lemma ParsesExactlyReadings(g: Grammar, tokens: seq<Token>, e: Expr)
    ensures Parse(g, tokens) == Parsed(e, []) <==> exists w :: Reading(g, w) && Tokens(w) == tokens && Erase(w) == e
  {
    if Parse(g, tokens) == Parsed(e, []) {
      var w := ParseExprReads(g, tokens, 0);
      assert Tokens(w) + [] == Tokens(w);
    }
    if w :| Reading(g, w) && Tokens(w) == tokens && Erase(w) == e {
      ReadsBack(g, w);
    }
  }

  // ------------------------------------- tokens and tree determine the writing

  function Depth(s: seq<Token>): int {
    if s == [] then 0 else
      var last := s[|s| - 1];
      Depth(s[..|s| - 1]) + if last.Open? then 1 else if last.Close? then -1 else 0
  }

  /** How many names and operators there are. */
  function Solid(s: seq<Token>): nat {
    if s == [] then 0 else
      var last := s[|s| - 1];
      Solid(s[..|s| - 1]) + if last.Name? || last.Operator? then 1 else 0
  }

  lemma {:induction false} CountsAppend(a: seq<Token>, b: seq<Token>)
    ensures Depth(a + b) == Depth(a) + Depth(b) && Solid(a + b) == Solid(a) + Solid(b)
  {
    if b == [] {
      assert a + b == a;
    } else {
      CountsAppend(a, b[..|b| - 1]);
      assert (a + b)[..|a + b| - 1] == a + b[..|b| - 1];
    }
  }

  lemma CountsOfOne(t: Token)
    ensures Depth([t]) == (if t.Open? then 1 else if t.Close? then -1 else 0) && Solid([t]) == if t.Name? || t.Operator? then 1 else 0
  {
    assert [t][..0] == [];
  }

  /** No parenthesis closes before it opens, and each one closes. */
  ghost predicate Balanced(s: seq<Token>) {
    Depth(s) == 0 && forall k :: 0 <= k <= |s| ==> Depth(s[..k]) >= 0
  }

  lemma BalancedAppends(a: seq<Token>, b: seq<Token>)
    requires Balanced(a) && Balanced(b)
    ensures Balanced(a + b)
  {
    CountsAppend(a, b);
    forall k | 0 <= k <= |a + b| ensures Depth((a + b)[..k]) >= 0 {
      if k <= |a| {
        assert (a + b)[..k] == a[..k];
      } else {
        assert (a + b)[..k] == a + b[..k - |a|];
        CountsAppend(a, b[..k - |a|]);
      }
    }
  }

  lemma BalancedOne(t: Token)
    requires !t.Open? && !t.Close?
    ensures Balanced([t])
  {
    CountsOfOne(t);
    assert [t][..0] == [] && [t][..1] == [t];
  }

  lemma BalancedWrapped(a: seq<Token>)
    requires Balanced(a)
    ensures Balanced([Open] + a + [Close])
  {
    var s := [Open] + a + [Close];
    CountsOfOne(Open);
    CountsOfOne(Close);
    CountsAppend([Open], a);
    CountsAppend([Open] + a, [Close]);
    forall k | 0 <= k <= |s| ensures Depth(s[..k]) >= 0 {
      if k == 0 {
        assert s[..k] == [];
      } else if k <= |a| + 1 {
        assert s[..k] == [Open] + a[..k - 1];
        CountsAppend([Open], a[..k - 1]);
      } else {
        assert s[..k] == s;
      }
    }
  }

  /** How many names and operators an expression has. */
  function Weight(e: Expr): nat {
    match e
    case Atom(_) => 1
    case Text(_) => 0
    case Unary(_, operand) => 1 + Weight(operand)
    case Binary(left, _, right) => Weight(left) + 1 + Weight(right)
    case Call(_, args) => 1 + WeightAll(args)
  }

  function WeightAll(args: seq<Expr>): nat {
    if args == [] then 0 else Weight(args[0]) + WeightAll(args[1..])
  }

  lemma {:induction false} TokensCount(w: Written)
    ensures Balanced(Tokens(w)) && Solid(Tokens(w)) == Weight(Erase(w))
    decreases w, 0
  {
    hide Balanced, Depth, Solid;
    match w
    case Word(text) =>
      BalancedOne(Name(text));
      CountsOfOne(Name(text));
    case Paren(inner) =>
      TokensCount(inner);
      BalancedWrapped(Tokens(inner));
      SolidWrapped(Tokens(inner));
    case Prefix(op, operand) =>
      TokensCount(operand);
      OneBefore(Operator(op), Tokens(operand));
    case Infix(left, op, right) =>
      TokensCount(left);
      TokensCount(right);
      InfixCounts(Tokens(left), op, Tokens(right));
    case Invoke(callee, args) =>
      ArgTokensCount(w, args);
      InvokeCounts(callee, ArgTokens(args));
  }

  lemma InfixCounts(left: seq<Token>, op: string, right: seq<Token>)
    requires Balanced(left) && Balanced(right)
    ensures Balanced(left + [Operator(op)] + right) && Solid(left + [Operator(op)] + right) == Solid(left) + 1 + Solid(right)
  {
    OneBefore(Operator(op), right);
    BalancedAppends(left, [Operator(op)] + right);
    CountsAppend(left, [Operator(op)] + right);
    assert left + [Operator(op)] + right == left + ([Operator(op)] + right);
  }

  lemma InvokeCounts(callee: string, args: seq<Token>)
    requires Balanced(args)
    ensures Balanced([Name(callee), Open] + args + [Close]) && Solid([Name(callee), Open] + args + [Close]) == 1 + Solid(args)
  {
    BalancedWrapped(args);
    SolidWrapped(args);
    OneBefore(Name(callee), [Open] + args + [Close]);
    assert [Name(callee), Open] + args + [Close] == [Name(callee)] + ([Open] + args + [Close]);
  }

  lemma SolidWrapped(a: seq<Token>)
    ensures Solid([Open] + a + [Close]) == Solid(a)
  {
    CountsOfOne(Open);
    CountsOfOne(Close);
    CountsAppend([Open], a);
    CountsAppend([Open] + a, [Close]);
  }

  lemma OneBefore(t: Token, a: seq<Token>)
    requires !t.Open? && !t.Close? && Balanced(a)
    ensures Balanced([t] + a) && Solid([t] + a) == Solid(a) + if t.Name? || t.Operator? then 1 else 0
  {
    BalancedOne(t);
    CountsOfOne(t);
    BalancedAppends([t], a);
    CountsAppend([t], a);
  }

  lemma {:induction false} ArgTokensCount(w: Written, args: seq<Written>)
    requires forall i :: 0 <= i < |args| ==> args[i] < w
    ensures Balanced(ArgTokens(args)) && Solid(ArgTokens(args)) == WeightAll(EraseAll(args))
    decreases w, 0, |args|
  {
    if args != [] {
      TokensCount(args[0]);
      ArgTokensCount(w, args[1..]);
      ArgsCounted(args);
    }
  }

  lemma ArgsCounted(args: seq<Written>)
    requires args != [] && Balanced(Tokens(args[0])) && Solid(Tokens(args[0])) == Weight(Erase(args[0]))
    requires Balanced(ArgTokens(args[1..])) && Solid(ArgTokens(args[1..])) == WeightAll(EraseAll(args[1..]))
    ensures Balanced(ArgTokens(args)) && Solid(ArgTokens(args)) == WeightAll(EraseAll(args))
  {
    hide Tokens, Erase, Weight, Balanced, Depth, Solid;
    assert EraseAll(args) == [Erase(args[0])] + EraseAll(args[1..]);
    assert EraseAll(args)[1..] == EraseAll(args[1..]);
    if |args| == 1 {
      assert EraseAll(args[1..]) == [];
    } else {
      var more := [Comma] + ArgTokens(args[1..]);
      OneBefore(Comma, ArgTokens(args[1..]));
      BalancedAppends(Tokens(args[0]), more);
      CountsAppend(Tokens(args[0]), more);
      assert ArgTokens(args) == Tokens(args[0]) + more;
    }
  }

  /** A parenthesis closes where what it encloses is balanced. */
  lemma ClosesOnce(a: seq<Token>, b: seq<Token>, x: seq<Token>, y: seq<Token>)
    requires Balanced(a) && Balanced(b) && a + ([Close] + x) == b + ([Close] + y)
    ensures a == b && x == y
  {
    var s := a + ([Close] + x);
    if |a| < |b| {
      ClosedTooSoon(a, b, x, y);
    } else if |b| < |a| {
      ClosedTooSoon(b, a, y, x);
    } else {
      assert a == s[..|a|] == b;
      assert x == s[|a| + 1..] == y;
    }
  }

  lemma ClosedTooSoon(a: seq<Token>, b: seq<Token>, x: seq<Token>, y: seq<Token>)
    requires Balanced(a) && |a| < |b| && a + ([Close] + x) == b + ([Close] + y)
    ensures !Balanced(b)
  {
    var s := a + ([Close] + x);
    assert b[..|a| + 1] == s[..|a| + 1] == a + [Close];
    CountsAppend(a, [Close]);
    CountsOfOne(Close);
  }

  /** An infix writing that starts with a parenthesis encloses less in it than it holds. */
  lemma {:induction false} LeftmostParen(w: Written) returns (inner: Written, rest: seq<Token>)
    requires w.Infix? && Tokens(w)[..1] == [Open]
    ensures Tokens(w) == [Open] + (Tokens(inner) + ([Close] + rest)) && Weight(Erase(inner)) < Weight(Erase(w))
    decreases w
  {
    var Infix(left, op, right) := w;
    var tail := [Operator(op)] + Tokens(right);
    TokensStartOperand(left);
    assert Tokens(w) == Tokens(left) + tail;
    assert Tokens(left)[0] == Tokens(w)[..1][0] == Open;
    if left.Infix? {
      var more;
      inner, more := LeftmostParen(left);
      rest := more + tail;
      assert Tokens(w) == [Open] + (Tokens(inner) + ([Close] + rest));
    } else {
      assert left.Paren?;
      inner, rest := left.inner, tail;
      assert Tokens(left) == [Open] + Tokens(inner) + [Close];
      assert Tokens(w) == [Open] + (Tokens(inner) + ([Close] + rest));
    }
  }

  lemma ParenIsNoInfix(v: Written, w: Written, x: seq<Token>, y: seq<Token>)
    requires v.Paren? && w.Infix? && Tokens(v) + x == Tokens(w) + y
    ensures Erase(v) != Erase(w)
  {
    TokensStartOperand(w);
    var s := Tokens(v) + x;
    assert s == [Open] + (Tokens(v.inner) + ([Close] + x));
    assert Tokens(w)[0] == (Tokens(w) + y)[0] == s[0];
    var inner, rest := LeftmostParen(w);
    assert Tokens(w) + y == [Open] + (Tokens(inner) + ([Close] + (rest + y)));
    assert s[1..] == Tokens(v.inner) + ([Close] + x) && s[1..] == Tokens(inner) + ([Close] + (rest + y));
    TokensCount(v.inner);
    TokensCount(inner);
    ClosesOnce(Tokens(v.inner), Tokens(inner), x, rest + y);
  }

  /** A writing's tokens and what follows them, up to its first part. */
  function Onward(w: Written, x: seq<Token>): seq<Token> {
    match w
    case Word(text) => [Name(text)] + x
    case Paren(inner) => [Open] + (Tokens(inner) + ([Close] + x))
    case Prefix(op, operand) => [Operator(op)] + (Tokens(operand) + x)
    case Infix(left, op, right) => Tokens(left) + ([Operator(op)] + (Tokens(right) + x))
    case Invoke(callee, args) => [Name(callee)] + ([Open] + (ArgTokens(args) + ([Close] + x)))
  }

  lemma TokensOnward(w: Written, x: seq<Token>)
    ensures Tokens(w) + x == Onward(w, x)
  {
  }

  lemma SameFirst(t: Token, u: Token, x: seq<Token>, y: seq<Token>)
    requires [t] + x == [u] + y
    ensures t == u && x == y
  {
    var s := [t] + x;
    assert t == s[0] == u && x == s[1..] == y;
  }

  /** Writings of one expression that start alike are built alike. */
  lemma BuiltAlike(v: Written, w: Written, x: seq<Token>, y: seq<Token>)
    requires Tokens(v) + x == Tokens(w) + y && Erase(v) == Erase(w) && v.Paren?
    ensures w.Paren?
  {
    if w.Infix? {
      ParenIsNoInfix(v, w, x, y);
    } else {
      TokensOnward(v, x);
      TokensOnward(w, y);
      hide Tokens, Erase, ArgTokens;
      assert (Tokens(v) + x)[0] == (Tokens(w) + y)[0];
    }
  }

  /** The tokens and the expression determine which parentheses were written. */
  lemma {:induction false} WritingIsUnique(v: Written, w: Written, x: seq<Token>, y: seq<Token>)
    requires Tokens(v) + x == Tokens(w) + y && Erase(v) == Erase(w)
    ensures v == w && x == y
    decreases v, 0
  {
    if v.Paren? {
      BuiltAlike(v, w, x, y);
    }
    if w.Paren? {
      BuiltAlike(w, v, y, x);
    }
    TokensOnward(v, x);
    TokensOnward(w, y);
    hide Tokens, ArgTokens, EraseAll;
    match v
    case Word(text) => SameFirst(Name(text), Name(w.text), x, y);
    case Paren(inner) =>
      SameFirst(Open, Open, Tokens(inner) + ([Close] + x), Tokens(w.inner) + ([Close] + y));
      WritingIsUnique(inner, w.inner, [Close] + x, [Close] + y);
      SameFirst(Close, Close, x, y);
    case Prefix(op, operand) =>
      SameFirst(Operator(op), Operator(w.op), Tokens(operand) + x, Tokens(w.operand) + y);
      WritingIsUnique(operand, w.operand, x, y);
    case Infix(left, op, right) =>
      WritingIsUnique(left, w.left, [Operator(op)] + (Tokens(right) + x), [Operator(op)] + (Tokens(w.right) + y));
      SameFirst(Operator(op), Operator(op), Tokens(right) + x, Tokens(w.right) + y);
      WritingIsUnique(right, w.right, x, y);
    case Invoke(callee, args) =>
      SameFirst(Name(callee), Name(w.callee), [Open] + (ArgTokens(args) + ([Close] + x)), [Open] + (ArgTokens(w.args) + ([Close] + y)));
      SameFirst(Open, Open, ArgTokens(args) + ([Close] + x), ArgTokens(w.args) + ([Close] + y));
      ArgsAreUnique(v, args, w.args, x, y);
  }

  lemma {:induction false} ArgsAreUnique(v: Written, args: seq<Written>, others: seq<Written>, x: seq<Token>, y: seq<Token>)
    requires forall i :: 0 <= i < |args| ==> args[i] < v
    requires ArgTokens(args) + ([Close] + x) == ArgTokens(others) + ([Close] + y) && EraseAll(args) == EraseAll(others)
    ensures args == others && x == y
    decreases v, 0, |args|
  {
    EraseAllLength(args);
    EraseAllLength(others);
    if args == [] {
      assert ArgTokens(args) + ([Close] + x) == [Close] + x;
      SameFirst(Close, Close, x, y);
    } else {
      var after, later := AfterFirst(args, x), AfterFirst(others, y);
      FirstArg(args, x);
      FirstArg(others, y);
      hide Tokens, Erase, EraseAll, ArgTokens;
      WritingIsUnique(args[0], others[0], after, later);
      if |args| == 1 {
        SameFirst(Close, Close, x, y);
        assert args == [args[0]] && others == [others[0]];
      } else {
        SameFirst(Comma, Comma, ArgTokens(args[1..]) + ([Close] + x), ArgTokens(others[1..]) + ([Close] + y));
        ArgsAreUnique(v, args[1..], others[1..], x, y);
        assert args == [args[0]] + args[1..] && others == [others[0]] + others[1..];
      }
    }
  }

  lemma {:induction false} EraseAllLength(args: seq<Written>)
    ensures |EraseAll(args)| == |args|
    ensures args != [] ==> EraseAll(args)[0] == Erase(args[0]) && EraseAll(args)[1..] == EraseAll(args[1..])
  {
    if args != [] {
      EraseAllLength(args[1..]);
    }
  }

  /** What follows the first argument of a call. */
  function AfterFirst(args: seq<Written>, x: seq<Token>): seq<Token> {
    if |args| <= 1 then [Close] + x else [Comma] + (ArgTokens(args[1..]) + ([Close] + x))
  }

  lemma FirstArg(args: seq<Written>, x: seq<Token>)
    requires args != []
    ensures ArgTokens(args) + ([Close] + x) == Tokens(args[0]) + AfterFirst(args, x)
  {
    hide Tokens;
  }

  /** A grammar reads a writing as the expression it was written for exactly when its parentheses are enough. */
  lemma ReadsExactlyWhenEnough(g: Grammar, w: Written)
    ensures Parse(g, Tokens(w)) == Parsed(Erase(w), []) <==> Reading(g, w)
  {
    ParsesExactlyReadings(g, Tokens(w), Erase(w));
    if Parse(g, Tokens(w)) == Parsed(Erase(w), []) {
      var v :| Reading(g, v) && Tokens(v) == Tokens(w) && Erase(v) == Erase(w);
      WritingIsUnique(v, w, [], []);
    }
  }
}
