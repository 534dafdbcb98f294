/**
 * Lowering Go expressions (golang/expr.go): the parentheses of the source are
 * dropped, and what has no structured counterpart is kept as source text.
 */
module GoLowering {
  import opened Syntax
  import opened Printing

  /** The binary operators of Go that have a counterpart; &^ is the one that has none. */
  const LOWERED_BINARY: set<string> := {
    "&&", "||", "==", "!=", "<", "<=", ">", ">=", "+", "-", "*", "/", "%", "&", "|", "^", "<<", ">>"
  }

  /** The unary operators of Go that have a counterpart; ^, &, * and <- have none. */
  const LOWERED_UNARY: set<string> := {"!", "-", "+"}

  /**
   * A Go expression: Dotted is an identifier, a chain of them or a literal, Other
   * any kind with no structured form that binds as one operand (an index, a
   * composite literal, a variadic call, ...).
   */
  datatype GoExpr =
    | Dotted(text: string)
    | Other(text: string)
    | ParenExpr(x: GoExpr)
    | UnaryExpr(op: string, x: GoExpr)
    | BinaryExpr(x: GoExpr, op: string, y: GoExpr)
    | CallExpr(callee: string, args: seq<GoExpr>)

  /** The source text of a Go expression. */
  function Source(e: GoExpr): Written {
    match e
    case Dotted(text) => Word(text)
    case Other(text) => Word(text)
    case ParenExpr(x) => Paren(Source(x))
    case UnaryExpr(op, x) => Prefix(op, Source(x))
    case BinaryExpr(x, op, y) => Infix(Source(x), op, Source(y))
    case CallExpr(callee, args) => Invoke(callee, SourceAll(args))
  }

  function SourceAll(args: seq<GoExpr>): seq<Written> {
    if args == [] then [] else [Source(args[0])] + SourceAll(args[1..])
  }

  function Unparen(e: GoExpr): GoExpr {
    if e.ParenExpr? then Unparen(e.x) else e
  }

  function Lower(e: GoExpr): Expr
    decreases e, 0
  {
    match e
    case Dotted(text) => Atom(text)
    case Other(_) => Text(Source(e))
    case ParenExpr(x) => Lower(x)
    case UnaryExpr(op, x) => if op in LOWERED_UNARY then Unary(op, LowerOperand(x)) else Text(Source(e))
    case BinaryExpr(x, op, y) =>
      if op in LOWERED_BINARY then Binary(LowerOperand(x), op, LowerOperand(y)) else Text(Source(e))
    case CallExpr(callee, args) => Call(callee, LowerAll(args))
  }

  /** An operand of an operator: a binary expression kept as text is parenthesised. */
  function LowerOperand(e: GoExpr): Expr
    decreases e, 1
  {
    var lowered := Lower(e);
    if Unparen(e).BinaryExpr? && lowered.Text? then Text(Paren(lowered.source)) else lowered
  }

  function LowerAll(args: seq<GoExpr>): seq<Expr> {
    if args == [] then [] else [Lower(args[0])] + LowerAll(args[1..])
  }

  /** The lowered expression; one with no variant keeps all of its source text. */
  function LowerExpr(e: GoExpr): Expr {
    var lowered := Lower(e);
    if lowered.Text? then Text(Source(e)) else lowered
  }

  // ------------------------------------------------------ Go's own precedence

  /** The five levels of the Go specification. */
  const GO_PRECEDENCE: map<string, nat> := map[
    "||" := 1,
    "&&" := 2,
    "==" := 3, "!=" := 3, "<" := 3, "<=" := 3, ">" := 3, ">=" := 3,
    "+" := 4, "-" := 4, "|" := 4, "^" := 4,
    "*" := 5, "/" := 5, "%" := 5, "<<" := 5, ">>" := 5, "&" := 5, "&^" := 5
  ]

  /** An operator Go does not have never follows a Go operand; it is ranked as the printer ranks it. */
  function GoPrecedence(op: string): nat {
    if op in GO_PRECEDENCE then GO_PRECEDENCE[op] else Rank(op)
  }

  const GO: Grammar := Grammar(GoPrecedence, op => op == "**", 8)

  lemma GoMatchesTable(op: string)
    ensures Rank(op) > 0 ==> GoPrecedence(op) == Rank(op)
    ensures GoPrecedence(op) <= 7
  {
  }

  lemma GoAgrees()
    ensures Agrees(GO) && UnaryBindsTightest(GO)
  {
    hide Rank, GoPrecedence;
    forall op ensures (Rank(op) > 0 ==> GO.precedence(op) == Rank(op)) && GO.precedence(op) < GO.unary {
      GoMatchesTable(op);
    }
  }

  // ---------------------------------------------- what lowering keeps

  lemma {:induction false} SourceAllIs(args: seq<GoExpr>)
    ensures |SourceAll(args)| == |LowerAll(args)| == |args|
    ensures forall i :: 0 <= i < |args| ==> SourceAll(args)[i] == Source(args[i]) && LowerAll(args)[i] == Lower(args[i])
  {
    if args != [] {
      SourceAllIs(args[1..]);
    }
  }

  /** Lowers one expression; what has no counterpart comes back as source text. */
  method LowerNode(e: GoExpr) returns (lowered: Expr)
    ensures lowered == Lower(e)
    decreases e, 1
  {
    match e
    case Dotted(text) => lowered := Atom(text);
    case Other(_) => lowered := Text(Source(e));
    case ParenExpr(x) => lowered := LowerNode(x);
    case UnaryExpr(op, x) =>
      lowered := Text(Source(e));
      if op in LOWERED_UNARY {
        var operand := Operand(x);
        lowered := Unary(op, operand);
      }
    case BinaryExpr(x, op, y) =>
      lowered := Text(Source(e));
      if op in LOWERED_BINARY {
        var left := Operand(x);
        var right := Operand(y);
        lowered := Binary(left, op, right);
      }
    case CallExpr(callee, args) => lowered := LowerCall(e, callee, args);
  }

  /** Lowers an operand, whose text it replaces by the parenthesised text of a binary expression. */
  method Operand(e: GoExpr) returns (lowered: Expr)
    ensures lowered == LowerOperand(e)
    decreases e, 2
  {
    lowered := LowerNode(e);
    if Unparen(e).BinaryExpr? && lowered.Text? {
      lowered := Text(Paren(lowered.source));
    }
  }

  /** Adds the arguments to the call one by one. */
  method LowerCall(ghost e: GoExpr, callee: string, args: seq<GoExpr>) returns (call: Expr)
    requires forall i :: 0 <= i < |args| ==> args[i] < e
    ensures call == Call(callee, LowerAll(args))
    decreases e, 0
  {
    SourceAllIs(args);
    var lowered := [];
    for i := 0 to |args|
      invariant |lowered| == i && forall k :: 0 <= k < i ==> lowered[k] == LowerAll(args)[k]
    {
      var arg := LowerNode(args[i]);
      lowered := lowered + [arg];
    }
    call := Call(callee, lowered);
  }

  /** A text is what Unparen leaves of the expression, as written. */
  lemma {:induction false} LoweredText(e: GoExpr)
    requires Lower(e).Text?
    ensures Lower(e).source == Source(Unparen(e))
    ensures Lower(e).source.Infix? <==> Unparen(e).BinaryExpr?
    decreases e
  {
    if e.ParenExpr? {
      LoweredText(e.x);
    }
  }

  lemma UnparenReads(g: Grammar, e: GoExpr)
    requires Reading(g, Source(e))
    ensures Reading(g, Source(Unparen(e)))
    decreases e
  {
  }

  /** Texts of a well-grouped source read as one expression, and as one operand under an operator. */
  lemma {:induction false} LowerTextsClosed(g: Grammar, e: GoExpr)
    requires Reading(g, Source(e))
    ensures TextsClosed(g, Lower(e))
    ensures TextsClosed(g, LowerOperand(e)) && OperandClosed(LowerOperand(e))
    decreases e
  {
    if Lower(e).Text? {
      LoweredText(e);
      UnparenReads(g, e);
    }
    match e
    case Dotted(_) =>
    case Other(_) =>
    case ParenExpr(x) => LowerTextsClosed(g, x);
    case UnaryExpr(_, x) => LowerTextsClosed(g, x);
    case BinaryExpr(x, _, y) =>
      LowerTextsClosed(g, x);
      LowerTextsClosed(g, y);
    case CallExpr(_, args) =>
      SourceAllIs(args);
      forall i | 0 <= i < |args| ensures TextsClosed(g, LowerAll(args)[i]) {
        assert Reading(g, SourceAll(args)[i]);
        LowerTextsClosed(g, args[i]);
      }
  }

  lemma {:induction false} LowerResolves(e: GoExpr)
    ensures Resolve(Lower(e)) == Resolve(LowerOperand(e)) == Erase(Source(e))
    decreases e, 0
  {
    match e
    case Dotted(_) =>
    case Other(_) =>
    case ParenExpr(x) => LowerResolves(x);
    case UnaryExpr(_, x) => LowerResolves(x);
    case BinaryExpr(x, _, y) =>
      LowerResolves(x);
      LowerResolves(y);
    case CallExpr(_, args) => LowerArgsResolve(e, args);
  }

  lemma {:induction false} LowerArgsResolve(e: GoExpr, args: seq<GoExpr>)
    requires forall i :: 0 <= i < |args| ==> args[i] < e
    ensures ResolveAll(LowerAll(args)) == EraseAll(SourceAll(args))
    decreases e, 0, |args|
  {
    if args != [] {
      LowerResolves(args[0]);
      LowerArgsResolve(e, args[1..]);
      assert LowerAll(args)[1..] == LowerAll(args[1..]);
      assert SourceAll(args)[1..] == SourceAll(args[1..]);
    }
  }

  // --------------------------------------- regrouping before and after texts

  lemma {:induction false} JoinAssociative(op: string, a: Expr, b: Expr, c: Expr)
    ensures Join(op, Join(op, a, b), c) == Join(op, a, Join(op, b, c))
    decreases c
  {
    if c.Binary? && c.op == op {
      JoinAssociative(op, a, b, c.left);
    }
  }

  /** Resolving and regrouping a join joins the resolved and regrouped parts. */
  lemma {:induction false} RegroupResolvesJoin(op: string, a: Expr, b: Expr)
    requires IsChain(op)
    ensures Regroup(Resolve(Join(op, a, b))) == Join(op, Regroup(Resolve(a)), Regroup(Resolve(b)))
    decreases b
  {
    if b.Binary? && b.op == op {
      RegroupResolvesJoin(op, a, b.left);
      JoinAssociative(op, Regroup(Resolve(a)), Regroup(Resolve(b.left)), Regroup(Resolve(b.right)));
    }
  }

  /** Grouping the structured chains first changes nothing once the texts are resolved and all is grouped. */
  lemma {:induction false} RegroupTwice(e: Expr)
    ensures Regroup(Resolve(Regroup(e))) == Regroup(Resolve(e))
    decreases e, 0
  {
    match e
    case Atom(_) =>
    case Text(_) =>
    case Unary(_, operand) => RegroupTwice(operand);
    case Binary(left, op, right) =>
      RegroupTwice(left);
      RegroupTwice(right);
      if IsChain(op) {
        RegroupResolvesJoin(op, Regroup(left), Regroup(right));
      }
    case Call(_, args) => RegroupArgsTwice(e, args);
  }

  lemma {:induction false} RegroupArgsTwice(e: Expr, args: seq<Expr>)
    requires forall i :: 0 <= i < |args| ==> args[i] < e
    ensures RegroupAll(ResolveAll(RegroupAll(args))) == RegroupAll(ResolveAll(args))
    decreases e, 0, |args|
  {
    if args != [] {
      RegroupTwice(args[0]);
      RegroupArgsTwice(e, args[1..]);
      assert RegroupAll(args)[1..] == RegroupAll(args[1..]);
      assert ResolveAll(RegroupAll(args))[1..] == ResolveAll(RegroupAll(args[1..]));
      assert ResolveAll(args)[1..] == ResolveAll(args[1..]);
    }
  }

  /**
   * A Go expression that its parentheses group as written, lowered, printed and
   * read under Go's precedence, is the same expression without parentheses, up
   * to the grouping of && and || chains.
   */
  lemma LowerPrintParse(e: GoExpr)
    requires Reading(GO, Source(e))
    ensures var parsed := Parse(GO, Print(LowerExpr(e)));
            parsed.Parsed? && parsed.rest == [] && Regroup(parsed.value) == Regroup(Erase(Source(e)))
  {
    GoAgrees();
    LowerTextsClosed(GO, e);
    LowerResolves(e);
    var lowered := LowerExpr(e);
    PrintThenParse(GO, lowered);
    RegroupTwice(lowered);
  }

  // -------------------------------------------- what comes back structured

  /** The unary operators of the Go specification. */
  const GO_UNARY: set<string> := {"!", "-", "+", "^", "&", "*", "<-"}

  /** Built with the operators of Go. */
  predicate GoOperators(e: GoExpr) {
    match e
    case Dotted(_) => true
    case Other(_) => true
    case ParenExpr(x) => GoOperators(x)
    case UnaryExpr(op, x) => op in GO_UNARY && GoOperators(x)
    case BinaryExpr(x, op, y) => op in GO_PRECEDENCE && GoOperators(x) && GoOperators(y)
    case CallExpr(_, args) => forall i :: 0 <= i < |args| ==> GoOperators(args[i])
  }

  /** Built, at every depth, with what has a counterpart: no other kind, and none of &^, unary ^, &, * and <-. */
  predicate Structured(e: GoExpr) {
    match e
    case Dotted(_) => true
    case Other(_) => false
    case ParenExpr(x) => Structured(x)
    case UnaryExpr(op, x) => op != "^" && op != "&" && op != "*" && op != "<-" && Structured(x)
    case BinaryExpr(x, op, y) => op != "&^" && Structured(x) && Structured(y)
    case CallExpr(_, args) => forall i :: 0 <= i < |args| ==> Structured(args[i])
  }

  lemma BinaryHasCounterpart(op: string)
    requires op in GO_PRECEDENCE
    ensures op in LOWERED_BINARY <==> op != "&^"
  {
  }

  lemma UnaryHasCounterpart(op: string)
    requires op in GO_UNARY
    ensures op in LOWERED_UNARY <==> op != "^" && op != "&" && op != "*" && op != "<-"
  {
  }

  /** A structured expression is lowered to the expression it is, and nothing of it is kept as text. */
  lemma {:induction false} StructuredIsLowered(e: GoExpr)
    requires GoOperators(e) && Structured(e)
    ensures Lower(e) == LowerOperand(e) == LowerExpr(e) == Erase(Source(e)) && TextFree(LowerExpr(e))
    decreases e, 0
  {
    match e
    case Dotted(_) =>
    case ParenExpr(x) => StructuredIsLowered(x);
    case UnaryExpr(op, x) =>
      UnaryHasCounterpart(op);
      StructuredIsLowered(x);
    case BinaryExpr(x, op, y) =>
      BinaryHasCounterpart(op);
      StructuredIsLowered(x);
      StructuredIsLowered(y);
    case CallExpr(_, args) =>
      StructuredArgsAreLowered(e, args);
      SourceAllIs(args);
      forall i | 0 <= i < |args| ensures TextFree(LowerAll(args)[i]) {
        StructuredIsLowered(args[i]);
      }
  }

  lemma {:induction false} StructuredArgsAreLowered(e: GoExpr, args: seq<GoExpr>)
    requires forall i :: 0 <= i < |args| ==> args[i] < e && GoOperators(args[i]) && Structured(args[i])
    ensures LowerAll(args) == EraseAll(SourceAll(args))
    decreases e, 0, |args|
  {
    if args != [] {
      StructuredIsLowered(args[0]);
      StructuredArgsAreLowered(e, args[1..]);
      assert SourceAll(args)[1..] == SourceAll(args[1..]);
    }
  }

  /** An expression with no counterpart of its own. */
  predicate NoCounterpart(e: GoExpr) {
    || e.Other?
    || (e.UnaryExpr? && (e.op == "^" || e.op == "&" || e.op == "*" || e.op == "<-"))
    || (e.BinaryExpr? && e.op == "&^")
  }

  /** An expression is kept as text exactly when what its parentheses enclose has no counterpart. */
  lemma {:induction false} KeptExactlyWithoutCounterpart(e: GoExpr)
    requires GoOperators(e)
    ensures LowerExpr(e).Text? <==> NoCounterpart(Unparen(e))
    ensures Lower(e).Text? <==> NoCounterpart(Unparen(e))
    decreases e
  {
    match e
    case Dotted(_) =>
    case Other(_) =>
    case ParenExpr(x) => KeptExactlyWithoutCounterpart(x);
    case UnaryExpr(op, _) => UnaryHasCounterpart(op);
    case BinaryExpr(_, op, _) => BinaryHasCounterpart(op);
    case CallExpr(_, _) =>
  }

  /** What e has at some depth: itself, or an operand, an argument or an enclosed expression of what it has. */
  ghost predicate Has(e: GoExpr, part: GoExpr) {
    || e == part
    || match e
       case Dotted(_) => false
       case Other(_) => false
       case ParenExpr(x) => Has(x, part)
       case UnaryExpr(_, x) => Has(x, part)
       case BinaryExpr(x, _, y) => Has(x, part) || Has(y, part)
       case CallExpr(_, args) => exists i :: 0 <= i < |args| && Has(args[i], part)
  }

  /** The text is that of a part of e without a counterpart, alone or in parentheses. */
  ghost predicate KeptFrom(e: GoExpr, source: Written) {
    exists part :: Has(e, part) && NoCounterpart(Unparen(part)) && Unenclosed(source) == Source(Unparen(part))
  }

  function Unenclosed(w: Written): Written {
    if w.Paren? then Unenclosed(w.inner) else w
  }

  /** Every text in the expression is one kept from e. */
  ghost predicate OnlyKept(e: GoExpr, x: Expr) {
    match x
    case Atom(_) => true
    case Text(source) => KeptFrom(e, source)
    case Unary(_, operand) => OnlyKept(e, operand)
    case Binary(left, _, right) => OnlyKept(e, left) && OnlyKept(e, right)
    case Call(_, args) => forall i :: 0 <= i < |args| ==> OnlyKept(e, args[i])
  }

  lemma {:induction false} UnenclosedSource(e: GoExpr)
    ensures Unenclosed(Source(e)) == Source(Unparen(e))
    decreases e
  {
    if e.ParenExpr? {
      UnenclosedSource(e.x);
    }
  }

  lemma {:induction false} KeptFromMore(e: GoExpr, part: GoExpr, x: Expr)
    requires OnlyKept(part, x) && forall p :: Has(part, p) ==> Has(e, p)
    ensures OnlyKept(e, x)
    decreases x
  {
    hide Has;
    match x
    case Atom(_) =>
    case Text(_) =>
    case Unary(_, operand) => KeptFromMore(e, part, operand);
    case Binary(left, _, right) =>
      KeptFromMore(e, part, left);
      KeptFromMore(e, part, right);
    case Call(_, args) =>
      forall i | 0 <= i < |args| ensures OnlyKept(e, args[i]) {
        KeptFromMore(e, part, args[i]);
      }
  }

  lemma KeptItself(e: GoExpr)
    requires NoCounterpart(Unparen(e))
    ensures OnlyKept(e, Text(Source(e))) && OnlyKept(e, Text(Source(Unparen(e)))) && OnlyKept(e, Text(Paren(Source(Unparen(e)))))
  {
    UnenclosedSource(e);
    UnenclosedSource(Unparen(e));
    UnparenTwice(e);
    assert Has(e, e);
    assert KeptFrom(e, Source(e)) && KeptFrom(e, Source(Unparen(e))) && KeptFrom(e, Paren(Source(Unparen(e))));
  }

  lemma {:induction false} UnparenTwice(e: GoExpr)
    ensures Unparen(Unparen(e)) == Unparen(e)
    decreases e
  {
    if e.ParenExpr? {
      UnparenTwice(e.x);
    }
  }

  /** Whatever of an expression is kept as text has no counterpart: no structured part is lost in a text. */
  lemma {:induction false} OnlyUnstructuredIsKept(e: GoExpr)
    requires GoOperators(e)
    ensures OnlyKept(e, Lower(e)) && OnlyKept(e, LowerOperand(e)) && OnlyKept(e, LowerExpr(e))
    decreases e
  {
    KeptExactlyWithoutCounterpart(e);
    if Lower(e).Text? {
      LoweredText(e);
      KeptItself(e);
    } else {
      match e
      case Dotted(_) =>
      case ParenExpr(x) =>
        OnlyUnstructuredIsKept(x);
        KeptFromMore(e, x, Lower(x));
      case UnaryExpr(op, x) =>
        OnlyUnstructuredIsKept(x);
        KeptFromMore(e, x, LowerOperand(x));
      case BinaryExpr(x, op, y) =>
        OnlyUnstructuredIsKept(x);
        OnlyUnstructuredIsKept(y);
        KeptFromMore(e, x, LowerOperand(x));
        KeptFromMore(e, y, LowerOperand(y));
      case CallExpr(_, args) =>
        SourceAllIs(args);
        forall i | 0 <= i < |args| ensures OnlyKept(e, LowerAll(args)[i]) {
          OnlyUnstructuredIsKept(args[i]);
          KeptFromMore(e, args[i], Lower(args[i]));
        }
    }
  }
}
