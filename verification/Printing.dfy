/**
 * Printing operator expressions with as few parentheses as are safe in every
 * language (pretty_expr.go), and reading the text back.
 */
module Printing {
  import opened Parsing
  import opened Syntax

  // ------------------------------------------------------------ the printer

  /** The rank of each operator every language ranks alike, tightest highest. */
  const BINARY_PRECEDENCE: map<string, nat> := map[
    "||" := 1,
    "&&" := 2,
    "==" := 3, "!=" := 3, "===" := 3, "!==" := 3, "<" := 3, "<=" := 3, ">" := 3, ">=" := 3,
    "like" := 3, "ilike" := 3, "regex" := 3, "startsWith" := 3, "endsWith" := 3, "contains" := 3,
    "in" := 3, "instanceof" := 3,
    "+" := 4, "-" := 4,
    "*" := 5, "/" := 5, "%" := 5,
    "**" := 6,
    "?." := 7
  ]

  function Rank(op: string): nat {
    if op in BINARY_PRECEDENCE then BINARY_PRECEDENCE[op] else 0
  }

  predicate IsChain(op: string) {
    op == "&&" || op == "||"
  }

  predicate BinaryOperandNeedsParens(parent: string, child: string, right: bool) {
    if Rank(parent) == 0 || Rank(child) == 0 then parent != child || right
    else if Rank(parent) != Rank(child) then Rank(child) < Rank(parent)
    else if parent == child && IsChain(parent) then false
    else right != (parent == "**")
  }

  function Wrapped(tokens: seq<Token>): seq<Token> {
    [Open] + tokens + [Close]
  }

  /** The text of an expression. */
  function Print(e: Expr): seq<Token>
    decreases e, 0
  {
    match e
    case Atom(text) => [Name(text)]
    case Text(source) => Tokens(source)
    case Unary(op, operand) => [Operator(op)] + if operand.Binary? then Wrapped(Print(operand)) else Print(operand)
    case Binary(left, op, right) => PrintOperand(op, left, false) + [Operator(op)] + PrintOperand(op, right, true)
    case Call(callee, args) => [Name(callee), Open] + PrintArgs(args) + [Close]
  }

  function PrintOperand(op: string, operand: Expr, right: bool): seq<Token>
    decreases operand, 1
  {
    if operand.Binary? && BinaryOperandNeedsParens(op, operand.op, right) then Wrapped(Print(operand)) else Print(operand)
  }

  function PrintArgs(args: seq<Expr>): seq<Token> {
    if args == [] then []
    else if |args| == 1 then Print(args[0])
    else Print(args[0]) + [Comma] + PrintArgs(args[1..])
  }

  // ---------------------------------------------------------- regrouping

  /** a op b, when b may itself be a chain of op. */
  function Join(op: string, a: Expr, b: Expr): (e: Expr)
    ensures e.Binary? && e.op == op
    decreases b
  {
    if b.Binary? && b.op == op then Binary(Join(op, a, b.left), op, b.right) else Binary(a, op, b)
  }

  /** The expression with its chains of && and of || grouped to the left. */
  function Regroup(e: Expr): (r: Expr)
    ensures e.Binary? <==> r.Binary?
    ensures e.Binary? ==> r.op == e.op
  {
    match e
    case Atom(_) => e
    case Text(_) => e
    case Unary(op, operand) => Unary(op, Regroup(operand))
    case Binary(left, op, right) =>
      if IsChain(op) then Join(op, Regroup(left), Regroup(right)) else Binary(Regroup(left), op, Regroup(right))
    case Call(callee, args) => Call(callee, RegroupAll(args))
  }

  function RegroupAll(args: seq<Expr>): seq<Expr> {
    if args == [] then [] else [Regroup(args[0])] + RegroupAll(args[1..])
  }

  /** No right operand continues the chain of && or || it stands in. */
  ghost predicate Grouped(e: Expr) {
    match e
    case Atom(_) => true
    case Text(_) => true
    case Unary(_, operand) => Grouped(operand)
    case Binary(left, op, right) => Grouped(left) && Grouped(right) && (IsChain(op) && right.Binary? ==> right.op != op)
    case Call(_, args) => forall i :: 0 <= i < |args| ==> Grouped(args[i])
  }

  lemma JoinGrouped(op: string, a: Expr, b: Expr)
    requires Grouped(a) && Grouped(b)
    ensures Grouped(Join(op, a, b))
    decreases b
  {
  }

  lemma {:induction false} RegroupGroups(e: Expr)
    ensures Grouped(Regroup(e))
    decreases e
  {
    match e
    case Atom(_) =>
    case Text(_) =>
    case Unary(_, operand) => RegroupGroups(operand);
    case Binary(left, op, right) =>
      RegroupGroups(left);
      RegroupGroups(right);
      JoinGrouped(op, Regroup(left), Regroup(right));
    case Call(_, args) =>
      RegroupAllIs(args);
      forall i | 0 <= i < |args| ensures Grouped(RegroupAll(args)[i]) {
        RegroupGroups(args[i]);
      }
  }

  lemma {:induction false} RegroupAllIs(args: seq<Expr>)
    ensures |RegroupAll(args)| == |args|
    ensures forall i :: 0 <= i < |args| ==> RegroupAll(args)[i] == Regroup(args[i])
  {
    if args != [] {
      RegroupAllIs(args[1..]);
    }
  }

  /** A chain operator parenthesises an operand on its right as it does on its left. */
  lemma ChainSidesAlike(op: string, e: Expr)
    requires IsChain(op)
    ensures PrintOperand(op, e, true) == PrintOperand(op, e, false)
  {
    if e.Binary? {
      ChainRanks(op);
      ChainRanks(e.op);
    }
  }

  lemma ChainRanks(op: string)
    ensures Rank(op) == 1 <==> op == "||"
    ensures Rank(op) == 2 <==> op == "&&"
  {
  }

  lemma {:induction false} JoinPrintsAlike(op: string, a: Expr, b: Expr)
    requires IsChain(op)
    ensures Print(Join(op, a, b)) == Print(Binary(a, op, b))
    decreases b
  {
    if b.Binary? && b.op == op {
      JoinPrintsAlike(op, a, b.left);
      ChainSidesAlike(op, b.left);
      var x, y, z, o := PrintOperand(op, a, false), PrintOperand(op, b.left, false), PrintOperand(op, b.right, true), [Operator(op)];
      assert Print(b) == y + o + z;
      assert Print(Join(op, a, b.left)) == x + o + y;
      assert (x + o + y) + o + z == x + o + (y + o + z);
    }
  }

  /** Regrouping does not change the text. */
  lemma {:induction false} RegroupPrintsAlike(e: Expr)
    ensures Print(Regroup(e)) == Print(e)
    decreases e, 0
  {
    match e
    case Atom(_) =>
    case Text(_) =>
    case Unary(_, operand) => RegroupPrintsAlike(operand);
    case Binary(left, op, right) =>
      RegroupPrintsAlike(left);
      RegroupPrintsAlike(right);
      if IsChain(op) {
        JoinPrintsAlike(op, Regroup(left), Regroup(right));
      }
    case Call(_, args) => RegroupArgsPrintAlike(e, args);
  }

  lemma {:induction false} RegroupArgsPrintAlike(e: Expr, args: seq<Expr>)
    requires forall i :: 0 <= i < |args| ==> args[i] < e
    ensures PrintArgs(RegroupAll(args)) == PrintArgs(args)
    decreases e, 0, |args|
  {
    if args != [] {
      RegroupPrintsAlike(args[0]);
      RegroupArgsPrintAlike(e, args[1..]);
      assert RegroupAll(args)[1..] == RegroupAll(args[1..]);
    }
  }

  // -------------------------------------------------------- the written form

  function WrapIf(wrap: bool, w: Written): Written {
    if wrap then Paren(w) else w
  }

  /** What the printer writes, with its parentheses as part of the tree. */
  function Layout(e: Expr): Written {
    match e
    case Atom(text) => Word(text)
    case Text(source) => source
    case Unary(op, operand) => Prefix(op, WrapIf(operand.Binary?, Layout(operand)))
    case Binary(left, op, right) =>
      Infix(WrapIf(left.Binary? && BinaryOperandNeedsParens(op, left.op, false), Layout(left)), op,
            WrapIf(right.Binary? && BinaryOperandNeedsParens(op, right.op, true), Layout(right)))
    case Call(callee, args) => Invoke(callee, LayoutAll(args))
  }

  function LayoutAll(args: seq<Expr>): seq<Written> {
    if args == [] then [] else [Layout(args[0])] + LayoutAll(args[1..])
  }

  lemma {:induction false} LayoutAllIs(args: seq<Expr>)
    ensures |LayoutAll(args)| == |args|
    ensures forall i :: 0 <= i < |args| ==> LayoutAll(args)[i] == Layout(args[i])
  {
    if args != [] {
      LayoutAllIs(args[1..]);
    }
  }

  lemma {:induction false} LayoutIsPrinted(e: Expr)
    ensures Tokens(Layout(e)) == Print(e)
    decreases e, 0
  {
    match e
    case Atom(_) =>
    case Text(_) =>
    case Unary(_, operand) => LayoutIsPrinted(operand);
    case Binary(left, op, right) =>
      LayoutIsPrinted(left);
      LayoutIsPrinted(right);
    case Call(_, args) => LayoutArgsArePrinted(e, args);
  }

  lemma {:induction false} LayoutArgsArePrinted(e: Expr, args: seq<Expr>)
    requires forall i :: 0 <= i < |args| ==> args[i] < e
    ensures ArgTokens(LayoutAll(args)) == PrintArgs(args)
    decreases e, 0, |args|
  {
    if args != [] {
      LayoutIsPrinted(args[0]);
      LayoutArgsArePrinted(e, args[1..]);
      LayoutAllIs(args);
      assert LayoutAll(args)[1..] == LayoutAll(args[1..]);
    }
  }

  /** The expression with every source text replaced by what it spells. */
  function Resolve(e: Expr): Expr {
    match e
    case Atom(_) => e
    case Text(source) => Erase(source)
    case Unary(op, operand) => Unary(op, Resolve(operand))
    case Binary(left, op, right) => Binary(Resolve(left), op, Resolve(right))
    case Call(callee, args) => Call(callee, ResolveAll(args))
  }

  function ResolveAll(args: seq<Expr>): seq<Expr> {
    if args == [] then [] else [Resolve(args[0])] + ResolveAll(args[1..])
  }

  lemma {:induction false} LayoutErases(e: Expr)
    ensures Erase(Layout(e)) == Resolve(e)
    decreases e, 0
  {
    match e
    case Atom(_) =>
    case Text(_) =>
    case Unary(_, operand) => LayoutErases(operand);
    case Binary(left, op, right) =>
      LayoutErases(left);
      LayoutErases(right);
    case Call(_, args) => LayoutArgsErase(e, args);
  }

  lemma {:induction false} LayoutArgsErase(e: Expr, args: seq<Expr>)
    requires forall i :: 0 <= i < |args| ==> args[i] < e
    ensures EraseAll(LayoutAll(args)) == ResolveAll(args)
    decreases e, 0, |args|
  {
    if args != [] {
      LayoutErases(args[0]);
      LayoutArgsErase(e, args[1..]);
      assert LayoutAll(args)[1..] == LayoutAll(args[1..]);
    }
  }

  // ------------------------------------------------------------ reading back

  /**
   * The grammar ranks the ranked operators as the table does, but that ** may bind as
   * tightly as what the table ranks above it, and it groups only ** to the right.
   */
  ghost predicate Agrees(g: Grammar) {
    && (forall a, b :: 0 < Rank(a) < Rank(b) ==> RightMin(g, a) <= g.precedence(b))
    && (forall a, b :: 0 < Rank(a) == Rank(b) ==> g.precedence(a) == g.precedence(b))
    && (forall a :: g.groupsRight(a) <==> a == "**")
  }

  /** A unary operator takes no binary expression but a parenthesised one. */
  ghost predicate UnaryBindsTightest(g: Grammar) {
    forall op :: g.precedence(op) < g.unary
  }

  /** Source texts read as one expression, and under an operator as one operand. */
  ghost predicate TextsClosed(g: Grammar, e: Expr) {
    match e
    case Atom(_) => true
    case Text(source) => Reading(g, source)
    case Unary(_, operand) => OperandClosed(operand) && TextsClosed(g, operand)
    case Binary(left, _, right) =>
      OperandClosed(left) && TextsClosed(g, left) && OperandClosed(right) && TextsClosed(g, right)
    case Call(_, args) => forall i :: 0 <= i < |args| ==> TextsClosed(g, args[i])
  }

  predicate OperandClosed(e: Expr) {
    e.Text? ==> !e.source.Infix?
  }

  lemma OnlyOneOfRankSix(op: string)
    ensures Rank(op) == 6 <==> op == "**"
  {
  }

  /** A left operand printed bare groups before the operator. */
  lemma BareLeftOperand(g: Grammar, op: string, child: string)
    requires Agrees(g) && !BinaryOperandNeedsParens(op, child, false)
    ensures g.precedence(op) < RightMin(g, child) && g.precedence(child) >= g.precedence(op)
  {
    OnlyOneOfRankSix(op);
    OnlyOneOfRankSix(child);
    hide Rank;
  }

  /** A right operand printed bare, and not continuing a chain, groups before the operator. */
  lemma BareRightOperand(g: Grammar, op: string, child: string)
    requires Agrees(g) && !BinaryOperandNeedsParens(op, child, true) && !(IsChain(op) && child == op)
    ensures g.precedence(child) >= RightMin(g, op)
  {
    OnlyOneOfRankSix(op);
    OnlyOneOfRankSix(child);
    hide Rank;
  }

  /** Only a bare binary expression, or a binary text, lays out as one. */
  lemma LayoutInfix(e: Expr)
    ensures Layout(e).Infix? ==> e.Binary? || !OperandClosed(e)
    ensures e.Binary? ==> Layout(e).Infix? && Layout(e).op == e.op
  {
  }

  /** A writing's last operand is that of a unary operator, not enclosed in parentheses. */
  predicate EndsInUnary(w: Written) {
    match w
    case Word(_) => false
    case Paren(_) => false
    case Prefix(_, _) => true
    case Infix(_, _, right) => EndsInUnary(right)
    case Invoke(_, _) => false
  }

  /** No unary operator stands bare before a binary one that binds as tightly or tighter. */
  predicate UnarySafe(g: Grammar, w: Written) {
    match w
    case Word(_) => true
    case Paren(inner) => UnarySafe(g, inner)
    case Prefix(_, operand) => UnarySafe(g, operand)
    case Infix(left, op, right) => UnarySafe(g, left) && UnarySafe(g, right) && (EndsInUnary(left) ==> g.precedence(op) < g.unary)
    case Invoke(_, args) => forall i :: 0 <= i < |args| ==> UnarySafe(g, args[i])
  }

  /** What a grammar reads has no unary operator in the way. */
  lemma {:induction false} ReadingIsSafe(g: Grammar, w: Written)
    requires Reading(g, w)
    ensures UnarySafe(g, w)
    decreases w
  {
    match w
    case Word(_) =>
    case Paren(inner) => ReadingIsSafe(g, inner);
    case Prefix(_, operand) => ReadingIsSafe(g, operand);
    case Infix(left, op, right) =>
      ReadingIsSafe(g, left);
      ReadingIsSafe(g, right);
      if EndsInUnary(left) {
        ReleasedUnary(g, left, op);
      }
    case Invoke(_, args) =>
      forall i | 0 <= i < |args| ensures UnarySafe(g, args[i]) {
        ReadingIsSafe(g, args[i]);
      }
  }

  lemma {:induction false} ReleasedUnary(g: Grammar, w: Written, op: string)
    requires Releases(g, w, op) && EndsInUnary(w)
    ensures g.precedence(op) < g.unary
    decreases w
  {
    if w.Infix? {
      ReleasedUnary(g, w.right, op);
    }
  }

  /** Nothing printed bare on the left of an operator takes that operator, unless a unary one does. */
  lemma {:induction false} ReleasesTighter(g: Grammar, w: Written, op: string)
    requires Reading(g, w) && (EndsInUnary(w) ==> g.precedence(op) < g.unary)
    requires w.Infix? ==> g.precedence(op) < RightMin(g, w.op)
    ensures Releases(g, w, op)
    decreases w
  {
    match w
    case Word(_) =>
    case Paren(_) =>
    case Prefix(_, operand) => ReleasesTighter(g, operand, op);
    case Infix(_, o, right) => ReleasesTighter(g, right, op);
    case Invoke(_, _) =>
  }

  /** An operand as it is laid out beside an operator. */
  function LayoutOperand(op: string, operand: Expr, right: bool): Written {
    WrapIf(operand.Binary? && BinaryOperandNeedsParens(op, operand.op, right), Layout(operand))
  }

  lemma LeftReads(g: Grammar, left: Expr, op: string)
    requires Agrees(g) && Reading(g, Layout(left)) && OperandClosed(left)
    requires EndsInUnary(LayoutOperand(op, left, false)) ==> g.precedence(op) < g.unary
    ensures var l := LayoutOperand(op, left, false); Reading(g, l) && Releases(g, l, op) && Fits(g, l, g.precedence(op))
  {
    LayoutInfix(left);
    hide Agrees, Layout, Releases, EndsInUnary;
    if left.Binary? && !BinaryOperandNeedsParens(op, left.op, false) {
      BareLeftOperand(g, op, left.op);
    }
    ReleasesTighter(g, LayoutOperand(op, left, false), op);
  }

  lemma RightReads(g: Grammar, right: Expr, op: string)
    requires Agrees(g) && Reading(g, Layout(right)) && OperandClosed(right) && !(right.Binary? && IsChain(op) && right.op == op)
    ensures var r := LayoutOperand(op, right, true); Reading(g, r) && Fits(g, r, RightMin(g, op))
  {
    LayoutInfix(right);
    hide Agrees, Layout;
    if right.Binary? && !BinaryOperandNeedsParens(op, right.op, true) {
      BareRightOperand(g, op, right.op);
    }
  }

  lemma WrapSafe(g: Grammar, wrap: bool, w: Written)
    requires UnarySafe(g, WrapIf(wrap, w))
    ensures UnarySafe(g, w)
  {
  }

  /** The parentheses the printer writes are enough, but for those it leaves out around unary operands. */
  lemma {:induction false} LayoutReads(g: Grammar, e: Expr)
    requires Agrees(g) && Grouped(e) && TextsClosed(g, e) && UnarySafe(g, Layout(e))
    ensures Reading(g, Layout(e))
    decreases e
  {
    hide Agrees, BinaryOperandNeedsParens;
    match e
    case Atom(_) =>
    case Text(_) =>
    case Unary(_, operand) =>
      WrapSafe(g, operand.Binary?, Layout(operand));
      LayoutReads(g, operand);
      LayoutInfix(operand);
    case Binary(left, op, right) =>
      assert Layout(e) == Infix(LayoutOperand(op, left, false), op, LayoutOperand(op, right, true));
      WrapSafe(g, left.Binary? && BinaryOperandNeedsParens(op, left.op, false), Layout(left));
      WrapSafe(g, right.Binary? && BinaryOperandNeedsParens(op, right.op, true), Layout(right));
      LayoutReads(g, left);
      LayoutReads(g, right);
      LeftReads(g, left, op);
      RightReads(g, right, op);
    case Call(_, args) =>
      LayoutAllIs(args);
      forall i | 0 <= i < |args| ensures Reading(g, LayoutAll(args)[i]) {
        LayoutReads(g, args[i]);
      }
  }

  lemma {:induction false} TightUnarySafe(g: Grammar, w: Written)
    requires UnaryBindsTightest(g)
    ensures UnarySafe(g, w)
    decreases w
  {
    match w
    case Word(_) =>
    case Paren(inner) => TightUnarySafe(g, inner);
    case Prefix(_, operand) => TightUnarySafe(g, operand);
    case Infix(left, _, right) =>
      TightUnarySafe(g, left);
      TightUnarySafe(g, right);
    case Invoke(_, args) =>
      forall i | 0 <= i < |args| ensures UnarySafe(g, args[i]) {
        TightUnarySafe(g, args[i]);
      }
  }

  // ------------------------------------- regrouping moves no unary operator

  lemma {:induction false} JoinEnds(op: string, a: Expr, b: Expr)
    requires IsChain(op)
    ensures EndsInUnary(Layout(Join(op, a, b))) == EndsInUnary(LayoutOperand(op, b, false))
    decreases b
  {
    if b.Binary? && b.op == op {
      ChainSidesAlike(op, b.right);
    } else {
      ChainSidesAlike(op, b);
    }
    ChainBare(op);
  }

  /** A chain stands bare in the chain that it continues. */
  lemma ChainBare(op: string)
    requires IsChain(op)
    ensures !BinaryOperandNeedsParens(op, op, false) && !BinaryOperandNeedsParens(op, op, true)
  {
  }

  lemma ChainLayoutAlike(op: string, e: Expr)
    requires IsChain(op)
    ensures LayoutOperand(op, e, true) == LayoutOperand(op, e, false)
  {
    if e.Binary? {
      ChainRanks(op);
      ChainRanks(e.op);
    }
  }

  lemma {:induction false} JoinSafe(g: Grammar, op: string, a: Expr, b: Expr)
    requires IsChain(op)
    ensures UnarySafe(g, Layout(Join(op, a, b))) <==> UnarySafe(g, Layout(Binary(a, op, b)))
    decreases b
  {
    if b.Binary? && b.op == op {
      JoinSafe(g, op, a, b.left);
      JoinEnds(op, a, b.left);
      ChainLayoutAlike(op, b.left);
      ChainBare(op);
      hide BinaryOperandNeedsParens;
      var left := Join(op, a, b.left);
      var A, BL, BR := LayoutOperand(op, a, false), LayoutOperand(op, b.left, false), LayoutOperand(op, b.right, true);
      assert Layout(Join(op, a, b)) == Infix(Layout(left), op, BR);
      assert Layout(Binary(a, op, b)) == Infix(A, op, Infix(BL, op, BR));
      assert Layout(Binary(a, op, b.left)) == Infix(A, op, BL);
    }
  }

  /** The layouts of two expressions end alike, and have a unary operator in the way alike. */
  ghost predicate SafeAlike(g: Grammar, v: Written, w: Written) {
    (UnarySafe(g, v) <==> UnarySafe(g, w)) && EndsInUnary(v) == EndsInUnary(w)
  }

  lemma OperandSafeAlike(g: Grammar, op: string, a: Expr, b: Expr, right: bool)
    requires a.Binary? == b.Binary? && (a.Binary? ==> a.op == b.op) && SafeAlike(g, Layout(a), Layout(b))
    ensures SafeAlike(g, LayoutOperand(op, a, right), LayoutOperand(op, b, right))
  {
    hide BinaryOperandNeedsParens, Layout;
  }

  lemma LayoutBinary(left: Expr, op: string, right: Expr)
    ensures Layout(Binary(left, op, right)) == Infix(LayoutOperand(op, left, false), op, LayoutOperand(op, right, true))
  {
    hide BinaryOperandNeedsParens;
  }

  lemma InfixSafeAlike(g: Grammar, op: string, v: Written, w: Written, left: Written, right: Written)
    requires SafeAlike(g, v, left) && SafeAlike(g, w, right)
    ensures SafeAlike(g, Infix(v, op, w), Infix(left, op, right))
  {
  }

  lemma InvokeSafeAlike(g: Grammar, callee: string, args: seq<Written>, others: seq<Written>)
    requires |args| == |others| && forall i :: 0 <= i < |args| ==> SafeAlike(g, args[i], others[i])
    ensures SafeAlike(g, Invoke(callee, args), Invoke(callee, others))
  {
  }

  lemma BinarySafeAlike(g: Grammar, op: string, a: Expr, b: Expr, left: Expr, right: Expr)
    requires a.Binary? == left.Binary? && (a.Binary? ==> a.op == left.op) && SafeAlike(g, Layout(a), Layout(left))
    requires b.Binary? == right.Binary? && (b.Binary? ==> b.op == right.op) && SafeAlike(g, Layout(b), Layout(right))
    ensures SafeAlike(g, Layout(Binary(a, op, b)), Layout(Binary(left, op, right)))
  {
    hide *;
    OperandSafeAlike(g, op, a, left, false);
    OperandSafeAlike(g, op, b, right, true);
    LayoutBinary(a, op, b);
    LayoutBinary(left, op, right);
    InfixSafeAlike(g, op, LayoutOperand(op, a, false), LayoutOperand(op, b, true), LayoutOperand(op, left, false), LayoutOperand(op, right, true));
  }

  lemma JoinSafeAlike(g: Grammar, op: string, a: Expr, b: Expr)
    requires IsChain(op)
    ensures SafeAlike(g, Layout(Join(op, a, b)), Layout(Binary(a, op, b)))
  {
    JoinSafe(g, op, a, b);
    JoinEnds(op, a, b);
    ChainLayoutAlike(op, b);
    LayoutBinary(a, op, b);
    hide Layout, LayoutOperand;
  }

  lemma {:induction false} RegroupSafe(g: Grammar, e: Expr)
    ensures SafeAlike(g, Layout(Regroup(e)), Layout(e))
    decreases e
  {
    match e
    case Atom(_) =>
    case Text(_) =>
    case Unary(_, operand) => RegroupSafe(g, operand);
    case Binary(left, op, right) =>
      RegroupSafe(g, left);
      RegroupSafe(g, right);
      BinarySafeAlike(g, op, Regroup(left), Regroup(right), left, right);
      if IsChain(op) {
        JoinSafeAlike(g, op, Regroup(left), Regroup(right));
      }
    case Call(callee, args) =>
      RegroupAllIs(args);
      LayoutAllIs(args);
      LayoutAllIs(RegroupAll(args));
      forall i | 0 <= i < |args| ensures SafeAlike(g, LayoutAll(RegroupAll(args))[i], LayoutAll(args)[i]) {
        RegroupSafe(g, args[i]);
      }
      InvokeSafeAlike(g, callee, LayoutAll(RegroupAll(args)), LayoutAll(args));
  }

  lemma {:induction false} JoinTextsClosed(g: Grammar, op: string, a: Expr, b: Expr)
    requires TextsClosed(g, a) && TextsClosed(g, b) && OperandClosed(a) && OperandClosed(b)
    ensures TextsClosed(g, Join(op, a, b))
    decreases b
  {
    if b.Binary? && b.op == op {
      JoinTextsClosed(g, op, a, b.left);
    }
  }

  lemma {:induction false} RegroupTextsClosed(g: Grammar, e: Expr)
    requires TextsClosed(g, e)
    ensures TextsClosed(g, Regroup(e)) && (OperandClosed(e) ==> OperandClosed(Regroup(e)))
    decreases e
  {
    match e
    case Atom(_) =>
    case Text(_) =>
    case Unary(_, operand) => RegroupTextsClosed(g, operand);
    case Binary(left, op, right) =>
      RegroupTextsClosed(g, left);
      RegroupTextsClosed(g, right);
      JoinTextsClosed(g, op, Regroup(left), Regroup(right));
    case Call(_, args) =>
      RegroupAllIs(args);
      forall i | 0 <= i < |args| ensures TextsClosed(g, RegroupAll(args)[i]) {
        RegroupTextsClosed(g, args[i]);
      }
  }

  /**
   * In a grammar that agrees with the table, printed text reads back as the
   * expression, its chains grouped to the left, exactly when no unary operator
   * stands bare before an operator that binds as tightly or tighter.
   */
  lemma RoundTripsExactlyWhenUnarySafe(g: Grammar, e: Expr)
    requires Agrees(g) && TextsClosed(g, e)
    ensures Parse(g, Print(e)) == Parsed(Resolve(Regroup(e)), []) <==> UnarySafe(g, Layout(e))
  {
    RegroupPrintsAlike(e);
    RegroupGroups(e);
    RegroupTextsClosed(g, e);
    LayoutIsPrinted(Regroup(e));
    LayoutErases(Regroup(e));
    RegroupSafe(g, e);
    var layout := Layout(Regroup(e));
    hide Layout;
    ReadsExactlyWhenEnough(g, layout);
    if Reading(g, layout) {
      ReadingIsSafe(g, layout);
    }
    if UnarySafe(g, layout) {
      LayoutReads(g, Regroup(e));
    }
  }

  /** Where unary operators bind tightest, printed text always reads back as the expression, its chains grouped to the left. */
  lemma PrintThenParse(g: Grammar, e: Expr)
    requires Agrees(g) && UnaryBindsTightest(g) && TextsClosed(g, e)
    ensures Parse(g, Print(e)) == Parsed(Resolve(Regroup(e)), [])
  {
    TightUnarySafe(g, Layout(e));
    RoundTripsExactlyWhenUnarySafe(g, e);
  }

  predicate TextFree(e: Expr) {
    match e
    case Atom(_) => true
    case Text(_) => false
    case Unary(_, operand) => TextFree(operand)
    case Binary(left, _, right) => TextFree(left) && TextFree(right)
    case Call(_, args) => forall i :: 0 <= i < |args| ==> TextFree(args[i])
  }

  lemma {:induction false} TextFreeResolves(g: Grammar, e: Expr)
    requires TextFree(e)
    ensures Resolve(e) == e && TextsClosed(g, e)
    decreases e, 0
  {
    match e
    case Atom(_) =>
    case Unary(_, operand) => TextFreeResolves(g, operand);
    case Binary(left, _, right) =>
      TextFreeResolves(g, left);
      TextFreeResolves(g, right);
    case Call(_, args) =>
      forall i | 0 <= i < |args| ensures TextsClosed(g, args[i]) {
        TextFreeResolves(g, args[i]);
      }
      TextFreeArgsResolve(g, e, args);
  }

  lemma {:induction false} TextFreeArgsResolve(g: Grammar, e: Expr, args: seq<Expr>)
    requires forall i :: 0 <= i < |args| ==> args[i] < e && TextFree(args[i])
    ensures ResolveAll(args) == args
    decreases e, 0, |args|
  {
    if args != [] {
      TextFreeResolves(g, args[0]);
      TextFreeArgsResolve(g, e, args[1..]);
    }
  }

  lemma JoinTextFree(op: string, a: Expr, b: Expr)
    requires TextFree(a) && TextFree(b)
    ensures TextFree(Join(op, a, b))
    decreases b
  {
  }

  lemma {:induction false} RegroupTextFree(e: Expr)
    requires TextFree(e)
    ensures TextFree(Regroup(e))
    decreases e
  {
    match e
    case Atom(_) =>
    case Unary(_, operand) => RegroupTextFree(operand);
    case Binary(left, op, right) =>
      RegroupTextFree(left);
      RegroupTextFree(right);
      JoinTextFree(op, Regroup(left), Regroup(right));
    case Call(_, args) =>
      RegroupAllIs(args);
      forall i | 0 <= i < |args| ensures TextFree(RegroupAll(args)[i]) {
        RegroupTextFree(args[i]);
      }
  }

  ghost predicate RoundTrips(g: Grammar, e: Expr) {
    Parse(g, Print(e)) == Parsed(Regroup(e), [])
  }

  /**
   * Every structured expression reads back from its text in exactly those
   * grammars, among the ones that agree with the table, whose unary operators
   * bind tighter than every binary one: the printer leaves -a ** b bare, which a
   * grammar of looser unary operators reads as -(a ** b).
   */
  lemma RoundTripsExactlyWhenUnaryBindsTightest(g: Grammar)
    requires Agrees(g)
    ensures (forall e :: TextFree(e) ==> RoundTrips(g, e)) <==> UnaryBindsTightest(g)
  {
    if UnaryBindsTightest(g) {
      forall e | TextFree(e) ensures RoundTrips(g, e) {
        TextFreeResolves(g, e);
        RegroupTextFree(e);
        TextFreeResolves(g, Regroup(e));
        PrintThenParse(g, e);
      }
    } else {
      var op :| g.precedence(op) >= g.unary;
      LooserUnaryMisreads(g, op);
    }
  }

  lemma LooserUnaryMisreads(g: Grammar, op: string)
    requires g.precedence(op) >= g.unary
    ensures var e := Binary(Unary("-", Atom("a")), op, Atom("b"));
            TextFree(e) && Parse(g, Print(e)) == Parsed(Unary("-", Binary(Atom("a"), op, Atom("b"))), []) && !RoundTrips(g, e)
  {
    var e := Binary(Unary("-", Atom("a")), op, Atom("b"));
    var tokens := Print(e);
    assert tokens == [Operator("-"), Name("a"), Operator(op), Name("b")];
    assert tokens[1..] == [Name("a"), Operator(op), Name("b")];
    assert tokens[1..][1..] == [Operator(op), Name("b")];
    assert tokens[1..][1..][1..] == [Name("b")];
    assert tokens[1..][1..][1..][1..] == [];
    assert ParseOperand(g, [Name("b")]) == Parsed(Atom("b"), []);
    assert ParseExpr(g, [Name("b")], RightMin(g, op)) == Parsed(Atom("b"), []);
    assert ParseTail(g, Atom("a"), [Operator(op), Name("b")], g.unary) == Parsed(Binary(Atom("a"), op, Atom("b")), []);
    assert ParseExpr(g, tokens[1..], g.unary) == Parsed(Binary(Atom("a"), op, Atom("b")), []);
    assert ParseOperand(g, tokens) == Parsed(Unary("-", Binary(Atom("a"), op, Atom("b"))), []);
    assert ParseExpr(g, tokens, 0) == Parsed(Unary("-", Binary(Atom("a"), op, Atom("b"))), []);
    assert Regroup(e).Binary?;
  }

  /** Two structured expressions have the same text exactly when they differ only in the grouping of chains. */
  lemma SameTextExactlyWhenSameUpToChains(g: Grammar, a: Expr, b: Expr)
    requires Agrees(g) && UnaryBindsTightest(g) && TextFree(a) && TextFree(b)
    ensures Print(a) == Print(b) <==> Regroup(a) == Regroup(b)
  {
    RegroupPrintsAlike(a);
    RegroupPrintsAlike(b);
    RoundTripsExactlyWhenUnaryBindsTightest(g);
    assert RoundTrips(g, a) && RoundTrips(g, b);
  }
}
