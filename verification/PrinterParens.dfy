/**
 * No parentheses the printer writes are needless (pretty_expr.go:10-16,
 * pretty_expr.go:84-106): without any one pair some grammar that agrees with the
 * table misreads the text. And agreeing with the table is just what reading every
 * text back asks of a grammar.
 */
module PrinterParens {
  import opened GoLowering
  import opened Parsing
  import opened Printing
  import opened Syntax

  /** v is w without one pair of parentheses. */
  ghost predicate PairDropped(v: Written, w: Written) {
    match w
    case Word(_) => false
    case Paren(inner) => v == inner || (v.Paren? && PairDropped(v.inner, inner))
    case Prefix(op, operand) => v.Prefix? && v.op == op && PairDropped(v.operand, operand)
    case Infix(left, op, right) =>
      v.Infix? && v.op == op
      && ((PairDropped(v.left, left) && v.right == right) || (v.left == left && PairDropped(v.right, right)))
    case Invoke(callee, args) =>
      v.Invoke? && v.callee == callee && |v.args| == |args|
      && exists i :: 0 <= i < |args| && PairDropped(v.args[i], args[i]) && forall k :: 0 <= k < |args| && k != i ==> v.args[k] == args[k]
  }

  /** A grammar that ranks as the table does, one operator outside the table tighter than all and the others looser. */
  function Ranking(tight: string): Grammar {
    Grammar(op => if Rank(op) > 0 then Rank(op) else if op == tight then 8 else 0, op => op == "**", 9)
  }

  ghost predicate Judge(g: Grammar) {
    Agrees(g) && UnaryBindsTightest(g)
  }

  lemma RankBound(op: string)
    ensures Rank(op) <= 7
  {
  }

  lemma RankingJudges(tight: string)
    ensures Judge(Ranking(tight))
  {
    forall op ensures Ranking(tight).precedence(op) < 9 {
      RankBound(op);
    }
  }

  /** Where the printer parenthesises a left operand, some grammar would take its right end for the operator. */
  lemma LeftNeeds(parent: string, child: string) returns (g: Grammar)
    requires BinaryOperandNeedsParens(parent, child, false)
    ensures Judge(g) && g.precedence(parent) >= RightMin(g, child)
  {
    g := Ranking(parent);
    RankingJudges(parent);
    RankBound(child);
    OnlyOneOfRankSix(parent);
    OnlyOneOfRankSix(child);
  }

  /** Where it parenthesises a right operand, some grammar would take its left end for the operator. */
  lemma RightNeeds(parent: string, child: string) returns (g: Grammar)
    requires BinaryOperandNeedsParens(parent, child, true)
    ensures Judge(g) && g.precedence(child) < RightMin(g, parent)
  {
    g := Ranking(parent);
    RankingJudges(parent);
    RankBound(child);
    OnlyOneOfRankSix(parent);
    OnlyOneOfRankSix(child);
  }

  lemma DroppedKeepsTree(v: Written, w: Written)
    requires PairDropped(v, w)
    ensures Erase(v) == Erase(w)
    decreases w, 0
  {
    match w
    case Paren(inner) =>
      if v != inner {
        DroppedKeepsTree(v.inner, inner);
      }
    case Prefix(_, operand) => DroppedKeepsTree(v.operand, operand);
    case Infix(left, _, right) =>
      if PairDropped(v.left, left) && v.right == right {
        DroppedKeepsTree(v.left, left);
      } else {
        DroppedKeepsTree(v.right, right);
      }
    case Invoke(_, args) =>
      forall i | 0 <= i < |args| ensures Erase(v.args[i]) == Erase(args[i]) {
        if v.args[i] != args[i] {
          DroppedKeepsTree(v.args[i], args[i]);
        }
      }
      SameErased(v.args, args);
  }

  lemma {:induction false} SameErased(a: seq<Written>, b: seq<Written>)
    requires |a| == |b| && forall i :: 0 <= i < |a| ==> Erase(a[i]) == Erase(b[i])
    ensures EraseAll(a) == EraseAll(b)
  {
    if a != [] {
      SameErased(a[1..], b[1..]);
    }
  }

  /** An operand that is parenthesised or not: without the pair, or one inside, it no longer reads. */
  lemma {:induction false} Misread(e: Expr, v: Written) returns (g: Grammar)
    requires TextFree(e) && PairDropped(v, Layout(e))
    ensures Judge(g) && !Reading(g, v)
    decreases e, 0
  {
    hide BinaryOperandNeedsParens, Judge;
    match e
    case Unary(op, operand) =>
      if operand.Binary? && v.operand == Layout(operand) {
        g := Ranking("");
        RankingJudges("");
        UnaryMisreads(g, op, operand);
      } else {
        var inner := if operand.Binary? then v.operand.inner else v.operand;
        g := Misread(operand, inner);
        assert Reading(g, v.operand) ==> Reading(g, inner);
      }
    case Binary(left, op, right) =>
      if PairDropped(v.left, LayoutOperand(op, left, false)) {
        g := MisreadLeft(left, op, v);
      } else {
        g := MisreadRight(right, op, v);
      }
    case Call(_, args) =>
      LayoutAllIs(args);
      var i :| 0 <= i < |args| && PairDropped(v.args[i], LayoutAll(args)[i]);
      g := Misread(args[i], v.args[i]);
  }

  lemma UnaryMisreads(g: Grammar, op: string, operand: Expr)
    requires Judge(g) && operand.Binary?
    ensures !Reading(g, Prefix(op, Layout(operand)))
  {
    LayoutInfix(operand);
    hide Layout, Agrees;
  }

  lemma {:induction false} MisreadLeft(left: Expr, op: string, v: Written) returns (g: Grammar)
    requires TextFree(left) && v.Infix? && v.op == op && PairDropped(v.left, LayoutOperand(op, left, false))
    ensures Judge(g) && !Reading(g, v)
    decreases left, 1
  {
    hide Judge;
    if left.Binary? && BinaryOperandNeedsParens(op, left.op, false) {
      if v.left == Layout(left) {
        g := LeftNeeds(op, left.op);
        LayoutInfix(left);
      } else {
        g := Misread(left, v.left.inner);
      }
    } else {
      g := Misread(left, v.left);
    }
  }

  lemma {:induction false} MisreadRight(right: Expr, op: string, v: Written) returns (g: Grammar)
    requires TextFree(right) && v.Infix? && v.op == op && PairDropped(v.right, LayoutOperand(op, right, true))
    ensures Judge(g) && !Reading(g, v)
    decreases right, 1
  {
    hide Judge;
    if right.Binary? && BinaryOperandNeedsParens(op, right.op, true) {
      if v.right == Layout(right) {
        g := RightNeeds(op, right.op);
        LayoutInfix(right);
      } else {
        g := Misread(right, v.right.inner);
      }
    } else {
      g := Misread(right, v.right);
    }
  }

  /**
   * No pair of parentheses in a printed expression is needless: some grammar that
   * agrees with the table and binds unary operators tightest reads the text as the
   * expression, its chains grouped to the left, but not without the pair.
   */
  lemma NoParensAreNeedless(e: Expr, v: Written)
    requires TextFree(e) && PairDropped(v, Layout(Regroup(e)))
    ensures Tokens(Layout(Regroup(e))) == Print(e) && Erase(v) == Regroup(e)
    ensures exists g :: Agrees(g) && UnaryBindsTightest(g) && RoundTrips(g, e) && Parse(g, Tokens(v)) != Parsed(Regroup(e), [])
  {
    var y := Regroup(e);
    RegroupPrintsAlike(e);
    RegroupTextFree(e);
    LayoutIsPrinted(y);
    LayoutErases(y);
    TextFreeResolves(Ranking(""), y);
    DroppedKeepsTree(v, Layout(y));
    var g := Misread(y, v);
    ReadsExactlyWhenEnough(g, v);
    RoundTripsExactlyWhenUnaryBindsTightest(g);
    hide Layout, Reading, Agrees, UnaryBindsTightest, RoundTrips;
    assert Judge(g);
  }

  // ------------------------------------------------- two operators

  /** The tokens read as the expression, up to the grouping of chains. */
  ghost predicate ReadsAs(g: Grammar, tokens: seq<Token>, e: Expr) {
    var r := Parse(g, tokens);
    r.Parsed? && r.rest == [] && Regroup(r.value) == Regroup(e)
  }

  function LeftTree(a: string, child: string, b: string, parent: string, c: string): Expr {
    Binary(Binary(Atom(a), child, Atom(b)), parent, Atom(c))
  }

  function RightTree(a: string, parent: string, b: string, child: string, c: string): Expr {
    Binary(Atom(a), parent, Binary(Atom(b), child, Atom(c)))
  }

  function Bare(a: string, first: string, b: string, second: string, c: string): seq<Token> {
    [Name(a), Operator(first), Name(b), Operator(second), Name(c)]
  }

  function TwoWords(a: string, op: string, b: string): (w: Written)
    ensures Tokens(w) == [Name(a), Operator(op), Name(b)] && Erase(w) == Binary(Atom(a), op, Atom(b))
  {
    var w := Infix(Word(a), op, Word(b));
    assert Tokens(Word(a)) == [Name(a)] && Tokens(Word(b)) == [Name(b)];
    w
  }

  lemma PrintTwo(a: string, op: string, b: string)
    ensures Print(Binary(Atom(a), op, Atom(b))) == [Name(a), Operator(op), Name(b)]
  {
    assert Print(Atom(a)) == [Name(a)] && Print(Atom(b)) == [Name(b)];
  }

  /** What is printed of a left operand, and of a right one. */
  lemma PrintGroupings(a: string, first: string, b: string, second: string, c: string)
    ensures Print(LeftTree(a, first, b, second, c)) ==
      if BinaryOperandNeedsParens(second, first, false) then [Open, Name(a), Operator(first), Name(b), Close, Operator(second), Name(c)]
      else Bare(a, first, b, second, c)
    ensures Print(RightTree(a, first, b, second, c)) ==
      if BinaryOperandNeedsParens(first, second, true) then [Name(a), Operator(first), Open, Name(b), Operator(second), Name(c), Close]
      else Bare(a, first, b, second, c)
  {
    PrintTwo(a, first, b);
    PrintTwo(b, second, c);
    var left, right := Binary(Atom(a), first, Atom(b)), Binary(Atom(b), second, Atom(c));
    assert Print(LeftTree(a, first, b, second, c)) == PrintOperand(second, left, false) + [Operator(second)] + PrintOperand(second, Atom(c), true);
    assert Print(RightTree(a, first, b, second, c)) == PrintOperand(first, Atom(a), false) + [Operator(first)] + PrintOperand(first, right, true);
    assert PrintOperand(second, Atom(c), true) == [Name(c)] && PrintOperand(first, Atom(a), false) == [Name(a)];
    hide BinaryOperandNeedsParens, Print;
  }

  lemma WordReads(g: Grammar, text: string, op: string)
    ensures Reading(g, Word(text)) && Releases(g, Word(text), op) && Erase(Word(text)) == Atom(text) && Tokens(Word(text)) == [Name(text)]
  {
  }

  lemma TwoRead(g: Grammar, a: string, op: string, b: string)
    ensures Reading(g, TwoWords(a, op, b)) && TwoWords(a, op, b) == Infix(Word(a), op, Word(b))
  {
    WordReads(g, a, op);
    WordReads(g, b, op);
    hide Releases, Erase, Tokens;
  }

  lemma GroupsRight(g: Grammar, a: string, first: string, b: string, second: string, c: string)
    requires g.precedence(second) >= RightMin(g, first)
    ensures Parse(g, Bare(a, first, b, second, c)) == Parsed(RightTree(a, first, b, second, c), [])
  {
    var inner := TwoWords(b, second, c);
    var w := Infix(Word(a), first, inner);
    WordReads(g, a, first);
    TwoRead(g, b, second, c);
    assert Reading(g, w) by { hide Releases, Tokens, Erase; }
    hide Reading;
    assert Tokens(w) == Tokens(Word(a)) + [Operator(first)] + Tokens(inner);
    assert Tokens(w) == Bare(a, first, b, second, c);
    ReadsBack(g, w);
  }

  lemma GroupsLeft(g: Grammar, a: string, first: string, b: string, second: string, c: string)
    requires g.precedence(second) < RightMin(g, first) && g.precedence(second) <= g.precedence(first)
    ensures Parse(g, Bare(a, first, b, second, c)) == Parsed(LeftTree(a, first, b, second, c), [])
  {
    var inner := TwoWords(a, first, b);
    var w := Infix(inner, second, Word(c));
    WordReads(g, b, second);
    WordReads(g, c, second);
    TwoRead(g, a, first, b);
    assert Reading(g, w) by { hide Tokens, Erase; }
    hide Reading;
    assert Tokens(w) == Tokens(inner) + [Operator(second)] + Tokens(Word(c));
    assert Tokens(w) == Bare(a, first, b, second, c);
    ReadsBack(g, w);
  }

  /** Regrouping makes one of the two groupings into the other only where the operators are one chain. */
  lemma GroupingsDiffer(a: string, first: string, b: string, second: string, c: string)
    ensures Regroup(LeftTree(a, first, b, second, c)) == Regroup(RightTree(a, first, b, second, c)) <==> first == second && IsChain(first)
  {
  }

  /** Some grammar that agrees with the table misreads the tokens. */
  ghost predicate Misleading(tokens: seq<Token>, e: Expr) {
    exists g :: Agrees(g) && UnaryBindsTightest(g) && !ReadsAs(g, tokens, e)
  }

  lemma PrintedIsNotMisleading(e: Expr)
    requires TextFree(e)
    ensures !Misleading(Print(e), e)
  {
    forall g | Agrees(g) && UnaryBindsTightest(g) ensures ReadsAs(g, Print(e), e) {
      RoundTripsExactlyWhenUnaryBindsTightest(g);
      assert RoundTrips(g, e);
      RegroupOnce(e);
    }
  }

  lemma RegroupOnce(e: Expr)
    requires TextFree(e)
    ensures Regroup(Regroup(e)) == Regroup(e)
  {
    var g := Ranking("");
    RankingJudges("");
    RegroupTextFree(e);
    RegroupPrintsAlike(e);
    SameTextExactlyWhenSameUpToChains(g, Regroup(e), e);
  }

  /** A left operand is parenthesised exactly when bare tokens would mislead. */
  lemma LeftParensExactlyWhenMisleading(a: string, child: string, b: string, parent: string, c: string)
    ensures var e, bare := LeftTree(a, child, b, parent, c), Bare(a, child, b, parent, c);
            Print(e) == if Misleading(bare, e) then [Open, Name(a), Operator(child), Name(b), Close, Operator(parent), Name(c)] else bare
  {
    var e, bare := LeftTree(a, child, b, parent, c), Bare(a, child, b, parent, c);
    PrintGroupings(a, child, b, parent, c);
    GroupingsDiffer(a, child, b, parent, c);
    if BinaryOperandNeedsParens(parent, child, false) {
      ChainsStandBare(parent, child, false);
      var g := LeftNeeds(parent, child);
      GroupsRight(g, a, child, b, parent, c);
      MisreadIsMisleading(g, bare, e);
    } else {
      PrintedIsNotMisleading(e);
    }
  }

  /** So is a right operand. */
  lemma RightParensExactlyWhenMisleading(a: string, parent: string, b: string, child: string, c: string)
    ensures var e, bare := RightTree(a, parent, b, child, c), Bare(a, parent, b, child, c);
            Print(e) == if Misleading(bare, e) then [Name(a), Operator(parent), Open, Name(b), Operator(child), Name(c), Close] else bare
  {
    var e, bare := RightTree(a, parent, b, child, c), Bare(a, parent, b, child, c);
    PrintGroupings(a, parent, b, child, c);
    GroupingsDiffer(a, parent, b, child, c);
    if BinaryOperandNeedsParens(parent, child, true) {
      ChainsStandBare(parent, child, true);
      var g := RightNeeds(parent, child);
      LooserOrEqual(g, parent, child);
      GroupsLeft(g, a, parent, b, child, c);
      MisreadIsMisleading(g, bare, e);
    } else {
      PrintedIsNotMisleading(e);
    }
  }

  lemma ChainsStandBare(parent: string, child: string, right: bool)
    requires BinaryOperandNeedsParens(parent, child, right)
    ensures !(parent == child && IsChain(parent))
  {
  }

  lemma MisreadIsMisleading(g: Grammar, tokens: seq<Token>, e: Expr)
    requires Judge(g) && Parse(g, tokens).Parsed? && Regroup(Parse(g, tokens).value) != Regroup(e)
    ensures Misleading(tokens, e)
  {
    hide Agrees, UnaryBindsTightest, Parse, Regroup;
    assert !ReadsAs(g, tokens, e);
  }

  lemma LooserOrEqual(g: Grammar, parent: string, child: string)
    requires g.precedence(child) < RightMin(g, parent)
    ensures g.precedence(child) <= g.precedence(parent)
  {
  }

  // ------------------------------------------------- what grammars agree

  lemma ReadBack(g: Grammar, e: Expr)
    requires TextFree(e) && Regroup(e) == e && RoundTrips(g, e)
    ensures Reading(g, Layout(e))
  {
    LayoutIsPrinted(e);
    LayoutErases(e);
    TextFreeResolves(g, e);
    ReadsExactlyWhenEnough(g, Layout(e));
  }

  /** A left operand printed bare binds tighter, or as tightly and groups to the left. */
  lemma BareLeftReads(g: Grammar, parent: string, child: string)
    requires !BinaryOperandNeedsParens(parent, child, false)
    requires RoundTrips(g, LeftTree("a", child, "b", parent, "c"))
    ensures g.precedence(parent) < RightMin(g, child) && g.precedence(parent) <= g.precedence(child)
  {
    var e := LeftTree("a", child, "b", parent, "c");
    LeftIsGrouped("a", child, "b", parent, "c");
    ReadBack(g, e);
    var left := Infix(Word("a"), child, Word("b"));
    assert Layout(Atom("a")) == Word("a") && Layout(Atom("b")) == Word("b") && Layout(Atom("c")) == Word("c");
    assert Layout(e.left) == left && Layout(e) == Infix(left, parent, Word("c"));
    assert Reading(g, Infix(left, parent, Word("c")));
    assert Releases(g, left, parent) && Fits(g, left, g.precedence(parent));
  }

  lemma LeftIsGrouped(a: string, first: string, b: string, second: string, c: string)
    ensures Regroup(LeftTree(a, first, b, second, c)) == LeftTree(a, first, b, second, c) && TextFree(LeftTree(a, first, b, second, c))
  {
    assert Regroup(Binary(Atom(a), first, Atom(b))) == Binary(Atom(a), first, Atom(b));
  }

  lemma BareRightReads(g: Grammar, parent: string, child: string)
    requires !BinaryOperandNeedsParens(parent, child, true) && !(parent == child && IsChain(parent))
    requires RoundTrips(g, RightTree("a", parent, "b", child, "c"))
    ensures g.precedence(child) >= RightMin(g, parent)
  {
    var e := RightTree("a", parent, "b", child, "c");
    RightIsGrouped("a", parent, "b", child, "c");
    ReadBack(g, e);
    assert Layout(e) == Infix(Word("a"), parent, Layout(e.right)) && Layout(e.right) == Infix(Word("b"), child, Word("c"));
  }

  lemma RightIsGrouped(a: string, first: string, b: string, second: string, c: string)
    requires !(first == second && IsChain(first))
    ensures Regroup(RightTree(a, first, b, second, c)) == RightTree(a, first, b, second, c) && TextFree(RightTree(a, first, b, second, c))
  {
    assert Regroup(Binary(Atom(b), second, Atom(c))) == Binary(Atom(b), second, Atom(c));
  }

  lemma AllReadAgree(g: Grammar)
    requires forall e :: TextFree(e) ==> RoundTrips(g, e)
    ensures Agrees(g)
  {
    hide RoundTrips, BinaryOperandNeedsParens;
    forall p, c | !BinaryOperandNeedsParens(p, c, false) ensures g.precedence(p) < RightMin(g, c) && g.precedence(p) <= g.precedence(c) {
      LeftIsGrouped("a", c, "b", p, "c");
      BareLeftReads(g, p, c);
    }
    forall p, c | !BinaryOperandNeedsParens(p, c, true) && !(p == c && IsChain(p)) ensures g.precedence(c) >= RightMin(g, p) {
      RightIsGrouped("a", p, "b", c, "c");
      BareRightReads(g, p, c);
    }
    AgreesWhole(g);
  }

  lemma AgreesWhole(g: Grammar)
    requires forall p, c :: !BinaryOperandNeedsParens(p, c, false) ==> g.precedence(p) < RightMin(g, c) && g.precedence(p) <= g.precedence(c)
    requires forall p, c :: !BinaryOperandNeedsParens(p, c, true) && !(p == c && IsChain(p)) ==> g.precedence(c) >= RightMin(g, p)
    ensures Agrees(g)
  {
    forall a, b | 0 < Rank(a) < Rank(b) ensures RightMin(g, a) <= g.precedence(b) {
      assert !BinaryOperandNeedsParens(a, b, true);
    }
    forall a, b | 0 < Rank(a) == Rank(b) ensures g.precedence(a) == g.precedence(b) {
      OnlyOneOfRankSix(a);
      OnlyOneOfRankSix(b);
      if a != b {
        assert !BinaryOperandNeedsParens(a, b, false) && !BinaryOperandNeedsParens(b, a, false);
      }
    }
    forall a ensures g.groupsRight(a) <==> a == "**" {
      if a == "**" {
        assert !BinaryOperandNeedsParens(a, a, true);
      } else {
        assert !BinaryOperandNeedsParens(a, a, false);
      }
    }
  }

  /** Every structured expression reads back in exactly the grammars that agree with the table and bind unary operators tightest. */
  lemma RoundTripsExactlyWhenAgreeing(g: Grammar)
    ensures (forall e :: TextFree(e) ==> RoundTrips(g, e)) <==> Agrees(g) && UnaryBindsTightest(g)
  {
    hide RoundTrips, TextFree;
    if forall e :: TextFree(e) ==> RoundTrips(g, e) {
      AllReadAgree(g);
    }
    if Agrees(g) {
      RoundTripsExactlyWhenUnaryBindsTightest(g);
    }
  }

  /**
   * The table ranks == and < alike, as Go does. A grammar that ranks == looser, as C,
   * Java and JavaScript do, reads (a == b) < c from its text as a == (b < c).
   */
  lemma LooserEqualityMisreads(g: Grammar)
    requires g.precedence("==") < g.precedence("<")
    ensures var e := LeftTree("a", "==", "b", "<", "c");
            Print(e) == Bare("a", "==", "b", "<", "c") && Parse(g, Print(e)) == Parsed(RightTree("a", "==", "b", "<", "c"), []) && !RoundTrips(g, e)
  {
    hide Print, Parse, Regroup, Layout;
    GroupsRight(g, "a", "==", "b", "<", "c");
    GroupingsDiffer("a", "==", "b", "<", "c");
    PrintGroupings("a", "==", "b", "<", "c");
    LeftIsGrouped("a", "==", "b", "<", "c");
    SameRank();
  }

  lemma SameRank()
    ensures !BinaryOperandNeedsParens("<", "==", false)
  {
  }

  // ------------------------------------------------- which are ranked

  /** The levels of the C standard, of the operators Go has as well. */
  function CPrecedence(op: string): nat {
    if op == "||" then 1
    else if op == "&&" then 2
    else if op == "|" then 3
    else if op == "^" then 4
    else if op == "&" then 5
    else if op == "==" || op == "!=" then 6
    else if op == "<" || op == "<=" || op == ">" || op == ">=" then 7
    else if op == "<<" || op == ">>" then 8
    else if op == "+" || op == "-" then 9
    else if op == "*" || op == "/" || op == "%" then 10
    else 0
  }

  predicate InBoth(op: string) {
    op in GO_PRECEDENCE && CPrecedence(op) > 0
  }

  /** One of the two languages binds a tighter than b, the other b tighter than a. */
  predicate Contrary(a: string, b: string)
    requires InBoth(a) && InBoth(b)
  {
    || (GO_PRECEDENCE[a] < GO_PRECEDENCE[b] && CPrecedence(a) > CPrecedence(b))
    || (GO_PRECEDENCE[a] > GO_PRECEDENCE[b] && CPrecedence(a) < CPrecedence(b))
  }

  lemma Ranked(op: string)
    requires CPrecedence(op) > 0
    ensures Rank(op) == 0 ==> op == "|" || op == "^" || op == "&" || op == "<<" || op == ">>"
    ensures Rank(op) == 1 ==> op == "||"
    ensures Rank(op) == 2 ==> op == "&&"
    ensures Rank(op) == 3 ==> op == "==" || op == "!=" || op == "<" || op == "<=" || op == ">" || op == ">="
    ensures Rank(op) == 4 ==> op == "+" || op == "-"
    ensures Rank(op) == 5 ==> op == "*" || op == "/" || op == "%"
    ensures Rank(op) <= 5
  {
  }

  lemma Levels(op: string)
    requires InBoth(op) && Rank(op) > 0
    ensures Rank(op) == GO_PRECEDENCE[op] && Rank(op) <= 5
    ensures Rank(op) == 1 ==> CPrecedence(op) == 1
    ensures Rank(op) == 2 ==> CPrecedence(op) == 2
    ensures Rank(op) == 3 ==> 6 <= CPrecedence(op) <= 7
    ensures Rank(op) == 4 ==> CPrecedence(op) == 9
    ensures Rank(op) == 5 ==> CPrecedence(op) == 10
  {
    Ranked(op);
    GoMatchesTable(op);
    hide Rank;
  }

  /** An operator of Go and C is ranked exactly when the two do not bind it and some ranked one contrarily. */
  lemma RankedExactlyWhereGoAndCAgree(op: string)
    requires InBoth(op)
    ensures Rank(op) > 0 <==> forall other :: InBoth(other) && Rank(other) > 0 ==> !Contrary(op, other)
  {
    if Rank(op) > 0 {
      Levels(op);
      forall other | InBoth(other) && Rank(other) > 0 ensures !Contrary(op, other) {
        Levels(other);
        hide Rank, CPrecedence;
      }
    } else {
      Ranked(op);
      EqualityIsContrary();
      SumIsContrary();
    }
    hide Rank, Contrary;
  }

  lemma EqualityIsContrary()
    ensures InBoth("==") && Rank("==") > 0
    ensures InBoth("|") && Contrary("|", "==") && InBoth("^") && Contrary("^", "==") && InBoth("&") && Contrary("&", "==")
  {
  }

  lemma SumIsContrary()
    ensures InBoth("+") && Rank("+") > 0
    ensures InBoth("<<") && Contrary("<<", "+") && InBoth(">>") && Contrary(">>", "+")
  {
  }
}
