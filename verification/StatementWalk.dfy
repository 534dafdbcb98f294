/**
 * The guarded walk over a body's statements (walk_stmt.go): each nested
 * statement is visited with the conditions and the loops it lies under.
 */
module StatementWalk {
  import opened Common

  datatype Case = Case(condition: Stmt, body: Stmt)

  /**
   * A statement, in its value form. Other stands for every kind whose parts are
   * walked in order and in its own scope: calls, operators, assignments,
   * returns, throws, literals and the rest; a leaf has no parts.
   */
  datatype Stmt =
    | Expr(variant: Option<Stmt>, content: string)
    | Condition(expr: Stmt)
    | Other(kind: string, parts: seq<Stmt>)
    | Block(children: seq<Stmt>)
    | If(condition: Stmt, thenBlock: Stmt, elseBlock: Option<Stmt>)
    | Switch(value: Stmt, cases: seq<Case>)
    | For(init: Stmt, cond: Stmt, body: Stmt, update: Stmt)
    | ForEach(variable: Stmt, iterable: Stmt, body: Stmt)
    | While(cond: Stmt, body: Stmt)
    | Try(body: Stmt, catchBlock: Stmt)
    | FunctionDecl(function_: Option<Stmt>)

  // ------------------------------------------------------------ conditions

  function ExprOf(condition: Stmt): Stmt {
    if condition.Condition? then condition.expr else condition
  }

  function UnaryExpr(op: string, operand: Stmt): Stmt {
    Expr(Some(Other(op, [operand])), "")
  }

  function BinaryExpr(left: Stmt, op: string, right: Stmt): Stmt {
    Expr(Some(Other(op, [left, right])), "")
  }

  predicate EmptyExpr(e: Stmt) {
    e.Expr? && e.variant.None? && e.content == ""
  }

  predicate EmptyCondition(condition: Stmt) {
    EmptyExpr(ExprOf(condition))
  }

  function Negated(condition: Stmt): Stmt {
    Condition(UnaryExpr("!", ExprOf(condition)))
  }

  function CaseMatch(value: Stmt, condition: Stmt): Stmt {
    if EmptyExpr(value) then ExprOf(condition) else BinaryExpr(value, "==", ExprOf(condition))
  }

  function AnyOf(exprs: seq<Stmt>): Stmt
    requires exprs != []
  {
    if |exprs| == 1 then exprs[0] else BinaryExpr(AnyOf(exprs[..|exprs| - 1]), "||", exprs[|exprs| - 1])
  }

  /** The matches of the cases that have a condition, in order. */
  function Matches(value: Stmt, cases: seq<Case>): seq<Stmt> {
    if cases == [] then [] else
      var n := |cases| - 1;
      Matches(value, cases[..n]) + if EmptyCondition(cases[n].condition) then [] else [CaseMatch(value, cases[n].condition)]
  }

  // ----------------------------------------------------------------- parts

  /** A statement directly inside another, the guards it lies under there, and whether in a loop body. */
  datatype Part = Part(stmt: Stmt, guards: seq<Stmt>, loops: nat)

  function Plain(stmt: Stmt): Part {
    Part(stmt, [], 0)
  }

  function Looped(condition: Stmt, stmt: Stmt): Part {
    Part(stmt, if EmptyCondition(condition) then [] else [condition], 1)
  }

  /** The guards of the body of a case: its match, or for a default that no case with a condition matches. */
  function CaseGuards(value: Stmt, cases: seq<Case>, c: Case): seq<Stmt> {
    if !EmptyCondition(c.condition) then [Condition(CaseMatch(value, c.condition))]
    else if Matches(value, cases) != [] then [Negated(Condition(AnyOf(Matches(value, cases))))]
    else []
  }

  /** A case's condition at even places, its body at odd ones. */
  function CasePart(value: Stmt, cases: seq<Case>, i: nat): Part
    requires i < 2 * |cases|
  {
    var c := cases[i / 2];
    if i % 2 == 0 then Plain(c.condition) else Part(c.body, CaseGuards(value, cases, c), 0)
  }

  function Parts(s: Stmt): (parts: seq<Part>)
    ensures forall i :: 0 <= i < |parts| ==> parts[i].stmt < s
  {
    match s
    case Expr(variant, _) => if variant.Some? then [Plain(variant.value)] else []
    case Condition(e) => [Plain(e)]
    case Other(_, inner) => seq(|inner|, i requires 0 <= i < |inner| => Plain(inner[i]))
    case Block(children) => seq(|children|, i requires 0 <= i < |children| => Plain(children[i]))
    case If(condition, t, e) =>
      [Plain(condition), Part(t, [condition], 0)] + if e.Some? then [Part(e.value, [Negated(condition)], 0)] else []
    case Switch(value, cases) => [Plain(value)] + seq(2 * |cases|, i requires 0 <= i < 2 * |cases| => CasePart(value, cases, i))
    case For(init, cond, body, update) => [Plain(init), Plain(cond), Looped(cond, body), Looped(cond, update)]
    case ForEach(variable, iterable, body) => [Plain(variable), Plain(iterable), Part(body, [], 1)]
    case While(cond, body) => [Plain(cond), Looped(cond, body)]
    case Try(body, catchBlock) => [Plain(body), Plain(catchBlock)]
    case FunctionDecl(body) => if body.Some? then [Plain(body.value)] else []
  }

  // ---------------------------------------------------------------- visits

  datatype Scope = Scope(guards: seq<Stmt>, loops: nat, order: nat)

  /** Which part of which part a statement is, from the outside in. */
  type Path = seq<nat>

  datatype Visit = Visit(stmt: Stmt, path: Path, scope: Scope)

  type Visitor = (Stmt, Scope) -> bool

  function Under(scope: Scope, part: Part): Scope {
    scope.(guards := scope.guards + part.guards, loops := scope.loops + part.loops)
  }

  /** The visits of a walk that starts at a statement, with the order of the first given by the scope. */
  function Visits(visit: Visitor, s: Stmt, path: Path, scope: Scope): seq<Visit>
    decreases s, 1
  {
    [Visit(s, path, scope)] +
    if visit(s, scope) then PartVisits(visit, s, |Parts(s)|, path, scope.(order := scope.order + 1)) else []
  }

  function PartVisits(visit: Visitor, s: Stmt, k: nat, path: Path, scope: Scope): seq<Visit>
    requires k <= |Parts(s)|
    decreases s, 0, k
  {
    if k == 0 then [] else
      var before := PartVisits(visit, s, k - 1, path, scope);
      var part := Parts(s)[k - 1];
      before + Visits(visit, part.stmt, path + [k - 1], Under(scope, part).(order := scope.order + |before|))
  }

  lemma VisitsIs(visit: Visitor, s: Stmt, path: Path, scope: Scope)
    ensures Visits(visit, s, path, scope) == [Visit(s, path, scope)] +
      if visit(s, scope) then PartVisits(visit, s, |Parts(s)|, path, scope.(order := scope.order + 1)) else []
  {
    hide PartVisits, Parts;
  }

  lemma UnderOrder(scope: Scope, part: Part, order: nat)
    ensures Under(scope.(order := order), part) == Under(scope, part).(order := order)
  {
  }

  lemma PartVisitsStep(visit: Visitor, s: Stmt, k: nat, path: Path, scope: Scope)
    requires k < |Parts(s)|
    ensures var before := PartVisits(visit, s, k, path, scope);
            PartVisits(visit, s, k + 1, path, scope) == before +
            Visits(visit, Parts(s)[k].stmt, path + [k], Under(scope, Parts(s)[k]).(order := scope.order + |before|))
  {
    hide Parts, Visits, Under;
  }

  // ------------------------------------------------------------ the walker

  class StatementWalker {
    const visit: Visitor
    var order: nat
    ghost var visited: seq<Visit>

    constructor (visit: Visitor)
      ensures this.visit == visit && order == 0 && visited == []
    {
      this.visit, order, visited := visit, 0, [];
    }

    /** Visits the first parts, in order, of the statement at the path. */
    ghost predicate Walked(before: seq<Visit>, s: Stmt, k: nat, path: Path, scope: Scope)
      requires k <= |Parts(s)|
      reads this
    {
      visited == before + PartVisits(visit, s, k, path, scope) && order == scope.order + |PartVisits(visit, s, k, path, scope)|
    }

    lemma NoneWalked(s: Stmt, path: Path, scope: Scope)
      requires scope.order == order
      ensures Walked(visited, s, 0, path, scope)
    {
      hide Parts;
    }

    lemma WalkedParts(before: seq<Visit>, s: Stmt, k: nat, path: Path, scope: Scope)
      requires k <= |Parts(s)| && Walked(before, s, k, path, scope)
      ensures visited == before + PartVisits(visit, s, k, path, scope) && order == scope.order + |PartVisits(visit, s, k, path, scope)|
    {
      hide Parts, PartVisits;
    }

    lemma WalkedWhole(before: seq<Visit>, s: Stmt, k: nat, path: Path, scope: Scope)
      requires k <= |Parts(s)|
      requires visited == before + PartVisits(visit, s, k, path, scope) && order == scope.order + |PartVisits(visit, s, k, path, scope)|
      ensures Walked(before, s, k, path, scope)
    {
      hide Parts, PartVisits;
    }

    method Walk(s: Stmt, scope: Scope, ghost path: Path)
      modifies this
      ensures visited == old(visited) + Visits(visit, s, path, scope.(order := old(order)))
      ensures order == old(order) + |Visits(visit, s, path, scope.(order := old(order)))|
      decreases s, 3
    {
      hide *;
      var here := scope.(order := order);
      VisitsIs(visit, s, path, here);
      order := order + 1;
      visited := visited + [Visit(s, path, here)];
      if !visit(s, here) {
        return;
      }
      ghost var before, first := visited, here.(order := order);
      Inside(s, here, path);
      WalkedParts(before, s, |Parts(s)|, path, first);
    }

    /** One part, once those before it are walked. */
    method Step(s: Stmt, part: Part, k: nat, ghost before: seq<Visit>, scope: Scope, ghost first: Scope, ghost path: Path)
      requires k < |Parts(s)| && part == Parts(s)[k] && first == scope.(order := first.order)
      requires Walked(before, s, k, path, first)
      modifies this
      ensures Walked(before, s, k + 1, path, first)
      decreases s, 0
    {
      hide *;
      ghost var last := visited;
      assert Under(first, part) == Under(scope, part).(order := first.order) by { UnderOrder(scope, part, first.order); }
      WalkedParts(before, s, k, path, first);
      ghost var walked := PartVisits(visit, s, k, path, first);
      Walk(part.stmt, Under(scope, part), path + [k]);
      PartVisitsStep(visit, s, k, path, first);
      WalkedWhole(before, s, k + 1, path, first);
    }

    method Inside(s: Stmt, scope: Scope, ghost path: Path)
      modifies this
      ensures Walked(old(visited), s, |Parts(s)|, path, scope.(order := old(order)))
      decreases s, 2
    {
      hide Visits, PartVisits, Walked, CaseGuards, CasePart, Matches, EmptyCondition, Negated, UnaryExpr, ExprOf;
      ghost var before, first := visited, scope.(order := order);
      NoneWalked(s, path, first);
      match s
      case Expr(variant, _) =>
        if variant.Some? {
          Step(s, Plain(variant.value), 0, before, scope, first, path);
        }
      case Condition(e) =>
        Step(s, Plain(e), 0, before, scope, first, path);
      case Other(_, parts) =>
        for i := 0 to |parts|
          invariant Walked(before, s, i, path, first)
        {
          Step(s, Plain(parts[i]), i, before, scope, first, path);
        }
      case Block(children) =>
        for i := 0 to |children|
          invariant Walked(before, s, i, path, first)
        {
          Step(s, Plain(children[i]), i, before, scope, first, path);
        }
      case If(condition, t, e) =>
        Step(s, Plain(condition), 0, before, scope, first, path);
        Step(s, Part(t, [condition], 0), 1, before, scope, first, path);
        if e.Some? {
          Step(s, Part(e.value, [Negated(condition)], 0), 2, before, scope, first, path);
        }
      case Switch(value, cases) =>
        SwitchCases(s, scope, path);
      case For(init, cond, body, update) =>
        Step(s, Plain(init), 0, before, scope, first, path);
        Step(s, Plain(cond), 1, before, scope, first, path);
        Step(s, Looped(cond, body), 2, before, scope, first, path);
        Step(s, Looped(cond, update), 3, before, scope, first, path);
      case ForEach(variable, iterable, body) =>
        Step(s, Plain(variable), 0, before, scope, first, path);
        Step(s, Plain(iterable), 1, before, scope, first, path);
        Step(s, Part(body, [], 1), 2, before, scope, first, path);
      case While(cond, body) =>
        Step(s, Plain(cond), 0, before, scope, first, path);
        Step(s, Looped(cond, body), 1, before, scope, first, path);
      case Try(body, catchBlock) =>
        Step(s, Plain(body), 0, before, scope, first, path);
        Step(s, Plain(catchBlock), 1, before, scope, first, path);
      case FunctionDecl(body) =>
        if body.Some? {
          Step(s, Plain(body.value), 0, before, scope, first, path);
        }
    }

    /** The value, then each case: its condition, and its body under the case's guards. */
    method SwitchCases(s: Stmt, scope: Scope, ghost path: Path)
      requires s.Switch?
      modifies this
      ensures Walked(old(visited), s, |Parts(s)|, path, scope.(order := old(order)))
      decreases s, 1
    {
      hide *;
      ghost var before, first := visited, scope.(order := order);
      NoneWalked(s, path, first);
      SwitchParts(s);
      Step(s, Plain(s.value), 0, before, scope, first, path);
      var matches := CollectMatches(s.value, s.cases);
      for i := 0 to |s.cases|
        invariant Walked(before, s, 1 + 2 * i, path, first)
      {
        var c := s.cases[i];
        Step(s, Plain(c.condition), 1 + 2 * i, before, scope, first, path);
        var guards := BodyGuards(s.value, s.cases, matches, c);
        Step(s, Part(c.body, guards, 0), 2 + 2 * i, before, scope, first, path);
      }
    }
  }

  method CollectMatches(value: Stmt, cases: seq<Case>) returns (matches: seq<Stmt>)
    ensures matches == Matches(value, cases)
  {
    matches := [];
    for i := 0 to |cases|
      invariant matches == Matches(value, cases[..i])
    {
      assert cases[..i + 1][..i] == cases[..i];
      if !EmptyCondition(cases[i].condition) {
        matches := matches + [CaseMatch(value, cases[i].condition)];
      }
    }
    assert cases[..|cases|] == cases;
  }

  method BodyGuards(value: Stmt, ghost cases: seq<Case>, matches: seq<Stmt>, c: Case) returns (guards: seq<Stmt>)
    requires matches == Matches(value, cases)
    ensures guards == CaseGuards(value, cases, c)
  {
    guards := [];
    if !EmptyCondition(c.condition) {
      guards := [Condition(CaseMatch(value, c.condition))];
    } else if |matches| > 0 {
      guards := [Negated(Condition(AnyOf(matches)))];
    }
  }

  lemma SwitchParts(s: Stmt)
    requires s.Switch?
    ensures |Parts(s)| == 1 + 2 * |s.cases| && Parts(s)[0] == Plain(s.value)
    ensures forall i :: 0 <= i < |s.cases| ==>
      Parts(s)[1 + 2 * i] == Plain(s.cases[i].condition)
      && Parts(s)[2 + 2 * i] == Part(s.cases[i].body, CaseGuards(s.value, s.cases, s.cases[i]), 0)
  {
    hide CaseGuards, Plain;
    forall i | 0 <= i < |s.cases| ensures
      Parts(s)[1 + 2 * i] == Plain(s.cases[i].condition)
      && Parts(s)[2 + 2 * i] == Part(s.cases[i].body, CaseGuards(s.value, s.cases, s.cases[i]), 0)
    {
      assert 2 * i / 2 == i && (2 * i + 1) / 2 == i;
    }
  }

  /** Visits every statement, the walk of the statements of a block that is not visited itself. */
  method WalkStatements(stmts: seq<Stmt>, visit: Visitor) returns (ghost visited: seq<Visit>, walker: StatementWalker)
    ensures visited == WalkOf(visit, stmts) && fresh(walker) && walker.order == |visited|
  {
    walker := new StatementWalker(visit);
    ghost var root := Block(stmts);
    walker.NoneWalked(root, [], TOP);
    hide *;
    BlockParts(stmts);
    for i := 0 to |stmts|
      invariant fresh(walker) && walker.visit == visit
      invariant walker.Walked([], root, i, [], TOP)
    {
      walker.Step(Block(stmts), Plain(stmts[i]), i, [], TOP, TOP, []);
    }
    walker.WalkedParts([], root, |stmts|, [], TOP);
    visited := walker.visited;
    IsWalkOf(visit, stmts);
  }

  const TOP := Scope([], 0, 0)

  function WalkOf(visit: Visitor, stmts: seq<Stmt>): seq<Visit> {
    PartVisits(visit, Block(stmts), |Parts(Block(stmts))|, [], TOP)
  }

  lemma BlockParts(stmts: seq<Stmt>)
    ensures |Parts(Block(stmts))| == |stmts| && forall i :: 0 <= i < |stmts| ==> Parts(Block(stmts))[i] == Plain(stmts[i])
  {
  }

  lemma IsWalkOf(visit: Visitor, stmts: seq<Stmt>)
    ensures |Parts(Block(stmts))| == |stmts|
    ensures [] + PartVisits(visit, Block(stmts), |stmts|, [], TOP) == WalkOf(visit, stmts)
  {
    hide PartVisits;
  }
}
