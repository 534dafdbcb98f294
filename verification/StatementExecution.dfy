/**
 * Running a body, to say what the guards of the walk promise: whenever a
 * statement is reached, each guard the walk gave it held when the construct it
 * belongs to was entered.
 */
module StatementExecution {
  import opened Common
  import opened StatementWalk
  import opened StatementScopes

  /** How a statement ends; Halt is a loop that runs longer than it is followed. */
  datatype Signal = Next | Break | Continue | Return | Throw | Halt

  /**
   * What the walk does not know of a program: the value of an expression, what
   * a statement does to the state and how it ends, whether a for-each has
   * another element, and whether a part of an expression is evaluated.
   */
  datatype Machine<!S, !V> = Machine(
    value: (Stmt, S) -> V,
    truth: V -> bool,
    effect: (Stmt, S) -> (S, Signal),
    more: (Stmt, S) -> bool,
    evaluated: (Stmt, S) -> bool
  )

  predicate Holds<S, V>(m: Machine<S, V>, e: Stmt, s: S) {
    m.truth(m.value(e, s))
  }

  /** Values give the operators of the guards their meaning. */
  ghost predicate Faithful<S(!new), V(!new)>(m: Machine<S, V>) {
    && (forall x, s :: Holds(m, UnaryExpr("!", x), s) <==> !Holds(m, x, s))
    && (forall x, y, s :: Holds(m, BinaryExpr(x, "||", y), s) <==> Holds(m, x, s) || Holds(m, y, s))
    && (forall x, y, s :: Holds(m, BinaryExpr(x, "==", y), s) <==> m.value(x, s) == m.value(y, s))
  }

  /** The value of an expression, given the values of those that are built with none of the operators of the guards. */
  function ValueOf<S, V(==)>(atom: (Stmt, S) -> V, truth: V -> bool, yes: V, no: V, e: Stmt, s: S): V
    decreases e
  {
    if e.Expr? && e.variant.Some? && e.variant.value.Other? && e.content == "" then
      var op, parts := e.variant.value.kind, e.variant.value.parts;
      if op == "!" && |parts| == 1 then
        if truth(ValueOf(atom, truth, yes, no, parts[0], s)) then no else yes
      else if op == "||" && |parts| == 2 then
        if truth(ValueOf(atom, truth, yes, no, parts[0], s)) || truth(ValueOf(atom, truth, yes, no, parts[1], s)) then yes else no
      else if op == "==" && |parts| == 2 then
        if ValueOf(atom, truth, yes, no, parts[0], s) == ValueOf(atom, truth, yes, no, parts[1], s) then yes else no
      else atom(e, s)
    else atom(e, s)
  }

  /** Whatever the other expressions mean, there is a machine that gives the operators of the guards their meaning. */
  lemma FaithfulMachine<S(!new), V(!new)>(
      atom: (Stmt, S) -> V, yes: V, no: V, m: Machine<S, V>)
    requires m.truth(yes) && !m.truth(no)
    ensures Faithful(m.(value := (e, s) => ValueOf(atom, m.truth, yes, no, e, s)))
  {
    var n := m.(value := (e, s) => ValueOf(atom, m.truth, yes, no, e, s));
    forall x, s ensures Holds(n, UnaryExpr("!", x), s) <==> !Holds(n, x, s) {
      assert UnaryExpr("!", x).variant.value.parts[0] == x;
    }
    forall x, y, s ensures Holds(n, BinaryExpr(x, "||", y), s) <==> Holds(n, x, s) || Holds(n, y, s) {
      var parts := BinaryExpr(x, "||", y).variant.value.parts;
      assert parts[0] == x && parts[1] == y;
    }
    forall x, y, s ensures Holds(n, BinaryExpr(x, "==", y), s) <==> n.value(x, s) == n.value(y, s) {
      var parts := BinaryExpr(x, "==", y).variant.value.parts;
      assert parts[0] == x && parts[1] == y;
    }
  }

  /** A statement is reached: its path, and the state in which each statement around it chose to enter the next. */
  datatype Event<S> = Event(path: Path, entered: seq<S>)

  datatype Run<S> = Run(trace: seq<Event<S>>, state: S, signal: Signal)

  function Inside<S>(k: nat, at: S, trace: seq<Event<S>>): seq<Event<S>> {
    seq(|trace|, i requires 0 <= i < |trace| => Event([k] + trace[i].path, [at] + trace[i].entered))
  }

  /** Goes on, inside the k-th part and having entered it in state at, unless the run so far ended early. */
  function Then<S>(before: Run<S>, k: nat, at: S, after: Run<S>): Run<S> {
    if before.signal != Next then before
    else Run(before.trace + Inside(k, at, after.trace), after.state, after.signal)
  }

  function Start<S>(state: S): Run<S> {
    Run([], state, Next)
  }

  /** The parts of a statement that holds no decision. */
  function Children(s: Stmt): (children: seq<Stmt>)
    ensures forall i :: 0 <= i < |children| ==> children[i] < s
  {
    match s
    case Expr(variant, _) => if variant.Some? then [variant.value] else []
    case Condition(e) => [e]
    case Other(_, parts) => parts
    case Block(children) => children
    case _ => []
  }

  /** A case runs when its condition equals the switch's value, or holds where the switch has none. */
  predicate CaseHolds<S, V(==)>(m: Machine<S, V>, value: Stmt, c: Case, s: S) {
    if EmptyExpr(value) then Holds(m, ExprOf(c.condition), s) else m.value(value, s) == m.value(ExprOf(c.condition), s)
  }

  /** The first case from the i-th on that matches. */
  function FirstMatch<S, V(==)>(m: Machine<S, V>, value: Stmt, cases: seq<Case>, i: nat, s: S): (r: Option<nat>)
    requires i <= |cases|
    ensures r.Some? ==> r.value < |cases|
    decreases |cases| - i
  {
    if i == |cases| then None
    else if !EmptyCondition(cases[i].condition) && CaseHolds(m, value, cases[i], s) then Some(i)
    else FirstMatch(m, value, cases, i + 1, s)
  }

  function FirstDefault(cases: seq<Case>, i: nat): (r: Option<nat>)
    requires i <= |cases|
    ensures r.Some? ==> r.value < |cases| && EmptyCondition(cases[r.value].condition)
    decreases |cases| - i
  {
    if i == |cases| then None else if EmptyCondition(cases[i].condition) then Some(i) else FirstDefault(cases, i + 1)
  }

  /** The case a switch runs: the first that matches, else its default. */
  function Selected<S, V(==)>(m: Machine<S, V>, value: Stmt, cases: seq<Case>, s: S): (r: Option<nat>)
    ensures r.Some? ==> r.value < |cases|
  {
    var r := FirstMatch(m, value, cases, 0, s);
    if r.Some? then r else FirstDefault(cases, 0)
  }

  /** Runs a statement from a state, following each loop for at most fuel rounds. */
  function Exec<S, V(==)>(m: Machine<S, V>, s: Stmt, state: S, fuel: nat): Run<S>
    decreases s, 2
  {
    var run := Body(m, s, state, fuel);
    Run([Event([], [])] + run.trace, run.state, run.signal)
  }

  function Body<S, V(==)>(m: Machine<S, V>, s: Stmt, state: S, fuel: nat): Run<S>
    decreases s, 1
  {
    match s
    case Block(children) => Sequence(m, s, |children|, state, fuel)
    case If(condition, t, e) =>
      var tested := Then(Start(state), 0, state, Exec(m, condition, state, fuel));
      if Holds(m, ExprOf(condition), state) then Then(tested, 1, state, Exec(m, t, tested.state, fuel))
      else if e.Some? then Then(tested, 2, state, Exec(m, e.value, tested.state, fuel))
      else tested
    case Switch(value, cases) =>
      var valued := Then(Start(state), 0, state, Exec(m, value, state, fuel));
      var tested := Conditions(m, s, |cases|, valued, fuel);
      var selected := Selected(m, value, cases, state);
      if selected.None? then tested else
        BreakEnds(Then(tested, 2 + 2 * selected.value, state, Exec(m, cases[selected.value].body, tested.state, fuel)))
    case For(init, _, _, _) =>
      ForRounds(m, s, Then(Start(state), 0, state, Exec(m, init, state, fuel)), fuel, fuel)
    case ForEach(variable, iterable, _) =>
      var chosen := Then(Start(state), 0, state, Exec(m, variable, state, fuel));
      ForEachRounds(m, s, Then(chosen, 1, chosen.state, Exec(m, iterable, chosen.state, fuel)), fuel, fuel)
    case While(_, _) => WhileRounds(m, s, Start(state), fuel, fuel)
    case Try(body, catchBlock) =>
      var tried := Then(Start(state), 0, state, Exec(m, body, state, fuel));
      if tried.signal == Throw then Then(tried.(signal := Next), 1, tried.state, Exec(m, catchBlock, tried.state, fuel))
      else tried
    case FunctionDecl(body) =>
      if body.Some? && m.evaluated(body.value, state) then
        var called := Then(Start(state), 0, state, Exec(m, body.value, state, fuel));
        if called.signal == Halt then called else called.(signal := Next)
      else Start(state)
    case _ =>
      var evaluated := Sequence(m, s, |Children(s)|, state, fuel);
      if evaluated.signal != Next then evaluated else
        var (after, signal) := m.effect(s, evaluated.state);
        Run(evaluated.trace, after, signal)
  }

  function BreakEnds<S>(run: Run<S>): Run<S> {
    if run.signal == Break then run.(signal := Next) else run
  }

  /** The first k children, those of an operator or a call only as far as they are evaluated. */
  function Sequence<S, V(==)>(m: Machine<S, V>, s: Stmt, k: nat, state: S, fuel: nat): Run<S>
    requires k <= |Children(s)|
    decreases s, 0, k
  {
    if k == 0 then Start(state) else
      var before, child := Sequence(m, s, k - 1, state, fuel), Children(s)[k - 1];
      if s.Other? && !m.evaluated(child, before.state) then before
      else Then(before, k - 1, before.state, Exec(m, child, before.state, fuel))
  }

  /** The conditions of the first k cases of a switch, as far as they are evaluated. */
  function Conditions<S, V(==)>(m: Machine<S, V>, s: Stmt, k: nat, start: Run<S>, fuel: nat): Run<S>
    requires s.Switch? && k <= |s.cases|
    decreases s, 0, k
  {
    if k == 0 then start else
      var before, condition := Conditions(m, s, k - 1, start, fuel), s.cases[k - 1].condition;
      if !m.evaluated(condition, before.state) then before
      else Then(before, 2 * k - 1, before.state, Exec(m, condition, before.state, fuel))
  }

  function ForRounds<S, V(==)>(m: Machine<S, V>, s: Stmt, before: Run<S>, fuel: nat, rounds: nat): Run<S>
    requires s.For?
    decreases s, 0, rounds
  {
    if before.signal != Next then before
    else if rounds == 0 then before.(signal := Halt)
    else
      var state := before.state;
      var tested := Then(before, 1, state, Exec(m, s.cond, state, fuel));
      if tested.signal != Next || !(EmptyCondition(s.cond) || Holds(m, ExprOf(s.cond), state)) then tested else
        var ran := Then(tested, 2, state, Exec(m, s.body, tested.state, fuel));
        if ran.signal != Next && ran.signal != Continue then BreakEnds(ran) else
          var updated := Then(ran.(signal := Next), 3, state, Exec(m, s.update, ran.state, fuel));
          ForRounds(m, s, updated, fuel, rounds - 1)
  }

  function ForEachRounds<S, V(==)>(m: Machine<S, V>, s: Stmt, before: Run<S>, fuel: nat, rounds: nat): Run<S>
    requires s.ForEach?
    decreases s, 0, rounds
  {
    if before.signal != Next || !m.more(s, before.state) then before
    else if rounds == 0 then before.(signal := Halt)
    else
      var ran := Then(before, 2, before.state, Exec(m, s.body, before.state, fuel));
      if ran.signal != Next && ran.signal != Continue then BreakEnds(ran)
      else ForEachRounds(m, s, ran.(signal := Next), fuel, rounds - 1)
  }

  function WhileRounds<S, V(==)>(m: Machine<S, V>, s: Stmt, before: Run<S>, fuel: nat, rounds: nat): Run<S>
    requires s.While?
    decreases s, 0, rounds
  {
    if before.signal != Next then before
    else if rounds == 0 then before.(signal := Halt)
    else
      var state := before.state;
      var tested := Then(before, 0, state, Exec(m, s.cond, state, fuel));
      if tested.signal != Next || !(EmptyCondition(s.cond) || Holds(m, ExprOf(s.cond), state)) then tested else
        var ran := Then(tested, 1, state, Exec(m, s.body, tested.state, fuel));
        if ran.signal != Next && ran.signal != Continue then BreakEnds(ran)
        else WhileRounds(m, s, ran.(signal := Next), fuel, rounds - 1)
  }

  // -------------------------------------------------------- guards hold

  ghost predicate GuardsHold<S, V>(m: Machine<S, V>, guards: seq<Stmt>, s: S) {
    forall i :: 0 <= i < |guards| ==> Holds(m, ExprOf(guards[i]), s)
  }

  /** The path leads to a nested statement, and each part on it was entered in a state its guards hold in. */
  ghost predicate Held<S, V>(m: Machine<S, V>, s: Stmt, path: Path, entered: seq<S>)
    decreases |path|
  {
    && |path| == |entered|
    && (path == [] || (
      && path[0] < |Parts(s)|
      && GuardsHold(m, Parts(s)[path[0]].guards, entered[0])
      && Held(m, Parts(s)[path[0]].stmt, path[1..], entered[1..])))
  }

  ghost predicate AllHeld<S, V>(m: Machine<S, V>, s: Stmt, trace: seq<Event<S>>) {
    forall i :: 0 <= i < |trace| ==> Held(m, s, trace[i].path, trace[i].entered)
  }

  lemma InsideHeld<S, V>(m: Machine<S, V>, s: Stmt, k: nat, at: S, trace: seq<Event<S>>)
    requires k < |Parts(s)| && GuardsHold(m, Parts(s)[k].guards, at) && AllHeld(m, Parts(s)[k].stmt, trace)
    ensures AllHeld(m, s, Inside(k, at, trace))
  {
    hide Parts, GuardsHold;
    forall i | 0 <= i < |trace| ensures Held(m, s, Inside(k, at, trace)[i].path, Inside(k, at, trace)[i].entered) {
      var e := trace[i];
      assert Held(m, Parts(s)[k].stmt, e.path, e.entered);
      assert ([k] + e.path)[1..] == e.path && ([at] + e.entered)[1..] == e.entered;
    }
  }

  lemma ThenHeld<S, V>(m: Machine<S, V>, s: Stmt, before: Run<S>, k: nat, at: S, part: Stmt, after: Run<S>)
    requires AllHeld(m, s, before.trace) && k < |Parts(s)| && part == Parts(s)[k].stmt
    requires GuardsHold(m, Parts(s)[k].guards, at) && AllHeld(m, part, after.trace)
    ensures AllHeld(m, s, Then(before, k, at, after).trace)
  {
    InsideHeld(m, s, k, at, after.trace);
    hide Parts, GuardsHold, Held, Inside;
  }

  lemma NoGuardsHold<S, V>(m: Machine<S, V>, s: S)
    ensures GuardsHold(m, [], s)
  {
  }

  // ------------------------------------------------- guards of a switch

  lemma {:induction false} AnyOfHolds<S(!new), V(!new)>(m: Machine<S, V>, exprs: seq<Stmt>, s: S)
    requires Faithful(m) && exprs != []
    ensures Holds(m, AnyOf(exprs), s) <==> exists i :: 0 <= i < |exprs| && Holds(m, exprs[i], s)
  {
    hide Holds;
    if |exprs| > 1 {
      var n := |exprs| - 1;
      AnyOfHolds(m, exprs[..n], s);
      OrHolds(m, AnyOf(exprs[..n]), exprs[n], s);
      if i :| 0 <= i < |exprs| && Holds(m, exprs[i], s) {
        assert i < n ==> exprs[..n][i] == exprs[i];
      }
    }
  }

  lemma OrHolds<S(!new), V(!new)>(m: Machine<S, V>, x: Stmt, y: Stmt, s: S)
    requires Faithful(m)
    ensures Holds(m, BinaryExpr(x, "||", y), s) <==> Holds(m, x, s) || Holds(m, y, s)
  {
  }

  /** A case runs exactly when the match the walk makes of it holds. */
  lemma MatchHolds<S(!new), V(!new)>(m: Machine<S, V>, value: Stmt, c: Case, s: S)
    requires Faithful(m)
    ensures Holds(m, CaseMatch(value, c.condition), s) <==> CaseHolds(m, value, c, s)
  {
  }

  lemma {:induction false} MatchesComeFromCases(value: Stmt, cases: seq<Case>, x: Stmt)
    requires x in Matches(value, cases)
    ensures exists i :: 0 <= i < |cases| && !EmptyCondition(cases[i].condition) && x == CaseMatch(value, cases[i].condition)
  {
    hide EmptyCondition, CaseMatch;
    var n := |cases| - 1;
    if x in Matches(value, cases[..n]) {
      MatchesComeFromCases(value, cases[..n], x);
      var i :| 0 <= i < n && !EmptyCondition(cases[..n][i].condition) && x == CaseMatch(value, cases[..n][i].condition);
      assert cases[..n][i] == cases[i];
    }
  }

  lemma {:induction false} FirstMatchIs<S, V>(m: Machine<S, V>, value: Stmt, cases: seq<Case>, i: nat, s: S)
    requires i <= |cases|
    ensures var r := FirstMatch(m, value, cases, i, s);
            && (r.Some? ==> !EmptyCondition(cases[r.value].condition) && CaseHolds(m, value, cases[r.value], s))
            && (r.None? ==> forall k :: i <= k < |cases| && !EmptyCondition(cases[k].condition) ==> !CaseHolds(m, value, cases[k], s))
    decreases |cases| - i
  {
    hide EmptyCondition, CaseHolds;
    if i < |cases| {
      FirstMatchIs(m, value, cases, i + 1, s);
    }
  }

  /** The guards of the body that a switch selects hold when it selects it. */
  lemma SelectedGuardsHold<S(!new), V(!new)>(m: Machine<S, V>, value: Stmt, cases: seq<Case>, s: S)
    requires Faithful(m) && Selected(m, value, cases, s).Some?
    ensures GuardsHold(m, CaseGuards(value, cases, cases[Selected(m, value, cases, s).value]), s)
  {
    hide Holds, CaseMatch, CaseHolds, EmptyCondition, Faithful, AnyOf, Matches, UnaryExpr;
    var c := cases[Selected(m, value, cases, s).value];
    var matches := Matches(value, cases);
    FirstMatchIs(m, value, cases, 0, s);
    if FirstMatch(m, value, cases, 0, s).Some? {
      MatchHolds(m, value, c, s);
    } else if matches != [] {
      forall k | 0 <= k < |matches| ensures !Holds(m, matches[k], s) {
        MatchesComeFromCases(value, cases, matches[k]);
        var i :| 0 <= i < |cases| && !EmptyCondition(cases[i].condition) && matches[k] == CaseMatch(value, cases[i].condition);
        MatchHolds(m, value, cases[i], s);
      }
      AnyOfHolds(m, matches, s);
      NotHolds(m, AnyOf(matches), s);
    }
  }

  lemma NotHolds<S(!new), V(!new)>(m: Machine<S, V>, x: Stmt, s: S)
    requires Faithful(m)
    ensures Holds(m, UnaryExpr("!", x), s) <==> !Holds(m, x, s)
  {
  }

  // ------------------------------------------------------- whole runs

  lemma ExecHeld<S(!new), V(!new)>(m: Machine<S, V>, s: Stmt, state: S, fuel: nat)
    requires Faithful(m)
    ensures AllHeld(m, s, Exec(m, s, state, fuel).trace)
    decreases s, 2
  {
    BodyHeld(m, s, state, fuel);
    var run, all := Body(m, s, state, fuel), Exec(m, s, state, fuel).trace;
    assert all == [Event([], [])] + run.trace;
    hide Body, Exec, Parts, GuardsHold;
    forall i | 0 <= i < |all| ensures Held(m, s, all[i].path, all[i].entered) {
      if i > 0 {
        assert all[i] == run.trace[i - 1];
      }
    }
  }

  lemma {:induction false} SequenceHeld<S(!new), V(!new)>(m: Machine<S, V>, s: Stmt, k: nat, state: S, fuel: nat)
    requires Faithful(m) && k <= |Children(s)|
    ensures AllHeld(m, s, Sequence(m, s, k, state, fuel).trace)
    decreases s, 0, k
  {
    if k > 0 {
      SequenceHeld(m, s, k - 1, state, fuel);
      var before, child := Sequence(m, s, k - 1, state, fuel), Children(s)[k - 1];
      ExecHeld(m, child, before.state, fuel);
      ChildPart(s, k - 1);
      NoGuardsHold(m, before.state);
      hide Parts, Children, Exec, AllHeld, GuardsHold, Then, Faithful;
      ThenHeld(m, s, before, k - 1, before.state, child, Exec(m, child, before.state, fuel));
    }
  }

  lemma ChildPart(s: Stmt, k: nat)
    requires k < |Children(s)|
    ensures k < |Parts(s)| && Parts(s)[k] == Plain(Children(s)[k])
  {
  }

  lemma SwitchPart(s: Stmt, i: nat)
    requires s.Switch? && i < |s.cases|
    ensures 2 + 2 * i < |Parts(s)| && Parts(s)[1 + 2 * i] == Plain(s.cases[i].condition)
    ensures Parts(s)[2 + 2 * i] == Part(s.cases[i].body, CaseGuards(s.value, s.cases, s.cases[i]), 0)
  {
    SwitchParts(s);
    hide Parts, CaseGuards;
  }

  lemma {:induction false} ConditionsHeld<S(!new), V(!new)>(m: Machine<S, V>, s: Stmt, k: nat, start: Run<S>, fuel: nat)
    requires Faithful(m) && s.Switch? && k <= |s.cases| && AllHeld(m, s, start.trace)
    ensures AllHeld(m, s, Conditions(m, s, k, start, fuel).trace)
    decreases s, 0, k
  {
    hide *;
    ConditionsStep(m, s, k, start, fuel);
    if k > 0 {
      ConditionsHeld(m, s, k - 1, start, fuel);
      var before, condition := Conditions(m, s, k - 1, start, fuel), s.cases[k - 1].condition;
      ExecHeld(m, condition, before.state, fuel);
      SwitchPart(s, k - 1);
      PlainPart(condition);
      PlainHeld(m, s, before, 2 * k - 1, before.state, condition, Exec(m, condition, before.state, fuel));
    }
  }

  lemma ConditionsStep<S, V>(m: Machine<S, V>, s: Stmt, k: nat, start: Run<S>, fuel: nat)
    requires s.Switch? && k <= |s.cases|
    ensures k == 0 ==> Conditions(m, s, k, start, fuel) == start
    ensures k > 0 ==>
      var before, condition := Conditions(m, s, k - 1, start, fuel), s.cases[k - 1].condition;
      Conditions(m, s, k, start, fuel) == if !m.evaluated(condition, before.state) then before
        else Then(before, 2 * k - 1, before.state, Exec(m, condition, before.state, fuel))
  {
    hide Exec, Then;
  }

  lemma PlainPart(stmt: Stmt)
    ensures Plain(stmt).stmt == stmt && Plain(stmt).guards == []
  {
  }

  lemma LoopGuardsHold<S, V>(m: Machine<S, V>, cond: Stmt, stmt: Stmt, s: S)
    requires EmptyCondition(cond) || Holds(m, ExprOf(cond), s)
    ensures GuardsHold(m, Looped(cond, stmt).guards, s)
  {
    hide EmptyCondition, Holds, ExprOf;
  }

  lemma {:induction false} ForRoundsHeld<S(!new), V(!new)>(m: Machine<S, V>, s: Stmt, before: Run<S>, fuel: nat, rounds: nat)
    requires Faithful(m) && s.For? && AllHeld(m, s, before.trace)
    ensures AllHeld(m, s, ForRounds(m, s, before, fuel, rounds).trace)
    decreases s, 0, rounds
  {
    if before.signal == Next && rounds > 0 {
      var state := before.state;
      ExecHeld(m, s.cond, state, fuel);
      ForParts(s);
      NoGuardsHold(m, state);
      hide Parts, Exec, AllHeld, GuardsHold, Then, Faithful, Looped, Holds, EmptyCondition, ExprOf;
      ThenHeld(m, s, before, 1, state, s.cond, Exec(m, s.cond, state, fuel));
      var tested := Then(before, 1, state, Exec(m, s.cond, state, fuel));
      if tested.signal == Next && (EmptyCondition(s.cond) || Holds(m, ExprOf(s.cond), state)) {
        LoopGuardsHold(m, s.cond, s.body, state);
        LoopGuardsHold(m, s.cond, s.update, state);
        ExecHeld(m, s.body, tested.state, fuel);
        ThenHeld(m, s, tested, 2, state, s.body, Exec(m, s.body, tested.state, fuel));
        var ran := Then(tested, 2, state, Exec(m, s.body, tested.state, fuel));
        if ran.signal == Next || ran.signal == Continue {
          ExecHeld(m, s.update, ran.state, fuel);
          ThenHeld(m, s, ran.(signal := Next), 3, state, s.update, Exec(m, s.update, ran.state, fuel));
          ForRoundsHeld(m, s, Then(ran.(signal := Next), 3, state, Exec(m, s.update, ran.state, fuel)), fuel, rounds - 1);
        }
      }
    }
  }

  lemma ForParts(s: Stmt)
    requires s.For?
    ensures Parts(s) == [Plain(s.init), Plain(s.cond), Looped(s.cond, s.body), Looped(s.cond, s.update)]
    ensures Looped(s.cond, s.body).stmt == s.body && Looped(s.cond, s.update).stmt == s.update
  {
  }

  lemma {:induction false} ForEachRoundsHeld<S(!new), V(!new)>(m: Machine<S, V>, s: Stmt, before: Run<S>, fuel: nat, rounds: nat)
    requires Faithful(m) && s.ForEach? && AllHeld(m, s, before.trace)
    ensures AllHeld(m, s, ForEachRounds(m, s, before, fuel, rounds).trace)
    decreases s, 0, rounds
  {
    if before.signal == Next && m.more(s, before.state) && rounds > 0 {
      ExecHeld(m, s.body, before.state, fuel);
      NoGuardsHold(m, before.state);
      assert Parts(s)[2] == Part(s.body, [], 1);
      hide Parts, Exec, AllHeld, GuardsHold, Then, Faithful;
      ThenHeld(m, s, before, 2, before.state, s.body, Exec(m, s.body, before.state, fuel));
      var ran := Then(before, 2, before.state, Exec(m, s.body, before.state, fuel));
      if ran.signal == Next || ran.signal == Continue {
        ForEachRoundsHeld(m, s, ran.(signal := Next), fuel, rounds - 1);
      }
    }
  }

  lemma {:induction false} WhileRoundsHeld<S(!new), V(!new)>(m: Machine<S, V>, s: Stmt, before: Run<S>, fuel: nat, rounds: nat)
    requires Faithful(m) && s.While? && AllHeld(m, s, before.trace)
    ensures AllHeld(m, s, WhileRounds(m, s, before, fuel, rounds).trace)
    decreases s, 0, rounds
  {
    if before.signal == Next && rounds > 0 {
      var state := before.state;
      ExecHeld(m, s.cond, state, fuel);
      assert Parts(s) == [Plain(s.cond), Looped(s.cond, s.body)] && Looped(s.cond, s.body).stmt == s.body;
      NoGuardsHold(m, state);
      hide Parts, Exec, AllHeld, GuardsHold, Then, Faithful, Looped, Holds, EmptyCondition, ExprOf;
      ThenHeld(m, s, before, 0, state, s.cond, Exec(m, s.cond, state, fuel));
      var tested := Then(before, 0, state, Exec(m, s.cond, state, fuel));
      if tested.signal == Next && (EmptyCondition(s.cond) || Holds(m, ExprOf(s.cond), state)) {
        LoopGuardsHold(m, s.cond, s.body, state);
        ExecHeld(m, s.body, tested.state, fuel);
        ThenHeld(m, s, tested, 1, state, s.body, Exec(m, s.body, tested.state, fuel));
        var ran := Then(tested, 1, state, Exec(m, s.body, tested.state, fuel));
        if ran.signal == Next || ran.signal == Continue {
          WhileRoundsHeld(m, s, ran.(signal := Next), fuel, rounds - 1);
        }
      }
    }
  }

  /** A part with no guards, whatever state it is entered in. */
  lemma PlainHeld<S(!new), V(!new)>(m: Machine<S, V>, s: Stmt, before: Run<S>, k: nat, at: S, part: Stmt, after: Run<S>)
    requires AllHeld(m, s, before.trace) && k < |Parts(s)| && part == Parts(s)[k].stmt && Parts(s)[k].guards == []
    requires AllHeld(m, part, after.trace)
    ensures AllHeld(m, s, Then(before, k, at, after).trace)
  {
    hide Parts, AllHeld, Then, GuardsHold;
    NoGuardsHold(m, at);
    ThenHeld(m, s, before, k, at, part, after);
  }

  lemma StartHeld<S, V>(m: Machine<S, V>, s: Stmt, state: S)
    ensures AllHeld(m, s, Start(state).trace)
  {
  }

  lemma IfHeld<S(!new), V(!new)>(m: Machine<S, V>, s: Stmt, state: S, fuel: nat)
    requires Faithful(m) && s.If?
    ensures AllHeld(m, s, Body(m, s, state, fuel).trace)
    decreases s, 0
  {
    var tested := Then(Start(state), 0, state, Exec(m, s.condition, state, fuel));
    StartHeld(m, s, state);
    ExecHeld(m, s.condition, state, fuel);
    NotHolds(m, ExprOf(s.condition), state);
    assert Parts(s)[0] == Plain(s.condition) && Parts(s)[1] == Part(s.thenBlock, [s.condition], 0);
    assert s.elseBlock.Some? ==> |Parts(s)| == 3 && Parts(s)[2] == Part(s.elseBlock.value, [Negated(s.condition)], 0);
    assert ExprOf(Negated(s.condition)) == UnaryExpr("!", ExprOf(s.condition));
    hide Parts, Exec, AllHeld, Then, Faithful, Holds, ExprOf, UnaryExpr, Negated, Start;
    PlainHeld(m, s, Start(state), 0, state, s.condition, Exec(m, s.condition, state, fuel));
    if Holds(m, ExprOf(s.condition), state) {
      ExecHeld(m, s.thenBlock, tested.state, fuel);
      ThenHeld(m, s, tested, 1, state, s.thenBlock, Exec(m, s.thenBlock, tested.state, fuel));
    } else if s.elseBlock.Some? {
      ExecHeld(m, s.elseBlock.value, tested.state, fuel);
      ThenHeld(m, s, tested, 2, state, s.elseBlock.value, Exec(m, s.elseBlock.value, tested.state, fuel));
    }
  }

  lemma SwitchHeld<S(!new), V(!new)>(m: Machine<S, V>, s: Stmt, state: S, fuel: nat)
    requires Faithful(m) && s.Switch?
    ensures AllHeld(m, s, Body(m, s, state, fuel).trace)
    decreases s, 0, |s.cases| + 1
  {
    hide *;
    var valued := Then(Start(state), 0, state, Exec(m, s.value, state, fuel));
    var tested := Conditions(m, s, |s.cases|, valued, fuel);
    var selected := Selected(m, s.value, s.cases, state);
    SwitchBody(m, s, state, fuel);
    StartHeld(m, s, state);
    ExecHeld(m, s.value, state, fuel);
    PlainPart(s.value);
    PlainHeld(m, s, Start(state), 0, state, s.value, Exec(m, s.value, state, fuel));
    ConditionsHeld(m, s, |s.cases|, valued, fuel);
    if selected.Some? {
      var i := selected.value;
      SelectedGuardsHold(m, s.value, s.cases, state);
      ExecHeld(m, s.cases[i].body, tested.state, fuel);
      SwitchPart(s, i);
      ThenHeld(m, s, tested, 2 + 2 * i, state, s.cases[i].body, Exec(m, s.cases[i].body, tested.state, fuel));
    }
  }

  lemma SwitchBody<S, V>(m: Machine<S, V>, s: Stmt, state: S, fuel: nat)
    requires s.Switch?
    ensures 0 < |Parts(s)| && Parts(s)[0] == Plain(s.value)
    ensures var valued := Then(Start(state), 0, state, Exec(m, s.value, state, fuel));
            var tested := Conditions(m, s, |s.cases|, valued, fuel);
            var selected := Selected(m, s.value, s.cases, state);
            Body(m, s, state, fuel).trace == if selected.None? then tested.trace
              else Then(tested, 2 + 2 * selected.value, state, Exec(m, s.cases[selected.value].body, tested.state, fuel)).trace
  {
    hide Exec, Then, Conditions, Selected, Start;
  }

  lemma LoopHeld<S(!new), V(!new)>(m: Machine<S, V>, s: Stmt, state: S, fuel: nat)
    requires Faithful(m) && (s.For? || s.ForEach? || s.While?)
    ensures AllHeld(m, s, Body(m, s, state, fuel).trace)
    decreases s, 0, fuel + 1
  {
    StartHeld(m, s, state);
    hide Exec, AllHeld, Then, Faithful, ForRounds, ForEachRounds, WhileRounds, Start, Looped;
    match s
    case For(init, _, _, _) =>
      ExecHeld(m, init, state, fuel);
      PlainHeld(m, s, Start(state), 0, state, init, Exec(m, init, state, fuel));
      ForRoundsHeld(m, s, Then(Start(state), 0, state, Exec(m, init, state, fuel)), fuel, fuel);
    case ForEach(variable, iterable, _) =>
      ExecHeld(m, variable, state, fuel);
      PlainHeld(m, s, Start(state), 0, state, variable, Exec(m, variable, state, fuel));
      var chosen := Then(Start(state), 0, state, Exec(m, variable, state, fuel));
      ExecHeld(m, iterable, chosen.state, fuel);
      PlainHeld(m, s, chosen, 1, chosen.state, iterable, Exec(m, iterable, chosen.state, fuel));
      ForEachRoundsHeld(m, s, Then(chosen, 1, chosen.state, Exec(m, iterable, chosen.state, fuel)), fuel, fuel);
    case While(_, _) =>
      WhileRoundsHeld(m, s, Start(state), fuel, fuel);
  }

  lemma BodyHeld<S(!new), V(!new)>(m: Machine<S, V>, s: Stmt, state: S, fuel: nat)
    requires Faithful(m)
    ensures AllHeld(m, s, Body(m, s, state, fuel).trace)
    decreases s, 1
  {
    hide Exec, AllHeld, Then, Faithful, Sequence, ForRounds, ForEachRounds, WhileRounds, Conditions, Selected, Children, Start;
    match s
    case If(_, _, _) => IfHeld(m, s, state, fuel);
    case Switch(_, _) => SwitchHeld(m, s, state, fuel);
    case For(_, _, _, _) => LoopHeld(m, s, state, fuel);
    case ForEach(_, _, _) => LoopHeld(m, s, state, fuel);
    case While(_, _) => LoopHeld(m, s, state, fuel);
    case Try(body, catchBlock) =>
      StartHeld(m, s, state);
      ExecHeld(m, body, state, fuel);
      PlainHeld(m, s, Start(state), 0, state, body, Exec(m, body, state, fuel));
      var tried := Then(Start(state), 0, state, Exec(m, body, state, fuel));
      ExecHeld(m, catchBlock, tried.state, fuel);
      PlainHeld(m, s, tried.(signal := Next), 1, tried.state, catchBlock, Exec(m, catchBlock, tried.state, fuel));
    case FunctionDecl(body) =>
      StartHeld(m, s, state);
      if body.Some? {
        ExecHeld(m, body.value, state, fuel);
        PlainHeld(m, s, Start(state), 0, state, body.value, Exec(m, body.value, state, fuel));
      }
    case Block(children) =>
      assert Children(s) == children by { BlockChildren(s); }
      SequenceHeld(m, s, |children|, state, fuel);
    case _ =>
      SequenceHeld(m, s, |Children(s)|, state, fuel);
  }

  lemma BlockChildren(s: Stmt)
    requires s.Block?
    ensures Children(s) == s.children
  {
  }

  // ------------------------------------------------------ what it promises

  /** For each guard along the path, the state in which its construct was entered. */
  ghost function Moments<S>(s: Stmt, path: Path, entered: seq<S>): seq<S>
    requires Within(s, path) && |path| == |entered|
    decreases |path|
  {
    if path == [] then [] else
      var part := Parts(s)[path[0]];
      seq(|part.guards|, i => entered[0]) + Moments(part.stmt, path[1..], entered[1..])
  }

  lemma {:induction false} HeldIsWithin<S, V>(m: Machine<S, V>, s: Stmt, path: Path, entered: seq<S>)
    requires Held(m, s, path, entered)
    ensures Within(s, path) && |path| == |entered|
    decreases |path|
  {
    hide Parts, GuardsHold;
    if path != [] {
      HeldIsWithin(m, Parts(s)[path[0]].stmt, path[1..], entered[1..]);
    }
  }

  lemma {:induction false} HeldAlong<S, V>(m: Machine<S, V>, s: Stmt, path: Path, entered: seq<S>)
    requires Held(m, s, path, entered) && Within(s, path)
    ensures var guards, moments := GuardsAlong(s, path), Moments(s, path, entered);
            |guards| == |moments| && forall i :: 0 <= i < |guards| ==> Holds(m, ExprOf(guards[i]), moments[i])
    decreases |path|
  {
    hide Parts, Holds, ExprOf;
    if path != [] {
      var part := Parts(s)[path[0]];
      HeldAlong(m, part.stmt, path[1..], entered[1..]);
      var guards, moments, n := GuardsAlong(s, path), Moments(s, path, entered), |part.guards|;
      forall i | 0 <= i < |guards| ensures Holds(m, ExprOf(guards[i]), moments[i]) {
        if i >= n {
          assert guards[i] == GuardsAlong(part.stmt, path[1..])[i - n];
          assert moments[i] == Moments(part.stmt, path[1..], entered[1..])[i - n];
        }
      }
    }
  }

  /**
   * Whenever a run reaches a statement that the walk visits, every guard of the
   * visit held in the state in which its construct was entered.
   */
  lemma GuardsHeldWhenEntered<S(!new), V(!new)>(
      m: Machine<S, V>, stmts: seq<Stmt>, state: S, fuel: nat, e: Event<S>, visit: Visitor, v: Visit)
    requires Faithful(m) && e in Exec(m, Block(stmts), state, fuel).trace
    requires v in WalkOf(visit, stmts) && v.path == e.path
    ensures Within(Block(stmts), e.path) && |e.path| == |e.entered|
    ensures var moments := Moments(Block(stmts), e.path, e.entered);
            && |moments| == |v.scope.guards|
            && forall i :: 0 <= i < |moments| ==> Holds(m, ExprOf(v.scope.guards[i]), moments[i])
  {
    var root, visits := Block(stmts), WalkOf(visit, stmts);
    ExecHeld(m, root, state, fuel);
    WalkVisits(visit, stmts);
    hide Exec, Held, WalkOf, Within, Moments, Holds, Parts;
    var i :| 0 <= i < |Exec(m, root, state, fuel).trace| && Exec(m, root, state, fuel).trace[i] == e;
    assert Held(m, root, e.path, e.entered);
    HeldIsWithin(m, root, e.path, e.entered);
    HeldAlong(m, root, e.path, e.entered);
    var k :| 0 <= k < |visits| && visits[k] == v;
    assert IsVisit(root, v, k);
  }

  /** A walk that skips nothing visits every statement that any run reaches. */
  lemma ReachedIsVisited<S(!new), V(!new)>(m: Machine<S, V>, stmts: seq<Stmt>, state: S, fuel: nat, e: Event<S>, visit: Visitor)
    requires Faithful(m) && e in Exec(m, Block(stmts), state, fuel).trace && e.path != []
    requires forall s, scope :: visit(s, scope)
    ensures Visited(WalkOf(visit, stmts), e.path)
  {
    var root := Block(stmts);
    ExecHeld(m, root, state, fuel);
    hide Exec, Held, WalkOf, Within, Parts;
    var i :| 0 <= i < |Exec(m, root, state, fuel).trace| && Exec(m, root, state, fuel).trace[i] == e;
    assert Held(m, root, e.path, e.entered);
    HeldIsWithin(m, root, e.path, e.entered);
    NeverSkipping(visit, stmts, e.path);
  }
}
