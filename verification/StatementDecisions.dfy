/**
 * The guards of the walk decide: where the conditions of an if, a loop or a
 * switch have run, control enters exactly the body whose guards hold, so the walk
 * leaves no guard out (walk_stmt.go:11-15, walk_stmt.go:77-145).
 */
module StatementDecisions {
  import opened Common
  import opened StatementWalk
  import opened StatementScopes
  import opened StatementExecution

  ghost predicate In<S>(trace: seq<Event<S>>, path: Path, entered: seq<S>) {
    Event(path, entered) in trace
  }

  /** Part c of the statement is where it starts to decide, and part k a body it decides on. */
  predicate Decides(s: Stmt, c: nat, k: nat) {
    match s
    case If(_, _, e) => c == 0 && (k == 1 || (k == 2 && e.Some?))
    case While(_, _) => c == 0 && k == 1
    case For(_, _, _, _) => c == 1 && k == 2
    case Switch(_, cases) => c == 0 && 0 < k <= 2 * |cases| && k % 2 == 0
    case _ => false
  }

  /** From a state in which the statement decides, all that it evaluates to decide ends normally. */
  ghost predicate Tested<S, V>(m: Machine<S, V>, s: Stmt, at: S, fuel: nat) {
    match s
    case If(condition, _, _) => Exec(m, condition, at, fuel).signal == Next
    case While(cond, _) => Exec(m, cond, at, fuel).signal == Next
    case For(_, cond, _, _) => Exec(m, cond, at, fuel).signal == Next
    case Switch(value, cases) => Conditions(m, s, |cases|, Then(Start(at), 0, at, Exec(m, value, at, fuel)), fuel).signal == Next
    case _ => false
  }

  /** The guards of the part hold, and in a switch those of no earlier body do. */
  ghost predicate Chosen<S, V>(m: Machine<S, V>, s: Stmt, k: nat, at: S)
    requires k < |Parts(s)|
  {
    && GuardsHold(m, Parts(s)[k].guards, at)
    && (s.Switch? ==> forall j :: 0 < j < k && j % 2 == 0 ==> !GuardsHold(m, Parts(s)[j].guards, at))
  }

  lemma DecidesParts(s: Stmt, c: nat, k: nat)
    requires Decides(s, c, k)
    ensures c < |Parts(s)| && k < |Parts(s)|
  {
    hide EmptyCondition, CaseGuards, Negated;
  }

  // ------------------------------------------------------- what a run enters

  /** A decision on the body k, of the statement at the path. */
  datatype Decision = Decision(path: Path, c: nat, k: nat)

  ghost predicate DecisionIn(s: Stmt, d: Decision) {
    Within(s, d.path) && Decides(At(s, d.path), d.c, d.k)
  }

  /** The body is entered in a state exactly when the statement decided in that state, and chose the body. */
  ghost predicate DecidedAt<S, V>(m: Machine<S, V>, s: Stmt, trace: seq<Event<S>>, fuel: nat, d: Decision, entered: seq<S>, at: S)
    requires DecisionIn(s, d)
  {
    DecidesParts(At(s, d.path), d.c, d.k);
    In(trace, d.path + [d.k], entered + [at]) <==>
      In(trace, d.path + [d.c], entered + [at]) && Tested(m, At(s, d.path), at, fuel) && Chosen(m, At(s, d.path), d.k, at)
  }

  ghost predicate AllDecided<S(!new), V(!new)>(m: Machine<S, V>, s: Stmt, trace: seq<Event<S>>, fuel: nat) {
    forall d, entered, at :: DecisionIn(s, d) && |entered| == |d.path| ==> DecidedAt(m, s, trace, fuel, d, entered, at)
  }

  /** The same of decisions of statements nested in s. */
  ghost predicate InnerDecided<S(!new), V(!new)>(m: Machine<S, V>, s: Stmt, trace: seq<Event<S>>, fuel: nat) {
    forall d, entered, at :: DecisionIn(s, d) && d.path != [] && |entered| == |d.path| ==> DecidedAt(m, s, trace, fuel, d, entered, at)
  }

  /** The same of the decisions of s itself. */
  ghost predicate OuterDecided<S(!new), V(!new)>(m: Machine<S, V>, s: Stmt, trace: seq<Event<S>>, fuel: nat) {
    forall c: nat, k: nat, at :: Decides(s, c, k) ==> DecidedAt(m, s, trace, fuel, Decision([], c, k), [], at)
  }

  lemma BothDecided<S(!new), V(!new)>(m: Machine<S, V>, s: Stmt, trace: seq<Event<S>>, fuel: nat)
    requires InnerDecided(m, s, trace, fuel) && OuterDecided(m, s, trace, fuel)
    ensures AllDecided(m, s, trace, fuel)
  {
    hide DecidedAt, Decides, Parts;
    forall d, entered, at | DecisionIn(s, d) && |entered| == |d.path| ensures DecidedAt(m, s, trace, fuel, d, entered, at) {
      if d.path == [] {
        assert entered == [] && d == Decision([], d.c, d.k);
      }
    }
  }

  /** What is entered once a part has been run as well. */
  lemma ThenIn<S>(before: Run<S>, j: nat, at: S, after: Run<S>, path: Path, entered: seq<S>)
    requires path != [] && entered != []
    ensures In(Then(before, j, at, after).trace, path, entered) <==>
      || In(before.trace, path, entered)
      || (before.signal == Next && path[0] == j && entered[0] == at && In(after.trace, path[1..], entered[1..]))
  {
    var inner := StatementExecution.Inside(j, at, after.trace);
    if path[0] == j && entered[0] == at && In(after.trace, path[1..], entered[1..]) {
      var i :| 0 <= i < |after.trace| && after.trace[i] == Event(path[1..], entered[1..]);
      assert [j] + path[1..] == path && [at] + entered[1..] == entered;
      assert inner[i] == Event(path, entered);
    }
    if Event(path, entered) in inner {
      var i :| 0 <= i < |inner| && inner[i] == Event(path, entered);
      assert path == [j] + after.trace[i].path && entered == [at] + after.trace[i].entered;
      assert path[1..] == after.trace[i].path && entered[1..] == after.trace[i].entered;
    }
  }

  lemma DeeperDecision(s: Stmt, d: Decision)
    requires DecisionIn(s, d) && d.path != []
    ensures d.path[0] < |Parts(s)| && DecisionIn(Parts(s)[d.path[0]].stmt, Decision(d.path[1..], d.c, d.k))
    ensures At(s, d.path) == At(Parts(s)[d.path[0]].stmt, d.path[1..])
  {
    hide Parts, Decides;
  }

  /** Running a part whose decisions are right keeps the nested decisions right. */
  lemma ThenInner<S(!new), V(!new)>(m: Machine<S, V>, s: Stmt, before: Run<S>, j: nat, at: S, after: Run<S>, fuel: nat)
    requires InnerDecided(m, s, before.trace, fuel) && j < |Parts(s)| && AllDecided(m, Parts(s)[j].stmt, after.trace, fuel)
    ensures InnerDecided(m, s, Then(before, j, at, after).trace, fuel)
  {
    hide Parts, Decides, Tested, Chosen, Then, In, Within, At;
    forall d, entered, a | DecisionIn(s, d) && d.path != [] && |entered| == |d.path|
      ensures DecidedAt(m, s, Then(before, j, at, after).trace, fuel, d, entered, a)
    {
      DeeperDecision(s, d);
      var inner := Decision(d.path[1..], d.c, d.k);
      assert (d.path + [d.k])[1..] == inner.path + [d.k] && (d.path + [d.c])[1..] == inner.path + [d.c];
      assert (entered + [a])[1..] == entered[1..] + [a];
      ThenIn(before, j, at, after, d.path + [d.k], entered + [a]);
      ThenIn(before, j, at, after, d.path + [d.c], entered + [a]);
      assert DecidedAt(m, s, before.trace, fuel, d, entered, a);
      if d.path[0] == j {
        assert DecidedAt(m, Parts(s)[j].stmt, after.trace, fuel, inner, entered[1..], a);
      }
    }
  }

  /** Which of its own parts a statement has entered once a part has been run as well. */
  lemma ThenEnters<S, V>(m: Machine<S, V>, before: Run<S>, j: nat, at: S, part: Stmt, from: S, fuel: nat, k: nat, a: S)
    ensures In(Then(before, j, at, Exec(m, part, from, fuel)).trace, [k], [a]) <==>
      In(before.trace, [k], [a]) || (before.signal == Next && k == j && a == at)
  {
    ThenIn(before, j, at, Exec(m, part, from, fuel), [k], [a]);
    StartsHere(m, part, from, fuel);
    assert [k][1..] == [] && [a][1..] == [];
    hide Exec, Then;
  }

  lemma StartsHere<S, V>(m: Machine<S, V>, s: Stmt, state: S, fuel: nat)
    ensures In(Exec(m, s, state, fuel).trace, [], [])
  {
    assert Exec(m, s, state, fuel).trace[0] == Event([], []);
    hide Body;
  }

  lemma NothingEntered<S(!new), V(!new)>(m: Machine<S, V>, s: Stmt, state: S, fuel: nat)
    ensures InnerDecided(m, s, Start(state).trace, fuel)
  {
    hide Parts, Decides, Tested, Chosen, Within, At;
  }

  // ------------------------------------------------------------ sequences

  lemma {:induction false} SequenceDecided<S(!new), V(!new)>(m: Machine<S, V>, s: Stmt, k: nat, state: S, fuel: nat)
    requires Faithful(m) && k <= |Children(s)|
    ensures InnerDecided(m, s, Sequence(m, s, k, state, fuel).trace, fuel)
    decreases s, 0, k
  {
    if k == 0 {
      NothingEntered(m, s, state, fuel);
    } else {
      SequenceDecided(m, s, k - 1, state, fuel);
      var before, child := Sequence(m, s, k - 1, state, fuel), Children(s)[k - 1];
      ExecDecided(m, child, before.state, fuel);
      ChildPart(s, k - 1);
      hide Parts, Children, Exec, AllDecided, InnerDecided, Then, Faithful;
      ThenInner(m, s, before, k - 1, before.state, Exec(m, child, before.state, fuel), fuel);
    }
  }

  lemma {:induction false} ConditionsDecided<S(!new), V(!new)>(m: Machine<S, V>, s: Stmt, k: nat, start: Run<S>, fuel: nat)
    requires Faithful(m) && s.Switch? && k <= |s.cases| && InnerDecided(m, s, start.trace, fuel)
    ensures InnerDecided(m, s, Conditions(m, s, k, start, fuel).trace, fuel)
    ensures forall j, a :: j % 2 == 0 ==> (In(Conditions(m, s, k, start, fuel).trace, [j], [a]) <==> In(start.trace, [j], [a]))
    decreases s, 0, k
  {
    hide *;
    ConditionsStep(m, s, k, start, fuel);
    if k > 0 {
      ConditionsDecided(m, s, k - 1, start, fuel);
      var before, condition := Conditions(m, s, k - 1, start, fuel), s.cases[k - 1].condition;
      ExecDecided(m, condition, before.state, fuel);
      SwitchPart(s, k - 1);
      PlainPart(condition);
      var after := Exec(m, condition, before.state, fuel);
      ThenInner(m, s, before, 2 * k - 1, before.state, after, fuel);
      forall j, a | j % 2 == 0 ensures In(Conditions(m, s, k, start, fuel).trace, [j], [a]) <==> In(start.trace, [j], [a]) {
        ThenEnters(m, before, 2 * k - 1, before.state, condition, before.state, fuel, j, a);
      }
    }
  }

  // ------------------------------------------------------------- decisions

  lemma OuterIs<S, V>(m: Machine<S, V>, s: Stmt, trace: seq<Event<S>>, fuel: nat, c: nat, k: nat, at: S)
    requires Decides(s, c, k)
    ensures DecisionIn(s, Decision([], c, k)) && k < |Parts(s)|
    ensures DecidedAt(m, s, trace, fuel, Decision([], c, k), [], at) <==>
      (In(trace, [k], [at]) <==> In(trace, [c], [at]) && Tested(m, s, at, fuel) && Chosen(m, s, k, at))
  {
    DecidesParts(s, c, k);
    assert [] + [k] == [k] && [] + [c] == [c] && [] + [at] == [at];
    hide Parts, Decides, Tested, Chosen, In;
  }

  /** s enters the same of its own parts c and k in either trace, but for these in the state. */
  ghost predicate Enters<S(!new)>(before: seq<Event<S>>, after: seq<Event<S>>, c: nat, k: nat, state: S, deciding: bool, deciding': bool)
  {
    forall a :: (In(after, [c], [a]) <==> In(before, [c], [a]) || (deciding && a == state))
             && (In(after, [k], [a]) <==> In(before, [k], [a]) || (deciding' && a == state))
  }

  lemma LoopDecides<S(!new), V(!new)>(m: Machine<S, V>, s: Stmt, before: seq<Event<S>>, after: seq<Event<S>>, fuel: nat, c: nat, k: nat, state: S)
    requires (s.While? || s.For?) && Decides(s, c, k) && k < |Parts(s)| && OuterDecided(m, s, before, fuel)
    requires Enters(before, after, c, k, state, true, Tested(m, s, state, fuel) && Chosen(m, s, k, state))
    ensures OuterDecided(m, s, after, fuel)
  {
    hide Parts, Tested, Chosen, In;
    forall c': nat, k': nat, at | Decides(s, c', k') ensures DecidedAt(m, s, after, fuel, Decision([], c', k'), [], at) {
      assert c' == c && k' == k;
      OuterIs(m, s, after, fuel, c, k, at);
      OuterIs(m, s, before, fuel, c, k, at);
      assert DecidedAt(m, s, before, fuel, Decision([], c, k), [], at);
    }
  }

  lemma NothingDecided<S(!new), V(!new)>(m: Machine<S, V>, s: Stmt, trace: seq<Event<S>>, fuel: nat)
    requires forall c: nat, k: nat, a :: Decides(s, c, k) ==> !In(trace, [c], [a]) && !In(trace, [k], [a])
    ensures OuterDecided(m, s, trace, fuel)
  {
    hide Parts, Tested, Chosen, In, Decides;
    forall c: nat, k: nat, at | Decides(s, c, k) ensures DecidedAt(m, s, trace, fuel, Decision([], c, k), [], at) {
      OuterIs(m, s, trace, fuel, c, k, at);
    }
  }

  lemma LoopChosen<S, V>(m: Machine<S, V>, s: Stmt, k: nat, at: S)
    requires (s.While? && k == 1) || (s.For? && k == 2)
    ensures k < |Parts(s)| && Decides(s, k - 1, k)
    ensures Chosen(m, s, k, at) <==> EmptyCondition(s.cond) || Holds(m, ExprOf(s.cond), at)
    ensures Parts(s)[k - 1] == Plain(s.cond) && Parts(s)[k].stmt == s.body
  {
    assert Parts(s)[k] == Looped(s.cond, s.body);
    OneGuard(m, s.cond, at);
    NoGuardsHold(m, at);
    hide EmptyCondition, Holds, ExprOf, GuardsHold;
  }

  /** One round of a loop up to the end of its body. */
  lemma RoundEnters<S(!new), V(!new)>(m: Machine<S, V>, s: Stmt, before: Run<S>, fuel: nat, k: nat, body: bool)
    requires before.signal == Next && ((s.While? && k == 1) || (s.For? && k == 2))
    requires body ==> Exec(m, s.cond, before.state, fuel).signal == Next
    ensures var state := before.state;
            var tested := Then(before, k - 1, state, Exec(m, s.cond, state, fuel));
            Enters(before.trace, (if body then Then(tested, k, state, Exec(m, s.body, tested.state, fuel)) else tested).trace, k - 1, k, state, true, body)
  {
    var state := before.state;
    var cond := Exec(m, s.cond, state, fuel);
    var tested := Then(before, k - 1, state, cond);
    assert tested.signal == cond.signal;
    var ran := Then(tested, k, state, Exec(m, s.body, tested.state, fuel));
    hide Exec, Then, In;
    forall a ensures In(tested.trace, [k - 1], [a]) <==> In(before.trace, [k - 1], [a]) || a == state
      ensures In(tested.trace, [k], [a]) <==> In(before.trace, [k], [a])
      ensures body ==> (In(ran.trace, [k - 1], [a]) <==> In(tested.trace, [k - 1], [a]))
      ensures body ==> (In(ran.trace, [k], [a]) <==> In(tested.trace, [k], [a]) || a == state)
    {
      ThenEnters(m, before, k - 1, state, s.cond, state, fuel, k - 1, a);
      ThenEnters(m, before, k - 1, state, s.cond, state, fuel, k, a);
      ThenEnters(m, tested, k, state, s.body, tested.state, fuel, k - 1, a);
      ThenEnters(m, tested, k, state, s.body, tested.state, fuel, k, a);
    }
  }

  lemma LoopTested<S, V>(m: Machine<S, V>, s: Stmt, at: S, fuel: nat)
    requires s.While? || s.For?
    ensures Tested(m, s, at, fuel) <==> Exec(m, s.cond, at, fuel).signal == Next
  {
    hide Exec;
  }

  lemma AllIsInner<S(!new), V(!new)>(m: Machine<S, V>, s: Stmt, trace: seq<Event<S>>, fuel: nat)
    requires AllDecided(m, s, trace, fuel)
    ensures InnerDecided(m, s, trace, fuel) && OuterDecided(m, s, trace, fuel)
  {
    hide DecidedAt, Parts, Decides;
    forall c: nat, k: nat, at | Decides(s, c, k) ensures DecidedAt(m, s, trace, fuel, Decision([], c, k), [], at) {
      assert Within(s, []) && At(s, []) == s;
      assert DecisionIn(s, Decision([], c, k));
    }
  }

  /** A round that tests, and where the guards hold runs the body, keeps all decisions right. */
  lemma RoundDecided<S(!new), V(!new)>(m: Machine<S, V>, s: Stmt, before: Run<S>, fuel: nat, k: nat)
    requires Faithful(m) && before.signal == Next && ((s.While? && k == 1) || (s.For? && k == 2)) && AllDecided(m, s, before.trace, fuel)
    ensures var state := before.state;
            var tested := Then(before, k - 1, state, Exec(m, s.cond, state, fuel));
            if tested.signal != Next || !(EmptyCondition(s.cond) || Holds(m, ExprOf(s.cond), state)) then AllDecided(m, s, tested.trace, fuel)
            else AllDecided(m, s, Then(tested, k, state, Exec(m, s.body, tested.state, fuel)).trace, fuel)
    decreases s, 0
  {
    hide *;
    var state := before.state;
    var cond := Exec(m, s.cond, state, fuel);
    var tested := Then(before, k - 1, state, cond);
    ThenSignal(before, k - 1, state, cond);
    LoopChosen(m, s, k, state);
    PlainPart(s.cond);
    LoopTested(m, s, state, fuel);
    AllIsInner(m, s, before.trace, fuel);
    ExecDecided(m, s.cond, state, fuel);
    ThenInner(m, s, before, k - 1, state, cond, fuel);
    var body := tested.signal == Next && (EmptyCondition(s.cond) || Holds(m, ExprOf(s.cond), state));
    RoundEnters(m, s, before, fuel, k, body);
    if body {
      var ran := Then(tested, k, state, Exec(m, s.body, tested.state, fuel));
      ExecDecided(m, s.body, tested.state, fuel);
      ThenInner(m, s, tested, k, state, Exec(m, s.body, tested.state, fuel), fuel);
      LoopDecides(m, s, before.trace, ran.trace, fuel, k - 1, k, state);
      BothDecided(m, s, ran.trace, fuel);
    } else {
      LoopDecides(m, s, before.trace, tested.trace, fuel, k - 1, k, state);
      BothDecided(m, s, tested.trace, fuel);
    }
  }

  lemma ThenSignal<S>(before: Run<S>, k: nat, at: S, after: Run<S>)
    ensures before.signal == Next ==> Then(before, k, at, after).signal == after.signal
  {
  }

  lemma {:induction false} WhileRoundsDecided<S(!new), V(!new)>(m: Machine<S, V>, s: Stmt, before: Run<S>, fuel: nat, rounds: nat)
    requires Faithful(m) && s.While? && AllDecided(m, s, before.trace, fuel)
    ensures AllDecided(m, s, WhileRounds(m, s, before, fuel, rounds).trace, fuel)
    decreases s, 1, rounds
  {
    hide Exec, AllDecided, Then, Faithful, Holds, EmptyCondition, ExprOf;
    if before.signal == Next && rounds > 0 {
      var state := before.state;
      RoundDecided(m, s, before, fuel, 1);
      var tested := Then(before, 0, state, Exec(m, s.cond, state, fuel));
      if tested.signal == Next && (EmptyCondition(s.cond) || Holds(m, ExprOf(s.cond), state)) {
        var ran := Then(tested, 1, state, Exec(m, s.body, tested.state, fuel));
        if ran.signal == Next || ran.signal == Continue {
          WhileRoundsDecided(m, s, ran.(signal := Next), fuel, rounds - 1);
        }
      }
    }
  }

  lemma {:induction false} ForRoundsDecided<S(!new), V(!new)>(m: Machine<S, V>, s: Stmt, before: Run<S>, fuel: nat, rounds: nat)
    requires Faithful(m) && s.For? && AllDecided(m, s, before.trace, fuel)
    ensures AllDecided(m, s, ForRounds(m, s, before, fuel, rounds).trace, fuel)
    decreases s, 1, rounds
  {
    hide Exec, AllDecided, Then, Faithful, Holds, EmptyCondition, ExprOf;
    if before.signal == Next && rounds > 0 {
      var state := before.state;
      RoundDecided(m, s, before, fuel, 2);
      var tested := Then(before, 1, state, Exec(m, s.cond, state, fuel));
      if tested.signal == Next && (EmptyCondition(s.cond) || Holds(m, ExprOf(s.cond), state)) {
        var ran := Then(tested, 2, state, Exec(m, s.body, tested.state, fuel));
        if ran.signal == Next || ran.signal == Continue {
          var updated := Then(ran.(signal := Next), 3, state, Exec(m, s.update, ran.state, fuel));
          UpdateDecided(m, s, ran, state, fuel);
          ForRoundsDecided(m, s, updated, fuel, rounds - 1);
        }
      }
    }
  }

  /** Running a part that is neither decided on nor where it is decided keeps all decisions right. */
  lemma AsideDecided<S(!new), V(!new)>(m: Machine<S, V>, s: Stmt, before: Run<S>, j: nat, at: S, from: S, fuel: nat)
    requires Faithful(m) && AllDecided(m, s, before.trace, fuel) && j < |Parts(s)|
    requires forall c: nat, k: nat :: Decides(s, c, k) ==> c != j && k != j
    ensures AllDecided(m, s, Then(before, j, at, Exec(m, Parts(s)[j].stmt, from, fuel)).trace, fuel)
    decreases s, 0, 0
  {
    hide *;
    var part := Parts(s)[j].stmt;
    var after := Then(before, j, at, Exec(m, part, from, fuel)).trace;
    PartIsSmaller(s, j);
    ExecDecided(m, part, from, fuel);
    AllIsInner(m, s, before.trace, fuel);
    ThenInner(m, s, before, j, at, Exec(m, part, from, fuel), fuel);
    forall c: nat, k: nat, a | Decides(s, c, k)
      ensures (In(after, [c], [a]) <==> In(before.trace, [c], [a])) && (In(after, [k], [a]) <==> In(before.trace, [k], [a]))
    {
      ThenEnters(m, before, j, at, part, from, fuel, c, a);
      ThenEnters(m, before, j, at, part, from, fuel, k, a);
    }
    SameEntered(m, s, before.trace, after, fuel);
    BothDecided(m, s, after, fuel);
  }

  lemma PartIsSmaller(s: Stmt, j: nat)
    requires j < |Parts(s)|
    ensures Parts(s)[j].stmt < s
  {
  }

  lemma SameEntered<S(!new), V(!new)>(m: Machine<S, V>, s: Stmt, before: seq<Event<S>>, after: seq<Event<S>>, fuel: nat)
    requires OuterDecided(m, s, before, fuel)
    requires forall c: nat, k: nat, a :: Decides(s, c, k) ==>
      (In(after, [c], [a]) <==> In(before, [c], [a])) && (In(after, [k], [a]) <==> In(before, [k], [a]))
    ensures OuterDecided(m, s, after, fuel)
  {
    hide Parts, Tested, Chosen, In, Decides;
    forall c: nat, k: nat, at | Decides(s, c, k) ensures DecidedAt(m, s, after, fuel, Decision([], c, k), [], at) {
      OuterIs(m, s, after, fuel, c, k, at);
      OuterIs(m, s, before, fuel, c, k, at);
      assert DecidedAt(m, s, before, fuel, Decision([], c, k), [], at);
    }
  }

  lemma UpdateDecided<S(!new), V(!new)>(m: Machine<S, V>, s: Stmt, ran: Run<S>, at: S, fuel: nat)
    requires Faithful(m) && s.For? && AllDecided(m, s, ran.trace, fuel)
    ensures AllDecided(m, s, Then(ran.(signal := Next), 3, at, Exec(m, s.update, ran.state, fuel)).trace, fuel)
    decreases s, 0, 1
  {
    ForParts(s);
    hide Exec, AllDecided, Then, Faithful;
    AsideDecided(m, s, ran.(signal := Next), 3, at, ran.state, fuel);
  }

  // ------------------------------------------------------------ each kind

  lemma StartDecided<S(!new), V(!new)>(m: Machine<S, V>, s: Stmt, state: S, fuel: nat)
    ensures AllDecided(m, s, Start(state).trace, fuel)
  {
    hide *;
    NothingEntered(m, s, state, fuel);
    NothingIn(state);
    NothingDecided(m, s, Start(state).trace, fuel);
    BothDecided(m, s, Start(state).trace, fuel);
  }

  lemma NothingIn<S(!new)>(state: S)
    ensures forall path, entered :: !In(Start(state).trace, path, entered)
  {
  }

  lemma IfParts(s: Stmt)
    requires s.If?
    ensures |Parts(s)| == if s.elseBlock.Some? then 3 else 2
    ensures Parts(s)[0] == Plain(s.condition) && Parts(s)[1] == Part(s.thenBlock, [s.condition], 0)
    ensures s.elseBlock.Some? ==> Parts(s)[2] == Part(s.elseBlock.value, [Negated(s.condition)], 0)
    ensures ExprOf(Negated(s.condition)) == UnaryExpr("!", ExprOf(s.condition))
  {
  }

  lemma OneGuard<S, V>(m: Machine<S, V>, guard: Stmt, at: S)
    ensures GuardsHold(m, [guard], at) <==> Holds(m, ExprOf(guard), at)
  {
    hide Holds, ExprOf;
    assert [guard][0] == guard;
  }

  lemma IfChosen<S(!new), V(!new)>(m: Machine<S, V>, s: Stmt, at: S, fuel: nat)
    requires Faithful(m) && s.If?
    ensures 1 < |Parts(s)| && (Chosen(m, s, 1, at) <==> Holds(m, ExprOf(s.condition), at))
    ensures s.elseBlock.Some? ==> 2 < |Parts(s)| && (Chosen(m, s, 2, at) <==> !Holds(m, ExprOf(s.condition), at))
    ensures Tested(m, s, at, fuel) <==> Exec(m, s.condition, at, fuel).signal == Next
    ensures forall c: nat, k: nat :: Decides(s, c, k) <==> c == 0 && (k == 1 || (k == 2 && s.elseBlock.Some?))
  {
    IfParts(s);
    NotHolds(m, ExprOf(s.condition), at);
    OneGuard(m, s.condition, at);
    OneGuard(m, Negated(s.condition), at);
    hide Parts, Holds, ExprOf, Negated, UnaryExpr, Faithful, Exec, GuardsHold;
  }

  lemma IfBody<S, V>(m: Machine<S, V>, s: Stmt, state: S, fuel: nat)
    requires s.If?
    ensures var tested := Then(Start(state), 0, state, Exec(m, s.condition, state, fuel));
            Body(m, s, state, fuel) ==
              if Holds(m, ExprOf(s.condition), state) then Then(tested, 1, state, Exec(m, s.thenBlock, tested.state, fuel))
              else if s.elseBlock.Some? then Then(tested, 2, state, Exec(m, s.elseBlock.value, tested.state, fuel))
              else tested
  {
    hide Exec, Then, Holds, ExprOf, Start;
  }

  /** A statement that decides in one state only, and there enters the chosen bodies. */
  lemma OnceDecides<S(!new), V(!new)>(m: Machine<S, V>, s: Stmt, trace: seq<Event<S>>, fuel: nat, state: S)
    requires forall c: nat, k: nat, a :: Decides(s, c, k) ==> k < |Parts(s)| && (In(trace, [c], [a]) <==> a == state)
    requires forall c: nat, k: nat, a :: Decides(s, c, k) ==>
      (In(trace, [k], [a]) <==> a == state && Tested(m, s, state, fuel) && Chosen(m, s, k, state))
    ensures OuterDecided(m, s, trace, fuel)
  {
    hide Parts, Tested, Chosen, In, Decides;
    forall c: nat, k: nat, at | Decides(s, c, k) ensures DecidedAt(m, s, trace, fuel, Decision([], c, k), [], at) {
      OuterIs(m, s, trace, fuel, c, k, at);
    }
  }

  lemma FirstEntered<S(!new), V(!new)>(m: Machine<S, V>, part: Stmt, state: S, fuel: nat, k: nat, a: S)
    ensures In(Then(Start(state), 0, state, Exec(m, part, state, fuel)).trace, [k], [a]) <==> k == 0 && a == state
    ensures Then(Start(state), 0, state, Exec(m, part, state, fuel)).signal == Exec(m, part, state, fuel).signal
  {
    NothingIn(state);
    ThenSignal(Start(state), 0, state, Exec(m, part, state, fuel));
    ThenEnters(m, Start(state), 0, state, part, state, fuel, k, a);
    hide Exec, Then, In;
  }

  lemma IfDecided<S(!new), V(!new)>(m: Machine<S, V>, s: Stmt, state: S, fuel: nat)
    requires Faithful(m) && s.If?
    ensures AllDecided(m, s, Body(m, s, state, fuel).trace, fuel)
    decreases s, 0
  {
    hide *;
    var tested := Then(Start(state), 0, state, Exec(m, s.condition, state, fuel));
    var trace := Body(m, s, state, fuel).trace;
    IfBody(m, s, state, fuel);
    IfParts(s);
    PlainPart(s.condition);
    IfChosen(m, s, state, fuel);
    StartDecided(m, s, state, fuel);
    AllIsInner(m, s, Start(state).trace, fuel);
    ExecDecided(m, s.condition, state, fuel);
    ThenInner(m, s, Start(state), 0, state, Exec(m, s.condition, state, fuel), fuel);
    var yes := Holds(m, ExprOf(s.condition), state);
    if yes {
      ExecDecided(m, s.thenBlock, tested.state, fuel);
      ThenInner(m, s, tested, 1, state, Exec(m, s.thenBlock, tested.state, fuel), fuel);
    } else if s.elseBlock.Some? {
      ExecDecided(m, s.elseBlock.value, tested.state, fuel);
      ThenInner(m, s, tested, 2, state, Exec(m, s.elseBlock.value, tested.state, fuel), fuel);
    }
    forall k: nat, a ensures In(trace, [k], [a]) <==>
      (k == 0 && a == state)
      || (tested.signal == Next && a == state && ((yes && k == 1) || (!yes && s.elseBlock.Some? && k == 2)))
    {
      FirstEntered(m, s.condition, state, fuel, k, a);
      if yes {
        ThenEnters(m, tested, 1, state, s.thenBlock, tested.state, fuel, k, a);
      } else if s.elseBlock.Some? {
        ThenEnters(m, tested, 2, state, s.elseBlock.value, tested.state, fuel, k, a);
      }
    }
    FirstEntered(m, s.condition, state, fuel, 0, state);
    OnceDecides(m, s, trace, fuel, state);
    BothDecided(m, s, trace, fuel);
  }

  // ------------------------------------------------------------- switches

  /** A case's guards hold exactly when it would be taken, a default's exactly when no case with a condition would. */
  lemma CaseGuardsExactly<S(!new), V(!new)>(m: Machine<S, V>, value: Stmt, cases: seq<Case>, i: nat, s: S)
    requires Faithful(m) && i < |cases|
    ensures !EmptyCondition(cases[i].condition) ==>
      (GuardsHold(m, CaseGuards(value, cases, cases[i]), s) <==> CaseHolds(m, value, cases[i], s))
    ensures EmptyCondition(cases[i].condition) ==>
      (GuardsHold(m, CaseGuards(value, cases, cases[i]), s) <==>
       forall k :: 0 <= k < |cases| && !EmptyCondition(cases[k].condition) ==> !CaseHolds(m, value, cases[k], s))
  {
    hide Holds, CaseMatch, CaseHolds, EmptyCondition, Faithful, AnyOf, Matches, UnaryExpr, GuardsHold;
    var matches := Matches(value, cases);
    if !EmptyCondition(cases[i].condition) {
      MatchHolds(m, value, cases[i], s);
      OneGuard(m, Condition(CaseMatch(value, cases[i].condition)), s);
    } else {
      AnyMatchHolds(m, value, cases, s);
      if matches == [] {
        NoGuardsHold(m, s);
      } else {
        AnyOfHolds(m, matches, s);
        NotHolds(m, AnyOf(matches), s);
        OneGuard(m, Negated(Condition(AnyOf(matches))), s);
      }
    }
  }

  /** Some match holds exactly when some case with a condition would be taken. */
  lemma {:induction false} AnyMatchHolds<S(!new), V(!new)>(m: Machine<S, V>, value: Stmt, cases: seq<Case>, s: S)
    requires Faithful(m)
    ensures (exists j :: 0 <= j < |Matches(value, cases)| && Holds(m, Matches(value, cases)[j], s)) <==>
      exists k :: 0 <= k < |cases| && !EmptyCondition(cases[k].condition) && CaseHolds(m, value, cases[k], s)
  {
    hide Holds, CaseMatch, CaseHolds, EmptyCondition, Faithful;
    if cases != [] {
      var n := |cases| - 1;
      var matches, fewer := Matches(value, cases), Matches(value, cases[..n]);
      AnyMatchHolds(m, value, cases[..n], s);
      MatchHolds(m, value, cases[n], s);
      if j :| 0 <= j < |matches| && Holds(m, matches[j], s) {
        if j < |fewer| {
          assert fewer[j] == matches[j];
          var k :| 0 <= k < n && !EmptyCondition(cases[..n][k].condition) && CaseHolds(m, value, cases[..n][k], s);
          assert cases[..n][k] == cases[k];
        }
      }
      if k :| 0 <= k < |cases| && !EmptyCondition(cases[k].condition) && CaseHolds(m, value, cases[k], s) {
        if k < n {
          assert cases[..n][k] == cases[k];
          var j :| 0 <= j < |fewer| && Holds(m, fewer[j], s);
          assert matches[j] == fewer[j];
        } else {
          assert matches[|fewer|] == CaseMatch(value, cases[n].condition);
        }
      }
    }
  }

  lemma {:induction false} FirstMatchIsFirst<S, V>(m: Machine<S, V>, value: Stmt, cases: seq<Case>, i: nat, s: S)
    requires i <= |cases|
    ensures var r := FirstMatch(m, value, cases, i, s);
            r.Some? ==> forall k :: i <= k < r.value && !EmptyCondition(cases[k].condition) ==> !CaseHolds(m, value, cases[k], s)
    decreases |cases| - i
  {
    hide EmptyCondition, CaseHolds;
    if i < |cases| {
      FirstMatchIsFirst(m, value, cases, i + 1, s);
    }
  }

  lemma {:induction false} FirstDefaultIs(cases: seq<Case>, i: nat)
    requires i <= |cases|
    ensures var r := FirstDefault(cases, i);
            && (r.Some? ==> r.value >= i && forall k :: i <= k < r.value ==> !EmptyCondition(cases[k].condition))
            && (r.None? ==> forall k :: i <= k < |cases| ==> !EmptyCondition(cases[k].condition))
    decreases |cases| - i
  {
    hide EmptyCondition;
    if i < |cases| {
      FirstDefaultIs(cases, i + 1);
    }
  }

  /** A switch selects the first body whose guards hold. */
  lemma SelectedExactly<S(!new), V(!new)>(m: Machine<S, V>, value: Stmt, cases: seq<Case>, i: nat, s: S)
    requires Faithful(m) && i < |cases|
    ensures Selected(m, value, cases, s) == Some(i) <==>
      && GuardsHold(m, CaseGuards(value, cases, cases[i]), s)
      && forall j :: 0 <= j < i ==> !GuardsHold(m, CaseGuards(value, cases, cases[j]), s)
  {
    hide CaseHolds, EmptyCondition, Faithful, CaseGuards, GuardsHold, FirstMatch, FirstDefault;
    FirstMatchIs(m, value, cases, 0, s);
    FirstMatchIsFirst(m, value, cases, 0, s);
    FirstDefaultIs(cases, 0);
    forall j | 0 <= j < |cases|
      ensures !EmptyCondition(cases[j].condition) ==> (GuardsHold(m, CaseGuards(value, cases, cases[j]), s) <==> CaseHolds(m, value, cases[j], s))
      ensures EmptyCondition(cases[j].condition) ==> (GuardsHold(m, CaseGuards(value, cases, cases[j]), s) <==> FirstMatch(m, value, cases, 0, s).None?)
    {
      CaseGuardsExactly(m, value, cases, j, s);
    }
  }

  lemma SwitchChosen<S(!new), V(!new)>(m: Machine<S, V>, s: Stmt, k: nat, at: S)
    requires Faithful(m) && s.Switch? && 0 < k <= 2 * |s.cases| && k % 2 == 0
    ensures k < |Parts(s)| && (Chosen(m, s, k, at) <==> Selected(m, s.value, s.cases, at) == Some((k - 2) / 2))
  {
    hide Selected, Faithful, CaseGuards, GuardsHold, Parts;
    SwitchParts(s);
    var i := (k - 2) / 2;
    assert k == 2 + 2 * i;
    SelectedExactly(m, s.value, s.cases, i, at);
    assert Parts(s)[2 + 2 * i].guards == CaseGuards(s.value, s.cases, s.cases[i]);
    forall j | 0 < j < k && j % 2 == 0 ensures Parts(s)[j].guards == CaseGuards(s.value, s.cases, s.cases[(j - 2) / 2]) {
      assert j == 2 + 2 * ((j - 2) / 2);
    }
    forall j | 0 <= j < i ensures Parts(s)[2 + 2 * j].guards == CaseGuards(s.value, s.cases, s.cases[j]) {
    }
    if Chosen(m, s, k, at) {
      forall j | 0 <= j < i ensures !GuardsHold(m, CaseGuards(s.value, s.cases, s.cases[j]), at) {
        assert 0 < 2 + 2 * j < k && (2 + 2 * j) % 2 == 0;
      }
    }
  }

  lemma SwitchDecided<S(!new), V(!new)>(m: Machine<S, V>, s: Stmt, state: S, fuel: nat)
    requires Faithful(m) && s.Switch?
    ensures AllDecided(m, s, Body(m, s, state, fuel).trace, fuel)
    decreases s, 0, |s.cases| + 1
  {
    hide *;
    var valued := Then(Start(state), 0, state, Exec(m, s.value, state, fuel));
    var tested := Conditions(m, s, |s.cases|, valued, fuel);
    var selected := Selected(m, s.value, s.cases, state);
    var trace := Body(m, s, state, fuel).trace;
    SwitchBody(m, s, state, fuel);
    SwitchTested(m, s, state, fuel);
    StartDecided(m, s, state, fuel);
    AllIsInner(m, s, Start(state).trace, fuel);
    ExecDecided(m, s.value, state, fuel);
    PlainPart(s.value);
    ThenInner(m, s, Start(state), 0, state, Exec(m, s.value, state, fuel), fuel);
    ConditionsDecided(m, s, |s.cases|, valued, fuel);
    if selected.Some? {
      var i := selected.value;
      SelectedInRange(m, s.value, s.cases, state);
      ExecDecided(m, s.cases[i].body, tested.state, fuel);
      SwitchPart(s, i);
      ThenInner(m, s, tested, 2 + 2 * i, state, Exec(m, s.cases[i].body, tested.state, fuel), fuel);
    }
    forall k: nat, a | k % 2 == 0 ensures In(trace, [k], [a]) <==>
      a == state && (k == 0 || (tested.signal == Next && selected.Some? && k == 2 + 2 * selected.value))
    {
      FirstEntered(m, s.value, state, fuel, k, a);
      if selected.Some? {
        SelectedInRange(m, s.value, s.cases, state);
        ThenEnters(m, tested, 2 + 2 * selected.value, state, s.cases[selected.value].body, tested.state, fuel, k, a);
      }
    }
    forall c: nat, k: nat | Decides(s, c, k)
      ensures c == 0 && k % 2 == 0 && k != 0 && k < |Parts(s)|
      ensures Chosen(m, s, k, state) <==> selected.Some? && k == 2 + 2 * selected.value
    {
      SwitchDecides(s, c, k);
      SwitchChosen(m, s, k, state);
    }
    OnceDecides(m, s, trace, fuel, state);
    BothDecided(m, s, trace, fuel);
  }

  lemma SwitchTested<S, V>(m: Machine<S, V>, s: Stmt, at: S, fuel: nat)
    requires s.Switch?
    ensures Tested(m, s, at, fuel) <==> Conditions(m, s, |s.cases|, Then(Start(at), 0, at, Exec(m, s.value, at, fuel)), fuel).signal == Next
  {
    hide Exec, Conditions, Then, Start;
  }

  lemma SwitchDecides(s: Stmt, c: nat, k: nat)
    requires s.Switch? && Decides(s, c, k)
    ensures c == 0 && 0 < k <= 2 * |s.cases| && k % 2 == 0
  {
  }

  lemma SelectedInRange<S, V>(m: Machine<S, V>, value: Stmt, cases: seq<Case>, s: S)
    ensures Selected(m, value, cases, s).Some? ==> Selected(m, value, cases, s).value < |cases|
  {
  }

  // ----------------------------------------------------------- whole runs

  lemma OtherDecided<S(!new), V(!new)>(m: Machine<S, V>, s: Stmt, trace: seq<Event<S>>, fuel: nat)
    requires InnerDecided(m, s, trace, fuel) && forall c: nat, k: nat :: !Decides(s, c, k)
    ensures AllDecided(m, s, trace, fuel)
  {
    hide *;
    NothingDecided(m, s, trace, fuel);
    BothDecided(m, s, trace, fuel);
  }

  lemma {:induction false} ForEachRoundsDecided<S(!new), V(!new)>(m: Machine<S, V>, s: Stmt, before: Run<S>, fuel: nat, rounds: nat)
    requires Faithful(m) && s.ForEach? && AllDecided(m, s, before.trace, fuel)
    ensures AllDecided(m, s, ForEachRounds(m, s, before, fuel, rounds).trace, fuel)
    decreases s, 0, rounds + 1
  {
    if before.signal == Next && m.more(s, before.state) && rounds > 0 {
      assert Parts(s)[2].stmt == s.body;
      assert forall c: nat, k: nat :: !Decides(s, c, k);
      hide Parts, Exec, AllDecided, Then, Faithful, Decides;
      AsideDecided(m, s, before, 2, before.state, before.state, fuel);
      var ran := Then(before, 2, before.state, Exec(m, s.body, before.state, fuel));
      if ran.signal == Next || ran.signal == Continue {
        ForEachRoundsDecided(m, s, ran.(signal := Next), fuel, rounds - 1);
      }
    }
  }

  lemma LoopDecided<S(!new), V(!new)>(m: Machine<S, V>, s: Stmt, state: S, fuel: nat)
    requires Faithful(m) && (s.For? || s.ForEach? || s.While?)
    ensures AllDecided(m, s, Body(m, s, state, fuel).trace, fuel)
    decreases s, 2, fuel
  {
    StartDecided(m, s, state, fuel);
    hide Exec, AllDecided, Then, Faithful, ForRounds, ForEachRounds, WhileRounds, Start, Looped;
    match s
    case For(init, _, _, _) =>
      AsideDecided(m, s, Start(state), 0, state, state, fuel);
      ForRoundsDecided(m, s, Then(Start(state), 0, state, Exec(m, init, state, fuel)), fuel, fuel);
    case ForEach(variable, iterable, _) =>
      AsideDecided(m, s, Start(state), 0, state, state, fuel);
      var chosen := Then(Start(state), 0, state, Exec(m, variable, state, fuel));
      AsideDecided(m, s, chosen, 1, chosen.state, chosen.state, fuel);
      ForEachRoundsDecided(m, s, Then(chosen, 1, chosen.state, Exec(m, iterable, chosen.state, fuel)), fuel, fuel);
    case While(_, _) =>
      WhileRoundsDecided(m, s, Start(state), fuel, fuel);
  }

  lemma TryDecided<S(!new), V(!new)>(m: Machine<S, V>, s: Stmt, state: S, fuel: nat)
    requires Faithful(m) && (s.Try? || s.FunctionDecl?)
    ensures AllDecided(m, s, Body(m, s, state, fuel).trace, fuel)
    decreases s, 2, fuel
  {
    StartDecided(m, s, state, fuel);
    assert forall c: nat, k: nat :: !Decides(s, c, k);
    hide Exec, AllDecided, Then, Faithful, Start, Decides;
    match s
    case Try(body, catchBlock) =>
      AsideDecided(m, s, Start(state), 0, state, state, fuel);
      var tried := Then(Start(state), 0, state, Exec(m, body, state, fuel));
      AsideDecided(m, s, tried.(signal := Next), 1, tried.state, tried.state, fuel);
    case FunctionDecl(body) =>
      if body.Some? {
        AsideDecided(m, s, Start(state), 0, state, state, fuel);
      }
  }

  lemma BodyDecided<S(!new), V(!new)>(m: Machine<S, V>, s: Stmt, state: S, fuel: nat)
    requires Faithful(m)
    ensures AllDecided(m, s, Body(m, s, state, fuel).trace, fuel)
    decreases s, 3
  {
    hide Exec, AllDecided, InnerDecided, Then, Faithful, Sequence, ForRounds, ForEachRounds, WhileRounds, Conditions, Selected, Children, Start;
    match s
    case If(_, _, _) => IfDecided(m, s, state, fuel);
    case Switch(_, _) => SwitchDecided(m, s, state, fuel);
    case For(_, _, _, _) => LoopDecided(m, s, state, fuel);
    case ForEach(_, _, _) => LoopDecided(m, s, state, fuel);
    case While(_, _) => LoopDecided(m, s, state, fuel);
    case Try(_, _) => TryDecided(m, s, state, fuel);
    case FunctionDecl(_) => TryDecided(m, s, state, fuel);
    case Block(children) =>
      BlockChildren(s);
      SequenceDecided(m, s, |children|, state, fuel);
      OtherDecided(m, s, Sequence(m, s, |children|, state, fuel).trace, fuel);
    case _ =>
      SequenceDecided(m, s, |Children(s)|, state, fuel);
      OtherDecided(m, s, Sequence(m, s, |Children(s)|, state, fuel).trace, fuel);
  }

  lemma ExecDecided<S(!new), V(!new)>(m: Machine<S, V>, s: Stmt, state: S, fuel: nat)
    requires Faithful(m)
    ensures AllDecided(m, s, Exec(m, s, state, fuel).trace, fuel)
    decreases s, 4
  {
    hide *;
    BodyDecided(m, s, state, fuel);
    ExecTrace(m, s, state, fuel);
    MoreDecided(m, s, Body(m, s, state, fuel).trace, Exec(m, s, state, fuel).trace, fuel);
  }

  lemma ExecTrace<S, V>(m: Machine<S, V>, s: Stmt, state: S, fuel: nat)
    ensures forall path, entered :: path != [] ==> (In(Exec(m, s, state, fuel).trace, path, entered) <==> In(Body(m, s, state, fuel).trace, path, entered))
  {
    hide Body;
    assert Exec(m, s, state, fuel).trace == [Event([], [])] + Body(m, s, state, fuel).trace;
  }

  lemma MoreDecided<S(!new), V(!new)>(m: Machine<S, V>, s: Stmt, before: seq<Event<S>>, after: seq<Event<S>>, fuel: nat)
    requires AllDecided(m, s, before, fuel)
    requires forall path, entered :: path != [] ==> (In(after, path, entered) <==> In(before, path, entered))
    ensures AllDecided(m, s, after, fuel)
  {
    hide Parts, Tested, Chosen, In, Decides;
    forall d, entered, at | DecisionIn(s, d) && |entered| == |d.path| ensures DecidedAt(m, s, after, fuel, d, entered, at) {
      assert DecidedAt(m, s, before, fuel, d, entered, at);
    }
  }

  // ------------------------------------------------------------ of visits

  lemma {:induction false} OneDeeper(s: Stmt, p: Path, k: nat)
    requires Within(s, p + [k])
    ensures Within(s, p) && k < |Parts(At(s, p))| && GuardsAlong(s, p + [k]) == GuardsAlong(s, p) + Parts(At(s, p))[k].guards
    decreases |p|
  {
    hide Parts;
    if p == [] {
      assert p + [k] == [k] && [k][1..] == [];
      var guards := Parts(s)[k].guards;
      assert guards + [] == [] + guards == guards;
    } else {
      assert (p + [k])[0] == p[0] && (p + [k])[1..] == p[1..] + [k];
      var part := Parts(s)[p[0]];
      OneDeeper(part.stmt, p[1..], k);
      var rest := GuardsAlong(part.stmt, p[1..]);
      assert part.guards + (rest + Parts(At(s, p))[k].guards) == part.guards + rest + Parts(At(s, p))[k].guards;
    }
  }

  /** The guards that the visit of a part has beside those of the statement around it. */
  function Added(around: Visit, part: Visit): seq<Stmt> {
    if |around.scope.guards| <= |part.scope.guards| then part.scope.guards[|around.scope.guards|..] else []
  }

  /** The visit of a part of a visited statement adds the guards of that part. */
  lemma AddedAre(visit: Visitor, stmts: seq<Stmt>, u: Visit, v: Visit, k: nat)
    requires u in WalkOf(visit, stmts) && v in WalkOf(visit, stmts) && v.path == u.path + [k]
    ensures Within(Block(stmts), u.path) && Within(Block(stmts), v.path) && u.stmt == At(Block(stmts), u.path)
    ensures u.scope.guards <= v.scope.guards && k < |Parts(u.stmt)|
    ensures Added(u, v) == Parts(u.stmt)[k].guards && v.stmt == Parts(u.stmt)[k].stmt
  {
    var root, visits := Block(stmts), WalkOf(visit, stmts);
    WalkVisits(visit, stmts);
    hide WalkOf, Parts, Within, At, GuardsAlong, LoopsAlong;
    var i :| 0 <= i < |visits| && visits[i] == u;
    var j :| 0 <= j < |visits| && visits[j] == v;
    assert IsVisit(root, u, i) && IsVisit(root, v, j);
    OneDeeper(root, u.path, k);
    PartAt(root, u.path, k);
  }

  lemma {:induction false} PartAt(s: Stmt, p: Path, k: nat)
    requires Within(s, p + [k]) && Within(s, p) && k < |Parts(At(s, p))|
    ensures At(s, p + [k]) == Parts(At(s, p))[k].stmt
    decreases |p|
  {
    hide Parts;
    if p == [] {
      assert p + [k] == [k] && [k][1..] == [];
    } else {
      assert (p + [k])[0] == p[0] && (p + [k])[1..] == p[1..] + [k];
      PartAt(Parts(s)[p[0]].stmt, p[1..], k);
    }
  }

  /** No body before the k-th has its added guards hold. */
  ghost predicate NoneBefore<S, V>(m: Machine<S, V>, visits: seq<Visit>, u: Visit, k: nat, at: S) {
    forall w, j: nat :: w in visits && w.path == u.path + [j] && 0 < j < k && j % 2 == 0 ==> !GuardsHold(m, Added(u, w), at)
  }

  lemma SiblingVisited(visit: Visitor, stmts: seq<Stmt>, u: Visit, v: Visit, k: nat, j: nat) returns (w: Visit)
    requires u in WalkOf(visit, stmts) && v in WalkOf(visit, stmts) && v.path == u.path + [k] && j < k
    ensures w in WalkOf(visit, stmts) && w.path == u.path + [j]
  {
    AddedAre(visit, stmts, u, v, k);
    var root := Block(stmts);
    WalkVisits(visit, stmts);
    hide WalkOf, Parts, At;
    PathNotEmpty(visit, stmts, u);
    WithinSibling(root, u.path, k, j);
    NestedVisited(visit, stmts, u.path, k);
    NestedVisited(visit, stmts, u.path, j);
    assert Visited(WalkOf(visit, stmts), u.path + [k]);
    w :| w in WalkOf(visit, stmts) && w.path == u.path + [j];
  }

  lemma PathNotEmpty(visit: Visitor, stmts: seq<Stmt>, u: Visit)
    requires u in WalkOf(visit, stmts)
    ensures u.path != []
  {
    WalkVisits(visit, stmts);
    var visits := WalkOf(visit, stmts);
    hide WalkOf, Parts, Within, At, GuardsAlong, LoopsAlong;
    var i :| 0 <= i < |visits| && visits[i] == u;
    assert IsVisit(Block(stmts), u, i);
  }

  lemma {:induction false} WithinSibling(s: Stmt, p: Path, k: nat, j: nat)
    requires Within(s, p + [k]) && j < k
    ensures Within(s, p + [j])
    decreases |p|
  {
    hide Parts;
    if p == [] {
      assert p + [k] == [k] && p + [j] == [j] && [j][1..] == [];
    } else {
      assert (p + [k])[0] == p[0] && (p + [k])[1..] == p[1..] + [k];
      assert (p + [j])[0] == p[0] && (p + [j])[1..] == p[1..] + [j];
      WithinSibling(Parts(s)[p[0]].stmt, p[1..], k, j);
    }
  }

  lemma ChosenIsAdded<S(!new), V(!new)>(m: Machine<S, V>, visit: Visitor, stmts: seq<Stmt>, u: Visit, v: Visit, k: nat, at: S)
    requires u in WalkOf(visit, stmts) && v in WalkOf(visit, stmts) && v.path == u.path + [k]
    ensures k < |Parts(u.stmt)|
    ensures Chosen(m, u.stmt, k, at) <==>
      GuardsHold(m, Added(u, v), at) && (u.stmt.Switch? ==> NoneBefore(m, WalkOf(visit, stmts), u, k, at))
  {
    AddedAre(visit, stmts, u, v, k);
    NoneBeforeExactly(m, visit, stmts, u, v, k, at);
    hide WalkOf, Parts, GuardsHold, Added, NoneBefore;
  }

  lemma NoneBeforeExactly<S(!new), V(!new)>(m: Machine<S, V>, visit: Visitor, stmts: seq<Stmt>, u: Visit, v: Visit, k: nat, at: S)
    requires u in WalkOf(visit, stmts) && v in WalkOf(visit, stmts) && v.path == u.path + [k] && k < |Parts(u.stmt)|
    ensures NoneBefore(m, WalkOf(visit, stmts), u, k, at) <==>
      forall j :: 0 < j < k && j % 2 == 0 ==> !GuardsHold(m, Parts(u.stmt)[j].guards, at)
  {
    hide WalkOf, Parts, GuardsHold, Added;
    if NoneBefore(m, WalkOf(visit, stmts), u, k, at) {
      forall j | 0 < j < k && j % 2 == 0 ensures !GuardsHold(m, Parts(u.stmt)[j].guards, at) {
        var w := SiblingVisited(visit, stmts, u, v, k, j);
        AddedAre(visit, stmts, u, w, j);
      }
    }
    if forall j :: 0 < j < k && j % 2 == 0 ==> !GuardsHold(m, Parts(u.stmt)[j].guards, at) {
      forall w, j: nat | w in WalkOf(visit, stmts) && w.path == u.path + [j] && 0 < j < k && j % 2 == 0
        ensures !GuardsHold(m, Added(u, w), at)
      {
        AddedAre(visit, stmts, u, w, j);
      }
    }
  }

  /**
   * On every run, control enters the body of an if, a loop or a switch in a state
   * exactly when the construct decided in that state, all that it evaluates to decide
   * ended normally, and the guards the walk adds for that body hold; of a switch
   * the first such body.
   */
  lemma EnteredExactlyWhenGuarded<S(!new), V(!new)>(
      m: Machine<S, V>, stmts: seq<Stmt>, state: S, fuel: nat, visit: Visitor, u: Visit, v: Visit, c: nat, k: nat, entered: seq<S>, at: S)
    requires Faithful(m) && u in WalkOf(visit, stmts) && v in WalkOf(visit, stmts)
    requires v.path == u.path + [k] && Decides(u.stmt, c, k) && |entered| == |u.path|
    ensures u.scope.guards <= v.scope.guards
    ensures var trace := Exec(m, Block(stmts), state, fuel).trace;
            Event(v.path, entered + [at]) in trace <==>
              && Event(u.path + [c], entered + [at]) in trace && Tested(m, u.stmt, at, fuel)
              && GuardsHold(m, Added(u, v), at) && (u.stmt.Switch? ==> NoneBefore(m, WalkOf(visit, stmts), u, k, at))
  {
    var root, trace := Block(stmts), Exec(m, Block(stmts), state, fuel).trace;
    AddedAre(visit, stmts, u, v, k);
    ChosenIsAdded(m, visit, stmts, u, v, k, at);
    ExecDecided(m, root, state, fuel);
    hide Exec, WalkOf, Parts, GuardsHold, Added, NoneBefore, Tested, Chosen, Within, At, Decides, Faithful;
    var d := Decision(u.path, c, k);
    assert DecisionIn(root, d);
    assert DecidedAt(m, root, trace, fuel, d, entered, at);
  }

  /** The guards added for the body of a case hold exactly when the case would be taken, for a default when no case with a condition would. */
  lemma CaseHoldsExactlyWhenGuarded<S(!new), V(!new)>(
      m: Machine<S, V>, stmts: seq<Stmt>, visit: Visitor, u: Visit, v: Visit, i: nat, at: S)
    requires Faithful(m) && u in WalkOf(visit, stmts) && v in WalkOf(visit, stmts)
    requires u.stmt.Switch? && i < |u.stmt.cases| && v.path == u.path + [2 + 2 * i]
    ensures v.stmt == u.stmt.cases[i].body
    ensures GuardsHold(m, Added(u, v), at) <==>
      if EmptyCondition(u.stmt.cases[i].condition) then
        forall k :: 0 <= k < |u.stmt.cases| && !EmptyCondition(u.stmt.cases[k].condition) ==> !CaseHolds(m, u.stmt.value, u.stmt.cases[k], at)
      else CaseHolds(m, u.stmt.value, u.stmt.cases[i], at)
  {
    AddedAre(visit, stmts, u, v, 2 + 2 * i);
    SwitchPart(u.stmt, i);
    CaseGuardsExactly(m, u.stmt.value, u.stmt.cases, i, at);
    hide WalkOf, Parts, GuardsHold, Added, CaseHolds, CaseGuards, EmptyCondition, Faithful;
  }

  /** The update of a for loop lies under what its body lies under. */
  lemma UpdateUnderBody(stmts: seq<Stmt>, visit: Visitor, u: Visit, v: Visit, w: Visit)
    requires u in WalkOf(visit, stmts) && v in WalkOf(visit, stmts) && w in WalkOf(visit, stmts)
    requires u.stmt.For? && v.path == u.path + [2] && w.path == u.path + [3]
    ensures w.stmt == u.stmt.update && v.stmt == u.stmt.body && Added(u, w) == Added(u, v)
  {
    AddedAre(visit, stmts, u, v, 2);
    AddedAre(visit, stmts, u, w, 3);
    ForParts(u.stmt);
    LoopedAlike(u.stmt.cond, u.stmt.body, u.stmt.update);
    hide WalkOf, Parts, Added, Looped;
  }

  lemma LoopedAlike(cond: Stmt, body: Stmt, update: Stmt)
    ensures Looped(cond, body).guards == Looped(cond, update).guards
  {
  }
}
