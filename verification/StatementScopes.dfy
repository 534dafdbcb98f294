/** What the guarded walk visits, in which order and with which scope. */
module StatementScopes {
  import opened StatementWalk

  /** The path leads to a statement nested in s. */
  ghost predicate Within(s: Stmt, p: Path)
    decreases |p|
  {
    p == [] || (p[0] < |Parts(s)| && Within(Parts(s)[p[0]].stmt, p[1..]))
  }

  function At(s: Stmt, p: Path): Stmt
    requires Within(s, p)
    decreases |p|
  {
    if p == [] then s else At(Parts(s)[p[0]].stmt, p[1..])
  }

  /** The scope that every step of the path adds to. */
  function ScopeAt(s: Stmt, p: Path, scope: Scope): Scope
    requires Within(s, p)
    decreases |p|
  {
    if p == [] then scope else ScopeAt(Parts(s)[p[0]].stmt, p[1..], Under(scope, Parts(s)[p[0]]))
  }

  /** An outer statement comes before those nested in it, which come in the order of the parts. */
  ghost predicate Precedes(p: Path, q: Path)
    decreases |p|
  {
    q != [] && (p == [] || p[0] < q[0] || (p[0] == q[0] && Precedes(p[1..], q[1..])))
  }

  // ------------------------------------------------------ what is visited

  /** The visit is to the statement of s that its path leads to, in that statement's scope. */
  ghost predicate Proper(s: Stmt, path: Path, scope: Scope, v: Visit, order: nat) {
    && path <= v.path
    && var p := v.path[|path|..];
    && Within(s, p) && v.stmt == At(s, p) && v.scope == ScopeAt(s, p, scope).(order := order)
  }

  lemma ProperUnder(s: Stmt, k: nat, path: Path, scope: Scope, v: Visit, order: nat, later: nat)
    requires k < |Parts(s)| && Proper(Parts(s)[k].stmt, path + [k], Under(scope, Parts(s)[k]).(order := later), v, order)
    ensures Proper(s, path, scope, v, order) && |v.path| > |path| && v.path[|path|] == k
  {
    hide Parts, Under;
    var p, q := v.path[|path|..], v.path[|path| + 1..];
    assert p == [k] + q && p[1..] == q;
    assert v.path[|path|] == (path + [k])[|path|];
    ScopeIgnoresOrder(Parts(s)[k].stmt, q, Under(scope, Parts(s)[k]), later);
  }

  lemma {:induction false} ScopeIgnoresOrder(s: Stmt, p: Path, scope: Scope, order: nat)
    requires Within(s, p)
    ensures ScopeAt(s, p, scope.(order := order)) == ScopeAt(s, p, scope).(order := order)
    decreases |p|
  {
    if p != [] {
      UnderOrder(scope, Parts(s)[p[0]], order);
      ScopeIgnoresOrder(Parts(s)[p[0]].stmt, p[1..], Under(scope, Parts(s)[p[0]]), order);
    }
  }

  ghost predicate AllProper(s: Stmt, path: Path, scope: Scope, visits: seq<Visit>) {
    forall i :: 0 <= i < |visits| ==> Proper(s, path, scope, visits[i], scope.order + i)
  }

  ghost predicate InOrder(visits: seq<Visit>) {
    forall i, j :: 0 <= i < j < |visits| ==> Precedes(visits[i].path, visits[j].path)
  }

  /** Each visit is proper, numbered from the first, and after those before it. */
  lemma {:induction false} VisitsAreProper(visit: Visitor, s: Stmt, path: Path, scope: Scope)
    ensures AllProper(s, path, scope, Visits(visit, s, path, scope))
    ensures InOrder(Visits(visit, s, path, scope))
    decreases s, 1
  {
    var first := Visit(s, path, scope);
    var visits := Visits(visit, s, path, scope);
    if visit(s, scope) {
      var inner := scope.(order := scope.order + 1);
      PartVisitsAreProper(visit, s, |Parts(s)|, path, inner);
      var rest := PartVisits(visit, s, |Parts(s)|, path, inner);
      hide Parts, Visits, PartVisits;
      assert visits == [first] + rest;
      FirstThenParts(s, path, scope, rest);
    } else {
      assert visits == [first];
      assert path[|path|..] == [];
    }
  }

  lemma FirstThenParts(s: Stmt, path: Path, scope: Scope, rest: seq<Visit>)
    requires AllProper(s, path, scope.(order := scope.order + 1), rest) && InOrder(rest)
    requires forall v :: v in rest ==> |v.path| > |path|
    ensures AllProper(s, path, scope, [Visit(s, path, scope)] + rest) && InOrder([Visit(s, path, scope)] + rest)
  {
    hide Parts, Precedes;
    var visits := [Visit(s, path, scope)] + rest;
    assert path[|path|..] == [];
    forall i | 0 <= i < |visits| ensures Proper(s, path, scope, visits[i], scope.order + i) {
      if i > 0 {
        assert visits[i] == rest[i - 1];
        assert Proper(s, path, scope.(order := scope.order + 1), rest[i - 1], scope.order + i);
        ScopeIgnoresOrder(s, rest[i - 1].path[|path|..], scope, scope.order + 1);
      }
    }
    forall i, j | 0 <= i < j < |visits| ensures Precedes(visits[i].path, visits[j].path) {
      assert visits[j] == rest[j - 1];
      if i == 0 {
        OuterPrecedes(path, rest[j - 1].path);
      } else {
        assert visits[i] == rest[i - 1];
      }
    }
  }

  lemma {:induction false} OuterPrecedes(p: Path, q: Path)
    requires p <= q && |p| < |q|
    ensures Precedes(p, q)
    decreases |p|
  {
    if p != [] {
      assert p[0] == q[0] && p[1..] <= q[1..];
      OuterPrecedes(p[1..], q[1..]);
    }
  }

  lemma {:induction false} EarlierPrecedes(path: Path, p: Path, q: Path)
    requires path <= p && path <= q && |p| > |path| && |q| > |path| && p[|path|] < q[|path|]
    ensures Precedes(p, q)
    decreases |path|
  {
    if path != [] {
      assert p[0] == path[0] == q[0] && path[1..] <= p[1..] && path[1..] <= q[1..];
      EarlierPrecedes(path[1..], p[1..], q[1..]);
    }
  }

  ghost predicate BelowPart(visits: seq<Visit>, path: Path, k: nat) {
    forall v :: v in visits ==> path <= v.path && |v.path| > |path| && v.path[|path|] < k
  }

  lemma {:induction false} PartVisitsAreProper(visit: Visitor, s: Stmt, k: nat, path: Path, scope: Scope)
    requires k <= |Parts(s)|
    ensures AllProper(s, path, scope, PartVisits(visit, s, k, path, scope))
    ensures InOrder(PartVisits(visit, s, k, path, scope))
    ensures BelowPart(PartVisits(visit, s, k, path, scope), path, k)
    decreases s, 0, k
  {
    hide *;
    if k == 0 {
      NoPartVisits(visit, s, path, scope);
    } else {
      PartVisitsAreProper(visit, s, k - 1, path, scope);
      var before := PartVisits(visit, s, k - 1, path, scope);
      var part := Parts(s)[k - 1];
      var here := Under(scope, part).(order := scope.order + |before|);
      VisitsAreProper(visit, part.stmt, path + [k - 1], here);
      PartVisitsStep(visit, s, k - 1, path, scope);
      AppendPart(s, k - 1, path, scope, before, Visits(visit, part.stmt, path + [k - 1], here));
    }
  }

  lemma NoPartVisits(visit: Visitor, s: Stmt, path: Path, scope: Scope)
    ensures PartVisits(visit, s, 0, path, scope) == []
    ensures AllProper(s, path, scope, []) && InOrder([]) && BelowPart([], path, 0)
  {
  }

  lemma AppendPart(s: Stmt, k: nat, path: Path, scope: Scope, before: seq<Visit>, visits: seq<Visit>)
    requires k < |Parts(s)|
    requires AllProper(s, path, scope, before) && InOrder(before) && BelowPart(before, path, k)
    requires AllProper(Parts(s)[k].stmt, path + [k], Under(scope, Parts(s)[k]).(order := scope.order + |before|), visits) && InOrder(visits)
    ensures AllProper(s, path, scope, before + visits) && InOrder(before + visits) && BelowPart(before + visits, path, k + 1)
  {
    hide Parts, Under, Precedes, Proper;
    var all, n := before + visits, |before|;
    forall i | 0 <= i < |visits|
      ensures Proper(s, path, scope, visits[i], scope.order + n + i) && path <= visits[i].path && |visits[i].path| > |path| && visits[i].path[|path|] == k
    {
      assert Proper(Parts(s)[k].stmt, path + [k], Under(scope, Parts(s)[k]).(order := scope.order + n), visits[i], scope.order + n + i);
      ProperUnder(s, k, path, scope, visits[i], scope.order + n + i, scope.order + n);
      ProperHasPath(s, path, scope, visits[i], scope.order + n + i);
    }
    forall i | 0 <= i < |all| ensures Proper(s, path, scope, all[i], scope.order + i) {
      if i >= n {
        assert all[i] == visits[i - n];
      }
    }
    forall i, j | 0 <= i < j < |all| ensures Precedes(all[i].path, all[j].path) {
      if j >= n {
        assert all[j] == visits[j - n];
        if i >= n {
          assert all[i] == visits[i - n];
        } else {
          assert all[i] in before;
          EarlierPrecedes(path, all[i].path, all[j].path);
        }
      }
    }
  }

  lemma ProperHasPath(s: Stmt, path: Path, scope: Scope, v: Visit, order: nat)
    requires Proper(s, path, scope, v, order)
    ensures path <= v.path
  {
    hide Within;
  }

  // ----------------------------------------------------------- skipping

  ghost predicate Visited(visits: seq<Visit>, p: Path) {
    exists v :: v in visits && v.path == p
  }

  /** The visitor returned true for the statement at the path. */
  ghost predicate Accepted(visit: Visitor, visits: seq<Visit>, p: Path) {
    exists v :: v in visits && v.path == p && visit(v.stmt, v.scope)
  }

  function PartScope(visit: Visitor, s: Stmt, j: nat, path: Path, scope: Scope): Scope
    requires j < |Parts(s)|
  {
    Under(scope, Parts(s)[j]).(order := scope.order + |PartVisits(visit, s, j, path, scope)|)
  }

  lemma VisitsExtend(visit: Visitor, s: Stmt, path: Path, scope: Scope)
    ensures forall v :: v in Visits(visit, s, path, scope) ==> path <= v.path
  {
    VisitsAreProper(visit, s, path, scope);
    var visits := Visits(visit, s, path, scope);
    hide Visits, Proper;
    forall v | v in visits ensures path <= v.path {
      var i :| 0 <= i < |visits| && visits[i] == v;
      ProperHasPath(s, path, scope, v, scope.order + i);
    }
  }

  lemma OtherPart(path: Path, j: nat, k: nat, p: Path)
    requires path + [j] <= p && j != k
    ensures !(path + [k] <= p)
  {
    assert p[|path|] == (path + [j])[|path|] && (path + [k])[|path|] == k;
  }

  /** The visits below one part are those of the walk that starts at that part. */
  lemma {:induction false} VisitsOfPart(visit: Visitor, s: Stmt, k: nat, path: Path, scope: Scope, j: nat, v: Visit)
    requires j < k <= |Parts(s)| && path + [j] <= v.path
    ensures v in PartVisits(visit, s, k, path, scope)
      <==> v in Visits(visit, Parts(s)[j].stmt, path + [j], PartScope(visit, s, j, path, scope))
    decreases k
  {
    hide Parts, Visits, PartVisits, Under;
    var before := PartVisits(visit, s, k - 1, path, scope);
    var last := Visits(visit, Parts(s)[k - 1].stmt, path + [k - 1], PartScope(visit, s, k - 1, path, scope));
    PartVisitsStep(visit, s, k - 1, path, scope);
    assert v.path[|path|] == (path + [j])[|path|] == j;
    if j == k - 1 {
      PartVisitsAreProper(visit, s, k - 1, path, scope);
      assert v !in before;
    } else {
      VisitsExtend(visit, Parts(s)[k - 1].stmt, path + [k - 1], PartScope(visit, s, k - 1, path, scope));
      OtherPart(path, j, k - 1, v.path);
      VisitsOfPart(visit, s, k - 1, path, scope, j, v);
    }
  }

  lemma VisitsBelowPart(visit: Visitor, s: Stmt, path: Path, scope: Scope, j: nat, v: Visit)
    requires j < |Parts(s)| && path + [j] <= v.path
    ensures var inner := scope.(order := scope.order + 1);
            v in Visits(visit, s, path, scope)
            <==> visit(s, scope) && v in Visits(visit, Parts(s)[j].stmt, path + [j], PartScope(visit, s, j, path, inner))
  {
    var inner := scope.(order := scope.order + 1);
    if visit(s, scope) {
      VisitsOfPart(visit, s, |Parts(s)|, path, inner, j, v);
    }
    assert |v.path| > |path|;
    hide Parts, PartVisits, PartScope;
  }

  lemma FirstVisit(visit: Visitor, s: Stmt, path: Path, scope: Scope, v: Visit)
    ensures v in Visits(visit, s, path, scope) && v.path == path <==> v == Visit(s, path, scope)
  {
    VisitsAreProper(visit, s, path, scope);
    var visits := Visits(visit, s, path, scope);
    assert visits[0] == Visit(s, path, scope);
    NoneBeforeItself(path);
    forall i | 0 < i < |visits| ensures visits[i].path != path {
      assert Precedes(visits[0].path, visits[i].path);
    }
  }

  lemma {:induction false} NoneBeforeItself(p: Path)
    ensures !Precedes(p, p)
    decreases |p|
  {
    if p != [] {
      NoneBeforeItself(p[1..]);
    }
  }

  /** A nested statement is visited exactly when the visitor accepts the one around it. */
  lemma {:induction false} VisitedExactlyInside(visit: Visitor, s: Stmt, path: Path, scope: Scope, rel: Path, k: nat)
    requires Within(s, rel + [k])
    ensures Visited(Visits(visit, s, path, scope), path + rel + [k]) <==> Accepted(visit, Visits(visit, s, path, scope), path + rel)
    decreases |rel|
  {
    hide *;
    WithinStep(s, rel + [k]);
    var visits, inner := Visits(visit, s, path, scope), scope.(order := scope.order + 1);
    var j := (rel + [k])[0];
    var part, below := Parts(s)[j].stmt, PartScope(visit, s, j, path, inner);
    var under := Visits(visit, part, path + [j], below);
    forall v: Visit | path + [j] <= v.path ensures v in visits <==> visit(s, scope) && v in under {
      VisitsBelowPart(visit, s, path, scope, j, v);
    }
    VisitedThrough(visit, visits, under, visit(s, scope), path + [j], path + rel + [k]);
    if rel == [] {
      assert path + rel == path && path + rel + [k] == path + [j];
      FirstIsVisited(visit, s, path, scope);
      FirstIsVisited(visit, part, path + [j], below);
    } else {
      assert (rel + [k])[1..] == rel[1..] + [k];
      VisitedExactlyInside(visit, part, path + [j], below, rel[1..], k);
      assert path + [j] + rel[1..] == path + rel;
      assert path + [j] + rel[1..] + [k] == path + rel + [k];
      VisitedThrough(visit, visits, under, visit(s, scope), path + [j], path + rel);
    }
  }

  lemma WithinStep(s: Stmt, p: Path)
    requires Within(s, p) && p != []
    ensures p[0] < |Parts(s)| && Within(Parts(s)[p[0]].stmt, p[1..])
  {
    hide Parts;
  }

  lemma FirstIsVisited(visit: Visitor, s: Stmt, path: Path, scope: Scope)
    ensures Visited(Visits(visit, s, path, scope), path)
    ensures Accepted(visit, Visits(visit, s, path, scope), path) <==> visit(s, scope)
  {
    FirstVisit(visit, s, path, scope, Visit(s, path, scope));
    hide Visits;
    forall v: Visit ensures v in Visits(visit, s, path, scope) && v.path == path <==> v == Visit(s, path, scope) {
      FirstVisit(visit, s, path, scope, v);
    }
  }

  lemma VisitedThrough(visit: Visitor, visits: seq<Visit>, under: seq<Visit>, accepted: bool, at: Path, p: Path)
    requires at <= p && forall v: Visit :: at <= v.path ==> (v in visits <==> accepted && v in under)
    ensures Visited(visits, p) <==> accepted && Visited(under, p)
    ensures Accepted(visit, visits, p) <==> accepted && Accepted(visit, under, p)
  {
  }

  // ------------------------------------------------------- whole walks

  predicate InLoopBody(s: Stmt, k: nat) {
    (s.For? && k >= 2) || (s.ForEach? && k == 2) || (s.While? && k == 1)
  }

  /** How many loop bodies a statement lies in. */
  function LoopsAlong(s: Stmt, p: Path): nat
    requires Within(s, p)
    decreases |p|
  {
    if p == [] then 0 else (if InLoopBody(s, p[0]) then 1 else 0) + LoopsAlong(Parts(s)[p[0]].stmt, p[1..])
  }

  function GuardsAlong(s: Stmt, p: Path): seq<Stmt>
    requires Within(s, p)
    decreases |p|
  {
    if p == [] then [] else Parts(s)[p[0]].guards + GuardsAlong(Parts(s)[p[0]].stmt, p[1..])
  }

  lemma {:induction false} ScopeAlong(s: Stmt, p: Path, scope: Scope)
    requires Within(s, p)
    ensures ScopeAt(s, p, scope) == Scope(scope.guards + GuardsAlong(s, p), scope.loops + LoopsAlong(s, p), scope.order)
    decreases |p|
  {
    hide *;
    AlongStep(s, p, scope);
    if p != [] {
      WithinStep(s, p);
      PartLoops(s, p[0]);
      var part := Parts(s)[p[0]];
      ScopeAlong(part.stmt, p[1..], Under(scope, part));
      assert scope.guards + part.guards + GuardsAlong(part.stmt, p[1..]) == scope.guards + (part.guards + GuardsAlong(part.stmt, p[1..]));
    } else {
      assert scope.guards + [] == scope.guards;
    }
  }

  /** How one step of a path adds to each part of a scope. */
  lemma AlongStep(s: Stmt, p: Path, scope: Scope)
    requires Within(s, p)
    ensures p == [] ==> ScopeAt(s, p, scope) == scope && GuardsAlong(s, p) == [] && LoopsAlong(s, p) == 0
    ensures p != [] ==> p[0] < |Parts(s)| && Within(Parts(s)[p[0]].stmt, p[1..])
    ensures p != [] ==>
      var part := Parts(s)[p[0]];
      && ScopeAt(s, p, scope) == ScopeAt(part.stmt, p[1..], Under(scope, part))
      && GuardsAlong(s, p) == part.guards + GuardsAlong(part.stmt, p[1..])
      && LoopsAlong(s, p) == (if InLoopBody(s, p[0]) then 1 else 0) + LoopsAlong(part.stmt, p[1..])
      && Under(scope, part) == Scope(scope.guards + part.guards, scope.loops + part.loops, scope.order)
  {
    hide Parts, InLoopBody;
  }

  lemma PartLoops(s: Stmt, k: nat)
    requires k < |Parts(s)|
    ensures Parts(s)[k].loops == if InLoopBody(s, k) then 1 else 0
  {
    hide EmptyCondition, CaseGuards, Negated;
    if s.Switch? {
      SwitchPartLoops(s, k);
    }
  }

  lemma SwitchPartLoops(s: Stmt, k: nat)
    requires s.Switch? && k < |Parts(s)|
    ensures Parts(s)[k].loops == 0
  {
    hide CaseGuards;
  }

  ghost predicate IsVisit(root: Stmt, v: Visit, order: nat) {
    && v.path != [] && Within(root, v.path) && v.stmt == At(root, v.path)
    && v.scope == Scope(GuardsAlong(root, v.path), LoopsAlong(root, v.path), order)
  }

  /**
   * Every visit is to a nested statement, numbered from zero, with the guards
   * its path collects and as many loops as it lies in bodies of; the visits are
   * in pre-order, so none is repeated.
   */
  lemma WalkVisits(visit: Visitor, stmts: seq<Stmt>)
    ensures var visits, root := WalkOf(visit, stmts), Block(stmts);
            (forall i :: 0 <= i < |visits| ==> IsVisit(root, visits[i], i)) && InOrder(visits)
  {
    var visits, root := WalkOf(visit, stmts), Block(stmts);
    PartVisitsAreProper(visit, root, |Parts(root)|, [], TOP);
    hide PartVisits, InOrder, Parts;
    forall i | 0 <= i < |visits| ensures IsVisit(root, visits[i], i) {
      assert Proper(root, [], TOP, visits[i], i);
      assert visits[i] in visits;
      assert visits[i].path[0..] == visits[i].path;
      ScopeAlong(root, visits[i].path, TOP);
      assert [] + GuardsAlong(root, visits[i].path) == GuardsAlong(root, visits[i].path);
    }
  }

  /** A statement is visited exactly when the visitor accepts every statement around it. */
  lemma {:induction false} WalkSkips(visit: Visitor, stmts: seq<Stmt>, p: Path)
    requires p != [] && Within(Block(stmts), p)
    ensures Visited(WalkOf(visit, stmts), p) <==> forall n :: 0 < n < |p| ==> Accepted(visit, WalkOf(visit, stmts), p[..n])
    decreases |p|
  {
    hide WalkOf, Accepted, Visited;
    var visits, m := WalkOf(visit, stmts), |p| - 1;
    assert p == p[..m] + [p[m]];
    if m == 0 {
      assert p == [p[0]];
      TopVisited(visit, stmts, p[0]);
    } else {
      WithinOuter(Block(stmts), p, m);
      WalkSkips(visit, stmts, p[..m]);
      NestedVisited(visit, stmts, p[..m], p[m]);
      AcceptedIsVisited(visit, visits, p[..m]);
      forall n | 0 < n < m ensures p[..m][..n] == p[..n] {
      }
    }
  }

  lemma AcceptedIsVisited(visit: Visitor, visits: seq<Visit>, p: Path)
    ensures Accepted(visit, visits, p) ==> Visited(visits, p)
  {
  }

  lemma {:induction false} WithinOuter(s: Stmt, p: Path, m: nat)
    requires Within(s, p) && m <= |p|
    ensures Within(s, p[..m])
    decreases |p|
  {
    hide Parts;
    if m > 0 {
      WithinOuter(Parts(s)[p[0]].stmt, p[1..], m - 1);
      assert p[..m][1..] == p[1..][..m - 1];
    }
  }

  lemma TopVisited(visit: Visitor, stmts: seq<Stmt>, k: nat)
    requires Within(Block(stmts), [k])
    ensures Visited(WalkOf(visit, stmts), [k])
  {
    var root := Block(stmts);
    var here := PartScope(visit, root, k, [], TOP);
    FirstVisit(visit, stmts[k], [k], here, Visit(stmts[k], [k], here));
    VisitsOfPart(visit, root, |Parts(root)|, [], TOP, k, Visit(stmts[k], [k], here));
    assert [] + [k] == [k];
    hide Visits, PartVisits;
  }

  lemma NestedVisited(visit: Visitor, stmts: seq<Stmt>, p: Path, k: nat)
    requires p != [] && Within(Block(stmts), p + [k])
    ensures Visited(WalkOf(visit, stmts), p + [k]) <==> Accepted(visit, WalkOf(visit, stmts), p)
  {
    var root, j, q := Block(stmts), p[0], p[1..];
    assert (p + [k])[0] == j && (p + [k])[1..] == q + [k];
    var here := PartScope(visit, root, j, [], TOP);
    var under := Visits(visit, Parts(root)[j].stmt, [] + [j], here);
    assert [] + [j] == [j] && [j] + q == p && [j] + q + [k] == p + [k];
    forall v: Visit | [j] <= v.path ensures v in WalkOf(visit, stmts) <==> v in under {
      VisitsOfPart(visit, root, |Parts(root)|, [], TOP, j, v);
    }
    VisitedExactlyInside(visit, Parts(root)[j].stmt, [j], here, q, k);
    hide Parts, Visits, PartVisits, PartScope, WalkOf;
    VisitedThrough(visit, WalkOf(visit, stmts), under, true, [j], p + [k]);
    VisitedThrough(visit, WalkOf(visit, stmts), under, true, [j], p);
  }

  /** A visitor that never skips is shown every nested statement. */
  lemma {:induction false} NeverSkipping(visit: Visitor, stmts: seq<Stmt>, p: Path)
    requires (forall s, scope :: visit(s, scope)) && p != [] && Within(Block(stmts), p)
    ensures Visited(WalkOf(visit, stmts), p)
    decreases |p|
  {
    hide WalkOf, Within;
    WalkSkips(visit, stmts, p);
    forall n | 0 < n < |p| ensures Accepted(visit, WalkOf(visit, stmts), p[..n]) {
      WithinOuter(Block(stmts), p, n);
      NeverSkipping(visit, stmts, p[..n]);
    }
  }
}
