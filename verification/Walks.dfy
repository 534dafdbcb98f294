/** Walks in a directed graph that is given by its successor lists. */
module Walks {

  /** A nonempty sequence of nodes, each a successor of the one before. */
  ghost predicate IsWalk<T>(next: T -> seq<T>, w: seq<T>) {
    w != [] && forall i :: 0 < i < |w| ==> w[i] in next(w[i - 1])
  }

  ghost predicate IsWalkFromTo<T>(next: T -> seq<T>, w: seq<T>, a: T, b: T) {
    IsWalk(next, w) && w[0] == a && w[|w| - 1] == b
  }

  /** b is reached from a by following any number of edges, none included. */
  ghost predicate Reaches<T(!new)>(next: T -> seq<T>, a: T, b: T) {
    exists w :: IsWalkFromTo(next, w, a, b)
  }

  lemma ReachesSelf<T(!new)>(next: T -> seq<T>, a: T)
    ensures Reaches(next, a, a)
  {
    assert IsWalkFromTo(next, [a], a, a);
  }

  lemma ReachesStep<T(!new)>(next: T -> seq<T>, a: T, b: T, c: T)
    requires Reaches(next, a, b) && c in next(b)
    ensures Reaches(next, a, c)
  {
    var w :| IsWalkFromTo(next, w, a, b);
    assert IsWalkFromTo(next, w + [c], a, c);
  }

  lemma ReachesTrans<T(!new)>(next: T -> seq<T>, a: T, b: T, c: T)
    requires Reaches(next, a, b) && Reaches(next, b, c)
    ensures Reaches(next, a, c)
  {
    var v :| IsWalkFromTo(next, v, a, b);
    var w :| IsWalkFromTo(next, w, b, c);
    var u := v + w[1..];
    forall i | 0 < i < |u| ensures u[i] in next(u[i - 1]) {
      if i >= |v| {
        assert u[i] == w[i - |v| + 1];
        assert u[i - 1] == w[i - |v|];
      }
    }
    assert IsWalkFromTo(next, u, a, c);
  }

  /** A walk that starts in a set closed under successors stays in it. */
  lemma {:induction false} WalkStaysInside<T(!new)>(next: T -> seq<T>, inside: T -> bool, w: seq<T>, k: nat)
    requires IsWalk(next, w) && k < |w| && inside(w[0])
    requires forall x, y :: inside(x) && y in next(x) ==> inside(y)
    ensures inside(w[k])
  {
    if k > 0 {
      WalkStaysInside(next, inside, w, k - 1);
    }
  }

  /** Every visited node but the open ones has been left for each of its successors. */
  ghost predicate ClosedBut<T(!new)>(next: T -> seq<T>, visited: set<T>, open: set<T>) {
    forall x, y :: x in visited && x !in open && y in next(x) ==> y in visited
  }

  lemma OpenOne<T(!new)>(next: T -> seq<T>, visited: set<T>, open: set<T>, x: T)
    requires ClosedBut(next, visited, open)
    ensures ClosedBut(next, visited + {x}, open + {x})
  {
  }

  lemma CloseOne<T(!new)>(next: T -> seq<T>, visited: set<T>, open: set<T>, x: T)
    requires ClosedBut(next, visited, open + {x}) && forall y :: y in next(x) ==> y in visited
    ensures ClosedBut(next, visited, open)
  {
  }

  lemma ClosedHasReached<T(!new)>(next: T -> seq<T>, visited: set<T>, x: T, y: T)
    requires ClosedBut(next, visited, {}) && x in visited && Reaches(next, x, y)
    ensures y in visited
  {
    var w :| IsWalkFromTo(next, w, x, y);
    WalkStaysInside(next, (z: T) => z in visited, w, |w| - 1);
  }
}
