/**
 * Strongly connected components of the local module dependency graph
 * (indexer/graph_components.go): Tarjan's algorithm over index, low and onStack
 * arrays, a stack and a list of finished groups.
 *
 * The object's fields are read into a State value, and the invariants of the
 * search are predicates over State values, so that each step of the search is
 * justified by a lemma that does not mention the heap.
 */
module Components {
  import opened Walks

  /** The variables of the search. An index of zero marks an unvisited node. */
  datatype State = State(index: seq<nat>, low: seq<nat>, onStack: seq<bool>,
                         stack: seq<nat>, order: nat, groups: seq<seq<nat>>)

  // ---------------------------------------------------------------- invariants

  ghost predicate InGraph(next: nat -> seq<nat>, n: nat) {
    forall v, w :: 0 <= v < n && w in next(v) ==> w < n
  }

  ghost predicate Numbered(s: State, n: nat) {
    && |s.index| == |s.low| == |s.onStack| == n
    && (forall v :: 0 <= v < n ==> s.index[v] <= s.order)
    && (forall v, w :: 0 <= v < w < n && s.index[v] != 0 ==> s.index[v] != s.index[w])
  }

  /** The stack holds exactly the onStack nodes, each once, in the order they were numbered. */
  ghost predicate Stacked(s: State, n: nat) {
    && |s.index| == |s.onStack| == n
    && (forall i :: 0 <= i < |s.stack| ==> s.stack[i] < n && s.index[s.stack[i]] != 0)
    && (forall i, j :: 0 <= i < j < |s.stack| ==> s.index[s.stack[i]] < s.index[s.stack[j]])
    && (forall v :: 0 <= v < n ==> (s.onStack[v] <==> v in s.stack))
  }

  /** A node whose visit has finished has no unvisited successor. */
  ghost predicate NoneMissed(next: nat -> seq<nat>, s: State, grays: set<nat>) {
    forall v, w :: 0 <= v < |s.index| && s.index[v] != 0 && v !in grays && w in next(v) && w < |s.index| ==> s.index[w] != 0
  }

  /** Every node of the stack reaches those above it, and some node still being visited at or below it. */
  ghost predicate Connected(next: nat -> seq<nat>, s: State, grays: set<nat>) {
    && (forall g :: g in grays ==> g in s.stack)
    && (forall i, j :: 0 <= i <= j < |s.stack| ==> Reaches(next, s.stack[i], s.stack[j]))
    && (forall i :: 0 <= i < |s.stack| ==> ReachesGray(next, s, grays, i))
  }

  ghost predicate ReachesGray(next: nat -> seq<nat>, s: State, grays: set<nat>, i: nat)
    requires i < |s.stack|
  {
    exists k :: 0 <= k <= i && s.stack[k] in grays && Reaches(next, s.stack[i], s.stack[k])
  }

  ghost predicate InGroup(groups: seq<seq<nat>>, i: nat, v: nat) {
    i < |groups| && v in groups[i]
  }

  /** No node occurs twice in the groups. */
  ghost predicate Disjoint(groups: seq<seq<nat>>) {
    forall i, a, j, b :: 0 <= i < |groups| && 0 <= a < |groups[i]| && 0 <= j < |groups| && 0 <= b < |groups[j]| ==>
      groups[i][a] == groups[j][b] ==> i == j && a == b
  }

  /** The groups hold exactly the nodes that were visited and have left the stack. */
  ghost predicate Emitted(s: State, n: nat) {
    && |s.index| == n
    && Disjoint(s.groups)
    && (forall i :: 0 <= i < |s.groups| ==> s.groups[i] != [])
    && (forall i: nat, v: nat :: InGroup(s.groups, i, v) ==> v < n && s.index[v] != 0 && v !in s.stack)
    && (forall v :: 0 <= v < n && s.index[v] != 0 && v !in s.stack ==> exists i: nat :: InGroup(s.groups, i, v))
  }

  /** Members of a group reach each other. */
  ghost predicate MutuallyReachable(next: nat -> seq<nat>, groups: seq<seq<nat>>) {
    forall i: nat, v: nat, w: nat :: InGroup(groups, i, v) && InGroup(groups, i, w) ==> Reaches(next, v, w)
  }

  /** Every edge out of a group leads into that group or an earlier one. */
  ghost predicate DependenciesFirst(next: nat -> seq<nat>, groups: seq<seq<nat>>) {
    forall i: nat, v: nat, w: nat :: InGroup(groups, i, v) && w in next(v) ==> NotLater(groups, i, w)
  }

  ghost predicate NotLater(groups: seq<seq<nat>>, i: nat, w: nat) {
    exists j :: 0 <= j <= i && InGroup(groups, j, w)
  }

  ghost predicate Inv(next: nat -> seq<nat>, n: nat, s: State, grays: set<nat>) {
    && Numbered(s, n)
    && Stacked(s, n)
    && NoneMissed(next, s, grays)
    && Connected(next, s, grays)
    && Emitted(s, n)
    && MutuallyReachable(next, s.groups)
    && DependenciesFirst(next, s.groups)
  }

  // ------------------------------------------------------- what one visit does

  /** s is a later state than s0: what s0 had settled is unchanged. */
  ghost predicate Extends(s0: State, s: State) {
    && |s0.index| == |s.index| == |s.low| == |s0.low|
    && s0.order <= s.order
    && s0.groups <= s.groups
    && (forall v :: 0 <= v < |s0.index| && s0.index[v] != 0 ==> s.index[v] == s0.index[v] && s.low[v] == s0.low[v])
    && (forall v :: 0 <= v < |s0.index| && s0.index[v] == 0 && s.index[v] != 0 ==> s.index[v] > s0.order)
  }

  /** No edge from the stack above position `from` into s0's stack leads below `bound`. */
  ghost predicate EdgesAtLeast(next: nat -> seq<nat>, s0: State, s: State, from: nat, bound: nat) {
    forall k, w :: from <= k < |s.stack| && w in next(s.stack[k]) && w in s0.stack && w < |s.index| ==> bound <= s.index[w]
  }

  /** low[node] is the index of a node of `stack` that node reaches. */
  ghost predicate LowWitness(next: nat -> seq<nat>, s: State, stack: seq<nat>, node: nat) {
    node < |s.low| && exists y: nat :: y in stack && y < |s.index| && s.index[y] == s.low[node] && Reaches(next, node, y)
  }

  /** What visiting an unvisited node changes. */
  ghost predicate VisitDone(next: nat -> seq<nat>, s0: State, s: State, node: nat) {
    && Extends(s0, s)
    && node < |s.index| && s.index[node] != 0
    && s0.stack <= s.stack
    && (node in s.stack ==> s.low[node] < s.index[node] && LowWitness(next, s, s0.stack, node))
    && (node !in s.stack ==> s.stack == s0.stack && s.low[node] == s.index[node])
    && EdgesAtLeast(next, s0, s, |s0.stack|, s.low[node])
  }

  /** The visit of node, which began in s0, has dealt with its first i successors. */
  ghost predicate Exploring(next: nat -> seq<nat>, n: nat, s0: State, s: State, grays: set<nat>, node: nat, i: nat) {
    && node < n && node !in grays
    && |s0.index| == n && s0.index[node] == 0
    && (forall g :: g in grays ==> g in s0.stack)
    && Inv(next, n, s, grays + {node})
    && Extends(s0, s)
    && s0.stack + [node] <= s.stack
    && s.low[node] <= s.index[node]
    && LowWitness(next, s, s.stack, node)
    && EdgesAtLeast(next, s0, s, |s0.stack| + 1, s.low[node])
    && i <= |next(node)|
    && (forall j :: 0 <= j < i ==> Dealt(s0, s, node, next(node)[j]))
  }

  ghost predicate Dealt(s0: State, s: State, node: nat, w: nat) {
    && node < |s.low|
    && w < |s.index| && s.index[w] != 0
    && (w in s0.stack ==> s.low[node] <= s.index[w])
  }

  // ------------------------------------------------------------- value updates

  function Entered(s: State, node: nat): State
    requires node < |s.index| == |s.low| == |s.onStack|
  {
    State(s.index[node := s.order + 1], s.low[node := s.order + 1], s.onStack[node := true],
          s.stack + [node], s.order + 1, s.groups)
  }

  function Lowered(s: State, node: nat, bound: nat): State
    requires node < |s.low|
  {
    s.(low := s.low[node := if bound < s.low[node] then bound else s.low[node]])
  }

  /** The group of the nodes above position `base` has been popped. */
  ghost predicate Popped(s: State, base: nat, group: seq<nat>, t: State) {
    && base <= |s.stack|
    && t.index == s.index && t.low == s.low && t.order == s.order
    && t.stack == s.stack[..base]
    && t.groups == s.groups + [group]
    && |group| == |s.stack| - base
    && (forall k :: 0 <= k < |group| ==> group[k] == s.stack[|s.stack| - 1 - k])
    && |t.onStack| == |s.onStack|
    && (forall v :: 0 <= v < |s.onStack| ==> t.onStack[v] == (s.onStack[v] && v !in group))
  }

  /** A node has one position on the stack, and older nodes are lower. */
  lemma Positions(s: State, n: nat)
    requires Stacked(s, n)
    ensures forall i, j :: 0 <= i < |s.stack| && 0 <= j < |s.stack| && s.index[s.stack[i]] <= s.index[s.stack[j]] ==> i <= j
  {
  }

  lemma StillVisited(s0: State, s: State)
    requires Extends(s0, s)
    ensures forall v :: 0 <= v < |s0.index| && s0.index[v] != 0 ==> s.index[v] != 0
  {
  }

  lemma InvParts(next: nat -> seq<nat>, n: nat, s: State, grays: set<nat>)
    requires Inv(next, n, s, grays)
    ensures Numbered(s, n) && Stacked(s, n) && Connected(next, s, grays)
  {
  }

  // ------------------------------------------------------------------- entering

  lemma EnterNumbers(n: nat, s: State, node: nat)
    requires Numbered(s, n) && Stacked(s, n) && node < n && s.index[node] == 0
    ensures Numbered(Entered(s, node), n) && Stacked(Entered(s, node), n)
  {
    var t := Entered(s, node);
    assert node !in s.stack;
    forall v | 0 <= v < n ensures t.onStack[v] <==> v in t.stack {
      if v == node {
        assert t.stack[|s.stack|] == node;
      }
    }
  }

  lemma EnterConnects(next: nat -> seq<nat>, n: nat, s: State, grays: set<nat>, node: nat)
    requires Numbered(s, n) && Stacked(s, n) && node < n && s.index[node] == 0
    requires Connected(next, s, grays)
    requires forall g :: g in grays ==> Reaches(next, g, node)
    ensures Connected(next, Entered(s, node), grays + {node})
  {
    var t := Entered(s, node);
    var h := |s.stack|;
    forall i, j | 0 <= i <= j < |t.stack| ensures Reaches(next, t.stack[i], t.stack[j]) {
      if i == h {
        ReachesSelf(next, node);
      } else if j == h {
        assert ReachesGray(next, s, grays, i);
        var k :| 0 <= k <= i && s.stack[k] in grays && Reaches(next, s.stack[i], s.stack[k]);
        ReachesTrans(next, s.stack[i], s.stack[k], node);
      } else {
        assert Reaches(next, s.stack[i], s.stack[j]);
      }
    }
    forall i | 0 <= i < |t.stack| ensures ReachesGray(next, t, grays + {node}, i) {
      if i == h {
        ReachesSelf(next, node);
        assert t.stack[h] in grays + {node} && Reaches(next, t.stack[i], t.stack[h]);
      } else {
        assert ReachesGray(next, s, grays, i);
        var k :| 0 <= k <= i && s.stack[k] in grays && Reaches(next, s.stack[i], s.stack[k]);
        assert t.stack[k] in grays + {node} && Reaches(next, t.stack[i], t.stack[k]);
      }
    }
    forall g | g in grays + {node} ensures g in t.stack {
      assert t.stack[h] == node;
    }
  }

  lemma EnterEmitted(n: nat, s: State, node: nat)
    requires Numbered(s, n) && Emitted(s, n) && node < n && s.index[node] == 0
    ensures Emitted(Entered(s, node), n)
  {
    var t := Entered(s, node);
    forall i: nat, v: nat | InGroup(t.groups, i, v) ensures v < n && t.index[v] != 0 && v !in t.stack {
      assert InGroup(s.groups, i, v);
    }
    forall v | 0 <= v < n && t.index[v] != 0 && v !in t.stack ensures exists i: nat :: InGroup(t.groups, i, v) {
      assert t.stack[|s.stack|] == node;
      assert v !in s.stack;
      var i: nat :| InGroup(s.groups, i, v);
      assert InGroup(t.groups, i, v);
    }
  }

  lemma Enter(next: nat -> seq<nat>, n: nat, s: State, grays: set<nat>, node: nat)
    requires Inv(next, n, s, grays) && node < n && s.index[node] == 0
    requires forall g :: g in grays ==> Reaches(next, g, node)
    ensures Exploring(next, n, s, Entered(s, node), grays, node, 0)
  {
    var t := Entered(s, node);
    EnterNumbers(n, s, node);
    EnterConnects(next, n, s, grays, node);
    EnterEmitted(n, s, node);
    assert t.stack[|s.stack|] == node;
    ReachesSelf(next, node);
    assert node in t.stack && t.index[node] == t.low[node] && Reaches(next, node, node);
  }

  /** What the search reads off its state between two successors. */
  lemma ExploringFacts(next: nat -> seq<nat>, n: nat, s0: State, s: State, grays: set<nat>, node: nat, i: nat)
    requires Exploring(next, n, s0, s, grays, node, i)
    ensures Inv(next, n, s, grays + {node}) && Stacked(s, n) && s0.stack + [node] <= s.stack
    ensures node < |s.index| == |s0.index| == n && s.index[node] != 0 && s0.index[node] == 0
    ensures forall v :: 0 <= v < n && s0.index[v] != 0 ==> s.index[v] != 0
    ensures forall v :: 0 <= v < n ==> (s.onStack[v] <==> v in s.stack)
  {
    hide NoneMissed, Connected, Emitted, MutuallyReachable, DependenciesFirst, EdgesAtLeast, LowWitness;
    Prefixed(s0, s, node);
    VisitedOnStack(s, n, |s0.stack|);
  }

  // ------------------------------------------------------- following one edge

  /** low is read by no invariant. */
  lemma LowIsFree(next: nat -> seq<nat>, n: nat, s: State, t: State, grays: set<nat>)
    requires Inv(next, n, s, grays)
    requires t == s.(low := t.low) && |t.low| == |s.low|
    ensures Inv(next, n, t, grays)
  {
    forall i | 0 <= i < |t.stack| ensures ReachesGray(next, t, grays, i) {
      assert ReachesGray(next, s, grays, i);
    }
  }

  lemma FollowToStack(next: nat -> seq<nat>, n: nat, s0: State, s: State, grays: set<nat>, node: nat, i: nat)
    requires Exploring(next, n, s0, s, grays, node, i) && i < |next(node)|
    requires next(node)[i] in s.stack
    ensures Exploring(next, n, s0, Lowered(s, node, s.index[next(node)[i]]), grays, node, i + 1)
  {
    hide NoneMissed, Connected, Emitted, MutuallyReachable, DependenciesFirst, Numbered, Reaches;
    var w := next(node)[i];
    var t := Lowered(s, node, s.index[w]);
    LowIsFree(next, n, s, t, grays + {node});
    ReachesSelf(next, node);
    ReachesStep(next, node, node, w);
    if t.low[node] == s.index[w] {
      assert w in t.stack && t.index[w] == t.low[node] && Reaches(next, node, w);
    } else {
      var y: nat :| y in s.stack && y < |s.index| && s.index[y] == s.low[node] && Reaches(next, node, y);
      assert y in t.stack && t.index[y] == t.low[node] && Reaches(next, node, y);
    }
    forall j | 0 <= j < i + 1 ensures Dealt(s0, t, node, next(node)[j]) {
      if j < i {
        assert Dealt(s0, s, node, next(node)[j]);
      }
    }
  }

  lemma FollowToEmitted(next: nat -> seq<nat>, n: nat, s0: State, s: State, grays: set<nat>, node: nat, i: nat)
    requires Exploring(next, n, s0, s, grays, node, i) && i < |next(node)|
    requires next(node)[i] < n && s.index[next(node)[i]] != 0 && next(node)[i] !in s.stack
    ensures Exploring(next, n, s0, s, grays, node, i + 1)
  {
    var w := next(node)[i];
    assert forall v :: v in s0.stack ==> v in (s0.stack + [node]);
    assert w !in s0.stack;
    forall j | 0 <= j < i + 1 ensures Dealt(s0, s, node, next(node)[j]) {
      if j < i {
        assert Dealt(s0, s, node, next(node)[j]);
      }
    }
  }

  /** Every node being visited reaches the successor that is visited next. */
  lemma GraysReachNext(next: nat -> seq<nat>, n: nat, s0: State, s: State, grays: set<nat>, node: nat, i: nat, w: nat)
    requires Exploring(next, n, s0, s, grays, node, i)
    requires w in next(node)
    ensures forall g :: g in grays + {node} ==> Reaches(next, g, w)
  {
    var h := |s0.stack|;
    assert (s0.stack + [node])[h] == node && s.stack[h] == node;
    forall g | g in grays + {node} ensures Reaches(next, g, w) {
      var k :| 0 <= k <= h && s.stack[k] == g by {
        if g != node {
          var m :| 0 <= m < |s0.stack| && s0.stack[m] == g;
          assert (s0.stack + [node])[m] == g && s.stack[m] == g;
        }
      }
      assert Reaches(next, s.stack[k], s.stack[h]);
      ReachesStep(next, g, node, w);
    }
  }

  lemma VisitedOnStack(s: State, n: nat, i: nat)
    requires Stacked(s, n) && i < |s.stack|
    ensures s.stack[i] < n && s.index[s.stack[i]] != 0
  {
  }

  lemma FollowVisitedEdges(next: nat -> seq<nat>, n: nat, s0: State, s: State, t: State, grays: set<nat>, node: nat, w: nat)
    requires s0.stack + [node] <= s.stack && s.stack <= t.stack
    requires Stacked(s, n) && Stacked(t, n) && Extends(s, t) && node < |s.low| == n && w < n
    requires EdgesAtLeast(next, s0, s, |s0.stack| + 1, s.low[node])
    requires EdgesAtLeast(next, s, t, |s.stack|, t.low[w])
    requires s.index[node] != 0
    ensures EdgesAtLeast(next, s0, Lowered(t, node, t.low[w]), |s0.stack| + 1, Lowered(t, node, t.low[w]).low[node])
  {
    var u := Lowered(t, node, t.low[w]);
    forall k, x | |s0.stack| + 1 <= k < |u.stack| && x in next(u.stack[k]) && x in s0.stack && x < |u.index|
      ensures u.low[node] <= u.index[x]
    {
      assert x in (s0.stack + [node]);
      assert x in s.stack;
      if k < |s.stack| {
        assert s.stack[k] == t.stack[k];
        assert s.low[node] <= s.index[x];
      } else {
        assert t.low[w] <= t.index[x];
      }
    }
  }

  lemma FollowVisited(next: nat -> seq<nat>, n: nat, s0: State, s: State, t: State, grays: set<nat>, node: nat, i: nat)
    requires Exploring(next, n, s0, s, grays, node, i) && i < |next(node)|
    requires next(node)[i] < n && s.index[next(node)[i]] == 0
    requires VisitDone(next, s, t, next(node)[i]) && Inv(next, n, t, grays + {node})
    ensures Exploring(next, n, s0, Lowered(t, node, t.low[next(node)[i]]), grays, node, i + 1)
  {
    hide Inv, Stacked, Numbered, Connected, EdgesAtLeast, LowWitness;
    var w := next(node)[i];
    InvParts(next, n, s, grays + {node});
    InvParts(next, n, t, grays + {node});
    var u := Lowered(t, node, t.low[w]);
    LowIsFree(next, n, t, u, grays + {node});
    Prefixed(s0, s, node);
    VisitedOnStack(s, n, |s0.stack|);
    FollowVisitedEdges(next, n, s0, s, t, grays, node, w);
    FollowVisitedLow(next, n, s, t, node, w);
    FollowVisitedExtends(s0, s, t, node, u);
    forall j | 0 <= j < i + 1 ensures Dealt(s0, u, node, next(node)[j]) {
      if j < i {
        assert Dealt(s0, s, node, next(node)[j]);
      } else {
        assert forall v :: v in s0.stack ==> v in (s0.stack + [node]);
      }
    }
  }

  lemma FollowVisitedExtends(s0: State, s: State, t: State, node: nat, u: State)
    requires Extends(s0, s) && Extends(s, t) && node < |s.index| && node < |s0.index| && s0.index[node] == 0
    requires u == t.(low := u.low) && |u.low| == |t.low| && (forall v :: 0 <= v < |u.low| && v != node ==> u.low[v] == t.low[v])
    ensures Extends(s0, u)
  {
  }

  /** The low of a node is still the index of a stack node it reaches after it took a child's low. */
  lemma FollowVisitedLow(next: nat -> seq<nat>, n: nat, s: State, t: State, node: nat, w: nat)
    requires Numbered(s, n) && Numbered(t, n) && Stacked(s, n) && Stacked(t, n)
    requires VisitDone(next, s, t, w) && node < n && w < n && w in next(node)
    requires s.index[node] != 0 && s.index[w] == 0 && s.low[node] <= s.index[node] && LowWitness(next, s, s.stack, node)
    ensures var u := Lowered(t, node, t.low[w]);
            u.low[node] <= u.index[node] && LowWitness(next, u, u.stack, node)
  {
    hide EdgesAtLeast, Reaches;
    var u := Lowered(t, node, t.low[w]);
    if w in t.stack && u.low[node] == t.low[w] {
      var y: nat :| y in s.stack && y < |t.index| && t.index[y] == t.low[w] && Reaches(next, w, y);
      ReachesSelf(next, node);
      ReachesStep(next, node, node, w);
      ReachesTrans(next, node, w, y);
      assert y in u.stack && u.index[y] == u.low[node] && Reaches(next, node, y);
    } else {
      if w !in t.stack {
        assert t.low[w] == t.index[w] > s.order >= s.index[node];
      }
      var y: nat :| y in s.stack && y < |s.index| && s.index[y] == s.low[node] && Reaches(next, node, y);
      assert t.index[y] == s.index[y] by {
        assert s.index[y] != 0;
      }
      assert y in u.stack && u.index[y] == u.low[node] && Reaches(next, node, y);
    }
  }

  // -------------------------------------------------------- leaving a node open

  lemma Prefixed(s0: State, s: State, node: nat)
    requires s0.stack + [node] <= s.stack
    ensures s0.stack <= s.stack && |s0.stack| < |s.stack| && s.stack[|s0.stack|] == node
    ensures forall i :: 0 <= i < |s0.stack| ==> s0.stack[i] == s.stack[i]
  {
    assert (s0.stack + [node])[|s0.stack|] == node;
    forall i | 0 <= i < |s0.stack| ensures s0.stack[i] == s.stack[i] {
      assert (s0.stack + [node])[i] == s0.stack[i];
    }
  }

  /** Once all its successors are dealt with, the node itself bounds its edges too. */
  lemma AllEdgesAtLeast(next: nat -> seq<nat>, n: nat, s0: State, s: State, grays: set<nat>, node: nat)
    requires Exploring(next, n, s0, s, grays, node, |next(node)|)
    ensures EdgesAtLeast(next, s0, s, |s0.stack|, s.low[node])
  {
    Prefixed(s0, s, node);
    forall k, w | |s0.stack| <= k < |s.stack| && w in next(s.stack[k]) && w in s0.stack && w < |s.index|
      ensures s.low[node] <= s.index[w]
    {
      if k == |s0.stack| {
        var j :| 0 <= j < |next(node)| && next(node)[j] == w;
        assert Dealt(s0, s, node, next(node)[j]);
      }
    }
  }

  lemma LeaveNoneMissed(next: nat -> seq<nat>, n: nat, s0: State, s: State, grays: set<nat>, node: nat)
    requires Exploring(next, n, s0, s, grays, node, |next(node)|)
    ensures NoneMissed(next, s, grays)
  {
    forall v, w | 0 <= v < |s.index| && s.index[v] != 0 && v !in grays && w in next(v) && w < |s.index|
      ensures s.index[w] != 0
    {
      if v == node {
        var j :| 0 <= j < |next(node)| && next(node)[j] == w;
        assert Dealt(s0, s, node, next(node)[j]);
      }
    }
  }

  /** A node left on the stack leads, through its low, to an older node still being visited. */
  lemma LeaveConnected(next: nat -> seq<nat>, n: nat, s: State, grays: set<nat>, node: nat, h: nat)
    requires Numbered(s, n) && Stacked(s, n) && Connected(next, s, grays + {node}) && node !in grays
    requires h < |s.stack| && s.stack[h] == node && node < n
    requires s.low[node] < s.index[node] && LowWitness(next, s, s.stack, node)
    ensures Connected(next, s, grays)
  {
    hide Reaches;
    var y: nat :| y in s.stack && y < |s.index| && s.index[y] == s.low[node] && Reaches(next, node, y);
    var m :| 0 <= m < |s.stack| && s.stack[m] == y;
    assert m < h;
    assert ReachesGray(next, s, grays + {node}, m);
    var g :| 0 <= g <= m && s.stack[g] in grays + {node} && Reaches(next, y, s.stack[g]);
    assert s.stack[g] in grays by {
      assert s.index[s.stack[g]] < s.index[node];
    }
    ReachesTrans(next, node, y, s.stack[g]);
    forall i | 0 <= i < |s.stack| ensures ReachesGray(next, s, grays, i) {
      Regray(next, n, s, grays, node, h, g, i);
    }
  }

  /** A stack node that relied on node, which now leads to the older gray at position g, may rely on that gray. */
  lemma Regray(next: nat -> seq<nat>, n: nat, s: State, grays: set<nat>, node: nat, h: nat, g: nat, i: nat)
    requires Stacked(s, n) && h < |s.stack| && s.stack[h] == node && i < |s.stack|
    requires ReachesGray(next, s, grays + {node}, i)
    requires g < h && s.stack[g] in grays && Reaches(next, node, s.stack[g])
    ensures ReachesGray(next, s, grays, i)
  {
    hide Reaches;
    var k :| 0 <= k <= i && s.stack[k] in grays + {node} && Reaches(next, s.stack[i], s.stack[k]);
    if s.stack[k] == node {
      Positions(s, n);
      ReachesTrans(next, s.stack[i], node, s.stack[g]);
      assert g <= i && s.stack[g] in grays && Reaches(next, s.stack[i], s.stack[g]);
    } else {
      assert s.stack[k] in grays;
    }
  }

  lemma Leave(next: nat -> seq<nat>, n: nat, s0: State, s: State, grays: set<nat>, node: nat)
    requires Exploring(next, n, s0, s, grays, node, |next(node)|)
    requires s.low[node] != s.index[node]
    ensures Inv(next, n, s, grays) && VisitDone(next, s0, s, node)
  {
    hide NoneMissed, Emitted, MutuallyReachable, DependenciesFirst, Connected, EdgesAtLeast;
    Prefixed(s0, s, node);
    AllEdgesAtLeast(next, n, s0, s, grays, node);
    LeaveNoneMissed(next, n, s0, s, grays, node);
    LeaveConnected(next, n, s, grays, node, |s0.stack|);
    var y: nat :| y in s.stack && y < |s.index| && s.index[y] == s.low[node] && Reaches(next, node, y);
    var m :| 0 <= m < |s.stack| && s.stack[m] == y;
    assert m < |s0.stack| && s0.stack[m] == y;
  }

  // ------------------------------------------------------------ popping a group

  /** The nodes above a node whose low is its own index reach it, and it them. */
  lemma SegmentConnected(next: nat -> seq<nat>, n: nat, s0: State, s: State, grays: set<nat>, node: nat, i: nat, j: nat)
    requires Exploring(next, n, s0, s, grays, node, |next(node)|)
    requires |s0.stack| <= i < |s.stack| && |s0.stack| <= j < |s.stack|
    ensures Reaches(next, s.stack[i], s.stack[j])
  {
    hide Reaches, NoneMissed, Emitted, MutuallyReachable, DependenciesFirst, EdgesAtLeast, LowWitness, Connected, ReachesGray;
    Prefixed(s0, s, node);
    var k := GrayBelow(next, n, s0, s, grays, node, i);
    StackConnected(next, s, grays + {node}, k, |s0.stack|);
    StackConnected(next, s, grays + {node}, |s0.stack|, j);
    ReachesTrans(next, s.stack[i], s.stack[k], node);
    ReachesTrans(next, s.stack[i], node, s.stack[j]);
  }

  /** A popped node reaches a gray, which lies no higher than the node popped to. */
  lemma GrayBelow(next: nat -> seq<nat>, n: nat, s0: State, s: State, grays: set<nat>, node: nat, i: nat) returns (k: nat)
    requires Exploring(next, n, s0, s, grays, node, |next(node)|) && i < |s.stack|
    ensures k < |s.stack| && k <= |s0.stack| && Reaches(next, s.stack[i], s.stack[k])
  {
    hide Reaches, NoneMissed, Emitted, MutuallyReachable, DependenciesFirst, EdgesAtLeast, LowWitness;
    Prefixed(s0, s, node);
    assert ReachesGray(next, s, grays + {node}, i);
    k :| 0 <= k <= i && s.stack[k] in grays + {node} && Reaches(next, s.stack[i], s.stack[k]);
    Positions(s, n);
    if s.stack[k] != node {
      var m :| 0 <= m < |s0.stack| && s0.stack[m] == s.stack[k];
      assert s.stack[m] == s.stack[k];
    }
  }

  lemma StackConnected(next: nat -> seq<nat>, s: State, grays: set<nat>, i: nat, j: nat)
    requires Connected(next, s, grays) && i <= j < |s.stack|
    ensures Reaches(next, s.stack[i], s.stack[j])
  {
    hide Reaches, ReachesGray;
  }

  /** Every edge out of the popped nodes stays among them or leads to an emitted group. */
  lemma SegmentClosed(next: nat -> seq<nat>, n: nat, s0: State, s: State, grays: set<nat>, node: nat, i: nat, w: nat)
    requires InGraph(next, n)
    requires Exploring(next, n, s0, s, grays, node, |next(node)|) && s.low[node] == s.index[node]
    requires |s0.stack| <= i < |s.stack| && w in next(s.stack[i])
    ensures (exists j :: |s0.stack| <= j < |s.stack| && s.stack[j] == w) || exists g: nat :: InGroup(s.groups, g, w)
  {
    var h := |s0.stack|;
    var v := s.stack[i];
    Prefixed(s0, s, node);
    assert w < n;
    LeaveNoneMissed(next, n, s0, s, grays, node);
    assert v !in grays by {
      Positions(s, n);
      assert forall m :: 0 <= m < h ==> s0.stack[m] == s.stack[m] != v;
    }
    assert s.index[w] != 0;
    if w in s.stack {
      AllEdgesAtLeast(next, n, s0, s, grays, node);
      Positions(s, n);
      assert forall m :: 0 <= m < h ==> s0.stack[m] == s.stack[m] && s0.stack[m] in s0.stack;
      var j :| 0 <= j < |s.stack| && s.stack[j] == w;
      assert h <= j;
    }
  }

  lemma PopStacked(n: nat, s: State, base: nat, group: seq<nat>, t: State)
    requires Numbered(s, n) && Stacked(s, n) && Popped(s, base, group, t)
    ensures Numbered(t, n) && Stacked(t, n)
  {
    Positions(s, n);
    forall v | 0 <= v < n ensures t.onStack[v] <==> v in t.stack {
      if v in s.stack {
        var k :| 0 <= k < |s.stack| && s.stack[k] == v;
        if k < base {
          assert t.stack[k] == v;
          assert forall m :: 0 <= m < |group| ==> group[m] == s.stack[|s.stack| - 1 - m] != v;
        } else {
          assert group[|s.stack| - 1 - k] == v;
          assert forall m :: 0 <= m < |t.stack| ==> t.stack[m] == s.stack[m] != v;
        }
      }
    }
  }

  lemma PopConnected(next: nat -> seq<nat>, n: nat, s: State, grays: set<nat>, node: nat, base: nat, group: seq<nat>, t: State)
    requires Stacked(s, n) && Connected(next, s, grays + {node}) && Popped(s, base, group, t)
    requires base < |s.stack| && s.stack[base] == node && node !in grays
    requires forall g :: g in grays ==> g in s.stack[..base]
    ensures Connected(next, t, grays)
  {
    forall i, j | 0 <= i <= j < |t.stack| ensures Reaches(next, t.stack[i], t.stack[j]) {
      assert Reaches(next, s.stack[i], s.stack[j]);
    }
    forall i | 0 <= i < |t.stack| ensures ReachesGray(next, t, grays, i) {
      assert ReachesGray(next, s, grays + {node}, i);
      GrayStays(next, n, s, grays, node, base, t, i);
    }
    hide Reaches, ReachesGray, Stacked;
  }

  /** A gray that a remaining node reaches is not the popped one. */
  lemma GrayStays(next: nat -> seq<nat>, n: nat, s: State, grays: set<nat>, node: nat, base: nat, t: State, i: nat)
    requires Stacked(s, n) && base < |s.stack| && s.stack[base] == node && t.stack == s.stack[..base] && i < base
    requires ReachesGray(next, s, grays + {node}, i)
    ensures ReachesGray(next, t, grays, i)
  {
    hide Reaches;
    var k :| 0 <= k <= i && s.stack[k] in grays + {node} && Reaches(next, s.stack[i], s.stack[k]);
    assert s.index[s.stack[k]] < s.index[s.stack[base]];
    assert t.stack[k] in grays && Reaches(next, t.stack[i], t.stack[k]);
  }

  lemma PopDisjoint(n: nat, s: State, base: nat, group: seq<nat>, t: State)
    requires Numbered(s, n) && Stacked(s, n) && Emitted(s, n) && Popped(s, base, group, t)
    ensures Disjoint(t.groups)
  {
    var last := |s.groups|;
    Positions(s, n);
    forall i, a, j, b | 0 <= i < |t.groups| && 0 <= a < |t.groups[i]| && 0 <= j < |t.groups| && 0 <= b < |t.groups[j]|
      ensures t.groups[i][a] == t.groups[j][b] ==> i == j && a == b
    {
      if i < last {
        assert InGroup(s.groups, i, t.groups[i][a]);
      }
      if j < last {
        assert InGroup(s.groups, j, t.groups[j][b]);
      }
    }
  }

  lemma PopEmitted(n: nat, s: State, base: nat, group: seq<nat>, t: State)
    requires Numbered(s, n) && Stacked(s, n) && Emitted(s, n) && Popped(s, base, group, t) && base < |s.stack|
    ensures Emitted(t, n)
  {
    var last := |s.groups|;
    PopDisjoint(n, s, base, group, t);
    PopStacked(n, s, base, group, t);
    forall i: nat, v: nat | InGroup(t.groups, i, v) ensures v < n && t.index[v] != 0 && v !in t.stack {
      if i < last {
        assert InGroup(s.groups, i, v);
      } else {
        assert v in group && v in s.stack;
      }
    }
    forall v | 0 <= v < n && t.index[v] != 0 && v !in t.stack ensures exists i: nat :: InGroup(t.groups, i, v) {
      if v in s.stack {
        assert v in group;
        assert InGroup(t.groups, last, v);
      } else {
        var i: nat :| InGroup(s.groups, i, v);
        assert InGroup(t.groups, i, v);
      }
    }
  }

  lemma PopMutuallyReachable(next: nat -> seq<nat>, n: nat, s0: State, s: State, grays: set<nat>, node: nat, group: seq<nat>, t: State)
    requires InGraph(next, n)
    requires Exploring(next, n, s0, s, grays, node, |next(node)|) && s.low[node] == s.index[node]
    requires Popped(s, |s0.stack|, group, t)
    ensures MutuallyReachable(next, t.groups)
  {
    hide Reaches, Stacked, Numbered, Connected, NoneMissed, Emitted, DependenciesFirst, EdgesAtLeast, LowWitness, Extends;
    var last := |s.groups|;
    forall i: nat, v: nat, w: nat | InGroup(t.groups, i, v) && InGroup(t.groups, i, w) ensures Reaches(next, v, w) {
      if i < last {
        assert InGroup(s.groups, i, v) && InGroup(s.groups, i, w);
      } else {
        var a :| 0 <= a < |group| && group[a] == v;
        var b :| 0 <= b < |group| && group[b] == w;
        SegmentConnected(next, n, s0, s, grays, node, |s.stack| - 1 - a, |s.stack| - 1 - b);
      }
    }
  }

  lemma PopDependenciesFirst(next: nat -> seq<nat>, n: nat, s0: State, s: State, grays: set<nat>, node: nat, group: seq<nat>, t: State)
    requires InGraph(next, n)
    requires Exploring(next, n, s0, s, grays, node, |next(node)|) && s.low[node] == s.index[node]
    requires Popped(s, |s0.stack|, group, t)
    ensures DependenciesFirst(next, t.groups)
  {
    hide Reaches, Stacked, Numbered, Connected, NoneMissed, Emitted, MutuallyReachable, EdgesAtLeast, LowWitness, Extends;
    var last := |s.groups|;
    forall i: nat, v: nat, w: nat | InGroup(t.groups, i, v) && w in next(v) ensures NotLater(t.groups, i, w) {
      if i < last {
        assert InGroup(s.groups, i, v);
        assert NotLater(s.groups, i, w);
        var j :| 0 <= j <= i && InGroup(s.groups, j, w);
        assert InGroup(t.groups, j, w);
      } else {
        var a :| 0 <= a < |group| && group[a] == v;
        SegmentClosed(next, n, s0, s, grays, node, |s.stack| - 1 - a, w);
        if j :| |s0.stack| <= j < |s.stack| && s.stack[j] == w {
          assert group[|s.stack| - 1 - j] == w;
          assert InGroup(t.groups, last, w);
        } else {
          var g: nat :| InGroup(s.groups, g, w);
          assert InGroup(t.groups, g, w);
        }
      }
    }
  }

  lemma PopKeeps(next: nat -> seq<nat>, s: State, t: State, grays: set<nat>, s0: State, node: nat)
    requires NoneMissed(next, s, grays) && t.index == s.index && t.stack == s0.stack && node < |t.low|
    ensures NoneMissed(next, t, grays) && EdgesAtLeast(next, s0, t, |s0.stack|, t.low[node])
  {
  }

  lemma Pop(next: nat -> seq<nat>, n: nat, s0: State, s: State, grays: set<nat>, node: nat, group: seq<nat>, t: State)
    requires InGraph(next, n)
    requires Exploring(next, n, s0, s, grays, node, |next(node)|) && s.low[node] == s.index[node]
    requires Popped(s, |s0.stack|, group, t)
    ensures Inv(next, n, t, grays) && VisitDone(next, s0, t, node)
  {
    hide NoneMissed, Emitted, MutuallyReachable, DependenciesFirst, Connected, EdgesAtLeast, LowWitness;
    var h := |s0.stack|;
    Prefixed(s0, s, node);
    assert t.stack == s0.stack;
    PopStacked(n, s, h, group, t);
    LeaveNoneMissed(next, n, s0, s, grays, node);
    PopKeeps(next, s, t, grays, s0, node);
    PopConnected(next, n, s, grays, node, h, group, t);
    PopEmitted(n, s, h, group, t);
    PopMutuallyReachable(next, n, s0, s, grays, node, group, t);
    PopDependenciesFirst(next, n, s0, s, grays, node, group, t);
    assert node !in t.stack by {
      Positions(s, n);
      assert forall m :: 0 <= m < |t.stack| ==> t.stack[m] == s.stack[m] != node;
    }
  }

  // ---------------------------------------------------------------- the search

  class Search {
    const count: nat
    const neighbors: nat -> seq<nat>
    const index: array<nat>
    const low: array<nat>
    const onStack: array<bool>
    var stack: seq<nat>
    var order: nat
    var groups: seq<seq<nat>>

    ghost predicate Valid()
      reads this
    {
      && index.Length == low.Length == onStack.Length == count
      && index != low
      && InGraph(neighbors, count)
    }

    ghost function Now(): State
      reads this, index, low, onStack
    {
      State(index[..], low[..], onStack[..], stack, order, groups)
    }

    ghost function Unvisited(): set<nat>
      reads this, index
    {
      set v: nat | 0 <= v < index.Length && index[v] == 0
    }

    constructor (count: nat, neighbors: nat -> seq<nat>)
      requires InGraph(neighbors, count)
      ensures Valid() && fresh(index) && fresh(low) && fresh(onStack)
      ensures this.count == count && this.neighbors == neighbors
      ensures Inv(neighbors, count, Now(), {}) && groups == [] && stack == []
      ensures forall v :: 0 <= v < count ==> index[v] == 0
    {
      this.count, this.neighbors := count, neighbors;
      index := new nat[count](_ => 0);
      low := new nat[count](_ => 0);
      onStack := new bool[count](_ => false);
      stack, order, groups := [], 0, [];
    }

    /** Visits an unvisited node and everything it reaches that was not visited yet. */
    method Visit(node: nat, ghost grays: set<nat>)
      requires Valid() && Inv(neighbors, count, Now(), grays)
      requires node < count && index[node] == 0
      requires forall g :: g in grays ==> Reaches(neighbors, g, node)
      modifies this`stack, this`order, this`groups, index, low, onStack
      ensures Inv(neighbors, count, Now(), grays)
      ensures VisitDone(neighbors, old(Now()), Now(), node)
      decreases Unvisited(), 0
    {
      hide Inv, Extends, EdgesAtLeast, LowWitness, VisitDone, Exploring, Numbered, Stacked, Connected, Reaches;
      ghost var s0 := Now();
      InvParts(neighbors, count, s0, grays);
      order := order + 1;
      index[node], low[node] := order, order;
      stack := stack + [node];
      onStack[node] := true;
      Enter(neighbors, count, s0, grays, node);
      assert Now() == Entered(s0, node);
      var targets := neighbors(node);
      var i := 0;
      while i < |targets|
        invariant 0 <= i <= |targets|
        invariant Exploring(neighbors, count, s0, Now(), grays, node, i)
        modifies this`stack, this`order, this`groups, index, low, onStack
      {
        ExploringFacts(neighbors, count, s0, Now(), grays, node, i);
        assert Unvisited() <= old(Unvisited()) && node in old(Unvisited()) - Unvisited();
        FollowEdge(node, targets[i], i, s0, grays);
        i := i + 1;
      }
      ghost var s := Now();
      ExploringFacts(neighbors, count, s0, s, grays, node, i);
      if low[node] != index[node] {
        Leave(neighbors, count, s0, s, grays, node);
        return;
      }
      Prefixed(s0, s, node);
      var group := PopGroup(node, |s0.stack|);
      groups := groups + [group];
      Pop(neighbors, count, s0, s, grays, node, group, Now());
    }

    /** Follows one edge of a node being explored, and lowers the node's low by it. */
    method FollowEdge(node: nat, target: nat, ghost i: nat, ghost s0: State, ghost grays: set<nat>)
      requires Valid() && Exploring(neighbors, count, s0, Now(), grays, node, i)
      requires i < |neighbors(node)| && neighbors(node)[i] == target
      modifies this`stack, this`order, this`groups, index, low, onStack
      ensures Exploring(neighbors, count, s0, Now(), grays, node, i + 1)
      decreases Unvisited(), 1
    {
      hide Inv, Extends, EdgesAtLeast, LowWitness, VisitDone, Exploring, Numbered, Stacked, Connected, Reaches;
      assert target in neighbors(node);
      ghost var s := Now();
      ExploringFacts(neighbors, count, s0, s, grays, node, i);
      if index[target] == 0 {
        GraysReachNext(neighbors, count, s0, s, grays, node, i, target);
        Visit(target, grays + {node});
        ghost var t := Now();
        low[node] := if low[target] < low[node] then low[target] else low[node];
        FollowVisited(neighbors, count, s0, s, t, grays, node, i);
        assert Now() == Lowered(t, node, t.low[target]);
      } else if onStack[target] {
        low[node] := if index[target] < low[node] then index[target] else low[node];
        FollowToStack(neighbors, count, s0, s, grays, node, i);
        assert Now() == Lowered(s, node, s.index[target]);
      } else {
        FollowToEmitted(neighbors, count, s0, s, grays, node, i);
      }
    }

    /** Takes the stack's nodes down to node off it, topmost first. */
    method PopGroup(node: nat, ghost base: nat) returns (group: seq<nat>)
      requires Valid() && Stacked(Now(), count) && base < |stack| && stack[base] == node
      modifies this`stack, onStack
      ensures Popped(old(Now()), base, group, Now().(groups := groups + [group]))
    {
      ghost var s := Now();
      group := [];
      while true
        invariant base < |stack| <= |s.stack| && stack == s.stack[..|stack|]
        invariant |group| == |s.stack| - |stack|
        invariant forall k :: 0 <= k < |group| ==> group[k] == s.stack[|s.stack| - 1 - k]
        invariant forall v :: 0 <= v < count ==> onStack[v] == (s.onStack[v] && v !in group)
        invariant index[..] == s.index && low[..] == s.low
        modifies this`stack, onStack
        decreases |stack|
      {
        var last := |stack| - 1;
        var member := stack[last];
        stack := stack[..last];
        onStack[member] := false;
        group := group + [member];
        if member == node {
          Positions(s, count);
          break;
        }
      }
    }
  }

  // ------------------------------------------------------------------ the result

  /** The groups hold every node of the graph exactly once, and none is empty. */
  ghost predicate Partition(groups: seq<seq<nat>>, n: nat) {
    && Disjoint(groups)
    && (forall i :: 0 <= i < |groups| ==> groups[i] != [])
    && (forall v: nat :: v < n <==> Listed(groups, v))
  }

  ghost predicate Listed(groups: seq<seq<nat>>, v: nat) {
    exists i: nat :: InGroup(groups, i, v)
  }

  /** Two nodes share a group exactly when each reaches the other. */
  ghost predicate GroupsAreComponents(next: nat -> seq<nat>, groups: seq<seq<nat>>) {
    forall i: nat, j: nat, v: nat, w: nat :: InGroup(groups, i, v) && InGroup(groups, j, w) ==>
      (i == j <==> Reaches(next, v, w) && Reaches(next, w, v))
  }

  /** What a node reaches is in its own group or an earlier one. */
  lemma ReachedNotLater(next: nat -> seq<nat>, groups: seq<seq<nat>>, i: nat, v: nat, w: nat)
    requires DependenciesFirst(next, groups) && InGroup(groups, i, v) && Reaches(next, v, w)
    ensures NotLater(groups, i, w)
  {
    var walk :| IsWalkFromTo(next, walk, v, w);
    var inside := (x: nat) => NotLater(groups, i, x);
    forall x: nat, y: nat | inside(x) && y in next(x) ensures inside(y) {
      var j :| 0 <= j <= i && InGroup(groups, j, x);
      assert NotLater(groups, j, y);
      var k :| 0 <= k <= j && InGroup(groups, k, y);
      assert 0 <= k <= i && InGroup(groups, k, y);
    }
    assert inside(v) by {
      assert 0 <= i <= i && InGroup(groups, i, v);
    }
    WalkStaysInside(next, inside, walk, |walk| - 1);
  }

  lemma OneGroup(groups: seq<seq<nat>>, i: nat, j: nat, v: nat)
    requires Disjoint(groups) && InGroup(groups, i, v) && InGroup(groups, j, v)
    ensures i == j
  {
    var a :| 0 <= a < |groups[i]| && groups[i][a] == v;
    var b :| 0 <= b < |groups[j]| && groups[j][b] == v;
  }

  /** Mutual reachability within groups and the order of the groups make them the components. */
  lemma OrderedGroupsAreComponents(next: nat -> seq<nat>, groups: seq<seq<nat>>)
    requires Disjoint(groups) && MutuallyReachable(next, groups) && DependenciesFirst(next, groups)
    ensures GroupsAreComponents(next, groups)
  {
    forall i: nat, j: nat, v: nat, w: nat | InGroup(groups, i, v) && InGroup(groups, j, w) && Reaches(next, v, w) && Reaches(next, w, v)
      ensures i == j
    {
      ReachedNotLater(next, groups, i, v, w);
      ReachedNotLater(next, groups, j, w, v);
      var p :| 0 <= p <= i && InGroup(groups, p, w);
      var q :| 0 <= q <= j && InGroup(groups, q, v);
      OneGroup(groups, p, j, w);
      OneGroup(groups, q, i, v);
    }
  }

  lemma StackLeadsToGray(next: nat -> seq<nat>, s: State, grays: set<nat>)
    requires Connected(next, s, grays) && s.stack != []
    ensures grays != {}
  {
    assert ReachesGray(next, s, grays, 0);
  }

  /** When every node has been visited, nothing is on the stack and the groups are the answer. */
  lemma SearchFinished(next: nat -> seq<nat>, n: nat, s: State)
    requires Inv(next, n, s, {}) && forall v :: 0 <= v < n ==> s.index[v] != 0
    ensures Partition(s.groups, n) && GroupsAreComponents(next, s.groups) && DependenciesFirst(next, s.groups)
  {
    hide Numbered, Stacked, NoneMissed, Connected, Reaches;
    if s.stack != [] {
      StackLeadsToGray(next, s, {});
      assert false;
    }
    OrderedGroupsAreComponents(next, s.groups);
    forall v: nat ensures v < n <==> Listed(s.groups, v) {
      if v < n {
        assert v !in s.stack && s.index[v] != 0;
      }
    }
  }

  /** The groups of nodes, dependencies first, that depend on each other. */
  method DependencyComponents(count: nat, neighbors: nat -> seq<nat>) returns (groups: seq<seq<nat>>)
    requires InGraph(neighbors, count)
    ensures Partition(groups, count)
    ensures GroupsAreComponents(neighbors, groups)
    ensures DependenciesFirst(neighbors, groups)
  {
    hide Inv;
    var search := new Search(count, neighbors);
    for node := 0 to count
      invariant search.Valid() && search.count == count && search.neighbors == neighbors
      invariant fresh(search) && fresh(search.index) && fresh(search.low) && fresh(search.onStack)
      invariant Inv(neighbors, count, search.Now(), {})
      invariant forall v :: 0 <= v < node ==> search.index[v] != 0
    {
      ghost var before := search.Now();
      if search.index[node] == 0 {
        search.Visit(node, {});
        StillVisited(before, search.Now());
        assert forall v :: 0 <= v < node ==> before.index[v] != 0;
        assert search.index[..] == search.Now().index;
      }
    }
    groups := search.groups;
    SearchFinished(neighbors, count, search.Now());
  }
}
