/**
 * Which of several equally short walks a breadth-first search keeps: the one
 * through the earlier root, or else through the earlier edge where they part.
 */
module SearchOrder {
  import opened Walks
  import opened BreadthFirst

  function FirstIndex<T(==)>(s: seq<T>, x: T): (i: nat)
    requires x in s
    ensures i < |s| && s[i] == x && forall k :: 0 <= k < i ==> s[k] != x
  {
    if s[0] == x then 0 else 1 + FirstIndex(s[1..], x)
  }

  /** x occurs in s before y does. */
  ghost predicate Before<T>(s: seq<T>, x: T, y: T) {
    x in s && y in s && FirstIndex(s, x) < FirstIndex(s, y)
  }

  /** The list that a walk chooses its i-th node from. */
  ghost function Choices<T>(next: T -> seq<T>, roots: seq<T>, w: seq<T>, i: nat): seq<T>
    requires i <= |w|
  {
    if i == 0 then roots else next(w[i - 1])
  }

  /** The walks part at their i-th node, where u takes the earlier choice. */
  ghost predicate PartsAt<T>(next: T -> seq<T>, roots: seq<T>, u: seq<T>, w: seq<T>, i: nat) {
    i < |u| && i < |w| && u[..i] == w[..i] && Before(Choices(next, roots, u, i), u[i], w[i])
  }

  ghost predicate Earlier<T>(next: T -> seq<T>, roots: seq<T>, u: seq<T>, w: seq<T>) {
    exists i :: PartsAt(next, roots, u, w, i)
  }

  lemma PartsBefore<T>(next: T -> seq<T>, roots: seq<T>, u: seq<T>, v: seq<T>, w: seq<T>, i: nat, j: nat)
    requires PartsAt(next, roots, u, v, i) && PartsAt(next, roots, v, w, j) && i < j
    ensures PartsAt(next, roots, u, w, i)
  {
    hide Before, Choices;
    assert v[i] == v[..j][i] == w[..j][i] == w[i];
    assert u[..i] == v[..j][..i] == w[..j][..i] == w[..i];
  }

  lemma SameChoices<T>(next: T -> seq<T>, roots: seq<T>, u: seq<T>, v: seq<T>, j: nat)
    requires j <= |u| && j <= |v| && u[..j] == v[..j]
    ensures Choices(next, roots, u, j) == Choices(next, roots, v, j)
  {
    assert j > 0 ==> u[j - 1] == u[..j][j - 1] == v[..j][j - 1] == v[j - 1];
  }

  lemma PartsAfter<T>(next: T -> seq<T>, roots: seq<T>, u: seq<T>, v: seq<T>, w: seq<T>, i: nat, j: nat)
    requires PartsAt(next, roots, u, v, i) && PartsAt(next, roots, v, w, j) && j < i
    ensures PartsAt(next, roots, u, w, j)
  {
    hide Before, Choices;
    assert u[j] == u[..i][j] == v[..i][j] == v[j];
    assert u[..j] == u[..i][..j] == v[..i][..j] == v[..j];
    SameChoices(next, roots, u, v, j);
  }

  lemma EarlierTrans<T>(next: T -> seq<T>, roots: seq<T>, u: seq<T>, v: seq<T>, w: seq<T>)
    requires Earlier(next, roots, u, v) && Earlier(next, roots, v, w)
    ensures Earlier(next, roots, u, w)
  {
    hide Choices, FirstIndex;
    var i: nat :| PartsAt(next, roots, u, v, i);
    var j: nat :| PartsAt(next, roots, v, w, j);
    if i < j {
      PartsBefore(next, roots, u, v, w, i, j);
    } else if j < i {
      PartsAfter(next, roots, u, v, w, i, j);
    } else {
      SameChoices(next, roots, u, v, i);
      assert PartsAt(next, roots, u, w, i);
    }
  }

  lemma EarlierExtends<T>(next: T -> seq<T>, roots: seq<T>, u: seq<T>, w: seq<T>, x: T, y: T)
    requires Earlier(next, roots, u, w)
    ensures Earlier(next, roots, u + [x], w + [y])
  {
    hide Before, Choices;
    var i: nat :| PartsAt(next, roots, u, w, i);
    var v, z := u + [x], w + [y];
    assert v[..i] == u[..i] && z[..i] == w[..i] && v[i] == u[i] && z[i] == w[i];
    SameChoices(next, roots, v, u, i);
    assert PartsAt(next, roots, v, z, i);
  }

  lemma EarlierAtEnd<T>(next: T -> seq<T>, roots: seq<T>, u: seq<T>, x: T, y: T)
    requires u != [] && Before(next(u[|u| - 1]), x, y)
    ensures Earlier(next, roots, u + [x], u + [y])
  {
    hide Before;
    var v, w := u + [x], u + [y];
    assert v[..|u|] == w[..|u|] == u && Choices(next, roots, v, |u|) == next(u[|u| - 1]);
    assert PartsAt(next, roots, v, w, |u|);
  }

  // ------------------------------------------- in which order nodes are found

  /** Every node but a root has a parent one edge nearer. */
  ghost predicate Rooted<T(!new)>(next: T -> seq<T>, parent: map<T, T>, level: map<T, nat>) {
    && parent.Keys == level.Keys
    && forall x :: x in level && level[x] > 0 ==>
         parent[x] in level && level[parent[x]] + 1 == level[x] && x in next(parent[x])
  }

  /** found numbers the nodes in the order the search met them. */
  ghost predicate Numbered<T(!new)>(level: map<T, nat>, found: map<T, nat>, stamp: nat) {
    && found.Keys == level.Keys
    && (forall x :: x in found ==> found[x] < stamp)
    && (forall x, y :: x in found && y in found && found[x] == found[y] ==> x == y)
  }

  /** A node's parent is the first found of those that lead to it. */
  ghost predicate FirstParents<T(!new)>(next: T -> seq<T>, parent: map<T, T>, level: map<T, nat>, found: map<T, nat>)
    requires Rooted(next, parent, level) && found.Keys == level.Keys
  {
    forall x, y :: x in level && level[x] > 0 && y in found && x in next(y) ==> found[parent[x]] <= found[y]
  }

  /** Of two nodes the one whose parent was found first was, and of one parent's the one it lists first. */
  ghost predicate FoundInOrder<T(!new)>(next: T -> seq<T>, parent: map<T, T>, level: map<T, nat>, found: map<T, nat>)
    requires Rooted(next, parent, level) && found.Keys == level.Keys
  {
    forall x, z :: x in level && z in level && level[x] > 0 && level[z] > 0 && found[x] < found[z] ==>
      found[parent[x]] < found[parent[z]] || (parent[x] == parent[z] && Before(next(parent[x]), x, z))
  }

  ghost predicate RootsInOrder<T(!new)>(roots: seq<T>, level: map<T, nat>, found: map<T, nat>)
    requires found.Keys == level.Keys
  {
    forall x, z :: x in level && z in level && level[x] == 0 && level[z] == 0 && found[x] < found[z] ==> Before(roots, x, z)
  }

  ghost predicate Found<T(!new)>(next: T -> seq<T>, roots: seq<T>, parent: map<T, T>, level: map<T, nat>, found: map<T, nat>, stamp: nat) {
    && Rooted(next, parent, level) && Numbered(level, found, stamp)
    && FirstParents(next, parent, level, found) && FoundInOrder(next, parent, level, found) && RootsInOrder(roots, level, found)
  }

  /** The queue holds the nodes found last, in order, and none of them has children yet. */
  ghost predicate Waiting<T(!new)>(parent: map<T, T>, level: map<T, nat>, found: map<T, nat>, queue: seq<T>) {
    && parent.Keys == level.Keys == found.Keys
    && (forall i :: 0 <= i < |queue| ==> queue[i] in found)
    && (forall i, j :: 0 <= i < j < |queue| ==> found[queue[i]] < found[queue[j]])
    && (forall x, i :: x in found && x !in queue && 0 <= i < |queue| ==> found[x] < found[queue[i]])
    && (forall x :: x in level && level[x] > 0 ==> parent[x] !in queue)
  }

  /** The node whose first k neighbours were looked at was found after those expanded, and its children are among these. */
  ghost predicate Looking<T(!new)>(next: T -> seq<T>, parent: map<T, T>, level: map<T, nat>, found: map<T, nat>, queue: seq<T>, id: T, k: nat) {
    && parent.Keys == level.Keys == found.Keys && id in found && id !in queue && k <= |next(id)|
    && (forall x :: x in found && x !in queue && x != id ==> found[x] < found[id])
    && (forall x :: x in level && level[x] > 0 && parent[x] == id ==> x in next(id)[..k])
    && (forall i :: 0 <= i < k ==> next(id)[i] in level)
  }

  lemma HeadAndRest<T(!new)>(queue: seq<T>, found: map<T, nat>)
    requires queue != [] && (forall i :: 0 <= i < |queue| ==> queue[i] in found)
    requires forall i, j :: 0 <= i < j < |queue| ==> found[queue[i]] < found[queue[j]]
    ensures forall x :: x in queue <==> x == queue[0] || x in queue[1..]
    ensures forall i :: 0 <= i < |queue| - 1 ==> queue[1..][i] in queue && found[queue[0]] < found[queue[1..][i]]
    ensures queue[0] !in queue[1..]
  {
    var rest := queue[1..];
    assert queue == [queue[0]] + rest;
    assert forall i :: 0 <= i < |rest| ==> rest[i] == queue[i + 1];
  }

  lemma RestWaits<T(!new)>(parent: map<T, T>, level: map<T, nat>, found: map<T, nat>, queue: seq<T>)
    requires Waiting(parent, level, found, queue) && queue != []
    ensures Waiting(parent, level, found, queue[1..])
  {
    HeadAndRest(queue, found);
    var rest := queue[1..];
    forall i, j | 0 <= i < j < |rest| ensures found[rest[i]] < found[rest[j]] {
      assert rest[i] == queue[i + 1] && rest[j] == queue[j + 1];
    }
    forall x, i | x in found && x !in rest && 0 <= i < |rest| ensures found[x] < found[rest[i]] {
      assert rest[i] == queue[i + 1];
    }
  }

  lemma LookingBegins<T(!new)>(next: T -> seq<T>, parent: map<T, T>, level: map<T, nat>, found: map<T, nat>, queue: seq<T>)
    requires Waiting(parent, level, found, queue) && queue != []
    ensures Waiting(parent, level, found, queue[1..]) && Looking(next, parent, level, found, queue[1..], queue[0], 0)
  {
    RestWaits(parent, level, found, queue);
    HeadAndRest(queue, found);
    forall x | x in found && x !in queue[1..] && x != queue[0] ensures found[x] < found[queue[0]] {
      assert x !in queue;
    }
  }

  /** The roots alone, in the order they are listed. */
  lemma FoundBegins<T(!new)>(next: T -> seq<T>, roots: seq<T>, parent: map<T, T>, level: map<T, nat>, found: map<T, nat>, queue: seq<T>)
    requires parent.Keys == level.Keys == found.Keys && forall x :: x in level ==> level[x] == 0 && x in queue
    requires forall i :: 0 <= i < |queue| ==> queue[i] in found && found[queue[i]] == i
    requires RootsInOrder(roots, level, found)
    ensures Found(next, roots, parent, level, found, |queue|) && Waiting(parent, level, found, queue)
  {
  }

  lemma LookingEnds<T(!new)>(next: T -> seq<T>, parent: map<T, T>, level: map<T, nat>, found: map<T, nat>, queue: seq<T>, id: T)
    requires Looking(next, parent, level, found, queue, id, |next(id)|)
    ensures forall y :: y in next(id) ==> y in level
  {
  }

  lemma LookedAt<T(!new)>(next: T -> seq<T>, parent: map<T, T>, level: map<T, nat>, found: map<T, nat>, queue: seq<T>, id: T, k: nat)
    requires Looking(next, parent, level, found, queue, id, k) && k < |next(id)| && next(id)[k] in level
    ensures Looking(next, parent, level, found, queue, id, k + 1)
  {
    assert next(id)[..k + 1] == next(id)[..k] + [next(id)[k]];
  }

  lemma NotBefore<T>(s: seq<T>, k: nat, x: T, y: T)
    requires k < |s| && x in s[..k] && s[k] == y && y !in s[..k]
    ensures Before(s, x, y)
  {
    var i :| 0 <= i < k && s[..k][i] == x;
    assert s[i] == x && FirstIndex(s, x) <= i;
    forall j | 0 <= j < k ensures s[j] != y {
      assert s[..k][j] == s[j];
    }
  }

  /** A neighbour met for the first time is found after all others, as a child of the node that is looked at. */
  lemma FoundNext<T(!new)>(next: T -> seq<T>, roots: seq<T>, parent: map<T, T>, level: map<T, nat>, found: map<T, nat>, stamp: nat,
                           queue: seq<T>, id: T, k: nat, to: T)
    requires Found(next, roots, parent, level, found, stamp) && Waiting(parent, level, found, queue)
    requires Looking(next, parent, level, found, queue, id, k) && Expanded(next, level, queue, {id})
    requires k < |next(id)| && next(id)[k] == to && to !in level
    ensures Found(next, roots, parent[to := id], level[to := level[id] + 1], found[to := stamp], stamp + 1)
    ensures Waiting(parent[to := id], level[to := level[id] + 1], found[to := stamp], queue + [to])
    ensures Looking(next, parent[to := id], level[to := level[id] + 1], found[to := stamp], queue + [to], id, k + 1)
  {
    FoundTree(next, parent, level, found, stamp, id, to);
    FoundFirst(next, parent, level, found, stamp, queue, id, k, to);
    FoundLast(next, parent, level, found, stamp, queue, id, k, to);
    FoundWaits(parent, level, found, stamp, queue, id, to);
    FoundLooked(next, parent, level, found, stamp, queue, id, k, to);
  }

  lemma FoundTree<T(!new)>(next: T -> seq<T>, parent: map<T, T>, level: map<T, nat>, found: map<T, nat>, stamp: nat, id: T, to: T)
    requires Rooted(next, parent, level) && Numbered(level, found, stamp) && id in level && to in next(id) && to !in level
    ensures Rooted(next, parent[to := id], level[to := level[id] + 1])
    ensures Numbered(level[to := level[id] + 1], found[to := stamp], stamp + 1)
  {
    RootedNext(next, parent, level, id, to);
    hide Rooted;
  }

  lemma RootedNext<T(!new)>(next: T -> seq<T>, parent: map<T, T>, level: map<T, nat>, id: T, to: T)
    requires Rooted(next, parent, level) && id in level && to in next(id) && to !in level
    ensures Rooted(next, parent[to := id], level[to := level[id] + 1])
  {
  }

  lemma FoundFirst<T(!new)>(next: T -> seq<T>, parent: map<T, T>, level: map<T, nat>, found: map<T, nat>, stamp: nat,
                            queue: seq<T>, id: T, k: nat, to: T)
    requires Rooted(next, parent, level) && Numbered(level, found, stamp) && FirstParents(next, parent, level, found)
    requires Waiting(parent, level, found, queue) && Looking(next, parent, level, found, queue, id, k) && Expanded(next, level, queue, {id})
    requires to in next(id) && to !in level
    requires Rooted(next, parent[to := id], level[to := level[id] + 1])
    ensures FirstParents(next, parent[to := id], level[to := level[id] + 1], found[to := stamp])
  {
    FirstToLead(next, parent, level, found, queue, id, k, to);
    FirstParentsNext(next, parent, level, found, stamp, id, to);
    hide *;
  }

  /** Whatever leads to a node that was not found before was not expanded before. */
  lemma FirstToLead<T(!new)>(next: T -> seq<T>, parent: map<T, T>, level: map<T, nat>, found: map<T, nat>,
                             queue: seq<T>, id: T, k: nat, to: T)
    requires Waiting(parent, level, found, queue) && Looking(next, parent, level, found, queue, id, k) && Expanded(next, level, queue, {id})
    requires to !in level
    ensures forall y :: y in found && to in next(y) ==> found[id] <= found[y]
  {
    LookedFrom(next, parent, level, found, queue, id, k);
    hide Looking;
    forall y | y in found && to in next(y) ensures found[id] <= found[y] {
      if y in queue {
        FoundBeforeQueue(parent, level, found, queue, id, y);
      } else {
        hide Waiting;
      }
    }
  }

  lemma LookedFrom<T(!new)>(next: T -> seq<T>, parent: map<T, T>, level: map<T, nat>, found: map<T, nat>, queue: seq<T>, id: T, k: nat)
    requires Looking(next, parent, level, found, queue, id, k)
    ensures level.Keys == found.Keys && id in found && id !in queue
  {
  }

  lemma FoundBeforeQueue<T(!new)>(parent: map<T, T>, level: map<T, nat>, found: map<T, nat>, queue: seq<T>, id: T, y: T)
    requires Waiting(parent, level, found, queue) && id in found && id !in queue && y in found && y in queue
    ensures found[id] < found[y]
  {
    var i :| 0 <= i < |queue| && queue[i] == y;
  }

  lemma FirstParentsNext<T(!new)>(next: T -> seq<T>, parent: map<T, T>, level: map<T, nat>, found: map<T, nat>, stamp: nat, id: T, to: T)
    requires Rooted(next, parent, level) && Numbered(level, found, stamp) && FirstParents(next, parent, level, found)
    requires id in level && to !in level && forall y :: y in found && to in next(y) ==> found[id] <= found[y]
    requires Rooted(next, parent[to := id], level[to := level[id] + 1])
    ensures FirstParents(next, parent[to := id], level[to := level[id] + 1], found[to := stamp])
  {
  }

  lemma FoundLast<T(!new)>(next: T -> seq<T>, parent: map<T, T>, level: map<T, nat>, found: map<T, nat>, stamp: nat,
                           queue: seq<T>, id: T, k: nat, to: T)
    requires Rooted(next, parent, level) && Numbered(level, found, stamp) && FoundInOrder(next, parent, level, found)
    requires Waiting(parent, level, found, queue) && Looking(next, parent, level, found, queue, id, k)
    requires k < |next(id)| && next(id)[k] == to && to !in level
    requires Rooted(next, parent[to := id], level[to := level[id] + 1])
    ensures FoundInOrder(next, parent[to := id], level[to := level[id] + 1], found[to := stamp])
  {
    assert forall i :: 0 <= i < k ==> next(id)[..k][i] == next(id)[i];
    forall x | x in level && level[x] > 0
      ensures found[parent[x]] < found[id] || (parent[x] == id && Before(next(id), x, to))
    {
      if parent[x] == id {
        NotBefore(next(id), k, x, to);
      }
    }
  }

  lemma FoundWaits<T(!new)>(parent: map<T, T>, level: map<T, nat>, found: map<T, nat>, stamp: nat, queue: seq<T>, id: T, to: T)
    requires Waiting(parent, level, found, queue) && Numbered(level, found, stamp) && id in found && id !in queue && to !in level
    requires forall x :: x in level && level[x] > 0 ==> parent[x] in level
    ensures Waiting(parent[to := id], level[to := level[id] + 1], found[to := stamp], queue + [to])
  {
    var longer := queue + [to];
    assert forall i :: 0 <= i < |queue| ==> longer[i] == queue[i];
    assert forall x :: x in longer <==> x in queue || x == to;
  }

  lemma FoundLooked<T(!new)>(next: T -> seq<T>, parent: map<T, T>, level: map<T, nat>, found: map<T, nat>, stamp: nat,
                             queue: seq<T>, id: T, k: nat, to: T)
    requires Looking(next, parent, level, found, queue, id, k) && k < |next(id)| && next(id)[k] == to && to !in level
    ensures Looking(next, parent[to := id], level[to := level[id] + 1], found[to := stamp], queue + [to], id, k + 1)
  {
    assert next(id)[..k + 1] == next(id)[..k] + [to];
    assert forall x :: x in queue + [to] <==> x in queue || x == to;
  }

  // ---------------------------------------------------- the walks that are kept

  ghost function Kept<T(!new)>(next: T -> seq<T>, parent: map<T, T>, level: map<T, nat>, x: T): (w: seq<T>)
    requires Rooted(next, parent, level) && x in level
    ensures w != [] && w[|w| - 1] == x && |w| == level[x] + 1
    decreases level[x]
  {
    if level[x] == 0 then [x] else Kept(next, parent, level, parent[x]) + [x]
  }

  /** Of two nodes equally far, the one found first has the earlier walk. */
  lemma {:induction false} KeptInOrder<T(!new)>(next: T -> seq<T>, roots: seq<T>, parent: map<T, T>, level: map<T, nat>,
                                                found: map<T, nat>, stamp: nat, x: T, z: T)
    requires Found(next, roots, parent, level, found, stamp) && x in level && z in level
    requires level[x] == level[z] && found[x] < found[z]
    ensures Earlier(next, roots, Kept(next, parent, level, x), Kept(next, parent, level, z))
    decreases level[x]
  {
    hide Earlier, Before;
    if level[x] == 0 {
      RootsPart(next, roots, x, z);
    } else {
      var p, q := parent[x], parent[z];
      if found[p] < found[q] {
        KeptInOrder(next, roots, parent, level, found, stamp, p, q);
        EarlierExtends(next, roots, Kept(next, parent, level, p), Kept(next, parent, level, q), x, z);
      } else {
        EarlierAtEnd(next, roots, Kept(next, parent, level, p), x, z);
      }
    }
  }

  lemma RootsPart<T>(next: T -> seq<T>, roots: seq<T>, x: T, z: T)
    requires Before(roots, x, z)
    ensures Earlier(next, roots, [x], [z])
  {
    hide Before;
    assert PartsAt(next, roots, [x], [z], 0);
  }

  /** A shortest walk to a node goes through a node one edge nearer. */
  lemma NearerOnWalk<T(!new)>(next: T -> seq<T>, roots: set<T>, level: map<T, nat>, x: T, w: seq<T>)
    requires Shortest(next, roots, level) && x in level && level[x] > 0
    requires IsWalk(next, w) && w[0] in roots && |w| == level[x] + 1 && w[level[x]] == x
    ensures var n := level[x] - 1; IsWalk(next, w[..n + 1]) && x in next(w[n]) && w[n] in level && level[w[n]] == n
  {
    var n := level[x] - 1;
    var v := w[..n + 1];
    assert IsWalk(next, v) && v[n] == w[n];
    assert ReachedIn(next, roots, w[n], n);
    StepReachedIn(next, roots, w[n], level[w[n]], x);
  }

  /** No shortest walk to a node is earlier than the one kept. */
  lemma {:induction false} KeptIsEarliest<T(!new)>(next: T -> seq<T>, roots: seq<T>, all: set<T>, parent: map<T, T>, level: map<T, nat>,
                                                   found: map<T, nat>, stamp: nat, x: T, w: seq<T>)
    requires Found(next, roots, parent, level, found, stamp) && Shortest(next, all, level) && x in level
    requires IsWalk(next, w) && w[0] in all && |w| == level[x] + 1 && w[level[x]] == x
    ensures w == Kept(next, parent, level, x) || Earlier(next, roots, Kept(next, parent, level, x), w)
    decreases level[x]
  {
    hide Earlier, Shortest, IsWalk, Numbered, FoundInOrder, RootsInOrder;
    var n := level[x];
    if n == 0 {
      assert w == [x];
    } else {
      NearerOnWalk(next, all, level, x, w);
      var y, p, v := w[n - 1], parent[x], w[..n];
      assert w == v + [x];
      KeptIsEarliest(next, roots, all, parent, level, found, stamp, y, v);
      var kept := Kept(next, parent, level, p);
      if p != y {
        ParentFoundBefore(next, roots, parent, level, found, stamp, x, y);
        KeptInOrder(next, roots, parent, level, found, stamp, p, y);
        if v != Kept(next, parent, level, y) {
          EarlierTrans(next, roots, kept, Kept(next, parent, level, y), v);
        }
      }
      if v != kept {
        EarlierExtends(next, roots, kept, v, x, x);
      }
    }
  }

  lemma ParentFoundBefore<T(!new)>(next: T -> seq<T>, roots: seq<T>, parent: map<T, T>, level: map<T, nat>, found: map<T, nat>, stamp: nat, x: T, y: T)
    requires Found(next, roots, parent, level, found, stamp) && x in level && level[x] > 0 && y in level && x in next(y) && parent[x] != y
    ensures parent[x] in level && found[parent[x]] < found[y]
  {
  }
}
