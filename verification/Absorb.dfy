/**
 * A source that folds absorbed nodes into the nodes that list them
 * (graph/absorb.go): a step to an absorbed node is replaced, in place, by that
 * node's own callees, each site drawn once.
 */
module Absorb {
  import opened Common
  import opened Walks
  import opened GraphModel

  /** What a node is absorbed into: no parent for one absorbed among callees only. */
  datatype Fold = Drawn | Into(parent: Id)

  datatype Absorbing = Absorbing(src: Source, fold: Node -> Fold)

  predicate IsAbsorbed(a: Absorbing, step: Step) {
    a.fold(step.node).Into?
  }

  /** The absorbed nodes that steps lead to. */
  function AbsorbedIds(a: Absorbing, steps: seq<Step>): seq<Id> {
    if steps == [] then [] else
      var n := |steps| - 1;
      var rest := AbsorbedIds(a, steps[..n]);
      if IsAbsorbed(a, steps[n]) then rest + [steps[n].node.id] else rest
  }

  lemma {:induction false} AbsorbedIdsAre(a: Absorbing, steps: seq<Step>, y: Id)
    ensures y in AbsorbedIds(a, steps) <==> exists u :: u in steps && IsAbsorbed(a, u) && u.node.id == y
  {
    if steps != [] {
      var n := |steps| - 1;
      AbsorbedIdsAre(a, steps[..n], y);
      assert forall u :: u in steps <==> u in steps[..n] || u == steps[n];
    }
  }

  /** The absorbed nodes that a node lists among its callees. */
  ghost function Inner(a: Absorbing): Id -> seq<Id> {
    (id: Id) => AbsorbedIds(a, a.src.callees(id))
  }

  /** Every absorbed node that a node lists is one of finitely many. */
  ghost predicate FinitelyAbsorbed(a: Absorbing, absorbed: set<Id>) {
    forall x, y :: y in Inner(a)(x) ==> y in absorbed
  }

  // ------------------------------------------------ chains being expanded

  /** A walk through absorbed nodes leads from the chain's last node to one met before. */
  ghost predicate Repeats(next: Id -> seq<Id>, chain: seq<Id>)
    requires chain != []
  {
    exists v :: IsWalk(next, v) && v[0] == chain[|chain| - 1] && !Distinct(chain[..|chain| - 1] + v)
  }

  /** An absorbed node that a walk through absorbed nodes reaches lies on a cycle of them. */
  ghost predicate AbsorbedIntoItself(a: Absorbing, id: Id) {
    exists x, y :: Reaches(Inner(a), id, x) && y in Inner(a)(x) && Reaches(Inner(a), y, x)
  }

  lemma RepeatsStep(next: Id -> seq<Id>, chain: seq<Id>, y: Id)
    requires chain != [] && y in next(chain[|chain| - 1])
    requires y in chain || Repeats(next, chain + [y])
    ensures Repeats(next, chain)
  {
    var n := |chain| - 1;
    var front, id := chain[..n], chain[n];
    assert chain == front + [id];
    if y in chain {
      var v := [id, y];
      assert front + v == chain + [y];
      var i :| 0 <= i < |chain| && chain[i] == y;
      assert (front + v)[i] == (front + v)[|chain|];
      assert IsWalk(next, v);
    } else {
      var w :| IsWalk(next, w) && w[0] == y && !Distinct((chain + [y])[..|chain|] + w);
      var v := [id] + w;
      assert (chain + [y])[..|chain|] + w == front + v;
      assert IsWalk(next, v);
    }
  }

  lemma RepeatsOnlyByStep(next: Id -> seq<Id>, chain: seq<Id>)
    requires chain != [] && Distinct(chain)
    requires forall y :: y in next(chain[|chain| - 1]) ==> y !in chain && !Repeats(next, chain + [y])
    ensures !Repeats(next, chain)
  {
    var n := |chain| - 1;
    var front, id := chain[..n], chain[n];
    assert chain == front + [id];
    forall v | IsWalk(next, v) && v[0] == id ensures Distinct(front + v) {
      if |v| == 1 {
        assert front + v == chain;
      } else {
        var y, w := v[1], v[1..];
        assert y in next(v[0]);
        assert IsWalk(next, w);
        assert (chain + [y])[..|chain|] + w == front + v;
        assert !Repeats(next, chain + [y]);
      }
    }
  }

  /** Listing a node's callees repeats a node exactly when a cycle of absorbed nodes is in reach. */
  lemma RepeatsMeansCycle(a: Absorbing, id: Id)
    ensures Repeats(Inner(a), [id]) <==> AbsorbedIntoItself(a, id)
  {
    hide *;
    var next := Inner(a);
    if Repeats(next, [id]) {
      var v := RepeatFrom(next, id);
      RepeatIsCycle(next, v);
      CycleFrom(a, id);
    }
    if AbsorbedIntoItself(a, id) {
      var x, y := CycleOf(a, id);
      var v := CycleIsRepeat(next, id, x, y);
      RepeatTo(next, v);
    }
  }

  lemma RepeatFrom(next: Id -> seq<Id>, id: Id) returns (v: seq<Id>)
    requires Repeats(next, [id])
    ensures IsWalk(next, v) && v != [] && v[0] == id && !Distinct(v)
  {
    v :| IsWalk(next, v) && v[0] == id && !Distinct([id][..0] + v);
    assert [id][..0] + v == v;
  }

  lemma RepeatTo(next: Id -> seq<Id>, v: seq<Id>)
    requires IsWalk(next, v) && v != [] && !Distinct(v)
    ensures Repeats(next, [v[0]])
  {
    assert [v[0]][..0] + v == v;
  }

  lemma CycleFrom(a: Absorbing, id: Id)
    requires exists x, y :: Reaches(Inner(a), id, x) && y in Inner(a)(x) && Reaches(Inner(a), y, x)
    ensures AbsorbedIntoItself(a, id)
  {
    hide Inner, Reaches;
  }

  lemma CycleOf(a: Absorbing, id: Id) returns (x: Id, y: Id)
    requires AbsorbedIntoItself(a, id)
    ensures Reaches(Inner(a), id, x) && y in Inner(a)(x) && Reaches(Inner(a), y, x)
  {
    hide Inner, Reaches;
    x, y :| Reaches(Inner(a), id, x) && y in Inner(a)(x) && Reaches(Inner(a), y, x);
  }

  lemma SubWalk(next: Id -> seq<Id>, v: seq<Id>, i: nat, j: nat)
    requires IsWalk(next, v) && i <= j < |v|
    ensures IsWalkFromTo(next, v[i..j + 1], v[i], v[j]) && Reaches(next, v[i], v[j])
  {
  }

  lemma RepeatIsCycle(next: Id -> seq<Id>, v: seq<Id>)
    requires IsWalk(next, v) && v != [] && !Distinct(v)
    ensures exists x, y :: Reaches(next, v[0], x) && y in next(x) && Reaches(next, y, x)
  {
    hide Reaches, IsWalkFromTo;
    var i, j :| 0 <= i < j < |v| && v[i] == v[j];
    SubWalk(next, v, 0, i);
    SubWalk(next, v, i + 1, j);
    assert v[i + 1] in next(v[i + 1 - 1]);
  }

  lemma CycleIsRepeat(next: Id -> seq<Id>, id: Id, x: Id, y: Id) returns (v: seq<Id>)
    requires Reaches(next, id, x) && y in next(x) && Reaches(next, y, x)
    ensures IsWalk(next, v) && v != [] && v[0] == id && !Distinct(v)
  {
    var p :| IsWalkFromTo(next, p, id, x);
    var q :| IsWalkFromTo(next, q, y, x);
    hide Distinct;
    CycleWalk(next, p, q);
    v := p + q;
  }

  lemma CycleWalk(next: Id -> seq<Id>, p: seq<Id>, q: seq<Id>)
    requires IsWalk(next, p) && IsWalk(next, q) && q[0] in next(p[|p| - 1]) && q[|q| - 1] == p[|p| - 1]
    ensures IsWalk(next, p + q) && (p + q)[0] == p[0] && !Distinct(p + q)
  {
    var v := p + q;
    assert v[|p| - 1] == v[|v| - 1];
  }

  // ---------------------------------------------------- what is listed

  /** t is a step to a node drawn as itself, of a node that only absorbed nodes lie between. */
  ghost predicate Below(a: Absorbing, id: Id, t: Step) {
    exists x :: Reaches(Inner(a), id, x) && t in a.src.callees(x) && !IsAbsorbed(a, t)
  }

  /** What the first steps of a node come to once absorbed nodes are folded. */
  ghost predicate Comes(a: Absorbing, steps: seq<Step>, t: Step) {
    exists u :: u in steps && if IsAbsorbed(a, u) then Below(a, u.node.id, t) else t == u
  }

  lemma BelowComes(a: Absorbing, id: Id, t: Step)
    ensures Below(a, id, t) <==> Comes(a, a.src.callees(id), t)
  {
    hide IsAbsorbed, Reaches;
    var next, steps := Inner(a), a.src.callees(id);
    if Below(a, id, t) {
      var x :| Reaches(next, id, x) && t in a.src.callees(x) && !IsAbsorbed(a, t);
      if x != id {
        var y := FirstStep(next, id, x);
        AbsorbedIdsAre(a, steps, y);
        var u :| u in steps && IsAbsorbed(a, u) && u.node.id == y;
        assert Below(a, u.node.id, t);
      }
    }
    if Comes(a, steps, t) {
      var u :| u in steps && if IsAbsorbed(a, u) then Below(a, u.node.id, t) else t == u;
      if IsAbsorbed(a, u) {
        var y := u.node.id;
        AbsorbedIdsAre(a, steps, y);
        var x :| Reaches(next, y, x) && t in a.src.callees(x) && !IsAbsorbed(a, t);
        ReachesFirst(next, id, y, x);
      } else {
        ReachesSelf(next, id);
      }
    }
  }

  lemma FirstStep(next: Id -> seq<Id>, a: Id, c: Id) returns (b: Id)
    requires Reaches(next, a, c) && a != c
    ensures b in next(a) && Reaches(next, b, c)
  {
    var w :| IsWalkFromTo(next, w, a, c);
    b := w[1];
    assert w[1] in next(w[0]);
    assert IsWalkFromTo(next, w[1..], b, c);
  }

  lemma ReachesFirst(next: Id -> seq<Id>, a: Id, b: Id, c: Id)
    requires b in next(a) && Reaches(next, b, c)
    ensures Reaches(next, a, c)
  {
    ReachesSelf(next, a);
    ReachesStep(next, a, a, b);
    ReachesTrans(next, a, b, c);
  }

  // ------------------------------------------------------- drawn sites

  /** One site of an edge to a node, as two absorbed steps are told apart. */
  datatype DrawnSite = DrawnSite(to: Id, edgeType: string, path: string, text: string, line: int, column: int)

  function KeyOfSite(step: Step, site: Site): DrawnSite {
    DrawnSite(step.node.id, step.edgeType, site.path, site.text, site.line, site.column)
  }

  function StepKeys(step: Step): seq<DrawnSite> {
    seq(|step.sites|, i requires 0 <= i < |step.sites| => KeyOfSite(step, step.sites[i]))
  }

  function Keys(steps: seq<Step>): seq<DrawnSite> {
    if steps == [] then [] else Keys(steps[..|steps| - 1]) + StepKeys(steps[|steps| - 1])
  }

  ghost predicate Subsequence<T>(s: seq<T>, t: seq<T>)
    decreases |t|
  {
    s == [] || (t != [] &&
      var shorter := t[..|t| - 1];
      Subsequence(s, shorter) || (s[|s| - 1] == t[|t| - 1] && Subsequence(s[..|s| - 1], shorter)))
  }

  lemma {:induction false} SubsequenceRefl<T>(s: seq<T>)
    ensures Subsequence(s, s)
  {
    if s != [] {
      SubsequenceRefl(s[..|s| - 1]);
    }
  }

  lemma {:induction false} SubsequenceTrans<T>(s: seq<T>, t: seq<T>, u: seq<T>)
    requires Subsequence(s, t) && Subsequence(t, u)
    ensures Subsequence(s, u)
    decreases |u|
  {
    if s != [] && t != [] {
      var t', u' := t[..|t| - 1], u[..|u| - 1];
      if Subsequence(t, u') {
        SubsequenceTrans(s, t, u');
      } else if Subsequence(s, t') {
        SubsequenceTrans(s, t', u');
      } else {
        SubsequenceTrans(s[..|s| - 1], t', u');
      }
    }
  }

  /** s is t without some of its sites, and without all of them only where t has none. */
  ghost predicate Trims(s: Step, t: Step) {
    && s == t.(sites := s.sites)
    && Subsequence(s.sites, t.sites)
    && (s.sites == [] ==> t.sites == [])
  }

  /** The steps still show everything that t says: its node, and each of its sites. */
  ghost predicate Shows(steps: seq<Step>, t: Step) {
    && (exists s :: s in steps && s.node.id == t.node.id)
    && (forall k :: k in StepKeys(t) ==> k in Keys(steps))
    && (t.sites == [] ==> t in steps)
  }

  /** The steps are trimmed from those wanted, and show every one wanted. */
  ghost predicate Lists(steps: seq<Step>, wanted: Step -> bool) {
    && (forall s :: s in steps ==> exists t :: wanted(t) && Trims(s, t))
    && (forall t :: wanted(t) ==> Shows(steps, t))
  }

  lemma SubsequenceGrows<T>(s: seq<T>, t: seq<T>, x: T)
    requires Subsequence(s, t)
    ensures Subsequence(s, t + [x]) && Subsequence(s + [x], t + [x])
  {
    assert (t + [x])[..|t|] == t && (s + [x])[..|s|] == s;
  }

  method WithoutDrawnSites(step: Step, drawn0: set<DrawnSite>) returns (r: Step, kept: bool, drawn: set<DrawnSite>)
    ensures kept ==> Trims(r, step) && Distinct(StepKeys(r)) && forall k :: k in StepKeys(r) ==> k !in drawn0
    ensures kept <==> step.sites == [] || exists k :: k in StepKeys(step) && k !in drawn0
    ensures drawn == drawn0 + (set k | k in StepKeys(step))
    ensures kept ==> drawn == drawn0 + set k | k in StepKeys(r)
    ensures !kept ==> drawn == drawn0
  {
    SubsequenceRefl(step.sites);
    SubsequenceRefl(step.sites[..0]);
    hide Subsequence;
    r, drawn := step, drawn0;
    if step.sites == [] {
      return step, true, drawn0;
    }
    var sites: seq<Site> := [];
    for i := 0 to |step.sites|
      invariant drawn == drawn0 + set k | k in StepKeys(step)[..i]
      invariant drawn == drawn0 + set k | k in StepKeys(step.(sites := sites))
      invariant Distinct(StepKeys(step.(sites := sites)))
      invariant forall k :: k in StepKeys(step.(sites := sites)) ==> k !in drawn0
      invariant Subsequence(sites, step.sites[..i])
    {
      var site := step.sites[i];
      var key := KeyOfSite(step, site);
      SubsequenceGrows(sites, step.sites[..i], site);
      assert step.sites[..i + 1] == step.sites[..i] + [site];
      assert StepKeys(step)[..i + 1] == StepKeys(step)[..i] + [key];
      if key !in drawn {
        assert StepKeys(step.(sites := sites + [site])) == StepKeys(step.(sites := sites)) + [key];
        drawn := drawn + {key};
        sites := sites + [site];
      }
    }
    assert StepKeys(step)[..|step.sites|] == StepKeys(step);
    assert step.sites[..|step.sites|] == step.sites;
    if sites == [] {
      assert StepKeys(step.(sites := sites)) == [];
      return step, false, drawn;
    }
    r := step.(sites := sites);
    kept := true;
    assert StepKeys(r)[0] in StepKeys(r);
  }

  lemma TrimsSelf(t: Step)
    ensures Trims(t, t)
  {
    SubsequenceRefl(t.sites);
  }

  lemma TrimsTrans(r: Step, s: Step, t: Step)
    requires Trims(r, s) && Trims(s, t)
    ensures Trims(r, t)
  {
    SubsequenceTrans(r.sites, s.sites, t.sites);
    hide Subsequence;
  }

  lemma {:induction false} KeysAppend(a: seq<Step>, b: seq<Step>)
    ensures Keys(a + b) == Keys(a) + Keys(b)
  {
    hide StepKeys;
    if b == [] {
      assert a + b == a;
    } else {
      var n := |b| - 1;
      assert (a + b)[..|a| + n] == a + b[..n] && (a + b)[|a| + n] == b[n];
      KeysAppend(a, b[..n]);
    }
  }

  lemma KeysOfOne(s: Step)
    ensures Keys([s]) == StepKeys(s)
  {
    hide StepKeys;
    assert [s][..0] == [];
    assert Keys([]) == [];
  }

  lemma ShowsGrows(steps: seq<Step>, more: seq<Step>, t: Step)
    requires Shows(steps, t)
    ensures Shows(steps + more, t)
  {
    hide StepKeys;
    KeysAppend(steps, more);
    hide Keys;
    var s :| s in steps && s.node.id == t.node.id;
    assert s in steps + more;
  }

  lemma ShowsSelf(steps: seq<Step>, t: Step)
    ensures Shows(steps + [t], t)
  {
    hide StepKeys;
    KeysAppend(steps, [t]);
    KeysOfOne(t);
    hide Keys;
    assert t in steps + [t];
  }

  // --------------------------------------------------- listing the callees

  ghost function Wanted(a: Absorbing, steps: seq<Step>): Step -> bool {
    (t: Step) => Comes(a, steps, t)
  }

  ghost function WantedBelow(a: Absorbing, id: Id): Step -> bool {
    (t: Step) => Below(a, id, t)
  }

  lemma ComesStep(a: Absorbing, steps: seq<Step>, u: Step, t: Step)
    ensures Comes(a, steps + [u], t) <==> Comes(a, steps, t) || if IsAbsorbed(a, u) then Below(a, u.node.id, t) else t == u
  {
    hide Below, IsAbsorbed;
    assert forall s :: s in steps + [u] <==> s in steps || s == u;
  }

  /** A step to a node drawn as itself is kept as it is. */
  lemma ListsDirect(a: Absorbing, steps: seq<Step>, u: Step, listed: seq<Step>)
    requires Lists(listed, Wanted(a, steps)) && !IsAbsorbed(a, u)
    ensures Lists(listed + [u], Wanted(a, steps + [u]))
  {
    hide Comes, Trims, Shows, IsAbsorbed;
    var wanted, now := Wanted(a, steps), Wanted(a, steps + [u]);
    forall s | s in listed + [u] ensures exists t :: now(t) && Trims(s, t) {
      if s in listed {
        var t :| wanted(t) && Trims(s, t);
        ComesStep(a, steps, u, t);
      } else {
        ComesStep(a, steps, u, u);
        TrimsSelf(u);
      }
    }
    forall t | now(t) ensures Shows(listed + [u], t) {
      ComesStep(a, steps, u, t);
      if wanted(t) {
        ShowsGrows(listed, [u], t);
      } else {
        ShowsSelf(listed, u);
      }
    }
  }

  /** The steps kept of an absorbed node's callees, once their drawn sites are dropped. */
  ghost predicate KeptOf(inner: seq<Step>, listed: seq<Step>, kept: seq<Step>) {
    && (forall r :: r in kept ==> exists s :: s in inner && Trims(r, s))
    && (forall s :: s in inner ==> Shows(listed + kept, s))
  }

  lemma ShowsThrough(steps: seq<Step>, inner: seq<Step>, t: Step)
    requires Shows(inner, t) && forall s :: s in inner ==> Shows(steps, s)
    ensures Shows(steps, t)
  {
    hide StepKeys;
    forall k | k in StepKeys(t) ensures k in Keys(steps) {
      var s := KeyHasStep(inner, k);
    }
    hide Keys;
    var s :| s in inner && s.node.id == t.node.id;
    assert Shows(steps, s);
  }

  /** Two sites drawn of one place in a file. */
  predicate OnePlace(x: Site, y: Site) {
    x.path == y.path && x.text == y.text && x.line == y.line && x.column == y.column
  }

  /** Steps that show another show each of its sites: to its node, by its edge type, in its place. */
  lemma ShowsEachSite(steps: seq<Step>, t: Step, site: Site)
    requires Shows(steps, t) && site in t.sites
    ensures exists s, other :: s in steps && s.node.id == t.node.id && s.edgeType == t.edgeType && other in s.sites && OnePlace(site, other)
  {
    var i :| 0 <= i < |t.sites| && t.sites[i] == site;
    assert StepKeys(t)[i] == KeyOfSite(t, site);
    var s := KeyHasStep(steps, KeyOfSite(t, site));
    var j :| 0 <= j < |s.sites| && StepKeys(s)[j] == KeyOfSite(t, site);
    assert s.sites[j] in s.sites && OnePlace(site, s.sites[j]);
  }

  lemma {:induction false} KeyHasStep(steps: seq<Step>, k: DrawnSite) returns (s: Step)
    requires k in Keys(steps)
    ensures s in steps && k in StepKeys(s)
  {
    hide StepKeys;
    var n := |steps| - 1;
    if k in StepKeys(steps[n]) {
      s := steps[n];
    } else {
      s := KeyHasStep(steps[..n], k);
    }
  }

  /** A step to an absorbed node is replaced by what is kept of that node's callees. */
  lemma ListsAbsorbed(a: Absorbing, steps: seq<Step>, u: Step, listed: seq<Step>, inner: seq<Step>, kept: seq<Step>)
    requires Lists(listed, Wanted(a, steps)) && IsAbsorbed(a, u)
    requires Lists(inner, WantedBelow(a, u.node.id)) && KeptOf(inner, listed, kept)
    ensures Lists(listed + kept, Wanted(a, steps + [u]))
  {
    hide Comes, Below, Trims, Shows, IsAbsorbed;
    var wanted, now, below := Wanted(a, steps), Wanted(a, steps + [u]), WantedBelow(a, u.node.id);
    forall s | s in listed + kept ensures exists t :: now(t) && Trims(s, t) {
      if s in listed {
        var t :| wanted(t) && Trims(s, t);
        ComesStep(a, steps, u, t);
      } else {
        var r :| r in inner && Trims(s, r);
        var t :| below(t) && Trims(r, t);
        TrimsTrans(s, r, t);
        ComesStep(a, steps, u, t);
      }
    }
    forall t | now(t) ensures Shows(listed + kept, t) {
      ComesStep(a, steps, u, t);
      if wanted(t) {
        ShowsGrows(listed, kept, t);
      } else {
        ShowsThrough(listed + kept, inner, t);
      }
    }
  }

  /** The sites drawn so far are those of the absorbed steps, each once. */
  ghost predicate DrawnOnce(keys: seq<DrawnSite>, drawn: set<DrawnSite>) {
    Distinct(keys) && forall k :: k in drawn <==> k in keys
  }

  lemma DrawnOnceGrows(keys: seq<DrawnSite>, drawn: set<DrawnSite>, more: seq<DrawnSite>)
    requires DrawnOnce(keys, drawn) && Distinct(more) && forall k :: k in more ==> k !in drawn
    ensures DrawnOnce(keys + more, drawn + set k | k in more)
  {
    var all := keys + more;
    forall i, j | 0 <= i < j < |all| ensures all[i] != all[j] {
      if i < |keys| <= j {
        assert all[i] in keys && all[j] == more[j - |keys|] && all[j] in more;
      }
    }
  }

  /** All the sites of a step are drawn already: something else shows what it says. */
  lemma ShownAlready(steps: seq<Step>, s: Step)
    requires s.sites != [] && forall k :: k in StepKeys(s) ==> k in Keys(steps)
    ensures Shows(steps, s)
  {
    var k := StepKeys(s)[0];
    assert k in StepKeys(s);
    var t := KeyHasStep(steps, k);
    assert t.node.id == k.to;
  }

  lemma ShownTrimmed(steps: seq<Step>, r: Step, s: Step)
    requires r in steps && Trims(r, s) && forall k :: k in StepKeys(s) ==> k in Keys(steps)
    ensures Shows(steps, s)
  {
    hide StepKeys, Keys;
  }

  method KeepUndrawn(inner: seq<Step>, ghost listed: seq<Step>, ghost keys: seq<DrawnSite>, drawn0: set<DrawnSite>)
    returns (kept: seq<Step>, drawn: set<DrawnSite>)
    requires DrawnOnce(keys, drawn0) && forall k :: k in keys ==> k in Keys(listed)
    ensures KeptOf(inner, listed, kept) && DrawnOnce(keys + Keys(kept), drawn)
  {
    hide *;
    kept, drawn := [], drawn0;
    KeysOfNone();
    assert keys + [] == keys;
    KeptNone(listed);
    DrawnSame(keys, drawn0);
    assert listed + [] == listed;
    for i := 0 to |inner|
      invariant KeptOf(inner[..i], listed, kept)
      invariant DrawnOnce(keys + Keys(kept), drawn)
      invariant forall k :: k in drawn ==> k in Keys(listed + kept)
    {
      assert inner[..i + 1] == inner[..i] + [inner[i]];
      ghost var before, had := drawn, kept;
      var r, keep;
      r, keep, drawn := WithoutDrawnSites(inner[i], drawn);
      if keep {
        kept := kept + [r];
        KeepOne(inner[..i], listed, keys, had, before, inner[i], r);
      } else {
        DropOne(inner[..i], listed, had, before, inner[i]);
      }
    }
    assert inner[..|inner|] == inner;
  }

  lemma KeysOfNone()
    ensures Keys([]) == []
  {
  }

  lemma KeptNone(listed: seq<Step>)
    ensures KeptOf([], listed, [])
  {
  }

  lemma DrawnSame(keys: seq<DrawnSite>, drawn: set<DrawnSite>)
    requires DrawnOnce(keys, drawn)
    ensures forall k :: k in drawn <==> k in keys
  {
  }

  lemma DropOne(inner: seq<Step>, listed: seq<Step>, kept: seq<Step>, drawn: set<DrawnSite>, s: Step)
    requires KeptOf(inner, listed, kept) && s.sites != [] && forall k :: k in StepKeys(s) ==> k in drawn
    requires forall k :: k in drawn ==> k in Keys(listed + kept)
    ensures KeptOf(inner + [s], listed, kept)
  {
    hide Trims, Shows, StepKeys, Keys;
    ShownAlready(listed + kept, s);
    assert forall t :: t in inner + [s] <==> t in inner || t == s;
  }

  lemma KeepOne(inner: seq<Step>, listed: seq<Step>, keys: seq<DrawnSite>, kept: seq<Step>, drawn: set<DrawnSite>, s: Step, r: Step)
    requires KeptOf(inner, listed, kept) && DrawnOnce(keys + Keys(kept), drawn) && forall k :: k in drawn ==> k in Keys(listed + kept)
    requires Trims(r, s) && Distinct(StepKeys(r)) && (forall k :: k in StepKeys(r) ==> k !in drawn)
    requires drawn + (set k | k in StepKeys(s)) == drawn + set k | k in StepKeys(r)
    ensures KeptOf(inner + [s], listed, kept + [r])
    ensures DrawnOnce(keys + Keys(kept + [r]), drawn + set k | k in StepKeys(s))
    ensures forall k :: k in drawn + (set k' | k' in StepKeys(s)) ==> k in Keys(listed + (kept + [r]))
  {
    hide Trims, Shows, StepKeys, Keys, DrawnOnce, Distinct;
    KeysAppend(kept, [r]);
    KeysOfOne(r);
    DrawnOnceGrows(keys + Keys(kept), drawn, StepKeys(r));
    assert keys + Keys(kept + [r]) == keys + Keys(kept) + StepKeys(r);
    KeysAppend(listed + kept, [r]);
    assert listed + (kept + [r]) == listed + kept + [r];
    assert forall k :: k in StepKeys(s) ==> k in drawn + set k' | k' in StepKeys(s);
    KeptGrows(inner, listed, kept, r, s);
  }

  lemma KeptGrows(inner: seq<Step>, listed: seq<Step>, kept: seq<Step>, r: Step, s: Step)
    requires KeptOf(inner, listed, kept) && Trims(r, s) && forall k :: k in StepKeys(s) ==> k in Keys(listed + kept + [r])
    ensures KeptOf(inner + [s], listed, kept + [r])
  {
    hide Trims, Shows, StepKeys, Keys;
    assert listed + (kept + [r]) == listed + kept + [r];
    forall t | t in inner + [s] ensures Shows(listed + (kept + [r]), t) {
      if t in inner {
        ShowsGrows(listed + kept, [r], t);
      } else {
        assert r in listed + kept + [r];
        ShownTrimmed(listed + kept + [r], r, s);
      }
    }
    forall t | t in kept + [r] ensures exists u :: u in inner + [s] && Trims(t, u) {
      if t in kept {
        var u :| u in inner && Trims(t, u);
        assert u in inner + [s];
      } else {
        assert s in inner + [s];
      }
    }
  }

  // ------------------------------------------------------ folding in place

  function Flat(groups: seq<seq<Step>>): seq<Step> {
    if groups == [] then [] else Flat(groups[..|groups| - 1]) + groups[|groups| - 1]
  }

  /** What the absorbed steps alone were replaced by. */
  function AbsorbedIn(a: Absorbing, steps: seq<Step>, groups: seq<seq<Step>>): seq<Step>
    requires |steps| == |groups|
  {
    if steps == [] then [] else
      var n := |steps| - 1;
      AbsorbedIn(a, steps[..n], groups[..n]) + if IsAbsorbed(a, steps[n]) then groups[n] else []
  }

  /** A step is kept as it is, or replaced by steps to what lies below the node it absorbs. */
  ghost predicate Replaces(a: Absorbing, u: Step, group: seq<Step>) {
    if IsAbsorbed(a, u) then forall s :: s in group ==> exists t :: Below(a, u.node.id, t) && Trims(s, t)
    else group == [u]
  }

  /** The listed steps are the source's, each replaced in place, and no absorbed site is drawn twice. */
  ghost predicate FoldedInPlace(a: Absorbing, steps: seq<Step>, groups: seq<seq<Step>>, listed: seq<Step>) {
    && |groups| == |steps| && listed == Flat(groups)
    && (forall i :: 0 <= i < |steps| ==> Replaces(a, steps[i], groups[i]))
    && Distinct(Keys(AbsorbedIn(a, steps, groups)))
  }

  /** What holds once the first steps of a node are folded. */
  ghost predicate Folded(a: Absorbing, steps: seq<Step>, groups: seq<seq<Step>>, listed: seq<Step>, drawn: set<DrawnSite>) {
    && Lists(listed, Wanted(a, steps))
    && FoldedInPlace(a, steps, groups, listed)
    && DrawnOnce(Keys(AbsorbedIn(a, steps, groups)), drawn)
    && forall k :: k in Keys(AbsorbedIn(a, steps, groups)) ==> k in Keys(listed)
  }

  lemma FoldedNone(a: Absorbing)
    ensures Folded(a, [], [], [], {})
  {
  }

  lemma FlatAppends(groups: seq<seq<Step>>, group: seq<Step>)
    ensures Flat(groups + [group]) == Flat(groups) + group
  {
    assert (groups + [group])[..|groups|] == groups;
  }

  lemma AbsorbedInAppends(a: Absorbing, steps: seq<Step>, groups: seq<seq<Step>>, u: Step, group: seq<Step>)
    requires |steps| == |groups|
    ensures AbsorbedIn(a, steps + [u], groups + [group]) == AbsorbedIn(a, steps, groups) + if IsAbsorbed(a, u) then group else []
  {
    hide IsAbsorbed;
    assert (groups + [group])[..|groups|] == groups && (steps + [u])[..|steps|] == steps;
  }

  lemma FoldDirect(a: Absorbing, steps: seq<Step>, groups: seq<seq<Step>>, listed: seq<Step>, drawn: set<DrawnSite>, u: Step)
    requires Folded(a, steps, groups, listed, drawn) && !IsAbsorbed(a, u)
    ensures Folded(a, steps + [u], groups + [[u]], listed + [u], drawn)
  {
    ListsDirect(a, steps, u, listed);
    FlatAppends(groups, [u]);
    AbsorbedInAppends(a, steps, groups, u, [u]);
    KeysAppend(listed, [u]);
    assert AbsorbedIn(a, steps, groups) + [] == AbsorbedIn(a, steps, groups);
    assert Replaces(a, u, [u]);
    hide Lists, Wanted, Flat, AbsorbedIn, Keys, Distinct, DrawnOnce, IsAbsorbed, Replaces;
  }

  lemma FoldAbsorbed(a: Absorbing, steps: seq<Step>, groups: seq<seq<Step>>, listed: seq<Step>, drawn: set<DrawnSite>, u: Step,
                     inner: seq<Step>, kept: seq<Step>, later: set<DrawnSite>)
    requires Folded(a, steps, groups, listed, drawn) && IsAbsorbed(a, u)
    requires Lists(inner, WantedBelow(a, u.node.id)) && KeptOf(inner, listed, kept)
    requires DrawnOnce(Keys(AbsorbedIn(a, steps, groups)) + Keys(kept), later)
    ensures Folded(a, steps + [u], groups + [kept], listed + kept, later)
  {
    ListsAbsorbed(a, steps, u, listed, inner, kept);
    FlatAppends(groups, kept);
    AbsorbedInAppends(a, steps, groups, u, kept);
    KeysAppend(listed, kept);
    KeysAppend(AbsorbedIn(a, steps, groups), kept);
    ReplacedByKept(a, u, inner, listed, kept);
    hide Lists, Wanted, Flat, AbsorbedIn, Keys, Distinct, IsAbsorbed, Replaces;
  }

  lemma ReplacedByKept(a: Absorbing, u: Step, inner: seq<Step>, listed: seq<Step>, kept: seq<Step>)
    requires IsAbsorbed(a, u) && Lists(inner, WantedBelow(a, u.node.id)) && KeptOf(inner, listed, kept)
    ensures Replaces(a, u, kept)
  {
    hide Below, Shows, Trims, IsAbsorbed;
    forall s | s in kept ensures exists t :: Below(a, u.node.id, t) && Trims(s, t) {
      var r :| r in inner && Trims(s, r);
      var t :| WantedBelow(a, u.node.id)(t) && Trims(r, t);
      TrimsTrans(s, r, t);
    }
  }

  lemma WantedIsBelow(a: Absorbing, id: Id, listed: seq<Step>)
    requires Lists(listed, Wanted(a, a.src.callees(id)))
    ensures Lists(listed, WantedBelow(a, id))
  {
    hide Comes, Below, Trims, Shows;
    forall t ensures Wanted(a, a.src.callees(id))(t) <==> WantedBelow(a, id)(t) {
      BelowComes(a, id, t);
    }
    forall s | s in listed ensures exists t :: WantedBelow(a, id)(t) && Trims(s, t) {
      var t :| Wanted(a, a.src.callees(id))(t) && Trims(s, t);
    }
  }

  class AbsorbingSource {
    const a: Absorbing

    constructor (a: Absorbing)
      ensures this.a == a
    {
      this.a := a;
    }

    /** The callees of the last node of a chain of nodes being expanded. */
    method OutOf(ghost absorbed: set<Id>, id: Id, expanding: seq<Id>) returns (r: Result<seq<Step>>, ghost groups: seq<seq<Step>>)
      requires FinitelyAbsorbed(a, absorbed)
      requires expanding != [] && expanding[|expanding| - 1] == id && Distinct(expanding)
      ensures r.Err? <==> Repeats(Inner(a), expanding)
      ensures r.Ok? ==> Lists(r.value, WantedBelow(a, id)) && FoldedInPlace(a, a.src.callees(id), groups, r.value)
      decreases absorbed - set x | x in expanding
    {
      hide *;
      var steps := a.src.callees(id);
      var listed, drawn: set<DrawnSite> := [], {};
      groups := [];
      FoldedNone(a);
      for i := 0 to |steps|
        invariant Folded(a, steps[..i], groups, listed, drawn)
        invariant forall k :: 0 <= k < i && IsAbsorbed(a, steps[k]) ==> steps[k].node.id !in expanding && !Repeats(Inner(a), expanding + [steps[k].node.id])
      {
        assert steps[..i + 1] == steps[..i] + [steps[i]];
        var step := steps[i];
        if !a.fold(step.node).Into? {
          NotAbsorbed(a, step);
          FoldDirect(a, steps[..i], groups, listed, drawn, step);
          listed, groups := listed + [step], groups + [[step]];
        } else {
          StepAbsorbs(a, absorbed, id, step);
          if step.node.id in expanding {
            RepeatsStep(Inner(a), expanding, step.node.id);
            return Err, groups;
          }
          DistinctGrows(absorbed, expanding, step.node.id);
          var inner, _ := OutOf(absorbed, step.node.id, expanding + [step.node.id]);
          if inner.Err? {
            RepeatsStep(Inner(a), expanding, step.node.id);
            return Err, groups;
          }
          FoldedParts(a, steps[..i], groups, listed, drawn);
          var kept, later := KeepUndrawn(inner.value, listed, Keys(AbsorbedIn(a, steps[..i], groups)), drawn);
          FoldAbsorbed(a, steps[..i], groups, listed, drawn, step, inner.value, kept, later);
          listed, groups, drawn := listed + kept, groups + [kept], later;
        }
      }
      assert steps[..|steps|] == steps;
      FoldedParts(a, steps, groups, listed, drawn);
      WantedIsBelow(a, id, listed);
      forall y | y in Inner(a)(id) ensures y !in expanding && !Repeats(Inner(a), expanding + [y]) {
        var k := InnerStep(a, id, y);
      }
      RepeatsOnlyByStep(Inner(a), expanding);
      r := Ok(listed);
    }

    /**
     * A node's callees with absorbed nodes replaced by their own: a failure
     * exactly when one of those is absorbed into itself, else the steps to
     * every node that only absorbed nodes lie between, in place.
     */
    method Out(ghost absorbed: set<Id>, id: Id) returns (r: Result<seq<Step>>, ghost groups: seq<seq<Step>>)
      requires FinitelyAbsorbed(a, absorbed)
      ensures r.Err? <==> AbsorbedIntoItself(a, id)
      ensures r.Ok? ==> Lists(r.value, WantedBelow(a, id)) && FoldedInPlace(a, a.src.callees(id), groups, r.value)
    {
      hide AbsorbedIntoItself, Repeats, Lists, FoldedInPlace, FinitelyAbsorbed, Inner;
      r, groups := OutOf(absorbed, id, [id]);
      RepeatsMeansCycle(a, id);
    }

    /** A node's callers, each absorbed one drawn as the node its parent id describes. */
    method In(id: Id) returns (r: Result<seq<Step>>)
      ensures r.Err? <==> exists u :: u in a.src.callers(id) && a.fold(u.node) == Into("")
      ensures r.Ok? ==> |r.value| == |a.src.callers(id)|
      ensures r.Ok? ==> forall i :: 0 <= i < |r.value| ==>
        var u := a.src.callers(id)[i];
        r.value[i] == u.(node := if IsAbsorbed(a, u) then a.src.describe(a.fold(u.node).parent) else u.node)
    {
      var listed := a.src.callers(id);
      var steps := listed;
      for i := 0 to |listed|
        invariant |steps| == |listed|
        invariant forall k :: i <= k < |listed| ==> steps[k] == listed[k]
        invariant forall k :: 0 <= k < i ==> a.fold(listed[k].node) != Into("")
        invariant forall k :: 0 <= k < i ==>
          steps[k] == listed[k].(node := if IsAbsorbed(a, listed[k]) then a.src.describe(a.fold(listed[k].node).parent) else listed[k].node)
      {
        var fold := a.fold(listed[i].node);
        if fold.Into? {
          if fold.parent == "" {
            return Err;
          }
          steps := steps[i := listed[i].(node := a.src.describe(fold.parent))];
        }
      }
      r := Ok(steps);
    }
  }

  lemma NotAbsorbed(a: Absorbing, step: Step)
    ensures IsAbsorbed(a, step) <==> a.fold(step.node).Into?
  {
  }

  lemma StepAbsorbs(a: Absorbing, absorbed: set<Id>, id: Id, step: Step)
    requires FinitelyAbsorbed(a, absorbed) && step in a.src.callees(id) && a.fold(step.node).Into?
    ensures IsAbsorbed(a, step) && step.node.id in Inner(a)(id) && step.node.id in absorbed
  {
    AbsorbedIdsAre(a, a.src.callees(id), step.node.id);
    assert IsAbsorbed(a, step);
    assert step.node.id in Inner(a)(id);
  }

  lemma InnerStep(a: Absorbing, id: Id, y: Id) returns (k: nat)
    requires y in Inner(a)(id)
    ensures k < |a.src.callees(id)| && IsAbsorbed(a, a.src.callees(id)[k]) && a.src.callees(id)[k].node.id == y
  {
    AbsorbedIdsAre(a, a.src.callees(id), y);
    var u :| u in a.src.callees(id) && IsAbsorbed(a, u) && u.node.id == y;
    k :| k < |a.src.callees(id)| && a.src.callees(id)[k] == u;
  }

  lemma DistinctGrows(absorbed: set<Id>, chain: seq<Id>, y: Id)
    requires Distinct(chain) && y !in chain && y in absorbed
    ensures Distinct(chain + [y])
    ensures (absorbed - set x | x in chain + [y]) < absorbed - set x | x in chain
  {
    var longer := chain + [y];
    forall i, j | 0 <= i < j < |longer| ensures longer[i] != longer[j] {
      if j == |chain| {
        assert longer[i] in chain;
      }
    }
    assert longer[|chain|] == y;
    assert y in absorbed - set x | x in chain;
    assert forall x :: x in longer <==> x in chain || x == y;
  }

  lemma FoldedParts(a: Absorbing, steps: seq<Step>, groups: seq<seq<Step>>, listed: seq<Step>, drawn: set<DrawnSite>)
    requires Folded(a, steps, groups, listed, drawn)
    ensures Lists(listed, Wanted(a, steps)) && FoldedInPlace(a, steps, groups, listed) && |groups| == |steps|
    ensures DrawnOnce(Keys(AbsorbedIn(a, steps, groups)), drawn)
    ensures forall k :: k in Keys(AbsorbedIn(a, steps, groups)) ==> k in Keys(listed)
  {
    hide Lists, Wanted, DrawnOnce, Keys, AbsorbedIn, Flat, Distinct, Replaces;
  }
}
