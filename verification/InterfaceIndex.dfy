/**
 * The index from method names to interfaces (indexer/implements.go:162-205):
 * which candidates a type satisfies, without testing every one.
 */
module InterfaceIndex {
  import opened Common

  type Name = string
  type Type = string

  /** A candidate interface, by the names of its methods. */
  datatype Interface = Interface(id: string, methods: seq<Name>)

  /** For each method of the type, how many methods of the interface have its name. */
  function Pairs(methods: seq<Name>, iface: seq<Name>): nat {
    if methods == [] then 0 else Pairs(methods[..|methods| - 1], iface) + Count(iface, methods[|methods| - 1])
  }

  lemma {:induction false} PairsSwap(methods: seq<Name>, iface: seq<Name>)
    ensures Pairs(methods, iface) == Pairs(iface, methods)
    decreases |methods|
  {
    if methods == [] {
      PairsWithNone(iface);
    } else {
      var n := |methods| - 1;
      PairsSwap(methods[..n], iface);
      PairsAppend(iface, methods[..n], methods[n]);
      assert methods == methods[..n] + [methods[n]];
    }
  }

  lemma {:induction false} PairsWithNone(methods: seq<Name>)
    ensures Pairs(methods, []) == 0
  {
    if methods != [] {
      PairsWithNone(methods[..|methods| - 1]);
    }
  }

  lemma {:induction false} PairsAppend(methods: seq<Name>, iface: seq<Name>, x: Name)
    ensures Pairs(methods, iface + [x]) == Pairs(methods, iface) + Count(methods, x)
  {
    if methods != [] {
      var n := |methods| - 1;
      PairsAppend(methods[..n], iface, x);
      assert (iface + [x])[..|iface|] == iface;
      assert Count(iface + [x], methods[n]) == Count(iface, methods[n]) + if x == methods[n] then 1 else 0;
    }
  }

  /** When the type has all of the interface's names, the pairs are as many as these exactly if it has each once. */
  lemma {:induction false} PairsCountNames(iface: seq<Name>, methods: seq<Name>)
    requires forall x :: x in iface ==> x in methods
    ensures Pairs(iface, methods) >= |iface|
    ensures Pairs(iface, methods) == |iface| <==> forall x :: x in iface ==> Count(methods, x) == 1
  {
    if iface != [] {
      var n := |iface| - 1;
      assert iface == iface[..n] + [iface[n]];
      assert forall x :: x in iface <==> x in iface[..n] || x == iface[n];
      PairsCountNames(iface[..n], methods);
      CountIn(methods, iface[n]);
    }
  }

  /** The candidates that a test admits, in order, by position. */
  function Naive(candidates: seq<Interface>, satisfies: Interface -> bool): seq<Interface> {
    if candidates == [] then [] else
      var n := |candidates| - 1;
      Naive(candidates[..n], satisfies) + if satisfies(candidates[n]) then [candidates[n]] else []
  }

  function At(byMethod: map<Name, seq<nat>>, name: Name): seq<nat> {
    if name in byMethod then byMethod[name] else []
  }

  function Hits(hits: map<nat, nat>, position: nat): nat {
    if position in hits then hits[position] else 0
  }

  /** What the index lists of a position once the first k candidates, and i methods of the next, are in. */
  function Listed(candidates: seq<Interface>, k: nat, i: nat, name: Name, p: nat): nat
    requires k <= |candidates| && (k < |candidates| ==> i <= |candidates[k].methods|)
  {
    if p < k then Count(candidates[p].methods, name)
    else if p == k < |candidates| then Count(candidates[k].methods[..i], name)
    else 0
  }

  ghost predicate Lists(byMethod: map<Name, seq<nat>>, candidates: seq<Interface>, k: nat, i: nat)
    requires k <= |candidates| && (k < |candidates| ==> i <= |candidates[k].methods|)
  {
    forall name, p: nat :: Count(At(byMethod, name), p) == Listed(candidates, k, i, name, p)
  }

  lemma ListsOneMore(byMethod: map<Name, seq<nat>>, candidates: seq<Interface>, k: nat, i: nat)
    requires k < |candidates| && i < |candidates[k].methods| && Lists(byMethod, candidates, k, i)
    ensures var name := candidates[k].methods[i];
            Lists(byMethod[name := At(byMethod, name) + [k]], candidates, k, i + 1)
  {
    var methods := candidates[k].methods;
    var later := byMethod[methods[i] := At(byMethod, methods[i]) + [k]];
    forall name, p: nat ensures Count(At(later, name), p) == Listed(candidates, k, i + 1, name, p) {
      assert Count(At(byMethod, name), p) == Listed(candidates, k, i, name, p);
      CountAppends(At(byMethod, methods[i]), k, p);
      CountAppends(methods[..i], methods[i], name);
      assert methods[..i + 1] == methods[..i] + [methods[i]];
    }
  }

  lemma ListsNext(byMethod: map<Name, seq<nat>>, candidates: seq<Interface>, k: nat)
    requires k < |candidates| && Lists(byMethod, candidates, k, |candidates[k].methods|)
    ensures Lists(byMethod, candidates, k + 1, 0)
  {
    var methods := candidates[k].methods;
    assert methods[..|methods|] == methods;
    assert k + 1 < |candidates| ==> candidates[k + 1].methods[..0] == [];
  }

  method IndexMethods(candidates: seq<Interface>) returns (byMethod: map<Name, seq<nat>>)
    ensures Lists(byMethod, candidates, |candidates|, 0)
  {
    byMethod := map[];
    assert |candidates| > 0 ==> candidates[0].methods[..0] == [];
    for position := 0 to |candidates|
      invariant Lists(byMethod, candidates, position, 0)
    {
      var methods := candidates[position].methods;
      for i := 0 to |methods|
        invariant Lists(byMethod, candidates, position, i)
      {
        ListsOneMore(byMethod, candidates, position, i);
        byMethod := byMethod[methods[i] := At(byMethod, methods[i]) + [position]];
      }
      ListsNext(byMethod, candidates, position);
    }
  }

  class Index {
    const candidates: seq<Interface>
    var byMethod: map<Name, seq<nat>>

    /** A name lists each candidate's position once for each of its methods with that name. */
    ghost predicate Valid()
      reads this
    {
      forall name, p: nat :: Count(At(byMethod, name), p) == if p < |candidates| then Count(candidates[p].methods, name) else 0
    }

    constructor (candidates: seq<Interface>)
      ensures Valid() && this.candidates == candidates
    {
      this.candidates := candidates;
      byMethod := map[];
      new;
      byMethod := IndexMethods(candidates);
      assert forall name, p: nat :: Listed(candidates, |candidates|, 0, name, p) == if p < |candidates| then Count(candidates[p].methods, name) else 0;
    }

    /** How many pairs of a method of the type and a method of each candidate share a name. */
    method CountHits(methods: seq<Name>) returns (hits: map<nat, nat>)
      requires Valid()
      ensures forall p: nat :: Hits(hits, p) == if p < |candidates| then Pairs(methods, candidates[p].methods) else 0
      ensures forall p :: p in hits ==> hits[p] > 0
    {
      hits := map[];
      for i := 0 to |methods|
        invariant forall p: nat :: Hits(hits, p) == if p < |candidates| then Pairs(methods[..i], candidates[p].methods) else 0
        invariant forall p :: p in hits ==> hits[p] > 0
      {
        assert methods[..i + 1][..i] == methods[..i];
        ghost var before := hits;
        var positions := At(byMethod, methods[i]);
        for k := 0 to |positions|
          invariant forall p: nat :: Hits(hits, p) == Hits(before, p) + Count(positions[..k], p)
          invariant forall p :: p in hits ==> hits[p] > 0
        {
          assert positions[..k + 1][..k] == positions[..k];
          hits := hits[positions[k] := Hits(hits, positions[k]) + 1];
        }
        assert positions[..|positions|] == positions;
      }
      assert methods[..|methods|] == methods;
    }

    /**
     * The candidates whose pairs number as many as their methods and which the
     * test admits, in candidate order.
     */
    method SatisfiedBy(methods: seq<Name>, implements: Interface -> bool) returns (satisfied: seq<Interface>)
      requires Valid()
      ensures satisfied == Naive(candidates, Found(methods, implements))
    {
      var hits := CountHits(methods);
      satisfied := [];
      for position := 0 to |candidates|
        invariant satisfied == Naive(candidates[..position], Found(methods, implements))
      {
        assert candidates[..position + 1][..position] == candidates[..position];
        assert Hits(hits, position) == Pairs(methods, candidates[position].methods);
        if position in hits && hits[position] == |candidates[position].methods| && implements(candidates[position]) {
          satisfied := satisfied + [candidates[position]];
        }
      }
      assert candidates[..|candidates|] == candidates;
    }
  }

  /** What the index finds: a candidate hit at least once, as often as it has methods, that the type implements. */
  function Found(methods: seq<Name>, implements: Interface -> bool): Interface -> bool {
    (c: Interface) => Pairs(methods, c.methods) > 0 && Pairs(methods, c.methods) == |c.methods| && implements(c)
  }

  // ------------------------------------------------- against the naive search

  lemma {:induction false} SameTestSameNaive(candidates: seq<Interface>, a: Interface -> bool, b: Interface -> bool)
    requires forall c :: c in candidates ==> a(c) == b(c)
    ensures Naive(candidates, a) == Naive(candidates, b)
  {
    if candidates != [] {
      var n := |candidates| - 1;
      assert forall c :: c in candidates[..n] ==> c in candidates;
      SameTestSameNaive(candidates[..n], a, b);
    }
  }

  lemma {:induction false} NaiveCount(candidates: seq<Interface>, test: Interface -> bool, c: Interface)
    ensures Count(Naive(candidates, test), c) == if test(c) then Count(candidates, c) else 0
  {
    if candidates != [] {
      var n := |candidates| - 1;
      NaiveCount(candidates[..n], test, c);
      CountAppends(Naive(candidates[..n], test), candidates[n], c);
      assert Naive(candidates[..n], test) + [] == Naive(candidates[..n], test);
    }
  }

  /**
   * For any type and any candidates, the index finds what testing every
   * candidate would, in the same order, exactly when each candidate the type
   * implements has methods and is hit as often as it has them.
   */
  lemma FindsExactlyWhenHit(candidates: seq<Interface>, methods: seq<Name>, implements: Interface -> bool)
    ensures Naive(candidates, Found(methods, implements)) == Naive(candidates, implements) <==>
      forall c :: c in candidates && implements(c) ==> Pairs(methods, c.methods) > 0 && Pairs(methods, c.methods) == |c.methods|
  {
    var found := Found(methods, implements);
    if Naive(candidates, found) == Naive(candidates, implements) {
      forall c | c in candidates && implements(c) ensures found(c) {
        NaiveCount(candidates, found, c);
        NaiveCount(candidates, implements, c);
        CountIn(candidates, c);
      }
    }
    if forall c :: c in candidates && implements(c) ==> found(c) {
      SameTestSameNaive(candidates, found, implements);
    }
  }

  /**
   * When implementing an interface needs its names, the index finds what testing
   * every candidate would exactly when each candidate the type implements has
   * methods, and the type has one method of each of their names.
   */
  lemma FindsExactlyWhenNamedOnce(candidates: seq<Interface>, methods: seq<Name>, implements: Interface -> bool)
    requires forall c :: c in candidates && implements(c) ==> forall x :: x in c.methods ==> x in methods
    ensures Naive(candidates, Found(methods, implements)) == Naive(candidates, implements) <==>
      forall c :: c in candidates && implements(c) ==> c.methods != [] && forall x :: x in c.methods ==> Count(methods, x) == 1
  {
    FindsExactlyWhenHit(candidates, methods, implements);
    hide Naive, Found;
    forall c | c in candidates && implements(c)
      ensures Pairs(methods, c.methods) > 0 && Pairs(methods, c.methods) == |c.methods| <==>
              c.methods != [] && forall x :: x in c.methods ==> Count(methods, x) == 1
    {
      PairsSwap(methods, c.methods);
      PairsCountNames(c.methods, methods);
    }
  }

  /**
   * With distinct names in the type's method set, candidates that have methods, and
   * a type that implements one having its names, the index finds what testing every
   * candidate would.
   */
  lemma FindsWhatNaiveFinds(candidates: seq<Interface>, methods: seq<Name>, implements: Interface -> bool)
    requires Distinct(methods) && forall c :: c in candidates ==> c.methods != []
    requires forall c :: c in candidates && implements(c) ==> forall x :: x in c.methods ==> x in methods
    ensures Naive(candidates, Found(methods, implements)) == Naive(candidates, implements)
  {
    forall x | x in methods ensures Count(methods, x) == 1 {
      CountIn(methods, x);
    }
    FindsExactlyWhenNamedOnce(candidates, methods, implements);
  }

  /** Two methods of one name, as unexported ones of two packages can be, make the index miss an interface. */
  lemma MissesRepeatedNames()
    ensures var c := Interface("i", ["m", "m"]);
            Naive([c], Found(["m", "m"], (x: Interface) => true)) != Naive([c], (x: Interface) => true)
  {
    var c := Interface("i", ["m", "m"]);
    var names := ["m", "m"];
    assert names[..1] == ["m"] && names[..1][..0] == [];
    assert Count(names, "m") == 2;
    assert Pairs(names[..1], names) == 2;
    assert Pairs(names, names) == 4;
    assert c in [c];
    FindsExactlyWhenHit([c], names, (x: Interface) => true);
  }
}
