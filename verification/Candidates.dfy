/**
 * Which interfaces a load's types are related to (indexer/implements.go:84-160):
 * a walk over imports that does not pass through another module's workspace.
 */
module Candidates {
  import opened Common
  import opened Walks

  type PackageId = string
  type InterfaceId = string

  /** Where a package is from; a sibling is a workspace package of another module. */
  datatype Origin = Root | Keyed | ShapedSibling | Other

  /** A package-level interface that is non-empty, non-generic and a method set. */
  datatype Interface = Interface(id: InterfaceId, exported: bool, exportedMethods: bool)

  datatype Package = Package(origin: Origin, imports: seq<PackageId>, interfaces: seq<Interface>)

  type Load = map<PackageId, Package>

  /** The root's own interfaces are all admitted, exported ones of keyed packages, and of shaped siblings those with only exported methods. */
  predicate Admits(origin: Origin, i: Interface) {
    match origin
    case Root => true
    case Keyed => i.exported
    case ShapedSibling => i.exported && i.exportedMethods
    case Other => false
  }

  function Admitted(origin: Origin, interfaces: seq<Interface>): seq<InterfaceId> {
    if interfaces == [] then [] else
      var n := |interfaces| - 1;
      Admitted(origin, interfaces[..n]) + if Admits(origin, interfaces[n]) then [interfaces[n].id] else []
  }

  /** The walk goes on to the imports of the root's packages and of keyed ones. */
  function NextOf(l: Load, p: PackageId): seq<PackageId> {
    if p in l && (l[p].origin.Root? || l[p].origin.Keyed?) then l[p].imports else []
  }

  ghost function Next(l: Load): PackageId -> seq<PackageId> {
    (p: PackageId) => NextOf(l, p)
  }

  ghost predicate Complete(l: Load) {
    forall p, q :: p in l && q in l[p].imports ==> q in l
  }

  ghost predicate Reached(l: Load, roots: seq<PackageId>, p: PackageId) {
    exists r :: r in roots && Reaches(Next(l), r, p)
  }

  /** The interfaces of the packages, in the order of the packages. */
  function InterfacesOf(l: Load, order: seq<PackageId>): seq<InterfaceId> {
    if order == [] then [] else
      var n := |order| - 1;
      InterfacesOf(l, order[..n]) + if order[n] in l then Admitted(l[order[n]].origin, l[order[n]].interfaces) else []
  }

  /** Each package is visited once, was reached, and its admitted interfaces are candidates. */
  ghost predicate Walked(l: Load, roots: seq<PackageId>, visited: set<PackageId>, order: seq<PackageId>, candidates: seq<InterfaceId>) {
    && visited <= l.Keys
    && Distinct(order) && (forall p :: p in order <==> p in visited)
    && candidates == InterfacesOf(l, order)
    && forall p :: p in visited ==> Reached(l, roots, p)
  }

  lemma WalkedOn(l: Load, roots: seq<PackageId>, visited: set<PackageId>, order: seq<PackageId>, candidates: seq<InterfaceId>, p: PackageId)
    requires Walked(l, roots, visited, order, candidates) && p in l && p !in visited && Reached(l, roots, p)
    ensures Walked(l, roots, visited + {p}, order + [p], candidates + Admitted(l[p].origin, l[p].interfaces))
  {
    hide Reached, Admitted;
    assert (order + [p])[..|order|] == order;
  }

  lemma WalkedInside(l: Load, roots: seq<PackageId>, visited: set<PackageId>, order: seq<PackageId>, candidates: seq<InterfaceId>)
    requires Walked(l, roots, visited, order, candidates)
    ensures visited <= l.Keys
  {
  }

  class CandidateWalk {
    const l: Load
    var visited: set<PackageId>
    var candidates: seq<InterfaceId>
    ghost var order: seq<PackageId>

    ghost predicate Valid(roots: seq<PackageId>)
      reads this
    {
      Complete(l) && Walked(l, roots, visited, order, candidates)
    }

    constructor (l: Load)
      requires Complete(l)
      ensures this.l == l && visited == {} && candidates == [] && order == []
      ensures forall roots :: Valid(roots)
    {
      this.l, visited, candidates, order := l, {}, [], [];
    }

    method Visit(p: PackageId, ghost roots: seq<PackageId>, ghost open: set<PackageId>)
      requires Valid(roots) && p in l && Reached(l, roots, p) && ClosedBut(Next(l), visited, open)
      modifies this
      ensures Valid(roots) && old(visited) <= visited && p in visited && ClosedBut(Next(l), visited, open)
      decreases l.Keys - visited
    {
      hide Reached, Next, Reaches, Admitted, ClosedBut, Distinct, InterfacesOf, Walked;
      WalkedInside(l, roots, visited, order, candidates);
      if p in visited {
        return;
      }
      OpenOne(Next(l), visited, open, p);
      WalkedOn(l, roots, visited, order, candidates, p);
      ghost var was := visited;
      visited, order := visited + {p}, order + [p];
      assert p in l.Keys - was;
      candidates := candidates + Admitted(l[p].origin, l[p].interfaces);
      NextIs(l, p);
      if l[p].origin.ShapedSibling? || l[p].origin.Other? {
        CloseOne(Next(l), visited, open, p);
        return;
      }
      var imports := l[p].imports;
      for i := 0 to |imports|
        invariant Valid(roots) && was + {p} <= visited && ClosedBut(Next(l), visited, open + {p})
        invariant forall k :: 0 <= k < i ==> imports[k] in visited
      {
        ReachedOn(l, roots, p, imports[i]);
        Visit(imports[i], roots, open + {p});
      }
      CloseOne(Next(l), visited, open, p);
    }
  }

  /** An interface that some package reached from the variants has, and that is admitted from there. */
  ghost predicate Candidate(l: Load, variants: seq<PackageId>, id: InterfaceId) {
    exists p :: p in l && Reached(l, variants, p) && id in Admitted(l[p].origin, l[p].interfaces)
  }

  lemma {:induction false} ListedFromOrder(l: Load, order: seq<PackageId>, id: InterfaceId)
    ensures id in InterfacesOf(l, order) <==> exists p :: p in order && p in l && id in Admitted(l[p].origin, l[p].interfaces)
  {
    hide Admitted;
    if order != [] {
      var n := |order| - 1;
      ListedFromOrder(l, order[..n], id);
      assert order == order[..n] + [order[n]];
    }
  }

  lemma ListedAreCandidates(l: Load, variants: seq<PackageId>, order: seq<PackageId>, id: InterfaceId)
    requires forall p :: p in order <==> Reached(l, variants, p)
    ensures id in InterfacesOf(l, order) <==> Candidate(l, variants, id)
  {
    hide Admitted, Reached, InterfacesOf;
    ListedFromOrder(l, order, id);
  }

  lemma NextIs(l: Load, p: PackageId)
    requires p in l
    ensures Next(l)(p) == if l[p].origin.Root? || l[p].origin.Keyed? then l[p].imports else []
  {
  }

  lemma ReachedOn(l: Load, roots: seq<PackageId>, p: PackageId, q: PackageId)
    requires Reached(l, roots, p) && q in Next(l)(p)
    ensures Reached(l, roots, q)
  {
    hide Next, Reaches;
    var r :| r in roots && Reaches(Next(l), r, p);
    ReachesStep(Next(l), r, p, q);
  }

  lemma ClosedHasAllReached(l: Load, visited: set<PackageId>, roots: seq<PackageId>, p: PackageId)
    requires ClosedBut(Next(l), visited, {}) && (forall r :: r in roots ==> r in visited) && Reached(l, roots, p)
    ensures p in visited
  {
    hide Next, ClosedBut, Reaches;
    var r :| r in roots && Reaches(Next(l), r, p);
    ClosedHasReached(Next(l), visited, r, p);
  }

  /**
   * The candidates are the admitted interfaces of exactly the packages that the
   * variants reach without passing through a sibling, each package's once.
   */
  method CandidateInterfaces(l: Load, variants: seq<PackageId>) returns (candidates: seq<InterfaceId>, ghost order: seq<PackageId>)
    requires Complete(l) && forall v :: v in variants ==> v in l
    ensures forall id :: id in candidates <==> Candidate(l, variants, id)
    ensures candidates == InterfacesOf(l, order) && Distinct(order)
    ensures forall p :: p in order <==> Reached(l, variants, p)
  {
    var walk := new CandidateWalk(l);
    hide Reached, Next, Reaches, Admitted, InterfacesOf, Walked, ClosedBut, Candidate, Distinct;
    WalkStarts(l);
    for i := 0 to |variants|
      invariant fresh(walk) && walk.l == l && walk.Valid(variants) && ClosedBut(Next(l), walk.visited, {})
      invariant forall k :: 0 <= k < i ==> variants[k] in walk.visited
    {
      VariantReached(l, variants, i);
      assert variants[i] in variants;
      walk.Visit(variants[i], variants, {});
    }
    candidates, order := walk.candidates, walk.order;
    WalkFinishes(l, variants, walk.visited, order, candidates);
  }

  lemma WalkStarts(l: Load)
    ensures ClosedBut(Next(l), {}, {})
  {
  }

  lemma WalkFinishes(l: Load, variants: seq<PackageId>, visited: set<PackageId>, order: seq<PackageId>, candidates: seq<InterfaceId>)
    requires Walked(l, variants, visited, order, candidates) && ClosedBut(Next(l), visited, {}) && forall v :: v in variants ==> v in visited
    ensures candidates == InterfacesOf(l, order) && Distinct(order)
    ensures forall p :: p in order <==> Reached(l, variants, p)
    ensures forall id :: id in candidates <==> Candidate(l, variants, id)
  {
    hide Reached, ClosedBut, InterfacesOf, Candidate, Distinct;
    forall p | Reached(l, variants, p) ensures p in order {
      ClosedHasAllReached(l, visited, variants, p);
    }
    forall id ensures id in candidates <==> Candidate(l, variants, id) {
      ListedAreCandidates(l, variants, order, id);
    }
  }

  lemma VariantReached(l: Load, variants: seq<PackageId>, i: nat)
    requires i < |variants|
    ensures Reached(l, variants, variants[i])
  {
    hide Next, Reaches;
    ReachesSelf(Next(l), variants[i]);
    assert variants[i] in variants;
  }

  lemma {:induction false} AdmittedAre(origin: Origin, interfaces: seq<Interface>, id: InterfaceId)
    ensures id in Admitted(origin, interfaces) <==> exists i :: i in interfaces && i.id == id && Admits(origin, i)
  {
    if interfaces != [] {
      var n := |interfaces| - 1;
      AdmittedAre(origin, interfaces[..n], id);
      assert interfaces == interfaces[..n] + [interfaces[n]];
    }
  }

  /**
   * An interface is a candidate exactly when a package that has it is reached, and is the
   * root's, or exports it and is keyed, or is a shaped sibling and exports its methods
   * too.
   */
  lemma CandidateExactly(l: Load, variants: seq<PackageId>, id: InterfaceId)
    ensures Candidate(l, variants, id) <==>
      exists p, i :: p in l && Reached(l, variants, p) && i in l[p].interfaces && i.id == id
        && (l[p].origin.Root? || (i.exported && (l[p].origin.Keyed? || (l[p].origin.ShapedSibling? && i.exportedMethods))))
  {
    hide Reached, Admitted;
    forall p | p in l ensures id in Admitted(l[p].origin, l[p].interfaces) <==>
      exists i :: i in l[p].interfaces && i.id == id && Admits(l[p].origin, i)
    {
      AdmittedAre(l[p].origin, l[p].interfaces, id);
    }
  }
}
