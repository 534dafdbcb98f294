/**
 * The packages that an exported API names (indexer/export_api.go:11-126): a walk
 * over a cyclic graph of types, given as an arena of nodes.
 */
module ExportApi {
  import opened Common
  import opened Walks

  type Id = nat
  type Package = string

  datatype Method = Method(exported: bool, signature: Id)

  datatype Field = Field(exported: bool, embedded: bool, typ: Id)

  /** A type; Of stands for a pointer, a slice, an array or a channel of its element. */
  datatype TypeNode =
    | Basic
    | Named(package: Option<Package>, origin: Id, args: seq<Id>, params: seq<Id>, underlying: Id, methods: seq<Method>)
    | Alias(target: Id)
    | Of(elem: Id)
    | MapType(key: Id, elem: Id)
    | Signature(typeParams: seq<Id>, parameters: seq<Id>, results: seq<Id>)
    | Struct(fields: seq<Field>)
    | Interface(methods: seq<Method>, embeds: seq<Id>)
    | Union(terms: seq<Id>)
    | TypeParam(constraint: Id)

  /** The types of a load, the package they are walked for, and how deep each is written out up to the next name. */
  datatype World = World(types: map<Id, TypeNode>, own: Package, depth: map<Id, nat>)

  /** An embedded field exposes its selectors even where it is not exported. */
  function ExposedFields(fields: seq<Field>): seq<Id> {
    if fields == [] then [] else
      var n := |fields| - 1;
      ExposedFields(fields[..n]) + if fields[n].exported || fields[n].embedded then [fields[n].typ] else []
  }

  function ExposedMethods(methods: seq<Method>): seq<Id> {
    if methods == [] then [] else
      var n := |methods| - 1;
      ExposedMethods(methods[..n]) + if methods[n].exported then [methods[n].signature] else []
  }

  /** The types that a type is written with. */
  function Written(t: TypeNode): seq<Id> {
    match t
    case Basic => []
    case Named(_, _, args, _, _, _) => args
    case Alias(target) => [target]
    case Of(elem) => [elem]
    case MapType(key, elem) => [key, elem]
    case Signature(typeParams, parameters, results) => typeParams + parameters + results
    case Struct(fields) => ExposedFields(fields)
    case Interface(methods, embeds) => ExposedMethods(methods) + embeds
    case Union(terms) => terms
    case TypeParam(_) => []
  }

  /** What a type parameter, or one of the package's own named types, opens up. */
  function Body(t: TypeNode): seq<Id> {
    match t
    case TypeParam(constraint) => [constraint]
    case Named(_, _, _, params, underlying, methods) => params + [underlying] + ExposedMethods(methods)
    case _ => []
  }

  predicate Own(w: World, t: TypeNode) {
    t.Named? && t.package == Some(w.own)
  }

  /** The node whose body a type opens up, if any. */
  function Opens(w: World, id: Id): Option<Id>
    requires id in w.types
  {
    var t := w.types[id];
    if t.TypeParam? then Some(id) else if Own(w, t) then Some(t.origin) else None
  }

  /** Types are written out finitely up to the next named type, whose origin is of the same package. */
  ghost predicate WellFormed(w: World) {
    && w.depth.Keys == w.types.Keys
    && (forall id, c :: id in w.types && c in Written(w.types[id]) ==> c in w.types && w.depth[c] < w.depth[id])
    && (forall id, c :: id in w.types && c in Body(w.types[id]) ==> c in w.types)
    && (forall id :: id in w.types && w.types[id].Named? ==>
          w.types[id].origin in w.types && w.types[w.types[id].origin].Named? && w.types[w.types[id].origin].package == w.types[id].package)
  }

  /** What a type exposes: what it is written with, and the body it opens up. */
  function Exposes(w: World, id: Id): seq<Id> {
    if id !in w.types then [] else
      Written(w.types[id]) +
      match Opens(w, id)
      case None => []
      case Some(o) => if o in w.types then Body(w.types[o]) else []
  }

  ghost function Exposed(w: World): Id -> seq<Id> {
    (id: Id) => Exposes(w, id)
  }

  /** A type of another package that one of the roots exposes. */
  ghost predicate Names(w: World, roots: seq<Id>, p: Package) {
    exists r, x :: r in roots && Reaches(Exposed(w), r, x) && x in w.types && w.types[x].Named? && w.types[x].package == Some(p) && p != w.own
  }

  // ------------------------------------------------------------- the walk

  datatype State = State(seen: set<Id>, referenced: set<Package>)

  ghost predicate Extends(a: State, b: State) {
    a.seen <= b.seen && a.referenced <= b.referenced
  }

  /** The walk has been through the type: what it is written with, and what it opens up is seen. */
  ghost predicate Covered(w: World, st: State, id: Id)
    requires WellFormed(w) && id in w.types
    decreases w.depth[id]
  {
    var t := w.types[id];
    && (forall c :: c in Written(t) ==> Covered(w, st, c))
    && (t.Named? && t.package.Some? && t.package.value != w.own ==> t.package.value in st.referenced)
    && (Opens(w, id).Some? ==> Opens(w, id).value in st.seen)
  }

  ghost predicate AllCovered(w: World, st: State, ids: seq<Id>)
    requires WellFormed(w)
  {
    forall c :: c in ids ==> c in w.types && Covered(w, st, c)
  }

  /** The walk has been through the body of every node that was newly seen. */
  ghost predicate BodiesCovered(w: World, before: State, after: State)
    requires WellFormed(w)
  {
    forall s :: s in after.seen && s !in before.seen ==> s in w.types && AllCovered(w, after, Body(w.types[s]))
  }

  ghost predicate OnlyNamed(w: World, roots: seq<Id>, st: State) {
    && st.seen <= w.types.Keys
    && forall p :: p in st.referenced ==> Names(w, roots, p)
  }

  /** What a walk from one state to another has done. */
  ghost predicate Went(w: World, roots: seq<Id>, before: State, after: State)
    requires WellFormed(w)
  {
    Extends(before, after) && BodiesCovered(w, before, after) && OnlyNamed(w, roots, after)
  }

  ghost predicate FromRoots(w: World, roots: seq<Id>, ids: seq<Id>) {
    forall c :: c in ids ==> c in w.types && exists r :: r in roots && Reaches(Exposed(w), r, c)
  }

  lemma {:induction false} CoveredStays(w: World, a: State, b: State, id: Id)
    requires WellFormed(w) && id in w.types && Covered(w, a, id) && Extends(a, b)
    ensures Covered(w, b, id)
    decreases w.depth[id]
  {
    hide Written, Body;
    forall c | c in Written(w.types[id]) ensures Covered(w, b, c) {
      CoveredStays(w, a, b, c);
    }
  }

  lemma AllCoveredStay(w: World, a: State, b: State, ids: seq<Id>)
    requires WellFormed(w) && AllCovered(w, a, ids) && Extends(a, b)
    ensures AllCovered(w, b, ids)
  {
    forall c | c in ids ensures c in w.types && Covered(w, b, c) {
      CoveredStays(w, a, b, c);
    }
  }

  lemma WentStill(w: World, roots: seq<Id>, a: State)
    requires WellFormed(w) && OnlyNamed(w, roots, a)
    ensures Went(w, roots, a, a)
  {
  }

  lemma WentOn(w: World, roots: seq<Id>, a: State, b: State, c: State)
    requires WellFormed(w) && Went(w, roots, a, b) && Went(w, roots, b, c)
    ensures Went(w, roots, a, c)
  {
    hide Body, WellFormed, Covered;
    forall s | s in c.seen && s !in a.seen ensures s in w.types && AllCovered(w, c, Body(w.types[s])) {
      if s in b.seen {
        AllCoveredStay(w, b, c, Body(w.types[s]));
      }
    }
  }

  lemma CoverOne(w: World, roots: seq<Id>, before: State, middle: State, after: State, ids: seq<Id>, c: Id)
    requires WellFormed(w) && Went(w, roots, before, middle) && AllCovered(w, middle, ids)
    requires Went(w, roots, middle, after) && AllCovered(w, after, [c])
    ensures Went(w, roots, before, after) && AllCovered(w, after, ids + [c])
  {
    WentOn(w, roots, before, middle, after);
    AllCoveredStay(w, middle, after, ids);
    CoverBoth(w, after, ids, [c]);
  }

  lemma CoverMore(w: World, roots: seq<Id>, before: State, middle: State, after: State, ids: seq<Id>, more: seq<Id>)
    requires WellFormed(w) && Went(w, roots, before, middle) && AllCovered(w, middle, ids)
    requires Went(w, roots, middle, after) && AllCovered(w, after, more)
    ensures Went(w, roots, before, after) && AllCovered(w, after, ids + more)
  {
    WentOn(w, roots, before, middle, after);
    AllCoveredStay(w, middle, after, ids);
    CoverBoth(w, after, ids, more);
  }

  lemma CoverBoth(w: World, st: State, a: seq<Id>, b: seq<Id>)
    requires WellFormed(w) && AllCovered(w, st, a) && AllCovered(w, st, b)
    ensures AllCovered(w, st, a + b)
  {
    hide WellFormed, Covered;
  }

  lemma CoverNone(w: World, st: State)
    requires WellFormed(w)
    ensures AllCovered(w, st, [])
  {
  }

  function MaxDepth(w: World, ids: seq<Id>): (bound: nat)
    ensures forall c :: c in ids && c in w.depth ==> w.depth[c] < bound
  {
    if ids == [] then 0 else
      var n := |ids| - 1;
      var rest := MaxDepth(w, ids[..n]);
      assert ids == ids[..n] + [ids[n]];
      if ids[n] in w.depth && w.depth[ids[n]] >= rest then w.depth[ids[n]] + 1 else rest
  }

  ghost predicate Shallower(w: World, ids: seq<Id>, bound: nat) {
    forall c :: c in ids && c in w.depth ==> w.depth[c] < bound
  }

  /** What a reached type exposes is reached. */
  lemma ExposedFromRoots(w: World, roots: seq<Id>, id: Id)
    requires WellFormed(w) && FromRoots(w, roots, [id])
    ensures id in w.types && FromRoots(w, roots, Written(w.types[id])) && Shallower(w, Written(w.types[id]), w.depth[id])
    ensures Opens(w, id).Some? ==> Opens(w, id).value in w.types && FromRoots(w, roots, Body(w.types[Opens(w, id).value]))
  {
    hide Written, Body, Reaches, Exposed, WellFormed;
    var r := RootOf(w, roots, id);
    WrittenInTypes(w, id);
    assert Exposed(w)(id) == Exposes(w, id) by { ExposedIs(w, id); }
    forall c | c in Exposes(w, id) ensures Reaches(Exposed(w), r, c) {
      ReachesStep(Exposed(w), r, id, c);
    }
  }

  lemma RootOf(w: World, roots: seq<Id>, id: Id) returns (r: Id)
    requires FromRoots(w, roots, [id])
    ensures id in w.types && r in roots && Reaches(Exposed(w), r, id)
  {
    hide Reaches, Exposed;
    assert id in [id];
    r :| r in roots && Reaches(Exposed(w), r, id);
  }

  lemma ExposedIs(w: World, id: Id)
    ensures Exposed(w)(id) == Exposes(w, id)
  {
    hide Exposes;
  }

  lemma WrittenInTypes(w: World, id: Id)
    requires WellFormed(w) && id in w.types
    ensures forall c :: c in Written(w.types[id]) ==> c in w.types && c in w.depth && w.depth[c] < w.depth[id]
    ensures id in w.depth && (Opens(w, id).Some? ==> Opens(w, id).value in w.types)
    ensures Opens(w, id).Some? && Opens(w, id).value in w.types ==> forall c :: c in Body(w.types[Opens(w, id).value]) ==> c in w.types
  {
    hide Written, Body;
  }

  lemma FromRootsAt(w: World, roots: seq<Id>, ids: seq<Id>, i: nat)
    requires FromRoots(w, roots, ids) && i < |ids|
    ensures FromRoots(w, roots, [ids[i]]) && ids[i] in w.types
  {
    assert ids[i] in ids;
    hide Reaches, Exposed;
  }

  /** A type is covered once what it is written with is, its package recorded, and its body seen. */
  lemma CoveredWhole(w: World, st: State, id: Id)
    requires WellFormed(w) && id in w.types && AllCovered(w, st, Written(w.types[id]))
    requires w.types[id].Named? && w.types[id].package.Some? && w.types[id].package.value != w.own ==> w.types[id].package.value in st.referenced
    requires Opens(w, id).Some? ==> Opens(w, id).value in st.seen
    ensures AllCovered(w, st, [id]) && Covered(w, st, id)
  {
    hide Written, Body, Opens;
  }

  /** Marking a node as seen, then going through its body. */
  lemma WentThrough(w: World, roots: seq<Id>, before: State, marked: State, after: State, o: Id)
    requires WellFormed(w) && o in w.types && before.seen <= w.types.Keys
    requires marked == before.(seen := before.seen + {o}) && Went(w, roots, marked, after) && AllCovered(w, after, Body(w.types[o]))
    ensures Went(w, roots, before, after) && o in after.seen
  {
    hide Body, WellFormed, Covered;
  }

  class ApiWalker {
    const w: World
    var seen: set<Id>
    var referenced: set<Package>

    function St(): State
      reads this
    {
      State(seen, referenced)
    }

    constructor (w: World)
      ensures this.w == w && St() == State({}, {})
    {
      this.w, seen, referenced := w, {}, {};
    }

    method Walk(id: Id, ghost roots: seq<Id>)
      requires WellFormed(w) && OnlyNamed(w, roots, St()) && FromRoots(w, roots, [id]) && id in w.depth
      modifies this
      ensures Went(w, roots, old(St()), St()) && AllCovered(w, St(), [id])
      decreases w.types.Keys - seen, w.depth[id], 3
    {
      hide WellFormed, Went, AllCovered, OnlyNamed, FromRoots, Shallower, Written, Body, Opens, ExposedFields, ExposedMethods, MaxDepth;
      ExposedFromRoots(w, roots, id);
      var t := w.types[id];
      if t.Named? {
        NamedType(id, roots);
      } else if t.TypeParam? {
        WrittenIs(t);
        WentStill(w, roots, St());
        CoverNone(w, St());
        OpensIs(w, id);
        Open(id, id, roots);
        CoverNone(w, St());
        CoveredWhole(w, St(), id);
      } else {
        Parts(id, roots);
        OpensIs(w, id);
        CoveredWhole(w, St(), id);
      }
    }

    /** The types that an unnamed type is written with, in order. */
    method Parts(id: Id, ghost roots: seq<Id>)
      requires WellFormed(w) && OnlyNamed(w, roots, St()) && id in w.types && id in w.depth
      requires FromRoots(w, roots, Written(w.types[id])) && Shallower(w, Written(w.types[id]), w.depth[id])
      requires !w.types[id].Named? && !w.types[id].TypeParam?
      modifies this
      ensures Went(w, roots, old(St()), St()) && AllCovered(w, St(), Written(w.types[id]))
      decreases w.types.Keys - seen, w.depth[id], 2
    {
      hide WellFormed, Went, AllCovered, OnlyNamed, FromRoots, Shallower, Written, Body, Opens, ExposedFields, ExposedMethods, MaxDepth;
      ghost var bound := w.depth[id];
      WrittenIs(w.types[id]);
      WentStill(w, roots, St());
      CoverNone(w, St());
      match w.types[id]
      case Basic =>
      case Alias(target) => WalkAll([target], bound, roots);
      case Of(elem) => WalkAll([elem], bound, roots);
      case MapType(key, elem) => WalkAll([key, elem], bound, roots);
      case Signature(typeParams, parameters, results) =>
        ghost var before := St();
        assert typeParams + parameters + results == typeParams + (parameters + results);
        SplitFromRoots(w, roots, typeParams, parameters + results, bound);
        SplitFromRoots(w, roots, parameters, results, bound);
        WalkAll(typeParams, bound, roots);
        ghost var middle := St();
        WentNamed(w, roots, before, middle);
        WalkAll(parameters, bound, roots);
        CoverMore(w, roots, before, middle, St(), typeParams, parameters);
        ghost var last := St();
        WentNamed(w, roots, before, last);
        WalkAll(results, bound, roots);
        CoverMore(w, roots, before, last, St(), typeParams + parameters, results);
      case Struct(fields) => Fields(fields, bound, roots);
      case Interface(methods, embeds) =>
        ghost var before := St();
        SplitFromRoots(w, roots, ExposedMethods(methods), embeds, bound);
        Methods(methods, bound, roots);
        ghost var middle := St();
        WentNamed(w, roots, before, middle);
        WalkAll(embeds, bound, roots);
        CoverMore(w, roots, before, middle, St(), ExposedMethods(methods), embeds);
      case Union(terms) => WalkAll(terms, bound, roots);
    }

    /** Records another package's type, or descends once into one of the package's own. */
    method NamedType(id: Id, ghost roots: seq<Id>)
      requires WellFormed(w) && OnlyNamed(w, roots, St()) && id in w.types && id in w.depth && w.types[id].Named?
      requires FromRoots(w, roots, [id]) && FromRoots(w, roots, Written(w.types[id])) && Shallower(w, Written(w.types[id]), w.depth[id])
      requires Opens(w, id).Some? ==> Opens(w, id).value in w.types && FromRoots(w, roots, Body(w.types[Opens(w, id).value]))
      modifies this
      ensures Went(w, roots, old(St()), St()) && AllCovered(w, St(), [id])
      decreases w.types.Keys - seen, w.depth[id], 2
    {
      hide WellFormed, Went, AllCovered, OnlyNamed, FromRoots, Shallower, Written, Body, Opens, ExposedFields, ExposedMethods, MaxDepth;
      var t := w.types[id];
      ghost var before := St();
      WrittenIs(t);
      OpensIs(w, id);
      WalkAll(t.args, w.depth[id], roots);
      ghost var middle := St();
      WentNamed(w, roots, before, middle);
      if t.package.None? {
        CoveredWhole(w, St(), id);
        return;
      }
      if t.package.value != w.own {
        referenced := referenced + {t.package.value};
        Recorded(w, roots, id, middle, St());
        WentOn(w, roots, before, middle, St());
        ExtendsBy(w, roots, middle, St());
        AllCoveredStay(w, middle, St(), t.args);
        CoveredWhole(w, St(), id);
        return;
      }
      Open(id, t.origin, roots);
      WentOn(w, roots, before, middle, St());
      ExtendsBy(w, roots, middle, St());
      AllCoveredStay(w, middle, St(), t.args);
      CoveredWhole(w, St(), id);
    }

    /** Goes through the body of a type parameter or an own type, unless it is seen. */
    method Open(ghost id: Id, o: Id, ghost roots: seq<Id>)
      requires WellFormed(w) && OnlyNamed(w, roots, St()) && id in w.types && id in w.depth && Opens(w, id) == Some(o) && o in w.types
      requires w.types[o].Named? || w.types[o].TypeParam?
      requires FromRoots(w, roots, Body(w.types[o]))
      modifies this
      ensures Went(w, roots, old(St()), St()) && o in seen
      decreases w.types.Keys - seen, w.depth[id], 1
    {
      hide WellFormed, Went, AllCovered, OnlyNamed, FromRoots, Shallower, Written, Body, Opens, ExposedFields, ExposedMethods, MaxDepth;
      if o in seen {
        WentStill(w, roots, St());
        return;
      }
      ghost var before := St();
      SeenInTypes(w, roots, before);
      seen := seen + {o};
      ghost var marked := St();
      Marked(w, roots, before, marked, o);
      BodyIs(w.types[o]);
      ghost var bound := MaxDepth(w, Body(w.types[o]));
      ShallowerThanMax(w, Body(w.types[o]));
      assert w.types.Keys - seen < w.types.Keys - before.seen by { assert o in w.types.Keys - before.seen; }
      if w.types[o].TypeParam? {
        WalkAll([w.types[o].constraint], bound, roots);
      } else {
        var Named(_, _, _, params, underlying, methods) := w.types[o];
        assert params + [underlying] + ExposedMethods(methods) == params + ([underlying] + ExposedMethods(methods));
        SplitFromRoots(w, roots, params, [underlying] + ExposedMethods(methods), bound);
        SplitFromRoots(w, roots, [underlying], ExposedMethods(methods), bound);
        WalkAll(params, bound, roots);
        ghost var middle := St();
        WentNamed(w, roots, marked, middle);
        WalkAll([underlying], bound, roots);
        CoverMore(w, roots, marked, middle, St(), params, [underlying]);
        ghost var last := St();
        WentNamed(w, roots, marked, last);
        Methods(methods, bound, roots);
        CoverMore(w, roots, marked, last, St(), params + [underlying], ExposedMethods(methods));
      }
      WentThrough(w, roots, before, marked, St(), o);
    }

    method WalkAll(ids: seq<Id>, ghost bound: nat, ghost roots: seq<Id>)
      requires WellFormed(w) && OnlyNamed(w, roots, St()) && FromRoots(w, roots, ids) && Shallower(w, ids, bound)
      modifies this
      ensures Went(w, roots, old(St()), St()) && AllCovered(w, St(), ids)
      decreases w.types.Keys - seen, bound, 0
    {
      hide WellFormed, Went, AllCovered, OnlyNamed, FromRoots, Shallower, Written, Body, Opens, ExposedFields, ExposedMethods, MaxDepth;
      ghost var before := St();
      WentStill(w, roots, before);
      CoverNone(w, before);
      for i := 0 to |ids|
        invariant Went(w, roots, before, St()) && AllCovered(w, St(), ids[..i])
      {
        assert ids[..i + 1] == ids[..i] + [ids[i]];
        WentNamed(w, roots, before, St());
        FromRootsAt(w, roots, ids, i);
        ShallowerAt(w, ids, bound, i);
        ghost var middle := St();
        Walk(ids[i], roots);
        CoverOne(w, roots, before, middle, St(), ids[..i], ids[i]);
      }
      assert ids[..|ids|] == ids;
    }

    /** The types of the exported and of the embedded fields. */
    method Fields(fields: seq<Field>, ghost bound: nat, ghost roots: seq<Id>)
      requires WellFormed(w) && OnlyNamed(w, roots, St()) && FromRoots(w, roots, ExposedFields(fields)) && Shallower(w, ExposedFields(fields), bound)
      modifies this
      ensures Went(w, roots, old(St()), St()) && AllCovered(w, St(), ExposedFields(fields))
      decreases w.types.Keys - seen, bound, 0
    {
      hide WellFormed, Went, AllCovered, OnlyNamed, FromRoots, Shallower, Written, Body, Opens, ExposedFields, ExposedMethods, MaxDepth;
      ghost var before := St();
      WentStill(w, roots, before);
      NothingExposed(w, before);
      for i := 0 to |fields|
        invariant Went(w, roots, before, St()) && AllCovered(w, St(), ExposedFields(fields[..i]))
      {
        ghost var middle := St();
        WentNamed(w, roots, before, middle);
        FieldStep(w, roots, fields, bound, i);
        assert ExposedFields(fields[..i]) + [] == ExposedFields(fields[..i]);
        if fields[i].exported || fields[i].embedded {
          Walk(fields[i].typ, roots);
          CoverOne(w, roots, before, middle, St(), ExposedFields(fields[..i]), fields[i].typ);
        }
      }
      assert fields[..|fields|] == fields;
    }

    /** The signatures of the exported methods. */
    method Methods(methods: seq<Method>, ghost bound: nat, ghost roots: seq<Id>)
      requires WellFormed(w) && OnlyNamed(w, roots, St()) && FromRoots(w, roots, ExposedMethods(methods)) && Shallower(w, ExposedMethods(methods), bound)
      modifies this
      ensures Went(w, roots, old(St()), St()) && AllCovered(w, St(), ExposedMethods(methods))
      decreases w.types.Keys - seen, bound, 0
    {
      hide WellFormed, Went, AllCovered, OnlyNamed, FromRoots, Shallower, Written, Body, Opens, ExposedFields, ExposedMethods, MaxDepth;
      ghost var before := St();
      WentStill(w, roots, before);
      NothingExposed(w, before);
      for i := 0 to |methods|
        invariant Went(w, roots, before, St()) && AllCovered(w, St(), ExposedMethods(methods[..i]))
      {
        ghost var middle := St();
        WentNamed(w, roots, before, middle);
        MethodStep(w, roots, methods, bound, i);
        assert ExposedMethods(methods[..i]) + [] == ExposedMethods(methods[..i]);
        if methods[i].exported {
          Walk(methods[i].signature, roots);
          CoverOne(w, roots, before, middle, St(), ExposedMethods(methods[..i]), methods[i].signature);
        }
      }
      assert methods[..|methods|] == methods;
    }
  }

  lemma WrittenIs(t: TypeNode)
    ensures match t
            case Basic => Written(t) == []
            case Named(_, _, args, _, _, _) => Written(t) == args
            case Alias(target) => Written(t) == [target]
            case Of(elem) => Written(t) == [elem]
            case MapType(key, elem) => Written(t) == [key, elem]
            case Signature(typeParams, parameters, results) => Written(t) == typeParams + parameters + results
            case Struct(fields) => Written(t) == ExposedFields(fields)
            case Interface(methods, embeds) => Written(t) == ExposedMethods(methods) + embeds
            case Union(terms) => Written(t) == terms
            case TypeParam(_) => Written(t) == []
  {
  }

  lemma BodyIs(t: TypeNode)
    ensures t.TypeParam? ==> Body(t) == [t.constraint]
    ensures t.Named? ==> Body(t) == t.params + [t.underlying] + ExposedMethods(t.methods)
  {
  }

  lemma OpensIs(w: World, id: Id)
    requires WellFormed(w) && id in w.types
    ensures w.types[id].TypeParam? ==> Opens(w, id) == Some(id)
    ensures w.types[id].Named? ==> Opens(w, id) == if w.types[id].package == Some(w.own) then Some(w.types[id].origin) else None
    ensures w.types[id].Named? ==> w.types[id].origin in w.types && w.types[w.types[id].origin].Named?
    ensures !w.types[id].TypeParam? && !w.types[id].Named? ==> Opens(w, id) == None
  {
    hide Written, Body;
  }

  lemma SplitFromRoots(w: World, roots: seq<Id>, a: seq<Id>, b: seq<Id>, bound: nat)
    requires FromRoots(w, roots, a + b) && Shallower(w, a + b, bound)
    ensures FromRoots(w, roots, a) && FromRoots(w, roots, b) && Shallower(w, a, bound) && Shallower(w, b, bound)
  {
    hide Reaches, Exposed;
    forall c | c in a || c in b ensures c in a + b {
    }
  }

  lemma WentNamed(w: World, roots: seq<Id>, a: State, b: State)
    requires WellFormed(w) && Went(w, roots, a, b)
    ensures OnlyNamed(w, roots, b) && a.seen <= b.seen
  {
    hide WellFormed, OnlyNamed;
  }

  lemma ExtendsBy(w: World, roots: seq<Id>, a: State, b: State)
    requires WellFormed(w) && Went(w, roots, a, b)
    ensures Extends(a, b)
  {
    hide WellFormed, OnlyNamed;
  }

  lemma SeenInTypes(w: World, roots: seq<Id>, st: State)
    requires OnlyNamed(w, roots, st)
    ensures st.seen <= w.types.Keys
  {
    hide Names;
  }

  lemma Marked(w: World, roots: seq<Id>, before: State, marked: State, o: Id)
    requires OnlyNamed(w, roots, before) && o in w.types && marked == before.(seen := before.seen + {o})
    ensures OnlyNamed(w, roots, marked)
  {
    hide Names;
  }

  /** Recording the package of a reached type of another package. */
  lemma Recorded(w: World, roots: seq<Id>, id: Id, before: State, after: State)
    requires WellFormed(w) && OnlyNamed(w, roots, before) && FromRoots(w, roots, [id]) && id in w.types && w.types[id].Named?
    requires w.types[id].package.Some? && w.types[id].package.value != w.own
    requires after == before.(referenced := before.referenced + {w.types[id].package.value})
    ensures Went(w, roots, before, after)
  {
    hide WellFormed, Reaches, Exposed, Covered, FromRoots;
    var r := RootOf(w, roots, id);
    assert Names(w, roots, w.types[id].package.value);
  }

  lemma ShallowerThanMax(w: World, ids: seq<Id>)
    ensures Shallower(w, ids, MaxDepth(w, ids))
  {
    hide MaxDepth;
  }

  lemma ShallowerAt(w: World, ids: seq<Id>, bound: nat, i: nat)
    requires WellFormed(w) && Shallower(w, ids, bound) && i < |ids| && ids[i] in w.types
    ensures ids[i] in w.depth && w.depth[ids[i]] < bound
  {
    assert ids[i] in ids;
    hide Written, Body;
  }

  lemma NothingExposed(w: World, st: State)
    requires WellFormed(w)
    ensures AllCovered(w, st, ExposedFields([])) && AllCovered(w, st, ExposedMethods([]))
  {
  }

  lemma {:induction false} ExposedFieldIn(fields: seq<Field>, i: nat)
    requires i < |fields| && (fields[i].exported || fields[i].embedded)
    ensures fields[i].typ in ExposedFields(fields)
  {
    if i < |fields| - 1 {
      ExposedFieldIn(fields[..|fields| - 1], i);
    }
  }

  lemma {:induction false} ExposedMethodIn(methods: seq<Method>, i: nat)
    requires i < |methods| && methods[i].exported
    ensures methods[i].signature in ExposedMethods(methods)
  {
    if i < |methods| - 1 {
      ExposedMethodIn(methods[..|methods| - 1], i);
    }
  }

  lemma MemberFromRoots(w: World, roots: seq<Id>, ids: seq<Id>, bound: nat, c: Id)
    requires WellFormed(w) && FromRoots(w, roots, ids) && Shallower(w, ids, bound) && c in ids
    ensures FromRoots(w, roots, [c]) && c in w.types && c in w.depth && w.depth[c] < bound
  {
    DepthOf(w, c);
    hide WellFormed, Reaches, Exposed;
  }

  lemma DepthOf(w: World, id: Id)
    requires WellFormed(w)
    ensures id in w.types <==> id in w.depth
  {
    hide Written, Body;
    assert w.depth.Keys == w.types.Keys;
  }

  lemma FieldStep(w: World, roots: seq<Id>, fields: seq<Field>, bound: nat, i: nat)
    requires WellFormed(w) && FromRoots(w, roots, ExposedFields(fields)) && Shallower(w, ExposedFields(fields), bound) && i < |fields|
    ensures ExposedFields(fields[..i + 1]) == ExposedFields(fields[..i]) + if fields[i].exported || fields[i].embedded then [fields[i].typ] else []
    ensures fields[i].exported || fields[i].embedded ==>
      FromRoots(w, roots, [fields[i].typ]) && fields[i].typ in w.depth && w.depth[fields[i].typ] < bound
  {
    assert fields[..i + 1][..i] == fields[..i];
    hide FromRoots, Shallower, WellFormed;
    if fields[i].exported || fields[i].embedded {
      ExposedFieldIn(fields, i);
      MemberFromRoots(w, roots, ExposedFields(fields), bound, fields[i].typ);
    }
  }

  lemma MethodStep(w: World, roots: seq<Id>, methods: seq<Method>, bound: nat, i: nat)
    requires WellFormed(w) && FromRoots(w, roots, ExposedMethods(methods)) && Shallower(w, ExposedMethods(methods), bound) && i < |methods|
    ensures ExposedMethods(methods[..i + 1]) == ExposedMethods(methods[..i]) + if methods[i].exported then [methods[i].signature] else []
    ensures methods[i].exported ==>
      FromRoots(w, roots, [methods[i].signature]) && methods[i].signature in w.depth && w.depth[methods[i].signature] < bound
  {
    assert methods[..i + 1][..i] == methods[..i];
    hide FromRoots, Shallower, WellFormed;
    if methods[i].exported {
      ExposedMethodIn(methods, i);
      MemberFromRoots(w, roots, ExposedMethods(methods), bound, methods[i].signature);
    }
  }

  // -------------------------------------------------------- what is found

  ghost function IsCovered(w: World, st: State): Id -> bool
    requires WellFormed(w)
  {
    (id: Id) => id in w.types && Covered(w, st, id)
  }

  /** Once every seen body is covered, whatever a covered type exposes is covered. */
  lemma CoveredExposes(w: World, st: State, x: Id, y: Id)
    requires WellFormed(w) && BodiesCovered(w, State({}, {}), st) && x in w.types && Covered(w, st, x) && y in Exposed(w)(x)
    ensures y in w.types && Covered(w, st, y)
  {
    WrittenInTypes(w, x);
    hide WellFormed, Written, Body, Opens;
    if y !in Written(w.types[x]) {
      var o := Opens(w, x).value;
      assert o in st.seen;
      assert AllCovered(w, st, Body(w.types[o]));
    }
  }

  lemma ReachedIsCovered(w: World, st: State, r: Id, x: Id)
    requires WellFormed(w) && BodiesCovered(w, State({}, {}), st) && r in w.types && Covered(w, st, r) && Reaches(Exposed(w), r, x)
    ensures x in w.types && Covered(w, st, x)
  {
    hide WellFormed, Covered, BodiesCovered, Exposed;
    var walk :| IsWalkFromTo(Exposed(w), walk, r, x);
    forall a, b | IsCovered(w, st)(a) && b in Exposed(w)(a) ensures IsCovered(w, st)(b) {
      CoveredExposes(w, st, a, b);
    }
    WalkStaysInside(Exposed(w), IsCovered(w, st), walk, |walk| - 1);
  }

  lemma CoveredIsReferenced(w: World, st: State, x: Id, p: Package)
    requires WellFormed(w) && x in w.types && Covered(w, st, x)
    requires w.types[x].Named? && w.types[x].package == Some(p) && p != w.own
    ensures p in st.referenced
  {
    hide WellFormed, Written;
  }

  lemma AllNamedAreFound(w: World, exported: seq<Id>, st: State, p: Package)
    requires WellFormed(w) && BodiesCovered(w, State({}, {}), st) && AllCovered(w, st, exported) && Names(w, exported, p)
    ensures p in st.referenced
  {
    hide WellFormed, Covered, BodiesCovered, Exposed, Reaches;
    var r, x :| r in exported && Reaches(Exposed(w), r, x) && x in w.types && w.types[x].Named? && w.types[x].package == Some(p) && p != w.own;
    ReachedIsCovered(w, st, r, x);
    CoveredIsReferenced(w, st, x, p);
  }

  lemma WentParts(w: World, roots: seq<Id>, st: State)
    requires WellFormed(w) && Went(w, roots, State({}, {}), st)
    ensures BodiesCovered(w, State({}, {}), st) && forall p :: p in st.referenced ==> Names(w, roots, p)
  {
    hide WellFormed, BodiesCovered, Names;
  }

  lemma RootsAreReached(w: World, exported: seq<Id>)
    requires forall r :: r in exported ==> r in w.types
    ensures FromRoots(w, exported, exported)
  {
    hide Exposed, Reaches;
    forall r | r in exported ensures Reaches(Exposed(w), r, r) {
      ReachesSelf(Exposed(w), r);
    }
  }

  lemma NothingNamed(w: World, roots: seq<Id>)
    ensures OnlyNamed(w, roots, State({}, {}))
  {
  }

  /**
   * The other packages whose named types the exported types expose, over any
   * number of fields, elements, signatures, constraints and type arguments, and
   * through the package's own named types, however these refer to each other.
   */
  method ApiReferences(w: World, exported: seq<Id>) returns (referenced: set<Package>)
    requires WellFormed(w) && forall r :: r in exported ==> r in w.types
    ensures forall p :: p in referenced <==> Names(w, exported, p)
  {
    hide WellFormed, Went, AllCovered, OnlyNamed, FromRoots, Shallower, MaxDepth, Names, BodiesCovered;
    var walker := new ApiWalker(w);
    RootsAreReached(w, exported);
    NothingNamed(w, exported);
    ShallowerThanMax(w, exported);
    walker.WalkAll(exported, MaxDepth(w, exported), exported);
    referenced := walker.referenced;
    WentParts(w, exported, walker.St());
    forall p | Names(w, exported, p) ensures p in referenced {
      AllNamedAreFound(w, exported, walker.St(), p);
    }
  }
}
