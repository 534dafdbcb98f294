/**
 * Export shapes over exported APIs (indexer/export_api.go:18-34,
 * indexer/export_shape.go:93-143): the packages a proven package is keyed by are
 * those that its exported types name, sorted by path.
 */
module ApiShape {
  import opened Common
  import opened ExportApi
  import opened ExportShape
  import opened Sorting
  import opened Walks

  /** The exported types of a package, within the types of its load. */
  datatype Api = Api(world: World, exported: seq<Id>)

  ghost predicate ValidApi(api: Api) {
    WellFormed(api.world) && forall r :: r in api.exported ==> r in api.world.types
  }

  /** A strict order of paths that tells any two apart. */
  ghost predicate PathOrder(less: (Path, Path) -> bool) {
    StrictOrder(less) && forall p, q :: p == q || less(p, q) || less(q, p)
  }

  function ByPath(less: (Path, Path) -> bool): (Import, Import) -> bool {
    (i: Import, j: Import) => less(i.path, j.path)
  }

  /** The references list exactly the packages that the exported types name, sorted by path. */
  ghost predicate References(api: Api, pathOf: PackageId -> Path, less: (Path, Path) -> bool, references: seq<Import>) {
    && Ascending(references, ByPath(less))
    && forall i :: i in references <==> Names(api.world, api.exported, i.package) && i.path == pathOf(i.package)
  }

  lemma ByPathIsStrict(less: (Path, Path) -> bool)
    requires PathOrder(less)
    ensures StrictOrder(ByPath(less))
  {
    var sooner := ByPath(less);
    forall i ensures !sooner(i, i) {
      assert !less(i.path, i.path);
    }
    forall i, j, k | sooner(i, j) && sooner(j, k) ensures sooner(i, k) {
      assert less(i.path, j.path) && less(j.path, k.path);
    }
  }

  /** No two packages that an API names have one path. */
  ghost predicate PathsApart(api: Api, pathOf: PackageId -> Path) {
    forall p, q :: Names(api.world, api.exported, p) && Names(api.world, api.exported, q) && pathOf(p) == pathOf(q) ==> p == q
  }

  lemma ImportsCompare(imports: seq<Import>, less: (Path, Path) -> bool)
    requires PathOrder(less) && DistinctPaths(imports)
    ensures Comparable(imports, ByPath(less))
  {
    forall i, j | 0 <= i < j < |imports| ensures ByPath(less)(imports[i], imports[j]) || ByPath(less)(imports[j], imports[i]) {
      assert imports[i].path == imports[j].path || less(imports[i].path, imports[j].path) || less(imports[j].path, imports[i].path);
    }
  }

  /** Collects the packages the walk found, in no particular order, and sorts them by path. */
  method ReferencesOf(api: Api, pathOf: PackageId -> Path, less: (Path, Path) -> bool) returns (references: seq<Import>)
    requires ValidApi(api) && PathOrder(less) && PathsApart(api, pathOf)
    ensures References(api, pathOf, less, references)
  {
    hide WellFormed, Names, PathOrder;
    var named := ApiReferences(api.world, api.exported);
    var left := named;
    var collected: seq<Import> := [];
    while left != {}
      invariant left <= named
      invariant forall i :: i in collected <==> i.package in named - left && i.path == pathOf(i.package)
      invariant DistinctPaths(collected)
      decreases |left|
    {
      var p :| p in left;
      forall i | i in collected ensures i.path != pathOf(p) {
        assert Names(api.world, api.exported, p) && Names(api.world, api.exported, i.package);
      }
      assert forall i :: 0 <= i < |collected| ==> collected[i] in collected;
      collected := collected + [Import(pathOf(p), p)];
      left := left - {p};
    }
    ImportsCompare(collected, less);
    ByPathIsStrict(less);
    SortedSorts(collected, ByPath(less));
    hide Ascending, Sorted;
    references := Sorted(collected, ByPath(less));
  }

  /** An API and the paths of the packages it names determine its references. */
  lemma ReferencesDetermined(api: Api, a: PackageId -> Path, b: PackageId -> Path, less: (Path, Path) -> bool, r: seq<Import>, s: seq<Import>)
    requires PathOrder(less) && References(api, a, less, r) && References(api, b, less, s)
    requires forall p :: Names(api.world, api.exported, p) ==> a(p) == b(p)
    ensures r == s
  {
    hide Names;
    ByPathIsStrict(less);
    AscendingIsUnique(r, s, ByPath(less));
  }

  // --------------------------------------------------- loads read from APIs

  ghost function PathIn(l: Load): PackageId -> Path {
    (p: PackageId) => if p in l.packages then l.packages[p].path else ""
  }

  ghost predicate Proven(l: Load, p: PackageId) {
    p in l.packages && l.packages[p].class_.Workspace? && l.packages[p].proven
  }

  /** The references of every proven package are read from its API. */
  ghost predicate ReadFrom(l: Load, apis: map<PackageId, Api>, less: (Path, Path) -> bool) {
    forall p :: Proven(l, p) ==> p in apis && References(apis[p], PathIn(l), less, l.packages[p].references)
  }

  /** A proven package is keyed by exactly the packages that its exported types name. */
  lemma KeyedIsNamed(l: Load, apis: map<PackageId, Api>, less: (Path, Path) -> bool, p: PackageId, q: PackageId)
    requires ReadFrom(l, apis, less) && Proven(l, p)
    ensures q in Keyed(l)(p) <==> Names(apis[p].world, apis[p].exported, q)
  {
    hide Names, Ascending;
    var references := l.packages[p].references;
    assert References(apis[p], PathIn(l), less, references);
    if q in Keyed(l)(p) {
      var i :| 0 <= i < |references| && Packages(references)[i] == q;
      assert references[i] in references;
    }
    if Names(apis[p].world, apis[p].exported, q) {
      var i :| 0 <= i < |references| && references[i] == Import(PathIn(l)(q), q);
      assert Packages(references)[i] == q;
    }
  }

  /** What is read of a package itself: its API when it is proven, its files and imports when not. */
  ghost predicate SameSources(a: Load, b: Load, apisA: map<PackageId, Api>, apisB: map<PackageId, Api>, p: PackageId) {
    && p in a.packages && p in b.packages && a.toolchain == b.toolchain
    && var x, y := a.packages[p], b.packages[p];
    && x.path == y.path && x.class_ == y.class_ && x.proven == y.proven
    && (x.class_.Workspace? ==>
          if x.proven then x.pairs == y.pairs && p in apisA && p in apisB && apisA[p] == apisB[p]
          else x.files == y.files && x.imports == y.imports)
  }

  lemma SameSourcesSameKeyed(a: Load, b: Load, apisA: map<PackageId, Api>, apisB: map<PackageId, Api>, less: (Path, Path) -> bool, p: PackageId)
    requires PathOrder(less) && ReadFrom(a, apisA, less) && ReadFrom(b, apisB, less) && SameSources(a, b, apisA, apisB, p)
    requires forall q :: q in Keyed(a)(p) ==> SameSources(a, b, apisA, apisB, q)
    ensures SameKeyed(a, b, p)
  {
    hide Names, References, PathOrder;
    if Proven(a, p) {
      var api := apisA[p];
      forall q | Names(api.world, api.exported, q) ensures PathIn(a)(q) == PathIn(b)(q) {
        KeyedIsNamed(a, apisA, less, p, q);
        assert SameSources(a, b, apisA, apisB, q);
      }
      assert Proven(b, p);
      ReferencesDetermined(api, PathIn(a), PathIn(b), less, a.packages[p].references, b.packages[p].references);
    }
  }

  /**
   * A shape depends on nothing but the APIs of the proven packages, and the files and
   * imports of the unproven ones, that its API names or its imports reach.
   */
  lemma ShapeDependsOnApis(a: Load, b: Load, apisA: map<PackageId, Api>, apisB: map<PackageId, Api>, less: (Path, Path) -> bool, p: PackageId)
    requires Acyclic(a) && Acyclic(b) && p in a.packages && p in b.packages
    requires PathOrder(less) && ReadFrom(a, apisA, less) && ReadFrom(b, apisB, less)
    requires forall x :: Reaches(Keyed(a), p, x) ==> SameSources(a, b, apisA, apisB, x)
    ensures ShapeOf(a, p) == ShapeOf(b, p)
  {
    hide Acyclic, PathOrder, ReadFrom, SameSources, SameKeyed, ShapeOf;
    forall x | Reaches(Keyed(a), p, x) ensures SameKeyed(a, b, x) {
      forall q | q in Keyed(a)(x) ensures SameSources(a, b, apisA, apisB, q) {
        ReachesStep(Keyed(a), p, x, q);
      }
      SameSourcesSameKeyed(a, b, apisA, apisB, less, x);
    }
    ShapeDependsOnKeyed(a, b, p);
  }
}
