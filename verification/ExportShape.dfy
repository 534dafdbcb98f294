/**
 * Export shapes of the packages of a load (indexer/export_shape.go:49-192): a
 * memoised recursion over imports and API references, and what a shape depends on.
 */
module ExportShape {
  import opened Common
  import opened Walks

  type PackageId = string
  type Path = string

  datatype Class = Standard | Module(modulePath: string, version: string) | Unresolved | Workspace

  datatype Import = Import(path: Path, package: PackageId)

  /**
   * A loaded package: its class, whether its exported API is proven, its exported
   * (symbol id, API shape) pairs, its files with their content hashes, its imports
   * by path, and by path the packages whose types its exported API names.
   */
  datatype Package = Package(
    path: Path,
    class_: Class,
    proven: bool,
    pairs: seq<(string, string)>,
    files: seq<(string, string)>,
    imports: seq<Import>,
    references: seq<Import>
  )

  /** A digest is told apart by what is fed to it; import hashes are fed in sorted order. */
  datatype Shape =
    | StandardShape(toolchain: string)
    | ModuleShape(modulePath: string, version: string, toolchain: string)
    | UnresolvedShape(path: Path)
    | ApiShape(pairs: seq<(string, string)>, referenced: seq<ImportShape>)
    | UnprovenShape(path: Path, files: seq<(string, string)>, imports: multiset<Shape>)

  datatype ImportShape = ImportShape(path: Path, shape: Shape)

  /** Imports do not form cycles: each package has a level above those it imports and names. */
  datatype Load = Load(packages: map<PackageId, Package>, toolchain: string, level: map<PackageId, nat>)

  /** Each package lies above what it imports, by one path each, and above what its API names. */
  ghost predicate Acyclic(l: Load) {
    && l.level.Keys == l.packages.Keys
    && forall p :: p in l.packages ==>
         Below(l, p, l.packages[p].imports) && Below(l, p, l.packages[p].references) && DistinctPaths(l.packages[p].imports)
  }

  ghost predicate Below(l: Load, p: PackageId, imports: seq<Import>) {
    p in l.level && forall i :: 0 <= i < |imports| ==>
      imports[i].package in l.packages && imports[i].package in l.level && l.level[imports[i].package] < l.level[p]
  }

  ghost predicate DistinctPaths(imports: seq<Import>) {
    DistinctBy(imports, (i: Import) => i.path)
  }

  /** The shape of a package, by plain recursion. */
  ghost function ShapeOf(l: Load, p: PackageId): Shape
    requires Acyclic(l) && p in l.packages
    decreases l.level[p], 1
  {
    var pkg := l.packages[p];
    match pkg.class_
    case Standard => StandardShape(l.toolchain)
    case Module(modulePath, version) => ModuleShape(modulePath, version, l.toolchain)
    case Unresolved => UnresolvedShape(pkg.path)
    case Workspace =>
      if pkg.proven then ApiShape(pkg.pairs, ShapesOf(l, p, pkg.references))
      else UnprovenShape(pkg.path, pkg.files, multiset(HashesOf(ShapesOf(l, p, pkg.imports))))
  }

  /** The shapes that packages below p present. */
  ghost function ShapesOf(l: Load, p: PackageId, imports: seq<Import>): seq<ImportShape>
    requires Acyclic(l) && p in l.packages && Below(l, p, imports)
    decreases l.level[p], 0
  {
    seq(|imports|, i requires 0 <= i < |imports| => ImportShape(imports[i].path, ShapeOf(l, imports[i].package)))
  }

  function HashesOf(shapes: seq<ImportShape>): seq<Shape> {
    seq(|shapes|, i requires 0 <= i < |shapes| => shapes[i].shape)
  }

  // ------------------------------------------------------- import closures

  function ImportedBy(l: Load, p: PackageId): seq<PackageId> {
    if p !in l.packages then [] else
      var imports := l.packages[p].imports;
      seq(|imports|, i requires 0 <= i < |imports| => imports[i].package)
  }

  ghost function Imported(l: Load): PackageId -> seq<PackageId> {
    (p: PackageId) => ImportedBy(l, p)
  }

  /** The type checker lets an API name only packages in the import closure. */
  ghost predicate NamesImported(l: Load) {
    forall p, i :: p in l.packages && i in l.packages[p].references ==> Reaches(Imported(l), p, i.package)
  }

  /** Everything loaded has its imports loaded, but for what is still being walked. */
  ghost predicate Indexed(l: Load, loaded: set<PackageId>, open: set<PackageId>) {
    loaded <= l.packages.Keys && ClosedBut(Imported(l), loaded, open)
  }

  ghost predicate Closed(l: Load, loaded: set<PackageId>) {
    Indexed(l, loaded, {})
  }

  lemma AllImported(l: Load, loaded: set<PackageId>, p: PackageId)
    requires p in l.packages && forall i :: i in l.packages[p].imports ==> i.package in loaded
    ensures forall q :: q in Imported(l)(p) ==> q in loaded
  {
  }

  lemma NothingFirst()
    ensures FirstOfEach<ImportShape>([]) == []
  {
  }

  class ExportShapes {
    const l: Load
    var memo: map<PackageId, Shape>
    var loaded: set<PackageId>

    /** What is memoised is what plain recursion gives. */
    ghost predicate Valid()
      reads this
    {
      Acyclic(l) && Closed(l, loaded) && forall p :: p in memo ==> p in l.packages && memo[p] == ShapeOf(l, p)
    }

    constructor (l: Load)
      requires Acyclic(l)
      ensures Valid() && this.l == l && memo == map[] && loaded == {}
    {
      this.l, memo, loaded := l, map[], {};
    }

    /** The shape of a package, from the memo once it is there. */
    method Of(p: PackageId) returns (r: Result<Shape>)
      requires Valid() && p in l.packages
      modifies this
      ensures Valid() && old(memo).Keys <= memo.Keys && old(loaded) <= loaded
      ensures r.Ok? ==> r.value == ShapeOf(l, p) && p in memo
      ensures NamesImported(l) ==> r.Ok?
      decreases l.level[p], 4
    {
      if p in memo {
        return Ok(memo[p]);
      }
      var pkg := l.packages[p];
      var shape: Shape;
      match pkg.class_ {
        case Standard => shape := StandardShape(l.toolchain);
        case Module(modulePath, version) => shape := ModuleShape(modulePath, version, l.toolchain);
        case Unresolved => shape := UnresolvedShape(pkg.path);
        case Workspace =>
          r := WorkspaceShape(p);
          if r.Err? {
            return;
          }
          shape := r.value;
      }
      memo := memo[p := shape];
      r := Ok(shape);
    }

    method WorkspaceShape(p: PackageId) returns (r: Result<Shape>)
      requires Valid() && p in l.packages && l.packages[p].class_.Workspace?
      modifies this
      ensures Valid() && old(memo).Keys <= memo.Keys && old(loaded) <= loaded
      ensures r.Ok? ==> r.value == ShapeOf(l, p)
      ensures NamesImported(l) ==> r.Ok?
      decreases l.level[p], 3
    {
      if !l.packages[p].proven {
        r := UnprovenWorkspace(p);
        return;
      }
      var referenced := ReferencedShapes(p);
      r := if referenced.Ok? then Ok(ApiShape(l.packages[p].pairs, referenced.value)) else Err;
    }

    /** The shapes of the packages that the API names, each of which must have been walked. */
    method ReferencedShapes(p: PackageId) returns (r: Result<seq<ImportShape>>)
      requires Valid() && p in l.packages
      modifies this
      ensures Valid() && old(memo).Keys <= memo.Keys && old(loaded) <= loaded
      ensures r.Ok? ==> Below(l, p, l.packages[p].references) && r.value == ShapesOf(l, p, l.packages[p].references)
      ensures NamesImported(l) ==> r.Ok?
      decreases l.level[p], 1
    {
      Index(p);
      var referenced := l.packages[p].references;
      var found: seq<ImportShape> := [];
      for i := 0 to |referenced|
        invariant Valid() && old(memo).Keys <= memo.Keys && old(loaded) <= loaded && p in loaded
        invariant |found| == i && forall k :: 0 <= k < i ==> found[k] == ImportShape(referenced[k].path, ShapeOf(l, referenced[k].package))
      {
        var imported := referenced[i];
        if imported.package !in loaded {
          if NamesImported(l) {
            ClosedHasReached(Imported(l), loaded, p, imported.package);
          }
          return Err;
        }
        var shape := Of(imported.package);
        if shape.Err? {
          return Err;
        }
        found := found + [ImportShape(imported.path, shape.value)];
      }
      assert found == ShapesOf(l, p, referenced);
      r := Ok(found);
    }

    /** Records every package of the import closure that has not been recorded. */
    method Index(p: PackageId)
      requires Valid() && p in l.packages
      modifies this`loaded
      ensures Valid() && p in loaded && old(loaded) <= loaded
    {
      IndexFrom(p, {});
    }

    method IndexFrom(p: PackageId, ghost open: set<PackageId>)
      requires Acyclic(l) && p in l.packages && Indexed(l, loaded, open)
      modifies this`loaded
      ensures Indexed(l, loaded, open) && p in loaded && old(loaded) <= loaded
      decreases l.level[p]
    {
      if p in loaded {
        return;
      }
      hide ClosedBut;
      OpenOne(Imported(l), loaded, open, p);
      loaded := loaded + {p};
      var imports := l.packages[p].imports;
      for i := 0 to |imports|
        invariant Indexed(l, loaded, open + {p}) && old(loaded) + {p} <= loaded
        invariant forall k :: 0 <= k < i ==> imports[k].package in loaded
      {
        IndexFrom(imports[i].package, open + {p});
      }
      AllImported(l, loaded, p);
      CloseOne(Imported(l), loaded, open, p);
    }

    /** Every direct import of the variants with the shape it presents, each pair once. */
    method ImportsOf(variants: seq<PackageId>, ghost above: PackageId) returns (r: Result<seq<ImportShape>>)
      requires Valid() && above in l.packages
      requires forall v :: v in variants ==> v in l.packages && Below(l, above, l.packages[v].imports)
      modifies this
      ensures Valid() && old(memo).Keys <= memo.Keys && old(loaded) <= loaded
      ensures r.Ok? ==> r.value == FirstOfEach(VariantShapes(l, above, variants))
      ensures NamesImported(l) ==> r.Ok?
      decreases l.level[above], 1
    {
      hide ShapesOf, FirstOfEach, Below, NamesImported, Closed;
      var imports: seq<ImportShape> := [];
      NothingFirst();
      for v := 0 to |variants|
        invariant Valid() && old(memo).Keys <= memo.Keys && old(loaded) <= loaded
        invariant imports == FirstOfEach(VariantShapes(l, above, variants[..v]))
      {
        assert variants[v] in variants;
        assert variants[..v + 1][..v] == variants[..v];
        r := AddImports(variants[v], above, imports, VariantShapes(l, above, variants[..v]));
        if r.Err? {
          return;
        }
        imports := r.value;
      }
      assert variants[..|variants|] == variants;
      r := Ok(imports);
    }

    /** One variant's imports, after those of the variants before it. */
    method AddImports(variant: PackageId, ghost above: PackageId, imports0: seq<ImportShape>, ghost before: seq<ImportShape>) returns (r: Result<seq<ImportShape>>)
      requires Valid() && above in l.packages && variant in l.packages && Below(l, above, l.packages[variant].imports)
      requires imports0 == FirstOfEach(before)
      modifies this
      ensures Valid() && old(memo).Keys <= memo.Keys && old(loaded) <= loaded
      ensures r.Ok? ==> r.value == FirstOfEach(before + ShapesOf(l, above, l.packages[variant].imports))
      ensures NamesImported(l) ==> r.Ok?
      decreases l.level[above], 0
    {
      hide NamesImported, Closed, FirstOfEach, ShapesOf, ShapeOf, Acyclic, Below;
      var of := l.packages[variant].imports;
      ShapesAre(l, above, of);
      ghost var shapes := ShapesOf(l, above, of);
      var imports := imports0;
      assert before + shapes[..0] == before;
      for i := 0 to |of|
        invariant Valid() && old(memo).Keys <= memo.Keys && old(loaded) <= loaded
        invariant imports == FirstOfEach(before + shapes[..i])
      {
        var shape := Of(of[i].package);
        if shape.Err? {
          return Err;
        }
        var imported := ImportShape(of[i].path, shape.value);
        FirstOfNext(before + shapes[..i], imported);
        assert before + shapes[..i + 1] == before + shapes[..i] + [imported];
        if imported !in imports {
          imports := imports + [imported];
        }
      }
      assert shapes[..|of|] == shapes;
      r := Ok(imports);
    }

    method UnprovenWorkspace(p: PackageId) returns (r: Result<Shape>)
      requires Valid() && p in l.packages && l.packages[p].class_.Workspace? && !l.packages[p].proven
      modifies this
      ensures Valid() && old(memo).Keys <= memo.Keys && old(loaded) <= loaded
      ensures r.Ok? ==> r.value == ShapeOf(l, p)
      ensures NamesImported(l) ==> r.Ok?
      decreases l.level[p], 2
    {
      var imports := ImportsOf([p], p);
      if imports.Err? {
        return Err;
      }
      OneVariant(l, p);
      r := Ok(UnprovenShape(l.packages[p].path, l.packages[p].files, multiset(HashesOf(imports.value))));
    }
  }

  ghost function VariantShapes(l: Load, above: PackageId, variants: seq<PackageId>): seq<ImportShape>
    requires Acyclic(l) && above in l.packages
    requires forall v :: v in variants ==> v in l.packages && Below(l, above, l.packages[v].imports)
  {
    if variants == [] then [] else
      var n := |variants| - 1;
      VariantShapes(l, above, variants[..n]) + ShapesOf(l, above, l.packages[variants[n]].imports)
  }

  lemma ShapesAre(l: Load, p: PackageId, imports: seq<Import>)
    requires Acyclic(l) && p in l.packages && Below(l, p, imports)
    ensures p in l.level && |ShapesOf(l, p, imports)| == |imports|
    ensures forall i :: 0 <= i < |imports| ==>
      imports[i].package in l.packages && imports[i].package in l.level && l.level[imports[i].package] < l.level[p]
      && ShapesOf(l, p, imports)[i] == ImportShape(imports[i].path, ShapeOf(l, imports[i].package))
  {
    hide ShapeOf, Acyclic;
  }

  /** The imports of one package have distinct paths, so none is dropped. */
  lemma OneVariant(l: Load, p: PackageId)
    requires Acyclic(l) && p in l.packages
    ensures Below(l, p, l.packages[p].imports)
    ensures FirstOfEach(VariantShapes(l, p, [p])) == ShapesOf(l, p, l.packages[p].imports)
  {
    var shapes := ShapesOf(l, p, l.packages[p].imports);
    assert [p][..0] == [];
    assert VariantShapes(l, p, []) == [];
    assert VariantShapes(l, p, [p]) == [] + shapes == shapes;
    assert forall i :: 0 <= i < |shapes| ==> shapes[i].path == l.packages[p].imports[i].path;
    FirstOfDistinct(shapes);
  }

  /** Whatever shapes were asked for before, and in whatever order, each is the one plain recursion gives. */
  method ShapesInOrder(l: Load, calls: seq<PackageId>) returns (shapes: seq<Shape>)
    requires Acyclic(l) && NamesImported(l) && forall p :: p in calls ==> p in l.packages
    ensures |shapes| == |calls| && forall i :: 0 <= i < |calls| ==> shapes[i] == ShapeOf(l, calls[i])
  {
    hide ShapeOf, Acyclic, NamesImported, Closed;
    var exportShapes := new ExportShapes(l);
    shapes := [];
    for i := 0 to |calls|
      invariant exportShapes.Valid() && exportShapes.l == l && fresh(exportShapes)
      invariant |shapes| == i && forall k :: 0 <= k < i ==> shapes[k] == ShapeOf(l, calls[k])
    {
      assert calls[i] in calls;
      var shape := exportShapes.Of(calls[i]);
      shapes := shapes + [shape.value];
    }
  }

  // ------------------------------------------------ what a shape depends on

  function Packages(imports: seq<Import>): seq<PackageId> {
    seq(|imports|, i requires 0 <= i < |imports| => imports[i].package)
  }

  /** The packages whose shapes go into a package's: those its API names if proven, else those it imports. */
  function KeyedBy(l: Load, p: PackageId): seq<PackageId> {
    if p !in l.packages || !l.packages[p].class_.Workspace? then []
    else if l.packages[p].proven then Packages(l.packages[p].references)
    else Packages(l.packages[p].imports)
  }

  ghost function Keyed(l: Load): PackageId -> seq<PackageId> {
    (p: PackageId) => KeyedBy(l, p)
  }

  /** Two loads agree on what of a package goes into a shape. */
  predicate SameKeyed(a: Load, b: Load, p: PackageId) {
    p in a.packages && p in b.packages && a.packages[p].class_ == b.packages[p].class_ &&
    var x, y := a.packages[p], b.packages[p];
    match x.class_
    case Standard => a.toolchain == b.toolchain
    case Module(_, _) => a.toolchain == b.toolchain
    case Unresolved => x.path == y.path
    case Workspace =>
      && x.proven == y.proven
      && (x.proven ==> x.pairs == y.pairs && x.references == y.references)
      && (!x.proven ==> x.path == y.path && x.files == y.files && x.imports == y.imports)
  }

  /**
   * A shape changes with nothing outside its keying closure: loads that agree on
   * what is keyed of each package in it give the package one shape.
   */
  lemma {:induction false} ShapeDependsOnKeyed(a: Load, b: Load, p: PackageId)
    requires Acyclic(a) && Acyclic(b) && p in a.packages && p in b.packages
    requires forall x :: Reaches(Keyed(a), p, x) ==> SameKeyed(a, b, x)
    ensures ShapeOf(a, p) == ShapeOf(b, p)
    decreases a.level[p]
  {
    ReachesSelf(Keyed(a), p);
    assert SameKeyed(a, b, p);
    var pkg := a.packages[p];
    if pkg.class_.Workspace? {
      var keyed := if pkg.proven then pkg.references else pkg.imports;
      BelowOf(a, p);
      BelowOf(b, p);
      ShapesAre(a, p, keyed);
      ShapesAre(b, p, keyed);
      hide Acyclic, SameKeyed, Below, ShapesOf;
      forall i | 0 <= i < |keyed| ensures ShapeOf(a, keyed[i].package) == ShapeOf(b, keyed[i].package) {
        KeyedIn(a, p, keyed, i);
        forall x | Reaches(Keyed(a), keyed[i].package, x) ensures SameKeyed(a, b, x) {
          ReachesSelf(Keyed(a), p);
          ReachesStep(Keyed(a), p, p, keyed[i].package);
          ReachesTrans(Keyed(a), p, keyed[i].package, x);
        }
        ShapeDependsOnKeyed(a, b, keyed[i].package);
      }
      assert ShapesOf(a, p, keyed) == ShapesOf(b, p, keyed);
      SameWorkspace(a, b, p);
    }
  }

  lemma BelowOf(l: Load, p: PackageId)
    requires Acyclic(l) && p in l.packages
    ensures Below(l, p, l.packages[p].imports) && Below(l, p, l.packages[p].references)
  {
  }

  lemma KeyedIn(l: Load, p: PackageId, keyed: seq<Import>, i: nat)
    requires p in l.packages && l.packages[p].class_.Workspace? && i < |keyed|
    requires keyed == if l.packages[p].proven then l.packages[p].references else l.packages[p].imports
    ensures keyed[i].package in Keyed(l)(p)
  {
    assert Packages(keyed)[i] == keyed[i].package;
  }

  lemma SameWorkspace(a: Load, b: Load, p: PackageId)
    requires Acyclic(a) && Acyclic(b) && SameKeyed(a, b, p) && a.packages[p].class_.Workspace?
    requires Below(a, p, a.packages[p].references) && Below(b, p, b.packages[p].references)
    requires Below(a, p, a.packages[p].imports) && Below(b, p, b.packages[p].imports)
    requires var x, y := a.packages[p], b.packages[p];
      if x.proven then ShapesOf(a, p, x.references) == ShapesOf(b, p, y.references) else ShapesOf(a, p, x.imports) == ShapesOf(b, p, y.imports)
    ensures ShapeOf(a, p) == ShapeOf(b, p)
  {
    hide Acyclic, Below, ShapesOf, HashesOf;
  }

  /** An edit to a file of a proven package leaves its shape, and so its importers' keys, unchanged. */
  lemma EditKeepsProvenShape(l: Load, edited: PackageId, files: seq<(string, string)>, p: PackageId)
    requires Acyclic(l) && p in l.packages && edited in l.packages && l.packages[edited].proven
    ensures var b := l.(packages := l.packages[edited := l.packages[edited].(files := files)]);
            Acyclic(b) && p in b.packages && ShapeOf(b, p) == ShapeOf(l, p)
  {
    var b := l.(packages := l.packages[edited := l.packages[edited].(files := files)]);
    forall q | q in b.packages ensures Below(b, q, b.packages[q].imports) && Below(b, q, b.packages[q].references) && DistinctPaths(b.packages[q].imports) {
      assert Below(l, q, l.packages[q].imports) && Below(l, q, l.packages[q].references);
    }
    assert Acyclic(b);
    EditedShape(l, b, edited, files, p);
  }

  lemma {:induction false} EditedShape(l: Load, b: Load, edited: PackageId, files: seq<(string, string)>, p: PackageId)
    requires Acyclic(l) && Acyclic(b) && p in l.packages && edited in l.packages && l.packages[edited].proven
    requires b == l.(packages := l.packages[edited := l.packages[edited].(files := files)])
    ensures ShapeOf(b, p) == ShapeOf(l, p)
  {
    forall x | Reaches(Keyed(l), p, x) ensures SameKeyed(l, b, x) {
      KeyedInLoad(l, p, x);
      hide Acyclic, Keyed;
    }
    hide Acyclic, Keyed, SameKeyed;
    ShapeDependsOnKeyed(l, b, p);
  }

  lemma KeyedInLoad(l: Load, p: PackageId, x: PackageId)
    requires Acyclic(l) && p in l.packages && Reaches(Keyed(l), p, x)
    ensures x in l.packages
  {
    var w :| IsWalkFromTo(Keyed(l), w, p, x);
    forall y, z | y in l.packages && z in Keyed(l)(y) ensures z in l.packages {
      BelowOf(l, y);
    }
    hide Acyclic, Keyed;
    WalkStaysInside(Keyed(l), (y: PackageId) => y in l.packages, w, |w| - 1);
  }

  // ------------------------------------------------- what a shape determines

  /** The shapes that the packages imported as these have, each as often as it is imported. */
  ghost function ShapesImported(l: Load, p: PackageId, imports: seq<Import>): multiset<Shape>
    requires Acyclic(l) && p in l.packages && Below(l, p, imports)
  {
    multiset(seq(|imports|, i requires 0 <= i < |imports| => ShapeOf(l, imports[i].package)))
  }

  /** Pair by pair and in order, the paths and the shapes are the same. */
  ghost predicate PresentAlike(a: Load, p: PackageId, x: seq<Import>, b: Load, q: PackageId, y: seq<Import>)
    requires Acyclic(a) && Acyclic(b) && p in a.packages && q in b.packages && Below(a, p, x) && Below(b, q, y)
  {
    |x| == |y| && forall i :: 0 <= i < |x| ==> x[i].path == y[i].path && ShapeOf(a, x[i].package) == ShapeOf(b, y[i].package)
  }

  /** What two packages of one shape have in common. */
  ghost predicate Alike(a: Load, p: PackageId, b: Load, q: PackageId)
    requires Acyclic(a) && Acyclic(b) && p in a.packages && q in b.packages
  {
    var x, y := a.packages[p], b.packages[q];
    match x.class_
    case Standard => y.class_.Standard? && a.toolchain == b.toolchain
    case Module(_, _) => y.class_ == x.class_ && a.toolchain == b.toolchain
    case Unresolved => y.class_.Unresolved? && x.path == y.path
    case Workspace =>
      && y.class_.Workspace? && x.proven == y.proven
      && (x.proven ==> x.pairs == y.pairs && PresentAlike(a, p, x.references, b, q, y.references))
      && (!x.proven ==> x.path == y.path && x.files == y.files && ShapesImported(a, p, x.imports) == ShapesImported(b, q, y.imports))
  }

  lemma HashesAre(l: Load, p: PackageId, imports: seq<Import>)
    requires Acyclic(l) && p in l.packages && Below(l, p, imports)
    ensures multiset(HashesOf(ShapesOf(l, p, imports))) == ShapesImported(l, p, imports)
  {
    var hashes := seq(|imports|, i requires 0 <= i < |imports| => ShapeOf(l, imports[i].package));
    ShapesAre(l, p, imports);
    hide ShapesOf, ShapeOf, Acyclic;
    assert HashesOf(ShapesOf(l, p, imports)) == hashes;
  }

  lemma PresentedAre(a: Load, p: PackageId, x: seq<Import>, b: Load, q: PackageId, y: seq<Import>)
    requires Acyclic(a) && Acyclic(b) && p in a.packages && q in b.packages && Below(a, p, x) && Below(b, q, y)
    ensures ShapesOf(a, p, x) == ShapesOf(b, q, y) <==> PresentAlike(a, p, x, b, q, y)
  {
    ShapesAre(a, p, x);
    ShapesAre(b, q, y);
    hide ShapesOf, ShapeOf, Acyclic, Below;
    if ShapesOf(a, p, x) == ShapesOf(b, q, y) {
      forall i | 0 <= i < |x| ensures x[i].path == y[i].path && ShapeOf(a, x[i].package) == ShapeOf(b, y[i].package) {
        assert ShapesOf(a, p, x)[i] == ShapesOf(b, q, y)[i];
      }
    }
  }

  /**
   * Two packages, of one load or of two, have one shape exactly when they are of one
   * class and, as that class asks, agree on the toolchain, on the module and its
   * version, on the path, on the exported pairs and on the path and shape of each package
   * that the API names, or on the path, the files and the shapes of the imports.
   */
  lemma OneShapeExactlyWhenAlike(a: Load, p: PackageId, b: Load, q: PackageId)
    requires Acyclic(a) && Acyclic(b) && p in a.packages && q in b.packages
    ensures ShapeOf(a, p) == ShapeOf(b, q) <==> Alike(a, p, b, q)
  {
    BelowOf(a, p);
    BelowOf(b, q);
    var x, y := a.packages[p], b.packages[q];
    PresentedAre(a, p, x.references, b, q, y.references);
    HashesAre(a, p, x.imports);
    HashesAre(b, q, y.imports);
    hide Acyclic, Below, ShapesOf, HashesOf, PresentAlike, ShapesImported;
  }

  lemma KeyedShapePresent(a: Load, p: PackageId, b: Load, q: PackageId, x: PackageId) returns (y: PackageId)
    requires Acyclic(a) && Acyclic(b) && p in a.packages && q in b.packages && ShapeOf(a, p) == ShapeOf(b, q) && x in Keyed(a)(p)
    ensures y in Keyed(b)(q) && x in a.packages && y in b.packages && ShapeOf(a, x) == ShapeOf(b, y)
  {
    OneShapeExactlyWhenAlike(a, p, b, q);
    BelowOf(a, p);
    BelowOf(b, q);
    var s, t := a.packages[p], b.packages[q];
    hide Acyclic, ShapeOf;
    if s.proven {
      var i :| 0 <= i < |s.references| && s.references[i].package == x;
      KeyedIn(b, q, t.references, i);
      y := t.references[i].package;
    } else {
      var i :| 0 <= i < |s.imports| && s.imports[i].package == x;
      var j := ImportedShape(a, p, s.imports, b, q, t.imports, i);
      KeyedIn(b, q, t.imports, j);
      y := t.imports[j].package;
    }
  }

  lemma ImportedShape(a: Load, p: PackageId, x: seq<Import>, b: Load, q: PackageId, y: seq<Import>, i: nat) returns (j: nat)
    requires Acyclic(a) && Acyclic(b) && p in a.packages && q in b.packages && Below(a, p, x) && Below(b, q, y)
    requires ShapesImported(a, p, x) == ShapesImported(b, q, y) && i < |x|
    ensures j < |y| && ShapeOf(a, x[i].package) == ShapeOf(b, y[j].package)
  {
    var s := seq(|x|, k requires 0 <= k < |x| => ShapeOf(a, x[k].package));
    var t := seq(|y|, k requires 0 <= k < |y| => ShapeOf(b, y[k].package));
    hide Acyclic, ShapeOf;
    assert s[i] in multiset(s);
    assert s[i] in multiset(t);
    j :| 0 <= j < |t| && t[j] == s[i];
  }

  /** Whatever a package is keyed by over any number of steps, a package of one shape with it is keyed by one of that shape. */
  lemma {:induction false} KeyedShapesShow(a: Load, p: PackageId, b: Load, q: PackageId, w: seq<PackageId>) returns (y: PackageId)
    requires Acyclic(a) && Acyclic(b) && p in a.packages && q in b.packages && ShapeOf(a, p) == ShapeOf(b, q)
    requires IsWalk(Keyed(a), w) && w[0] == p
    ensures Reaches(Keyed(b), q, y) && w[|w| - 1] in a.packages && y in b.packages && ShapeOf(a, w[|w| - 1]) == ShapeOf(b, y)
    decreases |w|
  {
    hide Acyclic, ShapeOf, Keyed;
    if |w| == 1 {
      ReachesSelf(Keyed(b), q);
      y := q;
    } else {
      var n := |w| - 1;
      var before := KeyedShapesShow(a, p, b, q, w[..n]);
      assert w[n] in Keyed(a)(w[n - 1]);
      y := KeyedShapePresent(a, w[n - 1], b, before, w[n]);
      ReachesStep(Keyed(b), q, before, y);
    }
  }

  /**
   * A shape changes whenever anything in its keying closure does: if a package has one
   * shape in two loads, each package in its closure has the shape of one in the
   * other's.
   */
  lemma ChangesShow(a: Load, p: PackageId, b: Load, q: PackageId, x: PackageId)
    requires Acyclic(a) && Acyclic(b) && p in a.packages && q in b.packages && ShapeOf(a, p) == ShapeOf(b, q) && Reaches(Keyed(a), p, x)
    ensures x in a.packages && exists y :: y in b.packages && Reaches(Keyed(b), q, y) && ShapeOf(b, y) == ShapeOf(a, x)
  {
    hide Acyclic, ShapeOf, Keyed;
    var w :| IsWalkFromTo(Keyed(a), w, p, x);
    var y := KeyedShapesShow(a, p, b, q, w);
  }
}
