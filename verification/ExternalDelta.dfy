/**
 * Delta publications of an external producer (indexer/external_delta.go,
 * indexer/external.go:103-195, indexer/hashes.go:29-44 and 101-117): what they
 * yield is what publishing the merged documents in full would.
 */
module ExternalDelta {
  import opened Common
  import opened Sorting

  /** Paths and package paths stand for strings by their place in the order the source sorts by. */
  type Path = nat
  type Package = nat
  type Configuration = string

  datatype Symbol = Symbol(id: Option<string>, visibility: string, publicHash: string)

  /** What the producer says of a document; the rest stands for all but the symbols. */
  datatype Content = Content(symbols: seq<Symbol>, rest: string)

  datatype Document = Document(path: Path, package: Package, contentHash: string, gitPath: string, size: nat, content: Content)

  /** What a package's input hash is fed of a document beside its path. */
  datatype Input = Input(contentHash: string, gitPath: string, content: Content)

  /** A sorted list's element. */
  datatype Entry<V> = Entry(key: nat, value: V)

  datatype File = File(package: Package, contentHash: string, gitPath: string, size: nat)

  /** A digest is told apart by everything that is fed to it. */
  datatype Hash =
    | InputHash(configuration: Configuration, package: Package, inputs: map<Path, Input>)
    | ExportShape(declared: multiset<string>)
    | ContentSetHash(files: seq<(Path, Package, string, string)>)
    | ContextHash(configuration: Configuration, inputHashes: seq<(Package, Hash)>)

  datatype PackageRow = PackageRow(inputHash: Hash, exportShape: Hash, fileCount: nat)

  datatype Extraction = Extraction(
    configuration: Configuration,
    documents: map<Path, Document>,
    files: seq<Entry<File>>,
    packages: seq<Entry<PackageRow>>,
    contentSetHash: Hash,
    contextHash: Hash
  )

  // ---------------------------------------------------------------- sorting

  function ByKey<V>(): (Entry<V>, Entry<V>) -> bool {
    (x: Entry<V>, y: Entry<V>) => x.key < y.key
  }

  ghost predicate StrictlySorted<V>(s: seq<Entry<V>>) {
    Ascending(s, ByKey())
  }

  ghost predicate DistinctKeys<V>(s: seq<Entry<V>>) {
    DistinctBy(s, (e: Entry<V>) => e.key)
  }

  function SortedByKey<V>(s: seq<Entry<V>>): seq<Entry<V>> {
    Sorted(s, ByKey())
  }

  lemma SortedEntries<V(!new)>(s: seq<Entry<V>>)
    requires DistinctKeys(s)
    ensures StrictlySorted(SortedByKey(s)) && forall x :: x in SortedByKey(s) <==> x in s
  {
    SortedSorts(s, ByKey());
  }

  /** A strictly sorted list is determined by its elements. */
  lemma SortedIsUnique<V(!new)>(a: seq<Entry<V>>, b: seq<Entry<V>>)
    requires StrictlySorted(a) && StrictlySorted(b) && forall x :: x in a <==> x in b
    ensures a == b
  {
    AscendingIsUnique(a, b, ByKey());
  }

  // ------------------------------------------------------ full publications

  function FileOf(d: Document): File {
    File(d.package, d.contentHash, d.gitPath, d.size)
  }

  function InPackage(documents: map<Path, Document>, package: Package): map<Path, Document> {
    map p | p in documents && documents[p].package == package :: documents[p]
  }

  function InputOf(d: Document): Input {
    Input(d.contentHash, d.gitPath, d.content)
  }

  function InputsOf(documents: map<Path, Document>): map<Path, Input> {
    map p | p in documents :: InputOf(documents[p])
  }

  predicate Exports(symbol: Symbol) {
    symbol.id.Some? && symbol.visibility == "exported"
  }

  function EntryOf(symbol: Symbol): string
    requires Exports(symbol)
  {
    symbol.id.value + " " + symbol.publicHash
  }

  /** An entry for each symbol that a document exports. */
  function Declared(symbols: seq<Symbol>): multiset<string> {
    if symbols == [] then multiset{} else
      var n := |symbols| - 1;
      Declared(symbols[..n]) + if Exports(symbols[n]) then multiset{EntryOf(symbols[n])} else multiset{}
  }

  lemma {:induction false} HasFirst(paths: set<Path>, p: Path)
    requires p in paths
    ensures exists first :: first in paths && forall q :: q in paths ==> first <= q
    decreases p
  {
    if q :| q in paths && q < p {
      HasFirst(paths, q);
    }
  }

  function FirstOf(paths: set<Path>): (first: Path)
    requires paths != {}
    ensures first in paths && forall p :: p in paths ==> first <= p
  {
    assert exists first :: first in paths && forall p :: p in paths ==> first <= p by {
      var p :| p in paths;
      HasFirst(paths, p);
    }
    var first :| first in paths && forall p :: p in paths ==> first <= p;
    first
  }

  lemma FewerDocuments(documents: map<Path, Document>, p: Path)
    requires p in documents
    ensures documents - {p} == map q | q in documents && q != p :: documents[q]
    ensures |documents - {p}| < |documents|
  {
    assert (documents - {p}).Keys == documents.Keys - {p};
  }

  /** The entries of all the documents; as the shape digests them sorted, how often each occurs is what counts. */
  function Declarations(documents: map<Path, Document>): multiset<string>
    decreases |documents|
  {
    if documents.Keys == {} then multiset{} else
      var first := FirstOf(documents.Keys);
      FewerDocuments(documents, first);
      Declared(documents[first].content.symbols) + Declarations(documents - {first})
  }

  function RowOf(configuration: Configuration, package: Package, documents: map<Path, Document>): PackageRow {
    PackageRow(InputHash(configuration, package, InputsOf(documents)), ExportShape(Declarations(documents)), |documents|)
  }

  function ContentSetOf(files: seq<Entry<File>>): Hash {
    ContentSetHash(seq(|files|, i requires 0 <= i < |files| =>
      (files[i].key, files[i].value.package, files[i].value.contentHash, files[i].value.gitPath)))
  }

  function ContextOf(configuration: Configuration, packages: seq<Entry<PackageRow>>): Hash {
    ContextHash(configuration, seq(|packages|, i requires 0 <= i < |packages| => (packages[i].key, packages[i].value.inputHash)))
  }

  ghost predicate Keyed(documents: map<Path, Document>) {
    forall p :: p in documents ==> documents[p].path == p
  }

  /** A list of the files of the documents. */
  ghost predicate FilesOf(files: seq<Entry<File>>, documents: map<Path, Document>) {
    forall x :: x in files <==> x.key in documents && x.value == FileOf(documents[x.key])
  }

  /** A list of the rows of the documents' packages. */
  ghost predicate PackagesOf(packages: seq<Entry<PackageRow>>, configuration: Configuration, documents: map<Path, Document>) {
    forall x :: x in packages <==>
      InPackage(documents, x.key) != map[] && x.value == RowOf(configuration, x.key, InPackage(documents, x.key))
  }

  /** What publishing the documents in full yields. */
  ghost predicate Publishes(e: Extraction, configuration: Configuration, documents: map<Path, Document>) {
    && e.configuration == configuration && e.documents == documents
    && StrictlySorted(e.files) && FilesOf(e.files, documents)
    && StrictlySorted(e.packages) && PackagesOf(e.packages, configuration, documents)
    && e.contentSetHash == ContentSetOf(e.files)
    && e.contextHash == ContextOf(configuration, e.packages)
  }

  /** The documents and the configuration determine all of it: files, packages and both hashes. */
  lemma PublishesDetermines(a: Extraction, b: Extraction, configuration: Configuration, documents: map<Path, Document>)
    requires Publishes(a, configuration, documents) && Publishes(b, configuration, documents)
    ensures a == b
  {
    hide FileOf, InPackage, RowOf, ContentSetOf, ContextOf;
    SortedIsUnique(a.files, b.files);
    SortedIsUnique(a.packages, b.packages);
  }

  function ByPath(documents: seq<Document>): map<Path, Document> {
    if documents == [] then map[] else
      var n := |documents| - 1;
      ByPath(documents[..n])[documents[n].path := documents[n]]
  }

  ghost predicate DistinctPaths(documents: seq<Document>) {
    DistinctBy(documents, (d: Document) => d.path)
  }

  lemma {:induction false} ByPathIs(documents: seq<Document>)
    requires DistinctPaths(documents)
    ensures Keyed(ByPath(documents))
    ensures forall d :: d in documents <==> d.path in ByPath(documents) && ByPath(documents)[d.path] == d
    ensures forall p :: p in ByPath(documents) ==> ByPath(documents)[p] in documents
  {
    if documents != [] {
      var n := |documents| - 1;
      ByPathIs(documents[..n]);
      assert documents == documents[..n] + [documents[n]];
      forall d | d in documents[..n] ensures d.path != documents[n].path {
        var i :| 0 <= i < n && documents[i] == d;
      }
    }
  }

  lemma FilesAreSorted(files: seq<Entry<File>>, documents: map<Path, Document>)
    requires FilesOf(files, documents) && DistinctKeys(files)
    ensures StrictlySorted(SortedByKey(files)) && FilesOf(SortedByKey(files), documents)
  {
    SortedEntries(files);
    hide SortedByKey, StrictlySorted, DistinctKeys, FileOf;
  }

  lemma PackagesAreSorted(packages: seq<Entry<PackageRow>>, configuration: Configuration, documents: map<Path, Document>)
    requires PackagesOf(packages, configuration, documents) && DistinctKeys(packages)
    ensures StrictlySorted(SortedByKey(packages)) && PackagesOf(SortedByKey(packages), configuration, documents)
  {
    SortedEntries(packages);
    hide SortedByKey, StrictlySorted, DistinctKeys, InPackage, RowOf;
  }

  /** Publishing a list of documents in full: each file, and each package's row from its own documents. */
  method FullExtraction(configuration: Configuration, documents: seq<Document>) returns (e: Extraction)
    requires DistinctPaths(documents)
    ensures Publishes(e, configuration, ByPath(documents))
  {
    ByPathIs(documents);
    hide *;
    var files := FileEntries(documents);
    FilesAreSorted(files, ByPath(documents));
    files := SortedByKey(files);
    var packages := PackageEntries(configuration, documents);
    PackagesAreSorted(packages, configuration, ByPath(documents));
    packages := SortedByKey(packages);
    e := Extraction(configuration, ByPath(documents), files, packages, ContentSetOf(files), ContextOf(configuration, packages));
    PublishesWhole(e);
  }

  lemma PublishesWhole(e: Extraction)
    requires StrictlySorted(e.files) && FilesOf(e.files, e.documents)
    requires StrictlySorted(e.packages) && PackagesOf(e.packages, e.configuration, e.documents)
    requires e.contentSetHash == ContentSetOf(e.files) && e.contextHash == ContextOf(e.configuration, e.packages)
    ensures Publishes(e, e.configuration, e.documents)
  {
  }

  lemma PublishesParts(e: Extraction, configuration: Configuration, documents: map<Path, Document>)
    requires Publishes(e, configuration, documents)
    ensures e.configuration == configuration && e.documents == documents
    ensures StrictlySorted(e.files) && FilesOf(e.files, documents)
    ensures StrictlySorted(e.packages) && PackagesOf(e.packages, configuration, documents)
  {
  }

  method FileEntries(documents: seq<Document>) returns (files: seq<Entry<File>>)
    requires DistinctPaths(documents)
    ensures FilesOf(files, ByPath(documents)) && DistinctKeys(files)
  {
    files := [];
    for i := 0 to |documents|
      invariant |files| == i && forall k :: 0 <= k < i ==> files[k] == Entry(documents[k].path, FileOf(documents[k]))
    {
      files := files + [Entry(documents[i].path, FileOf(documents[i]))];
    }
    ByPathIs(documents);
    hide FileOf, ByPath;
    forall x ensures x in files <==> x.key in ByPath(documents) && x.value == FileOf(ByPath(documents)[x.key]) {
      if x in files {
        var k :| 0 <= k < |files| && files[k] == x;
        assert documents[k] in documents;
      }
      if x.key in ByPath(documents) && x.value == FileOf(ByPath(documents)[x.key]) {
        var d := ByPath(documents)[x.key];
        var k :| 0 <= k < |documents| && documents[k] == d;
        assert files[k] == x;
      }
    }
  }

  ghost predicate Groups(byPackage: map<Package, map<Path, Document>>, documents: map<Path, Document>) {
    forall k :: (k in byPackage <==> InPackage(documents, k) != map[]) && (k in byPackage ==> byPackage[k] == InPackage(documents, k))
  }

  method GroupByPackage(documents: seq<Document>) returns (byPackage: map<Package, map<Path, Document>>)
    requires DistinctPaths(documents)
    ensures Groups(byPackage, ByPath(documents))
  {
    byPackage := map[];
    for i := 0 to |documents|
      invariant Groups(byPackage, ByPath(documents[..i]))
    {
      ByPathFresh(documents, i);
      AddedToGroups(byPackage, ByPath(documents[..i]), documents[i]);
      var d := documents[i];
      byPackage := byPackage[d.package := (if d.package in byPackage then byPackage[d.package] else map[])[d.path := d]];
    }
    assert documents[..|documents|] == documents;
  }

  lemma AddedToGroups(byPackage: map<Package, map<Path, Document>>, documents: map<Path, Document>, d: Document)
    requires Groups(byPackage, documents) && d.path !in documents
    ensures Groups(byPackage[d.package := (if d.package in byPackage then byPackage[d.package] else map[])[d.path := d]], documents[d.path := d])
  {
    AddedInPackage(documents, d);
    var grown := (if d.package in byPackage then byPackage[d.package] else map[])[d.path := d];
    assert d.path in grown;
    assert grown == InPackage(documents, d.package)[d.path := d];
    hide InPackage;
  }

  lemma AddedInPackage(documents: map<Path, Document>, d: Document)
    requires d.path !in documents
    ensures forall k :: InPackage(documents[d.path := d], k) == if k == d.package then InPackage(documents, k)[d.path := d] else InPackage(documents, k)
  {
  }

  /** One row for each package, from its own documents. */
  method PackageEntries(configuration: Configuration, documents: seq<Document>) returns (packages: seq<Entry<PackageRow>>)
    requires DistinctPaths(documents)
    ensures PackagesOf(packages, configuration, ByPath(documents)) && DistinctKeys(packages)
  {
    hide *;
    var byPackage := GroupByPackage(documents);
    packages := [];
    NoKeys<PackageRow>();
    var keys := byPackage.Keys;
    while keys != {}
      invariant keys <= byPackage.Keys
      invariant forall x :: x in packages <==> x.key in byPackage.Keys - keys && x.value == RowOf(configuration, x.key, byPackage[x.key])
      invariant DistinctKeys(packages)
      decreases keys
    {
      var key :| key in keys;
      keys := keys - {key};
      NewKey(packages, Entry(key, RowOf(configuration, key, byPackage[key])));
      packages := packages + [Entry(key, RowOf(configuration, key, byPackage[key]))];
    }
    GroupedRows(packages, configuration, byPackage, ByPath(documents));
  }

  lemma NoKeys<V(!new)>()
    ensures DistinctKeys<V>([])
  {
  }

  lemma NewKey<V(!new)>(s: seq<Entry<V>>, e: Entry<V>)
    requires DistinctKeys(s) && forall x :: x in s ==> x.key != e.key
    ensures DistinctKeys(s + [e])
  {
    assert forall i :: 0 <= i < |s| ==> s[i] in s;
  }

  lemma GroupedRows(packages: seq<Entry<PackageRow>>, configuration: Configuration, byPackage: map<Package, map<Path, Document>>, documents: map<Path, Document>)
    requires Groups(byPackage, documents)
    requires forall x :: x in packages <==> x.key in byPackage.Keys && x.value == RowOf(configuration, x.key, byPackage[x.key])
    ensures PackagesOf(packages, configuration, documents)
  {
    hide InPackage, RowOf;
  }

  lemma ByPathFresh(documents: seq<Document>, i: nat)
    requires DistinctPaths(documents) && i < |documents|
    ensures documents[i].path !in ByPath(documents[..i])
    ensures ByPath(documents[..i + 1]) == ByPath(documents[..i])[documents[i].path := documents[i]]
  {
    assert documents[..i + 1][..i] == documents[..i];
    ByPathIs(documents[..i]);
    forall p | p in ByPath(documents[..i]) ensures p != documents[i].path {
      assert ByPath(documents[..i])[p] in documents[..i];
      var k :| 0 <= k < i && documents[..i][k] == ByPath(documents[..i])[p];
      assert documents[k].path == p;
    }
  }

  // ----------------------------------------------------- delta publications

  /** What a delta touches: the packages of the deleted, the replacing and the replaced documents. */
  ghost predicate Affected(base: map<Path, Document>, documents: seq<Document>, deleted: seq<Path>, k: Package) {
    || (exists p :: p in deleted && p in base && base[p].package == k)
    || (exists d :: d in documents && (d.package == k || (d.path in base && base[d.path].package == k)))
  }

  /** A deletion that is malformed, listed twice, unknown, or also replaced. */
  ghost predicate BadDeletion(valid: Path -> bool, base: map<Path, Document>, documents: seq<Document>, deleted: seq<Path>) {
    || (exists i :: 0 <= i < |deleted| && (!valid(deleted[i]) || deleted[i] !in base || deleted[i] in deleted[..i]))
    || (exists d :: d in documents && d.path in deleted)
  }

  /** A document of the base that the delta neither deletes nor replaces. */
  predicate Retained(base: map<Path, Document>, documents: seq<Document>, deleted: seq<Path>, p: Path) {
    p in base && p !in deleted && p !in ByPath(documents)
  }

  /** A touched package whose documents the delta does not give in full. */
  ghost predicate Incomplete(base: map<Path, Document>, documents: seq<Document>, deleted: seq<Path>) {
    exists p :: Retained(base, documents, deleted, p) && Affected(base, documents, deleted, base[p].package)
  }

  /** The base's documents, less those deleted, with the delta's in their place. */
  function Merged(base: map<Path, Document>, documents: seq<Document>, deleted: seq<Path>): map<Path, Document> {
    (map p | p in base && p !in deleted :: base[p]) + ByPath(documents)
  }

  method DeltaPaths(valid: Path -> bool, base: map<Path, Document>, documents: seq<Document>, deleted: seq<Path>)
    returns (ok: bool, removed: set<Path>, affected: set<Package>)
    ensures ok <==> !BadDeletion(valid, base, documents, deleted)
    ensures ok ==> (forall p :: p in removed <==> p in deleted) && forall k :: k in affected <==> Affected(base, documents, deleted, k)
  {
    removed, affected := {}, {};
    for i := 0 to |deleted|
      invariant forall p :: p in removed <==> p in deleted[..i]
      invariant forall k :: 0 <= k < i ==> valid(deleted[k]) && deleted[k] in base && deleted[k] !in deleted[..k]
      invariant forall k :: k in affected <==> Affected(base, [], deleted[..i], k)
    {
      var name := deleted[i];
      if !valid(name) || name in removed || name !in base {
        return false, removed, affected;
      }
      assert forall p :: p in deleted[..i + 1] <==> p in deleted[..i] || p == name;
      removed, affected := removed + {name}, affected + {base[name].package};
    }
    assert deleted[..|deleted|] == deleted;
    for i := 0 to |documents|
      invariant forall k :: 0 <= k < i ==> documents[k].path !in deleted
      invariant forall k :: k in affected <==> Affected(base, documents[..i], deleted, k)
    {
      var d := documents[i];
      if d.path in removed {
        return false, removed, affected;
      }
      assert forall x :: x in documents[..i + 1] <==> x in documents[..i] || x == d;
      affected := affected + {d.package};
      if d.path in base {
        affected := affected + {base[d.path].package};
      }
    }
    assert documents[..|documents|] == documents;
    ok := true;
  }

  /** Adds the base's file of every document retained, unless one lies in a touched package. */
  method RetainFiles(base: map<Path, Document>, documents: seq<Document>, deleted: seq<Path>, removed: set<Path>, affected: set<Package>, files0: seq<Entry<File>>)
    returns (ok: bool, files: seq<Entry<File>>)
    requires DistinctPaths(documents) && FilesOf(files0, ByPath(documents)) && DistinctKeys(files0)
    requires (forall p :: p in removed <==> p in deleted) && forall k :: k in affected <==> Affected(base, documents, deleted, k)
    ensures ok <==> !Incomplete(base, documents, deleted)
    ensures ok ==> FilesOf(files, Merged(base, documents, deleted)) && DistinctKeys(files)
  {
    var replaced := ByPath(documents).Keys;
    hide Affected, FileOf, ByPath;
    files := files0;
    var names := base.Keys;
    while names != {}
      invariant names <= base.Keys
      invariant forall p :: p in base.Keys - names && Retained(base, documents, deleted, p) ==> base[p].package !in affected
      invariant forall x :: x in files <==> x in files0 || (x.key in base.Keys - names && Retained(base, documents, deleted, x.key) && x.value == FileOf(base[x.key]))
      invariant DistinctKeys(files)
      decreases names
    {
      var name :| name in names;
      names := names - {name};
      if name !in removed && name !in replaced {
        assert Retained(base, documents, deleted, name);
        if base[name].package in affected {
          return false, files;
        }
        NewKey(files, Entry(name, FileOf(base[name])));
        files := files + [Entry(name, FileOf(base[name]))];
      }
    }
    ok := true;
    MergedFiles(base, documents, deleted, files0, files);
  }

  lemma MergedFiles(base: map<Path, Document>, documents: seq<Document>, deleted: seq<Path>, files0: seq<Entry<File>>, files: seq<Entry<File>>)
    requires FilesOf(files0, ByPath(documents))
    requires forall x :: x in files <==> x in files0 || (x.key in base && Retained(base, documents, deleted, x.key) && x.value == FileOf(base[x.key]))
    ensures FilesOf(files, Merged(base, documents, deleted))
  {
    hide FileOf, ByPath;
  }

  /** A touched package is replaced as a whole, any other retained as a whole. */
  lemma PackagesWhollyReplacedOrRetained(base: map<Path, Document>, documents: seq<Document>, deleted: seq<Path>, k: Package)
    requires Keyed(base) && DistinctPaths(documents) && !Incomplete(base, documents, deleted)
    ensures Affected(base, documents, deleted, k) ==> InPackage(Merged(base, documents, deleted), k) == InPackage(ByPath(documents), k)
    ensures !Affected(base, documents, deleted, k) ==>
      InPackage(Merged(base, documents, deleted), k) == InPackage(base, k) && InPackage(ByPath(documents), k) == map[]
  {
    hide *;
    TouchedIsReplaced(base, documents, deleted, k);
    if !Affected(base, documents, deleted, k) {
      UntouchedIsRetained(base, documents, deleted, k);
    }
  }

  lemma TouchedIsReplaced(base: map<Path, Document>, documents: seq<Document>, deleted: seq<Path>, k: Package)
    requires !Incomplete(base, documents, deleted)
    ensures Affected(base, documents, deleted, k) ==> InPackage(Merged(base, documents, deleted), k) == InPackage(ByPath(documents), k)
  {
    hide ByPath, Affected;
    var merged, given := Merged(base, documents, deleted), ByPath(documents);
    if Affected(base, documents, deleted, k) {
      forall p | p in merged && merged[p].package == k ensures p in given {
        assert p !in given ==> Retained(base, documents, deleted, p);
      }
      assert InPackage(merged, k) == InPackage(given, k);
    }
  }

  lemma UntouchedIsRetained(base: map<Path, Document>, documents: seq<Document>, deleted: seq<Path>, k: Package)
    requires DistinctPaths(documents) && !Affected(base, documents, deleted, k)
    ensures InPackage(Merged(base, documents, deleted), k) == InPackage(base, k) && InPackage(ByPath(documents), k) == map[]
  {
    ByPathIs(documents);
    hide ByPath;
    var merged, given := Merged(base, documents, deleted), ByPath(documents);
    forall p | p in given ensures given[p].package != k && (p in base ==> base[p].package != k) {
      assert given[p] in documents && given[p].path == p;
    }
    assert InPackage(merged, k) == InPackage(base, k);
  }

  /** Adds the base's rows of the packages that the delta leaves untouched. */
  method RetainedPackages(base: seq<Entry<PackageRow>>, affected: set<Package>, packages0: seq<Entry<PackageRow>>) returns (packages: seq<Entry<PackageRow>>)
    requires StrictlySorted(base) && DistinctKeys(packages0) && forall x :: x in packages0 ==> x.key in affected
    ensures forall x :: x in packages <==> x in packages0 || (x in base && x.key !in affected)
    ensures DistinctKeys(packages)
  {
    packages := packages0;
    for i := 0 to |base|
      invariant forall x :: x in packages <==> x in packages0 || (x in base[..i] && x.key !in affected)
      invariant DistinctKeys(packages)
    {
      assert forall x :: x in base[..i + 1] <==> x in base[..i] || x == base[i];
      if base[i].key !in affected {
        forall x | x in packages ensures x.key != base[i].key {
          if x in base[..i] {
            var j :| 0 <= j < i && base[..i][j] == x;
            assert base[j] == x;
          }
        }
        hide StrictlySorted, DistinctKeys;
        NewKey(packages, base[i]);
        packages := packages + [base[i]];
      }
    }
    assert base[..|base|] == base;
  }

  lemma MergedPackages(configuration: Configuration, base: map<Path, Document>, documents: seq<Document>, deleted: seq<Path>, affected: set<Package>,
                       rows: seq<Entry<PackageRow>>, packages0: seq<Entry<PackageRow>>, packages: seq<Entry<PackageRow>>)
    requires Keyed(base) && DistinctPaths(documents) && !Incomplete(base, documents, deleted)
    requires forall k :: k in affected <==> Affected(base, documents, deleted, k)
    requires PackagesOf(rows, configuration, base) && PackagesOf(packages0, configuration, ByPath(documents))
    requires forall x :: x in packages <==> x in packages0 || (x in rows && x.key !in affected)
    ensures PackagesOf(packages, configuration, Merged(base, documents, deleted))
  {
    hide Affected, Incomplete, InPackage, RowOf, ByPath, Merged;
    forall x ensures x in packages <==>
      InPackage(Merged(base, documents, deleted), x.key) != map[]
      && x.value == RowOf(configuration, x.key, InPackage(Merged(base, documents, deleted), x.key))
    {
      PackagesWhollyReplacedOrRetained(base, documents, deleted, x.key);
    }
  }

  lemma GivenIsAffected(base: map<Path, Document>, documents: seq<Document>, deleted: seq<Path>, configuration: Configuration, packages0: seq<Entry<PackageRow>>)
    requires DistinctPaths(documents) && PackagesOf(packages0, configuration, ByPath(documents))
    ensures forall x :: x in packages0 ==> Affected(base, documents, deleted, x.key)
  {
    ByPathIs(documents);
    hide ByPath, RowOf;
    forall x | x in packages0 ensures Affected(base, documents, deleted, x.key) {
      var in_ := InPackage(ByPath(documents), x.key);
      var p :| p in in_;
      assert ByPath(documents)[p] in documents;
    }
  }

  /**
   * A delta against a base is refused exactly where a deletion is bad or a
   * touched package incomplete; else it yields what publishing the merged
   * documents in full would, hashes included.
   */
  method DeltaExtraction(valid: Path -> bool, base: Extraction, documents: seq<Document>, deleted: seq<Path>) returns (r: Option<Extraction>)
    requires DistinctPaths(documents) && Keyed(base.documents) && Publishes(base, base.configuration, base.documents)
    ensures r.Some? <==> !BadDeletion(valid, base.documents, documents, deleted) && !Incomplete(base.documents, documents, deleted)
    ensures r.Some? ==> Publishes(r.value, base.configuration, Merged(base.documents, documents, deleted))
  {
    hide *;
    if documents == [] && deleted == [] {
      EmptyDelta(valid, base.documents);
      return Some(base);
    }
    var given := FullExtraction(base.configuration, documents);
    PublishesParts(given, base.configuration, ByPath(documents));
    PublishesParts(base, base.configuration, base.documents);
    var ok, removed, affected := DeltaPaths(valid, base.documents, documents, deleted);
    if !ok {
      return None;
    }
    SortedIsDistinct(given.files);
    SortedIsDistinct(given.packages);
    var files;
    ok, files := RetainFiles(base.documents, documents, deleted, removed, affected, given.files);
    if !ok {
      return None;
    }
    GivenIsAffected(base.documents, documents, deleted, base.configuration, given.packages);
    var packages := RetainedPackages(base.packages, affected, given.packages);
    MergedPackages(base.configuration, base.documents, documents, deleted, affected, base.packages, given.packages, packages);
    var merged := Merged(base.documents, documents, deleted);
    FilesAreSorted(files, merged);
    PackagesAreSorted(packages, base.configuration, merged);
    files, packages := SortedByKey(files), SortedByKey(packages);
    var e := Extraction(base.configuration, merged, files, packages, ContentSetOf(files), ContextOf(base.configuration, packages));
    PublishesWhole(e);
    r := Some(e);
  }

  lemma SortedIsDistinct<V>(s: seq<Entry<V>>)
    requires StrictlySorted(s)
    ensures DistinctKeys(s)
  {
  }

  /** A delta that says nothing is accepted, and its merged documents are the base's. */
  lemma EmptyDelta(valid: Path -> bool, base: map<Path, Document>)
    ensures !BadDeletion(valid, base, [], []) && !Incomplete(base, [], []) && Merged(base, [], []) == base
  {
  }

  /** What a delta yields can be the base of the next. */
  lemma MergedIsKeyed(base: map<Path, Document>, documents: seq<Document>, deleted: seq<Path>)
    requires Keyed(base) && DistinctPaths(documents)
    ensures Keyed(Merged(base, documents, deleted))
  {
    ByPathIs(documents);
    hide ByPath;
  }

  /**
   * An accepted delta is indistinguishable from a full publication of the merged
   * documents, however that one lists them.
   */
  method DeltaEqualsFull(valid: Path -> bool, base: Extraction, documents: seq<Document>, deleted: seq<Path>, merged: seq<Document>) returns (delta: Option<Extraction>, full: Extraction)
    requires DistinctPaths(documents) && Keyed(base.documents) && Publishes(base, base.configuration, base.documents)
    requires DistinctPaths(merged) && ByPath(merged) == Merged(base.documents, documents, deleted)
    ensures Publishes(full, base.configuration, ByPath(merged))
    ensures delta == if !BadDeletion(valid, base.documents, documents, deleted) && !Incomplete(base.documents, documents, deleted) then Some(full) else None
  {
    hide *;
    delta := DeltaExtraction(valid, base, documents, deleted);
    full := FullExtraction(base.configuration, merged);
    if delta.Some? {
      PublishesDetermines(delta.value, full, base.configuration, ByPath(merged));
    }
  }

  // ------------------------------------------- what a publication tells

  lemma RowOfPackage(e: Extraction, configuration: Configuration, documents: map<Path, Document>, k: Package) returns (i: nat)
    requires Publishes(e, configuration, documents) && InPackage(documents, k) != map[]
    ensures i < |e.packages| && e.packages[i].key == k && e.packages[i].value == RowOf(configuration, k, InPackage(documents, k))
  {
    hide InPackage, RowOf, StrictlySorted;
    var row := Entry(k, RowOf(configuration, k, InPackage(documents, k)));
    assert row in e.packages;
    i :| 0 <= i < |e.packages| && e.packages[i] == row;
  }

  /** What a context tells of a document beside its path. */
  predicate SameInput(d: Document, e: Document) {
    d.package == e.package && d.contentHash == e.contentHash && d.gitPath == e.gitPath && d.content == e.content
  }

  ghost predicate SameInputs(documents: map<Path, Document>, others: map<Path, Document>) {
    documents.Keys == others.Keys && forall p :: p in documents && p in others ==> SameInput(documents[p], others[p])
  }

  lemma ContextTells(a: Extraction, b: Extraction, c: Configuration, documents: map<Path, Document>, c': Configuration, others: map<Path, Document>, p: Path)
    requires Publishes(a, c, documents) && Publishes(b, c', others) && ContextOf(c, a.packages) == ContextOf(c', b.packages)
    requires p in documents
    ensures p in others && SameInput(documents[p], others[p])
  {
    var k := documents[p].package;
    assert p in InPackage(documents, k);
    var i := RowOfPackage(a, c, documents, k);
    assert ContextOf(c, a.packages).inputHashes[i] == ContextOf(c', b.packages).inputHashes[i];
    assert b.packages[i] in b.packages;
    hide StrictlySorted, FilesOf, ContextOf, ContentSetOf, Declarations;
    assert InputsOf(InPackage(documents, k)) == InputsOf(InPackage(others, k));
    assert p in InputsOf(InPackage(others, k));
    assert InputsOf(InPackage(documents, k))[p] == InputOf(documents[p]) && InputsOf(InPackage(others, k))[p] == InputOf(others[p]);
  }

  lemma SameInputsOfPackage(documents: map<Path, Document>, others: map<Path, Document>, k: Package)
    requires SameInputs(documents, others)
    ensures InputsOf(InPackage(documents, k)) == InputsOf(InPackage(others, k))
    ensures InPackage(documents, k) == map[] <==> InPackage(others, k) == map[]
  {
    var x, y := InPackage(documents, k), InPackage(others, k);
    assert x.Keys == y.Keys;
    assert InputsOf(x) == InputsOf(y);
    assert x == map[] <==> x.Keys == {};
  }

  lemma SameContext(a: seq<Entry<PackageRow>>, b: seq<Entry<PackageRow>>, c: Configuration, documents: map<Path, Document>, others: map<Path, Document>)
    requires StrictlySorted(a) && StrictlySorted(b) && PackagesOf(a, c, documents) && PackagesOf(b, c, others) && SameInputs(documents, others)
    ensures ContextOf(c, a) == ContextOf(c, b)
  {
    var ka := seq(|a|, i requires 0 <= i < |a| => a[i].key);
    var kb := seq(|b|, i requires 0 <= i < |b| => b[i].key);
    forall k ensures k in ka <==> k in kb {
      PackageIsListed(a, c, documents, ka, k);
      PackageIsListed(b, c, others, kb, k);
      SameInputsOfPackage(documents, others, k);
    }
    AscendingIsUnique<nat>(ka, kb, (x, y) => x < y);
    forall i | 0 <= i < |a| ensures a[i].key == b[i].key && a[i].value.inputHash == b[i].value.inputHash {
      assert ka[i] == kb[i] && a[i] in a && b[i] in b;
      SameInputsOfPackage(documents, others, a[i].key);
      hide InPackage, InputsOf, Declarations, StrictlySorted, SameInputs;
    }
    assert ContextOf(c, a).inputHashes == ContextOf(c, b).inputHashes;
  }

  lemma PackageIsListed(packages: seq<Entry<PackageRow>>, c: Configuration, documents: map<Path, Document>, keys: seq<Package>, k: Package)
    requires PackagesOf(packages, c, documents) && |keys| == |packages| && forall i :: 0 <= i < |packages| ==> keys[i] == packages[i].key
    ensures k in keys <==> InPackage(documents, k) != map[]
  {
    hide InPackage, RowOf;
    if k in keys {
      var i :| 0 <= i < |keys| && keys[i] == k;
      assert packages[i] in packages;
    }
    if InPackage(documents, k) != map[] {
      assert Entry(k, RowOf(c, k, InPackage(documents, k))) in packages;
      var i :| 0 <= i < |packages| && packages[i] == Entry(k, RowOf(c, k, InPackage(documents, k)));
      assert keys[i] == k;
    }
  }

  /**
   * Two publications have one context hash exactly when their configurations are the
   * same and their documents agree on path, package, content hash, Git path and content.
   */
  lemma OneContextExactly(a: Extraction, b: Extraction, c: Configuration, documents: map<Path, Document>, c': Configuration, others: map<Path, Document>)
    requires Publishes(a, c, documents) && Publishes(b, c', others)
    ensures a.contextHash == b.contextHash <==> c == c' && SameInputs(documents, others)
  {
    hide InPackage, RowOf, FilesOf, PackagesOf, StrictlySorted, ContentSetOf, SameInput;
    if a.contextHash == b.contextHash {
      assert c == c' by { assert ContextOf(c, a.packages).configuration == ContextOf(c', b.packages).configuration; }
      forall p | p in documents ensures p in others && SameInput(documents[p], others[p]) {
        ContextTells(a, b, c, documents, c', others, p);
      }
      forall p | p in others ensures p in documents {
        ContextTells(b, a, c', others, c, documents, p);
      }
    }
    if c == c' && SameInputs(documents, others) {
      SameContext(a.packages, b.packages, c, documents, others);
    }
  }

  /** What a content set tells of a document beside its path. */
  predicate SameTold(d: Document, e: Document) {
    d.package == e.package && d.contentHash == e.contentHash && d.gitPath == e.gitPath
  }

  /** Two publications have one content set exactly when their documents agree on path, package, content hash and Git path. */
  lemma OneContentSetExactly(a: Extraction, b: Extraction, c: Configuration, documents: map<Path, Document>, c': Configuration, others: map<Path, Document>)
    requires Publishes(a, c, documents) && Publishes(b, c', others)
    ensures a.contentSetHash == b.contentSetHash <==>
      documents.Keys == others.Keys && forall p :: p in documents && p in others ==> SameTold(documents[p], others[p])
  {
    hide InPackage, RowOf, ContextOf, PackagesOf;
    if a.contentSetHash == b.contentSetHash {
      ContentSetTells(a, b, documents, others);
      ContentSetTells(b, a, others, documents);
    } else if documents.Keys == others.Keys && forall p :: p in documents && p in others ==> SameTold(documents[p], others[p]) {
      SameContentSet(a.files, b.files, documents, others);
    }
  }

  lemma ContentSetTells(a: Extraction, b: Extraction, documents: map<Path, Document>, others: map<Path, Document>)
    requires FilesOf(a.files, documents) && FilesOf(b.files, others) && ContentSetOf(a.files) == ContentSetOf(b.files)
    ensures documents.Keys <= others.Keys && forall p :: p in documents ==> SameTold(documents[p], others[p])
  {
    forall p | p in documents ensures p in others && SameTold(documents[p], others[p]) {
      assert Entry(p, FileOf(documents[p])) in a.files;
      var i :| 0 <= i < |a.files| && a.files[i] == Entry(p, FileOf(documents[p]));
      assert ContentSetOf(a.files).files[i] == ContentSetOf(b.files).files[i];
      assert b.files[i] in b.files;
    }
  }

  function Told(e: Entry<File>): (Path, Package, string, string) {
    (e.key, e.value.package, e.value.contentHash, e.value.gitPath)
  }

  lemma {:induction false} SameContentSet(a: seq<Entry<File>>, b: seq<Entry<File>>, documents: map<Path, Document>, others: map<Path, Document>)
    requires StrictlySorted(a) && StrictlySorted(b) && FilesOf(a, documents) && FilesOf(b, others) && documents.Keys == others.Keys
    requires forall p :: p in documents ==> SameTold(documents[p], others[p])
    ensures ContentSetOf(a) == ContentSetOf(b)
  {
    var ka := seq(|a|, i requires 0 <= i < |a| => a[i].key);
    var kb := seq(|b|, i requires 0 <= i < |b| => b[i].key);
    forall p ensures p in ka <==> p in kb {
      KeyIsListed(a, documents, ka, p);
      KeyIsListed(b, others, kb, p);
    }
    AscendingIsUnique<nat>(ka, kb, (x, y) => x < y);
    forall i | 0 <= i < |a| ensures Told(a[i]) == Told(b[i]) {
      assert ka[i] == kb[i] && a[i] in a && b[i] in b;
    }
    assert ContentSetOf(a).files == ContentSetOf(b).files;
  }

  lemma KeyIsListed(files: seq<Entry<File>>, documents: map<Path, Document>, keys: seq<Path>, p: Path)
    requires FilesOf(files, documents) && |keys| == |files| && forall i :: 0 <= i < |files| ==> keys[i] == files[i].key
    ensures p in keys <==> p in documents
  {
    if p in keys {
      var i :| 0 <= i < |keys| && keys[i] == p;
      assert files[i] in files;
    }
    if p in documents {
      assert Entry(p, FileOf(documents[p])) in files;
      var i :| 0 <= i < |files| && files[i] == Entry(p, FileOf(documents[p]));
      assert keys[i] == p;
    }
  }

  // --------------------------------------------- which deltas are refused

  function Listed(s: seq<Path>): set<Path> {
    set p | p in s
  }

  /** No element of the list was there before. */
  ghost predicate NoneRepeated(s: seq<Path>) {
    forall i :: 0 <= i < |s| ==> s[i] !in s[..i]
  }

  lemma NoneRepeatedNext(s: seq<Path>, last: Path)
    ensures NoneRepeated(s + [last]) <==> NoneRepeated(s) && last !in s
    ensures Listed(s + [last]) == Listed(s) + {last}
  {
    var longer := s + [last];
    assert longer[..|s|] == s && longer[|s|] == last;
    assert forall i :: 0 <= i < |s| ==> longer[i] == s[i] && longer[..i] == s[..i];
    if NoneRepeated(longer) {
      assert longer[|s|] !in longer[..|s|];
    }
  }

  lemma {:induction false} SetOfList(s: seq<Path>)
    ensures |Listed(s)| <= |s| && (|Listed(s)| == |s| <==> NoneRepeated(s))
  {
    if s == [] {
      assert Listed(s) == {};
    } else {
      var n := |s| - 1;
      SetOfList(s[..n]);
      NoneRepeatedNext(s[..n], s[n]);
      assert s[..n] + [s[n]] == s;
      assert s[n] in Listed(s[..n]) <==> s[n] in s[..n];
      hide NoneRepeated;
    }
  }

  lemma SizeReplaced<T>(base: set<T>, gone: set<T>, given: set<T>)
    ensures |(base - gone) + given| == |base| + |given - base| - |(gone * base) - given|
  {
    var taken, added := (gone * base) - given, given - base;
    assert (base - gone) + given == (base - taken) + added;
    assert base == (base - taken) + taken;
    assert (base - taken) !! added;
  }

  lemma MergedSize(base: map<Path, Document>, documents: seq<Document>, deleted: seq<Path>)
    ensures var gone, given := Listed(deleted), ByPath(documents).Keys;
            |Merged(base, documents, deleted)| == |base| + |given - base.Keys| - |(gone * base.Keys) - given|
  {
    var gone, given, merged := Listed(deleted), ByPath(documents).Keys, Merged(base, documents, deleted);
    hide ByPath;
    assert merged.Keys == (base.Keys - gone) + given;
    hide Merged;
    SizeReplaced(base.Keys, gone, given);
  }

  /** Deletions are good exactly when they are well-formed and each of them takes one document away. */
  lemma BadExactlyUnlessEachTakesOne(valid: Path -> bool, base: map<Path, Document>, documents: seq<Document>, deleted: seq<Path>)
    requires DistinctPaths(documents)
    ensures !BadDeletion(valid, base, documents, deleted) <==>
      (forall p :: p in deleted ==> valid(p))
      && |Merged(base, documents, deleted)| == |base| + |ByPath(documents).Keys - base.Keys| - |deleted|
  {
    var gone, given := Listed(deleted), ByPath(documents).Keys;
    MergedSize(base, documents, deleted);
    SetOfList(deleted);
    GoodDeletions(valid, base, documents, deleted);
    hide BadDeletion, Merged, ByPath, DistinctPaths, Listed, NoneRepeated;
    var taken := (gone * base.Keys) - given;
    SubsetSize(taken, gone);
    assert taken == gone <==> gone <= base.Keys - given;
  }

  lemma SubsetSize<T>(a: set<T>, b: set<T>)
    requires a <= b
    ensures |a| <= |b| && (|a| == |b| <==> a == b)
  {
    assert b == a + (b - a);
    assert |b - a| == 0 <==> b - a == {};
  }

  lemma GivenPaths(documents: seq<Document>)
    requires DistinctPaths(documents)
    ensures forall p :: p in ByPath(documents) <==> exists d :: d in documents && d.path == p
  {
    ByPathIs(documents);
    hide ByPath, DistinctPaths;
  }

  lemma GoodDeletions(valid: Path -> bool, base: map<Path, Document>, documents: seq<Document>, deleted: seq<Path>)
    requires DistinctPaths(documents)
    ensures !BadDeletion(valid, base, documents, deleted) <==>
      && (forall p :: p in deleted ==> valid(p))
      && Listed(deleted) <= base.Keys - ByPath(documents).Keys
      && NoneRepeated(deleted)
  {
    GivenPaths(documents);
    hide ByPath, DistinctPaths;
    if BadDeletion(valid, base, documents, deleted) {
      if d :| d in documents && d.path in deleted {
        assert d.path in Listed(deleted) && d.path in ByPath(documents).Keys;
      } else {
        var i :| 0 <= i < |deleted| && (!valid(deleted[i]) || deleted[i] !in base || deleted[i] in deleted[..i]);
        assert deleted[i] in deleted && deleted[i] in Listed(deleted);
      }
    } else {
      forall p | p in Listed(deleted) ensures p in base && p !in ByPath(documents) {
        var i :| 0 <= i < |deleted| && deleted[i] == p;
      }
    }
  }

  /** Of each package the delta leaves all documents as they are and gives none, or leaves none. */
  ghost predicate LeavesWhole(base: map<Path, Document>, documents: seq<Document>, deleted: seq<Path>) {
    forall k ::
      || ((forall p :: p in InPackage(base, k) ==> Retained(base, documents, deleted, p)) && InPackage(ByPath(documents), k) == map[])
      || (forall p :: p in InPackage(base, k) ==> !Retained(base, documents, deleted, p))
  }

  /** A delta leaves out part of a touched package exactly when it mixes a package's old documents with new ones. */
  lemma IncompleteExactlyWhenMixed(base: map<Path, Document>, documents: seq<Document>, deleted: seq<Path>)
    requires DistinctPaths(documents)
    ensures Incomplete(base, documents, deleted) <==> !LeavesWhole(base, documents, deleted)
  {
    hide ByPath, Affected, DistinctPaths;
    forall k ensures Affected(base, documents, deleted, k) <==>
      !((forall p :: p in InPackage(base, k) ==> Retained(base, documents, deleted, p)) && InPackage(ByPath(documents), k) == map[])
    {
      AffectedExactly(base, documents, deleted, k);
    }
  }

  /** A delta touches exactly the packages of which it does not retain everything or gives something. */
  lemma AffectedExactly(base: map<Path, Document>, documents: seq<Document>, deleted: seq<Path>, k: Package)
    requires DistinctPaths(documents)
    ensures Affected(base, documents, deleted, k) <==>
      !((forall p :: p in InPackage(base, k) ==> Retained(base, documents, deleted, p)) && InPackage(ByPath(documents), k) == map[])
  {
    ByPathIs(documents);
    hide ByPath, DistinctPaths, Keyed;
    var given := ByPath(documents);
    if d :| d in documents && d.package == k {
      assert d.path in InPackage(given, k);
    }
    if d :| d in documents && d.path in base && base[d.path].package == k {
      assert d.path in InPackage(base, k) && !Retained(base, documents, deleted, d.path);
    }
    if p :| p in deleted && p in base && base[p].package == k {
      assert p in InPackage(base, k) && !Retained(base, documents, deleted, p);
    }
    if p :| p in InPackage(given, k) {
      assert given[p] in documents;
    }
  }

  // ------------------------------------------------ what the rows show

  function OfPackage(documents: map<Path, Document>, k: Package): set<Path> {
    set p | p in documents && documents[p].package == k
  }

  /** The files and the packages of a publication show every document. */
  lemma PublicationShows(e: Extraction, configuration: Configuration, documents: map<Path, Document>, p: Path)
    requires Publishes(e, configuration, documents) && p in documents
    ensures var d := documents[p];
            && (exists i :: 0 <= i < |e.files| && e.files[i].key == p && e.files[i].value == File(d.package, d.contentHash, d.gitPath, d.size))
            && exists i :: 0 <= i < |e.packages| && e.packages[i].key == d.package
                 && e.packages[i].value.fileCount == |OfPackage(documents, d.package)|
  {
    var d := documents[p];
    assert Entry(p, FileOf(d)) in e.files;
    assert p in InPackage(documents, d.package);
    var i := RowOfPackage(e, configuration, documents, d.package);
    assert InPackage(documents, d.package).Keys == OfPackage(documents, d.package);
  }

  lemma {:induction false} DeclaredAre(symbols: seq<Symbol>, x: string)
    ensures x in Declared(symbols) <==> exists symbol :: symbol in symbols && Exports(symbol) && EntryOf(symbol) == x
  {
    if symbols != [] {
      var n := |symbols| - 1;
      DeclaredAre(symbols[..n], x);
      assert symbols == symbols[..n] + [symbols[n]];
    }
  }

  lemma {:induction false} DeclarationsAre(documents: map<Path, Document>, x: string)
    ensures x in Declarations(documents) <==> exists p :: p in documents && x in Declared(documents[p].content.symbols)
    decreases |documents|
  {
    if documents.Keys != {} {
      hide Declared;
      var first := FirstOf(documents.Keys);
      FewerDocuments(documents, first);
      var rest := documents - {first};
      DeclarationsAre(rest, x);
      assert forall p :: p in documents <==> p == first || p in rest;
      assert forall p :: p in rest ==> rest[p] == documents[p];
    }
  }

  ghost predicate Exporting(d: Document, x: string) {
    exists symbol :: symbol in d.content.symbols
      && symbol.id.Some? && symbol.visibility == "exported" && x == symbol.id.value + " " + symbol.publicHash
  }

  lemma ExportsIt(d: Document, x: string)
    ensures x in Declared(d.content.symbols) <==> Exporting(d, x)
  {
    DeclaredAre(d.content.symbols, x);
  }

  lemma PackageExports(documents: map<Path, Document>, k: Package, x: string)
    ensures x in Declarations(InPackage(documents, k)) <==> exists p :: p in documents && documents[p].package == k && Exporting(documents[p], x)
  {
    var inside := InPackage(documents, k);
    hide Declared, Declarations, Exporting;
    DeclarationsAre(inside, x);
    forall p | p in documents ensures x in Declared(documents[p].content.symbols) <==> Exporting(documents[p], x) {
      ExportsIt(documents[p], x);
    }
    assert forall p :: p in inside <==> p in documents && documents[p].package == k;
    assert forall p :: p in inside ==> inside[p] == documents[p];
    hide InPackage;
  }

  /** The export shape of a package's row shows exactly the symbols that its documents export, by id and public hash. */
  lemma ShapeShows(e: Extraction, c: Configuration, documents: map<Path, Document>, i: nat, x: string)
    requires Publishes(e, c, documents) && i < |e.packages|
    ensures e.packages[i].value.exportShape.ExportShape?
    ensures x in e.packages[i].value.exportShape.declared <==>
      exists p :: p in documents && documents[p].package == e.packages[i].key && Exporting(documents[p], x)
  {
    assert e.packages[i] in e.packages;
    hide StrictlySorted, FilesOf, InPackage, Declarations, ContextOf, ContentSetOf, Exporting;
    PackageExports(documents, e.packages[i].key, x);
  }
}
