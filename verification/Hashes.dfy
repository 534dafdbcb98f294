/**
 * The digests of a publication (indexer/hashes.go over
 * internal/canonicalhash/hash.go): the bytes they are fed, and that these tell
 * the contents apart. A digest stands for all the bytes fed to it.
 */
module Hashes {
  import opened Common
  import opened Sorting

  type Byte = b: nat | b < 256
  type Bytes = seq<Byte>

  const COUNT_SIZE := 8
  const COUNT_LIMIT := 0x1_0000_0000_0000_0000

  /** The low k bytes of a number, highest first. */
  function BigEndian(n: nat, k: nat): (b: Bytes)
    ensures |b| == k
  {
    if k == 0 then [] else BigEndian(n / 256, k - 1) + [n % 256]
  }

  function ValueOf(b: Bytes): nat {
    if b == [] then 0 else ValueOf(b[..|b| - 1]) * 256 + b[|b| - 1]
  }

  function Power(k: nat): nat {
    if k == 0 then 1 else 256 * Power(k - 1)
  }

  lemma {:induction false} BigEndianKeeps(n: nat, k: nat)
    requires n < Power(k)
    ensures ValueOf(BigEndian(n, k)) == n
  {
    if k > 0 {
      BigEndianKeeps(n / 256, k - 1);
    }
  }

  datatype Field = CountField(n: nat) | TextField(text: Bytes)

  /** The number written for a field: a count, or the length of a text. */
  function Measure(f: Field): nat {
    if f.CountField? then f.n else |f.text|
  }

  predicate Sized(fields: seq<Field>) {
    forall i :: 0 <= i < |fields| ==> Measure(fields[i]) < COUNT_LIMIT
  }

  function FieldBytes(f: Field): (b: Bytes)
    ensures |b| >= COUNT_SIZE
  {
    BigEndian(Measure(f), COUNT_SIZE) + if f.CountField? then [] else f.text
  }

  function Encode(fields: seq<Field>): Bytes {
    if fields == [] then [] else FieldBytes(fields[0]) + Encode(fields[1..])
  }

  lemma {:induction false} EncodeAppends(fields: seq<Field>, f: Field)
    ensures Encode(fields + [f]) == Encode(fields) + FieldBytes(f)
  {
    if fields == [] {
      assert [f][1..] == [];
    } else {
      EncodeAppends(fields[1..], f);
      assert (fields + [f])[1..] == fields[1..] + [f];
    }
  }

  // ------------------------------------------------------ what bytes determine

  lemma LimitIsPower()
    ensures Power(COUNT_SIZE) == COUNT_LIMIT
  {
    assert Power(1) == 256;
    assert Power(3) == 256 * 256 * 256;
    assert Power(5) == 256 * 256 * Power(3);
    assert Power(7) == 256 * 256 * Power(5);
  }

  lemma NumberDetermined(m: nat, n: nat, x: Bytes, y: Bytes)
    requires m < COUNT_LIMIT && n < COUNT_LIMIT && BigEndian(m, COUNT_SIZE) + x == BigEndian(n, COUNT_SIZE) + y
    ensures m == n && x == y
  {
    LimitIsPower();
    hide Power, BigEndian;
    var a, b := BigEndian(m, COUNT_SIZE), BigEndian(n, COUNT_SIZE);
    assert a == (a + x)[..COUNT_SIZE] == (b + y)[..COUNT_SIZE] == b;
    assert x == (a + x)[COUNT_SIZE..] == (b + y)[COUNT_SIZE..] == y;
    BigEndianKeeps(m, COUNT_SIZE);
    BigEndianKeeps(n, COUNT_SIZE);
  }

  /** Of fields of one kind, the bytes tell which comes first and where it ends. */
  lemma FieldDetermined(f: Field, g: Field, x: Bytes, y: Bytes)
    requires Measure(f) < COUNT_LIMIT && Measure(g) < COUNT_LIMIT && f.CountField? == g.CountField?
    requires FieldBytes(f) + x == FieldBytes(g) + y
    ensures f == g && x == y
  {
    hide BigEndian;
    var a, b := BigEndian(Measure(f), COUNT_SIZE), BigEndian(Measure(g), COUNT_SIZE);
    if f.CountField? {
      assert FieldBytes(f) == a && FieldBytes(g) == b;
      NumberDetermined(f.n, g.n, x, y);
    } else {
      assert a + (f.text + x) == FieldBytes(f) + x == FieldBytes(g) + y == b + (g.text + y);
      NumberDetermined(|f.text|, |g.text|, f.text + x, g.text + y);
      assert f.text == (f.text + x)[..|f.text|] == (g.text + y)[..|g.text|] == g.text;
      assert x == (f.text + x)[|f.text|..] == (g.text + y)[|g.text|..] == y;
    }
  }

  /** Where two different lists of fields first differ, one has a count and the other a text. */
  ghost predicate DifferInKind(f: seq<Field>, g: seq<Field>) {
    exists i :: 0 <= i < |f| && i < |g| && f[..i] == g[..i] && f[i].CountField? != g[i].CountField?
  }

  /** Lists of fields share their bytes only where a count of one stands for a text of the other. */
  lemma {:induction false} SharedBytes(f: seq<Field>, g: seq<Field>)
    requires Sized(f) && Sized(g) && Encode(f) == Encode(g)
    ensures f == g || DifferInKind(f, g)
    decreases |f|
  {
    if f != [] && g != [] {
      if f[0].CountField? != g[0].CountField? {
        assert f[..0] == g[..0];
      } else {
        FieldDetermined(f[0], g[0], Encode(f[1..]), Encode(g[1..]));
        hide Encode, FieldBytes, Measure;
        SharedBytes(f[1..], g[1..]);
        if f[1..] != g[1..] {
          DifferLater(f, g);
        }
        assert f == [f[0]] + f[1..] && g == [g[0]] + g[1..];
      }
    }
  }

  lemma DifferLater(f: seq<Field>, g: seq<Field>)
    requires f != [] && g != [] && f[0] == g[0] && DifferInKind(f[1..], g[1..])
    ensures DifferInKind(f, g)
  {
    var v, w := f[1..], g[1..];
    var i :| 0 <= i < |v| && i < |w| && v[..i] == w[..i] && v[i].CountField? != w[i].CountField?;
    assert f[..i + 1] == [f[0]] + v[..i] && g[..i + 1] == [g[0]] + w[..i];
    assert f[i + 1] == v[i] && g[i + 1] == w[i];
  }

  /** A count of zero has the bytes of an empty text. */
  lemma CountReadsAsEmptyText()
    ensures Encode([CountField(0)]) == Encode([TextField([])]) && CountField(0) != TextField([])
  {
    assert [CountField(0)][1..] == [] && [TextField([])][1..] == [];
  }

  // -------------------------------------------------------------- digesting

  /** A digest, which begins with the version of what it digests. */
  class Digest {
    var written: Bytes
    ghost var fed: seq<Field>

    ghost predicate Valid()
      reads this
    {
      written == Encode(fed)
    }

    constructor (version: Bytes)
      ensures Valid() && fed == [TextField(version)]
    {
      written, fed := BigEndian(|version|, COUNT_SIZE) + version, [TextField(version)];
      assert [TextField(version)][1..] == [];
    }

    method Count(n: nat)
      requires Valid()
      modifies this
      ensures Valid() && fed == old(fed) + [CountField(n)]
    {
      EncodeAppends(fed, CountField(n));
      written, fed := written + BigEndian(n, COUNT_SIZE), fed + [CountField(n)];
    }

    method Text(text: Bytes)
      requires Valid()
      modifies this
      ensures Valid() && fed == old(fed) + [TextField(text)]
    {
      EncodeAppends(fed, TextField(text));
      written, fed := written + (BigEndian(|text|, COUNT_SIZE) + text), fed + [TextField(text)];
    }
  }

  /** The bytes of a version, all of whose characters are single bytes. */
  function VersionBytes(version: string): Bytes {
    seq(|version|, i requires 0 <= i < |version| => version[i] as int % 256)
  }

  const CONTENT_SET_VERSION := "uir-content-set-v2"
  const PACKAGE_INPUT_VERSION := "uir-package-input-v5"
  const CONTEXT_VERSION := "uir-context-hash-v1"

  datatype ContentFile = ContentFile(pathKey: Bytes, packagePath: Bytes, contentHash: Bytes, gitPath: Bytes)

  /** A path with the hash of what it stands for: a manifest, a file, an import or a package. */
  datatype Row = Row(key: Bytes, value: Bytes)

  function FileFields(files: seq<ContentFile>): (fields: seq<Field>)
    ensures |fields| == 4 * |files| && forall f :: f in fields ==> f.TextField?
  {
    if files == [] then [] else
      var file := files[|files| - 1];
      FileFields(files[..|files| - 1])
        + [TextField(file.pathKey), TextField(file.packagePath), TextField(file.contentHash), TextField(file.gitPath)]
  }

  function RowFields(rows: seq<Row>): (fields: seq<Field>)
    ensures |fields| == 2 * |rows| && forall f :: f in fields ==> f.TextField?
  {
    if rows == [] then [] else
      var row := rows[|rows| - 1];
      RowFields(rows[..|rows| - 1]) + [TextField(row.key), TextField(row.value)]
  }

  lemma {:induction false} FileFieldsDetermine(a: seq<ContentFile>, b: seq<ContentFile>)
    requires FileFields(a) == FileFields(b)
    ensures a == b
    decreases |a|
  {
    if a != [] && b != [] {
      var m, n := |a| - 1, |b| - 1;
      var x, y := FileFields(a), FileFields(b);
      assert x[..4 * m] == FileFields(a[..m]) && y[..4 * n] == FileFields(b[..n]);
      FileFieldsDetermine(a[..m], b[..n]);
      assert x[4 * m..] == y[4 * n..];
      assert x[4 * m] == y[4 * m] && x[4 * m + 1] == y[4 * m + 1] && x[4 * m + 2] == y[4 * m + 2] && x[4 * m + 3] == y[4 * m + 3];
      assert a == a[..m] + [a[m]] && b == b[..n] + [b[n]];
    }
  }

  lemma {:induction false} RowFieldsDetermine(a: seq<Row>, b: seq<Row>)
    requires RowFields(a) == RowFields(b)
    ensures a == b
    decreases |a|
  {
    if a != [] && b != [] {
      var m, n := |a| - 1, |b| - 1;
      var x, y := RowFields(a), RowFields(b);
      assert x[..2 * m] == RowFields(a[..m]) && y[..2 * n] == RowFields(b[..n]);
      RowFieldsDetermine(a[..m], b[..n]);
      assert x[2 * m] == y[2 * m] && x[2 * m + 1] == y[2 * m + 1];
      assert a == a[..m] + [a[m]] && b == b[..n] + [b[n]];
    }
  }

  /** Texts, a counted list of texts, and another: what each of the digests is fed. */
  function TwoLists(head: seq<Field>, m: nat, first: seq<Field>, n: nat, second: seq<Field>): seq<Field> {
    head + [CountField(m)] + first + [CountField(n)] + second
  }

  ghost predicate AllTexts(fields: seq<Field>) {
    forall i :: 0 <= i < |fields| ==> fields[i].TextField?
  }

  /** Where lists of as many texts follow equal counts, the bytes determine the fields. */
  lemma TwoListsDetermined(width: nat, head1: seq<Field>, m1: nat, first1: seq<Field>, n1: nat, second1: seq<Field>,
                           head2: seq<Field>, m2: nat, first2: seq<Field>, n2: nat, second2: seq<Field>)
    requires AllTexts(head1) && AllTexts(first1) && AllTexts(second1) && AllTexts(head2) && AllTexts(first2) && AllTexts(second2)
    requires |head1| == |head2| && |first1| == width * m1 && |first2| == width * m2
    requires Sized(TwoLists(head1, m1, first1, n1, second1)) && Sized(TwoLists(head2, m2, first2, n2, second2))
    requires Encode(TwoLists(head1, m1, first1, n1, second1)) == Encode(TwoLists(head2, m2, first2, n2, second2))
    ensures head1 == head2 && m1 == m2 && first1 == first2 && n1 == n2 && second1 == second2
  {
    hide Encode, Sized, TwoLists;
    var f, g := TwoLists(head1, m1, first1, n1, second1), TwoLists(head2, m2, first2, n2, second2);
    SharedBytes(f, g);
    TwoListsParts(head1, m1, first1, n1, second1);
    TwoListsParts(head2, m2, first2, n2, second2);
    SameKinds(f, g, |head1|, |first1|, |first2|);
  }

  /** A list of texts has counts only after its head, and after as many texts as the first count says. */
  ghost predicate CountsAt(f: seq<Field>, h: nat, k: nat) {
    forall i :: 0 <= i < |f| ==> (f[i].CountField? <==> i == h || i == h + 1 + k)
  }

  lemma SameKinds(f: seq<Field>, g: seq<Field>, h: nat, j: nat, k: nat)
    requires CountsAt(f, h, j) && CountsAt(g, h, k)
    requires h < |f| && h < |g| && (f[h] == g[h] ==> j == k)
    ensures !DifferInKind(f, g)
  {
    forall i | 0 <= i < |f| && i < |g| && f[..i] == g[..i] ensures f[i].CountField? == g[i].CountField? {
      if i > h {
        assert f[h] == f[..i][h] && g[h] == g[..i][h];
      }
    }
  }

  lemma TwoListsParts(head: seq<Field>, m: nat, first: seq<Field>, n: nat, second: seq<Field>)
    ensures var f, h, k := TwoLists(head, m, first, n, second), |head|, |head| + 1 + |first|;
            && |f| == k + 1 + |second|
            && (AllTexts(head) && AllTexts(first) && AllTexts(second) ==> CountsAt(f, h, |first|))
            && f[..h] == head && f[h] == CountField(m) && f[h + 1..k] == first && f[k] == CountField(n) && f[k + 1..] == second
  {
  }

  function ContentSetFields(files: seq<ContentFile>, manifests: seq<Row>): seq<Field> {
    TwoLists([TextField(VersionBytes(CONTENT_SET_VERSION))], |files|, FileFields(files), |manifests|, RowFields(manifests))
  }

  /** Digests the files in the order given, then the manifests. */
  method ContentSetHash(files: seq<ContentFile>, manifests: seq<Row>) returns (sum: Bytes)
    ensures sum == Encode(ContentSetFields(files, manifests))
  {
    var digest := new Digest(VersionBytes(CONTENT_SET_VERSION));
    digest.Count(|files|);
    ghost var before := digest.fed;
    for i := 0 to |files|
      invariant digest.Valid() && digest.fed == before + FileFields(files[..i])
    {
      assert files[..i + 1][..i] == files[..i];
      digest.Text(files[i].pathKey);
      digest.Text(files[i].packagePath);
      digest.Text(files[i].contentHash);
      digest.Text(files[i].gitPath);
    }
    assert files[..|files|] == files;
    digest.Count(|manifests|);
    FeedRows(digest, manifests);
    sum := digest.written;
  }

  /** Feeds each row's key and value. */
  method FeedRows(digest: Digest, rows: seq<Row>)
    requires digest.Valid()
    modifies digest
    ensures digest.Valid() && digest.fed == old(digest.fed) + RowFields(rows)
  {
    for i := 0 to |rows|
      invariant digest.Valid() && digest.fed == old(digest.fed) + RowFields(rows[..i])
    {
      assert rows[..i + 1][..i] == rows[..i];
      digest.Text(rows[i].key);
      digest.Text(rows[i].value);
    }
    assert rows[..|rows|] == rows;
  }

  /** Content sets have one digest exactly when they have the same files and the same manifests. */
  lemma ContentSetDetermines(files1: seq<ContentFile>, manifests1: seq<Row>, files2: seq<ContentFile>, manifests2: seq<Row>)
    requires Sized(ContentSetFields(files1, manifests1)) && Sized(ContentSetFields(files2, manifests2))
    ensures Encode(ContentSetFields(files1, manifests1)) == Encode(ContentSetFields(files2, manifests2)) <==>
      files1 == files2 && manifests1 == manifests2
  {
    hide Encode, Sized, TwoLists;
    if Encode(ContentSetFields(files1, manifests1)) == Encode(ContentSetFields(files2, manifests2)) {
      var head := [TextField(VersionBytes(CONTENT_SET_VERSION))];
      TwoListsDetermined(4, head, |files1|, FileFields(files1), |manifests1|, RowFields(manifests1),
                         head, |files2|, FileFields(files2), |manifests2|, RowFields(manifests2));
      FileFieldsDetermine(files1, files2);
      RowFieldsDetermine(manifests1, manifests2);
    }
  }

  // ------------------------------------------------- what is sorted before

  /** The order of texts, byte by byte. */
  predicate Precedes(a: Bytes, b: Bytes) {
    b != [] && (a == [] || a[0] < b[0] || (a[0] == b[0] && Precedes(a[1..], b[1..])))
  }

  lemma {:induction false} PrecedesIsStrict(a: Bytes, b: Bytes, c: Bytes)
    ensures !Precedes(a, a)
    ensures Precedes(a, b) && Precedes(b, c) ==> Precedes(a, c)
  {
    if a != [] {
      PrecedesIsStrict(a[1..], if b == [] then [] else b[1..], if c == [] then [] else c[1..]);
    }
  }

  lemma {:induction false} PrecedesIsTotal(a: Bytes, b: Bytes)
    ensures a == b || Precedes(a, b) || Precedes(b, a)
  {
    if a != [] && b != [] {
      PrecedesIsTotal(a[1..], b[1..]);
      assert a == [a[0]] + a[1..] && b == [b[0]] + b[1..];
    }
  }

  predicate KeyPrecedes(x: Row, y: Row) {
    Precedes(x.key, y.key)
  }

  predicate RowPrecedes(x: Row, y: Row) {
    Precedes(x.key, y.key) || (x.key == y.key && Precedes(x.value, y.value))
  }

  ghost predicate DistinctKeys(rows: seq<Row>) {
    DistinctBy(rows, (row: Row) => row.key)
  }

  lemma OrdersAreStrict()
    ensures StrictOrder(Precedes) && StrictOrder(KeyPrecedes) && StrictOrder(RowPrecedes)
  {
    hide Precedes;
    forall a, b, c ensures !Precedes(a, a) && (Precedes(a, b) && Precedes(b, c) ==> Precedes(a, c)) {
      PrecedesIsStrict(a, b, c);
    }
  }

  lemma KeysCompare(rows: seq<Row>)
    requires DistinctKeys(rows)
    ensures Comparable(rows, KeyPrecedes)
  {
    hide Precedes;
    forall i, j | 0 <= i < j < |rows| ensures KeyPrecedes(rows[i], rows[j]) || KeyPrecedes(rows[j], rows[i]) {
      PrecedesIsTotal(rows[i].key, rows[j].key);
    }
  }

  lemma RowsCompare(rows: seq<Row>)
    requires Distinct(rows)
    ensures Comparable(rows, RowPrecedes)
  {
    hide Precedes;
    forall i, j | 0 <= i < j < |rows| ensures RowPrecedes(rows[i], rows[j]) || RowPrecedes(rows[j], rows[i]) {
      PrecedesIsTotal(rows[i].key, rows[j].key);
      PrecedesIsTotal(rows[i].value, rows[j].value);
    }
  }

  function InputHead(configuration: Bytes, package: Bytes): seq<Field> {
    [TextField(VersionBytes(PACKAGE_INPUT_VERSION)), TextField(configuration), TextField(package)]
  }

  /** What is fed of a package's files and imports, once these are sorted. */
  function InputFields(configuration: Bytes, package: Bytes, files: seq<Row>, imports: seq<Row>): seq<Field> {
    TwoLists(InputHead(configuration, package), |files|, RowFields(files), |imports|, RowFields(imports))
  }

  function PackageInputFields(configuration: Bytes, package: Bytes, files: seq<Row>, imports: seq<Row>): seq<Field> {
    InputFields(configuration, package, Sorted(files, KeyPrecedes), Sorted(imports, RowPrecedes))
  }

  /** Digests a package's files sorted by path, and its imports sorted by path and then by shape. */
  method PackageInputHash(configuration: Bytes, package: Bytes, files: seq<Row>, imports: seq<Row>) returns (sum: Bytes)
    ensures sum == Encode(PackageInputFields(configuration, package, files, imports))
  {
    var sorted, sortedImports := Sorted(files, KeyPrecedes), Sorted(imports, RowPrecedes);
    var digest := new Digest(VersionBytes(PACKAGE_INPUT_VERSION));
    digest.Text(configuration);
    digest.Text(package);
    digest.Count(|sorted|);
    FeedRows(digest, sorted);
    digest.Count(|sortedImports|);
    FeedRows(digest, sortedImports);
    sum := digest.written;
    assert [TextField(VersionBytes(PACKAGE_INPUT_VERSION))] + [TextField(configuration)] + [TextField(package)] ==
      [TextField(VersionBytes(PACKAGE_INPUT_VERSION)), TextField(configuration), TextField(package)];
  }

  lemma InputFieldsDetermine(configuration1: Bytes, package1: Bytes, files1: seq<Row>, imports1: seq<Row>,
                             configuration2: Bytes, package2: Bytes, files2: seq<Row>, imports2: seq<Row>)
    requires Sized(InputFields(configuration1, package1, files1, imports1))
    requires Sized(InputFields(configuration2, package2, files2, imports2))
    requires Encode(InputFields(configuration1, package1, files1, imports1)) ==
             Encode(InputFields(configuration2, package2, files2, imports2))
    ensures configuration1 == configuration2 && package1 == package2 && files1 == files2 && imports1 == imports2
  {
    hide Encode, Sized, TwoLists;
    var head1, head2 := InputHead(configuration1, package1), InputHead(configuration2, package2);
    TwoListsDetermined(2, head1, |files1|, RowFields(files1), |imports1|, RowFields(imports1),
                       head2, |files2|, RowFields(files2), |imports2|, RowFields(imports2));
    RowFieldsDetermine(files1, files2);
    RowFieldsDetermine(imports1, imports2);
    assert head1[1] == head2[1] && head1[2] == head2[2];
  }

  /** Package inputs have one digest exactly when they have the same files and imports, in whatever order these come. */
  lemma PackageInputDetermines(configuration1: Bytes, package1: Bytes, files1: seq<Row>, imports1: seq<Row>,
                               configuration2: Bytes, package2: Bytes, files2: seq<Row>, imports2: seq<Row>)
    requires DistinctKeys(files1) && DistinctKeys(files2) && Distinct(imports1) && Distinct(imports2)
    requires Sized(PackageInputFields(configuration1, package1, files1, imports1))
    requires Sized(PackageInputFields(configuration2, package2, files2, imports2))
    ensures Encode(PackageInputFields(configuration1, package1, files1, imports1)) ==
            Encode(PackageInputFields(configuration2, package2, files2, imports2)) <==>
      && configuration1 == configuration2 && package1 == package2
      && (forall x :: x in files1 <==> x in files2) && (forall x :: x in imports1 <==> x in imports2)
  {
    hide Encode, Sized, InputFields, StrictOrder, Comparable, Sorted, KeyPrecedes, RowPrecedes, DistinctKeys, Distinct;
    OrdersAreStrict();
    KeysCompare(files1);
    KeysCompare(files2);
    RowsCompare(imports1);
    RowsCompare(imports2);
    SortedAlike(files1, files2, KeyPrecedes);
    SortedAlike(imports1, imports2, RowPrecedes);
    if Encode(PackageInputFields(configuration1, package1, files1, imports1)) ==
       Encode(PackageInputFields(configuration2, package2, files2, imports2)) {
      InputFieldsDetermine(configuration1, package1, Sorted(files1, KeyPrecedes), Sorted(imports1, RowPrecedes),
                           configuration2, package2, Sorted(files2, KeyPrecedes), Sorted(imports2, RowPrecedes));
    }
  }

  function ContextFields(configuration: Bytes, rows: seq<Row>): seq<Field> {
    [TextField(VersionBytes(CONTEXT_VERSION)), TextField(configuration), CountField(|rows|)] + RowFields(rows)
  }

  /** The rows of a map, sorted by key. */
  ghost predicate ListsMap(rows: seq<Row>, m: map<Bytes, Bytes>) {
    Ascending(rows, KeyPrecedes) && forall row: Row :: row in rows <==> row.key in m && m[row.key] == row.value
  }

  /** Collects the keys of a map in no particular order, each once. */
  method KeysOf(m: map<Bytes, Bytes>) returns (keys: seq<Bytes>)
    ensures Distinct(keys) && forall k :: k in keys <==> k in m
  {
    keys := [];
    var left := m.Keys;
    while left != {}
      invariant left <= m.Keys && Distinct(keys) && forall k :: k in keys <==> k in m.Keys - left
      decreases |left|
    {
      var key :| key in left;
      assert forall i :: 0 <= i < |keys| ==> keys[i] in keys && keys[i] != key;
      keys := keys + [key];
      left := left - {key};
    }
  }

  lemma TextsCompare(keys: seq<Bytes>)
    requires Distinct(keys)
    ensures Comparable(keys, Precedes)
  {
    forall i, j | 0 <= i < j < |keys| ensures Precedes(keys[i], keys[j]) || Precedes(keys[j], keys[i]) {
      PrecedesIsTotal(keys[i], keys[j]);
    }
  }

  ghost function RowsOf(keys: seq<Bytes>, m: map<Bytes, Bytes>): seq<Row>
    requires forall k :: k in keys ==> k in m
  {
    seq(|keys|, i requires 0 <= i < |keys| => Row(keys[i], m[keys[i]]))
  }

  lemma RowsOfKeys(keys: seq<Bytes>, m: map<Bytes, Bytes>)
    requires Ascending(keys, Precedes) && forall k :: k in keys <==> k in m
    ensures ListsMap(RowsOf(keys, m), m)
  {
    hide Precedes;
    var rows := RowsOf(keys, m);
    forall row: Row ensures row in rows <==> row.key in m && m[row.key] == row.value {
      if row.key in m && m[row.key] == row.value {
        var i :| 0 <= i < |keys| && keys[i] == row.key;
        assert rows[i] == row;
      }
    }
  }

  /** Feeds each package's path and input hash. */
  method FeedPackages(digest: Digest, packages: seq<Bytes>, inputHashes: map<Bytes, Bytes>)
    requires digest.Valid() && forall k :: k in packages ==> k in inputHashes
    modifies digest
    ensures digest.Valid() && digest.fed == old(digest.fed) + RowFields(RowsOf(packages, inputHashes))
  {
    for i := 0 to |packages|
      invariant digest.Valid() && digest.fed == old(digest.fed) + RowFields(RowsOf(packages[..i], inputHashes))
    {
      assert RowsOf(packages[..i + 1], inputHashes)[..i] == RowsOf(packages[..i], inputHashes);
      digest.Text(packages[i]);
      digest.Text(inputHashes[packages[i]]);
    }
    assert packages[..|packages|] == packages;
  }

  /** Digests the input hash of every package, packages sorted. */
  method ContextHash(configuration: Bytes, inputHashes: map<Bytes, Bytes>) returns (sum: Bytes, ghost rows: seq<Row>)
    ensures ListsMap(rows, inputHashes) && sum == Encode(ContextFields(configuration, rows))
  {
    var collected := KeysOf(inputHashes);
    OrdersAreStrict();
    TextsCompare(collected);
    SortedSorts(collected, Precedes);
    var packages := Sorted(collected, Precedes);
    RowsOfKeys(packages, inputHashes);
    rows := RowsOf(packages, inputHashes);
    hide Precedes, Ascending, Sorted, ListsMap, RowFields;
    var digest := new Digest(VersionBytes(CONTEXT_VERSION));
    digest.Text(configuration);
    digest.Count(|packages|);
    FeedPackages(digest, packages, inputHashes);
    sum := digest.written;
    assert digest.fed == [TextField(VersionBytes(CONTEXT_VERSION)), TextField(configuration), CountField(|rows|)] + RowFields(rows);
  }

  /** Contexts have one digest exactly when they have the same configuration and the same input hash for every package. */
  lemma ContextDetermines(configuration1: Bytes, rows1: seq<Row>, hashes1: map<Bytes, Bytes>,
                          configuration2: Bytes, rows2: seq<Row>, hashes2: map<Bytes, Bytes>)
    requires ListsMap(rows1, hashes1) && ListsMap(rows2, hashes2)
    requires Sized(ContextFields(configuration1, rows1)) && Sized(ContextFields(configuration2, rows2))
    ensures Encode(ContextFields(configuration1, rows1)) == Encode(ContextFields(configuration2, rows2)) <==>
      configuration1 == configuration2 && hashes1 == hashes2
  {
    OrdersAreStrict();
    hide Encode, Sized, StrictOrder, KeyPrecedes, Ascending;
    if Encode(ContextFields(configuration1, rows1)) == Encode(ContextFields(configuration2, rows2)) {
      ContextFieldsDetermine(configuration1, rows1, configuration2, rows2);
      SameRowsSameMap(rows1, hashes1, hashes2);
    }
    if hashes1 == hashes2 {
      AscendingIsUnique(rows1, rows2, KeyPrecedes);
    }
  }

  lemma SameRowsSameMap(rows: seq<Row>, m: map<Bytes, Bytes>, n: map<Bytes, Bytes>)
    requires ListsMap(rows, m) && ListsMap(rows, n)
    ensures m == n
  {
    forall k | k in m ensures k in n && n[k] == m[k] {
      assert Row(k, m[k]) in rows;
    }
    forall k | k in n ensures k in m {
      assert Row(k, n[k]) in rows;
    }
  }

  lemma ContextFieldsDetermine(configuration1: Bytes, rows1: seq<Row>, configuration2: Bytes, rows2: seq<Row>)
    requires Sized(ContextFields(configuration1, rows1)) && Sized(ContextFields(configuration2, rows2))
    requires Encode(ContextFields(configuration1, rows1)) == Encode(ContextFields(configuration2, rows2))
    ensures configuration1 == configuration2 && rows1 == rows2
  {
    var f, g := ContextFields(configuration1, rows1), ContextFields(configuration2, rows2);
    SharedBytes(f, g);
    hide Encode, Sized, VersionBytes;
    forall i | 0 <= i < |f| && i < |g| ensures f[i].CountField? == g[i].CountField? {
      if i > 2 {
        assert f[i] in RowFields(rows1) && g[i] in RowFields(rows2);
      }
    }
    assert configuration1 == f[1].text && configuration2 == g[1].text;
    assert RowFields(rows1) == f[3..] && RowFields(rows2) == g[3..];
    RowFieldsDetermine(rows1, rows2);
  }
}
