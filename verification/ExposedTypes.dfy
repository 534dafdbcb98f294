/**
 * Which types a type lets code of other packages name (indexer/export_api.go:36-126),
 * said of each kind of type, and that the walk follows exactly these.
 */
module ExposedTypes {
  import opened Common
  import opened ExportApi

  ghost predicate OpenField(fields: seq<Field>, c: Id) {
    exists i :: 0 <= i < |fields| && fields[i].typ == c && (fields[i].exported || fields[i].embedded)
  }

  ghost predicate OpenMethod(methods: seq<Method>, c: Id) {
    exists i :: 0 <= i < |methods| && methods[i].signature == c && methods[i].exported
  }

  /** The type is written with c, in a place that code of another package can get at. */
  ghost predicate IsWrittenWith(t: TypeNode, c: Id) {
    match t
    case Basic => false
    case Named(_, _, args, _, _, _) => c in args
    case Alias(target) => c == target
    case Of(elem) => c == elem
    case MapType(key, elem) => c == key || c == elem
    case Signature(typeParams, parameters, results) => c in typeParams || c in parameters || c in results
    case Struct(fields) => OpenField(fields, c)
    case Interface(methods, embeds) => c in embeds || OpenMethod(methods, c)
    case Union(terms) => c in terms
    case TypeParam(_) => false
  }

  /** What a type parameter opens up, or whoever uses a named type meets of its origin. */
  ghost predicate Opened(t: TypeNode, c: Id) {
    match t
    case TypeParam(constraint) => c == constraint
    case Named(_, _, _, params, underlying, methods) => c in params || c == underlying || OpenMethod(methods, c)
    case _ => false
  }

  /** Code of another package that has a value of the type meets c in one step. */
  ghost predicate Meets(w: World, id: Id, c: Id) {
    id in w.types &&
    var t := w.types[id];
    || IsWrittenWith(t, c)
    || (t.TypeParam? && Opened(t, c))
    || (t.Named? && t.package == Some(w.own) && t.origin in w.types && Opened(w.types[t.origin], c))
  }

  lemma {:induction false} FieldsExactly(fields: seq<Field>, c: Id)
    ensures c in ExposedFields(fields) <==> OpenField(fields, c)
  {
    if fields != [] {
      var n := |fields| - 1;
      FieldsExactly(fields[..n], c);
      assert fields == fields[..n] + [fields[n]];
      FieldsJoin(fields[..n], [fields[n]], c);
    }
  }

  lemma FieldsJoin(a: seq<Field>, b: seq<Field>, c: Id)
    ensures OpenField(a + b, c) <==> OpenField(a, c) || OpenField(b, c)
  {
    var s := a + b;
    if OpenField(a, c) {
      var i :| 0 <= i < |a| && a[i].typ == c && (a[i].exported || a[i].embedded);
      assert s[i] == a[i];
    }
    if OpenField(b, c) {
      var i :| 0 <= i < |b| && b[i].typ == c && (b[i].exported || b[i].embedded);
      assert s[|a| + i] == b[i];
    }
  }

  lemma MethodsJoin(a: seq<Method>, b: seq<Method>, c: Id)
    ensures OpenMethod(a + b, c) <==> OpenMethod(a, c) || OpenMethod(b, c)
  {
    var s := a + b;
    if OpenMethod(a, c) {
      var i :| 0 <= i < |a| && a[i].signature == c && a[i].exported;
      assert s[i] == a[i];
    }
    if OpenMethod(b, c) {
      var i :| 0 <= i < |b| && b[i].signature == c && b[i].exported;
      assert s[|a| + i] == b[i];
    }
  }

  lemma {:induction false} MethodsExactly(methods: seq<Method>, c: Id)
    ensures c in ExposedMethods(methods) <==> OpenMethod(methods, c)
  {
    if methods != [] {
      var n := |methods| - 1;
      MethodsExactly(methods[..n], c);
      assert methods == methods[..n] + [methods[n]];
      MethodsJoin(methods[..n], [methods[n]], c);
    }
  }

  lemma WrittenExactly(t: TypeNode, c: Id)
    ensures c in Written(t) <==> IsWrittenWith(t, c)
  {
    match t
    case Struct(fields) => FieldsExactly(fields, c);
    case Interface(methods, _) => MethodsExactly(methods, c);
    case _ =>
  }

  lemma BodyExactly(t: TypeNode, c: Id)
    ensures c in Body(t) <==> Opened(t, c)
  {
    match t
    case Named(_, _, _, _, _, methods) => MethodsExactly(methods, c);
    case _ =>
  }

  /** The walk follows exactly the types that are met, kind of type by kind of type. */
  lemma ExposesExactlyWhatIsMet(w: World, id: Id, c: Id)
    ensures c in Exposes(w, id) <==> Meets(w, id, c)
  {
    if id in w.types {
      var t := w.types[id];
      WrittenExactly(t, c);
      BodyExactly(t, c);
      if t.Named? && t.origin in w.types {
        BodyExactly(w.types[t.origin], c);
      }
      hide Written, Body, IsWrittenWith, Opened;
    }
  }
}
