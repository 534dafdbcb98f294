/**
 * Reading tagged slots as the inline values they hold (assertion_env.go:37-72),
 * and that this turns the tagged layout into the legacy one.
 */
module SlotUnwrapping {
  import opened Registry
  import opened Codec
  import opened CodecRoundTrip

  lemma OnlyKey(m: map<string, Json>)
    requires |m| == 1
    ensures exists k :: k in m
    ensures forall k, l :: k in m && l in m ==> k == l
  {
    var k :| k in m.Keys;
    assert |m.Keys - {k}| == 0;
    forall l | l in m ensures l == k {
      assert l !in m.Keys - {k};
    }
  }

  function KeyOf(m: map<string, Json>): (k: string)
    requires |m| == 1
    ensures k in m && m.Keys == {k}
  {
    OnlyKey(m);
    var k :| k in m;
    k
  }

  /** An object that holds one object, under a tagged key. */
  predicate TaggedSlot(m: map<string, Json>) {
    |m| == 1 && Tagged(KeyOf(m)) && m[KeyOf(m)].Obj?
  }

  /** A statement that carries a type other than its slot's kind. */
  predicate CarriesOther(inner: map<string, Json>, kind: Kind) {
    TYPE_FIELD in inner && inner[TYPE_FIELD].Text? && inner[TYPE_FIELD].text != kind
  }

  function UnwrapSlots(v: Json): Json
    decreases v, 1
  {
    match v
    case Obj(m) =>
      if !TaggedSlot(m) then Obj(UnwrapMembers(v))
      else
        var kind, inner := KeyOf(m)[1..], m[KeyOf(m)];
        if CarriesOther(inner.members, kind) then
          Obj(UnwrapMembers(inner)[REFINEMENT_FIELD := inner.members[TYPE_FIELD]][TYPE_FIELD := Text(kind)])
        else UnwrapSlots(inner)
    case Arr(items) => Arr(seq(|items|, i requires 0 <= i < |items| => UnwrapSlots(items[i])))
    case _ => v
  }

  function UnwrapMembers(v: Json): map<string, Json>
    requires v.Obj?
    decreases v, 0
  {
    map n | n in v.members :: UnwrapSlots(v.members[n])
  }

  // ---------------------------------------------- rewriting object by object

  lemma TwoMembers(m: map<string, Json>, k: string, l: string)
    requires k in m && l in m && k != l
    ensures |m| != 1
  {
    if |m| == 1 {
      OnlyKey(m);
    }
  }

  /** A stamped statement has two members, so it reads as no slot itself. */
  lemma StampedUnwraps(inner: Json, kind: Kind)
    requires inner.Obj? && CarriesOther(inner.members, kind)
    ensures var stamped := inner.members[REFINEMENT_FIELD := inner.members[TYPE_FIELD]][TYPE_FIELD := Text(kind)];
            UnwrapSlots(Obj(stamped)) ==
              Obj(UnwrapMembers(inner)[REFINEMENT_FIELD := inner.members[TYPE_FIELD]][TYPE_FIELD := Text(kind)])
  {
    var stamped := inner.members[REFINEMENT_FIELD := inner.members[TYPE_FIELD]][TYPE_FIELD := Text(kind)];
    TwoMembers(stamped, REFINEMENT_FIELD, TYPE_FIELD);
    assert UnwrapMembers(Obj(stamped)) ==
      UnwrapMembers(inner)[REFINEMENT_FIELD := inner.members[TYPE_FIELD]][TYPE_FIELD := Text(kind)];
  }

  predicate Scalar(v: Json) {
    !v.Obj? && !v.Arr?
  }

  method Unwrap(v: Json) returns (r: Json)
    ensures r == UnwrapSlots(v)
    decreases v, 1
  {
    match v
    case Obj(m) => r := UnwrapObject(v, m);
    case Arr(items) =>
      var unwrapped := [];
      for i := 0 to |items|
        invariant |unwrapped| == i && forall k :: 0 <= k < i ==> unwrapped[k] == UnwrapSlots(items[k])
      {
        var item := Unwrap(items[i]);
        unwrapped := unwrapped + [item];
      }
      r := Arr(unwrapped);
    case _ => r := v;
  }

  /** Stamps a tagged statement and goes on with it, or rewrites every member in its place. */
  method UnwrapObject(ghost whole: Json, m: map<string, Json>) returns (r: Json)
    requires forall n :: n in m ==> m[n] < whole || Scalar(m[n])
    ensures r == UnwrapSlots(Obj(m))
    decreases whole, 0
  {
    if TaggedSlot(m) {
      var kind, inner := KeyOf(m)[1..], m[KeyOf(m)];
      var members := inner.members;
      if CarriesOther(members, kind) {
        StampedUnwraps(inner, kind);
        members := members[REFINEMENT_FIELD := members[TYPE_FIELD]];
        members := members[TYPE_FIELD := Text(kind)];
      }
      r := UnwrapObject(inner, members);
      return;
    }
    var members, left := m, m.Keys;
    while left != {}
      invariant left <= m.Keys == members.Keys
      invariant forall n :: n in m ==> members[n] == if n in left then m[n] else UnwrapSlots(m[n])
      decreases |left|
    {
      var name :| name in left;
      if !Scalar(members[name]) {
        var child := Unwrap(members[name]);
        members := members[name := child];
      }
      left := left - {name};
    }
    assert members == UnwrapMembers(Obj(m));
    r := Obj(members);
  }

  // ------------------------------------------------------- slots in a value

  predicate NoSlots(v: Json) {
    match v
    case Obj(m) => !TaggedSlot(m) && forall n :: n in m ==> NoSlots(m[n])
    case Arr(items) => forall i :: 0 <= i < |items| ==> NoSlots(items[i])
    case _ => true
  }

  lemma {:induction false} UnwrapKeepsShape(v: Json)
    ensures UnwrapSlots(v).Obj? == v.Obj?
    decreases v
  {
    if v.Obj? && TaggedSlot(v.members) {
      UnwrapKeepsShape(v.members[KeyOf(v.members)]);
    }
  }

  /** What is unwrapped holds no slot. */
  lemma {:induction false} UnwrappedHasNoSlots(v: Json)
    ensures NoSlots(UnwrapSlots(v))
    decreases v, 1
  {
    match v
    case Obj(m) =>
      if !TaggedSlot(m) {
        MembersHaveNoSlots(v);
        UnwrappedIsNoSlot(v);
      } else {
        var kind, inner := KeyOf(m)[1..], m[KeyOf(m)];
        if CarriesOther(inner.members, kind) {
          MembersHaveNoSlots(inner);
          hide NoSlots;
          StampedIsNoSlot(inner, kind);
        } else {
          UnwrappedHasNoSlots(inner);
        }
      }
    case Arr(items) =>
      forall i | 0 <= i < |items| ensures NoSlots(UnwrapSlots(items[i])) {
        UnwrappedHasNoSlots(items[i]);
      }
    case _ =>
  }

  lemma {:induction false} MembersHaveNoSlots(v: Json)
    requires v.Obj?
    ensures forall n :: n in UnwrapMembers(v) ==> NoSlots(UnwrapMembers(v)[n])
    decreases v, 0
  {
    forall n | n in v.members ensures NoSlots(UnwrapSlots(v.members[n])) {
      UnwrappedHasNoSlots(v.members[n]);
    }
  }

  lemma UnwrappedIsNoSlot(v: Json)
    requires v.Obj? && !TaggedSlot(v.members)
    ensures !TaggedSlot(UnwrapMembers(v))
  {
    var m, u := v.members, UnwrapMembers(v);
    assert u.Keys == m.Keys;
    assert |u| == |u.Keys| && |m| == |m.Keys|;
    if |m| == 1 {
      assert u.Keys == {KeyOf(m)};
      assert KeyOf(u) in u.Keys;
      UnwrapKeepsShape(m[KeyOf(m)]);
    }
  }

  lemma StampedIsNoSlot(inner: Json, kind: Kind)
    requires inner.Obj? && CarriesOther(inner.members, kind)
    requires forall n :: n in UnwrapMembers(inner) ==> NoSlots(UnwrapMembers(inner)[n])
    ensures NoSlots(Obj(UnwrapMembers(inner)[REFINEMENT_FIELD := inner.members[TYPE_FIELD]][TYPE_FIELD := Text(kind)]))
  {
    var m := UnwrapMembers(inner)[REFINEMENT_FIELD := inner.members[TYPE_FIELD]][TYPE_FIELD := Text(kind)];
    assert TYPE_FIELD in m;
    if |m| == 1 {
      assert KeyOf(m) == TYPE_FIELD;
    }
    assert !TaggedSlot(m);
    hide TaggedSlot, UnwrapMembers, UnwrapSlots;
    forall n | n in m ensures NoSlots(m[n]) {
      if n != TYPE_FIELD && n != REFINEMENT_FIELD {
        assert m[n] == UnwrapMembers(inner)[n];
      }
    }
  }

  lemma {:induction false} NoSlotsUnchanged(v: Json)
    requires NoSlots(v)
    ensures UnwrapSlots(v) == v
    decreases v
  {
    match v
    case Obj(m) =>
      forall n | n in m ensures UnwrapSlots(m[n]) == m[n] {
        NoSlotsUnchanged(m[n]);
      }
      assert UnwrapMembers(v) == m;
    case Arr(items) =>
      forall i | 0 <= i < |items| ensures UnwrapSlots(items[i]) == items[i] {
        NoSlotsUnchanged(items[i]);
      }
      assert UnwrapSlots(v).items == items;
    case _ =>
  }

  /** Unwrapping changes nothing exactly where there is no slot. */
  lemma UnchangedExactlyWithoutSlots(v: Json)
    ensures UnwrapSlots(v) == v <==> NoSlots(v)
  {
    UnwrappedHasNoSlots(v);
    if NoSlots(v) {
      NoSlotsUnchanged(v);
    }
  }

  // ------------------------------------------------- from layout to layout

  /** No field that holds no statement holds an object that reads as a slot. */
  predicate PlainHasNoSlots(v: Value)
    decreases v, 1
  {
    match v
    case Plain(json) => NoSlots(json)
    case Concrete(s) => PlainFieldsHaveNoSlots(s.fields)
    case Slot(s) => PlainFieldsHaveNoSlots(s.fields)
    case Nil => true
    case List(items) => forall i :: 0 <= i < |items| ==> PlainHasNoSlots(items[i])
    case Record(fields) => PlainFieldsHaveNoSlots(fields)
  }

  predicate PlainFieldsHaveNoSlots(fields: Fields)
    decreases fields, 0
  {
    forall n :: n in fields.at ==> PlainHasNoSlots(fields.at[n])
  }

  ghost function UnwrapAll(docs: map<string, Json>): map<string, Json> {
    map n | n in docs :: UnwrapSlots(docs[n])
  }

  lemma NamesAreNoSlot(docs: map<string, Json>)
    requires forall n :: n in docs ==> !Tagged(n)
    ensures !TaggedSlot(docs) && UnwrapSlots(Obj(docs)) == Obj(UnwrapAll(docs))
  {
    hide Tagged;
    assert UnwrapMembers(Obj(docs)) == UnwrapAll(docs);
  }

  lemma StampsKeepEquality(x: map<string, Json>, y: map<string, Json>, a: Json, b: Json)
    requires FieldNames(x) && FieldNames(y)
    ensures x[TYPE_FIELD := a] == y[TYPE_FIELD := a] <==> x == y
    ensures x[TYPE_FIELD := a][REFINEMENT_FIELD := b] == y[TYPE_FIELD := a][REFINEMENT_FIELD := b] <==> x == y
  {
    NoDiscriminators(x);
    NoDiscriminators(y);
    if x[TYPE_FIELD := a] == y[TYPE_FIELD := a] {
      SameApart(x, y, x[TYPE_FIELD := a], y[TYPE_FIELD := a]);
    }
    if x[TYPE_FIELD := a][REFINEMENT_FIELD := b] == y[TYPE_FIELD := a][REFINEMENT_FIELD := b] {
      SameApart(x, y, x[TYPE_FIELD := a][REFINEMENT_FIELD := b], y[TYPE_FIELD := a][REFINEMENT_FIELD := b]);
    }
  }

  /** Maps of field names that agree beside the discriminators are equal. */
  lemma SameApart(x: map<string, Json>, y: map<string, Json>, p: map<string, Json>, q: map<string, Json>)
    requires FieldNames(x) && FieldNames(y) && p == q
    requires forall n :: FieldName(n) ==> (n in x <==> n in p) && (n in x ==> x[n] == p[n])
    requires forall n :: FieldName(n) ==> (n in y <==> n in q) && (n in y ==> y[n] == q[n])
    ensures x == y
  {
    hide FieldName;
    forall n ensures n in x <==> n in y {
      if n in x || n in y {
        assert FieldName(n);
      }
    }
    forall n | n in x ensures x[n] == y[n] {
      assert FieldName(n);
    }
  }

  lemma UnwrapAllNames(docs: map<string, Json>)
    requires FieldNames(docs)
    ensures FieldNames(UnwrapAll(docs))
  {
    hide FieldName, UnwrapSlots;
  }

  lemma TypedUnwraps(sc: Schema, kind: Kind, docs: map<string, Json>, typ: Kind)
    requires FieldNames(docs)
    ensures UnwrapAll(Typed(sc, kind, docs, typ)) == Typed(sc, kind, UnwrapAll(docs), typ)
    ensures forall n :: n in Typed(sc, kind, docs, typ) ==> !Tagged(n)
  {
    NoDiscriminators(docs);
    assert forall t :: UnwrapSlots(Text(t)) == Text(t);
    hide UnwrapSlots, Tagged;
  }

  lemma UnwrapTyped(sc: Schema, kind: Kind, docs: map<string, Json>, legacy: map<string, Json>, typ: Kind)
    requires FieldNames(docs) && FieldNames(legacy)
    ensures UnwrapSlots(Obj(Typed(sc, kind, docs, typ))) == Obj(Typed(sc, kind, UnwrapAll(docs), typ))
    ensures Typed(sc, kind, UnwrapAll(docs), typ) == Typed(sc, kind, legacy, typ) <==> UnwrapAll(docs) == legacy
  {
    hide UnwrapAll, UnwrapSlots, FieldNames;
    TypedUnwraps(sc, kind, docs, typ);
    NamesAreNoSlot(Typed(sc, kind, docs, typ));
    UnwrapAllNames(docs);
    StampsKeepEquality(UnwrapAll(docs), legacy, Text(kind), Text(typ));
    StampsKeepEquality(UnwrapAll(docs), legacy, Text(typ), Text(typ));
  }

  lemma OneMember(key: string, inner: Json)
    requires Tagged(key) && inner.Obj?
    ensures TaggedSlot(map[key := inner]) && KeyOf(map[key := inner]) == key
  {
    assert |map[key := inner]| == 1;
    assert KeyOf(map[key := inner]) in map[key := inner];
  }

  lemma SlotUnwrapped(kind: Kind, inner: map<string, Json>)
    ensures UnwrapSlots(Obj(map[SlotKey(kind) := Obj(inner)])) ==
      if CarriesOther(inner, kind) then Obj(UnwrapAll(inner)[REFINEMENT_FIELD := inner[TYPE_FIELD]][TYPE_FIELD := Text(kind)])
      else UnwrapSlots(Obj(inner))
  {
    OneMember(SlotKey(kind), Obj(inner));
    assert UnwrapMembers(Obj(inner)) == UnwrapAll(inner);
    assert SlotKey(kind)[1..] == kind;
    hide TaggedSlot, KeyOf, CarriesOther, UnwrapAll, UnwrapMembers;
  }

  lemma UnwrapInSlot(sc: Schema, s: Stmt, docs: map<string, Json>, legacy: map<string, Json>)
    requires FieldNames(docs) && FieldNames(legacy) && s.kind != ""
    ensures var tagged := Obj(map[SlotKey(s.kind) := Obj(Typed(sc, s.kind, docs, TypeOrKind(s)))]);
            UnwrapSlots(tagged) == Obj(Beside(Typed(sc, s.kind, legacy, s.kind), s)) <==> UnwrapAll(docs) == legacy
  {
    hide *;
    var typ := TypeOrKind(s);
    var inner, unwrapped := Typed(sc, s.kind, docs, typ), UnwrapAll(docs);
    SlotUnwrapped(s.kind, inner);
    UnwrapTyped(sc, s.kind, docs, legacy, typ);
    TypedUnwraps(sc, s.kind, docs, typ);
    UnwrapAllNames(docs);
    NoDiscriminators(docs);
    StampsKeepEquality(unwrapped, legacy, Text(s.kind), Text(typ));
    TypedCarriesOther(sc, s, docs);
    if CarriesOther(inner, s.kind) {
      PlainStamps(sc, s, unwrapped, legacy);
    } else {
      BlockStamps(sc, s, unwrapped, legacy);
    }
  }

  lemma TypedCarriesOther(sc: Schema, s: Stmt, docs: map<string, Json>)
    requires s.kind != "" && TYPE_FIELD !in docs && TYPE_FIELD != REFINEMENT_FIELD
    ensures var inner := Typed(sc, s.kind, docs, TypeOrKind(s));
            && (CarriesOther(inner, s.kind) <==> s.kind !in sc.blocks && TypeOrKind(s) != s.kind)
            && (CarriesOther(inner, s.kind) ==> inner[TYPE_FIELD] == Text(TypeOrKind(s)))
  {
  }

  /** A refined type in its place, moved beside the kind, is the legacy layout's. */
  lemma PlainStamps(sc: Schema, s: Stmt, unwrapped: map<string, Json>, legacy: map<string, Json>)
    requires s.kind != "" && s.kind !in sc.blocks && TypeOrKind(s) != s.kind && TYPE_FIELD != REFINEMENT_FIELD
    ensures Typed(sc, s.kind, unwrapped, TypeOrKind(s))[REFINEMENT_FIELD := Text(TypeOrKind(s))][TYPE_FIELD := Text(s.kind)]
            == unwrapped[TYPE_FIELD := Text(s.kind)][REFINEMENT_FIELD := Text(TypeOrKind(s))]
    ensures Beside(Typed(sc, s.kind, legacy, s.kind), s) == legacy[TYPE_FIELD := Text(s.kind)][REFINEMENT_FIELD := Text(TypeOrKind(s))]
  {
  }

  /** A block, or a statement of its own kind, is stamped alike in both layouts. */
  lemma BlockStamps(sc: Schema, s: Stmt, unwrapped: map<string, Json>, legacy: map<string, Json>)
    requires s.kind != "" && (s.kind in sc.blocks || TypeOrKind(s) == s.kind)
    ensures Beside(Typed(sc, s.kind, legacy, s.kind), s) == Typed(sc, s.kind, legacy, TypeOrKind(s))
  {
  }

  lemma ConcreteUnwraps(sc: Schema, s: Stmt)
    requires var docs, legacy := DocFields(sc, TaggedLayout, s.fields), DocFields(sc, LegacyLayout, s.fields);
      && UnwrapSlots(Obj(Typed(sc, s.kind, docs, s.typ))) == Obj(Typed(sc, s.kind, UnwrapAll(docs), s.typ))
      && (Typed(sc, s.kind, UnwrapAll(docs), s.typ) == Typed(sc, s.kind, legacy, s.typ) <==> UnwrapAll(docs) == legacy)
      && (UnwrapAll(docs) == legacy <==> PlainFieldsHaveNoSlots(s.fields))
    ensures UnwrapSlots(Doc(sc, TaggedLayout, Concrete(s))) == Doc(sc, LegacyLayout, Concrete(s)) <==> PlainHasNoSlots(Concrete(s))
  {
    hide UnwrapSlots, UnwrapAll, DocFields, Typed, PlainFieldsHaveNoSlots;
  }

  lemma SlotUnwraps(sc: Schema, s: Stmt)
    requires var docs, legacy := DocFields(sc, TaggedLayout, s.fields), DocFields(sc, LegacyLayout, s.fields);
      var tagged := Obj(map[SlotKey(s.kind) := Obj(Typed(sc, s.kind, docs, TypeOrKind(s)))]);
      && (UnwrapSlots(tagged) == Obj(Beside(Typed(sc, s.kind, legacy, s.kind), s)) <==> UnwrapAll(docs) == legacy)
      && (UnwrapAll(docs) == legacy <==> PlainFieldsHaveNoSlots(s.fields))
    ensures UnwrapSlots(Doc(sc, TaggedLayout, Slot(s))) == Doc(sc, LegacyLayout, Slot(s)) <==> PlainHasNoSlots(Slot(s))
  {
    hide UnwrapSlots, UnwrapAll, DocFields, Typed, PlainFieldsHaveNoSlots, SlotKey, Beside;
  }

  /** Unwrapping the tagged document gives the legacy one, exactly when no plain field reads as a slot. */
  lemma UnwrapsToLegacy(sc: Schema, t: FieldType, v: Value)
    requires ValidSchema(sc) && ValidType(sc, t) && Fits(sc, t, v)
    ensures UnwrapSlots(Doc(sc, TaggedLayout, v)) == Doc(sc, LegacyLayout, v) <==> PlainHasNoSlots(v)
    decreases v, 1
  {
    match v
    case Plain(json) => UnchangedExactlyWithoutSlots(json);
    case Nil =>
    case Concrete(s) =>
      KindIsValid(sc, s.kind);
      hide *;
      ConcreteParts(sc, TaggedLayout, t, s);
      ConcreteParts(sc, LegacyLayout, t, s);
      FieldsUnwrap(sc, sc.fields[s.kind], s.fields);
      DocFieldNames(sc, TaggedLayout, sc.fields[s.kind], s.fields);
      DocFieldNames(sc, LegacyLayout, sc.fields[s.kind], s.fields);
      UnwrapTyped(sc, s.kind, DocFields(sc, TaggedLayout, s.fields), DocFields(sc, LegacyLayout, s.fields), s.typ);
      ConcreteUnwraps(sc, s);
    case Slot(s) =>
      KindIsValid(sc, s.kind);
      hide *;
      SlotParts(sc, TaggedLayout, t, s);
      SlotParts(sc, LegacyLayout, t, s);
      FieldsUnwrap(sc, sc.fields[s.kind], s.fields);
      DocFieldNames(sc, TaggedLayout, sc.fields[s.kind], s.fields);
      DocFieldNames(sc, LegacyLayout, sc.fields[s.kind], s.fields);
      UnwrapInSlot(sc, s, DocFields(sc, TaggedLayout, s.fields), DocFields(sc, LegacyLayout, s.fields));
      SlotUnwraps(sc, s);
    case List(items) =>
      hide ValidSchema, ValidType, Fits;
      ItemsUnwrap(sc, t.elem, items);
    case Record(fields) =>
      FieldsUnwrap(sc, t.fields, fields);
      DocFieldNames(sc, TaggedLayout, t.fields, fields);
      hide DocFields, UnwrapMembers, ValidType, FitsFields, PlainFieldsHaveNoSlots;
      NamesAreNoSlot(DocFields(sc, TaggedLayout, fields));
  }

  lemma ItemsUnwrap(sc: Schema, elem: FieldType, items: seq<Value>)
    requires ValidSchema(sc) && ValidType(sc, elem) && forall i :: 0 <= i < |items| ==> Fits(sc, elem, items[i])
    ensures UnwrapSlots(Doc(sc, TaggedLayout, List(items))) == Doc(sc, LegacyLayout, List(items)) <==> PlainHasNoSlots(List(items))
    decreases items, 1
  {
    forall i | 0 <= i < |items|
      ensures UnwrapSlots(Doc(sc, TaggedLayout, items[i])) == Doc(sc, LegacyLayout, items[i]) <==> PlainHasNoSlots(items[i])
    {
      UnwrapsToLegacy(sc, elem, items[i]);
    }
    hide Fits, ValidSchema, ValidType, Members, DocFields, PlainFieldsHaveNoSlots, UnwrapMembers;
    var tagged, legacy := Doc(sc, TaggedLayout, List(items)).items, Doc(sc, LegacyLayout, List(items)).items;
    var unwrapped := UnwrapSlots(Doc(sc, TaggedLayout, List(items))).items;
    assert |unwrapped| == |legacy| == |items|;
    assert forall i :: 0 <= i < |items| ==> unwrapped[i] == UnwrapSlots(Doc(sc, TaggedLayout, items[i]));
    assert forall i :: 0 <= i < |items| ==> legacy[i] == Doc(sc, LegacyLayout, items[i]);
    if unwrapped == legacy {
      assert forall i :: 0 <= i < |items| ==> unwrapped[i] == legacy[i];
    }
  }

  lemma FieldsUnwrap(sc: Schema, types: map<string, FieldType>, fields: Fields)
    requires ValidSchema(sc) && ValidType(sc, RecordT(types)) && FitsFields(sc, types, fields)
    ensures UnwrapAll(DocFields(sc, TaggedLayout, fields)) == DocFields(sc, LegacyLayout, fields) <==> PlainFieldsHaveNoSlots(fields)
    decreases fields, 0
  {
    forall n | n in fields.at
      ensures UnwrapSlots(Doc(sc, TaggedLayout, fields.at[n])) == Doc(sc, LegacyLayout, fields.at[n]) <==> PlainHasNoSlots(fields.at[n])
    {
      UnwrapsToLegacy(sc, types[n], fields.at[n]);
    }
    hide UnwrapSlots, Doc, PlainHasNoSlots, Fits, ValidSchema;
    var unwrapped, legacy := UnwrapAll(DocFields(sc, TaggedLayout, fields)), DocFields(sc, LegacyLayout, fields);
    assert unwrapped.Keys == legacy.Keys == fields.at.Keys;
    forall n | n in fields.at ensures unwrapped[n] == legacy[n] <==> PlainHasNoSlots(fields.at[n]) {
    }
    if unwrapped == legacy {
      forall n | n in fields.at ensures PlainHasNoSlots(fields.at[n]) {
        assert unwrapped[n] == legacy[n];
      }
    }
  }
}
