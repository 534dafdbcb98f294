/**
 * What acceptance says of a document (codec_stream.go:80-135, registry.go:73-155):
 * a relation between documents and values that the decoder computes, so that it
 * refuses exactly what stands for nothing.
 */
module CodecAcceptance {
  import opened Common
  import opened Registry
  import opened Codec
  import opened CodecRoundTrip

  /** The text under the name; absent and null stand for none. */
  predicate Reads(members: map<string, Json>, name: string, text: string) {
    if name in members && !members[name].Null? then members[name] == Text(text) else text == ""
  }

  predicate Given(members: map<string, Json>, name: string) {
    name in members && !members[name].Null?
  }

  /** The type is the kind or none, or refines the kind. */
  predicate Suits(sc: Schema, kind: Kind, typ: Kind) {
    typ == "" || typ == kind || Refines(sc.reg, kind, typ)
  }

  /** The document stands for the value, as a value of the type. */
  ghost predicate StandsFor(sc: Schema, first: Order, t: FieldType, j: Json, v: Value)
    decreases j, 3
  {
    match v
    case Plain(json) => t.PlainT? && json == j
    case Concrete(s) => t == ConcreteT(s.kind) && StandsForStmt(sc, first, j, s)
    case Nil => t.SlotT? && j.Null?
    case Slot(s) => t.SlotT? && (HeldUnderKind(sc, first, j, s) || HeldInline(sc, first, j, s))
    case List(items) =>
      t.ListT? && if j.Arr? then |items| == |j.items| && forall i :: 0 <= i < |items| ==> StandsFor(sc, first, t.elem, j.items[i], items[i])
                  else j.Null? && items == []
    case Record(fields) =>
      t.RecordT? && if j.Obj? then FieldsStandFor(sc, first, t.fields, j, fields) else j.Null? && fields.at == map[]
  }

  /** Each field that is there stands for its value, and no other member counts. */
  ghost predicate FieldsStandFor(sc: Schema, first: Order, types: map<string, FieldType>, j: Json, fields: Fields)
    requires j.Obj?
    decreases j, 0
  {
    fields.at.Keys == types.Keys * j.members.Keys && forall n :: n in fields.at ==> StandsFor(sc, first, types[n], j.members[n], fields.at[n])
  }

  /** A statement of a known kind: its fields and its type, a block's after its refinement, which must suit it. */
  ghost predicate StandsForStmt(sc: Schema, first: Order, j: Json, s: Stmt)
    decreases j, 2
  {
    s.kind in sc.fields &&
    if !j.Obj? then j.Null? && s == Stmt(s.kind, "", Fields(map[])) else
      && FieldsStandFor(sc, first, sc.fields[s.kind], j, s.fields)
      && if s.kind !in sc.blocks then Reads(j.members, TYPE_FIELD, s.typ)
         else
           && Suits(sc, s.kind, s.typ)
           && if Given(j.members, REFINEMENT_FIELD) then
                j.members[REFINEMENT_FIELD] == Text(s.typ) && Reads(j.members, TYPE_FIELD, s.kind)
              else Reads(j.members, TYPE_FIELD, s.typ)
  }

  /** The one member is the statement under its kind; a type it lacks is the kind. */
  ghost predicate HeldUnderKind(sc: Schema, first: Order, j: Json, s: Stmt)
    decreases j, 2
  {
    && j.Obj? && j.members.Keys == {SlotKey(s.kind)} && s.kind in sc.fields
    && var inner := j.members[SlotKey(s.kind)];
    || (s.typ != "" && Suits(sc, s.kind, s.typ) && StandsForStmt(sc, first, inner, s))
    || (s.typ == s.kind && StandsForStmt(sc, first, inner, s.(typ := "")))
  }

  /** The discriminator names the kind, and the refinement, if it is there, the type. */
  ghost predicate HeldInline(sc: Schema, first: Order, j: Json, s: Stmt)
    decreases j, 2
  {
    && j.Obj? && j.members != map[] && !Tagged(first(j)) && s.kind in sc.fields
    && TYPE_FIELD in j.members && j.members[TYPE_FIELD] == Text(s.kind)
    && (if REFINEMENT_FIELD in j.members then Reads(j.members, REFINEMENT_FIELD, s.typ) && Refines(sc.reg, s.kind, s.typ) else s.typ == s.kind)
    && FieldsStandFor(sc, first, sc.fields[s.kind], j, s.fields)
  }

  // -------------------------------------------------------- the decoder

  /** The decoder accepts a document as a value exactly when it stands for it. */
  lemma DecodesExactlyWhatItStandsFor(sc: Schema, first: Order, t: FieldType, j: Json, v: Value)
    requires Orders(first) && ValidSchema(sc) && ValidType(sc, t)
    ensures DecodeValue(sc, first, t, j) == Ok(v) <==> StandsFor(sc, first, t, j, v)
    decreases j, 3
  {
    match t
    case PlainT =>
    case ConcreteT(kind) =>
      if v.Concrete? && v.stmt.kind == kind {
        ConcreteStandsFor(sc, first, j, v.stmt);
      }
      ConcreteKind(sc, first, kind, j);
      hide DecodeConcrete, StandsForStmt, Orders, ValidSchema;
    case SlotT =>
      SlotStandsFor(sc, first, j, v);
      hide DecodeSlot, Orders, ValidSchema;
    case ListT(elem) =>
      if j.Arr? && v.List? && |v.items| == |j.items| {
        forall i | 0 <= i < |j.items| ensures DecodeValue(sc, first, elem, j.items[i]) == Ok(v.items[i]) <==> StandsFor(sc, first, elem, j.items[i], v.items[i]) {
          DecodesExactlyWhatItStandsFor(sc, first, elem, j.items[i], v.items[i]);
        }
        ItemsStandFor(sc, first, elem, j, v.items);
      }
      hide Orders, ValidSchema;
    case RecordT(fields) =>
      if j.Obj? && v.Record? {
        FieldsDecodeExactly(sc, first, fields, j, v.fields);
      }
      hide DecodeFields, FieldsStandFor, Orders, ValidSchema;
  }

  lemma ItemsStandFor(sc: Schema, first: Order, elem: FieldType, j: Json, items: seq<Value>)
    requires Orders(first) && ValidSchema(sc) && ValidType(sc, elem) && j.Arr? && |items| == |j.items|
    ensures DecodeValue(sc, first, ListT(elem), j) == Ok(List(items)) <==>
      forall i :: 0 <= i < |items| ==> DecodeValue(sc, first, elem, j.items[i]) == Ok(items[i])
  {
    hide Orders, ValidSchema;
    var r := DecodeValue(sc, first, ListT(elem), j);
    if forall i :: 0 <= i < |items| ==> DecodeValue(sc, first, elem, j.items[i]) == Ok(items[i]) {
      assert r.Ok? && r.value.items == items;
    }
    if r == Ok(List(items)) {
      forall i | 0 <= i < |items| ensures DecodeValue(sc, first, elem, j.items[i]) == Ok(items[i]) {
        assert r.value.items[i] == DecodeValue(sc, first, elem, j.items[i]).value;
      }
    }
  }

  lemma FieldsDecodeExactly(sc: Schema, first: Order, types: map<string, FieldType>, j: Json, fields: Fields)
    requires Orders(first) && ValidSchema(sc) && ValidType(sc, RecordT(types)) && j.Obj?
    ensures DecodeFields(sc, first, types, j) == Ok(fields) <==> FieldsStandFor(sc, first, types, j, fields)
    decreases j, 0
  {
    forall n | n in types && n in j.members && n in fields.at
      ensures DecodeValue(sc, first, types[n], j.members[n]) == Ok(fields.at[n]) <==> StandsFor(sc, first, types[n], j.members[n], fields.at[n])
    {
      DecodesExactlyWhatItStandsFor(sc, first, types[n], j.members[n], fields.at[n]);
    }
    hide Orders, ValidSchema, DecodeValue, StandsFor;
    var r := DecodeFields(sc, first, types, j);
    if FieldsStandFor(sc, first, types, j, fields) {
      assert forall n :: n in types && n in j.members ==> n in fields.at;
      assert r.Ok? && r.value.at == fields.at;
    }
    if r == Ok(fields) {
      assert r.value.at.Keys == types.Keys * j.members.Keys;
      forall n | n in fields.at ensures DecodeValue(sc, first, types[n], j.members[n]) == Ok(fields.at[n]) {
        assert r.value.at[n] == DecodeValue(sc, first, types[n], j.members[n]).value;
      }
    }
  }

  lemma ConcreteKind(sc: Schema, first: Order, kind: Kind, j: Json)
    requires Orders(first) && ValidSchema(sc) && kind in sc.fields
    ensures DecodeConcrete(sc, first, kind, j).Ok? ==> DecodeConcrete(sc, first, kind, j).value.kind == kind
  {
    hide DecodeFields;
  }

  lemma ConcreteStandsFor(sc: Schema, first: Order, j: Json, s: Stmt)
    requires Orders(first) && ValidSchema(sc) && s.kind in sc.fields
    ensures DecodeConcrete(sc, first, s.kind, j) == Ok(s) <==> StandsForStmt(sc, first, j, s)
    decreases j, 2
  {
    KindIsValid(sc, s.kind);
    if j.Obj? {
      FieldsDecodeExactly(sc, first, sc.fields[s.kind], j, s.fields);
      hide DecodeFields, FieldsStandFor, Orders, ValidSchema, ValidType, Refines;
    }
  }

  lemma SlotStandsFor(sc: Schema, first: Order, j: Json, v: Value)
    requires Orders(first) && ValidSchema(sc)
    ensures DecodeSlot(sc, first, j) == Ok(v) <==> StandsFor(sc, first, SlotT, j, v)
    decreases j, 2, 1
  {
    if j.Obj? && j.members != map[] {
      assert first(j) in j.members;
      if Tagged(first(j)) {
        TaggedStandsFor(sc, first, j, v);
      } else if v.Slot? {
        InlineStandsFor(sc, first, j, v.stmt);
        NotUnderKind(sc, first, j, v.stmt);
      }
    }
    hide Orders, ValidSchema, UnmarshalByType, DecodeConcrete, Tagged;
  }

  lemma NotUnderKind(sc: Schema, first: Order, j: Json, s: Stmt)
    requires Orders(first) && j.Obj? && j.members != map[] && !Tagged(first(j))
    ensures !HeldUnderKind(sc, first, j, s)
  {
    assert first(j) in j.members;
    assert Tagged(SlotKey(s.kind));
  }

  lemma TaggedStandsFor(sc: Schema, first: Order, j: Json, v: Value)
    requires Orders(first) && ValidSchema(sc) && j.Obj? && j.members != map[] && Tagged(first(j))
    ensures DecodeSlot(sc, first, j) == Ok(v) <==> v.Slot? && HeldUnderKind(sc, first, j, v.stmt)
    decreases j, 2, 0
  {
    var key := first(j);
    assert key in j.members;
    var kind := key[1..];
    assert key == SlotKey(kind);
    OnlyMember(j.members, key);
    if v.Slot? && j.members.Keys == {key} && kind in sc.fields {
      var s := v.stmt;
      SameSlotKey(s.kind, kind);
      if s.kind == kind {
        ConcreteStandsFor(sc, first, j.members[key], s);
        ConcreteStandsFor(sc, first, j.members[key], s.(typ := ""));
      }
      ConcreteKind(sc, first, kind, j.members[key]);
    }
    if v.Slot? && HeldUnderKind(sc, first, j, v.stmt) {
      assert key in {SlotKey(v.stmt.kind)};
      SameSlotKey(v.stmt.kind, kind);
    }
    hide Orders, ValidSchema, DecodeConcrete, StandsForStmt, Refines;
  }

  lemma OnlyMember(members: map<string, Json>, key: string)
    requires key in members
    ensures |members| == 1 <==> members.Keys == {key}
  {
    assert |members| == |members.Keys|;
    if |members| == 1 {
      forall k | k in members ensures k == key {
        if k != key {
          SubsetOfOne(members.Keys, k, key);
        }
      }
    }
  }

  lemma SubsetOfOne(keys: set<string>, k: string, key: string)
    requires k in keys && key in keys && k != key
    ensures |keys| >= 2
  {
    var rest := keys - {k};
    assert key in rest && |rest| == |keys| - 1 && |rest| != 0;
  }

  lemma SameSlotKey(a: Kind, b: Kind)
    ensures SlotKey(a) == SlotKey(b) <==> a == b
  {
    assert SlotKey(a)[1..] == a && SlotKey(b)[1..] == b;
  }

  lemma TypedStandsFor(sc: Schema, first: Order, j: Json, typ: Kind, s: Stmt)
    requires Orders(first) && ValidSchema(sc) && j.Obj? && s.kind in sc.fields
    ensures DecodeAs(sc, first, s.kind, j, typ, false, "") == Ok(s) <==>
      s.typ == typ && FieldsStandFor(sc, first, sc.fields[s.kind], j, s.fields) && (s.kind in sc.blocks ==> Suits(sc, s.kind, typ))
    decreases j, 1
  {
    KindIsValid(sc, s.kind);
    FieldsDecodeExactly(sc, first, sc.fields[s.kind], j, s.fields);
    hide DecodeFields, FieldsStandFor, Orders, ValidSchema, ValidType, Refines;
  }

  lemma TypedKind(sc: Schema, first: Order, kind: Kind, j: Json, typ: Kind)
    requires Orders(first) && ValidSchema(sc) && j.Obj? && kind in sc.fields
    ensures DecodeAs(sc, first, kind, j, typ, false, "").Ok? ==> DecodeAs(sc, first, kind, j, typ, false, "").value.kind == kind
  {
    hide DecodeFields;
  }

  lemma InlineStandsFor(sc: Schema, first: Order, j: Json, s: Stmt)
    requires Orders(first) && ValidSchema(sc) && j.Obj? && j.members != map[] && !Tagged(first(j))
    ensures UnmarshalByType(sc, first, j) == Ok(Slot(s)) <==> HeldInline(sc, first, j, s)
    decreases j, 2, 0
  {
    KindIsValid(sc, s.kind);
    var kind, refinement := ReadText(j.members, TYPE_FIELD), ReadText(j.members, REFINEMENT_FIELD);
    var typ := if REFINEMENT_FIELD in j.members && refinement.Ok? then refinement.value else s.kind;
    if s.kind in sc.fields {
      TypedStandsFor(sc, first, j, typ, s);
    }
    if kind.Ok? && kind.value in sc.fields {
      TypedKind(sc, first, kind.value, j, kind.value);
      TypedKind(sc, first, kind.value, j, typ);
    }
    hide DecodeAs, FieldsStandFor, Orders, ValidSchema, ValidType, Refines, Tagged;
  }

  // --------------------------------------------------- what slots accept

  /**
   * A slot decodes only from null, from an object whose single member is the
   * statement under its registered kind, or from an inline object whose
   * discriminator names its registered kind.
   */
  lemma AcceptedSlot(sc: Schema, first: Order, j: Json, v: Value)
    requires Orders(first) && ValidSchema(sc) && DecodeSlot(sc, first, j) == Ok(v)
    ensures v.Nil? || v.Slot?
    ensures v.Nil? ==> j.Null?
    ensures v.Slot? ==> j.Obj? && v.stmt.kind in sc.reg.kinds
    ensures v.Slot? && j.members.Keys != {SlotKey(v.stmt.kind)} ==>
      TYPE_FIELD in j.members && j.members[TYPE_FIELD] == Text(v.stmt.kind) && !Tagged(first(j))
  {
    SlotStandsFor(sc, first, j, v);
    hide DecodeSlot, StandsForStmt, FieldsStandFor, Orders, Refines;
  }

  /** A slot with two kinds, of an unregistered kind, without members or without a discriminator is refused. */
  lemma RefusedSlots(sc: Schema, first: Order, j: Json)
    requires Orders(first) && ValidSchema(sc) && j.Obj?
    ensures j.members == map[] ==> DecodeSlot(sc, first, j).Err?
    ensures |j.members| > 1 && Tagged(first(j)) ==> DecodeSlot(sc, first, j).Err?
    ensures (forall key :: key in j.members ==> Tagged(key) && key[1..] !in sc.reg.kinds) ==> DecodeSlot(sc, first, j).Err?
    ensures TYPE_FIELD !in j.members && (forall key :: key in j.members ==> !Tagged(key)) ==> DecodeSlot(sc, first, j).Err?
  {
    if DecodeSlot(sc, first, j).Ok? {
      var v := DecodeSlot(sc, first, j).value;
      AcceptedSlot(sc, first, j, v);
      var key := SlotKey(v.stmt.kind);
      assert Tagged(key) && key[1..] == v.stmt.kind;
      assert j.members.Keys == {key} ==> key in j.members && |j.members| == |j.members.Keys| == 1;
      assert TYPE_FIELD[0] != SLOT_KEY_PREFIX;
    }
    hide DecodeSlot, ValidSchema;
  }

  /** A member that is no field changes nothing, and a null list and a null record are empty. */
  lemma PassedOver(sc: Schema, first: Order, types: map<string, FieldType>, name: string, extra: Json, j: Json, elem: FieldType)
    requires Orders(first) && ValidSchema(sc) && ValidType(sc, RecordT(types)) && ValidType(sc, elem) && j.Obj? && name !in types
    ensures DecodeValue(sc, first, RecordT(types), Obj(j.members[name := extra])) == DecodeValue(sc, first, RecordT(types), j)
    ensures DecodeValue(sc, first, ListT(elem), Null) == Ok(List([]))
    ensures DecodeValue(sc, first, RecordT(types), Null) == Ok(Record(Fields(map[])))
  {
    var longer := Obj(j.members[name := extra]);
    hide Orders, ValidSchema, ValidType;
    forall fields ensures FieldsStandFor(sc, first, types, longer, fields) <==> FieldsStandFor(sc, first, types, j, fields) {
      hide StandsFor;
      assert types.Keys * longer.members.Keys == types.Keys * j.members.Keys + if name in types then {name} else {};
    }
    forall fields ensures DecodeFields(sc, first, types, longer) == Ok(fields) <==> DecodeFields(sc, first, types, j) == Ok(fields) {
      FieldsDecodeExactly(sc, first, types, longer, fields);
      FieldsDecodeExactly(sc, first, types, j, fields);
    }
    hide DecodeFields, FieldsStandFor;
    var r := DecodeFields(sc, first, types, longer);
    assert r.Ok? ==> DecodeFields(sc, first, types, j) == Ok(r.value);
  }
}
