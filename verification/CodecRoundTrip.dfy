/** What the codec keeps: round trips in both layouts, and exactly which types it refuses. */
module CodecRoundTrip {
  import opened Common
  import opened Registry
  import opened Codec

  // --------------------------------------------------------- the layouts

  /** The type a slot or a block gives a statement that carries none. */
  function TypeOrKind(s: Stmt): Kind {
    if s.typ == "" then s.kind else s.typ
  }

  /** The document a producer writes for a value, checking nothing. */
  function Doc(sc: Schema, layout: Layout, v: Value): Json
    decreases v, 1
  {
    match v
    case Plain(json) => json
    case Concrete(s) => Obj(Members(sc, layout, s, s.typ))
    case Slot(s) =>
      if layout.TaggedLayout? then Obj(map[SlotKey(s.kind) := Obj(Members(sc, layout, s, TypeOrKind(s)))])
      else Obj(Beside(Members(sc, layout, s, s.kind), s))
    case Nil => Null
    case List(items) => Arr(seq(|items|, i requires 0 <= i < |items| => Doc(sc, layout, items[i])))
    case Record(fields) => Obj(DocFields(sc, layout, fields))
  }

  function DocFields(sc: Schema, layout: Layout, fields: Fields): map<string, Json>
    decreases fields, 0
  {
    map n | n in fields.at :: Doc(sc, layout, fields.at[n])
  }

  /** A statement's members with the type it is given: beside the kind in a block, else in its place. */
  function Members(sc: Schema, layout: Layout, s: Stmt, typ: Kind): map<string, Json>
    decreases s, 0
  {
    Typed(sc, s.kind, DocFields(sc, layout, s.fields), typ)
  }

  function Typed(sc: Schema, kind: Kind, members: map<string, Json>, typ: Kind): map<string, Json> {
    if kind in sc.blocks then
      var stamped := members[TYPE_FIELD := Text(kind)];
      if typ == "" || typ == kind then stamped else stamped[REFINEMENT_FIELD := Text(typ)]
    else if typ == "" then members else members[TYPE_FIELD := Text(typ)]
  }

  /** A type refined past the kind, beside the kind. */
  function Beside(members: map<string, Json>, s: Stmt): map<string, Json> {
    if s.typ == "" || s.typ == s.kind then members else members[REFINEMENT_FIELD := Text(s.typ)]
  }

  // ----------------------------------------------------- sound and filled

  /** The type is unset, the kind itself, or refines the kind. */
  predicate Stamps(sc: Schema, s: Stmt) {
    s.typ == "" || s.typ == s.kind || Refines(sc.reg, s.kind, s.typ)
  }

  /** Every statement in a slot and every block carries a type that refines its kind. */
  predicate Sound(sc: Schema, v: Value)
    decreases v, 1
  {
    match v
    case Plain(_) => true
    case Concrete(s) => (s.kind in sc.blocks ==> Stamps(sc, s)) && SoundFields(sc, s.fields)
    case Slot(s) => Stamps(sc, s) && SoundFields(sc, s.fields)
    case Nil => true
    case List(items) => forall i :: 0 <= i < |items| ==> Sound(sc, items[i])
    case Record(fields) => SoundFields(sc, fields)
  }

  predicate SoundFields(sc: Schema, fields: Fields)
    decreases fields, 0
  {
    forall n :: n in fields.at ==> Sound(sc, fields.at[n])
  }

  /** No slot is absent. */
  predicate Whole(v: Value)
    decreases v, 1
  {
    match v
    case Plain(_) => true
    case Concrete(s) => WholeFields(s.fields)
    case Slot(s) => WholeFields(s.fields)
    case Nil => false
    case List(items) => forall i :: 0 <= i < |items| ==> Whole(items[i])
    case Record(fields) => WholeFields(fields)
  }

  predicate WholeFields(fields: Fields)
    decreases fields, 0
  {
    forall n :: n in fields.at ==> Whole(fields.at[n])
  }

  /** The value with unset types filled in at slots and blocks, and nowhere else. */
  function Fill(sc: Schema, v: Value): Value
    decreases v, 1
  {
    match v
    case Plain(json) => v
    case Concrete(s) => Concrete(Filled(sc, s, if s.kind in sc.blocks then TypeOrKind(s) else s.typ))
    case Slot(s) => Slot(Filled(sc, s, TypeOrKind(s)))
    case Nil => Nil
    case List(items) => List(seq(|items|, i requires 0 <= i < |items| => Fill(sc, items[i])))
    case Record(fields) => Record(FillFields(sc, fields))
  }

  function FillFields(sc: Schema, fields: Fields): Fields
    decreases fields, 0
  {
    Fields(map n | n in fields.at :: Fill(sc, fields.at[n]))
  }

  function Filled(sc: Schema, s: Stmt, typ: Kind): Stmt
    decreases s, 0
  {
    Stmt(s.kind, typ, FillFields(sc, s.fields))
  }

  // -------------------------------------------------------------- encoding

  /** Encoding writes the layout's document, and refuses exactly the values that are unsound or lack a slot. */
  lemma EncodesExactlySound(sc: Schema, layout: Layout, t: FieldType, v: Value)
    requires ValidSchema(sc) && Fits(sc, t, v)
    ensures EncodeValue(sc, layout, v) == if Sound(sc, v) && Whole(v) then Ok(Doc(sc, layout, v)) else Err
    decreases v, 1
  {
    match v
    case Plain(_) =>
    case Nil =>
    case Concrete(s) =>
      FieldsEncode(sc, layout, sc.fields[s.kind], s.fields);
      hide EncodeFields, SoundFields, WholeFields, FitsFields, DocFields, Refines;
    case Slot(s) =>
      FieldsEncode(sc, layout, sc.fields[s.kind], s.fields);
      SlotEncodes(sc, layout, s);
    case List(items) =>
      hide EncodeFields, SoundFields, WholeFields, FitsFields, DocFields, Refines;
      forall i | 0 <= i < |items|
        ensures EncodeValue(sc, layout, items[i]) == if Sound(sc, items[i]) && Whole(items[i]) then Ok(Doc(sc, layout, items[i])) else Err
      {
        EncodesExactlySound(sc, layout, t.elem, items[i]);
      }
      if i :| 0 <= i < |items| && EncodeValue(sc, layout, items[i]).Err? {
        assert !(Sound(sc, items[i]) && Whole(items[i]));
      } else {
        assert EncodeValue(sc, layout, v).value.items == Doc(sc, layout, v).items;
      }
    case Record(fields) =>
      FieldsEncode(sc, layout, t.fields, fields);
      hide EncodeFields, SoundFields, WholeFields, FitsFields, DocFields;
  }

  lemma SlotEncodes(sc: Schema, layout: Layout, s: Stmt)
    requires ValidSchema(sc) && s.kind in sc.fields
    requires EncodeFields(sc, layout, s.fields) ==
      if SoundFields(sc, s.fields) && WholeFields(s.fields) then Ok(DocFields(sc, layout, s.fields)) else Err
    ensures EncodeValue(sc, layout, Slot(s)) == if Sound(sc, Slot(s)) && Whole(Slot(s)) then Ok(Doc(sc, layout, Slot(s))) else Err
  {
    hide EncodeFields, SoundFields, WholeFields, FitsFields, DocFields, Refines, ValidType;
    assert s.kind in sc.reg.kinds;
    if layout.TaggedLayout? {
      assert WriteStatementSlot(sc, s) == if Sound(sc, Slot(s)) && Whole(Slot(s)) then Ok(Doc(sc, layout, Slot(s))) else Err;
    } else {
      assert Marshal(sc, layout, s) == if Sound(sc, Slot(s)) && Whole(Slot(s)) then Ok(Beside(Members(sc, layout, s, s.kind), s)) else Err;
    }
  }

  lemma FieldsEncode(sc: Schema, layout: Layout, types: map<string, FieldType>, fields: Fields)
    requires ValidSchema(sc) && FitsFields(sc, types, fields)
    ensures EncodeFields(sc, layout, fields) ==
      if SoundFields(sc, fields) && WholeFields(fields) then Ok(DocFields(sc, layout, fields)) else Err
    decreases fields, 0
  {
    forall n | n in fields.at
      ensures EncodeValue(sc, layout, fields.at[n]) == if Sound(sc, fields.at[n]) && Whole(fields.at[n]) then Ok(Doc(sc, layout, fields.at[n])) else Err
    {
      EncodesExactlySound(sc, layout, types[n], fields.at[n]);
    }
    hide EncodeValue, Sound, Whole, Doc, Fits;
    if n :| n in fields.at && EncodeValue(sc, layout, fields.at[n]).Err? {
      assert !(Sound(sc, fields.at[n]) && Whole(fields.at[n]));
    } else {
      assert EncodeFields(sc, layout, fields).value == DocFields(sc, layout, fields);
    }
  }

  // -------------------------------------------------------------- decoding

  /** The members hold the fields' documents, and beside them only discriminators. */
  ghost predicate Carries(members: map<string, Json>, docs: map<string, Json>) {
    forall n :: FieldName(n) ==> (n in members <==> n in docs) && (n in docs ==> members[n] == docs[n])
  }

  ghost predicate FieldNames(docs: map<string, Json>) {
    forall n :: n in docs ==> FieldName(n)
  }

  lemma TypedCarries(sc: Schema, kind: Kind, docs: map<string, Json>, typ: Kind)
    ensures Carries(Typed(sc, kind, docs, typ), docs)
  {
  }

  lemma BesideCarries(members: map<string, Json>, docs: map<string, Json>, s: Stmt)
    requires Carries(members, docs)
    ensures Carries(Beside(members, s), docs)
  {
  }

  lemma DocFieldNames(sc: Schema, layout: Layout, types: map<string, FieldType>, fields: Fields)
    requires ValidType(sc, RecordT(types)) && FitsFields(sc, types, fields)
    ensures FieldNames(DocFields(sc, layout, fields))
  {
    hide Doc, Fits, FieldName;
  }

  /** A document decodes to its value with types filled in, unless an unsound type refuses it. */
  lemma DecodesExactlySound(sc: Schema, first: Order, layout: Layout, t: FieldType, v: Value)
    requires Orders(first) && ValidSchema(sc) && ValidType(sc, t) && Fits(sc, t, v)
    ensures DecodeValue(sc, first, t, Doc(sc, layout, v)) == if Sound(sc, v) then Ok(Fill(sc, v)) else Err
    decreases v, 1
  {
    match v
    case Plain(_) =>
    case Nil =>
    case Concrete(s) =>
      KindIsValid(sc, s.kind);
      hide *;
      var docs := DocFields(sc, layout, s.fields);
      ConcreteParts(sc, layout, t, s);
      TypedCarries(sc, s.kind, docs, s.typ);
      FieldsDecode(sc, first, layout, sc.fields[s.kind], s.fields, Obj(Members(sc, layout, s, s.typ)));
      DocFieldNames(sc, layout, sc.fields[s.kind], s.fields);
      ConcreteDecodes(sc, first, layout, s, s.typ);
      ConcreteWhole(sc, first, layout, t, s);
    case Slot(s) =>
      KindIsValid(sc, s.kind);
      hide *;
      var docs := DocFields(sc, layout, s.fields);
      SlotParts(sc, layout, t, s);
      DocFieldNames(sc, layout, sc.fields[s.kind], s.fields);
      if layout.TaggedLayout? {
        TypedCarries(sc, s.kind, docs, TypeOrKind(s));
        FieldsDecode(sc, first, layout, sc.fields[s.kind], s.fields, Obj(Members(sc, layout, s, TypeOrKind(s))));
        ConcreteDecodes(sc, first, layout, s, TypeOrKind(s));
        TaggedDecodes(sc, first, s);
      } else {
        TypedCarries(sc, s.kind, docs, s.kind);
        BesideCarries(Members(sc, layout, s, s.kind), docs, s);
        FieldsDecode(sc, first, layout, sc.fields[s.kind], s.fields, Obj(Beside(Members(sc, layout, s, s.kind), s)));
        LegacyDecodes(sc, first, s);
      }
      SlotWhole(sc, first, layout, t, s);
    case List(items) =>
      ItemsDecode(sc, first, layout, t.elem, items);
    case Record(fields) =>
      FieldsDecode(sc, first, layout, t.fields, fields, Obj(DocFields(sc, layout, fields)));
      hide DecodeFields, DocFields, SoundFields, FillFields;
  }

  lemma KindIsValid(sc: Schema, kind: Kind)
    requires ValidSchema(sc)
    ensures kind in sc.fields ==> kind != "" && kind in sc.reg.kinds && ValidType(sc, RecordT(sc.fields[kind]))
  {
    hide ValidType;
  }

  lemma ConcreteParts(sc: Schema, layout: Layout, t: FieldType, s: Stmt)
    requires Fits(sc, t, Concrete(s))
    ensures t == ConcreteT(s.kind) && s.kind in sc.fields && FitsFields(sc, sc.fields[s.kind], s.fields)
    ensures Members(sc, layout, s, s.typ) == Typed(sc, s.kind, DocFields(sc, layout, s.fields), s.typ)
  {
    hide FitsFields, Typed, DocFields;
  }

  lemma ConcreteWhole(sc: Schema, first: Order, layout: Layout, t: FieldType, s: Stmt)
    requires Orders(first) && ValidSchema(sc) && ValidType(sc, t) && t == ConcreteT(s.kind) && s.kind in sc.fields
    requires DecodeConcrete(sc, first, s.kind, Obj(Members(sc, layout, s, s.typ))) == Expected(sc, s, s.typ)
    ensures DecodeValue(sc, first, t, Doc(sc, layout, Concrete(s))) == if Sound(sc, Concrete(s)) then Ok(Fill(sc, Concrete(s))) else Err
  {
    hide DecodeConcrete, Members, Refines, SoundFields, FillFields, Orders, ValidSchema;
  }

  lemma SlotParts(sc: Schema, layout: Layout, t: FieldType, s: Stmt)
    requires Fits(sc, t, Slot(s))
    ensures t == SlotT && s.kind in sc.fields && FitsFields(sc, sc.fields[s.kind], s.fields)
    ensures forall typ :: Members(sc, layout, s, typ) == Typed(sc, s.kind, DocFields(sc, layout, s.fields), typ)
  {
    hide FitsFields, Typed, DocFields;
  }

  lemma SlotWhole(sc: Schema, first: Order, layout: Layout, t: FieldType, s: Stmt)
    requires Orders(first) && ValidSchema(sc) && ValidType(sc, t) && t == SlotT
    requires DecodeSlot(sc, first, Doc(sc, layout, Slot(s))) == ExpectedSlot(sc, s)
    ensures DecodeValue(sc, first, t, Doc(sc, layout, Slot(s))) == if Sound(sc, Slot(s)) then Ok(Fill(sc, Slot(s))) else Err
  {
    hide DecodeSlot, Doc, Refines, SoundFields, FillFields, Orders, ValidSchema, Stamps;
  }

  lemma ItemsDecode(sc: Schema, first: Order, layout: Layout, elem: FieldType, items: seq<Value>)
    requires Orders(first) && ValidSchema(sc) && ValidType(sc, elem) && forall i :: 0 <= i < |items| ==> Fits(sc, elem, items[i])
    ensures DecodeValue(sc, first, ListT(elem), Doc(sc, layout, List(items))) == if Sound(sc, List(items)) then Ok(Fill(sc, List(items))) else Err
    decreases items, 1
  {
    forall i | 0 <= i < |items|
      ensures DecodeValue(sc, first, elem, Doc(sc, layout, items[i])) == if Sound(sc, items[i]) then Ok(Fill(sc, items[i])) else Err
    {
      DecodesExactlySound(sc, first, layout, elem, items[i]);
    }
    ItemsWhole(sc, first, layout, elem, items);
  }

  lemma ItemsWhole(sc: Schema, first: Order, layout: Layout, elem: FieldType, items: seq<Value>)
    requires Orders(first) && ValidSchema(sc) && ValidType(sc, elem)
    requires forall i :: 0 <= i < |items| ==>
      DecodeValue(sc, first, elem, Doc(sc, layout, items[i])) == if Sound(sc, items[i]) then Ok(Fill(sc, items[i])) else Err
    ensures DecodeValue(sc, first, ListT(elem), Doc(sc, layout, List(items))) == if Sound(sc, List(items)) then Ok(Fill(sc, List(items))) else Err
  {
    hide Orders, ValidSchema, DecodeFields, DecodeSlot, DecodeConcrete, SoundFields, FillFields, DocFields, Members;
    var j := Doc(sc, layout, List(items));
    assert |j.items| == |items| && forall i :: 0 <= i < |items| ==> j.items[i] == Doc(sc, layout, items[i]);
    if i :| 0 <= i < |items| && !Sound(sc, items[i]) {
      assert DecodeValue(sc, first, elem, j.items[i]).Err?;
    } else {
      assert DecodeValue(sc, first, ListT(elem), j).Ok?;
      assert DecodeValue(sc, first, ListT(elem), j).value.items == Fill(sc, List(items)).items;
    }
  }

  lemma FieldsDecode(sc: Schema, first: Order, layout: Layout, types: map<string, FieldType>, fields: Fields, j: Json)
    requires Orders(first) && ValidSchema(sc) && ValidType(sc, RecordT(types)) && FitsFields(sc, types, fields)
    requires j.Obj? && Carries(j.members, DocFields(sc, layout, fields))
    ensures DecodeFields(sc, first, types, j) == if SoundFields(sc, fields) then Ok(FillFields(sc, fields)) else Err
    decreases fields, 0
  {
    forall n | n in fields.at
      ensures n in types && n in j.members && ValidType(sc, types[n])
      ensures DecodeValue(sc, first, types[n], j.members[n]) == if Sound(sc, fields.at[n]) then Ok(Fill(sc, fields.at[n])) else Err
    {
      assert FieldName(n);
      DecodesExactlySound(sc, first, layout, types[n], fields.at[n]);
    }
    assert forall n :: n in types && n in j.members <==> n in fields.at;
    FieldsWhole(sc, first, types, fields, j);
  }

  lemma FieldsWhole(sc: Schema, first: Order, types: map<string, FieldType>, fields: Fields, j: Json)
    requires Orders(first) && ValidSchema(sc) && ValidType(sc, RecordT(types)) && j.Obj?
    requires forall n :: n in types && n in j.members <==> n in fields.at
    requires forall n :: n in fields.at ==> ValidType(sc, types[n])
    requires forall n :: n in fields.at ==>
      DecodeValue(sc, first, types[n], j.members[n]) == if Sound(sc, fields.at[n]) then Ok(Fill(sc, fields.at[n])) else Err
    ensures DecodeFields(sc, first, types, j) == if SoundFields(sc, fields) then Ok(FillFields(sc, fields)) else Err
  {
    hide Orders, ValidSchema, DecodeValue, Sound, Fill;
    if n :| n in fields.at && !Sound(sc, fields.at[n]) {
      assert DecodeValue(sc, first, types[n], j.members[n]).Err?;
    } else {
      assert DecodeFields(sc, first, types, j).Ok?;
      assert DecodeFields(sc, first, types, j).value.at == FillFields(sc, fields).at;
    }
  }

  /** What the concrete decoder makes of a statement written with the given type. */
  function Expected(sc: Schema, s: Stmt, typ: Kind): Result<Stmt> {
    if !SoundFields(sc, s.fields) || (s.kind in sc.blocks && !Stamps(sc, s.(typ := typ))) then Err
    else Ok(Filled(sc, s, if s.kind in sc.blocks then TypeOrKind(s.(typ := typ)) else typ))
  }

  function ExpectedSlot(sc: Schema, s: Stmt): Result<Value> {
    if Stamps(sc, s) && SoundFields(sc, s.fields) then Ok(Slot(Filled(sc, s, TypeOrKind(s)))) else Err
  }

  lemma ConcreteDecodes(sc: Schema, first: Order, layout: Layout, s: Stmt, typ: Kind)
    requires Orders(first) && ValidSchema(sc) && s.kind in sc.fields && s.kind != "" && ValidType(sc, RecordT(sc.fields[s.kind]))
    requires FieldNames(DocFields(sc, layout, s.fields))
    requires DecodeFields(sc, first, sc.fields[s.kind], Obj(Members(sc, layout, s, typ))) ==
      if SoundFields(sc, s.fields) then Ok(FillFields(sc, s.fields)) else Err
    ensures DecodeConcrete(sc, first, s.kind, Obj(Members(sc, layout, s, typ))) == Expected(sc, s, typ)
  {
    hide Orders, ValidSchema, ValidType, DecodeFields, DocFields, SoundFields, FillFields, Refines, Tagged;
    var members := Members(sc, layout, s, typ);
    NoDiscriminators(DocFields(sc, layout, s.fields));
    assert REFINEMENT_FIELD in members <==> s.kind in sc.blocks && typ != "" && typ != s.kind;
  }

  lemma NoDiscriminators(docs: map<string, Json>)
    requires FieldNames(docs)
    ensures TYPE_FIELD !in docs && REFINEMENT_FIELD !in docs && TYPE_FIELD != REFINEMENT_FIELD
    ensures forall n :: n in docs ==> !Tagged(n)
    ensures !Tagged(TYPE_FIELD) && !Tagged(REFINEMENT_FIELD)
  {
    assert TYPE_FIELD[10] != REFINEMENT_FIELD[10];
  }

  lemma TaggedDecodes(sc: Schema, first: Order, s: Stmt)
    requires Orders(first) && ValidSchema(sc) && s.kind in sc.fields && s.kind != ""
    requires DecodeConcrete(sc, first, s.kind, Obj(Members(sc, TaggedLayout, s, TypeOrKind(s)))) == Expected(sc, s, TypeOrKind(s))
    ensures DecodeSlot(sc, first, Doc(sc, TaggedLayout, Slot(s))) == ExpectedSlot(sc, s)
  {
    var j := Doc(sc, TaggedLayout, Slot(s));
    var key := SlotKey(s.kind);
    assert j.members.Keys == {key} && j.members != map[];
    assert first(j) in j.members && first(j) == key && key[1..] == s.kind;
    assert |j.members| == 1;
    hide Orders, ValidSchema, DecodeConcrete, Members, SoundFields, FillFields, Refines;
  }

  lemma LegacyDecodes(sc: Schema, first: Order, s: Stmt)
    requires Orders(first) && ValidSchema(sc) && s.kind in sc.fields && s.kind != "" && ValidType(sc, RecordT(sc.fields[s.kind]))
    requires FieldNames(DocFields(sc, LegacyLayout, s.fields))
    requires DecodeFields(sc, first, sc.fields[s.kind], Obj(Beside(Members(sc, LegacyLayout, s, s.kind), s))) ==
      if SoundFields(sc, s.fields) then Ok(FillFields(sc, s.fields)) else Err
    ensures DecodeSlot(sc, first, Doc(sc, LegacyLayout, Slot(s))) == ExpectedSlot(sc, s)
  {
    var j := Doc(sc, LegacyLayout, Slot(s));
    InlineDiscriminators(sc, LegacyLayout, s);
    assert j == Obj(Beside(Members(sc, LegacyLayout, s, s.kind), s));
    assert first(j) in j.members;
    LegacyUnmarshals(sc, first, s, j);
    hide Orders, ValidSchema, DecodeFields, DocFields, SoundFields, FillFields, Refines, ValidType, Tagged, UnmarshalByType, Doc, Members, Beside;
    assert DecodeSlot(sc, first, j) == UnmarshalByType(sc, first, j);
  }

  lemma LegacyUnmarshals(sc: Schema, first: Order, s: Stmt, j: Json)
    requires Orders(first) && ValidSchema(sc) && s.kind in sc.fields && ValidType(sc, RecordT(sc.fields[s.kind]))
    requires j.Obj? && TYPE_FIELD in j.members && j.members[TYPE_FIELD] == Text(s.kind)
    requires REFINEMENT_FIELD in j.members <==> s.typ != "" && s.typ != s.kind
    requires REFINEMENT_FIELD in j.members ==> j.members[REFINEMENT_FIELD] == Text(s.typ)
    requires DecodeFields(sc, first, sc.fields[s.kind], j) == if SoundFields(sc, s.fields) then Ok(FillFields(sc, s.fields)) else Err
    ensures UnmarshalByType(sc, first, j) == ExpectedSlot(sc, s)
  {
    hide Orders, ValidSchema, DecodeFields, SoundFields, FillFields, Refines, ValidType;
  }

  // ------------------------------------------------------- what is kept

  /** What is encoded, in either layout, decodes to the same value with unset types filled in. */
  lemma RoundTrip(sc: Schema, first: Order, layout: Layout, t: FieldType, v: Value)
    requires Orders(first) && ValidSchema(sc) && ValidType(sc, t) && Fits(sc, t, v)
    requires EncodeValue(sc, layout, v).Ok?
    ensures DecodeValue(sc, first, t, EncodeValue(sc, layout, v).value) == Ok(Fill(sc, v))
  {
    hide EncodeValue, DecodeValue, Doc, Fill, Sound, Whole, Orders, ValidSchema, ValidType, Fits;
    EncodesExactlySound(sc, layout, t, v);
    DecodesExactlySound(sc, first, layout, t, v);
  }

  /** The tagged and the legacy document of one value decode alike, whatever the order of their members. */
  lemma LayoutsDecodeAlike(sc: Schema, first: Order, other: Order, t: FieldType, v: Value)
    requires Orders(first) && Orders(other) && ValidSchema(sc) && ValidType(sc, t) && Fits(sc, t, v)
    ensures DecodeValue(sc, first, t, Doc(sc, TaggedLayout, v)) == DecodeValue(sc, other, t, Doc(sc, LegacyLayout, v))
  {
    hide DecodeValue, Doc, Fill, Sound, Orders, ValidSchema, ValidType, Fits;
    DecodesExactlySound(sc, first, TaggedLayout, t, v);
    DecodesExactlySound(sc, other, LegacyLayout, t, v);
  }

  /** A statement marshalled inline, its slots in either layout, comes back by its discriminator. */
  lemma MarshalRoundTrip(sc: Schema, first: Order, layout: Layout, s: Stmt)
    requires Orders(first) && ValidSchema(sc) && FitsStmt(sc, s)
    ensures Marshal(sc, layout, s).Ok? <==> Stamps(sc, s) && SoundFields(sc, s.fields) && WholeFields(s.fields)
    ensures Marshal(sc, layout, s).Ok? ==>
      UnmarshalByType(sc, first, Obj(Marshal(sc, layout, s).value)) == Ok(Slot(Filled(sc, s, TypeOrKind(s))))
  {
    hide *;
    KindIsValid(sc, s.kind);
    StmtParts(sc, layout, s);
    FieldsEncode(sc, layout, sc.fields[s.kind], s.fields);
    MarshalEncodes(sc, layout, s);
    DocFieldNames(sc, layout, sc.fields[s.kind], s.fields);
    var docs, j := DocFields(sc, layout, s.fields), Obj(Beside(Members(sc, layout, s, s.kind), s));
    TypedCarries(sc, s.kind, docs, s.kind);
    BesideCarries(Members(sc, layout, s, s.kind), docs, s);
    FieldsDecode(sc, first, layout, sc.fields[s.kind], s.fields, j);
    InlineDiscriminators(sc, layout, s);
    LegacyUnmarshals(sc, first, s, j);
    ExpectedSlotIs(sc, s);
  }

  lemma StmtParts(sc: Schema, layout: Layout, s: Stmt)
    requires FitsStmt(sc, s)
    ensures s.kind in sc.fields && FitsFields(sc, sc.fields[s.kind], s.fields)
    ensures forall typ :: Members(sc, layout, s, typ) == Typed(sc, s.kind, DocFields(sc, layout, s.fields), typ)
  {
    hide FitsFields, Typed, DocFields;
  }

  lemma MarshalEncodes(sc: Schema, layout: Layout, s: Stmt)
    requires s.kind in sc.reg.kinds
    requires EncodeFields(sc, layout, s.fields) ==
      if SoundFields(sc, s.fields) && WholeFields(s.fields) then Ok(DocFields(sc, layout, s.fields)) else Err
    ensures Marshal(sc, layout, s) == if Stamps(sc, s) && SoundFields(sc, s.fields) && WholeFields(s.fields)
      then Ok(Beside(Members(sc, layout, s, s.kind), s)) else Err
  {
    hide EncodeFields, SoundFields, WholeFields, DocFields, Refines;
  }

  /** Inline, the kind is the discriminator and the refinement is there exactly for a refined type. */
  lemma InlineDiscriminators(sc: Schema, layout: Layout, s: Stmt)
    requires FieldNames(DocFields(sc, layout, s.fields)) && s.kind != ""
    ensures var members := Beside(Members(sc, layout, s, s.kind), s);
            && TYPE_FIELD in members && members[TYPE_FIELD] == Text(s.kind)
            && (REFINEMENT_FIELD in members <==> s.typ != "" && s.typ != s.kind)
            && (REFINEMENT_FIELD in members ==> members[REFINEMENT_FIELD] == Text(s.typ))
            && forall n :: n in members ==> !Tagged(n)
  {
    NoDiscriminators(DocFields(sc, layout, s.fields));
    hide DocFields, Tagged;
  }

  lemma ExpectedSlotIs(sc: Schema, s: Stmt)
    ensures ExpectedSlot(sc, s) == if Stamps(sc, s) && SoundFields(sc, s.fields) then Ok(Slot(Filled(sc, s, TypeOrKind(s)))) else Err
  {
    hide SoundFields, FillFields, Stamps;
  }

  /** Every slot and every block carries a type. */
  predicate AllTyped(sc: Schema, v: Value)
    decreases v, 1
  {
    match v
    case Plain(_) => true
    case Concrete(s) => (s.kind in sc.blocks ==> s.typ != "") && AllTypedFields(sc, s.fields)
    case Slot(s) => s.typ != "" && AllTypedFields(sc, s.fields)
    case Nil => true
    case List(items) => forall i :: 0 <= i < |items| ==> AllTyped(sc, items[i])
    case Record(fields) => AllTypedFields(sc, fields)
  }

  predicate AllTypedFields(sc: Schema, fields: Fields)
    decreases fields, 0
  {
    forall n :: n in fields.at ==> AllTyped(sc, fields.at[n])
  }

  /** Filling in changes nothing exactly where every slot and every block carries a type. */
  lemma FillChangesOnlyUnset(sc: Schema, t: FieldType, v: Value)
    requires ValidSchema(sc) && Fits(sc, t, v)
    ensures Fill(sc, v) == v <==> AllTyped(sc, v)
    decreases v, 1
  {
    hide ValidType;
    match v
    case Plain(_) =>
    case Nil =>
    case Concrete(s) => FillFieldsChangesOnlyUnset(sc, sc.fields[s.kind], s.fields); hide FillFields, AllTypedFields, FitsFields;
    case Slot(s) => FillFieldsChangesOnlyUnset(sc, sc.fields[s.kind], s.fields); hide FillFields, AllTypedFields, FitsFields;
    case List(items) =>
      forall i | 0 <= i < |items| ensures Fill(sc, items[i]) == items[i] <==> AllTyped(sc, items[i]) {
        FillChangesOnlyUnset(sc, t.elem, items[i]);
      }
      hide FillFields, AllTypedFields, FitsFields, Filled;
      if AllTyped(sc, v) {
        assert Fill(sc, v).items == items;
      }
      if Fill(sc, v) == v {
        forall i | 0 <= i < |items| ensures AllTyped(sc, items[i]) {
          assert Fill(sc, v).items[i] == items[i];
        }
      }
    case Record(fields) => FillFieldsChangesOnlyUnset(sc, t.fields, fields); hide FillFields, AllTypedFields, FitsFields;
  }

  lemma FillFieldsChangesOnlyUnset(sc: Schema, types: map<string, FieldType>, fields: Fields)
    requires ValidSchema(sc) && FitsFields(sc, types, fields)
    ensures FillFields(sc, fields) == fields <==> AllTypedFields(sc, fields)
    decreases fields, 0
  {
    forall n | n in fields.at ensures Fill(sc, fields.at[n]) == fields.at[n] <==> AllTyped(sc, fields.at[n]) {
      FillChangesOnlyUnset(sc, types[n], fields.at[n]);
    }
    hide Fill, AllTyped, Fits, ValidSchema;
    if AllTypedFields(sc, fields) {
      assert FillFields(sc, fields).at == fields.at;
    }
    if FillFields(sc, fields) == fields {
      forall n | n in fields.at ensures AllTyped(sc, fields.at[n]) {
        assert FillFields(sc, fields).at[n] == fields.at[n];
      }
    }
  }

  /** Every slot carries a type. */
  predicate SlotsTyped(v: Value)
    decreases v, 1
  {
    match v
    case Plain(_) => true
    case Concrete(s) => SlotsTypedIn(s.fields)
    case Slot(s) => s.typ != "" && SlotsTypedIn(s.fields)
    case Nil => true
    case List(items) => forall i :: 0 <= i < |items| ==> SlotsTyped(items[i])
    case Record(fields) => SlotsTypedIn(fields)
  }

  predicate SlotsTypedIn(fields: Fields)
    decreases fields, 0
  {
    forall n :: n in fields.at ==> SlotsTyped(fields.at[n])
  }

  /** No kind accepts the empty kind as a refinement. */
  ghost predicate NoEmptyCrossing(sc: Schema) {
    forall kind :: kind in sc.fields && kind in sc.reg.crossHierarchy ==> "" !in sc.reg.crossHierarchy[kind]
  }

  lemma EmptyRefinesNothing(sc: Schema, kind: Kind)
    requires ValidSchema(sc) && NoEmptyCrossing(sc) && kind in sc.fields
    ensures !Refines(sc.reg, kind, "")
  {
    assert LongestRegistered(sc.reg.kinds, "") == "";
  }

  /**
   * Whatever document is accepted, the type that a slot or a block in its value
   * carries refines its kind, and every slot carries one unless some kind accepts
   * the empty kind as a refinement.
   */
  lemma AcceptedIsSound(sc: Schema, first: Order, t: FieldType, j: Json)
    requires Orders(first) && ValidSchema(sc) && ValidType(sc, t) && DecodeValue(sc, first, t, j).Ok?
    ensures Sound(sc, DecodeValue(sc, first, t, j).value)
    ensures NoEmptyCrossing(sc) ==> SlotsTyped(DecodeValue(sc, first, t, j).value)
    decreases j, 3
  {
    match t
    case PlainT =>
    case ConcreteT(kind) =>
      KindIsValid(sc, kind);
      ConcreteAccepted(sc, first, kind, j);
    case SlotT =>
      SlotAccepted(sc, first, j);
    case ListT(elem) =>
      if j.Arr? {
        forall i | 0 <= i < |j.items|
          ensures Sound(sc, DecodeValue(sc, first, elem, j.items[i]).value)
          ensures NoEmptyCrossing(sc) ==> SlotsTyped(DecodeValue(sc, first, elem, j.items[i]).value)
        {
          AcceptedIsSound(sc, first, elem, j.items[i]);
        }
      }
    case RecordT(fields) =>
      if j.Obj? {
        FieldsAccepted(sc, first, fields, j);
      }
  }

  lemma FieldsAccepted(sc: Schema, first: Order, types: map<string, FieldType>, j: Json)
    requires Orders(first) && ValidSchema(sc) && ValidType(sc, RecordT(types)) && j.Obj?
    requires DecodeFields(sc, first, types, j).Ok?
    ensures SoundFields(sc, DecodeFields(sc, first, types, j).value)
    ensures NoEmptyCrossing(sc) ==> SlotsTypedIn(DecodeFields(sc, first, types, j).value)
    decreases j, 0
  {
    forall n | n in types && n in j.members
      ensures Sound(sc, DecodeValue(sc, first, types[n], j.members[n]).value)
      ensures NoEmptyCrossing(sc) ==> SlotsTyped(DecodeValue(sc, first, types[n], j.members[n]).value)
    {
      AcceptedIsSound(sc, first, types[n], j.members[n]);
    }
    hide DecodeValue, Orders, ValidSchema, Sound, SlotsTyped, NoEmptyCrossing;
  }

  lemma AsAccepted(sc: Schema, first: Order, kind: Kind, j: Json, typ: Kind, refined: bool, refinement: Kind)
    requires Orders(first) && ValidSchema(sc) && kind in sc.fields && j.Obj?
    requires DecodeAs(sc, first, kind, j, typ, refined, refinement).Ok?
    ensures var s := DecodeAs(sc, first, kind, j, typ, refined, refinement).value;
            && s.kind == kind && SoundFields(sc, s.fields) && (kind in sc.blocks ==> Stamps(sc, s)) && (!refined ==> s.typ == typ)
            && (NoEmptyCrossing(sc) ==> SlotsTypedIn(s.fields))
    decreases j, 1
  {
    KindIsValid(sc, kind);
    FieldsAccepted(sc, first, sc.fields[kind], j);
    hide DecodeFields, Orders, ValidSchema, SoundFields, SlotsTypedIn, ValidType, Refines, NoEmptyCrossing;
  }

  lemma ConcreteAccepted(sc: Schema, first: Order, kind: Kind, j: Json)
    requires Orders(first) && ValidSchema(sc) && kind in sc.fields && DecodeConcrete(sc, first, kind, j).Ok?
    ensures var s := DecodeConcrete(sc, first, kind, j).value;
            && s.kind == kind && SoundFields(sc, s.fields) && (kind in sc.blocks ==> Stamps(sc, s))
            && (NoEmptyCrossing(sc) ==> SlotsTypedIn(s.fields))
    decreases j, 2
  {
    if j.Obj? {
      var typ, refinement := ReadText(j.members, TYPE_FIELD), ReadText(j.members, REFINEMENT_FIELD);
      var refined := REFINEMENT_FIELD in j.members && !j.members[REFINEMENT_FIELD].Null?;
      AsAccepted(sc, first, kind, j, typ.value, refined, if refinement.Ok? then refinement.value else "");
      hide DecodeAs, Orders, ValidSchema, SoundFields, SlotsTypedIn, Refines, NoEmptyCrossing;
    }
  }

  lemma SlotAccepted(sc: Schema, first: Order, j: Json)
    requires Orders(first) && ValidSchema(sc) && DecodeSlot(sc, first, j).Ok?
    ensures Sound(sc, DecodeSlot(sc, first, j).value)
    ensures NoEmptyCrossing(sc) ==> SlotsTyped(DecodeSlot(sc, first, j).value)
    decreases j, 2
  {
    if !j.Null? {
      assert first(j) in j.members;
      if Tagged(first(j)) {
        ConcreteAccepted(sc, first, first(j)[1..], j.members[first(j)]);
        hide DecodeConcrete, Orders, SoundFields, SlotsTypedIn, Refines, NoEmptyCrossing;
      } else {
        InlineAccepted(sc, first, j);
        hide UnmarshalByType, Orders, ValidSchema, Sound, SlotsTyped, NoEmptyCrossing;
      }
    }
  }

  lemma InlineAccepted(sc: Schema, first: Order, j: Json)
    requires Orders(first) && ValidSchema(sc) && j.Obj? && UnmarshalByType(sc, first, j).Ok?
    ensures Sound(sc, UnmarshalByType(sc, first, j).value)
    ensures NoEmptyCrossing(sc) ==> SlotsTyped(UnmarshalByType(sc, first, j).value)
    decreases j, 2, 0
  {
    var kind, refinement := ReadText(j.members, TYPE_FIELD), ReadText(j.members, REFINEMENT_FIELD);
    if REFINEMENT_FIELD in j.members {
      AsAccepted(sc, first, kind.value, j, refinement.value, false, "");
      if NoEmptyCrossing(sc) {
        EmptyRefinesNothing(sc, kind.value);
      }
    } else {
      AsAccepted(sc, first, kind.value, j, kind.value, false, "");
    }
    hide DecodeAs, Orders, SoundFields, SlotsTypedIn, Refines, NoEmptyCrossing;
  }

  lemma NothingDecodes(sc: Schema, first: Order, types: map<string, FieldType>, j: Json)
    requires Orders(first) && ValidSchema(sc) && ValidType(sc, RecordT(types)) && j.Obj? && forall n :: n in types ==> n !in j.members
    ensures DecodeFields(sc, first, types, j).Ok?
  {
  }

  /** An inline statement of a kind, refined to the empty kind. */
  function RefinedToNothing(kind: Kind): Json {
    Obj(map[TYPE_FIELD := Text(kind), REFINEMENT_FIELD := Text("")])
  }

  lemma RefinedToNothingDecodes(sc: Schema, first: Order, kind: Kind)
    requires Orders(first) && ValidSchema(sc) && kind in sc.fields && Refines(sc.reg, kind, "")
    ensures var r := UnmarshalByType(sc, first, RefinedToNothing(kind)); r.Ok? && r.value.Slot? && r.value.stmt.typ == ""
  {
    var j := RefinedToNothing(kind);
    KindIsValid(sc, kind);
    NothingDecodes(sc, first, sc.fields[kind], j);
    hide DecodeFields, Refines;
    assert ReadText(j.members, TYPE_FIELD) == Ok(kind) && ReadText(j.members, REFINEMENT_FIELD) == Ok("");
    assert DecodeAs(sc, first, kind, j, "", false, "").Ok?;
  }

  /** A refinement to the empty kind, where one is accepted, leaves a slot without a type. */
  lemma EmptyCrossingLeavesUntyped(sc: Schema, first: Order, kind: Kind)
    requires Orders(first) && ValidSchema(sc) && kind in sc.fields && kind in sc.reg.crossHierarchy && "" in sc.reg.crossHierarchy[kind]
    ensures DecodeSlot(sc, first, RefinedToNothing(kind)).Ok? && !SlotsTyped(DecodeSlot(sc, first, RefinedToNothing(kind)).value)
  {
    var j := RefinedToNothing(kind);
    RefinedToNothingDecodes(sc, first, kind);
    assert TYPE_FIELD in j.members;
    assert first(j) in j.members;
    hide UnmarshalByType;
    assert DecodeSlot(sc, first, j) == UnmarshalByType(sc, first, j);
  }

  /** Every slot of whatever is accepted carries a type, exactly when no kind accepts the empty kind as a refinement. */
  lemma SlotsTypedExactly(sc: Schema, first: Order)
    requires Orders(first) && ValidSchema(sc)
    ensures (forall j :: DecodeSlot(sc, first, j).Ok? ==> SlotsTyped(DecodeSlot(sc, first, j).value)) <==> NoEmptyCrossing(sc)
  {
    hide DecodeSlot, SlotsTyped;
    if NoEmptyCrossing(sc) {
      forall j | DecodeSlot(sc, first, j).Ok? ensures SlotsTyped(DecodeSlot(sc, first, j).value) {
        SlotAccepted(sc, first, j);
      }
    } else {
      var kind :| kind in sc.fields && kind in sc.reg.crossHierarchy && "" in sc.reg.crossHierarchy[kind];
      EmptyCrossingLeavesUntyped(sc, first, kind);
    }
  }

  // ------------------------------------------- where a statement is held

  /**
   * In the tagged layout a slot is an object with one member, the statement under its
   * kind; in the legacy layout the statement itself, its kind under the discriminator,
   * and no member of it is one of a slot.
   */
  lemma EncodedSlot(sc: Schema, layout: Layout, s: Stmt)
    requires ValidSchema(sc) && Fits(sc, SlotT, Slot(s)) && EncodeValue(sc, layout, Slot(s)).Ok?
    ensures var j := EncodeValue(sc, layout, Slot(s)).value;
            j.Obj? && match layout
              case TaggedLayout => j.members.Keys == {SlotKey(s.kind)} && j.members[SlotKey(s.kind)].Obj?
              case LegacyLayout => TYPE_FIELD in j.members && j.members[TYPE_FIELD] == Text(s.kind) && forall n :: n in j.members ==> !Tagged(n)
  {
    hide *;
    EncodesExactlySound(sc, layout, SlotT, Slot(s));
    SlotParts(sc, layout, SlotT, s);
    KindIsValid(sc, s.kind);
    DocFieldNames(sc, layout, sc.fields[s.kind], s.fields);
    InlineDiscriminators(sc, layout, s);
    SlotDoc(sc, layout, s);
  }

  lemma SlotDoc(sc: Schema, layout: Layout, s: Stmt)
    ensures Doc(sc, layout, Slot(s)) == match layout
      case TaggedLayout => Obj(map[SlotKey(s.kind) := Obj(Members(sc, layout, s, TypeOrKind(s)))])
      case LegacyLayout => Obj(Beside(Members(sc, layout, s, s.kind), s))
  {
    hide Members, Beside;
  }
}
