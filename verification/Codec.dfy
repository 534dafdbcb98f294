/**
 * The codec of statement trees (codec_stream.go, codec_stream_encode.go,
 * registry.go:73-155): a statement in an interface-typed slot is held under its
 * kind, or inline as the legacy layout held it; a block stamps its own kind.
 */
module Codec {
  import opened Common
  import opened Registry

  /** A document. Objects are unordered: where the order of members matters, it is a parameter. */
  datatype Json = Null | Text(text: string) | Atom(literal: string) | Arr(items: seq<Json>) | Obj(members: map<string, Json>)

  /**
   * What a field of a statement or a record holds: no statement, a statement of
   * one kind, any statement (an interface-typed slot), a list, or a record.
   */
  datatype FieldType = PlainT | ConcreteT(kind: Kind) | SlotT | ListT(elem: FieldType) | RecordT(fields: map<string, FieldType>)

  datatype Value = Plain(json: Json) | Concrete(stmt: Stmt) | Slot(stmt: Stmt) | Nil | List(items: seq<Value>) | Record(fields: Fields)

  datatype Fields = Fields(at: map<string, Value>)

  datatype Stmt = Stmt(kind: Kind, typ: Kind, fields: Fields)

  /** The fields of each registered kind, and the kinds that stamp themselves as blocks do. */
  datatype Schema = Schema(reg: Refinements, fields: map<Kind, map<string, FieldType>>, blocks: set<Kind>)

  const TYPE_FIELD := "statement_type"
  const REFINEMENT_FIELD := "statement_refinement"
  const SLOT_KEY_PREFIX := '$'

  function SlotKey(kind: Kind): string {
    [SLOT_KEY_PREFIX] + kind
  }

  predicate Tagged(key: string) {
    key != "" && key[0] == SLOT_KEY_PREFIX
  }

  /** No field is named as a discriminator is, or as a slot's key. */
  predicate FieldName(name: string) {
    name != TYPE_FIELD && name != REFINEMENT_FIELD && !Tagged(name)
  }

  predicate ValidType(sc: Schema, t: FieldType) {
    match t
    case ConcreteT(kind) => kind in sc.fields
    case ListT(elem) => ValidType(sc, elem)
    case RecordT(fields) => forall n :: n in fields ==> FieldName(n) && ValidType(sc, fields[n])
    case _ => true
  }

  ghost predicate ValidSchema(sc: Schema) {
    && sc.reg.kinds == sc.fields.Keys && "" !in sc.fields
    && forall kind :: kind in sc.fields ==> ValidType(sc, RecordT(sc.fields[kind]))
  }

  /** The value is of the type, and each statement in it of a registered kind with that kind's fields. */
  ghost predicate Fits(sc: Schema, t: FieldType, v: Value)
    decreases v, 1
  {
    match v
    case Plain(_) => t.PlainT?
    case Concrete(s) => t == ConcreteT(s.kind) && FitsStmt(sc, s)
    case Slot(s) => t.SlotT? && FitsStmt(sc, s)
    case Nil => t.SlotT?
    case List(items) => t.ListT? && forall i :: 0 <= i < |items| ==> Fits(sc, t.elem, items[i])
    case Record(fields) => t.RecordT? && FitsFields(sc, t.fields, fields)
  }

  ghost predicate FitsFields(sc: Schema, types: map<string, FieldType>, fields: Fields)
    decreases fields, 0
  {
    forall n :: n in fields.at ==> n in types && Fits(sc, types[n], fields.at[n])
  }

  ghost predicate FitsStmt(sc: Schema, s: Stmt)
    decreases s, 0
  {
    s.kind in sc.fields && FitsFields(sc, sc.fields[s.kind], s.fields)
  }

  // -------------------------------------------------------------- encoding

  datatype Layout = TaggedLayout | LegacyLayout

  function EncodeValue(sc: Schema, layout: Layout, v: Value): Result<Json>
    decreases v, 1
  {
    match v
    case Plain(json) => Ok(json)
    case Concrete(s) => AsObject(EncodeMembers(sc, layout, s, s.typ))
    case Slot(s) => if layout.TaggedLayout? then WriteStatementSlot(sc, s) else AsObject(Marshal(sc, layout, s))
    case Nil => Err
    case List(items) =>
      if exists i :: 0 <= i < |items| && EncodeValue(sc, layout, items[i]).Err? then Err
      else Ok(Arr(seq(|items|, i requires 0 <= i < |items| => EncodeValue(sc, layout, items[i]).value)))
    case Record(fields) => AsObject(EncodeFields(sc, layout, fields))
  }

  function EncodeFields(sc: Schema, layout: Layout, fields: Fields): Result<map<string, Json>>
    decreases fields, 0
  {
    if exists n | n in fields.at :: EncodeValue(sc, layout, fields.at[n]).Err? then Err
    else Ok(map n | n in fields.at :: EncodeValue(sc, layout, fields.at[n]).value)
  }

  function AsObject(r: Result<map<string, Json>>): Result<Json> {
    if r.Ok? then Ok(Obj(r.value)) else Err
  }

  /** A statement's own encoder: a block stamps its kind, and its type as a refinement. */
  function EncodeMembers(sc: Schema, layout: Layout, s: Stmt, typ: Kind): Result<map<string, Json>>
    decreases s, 0
  {
    var members := EncodeFields(sc, layout, s.fields);
    if members.Err? then Err
    else if s.kind in sc.blocks then
      if typ == "" || typ == s.kind then Ok(members.value[TYPE_FIELD := Text(s.kind)])
      else if !Refines(sc.reg, s.kind, typ) then Err
      else Ok(members.value[TYPE_FIELD := Text(s.kind)][REFINEMENT_FIELD := Text(typ)])
    else Ok(if typ == "" then members.value else members.value[TYPE_FIELD := Text(typ)])
  }

  /** A slot in the tagged layout: the statement under its kind, carrying its own type. */
  function WriteStatementSlot(sc: Schema, s: Stmt): Result<Json>
    decreases s, 1
  {
    if s.kind !in sc.reg.kinds then Err
    else if s.typ != "" && s.typ != s.kind && !Refines(sc.reg, s.kind, s.typ) then Err
    else
      var members := EncodeMembers(sc, TaggedLayout, s, if s.typ == "" then s.kind else s.typ);
      if members.Err? then Err else Ok(Obj(map[SlotKey(s.kind) := Obj(members.value)]))
  }

  /** A statement inline: its kind under the discriminator, a type refined past it beside. */
  function Marshal(sc: Schema, layout: Layout, s: Stmt): Result<map<string, Json>>
    decreases s, 1
  {
    if s.kind !in sc.reg.kinds then Err
    else if s.typ != "" && s.typ != s.kind && !Refines(sc.reg, s.kind, s.typ) then Err
    else
      var members := EncodeMembers(sc, layout, s, s.kind);
      if members.Err? || s.typ == "" || s.typ == s.kind then members
      else Ok(members.value[REFINEMENT_FIELD := Text(s.typ)])
  }

  // -------------------------------------------------------------- decoding

  /** Which member of an object a document writes first. */
  type Order = Json -> string

  ghost predicate Orders(first: Order) {
    forall j: Json :: j.Obj? && j.members != map[] ==> first(j) in j.members
  }

  /** A string member; absent and null are the empty string. */
  function ReadText(members: map<string, Json>, name: string): Result<string> {
    if name !in members || members[name].Null? then Ok("")
    else if members[name].Text? then Ok(members[name].text)
    else Err
  }

  function DecodeValue(sc: Schema, first: Order, t: FieldType, j: Json): Result<Value>
    requires Orders(first) && ValidSchema(sc) && ValidType(sc, t)
    decreases j, 3
  {
    match t
    case PlainT => Ok(Plain(j))
    case ConcreteT(kind) => var r := DecodeConcrete(sc, first, kind, j); if r.Ok? then Ok(Concrete(r.value)) else Err
    case SlotT => DecodeSlot(sc, first, j)
    case ListT(elem) =>
      if j.Null? then Ok(List([]))
      else if !j.Arr? || exists i :: 0 <= i < |j.items| && DecodeValue(sc, first, elem, j.items[i]).Err? then Err
      else Ok(List(seq(|j.items|, i requires 0 <= i < |j.items| => DecodeValue(sc, first, elem, j.items[i]).value)))
    case RecordT(fields) =>
      if j.Null? then Ok(Record(Fields(map[])))
      else if !j.Obj? then Err
      else
        var r := DecodeFields(sc, first, fields, j);
        if r.Ok? then Ok(Record(r.value)) else Err
  }

  /** Each member that the type names; any other is passed over. */
  function DecodeFields(sc: Schema, first: Order, types: map<string, FieldType>, j: Json): Result<Fields>
    requires Orders(first) && ValidSchema(sc) && ValidType(sc, RecordT(types)) && j.Obj?
    decreases j, 0
  {
    if exists n | n in types :: n in j.members && DecodeValue(sc, first, types[n], j.members[n]).Err? then Err
    else Ok(Fields(map n | n in types && n in j.members :: DecodeValue(sc, first, types[n], j.members[n]).value))
  }

  /** Applies a block's refinement, and refuses a type that does not resolve to the block's kind. */
  function CheckBlockKind(sc: Schema, kind: Kind, typ: Kind, refined: bool, refinement: Kind): Result<Kind> {
    if refined && typ != kind then Err
    else
      var now := if refined then refinement else typ;
      if now != "" && now != kind && !Refines(sc.reg, kind, now) then Err else Ok(now)
  }

  /** The concrete decoder of a kind, given the type read for it. */
  function DecodeAs(sc: Schema, first: Order, kind: Kind, j: Json, typ: Kind, refined: bool, refinement: Kind): Result<Stmt>
    requires Orders(first) && ValidSchema(sc) && kind in sc.fields && j.Obj?
    decreases j, 1
  {
    var fields := DecodeFields(sc, first, sc.fields[kind], j);
    if fields.Err? then Err
    else if kind in sc.blocks then
      var checked := CheckBlockKind(sc, kind, typ, refined, refinement);
      if checked.Ok? then Ok(Stmt(kind, checked.value, fields.value)) else Err
    else Ok(Stmt(kind, typ, fields.value))
  }

  function DecodeConcrete(sc: Schema, first: Order, kind: Kind, j: Json): Result<Stmt>
    requires Orders(first) && ValidSchema(sc) && kind in sc.fields
    decreases j, 2
  {
    if j.Null? then Ok(Stmt(kind, "", Fields(map[])))
    else if !j.Obj? then Err
    else
      var typ, refinement := ReadText(j.members, TYPE_FIELD), ReadText(j.members, REFINEMENT_FIELD);
      if typ.Err? || (kind in sc.blocks && refinement.Err?) then Err
      else
        var refined := REFINEMENT_FIELD in j.members && !j.members[REFINEMENT_FIELD].Null?;
        DecodeAs(sc, first, kind, j, typ.value, refined, if refinement.Ok? then refinement.value else "")
  }

  /** Gives a tagged statement its kind when it carried none, and refuses a type that does not refine it. */
  function CheckSlotType(sc: Schema, s: Stmt): Result<Value> {
    if s.typ == "" then Ok(Slot(s.(typ := s.kind)))
    else if s.typ == s.kind || Refines(sc.reg, s.kind, s.typ) then Ok(Slot(s))
    else Err
  }

  /** A slot: tagged where its first member is, else in the legacy inline layout. */
  function DecodeSlot(sc: Schema, first: Order, j: Json): Result<Value>
    requires Orders(first) && ValidSchema(sc)
    decreases j, 2
  {
    if j.Null? then Ok(Nil)
    else if !j.Obj? || j.members == map[] then Err
    else if !Tagged(first(j)) then UnmarshalByType(sc, first, j)
    else
      var kind := first(j)[1..];
      if kind !in sc.fields then Err
      else
        var target := DecodeConcrete(sc, first, kind, j.members[first(j)]);
        if target.Err? || |j.members| != 1 then Err else CheckSlotType(sc, target.value)
  }

  /** The concrete type that the discriminator names; a refinement takes its place in the type. */
  function UnmarshalByType(sc: Schema, first: Order, j: Json): Result<Value>
    requires Orders(first) && ValidSchema(sc) && j.Obj?
    decreases j, 2, 0
  {
    var kind, refinement := ReadText(j.members, TYPE_FIELD), ReadText(j.members, REFINEMENT_FIELD);
    if TYPE_FIELD !in j.members || kind.Err? || kind.value !in sc.fields then Err
    else
      var target :=
        if REFINEMENT_FIELD !in j.members then DecodeAs(sc, first, kind.value, j, kind.value, false, "")
        else if refinement.Err? || !Refines(sc.reg, kind.value, refinement.value) then Err
        else DecodeAs(sc, first, kind.value, j, refinement.value, false, "");
      if target.Ok? then Ok(Slot(target.value)) else Err
  }
}
