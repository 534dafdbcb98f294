/**
 * The codec step by step (codec_stream.go, codec_stream_encode.go, registry.go:73-155):
 * members are read in the order the document writes them, a statement is filled
 * in place, and a statement to be written is stamped on a copy. Each step is
 * proved to do what the codec's functions say.
 */
module CodecStream {
  import opened Common
  import opened Registry
  import opened Codec

  /** The order in which a document writes the members of each object. */
  type Listing = Json -> seq<string>

  ghost predicate Lists(listing: Listing) {
    forall j: Json :: j.Obj? ==> Distinct(listing(j)) && forall n :: n in listing(j) <==> n in j.members
  }

  function FirstOf(listing: Listing): Order {
    (j: Json) => if listing(j) == [] then "" else listing(j)[0]
  }

  lemma FirstOrders(listing: Listing)
    requires Lists(listing)
    ensures Orders(FirstOf(listing))
  {
    forall j: Json | j.Obj? && j.members != map[] ensures FirstOf(listing)(j) in j.members {
      var n :| n in j.members;
      assert n in listing(j);
    }
  }

  /** An object has one member exactly when its first is followed by none. */
  lemma OneMember(names: seq<string>, m: map<string, Json>)
    requires Distinct(names) && (forall n :: n in names <==> n in m) && names != []
    ensures |names| == 1 <==> |m| == 1
  {
    assert names[0] in m;
    if |names| == 1 {
      assert m.Keys == {names[0]};
    } else {
      assert names[1] in m && {names[0], names[1]} <= m.Keys;
      assert |m.Keys - {names[0], names[1]}| == |m.Keys| - 2;
    }
  }

  /** A statement being decoded. */
  class Target {
    const kind: Kind
    var typ: Kind
    var fields: map<string, Value>

    constructor (kind: Kind)
      ensures this.kind == kind && typ == "" && fields == map[]
    {
      this.kind := kind;
      typ, fields := "", map[];
    }
  }

  /** The members of a refined inline statement, the refinement moved to where its decoder reads its type. */
  function Moved(m: map<string, Json>): map<string, Json>
    requires REFINEMENT_FIELD in m
  {
    m[TYPE_FIELD := m[REFINEMENT_FIELD]] - {REFINEMENT_FIELD}
  }

  /** What was read of an object's fields is all that it decodes to. */
  ghost predicate AllRead(sc: Schema, first: Order, types: map<string, FieldType>, j: Json, fields: map<string, Value>)
    requires Orders(first) && ValidSchema(sc) && ValidType(sc, RecordT(types)) && j.Obj?
  {
    && (forall n :: n in fields <==> n in types && n in j.members)
    && (forall n :: n in fields ==> DecodeValue(sc, first, types[n], j.members[n]) == Ok(fields[n]))
  }

  lemma FieldsRead(sc: Schema, first: Order, types: map<string, FieldType>, j: Json, fields: map<string, Value>)
    requires Orders(first) && ValidSchema(sc) && ValidType(sc, RecordT(types)) && j.Obj? && AllRead(sc, first, types, j, fields)
    ensures DecodeFields(sc, first, types, j) == Ok(Fields(fields))
  {
    hide DecodeValue;
    var read := map n | n in types && n in j.members :: DecodeValue(sc, first, types[n], j.members[n]).value;
    assert read == fields;
  }

  lemma FieldRefused(sc: Schema, first: Order, types: map<string, FieldType>, j: Json, n: string)
    requires Orders(first) && ValidSchema(sc) && ValidType(sc, RecordT(types)) && j.Obj?
    requires n in types && n in j.members && DecodeValue(sc, first, types[n], j.members[n]).Err?
    ensures DecodeFields(sc, first, types, j).Err?
  {
    hide DecodeValue;
  }

  /** Discriminators are no fields, so the fields of two objects that differ only in them decode alike. */
  lemma SameFieldsDecode(sc: Schema, first: Order, types: map<string, FieldType>, j: Json, k: Json)
    requires Orders(first) && ValidSchema(sc) && ValidType(sc, RecordT(types)) && j.Obj? && k.Obj?
    requires forall n :: n in types ==> (n in j.members <==> n in k.members) && (n in j.members ==> j.members[n] == k.members[n])
    ensures DecodeFields(sc, first, types, j) == DecodeFields(sc, first, types, k)
  {
    hide DecodeValue;
    if n :| n in types && n in j.members && DecodeValue(sc, first, types[n], j.members[n]).Err? {
      FieldRefused(sc, first, types, j, n);
      FieldRefused(sc, first, types, k, n);
    } else {
      var fields := map n | n in types && n in j.members :: DecodeValue(sc, first, types[n], j.members[n]).value;
      FieldsRead(sc, first, types, j, fields);
      FieldsRead(sc, first, types, k, fields);
    }
  }

  lemma ItemsRead(sc: Schema, first: Order, elem: FieldType, j: Json, items: seq<Value>)
    requires Orders(first) && ValidSchema(sc) && ValidType(sc, ListT(elem)) && j.Arr? && |items| == |j.items|
    requires forall i :: 0 <= i < |items| ==> DecodeValue(sc, first, elem, j.items[i]) == Ok(items[i])
    ensures DecodeValue(sc, first, ListT(elem), j) == Ok(List(items))
  {
    var read := seq(|j.items|, i requires 0 <= i < |j.items| => DecodeValue(sc, first, elem, j.items[i]).value);
    assert read == items;
  }

  /** Decoding with the refinement moved is decoding with the refinement for the type. */
  lemma MovedDecodes(sc: Schema, first: Order, kind: Kind, j: Json)
    requires Orders(first) && ValidSchema(sc) && kind in sc.fields && j.Obj? && REFINEMENT_FIELD in j.members
    requires ReadText(j.members, REFINEMENT_FIELD).Ok?
    ensures var typ := ReadText(j.members, REFINEMENT_FIELD).value;
            DecodeConcrete(sc, first, kind, Obj(Moved(j.members))) == DecodeAs(sc, first, kind, j, typ, false, "")
  {
    assert ValidType(sc, RecordT(sc.fields[kind]));
    SameFieldsDecode(sc, first, sc.fields[kind], j, Obj(Moved(j.members)));
  }

  lemma PlainDecodes(sc: Schema, first: Order, kind: Kind, j: Json)
    requires Orders(first) && ValidSchema(sc) && kind in sc.fields && j.Obj? && REFINEMENT_FIELD !in j.members
    requires ReadText(j.members, TYPE_FIELD) == Ok(kind)
    ensures DecodeConcrete(sc, first, kind, j) == DecodeAs(sc, first, kind, j, kind, false, "")
  {
  }

  class Decoder {
    const sc: Schema
    const listing: Listing

    ghost predicate Valid() {
      ValidSchema(sc) && Lists(listing) && Orders(FirstOf(listing))
    }

    constructor (sc: Schema, listing: Listing)
      requires ValidSchema(sc) && Lists(listing)
      ensures Valid() && this.sc == sc && this.listing == listing
    {
      this.sc, this.listing := sc, listing;
      FirstOrders(listing);
    }

    method ReadValue(t: FieldType, j: Json) returns (r: Result<Value>)
      requires Valid() && ValidType(sc, t)
      ensures r == DecodeValue(sc, FirstOf(listing), t, j)
      decreases j, 4
    {
      match t
      case PlainT => r := Ok(Plain(j));
      case ConcreteT(kind) =>
        var stmt := ReadStatement(kind, j, j);
        r := if stmt.Ok? then Ok(Concrete(stmt.value)) else Err;
      case SlotT => r := ReadSlot(j);
      case ListT(elem) =>
        if j.Null? {
          return Ok(List([]));
        }
        if !j.Arr? {
          return Err;
        }
        var items := [];
        for i := 0 to |j.items|
          invariant |items| == i && forall k :: 0 <= k < i ==> DecodeValue(sc, FirstOf(listing), elem, j.items[k]) == Ok(items[k])
        {
          var item := ReadValue(elem, j.items[i]);
          if item.Err? {
            return Err;
          }
          items := items + [item.value];
        }
        ItemsRead(sc, FirstOf(listing), elem, j, items);
        r := Ok(List(items));
      case RecordT(types) =>
        if j.Null? {
          return Ok(Record(Fields(map[])));
        }
        if !j.Obj? {
          return Err;
        }
        var ok, fields := ReadFields(types, j, j, listing(j));
        r := if ok then Ok(Record(Fields(fields))) else Err;
    }

    /** Reads the members one by one, passing over those that are no fields. */
    method ReadFields(types: map<string, FieldType>, ghost whole: Json, j: Json, names: seq<string>) returns (ok: bool, fields: map<string, Value>)
      requires Valid() && ValidType(sc, RecordT(types)) && j.Obj? && forall n :: n in j.members ==> j.members[n] < whole
      requires forall n :: n in names <==> n in j.members
      ensures DecodeFields(sc, FirstOf(listing), types, j) == if ok then Ok(Fields(fields)) else Err
      decreases whole, 0
    {
      ghost var first := FirstOf(listing);
      fields := map[];
      hide DecodeFields, DecodeValue, Lists, Orders, ValidSchema;
      for i := 0 to |names|
        invariant forall n :: n in fields <==> n in types && n in names[..i]
        invariant forall n :: n in fields ==> DecodeValue(sc, first, types[n], j.members[n]) == Ok(fields[n])
      {
        var name := names[i];
        assert name in j.members;
        if name in types {
          var value := ReadValue(types[name], j.members[name]);
          if value.Err? {
            FieldRefused(sc, first, types, j, name);
            return false, map[];
          }
          fields := fields[name := value.value];
        }
      }
      assert names[..|names|] == names;
      FieldsRead(sc, first, types, j, fields);
      ok := true;
    }

    /** A kind's own decoder: fills a new statement, whose type a block checks. */
    method ReadStatement(kind: Kind, ghost whole: Json, j: Json) returns (r: Result<Stmt>)
      requires Valid() && kind in sc.fields && (j.Obj? ==> forall n :: n in j.members ==> j.members[n] < whole)
      ensures r == DecodeConcrete(sc, FirstOf(listing), kind, j)
      decreases whole, 1
    {
      var target := new Target(kind);
      if j.Null? {
        return Ok(Stmt(kind, target.typ, Fields(target.fields)));
      }
      if !j.Obj? {
        return Err;
      }
      var typ, refinement := ReadText(j.members, TYPE_FIELD), ReadText(j.members, REFINEMENT_FIELD);
      if typ.Err? || (kind in sc.blocks && refinement.Err?) {
        return Err;
      }
      target.typ := typ.value;
      var ok, fields := ReadFields(sc.fields[kind], whole, j, listing(j));
      if !ok {
        return Err;
      }
      target.fields := fields;
      if kind in sc.blocks {
        var refined := REFINEMENT_FIELD in j.members && !j.members[REFINEMENT_FIELD].Null?;
        ok := CheckBlock(target, if refined then Some(refinement.value) else None);
        if !ok {
          return Err;
        }
      }
      r := Ok(Stmt(kind, target.typ, Fields(target.fields)));
    }

    /** Applies a block's refinement to it, and refuses a type that does not resolve to its kind. */
    method CheckBlock(target: Target, refinement: Option<Kind>) returns (ok: bool)
      modifies target`typ
      ensures var checked := CheckBlockKind(sc, target.kind, old(target.typ), refinement.Some?, if refinement.Some? then refinement.value else "");
              ok == checked.Ok? && (ok ==> target.typ == checked.value)
    {
      if refinement.Some? {
        if target.typ != target.kind {
          return false;
        }
        target.typ := refinement.value;
      }
      ok := target.typ == "" || target.typ == target.kind || Refines(sc.reg, target.kind, target.typ);
    }

    /** A slot in either layout, told apart by its first member. */
    method ReadSlot(j: Json) returns (r: Result<Value>)
      requires Valid()
      ensures r == DecodeSlot(sc, FirstOf(listing), j)
      decreases j, 3
    {
      if j.Null? {
        return Ok(Nil);
      }
      if !j.Obj? {
        return Err;
      }
      var names := listing(j);
      if names == [] {
        assert j.members == map[] by {
          assert forall n :: n in j.members <==> n in names;
        }
        return Err;
      }
      var key := names[0];
      assert key in j.members;
      if !Tagged(key) {
        var legacy := ReadLegacySlot(j, names);
        r := ReadByType(j, legacy);
        return;
      }
      var kind := key[1..];
      if kind !in sc.fields {
        return Err;
      }
      var target := ReadStatement(kind, j.members[key], j.members[key]);
      OneMember(names, j.members);
      if target.Err? || |names| != 1 {
        return Err;
      }
      r := CheckSlotType(sc, target.value);
    }

    /** Puts an inline statement together again, member by member. */
    method ReadLegacySlot(j: Json, names: seq<string>) returns (members: map<string, Json>)
      requires j.Obj? && forall n :: n in names <==> n in j.members
      ensures members == j.members
    {
      members := map[];
      for i := 0 to |names|
        invariant forall n :: n in members <==> n in names[..i]
        invariant forall n :: n in members ==> n in j.members && members[n] == j.members[n]
      {
        assert names[i] in j.members;
        members := members[names[i] := j.members[names[i]]];
      }
      assert names[..|names|] == names;
    }

    /** The type that the discriminator names; a refinement first takes the discriminator's place. */
    method ReadByType(ghost whole: Json, members: map<string, Json>) returns (r: Result<Value>)
      requires Valid() && whole == Obj(members)
      ensures r == UnmarshalByType(sc, FirstOf(listing), whole)
      decreases whole, 2
    {
      if TYPE_FIELD !in members {
        return Err;
      }
      var kind := ReadText(members, TYPE_FIELD);
      if kind.Err? || kind.value !in sc.fields {
        return Err;
      }
      var fields := members;
      if REFINEMENT_FIELD in fields {
        var refinement := ReadText(fields, REFINEMENT_FIELD);
        if refinement.Err? || !Refines(sc.reg, kind.value, refinement.value) {
          return Err;
        }
        MovedDecodes(sc, FirstOf(listing), kind.value, whole);
        fields := fields[TYPE_FIELD := fields[REFINEMENT_FIELD]];
        fields := fields - {REFINEMENT_FIELD};
      } else {
        PlainDecodes(sc, FirstOf(listing), kind.value, whole);
      }
      var target := ReadStatement(kind.value, whole, Obj(fields));
      r := if target.Ok? then Ok(Slot(target.value)) else Err;
    }
  }

  // ---------------------------------------------------------------- writing

  /** What was written of the fields is all that they encode to. */
  ghost predicate AllWritten(sc: Schema, layout: Layout, fields: Fields, members: map<string, Json>) {
    && members.Keys == fields.at.Keys
    && forall n :: n in members ==> EncodeValue(sc, layout, fields.at[n]) == Ok(members[n])
  }

  lemma FieldsWritten(sc: Schema, layout: Layout, fields: Fields, members: map<string, Json>)
    requires AllWritten(sc, layout, fields, members)
    ensures EncodeFields(sc, layout, fields) == Ok(members)
  {
    hide EncodeValue;
    var written := map n | n in fields.at :: EncodeValue(sc, layout, fields.at[n]).value;
    assert written == members;
  }

  lemma FieldFails(sc: Schema, layout: Layout, fields: Fields, n: string)
    requires n in fields.at && EncodeValue(sc, layout, fields.at[n]).Err?
    ensures EncodeFields(sc, layout, fields).Err?
  {
    hide EncodeValue;
  }

  lemma ItemsWritten(sc: Schema, layout: Layout, v: Value, items: seq<Json>)
    requires v.List? && |items| == |v.items|
    requires forall i :: 0 <= i < |items| ==> EncodeValue(sc, layout, v.items[i]) == Ok(items[i])
    ensures EncodeValue(sc, layout, v) == Ok(Arr(items))
  {
    var written := seq(|v.items|, i requires 0 <= i < |v.items| => EncodeValue(sc, layout, v.items[i]).value);
    assert written == items;
  }

  class Encoder {
    const sc: Schema
    const layout: Layout

    constructor (sc: Schema, layout: Layout)
      ensures this.sc == sc && this.layout == layout
    {
      this.sc, this.layout := sc, layout;
    }

    method WriteValue(v: Value) returns (r: Result<Json>)
      ensures r == EncodeValue(sc, layout, v)
      decreases v, 3
    {
      match v
      case Plain(json) => r := Ok(json);
      case Concrete(s) =>
        var members := WriteStatement(s, s.typ);
        r := AsObject(members);
      case Slot(s) =>
        if layout.TaggedLayout? {
          r := WriteSlot(s);
        } else {
          var members := WriteInline(s);
          r := AsObject(members);
        }
      case Nil => r := Err;
      case List(items) => r := WriteItems(v);
      case Record(fields) =>
        var members := WriteFields(fields);
        r := AsObject(members);
    }

    /** Writes the items one by one, up to the first that cannot be written. */
    method WriteItems(v: Value) returns (r: Result<Json>)
      requires v.List?
      ensures r == EncodeValue(sc, layout, v)
      decreases v, 2
    {
      var items := [];
      for i := 0 to |v.items|
        invariant |items| == i && forall k :: 0 <= k < i ==> EncodeValue(sc, layout, v.items[k]) == Ok(items[k])
      {
        var item := WriteValue(v.items[i]);
        if item.Err? {
          return Err;
        }
        items := items + [item.value];
      }
      ItemsWritten(sc, layout, v, items);
      r := Ok(Arr(items));
    }

    method WriteFields(fields: Fields) returns (r: Result<map<string, Json>>)
      ensures r == EncodeFields(sc, layout, fields)
      decreases fields, 0
    {
      hide EncodeFields, EncodeValue;
      var members, left := map[], fields.at.Keys;
      while left != {}
        invariant left <= fields.at.Keys && members.Keys == fields.at.Keys - left
        invariant forall n :: n in members ==> EncodeValue(sc, layout, fields.at[n]) == Ok(members[n])
        decreases |left|
      {
        var name :| name in left;
        var value := WriteValue(fields.at[name]);
        if value.Err? {
          FieldFails(sc, layout, fields, name);
          return Err;
        }
        members := members[name := value.value];
        left := left - {name};
      }
      FieldsWritten(sc, layout, fields, members);
      r := Ok(members);
    }

    /** Stamps a block's kind over the type it carries, which becomes a refinement where it is another. */
    method StampBlock(kind: Kind, carried: Kind) returns (ok: bool, typ: Kind, refinement: Kind)
      ensures ok <==> carried == "" || carried == kind || Refines(sc.reg, kind, carried)
      ensures ok ==> typ == kind && refinement == if carried == "" || carried == kind then "" else carried
    {
      typ, refinement := kind, "";
      if carried == "" || carried == kind {
        return true, typ, "";
      }
      if !Refines(sc.reg, kind, carried) {
        return false, typ, "";
      }
      return true, typ, carried;
    }

    /** Writes a copy of a statement that carries the given type. */
    method WriteStatement(s: Stmt, typ: Kind) returns (r: Result<map<string, Json>>)
      ensures r == EncodeMembers(sc, layout, s, typ)
      decreases s, 0
    {
      var members := WriteFields(s.fields);
      if members.Err? {
        return Err;
      }
      if s.kind in sc.blocks {
        var ok, shadow, refinement := StampBlock(s.kind, typ);
        if !ok {
          return Err;
        }
        var stamped := members.value[TYPE_FIELD := Text(shadow)];
        r := Ok(if refinement == "" then stamped else stamped[REFINEMENT_FIELD := Text(refinement)]);
      } else {
        r := Ok(if typ == "" then members.value else members.value[TYPE_FIELD := Text(typ)]);
      }
    }

    /** Writes a statement under its kind, its copy stamped with the kind when it carries no type. */
    method WriteSlot(s: Stmt) returns (r: Result<Json>)
      requires layout.TaggedLayout?
      ensures r == WriteStatementSlot(sc, s)
      decreases s, 1
    {
      if s.kind !in sc.reg.kinds {
        return Err;
      }
      var typ := s.typ;
      if typ == "" {
        typ := s.kind;
      } else if typ != s.kind && !Refines(sc.reg, s.kind, typ) {
        return Err;
      }
      var members := WriteStatement(s, typ);
      r := if members.Ok? then Ok(Obj(map[SlotKey(s.kind) := Obj(members.value)])) else Err;
    }

    /** Writes a statement inline: its copy stamped with its kind, a refined type before its own members. */
    method WriteInline(s: Stmt) returns (r: Result<map<string, Json>>)
      ensures r == Marshal(sc, layout, s)
      decreases s, 1
    {
      if s.kind !in sc.reg.kinds {
        return Err;
      }
      var refinement := "";
      if s.typ != "" && s.typ != s.kind {
        if !Refines(sc.reg, s.kind, s.typ) {
          return Err;
        }
        refinement := s.typ;
      }
      var members := WriteStatement(s, s.kind);
      if members.Err? || refinement == "" {
        return members;
      }
      var stamped := Stamp(REFINEMENT_FIELD, refinement, members.value);
      r := Ok(stamped);
    }

    /** Writes a leading field, then the value's own members but for one that it replaces. */
    method Stamp(lead: string, text: string, own: map<string, Json>) returns (members: map<string, Json>)
      ensures members == own[lead := Text(text)]
    {
      members := map[lead := Text(text)];
      var left := own.Keys;
      while left != {}
        invariant left <= own.Keys
        invariant forall n :: n in members <==> n == lead || n in own.Keys - left
        invariant forall n :: n in members ==> members[n] == if n == lead then Text(text) else own[n]
        decreases |left|
      {
        var name :| name in left;
        if name != lead {
          members := members[name := own[name]];
        }
        left := left - {name};
      }
    }
  }
}
