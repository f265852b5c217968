/**
  What is built has the shape the schema asks for: a message of the class that is
  expected, its fields those of the class and of the right classes in turn, every
  oneof and optional wrapper in its place, for all values whatever.
*/
module MessageShapes {
  import opened Wrappers
  import opened Conversion
  import opened ConversionLaws
  import opened ObjectLaws

  predicate IsItemsTy(sch: Schema, ty: Ty) {
    ty.MessageTy? && IsItems(sch, ty.cls)
  }

  /** A map held as it is: its entries are scalars or untouched values. */
  predicate AllRaw(slots: seq<Slot>) {
    forall s :: s in slots ==> s.message.Atom? || s.message.Raw?
  }

  /** `m` may be in a place of class `ty`. Scalars may be anywhere but in an enum's place; a
      list or map stands for itself where the class is not one of a list or map. */
  predicate Conforms(sch: Schema, m: Message, ty: Ty)
    decreases m, 1
  {
    match m
    case Atom(_) => !ty.EnumTy?
    case EnumMember(cls, _) => ty == EnumTy(cls)
    case Repeated(ms) => !IsItemsTy(sch, ty) && AllConform(sch, ms, ty)
    case Mapping(slots) => !IsItemsTy(sch, ty) && !ty.EnumTy? && AllRaw(slots)
    case Raw(_) => false
    case Message(cls, slots) => ty == MessageTy(cls) && cls in sch.classes && SlotsConform(sch, cls, slots)
  }

  predicate AllConform(sch: Schema, ms: seq<Message>, ty: Ty)
    decreases ms, 0
  {
    ms == [] || (Conforms(sch, ms[0], ty) && AllConform(sch, ms[1..], ty))
  }

  /** Each slot is a field of the class and holds what that takes. A field `items` may repeat,
      or hold a map, with a message of the value class for each entry or as it is; and a
      string in `BasicType` may be an enum's member. */
  predicate SlotsConform(sch: Schema, cls: string, slots: seq<Slot>)
    decreases slots, 0
  {
    slots == [] ||
    (var f := FieldOf(sch, cls, slots[0].name);
     var m := slots[0].message;
     && f.Some?
     && (|| Conforms(sch, m, f.value.ty)
         || (slots[0].name == "items" && m.Repeated? && AllConform(sch, m.messages, f.value.ty))
         || (slots[0].name == "items" && m.Mapping? &&
             if f.value.ty.MapTy? && f.value.ty.values.Some? then EntriesConform(sch, m.slots, f.value.ty.values.value)
             else AllRaw(m.slots))
         || (cls == BASIC_TYPE && m.Raw? && m.value.Member?))
     && SlotsConform(sch, cls, slots[1..]))
  }

  predicate EntriesConform(sch: Schema, slots: seq<Slot>, cls: string)
    decreases slots, 0
  {
    slots == [] ||
    (slots[0].message.Message? && Conforms(sch, slots[0].message, MessageTy(cls))
     && EntriesConform(sch, slots[1..], cls))
  }

  /** Arms for dynamically typed scalars hold `BasicType`. */
  ghost predicate BasicArms(sch: Schema) {
    forall c, i :: c in sch.classes && 0 <= i < |sch.classes[c].fields| ==>
      sch.classes[c].fields[i].name == "basic_type" ==> sch.classes[c].fields[i].ty == MessageTy(BASIC_TYPE)
  }

  lemma BasicArmIs(sch: Schema, cls: string)
    requires BasicArms(sch) && FieldOf(sch, cls, "basic_type").Some?
    ensures FieldOf(sch, cls, "basic_type").value.ty == MessageTy(BASIC_TYPE)
  {
    var f := FieldOf(sch, cls, "basic_type").value;
    var i :| 0 <= i < |sch.classes[cls].fields| && sch.classes[cls].fields[i] == f;
  }

  // ---------------------------------------------------------------------------
  // Wrappers
  // ---------------------------------------------------------------------------

  lemma {:induction false} ArmIsField(fields: seq<Field>, cls: string)
    requires DirectArm(fields, cls).Some?
    ensures exists f :: f in fields && f.name == DirectArm(fields, cls).value && f.ty == MessageTy(cls)
  {
    var k := DirectArmIsArm(fields, cls);
    assert fields[k] in fields;
  }

  /** No two fields of a class have the same name. */
  ghost predicate NamesDistinct(sch: Schema) {
    forall c, i, j :: c in sch.classes && 0 <= i < j < |sch.classes[c].fields| ==>
      sch.classes[c].fields[i].name != sch.classes[c].fields[j].name
  }

  lemma {:induction false} FirstIsFound(fields: seq<Field>, k: nat)
    requires k < |fields| && forall i :: 0 <= i < k ==> fields[i].name != fields[k].name
    ensures FindField(fields, fields[k].name) == Some(fields[k])
  {
    if k > 0 {
      assert fields[0].name != fields[k].name;
      FirstIsFound(fields[1..], k - 1);
    }
  }

  lemma FieldIsFound(sch: Schema, cls: string, f: Field)
    requires NamesDistinct(sch) && cls in sch.classes && f in sch.classes[cls].fields
    ensures FieldOf(sch, cls, f.name) == Some(f)
  {
    var k :| 0 <= k < |sch.classes[cls].fields| && sch.classes[cls].fields[k] == f;
    FirstIsFound(sch.classes[cls].fields, k);
  }

  lemma OneSlot(sch: Schema, cls: string, f: Field, m: Message)
    requires NamesDistinct(sch) && cls in sch.classes && f in sch.classes[cls].fields && Conforms(sch, m, f.ty)
    ensures Conforms(sch, Message(cls, [Slot(f.name, m)]), MessageTy(cls))
  {
    FieldIsFound(sch, cls, f);
    hide Conforms, NamesDistinct, FieldOf;
    assert [Slot(f.name, m)][1..] == [];
    assert SlotsConform(sch, cls, [Slot(f.name, m)]);
    MessageConforms(sch, cls, [Slot(f.name, m)]);
  }

  lemma MessageConforms(sch: Schema, cls: string, slots: seq<Slot>)
    requires cls in sch.classes && SlotsConform(sch, cls, slots)
    ensures Conforms(sch, Message(cls, slots), MessageTy(cls))
  {
  }

  /** A oneof wrapper is a message of the class it is for, and so is each layer inside. */
  lemma {:induction false} WrapConforms(sch: Schema, m: Message, cls: string, expected: string)
    requires Acyclic(sch) && NamesDistinct(sch) && Conforms(sch, m, MessageTy(cls))
    ensures var w := TryWrapOneof(sch, Ok(m), cls, expected);
            w.Some? ==> w.value.Ok? && w.value.value.Message? && Conforms(sch, w.value.value, MessageTy(expected))
    decreases Height(sch, expected), 1, 0
  {
    hide Conforms, Acyclic, NamesDistinct;
    if expected in sch.classes && IsOneof(sch.classes[expected]) {
      var fields := sch.classes[expected].fields;
      if DirectArm(fields, cls).Some? {
        ArmIsField(fields, cls);
        var f :| f in fields && f.name == DirectArm(fields, cls).value && f.ty == MessageTy(cls);
        OneSlot(sch, expected, f, m);
      } else {
        ArmsConform(sch, m, cls, expected, fields);
      }
    }
  }

  lemma {:induction false} ArmsConform(sch: Schema, m: Message, cls: string, expected: string, fields: seq<Field>)
    requires Acyclic(sch) && NamesDistinct(sch) && Conforms(sch, m, MessageTy(cls))
    requires expected in sch.classes && IsOneof(sch.classes[expected])
    requires forall f :: f in fields ==> f in sch.classes[expected].fields
    ensures var w := TryArms(sch, Ok(m), cls, expected, fields);
            w.Some? ==> w.value.Ok? && w.value.value.Message? && Conforms(sch, w.value.value, MessageTy(expected))
    decreases Height(sch, expected), 0, |fields|
  {
    hide Conforms, NamesDistinct;
    if fields != [] {
      var f := fields[0];
      if f.ty.MessageTy? && f.ty.cls in sch.classes && TryWrapOneof(sch, Ok(m), cls, f.ty.cls).Some? {
        WrapConforms(sch, m, cls, f.ty.cls);
        OneSlot(sch, expected, f, TryWrapOneof(sch, Ok(m), cls, f.ty.cls).value.value);
      } else {
        ArmsConform(sch, m, cls, expected, fields[1..]);
      }
    }
  }

  lemma {:induction false} VisibleAreFields(fields: seq<Field>)
    ensures forall f :: f in Visible(fields) ==> f in fields
  {
    if fields != [] {
      VisibleAreFields(fields[1..]);
    }
  }

  lemma SingleConforms(sch: Schema, m: Message, cls: string, expected: string)
    requires NamesDistinct(sch) && Conforms(sch, m, MessageTy(cls))
    ensures var w := TryWrapSingle(sch, Ok(m), cls, expected);
            w.Some? ==> w.value.Ok? && w.value.value.Message? && Conforms(sch, w.value.value, MessageTy(expected))
  {
    hide Conforms, NamesDistinct;
    if TryWrapSingle(sch, Ok(m), cls, expected).Some? {
      VisibleAreFields(sch.classes[expected].fields);
      OneSlot(sch, expected, Visible(sch.classes[expected].fields)[0], m);
    }
  }

  // ---------------------------------------------------------------------------
  // Dynamically typed values
  // ---------------------------------------------------------------------------

  /** A scalar goes into the arm that is for its kind. */
  lemma ArmFitsScalar(s: Scalar)
    ensures var slots := BasicOf(s).slots;
            if s == Null then slots == []
            else
              && |slots| == 1 && slots[0].message == Atom(s)
              && (slots[0].name == "string" ==> s.Str?) && (slots[0].name == "int64" ==> s.Int?)
              && (slots[0].name == "float" ==> s.Float?) && (slots[0].name == "bool" ==> s.Bool?)
              && (slots[0].name == "bytes" ==> s.Bytes?)
  {
    assert |"string"| == 6 && |"int64"| == 5 && |"float"| == 5 && |"bool"| == 4 && |"bytes"| == 5;
    assert "int64"[0] != "float"[0] && "int64"[0] != "bytes"[0] && "float"[0] != "bytes"[0];
  }

  lemma BasicFieldsAreScalar()
    ensures forall f :: f in BASIC_CLASS.fields ==> f.ty == ScalarTy
  {
  }

  lemma ScalarSlot(sch: Schema, cls: string, name: string, s: Scalar)
    requires cls in sch.classes && FieldOf(sch, cls, name).Some? && FieldOf(sch, cls, name).value.ty == ScalarTy
    ensures Conforms(sch, Message(cls, [Slot(name, Atom(s))]), MessageTy(cls))
  {
    hide FieldOf;
    var slots := [Slot(name, Atom(s))];
    assert Conforms(sch, Atom(s), ScalarTy);
    assert slots[1..] == [] && SlotsConform(sch, cls, slots);
  }

  lemma ScalarIsArm(s: Scalar)
    requires s != Null
    ensures var slots := BasicOf(s).slots;
            && BasicOf(s) == Message(BASIC_TYPE, [Slot(slots[0].name, Atom(s))])
            && var f := FindField(BASIC_CLASS.fields, slots[0].name); f.Some? && f.value.ty == ScalarTy
  {
    BasicArm(s);
    BasicFieldsAreScalar();
    hide FindField;
  }

  lemma BasicConforms(sch: Schema, s: Scalar)
    requires Acyclic(sch)
    ensures Conforms(sch, BasicOf(s), MessageTy(BASIC_TYPE))
  {
    assert BASIC_TYPE in sch.classes && sch.classes[BASIC_TYPE] == BASIC_CLASS;
    hide Acyclic, FindField;
    if s == Null {
      MessageConforms(sch, BASIC_TYPE, []);
    } else {
      ScalarIsArm(s);
      hide BasicOf, Conforms;
      ScalarSlot(sch, BASIC_TYPE, BasicOf(s).slots[0].name, s);
    }
  }

  lemma MemberConforms(sch: Schema, v: Value)
    requires Acyclic(sch) && v.Member?
    ensures Conforms(sch, BasicMember(v), MessageTy(BASIC_TYPE))
  {
    var slots := BasicMember(v).slots;
    assert FindField(BASIC_CLASS.fields, "string") == Some(BASIC_CLASS.fields[0]);
    assert slots[1..] == [];
  }

  lemma ArmConforms(sch: Schema, basic: Message, ty: Ty)
    requires BasicArms(sch) && Conforms(sch, basic, MessageTy(BASIC_TYPE)) && basic.Message?
    ensures var r := InBasicArm(sch, basic, ty); r.Ok? ==> r.value.Message? && Conforms(sch, r.value, ty)
  {
    hide Conforms;
    if ty != MessageTy(BASIC_TYPE) && ty.MessageTy? && FieldOf(sch, ty.cls, "basic_type").Some? {
      BasicArmIs(sch, ty.cls);
      var slots := [Slot("basic_type", basic)];
      assert slots[1..] == [] && SlotsConform(sch, ty.cls, slots);
      MessageConforms(sch, ty.cls, slots);
    }
  }

  lemma {:induction false} ConvertedConforms(sch: Schema, v: Value, ty: Ty)
    requires Acyclic(sch) && NamesDistinct(sch) && BasicArms(sch)
    ensures var r := ConvertBasic(sch, v, ty); r.Ok? ==> Conforms(sch, r.value, ty) && r.value.Message?
    decreases v, 3
  {
    match v
    case Plain(s) =>
      BasicConforms(sch, s);
      ArmConforms(sch, BasicOf(s), ty);
    case Member(_, _) =>
      MemberConforms(sch, v);
      ArmConforms(sch, BasicMember(v), ty);
    case List(items) => ConvertedListConforms(sch, items, ty);
    case Tuple(items) => ConvertedListConforms(sch, items, ty);
    case Object(_, _) => BuiltConforms(sch, v, Some(ty));
    case _ =>
  }

  lemma {:induction false} ConvertedListConforms(sch: Schema, items: seq<Value>, ty: Ty)
    requires Acyclic(sch) && NamesDistinct(sch) && BasicArms(sch)
    ensures var r := ConvertSequence(sch, items, ty); r.Ok? ==> Conforms(sch, r.value, ty) && r.value.Message?
    decreases items, 1
  {
    hide Conforms;
    var r := ConvertSequence(sch, items, ty);
    if r.Ok? {
      var l := FieldOf(sch, ty.cls, "list").value.ty.cls;
      var element := FieldOf(sch, l, "items").value.ty;
      AllConvertedConform(sch, items, element);
      var ms := ConvertAll(sch, items, element).value;
      ItemsConform(sch, l, ms, element);
      var slots := [Slot("list", Message(l, [Slot("items", Repeated(ms))]))];
      assert slots[1..] == [] && SlotsConform(sch, ty.cls, slots);
      MessageConforms(sch, ty.cls, slots);
    }
  }

  lemma {:induction false} AllConvertedConform(sch: Schema, items: seq<Value>, ty: Ty)
    requires Acyclic(sch) && NamesDistinct(sch) && BasicArms(sch)
    ensures var r := ConvertAll(sch, items, ty); r.Ok? ==> AllConform(sch, r.value, ty)
    decreases items, 0
  {
    hide Conforms, ConvertBasic;
    if items != [] {
      ConvertedConforms(sch, items[0], ty);
      AllConvertedConform(sch, items[1..], ty);
      var r := ConvertAll(sch, items, ty);
      if r.Ok? {
        assert r.value[1..] == ConvertAll(sch, items[1..], ty).value;
      }
    }
  }

  lemma ItemsConform(sch: Schema, cls: string, ms: seq<Message>, element: Ty)
    requires FieldOf(sch, cls, "items").Some? && FieldOf(sch, cls, "items").value.ty == element
    requires AllConform(sch, ms, element)
    ensures Conforms(sch, Message(cls, [Slot("items", Repeated(ms))]), MessageTy(cls))
  {
    var slots := [Slot("items", Repeated(ms))];
    assert slots[1..] == [];
    assert SlotsConform(sch, cls, slots);
  }

  // ---------------------------------------------------------------------------
  // All values
  // ---------------------------------------------------------------------------

  lemma {:induction false} RawIsRaw(es: seq<Entry>)
    ensures AllRaw(AsIs(es))
  {
    if es != [] {
      RawIsRaw(es[1..]);
    }
  }

  lemma MapConforms(sch: Schema, cls: string, slots: seq<Slot>)
    requires IsItems(sch, cls)
    requires var ty := sch.classes[cls].fields[0].ty;
             if ty.MapTy? && ty.values.Some? then EntriesConform(sch, slots, ty.values.value) else AllRaw(slots)
    ensures Conforms(sch, Message(cls, [Slot("items", Mapping(slots))]), MessageTy(cls))
  {
    var one := [Slot("items", Mapping(slots))];
    assert one[1..] == [];
    assert FieldOf(sch, cls, "items") == Some(sch.classes[cls].fields[0]);
    assert SlotsConform(sch, cls, one);
  }

  /** What is built for a place conforms to it; an object on its own, to its class. */
  lemma {:induction false} BuiltConforms(sch: Schema, v: Value, place: Option<Ty>)
    requires Acyclic(sch) && NamesDistinct(sch) && BasicArms(sch)
    requires place.None? ==> v.Object?
    ensures var r := Build(sch, v, place);
            r.Ok? ==> && Conforms(sch, r.value, if place.Some? then place.value else MessageTy(v.cls))
                      && (v.Object? ==> r.value.Message?)
    decreases v, if place.Some? then 2 else 1
  {
    match v
    case List(items) => BuiltListConforms(sch, items, place.value);
    case Tuple(items) => BuiltListConforms(sch, items, place.value);
    case Dict(entries) => BuiltMapConforms(sch, entries, place.value);
    case Object(cls, fields) =>
      if place.Some? && place.value != MessageTy(cls) {
        BuiltConforms(sch, v, None);
        PlacedConforms(sch, v, place.value);
      } else if cls in sch.classes {
        BuiltFieldsConform(sch, fields, cls);
        var r := BuildFields(sch, fields, cls);
        if r.Ok? {
          MessageConforms(sch, cls, r.value);
        }
      }
    case _ =>
  }

  lemma PlacedConforms(sch: Schema, v: Value, ty: Ty)
    requires Acyclic(sch) && NamesDistinct(sch) && v.Object? && ty != MessageTy(v.cls)
    requires var inner := Build(sch, v, None);
             inner.Ok? ==> inner.value.Message? && Conforms(sch, inner.value, MessageTy(v.cls))
    ensures var r := Build(sch, v, Some(ty)); r.Ok? ==> r.value.Message? && Conforms(sch, r.value, ty)
  {
    hide Conforms, Acyclic, NamesDistinct, BuildFields;
    var inner := Build(sch, v, None);
    if ty.MessageTy? {
      if inner.Ok? {
        WrapConforms(sch, inner.value, v.cls, ty.cls);
        SingleConforms(sch, inner.value, v.cls, ty.cls);
      } else {
        WrapFails(sch, inner.error, v.cls, ty.cls);
      }
    }
  }

  lemma {:induction false} BuiltListConforms(sch: Schema, items: seq<Value>, ty: Ty)
    requires Acyclic(sch) && NamesDistinct(sch) && BasicArms(sch)
    ensures var r := BuildSequence(sch, items, Some(ty)); r.Ok? ==> Conforms(sch, r.value, ty)
    decreases items, 1
  {
    if IsItemsTy(sch, ty) {
      var element := sch.classes[ty.cls].fields[0].ty;
      AllBuiltConform(sch, items, element);
      var r := BuildAll(sch, items, Some(element));
      if r.Ok? {
        assert FieldOf(sch, ty.cls, "items") == Some(sch.classes[ty.cls].fields[0]);
        ItemsConform(sch, ty.cls, r.value, element);
      }
    } else {
      AllBuiltConform(sch, items, ty);
    }
  }

  lemma {:induction false} AllBuiltConform(sch: Schema, items: seq<Value>, ty: Ty)
    requires Acyclic(sch) && NamesDistinct(sch) && BasicArms(sch)
    ensures var r := BuildAll(sch, items, Some(ty)); r.Ok? ==> AllConform(sch, r.value, ty)
    decreases items, 0
  {
    hide Conforms, Build;
    if items != [] {
      BuiltConforms(sch, items[0], Some(ty));
      AllBuiltConform(sch, items[1..], ty);
      var r := BuildAll(sch, items, Some(ty));
      if r.Ok? {
        assert r.value[1..] == BuildAll(sch, items[1..], Some(ty)).value;
      }
    }
  }

  lemma {:induction false} BuiltMapConforms(sch: Schema, entries: seq<Entry>, ty: Ty)
    requires Acyclic(sch) && NamesDistinct(sch) && BasicArms(sch)
    ensures var r := Build(sch, Dict(entries), Some(ty)); r.Ok? ==> Conforms(sch, r.value, ty)
    decreases entries, 1
  {
    RawIsRaw(entries);
    if IsItemsTy(sch, ty) {
      var values := sch.classes[ty.cls].fields[0].ty;
      if values.MapTy? && values.values.Some? {
        EntriesBuiltConform(sch, entries, values.values.value);
        var r := BuildMap(sch, entries, values.values.value);
        if r.Ok? {
          MapConforms(sch, ty.cls, r.value);
        }
      } else {
        MapConforms(sch, ty.cls, AsIs(entries));
      }
    }
  }

  lemma {:induction false} EntriesBuiltConform(sch: Schema, entries: seq<Entry>, cls: string)
    requires Acyclic(sch) && NamesDistinct(sch) && BasicArms(sch)
    ensures var r := BuildMap(sch, entries, cls); r.Ok? ==> EntriesConform(sch, r.value, cls)
    decreases entries, 0
  {
    hide Conforms, Build, ConvertBasic;
    if entries != [] {
      var v := entries[0].value;
      if v.Object? {
        BuiltConforms(sch, v, Some(MessageTy(cls)));
      } else {
        ConvertedConforms(sch, v, MessageTy(cls));
      }
      EntriesBuiltConform(sch, entries[1..], cls);
      var r := BuildMap(sch, entries, cls);
      if r.Ok? {
        assert r.value[1..] == BuildMap(sch, entries[1..], cls).value;
      }
    }
  }

  lemma {:induction false} BuiltFieldsConform(sch: Schema, fields: seq<Entry>, cls: string)
    requires Acyclic(sch) && NamesDistinct(sch) && BasicArms(sch)
    ensures var r := BuildFields(sch, fields, cls); r.Ok? ==> SlotsConform(sch, cls, r.value)
    decreases fields, 0
  {
    hide Conforms, Build;
    if fields != [] {
      BuiltFieldsConform(sch, fields[1..], cls);
      var f := FieldOf(sch, cls, sch.snake(fields[0].name));
      if f.Some? {
        BuiltConforms(sch, fields[0].value, Some(f.value.ty));
      }
      var r := BuildFields(sch, fields, cls);
      if r.Ok? {
        assert r.value[1..] == BuildFields(sch, fields[1..], cls).value;
      }
    }
  }
}
