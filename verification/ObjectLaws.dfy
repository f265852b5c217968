/**
  The round trip of whole values. Which values can be sent at all, and which of
  those come back as they were, is decided exactly, for every value of any depth in
  every place of the schema that may take it.
*/
module ObjectLaws {
  import opened Wrappers
  import opened Conversion
  import opened ConversionLaws

  // ---------------------------------------------------------------------------
  // Typed values
  // ---------------------------------------------------------------------------

  /** A list or map wrapper: nothing but `items`. */
  ghost predicate ItemsClass(sch: Schema, cls: string) {
    IsItems(sch, cls) && cls != BASIC_TYPE && Groups(sch.classes[cls]) == {} && !EndsWith(cls, "SetType")
  }

  /** The message class of an application class, with distinct field names and no oneof. */
  ghost predicate ObjectClass(sch: Schema, cls: string) {
    && cls in sch.classes && cls in sch.attributes && cls != BASIC_TYPE
    && Groups(sch.classes[cls]) == {} && !IsItems(sch, cls)
    && Distinct(Visible(sch.classes[cls].fields))
  }

  ghost predicate Distinct(fields: seq<Field>) {
    forall i, j :: 0 <= i < j < |fields| ==> fields[i].name != fields[j].name
  }

  /** A place of class `ty` takes an object of class `cls`: as it is, through oneof
      wrappers, or as the sole content of an optional's wrapper. */
  ghost predicate Takes(sch: Schema, ty: Ty, cls: string) {
    ty.MessageTy? &&
    (|| ty.cls == cls
     || Reachable(sch, ty.cls, cls)
     || (ItemsClass(sch, ty.cls) && sch.classes[ty.cls].fields[0].ty == MessageTy(cls)))
  }

  /** An attribute comes back as it was if it keeps its name on the wire and is not turned
      into a moment. An empty one has to be allowed to be empty, or be so by default. */
  predicate Kept(sch: Schema, e: Entry, a: Attribute, f: Field) {
    if e.value == Plain(Null) then
      (f.nullable && sch.snake(e.name) == e.name) || a.default == Some(Plain(Null))
    else sch.snake(e.name) == e.name && !EndsWith(e.name, "_timestamp")
  }

  predicate AllKept(sch: Schema, fields: seq<Entry>, attributes: seq<Attribute>, defs: seq<Field>) {
    && |fields| == |attributes| == |defs|
    && forall i :: 0 <= i < |fields| ==> Kept(sch, fields[i], attributes[i], defs[i])
  }

  /** The message class lacks a field for some attribute, or there is none. */
  predicate Lacking(sch: Schema, cls: string, fields: seq<Entry>) {
    cls !in sch.classes || exists e :: e in fields && FieldOf(sch, cls, sch.snake(e.name)).None?
  }

  /** What is in a map held as it is comes back if it is made of scalars, enum members,
      lists and maps, and no entry of a map is empty. */
  predicate RawReturns(v: Value)
    decreases v, 1
  {
    match v
    case Plain(_) => true
    case Member(_, _) => true
    case List(items) => AllRawReturn(items)
    case Dict(entries) => RawEntries(entries)
    case _ => false
  }

  predicate AllRawReturn(vs: seq<Value>)
    decreases vs, 0
  {
    vs == [] || (RawReturns(vs[0]) && AllRawReturn(vs[1..]))
  }

  predicate RawEntries(es: seq<Entry>)
    decreases es, 0
  {
    es == [] || (es[0].value != Plain(Null) && RawReturns(es[0].value) && RawEntries(es[1..]))
  }

  /** A map that is not held as it is: the class its values are converted to. */
  function MapClass(sch: Schema, ty: Ty): Option<string> {
    if ty.MessageTy? && IsItems(sch, ty.cls) && sch.classes[ty.cls].fields[0].ty.MapTy?
    then sch.classes[ty.cls].fields[0].ty.values else None
  }

  /** The class of a list's elements. */
  function ElementTy(sch: Schema, ty: Ty): Ty {
    if ty.MessageTy? && IsItems(sch, ty.cls) then sch.classes[ty.cls].fields[0].ty else ty
  }

  /** What has been sent comes back: inside `v`, at any depth, every object has all its
      attributes kept, every enum member is in an enum's place and not taken for an empty
      one, and every map held as it is has nothing in it that is not rebuilt. */
  predicate Returnable(sch: Schema, v: Value, ty: Ty)
    decreases v, 1
  {
    match v
    case Plain(_) => true
    case Member(_, name) => ty.EnumTy? && !EndsWith(name, "UNSPECIFIED")
    case List(items) => AllReturnable(sch, items, ElementTy(sch, ty))
    case Tuple(items) => AllReturnable(sch, items, ElementTy(sch, ty))
    case Dict(entries) =>
      var values := MapClass(sch, ty);
      if values.Some? then ReturnableMap(sch, entries, values.value) else RawEntries(entries)
    case Object(cls, fields) =>
      && cls in sch.classes && cls in sch.attributes
      && AllKept(sch, fields, sch.attributes[cls], Visible(sch.classes[cls].fields))
      && ReturnableFields(sch, fields, cls)
    case _ => false
  }

  predicate AllReturnable(sch: Schema, vs: seq<Value>, ty: Ty)
    decreases vs, 0
  {
    vs == [] || (Returnable(sch, vs[0], ty) && AllReturnable(sch, vs[1..], ty))
  }

  predicate ReturnableMap(sch: Schema, es: seq<Entry>, cls: string)
    decreases es, 0
  {
    es == [] ||
    ((es[0].value.Object? ==> Returnable(sch, es[0].value, MessageTy(cls))) && ReturnableMap(sch, es[1..], cls))
  }

  predicate ReturnableFields(sch: Schema, es: seq<Entry>, cls: string)
    decreases es, 0
  {
    es == [] ||
    (var f := FieldOf(sch, cls, sch.snake(es[0].name));
     f.Some? && Returnable(sch, es[0].value, f.value.ty) && ReturnableFields(sch, es[1..], cls))
  }

  // --- what arrives ---

  /** A value in a map held as it is, without the empty entries of the maps in it. */
  function WithoutEmpty(v: Value): Value
    decreases v, 1
  {
    match v
    case List(items) => List(AllWithoutEmpty(items))
    case Dict(entries) => Dict(NonEmpty(entries))
    case _ => v
  }

  function AllWithoutEmpty(vs: seq<Value>): seq<Value>
    decreases vs, 0
  {
    if vs == [] then [] else [WithoutEmpty(vs[0])] + AllWithoutEmpty(vs[1..])
  }

  function NonEmpty(es: seq<Entry>): seq<Entry>
    decreases es, 0
  {
    if es == [] then []
    else
      (if es[0].value == Plain(Null) then [] else [Entry(es[0].name, WithoutEmpty(es[0].value))]) + NonEmpty(es[1..])
  }

  /** It is rebuilt if it is made of scalars, enum members, lists and maps. */
  predicate Known(v: Value)
    decreases v, 1
  {
    match v
    case Plain(_) => true
    case Member(_, _) => true
    case List(items) => AllKnown(items)
    case Dict(entries) => EntriesKnown(entries)
    case _ => false
  }

  predicate AllKnown(vs: seq<Value>)
    decreases vs, 0
  {
    vs == [] || (Known(vs[0]) && AllKnown(vs[1..]))
  }

  predicate EntriesKnown(es: seq<Entry>)
    decreases es, 0
  {
    es == [] || (Known(es[0].value) && EntriesKnown(es[1..]))
  }

  /** What a value that has been sent comes back as, if it comes back at all: told of values
      alone, without the messages in between. */
  function Arrival(sch: Schema, v: Value, ty: Ty): Option<Value>
    decreases v, 1
  {
    match v
    case Plain(_) => Some(v)
    case Member(cls, name) =>
      if !ty.EnumTy? then Some(Plain(sch.memberValue(cls, name)))
      else Some(if EndsWith(name, "UNSPECIFIED") then Plain(Null) else v)
    case List(items) => ListOf(AllArrive(sch, items, ElementTy(sch, ty)))
    case Tuple(items) => ListOf(AllArrive(sch, items, ElementTy(sch, ty)))
    case Dict(entries) =>
      var values := MapClass(sch, ty);
      if values.Some? then DictOf(MapArrives(sch, entries, values.value))
      else if EntriesKnown(entries) then Some(Dict(NonEmpty(entries)))
      else None
    case Object(cls, fields) =>
      if cls in sch.classes && cls in sch.attributes
      then ObjectOf(cls, FieldsArrive(sch, fields, sch.attributes[cls], Visible(sch.classes[cls].fields)))
      else None
    case _ => None
  }

  function ListOf(vs: Option<seq<Value>>): Option<Value> {
    if vs.Some? then Some(List(vs.value)) else None
  }

  function DictOf(es: Option<seq<Entry>>): Option<Value> {
    if es.Some? then Some(Dict(es.value)) else None
  }

  function ObjectOf(cls: string, es: Option<seq<Entry>>): Option<Value> {
    if es.Some? then Some(Object(cls, es.value)) else None
  }

  function AllArrive(sch: Schema, vs: seq<Value>, ty: Ty): Option<seq<Value>>
    decreases vs, 0
  {
    if vs == [] then Some([])
    else
      var first, rest := Arrival(sch, vs[0], ty), AllArrive(sch, vs[1..], ty);
      if first.Some? && rest.Some? then Some([first.value] + rest.value) else None
  }

  function MapArrives(sch: Schema, es: seq<Entry>, cls: string): Option<seq<Entry>>
    decreases es, 0
  {
    if es == [] then Some([])
    else
      var v := es[0].value;
      var first := if v.Object? then Arrival(sch, v, MessageTy(cls)) else Some(Normal(v));
      var rest := MapArrives(sch, es[1..], cls);
      if first.Some? && rest.Some? then Some([Entry(es[0].name, first.value)] + rest.value) else None
  }

  /** A number that is held in an attribute named like a time stamp. */
  function Seconds(sch: Schema, v: Value, ty: Ty): Option<Scalar> {
    var s := if v.Plain? then Some(v.scalar)
             else if v.Member? && !ty.EnumTy? then Some(sch.memberValue(v.cls, v.name)) else None;
    if s.Some? && IsNumber(s.value) then s else None
  }

  /** What the constructor is given for an attribute that is not empty. */
  function FieldArrival(sch: Schema, v: Value, f: Field): Option<Value>
    decreases v, 2
  {
    if EndsWith(f.name, "_timestamp") then
      var seconds := Seconds(sch, v, f.ty);
      if seconds.Some? then Some(Moment(seconds.value)) else None
    else Arrival(sch, v, f.ty)
  }

  /** What an attribute comes back as. An empty one that may not be so, or whose name the
      wire alters, takes its default; any other with such a name fails the object. */
  function AttributeArrives(sch: Schema, e: Entry, a: Attribute, f: Field): Option<Value>
    decreases e, 0
  {
    if e.value == Plain(Null) then
      if f.nullable && sch.snake(e.name) == e.name then Some(Plain(Null)) else a.default
    else if sch.snake(e.name) == e.name then FieldArrival(sch, e.value, f)
    else None
  }

  function FieldsArrive(sch: Schema, es: seq<Entry>, attributes: seq<Attribute>, defs: seq<Field>): Option<seq<Entry>>
    decreases es, 0
  {
    if es == [] || attributes == [] || defs == [] then
      if es == [] && attributes == [] && defs == [] then Some([]) else None
    else
      var first := AttributeArrives(sch, es[0], attributes[0], defs[0]);
      var rest := FieldsArrive(sch, es[1..], attributes[1..], defs[1..]);
      if first.Some? && rest.Some? then Some([Entry(es[0].name, first.value)] + rest.value) else None
  }

  /** `v` can be sent: inside it, at any depth, no enum's place is empty or otherwise taken,
      no set, date or the like occurs outside a map held as it is, no class lacks a field,
      and in a map of messages everything that is not an object converts. */
  predicate Sendable(sch: Schema, v: Value, ty: Ty)
    decreases v, 1
  {
    match v
    case List(items) => AllSendable(sch, items, ElementTy(sch, ty))
    case Tuple(items) => AllSendable(sch, items, ElementTy(sch, ty))
    case Member(_, _) => true
    case Plain(_) => !ty.EnumTy?
    case Dict(entries) =>
      !ty.EnumTy? && (var values := MapClass(sch, ty); values.Some? ==> SendableMap(sch, entries, values.value))
    case Object(cls, fields) => !ty.EnumTy? && !Lacking(sch, cls, fields) && SendableFields(sch, fields, cls)
    case _ => false
  }

  predicate AllSendable(sch: Schema, vs: seq<Value>, ty: Ty)
    decreases vs, 0
  {
    vs == [] || (Sendable(sch, vs[0], ty) && AllSendable(sch, vs[1..], ty))
  }

  predicate SendableMap(sch: Schema, es: seq<Entry>, cls: string)
    decreases es, 0
  {
    es == [] ||
    ((if es[0].value.Object? then Sendable(sch, es[0].value, MessageTy(cls))
      else Converts(sch, es[0].value, MessageTy(cls)))
     && SendableMap(sch, es[1..], cls))
  }

  predicate SendableFields(sch: Schema, es: seq<Entry>, cls: string)
    decreases es, 0
  {
    es == [] ||
    (var f := FieldOf(sch, cls, sch.snake(es[0].name));
     f.Some? && Sendable(sch, es[0].value, f.value.ty) && SendableFields(sch, es[1..], cls))
  }

  /** The wire's naming rule changes nothing the second time. */
  ghost predicate Stable(sch: Schema) {
    forall s :: sch.snake(sch.snake(s)) == sch.snake(s)
  }

  /** The attributes of the application class are those of the object. */
  ghost predicate Declares(sch: Schema, cls: string, fields: seq<Entry>) {
    && cls in sch.attributes && |sch.attributes[cls]| == |fields|
    && forall i :: 0 <= i < |fields| ==> sch.attributes[cls][i].name == fields[i].name
  }

  /** `v` may be in a place of class `ty`. Anything may be where an enum is expected, or in
      a map held as it is. Objects have to be where the schema takes them and to fit their
      message class, if that has all the fields; elsewhere in a map of messages the class
      has to be dynamic, or to take nothing but objects. */
  ghost predicate Typed(sch: Schema, dyn: set<string>, v: Value, ty: Ty)
    requires Dynamic(sch, dyn)
    decreases v, 2
  {
    match v
    case Member(cls, name) => if ty.EnumTy? then ty == EnumTy(cls) else sch.memberValue(cls, name) != Null
    case List(items) => TypedSequence(sch, dyn, items, ty)
    case Tuple(items) => TypedSequence(sch, dyn, items, ty)
    case Dict(entries) =>
      (ty.MessageTy? && IsItems(sch, ty.cls)) ==>
        && ItemsClass(sch, ty.cls)
        && var values := MapClass(sch, ty);
           values.Some? ==> TypedMap(sch, dyn, entries, values.value)
    case Object(cls, fields) =>
      || ty.EnumTy?
      || Lacking(sch, cls, fields)
      || (&& ObjectClass(sch, cls) && Takes(sch, ty, cls) && Declares(sch, cls, fields)
          && TypedFields(sch, dyn, cls, fields, Visible(sch.classes[cls].fields)))
    case _ => true
  }

  ghost predicate TypedSequence(sch: Schema, dyn: set<string>, items: seq<Value>, ty: Ty)
    requires Dynamic(sch, dyn)
    decreases items, 1
  {
    && ((ty.MessageTy? && IsItems(sch, ty.cls)) ==> ItemsClass(sch, ty.cls))
    && AllTyped(sch, dyn, items, ElementTy(sch, ty))
  }

  ghost predicate AllTyped(sch: Schema, dyn: set<string>, vs: seq<Value>, ty: Ty)
    requires Dynamic(sch, dyn)
    decreases vs, 0
  {
    vs == [] || (Typed(sch, dyn, vs[0], ty) && AllTyped(sch, dyn, vs[1..], ty))
  }

  ghost predicate TypedMap(sch: Schema, dyn: set<string>, entries: seq<Entry>, cls: string)
    requires Dynamic(sch, dyn)
    decreases entries, 0
  {
    entries == [] ||
    (var v := entries[0].value;
     && (if v.Object? then Typed(sch, dyn, v, MessageTy(cls))
         else Inert(sch, cls) || (cls in dyn && ObjectFree(v)))
     && TypedMap(sch, dyn, entries[1..], cls))
  }

  /** The attributes match the message class's fields one by one. */
  ghost predicate TypedFields(sch: Schema, dyn: set<string>, cls: string, fields: seq<Entry>, defs: seq<Field>)
    requires Dynamic(sch, dyn)
    decreases fields, 0
  {
    if fields == [] then defs == []
    else
      && defs != [] && sch.snake(fields[0].name) == defs[0].name
      && FieldOf(sch, cls, defs[0].name) == Some(defs[0])
      && Typed(sch, dyn, fields[0].value, defs[0].ty)
      && TypedFields(sch, dyn, cls, fields[1..], defs[1..])
  }

  // ---------------------------------------------------------------------------
  // The round trip
  // ---------------------------------------------------------------------------

  predicate Same<T(==)>(r: Result<T>, o: Option<T>) {
    (r.Ok? <==> o.Some?) && (r.Ok? ==> r.value == o.value)
  }

  /** `m` is what `v` was built to, for a place of class `ty`. It is rebuilt to what arrives
      of `v` there, and is a scalar just where a scalar or the value of an enum member is sent. */
  ghost predicate StandsFor(sch: Schema, m: Message, v: Value, ty: Ty) {
    && Same(Rebuild(sch, m), Arrival(sch, v, ty))
    && (m == Atom(Null) <==> v == Plain(Null))
    && (m.Atom? <==> v.Plain? || (v.Member? && !ty.EnumTy?))
    && (v.Plain? ==> m == Atom(v.scalar))
    && (v.Member? && !ty.EnumTy? ==> m == Atom(sch.memberValue(v.cls, v.name)))
  }

  ghost predicate Returns(sch: Schema, r: Result<Message>, v: Value, ty: Ty) {
    (r.Ok? <==> Sendable(sch, v, ty)) && (r.Ok? ==> StandsFor(sch, r.value, v, ty))
  }

  // --- maps held as they are ---

  lemma {:induction false} RawArrives(v: Value)
    ensures Same(RebuildRaw(v), if Known(v) then Some(WithoutEmpty(v)) else None)
    decreases v, 1
  {
    match v
    case List(items) => AllRawArrive(items);
    case Dict(entries) => RawEntriesArrive(entries);
    case _ =>
  }

  lemma {:induction false} AllRawArrive(vs: seq<Value>)
    ensures Same(RebuildRawAll(vs), if AllKnown(vs) then Some(AllWithoutEmpty(vs)) else None)
    decreases vs, 0
  {
    hide RebuildRaw, Known, WithoutEmpty;
    if vs != [] {
      RawArrives(vs[0]);
      AllRawArrive(vs[1..]);
    }
  }

  lemma {:induction false} RawEntriesArrive(es: seq<Entry>)
    ensures Same(RebuildRawEntries(es), if EntriesKnown(es) then Some(NonEmpty(es)) else None)
    decreases es, 0
  {
    hide RebuildRaw, WithoutEmpty;
    if es != [] {
      RawEntriesArrive(es[1..]);
      if es[0].value == Plain(Null) {
        assert Known(es[0].value);
        assert [] + NonEmpty(es[1..]) == NonEmpty(es[1..]);
      } else {
        RawArrives(es[0].value);
      }
    }
  }

  lemma {:induction false} AsIsIsRaw(sch: Schema, es: seq<Entry>)
    ensures RebuildMap(sch, AsIs(es)) == RebuildRawEntries(es)
  {
    if es != [] {
      AsIsIsRaw(sch, es[1..]);
      assert AsIs(es)[1..] == AsIs(es[1..]);
    }
  }

  lemma AsIsArrives(sch: Schema, es: seq<Entry>)
    ensures Same(Rebuild(sch, Mapping(AsIs(es))), if EntriesKnown(es) then Some(Dict(NonEmpty(es))) else None)
  {
    AsIsIsRaw(sch, es);
    RawEntriesArrive(es);
  }

  // --- wrappers ---

  lemma MapIsUndone(sch: Schema, cls: string, slots: seq<Slot>)
    requires ItemsClass(sch, cls)
    ensures Rebuild(sch, Message(cls, [Slot("items", Mapping(slots))])) == Rebuild(sch, Mapping(slots))
  {
  }

  lemma SoleItemIsUndone(sch: Schema, cls: string, m: Message)
    requires ItemsClass(sch, cls) && m.Message?
    ensures Rebuild(sch, Message(cls, [Slot("items", m)])) == Rebuild(sch, m)
  {
  }

  lemma NoWrapForItems(sch: Schema, inner: Result<Message>, cls: string, expected: string)
    requires Acyclic(sch) && ItemsClass(sch, expected)
    ensures TryWrapOneof(sch, inner, cls, expected).None?
    ensures sch.classes[expected].fields[0].ty == MessageTy(cls) ==>
              TryWrapSingle(sch, inner, cls, expected) == Some(WrapIn(expected, "items", inner))
  {
    var fields := sch.classes[expected].fields;
    assert fields[1..] == [];
    assert Visible(fields) == fields;
  }

  /** Wherever an object is taken, what is built there rebuilds like the bare object. */
  lemma PlaceIsUndone(sch: Schema, v: Value, ty: Ty)
    requires Acyclic(sch) && PureOneofs(sch)
    requires v.Object? && v.cls in sch.classes && Takes(sch, ty, v.cls)
    requires Build(sch, v, None).Ok? && Build(sch, v, None).value.Message?
    ensures var r := Build(sch, v, Some(ty));
            r.Ok? && r.value.Message? && Rebuild(sch, r.value) == Rebuild(sch, Build(sch, v, None).value)
  {
    hide Rebuild, Acyclic, PureOneofs, ItemsClass, IsItems;
    var inner := Build(sch, v, None);
    var m := inner.value;
    if ty != MessageTy(v.cls) {
      if Reachable(sch, ty.cls, v.cls) {
        WrapsExactlyWhenReachable(sch, inner, v.cls, ty.cls);
        var n := WrapPeels(sch, m, v.cls, ty.cls);
      } else {
        NoWrapForItems(sch, inner, v.cls, ty.cls);
        SoleItemIsUndone(sch, ty.cls, m);
      }
    }
  }

  lemma {:induction false} WrapFails(sch: Schema, e: Error, cls: string, expected: string)
    requires Acyclic(sch)
    ensures var w := TryWrapOneof(sch, Err(e), cls, expected); w.Some? ==> w.value == Err(e)
    decreases Height(sch, expected), 1, 0
  {
    hide Acyclic;
    if expected in sch.classes && IsOneof(sch.classes[expected]) {
      ArmsFail(sch, e, cls, expected, sch.classes[expected].fields);
    }
  }

  lemma {:induction false} ArmsFail(sch: Schema, e: Error, cls: string, expected: string, fields: seq<Field>)
    requires Acyclic(sch) && expected in sch.classes && IsOneof(sch.classes[expected])
    requires forall f :: f in fields ==> f in sch.classes[expected].fields
    ensures var w := TryArms(sch, Err(e), cls, expected, fields); w.Some? ==> w.value == Err(e)
    decreases Height(sch, expected), 0, |fields|
  {
    if fields != [] {
      var f := fields[0];
      if f.ty.MessageTy? && f.ty.cls in sch.classes {
        WrapFails(sch, e, cls, f.ty.cls);
      }
      ArmsFail(sch, e, cls, expected, fields[1..]);
    }
  }

  /** An object that cannot be built cannot be built for any place either. */
  lemma PlaceFails(sch: Schema, v: Value, ty: Ty)
    requires Acyclic(sch)
    requires v.Object? && Build(sch, v, None).Err?
    ensures Build(sch, v, Some(ty)).Err?
  {
    hide Acyclic;
    if v.cls in sch.classes && ty != MessageTy(v.cls) && ty.MessageTy? {
      WrapFails(sch, Build(sch, v, None).error, v.cls, ty.cls);
    }
  }

  // --- fields ---

  ghost predicate SlotsFor(sch: Schema, slots: seq<Slot>, fields: seq<Entry>, defs: seq<Field>) {
    && |slots| == |fields| == |defs|
    && forall i :: 0 <= i < |slots| ==>
         slots[i].name == defs[i].name && StandsFor(sch, slots[i].message, fields[i].value, defs[i].ty)
  }

  lemma {:induction false} SlotFound(slots: seq<Slot>, k: nat)
    requires k < |slots|
    requires forall i, j :: 0 <= i < j < |slots| ==> slots[i].name != slots[j].name
    ensures FindSlot(slots, slots[k].name) == Some(k)
  {
    if k > 0 {
      assert slots[0].name != slots[k].name;
      SlotFound(slots[1..], k - 1);
    }
  }

  /** What one attribute contributes to the rebuilt object's arguments. */
  ghost predicate Contributes(sch: Schema, cls: string, e: Entry, f: Field, out: seq<Entry>) {
    if e.value == Plain(Null) then
      out == if f.nullable && HasAttribute(sch, cls, f.name) then [Entry(sch.snake(f.name), Plain(Null))] else []
    else |out| == 1 && out[0].name == sch.snake(f.name) && FieldArrival(sch, e.value, f) == Some(out[0].value)
  }

  predicate Readable(sch: Schema, e: Entry, f: Field) {
    e.value == Plain(Null) || FieldArrival(sch, e.value, f).Some?
  }

  lemma OneRebuilt(sch: Schema, cls: string, slots: seq<Slot>, fields: seq<Entry>, defs: seq<Field>, k: nat)
    requires SlotsFor(sch, slots, fields, defs) && Distinct(defs) && k < |slots| && !IsMeta(defs[k].name)
    ensures var r := RebuildOne(sch, cls, defs[k], slots);
            && (r.Ok? ==> Contributes(sch, cls, fields[k], defs[k], r.value))
            && (r.Ok? <==> Readable(sch, fields[k], defs[k]))
  {
    hide Rebuild, Arrival;
    SlotFound(slots, k);
    assert StandsFor(sch, slots[k].message, fields[k].value, defs[k].ty);
  }

  /** The fields from number `k` on, as far as `fs` covers them. */
  ghost predicate Covers(fs: seq<Field>, defs: seq<Field>, k: nat) {
    k <= |defs| && Visible(fs) == defs[k..]
  }

  lemma CoversNext(fs: seq<Field>, defs: seq<Field>, k: nat)
    requires Covers(fs, defs, k) && fs != []
    ensures IsMeta(fs[0].name) ==> Covers(fs[1..], defs, k)
    ensures !IsMeta(fs[0].name) ==> k < |defs| && fs[0] == defs[k] && Covers(fs[1..], defs, k + 1)
  {
    if !IsMeta(fs[0].name) {
      assert defs[k..][0] == fs[0];
      assert defs[k..][1..] == defs[k + 1..];
    }
  }

  lemma SlotCounts(sch: Schema, slots: seq<Slot>, fields: seq<Entry>, defs: seq<Field>)
    requires SlotsFor(sch, slots, fields, defs)
    ensures |slots| == |fields| == |defs|
  {
  }

  lemma MetaIsSkipped(sch: Schema, cls: string, f: Field, slots: seq<Slot>)
    requires IsMeta(f.name)
    ensures RebuildOne(sch, cls, f, slots) == Ok([])
  {
  }

  /** The arguments for the attributes `fields`, in order. */
  ghost predicate Arguments(sch: Schema, cls: string, es: seq<Entry>, fields: seq<Entry>, defs: seq<Field>)
    decreases |fields|
  {
    if fields == [] then es == [] && defs == []
    else
      defs != [] &&
      exists n :: 0 <= n <= |es| && Contributes(sch, cls, fields[0], defs[0], es[..n])
        && Arguments(sch, cls, es[n..], fields[1..], defs[1..])
  }

  lemma ArgumentsCons(sch: Schema, cls: string, first: seq<Entry>, es: seq<Entry>, fields: seq<Entry>, defs: seq<Field>)
    requires fields != [] && defs != []
    requires Contributes(sch, cls, fields[0], defs[0], first) && Arguments(sch, cls, es, fields[1..], defs[1..])
    ensures Arguments(sch, cls, first + es, fields, defs)
  {
    var n := |first|;
    assert (first + es)[..n] == first && (first + es)[n..] == es;
  }

  predicate AllReadable(sch: Schema, fields: seq<Entry>, defs: seq<Field>, k: nat) {
    |fields| == |defs| && forall i :: k <= i < |fields| ==> Readable(sch, fields[i], defs[i])
  }

  lemma {:induction false} FieldsRebuilt(sch: Schema, cls: string, slots: seq<Slot>, fields: seq<Entry>,
                                         defs: seq<Field>, fs: seq<Field>, k: nat)
    requires SlotsFor(sch, slots, fields, defs) && Distinct(defs) && Covers(fs, defs, k)
    ensures k <= |fields| == |defs|
    ensures var r := RebuildFields(sch, cls, fs, slots);
            && (r.Ok? ==> Arguments(sch, cls, r.value, fields[k..], defs[k..]))
            && (r.Ok? <==> AllReadable(sch, fields, defs, k))
    decreases |fs|
  {
    hide RebuildOne, SlotsFor, Contributes, Readable;
    SlotCounts(sch, slots, fields, defs);
    if fs == [] {
      assert fields[k..] == [] && defs[k..] == [];
    } else {
      CoversNext(fs, defs, k);
      if IsMeta(fs[0].name) {
        MetaIsSkipped(sch, cls, fs[0], slots);
        FieldsRebuilt(sch, cls, slots, fields, defs, fs[1..], k);
        var r := RebuildFields(sch, cls, fs[1..], slots);
        var none: seq<Entry> := [];
        assert r.Ok? ==> none + r.value == r.value;
      } else {
        OneRebuilt(sch, cls, slots, fields, defs, k);
        FieldsRebuilt(sch, cls, slots, fields, defs, fs[1..], k + 1);
        assert fields[k..][1..] == fields[k + 1..] && defs[k..][1..] == defs[k + 1..];
        var first, rest := RebuildOne(sch, cls, fs[0], slots), RebuildFields(sch, cls, fs[1..], slots);
        if first.Ok? && rest.Ok? {
          ArgumentsCons(sch, cls, first.value, rest.value, fields[k..], defs[k..]);
        }
      }
    }
  }

  // --- the constructor ---

  /** The names on the wire are distinct and are those of the attributes. */
  ghost predicate Aligned(sch: Schema, fields: seq<Entry>, defs: seq<Field>) {
    && |fields| == |defs| && Distinct(defs) && Stable(sch)
    && forall i :: 0 <= i < |fields| ==> defs[i].name == sch.snake(fields[i].name)
  }

  lemma {:induction false} NothingElse(sch: Schema, cls: string, es: seq<Entry>, fields: seq<Entry>,
                                       defs: seq<Field>, name: string)
    requires Arguments(sch, cls, es, fields, defs) && Aligned(sch, fields, defs)
    requires forall i :: 0 <= i < |defs| ==> defs[i].name != name
    ensures FindEntry(es, name).None?
    decreases |fields|
  {
    if fields != [] {
      var n :| 0 <= n <= |es| && Contributes(sch, cls, fields[0], defs[0], es[..n])
        && Arguments(sch, cls, es[n..], fields[1..], defs[1..]);
      NothingElse(sch, cls, es[n..], fields[1..], defs[1..], name);
      assert sch.snake(defs[0].name) == defs[0].name;
      assert n <= 1;
      if n == 1 { assert es[..n][0] == es[0]; } else { assert es[n..] == es; }
    }
  }

  /** The argument an attribute that keeps its name is given. */
  lemma {:induction false} ArgumentFound(sch: Schema, cls: string, es: seq<Entry>, fields: seq<Entry>,
                                         defs: seq<Field>, k: nat)
    requires Arguments(sch, cls, es, fields, defs) && Aligned(sch, fields, defs) && k < |fields|
    ensures var given := FindEntry(es, defs[k].name);
            if fields[k].value == Plain(Null) then
              given == if defs[k].nullable && HasAttribute(sch, cls, defs[k].name) then Some(Plain(Null)) else None
            else given.Some? && given == FieldArrival(sch, fields[k].value, defs[k])
    decreases |fields|
  {
    hide FieldArrival;
    var n :| 0 <= n <= |es| && Contributes(sch, cls, fields[0], defs[0], es[..n])
      && Arguments(sch, cls, es[n..], fields[1..], defs[1..]);
    assert sch.snake(defs[0].name) == defs[0].name;
    assert n <= 1;
    if n == 1 { assert es[..n][0] == es[0]; } else { assert es[n..] == es; }
    if k == 0 {
      NothingElse(sch, cls, es[n..], fields[1..], defs[1..], defs[0].name);
    } else {
      ArgumentFound(sch, cls, es[n..], fields[1..], defs[1..], k - 1);
      assert defs[0].name != defs[k].name;
    }
  }

  lemma DeclaredWhenKept(sch: Schema, cls: string, fields: seq<Entry>, defs: seq<Field>, k: nat)
    requires Aligned(sch, fields, defs) && Declares(sch, cls, fields) && k < |fields|
    ensures HasAttribute(sch, cls, defs[k].name) <==> sch.snake(fields[k].name) == fields[k].name
    ensures sch.snake(fields[k].name) != fields[k].name ==>
              forall j :: 0 <= j < |defs| ==> defs[j].name != fields[k].name
  {
    var attributes := sch.attributes[cls];
    if sch.snake(fields[k].name) == fields[k].name {
      assert attributes[k].name == defs[k].name;
    } else {
      forall j | 0 <= j < |fields| ensures attributes[j].name != defs[k].name && defs[j].name != fields[k].name {
        assert sch.snake(defs[k].name) == defs[k].name && sch.snake(defs[j].name) == defs[j].name;
        assert j != k ==> defs[j].name != defs[k].name;
      }
    }
  }

  /** What the constructor is given for attribute `k`. */
  lemma Given(sch: Schema, cls: string, es: seq<Entry>, fields: seq<Entry>, defs: seq<Field>, k: nat)
    requires Arguments(sch, cls, es, fields, defs) && Aligned(sch, fields, defs) && Declares(sch, cls, fields)
    requires k < |fields|
    ensures var given := FindEntry(es, fields[k].name);
            if fields[k].value == Plain(Null) then
              given == if defs[k].nullable && sch.snake(fields[k].name) == fields[k].name then Some(Plain(Null))
                       else None
            else
              given == if sch.snake(fields[k].name) != fields[k].name then None
                       else FieldArrival(sch, fields[k].value, defs[k])
  {
    hide Arguments, FieldArrival;
    DeclaredWhenKept(sch, cls, fields, defs, k);
    if sch.snake(fields[k].name) == fields[k].name {
      ArgumentFound(sch, cls, es, fields, defs, k);
    } else {
      NothingElse(sch, cls, es, fields, defs, fields[k].name);
    }
  }

  lemma {:induction false} FoundIsThere(es: seq<Entry>, name: string)
    requires FindEntry(es, name).Some?
    ensures exists e :: e in es && e.name == name
  {
    if FindEntry(es[1..], name).Some? {
      FoundIsThere(es[1..], name);
      var e :| e in es[1..] && e.name == name;
      assert e in es;
    } else {
      assert es[0] in es;
    }
  }

  lemma ContributedName(sch: Schema, cls: string, e: Entry, f: Field, out: seq<Entry>, a: Entry)
    requires Contributes(sch, cls, e, f, out) && a in out
    ensures a.name == sch.snake(f.name)
    ensures e.value == Plain(Null) ==> HasAttribute(sch, cls, f.name)
  {
    hide HasAttribute;
  }

  lemma {:induction false} Origin(sch: Schema, cls: string, es: seq<Entry>, fields: seq<Entry>,
                                  defs: seq<Field>, e: Entry)
    returns (k: nat)
    requires Arguments(sch, cls, es, fields, defs) && Aligned(sch, fields, defs) && e in es
    ensures k < |fields| && k < |defs| && e.name == defs[k].name
    ensures fields[k].value == Plain(Null) ==> HasAttribute(sch, cls, defs[k].name)
    decreases |fields|
  {
    hide HasAttribute, Contributes;
    var n :| 0 <= n <= |es| && Contributes(sch, cls, fields[0], defs[0], es[..n])
      && Arguments(sch, cls, es[n..], fields[1..], defs[1..]);
    assert sch.snake(defs[0].name) == defs[0].name;
    assert es == es[..n] + es[n..];
    if e in es[..n] {
      ContributedName(sch, cls, fields[0], defs[0], es[..n], e);
      k := 0;
    } else {
      k := Origin(sch, cls, es[n..], fields[1..], defs[1..], e);
      k := k + 1;
    }
  }

  /** No argument is unexpected exactly if only empty attributes lose their names. */
  lemma UnexpectedArguments(sch: Schema, cls: string, es: seq<Entry>, fields: seq<Entry>, defs: seq<Field>)
    requires Arguments(sch, cls, es, fields, defs) && Aligned(sch, fields, defs) && Declares(sch, cls, fields)
    ensures (exists e :: e in es && !HasAttribute(sch, cls, e.name))
            <==> exists k :: 0 <= k < |fields| && fields[k].value != Plain(Null)
                             && sch.snake(fields[k].name) != fields[k].name
  {
    hide Arguments, HasAttribute;
    if e :| e in es && !HasAttribute(sch, cls, e.name) {
      var k := Origin(sch, cls, es, fields, defs, e);
      DeclaredWhenKept(sch, cls, fields, defs, k);
    }
    if k: nat :| k < |fields| && fields[k].value != Plain(Null) && sch.snake(fields[k].name) != fields[k].name {
      DeclaredWhenKept(sch, cls, fields, defs, k);
      ArgumentFound(sch, cls, es, fields, defs, k);
      FoundIsThere(es, defs[k].name);
    }
  }

  function ArgumentOr(es: seq<Entry>, a: Attribute): Option<Value> {
    var found := FindEntry(es, a.name);
    if found.Some? then found else a.default
  }

  lemma {:induction false} ConstructSpec(attributes: seq<Attribute>, es: seq<Entry>)
    ensures var r := Construct(attributes, es);
            && (r.Ok? <==> forall k :: 0 <= k < |attributes| ==> ArgumentOr(es, attributes[k]).Some?)
            && (r.Ok? ==> forall k :: 0 <= k < |attributes| ==>
                  r.value[k] == Entry(attributes[k].name, ArgumentOr(es, attributes[k]).value))
  {
    hide FindEntry;
    if attributes != [] {
      ConstructSpec(attributes[1..], es);
      var r := Construct(attributes, es);
      if forall k :: 0 <= k < |attributes| ==> ArgumentOr(es, attributes[k]).Some? {
        forall k | 0 <= k < |attributes| - 1 ensures ArgumentOr(es, attributes[1..][k]).Some? {
          assert attributes[1..][k] == attributes[k + 1];
        }
      }
      if r.Ok? {
        forall k | 0 <= k < |attributes|
          ensures ArgumentOr(es, attributes[k]).Some?
          ensures r.value[k] == Entry(attributes[k].name, ArgumentOr(es, attributes[k]).value)
        {
          if k > 0 { assert attributes[k] == attributes[1..][k - 1]; }
        }
      }
    }
  }

  lemma {:induction false} NormalAt(fields: seq<Entry>, i: nat)
    requires i < |fields|
    ensures NormalEntries(fields)[i] == Entry(fields[i].name, Normal(fields[i].value))
  {
    if i > 0 {
      NormalAt(fields[1..], i - 1);
    }
  }

  /** The constructor gives attribute `k` what arrives of it. */
  lemma AttributeReturns(sch: Schema, cls: string, es: seq<Entry>, fields: seq<Entry>, defs: seq<Field>, k: nat)
    requires Arguments(sch, cls, es, fields, defs) && Aligned(sch, fields, defs) && Declares(sch, cls, fields)
    requires k < |fields|
    requires sch.snake(fields[k].name) != fields[k].name ==> fields[k].value == Plain(Null)
    ensures ArgumentOr(es, sch.attributes[cls][k])
         == AttributeArrives(sch, fields[k], sch.attributes[cls][k], defs[k])
  {
    hide Arguments, FindEntry, FieldArrival;
    assert Readable(sch, fields[k], defs[k]) by {
      if fields[k].value != Plain(Null) { ArgumentFound(sch, cls, es, fields, defs, k); }
    }
    Given(sch, cls, es, fields, defs, k);
  }

  lemma {:induction false} TypedShape(sch: Schema, dyn: set<string>, cls: string, fields: seq<Entry>, defs: seq<Field>)
    requires Dynamic(sch, dyn) && TypedFields(sch, dyn, cls, fields, defs)
    ensures |fields| == |defs|
    ensures forall i :: 0 <= i < |fields| ==> defs[i].name == sch.snake(fields[i].name)
    decreases fields
  {
    hide Dynamic, Typed, FieldOf;
    if fields != [] {
      TypedShape(sch, dyn, cls, fields[1..], defs[1..]);
      forall i | 0 <= i < |fields| ensures defs[i].name == sch.snake(fields[i].name) {
        if i > 0 {
          assert fields[i] == fields[1..][i - 1] && defs[i] == defs[1..][i - 1];
        }
      }
    }
  }

  /** What arrives of all attributes, one by one. */
  lemma {:induction false} FieldsArriveAt(sch: Schema, es: seq<Entry>, attributes: seq<Attribute>, defs: seq<Field>)
    requires |es| == |attributes| == |defs|
    ensures var r := FieldsArrive(sch, es, attributes, defs);
            && (r.Some? <==> forall k :: 0 <= k < |es| ==> AttributeArrives(sch, es[k], attributes[k], defs[k]).Some?)
            && (r.Some? ==> |r.value| == |es| && forall k :: 0 <= k < |es| ==>
                  && AttributeArrives(sch, es[k], attributes[k], defs[k]).Some?
                  && r.value[k] == Entry(es[k].name, AttributeArrives(sch, es[k], attributes[k], defs[k]).value))
  {
    hide AttributeArrives;
    if es != [] {
      var es', as', ds := es[1..], attributes[1..], defs[1..];
      FieldsArriveAt(sch, es', as', ds);
      var r := FieldsArrive(sch, es, attributes, defs);
      if forall k :: 0 <= k < |es| ==> AttributeArrives(sch, es[k], attributes[k], defs[k]).Some? {
        forall k | 0 <= k < |es'| ensures AttributeArrives(sch, es'[k], as'[k], ds[k]).Some? {
          assert es'[k] == es[k + 1] && as'[k] == attributes[k + 1] && ds[k] == defs[k + 1];
        }
      }
      if r.Some? {
        forall k | 0 <= k < |es|
          ensures AttributeArrives(sch, es[k], attributes[k], defs[k]).Some?
          ensures r.value[k] == Entry(es[k].name, AttributeArrives(sch, es[k], attributes[k], defs[k]).value)
        {
          if k > 0 { assert es[k] == es'[k - 1] && attributes[k] == as'[k - 1] && defs[k] == ds[k - 1]; }
        }
      }
    }
  }

  /** The message of an object, its fields filled with what stands for the attributes,
      rebuilds to what arrives of the object. */
  lemma MessageReturns(sch: Schema, dyn: set<string>, cls: string, fields: seq<Entry>, slots: seq<Slot>)
    requires ObjectClass(sch, cls) && Stable(sch) && Dynamic(sch, dyn) && Declares(sch, cls, fields)
    requires TypedFields(sch, dyn, cls, fields, Visible(sch.classes[cls].fields))
    requires SlotsFor(sch, slots, fields, Visible(sch.classes[cls].fields))
    ensures Same(Rebuild(sch, Message(cls, slots)), Arrival(sch, Object(cls, fields), MessageTy(cls)))
  {
    hide Dynamic, TypedFields, SlotsFor, Arguments, RebuildFields, Construct, HasAttribute, FindEntry, Visible,
      AttributeArrives, FieldsArrive, Readable;
    var defs := Visible(sch.classes[cls].fields);
    var attributes := sch.attributes[cls];
    TypedShape(sch, dyn, cls, fields, defs);
    assert defs[0..] == defs && fields[0..] == fields;
    FieldsRebuilt(sch, cls, slots, fields, defs, sch.classes[cls].fields, 0);
    FieldsArriveAt(sch, fields, attributes, defs);
    var r := RebuildFields(sch, cls, sch.classes[cls].fields, slots);
    if r.Ok? {
      UnexpectedArguments(sch, cls, r.value, fields, defs);
      if exists e :: e in r.value && !HasAttribute(sch, cls, e.name) {
        var k: nat :| k < |fields| && fields[k].value != Plain(Null) && sch.snake(fields[k].name) != fields[k].name;
        RenamedFails(sch, fields[k], attributes[k], defs[k]);
      } else {
        ConstructReturns(sch, cls, r.value, fields, defs);
      }
    } else {
      var k :| 0 <= k < |fields| && !Readable(sch, fields[k], defs[k]);
      UnreadableFails(sch, fields[k], attributes[k], defs[k]);
    }
  }

  lemma RenamedFails(sch: Schema, e: Entry, a: Attribute, f: Field)
    requires e.value != Plain(Null) && sch.snake(e.name) != e.name
    ensures AttributeArrives(sch, e, a, f).None?
  {
  }

  lemma UnreadableFails(sch: Schema, e: Entry, a: Attribute, f: Field)
    requires !Readable(sch, e, f)
    ensures AttributeArrives(sch, e, a, f).None?
  {
  }

  lemma ConstructReturns(sch: Schema, cls: string, es: seq<Entry>, fields: seq<Entry>, defs: seq<Field>)
    requires Arguments(sch, cls, es, fields, defs) && Aligned(sch, fields, defs) && Declares(sch, cls, fields)
    requires forall k :: 0 <= k < |fields| && fields[k].value != Plain(Null) ==>
               sch.snake(fields[k].name) == fields[k].name
    ensures Same(Construct(sch.attributes[cls], es), FieldsArrive(sch, fields, sch.attributes[cls], defs))
  {
    assert |fields| == |defs|;
    hide Arguments, Construct, ArgumentOr, AttributeArrives, FieldsArrive, Aligned, HasAttribute;
    var attributes := sch.attributes[cls];
    ConstructSpec(attributes, es);
    FieldsArriveAt(sch, fields, attributes, defs);
    forall k | 0 <= k < |fields|
      ensures ArgumentOr(es, attributes[k]) == AttributeArrives(sch, fields[k], attributes[k], defs[k])
    {
      AttributeReturns(sch, cls, es, fields, defs, k);
    }
    var r, arrived := Construct(attributes, es), FieldsArrive(sch, fields, attributes, defs);
    if arrived.Some? {
      assert forall k :: 0 <= k < |attributes| ==> ArgumentOr(es, attributes[k]).Some?;
      assert r.Ok? && |r.value| == |attributes| == |arrived.value|;
      forall k | 0 <= k < |fields| ensures r.value[k] == arrived.value[k] {
        assert ArgumentOr(es, attributes[k]) == AttributeArrives(sch, fields[k], attributes[k], defs[k]);
        assert attributes[k].name == fields[k].name;
      }
      assert r.value == arrived.value;
    } else {
      var k :| 0 <= k < |fields| && AttributeArrives(sch, fields[k], attributes[k], defs[k]).None?;
      assert ArgumentOr(es, attributes[k]).None?;
    }
  }

  // --- everything together ---

  lemma LackingFails(sch: Schema, cls: string, fields: seq<Entry>)
    requires Acyclic(sch) && Lacking(sch, cls, fields)
    ensures Build(sch, Object(cls, fields), None).Err?
  {
    if cls in sch.classes {
      FieldIsMissing(sch, cls, fields);
    }
  }

  lemma {:induction false} FieldIsMissing(sch: Schema, cls: string, fields: seq<Entry>)
    requires Acyclic(sch)
    requires exists e :: e in fields && FieldOf(sch, cls, sch.snake(e.name)).None?
    ensures BuildFields(sch, fields, cls).Err?
  {
    hide FieldOf, Acyclic, Build;
    if FieldOf(sch, cls, sch.snake(fields[0].name)).Some? {
      var e :| e in fields && FieldOf(sch, cls, sch.snake(e.name)).None?;
      assert e in fields[1..];
      FieldIsMissing(sch, cls, fields[1..]);
    }
  }

  /** Main result. Every value that may be in a place, of any depth, is built for it if and
      only if it is sendable there, and is then rebuilt to what arrives of it, or to nothing
      if nothing does. Only `None` is sent as `None`, and a scalar as itself. */
  lemma {:induction false} RoundTrip(sch: Schema, dyn: set<string>, v: Value, ty: Ty)
    requires Acyclic(sch) && PureOneofs(sch) && Stable(sch) && Dynamic(sch, dyn) && Typed(sch, dyn, v, ty)
    ensures Returns(sch, Build(sch, v, Some(ty)), v, ty)
    decreases v, 2
  {
    match v
    case List(items) => SequenceReturns(sch, dyn, items, ty);
    case Tuple(items) => SequenceReturns(sch, dyn, items, ty);
    case Dict(entries) => DictReturns(sch, dyn, entries, ty);
    case Object(cls, fields) =>
      if !ty.EnumTy? {
        ObjectRoundTripExactly(sch, dyn, cls, fields);
        if Build(sch, v, None).Ok? {
          PlaceIsUndone(sch, v, ty);
        } else {
          PlaceFails(sch, v, ty);
        }
      }
    case _ =>
  }

  lemma {:induction false} SequenceReturns(sch: Schema, dyn: set<string>, items: seq<Value>, ty: Ty)
    requires Acyclic(sch) && PureOneofs(sch) && Stable(sch) && Dynamic(sch, dyn) && TypedSequence(sch, dyn, items, ty)
    ensures var r := BuildSequence(sch, items, Some(ty));
            && (r.Ok? <==> AllSendable(sch, items, ElementTy(sch, ty)))
            && (r.Ok? ==> !r.value.Atom?)
            && (r.Ok? ==> Same(Rebuild(sch, r.value), ListOf(AllArrive(sch, items, ElementTy(sch, ty)))))
    decreases items, 1
  {
    AllReturn(sch, dyn, items, ElementTy(sch, ty));
    if ty.MessageTy? && IsItems(sch, ty.cls) {
      var r := BuildAll(sch, items, Some(ElementTy(sch, ty)));
      if r.Ok? {
        ItemsAreUndone(sch, ty.cls, r.value);
      }
    }
  }

  lemma {:induction false} AllReturn(sch: Schema, dyn: set<string>, items: seq<Value>, ty: Ty)
    requires Acyclic(sch) && PureOneofs(sch) && Stable(sch) && Dynamic(sch, dyn) && AllTyped(sch, dyn, items, ty)
    ensures var r := BuildAll(sch, items, Some(ty));
            && (r.Ok? <==> AllSendable(sch, items, ty))
            && (r.Ok? ==> Same(RebuildAll(sch, r.value), AllArrive(sch, items, ty)))
    decreases items, 0
  {
    hide Build, Rebuild, Typed, Sendable, Arrival, Acyclic, PureOneofs, Stable, Dynamic;
    if items != [] {
      RoundTrip(sch, dyn, items[0], ty);
      AllReturn(sch, dyn, items[1..], ty);
      var r := BuildAll(sch, items, Some(ty));
      if r.Ok? {
        assert r.value[1..] == BuildAll(sch, items[1..], Some(ty)).value;
      }
    }
  }

  lemma {:induction false} DictReturns(sch: Schema, dyn: set<string>, entries: seq<Entry>, ty: Ty)
    requires Acyclic(sch) && PureOneofs(sch) && Stable(sch) && Dynamic(sch, dyn) && Typed(sch, dyn, Dict(entries), ty)
    ensures Returns(sch, Build(sch, Dict(entries), Some(ty)), Dict(entries), ty)
    decreases entries, 1
  {
    hide Acyclic, PureOneofs, Stable, Dynamic, EntriesKnown, NonEmpty, MapArrives, SendableMap;
    if !ty.EnumTy? {
      var values := MapClass(sch, ty);
      if values.Some? {
        MapReturns(sch, dyn, entries, values.value);
        var r := BuildMap(sch, entries, values.value);
        if r.Ok? {
          MapIsUndone(sch, ty.cls, r.value);
        }
      } else {
        AsIsArrives(sch, entries);
        if ty.MessageTy? && IsItems(sch, ty.cls) {
          MapIsUndone(sch, ty.cls, AsIs(entries));
        }
      }
    }
  }

  lemma {:induction false} MapReturns(sch: Schema, dyn: set<string>, entries: seq<Entry>, cls: string)
    requires Acyclic(sch) && PureOneofs(sch) && Stable(sch) && Dynamic(sch, dyn) && TypedMap(sch, dyn, entries, cls)
    ensures var r := BuildMap(sch, entries, cls);
            && (r.Ok? <==> SendableMap(sch, entries, cls))
            && (r.Ok? ==> Same(RebuildMap(sch, r.value), MapArrives(sch, entries, cls)))
    decreases entries, 0
  {
    hide Build, ConvertBasic, Rebuild, Typed, Sendable, Arrival, Converts, Inert, ObjectFree, Acyclic, PureOneofs,
      Stable, Dynamic, Normal;
    if entries != [] {
      var v := entries[0].value;
      if v.Object? {
        RoundTrip(sch, dyn, v, MessageTy(cls));
      } else if Inert(sch, cls) {
        NothingConverts(sch, v, cls);
      } else {
        DynamicRoundTrip(sch, dyn, v, cls);
      }
      MapReturns(sch, dyn, entries[1..], cls);
      var r := BuildMap(sch, entries, cls);
      if r.Ok? {
        assert r.value[1..] == BuildMap(sch, entries[1..], cls).value;
      }
    }
  }

  lemma {:induction false} FieldsReturn(sch: Schema, dyn: set<string>, cls: string, fields: seq<Entry>,
                                        defs: seq<Field>)
    requires Acyclic(sch) && PureOneofs(sch) && Stable(sch) && Dynamic(sch, dyn)
    requires TypedFields(sch, dyn, cls, fields, defs)
    ensures var r := BuildFields(sch, fields, cls);
            && (r.Ok? <==> SendableFields(sch, fields, cls))
            && (r.Ok? ==> SlotsFor(sch, r.value, fields, defs))
    decreases fields, 0
  {
    hide Build, Rebuild, Typed, Sendable, Arrival, Acyclic, PureOneofs, Stable, Dynamic;
    if fields != [] {
      RoundTrip(sch, dyn, fields[0].value, defs[0].ty);
      FieldsReturn(sch, dyn, cls, fields[1..], defs[1..]);
      var r := BuildFields(sch, fields, cls);
      if r.Ok? {
        var all, rest := r.value, BuildFields(sch, fields[1..], cls).value;
        assert all[1..] == rest;
        forall i | 0 <= i < |fields|
          ensures all[i].name == defs[i].name && StandsFor(sch, all[i].message, fields[i].value, defs[i].ty)
        {
          if i > 0 {
            assert all[i] == rest[i - 1] && fields[i] == fields[1..][i - 1] && defs[i] == defs[1..][i - 1];
          }
        }
      }
    }
  }

  lemma {:induction false} NothingLacks(sch: Schema, dyn: set<string>, cls: string, fields: seq<Entry>,
                                        defs: seq<Field>)
    requires Dynamic(sch, dyn) && cls in sch.classes && TypedFields(sch, dyn, cls, fields, defs)
    ensures !Lacking(sch, cls, fields)
    decreases fields
  {
    hide Dynamic, Typed, FieldOf;
    if fields != [] {
      NothingLacks(sch, dyn, cls, fields[1..], defs[1..]);
      assert forall e :: e in fields ==> e == fields[0] || e in fields[1..];
    }
  }

  /** The same for an object on its own. Its message class either lacks a field, and it cannot
      be built; or it fits, and the object is built if and only if each attribute can be sent,
      and rebuilt to what arrives of its attributes if and only if something does of each. */
  lemma {:induction false} ObjectRoundTripExactly(sch: Schema, dyn: set<string>, cls: string, fields: seq<Entry>)
    requires Acyclic(sch) && PureOneofs(sch) && Stable(sch) && Dynamic(sch, dyn)
    requires || Lacking(sch, cls, fields)
             || (&& ObjectClass(sch, cls) && Declares(sch, cls, fields)
                 && TypedFields(sch, dyn, cls, fields, Visible(sch.classes[cls].fields)))
    ensures var v := Object(cls, fields);
            var r := Build(sch, v, None);
            && (r.Ok? <==> Sendable(sch, v, MessageTy(cls)))
            && (r.Ok? ==> r.value.Message? && Same(Rebuild(sch, r.value), Arrival(sch, v, MessageTy(cls))))
    decreases fields, 1
  {
    hide Acyclic, PureOneofs, Stable, Dynamic, TypedFields, Arrival, BuildFields, Rebuild, SendableFields, Lacking;
    if Lacking(sch, cls, fields) {
      LackingFails(sch, cls, fields);
    } else {
      FieldsReturn(sch, dyn, cls, fields, Visible(sch.classes[cls].fields));
      var slots := BuildFields(sch, fields, cls);
      if slots.Ok? {
        MessageReturns(sch, dyn, cls, fields, slots.value);
      }
    }
  }

  // --- what comes back as it was ---

  lemma {:induction false} NonEmptyCount(es: seq<Entry>)
    ensures |NonEmpty(es)| <= |es|
  {
    if es != [] {
      NonEmptyCount(es[1..]);
    }
  }

  /** In a map held as it is. */
  lemma {:induction false} RawReturnsExactly(v: Value)
    ensures Known(v) && WithoutEmpty(v) == Normal(v) <==> RawReturns(v)
    decreases v, 1
  {
    match v
    case List(items) => AllRawReturnExactly(items);
    case Dict(entries) => RawEntriesReturnExactly(entries);
    case _ =>
  }

  lemma {:induction false} AllRawReturnExactly(vs: seq<Value>)
    ensures AllKnown(vs) && AllWithoutEmpty(vs) == NormalAll(vs) <==> AllRawReturn(vs)
    decreases vs, 0
  {
    hide Known, WithoutEmpty, Normal, RawReturns;
    if vs != [] {
      RawReturnsExactly(vs[0]);
      AllRawReturnExactly(vs[1..]);
      var a, b := AllWithoutEmpty(vs), NormalAll(vs);
      assert a[0] == WithoutEmpty(vs[0]) && a[1..] == AllWithoutEmpty(vs[1..]);
      assert b[0] == Normal(vs[0]) && b[1..] == NormalAll(vs[1..]);
    }
  }

  lemma {:induction false} RawEntriesReturnExactly(es: seq<Entry>)
    ensures EntriesKnown(es) && NonEmpty(es) == NormalEntries(es) <==> RawEntries(es)
    decreases es, 0
  {
    hide Known, WithoutEmpty, Normal, RawReturns;
    if es != [] {
      NonEmptyCount(es[1..]);
      RawEntriesReturnExactly(es[1..]);
      if es[0].value != Plain(Null) {
        RawReturnsExactly(es[0].value);
        var a, b := NonEmpty(es), NormalEntries(es);
        assert a[0] == Entry(es[0].name, WithoutEmpty(es[0].value)) && a[1..] == NonEmpty(es[1..]);
        assert b[0] == Entry(es[0].name, Normal(es[0].value)) && b[1..] == NormalEntries(es[1..]);
      }
    }
  }

  /** What arrives of a value is the value itself if and only if it is returnable. */
  lemma {:induction false} ArrivesUnchanged(sch: Schema, dyn: set<string>, v: Value, ty: Ty)
    requires Dynamic(sch, dyn) && Typed(sch, dyn, v, ty) && Sendable(sch, v, ty)
    ensures Arrival(sch, v, ty) == Some(Normal(v)) <==> Returnable(sch, v, ty)
    decreases v, 1
  {
    match v
    case List(items) => AllArriveUnchanged(sch, dyn, items, ElementTy(sch, ty));
    case Tuple(items) => AllArriveUnchanged(sch, dyn, items, ElementTy(sch, ty));
    case Dict(entries) =>
      var values := MapClass(sch, ty);
      if values.Some? {
        MapArrivesUnchanged(sch, dyn, entries, values.value);
      } else {
        RawEntriesReturnExactly(entries);
      }
    case Object(cls, fields) =>
      FieldsArriveUnchanged(sch, dyn, cls, fields, sch.attributes[cls], Visible(sch.classes[cls].fields));
    case _ =>
  }

  lemma {:induction false} AllArriveUnchanged(sch: Schema, dyn: set<string>, vs: seq<Value>, ty: Ty)
    requires Dynamic(sch, dyn) && AllTyped(sch, dyn, vs, ty) && AllSendable(sch, vs, ty)
    ensures AllArrive(sch, vs, ty) == Some(NormalAll(vs)) <==> AllReturnable(sch, vs, ty)
    decreases vs, 0
  {
    hide Dynamic, Typed, Sendable, Arrival, Returnable, Normal;
    if vs != [] {
      ArrivesUnchanged(sch, dyn, vs[0], ty);
      AllArriveUnchanged(sch, dyn, vs[1..], ty);
      var a := AllArrive(sch, vs, ty);
      if a.Some? {
        assert Some(a.value[0]) == Arrival(sch, vs[0], ty) && Some(a.value[1..]) == AllArrive(sch, vs[1..], ty);
      }
      assert NormalAll(vs)[0] == Normal(vs[0]) && NormalAll(vs)[1..] == NormalAll(vs[1..]);
    }
  }

  lemma {:induction false} MapArrivesUnchanged(sch: Schema, dyn: set<string>, es: seq<Entry>, cls: string)
    requires Dynamic(sch, dyn) && TypedMap(sch, dyn, es, cls) && SendableMap(sch, es, cls)
    ensures MapArrives(sch, es, cls) == Some(NormalEntries(es)) <==> ReturnableMap(sch, es, cls)
    decreases es, 0
  {
    hide Dynamic, Typed, Sendable, Arrival, Returnable, Normal, Converts, Inert, ObjectFree;
    if es != [] {
      var v := es[0].value;
      if v.Object? {
        ArrivesUnchanged(sch, dyn, v, MessageTy(cls));
      }
      MapArrivesUnchanged(sch, dyn, es[1..], cls);
      var a, b := MapArrives(sch, es, cls), NormalEntries(es);
      if a.Some? {
        assert a.value[0].name == es[0].name && Some(a.value[1..]) == MapArrives(sch, es[1..], cls);
        assert Some(a.value[0].value) == if v.Object? then Arrival(sch, v, MessageTy(cls)) else Some(Normal(v));
      }
      assert b[0] == Entry(es[0].name, Normal(v)) && b[1..] == NormalEntries(es[1..]);
    }
  }

  lemma {:induction false} FieldsArriveUnchanged(sch: Schema, dyn: set<string>, cls: string, es: seq<Entry>,
                                                 attributes: seq<Attribute>, defs: seq<Field>)
    requires Dynamic(sch, dyn) && TypedFields(sch, dyn, cls, es, defs) && SendableFields(sch, es, cls)
    requires |attributes| == |es|
    ensures |defs| == |es|
    ensures FieldsArrive(sch, es, attributes, defs) == Some(NormalEntries(es))
            <==> AllKept(sch, es, attributes, defs) && ReturnableFields(sch, es, cls)
    decreases es, 0
  {
    hide Dynamic, Typed, Sendable, AttributeArrives, Returnable, Normal, Kept, FieldOf;
    if es != [] {
      var es', as', ds := es[1..], attributes[1..], defs[1..];
      AttributeArrivesUnchanged(sch, dyn, es[0], attributes[0], defs[0]);
      FieldsArriveUnchanged(sch, dyn, cls, es', as', ds);
      KeptCons(sch, es, attributes, defs);
      var a, b := FieldsArrive(sch, es, attributes, defs), NormalEntries(es);
      if a.Some? {
        assert a.value[0].name == es[0].name && Some(a.value[1..]) == FieldsArrive(sch, es', as', ds);
        assert Some(a.value[0].value) == AttributeArrives(sch, es[0], attributes[0], defs[0]);
      }
      assert b[0] == Entry(es[0].name, Normal(es[0].value)) && b[1..] == NormalEntries(es');
    }
  }

  lemma KeptCons(sch: Schema, es: seq<Entry>, attributes: seq<Attribute>, defs: seq<Field>)
    requires |es| == |attributes| == |defs| > 0
    ensures AllKept(sch, es, attributes, defs)
            <==> Kept(sch, es[0], attributes[0], defs[0]) && AllKept(sch, es[1..], attributes[1..], defs[1..])
  {
    hide Kept;
    if Kept(sch, es[0], attributes[0], defs[0]) && AllKept(sch, es[1..], attributes[1..], defs[1..]) {
      forall i | 0 <= i < |es| ensures Kept(sch, es[i], attributes[i], defs[i]) {
        if i > 0 { assert Kept(sch, es[1..][i - 1], attributes[1..][i - 1], defs[1..][i - 1]); }
      }
    }
    if AllKept(sch, es, attributes, defs) {
      forall i | 0 <= i < |es| - 1 ensures Kept(sch, es[1..][i], attributes[1..][i], defs[1..][i]) {
        assert Kept(sch, es[i + 1], attributes[i + 1], defs[i + 1]);
      }
    }
  }

  lemma {:induction false} AttributeArrivesUnchanged(sch: Schema, dyn: set<string>, e: Entry, a: Attribute, f: Field)
    requires Dynamic(sch, dyn) && Typed(sch, dyn, e.value, f.ty) && Sendable(sch, e.value, f.ty)
    requires sch.snake(e.name) == f.name
    ensures AttributeArrives(sch, e, a, f) == Some(Normal(e.value))
            <==> Kept(sch, e, a, f) && Returnable(sch, e.value, f.ty)
    decreases e, 0
  {
    if !EndsWith(f.name, "_timestamp") {
      ArrivesUnchanged(sch, dyn, e.value, f.ty);
    } else {
      hide Arrival;
    }
  }

  /** Main result on what comes back: a value that has been sent is rebuilt to itself, up to
      tuples becoming lists, if and only if it is returnable. */
  lemma ComesBackExactly(sch: Schema, dyn: set<string>, v: Value, ty: Ty)
    requires Acyclic(sch) && PureOneofs(sch) && Stable(sch) && Dynamic(sch, dyn) && Typed(sch, dyn, v, ty)
    requires Build(sch, v, Some(ty)).Ok?
    ensures Rebuild(sch, Build(sch, v, Some(ty)).value) == Ok(Normal(v)) <==> Returnable(sch, v, ty)
  {
    hide Build, Rebuild, Typed, Sendable, Arrival, Returnable, Acyclic, PureOneofs, Stable, Dynamic;
    RoundTrip(sch, dyn, v, ty);
    ArrivesUnchanged(sch, dyn, v, ty);
  }

  /** What cannot be sent at all: exactly the values that are not sendable. */
  lemma BuildsExactly(sch: Schema, dyn: set<string>, v: Value, ty: Ty)
    requires Acyclic(sch) && PureOneofs(sch) && Stable(sch) && Dynamic(sch, dyn) && Typed(sch, dyn, v, ty)
    ensures Build(sch, v, Some(ty)).Ok? <==> Sendable(sch, v, ty)
  {
    RoundTrip(sch, dyn, v, ty);
  }

  /** What of an object on its own comes back: it does if and only if all its attributes are
      kept and returnable. */
  lemma ObjectComesBackExactly(sch: Schema, dyn: set<string>, cls: string, fields: seq<Entry>)
    requires Acyclic(sch) && PureOneofs(sch) && Stable(sch) && Dynamic(sch, dyn)
    requires ObjectClass(sch, cls) && Declares(sch, cls, fields)
    requires TypedFields(sch, dyn, cls, fields, Visible(sch.classes[cls].fields))
    requires Build(sch, Object(cls, fields), None).Ok?
    ensures var v := Object(cls, fields);
            Rebuild(sch, Build(sch, v, None).value) == Ok(Normal(v)) <==> Returnable(sch, v, MessageTy(cls))
  {
    hide Rebuild, Acyclic, PureOneofs, Stable, Dynamic, TypedFields, SendableFields, FieldsArrive, AllKept,
      ReturnableFields, BuildFields, Lacking;
    ObjectRoundTripExactly(sch, dyn, cls, fields);
    FieldsArriveUnchanged(sch, dyn, cls, fields, sch.attributes[cls], Visible(sch.classes[cls].fields));
  }

  /** For an object on its own to be built its class need not even declare the attributes. */
  lemma ObjectBuildsExactly(sch: Schema, dyn: set<string>, cls: string, fields: seq<Entry>)
    requires Acyclic(sch) && PureOneofs(sch) && Stable(sch) && Dynamic(sch, dyn) && cls in sch.classes
    requires TypedFields(sch, dyn, cls, fields, Visible(sch.classes[cls].fields))
    ensures Build(sch, Object(cls, fields), None).Ok? <==> SendableFields(sch, fields, cls)
  {
    hide Acyclic, PureOneofs, Stable, Dynamic, TypedFields, BuildFields, SendableFields;
    FieldsReturn(sch, dyn, cls, fields, Visible(sch.classes[cls].fields));
  }

  /** An empty attribute of an enum type, legal as it is for the application, cannot be
      sent: the object holding it is refused as a whole, whatever else it holds. */
  lemma {:induction false} EmptyEnumIsRefused(sch: Schema, cls: string, fields: seq<Entry>, k: nat)
    requires Acyclic(sch) && k < |fields| && fields[k].value == Plain(Null)
    requires var f := FieldOf(sch, cls, sch.snake(fields[k].name)); f.Some? && f.value.ty.EnumTy?
    ensures BuildFields(sch, fields, cls).Err? && Build(sch, Object(cls, fields), None).Err?
  {
    if k > 0 {
      EmptyEnumIsRefused(sch, cls, fields[1..], k - 1);
    }
  }
}
