/**
  The boundary between the application's immutable objects and the messages of
  its RPC interface: `build_message` and its helpers in one direction,
  `rebuild_object` in the other, over any schema whose oneof wrappers do not nest
  in a circle.
*/
module Conversion {
  import opened Wrappers

  datatype Scalar =
    | Null
    | Bool(b: bool)
    | Int(i: int)
    | Float(r: real)
    | Str(s: string)
    | Bytes(bs: seq<int>)

  // ---------------------------------------------------------------------------
  // The two sides
  // ---------------------------------------------------------------------------

  datatype Value =
    | Plain(scalar: Scalar)
    | Member(cls: string, name: string)
    | List(items: seq<Value>)
    | Tuple(items: seq<Value>)
    | Dict(entries: seq<Entry>)
    | Object(cls: string, fields: seq<Entry>)
    | SetOf(items: seq<Value>)
    | Moment(seconds: Scalar)
    | Opaque

  datatype Entry = Entry(name: string, value: Value)

  datatype Message =
    | Atom(scalar: Scalar)
    | EnumMember(cls: string, name: string)
    | Repeated(messages: seq<Message>)
    | Mapping(slots: seq<Slot>)
    | Raw(value: Value)
    | Message(cls: string, slots: seq<Slot>)

  datatype Slot = Slot(name: string, message: Message)

  // ---------------------------------------------------------------------------
  // Schemas
  // ---------------------------------------------------------------------------

  /** The class a field's contents are built for. `MapTy` is a map field, by its value class. */
  datatype Ty = ScalarTy | EnumTy(cls: string) | MessageTy(cls: string) | MapTy(values: Option<string>)

  datatype Field = Field(name: string, ty: Ty, group: Option<string>, nullable: bool)

  /** `fields` are in the order of their numbers. */
  datatype Class = Class(fields: seq<Field>)

  /** An attribute of an application class, with its default if it has one. */
  datatype Attribute = Attribute(name: string, default: Option<Value>)

  /** `attributes` lists, for each message class that has an application class of the same
      name, that class's attributes in field order; `snake` is the naming rule of the
      wire; `memberValue` is the value of an enum member; `rank` orders the oneof wrappers. */
  datatype Schema = Schema(
    classes: map<string, Class>,
    attributes: map<string, seq<Attribute>>,
    snake: string -> string,
    memberValue: (string, string) -> Scalar,
    rank: map<string, nat>)

  const BASIC_TYPE := "BasicType"

  const BASIC_CLASS := Class([
    Field("string", ScalarTy, Some("value"), false),
    Field("int64", ScalarTy, Some("value"), false),
    Field("float", ScalarTy, Some("value"), false),
    Field("bool", ScalarTy, Some("value"), false),
    Field("bytes", ScalarTy, Some("value"), false)])

  function Groups(c: Class): set<string> {
    set f | f in c.fields && f.group.Some? :: f.group.value
  }

  predicate IsOneof(c: Class) {
    exists g :: g in Groups(c) && Groups(c) == {g}
  }

  /** No oneof wrapper contains itself, at any depth. */
  ghost predicate Acyclic(sch: Schema) {
    && BASIC_TYPE in sch.classes && sch.classes[BASIC_TYPE] == BASIC_CLASS
    && (forall c, f ::
          (c in sch.classes && IsOneof(sch.classes[c]) && f in sch.classes[c].fields
           && f.ty.MessageTy? && f.ty.cls in sch.classes) ==>
          Height(sch, f.ty.cls) < Height(sch, c))
  }

  function Height(sch: Schema, cls: string): nat {
    if cls in sch.rank then sch.rank[cls] else 0
  }

  function FindField(fields: seq<Field>, name: string): (r: Option<Field>)
    ensures r.Some? ==> r.value in fields && r.value.name == name
  {
    if fields == [] then None
    else if fields[0].name == name then Some(fields[0])
    else FindField(fields[1..], name)
  }

  function FieldOf(sch: Schema, cls: string, name: string): (r: Option<Field>)
    ensures r.Some? ==> cls in sch.classes && r.value in sch.classes[cls].fields && r.value.name == name
  {
    if cls in sch.classes then FindField(sch.classes[cls].fields, name) else None
  }

  /** The class consists of a field `items` and nothing else. */
  predicate IsItems(sch: Schema, cls: string) {
    cls in sch.classes && |sch.classes[cls].fields| == 1 && sch.classes[cls].fields[0].name == "items"
  }

  const META := "meta_field_"

  predicate IsMeta(name: string) {
    META <= name
  }

  function Visible(fields: seq<Field>): seq<Field> {
    if fields == [] then []
    else (if IsMeta(fields[0].name) then [] else [fields[0]]) + Visible(fields[1..])
  }

  // ---------------------------------------------------------------------------
  // Building messages
  // ---------------------------------------------------------------------------

  datatype Error =
    | ExpectedEnum | ExpectedOther | CannotConvert | NoClass | NoField
    | NoArm | ManyGroups | NotRebuildable | UnexpectedName | MissingArgument

  datatype Result<+T> = Ok(value: T) | Err(error: Error)

  /** A scalar in the oneof used by dynamically typed values; `Null` selects no arm. */
  function BasicOf(s: Scalar): Message {
    match s
    case Null => Message(BASIC_TYPE, [])
    case Str(_) => Message(BASIC_TYPE, [Slot("string", Atom(s))])
    case Bool(_) => Message(BASIC_TYPE, [Slot("bool", Atom(s))])
    case Int(_) => Message(BASIC_TYPE, [Slot("int64", Atom(s))])
    case Float(_) => Message(BASIC_TYPE, [Slot("float", Atom(s))])
    case Bytes(_) => Message(BASIC_TYPE, [Slot("bytes", Atom(s))])
  }

  /** A string enum's member in the same oneof: it is a string, and is kept as it is. */
  function BasicMember(v: Value): Message
    requires v.Member?
  {
    Message(BASIC_TYPE, [Slot("string", Raw(v))])
  }

  /** The first field whose class is exactly `cls`. */
  function DirectArm(fields: seq<Field>, cls: string): (r: Option<string>)
  {
    if fields == [] then None
    else if fields[0].ty == MessageTy(cls) then Some(fields[0].name)
    else DirectArm(fields[1..], cls)
  }

  function WrapIn(cls: string, field: string, inner: Result<Message>): Result<Message> {
    match inner
    case Ok(m) => Ok(Message(cls, [Slot(field, m)]))
    case Err(e) => Err(e)
  }

  /** Wraps `inner`, built from an object of class `cls`, for a place that expects
      `expected`, through as many oneof wrappers as it takes; `None` if none lead to `cls`. */
  function TryWrapOneof(sch: Schema, inner: Result<Message>, cls: string, expected: string): Option<Result<Message>>
    requires Acyclic(sch)
    decreases Height(sch, expected), 1, 0
  {
    if expected !in sch.classes || !IsOneof(sch.classes[expected]) then None
    else
      var fields := sch.classes[expected].fields;
      var arm := DirectArm(fields, cls);
      if arm.Some? then Some(WrapIn(expected, arm.value, inner))
      else TryArms(sch, inner, cls, expected, fields)
  }

  function TryArms(sch: Schema, inner: Result<Message>, cls: string, expected: string, fields: seq<Field>)
    : Option<Result<Message>>
    requires Acyclic(sch)
    requires expected in sch.classes && IsOneof(sch.classes[expected])
    requires forall f :: f in fields ==> f in sch.classes[expected].fields
    decreases Height(sch, expected), 0, |fields|
  {
    if fields == [] then None
    else
      var f := fields[0];
      var nested := if f.ty.MessageTy? && f.ty.cls in sch.classes
                    then TryWrapOneof(sch, inner, cls, f.ty.cls) else None;
      if nested.Some? then Some(WrapIn(expected, f.name, nested.value))
      else TryArms(sch, inner, cls, expected, fields[1..])
  }

  /** Wraps in a class whose one visible field is of class `cls`. */
  function TryWrapSingle(sch: Schema, inner: Result<Message>, cls: string, expected: string): Option<Result<Message>> {
    if expected !in sch.classes then None
    else
      var fields := Visible(sch.classes[expected].fields);
      if |fields| == 1 && fields[0].ty == MessageTy(cls) then Some(WrapIn(expected, fields[0].name, inner))
      else None
  }

  function Build(sch: Schema, v: Value, expected: Option<Ty>): Result<Message>
    requires Acyclic(sch)
    decreases v, if expected.Some? then 2 else 1
  {
    if ((expected.Some? && expected.value.EnumTy?) || v.Member?) && !v.List? && !v.Tuple? then
      if !v.Member? then Err(ExpectedEnum)
      else if expected.None? || !expected.value.EnumTy? then Ok(Atom(sch.memberValue(v.cls, v.name)))
      else Ok(EnumMember(expected.value.cls, v.name))
    else match v
      case Plain(s) => Ok(Atom(s))
      case List(items) => BuildSequence(sch, items, expected)
      case Tuple(items) => BuildSequence(sch, items, expected)
      case Dict(entries) =>
        if expected.Some? && expected.value.MessageTy? && IsItems(sch, expected.value.cls) then
          var ty := sch.classes[expected.value.cls].fields[0].ty;
          if ty.MapTy? && ty.values.Some? then
            (match BuildMap(sch, entries, ty.values.value)
             case Ok(slots) => Ok(Message(expected.value.cls, [Slot("items", Mapping(slots))]))
             case Err(e) => Err(e))
          else Ok(Message(expected.value.cls, [Slot("items", Mapping(AsIs(entries)))]))
        else Ok(Mapping(AsIs(entries)))
      case Object(cls, fields) =>
        if cls !in sch.classes then Err(NoClass)
        else if expected.Some? && !expected.value.MessageTy? then Err(ExpectedOther)
        else if expected.Some? && expected.value != MessageTy(cls) then
          var inner := Build(sch, v, None);
          var target := expected.value.cls;
          var wrapped := TryWrapOneof(sch, inner, cls, target);
          if wrapped.Some? then wrapped.value
          else
            var single := TryWrapSingle(sch, inner, cls, target);
            if single.Some? then single.value else Err(ExpectedOther)
        else
          (match BuildFields(sch, fields, cls)
           case Ok(slots) => Ok(Message(cls, slots))
           case Err(e) => Err(e))
      case _ => Err(NoField)
  }

  function BuildSequence(sch: Schema, items: seq<Value>, expected: Option<Ty>): Result<Message>
    requires Acyclic(sch)
    decreases items, 1
  {
    if expected.Some? && expected.value.MessageTy? && IsItems(sch, expected.value.cls) then
      match BuildAll(sch, items, Some(sch.classes[expected.value.cls].fields[0].ty))
      case Ok(ms) => Ok(Message(expected.value.cls, [Slot("items", Repeated(ms))]))
      case Err(e) => Err(e)
    else
      match BuildAll(sch, items, expected)
      case Ok(ms) => Ok(Repeated(ms))
      case Err(e) => Err(e)
  }

  function BuildAll(sch: Schema, items: seq<Value>, expected: Option<Ty>): (r: Result<seq<Message>>)
    requires Acyclic(sch)
    ensures r.Ok? ==> |r.value| == |items|
    decreases items, 0
  {
    if items == [] then Ok([])
    else
      match Build(sch, items[0], expected)
      case Err(e) => Err(e)
      case Ok(m) =>
        match BuildAll(sch, items[1..], expected)
        case Err(e) => Err(e)
        case Ok(ms) => Ok([m] + ms)
  }

  function BuildFields(sch: Schema, fields: seq<Entry>, cls: string): Result<seq<Slot>>
    requires Acyclic(sch)
    decreases fields, 0
  {
    if fields == [] then Ok([])
    else
      var key := sch.snake(fields[0].name);
      var field := FieldOf(sch, cls, key);
      if field.None? then Err(NoField)
      else
        match Build(sch, fields[0].value, Some(field.value.ty))
        case Err(e) => Err(e)
        case Ok(m) =>
          match BuildFields(sch, fields[1..], cls)
          case Err(e) => Err(e)
          case Ok(slots) => Ok([Slot(key, m)] + slots)
  }

  /** A map whose values are messages of class `cls`. */
  function BuildMap(sch: Schema, entries: seq<Entry>, cls: string): Result<seq<Slot>>
    requires Acyclic(sch)
    decreases entries, 0
  {
    if entries == [] then Ok([])
    else
      var v := entries[0].value;
      match if v.Object? then Build(sch, v, Some(MessageTy(cls))) else ConvertBasic(sch, v, MessageTy(cls))
      case Err(e) => Err(e)
      case Ok(m) =>
        match BuildMap(sch, entries[1..], cls)
        case Err(e) => Err(e)
        case Ok(slots) => Ok([Slot(entries[0].name, m)] + slots)
  }

  function AsIs(entries: seq<Entry>): seq<Slot> {
    if entries == [] then []
    else
      var v := entries[0].value;
      [Slot(entries[0].name, if v.Plain? then Atom(v.scalar) else Raw(v))] + AsIs(entries[1..])
  }

  function InBasicArm(sch: Schema, basic: Message, ty: Ty): Result<Message> {
    if ty == MessageTy(BASIC_TYPE) then Ok(basic)
    else if ty.MessageTy? && FieldOf(sch, ty.cls, "basic_type").Some? then
      Ok(Message(ty.cls, [Slot("basic_type", basic)]))
    else Err(NoField)
  }

  /** A dynamically typed value for a place of class `ty`. */
  function ConvertBasic(sch: Schema, v: Value, ty: Ty): Result<Message>
    requires Acyclic(sch)
    decreases v, 3
  {
    match v
    case Plain(s) => InBasicArm(sch, BasicOf(s), ty)
    case Member(_, _) => InBasicArm(sch, BasicMember(v), ty)
    case List(items) => ConvertSequence(sch, items, ty)
    case Tuple(items) => ConvertSequence(sch, items, ty)
    case Object(_, _) => Build(sch, v, Some(ty))
    case _ => Err(CannotConvert)
  }

  function ConvertSequence(sch: Schema, items: seq<Value>, ty: Ty): Result<Message>
    requires Acyclic(sch)
    decreases items, 1
  {
    var arm := if ty.MessageTy? then FieldOf(sch, ty.cls, "list") else None;
    if arm.None? || !arm.value.ty.MessageTy? then Err(CannotConvert)
    else
      var listCls := arm.value.ty.cls;
      var itemField := FieldOf(sch, listCls, "items");
      match ConvertAll(sch, items, if itemField.Some? then itemField.value.ty else ty)
      case Err(e) => Err(e)
      case Ok(ms) =>
        if itemField.None? then Err(NoField)
        else Ok(Message(ty.cls, [Slot("list", Message(listCls, [Slot("items", Repeated(ms))]))]))
  }

  function ConvertAll(sch: Schema, items: seq<Value>, ty: Ty): (r: Result<seq<Message>>)
    requires Acyclic(sch)
    ensures r.Ok? ==> |r.value| == |items|
    decreases items, 0
  {
    if items == [] then Ok([])
    else
      match ConvertBasic(sch, items[0], ty)
      case Err(e) => Err(e)
      case Ok(m) =>
        match ConvertAll(sch, items[1..], ty)
        case Err(e) => Err(e)
        case Ok(ms) => Ok([m] + ms)
  }

  // ---------------------------------------------------------------------------
  // Rebuilding objects
  // ---------------------------------------------------------------------------

  function FindSlot(slots: seq<Slot>, name: string): (r: Option<nat>)
    ensures r.Some? ==> r.value < |slots| && slots[r.value].name == name
  {
    if slots == [] then None
    else if slots[0].name == name then Some(0)
    else
      var r := FindSlot(slots[1..], name);
      if r.Some? then Some(r.value + 1) else None
  }

  /** The first slot filled by a field of a oneof group. */
  function Selected(fields: seq<Field>, slots: seq<Slot>): (r: Option<nat>)
    ensures r.Some? ==> r.value < |slots|
  {
    if slots == [] then None
    else
      var f := FindField(fields, slots[0].name);
      if f.Some? && f.value.group.Some? then Some(0)
      else
        var r := Selected(fields, slots[1..]);
        if r.Some? then Some(r.value + 1) else None
  }

  predicate EndsWith(s: string, suffix: string) {
    |suffix| <= |s| && s[|s| - |suffix|..] == suffix
  }

  predicate HasAttribute(sch: Schema, cls: string, name: string) {
    cls in sch.attributes && exists a :: a in sch.attributes[cls] && a.name == name
  }

  function FindEntry(es: seq<Entry>, name: string): Option<Value> {
    if es == [] then None
    else
      var later := FindEntry(es[1..], name);
      if later.Some? then later
      else if es[0].name == name then Some(es[0].value)
      else None
  }

  /** The application class's constructor: an attribute not given takes its default. */
  function Construct(attributes: seq<Attribute>, given: seq<Entry>): (r: Result<seq<Entry>>)
    ensures r.Ok? ==> |r.value| == |attributes|
  {
    if attributes == [] then Ok([])
    else
      var a := attributes[0];
      var found := FindEntry(given, a.name);
      var value := if found.Some? then found else a.default;
      match Construct(attributes[1..], given)
      case Err(e) => Err(e)
      case Ok(rest) => if value.None? then Err(MissingArgument) else Ok([Entry(a.name, value.value)] + rest)
  }

  /** Rebuilds a value that a message holds as it is. Scalars are left alone, and so are the
      members of enums, which are strings; of containers only lists and maps are known. */
  function RebuildRaw(v: Value): Result<Value>
    decreases v, 1
  {
    match v
    case Plain(_) => Ok(v)
    case Member(_, _) => Ok(v)
    case List(items) =>
      (match RebuildRawAll(items)
       case Ok(vs) => Ok(List(vs))
       case Err(e) => Err(e))
    case Dict(entries) =>
      (match RebuildRawEntries(entries)
       case Ok(es) => Ok(Dict(es))
       case Err(e) => Err(e))
    case _ => Err(NotRebuildable)
  }

  function RebuildRawAll(vs: seq<Value>): Result<seq<Value>>
    decreases vs, 0
  {
    if vs == [] then Ok([])
    else
      match RebuildRaw(vs[0])
      case Err(e) => Err(e)
      case Ok(v) =>
        match RebuildRawAll(vs[1..])
        case Err(e) => Err(e)
        case Ok(rest) => Ok([v] + rest)
  }

  function RebuildRawEntries(es: seq<Entry>): Result<seq<Entry>>
    decreases es, 0
  {
    if es == [] then Ok([])
    else if es[0].value == Plain(Null) then RebuildRawEntries(es[1..])
    else
      match RebuildRaw(es[0].value)
      case Err(e) => Err(e)
      case Ok(v) =>
        match RebuildRawEntries(es[1..])
        case Err(e) => Err(e)
        case Ok(rest) => Ok([Entry(es[0].name, v)] + rest)
  }

  function Rebuild(sch: Schema, m: Message): Result<Value>
    decreases m, 1
  {
    match m
    case Atom(s) => Ok(Plain(s))
    case EnumMember(cls, name) =>
      if EndsWith(name, "UNSPECIFIED") then Ok(Plain(Null)) else Ok(Member(cls, name))
    case Repeated(ms) =>
      (match RebuildAll(sch, ms)
       case Ok(vs) => Ok(List(vs))
       case Err(e) => Err(e))
    case Mapping(slots) =>
      (match RebuildMap(sch, slots)
       case Ok(es) => Ok(Dict(es))
       case Err(e) => Err(e))
    case Raw(v) => RebuildRaw(v)
    case Message(cls, slots) =>
      if cls !in sch.classes then Err(NoClass)
      else
        var c := sch.classes[cls];
        var arm := Selected(c.fields, slots);
        if cls == BASIC_TYPE && arm.None? then Ok(Plain(Null))
        else if Groups(c) != {} then
          if !IsOneof(c) then Err(ManyGroups)
          else if arm.None? then Err(NoArm)
          else Rebuild(sch, slots[arm.value].message)
        else if IsItems(sch, cls) then RebuildItems(sch, cls, slots)
        else if cls !in sch.attributes then Err(NotRebuildable)
        else
          match RebuildFields(sch, cls, c.fields, slots)
          case Err(e) => Err(e)
          case Ok(es) =>
            if exists e :: e in es && !HasAttribute(sch, cls, e.name) then Err(UnexpectedName)
            else
              match Construct(sch.attributes[cls], es)
              case Err(e) => Err(e)
              case Ok(fields) => Ok(Object(cls, fields))
  }

  /** What a message consisting of `items` stands for. */
  function RebuildItems(sch: Schema, cls: string, slots: seq<Slot>): Result<Value>
    requires IsItems(sch, cls)
    decreases slots, 2
  {
    var i := FindSlot(slots, "items");
    if i.None? then Ok(if sch.classes[cls].fields[0].nullable then Plain(Null) else List([]))
    else
      var r := Rebuild(sch, slots[i.value].message);
      if slots[i.value].message.Repeated? && r.Ok? && r.value.List? && EndsWith(cls, "SetType")
      then Ok(SetOf(r.value.items)) else r
  }

  function RebuildAll(sch: Schema, ms: seq<Message>): (r: Result<seq<Value>>)
    ensures r.Ok? ==> |r.value| == |ms|
    decreases ms, 0
  {
    if ms == [] then Ok([])
    else
      match Rebuild(sch, ms[0])
      case Err(e) => Err(e)
      case Ok(v) =>
        match RebuildAll(sch, ms[1..])
        case Err(e) => Err(e)
        case Ok(vs) => Ok([v] + vs)
  }

  /** Entries without a value are left out. */
  function RebuildMap(sch: Schema, slots: seq<Slot>): Result<seq<Entry>>
    decreases slots, 0
  {
    if slots == [] then Ok([])
    else if slots[0].message == Atom(Null) then RebuildMap(sch, slots[1..])
    else
      match Rebuild(sch, slots[0].message)
      case Err(e) => Err(e)
      case Ok(v) =>
        match RebuildMap(sch, slots[1..])
        case Err(e) => Err(e)
        case Ok(es) => Ok([Entry(slots[0].name, v)] + es)
  }

  /** What counts as seconds; a truth value does, too. */
  predicate IsNumber(s: Scalar) {
    s.Int? || s.Float? || s.Bool?
  }

  function RebuildField(sch: Schema, name: string, m: Message): Result<Value>
    decreases m, 2
  {
    if EndsWith(name, "_timestamp") then
      if m.Atom? && IsNumber(m.scalar) then Ok(Moment(m.scalar)) else Err(NotRebuildable)
    else Rebuild(sch, m)
  }

  /** The attribute a field stands for. An empty field is left to the default unless the
      application class has an attribute of just that name which may be `None`. */
  function RebuildOne(sch: Schema, cls: string, f: Field, slots: seq<Slot>): Result<seq<Entry>>
    decreases slots, 0
  {
    var i := FindSlot(slots, f.name);
    if IsMeta(f.name) then Ok([])
    else if i.None? || slots[i.value].message == Atom(Null) then
      Ok(if f.nullable && HasAttribute(sch, cls, f.name) then [Entry(sch.snake(f.name), Plain(Null))] else [])
    else
      match RebuildField(sch, f.name, slots[i.value].message)
      case Err(e) => Err(e)
      case Ok(v) => Ok([Entry(sch.snake(f.name), v)])
  }

  function RebuildFields(sch: Schema, cls: string, fields: seq<Field>, slots: seq<Slot>): Result<seq<Entry>>
    decreases slots, 1, |fields|
  {
    if fields == [] then Ok([])
    else
      match RebuildOne(sch, cls, fields[0], slots)
      case Err(e) => Err(e)
      case Ok(first) =>
        match RebuildFields(sch, cls, fields[1..], slots)
        case Err(e) => Err(e)
        case Ok(es) => Ok(first + es)
  }
}
