/**
  What the message conversion promises: wrapping in oneofs is undone exactly,
  dynamically typed values and typed objects come back as they were, and the
  precise conditions under which they do.
*/
module ConversionLaws {
  import opened Wrappers
  import opened Conversion

  // ---------------------------------------------------------------------------
  // Oneof wrappers
  // ---------------------------------------------------------------------------

  /** Taking the fields numbered by `path` leads through oneof wrappers to class `cls`. */
  ghost predicate Leads(sch: Schema, expected: string, path: seq<nat>, cls: string)
    decreases |path|
  {
    && path != [] && expected in sch.classes && IsOneof(sch.classes[expected])
    && path[0] < |sch.classes[expected].fields|
    && var ty := sch.classes[expected].fields[path[0]].ty;
       if |path| == 1 then ty == MessageTy(cls)
       else ty.MessageTy? && Leads(sch, ty.cls, path[1..], cls)
  }

  lemma {:induction false} DirectArmFound(fields: seq<Field>, cls: string, k: nat)
    requires k < |fields| && fields[k].ty == MessageTy(cls)
    ensures DirectArm(fields, cls).Some?
  {
    if fields[0].ty != MessageTy(cls) {
      DirectArmFound(fields[1..], cls, k - 1);
    }
  }

  lemma {:induction false} DirectArmIsArm(fields: seq<Field>, cls: string) returns (k: nat)
    requires DirectArm(fields, cls).Some?
    ensures k < |fields| && fields[k].ty == MessageTy(cls) && fields[k].name == DirectArm(fields, cls).value
  {
    if fields[0].ty == MessageTy(cls) {
      k := 0;
    } else {
      k := DirectArmIsArm(fields[1..], cls);
      k := k + 1;
    }
  }

  lemma {:induction false} WrapsIfLeads(sch: Schema, inner: Result<Message>, cls: string, expected: string,
                                        path: seq<nat>)
    requires Acyclic(sch) && Leads(sch, expected, path, cls)
    ensures TryWrapOneof(sch, inner, cls, expected).Some?
    decreases |path|, 1, 0
  {
    var fields := sch.classes[expected].fields;
    if |path| == 1 {
      DirectArmFound(fields, cls, path[0]);
    } else if DirectArm(fields, cls).None? {
      ArmsWrapIfLeads(sch, inner, cls, expected, fields, path[0], path);
    }
  }

  lemma {:induction false} ArmsWrapIfLeads(sch: Schema, inner: Result<Message>, cls: string, expected: string,
                                           fields: seq<Field>, k: nat, path: seq<nat>)
    requires Acyclic(sch) && expected in sch.classes && IsOneof(sch.classes[expected])
    requires forall f :: f in fields ==> f in sch.classes[expected].fields
    requires |path| > 1 && k < |fields| && fields[k].ty.MessageTy? && Leads(sch, fields[k].ty.cls, path[1..], cls)
    ensures TryArms(sch, inner, cls, expected, fields).Some?
    decreases |path|, 0, |fields|
  {
    if k == 0 {
      WrapsIfLeads(sch, inner, cls, fields[0].ty.cls, path[1..]);
    } else {
      ArmsWrapIfLeads(sch, inner, cls, expected, fields[1..], k - 1, path);
    }
  }

  lemma {:induction false} LeadsIfWraps(sch: Schema, inner: Result<Message>, cls: string, expected: string)
    returns (path: seq<nat>)
    requires Acyclic(sch) && TryWrapOneof(sch, inner, cls, expected).Some?
    ensures Leads(sch, expected, path, cls)
    decreases Height(sch, expected), 1, 0
  {
    var fields := sch.classes[expected].fields;
    if DirectArm(fields, cls).Some? {
      var k := DirectArmIsArm(fields, cls);
      path := [k];
    } else {
      var k, rest := LeadsIfArmsWrap(sch, inner, cls, expected, fields);
      path := [k] + rest;
    }
  }

  lemma {:induction false} LeadsIfArmsWrap(sch: Schema, inner: Result<Message>, cls: string, expected: string,
                                           fields: seq<Field>)
    returns (k: nat, rest: seq<nat>)
    requires Acyclic(sch) && expected in sch.classes && IsOneof(sch.classes[expected])
    requires forall f :: f in fields ==> f in sch.classes[expected].fields
    requires TryArms(sch, inner, cls, expected, fields).Some?
    ensures k < |fields| && fields[k].ty.MessageTy? && rest != [] && Leads(sch, fields[k].ty.cls, rest, cls)
    decreases Height(sch, expected), 0, |fields|
  {
    var f := fields[0];
    if f.ty.MessageTy? && f.ty.cls in sch.classes && TryWrapOneof(sch, inner, cls, f.ty.cls).Some? {
      k := 0;
      rest := LeadsIfWraps(sch, inner, cls, f.ty.cls);
    } else {
      k, rest := LeadsIfArmsWrap(sch, inner, cls, expected, fields[1..]);
      k := k + 1;
    }
  }

  /** Some chain of oneof wrappers leads from `expected` to `cls`. */
  ghost predicate Reachable(sch: Schema, expected: string, cls: string) {
    exists path: seq<nat> :: Leads(sch, expected, path, cls)
  }

  /** Wrapping succeeds exactly when some chain of oneof wrappers leads to the class. */
  lemma WrapsExactlyWhenReachable(sch: Schema, inner: Result<Message>, cls: string, expected: string)
    requires Acyclic(sch)
    ensures TryWrapOneof(sch, inner, cls, expected).Some? <==> Reachable(sch, expected, cls)
  {
    hide TryWrapOneof;
    if TryWrapOneof(sch, inner, cls, expected).Some? {
      var path := LeadsIfWraps(sch, inner, cls, expected);
    }
    if Reachable(sch, expected, cls) {
      var path: seq<nat> :| Leads(sch, expected, path, cls);
      WrapsIfLeads(sch, inner, cls, expected, path);
    }
  }

  /** `reduce_group`: what the one filled arm of a oneof holds. */
  function ReduceGroup(sch: Schema, m: Message): Result<Message> {
    if !m.Message? || m.cls !in sch.classes then Err(NoClass)
    else if !IsOneof(sch.classes[m.cls]) then Err(ManyGroups)
    else
      var arm := Selected(sch.classes[m.cls].fields, m.slots);
      if arm.None? then Err(NoArm) else Ok(m.slots[arm.value].message)
  }

  /** Reducing `w` some number of times yields `m`. */
  ghost predicate ReducesTo(sch: Schema, w: Message, m: Message, n: nat) {
    if n == 0 then w == m
    else ReduceGroup(sch, w).Ok? && ReducesTo(sch, ReduceGroup(sch, w).value, m, n - 1)
  }

  /** Every class with a single oneof group consists of that group. */
  ghost predicate PureOneofs(sch: Schema) {
    forall c, f :: (c in sch.classes && IsOneof(sch.classes[c]) && f in sch.classes[c].fields) ==> f.group.Some?
  }

  lemma {:induction false} FoundByName(fields: seq<Field>, k: nat)
    requires k < |fields|
    ensures FindField(fields, fields[k].name).Some?
  {
    if fields[0].name != fields[k].name {
      FoundByName(fields[1..], k - 1);
    }
  }

  /** One layer: it comes off exactly if the arm it was put in belongs to the group.
      In a field beside the group, which no generated class has, it cannot be reduced. */
  lemma OneLayer(sch: Schema, cls: string, k: nat, m: Message)
    requires cls in sch.classes && IsOneof(sch.classes[cls]) && k < |sch.classes[cls].fields|
    requires cls != BASIC_TYPE
    ensures var fields := sch.classes[cls].fields;
            var w := Message(cls, [Slot(fields[k].name, m)]);
            var f := FindField(fields, fields[k].name);
            && f.Some?
            && ReduceGroup(sch, w) == (if f.value.group.Some? then Ok(m) else Err(NoArm))
            && Rebuild(sch, w) == (if f.value.group.Some? then Rebuild(sch, m) else Err(NoArm))
  {
    var fields := sch.classes[cls].fields;
    FoundByName(fields, k);
    var slots := [Slot(fields[k].name, m)];
    assert slots[1..] == [];
  }

  /** Putting one more layer around what already peels. */
  lemma LayerPeels(sch: Schema, expected: string, f: Field, nested: Message, m: Message, n: nat)
    requires Acyclic(sch) && PureOneofs(sch) && expected in sch.classes && IsOneof(sch.classes[expected])
    requires f in sch.classes[expected].fields && f.ty.MessageTy?
    requires ReducesTo(sch, nested, m, n) && Rebuild(sch, nested) == Rebuild(sch, m)
    ensures var w := Message(expected, [Slot(f.name, nested)]);
            ReducesTo(sch, w, m, n + 1) && Rebuild(sch, w) == Rebuild(sch, m)
  {
    hide Rebuild;
    var k :| 0 <= k < |sch.classes[expected].fields| && sch.classes[expected].fields[k] == f;
    assert expected != BASIC_TYPE;
    OneLayer(sch, expected, k, nested);
  }

  lemma {:induction false} WrapPeels(sch: Schema, m: Message, cls: string, expected: string) returns (n: nat)
    requires Acyclic(sch) && PureOneofs(sch)
    requires TryWrapOneof(sch, Ok(m), cls, expected).Some?
    ensures var w := TryWrapOneof(sch, Ok(m), cls, expected).value;
            w.Ok? && ReducesTo(sch, w.value, m, n) && Rebuild(sch, w.value) == Rebuild(sch, m) && w.value.Message?
    decreases Height(sch, expected), 1, 0
  {
    hide Rebuild, ReducesTo, Acyclic, PureOneofs;
    var fields := sch.classes[expected].fields;
    if DirectArm(fields, cls).Some? {
      var k := DirectArmIsArm(fields, cls);
      ReducesToItself(sch, m);
      LayerPeels(sch, expected, fields[k], m, m, 0);
      n := 1;
    } else {
      n := ArmsPeel(sch, m, cls, expected, fields);
    }
  }

  lemma ReducesToItself(sch: Schema, m: Message)
    ensures ReducesTo(sch, m, m, 0)
  {
  }

  lemma {:induction false} ArmsPeel(sch: Schema, m: Message, cls: string, expected: string, fields: seq<Field>)
    returns (n: nat)
    requires Acyclic(sch) && PureOneofs(sch) && expected in sch.classes && IsOneof(sch.classes[expected])
    requires forall f :: f in fields ==> f in sch.classes[expected].fields
    requires TryArms(sch, Ok(m), cls, expected, fields).Some?
    ensures var w := TryArms(sch, Ok(m), cls, expected, fields).value;
            w.Ok? && ReducesTo(sch, w.value, m, n) && Rebuild(sch, w.value) == Rebuild(sch, m) && w.value.Message?
    decreases Height(sch, expected), 0, |fields|
  {
    hide Rebuild, ReducesTo, PureOneofs;
    var f := fields[0];
    if f.ty.MessageTy? && f.ty.cls in sch.classes && TryWrapOneof(sch, Ok(m), cls, f.ty.cls).Some? {
      n := WrapPeels(sch, m, cls, f.ty.cls);
      LayerPeels(sch, expected, f, TryWrapOneof(sch, Ok(m), cls, f.ty.cls).value.value, m, n);
      n := n + 1;
    } else {
      n := ArmsPeel(sch, m, cls, expected, fields[1..]);
    }
  }

  /** Main result on wrapping: reducing the wrapper as often as it takes gives back the
      very message that was wrapped, so that both rebuild to the same object. */
  lemma WrapIsUndone(sch: Schema, m: Message, cls: string, expected: string)
    requires Acyclic(sch) && PureOneofs(sch)
    requires TryWrapOneof(sch, Ok(m), cls, expected).Some?
    ensures var w := TryWrapOneof(sch, Ok(m), cls, expected).value;
            w.Ok? && (exists n :: ReducesTo(sch, w.value, m, n)) && Rebuild(sch, w.value) == Rebuild(sch, m)
  {
    var n := WrapPeels(sch, m, cls, expected);
  }

  // ---------------------------------------------------------------------------
  // Dynamically typed values
  // ---------------------------------------------------------------------------

  /** What a value is after one round trip: tuples have become lists. */
  function Normal(v: Value): Value {
    match v
    case List(items) => List(NormalAll(items))
    case Tuple(items) => List(NormalAll(items))
    case Dict(entries) => Dict(NormalEntries(entries))
    case Object(cls, fields) => Object(cls, NormalEntries(fields))
    case _ => v
  }

  function NormalAll(vs: seq<Value>): (r: seq<Value>)
    ensures |r| == |vs|
  {
    if vs == [] then [] else [Normal(vs[0])] + NormalAll(vs[1..])
  }

  function NormalEntries(es: seq<Entry>): (r: seq<Entry>)
    ensures |r| == |es|
  {
    if es == [] then [] else [Entry(es[0].name, Normal(es[0].value))] + NormalEntries(es[1..])
  }

  /** The class of the elements a list arm holds, if there is one. */
  function ListArm(sch: Schema, cls: string): Option<string> {
    var arm := FieldOf(sch, cls, "list");
    if arm.Some? && arm.value.ty.MessageTy? then Some(arm.value.ty.cls) else None
  }

  /** The classes in `dyn` hold dynamically typed values: each is `BasicType` or a oneof
      with an arm for it and possibly one for a list of values of a class in `dyn`. */
  ghost predicate Dynamic(sch: Schema, dyn: set<string>) {
    forall c :: c in dyn && c != BASIC_TYPE ==>
      && c in sch.classes && IsOneof(sch.classes[c])
      && (forall f :: f in sch.classes[c].fields ==> f.group.Some?)
      && FieldOf(sch, c, "basic_type").Some?
      && (ListArm(sch, c).Some? ==>
            var l := ListArm(sch, c).value;
            && IsItems(sch, l) && l != BASIC_TYPE && Groups(sch.classes[l]) == {} && !EndsWith(l, "SetType")
            && sch.classes[l].fields[0].ty.MessageTy? && sch.classes[l].fields[0].ty.cls in dyn)
  }

  /** The class of list elements inside a value of class `cls`. */
  function ElementClass(sch: Schema, dyn: set<string>, cls: string): (r: string)
    requires Dynamic(sch, dyn) && cls in dyn && cls != BASIC_TYPE && ListArm(sch, cls).Some?
    ensures r in dyn
  {
    sch.classes[ListArm(sch, cls).value].fields[0].ty.cls
  }

  predicate HoldsScalars(sch: Schema, ty: Ty) {
    ty.MessageTy? && (ty.cls == BASIC_TYPE || FieldOf(sch, ty.cls, "basic_type").Some?)
  }

  /** Scalars have an arm for them, and lists nest no deeper in `v` than list arms do. */
  predicate Converts(sch: Schema, v: Value, ty: Ty)
    decreases v, 1
  {
    match v
    case Plain(_) => HoldsScalars(sch, ty)
    case Member(_, _) => HoldsScalars(sch, ty)
    case List(items) => ConvertsList(sch, items, ty)
    case Tuple(items) => ConvertsList(sch, items, ty)
    case _ => false
  }

  predicate ConvertsList(sch: Schema, items: seq<Value>, ty: Ty)
    decreases items, 1
  {
    && ty.MessageTy? && ListArm(sch, ty.cls).Some?
    && var f := FieldOf(sch, ListArm(sch, ty.cls).value, "items");
       f.Some? && AllConvert(sch, items, f.value.ty)
  }

  predicate AllConvert(sch: Schema, vs: seq<Value>, ty: Ty)
    decreases vs, 0
  {
    vs == [] || (Converts(sch, vs[0], ty) && AllConvert(sch, vs[1..], ty))
  }

  /** Not an object, and with no object in its lists, however nested. */
  predicate ObjectFree(v: Value) {
    match v
    case List(items) => AllObjectFree(items)
    case Tuple(items) => AllObjectFree(items)
    case Object(_, _) => false
    case _ => true
  }

  predicate AllObjectFree(vs: seq<Value>) {
    vs == [] || (ObjectFree(vs[0]) && AllObjectFree(vs[1..]))
  }

  /** A class with no arm for scalars or lists: nothing but objects can be converted to it. */
  predicate Inert(sch: Schema, cls: string) {
    cls != BASIC_TYPE && FieldOf(sch, cls, "basic_type").None? && ListArm(sch, cls).None?
  }

  lemma NothingConverts(sch: Schema, v: Value, cls: string)
    requires Acyclic(sch) && Inert(sch, cls) && !v.Object?
    ensures ConvertBasic(sch, v, MessageTy(cls)).Err? && !Converts(sch, v, MessageTy(cls))
  {
  }

  /** Wrapping in the arm `name` of a pure oneof is undone. */
  lemma ArmIsUndone(sch: Schema, cls: string, name: string, m: Message)
    requires cls in sch.classes && IsOneof(sch.classes[cls]) && cls != BASIC_TYPE
    requires FieldOf(sch, cls, name).Some? && FieldOf(sch, cls, name).value.group.Some?
    ensures Rebuild(sch, Message(cls, [Slot(name, m)])) == Rebuild(sch, m)
  {
    var slots := [Slot(name, m)];
    assert slots[1..] == [];
  }

  lemma BasicIsOneof()
    ensures IsOneof(BASIC_CLASS) && Groups(BASIC_CLASS) == {"value"}
    ensures forall f :: f in BASIC_CLASS.fields ==> f.group.Some?
  {
    var fields := BASIC_CLASS.fields;
    assert fields[0].group == fields[1].group == fields[2].group == fields[3].group == fields[4].group == Some("value");
    assert "value" in Groups(BASIC_CLASS) by { assert fields[0] in fields; }
  }

  lemma BasicArm(s: Scalar)
    requires s != Null
    ensures var slots := BasicOf(s).slots;
            |slots| == 1 && slots[0].message == Atom(s)
            && FindField(BASIC_CLASS.fields, slots[0].name).Some?
  {
    var fields := BASIC_CLASS.fields;
    var k := if s.Str? then 0 else if s.Int? then 1 else if s.Float? then 2 else if s.Bool? then 3 else 4;
    assert BasicOf(s).slots[0].name == fields[k].name;
    FoundByName(fields, k);
  }

  lemma MemberIsUndone(sch: Schema, v: Value)
    requires Acyclic(sch) && v.Member?
    ensures Rebuild(sch, BasicMember(v)) == Ok(v)
  {
    hide Groups, IsOneof;
    BasicIsOneof();
    assert FindField(BASIC_CLASS.fields, "string") == Some(BASIC_CLASS.fields[0]);
  }

  lemma BasicIsUndone(sch: Schema, s: Scalar)
    requires Acyclic(sch)
    ensures Rebuild(sch, BasicOf(s)) == Ok(Plain(s))
  {
    hide Groups, IsOneof, FindField;
    BasicIsOneof();
    if s != Null {
      BasicArm(s);
    }
  }

  /** A set's class stands for the set of what it holds. */
  lemma SetIsRebuilt(sch: Schema, cls: string, ms: seq<Message>)
    requires IsItems(sch, cls) && cls != BASIC_TYPE && Groups(sch.classes[cls]) == {} && EndsWith(cls, "SetType")
    ensures var r := RebuildAll(sch, ms);
            Rebuild(sch, Message(cls, [Slot("items", Repeated(ms))]))
            == if r.Ok? then Ok(SetOf(r.value)) else Err(r.error)
  {
    var slots := [Slot("items", Repeated(ms))];
    assert FindSlot(slots, "items") == Some(0);
    assert RebuildItems(sch, cls, slots) == if RebuildAll(sch, ms).Ok? then Ok(SetOf(RebuildAll(sch, ms).value))
                                            else Err(RebuildAll(sch, ms).error);
  }

  /** A message consisting of `items` stands for the list it holds. */
  lemma ItemsAreUndone(sch: Schema, cls: string, ms: seq<Message>)
    requires IsItems(sch, cls) && cls != BASIC_TYPE && Groups(sch.classes[cls]) == {} && !EndsWith(cls, "SetType")
    ensures Rebuild(sch, Message(cls, [Slot("items", Repeated(ms))])) == Rebuild(sch, Repeated(ms))
  {
  }

  lemma {:induction false} DynamicRoundTrip(sch: Schema, dyn: set<string>, v: Value, cls: string)
    requires Acyclic(sch) && Dynamic(sch, dyn) && cls in dyn && ObjectFree(v)
    ensures var r := ConvertBasic(sch, v, MessageTy(cls));
            && (r.Ok? <==> Converts(sch, v, MessageTy(cls)))
            && (r.Ok? ==> r.value.Message? && Rebuild(sch, r.value) == Ok(Normal(v)))
    decreases v, 1
  {
    match v
    case Plain(s) =>
      BasicIsUndone(sch, s);
      if cls != BASIC_TYPE {
        ArmIsUndone(sch, cls, "basic_type", BasicOf(s));
      }
    case Member(_, _) =>
      MemberIsUndone(sch, v);
      if cls != BASIC_TYPE {
        ArmIsUndone(sch, cls, "basic_type", BasicMember(v));
      }
    case List(items) => SequenceRoundTrip(sch, dyn, items, cls);
    case Tuple(items) => SequenceRoundTrip(sch, dyn, items, cls);
    case _ =>
  }

  lemma {:induction false} SequenceRoundTrip(sch: Schema, dyn: set<string>, items: seq<Value>, cls: string)
    requires Acyclic(sch) && Dynamic(sch, dyn) && cls in dyn && AllObjectFree(items)
    ensures var r := ConvertSequence(sch, items, MessageTy(cls));
            && (r.Ok? <==> ConvertsList(sch, items, MessageTy(cls)))
            && (r.Ok? ==> r.value.Message? && Rebuild(sch, r.value) == Ok(List(NormalAll(items))))
    decreases items, 1
  {
    if cls == BASIC_TYPE {
      assert FieldOf(sch, BASIC_TYPE, "list").None?;
    } else if ListArm(sch, cls).Some? {
      var l := ListArm(sch, cls).value;
      var element := ElementClass(sch, dyn, cls);
      assert FieldOf(sch, l, "items") == Some(sch.classes[l].fields[0]);
      AllRoundTrip(sch, dyn, items, element);
      var r := ConvertAll(sch, items, MessageTy(element));
      if r.Ok? {
        ItemsAreUndone(sch, l, r.value);
        ArmIsUndone(sch, cls, "list", Message(l, [Slot("items", Repeated(r.value))]));
      }
    }
  }

  lemma {:induction false} AllRoundTrip(sch: Schema, dyn: set<string>, items: seq<Value>, cls: string)
    requires Acyclic(sch) && Dynamic(sch, dyn) && cls in dyn && AllObjectFree(items)
    ensures var r := ConvertAll(sch, items, MessageTy(cls));
            && (r.Ok? <==> AllConvert(sch, items, MessageTy(cls)))
            && (r.Ok? ==> RebuildAll(sch, r.value) == Ok(NormalAll(items)))
    decreases items, 0
  {
    if items != [] {
      DynamicRoundTrip(sch, dyn, items[0], cls);
      AllRoundTrip(sch, dyn, items[1..], cls);
      var r := ConvertAll(sch, items, MessageTy(cls));
      if r.Ok? {
        assert r.value[1..] == ConvertAll(sch, items[1..], MessageTy(cls)).value;
      }
    }
  }
}
