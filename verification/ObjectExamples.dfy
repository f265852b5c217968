/**
  Objects of the application that cannot be sent or do not come back.
*/
module ObjectExamples {
  import opened Wrappers
  import opened Conversion
  import opened ConversionLaws
  import opened ObjectLaws

  // ---------------------------------------------------------------------------
  // Two objects that do not come back
  // ---------------------------------------------------------------------------

  /** One class of one optional number named `name`, which the wire calls `wireName`. */
  function OneNumber(name: string, wireName: string): Schema {
    Schema(map[BASIC_TYPE := BASIC_CLASS, "Record" := Class([Field(wireName, ScalarTy, None, true)])],
           map["Record" := [Attribute(name, Some(Plain(Null)))]],
           s => if s == name then wireName else s,
           (cls, member) => Null,
           map[])
  }

  lemma OneNumberIsAcyclic(name: string, wireName: string)
    ensures Acyclic(OneNumber(name, wireName))
  {
    BasicIsOneof();
  }

  function Record(name: string, s: Scalar): Value {
    Object("Record", [Entry(name, Plain(s))])
  }

  lemma RecordIsBuilt(name: string, wireName: string, s: Scalar)
    requires Acyclic(OneNumber(name, wireName))
    ensures Build(OneNumber(name, wireName), Record(name, s), None) == Ok(Message("Record", [Slot(wireName, Atom(s))]))
  {
    var sch := OneNumber(name, wireName);
    var fields := [Entry(name, Plain(s))];
    assert sch.snake(name) == wireName;
    assert FieldOf(sch, "Record", wireName) == Some(Field(wireName, ScalarTy, None, true));
    assert Build(sch, fields[0].value, Some(ScalarTy)) == Ok(Atom(s));
    assert fields[1..] == [] && BuildFields(sch, fields[1..], "Record") == Ok([]);
    var slots := [Slot(wireName, Atom(s))];
    assert BuildFields(sch, fields, "Record") == Ok(slots + []);
    assert slots + [] == slots;
  }

  /** What the constructor of the rebuilt object is given. */
  lemma RecordIsRead(name: string, wireName: string, s: Scalar)
    requires !IsMeta(wireName) && wireName != "items" && IsNumber(s)
    ensures var sch := OneNumber(name, wireName);
            var value := if EndsWith(wireName, "_timestamp") then Moment(s) else Plain(s);
            var given := [Entry(sch.snake(wireName), value)];
            Rebuild(sch, Message("Record", [Slot(wireName, Atom(s))]))
            == if sch.snake(wireName) != name then Err(UnexpectedName)
               else match Construct(sch.attributes["Record"], given)
                 case Err(e) => Err(e)
                 case Ok(fields) => Ok(Object("Record", fields))
  {
    var sch := OneNumber(name, wireName);
    var f := Field(wireName, ScalarTy, None, true);
    var slots := [Slot(wireName, Atom(s))];
    var value := if EndsWith(wireName, "_timestamp") then Moment(s) else Plain(s);
    var e := Entry(sch.snake(wireName), value);
    assert sch.classes["Record"].fields == [f] && f.group.None?;
    assert Groups(sch.classes["Record"]) == {};
    assert FindSlot(slots, wireName) == Some(0);
    assert RebuildField(sch, wireName, Atom(s)) == Ok(value);
    assert RebuildOne(sch, "Record", f, slots) == Ok([e]);
    assert [f][1..] == [] && RebuildFields(sch, "Record", [f][1..], slots) == Ok([]);
    assert RebuildFields(sch, "Record", [f], slots) == Ok([e] + []);
    assert [e] + [] == [e];
    assert sch.attributes["Record"][0] == Attribute(name, Some(Plain(Null)));
    assert e in [e];
    assert (exists x :: x in [e] && !HasAttribute(sch, "Record", x.name)) <==> e.name != name;
  }

  /** Under whatever name that ends like a time stamp's, every number returns as the date that
      it is the seconds of. */
  lemma TimestampDoesNotReturn(name: string, s: Scalar)
    requires EndsWith(name, "_timestamp") && !IsMeta(name) && IsNumber(s)
    ensures var sch := OneNumber(name, name);
            && Acyclic(sch) && Build(sch, Record(name, s), None).Ok?
            && Rebuild(sch, Build(sch, Record(name, s), None).value) == Ok(Object("Record", [Entry(name, Moment(s))]))
  {
    hide Rebuild, Acyclic, Build, OneNumber, IsMeta;
    OneNumberIsAcyclic(name, name);
    RecordIsBuilt(name, name, s);
    assert |name| >= |"_timestamp"| > |"items"|;
    RecordIsRead(name, name, s);
    ConstructOne(name, Moment(s));
    SnakeOf(name, name);
  }

  lemma SnakeOf(name: string, wireName: string)
    ensures OneNumber(name, wireName).snake(wireName) == wireName
    ensures OneNumber(name, wireName).attributes == map["Record" := [Attribute(name, Some(Plain(Null)))]]
  {
  }

  lemma ConstructOne(name: string, v: Value)
    ensures Construct([Attribute(name, Some(Plain(Null)))], [Entry(name, v)]) == Ok([Entry(name, v)])
  {
    var es := [Entry(name, v)];
    assert es[1..] == [] && FindEntry(es, name) == Some(v);
    var attributes := [Attribute(name, Some(Plain(Null)))];
    assert attributes[1..] == [] && Construct(attributes[1..], es) == Ok([]);
    assert Construct(attributes, es) == Ok(es + []) && es + [] == es;
  }

  /** An attribute whose name the wire changes is passed to the constructor under a name
      that it does not know, so that the object is sent and does not come back. */
  lemma RenamedDoesNotReturn(name: string, wireName: string, s: Scalar)
    requires name != wireName && !IsMeta(wireName) && wireName != "items" && IsNumber(s)
    ensures var sch := OneNumber(name, wireName);
            && Acyclic(sch) && Build(sch, Record(name, s), None).Ok?
            && Rebuild(sch, Build(sch, Record(name, s), None).value) == Err(UnexpectedName)
  {
    hide Rebuild, Acyclic, Build, OneNumber, IsMeta;
    OneNumberIsAcyclic(name, wireName);
    RecordIsBuilt(name, wireName, s);
    RecordIsRead(name, wireName, s);
    SnakeOf(name, wireName);
  }

  // ---------------------------------------------------------------------------
  // A notification inside an action
  // ---------------------------------------------------------------------------

  const ExpirationField := Field("expiration_timestamp", ScalarTy, None, true)
  const ChimeField := Field("chime", EnumTy("Chime"), None, true)
  const NotificationField := Field("notification", MessageTy("Notification"), None, false)
  const AddActionField := Field("notifications_add_action", MessageTy("NotificationsAddAction"), Some("action"), false)

  /** A notification of two attributes, the action that adds it, and the union of actions. */
  const Notifications := Schema(
    map[BASIC_TYPE := BASIC_CLASS,
        "Notification" := Class([ExpirationField, ChimeField]),
        "NotificationsAddAction" := Class([NotificationField]),
        "UboAction" := Class([AddActionField])],
    map["Notification" := [Attribute("expiration_timestamp", Some(Plain(Null))), Attribute("chime", Some(Plain(Null)))],
        "NotificationsAddAction" := [Attribute("notification", None)]],
    s => s,
    (cls, member) => Null,
    map["UboAction" := 1])

  function Notification(expiration: Scalar, chime: Value): Value {
    Object("Notification", [Entry("expiration_timestamp", Plain(expiration)), Entry("chime", chime)])
  }

  function AddAction(expiration: Scalar, chime: Value): Value {
    Object("NotificationsAddAction", [Entry("notification", Notification(expiration, chime))])
  }

  predicate ChimeOrNone(chime: Value) {
    chime == Plain(Null) || (chime.Member? && chime.cls == "Chime" && !EndsWith(chime.name, "UNSPECIFIED"))
  }

  const Union := "UboAction"
  const Action := "NotificationsAddAction"
  const Notice := "Notification"

  lemma ClassesOfNotifications()
    ensures var sch := Notifications;
            && sch.classes.Keys == {BASIC_TYPE, Notice, Action, Union}
            && sch.classes[BASIC_TYPE] == BASIC_CLASS
            && sch.classes[Notice].fields == [ExpirationField, ChimeField]
            && sch.classes[Action].fields == [NotificationField]
            && sch.classes[Union].fields == [AddActionField]
    ensures Height(Notifications, Union) == 1 && Height(Notifications, Action) == 0
    ensures BASIC_TYPE != Notice && BASIC_TYPE != Action && BASIC_TYPE != Union
    ensures Notice != Action && Notice != Union && Action != Union
  {
    assert |BASIC_TYPE| == 9 && |Union| == 9 && |Notice| == 12 && |Action| == 22;
    assert BASIC_TYPE[0] != Union[0];
  }

  lemma GroupsOfNotifications()
    ensures var sch := Notifications;
            && sch.classes.Keys == {BASIC_TYPE, Notice, Action, Union}
            && Groups(sch.classes[Notice]) == {} && Groups(sch.classes[Action]) == {}
            && Groups(sch.classes[Union]) == {"action"}
  {
    hide Notifications;
    ClassesOfNotifications();
    assert AddActionField in Notifications.classes[Union].fields;
  }

  lemma NotificationsAreRegular()
    ensures Acyclic(Notifications) && PureOneofs(Notifications) && Stable(Notifications) && Dynamic(Notifications, {})
  {
    ClassesOfNotifications();
    GroupsOfNotifications();
    BasicIsOneof();
    SnakeIsStable();
    hide Notifications, Groups, Height, Stable;
  }

  lemma SnakeIsStable()
    ensures Stable(Notifications)
  {
  }

  lemma NotificationClasses()
    ensures Visible([ExpirationField, ChimeField]) == [ExpirationField, ChimeField]
    ensures Visible([NotificationField]) == [NotificationField]
    ensures ObjectClass(Notifications, Notice) && ObjectClass(Notifications, Action)
  {
    ClassesOfNotifications();
    GroupsOfNotifications();
    assert ExpirationField.name[0] != META[0] && ChimeField.name[0] != META[0] && NotificationField.name[0] != META[0];
    assert [ExpirationField, ChimeField][1..] == [ChimeField] && [ChimeField][1..] == [];
    assert Visible([ChimeField]) == [ChimeField];
    assert [NotificationField][1..] == [];
    assert |ExpirationField.name| != |ChimeField.name| && |NotificationField.name| != |"items"|;
    assert Notice in Notifications.attributes && Action in Notifications.attributes;
    hide Notifications, Groups;
  }

  lemma FieldsOfNotifications()
    ensures FieldOf(Notifications, Notice, "expiration_timestamp") == Some(ExpirationField)
    ensures FieldOf(Notifications, Notice, "chime") == Some(ChimeField)
    ensures FieldOf(Notifications, Action, "notification") == Some(NotificationField)
    ensures forall name :: Notifications.snake(name) == name
  {
    ClassesOfNotifications();
    assert [ExpirationField, ChimeField][1..] == [ChimeField];
    assert |ExpirationField.name| != |ChimeField.name|;
    assert FindField([ChimeField], "chime") == Some(ChimeField);
  }

  lemma AttributesOfNotifications()
    ensures Notice in Notifications.attributes && Action in Notifications.attributes
    ensures Notifications.attributes[Notice]
         == [Attribute("expiration_timestamp", Some(Plain(Null))), Attribute("chime", Some(Plain(Null)))]
    ensures Notifications.attributes[Action] == [Attribute("notification", None)]
  {
    ClassesOfNotifications();
  }

  /** One more attribute in front of typed ones. */
  lemma OneMoreField(sch: Schema, cls: string, e: Entry, fields: seq<Entry>, f: Field, defs: seq<Field>)
    requires Dynamic(sch, {}) && TypedFields(sch, {}, cls, fields, defs)
    requires sch.snake(e.name) == f.name && FieldOf(sch, cls, f.name) == Some(f) && Typed(sch, {}, e.value, f.ty)
    ensures TypedFields(sch, {}, cls, [e] + fields, [f] + defs)
    ensures SendableFields(sch, [e] + fields, cls) <==> Sendable(sch, e.value, f.ty) && SendableFields(sch, fields, cls)
    ensures ReturnableFields(sch, [e] + fields, cls)
            <==> Returnable(sch, e.value, f.ty) && ReturnableFields(sch, fields, cls)
  {
    hide Dynamic, Typed, Sendable, Returnable, FieldOf;
    assert ([e] + fields)[1..] == fields && ([f] + defs)[1..] == defs;
  }

  lemma TakesMessages(sch: Schema, ty: Ty, cls: string)
    requires Takes(sch, ty, cls)
    ensures ty.MessageTy?
  {
  }

  /** An object whose attributes are typed. */
  lemma ObjectIsTyped(sch: Schema, cls: string, ty: Ty, fields: seq<Entry>, defs: seq<Field>)
    requires Dynamic(sch, {}) && ObjectClass(sch, cls) && Takes(sch, ty, cls) && Declares(sch, cls, fields)
    requires defs == Visible(sch.classes[cls].fields) && TypedFields(sch, {}, cls, fields, defs)
    ensures var v := Object(cls, fields);
            && Typed(sch, {}, v, ty)
            && (Sendable(sch, v, ty) <==> SendableFields(sch, fields, cls))
            && (Returnable(sch, v, ty)
                <==> AllKept(sch, fields, sch.attributes[cls], defs) && ReturnableFields(sch, fields, cls))
  {
    NothingLacks(sch, {}, cls, fields, defs);
    hide Dynamic, Takes, Declares, Visible, TypedFields, SendableFields, AllKept, ReturnableFields, Lacking;
    assert ty.MessageTy? by { TakesMessages(sch, ty, cls); }
  }

  lemma NotificationIsTyped(expiration: Scalar, chime: Value)
    requires Dynamic(Notifications, {}) && ChimeOrNone(chime)
    ensures var v := Notification(expiration, chime);
            && Typed(Notifications, {}, v, MessageTy(Notice))
            && (Sendable(Notifications, v, MessageTy(Notice)) <==> chime != Plain(Null))
            && (Returnable(Notifications, v, MessageTy(Notice)) <==> expiration == Null)
  {
    ClassesOfNotifications();
    NotificationClasses();
    FieldsOfNotifications();
    AttributesOfNotifications();
    hide Notifications, Dynamic, ObjectClass, FieldOf, Visible;
    var e1, e2 := Entry("expiration_timestamp", Plain(expiration)), Entry("chime", chime);
    assert Typed(Notifications, {}, chime, EnumTy("Chime"));
    assert Sendable(Notifications, chime, EnumTy("Chime")) <==> chime != Plain(Null);
    assert Returnable(Notifications, chime, EnumTy("Chime"));
    OneMoreField(Notifications, Notice, e2, [], ChimeField, []);
    OneMoreField(Notifications, Notice, e1, [e2], ExpirationField, [ChimeField]);
    assert [e2] + [] == [e2] && [ChimeField] + [] == [ChimeField];
    assert [e1] + [e2] == [e1, e2] && [ExpirationField] + [ChimeField] == [ExpirationField, ChimeField];
    KeptOfNotification(e1, e2);
    hide TypedFields, SendableFields, ReturnableFields, AllKept, Typed, Sendable, Returnable;
    assert Declares(Notifications, Notice, [e1, e2]);
    ObjectIsTyped(Notifications, Notice, MessageTy(Notice), [e1, e2], [ExpirationField, ChimeField]);
  }

  lemma KeptOfNotification(e1: Entry, e2: Entry)
    requires e1.name == "expiration_timestamp" && e2.name == "chime"
    ensures Notice in Notifications.attributes
    ensures AllKept(Notifications, [e1, e2], Notifications.attributes[Notice], [ExpirationField, ChimeField])
            <==> e1.value == Plain(Null)
  {
    FieldsOfNotifications();
    AttributesOfNotifications();
    hide Notifications;
    var attributes := Notifications.attributes[Notice];
    assert "expiration_timestamp"[10..] == "_timestamp" && |"chime"| < |"_timestamp"|;
    assert Kept(Notifications, e2, attributes[1], ChimeField);
    assert Kept(Notifications, e1, attributes[0], ExpirationField) <==> e1.value == Plain(Null);
  }

  lemma KeptOfAction(e: Entry)
    requires e.name == "notification" && e.value.Object?
    ensures Action in Notifications.attributes
    ensures AllKept(Notifications, [e], Notifications.attributes[Action], [NotificationField])
  {
    FieldsOfNotifications();
    AttributesOfNotifications();
    hide Notifications;
    assert e.name[|e.name| - 1] != "_timestamp"[9];
  }

  lemma ActionIsTaken()
    ensures Takes(Notifications, MessageTy(Union), Action)
  {
    ClassesOfNotifications();
    GroupsOfNotifications();
    hide Notifications, Groups;
    assert Leads(Notifications, Union, [0], Action);
  }

  lemma ActionIsTyped(expiration: Scalar, chime: Value)
    requires Dynamic(Notifications, {}) && ChimeOrNone(chime)
    ensures var v := AddAction(expiration, chime);
            && Typed(Notifications, {}, v, MessageTy(Union))
            && (Sendable(Notifications, v, MessageTy(Union)) <==> chime != Plain(Null))
            && (Returnable(Notifications, v, MessageTy(Union)) <==> expiration == Null)
  {
    ClassesOfNotifications();
    NotificationClasses();
    FieldsOfNotifications();
    AttributesOfNotifications();
    NotificationIsTyped(expiration, chime);
    ActionIsTaken();
    var e := Entry("notification", Notification(expiration, chime));
    KeptOfAction(e);
    hide Notifications, Dynamic, ObjectClass, FieldOf, Visible, Notification, Takes;
    OneMoreField(Notifications, Action, e, [], NotificationField, []);
    assert [e] + [] == [e] && [NotificationField] + [] == [NotificationField];
    assert ReturnableFields(Notifications, [], Action) && SendableFields(Notifications, [], Action);
    hide TypedFields, SendableFields, ReturnableFields, AllKept, Typed, Sendable, Returnable;
    assert Declares(Notifications, Action, [e]);
    ObjectIsTyped(Notifications, Action, MessageTy(Union), [e], [NotificationField]);
  }

  /** The action with a date in place of the number. */
  function DatedAction(expiration: Scalar, chime: Value): Value {
    Object(Action, [Entry("notification", Object(Notice, [Entry("expiration_timestamp", Moment(expiration)),
                                                          Entry("chime", chime)]))])
  }

  lemma OneMoreArrives(sch: Schema, e: Entry, es: seq<Entry>, a: Attribute, as': seq<Attribute>,
                       f: Field, fs: seq<Field>)
    ensures var first, rest := AttributeArrives(sch, e, a, f), FieldsArrive(sch, es, as', fs);
            first.Some? && rest.Some? ==>
              FieldsArrive(sch, [e] + es, [a] + as', [f] + fs) == Some([Entry(e.name, first.value)] + rest.value)
  {
    hide AttributeArrives;
    assert ([e] + es)[1..] == es && ([a] + as')[1..] == as' && ([f] + fs)[1..] == fs;
  }

  lemma ExpirationArrives(e: Entry, a: Attribute, expiration: Scalar)
    requires e == Entry("expiration_timestamp", Plain(expiration)) && IsNumber(expiration)
    ensures AttributeArrives(Notifications, e, a, ExpirationField) == Some(Moment(expiration))
  {
    FieldsOfNotifications();
    hide Notifications, FieldOf;
    assert "expiration_timestamp"[10..] == "_timestamp";
  }

  lemma ChimeArrives(e: Entry, a: Attribute)
    requires e.name == "chime" && ChimeOrNone(e.value)
    ensures AttributeArrives(Notifications, e, a, ChimeField) == Some(e.value)
  {
    FieldsOfNotifications();
    hide Notifications, FieldOf;
    assert |"chime"| < |"_timestamp"|;
    assert Arrival(Notifications, e.value, EnumTy("Chime")) == Some(e.value);
  }

  lemma NotificationArrives(expiration: Scalar, chime: Value)
    requires IsNumber(expiration) && ChimeOrNone(chime)
    ensures Arrival(Notifications, Notification(expiration, chime), MessageTy(Notice))
         == Some(DatedAction(expiration, chime).fields[0].value)
  {
    ClassesOfNotifications();
    NotificationClasses();
    FieldsOfNotifications();
    AttributesOfNotifications();
    hide Notifications, FieldOf, Visible, ObjectClass;
    var e1, e2 := Entry("expiration_timestamp", Plain(expiration)), Entry("chime", chime);
    var a1, a2 := Attribute("expiration_timestamp", Some(Plain(Null))), Attribute("chime", Some(Plain(Null)));
    ExpirationArrives(e1, a1, expiration);
    ChimeArrives(e2, a2);
    hide AttributeArrives, FieldsArrive;
    NothingArrives(Notifications);
    var d1, d2 := Entry(e1.name, Moment(expiration)), Entry(e2.name, chime);
    OneMoreArrives(Notifications, e2, [], a2, [], ChimeField, []);
    assert [e2] + [] == [e2] && [a2] + [] == [a2] && [ChimeField] + [] == [ChimeField] && [d2] + [] == [d2];
    OneMoreArrives(Notifications, e1, [e2], a1, [a2], ExpirationField, [ChimeField]);
    assert [e1] + [e2] == [e1, e2] && [a1] + [a2] == [a1, a2] && [d1] + [d2] == [d1, d2];
    assert [ExpirationField] + [ChimeField] == [ExpirationField, ChimeField];
  }

  lemma ActionArrives(expiration: Scalar, chime: Value)
    requires IsNumber(expiration) && ChimeOrNone(chime)
    ensures Arrival(Notifications, AddAction(expiration, chime), MessageTy(Union))
         == Some(DatedAction(expiration, chime))
  {
    ClassesOfNotifications();
    NotificationClasses();
    FieldsOfNotifications();
    AttributesOfNotifications();
    NotificationArrives(expiration, chime);
    hide Notifications, FieldOf, Visible, ObjectClass;
    var e := Entry("notification", Notification(expiration, chime));
    var a := Attribute("notification", None);
    var d := DatedAction(expiration, chime).fields[0];
    assert !EndsWith(e.name, "_timestamp") by { assert e.name[|e.name| - 1] != "_timestamp"[9]; }
    hide Arrival, EndsWith;
    assert AttributeArrives(Notifications, e, a, NotificationField) == Some(d.value);
    hide AttributeArrives, FieldsArrive, Notification;
    OneMoreArrives(Notifications, e, [], a, [], NotificationField, []);
    NothingArrives(Notifications);
    assert [e] + [] == [e] && [a] + [] == [a] && [NotificationField] + [] == [NotificationField] && [d] + [] == [d];
    ObjectArrives(Notifications, Action, [e], [a], [NotificationField]);
  }

  lemma NothingArrives(sch: Schema)
    ensures FieldsArrive(sch, [], [], []) == Some([])
  {
  }

  lemma ObjectArrives(sch: Schema, cls: string, es: seq<Entry>, attributes: seq<Attribute>, defs: seq<Field>)
    requires cls in sch.classes && cls in sch.attributes
    requires sch.attributes[cls] == attributes && Visible(sch.classes[cls].fields) == defs
    ensures forall ty :: Arrival(sch, Object(cls, es), ty) == ObjectOf(cls, FieldsArrive(sch, es, attributes, defs))
  {
  }

  /** An action that adds a notification is sent if and only if the notification has a chime,
      and what has been sent comes back if and only if the notification does not expire; if
      it does, the time of it has become a date. */
  lemma NotificationReturnsExactly(expiration: Scalar, chime: Value)
    requires ChimeOrNone(chime)
    ensures Acyclic(Notifications)
    ensures var v := AddAction(expiration, chime);
            var r := Build(Notifications, v, Some(MessageTy(Union)));
            && (r.Ok? <==> chime != Plain(Null))
            && (r.Ok? ==> (Rebuild(Notifications, r.value) == Ok(Normal(v)) <==> expiration == Null))
            && (r.Ok? && IsNumber(expiration) ==> Rebuild(Notifications, r.value) == Ok(DatedAction(expiration, chime)))
  {
    hide Notifications, Acyclic, PureOneofs, Stable, Dynamic, Typed, Sendable, Returnable, AddAction;
    NotificationsAreRegular();
    ActionIsTyped(expiration, chime);
    RoundTrip(Notifications, {}, AddAction(expiration, chime), MessageTy(Union));
    if Build(Notifications, AddAction(expiration, chime), Some(MessageTy(Union))).Ok? {
      ComesBackExactly(Notifications, {}, AddAction(expiration, chime), MessageTy(Union));
      if IsNumber(expiration) {
        ActionArrives(expiration, chime);
      }
    }
  }

  // ---------------------------------------------------------------------------
  // Maps of lists and maps of objects
  // ---------------------------------------------------------------------------

  const AssistantState := "AssistantState"
  const CapabilitiesDict := "OllamaModelCapabilitiesDict"
  const CapabilitiesValue := "OllamaModelCapabilitiesValue"
  const SetServices := "SettingsSetServicesAction"

  const CapabilitiesField := Field("ollama_model_capabilities", MessageTy(CapabilitiesDict), None, false)
  const DictField := Field("items", MapTy(Some(CapabilitiesValue)), None, false)
  const ValueField := Field("items", ScalarTy, None, false)
  const ServicesField := Field("services", MapTy(Some("ServiceState")), None, false)

  /** One attribute of the assistant's state, a map of tuples in a wrapper, and one of the
      action that sets the services, a map of objects held as it is. */
  const Maps := Schema(
    map[BASIC_TYPE := BASIC_CLASS,
        AssistantState := Class([CapabilitiesField]),
        CapabilitiesDict := Class([DictField]),
        CapabilitiesValue := Class([ValueField]),
        SetServices := Class([ServicesField])],
    map[AssistantState := [Attribute("ollama_model_capabilities", Some(Dict([])))],
        SetServices := [Attribute("services", None)]],
    s => s,
    (cls, member) => Null,
    map[])

  lemma ClassesOfMaps()
    ensures var sch := Maps;
            && sch.classes.Keys == {BASIC_TYPE, AssistantState, CapabilitiesDict, CapabilitiesValue, SetServices}
            && sch.classes[BASIC_TYPE] == BASIC_CLASS
            && sch.classes[AssistantState].fields == [CapabilitiesField]
            && sch.classes[CapabilitiesDict].fields == [DictField]
            && sch.classes[CapabilitiesValue].fields == [ValueField]
            && sch.classes[SetServices].fields == [ServicesField]
    ensures SetServices in Maps.attributes && Maps.attributes[SetServices] == [Attribute("services", None)]
    ensures forall name :: Maps.snake(name) == name
    ensures |BASIC_TYPE| < |AssistantState| < |SetServices| < |CapabilitiesDict| < |CapabilitiesValue|
  {
    assert |BASIC_TYPE| == 9 && |AssistantState| == 14 && |SetServices| == 25;
    assert |CapabilitiesDict| == 27 && |CapabilitiesValue| == 28;
  }

  /** A schema without oneofs of its own. */
  lemma NoUnions(sch: Schema)
    requires BASIC_TYPE in sch.classes && sch.classes[BASIC_TYPE] == BASIC_CLASS
    requires forall c, f :: c in sch.classes && c != BASIC_TYPE && f in sch.classes[c].fields ==> f.group.None?
    requires forall name :: sch.snake(name) == name
    ensures forall c :: c in sch.classes && c != BASIC_TYPE ==> Groups(sch.classes[c]) == {}
    ensures Acyclic(sch) && PureOneofs(sch) && Stable(sch) && Dynamic(sch, {})
  {
    BasicIsOneof();
  }

  lemma MapsAreRegular()
    ensures forall c :: c in Maps.classes && c != BASIC_TYPE ==> Groups(Maps.classes[c]) == {}
    ensures Acyclic(Maps) && PureOneofs(Maps) && Stable(Maps) && Dynamic(Maps, {})
  {
    ClassesOfMaps();
    hide Maps;
    NoUnions(Maps);
  }

  lemma CapabilitiesClasses()
    ensures ItemsClass(Maps, CapabilitiesDict) && Inert(Maps, CapabilitiesValue)
    ensures MapClass(Maps, MessageTy(CapabilitiesDict)) == Some(CapabilitiesValue)
    ensures Visible([CapabilitiesField]) == [CapabilitiesField]
  {
    ClassesOfMaps();
    MapsAreRegular();
    hide Maps, Groups;
    assert CapabilitiesDict[|CapabilitiesDict| - 1] != "SetType"[6];
    assert |"items"| == 5 && |"list"| == 4 && |"basic_type"| == 10;
    assert CapabilitiesField.name[0] != META[0] && [CapabilitiesField][1..] == [];
  }

  lemma ServicesClass()
    ensures ObjectClass(Maps, SetServices) && Visible([ServicesField]) == [ServicesField]
    ensures FieldOf(Maps, SetServices, "services") == Some(ServicesField)
  {
    ClassesOfMaps();
    MapsAreRegular();
    hide Maps, Groups;
    assert ServicesField.name[0] != META[0] && [ServicesField][1..] == [];
    assert Visible([ServicesField]) == [ServicesField];
    hide Visible;
    assert |"services"| == 8 && |"items"| == 5;
    assert !IsItems(Maps, SetServices) && SetServices != BASIC_TYPE && SetServices in Maps.classes;
  }

  predicate AllLists(entries: seq<Entry>) {
    forall e :: e in entries ==> e.value.List? || e.value.Tuple?
  }

  lemma {:induction false} ListsAreTyped(entries: seq<Entry>)
    requires Dynamic(Maps, {}) && Inert(Maps, CapabilitiesValue) && AllLists(entries)
    ensures TypedMap(Maps, {}, entries, CapabilitiesValue)
  {
    hide Maps, Dynamic, Inert;
    if entries != [] {
      ListsAreTyped(entries[1..]);
      assert !entries[0].value.Object? by { assert entries[0] in entries; }
    }
  }

  /** A state in which the capabilities of a model are known cannot be sent: the tuple is in
      a map of messages, and the message class of its values has no arm for lists. */
  lemma CapabilitiesAreRefused(entries: seq<Entry>)
    requires AllLists(entries)
    ensures Acyclic(Maps)
    ensures var state := Object(AssistantState, [Entry("ollama_model_capabilities", Dict(entries))]);
            Build(Maps, state, None).Ok? <==> entries == []
  {
    ClassesOfMaps();
    MapsAreRegular();
    CapabilitiesClasses();
    ListsAreTyped(entries);
    var e := Entry("ollama_model_capabilities", Dict(entries));
    assert FieldOf(Maps, AssistantState, e.name) == Some(CapabilitiesField);
    hide Maps, Dynamic, FieldOf, Acyclic, PureOneofs, Stable, Inert, ItemsClass, Converts;
    assert Typed(Maps, {}, e.value, MessageTy(CapabilitiesDict));
    OneMoreField(Maps, AssistantState, e, [], CapabilitiesField, []);
    assert [e] + [] == [e] && [CapabilitiesField] + [] == [CapabilitiesField];
    ObjectBuildsExactly(Maps, {}, AssistantState, [e]);
    if entries != [] {
      assert !entries[0].value.Object? by { assert entries[0] in entries; }
      NothingConverts(Maps, entries[0].value, CapabilitiesValue);
    }
    assert Sendable(Maps, e.value, MessageTy(CapabilitiesDict)) <==> entries == [];
  }

  /** An action that sets services can always be sent, and comes back exactly if it sets
      none: nothing knows the objects in its map. */
  lemma ServicesReturnExactly(entries: seq<Entry>)
    requires forall e :: e in entries ==> e.value.Object?
    ensures Acyclic(Maps)
    ensures var v := Object(SetServices, [Entry("services", Dict(entries))]);
            var r := Build(Maps, v, None);
            r.Ok? && (Rebuild(Maps, r.value) == Ok(Normal(v)) <==> entries == [])
  {
    ClassesOfMaps();
    MapsAreRegular();
    ServicesClass();
    hide Maps, Dynamic, FieldOf, Acyclic, PureOneofs, Stable, ObjectClass, Visible;
    var e := Entry("services", Dict(entries));
    OneMoreField(Maps, SetServices, e, [], ServicesField, []);
    assert [e] + [] == [e] && [ServicesField] + [] == [ServicesField];
    assert SendableFields(Maps, [], SetServices) && ReturnableFields(Maps, [], SetServices);
    ServicesAreKept(e);
    ObjectsAreLost(Maps, entries, Some("ServiceState"));
    hide Returnable, Sendable, TypedFields, SendableFields, ReturnableFields, AllKept;
    ObjectRoundTripExactly(Maps, {}, SetServices, [e]);
    ObjectComesBackExactly(Maps, {}, SetServices, [e]);
    NothingLacks(Maps, {}, SetServices, [e], [ServicesField]);
  }

  lemma ObjectsAreLost(sch: Schema, entries: seq<Entry>, values: Option<string>)
    requires forall e :: e in entries ==> e.value.Object?
    ensures Sendable(sch, Dict(entries), MapTy(values))
    ensures Returnable(sch, Dict(entries), MapTy(values)) <==> entries == []
  {
    if entries != [] {
      assert entries[0] in entries && !RawReturns(entries[0].value);
    }
  }

  lemma ServicesAreKept(e: Entry)
    requires e.name == "services" && e.value != Plain(Null)
    ensures Declares(Maps, SetServices, [e])
    ensures AllKept(Maps, [e], Maps.attributes[SetServices], [ServicesField])
  {
    ClassesOfMaps();
    hide Maps;
    assert |e.name| < |"_timestamp"|;
  }
}
