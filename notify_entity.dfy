/**
 * A notification record (`NotifyEntity` over its `NotifyData`, panels/notification/common/notifyentity.cpp):
 * its fields and their defaults, validity, equality, the processed flag, and the flat
 * field-name to value encoding (`toVariantMap` / `fromVariantMap`) built on the two text codecs.
 */
module NotifyEntity {
  import opened Wrappers
  import opened Strings
  import opened NotifyCodec

  type Int64 = x: int | -0x8000_0000_0000_0000 <= x < 0x8000_0000_0000_0000
  type UInt32 = x: int | 0 <= x < 0x1_0000_0000
  type Int32 = x: int | -0x8000_0000 <= x < 0x8000_0000

  /** The values of `NotifyData::ProcessedType`; the field itself is a plain `int`. */
  const ProcessedNone: Int32 := 0
  const NotProcessed: Int32 := 1
  const Processed: Int32 := 2
  const Removed: Int32 := 3

  /** The shared record behind an entity, with the source's field types. */
  datatype NotifyData = NotifyData(
    appName: string,
    appIcon: string,
    summary: string,
    body: string,
    actions: seq<string>,
    hints: HintMap,
    bubbleId: UInt32,
    replacesId: UInt32,
    expireTimeout: Int32,
    id: Int64,
    cTime: Int64,
    processedType: Int32,
    enablePreview: bool)

  /** The field initialisers of `NotifyData`. */
  const DefaultData := NotifyData("", "", "", "", [], [], 0, 0, 0, -1, 0, NotProcessed, true)

  /** An entity holds its data, or nothing once its data has been moved out of it. */
  datatype NotifyEntity = NotifyEntity(d: Option<NotifyData>)

  /** `NotifyEntity()`. */
  function EmptyEntity(): (e: NotifyEntity)
    ensures e.d.Some? && e.d.value.id == -1 && e.d.value.processedType == NotProcessed
    ensures !IsValid(e) && !IsProcessed(e) && e.d.value.enablePreview
  {
    NotifyEntity(Some(DefaultData))
  }

  /** `NotifyEntity(id, appName)`. */
  function EntityWithId(id: Int64, appName: string): (e: NotifyEntity)
    ensures e.d.Some? && e.d.value.id == id && e.d.value.appName == appName
    ensures e.d.value.(id := -1, appName := "") == EmptyEntity().d.value
    ensures IsValid(e) <==> id > 0
  {
    NotifyEntity(Some(DefaultData.(id := id, appName := appName)))
  }

  /** The full constructor; `now` is the current time in milliseconds since the epoch. */
  function EntityWithFields(appName: string, replacesId: UInt32, appIcon: string, summary: string,
                            body: string, actions: seq<string>, hints: HintMap, expireTimeout: Int32,
                            now: Int64): (e: NotifyEntity)
    ensures e.d.Some? && e.d.value.cTime == now && e.d.value.id == -1 && !IsValid(e)
    ensures e.d.value.appName == appName && e.d.value.replacesId == replacesId && e.d.value.appIcon == appIcon
    ensures e.d.value.summary == summary && e.d.value.body == body && e.d.value.actions == actions
    ensures e.d.value.hints == hints && e.d.value.expireTimeout == expireTimeout
    ensures e.d.value.bubbleId == 0 && e.d.value.processedType == NotProcessed && e.d.value.enablePreview
  {
    NotifyEntity(Some(DefaultData.(appName := appName, replacesId := replacesId, appIcon := appIcon,
                                   summary := summary, body := body, actions := actions, hints := hints,
                                   expireTimeout := expireTimeout, cTime := now)))
  }

  /** `isValid`: the entity holds data and its id is positive. */
  predicate IsValid(e: NotifyEntity): (r: bool)
    ensures r ==> e.d.Some? && e.d.value.id != DefaultData.id && e.d.value.id != 0
  {
    e.d.Some? && e.d.value.id > 0
  }

  /** `operator==`: both entities hold data and their ids agree; nothing else is compared. */
  predicate Equal(a: NotifyEntity, b: NotifyEntity): (r: bool)
    ensures r ==> a.d.Some? && b.d.Some? && (IsValid(a) <==> IsValid(b))
    ensures a.d.None? || b.d.None? ==> !r
  {
    a.d.Some? && b.d.Some? && a.d.value.id == b.d.value.id
  }

  /** `processed`: the processed type is `Processed`. */
  predicate IsProcessed(e: NotifyEntity): (r: bool)
    requires e.d.Some?
    ensures r ==> e.d.value.processedType !in {ProcessedNone, NotProcessed, Removed}
  {
    e.d.value.processedType == Processed
  }

  /** None of the constructors but the one taking an id yields a valid entity. */
  lemma ConstructorsValidity(id: Int64, appName: string, replacesId: UInt32, appIcon: string, summary: string,
                             body: string, actions: seq<string>, hints: HintMap, expireTimeout: Int32, now: Int64)
    ensures !IsValid(EmptyEntity())
    ensures !IsValid(EntityWithFields(appName, replacesId, appIcon, summary, body, actions, hints, expireTimeout, now))
    ensures IsValid(EntityWithId(id, appName)) <==> id > 0
    ensures !IsProcessed(EmptyEntity())
  {
  }

  /** Equality is symmetric and transitive, holds of an entity with itself exactly when it holds data, and compares ids only. */
  lemma EqualIsPartialEquivalence(a: NotifyEntity, b: NotifyEntity, c: NotifyEntity)
    ensures Equal(a, b) ==> Equal(b, a)
    ensures Equal(a, b) && Equal(b, c) ==> Equal(a, c)
    ensures Equal(a, a) <==> a.d.Some?
    ensures a.d.Some? && b.d.Some? ==> (Equal(a, b) <==> a.d.value.id == b.d.value.id)
  {
  }

  /** Two entities with the same id are equal however much else differs; a valid entity equals none without data. */
  lemma EqualIgnoresContent(a: NotifyData, b: NotifyData)
    ensures a.id == b.id ==> Equal(NotifyEntity(Some(a)), NotifyEntity(Some(b)))
    ensures !Equal(NotifyEntity(Some(a)), NotifyEntity(None))
  {
  }

  // ----------------------------------------------------------------------------------------
  // The flat encoding
  // ----------------------------------------------------------------------------------------

  /** The QVariant values the encoding stores: numbers, text and booleans. */
  datatype Variant = Number(n: int) | Text(s: string) | Flag(b: bool)

  /** `map.value(key)`: an absent key gives an invalid variant, here `None`. */
  function Value(m: map<string, Variant>, key: string): Option<Variant>
  {
    if key in m then Some(m[key]) else None
  }

  /** Two's-complement reading of the low 64 bits of `x`, as a C++ integer cast does. */
  function Wrap64(x: int): (r: Int64)
    ensures -0x8000_0000_0000_0000 <= x < 0x8000_0000_0000_0000 ==> r == x
  {
    (x + 0x8000_0000_0000_0000) % 0x1_0000_0000_0000_0000 - 0x8000_0000_0000_0000
  }

  /** Two's-complement reading of the low 32 bits of `x`. */
  function Wrap32(x: int): (r: Int32)
    ensures -0x8000_0000 <= x < 0x8000_0000 ==> r == x
  {
    (x + 0x8000_0000) % 0x1_0000_0000 - 0x8000_0000
  }

  /** `toLongLong`: numbers keep their value modulo 2^64, booleans are 1 or 0, anything else 0. */
  function ToLongLong(v: Option<Variant>): (r: Int64)
    ensures v.Some? && v.value.Number? && -0x8000_0000_0000_0000 <= v.value.n < 0x8000_0000_0000_0000 ==> r == v.value.n
    ensures v.None? ==> r == 0
  {
    match v
    case Some(Number(n)) => Wrap64(n)
    case Some(Flag(b)) => if b then 1 else 0
    case _ => 0
  }

  /** `toUInt`: numbers modulo 2^32, booleans 1 or 0, anything else 0. */
  function ToUInt(v: Option<Variant>): (r: UInt32)
    ensures v.Some? && v.value.Number? && 0 <= v.value.n < 0x1_0000_0000 ==> r == v.value.n
    ensures v.None? ==> r == 0
  {
    match v
    case Some(Number(n)) => n % 0x1_0000_0000
    case Some(Flag(b)) => if b then 1 else 0
    case _ => 0
  }

  /** `toInt`: numbers in two's complement modulo 2^32, booleans 1 or 0, anything else 0. */
  function ToInt(v: Option<Variant>): (r: Int32)
    ensures v.Some? && v.value.Number? && -0x8000_0000 <= v.value.n < 0x8000_0000 ==> r == v.value.n
    ensures v.None? ==> r == 0
  {
    match v
    case Some(Number(n)) => Wrap32(n)
    case Some(Flag(b)) => if b then 1 else 0
    case _ => 0
  }

  /** `toString`: text as it is, anything else the empty string. */
  function ToText(v: Option<Variant>): string
  {
    match v
    case Some(Text(s)) => s
    case _ => ""
  }

  /** `toBool`: booleans as they are, numbers when non-zero, anything else false. */
  function ToBool(v: Option<Variant>): bool
  {
    match v
    case Some(Flag(b)) => b
    case Some(Number(n)) => n != 0
    case _ => false
  }

  /** The names `toVariantMap` writes. */
  const FieldNames: set<string> := {"id", "appName", "appIcon", "summary", "body", "actions", "hints",
                                     "replacesId", "expireTimeout", "cTime", "enablePreview"}

  /** `toVariantMap`: every field but `bubbleId` and `processedType`, the composite ones as text. */
  function ToVariantMap(e: NotifyEntity): (m: map<string, Variant>)
    requires e.d.Some?
    ensures m.Keys == FieldNames
    ensures "bubbleId" !in m && "processedType" !in m
    ensures m["actions"] == Text(Join(e.d.value.actions, ActionSegment))
    ensures m["hints"] == Text(HintsText(e.d.value.hints))
    ensures m["id"] == Number(e.d.value.id) && m["cTime"] == Number(e.d.value.cTime)
    ensures m["appName"] == Text(e.d.value.appName) && m["appIcon"] == Text(e.d.value.appIcon)
    ensures m["summary"] == Text(e.d.value.summary) && m["body"] == Text(e.d.value.body)
    ensures m["replacesId"] == Number(e.d.value.replacesId) && m["expireTimeout"] == Number(e.d.value.expireTimeout)
    ensures m["enablePreview"] == Flag(e.d.value.enablePreview)
  {
    var d := e.d.value;
    map["id" := Number(d.id),
        "appName" := Text(d.appName),
        "appIcon" := Text(d.appIcon),
        "summary" := Text(d.summary),
        "body" := Text(d.body),
        "actions" := Text(Join(d.actions, ActionSegment)),
        "hints" := Text(HintsText(d.hints)),
        "replacesId" := Number(d.replacesId),
        "expireTimeout" := Number(d.expireTimeout),
        "cTime" := Number(d.cTime),
        "enablePreview" := Flag(d.enablePreview)]
  }

  /**
   * `fromVariantMap`: an empty map gives the default entity; otherwise a default entity with each
   * encoded field set from the map, an absent or unconvertible value giving that type's zero.
   */
  function FromVariantMap(m: map<string, Variant>): (e: NotifyEntity)
    ensures m == map[] ==> e == EmptyEntity()
    ensures e.d.Some? && e.d.value.bubbleId == 0 && e.d.value.processedType == NotProcessed
    ensures m != map[] && "id" !in m ==> e.d.value.id == 0
    ensures m != map[] && "enablePreview" !in m ==> !e.d.value.enablePreview
    ensures m != map[] ==> e.d.value.actions == ParseAction(ToText(Value(m, "actions")))
    ensures m != map[] ==> e.d.value.hints == ParsedHints(ToText(Value(m, "hints")))
    ensures m != map[] ==> e.d.value.id == ToLongLong(Value(m, "id")) && e.d.value.cTime == ToLongLong(Value(m, "cTime"))
    ensures m != map[] ==> e.d.value.appName == ToText(Value(m, "appName")) && e.d.value.appIcon == ToText(Value(m, "appIcon"))
    ensures m != map[] ==> e.d.value.summary == ToText(Value(m, "summary")) && e.d.value.body == ToText(Value(m, "body"))
    ensures m != map[] ==> e.d.value.replacesId == ToUInt(Value(m, "replacesId"))
    ensures m != map[] ==> e.d.value.expireTimeout == ToInt(Value(m, "expireTimeout"))
    ensures m != map[] ==> e.d.value.enablePreview == ToBool(Value(m, "enablePreview"))
  {
    if m == map[] then EmptyEntity()
    else
      NotifyEntity(Some(DefaultData.(
        id := ToLongLong(Value(m, "id")),
        appName := ToText(Value(m, "appName")),
        appIcon := ToText(Value(m, "appIcon")),
        summary := ToText(Value(m, "summary")),
        body := ToText(Value(m, "body")),
        actions := ParseAction(ToText(Value(m, "actions"))),
        hints := ParsedHints(ToText(Value(m, "hints"))),
        replacesId := ToUInt(Value(m, "replacesId")),
        expireTimeout := ToInt(Value(m, "expireTimeout")),
        cTime := ToLongLong(Value(m, "cTime")),
        enablePreview := ToBool(Value(m, "enablePreview")))))
  }

  /** Decoding nothing gives an invalid entity, without error. */
  lemma DecodeEmptyIsInvalid()
    ensures FromVariantMap(map[]) == EmptyEntity()
    ensures !IsValid(FromVariantMap(map[]))
  {
  }

  /**
   * The flat encoding round-trips every encoded field when no action contains `|`, the action
   * list is not the single empty token and no hint key or value contains `|` or `!`;
   * `bubbleId` and `processedType` come back with their defaults.
   */
  lemma RecordRoundTrip(e: NotifyEntity)
    requires e.d.Some?
    requires FreeOf(e.d.value.actions, ActionSegment) && e.d.value.actions != [""]
    requires Encodable(e.d.value.hints)
    ensures FromVariantMap(ToVariantMap(e)) == NotifyEntity(Some(e.d.value.(bubbleId := 0, processedType := NotProcessed)))
  {
    var d := e.d.value;
    var m := ToVariantMap(e);
    assert m != map[] by {
      assert "id" in m;
    }
    ActionsRoundTrip(d.actions);
    HintsRoundTrip(d.hints);
    var r := FromVariantMap(m).d.value;
    assert r.id == d.id && r.cTime == d.cTime;
    assert r.replacesId == d.replacesId && r.expireTimeout == d.expireTimeout;
    assert r.appName == d.appName && r.appIcon == d.appIcon && r.summary == d.summary && r.body == d.body;
    assert r.actions == d.actions && r.hints == d.hints;
    assert r.enablePreview == d.enablePreview;
  }

  /** Validity survives the round trip: the id is carried. */
  lemma RoundTripKeepsValidity(e: NotifyEntity)
    requires e.d.Some?
    requires FreeOf(e.d.value.actions, ActionSegment) && e.d.value.actions != [""]
    requires Encodable(e.d.value.hints)
    ensures IsValid(FromVariantMap(ToVariantMap(e))) <==> IsValid(e)
    ensures Equal(FromVariantMap(ToVariantMap(e)), e)
  {
    RecordRoundTrip(e);
  }
}
