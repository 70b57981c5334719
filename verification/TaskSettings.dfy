/**
 * Startup of task_run in engine.cpp: validating the settings, dropping unknown ones, and
 * either failing with one startup failure or going on to run the nettest.
 */
module TaskSettings {
  import opened Wrappers
  import opened JsonValues
  import opened TaskEngine
  import opened EventRouter

  datatype JsonType = ObjectType | ArrayType | StringType | BooleanType | FloatType

  predicate HasType(j: Json, t: JsonType) {
    match t
    case ObjectType => j.Obj?
    case ArrayType => j.Arr?
    case StringType => j.Str?
    case BooleanType => j.Bool?
    case FloatType => j.Float?
  }

  function TypeName(t: JsonType): string {
    match t
    case ObjectType => "object"
    case ArrayType => "array"
    case StringType => "string"
    case BooleanType => "boolean"
    case FloatType => "number_float"
  }

  /** The type a known setting must have. */
  function ExpectedType(key: string): Option<JsonType> {
    if key in {"annotations", "options"} then Some(ObjectType)
    else if key in {"disabled_events", "inputs", "input_filepaths"} then Some(ArrayType)
    else if key in {"log_filepath", "log_level", "name", "output_filepath"} then Some(StringType)
    else None
  }

  // The known settings, in the order they are checked.
  const KNOWN_SETTINGS: seq<string> := [
    "annotations", "disabled_events", "inputs", "input_filepaths", "log_filepath", "log_level",
    "name", "options", "output_filepath"
  ]

  lemma KnownSettingsHaveTypes(key: string)
    ensures key in KNOWN_SETTINGS <==> ExpectedType(key).Some?
  {
    var k := KNOWN_SETTINGS;
    assert k[0] == "annotations" && k[1] == "disabled_events" && k[2] == "inputs" && k[3] == "input_filepaths";
    assert k[4] == "log_filepath" && k[5] == "log_level" && k[6] == "name" && k[7] == "options";
    assert k[8] == "output_filepath";
  }

  const TASK_NAMES: set<string> := {
    "CaptivePortal", "Dash", "DnsInjection", "FacebookMessenger", "HttpHeaderFieldManipulation",
    "HttpInvalidRequestLine", "MeekFrontedRequests", "MultiNdt", "Ndt", "TcpConnect", "Telegram",
    "WebConnectivity", "Whatsapp"
  }

  // The names that the failure message lists.
  const KNOWN_TASKS: seq<string> := [
    "CaptivePortal", "Dash", "DnsInjection", "FacebookMessenger", "HttpHeaderFieldManipulation",
    "HttpInvalidRequestLine", "MeekFrontedRequests", "MultiNdt", "Ndt", "TcpConnect", "Telegram",
    "WebConnectivity", "Whatsapp"
  ]

  /** The message lists exactly the names that are accepted. */
  lemma KnownTasksAreAccepted(name: string)
    ensures name in KNOWN_TASKS <==> name in TASK_NAMES
  {
    var k := KNOWN_TASKS;
    assert k[0] == "CaptivePortal" && k[1] == "Dash" && k[2] == "DnsInjection" && k[3] == "FacebookMessenger";
    assert k[4] == "HttpHeaderFieldManipulation" && k[5] == "HttpInvalidRequestLine" && k[6] == "MeekFrontedRequests";
    assert k[7] == "MultiNdt" && k[8] == "Ndt" && k[9] == "TcpConnect" && k[10] == "Telegram";
    assert k[11] == "WebConnectivity" && k[12] == "Whatsapp";
  }

  // The options with a mapped type.
  const OPTION_TYPES: map<string, JsonType> := map[
    "bouncer_base_url" := StringType, "collector_base_url" := StringType, "dns/nameserver" := StringType,
    "dns/engine" := StringType, "geoip_asn_path" := StringType, "geoip_country_path" := StringType,
    "ignore_bouncer_error" := BooleanType, "ignore_open_report_error" := BooleanType,
    "max_runtime" := FloatType, "net/ca_bundle_path" := StringType, "net/timeout" := FloatType,
    "no_bouncer" := BooleanType, "no_collector" := BooleanType, "no_asn_lookup" := BooleanType,
    "no_cc_lookup" := BooleanType, "no_ip_lookup" := BooleanType, "no_file_report" := BooleanType,
    "no_resolver_lookup" := BooleanType, "probe_asn" := StringType, "probe_cc" := StringType,
    "probe_ip" := StringType, "randomize_input" := BooleanType, "save_real_probe_asn" := BooleanType,
    "save_real_probe_cc" := BooleanType, "save_real_probe_ip" := BooleanType,
    "save_real_resolver_ip" := BooleanType, "software_name" := StringType, "software_version" := StringType
  ]

  function Warning(message: string): Event {
    LogEvent(LOG_WARNING, message)
  }

  /** emit_settings_failure: the two events after which task_run returns. */
  function Failure(reason: string): seq<Event> {
    [LogEvent(1, reason), Event("failure.startup", Obj([Member("failure", Str("value_error"))]))]
  }

  predicate IsWarning(e: Event) {
    e.value.Obj? && |e.value.members| == 2 && e.value.members[1].value.Str? &&
    e == Warning(e.value.members[1].value.s)
  }

  predicate AllWarnings(events: seq<Event>) {
    forall k :: 0 <= k < |events| ==> IsWarning(events[k])
  }

  // --------------------------------------------------------------- what startup demands

  /** Every known setting that is present has its type. */
  ghost predicate WellTyped(members: seq<Member>) {
    forall key :: IsTyped(members, key)
  }

  predicate IsTyped(members: seq<Member>, key: string) {
    Find(members, key).Some? && ExpectedType(key).Some? ==>
      HasType(Find(members, key).value, ExpectedType(key).value)
  }

  predicate IsScalarOption(j: Json) {
    j.Str? || j.Int? || j.Float? || j.Bool?
  }

  predicate IsAnnotation(j: Json) {
    j.Str? || j.Int? || j.Float?
  }

  predicate AllMembers(members: seq<Member>, ok: Json -> bool) {
    forall k :: 0 <= k < |members| ==> ok(members[k].value)
  }

  predicate AllStrings(items: seq<Json>) {
    forall k :: 0 <= k < |items| ==> items[k].Str?
  }

  /** The members under `key`, none if it is absent. */
  function MembersOf(members: seq<Member>, key: string): seq<Member>
    requires Find(members, key).Some? ==> Find(members, key).value.Obj?
  {
    if Find(members, key).Some? then Find(members, key).value.members else []
  }

  function ItemsOf(members: seq<Member>, key: string): seq<Json>
    requires Find(members, key).Some? ==> Find(members, key).value.Arr?
  {
    if Find(members, key).Some? then Find(members, key).value.items else []
  }

  /** Once the types are right, no access to a known setting can throw. */
  lemma TypesOf(members: seq<Member>)
    requires WellTyped(members)
    ensures forall key :: key in {"annotations", "options"} && Find(members, key).Some? ==>
      Find(members, key).value.Obj?
    ensures forall key :: key in {"disabled_events", "inputs", "input_filepaths"} && Find(members, key).Some? ==>
      Find(members, key).value.Arr?
    ensures forall key :: key in {"log_filepath", "log_level", "name", "output_filepath"} && Find(members, key).Some? ==>
      Find(members, key).value.Str?
  {
    forall key | ExpectedType(key).Some?
      ensures Find(members, key).Some? ==> HasType(Find(members, key).value, ExpectedType(key).value)
    {
      assert IsTyped(members, key);
    }
  }

  predicate LevelOk(members: seq<Member>)
    requires Find(members, "log_level").Some? ==> Find(members, "log_level").value.Str?
  {
    Find(members, "log_level").Some? ==> LevelNumber(Find(members, "log_level").value.s).Some?
  }

  // ---------------------------------------------------------------------- the warnings

  function WrongType(key: string, t: JsonType): string {
    "found setting '" + key + "' with invalid type (fyi: " + key + " should be a " + TypeName(t) + ")"
  }

  function TypeWarnings(members: seq<Member>, keys: seq<string>): seq<Event>
    requires forall k :: 0 <= k < |keys| ==> ExpectedType(keys[k]).Some?
  {
    if keys == [] then []
    else
      var n := |keys| - 1;
      TypeWarnings(members, keys[..n]) +
      if IsTyped(members, keys[n]) then [] else [Warning(WrongType(keys[n], ExpectedType(keys[n]).value))]
  }

  const MISSING_NAME := "missing required setting 'name' (fyi: name should be a string)"

  function ShallowWarnings(members: seq<Member>): seq<Event> {
    KnownTypes();
    (if Find(members, "name").Some? then [] else [Warning(MISSING_NAME)]) + TypeWarnings(members, KNOWN_SETTINGS)
  }

  lemma KnownTypes()
    ensures forall k :: 0 <= k < |KNOWN_SETTINGS| ==> ExpectedType(KNOWN_SETTINGS[k]).Some?
  {
    forall k | 0 <= k < |KNOWN_SETTINGS|
      ensures ExpectedType(KNOWN_SETTINGS[k]).Some?
    {
      KnownSettingsHaveTypes(KNOWN_SETTINGS[k]);
    }
  }

  function UnknownWarning(key: string): Event {
    Warning("found unknown setting key " + key + " which will be removed from the settings JSON.")
  }

  /** One warning per unknown setting, in the order of iteration. */
  function UnknownWarnings(members: seq<Member>): seq<Event> {
    if members == [] then []
    else
      var n := |members| - 1;
      UnknownWarnings(members[..n]) + if ExpectedType(members[n].key).Some? then [] else [UnknownWarning(members[n].key)]
  }

  /** What the removal of unknown settings leaves. */
  function KnownOnly(members: seq<Member>): seq<Member> {
    if members == [] then []
    else
      var n := |members| - 1;
      KnownOnly(members[..n]) + if ExpectedType(members[n].key).Some? then [members[n]] else []
  }

  function OptionWarning(option: Member): (w: seq<Event>)
    ensures |w| <= 1
  {
    if option.key !in OPTION_TYPES then
      [Warning("Found " + option.key + " option which is not mapped as a valid option. We will continue processing")]
    else if !HasType(option.value, OPTION_TYPES[option.key]) then
      [Warning("Found " + option.key + " option which has the wrong type (fyi: it should be a "
               + TypeName(OPTION_TYPES[option.key]) + ")")]
    else []
  }

  /** The options are scanned up to the first whose value is no scalar, and that one warns too. */
  function OptionWarnings(options: seq<Member>): seq<Event> {
    if options == [] then []
    else
      var n := |options| - 1;
      OptionWarnings(options[..n]) +
      if AllMembers(options[..n], IsScalarOption) then OptionWarning(options[n]) else []
  }

  function DisabledWarning(item: Json): (w: seq<Event>)
    requires item.Str?
    ensures |w| <= 1
  {
    if IsEventKeyValid(item.s) then []
    else [Warning("Found unknown event inside of disabled_events with name '" + item.s + "'")]
  }

  function DisabledWarnings(items: seq<Json>): seq<Event> {
    if items == [] then []
    else
      var n := |items| - 1;
      DisabledWarnings(items[..n]) +
      if AllStrings(items[..n]) && items[n].Str? then DisabledWarning(items[n]) else []
  }

  /** The events that the user disabled. */
  function DisabledSet(items: seq<Json>): set<string> {
    set k | 0 <= k < |items| && items[k].Str? && items[k].s in KNOWN_EVENTS :: items[k].s
  }

  // ---------------------------------------------------------- what removal keeps

  lemma {:induction false} RemovalKeepsMembers(members: seq<Member>)
    ensures forall m :: m in KnownOnly(members) <==> m in members && ExpectedType(m.key).Some?
    decreases |members|
  {
    hide ExpectedType;
    if members != [] {
      var n := |members| - 1;
      RemovalKeepsMembers(members[..n]);
      assert members == members[..n] + [members[n]];
    }
  }

  lemma {:induction false} RemovalKeepsDistinct(members: seq<Member>)
    requires DistinctKeys(members)
    ensures DistinctKeys(KnownOnly(members))
    decreases |members|
  {
    hide ExpectedType;
    if members != [] {
      var n := |members| - 1;
      var known := KnownOnly(members[..n]);
      RemovalKeepsDistinct(members[..n]);
      RemovalKeepsMembers(members[..n]);
      forall i | 0 <= i < |known|
        ensures known[i].key != members[n].key
      {
        assert known[i] in members[..n];
      }
    }
  }

  /** What is left: the known settings that were there, each once and with its value. */
  lemma {:induction false} RemovalKeepsKnown(members: seq<Member>, key: string)
    requires DistinctKeys(members)
    ensures forall m :: m in KnownOnly(members) <==> m in members && ExpectedType(m.key).Some?
    ensures DistinctKeys(KnownOnly(members))
    ensures Find(KnownOnly(members), key) == if ExpectedType(key).Some? then Find(members, key) else None
    decreases |members|
  {
    hide ExpectedType, Find;
    RemovalKeepsMembers(members);
    RemovalKeepsDistinct(members);
    FindNothing(key);
    if members != [] {
      var n := |members| - 1;
      RemovalKeepsKnown(members[..n], key);
      assert members == members[..n] + [members[n]];
      FindSplits(members[..n], members[n], key);
      FindSplits(KnownOnly(members[..n]), members[n], key);
    }
  }

  lemma FindNothing(key: string)
    ensures Find([], key) == None
  {
  }

  lemma {:induction false} FindSplits(members: seq<Member>, last: Member, key: string)
    ensures Find(members + [last], key) ==
      if Find(members, key).Some? then Find(members, key)
      else if last.key == key then Some(last.value) else None
    decreases |members|
  {
    if members == [] {
      assert [] + [last] == [last] && [last][1..] == [];
    } else {
      assert (members + [last])[1..] == members[1..] + [last];
      FindSplits(members[1..], last, key);
    }
  }

  lemma UnknownWarns(key: string)
    ensures IsWarning(UnknownWarning(key))
  {
  }

  /** Warnings are log events of level WARNING; a failure is one of level ERR and failure.startup. */
  lemma StartupEventsMeaning(message: string)
    ensures Warning(message) == Event("log", Obj([Member("log_level", Str("WARNING")), Member("message", Str(message))]))
    ensures Failure(message) == [
      Event("log", Obj([Member("log_level", Str("ERR")), Member("message", Str(message))])),
      Event("failure.startup", Obj([Member("failure", Str("value_error"))]))]
  {
  }

  /** As many warnings as settings removed, and one for each. */
  lemma {:induction false} OneWarningPerRemoval(members: seq<Member>)
    ensures |KnownOnly(members)| + |UnknownWarnings(members)| == |members|
    ensures AllWarnings(UnknownWarnings(members))
    ensures forall m :: m in members && ExpectedType(m.key).None? ==> UnknownWarning(m.key) in UnknownWarnings(members)
    decreases |members|
  {
    hide ExpectedType, UnknownWarning;
    if members != [] {
      var n := |members| - 1;
      OneWarningPerRemoval(members[..n]);
      assert members == members[..n] + [members[n]];
      UnknownWarns(members[n].key);
    }
  }

  // ------------------------------------------------------------------ all of startup

  /** The settings pass every check of options, annotations, inputs and log level. */
  ghost predicate Configures(members: seq<Member>)
    requires Find(members, "name").Some? && WellTyped(members)
  {
    TypesOf(members);
    && Find(members, "name").value.s in TASK_NAMES
    && AllMembers(MembersOf(members, "options"), IsScalarOption)
    && AllMembers(MembersOf(members, "annotations"), IsAnnotation)
    && AllStrings(ItemsOf(members, "inputs"))
    && AllStrings(ItemsOf(members, "input_filepaths"))
    && LevelOk(members)
  }

  /** The settings with which a task starts: one condition, from the outside. */
  ghost predicate Accepts(settings: Json) {
    && settings.Obj?
    && Find(settings.members, "name").Some? && WellTyped(settings.members)
    && Configures(settings.members)
    && AllStrings(DisabledList(settings.members))
  }

  /** Every warning of a startup, in order. */
  ghost function Warnings(settings: Json): seq<Event> {
    if !settings.Obj? then []
    else
      var members := settings.members;
      if Find(members, "name") == None || !WellTyped(members) then ShallowWarnings(members)
      else UnknownWarnings(members) + ConfigureWarnings(members) + MaskWarnings(members)
  }

  ghost function ConfigureWarnings(members: seq<Member>): seq<Event>
    requires Find(members, "name").Some? && WellTyped(members)
  {
    TypesOf(members);
    if Find(members, "name").value.s in TASK_NAMES then OptionWarnings(MembersOf(members, "options")) else []
  }

  ghost function MaskWarnings(members: seq<Member>): seq<Event>
    requires Find(members, "name").Some? && WellTyped(members)
  {
    if Configures(members) then DisabledWarnings(DisabledList(members)) else []
  }

  ghost function DisabledList(members: seq<Member>): seq<Json>
    requires WellTyped(members)
  {
    TypesOf(members);
    ItemsOf(members, "disabled_events")
  }

  // ------------------------------------------------------- what startup demands, written out

  predicate IsStringOrAbsent(j: Option<Json>) {
    match j
    case Some(Str(_)) => true
    case Some(_) => false
    case None => true
  }

  ghost predicate IsStringList(j: Option<Json>) {
    match j
    case Some(Arr(items)) => forall x :: x in items ==> x.Str?
    case Some(_) => false
    case None => true
  }

  ghost predicate IsScalarMap(j: Option<Json>, orBool: bool) {
    match j
    case Some(Obj(members)) =>
      forall m :: m in members ==> m.value.Str? || m.value.Int? || m.value.Float? || (orBool && m.value.Bool?)
    case Some(_) => false
    case None => true
  }

  /** The requirements on a settings document, in terms of JSON alone. */
  ghost predicate MeetsRequirements(settings: Json) {
    && settings.Obj?
    && var m := settings.members;
    && (Find(m, "name").Some? && Find(m, "name").value.Str? && Find(m, "name").value.s in KNOWN_TASKS)
    && IsStringOrAbsent(Find(m, "log_filepath")) && IsStringOrAbsent(Find(m, "output_filepath"))
    && IsStringOrAbsent(Find(m, "log_level"))
    && (Find(m, "log_level").Some? ==> Find(m, "log_level").value.s in LOG_LEVELS)
    && IsScalarMap(Find(m, "options"), true) && IsScalarMap(Find(m, "annotations"), false)
    && IsStringList(Find(m, "inputs")) && IsStringList(Find(m, "input_filepaths"))
    && IsStringList(Find(m, "disabled_events"))
  }

  /** A known setting that is present has its type: nine tests. */
  ghost predicate HasTypes(m: seq<Member>) {
    && (Find(m, "annotations").Some? ==> Find(m, "annotations").value.Obj?)
    && (Find(m, "options").Some? ==> Find(m, "options").value.Obj?)
    && (Find(m, "disabled_events").Some? ==> Find(m, "disabled_events").value.Arr?)
    && (Find(m, "inputs").Some? ==> Find(m, "inputs").value.Arr?)
    && (Find(m, "input_filepaths").Some? ==> Find(m, "input_filepaths").value.Arr?)
    && IsStringOrAbsent(Find(m, "log_filepath")) && IsStringOrAbsent(Find(m, "log_level"))
    && IsStringOrAbsent(Find(m, "name")) && IsStringOrAbsent(Find(m, "output_filepath"))
  }

  lemma WellTypedMeaning(m: seq<Member>)
    ensures WellTyped(m) <==> HasTypes(m)
  {
    hide Find;
    if WellTyped(m) {
      TypesOf(m);
      hide WellTyped, IsTyped;
    }
    if HasTypes(m) {
      forall key
        ensures IsTyped(m, key)
      {
        TypedByTests(m, key);
      }
    }
  }

  lemma TypedByTests(m: seq<Member>, key: string)
    requires HasTypes(m)
    ensures IsTyped(m, key)
  {
    hide Find;
  }

  lemma LevelIsKnown(name: string)
    ensures LevelNumber(name).Some? <==> name in LOG_LEVELS
  {
    var l := LOG_LEVELS;
    assert l[0] == "ERR" && l[1] == "WARNING" && l[2] == "INFO" && l[3] == "DEBUG" && l[4] == "DEBUG2";
  }

  lemma MembersMeaning(members: seq<Member>)
    ensures AllMembers(members, IsScalarOption) <==> IsScalarMap(Some(Obj(members)), true)
    ensures AllMembers(members, IsAnnotation) <==> IsScalarMap(Some(Obj(members)), false)
  {
    forall m | m in members && AllMembers(members, IsScalarOption)
      ensures IsScalarOption(m.value)
    {
      var k :| 0 <= k < |members| && members[k] == m;
    }
    forall m | m in members && AllMembers(members, IsAnnotation)
      ensures IsAnnotation(m.value)
    {
      var k :| 0 <= k < |members| && members[k] == m;
    }
  }

  lemma StringsMeaning(items: seq<Json>)
    ensures AllStrings(items) <==> IsStringList(Some(Arr(items)))
  {
  }

  /** The task starts exactly for the documents that meet the requirements. */
  lemma AcceptsMeaning(settings: Json)
    ensures Accepts(settings) <==> MeetsRequirements(settings)
  {
    if settings.Obj? {
      var m := settings.members;
      if MeetsRequirements(settings) {
        RequirementsAreTyped(settings);
      }
      if Find(m, "name").Some? && WellTyped(m) {
        WellTypedMeaning(m);
        hide MeetsRequirements, WellTyped, HasTypes, Configures, Find;
        ConfiguresMeaning(m);
      }
    }
  }

  lemma ConfiguresMeaning(m: seq<Member>)
    requires Find(m, "name").Some? && WellTyped(m)
    ensures Configures(m) && AllStrings(DisabledList(m)) <==> MeetsRequirements(Obj(m))
  {
    WellTypedMeaning(m);
    hide Find, AllMembers, AllStrings, IsScalarMap, IsStringList, LevelNumber, KNOWN_TASKS, TASK_NAMES;
    TypesOf(m);
    hide WellTyped;
    KnownTasksAreAccepted(Find(m, "name").value.s);
    MembersMeaning(MembersOf(m, "options"));
    MembersMeaning(MembersOf(m, "annotations"));
    StringsMeaning(ItemsOf(m, "inputs"));
    StringsMeaning(ItemsOf(m, "input_filepaths"));
    StringsMeaning(ItemsOf(m, "disabled_events"));
    AbsentIsFine();
    if Find(m, "log_level").Some? {
      LevelIsKnown(Find(m, "log_level").value.s);
    }
  }

  lemma AbsentIsFine()
    ensures IsScalarMap(None, true) && IsScalarMap(None, false) && IsStringList(None)
    ensures AllStrings([]) && AllMembers([], IsScalarOption) && AllMembers([], IsAnnotation)
  {
  }

  lemma RequirementsAreTyped(settings: Json)
    requires MeetsRequirements(settings)
    ensures Find(settings.members, "name").Some? && WellTyped(settings.members)
  {
    hide Find;
    WellTypedMeaning(settings.members);
  }

  /** `members` with another value under `key`. */
  function SetMember(members: seq<Member>, key: string, value: Json): seq<Member> {
    if members == [] then []
    else [if members[0].key == key then Member(key, value) else members[0]] + SetMember(members[1..], key, value)
  }

  lemma {:induction false} FindAfterSet(members: seq<Member>, key: string, value: Json, other: string)
    ensures Find(SetMember(members, key, value), other) ==
      if other == key && Find(members, key).Some? then Some(value) else Find(members, other)
  {
    if members != [] {
      FindAfterSet(members[1..], key, value, other);
      assert SetMember(members, key, value)[1..] == SetMember(members[1..], key, value);
    }
  }

  /** The log level of an accepted document may become any of the five names, and nothing else. */
  lemma LevelDecides(settings: Json, level: Json)
    requires Accepts(settings) && Find(settings.members, "log_level").Some?
    ensures Find(settings.members, "log_level").value.Str?
    ensures Find(settings.members, "log_level").value.s in LOG_LEVELS
    ensures Accepts(Obj(SetMember(settings.members, "log_level", level))) <==> level.Str? && level.s in LOG_LEVELS
  {
    var m := settings.members;
    var n := SetMember(m, "log_level", level);
    AcceptsMeaning(settings);
    AcceptsMeaning(Obj(n));
    hide Accepts, Find, SetMember, MeetsRequirements;
    FindAfterSet(m, "log_level", level, "log_level");
    forall key | key != "log_level"
      ensures Find(n, key) == Find(m, key)
    {
      FindAfterSet(m, "log_level", level, key);
    }
    OnlyLevelDiffers(m, n);
  }

  lemma OnlyLevelDiffers(m: seq<Member>, n: seq<Member>)
    requires MeetsRequirements(Obj(m)) && Find(m, "log_level").Some? && Find(n, "log_level").Some?
    requires forall key :: key != "log_level" ==> Find(n, key) == Find(m, key)
    ensures Find(m, "log_level").value.Str? && Find(m, "log_level").value.s in LOG_LEVELS
    ensures MeetsRequirements(Obj(n)) <==>
      Find(n, "log_level").value.Str? && Find(n, "log_level").value.s in LOG_LEVELS
  {
    hide Find, LOG_LEVELS, KNOWN_TASKS;
    OtherKeys();
  }

  lemma OtherKeys()
    ensures "log_level" != "name" && "log_level" != "log_filepath" && "log_level" != "output_filepath"
    ensures "log_level" != "options" && "log_level" != "annotations" && "log_level" != "inputs"
    ensures "log_level" != "input_filepaths" && "log_level" != "disabled_events"
  {
    assert "log_level"[0] == 'l' && "log_level"[4] == 'l' && "log_filepath"[4] == 'f';
  }

  /** No level that the failure message advertises is accepted. */
  lemma AdvertisedLevelsAreRefused(settings: Json, name: string)
    requires settings.Obj? && Find(settings.members, "log_level") == Some(Str(name)) && name in ADVERTISED_LEVELS
    ensures !Accepts(settings)
  {
    AdvertisedLevelsAreUnknown(name);
    LevelIsKnown(name);
    AcceptsMeaning(settings);
  }

  // ------------------------------------------------------------ which options are warned of

  const STRING_OPTIONS: set<string> := {
    "bouncer_base_url", "collector_base_url", "dns/nameserver", "dns/engine", "geoip_asn_path",
    "geoip_country_path", "net/ca_bundle_path", "probe_asn", "probe_cc", "probe_ip", "software_name",
    "software_version"
  }
  const NUMBER_OPTIONS: set<string> := {"max_runtime", "net/timeout"}
  const SWITCH_OPTIONS: set<string> := {
    "ignore_bouncer_error", "ignore_open_report_error", "no_bouncer", "no_collector", "no_asn_lookup",
    "no_cc_lookup", "no_ip_lookup", "no_file_report", "no_resolver_lookup", "randomize_input",
    "save_real_probe_asn", "save_real_probe_cc", "save_real_probe_ip", "save_real_resolver_ip"
  }

  lemma StringOptions(key: string)
    ensures key in OPTION_TYPES && OPTION_TYPES[key] == StringType <==> key in STRING_OPTIONS
  {
  }

  lemma NumberOptions(key: string)
    ensures key in OPTION_TYPES && OPTION_TYPES[key] == FloatType <==> key in NUMBER_OPTIONS
  {
  }

  lemma SwitchOptions(key: string)
    ensures key in OPTION_TYPES && OPTION_TYPES[key] == BooleanType <==> key in SWITCH_OPTIONS
  {
  }

  lemma NoOtherOptions(key: string)
    ensures key in OPTION_TYPES ==> OPTION_TYPES[key] in {StringType, FloatType, BooleanType}
  {
  }

  /** No warning comes exactly for a mapped option of its type; an integer is no number here. */
  lemma OptionWarningMeaning(option: Member)
    ensures OptionWarning(option) == [] <==>
      || (option.key in STRING_OPTIONS && option.value.Str?)
      || (option.key in NUMBER_OPTIONS && option.value.Float?)
      || (option.key in SWITCH_OPTIONS && option.value.Bool?)
  {
    StringOptions(option.key);
    NumberOptions(option.key);
    SwitchOptions(option.key);
    NoOtherOptions(option.key);
    hide OPTION_TYPES, STRING_OPTIONS, NUMBER_OPTIONS, SWITCH_OPTIONS;
  }

  /** A disabled event is warned of exactly when its name is no event key. */
  lemma DisabledWarningMeaning(name: string)
    ensures DisabledWarning(Str(name)) == [] <==> name in KNOWN_EVENTS
  {
    KnownEventsAreValid(name);
  }

  lemma {:induction false} TypeWarningsAreWarnings(members: seq<Member>, keys: seq<string>)
    requires forall k :: 0 <= k < |keys| ==> ExpectedType(keys[k]).Some?
    ensures AllWarnings(TypeWarnings(members, keys))
    decreases |keys|
  {
    if keys != [] {
      TypeWarningsAreWarnings(members, keys[..|keys| - 1]);
    }
  }

  lemma {:induction false} OptionWarningsAreWarnings(options: seq<Member>)
    ensures AllWarnings(OptionWarnings(options))
    decreases |options|
  {
    if options != [] {
      OptionWarningsAreWarnings(options[..|options| - 1]);
    }
  }

  lemma {:induction false} DisabledWarningsAreWarnings(items: seq<Json>)
    ensures AllWarnings(DisabledWarnings(items))
    decreases |items|
  {
    if items != [] {
      DisabledWarningsAreWarnings(items[..|items| - 1]);
    }
  }

  /** Whatever the settings, what startup emits before its verdict are warnings only. */
  lemma StartupOnlyWarns(settings: Json)
    ensures AllWarnings(Warnings(settings))
  {
    hide ShallowWarnings, UnknownWarnings, OptionWarnings, DisabledWarnings, IsWarning, WellTyped, Configures;
    if settings.Obj? {
      var members := settings.members;
      ShallowWarningsAreWarnings(members);
      OneWarningPerRemoval(members);
      if Find(members, "name").Some? && WellTyped(members) {
        TypesOf(members);
        OptionWarningsAreWarnings(MembersOf(members, "options"));
        DisabledWarningsAreWarnings(DisabledList(members));
      }
    }
  }

  lemma ShallowWarningsAreWarnings(members: seq<Member>)
    ensures AllWarnings(ShallowWarnings(members))
  {
    KnownTypes();
    TypeWarningsAreWarnings(members, KNOWN_SETTINGS);
  }

  // -------------------------------------------------------------------------- the code

  method EmitSettingsWarning(task: TaskImpl, message: string)
    requires Running(task)
    modifies task
    ensures Running(task) && task.cell.log == old(task.cell.log) + [Warning(message)]
  {
    task.EmitEvent(Warning(message));
  }

  method EmitSettingsFailure(task: TaskImpl, reason: string)
    requires Running(task)
    modifies task
    ensures Running(task) && task.cell.log == old(task.cell.log) + Failure(reason)
  {
    task.EmitEvent(LogEvent(1, reason));
    task.EmitEvent(Event("failure.startup", Obj([Member("failure", Str("value_error"))])));
  }

  method ValidateKnownSettingsShallow(task: TaskImpl, members: seq<Member>) returns (ok: bool)
    requires Running(task)
    modifies task
    ensures Running(task) && task.cell.log == old(task.cell.log) + ShallowWarnings(members)
    ensures ok <==> Find(members, "name").Some? && WellTyped(members)
  {
    hide Running, Warning, WrongType, IsTyped, ExpectedType, KNOWN_SETTINGS;
    KnownTypes();
    ok := true;
    ghost var before := task.cell.log;
    assert before + [] == before;
    if Find(members, "name") == None {
      EmitSettingsWarning(task, MISSING_NAME);
      ok := false;
    }
    ghost var named := task.cell.log;
    assert named + [] == named;
    var k := 0;
    while k < |KNOWN_SETTINGS|
      invariant 0 <= k <= |KNOWN_SETTINGS| && Running(task)
      invariant task.cell.log == named + TypeWarnings(members, KNOWN_SETTINGS[..k])
      invariant ok <==> Find(members, "name").Some? && forall j :: 0 <= j < k ==> IsTyped(members, KNOWN_SETTINGS[j])
    {
      var key := KNOWN_SETTINGS[k];
      if !IsTyped(members, key) {
        EmitSettingsWarning(task, WrongType(key, ExpectedType(key).value));
        ok := false;
      }
      assert KNOWN_SETTINGS[..k + 1][..k] == KNOWN_SETTINGS[..k];
      k := k + 1;
    }
    assert KNOWN_SETTINGS[..k] == KNOWN_SETTINGS;
    TypedEverywhere(members);
  }

  lemma TypedEverywhere(members: seq<Member>)
    ensures WellTyped(members) <==> forall j :: 0 <= j < |KNOWN_SETTINGS| ==> IsTyped(members, KNOWN_SETTINGS[j])
  {
    KnownTypes();
    if forall j :: 0 <= j < |KNOWN_SETTINGS| ==> IsTyped(members, KNOWN_SETTINGS[j]) {
      forall key
        ensures IsTyped(members, key)
      {
        KnownSettingsHaveTypes(key);
      }
    }
  }

  method RemoveUnknownSettingsAndWarn(task: TaskImpl, members: seq<Member>) returns (known: seq<Member>)
    requires Running(task)
    modifies task
    ensures Running(task) && task.cell.log == old(task.cell.log) + UnknownWarnings(members)
    ensures known == KnownOnly(members)
  {
    hide Running, UnknownWarning, ExpectedType;
    known := [];
    ghost var before := task.cell.log;
    assert before + [] == before;
    var k := 0;
    while k < |members|
      invariant 0 <= k <= |members| && Running(task) && known == KnownOnly(members[..k])
      invariant task.cell.log == before + UnknownWarnings(members[..k])
    {
      assert members[..k + 1][..k] == members[..k];
      var key := members[k].key;
      if ExpectedType(key) == None {
        EmitUnknownWarning(task, key);
      } else {
        known := known + [members[k]];
      }
      k := k + 1;
    }
    assert members[..k] == members;
  }

  method EmitUnknownWarning(task: TaskImpl, key: string)
    requires Running(task)
    modifies task
    ensures Running(task) && task.cell.log == old(task.cell.log) + [UnknownWarning(key)]
  {
    EmitSettingsWarning(task, "found unknown setting key " + key + " which will be removed from the settings JSON.");
  }

  method EmitAll(task: TaskImpl, events: seq<Event>)
    requires Running(task) && |events| <= 1
    modifies task
    ensures Running(task) && task.cell.log == old(task.cell.log) + events
  {
    if events == [] {
      assert task.cell.log + [] == task.cell.log;
    } else {
      task.EmitEvent(events[0]);
      assert events == [events[0]];
    }
  }

  lemma {:induction false} OptionWarningsStop(options: seq<Member>, k: nat)
    requires k <= |options| && !AllMembers(options[..k], IsScalarOption)
    ensures OptionWarnings(options) == OptionWarnings(options[..k])
    decreases |options|
  {
    hide OptionWarning, IsScalarOption;
    if k < |options| {
      var n := |options| - 1;
      assert options[..n][..k] == options[..k];
      OptionWarningsStop(options[..n], k);
      var j :| 0 <= j < |options[..k]| && !IsScalarOption(options[..k][j].value);
      assert options[..n][j] == options[..k][j];
    } else {
      assert options[..k] == options;
    }
  }

  lemma NoOptions()
    ensures OptionWarnings([]) == [] && AllMembers([], IsScalarOption)
  {
  }

  lemma OptionNext(options: seq<Member>, k: nat)
    requires k < |options| && AllMembers(options[..k], IsScalarOption)
    ensures OptionWarnings(options[..k + 1]) == OptionWarnings(options[..k]) + OptionWarning(options[k])
    ensures AllMembers(options[..k + 1], IsScalarOption) <==> IsScalarOption(options[k].value)
    ensures !IsScalarOption(options[k].value) ==> !AllMembers(options, IsScalarOption)
  {
    hide OptionWarning, IsScalarOption;
    assert options[..k + 1][..k] == options[..k];
    assert forall j :: 0 <= j < k ==> options[..k][j] == options[..k + 1][j];
    assert options[..k + 1][k] == options[k];
  }

  /** The loop over the options, up to the first invalid one. */
  method ScanOptions(task: TaskImpl, options: seq<Member>) returns (ok: bool)
    requires Running(task)
    modifies task
    ensures Running(task) && task.cell.log == old(task.cell.log) + OptionWarnings(options)
    ensures ok <==> AllMembers(options, IsScalarOption)
  {
    hide Running, OptionWarning, OptionWarnings, IsScalarOption, AllMembers;
    ghost var before := task.cell.log;
    assert before + [] == before;
    NoOptions();
    var k := 0;
    while k < |options|
      invariant 0 <= k <= |options| && Running(task) && AllMembers(options[..k], IsScalarOption)
      invariant task.cell.log == before + OptionWarnings(options[..k])
    {
      OptionNext(options, k);
      EmitAll(task, OptionWarning(options[k]));
      if !IsScalarOption(options[k].value) {
        OptionWarningsStop(options, k + 1);
        return false;
      }
      k := k + 1;
    }
    assert options[..k] == options;
    return true;
  }

  method ScanAnnotations(annotations: seq<Member>) returns (ok: bool)
    ensures ok <==> AllMembers(annotations, IsAnnotation)
  {
    var k := 0;
    while k < |annotations|
      invariant 0 <= k <= |annotations| && forall j :: 0 <= j < k ==> IsAnnotation(annotations[j].value)
    {
      if !IsAnnotation(annotations[k].value) {
        return false;
      }
      k := k + 1;
    }
    return true;
  }

  /** Collects the strings of a list, unless something else is in it. */
  method CollectStrings(items: seq<Json>) returns (ok: bool, strings: seq<string>)
    ensures ok <==> AllStrings(items)
    ensures ok ==> |strings| == |items| && forall k :: 0 <= k < |items| ==> items[k] == Str(strings[k])
  {
    strings := [];
    var k := 0;
    while k < |items|
      invariant 0 <= k <= |items| && |strings| == k
      invariant forall j :: 0 <= j < k ==> items[j] == Str(strings[j])
    {
      if !items[k].Str? {
        return false, strings;
      }
      strings := strings + [items[k].s];
      k := k + 1;
    }
    return true, strings;
  }

  lemma {:induction false} DisabledWarningsStop(items: seq<Json>, k: nat)
    requires k < |items| && !items[k].Str?
    ensures DisabledWarnings(items) == DisabledWarnings(items[..k])
    decreases |items|
  {
    hide DisabledWarning;
    var n := |items| - 1;
    if k < n {
      assert items[..n][..k] == items[..k] && items[..n][k] == items[k];
      DisabledWarningsStop(items[..n], k);
    }
  }

  /** Masks out the disabled events. */
  method MaskEvents(task: TaskImpl, items: seq<Json>) returns (ok: bool, enabled: set<string>)
    requires Running(task)
    modifies task
    ensures Running(task) && task.cell.log == old(task.cell.log) + DisabledWarnings(items)
    ensures ok <==> AllStrings(items)
    ensures ok ==> enabled == KNOWN_EVENTS - DisabledSet(items)
  {
    hide Running, DisabledWarning, KNOWN_EVENTS;
    enabled := KNOWN_EVENTS;
    ghost var before := task.cell.log;
    assert before + [] == before;
    var k := 0;
    while k < |items|
      invariant 0 <= k <= |items| && Running(task) && AllStrings(items[..k])
      invariant task.cell.log == before + DisabledWarnings(items[..k])
      invariant enabled == KNOWN_EVENTS - DisabledSet(items[..k])
    {
      if !items[k].Str? {
        DisabledWarningsStop(items, k);
        return false, enabled;
      }
      assert items[..k + 1][..k] == items[..k];
      EmitAll(task, DisabledWarning(items[k]));
      DisabledSetStep(items, k);
      enabled := enabled - {items[k].s};
      k := k + 1;
    }
    assert items[..k] == items;
    return true, enabled;
  }

  lemma DisabledSetStep(items: seq<Json>, k: nat)
    requires k < |items| && items[k].Str?
    ensures KNOWN_EVENTS - DisabledSet(items[..k + 1]) == KNOWN_EVENTS - DisabledSet(items[..k]) - {items[k].s}
  {
    hide KNOWN_EVENTS;
    var a, b := items[..k], items[..k + 1];
    assert forall j :: 0 <= j < k ==> a[j] == b[j];
    forall s | s in DisabledSet(b)
      ensures s in DisabledSet(a) || s == items[k].s
    {
      var j :| 0 <= j < |b| && b[j].Str? && b[j].s in KNOWN_EVENTS && s == b[j].s;
      if j < k {
        assert a[j].s == s;
      }
    }
    forall s | s in DisabledSet(a)
      ensures s in DisabledSet(b)
    {
      var j :| 0 <= j < |a| && a[j].Str? && a[j].s in KNOWN_EVENTS && s == a[j].s;
      assert b[j].s == s;
    }
    assert items[k].s in KNOWN_EVENTS ==> b[k].s in DisabledSet(b);
  }

  /** The settings after unknown ones were removed are as good as before. */
  lemma RemovalKeepsMeaning(members: seq<Member>)
    requires DistinctKeys(members)
    ensures forall key :: ExpectedType(key).Some? ==> Find(KnownOnly(members), key) == Find(members, key)
  {
    hide ExpectedType, DistinctKeys, Find;
    forall key | ExpectedType(key).Some?
      ensures Find(KnownOnly(members), key) == Find(members, key)
    {
      RemovalKeepsKnown(members, key);
    }
  }

  lemma RemovalKeepsChecks(members: seq<Member>)
    requires DistinctKeys(members) && Find(members, "name").Some? && WellTyped(members)
    ensures var known := KnownOnly(members);
      && Find(known, "name").Some? && WellTyped(known)
      && (Configures(known) <==> Configures(members))
      && ConfigureWarnings(known) == ConfigureWarnings(members)
      && DisabledList(known) == DisabledList(members)
  {
    hide Find, KnownOnly;
    RemovalKeepsMeaning(members);
    var known := KnownOnly(members);
    forall key
      ensures IsTyped(known, key)
    {
      assert IsTyped(members, key);
    }
    assert ExpectedType("name").Some? && ExpectedType("options").Some? && ExpectedType("annotations").Some?;
    assert ExpectedType("inputs").Some? && ExpectedType("input_filepaths").Some?;
    assert ExpectedType("log_level").Some? && ExpectedType("disabled_events").Some?;
    SameChecks(members, known);
  }

  lemma SameChecks(a: seq<Member>, b: seq<Member>)
    requires WellTyped(a) && WellTyped(b) && Find(a, "name").Some?
    requires Find(a, "name") == Find(b, "name") && Find(a, "options") == Find(b, "options")
    requires Find(a, "annotations") == Find(b, "annotations") && Find(a, "inputs") == Find(b, "inputs")
    requires Find(a, "input_filepaths") == Find(b, "input_filepaths")
    requires Find(a, "log_level") == Find(b, "log_level") && Find(a, "disabled_events") == Find(b, "disabled_events")
    ensures Configures(a) <==> Configures(b)
    ensures ConfigureWarnings(a) == ConfigureWarnings(b) && DisabledList(a) == DisabledList(b)
  {
    hide Find, WellTyped, OptionWarnings, TASK_NAMES, AllMembers, AllStrings, LevelNumber;
  }

  /**
   * The part of startup between the shallow validation and the disabled events. Whether it
   * succeeds is decided by the values alone; only the options emit warnings.
   */
  method Configure(task: TaskImpl, members: seq<Member>) returns (ok: bool)
    requires Running(task) && Find(members, "name").Some? && WellTyped(members)
    modifies task
    ensures Running(task) && task.cell.log == old(task.cell.log) + ConfigureWarnings(members)
    ensures ok <==> Configures(members)
  {
    hide Running, OptionWarnings, TASK_NAMES, LevelNumber, IsScalarOption, IsAnnotation, WellTyped, Find;
    TypesOf(members);
    ghost var before := task.cell.log;
    assert before + [] == before;
    if Find(members, "name").value.s !in TASK_NAMES {
      return false;
    }
    ok := ScanOptions(task, MembersOf(members, "options"));
    if !ok {
      return;
    }
    ok := ScanAnnotations(MembersOf(members, "annotations"));
    if !ok {
      return;
    }
    var inputs;
    ok, inputs := CollectStrings(ItemsOf(members, "inputs"));
    if !ok {
      return;
    }
    ok, inputs := CollectStrings(ItemsOf(members, "input_filepaths"));
    if !ok {
      return;
    }
    return LevelOk(members);
  }

  /** The rest of task_run, once the shallow validation has passed. */
  method StartValidated(task: TaskImpl, members: seq<Member>, actions: seq<Action>) returns (started: bool)
    requires Running(task) && DistinctKeys(members) && Find(members, "name").Some? && WellTyped(members)
    modifies task
    ensures Running(task)
    ensures started <==> Configures(members) && AllStrings(DisabledList(members))
    ensures var warned := old(task.cell.log) + (UnknownWarnings(members) + ConfigureWarnings(members) + MaskWarnings(members));
      if started then task.cell.log == warned + RoutedAll(DisabledSet(DisabledList(members)), actions)
      else exists reason :: task.cell.log == warned + Failure(reason)
  {
    hide Running, Failure, UnknownWarnings, ConfigureWarnings, DisabledWarnings, RoutedAll, WellTyped, Find, KnownOnly;
    hide Configures, DistinctKeys, KNOWN_EVENTS;
    ghost var before := task.cell.log;
    var known := RemoveUnknownSettingsAndWarn(task, members);
    RemovalKeepsChecks(members);
    started := Configure(task, known);
    if !started {
      assert before + (UnknownWarnings(members) + ConfigureWarnings(members) + []) == task.cell.log;
      EmitSettingsFailure(task, "cannot configure the task");
      return;
    }
    TypesOf(known);
    started := MaskAndRun(task, ItemsOf(known, "disabled_events"), actions);
  }

  /** Masks out the disabled events, registers the handlers and lets the nettest go. */
  method MaskAndRun(task: TaskImpl, items: seq<Json>, actions: seq<Action>) returns (started: bool)
    requires Running(task)
    modifies task
    ensures Running(task)
    ensures started <==> AllStrings(items)
    ensures var warned := old(task.cell.log) + DisabledWarnings(items);
      if started then task.cell.log == warned + RoutedAll(DisabledSet(items), actions)
      else exists reason :: task.cell.log == warned + Failure(reason)
  {
    hide Running, Failure, DisabledWarnings, RoutedAll, KNOWN_EVENTS;
    var enabled;
    started, enabled := MaskEvents(task, items);
    if !started {
      EmitSettingsFailure(task, "invalid entry inside of disabled_events");
      return;
    }
    var logger := new Logger();
    logger.RegisterHandlers(enabled);
    assert KNOWN_EVENTS - enabled == DisabledSet(items);
    logger.Perform(task, actions, DisabledSet(items));
  }

  /**
   * task_run. `actions` is what the nettest does with its logger and `summary` the value of
   * its last event. The task starts exactly for acceptable settings; otherwise warnings are
   * followed by one error log and failure.startup, and nothing else.
   */
  method TaskRun(task: TaskImpl, settings: Json, actions: seq<Action>, summary: Json) returns (started: bool)
    requires Running(task)
    requires settings.Obj? ==> DistinctKeys(settings.members)
    modifies task
    ensures Running(task)
    ensures started <==> Accepts(settings)
    ensures var warned := old(task.cell.log) + Warnings(settings);
      if started then task.cell.log == warned +
        RoutedAll(DisabledSet(DisabledList(settings.members)),
                  [EmitEx("status.started", Obj([]))] + actions + [EmitEx("status.end", summary)])
      else exists reason :: task.cell.log == warned + Failure(reason)
  {
    hide Running, Failure, ShallowWarnings, UnknownWarnings, ConfigureWarnings, MaskWarnings, RoutedAll, WellTyped, Find;
    assert task.cell.log + [] == task.cell.log;
    if !settings.Obj? {
      EmitSettingsFailure(task, "invalid `settings` type");
      return false;
    }
    var ok := ValidateKnownSettingsShallow(task, settings.members);
    if !ok {
      EmitSettingsFailure(task, "failed to validate settings");
      return false;
    }
    NoShallowWarnings(settings.members);
    started := StartValidated(
      task, settings.members, [EmitEx("status.started", Obj([]))] + actions + [EmitEx("status.end", summary)]);
  }

  /** Shallow validation warns exactly when it fails. */
  lemma NoShallowWarnings(members: seq<Member>)
    ensures ShallowWarnings(members) == [] <==> Find(members, "name").Some? && WellTyped(members)
  {
    hide WellTyped, IsTyped, Find;
    KnownTypes();
    TypedEverywhere(members);
    NoTypeWarnings(members, KNOWN_SETTINGS);
  }

  lemma {:induction false} NoTypeWarnings(members: seq<Member>, keys: seq<string>)
    requires forall k :: 0 <= k < |keys| ==> ExpectedType(keys[k]).Some?
    ensures TypeWarnings(members, keys) == [] <==> forall k :: 0 <= k < |keys| ==> IsTyped(members, keys[k])
    decreases |keys|
  {
    hide IsTyped;
    if keys != [] {
      var n := |keys| - 1;
      NoTypeWarnings(members, keys[..n]);
      assert forall k :: 0 <= k < n ==> keys[..n][k] == keys[k];
    }
  }
}
