/**
 What a schedule document must satisfy before it is stored, declaratively, and
 the checking loops with their `seen` sets, proved to accept exactly that.
 */
module Validation {
  import opened ScheduleModel
  import opened Slugs

  // --- the declarative definition -----------------------------------------

  predicate IsSpace(c: char) {
    '\t' <= c <= '\r' || c == ' ' || c == '\U{85}' || c == '\U{A0}' || c == '\U{1680}'
    || '\U{2000}' <= c <= '\U{200A}' || c == '\U{2028}' || c == '\U{2029}'
    || c == '\U{202F}' || c == '\U{205F}' || c == '\U{3000}'
  }

  predicate Blank(s: string) { forall i :: 0 <= i < |s| ==> IsSpace(s[i]) }

  predicate ValidMode(m: string) {
    m == MODE_HEAT || m == MODE_COOL || m == MODE_AUTO || m == MODE_DRY || m == MODE_FAN_ONLY
  }

  predicate ValidIndoor(a: Action) {
    && (a.power == POWER_ON || a.power == POWER_OFF)
    && (a.power == POWER_ON ==> ValidMode(a.hvacMode))
    && (a.setpoint.Some? ==> !a.setpoint.value.Below(5) && !a.setpoint.value.Above(60))
    && a.outdoorSilent.None? && a.econo.None? && a.demand.None?
  }

  predicate ValidOutdoor(a: Action) {
    && a.power == "" && a.hvacMode == "" && a.setpoint.None?
    && (a.outdoorSilent.Some? || a.econo.Some? || a.demand.Some?)
    && (a.demand.Some? ==> !a.demand.value.Below(0) && !a.demand.value.Above(100))
  }

  predicate ValidAction(kind: string, a: Action) {
    if kind == TYPE_OUTDOOR then ValidOutdoor(a) else ValidIndoor(a)
  }

  predicate ValidTarget(kind: string, t: Target) {
    if kind == TYPE_OUTDOOR then t.outdoorSerial != "" && t.deviceID == ""
    else t.deviceID != "" && t.outdoorSerial == ""
  }

  ghost predicate ValidDays(days: seq<string>) {
    && days != []
    && (forall i :: 0 <= i < |days| ==> DayIndex(days[i]).Some?)
    && (forall i, j :: 0 <= i < j < |days| ==> days[i] != days[j])
  }

  predicate ValidTimes(b: Block) {
    && ParseClock(b.start, false).Ok?
    && ParseClock(b.end, true).Ok?
    && ParseClock(b.start, false) != ParseClock(b.end, true)
  }

  ghost predicate ValidBlock(kind: string, b: Block) {
    && b.id != ""
    && ValidDays(b.days)
    && ValidTimes(b)
    && ValidAction(kind, b.action)
    && (b.onEnd == "" || b.onEnd == "none" || b.onEnd == "off")
  }

  ghost predicate ValidSchedule(s: Schedule) {
    && s.id != "" && s.id != SCHEDULER_DEVICE_ID && IsSlug(s.id)
    && !Blank(s.name)
    && (s.kind == "" || s.kind == TYPE_INDOOR || s.kind == TYPE_OUTDOOR)
    && s.targets != []
    && (forall i :: 0 <= i < |s.targets| ==> ValidTarget(s.Kind(), s.targets[i]))
    && (forall i :: 0 <= i < |s.blocks| ==> ValidBlock(s.Kind(), s.blocks[i]))
    && (forall i, j :: 0 <= i < j < |s.blocks| ==> s.blocks[i].id != s.blocks[j].id)
  }

  ghost predicate Valid(d: Document) {
    && (d.version == 0 || d.version == SCHEMA_VERSION)
    && (forall i :: 0 <= i < |d.schedules| ==> ValidSchedule(d.schedules[i]))
    && (forall i, j :: 0 <= i < j < |d.schedules| ==> d.schedules[i].id != d.schedules[j].id)
  }

  /** A schedule whose type is not outdoor, as one of an older file without a
      type, is held to the rules of an indoor one. */
  lemma UntypedIsIndoor(s: Schedule)
    requires ValidSchedule(s)
    ensures s.kind != "outdoor" ==>
      && (forall t :: t in s.targets ==> t.deviceID != "" && t.outdoorSerial == "")
      && (forall b :: b in s.blocks ==> ValidIndoor(b.action))
    ensures s.kind == "outdoor" ==>
      && (forall t :: t in s.targets ==> t.outdoorSerial != "" && t.deviceID == "")
      && (forall b :: b in s.blocks ==> ValidOutdoor(b.action))
  {
    hide ValidIndoor, ValidOutdoor, ValidDays, ValidTimes;
    assert forall b :: b in s.blocks ==> ValidBlock(s.Kind(), b);
  }

  // --- the checks ---------------------------------------------------------

  datatype Issue =
    | BadVersion
    | NoID | ReservedID | NotSlug | DuplicateID
    | NoName | BadType | NoTarget | NoDevice | NoSerial | WrongDevice | WrongSerial
    | NoBlockID | DuplicateBlockID
    | NoDays | UnknownDay | DuplicateDay
    | BadStart | BadEnd | EmptySpan
    | BadPower | BadMode | BadSetpoint | OutdoorFields | IndoorFields | NoSetting | BadDemand | BadOnEnd

  function When(bad: bool, issue: Issue): seq<Issue> { if bad then [issue] else [] }

  method DayIssues(days: seq<string>) returns (issues: seq<Issue>)
    ensures issues == [] <==> ValidDays(days)
  {
    issues := When(days == [], NoDays);
    var seen: set<string> := {};
    for i := 0 to |days|
      invariant issues == [] ==> days != [] && seen == set k | 0 <= k < i :: days[k]
      invariant issues == [] <==>
        && days != []
        && (forall k :: 0 <= k < i ==> DayIndex(days[k]).Some?)
        && (forall j, k :: 0 <= j < k < i ==> days[j] != days[k])
    {
      hide DayIndex;
      if DayIndex(days[i]).None? {
        issues := issues + [UnknownDay];
      } else {
        issues := issues + When(days[i] in seen, DuplicateDay);
        seen := seen + {days[i]};
      }
    }
  }

  function TimeIssues(b: Block): (issues: seq<Issue>)
    ensures issues == [] <==> ValidTimes(b)
  {
    var s, e := ParseClock(b.start, false), ParseClock(b.end, true);
    When(s.Err?, BadStart) + When(e.Err?, BadEnd) + When(s.Ok? && e.Ok? && s == e, EmptySpan)
  }

  ghost predicate Between(v: Number, lo: nat, hi: nat) {
    lo * Pow10(|v.fraction|) <= Scaled(v) <= hi * Pow10(|v.fraction|)
  }

  /** An indoor action is on with a known mode, or off, with a setpoint from 5
      to 60; an outdoor one has a setting, and a demand from 0 to 100; neither
      has fields of the other. */
  lemma ValidActionExact(kind: string, a: Action)
    ensures ValidAction(kind, a) <==>
      if kind == "outdoor" then
        && a.power == "" && a.hvacMode == "" && a.setpoint.None?
        && !(a.outdoorSilent.None? && a.econo.None? && a.demand.None?)
        && (a.demand.Some? ==> Between(a.demand.value, 0, 100))
      else
        && (a.power == "off" || (a.power == "on" && a.hvacMode in {"heat", "cool", "auto", "dry", "fan_only"}))
        && a.outdoorSilent.None? && a.econo.None? && a.demand.None?
        && (a.setpoint.Some? ==> Between(a.setpoint.value, 5, 60))
  {
    if a.setpoint.Some? {
      BoundsExact(a.setpoint.value, 5);
      BoundsExact(a.setpoint.value, 60);
    }
    if a.demand.Some? {
      BoundsExact(a.demand.value, 0);
      BoundsExact(a.demand.value, 100);
    }
    hide Decimal.Below, Decimal.Above, Scaled, Pow10;
  }

  const MIN_SETPOINT := 5
  const MAX_SETPOINT := 60
  const MAX_DEMAND := 100

  function IndoorIssues(a: Action): (issues: seq<Issue>)
    ensures issues == [] <==> ValidIndoor(a)
  {
    var modes := ["auto", "cool", "dry", "fan_only", "heat"];
    assert forall i :: 0 <= i < 5 ==> ValidMode(modes[i]);
    When(a.power != "on" && a.power != "off", BadPower)
    + When(a.power == "on" && a.hvacMode !in modes, BadMode)
    + When(a.setpoint.Some? && (a.setpoint.value.Below(MIN_SETPOINT) || a.setpoint.value.Above(MAX_SETPOINT)), BadSetpoint)
    + When(a.outdoorSilent.Some? || a.econo.Some? || a.demand.Some?, OutdoorFields)
  }

  function OutdoorIssues(a: Action): (issues: seq<Issue>)
    ensures issues == [] <==> ValidOutdoor(a)
  {
    When(a.power != "" || a.hvacMode != "" || a.setpoint.Some?, IndoorFields)
    + When(a.outdoorSilent.None? && a.econo.None? && a.demand.None?, NoSetting)
    + When(a.demand.Some? && (a.demand.value.Below(0) || a.demand.value.Above(MAX_DEMAND)), BadDemand)
  }

  function ActionIssues(kind: string, a: Action): (issues: seq<Issue>)
    ensures issues == [] <==> ValidAction(kind, a)
  {
    if kind == TYPE_OUTDOOR then OutdoorIssues(a) else IndoorIssues(a)
  }

  function TargetIssues(kind: string, t: Target): (issues: seq<Issue>)
    ensures issues == [] <==> ValidTarget(kind, t)
  {
    if kind == TYPE_OUTDOOR then When(t.outdoorSerial == "", NoSerial) + When(t.deviceID != "", WrongDevice)
    else When(t.deviceID == "", NoDevice) + When(t.outdoorSerial != "", WrongSerial)
  }

  method TargetsIssues(kind: string, targets: seq<Target>) returns (issues: seq<Issue>)
    ensures issues == [] <==> targets != [] && forall i :: 0 <= i < |targets| ==> ValidTarget(kind, targets[i])
  {
    hide ValidTarget, TargetIssues;
    issues := When(targets == [], NoTarget);
    for j := 0 to |targets|
      invariant issues == [] <==> targets != [] && forall i :: 0 <= i < j ==> ValidTarget(kind, targets[i])
    {
      var more := TargetIssues(kind, targets[j]);
      assert issues + more == [] <==> issues == [] && more == [];
      issues := issues + more;
    }
  }

  method BlockIssues(kind: string, b: Block, seen: set<string>) returns (issues: seq<Issue>)
    ensures issues == [] <==> ValidBlock(kind, b) && b.id !in seen
  {
    hide ValidDays, ValidTimes, ValidAction;
    var days := DayIssues(b.days);
    issues := When(b.id == "", NoBlockID) + When(b.id in seen, DuplicateBlockID)
      + days + TimeIssues(b) + ActionIssues(kind, b.action)
      + When(b.onEnd != "" && b.onEnd != "none" && b.onEnd != "off", BadOnEnd);
  }

  method BlocksIssues(kind: string, blocks: seq<Block>) returns (issues: seq<Issue>)
    ensures issues == [] <==>
      && (forall i :: 0 <= i < |blocks| ==> ValidBlock(kind, blocks[i]))
      && (forall i, j :: 0 <= i < j < |blocks| ==> blocks[i].id != blocks[j].id)
  {
    hide ValidBlock;
    issues := [];
    var seen: set<string> := {};
    for n := 0 to |blocks|
      invariant seen == set k | 0 <= k < n :: blocks[k].id
      invariant issues == [] <==>
        && (forall i :: 0 <= i < n ==> ValidBlock(kind, blocks[i]))
        && (forall i, j :: 0 <= i < j < n ==> blocks[i].id != blocks[j].id)
    {
      var more := BlockIssues(kind, blocks[n], seen);
      issues := issues + more;
      seen := seen + {blocks[n].id};
    }
  }

  method ScheduleIssues(prep: string -> string, s: Schedule, seen: set<string>) returns (issues: seq<Issue>)
    requires KeepsSlugs(prep)
    ensures issues == [] <==> ValidSchedule(s) && s.id !in seen
  {
    hide ValidBlock, ValidTarget, IsSlug, Blank, SlugOf, KeepsSlugs;
    SlugFixpoint(prep, s.id);
    issues := When(s.id == "", NoID) + When(s.id == SCHEDULER_DEVICE_ID, ReservedID)
      + When(s.id != "" && SlugOf(prep, s.id) != s.id, NotSlug) + When(s.id in seen, DuplicateID)
      + When(Blank(s.name), NoName)
      + When(s.kind != "" && s.kind != TYPE_INDOOR && s.kind != TYPE_OUTDOOR, BadType);
    var targets := TargetsIssues(s.Kind(), s.targets);
    var blocks := BlocksIssues(s.Kind(), s.blocks);
    issues := issues + targets + blocks;
  }

  /** A document has no issues exactly when it is valid. */
  method Validate(prep: string -> string, d: Document) returns (issues: seq<Issue>)
    requires KeepsSlugs(prep)
    ensures issues == [] <==> Valid(d)
  {
    hide ValidSchedule;
    issues := When(d.version != 0 && d.version != SCHEMA_VERSION, BadVersion);
    var seen: set<string> := {};
    for n := 0 to |d.schedules|
      invariant seen == set k | 0 <= k < n :: d.schedules[k].id
      invariant issues == [] <==>
        && (d.version == 0 || d.version == SCHEMA_VERSION)
        && (forall i :: 0 <= i < n ==> ValidSchedule(d.schedules[i]))
        && (forall i, j :: 0 <= i < j < n ==> d.schedules[i].id != d.schedules[j].id)
    {
      var more := ScheduleIssues(prep, d.schedules[n], seen);
      issues := issues + more;
      seen := seen + {d.schedules[n].id};
    }
  }
}
