/**
 The persisted schedule document and the pure readings of it: clock times,
 block lengths, target keys. Strings stay strings, as in the stored JSON.
 */
module ScheduleModel {
  import opened Options
  import opened Text

  const SLOT_MINUTES := 30
  const SLOTS_PER_DAY := 48
  const SLOTS_PER_WEEK := 336
  const MINUTES_PER_DAY := 1440
  const SCHEMA_VERSION := 1
  const SCHEDULER_DEVICE_ID := "scheduler"

  const POWER_ON := "on"
  const POWER_OFF := "off"
  const MODE_HEAT := "heat"
  const MODE_COOL := "cool"
  const MODE_AUTO := "auto"
  const MODE_DRY := "dry"
  const MODE_FAN_ONLY := "fan_only"
  const TYPE_INDOOR := "indoor"
  const TYPE_OUTDOOR := "outdoor"

  /** A finite float64, held as the shortest decimal that denotes it. */
  datatype Decimal = Decimal(negative: bool, whole: nat, fraction: string) {
    predicate Canonical() {
      && (forall i :: 0 <= i < |fraction| ==> IsDigit(fraction[i]))
      && (fraction != [] ==> fraction[|fraction| - 1] != '0')
    }

    // The value is less than n (a negative zero is not less than 0).
    predicate Below(n: nat) {
      if negative then n > 0 || whole > 0 || fraction != [] else whole < n
    }

    predicate Above(n: nat) {
      !negative && (whole > n || (whole == n && fraction != []))
    }

    // strconv.FormatFloat(v, 'f', -1, 64)
    function Render(): string {
      (if negative then "-" else "") + Itoa(whole) + (if fraction == [] then "" else "." + fraction)
    }
  }

  type Number = d: Decimal | d.Canonical() witness Decimal(false, 0, "")

  lemma RenderedValues()
    ensures Decimal(false, 21, "5").Render() == "21.5" && Decimal(false, 20, "").Render() == "20"
    ensures Decimal(true, 0, "25").Render() == "-0.25"
  {
    assert Itoa(21) == [Digit(2), Digit(1)] && Itoa(20) == [Digit(2), Digit(0)] && Itoa(0) == [Digit(0)];
    assert "" + "21" + "." + "5" == "21.5" && "-" + "0" + "." + "25" == "-0.25";
  }

  function Pow10(k: nat): nat { if k == 0 then 1 else 10 * Pow10(k - 1) }

  // The value in units of its last digit.
  function Scaled(d: Number): int {
    var v: int := d.whole * Pow10(|d.fraction|) + Value(d.fraction);
    if d.negative then -v else v
  }

  lemma {:induction false} FractionBelowOne(f: string)
    requires forall i :: 0 <= i < |f| ==> IsDigit(f[i])
    ensures Value(f) < Pow10(|f|)
  {
    if f == [] {
    } else {
      FractionBelowOne(f[..|f| - 1]);
    }
  }

  lemma {:induction false} Times(a: nat, b: nat, p: nat)
    ensures a < b ==> a * p + p <= b * p
    decreases b
  {
    if a + 1 >= b {
    } else {
      Times(a, b - 1, p);
      assert b * p == (b - 1) * p + p;
    }
  }

  /** The bounds of a setpoint or demand compare its exact value. */
  lemma BoundsExact(d: Number, n: nat)
    ensures d.Below(n) <==> Scaled(d) < n * Pow10(|d.fraction|)
    ensures d.Above(n) <==> Scaled(d) > n * Pow10(|d.fraction|)
  {
    var p, v := Pow10(|d.fraction|), Value(d.fraction);
    FractionBelowOne(d.fraction);
    assert d.fraction != [] ==> v > 0 && v < p;
    assert d.fraction == [] ==> v == 0 && p == 1;
    Times(d.whole, n, p);
    Times(n, d.whole, p);
    Times(0, d.whole, p);
    Times(0, n, p);
    hide Pow10, Value;
  }

  datatype Action = Action(
    power: string,
    hvacMode: string,
    setpoint: Option<Number>,
    outdoorSilent: Option<bool>,
    econo: Option<bool>,
    demand: Option<Number>)

  datatype Block = Block(
    id: string,
    name: string,
    days: seq<string>,
    start: string,
    end: string,
    action: Action,
    onEnd: string)
  {
    function StartMinute(): (m: nat)
      ensures m <= MINUTES_PER_DAY - SLOT_MINUTES && m % SLOT_MINUTES == 0
    {
      MinuteOf(start, false)
    }

    // Length in minutes. An end that is not after the start lies in the next day.
    function Duration(): (m: nat)
      ensures 0 < m <= MINUTES_PER_DAY && m % SLOT_MINUTES == 0
    {
      var d := MinuteOf(end, true) - MinuteOf(start, false);
      GridDifference(MinuteOf(end, true), MinuteOf(start, false));
      if d <= 0 then d + MINUTES_PER_DAY else d
    }
  }

  // The minute at which a block starts and the one at which it ends, on or
  // after midnight; a time that cannot be read counts as midnight.
  lemma BlockTimes(b: Block)
    ensures ParseClock(b.start, false).Ok? ==> b.StartMinute() == ParseClock(b.start, false).value
    ensures ParseClock(b.start, false).Err? ==> b.StartMinute() == 0
    ensures 0 < b.Duration() <= MINUTES_PER_DAY
    ensures var end := if ParseClock(b.end, true).Ok? then ParseClock(b.end, true).value else 0;
      b.StartMinute() + b.Duration() == end || b.StartMinute() + b.Duration() == end + MINUTES_PER_DAY
  {
  }

  lemma GridDifference(e: int, s: int)
    requires e % SLOT_MINUTES == 0 && s % SLOT_MINUTES == 0
    ensures (e - s) % SLOT_MINUTES == 0 && (e - s + MINUTES_PER_DAY) % SLOT_MINUTES == 0
  {
    var i, j := e / SLOT_MINUTES, s / SLOT_MINUTES;
    assert e - s == SLOT_MINUTES * (i - j);
    assert e - s + MINUTES_PER_DAY == SLOT_MINUTES * (i - j + SLOTS_PER_DAY);
  }

  datatype Target = Target(deviceID: string, embeddedID: string, outdoorSerial: string) {
    function Key(): string {
      if outdoorSerial != "" then "outdoor:" + outdoorSerial else deviceID
    }
  }

  datatype Schedule = Schedule(
    id: string,
    name: string,
    kind: string,
    enabled: bool,
    priority: int,
    targets: seq<Target>,
    blocks: seq<Block>)
  {
    // The empty type of an older file reads as indoor.
    function Kind(): string {
      if kind == TYPE_OUTDOOR then TYPE_OUTDOOR else TYPE_INDOOR
    }

    predicate Applies(key: string) {
      exists i :: 0 <= i < |targets| && targets[i].Key() == key
    }
  }

  datatype Document = Document(version: int, revision: int, timezone: string, schedules: seq<Schedule>)

  // --- weekdays and clock times -------------------------------------------

  const WEEKDAYS := ["mon", "tue", "wed", "thu", "fri", "sat", "sun"]

  function DayIndex(key: string): (i: Option<nat>)
    ensures i.Some? ==> i.value < 7 && WEEKDAYS[i.value] == key
  {
    DayIndexFrom(key, 0)
  }

  function DayIndexFrom(key: string, i: nat): (r: Option<nat>)
    requires i <= 7
    ensures r.Some? ==> r.value < 7 && WEEKDAYS[r.value] == key
    decreases 7 - i
  {
    if i == 7 then None
    else if WEEKDAYS[i] == key then Some(i)
    else DayIndexFrom(key, i + 1)
  }

  // Every weekday has its index, and nothing else has one.
  lemma DayIndexOf(i: nat)
    requires i < 7
    ensures DayIndex(WEEKDAYS[i]) == Some(i)
  {
    DayIndexReached(i, 0);
  }

  lemma {:induction false} DayIndexReached(i: nat, from: nat)
    requires from <= i < 7
    ensures DayIndexFrom(WEEKDAYS[i], from) == Some(i)
    decreases i - from
  {
    if from == i {
    } else {
      assert WEEKDAYS[from] != WEEKDAYS[i];
      DayIndexReached(i, from + 1);
    }
  }

  datatype ClockError = NotClock | DayEndNotAllowed | NotTimeOfDay | OffGrid

  function DigitValue(c: char): (n: nat)
    requires IsDigit(c)
    ensures n < 10 && Digit(n) == c
  {
    c as int - '0' as int
  }

  // strconv.Atoi on two characters: two digits, or a sign and one digit.
  function AtoiTwo(c0: char, c1: char): (v: Option<int>)
    ensures v.Some? ==> -10 < v.value < 100
  {
    if !IsDigit(c1) then None
    else if IsDigit(c0) then Some(10 * DigitValue(c0) + DigitValue(c1))
    else if c0 == '+' then Some(DigitValue(c1))
    else if c0 == '-' then
      var v: int := DigitValue(c1);
      Some(-v)
    else None
  }

  function ParseClock(s: string, allow24: bool): (r: Result<nat, ClockError>)
    ensures r.Ok? ==> r.value <= MINUTES_PER_DAY && r.value % SLOT_MINUTES == 0
    ensures r.Ok? && !allow24 ==> r.value < MINUTES_PER_DAY
  {
    if |s| != 5 || s[2] != ':' then Err(NotClock)
    else
      match (AtoiTwo(s[0], s[1]), AtoiTwo(s[3], s[4]))
      case (Some(h), Some(m)) =>
        if h == 24 && m == 0 then
          if allow24 then Ok(MINUTES_PER_DAY) else Err(DayEndNotAllowed)
        else if h < 0 || h > 23 || m < 0 || m > 59 then Err(NotTimeOfDay)
        else if m % SLOT_MINUTES != 0 then Err(OffGrid)
        else Ok(h * 60 + m)
      case _ => Err(NotClock)
  }

  // The callers that ignore the parse error read minute 0.
  function MinuteOf(s: string, allow24: bool): (m: nat)
    ensures m <= MINUTES_PER_DAY && m % SLOT_MINUTES == 0
    ensures !allow24 ==> m < MINUTES_PER_DAY
  {
    match ParseClock(s, allow24)
    case Ok(m) => m
    case Err(_) => 0
  }

  function TwoDigits(n: nat): string
    requires n < 100
  {
    [Digit(n / 10), Digit(n % 10)]
  }

  function FormatClock(minute: int): string {
    if minute == MINUTES_PER_DAY then "24:00"
    else
      var m := minute % MINUTES_PER_DAY;
      TwoDigits(m / 60) + ":" + TwoDigits(m % 60)
  }

  // Formatting is a right inverse of parsing on the grid: it picks the one
  // spelling without signs among all those that parse to the same minute.
  lemma ParseFormat(m: nat)
    requires m <= MINUTES_PER_DAY && m % SLOT_MINUTES == 0
    ensures ParseClock(FormatClock(m), true) == Ok(m)
    ensures m < MINUTES_PER_DAY ==> ParseClock(FormatClock(m), false) == Ok(m)
  {
    if m == MINUTES_PER_DAY {
      assert FormatClock(m) == ['2', '4', ':', '0', '0'];
    } else {
      hide TwoDigits, ParseClock;
      GridMinute(m);
      assert m % MINUTES_PER_DAY == m;
      ParseTwoDigits(m / 60, m % 60);
    }
  }

  lemma ParseTwoDigits(h: nat, q: nat)
    requires h < 24 && (q == 0 || q == 30)
    ensures forall allow24 :: ParseClock(TwoDigits(h) + ":" + TwoDigits(q), allow24) == Ok(h * 60 + q)
  {
    var s := TwoDigits(h) + ":" + TwoDigits(q);
    assert s[0] == Digit(h / 10) && s[1] == Digit(h % 10) && s[3] == Digit(q / 10) && s[4] == Digit(q % 10);
    assert AtoiTwo(s[0], s[1]) == Some(h) && AtoiTwo(s[3], s[4]) == Some(q);
  }

  // Parsing then formatting gives the text back exactly when it spells no sign.
  lemma FormatParse(s: string)
    requires ParseClock(s, true).Ok?
    ensures FormatClock(ParseClock(s, true).value) == s <==> IsDigit(s[0]) && IsDigit(s[3])
  {
    var h, q := ClockParts(s);
    AtoiDigits(s[0], s[1], h);
    AtoiDigits(s[3], s[4], q);
    assert s == [s[0], s[1], ':', s[3], s[4]];
    hide ParseClock, FormatClock, AtoiTwo;
    if h == 24 {
      assert FormatClock(MINUTES_PER_DAY) == [Digit(2), Digit(4), ':', Digit(0), Digit(0)] by { MidnightText(); }
    } else {
      FormatHourMinute(h, q);
    }
  }

  lemma MidnightText()
    ensures FormatClock(MINUTES_PER_DAY) == [Digit(2), Digit(4), ':', Digit(0), Digit(0)]
  {
    assert FormatClock(MINUTES_PER_DAY) == ['2', '4', ':', '0', '0'];
  }

  lemma ClockParts(s: string) returns (h: nat, q: nat)
    requires ParseClock(s, true).Ok?
    ensures |s| == 5 && s[2] == ':' && AtoiTwo(s[0], s[1]) == Some(h) && AtoiTwo(s[3], s[4]) == Some(q)
    ensures h <= 24 && q < 60 && (h == 24 ==> q == 0) && ParseClock(s, true).value == h * 60 + q
  {
    hide AtoiTwo;
    h, q := AtoiTwo(s[0], s[1]).value, AtoiTwo(s[3], s[4]).value;
  }

  // A two-character number is spelled by its digits or with a sign.
  lemma AtoiDigits(c0: char, c1: char, v: nat)
    requires AtoiTwo(c0, c1) == Some(v)
    ensures v < 100 && c1 == Digit(v % 10) && (IsDigit(c0) <==> c0 == Digit(v / 10))
  {
  }

  // Two accepted texts with a sign, which formatting spells without one.
  lemma SignedClock()
    ensures ParseClock("+1:00", false) == Ok(60) && FormatClock(60) == "01:00" != "+1:00"
    ensures ParseClock("24:-0", true) == Ok(MINUTES_PER_DAY) && FormatClock(MINUTES_PER_DAY) == "24:00" != "24:-0"
  {
    assert AtoiTwo('+', '1') == Some(1) && AtoiTwo('0', '0') == Some(0);
    assert AtoiTwo('2', '4') == Some(24) && AtoiTwo('-', '0') == Some(0);
    FormatHourMinute(1, 0);
    assert [Digit(0), Digit(1), ':', Digit(0), Digit(0)] == "01:00";
  }

  lemma FormatHourMinute(h: nat, q: nat)
    requires h < 24 && q < 60
    ensures FormatClock(h * 60 + q) == [Digit(h / 10), Digit(h % 10), ':', Digit(q / 10), Digit(q % 10)]
  {
    HourMinute(h, q);
    assert (h * 60 + q) % MINUTES_PER_DAY == h * 60 + q;
  }

  lemma HourMinute(h: nat, q: nat)
    requires q < 60
    ensures (h * 60 + q) / 60 == h && (h * 60 + q) % 60 == q
  {
    var m := h * 60 + q;
    var d, r := m / 60, m % 60;
    assert m == 60 * d + r && 60 * (d - h) == q - r;
  }

  lemma GridMinute(m: nat)
    requires m % SLOT_MINUTES == 0
    ensures m % 60 == 0 || m % 60 == 30
  {
    var h, q := m / 60, m % 60;
    assert m == 60 * h + q && m == 30 * (m / 30);
    assert q == 30 * (m / 30 - 2 * h);
  }

  // --- target keys --------------------------------------------------------

  ghost predicate IsTargetKey(d: Document, key: string) {
    key != "" && exists i, t :: 0 <= i < |d.schedules| && t in d.schedules[i].targets && t.Key() == key
  }

  // Every key any schedule refers to, sorted, each once.
  method TargetKeys(d: Document) returns (out: seq<string>)
    ensures Ascending(out)
    ensures forall key :: key in out <==> IsTargetKey(d, key)
  {
    var seen: set<string> := {};
    for i := 0 to |d.schedules|
      invariant forall key :: key in seen <==>
        key != "" && exists a, t :: 0 <= a < i && t in d.schedules[a].targets && t.Key() == key
    {
      var targets := d.schedules[i].targets;
      ghost var before := seen;
      for j := 0 to |targets|
        invariant forall key :: key in seen <==>
          key in before || (key != "" && exists b :: 0 <= b < j && targets[b].Key() == key)
      {
        var key := targets[j].Key();
        if key != "" && key !in seen {
          seen := seen + {key};
        }
      }
    }
    out := SortSet(seen);
  }
}
