/**
 The wall clock against the ring, in linear time: an instant is a number of
 nanoseconds since some Monday 00:00 of the schedule's zone.
 */
module Clock {
  import opened ScheduleModel
  import opened Ring

  const SECOND := 1_000_000_000
  const MINUTE := 60 * SECOND
  const SLOT := SLOT_MINUTES * MINUTE
  const DAY := 24 * 60 * MINUTE
  const WEEK := 7 * DAY

  // Monday is day 0.
  function Weekday(t: int): (d: nat)
    ensures d < 7
  {
    (t / DAY) % 7
  }

  function SlotAt(t: int): Slot {
    Weekday(t) * SLOTS_PER_DAY + ((t % DAY) / MINUTE) / SLOT_MINUTES
  }

  // The first time at or after `from` that the slot starts.
  function SlotStart(slot: Slot, from: int): int {
    var delta := (slot / SLOTS_PER_DAY - Weekday(from) + 7) % 7;
    var t := (from / DAY + delta) * DAY + (slot % SLOTS_PER_DAY) * SLOT_MINUTES * MINUTE;
    if t < from then t + WEEK else t
  }

  // The last time at or before `from` that the slot started.
  function SlotStartBefore(slot: Slot, from: int): int {
    var t := SlotStart(slot, from);
    if t > from then t - WEEK else t
  }

  // The number of the half-hour that contains t, counted without wrapping.
  function Index(t: int): int { t / SLOT }

  predicate Starts(slot: Slot, t: int) {
    t % SLOT == 0 && SlotAt(t) == slot
  }

  // --- the slot of an instant ---------------------------------------------

  lemma SlotAtIndex(t: int)
    ensures SlotAt(t) == Index(t) % SLOTS_PER_WEEK
  {
    var q, r := t / DAY, t % DAY;
    IndexInDay(q, r);
    MinuteSlot(r);
    DaysInWeek(q, r / SLOT);
    SplitDay(t);
  }

  lemma SplitDay(t: int)
    ensures t == DAY * (t / DAY) + t % DAY
  {
  }

  lemma IndexInDay(q: int, r: int)
    requires 0 <= r < DAY
    ensures (DAY * q + r) / SLOT == SLOTS_PER_DAY * q + r / SLOT && 0 <= r / SLOT < SLOTS_PER_DAY
  {
    var t := DAY * q + r;
    assert t == SLOT * (SLOTS_PER_DAY * q + r / SLOT) + r % SLOT;
    SlotQuotient(t, SLOTS_PER_DAY * q + r / SLOT, r % SLOT);
  }

  lemma MinuteSlot(r: int)
    requires 0 <= r < DAY
    ensures (r / MINUTE) / SLOT_MINUTES == r / SLOT
  {
    var m := r / MINUTE;
    var s := m / SLOT_MINUTES;
    assert r == SLOT * s + (MINUTE * (m % SLOT_MINUTES) + r % MINUTE);
    SlotQuotient(r, s, MINUTE * (m % SLOT_MINUTES) + r % MINUTE);
  }

  lemma DaysInWeek(q: int, s: int)
    requires 0 <= s < SLOTS_PER_DAY
    ensures (SLOTS_PER_DAY * q + s) % SLOTS_PER_WEEK == SLOTS_PER_DAY * (q % 7) + s
  {
    var w, d := q / 7, q % 7;
    LapQuotient(SLOTS_PER_DAY * q + s, w, SLOTS_PER_DAY * d + s);
  }

  lemma SlotQuotient(t: int, q: int, r: int)
    requires 0 <= r < SLOT && t == SLOT * q + r
    ensures t / SLOT == q && t % SLOT == r
  {
    var d, m := t / SLOT, t % SLOT;
    assert t == SLOT * d + m && SLOT * (d - q) == r - m;
  }

  lemma LapQuotient(t: int, q: int, r: int)
    requires 0 <= r < SLOTS_PER_WEEK && t == SLOTS_PER_WEEK * q + r
    ensures t / SLOTS_PER_WEEK == q && t % SLOTS_PER_WEEK == r
  {
    var d, m := t / SLOTS_PER_WEEK, t % SLOTS_PER_WEEK;
    assert t == SLOTS_PER_WEEK * d + m && SLOTS_PER_WEEK * (d - q) == r - m;
  }

  // --- slot starts --------------------------------------------------------

  lemma StartsIndex(slot: Slot, k: int)
    ensures Starts(slot, SLOT * k) <==> k % SLOTS_PER_WEEK == slot
  {
    SlotQuotient(SLOT * k, k, 0);
    SlotAtIndex(SLOT * k);
  }

  // Two starts of one slot are whole weeks apart.
  lemma StartsApart(slot: Slot, t: int, u: int)
    requires Starts(slot, t) && Starts(slot, u) && t < u
    ensures u - t >= WEEK
  {
    SlotAtIndex(t);
    SlotAtIndex(u);
    var i, j := Index(t), Index(u);
    assert t == SLOT * i && u == SLOT * j;
    assert j - i == SLOTS_PER_WEEK * (j / SLOTS_PER_WEEK - i / SLOTS_PER_WEEK);
  }

  lemma DayReached(q: int, day: nat)
    requires day < 7
    ensures (q + (day - q % 7 + 7) % 7) % 7 == day
  {
  }

  // The start the program computes, as a half-hour number.
  lemma SlotStartIndex(slot: Slot, from: int) returns (k: int)
    ensures SlotStart(slot, from) == SLOT * k && k % SLOTS_PER_WEEK == slot
    ensures from <= SLOT * k < from + WEEK
  {
    var day, s := slot / SLOTS_PER_DAY, slot % SLOTS_PER_DAY;
    var delta := (day - Weekday(from) + 7) % 7;
    var q := from / DAY + delta;
    DayReached(from / DAY, day);
    k := SLOTS_PER_DAY * q + s;
    DaysInWeek(q, s);
    assert q * DAY + s * SLOT_MINUTES * MINUTE == SLOT * k;
    assert from == DAY * (from / DAY) + from % DAY;
    if SLOT * k < from {
      LapQuotient(k + SLOTS_PER_WEEK, k / SLOTS_PER_WEEK + 1, slot);
      k := k + SLOTS_PER_WEEK;
    }
  }

  lemma SlotStartStarts(slot: Slot, from: int)
    ensures Starts(slot, SlotStart(slot, from))
    ensures from <= SlotStart(slot, from) < from + WEEK
  {
    var k := SlotStartIndex(slot, from);
    StartsIndex(slot, k);
  }

  lemma StartsEarlier(slot: Slot, t: int)
    requires Starts(slot, t)
    ensures Starts(slot, t - WEEK)
  {
    var k := t / SLOT;
    assert t == SLOT * k && t - WEEK == SLOT * (k - SLOTS_PER_WEEK);
    StartsIndex(slot, k);
    LapQuotient(k - SLOTS_PER_WEEK, k / SLOTS_PER_WEEK - 1, slot);
    StartsIndex(slot, k - SLOTS_PER_WEEK);
  }

  /** SlotStart is the least instant at or after `from` at which the slot starts. */
  lemma SlotStartLeast(slot: Slot, from: int)
    ensures Starts(slot, SlotStart(slot, from)) && from <= SlotStart(slot, from)
    ensures forall u :: Starts(slot, u) && from <= u ==> SlotStart(slot, from) <= u
  {
    SlotStartStarts(slot, from);
    forall u | Starts(slot, u) && from <= u ensures SlotStart(slot, from) <= u {
      if u < SlotStart(slot, from) { StartsApart(slot, u, SlotStart(slot, from)); }
    }
  }

  /** SlotStartBefore is the greatest instant at or before `from` at which it started. */
  lemma SlotStartBeforeGreatest(slot: Slot, from: int)
    ensures Starts(slot, SlotStartBefore(slot, from)) && SlotStartBefore(slot, from) <= from
    ensures forall u :: Starts(slot, u) && u <= from ==> u <= SlotStartBefore(slot, from)
  {
    SlotStartStarts(slot, from);
    hide SlotStart, Starts;
    if SlotStart(slot, from) > from { StartsEarlier(slot, SlotStart(slot, from)); }
    forall u | Starts(slot, u) && u <= from ensures u <= SlotStartBefore(slot, from) {
      if u > SlotStartBefore(slot, from) { StartsApart(slot, SlotStartBefore(slot, from), u); }
    }
  }

  lemma StartedAt(slot: Slot, t: int, now: int)
    requires Starts(slot, t) && t <= now < t + WEEK
    ensures SlotStartBefore(slot, now) == t
  {
    SlotStartBeforeGreatest(slot, now);
    hide SlotStartBefore, Starts;
    if t < SlotStartBefore(slot, now) { StartsApart(slot, t, SlotStartBefore(slot, now)); }
  }

  /** The age the engine reads off the clock lies in the half-hour that the
      claim's ring age names. */
  lemma ClockAgeIsRingAge(start: Slot, age: nat, now: int)
    requires age < SLOTS_PER_WEEK && (start + age) % SLOTS_PER_WEEK == SlotAt(now)
    ensures SLOT * age <= now - SlotStartBefore(start, now) < SLOT * (age + 1)
  {
    var i := Index(now);
    SlotAtIndex(now);
    hide SlotStartBefore, Starts, SlotAt;
    StartBefore(start, age, i);
    StartsIndex(start, i - age);
    assert SLOT * i <= now < SLOT * i + SLOT;
    StartedAt(start, SLOT * (i - age), now);
  }

  lemma StartBefore(start: Slot, age: nat, i: int)
    requires (start + age) % SLOTS_PER_WEEK == i % SLOTS_PER_WEEK
    ensures (i - age) % SLOTS_PER_WEEK == start
  {
    var q, p := (start + age) / SLOTS_PER_WEEK, i / SLOTS_PER_WEEK;
    assert i - age == SLOTS_PER_WEEK * (p - q) + start;
    LapQuotient(i - age, p - q, start);
  }
}
