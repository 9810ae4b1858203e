/**
 One evaluation of one target: what the engine decides from the winning claim,
 the clock and its cache of last signatures, and what that gives over runs.
 */
module Evaluation {
  import opened Options
  import opened Text
  import opened ScheduleModel
  import opened Validation
  import opened Ring
  import opened Switches
  import opened Clock
  import opened Signatures
  import opened Slugs

  type Cache = map<string, string>

  function EntryOf(last: Cache, key: string): Option<string> {
    if key in last then Some(last[key]) else None
  }

  datatype Decision = Forget | InForce | Seed | Apply

  // An absent entry reads as the empty signature.
  function Decide(entry: Option<string>, claim: Option<Claim>, now: int, catchup: int): Decision {
    match claim
    case None => Forget
    case Some(c) =>
      if (if entry.Some? then entry.value else "") == Signature(c.action) then InForce
      else if now - SlotStartBefore(RingIndex(c.start), now) > catchup then Seed
      else Apply
  }

  // The entry afterwards; outcome None means that no applier is installed.
  function After(entry: Option<string>, claim: Option<Claim>, now: int, catchup: int, outcome: Option<Outcome>): Option<string> {
    match Decide(entry, claim, now, catchup)
    case Forget => None
    case InForce => entry
    case Seed => Some(Signature(claim.value.action))
    case Apply =>
      if outcome.None? || outcome.value == Applied then Some(Signature(claim.value.action)) else entry
  }

  ghost function ClaimAt(d: Document, key: string, t: int): Option<Claim> {
    Resolved(d, key, SlotAt(t))
  }

  // --- what the winner's key says -----------------------------------------

  ghost function WinnerKey(d: Document, key: string, t: int): string {
    Key(ClaimAt(d, key, t))
  }

  ghost function WeekKeys(d: Document, key: string): Keys {
    KeysOf(WeekOf(d, key))
  }

  lemma WinnerKeyAt(d: Document, key: string, t: int)
    ensures WinnerKey(d, key, t) == KeyAt(WeekKeys(d, key), Index(t))
  {
    hide Resolved;
    KeyAtSlot(WeekKeys(d, key), Index(t));
    SlotAtIndex(t);
  }

  ghost predicate FromSite(d: Document, key: string, c: Claim, p: Site) {
    Stakes(d, key, p) && c.scheduleID == d.schedules[p.sched].id && c.blockID == BlockAt(d, p).id
    && c.action == BlockAt(d, p).action
  }

  lemma ClaimFromSite(d: Document, key: string, slot: Slot) returns (p: Site)
    requires Resolved(d, key, slot).Some?
    ensures FromSite(d, key, Resolved(d, key, slot).value, p)
  {
    ResolvedIsCandidate(d, key, slot);
    p :| Best(Candidates(d, key, slot), p) && Resolved(d, key, slot).value == ClaimOf(d, key, slot, p);
    assert Covers(d, key, slot, p);
  }

  // Schedule ids have no "/", so a key names one schedule and one of its blocks.
  lemma KeyNamesBlock(d: Document, key: string, c: Claim, p: Site, e: Claim, q: Site)
    requires Valid(d) && FromSite(d, key, c, p) && FromSite(d, key, e, q)
    requires Key(Some(c)) == Key(Some(e))
    ensures p.sched == q.sched && p.block == q.block && c.action == e.action
  {
    hide Stakes, DayIndex, ValidBlock, IsSlug;
    assert InDocument(d, p) && InDocument(d, q) by { StakesInDocument(d, key, p); StakesInDocument(d, key, q); }
    assert ValidSchedule(d.schedules[p.sched]) && ValidSchedule(d.schedules[q.sched]);
    SlugIsLevel(c.scheduleID);
    SlugIsLevel(e.scheduleID);
    assert c.scheduleID + ['/'] + c.blockID == Key(Some(c)) && e.scheduleID + ['/'] + e.blockID == Key(Some(e));
    CutUnique(c.scheduleID, c.blockID, e.scheduleID, e.blockID, '/');
  }

  lemma StakesInDocument(d: Document, key: string, p: Site)
    requires Stakes(d, key, p)
    ensures InDocument(d, p)
  {
  }

  /** In a valid document two slots with the same winner key call for the same action. */
  lemma SameKeySameAction(d: Document, key: string, s: Slot, t: Slot)
    requires Valid(d) && Key(Resolved(d, key, s)) == Key(Resolved(d, key, t))
    ensures Resolved(d, key, s).Some? == Resolved(d, key, t).Some?
    ensures Resolved(d, key, s).Some? ==> Resolved(d, key, s).value.action == Resolved(d, key, t).value.action
  {
    hide Valid, Resolved;
    var c, e := Resolved(d, key, s), Resolved(d, key, t);
    if c.Some? { KeyNotEmpty(c.value); }
    if e.Some? { KeyNotEmpty(e.value); }
    if c.Some? && e.Some? {
      var p := ClaimFromSite(d, key, s);
      var q := ClaimFromSite(d, key, t);
      KeyNamesBlock(d, key, c.value, p, e.value, q);
    }
  }

  lemma KeyNotEmpty(c: Claim)
    ensures Key(Some(c)) != ""
  {
  }

  lemma WinnerActionValid(d: Document, key: string, s: Slot)
    requires Valid(d) && Resolved(d, key, s).Some?
    ensures Signature(Resolved(d, key, s).value.action) != ""
  {
    var p := ClaimFromSite(d, key, s);
    hide Resolved, Stakes, Signature;
    StakesInDocument(d, key, p);
    var b := BlockAt(d, p);
    assert ValidSchedule(d.schedules[p.sched]) && ValidBlock(d.schedules[p.sched].Kind(), b);
    SignatureNotEmpty(d.schedules[p.sched].Kind(), b.action);
  }

  lemma SignatureNotEmpty(kind: string, a: Action)
    requires ValidAction(kind, a)
    ensures Signature(a) != ""
  {
    if ValidIndoor(a) {
      IndoorSignature(a);
    } else {
      SignaturesApart(Action(POWER_OFF, "", None, None, None, None), a);
    }
  }

  // --- after one evaluation -----------------------------------------------

  /** With an applier that succeeds, the entry afterwards is exactly the
      signature of the winning claim, or absent in a gap. */
  lemma EntryTracksWinner(d: Document, key: string, entry: Option<string>, now: int, catchup: int)
    requires Valid(d)
    ensures var c := ClaimAt(d, key, now);
      After(entry, c, now, catchup, Some(Applied)) == if c.None? then None else Some(Signature(c.value.action))
  {
    hide Resolved, Valid, Signature;
    if ClaimAt(d, key, now).Some? { WinnerActionValid(d, key, SlotAt(now)); }
  }

  /** An apply is attempted only for a block whose start the ring places
      within the catch-up window. */
  lemma ApplyIsRecent(d: Document, key: string, entry: Option<string>, now: int, catchup: int)
    ensures var c := ClaimAt(d, key, now);
      Decide(entry, c, now, catchup) == Apply ==>
        c.Some? && SLOT * c.value.age <= now - SlotStartBefore(RingIndex(c.value.start), now) <= catchup
  {
    hide Signature, SlotStartBefore, Resolved, SlotAt, RingIndex;
    ResolvedPlaced(d, key, SlotAt(now));
    var c := ClaimAt(d, key, now);
    if c.Some? {
      assert RingIndex(c.value.start) == c.value.start;
      ClockAgeIsRingAge(c.value.start, c.value.age, now);
    }
  }

  /** On an exact timer an action that is not in force is applied exactly when
      its block started no more half-hours ago than the window holds: a block
      that regains its slot after a longer override is recorded, not written. */
  lemma BoundaryApplies(d: Document, key: string, entry: Option<string>, now: int, catchup: int)
    requires now % SLOT == 0 && ClaimAt(d, key, now).Some?
    requires Decide(entry, ClaimAt(d, key, now), now, catchup) != InForce
    ensures Decide(entry, ClaimAt(d, key, now), now, catchup) == Apply
        <==> SLOT * ClaimAt(d, key, now).value.age <= catchup
  {
    hide Signature, Resolved, SlotStartBefore, SlotAt, RingIndex;
    ResolvedPlaced(d, key, SlotAt(now));
    var c := ClaimAt(d, key, now).value;
    assert RingIndex(c.start) == c.start;
    BoundaryAge(c.start, c.age, now);
  }

  lemma BoundaryAge(start: Slot, age: nat, now: int)
    requires now % SLOT == 0 && age < SLOTS_PER_WEEK && (start + age) % SLOTS_PER_WEEK == SlotAt(now)
    ensures now - SlotStartBefore(start, now) == SLOT * age
  {
    ClockAgeIsRingAge(start, age, now);
    SlotStartBeforeGreatest(start, now);
    hide SlotStartBefore, SlotAt;
    SameGrid(SlotStartBefore(start, now), now, age);
  }

  lemma SameGrid(s: int, now: int, age: nat)
    requires s % SLOT == 0 && now % SLOT == 0 && SLOT * age <= now - s < SLOT * (age + 1)
    ensures now - s == SLOT * age
  {
    assert s == SLOT * (s / SLOT) && now == SLOT * (now / SLOT);
  }

  // --- sleeping until the next switch point -------------------------------

  const HEARTBEAT := 60 * MINUTE

  // t is the first instant after now at which the target has another winner.
  ghost predicate ChangesAt(d: Document, key: string, now: int, t: int) {
    && now < t
    && WinnerKey(d, key, t) != WinnerKey(d, key, now)
    && forall u :: now <= u < t ==> WinnerKey(d, key, u) == WinnerKey(d, key, now)
  }

  ghost predicate SomeChange(d: Document, now: int) {
    exists key, t :: IsTargetKey(d, key) && ChangesAt(d, key, now, t)
  }

  ghost predicate Earliest(d: Document, now: int, best: int) {
    && (exists key :: IsTargetKey(d, key) && ChangesAt(d, key, now, best))
    && (forall key, t :: IsTargetKey(d, key) && ChangesAt(d, key, now, t) ==> best <= t)
  }

  function Max(a: int, b: int): int { if a >= b then a else b }

  /** The engine sleeps until the earliest instant at which any target's
      winner changes, at least a second; an hour when none ever does. */
  ghost predicate SleepsFor(d: Document, now: int, dur: int) {
    if SomeChange(d, now) then exists best :: Earliest(d, now, best) && dur == Max(best - now, SECOND)
    else dur == 60 * MINUTE
  }

  // The change NextChange finds in the ring, as an instant.
  lemma ChangeInstant(d: Document, key: string, now: int, n: int)
    requires ChangesAfter(WeekKeys(d, key), Index(now), n) && n < SLOTS_PER_WEEK
    ensures ChangesAt(d, key, now, SLOT * (Index(now) + n))
  {
    hide WeekKeys, KeyAt, Resolved, SlotAt;
    var k, i := WeekKeys(d, key), Index(now);
    var t := SLOT * (i + n);
    SlotQuotient(t, i + n, 0);
    WinnerKeyAt(d, key, now);
    WinnerKeyAt(d, key, t);
    hide WinnerKey;
    forall u | now <= u < t ensures WinnerKey(d, key, u) == WinnerKey(d, key, now) {
      WinnerKeyAt(d, key, u);
      IndexBetween(now, u, i + n);
    }
  }

  lemma IndexBetween(now: int, u: int, j: int)
    requires now <= u < SLOT * j
    ensures Index(now) <= Index(u) < j
  {
  }

  // SlotStart turns the found slot into that instant.
  lemma ChangeStart(now: int, n: int)
    requires 1 <= n < SLOTS_PER_WEEK
    ensures SlotStart((SlotAt(now) + n) % SLOTS_PER_WEEK, now) == SLOT * (Index(now) + n)
  {
    var slot: Slot := (SlotAt(now) + n) % SLOTS_PER_WEEK;
    var i := Index(now);
    SlotAtIndex(now);
    AddLap(i, n);
    StartsIndex(slot, i + n);
    SlotStartLeast(slot, now);
    SlotStartStarts(slot, now);
    hide SlotStart, Starts, SlotAt;
    assert SLOT * i <= now < SLOT * (i + 1);
    if SlotStart(slot, now) < SLOT * (i + n) { StartsApart(slot, SlotStart(slot, now), SLOT * (i + n)); }
  }

  lemma AddLap(i: int, n: int)
    ensures (i % SLOTS_PER_WEEK + n) % SLOTS_PER_WEEK == (i + n) % SLOTS_PER_WEEK
  {
    LapsCancel(i % SLOTS_PER_WEEK + n, i / SLOTS_PER_WEEK);
  }

  lemma ChangeUnique(d: Document, key: string, now: int, t: int, u: int)
    requires ChangesAt(d, key, now, t) && ChangesAt(d, key, now, u)
    ensures t == u
  {
  }

  lemma ConstantNeverChanges(d: Document, key: string, now: int, t: int)
    requires Constant(WeekKeys(d, key))
    ensures !ChangesAt(d, key, now, t)
  {
    hide WeekKeys;
    WinnerKeyAt(d, key, now);
    WinnerKeyAt(d, key, t);
    KeyAtSlot(WeekKeys(d, key), Index(now));
    KeyAtSlot(WeekKeys(d, key), Index(t));
  }

  // While the engine sleeps no winner changes, except in the last second of a clamped sleep.
  lemma SleepIsQuiet(d: Document, key: string, now: int, dur: int, t: int)
    requires IsTargetKey(d, key) && SleepsFor(d, now, dur) && now <= t < now + dur
    requires WinnerKey(d, key, t) != WinnerKey(d, key, now)
    ensures exists best :: Earliest(d, now, best) && now < best <= t < now + SECOND && dur == SECOND
  {
    hide WinnerKey;
    var c := FirstDifference(d, key, now, t);
    var best :| Earliest(d, now, best) && dur == Max(best - now, SECOND);
    assert best <= c;
  }

  lemma {:induction false} FirstDifference(d: Document, key: string, now: int, t: int) returns (c: int)
    requires now <= t && WinnerKey(d, key, t) != WinnerKey(d, key, now)
    ensures ChangesAt(d, key, now, c) && c <= t
    decreases t - now
  {
    hide WinnerKey;
    if u :| now <= u < t && WinnerKey(d, key, u) != WinnerKey(d, key, now) {
      c := FirstDifference(d, key, now, u);
    } else {
      c := t;
    }
  }
}
