/**
 The engine over whole runs: evaluate, sleep until the next switch point or
 until woken, evaluate again, with a fixed document.
 */
module Runs {
  import opened Options
  import opened Text
  import opened ScheduleModel
  import opened Validation
  import opened Ring
  import opened Switches
  import opened Clock
  import opened Signatures
  import opened Evaluation

  // --- the target a write is addressed to ---------------------------------

  function FindSchedule(schedules: seq<Schedule>, id: string): Option<Schedule> {
    if schedules == [] then None
    else if schedules[0].id == id then Some(schedules[0])
    else FindSchedule(schedules[1..], id)
  }

  function TargetFor(targets: seq<Target>, key: string): Option<Target> {
    if targets == [] then None
    else if targets[0].Key() == key then Some(targets[0])
    else TargetFor(targets[1..], key)
  }

  const OUTDOOR_PREFIX := "outdoor:"

  function BareTarget(key: string): Target {
    if OUTDOOR_PREFIX <= key then Target("", "", key[|OUTDOOR_PREFIX|..]) else Target(key, "", "")
  }

  // A bare target is recovered from its key.
  lemma BareTargetKey(key: string)
    requires key != "outdoor:"
    ensures BareTarget(key).Key() == key
  {
  }

  function TargetOf(d: Document, claim: Option<Claim>, key: string): Target {
    var s := if claim.Some? then FindSchedule(d.schedules, claim.value.scheduleID) else None;
    var t := if s.Some? then TargetFor(s.value.targets, key) else None;
    if t.Some? then t.value else BareTarget(key)
  }

  lemma {:induction false} FindScheduleFinds(schedules: seq<Schedule>, i: nat)
    requires i < |schedules| && forall j :: 0 <= j < i ==> schedules[j].id != schedules[i].id
    ensures FindSchedule(schedules, schedules[i].id) == Some(schedules[i])
  {
    if i == 0 {
    } else {
      FindScheduleFinds(schedules[1..], i - 1);
    }
  }

  lemma {:induction false} TargetForFinds(targets: seq<Target>, key: string)
    requires exists i :: 0 <= i < |targets| && targets[i].Key() == key
    ensures TargetFor(targets, key).Some? && TargetFor(targets, key).value in targets
    ensures TargetFor(targets, key).value.Key() == key
  {
    if targets[0].Key() != key { TargetForFinds(targets[1..], key); }
  }

  /** A write goes to a target of the winning schedule with the key that was resolved. */
  lemma TargetOfWinner(d: Document, key: string, slot: Slot)
    requires Valid(d) && Resolved(d, key, slot).Some?
    ensures TargetOf(d, Resolved(d, key, slot), key).Key() == key
    ensures exists s :: s in d.schedules && s.id == Resolved(d, key, slot).value.scheduleID
                     && TargetOf(d, Resolved(d, key, slot), key) in s.targets
  {
    var c := Resolved(d, key, slot).value;
    var p := ClaimFromSite(d, key, slot);
    hide Resolved, Target.Key, DayIndex, ValidSchedule;
    FindScheduleFinds(d.schedules, p.sched);
    TargetForFinds(d.schedules[p.sched].targets, key);
  }

  // --- evaluations --------------------------------------------------------

  datatype Call = Call(key: string, target: Target, action: Action, outcome: Outcome)

  ghost predicate Due(d: Document, catchup: int, last: Cache, now: int, key: string) {
    IsTargetKey(d, key) && Decide(EntryOf(last, key), ClaimAt(d, key, now), now, catchup) == Apply
  }

  // The calls made to the applier: one per target that is due, by ascending key.
  ghost predicate CallsExact(d: Document, catchup: int, outcome: string -> Option<Outcome>, last: Cache, now: int, calls: seq<Call>) {
    && (forall i :: 0 <= i < |calls| ==>
         && Due(d, catchup, last, now, calls[i].key)
         && outcome(calls[i].key) == Some(calls[i].outcome)
         && calls[i].action == ClaimAt(d, calls[i].key, now).value.action
         && calls[i].target == TargetOf(d, ClaimAt(d, calls[i].key, now), calls[i].key))
    && (forall key :: Due(d, catchup, last, now, key) && outcome(key).Some? ==> exists i :: 0 <= i < |calls| && calls[i].key == key)
    && (forall i, j :: 0 <= i < j < |calls| ==> Less(calls[i].key, calls[j].key))
  }

  /** One evaluation: every target's cache entry steps as its winner says, and
      no other entry changes. */
  ghost predicate Evaluated(d: Document, catchup: int, outcome: string -> Option<Outcome>,
                            last: Cache, now: int, last': Cache, calls: seq<Call>)
  {
    && (forall key :: EntryOf(last', key) ==
         if IsTargetKey(d, key) then After(EntryOf(last, key), ClaimAt(d, key, now), now, catchup, outcome(key))
         else EntryOf(last, key))
    && CallsExact(d, catchup, outcome, last, now, calls)
  }

  // --- runs with a succeeding applier -------------------------------------

  datatype Moment = Moment(at: int, before: Cache, after: Cache, calls: seq<Call>)

  ghost predicate WithinSleep(d: Document, t: int, u: int) {
    exists dur :: SleepsFor(d, t, dur) && t <= u <= t + dur
  }

  ghost predicate Step(d: Document, m: Moment, n: Moment) {
    n.before == m.after && WithinSleep(d, m.at, n.at)
  }

  // Every evaluation follows the previous one within the sleep it computed: on
  // its timer or, woken, before it.
  ghost predicate Run(d: Document, catchup: int, ms: seq<Moment>) {
    && (forall i :: 0 <= i < |ms| ==>
         Evaluated(d, catchup, _ => Some(Applied), ms[i].before, ms[i].at, ms[i].after, ms[i].calls))
    && (forall i :: 0 <= i < |ms| - 1 ==> Step(d, ms[i], ms[i + 1]))
  }

  /** After every evaluation of a run the cache holds exactly the winner's signature, or nothing in a gap. */
  lemma RunTracksWinners(d: Document, catchup: int, ms: seq<Moment>, i: nat, key: string)
    requires Valid(d) && Run(d, catchup, ms) && i < |ms| && IsTargetKey(d, key)
    ensures var c := ClaimAt(d, key, ms[i].at);
      EntryOf(ms[i].after, key) == if c.None? then None else Some(Signature(c.value.action))
  {
    hide ClaimAt, Valid, Signature;
    EntryTracksWinner(d, key, EntryOf(ms[i].before, key), ms[i].at, catchup);
  }

  /** Between two evaluations of a run no winner changes, except within the
      second to which a shorter sleep is rounded up. */
  lemma RunMissesNothing(d: Document, catchup: int, ms: seq<Moment>, i: nat, key: string, t: int)
    requires Run(d, catchup, ms) && i < |ms| - 1 && IsTargetKey(d, key)
    requires ms[i].at <= t < ms[i + 1].at && WinnerKey(d, key, t) != WinnerKey(d, key, ms[i].at)
    ensures exists best :: Earliest(d, ms[i].at, best) && ms[i].at < best <= t && ms[i + 1].at <= ms[i].at + SECOND
  {
    hide WinnerKey, SleepsFor, Evaluated;
    assert Step(d, ms[i], ms[i + 1]);
    var dur :| SleepsFor(d, ms[i].at, dur) && ms[i].at <= ms[i + 1].at <= ms[i].at + dur;
    SleepIsQuiet(d, key, ms[i].at, dur, t);
  }

  lemma ChangeOnGrid(d: Document, key: string, now: int, t: int)
    requires ChangesAt(d, key, now, t)
    ensures t % SLOT == 0
  {
    if t % SLOT != 0 {
      SameHalfHour(t);
      WinnerKeyAt(d, key, t);
      WinnerKeyAt(d, key, t - 1);
    }
  }

  lemma SameHalfHour(t: int)
    requires t % SLOT != 0
    ensures Index(t - 1) == Index(t)
  {
    assert t - 1 == SLOT * (t / SLOT) + (t % SLOT - 1);
    SlotQuotient(t - 1, t / SLOT, t % SLOT - 1);
  }

  // A change is evaluated less than a second after it happens.
  lemma ChangeIsPrompt(d: Document, key: string, t0: int, dur: int, t1: int)
    requires IsTargetKey(d, key) && SleepsFor(d, t0, dur) && t0 <= t1 <= t0 + dur
    requires WinnerKey(d, key, t1) != WinnerKey(d, key, t0)
    ensures t1 % SLOT < SECOND
  {
    hide WinnerKey, Index;
    var c := FirstDifference(d, key, t0, t1);
    var best :| Earliest(d, t0, best) && dur == Max(best - t0, SECOND);
    var other :| IsTargetKey(d, other) && ChangesAt(d, other, t0, best);
    ChangeOnGrid(d, other, t0, best);
    assert best <= c <= t1 < best + SECOND;
    SlotQuotient(t1, best / SLOT, t1 - best);
  }

  lemma OwnStart(now: int)
    ensures now - SlotStartBefore(SlotAt(now), now) == now % SLOT
  {
    var i := Index(now);
    SlotAtIndex(now);
    StartsIndex(SlotAt(now), i);
    hide SlotAt, SlotStartBefore, Starts;
    assert now == SLOT * i + now % SLOT;
    StartedAt(SlotAt(now), SLOT * i, now);
  }

  ghost predicate Wrote(calls: seq<Call>, key: string, a: Action) {
    exists n :: 0 <= n < |calls| && calls[n].key == key && calls[n].action == a && calls[n].outcome == Applied
  }

  /** A block that takes over in its own first half-hour is written at that
      evaluation, or its action was already in force. */
  lemma TakeoverIsServed(d: Document, catchup: int, ms: seq<Moment>, i: nat, key: string)
    requires Run(d, catchup, ms) && i < |ms| - 1 && IsTargetKey(d, key) && catchup >= SECOND
    requires WinnerKey(d, key, ms[i + 1].at) != WinnerKey(d, key, ms[i].at)
    requires ClaimAt(d, key, ms[i + 1].at).Some? && ClaimAt(d, key, ms[i + 1].at).value.start == SlotAt(ms[i + 1].at)
    ensures var a := ClaimAt(d, key, ms[i + 1].at).value.action;
      || (if EntryOf(ms[i].after, key).Some? then EntryOf(ms[i].after, key).value else "") == Signature(a)
      || Wrote(ms[i + 1].calls, key, a)
  {
    hide WinnerKey, ClaimAt, Signature, SleepsFor, SlotStartBefore, SlotAt, RingIndex;
    assert Step(d, ms[i], ms[i + 1]);
    var t1 := ms[i + 1].at;
    var dur :| SleepsFor(d, ms[i].at, dur) && ms[i].at <= t1 <= ms[i].at + dur;
    ChangeIsPrompt(d, key, ms[i].at, dur, t1);
    OwnStart(t1);
    assert RingIndex(SlotAt(t1)) == SlotAt(t1);
    var entry := EntryOf(ms[i].after, key);
    if Decide(entry, ClaimAt(d, key, t1), t1, catchup) == Apply {
      assert Due(d, catchup, ms[i + 1].before, t1, key);
      assert CallsExact(d, catchup, _ => Some(Applied), ms[i + 1].before, t1, ms[i + 1].calls);
    }
  }
}
