/**
 The schedule engine: the live document, changed under its revision, and the
 cache of last signatures, changed by every evaluation.
 */
module Engines {
  import opened Options
  import opened Text
  import opened ScheduleModel
  import opened Slugs
  import opened Validation
  import opened Ring
  import opened Switches
  import opened Clock
  import opened Signatures
  import opened Evaluation
  import opened Runs
  import opened Revisions

  // What the applier answers per target; None when no applier is installed.
  ghost function Outcomes(hasApplier: bool, outcome: string -> Outcome): string -> Option<Outcome> {
    key => if hasApplier then Some(outcome(key)) else None
  }

  lemma SleepsAWhile(d: Document, now: int, dur: int)
    requires SleepsFor(d, now, dur)
    ensures dur >= SECOND
  {
    hide Earliest, SomeChange;
  }

  lemma SameOutcomes(d: Document, catchup: int, f: string -> Option<Outcome>, g: string -> Option<Outcome>,
                     last: Cache, now: int, last': Cache, calls: seq<Call>)
    requires Evaluated(d, catchup, f, last, now, last', calls) && forall key :: f(key) == g(key)
    ensures Evaluated(d, catchup, g, last, now, last', calls)
  {
    hide After, ClaimAt, TargetOf, Due, IsTargetKey;
  }

  lemma RunGrows(d: Document, catchup: int, ms: seq<Moment>, m: Moment)
    requires Run(d, catchup, ms)
    requires Evaluated(d, catchup, _ => Some(Applied), m.before, m.at, m.after, m.calls)
    requires ms != [] ==> Step(d, ms[|ms| - 1], m)
    ensures Run(d, catchup, ms + [m])
  {
    hide Evaluated, Step;
    var more := ms + [m];
    forall i | 0 <= i < |more| - 1 ensures Step(d, more[i], more[i + 1]) {
      if i < |ms| - 1 { assert Step(d, ms[i], ms[i + 1]); }
    }
  }

  // The first change among the listed targets, if any of them ever changes.
  ghost predicate EarliestOf(d: Document, keys: seq<string>, now: int, best: Option<int>) {
    match best
    case None => forall key, t :: key in keys ==> !ChangesAt(d, key, now, t)
    case Some(b) =>
      && (exists key :: key in keys && ChangesAt(d, key, now, b))
      && (forall key, t :: key in keys && ChangesAt(d, key, now, t) ==> b <= t)
  }

  lemma EarliestOfAll(d: Document, keys: seq<string>, now: int, best: Option<int>)
    requires EarliestOf(d, keys, now, best) && forall key :: key in keys <==> IsTargetKey(d, key)
    ensures best.None? <==> !SomeChange(d, now)
    ensures best.Some? ==> Earliest(d, now, best.value)
  {
    hide ChangesAt, IsTargetKey;
  }

  // What NextChange finds for a target is the next change of its winner.
  lemma TargetChange(d: Document, key: string, now: int, slot: int, ahead: int, ok: bool)
    requires ok ==> ChangesAfter(WeekKeys(d, key), SlotAt(now), ahead) && ahead < SLOTS_PER_WEEK
    requires ok ==> slot == Rem(SlotAt(now) + ahead, SLOTS_PER_WEEK)
    requires !ok ==> Constant(WeekKeys(d, key))
    ensures ok ==> ChangesAt(d, key, now, SlotStart(RingIndex(slot), now))
    ensures ok ==> forall t :: ChangesAt(d, key, now, t) ==> t == SlotStart(RingIndex(slot), now)
    ensures !ok ==> forall t :: !ChangesAt(d, key, now, t)
  {
    hide WeekKeys, ChangesAt, SlotStart, SlotAt, WinnerKey, Constant, KeyAt;
    if ok {
      SlotAtIndex(now);
      ChangesEveryLap(WeekKeys(d, key), Index(now), ahead);
      ChangeInstant(d, key, now, ahead);
      ChangeStart(now, ahead);
      forall t | ChangesAt(d, key, now, t) ensures t == SlotStart(RingIndex(slot), now) {
        ChangeUnique(d, key, now, t, SlotStart(RingIndex(slot), now));
      }
    } else {
      forall t ensures !ChangesAt(d, key, now, t) { ConstantNeverChanges(d, key, now, t); }
    }
  }

  lemma ChangesEveryLap(k: Keys, i: int, n: int)
    requires ChangesAfter(k, i % SLOTS_PER_WEEK, n)
    ensures ChangesAfter(k, i, n)
  {
    hide KeyAt;
    var laps := SLOTS_PER_WEEK * (i / SLOTS_PER_WEEK);
    forall u ensures KeyAt(k, u + laps) == KeyAt(k, u) {
      KeyAtSlot(k, u + laps);
      KeyAtSlot(k, u);
      LapsCancel(u, i / SLOTS_PER_WEEK);
    }
    assert i == i % SLOTS_PER_WEEK + laps;
    forall u | i <= u < i + n ensures KeyAt(k, u) == KeyAt(k, i) {
      assert KeyAt(k, (u - laps) + laps) == KeyAt(k, u - laps);
    }
  }

  // The targets before keys[n] have been evaluated.
  ghost predicate CycleUpTo(d: Document, catchup: int, outcome: string -> Option<Outcome>, last: Cache, now: int,
                            last': Cache, calls: seq<Call>, keys: seq<string>, n: nat)
  {
    && n <= |keys| && Ascending(keys) && (forall key :: key in keys <==> IsTargetKey(d, key))
    && (forall key :: EntryOf(last', key) ==
         if key in keys[..n] then After(EntryOf(last, key), ClaimAt(d, key, now), now, catchup, outcome(key))
         else EntryOf(last, key))
    && (forall i :: 0 <= i < |calls| ==> CallMade(d, catchup, outcome, last, now, calls[i]) && calls[i].key in keys[..n])
    && (forall key :: key in keys[..n] && Due(d, catchup, last, now, key) && outcome(key).Some? ==> exists i :: 0 <= i < |calls| && calls[i].key == key)
    && (forall i, j :: 0 <= i < j < |calls| ==> Less(calls[i].key, calls[j].key))
  }

  ghost predicate CallMade(d: Document, catchup: int, outcome: string -> Option<Outcome>, last: Cache, now: int, c: Call) {
    && Due(d, catchup, last, now, c.key) && outcome(c.key) == Some(c.outcome)
    && c.action == ClaimAt(d, c.key, now).value.action && c.target == TargetOf(d, ClaimAt(d, c.key, now), c.key)
  }

  lemma CycleStep(d: Document, catchup: int, outcome: string -> Option<Outcome>, last: Cache, now: int,
                  before: Cache, after: Cache, calls: seq<Call>, keys: seq<string>, n: nat, call: Option<Call>)
    requires n < |keys| && CycleUpTo(d, catchup, outcome, last, now, before, calls, keys, n)
    requires EntryOf(after, keys[n]) == After(EntryOf(before, keys[n]), ClaimAt(d, keys[n], now), now, catchup, outcome(keys[n]))
    requires forall other :: other != keys[n] ==> EntryOf(after, other) == EntryOf(before, other)
    requires call.Some? <==> Decide(EntryOf(before, keys[n]), ClaimAt(d, keys[n], now), now, catchup) == Apply && outcome(keys[n]).Some?
    requires call.Some? ==> var c := ClaimAt(d, keys[n], now);
      call == Some(Call(keys[n], TargetOf(d, c, keys[n]), c.value.action, outcome(keys[n]).value))
    ensures CycleUpTo(d, catchup, outcome, last, now, after, calls + (if call.Some? then [call.value] else []), keys, n + 1)
  {
    hide ClaimAt, Decide, After, TargetOf, IsTargetKey;
    var key := keys[n];
    assert keys[..n + 1] == keys[..n] + [key];
    KeyNotBefore(keys, n);
    assert EntryOf(before, key) == EntryOf(last, key);
    assert Due(d, catchup, last, now, key) <==> Decide(EntryOf(last, key), ClaimAt(d, key, now), now, catchup) == Apply;
    if call.Some? {
      assert CallMade(d, catchup, outcome, last, now, call.value);
      CallsGrow(d, catchup, outcome, last, now, calls, keys, n, call.value);
    } else {
      assert calls + [] == calls;
    }
  }

  // One more call, for keys[n], answers for the targets up to keys[n] in key order.
  lemma CallsGrow(d: Document, catchup: int, outcome: string -> Option<Outcome>, last: Cache, now: int,
                  calls: seq<Call>, keys: seq<string>, n: nat, call: Call)
    requires n < |keys| && Ascending(keys) && call.key == keys[n]
    requires forall i :: 0 <= i < |calls| ==> calls[i].key in keys[..n]
    requires forall i, j :: 0 <= i < j < |calls| ==> Less(calls[i].key, calls[j].key)
    requires forall key :: key in keys[..n] && Due(d, catchup, last, now, key) && outcome(key).Some? ==> exists i :: 0 <= i < |calls| && calls[i].key == key
    ensures forall i, j :: 0 <= i < j < |calls + [call]| ==> Less((calls + [call])[i].key, (calls + [call])[j].key)
    ensures forall key :: key in keys[..n + 1] && Due(d, catchup, last, now, key) && outcome(key).Some? ==>
      exists i :: 0 <= i < |calls + [call]| && (calls + [call])[i].key == key
  {
    hide Due, Less;
    var more := calls + [call];
    assert keys[..n + 1] == keys[..n] + [keys[n]];
    forall i | 0 <= i < |calls| ensures Less(calls[i].key, call.key) {
      var k :| 0 <= k < n && keys[..n][k] == calls[i].key;
      assert keys[k] == calls[i].key;
    }
    assert more[|calls|].key == keys[n];
    forall k | k in keys[..n] && Due(d, catchup, last, now, k) && outcome(k).Some?
      ensures exists i :: 0 <= i < |more| && more[i].key == k
    {
      var i :| 0 <= i < |calls| && calls[i].key == k;
      assert more[i].key == k;
    }
  }

  lemma KeyNotBefore(keys: seq<string>, n: nat)
    requires Ascending(keys) && n < |keys|
    ensures keys[n] !in keys[..n]
  {
    if keys[n] in keys[..n] {
      var k :| 0 <= k < n && keys[..n][k] == keys[n];
      AscendingDistinct(keys, k, n);
    }
  }

  lemma CycleDone(d: Document, catchup: int, outcome: string -> Option<Outcome>, last: Cache, now: int,
                  last': Cache, calls: seq<Call>, keys: seq<string>)
    requires CycleUpTo(d, catchup, outcome, last, now, last', calls, keys, |keys|)
    ensures Evaluated(d, catchup, outcome, last, now, last', calls)
  {
    hide ClaimAt, Decide, After, TargetOf, IsTargetKey;
    assert keys[..|keys|] == keys;
    assert forall i :: 0 <= i < |calls| ==> CallMade(d, catchup, outcome, last, now, calls[i]);
    forall key | Due(d, catchup, last, now, key) && outcome(key).Some? ensures exists i :: 0 <= i < |calls| && calls[i].key == key {
      assert key in keys[..|keys|];
    }
  }

  class Engine {
    var doc: Document
    var last: Cache
    const catchup: int
    const hasApplier: bool
    const prep: string -> string

    ghost predicate Ready()
      reads this
    {
      Valid(doc) && KeepsSlugs(prep)
    }

    constructor (loaded: Document, catchup: int, hasApplier: bool, prep: string -> string)
      requires Valid(loaded) && KeepsSlugs(prep)
      ensures Ready() && doc == loaded && last == map[]
      ensures this.catchup == (if catchup <= 0 then SLOT else catchup) && this.hasApplier == hasApplier
    {
      doc := loaded;
      last := map[];
      this.catchup := if catchup <= 0 then SLOT else catchup;
      this.hasApplier := hasApplier;
      this.prep := prep;
    }

    // --- changing the document ----------------------------------------------

    method Save(next: Document, diskOk: bool) returns (r: Change)
      requires KeepsSlugs(prep)
      ensures r == Saved(next, diskOk)
    {
      var v := if next.version == 0 then next.(version := SCHEMA_VERSION) else next;
      var issues := Validate(prep, v);
      r := if issues != [] then Err(Invalid) else if !diskOk then Err(StoreFailed) else Ok(v);
    }

    method Replace(next: Document, expectRev: int, diskOk: bool) returns (r: Change)
      requires Ready()
      modifies this`doc
      ensures Ready() && r == Replaced(old(doc), next, expectRev, diskOk) && doc == Installed(old(doc), r)
    {
      if expectRev >= 0 && expectRev != doc.revision {
        return Err(StaleRevision);
      }
      r := Save(next.(version := SCHEMA_VERSION, revision := doc.revision + 1,
                      timezone := if next.timezone == "" then doc.timezone else next.timezone), diskOk);
      if r.Ok? {
        doc := r.value;
      }
    }

    method SetEnabled(id: string, on: bool, diskOk: bool) returns (r: Change)
      requires Ready()
      modifies this`doc
      ensures Ready() && r == Toggled(old(doc), id, on, diskOk) && doc == Installed(old(doc), r)
    {
      var i := IndexOf(doc.schedules, id);
      if i == |doc.schedules| {
        return Err(NotFound);
      }
      if doc.schedules[i].enabled == on {
        return Ok(doc);
      }
      r := Save(doc.(schedules := doc.schedules[i := doc.schedules[i].(enabled := on)], revision := doc.revision + 1), diskOk);
      if r.Ok? {
        doc := r.value;
      }
    }

    method Delete(id: string, diskOk: bool) returns (r: Change)
      requires Ready()
      modifies this`doc
      ensures Ready() && r == Deleted(old(doc), id, diskOk) && doc == Installed(old(doc), r)
    {
      var i := IndexOf(doc.schedules, id);
      if i == |doc.schedules| {
        return Err(NotFound);
      }
      r := Save(doc.(schedules := doc.schedules[..i] + doc.schedules[i + 1..], revision := doc.revision + 1), diskOk);
      if r.Ok? {
        doc := r.value;
      }
    }

    // --- evaluating ---------------------------------------------------------

    method EvaluateTarget(key: string, week: array<Option<Claim>>, now: int, outcome: Outcome) returns (call: Option<Call>)
      requires week.Length == SLOTS_PER_WEEK && week[..] == WeekOf(doc, key)
      modifies this`last
      ensures EntryOf(last, key) == After(EntryOf(old(last), key), ClaimAt(doc, key, now), now, catchup,
                                          if hasApplier then Some(outcome) else None)
      ensures forall other :: other != key ==> EntryOf(last, other) == EntryOf(old(last), other)
      ensures call == if Decide(EntryOf(old(last), key), ClaimAt(doc, key, now), now, catchup) == Apply && hasApplier
        then Some(Call(key, TargetOf(doc, ClaimAt(doc, key, now), key), ClaimAt(doc, key, now).value.action, outcome)) else None
    {
      hide Resolved, SlotStartBefore, TargetOf, Signature;
      var claim := week[SlotAt(now)];
      assert claim == week[..][SlotAt(now)] == ClaimAt(doc, key, now);
      call := None;
      if claim.None? {
        last := last - {key};
        return;
      }
      var sig := BuildSignature(claim.value.action);
      if (if key in last then last[key] else "") == sig {
        return;
      }
      var started := SlotStartBefore(RingIndex(claim.value.start), now);
      if now - started > catchup || !hasApplier {
        last := last[key := sig];
        return;
      }
      call := Some(Call(key, TargetOf(doc, claim, key), claim.value.action, outcome));
      if outcome == Applied {
        last := last[key := sig];
      }
    }

    /** One cycle over every target of the live document. */
    method Evaluate(now: int, outcome: string -> Outcome) returns (calls: seq<Call>)
      modifies this`last
      ensures Evaluated(doc, catchup, Outcomes(hasApplier, outcome), old(last), now, last, calls)
    {
      calls := [];
      var keys := TargetKeys(doc);
      for n := 0 to |keys|
        invariant CycleUpTo(doc, catchup, Outcomes(hasApplier, outcome), old(last), now, last, calls, keys, n)
      {
        var week := Resolve(doc, keys[n]);
        ghost var before := last;
        var call := EvaluateTarget(keys[n], week, now, outcome(keys[n]));
        CycleStep(doc, catchup, Outcomes(hasApplier, outcome), old(last), now, before, last, calls, keys, n, call);
        if call.Some? {
          calls := calls + [call.value];
        }
      }
      CycleDone(doc, catchup, Outcomes(hasApplier, outcome), old(last), now, last, calls, keys);
    }

    /** How long to sleep after an evaluation at `now`. */
    method UntilNext(now: int) returns (dur: int)
      ensures SleepsFor(doc, now, dur)
    {
      hide ClaimAt, WinnerKey, WeekOf, SlotStart, SlotAt, IsTargetKey;
      var best: Option<int> := None;
      var keys := TargetKeys(doc);
      for n := 0 to |keys|
        invariant EarliestOf(doc, keys[..n], now, best)
      {
        var week := Resolve(doc, keys[n]);
        var slot, ahead, ok := NextChange(week, SlotAt(now));
        TargetChange(doc, keys[n], now, slot, ahead, ok);
        assert keys[..n + 1] == keys[..n] + [keys[n]];
        if ok {
          var t := SlotStart(RingIndex(slot), now);
          if best.None? || t < best.value {
            best := Some(t);
          }
        }
      }
      assert keys[..|keys|] == keys;
      EarliestOfAll(doc, keys, now, best);
      dur := if best.None? then HEARTBEAT else Max(best.value - now, SECOND);
    }

    /** The engine's loop for n evaluations, with an applier that succeeds and an
        exact timer: `woken` says after how long a wake-up cuts a sleep short. */
    method RunCycles(n: nat, start: int, woken: nat -> Option<nat>) returns (ghost ms: seq<Moment>)
      requires hasApplier
      modifies this`last
      ensures |ms| == n && Run(doc, catchup, ms)
      ensures n > 0 ==> ms[0].at == start && ms[0].before == old(last) && ms[n - 1].after == last
    {
      hide Evaluated, SleepsFor;
      ms := [];
      var now := start;
      for i := 0 to n
        invariant |ms| == i && Run(doc, catchup, ms)
        invariant if i == 0 then last == old(last) && now == start
          else ms[0].at == start && ms[0].before == old(last) && ms[i - 1].after == last
        invariant i > 0 ==> WithinSleep(doc, ms[i - 1].at, now)
      {
        ghost var before := last;
        var calls := Evaluate(now, _ => Applied);
        SameOutcomes(doc, catchup, Outcomes(true, _ => Applied), _ => Some(Applied), before, now, last, calls);
        var dur := UntilNext(now);
        SleepsAWhile(doc, now, dur);
        ghost var was := ms;
        ms := ms + [Moment(now, before, last, calls)];
        RunGrows(doc, catchup, was, ms[i]);
        var early := woken(i);
        now := now + (if early.Some? && early.value < dur then early.value else dur);
        assert WithinSleep(doc, ms[i].at, now);
      }
    }
  }
}
