/**
 How often the engine writes to one target, whatever the evaluation times and
 whether the applier succeeds: at most once per switch point crossed, plus one.
 */
module WriteBound {
  import opened Options
  import opened Text
  import opened ScheduleModel
  import opened Validation
  import opened Ring
  import opened Switches
  import opened Clock
  import opened Signatures
  import opened Evaluation
  import opened Runs

  datatype Tick = Tick(at: int, outcome: Outcome)

  ghost predicate Ordered(ticks: seq<Tick>) {
    forall i, j :: 0 <= i <= j < |ticks| ==> ticks[i].at <= ticks[j].at
  }

  // The cache entry after a series of evaluations.
  ghost function Entry(d: Document, key: string, catchup: int, entry: Option<string>, ticks: seq<Tick>): Option<string> {
    if ticks == [] then entry
    else
      var n := |ticks| - 1;
      After(Entry(d, key, catchup, entry, ticks[..n]), ClaimAt(d, key, ticks[n].at), ticks[n].at, catchup, Some(ticks[n].outcome))
  }

  // The last evaluation applied an action successfully.
  ghost predicate Writes(d: Document, key: string, catchup: int, entry: Option<string>, tick: Tick) {
    Decide(entry, ClaimAt(d, key, tick.at), tick.at, catchup) == Apply && tick.outcome == Applied
  }

  ghost function WriteCount(d: Document, key: string, catchup: int, entry: Option<string>, ticks: seq<Tick>): nat {
    if ticks == [] then 0
    else
      var n := |ticks| - 1;
      WriteCount(d, key, catchup, entry, ticks[..n])
      + (if Writes(d, key, catchup, Entry(d, key, catchup, entry, ticks[..n]), ticks[n]) then 1 else 0)
  }

  // The switch points of the target's week in (from, to].
  ghost function Crossed(d: Document, key: string, from: int, to: int): nat
    requires from <= to
  {
    IndexGrows(from, to);
    Count(WeekKeys(d, key), Index(from) + 1, Index(to) + 1)
  }

  lemma IndexGrows(t: int, u: int)
    requires t <= u
    ensures Index(t) <= Index(u)
  {
  }

  lemma CrossedAdds(d: Document, key: string, t: int, u: int, v: int)
    requires t <= u <= v
    ensures Crossed(d, key, t, v) == Crossed(d, key, t, u) + Crossed(d, key, u, v)
  {
    hide WeekKeys, Index, KeyAt, Switch;
    IndexGrows(t, u);
    IndexGrows(u, v);
    CountSplit(WeekKeys(d, key), Index(t) + 1, Index(u) + 1, Index(v) + 1);
  }

  lemma {:induction false} NoSwitchSameKey(k: Keys, lo: int, hi: int)
    requires lo <= hi && Count(k, lo + 1, hi + 1) == 0
    ensures KeyAt(k, hi) == KeyAt(k, lo)
    decreases hi - lo
  {
    if lo >= hi {
    } else {
      NoSwitchSameKey(k, lo, hi - 1);
      assert Count(k, lo + 1, hi + 1) == Count(k, lo + 1, hi) + (if Switch(k, hi) then 1 else 0);
    }
  }

  // The entry is the signature of the claim in force.
  ghost predicate Settled(d: Document, key: string, entry: Option<string>, t: int) {
    var c := ClaimAt(d, key, t);
    c.Some? && entry == Some(Signature(c.value.action))
  }

  // With no switch point between, a settled target stays settled and is not written.
  lemma SettledStays(d: Document, key: string, catchup: int, entry: Option<string>, t: int, tick: Tick)
    requires Valid(d) && t <= tick.at && Crossed(d, key, t, tick.at) == 0 && Settled(d, key, entry, t)
    ensures !Writes(d, key, catchup, entry, tick)
    ensures Settled(d, key, After(entry, ClaimAt(d, key, tick.at), tick.at, catchup, Some(tick.outcome)), tick.at)
  {
    hide Valid, Signature, Resolved, SlotAt, Crossed, SlotStartBefore, RingIndex;
    SameWinner(d, key, t, tick.at);
    SameKeySameAction(d, key, SlotAt(t), SlotAt(tick.at));
  }

  lemma SameWinner(d: Document, key: string, t: int, u: int)
    requires t <= u && Crossed(d, key, t, u) == 0
    ensures WinnerKey(d, key, t) == WinnerKey(d, key, u)
  {
    hide WeekKeys, WinnerKey, KeyAt, Index, Switch;
    IndexGrows(t, u);
    NoSwitchSameKey(WeekKeys(d, key), Index(t), Index(u));
    WinnerKeyAt(d, key, t);
    WinnerKeyAt(d, key, u);
  }

  lemma WriteSettles(d: Document, key: string, catchup: int, entry: Option<string>, tick: Tick)
    requires Writes(d, key, catchup, entry, tick)
    ensures Settled(d, key, After(entry, ClaimAt(d, key, tick.at), tick.at, catchup, Some(tick.outcome)), tick.at)
  {
  }

  lemma {:induction false} WritesBounded(d: Document, key: string, catchup: int, entry: Option<string>, ticks: seq<Tick>)
    requires Valid(d) && ticks != [] && Ordered(ticks)
    ensures var n := |ticks| - 1;
      WriteCount(d, key, catchup, entry, ticks) <= Crossed(d, key, ticks[0].at, ticks[n].at)
        + (if Settled(d, key, Entry(d, key, catchup, entry, ticks), ticks[n].at) then 1 else 0)
  {
    hide Valid, Settled, Writes, ClaimAt, After, Crossed;
    var n := |ticks| - 1;
    var init, tick := ticks[..n], ticks[n];
    var e := Entry(d, key, catchup, entry, init);
    if Writes(d, key, catchup, e, tick) { WriteSettles(d, key, catchup, e, tick); }
    if n > 0 {
      WritesBounded(d, key, catchup, entry, init);
      CrossedAdds(d, key, ticks[0].at, ticks[n - 1].at, tick.at);
      if Settled(d, key, e, ticks[n - 1].at) && Crossed(d, key, ticks[n - 1].at, tick.at) == 0 {
        SettledStays(d, key, catchup, e, ticks[n - 1].at, tick);
      }
    } else {
      assert init == [];
    }
  }

  /** Crossing k switch points of the week yields at most k + 1 successful writes. */
  lemma WritesPerSwitch(d: Document, key: string, catchup: int, entry: Option<string>, ticks: seq<Tick>)
    requires Valid(d) && ticks != [] && Ordered(ticks)
    ensures WriteCount(d, key, catchup, entry, ticks) <= Crossed(d, key, ticks[0].at, ticks[|ticks| - 1].at) + 1
  {
    WritesBounded(d, key, catchup, entry, ticks);
  }

  lemma {:induction false} CountSuffix(d: Document, key: string, catchup: int, entry: Option<string>, ticks: seq<Tick>, i: nat)
    requires i <= |ticks|
    ensures Entry(d, key, catchup, entry, ticks)
         == Entry(d, key, catchup, Entry(d, key, catchup, entry, ticks[..i]), ticks[i..])
    ensures WriteCount(d, key, catchup, entry, ticks)
         == WriteCount(d, key, catchup, entry, ticks[..i])
          + WriteCount(d, key, catchup, Entry(d, key, catchup, entry, ticks[..i]), ticks[i..])
  {
    hide Writes, ClaimAt, After;
    var n := |ticks| - 1;
    if i == |ticks| {
      assert ticks[..i] == ticks && ticks[i..] == [];
    } else {
      CountSuffix(d, key, catchup, entry, ticks[..n], i);
      assert ticks[..n][..i] == ticks[..i] && ticks[..n][i..] == ticks[i..][..n - i];
    }
  }

  /** Between two successful writes to one target lies a switch point of its week. */
  lemma SwitchBetweenWrites(d: Document, key: string, catchup: int, entry: Option<string>, ticks: seq<Tick>)
    requires Valid(d) && |ticks| >= 2 && Ordered(ticks)
    requires Writes(d, key, catchup, entry, ticks[0])
    requires Writes(d, key, catchup, Entry(d, key, catchup, entry, ticks[..|ticks| - 1]), ticks[|ticks| - 1])
    ensures Crossed(d, key, ticks[0].at, ticks[|ticks| - 1].at) >= 1
  {
    hide Valid, Writes, Crossed, ClaimAt, After;
    var n := |ticks| - 1;
    CountSuffix(d, key, catchup, entry, ticks[..n], 1);
    assert ticks[..n][..1] == [ticks[0]];
    assert WriteCount(d, key, catchup, entry, [ticks[0]]) == 1 by {
      assert [ticks[0]][..0] == [];
    }
    WritesPerSwitch(d, key, catchup, entry, ticks);
  }

  // --- the calls the engine makes -----------------------------------------

  /** One evaluation of every target, with whatever the applier answers. */
  datatype Cycle = Cycle(at: int, answers: string -> Option<Outcome>, before: Cache, after: Cache, calls: seq<Call>)

  // Evaluations of one document in clock order, with an applier installed.
  ghost predicate Cycles(d: Document, catchup: int, cs: seq<Cycle>) {
    && (forall i :: 0 <= i < |cs| ==> Evaluated(d, catchup, cs[i].answers, cs[i].before, cs[i].at, cs[i].after, cs[i].calls))
    && (forall i, key :: 0 <= i < |cs| ==> cs[i].answers(key).Some?)
    && (forall i :: 0 < i < |cs| ==> cs[i].before == cs[i - 1].after)
    && (forall i, j :: 0 <= i <= j < |cs| ==> cs[i].at <= cs[j].at)
  }

  // What those evaluations are to one target.
  ghost function TicksOf(cs: seq<Cycle>, key: string): seq<Tick>
    requires forall i, k :: 0 <= i < |cs| ==> cs[i].answers(k).Some?
  {
    seq(|cs|, i requires 0 <= i < |cs| => Tick(cs[i].at, cs[i].answers(key).value))
  }

  function AppliedIn(calls: seq<Call>, key: string): nat {
    if calls == [] then 0
    else
      var n := |calls| - 1;
      AppliedIn(calls[..n], key) + (if calls[n].key == key && calls[n].outcome == Applied then 1 else 0)
  }

  function AppliedTo(cs: seq<Cycle>, key: string): nat {
    if cs == [] then 0 else AppliedTo(cs[..|cs| - 1], key) + AppliedIn(cs[|cs| - 1].calls, key)
  }

  lemma {:induction false} AppliedOnce(calls: seq<Call>, key: string)
    requires forall i, j :: 0 <= i < j < |calls| ==> Less(calls[i].key, calls[j].key)
    ensures AppliedIn(calls, key) == if Succeeded(calls, key) then 1 else 0
  {
    if calls == [] {
    } else {
      var n := |calls| - 1;
      var init := calls[..n];
      AppliedOnce(init, key);
      if calls[n].key == key {
        forall i | 0 <= i < n ensures init[i].key != key { LessTotal(calls[i].key, key); }
      } else if Succeeded(calls, key) {
        var i :| 0 <= i < |calls| && calls[i].key == key && calls[i].outcome == Applied;
        assert init[i] == calls[i];
      }
    }
  }

  // Some call to this target succeeded.
  ghost predicate Succeeded(calls: seq<Call>, key: string) {
    exists i :: 0 <= i < |calls| && calls[i].key == key && calls[i].outcome == Applied
  }

  // One evaluation writes to a target at most once, exactly when the decision is to apply and the applier succeeds.
  lemma CycleWrites(d: Document, catchup: int, c: Cycle, key: string)
    requires Evaluated(d, catchup, c.answers, c.before, c.at, c.after, c.calls) && c.answers(key).Some? && IsTargetKey(d, key)
    ensures AppliedIn(c.calls, key)
         == if Writes(d, key, catchup, EntryOf(c.before, key), Tick(c.at, c.answers(key).value)) then 1 else 0
  {
    hide Decide, ClaimAt, TargetOf, IsTargetKey;
    AppliedOnce(c.calls, key);
  }

  lemma TicksOfInit(cs: seq<Cycle>, key: string)
    requires cs != [] && forall i, k :: 0 <= i < |cs| ==> cs[i].answers(k).Some?
    ensures var n := |cs| - 1;
      && |TicksOf(cs, key)| == n + 1 && TicksOf(cs, key)[..n] == TicksOf(cs[..n], key)
      && TicksOf(cs, key)[n] == Tick(cs[n].at, cs[n].answers(key).value)
  {
  }

  lemma CyclesInit(d: Document, catchup: int, cs: seq<Cycle>)
    requires Cycles(d, catchup, cs) && |cs| >= 2
    ensures var n := |cs| - 1; Cycles(d, catchup, cs[..n]) && cs[n].before == cs[n - 1].after
  {
    hide Evaluated;
  }

  /** Over any evaluations, with any answers, the successful calls made for a
      target are the writes counted above. */
  lemma {:induction false} CallsAreWrites(d: Document, catchup: int, cs: seq<Cycle>, key: string)
    requires Cycles(d, catchup, cs) && cs != [] && IsTargetKey(d, key)
    ensures EntryOf(cs[|cs| - 1].after, key) == Entry(d, key, catchup, EntryOf(cs[0].before, key), TicksOf(cs, key))
    ensures AppliedTo(cs, key) == WriteCount(d, key, catchup, EntryOf(cs[0].before, key), TicksOf(cs, key))
  {
    hide Writes, After, ClaimAt, AppliedIn, IsTargetKey, CallsExact;
    var n := |cs| - 1;
    var init := cs[..n];
    CycleWrites(d, catchup, cs[n], key);
    TicksOfInit(cs, key);
    if n == 0 {
      assert init == [];
    } else {
      CyclesInit(d, catchup, cs);
      hide Cycles, TicksOf;
      CallsAreWrites(d, catchup, init, key);
    }
  }

  /** Whatever the times and answers, the engine's successful calls for a target
      are at most the switch points crossed, plus one. */
  lemma CallsPerSwitch(d: Document, catchup: int, cs: seq<Cycle>, key: string)
    requires Valid(d) && Cycles(d, catchup, cs) && cs != [] && IsTargetKey(d, key)
    ensures AppliedTo(cs, key) <= Crossed(d, key, cs[0].at, cs[|cs| - 1].at) + 1
  {
    hide Valid, Crossed, WriteCount, Evaluated, IsTargetKey;
    CallsAreWrites(d, catchup, cs, key);
    WritesPerSwitch(d, key, catchup, EntryOf(cs[0].before, key), TicksOf(cs, key));
  }
}
