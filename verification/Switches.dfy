/**
 Switch points of a resolved week: the slots where the winning block changes.
 Positions are unbounded integers read around the ring, so that a walk over
 several laps needs no special case at the week boundary.
 */
module Switches {
  import opened Options
  import opened ScheduleModel
  import opened Ring

  type Keys = k: seq<string> | |k| == SLOTS_PER_WEEK witness seq(SLOTS_PER_WEEK, _ => "")

  function KeysOf(w: seq<Option<Claim>>): Keys
    requires |w| == SLOTS_PER_WEEK
  {
    seq(SLOTS_PER_WEEK, i requires 0 <= i < SLOTS_PER_WEEK => Key(w[i]))
  }

  // The program's remainder takes the sign of the dividend.
  function Rem(a: int, b: nat): int
    requires b > 0
  {
    if a >= 0 then a % b else -((-a) % b)
  }

  // It differs from the dividend by whole laps and is never larger or of another sign.
  lemma RemExact(a: int)
    ensures var r := Rem(a, SLOTS_PER_WEEK);
      && (a - r) % SLOTS_PER_WEEK == 0
      && -SLOTS_PER_WEEK < r < SLOTS_PER_WEEK && (a >= 0 ==> 0 <= r <= a) && (a <= 0 ==> a <= r <= 0)
  {
  }

  function RingIndex(slot: int): (r: Slot)
    ensures r == slot % SLOTS_PER_WEEK
  {
    Rem(Rem(slot, SLOTS_PER_WEEK) + SLOTS_PER_WEEK, SLOTS_PER_WEEK)
  }

  // The key at any position, lap by lap.
  function KeyAt(k: Keys, t: int): string
    decreases t < 0, if t < 0 then -t else t
  {
    if t < 0 then KeyAt(k, t + SLOTS_PER_WEEK)
    else if t >= SLOTS_PER_WEEK then KeyAt(k, t - SLOTS_PER_WEEK)
    else k[t]
  }

  lemma {:induction false} KeyAtSlot(k: Keys, t: int)
    ensures KeyAt(k, t) == k[t % SLOTS_PER_WEEK]
    decreases t < 0, if t < 0 then -t else t
  {
    if t < 0 {
      assert t % SLOTS_PER_WEEK == (t + SLOTS_PER_WEEK) % SLOTS_PER_WEEK;
      KeyAtSlot(k, t + SLOTS_PER_WEEK);
    } else if t >= SLOTS_PER_WEEK {
      assert t % SLOTS_PER_WEEK == (t - SLOTS_PER_WEEK) % SLOTS_PER_WEEK;
      KeyAtSlot(k, t - SLOTS_PER_WEEK);
    }
  }

  predicate Switch(k: Keys, t: int) {
    KeyAt(k, t) != KeyAt(k, t - 1)
  }

  // n steps ahead of t the winner differs for the first time.
  ghost predicate ChangesAfter(k: Keys, t: int, n: int) {
    && n >= 1
    && KeyAt(k, t + n) != KeyAt(k, t)
    && forall u :: t <= u < t + n ==> KeyAt(k, u) == KeyAt(k, t)
  }

  ghost predicate Constant(k: Keys) {
    forall i, j :: 0 <= i < SLOTS_PER_WEEK && 0 <= j < SLOTS_PER_WEEK ==> k[i] == k[j]
  }

  lemma KeyOfRing(w: seq<Option<Claim>>, t: int)
    requires |w| == SLOTS_PER_WEEK
    ensures KeyAt(KeysOf(w), t) == Key(w[RingIndex(t)])
  {
    KeyAtSlot(KeysOf(w), t);
  }

  lemma RemKeepsRing(t: int)
    ensures RingIndex(Rem(t, SLOTS_PER_WEEK)) == RingIndex(t)
  {
    if t < 0 { LapsCancel(t, (-t) / SLOTS_PER_WEEK); }
  }

  lemma LapsCancel(t: int, laps: int)
    ensures (t + SLOTS_PER_WEEK * laps) % SLOTS_PER_WEEK == t % SLOTS_PER_WEEK
  {
    var q, r := t / SLOTS_PER_WEEK, t % SLOTS_PER_WEEK;
    assert t + SLOTS_PER_WEEK * laps == SLOTS_PER_WEEK * (q + laps) + r;
  }

  lemma LapRepeats(k: Keys, t: int)
    ensures KeyAt(k, t + SLOTS_PER_WEEK) == KeyAt(k, t)
  {
    assert t < 0 ==> KeyAt(k, t) == KeyAt(k, t + SLOTS_PER_WEEK);
  }

  // The position of slot i in the lap that starts at t.
  function InLap(t: int, i: Slot): (n: nat)
    ensures n < SLOTS_PER_WEEK && (t + n) % SLOTS_PER_WEEK == i
  {
    (i - t) % SLOTS_PER_WEEK
  }

  lemma SameFromEverywhere(k: Keys, from: int)
    requires forall u :: from <= u <= from + SLOTS_PER_WEEK ==> KeyAt(k, u) == KeyAt(k, from)
    ensures Constant(k)
  {
    forall i: Slot ensures k[i] == KeyAt(k, from) {
      KeyAtSlot(k, from + InLap(from, i));
    }
  }

  method NextChange(w: array<Option<Claim>>, from: int) returns (slot: int, ahead: int, ok: bool)
    requires w.Length == SLOTS_PER_WEEK
    ensures ok ==> ChangesAfter(KeysOf(w[..]), from, ahead) && ahead < SLOTS_PER_WEEK
    ensures ok ==> slot == Rem(from + ahead, SLOTS_PER_WEEK)
    ensures !ok ==> Constant(KeysOf(w[..])) && slot == 0 && ahead == 0
  {
    hide KeyAt, Key, KeysOf, RingIndex, Rem, Constant;
    ghost var k := KeysOf(w[..]);
    var cur := Key(w[RingIndex(from)]);
    KeyOfRing(w[..], from);
    for n := 1 to SLOTS_PER_WEEK + 1
      invariant forall u :: from <= u < from + n ==> KeyAt(k, u) == cur
    {
      var s := Rem(from + n, SLOTS_PER_WEEK);
      RemKeepsRing(from + n);
      KeyOfRing(w[..], from + n);
      if Key(w[RingIndex(s)]) != cur {
        LapRepeats(k, from);
        return s, n, true;
      }
    }
    SameFromEverywhere(k, from);
    return 0, 0, false;
  }

  // --- counting -----------------------------------------------------------

  // The number of switch points in [lo, hi).
  function Count(k: Keys, lo: int, hi: int): nat
    requires lo <= hi
    decreases hi - lo
  {
    if lo == hi then 0 else Count(k, lo, hi - 1) + (if Switch(k, hi - 1) then 1 else 0)
  }

  lemma SwitchAtSlot(k: Keys, slot: Slot)
    ensures Switch(k, slot) <==> k[slot] != k[(slot + SLOTS_PER_WEEK - 1) % SLOTS_PER_WEEK]
  {
    KeyAtSlot(k, slot);
    KeyAtSlot(k, slot - 1);
    assert (slot + SLOTS_PER_WEEK - 1) % SLOTS_PER_WEEK == (slot - 1) % SLOTS_PER_WEEK;
  }

  method CountSwitches(w: array<Option<Claim>>) returns (n: nat)
    requires w.Length == SLOTS_PER_WEEK
    ensures n == Count(KeysOf(w[..]), 0, SLOTS_PER_WEEK)
  {
    n := 0;
    for slot := 0 to SLOTS_PER_WEEK
      invariant n == Count(KeysOf(w[..]), 0, slot)
    {
      var prev := (slot + SLOTS_PER_WEEK - 1) % SLOTS_PER_WEEK;
      SwitchAtSlot(KeysOf(w[..]), slot);
      if Key(w[slot]) != Key(w[prev]) {
        n := n + 1;
      }
    }
  }

  lemma {:induction false} CountSplit(k: Keys, lo: int, mid: int, hi: int)
    requires lo <= mid <= hi
    ensures Count(k, lo, hi) == Count(k, lo, mid) + Count(k, mid, hi)
    decreases hi - mid
  {
    if mid >= hi {
    } else {
      CountSplit(k, lo, mid, hi - 1);
    }
  }

  lemma {:induction false} CountNone(k: Keys, lo: int, hi: int)
    requires lo <= hi && forall t :: lo <= t < hi ==> !Switch(k, t)
    ensures Count(k, lo, hi) == 0
    decreases hi - lo
  {
    if lo >= hi {
    } else {
      CountNone(k, lo, hi - 1);
    }
  }

  // A switch point strictly raises the count past it.
  lemma CountPasses(k: Keys, lo: int, t: int, hi: int)
    requires lo <= t < hi && Switch(k, t)
    ensures Count(k, lo, t) < Count(k, lo, hi)
  {
    CountSplit(k, lo, t, hi);
    CountSplit(k, t, t + 1, hi);
    assert Count(k, t, t) == 0;
  }

  lemma SwitchRepeats(k: Keys, t: int)
    ensures Switch(k, t + SLOTS_PER_WEEK) == Switch(k, t)
  {
    LapRepeats(k, t);
    LapRepeats(k, t - 1);
  }

  // Any window one week long holds the same number of switch points.
  lemma {:induction false} CountLap(k: Keys, t: nat)
    ensures Count(k, t, t + SLOTS_PER_WEEK) == Count(k, 0, SLOTS_PER_WEEK)
  {
    hide Switch;
    if t == 0 {
    } else {
      CountLap(k, t - 1);
      CountSplit(k, t - 1, t, t - 1 + SLOTS_PER_WEEK);
      SwitchRepeats(k, t - 1);
    }
  }

  // --- following NextChange -----------------------------------------------

  lemma ChangeIsSwitch(k: Keys, t: int, n: int)
    requires ChangesAfter(k, t, n)
    ensures Switch(k, t + n) && n < SLOTS_PER_WEEK
    ensures Count(k, t + 1, t + n + 1) == 1
  {
    LapRepeats(k, t + n - SLOTS_PER_WEEK);
    CountNone(k, t + 1, t + n);
  }

  ghost function FirstChange(k: Keys, t: int, n: int): (a: int)
    requires 1 <= n <= SLOTS_PER_WEEK && !Constant(k)
    requires forall u :: t <= u < t + n ==> KeyAt(k, u) == KeyAt(k, t)
    ensures ChangesAfter(k, t, a)
    decreases SLOTS_PER_WEEK - n
  {
    if KeyAt(k, t + n) != KeyAt(k, t) then n
    else if n == SLOTS_PER_WEEK then
      SameFromEverywhere(k, t);
      assert false; 0
    else FirstChange(k, t, n + 1)
  }

  // Where NextChange leads from t, as a position.
  ghost function NextOf(k: Keys, t: int): (u: int)
    requires !Constant(k)
    ensures ChangesAfter(k, t, u - t)
  {
    t + FirstChange(k, t, 1)
  }

  ghost function Follow(k: Keys, t: int, steps: nat): int
    requires !Constant(k)
  {
    if steps == 0 then t else NextOf(k, Follow(k, t, steps - 1))
  }

  lemma StepCounts(k: Keys, t: int, u: int, v: int)
    requires t <= u && ChangesAfter(k, u, v - u)
    ensures Switch(k, v)
    ensures Count(k, t + 1, v + 1) == Count(k, t + 1, u + 1) + 1
  {
    ChangeIsSwitch(k, u, v - u);
    CountSplit(k, t + 1, u + 1, v + 1);
  }

  lemma {:induction false} FollowCounts(k: Keys, t: int, steps: nat)
    requires !Constant(k) && Switch(k, t)
    ensures t <= Follow(k, t, steps) && Switch(k, Follow(k, t, steps))
    ensures Count(k, t + 1, Follow(k, t, steps) + 1) == steps
    ensures steps > 0 ==> Follow(k, t, steps - 1) < Follow(k, t, steps)
  {
    hide Constant, Switch, NextOf;
    if steps == 0 {
    } else {
      FollowCounts(k, t, steps - 1);
      var u := Follow(k, t, steps - 1);
      var v := NextOf(k, u);
      StepCounts(k, t, u, v);
    }
  }

  lemma CountSeparates(k: Keys, t: int, u: int, v: int)
    requires t <= u + 1 && t <= v + 1 && Switch(k, u) && Switch(k, v)
    requires Count(k, t, u + 1) == Count(k, t, v + 1)
    ensures u == v
  {
    if u < v {
      CountSplit(k, t, u + 1, v);
    } else if v < u {
      CountSplit(k, t, v + 1, u);
    }
  }

  // A switch point is reached after as many steps as there are switch points up to it.
  lemma FollowReaches(k: Keys, t: int, u: int)
    requires !Constant(k) && Switch(k, t) && Switch(k, u) && t <= u
    ensures Follow(k, t, Count(k, t + 1, u + 1)) == u
  {
    hide Constant, Switch, NextOf, Follow;
    var n := Count(k, t + 1, u + 1);
    FollowCounts(k, t, n);
    CountSeparates(k, t + 1, u, Follow(k, t, n));
  }

  ghost predicate Visits(k: Keys, start: Slot, step: nat, s: Slot)
    requires !Constant(k)
  {
    Follow(k, start, step) % SLOTS_PER_WEEK == s
  }

  /** From any switch point, following NextChange as many times as countSwitches
      counts comes back to it exactly one week later. */
  lemma TourReturns(k: Keys, start: Slot)
    requires Switch(k, start)
    ensures !Constant(k)
    ensures Follow(k, start, Count(k, 0, SLOTS_PER_WEEK)) == start + SLOTS_PER_WEEK
  {
    SwitchNotConstant(k, start);
    LapRepeats(k, start);
    LapRepeats(k, start - 1);
    CountLap(k, start + 1);
    FollowReaches(k, start, start + SLOTS_PER_WEEK);
  }

  lemma SwitchInLap(k: Keys, start: Slot, s: Slot) returns (u: int)
    requires Switch(k, s)
    ensures Switch(k, u) && start <= u < start + SLOTS_PER_WEEK && u % SLOTS_PER_WEEK == s
  {
    if start <= s {
      u := s;
    } else {
      u := s + SLOTS_PER_WEEK;
      LapRepeats(k, s);
      LapRepeats(k, s - 1);
    }
  }

  lemma IndexInLap(k: Keys, start: Slot, u: int)
    requires Switch(k, start) && start <= u < start + SLOTS_PER_WEEK
    ensures Count(k, start + 1, u + 1) < Count(k, 0, SLOTS_PER_WEEK)
  {
    LapRepeats(k, start);
    LapRepeats(k, start - 1);
    CountLap(k, start + 1);
    CountPasses(k, start + 1, start + SLOTS_PER_WEEK, start + 1 + SLOTS_PER_WEEK);
    CountSplit(k, start + 1, u + 1, start + SLOTS_PER_WEEK);
  }

  // The position of s in the lap from start on is one of the tour's.
  lemma TourFinds(k: Keys, start: Slot, s: Slot) returns (j: nat)
    requires Switch(k, start) && Switch(k, s)
    ensures !Constant(k)
    ensures j < Count(k, 0, SLOTS_PER_WEEK) && Visits(k, start, j, s)
  {
    SwitchNotConstant(k, start);
    var u := SwitchInLap(k, start, s);
    j := Count(k, start + 1, u + 1);
    IndexInLap(k, start, u);
    FollowReaches(k, start, u);
  }

  /** On the way it visits every switch point of the week, each exactly once. */
  lemma TourVisitsEach(k: Keys, start: Slot, s: Slot)
    requires Switch(k, start) && Switch(k, s)
    ensures !Constant(k)
    ensures exists j :: 0 <= j < Count(k, 0, SLOTS_PER_WEEK) && Visits(k, start, j, s)
    ensures forall i, j :: 0 <= i < j < Count(k, 0, SLOTS_PER_WEEK) && Visits(k, start, i, s) ==> !Visits(k, start, j, s)
  {
    SwitchNotConstant(k, start);
    var c := Count(k, 0, SLOTS_PER_WEEK);
    var found := TourFinds(k, start, s);
    TourReturns(k, start);
    forall i, j | 0 <= i < j < c && Visits(k, start, i, s) ensures !Visits(k, start, j, s) {
      FollowGrows(k, start, 0, i);
      FollowGrows(k, start, i, j);
      FollowGrows(k, start, j, c);
      SameLap(Follow(k, start, i), Follow(k, start, j), start);
    }
  }

  lemma SameLap(u: int, v: int, t: int)
    requires t <= u < v < t + SLOTS_PER_WEEK
    ensures u % SLOTS_PER_WEEK != v % SLOTS_PER_WEEK
  {
  }

  lemma {:induction false} FollowGrows(k: Keys, t: int, i: nat, j: nat)
    requires !Constant(k) && Switch(k, t) && i <= j
    ensures Follow(k, t, i) + (j - i) <= Follow(k, t, j)
    decreases j - i
  {
    hide Constant, Switch, NextOf, Follow, Count;
    if i >= j {
    } else {
      FollowGrows(k, t, i, j - 1);
      FollowCounts(k, t, j);
    }
  }

  lemma SwitchNotConstant(k: Keys, t: int)
    requires Switch(k, t)
    ensures !Constant(k)
  {
    KeyAtSlot(k, t);
    KeyAtSlot(k, t - 1);
  }

  /** countSwitches is 0 exactly when the week never changes, which is when
      NextChange fails from every slot; it is never 1. */
  lemma SwitchesZeroOrSeveral(k: Keys)
    ensures Count(k, 0, SLOTS_PER_WEEK) == 0 <==> Constant(k)
    ensures Constant(k) <==> forall t, n :: !ChangesAfter(k, t, n)
    ensures Count(k, 0, SLOTS_PER_WEEK) != 1
  {
    if Constant(k) {
      forall t ensures KeyAt(k, t) == k[0] { KeyAtSlot(k, t); }
      CountNone(k, 0, SLOTS_PER_WEEK);
    } else {
      var u := NextOf(k, 0);
      ChangeIsSwitch(k, 0, u);
      CountPasses(k, 0, u, SLOTS_PER_WEEK);
      TourReturns(k, u);
      assert ChangesAfter(k, 0, u);
      if Count(k, 0, SLOTS_PER_WEEK) == 1 {
        assert Follow(k, u, 1) == NextOf(k, Follow(k, u, 0));
        LapRepeats(k, u);
      }
    }
  }
}
