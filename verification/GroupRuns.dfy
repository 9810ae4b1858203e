/**
 What the group machines guarantee: mode sync leaves no conflict behind, and
 econo is restored once for every suspension, over any interleaving of steps.
 */
module GroupRuns {
  import opened Text
  import opened Outdoor

  // --- mode sync ----------------------------------------------------------

  lemma {:induction false} WrittenHoldMode(c: Caches, serials: Serials, climate: map<string, string>, written: seq<string>, mode: string, d: string)
    requires (forall x :: x in climate ==> Level(x)) && (forall x :: x in written ==> x in climate)
    requires d in written && mode != ""
    ensures var r := NotedAll(c, serials, climate, written, OPERATION, Str(mode));
      ModeKey(d, climate[d]) in r.mode && r.mode[ModeKey(d, climate[d])] == mode
  {
    var n := |written| - 1;
    assert forall x :: x in written[..n] ==> x in written;
    if d != written[n] {
      assert written == written[..n] + [written[n]];
      WrittenHoldMode(c, serials, climate, written[..n], mode, d);
      if ModeKey(d, climate[d]) == ModeKey(written[n], climate[written[n]]) {
        ModeKeyNamesDevice(d, climate[d], written[n], climate[written[n]]);
      }
    }
  }

  /** After a sync whose writes all succeeded no other member known to be
      running is in conflict, so a second sync to the same mode writes nothing. */
  lemma SyncSettles(c: Caches, serials: Serials, climate: map<string, string>, origin: string, mode: string, written: seq<string>)
    requires forall x :: x in climate ==> Level(x)
    requires forall d :: d in written <==> KnownOpposite(c, serials, climate, origin, mode, d)
    ensures forall d :: d in written ==> d in climate
    ensures forall d :: !KnownOpposite(NotedAll(c, serials, climate, written, OPERATION, Str(mode)), serials, climate, origin, mode, d)
  {
    hide Members;
    var r := NotedAll(c, serials, climate, written, OPERATION, Str(mode));
    forall d ensures !KnownOpposite(r, serials, climate, origin, mode, d) {
      if d in written {
        WrittenHoldMode(c, serials, climate, written, mode, d);
      } else if ModeFamily(mode) != NoFamily {
        OthersUntouched(c, serials, climate, written, mode, d, ModeFamily(mode));
        ConflictExact(c, climate, d, mode);
        ConflictExact(r, climate, d, mode);
      } else {
        NoFamilyNoOpposite(mode);
      }
    }
  }

  /** Syncing twice in a row, with a backend that takes every write, writes
      nothing the second time, and leaves no conflict. */
  method SyncTwice(c: Coordinator, origin: string, mode: string) returns (first: seq<string>, second: seq<string>)
    requires forall d :: d in c.climate ==> Level(d)
    modifies c`caches, c`issued
    ensures forall d :: d in first <==> c.modeSync && KnownOpposite(old(c.caches), c.serials, c.climate, origin, mode, d)
    ensures second == []
    ensures c.modeSync ==> forall d :: !KnownOpposite(c.caches, c.serials, c.climate, origin, mode, d)
  {
    hide KnownOpposite, NotedAll;
    first := c.SyncModeToGroup(origin, mode, _ => true);
    if c.modeSync {
      SyncSettles(old(c.caches), c.serials, c.climate, origin, mode, first);
    }
    ghost var settled := c.caches;
    second := c.SyncModeToGroup(origin, mode, _ => true);
    assert |second| > 0 ==> second[0] in second;
    forall d ensures d !in second {
      assert c.modeSync ==> !KnownOpposite(settled, c.serials, c.climate, origin, mode, d);
    }
    NotedNone(settled, c.serials, c.climate, OPERATION, Str(mode));
  }

  // --- econo suspend and restore ------------------------------------------

  datatype Event =
    | Observed(group: string, anyPowerful: bool, econoOn: bool)
    | Reset(group: string)

  function SuspendAfter(es: seq<Event>, g: string): Suspend {
    if es == [] then IDLE
    else
      var s, e := SuspendAfter(es[..|es| - 1], g), es[|es| - 1];
      if e.group != g then s
      else
        match e
        case Observed(_, anyPowerful, econoOn) => Observe(s, anyPowerful, econoOn).0
        case Reset(_) => IDLE
  }

  // What was decided at event i.
  function DecisionAt(es: seq<Event>, i: nat): Decision
    requires i < |es|
  {
    match es[i]
    case Observed(g, anyPowerful, econoOn) => Observe(SuspendAfter(es[..i], g), anyPowerful, econoOn).1
    case Reset(_) => NoAction
  }

  ghost predicate Suspends(es: seq<Event>, i: nat, g: string) {
    i < |es| && es[i].group == g && DecisionAt(es, i) == SuspendEcono
  }

  // Event i gives econo back, or forgets that it was taken.
  ghost predicate Ends(es: seq<Event>, i: nat, g: string) {
    i < |es| && es[i].group == g && (es[i].Reset? || DecisionAt(es, i) == RestoreEcono)
  }

  // Econo was suspended at i and neither restored nor reset since.
  ghost predicate OpenSince(es: seq<Event>, i: nat, g: string) {
    Suspends(es, i, g) && forall k :: i < k < |es| ==> !Ends(es, k, g)
  }

  lemma PrefixDecision(es: seq<Event>, n: nat, i: nat)
    requires i < n <= |es|
    ensures DecisionAt(es[..n], i) == DecisionAt(es, i)
  {
    assert es[..n][..i] == es[..i];
  }

  lemma PrefixSame(es: seq<Event>, n: nat, i: nat, g: string)
    requires i < n <= |es|
    ensures Suspends(es[..n], i, g) <==> Suspends(es, i, g)
    ensures Ends(es[..n], i, g) <==> Ends(es, i, g)
  {
    PrefixDecision(es, n, i);
  }

  /** A restore is pending exactly while some suspension is open, and only
      while a member is boosting. */
  lemma {:induction false} PendingIsOpen(es: seq<Event>, g: string)
    ensures SuspendAfter(es, g).pending ==> SuspendAfter(es, g).boosting
    ensures SuspendAfter(es, g).pending <==> exists i :: OpenSince(es, i, g)
  {
    if es == [] {
    } else {
      var n := |es| - 1;
      PendingIsOpen(es[..n], g);
      hide SuspendAfter, DecisionAt, Ends, Suspends;
      forall i: nat | i < n ensures OpenSince(es, i, g) <==> OpenSince(es[..n], i, g) && !Ends(es, n, g) {
        OpenPrefix(es, n, i, g);
      }
      LastEvent(es, g);
      if SuspendAfter(es[..n], g).pending {
        var i :| OpenSince(es[..n], i, g);
        SuspendsEarlier(es[..n], i, g);
        assert OpenSince(es, i, g) <==> !Ends(es, n, g);
      }
      if i :| OpenSince(es, i, g) {
        SuspendsEarlier(es, i, g);
      }
    }
  }

  lemma SuspendsEarlier(es: seq<Event>, i: nat, g: string)
    requires OpenSince(es, i, g)
    ensures i < |es|
  {
  }

  lemma OpenPrefix(es: seq<Event>, n: nat, i: nat, g: string)
    requires n + 1 == |es| && i < n
    ensures OpenSince(es, i, g) <==> OpenSince(es[..n], i, g) && !Ends(es, n, g)
  {
    hide DecisionAt;
    PrefixSame(es, n, i, g);
    forall k | i < k < n ensures Ends(es[..n], k, g) <==> Ends(es, k, g) { PrefixSame(es, n, k, g); }
    hide Ends, Suspends;
    if OpenSince(es[..n], i, g) && !Ends(es, n, g) {
      forall k | i < k < |es| ensures !Ends(es, k, g) { assert k < n || k == n; }
    }
    if OpenSince(es, i, g) {
      forall k | i < k < n ensures !Ends(es[..n], k, g) { assert !Ends(es, k, g); }
    }
  }

  // How the last event moves the pending flag.
  lemma LastEvent(es: seq<Event>, g: string)
    requires es != []
    ensures var n := |es| - 1; var s, t := SuspendAfter(es[..n], g), SuspendAfter(es, g);
      && (s.pending ==> s.boosting) ==> (
        && (t.pending ==> t.boosting)
        && (t.pending <==> OpenSince(es, n, g) || (s.pending && !Ends(es, n, g)))
        && (Suspends(es, n, g) ==> !s.pending && !Ends(es, n, g))
        && (Ends(es, n, g) && !es[n].Reset? ==> s.pending))
  {
  }

  // The group's latest event is an observation of a boost.
  ghost predicate LastSawBoost(es: seq<Event>, g: string) {
    exists k: nat :: k < |es| && es[k].Observed? && es[k].group == g && es[k].anyPowerful
      && forall j :: k < j < |es| ==> es[j].group != g
  }

  lemma {:induction false} BoostingIsSeen(es: seq<Event>, g: string)
    ensures SuspendAfter(es, g).boosting <==> LastSawBoost(es, g)
  {
    if es == [] {
    } else {
      var n := |es| - 1;
      var init := es[..n];
      BoostingIsSeen(init, g);
      hide SuspendAfter;
      LastBoost(es, g);
      if es[n].group == g {
        assert LastSawBoost(es, g) <==> es[n].Observed? && es[n].anyPowerful;
      } else {
        if LastSawBoost(init, g) {
          var k: nat :| k < n && init[k].Observed? && init[k].group == g && init[k].anyPowerful
            && forall j :: k < j < n ==> init[j].group != g;
          assert es[k] == init[k];
          forall j | k < j < |es| ensures es[j].group != g { if j < n { assert init[j].group != g; } }
        }
        if LastSawBoost(es, g) {
          var k: nat :| k < |es| && es[k].Observed? && es[k].group == g && es[k].anyPowerful
            && forall j :: k < j < |es| ==> es[j].group != g;
          assert init[k] == es[k];
          forall j | k < j < n ensures init[j].group != g { assert es[j].group != g; }
        }
      }
    }
  }

  lemma LastBoost(es: seq<Event>, g: string)
    requires es != []
    ensures var n := |es| - 1;
      SuspendAfter(es, g).boosting ==
        if es[n].group == g then es[n].Observed? && es[n].anyPowerful else SuspendAfter(es[..n], g).boosting
  {
  }

  /** Econo is suspended exactly by an observation of a boost with econo on
      whose group was last reset, last seen without a boost, or not seen yet. */
  lemma SuspendsExactly(es: seq<Event>, i: nat)
    requires i < |es|
    ensures DecisionAt(es, i) == SuspendEcono <==>
      es[i].Observed? && es[i].anyPowerful && es[i].econoOn && !LastSawBoost(es[..i], es[i].group)
  {
    BoostingIsSeen(es[..i], es[i].group);
    hide LastSawBoost, SuspendAfter;
  }

  /** Econo is restored exactly by an observation without a boost while a
      suspension of the group is open. */
  lemma RestoresExactly(es: seq<Event>, i: nat)
    requires i < |es|
    ensures DecisionAt(es, i) == RestoreEcono <==>
      es[i].Observed? && !es[i].anyPowerful && exists j :: OpenSince(es[..i], j, es[i].group)
  {
    PendingIsOpen(es[..i], es[i].group);
    hide OpenSince, SuspendAfter;
  }

  /** Every restore follows a suspension of its group with no restore and no
      reset in between. */
  lemma RestoreFollowsSuspend(es: seq<Event>, i: nat) returns (j: nat)
    requires i < |es| && DecisionAt(es, i) == RestoreEcono
    ensures j < i && Suspends(es, j, es[i].group)
    ensures forall k :: j < k < i ==> !Ends(es, k, es[i].group)
  {
    var g := es[i].group;
    PendingIsOpen(es[..i], g);
    j :| OpenSince(es[..i], j, g);
    SuspendsEarlier(es[..i], j, g);
    PrefixSame(es, i, j, g);
    forall k | j < k < i ensures !Ends(es, k, g) { PrefixSame(es, i, k, g); }
  }

  /** Between two suspensions of a group lies a restore or a reset. */
  lemma SuspendsAlternate(es: seq<Event>, i: nat, j: nat, g: string) returns (k: nat)
    requires i < j && Suspends(es, i, g) && Suspends(es, j, g)
    ensures i < k < j && Ends(es, k, g)
  {
    PendingIsOpen(es[..j], g);
    assert !SuspendAfter(es[..j], g).pending;
    PrefixSame(es, j, i, g);
    assert !OpenSince(es[..j], i, g);
    k :| i < k < j && Ends(es[..j], k, g);
    PrefixSame(es, j, k, g);
  }

  /** Seeing the same boost again decides nothing, whatever econo reads then. */
  lemma ObservationIdempotent(es: seq<Event>, g: string, anyPowerful: bool, econoOn: bool, econoThen: bool)
    ensures DecisionAt(es + [Observed(g, anyPowerful, econoOn), Observed(g, anyPowerful, econoThen)], |es| + 1) == NoAction
  {
    var all := es + [Observed(g, anyPowerful, econoOn), Observed(g, anyPowerful, econoThen)];
    assert all[..|es| + 1][..|es|] == es;
  }
}
