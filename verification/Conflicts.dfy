/**
 Windows in which the devices of one outdoor unit are scheduled to heat and to
 cool at the same time.
 */
module Conflicts {
  import opened Options
  import opened Text
  import opened ScheduleModel
  import opened Ring

  datatype Conflict = Conflict(group: string, fromSlot: nat, toSlot: nat, heating: seq<string>, cooling: seq<string>)

  datatype Side = Heat | Cool | Neither

  // Off, auto and fan-only commit to no compressor direction; dry runs it as cooling does.
  function SideOf(c: Option<Claim>): Side {
    match c
    case None => Neither
    case Some(c) =>
      if c.action.power == POWER_OFF then Neither
      else if c.action.hvacMode == MODE_HEAT then Heat
      else if c.action.hvacMode == MODE_COOL || c.action.hvacMode == MODE_DRY then Cool
      else Neither
  }

  // Per slot, the side every device of the group is on.
  type Table = t: seq<map<string, Side>> | |t| == SLOTS_PER_WEEK witness seq(SLOTS_PER_WEEK, _ => map[])

  ghost function TableOf(d: Document, ids: seq<string>): Table {
    seq(SLOTS_PER_WEEK, slot requires 0 <= slot < SLOTS_PER_WEEK => map id | id in ids :: SideOf(Resolved(d, id, slot)))
  }

  predicate On(t: Table, slot: Slot, id: string, side: Side) {
    id in t[slot] && t[slot][id] == side
  }

  ghost predicate Clash(t: Table, slot: Slot) {
    (exists id :: On(t, slot, id, Heat)) && (exists id :: On(t, slot, id, Cool))
  }

  // The strictly sorted list of the devices on a side somewhere in [lo, hi).
  ghost predicate Collects(t: Table, lo: nat, hi: nat, side: Side, ids: seq<string>)
    requires hi <= SLOTS_PER_WEEK
  {
    && Ascending(ids)
    && (forall id :: id in ids ==> exists s: Slot :: lo <= s < hi && On(t, s, id, side))
    && (forall s: Slot, id :: lo <= s < hi && On(t, s, id, side) ==> id in ids)
  }

  ghost predicate Window(t: Table, w: Conflict)
  {
    && w.fromSlot < w.toSlot <= SLOTS_PER_WEEK
    && (forall s: Slot :: w.fromSlot <= s < w.toSlot ==> Clash(t, s))
    && Collects(t, w.fromSlot, w.toSlot, Heat, w.heating)
    && Collects(t, w.fromSlot, w.toSlot, Cool, w.cooling)
  }

  ghost predicate Peace(t: Table, lo: nat, hi: nat)
    requires hi <= SLOTS_PER_WEEK
  {
    forall s: Slot :: lo <= s < hi ==> !Clash(t, s)
  }

  /** The windows describe the first hi slots: each is all conflict, and
      between two of them lies at least one slot without. */
  ghost predicate Windows(t: Table, hi: nat, wins: seq<Conflict>)
    requires hi <= SLOTS_PER_WEEK
    decreases |wins|
  {
    if wins == [] then Peace(t, 0, hi)
    else
      var w, rest := wins[|wins| - 1], wins[..|wins| - 1];
      && Window(t, w) && w.toSlot <= hi && Peace(t, w.toSlot, hi)
      && (w.fromSlot > 0 ==> !Clash(t, w.fromSlot - 1))
      && Windows(t, w.fromSlot, rest)
  }

  // w ends before x begins, and the slot before x is no conflict.
  ghost predicate Apart(t: Table, w: Conflict, x: Conflict) {
    w.toSlot < x.fromSlot < SLOTS_PER_WEEK && !Clash(t, x.fromSlot - 1)
  }

  lemma {:induction false} WindowInside(t: Table, hi: nat, wins: seq<Conflict>, i: nat)
    requires hi <= SLOTS_PER_WEEK && Windows(t, hi, wins) && i < |wins|
    ensures Window(t, wins[i]) && wins[i].toSlot <= hi
  {
    hide Window, Peace, Clash;
    var w, rest := wins[|wins| - 1], wins[..|wins| - 1];
    if i == |rest| {
    } else {
      assert w.fromSlot < w.toSlot by { WindowBounds(t, w); }
      WindowInside(t, w.fromSlot, rest, i);
    }
  }

  lemma WindowBounds(t: Table, w: Conflict)
    requires Window(t, w)
    ensures w.fromSlot < w.toSlot <= SLOTS_PER_WEEK && Clash(t, w.fromSlot) && Clash(t, w.toSlot - 1)
  {
  }

  lemma {:induction false} WindowsApart(t: Table, hi: nat, wins: seq<Conflict>, i: nat, j: nat)
    requires hi <= SLOTS_PER_WEEK && Windows(t, hi, wins) && i < j < |wins|
    ensures Apart(t, wins[i], wins[j])
  {
    hide Window, Peace, Clash;
    var w, rest := wins[|wins| - 1], wins[..|wins| - 1];
    WindowBounds(t, w);
    if j == |rest| {
      WindowInside(t, w.fromSlot, rest, i);
      WindowBounds(t, rest[i]);
    } else {
      WindowsApart(t, w.fromSlot, rest, i, j);
    }
  }

  lemma WindowsOrdered(t: Table, hi: nat, wins: seq<Conflict>)
    requires hi <= SLOTS_PER_WEEK && Windows(t, hi, wins)
    ensures forall i :: 0 <= i < |wins| ==> Window(t, wins[i]) && wins[i].toSlot <= hi
    ensures forall i, j :: 0 <= i < j < |wins| ==> Apart(t, wins[i], wins[j])
  {
    hide Windows, Window, Apart;
    forall i | 0 <= i < |wins| ensures Window(t, wins[i]) && wins[i].toSlot <= hi {
      WindowInside(t, hi, wins, i);
    }
    forall i, j | 0 <= i < j < |wins|
      ensures Apart(t, wins[i], wins[j])
    {
      WindowsApart(t, hi, wins, i, j);
    }
  }

  lemma {:induction false} WindowsComplete(t: Table, hi: nat, wins: seq<Conflict>, s: Slot)
    requires hi <= SLOTS_PER_WEEK && Windows(t, hi, wins) && s < hi && Clash(t, s)
    ensures exists i :: 0 <= i < |wins| && wins[i].fromSlot <= s < wins[i].toSlot
  {
    var w, rest := wins[|wins| - 1], wins[..|wins| - 1];
    if s >= w.fromSlot {
    } else {
      WindowsComplete(t, w.fromSlot, rest, s);
      var i :| 0 <= i < |rest| && rest[i].fromSlot <= s < rest[i].toSlot;
      assert wins[i] == rest[i];
    }
  }

  // The device's winning block runs it, in heat.
  ghost predicate Heats(d: Document, id: string, s: Slot) {
    match Resolved(d, id, s)
    case None => false
    case Some(c) => c.action.power != "off" && c.action.hvacMode == "heat"
  }

  // The device's winning block runs it, in cool or dry.
  ghost predicate Cools(d: Document, id: string, s: Slot) {
    match Resolved(d, id, s)
    case None => false
    case Some(c) => c.action.power != "off" && (c.action.hvacMode == "cool" || c.action.hvacMode == "dry")
  }

  lemma OnSide(d: Document, ids: seq<string>, s: Slot, id: string)
    ensures On(TableOf(d, ids), s, id, Heat) <==> id in ids && Heats(d, id, s)
    ensures On(TableOf(d, ids), s, id, Cool) <==> id in ids && Cools(d, id, s)
  {
    hide Resolved;
  }

  lemma ClashInDocument(d: Document, ids: seq<string>, s: Slot)
    ensures Clash(TableOf(d, ids), s) <==> exists a, b :: a in ids && b in ids && Heats(d, a, s) && Cools(d, b, s)
  {
    forall id { OnSide(d, ids, s, id); }
    hide On, TableOf, Heats, Cools;
    var t := TableOf(d, ids);
    if Clash(t, s) {
      var a :| On(t, s, a, Heat);
      var b :| On(t, s, b, Cool);
    }
    forall a, b | a in ids && b in ids && Heats(d, a, s) && Cools(d, b, s) ensures Clash(t, s) {
      assert On(t, s, a, Heat) && On(t, s, b, Cool);
    }
  }

  /** A slot lies in exactly one window if one device of the group is scheduled
      to heat and one to cool or dry there, and in none otherwise. */
  lemma ConflictsExact(d: Document, ids: seq<string>, wins: seq<Conflict>, s: Slot)
    requires Windows(TableOf(d, ids), SLOTS_PER_WEEK, wins)
    ensures (exists i :: 0 <= i < |wins| && wins[i].fromSlot <= s < wins[i].toSlot) <==>
      exists a, b :: a in ids && b in ids && Heats(d, a, s) && Cools(d, b, s)
    ensures forall i, j :: 0 <= i < j < |wins| ==>
      !(wins[i].fromSlot <= s < wins[i].toSlot && wins[j].fromSlot <= s < wins[j].toSlot)
  {
    var t := TableOf(d, ids);
    WindowsOrdered(t, SLOTS_PER_WEEK, wins);
    ClashInDocument(d, ids, s);
    hide TableOf, Heats, Cools;
    if Clash(t, s) {
      WindowsComplete(t, SLOTS_PER_WEEK, wins, s);
    }
  }

  /** The two lists of a window hold, sorted and each once, exactly the devices
      that heat, and those that cool or dry, somewhere in it. */
  lemma WindowSides(d: Document, ids: seq<string>, wins: seq<Conflict>, i: nat)
    requires Windows(TableOf(d, ids), SLOTS_PER_WEEK, wins) && i < |wins|
    ensures var w := wins[i];
      && Ascending(w.heating) && Ascending(w.cooling)
      && (forall id :: id in w.heating <==> id in ids && exists s: Slot :: w.fromSlot <= s < w.toSlot && Heats(d, id, s))
      && (forall id :: id in w.cooling <==> id in ids && exists s: Slot :: w.fromSlot <= s < w.toSlot && Cools(d, id, s))
  {
    var t := TableOf(d, ids);
    WindowInside(t, SLOTS_PER_WEEK, wins, i);
    forall s: Slot, id { OnSide(d, ids, s, id); }
    hide On, TableOf, Heats, Cools, Windows, Clash, Ascending;
  }

  // --- the program --------------------------------------------------------

  // Every entry of b is inserted into a where it belongs, unless it is there.
  method Union(a: seq<string>, b: seq<string>) returns (r: seq<string>)
    requires Ascending(a)
    ensures Ascending(r) && forall x :: x in r <==> x in a || x in b
  {
    r := a;
    for n := 0 to |b|
      invariant Ascending(r) && forall x :: x in r <==> x in a || x in b[..n]
    {
      var v := b[n];
      var i := SearchStrings(r, v);
      if !(i < |r| && r[i] == v) {
        NotThere(r, i, v);
        AscendingInsert(r, i, v);
        r := r[..i] + [v] + r[i..];
      }
      assert b[..n + 1] == b[..n] + [v];
    }
    assert b[..|b|] == b;
  }

  lemma NotThere(s: seq<string>, i: nat, v: string)
    requires Ascending(s) && i <= |s| && (i < |s| ==> s[i] != v)
    requires forall k :: i <= k < |s| ==> !Less(s[k], v)
    ensures forall k :: i <= k < |s| ==> Less(v, s[k])
  {
    forall k | i <= k < |s| ensures Less(v, s[k]) {
      LessTotal(s[i], v);
      if i < k { LessTransitive(v, s[i], s[k]); }
    }
  }

  type Weeks = map<string, seq<Option<Claim>>>

  ghost predicate Resolves(d: Document, ids: seq<string>, weeks: Weeks) {
    forall id :: id in ids ==> id in weeks && weeks[id] == WeekOf(d, id)
  }

  method Sides(ghost d: Document, weeks: Weeks, ids: seq<string>, slot: Slot) returns (heat: seq<string>, cool: seq<string>)
    requires Resolves(d, ids, weeks)
    ensures forall id :: id in heat <==> On(TableOf(d, ids), slot, id, Heat)
    ensures forall id :: id in cool <==> On(TableOf(d, ids), slot, id, Cool)
  {
    heat, cool := [], [];
    for n := 0 to |ids|
      invariant forall id :: id in heat <==> id in ids[..n] && SideOf(Resolved(d, id, slot)) == Heat
      invariant forall id :: id in cool <==> id in ids[..n] && SideOf(Resolved(d, id, slot)) == Cool
    {
      assert ids[..n + 1] == ids[..n] + [ids[n]];
      assert weeks[ids[n]][slot] == Resolved(d, ids[n], slot);
      hide SideOf, Resolved;
      match SideOf(weeks[ids[n]][slot])
      case Heat => heat := heat + [ids[n]];
      case Cool => cool := cool + [ids[n]];
      case Neither =>
    }
    assert ids[..|ids|] == ids;
  }

  // The scan before a slot: finished windows and perhaps one that reaches up to the slot.
  ghost predicate Scanned(t: Table, slot: nat, out: seq<Conflict>, run: Option<Conflict>)
    requires slot <= SLOTS_PER_WEEK
  {
    match run
    case None => Windows(t, slot, out) && (slot > 0 ==> !Clash(t, slot - 1))
    case Some(w) => Windows(t, slot, out + [w]) && w.toSlot == slot
  }

  lemma ScanPeace(t: Table, slot: Slot, out: seq<Conflict>, run: Option<Conflict>)
    requires Scanned(t, slot, out, run) && !Clash(t, slot)
    ensures Scanned(t, slot + 1, if run.Some? then out + [run.value] else out, None)
  {
  }

  lemma ScanStart(t: Table, slot: Slot, out: seq<Conflict>, w: Conflict)
    requires Scanned(t, slot, out, None) && Clash(t, slot)
    requires w.fromSlot == slot && w.toSlot == slot + 1
    requires Collects(t, slot, slot + 1, Heat, w.heating) && Collects(t, slot, slot + 1, Cool, w.cooling)
    ensures Scanned(t, slot + 1, out, Some(w))
  {
    assert (out + [w])[..|out|] == out;
  }

  lemma ScanExtend(t: Table, slot: Slot, out: seq<Conflict>, w: Conflict, x: Conflict)
    requires Scanned(t, slot, out, Some(w)) && Clash(t, slot)
    requires x.fromSlot == w.fromSlot && x.toSlot == slot + 1
    requires Collects(t, w.fromSlot, slot + 1, Heat, x.heating) && Collects(t, w.fromSlot, slot + 1, Cool, x.cooling)
    ensures Scanned(t, slot + 1, out, Some(x))
  {
    assert (out + [w])[..|out|] == out == (out + [x])[..|out|];
  }

  // A sorted union with one more slot's devices collects up to that slot.
  lemma CollectMore(t: Table, lo: nat, slot: Slot, side: Side, ids: seq<string>, more: seq<string>, r: seq<string>)
    requires lo <= slot && Collects(t, lo, slot, side, ids)
    requires forall id :: id in more <==> On(t, slot, id, side)
    requires Ascending(r) && forall x :: x in r <==> x in ids || x in more
    ensures Collects(t, lo, slot + 1, side, r)
  {
    forall id | id in r ensures exists s: Slot :: lo <= s < slot + 1 && On(t, s, id, side) {
      if id in ids {
        var s: Slot :| lo <= s < slot && On(t, s, id, side);
      }
    }
  }

  method FindConflicts(d: Document, group: string, ids: seq<string>) returns (out: seq<Conflict>)
    ensures Windows(TableOf(d, ids), SLOTS_PER_WEEK, out)
    ensures forall w :: w in out ==> w.group == group
  {
    ghost var t := TableOf(d, ids);
    if |ids| < 2 {
      NoClashAlone(d, ids);
      return [];
    }
    var weeks: Weeks := map[];
    for n := 0 to |ids|
      invariant forall id :: id in ids[..n] ==> id in weeks && weeks[id] == WeekOf(d, id)
    {
      var w := Resolve(d, ids[n]);
      weeks := weeks[ids[n] := w[..]];
      assert ids[..n + 1] == ids[..n] + [ids[n]];
    }
    assert ids[..|ids|] == ids;

    out := [];
    var run: Option<Conflict> := None;
    for slot := 0 to SLOTS_PER_WEEK
      invariant Scanned(t, slot, out, run)
      invariant (forall w :: w in out ==> w.group == group) && (run.Some? ==> run.value.group == group)
    {
      var heat, cool := Sides(d, weeks, ids, slot);
      ClashBySides(t, slot, heat, cool);
      if heat == [] || cool == [] {
        ScanPeace(t, slot, out, run);
        if run.Some? {
          out, run := out + [run.value], None;
        }
      } else {
        out, run := Grow(t, group, slot, out, run, heat, cool);
      }
    }
    if run.Some? {
      out := out + [run.value];
    }
  }

  lemma ClashBySides(t: Table, slot: Slot, heat: seq<string>, cool: seq<string>)
    requires forall id :: id in heat <==> On(t, slot, id, Heat)
    requires forall id :: id in cool <==> On(t, slot, id, Cool)
    ensures Clash(t, slot) <==> heat != [] && cool != []
  {
    if heat != [] && cool != [] {
      assert On(t, slot, heat[0], Heat) && On(t, slot, cool[0], Cool);
    }
  }

  // A conflict slot opens a window or extends the one that is open.
  method Grow(ghost t: Table, group: string, slot: Slot, out: seq<Conflict>, run: Option<Conflict>,
              heat: seq<string>, cool: seq<string>)
    returns (out': seq<Conflict>, run': Option<Conflict>)
    requires Scanned(t, slot, out, run) && Clash(t, slot)
    requires forall id :: id in heat <==> On(t, slot, id, Heat)
    requires forall id :: id in cool <==> On(t, slot, id, Cool)
    requires run.Some? ==> run.value.group == group
    ensures out' == out && run'.Some? && run'.value.group == group
    ensures Scanned(t, slot + 1, out', run')
  {
    var w := if run.Some? then run.value else Conflict(group, slot, slot, [], []);
    assert Collects(t, w.fromSlot, slot, Heat, w.heating) && Collects(t, w.fromSlot, slot, Cool, w.cooling) by {
      if run.Some? { assert (out + [w])[|out|] == w; }
    }
    var hs := Union(w.heating, heat);
    var cs := Union(w.cooling, cool);
    CollectMore(t, w.fromSlot, slot, Heat, w.heating, heat, hs);
    CollectMore(t, w.fromSlot, slot, Cool, w.cooling, cool, cs);
    var x := w.(toSlot := slot + 1, heating := hs, cooling := cs);
    if run.Some? {
      ScanExtend(t, slot, out, w, x);
    } else {
      ScanStart(t, slot, out, x);
    }
    return out, Some(x);
  }

  // A single device cannot be on both sides.
  lemma NoClashAlone(d: Document, ids: seq<string>)
    requires |ids| < 2
    ensures Windows(TableOf(d, ids), SLOTS_PER_WEEK, [])
  {
    hide Resolved, TableOf;
    forall s: Slot ensures !Clash(TableOf(d, ids), s) {
      ClashInDocument(d, ids, s);
    }
  }
}
