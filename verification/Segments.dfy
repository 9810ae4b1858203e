/**
 The calendar view of a resolved week: per day, runs of slots with one winner.
 */
module Segments {
  import opened Options
  import opened ScheduleModel
  import opened Ring
  import opened Switches

  datatype Segment = Segment(claim: Claim, day: nat, fromMinute: nat, toMinute: nat)

  // A run of half-hours lo, lo + 1, .., hi - 1 of one day with one winner.
  datatype Run = Run(claim: Claim, lo: nat, hi: nat)

  function RunKey(r: Run): string { Key(Some(r.claim)) }

  type Day = d: seq<Option<Claim>> | |d| == SLOTS_PER_DAY witness seq(SLOTS_PER_DAY, _ => None)

  function DayOf(w: seq<Option<Claim>>, day: nat): Day
    requires |w| == SLOTS_PER_WEEK && day < 7
  {
    w[day * SLOTS_PER_DAY..(day + 1) * SLOTS_PER_DAY]
  }

  function CellKey(d: Day, i: nat): string
    requires i < SLOTS_PER_DAY
  {
    Key(d[i])
  }

  // The run starts with its claim and has that claim's key throughout.
  ghost predicate OneWinner(d: Day, r: Run) {
    && r.lo < r.hi <= SLOTS_PER_DAY
    && d[r.lo] == Some(r.claim)
    && forall i :: r.lo <= i < r.hi ==> CellKey(d, i) == RunKey(r)
  }

  ghost predicate AllGaps(d: Day, lo: nat, hi: nat)
    requires hi <= SLOTS_PER_DAY
  {
    forall i :: lo <= i < hi ==> CellKey(d, i) == ""
  }

  /** The runs describe the first hi slots of the day: one after the other, with
      only gaps left out, and with different winners where two of them touch. */
  ghost predicate Tiles(d: Day, hi: nat, runs: seq<Run>)
    requires hi <= SLOTS_PER_DAY
    decreases |runs|
  {
    if runs == [] then AllGaps(d, 0, hi)
    else
      var r, rest := runs[|runs| - 1], runs[..|runs| - 1];
      && OneWinner(d, r) && r.hi <= hi && AllGaps(d, r.hi, hi)
      && Tiles(d, r.lo, rest)
      && (rest != [] && rest[|rest| - 1].hi == r.lo ==> RunKey(rest[|rest| - 1]) != RunKey(r))
  }

  lemma SomeHasKey(c: Claim)
    ensures Key(Some(c)) != ""
  {
  }

  lemma TilesExtend(d: Day, i: nat, runs: seq<Run>, r: Run)
    requires i < SLOTS_PER_DAY && Tiles(d, i, runs + [r]) && r.hi == i && CellKey(d, i) == RunKey(r)
    ensures Tiles(d, i + 1, runs + [r.(hi := i + 1)])
  {
    assert (runs + [r])[..|runs|] == runs == (runs + [r.(hi := i + 1)])[..|runs|];
  }

  lemma TilesGap(d: Day, i: nat, runs: seq<Run>)
    requires i < SLOTS_PER_DAY && Tiles(d, i, runs) && d[i].None?
    ensures Tiles(d, i + 1, runs)
  {
  }

  lemma TilesStart(d: Day, i: nat, runs: seq<Run>, c: Claim)
    requires i < SLOTS_PER_DAY && Tiles(d, i, runs) && d[i] == Some(c)
    requires runs != [] && runs[|runs| - 1].hi == i ==> RunKey(runs[|runs| - 1]) != Key(d[i])
    ensures Tiles(d, i + 1, runs + [Run(c, i, i + 1)])
  {
    var r, now := Run(c, i, i + 1), runs + [Run(c, i, i + 1)];
    assert now[..|runs|] == runs && now[|runs|] == r;
    assert OneWinner(d, r) && AllGaps(d, i + 1, i + 1);
  }

  function AsSegment(day: nat, r: Run): Segment {
    Segment(r.claim, day, r.lo * SLOT_MINUTES, r.hi * SLOT_MINUTES)
  }

  function AsSegments(day: nat, runs: seq<Run>): seq<Segment> {
    seq(|runs|, a requires 0 <= a < |runs| => AsSegment(day, runs[a]))
  }

  // What the scan has found before slot i: finished segments and perhaps an open one.
  ghost predicate Scanned(d: Day, day: nat, i: nat, out: seq<Segment>, run: Option<Segment>, runs: seq<Run>)
    requires i <= SLOTS_PER_DAY
  {
    && Tiles(d, i, runs)
    && match run
       case None => out == AsSegments(day, runs) && (runs != [] ==> runs[|runs| - 1].hi < i)
       case Some(s) =>
         && runs != [] && out == AsSegments(day, runs[..|runs| - 1])
         && s == AsSegment(day, runs[|runs| - 1]) && runs[|runs| - 1].hi == i
  }

  function Close(out: seq<Segment>, run: Option<Segment>): seq<Segment> {
    match run
    case None => out
    case Some(s) => out + [s]
  }

  lemma ScannedClose(d: Day, day: nat, i: nat, out: seq<Segment>, run: Option<Segment>, runs: seq<Run>)
    requires i <= SLOTS_PER_DAY && Scanned(d, day, i, out, run, runs)
    ensures Close(out, run) == AsSegments(day, runs)
  {
    if run.Some? {
      assert runs == runs[..|runs| - 1] + [runs[|runs| - 1]];
    }
  }

  method DaySegments(w: array<Option<Claim>>, day: int) returns (out: seq<Segment>, ghost runs: seq<Run>)
    requires w.Length == SLOTS_PER_WEEK
    ensures !(0 <= day < 7) ==> out == []
    ensures 0 <= day < 7 ==> out == AsSegments(day, runs) && Tiles(DayOf(w[..], day), SLOTS_PER_DAY, runs)
  {
    out, runs := [], [];
    if day < 0 || day >= 7 { return; }
    ghost var d := DayOf(w[..], day);
    var run: Option<Segment> := None;
    for i := 0 to SLOTS_PER_DAY
      invariant Scanned(d, day, i, out, run, runs)
    {
      var c := w[day * SLOTS_PER_DAY + i];
      assert c == d[i];
      if run.Some? && Key(Some(run.value.claim)) == Key(c) {
        ScanExtend(d, day, i, out, run.value, runs);
        run := Some(run.value.(toMinute := (i + 1) * SLOT_MINUTES));
        runs := runs[..|runs| - 1] + [runs[|runs| - 1].(hi := i + 1)];
      } else if c.None? {
        ScanGap(d, day, i, out, run, runs);
        out, run := Close(out, run), None;
      } else {
        ScanStart(d, day, i, out, run, runs, c.value);
        out, run := Close(out, run), Some(Segment(c.value, day, i * SLOT_MINUTES, (i + 1) * SLOT_MINUTES));
        runs := runs + [Run(c.value, i, i + 1)];
      }
    }
    ScannedClose(d, day, SLOTS_PER_DAY, out, run, runs);
    out := Close(out, run);
  }

  lemma ScanExtend(d: Day, day: nat, i: nat, out: seq<Segment>, s: Segment, runs: seq<Run>)
    requires i < SLOTS_PER_DAY && Scanned(d, day, i, out, Some(s), runs)
    requires Key(Some(s.claim)) == Key(d[i])
    ensures Scanned(d, day, i + 1, out, Some(s.(toMinute := (i + 1) * SLOT_MINUTES)),
                    runs[..|runs| - 1] + [runs[|runs| - 1].(hi := i + 1)])
  {
    var r, rest := runs[|runs| - 1], runs[..|runs| - 1];
    assert runs == rest + [r];
    TilesExtend(d, i, rest, r);
    assert (rest + [r.(hi := i + 1)])[..|rest|] == rest;
  }

  lemma ScanGap(d: Day, day: nat, i: nat, out: seq<Segment>, run: Option<Segment>, runs: seq<Run>)
    requires i < SLOTS_PER_DAY && Scanned(d, day, i, out, run, runs) && d[i].None?
    ensures Scanned(d, day, i + 1, Close(out, run), None, runs)
  {
    ScannedClose(d, day, i, out, run, runs);
    TilesGap(d, i, runs);
  }

  lemma ScanStart(d: Day, day: nat, i: nat, out: seq<Segment>, run: Option<Segment>, runs: seq<Run>, c: Claim)
    requires i < SLOTS_PER_DAY && Scanned(d, day, i, out, run, runs) && d[i] == Some(c)
    requires run.Some? ==> Key(Some(run.value.claim)) != Key(d[i])
    ensures Scanned(d, day, i + 1, Close(out, run), Some(Segment(c, day, i * SLOT_MINUTES, (i + 1) * SLOT_MINUTES)),
                    runs + [Run(c, i, i + 1)])
  {
    ScannedClose(d, day, i, out, run, runs);
    TilesStart(d, i, runs, c);
    assert (runs + [Run(c, i, i + 1)])[..|runs|] == runs;
  }

  // --- what tiling means --------------------------------------------------

  // Ordered, disjoint, inside the day, one winner each, different winners where two touch.
  lemma {:induction false} TilesOrdered(d: Day, hi: nat, runs: seq<Run>)
    requires hi <= SLOTS_PER_DAY && Tiles(d, hi, runs)
    ensures forall a :: 0 <= a < |runs| ==> OneWinner(d, runs[a]) && runs[a].hi <= hi
    ensures forall a, b :: 0 <= a < b < |runs| ==> runs[a].hi <= runs[b].lo
    ensures forall a :: 0 <= a < |runs| - 1 && runs[a].hi == runs[a + 1].lo ==> RunKey(runs[a]) != RunKey(runs[a + 1])
  {
    if runs == [] {
    } else {
      var r, rest := runs[|runs| - 1], runs[..|runs| - 1];
      TilesOrdered(d, r.lo, rest);
      assert forall a :: 0 <= a < |rest| ==> runs[a] == rest[a];
    }
  }

  // There is only one way to tile a day.
  lemma {:induction false} TilesUnique(d: Day, hi: nat, p: seq<Run>, q: seq<Run>)
    requires hi <= SLOTS_PER_DAY && Tiles(d, hi, p) && Tiles(d, hi, q)
    ensures p == q
    decreases hi
  {
    if hi == 0 {
    } else {
      if CellKey(d, hi - 1) == "" {
        TilesUnique(d, hi - 1, p, q);
      } else {
        assert p != [] && q != [];
        var r, s := p[|p| - 1], q[|q| - 1];
        assert r.hi == hi && s.hi == hi;
        assert CellKey(d, hi - 1) == RunKey(r) == RunKey(s);
        RunStartsHere(d, hi, p);
        RunStartsHere(d, hi, q);
        assert r.lo == s.lo;
        TilesUnique(d, r.lo, p[..|p| - 1], q[..|q| - 1]);
        assert p == p[..|p| - 1] + [r] && q == q[..|q| - 1] + [s];
      }
    }
  }

  // The slot in front of the last run has another winner, or none.
  lemma RunStartsHere(d: Day, hi: nat, runs: seq<Run>)
    requires hi <= SLOTS_PER_DAY && Tiles(d, hi, runs) && runs != []
    ensures var r := runs[|runs| - 1]; r.lo > 0 ==> CellKey(d, r.lo - 1) != RunKey(r)
  {
    var r, rest := runs[|runs| - 1], runs[..|runs| - 1];
    SomeHasKey(r.claim);
    if rest != [] && rest[|rest| - 1].hi == r.lo {
      assert CellKey(d, r.lo - 1) == RunKey(rest[|rest| - 1]);
    } else if r.lo > 0 {
      assert CellKey(d, r.lo - 1) == "";
    }
  }

  // --- painting back ------------------------------------------------------

  predicate CoversSlot(s: Segment, slot: Slot) {
    s.day == slot / SLOTS_PER_DAY && s.fromMinute <= (slot % SLOTS_PER_DAY) * SLOT_MINUTES < s.toMinute
  }

  // The key the listed segments paint on a slot, later segments over earlier ones.
  function PaintedKey(segs: seq<Segment>, slot: Slot): string {
    if segs == [] then ""
    else
      var s := segs[|segs| - 1];
      if CoversSlot(s, slot) then Key(Some(s.claim)) else PaintedKey(segs[..|segs| - 1], slot)
  }

  function PaintBack(segs: seq<Segment>): Keys {
    seq(SLOTS_PER_WEEK, slot requires 0 <= slot < SLOTS_PER_WEEK => PaintedKey(segs, slot))
  }

  // Segments of other days do not touch the slot.
  lemma {:induction false} PaintedAppend(segs: seq<Segment>, day: nat, runs: seq<Run>, slot: Slot)
    ensures PaintedKey(segs + AsSegments(day, runs), slot)
         == if slot / SLOTS_PER_DAY == day && PaintedKey(AsSegments(day, runs), slot) != ""
            then PaintedKey(AsSegments(day, runs), slot) else PaintedKey(segs, slot)
  {
    var add := AsSegments(day, runs);
    if runs == [] {
      assert segs + add == segs;
    } else {
      var init := runs[..|runs| - 1];
      PaintedAppend(segs, day, init, slot);
      assert add[..|runs| - 1] == AsSegments(day, init);
      assert (segs + add)[..|segs + add| - 1] == segs + AsSegments(day, init);
      SomeHasKey(runs[|runs| - 1].claim);
    }
  }

  lemma {:induction false} TilesPaint(d: Day, day: nat, hi: nat, runs: seq<Run>, slot: Slot)
    requires hi <= SLOTS_PER_DAY && Tiles(d, hi, runs)
    requires slot / SLOTS_PER_DAY == day && slot % SLOTS_PER_DAY < hi
    ensures PaintedKey(AsSegments(day, runs), slot) == CellKey(d, slot % SLOTS_PER_DAY)
  {
    if runs == [] {
    } else {
      var r, rest := runs[|runs| - 1], runs[..|runs| - 1];
      assert AsSegments(day, runs)[..|runs| - 1] == AsSegments(day, rest);
      if slot % SLOTS_PER_DAY < r.lo { TilesPaint(d, day, r.lo, rest, slot); }
      else if slot % SLOTS_PER_DAY >= r.hi { PaintsNothing(d, day, r.lo, rest, slot); }
    }
  }

  lemma {:induction false} PaintsNothing(d: Day, day: nat, hi: nat, runs: seq<Run>, slot: Slot)
    requires hi <= SLOTS_PER_DAY && Tiles(d, hi, runs) && slot % SLOTS_PER_DAY >= hi
    ensures PaintedKey(AsSegments(day, runs), slot) == ""
  {
    if runs == [] {
    } else {
      var r, rest := runs[|runs| - 1], runs[..|runs| - 1];
      assert AsSegments(day, runs)[..|runs| - 1] == AsSegments(day, rest);
      PaintsNothing(d, day, r.lo, rest, slot);
    }
  }

  /** The preview lists the segments of all seven days; painting them back
      gives the winner key of every slot of the week, gaps included. */
  method WeekSegments(w: array<Option<Claim>>) returns (out: seq<Segment>)
    requires w.Length == SLOTS_PER_WEEK
    ensures PaintBack(out) == KeysOf(w[..])
  {
    out := [];
    for day := 0 to 7
      invariant forall slot: Slot ::
        PaintedKey(out, slot) == if slot / SLOTS_PER_DAY < day then Key(w[slot]) else ""
    {
      var segs, runs := DaySegments(w, day);
      forall slot: Slot
        ensures PaintedKey(out + segs, slot) == if slot / SLOTS_PER_DAY < day + 1 then Key(w[slot]) else ""
      {
        PaintedAppend(out, day, runs, slot);
        if slot / SLOTS_PER_DAY == day {
          TilesPaint(DayOf(w[..], day), day, SLOTS_PER_DAY, runs, slot);
          assert w[slot] == DayOf(w[..], day)[slot % SLOTS_PER_DAY];
        }
      }
      out := out + segs;
    }
  }
}
