/**
 The week as a ring of 336 slots. `Resolved` says which claim holds a slot by
 comparing every candidate of the document; `Resolve` is the in-place painting
 that the program runs, proved to leave exactly those claims in the ring.
 */
module Ring {
  import opened Options
  import opened ScheduleModel

  datatype Claim = Claim(
    scheduleID: string,
    scheduleName: string,
    blockID: string,
    blockName: string,
    priority: int,
    action: Action,
    onEnd: string,
    start: nat,
    age: nat)

  function Key(c: Option<Claim>): string {
    match c
    case None => ""
    case Some(c) => c.scheduleID + "/" + c.blockID
  }

  // Higher priority wins; at equal priority the block that started later does.
  predicate Beats(cand: Claim, cur: Option<Claim>) {
    match cur
    case None => true
    case Some(cur) =>
      if cand.priority != cur.priority then cand.priority > cur.priority
      else cand.age < cur.age
  }

  // --- the declarative definition -----------------------------------------

  // One weekday entry of one block of one schedule: the unit that stakes claims.
  datatype Site = Site(sched: nat, block: nat, day: nat)

  // Document order: schedules first, then blocks, then weekday entries.
  predicate Before(p: Site, q: Site) {
    p.sched < q.sched
    || (p.sched == q.sched && (p.block < q.block || (p.block == q.block && p.day < q.day)))
  }

  predicate InDocument(d: Document, p: Site) {
    && p.sched < |d.schedules|
    && p.block < |d.schedules[p.sched].blocks|
    && p.day < |d.schedules[p.sched].blocks[p.block].days|
  }

  function BlockAt(d: Document, p: Site): Block
    requires InDocument(d, p)
  {
    d.schedules[p.sched].blocks[p.block]
  }

  // The site belongs to an enabled schedule for this target and names a weekday.
  predicate Stakes(d: Document, key: string, p: Site) {
    && InDocument(d, p)
    && d.schedules[p.sched].enabled
    && d.schedules[p.sched].Applies(key)
    && DayIndex(BlockAt(d, p).days[p.day]).Some?
  }

  type Slot = s: int | 0 <= s < SLOTS_PER_WEEK

  function FirstSlot(day: nat, startMinute: nat): Slot
    requires day < 7 && startMinute < MINUTES_PER_DAY
  {
    day * SLOTS_PER_DAY + startMinute / SLOT_MINUTES
  }

  function Span(b: Block): (n: nat)
    ensures 0 < n <= SLOTS_PER_DAY
  {
    b.Duration() / SLOT_MINUTES
  }

  // How far a slot lies behind another one, going forward around the week.
  function Ahead(first: Slot, slot: Slot): Slot {
    if first <= slot then slot - first else slot - first + SLOTS_PER_WEEK
  }

  lemma AheadAddsUp(first: Slot, slot: Slot)
    ensures (first + Ahead(first, slot)) % SLOTS_PER_WEEK == slot
  {
  }

  lemma AheadOf(first: Slot, n: Slot)
    ensures Ahead(first, (first + n) % SLOTS_PER_WEEK) == n && first % SLOTS_PER_WEEK == first
  {
    assert (first + n) % SLOTS_PER_WEEK == if first + n < SLOTS_PER_WEEK then first + n else first + n - SLOTS_PER_WEEK;
  }

  function Start(d: Document, key: string, p: Site): Slot
    requires Stakes(d, key, p)
  {
    var b := BlockAt(d, p);
    FirstSlot(DayIndex(b.days[p.day]).value, b.StartMinute())
  }

  predicate Covers(d: Document, key: string, slot: Slot, p: Site) {
    Stakes(d, key, p) && Ahead(Start(d, key, p), slot) < Span(BlockAt(d, p))
  }

  function MakeClaim(s: Schedule, b: Block, start: nat, age: nat): Claim {
    Claim(s.id, s.name, b.id, b.name, s.priority, b.action, b.onEnd, start, age)
  }

  // The claim's own bookkeeping points back at the slot it holds.
  predicate Placed(c: Claim, slot: Slot) {
    c.start < SLOTS_PER_WEEK && c.age < SLOTS_PER_DAY && (c.start + c.age) % SLOTS_PER_WEEK == slot
  }

  function ClaimOf(d: Document, key: string, slot: Slot, p: Site): (c: Claim)
    requires Stakes(d, key, p)
    ensures Covers(d, key, slot, p) ==> Placed(c, slot)
  {
    AheadAddsUp(Start(d, key, p), slot);
    MakeClaim(d.schedules[p.sched], BlockAt(d, p), Start(d, key, p), Ahead(Start(d, key, p), slot))
  }

  // The claims staked on one slot, by the site that stakes them.
  ghost function Candidates(d: Document, key: string, slot: Slot): (m: map<Site, Claim>)
    ensures forall p :: p in m <==> Covers(d, key, slot, p)
    ensures forall p :: p in m ==> Stakes(d, key, p) && m[p] == ClaimOf(d, key, slot, p)
    ensures forall p :: p in m ==> Placed(m[p], slot)
  {
    var sites := set i: nat, j: nat, k: nat |
      i < |d.schedules| && j < |d.schedules[i].blocks| && k < |d.schedules[i].blocks[j].days|
      && Covers(d, key, slot, Site(i, j, k)) :: Site(i, j, k);
    assert forall p :: Covers(d, key, slot, p) ==> p in sites by {
      forall p | Covers(d, key, slot, p) ensures p in sites {
        assert p == Site(p.sched, p.block, p.day);
      }
    }
    map p | p in sites :: ClaimOf(d, key, slot, p)
  }

  // p is taken over q: it beats q, or q does not beat it and p comes first in the document.
  predicate Ranked(cp: Claim, p: Site, cq: Claim, q: Site) {
    Beats(cp, Some(cq)) || (!Beats(cq, Some(cp)) && Before(p, q))
  }

  ghost predicate Best(m: map<Site, Claim>, p: Site) {
    p in m && forall q :: q in m && q != p ==> Ranked(m[p], p, m[q], q)
  }

  ghost function BestClaim(m: map<Site, Claim>): Option<Claim> {
    if exists p :: Best(m, p) then Some(m[BestSite(m)]) else None
  }

  ghost function BestSite(m: map<Site, Claim>): (p: Site)
    requires exists p :: Best(m, p)
    ensures Best(m, p)
  {
    var p :| Best(m, p); p
  }

  /** The winning claim of a slot. */
  ghost function Resolved(d: Document, key: string, slot: Slot): Option<Claim> {
    BestClaim(Candidates(d, key, slot))
  }

  ghost function WeekOf(d: Document, key: string): seq<Option<Claim>> {
    seq(SLOTS_PER_WEEK, slot requires 0 <= slot < SLOTS_PER_WEEK => Resolved(d, key, slot))
  }

  lemma {:induction false} BestExists(m: map<Site, Claim>) returns (best: Site)
    requires m != map[]
    ensures Best(m, best)
  {
    var x :| x in m;
    var rest := m - {x};
    assert forall q :: q in m <==> q == x || q in rest;
    if rest == map[] {
      best := x;
    } else {
      var b := BestExists(rest);
      if Ranked(m[b], b, m[x], x) {
        best := b;
      } else {
        best := x;
        forall q | q in rest ensures Ranked(m[x], x, m[q], q) {
          assert q == b || Ranked(rest[b], b, rest[q], q);
        }
      }
    }
  }

  lemma BestClaimIs(m: map<Site, Claim>, p: Site)
    requires Best(m, p)
    ensures BestClaim(m) == Some(m[p])
  {
  }

  lemma ResolvedIsCandidate(d: Document, key: string, slot: Slot)
    ensures Resolved(d, key, slot).None? <==> forall p :: !Covers(d, key, slot, p)
    ensures Resolved(d, key, slot).Some? ==>
      exists p :: Best(Candidates(d, key, slot), p) && Resolved(d, key, slot).value == ClaimOf(d, key, slot, p)
  {
    var m := Candidates(d, key, slot);
    if m != map[] {
      var best := BestExists(m);
      assert best in m;
    }
  }

  // An enabled schedule for the target has a block that runs at the slot:
  // since `age` half-hours, on the weekday entry p.
  ghost predicate RunsAt(d: Document, key: string, slot: Slot, p: Site, age: nat) {
    && InDocument(d, p) && d.schedules[p.sched].enabled
    && (exists t :: t in d.schedules[p.sched].targets && t.Key() == key)
    && SLOT_MINUTES * age < BlockAt(d, p).Duration()
    && exists day :: 0 <= day < 7 && BlockAt(d, p).days[p.day] == WEEKDAYS[day]
         && (SLOTS_PER_DAY * day + BlockAt(d, p).StartMinute() / SLOT_MINUTES + age) % SLOTS_PER_WEEK == slot
  }

  lemma CoversRuns(d: Document, key: string, slot: Slot, p: Site)
    requires Covers(d, key, slot, p)
    ensures RunsAt(d, key, slot, p, Ahead(Start(d, key, p), slot))
  {
    hide Block.Duration, Block.StartMinute;
    var b, day := BlockAt(d, p), DayIndex(BlockAt(d, p).days[p.day]).value;
    AheadAddsUp(Start(d, key, p), slot);
    var i :| 0 <= i < |d.schedules[p.sched].targets| && d.schedules[p.sched].targets[i].Key() == key;
    assert d.schedules[p.sched].targets[i] in d.schedules[p.sched].targets;
    assert 0 <= day < 7 && b.days[p.day] == WEEKDAYS[day];
  }

  lemma RunsCovers(d: Document, key: string, slot: Slot, p: Site, age: nat)
    requires RunsAt(d, key, slot, p, age)
    ensures Covers(d, key, slot, p) && age == Ahead(Start(d, key, p), slot)
  {
    hide Block.Duration, Block.StartMinute;
    var day :| 0 <= day < 7 && BlockAt(d, p).days[p.day] == WEEKDAYS[day]
      && (SLOTS_PER_DAY * day + BlockAt(d, p).StartMinute() / SLOT_MINUTES + age) % SLOTS_PER_WEEK == slot;
    DayIndexOf(day);
    AheadOf(Start(d, key, p), age);
  }

  // c holds the slot for site p: it carries what p's schedule and block say,
  // and no other running site has a higher priority, or the same priority and
  // a later start, or the same of both and an earlier place in the document.
  ghost predicate Wins(d: Document, key: string, slot: Slot, p: Site, c: Claim) {
    && RunsAt(d, key, slot, p, c.age)
    && var s, b := d.schedules[p.sched], BlockAt(d, p);
    && c.scheduleID == s.id && c.scheduleName == s.name && c.priority == s.priority
    && c.blockID == b.id && c.blockName == b.name && c.action == b.action && c.onEnd == b.onEnd
    && forall q, age: nat :: q != p && RunsAt(d, key, slot, q, age) ==>
         var other := d.schedules[q.sched].priority;
         || c.priority > other
         || (c.priority == other && c.age < age)
         || (c.priority == other && c.age == age && Before(p, q))
  }

  lemma BestWins(d: Document, key: string, slot: Slot, p: Site)
    requires Best(Candidates(d, key, slot), p)
    ensures Stakes(d, key, p) && Wins(d, key, slot, p, ClaimOf(d, key, slot, p))
  {
    hide RunsAt, Covers, Start, Stakes, Block.StartMinute, Block.Duration;
    var m := Candidates(d, key, slot);
    CoversRuns(d, key, slot, p);
    forall q, age: nat | q != p && RunsAt(d, key, slot, q, age)
      ensures q in m && m[q].age == age && m[q].priority == d.schedules[q.sched].priority && Ranked(m[p], p, m[q], q)
    {
      RunsCovers(d, key, slot, q, age);
    }
  }

  /** A slot is a gap exactly when no block runs there; otherwise the claim that
      wins holds it: highest priority, then latest start, then first in the document. */
  lemma ResolvedIsBest(d: Document, key: string, slot: Slot)
    ensures Resolved(d, key, slot).None? <==> forall p, age: nat :: !RunsAt(d, key, slot, p, age)
    ensures Resolved(d, key, slot).Some? ==> exists p :: Wins(d, key, slot, p, Resolved(d, key, slot).value)
  {
    ResolvedIsCandidate(d, key, slot);
    hide RunsAt, Covers, Wins, Resolved, Start;
    if Resolved(d, key, slot).Some? {
      var p :| Best(Candidates(d, key, slot), p) && Resolved(d, key, slot).value == ClaimOf(d, key, slot, p);
      BestWins(d, key, slot, p);
    }
    forall p | Covers(d, key, slot, p) ensures exists age: nat :: RunsAt(d, key, slot, p, age) { CoversRuns(d, key, slot, p); }
    forall p, age: nat | RunsAt(d, key, slot, p, age) ensures Covers(d, key, slot, p) { RunsCovers(d, key, slot, p, age); }
  }

  lemma ResolvedPlaced(d: Document, key: string, slot: Slot)
    ensures var c := Resolved(d, key, slot);
      c.Some? ==> Placed(c.value, slot)
  {
    BestClaimIn(Candidates(d, key, slot));
  }

  lemma BestClaimIn(m: map<Site, Claim>)
    ensures BestClaim(m).Some? ==> exists p :: p in m && BestClaim(m).value == m[p]
  {
  }

  // --- painting -----------------------------------------------------------

  // The best claim among the sites that come before f in the document.
  ghost function BestBefore(m: map<Site, Claim>, f: Site): Option<Claim> {
    BestClaim(map q | q in m && Before(q, f) :: m[q])
  }

  // The comparison in the inner loop takes the next site into account.
  lemma BestBeforeStep(m: map<Site, Claim>, p: Site, g: Site)
    requires p in m && forall q :: Before(q, g) <==> Before(q, p) || q == p
    ensures var c := BestBefore(m, p);
      BestBefore(m, g) ==
        if c.None? || m[p].priority > c.value.priority || (m[p].priority == c.value.priority && m[p].age < c.value.age)
        then Some(m[p]) else c
  {
    var mp, mg := map q | q in m && Before(q, p) :: m[q], map q | q in m && Before(q, g) :: m[q];
    if mp == map[] {
      assert forall q :: q in mg ==> q == p || q in mp;
      BestClaimIs(mg, p);
    } else {
      var b := BestExists(mp);
      assert forall q :: q in mg ==> q == p || (q in mp && mp[q] == mg[q]);
      BestClaimIs(mp, b);
      BestClaimIs(mg, if Beats(m[p], Some(m[b])) then p else b);
    }
  }

  // A frontier may move over sites that stake nothing here.
  lemma BestBeforeSame(m: map<Site, Claim>, f: Site, g: Site)
    requires forall q :: q in m ==> (Before(q, f) <==> Before(q, g))
    ensures BestBefore(m, f) == BestBefore(m, g)
  {
    assert (map q | q in m && Before(q, f) :: m[q]) == (map q | q in m && Before(q, g) :: m[q]);
  }

  lemma BestBeforeAll(m: map<Site, Claim>, f: Site)
    requires forall q :: q in m ==> Before(q, f)
    ensures BestBefore(m, f) == BestClaim(m)
  {
    assert (map q | q in m && Before(q, f) :: m[q]) == m;
  }

  // Per slot, the candidates staked on it.
  type Board = cs: seq<map<Site, Claim>> | |cs| == SLOTS_PER_WEEK witness seq(SLOTS_PER_WEEK, _ => map[])

  ghost function BoardOf(d: Document, key: string): Board {
    seq(SLOTS_PER_WEEK, slot requires 0 <= slot < SLOTS_PER_WEEK => Candidates(d, key, slot))
  }

  ghost predicate PaintedUpTo(board: Board, f: Site, week: seq<Option<Claim>>) {
    |week| == SLOTS_PER_WEEK
    && forall slot: Slot :: week[slot] == BestBefore(board[slot], f)
  }

  lemma PaintedSame(board: Board, f: Site, g: Site, week: seq<Option<Claim>>)
    requires PaintedUpTo(board, f, week)
    requires forall slot: Slot, q :: q in board[slot] ==> (Before(q, f) <==> Before(q, g))
    ensures PaintedUpTo(board, g, week)
  {
    forall slot: Slot ensures week[slot] == BestBefore(board[slot], g) {
      BestBeforeSame(board[slot], f, g);
    }
  }

  // On the board, site p bids for exactly the span of slots from first on.
  ghost predicate Bids(board: Board, p: Site, s: Schedule, b: Block, first: Slot, span: nat) {
    forall slot: Slot ::
      if Ahead(first, slot) < span
      then p in board[slot] && board[slot][p] == MakeClaim(s, b, first, Ahead(first, slot))
      else p !in board[slot]
  }

  ghost predicate NoBid(board: Board, p: Site) {
    forall slot: Slot :: p !in board[slot]
  }

  ghost predicate DayBids(board: Board, p: Site, s: Schedule, b: Block, start: nat, span: nat)
    requires start < MINUTES_PER_DAY
  {
    if p.day < |b.days| && DayIndex(b.days[p.day]).Some?
    then Bids(board, p, s, b, FirstSlot(DayIndex(b.days[p.day]).value, start), span)
    else NoBid(board, p)
  }

  ghost predicate BlockBids(board: Board, i: nat, j: nat, s: Schedule, b: Block, start: nat, span: nat)
    requires start < MINUTES_PER_DAY
  {
    forall k: nat :: DayBids(board, Site(i, j, k), s, b, start, span)
  }

  ghost predicate ScheduleBids(board: Board, i: nat, s: Schedule) {
    forall j :: 0 <= j < |s.blocks| ==> BlockBids(board, i, j, s, s.blocks[j], s.blocks[j].StartMinute(), Span(s.blocks[j]))
  }

  lemma BoardBids(d: Document, key: string, i: nat)
    requires i < |d.schedules| && d.schedules[i].enabled && d.schedules[i].Applies(key)
    ensures ScheduleBids(BoardOf(d, key), i, d.schedules[i])
  {
    var s := d.schedules[i];
    forall j, k: nat | 0 <= j < |s.blocks|
      ensures var b := s.blocks[j];
        DayBids(BoardOf(d, key), Site(i, j, k), s, b, b.StartMinute(), Span(b))
    {
      SiteBids(d, key, Site(i, j, k));
    }
  }

  lemma SiteBids(d: Document, key: string, p: Site)
    ensures if Stakes(d, key, p)
      then Bids(BoardOf(d, key), p, d.schedules[p.sched], BlockAt(d, p), Start(d, key, p), Span(BlockAt(d, p)))
      else NoBid(BoardOf(d, key), p)
  {
  }

  function Contest(cand: Claim, cur: Option<Claim>): Option<Claim> {
    if Beats(cand, cur) then Some(cand) else cur
  }

  // The first n slots of site p are painted, the others are as before p.
  ghost predicate DayPainted(board: Board, p: Site, first: Slot, n: nat, week: seq<Option<Claim>>) {
    |week| == SLOTS_PER_WEEK
    && forall slot: Slot ::
      week[slot] == BestBefore(board[slot], if Ahead(first, slot) < n then Next(p) else p)
  }

  function Next(p: Site): Site { p.(day := p.day + 1) }

  lemma DayPaintedStep(board: Board, p: Site, first: Slot, slot: Slot, week: seq<Option<Claim>>)
    requires p in board[slot]
    requires DayPainted(board, p, first, Ahead(first, slot), week)
    ensures DayPainted(board, p, first, Ahead(first, slot) + 1, week[slot := Contest(board[slot][p], week[slot])])
  {
    BestBeforeStep(board[slot], p, Next(p));
  }

  lemma DayPaintedDone(board: Board, p: Site, s: Schedule, b: Block, first: Slot, span: nat, week: seq<Option<Claim>>)
    requires Bids(board, p, s, b, first, span)
    requires DayPainted(board, p, first, span, week)
    ensures PaintedUpTo(board, Next(p), week)
  {
    forall slot: Slot ensures week[slot] == BestBefore(board[slot], Next(p)) {
      if Ahead(first, slot) >= span { BestBeforeSame(board[slot], p, Next(p)); }
    }
  }

  // The slots from first on are painted one by one, going around the week.
  method ClaimRun(w: array<Option<Claim>>, s: Schedule, b: Block, first: Slot, span: nat,
                  ghost board: Board, ghost p: Site)
    requires w.Length == SLOTS_PER_WEEK && span <= SLOTS_PER_DAY
    requires Bids(board, p, s, b, first, span)
    requires PaintedUpTo(board, p, w[..])
    modifies w
    ensures PaintedUpTo(board, Next(p), w[..])
  {
    for n := 0 to span
      invariant DayPainted(board, p, first, n, w[..])
    {
      var slot := (first + n) % SLOTS_PER_WEEK;
      AheadOf(first, n);
      DayPaintedStep(board, p, first, slot, w[..]);
      var cand := MakeClaim(s, b, first % SLOTS_PER_WEEK, n);
      ghost var was := w[..];
      if Beats(cand, w[slot]) {
        w[slot] := Some(cand);
      }
      assert w[..] == was[slot := Contest(cand, was[slot])];
    }
    DayPaintedDone(board, p, s, b, first, span, w[..]);
  }

  lemma DaySkipped(board: Board, p: Site, week: seq<Option<Claim>>)
    requires NoBid(board, p) && PaintedUpTo(board, p, week)
    ensures PaintedUpTo(board, Next(p), week)
  {
    PaintedSame(board, p, Next(p), week);
  }

  lemma BlockDone(board: Board, i: nat, j: nat, s: Schedule, b: Block, start: nat, span: nat, week: seq<Option<Claim>>)
    requires start < MINUTES_PER_DAY && BlockBids(board, i, j, s, b, start, span)
    requires PaintedUpTo(board, Site(i, j, |b.days|), week)
    ensures PaintedUpTo(board, Site(i, j + 1, 0), week)
  {
    forall slot: Slot, k: nat | k >= |b.days| ensures Site(i, j, k) !in board[slot] {
      assert DayBids(board, Site(i, j, k), s, b, start, span);
    }
    forall slot: Slot, q | q in board[slot] ensures Before(q, Site(i, j, |b.days|)) <==> Before(q, Site(i, j + 1, 0)) {
      if q.sched == i && q.block == j { assert q == Site(i, j, q.day); }
    }
    PaintedSame(board, Site(i, j, |b.days|), Site(i, j + 1, 0), week);
  }

  // One weekday entry of a block; an unknown weekday is passed over.
  method ClaimDay(w: array<Option<Claim>>, s: Schedule, b: Block, day: string, start: nat, span: nat,
                  ghost board: Board, ghost p: Site)
    requires w.Length == SLOTS_PER_WEEK && start < MINUTES_PER_DAY && span <= SLOTS_PER_DAY
    requires p.day < |b.days| && day == b.days[p.day] && DayBids(board, p, s, b, start, span)
    requires PaintedUpTo(board, p, w[..])
    modifies w
    ensures PaintedUpTo(board, Next(p), w[..])
  {
    var di := DayIndex(day);
    if di.Some? {
      ClaimRun(w, s, b, di.value * SLOTS_PER_DAY + start / SLOT_MINUTES, span, board, p);
    } else {
      DaySkipped(board, p, w[..]);
    }
  }

  // One block stakes its claim on every slot it covers.
  method ClaimBlock(w: array<Option<Claim>>, s: Schedule, b: Block, ghost board: Board, ghost i: nat, ghost j: nat)
    requires w.Length == SLOTS_PER_WEEK
    requires BlockBids(board, i, j, s, b, b.StartMinute(), Span(b))
    requires PaintedUpTo(board, Site(i, j, 0), w[..])
    modifies w
    ensures PaintedUpTo(board, Site(i, j + 1, 0), w[..])
  {
    hide Block.StartMinute, Block.Duration, Bids, NoBid, PaintedUpTo;
    var span := b.Duration() / SLOT_MINUTES;
    var start := b.StartMinute();
    for k := 0 to |b.days|
      invariant PaintedUpTo(board, Site(i, j, k), w[..])
    {
      assert DayBids(board, Site(i, j, k), s, b, start, span);
      ClaimDay(w, s, b, b.days[k], start, span, board, Site(i, j, k));
    }
    BlockDone(board, i, j, s, b, start, span, w[..]);
  }

  // A schedule that is disabled or has other targets leaves the ring as it is.
  lemma ScheduleSkipped(d: Document, key: string, i: nat, week: seq<Option<Claim>>)
    requires i < |d.schedules| && !(d.schedules[i].enabled && d.schedules[i].Applies(key))
    requires PaintedUpTo(BoardOf(d, key), Site(i, 0, 0), week)
    ensures PaintedUpTo(BoardOf(d, key), Site(i + 1, 0, 0), week)
  {
    PaintedSame(BoardOf(d, key), Site(i, 0, 0), Site(i + 1, 0, 0), week);
  }

  lemma ScheduleDone(d: Document, key: string, i: nat, week: seq<Option<Claim>>)
    requires i < |d.schedules|
    requires PaintedUpTo(BoardOf(d, key), Site(i, |d.schedules[i].blocks|, 0), week)
    ensures PaintedUpTo(BoardOf(d, key), Site(i + 1, 0, 0), week)
  {
    PaintedSame(BoardOf(d, key), Site(i, |d.schedules[i].blocks|, 0), Site(i + 1, 0, 0), week);
  }

  lemma WeekEmpty(d: Document, key: string)
    ensures PaintedUpTo(BoardOf(d, key), Site(0, 0, 0), seq(SLOTS_PER_WEEK, _ => None))
  {
    forall slot: Slot ensures BestBefore(Candidates(d, key, slot), Site(0, 0, 0)) == None {
      assert (map q | q in Candidates(d, key, slot) && Before(q, Site(0, 0, 0)) :: Candidates(d, key, slot)[q]) == map[];
    }
  }

  lemma WeekDone(d: Document, key: string, week: seq<Option<Claim>>)
    requires PaintedUpTo(BoardOf(d, key), Site(|d.schedules|, 0, 0), week)
    ensures week == WeekOf(d, key)
  {
    hide Candidates, BestClaim, BestBefore;
    forall slot: Slot ensures week[slot] == Resolved(d, key, slot) {
      BestBeforeAll(Candidates(d, key, slot), Site(|d.schedules|, 0, 0));
    }
  }

  method ClaimSchedule(w: array<Option<Claim>>, s: Schedule, ghost board: Board, ghost i: nat)
    requires w.Length == SLOTS_PER_WEEK
    requires ScheduleBids(board, i, s)
    requires PaintedUpTo(board, Site(i, 0, 0), w[..])
    modifies w
    ensures PaintedUpTo(board, Site(i, |s.blocks|, 0), w[..])
  {
    for j := 0 to |s.blocks|
      invariant PaintedUpTo(board, Site(i, j, 0), w[..])
    {
      ClaimBlock(w, s, s.blocks[j], board, i, j);
    }
  }

  // Every schedule paints in turn, in document order.
  method Paint(w: array<Option<Claim>>, d: Document, key: string)
    requires w.Length == SLOTS_PER_WEEK
    requires PaintedUpTo(BoardOf(d, key), Site(0, 0, 0), w[..])
    modifies w
    ensures PaintedUpTo(BoardOf(d, key), Site(|d.schedules|, 0, 0), w[..])
  {
    ghost var board := BoardOf(d, key);
    for i := 0 to |d.schedules|
      invariant PaintedUpTo(board, Site(i, 0, 0), w[..])
    {
      var s := d.schedules[i];
      if s.enabled && s.Applies(key) {
        BoardBids(d, key, i);
        ClaimSchedule(w, s, board, i);
        ScheduleDone(d, key, i, w[..]);
      } else {
        ScheduleSkipped(d, key, i, w[..]);
      }
    }
  }

  /** The in-place painting leaves exactly the declared winner in every slot. */
  method Resolve(d: Document, key: string) returns (w: array<Option<Claim>>)
    ensures fresh(w) && w.Length == SLOTS_PER_WEEK && w[..] == WeekOf(d, key)
  {
    w := new Option<Claim>[SLOTS_PER_WEEK](_ => None);
    assert w[..] == seq(SLOTS_PER_WEEK, _ => None);
    WeekEmpty(d, key);
    Paint(w, d, key);
    WeekDone(d, key, w[..]);
  }
}
