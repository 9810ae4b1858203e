/**
 What the client's breaker and retry loop guarantee, per call and over runs.
 */
module BreakerRuns {
  import opened Options
  import opened Client

  // --- one read -----------------------------------------------------------

  function Pow2(k: nat): nat { if k == 0 then 1 else 2 * Pow2(k - 1) }

  lemma {:induction false} ShiftIsPow2(base: nat, k: nat)
    ensures Shift(base, k) == base * Pow2(k)
  {
    if k == 0 {
    } else {
      ShiftIsPow2(base, k - 1);
      Twice(base, Pow2(k - 1));
    }
  }

  lemma Twice(base: nat, p: nat)
    ensures base * (2 * p) == 2 * (base * p)
  {
  }

  lemma {:induction false} LoopBounds(script: nat -> Attempt, base: nat, retries: nat, i: nat, refreshed: bool, r: Report)
    requires 1 <= i <= retries
    ensures var g := GetFrom(script, base, retries, i, refreshed, r);
      && g.sent <= r.sent + (retries - i)
      && g.invalidations <= r.invalidations + (if refreshed then 0 else 1)
      && 2 * g.slept <= 2 * r.slept + 3 * (Shift(base, retries - 1) - Shift(base, i - 1))
    decreases retries - i
  {
    hide Backoff;
    ShiftGrows(base, i - 1, retries - 1);
    if i >= retries {
    } else {
      var a := script(i);
      var v := JudgeGet(a.reply, a.at, refreshed);
      ShiftGrows(base, i, retries - 1);
      assert Shift(base, i) == 2 * Shift(base, i - 1);
      hide JudgeGet, Shift;
      VerdictSmall(a.reply, a.at, refreshed);
      if !a.cancelled && !v.final {
        LoopBounds(script, base, retries, i + 1, refreshed || v.invalidations == 1, Judged(Slept(r, Delay(base, i, a.jitter)), v));
      }
    }
  }

  lemma VerdictSmall(reply: Reply, at: int, refreshed: bool)
    ensures var v := JudgeGet(reply, at, refreshed);
      v.sent <= 1 && v.invalidations <= (if refreshed then 0 else 1)
  {
  }

  lemma {:induction false} ShiftGrows(base: nat, j: nat, k: nat)
    requires j <= k
    ensures Shift(base, j) <= Shift(base, k)
    decreases k
  {
    if j >= k {
    } else {
      ShiftGrows(base, j, k - 1);
    }
  }

  /** One GetDevices sends at most RetryAttempts requests, invalidates the token
      at most once, and sleeps at most 1.5 * base * (2^(attempts - 1) - 1). */
  lemma GetBounded(script: nat -> Attempt, base: nat, retries: nat)
    ensures var g := GetReport(script, base, retries);
      && g.sent <= retries && g.invalidations <= 1
      && (retries >= 1 ==> 2 * g.slept <= 3 * base * (Pow2(retries - 1) - 1))
      && (retries == 0 ==> g.slept == 0)
  {
    if retries >= 1 {
      var a := script(0);
      var v := JudgeGet(a.reply, a.at, false);
      VerdictSmall(a.reply, a.at, false);
      var r := Judged(Slept(Fresh(Exhausted), 0), v);
      LoopBounds(script, base, retries, 1, v.invalidations == 1, r);
      ShiftIsPow2(base, retries - 1);
      PowAtLeastOne(retries - 1);
      assert Shift(base, 0) == base;
      Factor(base, Pow2(retries - 1));
      hide JudgeGet, Shift, Pow2;
      assert GetReport(script, base, retries) == if v.final then r else GetFrom(script, base, retries, 1, v.invalidations == 1, r);
    }
  }

  lemma PowAtLeastOne(k: nat)
    ensures Pow2(k) >= 1
  {
  }

  lemma Factor(base: nat, p: nat)
    requires p >= 1
    ensures 3 * (base * p - base) == 3 * base * (p - 1) && 3 * base * (p - 1) >= 0
  {
  }

  // --- one write ----------------------------------------------------------

  /** One Patch sends at most two requests, invalidates the token at most once
      and does not sleep; it succeeds exactly when its last mark is a success. */
  lemma PatchBounded(script: nat -> Attempt)
    ensures var p := PatchReport(script);
      && p.sent <= 2 && p.invalidations <= 1 && p.slept == 0 && |p.marks| <= 2
      && (p.outcome == Done <==> p.marks != [] && p.marks[|p.marks| - 1] == Success)
      && (p.outcome == Done ==> p.invalidations == |p.marks| - 1)
  {
  }

  // --- one call -----------------------------------------------------------

  /** What a client does under its lock: a read after it entered, or a write. */
  datatype Call =
    | Read(checked: int, script: nat -> Attempt)
    | Write(checked: int, script: nat -> Attempt)

  function ReportOf(b: Breaker, c: Call, base: nat, retries: nat): Report {
    match c
    case Read(checked, script) => GetCall(b, checked, script, base, retries)
    case Write(checked, script) => PatchCall(b, checked, script)
  }

  function AfterCall(b: Breaker, c: Call, base: nat, retries: nat): Breaker {
    OnMarks(OnCheck(b, c.checked), ReportOf(b, c, base, retries).marks)
  }

  // The breaker counts lost connections and server errors as failures. Only a
  // read counts a response that broke off, whatever its status.
  function MarkOf(c: Call, k: nat): Mark {
    var a := c.script(k);
    match a.reply
    case NotSent => Neutral
    case NetworkError => Fail(a.at)
    case ReadError(code) => if c.Read? then Fail(a.at) else MarkOfStatus(code, 204, a.at)
    case Status(code) => MarkOfStatus(code, if c.Read? then 200 else 204, a.at)
  }

  function MarkOfStatus(code: int, good: int, at: int): Mark {
    if code == good then Success else if code >= 500 then Fail(at) else Neutral
  }

  ghost predicate MarksFit(c: Call, ms: seq<Mark>) {
    forall k: nat :: k < |ms| ==> ms[k] == MarkOf(c, k)
  }

  lemma {:induction false} ReadMarks(c: Call, base: nat, retries: nat, i: nat, refreshed: bool, r: Report)
    requires c.Read? && |r.marks| == i && MarksFit(c, r.marks)
    ensures MarksFit(c, GetFrom(c.script, base, retries, i, refreshed, r).marks)
    decreases retries - i
  {
    if i >= retries {
    } else {
      var a := c.script(i);
      var v := JudgeGet(a.reply, a.at, refreshed);
      assert v.mark == MarkOf(c, i);
      hide JudgeGet, Delay, MarkOf;
      var s := Judged(Slept(r, Delay(base, i, a.jitter)), v);
      assert s.marks == r.marks + [v.mark];
      if !v.final { ReadMarks(c, base, retries, i + 1, refreshed || v.invalidations == 1, s); }
    }
  }

  lemma {:induction false} WriteMarks(c: Call, i: nat, r: Report)
    requires c.Write? && |r.marks| == i && MarksFit(c, r.marks)
    ensures MarksFit(c, PatchFrom(c.script, i, r).marks)
    decreases 2 - i
  {
    if i >= 2 {
    } else {
      var v := JudgePatch(c.script(i).reply, c.script(i).at, i == 0);
      assert v.mark == MarkOf(c, i);
      hide JudgePatch, MarkOf;
      assert Judged(r, v).marks == r.marks + [v.mark];
      if !v.final { WriteMarks(c, i + 1, Judged(r, v)); }
    }
  }

  /** Every attempt of a read or write leaves the mark of its own reply. */
  lemma MarksByReply(b: Breaker, c: Call, base: nat, retries: nat)
    ensures MarksFit(c, ReportOf(b, c, base, retries).marks)
  {
    match c
    case Read(_, _) => ReadMarks(c, base, retries, 0, false, Fresh(Exhausted));
    case Write(_, _) => WriteMarks(c, 0, Fresh(Exhausted));
  }

  // A token error, 401, 429 or another status that is neither the good one nor
  // a server error.
  predicate Harmless(c: Call, k: nat) {
    match c.script(k).reply
    case NotSent => true
    case NetworkError => false
    case ReadError(code) => c.Write? && code != 204 && code < 500
    case Status(code) => code != (if c.Read? then 200 else 204) && code < 500
  }

  lemma HarmlessIsNeutral(c: Call, k: nat)
    ensures MarkOf(c, k) == Neutral <==> Harmless(c, k)
  {
  }

  /** Rate limiting, rejected tokens, token errors and other client errors
      never move the breaker, whatever the attempts around them do: each
      attempt moves it by its own reply, and by a harmless one not at all. */
  lemma NeutralReplies(b: Breaker, c: Call, base: nat, retries: nat, k: nat)
    requires k < |ReportOf(b, c, base, retries).marks|
    ensures var ms, b0 := ReportOf(b, c, base, retries).marks, OnCheck(b, c.checked);
      && OnMarks(b0, ms[..k + 1]) == OnMark(OnMarks(b0, ms[..k]), MarkOf(c, k))
      && (MarkOf(c, k) == Neutral <==> Harmless(c, k))
      && (Harmless(c, k) ==> OnMarks(b0, ms[..k + 1]) == OnMarks(b0, ms[..k]))
  {
    MarksByReply(b, c, base, retries);
    HarmlessIsNeutral(c, k);
    var ms := ReportOf(b, c, base, retries).marks;
    hide ReportOf, MarkOf, Harmless, OnMarks, OnCheck;
    assert ms[..k + 1] == ms[..k] + [MarkOf(c, k)];
    MarksSnoc(OnCheck(b, c.checked), ms[..k], MarkOf(c, k));
  }

  lemma {:induction false} NeutralMarks(b: Breaker, ms: seq<Mark>)
    requires forall k :: 0 <= k < |ms| ==> ms[k] == Neutral
    ensures OnMarks(b, ms) == b
  {
    if ms == [] {
    } else {
      NeutralMarks(b, ms[..|ms| - 1]);
    }
  }

  /** A call that meets only harmless replies leaves the breaker as its check left it. */
  lemma NeutralCall(b: Breaker, c: Call, base: nat, retries: nat)
    requires forall k: nat :: k < |ReportOf(b, c, base, retries).marks| ==> Harmless(c, k)
    ensures AfterCall(b, c, base, retries) == OnCheck(b, c.checked)
  {
    MarksByReply(b, c, base, retries);
    var ms := ReportOf(b, c, base, retries).marks;
    forall k: nat | k < |ms| ensures ms[k] == Neutral { assert ms[k] == MarkOf(c, k) && Harmless(c, k); }
    hide MarkOf, Harmless;
    NeutralMarks(OnCheck(b, c.checked), ReportOf(b, c, base, retries).marks);
  }

  lemma {:induction false} ReadNotRefused(script: nat -> Attempt, base: nat, retries: nat, i: nat, refreshed: bool, r: Report)
    requires r.outcome != CircuitOpen
    ensures GetFrom(script, base, retries, i, refreshed, r).outcome != CircuitOpen
    decreases retries - i
  {
    if i >= retries {
    } else {
      var a := script(i);
      var v := JudgeGet(a.reply, a.at, refreshed);
      assert v.outcome != CircuitOpen;
      hide JudgeGet, Delay;
      ReadNotRefused(script, base, retries, i + 1, refreshed || v.invalidations == 1,
                     Judged(Slept(r, Delay(base, i, a.jitter)), v));
    }
  }

  lemma RefusedIsNothing(b: Breaker, c: Call, base: nat, retries: nat)
    ensures ReportOf(b, c, base, retries).outcome == CircuitOpen <==> !Admits(b, c.checked)
    ensures !Admits(b, c.checked) ==> ReportOf(b, c, base, retries) == NOTHING && AfterCall(b, c, base, retries) == b
  {
    MarksNone(b);
    match c
    case Read(_, script) => ReadNotRefused(script, base, retries, 0, false, Fresh(Exhausted));
    case Write(_, _) =>
  }

  // --- runs ---------------------------------------------------------------

  /** All calls of a run, taken apart: every breaker check and every mark. */
  datatype Event = Check(at: int) | Marked(mark: Mark)

  function OnEvent(b: Breaker, e: Event): Breaker {
    match e
    case Check(at) => OnCheck(b, at)
    case Marked(m) => OnMark(b, m)
  }

  const START := Breaker(Closed, 0, 0)

  function Reached(es: seq<Event>): Breaker {
    if es == [] then START else OnEvent(Reached(es[..|es| - 1]), es[|es| - 1])
  }

  function Timed(e: Event): Option<int> {
    match e
    case Check(at) => Some(at)
    case Marked(Fail(at)) => Some(at)
    case Marked(_) => None
  }

  // The clock does not run backwards.
  ghost predicate InOrder(es: seq<Event>) {
    forall i, j :: 0 <= i < j < |es| && Timed(es[i]).Some? && Timed(es[j]).Some? ==> Timed(es[i]).value <= Timed(es[j]).value
  }

  // Failures since the last success.
  function Trailing(es: seq<Event>): nat {
    if es == [] then 0
    else
      var init := es[..|es| - 1];
      match es[|es| - 1]
      case Marked(Success) => 0
      case Marked(Fail(_)) => Trailing(init) + 1
      case _ => Trailing(init)
  }

  function LastFailure(es: seq<Event>): int {
    if es == [] then 0
    else
      match es[|es| - 1]
      case Marked(Fail(at)) => at
      case _ => LastFailure(es[..|es| - 1])
  }

  // Since the last failure or success some check came at least the recovery time after that failure.
  predicate Probing(es: seq<Event>) {
    if es == [] then false
    else
      var init := es[..|es| - 1];
      match es[|es| - 1]
      case Check(at) => Probing(init) || (Trailing(init) >= THRESHOLD && at - LastFailure(init) >= RECOVERY)
      case Marked(Neutral) => Probing(init)
      case Marked(_) => false
  }

  // The trailing failures without those that ended a probe.
  function Counted(es: seq<Event>): nat {
    if es == [] then 0
    else
      var init := es[..|es| - 1];
      match es[|es| - 1]
      case Marked(Success) => 0
      case Marked(Fail(_)) => Counted(init) + (if Probing(init) then 0 else 1)
      case _ => Counted(init)
  }

  ghost predicate Reads(b: Breaker, es: seq<Event>) {
    && (b.mode == Closed <==> Trailing(es) < THRESHOLD)
    && (b.mode == HalfOpen <==> Probing(es))
    && b.failures == Counted(es)
    && (b.failures >= THRESHOLD <==> b.mode != Closed)
    && (b.mode != Closed ==> b.openedAt == LastFailure(es))
  }

  // Below the threshold nothing was probed.
  lemma {:induction false} CountedTrails(es: seq<Event>)
    ensures Probing(es) ==> Trailing(es) >= THRESHOLD
    ensures Trailing(es) < THRESHOLD ==> Counted(es) == Trailing(es)
    ensures Trailing(es) >= THRESHOLD ==> Counted(es) >= THRESHOLD
  {
    if es == [] {
    } else {
      CountedTrails(es[..|es| - 1]);
    }
  }

  // A probe began with a check at least the recovery time after the last failure.
  lemma {:induction false} ProbingSince(es: seq<Event>) returns (i: nat)
    requires Probing(es)
    ensures i < |es| && es[i].Check? && es[i].at - LastFailure(es) >= RECOVERY
  {
    var n := |es| - 1;
    if Probing(es[..n]) {
      i := ProbingSince(es[..n]);
    } else {
      i := n;
    }
  }

  lemma ReadsStep(b: Breaker, es: seq<Event>, e: Event)
    requires Reads(b, es)
    ensures Reads(OnEvent(b, e), es + [e])
  {
    var more := es + [e];
    assert more[..|es|] == es && more[|es|] == e;
    CountedTrails(es);
  }

  /** Over every run the breaker is closed exactly while fewer than five
      failures followed the last success, half-open exactly while a check a
      minute after the last of them awaits its outcome, its counter leaves out
      the failures of such probes and has reached five exactly while it is not
      closed, and it was opened by the last failure. */
  lemma {:induction false} BreakerReadsLog(es: seq<Event>)
    ensures Reads(Reached(es), es)
  {
    if es == [] {
    } else {
      var init, e := es[..|es| - 1], es[|es| - 1];
      BreakerReadsLog(init);
      ReadsStep(Reached(init), init, e);
      assert init + [e] == es;
    }
  }

  /** A call is let through exactly when fewer than five failures followed the
      last success or the last failure is at least a minute ago. */
  lemma AdmittedExactly(es: seq<Event>, now: int)
    requires InOrder(es + [Check(now)])
    ensures Admits(Reached(es), now) <==> Trailing(es) < 5 || now - LastFailure(es) >= 60_000_000_000
  {
    BreakerReadsLog(es);
    if Reached(es).mode == HalfOpen {
      var i := ProbingSince(es);
      var more := es + [Check(now)];
      assert Timed(more[i]) == Some(es[i].at) && Timed(more[|es|]) == Some(now);
    }
  }

  function EventsOf(at: int, ms: seq<Mark>): seq<Event> {
    [Check(at)] + seq(|ms|, i requires 0 <= i < |ms| => Marked(ms[i]))
  }

  /** What a call does to the breaker is what its check and its marks do as events of the run. */
  lemma {:induction false} CallAsEvents(es: seq<Event>, at: int, ms: seq<Mark>)
    ensures Reached(es + EventsOf(at, ms)) == OnMarks(OnCheck(Reached(es), at), ms)
    decreases |ms|
  {
    var all := es + EventsOf(at, ms);
    if ms == [] {
      assert all[..|es|] == es;
    } else {
      var init := ms[..|ms| - 1];
      CallAsEvents(es, at, init);
      assert all[..|all| - 1] == es + EventsOf(at, init);
    }
  }

  // --- runs of calls ------------------------------------------------------

  /** Steps in the order in which they take effect: a read tests the
      scan-ignore window when it enters and takes its turn at some later step,
      a write only takes its turn. `entry` is the step at which a read entered. */
  datatype Step = Enter(at: int) | Turn(call: Call, entry: nat)

  datatype Held = Held(breaker: Breaker, lastPatch: Option<int>)

  function OnStep(h: Held, s: Step, base: nat, retries: nat): Held {
    match s
    case Enter(_) => h
    case Turn(c, _) =>
      Held(AfterCall(h.breaker, c, base, retries),
           if c.Write? then PatchedAt(ReportOf(h.breaker, c, base, retries), c.script, h.lastPatch) else h.lastPatch)
  }

  function Ran(ss: seq<Step>, base: nat, retries: nat): Held {
    if ss == [] then Held(START, None) else OnStep(Ran(ss[..|ss| - 1], base, retries), ss[|ss| - 1], base, retries)
  }

  // What a step reports, given the steps before it.
  function ReportAt(ss: seq<Step>, i: nat, base: nat, retries: nat): Report
    requires i < |ss| && ss[i].Turn?
  {
    ReportOf(Ran(ss[..i], base, retries).breaker, ss[i].call, base, retries)
  }

  // All checks and marks of the run.
  function LogOf(ss: seq<Step>, base: nat, retries: nat): seq<Event> {
    if ss == [] then []
    else
      var n := |ss| - 1;
      LogOf(ss[..n], base, retries)
      + (if ss[n].Turn? then EventsOf(ss[n].call.checked, ReportAt(ss, n, base, retries).marks) else [])
  }

  lemma {:induction false} RanIsLogged(ss: seq<Step>, base: nat, retries: nat)
    ensures Ran(ss, base, retries).breaker == Reached(LogOf(ss, base, retries))
  {
    if ss == [] {
    } else {
      var n := |ss| - 1;
      RanIsLogged(ss[..n], base, retries);
      hide Reached, ReportOf;
      if ss[n].Turn? {
        CallAsEvents(LogOf(ss[..n], base, retries), ss[n].call.checked, ReportAt(ss, n, base, retries).marks);
      } else {
        assert LogOf(ss[..n], base, retries) + [] == LogOf(ss[..n], base, retries);
      }
    }
  }

  /** Over every run of reads and writes the breaker is closed exactly while
      fewer than five failures followed the last success. */
  lemma RunReadsLog(ss: seq<Step>, base: nat, retries: nat)
    ensures Reads(Ran(ss, base, retries).breaker, LogOf(ss, base, retries))
  {
    RanIsLogged(ss, base, retries);
    BreakerReadsLog(LogOf(ss, base, retries));
  }

  /** In every run a read or write is refused exactly when five failures
      followed the last success and the last one is less than a minute old;
      then it sends nothing and leaves the breaker alone. */
  lemma RefusedExactly(ss: seq<Step>, i: nat, base: nat, retries: nat)
    requires i < |ss| && ss[i].Turn?
    requires InOrder(LogOf(ss[..i], base, retries) + [Check(ss[i].call.checked)])
    ensures var log, r := LogOf(ss[..i], base, retries), ReportAt(ss, i, base, retries);
      && (r.outcome == CircuitOpen <==> Trailing(log) >= 5 && ss[i].call.checked - LastFailure(log) < 60_000_000_000)
      && (r.outcome == CircuitOpen ==> r == NOTHING && Ran(ss[..i + 1], base, retries).breaker == Ran(ss[..i], base, retries).breaker)
  {
    var c := ss[i].call;
    RanIsLogged(ss[..i], base, retries);
    hide Reached, LogOf, ReportOf, AfterCall, Admits;
    AdmittedExactly(LogOf(ss[..i], base, retries), c.checked);
    RefusedIsNothing(Ran(ss[..i], base, retries).breaker, c, base, retries);
    assert ss[..i + 1][..i] == ss[..i];
  }

  // Step i is a write that succeeded at instant u.
  ghost predicate PatchedBy(ss: seq<Step>, i: nat, u: int, base: nat, retries: nat) {
    && i < |ss| && ss[i].Turn? && ss[i].call.Write?
    && ReportAt(ss, i, base, retries).outcome == Done
    && u == ss[i].call.script(ReportAt(ss, i, base, retries).invalidations).at
  }

  ghost predicate PatchesInOrder(ss: seq<Step>, base: nat, retries: nat) {
    forall i: nat, j: nat, u, v :: i <= j && PatchedBy(ss, i, u, base, retries) && PatchedBy(ss, j, v, base, retries) ==> u <= v
  }

  lemma PatchedPrefix(ss: seq<Step>, n: nat, i: nat, u: int, base: nat, retries: nat)
    requires i < n <= |ss|
    ensures PatchedBy(ss[..n], i, u, base, retries) <==> PatchedBy(ss, i, u, base, retries)
  {
    assert ss[..n][..i] == ss[..i];
  }

  ghost predicate LastPatched(ss: seq<Step>, i: nat, u: int, base: nat, retries: nat) {
    PatchedBy(ss, i, u, base, retries) && forall j: nat, v :: PatchedBy(ss, j, v, base, retries) ==> j <= i
  }

  // The client holds the instant of the last successful write.
  lemma {:induction false} HoldsLastPatch(ss: seq<Step>, base: nat, retries: nat) returns (i: nat)
    ensures var p := Ran(ss, base, retries).lastPatch;
      if p.Some? then LastPatched(ss, i, p.value, base, retries)
      else forall j: nat, u :: !PatchedBy(ss, j, u, base, retries)
  {
    if ss == [] {
      i := 0;
    } else {
      var n := |ss| - 1;
      i := HoldsLastPatch(ss[..n], base, retries);
      forall j: nat, u ensures j != n ==> (PatchedBy(ss, j, u, base, retries) <==> PatchedBy(ss[..n], j, u, base, retries)) {
        if j < n { PatchedPrefix(ss, n, j, u, base, retries); } else { PatchedInRange(ss, n, j, u, base, retries); }
      }
      PatchedLast(ss, base, retries);
      hide ReportOf, AfterCall, PatchedBy, Ran;
      var p := Ran(ss, base, retries).lastPatch;
      if p.Some? && PatchedBy(ss, n, p.value, base, retries) {
        i := n;
        forall j: nat, u | PatchedBy(ss, j, u, base, retries) ensures j <= n { PatchedInRange(ss, n, j, u, base, retries); }
      }
    }
  }

  lemma PatchedInRange(ss: seq<Step>, n: nat, j: nat, u: int, base: nat, retries: nat)
    requires n + 1 == |ss|
    ensures PatchedBy(ss, j, u, base, retries) ==> j <= n
    ensures PatchedBy(ss[..n], j, u, base, retries) ==> j < n
  {
  }

  lemma PatchedLast(ss: seq<Step>, base: nat, retries: nat)
    requires ss != []
    ensures var n := |ss| - 1; var before, after := Ran(ss[..n], base, retries).lastPatch, Ran(ss, base, retries).lastPatch;
      if after.Some? && PatchedBy(ss, n, after.value, base, retries) then true
      else after == before && forall u :: !PatchedBy(ss, n, u, base, retries)
  {
    hide ReportOf, AfterCall;
  }

  /** A read is turned away at its entry exactly when some write of the run
      succeeded less than the scan-ignore time before. */
  lemma IgnoredExactly(ss: seq<Step>, at: int, scanIgnore: nat, base: nat, retries: nat)
    requires PatchesInOrder(ss, base, retries)
    ensures Ignores(Ran(ss, base, retries).lastPatch, scanIgnore, at)
      <==> exists i: nat, u :: PatchedBy(ss, i, u, base, retries) && at - u < scanIgnore
  {
    var last := HoldsLastPatch(ss, base, retries);
    hide PatchedBy, Ran;
    if i: nat, u :| PatchedBy(ss, i, u, base, retries) && at - u < scanIgnore {
      assert i <= last;
    }
  }

  // Step i is the turn of a read that entered at an earlier step, to which no
  // other read belongs, and was not turned away there.
  ghost predicate ReadsInTurn(ss: seq<Step>, i: nat, scanIgnore: nat, base: nat, retries: nat)
    requires i < |ss| && ss[i].Turn?
  {
    var e := ss[i].entry;
    && e < i && ss[e].Enter? && ss[e].at <= ss[i].call.checked
    && !Ignores(Ran(ss[..e], base, retries).lastPatch, scanIgnore, ss[e].at)
    && forall j :: 0 <= j < |ss| && j != i && ss[j].Turn? && ss[j].call.Read? ==> ss[j].entry != e
  }

  /** The runs of a client: every read takes its turn after an entry of its own
      outside the window, and writes succeed in clock order. */
  ghost predicate Run(ss: seq<Step>, scanIgnore: nat, base: nat, retries: nat) {
    && (forall i :: 0 <= i < |ss| && ss[i].Turn? && ss[i].call.Read? ==> ReadsInTurn(ss, i, scanIgnore, base, retries))
    && PatchesInOrder(ss, base, retries)
  }

  // Some write succeeded from step e on, before step n, and less than the
  // scan-ignore time before now.
  ghost predicate PatchedSince(ss: seq<Step>, e: nat, n: nat, now: int, scanIgnore: nat, base: nat, retries: nat) {
    exists i: nat, u :: e <= i < n && PatchedBy(ss, i, u, base, retries) && now - u < scanIgnore
  }

  lemma PatchesInOrderPrefix(ss: seq<Step>, n: nat, base: nat, retries: nat)
    requires PatchesInOrder(ss, base, retries) && n <= |ss|
    ensures PatchesInOrder(ss[..n], base, retries)
  {
    hide ReportAt;
    forall i: nat, j: nat, u, v | i <= j && PatchedBy(ss[..n], i, u, base, retries) && PatchedBy(ss[..n], j, v, base, retries)
      ensures u <= v
    {
      PatchedPrefix(ss, n, i, u, base, retries);
      PatchedPrefix(ss, n, j, v, base, retries);
    }
  }

  // The window before step n, as the writes of the whole run open it.
  lemma IgnoredBefore(ss: seq<Step>, n: nat, now: int, scanIgnore: nat, base: nat, retries: nat)
    requires PatchesInOrder(ss, base, retries) && n <= |ss|
    ensures Ignores(Ran(ss[..n], base, retries).lastPatch, scanIgnore, now) <==> PatchedSince(ss, 0, n, now, scanIgnore, base, retries)
  {
    PatchesInOrderPrefix(ss, n, base, retries);
    IgnoredExactly(ss[..n], now, scanIgnore, base, retries);
    forall i: nat, u ensures PatchedBy(ss[..n], i, u, base, retries) <==> i < n && PatchedBy(ss, i, u, base, retries) {
      if i < n { PatchedPrefix(ss, n, i, u, base, retries); }
    }
    hide PatchedBy, Ran, Ignores;
  }

  lemma {:induction false} SentGrows(script: nat -> Attempt, base: nat, retries: nat, i: nat, refreshed: bool, r: Report)
    ensures GetFrom(script, base, retries, i, refreshed, r).sent >= r.sent
    decreases retries - i
  {
    if i >= retries {
    } else {
      var a := script(i);
      var v := JudgeGet(a.reply, a.at, refreshed);
      hide JudgeGet, Delay;
      SentGrows(script, base, retries, i + 1, refreshed || v.invalidations == 1,
                Judged(Slept(r, Delay(base, i, a.jitter)), v));
    }
  }

  predicate Sends(b: Breaker, c: Call, retries: nat) {
    Admits(b, c.checked) && retries >= 1 && c.script(0).reply != NotSent
  }

  lemma ReadSends(b: Breaker, c: Call, base: nat, retries: nat)
    requires c.Read?
    ensures ReportOf(b, c, base, retries).sent >= 1 <==> Sends(b, c, retries)
  {
    if Admits(b, c.checked) && retries >= 1 {
      var v := JudgeGet(c.script(0).reply, c.script(0).at, false);
      assert v.sent == if c.script(0).reply == NotSent then 0 else 1;
      assert c.script(0).reply == NotSent ==> v.final;
      hide JudgeGet;
      var r := Judged(Slept(Fresh(Exhausted), 0), v);
      assert GetReport(c.script, base, retries) == if v.final then r else GetFrom(c.script, base, retries, 1, v.invalidations == 1, r);
      SentGrows(c.script, base, retries, 1, v.invalidations == 1, r);
    }
  }

  /** A read sends a request inside the scan-ignore window exactly when the
      breaker lets it, its first request can be made, and some write succeeded between its
      entry and its turn, less than the scan-ignore time before. */
  lemma SentInsideWindow(ss: seq<Step>, i: nat, scanIgnore: nat, base: nat, retries: nat)
    requires Run(ss, scanIgnore, base, retries) && i < |ss| && ss[i].Turn? && ss[i].call.Read?
    ensures var h, c := Ran(ss[..i], base, retries), ss[i].call;
      (ReportAt(ss, i, base, retries).sent >= 1 && Ignores(h.lastPatch, scanIgnore, c.checked)) <==>
      (Sends(h.breaker, c, retries) && PatchedSince(ss, ss[i].entry, i, c.checked, scanIgnore, base, retries))
  {
    var c, e := ss[i].call, ss[i].entry;
    assert ReadsInTurn(ss, i, scanIgnore, base, retries);
    ReadSends(Ran(ss[..i], base, retries).breaker, c, base, retries);
    IgnoredBefore(ss, i, c.checked, scanIgnore, base, retries);
    IgnoredBefore(ss, e, ss[e].at, scanIgnore, base, retries);
    hide PatchedBy, Ran, Ignores, Sends, ReportOf;
    if PatchedSince(ss, 0, i, c.checked, scanIgnore, base, retries) {
      var k: nat, u :| 0 <= k < i && PatchedBy(ss, k, u, base, retries) && c.checked - u < scanIgnore;
      assert k < e ==> ss[e].at - u < scanIgnore;
    }
  }

  function Replies(code: int): nat -> Attempt { _ => Attempt(false, 0, Status(code), 0) }

  // A read enters, a write succeeds, and the read takes its turn, all at one instant.
  const OVERTAKEN := [Enter(0), Turn(Write(0, Replies(204)), 0), Turn(Read(0, Replies(200)), 0)]

  lemma GoodCall(c: Call, base: nat, retries: nat)
    requires retries >= 1 && c.script(0).reply == Status(if c.Read? then 200 else 204)
    ensures var r := ReportOf(START, c, base, retries);
      r.outcome == Done && r.sent == 1 && r.invalidations == 0 && AfterCall(START, c, base, retries) == START
  {
    assert ReportOf(START, c, base, retries) == Report(Done, [Success], 1, 0, 0) by {
      hide Backoff;
      assert Fresh(Exhausted).marks + [Success] == [Success];
    }
    hide ReportOf;
    MarksSnoc(START, [], Success);
    MarksNone(START);
    assert [] + [Success] == [Success];
  }

  lemma OvertakenEntered(base: nat, retries: nat)
    ensures Ran(OVERTAKEN[..1], base, retries) == Held(START, None)
  {
    hide AfterCall, ReportOf;
    assert OVERTAKEN[..1][..0] == [];
  }

  // The only write of this run succeeds.
  lemma OvertakenPatch(i: nat, u: int, base: nat, retries: nat)
    requires retries >= 1
    ensures PatchedBy(OVERTAKEN, i, u, base, retries) <==> i == 1 && u == 0
  {
    hide ReportOf, AfterCall, Ran;
    OvertakenEntered(base, retries);
    if i == 1 { GoodCall(OVERTAKEN[1].call, base, retries); }
  }

  lemma OvertakenRuns(scanIgnore: nat, base: nat, retries: nat)
    requires retries >= 1
    ensures Run(OVERTAKEN, scanIgnore, base, retries)
  {
    assert OVERTAKEN[..0] == [];
    forall i: nat, u { OvertakenPatch(i, u, base, retries); }
    hide PatchedBy;
    assert ReadsInTurn(OVERTAKEN, 2, scanIgnore, base, retries);
  }

  /** The window does not hold off every read: whatever its length, here is a
      run in which a read enters, a write succeeds, and the read is sent at the
      same instant. */
  lemma WindowOvertaken(scanIgnore: nat, base: nat, retries: nat)
    requires scanIgnore > 0 && retries >= 1
    ensures Run(OVERTAKEN, scanIgnore, base, retries)
    ensures ReportAt(OVERTAKEN, 2, base, retries).sent >= 1
    ensures Ignores(Ran(OVERTAKEN[..2], base, retries).lastPatch, scanIgnore, OVERTAKEN[2].call.checked)
  {
    OvertakenRuns(scanIgnore, base, retries);
    OvertakenPatch(1, 0, base, retries);
    OvertakenBreaker(base, retries);
    hide PatchedBy, Run, Ran, ReportOf;
    assert PatchedSince(OVERTAKEN, 0, 2, 0, scanIgnore, base, retries);
    SentInsideWindow(OVERTAKEN, 2, scanIgnore, base, retries);
  }

  lemma OvertakenBreaker(base: nat, retries: nat)
    requires retries >= 1
    ensures Ran(OVERTAKEN[..2], base, retries).breaker == START
  {
    hide ReportOf, AfterCall;
    OvertakenEntered(base, retries);
    assert OVERTAKEN[..2][..1] == OVERTAKEN[..1];
    GoodCall(OVERTAKEN[1].call, base, retries);
  }
}
