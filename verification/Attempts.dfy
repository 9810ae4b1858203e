/**
 What one call of the ONECTA client does, read off the replies alone: which
 attempts are made, what they add up to, and how the call ends.
 */
module Attempts {
  import opened Options
  import opened Client

  const RATE_LIMITED := 429
  const UNAUTHORIZED := 401
  const SERVER_FAULT := 500

  // --- reads --------------------------------------------------------------

  predicate Rejected(reply: Reply) { reply == Status(UNAUTHORIZED) }

  // A lost connection, a broken response, a server error, or the first rejected token.
  ghost predicate GoesOn(script: nat -> Attempt, k: nat) {
    match script(k).reply
    case NotSent => false
    case NetworkError => true
    case ReadError(_) => true
    case Status(code) => code >= SERVER_FAULT || (code == UNAUTHORIZED && forall j: nat :: j < k ==> !Rejected(script(j).reply))
  }

  // Every attempt before k went on and no wait up to k's was cancelled.
  ghost predicate Made(script: nat -> Attempt, retries: nat, k: nat) {
    && k < retries
    && (forall j: nat :: j < k ==> GoesOn(script, j))
    && (forall j: nat :: 1 <= j <= k ==> !script(j).cancelled)
  }

  // After n attempts another was due and its wait was cancelled.
  ghost predicate CutOff(script: nat -> Attempt, retries: nat, n: nat) {
    1 <= n < retries && GoesOn(script, n - 1) && script(n).cancelled
  }

  // The waits before attempts 1 to n - 1.
  function Waits(script: nat -> Attempt, base: nat, n: nat): nat {
    if n <= 1 then 0 else Waits(script, base, n - 1) + Backoff(base, n - 1, script(n - 1).jitter)
  }

  function Named(reply: Reply): Outcome {
    match reply
    case NotSent => Refused
    case NetworkError => NoConnection
    case ReadError(_) => NoConnection
    case Status(code) =>
      if code == 200 then Done
      else if code == RATE_LIMITED then RateLimited
      else if code == UNAUTHORIZED then Unauthorized
      else if code >= SERVER_FAULT then ServerError
      else HttpError(code)
  }

  ghost predicate AnyRejected(script: nat -> Attempt, n: nat) {
    exists k: nat :: k < n && Rejected(script(k).reply)
  }

  // The report of a read of exactly n attempts.
  ghost predicate Tells(g: Report, script: nat -> Attempt, base: nat, retries: nat, n: nat) {
    && |g.marks| == n
    && g.sent == (if n > 0 && script(n - 1).reply == NotSent then n - 1 else n)
    && g.invalidations == (if AnyRejected(script, n) then 1 else 0)
    && g.slept == Waits(script, base, if CutOff(script, retries, n) then n + 1 else n)
    && g.outcome == (if CutOff(script, retries, n) then Cancelled else if n == 0 then Exhausted else Named(script(n - 1).reply))
  }

  // What r reports before attempt i, when all attempts before it were made and went on.
  ghost predicate SoFar(r: Report, script: nat -> Attempt, base: nat, i: nat, refreshed: bool) {
    && |r.marks| == i && r.sent == i
    && refreshed == AnyRejected(script, i)
    && r.invalidations == (if refreshed then 1 else 0)
    && r.slept == Waits(script, base, i)
    && r.outcome == if i == 0 then Exhausted else Named(script(i - 1).reply)
  }

  ghost predicate Reached(script: nat -> Attempt, i: nat) {
    (forall j: nat :: j < i ==> GoesOn(script, j)) && forall j: nat :: 1 <= j < i ==> !script(j).cancelled
  }

  // The verdict on one reply, in terms of the script.
  lemma VerdictReads(script: nat -> Attempt, i: nat, refreshed: bool)
    requires refreshed == AnyRejected(script, i)
    ensures var reply := script(i).reply; var v := JudgeGet(reply, script(i).at, refreshed);
      && v.final == !GoesOn(script, i)
      && v.outcome == Named(reply)
      && v.sent == (if reply == NotSent then 0 else 1)
      && v.invalidations == (if Rejected(reply) && !refreshed then 1 else 0)
  {
  }

  lemma RejectedGrows(script: nat -> Attempt, i: nat)
    ensures AnyRejected(script, i + 1) <==> AnyRejected(script, i) || Rejected(script(i).reply)
  {
  }

  lemma OneMore(r: Report, script: nat -> Attempt, base: nat, i: nat, refreshed: bool)
    requires SoFar(r, script, base, i, refreshed) && GoesOn(script, i)
    ensures var v := JudgeGet(script(i).reply, script(i).at, refreshed);
      SoFar(Judged(Slept(r, Delay(base, i, script(i).jitter)), v), script, base, i + 1, refreshed || v.invalidations == 1)
  {
    VerdictReads(script, i, refreshed);
    RejectedGrows(script, i);
    hide JudgeGet, Backoff, AnyRejected, Named;
    assert i > 0 ==> Waits(script, base, i + 1) == Waits(script, base, i) + Backoff(base, i, script(i).jitter);
  }

  lemma LastOne(r: Report, script: nat -> Attempt, base: nat, retries: nat, i: nat, refreshed: bool)
    requires SoFar(r, script, base, i, refreshed) && !GoesOn(script, i)
    ensures var v := JudgeGet(script(i).reply, script(i).at, refreshed);
      Tells(Judged(Slept(r, Delay(base, i, script(i).jitter)), v), script, base, retries, i + 1)
  {
    VerdictReads(script, i, refreshed);
    RejectedGrows(script, i);
    hide JudgeGet, Backoff, AnyRejected, Named, GoesOn;
    assert !CutOff(script, retries, i + 1);
    assert i > 0 ==> Waits(script, base, i + 1) == Waits(script, base, i) + Backoff(base, i, script(i).jitter);
  }

  lemma {:induction false} LoopTells(script: nat -> Attempt, base: nat, retries: nat, i: nat, refreshed: bool, r: Report) returns (n: nat)
    requires i <= retries && Reached(script, i) && SoFar(r, script, base, i, refreshed)
    ensures forall k: nat :: k < n <==> Made(script, retries, k)
    ensures Tells(GetFrom(script, base, retries, i, refreshed, r), script, base, retries, n)
    decreases retries - i
  {
    var a := script(i);
    var v := JudgeGet(a.reply, a.at, refreshed);
    VerdictReads(script, i, refreshed);
    hide JudgeGet, Delay, Waits, AnyRejected, Named;
    if i == retries || (i > 0 && a.cancelled) {
      n := i;
      Stops(script, retries, i);
      CutsOff(r, script, base, retries, i, refreshed);
    } else if v.final {
      n := i + 1;
      StopsAfter(script, retries, i);
      LastOne(r, script, base, retries, i, refreshed);
    } else {
      OneMore(r, script, base, i, refreshed);
      n := LoopTells(script, base, retries, i + 1, refreshed || v.invalidations == 1,
                     Judged(Slept(r, Delay(base, i, a.jitter)), v));
    }
  }

  lemma Stops(script: nat -> Attempt, retries: nat, i: nat)
    requires i <= retries && Reached(script, i) && (i == retries || (i > 0 && script(i).cancelled))
    ensures forall k: nat :: k < i <==> Made(script, retries, k)
  {
    hide GoesOn;
  }

  lemma StopsAfter(script: nat -> Attempt, retries: nat, i: nat)
    requires i < retries && Reached(script, i) && (i > 0 ==> !script(i).cancelled) && !GoesOn(script, i)
    ensures forall k: nat :: k < i + 1 <==> Made(script, retries, k)
  {
    hide GoesOn;
  }

  lemma CutsOff(r: Report, script: nat -> Attempt, base: nat, retries: nat, i: nat, refreshed: bool)
    requires i <= retries && Reached(script, i) && (i == retries || (i > 0 && script(i).cancelled))
    requires SoFar(r, script, base, i, refreshed)
    ensures Tells(GetFrom(script, base, retries, i, refreshed, r), script, base, retries, i)
  {
    hide JudgeGet, Backoff, AnyRejected, Named;
    assert i > 0 ==> GoesOn(script, i - 1);
    assert i > 0 ==> script(i - 1).reply != NotSent;
    hide GoesOn;
    if i < retries {
      assert Waits(script, base, i + 1) == Waits(script, base, i) + Backoff(base, i, script(i).jitter);
    }
  }

  /** A read makes exactly the attempts before which every attempt met a lost
      connection, a broken response, a server error or the first rejected token,
      no wait was cancelled, and the limit was not reached. Requests, refreshes
      and sleep are those of these attempts, and the last reply, or the
      cancelled wait, names the outcome. */
  lemma ReadExactly(script: nat -> Attempt, base: nat, retries: nat) returns (n: nat)
    ensures forall k: nat :: k < n <==> Made(script, retries, k)
    ensures Tells(GetReport(script, base, retries), script, base, retries, n)
  {
    n := LoopTells(script, base, retries, 0, false, Fresh(Exhausted));
  }

  // --- writes -------------------------------------------------------------

  // The status of a reply that has one, broken off or not.
  function CodeOf(reply: Reply): Option<int> {
    match reply
    case ReadError(code) => Some(code)
    case Status(code) => Some(code)
    case _ => None
  }

  function NamedWrite(reply: Reply): Outcome {
    if reply == NotSent then Refused
    else if reply == NetworkError then NoConnection
    else
      var code := CodeOf(reply).value;
      if code == 204 then Done
      else if code == RATE_LIMITED then RateLimited
      else if code >= SERVER_FAULT then ServerError
      else HttpError(code)
  }

  /** A write makes a second attempt exactly when its first was answered 401,
      after one refresh; its last reply names the outcome, whether or not the
      response broke off, and it never sleeps. */
  lemma WriteExactly(script: nat -> Attempt)
    ensures var p := PatchReport(script); var again := CodeOf(script(0).reply) == Some(UNAUTHORIZED);
      var last := script(if again then 1 else 0).reply;
      && |p.marks| == (if again then 2 else 1)
      && p.invalidations == (if again then 1 else 0)
      && p.sent == (if last == NotSent then |p.marks| - 1 else |p.marks|)
      && p.slept == 0 && p.outcome == NamedWrite(last)
  {
    var v := JudgePatch(script(0).reply, script(0).at, true);
    var w := JudgePatch(script(1).reply, script(1).at, false);
    PatchReads(script(0).reply, script(0).at, true);
    PatchReads(script(1).reply, script(1).at, false);
    hide JudgePatch, CodeOf, NamedWrite;
    var r := Judged(Fresh(Exhausted), v);
    assert PatchReport(script) == if v.final then r else PatchFrom(script, 1, r);
    assert PatchFrom(script, 1, r) == Judged(r, w);
    hide PatchFrom, PatchReport;
  }

  lemma PatchReads(reply: Reply, at: int, first: bool)
    ensures var v := JudgePatch(reply, at, first); var again := first && CodeOf(reply) == Some(UNAUTHORIZED);
      && v.final == !again && v.invalidations == (if again then 1 else 0)
      && v.sent == (if reply == NotSent then 0 else 1)
      && (!again ==> v.outcome == NamedWrite(reply))
  {
  }
}
