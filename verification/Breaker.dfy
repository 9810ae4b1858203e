/**
 The ONECTA client: circuit breaker, retry loop and one-shot token refresh.
 Instants are numbers of nanoseconds.
 */
module Client {
  import opened Options

  const THRESHOLD := 5
  const RECOVERY := 60_000_000_000

  // --- the breaker as a value ---------------------------------------------

  datatype Mode = Closed | Open | HalfOpen

  datatype Breaker = Breaker(mode: Mode, failures: nat, openedAt: int)

  function OnFailure(b: Breaker, now: int): Breaker {
    if b.mode == HalfOpen then Breaker(Open, b.failures, now)
    else if b.failures + 1 >= THRESHOLD then Breaker(Open, b.failures + 1, now)
    else b.(failures := b.failures + 1)
  }

  function OnSuccess(b: Breaker): Breaker { b.(mode := Closed, failures := 0) }

  predicate Admits(b: Breaker, now: int) {
    b.mode != Open || now - b.openedAt >= RECOVERY
  }

  function OnCheck(b: Breaker, now: int): Breaker {
    if b.mode == Open && now - b.openedAt >= RECOVERY then b.(mode := HalfOpen) else b
  }

  // What an attempt means to the breaker.
  datatype Mark = Fail(at: int) | Success | Neutral

  function OnMark(b: Breaker, m: Mark): Breaker {
    match m
    case Fail(at) => OnFailure(b, at)
    case Success => OnSuccess(b)
    case Neutral => b
  }

  function OnMarks(b: Breaker, ms: seq<Mark>): Breaker {
    if ms == [] then b else OnMark(OnMarks(b, ms[..|ms| - 1]), ms[|ms| - 1])
  }

  // --- one call -----------------------------------------------------------

  datatype Reply =
    | NotSent               // no token, or the request could not be built
    | NetworkError
    | ReadError(code: int)  // the status arrived, the response broke off
    | Status(code: int)

  // What happens on one attempt: the wait before it may be cancelled; `at` is
  // the clock when its outcome is recorded.
  datatype Attempt = Attempt(cancelled: bool, jitter: nat, reply: Reply, at: int)

  datatype Outcome =
    | Done | CircuitOpen | RateLimited | Unauthorized
    | Cancelled | Refused | NoConnection | ServerError | HttpError(code: int) | Exhausted

  /** All that a call does besides its result: the marks it leaves on the
      breaker, requests sent, tokens invalidated, and time slept. */
  datatype Report = Report(outcome: Outcome, marks: seq<Mark>, sent: nat, invalidations: nat, slept: nat)

  function Slept(r: Report, d: nat): Report { r.(slept := r.slept + d) }

  function Judged(r: Report, v: Verdict): Report {
    Report(v.outcome, r.marks + [v.mark], r.sent + v.sent, r.invalidations + v.invalidations, r.slept)
  }

  // base << k
  function Shift(base: nat, k: nat): nat {
    if k == 0 then base else 2 * Shift(base, k - 1)
  }

  // The delay before the given retry, with up to half of it added at random.
  function Backoff(base: nat, attempt: nat, jitter: nat): (d: nat)
    requires attempt >= 1
    ensures Shift(base, attempt - 1) <= d && 2 * d <= 3 * Shift(base, attempt - 1)
  {
    var b := Shift(base, attempt - 1);
    b + jitter % (b / 2 + 1)
  }

  // Every delay from the doubled base to half as much again can come up.
  lemma BackoffAttains(base: nat, attempt: nat, d: nat) returns (jitter: nat)
    requires attempt >= 1 && Shift(base, attempt - 1) <= d <= Shift(base, attempt - 1) + Shift(base, attempt - 1) / 2
    ensures Backoff(base, attempt, jitter) == d
  {
    jitter := d - Shift(base, attempt - 1);
  }

  // What one reply means: whether the call ends with it, and with what outcome.
  datatype Verdict = Verdict(final: bool, outcome: Outcome, mark: Mark, sent: nat, invalidations: nat)

  function JudgeGet(reply: Reply, at: int, refreshed: bool): Verdict {
    match reply
    case NotSent => Verdict(true, Refused, Neutral, 0, 0)
    case NetworkError => Verdict(false, NoConnection, Fail(at), 1, 0)
    case ReadError(_) => Verdict(false, NoConnection, Fail(at), 1, 0)
    case Status(code) =>
      if code == 200 then Verdict(true, Done, Success, 1, 0)
      else if code == 429 then Verdict(true, RateLimited, Neutral, 1, 0)
      else if code == 401 then Verdict(refreshed, Unauthorized, Neutral, 1, if refreshed then 0 else 1)
      else if code >= 500 then Verdict(false, ServerError, Fail(at), 1, 0)
      else Verdict(true, HttpError(code), Neutral, 1, 0)
  }

  // A PATCH goes by the status even when the response body breaks off.
  function JudgePatch(reply: Reply, at: int, first: bool): Verdict {
    match reply
    case NotSent => Verdict(true, Refused, Neutral, 0, 0)
    case NetworkError => Verdict(true, NoConnection, Fail(at), 1, 0)
    case ReadError(code) => JudgePatchStatus(code, at, first)
    case Status(code) => JudgePatchStatus(code, at, first)
  }

  function JudgePatchStatus(code: int, at: int, first: bool): Verdict {
    if code == 204 then Verdict(true, Done, Success, 1, 0)
    else if code == 429 then Verdict(true, RateLimited, Neutral, 1, 0)
    else if code == 401 && first then Verdict(false, Unauthorized, Neutral, 1, 1)
    else if code >= 500 then Verdict(true, ServerError, Fail(at), 1, 0)
    else Verdict(true, HttpError(code), Neutral, 1, 0)
  }

  function Delay(base: nat, i: nat, jitter: nat): nat {
    if i == 0 then 0 else Backoff(base, i, jitter)
  }

  // Reads are left out for a while after a successful write.
  predicate Ignores(lastPatch: Option<int>, scanIgnore: nat, now: int) {
    lastPatch.Some? && now - lastPatch.value < scanIgnore
  }

  const NOTHING := Report(CircuitOpen, [], 0, 0, 0)

  function Fresh(outcome: Outcome): Report { NOTHING.(outcome := outcome) }

  // The GET loop from attempt i on, after r.
  function GetFrom(script: nat -> Attempt, base: nat, retries: nat, i: nat, refreshed: bool, r: Report): Report
    decreases retries - i
  {
    if i >= retries then r
    else
      var a := script(i);
      var s := Slept(r, Delay(base, i, a.jitter));
      if i > 0 && a.cancelled then s.(outcome := Cancelled)
      else
        var v := JudgeGet(a.reply, a.at, refreshed);
        if v.final then Judged(s, v)
        else GetFrom(script, base, retries, i + 1, refreshed || v.invalidations == 1, Judged(s, v))
  }

  // The PATCH loop: a 401 on the first attempt refreshes the token and tries once more.
  function PatchFrom(script: nat -> Attempt, i: nat, r: Report): Report
    decreases 2 - i
  {
    if i >= 2 then r
    else
      var v := JudgePatch(script(i).reply, script(i).at, i == 0);
      if v.final then Judged(r, v) else PatchFrom(script, i + 1, Judged(r, v))
  }

  function GetReport(script: nat -> Attempt, base: nat, retries: nat): Report {
    GetFrom(script, base, retries, 0, false, Fresh(Exhausted))
  }

  function PatchReport(script: nat -> Attempt): Report {
    PatchFrom(script, 0, Fresh(Exhausted))
  }

  // A call from its breaker check on.
  function GetCall(b: Breaker, checked: int, script: nat -> Attempt, base: nat, retries: nat): Report {
    if Admits(b, checked) then GetReport(script, base, retries) else NOTHING
  }

  function PatchCall(b: Breaker, checked: int, script: nat -> Attempt): Report {
    if Admits(b, checked) then PatchReport(script) else NOTHING
  }

  // The attempt that succeeds is the one after as many refreshes.
  function PatchedAt(r: Report, script: nat -> Attempt, before: Option<int>): Option<int> {
    if r.outcome == Done then Some(script(r.invalidations).at) else before
  }

  // Only a first 401 goes on, after invalidating the token.
  lemma PatchVerdict(reply: Reply, at: int, first: bool)
    ensures var v := JudgePatch(reply, at, first);
      v.invalidations == (if v.final then 0 else 1) && (!v.final ==> first && v.outcome != Done)
  {
  }

  lemma MarksNone(b: Breaker)
    ensures OnMarks(b, []) == b
  {
  }

  lemma MarksSnoc(b: Breaker, ms: seq<Mark>, m: Mark)
    ensures OnMarks(b, ms + [m]) == OnMark(OnMarks(b, ms), m)
  {
    assert (ms + [m])[..|ms|] == ms;
  }

  class Client {
    var mode: Mode
    var failures: nat
    var openedAt: int
    var lastPatch: Option<int>
    const scanIgnore: nat
    const retryBase: nat
    const retryMax: nat

    function State(): Breaker
      reads this
    {
      Breaker(mode, failures, openedAt)
    }

    constructor (scanIgnore: nat, retryBase: nat, retryMax: nat)
      ensures State() == Breaker(Closed, 0, 0) && lastPatch == None
      ensures this.scanIgnore == scanIgnore && this.retryBase == retryBase && this.retryMax == retryMax
    {
      mode, failures, openedAt, lastPatch := Closed, 0, 0, None;
      this.scanIgnore, this.retryBase, this.retryMax := scanIgnore, retryBase, retryMax;
    }

    method CheckBreaker(now: int) returns (ok: bool)
      modifies this`mode
      ensures ok == Admits(old(State()), now) && State() == OnCheck(old(State()), now)
    {
      if mode == Open {
        if now - openedAt >= RECOVERY {
          mode := HalfOpen;
          return true;
        }
        return false;
      }
      return true;
    }

    method RecordSuccess()
      modifies this`mode, this`failures
      ensures State() == OnSuccess(old(State()))
    {
      failures := 0;
      mode := Closed;
    }

    method RecordFailure(now: int)
      modifies this`mode, this`failures, this`openedAt
      ensures State() == OnFailure(old(State()), now)
    {
      if mode == HalfOpen {
        mode := Open;
        openedAt := now;
        return;
      }
      failures := failures + 1;
      if failures >= THRESHOLD {
        mode := Open;
        openedAt := now;
      }
    }

    method Record(m: Mark)
      modifies this`mode, this`failures, this`openedAt
      ensures State() == OnMark(old(State()), m)
    {
      match m
      case Fail(at) => RecordFailure(at);
      case Success => RecordSuccess();
      case Neutral =>
    }

    /** The test a read makes before it waits for its turn: other calls may
        run between this and GetDevices. */
    method EnterGet(now: int) returns (ignored: bool)
      ensures ignored == Ignores(lastPatch, scanIgnore, now)
    {
      ignored := lastPatch.Some? && now - lastPatch.value < scanIgnore;
    }

    /** The rest of the read, one call at a time; `checked` is the clock at
        the breaker check. */
    method GetDevices(checked: int, script: nat -> Attempt) returns (r: Report)
      modifies this`mode, this`failures, this`openedAt
      ensures r == GetCall(old(State()), checked, script, retryBase, retryMax)
      ensures State() == OnMarks(OnCheck(old(State()), checked), r.marks)
    {
      var ok := CheckBreaker(checked);
      if !ok {
        return NOTHING;
      }
      r := Retry(script);
    }

    method Retry(script: nat -> Attempt) returns (r: Report)
      modifies this`mode, this`failures, this`openedAt
      ensures r == GetReport(script, retryBase, retryMax)
      ensures State() == OnMarks(old(State()), r.marks)
    {
      hide JudgeGet, Delay, OnMark, OnMarks;
      MarksNone(State());
      var refreshed := false;
      r := Fresh(Exhausted);
      for i := 0 to retryMax
        invariant State() == OnMarks(old(State()), r.marks)
        invariant GetReport(script, retryBase, retryMax) == GetFrom(script, retryBase, retryMax, i, refreshed, r)
      {
        var a := script(i);
        r := Slept(r, Delay(retryBase, i, a.jitter));
        if i > 0 && a.cancelled {
          return r.(outcome := Cancelled);
        }
        var v := JudgeGet(a.reply, a.at, refreshed);
        Record(v.mark);
        MarksSnoc(old(State()), r.marks, v.mark);
        r := Judged(r, v);
        if v.final {
          return;
        }
        refreshed := refreshed || v.invalidations == 1;
      }
    }

    /** A read during which no other call takes its turn; None when it is turned away. */
    method GetUninterrupted(entered: int, checked: int, script: nat -> Attempt) returns (r: Option<Report>)
      modifies this`mode, this`failures, this`openedAt
      ensures r.None? <==> Ignores(lastPatch, scanIgnore, entered)
      ensures r.None? ==> State() == old(State())
      ensures r.Some? ==>
        && r.value == GetCall(old(State()), checked, script, retryBase, retryMax)
        && State() == OnMarks(OnCheck(old(State()), checked), r.value.marks)
    {
      var ignored := EnterGet(entered);
      if ignored {
        return None;
      }
      var report := GetDevices(checked, script);
      return Some(report);
    }

    /** One write; success starts the scan-ignore window. */
    method Patch(checked: int, script: nat -> Attempt) returns (r: Report)
      modifies this
      ensures r == PatchCall(old(State()), checked, script)
      ensures State() == OnMarks(OnCheck(old(State()), checked), r.marks)
      ensures lastPatch == PatchedAt(r, script, old(lastPatch))
    {
      var ok := CheckBreaker(checked);
      if !ok {
        return NOTHING;
      }
      r := PatchTwice(script);
    }

    method PatchTwice(script: nat -> Attempt) returns (r: Report)
      modifies this
      ensures r == PatchReport(script)
      ensures State() == OnMarks(old(State()), r.marks)
      ensures lastPatch == PatchedAt(r, script, old(lastPatch))
    {
      hide JudgePatch, OnMark, OnMarks;
      MarksNone(State());
      r := Fresh(Exhausted);
      for i := 0 to 2
        invariant lastPatch == old(lastPatch) && r.outcome != Done && r.invalidations == i
        invariant State() == OnMarks(old(State()), r.marks)
        invariant PatchReport(script) == PatchFrom(script, i, r)
      {
        var a := script(i);
        var v := JudgePatch(a.reply, a.at, i == 0);
        PatchVerdict(a.reply, a.at, i == 0);
        Record(v.mark);
        MarksSnoc(old(State()), r.marks, v.mark);
        r := Judged(r, v);
        if v.final {
          if v.outcome == Done {
            lastPatch := Some(a.at);
          }
          return;
        }
      }
    }
  }
}
