/**
 What the applier's answers do to the cache: a write that did not succeed is
 forgotten and tried again, and an entry changes only for a reason.
 */
module Retries {
  import opened Options
  import opened Text
  import opened ScheduleModel
  import opened Validation
  import opened Ring
  import opened Switches
  import opened Clock
  import opened Signatures
  import opened Evaluation
  import opened Runs
  import opened WriteBound

  ghost predicate Called(calls: seq<Call>, key: string) {
    exists i :: 0 <= i < |calls| && calls[i].key == key
  }

  // The winning block started longer ago than the catch-up window.
  ghost predicate TooOld(d: Document, key: string, now: int, catchup: int)
    requires ClaimAt(d, key, now).Some?
  {
    now - SlotStartBefore(RingIndex(ClaimAt(d, key, now).value.start), now) > catchup
  }

  ghost function WinnerSignature(d: Document, key: string, now: int): string
    requires ClaimAt(d, key, now).Some?
  {
    Signature(ClaimAt(d, key, now).value.action)
  }

  // Some action wins and the cache does not say that it is in force.
  ghost predicate Waiting(d: Document, key: string, last: Cache, now: int) {
    ClaimAt(d, key, now).Some? && EntryOf(last, key) != Some(WinnerSignature(d, key, now))
  }

  lemma DecisionOf(d: Document, catchup: int, last: Cache, now: int, key: string)
    requires Valid(d)
    ensures Decide(EntryOf(last, key), ClaimAt(d, key, now), now, catchup)
         == if ClaimAt(d, key, now).None? then Forget
            else if !Waiting(d, key, last, now) then InForce
            else if TooOld(d, key, now, catchup) then Seed
            else Apply
  {
    hide Valid, Resolved, Signature, SlotStartBefore, RingIndex, SlotAt;
    if ClaimAt(d, key, now).Some? { WinnerActionValid(d, key, SlotAt(now)); }
  }

  /** The applier is called for a target exactly when its winning action is not
      in force and started within the window, with that action, once. */
  lemma CalledExactly(d: Document, catchup: int, c: Cycle, key: string)
    requires Valid(d) && IsTargetKey(d, key) && c.answers(key).Some?
    requires Evaluated(d, catchup, c.answers, c.before, c.at, c.after, c.calls)
    ensures Called(c.calls, key) <==> Waiting(d, key, c.before, c.at) && !TooOld(d, key, c.at, catchup)
    ensures forall i :: 0 <= i < |c.calls| && c.calls[i].key == key ==>
      && c.calls[i].action == ClaimAt(d, key, c.at).value.action && c.answers(key) == Some(c.calls[i].outcome)
      && forall j :: 0 <= j < |c.calls| && c.calls[j].key == key ==> j == i
  {
    DecisionOf(d, catchup, c.before, c.at, key);
    hide Decide, ClaimAt, TargetOf, IsTargetKey, Waiting, TooOld, After, Valid;
    if Called(c.calls, key) {
      var i :| 0 <= i < |c.calls| && c.calls[i].key == key;
      assert Due(d, catchup, c.before, c.at, c.calls[i].key);
      forall i, j | 0 <= i < |c.calls| && 0 <= j < |c.calls| && c.calls[i].key == key == c.calls[j].key ensures i == j {
        LessTotal(key, key);
      }
    }
    assert Due(d, catchup, c.before, c.at, key) ==> Called(c.calls, key);
  }

  /** A call that is answered other than Applied leaves the target's entry as it was. */
  lemma FailureForgotten(d: Document, catchup: int, c: Cycle, i: nat)
    requires Evaluated(d, catchup, c.answers, c.before, c.at, c.after, c.calls)
    requires i < |c.calls| && c.calls[i].outcome != Applied
    ensures EntryOf(c.after, c.calls[i].key) == EntryOf(c.before, c.calls[i].key)
  {
    hide Decide, ClaimAt, TargetOf, IsTargetKey;
    assert Due(d, catchup, c.before, c.at, c.calls[i].key);
  }

  /** An entry becomes the signature of the winning action only by a call that
      succeeded, by a start older than the window, or with no applier; it
      vanishes exactly in a gap, and does not change otherwise. */
  lemma EntryChanges(d: Document, catchup: int, c: Cycle, key: string)
    requires Valid(d) && IsTargetKey(d, key)
    requires Evaluated(d, catchup, c.answers, c.before, c.at, c.after, c.calls)
    ensures ClaimAt(d, key, c.at).None? ==> EntryOf(c.after, key) == None
    ensures ClaimAt(d, key, c.at).Some? ==>
      EntryOf(c.after, key) ==
        if Waiting(d, key, c.before, c.at) && (TooOld(d, key, c.at, catchup) || c.answers(key).None? || Succeeded(c.calls, key))
        then Some(WinnerSignature(d, key, c.at)) else EntryOf(c.before, key)
  {
    DecisionOf(d, catchup, c.before, c.at, key);
    AppliedMeans(d, catchup, c, key);
    hide Decide, ClaimAt, IsTargetKey, TooOld, Valid, Succeeded, CallsExact, Signature;
  }

  lemma AppliedMeans(d: Document, catchup: int, c: Cycle, key: string)
    requires IsTargetKey(d, key)
    requires Evaluated(d, catchup, c.answers, c.before, c.at, c.after, c.calls)
    ensures Succeeded(c.calls, key) <==>
      Decide(EntryOf(c.before, key), ClaimAt(d, key, c.at), c.at, catchup) == Apply && c.answers(key) == Some(Applied)
  {
    hide Decide, ClaimAt, TargetOf, IsTargetKey, After;
    if Succeeded(c.calls, key) {
      var i :| 0 <= i < |c.calls| && c.calls[i].key == key && c.calls[i].outcome == Applied;
      assert Due(d, catchup, c.before, c.at, c.calls[i].key);
    }
    assert Due(d, catchup, c.before, c.at, key) ==> EntryOf(c.before, key) == EntryOf(c.before, key);
  }

  lemma CalledAt(d: Document, catchup: int, cs: seq<Cycle>, key: string, j: nat)
    requires Valid(d) && Cycles(d, catchup, cs) && IsTargetKey(d, key) && j < |cs|
    requires Waiting(d, key, cs[j].before, cs[j].at) && !TooOld(d, key, cs[j].at, catchup)
    ensures Called(cs[j].calls, key)
  {
    hide Valid, Waiting, TooOld, ClaimAt, Called, Evaluated, IsTargetKey;
    assert cs[j].answers(key).Some?;
    CalledExactly(d, catchup, cs[j], key);
  }

  lemma StillWaiting(d: Document, catchup: int, cs: seq<Cycle>, key: string, j: nat)
    requires Valid(d) && Cycles(d, catchup, cs) && IsTargetKey(d, key) && 0 < j < |cs|
    requires Waiting(d, key, cs[j - 1].before, cs[j - 1].at) && !TooOld(d, key, cs[j - 1].at, catchup)
    requires WinnerKey(d, key, cs[j].at) == WinnerKey(d, key, cs[j - 1].at) && !Succeeded(cs[j - 1].calls, key)
    ensures Waiting(d, key, cs[j].before, cs[j].at)
  {
    hide Valid, Resolved, Signature, Evaluated, TooOld, SlotAt, IsTargetKey;
    assert cs[j - 1].answers(key).Some?;
    EntryChanges(d, catchup, cs[j - 1], key);
    SameKeySameAction(d, key, SlotAt(cs[j - 1].at), SlotAt(cs[j].at));
  }

  /** While the same block keeps winning, is not in force and started within
      the window, every evaluation calls the applier again until a call succeeds. */
  lemma {:induction false} CalledUntilApplied(d: Document, catchup: int, cs: seq<Cycle>, key: string, i: nat, j: nat)
    requires Valid(d) && Cycles(d, catchup, cs) && IsTargetKey(d, key) && i <= j < |cs|
    requires Waiting(d, key, cs[i].before, cs[i].at)
    requires forall k :: i <= k <= j ==> WinnerKey(d, key, cs[k].at) == WinnerKey(d, key, cs[i].at)
    requires forall k :: i <= k <= j ==> ClaimAt(d, key, cs[k].at).Some? && !TooOld(d, key, cs[k].at, catchup)
    requires forall k :: i <= k < j ==> !Succeeded(cs[k].calls, key)
    ensures Waiting(d, key, cs[j].before, cs[j].at) && Called(cs[j].calls, key)
    decreases j - i
  {
    hide Valid, Waiting, TooOld, WinnerKey, ClaimAt, Called, Cycles, IsTargetKey, Succeeded;
    if i == j {
    } else {
      CalledUntilApplied(d, catchup, cs, key, i, j - 1);
      StillWaiting(d, catchup, cs, key, j);
    }
    CalledAt(d, catchup, cs, key, j);
  }
}
