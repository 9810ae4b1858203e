/**
 The table of pending OAuth logins: bounded, each entry good for one use and
 ten minutes. Go visits a map in no fixed order, so eviction is a relation.
 */
module StateStores {
  import opened Options
  import opened Sets

  const TTL := 600_000_000_000
  const MAX_PENDING := 128

  datatype Pending = Pending(verifier: string, redirectURI: string, expiresAt: int)

  type Entries = map<string, Pending>

  function Pruned(a: Entries, now: int): Entries {
    map k | k in a && now <= a[k].expiresAt :: a[k]
  }

  // b is what is left of a after evictions down to below the cap: no removed
  // entry expires later than a kept one.
  ghost predicate OldestOut(a: Entries, b: Entries) {
    && b.Keys <= a.Keys && (forall k :: k in b ==> b[k] == a[k])
    && (|a| < MAX_PENDING ==> b == a)
    && (|a| >= MAX_PENDING ==> |b| == MAX_PENDING - 1)
    && ("" !in a ==> forall r, k :: r in a && r !in b && k in b ==> a[r].expiresAt <= a[k].expiresAt)
  }

  ghost predicate PutStep(a: Entries, state: string, e: Pending, now: int, b: Entries) {
    exists mid :: OldestOut(Pruned(a, now), mid) && b == mid[state := e]
  }

  function Without(a: Entries, state: string): Entries { a - {state} }

  function TakeResult(a: Entries, state: string, now: int): Option<Pending> {
    if state in a && now <= a[state].expiresAt then Some(a[state]) else None
  }

  class StateStore {
    var entries: Entries

    constructor ()
      ensures entries == map[]
    {
      entries := map[];
    }

    // The entry the eviction loop settles on. The empty key doubles as "none yet".
    method FindOldest() returns (oldest: string)
      requires entries != map[]
      ensures oldest in entries
      ensures "" !in entries ==> forall k :: k in entries ==> entries[oldest].expiresAt <= entries[k].expiresAt
    {
      oldest := "";
      var oldestAt := 0;
      var rest := entries.Keys;
      while rest != {}
        invariant rest <= entries.Keys
        invariant oldest in entries && oldest !in rest ==> oldestAt == entries[oldest].expiresAt
        invariant rest == entries.Keys ==> oldest == ""
        invariant rest != entries.Keys ==> oldest in entries && oldest !in rest
        invariant "" !in entries && rest != entries.Keys ==>
          forall k :: k in entries && k !in rest ==> oldestAt <= entries[k].expiresAt
      {
        var k :| k in rest;
        if oldest == "" || entries[k].expiresAt < oldestAt {
          oldest, oldestAt := k, entries[k].expiresAt;
        }
        rest := rest - {k};
      }
    }

    // `now` is the clock at the clean-up, `later` when the entry is stored.
    method Put(state: string, verifier: string, redirectURI: string, now: int, later: int)
      modifies this
      ensures PutStep(old(entries), state, Pending(verifier, redirectURI, later + TTL), now, entries)
    {
      entries := Pruned(entries, now);
      ghost var all := entries;
      while |entries| >= MAX_PENDING
        invariant entries.Keys <= all.Keys && (forall k :: k in entries ==> entries[k] == all[k])
        invariant |all| < MAX_PENDING ==> entries == all
        invariant |all| >= MAX_PENDING ==> |entries| >= MAX_PENDING - 1
        invariant "" !in all ==> forall r, k :: r in all && r !in entries && k in entries ==> all[r].expiresAt <= all[k].expiresAt
        decreases |entries|
      {
        var oldest := FindOldest();
        ghost var was := entries;
        entries := entries - {oldest};
        assert entries.Keys == was.Keys - {oldest};
        assert |entries| == |was| - 1;
      }
      assert OldestOut(all, entries);
      entries := entries[state := Pending(verifier, redirectURI, later + TTL)];
    }

    method Take(state: string, now: int) returns (r: Option<Pending>)
      modifies this
      ensures r == TakeResult(old(entries), state, now)
      ensures entries == Without(old(entries), state)
    {
      if state !in entries {
        assert entries - {state} == entries;
        return None;
      }
      var e := entries[state];
      entries := entries - {state};
      if now > e.expiresAt {
        return None;
      }
      return Some(e);
    }
  }

  // --- runs ---------------------------------------------------------------

  datatype Op =
    | Put(state: string, verifier: string, redirectURI: string, now: int, later: int)
    | Take(state: string, now: int, result: Option<Pending>)

  function EntryFor(p: Op): Pending
    requires p.Put?
  {
    Pending(p.verifier, p.redirectURI, p.later + TTL)
  }

  ghost predicate OpStep(a: Entries, op: Op, b: Entries) {
    match op
    case Put(state, _, _, now, later) => state != "" && PutStep(a, state, EntryFor(op), now, b)
    case Take(state, now, result) => result == TakeResult(a, state, now) && b == Without(a, state)
  }

  // Generated states are not empty; the table starts empty.
  ghost predicate Run(ts: seq<Entries>, ops: seq<Op>) {
    && |ts| == |ops| + 1 && ts[0] == map[]
    && forall i :: 0 <= i < |ops| ==> OpStep(ts[i], ops[i], ts[i + 1])
  }

  lemma PutBounded(a: Entries, state: string, e: Pending, now: int, b: Entries)
    requires |a| <= MAX_PENDING && PutStep(a, state, e, now, b)
    ensures |b| <= MAX_PENDING
  {
    var mid :| OldestOut(Pruned(a, now), mid) && b == mid[state := e];
    assert b.Keys == mid.Keys + {state};
    assert |b.Keys| <= |mid.Keys| + 1;
  }

  lemma TakeBounded(a: Entries, state: string)
    ensures |Without(a, state)| <= |a|
  {
    SubsetSize(Without(a, state).Keys, a.Keys);
  }

  /** The table never holds more than 128 entries. */
  lemma {:induction false} Bounded(ts: seq<Entries>, ops: seq<Op>, i: nat)
    requires Run(ts, ops) && i < |ts|
    ensures |ts[i]| <= 128
  {
    if i == 0 {
    } else {
      Bounded(ts, ops, i - 1);
      assert OpStep(ts[i - 1], ops[i - 1], ts[i]);
      match ops[i - 1]
      case Put(state, _, _, now, _) => PutBounded(ts[i - 1], state, EntryFor(ops[i - 1]), now, ts[i]);
      case Take(state, _, _) => TakeBounded(ts[i - 1], state);
    }
  }

  // Operation p is the last one on this state before i, and it put the entry e.
  ghost predicate PutBy(ops: seq<Op>, p: nat, i: nat, state: string, e: Pending)
    requires i <= |ops|
  {
    && p < i && ops[p].Put? && ops[p].state == state && EntryFor(ops[p]) == e
    && forall q :: p < q < i ==> ops[q].state != state
  }

  lemma {:induction false} EntryOrigin(ts: seq<Entries>, ops: seq<Op>, i: nat, state: string) returns (p: nat)
    requires Run(ts, ops) && i < |ts| && state in ts[i]
    ensures PutBy(ops, p, i, state, ts[i][state])
  {
    assert i > 0;
    var op := ops[i - 1];
    assert OpStep(ts[i - 1], op, ts[i]);
    if op.Put? && op.state == state {
      p := i - 1;
    } else {
      p := EntryOrigin(ts, ops, i - 1, state);
    }
  }

  /** A take returns only what the latest put of that state stored, not after
      its expiry, and no take of it lies in between: each entry is used once. */
  lemma TakeReturnsLatestPut(ts: seq<Entries>, ops: seq<Op>, i: nat) returns (p: nat)
    requires Run(ts, ops) && i < |ops| && ops[i].Take? && ops[i].result.Some?
    ensures PutBy(ops, p, i, ops[i].state, ops[i].result.value)
    ensures ops[i].result.value == Pending(ops[p].verifier, ops[p].redirectURI, ops[p].later + 600_000_000_000)
    ensures ops[i].now <= ops[p].later + 600_000_000_000
  {
    assert OpStep(ts[i], ops[i], ts[i + 1]);
    p := EntryOrigin(ts, ops, i, ops[i].state);
  }

  /** After a put the table holds the new entry, and of the others only ones
      it held before that had not expired. */
  lemma PutPrunes(ts: seq<Entries>, ops: seq<Op>, i: nat, k: string)
    requires Run(ts, ops) && i < |ops| && ops[i].Put? && k in ts[i + 1]
    ensures if k == ops[i].state then ts[i + 1][k] == EntryFor(ops[i])
            else k in ts[i] && ts[i + 1][k] == ts[i][k] && ops[i].now <= ts[i][k].expiresAt
  {
    assert OpStep(ts[i], ops[i], ts[i + 1]);
  }

  // --- survival -----------------------------------------------------------

  function FirstRead(op: Op): int { op.now }

  function LastRead(op: Op): int { if op.Put? then op.later else op.now }

  ghost predicate Ticking(ops: seq<Op>) {
    && (forall i :: 0 <= i < |ops| ==> FirstRead(ops[i]) <= LastRead(ops[i]))
    && (forall i, j :: 0 <= i < j < |ops| ==> LastRead(ops[i]) < FirstRead(ops[j]))
  }

  function Puts(ops: seq<Op>, lo: nat, hi: nat): nat
    requires lo <= hi <= |ops|
    decreases hi - lo
  {
    if lo == hi then 0 else Puts(ops, lo, hi - 1) + (if ops[hi - 1].Put? then 1 else 0)
  }

  ghost function Newer(a: Entries, at: int): set<string> {
    set k | k in a && a[k].expiresAt > at
  }

  // With a strictly increasing clock no two entries expire together.
  lemma ExpiriesDiffer(ts: seq<Entries>, ops: seq<Op>, i: nat, k: string, s: string)
    requires Run(ts, ops) && Ticking(ops) && i < |ts| && k in ts[i] && s in ts[i] && k != s
    ensures ts[i][k].expiresAt != ts[i][s].expiresAt
  {
    var p := EntryOrigin(ts, ops, i, k);
    var q := EntryOrigin(ts, ops, i, s);
    if p < q {
      assert LastRead(ops[p]) < FirstRead(ops[q]) <= LastRead(ops[q]);
    } else {
      assert LastRead(ops[q]) < FirstRead(ops[p]) <= LastRead(ops[p]);
    }
  }

  // An eviction spares an entry with fewer than 127 newer ones.
  lemma Spared(a: Entries, b: Entries, s: string)
    requires OldestOut(a, b) && s in a && "" !in a && |a| <= MAX_PENDING
    requires forall k :: k in a && k != s ==> a[k].expiresAt != a[s].expiresAt
    requires |Newer(a, a[s].expiresAt)| < MAX_PENDING - 1
    ensures s in b
  {
    if s !in b {
      forall k | k in b ensures k in Newer(a, a[s].expiresAt) {
        assert a[s].expiresAt <= a[k].expiresAt;
      }
      SubsetSize(b.Keys, Newer(a, a[s].expiresAt));
    }
  }

  // A put adds at most one newer entry and spares s while fewer than 127 are newer.
  lemma SurvivesPut(ts: seq<Entries>, ops: seq<Op>, i: nat, s: string, at: int)
    requires Run(ts, ops) && Ticking(ops) && i < |ops| && ops[i].Put? && ops[i].state != s
    requires s in ts[i] && ts[i][s].expiresAt == at && ops[i].now <= at
    requires |Newer(ts[i], at)| < MAX_PENDING - 1 && |ts[i]| <= MAX_PENDING
    ensures s in ts[i + 1] && ts[i + 1][s].expiresAt == at
    ensures |Newer(ts[i + 1], at)| <= |Newer(ts[i], at)| + 1
  {
    var op := ops[i];
    assert OpStep(ts[i], op, ts[i + 1]);
    var a := Pruned(ts[i], op.now);
    var mid :| OldestOut(a, mid) && ts[i + 1] == mid[op.state := EntryFor(op)];
    SubsetSize(a.Keys, ts[i].Keys);
    SubsetSize(Newer(a, at), Newer(ts[i], at));
    NoEmptyState(ts, ops, i);
    forall k | k in a && k != s ensures a[k].expiresAt != a[s].expiresAt {
      ExpiriesDiffer(ts, ops, i, k, s);
    }
    Spared(a, mid, s);
    assert Newer(ts[i + 1], at) <= Newer(ts[i], at) + {op.state};
    SubsetSize(Newer(ts[i + 1], at), Newer(ts[i], at) + {op.state});
  }

  lemma {:induction false} NoEmptyState(ts: seq<Entries>, ops: seq<Op>, i: nat)
    requires Run(ts, ops) && i < |ts|
    ensures "" !in ts[i]
  {
    if i == 0 {
    } else {
      NoEmptyState(ts, ops, i - 1);
      assert OpStep(ts[i - 1], ops[i - 1], ts[i]);
    }
  }

  lemma SurvivesTake(ts: seq<Entries>, ops: seq<Op>, i: nat, s: string, at: int)
    requires Run(ts, ops) && i < |ops| && ops[i].Take? && ops[i].state != s
    requires s in ts[i] && ts[i][s].expiresAt == at
    ensures s in ts[i + 1] && ts[i + 1][s].expiresAt == at
    ensures |Newer(ts[i + 1], at)| <= |Newer(ts[i], at)|
  {
    assert OpStep(ts[i], ops[i], ts[i + 1]);
    SubsetSize(Newer(ts[i + 1], at), Newer(ts[i], at));
  }

  lemma JustPut(ts: seq<Entries>, ops: seq<Op>, p: nat)
    requires Run(ts, ops) && Ticking(ops) && p < |ops| && ops[p].Put?
    ensures ops[p].state in ts[p + 1] && ts[p + 1][ops[p].state] == EntryFor(ops[p])
    ensures Newer(ts[p + 1], ops[p].later + TTL) == {}
  {
    assert OpStep(ts[p], ops[p], ts[p + 1]);
    var t := ts[p + 1];
    forall k | k in t ensures t[k].expiresAt <= ops[p].later + TTL {
      var q := EntryOrigin(ts, ops, p + 1, k);
      if q < p { assert LastRead(ops[q]) < FirstRead(ops[p]) <= LastRead(ops[p]); }
    }
  }

  // The entry put at p is still there before operation i, with few newer ones.
  ghost predicate Alive(ts: seq<Entries>, ops: seq<Op>, p: nat, i: nat)
    requires p < i <= |ops| && |ts| == |ops| + 1 && ops[p].Put?
  {
    var s, at := ops[p].state, ops[p].later + TTL;
    && s in ts[i] && ts[i][s].expiresAt == at
    && |Newer(ts[i], at)| <= Puts(ops, p + 1, i)
  }

  lemma AliveFirst(ts: seq<Entries>, ops: seq<Op>, p: nat)
    requires |ts| == |ops| + 1 && Run(ts, ops) && Ticking(ops) && p < |ops| && ops[p].Put?
    ensures Alive(ts, ops, p, p + 1)
  {
    JustPut(ts, ops, p);
    hide Run, Ticking, Newer;
    assert Puts(ops, p + 1, p + 1) == 0;
  }

  lemma AliveStep(ts: seq<Entries>, ops: seq<Op>, p: nat, i: nat)
    requires |ts| == |ops| + 1 && Run(ts, ops) && Ticking(ops) && p < i < |ops| && ops[p].Put?
    requires Alive(ts, ops, p, i) && Puts(ops, p + 1, i + 1) <= MAX_PENDING - 1
    requires ops[i].state != ops[p].state && ops[i].now <= ops[p].later + TTL
    ensures Alive(ts, ops, p, i + 1)
  {
    hide Run, Ticking, Newer;
    var s, at := ops[p].state, ops[p].later + TTL;
    if ops[i].Put? {
      Bounded(ts, ops, i);
      SurvivesPut(ts, ops, i, s, at);
    } else {
      SurvivesTake(ts, ops, i, s, at);
    }
  }

  lemma {:induction false} PutsGrow(ops: seq<Op>, lo: nat, mid: nat, hi: nat)
    requires lo <= mid <= hi <= |ops|
    ensures Puts(ops, lo, mid) <= Puts(ops, lo, hi)
    decreases hi
  {
    if mid >= hi {
    } else {
      PutsGrow(ops, lo, mid, hi - 1);
    }
  }

  lemma {:induction false} Survives(ts: seq<Entries>, ops: seq<Op>, p: nat, i: nat)
    requires |ts| == |ops| + 1 && Run(ts, ops) && Ticking(ops) && p < i <= |ops| && ops[p].Put?
    requires forall q :: p < q < i ==> ops[q].state != ops[p].state && ops[q].now <= ops[p].later + TTL
    requires Puts(ops, p + 1, i) <= MAX_PENDING - 1
    ensures Alive(ts, ops, p, i)
    decreases i
  {
    hide Run, Ticking, Alive, Puts;
    if i == p + 1 {
      AliveFirst(ts, ops, p);
    } else {
      PutsGrow(ops, p + 1, i - 1, i);
      Survives(ts, ops, p, i - 1);
      AliveStep(ts, ops, p, i - 1);
    }
  }

  /** With a strictly increasing clock an entry that is neither taken nor
      replaced nor expired survives 127 later puts: the take succeeds. */
  lemma UntakenEntrySurvives(ts: seq<Entries>, ops: seq<Op>, p: nat, i: nat)
    requires Run(ts, ops) && Ticking(ops) && p < i < |ops| && ops[p].Put?
    requires ops[i].Take? && ops[i].state == ops[p].state && ops[i].now <= ops[p].later + TTL
    requires forall q :: p < q < i ==> ops[q].state != ops[p].state
    requires Puts(ops, p + 1, i) <= 127
    ensures ops[i].result == Some(Pending(ops[p].verifier, ops[p].redirectURI, ops[p].later + TTL))
  {
    forall q | p < q < i ensures ops[q].now <= ops[p].later + TTL {
      assert FirstRead(ops[q]) <= LastRead(ops[q]) < FirstRead(ops[i]);
    }
    Survives(ts, ops, p, i);
    assert OpStep(ts[i], ops[i], ts[i + 1]);
    var q := EntryOrigin(ts, ops, i, ops[p].state);
    assert q == p;
  }
}
