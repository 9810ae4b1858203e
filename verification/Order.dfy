/**
 Resolution does not depend on the order in which the document lists its
 schedules, their blocks or their weekdays, up to full ties.
 */
module Order {
  import opened Options
  import opened ScheduleModel
  import opened Ring

  ghost predicate SameDays(b: Block, c: Block) {
    b.(days := []) == c.(days := []) && forall x :: x in b.days <==> x in c.days
  }

  ghost predicate HasBlock(s: Schedule, b: Block) {
    exists j :: 0 <= j < |s.blocks| && SameDays(b, s.blocks[j])
  }

  ghost predicate SameSchedule(s: Schedule, t: Schedule) {
    && s.(blocks := []) == t.(blocks := [])
    && (forall b :: b in s.blocks ==> HasBlock(t, b))
    && (forall b :: b in t.blocks ==> HasBlock(s, b))
  }

  ghost predicate HasSchedule(d: Document, s: Schedule) {
    exists i :: 0 <= i < |d.schedules| && SameSchedule(s, d.schedules[i])
  }

  // The documents list the same schedules, with the same blocks, on the same days, in any order.
  ghost predicate Reordered(d: Document, e: Document) {
    && (forall s :: s in d.schedules ==> HasSchedule(e, s))
    && (forall s :: s in e.schedules ==> HasSchedule(d, s))
  }

  ghost predicate NoTies(m: map<Site, Claim>) {
    forall p, q :: p in m && q in m && m[p].priority == m[q].priority && m[p].age == m[q].age ==> m[p] == m[q]
  }

  // What a reordering never changes about the winner of a slot.
  ghost predicate Agree(c: Option<Claim>, e: Option<Claim>) {
    match (c, e)
    case (None, None) => true
    case (Some(c), Some(e)) => c.priority == e.priority && c.age == e.age && c.start == e.start
    case _ => false
  }

  lemma SiteMoves(d: Document, e: Document, key: string, slot: Slot, p: Site) returns (q: Site)
    requires Reordered(d, e) && Covers(d, key, slot, p)
    ensures Covers(e, key, slot, q) && ClaimOf(e, key, slot, q) == ClaimOf(d, key, slot, p)
  {
    var s, b := d.schedules[p.sched], BlockAt(d, p);
    assert HasSchedule(e, s);
    var i :| 0 <= i < |e.schedules| && SameSchedule(s, e.schedules[i]);
    assert HasBlock(e.schedules[i], b);
    var j :| 0 <= j < |e.schedules[i].blocks| && SameDays(b, e.schedules[i].blocks[j]);
    assert b.days[p.day] in e.schedules[i].blocks[j].days;
    var k :| 0 <= k < |e.schedules[i].blocks[j].days| && e.schedules[i].blocks[j].days[k] == b.days[p.day];
    q := Site(i, j, k);
    SameReading(s, e.schedules[i], b, BlockAt(e, q), key);
  }

  lemma SameReading(s: Schedule, t: Schedule, b: Block, c: Block, key: string)
    requires s.(blocks := []) == t.(blocks := []) && b.(days := []) == c.(days := [])
    ensures s.enabled == t.enabled && (s.Applies(key) <==> t.Applies(key))
    ensures b.StartMinute() == c.StartMinute() && Span(b) == Span(c)
    ensures forall start, age :: MakeClaim(s, b, start, age) == MakeClaim(t, c, start, age)
  {
    assert s.targets == t.targets;
    assert b.start == c.start && b.end == c.end;
  }

  lemma CandidateMoves(d: Document, e: Document, key: string, slot: Slot, p: Site) returns (q: Site)
    requires Reordered(d, e) && p in Candidates(d, key, slot)
    ensures q in Candidates(e, key, slot) && Candidates(e, key, slot)[q] == Candidates(d, key, slot)[p]
  {
    q := SiteMoves(d, e, key, slot, p);
  }

  lemma NotBeaten(m: map<Site, Claim>, p: Site, c: Claim)
    requires Best(m, p) && c in m.Values
    ensures !Beats(c, Some(m[p]))
  {
    var q :| q in m && m[q] == c;
    assert q == p || Ranked(m[p], p, m[q], q);
  }

  // Two candidate maps with the same claims have winners that tie.
  lemma WinnersTie(m: map<Site, Claim>, n: map<Site, Claim>, slot: Slot)
    requires m.Values == n.Values && forall p :: p in m ==> Placed(m[p], slot)
    ensures Agree(BestClaim(m), BestClaim(n))
    ensures NoTies(m) ==> BestClaim(m) == BestClaim(n)
  {
    assert forall q :: q in n ==> n[q] in n.Values;
    if m == map[] {
      assert m.Values == {};
      assert n == map[];
    } else {
      var p := BestExists(m);
      assert m[p] in n.Values;
      assert n != map[];
      var q := BestExists(n);
      assert n[q] in m.Values;
      NotBeaten(m, p, n[q]);
      NotBeaten(n, q, m[p]);
      BestClaimIs(m, p);
      BestClaimIs(n, q);
      StartFromAge(m[p], n[q], slot);
    }
  }

  lemma StartFromAge(c: Claim, e: Claim, slot: Slot)
    requires Placed(c, slot) && Placed(e, slot) && c.age == e.age
    ensures c.start == e.start
  {
  }

  /** Every reordering keeps emptiness, priority, age and start of every slot,
      and the whole claim wherever no two candidates tie. */
  lemma OrderIndependent(d: Document, e: Document, key: string, slot: Slot)
    requires Reordered(d, e)
    ensures Agree(Resolved(d, key, slot), Resolved(e, key, slot))
    ensures NoTies(Candidates(d, key, slot)) ==> Resolved(d, key, slot) == Resolved(e, key, slot)
  {
    SameClaims(d, e, key, slot);
    SameClaims(e, d, key, slot);
    WinnersTie(Candidates(d, key, slot), Candidates(e, key, slot), slot);
  }

  lemma SameClaims(d: Document, e: Document, key: string, slot: Slot)
    requires Reordered(d, e)
    ensures Candidates(d, key, slot).Values <= Candidates(e, key, slot).Values
  {
    var m, n := Candidates(d, key, slot), Candidates(e, key, slot);
    forall c | c in m.Values ensures c in n.Values {
      var p :| p in m && m[p] == c;
      var q := CandidateMoves(d, e, key, slot, p);
    }
  }

  // --- permutations are reorderings ---------------------------------------

  lemma PermutedBlocks(s: Schedule, t: Schedule, perm: seq<Block>)
    requires s.(blocks := []) == t.(blocks := [])
    requires multiset(perm) == multiset(t.blocks) && |perm| == |s.blocks|
    requires forall j :: 0 <= j < |perm| ==>
      s.blocks[j].(days := []) == perm[j].(days := []) && multiset(s.blocks[j].days) == multiset(perm[j].days)
    ensures SameSchedule(s, t)
  {
    forall j | 0 <= j < |perm| ensures SameDays(s.blocks[j], perm[j]) && SameDays(perm[j], s.blocks[j]) {
      SameElements(s.blocks[j].days, perm[j].days);
    }
    SameElements(perm, t.blocks);
    forall b | b in s.blocks ensures HasBlock(t, b) {
      var j :| 0 <= j < |s.blocks| && s.blocks[j] == b;
      assert perm[j] in t.blocks;
    }
    forall b | b in t.blocks ensures HasBlock(s, b) {
      assert b in perm;
      var j :| 0 <= j < |perm| && perm[j] == b;
    }
  }

  lemma SameElements<T>(a: seq<T>, b: seq<T>)
    requires multiset(a) == multiset(b)
    ensures forall x :: x in a <==> x in b
  {
    forall x ensures x in a <==> x in b {
      assert x in a <==> x in multiset(a);
      assert x in b <==> x in multiset(b);
    }
  }

  lemma PermutedSchedules(d: Document, e: Document, perm: seq<Schedule>)
    requires multiset(perm) == multiset(e.schedules) && |perm| == |d.schedules|
    requires forall i :: 0 <= i < |perm| ==> SameSchedule(d.schedules[i], perm[i])
    ensures Reordered(d, e)
  {
    SameElements(perm, e.schedules);
    forall s | s in d.schedules ensures HasSchedule(e, s) {
      var i :| 0 <= i < |d.schedules| && d.schedules[i] == s;
      assert perm[i] in e.schedules;
    }
    forall s | s in e.schedules ensures HasSchedule(d, s) {
      assert s in perm;
      var i :| 0 <= i < |perm| && perm[i] == s;
    }
  }
}
