/**
 Changes to the stored document: how a replacement, a toggle or a deletion is
 accepted or refused, and what the revision check guarantees when several
 editors interleave.
 */
module Revisions {
  import opened Options
  import opened ScheduleModel
  import opened Validation

  datatype Error = StaleRevision | NotFound | Invalid | StoreFailed

  type Change = Result<Document, Error>

  // Store.Save: fills in the version, refuses an invalid document, and may fail on disk.
  ghost function Saved(next: Document, diskOk: bool): Change {
    var v := if next.version == 0 then next.(version := SCHEMA_VERSION) else next;
    if !Valid(v) then Err(Invalid) else if !diskOk then Err(StoreFailed) else Ok(v)
  }

  ghost function Replaced(cur: Document, doc: Document, expectRev: int, diskOk: bool): Change {
    if expectRev >= 0 && expectRev != cur.revision then Err(StaleRevision)
    else Saved(doc.(version := SCHEMA_VERSION, revision := cur.revision + 1,
                    timezone := if doc.timezone == "" then cur.timezone else doc.timezone), diskOk)
  }

  function IndexOf(schedules: seq<Schedule>, id: string): (i: nat)
    ensures i <= |schedules|
    ensures i < |schedules| ==> schedules[i].id == id
    ensures forall j :: 0 <= j < i ==> schedules[j].id != id
  {
    if schedules == [] || schedules[0].id == id then 0 else 1 + IndexOf(schedules[1..], id)
  }

  ghost function Toggled(cur: Document, id: string, on: bool, diskOk: bool): Change {
    var i := IndexOf(cur.schedules, id);
    if i == |cur.schedules| then Err(NotFound)
    else if cur.schedules[i].enabled == on then Ok(cur)
    else Saved(cur.(schedules := cur.schedules[i := cur.schedules[i].(enabled := on)], revision := cur.revision + 1), diskOk)
  }

  ghost function Deleted(cur: Document, id: string, diskOk: bool): Change {
    var i := IndexOf(cur.schedules, id);
    if i == |cur.schedules| then Err(NotFound)
    else Saved(cur.(schedules := cur.schedules[..i] + cur.schedules[i + 1..], revision := cur.revision + 1), diskOk)
  }

  // A refused change leaves the live document as it is.
  ghost function Installed(cur: Document, c: Change): Document {
    match c
    case Ok(next) => next
    case Err(_) => cur
  }

  // --- interleaved requests -----------------------------------------------

  // `read` says after how many changes the handler copied the document,
  // `observed` at which earlier point its client learned the revision it sends.
  datatype Request =
    | Create(read: nat, observed: Option<nat>, created: Schedule, diskOk: bool)
    | Update(read: nat, observed: Option<nat>, index: nat, updated: Schedule, diskOk: bool)
    | Toggle(id: string, on: bool, diskOk: bool)
    | Delete(id: string, diskOk: bool)

  ghost predicate Edits(r: Request) { r.Create? || r.Update? }

  // The document the handler hands to Replace, made from the copy it read.
  ghost function Edited(copy: Document, r: Request): Document
    requires Edits(r) && (r.Update? ==> r.index < |copy.schedules|)
  {
    match r
    case Create(_, _, s, _) => copy.(schedules := copy.schedules + [s])
    case Update(_, _, i, s, _) => copy.(schedules := copy.schedules[i := s])
  }

  ghost predicate WellTimed(h: seq<Document>, n: nat, r: Request)
    requires n < |h|
  {
    Edits(r) ==>
      && r.read <= n
      && (r.observed.Some? ==> r.observed.value <= r.read)
      && (r.Update? ==> r.index < |h[r.read].schedules| && r.updated.id == h[r.read].schedules[r.index].id)
  }

  ghost function SentRevision(h: seq<Document>, r: Request): int
    requires Edits(r) && (r.observed.Some? ==> r.observed.value < |h|)
  {
    if r.observed.Some? then h[r.observed.value].revision else -1
  }

  ghost function ChangeOf(h: seq<Document>, n: nat, r: Request): Change
    requires n < |h| && WellTimed(h, n, r)
  {
    match r
    case Toggle(id, on, diskOk) => Toggled(h[n], id, on, diskOk)
    case Delete(id, diskOk) => Deleted(h[n], id, diskOk)
    case Create(read, _, _, diskOk) => Replaced(h[n], Edited(h[read], r), SentRevision(h, r), diskOk)
    case Update(read, _, _, _, diskOk) => Replaced(h[n], Edited(h[read], r), SentRevision(h, r), diskOk)
  }

  /** A history: the document after every change request, in the order in
      which the requests took the engine's lock. */
  ghost predicate History(h: seq<Document>, rs: seq<Request>) {
    && |h| == |rs| + 1
    && (forall n :: 0 <= n < |rs| ==> WellTimed(h, n, rs[n]) && h[n + 1] == Installed(h[n], ChangeOf(h, n, rs[n])))
  }

  lemma HistoryGrows(h: seq<Document>, rs: seq<Request>, r: Request)
    requires History(h, rs) && WellTimed(h, |rs|, r)
    ensures var n := |rs|; History(h + [Installed(h[n], ChangeOf(h, n, r))], rs + [r])
  {
    hide Installed, Toggled, Deleted, Replaced;
    var n := |rs|;
    var h', rs' := h + [Installed(h[n], ChangeOf(h, n, r))], rs + [r];
    forall i | 0 <= i < |rs'| ensures WellTimed(h', i, rs'[i]) && h'[i + 1] == Installed(h'[i], ChangeOf(h', i, rs'[i])) {
      if i < n { assert WellTimed(h, i, rs[i]) && h[i + 1] == Installed(h[i], ChangeOf(h, i, rs[i])); }
    }
  }

  /** Every request leaves the document alone or raises its revision by exactly one. */
  lemma RevisionStep(h: seq<Document>, rs: seq<Request>, n: nat)
    requires History(h, rs) && n < |rs|
    ensures h[n + 1] == h[n] || h[n + 1].revision == h[n].revision + 1
  {
    hide Valid;
    assert WellTimed(h, n, rs[n]) && h[n + 1] == Installed(h[n], ChangeOf(h, n, rs[n]));
  }

  /** Equal revisions mean equal documents. */
  lemma {:induction false} RevisionNamesDocument(h: seq<Document>, rs: seq<Request>, m: nat, n: nat)
    requires History(h, rs) && m <= n < |h|
    ensures h[m].revision <= h[n].revision
    ensures h[m].revision == h[n].revision ==> h[m] == h[n]
    decreases n - m
  {
    hide History;
    if m >= n {
    } else {
      RevisionNamesDocument(h, rs, m, n - 1);
      HistoryLength(h, rs);
      RevisionStep(h, rs, n - 1);
    }
  }

  lemma HistoryLength(h: seq<Document>, rs: seq<Request>)
    requires History(h, rs)
    ensures |h| == |rs| + 1
  {
  }

  // What an accepted edit stores: the copy it read with its own schedule added or
  // exchanged. A revision that is sent and not negative must be the live one.
  lemma EditStored(h: seq<Document>, rs: seq<Request>, n: nat)
    requires History(h, rs) && n < |rs| && Edits(rs[n]) && h[n + 1] != h[n]
    ensures WellTimed(h, n, rs[n])
    ensures SentRevision(h, rs[n]) >= 0 ==> SentRevision(h, rs[n]) == h[n].revision
    ensures h[n + 1].revision == h[n].revision + 1
    ensures h[n + 1].schedules == Edited(h[rs[n].read], rs[n]).schedules
  {
    hide Valid;
    assert WellTimed(h, n, rs[n]) && h[n + 1] == Installed(h[n], ChangeOf(h, n, rs[n]));
  }

  // The edit takes effect on the live schedules and touches no other one.
  ghost predicate ChangesOnlyItsOwn(cur: Document, next: Document, r: Request)
    requires Edits(r)
  {
    match r
    case Create(_, _, s, _) => next.schedules == cur.schedules + [s]
    case Update(_, _, i, s, _) =>
      i < |cur.schedules| && s.id == cur.schedules[i].id && next.schedules == cur.schedules[i := s]
  }

  // The two documents agree on everything that the edit does not replace.
  ghost predicate AgreeApart(copy: Document, cur: Document, r: Request)
    requires Edits(r)
  {
    match r
    case Create(_, _, _, _) => copy.schedules == cur.schedules
    case Update(_, _, i, s, _) =>
      && |copy.schedules| == |cur.schedules| && i < |cur.schedules| && s.id == cur.schedules[i].id
      && forall j :: 0 <= j < |cur.schedules| && j != i ==> copy.schedules[j] == cur.schedules[j]
  }

  lemma EditOfCopy(copy: Document, cur: Document, next: Document, r: Request)
    requires Edits(r) && (r.Update? ==> r.index < |copy.schedules|)
    requires next.schedules == Edited(copy, r).schedules
    ensures ChangesOnlyItsOwn(cur, next, r) <==> AgreeApart(copy, cur, r)
  {
    match r
    case Create(_, _, s, _) =>
      assert next.schedules[..|copy.schedules|] == copy.schedules;
      assert ChangesOnlyItsOwn(cur, next, r) ==> |cur.schedules| == |copy.schedules| && next.schedules[..|cur.schedules|] == cur.schedules;
    case Update(_, _, i, s, _) =>
      if ChangesOnlyItsOwn(cur, next, r) {
        forall j | 0 <= j < |cur.schedules| && j != i ensures copy.schedules[j] == cur.schedules[j] {
          assert next.schedules[j] == cur.schedules[j];
        }
      }
  }

  /** An accepted edit, with or without a revision, loses no other change
      exactly when the live document still agrees with the copy it was made
      from on all schedules but its own. An unmoved revision is enough. */
  lemma AcceptedEdit(h: seq<Document>, rs: seq<Request>, n: nat)
    requires History(h, rs) && n < |rs| && Edits(rs[n]) && h[n + 1] != h[n]
    ensures rs[n].read <= n < |h| && h[n + 1].revision == h[n].revision + 1
    ensures ChangesOnlyItsOwn(h[n], h[n + 1], rs[n]) <==> AgreeApart(h[rs[n].read], h[n], rs[n])
    ensures h[rs[n].read].revision == h[n].revision ==> ChangesOnlyItsOwn(h[n], h[n + 1], rs[n])
  {
    var r := rs[n];
    EditStored(h, rs, n);
    HistoryLength(h, rs);
    EditOfCopy(h[r.read], h[n], h[n + 1], r);
    hide History, Edited;
    RevisionNamesDocument(h, rs, r.read, n);
  }

  /** No lost update: a create or update that carries a revision seen before it
      read the document, one that is not negative, succeeds only on exactly the
      document it read, and changes nothing but the schedule it is about. */
  lemma NoLostUpdate(h: seq<Document>, rs: seq<Request>, n: nat)
    requires History(h, rs) && n < |rs| && Edits(rs[n]) && h[n + 1] != h[n]
    requires SentRevision(h, rs[n]) >= 0
    ensures rs[n].read <= n < |h| && h[rs[n].read] == h[n] && h[n + 1].revision == h[n].revision + 1
    ensures ChangesOnlyItsOwn(h[n], h[n + 1], rs[n])
  {
    var r := rs[n];
    EditStored(h, rs, n);
    HistoryLength(h, rs);
    AcceptedEdit(h, rs, n);
    hide History, ChangesOnlyItsOwn;
    RevisionNamesDocument(h, rs, r.observed.value, r.read);
    RevisionNamesDocument(h, rs, r.read, n);
  }

  // --- what each request changes ------------------------------------------

  // What request n would store, were it let through: the edit under the schema's version.
  lemma ChangeMade(h: seq<Document>, rs: seq<Request>, n: nat)
    requires History(h, rs) && n < |rs|
    ensures n + 1 < |h| && WellTimed(h, n, rs[n]) && h[n + 1] == Installed(h[n], ChangeOf(h, n, rs[n]))
  {
  }

  // b is a with the element at i left out.
  ghost predicate LeavesOut(a: seq<Schedule>, b: seq<Schedule>, i: nat) {
    && i < |a| && |b| + 1 == |a|
    && (forall j :: 0 <= j < i ==> b[j] == a[j])
    && (forall j :: i <= j < |b| ==> b[j] == a[j + 1])
  }

  ghost predicate Lists(d: Document, id: string) { exists i :: 0 <= i < |d.schedules| && d.schedules[i].id == id }

  // Everything but the schedules after a change: the next revision, the current version.
  ghost predicate Bumped(a: Document, b: Document) {
    b.revision == a.revision + 1 && b.timezone == a.timezone && b.version == SCHEMA_VERSION
  }

  lemma WithoutOne(a: Document, i: nat, b: Document)
    requires Valid(a) && i < |a.schedules| && LeavesOut(a.schedules, b.schedules, i) && b.version == a.version
    ensures Valid(b) && !Lists(b, a.schedules[i].id)
  {
    hide ValidSchedule;
    forall j | 0 <= j < |b.schedules| ensures ValidSchedule(b.schedules[j]) && b.schedules[j].id != a.schedules[i].id {
      assert b.schedules[j] == a.schedules[j] || b.schedules[j] == a.schedules[j + 1];
    }
  }

  lemma ValidVersion(d: Document)
    requires Valid(d)
    ensures Valid(d.(version := SCHEMA_VERSION)) && (d.version == 0 || d.version == SCHEMA_VERSION)
  {
    hide ValidSchedule;
  }

  /** Deleting takes out the one schedule with the id and keeps all others in
      their order; it changes nothing exactly when there is none or the save fails. */
  lemma DeleteExactly(h: seq<Document>, rs: seq<Request>, n: nat)
    requires History(h, rs) && n < |rs| && rs[n].Delete? && n + 1 < |h| && Valid(h[n])
    ensures h[n + 1] != h[n] <==> Lists(h[n], rs[n].id) && rs[n].diskOk
    ensures h[n + 1] != h[n] ==>
      && !Lists(h[n + 1], rs[n].id) && Bumped(h[n], h[n + 1])
      && exists i: nat :: LeavesOut(h[n].schedules, h[n + 1].schedules, i) && h[n].schedules[i].id == rs[n].id
  {
    ChangeMade(h, rs, n);
    DeletedExactly(h[n], rs[n].id, rs[n].diskOk);
    hide History, Valid, Deleted, Lists;
  }

  lemma DeletedExactly(cur: Document, id: string, diskOk: bool)
    requires Valid(cur)
    ensures var c := Deleted(cur, id, diskOk);
      && (c.Ok? <==> Lists(cur, id) && diskOk)
      && (c == Err(NotFound) <==> !Lists(cur, id)) && (c == Err(StoreFailed) <==> Lists(cur, id) && !diskOk)
      && (c.Ok? ==>
           && !Lists(c.value, id) && Bumped(cur, c.value)
           && exists i: nat :: LeavesOut(cur.schedules, c.value.schedules, i) && cur.schedules[i].id == id)
  {
    var i := IndexOf(cur.schedules, id);
    if i < |cur.schedules| {
      var next := cur.(schedules := cur.schedules[..i] + cur.schedules[i + 1..], revision := cur.revision + 1);
      WithoutOne(cur, i, next);
      ValidVersion(next);
      assert LeavesOut(cur.schedules, next.schedules, i);
      assert Deleted(cur, id, diskOk) == Saved(next, diskOk);
      hide Valid, Deleted, LeavesOut;
    }
  }

  // The schedules with the id are switched, all others stay.
  ghost predicate Switched(a: seq<Schedule>, b: seq<Schedule>, id: string, on: bool) {
    |b| == |a| && forall j :: 0 <= j < |a| ==> b[j] == if a[j].id == id then a[j].(enabled := on) else a[j]
  }

  ghost predicate Stands(d: Document, id: string, on: bool) {
    exists i :: 0 <= i < |d.schedules| && d.schedules[i].id == id && d.schedules[i].enabled == on
  }

  lemma WithSwitch(a: Document, i: nat, on: bool, b: Document)
    requires Valid(a) && i < |a.schedules| && b.version == a.version
    requires b.schedules == a.schedules[i := a.schedules[i].(enabled := on)]
    ensures Valid(b) && Switched(a.schedules, b.schedules, a.schedules[i].id, on)
    ensures forall e :: Stands(a, a.schedules[i].id, e) <==> e == a.schedules[i].enabled
  {
    assert ValidSchedule(a.schedules[i]) && ValidSchedule(b.schedules[i]);
    hide ValidSchedule;
    assert forall e :: e == a.schedules[i].enabled ==> Stands(a, a.schedules[i].id, e);
  }

  /** A toggle sets the switch of the one schedule with the id and leaves all
      others alone; it changes nothing exactly when no schedule with the id is
      on the other side, or the save fails. */
  lemma ToggleExactly(h: seq<Document>, rs: seq<Request>, n: nat)
    requires History(h, rs) && n < |rs| && rs[n].Toggle? && n + 1 < |h| && Valid(h[n])
    ensures h[n + 1] != h[n] <==> Stands(h[n], rs[n].id, !rs[n].on) && rs[n].diskOk
    ensures h[n + 1] != h[n] ==>
      Bumped(h[n], h[n + 1]) && Switched(h[n].schedules, h[n + 1].schedules, rs[n].id, rs[n].on)
  {
    ChangeMade(h, rs, n);
    ToggledExactly(h[n], rs[n].id, rs[n].on, rs[n].diskOk);
    hide History, Valid, Toggled, Stands, Switched;
  }

  lemma ToggledExactly(cur: Document, id: string, on: bool, diskOk: bool)
    requires Valid(cur)
    ensures var c := Toggled(cur, id, on, diskOk);
      && (c == Err(NotFound) <==> !Stands(cur, id, true) && !Stands(cur, id, false))
      && (c == Ok(cur) <==> Stands(cur, id, on))
      && (c == Err(StoreFailed) <==> Stands(cur, id, !on) && !diskOk)
      && (Stands(cur, id, !on) && diskOk ==>
           c.Ok? && Bumped(cur, c.value) && Switched(cur.schedules, c.value.schedules, id, on))
  {
    var i := IndexOf(cur.schedules, id);
    if i < |cur.schedules| {
      var next := cur.(schedules := cur.schedules[i := cur.schedules[i].(enabled := on)], revision := cur.revision + 1);
      WithSwitch(cur, i, on, next);
      ValidVersion(next);
      assert cur.schedules[i].enabled != on ==> Toggled(cur, id, on, diskOk) == Saved(next, diskOk);
      assert cur.schedules[i].enabled == on ==> Toggled(cur, id, on, diskOk) == Ok(cur);
      hide Valid, Toggled, Stands, Switched;
    }
  }

  // The edit was made under a revision that is checked and has moved.
  ghost predicate Stale(h: seq<Document>, n: nat, r: Request)
    requires Edits(r) && n < |h| && (r.observed.Some? ==> r.observed.value < |h|)
  {
    r.observed.Some? && h[r.observed.value].revision >= 0 && h[r.observed.value].revision != h[n].revision
  }

  /** A create or update is accepted exactly when its revision is not stale,
      the edited document is valid, and the save succeeds; then that document
      is stored under the next revision and the current version, in the time
      zone of the copy or, if that names none, the live one. */
  lemma EditExactly(h: seq<Document>, rs: seq<Request>, n: nat)
    requires History(h, rs) && n < |rs| && Edits(rs[n]) && n + 1 < |h| && WellTimed(h, n, rs[n])
    ensures var r := rs[n]; var edited := Edited(h[r.read], r);
      && (h[n + 1] != h[n] <==> !Stale(h, n, r) && Valid(edited.(version := SCHEMA_VERSION)) && r.diskOk)
      && (ChangeOf(h, n, r) == Err(StaleRevision) <==> Stale(h, n, r))
      && (ChangeOf(h, n, r) == Err(Invalid) <==> !Stale(h, n, r) && !Valid(edited.(version := SCHEMA_VERSION)))
      && (h[n + 1] != h[n] ==>
           && h[n + 1].schedules == edited.schedules
           && h[n + 1].revision == h[n].revision + 1 && h[n + 1].version == SCHEMA_VERSION
           && h[n + 1].timezone == if edited.timezone == "" then h[n].timezone else edited.timezone)
  {
    ChangeMade(h, rs, n);
    var r := rs[n];
    var edited := Edited(h[r.read], r);
    SameValidity(edited.(version := SCHEMA_VERSION), edited.(version := SCHEMA_VERSION, revision := h[n].revision + 1,
                        timezone := if edited.timezone == "" then h[n].timezone else edited.timezone));
    hide History, Valid, Edited;
  }

  lemma SameValidity(a: Document, b: Document)
    requires a.schedules == b.schedules && a.version == b.version
    ensures Valid(a) <==> Valid(b)
  {
  }

  /** The live document always validates. */
  lemma {:induction false} AlwaysValid(h: seq<Document>, rs: seq<Request>, n: nat)
    requires History(h, rs) && Valid(h[0]) && n < |h|
    ensures Valid(h[n])
  {
    hide Valid;
    if n == 0 {
    } else {
      AlwaysValid(h, rs, n - 1);
      assert WellTimed(h, n - 1, rs[n - 1]) && h[n] == Installed(h[n - 1], ChangeOf(h, n - 1, rs[n - 1]));
    }
  }

  /** An update that sends no revision, or a negative one it saw, can undo a
      toggle made since its read: neither is checked. */
  lemma UncheckedEditLosesToggle(d: Document, observed: Option<nat>) returns (h: seq<Document>, rs: seq<Request>)
    requires Valid(d) && d.version == SCHEMA_VERSION && d.timezone != "" && d.schedules != [] && !d.schedules[0].enabled
    requires observed == None || (observed == Some(0) && d.revision < 0)
    ensures History(h, rs) && h[0] == d && |rs| == 2 && rs[0] == Toggle(d.schedules[0].id, true, true)
    ensures h[1].schedules[..1] == [d.schedules[0].(enabled := true)]
    ensures rs[1].Update? && rs[1].observed == observed && h[2] != h[1] && h[2].schedules == d.schedules
  {
    var s := d.schedules[0];
    var e := d.(schedules := d.schedules[0 := s.(enabled := true)], revision := d.revision + 1);
    var f := d.(revision := d.revision + 2);
    h := [d, e, f];
    rs := [Toggle(s.id, true, true), Update(0, observed, 0, s, true)];
    assert ValidSchedule(s) && ValidSchedule(s.(enabled := true));
    assert Valid(e) && Valid(f);
    hide Valid;
    assert d.schedules[0 := s] == d.schedules;
    assert Installed(d, ChangeOf(h, 0, rs[0])) == e;
    assert Installed(e, ChangeOf(h, 1, rs[1])) == f;
  }
}
