/**
 The web handlers that create and update a schedule: they edit a copy of the
 document taken earlier and hand it to the engine with the client's revision.
 */
module Handlers {
  import opened Options
  import opened ScheduleModel
  import opened Slugs
  import opened Validation
  import opened Revisions
  import opened Engines

  ghost function IdsOf(schedules: seq<Schedule>): set<string> {
    set i | 0 <= i < |schedules| :: schedules[i].id
  }

  // The blocks are those sent: a nonempty id that no earlier block holds is
  // kept, any other becomes the lowest free one.
  ghost predicate Normalized(sent: seq<Block>, stored: seq<Block>) {
    && |stored| == |sent| && DistinctIds(stored)
    && forall i :: 0 <= i < |sent| ==>
         && stored[i] == sent[i].(id := stored[i].id)
         && if sent[i].id != "" && sent[i].id !in IdsBefore(stored, i) then stored[i].id == sent[i].id
            else FirstFree("b", 1, IdsBefore(stored, i), stored[i].id)
  }

  ghost predicate CreatedFrom(copy: Document, sent: Schedule, created: Schedule) {
    && created == sent.(id := created.id, blocks := created.blocks)
    && created.id !in IdsOf(copy.schedules) && IsSlug(created.id) && created.id != ""
    && Normalized(sent.blocks, created.blocks)
  }

  ghost predicate UpdatedFrom(id: string, sent: Schedule, updated: Schedule) {
    && updated == sent.(id := id, blocks := updated.blocks)
    && Normalized(sent.blocks, updated.blocks)
  }

  // The id is made from the name: its slug, or the first numbered one that is free.
  ghost predicate NamedAfter(prep: string -> string, name: string, taken: set<string>, id: string) {
    var base := if Joined(Words(prep(name))) == "" then "schedule" else Joined(Words(prep(name)));
    if base !in taken then id == base else FirstFree(base + "-", 2, taken, id)
  }

  function RevisionOf(rev: Option<int>): int { if rev.Some? then rev.value else -1 }

  method NormalizeBlocks(sent: seq<Block>) returns (stored: seq<Block>)
    ensures Normalized(sent, stored)
  {
    var blocks := new Block[|sent|](i requires 0 <= i < |sent| => sent[i]);
    NormalizeBlockIDs(blocks);
    stored := blocks[..];
  }

  /** Creating: `copy` is what the handler read from the engine before. */
  method HandleCreate(e: Engine, copy: Document, sent: Schedule, revision: Option<int>, diskOk: bool)
    returns (r: Change, ghost created: Schedule)
    requires e.Ready()
    modifies e`doc
    ensures e.Ready() && e.doc == Installed(old(e.doc), r)
    ensures if Blank(sent.name) then r == Err(Invalid) else
      && CreatedFrom(copy, sent, created) && NamedAfter(e.prep, sent.name, IdsOf(copy.schedules), created.id)
      && r == Replaced(old(e.doc), Edited(copy, Create(0, None, created, diskOk)), RevisionOf(revision), diskOk)
  {
    created := sent;
    if Blank(sent.name) {
      return Err(Invalid), created;
    }
    var taken := set i | 0 <= i < |copy.schedules| :: copy.schedules[i].id;
    var id := UniqueSlug(e.prep, sent.name, taken);
    SlugJoinsWords(e.prep, sent.name);
    var blocks := NormalizeBlocks(sent.blocks);
    var s := sent.(id := id, blocks := blocks);
    created := s;
    r := e.Replace(copy.(schedules := copy.schedules + [s]), RevisionOf(revision), diskOk);
  }

  method HandleUpdate(e: Engine, copy: Document, id: string, sent: Schedule, revision: Option<int>, diskOk: bool)
    returns (r: Change, ghost updated: Schedule)
    requires e.Ready()
    modifies e`doc
    ensures e.Ready() && e.doc == Installed(old(e.doc), r)
    ensures var i := IndexOf(copy.schedules, id);
      if i == |copy.schedules| then r == Err(NotFound) else
      && UpdatedFrom(id, sent, updated)
      && r == Replaced(old(e.doc), Edited(copy, Update(0, None, i, updated, diskOk)), RevisionOf(revision), diskOk)
  {
    updated := sent;
    var i := IndexOf(copy.schedules, id);
    if i == |copy.schedules| {
      return Err(NotFound), updated;
    }
    var blocks := NormalizeBlocks(sent.blocks);
    var s := sent.(id := id, blocks := blocks);
    updated := s;
    r := e.Replace(copy.(schedules := copy.schedules[i := s]), RevisionOf(revision), diskOk);
  }

  // --- the handlers as steps of a history ---------------------------------

  ghost function SeenRevision(h: seq<Document>, observed: Option<nat>): Option<int>
    requires observed.Some? ==> observed.value < |h|
  {
    if observed.Some? then Some(h[observed.value].revision) else None
  }

  /** A create whose copy was read at some point of a history, with a revision
      seen no later than that or none, adds exactly its request to the history. */
  method CreateInHistory(e: Engine, ghost h: seq<Document>, ghost rs: seq<Request>, ghost read: nat, ghost observed: Option<nat>,
                         copy: Document, sent: Schedule, revision: Option<int>, diskOk: bool)
    returns (r: Change, ghost created: Schedule)
    requires e.Ready() && History(h, rs) && e.doc == h[|rs|]
    requires read <= |rs| && copy == h[read] && (observed.Some? ==> observed.value <= read)
    requires revision == SeenRevision(h, observed)
    modifies e`doc
    ensures if Blank(sent.name) then r == Err(Invalid) && e.doc == old(e.doc) else
      var req := Create(read, observed, created, diskOk);
      && CreatedFrom(copy, sent, created) && NamedAfter(e.prep, sent.name, IdsOf(copy.schedules), created.id) && WellTimed(h, |rs|, req)
      && r == ChangeOf(h, |rs|, req) && History(h + [e.doc], rs + [req])
  {
    hide History, CreatedFrom, NamedAfter, Valid;
    HistoryLength(h, rs);
    r, created := HandleCreate(e, copy, sent, revision, diskOk);
    if !Blank(sent.name) {
      HistoryGrows(h, rs, Create(read, observed, created, diskOk));
    }
  }

  method UpdateInHistory(e: Engine, ghost h: seq<Document>, ghost rs: seq<Request>, ghost read: nat, ghost observed: Option<nat>,
                         copy: Document, id: string, sent: Schedule, revision: Option<int>, diskOk: bool)
    returns (r: Change, ghost updated: Schedule)
    requires e.Ready() && History(h, rs) && e.doc == h[|rs|]
    requires read <= |rs| && copy == h[read] && (observed.Some? ==> observed.value <= read)
    requires revision == SeenRevision(h, observed)
    modifies e`doc
    ensures var i := IndexOf(copy.schedules, id);
      if i == |copy.schedules| then r == Err(NotFound) && e.doc == old(e.doc) else
      var req := Update(read, observed, i, updated, diskOk);
      && UpdatedFrom(id, sent, updated) && WellTimed(h, |rs|, req)
      && r == ChangeOf(h, |rs|, req) && History(h + [e.doc], rs + [req])
  {
    hide History, Valid, Normalized;
    HistoryLength(h, rs);
    r, updated := HandleUpdate(e, copy, id, sent, revision, diskOk);
    var i := IndexOf(copy.schedules, id);
    if i < |copy.schedules| {
      HistoryGrows(h, rs, Update(read, observed, i, updated, diskOk));
    }
  }

  // --- edits and validity -------------------------------------------------

  /** An edit of a valid document can be refused as invalid only for the schedule that was sent. */
  lemma CreateValid(copy: Document, sent: Schedule, created: Schedule)
    requires Valid(copy) && CreatedFrom(copy, sent, created)
    ensures Valid(Edited(copy, Create(0, None, created, true))) <==> ValidSchedule(created)
  {
    hide ValidSchedule;
    var all := copy.schedules + [created];
    assert all[|copy.schedules|] == created;
    forall i | 0 <= i < |copy.schedules| ensures copy.schedules[i].id != created.id {
      assert copy.schedules[i].id in IdsOf(copy.schedules);
    }
  }

  lemma UpdateValid(copy: Document, id: string, sent: Schedule, updated: Schedule)
    requires Valid(copy) && UpdatedFrom(id, sent, updated) && IndexOf(copy.schedules, id) < |copy.schedules|
    ensures Valid(Edited(copy, Update(0, None, IndexOf(copy.schedules, id), updated, true))) <==> ValidSchedule(updated)
  {
    hide ValidSchedule;
    var i := IndexOf(copy.schedules, id);
    assert copy.schedules[i := updated][i] == updated;
  }
}
