/**
 A switch point that writes nothing: a block that regains its target after an
 override of higher priority keeps its old start and is only recorded.
 */
module Regain {
  import opened Options
  import opened ScheduleModel
  import opened Slugs
  import opened Validation
  import opened Ring
  import opened Clock
  import opened Signatures
  import opened Evaluation

  const UNIT := "unit"
  const HEAT := Action(POWER_ON, MODE_HEAT, None, None, None, None)
  const OFF := Action(POWER_OFF, "", None, None, None, None)

  // Heating on Monday from 08:00 to 20:00, switched off from 12:00 to 13:00.
  const LONG := Block("b1", "", ["mon"], "08:00", "20:00", HEAT, "")
  const LUNCH := Block("b1", "", ["mon"], "12:00", "13:00", OFF, "")
  const TARGETS := [Target(UNIT, "", "")]
  const BASE := Schedule("base", "base", TYPE_INDOOR, true, 0, TARGETS, [LONG])
  const OVERRIDE := Schedule("override", "override", TYPE_INDOOR, true, 1, TARGETS, [LUNCH])
  const DOC := Document(SCHEMA_VERSION, 1, "UTC", [BASE, OVERRIDE])

  const ONE := 13 * 60 * MINUTE

  lemma BlocksPlaced()
    ensures LONG.StartMinute() == 480 && Span(LONG) == 24
    ensures LUNCH.StartMinute() == 720 && Span(LUNCH) == 2
    ensures ValidTimes(LONG) && ValidTimes(LUNCH)
  {
  }

  lemma BlocksValid()
    ensures ValidBlock(TYPE_INDOOR, LONG) && ValidBlock(TYPE_INDOOR, LUNCH)
  {
    BlocksPlaced();
    hide ValidTimes;
  }

  lemma NamesValid(s: string)
    requires s == "base" || s == "override"
    ensures IsSlug(s) && !Blank(s)
  {
    assert !IsSpace(s[0]);
  }

  lemma DocValid()
    ensures Valid(DOC)
  {
    BlocksValid();
    NamesValid("base");
    NamesValid("override");
    hide ValidBlock, IsSlug, Blank;
    assert ValidSchedule(BASE);
    assert ValidSchedule(OVERRIDE);
  }

  lemma SitesCover(slot: Slot, p: Site)
    ensures Covers(DOC, UNIT, slot, p) <==>
      (p == Site(0, 0, 0) && 16 <= slot < 40) || (p == Site(1, 0, 0) && 24 <= slot < 26)
  {
    BlocksPlaced();
    hide Block.StartMinute, Span;
    assert TARGETS[0].Key() == UNIT;
  }

  // Until one o'clock the override holds the target, then the base again.
  lemma OverrideHolds()
    ensures Resolved(DOC, UNIT, 25) == Some(MakeClaim(OVERRIDE, LUNCH, 24, 1))
  {
    hide Covers, MinuteOf, Block.Duration, Stakes;
    BlocksPlaced();
    forall p { SitesCover(25, p); }
    BestClaimIs(Candidates(DOC, UNIT, 25), Site(1, 0, 0));
  }

  lemma BaseHolds()
    ensures Resolved(DOC, UNIT, 26) == Some(MakeClaim(BASE, LONG, 16, 10))
  {
    hide Covers, MinuteOf, Block.Duration;
    BlocksPlaced();
    forall p { SitesCover(26, p); }
    BestClaimIs(Candidates(DOC, UNIT, 26), Site(0, 0, 0));
  }

  /** At one o'clock the winner changes, its action is not in force, and yet it
      is recorded and not written. */
  lemma RegainIsNotWritten()
    ensures Valid(DOC) && ONE % SLOT == 0
    ensures WinnerKey(DOC, UNIT, ONE - 1) != WinnerKey(DOC, UNIT, ONE)
    ensures ClaimAt(DOC, UNIT, ONE - 1).Some? && ClaimAt(DOC, UNIT, ONE).Some?
    ensures Decide(Some(Signature(ClaimAt(DOC, UNIT, ONE - 1).value.action)), ClaimAt(DOC, UNIT, ONE), ONE, SLOT) == Seed
  {
    DocValid();
    OverrideHolds();
    BaseHolds();
    hide Valid, Resolved;
    assert SlotAt(ONE - 1) == 25 && SlotAt(ONE) == 26;
    BoundaryApplies(DOC, UNIT, Some(Signature(OFF)), ONE, SLOT);
  }
}
