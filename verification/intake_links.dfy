// The table that links requirements and feedback to plans, and its backfill from the older column
// linked_plan_id. Two unique indexes decide which rows an INSERT OR IGNORE leaves out.

module IntakeLinks {
  import opened JsText
  import opened SortOrders

  datatype IntakeKind = Requirement | Feedback

  datatype Intake = Intake(id: int, projectId: Option<int>, linkedPlanId: Option<int>, rest: string)

  datatype Link = Link(
    id: int, projectId: int, kind: IntakeKind, intakeId: int, planId: int,
    phaseIndex: int, phaseTitle: string, createdAt: int, updatedAt: int)

  /** Rows in order of insertion and the last identifier handed out. */
  datatype LinkTable = LinkTable(rows: seq<Link>, lastId: int)

  predicate SameIntake(a: Link, b: Link) {
    a.projectId == b.projectId && a.kind == b.kind && a.intakeId == b.intakeId
  }

  /** Equal under one of the unique indexes: the intake and the plan, or the intake and the phase. */
  predicate Clash(a: Link, b: Link) {
    SameIntake(a, b) && (a.planId == b.planId || a.phaseIndex == b.phaseIndex)
  }

  predicate Ignored(rows: seq<Link>, link: Link) {
    exists k | k in rows :: Clash(k, link)
  }

  function InsertOrIgnore(t: LinkTable, link: Link): LinkTable {
    if Ignored(t.rows, link) then t else LinkTable(t.rows + [link.(id := t.lastId + 1)], t.lastId + 1)
  }

  /** The join with plans: the linked plan exists and belongs to the project of the intake. */
  predicate HasPlan(plans: seq<Plan>, row: Intake) {
    && row.projectId.Some? && row.linkedPlanId.Some? && row.linkedPlanId.value > 0
    && exists p | p in plans :: p.id == row.linkedPlanId.value && p.projectId == row.projectId
  }

  /** The row that the select produces for an intake. */
  function FirstPhase(kind: IntakeKind, row: Intake, now: int): Link
    requires row.projectId.Some? && row.linkedPlanId.Some?
  {
    Link(0, row.projectId.value, kind, row.id, row.linkedPlanId.value, 1, "", now, now)
  }

  function LinkRow(t: LinkTable, plans: seq<Plan>, kind: IntakeKind, row: Intake, now: int): LinkTable {
    if HasPlan(plans, row) then InsertOrIgnore(t, FirstPhase(kind, row, now)) else t
  }

  function Linked(t: LinkTable, plans: seq<Plan>, kind: IntakeKind, rows: seq<Intake>, now: int): LinkTable {
    if rows == [] then t
    else LinkRow(Linked(t, plans, kind, rows[..|rows| - 1], now), plans, kind, rows[|rows| - 1], now)
  }

  /** `backfillIntakePlanLinks`: requirements first, then feedback. */
  function Backfill(t: LinkTable, plans: seq<Plan>, requirements: seq<Intake>, feedback: seq<Intake>, now: int): LinkTable {
    Linked(Linked(t, plans, Requirement, requirements, now), plans, Feedback, feedback, now)
  }

  method InsertLinks(t: LinkTable, plans: seq<Plan>, kind: IntakeKind, rows: seq<Intake>, now: int) returns (links: LinkTable)
    ensures links == Linked(t, plans, kind, rows, now)
  {
    links := t;
    for i := 0 to |rows|
      invariant links == Linked(t, plans, kind, rows[..i], now)
    {
      assert rows[..i + 1][..i] == rows[..i];
      if HasPlan(plans, rows[i]) {
        links := InsertOrIgnore(links, FirstPhase(kind, rows[i], now));
      }
    }
    assert rows[..|rows|] == rows;
  }

  /** No two links are equal under either index. */
  ghost predicate Unique(rows: seq<Link>) {
    forall i, j | 0 <= i < j < |rows| :: !Clash(rows[i], rows[j])
  }

  /** Links that exist stay as they are, in front, and both indexes stay unique. */
  lemma {:induction false} LinksOnlyGrow(t: LinkTable, plans: seq<Plan>, kind: IntakeKind, rows: seq<Intake>, now: int)
    ensures t.rows <= Linked(t, plans, kind, rows, now).rows
    ensures Unique(t.rows) ==> Unique(Linked(t, plans, kind, rows, now).rows)
  {
    if rows == [] {
    } else {
      var before := Linked(t, plans, kind, rows[..|rows| - 1], now);
      LinksOnlyGrow(t, plans, kind, rows[..|rows| - 1], now);
      if HasPlan(plans, rows[|rows| - 1]) && Unique(before.rows) {
        InsertKeepsUnique(before, FirstPhase(kind, rows[|rows| - 1], now));
      }
    }
  }

  lemma InsertKeepsUnique(t: LinkTable, link: Link)
    requires Unique(t.rows)
    ensures Unique(InsertOrIgnore(t, link).rows)
  {
    if !Ignored(t.rows, link) {
      forall i | 0 <= i < |t.rows| ensures !Clash(t.rows[i], link) {
        assert t.rows[i] in t.rows;
      }
    }
  }

  /** A new link is the first phase of an intake whose plan exists in the project. */
  lemma {:induction false} NewLinksAreJustified(
      t: LinkTable, plans: seq<Plan>, kind: IntakeKind, rows: seq<Intake>, now: int, link: Link)
    requires link in Linked(t, plans, kind, rows, now).rows
    ensures link in t.rows || exists row | row in rows :: HasPlan(plans, row) && link == FirstPhase(kind, row, now).(id := link.id)
  {
    if rows == [] {
    } else {
      var front, last := rows[..|rows| - 1], rows[|rows| - 1];
      assert rows == front + [last];
      var before := Linked(t, plans, kind, front, now);
      if link in before.rows {
        NewLinksAreJustified(t, plans, kind, front, now, link);
      } else {
        assert HasPlan(plans, last) && link == FirstPhase(kind, last, now).(id := link.id);
      }
    }
  }

  /** What a link of this kind made at this time says of an intake: its plan, which exists in its project, as the first phase. */
  ghost predicate LinksIntake(link: Link, plans: seq<Plan>, kind: IntakeKind, row: Intake, now: int) {
    && row.projectId == Some(link.projectId) && row.id == link.intakeId && row.linkedPlanId == Some(link.planId)
    && link.planId > 0 && (exists p | p in plans :: p.id == link.planId && p.projectId == Some(link.projectId))
    && link.kind == kind && link.phaseIndex == 1 && link.phaseTitle == "" && link.createdAt == link.updatedAt == now
  }

  /** New links are numbered on from the last identifier, and each says what an intake of the rows has in its column. */
  lemma {:induction false} NewLinksExactly(
      t: LinkTable, plans: seq<Plan>, kind: IntakeKind, rows: seq<Intake>, now: int, i: nat)
    requires i < |Linked(t, plans, kind, rows, now).rows| - |t.rows|
    ensures var after := Linked(t, plans, kind, rows, now);
            && after.lastId == t.lastId + |after.rows| - |t.rows|
            && after.rows[|t.rows| + i].id == t.lastId + 1 + i
            && exists row | row in rows :: LinksIntake(after.rows[|t.rows| + i], plans, kind, row, now)
  {
    if rows == [] {
    } else {
      var front, last := rows[..|rows| - 1], rows[|rows| - 1];
      assert rows == front + [last];
      LinksOnlyGrow(t, plans, kind, front, now);
      var before := Linked(t, plans, kind, front, now);
      LastIdCounts(t, plans, kind, front, now);
      LastIdCounts(t, plans, kind, rows, now);
      if i < |before.rows| - |t.rows| {
        NewLinksExactly(t, plans, kind, front, now, i);
        var row :| row in front && LinksIntake(before.rows[|t.rows| + i], plans, kind, row, now);
        assert row in rows;
      } else {
        assert HasPlan(plans, last);
        assert last in rows && LinksIntake(Linked(t, plans, kind, rows, now).rows[|before.rows|], plans, kind, last, now);
      }
    }
  }

  lemma {:induction false} LastIdCounts(t: LinkTable, plans: seq<Plan>, kind: IntakeKind, rows: seq<Intake>, now: int)
    ensures var after := Linked(t, plans, kind, rows, now); after.lastId == t.lastId + |after.rows| - |t.rows|
  {
    if rows == [] {
    } else {
      LastIdCounts(t, plans, kind, rows[..|rows| - 1], now);
    }
  }

  /** The intake is linked with this plan, in whatever phase. */
  predicate LinkedWith(rows: seq<Link>, kind: IntakeKind, project: int, intake: int, plan: int) {
    exists k | k in rows :: k.projectId == project && k.kind == kind && k.intakeId == intake && k.planId == plan
  }

  predicate PhaseTaken(rows: seq<Link>, kind: IntakeKind, project: int, intake: int) {
    exists k | k in rows :: k.projectId == project && k.kind == kind && k.intakeId == intake && k.phaseIndex == 1
  }

  predicate DistinctIntakes(rows: seq<Intake>) {
    forall i, j | 0 <= i < j < |rows| :: rows[i].id != rows[j].id
  }

  /**
   * An intake with a plan ends linked with it exactly if it was, or if no link had its first phase:
   * the backfill gives way to a first phase that leads elsewhere.
   */
  lemma {:induction false} LinkedExactly(t: LinkTable, plans: seq<Plan>, kind: IntakeKind, rows: seq<Intake>, now: int, row: Intake)
    requires row in rows && DistinctIntakes(rows) && HasPlan(plans, row)
    ensures var project, plan := row.projectId.value, row.linkedPlanId.value;
            LinkedWith(Linked(t, plans, kind, rows, now).rows, kind, project, row.id, plan)
            <==> LinkedWith(t.rows, kind, project, row.id, plan) || !PhaseTaken(t.rows, kind, project, row.id)
  {
    var front, last := rows[..|rows| - 1], rows[|rows| - 1];
    assert rows == front + [last];
    var before := Linked(t, plans, kind, front, now);
    if row == last {
      OthersKeepIntake(t, plans, kind, front, now, row);
      LastLinked(before, kind, row, now);
    } else {
      assert DistinctIntakes(front);
      LinkedExactly(t, plans, kind, front, now, row);
      assert last.id != row.id;
    }
  }

  /** Such an intake: its first phase leads to plan 1, and the column names plan 2. */
  lemma TakenPhaseKeepsUnlinked(now: int, created: string)
    ensures var row := Intake(1, Some(1), Some(2), "");
            var plans := [Plan(1, Some(1), created, 1, ""), Plan(2, Some(1), created, 2, "")];
            var t := LinkTable([Link(1, 1, Requirement, 1, 1, 1, "", now, now)], 1);
            HasPlan(plans, row) && Linked(t, plans, Requirement, [row], now) == t
            && !LinkedWith(t.rows, Requirement, 1, 1, 2)
  {
    var row := Intake(1, Some(1), Some(2), "");
    var plans := [Plan(1, Some(1), created, 1, ""), Plan(2, Some(1), created, 2, "")];
    var t := LinkTable([Link(1, 1, Requirement, 1, 1, 1, "", now, now)], 1);
    assert plans[1] in plans && t.rows[0] in t.rows;
    assert Clash(t.rows[0], FirstPhase(Requirement, row, now));
    assert [row][..0] == [];
  }

  /** Inserting for other intakes changes neither the plans nor the phases of this one. */
  lemma {:induction false} OthersKeepIntake(t: LinkTable, plans: seq<Plan>, kind: IntakeKind, rows: seq<Intake>, now: int, row: Intake)
    requires row.projectId.Some? && row.linkedPlanId.Some?
    requires forall r | r in rows :: r.id != row.id
    ensures var project, plan := row.projectId.value, row.linkedPlanId.value;
            var after := Linked(t, plans, kind, rows, now).rows;
            && LinkedWith(after, kind, project, row.id, plan) == LinkedWith(t.rows, kind, project, row.id, plan)
            && PhaseTaken(after, kind, project, row.id) == PhaseTaken(t.rows, kind, project, row.id)
  {
    LinksOnlyGrow(t, plans, kind, rows, now);
    var after := Linked(t, plans, kind, rows, now).rows;
    forall k | k in after ensures k in t.rows || k.intakeId != row.id {
      NewLinksAreJustified(t, plans, kind, rows, now, k);
    }
  }

  lemma LastLinked(t: LinkTable, kind: IntakeKind, row: Intake, now: int)
    requires row.projectId.Some? && row.linkedPlanId.Some?
    ensures var project, plan := row.projectId.value, row.linkedPlanId.value;
            LinkedWith(InsertOrIgnore(t, FirstPhase(kind, row, now)).rows, kind, project, row.id, plan)
            <==> LinkedWith(t.rows, kind, project, row.id, plan) || !PhaseTaken(t.rows, kind, project, row.id)
  {
  }

  /** After the backfill every candidate is ignored, whatever the time. */
  lemma {:induction false} CandidatesAreIgnored(t: LinkTable, plans: seq<Plan>, kind: IntakeKind, rows: seq<Intake>, now: int, row: Intake, later: int)
    requires row in rows && HasPlan(plans, row)
    ensures Ignored(Linked(t, plans, kind, rows, now).rows, FirstPhase(kind, row, later))
  {
    var front, last := rows[..|rows| - 1], rows[|rows| - 1];
    assert rows == front + [last];
    var before, after := Linked(t, plans, kind, front, now), Linked(t, plans, kind, rows, now);
    var link := FirstPhase(kind, row, later);
    if row == last {
      if Ignored(before.rows, FirstPhase(kind, row, now)) {
        var k :| k in before.rows && Clash(k, FirstPhase(kind, row, now));
        assert k in after.rows && Clash(k, link);
      } else {
        assert after.rows[|after.rows| - 1] in after.rows && Clash(after.rows[|after.rows| - 1], link);
      }
    } else {
      CandidatesAreIgnored(t, plans, kind, front, now, row, later);
      var k :| k in before.rows && Clash(k, link);
      assert k in after.rows;
    }
  }

  /** Rows whose candidates are all ignored add nothing. */
  lemma {:induction false} NothingToLink(t: LinkTable, plans: seq<Plan>, kind: IntakeKind, rows: seq<Intake>, now: int)
    requires forall row | row in rows && HasPlan(plans, row) :: Ignored(t.rows, FirstPhase(kind, row, now))
    ensures Linked(t, plans, kind, rows, now) == t
  {
    if rows == [] {
    } else {
      NothingToLink(t, plans, kind, rows[..|rows| - 1], now);
    }
  }

  /** A second backfill at any later time adds no link. */
  lemma BackfillLinksIdempotent(
      t: LinkTable, plans: seq<Plan>, requirements: seq<Intake>, feedback: seq<Intake>, now: int, later: int)
    ensures var once := Backfill(t, plans, requirements, feedback, now);
            Backfill(once, plans, requirements, feedback, later) == once
  {
    var half := Linked(t, plans, Requirement, requirements, now);
    var once := Linked(half, plans, Feedback, feedback, now);
    forall row | row in requirements && HasPlan(plans, row)
      ensures Ignored(once.rows, FirstPhase(Requirement, row, later))
    {
      CandidatesAreIgnored(t, plans, Requirement, requirements, now, row, later);
      LinksOnlyGrow(half, plans, Feedback, feedback, now);
      var k :| k in half.rows && Clash(k, FirstPhase(Requirement, row, later));
      assert k in once.rows;
    }
    NothingToLink(once, plans, Requirement, requirements, later);
    forall row | row in feedback && HasPlan(plans, row)
      ensures Ignored(once.rows, FirstPhase(Feedback, row, later))
    {
      CandidatesAreIgnored(half, plans, Feedback, feedback, now, row, later);
    }
    NothingToLink(once, plans, Feedback, feedback, later);
  }
}
