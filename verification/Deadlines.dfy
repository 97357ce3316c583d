/** Training deadlines: set by the approval from the captured ruleset, and missed only after they pass. */
module Deadlines {
  import opened Common
  import Rules = Rulesets
  import opened RulesetDefinitions
  import opened Platform
  import opened Steps
  import opened Invariants
  import opened Reachability

  /** The definition has an object `training` with a number at `deadlineDays`. */
  predicate StatesDays(definition: Json) {
    && definition.JObject? && "training" in definition.fields
    && var training := definition.fields["training"];
       training.JObject? && "deadlineDays" in training.fields && training.fields["deadlineDays"].JNumber?
  }

  /** The days after approval: what the captured definition states, or sixty. */
  predicate DaysAllowed(rulesets: seq<Rules.RulesetVersion>, version: Option<Id>, days: real) {
    if version.Some? && version.value < |rulesets| && StatesDays(rulesets[version.value].definition) then
      rulesets[version.value].definition.fields["training"].fields["deadlineDays"] == JNumber(days)
    else days == 60.0
  }

  lemma DaysAreAllowed(rulesets: seq<Rules.RulesetVersion>, version: Option<Id>, days: real)
    ensures DaysAllowed(rulesets, version, days) <==> days == DeadlineDaysFor(rulesets, version)
  {
  }

  /** A pending accreditation's deadline is the days of its captured ruleset after its approval. */
  predicate DeadlineSet(rulesets: seq<Rules.RulesetVersion>, a: Accreditation) {
    a.status == Pending ==>
      a.decidedAt.Some? && a.trainingDeadlineAt == Some(a.decidedAt.value + DeadlineDaysFor(rulesets, a.rulesetVersion))
  }

  predicate DeadlinesSet(rulesets: seq<Rules.RulesetVersion>, accreditations: seq<Accreditation>) {
    forall i | 0 <= i < |accreditations| :: DeadlineSet(rulesets, accreditations[i])
  }

  lemma ApproveSetsDeadline(db: Db, ctx: Actor, id: Id, at: Time)
    requires DeadlinesSet(db.rulesets, db.accreditations) && TryApprove(db, ctx, id, at).Ok?
    ensures DeadlinesSet(db.rulesets, TryApprove(db, ctx, id, at).value.db.accreditations)
  {
    hide DeadlineDaysFor;
  }

  /** Every other call that leaves an accreditation pending found it pending, and left its dates alone. */
  lemma OtherCallsKeepDeadlines(db: Db, op: AccreditationOp, at: Time)
    requires DeadlinesSet(db.rulesets, db.accreditations) && !op.Approve? && TryAccreditation(db, op, at).Ok?
    ensures DeadlinesSet(db.rulesets, TryAccreditation(db, op, at).value.db.accreditations)
  {
    hide DeadlineDaysFor;
  }

  lemma AffiliationsKeepDeadlines(db: Db, op: AffiliationOp, at: Time)
    requires DeadlinesSet(db.rulesets, db.accreditations) && TryAffiliation(db, op, at).Ok?
    ensures DeadlinesSet(db.rulesets, TryAffiliation(db, op, at).value.db.accreditations)
  {
    hide DeadlineDaysFor;
  }

  /** New or superseded versions change no captured deadline: definitions never change. */
  lemma RulesetsKeepDeadlines(db: Db, after: seq<Rules.RulesetVersion>)
    requires DeadlinesSet(db.rulesets, db.accreditations) && CapturedWerePublished(db) && Rules.Forward(db.rulesets, after)
    ensures DeadlinesSet(after, db.accreditations)
  {
    hide DeadlineDays;
    forall i | 0 <= i < |db.accreditations| ensures DeadlineSet(after, db.accreditations[i]) {
      assert DeadlineSet(db.rulesets, db.accreditations[i]);
    }
  }

  lemma StepKeepsDeadlines(db: Db, op: Op, at: Time)
    requires DeadlinesSet(db.rulesets, db.accreditations) && CapturedWerePublished(db)
    ensures DeadlinesSet(Perform(db, op, at).rulesets, Perform(db, op, at).accreditations)
  {
    hide DeadlineSet;
    match op {
      case OnAccreditation(a) =>
        if TryAccreditation(db, a, at).Ok? {
          AccreditationsLeaveAffiliations(db, a, at);
          if a.Approve? {
            ApproveSetsDeadline(db, a.ctx, a.id, at);
          } else {
            OtherCallsKeepDeadlines(db, a, at);
          }
        }
      case OnAffiliation(a) =>
        if TryAffiliation(db, a, at).Ok? {
          AffiliationsKeepDeadlines(db, a, at);
          AffiliationsLeaveTables(db, a, at);
        }
      case _ =>
        RulesetsStep(db, op, at);
        RulesetsKeepDeadlines(db, Perform(db, op, at).rulesets);
    }
  }

  lemma {:induction false} DeadlinesHold(r: Run)
    ensures DeadlinesSet(Exec(r).rulesets, Exec(r).accreditations)
  {
    if r.Then? {
      DeadlinesHold(r.prev);
      Reachable(r.prev);
      StepKeepsDeadlines(Exec(r.prev), r.op, r.at);
    }
  }

  /**
   * In every run a pending accreditation is due as many days after its approval as its captured
   * definition states, and sixty when none was captured or it states none.
   */
  lemma PendingIsDueAfterApproval(r: Run, id: Id)
    requires id < |Exec(r).accreditations| && Exec(r).accreditations[id].status == Pending
    ensures var a := Exec(r).accreditations[id];
            && a.decidedAt.Some? && a.trainingDeadlineAt.Some?
            && DaysAllowed(Exec(r).rulesets, a.rulesetVersion, a.trainingDeadlineAt.value - a.decidedAt.value)
  {
    DeadlinesHold(r);
    hide Exec;
    var a := Exec(r).accreditations[id];
    assert DeadlineSet(Exec(r).rulesets, a);
    DaysAreAllowed(Exec(r).rulesets, a.rulesetVersion, a.trainingDeadlineAt.value - a.decidedAt.value);
  }

  /** Only the sweep of its own lender lapses an accreditation, and only once its days have passed. */
  lemma LapsesOnlyPastDeadline(r: Run, id: Id) returns (days: real)
    requires r.Then? && id < |Exec(r.prev).accreditations| && id < |Exec(r).accreditations|
    requires Exec(r.prev).accreditations[id].status != Lapsed && Exec(r).accreditations[id].status == Lapsed
    ensures var a := Exec(r.prev).accreditations[id];
            && a.status == Pending && a.decidedAt.Some?
            && DaysAllowed(Exec(r.prev).rulesets, a.rulesetVersion, days) && a.decidedAt.value + days < r.at
            && r.op.OnAccreditation? && r.op.accreditation.CheckTrainingDeadlines?
            && r.op.accreditation.lender == a.request.lender
  {
    LapseStep(Exec(r.prev), r.op, r.at, id);
    PendingIsDueAfterApproval(r.prev, id);
    var a := Exec(r.prev).accreditations[id];
    days := a.trainingDeadlineAt.value - a.decidedAt.value;
  }

  /** The last call of the run is a sweep of this lender, by one of its client users or by the system. */
  predicate Sweeps(r: Run, lender: Id) {
    && r.Then? && r.op.OnAccreditation? && r.op.accreditation.CheckTrainingDeadlines? && r.op.accreditation.lender == lender
    && (r.op.accreditation.ctx == System || (r.op.accreditation.ctx.ClientUser? && r.op.accreditation.ctx.organisation == lender))
  }

  /** Pending with its days gone by `at`. */
  ghost predicate Missed(rulesets: seq<Rules.RulesetVersion>, a: Accreditation, at: Time) {
    && a.status == Pending && a.decidedAt.Some?
    && exists days :: DaysAllowed(rulesets, a.rulesetVersion, days) && a.decidedAt.value + days < at
  }

  lemma MissedIffPast(rulesets: seq<Rules.RulesetVersion>, a: Accreditation, at: Time)
    requires a.status == Pending && a.decidedAt.Some? && a.trainingDeadlineAt.Some?
    requires DaysAllowed(rulesets, a.rulesetVersion, a.trainingDeadlineAt.value - a.decidedAt.value)
    ensures Missed(rulesets, a, at) <==> a.trainingDeadlineAt.value < at
  {
    forall days ensures DaysAllowed(rulesets, a.rulesetVersion, days) <==> days == a.trainingDeadlineAt.value - a.decidedAt.value {
      DaysAreAllowed(rulesets, a.rulesetVersion, days);
      DaysAreAllowed(rulesets, a.rulesetVersion, a.trainingDeadlineAt.value - a.decidedAt.value);
    }
  }

  /** Such a sweep lapses exactly the lender's pending accreditations whose days have passed, and changes nothing else. */
  lemma SweepLapsesExactly(r: Run, lender: Id, id: Id)
    requires Sweeps(r, lender) && id < |Exec(r.prev).accreditations|
    ensures |Exec(r).accreditations| == |Exec(r.prev).accreditations|
    ensures var a := Exec(r.prev).accreditations[id];
            Exec(r).accreditations[id]
            == if a.request.lender == lender && Missed(Exec(r.prev).rulesets, a, r.at) then a.(status := Lapsed) else a
  {
    hide Perform, DaysAllowed;
    var db, a := Exec(r.prev), Exec(r.prev).accreditations[id];
    SweepLapses(db, r.op.accreditation.ctx, lender, r.at, id);
    if a.status == Pending {
      PendingIsDueAfterApproval(r.prev, id);
      hide Exec;
      MissedIffPast(db.rulesets, a, r.at);
    }
  }

  lemma SweepLapses(db: Db, ctx: Actor, lender: Id, at: Time, id: Id)
    requires ctx == System || (ctx.ClientUser? && ctx.organisation == lender)
    requires id < |db.accreditations|
    ensures var after := Perform(db, OnAccreditation(CheckTrainingDeadlines(ctx, lender)), at).accreditations;
            var a := db.accreditations[id];
            && |after| == |db.accreditations|
            && after[id] == if a.request.lender == lender && a.status == Pending && a.trainingDeadlineAt.Some? && a.trainingDeadlineAt.value < at
                            then a.(status := Lapsed) else a
  {
  }

  lemma AccreditationCallLapses(db: Db, op: AccreditationOp, at: Time, id: Id)
    requires TryAccreditation(db, op, at).Ok?
    requires id < |db.accreditations| && id < |TryAccreditation(db, op, at).value.db.accreditations|
    requires db.accreditations[id].status != Lapsed
    requires TryAccreditation(db, op, at).value.db.accreditations[id].status == Lapsed
    ensures op.CheckTrainingDeadlines? && Overdue(db.accreditations[id], op.ctx, op.lender, at)
  {
    hide DeadlineDaysFor;
  }

  lemma AffiliationCallLapses(db: Db, op: AffiliationOp, at: Time, id: Id)
    requires TryAffiliation(db, op, at).Ok?
    requires id < |db.accreditations| && id < |TryAffiliation(db, op, at).value.db.accreditations|
    ensures TryAffiliation(db, op, at).value.db.accreditations[id].status == Lapsed ==> db.accreditations[id].status == Lapsed
  {
    hide DeadlineDaysFor;
  }

  lemma LapseStep(db: Db, op: Op, at: Time, id: Id)
    requires id < |db.accreditations| && id < |Perform(db, op, at).accreditations|
    requires db.accreditations[id].status != Lapsed && Perform(db, op, at).accreditations[id].status == Lapsed
    ensures op.OnAccreditation? && op.accreditation.CheckTrainingDeadlines?
    ensures Overdue(db.accreditations[id], op.accreditation.ctx, op.accreditation.lender, at)
  {
    hide TryAccreditation, TryAffiliation;
    assert Try(db, op, at).Ok?;
    match op {
      case OnAccreditation(a) => AccreditationCallLapses(db, a, at, id);
      case OnAffiliation(a) => AffiliationCallLapses(db, a, at, id);
      case _ =>
    }
  }

  /** A sweep is refused to brokers and administrators only; another lender's client user sweeps nothing. */
  lemma SweepSucceedsIff(db: Db, ctx: Actor, lender: Id, at: Time)
    ensures match ctx
            case Broker(_) => TryAccreditation(db, CheckTrainingDeadlines(ctx, lender), at) == Throw(InsufficientRole)
            case PlatformAdmin(_) => TryAccreditation(db, CheckTrainingDeadlines(ctx, lender), at) == Throw(InsufficientRole)
            case System => TryAccreditation(db, CheckTrainingDeadlines(ctx, lender), at).Ok?
            case ClientUser(_, organisation) =>
              && TryAccreditation(db, CheckTrainingDeadlines(ctx, lender), at).Ok?
              && (organisation != lender ==>
                    TryAccreditation(db, CheckTrainingDeadlines(ctx, lender), at).value.db.accreditations == db.accreditations)
  {
  }

  /** After a sweep, no accreditation its caller reaches is still pending past its deadline. */
  lemma SweepLeavesNoneOverdue(db: Db, ctx: Actor, lender: Id, at: Time, id: Id)
    requires LenderSide(ctx) && id < |db.accreditations|
    ensures var after := Perform(db, OnAccreditation(CheckTrainingDeadlines(ctx, lender)), at).accreditations;
            && !Overdue(after[id], ctx, lender, at)
            && (after[id] == db.accreditations[id] || Overdue(db.accreditations[id], ctx, lender, at))
  {
  }
}
