/** What the other tables of an accreditation say, over whole runs: decisions, training, platform ids. */
module Records {
  import opened Common
  import opened Audit
  import opened Platform
  import opened Steps
  import opened Automaton
  import opened Lifecycle

  // ---------------------------------------------------------------- decisions

  /** The actions that also leave a decision row. */
  predicate IsDecisionRow(row: AuditRow) {
    || row.action == AccreditationInformationRequested || row.action == AccreditationEscalated
    || row.action == AccreditationApproved || row.action == AccreditationDeclined
    || row.action == AccreditationInterviewRecorded
  }

  function AsDecision(row: AuditRow): Decision {
    Decision(row.subject, row.actor, row.action, row.occurredAt)
  }

  function DecisionsIn(rows: seq<AuditRow>): seq<Decision> {
    if rows == [] then []
    else
      var last := rows[|rows| - 1];
      DecisionsIn(rows[..|rows| - 1]) + if IsDecisionRow(last) then [AsDecision(last)] else []
  }

  lemma {:induction false} DecisionsInConcat(a: seq<AuditRow>, b: seq<AuditRow>)
    ensures DecisionsIn(a + b) == DecisionsIn(a) + DecisionsIn(b)
  {
    if b == [] {
      assert a + b == a;
    } else {
      assert (a + b)[..|a + b| - 1] == a + b[..|b| - 1];
      DecisionsInConcat(a, b[..|b| - 1]);
    }
  }

  lemma DecisionsInAppend(rows: seq<AuditRow>, row: AuditRow)
    ensures DecisionsIn(rows + [row]) == DecisionsIn(rows) + if IsDecisionRow(row) then [AsDecision(row)] else []
  {
    assert (rows + [row])[..|rows|] == rows;
  }

  lemma DecisionsInOne(row: AuditRow)
    ensures DecisionsIn([row]) == if IsDecisionRow(row) then [AsDecision(row)] else []
  {
    assert [row][..0] == [];
  }

  lemma {:induction false} SweepsDecideNothing(hits: seq<bool>, actor: Actor, action: Action, at: Time)
    requires action == AccreditationPartyChanged || action == AccreditationLapsed
    ensures DecisionsIn(SweepRows(hits, actor, action, at)) == []
  {
    if hits != [] {
      var n := |hits| - 1;
      var front, hit := hits[..n], hits[n];
      var row := AuditRow(at, actor, action, AccreditationSubject, n);
      SweepsDecideNothing(front, actor, action, at);
      SweepSnoc(front, hit, actor, action, at);
      assert hits == front + [hit];
      if hit {
        DecisionsInAppend(SweepRows(front, actor, action, at), row);
      } else {
        assert SweepRows(front, actor, action, at) + [] == SweepRows(front, actor, action, at);
      }
    }
  }

  lemma EndAffiliationMirrors(db: Db, broker: Id, affiliation: Id, reason: Option<string>, at: Time)
    ensures var r := TryEndAffiliation(db, broker, affiliation, reason, at);
            r.Ok? ==> r.value.db.decisions == db.decisions && DecisionsIn(r.value.rows) == []
  {
    if TryEndAffiliation(db, broker, affiliation, reason, at).Ok? {
      var hits := FlagHits(db.accreditations, broker, db.affiliations[affiliation].business);
      var row := AuditRow(at, Broker(broker), AffiliationEnded, AffiliationSubject, affiliation);
      DecisionsInConcat([row], SweepRows(hits, Broker(broker), AccreditationPartyChanged, at));
      DecisionsInOne(row);
      SweepsDecideNothing(hits, Broker(broker), AccreditationPartyChanged, at);
    }
  }

  lemma AffiliationMirrors(db: Db, op: AffiliationOp, at: Time)
    ensures var r := TryAffiliation(db, op, at);
            r.Ok? ==> r.value.db.decisions == db.decisions && DecisionsIn(r.value.rows) == []
  {
    var r := TryAffiliation(db, op, at);
    if op.EndAffiliation? {
      EndAffiliationMirrors(db, op.broker, op.affiliation, op.reason, at);
    } else if r.Ok? && r.value.rows != [] {
      DecisionsInOne(r.value.rows[0]);
    }
  }

  lemma AccreditationMirrors(db: Db, op: AccreditationOp, at: Time)
    ensures var r := TryAccreditation(db, op, at);
            r.Ok? ==> r.value.db.decisions == db.decisions + DecisionsIn(r.value.rows)
  {
    var r := TryAccreditation(db, op, at);
    if op.CheckTrainingDeadlines? {
      SweepsDecideNothing(LapseHits(db.accreditations, op.ctx, op.lender, at), op.ctx, AccreditationLapsed, at);
    } else if r.Ok? && !op.ResolveRuleset? {
      DecisionsInOne(r.value.rows[0]);
    }
  }

  lemma OtherRowsDecideNothing(db: Db, op: Op, at: Time)
    requires !op.OnAffiliation? && !op.OnAccreditation?
    ensures var r := Try(db, op, at);
            r.Ok? ==> r.value.db.decisions == db.decisions && DecisionsIn(r.value.rows) == []
  {
    var r := Try(db, op, at);
    if r.Ok? {
      DecisionsInOne(r.value.rows[0]);
    }
  }

  /** One call leaves a decision row for exactly its decision audit rows. */
  lemma StepMirrorsDecisions(db: Db, op: Op, at: Time)
    ensures Perform(db, op, at).decisions == db.decisions + DecisionsIn(Appended(db, op, at))
  {
    match op {
      case OnAffiliation(a) => AffiliationMirrors(db, a, at);
      case OnAccreditation(a) => AccreditationMirrors(db, a, at);
      case _ => OtherRowsDecideNothing(db, op, at);
    }
  }

  /** In every run the decisions table is the decision rows of the audit log, in the same order. */
  lemma {:induction false} DecisionsMirrorLog(r: Run)
    ensures Exec(r).decisions == DecisionsIn(Exec(r).audit)
  {
    if r.Then? {
      var db := Exec(r.prev);
      DecisionsMirrorLog(r.prev);
      StepMirrorsDecisions(db, r.op, r.at);
      DecisionsInConcat(db.audit, Appended(db, r.op, r.at));
    }
  }

  // ---------------------------------------------------------------- training and platform ids

  /** Some accreditation of the broker has an activation in its history. */
  predicate EverActivated(r: Run, broker: Id) {
    exists id: Id | id < |Exec(r).accreditations| ::
      Exec(r).accreditations[id].request.broker == broker && EvActivated in History(r, id)
  }

  /** The activation column of some accreditation of the broker is set. */
  predicate HasActivated(accreditations: seq<Accreditation>, broker: Id) {
    exists i | 0 <= i < |accreditations| ::
      accreditations[i].request.broker == broker && accreditations[i].activatedAt.Some?
  }

  /** How one call moves the column, told by the automaton's node before and after. */
  lemma ActivationMoves(a: Accreditation, b: Accreditation, at: Time)
    requires Moves(a, b, at)
    ensures b.activatedAt.Some? <==> a.activatedAt.Some? || (a.status == Pending && b.status == Active)
  {
  }

  /** The event of a call is an activation exactly when it takes the accreditation from pending to active. */
  lemma ActivationEvent(db: Db, op: Op, at: Time, id: Id)
    requires id < |db.accreditations| && id < |Perform(db, op, at).accreditations|
    ensures EvActivated in StepEvents(db, op, at, id)
       <==> db.accreditations[id].status == Pending && Perform(db, op, at).accreditations[id].status == Active
  {
    hide Try, EventsIn;
    StepFollows(db, op, at, id);
  }

  lemma CreationEvents(db: Db, op: Op, at: Time, id: Id)
    requires |db.accreditations| <= id < |Perform(db, op, at).accreditations|
    ensures EvActivated !in StepEvents(db, op, at, id) && Perform(db, op, at).accreditations[id].activatedAt.None?
  {
    StepMovesAccreditations(db, op, at);
    hide Try, EventsIn, Perform;
    StepFollows(db, op, at, id);
  }

  lemma OnlyEmptyIsUnborn(w: seq<Event>)
    requires DeltaStar(w) == Unborn
    ensures w == []
  {
  }

  /** The activation column is set exactly when the log shows an activation. */
  lemma {:induction false} ActivatedAtIsLogged(r: Run, id: Id)
    requires id < |Exec(r).accreditations|
    ensures Exec(r).accreditations[id].activatedAt.Some? <==> EvActivated in History(r, id)
  {
    var db := Exec(r.prev);
    if id < |db.accreditations| {
      ActivatedAtIsLogged(r.prev, id);
      StepMovesAccreditations(db, r.op, r.at);
      assert Moves(db.accreditations[id], Exec(r).accreditations[id], r.at);
      ActivationMoves(db.accreditations[id], Exec(r).accreditations[id], r.at);
      ActivationEvent(db, r.op, r.at, id);
    } else {
      HistoriesAreAccepted(r.prev, id);
      OnlyEmptyIsUnborn(History(r.prev, id));
      CreationEvents(db, r.op, r.at, id);
    }
  }

  /** A call gives a platform id exactly when it activates an accreditation. */
  predicate IdsStep(db: Db, after: Db) {
    || (&& after.platformIds == db.platformIds
        && |db.accreditations| <= |after.accreditations|
        && forall i | 0 <= i < |after.accreditations| ::
             if i < |db.accreditations| then
               after.accreditations[i].request == db.accreditations[i].request
               && after.accreditations[i].activatedAt == db.accreditations[i].activatedAt
             else after.accreditations[i].activatedAt == None)
    || (exists id | 0 <= id < |db.accreditations| ::
          && after.platformIds == EnsurePlatformId(db.platformIds, db.accreditations[id].request.broker)
          && |after.accreditations| == |db.accreditations|
          && after.accreditations == db.accreditations[id := after.accreditations[id]]
          && after.accreditations[id].request == db.accreditations[id].request
          && after.accreditations[id].activatedAt.Some?)
  }

  predicate ConfirmationsKept(db: Db, after: Db) {
    forall key | key in db.confirmations :: key in after.confirmations && after.confirmations[key] == db.confirmations[key]
  }

  lemma ActivateStep(db: Db, ctx: Actor, id: Id, at: Time)
    ensures var r := TryActivate(db, ctx, id, at);
            r.Ok? ==> IdsStep(db, r.value.db) && ConfirmationsKept(db, r.value.db)
  {
    var r := TryActivate(db, ctx, id, at);
    if r.Ok? {
      assert r.value.db.accreditations[id].activatedAt == Some(at);
    }
  }

  lemma SameTables(db: Db, after: Db)
    requires after.accreditations == db.accreditations && after.platformIds == db.platformIds
    requires after.confirmations == db.confirmations
    ensures IdsStep(db, after) && ConfirmationsKept(db, after)
  {
  }

  /** A thrown call changes nothing, and a call's audit rows are no part of these tables. */
  lemma CallGivesIds(db: Db, op: Op, at: Time)
    requires var r := Try(db, op, at); r.Ok? ==> IdsStep(db, r.value.db) && ConfirmationsKept(db, r.value.db)
    ensures IdsStep(db, Perform(db, op, at)) && ConfirmationsKept(db, Perform(db, op, at))
  {
    var r := Try(db, op, at);
    if r.Ok? {
      IgnoresAudit(db, r.value.db, r.value.db.(audit := db.audit + r.value.rows));
    } else {
      SameTables(db, db);
    }
  }

  lemma IgnoresAudit(db: Db, after: Db, after': Db)
    requires IdsStep(db, after) && ConfirmationsKept(db, after)
    requires after' == after.(audit := after'.audit)
    ensures IdsStep(db, after') && ConfirmationsKept(db, after')
  {
  }

  lemma StepGivesIds(db: Db, op: Op, at: Time)
    ensures IdsStep(db, Perform(db, op, at)) && ConfirmationsKept(db, Perform(db, op, at))
  {
    match op {
      case OnAccreditation(ActivateAccreditation(ctx, id)) =>
        ActivateStep(db, ctx, id, at);
        CallGivesIds(db, op, at);
      case OnAccreditation(a) =>
        OtherAccreditationCallsGiveNone(db, a, at);
        CallGivesIds(db, op, at);
      case OnAffiliation(a) =>
        AffiliationsGiveNone(db, a, at);
        CallGivesIds(db, op, at);
      case _ => SameTables(db, Perform(db, op, at));
    }
  }

  lemma AffiliationsGiveNone(db: Db, op: AffiliationOp, at: Time)
    ensures var r := TryAffiliation(db, op, at);
            r.Ok? ==> IdsStep(db, r.value.db) && ConfirmationsKept(db, r.value.db)
  {
  }

  lemma OtherAccreditationCallsGiveNone(db: Db, op: AccreditationOp, at: Time)
    requires !op.ActivateAccreditation?
    ensures var r := TryAccreditation(db, op, at);
            r.Ok? ==> IdsStep(db, r.value.db) && ConfirmationsKept(db, r.value.db)
  {
    match op {
      case RequestMoreInformation(ctx, id) => assert TryAccreditation(db, op, at) == TryRequestMoreInformation(db, ctx, id, at);
      case Escalate(ctx, id) => assert TryAccreditation(db, op, at) == TryEscalate(db, ctx, id, at);
      case Approve(ctx, id) => assert TryAccreditation(db, op, at) == TryApprove(db, ctx, id, at);
      case Decline(ctx, id) => assert TryAccreditation(db, op, at) == TryDecline(db, ctx, id, at);
      case _ =>
    }
  }

  /** The table's own law: who holds an id is who was ever activated, and ids already given stay. */
  lemma IdsStepKeeps(db: Db, after: Db, broker: Id)
    requires IdsStep(db, after)
    requires broker in db.platformIds <==> HasActivated(db.accreditations, broker)
    ensures broker in after.platformIds <==> HasActivated(after.accreditations, broker)
  {
    if HasActivated(db.accreditations, broker) {
      var i :| 0 <= i < |db.accreditations|
               && db.accreditations[i].request.broker == broker && db.accreditations[i].activatedAt.Some?;
      assert after.accreditations[i].request.broker == broker && after.accreditations[i].activatedAt.Some?;
    }
    if HasActivated(after.accreditations, broker) && !HasActivated(db.accreditations, broker) {
      var i :| 0 <= i < |after.accreditations|
               && after.accreditations[i].request.broker == broker && after.accreditations[i].activatedAt.Some?;
      assert i >= |db.accreditations| || db.accreditations[i] != after.accreditations[i];
    }
  }

  lemma {:induction false} PlatformIdMeansColumn(r: Run, broker: Id)
    ensures broker in Exec(r).platformIds <==> HasActivated(Exec(r).accreditations, broker)
  {
    if r.Then? {
      PlatformIdMeansColumn(r.prev, broker);
      StepGivesIds(Exec(r.prev), r.op, r.at);
      IdsStepKeeps(Exec(r.prev), Exec(r), broker);
    }
  }

  /** A broker holds a platform id exactly when the log shows an activation of some accreditation of theirs. */
  lemma PlatformIdMeansActivated(r: Run, broker: Id)
    ensures broker in Exec(r).platformIds <==> EverActivated(r, broker)
  {
    PlatformIdMeansColumn(r, broker);
    hide Exec, History;
    forall id: Id | id < |Exec(r).accreditations|
      ensures Exec(r).accreditations[id].activatedAt.Some? <==> EvActivated in History(r, id)
    {
      ActivatedAtIsLogged(r, id);
    }
  }

  /** Once given, a platform id is never given again; once confirmed, a training kind stays as first confirmed. */
  lemma {:induction false} FirstValuesAreKept(later: Run, r: Run)
    requires Extends(later, r)
    ensures forall broker | broker in Exec(r).platformIds ::
              broker in Exec(later).platformIds && Exec(later).platformIds[broker] == Exec(r).platformIds[broker]
    ensures ConfirmationsKept(Exec(r), Exec(later))
  {
    if later != r {
      FirstValuesAreKept(later.prev, r);
      StepGivesIds(Exec(later.prev), later.op, later.at);
    }
  }

  /** The ids given are numbered from zero in the order they were given. */
  predicate Numbered(ids: map<Id, Id>) {
    forall b, c | b in ids && c in ids :: ids[b] < |ids| && (ids[b] == ids[c] ==> b == c)
  }

  lemma EnsureKeepsNumbered(ids: map<Id, Id>, broker: Id)
    requires Numbered(ids)
    ensures Numbered(EnsurePlatformId(ids, broker))
  {
  }

  lemma {:induction false} IdsAreNumbered(r: Run)
    ensures Numbered(Exec(r).platformIds)
  {
    if r.Then? {
      IdsAreNumbered(r.prev);
      StepGivesIds(Exec(r.prev), r.op, r.at);
      hide Perform;
      var db, after := Exec(r.prev), Exec(r);
      if after.platformIds != db.platformIds {
        var id :| 0 <= id < |db.accreditations|
                  && after.platformIds == EnsurePlatformId(db.platformIds, db.accreditations[id].request.broker);
        EnsureKeepsNumbered(db.platformIds, db.accreditations[id].request.broker);
      }
    }
  }

  /** No two brokers ever hold the same platform id, not even at different times. */
  lemma PlatformIdsAreUnique(later: Run, r: Run, broker: Id, other: Id)
    requires Extends(later, r) && broker in Exec(r).platformIds && other in Exec(later).platformIds
    requires Exec(r).platformIds[broker] == Exec(later).platformIds[other]
    ensures broker == other
  {
    FirstValuesAreKept(later, r);
    IdsAreNumbered(later);
  }
}
