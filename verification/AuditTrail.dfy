/** What every row of the audit log stands for: the call it comes from, its caller and its subject. */
module AuditTrail {
  import opened Common
  import opened Audit
  import Rules = Rulesets
  import opened Platform
  import opened Lifecycle

  /** The row is about an accreditation, and the call was this one on it by the row's actor. */
  predicate OnSubject(row: AuditRow, op: Op, call: AccreditationOp) {
    row.subjectType == AccreditationSubject && op == OnAccreditation(call)
  }

  /** The call stands behind the row: it is of the kind the action names, by that actor, about that subject. */
  predicate StandsFor(db: Db, op: Op, row: AuditRow) {
    match row.action
    case AccreditationRequested =>
      && op.OnAccreditation? && op.accreditation.RequestAccreditation? && row.actor == Broker(op.accreditation.request.broker)
      && row.subjectType == AccreditationSubject && row.subject == |db.accreditations|
    case AccreditationInformationRequested => OnSubject(row, op, RequestMoreInformation(row.actor, row.subject))
    case AccreditationEscalated => OnSubject(row, op, Escalate(row.actor, row.subject))
    case AccreditationApproved => OnSubject(row, op, Approve(row.actor, row.subject))
    case AccreditationDeclined => OnSubject(row, op, Decline(row.actor, row.subject))
    case AccreditationActivated => OnSubject(row, op, ActivateAccreditation(row.actor, row.subject))
    case AccreditationInterviewRecorded =>
      && op.OnAccreditation? && op.accreditation.RecordInterviewOutcome?
      && OnSubject(row, op, RecordInterviewOutcome(row.actor, row.subject, op.accreditation.recommendation))
    case AccreditationTrainingConfirmed =>
      && op.OnAccreditation? && op.accreditation.ConfirmTraining?
      && OnSubject(row, op, ConfirmTraining(row.actor, row.subject, op.accreditation.kind, op.accreditation.notes))
    case AccreditationLapsed =>
      && op.OnAccreditation? && op.accreditation.CheckTrainingDeadlines? && row.actor == op.accreditation.ctx
      && row.subjectType == AccreditationSubject && row.subject < |db.accreditations|
      && db.accreditations[row.subject].request.lender == op.accreditation.lender
    case AccreditationPartyChanged =>
      && op.OnAffiliation? && op.affiliation.EndAffiliation? && row.actor == Broker(op.affiliation.broker)
      && row.subjectType == AccreditationSubject && row.subject < |db.accreditations|
      && db.accreditations[row.subject].request.broker == op.affiliation.broker
    case BusinessCreated =>
      && op.OnAffiliation? && op.affiliation.CreateBusiness? && row.actor == Broker(op.affiliation.broker)
      && row.subjectType == BusinessSubject && row.subject == |db.businesses|
    case BusinessStatusChanged =>
      && op.OnAffiliation? && op.affiliation.SetBusinessStatus? && row.actor == System
      && row.subjectType == BusinessSubject && row.subject == op.affiliation.business
    case AffiliationRequested =>
      && op.OnAffiliation? && op.affiliation.RequestAffiliation? && row.actor == Broker(op.affiliation.broker)
      && row.subjectType == AffiliationSubject && row.subject == |db.affiliations|
    case AffiliationConfirmed =>
      && op.OnAffiliation? && op.affiliation.ConfirmAffiliation? && row.actor == Broker(op.affiliation.broker)
      && row.subjectType == AffiliationSubject && row.subject == op.affiliation.affiliation
    case AffiliationEnded =>
      && op.OnAffiliation? && op.affiliation.EndAffiliation? && row.actor == Broker(op.affiliation.broker)
      && row.subjectType == AffiliationSubject && row.subject == op.affiliation.affiliation
    case RelationshipConsented =>
      && op.OnRelationship? && row.subjectType == RelationshipSubject
      && ((op.relationship.RequestRelationship? && row.actor == Broker(op.relationship.broker)
           && row.subject == |db.relationships.rows|)
          || (op.relationship.AcceptInvitation? && row.actor == Broker(op.relationship.broker)
              && row.subject == op.relationship.relationship))
    case RelationshipInvited =>
      && op.OnRelationship? && op.relationship.InviteBroker? && row.actor == op.relationship.ctx
      && row.subjectType == RelationshipSubject && row.subject == |db.relationships.rows|
    case RelationshipDeclined =>
      && op.OnRelationship? && op.relationship.DeclineInvitation? && row.actor == Broker(op.relationship.broker)
      && row.subjectType == RelationshipSubject && row.subject == op.relationship.relationship
    case RelationshipRevoked =>
      && op.OnRelationship? && op.relationship.RevokeRelationship? && row.actor == Broker(op.relationship.broker)
      && row.subjectType == RelationshipSubject && row.subject == op.relationship.relationship
    case RelationshipEnded =>
      && op.OnRelationship? && op.relationship.EndRelationship?
      && row.actor == ClientUser(op.relationship.clientUser, op.relationship.organisation)
      && row.subjectType == RelationshipSubject && row.subject == op.relationship.relationship
    case RulesetCreated =>
      && op.OnRuleset? && op.ruleset.CreateDraft? && row.actor == op.ruleset.ctx
      && row.subjectType == RulesetSubject && row.subject == |db.rulesets|
    case RulesetPublished =>
      op == OnRuleset(Rules.Publish(row.actor, row.subject)) && row.subjectType == RulesetSubject
    case ClientUserRoleChanged =>
      && op.UpdateClientUserRole? && row.actor == op.ctx
      && row.subjectType == ClientUserSubject && row.subject == op.user
  }

  predicate AllStandFor(db: Db, op: Op, rows: seq<AuditRow>) {
    forall k | 0 <= k < |rows| :: StandsFor(db, op, rows[k])
  }

  /** A sweep's rows name the accreditations it hit. */
  lemma {:induction false} SweepNamesHits(hits: seq<bool>, actor: Actor, action: Action, at: Time)
    ensures forall k | 0 <= k < |SweepRows(hits, actor, action, at)| ::
              var row := SweepRows(hits, actor, action, at)[k];
              row.subject < |hits| && hits[row.subject] && row == AuditRow(at, actor, action, AccreditationSubject, row.subject)
  {
    if hits != [] {
      SweepNamesHits(hits[..|hits| - 1], actor, action, at);
    }
  }

  lemma EndRows(db: Db, op: AffiliationOp, at: Time)
    requires op.EndAffiliation? && TryAffiliation(db, op, at).Ok?
    ensures AllStandFor(db, OnAffiliation(op), TryAffiliation(db, op, at).value.rows)
    ensures |TryAffiliation(db, op, at).value.rows| > 0 && TryAffiliation(db, op, at).value.rows[0].action == AffiliationEnded
  {
    SweepNamesHits(FlagHits(db.accreditations, op.broker, db.affiliations[op.affiliation].business), Broker(op.broker),
                   AccreditationPartyChanged, at);
  }

  lemma AffiliationRows(db: Db, op: AffiliationOp, at: Time)
    requires !op.EndAffiliation? && TryAffiliation(db, op, at).Ok?
    ensures AllStandFor(db, OnAffiliation(op), TryAffiliation(db, op, at).value.rows)
    ensures |TryAffiliation(db, op, at).value.rows| == if op.ReadBusinessStatus? then 0 else 1
  {
  }

  lemma LapseRows(db: Db, op: AccreditationOp, at: Time)
    requires op.CheckTrainingDeadlines? && TryAccreditation(db, op, at).Ok?
    ensures AllStandFor(db, OnAccreditation(op), TryAccreditation(db, op, at).value.rows)
  {
    SweepNamesHits(LapseHits(db.accreditations, op.ctx, op.lender, at), op.ctx, AccreditationLapsed, at);
  }

  lemma AccreditationRows(db: Db, op: AccreditationOp, at: Time)
    requires !op.CheckTrainingDeadlines? && TryAccreditation(db, op, at).Ok?
    ensures AllStandFor(db, OnAccreditation(op), TryAccreditation(db, op, at).value.rows)
    ensures |TryAccreditation(db, op, at).value.rows| == if op.ResolveRuleset? then 0 else 1
  {
    hide DeadlineDaysFor;
  }

  lemma OtherRows(db: Db, op: Op, at: Time)
    requires !op.OnAffiliation? && !op.OnAccreditation? && Try(db, op, at).Ok?
    ensures AllStandFor(db, op, Try(db, op, at).value.rows) && |Try(db, op, at).value.rows| == 1
  {
  }

  /** A successful call leaves one row that stands for it, except that a read leaves none and a sweep one for each row it hit. */
  lemma EveryCallIsLogged(db: Db, op: Op, at: Time)
    ensures AllStandFor(db, op, Appended(db, op, at))
    ensures Try(db, op, at).Throw? ==> Appended(db, op, at) == []
    ensures Try(db, op, at).Ok? ==>
              match op
              case OnAffiliation(ReadBusinessStatus(_)) => Appended(db, op, at) == []
              case OnAccreditation(ResolveRuleset(_)) => Appended(db, op, at) == []
              case OnAccreditation(CheckTrainingDeadlines(_, _)) => true
              case OnAffiliation(EndAffiliation(_, _, _)) => Appended(db, op, at) != [] && Appended(db, op, at)[0].action == AffiliationEnded
              case _ => |Appended(db, op, at)| == 1
  {
    hide AllStandFor, TryAccreditation, TryAffiliation;
    if Try(db, op, at).Ok? {
      match op {
        case OnAffiliation(a) =>
          if a.EndAffiliation? {
            EndRows(db, a, at);
          } else {
            AffiliationRows(db, a, at);
          }
        case OnAccreditation(a) =>
          if a.CheckTrainingDeadlines? {
            LapseRows(db, a, at);
          } else {
            AccreditationRows(db, a, at);
          }
        case _ => OtherRows(db, op, at);
      }
    } else {
      NoRowsStandForAll(db, op);
    }
  }

  lemma NoRowsStandForAll(db: Db, op: Op)
    ensures AllStandFor(db, op, [])
  {
  }

  /** Every row of the log stands for one call of the run, made at the row's time by the row's actor. */
  lemma {:induction false} EveryRowIsTraced(r: Run, k: nat) returns (s: Run)
    requires k < |Exec(r).audit|
    ensures Extends(r, s) && s.Then? && Exec(r).audit[k].occurredAt == s.at
    ensures StandsFor(Exec(s.prev), s.op, Exec(r).audit[k])
  {
    var db := Exec(r.prev);
    AuditGrows(db, r.op, r.at);
    AppendedNow(db, r.op, r.at);
    EveryCallIsLogged(db, r.op, r.at);
    hide Perform, Try, Appended, StandsFor;
    if k < |db.audit| {
      s := EveryRowIsTraced(r.prev, k);
    } else {
      s := r;
      assert Exec(r).audit[k] == Appended(db, r.op, r.at)[k - |db.audit|];
    }
  }
}
