/** What one call can do to each table, whichever call it is. */
module Steps {
  import opened Common
  import Rules = Rulesets
  import opened Platform

  // ---------------------------------------------------------------- accreditations

  /** How one call may change one existing accreditation row. */
  predicate Moves(a: Accreditation, b: Accreditation, at: Time) {
    || b == a.(interview := b.interview)
    || (a.status != Declined && b == a.(status := InformationRequired))
    || (a.status != Declined && b == a.(status := ExceptionEscalated, step := SeniorApproverStep))
    || (Decidable(a) && b.trainingDeadlineAt.Some?
        && b == a.(status := Pending, decidedAt := Some(at), trainingDeadlineAt := b.trainingDeadlineAt))
    || (Decidable(a) && b == a.(status := Declined, decidedAt := Some(at)))
    || (a.status == Pending && b == a.(status := Active, activatedAt := Some(at)))
    || (a.status == Pending && b == a.(status := Lapsed))
    || (a.status != Declined && a.status != PartyChangedPending
        && b == a.(status := PartyChangedPending, partyChangedAt := Some(at)))
  }

  /** What a new accreditation row satisfies in the state it is inserted in. */
  predicate Admissible(db: Db, a: Accreditation) {
    && HasActiveAffiliation(db.affiliations, a.request.broker, a.request.business)
    && !HasLiveAccreditation(db.accreditations, a.request)
    && a == NewAccreditation(a.request, a.relationship, a.rulesetVersion)
    && (exists i | 0 <= i < |db.lookups| :: db.lookups[i] == RulesetRead(KeyOf(a.request), a.rulesetVersion))
  }

  predicate AccreditationsStep(db: Db, after: seq<Accreditation>, at: Time) {
    && |db.accreditations| <= |after| <= |db.accreditations| + 1
    && (forall i | 0 <= i < |db.accreditations| :: Moves(db.accreditations[i], after[i], at))
    && (|after| == |db.accreditations| + 1 ==> Admissible(db, after[|db.accreditations|]))
  }

  lemma ReadWitness(db: Db, i: nat, key: Rules.Key)
    requires i < |db.lookups| && db.lookups[i].RulesetRead? && db.lookups[i].key == key
    ensures exists j | 0 <= j < |db.lookups| :: db.lookups[j] == RulesetRead(key, db.lookups[i].version)
  {
    assert db.lookups[i] == RulesetRead(key, db.lookups[i].version);
  }

  lemma AccreditationCallStep(db: Db, op: AccreditationOp, at: Time)
    ensures TryAccreditation(db, op, at).Ok? ==> AccreditationsStep(db, TryAccreditation(db, op, at).value.db.accreditations, at)
  {
    match op {
      case RequestAccreditation(ctx, request, read) =>
        if TryRequestAccreditation(db, ctx, request, read, at).Ok? {
          ReadWitness(db, read, KeyOf(request));
        }
      case RequestMoreInformation(ctx, id) => assert TryAccreditation(db, op, at) == TryRequestMoreInformation(db, ctx, id, at);
      case Escalate(ctx, id) => assert TryAccreditation(db, op, at) == TryEscalate(db, ctx, id, at);
      case Approve(ctx, id) => assert TryAccreditation(db, op, at) == TryApprove(db, ctx, id, at);
      case Decline(ctx, id) => assert TryAccreditation(db, op, at) == TryDecline(db, ctx, id, at);
      case RecordInterviewOutcome(ctx, id, recommendation) =>
      case ConfirmTraining(ctx, id, kind, notes) =>
      case ActivateAccreditation(ctx, id) =>
      case CheckTrainingDeadlines(ctx, lender) =>
      case ResolveRuleset(key) =>
    }
  }

  lemma AffiliationCallMoves(db: Db, op: AffiliationOp, at: Time)
    ensures TryAffiliation(db, op, at).Ok? ==> AccreditationsStep(db, TryAffiliation(db, op, at).value.db.accreditations, at)
  {
  }

  lemma NothingMoves(db: Db, at: Time)
    ensures AccreditationsStep(db, db.accreditations, at)
  {
  }

  /** No call does anything else to the accreditations table. */
  lemma StepMovesAccreditations(db: Db, op: Op, at: Time)
    ensures AccreditationsStep(db, Perform(db, op, at).accreditations, at)
  {
    hide AccreditationsStep;
    NothingMoves(db, at);
    match op {
      case OnAccreditation(a) => AccreditationCallStep(db, a, at);
      case OnAffiliation(a) => AffiliationCallMoves(db, a, at);
      case _ =>
    }
  }

  // ---------------------------------------------------------------- affiliations

  predicate AffiliationsStep(db: Db, after: Db, at: Time) {
    var n := |db.affiliations|;
    || (after.affiliations == db.affiliations && |after.businesses| == |db.businesses|)
    || (|after.affiliations| == n + 1 && after.affiliations[..n] == db.affiliations
        && (|| Founded(db, after, after.affiliations[n])
            || (|after.businesses| == |db.businesses| && Pended(db, after.affiliations[n]))))
    || (|after.affiliations| == n && |after.businesses| == |db.businesses|
        && exists id | 0 <= id < n ::
             && after.affiliations == db.affiliations[id := after.affiliations[id]]
             && AffiliationMoves(db, db.affiliations[id], after.affiliations[id]))
  }

  predicate Founded(db: Db, after: Db, a: Affiliation) {
    a.business == |db.businesses| && a.status == AffiliationActive && |after.businesses| == |db.businesses| + 1
  }

  predicate Pended(db: Db, a: Affiliation) {
    a.status == PendingConfirmation && !HasLiveAffiliation(db.affiliations, a.broker, a.business)
    && exists i | 0 <= i < |db.lookups| :: db.lookups[i].BusinessStatusRead? && db.lookups[i].business == a.business && db.lookups[i].status.Some?
  }

  /** Confirmed by another active affiliate of the business, or ended by the affiliate itself. */
  predicate AffiliationMoves(db: Db, a: Affiliation, b: Affiliation) {
    && b.broker == a.broker && b.business == a.business
    && (|| (a.status == PendingConfirmation && b.status == AffiliationActive
            && exists j | 0 <= j < |db.affiliations| ::
                 db.affiliations[j].business == a.business && db.affiliations[j].broker != a.broker
                 && db.affiliations[j].status == AffiliationActive)
        || (IsLive(a) && b.status == Ended && b.endedAt.Some?))
  }

  lemma ConfirmStep(db: Db, broker: Id, business: Id, id: Id, at: Time)
    ensures AffiliationsStep(db, Perform(db, OnAffiliation(ConfirmAffiliation(broker, business, id)), at), at)
  {
    var r := TryConfirmAffiliation(db, broker, business, id, at);
    if r.Ok? {
      var j :| 0 <= j < |db.affiliations| && IsPair(db.affiliations[j], broker, business)
               && db.affiliations[j].status == AffiliationActive;
      assert AffiliationMoves(db, db.affiliations[id], r.value.db.affiliations[id]);
    }
  }

  lemma EndStep(db: Db, broker: Id, id: Id, reason: Option<string>, at: Time)
    ensures AffiliationsStep(db, Perform(db, OnAffiliation(EndAffiliation(broker, id, reason)), at), at)
  {
    var r := TryEndAffiliation(db, broker, id, reason, at);
    if r.Ok? {
      assert AffiliationMoves(db, db.affiliations[id], r.value.db.affiliations[id]);
    }
  }

  lemma OtherAffiliationStep(db: Db, op: AffiliationOp, at: Time)
    requires !op.ConfirmAffiliation? && !op.EndAffiliation?
    ensures AffiliationsStep(db, Perform(db, OnAffiliation(op), at), at)
  {
    hide TryAccreditation, TryRelationship, TryRuleset;
  }

  /** No call does anything else to the affiliations table. */
  lemma StepMovesAffiliations(db: Db, op: Op, at: Time)
    ensures AffiliationsStep(db, Perform(db, op, at), at)
  {
    match op {
      case OnAffiliation(ConfirmAffiliation(broker, business, id)) => ConfirmStep(db, broker, business, id, at);
      case OnAffiliation(EndAffiliation(broker, id, reason)) => EndStep(db, broker, id, reason, at);
      case OnAffiliation(a) => OtherAffiliationStep(db, a, at);
      case OnAccreditation(a) => AccreditationsLeaveAffiliations(db, a, at);
      case _ =>
    }
  }

  lemma AccreditationsLeaveAffiliations(db: Db, op: AccreditationOp, at: Time)
    ensures TryAccreditation(db, op, at).Ok? ==>
              var after := TryAccreditation(db, op, at).value.db;
              && after.affiliations == db.affiliations && after.businesses == db.businesses
              && after.relationships == db.relationships && after.rulesets == db.rulesets && after.roles == db.roles
              && |db.lookups| <= |after.lookups| <= |db.lookups| + 1
              && after.lookups[..|db.lookups|] == db.lookups
              && (|after.lookups| == |db.lookups| + 1 ==>
                    op.ResolveRuleset? && after.lookups[|db.lookups|] == RulesetRead(op.key, Rules.Resolve(db.rulesets, op.key)))
  {
  }
}
