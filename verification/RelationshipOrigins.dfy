/** When a relationship call succeeds, and which call gave every relationship its scope, its consent and its end. */
module RelationshipOrigins {
  import opened Common
  import opened Relationships
  import P = Platform
  import Reachability

  // ---------------------------------------------------------------- one call

  /** A second entry for the same broker, organisation and kind, from the same moment. */
  predicate SameMoment(rows: seq<Relationship>, broker: Id, organisation: Id, kind: RelationshipType, at: Time) {
    exists i | 0 <= i < |rows| ::
      && rows[i].broker == broker && rows[i].organisation == organisation && rows[i].kind == kind
      && rows[i].effectiveFrom == Some(at)
  }

  /** The relationship exists and is this broker's. */
  predicate OwnedBy(rows: seq<Relationship>, id: Id, broker: Id) {
    id < |rows| && rows[id].broker == broker
  }

  /** Each call succeeds by what the table holds of the relationship it names, and a refusal says which part fails. */
  lemma CallsSucceedIff(t: Table, op: RelationshipOp, at: Time)
    ensures match op
            case RequestRelationship(broker, organisation, kind, _) =>
              if SameMoment(t.rows, broker, organisation, kind, at) then Try(t, op, at) == Throw(UniqueViolation) else Try(t, op, at).Ok?
            case InviteBroker(_, _, found, _) => if found == None then Try(t, op, at) == Throw(BrokerNotFound) else Try(t, op, at).Ok?
            case AcceptInvitation(broker, id, _) =>
              if !OwnedBy(t.rows, id, broker) then Try(t, op, at) == Throw(RelationshipNotFound)
              else if t.rows[id].status != PendingAcceptance then Try(t, op, at) == Throw(InvalidRelationshipTransition)
              else if SameMoment(t.rows, broker, t.rows[id].organisation, t.rows[id].kind, at) then Try(t, op, at) == Throw(UniqueViolation)
              else Try(t, op, at).Ok?
            case DeclineInvitation(broker, id) =>
              if !OwnedBy(t.rows, id, broker) then Try(t, op, at) == Throw(RelationshipNotFound)
              else if t.rows[id].status != PendingAcceptance then Try(t, op, at) == Throw(InvalidRelationshipTransition)
              else Try(t, op, at).Ok?
            case RevokeRelationship(broker, id, _) =>
              if !OwnedBy(t.rows, id, broker) then Try(t, op, at) == Throw(RelationshipNotFound)
              else if t.rows[id].status != RelationshipActive then Try(t, op, at) == Throw(InvalidRelationshipTransition)
              else Try(t, op, at).Ok?
            case EndRelationship(_, organisation, id, _) =>
              if id >= |t.rows| || t.rows[id].organisation != organisation then Try(t, op, at) == Throw(RelationshipNotFound)
              else if t.rows[id].status != RelationshipActive then Try(t, op, at) == Throw(InvalidRelationshipTransition)
              else Try(t, op, at).Ok?
  {
  }

  /** The broker itself consents in this call, to this version, as of the call's own time. */
  predicate Consents(rows: seq<Relationship>, op: RelationshipOp, at: Time, i: Id, row: Relationship) {
    && row.consentedAt == Some(at) && row.effectiveFrom == Some(at)
    && match op
       case RequestRelationship(broker, _, _, version) => row.broker == broker && row.consentVersion == Some(version) && i == |rows|
       case AcceptInvitation(broker, id, version) =>
         && row.broker == broker && row.consentVersion == Some(version)
         && i == id && i < |rows| && rows[i].status == PendingAcceptance
       case _ => false
  }

  /** The relationship is declined or revoked by its broker, or ended by its organisation, in this call. */
  predicate Closes(rows: seq<Relationship>, op: RelationshipOp, at: Time, i: Id, row: Relationship) {
    && i < |rows|
    && match op
       case DeclineInvitation(broker, id) =>
         id == i && row.broker == broker && rows[i].status == PendingAcceptance && row.status == Declined
       case RevokeRelationship(broker, id, reason) =>
         && id == i && row.broker == broker && rows[i].status == RelationshipActive && row.status == Revoked
         && row.effectiveTo == Some(at) && row.endReason == reason
       case EndRelationship(_, organisation, id, why) =>
         && id == i && row.organisation == organisation && rows[i].status == RelationshipActive && row.status == Ended
         && row.effectiveTo == Some(at) && row.endReason == Some(why)
       case _ => false
  }

  /** The relationship comes up in this call: asked for by its broker, or offered by an invitation. */
  predicate Opens(rows: seq<Relationship>, op: RelationshipOp, i: Id, row: Relationship) {
    && i == |rows|
    && match op
       case RequestRelationship(broker, organisation, kind, _) => row.broker == broker && row.organisation == organisation && row.kind == kind
       case InviteBroker(_, organisation, found, kind) => found == Some(row.broker) && row.organisation == organisation && row.kind == kind
       case _ => false
  }

  predicate SharedByKind(row: Relationship) {
    && (row.kind == LenderPanel ==> row.scope == LenderFull)
    && (row.kind == AggregatorMembership ==> row.scope == AggregatorFull)
    && (row.kind == AssociationMembership ==> row.scope == AssociationMembershipOnly)
  }

  predicate SameTerms(row: Relationship, was: Relationship) {
    row.broker == was.broker && row.organisation == was.organisation && row.kind == was.kind && row.scope == was.scope
  }

  predicate SameConsent(row: Relationship, was: Relationship) {
    row.consentedAt == was.consentedAt && row.consentVersion == was.consentVersion && row.effectiveFrom == was.effectiveFrom
  }

  /** What a call does to one row of the table, by the row before and after. */
  predicate RowMoves(rows: seq<Relationship>, op: RelationshipOp, at: Time, i: Id, row: Relationship) {
    if i >= |rows| then
      && Opens(rows, op, i, row) && SharedByKind(row) && row.effectiveTo == None && row.endReason == None
      && if op.RequestRelationship? then row.status == RelationshipActive && Consents(rows, op, at, i, row)
         else row.status == PendingAcceptance && row.consentedAt == None && row.consentVersion == None && row.effectiveFrom == None
    else
      && SameTerms(row, rows[i])
      && (|| row == rows[i]
          || (row.status == RelationshipActive && Consents(rows, op, at, i, row)
              && row.effectiveTo == rows[i].effectiveTo && row.endReason == rows[i].endReason)
          || (Closes(rows, op, at, i, row) && SameConsent(row, rows[i])))
  }

  /** The status a successful call leaves its relationship in. */
  function Reached(op: RelationshipOp): RelationshipStatus {
    match op
    case RequestRelationship(_, _, _, _) => RelationshipActive
    case InviteBroker(_, _, _, _) => PendingAcceptance
    case AcceptInvitation(_, _, _) => RelationshipActive
    case DeclineInvitation(_, _) => Declined
    case RevokeRelationship(_, _, _) => Revoked
    case EndRelationship(_, _, _, _) => Ended
  }

  /** The relationship a call is about. */
  function About(rows: seq<Relationship>, op: RelationshipOp): Id {
    if op.RequestRelationship? || op.InviteBroker? then |rows| else op.relationship
  }

  lemma CallMovesRows(t: Table, op: RelationshipOp, at: Time, i: Id)
    requires Try(t, op, at).Ok? && i < |Try(t, op, at).value.table.rows|
    ensures RowMoves(t.rows, op, at, i, Try(t, op, at).value.table.rows[i])
    ensures i == About(t.rows, op) ==> Try(t, op, at).value.table.rows[i].status == Reached(op)
  {
  }

  /** A successful call is on file: its relationship exists, or is added, and nothing is removed. */
  lemma CallIsOnFile(t: Table, op: RelationshipOp, at: Time)
    requires Try(t, op, at).Ok?
    ensures |Try(t, op, at).value.table.rows| == (if op.RequestRelationship? || op.InviteBroker? then |t.rows| + 1 else |t.rows|)
    ensures About(t.rows, op) < |Try(t, op, at).value.table.rows|
  {
  }

  /** The metering event of an activation names the broker, the organisation and the moment. */
  predicate Bills(rows: seq<Relationship>, op: RelationshipOp, at: Time, m: MeteringEvent) {
    && m.occurredAt == at
    && match op
       case RequestRelationship(broker, organisation, _, _) => m.broker == broker && m.organisation == organisation
       case AcceptInvitation(broker, id, _) => m.broker == broker && id < |rows| && m.organisation == rows[id].organisation
       case _ => false
  }

  lemma CallBills(t: Table, op: RelationshipOp, at: Time)
    requires Try(t, op, at).Ok?
    ensures var metering := Try(t, op, at).value.table.metering;
            if op.RequestRelationship? || op.AcceptInvitation? then
              |metering| == |t.metering| + 1 && metering[..|t.metering|] == t.metering
              && Bills(t.rows, op, at, metering[|t.metering|])
            else metering == t.metering
  {
  }

  // ---------------------------------------------------------------- whole runs

  function RowsOf(r: P.Run): seq<Relationship> {
    P.Exec(r).relationships.rows
  }

  predicate WasActive(row: Relationship) {
    row.status == RelationshipActive || row.status == Revoked || row.status == Ended
  }

  predicate Closed(row: Relationship) {
    row.status == Declined || row.status == Revoked || row.status == Ended
  }

  lemma StepMovesRows(r: P.Run, i: Id)
    requires r.Then? && i < |RowsOf(r)|
    ensures || (i < |RowsOf(r.prev)| && RowsOf(r)[i] == RowsOf(r.prev)[i])
            || (r.op.OnRelationship? && RowMoves(RowsOf(r.prev), r.op.relationship, r.at, i, RowsOf(r)[i]))
  {
    var db := P.Exec(r.prev);
    if r.op.OnRelationship? {
      if Try(db.relationships, r.op.relationship, r.at).Ok? {
        CallMovesRows(db.relationships, r.op.relationship, r.at, i);
        hide RowMoves;
      }
    } else {
      Reachability.StepLeavesRelationships(db, r.op, r.at);
    }
  }

  /** Every relationship was asked for or offered in some call of the run, and shares what its kind shares. */
  lemma {:induction false} RelationshipsAreTraced(r: P.Run, i: Id) returns (s: P.Run)
    requires i < |RowsOf(r)|
    ensures P.Extends(r, s) && s.Then? && s.op.OnRelationship? && Opens(RowsOf(s.prev), s.op.relationship, i, RowsOf(r)[i])
    ensures SharedByKind(RowsOf(r)[i])
  {
    StepMovesRows(r, i);
    hide P.Exec;
    if i < |RowsOf(r.prev)| {
      s := RelationshipsAreTraced(r.prev, i);
    } else {
      s := r;
    }
  }

  /** Consent is the broker's own: whatever was ever active, its broker consented to in a call at the time on record. */
  lemma {:induction false} ConsentsAreTraced(r: P.Run, i: Id) returns (s: P.Run)
    requires i < |RowsOf(r)| && WasActive(RowsOf(r)[i])
    ensures P.Extends(r, s) && s.Then? && s.op.OnRelationship?
    ensures Consents(RowsOf(s.prev), s.op.relationship, s.at, i, RowsOf(r)[i])
  {
    StepMovesRows(r, i);
    hide P.Exec;
    if i < |RowsOf(r.prev)| && WasActive(RowsOf(r.prev)[i]) {
      s := ConsentsAreTraced(r.prev, i);
    } else {
      s := r;
    }
  }

  /** A relationship is declined or revoked only by its broker and ended only by its organisation, at the time on record. */
  lemma {:induction false} ClosingsAreTraced(r: P.Run, i: Id) returns (s: P.Run)
    requires i < |RowsOf(r)| && Closed(RowsOf(r)[i])
    ensures P.Extends(r, s) && s.Then? && s.op.OnRelationship?
    ensures Closes(RowsOf(s.prev), s.op.relationship, s.at, i, RowsOf(r)[i])
  {
    StepMovesRows(r, i);
    hide P.Exec;
    if i < |RowsOf(r.prev)| && RowsOf(r)[i] == RowsOf(r.prev)[i] {
      s := ClosingsAreTraced(r.prev, i);
    } else {
      s := r;
    }
  }

  /** Every event billed is the activation of a relationship between the two, at the moment it happened. */
  lemma {:induction false} EventsAreTraced(r: P.Run, k: nat) returns (s: P.Run)
    requires k < |P.Exec(r).relationships.metering|
    ensures P.Extends(r, s) && s.Then? && s.op.OnRelationship? && k == |P.Exec(s.prev).relationships.metering|
    ensures Bills(RowsOf(s.prev), s.op.relationship, s.at, P.Exec(r).relationships.metering[k])
  {
    var db := P.Exec(r.prev);
    if r.op.OnRelationship? && Try(db.relationships, r.op.relationship, r.at).Ok? {
      CallBills(db.relationships, r.op.relationship, r.at);
    } else if !r.op.OnRelationship? {
      Reachability.StepLeavesRelationships(db, r.op, r.at);
    }
    if k < |db.relationships.metering| {
      assert P.Exec(r).relationships.metering[k] == db.relationships.metering[k];
      s := EventsAreTraced(r.prev, k);
    } else {
      s := r;
    }
  }
}
