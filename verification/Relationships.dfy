/** Broker-client relationships, and the metering events their activation emits. */
module Relationships {
  import opened Common
  import opened Audit

  datatype RelationshipType = LenderPanel | AggregatorMembership | AssociationMembership

  datatype RelationshipStatus =
    | PendingAcceptance
    | RelationshipActive
    | Declined
    | Revoked
    | Ended

  datatype SharedDataScope = LenderFull | AggregatorFull | AssociationMembershipOnly

  datatype Relationship = Relationship(
    broker: Id,
    organisation: Id,
    kind: RelationshipType,
    status: RelationshipStatus,
    scope: SharedDataScope,
    consentedAt: Option<Time>,
    consentVersion: Option<string>,
    effectiveFrom: Option<Time>,
    effectiveTo: Option<Time>,
    endReason: Option<string>)

  /** A `broker_linked` metering event. */
  datatype MeteringEvent = BrokerLinked(organisation: Id, broker: Id, occurredAt: Time)

  datatype Table = Table(rows: seq<Relationship>, metering: seq<MeteringEvent>)

  datatype RelationshipOp =
    | RequestRelationship(broker: Id, organisation: Id, kind: RelationshipType, consentVersion: string)
    | InviteBroker(ctx: Actor, organisation: Id, found: Option<Id>, kind: RelationshipType)
    | AcceptInvitation(broker: Id, relationship: Id, consentVersion: string)
    | DeclineInvitation(broker: Id, relationship: Id)
    | RevokeRelationship(broker: Id, relationship: Id, reason: Option<string>)
    | EndRelationship(clientUser: Id, organisation: Id, relationship: Id, why: string)

  datatype Effect = Effect(table: Table, row: AuditRow)

  function ScopeFor(kind: RelationshipType): SharedDataScope {
    match kind
    case LenderPanel => LenderFull
    case AggregatorMembership => AggregatorFull
    case AssociationMembership => AssociationMembershipOnly
  }

  /** The unique index on (broker, organisation, type, effective_from) already holds this entry. */
  predicate Collides(rows: seq<Relationship>, broker: Id, organisation: Id, kind: RelationshipType, at: Time) {
    exists i | 0 <= i < |rows| ::
      rows[i].broker == broker && rows[i].organisation == organisation && rows[i].kind == kind
      && rows[i].effectiveFrom == Some(at)
  }

  function Log(actor: Actor, action: Action, id: Id, at: Time): AuditRow {
    AuditRow(at, actor, action, RelationshipSubject, id)
  }

  /** One repository call, as one serial transaction at time `at`; a throw changes nothing. */
  function Try(t: Table, op: RelationshipOp, at: Time): Result<Effect, Error> {
    match op
    case RequestRelationship(broker, organisation, kind, version) =>
      if Collides(t.rows, broker, organisation, kind, at) then Throw(UniqueViolation)
      else
        var row := Relationship(broker, organisation, kind, RelationshipActive, ScopeFor(kind),
                                Some(at), Some(version), Some(at), None, None);
        Ok(Effect(Table(t.rows + [row], t.metering + [BrokerLinked(organisation, broker, at)]),
                  Log(Broker(broker), RelationshipConsented, |t.rows|, at)))
    case InviteBroker(ctx, organisation, found, kind) =>
      if found.None? then Throw(BrokerNotFound)
      else
        var row := Relationship(found.value, organisation, kind, PendingAcceptance, ScopeFor(kind),
                                None, None, None, None, None);
        Ok(Effect(t.(rows := t.rows + [row]), Log(ctx, RelationshipInvited, |t.rows|, at)))
    case AcceptInvitation(broker, id, version) =>
      if id >= |t.rows| || t.rows[id].broker != broker then Throw(RelationshipNotFound)
      else if t.rows[id].status != PendingAcceptance then Throw(InvalidRelationshipTransition)
      else if Collides(t.rows, broker, t.rows[id].organisation, t.rows[id].kind, at) then Throw(UniqueViolation)
      else
        var row := t.rows[id].(status := RelationshipActive, consentedAt := Some(at),
                               consentVersion := Some(version), effectiveFrom := Some(at));
        Ok(Effect(Table(t.rows[id := row], t.metering + [BrokerLinked(row.organisation, broker, at)]),
                  Log(Broker(broker), RelationshipConsented, id, at)))
    case DeclineInvitation(broker, id) =>
      if id >= |t.rows| || t.rows[id].broker != broker then Throw(RelationshipNotFound)
      else if t.rows[id].status != PendingAcceptance then Throw(InvalidRelationshipTransition)
      else
        Ok(Effect(t.(rows := t.rows[id := t.rows[id].(status := Declined)]),
                  Log(Broker(broker), RelationshipDeclined, id, at)))
    case RevokeRelationship(broker, id, reason) =>
      if id >= |t.rows| || t.rows[id].broker != broker then Throw(RelationshipNotFound)
      else if t.rows[id].status != RelationshipActive then Throw(InvalidRelationshipTransition)
      else
        var row := t.rows[id].(status := Revoked, effectiveTo := Some(at), endReason := reason);
        Ok(Effect(t.(rows := t.rows[id := row]), Log(Broker(broker), RelationshipRevoked, id, at)))
    case EndRelationship(clientUser, organisation, id, reason) =>
      if id >= |t.rows| || t.rows[id].organisation != organisation then Throw(RelationshipNotFound)
      else if t.rows[id].status != RelationshipActive then Throw(InvalidRelationshipTransition)
      else
        var row := t.rows[id].(status := Ended, effectiveTo := Some(at), endReason := Some(reason));
        Ok(Effect(t.(rows := t.rows[id := row]),
                  Log(ClientUser(clientUser, organisation), RelationshipEnded, id, at)))
  }

  // ---------------------------------------------------------------- accounting

  /** The statuses of a relationship that was active: active now, or active until revoked or ended. */
  predicate EverActive(r: Relationship) {
    r.status == RelationshipActive || r.status == Revoked || r.status == Ended
  }

  predicate Terminal(r: Relationship) {
    r.status == Declined || r.status == Revoked || r.status == Ended
  }

  function CountEverActive(rows: seq<Relationship>, organisation: Id, broker: Id): nat {
    if rows == [] then 0
    else
      CountEverActive(rows[..|rows| - 1], organisation, broker)
      + var r := rows[|rows| - 1];
        if r.organisation == organisation && r.broker == broker && EverActive(r) then 1 else 0
  }

  function CountLinked(metering: seq<MeteringEvent>, organisation: Id, broker: Id): nat {
    if metering == [] then 0
    else
      CountLinked(metering[..|metering| - 1], organisation, broker)
      + var m := metering[|metering| - 1];
        if m.organisation == organisation && m.broker == broker then 1 else 0
  }

  /** Consent and the effective dates say exactly what the status says. */
  predicate Coherent(r: Relationship) {
    && (r.consentedAt.Some? <==> EverActive(r))
    && (r.consentVersion.Some? <==> EverActive(r))
    && (r.effectiveFrom.Some? <==> EverActive(r))
    && (r.effectiveTo.Some? <==> r.status == Revoked || r.status == Ended)
    && r.scope == ScopeFor(r.kind)
  }

  ghost predicate Inv(t: Table) {
    && (forall i | 0 <= i < |t.rows| :: Coherent(t.rows[i]))
    && (forall organisation, broker ::
          CountLinked(t.metering, organisation, broker) == CountEverActive(t.rows, organisation, broker))
  }

  /** Replacing one row moves the count by what that row contributed before and contributes now. */
  lemma {:induction false} CountAfterUpdate(rows: seq<Relationship>, i: nat, row: Relationship, organisation: Id, broker: Id)
    requires i < |rows|
    requires row.organisation == rows[i].organisation && row.broker == rows[i].broker
    ensures CountEverActive(rows[i := row], organisation, broker)
         == CountEverActive(rows, organisation, broker)
            + (if row.organisation == organisation && row.broker == broker && EverActive(row) then 1 else 0)
            - (if row.organisation == organisation && row.broker == broker && EverActive(rows[i]) then 1 else 0)
  {
    var last := |rows| - 1;
    if i == last {
      assert rows[i := row][..last] == rows[..last];
    } else {
      assert rows[i := row][..last] == rows[..last][i := row];
      CountAfterUpdate(rows[..last], i, row, organisation, broker);
    }
  }

  lemma CountAfterAppend(t: Table, row: Relationship, organisation: Id, broker: Id)
    ensures CountEverActive(t.rows + [row], organisation, broker)
         == CountEverActive(t.rows, organisation, broker)
            + (if row.organisation == organisation && row.broker == broker && EverActive(row) then 1 else 0)
  {
    assert (t.rows + [row])[..|t.rows|] == t.rows;
  }

  lemma LinkedAfterAppend(metering: seq<MeteringEvent>, m: MeteringEvent, organisation: Id, broker: Id)
    ensures CountLinked(metering + [m], organisation, broker)
         == CountLinked(metering, organisation, broker)
            + (if m.organisation == organisation && m.broker == broker then 1 else 0)
  {
    assert (metering + [m])[..|metering|] == metering;
  }

  lemma BillingAfterAppend(t: Table, t': Table, organisation: Id, broker: Id)
    requires Inv(t) && |t'.rows| == |t.rows| + 1 && t'.rows == t.rows + [t'.rows[|t.rows|]]
    requires var row := t'.rows[|t.rows|];
             if EverActive(row) then
               |t'.metering| == |t.metering| + 1 && t'.metering == t.metering + [t'.metering[|t.metering|]]
               && t'.metering[|t.metering|].organisation == row.organisation && t'.metering[|t.metering|].broker == row.broker
             else t'.metering == t.metering
    ensures CountLinked(t'.metering, organisation, broker) == CountEverActive(t'.rows, organisation, broker)
  {
    var row := t'.rows[|t.rows|];
    CountAfterAppend(t, row, organisation, broker);
    if EverActive(row) {
      LinkedAfterAppend(t.metering, t'.metering[|t.metering|], organisation, broker);
    }
    assert CountLinked(t.metering, organisation, broker) == CountEverActive(t.rows, organisation, broker);
  }

  lemma BillingAfterUpdate(t: Table, t': Table, id: Id, organisation: Id, broker: Id)
    requires Inv(t) && id < |t.rows| == |t'.rows| && t'.rows == t.rows[id := t'.rows[id]]
    requires t'.rows[id].organisation == t.rows[id].organisation && t'.rows[id].broker == t.rows[id].broker
    requires EverActive(t.rows[id]) ==> EverActive(t'.rows[id])
    requires if EverActive(t'.rows[id]) && !EverActive(t.rows[id]) then
               |t'.metering| == |t.metering| + 1 && t'.metering == t.metering + [t'.metering[|t.metering|]]
               && t'.metering[|t.metering|].organisation == t.rows[id].organisation
               && t'.metering[|t.metering|].broker == t.rows[id].broker
             else t'.metering == t.metering
    ensures CountLinked(t'.metering, organisation, broker) == CountEverActive(t'.rows, organisation, broker)
  {
    CountAfterUpdate(t.rows, id, t'.rows[id], organisation, broker);
    if EverActive(t'.rows[id]) && !EverActive(t.rows[id]) {
      LinkedAfterAppend(t.metering, t'.metering[|t.metering|], organisation, broker);
    }
    assert CountLinked(t.metering, organisation, broker) == CountEverActive(t.rows, organisation, broker);
  }

  /** Billing is conserved by every call: one `broker_linked` event per activation, none otherwise. */
  lemma StepKeepsBilling(t: Table, op: RelationshipOp, at: Time, organisation: Id, broker: Id)
    requires Inv(t) && Try(t, op, at).Ok?
    ensures var t' := Try(t, op, at).value.table;
            CountLinked(t'.metering, organisation, broker) == CountEverActive(t'.rows, organisation, broker)
  {
    var t' := Try(t, op, at).value.table;
    if op.RequestRelationship? || op.InviteBroker? {
      BillingAfterAppend(t, t', organisation, broker);
    } else {
      BillingAfterUpdate(t, t', op.relationship, organisation, broker);
    }
  }

  lemma StepKeepsInv(t: Table, op: RelationshipOp, at: Time)
    requires Inv(t)
    ensures Try(t, op, at).Ok? ==> Inv(Try(t, op, at).value.table)
  {
    if Try(t, op, at).Ok? {
      var t' := Try(t, op, at).value.table;
      forall organisation, broker
        ensures CountLinked(t'.metering, organisation, broker) == CountEverActive(t'.rows, organisation, broker)
      {
        StepKeepsBilling(t, op, at, organisation, broker);
      }
    }
  }

  /** Rows are only added; a declined, revoked or ended relationship never changes in any column. */
  lemma StepKeepsTerminalRows(t: Table, op: RelationshipOp, at: Time)
    ensures Try(t, op, at).Ok? ==>
              var rows' := Try(t, op, at).value.table.rows;
              && |t.rows| <= |rows'|
              && (forall i | 0 <= i < |t.rows| ::
                    && rows'[i].broker == t.rows[i].broker && rows'[i].organisation == t.rows[i].organisation
                    && (Terminal(t.rows[i]) ==> rows'[i] == t.rows[i])
                    && (EverActive(t.rows[i]) ==> EverActive(rows'[i]) && rows'[i].consentedAt == t.rows[i].consentedAt))
  {
  }

  /** Only an active relationship is revoked or ended, and a new one is pending or active. */
  lemma EndsOnlyActive(t: Table, op: RelationshipOp, at: Time)
    ensures Try(t, op, at).Ok? ==>
              var rows' := Try(t, op, at).value.table.rows;
              forall i | 0 <= i < |rows'| && EverActive(rows'[i]) && rows'[i].status != RelationshipActive ::
                i < |t.rows| && EverActive(t.rows[i])
  {
  }

  // ---------------------------------------------------------------- the repository

  /** The two tables and the log, updated in place by the repository functions. */
  class RelationshipsRepository {
    var rows: seq<Relationship>
    var metering: seq<MeteringEvent>
    const audit: AuditLog

    constructor (audit: AuditLog)
      ensures Contents() == Table([], []) && this.audit == audit
    {
      rows, metering := [], [];
      this.audit := audit;
    }

    function Contents(): Table
      reads this
    {
      Table(rows, metering)
    }

    /** What the call `op` at `at` must leave behind: its effect, or nothing at all if it throws. */
    twostate predicate Performed(op: RelationshipOp, at: Time, new r: Result<Id, Error>)
      reads this, audit
    {
      match Try(old(Contents()), op, at)
      case Throw(e) =>
        r == Throw(e) && Contents() == old(Contents()) && audit.rows == old(audit.rows)
      case Ok(effect) =>
        r == Ok(effect.row.subject) && Contents() == effect.table && audit.rows == old(audit.rows) + [effect.row]
    }

    method RecordMeteringEvent(event: MeteringEvent)
      modifies this`metering
      ensures metering == old(metering) + [event]
    {
      metering := metering + [event];
    }

    method RequestRelationship(broker: Id, organisation: Id, kind: RelationshipType, consentVersion: string, now: Time)
      returns (r: Result<Id, Error>)
      modifies this, audit
      ensures Performed(RelationshipOp.RequestRelationship(broker, organisation, kind, consentVersion), now, r)
    {
      if Collides(rows, broker, organisation, kind, now) {
        return Throw(UniqueViolation);
      }
      var id := |rows|;
      rows := rows + [Relationship(broker, organisation, kind, RelationshipActive, ScopeFor(kind),
                                   Some(now), Some(consentVersion), Some(now), None, None)];
      audit.RecordAuditEvent(Log(Broker(broker), RelationshipConsented, id, now));
      RecordMeteringEvent(BrokerLinked(organisation, broker, now));
      return Ok(id);
    }

    method InviteBroker(ctx: Actor, organisation: Id, found: Option<Id>, kind: RelationshipType, now: Time)
      returns (r: Result<Id, Error>)
      modifies this, audit
      ensures Performed(RelationshipOp.InviteBroker(ctx, organisation, found, kind), now, r)
    {
      if found.None? {
        return Throw(BrokerNotFound);
      }
      var id := |rows|;
      rows := rows + [Relationship(found.value, organisation, kind, PendingAcceptance, ScopeFor(kind),
                                   None, None, None, None, None)];
      audit.RecordAuditEvent(Log(ctx, RelationshipInvited, id, now));
      return Ok(id);
    }

    method AcceptInvitation(broker: Id, id: Id, consentVersion: string, now: Time) returns (r: Result<Id, Error>)
      modifies this, audit
      ensures Performed(RelationshipOp.AcceptInvitation(broker, id, consentVersion), now, r)
    {
      if id >= |rows| || rows[id].broker != broker {
        return Throw(RelationshipNotFound);
      }
      if rows[id].status != PendingAcceptance {
        return Throw(InvalidRelationshipTransition);
      }
      var organisation := rows[id].organisation;
      if Collides(rows, broker, organisation, rows[id].kind, now) {
        return Throw(UniqueViolation);
      }
      rows := rows[id := rows[id].(status := RelationshipActive, consentedAt := Some(now),
                                   consentVersion := Some(consentVersion), effectiveFrom := Some(now))];
      audit.RecordAuditEvent(Log(Broker(broker), RelationshipConsented, id, now));
      RecordMeteringEvent(BrokerLinked(organisation, broker, now));
      return Ok(id);
    }

    method DeclineInvitation(broker: Id, id: Id, now: Time) returns (r: Result<Id, Error>)
      modifies this, audit
      ensures Performed(RelationshipOp.DeclineInvitation(broker, id), now, r)
    {
      if id >= |rows| || rows[id].broker != broker {
        return Throw(RelationshipNotFound);
      }
      if rows[id].status != PendingAcceptance {
        return Throw(InvalidRelationshipTransition);
      }
      rows := rows[id := rows[id].(status := Declined)];
      audit.RecordAuditEvent(Log(Broker(broker), RelationshipDeclined, id, now));
      return Ok(id);
    }

    method RevokeRelationship(broker: Id, id: Id, reason: Option<string>, now: Time) returns (r: Result<Id, Error>)
      modifies this, audit
      ensures Performed(RelationshipOp.RevokeRelationship(broker, id, reason), now, r)
    {
      if id >= |rows| || rows[id].broker != broker {
        return Throw(RelationshipNotFound);
      }
      if rows[id].status != RelationshipActive {
        return Throw(InvalidRelationshipTransition);
      }
      rows := rows[id := rows[id].(status := Revoked, effectiveTo := Some(now), endReason := reason)];
      audit.RecordAuditEvent(Log(Broker(broker), RelationshipRevoked, id, now));
      return Ok(id);
    }

    method EndRelationship(clientUser: Id, organisation: Id, id: Id, reason: string, now: Time)
      returns (r: Result<Id, Error>)
      modifies this, audit
      ensures Performed(RelationshipOp.EndRelationship(clientUser, organisation, id, reason), now, r)
    {
      if id >= |rows| || rows[id].organisation != organisation {
        return Throw(RelationshipNotFound);
      }
      if rows[id].status != RelationshipActive {
        return Throw(InvalidRelationshipTransition);
      }
      rows := rows[id := rows[id].(status := Ended, effectiveTo := Some(now), endReason := Some(reason))];
      audit.RecordAuditEvent(Log(ClientUser(clientUser, organisation), RelationshipEnded, id, now));
      return Ok(id);
    }
  }
}
