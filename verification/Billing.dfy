/** Billing over whole runs: one metering event for each relationship that was ever active. */
module Billing {
  import opened Common
  import Rel = Relationships
  import opened Platform
  import opened Reachability

  /** The relationship was active at the end of some earlier part of the run, or is now. */
  ghost predicate WasActive(r: Run, i: Id) {
    exists s :: Extends(r, s) && i < |Exec(s).relationships.rows|
                && Exec(s).relationships.rows[i].status == Rel.RelationshipActive
  }

  /** A call that leaves a relationship revoked or ended found it active, or revoked or ended already. */
  lemma StepEndsOnlyActive(db: Db, op: Op, at: Time, i: Id)
    requires i < |Perform(db, op, at).relationships.rows|
    requires var row := Perform(db, op, at).relationships.rows[i]; Rel.EverActive(row) && row.status != Rel.RelationshipActive
    ensures i < |db.relationships.rows| && Rel.EverActive(db.relationships.rows[i])
  {
    match op {
      case OnRelationship(a) => Rel.EndsOnlyActive(db.relationships, a, at);
      case _ => StepLeavesRelationships(db, op, at);
    }
  }

  lemma {:induction false} EndedWasActive(r: Run, i: Id)
    requires i < |Exec(r).relationships.rows| && Rel.EverActive(Exec(r).relationships.rows[i])
    ensures WasActive(r, i)
  {
    if Exec(r).relationships.rows[i].status == Rel.RelationshipActive {
      assert Extends(r, r);
    } else {
      StepEndsOnlyActive(Exec(r.prev), r.op, r.at, i);
      EndedWasActive(r.prev, i);
      var s :| Extends(r.prev, s) && i < |Exec(s).relationships.rows|
               && Exec(s).relationships.rows[i].status == Rel.RelationshipActive;
      assert Extends(r, s);
    }
  }

  /** What the status tells of the past is the past: active, revoked or ended means once active. */
  lemma EverActiveIffWasActive(r: Run, i: Id)
    requires i < |Exec(r).relationships.rows|
    ensures Rel.EverActive(Exec(r).relationships.rows[i]) <==> WasActive(r, i)
  {
    if Rel.EverActive(Exec(r).relationships.rows[i]) {
      EndedWasActive(r, i);
    } else if WasActive(r, i) {
      var s :| Extends(r, s) && i < |Exec(s).relationships.rows|
               && Exec(s).relationships.rows[i].status == Rel.RelationshipActive;
      ClosedRelationshipsAreFrozen(r, s, i);
    }
  }

  /** The pair's relationships whose status says they were active. */
  function EverActiveIds(rows: seq<Rel.Relationship>, organisation: Id, broker: Id): set<Id> {
    set i: Id | i < |rows| && rows[i].organisation == organisation && rows[i].broker == broker && Rel.EverActive(rows[i])
  }

  lemma {:induction false} CountIsCardinality(rows: seq<Rel.Relationship>, organisation: Id, broker: Id)
    ensures Rel.CountEverActive(rows, organisation, broker) == |EverActiveIds(rows, organisation, broker)|
  {
    if rows != [] {
      var n := |rows| - 1;
      CountIsCardinality(rows[..n], organisation, broker);
      var last := rows[n];
      var counted := last.organisation == organisation && last.broker == broker && Rel.EverActive(last);
      assert EverActiveIds(rows, organisation, broker)
          == EverActiveIds(rows[..n], organisation, broker) + if counted then {n} else {};
    }
  }

  /** The pair's relationships that were active at some time of the run. */
  ghost function WasActiveIds(r: Run, organisation: Id, broker: Id): set<Id> {
    var rows := Exec(r).relationships.rows;
    set i: Id | i < |rows| && rows[i].organisation == organisation && rows[i].broker == broker && WasActive(r, i)
  }

  /**
   * Per organisation and broker, the linked events billed by the end of any run are as many as the
   * pair's relationships that were active at some time of that run.
   */
  lemma RelationshipsAreBilledOnce(r: Run, organisation: Id, broker: Id)
    ensures Rel.CountLinked(Exec(r).relationships.metering, organisation, broker) == |WasActiveIds(r, organisation, broker)|
  {
    Reachable(r);
    hide Exec;
    var rows := Exec(r).relationships.rows;
    CountIsCardinality(rows, organisation, broker);
    forall i: Id | i < |rows| ensures Rel.EverActive(rows[i]) <==> WasActive(r, i) {
      EverActiveIffWasActive(r, i);
    }
    assert WasActiveIds(r, organisation, broker) == EverActiveIds(rows, organisation, broker);
  }
}
