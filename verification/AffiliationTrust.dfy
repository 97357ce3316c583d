/** Trust in a business: who let each affiliate in, back to the founder. */
module AffiliationTrust {
  import opened Common
  import opened Platform
  import opened Steps
  import opened Reachability
  import opened Completeness

  /** How an affiliation came to be active: it founded its business, or an active affiliate confirmed it. */
  datatype Chain =
    | Founding(call: Run)
    | Vouched(call: Run, confirmer: Id, rest: Chain)

  /**
   * Each link is a call of the run `r`; a confirmer is another broker whose own affiliation to the
   * same business was active when it confirmed, and whose own chain lies in the calls before that.
   */
  predicate Trusted(r: Run, a: Id, c: Chain)
    decreases c
  {
    && Extends(r, c.call) && c.call.Then? && c.call.op.OnAffiliation?
    && var before, op := Exec(c.call.prev), c.call.op.affiliation;
       match c
       case Founding(call) =>
         op.CreateBusiness? && a == |before.affiliations|
       case Vouched(call, other, rest) =>
         && op.ConfirmAffiliation? && op.affiliation == a
         && a < |before.affiliations| && other < |before.affiliations|
         && before.affiliations[a].business == before.affiliations[other].business == op.business
         && before.affiliations[other].broker == op.broker != before.affiliations[a].broker
         && before.affiliations[other].status == AffiliationActive
         && before.affiliations[a].status == PendingConfirmation
         && Trusted(call.prev, other, rest)
  }

  lemma TrustLasts(later: Run, r: Run, a: Id, c: Chain)
    requires Extends(later, r) && Trusted(r, a, c)
    ensures Trusted(later, a, c)
  {
    ExtendsIsTransitive(later, r, c.call);
  }

  /** The only calls after which an affiliation is active that was not active before. */
  lemma Activations(db: Db, op: Op, at: Time, a: Id)
    requires var after := Perform(db, op, at).affiliations;
             a < |after| && after[a].status == AffiliationActive
    requires a >= |db.affiliations| || db.affiliations[a].status != AffiliationActive
    ensures op.OnAffiliation?
    ensures || (op.affiliation.CreateBusiness? && a == |db.affiliations|)
            || (op.affiliation.ConfirmAffiliation? && op.affiliation.affiliation == a && a < |db.affiliations|
                && HasActiveAffiliation(db.affiliations, op.affiliation.broker, op.affiliation.business)
                && db.affiliations[a].business == op.affiliation.business
                && db.affiliations[a].broker != op.affiliation.broker
                && db.affiliations[a].status == PendingConfirmation)
  {
    match op {
      case OnAccreditation(c) => AccreditationsLeaveAffiliations(db, c, at);
      case _ =>
    }
  }

  /** Every active affiliation has a finite chain of confirmations back to its business's founder. */
  lemma {:induction false} EveryAffiliateIsTrusted(r: Run, a: Id) returns (c: Chain)
    requires a < |Exec(r).affiliations| && Exec(r).affiliations[a].status == AffiliationActive
    ensures Trusted(r, a, c)
  {
    var db := Exec(r.prev);
    if a < |db.affiliations| && db.affiliations[a].status == AffiliationActive {
      c := EveryAffiliateIsTrusted(r.prev, a);
      TrustLasts(r, r.prev, a, c);
    } else {
      Activations(db, r.op, r.at, a);
      if r.op.affiliation.CreateBusiness? {
        c := Founding(r);
      } else {
        var other :| 0 <= other < |db.affiliations| && IsPair(db.affiliations[other], r.op.affiliation.broker, r.op.affiliation.business)
                  && db.affiliations[other].status == AffiliationActive;
        var rest := EveryAffiliateIsTrusted(r.prev, other);
        c := Vouched(r, other, rest);
      }
    }
  }

  /** An affiliation that was active at any earlier moment has such a chain too. */
  lemma EveryFormerAffiliateWasTrusted(later: Run, r: Run, a: Id) returns (c: Chain)
    requires Extends(later, r)
    requires a < |Exec(r).affiliations| && Exec(r).affiliations[a].status == AffiliationActive
    ensures Trusted(later, a, c) && Trusted(r, a, c)
  {
    c := EveryAffiliateIsTrusted(r, a);
    TrustLasts(later, r, a, c);
  }

  predicate HasActiveAffiliate(db: Db, business: Id) {
    exists i | 0 <= i < |db.affiliations| :: db.affiliations[i].business == business && db.affiliations[i].status == AffiliationActive
  }

  lemma AbandonedStep(db: Db, after: Db, at: Time, business: Id)
    requires AffiliationsStep(db, after, at) && business < |db.businesses|
    requires !HasActiveAffiliate(db, business)
    ensures business < |after.businesses| && !HasActiveAffiliate(after, business)
  {
    var n := |db.affiliations|;
    if |after.affiliations| == n + 1 {
      assert forall i | 0 <= i < n :: after.affiliations[i] == after.affiliations[..n][i];
    } else if after.affiliations != db.affiliations {
      var id :| 0 <= id < n && after.affiliations == db.affiliations[id := after.affiliations[id]]
                && AffiliationMoves(db, db.affiliations[id], after.affiliations[id]);
    }
  }

  /** A business left with no active affiliate never regains one. */
  lemma {:induction false} AbandonedForever(later: Run, r: Run, business: Id)
    requires Extends(later, r) && business < |Exec(r).businesses|
    requires !HasActiveAffiliate(Exec(r), business)
    ensures business < |Exec(later).businesses| && !HasActiveAffiliate(Exec(later), business)
  {
    if later != r {
      AbandonedForever(later.prev, r, business);
      StepMovesAffiliations(Exec(later.prev), later.op, later.at);
      AbandonedStep(Exec(later.prev), Exec(later), later.at, business);
    }
  }

  /** A pair never holds two affiliations at once that are active or waiting to be confirmed. */
  lemma OneLiveAffiliationPerPair(r: Run, i: Id, j: Id)
    requires i < |Exec(r).affiliations| && j < |Exec(r).affiliations|
    requires var a, b := Exec(r).affiliations[i], Exec(r).affiliations[j];
             && a.broker == b.broker && a.business == b.business
             && (a.status == AffiliationActive || a.status == PendingConfirmation)
             && (b.status == AffiliationActive || b.status == PendingConfirmation)
    ensures i == j
  {
    Reachable(r);
  }
}
