/** When an affiliation call succeeds, and which call gave every affiliation, read and business status its value. */
module AffiliationOrigins {
  import opened Common
  import Rules = Rulesets
  import opened Platform
  import opened Steps
  import opened BusinessStatuses

  // ---------------------------------------------------------------- one call

  predicate ActiveIn(affiliations: seq<Affiliation>, broker: Id, business: Id) {
    exists i | 0 <= i < |affiliations| ::
      affiliations[i].broker == broker && affiliations[i].business == business && affiliations[i].status == AffiliationActive
  }

  /** Active, or still waiting to be confirmed. */
  predicate ActiveOrPendingIn(affiliations: seq<Affiliation>, broker: Id, business: Id) {
    exists i | 0 <= i < |affiliations| ::
      && affiliations[i].broker == broker && affiliations[i].business == business
      && (affiliations[i].status == AffiliationActive || affiliations[i].status == PendingConfirmation)
  }

  /** Each call succeeds by what the tables hold, and a refusal says which part fails first. */
  lemma CallsSucceedIff(db: Db, op: AffiliationOp, at: Time)
    ensures match op
            case CreateBusiness(_) => TryAffiliation(db, op, at).Ok?
            case SetBusinessStatus(business, _) =>
              if business >= |db.businesses| then TryAffiliation(db, op, at) == Throw(BusinessNotFound) else TryAffiliation(db, op, at).Ok?
            case ReadBusinessStatus(_) => TryAffiliation(db, op, at).Ok?
            case RequestAffiliation(broker, business, read) =>
              if !exists status :: read < |db.lookups| && db.lookups[read] == BusinessStatusRead(business, status) then
                TryAffiliation(db, op, at) == Throw(NoSuchRead)
              else if db.lookups[read] == BusinessStatusRead(business, None) then TryAffiliation(db, op, at) == Throw(BusinessNotFound)
              else if db.lookups[read] != BusinessStatusRead(business, Some(Verified))
                      && db.lookups[read] != BusinessStatusRead(business, Some(BusinessActive)) then
                TryAffiliation(db, op, at) == Throw(BusinessNotAffiliatable)
              else if ActiveOrPendingIn(db.affiliations, broker, business) then TryAffiliation(db, op, at) == Throw(AlreadyAffiliated)
              else TryAffiliation(db, op, at).Ok?
            case ConfirmAffiliation(broker, business, id) =>
              if !ActiveIn(db.affiliations, broker, business) then TryAffiliation(db, op, at) == Throw(NotAffiliated)
              else if id >= |db.affiliations| || db.affiliations[id].business != business then
                TryAffiliation(db, op, at) == Throw(AffiliationNotFound)
              else if db.affiliations[id].broker == broker then TryAffiliation(db, op, at) == Throw(CannotConfirmOwnAffiliation)
              else if db.affiliations[id].status != PendingConfirmation then TryAffiliation(db, op, at) == Throw(AffiliationNotPending)
              else TryAffiliation(db, op, at).Ok?
            case EndAffiliation(broker, id, _) =>
              if id >= |db.affiliations| || db.affiliations[id].broker != broker || db.affiliations[id].status == Ended then
                TryAffiliation(db, op, at) == Throw(AffiliationNotFound)
              else TryAffiliation(db, op, at).Ok?
  {
    if op.RequestAffiliation? && op.read < |db.lookups| && db.lookups[op.read].BusinessStatusRead? && db.lookups[op.read].business == op.business {
      assert db.lookups[op.read] == BusinessStatusRead(op.business, db.lookups[op.read].status);
    }
  }

  /** The business was founded, or joining it was asked for after it was seen verified or active, in this call. */
  predicate Begins(db: Db, op: AffiliationOp, i: Id, row: Affiliation) {
    && i == |db.affiliations|
    && match op
       case CreateBusiness(broker) => row == Affiliation(broker, |db.businesses|, AffiliationActive, None, None)
       case RequestAffiliation(broker, business, read) =>
         && row == Affiliation(broker, business, PendingConfirmation, None, None) && read < |db.lookups|
         && (db.lookups[read] == BusinessStatusRead(business, Some(Verified))
             || db.lookups[read] == BusinessStatusRead(business, Some(BusinessActive)))
       case _ => false
  }

  /** Another active affiliate of the business confirms it in this call. */
  predicate Confirms(db: Db, op: AffiliationOp, i: Id, row: Affiliation) {
    && i < |db.affiliations| && db.affiliations[i].status == PendingConfirmation
    && row == db.affiliations[i].(status := AffiliationActive)
    && op.ConfirmAffiliation? && op.affiliation == i && op.business == row.business && op.broker != row.broker
    && ActiveIn(db.affiliations, op.broker, row.business)
  }

  /** Its own broker ends it in this call, for this reason. */
  predicate Ends(db: Db, op: AffiliationOp, at: Time, i: Id, row: Affiliation) {
    && i < |db.affiliations| && db.affiliations[i].status != Ended
    && row == db.affiliations[i].(status := Ended, endedAt := Some(at), endReason := row.endReason)
    && op == EndAffiliation(row.broker, i, row.endReason)
  }

  lemma CallMovesRows(db: Db, op: AffiliationOp, at: Time, i: Id)
    requires TryAffiliation(db, op, at).Ok? && i < |TryAffiliation(db, op, at).value.db.affiliations|
    ensures var row := TryAffiliation(db, op, at).value.db.affiliations[i];
            || (i < |db.affiliations| && row == db.affiliations[i]
                && !((op.ConfirmAffiliation? || op.EndAffiliation?) && op.affiliation == i))
            || Begins(db, op, i, row) || Confirms(db, op, i, row) || Ends(db, op, at, i, row)
  {
  }

  /** A successful founding or request adds its row; no call removes one. */
  lemma CallAddsRow(db: Db, op: AffiliationOp, at: Time)
    requires TryAffiliation(db, op, at).Ok?
    ensures |TryAffiliation(db, op, at).value.db.affiliations|
         == |db.affiliations| + if op.CreateBusiness? || op.RequestAffiliation? then 1 else 0
  {
  }

  // ---------------------------------------------------------------- whole runs

  lemma StepMovesRows(r: Run, i: Id)
    requires r.Then? && i < |Exec(r).affiliations|
    ensures var db, row := Exec(r.prev), Exec(r).affiliations[i];
            || (i < |db.affiliations| && row == db.affiliations[i])
            || (r.op.OnAffiliation? && (|| Begins(db, r.op.affiliation, i, row) || Confirms(db, r.op.affiliation, i, row)
                                        || Ends(db, r.op.affiliation, r.at, i, row)))
  {
    var db := Exec(r.prev);
    match r.op {
      case OnAffiliation(op) =>
        if TryAffiliation(db, op, r.at).Ok? {
          CallMovesRows(db, op, r.at, i);
        }
      case OnAccreditation(op) => AccreditationsLeaveAffiliations(db, op, r.at);
      case _ =>
    }
  }

  /** Every affiliation began in some call: its broker founded the business, or asked to join one it saw verified or active. */
  lemma {:induction false} AffiliationsAreTraced(r: Run, i: Id) returns (s: Run)
    requires i < |Exec(r).affiliations|
    ensures Extends(r, s) && s.Then? && s.op.OnAffiliation? && i == |Exec(s.prev).affiliations| && i < |Exec(s).affiliations|
    ensures Begins(Exec(s.prev), s.op.affiliation, i, Exec(s).affiliations[i])
    ensures Exec(s).affiliations[i].broker == Exec(r).affiliations[i].broker
    ensures Exec(s).affiliations[i].business == Exec(r).affiliations[i].business
  {
    StepMovesRows(r, i);
    hide Exec;
    if i < |Exec(r.prev).affiliations| {
      s := AffiliationsAreTraced(r.prev, i);
    } else {
      s := r;
    }
  }

  /** An affiliation ends only by its own broker, at the time and for the reason on record. */
  lemma {:induction false} EndsAreTraced(r: Run, i: Id) returns (s: Run)
    requires i < |Exec(r).affiliations| && Exec(r).affiliations[i].status == Ended
    ensures Extends(r, s) && s.Then? && s.op.OnAffiliation?
    ensures Ends(Exec(s.prev), s.op.affiliation, s.at, i, Exec(r).affiliations[i])
  {
    StepMovesRows(r, i);
    hide Exec;
    if i < |Exec(r.prev).affiliations| && Exec(r).affiliations[i] == Exec(r.prev).affiliations[i] {
      s := EndsAreTraced(r.prev, i);
    } else {
      s := r;
    }
  }

  // ---------------------------------------------------------------- what calls read

  /** What a first transaction read was so in this state. */
  predicate IsSo(db: Db, read: Read) {
    match read
    case RulesetRead(key, version) =>
      if version.Some? then
        && version.value < |db.rulesets| && db.rulesets[version.value].key == key
        && db.rulesets[version.value].status == Rules.Published
      else !exists v | 0 <= v < |db.rulesets| :: db.rulesets[v].key == key && db.rulesets[v].status == Rules.Published
    case BusinessStatusRead(business, status) =>
      status == if business < |db.businesses| then Some(db.businesses[business]) else None
  }

  lemma AffiliationReads(db: Db, op: AffiliationOp, at: Time)
    requires TryAffiliation(db, op, at).Ok?
    ensures var lookups := TryAffiliation(db, op, at).value.db.lookups;
            if op.ReadBusinessStatus? then
              && |lookups| == |db.lookups| + 1 && lookups[..|db.lookups|] == db.lookups
              && lookups[|db.lookups|].BusinessStatusRead? && lookups[|db.lookups|].business == op.business
              && IsSo(db, lookups[|db.lookups|])
            else lookups == db.lookups
  {
  }

  lemma AccreditationReads(db: Db, op: AccreditationOp, at: Time)
    requires TryAccreditation(db, op, at).Ok?
    ensures var lookups := TryAccreditation(db, op, at).value.db.lookups;
            if op.ResolveRuleset? then
              && |lookups| == |db.lookups| + 1 && lookups[..|db.lookups|] == db.lookups
              && lookups[|db.lookups|].RulesetRead? && lookups[|db.lookups|].key == op.key
              && IsSo(db, lookups[|db.lookups|])
            else lookups == db.lookups
  {
    if op.ResolveRuleset? {
      Rules.ResolveFindsFirst(db.rulesets, op.key);
    }
  }

  lemma StepReads(r: Run, k: nat)
    requires r.Then? && k < |Exec(r).lookups|
    ensures var db := Exec(r.prev);
            || (k < |db.lookups| && Exec(r).lookups[k] == db.lookups[k])
            || (k == |db.lookups| && IsSo(db, Exec(r).lookups[k]))
  {
    var db := Exec(r.prev);
    match r.op {
      case OnAffiliation(op) =>
        if TryAffiliation(db, op, r.at).Ok? {
          AffiliationReads(db, op, r.at);
          assert k < |db.lookups| ==> Exec(r).lookups[k] == Exec(r).lookups[..|db.lookups|][k];
        }
      case OnAccreditation(op) =>
        if TryAccreditation(db, op, r.at).Ok? {
          AccreditationReads(db, op, r.at);
          assert k < |db.lookups| ==> Exec(r).lookups[k] == Exec(r).lookups[..|db.lookups|][k];
        }
      case _ =>
    }
  }

  /** Whatever a call that opens two transactions carries over was so at some earlier point of the run. */
  lemma {:induction false} ReadsWereSo(r: Run, k: nat) returns (s: Run)
    requires k < |Exec(r).lookups|
    ensures Extends(r, s) && IsSo(Exec(s), Exec(r).lookups[k])
  {
    StepReads(r, k);
    hide Exec;
    if k < |Exec(r.prev).lookups| {
      s := ReadsWereSo(r.prev, k);
    } else {
      s := r.prev;
      assert Extends(r, s);
    }
  }

  /** A business's status is the last one set, and draft until then. */
  function LastStatus(r: Run, business: Id): BusinessStatus {
    match r
    case Start => Draft
    case Then(prev, op, _) =>
      if op.OnAffiliation? && op.affiliation.SetBusinessStatus? && op.affiliation.business == business && business < |Exec(prev).businesses|
      then op.affiliation.status
      else if business < |Exec(prev).businesses| then LastStatus(prev, business)
      else Draft
  }

  lemma AffiliationCallStatus(db: Db, op: AffiliationOp, at: Time, business: Id)
    requires TryAffiliation(db, op, at).Ok? && business < |TryAffiliation(db, op, at).value.db.businesses|
    ensures var after := TryAffiliation(db, op, at).value.db.businesses[business];
            if business >= |db.businesses| then after == Draft
            else if op.SetBusinessStatus? && op.business == business then after == op.status
            else after == db.businesses[business]
  {
  }

  lemma AffiliationsSucceedOnBusiness(db: Db, op: AffiliationOp, at: Time)
    ensures op.SetBusinessStatus? && op.business < |db.businesses| ==> TryAffiliation(db, op, at).Ok?
  {
  }

  lemma StatusStep(db: Db, op: Op, at: Time, business: Id)
    requires business < |Perform(db, op, at).businesses|
    ensures var after := Perform(db, op, at).businesses[business];
            if business >= |db.businesses| then after == Draft
            else if op.OnAffiliation? && op.affiliation.SetBusinessStatus? && op.affiliation.business == business then after == op.affiliation.status
            else after == db.businesses[business]
  {
    hide TryAccreditation, TryAffiliation;
    match op {
      case OnAccreditation(a) => AccreditationsLeaveAffiliations(db, a, at);
      case OnAffiliation(a) =>
        if TryAffiliation(db, a, at).Ok? {
          AffiliationCallStatus(db, a, at, business);
        } else {
          AffiliationsSucceedOnBusiness(db, a, at);
        }
      case _ =>
    }
  }

  lemma {:induction false} StatusesAreLastSet(r: Run, business: Id)
    requires business < |Exec(r).businesses|
    ensures Exec(r).businesses[business] == LastStatus(r, business)
  {
    var db := Exec(r.prev);
    StatusStep(db, r.op, r.at, business);
    hide Perform;
    if business < |db.businesses| {
      StatusesAreLastSet(r.prev, business);
    }
  }
}
