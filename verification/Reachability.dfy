/** The invariants over whole runs of the platform, and the theorems that rest on them. */
module Reachability {
  import opened Common
  import opened RulesetEvaluator
  import Rel = Relationships
  import Rules = Rulesets
  import opened Platform
  import opened Steps
  import opened Invariants

  ghost predicate Inv(db: Db) {
    && BusinessesExist(db)
    && OneLivePerPair(db.affiliations)
    && RequestedHoldsAffiliation(db)
    && AllCoherent(db)
    && OneLivePerScope(db.accreditations)
    && LookupsWerePublished(db) && CapturedWerePublished(db)
    && Rel.Inv(db.relationships)
    && Rules.Inv(db.rulesets)
  }

  lemma StepKeepsTables(db: Db, op: Op, at: Time)
    requires Rel.Inv(db.relationships) && Rules.Inv(db.rulesets)
    ensures Rel.Inv(Perform(db, op, at).relationships) && Rules.Inv(Perform(db, op, at).rulesets)
  {
    match op {
      case OnRelationship(r) => Rel.StepKeepsInv(db.relationships, r, at);
      case OnRuleset(r) => Rules.StepKeepsInv(db.rulesets, r, at);
      case OnAccreditation(a) => AccreditationsLeaveAffiliations(db, a, at);
      case OnAffiliation(a) => AffiliationsLeaveTables(db, a, at);
      case _ =>
    }
  }

  lemma AffiliationsLeaveTables(db: Db, op: AffiliationOp, at: Time)
    ensures var r := TryAffiliation(db, op, at);
            r.Ok? ==>
              && r.value.db.relationships == db.relationships && r.value.db.rulesets == db.rulesets
              && r.value.db.roles == db.roles
  {
  }

  /** Every reachable state satisfies every invariant. */
  lemma {:induction false} Reachable(r: Run)
    ensures Inv(Exec(r))
  {
    if r.Then? {
      var db := Exec(r.prev);
      Reachable(r.prev);
      StepKeepsBusinesses(db, r.op, r.at);
      StepKeepsOneLive(db, r.op, r.at);
      StepKeepsRequested(db, r.op, r.at);
      StepKeepsCoherent(db, r.op, r.at);
      StepKeepsOneLivePerScope(db, r.op, r.at);
      StepKeepsPublished(db, r.op, r.at);
      StepKeepsTables(db, r.op, r.at);
    }
  }

  /** In every run, of one broker, lender, brand, role and product scope at most one accreditation is not declined. */
  lemma OneAccreditationPerScope(r: Run, i: Id, j: Id)
    requires i < |Exec(r).accreditations| && j < |Exec(r).accreditations|
    requires var a, b := Exec(r).accreditations[i].request, Exec(r).accreditations[j].request;
             && a.broker == b.broker && a.lender == b.lender
             && a.brand == b.brand && a.role == b.role && a.productScope == b.productScope
    requires Exec(r).accreditations[i].status != Declined && Exec(r).accreditations[j].status != Declined
    ensures i == j
  {
    Reachable(r);
    hide Exec;
    var a, b := Exec(r).accreditations[i].request, Exec(r).accreditations[j].request;
    assert SameScope(a, b) && SameScope(b, a);
  }

  // ---------------------------------------------------------------- rulesets over runs

  /** The key's rows in the order their publications committed. */
  function PublicationPath(r: Run, key: Rules.Key): seq<Id> {
    match r
    case Start => []
    case Then(prev, op, at) =>
      var path := PublicationPath(prev, key);
      if op.OnRuleset? then Rules.ExtendPath(path, Exec(prev).rulesets, op.ruleset, at, key) else path
  }

  lemma RulesetsStep(db: Db, op: Op, at: Time)
    ensures Rules.Forward(db.rulesets, Perform(db, op, at).rulesets)
    ensures !op.OnRuleset? ==> Perform(db, op, at).rulesets == db.rulesets
  {
    match op {
      case OnRuleset(r) => Rules.StepIsForward(db.rulesets, r, at);
      case OnAccreditation(a) => AccreditationsLeaveAffiliations(db, a, at);
      case OnAffiliation(a) => AffiliationsLeaveTables(db, a, at);
      case _ =>
    }
  }

  lemma {:induction false} PublishedInThePast(r: Run, at: Time)
    requires Clocked(r) && (r.Then? ==> r.at < at)
    ensures Rules.PublishedBefore(Exec(r).rulesets, at)
  {
    if r.Then? {
      PublishedInThePast(r.prev, r.at);
      RulesetsStep(Exec(r.prev), r.op, r.at);
    }
  }

  lemma StepKeepsPath(db: Db, op: Op, at: Time, key: Rules.Key, path: seq<Id>)
    requires Rules.Inv(db.rulesets) && Rules.PublishedBefore(db.rulesets, at)
    requires Rules.IsPublicationPath(db.rulesets, key, path)
    ensures Rules.IsPublicationPath(Perform(db, op, at).rulesets, key,
                                    if op.OnRuleset? then Rules.ExtendPath(path, db.rulesets, op.ruleset, at, key) else path)
  {
    RulesetsStep(db, op, at);
    if op.OnRuleset? {
      Rules.StepKeepsPath(db.rulesets, op.ruleset, at, key, path);
      if Rules.Try(db.rulesets, op.ruleset, at).Ok? {
        assert Perform(db, op, at).rulesets == Rules.Try(db.rulesets, op.ruleset, at).value.rows;
      }
    }
  }

  lemma {:induction false} PathHolds(r: Run, key: Rules.Key)
    requires Clocked(r)
    ensures Rules.IsPublicationPath(Exec(r).rulesets, key, PublicationPath(r, key))
  {
    if r.Then? {
      PathHolds(r.prev, key);
      Reachable(r.prev);
      PublishedInThePast(r.prev, r.at);
      StepKeepsPath(Exec(r.prev), r.op, r.at, key, PublicationPath(r.prev, key));
    }
  }

  /**
   * Per key, the ever-published versions form one supersession path in publication order, whatever
   * their version numbers; it ends at the row `resolve` returns, the only published one.
   */
  lemma VersionsFormOnePath(r: Run, key: Rules.Key)
    requires Clocked(r)
    ensures var rows := Exec(r).rulesets;
            var path := PublicationPath(r, key);
            && Rules.IsPublicationPath(rows, key, path)
            && Rules.Resolve(rows, key) == (if path == [] then None else Some(path[|path| - 1]))
            && (forall i | 0 <= i < |rows| && Rules.IsPublished(rows[i], key) :: Rules.Resolve(rows, key) == Some(i))
  {
    PathHolds(r, key);
    Reachable(r);
    Rules.ResolveIsEndOfPath(Exec(r).rulesets, key, PublicationPath(r, key));
  }

  lemma {:induction false} RulesetsOnlyMoveForward(later: Run, r: Run)
    requires Extends(later, r)
    ensures Rules.Forward(Exec(r).rulesets, Exec(later).rulesets)
  {
    if later != r {
      RulesetsOnlyMoveForward(later.prev, r);
      RulesetsStep(Exec(later.prev), later.op, later.at);
    }
  }

  lemma {:induction false} AccreditationsKeepIdentity(later: Run, r: Run)
    requires Extends(later, r)
    ensures var before, after := Exec(r).accreditations, Exec(later).accreditations;
            |before| <= |after|
            && forall i | 0 <= i < |before| ::
                 after[i].request == before[i].request && after[i].rulesetVersion == before[i].rulesetVersion
                 && after[i].relationship == before[i].relationship
  {
    if later != r {
      AccreditationsKeepIdentity(later.prev, r);
      StepMovesAccreditations(Exec(later.prev), later.op, later.at);
      forall i | 0 <= i < |Exec(r).accreditations|
        ensures Exec(later).accreditations[i].request == Exec(r).accreditations[i].request
                && Exec(later).accreditations[i].rulesetVersion == Exec(r).accreditations[i].rulesetVersion
                && Exec(later).accreditations[i].relationship == Exec(r).accreditations[i].relationship
      {
        assert Moves(Exec(later.prev).accreditations[i], Exec(later).accreditations[i], later.at);
      }
    }
  }

  /**
   * Whatever ruleset version an accreditation captured: it names a version of its own key that was
   * published, hence validated; it stays the captured one and its JSON never changes, superseded
   * or not; and computing outstanding items on it is total, at any later time and on any facts.
   */
  lemma CapturedRulesetsStayEvaluable(later: Run, r: Run, id: Id, fact: Fact)
    requires Extends(later, r)
    requires id < |Exec(r).accreditations| && Exec(r).accreditations[id].rulesetVersion.Some?
    ensures var v := Exec(r).accreditations[id].rulesetVersion.value;
            && WasPublished(Exec(r).rulesets, v, KeyOf(Exec(r).accreditations[id].request))
            && id < |Exec(later).accreditations| && v < |Exec(later).rulesets|
            && Exec(later).accreditations[id].rulesetVersion == Some(v)
            && Exec(later).rulesets[v].definition == Exec(r).rulesets[v].definition
            && var definition := Exec(later).rulesets[v].definition;
               && ValidDefinition(definition)
               && DecodeDefinition(definition).Some?
               && RawOutstandingItems(definition, fact) == Some(OutstandingItems(DecodeDefinition(definition).value, fact))
  {
    Reachable(r);
    Reachable(later);
    RulesetsOnlyMoveForward(later, r);
    AccreditationsKeepIdentity(later, r);
    var v := Exec(r).accreditations[id].rulesetVersion.value;
    assert WasPublished(Exec(r).rulesets, v, KeyOf(Exec(r).accreditations[id].request));
    assert Rules.WellFormed(Exec(later).rulesets[v]);
    OutstandingItemsAreTotal(Exec(later).rulesets[v].definition, fact);
  }

  // ---------------------------------------------------------------- relationships over runs

  lemma StepLeavesRelationships(db: Db, op: Op, at: Time)
    requires !op.OnRelationship?
    ensures Perform(db, op, at).relationships == db.relationships
  {
    match op {
      case OnAccreditation(a) => AccreditationsLeaveAffiliations(db, a, at);
      case OnAffiliation(a) => AffiliationsLeaveTables(db, a, at);
      case _ =>
    }
  }

  /** Consent, dates and scope always say what the status says; a closed relationship never changes. */
  lemma {:induction false} ClosedRelationshipsAreFrozen(later: Run, r: Run, i: Id)
    requires Extends(later, r) && i < |Exec(r).relationships.rows|
    ensures i < |Exec(later).relationships.rows|
    ensures Rel.Coherent(Exec(later).relationships.rows[i])
    ensures Rel.Terminal(Exec(r).relationships.rows[i]) ==>
              Exec(later).relationships.rows[i] == Exec(r).relationships.rows[i]
    ensures Rel.EverActive(Exec(r).relationships.rows[i]) ==>
              Rel.EverActive(Exec(later).relationships.rows[i])
              && Exec(later).relationships.rows[i].consentedAt == Exec(r).relationships.rows[i].consentedAt
  {
    Reachable(later);
    if later != r {
      ClosedRelationshipsAreFrozen(later.prev, r, i);
      var db := Exec(later.prev);
      match later.op {
        case OnRelationship(op) => Rel.StepKeepsTerminalRows(db.relationships, op, later.at);
        case _ => StepLeavesRelationships(db, later.op, later.at);
      }
    }
  }
}
