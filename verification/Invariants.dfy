/** What every reachable state of the platform satisfies. */
module Invariants {
  import opened Common
  import Rules = Rulesets
  import opened Platform
  import opened Steps

  // ---------------------------------------------------------------- affiliations

  /** Affiliations and accreditations name businesses that exist. */
  predicate BusinessesExist(db: Db) {
    && (forall i | 0 <= i < |db.affiliations| :: db.affiliations[i].business < |db.businesses|)
    && (forall i | 0 <= i < |db.accreditations| :: db.accreditations[i].request.business < |db.businesses|)
    && (forall i | 0 <= i < |db.lookups| && db.lookups[i].BusinessStatusRead? && db.lookups[i].status.Some? ::
          db.lookups[i].business < |db.businesses|)
  }

  /** A (broker, business) pair holds at most one live affiliation. */
  predicate OneLivePerPair(affiliations: seq<Affiliation>) {
    forall i, j | 0 <= i < |affiliations| && 0 <= j < |affiliations| ::
      (&& IsLive(affiliations[i]) && IsLive(affiliations[j])
       && IsPair(affiliations[i], affiliations[j].broker, affiliations[j].business))
      ==> i == j
  }

  /** A requested accreditation's pair holds an active affiliation. */
  predicate RequestedHoldsAffiliation(db: Db) {
    forall i | 0 <= i < |db.accreditations| && db.accreditations[i].status == Requested ::
      HasActiveAffiliation(db.affiliations, db.accreditations[i].request.broker, db.accreditations[i].request.business)
  }

  lemma ActiveKept(before: seq<Affiliation>, after: seq<Affiliation>, broker: Id, business: Id)
    requires |before| <= |after|
    requires forall i | 0 <= i < |before| && IsPair(before[i], broker, business) && before[i].status == AffiliationActive ::
               after[i] == before[i]
    requires HasActiveAffiliation(before, broker, business)
    ensures HasActiveAffiliation(after, broker, business)
  {
    var i :| 0 <= i < |before| && IsPair(before[i], broker, business) && before[i].status == AffiliationActive;
    assert IsPair(after[i], broker, business) && after[i].status == AffiliationActive;
  }

  lemma AffiliationKeepsRequested(db: Db, op: AffiliationOp, at: Time)
    requires RequestedHoldsAffiliation(db)
    ensures var r := TryAffiliation(db, op, at); r.Ok? ==> RequestedHoldsAffiliation(r.value.db)
  {
    var r := TryAffiliation(db, op, at);
    if r.Ok? {
      var db' := r.value.db;
      forall i | 0 <= i < |db'.accreditations| && db'.accreditations[i].status == Requested
        ensures HasActiveAffiliation(db'.affiliations, db'.accreditations[i].request.broker, db'.accreditations[i].request.business)
      {
        var a := db.accreditations[i];
        assert db'.accreditations[i] == a;
        ActiveKept(db.affiliations, db'.affiliations, a.request.broker, a.request.business);
      }
    }
  }

  lemma AccreditationsKeepRequested(db: Db, db': Db, at: Time)
    requires RequestedHoldsAffiliation(db)
    requires AccreditationsStep(db, db'.accreditations, at) && db'.affiliations == db.affiliations
    ensures RequestedHoldsAffiliation(db')
  {
    forall i | 0 <= i < |db'.accreditations| && db'.accreditations[i].status == Requested
      ensures HasActiveAffiliation(db'.affiliations, db'.accreditations[i].request.broker, db'.accreditations[i].request.business)
    {
      if i < |db.accreditations| {
        assert Moves(db.accreditations[i], db'.accreditations[i], at);
        assert db.accreditations[i].status == Requested;
      }
    }
  }

  lemma StepKeepsRequested(db: Db, op: Op, at: Time)
    requires RequestedHoldsAffiliation(db)
    ensures RequestedHoldsAffiliation(Perform(db, op, at))
  {
    match op {
      case OnAffiliation(a) => AffiliationKeepsRequested(db, a, at);
      case _ =>
        StepMovesAccreditations(db, op, at);
        AccreditationsLeaveAffiliationsTable(db, op, at);
        AccreditationsKeepRequested(db, Perform(db, op, at), at);
    }
  }

  lemma AccreditationsLeaveAffiliationsTable(db: Db, op: Op, at: Time)
    requires !op.OnAffiliation?
    ensures Perform(db, op, at).affiliations == db.affiliations
  {
    if op.OnAccreditation? {
      AccreditationsLeaveAffiliations(db, op.accreditation, at);
    }
  }

  lemma AccreditationsNameBusinesses(db: Db, after: seq<Accreditation>, at: Time)
    requires AccreditationsStep(db, after, at) && BusinessesExist(db)
    ensures forall i | 0 <= i < |after| :: after[i].request.business < |db.businesses|
  {
    forall i | 0 <= i < |after|
      ensures after[i].request.business < |db.businesses|
    {
      if i < |db.accreditations| {
        assert Moves(db.accreditations[i], after[i], at);
      } else {
        var request := after[i].request;
        var j :| 0 <= j < |db.affiliations| && IsPair(db.affiliations[j], request.broker, request.business);
      }
    }
  }

  lemma AffiliationsNameBusinesses(db: Db, db': Db, at: Time)
    requires AffiliationsStep(db, db', at) && BusinessesExist(db)
    ensures |db.businesses| <= |db'.businesses|
    ensures forall i | 0 <= i < |db'.affiliations| :: db'.affiliations[i].business < |db'.businesses|
  {
    forall i | 0 <= i < |db'.affiliations|
      ensures db'.affiliations[i].business < |db'.businesses|
    {
      if i < |db.affiliations| {
        if |db'.affiliations| == |db.affiliations| + 1 {
          assert db'.affiliations[..|db.affiliations|][i] == db'.affiliations[i];
        }
        assert db'.affiliations[i].business == db.affiliations[i].business;
      }
    }
  }

  /** A call remembers at most one more read, and a business read names an existing business. */
  predicate LookupsStep(db: Db, after: seq<Read>) {
    && |db.lookups| <= |after| <= |db.lookups| + 1
    && (forall i | 0 <= i < |db.lookups| :: after[i] == db.lookups[i])
    && (|after| == |db.lookups| + 1 && after[|db.lookups|].BusinessStatusRead? && after[|db.lookups|].status.Some? ==>
          after[|db.lookups|].business < |db.businesses|)
  }

  lemma StepReads(db: Db, op: Op, at: Time)
    ensures LookupsStep(db, Perform(db, op, at).lookups)
  {
    match op {
      case OnAffiliation(a) => AffiliationReads(db, a, at);
      case OnAccreditation(a) => AccreditationReads(db, a, at);
      case _ =>
    }
  }

  lemma AffiliationReads(db: Db, op: AffiliationOp, at: Time)
    ensures var r := TryAffiliation(db, op, at); r.Ok? ==> LookupsStep(db, r.value.db.lookups)
  {
  }

  lemma AccreditationReads(db: Db, op: AccreditationOp, at: Time)
    ensures var r := TryAccreditation(db, op, at); r.Ok? ==> LookupsStep(db, r.value.db.lookups)
  {
    AccreditationsLeaveAffiliations(db, op, at);
    var r := TryAccreditation(db, op, at);
    if r.Ok? {
      assert forall i | 0 <= i < |db.lookups| :: r.value.db.lookups[i] == r.value.db.lookups[..|db.lookups|][i];
    }
  }

  lemma LookupsNameBusinesses(db: Db, db': Db)
    requires BusinessesExist(db) && LookupsStep(db, db'.lookups) && |db.businesses| <= |db'.businesses|
    ensures forall i | 0 <= i < |db'.lookups| && db'.lookups[i].BusinessStatusRead? && db'.lookups[i].status.Some? ::
              db'.lookups[i].business < |db'.businesses|
  {
  }

  lemma BusinessesKept(db: Db, db': Db, at: Time)
    requires BusinessesExist(db)
    requires AffiliationsStep(db, db', at) && AccreditationsStep(db, db'.accreditations, at) && LookupsStep(db, db'.lookups)
    ensures BusinessesExist(db')
  {
    AffiliationsNameBusinesses(db, db', at);
    AccreditationsNameBusinesses(db, db'.accreditations, at);
    LookupsNameBusinesses(db, db');
  }

  lemma StepKeepsBusinesses(db: Db, op: Op, at: Time)
    requires BusinessesExist(db)
    ensures BusinessesExist(Perform(db, op, at))
  {
    StepMovesAffiliations(db, op, at);
    StepMovesAccreditations(db, op, at);
    StepReads(db, op, at);
    BusinessesKept(db, Perform(db, op, at), at);
  }

  lemma OneLiveKept(db: Db, db': Db, at: Time)
    requires AffiliationsStep(db, db', at) && BusinessesExist(db) && OneLivePerPair(db.affiliations)
    ensures OneLivePerPair(db'.affiliations)
  {
    var n, before, after := |db.affiliations|, db.affiliations, db'.affiliations;
    if |after| == n + 1 {
      assert forall i | 0 <= i < n :: after[i] == after[..n][i];
      var a := after[n];
      if Founded(db, db', a) {
        assert forall i | 0 <= i < n :: before[i].business != a.business;
      } else {
        assert forall i | 0 <= i < n && IsLive(before[i]) :: !IsPair(before[i], a.broker, a.business);
      }
    } else if after != before {
      var id :| 0 <= id < n && after == before[id := after[id]] && AffiliationMoves(db, before[id], after[id]);
      assert IsLive(before[id]);
      forall i, j | 0 <= i < n && 0 <= j < n && IsLive(after[i]) && IsLive(after[j])
                    && IsPair(after[i], after[j].broker, after[j].business)
        ensures i == j
      {
        assert IsLive(before[i]) && IsLive(before[j]) && IsPair(before[i], before[j].broker, before[j].business);
      }
    }
  }

  lemma StepKeepsOneLive(db: Db, op: Op, at: Time)
    requires BusinessesExist(db) && OneLivePerPair(db.affiliations)
    ensures OneLivePerPair(Perform(db, op, at).affiliations)
  {
    StepMovesAffiliations(db, op, at);
    OneLiveKept(db, Perform(db, op, at), at);
  }

  // ---------------------------------------------------------------- accreditations

  /** The timestamps and the decision step agree with the status. */
  predicate Coherent(a: Accreditation) {
    && (a.status == Pending ==> a.trainingDeadlineAt.Some?)
    && (a.status == Pending || a.status == Active || a.status == Lapsed || a.status == Declined ==> a.decidedAt.Some?)
    && (a.status == Active ==> a.activatedAt.Some?)
    && (a.status == PartyChangedPending ==> a.partyChangedAt.Some?)
    && (a.status == ExceptionEscalated ==> a.step == SeniorApproverStep)
    && (a.trainingDeadlineAt.Some? ==> a.decidedAt.Some?)
  }

  predicate AllCoherent(db: Db) {
    forall i | 0 <= i < |db.accreditations| :: Coherent(db.accreditations[i])
  }

  /** At most one accreditation that is not declined per broker, lender, brand, role and product scope. */
  predicate OneLivePerScope(accreditations: seq<Accreditation>) {
    forall i, j | 0 <= i < j < |accreditations| ::
      SameScope(accreditations[i].request, accreditations[j].request) ==>
        accreditations[i].status == Declined || accreditations[j].status == Declined
  }

  lemma CoherentKept(a: Accreditation, b: Accreditation, at: Time)
    requires Coherent(a) && Moves(a, b, at)
    ensures Coherent(b)
  {
  }

  lemma StepKeepsCoherent(db: Db, op: Op, at: Time)
    requires AllCoherent(db)
    ensures AllCoherent(Perform(db, op, at))
  {
    StepMovesAccreditations(db, op, at);
    AllCoherentKept(db, Perform(db, op, at).accreditations, at);
  }

  lemma AllCoherentKept(db: Db, after: seq<Accreditation>, at: Time)
    requires AllCoherent(db) && AccreditationsStep(db, after, at)
    ensures forall i | 0 <= i < |after| :: Coherent(after[i])
  {
    forall i | 0 <= i < |db.accreditations|
      ensures Coherent(after[i])
    {
      CoherentKept(db.accreditations[i], after[i], at);
    }
  }

  lemma OneLivePerScopeKept(db: Db, after: seq<Accreditation>, at: Time)
    requires OneLivePerScope(db.accreditations) && AccreditationsStep(db, after, at)
    ensures OneLivePerScope(after)
  {
    var before := db.accreditations;
    forall i, j | 0 <= i < j < |after| && SameScope(after[i].request, after[j].request)
      ensures after[i].status == Declined || after[j].status == Declined
    {
      assert Moves(before[i], after[i], at);
      if j < |before| {
        assert Moves(before[j], after[j], at);
        assert before[i].status == Declined || before[j].status == Declined;
      } else {
        assert !(SameScope(before[i].request, after[j].request) && before[i].status != Declined);
      }
    }
  }

  lemma StepKeepsOneLivePerScope(db: Db, op: Op, at: Time)
    requires OneLivePerScope(db.accreditations)
    ensures OneLivePerScope(Perform(db, op, at).accreditations)
  {
    StepMovesAccreditations(db, op, at);
    OneLivePerScopeKept(db, Perform(db, op, at).accreditations, at);
  }

  // ---------------------------------------------------------------- rulesets

  /** A version an earlier or later call resolved for this key: published once, hence validated. */
  predicate WasPublished(rulesets: seq<Rules.RulesetVersion>, version: Id, key: Rules.Key) {
    version < |rulesets| && rulesets[version].key == key && rulesets[version].status != Rules.Draft
  }

  predicate LookupsWerePublished(db: Db) {
    forall i | 0 <= i < |db.lookups| && db.lookups[i].RulesetRead? && db.lookups[i].version.Some? ::
      WasPublished(db.rulesets, db.lookups[i].version.value, db.lookups[i].key)
  }

  predicate CapturedWerePublished(db: Db) {
    forall i | 0 <= i < |db.accreditations| && db.accreditations[i].rulesetVersion.Some? ::
      WasPublished(db.rulesets, db.accreditations[i].rulesetVersion.value, KeyOf(db.accreditations[i].request))
  }

  lemma StepKeepsPublished(db: Db, op: Op, at: Time)
    requires LookupsWerePublished(db) && CapturedWerePublished(db)
    ensures LookupsWerePublished(Perform(db, op, at)) && CapturedWerePublished(Perform(db, op, at))
  {
    match op {
      case OnAccreditation(a) => AccreditationKeepsPublished(db, a, at);
      case OnRuleset(r) => Rules.StepIsForward(db.rulesets, r, at);
      case OnAffiliation(a) => AffiliationKeepsPublished(db, a, at);
      case _ =>
    }
  }

  lemma AffiliationKeepsPublished(db: Db, op: AffiliationOp, at: Time)
    requires LookupsWerePublished(db) && CapturedWerePublished(db)
    ensures var r := TryAffiliation(db, op, at);
            r.Ok? ==> LookupsWerePublished(r.value.db) && CapturedWerePublished(r.value.db)
  {
  }

  lemma AccreditationKeepsPublished(db: Db, op: AccreditationOp, at: Time)
    requires LookupsWerePublished(db) && CapturedWerePublished(db)
    ensures LookupsWerePublished(Perform(db, OnAccreditation(op), at)) && CapturedWerePublished(Perform(db, OnAccreditation(op), at))
  {
    var r := TryAccreditation(db, op, at);
    if r.Ok? {
      AccreditationsLeaveAffiliations(db, op, at);
      AccreditationCallStep(db, op, at);
      LookupsStayPublished(db, r.value.db, op, at);
      CapturedStayPublished(db, r.value.db, at);
    }
  }

  lemma LookupsStayPublished(db: Db, db': Db, op: AccreditationOp, at: Time)
    requires LookupsWerePublished(db) && db'.rulesets == db.rulesets
    requires |db.lookups| <= |db'.lookups| <= |db.lookups| + 1 && db'.lookups[..|db.lookups|] == db.lookups
    requires |db'.lookups| == |db.lookups| + 1 ==>
               op.ResolveRuleset? && db'.lookups[|db.lookups|] == RulesetRead(op.key, Rules.Resolve(db.rulesets, op.key))
    ensures LookupsWerePublished(db')
  {
    var n := |db.lookups|;
    forall i | 0 <= i < |db'.lookups| && db'.lookups[i].RulesetRead? && db'.lookups[i].version.Some?
      ensures WasPublished(db'.rulesets, db'.lookups[i].version.value, db'.lookups[i].key)
    {
      if i < n {
        assert db'.lookups[..n][i] == db'.lookups[i];
      } else {
        Rules.ResolveFindsFirst(db.rulesets, op.key);
      }
    }
  }

  lemma CapturedStayPublished(db: Db, db': Db, at: Time)
    requires LookupsWerePublished(db) && CapturedWerePublished(db) && db'.rulesets == db.rulesets
    requires AccreditationsStep(db, db'.accreditations, at)
    ensures CapturedWerePublished(db')
  {
    forall i | 0 <= i < |db'.accreditations| && db'.accreditations[i].rulesetVersion.Some?
      ensures WasPublished(db'.rulesets, db'.accreditations[i].rulesetVersion.value, KeyOf(db'.accreditations[i].request))
    {
      assert i < |db.accreditations| ==> Moves(db.accreditations[i], db'.accreditations[i], at);
    }
  }
}
