/** The repository functions themselves: the tables as fields, updated in place call by call. */
module PlatformRepository {
  import opened Common
  import opened Audit
  import T = Temporal
  import opened RulesetEvaluator
  import Rel = Relationships
  import Rules = Rulesets
  import opened Platform
  import opened Lifecycle
  import opened Reconstruction
  import opened Reachability
  import opened BusinessStatuses

  /** The indices of the rows an UPDATE hit, as its RETURNING clause lists them. */
  function HitIds(hits: seq<bool>): seq<Id> {
    if hits == [] then []
    else HitIds(hits[..|hits| - 1]) + if hits[|hits| - 1] then [|hits| - 1] else []
  }

  /** One audit row per returned id. */
  function IdRows(ids: seq<Id>, actor: Actor, action: Action, at: Time): seq<AuditRow> {
    seq(|ids|, i requires 0 <= i < |ids| => AuditRow(at, actor, action, AccreditationSubject, ids[i]))
  }

  lemma {:induction false} SweepLogsReturnedIds(hits: seq<bool>, actor: Actor, action: Action, at: Time)
    ensures SweepRows(hits, actor, action, at) == IdRows(HitIds(hits), actor, action, at)
  {
    if hits != [] {
      SweepLogsReturnedIds(hits[..|hits| - 1], actor, action, at);
    }
  }

  datatype Outstanding = NotConfigured | Configured(items: seq<Requirement>)

  /** The row policy on reading accreditations. */
  predicate MayRead(ctx: Actor, a: Accreditation) {
    ctx.PlatformAdmin? || Reaches(ctx, a) || ctx == Broker(a.request.broker)
  }

  /** The read of the captured definition, evaluated as raw JSON; an evaluation that fails throws. */
  function TryOutstandingItems(db: Db, ctx: Actor, id: Id, fact: Fact): Result<Outstanding, Error> {
    if id >= |db.accreditations| || !MayRead(ctx, db.accreditations[id]) then Throw(AccreditationNotFound)
    else
      var version := db.accreditations[id].rulesetVersion;
      if version.None? || version.value >= |db.rulesets| then Ok(NotConfigured)
      else
        var items := RawOutstandingItems(db.rulesets[version.value].definition, fact);
        if items.None? then Throw(InvalidRulesetDefinition) else Ok(Configured(items.value))
  }

  lemma ActiveBusinessesSnoc(affiliations: seq<Affiliation>, a: Affiliation, broker: Id)
    ensures ActiveBusinesses(affiliations + [a], broker)
         == ActiveBusinesses(affiliations, broker)
            + if a.broker == broker && a.status == AffiliationActive then {a.business} else {}
  {
    var n := |affiliations|;
    assert forall i | 0 <= i < n :: (affiliations + [a])[i] == affiliations[i];
    assert (affiliations + [a])[n] == a;
  }

  /** What an approval that passes its guards changes. */
  lemma ApprovalEffect(db: Db, ctx: Actor, id: Id, at: Time)
    requires Lookup(db, ctx, id).Ok? && Decidable(db.accreditations[id]) && CanDecide(db.roles, ctx, db.accreditations[id])
    ensures var op := OnAccreditation(AccreditationOp.Approve(ctx, id));
            var a := db.accreditations[id];
            var deadline := at + DeadlineDaysFor(db.rulesets, a.rulesetVersion);
            && Try(db, op, at).Ok?
            && Perform(db, op, at)
               == db.(accreditations := db.accreditations[id := a.(status := Pending, decidedAt := Some(at), trainingDeadlineAt := Some(deadline))],
                      decisions := db.decisions + [Decision(id, ctx, AccreditationApproved, at)],
                      audit := db.audit + AccreditationRow(at, ctx, AccreditationApproved, id))
  {
  }

  class AccreditationRepository {
    var businesses: seq<BusinessStatus>
    var affiliations: seq<Affiliation>
    var roles: map<Id, Role>
    var relationships: Rel.Table
    var rulesets: seq<Rules.RulesetVersion>
    var lookups: seq<Read>
    var accreditations: seq<Accreditation>
    var decisions: seq<Decision>
    var confirmations: map<(Id, TrainingKind), Confirmation>
    var platformIds: map<Id, Id>
    const audit: AuditLog

    constructor (audit: AuditLog)
      requires audit.rows == []
      ensures Contents() == EMPTY && this.audit == audit
    {
      businesses, affiliations, roles := [], [], map[];
      relationships, rulesets, lookups := Rel.Table([], []), [], [];
      accreditations, decisions, confirmations, platformIds := [], [], map[], map[];
      this.audit := audit;
    }

    function Contents(): Db
      reads this, audit
    {
      Db(businesses, affiliations, roles, relationships, rulesets, lookups, accreditations, decisions,
         confirmations, platformIds, audit.rows)
    }

    /** The call performed `op` at `at`: it left exactly that state, and threw exactly when it should. */
    twostate predicate Performed(op: Op, at: Time, new r: Result<(), Error>)
      reads this, audit
    {
      && Contents() == Perform(old(Contents()), op, at)
      && match Try(old(Contents()), op, at) {
           case Throw(e) => r == Throw(e)
           case Ok(_) => r == Ok(())
         }
    }

    // -------------------------------------------------------------- shared helpers

    method FindReachable(ctx: Actor, id: Id) returns (r: Result<Accreditation, Error>)
      ensures r == Lookup(Contents(), ctx, id)
    {
      if !ctx.ClientUser? && !ctx.System? {
        return Throw(InsufficientRole);
      }
      if id >= |accreditations| || !Reaches(ctx, accreditations[id]) {
        return Throw(AccreditationNotFound);
      }
      return Ok(accreditations[id]);
    }

    method InsertDecision(ctx: Actor, id: Id, kind: Action, now: Time)
      modifies this`decisions
      ensures decisions == old(decisions) + [Decision(id, ctx, kind, now)]
    {
      decisions := decisions + [Decision(id, ctx, kind, now)];
    }

    method RecordAccreditationEvent(ctx: Actor, action: Action, id: Id, now: Time)
      modifies audit
      ensures audit.rows == old(audit.rows) + AccreditationRow(now, ctx, action, id)
    {
      audit.RecordAuditEvent(AuditRow(now, ctx, action, AccreditationSubject, id));
    }

    method RecordEach(ids: seq<Id>, actor: Actor, action: Action, now: Time)
      modifies audit
      ensures audit.rows == old(audit.rows) + IdRows(ids, actor, action, now)
    {
      for i := 0 to |ids|
        invariant audit.rows == old(audit.rows) + IdRows(ids[..i], actor, action, now)
      {
        assert ids[..i + 1] == ids[..i] + [ids[i]];
        audit.RecordAuditEvent(AuditRow(now, actor, action, AccreditationSubject, ids[i]));
      }
      assert ids[..|ids|] == ids;
    }

    // -------------------------------------------------------------- affiliations

    method CreateBusiness(broker: Id, now: Time) returns (r: Result<(), Error>)
      modifies this, audit
      ensures Performed(OnAffiliation(AffiliationOp.CreateBusiness(broker)), now, r)
    {
      var business := |businesses|;
      businesses := businesses + [Draft];
      affiliations := affiliations + [Affiliation(broker, business, AffiliationActive, None, None)];
      audit.RecordAuditEvent(AuditRow(now, Broker(broker), BusinessCreated, BusinessSubject, business));
      return Ok(());
    }

    /** The second transaction of the request to join, given the business status the first one read. */
    method RequestAffiliation(broker: Id, business: Id, read: nat, now: Time) returns (r: Result<(), Error>)
      modifies this, audit
      ensures Performed(OnAffiliation(AffiliationOp.RequestAffiliation(broker, business, read)), now, r)
    {
      if read >= |lookups| || !lookups[read].BusinessStatusRead? || lookups[read].business != business {
        return Throw(NoSuchRead);
      }
      var status := lookups[read].status;
      if status == None {
        return Throw(BusinessNotFound);
      }
      if status.value != Verified && status.value != BusinessActive {
        return Throw(BusinessNotAffiliatable);
      }
      if HasLiveAffiliation(affiliations, broker, business) {
        return Throw(AlreadyAffiliated);
      }
      var id := |affiliations|;
      affiliations := affiliations + [Affiliation(broker, business, PendingConfirmation, None, None)];
      audit.RecordAuditEvent(AuditRow(now, Broker(broker), AffiliationRequested, AffiliationSubject, id));
      return Ok(());
    }

    method ConfirmAffiliation(broker: Id, business: Id, id: Id, now: Time) returns (r: Result<(), Error>)
      modifies this, audit
      ensures Performed(OnAffiliation(AffiliationOp.ConfirmAffiliation(broker, business, id)), now, r)
    {
      if !HasActiveAffiliation(affiliations, broker, business) {
        return Throw(NotAffiliated);
      }
      if id >= |affiliations| || affiliations[id].business != business {
        return Throw(AffiliationNotFound);
      }
      if affiliations[id].broker == broker {
        return Throw(CannotConfirmOwnAffiliation);
      }
      if affiliations[id].status != PendingConfirmation {
        return Throw(AffiliationNotPending);
      }
      affiliations := affiliations[id := affiliations[id].(status := AffiliationActive)];
      audit.RecordAuditEvent(AuditRow(now, Broker(broker), AffiliationConfirmed, AffiliationSubject, id));
      return Ok(());
    }

    /** The UPDATE of the party-change flag: every row held through the pair, and the ids it returns. */
    method FlagHeld(broker: Id, business: Id, now: Time) returns (flagged: seq<Id>)
      modifies this`accreditations
      ensures accreditations == FlagAll(old(accreditations), broker, business, now)
      ensures flagged == HitIds(FlagHits(old(accreditations), broker, business))
    {
      flagged := [];
      var n := |accreditations|;
      ghost var before, hits := accreditations, FlagHits(accreditations, broker, business);
      for i := 0 to n
        invariant |accreditations| == n
        invariant forall j | 0 <= j < i :: accreditations[j] == Flag(before[j], broker, business, now)
        invariant forall j | i <= j < n :: accreditations[j] == before[j]
        invariant flagged == HitIds(hits[..i])
      {
        var a := accreditations[i];
        assert hits[..i + 1][..i] == hits[..i];
        if a.request.broker == broker && a.request.business == business
           && a.status != Declined && a.status != PartyChangedPending {
          accreditations := accreditations[i := a.(status := PartyChangedPending, partyChangedAt := Some(now))];
          flagged := flagged + [i];
        }
      }
      assert hits[..n] == hits;
      assert accreditations == FlagAll(before, broker, business, now);
    }

    /** Flags every accreditation held through the pair, then logs one row for each flagged one. */
    method FlagPartyChanged(ctx: Actor, broker: Id, business: Id, now: Time) returns (flagged: seq<Id>)
      modifies this`accreditations, audit
      ensures accreditations == FlagAll(old(accreditations), broker, business, now)
      ensures flagged == HitIds(FlagHits(old(accreditations), broker, business))
      ensures audit.rows == old(audit.rows) + SweepRows(FlagHits(old(accreditations), broker, business), ctx, AccreditationPartyChanged, now)
    {
      flagged := FlagHeld(broker, business, now);
      RecordEach(flagged, ctx, AccreditationPartyChanged, now);
      SweepLogsReturnedIds(FlagHits(old(accreditations), broker, business), ctx, AccreditationPartyChanged, now);
    }

    method EndAffiliation(broker: Id, id: Id, reason: Option<string>, now: Time) returns (r: Result<(), Error>)
      modifies this, audit
      ensures Performed(OnAffiliation(AffiliationOp.EndAffiliation(broker, id, reason)), now, r)
    {
      if id >= |affiliations| || affiliations[id].broker != broker
         || (affiliations[id].status != AffiliationActive && affiliations[id].status != PendingConfirmation) {
        return Throw(AffiliationNotFound);
      }
      var business := affiliations[id].business;
      affiliations := affiliations[id := affiliations[id].(status := Ended, endedAt := Some(now), endReason := reason)];
      audit.RecordAuditEvent(AuditRow(now, Broker(broker), AffiliationEnded, AffiliationSubject, id));
      hide SweepRows, FlagHits, FlagAll;
      var flagged := FlagPartyChanged(Broker(broker), broker, business, now);
      ghost var row := Row(now, Broker(broker), AffiliationEnded, AffiliationSubject, id);
      ghost var sweep := SweepRows(FlagHits(old(accreditations), broker, business), Broker(broker), AccreditationPartyChanged, now);
      assert old(audit.rows) + (row + sweep) == (old(audit.rows) + row) + sweep;
      return Ok(());
    }

    // -------------------------------------------------------------- accreditations

    /** The first transaction of a request: the version the key resolves to now. */
    method ResolveRuleset(key: Rules.Key, now: Time) returns (r: Result<(), Error>, read: nat)
      modifies this
      ensures Performed(OnAccreditation(AccreditationOp.ResolveRuleset(key)), now, r)
      ensures read == |old(lookups)|
    {
      read := |lookups|;
      lookups := lookups + [RulesetRead(key, Rules.Resolve(rulesets, key))];
      r := Ok(());
    }

    /** The second transaction: both preconditions, then the row and its audit event. */
    method RequestAccreditation(ctx: Actor, request: Request, read: nat, now: Time) returns (r: Result<(), Error>)
      modifies this, audit
      ensures Performed(OnAccreditation(AccreditationOp.RequestAccreditation(ctx, request, read)), now, r)
    {
      if read >= |lookups| || !lookups[read].RulesetRead? || lookups[read].key != KeyOf(request) {
        return Throw(NoSuchRead);
      }
      if !HasActiveAffiliation(affiliations, request.broker, request.business) {
        return Throw(NoBusinessAffiliation);
      }
      var relationship := ActiveRelationship(relationships.rows, request.broker, request.lender);
      if relationship.None? {
        return Throw(NoActiveRelationship);
      }
      if ctx != System && ctx != Broker(request.broker) {
        return Throw(RowSecurityViolation);
      }
      if HasLiveAccreditation(accreditations, request) {
        return Throw(UniqueViolation);
      }
      var id := |accreditations|;
      accreditations := accreditations + [NewAccreditation(request, relationship.value, lookups[read].version)];
      RecordAccreditationEvent(Broker(request.broker), AccreditationRequested, id, now);
      return Ok(());
    }

    method RequestMoreInformation(ctx: Actor, id: Id, now: Time) returns (r: Result<(), Error>)
      modifies this, audit
      ensures Performed(OnAccreditation(AccreditationOp.RequestMoreInformation(ctx, id)), now, r)
    {
      var found := FindReachable(ctx, id);
      if found.Throw? {
        return Throw(found.error);
      }
      if found.value.status == Declined {
        return Throw(InvalidAccreditationTransition);
      }
      accreditations := accreditations[id := accreditations[id].(status := InformationRequired)];
      InsertDecision(ctx, id, AccreditationInformationRequested, now);
      RecordAccreditationEvent(ctx, AccreditationInformationRequested, id, now);
      return Ok(());
    }

    method Escalate(ctx: Actor, id: Id, now: Time) returns (r: Result<(), Error>)
      modifies this, audit
      ensures Performed(OnAccreditation(AccreditationOp.Escalate(ctx, id)), now, r)
    {
      var found := FindReachable(ctx, id);
      if found.Throw? {
        return Throw(found.error);
      }
      if found.value.status == Declined {
        return Throw(InvalidAccreditationTransition);
      }
      accreditations := accreditations[id := accreditations[id].(status := ExceptionEscalated, step := SeniorApproverStep)];
      InsertDecision(ctx, id, AccreditationEscalated, now);
      RecordAccreditationEvent(ctx, AccreditationEscalated, id, now);
      return Ok(());
    }

    /** At the senior step only a client user whose stored role is senior approver may act. */
    method AssertCanDecide(ctx: Actor, a: Accreditation) returns (allowed: bool)
      ensures allowed == CanDecide(roles, ctx, a)
    {
      if a.step != SeniorApproverStep {
        return true;
      }
      if !ctx.ClientUser? {
        return false;
      }
      return ctx.id in roles && roles[ctx.id] == SeniorApprover;
    }

    method ResolveDeadlineDays(version: Option<Id>) returns (days: real)
      ensures days == DeadlineDaysFor(rulesets, version)
    {
      days := DEFAULT_TRAINING_DEADLINE_DAYS;
      if version.Some? && version.value < |rulesets| {
        days := DeadlineDays(rulesets[version.value].definition);
      }
    }

    method Approve(ctx: Actor, id: Id, now: Time) returns (r: Result<(), Error>)
      modifies this, audit
      ensures Performed(OnAccreditation(AccreditationOp.Approve(ctx, id)), now, r)
    {
      var found := FindReachable(ctx, id);
      if found.Throw? {
        return Throw(found.error);
      }
      var a := found.value;
      if a.status != Requested && a.status != ExceptionEscalated {
        return Throw(InvalidAccreditationTransition);
      }
      var allowed := AssertCanDecide(ctx, a);
      if !allowed {
        return Throw(InsufficientRole);
      }
      ApprovalEffect(Contents(), ctx, id, now);
      hide Perform, Try, CanDecide, DeadlineDaysFor;
      var deadlineDays := ResolveDeadlineDays(a.rulesetVersion);
      accreditations := accreditations[id := a.(status := Pending, decidedAt := Some(now),
                                                trainingDeadlineAt := Some(now + deadlineDays))];
      InsertDecision(ctx, id, AccreditationApproved, now);
      RecordAccreditationEvent(ctx, AccreditationApproved, id, now);
      return Ok(());
    }

    method Decline(ctx: Actor, id: Id, now: Time) returns (r: Result<(), Error>)
      modifies this, audit
      ensures Performed(OnAccreditation(AccreditationOp.Decline(ctx, id)), now, r)
    {
      var found := FindReachable(ctx, id);
      if found.Throw? {
        return Throw(found.error);
      }
      var a := found.value;
      if a.status != Requested && a.status != ExceptionEscalated {
        return Throw(InvalidAccreditationTransition);
      }
      var allowed := AssertCanDecide(ctx, a);
      if !allowed {
        return Throw(InsufficientRole);
      }
      accreditations := accreditations[id := a.(status := Declined, decidedAt := Some(now))];
      InsertDecision(ctx, id, AccreditationDeclined, now);
      RecordAccreditationEvent(ctx, AccreditationDeclined, id, now);
      return Ok(());
    }

    method RecordInterviewOutcome(ctx: Actor, id: Id, recommendation: string, now: Time) returns (r: Result<(), Error>)
      modifies this, audit
      ensures Performed(OnAccreditation(AccreditationOp.RecordInterviewOutcome(ctx, id, recommendation)), now, r)
    {
      var found := FindReachable(ctx, id);
      if found.Throw? {
        return Throw(found.error);
      }
      if found.value.status == Declined {
        return Throw(InvalidAccreditationTransition);
      }
      accreditations := accreditations[id := accreditations[id].(interview := Some(recommendation))];
      InsertDecision(ctx, id, AccreditationInterviewRecorded, now);
      RecordAccreditationEvent(ctx, AccreditationInterviewRecorded, id, now);
      return Ok(());
    }

    // -------------------------------------------------------------- training

    method ConfirmTraining(ctx: Actor, id: Id, kind: TrainingKind, notes: Option<string>, now: Time) returns (r: Result<(), Error>)
      modifies this, audit
      ensures Performed(OnAccreditation(AccreditationOp.ConfirmTraining(ctx, id, kind, notes)), now, r)
    {
      var found := FindReachable(ctx, id);
      if found.Throw? {
        return Throw(found.error);
      }
      if (id, kind) !in confirmations {
        confirmations := confirmations[(id, kind) := Confirmation(ctx, notes)];
      }
      RecordAccreditationEvent(ctx, AccreditationTrainingConfirmed, id, now);
      return Ok(());
    }

    method ActivateAccreditation(ctx: Actor, id: Id, now: Time) returns (r: Result<(), Error>)
      modifies this, audit
      ensures Performed(OnAccreditation(AccreditationOp.ActivateAccreditation(ctx, id)), now, r)
    {
      var found := FindReachable(ctx, id);
      if found.Throw? {
        return Throw(found.error);
      }
      var a := found.value;
      if a.status != Pending {
        return Throw(InvalidAccreditationTransition);
      }
      accreditations := accreditations[id := a.(status := Active, activatedAt := Some(now))];
      RecordAccreditationEvent(ctx, AccreditationActivated, id, now);
      if a.request.broker !in platformIds {
        platformIds := platformIds[a.request.broker := |platformIds|];
      }
      return Ok(());
    }

    /** The UPDATE of the deadline sweep: every overdue row, and the ids it returns. */
    method LapseOverdue(ctx: Actor, lender: Id, now: Time) returns (lapsed: seq<Id>)
      modifies this`accreditations
      ensures accreditations == LapseAll(old(accreditations), ctx, lender, now)
      ensures lapsed == HitIds(LapseHits(old(accreditations), ctx, lender, now))
    {
      lapsed := [];
      var n := |accreditations|;
      ghost var before, hits := accreditations, LapseHits(accreditations, ctx, lender, now);
      for i := 0 to n
        invariant |accreditations| == n
        invariant forall j | 0 <= j < i :: accreditations[j] == Lapse(before[j], ctx, lender, now)
        invariant forall j | i <= j < n :: accreditations[j] == before[j]
        invariant lapsed == HitIds(hits[..i])
      {
        var a := accreditations[i];
        assert hits[..i + 1][..i] == hits[..i];
        if Overdue(a, ctx, lender, now) {
          accreditations := accreditations[i := a.(status := Lapsed)];
          lapsed := lapsed + [i];
        }
      }
      assert hits[..n] == hits;
      assert accreditations == LapseAll(before, ctx, lender, now);
    }

    method CheckTrainingDeadlines(ctx: Actor, lender: Id, now: Time) returns (r: Result<(), Error>, lapsed: seq<Id>)
      modifies this, audit
      ensures Performed(OnAccreditation(AccreditationOp.CheckTrainingDeadlines(ctx, lender)), now, r)
      ensures r.Ok? ==> lapsed == HitIds(LapseHits(old(accreditations), ctx, lender, now))
    {
      if !ctx.ClientUser? && !ctx.System? {
        return Throw(InsufficientRole), [];
      }
      lapsed := LapseOverdue(ctx, lender, now);
      RecordEach(lapsed, ctx, AccreditationLapsed, now);
      SweepLogsReturnedIds(LapseHits(old(accreditations), ctx, lender, now), ctx, AccreditationLapsed, now);
      r := Ok(());
    }

    // -------------------------------------------------------------- reads

    /** The place before every later row. */
    method FindPlace(history: seq<AuditRow>, row: AuditRow) returns (p: nat)
      ensures p <= |history| && (p == 0 || history[p - 1].occurredAt <= row.occurredAt)
      ensures forall j | p <= j < |history| :: row.occurredAt < history[j].occurredAt
    {
      p := |history|;
      while p > 0 && history[p - 1].occurredAt > row.occurredAt
        invariant 0 <= p <= |history|
        invariant forall j | p <= j < |history| :: row.occurredAt < history[j].occurredAt
      {
        p := p - 1;
      }
    }

    /** The rows about one accreditation up to `asOf`, inserted one by one into time order. */
    method ReadHistory(id: Id, asOf: Time) returns (history: seq<AuditRow>)
      ensures OrderedRead(history, audit.rows, id, asOf)
    {
      history := [];
      for k := 0 to |audit.rows|
        invariant OrderedRead(history, audit.rows[..k], id, asOf)
      {
        hide OrderedRead;
        var row := audit.rows[k];
        assert audit.rows[..k + 1] == audit.rows[..k] + [row];
        var p := FindPlace(history, row);
        OrderedReadExtends(history, audit.rows[..k], row, id, asOf, p);
        if Selected(row, id, asOf) {
          history := history[..p] + [row] + history[p..];
        }
      }
      assert audit.rows[..|audit.rows|] == audit.rows;
    }

    /** Folds a history, skipping the actions that do not change the status. */
    method ReplayHistory(history: seq<AuditRow>) returns (status: Option<AccreditationStatus>)
      ensures status == Replay(history)
    {
      status := None;
      for k := 0 to |history|
        invariant status == Replay(history[..k])
      {
        assert history[..k + 1][..k] == history[..k];
        var mapped := StatusByAction(history[k].action);
        if mapped.Some? {
          status := mapped;
        }
      }
      assert history[..|history|] == history;
    }

    /** Rebuilds the broker's accreditation statuses by folding each one's history up to `asOf`. */
    method ReconstructAsOf(broker: Id, asOf: Time) returns (result: seq<Reconstructed>)
      ensures IsReconstruction(result, accreditations, audit.rows, broker, asOf)
    {
      result := [];
      ghost var histories: seq<seq<AuditRow>> := [];
      assert Listing(accreditations[..0], histories, broker) == [];
      assert HistoriesRead(histories, audit.rows, asOf);
      hide OrderedRead, HistoriesRead, Listing, Replay;
      for i := 0 to |accreditations|
        invariant |histories| == i && HistoriesRead(histories, audit.rows, asOf)
        invariant result == Listing(accreditations[..i], histories, broker)
      {
        assert accreditations[..i + 1] == accreditations[..i] + [accreditations[i]];
        var history := ReadHistory(i, asOf);
        ListingSnoc(accreditations[..i], histories, broker, accreditations[i], history);
        HistoriesReadSnoc(histories, history, audit.rows, asOf);
        histories := histories + [history];
        if accreditations[i].request.broker == broker {
          var status := ReplayHistory(history);
          if status.Some? {
            result := result + [Reconstructed(i, status.value)];
          }
        }
      }
      assert accreditations[..|accreditations|] == accreditations;
    }

    /** The businesses of the broker's affiliations that are active now. */
    method ListActiveBusinesses(broker: Id) returns (businesses: set<Id>)
      ensures businesses == ActiveBusinesses(affiliations, broker)
    {
      businesses := {};
      for i := 0 to |affiliations|
        invariant businesses == ActiveBusinesses(affiliations[..i], broker)
      {
        ActiveBusinessesSnoc(affiliations[..i], affiliations[i], broker);
        assert affiliations[..i + 1] == affiliations[..i] + [affiliations[i]];
        if affiliations[i].broker == broker && affiliations[i].status == AffiliationActive {
          businesses := businesses + {affiliations[i].business};
        }
      }
      assert affiliations[..|affiliations|] == affiliations;
    }

    /** The check results or documents of the reconstruction: the businesses of now, the rows of `asOf`. */
    method ReconstructRecords<P>(table: T.TemporalTable<P>, broker: Id, asOf: Time) returns (ids: seq<Id>)
      ensures forall k, l | 0 <= k < l < |ids| :: ids[k] < ids[l]
      ensures forall i: nat :: i in ids
                <==> && i < |table.rows| && table.rows[i].kind.Some?
                     && table.rows[i].validFrom <= asOf && (table.rows[i].validTo.Some? ==> asOf < table.rows[i].validTo.value)
                     && (|| table.rows[i].subject == T.ProfileSubject(broker)
                         || exists a | 0 <= a < |affiliations| ::
                              affiliations[a].broker == broker && affiliations[a].status == AffiliationActive
                              && table.rows[i].subject == T.BusinessSubject(affiliations[a].business))
    {
      var businesses := ListActiveBusinesses(broker);
      ids := table.SelectAsOf(broker, businesses, asOf);
    }

    /** What an accreditation's captured ruleset still asks for, on the given facts. */
    method GetOutstandingItems(ctx: Actor, id: Id, fact: Fact) returns (r: Result<Outstanding, Error>)
      ensures r == TryOutstandingItems(Contents(), ctx, id, fact)
    {
      if id >= |accreditations| || !MayRead(ctx, accreditations[id]) {
        return Throw(AccreditationNotFound);
      }
      var version := accreditations[id].rulesetVersion;
      if version.None? || version.value >= |rulesets| {
        return Ok(NotConfigured);
      }
      var items := RawOutstandingItems(rulesets[version.value].definition, fact);
      if items.None? {
        return Throw(InvalidRulesetDefinition);
      }
      return Ok(Configured(items.value));
    }
  }

  /**
   * In every run the evaluation never fails: whoever may read an accreditation gets "not
   * configured" exactly when it captured no version, and otherwise the owed groups of the
   * definition it captured, decoded, as they were when it was captured.
   */
  lemma OutstandingItemsNeverFail(later: Run, r: Run, ctx: Actor, id: Id, fact: Fact)
    requires Extends(later, r) && id < |Exec(r).accreditations| && MayRead(ctx, Exec(r).accreditations[id])
    ensures var version := Exec(r).accreditations[id].rulesetVersion;
            TryOutstandingItems(Exec(later), ctx, id, fact)
            == if version.None? then Ok(NotConfigured)
               else if version.value < |Exec(r).rulesets| && DecodeDefinition(Exec(r).rulesets[version.value].definition).Some? then
                 Ok(Configured(OutstandingItems(DecodeDefinition(Exec(r).rulesets[version.value].definition).value, fact)))
               else Throw(InvalidRulesetDefinition)
    ensures TryOutstandingItems(Exec(later), ctx, id, fact).Ok?
  {
    hide Exec, Perform, Platform.Try;
    AccreditationsKeepIdentity(later, r);
    if Exec(r).accreditations[id].rulesetVersion.Some? {
      CapturedRulesetsStayEvaluable(later, r, id, fact);
      RulesetsOnlyMoveForward(later, r);
    }
  }

  /**
   * The list a reconstruction returns at the end of any run: exactly the broker's accreditations
   * that existed at `asOf`, each with the status it had then.
   */
  lemma ReconstructionIsThePast(r: Run, broker: Id, asOf: Time, result: seq<Reconstructed>)
    requires Clocked(r) && IsReconstruction(result, Exec(r).accreditations, Exec(r).audit, broker, asOf)
    ensures var past := Exec(UpTo(r, asOf)).accreditations;
            forall x :: x in result
              <==> x.id < |past| && past[x.id].request.broker == broker && past[x.id].status == x.status
    ensures InTableOrder(result, |Exec(r).accreditations|)
  {
    hide Exec, Perform, Platform.Try, Listing, OrderedRead, Replay;
    var accreditations, past := Exec(r).accreditations, Exec(UpTo(r, asOf)).accreditations;
    var histories :| |histories| == |accreditations| && HistoriesRead(histories, Exec(r).audit, asOf)
                     && result == Listing(accreditations, histories, broker);
    ListingIsInTableOrder(accreditations, histories, broker);
    UpToIsEarlier(r, asOf);
    AccreditationsKeepIdentity(r, UpTo(r, asOf));
    forall x ensures x in result
      <==> x.id < |past| && past[x.id].request.broker == broker && past[x.id].status == x.status
    {
      ListingMembers(accreditations, histories, broker, x);
      if x.id < |accreditations| {
        OrderedReadsReplay(r, x.id, asOf, histories[x.id]);
      }
    }
  }

  lemma {:induction false} UpToIsEarlier(r: Run, t: Time)
    ensures Extends(r, UpTo(r, t))
  {
    if r.Then? && r.at > t {
      UpToIsEarlier(r.prev, t);
    }
  }

  /** The calls up to a date are all those made at or before it. */
  lemma {:induction false} UpToHoldsWhatWasMade(r: Run, t: Time, s: Run)
    requires Clocked(r) && Extends(r, s) && s.Then?
    ensures Extends(UpTo(r, t), s) <==> s.at <= t
  {
    if r.at <= t {
      EarlierCalls(r, s);
    } else if s == r {
      UpToIsBefore(r.prev, t, r);
    } else {
      UpToHoldsWhatWasMade(r.prev, t, s);
    }
  }

  lemma {:induction false} EarlierCalls(r: Run, s: Run)
    requires Clocked(r) && Extends(r, s) && s.Then?
    ensures r.Then? && s.at <= r.at
  {
    if s != r {
      EarlierCalls(r.prev, s);
    }
  }

  lemma {:induction false} UpToIsBefore(r: Run, t: Time, s: Run)
    requires s.Then? && Extends(s.prev, r)
    ensures !Extends(UpTo(r, t), s)
  {
    if Extends(UpTo(r, t), s) {
      UpToIsEarlier(r, t);
      LongerRuns(s.prev, r);
      LongerRuns(r, UpTo(r, t));
      LongerRuns(UpTo(r, t), s);
      assert false;
    }
  }

  function Calls(r: Run): nat {
    if r.Start? then 0 else Calls(r.prev) + 1
  }

  lemma {:induction false} LongerRuns(later: Run, r: Run)
    requires Extends(later, r)
    ensures Calls(r) <= Calls(later)
  {
    if later != r {
      LongerRuns(later.prev, r);
    }
  }

  /** Who may read what is outstanding: the platform's administrators, the lender's side, and the broker. */
  lemma ReadsOutstandingIff(db: Db, ctx: Actor, id: Id, fact: Fact)
    ensures TryOutstandingItems(db, ctx, id, fact) == Throw(AccreditationNotFound)
       <==> id < |db.accreditations| ==>
              var request := db.accreditations[id].request;
              match ctx
              case PlatformAdmin(_) => false
              case System => false
              case ClientUser(_, organisation) => organisation != request.lender
              case Broker(broker) => broker != request.broker
  {
  }
}
