/** When an accreditation call succeeds, and which call gave every accreditation each of its columns. */
module AccreditationOrigins {
  import opened Common
  import Rel = Relationships
  import Rules = Rulesets
  import opened Platform
  import opened Steps
  import opened Reachability
  import opened Completeness
  import opened AffiliationOrigins

  // ---------------------------------------------------------------- one call on an existing row

  /** The system, or a client user of this lender. */
  predicate OfLender(ctx: Actor, lender: Id) {
    ctx == System || (ctx.ClientUser? && ctx.organisation == lender)
  }

  /** The caller may decide: at the senior step, only a client user whose stored role is senior approver. */
  predicate MayTakeDecision(db: Db, ctx: Actor, a: Accreditation) {
    a.step == SeniorApproverStep ==> ctx.ClientUser? && ctx.id in db.roles && db.roles[ctx.id] == SeniorApprover
  }

  /** The calls on one accreditation. */
  predicate OnOne(op: AccreditationOp) {
    !op.ResolveRuleset? && !op.RequestAccreditation? && !op.CheckTrainingDeadlines?
  }

  /** The refusal every call on one accreditation starts with, if any. */
  function Refused(db: Db, ctx: Actor, id: Id): Option<Error> {
    if ctx.Broker? || ctx.PlatformAdmin? then Some(InsufficientRole)
    else if id >= |db.accreditations| || !OfLender(ctx, db.accreditations[id].request.lender) then Some(AccreditationNotFound)
    else None
  }

  /** The refusal of a call on an accreditation its caller reaches, by its status and step. */
  function Unfit(db: Db, op: AccreditationOp): Option<Error>
    requires OnOne(op) && op.id < |db.accreditations|
  {
    var a := db.accreditations[op.id];
    match op
    case Approve(ctx, _) =>
      if a.status != Requested && a.status != ExceptionEscalated then Some(InvalidAccreditationTransition)
      else if !MayTakeDecision(db, ctx, a) then Some(InsufficientRole)
      else None
    case Decline(ctx, _) =>
      if a.status != Requested && a.status != ExceptionEscalated then Some(InvalidAccreditationTransition)
      else if !MayTakeDecision(db, ctx, a) then Some(InsufficientRole)
      else None
    case ActivateAccreditation(_, _) => if a.status != Pending then Some(InvalidAccreditationTransition) else None
    case ConfirmTraining(_, _, _, _) => None
    case _ => if a.status == Declined then Some(InvalidAccreditationTransition) else None
  }

  /** A call on one accreditation succeeds exactly when neither applies, and otherwise throws the first that does. */
  lemma CallSucceedsIff(db: Db, op: AccreditationOp, at: Time)
    requires OnOne(op)
    ensures TryAccreditation(db, op, at).Throw? <==>
              Refused(db, op.ctx, op.id).Some? || (op.id < |db.accreditations| && Unfit(db, op).Some?)
    ensures Refused(db, op.ctx, op.id).Some? ==> TryAccreditation(db, op, at) == Throw(Refused(db, op.ctx, op.id).value)
    ensures Refused(db, op.ctx, op.id).None? && Unfit(db, op).Some? ==> TryAccreditation(db, op, at) == Throw(Unfit(db, op).value)
  {
    hide DeadlineDaysFor;
    match op {
      case Approve(ctx, id) => assert TryAccreditation(db, op, at) == TryApprove(db, ctx, id, at);
      case Decline(ctx, id) => assert TryAccreditation(db, op, at) == TryDecline(db, ctx, id, at);
      case _ =>
    }
  }

  /** What a successful call on one accreditation makes of its row. */
  predicate Makes(op: AccreditationOp, at: Time, a: Accreditation, b: Accreditation)
    requires OnOne(op)
  {
    match op
    case RequestMoreInformation(_, _) => b == a.(status := InformationRequired)
    case Escalate(_, _) => b == a.(status := ExceptionEscalated, step := SeniorApproverStep)
    case Approve(_, _) =>
      b.trainingDeadlineAt.Some? && b == a.(status := Pending, decidedAt := Some(at), trainingDeadlineAt := b.trainingDeadlineAt)
    case Decline(_, _) => b == a.(status := Declined, decidedAt := Some(at))
    case RecordInterviewOutcome(_, _, recommendation) => b == a.(interview := Some(recommendation))
    case ConfirmTraining(_, _, _, _) => b == a
    case ActivateAccreditation(_, _) => b == a.(status := Active, activatedAt := Some(at))
  }

  lemma CallMakes(db: Db, op: AccreditationOp, at: Time)
    requires OnOne(op) && TryAccreditation(db, op, at).Ok?
    ensures var after := TryAccreditation(db, op, at).value.db.accreditations;
            && op.id < |db.accreditations| == |after|
            && Makes(op, at, db.accreditations[op.id], after[op.id])
            && after == db.accreditations[op.id := after[op.id]]
  {
    hide DeadlineDaysFor;
    match op {
      case Approve(ctx, id) => assert TryAccreditation(db, op, at) == TryApprove(db, ctx, id, at);
      case Decline(ctx, id) => assert TryAccreditation(db, op, at) == TryDecline(db, ctx, id, at);
      case _ =>
    }
  }

  // ---------------------------------------------------------------- requests

  /** An active relationship of the two, not ended. */
  predicate Linked(rows: seq<Rel.Relationship>, i: Id, broker: Id, lender: Id) {
    && i < |rows| && rows[i].broker == broker && rows[i].organisation == lender
    && rows[i].status == Rel.RelationshipActive && rows[i].effectiveTo == None
  }

  predicate AnyLinked(rows: seq<Rel.Relationship>, broker: Id, lender: Id) {
    exists i: Id | i < |rows| :: Linked(rows, i, broker, lender)
  }

  lemma {:induction false} FindsLinked(rows: seq<Rel.Relationship>, broker: Id, lender: Id)
    ensures match ActiveRelationship(rows, broker, lender)
            case Some(i) => Linked(rows, i, broker, lender)
            case None => !AnyLinked(rows, broker, lender)
  {
    if rows != [] {
      var n := |rows| - 1;
      FindsLinked(rows[..n], broker, lender);
      if ActiveRelationship(rows, broker, lender).None? {
        forall i: Id | i < |rows| ensures !Linked(rows, i, broker, lender) {
          assert i < n ==> (Linked(rows, i, broker, lender) <==> Linked(rows[..n], i, broker, lender));
        }
      }
    }
  }

  /** The ruleset key of a request: its own lender, brand, role and scope, by the transfer pathway or the new one. */
  predicate KeyedBy(request: Request, key: Rules.Key) {
    && key.organisation == request.lender && key.brand == request.brand && key.role == request.role
    && key.productScope == request.productScope
    && key.pathway == (match request.classification case Transfer => "transfer" case _ => "new")
  }

  /** An accreditation not declined for the same broker, lender, brand, role and product scope. */
  predicate Occupied(accreditations: seq<Accreditation>, request: Request) {
    exists i | 0 <= i < |accreditations| ::
      var r := accreditations[i].request;
      && accreditations[i].status != Declined
      && (r.broker, r.lender, r.brand, r.role, r.productScope)
         == (request.broker, request.lender, request.brand, request.role, request.productScope)
  }

  /** The read the request continues resolved its own key. */
  predicate Continues(db: Db, request: Request, read: nat) {
    read < |db.lookups| && db.lookups[read].RulesetRead? && KeyedBy(request, db.lookups[read].key)
  }

  lemma ScopeIsOccupied(accreditations: seq<Accreditation>, request: Request)
    ensures HasLiveAccreditation(accreditations, request) <==> Occupied(accreditations, request)
  {
    if HasLiveAccreditation(accreditations, request) {
      var i :| 0 <= i < |accreditations| && SameScope(accreditations[i].request, request) && accreditations[i].status != Declined;
      var r := accreditations[i].request;
      assert accreditations[i].status != Declined
          && (r.broker, r.lender, r.brand, r.role, r.productScope)
             == (request.broker, request.lender, request.brand, request.role, request.productScope);
    }
    if Occupied(accreditations, request) {
      var i :| 0 <= i < |accreditations| && accreditations[i].status != Declined
               && accreditations[i].request.broker == request.broker && accreditations[i].request.lender == request.lender
               && accreditations[i].request.brand == request.brand && accreditations[i].request.role == request.role
               && accreditations[i].request.productScope == request.productScope;
      assert SameScope(accreditations[i].request, request);
    }
  }

  /** What fails first of a request, if anything. */
  function RequestRefused(db: Db, ctx: Actor, request: Request, read: nat): Option<Error> {
    if !Continues(db, request, read) then Some(NoSuchRead)
    else if !ActiveIn(db.affiliations, request.broker, request.business) then Some(NoBusinessAffiliation)
    else if !AnyLinked(db.relationships.rows, request.broker, request.lender) then Some(NoActiveRelationship)
    else if ctx != System && ctx != Broker(request.broker) then Some(RowSecurityViolation)
    else if Occupied(db.accreditations, request) then Some(UniqueViolation)
    else None
  }

  /** A request succeeds exactly when nothing fails, and otherwise throws what fails first. */
  lemma RequestSucceedsIff(db: Db, ctx: Actor, request: Request, read: nat, at: Time)
    ensures match RequestRefused(db, ctx, request, read)
            case Some(e) => TryAccreditation(db, RequestAccreditation(ctx, request, read), at) == Throw(e)
            case None => TryAccreditation(db, RequestAccreditation(ctx, request, read), at).Ok?
  {
    FindsLinked(db.relationships.rows, request.broker, request.lender);
    ScopeIsOccupied(db.accreditations, request);
    hide Occupied, HasLiveAccreditation, ActiveRelationship;
    assert ActiveIn(db.affiliations, request.broker, request.business)
       <==> HasActiveAffiliation(db.affiliations, request.broker, request.business);
    if ActiveRelationship(db.relationships.rows, request.broker, request.lender).Some? {
      assert AnyLinked(db.relationships.rows, request.broker, request.lender);
    }
    assert read < |db.lookups| && db.lookups[read].RulesetRead? ==>
             (db.lookups[read].key == KeyOf(request) <==> KeyedBy(request, db.lookups[read].key));
  }

  /**
   * An affiliated caller with a read of its own key is told that there is no active relationship
   * exactly when no row of that broker and that lender is active and open.
   */
  lemma ToldUnlinkedIff(db: Db, ctx: Actor, request: Request, read: nat, at: Time)
    requires Continues(db, request, read) && ActiveIn(db.affiliations, request.broker, request.business)
    ensures TryAccreditation(db, RequestAccreditation(ctx, request, read), at) == Throw(NoActiveRelationship)
       <==> forall i | 0 <= i < |db.relationships.rows| ::
              var row := db.relationships.rows[i];
              !(row.broker == request.broker && row.organisation == request.lender
                && row.status == Rel.RelationshipActive && row.effectiveTo == None)
  {
    RequestSucceedsIff(db, ctx, request, read, at);
    hide TryAccreditation;
    var rows := db.relationships.rows;
    if AnyLinked(rows, request.broker, request.lender) {
      var i: Id :| i < |rows| && Linked(rows, i, request.broker, request.lender);
      assert rows[i].broker == request.broker;
    } else {
      forall i | 0 <= i < |rows|
        ensures !(rows[i].broker == request.broker && rows[i].organisation == request.lender
                  && rows[i].status == Rel.RelationshipActive && rows[i].effectiveTo == None)
      {
        assert !Linked(rows, i, request.broker, request.lender);
      }
    }
  }

  /** The accreditation was asked for in this call: by its broker, affiliated, linked, alone in its scope, and as resolved. */
  predicate AskedFor(db: Db, op: AccreditationOp, i: Id, row: Accreditation) {
    && i == |db.accreditations| && op.RequestAccreditation? && op.request == row.request
    && (op.ctx == System || op.ctx == Broker(row.request.broker))
    && ActiveIn(db.affiliations, row.request.broker, row.request.business)
    && Linked(db.relationships.rows, row.relationship, row.request.broker, row.request.lender)
    && !Occupied(db.accreditations, row.request)
    && Continues(db, row.request, op.read) && db.lookups[op.read].version == row.rulesetVersion
    && row == Accreditation(row.request, row.relationship, row.rulesetVersion, Requested, ReviewerStep, None, None, None, None, None)
  }

  lemma RequestAddsRow(db: Db, op: AccreditationOp, at: Time)
    requires op.RequestAccreditation? && TryAccreditation(db, op, at).Ok?
    ensures var n, after := |db.accreditations|, TryAccreditation(db, op, at).value.db.accreditations;
            |after| == n + 1 && after[..n] == db.accreditations && AskedFor(db, op, n, after[n])
  {
    RequestSucceedsIff(db, op.ctx, op.request, op.read, at);
    FindsLinked(db.relationships.rows, op.request.broker, op.request.lender);
  }

  // ---------------------------------------------------------------- one call on any row

  /** A client user of its lender, or the system, called on this accreditation. */
  predicate CalledOn(db: Db, op: AccreditationOp, at: Time, i: Id, a: Accreditation, b: Accreditation) {
    && OnOne(op) && op.id == i && OfLender(op.ctx, a.request.lender)
    && i < |db.accreditations| && a == db.accreditations[i] && Unfit(db, op).None?
    && Makes(op, at, a, b)
  }

  /** Its own lender's sweep found it pending past its deadline. */
  predicate SweptUp(op: AccreditationOp, at: Time, a: Accreditation, b: Accreditation) {
    && op.CheckTrainingDeadlines? && op.lender == a.request.lender && OfLender(op.ctx, a.request.lender)
    && a.status == Pending && a.trainingDeadlineAt.Some? && a.trainingDeadlineAt.value < at
    && b == a.(status := Lapsed)
  }

  /** Its broker left the business it is held through. */
  predicate LeftBehind(db: Db, op: AffiliationOp, at: Time, a: Accreditation, b: Accreditation) {
    && op.EndAffiliation? && op.broker == a.request.broker
    && op.affiliation < |db.affiliations| && db.affiliations[op.affiliation].broker == a.request.broker
    && db.affiliations[op.affiliation].business == a.request.business && db.affiliations[op.affiliation].status != Ended
    && a.status != Declined && a.status != PartyChangedPending
    && b == a.(status := PartyChangedPending, partyChangedAt := Some(at))
  }

  lemma AccreditationCallTouches(db: Db, op: AccreditationOp, at: Time, i: Id)
    requires TryAccreditation(db, op, at).Ok? && i < |TryAccreditation(db, op, at).value.db.accreditations|
    ensures var b := TryAccreditation(db, op, at).value.db.accreditations[i];
            if i < |db.accreditations| then
              b == db.accreditations[i] || CalledOn(db, op, at, i, db.accreditations[i], b) || SweptUp(op, at, db.accreditations[i], b)
            else AskedFor(db, op, i, b)
  {
    if op.RequestAccreditation? {
      RequestAddsRow(db, op, at);
      hide AskedFor;
      var n, after := |db.accreditations|, TryAccreditation(db, op, at).value.db.accreditations;
      assert i < n ==> after[i] == after[..n][i];
    } else if OnOne(op) {
      CallSucceedsIff(db, op, at);
      CallMakes(db, op, at);
    }
  }

  lemma AffiliationCallTouches(db: Db, op: AffiliationOp, at: Time, i: Id)
    requires TryAffiliation(db, op, at).Ok? && i < |TryAffiliation(db, op, at).value.db.accreditations|
    ensures i < |db.accreditations|
    ensures var b := TryAffiliation(db, op, at).value.db.accreditations[i];
            b == db.accreditations[i] || LeftBehind(db, op, at, db.accreditations[i], b)
  {
  }

  // ---------------------------------------------------------------- whole runs

  /** The last call of the run changed this row as one of the three ways allows. */
  predicate Touched(r: Run, i: Id, a: Accreditation, b: Accreditation)
    requires r.Then?
  {
    || (r.op.OnAccreditation? && CalledOn(Exec(r.prev), r.op.accreditation, r.at, i, a, b))
    || (r.op.OnAccreditation? && SweptUp(r.op.accreditation, r.at, a, b))
    || (r.op.OnAffiliation? && LeftBehind(Exec(r.prev), r.op.affiliation, r.at, a, b))
  }

  /** No call changes an accreditation but its lender's side, or its own broker leaving the business. */
  lemma StepTouches(r: Run, i: Id)
    requires r.Then? && i < |Exec(r).accreditations|
    ensures var db, b := Exec(r.prev), Exec(r).accreditations[i];
            if i < |db.accreditations| then b == db.accreditations[i] || Touched(r, i, db.accreditations[i], b)
            else r.op.OnAccreditation? && AskedFor(db, r.op.accreditation, i, b)
  {
    var db := Exec(r.prev);
    match r.op {
      case OnAccreditation(op) =>
        if TryAccreditation(db, op, r.at).Ok? {
          AccreditationCallTouches(db, op, r.at, i);
        }
      case OnAffiliation(op) =>
        if TryAffiliation(db, op, r.at).Ok? {
          AffiliationCallTouches(db, op, r.at, i);
        }
      case _ =>
    }
  }

  /**
   * Every accreditation was asked for in some call: its broker was active in the business and not
   * yet accredited for the scope, and its relationship was an active one of that broker and lender.
   */
  lemma {:induction false} AccreditationsAreTraced(r: Run, id: Id) returns (s: Run)
    requires id < |Exec(r).accreditations|
    ensures Extends(r, s) && s.Then? && s.op.OnAccreditation? && id < |Exec(s).accreditations|
    ensures AskedFor(Exec(s.prev), s.op.accreditation, id, Exec(s).accreditations[id])
    ensures var a, b := Exec(s).accreditations[id], Exec(r).accreditations[id];
            a.request == b.request && a.relationship == b.relationship && a.rulesetVersion == b.rulesetVersion
  {
    StepTouches(r, id);
    hide Exec, AskedFor, Touched;
    if id < |Exec(r.prev).accreditations| {
      AccreditationsKeepIdentity(r, r.prev);
      s := AccreditationsAreTraced(r.prev, id);
    } else {
      s := r;
    }
  }

  /**
   * In every reachable state an accreditation names a relationship of its own broker and lender,
   * and the relationship was active and open when it was asked for.
   */
  lemma RelationshipIsOfThePair(r: Run, id: Id) returns (s: Run)
    requires id < |Exec(r).accreditations|
    ensures var a, rows := Exec(r).accreditations[id], Exec(r).relationships.rows;
            && a.relationship < |rows|
            && rows[a.relationship].broker == a.request.broker && rows[a.relationship].organisation == a.request.lender
    ensures Extends(r, s) && s.Then? && id == |Exec(s.prev).accreditations|
    ensures Linked(Exec(s.prev).relationships.rows, Exec(r).accreditations[id].relationship,
                   Exec(r).accreditations[id].request.broker, Exec(r).accreditations[id].request.lender)
  {
    s := AccreditationsAreTraced(r, id);
    ExtendsIsTransitive(r, s, s.prev);
    RelationshipsKeepParties(r, s.prev, Exec(r).accreditations[id].relationship);
  }

  lemma {:induction false} RelationshipsKeepParties(later: Run, r: Run, i: Id)
    requires Extends(later, r) && i < |Exec(r).relationships.rows|
    ensures i < |Exec(later).relationships.rows|
    ensures Exec(later).relationships.rows[i].broker == Exec(r).relationships.rows[i].broker
    ensures Exec(later).relationships.rows[i].organisation == Exec(r).relationships.rows[i].organisation
  {
    if later != r {
      RelationshipsKeepParties(later.prev, r, i);
      var db := Exec(later.prev);
      match later.op {
        case OnRelationship(op) => Rel.StepKeepsTerminalRows(db.relationships, op, later.at);
        case _ => StepLeavesRelationships(db, later.op, later.at);
      }
    }
  }

  /** The version an accreditation captured is the one its own key resolved to at some time before it was asked for. */
  lemma CapturedVersionWasCurrent(r: Run, id: Id) returns (s: Run, q: Run, key: Rules.Key)
    requires id < |Exec(r).accreditations|
    ensures Extends(r, s) && s.Then? && id == |Exec(s.prev).accreditations| && Extends(s.prev, q)
    ensures KeyedBy(Exec(r).accreditations[id].request, key)
    ensures IsSo(Exec(q), RulesetRead(key, Exec(r).accreditations[id].rulesetVersion))
  {
    s := AccreditationsAreTraced(r, id);
    var read := s.op.accreditation.read;
    key := Exec(s.prev).lookups[read].key;
    q := ReadsWereSo(s.prev, read);
  }

  /** The last call of the run is this one on accreditation `id`, by its lender's side. */
  predicate DoneTo(r: Run, id: Id, op: AccreditationOp) {
    && r.Then? && r.op == OnAccreditation(op) && OnOne(op) && op.id == id
    && id < |Exec(r.prev).accreditations| && OfLender(op.ctx, Exec(r.prev).accreditations[id].request.lender)
  }

  /** The last call of the run decided accreditation `id`, by someone who might. */
  predicate Decides(r: Run, id: Id) {
    && r.Then? && r.op.OnAccreditation? && DoneTo(r, id, r.op.accreditation)
    && (r.op.accreditation.Approve? || r.op.accreditation.Decline?)
    && MayTakeDecision(Exec(r.prev), r.op.accreditation.ctx, Exec(r.prev).accreditations[id])
  }

  /** Approved: pending, or what became of a pending one. */
  predicate StandsApproved(status: AccreditationStatus) {
    status == Pending || status == Active || status == Lapsed
  }

  lemma DecisionMoves(r: Run, id: Id, a: Accreditation, b: Accreditation)
    requires r.Then? && Touched(r, id, a, b)
    ensures if Decides(r, id) then
              && b.decidedAt == Some(r.at)
              && b.status == if r.op.accreditation.Approve? then Pending else Declined
            else
              && b.decidedAt == a.decidedAt
              && (StandsApproved(b.status) ==> StandsApproved(a.status)) && (b.status == Declined ==> a.status == Declined)
  {
    hide Exec;
  }

  /**
   * Whoever decided, decided at the time on record: it was an approval for what is pending, active
   * or lapsed and a decline for what is declined, and at the senior step its caller was a client
   * user stored as senior approver at that moment.
   */
  lemma {:induction false} DecisionsAreTraced(r: Run, id: Id) returns (s: Run)
    requires id < |Exec(r).accreditations| && Exec(r).accreditations[id].decidedAt.Some?
    ensures Extends(r, s) && Decides(s, id) && Exec(r).accreditations[id].decidedAt == Some(s.at)
    ensures StandsApproved(Exec(r).accreditations[id].status) ==> s.op.accreditation.Approve?
    ensures Exec(r).accreditations[id].status == Declined ==> s.op.accreditation.Decline?
  {
    StepTouches(r, id);
    hide Exec, AskedFor, Touched, Decides;
    if id >= |Exec(r.prev).accreditations| {
    } else if Exec(r).accreditations[id] == Exec(r.prev).accreditations[id] {
      s := DecisionsAreTraced(r.prev, id);
    } else {
      DecisionMoves(r, id, Exec(r.prev).accreditations[id], Exec(r).accreditations[id]);
      if Decides(r, id) {
        s := r;
      } else {
        s := DecisionsAreTraced(r.prev, id);
      }
    }
  }

  // ---------------------------------------------------------------- activations, party changes, interviews

  /** The last call of the run activated accreditation `id`. */
  predicate Activates(r: Run, id: Id) {
    r.Then? && r.op.OnAccreditation? && DoneTo(r, id, r.op.accreditation) && r.op.accreditation.ActivateAccreditation?
  }

  /** The last call of the run ended the live affiliation that accreditation `id` is held through. */
  predicate Leaves(r: Run, id: Id) {
    && r.Then? && r.op.OnAffiliation? && id < |Exec(r.prev).accreditations|
    && var op, a := r.op.affiliation, Exec(r.prev).accreditations[id];
       op.EndAffiliation? && op.broker == a.request.broker && op.affiliation < |Exec(r.prev).affiliations|
       && var left := Exec(r.prev).affiliations[op.affiliation];
          left.broker == a.request.broker && left.business == a.request.business && left.status != Ended
  }

  /** The last call of the run recorded this recommendation of the interview of accreditation `id`. */
  predicate Interviews(r: Run, id: Id, recommendation: string) {
    && r.Then? && r.op.OnAccreditation? && DoneTo(r, id, r.op.accreditation)
    && r.op.accreditation.RecordInterviewOutcome? && r.op.accreditation.recommendation == recommendation
  }

  lemma OtherColumnsMove(r: Run, id: Id, a: Accreditation, b: Accreditation)
    requires r.Then? && Touched(r, id, a, b)
    requires id < |Exec(r.prev).accreditations| && a == Exec(r.prev).accreditations[id]
    ensures if Activates(r, id) then b.activatedAt == Some(r.at) && b.status == Active
            else b.activatedAt == a.activatedAt && (b.status == Active ==> a.status == Active)
    ensures if Leaves(r, id) then b.partyChangedAt == Some(r.at) && b.status == PartyChangedPending
            else b.partyChangedAt == a.partyChangedAt && (b.status == PartyChangedPending ==> a.status == PartyChangedPending)
    ensures b.interview == a.interview || (b.interview.Some? && Interviews(r, id, b.interview.value))
  {
    hide Exec;
  }

  /** An activation on record was made by the lender's side, then. */
  lemma {:induction false} ActivationsAreTraced(r: Run, id: Id) returns (s: Run)
    requires id < |Exec(r).accreditations| && Exec(r).accreditations[id].activatedAt.Some?
    ensures Extends(r, s) && Activates(s, id) && Exec(r).accreditations[id].activatedAt == Some(s.at)
  {
    StepTouches(r, id);
    hide Exec, Touched, Activates, Leaves, Interviews;
    if id < |Exec(r.prev).accreditations| {
      if Exec(r).accreditations[id] != Exec(r.prev).accreditations[id] {
        OtherColumnsMove(r, id, Exec(r.prev).accreditations[id], Exec(r).accreditations[id]);
      }
      if Exec(r).accreditations[id].activatedAt == Exec(r.prev).accreditations[id].activatedAt {
        s := ActivationsAreTraced(r.prev, id);
      } else {
        s := r;
      }
    }
  }

  /** A party change on record was its own broker leaving the business, then. */
  lemma {:induction false} PartyChangesAreTraced(r: Run, id: Id) returns (s: Run)
    requires id < |Exec(r).accreditations| && Exec(r).accreditations[id].partyChangedAt.Some?
    ensures Extends(r, s) && Leaves(s, id) && Exec(r).accreditations[id].partyChangedAt == Some(s.at)
  {
    StepTouches(r, id);
    hide Exec, Touched, Activates, Leaves, Interviews;
    if id < |Exec(r.prev).accreditations| {
      if Exec(r).accreditations[id] != Exec(r.prev).accreditations[id] {
        OtherColumnsMove(r, id, Exec(r.prev).accreditations[id], Exec(r).accreditations[id]);
      }
      if Exec(r).accreditations[id].partyChangedAt == Exec(r.prev).accreditations[id].partyChangedAt {
        s := PartyChangesAreTraced(r.prev, id);
      } else {
        s := r;
      }
    }
  }

  /** A recommendation on record is one the lender's side gave. */
  lemma {:induction false} InterviewsAreTraced(r: Run, id: Id) returns (s: Run)
    requires id < |Exec(r).accreditations| && Exec(r).accreditations[id].interview.Some?
    ensures Extends(r, s) && Interviews(s, id, Exec(r).accreditations[id].interview.value)
  {
    StepTouches(r, id);
    hide Exec, Touched, Activates, Leaves, Interviews;
    if id < |Exec(r.prev).accreditations| {
      if Exec(r).accreditations[id] != Exec(r.prev).accreditations[id] {
        OtherColumnsMove(r, id, Exec(r.prev).accreditations[id], Exec(r).accreditations[id]);
      }
      if Exec(r).accreditations[id].interview == Exec(r.prev).accreditations[id].interview {
        s := InterviewsAreTraced(r.prev, id);
      } else {
        s := r;
      }
    }
  }

  // ---------------------------------------------------------------- confirmations and roles

  lemma CallConfirms(db: Db, op: AccreditationOp, at: Time)
    requires TryAccreditation(db, op, at).Ok?
    ensures TryAccreditation(db, op, at).value.db.confirmations
         == if op.ConfirmTraining? && (op.id, op.kind) !in db.confirmations
            then db.confirmations[(op.id, op.kind) := Confirmation(op.ctx, op.notes)] else db.confirmations
  {
  }

  lemma AffiliationsConfirmNothing(db: Db, op: AffiliationOp, at: Time)
    requires TryAffiliation(db, op, at).Ok?
    ensures TryAffiliation(db, op, at).value.db.confirmations == db.confirmations
  {
  }

  /** A confirmation on record was given by the lender's side in this call, with these notes, when there was none. */
  predicate ConfirmsTraining(r: Run, id: Id, kind: TrainingKind, c: Confirmation) {
    && r.Then? && r.op == OnAccreditation(ConfirmTraining(c.actor, id, kind, c.notes))
    && id < |Exec(r.prev).accreditations| && OfLender(c.actor, Exec(r.prev).accreditations[id].request.lender)
    && (id, kind) !in Exec(r.prev).confirmations
  }

  lemma StepConfirms(r: Run, id: Id, kind: TrainingKind)
    requires r.Then? && (id, kind) in Exec(r).confirmations
    ensures if (id, kind) in Exec(r.prev).confirmations then Exec(r).confirmations[(id, kind)] == Exec(r.prev).confirmations[(id, kind)]
            else ConfirmsTraining(r, id, kind, Exec(r).confirmations[(id, kind)])
  {
    var db := Exec(r.prev);
    match r.op {
      case OnAccreditation(op) =>
        if TryAccreditation(db, op, r.at).Ok? {
          CallConfirms(db, op, r.at);
          if OnOne(op) {
            CallSucceedsIff(db, op, r.at);
          }
        }
      case OnAffiliation(op) =>
        if TryAffiliation(db, op, r.at).Ok? {
          AffiliationsConfirmNothing(db, op, r.at);
        }
      case _ =>
    }
  }

  /** Every confirmation names the caller and the notes of the first call that gave it. */
  lemma {:induction false} ConfirmationsAreTraced(r: Run, id: Id, kind: TrainingKind) returns (s: Run)
    requires (id, kind) in Exec(r).confirmations
    ensures Extends(r, s) && ConfirmsTraining(s, id, kind, Exec(r).confirmations[(id, kind)])
  {
    StepConfirms(r, id, kind);
    hide Exec;
    if (id, kind) in Exec(r.prev).confirmations {
      s := ConfirmationsAreTraced(r.prev, id, kind);
    } else {
      s := r;
    }
  }

  /** The role last given to a client user, if any. */
  function LastRole(r: Run, user: Id): Option<Role> {
    match r
    case Start => None
    case Then(prev, op, _) => if op.UpdateClientUserRole? && op.user == user then Some(op.role) else LastRole(prev, user)
  }

  lemma StepKeepsRole(db: Db, op: Op, at: Time, user: Id)
    ensures Perform(db, op, at).roles == if op.UpdateClientUserRole? then db.roles[op.user := op.role] else db.roles
  {
    match op {
      case OnAccreditation(a) => AccreditationsLeaveAffiliations(db, a, at);
      case OnAffiliation(a) => AffiliationsLeaveTables(db, a, at);
      case _ =>
    }
  }

  /** The stored role, which the decision check reads, is the one last given. */
  lemma {:induction false} RolesAreLastGiven(r: Run, user: Id)
    ensures match LastRole(r, user)
            case Some(role) => user in Exec(r).roles && Exec(r).roles[user] == role
            case None => user !in Exec(r).roles
  {
    if r.Then? {
      StepKeepsRole(Exec(r.prev), r.op, r.at, user);
      hide Perform;
      RolesAreLastGiven(r.prev, user);
    }
  }
}
