/**
 * The accreditation platform as one state machine: business affiliations, relationships,
 * rulesets, client-user roles, accreditations and the audit log, with every repository call as
 * one serial transaction (or two, where the call opens two).
 */
module Platform {
  import opened Common
  import opened Audit
  import Rel = Relationships
  import Rules = Rulesets
  import opened RulesetDefinitions
  import opened BusinessStatuses

  // ---------------------------------------------------------------- tables

  datatype AffiliationStatus = PendingConfirmation | AffiliationActive | Ended

  datatype Affiliation = Affiliation(
    broker: Id, business: Id, status: AffiliationStatus, endedAt: Option<Time>, endReason: Option<string>)

  datatype Role = SeniorApprover | OtherRole

  datatype Classification = NewBrokerIntroducer | NewReferrerIntroducer | Transfer | AddOn

  datatype AccreditationStatus =
    | Requested | InformationRequired | ExceptionEscalated | Declined
    | Pending | PartyChangedPending | Active | Lapsed

  datatype DecisionStep = ReviewerStep | SeniorApproverStep

  datatype Request = Request(
    broker: Id, lender: Id, business: Id, classification: Classification,
    brand: string, role: string, productScope: string)

  datatype Accreditation = Accreditation(
    request: Request,
    relationship: Id,
    rulesetVersion: Option<Id>,
    status: AccreditationStatus,
    step: DecisionStep,
    interview: Option<string>,
    partyChangedAt: Option<Time>,
    trainingDeadlineAt: Option<Time>,
    activatedAt: Option<Time>,
    decidedAt: Option<Time>)

  datatype Decision = Decision(accreditation: Id, actor: Actor, kind: Action, createdAt: Time)

  datatype TrainingKind = PlatformTraining | ProductTraining

  /** Who confirmed a kind of training, and the notes given. */
  datatype Confirmation = Confirmation(actor: Actor, notes: Option<string>)

  /**
   * What a call that opens two transactions remembers between them. The second transaction may
   * run in any later state, so other calls can come in between.
   */
  datatype Read =
    | RulesetRead(key: Rules.Key, version: Option<Id>)
    | BusinessStatusRead(business: Id, status: Option<BusinessStatus>)

  datatype Db = Db(
    businesses: seq<BusinessStatus>,
    affiliations: seq<Affiliation>,
    roles: map<Id, Role>,
    relationships: Rel.Table,
    rulesets: seq<Rules.RulesetVersion>,
    lookups: seq<Read>,
    accreditations: seq<Accreditation>,
    decisions: seq<Decision>,
    confirmations: map<(Id, TrainingKind), Confirmation>,
    platformIds: map<Id, Id>,
    audit: seq<AuditRow>)

  const EMPTY := Db([], [], map[], Rel.Table([], []), [], [], [], [], map[], map[], [])

  // ---------------------------------------------------------------- calls

  datatype AffiliationOp =
    | CreateBusiness(broker: Id)
    | SetBusinessStatus(business: Id, status: BusinessStatus)
    | ReadBusinessStatus(business: Id)
    | RequestAffiliation(broker: Id, business: Id, read: nat)
    | ConfirmAffiliation(broker: Id, business: Id, affiliation: Id)
    | EndAffiliation(broker: Id, affiliation: Id, reason: Option<string>)

  datatype AccreditationOp =
    | ResolveRuleset(key: Rules.Key)
    | RequestAccreditation(ctx: Actor, request: Request, read: nat)
    | RequestMoreInformation(ctx: Actor, id: Id)
    | Escalate(ctx: Actor, id: Id)
    | Approve(ctx: Actor, id: Id)
    | Decline(ctx: Actor, id: Id)
    | RecordInterviewOutcome(ctx: Actor, id: Id, recommendation: string)
    | ConfirmTraining(ctx: Actor, id: Id, kind: TrainingKind, notes: Option<string>)
    | ActivateAccreditation(ctx: Actor, id: Id)
    | CheckTrainingDeadlines(ctx: Actor, lender: Id)

  datatype Op =
    | OnAffiliation(affiliation: AffiliationOp)
    | OnAccreditation(accreditation: AccreditationOp)
    | OnRelationship(relationship: Rel.RelationshipOp)
    | OnRuleset(ruleset: Rules.RulesetOp)
    | UpdateClientUserRole(ctx: Actor, user: Id, role: Role)

  /** A successful call: the tables it leaves, and the rows it appends to the audit log. */
  datatype Effect = Effect(db: Db, rows: seq<AuditRow>)

  function Row(at: Time, actor: Actor, action: Action, subjectType: SubjectType, id: Id): seq<AuditRow> {
    [AuditRow(at, actor, action, subjectType, id)]
  }

  function AccreditationRow(at: Time, actor: Actor, action: Action, id: Id): seq<AuditRow> {
    Row(at, actor, action, AccreditationSubject, id)
  }

  // ---------------------------------------------------------------- affiliations

  predicate IsLive(a: Affiliation) {
    a.status == AffiliationActive || a.status == PendingConfirmation
  }

  predicate IsPair(a: Affiliation, broker: Id, business: Id) {
    a.broker == broker && a.business == business
  }

  predicate HasLiveAffiliation(affiliations: seq<Affiliation>, broker: Id, business: Id) {
    exists i | 0 <= i < |affiliations| :: IsPair(affiliations[i], broker, business) && IsLive(affiliations[i])
  }

  predicate HasActiveAffiliation(affiliations: seq<Affiliation>, broker: Id, business: Id) {
    exists i | 0 <= i < |affiliations| ::
      IsPair(affiliations[i], broker, business) && affiliations[i].status == AffiliationActive
  }

  /** The businesses a broker is active in. */
  function ActiveBusinesses(affiliations: seq<Affiliation>, broker: Id): set<Id> {
    set i | 0 <= i < |affiliations| && affiliations[i].broker == broker && affiliations[i].status == AffiliationActive ::
      affiliations[i].business
  }

  /** The accreditations the affiliation's end flags: held through the pair, neither declined nor already flagged. */
  predicate HeldThrough(a: Accreditation, broker: Id, business: Id) {
    && a.request.broker == broker && a.request.business == business
    && a.status != Declined && a.status != PartyChangedPending
  }

  function Flag(a: Accreditation, broker: Id, business: Id, at: Time): Accreditation {
    if HeldThrough(a, broker, business) then a.(status := PartyChangedPending, partyChangedAt := Some(at)) else a
  }

  /** One audit row for each row an UPDATE touched. */
  function SweepRows(hits: seq<bool>, actor: Actor, action: Action, at: Time): seq<AuditRow> {
    if hits == [] then []
    else
      SweepRows(hits[..|hits| - 1], actor, action, at)
      + if hits[|hits| - 1] then AccreditationRow(at, actor, action, |hits| - 1) else []
  }

  lemma SweepSnoc(front: seq<bool>, hit: bool, actor: Actor, action: Action, at: Time)
    ensures SweepRows(front + [hit], actor, action, at)
         == SweepRows(front, actor, action, at) + if hit then AccreditationRow(at, actor, action, |front|) else []
  {
    assert (front + [hit])[..|front|] == front;
  }

  function FlagHits(accreditations: seq<Accreditation>, broker: Id, business: Id): seq<bool> {
    seq(|accreditations|, i requires 0 <= i < |accreditations| => HeldThrough(accreditations[i], broker, business))
  }

  function FlagAll(accreditations: seq<Accreditation>, broker: Id, business: Id, at: Time): seq<Accreditation> {
    seq(|accreditations|, i requires 0 <= i < |accreditations| => Flag(accreditations[i], broker, business, at))
  }

  function TryEndAffiliation(db: Db, broker: Id, id: Id, reason: Option<string>, at: Time): Result<Effect, Error> {
    if id >= |db.affiliations| || db.affiliations[id].broker != broker || !IsLive(db.affiliations[id]) then
      Throw(AffiliationNotFound)
    else
      var a := db.affiliations[id];
      Ok(Effect(
        db.(affiliations := db.affiliations[id := a.(status := Ended, endedAt := Some(at), endReason := reason)],
            accreditations := FlagAll(db.accreditations, broker, a.business, at)),
        Row(at, Broker(broker), AffiliationEnded, AffiliationSubject, id)
        + SweepRows(FlagHits(db.accreditations, broker, a.business), Broker(broker), AccreditationPartyChanged, at)))
  }

  function TryConfirmAffiliation(db: Db, broker: Id, business: Id, id: Id, at: Time): Result<Effect, Error> {
    if !HasActiveAffiliation(db.affiliations, broker, business) then Throw(NotAffiliated)
    else if id >= |db.affiliations| || db.affiliations[id].business != business then Throw(AffiliationNotFound)
    else if db.affiliations[id].broker == broker then Throw(CannotConfirmOwnAffiliation)
    else if db.affiliations[id].status != PendingConfirmation then Throw(AffiliationNotPending)
    else
      Ok(Effect(db.(affiliations := db.affiliations[id := db.affiliations[id].(status := AffiliationActive)]),
                Row(at, Broker(broker), AffiliationConfirmed, AffiliationSubject, id)))
  }

  function TryRequestAffiliation(db: Db, broker: Id, business: Id, read: nat, at: Time): Result<Effect, Error> {
    if read >= |db.lookups| || !db.lookups[read].BusinessStatusRead? || db.lookups[read].business != business then Throw(NoSuchRead)
    else if db.lookups[read].status == None then Throw(BusinessNotFound)
    else if db.lookups[read].status.value != Verified && db.lookups[read].status.value != BusinessActive then
      Throw(BusinessNotAffiliatable)
    else if HasLiveAffiliation(db.affiliations, broker, business) then Throw(AlreadyAffiliated)
    else
      Ok(Effect(db.(affiliations := db.affiliations + [Affiliation(broker, business, PendingConfirmation, None, None)]),
                Row(at, Broker(broker), AffiliationRequested, AffiliationSubject, |db.affiliations|)))
  }

  function TryAffiliation(db: Db, op: AffiliationOp, at: Time): Result<Effect, Error> {
    match op
    case CreateBusiness(broker) =>
      Ok(Effect(db.(businesses := db.businesses + [Draft],
                    affiliations := db.affiliations + [Affiliation(broker, |db.businesses|, AffiliationActive, None, None)]),
                Row(at, Broker(broker), BusinessCreated, BusinessSubject, |db.businesses|)))
    case SetBusinessStatus(business, status) =>
      if business >= |db.businesses| then Throw(BusinessNotFound)
      else Ok(Effect(db.(businesses := db.businesses[business := status]),
                     Row(at, System, BusinessStatusChanged, BusinessSubject, business)))
    case ReadBusinessStatus(business) =>
      var status := if business < |db.businesses| then Some(db.businesses[business]) else None;
      Ok(Effect(db.(lookups := db.lookups + [BusinessStatusRead(business, status)]), []))
    case RequestAffiliation(broker, business, read) => TryRequestAffiliation(db, broker, business, read, at)
    case ConfirmAffiliation(broker, business, id) => TryConfirmAffiliation(db, broker, business, id, at)
    case EndAffiliation(broker, id, reason) => TryEndAffiliation(db, broker, id, reason, at)
  }

  // ---------------------------------------------------------------- accreditations

  predicate LenderSide(ctx: Actor) {
    ctx.ClientUser? || ctx.System?
  }

  /** The row policy on accreditations: a client user reads and updates its own organisation's rows. */
  predicate Reaches(ctx: Actor, a: Accreditation) {
    ctx.System? || (ctx.ClientUser? && ctx.organisation == a.request.lender)
  }

  /** The role check and the row lookup every lender-side call starts with. */
  function Lookup(db: Db, ctx: Actor, id: Id): Result<Accreditation, Error> {
    if !LenderSide(ctx) then Throw(InsufficientRole)
    else if id >= |db.accreditations| || !Reaches(ctx, db.accreditations[id]) then Throw(AccreditationNotFound)
    else Ok(db.accreditations[id])
  }

  /** The role is read from the client users table, never from the caller. */
  predicate IsSenior(roles: map<Id, Role>, ctx: Actor) {
    ctx.ClientUser? && ctx.id in roles && roles[ctx.id] == SeniorApprover
  }

  predicate CanDecide(roles: map<Id, Role>, ctx: Actor, a: Accreditation) {
    a.step == SeniorApproverStep ==> IsSenior(roles, ctx)
  }

  predicate Decidable(a: Accreditation) {
    a.status == Requested || a.status == ExceptionEscalated
  }

  const DEFAULT_TRAINING_DEADLINE_DAYS: real := 60.0

  /** The deadline length a definition sets, read defensively. */
  function DeadlineDays(definition: Json): real {
    var training := Get(definition, "training");
    if training.None? then DEFAULT_TRAINING_DEADLINE_DAYS
    else
      var days := Get(training.value, "deadlineDays");
      if days.Some? && days.value.JNumber? then days.value.number else DEFAULT_TRAINING_DEADLINE_DAYS
  }

  function DeadlineDaysFor(rulesets: seq<Rules.RulesetVersion>, version: Option<Id>): real {
    if version.Some? && version.value < |rulesets| then DeadlineDays(rulesets[version.value].definition)
    else DEFAULT_TRAINING_DEADLINE_DAYS
  }

  /** The change to one accreditation, its decision row if the call records one, and its audit row. */
  function Change(db: Db, ctx: Actor, id: Id, a: Accreditation, action: Action, decided: bool, at: Time): Effect
    requires id < |db.accreditations|
  {
    Effect(db.(accreditations := db.accreditations[id := a],
               decisions := if decided then db.decisions + [Decision(id, ctx, action, at)] else db.decisions),
           AccreditationRow(at, ctx, action, id))
  }

  function KeyOf(request: Request): Rules.Key {
    Rules.Key(request.lender, request.brand, request.role, request.productScope,
              if request.classification == Transfer then "transfer" else "new")
  }

  /** The unique index on live accreditations: same broker, lender, brand, role and product scope. */
  predicate SameScope(r: Request, s: Request) {
    r.broker == s.broker && r.lender == s.lender && r.brand == s.brand && r.role == s.role && r.productScope == s.productScope
  }

  predicate HasLiveAccreditation(accreditations: seq<Accreditation>, request: Request) {
    exists i | 0 <= i < |accreditations| :: SameScope(accreditations[i].request, request) && accreditations[i].status != Declined
  }

  /** The first active relationship the query returns. */
  function ActiveRelationship(rows: seq<Rel.Relationship>, broker: Id, lender: Id): Option<Id> {
    if rows == [] then None
    else
      var before := ActiveRelationship(rows[..|rows| - 1], broker, lender);
      var last := rows[|rows| - 1];
      if before.Some? then before
      else if last.broker == broker && last.organisation == lender
              && last.status == Rel.RelationshipActive && last.effectiveTo == None then Some(|rows| - 1)
      else None
  }

  function NewAccreditation(request: Request, relationship: Id, version: Option<Id>): Accreditation {
    Accreditation(request, relationship, version, Requested, ReviewerStep, None, None, None, None, None)
  }

  function TryRequestAccreditation(db: Db, ctx: Actor, request: Request, read: nat, at: Time): Result<Effect, Error> {
    if read >= |db.lookups| || !db.lookups[read].RulesetRead? || db.lookups[read].key != KeyOf(request) then Throw(NoSuchRead)
    else if !HasActiveAffiliation(db.affiliations, request.broker, request.business) then Throw(NoBusinessAffiliation)
    else
      var relationship := ActiveRelationship(db.relationships.rows, request.broker, request.lender);
      if relationship.None? then Throw(NoActiveRelationship)
      else if ctx != System && ctx != Broker(request.broker) then Throw(RowSecurityViolation)
      else if HasLiveAccreditation(db.accreditations, request) then Throw(UniqueViolation)
      else
        Ok(Effect(db.(accreditations := db.accreditations
                                        + [NewAccreditation(request, relationship.value, db.lookups[read].version)]),
                  AccreditationRow(at, Broker(request.broker), AccreditationRequested, |db.accreditations|)))
  }

  function TryRequestMoreInformation(db: Db, ctx: Actor, id: Id, at: Time): Result<Effect, Error> {
    match Lookup(db, ctx, id)
    case Throw(e) => Throw(e)
    case Ok(a) =>
      if a.status == Declined then Throw(InvalidAccreditationTransition)
      else Ok(Change(db, ctx, id, a.(status := InformationRequired), AccreditationInformationRequested, true, at))
  }

  function TryEscalate(db: Db, ctx: Actor, id: Id, at: Time): Result<Effect, Error> {
    match Lookup(db, ctx, id)
    case Throw(e) => Throw(e)
    case Ok(a) =>
      if a.status == Declined then Throw(InvalidAccreditationTransition)
      else Ok(Change(db, ctx, id, a.(status := ExceptionEscalated, step := SeniorApproverStep), AccreditationEscalated, true, at))
  }

  function TryApprove(db: Db, ctx: Actor, id: Id, at: Time): Result<Effect, Error> {
    match Lookup(db, ctx, id)
    case Throw(e) => Throw(e)
    case Ok(a) =>
      if !Decidable(a) then Throw(InvalidAccreditationTransition)
      else if !CanDecide(db.roles, ctx, a) then Throw(InsufficientRole)
      else
        var deadline := at + DeadlineDaysFor(db.rulesets, a.rulesetVersion);
        Ok(Change(db, ctx, id, a.(status := Pending, decidedAt := Some(at), trainingDeadlineAt := Some(deadline)),
                  AccreditationApproved, true, at))
  }

  function TryDecline(db: Db, ctx: Actor, id: Id, at: Time): Result<Effect, Error> {
    match Lookup(db, ctx, id)
    case Throw(e) => Throw(e)
    case Ok(a) =>
      if !Decidable(a) then Throw(InvalidAccreditationTransition)
      else if !CanDecide(db.roles, ctx, a) then Throw(InsufficientRole)
      else Ok(Change(db, ctx, id, a.(status := Declined, decidedAt := Some(at)), AccreditationDeclined, true, at))
  }

  function TryRecordInterviewOutcome(db: Db, ctx: Actor, id: Id, recommendation: string, at: Time): Result<Effect, Error> {
    match Lookup(db, ctx, id)
    case Throw(e) => Throw(e)
    case Ok(a) =>
      if a.status == Declined then Throw(InvalidAccreditationTransition)
      else Ok(Change(db, ctx, id, a.(interview := Some(recommendation)), AccreditationInterviewRecorded, true, at))
  }

  /** A kind already confirmed is left as it is; the audit row is written either way. */
  function TryConfirmTraining(db: Db, ctx: Actor, id: Id, kind: TrainingKind, notes: Option<string>, at: Time): Result<Effect, Error> {
    match Lookup(db, ctx, id)
    case Throw(e) => Throw(e)
    case Ok(a) =>
      var confirmed := if (id, kind) in db.confirmations then db.confirmations
                       else db.confirmations[(id, kind) := Confirmation(ctx, notes)];
      Ok(Effect(db.(confirmations := confirmed), AccreditationRow(at, ctx, AccreditationTrainingConfirmed, id)))
  }

  /** A broker's platform identifier is generated at its first activation anywhere, and kept. */
  function EnsurePlatformId(ids: map<Id, Id>, broker: Id): map<Id, Id> {
    if broker in ids then ids else ids[broker := |ids|]
  }

  function TryActivate(db: Db, ctx: Actor, id: Id, at: Time): Result<Effect, Error> {
    match Lookup(db, ctx, id)
    case Throw(e) => Throw(e)
    case Ok(a) =>
      if a.status != Pending then Throw(InvalidAccreditationTransition)
      else
        var ids := EnsurePlatformId(db.platformIds, a.request.broker);
        Ok(Change(db.(platformIds := ids), ctx, id, a.(status := Active, activatedAt := Some(at)), AccreditationActivated, false, at))
  }

  predicate Overdue(a: Accreditation, ctx: Actor, lender: Id, at: Time) {
    && a.request.lender == lender && Reaches(ctx, a) && a.status == Pending
    && a.trainingDeadlineAt.Some? && a.trainingDeadlineAt.value < at
  }

  function Lapse(a: Accreditation, ctx: Actor, lender: Id, at: Time): Accreditation {
    if Overdue(a, ctx, lender, at) then a.(status := Lapsed) else a
  }

  function LapseHits(accreditations: seq<Accreditation>, ctx: Actor, lender: Id, at: Time): seq<bool> {
    seq(|accreditations|, i requires 0 <= i < |accreditations| => Overdue(accreditations[i], ctx, lender, at))
  }

  function LapseAll(accreditations: seq<Accreditation>, ctx: Actor, lender: Id, at: Time): seq<Accreditation> {
    seq(|accreditations|, i requires 0 <= i < |accreditations| => Lapse(accreditations[i], ctx, lender, at))
  }

  function TryCheckTrainingDeadlines(db: Db, ctx: Actor, lender: Id, at: Time): Result<Effect, Error> {
    if !LenderSide(ctx) then Throw(InsufficientRole)
    else
      Ok(Effect(db.(accreditations := LapseAll(db.accreditations, ctx, lender, at)),
                SweepRows(LapseHits(db.accreditations, ctx, lender, at), ctx, AccreditationLapsed, at)))
  }

  function TryAccreditation(db: Db, op: AccreditationOp, at: Time): Result<Effect, Error> {
    match op
    case ResolveRuleset(key) =>
      Ok(Effect(db.(lookups := db.lookups + [RulesetRead(key, Rules.Resolve(db.rulesets, key))]), []))
    case RequestAccreditation(ctx, request, read) => TryRequestAccreditation(db, ctx, request, read, at)
    case RequestMoreInformation(ctx, id) => TryRequestMoreInformation(db, ctx, id, at)
    case Escalate(ctx, id) => TryEscalate(db, ctx, id, at)
    case Approve(ctx, id) => TryApprove(db, ctx, id, at)
    case Decline(ctx, id) => TryDecline(db, ctx, id, at)
    case RecordInterviewOutcome(ctx, id, recommendation) => TryRecordInterviewOutcome(db, ctx, id, recommendation, at)
    case ConfirmTraining(ctx, id, kind, notes) => TryConfirmTraining(db, ctx, id, kind, notes, at)
    case ActivateAccreditation(ctx, id) => TryActivate(db, ctx, id, at)
    case CheckTrainingDeadlines(ctx, lender) => TryCheckTrainingDeadlines(db, ctx, lender, at)
  }

  // ---------------------------------------------------------------- the whole machine

  function TryRelationship(db: Db, op: Rel.RelationshipOp, at: Time): Result<Effect, Error> {
    match Rel.Try(db.relationships, op, at)
    case Throw(e) => Throw(e)
    case Ok(effect) => Ok(Effect(db.(relationships := effect.table), [effect.row]))
  }

  function TryRuleset(db: Db, op: Rules.RulesetOp, at: Time): Result<Effect, Error> {
    match Rules.Try(db.rulesets, op, at)
    case Throw(e) => Throw(e)
    case Ok(effect) => Ok(Effect(db.(rulesets := effect.rows), [effect.row]))
  }

  function TryUpdateClientUserRole(db: Db, ctx: Actor, user: Id, role: Role, at: Time): Result<Effect, Error> {
    Ok(Effect(db.(roles := db.roles[user := role]), Row(at, ctx, ClientUserRoleChanged, ClientUserSubject, user)))
  }

  function Try(db: Db, op: Op, at: Time): Result<Effect, Error> {
    match op
    case OnAffiliation(a) => TryAffiliation(db, a, at)
    case OnAccreditation(a) => TryAccreditation(db, a, at)
    case OnRelationship(r) => TryRelationship(db, r, at)
    case OnRuleset(r) => TryRuleset(db, r, at)
    case UpdateClientUserRole(ctx, user, role) => TryUpdateClientUserRole(db, ctx, user, role, at)
  }

  /** The state a transaction leaves: its effect with its audit rows, or the state it began in. */
  function Perform(db: Db, op: Op, at: Time): Db {
    match Try(db, op, at)
    case Throw(_) => db
    case Ok(effect) => effect.db.(audit := db.audit + effect.rows)
  }

  /** The audit rows the call appends. */
  function Appended(db: Db, op: Op, at: Time): seq<AuditRow> {
    match Try(db, op, at)
    case Throw(_) => []
    case Ok(effect) => effect.rows
  }

  /** A run: the calls made so far, each with its transaction time. */
  datatype Run = Start | Then(prev: Run, op: Op, at: Time)

  function Exec(r: Run): Db {
    match r
    case Start => EMPTY
    case Then(prev, op, at) => Perform(Exec(prev), op, at)
  }

  /** `now()` strictly increases from one transaction to the next. */
  predicate Clocked(r: Run) {
    r.Then? ==> Clocked(r.prev) && (r.prev.Then? ==> r.prev.at < r.at)
  }

  /** `later` continues `r`. */
  predicate Extends(later: Run, r: Run) {
    later == r || (later.Then? && Extends(later.prev, r))
  }

  /** The calls made at or before `t`. */
  function UpTo(r: Run, t: Time): Run {
    if r.Start? || r.at <= t then r else UpTo(r.prev, t)
  }
}
