/** The platform's histories are words of the automaton, and the log replays to the status column. */
module Lifecycle {
  import opened Common
  import opened Audit
  import opened Platform
  import opened Automaton

  // ---------------------------------------------------------------- one step

  /** A call moves one accreditation along the automaton by exactly the events it logs for it. */
  ghost predicate Follows(db: Db, op: Op, at: Time, id: Id) {
    var events := StepEvents(db, op, at, id);
    var db' := Perform(db, op, at);
    || (events == [] && View(db', id) == View(db, id))
    || (|events| == 1 && View(db', id) == Delta(View(db, id), events[0]) && View(db', id) != Stuck)
  }

  /** The events and the final view of a call, spelled out, decide whether it follows the automaton. */
  lemma FollowsFrom(db: Db, op: Op, at: Time, id: Id, effect: Effect, senior: bool)
    requires Try(db, op, at) == Ok(effect) && senior == IsSenior(db.roles, DecidingActor(op))
    requires var events := EventsIn(effect.rows, id, senior);
             || (events == [] && View(effect.db, id) == View(db, id))
             || (|events| == 1 && View(effect.db, id) == Delta(View(db, id), events[0]) && View(effect.db, id) != Stuck)
    ensures Follows(db, op, at, id)
  {
    assert View(Perform(db, op, at), id) == View(effect.db, id);
  }

  /** An unrelated row and then a sweep show one accreditation just the sweep's event. */
  lemma RowThenSweep(row: AuditRow, hits: seq<bool>, actor: Actor, at: Time, id: Id)
    requires row.subjectType != AccreditationSubject
    ensures EventsIn([row] + SweepRows(hits, actor, AccreditationPartyChanged, at), id, false)
         == if id < |hits| && hits[id] then [EvPartyChanged] else []
  {
    EventsInConcat([row], SweepRows(hits, actor, AccreditationPartyChanged, at), id, false);
    EventsInOne(row, id, false);
    EventsInSweep(hits, actor, AccreditationPartyChanged, at, id, false, EvPartyChanged);
    assert RowEvents(row, id, false) == [];
  }

  /** Ending an affiliation logs a party change for exactly the accreditations it flags. */
  lemma EndAffiliationEvents(db: Db, broker: Id, affiliation: Id, reason: Option<string>, at: Time, id: Id)
    requires TryEndAffiliation(db, broker, affiliation, reason, at).Ok?
    ensures StepEvents(db, OnAffiliation(EndAffiliation(broker, affiliation, reason)), at, id)
         == if id < |db.accreditations| && HeldThrough(db.accreditations[id], broker, db.affiliations[affiliation].business)
            then [EvPartyChanged] else []
  {
    hide SweepRows, EventsIn;
    var hits := FlagHits(db.accreditations, broker, db.affiliations[affiliation].business);
    var row := AuditRow(at, Broker(broker), AffiliationEnded, AffiliationSubject, affiliation);
    RowThenSweep(row, hits, Broker(broker), at, id);
  }

  lemma EndAffiliationViews(db: Db, broker: Id, affiliation: Id, reason: Option<string>, at: Time, id: Id)
    requires TryEndAffiliation(db, broker, affiliation, reason, at).Ok?
    ensures View(TryEndAffiliation(db, broker, affiliation, reason, at).value.db, id)
         == if id < |db.accreditations| && HeldThrough(db.accreditations[id], broker, db.affiliations[affiliation].business)
            then Delta(View(db, id), EvPartyChanged) else View(db, id)
  {
  }

  lemma EndAffiliationFollows(db: Db, broker: Id, affiliation: Id, reason: Option<string>, at: Time, id: Id)
    ensures Follows(db, OnAffiliation(EndAffiliation(broker, affiliation, reason)), at, id)
  {
    if TryEndAffiliation(db, broker, affiliation, reason, at).Ok? {
      var effect := TryEndAffiliation(db, broker, affiliation, reason, at).value;
      EndAffiliationEvents(db, broker, affiliation, reason, at, id);
      EndAffiliationViews(db, broker, affiliation, reason, at, id);
      FollowsFrom(db, OnAffiliation(EndAffiliation(broker, affiliation, reason)), at, id, effect, false);
    }
  }

  /** A call that logs at most one row, about something else, and leaves accreditations alone. */
  lemma UnrelatedFollows(db: Db, op: Op, at: Time, id: Id)
    requires Try(db, op, at).Ok?
    requires Try(db, op, at).value.db.accreditations == db.accreditations
    requires |Appended(db, op, at)| <= 1
    requires Appended(db, op, at) != [] ==> Appended(db, op, at)[0].subjectType != AccreditationSubject
    ensures Follows(db, op, at, id)
  {
    var senior := IsSenior(db.roles, DecidingActor(op));
    var rows := Appended(db, op, at);
    if rows != [] {
      assert rows == [rows[0]];
      EventsInOne(rows[0], id, senior);
    }
    FollowsFrom(db, op, at, id, Try(db, op, at).value, senior);
  }

  lemma AffiliationFollows(db: Db, op: AffiliationOp, at: Time, id: Id)
    ensures Follows(db, OnAffiliation(op), at, id)
  {
    if op.EndAffiliation? {
      EndAffiliationFollows(db, op.broker, op.affiliation, op.reason, at, id);
    } else if TryAffiliation(db, op, at).Ok? {
      UnrelatedFollows(db, OnAffiliation(op), at, id);
    }
  }

  /** A lender-side call that changes one accreditation. */
  lemma ChangeFollows(db: Db, op: Op, at: Time, id: Id, ctx: Actor, target: Id, a: Accreditation, action: Action)
    requires target < |db.accreditations|
    requires Try(db, op, at).Ok?
    requires Try(db, op, at).value.rows == AccreditationRow(at, ctx, action, target)
    requires Try(db, op, at).value.db.accreditations == db.accreditations[target := a]
    requires var e := EventOf(action, IsSenior(db.roles, DecidingActor(op)));
             if e.None? then At(a.status, a.step) == View(db, target)
             else At(a.status, a.step) == Delta(View(db, target), e.value)
    ensures Follows(db, op, at, id)
  {
    var senior := IsSenior(db.roles, DecidingActor(op));
    EventsInOne(AuditRow(at, ctx, action, AccreditationSubject, target), id, senior);
    FollowsFrom(db, op, at, id, Try(db, op, at).value, senior);
  }

  lemma RequestMoves(db: Db, ctx: Actor, request: Request, read: nat, at: Time, id: Id)
    requires TryRequestAccreditation(db, ctx, request, read, at).Ok?
    ensures var effect := TryRequestAccreditation(db, ctx, request, read, at).value;
            var n := |db.accreditations|;
            && EventsIn(effect.rows, id, false) == (if id == n then [EvRequested] else [])
            && View(effect.db, id) == if id == n then At(Requested, ReviewerStep) else View(db, id)
  {
    EventsInOne(AuditRow(at, Broker(request.broker), AccreditationRequested, AccreditationSubject, |db.accreditations|), id, false);
  }

  lemma RequestFollows(db: Db, ctx: Actor, request: Request, read: nat, at: Time, id: Id)
    ensures Follows(db, OnAccreditation(RequestAccreditation(ctx, request, read)), at, id)
  {
    var r := TryRequestAccreditation(db, ctx, request, read, at);
    if r.Ok? {
      RequestMoves(db, ctx, request, read, at, id);
      FollowsFrom(db, OnAccreditation(RequestAccreditation(ctx, request, read)), at, id, r.value, false);
    }
  }

  lemma LapseEvents(db: Db, ctx: Actor, lender: Id, at: Time, id: Id)
    ensures EventsIn(SweepRows(LapseHits(db.accreditations, ctx, lender, at), ctx, AccreditationLapsed, at), id, false)
         == if id < |db.accreditations| && Overdue(db.accreditations[id], ctx, lender, at) then [EvLapsed] else []
  {
    EventsInSweep(LapseHits(db.accreditations, ctx, lender, at), ctx, AccreditationLapsed, at, id, false, EvLapsed);
  }

  /** The deadline sweep logs a lapse for exactly the overdue accreditations. */
  lemma DeadlineEvents(db: Db, ctx: Actor, lender: Id, at: Time, id: Id)
    requires LenderSide(ctx)
    ensures StepEvents(db, OnAccreditation(CheckTrainingDeadlines(ctx, lender)), at, id)
         == if id < |db.accreditations| && Overdue(db.accreditations[id], ctx, lender, at) then [EvLapsed] else []
  {
    hide SweepRows, EventsIn;
    LapseEvents(db, ctx, lender, at, id);
  }

  lemma LapseViews(db: Db, ctx: Actor, lender: Id, at: Time, id: Id)
    requires LenderSide(ctx)
    ensures View(TryCheckTrainingDeadlines(db, ctx, lender, at).value.db, id)
         == if id < |db.accreditations| && Overdue(db.accreditations[id], ctx, lender, at)
            then Delta(View(db, id), EvLapsed) else View(db, id)
  {
  }

  lemma DeadlinesFollow(db: Db, ctx: Actor, lender: Id, at: Time, id: Id)
    ensures Follows(db, OnAccreditation(CheckTrainingDeadlines(ctx, lender)), at, id)
  {
    if LenderSide(ctx) {
      var effect := TryCheckTrainingDeadlines(db, ctx, lender, at).value;
      DeadlineEvents(db, ctx, lender, at, id);
      LapseViews(db, ctx, lender, at, id);
      FollowsFrom(db, OnAccreditation(CheckTrainingDeadlines(ctx, lender)), at, id, effect, false);
    }
  }

  lemma MoreInformationFollows(db: Db, ctx: Actor, target: Id, at: Time, id: Id)
    ensures Follows(db, OnAccreditation(RequestMoreInformation(ctx, target)), at, id)
  {
    var r := TryRequestMoreInformation(db, ctx, target, at);
    if r.Ok? {
      ChangeFollows(db, OnAccreditation(RequestMoreInformation(ctx, target)), at, id, ctx, target,
                    r.value.db.accreditations[target], AccreditationInformationRequested);
    }
  }

  lemma EscalateFollows(db: Db, ctx: Actor, target: Id, at: Time, id: Id)
    ensures Follows(db, OnAccreditation(Escalate(ctx, target)), at, id)
  {
    var r := TryEscalate(db, ctx, target, at);
    if r.Ok? {
      ChangeFollows(db, OnAccreditation(Escalate(ctx, target)), at, id, ctx, target,
                    r.value.db.accreditations[target], AccreditationEscalated);
    }
  }

  lemma ApproveFollows(db: Db, ctx: Actor, target: Id, at: Time, id: Id)
    ensures Follows(db, OnAccreditation(Approve(ctx, target)), at, id)
  {
    var r := TryApprove(db, ctx, target, at);
    if r.Ok? {
      ChangeFollows(db, OnAccreditation(Approve(ctx, target)), at, id, ctx, target,
                    r.value.db.accreditations[target], AccreditationApproved);
    }
  }

  lemma DeclineFollows(db: Db, ctx: Actor, target: Id, at: Time, id: Id)
    ensures Follows(db, OnAccreditation(Decline(ctx, target)), at, id)
  {
    var r := TryDecline(db, ctx, target, at);
    if r.Ok? {
      ChangeFollows(db, OnAccreditation(Decline(ctx, target)), at, id, ctx, target,
                    r.value.db.accreditations[target], AccreditationDeclined);
    }
  }

  lemma InterviewFollows(db: Db, ctx: Actor, target: Id, recommendation: string, at: Time, id: Id)
    ensures Follows(db, OnAccreditation(RecordInterviewOutcome(ctx, target, recommendation)), at, id)
  {
    var r := TryRecordInterviewOutcome(db, ctx, target, recommendation, at);
    if r.Ok? {
      ChangeFollows(db, OnAccreditation(RecordInterviewOutcome(ctx, target, recommendation)), at, id, ctx, target,
                    r.value.db.accreditations[target], AccreditationInterviewRecorded);
    }
  }

  lemma TrainingFollows(db: Db, ctx: Actor, target: Id, kind: TrainingKind, notes: Option<string>, at: Time, id: Id)
    ensures Follows(db, OnAccreditation(ConfirmTraining(ctx, target, kind, notes)), at, id)
  {
    var r := TryConfirmTraining(db, ctx, target, kind, notes, at);
    if r.Ok? {
      ChangeFollows(db, OnAccreditation(ConfirmTraining(ctx, target, kind, notes)), at, id, ctx, target,
                    r.value.db.accreditations[target], AccreditationTrainingConfirmed);
    }
  }

  lemma ActivationFollows(db: Db, ctx: Actor, target: Id, at: Time, id: Id)
    ensures Follows(db, OnAccreditation(ActivateAccreditation(ctx, target)), at, id)
  {
    var r := TryActivate(db, ctx, target, at);
    if r.Ok? {
      ChangeFollows(db, OnAccreditation(ActivateAccreditation(ctx, target)), at, id, ctx, target,
                    r.value.db.accreditations[target], AccreditationActivated);
    }
  }

  lemma AccreditationFollows(db: Db, op: AccreditationOp, at: Time, id: Id)
    ensures Follows(db, OnAccreditation(op), at, id)
  {
    match op {
      case ResolveRuleset(key) => FollowsFrom(db, OnAccreditation(op), at, id, TryAccreditation(db, op, at).value, false);
      case RequestAccreditation(ctx, request, read) => RequestFollows(db, ctx, request, read, at, id);
      case RequestMoreInformation(ctx, target) => MoreInformationFollows(db, ctx, target, at, id);
      case Escalate(ctx, target) => EscalateFollows(db, ctx, target, at, id);
      case Approve(ctx, target) => ApproveFollows(db, ctx, target, at, id);
      case Decline(ctx, target) => DeclineFollows(db, ctx, target, at, id);
      case CheckTrainingDeadlines(ctx, lender) => DeadlinesFollow(db, ctx, lender, at, id);
      case RecordInterviewOutcome(ctx, target, recommendation) => InterviewFollows(db, ctx, target, recommendation, at, id);
      case ConfirmTraining(ctx, target, kind, notes) => TrainingFollows(db, ctx, target, kind, notes, at, id);
      case ActivateAccreditation(ctx, target) => ActivationFollows(db, ctx, target, at, id);
    }
  }

  lemma StepFollows(db: Db, op: Op, at: Time, id: Id)
    ensures Follows(db, op, at, id)
  {
    match op {
      case OnAffiliation(a) => AffiliationFollows(db, a, at, id);
      case OnAccreditation(a) => AccreditationFollows(db, a, at, id);
      case _ =>
        if Try(db, op, at).Ok? {
          UnrelatedFollows(db, op, at, id);
        }
    }
  }

  // ---------------------------------------------------------------- whole runs

  lemma AuditGrows(db: Db, op: Op, at: Time)
    ensures Perform(db, op, at).audit == db.audit + Appended(db, op, at)
  {
  }

  /** A word carried one call further. */
  lemma WordContinues(before: seq<Event>, events: seq<Event>, n: Node)
    requires Accepts(before)
    requires || (events == [] && n == DeltaStar(before))
             || (|events| == 1 && n == Delta(DeltaStar(before), events[0]) && n != Stuck)
    ensures DeltaStar(before + events) == n && Accepts(before + events)
  {
    if events == [] {
      assert before + events == before;
    } else {
      assert before + events == before + [events[0]];
      assert (before + [events[0]])[..|before|] == before;
    }
  }

  /** Soundness: every history is accepted, and the automaton ends at the row's status and step. */
  lemma {:induction false} HistoriesAreAccepted(r: Run, id: Id)
    ensures DeltaStar(History(r, id)) == View(Exec(r), id)
    ensures Accepts(History(r, id))
  {
    if r.Then? {
      HistoriesAreAccepted(r.prev, id);
      StepFollows(Exec(r.prev), r.op, r.at, id);
      WordContinues(History(r.prev, id), StepEvents(Exec(r.prev), r.op, r.at, id), View(Exec(r), id));
    }
  }

  /** A history only grows: an earlier run's history is a prefix of a later one's. */
  lemma {:induction false} HistoryGrows(later: Run, r: Run, id: Id)
    requires Extends(later, r)
    ensures History(r, id) <= History(later, id)
  {
    if later != r {
      HistoryGrows(later.prev, r, id);
    }
  }

  // ---------------------------------------------------------------- replaying the log

  /** The fixed table of status-changing actions the reconstruction folds with. */
  function StatusByAction(action: Action): Option<AccreditationStatus> {
    match action
    case AccreditationRequested => Some(Requested)
    case AccreditationInformationRequested => Some(InformationRequired)
    case AccreditationEscalated => Some(ExceptionEscalated)
    case AccreditationApproved => Some(Pending)
    case AccreditationDeclined => Some(Declined)
    case AccreditationActivated => Some(Active)
    case AccreditationLapsed => Some(Lapsed)
    case AccreditationPartyChanged => Some(PartyChangedPending)
    case _ => None
  }

  /** The rows the reconstruction reads for one accreditation as of `t`. */
  predicate Selected(row: AuditRow, id: Id, t: Time) {
    row.subjectType == AccreditationSubject && row.subject == id && row.occurredAt <= t
  }

  /** The fold: the last mapped action among the selected rows. */
  function StatusAsOf(log: seq<AuditRow>, id: Id, t: Time): Option<AccreditationStatus> {
    if log == [] then None
    else
      var last := log[|log| - 1];
      if Selected(last, id, t) && StatusByAction(last.action).Some? then StatusByAction(last.action)
      else StatusAsOf(log[..|log| - 1], id, t)
  }

  function StatusOf(db: Db, id: Id): Option<AccreditationStatus> {
    if id < |db.accreditations| then Some(db.accreditations[id].status) else None
  }

  /** Rows later than `t` are invisible to the reconstruction as of `t`. */
  lemma {:induction false} LaterRowsIgnored(log: seq<AuditRow>, rows: seq<AuditRow>, id: Id, t: Time)
    requires forall i | 0 <= i < |rows| :: rows[i].occurredAt > t
    ensures StatusAsOf(log + rows, id, t) == StatusAsOf(log, id, t)
  {
    if rows == [] {
      assert log + rows == log;
    } else {
      var n := |rows| - 1;
      assert (log + rows)[..|log + rows| - 1] == log + rows[..n];
      LaterRowsIgnored(log, rows[..n], id, t);
    }
  }

  /** The fold's table and the automaton's events name the same statuses. */
  lemma TablesAgree(row: AuditRow, id: Id, t: Time, senior: bool)
    requires row.occurredAt <= t
    ensures var events := RowEvents(row, id, senior);
            && |events| <= 1
            && ((Selected(row, id, t) && StatusByAction(row.action).Some?) <==> events != [])
            && (events != [] ==> StatusByAction(row.action) == Some(Target(events[0])))
  {
  }

  /** Rows at or before `t` move the reconstructed status exactly by the events they stand for. */
  lemma {:induction false} RowsReplay(log: seq<AuditRow>, rows: seq<AuditRow>, id: Id, t: Time, senior: bool)
    requires forall i | 0 <= i < |rows| :: rows[i].occurredAt <= t
    ensures StatusAsOf(log + rows, id, t) == LastTarget(EventsIn(rows, id, senior), StatusAsOf(log, id, t))
  {
    if rows == [] {
      assert log + rows == log;
    } else {
      var n := |rows| - 1;
      assert (log + rows)[..|log + rows| - 1] == log + rows[..n];
      assert (log + rows)[|log + rows| - 1] == rows[n];
      RowsReplay(log, rows[..n], id, t, senior);
      TablesAgree(rows[n], id, t, senior);
      var events := EventsIn(rows[..n], id, senior);
      var here := RowEvents(rows[n], id, senior);
      if here == [] {
        assert events + here == events;
      } else {
        assert (events + here)[|events + here| - 1] == here[0];
      }
    }
  }

  function LastTarget(events: seq<Event>, before: Option<AccreditationStatus>): Option<AccreditationStatus> {
    if events == [] then before else Some(Target(events[|events| - 1]))
  }

  lemma {:induction false} SweepTimes(hits: seq<bool>, actor: Actor, action: Action, at: Time)
    ensures forall i | 0 <= i < |SweepRows(hits, actor, action, at)| :: SweepRows(hits, actor, action, at)[i].occurredAt == at
  {
    if hits != [] {
      SweepTimes(hits[..|hits| - 1], actor, action, at);
    }
  }

  /** Every row a call appends carries the call's transaction time. */
  lemma AppendedNow(db: Db, op: Op, at: Time)
    ensures forall i | 0 <= i < |Appended(db, op, at)| :: Appended(db, op, at)[i].occurredAt == at
  {
    match op {
      case OnAffiliation(EndAffiliation(broker, a, reason)) =>
        if a < |db.affiliations| {
          SweepTimes(FlagHits(db.accreditations, broker, db.affiliations[a].business), Broker(broker), AccreditationPartyChanged, at);
        }
      case OnAccreditation(CheckTrainingDeadlines(ctx, lender)) =>
        SweepTimes(LapseHits(db.accreditations, ctx, lender, at), ctx, AccreditationLapsed, at);
      case _ =>
    }
  }

  lemma EventsReplay(log: seq<AuditRow>, rows: seq<AuditRow>, id: Id, t: Time, senior: bool, before: Node, after: Node)
    requires forall i | 0 <= i < |rows| :: rows[i].occurredAt <= t
    requires StatusAsOf(log, id, t) == StatusAt(before)
    requires var events := EventsIn(rows, id, senior);
             || (events == [] && after == before)
             || (|events| == 1 && after == Delta(before, events[0]) && after != Stuck)
    ensures StatusAsOf(log + rows, id, t) == StatusAt(after)
  {
    RowsReplay(log, rows, id, t, senior);
    if EventsIn(rows, id, senior) != [] {
      DeltaReachesTarget(before, EventsIn(rows, id, senior)[0]);
    }
  }

  function StatusAt(n: Node): Option<AccreditationStatus> {
    if n.At? then Some(n.status) else None
  }

  /** One call's rows replay to the status the call leaves. */
  lemma StepReplays(db: Db, op: Op, at: Time, id: Id, t: Time)
    requires at <= t
    requires StatusAsOf(db.audit, id, t) == StatusOf(db, id)
    ensures StatusAsOf(Perform(db, op, at).audit, id, t) == StatusOf(Perform(db, op, at), id)
  {
    AppendedNow(db, op, at);
    AuditGrows(db, op, at);
    StepFollows(db, op, at, id);
    ViewShowsStatus(db, id);
    ViewShowsStatus(Perform(db, op, at), id);
    EventsReplay(db.audit, Appended(db, op, at), id, t, IsSenior(db.roles, DecidingActor(op)), View(db, id), View(Perform(db, op, at), id));
  }

  lemma ViewShowsStatus(db: Db, id: Id)
    ensures StatusOf(db, id) == StatusAt(View(db, id))
  {
  }

  lemma DeltaReachesTarget(n: Node, e: Event)
    ensures Delta(n, e) != Stuck ==> Delta(n, e).At? && Delta(n, e).status == Target(e)
  {
  }

  lemma {:induction false} LogTracksStatus(r: Run, id: Id, t: Time)
    requires Clocked(r) && (r.Then? ==> r.at <= t)
    ensures StatusAsOf(Exec(r).audit, id, t) == StatusOf(Exec(r), id)
  {
    if r.Then? {
      LogTracksStatus(r.prev, id, t);
      StepReplays(Exec(r.prev), r.op, r.at, id, t);
    }
  }

  /**
   * The reconstruction theorem. At the end of any run, folding an accreditation's audit rows up to
   * any time `t` gives exactly the status it had at `t`; it gives none exactly when the
   * accreditation did not exist at `t`.
   */
  lemma {:induction false} LogReplaysToStatusAt(r: Run, id: Id, t: Time)
    requires Clocked(r)
    ensures StatusAsOf(Exec(r).audit, id, t) == StatusOf(Exec(UpTo(r, t)), id)
    ensures StatusAsOf(Exec(r).audit, id, t).None? <==> id >= |Exec(UpTo(r, t)).accreditations|
  {
    if r.Then? && r.at > t {
      LogReplaysToStatusAt(r.prev, id, t);
      AppendedNow(Exec(r.prev), r.op, r.at);
      AuditGrows(Exec(r.prev), r.op, r.at);
      LaterRowsIgnored(Exec(r.prev).audit, Appended(Exec(r.prev), r.op, r.at), id, t);
    } else {
      LogTracksStatus(r, id, t);
    }
  }
}
