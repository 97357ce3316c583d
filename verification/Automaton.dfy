/** The explicit automaton of accreditation histories, and what every word it accepts satisfies. */
module Automaton {
  import opened Common
  import opened Audit
  import opened Platform

  /** A status-changing event; decisions carry whether a senior approver took them. */
  datatype Event =
    | EvRequested
    | EvInformationRequested
    | EvEscalated
    | EvApproved(senior: bool)
    | EvDeclined(senior: bool)
    | EvActivated
    | EvLapsed
    | EvPartyChanged

  datatype Node = Unborn | At(status: AccreditationStatus, step: DecisionStep) | Stuck

  predicate MayDecide(n: Node, senior: bool) {
    n.At? && (n.status == Requested || n.status == ExceptionEscalated) && (n.step == SeniorApproverStep ==> senior)
  }

  function Delta(n: Node, e: Event): Node {
    match e
    case EvRequested => if n == Unborn then At(Requested, ReviewerStep) else Stuck
    case EvInformationRequested => if n.At? && n.status != Declined then At(InformationRequired, n.step) else Stuck
    case EvEscalated => if n.At? && n.status != Declined then At(ExceptionEscalated, SeniorApproverStep) else Stuck
    case EvApproved(senior) => if MayDecide(n, senior) then At(Pending, n.step) else Stuck
    case EvDeclined(senior) => if MayDecide(n, senior) then At(Declined, n.step) else Stuck
    case EvActivated => if n.At? && n.status == Pending then At(Active, n.step) else Stuck
    case EvLapsed => if n.At? && n.status == Pending then At(Lapsed, n.step) else Stuck
    case EvPartyChanged =>
      if n.At? && n.status != Declined && n.status != PartyChangedPending then At(PartyChangedPending, n.step) else Stuck
  }

  function DeltaStar(w: seq<Event>): Node {
    if w == [] then Unborn else Delta(DeltaStar(w[..|w| - 1]), w[|w| - 1])
  }

  predicate Accepts(w: seq<Event>) {
    DeltaStar(w) != Stuck
  }

  /** The node after the first `i` events. */
  function NodeAt(w: seq<Event>, i: nat): Node
    requires i <= |w|
  {
    DeltaStar(w[..i])
  }

  predicate IsDecision(e: Event) {
    e.EvApproved? || e.EvDeclined?
  }

  /** The status an event leads to. */
  function Target(e: Event): AccreditationStatus {
    match e
    case EvRequested => Requested
    case EvInformationRequested => InformationRequired
    case EvEscalated => ExceptionEscalated
    case EvApproved(_) => Pending
    case EvDeclined(_) => Declined
    case EvActivated => Active
    case EvLapsed => Lapsed
    case EvPartyChanged => PartyChangedPending
  }

  lemma NodeStep(w: seq<Event>, i: nat)
    requires i < |w|
    ensures NodeAt(w, i + 1) == Delta(NodeAt(w, i), w[i])
  {
    assert w[..i + 1][..i] == w[..i];
  }

  lemma {:induction false} PrefixAccepted(w: seq<Event>, i: nat)
    requires Accepts(w) && i <= |w|
    ensures NodeAt(w, i) != Stuck
  {
    if i < |w| {
      var n := |w| - 1;
      PrefixAccepted(w[..n], i);
      assert w[..n][..i] == w[..i];
    } else {
      assert w[..i] == w;
    }
  }

  /** After a nonempty word the status is the last event's, and nothing is unborn again. */
  lemma StatusIsTargetOfLast(w: seq<Event>, i: nat)
    requires Accepts(w) && 0 < i <= |w|
    ensures NodeAt(w, i).At? && NodeAt(w, i).status == Target(w[i - 1])
  {
    PrefixAccepted(w, i);
    NodeStep(w, i - 1);
  }

  /** The first event, and only the first, is the creation. */
  lemma RequestedOnlyFirst(w: seq<Event>, i: nat)
    requires Accepts(w) && i < |w|
    ensures w[i] == EvRequested <==> i == 0
  {
    PrefixAccepted(w, i + 1);
    NodeStep(w, i);
    if i > 0 {
      StatusIsTargetOfLast(w, i);
    }
  }

  /** Declined is absorbing. */
  lemma DeclinedIsLast(w: seq<Event>, i: nat)
    requires Accepts(w) && i < |w| && w[i].EvDeclined?
    ensures i == |w| - 1
  {
    if i < |w| - 1 {
      StatusIsTargetOfLast(w, i + 1);
      NodeStep(w, i + 1);
      PrefixAccepted(w, i + 2);
    }
  }

  /** Once the senior step is reached it is never left. */
  lemma {:induction false} SeniorStepIsForever(w: seq<Event>, i: nat, j: nat)
    requires Accepts(w) && i <= j <= |w|
    requires NodeAt(w, i).At? && NodeAt(w, i).step == SeniorApproverStep
    ensures NodeAt(w, j).At? && NodeAt(w, j).step == SeniorApproverStep
  {
    if i < j {
      SeniorStepIsForever(w, i, j - 1);
      NodeStep(w, j - 1);
      PrefixAccepted(w, j);
    }
  }

  /** A decision directly follows the creation, or directly follows an escalation and is a senior approver's. */
  lemma DecisionContext(w: seq<Event>, j: nat)
    requires Accepts(w) && j < |w| && IsDecision(w[j])
    ensures j == 1 || (j > 1 && w[j - 1].EvEscalated? && w[j].senior)
  {
    NodeStep(w, j);
    PrefixAccepted(w, j + 1);
    StatusIsTargetOfLast(w, j);
    RequestedOnlyFirst(w, j - 1);
    NodeStep(w, j - 1);
  }

  /** After an escalation, or after an information request, every decision is a senior approver's. */
  lemma SeniorAfterDetour(w: seq<Event>, i: nat, j: nat)
    requires Accepts(w) && i < j < |w|
    requires w[i].EvEscalated? || w[i].EvInformationRequested?
    requires IsDecision(w[j])
    ensures w[j].senior
  {
    DecisionContext(w, j);
    RequestedOnlyFirst(w, i);
  }

  /** A decision by anyone else is the first thing that happens to the accreditation. */
  lemma OthersDecideOnlyFirst(w: seq<Event>, j: nat)
    requires Accepts(w) && j < |w| && IsDecision(w[j]) && !w[j].senior
    ensures j == 1 && w[0] == EvRequested
  {
    DecisionContext(w, j);
    RequestedOnlyFirst(w, 0);
  }

  lemma AtMostOneOtherDecision(w: seq<Event>, i: nat, j: nat)
    requires Accepts(w) && i < |w| && j < |w|
    requires IsDecision(w[i]) && !w[i].senior && IsDecision(w[j]) && !w[j].senior
    ensures i == j
  {
    OthersDecideOnlyFirst(w, i);
    OthersDecideOnlyFirst(w, j);
  }

  predicate Settled(n: Node) {
    n.At? && n.status != Requested && n.status != ExceptionEscalated && n.status != Pending
  }

  /**
   * From any settled status (active, lapsed, party changed, information required), reaching
   * `active` again takes an escalation, then a senior approver's approval, then an activation.
   */
  lemma ReadmissionNeedsSenior(w: seq<Event>, i: nat, j: nat) returns (k: nat, l: nat)
    requires Accepts(w) && i <= j < |w|
    requires Settled(NodeAt(w, i)) && w[j].EvActivated?
    ensures i <= k < l < j && w[k].EvEscalated? && w[l] == EvApproved(true)
  {
    NodeStep(w, j);
    PrefixAccepted(w, j + 1);
    StatusIsTargetOfLast(w, j);
    k, l := j - 2, j - 1;
    if i > 0 {
      StatusIsTargetOfLast(w, i);
    }
    DecisionContext(w, l);
    RequestedOnlyFirst(w, 0);
  }

  /** A history active at its end, and settled but not active at `i`, was escalated and approved since. */
  lemma ActiveAgain(w: seq<Event>, i: nat) returns (k: nat, l: nat)
    requires Accepts(w) && i <= |w|
    requires Settled(NodeAt(w, i)) && NodeAt(w, i).status != Active
    requires DeltaStar(w).At? && DeltaStar(w).status == Active
    ensures i <= k < l < |w| && w[k].EvEscalated? && w[l] == EvApproved(true)
  {
    assert w[..|w|] == w;
    StatusIsTargetOfLast(w, |w|);
    k, l := ReadmissionNeedsSenior(w, i, |w| - 1);
  }

  /** Between an activation or a lapse and a later activation lie an escalation and a senior approval. */
  lemma ActivationsAreSeparated(w: seq<Event>, i: nat, j: nat) returns (k: nat, l: nat)
    requires Accepts(w) && i < j < |w|
    requires w[i].EvActivated? || w[i].EvLapsed?
    requires w[j].EvActivated?
    ensures i < k < l < j && w[k].EvEscalated? && w[l] == EvApproved(true)
  {
    StatusIsTargetOfLast(w, i + 1);
    k, l := ReadmissionNeedsSenior(w, i + 1, j);
  }

  // ---------------------------------------------------------------- reading words off the log

  /** The status-changing event an audit action stands for, if it stands for one. */
  function EventOf(action: Action, senior: bool): Option<Event> {
    match action
    case AccreditationRequested => Some(EvRequested)
    case AccreditationInformationRequested => Some(EvInformationRequested)
    case AccreditationEscalated => Some(EvEscalated)
    case AccreditationApproved => Some(EvApproved(senior))
    case AccreditationDeclined => Some(EvDeclined(senior))
    case AccreditationActivated => Some(EvActivated)
    case AccreditationLapsed => Some(EvLapsed)
    case AccreditationPartyChanged => Some(EvPartyChanged)
    case _ => None
  }

  function RowEvents(row: AuditRow, id: Id, senior: bool): seq<Event> {
    if row.subjectType == AccreditationSubject && row.subject == id then
      match EventOf(row.action, senior)
      case Some(e) => [e]
      case None => []
    else []
  }

  /** The events of accreditation `id` among some audit rows written by one actor. */
  function EventsIn(rows: seq<AuditRow>, id: Id, senior: bool): seq<Event> {
    if rows == [] then []
    else EventsIn(rows[..|rows| - 1], id, senior) + RowEvents(rows[|rows| - 1], id, senior)
  }

  lemma {:induction false} EventsInConcat(a: seq<AuditRow>, b: seq<AuditRow>, id: Id, senior: bool)
    ensures EventsIn(a + b, id, senior) == EventsIn(a, id, senior) + EventsIn(b, id, senior)
  {
    if b == [] {
      assert a + b == a;
    } else {
      var n := |b| - 1;
      assert (a + b)[..|a + b| - 1] == a + b[..n];
      EventsInConcat(a, b[..n], id, senior);
    }
  }

  lemma EventsInOne(row: AuditRow, id: Id, senior: bool)
    ensures EventsIn([row], id, senior) == RowEvents(row, id, senior)
  {
    assert [row][..0] == [];
  }

  lemma EventsInAppendRow(rows: seq<AuditRow>, row: AuditRow, id: Id, senior: bool)
    ensures EventsIn(rows + [row], id, senior) == EventsIn(rows, id, senior) + RowEvents(row, id, senior)
  {
    assert (rows + [row])[..|rows|] == rows;
  }

  /** A sweep writes one event for each row it hit, and none for any other. */
  lemma {:induction false} EventsInSweep(hits: seq<bool>, actor: Actor, action: Action, at: Time, id: Id, senior: bool, e: Event)
    requires EventOf(action, senior) == Some(e)
    ensures EventsIn(SweepRows(hits, actor, action, at), id, senior) == if id < |hits| && hits[id] then [e] else []
  {
    if hits != [] {
      var n := |hits| - 1;
      EventsInSweep(hits[..n], actor, action, at, id, senior, e);
      assert hits == hits[..n] + [hits[n]];
      SweepEventsSnoc(hits[..n], hits[n], actor, action, at, id, senior, e);
      hide SweepRows, EventsIn;
    }
  }

  /** One more row of the table adds the sweep's event for that row, if the sweep hit it. */
  lemma SweepEventsSnoc(front: seq<bool>, hit: bool, actor: Actor, action: Action, at: Time, id: Id, senior: bool, e: Event)
    requires EventOf(action, senior) == Some(e)
    ensures EventsIn(SweepRows(front + [hit], actor, action, at), id, senior)
         == EventsIn(SweepRows(front, actor, action, at), id, senior) + if hit && id == |front| then [e] else []
  {
    hide SweepRows, EventsIn;
    var rows := SweepRows(front, actor, action, at);
    SweepSnoc(front, hit, actor, action, at);
    if hit {
      EventsInAppendRow(rows, AuditRow(at, actor, action, AccreditationSubject, |front|), id, senior);
    } else {
      assert rows + [] == rows;
    }
  }

  /** The context whose role decides the call; only decisions look at it. */
  function DecidingActor(op: Op): Actor {
    match op
    case OnAccreditation(Approve(ctx, _)) => ctx
    case OnAccreditation(Decline(ctx, _)) => ctx
    case _ => System
  }

  function StepEvents(db: Db, op: Op, at: Time, id: Id): seq<Event> {
    EventsIn(Appended(db, op, at), id, IsSenior(db.roles, DecidingActor(op)))
  }

  /** The status-changing history of accreditation `id` over a run, read off what each call logged. */
  function History(r: Run, id: Id): seq<Event> {
    match r
    case Start => []
    case Then(prev, op, at) => History(prev, id) + StepEvents(Exec(prev), op, at, id)
  }

  function View(db: Db, id: Id): Node {
    if id < |db.accreditations| then At(db.accreditations[id].status, db.accreditations[id].step) else Unborn
  }
}
