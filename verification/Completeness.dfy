/** Every word the automaton accepts is the history of some run: the automaton has no dead letters. */
module Completeness {
  import opened Common
  import opened Audit
  import Rel = Relationships
  import opened Platform
  import opened Automaton
  import opened Lifecycle
  import opened Invariants
  import opened Reachability
  import opened BusinessStatuses

  function Next(r: Run): Time {
    if r.Start? then 0.0 else r.at + 1.0
  }

  function Do(r: Run, op: Op): Run {
    Then(r, op, Next(r))
  }

  lemma {:induction false} ExtendsIsTransitive(a: Run, b: Run, c: Run)
    requires Extends(a, b) && Extends(b, c)
    ensures Extends(a, c)
  {
    if a != b {
      ExtendsIsTransitive(a.prev, b, c);
    }
  }

  /** A successful call that logs one row adds that row's events to the history. */
  lemma OneRowCall(r: Run, op: Op, id: Id, at: Time)
    requires Try(Exec(r), op, at).Ok? && |Appended(Exec(r), op, at)| == 1
    ensures History(Then(r, op, at), id)
         == History(r, id) + RowEvents(Appended(Exec(r), op, at)[0], id, IsSenior(Exec(r).roles, DecidingActor(op)))
  {
    var rows := Appended(Exec(r), op, at);
    assert rows == [rows[0]];
    EventsInOne(rows[0], id, IsSenior(Exec(r).roles, DecidingActor(op)));
  }

  /** `r'` continues `r` without any event for `id` and without touching any accreditation. */
  ghost predicate Quietly(r': Run, r: Run, id: Id) {
    && Clocked(r') && Extends(r', r)
    && History(r', id) == History(r, id)
    && Exec(r').accreditations == Exec(r).accreditations
  }

  lemma QuietCall(r: Run, op: Op, id: Id)
    requires Clocked(r) && Try(Exec(r), op, Next(r)).Ok?
    requires Exec(Do(r, op)).accreditations == Exec(r).accreditations
    requires |Appended(Exec(r), op, Next(r))| <= 1
    requires Appended(Exec(r), op, Next(r)) != [] ==> Appended(Exec(r), op, Next(r))[0].subjectType != AccreditationSubject
    ensures Quietly(Do(r, op), r, id)
  {
    if Appended(Exec(r), op, Next(r)) != [] {
      OneRowCall(r, op, id, Next(r));
    } else {
      assert StepEvents(Exec(r), op, Next(r), id) == [];
    }
  }

  lemma QuietlyIsTransitive(a: Run, b: Run, c: Run, id: Id)
    requires Quietly(a, b, id) && Quietly(b, c, id)
    ensures Quietly(a, c, id)
  {
    ExtendsIsTransitive(a, b, c);
  }

  /** Makes `user` a senior approver. */
  lemma Promote(r: Run, user: Id, id: Id) returns (r': Run)
    requires Clocked(r)
    ensures Quietly(r', r, id)
    ensures user in Exec(r').roles && Exec(r').roles[user] == SeniorApprover
  {
    var op := UpdateClientUserRole(System, user, SeniorApprover);
    r' := Do(r, op);
    QuietCall(r, op, id);
  }

  /** A request to join `business` finds it verified: its status is set, then read. */
  lemma SeeVerified(r: Run, business: Id, id: Id) returns (r': Run, read: nat)
    requires Clocked(r) && business < |Exec(r).businesses|
    ensures Quietly(r', r, id)
    ensures Exec(r').affiliations == Exec(r).affiliations
    ensures read < |Exec(r').lookups| && Exec(r').lookups[read] == BusinessStatusRead(business, Some(Verified))
  {
    var verify := OnAffiliation(SetBusinessStatus(business, Verified));
    var r1 := Do(r, verify);
    QuietCall(r, verify, id);
    var look := OnAffiliation(ReadBusinessStatus(business));
    r' := Do(r1, look);
    QuietCall(r1, look, id);
    QuietlyIsTransitive(r', r1, r, id);
    read := |Exec(r1).lookups|;
  }

  lemma Join(r: Run, broker: Id, business: Id, id: Id) returns (r': Run, a: Id)
    requires Clocked(r) && business < |Exec(r).businesses|
    requires !HasLiveAffiliation(Exec(r).affiliations, broker, business)
    ensures Quietly(r', r, id)
    ensures a < |Exec(r').affiliations| && IsPair(Exec(r').affiliations[a], broker, business) && IsLive(Exec(r').affiliations[a])
  {
    var seen, read := SeeVerified(r, business, id);
    var join := OnAffiliation(RequestAffiliation(broker, business, read));
    r' := Do(seen, join);
    QuietCall(seen, join, id);
    QuietlyIsTransitive(r', seen, r, id);
    a := |Exec(seen).affiliations|;
  }

  /** A live affiliation of the accreditation's pair, requesting one first when there is none. */
  lemma Affiliate(r: Run, id: Id) returns (r': Run, a: Id)
    requires Clocked(r) && id < |Exec(r).accreditations|
    ensures Quietly(r', r, id)
    ensures var request := Exec(r).accreditations[id].request;
            a < |Exec(r').affiliations| && IsPair(Exec(r').affiliations[a], request.broker, request.business)
            && IsLive(Exec(r').affiliations[a])
  {
    var request := Exec(r).accreditations[id].request;
    if HasLiveAffiliation(Exec(r).affiliations, request.broker, request.business) {
      r' := r;
      a :| 0 <= a < |Exec(r).affiliations|
           && IsPair(Exec(r).affiliations[a], request.broker, request.business) && IsLive(Exec(r).affiliations[a]);
    } else {
      Reachable(r);
      r', a := Join(r, request.broker, request.business, id);
    }
  }

  /** An information request by the system actor. */
  lemma RealiseInformationRequest(r: Run, id: Id) returns (r': Run)
    requires Clocked(r) && id < |Exec(r).accreditations|
    requires Delta(View(Exec(r), id), EvInformationRequested) != Stuck
    ensures Clocked(r') && Extends(r', r) && History(r', id) == History(r, id) + [EvInformationRequested]
  {
    r' := Do(r, OnAccreditation(RequestMoreInformation(System, id)));
    OneRowCall(r, r'.op, id, Next(r));
  }

  /** An escalation by the system actor. */
  lemma RealiseEscalation(r: Run, id: Id) returns (r': Run)
    requires Clocked(r) && id < |Exec(r).accreditations|
    requires Delta(View(Exec(r), id), EvEscalated) != Stuck
    ensures Clocked(r') && Extends(r', r) && History(r', id) == History(r, id) + [EvEscalated]
  {
    r' := Do(r, OnAccreditation(Escalate(System, id)));
    OneRowCall(r, r'.op, id, Next(r));
  }

  /** An activation by the system actor. */
  lemma RealiseActivation(r: Run, id: Id) returns (r': Run)
    requires Clocked(r) && id < |Exec(r).accreditations|
    requires Delta(View(Exec(r), id), EvActivated) != Stuck
    ensures Clocked(r') && Extends(r', r) && History(r', id) == History(r, id) + [EvActivated]
  {
    r' := Do(r, OnAccreditation(ActivateAccreditation(System, id)));
    ActivationShows(Exec(r), id, Next(r));
  }

  lemma ActivationShows(db: Db, id: Id, at: Time)
    requires id < |db.accreditations| && Delta(View(db, id), EvActivated) != Stuck
    ensures StepEvents(db, OnAccreditation(ActivateAccreditation(System, id)), at, id) == [EvActivated]
  {
    EventsInOne(AuditRow(at, System, AccreditationActivated, AccreditationSubject, id), id, false);
  }

  /** An approval by an actor who may take it. */
  lemma DecideApproval(r: Run, id: Id, senior: bool, ctx: Actor) returns (r': Run)
    requires Clocked(r) && id < |Exec(r).accreditations|
    requires Delta(View(Exec(r), id), EvApproved(senior)) != Stuck
    requires LenderSide(ctx) && Reaches(ctx, Exec(r).accreditations[id]) && senior == IsSenior(Exec(r).roles, ctx)
    ensures Clocked(r') && Extends(r', r) && History(r', id) == History(r, id) + [EvApproved(senior)]
  {
    r' := Do(r, OnAccreditation(Approve(ctx, id)));
    OneRowCall(r, r'.op, id, Next(r));
  }

  /** A decline by an actor who may take it. */
  lemma DecideDecline(r: Run, id: Id, senior: bool, ctx: Actor) returns (r': Run)
    requires Clocked(r) && id < |Exec(r).accreditations|
    requires Delta(View(Exec(r), id), EvDeclined(senior)) != Stuck
    requires LenderSide(ctx) && Reaches(ctx, Exec(r).accreditations[id]) && senior == IsSenior(Exec(r).roles, ctx)
    ensures Clocked(r') && Extends(r', r) && History(r', id) == History(r, id) + [EvDeclined(senior)]
  {
    r' := Do(r, OnAccreditation(Decline(ctx, id)));
    OneRowCall(r, r'.op, id, Next(r));
  }

  lemma Decide(r: Run, id: Id, e: Event, ctx: Actor) returns (r': Run)
    requires Clocked(r) && id < |Exec(r).accreditations|
    requires IsDecision(e) && Delta(View(Exec(r), id), e) != Stuck
    requires LenderSide(ctx) && Reaches(ctx, Exec(r).accreditations[id]) && e.senior == IsSenior(Exec(r).roles, ctx)
    ensures Clocked(r') && Extends(r', r) && History(r', id) == History(r, id) + [e]
  {
    if e.EvApproved? {
      r' := DecideApproval(r, id, e.senior, ctx);
    } else {
      r' := DecideDecline(r, id, e.senior, ctx);
    }
  }

  lemma RealiseDecision(r: Run, id: Id, e: Event) returns (r': Run)
    requires Clocked(r) && id < |Exec(r).accreditations|
    requires IsDecision(e) && Delta(View(Exec(r), id), e) != Stuck
    ensures Clocked(r') && Extends(r', r) && History(r', id) == History(r, id) + [e]
  {
    if e.senior {
      var promoted := Promote(r, 0, id);
      r' := Decide(promoted, id, e, ClientUser(0, Exec(r).accreditations[id].request.lender));
      ExtendsIsTransitive(r', promoted, r);
    } else {
      r' := Decide(r, id, e, System);
    }
  }

  lemma RealiseLapse(r: Run, id: Id) returns (r': Run)
    requires Clocked(r) && id < |Exec(r).accreditations|
    requires Delta(View(Exec(r), id), EvLapsed) != Stuck
    ensures Clocked(r') && Extends(r', r) && History(r', id) == History(r, id) + [EvLapsed]
  {
    Reachable(r);
    var a := Exec(r).accreditations[id];
    assert Coherent(a);
    var deadline := a.trainingDeadlineAt.value;
    var at := if deadline < Next(r) then Next(r) else deadline + 1.0;
    r' := Then(r, OnAccreditation(CheckTrainingDeadlines(System, a.request.lender)), at);
    assert Extends(r', r);
    DeadlineEvents(Exec(r), System, a.request.lender, at, id);
  }

  /** Ending a live affiliation of the pair flags an accreditation that may be flagged. */
  lemma EndShows(db: Db, id: Id, a: Id, at: Time)
    requires id < |db.accreditations| && Delta(View(db, id), EvPartyChanged) != Stuck
    requires var request := db.accreditations[id].request;
             a < |db.affiliations| && IsPair(db.affiliations[a], request.broker, request.business) && IsLive(db.affiliations[a])
    ensures StepEvents(db, OnAffiliation(EndAffiliation(db.accreditations[id].request.broker, a, None)), at, id) == [EvPartyChanged]
  {
    EndAffiliationEvents(db, db.accreditations[id].request.broker, a, None, at, id);
  }

  lemma RealisePartyChange(r: Run, id: Id) returns (r': Run)
    requires Clocked(r) && id < |Exec(r).accreditations|
    requires Delta(View(Exec(r), id), EvPartyChanged) != Stuck
    ensures Clocked(r') && Extends(r', r) && History(r', id) == History(r, id) + [EvPartyChanged]
  {
    hide Exec, Perform, Try;
    var joined, a := Affiliate(r, id);
    r' := Do(joined, OnAffiliation(EndAffiliation(Exec(r).accreditations[id].request.broker, a, None)));
    EndShows(Exec(joined), id, a, Next(joined));
    ExtendsIsTransitive(r', joined, r);
  }

  /** From every reachable state, every event the automaton allows an accreditation can happen next. */
  lemma Realise(r: Run, id: Id, e: Event) returns (r': Run)
    requires Clocked(r) && id < |Exec(r).accreditations|
    requires Delta(View(Exec(r), id), e) != Stuck
    ensures Clocked(r') && Extends(r', r) && History(r', id) == History(r, id) + [e]
  {
    match e {
      case EvApproved(_) => r' := RealiseDecision(r, id, e);
      case EvDeclined(_) => r' := RealiseDecision(r, id, e);
      case EvLapsed => r' := RealiseLapse(r, id);
      case EvPartyChanged => r' := RealisePartyChange(r, id);
      case EvInformationRequested => r' := RealiseInformationRequest(r, id);
      case EvEscalated => r' := RealiseEscalation(r, id);
      case EvActivated => r' := RealiseActivation(r, id);
    }
  }

  const FIRST: Request := Request(0, 0, 0, AddOn, "", "", "")

  /** A run that has founded a business, linked its broker to a lender and resolved a ruleset key. */
  ghost predicate ReadyToRequest(r: Run) {
    && Clocked(r) && History(r, 0) == []
    && Exec(r).accreditations == []
    && |Exec(r).lookups| == 1 && Exec(r).lookups[0] == RulesetRead(KeyOf(FIRST), None)
    && HasActiveAffiliation(Exec(r).affiliations, 0, 0)
    && ActiveRelationship(Exec(r).relationships.rows, 0, 0).Some?
  }

  lemma FoundFirst() returns (r: Run)
    ensures Clocked(r) && History(r, 0) == [] && Exec(r).accreditations == [] && Exec(r).lookups == []
    ensures Exec(r).relationships == Rel.Table([], []) && Exec(r).rulesets == []
    ensures HasActiveAffiliation(Exec(r).affiliations, 0, 0)
  {
    var found := OnAffiliation(CreateBusiness(0));
    r := Do(Start, found);
    OneRowCall(Start, found, 0, Next(Start));
    assert IsPair(Exec(r).affiliations[0], 0, 0) && Exec(r).affiliations[0].status == AffiliationActive;
  }

  lemma LinkFirst() returns (r: Run)
    ensures Clocked(r) && History(r, 0) == [] && Exec(r).accreditations == [] && Exec(r).lookups == []
    ensures Exec(r).rulesets == [] && HasActiveAffiliation(Exec(r).affiliations, 0, 0)
    ensures ActiveRelationship(Exec(r).relationships.rows, 0, 0).Some?
  {
    var before := FoundFirst();
    var link := OnRelationship(Rel.RequestRelationship(0, 0, Rel.LenderPanel, ""));
    r := Do(before, link);
    OneRowCall(before, link, 0, Next(before));
    var row := Exec(r).relationships.rows[0];
    assert Exec(r).relationships.rows == [row] && [row][..0] == [];
    assert ActiveRelationship([row], 0, 0) == Some(0);
  }

  lemma ResolveFirst() returns (r: Run)
    ensures ReadyToRequest(r)
  {
    var before := LinkFirst();
    var look := OnAccreditation(ResolveRuleset(KeyOf(FIRST)));
    r := Do(before, look);
    assert StepEvents(Exec(before), look, Next(before), 0) == [];
  }

  /** The shortest run with one accreditation: a business, a relationship, a resolution, a request. */
  lemma FirstRequest() returns (r: Run)
    ensures Clocked(r) && |Exec(r).accreditations| == 1 && History(r, 0) == [EvRequested]
  {
    var before := ResolveFirst();
    var ask := OnAccreditation(RequestAccreditation(System, FIRST, 0));
    r := Do(before, ask);
    OneRowCall(before, ask, 0, Next(before));
  }

  /** A word that is not just the creation, split before its last event. */
  lemma LastEvent(w: seq<Event>)
    requires Accepts(w) && |w| > 1
    ensures var front := w[..|w| - 1];
            Accepts(front) && front != [] && Delta(DeltaStar(front), w[|w| - 1]) != Stuck && w == front + [w[|w| - 1]]
  {
    PrefixAccepted(w, |w| - 1);
  }

  /** Completeness: every accepted word is the history of an accreditation in some run. */
  lemma {:induction false} EveryWordHappens(w: seq<Event>) returns (r: Run)
    requires Accepts(w)
    ensures Clocked(r) && History(r, 0) == w
    ensures w != [] ==> |Exec(r).accreditations| > 0
  {
    if w == [] {
      r := Start;
    } else if |w| == 1 {
      RequestedOnlyFirst(w, 0);
      r := FirstRequest();
      assert w == [EvRequested];
    } else {
      var n := |w| - 1;
      LastEvent(w);
      var before := EveryWordHappens(w[..n]);
      HistoriesAreAccepted(before, 0);
      r := Realise(before, 0, w[n]);
      AccreditationsKeepIdentity(r, before);
    }
  }
}
