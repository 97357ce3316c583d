/** What every run satisfies: who may decide, what a lifecycle looks like, what leaving a business costs. */
module LifecycleTheorems {
  import opened Common
  import opened Platform
  import opened Automaton
  import opened Lifecycle
  import opened Invariants
  import opened Reachability
  import opened Completeness

  /**
   * In any run of one accreditation: a decision by anyone but a senior approver directly follows
   * the creation, so there is at most one; and after an escalation or an information request every
   * decision is a senior approver's.
   */
  lemma DecisionAuthority(r: Run, id: Id)
    ensures var h := History(r, id);
            && (forall j | 0 <= j < |h| && IsDecision(h[j]) && !h[j].senior :: j == 1 && h[0] == EvRequested)
            && (forall i, j | 0 <= i < |h| && 0 <= j < |h| && IsDecision(h[i]) && !h[i].senior && IsDecision(h[j]) && !h[j].senior ::
                  i == j)
            && (forall i, j | 0 <= i < j < |h| && (h[i].EvEscalated? || h[i].EvInformationRequested?) && IsDecision(h[j]) ::
                  h[j].senior)
  {
    var h := History(r, id);
    HistoriesAreAccepted(r, id);
    forall j | 0 <= j < |h| && IsDecision(h[j]) && !h[j].senior
      ensures j == 1 && h[0] == EvRequested
    {
      OthersDecideOnlyFirst(h, j);
    }
    forall i, j | 0 <= i < |h| && 0 <= j < |h| && IsDecision(h[i]) && !h[i].senior && IsDecision(h[j]) && !h[j].senior
      ensures i == j
    {
      AtMostOneOtherDecision(h, i, j);
    }
    forall i, j | 0 <= i < j < |h| && (h[i].EvEscalated? || h[i].EvInformationRequested?) && IsDecision(h[j])
      ensures h[j].senior
    {
      SeniorAfterDetour(h, i, j);
    }
  }

  /** The decision step never goes back to the first one, in any continuation of any run. */
  lemma StepNeverResets(later: Run, r: Run, id: Id)
    requires Extends(later, r) && id < |Exec(r).accreditations|
    requires Exec(r).accreditations[id].step == SeniorApproverStep
    ensures id < |Exec(later).accreditations| && Exec(later).accreditations[id].step == SeniorApproverStep
  {
    HistoriesAreAccepted(r, id);
    HistoriesAreAccepted(later, id);
    HistoryGrows(later, r, id);
    var w, i := History(later, id), |History(r, id)|;
    assert w[..i] == History(r, id) && w[..|w|] == w;
    SeniorStepIsForever(w, i, |w|);
  }

  /**
   * Declined is absorbing; a pending accreditation has a training deadline; and between an
   * activation or a lapse and any later activation lie an escalation and a senior approval.
   */
  lemma LifecycleShape(r: Run, id: Id)
    ensures var h := History(r, id);
            && (forall i | 0 <= i < |h| && h[i].EvDeclined? :: i == |h| - 1)
            && (forall i, j | 0 <= i < j < |h| && (h[i].EvActivated? || h[i].EvLapsed?) && h[j].EvActivated? ::
                  exists k, l :: i < k < l < j && h[k].EvEscalated? && h[l] == EvApproved(true))
    ensures id < |Exec(r).accreditations| && Exec(r).accreditations[id].status == Pending ==>
              Exec(r).accreditations[id].trainingDeadlineAt.Some?
  {
    var h := History(r, id);
    HistoriesAreAccepted(r, id);
    Reachable(r);
    assert id < |Exec(r).accreditations| ==> Coherent(Exec(r).accreditations[id]);
    forall i | 0 <= i < |h| && h[i].EvDeclined?
      ensures i == |h| - 1
    {
      DeclinedIsLast(h, i);
    }
    forall i, j | 0 <= i < j < |h| && (h[i].EvActivated? || h[i].EvLapsed?) && h[j].EvActivated?
      ensures exists k, l :: i < k < l < j && h[k].EvEscalated? && h[l] == EvApproved(true)
    {
      var k, l := ActivationsAreSeparated(h, i, j);
    }
  }

  // ---------------------------------------------------------------- leaving a business

  /** The last call of `r` ended an affiliation through which accreditation `id` is held. */
  predicate JustEnded(r: Run, id: Id) {
    && r.Then? && r.op.OnAffiliation? && r.op.affiliation.EndAffiliation?
    && var op := r.op.affiliation;
       var db := Exec(r.prev);
       && TryEndAffiliation(db, op.broker, op.affiliation, op.reason, r.at).Ok?
       && id < |db.accreditations|
       && db.accreditations[id].request.broker == op.broker
       && db.accreditations[id].request.business == db.affiliations[op.affiliation].business
  }

  /** The end flags the accreditation unless it was declined, and logs that exactly when it was not flagged already. */
  lemma EndFlagsHeldAccreditations(r: Run, id: Id)
    requires JustEnded(r, id)
    ensures var before := Exec(r.prev).accreditations[id].status;
            && Exec(r).accreditations[id].status == (if before == Declined then Declined else PartyChangedPending)
            && History(r, id) == History(r.prev, id)
                 + (if before == Declined || before == PartyChangedPending then [] else [EvPartyChanged])
  {
    var op := r.op.affiliation;
    EndAffiliationEvents(Exec(r.prev), op.broker, op.affiliation, op.reason, r.at, id);
    assert Exec(r).accreditations[id]
        == Flag(Exec(r.prev).accreditations[id], op.broker, Exec(r.prev).affiliations[op.affiliation].business, r.at);
  }

  /**
   * An accreditation that is active some time after its pair's affiliation ended was, since that
   * end, escalated and then approved by a senior approver.
   */
  lemma ActiveAfterEnd(later: Run, r: Run, id: Id) returns (k: nat, l: nat)
    requires Extends(later, r) && JustEnded(r, id)
    requires id < |Exec(later).accreditations| && Exec(later).accreditations[id].status == Active
    ensures |History(r, id)| <= k < l < |History(later, id)|
    ensures History(later, id)[k].EvEscalated? && History(later, id)[l] == EvApproved(true)
  {
    EndFlagsHeldAccreditations(r, id);
    k, l := ActiveAfterFlag(later, r, id);
  }

  /**
   * Since the end that closed `r`, the log of `later` shows a party change, then an escalation,
   * then a senior approval.
   */
  ghost predicate LogShowsReadmission(later: Run, r: Run, id: Id)
    requires r.Then?
  {
    var h, n := History(later, id), |History(r.prev, id)|;
    exists p, k, l :: n <= p < k < l < |h| && h[p] == EvPartyChanged && h[k].EvEscalated? && h[l] == EvApproved(true)
  }

  /** However the run goes on, wherever the accreditation is active the log shows that. */
  ghost predicate ReadmissionAlwaysShows(r: Run, id: Id)
    requires r.Then?
  {
    forall later | Clocked(later) && Extends(later, r)
                   && id < |Exec(later).accreditations| && Exec(later).accreditations[id].status == Active ::
      LogShowsReadmission(later, r, id)
  }

  /** An accreditation not yet flagged at the end is active again only with all three in its log. */
  lemma UnflaggedReadmissionShows(later: Run, r: Run, id: Id)
    requires Extends(later, r) && JustEnded(r, id)
    requires id < |Exec(later).accreditations| && Exec(later).accreditations[id].status == Active
    requires Exec(r.prev).accreditations[id].status != PartyChangedPending
    ensures LogShowsReadmission(later, r, id)
  {
    EndFlagsHeldAccreditations(r, id);
    var k, l := ActiveAfterEnd(later, r, id);
    HistoryGrows(later, r, id);
    HistoriesAreAccepted(later, id);
    HistoriesAreAccepted(r.prev, id);
    FlaggedFirst(History(later, id), History(r.prev, id), History(r, id), Exec(r.prev).accreditations[id].status, k, l);
  }

  lemma FlaggedFirst(h: seq<Event>, before: seq<Event>, after: seq<Event>, status: AccreditationStatus, k: nat, l: nat)
    requires Accepts(h) && after <= h && DeltaStar(before).At? && DeltaStar(before).status == status
    requires status != PartyChangedPending && after == before + (if status == Declined then [] else [EvPartyChanged])
    requires |after| <= k < l < |h| && h[k].EvEscalated? && h[l] == EvApproved(true)
    ensures |before| < k && h[|before|] == EvPartyChanged
  {
    assert h[..|before|] == before;
    DeclinedStops(h, |before|);
  }

  /**
   * The party change, escalation and senior approval are guaranteed to any accreditation found
   * active some time after its pair's affiliation ended, exactly when the end did not find it
   * flagged already: a flagged one has a continuation that is active without a party change since.
   */
  lemma ReadmissionAlwaysShowsIff(r: Run, id: Id)
    requires Clocked(r) && JustEnded(r, id)
    ensures ReadmissionAlwaysShows(r, id) <==> Exec(r.prev).accreditations[id].status != PartyChangedPending
  {
    if Exec(r.prev).accreditations[id].status == PartyChangedPending {
      var later := ReadmittedUnshown(r, id);
    } else {
      forall later | Clocked(later) && Extends(later, r)
                     && id < |Exec(later).accreditations| && Exec(later).accreditations[id].status == Active
        ensures LogShowsReadmission(later, r, id)
      {
        UnflaggedReadmissionShows(later, r, id);
      }
    }
  }

  lemma DeclinedStops(h: seq<Event>, n: nat)
    requires Accepts(h) && n < |h| && NodeAt(h, n).At?
    ensures NodeAt(h, n).status != Declined
  {
    NodeStep(h, n);
    PrefixAccepted(h, n + 1);
  }

  lemma ActiveAfterFlag(later: Run, r: Run, id: Id) returns (k: nat, l: nat)
    requires Extends(later, r)
    requires id < |Exec(r).accreditations| && id < |Exec(later).accreditations|
    requires Exec(r).accreditations[id].status == PartyChangedPending || Exec(r).accreditations[id].status == Declined
    requires Exec(later).accreditations[id].status == Active
    ensures |History(r, id)| <= k < l < |History(later, id)|
    ensures History(later, id)[k].EvEscalated? && History(later, id)[l] == EvApproved(true)
  {
    HistoriesAreAccepted(r, id);
    HistoriesAreAccepted(later, id);
    HistoryGrows(later, r, id);
    assert History(later, id)[..|History(r, id)|] == History(r, id);
    k, l := ActiveAgain(History(later, id), |History(r, id)|);
  }

  /** A requested accreditation's pair holds an active affiliation, in every reachable state. */
  lemma RequestedMeansAffiliated(r: Run, id: Id)
    requires id < |Exec(r).accreditations| && Exec(r).accreditations[id].status == Requested
    ensures var request := Exec(r).accreditations[id].request;
            exists i | 0 <= i < |Exec(r).affiliations| ::
              var a := Exec(r).affiliations[i];
              a.broker == request.broker && a.business == request.business && a.status == AffiliationActive
  {
    Reachable(r);
    hide Exec;
    var request := Exec(r).accreditations[id].request;
    var i :| 0 <= i < |Exec(r).affiliations| && IsPair(Exec(r).affiliations[i], request.broker, request.business)
             && Exec(r).affiliations[i].status == AffiliationActive;
  }

  // ---------------------------------------------------------------- readmission without a party change

  /** The accreditation is at a node of the automaton at the end of a clocked run. */
  ghost predicate StandsAt(r: Run, id: Id, status: AccreditationStatus) {
    && Clocked(r) && id < |Exec(r).accreditations|
    && DeltaStar(History(r, id)).At? && DeltaStar(History(r, id)).status == status
  }

  lemma StandsAtStatus(r: Run, id: Id)
    requires Clocked(r) && id < |Exec(r).accreditations|
    ensures StandsAt(r, id, Exec(r).accreditations[id].status)
  {
    HistoriesAreAccepted(r, id);
  }

  /** One more event of the accreditation, and the node it leads to. */
  lemma Continue(r: Run, id: Id, e: Event) returns (later: Run)
    requires Clocked(r) && id < |Exec(r).accreditations| && Delta(DeltaStar(History(r, id)), e) != Stuck
    ensures Extends(later, r) && History(later, id) == History(r, id) + [e]
    ensures Clocked(later) && id < |Exec(later).accreditations|
    ensures DeltaStar(History(later, id)) == Delta(DeltaStar(History(r, id)), e)
  {
    HistoriesAreAccepted(r, id);
    later := Realise(r, id, e);
    AccreditationsKeepIdentity(later, r);
    assert (History(r, id) + [e])[..|History(r, id)|] == History(r, id);
  }

  /** The way back from a party change: escalated, approved by a senior approver, activated. */
  lemma Readmit(r: Run, id: Id) returns (later: Run)
    requires StandsAt(r, id, PartyChangedPending)
    ensures StandsAt(later, id, Active) && Extends(later, r)
    ensures History(later, id) == History(r, id) + [EvEscalated, EvApproved(true), EvActivated]
  {
    hide Exec, Perform, Try, DeltaStar, History;
    var escalated := Continue(r, id, EvEscalated);
    var approved := Continue(escalated, id, EvApproved(true));
    later := Continue(approved, id, EvActivated);
    ExtendsIsTransitive(approved, escalated, r);
    ExtendsIsTransitive(later, approved, r);
  }

  /** Found flagged by the end, an accreditation can be active again with no party change since. */
  lemma ReadmittedUnshown(r: Run, id: Id) returns (later: Run)
    requires Clocked(r) && JustEnded(r, id) && Exec(r.prev).accreditations[id].status == PartyChangedPending
    ensures Clocked(later) && Extends(later, r)
    ensures id < |Exec(later).accreditations| && Exec(later).accreditations[id].status == Active
    ensures History(later, id) == History(r.prev, id) + [EvEscalated, EvApproved(true), EvActivated]
    ensures !LogShowsReadmission(later, r, id)
  {
    hide Exec, Perform, Try, DeltaStar, History;
    EndFlagsHeldAccreditations(r, id);
    AccreditationsKeepIdentity(r, r.prev);
    StandsAtStatus(r, id);
    later := Readmit(r, id);
    StandsAtStatus(later, id);
  }

  lemma Flagged() returns (r: Run)
    ensures StandsAt(r, 0, PartyChangedPending)
  {
    hide Exec, Perform, Try;
    var first := FirstRequest();
    assert [EvRequested][..0] == [];
    r := Continue(first, 0, EvPartyChanged);
  }

  lemma EndAgain(r: Run, a: Id) returns (end: Run)
    requires Clocked(r) && 0 < |Exec(r).accreditations|
    requires var request := Exec(r).accreditations[0].request;
             a < |Exec(r).affiliations| && IsPair(Exec(r).affiliations[a], request.broker, request.business)
             && IsLive(Exec(r).affiliations[a])
    ensures Clocked(end) && end.Then? && end.prev == r && JustEnded(end, 0)
  {
    end := Do(r, OnAffiliation(EndAffiliation(Exec(r).accreditations[0].request.broker, a, None)));
  }

  /** A second affiliation of a flagged accreditation's pair ends. */
  lemma SecondEnd() returns (end: Run)
    ensures Clocked(end) && JustEnded(end, 0) && Exec(end.prev).accreditations[0].status == PartyChangedPending
  {
    hide Exec, Perform, Try;
    var flagged := Flagged();
    StandsAtStatus(flagged, 0);
    var joined, a := Affiliate(flagged, 0);
    end := EndAgain(joined, a);
  }

  /**
   * A run in which the party change is not logged again: the accreditation was already flagged when
   * a second affiliation of its pair ended, and is active later with no party change since that end.
   */
  lemma PartyChangeIsNotRepeated() returns (end: Run, later: Run)
    ensures Clocked(later) && Extends(later, end) && JustEnded(end, 0)
    ensures 0 < |Exec(later).accreditations| && Exec(later).accreditations[0].status == Active
    ensures History(later, 0) == History(end.prev, 0) + [EvEscalated, EvApproved(true), EvActivated]
  {
    end := SecondEnd();
    later := ReadmittedUnshown(end, 0);
  }
}
