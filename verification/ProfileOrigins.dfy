/** When a profile call succeeds, what a complete profile holds, and which call gave every profile each of its fields. */
module ProfileOrigins {
  import opened Common
  import opened Columns
  import opened Profiles

  // ---------------------------------------------------------------- completeness, column by column

  predicate Filled(p: Profile, c: Column) {
    c in p.columns && p.columns[c] != Null && p.columns[c] != Text("")
  }

  predicate IsAddress(v: Value) {
    && v.Address?
    && v.line1.Some? && v.line1.value != "" && v.city.Some? && v.city.value != ""
    && v.postcode.Some? && v.postcode.value != "" && v.state.Some? && v.state.value != ""
  }

  predicate Holds(p: Profile, licence: string) {
    LicenceTypeHeld in p.columns && p.columns[LicenceTypeHeld] == Text(licence)
  }

  predicate Complete(p: Profile) {
    && Filled(p, FirstName) && Filled(p, LastName) && Filled(p, DateOfBirth) && Filled(p, PhoneNumber) && Filled(p, MobileNumber)
    && Filled(p, ExperienceYears) && HomeAddress in p.columns && IsAddress(p.columns[HomeAddress])
    && Filled(p, LicenceTypeHeld)
    && (Holds(p, "own_credit_licence") ==> Filled(p, CreditLicenceNumber))
    && (Holds(p, "credit_representative") ==>
          Filled(p, CreditRepresentativeNumber) && Filled(p, LicensingEntityName) && Filled(p, LicensingEntityNumber))
    && p.memberships != map[] && p.attestedAt.Some?
  }

  function When(condition: bool, item: Item): seq<Item> {
    if condition then [item] else []
  }

  function Unfilled(p: Profile, c: Column): seq<Item> {
    When(!Filled(p, c), ColumnItem(c))
  }

  /** What is reported of who the broker is and how to reach them. */
  function ContactItems(p: Profile): seq<Item> {
    Unfilled(p, FirstName) + Unfilled(p, LastName) + Unfilled(p, DateOfBirth) + Unfilled(p, PhoneNumber)
  }

  /** What is reported of the rest of the personal columns. */
  function PersonalItems(p: Profile): seq<Item> {
    Unfilled(p, MobileNumber) + Unfilled(p, ExperienceYears)
    + When(!(HomeAddress in p.columns && IsAddress(p.columns[HomeAddress])), ColumnItem(HomeAddress))
  }

  /** What is reported of the licence: its type, then what that type asks for. */
  function LicenceItems(p: Profile): seq<Item> {
    Unfilled(p, LicenceTypeHeld)
    + if Holds(p, "own_credit_licence") then Unfilled(p, CreditLicenceNumber)
      else if Holds(p, "credit_representative") then
        Unfilled(p, CreditRepresentativeNumber) + Unfilled(p, LicensingEntityName) + Unfilled(p, LicensingEntityNumber)
      else []
  }

  /** One more item of the order. */
  lemma ListsNext(p: Profile, n: nat, items: seq<Item>, item: Item, missing: bool)
    requires MissingUpTo(p, n) == items && ItemAt(n) == item && Missing(p, item) == missing
    ensures MissingUpTo(p, n + 1) == items + When(missing, item)
  {
  }

  /** What the rules on the columns asked of everyone say. */
  lemma MissingMeans(p: Profile)
    ensures Missing(p, ColumnItem(FirstName)) == !Filled(p, FirstName) && Missing(p, ColumnItem(LastName)) == !Filled(p, LastName)
    ensures Missing(p, ColumnItem(DateOfBirth)) == !Filled(p, DateOfBirth) && Missing(p, ColumnItem(PhoneNumber)) == !Filled(p, PhoneNumber)
    ensures Missing(p, ColumnItem(MobileNumber)) == !Filled(p, MobileNumber)
    ensures Missing(p, ColumnItem(ExperienceYears)) == !Filled(p, ExperienceYears)
    ensures Missing(p, ColumnItem(HomeAddress)) == !(HomeAddress in p.columns && IsAddress(p.columns[HomeAddress]))
  {
  }

  lemma ContactIsListed(p: Profile)
    ensures MissingUpTo(p, 4) == ContactItems(p)
  {
    assert MissingUpTo(p, 0) == [];
    MissingMeans(p);
    hide MissingUpTo, When, Missing, Filled, IsAddress;
    ListsNext(p, 0, [], ColumnItem(FirstName), !Filled(p, FirstName));
    ListsNext(p, 1, MissingUpTo(p, 1), ColumnItem(LastName), !Filled(p, LastName));
    ListsNext(p, 2, MissingUpTo(p, 2), ColumnItem(DateOfBirth), !Filled(p, DateOfBirth));
    ListsNext(p, 3, MissingUpTo(p, 3), ColumnItem(PhoneNumber), !Filled(p, PhoneNumber));
  }

  lemma PersonalIsListed(p: Profile)
    ensures MissingUpTo(p, 7) == MissingUpTo(p, 4) + PersonalItems(p)
  {
    MissingMeans(p);
    hide MissingUpTo, When, Missing, Filled, IsAddress;
    ListsNext(p, 4, MissingUpTo(p, 4), ColumnItem(MobileNumber), !Filled(p, MobileNumber));
    ListsNext(p, 5, MissingUpTo(p, 5), ColumnItem(ExperienceYears), !Filled(p, ExperienceYears));
    ListsNext(p, 6, MissingUpTo(p, 6), ColumnItem(HomeAddress), !(HomeAddress in p.columns && IsAddress(p.columns[HomeAddress])));
  }

  lemma OwnLicenceIsListed(p: Profile)
    requires Holds(p, "own_credit_licence")
    ensures MissingUpTo(p, 12) == MissingUpTo(p, 8) + Unfilled(p, CreditLicenceNumber)
    ensures LicenceItems(p) == Unfilled(p, LicenceTypeHeld) + Unfilled(p, CreditLicenceNumber)
  {
    assert "own_credit_licence"[0] != "credit_representative"[0];
    ListsNext(p, 8, MissingUpTo(p, 8), ColumnItem(CreditLicenceNumber), !Filled(p, CreditLicenceNumber));
    hide MissingUpTo, When;
    NothingMissing(p, 9, 12);
  }

  lemma RepresentativeIsAsked(p: Profile)
    requires Holds(p, "credit_representative")
    ensures !Missing(p, ColumnItem(CreditLicenceNumber))
    ensures Missing(p, ColumnItem(CreditRepresentativeNumber)) == !Filled(p, CreditRepresentativeNumber)
    ensures Missing(p, ColumnItem(LicensingEntityName)) == !Filled(p, LicensingEntityName)
    ensures Missing(p, ColumnItem(LicensingEntityNumber)) == !Filled(p, LicensingEntityNumber)
  {
    assert "own_credit_licence"[0] != "credit_representative"[0];
  }

  lemma RepresentativeIsListed(p: Profile)
    requires Holds(p, "credit_representative")
    ensures MissingUpTo(p, 12) == MissingUpTo(p, 8)
         + Unfilled(p, CreditRepresentativeNumber) + Unfilled(p, LicensingEntityName) + Unfilled(p, LicensingEntityNumber)
    ensures LicenceItems(p) == Unfilled(p, LicenceTypeHeld)
         + (Unfilled(p, CreditRepresentativeNumber) + Unfilled(p, LicensingEntityName) + Unfilled(p, LicensingEntityNumber))
  {
    HoldsOne(p);
    RepresentativeIsAsked(p);
    hide MissingUpTo, When, Missing, Filled, Holds;
    NothingMissing(p, 8, 9);
    ListsNext(p, 9, MissingUpTo(p, 9), ColumnItem(CreditRepresentativeNumber), !Filled(p, CreditRepresentativeNumber));
    ListsNext(p, 10, MissingUpTo(p, 10), ColumnItem(LicensingEntityName), !Filled(p, LicensingEntityName));
    ListsNext(p, 11, MissingUpTo(p, 11), ColumnItem(LicensingEntityNumber), !Filled(p, LicensingEntityNumber));
  }

  lemma LicenceIsListed(p: Profile)
    ensures MissingUpTo(p, 12) == MissingUpTo(p, 7) + LicenceItems(p)
  {
    hide MissingUpTo, When;
    ListsNext(p, 7, MissingUpTo(p, 7), ColumnItem(LicenceTypeHeld), !Filled(p, LicenceTypeHeld));
    if Holds(p, "own_credit_licence") {
      OwnLicenceIsListed(p);
    } else if Holds(p, "credit_representative") {
      RepresentativeIsListed(p);
    } else {
      NothingMissing(p, 8, 12);
    }
  }

  /** The list, in the order it is reported, whatever is filled in. */
  lemma OutstandingInOrder(p: Profile)
    ensures Outstanding(p)
         == ContactItems(p) + PersonalItems(p) + LicenceItems(p)
            + When(p.memberships == map[], MembershipsItem) + When(p.attestedAt == None, AttestationItem)
  {
    ContactIsListed(p);
    PersonalIsListed(p);
    LicenceIsListed(p);
    hide ContactItems, PersonalItems, LicenceItems;
    assert MissingUpTo(p, 13) == MissingUpTo(p, 12) + When(p.memberships == map[], MembershipsItem);
    assert MissingUpTo(p, 14) == MissingUpTo(p, 13) + When(p.attestedAt == None, AttestationItem);
  }

  lemma CompleteMeansNothingOutstanding(p: Profile)
    ensures Complete(p) <==> Outstanding(p) == []
  {
    OutstandingInOrder(p);
    hide Outstanding, Filled, IsAddress, Holds;
    assert |ContactItems(p)| == 0
      <==> Filled(p, FirstName) && Filled(p, LastName) && Filled(p, DateOfBirth) && Filled(p, PhoneNumber);
    assert |PersonalItems(p)| == 0
      <==> && Filled(p, MobileNumber) && Filled(p, ExperienceYears)
           && HomeAddress in p.columns && IsAddress(p.columns[HomeAddress]);
    assert |LicenceItems(p)| == 0
      <==> && Filled(p, LicenceTypeHeld)
           && (Holds(p, "own_credit_licence") ==> Filled(p, CreditLicenceNumber))
           && (Holds(p, "credit_representative") ==>
                 Filled(p, CreditRepresentativeNumber) && Filled(p, LicensingEntityName) && Filled(p, LicensingEntityNumber)) by {
      HoldsOne(p);
    }
  }

  lemma HoldsOne(p: Profile)
    ensures !(Holds(p, "own_credit_licence") && Holds(p, "credit_representative"))
  {
    assert "own_credit_licence"[0] != "credit_representative"[0];
  }

  /** In every run a submitted profile has every column its licence type asks for, a membership and an attestation. */
  lemma SubmittedIsFilledIn(r: Run, id: Id)
    requires id < |Exec(r).profiles| && Exec(r).profiles[id].status == Submitted
    ensures Complete(Exec(r).profiles[id])
  {
    SubmittedIsComplete(r, id);
    CompleteMeansNothingOutstanding(Exec(r).profiles[id]);
  }

  // ---------------------------------------------------------------- one call

  predicate InDraft(p: Profile) {
    p.status == Draft || p.status == AttentionRequired
  }

  /** Both names are given. */
  predicate Named(columns: map<Column, Value>) {
    && FirstName in columns && columns[FirstName] != Null
    && LastName in columns && columns[LastName] != Null
  }

  /** The profile a gated call is about. */
  function GatedId(op: Op): Option<Id> {
    match op
    case UpdateBrokerProfile(id, patch) => if patch == map[] then None else Some(id)
    case SubmitProfile(id) => Some(id)
    case CreateMembership(id, _) => Some(id)
    case UpdateMembership(id, _, _, _) => Some(id)
    case DeleteMembership(id, _) => Some(id)
    case _ => None
  }

  /** What a gated call on a profile in draft lacks, if anything. */
  function Lacks(p: Profile, op: Op): Option<Failure> {
    match op
    case UpdateBrokerProfile(_, patch) => if Named(p.columns + patch) then None else Some(NotNullViolation)
    case SubmitProfile(_) => if Complete(p) then None else Some(Failure.Incomplete(Outstanding(p)))
    case UpdateMembership(_, key, association, number) =>
      if key in p.memberships || (association == None && number == None) then None else Some(MembershipNotFound)
    case DeleteMembership(_, key) => if key in p.memberships then None else Some(MembershipNotFound)
    case _ => None
  }

  /** Gated calls need a profile in draft and what they act on; the others only fail on a photo of nobody. */
  lemma CallsSucceedIff(s: State, op: Op, at: Time)
    ensures GatedId(op).Some? ==>
              var id := GatedId(op).value;
              if id >= |s.profiles| then Try(s, op, at) == Throw(NotFound)
              else if !InDraft(s.profiles[id]) then Try(s, op, at) == Throw(NotEditable(s.profiles[id].status))
              else if Lacks(s.profiles[id], op).Some? then Try(s, op, at) == Throw(Lacks(s.profiles[id], op).value)
              else Try(s, op, at).Ok?
    ensures GatedId(op).None? ==>
              if op.UpdateMyPhoto? && op.id >= |s.profiles| then Try(s, op, at) == Throw(NotFound) else Try(s, op, at).Ok?
  {
    if op.SubmitProfile? && op.id < |s.profiles| {
      CompleteMeansNothingOutstanding(s.profiles[op.id]);
    }
  }

  /** The memberships of profile `i` after a successful call. */
  function MembershipsAfter(s: State, op: Op, i: Id): map<Id, Membership>
    requires i < |s.profiles|
  {
    var memberships := s.profiles[i].memberships;
    match op
    case CreateMembership(id, m) => if id == i then memberships[s.issued := m] else memberships
    case UpdateMembership(id, key, association, number) =>
      if id == i && key in memberships then
        memberships[key := Membership(if association.Some? then association.value else memberships[key].association,
                                      if number.Some? then number.value else memberships[key].number)]
      else memberships
    case DeleteMembership(id, key) => if id == i then memberships - {key} else memberships
    case _ => memberships
  }

  /** The status of profile `i` after a successful call. */
  function StatusAfter(op: Op, i: Id, status: Status): Status {
    match op
    case SubmitProfile(id) => if id == i then Submitted else status
    case InitiateVerification(id) => if id == i then InVerification else status
    case ReviewerDecide(id, approve) => if id != i then status else if approve then Verified else AttentionRequired
    case _ => status
  }

  /** A successful call changes each field of a profile by itself, and a registration adds one in draft. */
  lemma CallShows(s: State, op: Op, at: Time, i: Id)
    requires Try(s, op, at).Ok? && i < |Try(s, op, at).value.profiles|
    ensures |Try(s, op, at).value.profiles| == |s.profiles| + if op.RegisterBroker? then 1 else 0
    ensures Try(s, op, at).value.issued == s.issued + if op.CreateMembership? then 1 else 0
    ensures var q := Try(s, op, at).value.profiles[i];
            if i < |s.profiles| then
              var p := s.profiles[i];
              && q.status == StatusAfter(op, i, p.status)
              && q.columns == (if op.UpdateBrokerProfile? && op.id == i then p.columns + op.patch else p.columns)
              && q.memberships == MembershipsAfter(s, op, i)
              && q.attestedAt == (if op.AttestTerms? && op.id == i then Some(at) else p.attestedAt)
              && q.photo == (if op.UpdateMyPhoto? && op.id == i then Some(op.url) else p.photo)
            else
              && op.RegisterBroker?
              && q == Profile(Draft, map[FirstName := Text(op.firstName), LastName := Text(op.lastName)], map[], None, None)
  {
    if op.UpdateBrokerProfile? && op.patch == map[] && op.id == i {
      assert s.profiles[i].columns + op.patch == s.profiles[i].columns;
    }
    if op.UpdateMembership? && op.association == None && op.number == None && op.id == i && op.key in s.profiles[i].memberships {
      assert MembershipsAfter(s, op, i) == s.profiles[i].memberships;
    }
  }

  // ---------------------------------------------------------------- whole runs

  /** The value last sent for a column and taken: at registration, or by a save while the profile was in draft. */
  function LastSent(r: Run, id: Id, c: Column): Value {
    match r
    case Start => Null
    case Then(prev, op, _) =>
      if id >= |Exec(prev).profiles| then
        if op.RegisterBroker? && c == FirstName then Text(op.firstName)
        else if op.RegisterBroker? && c == LastName then Text(op.lastName)
        else Null
      else if op.UpdateBrokerProfile? && op.id == id && c in op.patch
              && InDraft(Exec(prev).profiles[id]) && Named(Exec(prev).profiles[id].columns + op.patch) then op.patch[c]
      else LastSent(prev, id, c)
  }

  lemma ColumnStep(s: State, op: Op, at: Time, i: Id, c: Column)
    requires i < |Perform(s, op, at).profiles|
    ensures var columns := Perform(s, op, at).profiles[i].columns;
            if i >= |s.profiles| then
              op.RegisterBroker? && (c in columns <==> c == FirstName || c == LastName)
              && columns[FirstName] == Text(op.firstName) && columns[LastName] == Text(op.lastName)
            else if op.UpdateBrokerProfile? && op.id == i && c in op.patch
                    && InDraft(s.profiles[i]) && Named(s.profiles[i].columns + op.patch) then
              c in columns && columns[c] == op.patch[c]
            else
              && (c in columns <==> c in s.profiles[i].columns)
              && (c in columns ==> columns[c] == s.profiles[i].columns[c])
  {
    CallsSucceedIff(s, op, at);
    if Try(s, op, at).Ok? {
      CallShows(s, op, at, i);
      hide Complete;
      if op.UpdateBrokerProfile? && op.id == i && i < |s.profiles| {
        assert c in op.patch ==> op.patch != map[];
      }
    }
  }

  /** In every run a column holds what was last sent for it and taken, and nothing if nothing ever was. */
  lemma {:induction false} ColumnsAreLastSent(r: Run, id: Id, c: Column)
    requires id < |Exec(r).profiles|
    ensures (if c in Exec(r).profiles[id].columns then Exec(r).profiles[id].columns[c] else Null) == LastSent(r, id, c)
  {
    ColumnStep(Exec(r.prev), r.op, r.at, id, c);
    hide Perform;
    if id < |Exec(r.prev).profiles| {
      ColumnsAreLastSent(r.prev, id, c);
    }
  }

  /** Membership ids are never given twice: all on file were issued before the counter. */
  lemma {:induction false} MembershipIdsAreFresh(r: Run, id: Id, key: Id)
    requires id < |Exec(r).profiles| && key in Exec(r).profiles[id].memberships
    ensures key < Exec(r).issued
    ensures forall other | 0 <= other < |Exec(r).profiles| && key in Exec(r).profiles[other].memberships :: other == id
  {
    var s := Exec(r.prev);
    if Try(s, r.op, r.at).Ok? {
      CallShows(s, r.op, r.at, id);
      forall other: Id | other < |Exec(r).profiles| && key in Exec(r).profiles[other].memberships
        ensures key < Exec(r).issued && other == id
      {
        CallShows(s, r.op, r.at, other);
        if id < |s.profiles| && key in s.profiles[id].memberships {
          MembershipIdsAreFresh(r.prev, id, key);
        }
        if other < |s.profiles| && key in s.profiles[other].memberships {
          MembershipIdsAreFresh(r.prev, other, key);
        }
      }
    } else {
      MembershipIdsAreFresh(r.prev, id, key);
    }
  }
}
