/** Broker profiles: partial saves, association memberships, and the submit gate. */
module Profiles {
  import opened Common
  import opened Columns

  datatype Status =
    | Draft | Submitted | InVerification | Verified | ProfileActive
    | Incomplete | AttentionRequired | Blacklisted | Suspended | Deactivated

  /** The columns a partial save may touch. */
  datatype Column =
    | FirstName | LastName | OtherNames | DateOfBirth | Gender | PhoneNumber | MobileNumber
    | HomeAddress | PostalAddress | RightToWorkStatus | ExperienceYears | LicenceTypeHeld
    | CreditLicenceNumber | CreditRepresentativeNumber | LicensingEntityName | LicensingEntityNumber

  datatype Membership = Membership(association: string, number: string)

  datatype Profile = Profile(
    status: Status, columns: map<Column, Value>, memberships: map<Id, Membership>,
    attestedAt: Option<Time>, photo: Option<string>)

  /** Membership ids are issued from a counter. */
  datatype State = State(profiles: seq<Profile>, issued: nat)

  datatype Item = ColumnItem(column: Column) | MembershipsItem | AttestationItem

  datatype Failure =
    | NotFound
    | NotEditable(status: Status)
    | Incomplete(items: seq<Item>)
    | MembershipNotFound
    | NotNullViolation

  // ---------------------------------------------------------------- what is missing

  const OWN_LICENCE := Text("own_credit_licence")
  const REPRESENTATIVE := Text("credit_representative")

  /** What the completeness rules say of one item, independently of how the list is computed. */
  predicate Missing(p: Profile, item: Item) {
    match item
    case MembershipsItem => p.memberships == map[]
    case AttestationItem => p.attestedAt.None?
    case ColumnItem(c) =>
      match c
      case HomeAddress => !CompleteAddress(Get(p.columns, c))
      case CreditLicenceNumber => Get(p.columns, LicenceTypeHeld) == OWN_LICENCE && Absent(Get(p.columns, c))
      case CreditRepresentativeNumber => Get(p.columns, LicenceTypeHeld) == REPRESENTATIVE && Absent(Get(p.columns, c))
      case LicensingEntityName => Get(p.columns, LicenceTypeHeld) == REPRESENTATIVE && Absent(Get(p.columns, c))
      case LicensingEntityNumber => Get(p.columns, LicenceTypeHeld) == REPRESENTATIVE && Absent(Get(p.columns, c))
      case FirstName => Absent(Get(p.columns, c))
      case LastName => Absent(Get(p.columns, c))
      case DateOfBirth => Absent(Get(p.columns, c))
      case PhoneNumber => Absent(Get(p.columns, c))
      case MobileNumber => Absent(Get(p.columns, c))
      case ExperienceYears => Absent(Get(p.columns, c))
      case LicenceTypeHeld => Absent(Get(p.columns, c))
      case _ => false
  }

  /** The order the items are reported in. */
  function ItemAt(i: nat): Item {
    match i
    case 0 => ColumnItem(FirstName)
    case 1 => ColumnItem(LastName)
    case 2 => ColumnItem(DateOfBirth)
    case 3 => ColumnItem(PhoneNumber)
    case 4 => ColumnItem(MobileNumber)
    case 5 => ColumnItem(ExperienceYears)
    case 6 => ColumnItem(HomeAddress)
    case 7 => ColumnItem(LicenceTypeHeld)
    case 8 => ColumnItem(CreditLicenceNumber)
    case 9 => ColumnItem(CreditRepresentativeNumber)
    case 10 => ColumnItem(LicensingEntityName)
    case 11 => ColumnItem(LicensingEntityNumber)
    case 12 => MembershipsItem
    case _ => AttestationItem
  }

  const ITEMS: nat := 14

  /** The missing ones among the first `n` items, in order. */
  function MissingUpTo(p: Profile, n: nat): seq<Item> {
    if n == 0 then []
    else MissingUpTo(p, n - 1) + if Missing(p, ItemAt(n - 1)) then [ItemAt(n - 1)] else []
  }

  function Outstanding(p: Profile): seq<Item> {
    MissingUpTo(p, ITEMS)
  }

  lemma {:induction false} MissingUpToMembers(p: Profile, n: nat, item: Item)
    ensures item in MissingUpTo(p, n) <==> Missing(p, item) && exists i: nat | i < n :: ItemAt(i) == item
  {
    if n != 0 {
      MissingUpToMembers(p, n - 1, item);
    }
  }

  lemma {:induction false} NothingMissing(p: Profile, i: nat, j: nat)
    requires i <= j && forall k: nat | i <= k < j :: !Missing(p, ItemAt(k))
    ensures MissingUpTo(p, j) == MissingUpTo(p, i)
  {
    if i < j {
      NothingMissing(p, i, j - 1);
      assert MissingUpTo(p, j - 1) + [] == MissingUpTo(p, j - 1);
    }
  }

  /** Where an item that can be missing stands in the order. */
  function Position(item: Item): nat {
    match item
    case MembershipsItem => 12
    case AttestationItem => 13
    case ColumnItem(c) =>
      match c
      case FirstName => 0
      case LastName => 1
      case DateOfBirth => 2
      case PhoneNumber => 3
      case MobileNumber => 4
      case ExperienceYears => 5
      case HomeAddress => 6
      case LicenceTypeHeld => 7
      case CreditLicenceNumber => 8
      case CreditRepresentativeNumber => 9
      case LicensingEntityName => 10
      case _ => 11
  }

  /** The reported list names exactly what is missing. */
  lemma OutstandingIsExact(p: Profile, item: Item)
    ensures item in Outstanding(p) <==> Missing(p, item)
  {
    MissingUpToMembers(p, ITEMS, item);
    assert Missing(p, item) ==> ItemAt(Position(item)) == item;
  }

  /** Nothing outstanding means nothing missing. */
  lemma CompleteIffNothingOutstanding(p: Profile)
    ensures Outstanding(p) == [] <==> forall item :: !Missing(p, item)
  {
    forall item ensures item in Outstanding(p) <==> Missing(p, item) {
      OutstandingIsExact(p, item);
    }
    if Outstanding(p) != [] {
      assert Missing(p, Outstanding(p)[0]) by {
        assert Outstanding(p)[0] in Outstanding(p);
      }
    }
  }

  // ---------------------------------------------------------------- the calls

  /** The last two are what identity verification does to the status, whenever it does it. */
  datatype Op =
    | RegisterBroker(firstName: string, lastName: string)
    | UpdateBrokerProfile(id: Id, patch: map<Column, Value>)
    | UpdateMyPhoto(id: Id, url: string)
    | AttestTerms(id: Id)
    | SubmitProfile(id: Id)
    | CreateMembership(id: Id, membership: Membership)
    | UpdateMembership(id: Id, key: Id, association: Option<string>, number: Option<string>)
    | DeleteMembership(id: Id, key: Id)
    | InitiateVerification(id: Id)
    | ReviewerDecide(id: Id, approve: bool)

  predicate Editable(status: Status) {
    status == Draft || status == AttentionRequired
  }

  /** The row and its editability, as every gated call reads them first. */
  function Gate(s: State, id: Id): Result<Profile, Failure> {
    if id >= |s.profiles| then Throw(NotFound)
    else if !Editable(s.profiles[id].status) then Throw(NotEditable(s.profiles[id].status))
    else Ok(s.profiles[id])
  }

  function Put(s: State, id: Id, p: Profile): State
    requires id < |s.profiles|
  {
    s.(profiles := s.profiles[id := p])
  }

  function Patched(sent: Option<string>, current: string): string {
    if sent.Some? then sent.value else current
  }

  function TryUpdate(s: State, id: Id, patch: map<Column, Value>): Result<State, Failure> {
    if patch == map[] then Ok(s)
    else
      match Gate(s, id)
      case Throw(e) => Throw(e)
      case Ok(p) =>
        if Get(p.columns + patch, FirstName) == Null || Get(p.columns + patch, LastName) == Null then Throw(NotNullViolation)
        else Ok(Put(s, id, p.(columns := p.columns + patch)))
  }

  function TrySubmit(s: State, id: Id): Result<State, Failure> {
    match Gate(s, id)
    case Throw(e) => Throw(e)
    case Ok(p) =>
      if Outstanding(p) != [] then Throw(Failure.Incomplete(Outstanding(p)))
      else Ok(Put(s, id, p.(status := Submitted)))
  }

  function TryUpdateMembership(s: State, id: Id, membership: Id, association: Option<string>, number: Option<string>): Result<State, Failure> {
    match Gate(s, id)
    case Throw(e) => Throw(e)
    case Ok(p) =>
      if association.None? && number.None? then Ok(s)
      else if membership !in p.memberships then Throw(MembershipNotFound)
      else
        var m := p.memberships[membership];
        var changed := Membership(Patched(association, m.association), Patched(number, m.number));
        Ok(Put(s, id, p.(memberships := p.memberships[membership := changed])))
  }

  function TryDeleteMembership(s: State, id: Id, membership: Id): Result<State, Failure> {
    match Gate(s, id)
    case Throw(e) => Throw(e)
    case Ok(p) =>
      if membership !in p.memberships then Throw(MembershipNotFound)
      else Ok(Put(s, id, p.(memberships := p.memberships - {membership})))
  }

  function Try(s: State, op: Op, at: Time): Result<State, Failure> {
    match op
    case RegisterBroker(first, last) =>
      Ok(s.(profiles := s.profiles + [Profile(Draft, map[FirstName := Text(first), LastName := Text(last)], map[], None, None)]))
    case UpdateBrokerProfile(id, patch) => TryUpdate(s, id, patch)
    case UpdateMyPhoto(id, url) =>
      if id >= |s.profiles| then Throw(NotFound) else Ok(Put(s, id, s.profiles[id].(photo := Some(url))))
    case AttestTerms(id) =>
      if id >= |s.profiles| then Ok(s) else Ok(Put(s, id, s.profiles[id].(attestedAt := Some(at))))
    case SubmitProfile(id) => TrySubmit(s, id)
    case CreateMembership(id, membership) =>
      (match Gate(s, id)
       case Throw(e) => Throw(e)
       case Ok(p) => Ok(Put(s, id, p.(memberships := p.memberships[s.issued := membership])).(issued := s.issued + 1)))
    case UpdateMembership(id, membership, association, number) => TryUpdateMembership(s, id, membership, association, number)
    case DeleteMembership(id, membership) => TryDeleteMembership(s, id, membership)
    case InitiateVerification(id) =>
      if id >= |s.profiles| then Ok(s) else Ok(Put(s, id, s.profiles[id].(status := InVerification)))
    case ReviewerDecide(id, approve) =>
      if id >= |s.profiles| then Ok(s)
      else Ok(Put(s, id, s.profiles[id].(status := if approve then Verified else AttentionRequired)))
  }

  function Perform(s: State, op: Op, at: Time): State {
    match Try(s, op, at)
    case Throw(_) => s
    case Ok(after) => after
  }

  datatype Run = Start | Then(prev: Run, op: Op, at: Time)

  function Exec(r: Run): State {
    match r
    case Start => State([], 0)
    case Then(prev, op, at) => Perform(Exec(prev), op, at)
  }

  predicate Extends(later: Run, r: Run) {
    later == r || (later.Then? && Extends(later.prev, r))
  }

  /** Submission succeeds exactly on an editable profile with nothing missing, and otherwise changes nothing. */
  lemma SubmitsExactlyWhenComplete(s: State, id: Id, at: Time)
    requires id < |s.profiles|
    ensures Try(s, SubmitProfile(id), at).Ok?
       <==> Editable(s.profiles[id].status) && forall item :: !Missing(s.profiles[id], item)
    ensures Perform(s, SubmitProfile(id), at).profiles[id].status == Submitted
       <==> s.profiles[id].status == Submitted || Try(s, SubmitProfile(id), at).Ok?
  {
    CompleteIffNothingOutstanding(s.profiles[id]);
  }

  // ---------------------------------------------------------------- what every call keeps

  /** What a call may do to an existing profile: outside the editable statuses its data stands still. */
  predicate Moves(p: Profile, q: Profile) {
    && (!Editable(p.status) ==> q.columns == p.columns && q.memberships == p.memberships)
    && (p.attestedAt.Some? ==> q.attestedAt.Some?)
    && (q.status == Submitted && p.status != Submitted ==>
          Editable(p.status) && Outstanding(p) == [] && q == p.(status := Submitted))
  }

  lemma StepMoves(s: State, op: Op, at: Time)
    ensures |s.profiles| <= |Perform(s, op, at).profiles|
    ensures forall i | 0 <= i < |s.profiles| :: Moves(s.profiles[i], Perform(s, op, at).profiles[i])
    ensures forall i | |s.profiles| <= i < |Perform(s, op, at).profiles| :: Perform(s, op, at).profiles[i].status == Draft
  {
  }

  /** The same items are missing from two profiles that agree on everything the rules look at. */
  lemma SameMissing(p: Profile, q: Profile)
    requires q.columns == p.columns && q.memberships == p.memberships && (p.attestedAt.Some? ==> q.attestedAt.Some?)
    requires Outstanding(p) == []
    ensures Outstanding(q) == []
  {
    CompleteIffNothingOutstanding(p);
    CompleteIffNothingOutstanding(q);
    forall item ensures !Missing(q, item) {
      assert !Missing(p, item);
    }
  }

  /** In every run, whatever was called in whatever order, a submitted profile has nothing outstanding. */
  lemma {:induction false} SubmittedIsComplete(r: Run, id: Id)
    requires id < |Exec(r).profiles| && Exec(r).profiles[id].status == Submitted
    ensures Outstanding(Exec(r).profiles[id]) == []
  {
    StepMoves(Exec(r.prev), r.op, r.at);
    var p, q := Exec(r.prev).profiles[id], Exec(r).profiles[id];
    if p.status == Submitted {
      SubmittedIsComplete(r.prev, id);
    }
    SameMissing(p, q);
  }

  /** The profile is out of the broker's hands at the end of `r` and of every later call up to `later`. */
  predicate Locked(later: Run, r: Run, id: Id)
    requires Extends(later, r)
  {
    && id < |Exec(later).profiles| && !Editable(Exec(later).profiles[id].status)
    && (later == r || Locked(later.prev, r, id))
  }

  /** From submission until it is editable again, a profile's data and memberships do not change. */
  lemma {:induction false} LockedIsFrozen(later: Run, r: Run, id: Id)
    requires Extends(later, r) && Locked(later, r, id)
    ensures id < |Exec(r).profiles|
    ensures Exec(later).profiles[id].columns == Exec(r).profiles[id].columns
    ensures Exec(later).profiles[id].memberships == Exec(r).profiles[id].memberships
  {
    if later != r {
      LockedIsFrozen(later.prev, r, id);
      StepMoves(Exec(later.prev), later.op, later.at);
    }
  }

  // ---------------------------------------------------------------- the repository

  class ProfileRepository {
    var profiles: seq<Profile>
    var issued: nat

    constructor ()
      ensures Contents() == Exec(Start)
    {
      profiles, issued := [], 0;
    }

    function Contents(): State
      reads this
    {
      State(profiles, issued)
    }

    twostate predicate Performed(op: Op, at: Time, new r: Result<(), Failure>)
      reads this
    {
      && Contents() == Perform(old(Contents()), op, at)
      && match Try(old(Contents()), op, at) {
           case Throw(e) => r == Throw(e)
           case Ok(_) => r == Ok(())
         }
    }

    /** Pushes item `i` of the order when it is missing. */
    method Consider(ghost p: Profile, ghost i: nat, items: seq<Item>, missing: bool, item: Item) returns (after: seq<Item>)
      requires ItemAt(i) == item && missing == Missing(p, item)
      requires items == MissingUpTo(p, i)
      ensures after == MissingUpTo(p, i + 1)
    {
      after := items;
      if missing {
        after := items + [item];
      }
    }

    method Require(ghost p: Profile, ghost i: nat, items: seq<Item>, value: Value, column: Column) returns (after: seq<Item>)
      requires ItemAt(i) == ColumnItem(column) && Absent(value) == Missing(p, ColumnItem(column))
      requires items == MissingUpTo(p, i)
      ensures after == MissingUpTo(p, i + 1)
    {
      after := Consider(p, i, items, value == Null || value == Text(""), ColumnItem(column));
    }

    /** The list the gate and the plain read both compute, push by push. */
    method ComputeOutstandingItems(p: Profile, membershipCount: nat) returns (items: seq<Item>)
      requires membershipCount == |p.memberships|
      ensures items == Outstanding(p)
    {
      items := RequirePersonal(p);
      items := Consider(p, 6, items, !CompleteAddress(Get(p.columns, HomeAddress)), ColumnItem(HomeAddress));
      items := Require(p, 7, items, Get(p.columns, LicenceTypeHeld), LicenceTypeHeld);
      items := RequireLicence(p, items);
      items := Consider(p, 12, items, membershipCount == 0, MembershipsItem);
      items := Consider(p, 13, items, p.attestedAt.None?, AttestationItem);
    }

    /** The personal columns, in order. */
    method RequirePersonal(p: Profile) returns (items: seq<Item>)
      ensures items == MissingUpTo(p, 6)
    {
      items := [];
      items := Require(p, 0, items, Get(p.columns, FirstName), FirstName);
      items := Require(p, 1, items, Get(p.columns, LastName), LastName);
      items := Require(p, 2, items, Get(p.columns, DateOfBirth), DateOfBirth);
      items := Require(p, 3, items, Get(p.columns, PhoneNumber), PhoneNumber);
      items := Require(p, 4, items, Get(p.columns, MobileNumber), MobileNumber);
      items := Require(p, 5, items, Get(p.columns, ExperienceYears), ExperienceYears);
    }

    /** What the licence type held asks for besides. */
    method RequireLicence(p: Profile, items: seq<Item>) returns (after: seq<Item>)
      requires items == MissingUpTo(p, 8)
      ensures after == MissingUpTo(p, 12)
    {
      after := items;
      if Get(p.columns, LicenceTypeHeld) == Text("own_credit_licence") {
        after := Require(p, 8, after, Get(p.columns, CreditLicenceNumber), CreditLicenceNumber);
        NothingMissing(p, 9, 12);
      } else if Get(p.columns, LicenceTypeHeld) == Text("credit_representative") {
        NothingMissing(p, 8, 9);
        after := Require(p, 9, after, Get(p.columns, CreditRepresentativeNumber), CreditRepresentativeNumber);
        after := Require(p, 10, after, Get(p.columns, LicensingEntityName), LicensingEntityName);
        after := Require(p, 11, after, Get(p.columns, LicensingEntityNumber), LicensingEntityNumber);
      } else {
        NothingMissing(p, 8, 12);
      }
    }

    method Find(id: Id) returns (r: Result<Profile, Failure>)
      ensures r == Gate(Contents(), id)
    {
      if id >= |profiles| {
        return Throw(NotFound);
      }
      if profiles[id].status != Draft && profiles[id].status != AttentionRequired {
        return Throw(NotEditable(profiles[id].status));
      }
      return Ok(profiles[id]);
    }

    method Register(firstName: string, lastName: string, now: Time)
      modifies this
      ensures Performed(RegisterBroker(firstName, lastName), now, Ok(()))
    {
      profiles := profiles + [Profile(Draft, map[FirstName := Text(firstName), LastName := Text(lastName)], map[], None, None)];
    }

    method Update(id: Id, patch: map<Column, Value>, now: Time) returns (r: Result<(), Failure>)
      modifies this
      ensures Performed(UpdateBrokerProfile(id, patch), now, r)
    {
      if patch == map[] {
        return Ok(());
      }
      var found := Find(id);
      if found.Throw? {
        return Throw(found.error);
      }
      var columns := found.value.columns + patch;
      if Get(columns, FirstName) == Null || Get(columns, LastName) == Null {
        return Throw(NotNullViolation);
      }
      profiles := profiles[id := found.value.(columns := columns)];
      return Ok(());
    }

    method Attest(id: Id, now: Time)
      modifies this
      ensures Performed(AttestTerms(id), now, Ok(()))
    {
      if id < |profiles| {
        profiles := profiles[id := profiles[id].(attestedAt := Some(now))];
      }
    }

    /** The gate and the status change in one transaction; a refusal carries the list. */
    method Submit(id: Id, now: Time) returns (r: Result<(), Failure>)
      modifies this
      ensures Performed(SubmitProfile(id), now, r)
    {
      var found := Find(id);
      if found.Throw? {
        return Throw(found.error);
      }
      var items := ComputeOutstandingItems(found.value, |found.value.memberships|);
      if |items| > 0 {
        return Throw(Failure.Incomplete(items));
      }
      profiles := profiles[id := found.value.(status := Submitted)];
      return Ok(());
    }

    method AddMembership(id: Id, membership: Membership, now: Time) returns (r: Result<(), Failure>)
      modifies this
      ensures Performed(CreateMembership(id, membership), now, r)
    {
      var found := Find(id);
      if found.Throw? {
        return Throw(found.error);
      }
      profiles := profiles[id := found.value.(memberships := found.value.memberships[issued := membership])];
      issued := issued + 1;
      return Ok(());
    }

    method RemoveMembership(id: Id, membership: Id, now: Time) returns (r: Result<(), Failure>)
      modifies this
      ensures Performed(DeleteMembership(id, membership), now, r)
    {
      var found := Find(id);
      if found.Throw? {
        return Throw(found.error);
      }
      if membership !in found.value.memberships {
        return Throw(MembershipNotFound);
      }
      profiles := profiles[id := found.value.(memberships := found.value.memberships - {membership})];
      return Ok(());
    }
  }
}
