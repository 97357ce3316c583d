/** Broker businesses: partial saves, principals, the sole trader's shortcut, and the submit gate. */
module Businesses {
  import opened Common
  import opened Columns
  import opened BusinessStatuses

  datatype EntityType = Company | SoleTrader | Partnership | Trust

  datatype Column =
    | LegalName | TradingName | Abn | Acn | GstRegistered | TrusteeName | Website | BusinessEmail
    | BusinessAddress | MailingAddress

  /** A removed principal keeps its row. */
  datatype Principal = Principal(role: string, name: string, removed: bool)

  datatype Business = Business(status: BusinessStatus, entity: EntityType, columns: map<Column, Value>, principals: seq<Principal>)

  datatype Item = LegalNameItem | RegistrationItem | GstItem | EmailItem | AddressItem | TrusteeItem | PrincipalsItem

  datatype Failure =
    | NotFound
    | NotEditable(status: BusinessStatus)
    | Incomplete(items: seq<Item>)
    | PrincipalNotFound
    | NotNullViolation

  // ---------------------------------------------------------------- what is missing

  predicate HasPrincipal(b: Business) {
    exists i | 0 <= i < |b.principals| :: !b.principals[i].removed
  }

  predicate Missing(b: Business, item: Item) {
    match item
    case LegalNameItem => Absent(Get(b.columns, LegalName))
    case RegistrationItem => Absent(Get(b.columns, Abn)) && Absent(Get(b.columns, Acn))
    case GstItem => Get(b.columns, GstRegistered) == Null
    case EmailItem => Absent(Get(b.columns, BusinessEmail))
    case AddressItem => !CompleteAddress(Get(b.columns, BusinessAddress))
    case TrusteeItem => b.entity == Trust && Absent(Get(b.columns, TrusteeName))
    case PrincipalsItem => !HasPrincipal(b)
  }

  /** The order the items are reported in. */
  function ItemAt(i: nat): Item {
    match i
    case 0 => LegalNameItem
    case 1 => RegistrationItem
    case 2 => GstItem
    case 3 => EmailItem
    case 4 => AddressItem
    case 5 => TrusteeItem
    case _ => PrincipalsItem
  }

  const ITEMS: nat := 7

  function MissingUpTo(b: Business, n: nat): seq<Item> {
    if n == 0 then []
    else MissingUpTo(b, n - 1) + if Missing(b, ItemAt(n - 1)) then [ItemAt(n - 1)] else []
  }

  function Outstanding(b: Business): seq<Item> {
    MissingUpTo(b, ITEMS)
  }

  lemma {:induction false} MissingUpToMembers(b: Business, n: nat, item: Item)
    ensures item in MissingUpTo(b, n) <==> Missing(b, item) && exists i: nat | i < n :: ItemAt(i) == item
  {
    if n != 0 {
      MissingUpToMembers(b, n - 1, item);
    }
  }

  /** The reported list names exactly what is missing. */
  lemma OutstandingIsExact(b: Business, item: Item)
    ensures item in Outstanding(b) <==> Missing(b, item)
  {
    MissingUpToMembers(b, ITEMS, item);
    assert ItemAt(match item
                  case LegalNameItem => 0
                  case RegistrationItem => 1
                  case GstItem => 2
                  case EmailItem => 3
                  case AddressItem => 4
                  case TrusteeItem => 5
                  case PrincipalsItem => 6) == item;
  }

  lemma CompleteIffNothingOutstanding(b: Business)
    ensures Outstanding(b) == [] <==> forall item :: !Missing(b, item)
  {
    forall item ensures item in Outstanding(b) <==> Missing(b, item) {
      OutstandingIsExact(b, item);
    }
    if Outstanding(b) != [] {
      assert Missing(b, Outstanding(b)[0]) by {
        assert Outstanding(b)[0] in Outstanding(b);
      }
    }
  }

  // ---------------------------------------------------------------- the calls

  /** The last two are what identity verification does to the status, whenever it does it. */
  datatype Op =
    | CreateBusiness(entity: EntityType, columns: map<Column, Value>, firstName: string, lastName: string)
    | UpdateBusiness(id: Id, patch: map<Column, Value>)
    | SubmitBusiness(id: Id)
    | AddPrincipal(id: Id, role: string, name: string)
    | UpdatePrincipal(id: Id, principal: Id, name: string)
    | RemovePrincipal(id: Id, principal: Id)
    | InitiateVerification(id: Id)
    | ReviewerDecide(id: Id, approve: bool)

  predicate Editable(status: BusinessStatus) {
    status == Draft || status == AttentionRequired
  }

  function Gate(s: seq<Business>, id: Id): Result<Business, Failure> {
    if id >= |s| then Throw(NotFound)
    else if !Editable(s[id].status) then Throw(NotEditable(s[id].status))
    else Ok(s[id])
  }

  /** A sole trader's missing legal name is their own. */
  function LegalNameFor(entity: EntityType, columns: map<Column, Value>, firstName: string, lastName: string): Value {
    if entity == SoleTrader && Absent(Get(columns, LegalName)) then Text(firstName + " " + lastName)
    else Get(columns, LegalName)
  }

  function Founded(entity: EntityType, columns: map<Column, Value>, firstName: string, lastName: string): Business {
    Business(Draft, entity, columns[LegalName := LegalNameFor(entity, columns, firstName, lastName)],
             if entity == SoleTrader then [Principal("sole_trader", firstName + " " + lastName, false)] else [])
  }

  function TryUpdate(s: seq<Business>, id: Id, patch: map<Column, Value>): Result<seq<Business>, Failure> {
    if patch == map[] then Ok(s)
    else
      match Gate(s, id)
      case Throw(e) => Throw(e)
      case Ok(b) =>
        if Get(b.columns + patch, LegalName) == Null then Throw(NotNullViolation)
        else Ok(s[id := b.(columns := b.columns + patch)])
  }

  function TrySubmit(s: seq<Business>, id: Id): Result<seq<Business>, Failure> {
    match Gate(s, id)
    case Throw(e) => Throw(e)
    case Ok(b) =>
      if Outstanding(b) != [] then Throw(Failure.Incomplete(Outstanding(b)))
      else Ok(s[id := b.(status := Submitted)])
  }

  function TryPrincipal(s: seq<Business>, id: Id, principal: Id, name: Option<string>): Result<seq<Business>, Failure> {
    match Gate(s, id)
    case Throw(e) => Throw(e)
    case Ok(b) =>
      if principal >= |b.principals| || b.principals[principal].removed then Throw(PrincipalNotFound)
      else
        var p := b.principals[principal];
        var changed := if name.Some? then p.(name := name.value) else p.(removed := true);
        Ok(s[id := b.(principals := b.principals[principal := changed])])
  }

  function Try(s: seq<Business>, op: Op): Result<seq<Business>, Failure> {
    match op
    case CreateBusiness(entity, columns, first, last) =>
      if LegalNameFor(entity, columns, first, last) == Null then Throw(NotNullViolation)
      else Ok(s + [Founded(entity, columns, first, last)])
    case UpdateBusiness(id, patch) => TryUpdate(s, id, patch)
    case SubmitBusiness(id) => TrySubmit(s, id)
    case AddPrincipal(id, role, name) =>
      (match Gate(s, id)
       case Throw(e) => Throw(e)
       case Ok(b) => Ok(s[id := b.(principals := b.principals + [Principal(role, name, false)])]))
    case UpdatePrincipal(id, principal, name) => TryPrincipal(s, id, principal, Some(name))
    case RemovePrincipal(id, principal) => TryPrincipal(s, id, principal, None)
    case InitiateVerification(id) => Ok(if id < |s| then s[id := s[id].(status := InVerification)] else s)
    case ReviewerDecide(id, approve) =>
      Ok(if id < |s| then s[id := s[id].(status := if approve then Verified else AttentionRequired)] else s)
  }

  function Perform(s: seq<Business>, op: Op): seq<Business> {
    match Try(s, op)
    case Throw(_) => s
    case Ok(after) => after
  }

  datatype Run = Start | Then(prev: Run, op: Op)

  function Exec(r: Run): seq<Business> {
    match r
    case Start => []
    case Then(prev, op) => Perform(Exec(prev), op)
  }

  // ---------------------------------------------------------------- what every call keeps

  /** What a call may do to an existing business: outside the editable statuses its data stands still. */
  predicate Moves(b: Business, c: Business) {
    && c.entity == b.entity
    && (!Editable(b.status) ==> c.columns == b.columns && c.principals == b.principals)
    && (c.status == Submitted && b.status != Submitted ==> Outstanding(b) == [] && c == b.(status := Submitted))
    && PrincipalsKept(b, c)
  }

  /** Principals are only added, renamed or marked removed; a removed one never returns. */
  predicate PrincipalsKept(b: Business, c: Business) {
    && |b.principals| <= |c.principals|
    && forall i | 0 <= i < |b.principals| ::
         c.principals[i].role == b.principals[i].role && (b.principals[i].removed ==> c.principals[i] == b.principals[i])
  }

  lemma StepMoves(s: seq<Business>, op: Op)
    ensures |s| <= |Perform(s, op)|
    ensures forall i | 0 <= i < |s| :: Moves(s[i], Perform(s, op)[i])
    ensures forall i | |s| <= i < |Perform(s, op)| :: Perform(s, op)[i].status == Draft
  {
  }

  /** In every run a submitted business has nothing outstanding. */
  lemma {:induction false} SubmittedIsComplete(r: Run, id: Id)
    requires id < |Exec(r)| && Exec(r)[id].status == Submitted
    ensures Outstanding(Exec(r)[id]) == []
  {
    StepMoves(Exec(r.prev), r.op);
    var b, c := Exec(r.prev)[id], Exec(r)[id];
    assert Moves(b, c);
    if b.status == Submitted {
      SubmittedIsComplete(r.prev, id);
    }
    CompleteIffNothingOutstanding(b);
    CompleteIffNothingOutstanding(c);
    forall item ensures !Missing(c, item) {
      assert !Missing(b, item);
    }
  }

  /** A sole trader is never asked for a legal name or a principal when the business is created. */
  lemma SoleTraderIsNotAskedTwice(s: seq<Business>, columns: map<Column, Value>, firstName: string, lastName: string)
    ensures var after := Perform(s, CreateBusiness(SoleTrader, columns, firstName, lastName));
            && |after| == |s| + 1
            && LegalNameItem !in Outstanding(after[|s|]) && PrincipalsItem !in Outstanding(after[|s|])
            && TrusteeItem !in Outstanding(after[|s|])
  {
    var b := Founded(SoleTrader, columns, firstName, lastName);
    assert !b.principals[0].removed;
    assert |firstName + " " + lastName| > 0;
    OutstandingIsExact(b, LegalNameItem);
    OutstandingIsExact(b, PrincipalsItem);
    OutstandingIsExact(b, TrusteeItem);
  }

  // ---------------------------------------------------------------- the repository

  class BusinessRepository {
    var businesses: seq<Business>

    constructor ()
      ensures businesses == Exec(Start)
    {
      businesses := [];
    }

    twostate predicate Performed(op: Op, new r: Result<(), Failure>)
      reads this
    {
      && businesses == Perform(old(businesses), op)
      && match Try(old(businesses), op) {
           case Throw(e) => r == Throw(e)
           case Ok(_) => r == Ok(())
         }
    }

    /** Pushes item `i` of the order when it is missing. */
    method Consider(ghost b: Business, ghost i: nat, items: seq<Item>, missing: bool, item: Item) returns (after: seq<Item>)
      requires ItemAt(i) == item && missing == Missing(b, item)
      requires items == MissingUpTo(b, i)
      ensures after == MissingUpTo(b, i + 1)
    {
      after := items;
      if missing {
        after := items + [item];
      }
    }

    /** The list the gate and the plain read both compute, push by push. */
    method ComputeBusinessOutstandingItems(b: Business, principalCount: nat) returns (items: seq<Item>)
      requires principalCount == 0 <==> !HasPrincipal(b)
      ensures items == Outstanding(b)
    {
      items := Consider(b, 0, [], Absent(Get(b.columns, LegalName)), LegalNameItem);
      items := Consider(b, 1, items, Absent(Get(b.columns, Abn)) && Absent(Get(b.columns, Acn)), RegistrationItem);
      items := Consider(b, 2, items, Get(b.columns, GstRegistered) == Null, GstItem);
      items := Consider(b, 3, items, Absent(Get(b.columns, BusinessEmail)), EmailItem);
      items := Consider(b, 4, items, !CompleteAddress(Get(b.columns, BusinessAddress)), AddressItem);
      items := Consider(b, 5, items, b.entity == Trust && Absent(Get(b.columns, TrusteeName)), TrusteeItem);
      items := Consider(b, 6, items, principalCount == 0, PrincipalsItem);
    }

    method CountPrincipals(b: Business) returns (count: nat)
      ensures count == 0 <==> !HasPrincipal(b)
    {
      count := 0;
      for i := 0 to |b.principals|
        invariant count == 0 <==> forall j | 0 <= j < i :: b.principals[j].removed
      {
        if !b.principals[i].removed {
          count := count + 1;
        }
      }
    }

    method Find(id: Id) returns (r: Result<Business, Failure>)
      ensures r == Gate(businesses, id)
    {
      if id >= |businesses| {
        return Throw(NotFound);
      }
      if businesses[id].status != Draft && businesses[id].status != AttentionRequired {
        return Throw(NotEditable(businesses[id].status));
      }
      return Ok(businesses[id]);
    }

    method Create(entity: EntityType, columns: map<Column, Value>, firstName: string, lastName: string)
      returns (r: Result<(), Failure>)
      modifies this
      ensures Performed(CreateBusiness(entity, columns, firstName, lastName), r)
    {
      var legalName := Get(columns, LegalName);
      if entity == SoleTrader && Absent(legalName) {
        legalName := Text(firstName + " " + lastName);
      }
      if legalName == Null {
        return Throw(NotNullViolation);
      }
      var principals: seq<Principal> := [];
      if entity == SoleTrader {
        principals := [Principal("sole_trader", firstName + " " + lastName, false)];
      }
      businesses := businesses + [Business(Draft, entity, columns[LegalName := legalName], principals)];
      return Ok(());
    }

    /** The gate and the status change in one transaction; a refusal carries the list. */
    method Submit(id: Id) returns (r: Result<(), Failure>)
      modifies this
      ensures Performed(SubmitBusiness(id), r)
    {
      var found := Find(id);
      if found.Throw? {
        return Throw(found.error);
      }
      var count := CountPrincipals(found.value);
      var items := ComputeBusinessOutstandingItems(found.value, count);
      if |items| > 0 {
        return Throw(Failure.Incomplete(items));
      }
      businesses := businesses[id := found.value.(status := Submitted)];
      return Ok(());
    }

    method Remove(id: Id, principal: Id) returns (r: Result<(), Failure>)
      modifies this
      ensures Performed(RemovePrincipal(id, principal), r)
    {
      var found := Find(id);
      if found.Throw? {
        return Throw(found.error);
      }
      var b := found.value;
      if principal >= |b.principals| || b.principals[principal].removed {
        return Throw(PrincipalNotFound);
      }
      businesses := businesses[id := b.(principals := b.principals[principal := b.principals[principal].(removed := true)])];
      return Ok(());
    }
  }
}
