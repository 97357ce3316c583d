/** When a business call succeeds, what a complete business holds, and which call gave every business each of its fields. */
module BusinessOrigins {
  import opened Common
  import opened Columns
  import opened BusinessStatuses
  import opened Businesses

  // ---------------------------------------------------------------- completeness, column by column

  predicate Filled(b: Business, c: Column) {
    c in b.columns && b.columns[c] != Null && b.columns[c] != Text("")
  }

  predicate IsAddress(v: Value) {
    && v.Address?
    && v.line1.Some? && v.line1.value != "" && v.city.Some? && v.city.value != ""
    && v.postcode.Some? && v.postcode.value != "" && v.state.Some? && v.state.value != ""
  }

  predicate Complete(b: Business) {
    && Filled(b, LegalName) && (Filled(b, Abn) || Filled(b, Acn))
    && GstRegistered in b.columns && b.columns[GstRegistered] != Null
    && Filled(b, BusinessEmail) && BusinessAddress in b.columns && IsAddress(b.columns[BusinessAddress])
    && (b.entity == Trust ==> Filled(b, TrusteeName))
    && exists i | 0 <= i < |b.principals| :: !b.principals[i].removed
  }

  function When(condition: bool, item: Item): seq<Item> {
    if condition then [item] else []
  }

  /** What is reported of the name, the registration and the tax status. */
  function RegistrationItems(b: Business): seq<Item> {
    When(!Filled(b, LegalName), LegalNameItem)
    + When(!Filled(b, Abn) && !Filled(b, Acn), RegistrationItem)
    + When(!(GstRegistered in b.columns && b.columns[GstRegistered] != Null), GstItem)
  }

  /** What is reported of how to reach it and of who stands behind it. */
  function ContactItems(b: Business): seq<Item> {
    When(!Filled(b, BusinessEmail), EmailItem)
    + When(!(BusinessAddress in b.columns && IsAddress(b.columns[BusinessAddress])), AddressItem)
    + When(b.entity == Trust && !Filled(b, TrusteeName), TrusteeItem)
    + When(!exists i | 0 <= i < |b.principals| :: !b.principals[i].removed, PrincipalsItem)
  }

  /** One more item of the order. */
  lemma ListsNext(b: Business, n: nat, items: seq<Item>, item: Item, missing: bool)
    requires MissingUpTo(b, n) == items && ItemAt(n) == item && Missing(b, item) == missing
    ensures MissingUpTo(b, n + 1) == items + When(missing, item)
  {
  }

  /** What each rule says, column by column. */
  lemma MissingMeans(b: Business)
    ensures Missing(b, LegalNameItem) == !Filled(b, LegalName)
    ensures Missing(b, RegistrationItem) == (!Filled(b, Abn) && !Filled(b, Acn))
    ensures Missing(b, GstItem) == !(GstRegistered in b.columns && b.columns[GstRegistered] != Null)
    ensures Missing(b, EmailItem) == !Filled(b, BusinessEmail)
    ensures Missing(b, AddressItem) == !(BusinessAddress in b.columns && IsAddress(b.columns[BusinessAddress]))
    ensures Missing(b, TrusteeItem) == (b.entity == Trust && !Filled(b, TrusteeName))
    ensures Missing(b, PrincipalsItem) == !exists i | 0 <= i < |b.principals| :: !b.principals[i].removed
  {
  }

  lemma RegistrationIsListed(b: Business)
    ensures MissingUpTo(b, 3) == RegistrationItems(b)
  {
    assert MissingUpTo(b, 0) == [];
    MissingMeans(b);
    hide MissingUpTo, When, Missing, Filled;
    ListsNext(b, 0, [], LegalNameItem, !Filled(b, LegalName));
    ListsNext(b, 1, MissingUpTo(b, 1), RegistrationItem, !Filled(b, Abn) && !Filled(b, Acn));
    ListsNext(b, 2, MissingUpTo(b, 2), GstItem, !(GstRegistered in b.columns && b.columns[GstRegistered] != Null));
  }

  lemma ContactIsListed(b: Business)
    ensures MissingUpTo(b, 7) == MissingUpTo(b, 3) + ContactItems(b)
  {
    MissingMeans(b);
    hide MissingUpTo, When, Missing, Filled, IsAddress;
    ListsNext(b, 3, MissingUpTo(b, 3), EmailItem, !Filled(b, BusinessEmail));
    ListsNext(b, 4, MissingUpTo(b, 4), AddressItem, !(BusinessAddress in b.columns && IsAddress(b.columns[BusinessAddress])));
    ListsNext(b, 5, MissingUpTo(b, 5), TrusteeItem, b.entity == Trust && !Filled(b, TrusteeName));
    ListsNext(b, 6, MissingUpTo(b, 6), PrincipalsItem, !exists i | 0 <= i < |b.principals| :: !b.principals[i].removed);
  }

  /** The list, in the order it is reported, whatever is filled in. */
  lemma OutstandingInOrder(b: Business)
    ensures Outstanding(b) == RegistrationItems(b) + ContactItems(b)
  {
    RegistrationIsListed(b);
    ContactIsListed(b);
  }

  lemma CompleteMeansNothingOutstanding(b: Business)
    ensures Complete(b) <==> Outstanding(b) == []
  {
    OutstandingInOrder(b);
    hide Outstanding, Filled, IsAddress;
    assert |RegistrationItems(b) + ContactItems(b)| == 0 <==> Complete(b);
  }

  /** In every run a submitted business has every column asked of its entity type, and a principal. */
  lemma SubmittedIsFilledIn(r: Run, id: Id)
    requires id < |Exec(r)| && Exec(r)[id].status == Submitted
    ensures Complete(Exec(r)[id])
  {
    SubmittedIsComplete(r, id);
    CompleteMeansNothingOutstanding(Exec(r)[id]);
  }

  // ---------------------------------------------------------------- one call

  predicate InDraft(b: Business) {
    b.status == Draft || b.status == AttentionRequired
  }

  predicate Named(columns: map<Column, Value>) {
    LegalName in columns && columns[LegalName] != Null
  }

  /** The business a gated call is about. */
  function GatedId(op: Op): Option<Id> {
    match op
    case UpdateBusiness(id, patch) => if patch == map[] then None else Some(id)
    case SubmitBusiness(id) => Some(id)
    case AddPrincipal(id, _, _) => Some(id)
    case UpdatePrincipal(id, _, _) => Some(id)
    case RemovePrincipal(id, _) => Some(id)
    case _ => None
  }

  predicate Stands(b: Business, principal: Id) {
    principal < |b.principals| && !b.principals[principal].removed
  }

  /** What a gated call on a business in draft lacks, if anything. */
  function Lacks(b: Business, op: Op): Option<Failure> {
    match op
    case UpdateBusiness(_, patch) => if Named(b.columns + patch) then None else Some(NotNullViolation)
    case SubmitBusiness(_) => if Complete(b) then None else Some(Failure.Incomplete(Outstanding(b)))
    case UpdatePrincipal(_, principal, _) => if Stands(b, principal) then None else Some(PrincipalNotFound)
    case RemovePrincipal(_, principal) => if Stands(b, principal) then None else Some(PrincipalNotFound)
    case _ => None
  }

  /** The legal name is given, or the sole trader's own stands in. */
  predicate Nameable(entity: EntityType, columns: map<Column, Value>) {
    entity == SoleTrader || Named(columns)
  }

  /** Gated calls need a business in draft and what they act on; a new one needs a name unless it is a sole trader's. */
  lemma CallsSucceedIff(s: seq<Business>, op: Op)
    ensures GatedId(op).Some? ==>
              var id := GatedId(op).value;
              if id >= |s| then Try(s, op) == Throw(NotFound)
              else if !InDraft(s[id]) then Try(s, op) == Throw(NotEditable(s[id].status))
              else if Lacks(s[id], op).Some? then Try(s, op) == Throw(Lacks(s[id], op).value)
              else Try(s, op).Ok?
    ensures GatedId(op).None? ==>
              if op.CreateBusiness? && !Nameable(op.entity, op.columns) then Try(s, op) == Throw(NotNullViolation) else Try(s, op).Ok?
  {
    if op.SubmitBusiness? && op.id < |s| {
      CompleteMeansNothingOutstanding(s[op.id]);
    }
  }

  /** The principals of business `i` after a successful call. */
  function PrincipalsAfter(op: Op, i: Id, principals: seq<Principal>): seq<Principal> {
    match op
    case AddPrincipal(id, role, name) => if id == i then principals + [Principal(role, name, false)] else principals
    case UpdatePrincipal(id, k, name) => if id == i && k < |principals| then principals[k := principals[k].(name := name)] else principals
    case RemovePrincipal(id, k) => if id == i && k < |principals| then principals[k := principals[k].(removed := true)] else principals
    case _ => principals
  }

  /** The status of business `i` after a successful call. */
  function StatusAfter(op: Op, i: Id, status: BusinessStatus): BusinessStatus {
    match op
    case SubmitBusiness(id) => if id == i then Submitted else status
    case InitiateVerification(id) => if id == i then InVerification else status
    case ReviewerDecide(id, approve) => if id != i then status else if approve then Verified else AttentionRequired
    case _ => status
  }

  /** The name a sole trader's business is given when none was. */
  predicate TradesAsItself(op: Op)
    requires op.CreateBusiness?
  {
    op.entity == SoleTrader && !(LegalName in op.columns && op.columns[LegalName] != Null && op.columns[LegalName] != Text(""))
  }

  /** A successful call changes each field of a business by itself; a new one is a draft with what was sent. */
  lemma CallShows(s: seq<Business>, op: Op, i: Id)
    requires Try(s, op).Ok? && i < |Try(s, op).value|
    ensures |Try(s, op).value| == |s| + if op.CreateBusiness? then 1 else 0
    ensures var c := Try(s, op).value[i];
            if i < |s| then
              && c.entity == s[i].entity && c.status == StatusAfter(op, i, s[i].status)
              && c.columns == (if op.UpdateBusiness? && op.id == i then s[i].columns + op.patch else s[i].columns)
              && c.principals == PrincipalsAfter(op, i, s[i].principals)
            else
              && op.CreateBusiness? && c.entity == op.entity && c.status == Draft
              && c.columns == (if TradesAsItself(op) then op.columns[LegalName := Text(op.firstName + " " + op.lastName)] else op.columns)
              && c.principals == if op.entity == SoleTrader then [Principal("sole_trader", op.firstName + " " + op.lastName, false)] else []
  {
    if op.UpdateBusiness? && op.patch == map[] && op.id == i {
      assert s[i].columns + op.patch == s[i].columns;
    }
    if op.CreateBusiness? && !TradesAsItself(op) {
      assert op.columns[LegalName := op.columns[LegalName]] == op.columns;
    }
  }

  // ---------------------------------------------------------------- whole runs

  /** The value last sent for a column and taken: at the founding, or by a save while the business was in draft. */
  function LastSent(r: Run, id: Id, c: Column): Value {
    match r
    case Start => Null
    case Then(prev, op) =>
      if id >= |Exec(prev)| then
        if !op.CreateBusiness? then Null
        else if c == LegalName && TradesAsItself(op) then Text(op.firstName + " " + op.lastName)
        else if c in op.columns then op.columns[c]
        else Null
      else if op.UpdateBusiness? && op.id == id && c in op.patch && InDraft(Exec(prev)[id]) && Named(Exec(prev)[id].columns + op.patch)
      then op.patch[c]
      else LastSent(prev, id, c)
  }

  function Shown(columns: map<Column, Value>, c: Column): Value {
    if c in columns then columns[c] else Null
  }

  lemma ColumnStep(s: seq<Business>, op: Op, i: Id, c: Column)
    requires i < |Perform(s, op)|
    ensures var shown := Shown(Perform(s, op)[i].columns, c);
            if i >= |s| then
              && op.CreateBusiness?
              && shown == (if c == LegalName && TradesAsItself(op) then Text(op.firstName + " " + op.lastName) else Shown(op.columns, c))
            else if op.UpdateBusiness? && op.id == i && c in op.patch && InDraft(s[i]) && Named(s[i].columns + op.patch) then
              shown == op.patch[c]
            else shown == Shown(s[i].columns, c)
  {
    CallsSucceedIff(s, op);
    if Try(s, op).Ok? {
      CallShows(s, op, i);
      hide Complete;
      if op.UpdateBusiness? && op.id == i && i < |s| {
        assert c in op.patch ==> op.patch != map[];
      }
    }
  }

  /** In every run a column holds what was last sent for it and taken; only a sole trader's name is filled in for it. */
  lemma {:induction false} ColumnsAreLastSent(r: Run, id: Id, c: Column)
    requires id < |Exec(r)|
    ensures Shown(Exec(r)[id].columns, c) == LastSent(r, id, c)
  {
    ColumnStep(Exec(r.prev), r.op, id, c);
    hide Perform;
    if id < |Exec(r.prev)| {
      ColumnsAreLastSent(r.prev, id, c);
    }
  }
}
