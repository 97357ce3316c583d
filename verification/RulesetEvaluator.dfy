/** Whole definitions: publish-time validation, and the outstanding-requirement lists computed from them. */
module RulesetEvaluator {
  import opened Common
  import opened RulesetDefinitions

  datatype SubjectType = BrokerProfile | BrokerBusiness

  datatype SatisfyingOption = Document(documentType: string) | AssociationMembership

  datatype Group = Group(
    id: string, caption: string, subjectType: SubjectType, appliesWhen: Condition, satisfiedBy: seq<SatisfyingOption>)

  /** What is known about the broker: experience, current documents, any association membership. */
  datatype Fact = Fact(experience: Experience, documents: set<string>, member: bool)

  /** `alternatives` distinguishes the two wordings of the reason. */
  datatype Requirement = Requirement(groupId: string, caption: string, alternatives: bool)

  // ---------------------------------------------------------------- validation

  predicate ValidOption(j: Json) {
    && IsObject(j)
    && IsString(Get(j, "kind"))
    && var kind := Get(j, "kind").value.text;
       && (kind == "document" || kind == "association_membership")
       && (kind == "document" ==> IsNonEmptyString(Get(j, "documentType")))
  }

  predicate ValidSubjectType(v: Option<Json>) {
    v == Some(JString("broker_profile")) || v == Some(JString("broker_business"))
  }

  predicate ValidGroup(j: Json) {
    && IsObject(j)
    && IsNonEmptyString(Get(j, "id"))
    && IsNonEmptyString(Get(j, "label"))
    && ValidSubjectType(Get(j, "subjectType"))
    && Get(j, "appliesWhen").Some?
    && ValidCondition(Get(j, "appliesWhen").value)
    && IsNonEmptyArray(Get(j, "satisfiedBy"))
    && (forall i | 0 <= i < |Get(j, "satisfiedBy").value.items| :: ValidOption(Get(j, "satisfiedBy").value.items[i]))
  }

  predicate ValidDeclaration(j: Json) {
    IsObject(j) && IsNonEmptyString(Get(j, "id")) && IsNonEmptyString(Get(j, "label"))
  }

  /** The publish-time validator: false where it throws. */
  predicate ValidDefinition(j: Json) {
    var groups := Get(j, "requirementGroups");
    var thresholds := Get(j, "thresholds");
    var declarations := Get(j, "declarations");
    && IsObject(j)
    && groups.Some? && groups.value.JArray?
    && (forall i | 0 <= i < |groups.value.items| :: ValidGroup(groups.value.items[i]))
    && thresholds.Some? && thresholds.value.JObject?
    && declarations.Some? && declarations.value.JArray?
    && (forall i | 0 <= i < |declarations.value.items| :: ValidDeclaration(declarations.value.items[i]))
  }

  // ---------------------------------------------------------------- the typed form

  function DecodeOption(j: Json): Option<SatisfyingOption> {
    if Get(j, "kind") == Some(JString("document")) then
      if IsNonEmptyString(Get(j, "documentType")) then Some(Document(Get(j, "documentType").value.text)) else None
    else if Get(j, "kind") == Some(JString("association_membership")) then Some(AssociationMembership)
    else None
  }

  function DecodeOptions(items: seq<Json>): Option<seq<SatisfyingOption>> {
    if items == [] then Some([])
    else
      match (DecodeOption(items[0]), DecodeOptions(items[1..]))
      case (Some(o), Some(os)) => Some([o] + os)
      case _ => None
  }

  function DecodeSubjectType(v: Option<Json>): Option<SubjectType> {
    if v == Some(JString("broker_profile")) then Some(BrokerProfile)
    else if v == Some(JString("broker_business")) then Some(BrokerBusiness)
    else None
  }

  function DecodeGroup(j: Json): Option<Group> {
    if IsNonEmptyString(Get(j, "id")) && IsNonEmptyString(Get(j, "label"))
       && Get(j, "appliesWhen").Some? && IsNonEmptyArray(Get(j, "satisfiedBy"))
    then
      match (DecodeSubjectType(Get(j, "subjectType")), DecodeCondition(Get(j, "appliesWhen").value),
             DecodeOptions(Get(j, "satisfiedBy").value.items))
      case (Some(subject), Some(condition), Some(options)) =>
        Some(Group(Get(j, "id").value.text, Get(j, "label").value.text, subject, condition, options))
      case _ => None
    else None
  }

  function DecodeGroups(items: seq<Json>): Option<seq<Group>> {
    if items == [] then Some([])
    else
      match (DecodeGroup(items[0]), DecodeGroups(items[1..]))
      case (Some(g), Some(gs)) => Some([g] + gs)
      case _ => None
  }

  /** The requirement groups of a definition: the part of it the evaluator reads. */
  function DecodeDefinition(j: Json): Option<seq<Group>> {
    var groups := Get(j, "requirementGroups");
    if groups.Some? && groups.value.JArray? then DecodeGroups(groups.value.items) else None
  }

  lemma {:induction false} OptionsDecode(items: seq<Json>)
    ensures (forall i | 0 <= i < |items| :: ValidOption(items[i])) <==> DecodeOptions(items).Some?
    ensures DecodeOptions(items).Some? ==> |DecodeOptions(items).value| == |items|
  {
    if items != [] {
      OptionsDecode(items[1..]);
      assert forall i | 0 < i < |items| :: items[i] == items[1..][i - 1];
      assert ValidOption(items[0]) <==> DecodeOption(items[0]).Some?;
      if forall i | 0 <= i < |items[1..]| :: ValidOption(items[1..][i]) {
        assert forall i | 0 < i < |items| :: ValidOption(items[i]);
      } else {
        var k :| 0 <= k < |items[1..]| && !ValidOption(items[1..][k]);
        assert !ValidOption(items[k + 1]);
      }
    }
  }

  lemma GroupDecodes(j: Json)
    ensures ValidGroup(j) <==> DecodeGroup(j).Some?
  {
    var condition, options := Get(j, "appliesWhen"), Get(j, "satisfiedBy");
    if condition.Some? {
      ValidIffDecodes(condition.value);
    }
    if IsNonEmptyArray(options) {
      OptionsDecode(options.value.items);
    }
  }

  lemma {:induction false} GroupsDecode(items: seq<Json>)
    ensures (forall i | 0 <= i < |items| :: ValidGroup(items[i])) <==> DecodeGroups(items).Some?
    ensures DecodeGroups(items).Some? ==> |DecodeGroups(items).value| == |items|
  {
    if items != [] {
      GroupsDecode(items[1..]);
      GroupDecodes(items[0]);
      if forall i | 0 <= i < |items[1..]| :: ValidGroup(items[1..][i]) {
        assert forall i | 0 < i < |items| :: items[i] == items[1..][i - 1];
        assert forall i | 0 < i < |items| :: ValidGroup(items[i]);
      } else {
        var k :| 0 <= k < |items[1..]| && !ValidGroup(items[1..][k]);
        assert !ValidGroup(items[k + 1]);
      }
    }
  }

  /** The object has a member of this name that is a string and not the empty one. */
  ghost predicate HasText(j: Json, key: string) {
    exists text :: text != "" && Get(j, key) == Some(JString(text))
  }

  lemma DeclarationsHaveText(j: Json)
    ensures ValidDeclaration(j) <==> HasText(j, "id") && HasText(j, "label")
  {
    if ValidDeclaration(j) {
      assert Get(j, "id") == Some(JString(Get(j, "id").value.text)) && Get(j, "label") == Some(JString(Get(j, "label").value.text));
    }
  }

  /**
   * The validator accepts exactly the JSON whose groups decode at every depth and whose two other
   * checked members have their shapes; nothing it accepts can fail to decode later.
   */
  lemma ValidDefinitionIffDecodes(j: Json)
    ensures ValidDefinition(j) <==>
              && DecodeDefinition(j).Some?
              && Get(j, "thresholds").Some? && Get(j, "thresholds").value.JObject?
              && Get(j, "declarations").Some? && Get(j, "declarations").value.JArray?
              && (forall d | d in Get(j, "declarations").value.items :: HasText(d, "id") && HasText(d, "label"))
  {
    forall d ensures ValidDeclaration(d) <==> HasText(d, "id") && HasText(d, "label") {
      DeclarationsHaveText(d);
    }
    var groups := Get(j, "requirementGroups");
    if groups.Some? && groups.value.JArray? {
      GroupsDecode(groups.value.items);
    }
  }

  /** The JSON form of an option. */
  predicate WritesOption(j: Json, o: SatisfyingOption) {
    match o
    case Document(t) => t != "" && Get(j, "kind") == Some(JString("document")) && Get(j, "documentType") == Some(JString(t))
    case AssociationMembership => Get(j, "kind") == Some(JString("association_membership"))
  }

  /** The JSON form of a group, member by member. */
  ghost predicate WritesGroup(j: Json, g: Group) {
    && g.id != "" && Get(j, "id") == Some(JString(g.id))
    && g.caption != "" && Get(j, "label") == Some(JString(g.caption))
    && Get(j, "subjectType") == Some(JString(if g.subjectType == BrokerProfile then "broker_profile" else "broker_business"))
    && (exists c :: Get(j, "appliesWhen") == Some(c) && DecodeCondition(c) == Some(g.appliesWhen))
    && (exists items :: Get(j, "satisfiedBy") == Some(JArray(items)) && |items| == |g.satisfiedBy| > 0
          && forall k | 0 <= k < |items| :: WritesOption(items[k], g.satisfiedBy[k]))
  }

  lemma NamesDiffer()
    ensures "broker_profile" != "broker_business" && "document" != "association_membership"
  {
    assert "broker_profile"[7] != "broker_business"[7];
    assert |"document"| != |"association_membership"|;
  }

  lemma {:induction false} OptionsAreWritten(items: seq<Json>, options: seq<SatisfyingOption>)
    ensures DecodeOptions(items) == Some(options)
       <==> |items| == |options| && forall k | 0 <= k < |items| :: WritesOption(items[k], options[k])
  {
    OptionsDecode(items);
    NamesDiffer();
    if items != [] && |items| == |options| {
      OptionsAreWritten(items[1..], options[1..]);
      assert forall k | 0 < k < |items| :: items[k] == items[1..][k - 1] && options[k] == options[1..][k - 1];
      assert DecodeOption(items[0]) == Some(options[0]) <==> WritesOption(items[0], options[0]);
      assert options == [options[0]] + options[1..];
      if forall k | 0 <= k < |items[1..]| :: WritesOption(items[1..][k], options[1..][k]) {
      } else {
        var k :| 0 <= k < |items[1..]| && !WritesOption(items[1..][k], options[1..][k]);
        assert !WritesOption(items[k + 1], options[k + 1]);
      }
    }
  }

  /** Decoding inverts writing: a group is decoded from exactly the JSON that writes it. */
  lemma DecodesWhatIsWritten(j: Json, g: Group)
    ensures DecodeGroup(j) == Some(g) <==> WritesGroup(j, g)
  {
    NamesDiffer();
    var options := Get(j, "satisfiedBy");
    if IsNonEmptyArray(options) {
      OptionsAreWritten(options.value.items, g.satisfiedBy);
      OptionsDecode(options.value.items);
    }
  }

  // ---------------------------------------------------------------- outstanding requirements

  predicate Satisfied(option: SatisfyingOption, fact: Fact) {
    match option
    case Document(documentType) => documentType in fact.documents
    case AssociationMembership => fact.member
  }

  predicate SatisfiedByAny(options: seq<SatisfyingOption>, fact: Fact) {
    exists i | 0 <= i < |options| :: Satisfied(options[i], fact)
  }

  /** The group applies to the broker and none of its alternatives is met. */
  predicate Owed(group: Group, fact: Fact) {
    Evaluate(group.appliesWhen, fact.experience) && !SatisfiedByAny(group.satisfiedBy, fact)
  }

  function Describe(group: Group): Requirement {
    Requirement(group.id, group.caption, |group.satisfiedBy| != 1)
  }

  /** The requirement a group contributes to a subject's list, if any. */
  function Contribution(group: Group, subject: SubjectType, fact: Fact): seq<Requirement> {
    if group.subjectType == subject && Owed(group, fact) then [Describe(group)] else []
  }

  function ComputeOutstanding(groups: seq<Group>, subject: SubjectType, fact: Fact): seq<Requirement> {
    if groups == [] then []
    else Contribution(groups[0], subject, fact) + ComputeOutstanding(groups[1..], subject, fact)
  }

  /** What an accreditation's screen shows: the profile's requirements, then the business's. */
  function OutstandingItems(groups: seq<Group>, fact: Fact): seq<Requirement> {
    ComputeOutstanding(groups, BrokerProfile, fact) + ComputeOutstanding(groups, BrokerBusiness, fact)
  }

  predicate Increasing(ps: seq<nat>) {
    forall i, j | 0 <= i < j < |ps| :: ps[i] < ps[j]
  }

  /** The list is the owed groups of that subject, in definition order, each exactly once. */
  lemma ListsEachOwedGroupOnce(groups: seq<Group>, subject: SubjectType, fact: Fact)
    returns (ps: seq<nat>)
    ensures Increasing(ps)
    ensures forall i :: i in ps <==> 0 <= i < |groups| && groups[i].subjectType == subject && Owed(groups[i], fact)
    ensures |ComputeOutstanding(groups, subject, fact)| == |ps|
    ensures forall k | 0 <= k < |ps| :: ps[k] < |groups| && ComputeOutstanding(groups, subject, fact)[k] == Describe(groups[ps[k]])
  {
    ps := OwedFrom(groups, subject, fact, 0);
    OwedFromIncreases(groups, subject, fact, 0);
    ListDescribesPositions(groups, subject, fact, 0);
    assert groups[0..] == groups;
    forall i ensures i in ps <==> 0 <= i < |groups| && groups[i].subjectType == subject && Owed(groups[i], fact) {
      OwedFromMembers(groups, subject, fact, 0, i);
    }
  }

  /** The positions, from `from` on, of the groups of that subject that are owed. */
  function OwedFrom(groups: seq<Group>, subject: SubjectType, fact: Fact, from: nat): seq<nat>
    decreases |groups| - from
  {
    if from >= |groups| then []
    else
      (if groups[from].subjectType == subject && Owed(groups[from], fact) then [from] else [])
      + OwedFrom(groups, subject, fact, from + 1)
  }

  lemma {:induction false} OwedFromMembers(groups: seq<Group>, subject: SubjectType, fact: Fact, from: nat, i: int)
    ensures i in OwedFrom(groups, subject, fact, from)
       <==> from <= i < |groups| && groups[i].subjectType == subject && Owed(groups[i], fact)
    decreases |groups| - from
  {
    if from < |groups| {
      OwedFromMembers(groups, subject, fact, from + 1, i);
    }
  }

  lemma {:induction false} OwedFromIncreases(groups: seq<Group>, subject: SubjectType, fact: Fact, from: nat)
    ensures Increasing(OwedFrom(groups, subject, fact, from))
    decreases |groups| - from
  {
    if from < |groups| {
      var rest := OwedFrom(groups, subject, fact, from + 1);
      OwedFromIncreases(groups, subject, fact, from + 1);
      forall k | 0 <= k < |rest| ensures from < rest[k] {
        OwedFromMembers(groups, subject, fact, from + 1, rest[k]);
      }
    }
  }

  /** The requirements of the groups at some positions. */
  function DescribeAt(groups: seq<Group>, ps: seq<nat>): seq<Requirement>
    requires forall k | 0 <= k < |ps| :: ps[k] < |groups|
  {
    seq(|ps|, k requires 0 <= k < |ps| => Describe(groups[ps[k]]))
  }

  lemma OwedFromInRange(groups: seq<Group>, subject: SubjectType, fact: Fact, from: nat)
    ensures forall k | 0 <= k < |OwedFrom(groups, subject, fact, from)| :: OwedFrom(groups, subject, fact, from)[k] < |groups|
  {
    var ps := OwedFrom(groups, subject, fact, from);
    forall k | 0 <= k < |ps| ensures ps[k] < |groups| {
      OwedFromMembers(groups, subject, fact, from, ps[k]);
    }
  }

  lemma {:induction false} ListDescribesPositions(groups: seq<Group>, subject: SubjectType, fact: Fact, from: nat)
    requires from <= |groups|
    ensures forall k | 0 <= k < |OwedFrom(groups, subject, fact, from)| :: OwedFrom(groups, subject, fact, from)[k] < |groups|
    ensures ComputeOutstanding(groups[from..], subject, fact) == DescribeAt(groups, OwedFrom(groups, subject, fact, from))
    decreases |groups| - from
  {
    OwedFromInRange(groups, subject, fact, from);
    if from < |groups| {
      ListDescribesPositions(groups, subject, fact, from + 1);
      assert groups[from..][1..] == groups[from + 1..];
      var rest := OwedFrom(groups, subject, fact, from + 1);
      var here: seq<nat> := if groups[from].subjectType == subject && Owed(groups[from], fact) then [from] else [];
      assert OwedFrom(groups, subject, fact, from) == here + rest;
      assert ComputeOutstanding(groups[from..], subject, fact)
          == Contribution(groups[from], subject, fact) + ComputeOutstanding(groups[from + 1..], subject, fact);
      hide OwedFrom, ComputeOutstanding;
      DescribeConcat(groups, here, rest);
      assert DescribeAt(groups, here) == Contribution(groups[from], subject, fact);
    }
  }

  lemma DescribeConcat(groups: seq<Group>, ps: seq<nat>, qs: seq<nat>)
    requires forall k | 0 <= k < |ps| :: ps[k] < |groups|
    requires forall k | 0 <= k < |qs| :: qs[k] < |groups|
    ensures forall k | 0 <= k < |ps + qs| :: (ps + qs)[k] < |groups|
    ensures DescribeAt(groups, ps + qs) == DescribeAt(groups, ps) + DescribeAt(groups, qs)
  {
  }

  /** Together the two lists hold every owed group, whatever its subject, exactly once. */
  lemma {:induction false} ProfileAndBusinessPartition(groups: seq<Group>, fact: Fact)
    ensures multiset(OutstandingItems(groups, fact)) == multiset(AllOwed(groups, fact))
  {
    if groups != [] {
      ProfileAndBusinessPartition(groups[1..], fact);
      var rest := groups[1..];
      assert multiset(OutstandingItems(rest, fact))
          == multiset(ComputeOutstanding(rest, BrokerProfile, fact)) + multiset(ComputeOutstanding(rest, BrokerBusiness, fact));
    }
  }

  /** Every owed group's description, in definition order. */
  function AllOwed(groups: seq<Group>, fact: Fact): seq<Requirement> {
    if groups == [] then []
    else (if Owed(groups[0], fact) then [Describe(groups[0])] else []) + AllOwed(groups[1..], fact)
  }

  lemma EvidenceNeverUnsatisfies(options: seq<SatisfyingOption>, before: Fact, after: Fact)
    requires before.documents <= after.documents && (before.member ==> after.member)
    ensures SatisfiedByAny(options, before) ==> SatisfiedByAny(options, after)
  {
    if SatisfiedByAny(options, before) {
      var i :| 0 <= i < |options| && Satisfied(options[i], before);
      assert Satisfied(options[i], after);
    }
  }

  /** One group's step of a comparison of two lists. */
  lemma ContributionShrinks(groups: seq<Group>, subject: SubjectType, fewer: Fact, more: Fact)
    requires groups != []
    requires Owed(groups[0], fewer) ==> Owed(groups[0], more)
    requires multiset(ComputeOutstanding(groups[1..], subject, fewer)) <= multiset(ComputeOutstanding(groups[1..], subject, more))
    ensures multiset(ComputeOutstanding(groups, subject, fewer)) <= multiset(ComputeOutstanding(groups, subject, more))
  {
    var restFewer, restMore := ComputeOutstanding(groups[1..], subject, fewer), ComputeOutstanding(groups[1..], subject, more);
    assert multiset(ComputeOutstanding(groups, subject, fewer))
        == multiset(Contribution(groups[0], subject, fewer)) + multiset(restFewer);
    assert multiset(ComputeOutstanding(groups, subject, more))
        == multiset(Contribution(groups[0], subject, more)) + multiset(restMore);
  }

  /** Uploading documents or joining an association never adds an outstanding requirement. */
  lemma {:induction false} EvidenceNeverAdds(groups: seq<Group>, subject: SubjectType, before: Fact, after: Fact)
    requires before.experience == after.experience
    requires before.documents <= after.documents && (before.member ==> after.member)
    ensures multiset(ComputeOutstanding(groups, subject, after)) <= multiset(ComputeOutstanding(groups, subject, before))
  {
    if groups != [] {
      EvidenceNeverAdds(groups[1..], subject, before, after);
      EvidenceNeverUnsatisfies(groups[0].satisfiedBy, before, after);
      ContributionShrinks(groups, subject, after, before);
    }
  }

  /** Stating an experience nobody knew never removes a requirement: what applied still applies. */
  lemma {:induction false} StatingExperienceNeverRemoves(groups: seq<Group>, subject: SubjectType, fact: Fact, years: real)
    requires fact.experience == None
    ensures multiset(ComputeOutstanding(groups, subject, fact))
         <= multiset(ComputeOutstanding(groups, subject, fact.(experience := Some(years))))
  {
    if groups != [] {
      StatingExperienceNeverRemoves(groups[1..], subject, fact, years);
      MonotoneInKnowledge(groups[0].appliesWhen, years);
      var stated := fact.(experience := Some(years));
      EvidenceNeverUnsatisfies(groups[0].satisfiedBy, stated, fact);
      ContributionShrinks(groups, subject, fact, stated);
    }
  }

  // ---------------------------------------------------------------- evaluation of stored JSON

  /** The computation as it runs, on the stored JSON; `None` when it throws or leaves its types. */
  function RawOutstanding(items: seq<Json>, subject: string, fact: Fact): Option<seq<Requirement>> {
    if items == [] then Some([])
    else
      match (RawGroup(items[0], subject, fact), RawOutstanding(items[1..], subject, fact))
      case (Some(here), Some(rest)) => Some(here + rest)
      case _ => None
  }

  function RawGroup(j: Json, subject: string, fact: Fact): Option<seq<Requirement>> {
    if j.JNull? then None
    else if Get(j, "subjectType") != Some(JString(subject)) then Some([])
    else if Get(j, "appliesWhen").None? then None
    else
      match EvaluateRaw(Get(j, "appliesWhen").value, fact.experience)
      case None => None
      case Some(applies) =>
        if !applies then Some([])
        else if Get(j, "satisfiedBy").None? || !Get(j, "satisfiedBy").value.JArray? then None
        else
          var options := Get(j, "satisfiedBy").value.items;
          match RawSatisfiedByAny(options, fact)
          case None => None
          case Some(met) =>
            if met then Some([])
            else if !IsString(Get(j, "id")) || !IsString(Get(j, "label")) then None
            else Some([Requirement(Get(j, "id").value.text, Get(j, "label").value.text, |options| != 1)])
  }

  function RawSatisfiedByAny(items: seq<Json>, fact: Fact): Option<bool> {
    if items == [] then Some(false)
    else if items[0].JNull? then None
    else if Get(items[0], "kind") == Some(JString("document")) then
      if !IsString(Get(items[0], "documentType")) then None
      else if Get(items[0], "documentType").value.text in fact.documents then Some(true)
      else RawSatisfiedByAny(items[1..], fact)
    else if fact.member then Some(true)
    else RawSatisfiedByAny(items[1..], fact)
  }

  function RawOutstandingItems(j: Json, fact: Fact): Option<seq<Requirement>> {
    var groups := Get(j, "requirementGroups");
    if groups.None? || !groups.value.JArray? then None
    else
      match (RawOutstanding(groups.value.items, "broker_profile", fact), RawOutstanding(groups.value.items, "broker_business", fact))
      case (Some(profile), Some(business)) => Some(profile + business)
      case _ => None
  }

  lemma {:induction false} RawOptionsAgree(items: seq<Json>, fact: Fact)
    requires DecodeOptions(items).Some?
    ensures RawSatisfiedByAny(items, fact) == Some(SatisfiedByAny(DecodeOptions(items).value, fact))
  {
    if items != [] {
      var rest := DecodeOptions(items[1..]).value;
      var options := DecodeOptions(items).value;
      RawOptionsAgree(items[1..], fact);
      assert options == [DecodeOption(items[0]).value] + rest;
      if SatisfiedByAny(rest, fact) {
        var i :| 0 <= i < |rest| && Satisfied(rest[i], fact);
        assert Satisfied(options[i + 1], fact);
      }
      assert Satisfied(options[0], fact) ==> SatisfiedByAny(options, fact);
      assert SatisfiedByAny(options, fact) == (Satisfied(options[0], fact) || SatisfiedByAny(rest, fact));
    }
  }

  function NameOf(subject: SubjectType): string {
    match subject
    case BrokerProfile => "broker_profile"
    case BrokerBusiness => "broker_business"
  }

  lemma RawGroupAgrees(j: Json, subject: SubjectType, fact: Fact)
    requires ValidGroup(j)
    ensures DecodeGroup(j).Some?
    ensures RawGroup(j, NameOf(subject), fact) == Some(Contribution(DecodeGroup(j).value, subject, fact))
  {
    GroupDecodes(j);
    var g := DecodeGroup(j).value;
    assert (Get(j, "subjectType") == Some(JString(NameOf(subject)))) == (g.subjectType == subject) by {
      assert "broker_profile"[7] != "broker_business"[7];
    }
    RawEvaluationIsTotal(Get(j, "appliesWhen").value, fact.experience);
    OptionsDecode(Get(j, "satisfiedBy").value.items);
    RawOptionsAgree(Get(j, "satisfiedBy").value.items, fact);
  }

  lemma {:induction false} RawOutstandingAgrees(items: seq<Json>, subject: SubjectType, fact: Fact)
    requires forall i | 0 <= i < |items| :: ValidGroup(items[i])
    ensures DecodeGroups(items).Some?
    ensures RawOutstanding(items, NameOf(subject), fact) == Some(ComputeOutstanding(DecodeGroups(items).value, subject, fact))
  {
    GroupsDecode(items);
    if items != [] {
      RawGroupAgrees(items[0], subject, fact);
      RawOutstandingAgrees(items[1..], subject, fact);
      var gs := DecodeGroups(items).value;
      assert gs == [DecodeGroup(items[0]).value] + DecodeGroups(items[1..]).value;
      assert gs[1..] == DecodeGroups(items[1..]).value;
    }
  }

  /** On any definition the validator accepted, the computation never throws, and gives the typed answer. */
  lemma OutstandingItemsAreTotal(j: Json, fact: Fact)
    requires ValidDefinition(j)
    ensures DecodeDefinition(j).Some?
    ensures RawOutstandingItems(j, fact) == Some(OutstandingItems(DecodeDefinition(j).value, fact))
  {
    var items := Get(j, "requirementGroups").value.items;
    RawOutstandingAgrees(items, BrokerProfile, fact);
    RawOutstandingAgrees(items, BrokerBusiness, fact);
  }

  // ---------------------------------------------------------------- which groups are asked for

  /** Some document the broker has, or any association membership, is an alternative. */
  predicate Met(options: seq<Json>, fact: Fact) {
    exists k | 0 <= k < |options| ::
      if Get(options[k], "kind") == Some(JString("document"))
      then exists t | t in fact.documents :: Get(options[k], "documentType") == Some(JString(t))
      else fact.member
  }

  /** The group is of this subject, applies, and no alternative is met. */
  predicate Asks(j: Json, subject: string, fact: Fact) {
    && Get(j, "subjectType") == Some(JString(subject))
    && Get(j, "appliesWhen").Some? && EvaluateRaw(Get(j, "appliesWhen").value, fact.experience) == Some(true)
    && Get(j, "satisfiedBy").Some? && Get(j, "satisfiedBy").value.JArray? && !Met(Get(j, "satisfiedBy").value.items, fact)
  }

  lemma {:induction false} MetIffSatisfied(items: seq<Json>, options: seq<SatisfyingOption>, fact: Fact)
    requires DecodeOptions(items) == Some(options)
    ensures SatisfiedByAny(options, fact) <==> Met(items, fact)
  {
    OptionsAreWritten(items, options);
    NamesDiffer();
    forall k | 0 <= k < |items|
      ensures Satisfied(options[k], fact)
         <==> if Get(items[k], "kind") == Some(JString("document"))
              then exists t | t in fact.documents :: Get(items[k], "documentType") == Some(JString(t))
              else fact.member
    {
      assert WritesOption(items[k], options[k]);
    }
    if SatisfiedByAny(options, fact) {
      var k :| 0 <= k < |options| && Satisfied(options[k], fact);
      assert Get(items[k], "kind") == Get(items[k], "kind");
    }
  }

  lemma OwedIffAsked(j: Json, g: Group, subject: SubjectType, fact: Fact)
    requires ValidGroup(j) && DecodeGroup(j) == Some(g)
    ensures g.subjectType == subject && Owed(g, fact)
       <==> Asks(j, if subject == BrokerProfile then "broker_profile" else "broker_business", fact)
  {
    DecodesWhatIsWritten(j, g);
    NamesDiffer();
    RawEvaluationIsTotal(Get(j, "appliesWhen").value, fact.experience);
    MetIffSatisfied(Get(j, "satisfiedBy").value.items, g.satisfiedBy, fact);
  }

  /** The two lists, read off the stored JSON: the groups asked for, in definition order, each once. */
  ghost predicate ListsAsked(items: seq<Json>, subject: string, fact: Fact, requirements: seq<Requirement>, ps: seq<nat>) {
    && Increasing(ps) && |requirements| == |ps|
    && (forall i :: i in ps <==> 0 <= i < |items| && Asks(items[i], subject, fact))
    && (forall k | 0 <= k < |ps| && ps[k] < |items| ::
          && Get(items[ps[k]], "id") == Some(JString(requirements[k].groupId))
          && Get(items[ps[k]], "label") == Some(JString(requirements[k].caption))
          && exists options :: Get(items[ps[k]], "satisfiedBy") == Some(JArray(options))
                               && requirements[k].alternatives == (|options| != 1))
  }

  lemma {:induction false} GroupsAt(items: seq<Json>, i: nat)
    requires DecodeGroups(items).Some? && i < |items| && |DecodeGroups(items).value| == |items|
    ensures DecodeGroup(items[i]) == Some(DecodeGroups(items).value[i])
  {
    if i > 0 {
      GroupsDecode(items[1..]);
      GroupsAt(items[1..], i - 1);
    }
  }

  lemma ListedFromJson(items: seq<Json>, subject: SubjectType, fact: Fact) returns (ps: seq<nat>)
    requires forall i | 0 <= i < |items| :: ValidGroup(items[i])
    ensures DecodeGroups(items).Some?
    ensures ListsAsked(items, if subject == BrokerProfile then "broker_profile" else "broker_business", fact,
                       ComputeOutstanding(DecodeGroups(items).value, subject, fact), ps)
  {
    GroupsDecode(items);
    var groups := DecodeGroups(items).value;
    var name := if subject == BrokerProfile then "broker_profile" else "broker_business";
    ps := ListsEachOwedGroupOnce(groups, subject, fact);
    forall i | 0 <= i < |items|
      ensures groups[i].subjectType == subject && Owed(groups[i], fact) <==> Asks(items[i], name, fact)
      ensures WritesGroup(items[i], groups[i])
    {
      GroupsAt(items, i);
      OwedIffAsked(items[i], groups[i], subject, fact);
      DecodesWhatIsWritten(items[i], groups[i]);
    }
  }

  /**
   * On any definition the validator accepted, the items are the profile's groups and then the
   * business's: each group whose condition holds and none of whose alternatives is met, in
   * definition order, with its own id and label.
   */
  lemma OutstandingItemsAreAsked(j: Json, fact: Fact) returns (ps: seq<nat>, qs: seq<nat>)
    requires ValidDefinition(j)
    ensures RawOutstandingItems(j, fact).Some? && Get(j, "requirementGroups").Some? && Get(j, "requirementGroups").value.JArray?
    ensures var items, list := Get(j, "requirementGroups").value.items, RawOutstandingItems(j, fact).value;
            && |ps| <= |list|
            && ListsAsked(items, "broker_profile", fact, list[..|ps|], ps)
            && ListsAsked(items, "broker_business", fact, list[|ps|..], qs)
  {
    var items := Get(j, "requirementGroups").value.items;
    OutstandingItemsAreTotal(j, fact);
    ps := ListedFromJson(items, BrokerProfile, fact);
    qs := ListedFromJson(items, BrokerBusiness, fact);
    var groups, list := DecodeGroups(items).value, RawOutstandingItems(j, fact).value;
    assert list[..|ps|] == ComputeOutstanding(groups, BrokerProfile, fact);
    assert list[|ps|..] == ComputeOutstanding(groups, BrokerBusiness, fact);
  }
}
