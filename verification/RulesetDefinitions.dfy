/**
 * Ruleset definitions: the untyped JSON a version stores, the validator that runs at publish
 * time, the typed form the evaluator is written against, and the evaluator itself.
 */
module RulesetDefinitions {
  import opened Common

  datatype Json =
    | JNull
    | JBool(flag: bool)
    | JNumber(number: real)
    | JString(text: string)
    | JArray(items: seq<Json>)
    | JObject(fields: map<string, Json>)

  /** Property access `j.key` on a value that is not null; `None` is `undefined`. */
  function Get(j: Json, key: string): (v: Option<Json>)
    ensures v.Some? ==> v.value < j
  {
    if j.JObject? && key in j.fields then Some(j.fields[key]) else None
  }

  /** `typeof j === 'object' && j !== null`: arrays are objects too. */
  predicate IsObject(j: Json) {
    j.JObject? || j.JArray?
  }

  predicate IsString(v: Option<Json>) {
    v.Some? && v.value.JString?
  }

  predicate IsNonEmptyString(v: Option<Json>) {
    IsString(v) && v.value.text != ""
  }

  predicate IsNonEmptyArray(v: Option<Json>) {
    v.Some? && v.value.JArray? && v.value.items != []
  }

  // ---------------------------------------------------------------- conditions

  datatype Operator = Always | Lt | Gte | AllOf | AnyOf

  function OpNamed(name: string): Option<Operator> {
    if name == "always" then Some(Always)
    else if name == "lt" then Some(Lt)
    else if name == "gte" then Some(Gte)
    else if name == "all_of" then Some(AllOf)
    else if name == "any_of" then Some(AnyOf)
    else None
  }

  /** The operator a condition names, when its `op` is a string among the five known ones. */
  function OpOf(j: Json): Option<Operator> {
    var op := Get(j, "op");
    if IsString(op) then OpNamed(op.value.text) else None
  }

  /** The validator's condition check: false where it throws. */
  predicate ValidCondition(j: Json) {
    && IsObject(j)
    && OpOf(j).Some?
    && match OpOf(j).value {
         case Always => true
         case Lt => Get(j, "value").Some? && Get(j, "value").value.JNumber?
         case Gte => Get(j, "value").Some? && Get(j, "value").value.JNumber?
         case AllOf => IsNonEmptyArray(Get(j, "conditions")) && ValidConditions(Get(j, "conditions").value.items)
         case AnyOf => IsNonEmptyArray(Get(j, "conditions")) && ValidConditions(Get(j, "conditions").value.items)
       }
  }

  predicate ValidConditions(items: seq<Json>) {
    items == [] || (ValidCondition(items[0]) && ValidConditions(items[1..]))
  }

  /** The typed condition. The `field` property is never read: only experience can be tested. */
  datatype Condition =
    | IsAlways
    | LessThan(value: real)
    | AtLeast(value: real)
    | All(conditions: seq<Condition>)
    | Any(conditions: seq<Condition>)

  function DecodeCondition(j: Json): Option<Condition> {
    if OpOf(j).None? then None
    else
      var value := Get(j, "value");
      var nested := Get(j, "conditions");
      match OpOf(j).value
      case Always => Some(IsAlways)
      case Lt => if value.Some? && value.value.JNumber? then Some(LessThan(value.value.number)) else None
      case Gte => if value.Some? && value.value.JNumber? then Some(AtLeast(value.value.number)) else None
      case AllOf =>
        if !IsNonEmptyArray(nested) then None
        else (match DecodeConditions(nested.value.items) case Some(cs) => Some(All(cs)) case None => None)
      case AnyOf =>
        if !IsNonEmptyArray(nested) then None
        else (match DecodeConditions(nested.value.items) case Some(cs) => Some(Any(cs)) case None => None)
  }

  function DecodeConditions(items: seq<Json>): Option<seq<Condition>> {
    if items == [] then Some([])
    else
      match (DecodeCondition(items[0]), DecodeConditions(items[1..]))
      case (Some(c), Some(cs)) => Some([c] + cs)
      case _ => None
  }

  /** Experience in years, when the profile states it. */
  type Experience = Option<real>

  function Evaluate(c: Condition, experience: Experience): bool {
    match c
    case IsAlways => true
    case LessThan(value) => experience.Some? && experience.value < value
    case AtLeast(value) => experience.Some? && experience.value >= value
    case All(cs) => EvaluateEvery(cs, experience)
    case Any(cs) => EvaluateSome(cs, experience)
  }

  function EvaluateEvery(cs: seq<Condition>, experience: Experience): bool {
    cs == [] || (Evaluate(cs[0], experience) && EvaluateEvery(cs[1..], experience))
  }

  function EvaluateSome(cs: seq<Condition>, experience: Experience): bool {
    cs != [] && (Evaluate(cs[0], experience) || EvaluateSome(cs[1..], experience))
  }

  /**
   * What the evaluator really runs on is the stored JSON, unchecked. `None` is every way it can
   * leave its declared type: a property of null, `undefined` from an unknown operator, a literal
   * that is not a number, a missing nested list. The nested lists are walked in order and the walk
   * stops as soon as the answer is known.
   */
  function EvaluateRaw(j: Json, experience: Experience): Option<bool> {
    if OpOf(j).None? then None
    else
      var value := Get(j, "value");
      var nested := Get(j, "conditions");
      match OpOf(j).value
      case Always => Some(true)
      case Lt =>
        if experience.None? then Some(false)
        else if value.Some? && value.value.JNumber? then Some(experience.value < value.value.number)
        else None
      case Gte =>
        if experience.None? then Some(false)
        else if value.Some? && value.value.JNumber? then Some(experience.value >= value.value.number)
        else None
      case AllOf =>
        if nested.Some? && nested.value.JArray? then RawEvery(nested.value.items, experience) else None
      case AnyOf =>
        if nested.Some? && nested.value.JArray? then RawSome(nested.value.items, experience) else None
  }

  function RawEvery(items: seq<Json>, experience: Experience): Option<bool> {
    if items == [] then Some(true)
    else
      match EvaluateRaw(items[0], experience)
      case None => None
      case Some(b) => if b then RawEvery(items[1..], experience) else Some(false)
  }

  function RawSome(items: seq<Json>, experience: Experience): Option<bool> {
    if items == [] then Some(false)
    else
      match EvaluateRaw(items[0], experience)
      case None => None
      case Some(b) => if b then Some(true) else RawSome(items[1..], experience)
  }

  /** The validator accepts exactly the conditions that decode, at every depth. */
  lemma {:induction false} ValidIffDecodes(j: Json)
    ensures ValidCondition(j) <==> DecodeCondition(j).Some?
    decreases j, 0
  {
    var nested := Get(j, "conditions");
    if OpOf(j).Some? && (OpOf(j).value.AllOf? || OpOf(j).value.AnyOf?) && IsNonEmptyArray(nested) {
      AllValidIffAllDecode(nested.value.items);
    }
  }

  lemma {:induction false} AllValidIffAllDecode(items: seq<Json>)
    ensures ValidConditions(items) <==> DecodeConditions(items).Some?
    ensures DecodeConditions(items).Some? ==> |DecodeConditions(items).value| == |items|
    decreases items, 1
  {
    if items != [] {
      ValidIffDecodes(items[0]);
      AllValidIffAllDecode(items[1..]);
    }
  }

  /** On a validated condition the evaluator is total, and means what the typed form means. */
  lemma {:induction false} RawEvaluationIsTotal(j: Json, experience: Experience)
    requires ValidCondition(j)
    ensures DecodeCondition(j).Some?
    ensures EvaluateRaw(j, experience) == Some(Evaluate(DecodeCondition(j).value, experience))
    decreases j, 0
  {
    ValidIffDecodes(j);
    var nested := Get(j, "conditions");
    if OpOf(j).value.AllOf? || OpOf(j).value.AnyOf? {
      RawListsAreTotal(nested.value.items, experience);
    }
  }

  lemma {:induction false} RawListsAreTotal(items: seq<Json>, experience: Experience)
    requires ValidConditions(items)
    ensures DecodeConditions(items).Some?
    ensures RawEvery(items, experience) == Some(EvaluateEvery(DecodeConditions(items).value, experience))
    ensures RawSome(items, experience) == Some(EvaluateSome(DecodeConditions(items).value, experience))
    decreases items, 1
  {
    AllValidIffAllDecode(items);
    if items != [] {
      RawEvaluationIsTotal(items[0], experience);
      RawListsAreTotal(items[1..], experience);
      var cs := DecodeConditions(items).value;
      assert cs[1..] == DecodeConditions(items[1..]).value;
    }
  }

  // ---------------------------------------------------------------- what the names mean

  /** The condition names this operator. */
  predicate Names(j: Json, op: string) {
    j.JObject? && "op" in j.fields && j.fields["op"] == JString(op)
  }

  /** The condition carries this number as its literal. */
  predicate Compares(j: Json, v: real) {
    j.JObject? && "value" in j.fields && j.fields["value"] == JNumber(v)
  }

  /** The condition nests these conditions. */
  predicate Nests(j: Json, items: seq<Json>) {
    j.JObject? && "conditions" in j.fields && j.fields["conditions"] == JArray(items)
  }

  lemma OperatorNames()
    ensures OpNamed("always") == Some(Always) && OpNamed("lt") == Some(Lt) && OpNamed("gte") == Some(Gte)
    ensures OpNamed("all_of") == Some(AllOf) && OpNamed("any_of") == Some(AnyOf)
  {
    assert "all_of"[1] != "any_of"[1] && "always"[1] != "any_of"[1] && "always"[2] != "all_of"[2];
  }

  /**
   * The validator accepts the five operators by name and nothing else: the two comparisons with a
   * number to compare with, the two lists with at least one condition, each accepted itself.
   */
  lemma AcceptedByName(j: Json)
    ensures ValidCondition(j)
       <==> || Names(j, "always")
            || ((Names(j, "lt") || Names(j, "gte")) && exists v :: Compares(j, v))
            || ((Names(j, "all_of") || Names(j, "any_of"))
                && exists items :: Nests(j, items) && items != [] && forall k | 0 <= k < |items| :: ValidCondition(items[k]))
  {
    OperatorNames();
    if ValidCondition(j) {
      var op, value, nested := j.fields["op"].text, Get(j, "value"), Get(j, "conditions");
      assert Names(j, op);
      if op == "lt" || op == "gte" {
        assert Compares(j, value.value.number);
      } else if op != "always" {
        assert Nests(j, nested.value.items);
        ValidItems(nested.value.items);
      }
    }
    if (Names(j, "all_of") || Names(j, "any_of")) && Get(j, "conditions").Some? && Get(j, "conditions").value.JArray? {
      ValidItems(Get(j, "conditions").value.items);
    }
  }

  lemma {:induction false} ValidItems(items: seq<Json>)
    ensures ValidConditions(items) <==> forall k | 0 <= k < |items| :: ValidCondition(items[k])
  {
    if items != [] {
      ValidItems(items[1..]);
      assert forall k | 0 < k < |items| :: items[k] == items[1..][k - 1];
      if forall k | 0 <= k < |items[1..]| :: ValidCondition(items[1..][k]) {
      } else {
        var k :| 0 <= k < |items[1..]| && !ValidCondition(items[1..][k]);
        assert !ValidCondition(items[k + 1]);
      }
    }
  }

  /** The comparisons: strictly below the literal, or at least it; never true of an unknown experience. */
  lemma ComparesByName(j: Json, v: real, experience: Experience)
    ensures Names(j, "always") ==> EvaluateRaw(j, experience) == Some(true)
    ensures Names(j, "lt") && Compares(j, v) ==>
              EvaluateRaw(j, experience) == Some(experience.Some? && experience.value < v)
    ensures Names(j, "gte") && Compares(j, v) ==>
              EvaluateRaw(j, experience) == Some(experience.Some? && v <= experience.value)
  {
    OperatorNames();
  }

  /** The lists, on an accepted condition: true of all of the nested conditions, or of some of them. */
  lemma ListsByName(j: Json, items: seq<Json>, experience: Experience)
    requires ValidCondition(j) && Nests(j, items)
    ensures Names(j, "all_of") ==>
              EvaluateRaw(j, experience) == Some(forall k | 0 <= k < |items| :: EvaluateRaw(items[k], experience) == Some(true))
    ensures Names(j, "any_of") ==>
              EvaluateRaw(j, experience) == Some(exists k | 0 <= k < |items| :: EvaluateRaw(items[k], experience) == Some(true))
  {
    OperatorNames();
    if Names(j, "all_of") || Names(j, "any_of") {
      EveryAndSome(items, experience);
    }
  }

  lemma {:induction false} EveryAndSome(items: seq<Json>, experience: Experience)
    requires ValidConditions(items)
    ensures RawEvery(items, experience) == Some(forall k | 0 <= k < |items| :: EvaluateRaw(items[k], experience) == Some(true))
    ensures RawSome(items, experience) == Some(exists k | 0 <= k < |items| :: EvaluateRaw(items[k], experience) == Some(true))
  {
    if items != [] {
      var rest := items[1..];
      RawEvaluationIsTotal(items[0], experience);
      EveryAndSome(rest, experience);
      assert forall k | 0 <= k < |rest| :: rest[k] == items[k + 1];
      assert forall k | 0 < k < |items| :: items[k] == rest[k - 1];
    }
  }

  // ---------------------------------------------------------------- what truth depends on

  /** A condition true of a profile with unknown experience is true whatever the experience is. */
  lemma {:induction false} MonotoneInKnowledge(c: Condition, years: real)
    ensures Evaluate(c, None) ==> Evaluate(c, Some(years))
    decreases c, 0
  {
    match c {
      case All(cs) => MonotoneLists(cs, years);
      case Any(cs) => MonotoneLists(cs, years);
      case _ =>
    }
  }

  lemma {:induction false} MonotoneLists(cs: seq<Condition>, years: real)
    ensures EvaluateEvery(cs, None) ==> EvaluateEvery(cs, Some(years))
    ensures EvaluateSome(cs, None) ==> EvaluateSome(cs, Some(years))
    decreases cs, 1
  {
    if cs != [] {
      MonotoneInKnowledge(cs[0], years);
      MonotoneLists(cs[1..], years);
    }
  }

  /** The literals a condition compares experience with. */
  function Literals(c: Condition): set<real> {
    match c
    case IsAlways => {}
    case LessThan(value) => {value}
    case AtLeast(value) => {value}
    case All(cs) => LiteralsOf(cs)
    case Any(cs) => LiteralsOf(cs)
  }

  function LiteralsOf(cs: seq<Condition>): set<real> {
    if cs == [] then {} else Literals(cs[0]) + LiteralsOf(cs[1..])
  }

  ghost predicate Separated(literals: set<real>, x: real, y: real) {
    exists v | v in literals :: (x < v) != (y < v)
  }

  /** Two experience values no literal separates are indistinguishable to the condition. */
  lemma {:induction false} OnlyLiteralsDistinguish(c: Condition, x: real, y: real)
    requires !Separated(Literals(c), x, y)
    ensures Evaluate(c, Some(x)) == Evaluate(c, Some(y))
    decreases c, 0
  {
    match c {
      case IsAlways =>
      case LessThan(value) => assert value in Literals(c);
      case AtLeast(value) => assert value in Literals(c);
      case All(cs) => ListsDistinguishedByLiterals(cs, x, y);
      case Any(cs) => ListsDistinguishedByLiterals(cs, x, y);
    }
  }

  lemma {:induction false} ListsDistinguishedByLiterals(cs: seq<Condition>, x: real, y: real)
    requires !Separated(LiteralsOf(cs), x, y)
    ensures EvaluateEvery(cs, Some(x)) == EvaluateEvery(cs, Some(y))
    ensures EvaluateSome(cs, Some(x)) == EvaluateSome(cs, Some(y))
    decreases cs, 1
  {
    if cs != [] {
      OnlyLiteralsDistinguish(cs[0], x, y);
      ListsDistinguishedByLiterals(cs[1..], x, y);
    }
  }
}
