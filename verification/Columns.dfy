/** Column values as the onboarding forms send them. */
module Columns {
  import opened Common

  datatype Value =
    | Null
    | Text(text: string)
    | Number(number: real)
    | Flag(flag: bool)
    | Address(line1: Option<string>, city: Option<string>, postcode: Option<string>, state: Option<string>)

  /** Null and the empty string count as not given; zero and false do not. */
  predicate Absent(v: Value) {
    v == Null || v == Text("")
  }

  predicate Given(part: Option<string>) {
    part.Some? && part.value != ""
  }

  predicate CompleteAddress(v: Value) {
    v.Address? && Given(v.line1) && Given(v.city) && Given(v.postcode) && Given(v.state)
  }

  function Get<C>(columns: map<C, Value>, c: C): Value {
    if c in columns then columns[c] else Null
  }
}
