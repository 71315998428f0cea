/** The `Validation` table: named string predicates, each with the message
    shown when the predicate fails. */
module Validation {
  import opened Values

  datatype Rule = DidAnswerYes | IsRequired | IsTextLengthLongerThanThree | IsGoldenState

  /** The property name of a rule in the table. */
  function Name(rule: Rule): string {
    match rule
    case DidAnswerYes => "didAnswerYes"
    case IsRequired => "isRequired"
    case IsTextLengthLongerThanThree => "isTextLengthLongerThanThree"
    case IsGoldenState => "isGoldenState"
  }

  /** `Validation[name]`: the rule stored under `name`. `None` stands for
      a name the table does not define, for which `.test` is a TypeError,
      and also for `isNumeric`, which the table does define but which is
      not part of this model. */
  function RuleNamed(name: string): (r: Option<Rule>)
    ensures r.Some? ==> Name(r.value) == name
    ensures r.None? ==> forall rule: Rule :: Name(rule) != name
  {
    if name == "didAnswerYes" then Some(DidAnswerYes)
    else if name == "isRequired" then Some(IsRequired)
    else if name == "isTextLengthLongerThanThree" then Some(IsTextLengthLongerThanThree)
    else if name == "isGoldenState" then Some(IsGoldenState)
    else None
  }

  /** Looking a rule up by its own name finds that rule. */
  lemma NameRoundTrip(rule: Rule)
    ensures RuleNamed(Name(rule)) == Some(rule)
  {
  }

  /** `Validation[rule].test(val)`. */
  function Test(rule: Rule, val: string): (ok: bool)
    ensures rule == IsRequired ==> (ok <==> val != [])
    ensures rule == IsTextLengthLongerThanThree ==> (ok <==> 3 <= |val|)
    ensures rule == DidAnswerYes ==> (ok <==> val == "Yes")
    ensures rule == IsGoldenState ==> (ok <==> val == "Golden State")
  {
    match rule
    case DidAnswerYes => val == "Yes"
    case IsRequired => |val| > 0
    case IsTextLengthLongerThanThree => |val| >= 3
    case IsGoldenState => val == "Golden State"
  }

  /** `Validation[rule].message`. */
  function Message(rule: Rule): (m: string)
    ensures m != []
  {
    match rule
    case DidAnswerYes => "You should have answered yes."
    case IsRequired => "This field is required."
    case IsTextLengthLongerThanThree => "Input should be at least three characters."
    case IsGoldenState => "Golden State is your favorite team."
  }

  /** Despite its name, `isTextLengthLongerThanThree` accepts a text of
      exactly three characters, and rejects two. */
  lemma LongerThanThreeAcceptsThree()
    ensures Test(IsTextLengthLongerThanThree, "abc")
    ensures !Test(IsTextLengthLongerThanThree, "ab")
    ensures Test(IsTextLengthLongerThanThree, "abcd")
  {
  }

  /** `isRequired` on the empty string fails with its message; on "x" it passes. */
  lemma RequiredScenario()
    ensures !Test(IsRequired, "") && Message(IsRequired) == "This field is required."
    ensures Test(IsRequired, "x")
  {
  }
}
