/**
 * The messages the technical-debt importer reports, with the wording the importer's tests
 * expect for the fixtures they check.
 */
module DebtMessages {
  import opened Strings
  import opened DebtModel

  function RuleKeyText(key: RuleKey): string {
    "[repository=" + key.repository + ", key=" + key.rule + "]"
  }

  function RuleNotFoundMessage(key: RuleKey): string {
    "Rule not found: " + RuleKeyText(key)
  }

  function NotNumericMessage(raw: string, field: string): string {
    "Cannot import value '" + raw + "' for field " + field + " - Expected a numeric value instead"
  }

  function ThresholdReplacedMessage(key: RuleKey): string {
    "Function linear_with_threshold of the requirement on rule " + RuleKeyText(key) + " is replaced by linear"
  }

  function ConstantPerFileIgnoredMessage(key: RuleKey): string {
    "Function constant_per_file is no longer supported, the requirement on rule " + RuleKeyText(key) + " is ignored"
  }

  function UnknownFunctionMessage(functionName: string, key: RuleKey): string {
    "Unknown function '" + functionName + "' in the requirement on rule " + RuleKeyText(key)
  }

  /** The rule-not-found warning names the repository of the rule, and the rule. */
  lemma {:induction false} RuleNotFoundNamesRule(key: RuleKey)
    ensures Contains(RuleNotFoundMessage(key), key.repository)
    ensures Contains(RuleNotFoundMessage(key), key.rule)
  {
    var text := RuleNotFoundMessage(key);
    var prefix := "Rule not found: [repository=";
    assert text == prefix + key.repository + ", key=" + key.rule + "]";
    assert text[|prefix|..|prefix| + |key.repository|] == key.repository;
    assert OccursAt(text, key.repository, |prefix|);
    var at := |prefix| + |key.repository| + |", key="|;
    assert text[at..at + |key.rule|] == key.rule;
    assert OccursAt(text, key.rule, at);
    ContainsIffOccurs(text, key.repository);
    ContainsIffOccurs(text, key.rule);
  }

  /** The wording of the rule-not-found warning for findbugs/Foo. */
  lemma RuleNotFoundWording()
    ensures RuleNotFoundMessage(RuleKey("findbugs", "Foo")) == "Rule not found: [repository=findbugs, key=Foo]"
  {
  }

  /** The wording of the error for the factor "abc". */
  lemma NotNumericWording()
    ensures NotNumericMessage("abc", "factor") == "Cannot import value 'abc' for field factor - Expected a numeric value instead"
  {
    NotNumericHead();
    NotNumericTail();
  }

  lemma NotNumericHead()
    ensures "Cannot import value '" + "abc" + "' for field " + "factor" == "Cannot import value 'abc' for field factor"
  {
    assert "Cannot import value '" + "abc" == "Cannot import value 'abc";
    assert "Cannot import value 'abc" + "' for field " == "Cannot import value 'abc' for field ";
  }

  lemma NotNumericTail()
    ensures "Cannot import value 'abc' for field factor" + " - Expected a numeric value instead"
         == "Cannot import value 'abc' for field factor - Expected a numeric value instead"
  {
  }
}
