/**
 * The scenarios of `TechnicalDebtXMLImporterTest`, stated on the value-level import: each
 * fixture document, written as the element tree its XML file describes, imported against the
 * mocked rule cache, gives the model and the messages the test expects.
 */
module DebtImportScenarios {
  import opened Wrappers
  import opened Strings
  import opened WorkUnits
  import opened DebtModel
  import opened DebtMessages
  import opened DebtImportSpec

  /** The mocked rule cache: its finder knows the single rule checkstyle/Regexp. */
  const MockRuleCache: RuleCache := {RuleKey("checkstyle", "Regexp")}

  /** The requirement element of the fixtures: rule checkstyle/Regexp, factor 3.2 h. */
  function RegexpRequirement(functionName: string, factor: string, offset: Option<ValueElement>): RequirementElement {
    RequirementElement("checkstyle", "Regexp", functionName, ValueElement(factor, "h"), offset, None)
  }

  /** EFFICIENCY ("Efficiency") with the one sub-characteristic MEMORY_EFFICIENCY ("Memory use") carrying `r`. */
  function EfficiencyTree(r: RequirementElement): CharacteristicElement {
    CharacteristicElement("EFFICIENCY", "Efficiency", [CharacteristicElement("MEMORY_EFFICIENCY", "Memory use", [], [r])], [])
  }

  /** The document `checkXmlCorrectlyImported` expects: the efficiency tree, then a second root. */
  function EfficiencyDocument(r: RequirementElement): Document {
    Document([EfficiencyTree(r), CharacteristicElement("PORTABILITY", "Portability", [], [])])
  }

  /** A document holding the efficiency tree alone. */
  function EfficiencyOnlyDocument(r: RequirementElement): Document {
    Document([EfficiencyTree(r)])
  }

  /** The document of `import_characteristics`: two roots with their sub-characteristics, no requirement. */
  function CharacteristicsDocument(): Document {
    Document([
      CharacteristicElement("PORTABILITY", "Portability", [
        CharacteristicElement("COMPILER_RELATED_PORTABILITY", "Compiler", [], []),
        CharacteristicElement("HARDWARE_RELATED_PORTABILITY", "Hardware", [], [])], []),
      CharacteristicElement("MAINTAINABILITY", "Maintainability", [
        CharacteristicElement("READABILITY", "Readability", [], [])], [])])
  }

  // What the tests read from a model, each with the index bounds it needs.

  ghost predicate Indexed(m: Arena, key: string) {
    key in m.byKey && m.byKey[key] < |m.nodes|
  }

  /** `rootCharacteristics()`, by key, in order. */
  ghost predicate RootKeys(m: Arena, keys: seq<string>) {
    |m.roots| == |keys| && forall k :: 0 <= k < |keys| ==> m.roots[k] < |m.nodes| && m.nodes[m.roots[k]].key == keys[k]
  }

  /** `characteristicByKey(key).children()`, by key, in order. */
  ghost predicate ChildKeys(m: Arena, key: string, keys: seq<string>) {
    && Indexed(m, key)
    && |m.nodes[m.byKey[key]].children| == |keys|
    && forall j :: 0 <= j < |keys| ==>
         m.nodes[m.byKey[key]].children[j] < |m.nodes| && m.nodes[m.nodes[m.byKey[key]].children[j]].key == keys[j]
  }

  /** `characteristicByKey(key).parent().key()` is `parentKey`. */
  ghost predicate ParentKey(m: Arena, key: string, parentKey: string) {
    && Indexed(m, key)
    && m.nodes[m.byKey[key]].parent.Some?
    && m.nodes[m.byKey[key]].parent.value < |m.nodes|
    && m.nodes[m.nodes[m.byKey[key]].parent.value].key == parentKey
  }

  ghost predicate OrderIs(m: Arena, key: string, order: nat) {
    Indexed(m, key) && m.nodes[m.byKey[key]].order == Some(order)
  }

  ghost predicate NameIs(m: Arena, key: string, name: string) {
    Indexed(m, key) && m.nodes[m.byKey[key]].name == name
  }

  ghost predicate RequirementsAre(m: Arena, key: string, requirements: seq<Requirement>) {
    Indexed(m, key) && m.nodes[m.byKey[key]].requirements == requirements
  }

  /** What `checkXmlCorrectlyImported(sqale, offset, messages)` asserts. */
  ghost predicate CorrectlyImported(m: Arena, log: Log, offset: WorkUnit) {
    && log.errors == []
    && |m.roots| == 2
    && NameIs(m, "EFFICIENCY", "Efficiency")
    && |m.nodes[m.byKey["EFFICIENCY"]].children| == 1
    && NameIs(m, "MEMORY_EFFICIENCY", "Memory use")
    && RequirementsAre(m, "MEMORY_EFFICIENCY", [Requirement(RuleKey("checkstyle", "Regexp"), Linear, WorkUnit(3.2, "h"), offset)])
  }

  lemma OneElement(x: CharacteristicElement, cache: RuleCache)
    ensures ListKeys([x]) == Keys(x)
    ensures ListLog([x], cache) == CharacteristicLog(x, cache)
  {
    assert [x][..0] == [];
  }

  lemma TwoElements(x: CharacteristicElement, y: CharacteristicElement, cache: RuleCache)
    ensures ListKeys([x, y]) == Keys(x) + Keys(y)
    ensures ListLog([x, y], cache) == CharacteristicLog(x, cache).Then(CharacteristicLog(y, cache))
  {
    assert [x, y][..1] == [x];
    OneElement(x, cache);
  }

  lemma OneRequirement(r: RequirementElement, cache: RuleCache)
    ensures KeptRequirements([r], cache) == KeptOf(OutcomeOf(r, cache))
    ensures RequirementsLog([r], cache) == OutcomeLog(OutcomeOf(r, cache))
  {
    assert [r][..0] == [];
  }

  /** The keys of the efficiency documents are distinct. */
  lemma EfficiencyDocumentsDistinct(doc: Document, r: RequirementElement)
    requires doc == EfficiencyDocument(r) || doc == EfficiencyOnlyDocument(r)
    ensures DistinctList(doc.characteristics)
  {
    var t := EfficiencyTree(r);
    var memory := t.children[0];
    var portability := CharacteristicElement("PORTABILITY", "Portability", [], []);
    OneElement(memory, MockRuleCache);
    assert Keys(t) == {"EFFICIENCY", "MEMORY_EFFICIENCY"};
    assert DistinctKeys(memory);
    assert DistinctKeys(t);
    if doc == EfficiencyDocument(r) {
      assert Keys(portability) == {"PORTABILITY"};
      assert DistinctKeys(portability);
    }
  }

  /** The efficiency tree reports exactly the messages of its one requirement element. */
  lemma EfficiencyTreeLog(r: RequirementElement, cache: RuleCache)
    ensures CharacteristicLog(EfficiencyTree(r), cache) == OutcomeLog(OutcomeOf(r, cache))
  {
    OneElement(EfficiencyTree(r).children[0], cache);
    OneRequirement(r, cache);
  }

  /** So do the efficiency documents: the second root has nothing to report. */
  lemma EfficiencyDocumentsLog(doc: Document, r: RequirementElement, cache: RuleCache)
    requires doc == EfficiencyDocument(r) || doc == EfficiencyOnlyDocument(r)
    ensures ListLog(doc.characteristics, cache) == OutcomeLog(OutcomeOf(r, cache))
  {
    var t := EfficiencyTree(r);
    EfficiencyTreeLog(r, cache);
    if doc == EfficiencyDocument(r) {
      TwoElements(t, doc.characteristics[1], cache);
    } else {
      OneElement(t, cache);
    }
  }

  /**
   * Whatever its requirement element, the efficiency tree imports as EFFICIENCY with the one
   * child MEMORY_EFFICIENCY, which holds what the element's outcome keeps; the document reports
   * exactly that outcome's messages.
   */
  lemma {:induction false} EfficiencyTreeImported(doc: Document, r: RequirementElement, cache: RuleCache)
    requires doc == EfficiencyDocument(r) || doc == EfficiencyOnlyDocument(r)
    ensures var m := Imported(doc, cache);
      && |m.roots| == |doc.characteristics|
      && NameIs(m, "EFFICIENCY", "Efficiency")
      && ChildKeys(m, "EFFICIENCY", ["MEMORY_EFFICIENCY"])
      && RequirementsAre(m, "EFFICIENCY", [])
      && NameIs(m, "MEMORY_EFFICIENCY", "Memory use")
      && RequirementsAre(m, "MEMORY_EFFICIENCY", KeptOf(OutcomeOf(r, cache)))
    ensures ListLog(doc.characteristics, cache) == OutcomeLog(OutcomeOf(r, cache))
  {
    var t := EfficiencyTree(r);
    var memory := t.children[0];
    EfficiencyDocumentsDistinct(doc, r);
    EfficiencyDocumentsLog(doc, r, cache);
    OneRequirement(r, cache);
    ImportedLocated(doc, cache);
    ImportedRoots(doc, cache);
    var m := Imported(doc, cache);
    var root := m.roots[0];
    assert Located(m.nodes, m.byKey, root, t) && Represents(m.nodes, root, t, cache);
    var child := m.nodes[root].children[0];
    assert Located(m.nodes, m.byKey, child, memory) && Represents(m.nodes, child, memory, cache);
  }

  /** The factor text of the fixtures reads as 3.2. */
  lemma FactorText()
    ensures ParseDecimal("3.2") == Some(3.2)
  {
    assert IndexOf("3.2", '.') == 1;
    assert "3.2"[..1] == "3" && "3.2"[2..] == "2";
    assert DigitsValue("3") == 3 && DigitsValue("2") == 2;
  }

  /** The offset text of the linear-with-offset fixture reads as 1.0. */
  lemma OffsetText()
    ensures ParseDecimal("1.0") == Some(1.0)
  {
    assert IndexOf("1.0", '.') == 1;
    assert "1.0"[..1] == "1" && "1.0"[2..] == "0";
    assert DigitsValue("1") == 1 && DigitsValue("0") == 0;
  }

  /**
   * For a document with distinct keys, `characteristicByKey` on the key of the k-th top-level
   * element gives the k-th root, with order k + 1, whose children carry the keys of the nested
   * elements in order, each of them naming that root as its parent.
   */
  lemma {:induction false} RootCharacteristicImported(doc: Document, cache: RuleCache, k: nat, key: string, childKeys: seq<string>)
    requires DistinctList(doc.characteristics) && k < |doc.characteristics|
    requires doc.characteristics[k].key == key
    requires |doc.characteristics[k].children| == |childKeys|
    requires forall j :: 0 <= j < |childKeys| ==> doc.characteristics[k].children[j].key == childKeys[j]
    ensures var m := Imported(doc, cache);
      && k < |m.roots| && m.roots[k] < |m.nodes| && m.nodes[m.roots[k]].key == key
      && OrderIs(m, key, k + 1)
      && ChildKeys(m, key, childKeys)
      && forall j :: 0 <= j < |childKeys| ==> ParentKey(m, childKeys[j], key)
  {
    ImportedLocated(doc, cache);
    ImportedWellFormed(doc, cache);
    var m, e := Imported(doc, cache), doc.characteristics[k];
    var root := m.roots[k];
    assert Located(m.nodes, m.byKey, root, e);
    assert NodeLinked(m.nodes, m.roots, root);
    forall j | 0 <= j < |e.children|
      ensures m.nodes[m.nodes[root].children[j]].key == childKeys[j] && ParentKey(m, childKeys[j], key)
    {
      assert Located(m.nodes, m.byKey, m.nodes[root].children[j], e.children[j]);
    }
  }

  /** The keys of the PORTABILITY tree of the `import_characteristics` document, all distinct. */
  lemma PortabilityKeys(e: CharacteristicElement)
    requires e == CharacteristicsDocument().characteristics[0]
    ensures Keys(e) == {"PORTABILITY", "COMPILER_RELATED_PORTABILITY", "HARDWARE_RELATED_PORTABILITY"}
    ensures DistinctKeys(e)
  {
    var compiler, hardware := e.children[0], e.children[1];
    OneElement(compiler, MockRuleCache);
    TwoElements(compiler, hardware, MockRuleCache);
    assert Keys(compiler) == {"COMPILER_RELATED_PORTABILITY"} && Keys(hardware) == {"HARDWARE_RELATED_PORTABILITY"};
    assert DistinctKeys(compiler) && DistinctKeys(hardware);
  }

  /** The keys of the MAINTAINABILITY tree of the `import_characteristics` document, all distinct. */
  lemma MaintainabilityKeys(e: CharacteristicElement)
    requires e == CharacteristicsDocument().characteristics[1]
    ensures Keys(e) == {"MAINTAINABILITY", "READABILITY"}
    ensures DistinctKeys(e)
  {
    var readability := e.children[0];
    OneElement(readability, MockRuleCache);
    assert Keys(readability) == {"READABILITY"};
    assert DistinctKeys(readability);
  }

  /** The keys of the `import_characteristics` document are distinct. */
  lemma CharacteristicsDocumentDistinct(doc: Document)
    requires doc == CharacteristicsDocument()
    ensures DistinctList(doc.characteristics)
  {
    PortabilityKeys(doc.characteristics[0]);
    MaintainabilityKeys(doc.characteristics[1]);
  }

  /** In the `import_characteristics` document, PORTABILITY is the first root, over its two sub-characteristics. */
  lemma {:induction false} PortabilityImported(doc: Document, cache: RuleCache)
    requires doc == CharacteristicsDocument()
    ensures var m := Imported(doc, cache);
      && 0 < |m.roots| && m.roots[0] < |m.nodes| && m.nodes[m.roots[0]].key == "PORTABILITY"
      && OrderIs(m, "PORTABILITY", 1)
      && ChildKeys(m, "PORTABILITY", ["COMPILER_RELATED_PORTABILITY", "HARDWARE_RELATED_PORTABILITY"])
  {
    CharacteristicsDocumentDistinct(doc);
    RootCharacteristicImported(doc, cache, 0, "PORTABILITY", ["COMPILER_RELATED_PORTABILITY", "HARDWARE_RELATED_PORTABILITY"]);
  }

  /** Both sub-characteristics of PORTABILITY name it as their parent. */
  lemma {:induction false} PortabilityParent(doc: Document, cache: RuleCache)
    requires doc == CharacteristicsDocument()
    ensures var m := Imported(doc, cache);
      && ParentKey(m, "COMPILER_RELATED_PORTABILITY", "PORTABILITY")
      && ParentKey(m, "HARDWARE_RELATED_PORTABILITY", "PORTABILITY")
  {
    CharacteristicsDocumentDistinct(doc);
    var children := ["COMPILER_RELATED_PORTABILITY", "HARDWARE_RELATED_PORTABILITY"];
    RootCharacteristicImported(doc, cache, 0, "PORTABILITY", children);
    assert children[0] == "COMPILER_RELATED_PORTABILITY" && children[1] == "HARDWARE_RELATED_PORTABILITY";
  }

  /** In the `import_characteristics` document, MAINTAINABILITY is the second root, over READABILITY. */
  lemma {:induction false} MaintainabilityImported(doc: Document, cache: RuleCache)
    requires doc == CharacteristicsDocument()
    ensures var m := Imported(doc, cache);
      && 1 < |m.roots| && m.roots[1] < |m.nodes| && m.nodes[m.roots[1]].key == "MAINTAINABILITY"
      && OrderIs(m, "MAINTAINABILITY", 2)
      && ChildKeys(m, "MAINTAINABILITY", ["READABILITY"])
      && ParentKey(m, "READABILITY", "MAINTAINABILITY")
  {
    CharacteristicsDocumentDistinct(doc);
    var children := ["READABILITY"];
    RootCharacteristicImported(doc, cache, 1, "MAINTAINABILITY", children);
    assert children[0] == "READABILITY";
  }

  /** `import_characteristics`: the roots in document order with their orders, children and parents. */
  lemma {:induction false} ImportCharacteristicsScenario(doc: Document, cache: RuleCache)
    requires doc == CharacteristicsDocument() && cache == MockRuleCache
    ensures var m := Imported(doc, cache);
      && RootKeys(m, ["PORTABILITY", "MAINTAINABILITY"])
      && OrderIs(m, "PORTABILITY", 1)
      && ChildKeys(m, "PORTABILITY", ["COMPILER_RELATED_PORTABILITY", "HARDWARE_RELATED_PORTABILITY"])
      && ParentKey(m, "COMPILER_RELATED_PORTABILITY", "PORTABILITY")
      && ParentKey(m, "HARDWARE_RELATED_PORTABILITY", "PORTABILITY")
      && OrderIs(m, "MAINTAINABILITY", 2)
      && ChildKeys(m, "MAINTAINABILITY", ["READABILITY"])
      && ParentKey(m, "READABILITY", "MAINTAINABILITY")
  {
    ImportedRoots(doc, cache);
    PortabilityImported(doc, cache);
    PortabilityParent(doc, cache);
    MaintainabilityImported(doc, cache);
  }

  /** `import_xml_with_linear_function`: imported as written, with the default offset, and no error. */
  lemma {:induction false} LinearScenario()
    ensures var doc := EfficiencyDocument(RegexpRequirement(LINEAR, "3.2", None));
      CorrectlyImported(Imported(doc, MockRuleCache), ListLog(doc.characteristics, MockRuleCache), DefaultWorkUnit)
  {
    var r := RegexpRequirement(LINEAR, "3.2", None);
    FactorText();
    assert OutcomeOf(r, MockRuleCache)
      == Kept(Requirement(RuleKey("checkstyle", "Regexp"), Linear, WorkUnit(3.2, "h"), DefaultWorkUnit), None);
    EfficiencyTreeImported(EfficiencyDocument(r), r, MockRuleCache);
  }

  /** `import_xml_with_linear_with_offset`: the offset 1.0 h is kept. */
  lemma {:induction false} LinearWithOffsetScenario()
    ensures var doc := EfficiencyDocument(RegexpRequirement(LINEAR, "3.2", Some(ValueElement("1.0", "h"))));
      CorrectlyImported(Imported(doc, MockRuleCache), ListLog(doc.characteristics, MockRuleCache), WorkUnit(1.0, "h"))
  {
    var r := RegexpRequirement(LINEAR, "3.2", Some(ValueElement("1.0", "h")));
    FactorText();
    OffsetText();
    assert OutcomeOf(r, MockRuleCache)
      == Kept(Requirement(RuleKey("checkstyle", "Regexp"), Linear, WorkUnit(3.2, "h"), WorkUnit(1.0, "h")), None);
    EfficiencyTreeImported(EfficiencyDocument(r), r, MockRuleCache);
  }

  /** `convert_deprecated_linear_with_threshold_function_by_linear_function`: linear, 0.0 h offset, one warning. */
  lemma {:induction false} LinearWithThresholdScenario()
    ensures var doc := EfficiencyDocument(RequirementElement("checkstyle", "Regexp", LINEAR_WITH_THRESHOLD,
                                                             ValueElement("3.2", "h"), None, Some(ValueElement("1.0", "h"))));
      && CorrectlyImported(Imported(doc, MockRuleCache), ListLog(doc.characteristics, MockRuleCache), WorkUnit(0.0, "h"))
      && |ListLog(doc.characteristics, MockRuleCache).warnings| == 1
  {
    var r := RequirementElement("checkstyle", "Regexp", LINEAR_WITH_THRESHOLD, ValueElement("3.2", "h"), None, Some(ValueElement("1.0", "h")));
    FactorText();
    var key := RuleKey("checkstyle", "Regexp");
    assert OutcomeOf(r, MockRuleCache)
      == Kept(Requirement(key, Linear, WorkUnit(3.2, "h"), ZeroHours), Some(ThresholdReplacedMessage(key)));
    EfficiencyTreeImported(EfficiencyDocument(r), r, MockRuleCache);
  }

  /** `ignore_deprecated_constant_per_file_function`: one warning, and the requirement is not kept. */
  lemma {:induction false} ConstantPerFileScenario()
    ensures var doc := EfficiencyOnlyDocument(RegexpRequirement(CONSTANT_PER_FILE, "3.2", None));
            var m := Imported(doc, MockRuleCache);
      && |ListLog(doc.characteristics, MockRuleCache).warnings| == 1
      && |m.roots| == 1
      && RequirementsAre(m, "EFFICIENCY", [])
      && RequirementsAre(m, "MEMORY_EFFICIENCY", [])
  {
    var r := RegexpRequirement(CONSTANT_PER_FILE, "3.2", None);
    FactorText();
    OutcomeOfClassified(r, MockRuleCache);
    EfficiencyTreeImported(EfficiencyOnlyDocument(r), r, MockRuleCache);
  }

  /** `shouldLogWarningIfRuleNotFound`: the one warning names the rule, and nothing is kept. */
  lemma {:induction false} RuleNotFoundScenario()
    ensures var doc := EfficiencyOnlyDocument(RequirementElement("findbugs", "Foo", LINEAR, ValueElement("3.2", "h"), None, None));
            var m := Imported(doc, MockRuleCache);
            var warnings := ListLog(doc.characteristics, MockRuleCache).warnings;
      && warnings == ["Rule not found: [repository=findbugs, key=Foo]"]
      && Contains(warnings[0], "findbugs")
      && |m.roots| == 1
      && RequirementsAre(m, "EFFICIENCY", [])
      && RequirementsAre(m, "MEMORY_EFFICIENCY", [])
  {
    var r := RequirementElement("findbugs", "Foo", LINEAR, ValueElement("3.2", "h"), None, None);
    OutcomeOfUnknownRule(r, MockRuleCache);
    RuleNotFoundNamesRule(RuleKey("findbugs", "Foo"));
    RuleNotFoundWording();
    EfficiencyTreeImported(EfficiencyOnlyDocument(r), r, MockRuleCache);
  }

  /** `shouldNotifyOnUnexpectedValueTypeInXml`: a non-numeric factor is the one error, worded as the test expects. */
  lemma {:induction false} InvalidValueScenario()
    ensures var doc := EfficiencyOnlyDocument(RegexpRequirement(LINEAR, "abc", None));
      ListLog(doc.characteristics, MockRuleCache).errors
      == ["Cannot import value 'abc' for field factor - Expected a numeric value instead"]
  {
    var r := RegexpRequirement(LINEAR, "abc", None);
    ParseDecimalRejects("abc", 0);
    assert OutcomeOf(r, MockRuleCache) == Dropped(Error(NotNumericMessage("abc", "factor")));
    NotNumericWording();
    EfficiencyTreeImported(EfficiencyOnlyDocument(r), r, MockRuleCache);
  }
}
