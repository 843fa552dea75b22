# SonarQube fragments: technical-debt import, project settings, group membership, path predicate

This project models four pieces of SonarQube in Dafny and proves properties of them.

1. **Technical-debt model import.** `TechnicalDebtXMLImporter.importXML(xml, messages, ruleCache)`
   reads a document of characteristics. Each characteristic has nested sub-characteristics and
   remediation requirements bound to rules.
   - It builds a `TechnicalDebtModel`: root characteristics ordered 1, 2, …, children in document
     order with parent links, and an index by key.
   - It appends warnings and errors to the caller's `ValidationMessages` and never aborts.
   - A requirement whose rule the rule cache does not know is dropped with a warning.
   - A non-numeric factor or offset is dropped with an error.
   - `linear_with_threshold` becomes `linear` with a 0.0 h offset, plus a warning.
   - `constant_per_file` is dropped with a warning.

   The importer's own source is not part of this model. Its behaviour is the one its test fixes
   (`TechnicalDebtXMLImporterTest`). Modules:
   - `DebtModel`: the model class (an arena of characteristics) and the message class.
   - `DebtImportSpec`: the import as pure functions over values, and the tree lemmas.
   - `DebtImporter`: the imperative importer, proved against `DebtImportSpec`.
   - `DebtMessages`: message wording.
   - `DebtImportScenarios`: each test case, as a lemma about the fixture it reads.
2. **`ProjectSettings`** (module `BatchScan`). It does three things:
   - In preview mode, reading a key that ends with `.secured` and does not contain `.license`
     throws.
   - Every set, remove and clear is mirrored into the deprecated configuration. The class keeps a
     ghost history of those calls; its invariant is that the configuration is that history
     replayed.
   - Its sources are loaded in a fixed order: global settings, then the server's settings for the
     root key with branch, then the root project's properties.
3. **`InternalGroupMembershipService`** (module `GroupMembership`).
   - The `selected` parameter becomes IN, OUT or ANY.
   - The request parameters become a group-membership query.
   - `find` hands that query to the finder and returns the finder's answer.
4. **`AbsolutePathPredicate`** (module `FilePredicates`). It matches a file by its sanitized
   absolute path, and finds that file through the index by relative path (zero or one file).

Shared helpers: `Wrappers` (Option), `Strings` (suffix and substring tests, decimal digits) and
`WorkUnits` (costs, and parsing the numeric text of a factor or offset).

## Model

| member | source | states |
|---|---|---|
| DebtModel.RemediationFunction.Name | sonar-core/src/test/java/org/sonar/core/technicaldebt/TechnicalDebtXMLImporterTest.java:196 | an imported function reports the name "linear" exactly when it is the linear function |
| DebtModel.WithRequirementsConcat | sonar-core/src/test/java/org/sonar/core/technicaldebt/TechnicalDebtXMLImporterTest.java:192-193 | adding requirements one batch after another gives the concatenation in order; adding none changes nothing |
| DebtModel.WithCharacteristicWellFormed | sonar-core/src/test/java/org/sonar/core/technicaldebt/TechnicalDebtXMLImporterTest.java:52-68 | adding a characteristic keeps the tree well formed: root k has order k+1 and no parent, children and parent links agree, and every index entry points at a node with that key |
| DebtModel.WithRequirementsWellFormed | sonar-core/src/test/java/org/sonar/core/technicaldebt/TechnicalDebtXMLImporterTest.java:192-193 | setting a characteristic's requirements keeps the tree well formed |
| DebtModel.AppendedNodeLinked | sonar-core/src/test/java/org/sonar/core/technicaldebt/TechnicalDebtXMLImporterTest.java:56-68 | appending a node as a new root or as the last child of its parent keeps every node's children, parent and order links consistent |
| DebtModel.TechnicalDebtModel.constructor | sonar-core/src/test/java/org/sonar/core/technicaldebt/TechnicalDebtXMLImporterTest.java:50 | a new model is empty and well formed |
| DebtModel.TechnicalDebtModel.RootCharacteristics | sonar-core/src/test/java/org/sonar/core/technicaldebt/TechnicalDebtXMLImporterTest.java:52-57 | one characteristic per root: the k-th is the node at the k-th root position, without a parent, with order k+1 |
| DebtModel.TechnicalDebtModel.CharacteristicByKey | sonar-core/src/test/java/org/sonar/core/technicaldebt/TechnicalDebtXMLImporterTest.java:56-68 | a key is found exactly when the index holds it, and it leads to a characteristic with that key |
| DebtModel.TechnicalDebtModel.AddCharacteristic | sonar-core/src/test/java/org/sonar/core/technicaldebt/TechnicalDebtXMLImporterTest.java:56-68 | the model's new content is the old one plus the characteristic, as the next root or the parent's last child, and indexed |
| DebtModel.TechnicalDebtModel.AddRequirement | sonar-core/src/test/java/org/sonar/core/technicaldebt/TechnicalDebtXMLImporterTest.java:192-193 | the requirement is appended to that characteristic and nothing else changes |
| DebtModel.ValidationMessages.Create | sonar-core/src/test/java/org/sonar/core/technicaldebt/TechnicalDebtXMLImporterTest.java:49 | new messages hold no warning and no error |
| DebtModel.ValidationMessages.AddWarningText | sonar-core/src/test/java/org/sonar/core/technicaldebt/TechnicalDebtXMLImporterTest.java:144-145 | a warning is appended and the errors are unchanged |
| DebtModel.ValidationMessages.AddErrorText | sonar-core/src/test/java/org/sonar/core/technicaldebt/TechnicalDebtXMLImporterTest.java:164-165 | an error is appended and the warnings are unchanged |
| DebtModel.ValidationMessages.HasErrors | sonar-core/src/test/java/org/sonar/core/technicaldebt/TechnicalDebtXMLImporterTest.java:179 | true exactly when there is at least one error |
| WorkUnits.ParseDecimal | sonar-core/src/test/java/org/sonar/core/technicaldebt/TechnicalDebtXMLImporterTest.java:197 | numeric text is non-negative, made of digits and at most one dot, and starts and ends with a digit; a digit string reads as its decimal value |
| WorkUnits.ParseDecimalOfFraction | sonar-core/src/test/java/org/sonar/core/technicaldebt/TechnicalDebtXMLImporterTest.java:197 | digits, a dot and digits are numeric and read as the whole part plus the fraction digits over the matching power of ten ("3.2" is 3.2) |
| WorkUnits.DecimalParts | sonar-core/src/test/java/org/sonar/core/technicaldebt/TechnicalDebtXMLImporterTest.java:197 | such text splits at its one dot into the whole digits and the fraction digits |
| WorkUnits.ParseDecimalOfNat | sonar-core/src/test/java/org/sonar/core/technicaldebt/TechnicalDebtXMLImporterTest.java:197 | every natural number written in decimal is numeric and reads back as itself |
| WorkUnits.ParseDecimalRejects | sonar-core/src/test/java/org/sonar/core/technicaldebt/TechnicalDebtXMLImporterTest.java:154-166 | text holding a character that is neither a digit nor a dot is not numeric |
| DebtMessages.RuleNotFoundNamesRule | sonar-core/src/test/java/org/sonar/core/technicaldebt/TechnicalDebtXMLImporterTest.java:151 | the rule-not-found warning contains the rule's repository and its key |
| DebtMessages.RuleNotFoundWording | sonar-core/src/test/java/org/sonar/core/technicaldebt/TechnicalDebtXMLImporterTest.java:145 | the warning for findbugs/Foo reads "Rule not found: [repository=findbugs, key=Foo]" |
| DebtMessages.NotNumericWording | sonar-core/src/test/java/org/sonar/core/technicaldebt/TechnicalDebtXMLImporterTest.java:165 | the error for the factor "abc" reads "Cannot import value 'abc' for field factor - Expected a numeric value instead" |
| DebtImportSpec.OutcomeOf | sonar-core/src/test/java/org/sonar/core/technicaldebt/TechnicalDebtXMLImporterTest.java:95-166 | a kept requirement is bound to the element's rule, which the cache knows, has numeric values, and carries the element's factor with its unit |
| DebtImportSpec.OutcomeOfUnknownRule | sonar-core/src/test/java/org/sonar/core/technicaldebt/TechnicalDebtXMLImporterTest.java:136-152 | a requirement on a rule the cache does not know is dropped with the rule-not-found warning for that rule |
| DebtImportSpec.OutcomeOfClassified | sonar-core/src/test/java/org/sonar/core/technicaldebt/TechnicalDebtXMLImporterTest.java:95-166 | kept exactly when the rule is known, the values are numeric and the function is a linear one; a warning exactly for an unknown rule or constant_per_file; an error exactly for a known rule with a non-numeric value or an unknown function |
| DebtImportSpec.OutcomeOfKept | sonar-core/src/test/java/org/sonar/core/technicaldebt/TechnicalDebtXMLImporterTest.java:95-106 | a kept requirement has the element's rule and factor; linear_with_threshold becomes linear with offset 0.0 h and is the only kept one with a warning; the others keep their function and offset, or the default offset |
| DebtImportSpec.KeptRequirements | sonar-core/src/test/java/org/sonar/core/technicaldebt/TechnicalDebtXMLImporterTest.java:187-193 | at most one requirement is kept per requirement element |
| DebtImportSpec.RequirementsLog | sonar-core/src/test/java/org/sonar/core/technicaldebt/TechnicalDebtXMLImporterTest.java:136-166 | at most one message is reported per requirement element |
| DebtImportSpec.KeptRequirementsKnown | sonar-core/src/test/java/org/sonar/core/technicaldebt/TechnicalDebtXMLImporterTest.java:168-172 | every kept requirement is bound to a rule the rule cache knows |
| DebtImportSpec.RequirementsAccounted | sonar-core/src/test/java/org/sonar/core/technicaldebt/TechnicalDebtXMLImporterTest.java:136-166 | every requirement element is kept or reported, and no element is both kept and an error |
| DebtImportSpec.RequirementsStep | sonar-core/src/test/java/org/sonar/core/technicaldebt/TechnicalDebtXMLImporterTest.java:192-193 | importing one more requirement element adds its outcome's requirement and its message, after the earlier ones |
| DebtImportSpec.RequirementsContentStep | sonar-core/src/test/java/org/sonar/core/technicaldebt/TechnicalDebtXMLImporterTest.java:192-193 | the characteristic's requirements after one more element are the earlier ones plus that element's kept requirement |
| DebtImportSpec.CleanOutcome | sonar-core/src/test/java/org/sonar/core/technicaldebt/TechnicalDebtXMLImporterTest.java:71-81 | a well-formed linear requirement on a known rule is kept with no message |
| DebtImportSpec.CleanRequirementsImportSilently | sonar-core/src/test/java/org/sonar/core/technicaldebt/TechnicalDebtXMLImporterTest.java:179 | requirement elements that are all well formed report nothing and are all kept |
| DebtImportSpec.CleanCharacteristicSilent | sonar-core/src/test/java/org/sonar/core/technicaldebt/TechnicalDebtXMLImporterTest.java:179 | a characteristic whose nested requirements are all well formed imports with no warning and no error |
| DebtImportSpec.CharacteristicLog | sonar-core/src/test/java/org/sonar/core/technicaldebt/TechnicalDebtXMLImporterTest.java:174-199 | a characteristic reports no more messages than it holds requirement elements, nested ones included |
| DebtImportSpec.ListLog | sonar-core/src/test/java/org/sonar/core/technicaldebt/TechnicalDebtXMLImporterTest.java:44-69 | a list of characteristics reports no more messages than it holds requirement elements, nested ones included |
| DebtImportSpec.CleanListSilent | sonar-core/src/test/java/org/sonar/core/technicaldebt/TechnicalDebtXMLImporterTest.java:179 | a list of such characteristics imports with no warning and no error |
| DebtImportSpec.KeysWithinList | sonar-core/src/test/java/org/sonar/core/technicaldebt/TechnicalDebtXMLImporterTest.java:56-68 | the keys of one element are among the keys of the list that holds it |
| DebtImportSpec.LocatedKeysIndexed | sonar-core/src/test/java/org/sonar/core/technicaldebt/TechnicalDebtXMLImporterTest.java:56-68 | when an element is located in the model, every key in its subtree is in the index |
| DebtImportSpec.ListKeysIndexed | sonar-core/src/test/java/org/sonar/core/technicaldebt/TechnicalDebtXMLImporterTest.java:56-68 | when each element of a list is located, every key in the list is in the index |
| DebtImportSpec.RepresentsFrame | sonar-core/src/test/java/org/sonar/core/technicaldebt/TechnicalDebtXMLImporterTest.java:52-68 | a node that mirrors an element still mirrors it after later nodes are added or earlier nodes change |
| DebtImportSpec.LocatedFrame | sonar-core/src/test/java/org/sonar/core/technicaldebt/TechnicalDebtXMLImporterTest.java:56-68 | a located element stays located when later nodes are added and its keys keep their index entries |
| DebtImportSpec.ImportedCharacteristic | sonar-core/src/test/java/org/sonar/core/technicaldebt/TechnicalDebtXMLImporterTest.java:52-68 | importing an element adds at least its own node |
| DebtImportSpec.ImportedList | sonar-core/src/test/java/org/sonar/core/technicaldebt/TechnicalDebtXMLImporterTest.java:52-68 | importing a list adds at least one node per element |
| DebtImportSpec.ListIds | sonar-core/src/test/java/org/sonar/core/technicaldebt/TechnicalDebtXMLImporterTest.java:58-62 | one position per element of the list |
| DebtImportSpec.CharacteristicFrame | sonar-core/src/test/java/org/sonar/core/technicaldebt/TechnicalDebtXMLImporterTest.java:52-68 | importing an element gives the new node that parent and leaves the other earlier nodes as they were; the parent gains it as its last child, or it becomes the next root when there is no parent |
| DebtImportSpec.ListFrame | sonar-core/src/test/java/org/sonar/core/technicaldebt/TechnicalDebtXMLImporterTest.java:58-62 | importing a list appends its elements, in order, to the parent's children, or to the roots when there is no parent |
| DebtImportSpec.ListIdsPlaced | sonar-core/src/test/java/org/sonar/core/technicaldebt/TechnicalDebtXMLImporterTest.java:58-62 | each element of a list lands at a new position, past every earlier node, and its node names the list's parent |
| DebtImportSpec.CharacteristicKeysFrame | sonar-core/src/test/java/org/sonar/core/technicaldebt/TechnicalDebtXMLImporterTest.java:56-68 | importing an element adds exactly its subtree's keys to the index and keeps every other entry |
| DebtImportSpec.ListKeysFrame | sonar-core/src/test/java/org/sonar/core/technicaldebt/TechnicalDebtXMLImporterTest.java:56-68 | importing a list adds exactly the keys of its elements' subtrees to the index and keeps every other entry |
| DebtImportSpec.CharacteristicWellFormed | sonar-core/src/test/java/org/sonar/core/technicaldebt/TechnicalDebtXMLImporterTest.java:52-68 | importing an element keeps the model well formed |
| DebtImportSpec.ListWellFormed | sonar-core/src/test/java/org/sonar/core/technicaldebt/TechnicalDebtXMLImporterTest.java:52-68 | importing a list keeps the model well formed |
| DebtImportSpec.CharacteristicRepresents | sonar-core/src/test/java/org/sonar/core/technicaldebt/TechnicalDebtXMLImporterTest.java:56-68 | the imported node mirrors its element: its key and name, its kept requirements in order, and one child per sub-element, in order, each mirroring it |
| DebtImportSpec.RequirementsCompleteRepresents | sonar-core/src/test/java/org/sonar/core/technicaldebt/TechnicalDebtXMLImporterTest.java:187-193 | once its children are in place, giving a node its kept requirements makes it mirror its element |
| DebtImportSpec.RepresentsIntro | sonar-core/src/test/java/org/sonar/core/technicaldebt/TechnicalDebtXMLImporterTest.java:56-68 | a node with the element's key, name and requirements, whose children mirror the sub-elements in order, mirrors the element |
| DebtImportSpec.ChildrenKeptByRequirements | sonar-core/src/test/java/org/sonar/core/technicaldebt/TechnicalDebtXMLImporterTest.java:187-193 | setting a parent's requirements leaves its children mirroring their elements |
| DebtImportSpec.ListRepresents | sonar-core/src/test/java/org/sonar/core/technicaldebt/TechnicalDebtXMLImporterTest.java:58-62 | after importing a list, each element's node mirrors that element |
| DebtImportSpec.LaterNodesKept | sonar-core/src/test/java/org/sonar/core/technicaldebt/TechnicalDebtXMLImporterTest.java:58-62 | importing an element under a parent that precedes position p leaves every node from p up to the element's own position unchanged |
| DebtImportSpec.EarlierSiblingsRepresented | sonar-core/src/test/java/org/sonar/core/technicaldebt/TechnicalDebtXMLImporterTest.java:58-62 | earlier siblings still mirror their elements after a later sibling is imported |
| DebtImportSpec.CharacteristicLocated | sonar-core/src/test/java/org/sonar/core/technicaldebt/TechnicalDebtXMLImporterTest.java:56-68 | with distinct keys, every key in an imported element's subtree leads through the index to the node imported for it |
| DebtImportSpec.ListLocated | sonar-core/src/test/java/org/sonar/core/technicaldebt/TechnicalDebtXMLImporterTest.java:56-68 | with distinct keys across a list, every element of it is located after the import |
| DebtImportSpec.DistinctListSplit | sonar-core/src/test/java/org/sonar/core/technicaldebt/TechnicalDebtXMLImporterTest.java:56-68 | distinct keys in a list means distinct keys in its front and its last element, and no key shared between them |
| DebtImportSpec.EarlierSiblingsLocated | sonar-core/src/test/java/org/sonar/core/technicaldebt/TechnicalDebtXMLImporterTest.java:56-68 | earlier siblings stay located after a later sibling with other keys is imported |
| DebtImportSpec.ChildrenLocatedByRequirements | sonar-core/src/test/java/org/sonar/core/technicaldebt/TechnicalDebtXMLImporterTest.java:187-193 | setting a parent's requirements leaves its children located |
| DebtImportSpec.LocatedIntro | sonar-core/src/test/java/org/sonar/core/technicaldebt/TechnicalDebtXMLImporterTest.java:56-68 | a node indexed under its element's key, whose children are located, is located |
| DebtImportSpec.Imported | sonar-core/src/test/java/org/sonar/core/technicaldebt/TechnicalDebtXMLImporterTest.java:44-69 | the model imported from a document holds at least one characteristic per top-level element |
| DebtImportSpec.CharacteristicNodeCount | sonar-core/src/test/java/org/sonar/core/technicaldebt/TechnicalDebtXMLImporterTest.java:56-68 | importing an element adds exactly one characteristic per element in its subtree |
| DebtImportSpec.ListNodeCount | sonar-core/src/test/java/org/sonar/core/technicaldebt/TechnicalDebtXMLImporterTest.java:56-68 | importing a list adds exactly one characteristic per element in its elements' subtrees |
| DebtImportSpec.ImportedNodeCount | sonar-core/src/test/java/org/sonar/core/technicaldebt/TechnicalDebtXMLImporterTest.java:44-69 | the imported model holds exactly one characteristic per characteristic element of the document, nested ones included |
| DebtImportSpec.ImportedWellFormed | sonar-core/src/test/java/org/sonar/core/technicaldebt/TechnicalDebtXMLImporterTest.java:52-68 | the imported model is well formed: roots ordered 1, 2, …, consistent parent and child links, and a key index into the tree |
| DebtImportSpec.ImportedRoots | sonar-core/src/test/java/org/sonar/core/technicaldebt/TechnicalDebtXMLImporterTest.java:52-54 | one root per top-level element, in document order, each mirroring its element |
| DebtImportSpec.ImportedKeys | sonar-core/src/test/java/org/sonar/core/technicaldebt/TechnicalDebtXMLImporterTest.java:56-68 | the index holds exactly the document's keys, nested ones included |
| DebtImportSpec.ImportedLocated | sonar-core/src/test/java/org/sonar/core/technicaldebt/TechnicalDebtXMLImporterTest.java:56-68 | with distinct keys, each key leads to the node imported for its element |
| DebtImporter.ImportXml | sonar-core/src/test/java/org/sonar/core/technicaldebt/TechnicalDebtXMLImporterTest.java:49-50 | returns a fresh, well-formed model whose content is the imported document, and appends the document's warnings and errors in document order |
| DebtImporter.ImportCharacteristic | sonar-core/src/test/java/org/sonar/core/technicaldebt/TechnicalDebtXMLImporterTest.java:56-68 | imports one element and its subtree in place, as the value-level import does, and reports its messages in order |
| DebtImporter.ImportList | sonar-core/src/test/java/org/sonar/core/technicaldebt/TechnicalDebtXMLImporterTest.java:58-62 | imports sibling elements in document order, as the value-level import does |
| DebtImporter.ImportRequirements | sonar-core/src/test/java/org/sonar/core/technicaldebt/TechnicalDebtXMLImporterTest.java:192-193 | the characteristic gains exactly the kept requirements, in order, and the messages gain each element's message, in order |
| DebtImporter.ImportRequirement | sonar-core/src/test/java/org/sonar/core/technicaldebt/TechnicalDebtXMLImporterTest.java:192-193 | one loop step: the state after element r+1 is the value-level import of the first r+1 elements |
| DebtImporter.Report | sonar-core/src/test/java/org/sonar/core/technicaldebt/TechnicalDebtXMLImporterTest.java:144-145 | reports an outcome's message, as a warning or an error, and nothing else |
| DebtImportScenarios.EfficiencyTreeImported | sonar-core/src/test/java/org/sonar/core/technicaldebt/TechnicalDebtXMLImporterTest.java:178-198 | in the EFFICIENCY fixtures, EFFICIENCY and MEMORY_EFFICIENCY are found by key with their names and child, and MEMORY_EFFICIENCY holds what its one requirement element keeps |
| DebtImportScenarios.FactorText | sonar-core/src/test/java/org/sonar/core/technicaldebt/TechnicalDebtXMLImporterTest.java:197 | the text "3.2" is the numeric value 3.2 |
| DebtImportScenarios.OffsetText | sonar-core/src/test/java/org/sonar/core/technicaldebt/TechnicalDebtXMLImporterTest.java:92 | the text "1.0" is the numeric value 1.0 |
| DebtImportScenarios.RootCharacteristicImported | sonar-core/src/test/java/org/sonar/core/technicaldebt/TechnicalDebtXMLImporterTest.java:52-68 | the k-th root element is the k-th root, found by key, with order k+1, its child keys in order, and itself as their parent |
| DebtImportScenarios.CharacteristicsDocumentDistinct | sonar-core/src/test/java/org/sonar/core/technicaldebt/TechnicalDebtXMLImporterTest.java:44-69 | the keys of the characteristics fixture are distinct |
| DebtImportScenarios.PortabilityImported | sonar-core/src/test/java/org/sonar/core/technicaldebt/TechnicalDebtXMLImporterTest.java:56-61 | PORTABILITY has order 1 and the children COMPILER_RELATED_PORTABILITY and HARDWARE_RELATED_PORTABILITY, in that order |
| DebtImportScenarios.PortabilityParent | sonar-core/src/test/java/org/sonar/core/technicaldebt/TechnicalDebtXMLImporterTest.java:60-62 | both portability children have PORTABILITY as their parent |
| DebtImportScenarios.MaintainabilityImported | sonar-core/src/test/java/org/sonar/core/technicaldebt/TechnicalDebtXMLImporterTest.java:64-68 | MAINTAINABILITY has order 2 and the one child READABILITY, whose parent it is |
| DebtImportScenarios.ImportCharacteristicsScenario | sonar-core/src/test/java/org/sonar/core/technicaldebt/TechnicalDebtXMLImporterTest.java:43-69 | the roots are PORTABILITY then MAINTAINABILITY, with orders 1 and 2, their children in order and the parent of each child |
| DebtImportScenarios.LinearScenario | sonar-core/src/test/java/org/sonar/core/technicaldebt/TechnicalDebtXMLImporterTest.java:71-81 | no error, two roots, EFFICIENCY/Efficiency with one child MEMORY_EFFICIENCY/Memory use, whose one requirement is checkstyle/Regexp, linear, 3.2 h, default offset |
| DebtImportScenarios.LinearWithOffsetScenario | sonar-core/src/test/java/org/sonar/core/technicaldebt/TechnicalDebtXMLImporterTest.java:83-93 | as above, with the offset 1.0 h |
| DebtImportScenarios.LinearWithThresholdScenario | sonar-core/src/test/java/org/sonar/core/technicaldebt/TechnicalDebtXMLImporterTest.java:95-106 | as above, with the function linear and the offset 0.0 h, and exactly one warning |
| DebtImportScenarios.ConstantPerFileScenario | sonar-core/src/test/java/org/sonar/core/technicaldebt/TechnicalDebtXMLImporterTest.java:108-123 | exactly one warning, one root, and no requirement on EFFICIENCY or MEMORY_EFFICIENCY |
| DebtImportScenarios.RuleNotFoundScenario | sonar-core/src/test/java/org/sonar/core/technicaldebt/TechnicalDebtXMLImporterTest.java:136-152 | the only warning is "Rule not found: [repository=findbugs, key=Foo]" and contains "findbugs"; one root; no requirement kept |
| DebtImportScenarios.InvalidValueScenario | sonar-core/src/test/java/org/sonar/core/technicaldebt/TechnicalDebtXMLImporterTest.java:154-166 | the only error is "Cannot import value 'abc' for field factor - Expected a numeric value instead" |
| Strings.ContainsIffOccurs | sonar-batch/src/main/java/org/sonar/batch/scan/ProjectSettings.java:84 | `contains` holds exactly when the substring occurs at some position |
| Strings.EndsWithContains | sonar-batch/src/main/java/org/sonar/batch/scan/ProjectSettings.java:84 | a string contains every suffix it ends with |
| BatchScan.GetPropertiesRefusal | sonar-batch/src/main/java/org/sonar/batch/scan/ProjectSettings.java:82-88 | never refused outside preview mode, nor for a key containing ".license", nor for a key not ending in ".secured"; a refusal carries the secured-access message |
| BatchScan.ProjectSettings.DoOnGetProperties | sonar-batch/src/main/java/org/sonar/batch/scan/ProjectSettings.java:82-88 | on these settings, a read is refused exactly in preview mode for a key ending in ".secured" that does not contain ".license", with the secured-access message |
| BatchScan.RefusedIffSecuredNotLicensed | sonar-batch/src/main/java/org/sonar/batch/scan/ProjectSettings.java:84 | refused exactly when in preview mode, ".secured" ends the key and ".license" occurs nowhere in it |
| BatchScan.LicensedSecuredKeyReadable | sonar-batch/src/main/java/org/sonar/batch/scan/ProjectSettings.java:84 | a key ending in ".license.secured" is readable in every mode |
| BatchScan.SecuredAccessMessageNamesKey | sonar-batch/src/main/java/org/sonar/batch/scan/ProjectSettings.java:85-86 | the refusal message contains the key that was asked for |
| BatchScan.Applied | sonar-batch/src/main/java/org/sonar/batch/scan/ProjectSettings.java:67-80 | a set writes that key and its possibly-null value, a remove clears exactly that key, other keys unchanged; a clear empties the configuration |
| BatchScan.ReplayedIsLastWritten | sonar-batch/src/main/java/org/sonar/batch/scan/ProjectSettings.java:67-80 | after any sequence of hook calls, a key is present, with the value written, exactly when the last call that touched it was a set; otherwise it keeps its initial value |
| BatchScan.ProjectSettings.constructor | sonar-batch/src/main/java/org/sonar/batch/scan/ProjectSettings.java:46-55 | keeps the mode and the configuration, and loads the global settings, the referentials for the root key with branch, and the root's properties, in that order |
| BatchScan.ProjectSettings.Init | sonar-batch/src/main/java/org/sonar/batch/scan/ProjectSettings.java:57-65 | adds the three sources in that order after the earlier ones, keeping the mirror invariant |
| BatchScan.ProjectSettings.DoOnSetProperty | sonar-batch/src/main/java/org/sonar/batch/scan/ProjectSettings.java:67-70 | the configuration is the old one with that key set to the (possibly null) value; the call joins the history; the invariant is kept |
| BatchScan.ProjectSettings.DoOnRemoveProperty | sonar-batch/src/main/java/org/sonar/batch/scan/ProjectSettings.java:72-75 | the configuration is the old one without that key; the invariant is kept |
| BatchScan.ProjectSettings.DoOnClearProperties | sonar-batch/src/main/java/org/sonar/batch/scan/ProjectSettings.java:77-80 | the configuration is empty; the invariant is kept |
| GroupMembership.Param | sonar-server/src/main/java/org/sonar/server/group/InternalGroupMembershipService.java:47 | a parameter is non-null exactly when it is present, and then it is its value |
| GroupMembership.MembershipOf | sonar-server/src/main/java/org/sonar/server/group/InternalGroupMembershipService.java:54-63 | IN exactly for "selected", OUT exactly for "deselected", ANY for anything else, an absent value included |
| GroupMembership.SelectedValue | sonar-server/src/main/java/org/sonar/server/group/InternalGroupMembershipService.java:54-63 | the `selected` value that asks for a filter; ANY alone is asked for by an absent value |
| GroupMembership.MembershipOfSelectedValue | sonar-server/src/main/java/org/sonar/server/group/InternalGroupMembershipService.java:54-63 | reading back the value that asks for a filter gives that filter |
| GroupMembership.OtherSelectedIsAny | sonar-server/src/main/java/org/sonar/server/group/InternalGroupMembershipService.java:60-62 | any value other than the two exact words, a different case included, gives ANY |
| GroupMembership.ParseQuery | sonar-server/src/main/java/org/sonar/server/group/InternalGroupMembershipService.java:44-52 | the filter comes from `selected`, the search text from `query` and the login from `user`, unchanged; the page index and size are `page` and `pageSize` through the integer conversion |
| GroupMembership.ParseQueryReadsOnlyQueryParams | sonar-server/src/main/java/org/sonar/server/group/InternalGroupMembershipService.java:44-52 | requests that agree on the five query parameters give the same query |
| GroupMembership.QueryRequest | sonar-server/src/main/java/org/sonar/server/group/InternalGroupMembershipService.java:44-52 | a request for a filter, a search text and a login uses only query parameters |
| GroupMembership.ParseQueryRequest | sonar-server/src/main/java/org/sonar/server/group/InternalGroupMembershipService.java:46-50 | such a request parses back into its filter, search text and login |
| GroupMembership.Find | sonar-server/src/main/java/org/sonar/server/group/InternalGroupMembershipService.java:40-42 | the finder's answer to the parsed query, unchanged |
| GroupMembership.FindReadsOnlyQueryParams | sonar-server/src/main/java/org/sonar/server/group/InternalGroupMembershipService.java:40-42 | requests that agree on the query parameters get the same answer |
| FilePredicates.NewAbsolutePathPredicate | sonar-plugin-api/src/main/java/org/sonar/api/batch/fs/internal/AbsolutePathPredicate.java:39-42 | the stored path is the sanitized form of the argument, and the base directory is kept |
| FilePredicates.AbsolutePathPredicate.Apply | sonar-plugin-api/src/main/java/org/sonar/api/batch/fs/internal/AbsolutePathPredicate.java:45-47 | holds exactly when the stored path equals the file's absolute path; throws exactly when the stored path is null |
| FilePredicates.AbsolutePathPredicate.Get | sonar-plugin-api/src/main/java/org/sonar/api/batch/fs/internal/AbsolutePathPredicate.java:50-57 | at most one file; none when the relative path is null; the indexed file when the index has one at the relative path, none otherwise |
| FilePredicates.AbsolutePathPredicate.Priority | sonar-plugin-api/src/main/java/org/sonar/api/batch/fs/internal/AbsolutePathPredicate.java:59-62 | always evaluated through the index |
| FilePredicates.GetFindsEveryMatchingFile | sonar-plugin-api/src/main/java/org/sonar/api/batch/fs/internal/AbsolutePathPredicate.java:45-57 | when the index agrees with the path helpers, `get` returns every indexed file that `apply` accepts |
| FilePredicates.GetReturnsOnlyMatchingFiles | sonar-plugin-api/src/main/java/org/sonar/api/batch/fs/internal/AbsolutePathPredicate.java:45-57 | when, moreover, distinct paths have distinct relative paths, `apply` accepts the file `get` returns |

## Left out

- The importer's own source is not part of this model, and its test leaves three points open.
  The model makes these choices of its own:
  - The checks run in this order: rule lookup, then a numeric factor, then a numeric offset, then
    the function name.
  - Children are imported before requirements.
  - A requirement with a non-numeric value is dropped.
- XML parsing, resource loading and the badly formatted fixture are left out. The importer
  receives the element tree a parser would give, so the badly formatted fixture is the same tree as
  the linear one.
- The Mockito `RuleFinder`/`RuleQuery` rule cache is left out. It is a set of known
  (repository, key) pairs; the tests' cache knows only checkstyle/Regexp.
- Unit conversion between days and hours, IEEE doubles, and numeric formats other than digits
  with an optional fraction are left out. Costs are Dafny reals, and work units compare by value
  and unit token.
- WorkUnits.DefaultWorkUnit: left unspecified, because nothing shown fixes the value and unit of
  `WorkUnit.create()`.
- DebtMessages.ThresholdReplacedMessage, DebtMessages.ConstantPerFileIgnoredMessage and
  DebtMessages.UnknownFunctionMessage: the wording is this model's own. The tests only count
  these messages.
- DebtImportScenarios.LinearWithOffsetScenario: the offset fixture is modelled with the function
  "linear" and an offset, because the test expects the function "linear".
- The names of dropped requirement functions other than the four known ones, and duplicate
  characteristic keys, are not fixed by the shown code. For duplicate keys the later entry wins
  in the index, and the key-to-node property is proved only for documents with distinct keys.
- BatchScan.ProjectSettings.Init: records the three `addProperties` calls in order. What they
  write into the settings, and through `doOnSetProperty` into the deprecated configuration,
  belongs to the `Settings` base class, which is not part of this model.
- BatchScan.ProjectSettings.constructor: the encryption secret-key path (line 50) and the log line
  (line 58) are left out.
- Commons Configuration is left out. Its internals, including what it does with a null value, are
  not modelled; the model keeps the key with a null value.
- GroupMembership.ParseQuery: parameter values are modelled as text only (the service takes
  `Map<String, Object>`). So the `ClassCastException` that the `(String)` casts of `query`,
  `user` and `selected` throw on a non-text value (lines 47, 50, 55) is not modelled, and neither
  are non-text `page`/`pageSize` values handed to `RubyUtils.toInteger` (lines 48-49).
- GroupMembership.ParseQuery: `RubyUtils.toInteger` is a parameter. `GroupMembershipQuery.Builder`
  defaults and validation are left out; the query is the raw field record, and IN/OUT/ANY are a
  datatype rather than the builder's string constants.
- GroupMembership.Find: the finder's database lookup is a function parameter.
- `PathUtils.sanitize`, `PathResolver.relativePath` and `java.io.File` are parameters with no
  properties assumed, and either may give null. The agreement between index and path helpers that
  the two `get` lemmas assume is stated as their precondition.
- `StopperThreadTest` is left out: threads, joins, sleeps and stop timeouts.
