/**
 * `TechnicalDebtXMLImporter`: walks the characteristic elements of a parsed technical-debt
 * document depth first, fills a `TechnicalDebtModel` in place and appends every problem to the
 * caller's `ValidationMessages`, without ever aborting. Each method is proved against the
 * value-level definition of the import in `DebtImportSpec`.
 */
module DebtImporter {
  import opened Wrappers
  import opened DebtModel
  import opened DebtImportSpec

  /**
   * `importXML(xml, messages, ruleCache)`: a new model holding the imported document; the
   * messages gain the document's warnings and errors, in document order.
   */
  method ImportXml(doc: Document, messages: ValidationMessages, cache: RuleCache) returns (model: TechnicalDebtModel)
    modifies messages
    ensures fresh(model)
    ensures model.Content() == Imported(doc, cache)
    ensures model.Valid()
    ensures messages.warnings == old(messages.warnings) + ListLog(doc.characteristics, cache).warnings
    ensures messages.errors == old(messages.errors) + ListLog(doc.characteristics, cache).errors
  {
    model := new TechnicalDebtModel();
    ImportList(model, messages, cache, doc.characteristics, None);
    ImportedWellFormed(doc, cache);
  }

  /**
   * Imports one characteristic element under `parent` (or as the next root) and everything
   * nested in it: the characteristic itself, then its sub-characteristics in order, then its
   * requirements in order.
   */
  method ImportCharacteristic(model: TechnicalDebtModel, messages: ValidationMessages, cache: RuleCache,
                              e: CharacteristicElement, parent: Option<nat>) returns (id: nat)
    requires parent.Some? ==> parent.value < |model.nodes|
    modifies model, messages
    ensures id == |old(model.nodes)|
    ensures model.Content() == ImportedCharacteristic(old(model.Content()), e, parent, cache)
    ensures messages.warnings == old(messages.warnings) + CharacteristicLog(e, cache).warnings
    ensures messages.errors == old(messages.errors) + CharacteristicLog(e, cache).errors
    decreases e
  {
    id := model.AddCharacteristic(e.key, e.name, parent);
    ImportList(model, messages, cache, e.children, Some(id));
    ImportRequirements(model, messages, cache, e.requirements, id);
    var childLog, requirementsLog := ListLog(e.children, cache), RequirementsLog(e.requirements, cache);
    ConcatAssociative(old(messages.warnings), childLog.warnings, requirementsLog.warnings);
    ConcatAssociative(old(messages.errors), childLog.errors, requirementsLog.errors);
  }

  /**
   * Imports sibling characteristic elements in document order: as the children of `parent`,
   * or, without a parent, as the next root characteristics.
   */
  method ImportList(model: TechnicalDebtModel, messages: ValidationMessages, cache: RuleCache,
                    es: seq<CharacteristicElement>, parent: Option<nat>)
    requires parent.Some? ==> parent.value < |model.nodes|
    modifies model, messages
    ensures model.Content() == ImportedList(old(model.Content()), es, parent, cache)
    ensures messages.warnings == old(messages.warnings) + ListLog(es, cache).warnings
    ensures messages.errors == old(messages.errors) + ListLog(es, cache).errors
    decreases es
  {
    var j := 0;
    while j < |es|
      invariant 0 <= j <= |es|
      invariant model.Content() == ImportedList(old(model.Content()), es[..j], parent, cache)
      invariant messages.warnings == old(messages.warnings) + ListLog(es[..j], cache).warnings
      invariant messages.errors == old(messages.errors) + ListLog(es[..j], cache).errors
    {
      ghost var before := messages.warnings;
      var id := ImportCharacteristic(model, messages, cache, es[j], parent);
      assert es[..j + 1][..j] == es[..j];
      var listLog, log := ListLog(es[..j], cache), CharacteristicLog(es[j], cache);
      assert ListLog(es[..j + 1], cache) == listLog.Then(log);
      ConcatAssociative(old(messages.warnings), listLog.warnings, log.warnings);
      ConcatAssociative(old(messages.errors), listLog.errors, log.errors);
      j := j + 1;
    }
    assert es[..j] == es;
  }

  /** Imports the requirement elements of characteristic `id`, in document order. */
  method ImportRequirements(model: TechnicalDebtModel, messages: ValidationMessages, cache: RuleCache,
                            rs: seq<RequirementElement>, id: nat)
    requires id < |model.nodes|
    modifies model, messages
    ensures model.Content() == WithRequirements(old(model.Content()), id, KeptRequirements(rs, cache))
    ensures messages.warnings == old(messages.warnings) + RequirementsLog(rs, cache).warnings
    ensures messages.errors == old(messages.errors) + RequirementsLog(rs, cache).errors
  {
    WithRequirementsConcat(model.Content(), id, [], []);
    var r := 0;
    while r < |rs|
      invariant 0 <= r <= |rs|
      invariant id < |model.nodes|
      invariant model.Content() == WithRequirements(old(model.Content()), id, KeptRequirements(rs[..r], cache))
      invariant messages.warnings == old(messages.warnings) + RequirementsLog(rs[..r], cache).warnings
      invariant messages.errors == old(messages.errors) + RequirementsLog(rs[..r], cache).errors
    {
      ImportRequirement(model, messages, cache, rs, r, id, old(model.Content()), old(messages.warnings), old(messages.errors));
      r := r + 1;
    }
    assert rs[..r] == rs;
  }

  /**
   * Imports the requirement element `rs[r]` of characteristic `id`, the ones before it being
   * imported already: its outcome's requirement, if kept, is added and its message reported.
   */
  method ImportRequirement(model: TechnicalDebtModel, messages: ValidationMessages, cache: RuleCache,
                           rs: seq<RequirementElement>, r: nat, id: nat,
                           ghost start: Arena, ghost warnings: seq<string>, ghost errors: seq<string>)
    requires r < |rs| && id < |start.nodes|
    requires model.Content() == WithRequirements(start, id, KeptRequirements(rs[..r], cache))
    requires messages.warnings == warnings + RequirementsLog(rs[..r], cache).warnings
    requires messages.errors == errors + RequirementsLog(rs[..r], cache).errors
    modifies model, messages
    ensures model.Content() == WithRequirements(start, id, KeptRequirements(rs[..r + 1], cache))
    ensures messages.warnings == warnings + RequirementsLog(rs[..r + 1], cache).warnings
    ensures messages.errors == errors + RequirementsLog(rs[..r + 1], cache).errors
  {
    var outcome := OutcomeOf(rs[r], cache);
    ghost var log := RequirementsLog(rs[..r], cache);
    Report(messages, outcome);
    RequirementsStep(rs, r, cache);
    ConcatAssociative(warnings, log.warnings, OutcomeLog(outcome).warnings);
    ConcatAssociative(errors, log.errors, OutcomeLog(outcome).errors);
    RequirementsContentStep(start, id, rs, r, cache);
    if outcome.Kept? {
      model.AddRequirement(id, outcome.requirement);
    }
  }

  /** Reports the message of one requirement's outcome, if it has one. */
  method Report(messages: ValidationMessages, outcome: Outcome)
    modifies messages
    ensures messages.warnings == old(messages.warnings) + OutcomeLog(outcome).warnings
    ensures messages.errors == old(messages.errors) + OutcomeLog(outcome).errors
  {
    match outcome {
      case Kept(_, warning) =>
        if warning.Some? {
          messages.AddWarningText(warning.value);
        }
      case Dropped(Warning(text)) =>
        messages.AddWarningText(text);
      case Dropped(Error(text)) =>
        messages.AddErrorText(text);
    }
  }
}
