/**
 * What `TechnicalDebtXMLImporter.importXML(xml, messages, ruleCache)` computes, as values: the
 * element tree of a parsed technical-debt document, the outcome of importing one requirement
 * element against the rule cache, the messages reported, and the model content the depth-first
 * walk of the elements produces. The lemmas state what the imported model is: a well-formed
 * tree that mirrors the document, with every key indexed.
 *
 * The XML text itself is not read here: the importer receives the element tree a parser
 * would produce.
 */
module DebtImportSpec {
  import opened Wrappers
  import opened Strings
  import opened WorkUnits
  import opened DebtModel
  import opened DebtMessages

  /** A value and its unit as written in the document, not yet checked. */
  datatype ValueElement = ValueElement(text: string, unit: string)

  /** A requirement element: the rule it binds, its function name and its cost fields. */
  datatype RequirementElement = RequirementElement(
    repository: string,
    rule: string,
    functionName: string,
    factor: ValueElement,
    offset: Option<ValueElement>,
    threshold: Option<ValueElement>)

  /** A characteristic element with its nested characteristics and requirements, in document order. */
  datatype CharacteristicElement = CharacteristicElement(
    key: string,
    name: string,
    children: seq<CharacteristicElement>,
    requirements: seq<RequirementElement>)

  /** A parsed document: its top-level characteristic elements, in document order. */
  datatype Document = Document(characteristics: seq<CharacteristicElement>)

  const LINEAR := "linear"
  const LINEAR_WITH_OFFSET := "linear_with_offset"
  const LINEAR_WITH_THRESHOLD := "linear_with_threshold"
  const CONSTANT_PER_FILE := "constant_per_file"

  datatype Message = Warning(text: string) | Error(text: string)

  /**
   * What importing one requirement element gives: the requirement kept (possibly with a
   * warning about how it was rewritten), or nothing kept and the one message explaining why.
   */
  datatype Outcome = Kept(requirement: Requirement, warning: Option<string>) | Dropped(reason: Message)

  /** Warnings and errors, in the order they are reported. */
  datatype Log = Log(warnings: seq<string>, errors: seq<string>) {
    function Then(next: Log): Log {
      Log(warnings + next.warnings, errors + next.errors)
    }
  }

  const EmptyLog := Log([], [])

  /** The messages an outcome reports. */
  function OutcomeLog(o: Outcome): Log {
    match o
    case Kept(_, None) => EmptyLog
    case Kept(_, Some(w)) => Log([w], [])
    case Dropped(Warning(t)) => Log([t], [])
    case Dropped(Error(t)) => Log([], [t])
  }

  /**
   * Importing one requirement element. The rule is looked up first; then the factor and the
   * offset must be numeric; then the function decides: linear functions are kept,
   * linear_with_threshold becomes linear with a zero offset, constant_per_file is dropped,
   * and any other name is an error.
   */
  function OutcomeOf(r: RequirementElement, cache: RuleCache): (o: Outcome)
    ensures o.Kept? ==> o.requirement.ruleKey == RuleKey(r.repository, r.rule) && RuleExists(cache, o.requirement.ruleKey)
    ensures o.Kept? ==> NumericValues(r) && o.requirement.factor == WorkUnit(ParseDecimal(r.factor.text).value, r.factor.unit)
  {
    var key := RuleKey(r.repository, r.rule);
    if !RuleExists(cache, key) then
      Dropped(Warning(RuleNotFoundMessage(key)))
    else
      match ParseDecimal(r.factor.text)
      case None => Dropped(Error(NotNumericMessage(r.factor.text, "factor")))
      case Some(factorValue) =>
        var factor := WorkUnit(factorValue, r.factor.unit);
        if r.offset.Some? && ParseDecimal(r.offset.value.text).None? then
          Dropped(Error(NotNumericMessage(r.offset.value.text, "offset")))
        else
          var offset :=
            if r.offset.Some? then WorkUnit(ParseDecimal(r.offset.value.text).value, r.offset.value.unit)
            else DefaultWorkUnit;
          if r.functionName == LINEAR then
            Kept(Requirement(key, Linear, factor, offset), None)
          else if r.functionName == LINEAR_WITH_OFFSET then
            Kept(Requirement(key, LinearWithOffset, factor, offset), None)
          else if r.functionName == LINEAR_WITH_THRESHOLD then
            Kept(Requirement(key, Linear, factor, ZeroHours), Some(ThresholdReplacedMessage(key)))
          else if r.functionName == CONSTANT_PER_FILE then
            Dropped(Warning(ConstantPerFileIgnoredMessage(key)))
          else
            Dropped(Error(UnknownFunctionMessage(r.functionName, key)))
  }

  /** The values of a requirement element are numeric: the factor, and the offset when there is one. */
  predicate NumericValues(r: RequirementElement) {
    ParseDecimal(r.factor.text).Some? && (r.offset.Some? ==> ParseDecimal(r.offset.value.text).Some?)
  }

  /** The function names the importer knows about. */
  const KnownFunctions := {LINEAR, LINEAR_WITH_OFFSET, LINEAR_WITH_THRESHOLD, CONSTANT_PER_FILE}

  /** A requirement on a rule the cache does not know is dropped with the warning naming that rule. */
  lemma {:induction false} OutcomeOfUnknownRule(r: RequirementElement, cache: RuleCache)
    requires !RuleExists(cache, RuleKey(r.repository, r.rule))
    ensures OutcomeOf(r, cache) == Dropped(Warning(RuleNotFoundMessage(RuleKey(r.repository, r.rule))))
  {
  }

  /**
   * Which requirement elements are kept, dropped with a warning, or dropped with an error:
   * kept exactly when the rule is known, the values are numeric and the function is one of the
   * linear ones; a warning exactly for an unknown rule or a constant_per_file function; an error
   * exactly for a known rule with a non-numeric value or a function name nobody knows.
   */
  lemma {:induction false} OutcomeOfClassified(r: RequirementElement, cache: RuleCache)
    ensures var known, o := RuleExists(cache, RuleKey(r.repository, r.rule)), OutcomeOf(r, cache);
      && (o.Kept? <==> known && NumericValues(r) && r.functionName in {LINEAR, LINEAR_WITH_OFFSET, LINEAR_WITH_THRESHOLD})
      && (o.Dropped? && o.reason.Warning? <==> !known || (NumericValues(r) && r.functionName == CONSTANT_PER_FILE))
      && (o.Dropped? && o.reason.Error? <==> known && (!NumericValues(r) || r.functionName !in KnownFunctions))
  {
  }

  /**
   * A kept requirement carries the element's rule and factor; the linear functions keep their
   * name and the element's offset (the default one when the element has none);
   * linear_with_threshold becomes linear with a zero offset and is the only one reported.
   */
  lemma {:induction false} OutcomeOfKept(r: RequirementElement, cache: RuleCache)
    requires OutcomeOf(r, cache).Kept?
    ensures var q := OutcomeOf(r, cache).requirement;
      && q.ruleKey == RuleKey(r.repository, r.rule)
      && ParseDecimal(r.factor.text) == Some(q.factor.value) && q.factor.unit == r.factor.unit
      && (OutcomeOf(r, cache).warning.Some? <==> r.functionName == LINEAR_WITH_THRESHOLD)
      && (r.functionName == LINEAR_WITH_THRESHOLD ==> q.remediation == Linear && q.offset == ZeroHours)
      && (r.functionName != LINEAR_WITH_THRESHOLD ==>
            && q.remediation.Name() == r.functionName
            && q.offset == if r.offset.Some? then WorkUnit(ParseDecimal(r.offset.value.text).value, r.offset.value.unit)
                           else DefaultWorkUnit)
  {
  }

  /** A requirement element that imports as written: known rule, numeric values, current function. */
  predicate Clean(r: RequirementElement, cache: RuleCache) {
    RuleExists(cache, RuleKey(r.repository, r.rule)) && NumericValues(r) && r.functionName in {LINEAR, LINEAR_WITH_OFFSET}
  }

  /** The requirements kept from `rs`, in document order: at most one per element. */
  function KeptRequirements(rs: seq<RequirementElement>, cache: RuleCache): (kept: seq<Requirement>)
    ensures |kept| <= |rs|
  {
    if rs == [] then []
    else
      var front := KeptRequirements(rs[..|rs| - 1], cache);
      match OutcomeOf(rs[|rs| - 1], cache)
      case Kept(q, _) => front + [q]
      case Dropped(_) => front
  }

  /** The messages that importing `rs` in document order reports: at most one per element. */
  function RequirementsLog(rs: seq<RequirementElement>, cache: RuleCache): (log: Log)
    ensures |log.warnings| + |log.errors| <= |rs|
  {
    if rs == [] then EmptyLog
    else RequirementsLog(rs[..|rs| - 1], cache).Then(OutcomeLog(OutcomeOf(rs[|rs| - 1], cache)))
  }

  /** The requirements an outcome keeps: none or one. */
  function KeptOf(o: Outcome): seq<Requirement> {
    if o.Kept? then [o.requirement] else []
  }

  /** Importing one more requirement element extends the kept requirements and the messages by its outcome's. */
  lemma RequirementsStep(rs: seq<RequirementElement>, r: nat, cache: RuleCache)
    requires r < |rs|
    ensures KeptRequirements(rs[..r + 1], cache) == KeptRequirements(rs[..r], cache) + KeptOf(OutcomeOf(rs[r], cache))
    ensures RequirementsLog(rs[..r + 1], cache) == RequirementsLog(rs[..r], cache).Then(OutcomeLog(OutcomeOf(rs[r], cache)))
  {
    assert rs[..r + 1][..r] == rs[..r];
  }

  /** Adding the requirements kept from one more element is adding its kept requirement, if any. */
  lemma {:induction false} RequirementsContentStep(a: Arena, id: nat, rs: seq<RequirementElement>, r: nat, cache: RuleCache)
    requires id < |a.nodes| && r < |rs|
    ensures var before := WithRequirements(a, id, KeptRequirements(rs[..r], cache));
      WithRequirements(a, id, KeptRequirements(rs[..r + 1], cache))
      == if OutcomeOf(rs[r], cache).Kept? then WithRequirements(before, id, [OutcomeOf(rs[r], cache).requirement]) else before
  {
    RequirementsStep(rs, r, cache);
    var kept := KeptRequirements(rs[..r], cache);
    WithRequirementsConcat(a, id, kept, KeptOf(OutcomeOf(rs[r], cache)));
    assert kept + [] == kept;
  }

  /** Every requirement the import keeps is bound to a rule the rule cache knows. */
  lemma {:induction false} KeptRequirementsKnown(rs: seq<RequirementElement>, cache: RuleCache)
    ensures forall q :: q in KeptRequirements(rs, cache) ==> RuleExists(cache, q.ruleKey)
  {
    if rs != [] {
      var last := rs[|rs| - 1];
      KeptRequirementsKnown(rs[..|rs| - 1], cache);
      OutcomeOfClassified(last, cache);
      if OutcomeOf(last, cache).Kept? {
        OutcomeOfKept(last, cache);
      }
    }
  }

  /**
   * The import never loses a requirement element silently: each one is kept or reported, so
   * the kept requirements and the messages together are at least as many as the elements; and
   * a kept element never reports an error, so the kept ones and the errors are at most as many.
   */
  lemma {:induction false} RequirementsAccounted(rs: seq<RequirementElement>, cache: RuleCache)
    ensures |rs| <= |KeptRequirements(rs, cache)| + |RequirementsLog(rs, cache).warnings| + |RequirementsLog(rs, cache).errors|
    ensures |KeptRequirements(rs, cache)| + |RequirementsLog(rs, cache).errors| <= |rs|
  {
    if rs != [] {
      RequirementsAccounted(rs[..|rs| - 1], cache);
    }
  }

  /** A clean requirement element is kept and reports nothing. */
  lemma {:induction false} CleanOutcome(r: RequirementElement, cache: RuleCache)
    requires Clean(r, cache)
    ensures OutcomeOf(r, cache).Kept? && OutcomeLog(OutcomeOf(r, cache)) == EmptyLog
  {
    OutcomeOfClassified(r, cache);
    OutcomeOfKept(r, cache);
  }

  /** Requirement elements that are all clean are all kept and report nothing. */
  lemma {:induction false} CleanRequirementsImportSilently(rs: seq<RequirementElement>, cache: RuleCache)
    requires forall i :: 0 <= i < |rs| ==> Clean(rs[i], cache)
    ensures RequirementsLog(rs, cache) == EmptyLog
    ensures |KeptRequirements(rs, cache)| == |rs|
  {
    if rs != [] {
      CleanRequirementsImportSilently(rs[..|rs| - 1], cache);
      CleanOutcome(rs[|rs| - 1], cache);
    }
  }

  lemma ConcatAssociative(a: seq<string>, b: seq<string>, c: seq<string>)
    ensures (a + b) + c == a + (b + c)
  {
  }

  /** The requirement elements of `e` and of every element nested in it. */
  function RequirementElementCount(e: CharacteristicElement): nat
    decreases e
  {
    ListRequirementElementCount(e.children) + |e.requirements|
  }

  function ListRequirementElementCount(es: seq<CharacteristicElement>): nat
    decreases es
  {
    if es == [] then 0 else ListRequirementElementCount(es[..|es| - 1]) + RequirementElementCount(es[|es| - 1])
  }

  /**
   * The messages of a characteristic: those of its sub-characteristics, then its requirements'.
   * Only requirement elements report, at most one message each.
   */
  function CharacteristicLog(e: CharacteristicElement, cache: RuleCache): (log: Log)
    ensures |log.warnings| + |log.errors| <= RequirementElementCount(e)
    decreases e
  {
    ListLog(e.children, cache).Then(RequirementsLog(e.requirements, cache))
  }

  /** The messages of a list of sibling characteristics, in document order. */
  function ListLog(es: seq<CharacteristicElement>, cache: RuleCache): (log: Log)
    ensures |log.warnings| + |log.errors| <= ListRequirementElementCount(es)
    decreases es
  {
    if es == [] then EmptyLog
    else ListLog(es[..|es| - 1], cache).Then(CharacteristicLog(es[|es| - 1], cache))
  }

  /** Every requirement element in `e`, nested ones included, is clean. */
  ghost predicate AllClean(e: CharacteristicElement, cache: RuleCache)
    decreases e
  {
    && (forall i :: 0 <= i < |e.requirements| ==> Clean(e.requirements[i], cache))
    && (forall j :: 0 <= j < |e.children| ==> AllClean(e.children[j], cache))
  }

  /** A characteristic whose requirement elements are all clean, at every depth, reports nothing. */
  lemma {:induction false} CleanCharacteristicSilent(e: CharacteristicElement, cache: RuleCache)
    requires AllClean(e, cache)
    ensures CharacteristicLog(e, cache) == EmptyLog
    decreases e
  {
    CleanListSilent(e.children, cache);
    CleanRequirementsImportSilently(e.requirements, cache);
  }

  /** The list version of `CleanCharacteristicSilent`: a clean document imports without a message. */
  lemma {:induction false} CleanListSilent(es: seq<CharacteristicElement>, cache: RuleCache)
    requires forall j :: 0 <= j < |es| ==> AllClean(es[j], cache)
    ensures ListLog(es, cache) == EmptyLog
    decreases es
  {
    if es != [] {
      CleanListSilent(es[..|es| - 1], cache);
      CleanCharacteristicSilent(es[|es| - 1], cache);
    }
  }

  /** The keys of a characteristic element and of every element nested in it. */
  function Keys(e: CharacteristicElement): set<string>
    decreases e
  {
    {e.key} + ListKeys(e.children)
  }

  function ListKeys(es: seq<CharacteristicElement>): set<string>
    decreases es
  {
    if es == [] then {} else ListKeys(es[..|es| - 1]) + Keys(es[|es| - 1])
  }

  /** The characteristic elements of `e`: itself and every element nested in it. */
  function ElementCount(e: CharacteristicElement): nat
    decreases e
  {
    1 + ListElementCount(e.children)
  }

  function ListElementCount(es: seq<CharacteristicElement>): nat
    decreases es
  {
    if es == [] then 0 else ListElementCount(es[..|es| - 1]) + ElementCount(es[|es| - 1])
  }

  /** No key occurs twice in the element or below it. */
  ghost predicate DistinctKeys(e: CharacteristicElement)
    decreases e
  {
    e.key !in ListKeys(e.children) && DistinctList(e.children)
  }

  /** No key occurs twice among the sibling elements and below them. */
  ghost predicate DistinctList(es: seq<CharacteristicElement>)
    decreases es
  {
    && (forall j :: 0 <= j < |es| ==> DistinctKeys(es[j]))
    && (forall j, k :: 0 <= j < k < |es| ==> Keys(es[j]) !! Keys(es[k]))
  }

  /**
   * Node `i` of the arena is the characteristic built from element `e`: same key and name, the
   * requirements kept from `e`'s requirement elements, and one child per nested element, in
   * order, each built from that element. Children sit after their parent in the arena.
   */
  ghost predicate Represents(nodes: seq<Characteristic>, i: nat, e: CharacteristicElement, cache: RuleCache)
    decreases e
  {
    && i < |nodes|
    && nodes[i].key == e.key
    && nodes[i].name == e.name
    && nodes[i].requirements == KeptRequirements(e.requirements, cache)
    && |nodes[i].children| == |e.children|
    && forall j :: 0 <= j < |e.children| ==>
         i < nodes[i].children[j] && Represents(nodes, nodes[i].children[j], e.children[j], cache)
  }

  /** The index sends the key of `e`, and of every element below it, to the node built from it. */
  ghost predicate Located(nodes: seq<Characteristic>, byKey: map<string, nat>, i: nat, e: CharacteristicElement)
    decreases e
  {
    && i < |nodes|
    && e.key in byKey && byKey[e.key] == i
    && |nodes[i].children| == |e.children|
    && forall j :: 0 <= j < |e.children| ==>
         i < nodes[i].children[j] && Located(nodes, byKey, nodes[i].children[j], e.children[j])
  }

  /** The keys of any one sibling are among the keys of the list. */
  lemma {:induction false} KeysWithinList(es: seq<CharacteristicElement>, j: nat)
    requires j < |es|
    ensures Keys(es[j]) <= ListKeys(es)
    decreases es
  {
    if j < |es| - 1 {
      assert es[..|es| - 1][j] == es[j];
      KeysWithinList(es[..|es| - 1], j);
    }
  }

  /** Every key of a located element is in the index. */
  lemma {:induction false} LocatedKeysIndexed(nodes: seq<Characteristic>, byKey: map<string, nat>, i: nat,
                                              e: CharacteristicElement)
    requires Located(nodes, byKey, i, e)
    ensures Keys(e) <= byKey.Keys
    decreases e
  {
    ListKeysIndexed(nodes, byKey, nodes[i].children, e.children);
  }

  lemma {:induction false} ListKeysIndexed(nodes: seq<Characteristic>, byKey: map<string, nat>, ids: seq<nat>,
                                           es: seq<CharacteristicElement>)
    requires |ids| == |es|
    requires forall j :: 0 <= j < |es| ==> Located(nodes, byKey, ids[j], es[j])
    ensures ListKeys(es) <= byKey.Keys
    decreases es
  {
    if es != [] {
      ListKeysIndexed(nodes, byKey, ids[..|ids| - 1], es[..|es| - 1]);
      LocatedKeysIndexed(nodes, byKey, ids[|ids| - 1], es[|es| - 1]);
    }
  }

  /** `Represents` only looks at the arena from position `i` on. */
  lemma {:induction false} RepresentsFrame(nodes: seq<Characteristic>, nodes': seq<Characteristic>, i: nat,
                                           e: CharacteristicElement, cache: RuleCache)
    requires Represents(nodes, i, e, cache)
    requires |nodes| <= |nodes'|
    requires forall x :: i <= x < |nodes| ==> nodes'[x] == nodes[x]
    ensures Represents(nodes', i, e, cache)
    decreases e
  {
    forall j | 0 <= j < |e.children|
      ensures Represents(nodes', nodes'[i].children[j], e.children[j], cache)
    {
      RepresentsFrame(nodes, nodes', nodes[i].children[j], e.children[j], cache);
    }
  }

  /** `Located` only looks at the arena from position `i` on and at the index entries of `e`'s keys. */
  lemma {:induction false} LocatedFrame(nodes: seq<Characteristic>, byKey: map<string, nat>,
                                        nodes': seq<Characteristic>, byKey': map<string, nat>,
                                        i: nat, e: CharacteristicElement)
    requires Located(nodes, byKey, i, e)
    requires |nodes| <= |nodes'|
    requires forall x :: i <= x < |nodes| ==> nodes'[x] == nodes[x]
    requires forall k :: k in Keys(e) ==> k in byKey && k in byKey' && byKey'[k] == byKey[k]
    ensures Located(nodes', byKey', i, e)
    decreases e
  {
    forall j | 0 <= j < |e.children|
      ensures Located(nodes', byKey', nodes'[i].children[j], e.children[j])
    {
      KeysWithinList(e.children, j);
      LocatedFrame(nodes, byKey, nodes', byKey', nodes[i].children[j], e.children[j]);
    }
  }


  /**
   * The model content after importing element `e` into `a` under `parent` (or as the next
   * root), depth first: the characteristic itself, then its sub-characteristics in document
   * order, then the requirements kept from its requirement elements.
   */
  function ImportedCharacteristic(a: Arena, e: CharacteristicElement, parent: Option<nat>, cache: RuleCache): (r: Arena)
    requires parent.Some? ==> parent.value < |a.nodes|
    ensures |a.nodes| < |r.nodes|
    decreases e
  {
    var id := |a.nodes|;
    var added := WithCharacteristic(a, e.key, e.name, parent);
    var withChildren := ImportedList(added, e.children, Some(id), cache);
    WithRequirements(withChildren, id, KeptRequirements(e.requirements, cache))
  }

  /** The model content after importing the sibling elements `es` in document order. */
  function ImportedList(a: Arena, es: seq<CharacteristicElement>, parent: Option<nat>, cache: RuleCache): (r: Arena)
    requires parent.Some? ==> parent.value < |a.nodes|
    ensures |a.nodes| + |es| <= |r.nodes|
    decreases es
  {
    if es == [] then a
    else ImportedCharacteristic(ImportedList(a, es[..|es| - 1], parent, cache), es[|es| - 1], parent, cache)
  }

  /** The positions in the arena at which the sibling elements `es` are imported. */
  function ListIds(a: Arena, es: seq<CharacteristicElement>, parent: Option<nat>, cache: RuleCache): (ids: seq<nat>)
    requires parent.Some? ==> parent.value < |a.nodes|
    ensures |ids| == |es|
  {
    if es == [] then []
    else ListIds(a, es[..|es| - 1], parent, cache) + [|ImportedList(a, es[..|es| - 1], parent, cache).nodes|]
  }

  /**
   * Importing an element only appends to the arena and to the parent's children (or the
   * roots): every other existing node is untouched and the new node sits at the end of the old
   * arena.
   */
  lemma {:induction false} CharacteristicFrame(a: Arena, e: CharacteristicElement, parent: Option<nat>, cache: RuleCache)
    requires parent.Some? ==> parent.value < |a.nodes|
    ensures var r := ImportedCharacteristic(a, e, parent, cache);
      && r.nodes[|a.nodes|].parent == parent
      && (forall x :: 0 <= x < |a.nodes| && Some(x) != parent ==> r.nodes[x] == a.nodes[x])
      && (parent.Some? ==> r.nodes[parent.value] == a.nodes[parent.value].(children := a.nodes[parent.value].children + [|a.nodes|]))
      && r.roots == (if parent.None? then a.roots + [|a.nodes|] else a.roots)
    decreases e
  {
    var id := |a.nodes|;
    var added := WithCharacteristic(a, e.key, e.name, parent);
    ListFrame(added, e.children, Some(id), cache);
    assert added.nodes[id].parent == parent;
    assert forall x :: 0 <= x < id && Some(x) != parent ==> added.nodes[x] == a.nodes[x];
  }

  /** The list version of `CharacteristicFrame`; the new elements sit at `ListIds`, in order. */
  lemma {:induction false} ListFrame(a: Arena, es: seq<CharacteristicElement>, parent: Option<nat>, cache: RuleCache)
    requires parent.Some? ==> parent.value < |a.nodes|
    ensures var r, ids := ImportedList(a, es, parent, cache), ListIds(a, es, parent, cache);
      && (forall x :: 0 <= x < |a.nodes| && Some(x) != parent ==> r.nodes[x] == a.nodes[x])
      && (parent.Some? ==> r.nodes[parent.value] == a.nodes[parent.value].(children := a.nodes[parent.value].children + ids))
      && r.roots == (if parent.None? then a.roots + ids else a.roots)
    decreases es
  {
    if es == [] {
      if parent.Some? {
        assert a.nodes[parent.value].children + [] == a.nodes[parent.value].children;
      }
      assert a.roots + [] == a.roots;
    } else {
      var front := es[..|es| - 1];
      var before := ImportedList(a, front, parent, cache);
      var frontIds := ListIds(a, front, parent, cache);
      ListFrame(a, front, parent, cache);
      CharacteristicFrame(before, es[|es| - 1], parent, cache);
      if parent.Some? {
        var p := parent.value;
        assert a.nodes[p].children + frontIds + [|before.nodes|] == a.nodes[p].children + (frontIds + [|before.nodes|]);
      } else {
        assert a.roots + frontIds + [|before.nodes|] == a.roots + (frontIds + [|before.nodes|]);
      }
    }
  }

  /** The positions of the imported siblings lie in the new part of the arena, and their nodes name `parent`. */
  lemma {:induction false} ListIdsPlaced(a: Arena, es: seq<CharacteristicElement>, parent: Option<nat>, cache: RuleCache)
    requires parent.Some? ==> parent.value < |a.nodes|
    ensures forall k :: 0 <= k < |es| ==>
              |a.nodes| <= ListIds(a, es, parent, cache)[k] < |ImportedList(a, es, parent, cache).nodes|
              && ImportedList(a, es, parent, cache).nodes[ListIds(a, es, parent, cache)[k]].parent == parent
    decreases es
  {
    if es != [] {
      var front := es[..|es| - 1];
      var before := ImportedList(a, front, parent, cache);
      var r, frontIds := ImportedList(a, es, parent, cache), ListIds(a, front, parent, cache);
      ListIdsPlaced(a, front, parent, cache);
      CharacteristicFrame(before, es[|es| - 1], parent, cache);
      assert ListIds(a, es, parent, cache) == frontIds + [|before.nodes|];
      forall k | 0 <= k < |front| ensures r.nodes[frontIds[k]] == before.nodes[frontIds[k]] {
        assert Some(frontIds[k]) != parent;
      }
    }
  }

  /** Importing an element adds exactly its keys, and those below it, to the index and keeps every other entry. */
  lemma {:induction false} CharacteristicKeysFrame(a: Arena, e: CharacteristicElement, parent: Option<nat>, cache: RuleCache)
    requires parent.Some? ==> parent.value < |a.nodes|
    ensures var r := ImportedCharacteristic(a, e, parent, cache);
      && r.byKey.Keys == a.byKey.Keys + Keys(e)
      && (forall k :: k in a.byKey && k !in Keys(e) ==> r.byKey[k] == a.byKey[k])
    decreases e
  {
    var id := |a.nodes|;
    var added := WithCharacteristic(a, e.key, e.name, parent);
    ListKeysFrame(added, e.children, Some(id), cache);
    assert added.byKey == a.byKey[e.key := id];
  }

  /** The list version of `CharacteristicKeysFrame`. */
  lemma {:induction false} ListKeysFrame(a: Arena, es: seq<CharacteristicElement>, parent: Option<nat>, cache: RuleCache)
    requires parent.Some? ==> parent.value < |a.nodes|
    ensures var r := ImportedList(a, es, parent, cache);
      && r.byKey.Keys == a.byKey.Keys + ListKeys(es)
      && (forall k :: k in a.byKey && k !in ListKeys(es) ==> r.byKey[k] == a.byKey[k])
    decreases es
  {
    if es != [] {
      var front := es[..|es| - 1];
      ListKeysFrame(a, front, parent, cache);
      CharacteristicKeysFrame(ImportedList(a, front, parent, cache), es[|es| - 1], parent, cache);
    }
  }

  /** Importing an element into a well-formed model gives a well-formed model. */
  lemma {:induction false} CharacteristicWellFormed(a: Arena, e: CharacteristicElement, parent: Option<nat>, cache: RuleCache)
    requires WellFormed(a)
    requires parent.Some? ==> parent.value < |a.nodes|
    ensures WellFormed(ImportedCharacteristic(a, e, parent, cache))
    decreases e
  {
    var id := |a.nodes|;
    var added := WithCharacteristic(a, e.key, e.name, parent);
    WithCharacteristicWellFormed(a, e.key, e.name, parent);
    ListWellFormed(added, e.children, Some(id), cache);
    WithRequirementsWellFormed(ImportedList(added, e.children, Some(id), cache), id, KeptRequirements(e.requirements, cache));
  }

  /** The list version of `CharacteristicWellFormed`. */
  lemma {:induction false} ListWellFormed(a: Arena, es: seq<CharacteristicElement>, parent: Option<nat>, cache: RuleCache)
    requires WellFormed(a)
    requires parent.Some? ==> parent.value < |a.nodes|
    ensures WellFormed(ImportedList(a, es, parent, cache))
    decreases es
  {
    if es != [] {
      var front := es[..|es| - 1];
      ListWellFormed(a, front, parent, cache);
      CharacteristicWellFormed(ImportedList(a, front, parent, cache), es[|es| - 1], parent, cache);
    }
  }

  /**
   * The node an element is imported into mirrors it: same key and name, the requirements kept
   * from its requirement elements, and one child per nested element, in order, each mirroring
   * that element.
   */
  lemma {:induction false} CharacteristicRepresents(a: Arena, e: CharacteristicElement, parent: Option<nat>, cache: RuleCache)
    requires parent.Some? ==> parent.value < |a.nodes|
    ensures Represents(ImportedCharacteristic(a, e, parent, cache).nodes, |a.nodes|, e, cache)
    decreases e
  {
    var id := |a.nodes|;
    var added := WithCharacteristic(a, e.key, e.name, parent);
    var withChildren := ImportedList(added, e.children, Some(id), cache);
    var ids := ListIds(added, e.children, Some(id), cache);
    ListFrame(added, e.children, Some(id), cache);
    ListIdsPlaced(added, e.children, Some(id), cache);
    ListRepresents(added, e.children, Some(id), cache);
    assert withChildren.nodes[id] == added.nodes[id].(children := [] + ids);
    RequirementsCompleteRepresents(withChildren, id, e, ids, cache);
  }

  /**
   * A node that already has the key, the name and the children of `e`, each child mirroring its
   * element, mirrors `e` once the requirements kept from `e` are added to it.
   */
  lemma {:induction false} RequirementsCompleteRepresents(a: Arena, id: nat, e: CharacteristicElement, ids: seq<nat>, cache: RuleCache)
    requires id < |a.nodes| && a.nodes[id].key == e.key && a.nodes[id].name == e.name
    requires a.nodes[id].requirements == [] && a.nodes[id].children == ids && |ids| == |e.children|
    requires forall k :: 0 <= k < |e.children| ==> id < ids[k] && Represents(a.nodes, ids[k], e.children[k], cache)
    ensures Represents(WithRequirements(a, id, KeptRequirements(e.requirements, cache)).nodes, id, e, cache)
  {
    var kept := KeptRequirements(e.requirements, cache);
    var r := WithRequirements(a, id, kept);
    ChildrenKeptByRequirements(a, id, kept, ids, e.children, cache);
    assert r.nodes[id] == a.nodes[id].(requirements := [] + kept);
    RepresentsIntro(r.nodes, id, e, ids, cache);
  }

  /** `Represents`, from its parts. */
  lemma {:induction false} RepresentsIntro(nodes: seq<Characteristic>, i: nat, e: CharacteristicElement, ids: seq<nat>, cache: RuleCache)
    requires i < |nodes| && nodes[i].key == e.key && nodes[i].name == e.name
    requires nodes[i].requirements == KeptRequirements(e.requirements, cache)
    requires nodes[i].children == ids && |ids| == |e.children|
    requires forall k :: 0 <= k < |e.children| ==> i < ids[k] && Represents(nodes, ids[k], e.children[k], cache)
    ensures Represents(nodes, i, e, cache)
  {
  }

  /** Adding requirements to node `id` keeps every node after it mirroring its element. */
  lemma {:induction false} ChildrenKeptByRequirements(a: Arena, id: nat, reqs: seq<Requirement>, ids: seq<nat>,
                                                      es: seq<CharacteristicElement>, cache: RuleCache)
    requires id < |a.nodes| && |ids| == |es|
    requires forall k :: 0 <= k < |es| ==> id < ids[k] && Represents(a.nodes, ids[k], es[k], cache)
    ensures forall k :: 0 <= k < |es| ==> Represents(WithRequirements(a, id, reqs).nodes, ids[k], es[k], cache)
  {
    var r := WithRequirements(a, id, reqs);
    forall k | 0 <= k < |es| ensures Represents(r.nodes, ids[k], es[k], cache) {
      RepresentsFrame(a.nodes, r.nodes, ids[k], es[k], cache);
    }
  }

  /** The list version of `CharacteristicRepresents`: sibling k is imported at `ListIds(...)[k]`. */
  lemma {:induction false} ListRepresents(a: Arena, es: seq<CharacteristicElement>, parent: Option<nat>, cache: RuleCache)
    requires parent.Some? ==> parent.value < |a.nodes|
    ensures forall k :: 0 <= k < |es| ==>
              Represents(ImportedList(a, es, parent, cache).nodes, ListIds(a, es, parent, cache)[k], es[k], cache)
    decreases es
  {
    if es != [] {
      var front := es[..|es| - 1];
      var before := ImportedList(a, front, parent, cache);
      var frontIds := ListIds(a, front, parent, cache);
      var r := ImportedList(a, es, parent, cache);
      ListRepresents(a, front, parent, cache);
      ListIdsPlaced(a, front, parent, cache);
      LaterNodesKept(a, before, es[|es| - 1], parent, cache);
      EarlierSiblingsRepresented(before.nodes, r.nodes, |a.nodes|, frontIds, front, cache);
      CharacteristicRepresents(before, es[|es| - 1], parent, cache);
      assert ListIds(a, es, parent, cache) == frontIds + [|before.nodes|];
      forall k | 0 <= k < |es| ensures Represents(r.nodes, ListIds(a, es, parent, cache)[k], es[k], cache) {
        if k < |front| {
          assert front[k] == es[k];
        }
      }
    }
  }

  /** Importing an element under a parent from the old part of the arena leaves the nodes after that part alone. */
  lemma {:induction false} LaterNodesKept(a: Arena, before: Arena, e: CharacteristicElement, parent: Option<nat>, cache: RuleCache)
    requires parent.Some? ==> parent.value < |a.nodes|
    requires |a.nodes| <= |before.nodes|
    ensures forall x :: |a.nodes| <= x < |before.nodes| ==> ImportedCharacteristic(before, e, parent, cache).nodes[x] == before.nodes[x]
  {
    CharacteristicFrame(before, e, parent, cache);
  }

  /** Importing one more sibling keeps the earlier siblings mirrored: their nodes are not touched. */
  lemma {:induction false} EarlierSiblingsRepresented(nodes: seq<Characteristic>, nodes': seq<Characteristic>, low: nat,
                                                      ids: seq<nat>, es: seq<CharacteristicElement>, cache: RuleCache)
    requires |ids| == |es| && |nodes| <= |nodes'|
    requires forall k :: 0 <= k < |es| ==> low <= ids[k] && Represents(nodes, ids[k], es[k], cache)
    requires forall x :: low <= x < |nodes| ==> nodes'[x] == nodes[x]
    ensures forall k :: 0 <= k < |es| ==> Represents(nodes', ids[k], es[k], cache)
  {
    forall k | 0 <= k < |es| ensures Represents(nodes', ids[k], es[k], cache) {
      RepresentsFrame(nodes, nodes', ids[k], es[k], cache);
    }
  }

  /**
   * With distinct keys, the index sends the key of an imported element, and of every element
   * below it, to the node that element was imported into.
   */
  lemma {:induction false} CharacteristicLocated(a: Arena, e: CharacteristicElement, parent: Option<nat>, cache: RuleCache)
    requires parent.Some? ==> parent.value < |a.nodes|
    requires DistinctKeys(e)
    ensures Located(ImportedCharacteristic(a, e, parent, cache).nodes, ImportedCharacteristic(a, e, parent, cache).byKey, |a.nodes|, e)
    decreases e
  {
    var id := |a.nodes|;
    var added := WithCharacteristic(a, e.key, e.name, parent);
    var withChildren := ImportedList(added, e.children, Some(id), cache);
    var ids := ListIds(added, e.children, Some(id), cache);
    var kept := KeptRequirements(e.requirements, cache);
    var r := ImportedCharacteristic(a, e, parent, cache);
    ListFrame(added, e.children, Some(id), cache);
    ListIdsPlaced(added, e.children, Some(id), cache);
    ListKeysFrame(added, e.children, Some(id), cache);
    ListLocated(added, e.children, Some(id), cache);
    assert added.byKey[e.key] == id;
    ChildrenLocatedByRequirements(withChildren, id, kept, ids, e.children);
    assert r == WithRequirements(withChildren, id, kept);
    LocatedIntro(r.nodes, r.byKey, id, e, ids);
  }

  /** The list version of `CharacteristicLocated`. */
  lemma {:induction false} ListLocated(a: Arena, es: seq<CharacteristicElement>, parent: Option<nat>, cache: RuleCache)
    requires parent.Some? ==> parent.value < |a.nodes|
    requires DistinctList(es)
    ensures forall k :: 0 <= k < |es| ==>
              Located(ImportedList(a, es, parent, cache).nodes, ImportedList(a, es, parent, cache).byKey,
                      ListIds(a, es, parent, cache)[k], es[k])
    decreases es
  {
    if es != [] {
      var last := es[|es| - 1];
      var front := es[..|es| - 1];
      var before := ImportedList(a, front, parent, cache);
      var frontIds := ListIds(a, front, parent, cache);
      var r := ImportedList(a, es, parent, cache);
      DistinctListSplit(es);
      ListLocated(a, front, parent, cache);
      ListIdsPlaced(a, front, parent, cache);
      LaterNodesKept(a, before, last, parent, cache);
      CharacteristicKeysFrame(before, last, parent, cache);
      EarlierSiblingsLocated(before, r, |a.nodes|, frontIds, front, last);
      CharacteristicLocated(before, last, parent, cache);
      assert ListIds(a, es, parent, cache) == frontIds + [|before.nodes|];
    }
  }

  /** Keys distinct across siblings are distinct across the earlier ones, and apart from the last one's. */
  lemma {:induction false} DistinctListSplit(es: seq<CharacteristicElement>)
    requires DistinctList(es) && es != []
    ensures DistinctList(es[..|es| - 1]) && DistinctKeys(es[|es| - 1])
    ensures forall k :: 0 <= k < |es| - 1 ==> Keys(es[k]) !! Keys(es[|es| - 1])
  {
    assert forall j :: 0 <= j < |es| - 1 ==> es[..|es| - 1][j] == es[j];
  }

  /**
   * Importing one more sibling `last` keeps the earlier siblings located: their nodes are not
   * touched and their keys, distinct from those of `last`, keep their index entries.
   */
  lemma {:induction false} EarlierSiblingsLocated(before: Arena, r: Arena, low: nat, ids: seq<nat>,
                                                  es: seq<CharacteristicElement>, last: CharacteristicElement)
    requires |ids| == |es| && |before.nodes| <= |r.nodes|
    requires forall k :: 0 <= k < |es| ==> low <= ids[k] && Located(before.nodes, before.byKey, ids[k], es[k])
    requires forall k :: 0 <= k < |es| ==> Keys(es[k]) !! Keys(last)
    requires forall x :: low <= x < |before.nodes| ==> r.nodes[x] == before.nodes[x]
    requires before.byKey.Keys <= r.byKey.Keys
    requires forall k :: k in before.byKey && k !in Keys(last) ==> r.byKey[k] == before.byKey[k]
    ensures forall k :: 0 <= k < |es| ==> Located(r.nodes, r.byKey, ids[k], es[k])
  {
    forall k | 0 <= k < |es| ensures Located(r.nodes, r.byKey, ids[k], es[k]) {
      LocatedKeysIndexed(before.nodes, before.byKey, ids[k], es[k]);
      LocatedFrame(before.nodes, before.byKey, r.nodes, r.byKey, ids[k], es[k]);
    }
  }

  /** Adding requirements to node `id` keeps the index entries below it right. */
  lemma {:induction false} ChildrenLocatedByRequirements(a: Arena, id: nat, reqs: seq<Requirement>, ids: seq<nat>,
                                                         es: seq<CharacteristicElement>)
    requires id < |a.nodes| && |ids| == |es|
    requires forall k :: 0 <= k < |es| ==> id < ids[k] && Located(a.nodes, a.byKey, ids[k], es[k])
    ensures forall k :: 0 <= k < |es| ==> Located(WithRequirements(a, id, reqs).nodes, a.byKey, ids[k], es[k])
  {
    var r := WithRequirements(a, id, reqs);
    forall k | 0 <= k < |es| ensures Located(r.nodes, a.byKey, ids[k], es[k]) {
      LocatedKeysIndexed(a.nodes, a.byKey, ids[k], es[k]);
      LocatedFrame(a.nodes, a.byKey, r.nodes, a.byKey, ids[k], es[k]);
    }
  }

  /** `Located`, from its parts. */
  lemma {:induction false} LocatedIntro(nodes: seq<Characteristic>, byKey: map<string, nat>, i: nat,
                                        e: CharacteristicElement, ids: seq<nat>)
    requires i < |nodes| && e.key in byKey && byKey[e.key] == i
    requires nodes[i].children == ids && |ids| == |e.children|
    requires forall k :: 0 <= k < |e.children| ==> i < ids[k] && Located(nodes, byKey, ids[k], e.children[k])
    ensures Located(nodes, byKey, i, e)
  {
  }

  /** The content of the model imported from `doc`, starting from an empty model. */
  function Imported(doc: Document, cache: RuleCache): (r: Arena)
    ensures |doc.characteristics| <= |r.nodes|
  {
    ImportedList(EmptyArena, doc.characteristics, None, cache)
  }

  /** Importing an element adds one characteristic per element it holds, itself included. */
  lemma {:induction false} CharacteristicNodeCount(a: Arena, e: CharacteristicElement, parent: Option<nat>, cache: RuleCache)
    requires parent.Some? ==> parent.value < |a.nodes|
    ensures |ImportedCharacteristic(a, e, parent, cache).nodes| == |a.nodes| + ElementCount(e)
    decreases e
  {
    var added := WithCharacteristic(a, e.key, e.name, parent);
    ListNodeCount(added, e.children, Some(|a.nodes|), cache);
  }

  /** The list version of `CharacteristicNodeCount`. */
  lemma {:induction false} ListNodeCount(a: Arena, es: seq<CharacteristicElement>, parent: Option<nat>, cache: RuleCache)
    requires parent.Some? ==> parent.value < |a.nodes|
    ensures |ImportedList(a, es, parent, cache).nodes| == |a.nodes| + ListElementCount(es)
    decreases es
  {
    if es != [] {
      ListNodeCount(a, es[..|es| - 1], parent, cache);
      CharacteristicNodeCount(ImportedList(a, es[..|es| - 1], parent, cache), es[|es| - 1], parent, cache);
    }
  }

  /** The imported model holds one characteristic per characteristic element of the document, nested ones included. */
  lemma {:induction false} ImportedNodeCount(doc: Document, cache: RuleCache)
    ensures |Imported(doc, cache).nodes| == ListElementCount(doc.characteristics)
  {
    ListNodeCount(EmptyArena, doc.characteristics, None, cache);
  }

  /** The imported model is well formed: in particular root k carries order k + 1. */
  lemma {:induction false} ImportedWellFormed(doc: Document, cache: RuleCache)
    ensures WellFormed(Imported(doc, cache))
  {
    ListWellFormed(EmptyArena, doc.characteristics, None, cache);
  }

  /** The roots of the imported model are the document's top-level elements, in document order, each mirrored. */
  lemma {:induction false} ImportedRoots(doc: Document, cache: RuleCache)
    ensures |Imported(doc, cache).roots| == |doc.characteristics|
    ensures forall k :: 0 <= k < |doc.characteristics| ==>
              Represents(Imported(doc, cache).nodes, Imported(doc, cache).roots[k], doc.characteristics[k], cache)
  {
    var es := doc.characteristics;
    ListFrame(EmptyArena, es, None, cache);
    ListRepresents(EmptyArena, es, None, cache);
    assert Imported(doc, cache).roots == ListIds(EmptyArena, es, None, cache);
  }

  /** The index of the imported model holds exactly the keys of the document, nested ones included. */
  lemma {:induction false} ImportedKeys(doc: Document, cache: RuleCache)
    ensures Imported(doc, cache).byKey.Keys == ListKeys(doc.characteristics)
  {
    ListKeysFrame(EmptyArena, doc.characteristics, None, cache);
  }

  /** With distinct keys, every key of the document leads to the node imported from its element. */
  lemma {:induction false} ImportedLocated(doc: Document, cache: RuleCache)
    requires DistinctList(doc.characteristics)
    ensures |Imported(doc, cache).roots| == |doc.characteristics|
    ensures forall k :: 0 <= k < |doc.characteristics| ==>
              Located(Imported(doc, cache).nodes, Imported(doc, cache).byKey, Imported(doc, cache).roots[k], doc.characteristics[k])
  {
    var es := doc.characteristics;
    ListFrame(EmptyArena, es, None, cache);
    ListLocated(EmptyArena, es, None, cache);
    assert Imported(doc, cache).roots == ListIds(EmptyArena, es, None, cache);
  }
}
