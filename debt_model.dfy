/**
 * The technical-debt model that the XML importer builds: characteristics in a tree, each with
 * its ordered sub-characteristics and requirements, the ordered root characteristics and a
 * key index; and the caller-owned message list the importer reports into.
 *
 * The tree lives in one arena, `nodes`: a characteristic names its children and its parent by
 * their position in the arena, so the parent back-link is a plain index and the tree needs no
 * ownership cycle.
 */
module DebtModel {
  import opened Wrappers
  import opened WorkUnits

  /** A rule, named by its repository and its key in that repository. */
  datatype RuleKey = RuleKey(repository: string, rule: string)

  /** The rules the importer knows about, as its rule cache answers for them. */
  type RuleCache = set<RuleKey>

  /** The rule cache lookup: does the catalog hold this rule? */
  predicate RuleExists(cache: RuleCache, key: RuleKey) {
    key in cache
  }

  /** The remediation functions a requirement may carry once imported. */
  datatype RemediationFunction = Linear | LinearWithOffset {
    /** The function's name, as `Requirement.function()` reports it. */
    function Name(): (name: string)
      ensures name == "linear" <==> this == Linear
    {
      match this
      case Linear => "linear"
      case LinearWithOffset => "linear_with_offset"
    }
  }

  /** A remediation requirement bound to one rule. */
  datatype Requirement = Requirement(ruleKey: RuleKey, remediation: RemediationFunction, factor: WorkUnit, offset: WorkUnit)

  /**
   * One characteristic. `order` is 1, 2, ... for root characteristics and absent below them;
   * `parent` and `children` are positions in the model's arena.
   */
  datatype Characteristic = Characteristic(
    key: string,
    name: string,
    order: Option<nat>,
    parent: Option<nat>,
    children: seq<nat>,
    requirements: seq<Requirement>)

  /** The content of a model: the arena of characteristics, the root positions and the key index. */
  datatype Arena = Arena(nodes: seq<Characteristic>, roots: seq<nat>, byKey: map<string, nat>)

  /** The content of a freshly created model. */
  const EmptyArena := Arena([], [], map[])

  /** Node `i` and its links agree with its children, its parent and the root list. */
  ghost predicate NodeLinked(nodes: seq<Characteristic>, roots: seq<nat>, i: nat)
    requires i < |nodes|
  {
    && (forall j :: 0 <= j < |nodes[i].children| ==>
          i < nodes[i].children[j] < |nodes| && nodes[nodes[i].children[j]].parent == Some(i))
    && match nodes[i].parent
       case None =>
         nodes[i].order.Some? && 1 <= nodes[i].order.value <= |roots| && roots[nodes[i].order.value - 1] == i
       case Some(p) =>
         p < i && nodes[i].order.None? && i in nodes[p].children
  }

  /**
   * The model's invariant: root k (counting from 0) is a parentless node whose order is k + 1;
   * every parentless node is a root; children point back to their parent and parents list their
   * children; the index maps each key to a node carrying that key and covers every node's key.
   */
  ghost predicate WellFormed(a: Arena) {
    && (forall k :: 0 <= k < |a.roots| ==>
          a.roots[k] < |a.nodes| && a.nodes[a.roots[k]].parent.None? && a.nodes[a.roots[k]].order == Some(k + 1))
    && (forall i :: 0 <= i < |a.nodes| ==> NodeLinked(a.nodes, a.roots, i))
    && (forall key :: key in a.byKey ==> a.byKey[key] < |a.nodes| && a.nodes[a.byKey[key]].key == key)
    && (forall i :: 0 <= i < |a.nodes| ==> a.nodes[i].key in a.byKey)
  }

  /**
   * `addCharacteristic` on the content: a new characteristic with no children and no
   * requirements at the end of the arena; under a parent it is the parent's last child, without
   * one it is the next root and takes the next order; its key now indexes it.
   */
  function WithCharacteristic(a: Arena, key: string, name: string, parent: Option<nat>): (r: Arena)
    requires parent.Some? ==> parent.value < |a.nodes|
    ensures |r.nodes| == |a.nodes| + 1
  {
    var id := |a.nodes|;
    var node := Characteristic(key, name, if parent.None? then Some(|a.roots| + 1) else None, parent, [], []);
    match parent
    case None => Arena(a.nodes + [node], a.roots + [id], a.byKey[key := id])
    case Some(p) => Arena(a.nodes[p := a.nodes[p].(children := a.nodes[p].children + [id])] + [node], a.roots, a.byKey[key := id])
  }

  /** `addRequirement` on the content: `reqs` appended to the requirements of characteristic `id`. */
  function WithRequirements(a: Arena, id: nat, reqs: seq<Requirement>): (r: Arena)
    requires id < |a.nodes|
    ensures |r.nodes| == |a.nodes|
  {
    a.(nodes := a.nodes[id := a.nodes[id].(requirements := a.nodes[id].requirements + reqs)])
  }

  /** Adding requirements in two batches is adding them all at once; adding none changes nothing. */
  lemma {:induction false} WithRequirementsConcat(a: Arena, id: nat, first: seq<Requirement>, second: seq<Requirement>)
    requires id < |a.nodes|
    ensures WithRequirements(WithRequirements(a, id, first), id, second) == WithRequirements(a, id, first + second)
    ensures WithRequirements(a, id, []) == a
  {
    var reqs := a.nodes[id].requirements;
    assert (reqs + first) + second == reqs + (first + second);
    assert reqs + [] == reqs;
  }

  /**
   * Appending a fresh leaf (as the next root, or as the last child of `parent`) keeps every
   * node linked.
   */
  lemma {:induction false} AppendedNodeLinked(nodes: seq<Characteristic>, roots: seq<nat>,
                                              nodes': seq<Characteristic>, roots': seq<nat>, parent: Option<nat>)
    requires forall i :: 0 <= i < |nodes| ==> NodeLinked(nodes, roots, i)
    requires parent.Some? ==> parent.value < |nodes|
    requires |nodes'| == |nodes| + 1
    requires nodes'[|nodes|].parent == parent && nodes'[|nodes|].children == []
    requires nodes'[|nodes|].order == if parent.None? then Some(|roots| + 1) else None
    requires roots' == if parent.None? then roots + [|nodes|] else roots
    requires forall i :: 0 <= i < |nodes| && Some(i) != parent ==> nodes'[i] == nodes[i]
    requires parent.Some? ==> nodes'[parent.value] == nodes[parent.value].(children := nodes[parent.value].children + [|nodes|])
    ensures forall i :: 0 <= i < |nodes'| ==> NodeLinked(nodes', roots', i)
  {
    var id := |nodes|;
    assert forall c :: 0 <= c < id ==> nodes'[c].parent == nodes[c].parent;
    forall i | 0 <= i < |nodes'| ensures NodeLinked(nodes', roots', i) {
      if i < id {
        assert NodeLinked(nodes, roots, i);
        match nodes[i].parent {
          case None =>
          case Some(q) =>
            assert i in nodes[q].children;
            assert i in nodes'[q].children;
        }
      }
    }
  }

  /** Adding a characteristic keeps the model well formed. */
  lemma {:induction false} WithCharacteristicWellFormed(a: Arena, key: string, name: string, parent: Option<nat>)
    requires WellFormed(a)
    requires parent.Some? ==> parent.value < |a.nodes|
    ensures WellFormed(WithCharacteristic(a, key, name, parent))
  {
    var r := WithCharacteristic(a, key, name, parent);
    var id := |a.nodes|;
    assert |r.nodes| == id + 1 && r.nodes[id].key == key && r.byKey == a.byKey[key := id];
    assert forall c :: 0 <= c < id ==> r.nodes[c].key == a.nodes[c].key && r.nodes[c].parent == a.nodes[c].parent
                                        && r.nodes[c].order == a.nodes[c].order;
    AppendedNodeLinked(a.nodes, a.roots, r.nodes, r.roots, parent);
    forall k | 0 <= k < |r.roots|
      ensures r.roots[k] < |r.nodes| && r.nodes[r.roots[k]].parent.None? && r.nodes[r.roots[k]].order == Some(k + 1)
    {
      if k < |a.roots| {
        assert r.roots[k] == a.roots[k];
      }
    }
    forall k | k in r.byKey ensures r.byKey[k] < |r.nodes| && r.nodes[r.byKey[k]].key == k {
      if k != key {
        assert r.byKey[k] == a.byKey[k];
      }
    }
    forall i | 0 <= i < |r.nodes| ensures r.nodes[i].key in r.byKey {
      if i < id {
        assert a.nodes[i].key in a.byKey;
      }
    }
  }

  /** Adding requirements keeps the model well formed: requirements take no part in the links. */
  lemma {:induction false} WithRequirementsWellFormed(a: Arena, id: nat, reqs: seq<Requirement>)
    requires WellFormed(a)
    requires id < |a.nodes|
    ensures WellFormed(WithRequirements(a, id, reqs))
  {
    var r := WithRequirements(a, id, reqs);
    forall i | 0 <= i < |r.nodes| ensures NodeLinked(r.nodes, r.roots, i) {
      assert NodeLinked(a.nodes, a.roots, i);
    }
  }

  /** `TechnicalDebtModel`: the importer's result, filled in place while the document is walked. */
  class TechnicalDebtModel {
    var nodes: seq<Characteristic>
    var roots: seq<nat>
    var byKey: map<string, nat>

    /** The model's current content, as a value. */
    function Content(): Arena
      reads this
    {
      Arena(nodes, roots, byKey)
    }

    ghost predicate Valid()
      reads this
    {
      WellFormed(Content())
    }

    constructor ()
      ensures Valid()
      ensures Content() == EmptyArena
    {
      nodes, roots, byKey := [], [], map[];
    }

    /** `rootCharacteristics()`: the root characteristics, in the order they were added. */
    function RootCharacteristics(): (rs: seq<Characteristic>)
      reads this
      requires Valid()
      ensures |rs| == |roots|
      ensures forall k :: 0 <= k < |rs| ==> roots[k] < |nodes| && rs[k] == nodes[roots[k]]
      ensures forall k :: 0 <= k < |rs| ==> rs[k].parent.None? && rs[k].order == Some(k + 1)
    {
      seq(|roots|, k requires 0 <= k < |roots| && roots[k] < |nodes| reads this => nodes[roots[k]])
    }

    /** `characteristicByKey(key)`: the position of the characteristic indexed under `key`, if any. */
    function CharacteristicByKey(key: string): (r: Option<nat>)
      reads this
      requires Valid()
      ensures r.Some? <==> key in byKey
      ensures r.Some? ==> r.value < |nodes| && nodes[r.value].key == key
    {
      if key in byKey then Some(byKey[key]) else None
    }

    /**
     * Adds a characteristic with no children and no requirements, as the last child of
     * `parent` or, without one, as the next root; the index entry for its key now names it.
     */
    method AddCharacteristic(key: string, name: string, parent: Option<nat>) returns (id: nat)
      requires parent.Some? ==> parent.value < |nodes|
      modifies this
      ensures id == |old(nodes)|
      ensures Content() == WithCharacteristic(old(Content()), key, name, parent)
    {
      id := |nodes|;
      var order := if parent.None? then Some(|roots| + 1) else None;
      var node := Characteristic(key, name, order, parent, [], []);
      match parent {
        case None =>
          nodes := nodes + [node];
          roots := roots + [id];
        case Some(p) =>
          nodes := nodes[p := nodes[p].(children := nodes[p].children + [id])] + [node];
      }
      byKey := byKey[key := id];
    }

    /** Appends `requirement` to the requirements of characteristic `id`; nothing else changes. */
    method AddRequirement(id: nat, requirement: Requirement)
      requires id < |nodes|
      modifies this
      ensures Content() == WithRequirements(old(Content()), id, [requirement])
    {
      nodes := nodes[id := nodes[id].(requirements := nodes[id].requirements + [requirement])];
    }
  }

  /** `ValidationMessages`: warnings and errors, appended in the order they are reported. */
  class ValidationMessages {
    var warnings: seq<string>
    var errors: seq<string>

    /** `ValidationMessages.create()`. */
    constructor Create()
      ensures warnings == [] && errors == []
    {
      warnings, errors := [], [];
    }

    method AddWarningText(text: string)
      modifies this
      ensures warnings == old(warnings) + [text] && errors == old(errors)
    {
      warnings := warnings + [text];
    }

    method AddErrorText(text: string)
      modifies this
      ensures errors == old(errors) + [text] && warnings == old(warnings)
    {
      errors := errors + [text];
    }

    /** `hasErrors()`. */
    function HasErrors(): (b: bool)
      reads this
      ensures b <==> |errors| > 0
    {
      errors != []
    }
  }
}
