/** Selector generation: the selector built for an element, as a function of the tree, and the loops that
    compute it. What the selector designates is proved in `SelectorProofs`. */
module Selector {
  import opened Wrappers
  import opened Dom

  const STABLE_ATTRIBUTES: seq<string> := [
    "data-dd-action-name",
    "data-testid", "data-test", "data-qa", "data-cy", "data-test-id", "data-qa-id", "data-testing",
    "data-component", "data-element", "data-source-file"
  ]

  datatype Getter = StableAttributeSelector | IDSelector | ClassSelector | TagNameSelector

  const GLOBALLY_UNIQUE_SELECTOR_GETTERS := [StableAttributeSelector, IDSelector]

  const UNIQUE_AMONG_CHILDREN_SELECTOR_GETTERS := [StableAttributeSelector, ClassSelector, TagNameSelector]

  /** The two uniqueness tests that `findSelector` is given. */
  datatype Scope = WithinRoot | AmongSiblings

  predicate IsGeneratedValue(value: string) {
    exists k | 0 <= k < |value| :: '0' <= value[k] <= '9'
  }

  function FirstAttribute(e: Element, names: seq<string>): Option<Compound> {
    if names == [] then None
    else if names[0] in e.attributes then Some(ByAttribute(e.tag, names[0], e.attributes[names[0]]))
    else FirstAttribute(e, names[1..])
  }

  function FirstClass(e: Element, classes: seq<string>): Option<Compound> {
    if classes == [] then None
    else if IsGeneratedValue(classes[0]) then FirstClass(e, classes[1..])
    else Some(ByClass(e.tag, classes[0]))
  }

  function GetSelector(getter: Getter, e: Element, actionNameAttribute: Option<string>): Option<Compound> {
    match getter
    case StableAttributeSelector =>
      var names := if actionNameAttribute.Some? && actionNameAttribute.value != "" then [actionNameAttribute.value] else [];
      FirstAttribute(e, names + STABLE_ATTRIBUTES)
    case IDSelector => if e.id != "" && !IsGeneratedValue(e.id) then Some(ById(e.id)) else None
    case ClassSelector => if e.tag == "BODY" then None else FirstClass(e, e.classes)
    case TagNameSelector => Some(ByTag(e.tag))
  }

  /** An element together with the place it has among its siblings in a root. */
  datatype Place = Place(root: Forest, siblings: Forest, index: nat) {
    predicate Valid() { index < |siblings| }

    function Element(): Element
      requires Valid()
    {
      siblings[index]
    }
  }

  /** Whether a sibling, or something below it along `child`, matches as the current element does. */
  predicate SiblingMatches(siblings: Forest, j: nat, selector: Compound, child: Chain)
    requires j < |siblings|
  {
    MatchesCompound(siblings, j, selector) && (child != [] ==> HasMatchBelow(siblings[j].children, child))
  }

  predicate IsUnique(scope: Scope, place: Place, selector: Compound, child: Chain)
    requires place.Valid()
  {
    match scope
    case WithinRoot => |QueryAll(place.root, [selector] + child)| == 1
    case AmongSiblings =>
      forall j | 0 <= j < |place.siblings| && j != place.index :: !SiblingMatches(place.siblings, j, selector, child)
  }

  function FirstUnique(
    getters: seq<Getter>, scope: Scope, place: Place, actionNameAttribute: Option<string>, child: Chain
  ): Option<Compound>
    requires place.Valid()
  {
    if getters == [] then None
    else
      var selector := GetSelector(getters[0], place.Element(), actionNameAttribute);
      if selector.Some? && IsUnique(scope, place, selector.value, child) then selector
      else FirstUnique(getters[1..], scope, place, actionNameAttribute, child)
  }

  function PositionSelector(place: Place): Compound
    requires place.Valid()
  {
    ByPosition(place.Element().tag, TypeCount(place.siblings, place.index, place.Element().tag) + 1)
  }

  function ChildSelector(place: Place, actionNameAttribute: Option<string>, child: Chain): Compound
    requires place.Valid()
  {
    var found := FirstUnique(UNIQUE_AMONG_CHILDREN_SELECTOR_GETTERS, AmongSiblings, place, actionNameAttribute, child);
    if found.Some? then found.value else PositionSelector(place)
  }

  function PlaceOf(root: Forest, p: Path): (place: Place)
    requires IsPath(root, p)
    ensures place.Valid() && place.Element() == At(root, p)
  {
    StepDown(root, p, |p|);
    assert p[..|p|] == p;
    Place(root, ChildrenAt(root, p[..|p| - 1]), p[|p| - 1])
  }

  /** The selector for an element, given the selector `child` of what was already covered below it. The
      walk stops above the document's root, or at an HTML element. */
  function SelectorUpwards(root: Forest, p: Path, actionNameAttribute: Option<string>, child: Chain): Option<Chain>
    requires p == [] || IsPath(root, p)
    decreases |p|
  {
    if p == [] || At(root, p).tag == "HTML" then
      if child == [] then None else Some(child)
    else
      var place := PlaceOf(root, p);
      var global := FirstUnique(GLOBALLY_UNIQUE_SELECTOR_GETTERS, WithinRoot, place, actionNameAttribute, child);
      if global.Some? then Some([global.value] + child)
      else
        assert |p| > 1 ==> IsPath(root, p[..|p| - 1]) by { if |p| > 1 { PathPrefix(root, p, |p| - 1); } }
        SelectorUpwards(root, p[..|p| - 1], actionNameAttribute, [ChildSelector(place, actionNameAttribute, child)] + child)
  }

  // ---- The loops ------------------------------------------------------------------------------

  method GetNthOfTypeSelector(siblings: Forest, index: nat) returns (nthOfType: nat)
    requires index < |siblings|
    ensures nthOfType == TypeCount(siblings, index, siblings[index].tag) + 1
  {
    nthOfType := 1;
    var sibling := 0;
    while sibling < |siblings| && sibling != index
      invariant 0 <= sibling <= index
      invariant nthOfType == TypeCount(siblings, sibling, siblings[index].tag) + 1
    {
      if siblings[sibling].tag == siblings[index].tag {
        nthOfType := nthOfType + 1;
      }
      sibling := sibling + 1;
    }
  }

  method IsSelectorUniqueAmongSiblings(place: Place, selector: Compound, child: Chain) returns (unique: bool)
    requires place.Valid()
    ensures unique == IsUnique(AmongSiblings, place, selector, child)
  {
    var siblings := place.siblings;
    var sibling: int := place.index - 1;
    while sibling >= 0
      invariant -1 <= sibling < place.index
      invariant forall j | sibling < j < place.index :: !SiblingMatches(siblings, j, selector, child)
    {
      if SiblingMatches(siblings, sibling, selector, child) {
        return false;
      }
      sibling := sibling - 1;
    }
    sibling := place.index + 1;
    while sibling < |siblings|
      invariant place.index < sibling <= |siblings|
      invariant forall j | 0 <= j < sibling && j != place.index :: !SiblingMatches(siblings, j, selector, child)
    {
      if SiblingMatches(siblings, sibling, selector, child) {
        return false;
      }
      sibling := sibling + 1;
    }
    unique := true;
  }

  method FindSelector(
    place: Place, getters: seq<Getter>, scope: Scope, actionNameAttribute: Option<string>, child: Chain
  ) returns (found: Option<Compound>)
    requires place.Valid()
    ensures found == FirstUnique(getters, scope, place, actionNameAttribute, child)
  {
    for k := 0 to |getters|
      invariant FirstUnique(getters, scope, place, actionNameAttribute, child)
             == FirstUnique(getters[k..], scope, place, actionNameAttribute, child)
    {
      assert getters[k..][1..] == getters[k + 1..];
      var selector := GetSelector(getters[k], place.Element(), actionNameAttribute);
      if selector.None? {
        continue;
      }
      var unique;
      match scope {
        case WithinRoot => unique := |QueryAll(place.root, [selector.value] + child)| == 1;
        case AmongSiblings => unique := IsSelectorUniqueAmongSiblings(place, selector.value, child);
      }
      if unique {
        return selector;
      }
    }
    found := None;
  }

  method GetSelectorFromElementWithinSubtree(root: Forest, target: Path, actionNameAttribute: Option<string>)
    returns (selector: Option<Chain>)
    requires IsPath(root, target)
    ensures selector == SelectorUpwards(root, target, actionNameAttribute, [])
  {
    var current: Chain := [];
    var element := target;
    while element != [] && At(root, element).tag != "HTML"
      invariant element == [] || IsPath(root, element)
      invariant SelectorUpwards(root, element, actionNameAttribute, current)
             == SelectorUpwards(root, target, actionNameAttribute, [])
      decreases |element|
    {
      var place := PlaceOf(root, element);
      var global := FindSelector(place, GLOBALLY_UNIQUE_SELECTOR_GETTERS, WithinRoot, actionNameAttribute, current);
      if global.Some? {
        return Some([global.value] + current);
      }
      var amongChildren :=
        FindSelector(place, UNIQUE_AMONG_CHILDREN_SELECTOR_GETTERS, AmongSiblings, actionNameAttribute, current);
      var elementSelector;
      if amongChildren.Some? {
        elementSelector := amongChildren.value;
      } else {
        var nthOfType := GetNthOfTypeSelector(place.siblings, place.index);
        elementSelector := ByPosition(place.Element().tag, nthOfType);
      }
      current := [elementSelector] + current;
      if |element| > 1 {
        PathPrefix(root, element, |element| - 1);
      }
      element := element[..|element| - 1];
    }
    selector := if current == [] then None else Some(current);
  }
}
