/** What a generated selector designates. */
module SelectorProofs {
  import opened Wrappers
  import opened Dom
  import opened Selector

  // ---- Compounds match the element they were built from -----------------------------------------

  lemma {:induction false} AttributeMatches(place: Place, names: seq<string>)
    requires place.Valid() && FirstAttribute(place.Element(), names).Some?
    ensures MatchesCompound(place.siblings, place.index, FirstAttribute(place.Element(), names).value)
    decreases |names|
  {
    if names[0] !in place.Element().attributes {
      AttributeMatches(place, names[1..]);
    }
  }

  lemma {:induction false} ClassMatches(place: Place, classes: seq<string>)
    requires place.Valid() && (forall k | 0 <= k < |classes| :: classes[k] in place.Element().classes)
    requires FirstClass(place.Element(), classes).Some?
    ensures MatchesCompound(place.siblings, place.index, FirstClass(place.Element(), classes).value)
    decreases |classes|
  {
    if IsGeneratedValue(classes[0]) {
      ClassMatches(place, classes[1..]);
    } else {
      assert classes[0] in place.Element().classes;
    }
  }

  lemma SelectorMatches(getter: Getter, place: Place, actionNameAttribute: Option<string>)
    requires place.Valid() && GetSelector(getter, place.Element(), actionNameAttribute).Some?
    ensures MatchesCompound(place.siblings, place.index, GetSelector(getter, place.Element(), actionNameAttribute).value)
  {
    match getter
    case StableAttributeSelector =>
      var names := if actionNameAttribute.Some? && actionNameAttribute.value != "" then [actionNameAttribute.value] else [];
      AttributeMatches(place, names + STABLE_ATTRIBUTES);
    case ClassSelector => ClassMatches(place, place.Element().classes);
    case _ =>
  }

  lemma {:induction false} FirstUniqueMatches(
    getters: seq<Getter>, scope: Scope, place: Place, actionNameAttribute: Option<string>, child: Chain
  )
    requires place.Valid() && FirstUnique(getters, scope, place, actionNameAttribute, child).Some?
    ensures var c := FirstUnique(getters, scope, place, actionNameAttribute, child).value;
            MatchesCompound(place.siblings, place.index, c) && IsUnique(scope, place, c, child)
    decreases |getters|
  {
    var selector := GetSelector(getters[0], place.Element(), actionNameAttribute);
    if selector.Some? && IsUnique(scope, place, selector.value, child) {
      SelectorMatches(getters[0], place, actionNameAttribute);
    } else {
      FirstUniqueMatches(getters[1..], scope, place, actionNameAttribute, child);
    }
  }

  lemma {:induction false} TypeCountMonotone(siblings: Forest, i: nat, j: nat, tag: string)
    requires i < j <= |siblings|
    ensures TypeCount(siblings, i, tag) + (if siblings[i].tag == tag then 1 else 0) <= TypeCount(siblings, j, tag)
    decreases j
  {
    if i < j - 1 {
      TypeCountMonotone(siblings, i, j - 1, tag);
    }
  }

  /** No sibling shares the type and the rank among that type. */
  lemma PositionIsUnique(place: Place, child: Chain)
    requires place.Valid()
    ensures MatchesCompound(place.siblings, place.index, PositionSelector(place))
    ensures IsUnique(AmongSiblings, place, PositionSelector(place), child)
  {
    var tag := place.Element().tag;
    forall j | 0 <= j < |place.siblings| && j != place.index
      ensures !MatchesCompound(place.siblings, j, PositionSelector(place))
    {
      if j < place.index {
        TypeCountMonotone(place.siblings, j, place.index, tag);
      } else {
        TypeCountMonotone(place.siblings, place.index, j, tag);
      }
    }
  }

  lemma ChildSelectorIsUnique(place: Place, actionNameAttribute: Option<string>, child: Chain)
    requires place.Valid()
    ensures var c := ChildSelector(place, actionNameAttribute, child);
            MatchesCompound(place.siblings, place.index, c) && IsUnique(AmongSiblings, place, c, child)
  {
    PositionIsUnique(place, child);
    var found := FirstUnique(UNIQUE_AMONG_CHILDREN_SELECTOR_GETTERS, AmongSiblings, place, actionNameAttribute, child);
    if found.Some? {
      FirstUniqueMatches(UNIQUE_AMONG_CHILDREN_SELECTOR_GETTERS, AmongSiblings, place, actionNameAttribute, child);
    }
  }

  /** The compound only matches elements of a type. */
  predicate Tagged(c: Compound, tag: string) {
    !c.ById? && c.tag == tag
  }

  lemma {:induction false} ClassIsTagged(e: Element, classes: seq<string>)
    ensures FirstClass(e, classes).Some? ==> Tagged(FirstClass(e, classes).value, e.tag)
  {
    if classes != [] {
      ClassIsTagged(e, classes[1..]);
    }
  }

  lemma {:induction false} AttributeIsTagged(e: Element, names: seq<string>)
    ensures FirstAttribute(e, names).Some? ==> Tagged(FirstAttribute(e, names).value, e.tag)
    decreases |names|
  {
    if names != [] {
      AttributeIsTagged(e, names[1..]);
    }
  }

  lemma GetterIsTagged(getter: Getter, e: Element, actionNameAttribute: Option<string>)
    requires getter != IDSelector
    ensures
      var c := GetSelector(getter, e, actionNameAttribute);
      c.Some? ==> Tagged(c.value, e.tag)
  {
    match getter
    case StableAttributeSelector =>
      var names := if actionNameAttribute.Some? && actionNameAttribute.value != "" then [actionNameAttribute.value] else [];
      AttributeIsTagged(e, names + STABLE_ATTRIBUTES);
    case ClassSelector => ClassIsTagged(e, e.classes);
    case TagNameSelector =>
  }

  lemma {:induction false} FirstUniqueIsTagged(
    getters: seq<Getter>, scope: Scope, place: Place, actionNameAttribute: Option<string>, child: Chain
  )
    requires place.Valid() && forall k | 0 <= k < |getters| :: getters[k] != IDSelector
    ensures
      var c := FirstUnique(getters, scope, place, actionNameAttribute, child);
      c.Some? ==> Tagged(c.value, place.Element().tag)
    decreases |getters|
  {
    if getters != [] {
      GetterIsTagged(getters[0], place.Element(), actionNameAttribute);
      FirstUniqueIsTagged(getters[1..], scope, place, actionNameAttribute, child);
    }
  }

  /** What is unique among siblings carries the type of the element, whichever getter it comes from. */
  lemma ChildSelectorIsTagged(place: Place, actionNameAttribute: Option<string>, child: Chain)
    requires place.Valid()
    ensures Tagged(ChildSelector(place, actionNameAttribute, child), place.Element().tag)
  {
    FirstUniqueIsTagged(UNIQUE_AMONG_CHILDREN_SELECTOR_GETTERS, AmongSiblings, place, actionNameAttribute, child);
  }

  // ---- Looking at siblings is enough ------------------------------------------------------------

  /** Starting at the children `f` of a node, the chain leads to `target` and nowhere else. */
  ghost predicate LeadsOnlyTo(f: Forest, chain: Chain, target: Path) {
    forall q :: Below(f, chain, q) <==> q == target
  }

  /** The sibling test replaces a query over everything below the parent: once the child selector leads
      only to the target from the element's own children, a selector that no sibling satisfies leads only
      to the target from the parent's children. */
  lemma SiblingTestSuffices(place: Place, selector: Compound, child: Chain, target: Path)
    requires place.Valid()
    requires MatchesCompound(place.siblings, place.index, selector)
    requires IsUnique(AmongSiblings, place, selector, child)
    requires if child == [] then target == [] else LeadsOnlyTo(place.Element().children, child, target)
    ensures LeadsOnlyTo(place.siblings, [selector] + child, [place.index] + target)
  {
    var chain, whole := [selector] + child, [place.index] + target;
    assert chain[1..] == child && whole[1..] == target;
    if child != [] {
      assert Below(place.Element().children, child, target);
    }
    assert Below(place.siblings, chain, whole);
    forall q | Below(place.siblings, chain, q) ensures q == whole {
      if q[0] != place.index {
        if child != [] {
          MatchIsFound(place.siblings[q[0]].children, child, q[1..]);
        }
        assert SiblingMatches(place.siblings, q[0], selector, child);
      } else if child != [] {
        assert Below(place.Element().children, child, q[1..]);
        assert q == [q[0]] + q[1..];
      }
    }
  }

  // ---- The whole walk ---------------------------------------------------------------------------

  /** The walk from `target` upwards ends at its first `b` steps: above a root, or at an HTML element. */
  ghost predicate WalkEndsAt(root: Forest, target: Path, b: nat)
    requires IsPath(root, target)
  {
    && b <= |target|
    && (b > 0 ==> IsPath(root, target[..b]) && At(root, target[..b]).tag == "HTML")
    && (forall k | b < k <= |target| && IsPath(root, target[..k]) :: At(root, target[..k]).tag != "HTML")
  }

  /** The target is the single match when the chain is anchored at the children of the node where the
      walk ended; the chain starts with the type of the target's ancestor there. */
  ghost predicate AnchoredAt(root: Forest, chain: Chain, target: Path, b: nat)
    requires IsPath(root, target)
  {
    && b < |target| && (b == 0 || IsPath(root, target[..b]))
    && WalkEndsAt(root, target, b)
    && LeadsOnlyTo(ChildrenAt(root, target[..b]), chain, target[b..])
    && StartsWithTypeAt(root, chain, target, b)
  }

  ghost predicate StartsWithTypeAt(root: Forest, chain: Chain, target: Path, b: nat) {
    && b < |target| && chain != [] && IsPath(root, target[..b + 1])
    && Tagged(chain[0], At(root, target[..b + 1]).tag)
  }

  /** The target is the single match in the whole root, or at least the single anchored match. */
  ghost predicate Pinpoints(root: Forest, chain: Chain, target: Path)
    requires IsPath(root, target)
  {
    && MatchesAnywhere(root, chain, target)
    && (|| (forall q :: MatchesAnywhere(root, chain, q) ==> q == target)
        || (exists b: nat :: AnchoredAt(root, chain, target, b)))
  }

  lemma SingleMatch(root: Forest, chain: Chain, target: Path)
    requires |QueryAll(root, chain)| == 1 && MatchesAnywhere(root, chain, target)
    ensures forall q :: MatchesAnywhere(root, chain, q) ==> q == target
  {
    QueryAllIff(root, chain, target);
    forall q | MatchesAnywhere(root, chain, q) ensures q == target {
      QueryAllIff(root, chain, q);
    }
  }

  lemma AnchoredIsAnywhere(root: Forest, chain: Chain, target: Path, b: nat)
    requires IsPath(root, target) && b < |target| && (b == 0 || IsPath(root, target[..b]))
    requires Below(ChildrenAt(root, target[..b]), chain, target[b..])
    ensures MatchesAnywhere(root, chain, target)
  { }

  /** The part of the target's path that the walk has not covered yet, and what is known of the rest. */
  ghost predicate Walked(root: Forest, target: Path, k: nat, child: Chain) {
    && IsPath(root, target) && k <= |target| && (k == 0 || IsPath(root, target[..k]))
    && (forall j | k < j <= |target| && IsPath(root, target[..j]) :: At(root, target[..j]).tag != "HTML")
    && (if k == |target| then child == []
        else
          && child != [] && LeadsOnlyTo(ChildrenAt(root, target[..k]), child, target[k..])
          && StartsWithTypeAt(root, child, target, k))
  }

  lemma WalkEndPinpoints(root: Forest, target: Path, k: nat, child: Chain)
    requires Walked(root, target, k, child) && child != []
    requires k == 0 || At(root, target[..k]).tag == "HTML"
    ensures Pinpoints(root, child, target)
  {
    assert AnchoredAt(root, child, target, k);
    assert Below(ChildrenAt(root, target[..k]), child, target[k..]);
    AnchoredIsAnywhere(root, child, target, k);
  }

  lemma WalkStep(root: Forest, target: Path, k: nat, child: Chain, selector: Compound)
    requires Walked(root, target, k, child) && k > 0 && At(root, target[..k]).tag != "HTML"
    requires var place := PlaceOf(root, target[..k]);
             && MatchesCompound(place.siblings, place.index, selector) && IsUnique(AmongSiblings, place, selector, child)
             && Tagged(selector, place.Element().tag)
    ensures Walked(root, target, k - 1, [selector] + child)
  {
    var place := PlaceOf(root, target[..k]);
    StepDown(root, target, k);
    assert target[..k][..k - 1] == target[..k - 1];
    assert target[k - 1..] == [place.index] + target[k..];
    SiblingTestSuffices(place, selector, child, target[k..]);
  }

  lemma {:induction false} WalkPinpoints(root: Forest, target: Path, k: nat, actionNameAttribute: Option<string>, child: Chain)
    requires Walked(root, target, k, child)
    ensures var r := SelectorUpwards(root, target[..k], actionNameAttribute, child);
            if r.Some? then Pinpoints(root, r.value, target) else At(root, target).tag == "HTML"
    decreases k
  {
    var p := target[..k];
    if p == [] || At(root, p).tag == "HTML" {
      if child == [] {
        assert p == target;
      } else {
        WalkEndPinpoints(root, target, k, child);
      }
    } else {
      var place := PlaceOf(root, p);
      var global := FirstUnique(GLOBALLY_UNIQUE_SELECTOR_GETTERS, WithinRoot, place, actionNameAttribute, child);
      if global.Some? {
        GlobalPinpoints(root, target, k, actionNameAttribute, child);
      } else {
        var selector := ChildSelector(place, actionNameAttribute, child);
        ChildSelectorIsUnique(place, actionNameAttribute, child);
        ChildSelectorIsTagged(place, actionNameAttribute, child);
        WalkStep(root, target, k, child, selector);
        assert p[..k - 1] == target[..k - 1];
        WalkPinpoints(root, target, k - 1, actionNameAttribute, [selector] + child);
      }
    }
  }

  lemma GlobalPinpoints(root: Forest, target: Path, k: nat, actionNameAttribute: Option<string>, child: Chain)
    requires Walked(root, target, k, child) && k > 0
    requires FirstUnique(GLOBALLY_UNIQUE_SELECTOR_GETTERS, WithinRoot, PlaceOf(root, target[..k]), actionNameAttribute, child).Some?
    ensures
      var place := PlaceOf(root, target[..k]);
      var c := FirstUnique(GLOBALLY_UNIQUE_SELECTOR_GETTERS, WithinRoot, place, actionNameAttribute, child).value;
      Pinpoints(root, [c] + child, target)
  {
    var place := PlaceOf(root, target[..k]);
    var c := FirstUnique(GLOBALLY_UNIQUE_SELECTOR_GETTERS, WithinRoot, place, actionNameAttribute, child).value;
    FirstUniqueMatches(GLOBALLY_UNIQUE_SELECTOR_GETTERS, WithinRoot, place, actionNameAttribute, child);
    StepDown(root, target, k);
    assert target[..k][..k - 1] == target[..k - 1];
    assert target[k - 1..][1..] == target[k..] && ([c] + child)[1..] == child;
    if child != [] {
      assert Below(place.Element().children, child, target[k..]);
    }
    assert Below(place.siblings, [c] + child, target[k - 1..]);
    AnchoredIsAnywhere(root, [c] + child, target, k - 1);
    SingleMatch(root, [c] + child, target);
  }

  /** For every tree and target, the selector of a subtree pinpoints the target; there is none only for
      an HTML element. */
  lemma SubtreeSelectorPinpoints(root: Forest, target: Path, actionNameAttribute: Option<string>)
    requires IsPath(root, target)
    ensures var r := SelectorUpwards(root, target, actionNameAttribute, []);
            && (r.Some? <==> At(root, target).tag != "HTML")
            && (r.Some? ==> Pinpoints(root, r.value, target))
  {
    assert target[..|target|] == target;
    WalkPinpoints(root, target, |target|, actionNameAttribute, []);
  }

  // ---- Without the anchor -----------------------------------------------------------------------

  /** Where the walk from `p` upwards ends. */
  function WalkEnd(root: Forest, p: Path): nat
    requires p == [] || IsPath(root, p)
    decreases |p|
  {
    if p == [] then 0
    else if At(root, p).tag == "HTML" then |p|
    else
      assert |p| > 1 ==> IsPath(root, p[..|p| - 1]) by { if |p| > 1 { PathPrefix(root, p, |p| - 1); } }
      WalkEnd(root, p[..|p| - 1])
  }

  lemma {:induction false} WalkEndIsUnique(root: Forest, target: Path, b: nat, k: nat)
    requires IsPath(root, target) && WalkEndsAt(root, target, b) && b <= k <= |target|
    requires k == 0 || IsPath(root, target[..k])
    ensures WalkEnd(root, target[..k]) == b
    decreases k
  {
    if k > b {
      if k > 1 {
        PathPrefix(root, target[..k], k - 1);
      }
      assert target[..k][..k - 1] == target[..k - 1];
      WalkEndIsUnique(root, target, b, k - 1);
    }
  }

  /** No element has the type of the target's ancestor below the node where the walk ends, but for the
      children of that node. */
  ghost predicate TopTypeIsConfined(root: Forest, target: Path)
    requires IsPath(root, target)
  {
    var b := WalkEnd(root, target);
    b < |target| && IsPath(root, target[..b + 1]) ==>
      forall p | IsPath(root, p) && At(root, p).tag == At(root, target[..b + 1]).tag ::
        |p| == b + 1 && p[..b] == target[..b]
  }

  lemma MatchStartsTagged(root: Forest, chain: Chain, q: Path, tag: string)
    requires MatchesAnywhere(root, chain, q) && Tagged(chain[0], tag)
    ensures
      var n := |q| - |chain|;
      IsPath(root, q[..n + 1]) && At(root, q[..n + 1]).tag == tag
  {
    var n := |q| - |chain|;
    PathPrefix(root, q, n + 1);
    StepDown(root, q, n + 1);
  }

  /** A query for the text of the selector, without any anchor, finds the target alone if the type of the
      target's topmost ancestor does not occur elsewhere. */
  lemma ConfinedTypeNeedsNoAnchor(root: Forest, target: Path, actionNameAttribute: Option<string>, chain: Chain, q: Path)
    requires IsPath(root, target) && TopTypeIsConfined(root, target)
    requires SelectorUpwards(root, target, actionNameAttribute, []) == Some(chain)
    ensures MatchesAnywhere(root, chain, q) <==> q == target
  {
    SubtreeSelectorPinpoints(root, target, actionNameAttribute);
    PinpointedWithoutAnchor(root, target, chain, q);
  }

  lemma PinpointedWithoutAnchor(root: Forest, target: Path, chain: Chain, q: Path)
    requires IsPath(root, target) && TopTypeIsConfined(root, target) && Pinpoints(root, chain, target)
    ensures MatchesAnywhere(root, chain, q) <==> q == target
  {
    if MatchesAnywhere(root, chain, q) && exists b: nat :: AnchoredAt(root, chain, target, b) {
      var b: nat :| AnchoredAt(root, chain, target, b);
      WalkEndsHere(root, target, b);
      ConfinedMatchStart(root, target, chain, b, q);
      MatchAtAnchor(root, target, chain, b, q);
    }
  }

  lemma WalkEndsHere(root: Forest, target: Path, b: nat)
    requires IsPath(root, target) && WalkEndsAt(root, target, b)
    ensures WalkEnd(root, target) == b
  {
    assert target[..|target|] == target;
    WalkEndIsUnique(root, target, b, |target|);
  }

  /** A match of the chain starts where the walk ended. */
  lemma ConfinedMatchStart(root: Forest, target: Path, chain: Chain, b: nat, q: Path)
    requires IsPath(root, target) && TopTypeIsConfined(root, target) && WalkEnd(root, target) == b
    requires StartsWithTypeAt(root, chain, target, b) && MatchesAnywhere(root, chain, q)
    ensures |q| - |chain| == b && q[..b] == target[..b]
  {
    var n := |q| - |chain|;
    MatchStartsTagged(root, chain, q, At(root, target[..b + 1]).tag);
    ConfinedPlace(root, target, b, q[..n + 1]);
    assert q[..n + 1][..n] == q[..n];
  }

  lemma ConfinedPlace(root: Forest, target: Path, b: nat, p: Path)
    requires IsPath(root, target) && TopTypeIsConfined(root, target)
    requires WalkEnd(root, target) == b < |target| && IsPath(root, target[..b + 1])
    requires IsPath(root, p) && At(root, p).tag == At(root, target[..b + 1]).tag
    ensures |p| == b + 1 && p[..b] == target[..b]
  {}

  lemma MatchAtAnchor(root: Forest, target: Path, chain: Chain, b: nat, q: Path)
    requires IsPath(root, target) && b < |target| && (b == 0 || IsPath(root, target[..b]))
    requires LeadsOnlyTo(ChildrenAt(root, target[..b]), chain, target[b..])
    requires MatchesAnywhere(root, chain, q) && |q| - |chain| == b && q[..b] == target[..b]
    ensures q == target
  {
    assert Below(ChildrenAt(root, target[..b]), chain, q[b..]);
    assert q == q[..b] + q[b..] && target == target[..b] + target[b..];
  }

  /** An ordinary document: HTML holds HEAD and BODY elements, and there are none of these types elsewhere. */
  ghost predicate Ordinary(document: Forest) {
    && |document| == 1 && document[0].tag == "HTML"
    && (forall p | IsPath(document, p) && |p| == 2 :: At(document, p).tag in {"HEAD", "BODY"})
    && (forall p | IsPath(document, p) && |p| > 2 :: At(document, p).tag !in {"HTML", "HEAD", "BODY"})
  }

  /** There, every selector can be queried as it is. */
  lemma OrdinaryDocumentsNeedNoAnchor(
    document: Forest, target: Path, actionNameAttribute: Option<string>, chain: Chain, q: Path
  )
    requires Ordinary(document) && IsPath(document, target) && |target| > 1
    requires SelectorUpwards(document, target, actionNameAttribute, []) == Some(chain)
    ensures MatchesAnywhere(document, chain, q) <==> q == target
  {
    PathPrefix(document, target, 1);
    PathPrefix(document, target, 2);
    OrdinaryWalkEnds(document, target);
    assert target[..2][..1] == target[..1];
    forall p | IsPath(document, p) && At(document, p).tag == At(document, target[..2]).tag
      ensures |p| == 2 && p[..1] == target[..1]
    {
      assert p[0] == 0 == target[0];
    }
    ConfinedTypeNeedsNoAnchor(document, target, actionNameAttribute, chain, q);
  }

  lemma {:induction false} OrdinaryWalkEnds(document: Forest, p: Path)
    requires Ordinary(document) && IsPath(document, p)
    ensures WalkEnd(document, p) == 1
    decreases |p|
  {
    if |p| > 1 {
      PathPrefix(document, p, |p| - 1);
      OrdinaryWalkEnds(document, p[..|p| - 1]);
    }
  }
}
