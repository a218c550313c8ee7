/** Selectors across shadow roots: one selector per root on the way to the element, joined by a marker. */
module ShadowSelector {
  import opened Wrappers
  import opened Dom
  import opened Selector
  import opened SelectorProofs

  /** The place of a connected element: a path to a host in the document, a path in its shadow root, and
      so on down to the element. */
  type Location = seq<Path>

  predicate IsLocation(document: Forest, location: Location)
    decreases |location|
  {
    && |location| > 0
    && IsPath(document, location[0])
    && (|location| > 1 ==>
          At(document, location[0]).shadow.Some? && IsLocation(At(document, location[0]).shadow.value, location[1..]))
  }

  /** The root in which the `i`-th path of the location is. */
  function RootAt(document: Forest, location: Location, i: nat): (root: Forest)
    requires IsLocation(document, location) && i < |location|
    ensures IsPath(root, location[i])
    decreases i
  {
    if i == 0 then document else RootAt(At(document, location[0]).shadow.value, location[1..], i - 1)
  }

  datatype SubtreeTarget = SubtreeTarget(rootNode: Forest, target: Path)

  /** All (root, target) pairs from the document down to the element. */
  function Subtrees(document: Forest, location: Location): seq<SubtreeTarget>
    requires IsLocation(document, location)
  {
    seq(|location|, i requires 0 <= i < |location| => SubtreeTarget(RootAt(document, location, i), location[i]))
  }

  /** The pairs are collected from the element upwards, then reversed. */
  method GetAllSubtreeTargets(document: Forest, location: Location) returns (result: seq<SubtreeTarget>)
    requires IsLocation(document, location)
    ensures result == Subtrees(document, location)
  {
    ghost var subtrees := Subtrees(document, location);
    var upwards: seq<SubtreeTarget> := [];
    var currentTarget: int := |location| - 1;
    while currentTarget >= 0
      invariant -1 <= currentTarget < |location| && |upwards| == |location| - 1 - currentTarget
      invariant forall i | 0 <= i < |upwards| :: upwards[i] == subtrees[|location| - 1 - i]
    {
      upwards := upwards + [SubtreeTarget(RootAt(document, location, currentTarget), location[currentTarget])];
      currentTarget := currentTarget - 1;
    }
    result := seq(|upwards|, i requires 0 <= i < |upwards| => upwards[|upwards| - 1 - i]);
  }

  /** A selector for a target within one root. */
  type Within = (Forest, Path) -> Option<Chain>

  function WithinSubtree(actionNameAttribute: Option<string>): Within {
    (root, target) => if IsPath(root, target) then SelectorUpwards(root, target, actionNameAttribute, []) else None
  }

  function Followed(parts: seq<Chain>, rest: Option<seq<Chain>>): Option<seq<Chain>> {
    if rest.None? then None else Some(parts + rest.value)
  }

  function SelectorsOf(subtrees: seq<SubtreeTarget>, within: Within): Option<seq<Chain>> {
    if subtrees == [] then Some([])
    else
      var selector := within(subtrees[0].rootNode, subtrees[0].target);
      if selector.None? then None else Followed([selector.value], SelectorsOf(subtrees[1..], within))
  }

  lemma CollectStep(subtrees: seq<SubtreeTarget>, within: Within, parts: seq<Chain>)
    requires subtrees != []
    ensures
      var selector := within(subtrees[0].rootNode, subtrees[0].target);
      Followed(parts, SelectorsOf(subtrees, within))
      == if selector.None? then None else Followed(parts + [selector.value], SelectorsOf(subtrees[1..], within))
  {
    var selector := within(subtrees[0].rootNode, subtrees[0].target);
    var rest := SelectorsOf(subtrees[1..], within);
    if selector.Some? && rest.Some? {
      assert parts + ([selector.value] + rest.value) == (parts + [selector.value]) + rest.value;
    }
  }

  lemma FollowedNothing(rest: Option<seq<Chain>>)
    ensures Followed([], rest) == rest
  {
    if rest.Some? {
      assert [] + rest.value == rest.value;
    }
  }

  /** The parts of the selector of a connected element, from the document down. */
  function Selectors(document: Forest, location: Location, actionNameAttribute: Option<string>): Option<seq<Chain>>
    requires IsLocation(document, location)
  {
    SelectorsOf(Subtrees(document, location), WithinSubtree(actionNameAttribute))
  }

  /** `None` as location stands for an element that is not connected. */
  method GetSelectorFromElement(document: Forest, location: Option<Location>, actionNameAttribute: Option<string>)
    returns (parts: Option<seq<Chain>>)
    requires location.Some? ==> IsLocation(document, location.value)
    ensures parts == if location.None? then None else Selectors(document, location.value, actionNameAttribute)
  {
    if location.None? {
      return None;
    }
    var subtrees := GetAllSubtreeTargets(document, location.value);
    parts := CollectSelectors(subtrees, actionNameAttribute);
  }

  method SelectorWithin(subtree: SubtreeTarget, actionNameAttribute: Option<string>) returns (selector: Option<Chain>)
    requires IsPath(subtree.rootNode, subtree.target)
    ensures selector == WithinSubtree(actionNameAttribute)(subtree.rootNode, subtree.target)
  {
    selector := GetSelectorFromElementWithinSubtree(subtree.rootNode, subtree.target, actionNameAttribute);
  }

  method CollectSelectors(subtrees: seq<SubtreeTarget>, actionNameAttribute: Option<string>)
    returns (parts: Option<seq<Chain>>)
    requires forall i | 0 <= i < |subtrees| :: IsPath(subtrees[i].rootNode, subtrees[i].target)
    ensures parts == SelectorsOf(subtrees, WithinSubtree(actionNameAttribute))
  {
    ghost var within := WithinSubtree(actionNameAttribute);
    var selectorParts: seq<Chain> := [];
    FollowedNothing(SelectorsOf(subtrees, within));
    for i := 0 to |subtrees|
      invariant SelectorsOf(subtrees, within) == Followed(selectorParts, SelectorsOf(subtrees[i..], within))
    {
      var selector := SelectorWithin(subtrees[i], actionNameAttribute);
      CollectStep(subtrees[i..], within, selectorParts);
      assert subtrees[i..][1..] == subtrees[i + 1..];
      if selector.None? {
        return None;
      }
      selectorParts := selectorParts + [selector.value];
    }
    parts := Some(selectorParts);
    assert selectorParts + [] == selectorParts;
  }

  // ---- What the parts designate -----------------------------------------------------------------

  /** An HTML element, if there is one, is the single child of the root and the only HTML element. */
  ghost predicate Tidy(root: Forest) {
    forall p | IsPath(root, p) && At(root, p).tag == "HTML" :: |root| == 1 && p == [0]
  }

  function Top(root: Forest): Path {
    if |root| == 1 && root[0].tag == "HTML" then [0] else []
  }

  /** How a part is read: as a query over the root if that has a single answer, else anchored at the
      children of HTML or of the shadow root. */
  ghost predicate Designates(root: Forest, chain: Chain, p: Path) {
    if |QueryAll(root, chain)| == 1 then MatchesAnywhere(root, chain, p)
    else Top(root) <= p && Below(ChildrenAt(root, Top(root)), chain, p[|Top(root)|..])
  }

  lemma TidyWalkEndsAtTop(root: Forest, target: Path, b: nat)
    requires Tidy(root) && IsPath(root, target) && At(root, target).tag != "HTML" && WalkEndsAt(root, target, b)
    ensures target[..b] == Top(root)
  {
    assert target[..|target|] == target;
    StepDown(root, target, 1);
  }

  lemma DistinctHead<T>(items: seq<T>)
    requires Distinct(items)
    ensures |items| > 1 ==> items[0] != items[1]
  { }

  lemma SingleAnswer(root: Forest, chain: Chain, target: Path)
    requires MatchesAnywhere(root, chain, target)
    ensures |QueryAll(root, chain)| == 1 <==> forall q :: MatchesAnywhere(root, chain, q) ==> q == target
  {
    var found := QueryAll(root, chain);
    QueryAllIff(root, chain, target);
    QueryAllDistinct(root, chain);
    DistinctHead(found);
    if forall q :: MatchesAnywhere(root, chain, q) ==> q == target {
      forall k | 0 <= k < |found| ensures found[k] == target {
        QueryAllIff(root, chain, found[k]);
      }
    } else if |found| == 1 {
      SingleMatch(root, chain, target);
    }
  }

  lemma SamePath(top: Path, p: Path, q: Path)
    requires top <= p
    ensures top <= q && q[|top|..] == p[|top|..] <==> q == p
  {
    assert p == top + p[|top|..];
    assert top <= q ==> q == top + q[|top|..];
  }

  lemma AnchoredDesignates(root: Forest, target: Path, chain: Chain, b: nat, p: Path)
    requires Tidy(root) && IsPath(root, target) && At(root, target).tag != "HTML"
    requires AnchoredAt(root, chain, target, b) && |QueryAll(root, chain)| != 1
    ensures Designates(root, chain, p) <==> p == target
  {
    TidyWalkEndsAtTop(root, target, b);
    SamePath(Top(root), target, p);
    assert LeadsOnlyTo(ChildrenAt(root, Top(root)), chain, target[|Top(root)|..]);
  }

  lemma PinpointedIsDesignated(root: Forest, target: Path, chain: Chain, p: Path)
    requires Tidy(root) && IsPath(root, target) && At(root, target).tag != "HTML" && Pinpoints(root, chain, target)
    ensures Designates(root, chain, p) <==> p == target
  {
    SingleAnswer(root, chain, target);
    if |QueryAll(root, chain)| != 1 {
      var b: nat :| AnchoredAt(root, chain, target, b);
      AnchoredDesignates(root, target, chain, b, p);
    }
  }

  /** The parts, read from the document down: each but the last designates a host, whose shadow root the
      next part is read in. */
  ghost predicate DesignatesLocation(root: Forest, parts: seq<Chain>, location: Location)
    decreases |parts|
  {
    && |parts| == |location| && |parts| > 0
    && Designates(root, parts[0], location[0])
    && (|parts| > 1 ==>
          && IsPath(root, location[0])
          && At(root, location[0]).shadow.Some?
          && DesignatesLocation(At(root, location[0]).shadow.value, parts[1..], location[1..]))
  }

  /** `within` finds a selector for every target but HTML. */
  ghost predicate Complete(within: Within) {
    forall root, target | IsPath(root, target) :: within(root, target).Some? <==> At(root, target).tag != "HTML"
  }

  /** What `within` finds pinpoints the target. */
  ghost predicate Faithful(within: Within) {
    forall root, target | IsPath(root, target) && within(root, target).Some? ::
      Pinpoints(root, within(root, target).value, target)
  }

  lemma WithinSubtreeIsFaithful(actionNameAttribute: Option<string>)
    ensures Complete(WithinSubtree(actionNameAttribute)) && Faithful(WithinSubtree(actionNameAttribute))
  {
    var within := WithinSubtree(actionNameAttribute);
    forall root, target | IsPath(root, target)
      ensures within(root, target).Some? <==> At(root, target).tag != "HTML"
      ensures within(root, target).Some? ==> Pinpoints(root, within(root, target).value, target)
    {
      SubtreeSelectorPinpoints(root, target, actionNameAttribute);
    }
  }

  ghost predicate AllTidy(document: Forest, location: Location)
    requires IsLocation(document, location)
  {
    forall i | 0 <= i < |location| :: Tidy(RootAt(document, location, i))
  }

  ghost predicate NoHtmlTarget(document: Forest, location: Location)
    requires IsLocation(document, location)
  {
    forall i | 0 <= i < |location| :: At(RootAt(document, location, i), location[i]).tag != "HTML"
  }

  lemma InnerLocation(document: Forest, location: Location)
    requires IsLocation(document, location) && |location| > 1
    ensures var inner := At(document, location[0]).shadow.value;
            && Subtrees(document, location)[1..] == Subtrees(inner, location[1..])
            && (AllTidy(document, location) ==> AllTidy(inner, location[1..]))
            && (NoHtmlTarget(document, location) ==> NoHtmlTarget(inner, location[1..]))
            && (NoHtmlTarget(inner, location[1..]) && At(document, location[0]).tag != "HTML" ==> NoHtmlTarget(document, location))
  {
    var inner := At(document, location[0]).shadow.value;
    forall i | 0 <= i < |location| - 1
      ensures RootAt(inner, location[1..], i) == RootAt(document, location, i + 1) { }
    if NoHtmlTarget(inner, location[1..]) && At(document, location[0]).tag != "HTML" {
      forall i | 0 <= i < |location| ensures At(RootAt(document, location, i), location[i]).tag != "HTML" {
        if i > 0 {
          assert At(RootAt(inner, location[1..], i - 1), location[1..][i - 1]).tag != "HTML";
        }
      }
    }
  }

  lemma {:induction false} PartsDesignate(document: Forest, location: Location, within: Within, other: Location)
    requires IsLocation(document, location) && AllTidy(document, location) && NoHtmlTarget(document, location)
    requires Complete(within) && Faithful(within)
    ensures var parts := SelectorsOf(Subtrees(document, location), within);
            && parts.Some? && |parts.value| == |location|
            && (DesignatesLocation(document, parts.value, other) <==> other == location)
    decreases |location|
  {
    assert RootAt(document, location, 0) == document;
    var subtrees := Subtrees(document, location);
    var rest := SelectorsOf(subtrees[1..], within);
    var part := within(document, location[0]).value;
    if |other| > 0 {
      PinpointedIsDesignated(document, location[0], part, other[0]);
    }
    if |location| > 1 {
      InnerLocation(document, location);
      PartsDesignate(At(document, location[0]).shadow.value, location[1..], within, if other == [] then [] else other[1..]);
    }
    var parts := SelectorsOf(subtrees, within).value;
    assert parts[0] == part && parts[1..] == rest.value;
    FirstPartAndRest(document, parts, location, other);
  }

  /** Locations with the same first path and the same rest are the same. */
  lemma FirstPartAndRest(document: Forest, parts: seq<Chain>, location: Location, other: Location)
    requires IsLocation(document, location) && |parts| == |location|
    requires |other| > 0 ==> (Designates(document, parts[0], other[0]) <==> other[0] == location[0])
    requires |location| > 1 && |other| > 0 ==>
               (DesignatesLocation(At(document, location[0]).shadow.value, parts[1..], other[1..]) <==> other[1..] == location[1..])
    ensures DesignatesLocation(document, parts, other) <==> other == location
  {
    if |other| == |location| {
      SameLocation(other, location);
    }
  }

  lemma SameLocation(a: Location, b: Location)
    requires |a| == |b| > 0
    ensures a == b <==> a[0] == b[0] && a[1..] == b[1..]
  {
    assert a == [a[0]] + a[1..] && b == [b[0]] + b[1..];
  }

  /** For every document and connected element that is not HTML itself, the selector exists and designates
      exactly that element, through any number of shadow roots. */
  lemma SelectorDesignatesElement(
    document: Forest, location: Location, actionNameAttribute: Option<string>, other: Location
  )
    requires IsLocation(document, location) && AllTidy(document, location) && NoHtmlTarget(document, location)
    ensures var parts := Selectors(document, location, actionNameAttribute);
            && parts.Some? && |parts.value| == |location|
            && (DesignatesLocation(document, parts.value, other) <==> other == location)
  {
    WithinSubtreeIsFaithful(actionNameAttribute);
    PartsDesignate(document, location, WithinSubtree(actionNameAttribute), other);
  }

  lemma {:induction false} NoneBecauseHtml(document: Forest, location: Location, within: Within)
    requires IsLocation(document, location) && Complete(within)
    ensures SelectorsOf(Subtrees(document, location), within).None? <==> !NoHtmlTarget(document, location)
    decreases |location|
  {
    assert RootAt(document, location, 0) == document;
    assert within(document, location[0]).Some? <==> At(document, location[0]).tag != "HTML";
    if |location| > 1 {
      InnerLocation(document, location);
      NoneBecauseHtml(At(document, location[0]).shadow.value, location[1..], within);
    }
  }

  /** A connected element has no selector exactly if it, or a host on the way to it, is an HTML element. */
  lemma NoSelectorBecauseHtml(document: Forest, location: Location, actionNameAttribute: Option<string>)
    requires IsLocation(document, location)
    ensures Selectors(document, location, actionNameAttribute).None? <==> !NoHtmlTarget(document, location)
  {
    WithinSubtreeIsFaithful(actionNameAttribute);
    NoneBecauseHtml(document, location, WithinSubtree(actionNameAttribute));
  }

  // ---- Why the anchor is needed -----------------------------------------------------------------

  function Plain(tag: string, children: seq<Element>): Element {
    Element(tag, "", [], map[], children, None)
  }

  lemma {:induction false} NoAttribute(e: Element, names: seq<string>)
    requires e.attributes == map[]
    ensures FirstAttribute(e, names) == None
    decreases |names|
  {
    if names != [] {
      NoAttribute(e, names[1..]);
    }
  }

  /** A plain element gets its tag name as selector when no sibling has a match for it. */
  lemma PlainSelector(place: Place, child: Chain)
    requires place.Valid() && place.Element() == Plain(place.Element().tag, place.Element().children)
    requires IsUnique(AmongSiblings, place, ByTag(place.Element().tag), child)
    ensures FirstUnique(GLOBALLY_UNIQUE_SELECTOR_GETTERS, WithinRoot, place, None, child) == None
    ensures ChildSelector(place, None, child) == ByTag(place.Element().tag)
  {
    NoAttribute(place.Element(), [] + STABLE_ATTRIBUTES);
    var gs := UNIQUE_AMONG_CHILDREN_SELECTOR_GETTERS;
    assert FirstUnique(gs[1..][1..], AmongSiblings, place, None, child) == Some(ByTag(place.Element().tag));
    assert FirstUnique(gs[1..], AmongSiblings, place, None, child) == Some(ByTag(place.Element().tag));
    var hs := GLOBALLY_UNIQUE_SELECTOR_GETTERS;
    assert FirstUnique(hs[1..][1..], WithinRoot, place, None, child) == None;
    assert FirstUnique(hs[1..], WithinRoot, place, None, child) == None;
  }

  lemma TwoStepsUp(root: Forest)
    requires root == [Plain("DIV", [Plain("SPAN", [])]), Plain("P", [Plain("DIV", [Plain("SPAN", [])])])]
    ensures IsPath(root, [0, 0])
    ensures SelectorUpwards(root, [0, 0], None, []) == Some([ByTag("DIV"), ByTag("SPAN")])
  {
    var span := Plain("SPAN", []);
    assert IsPath(root, [0, 0]) && PlaceOf(root, [0, 0]) == Place(root, [span], 0);
    PlainSelector(PlaceOf(root, [0, 0]), []);
    assert [0, 0][..1] == [0] && PlaceOf(root, [0]) == Place(root, root, 0);
    PlainSelector(PlaceOf(root, [0]), [ByTag("SPAN")]);
    assert [0][..0] == [] && [ByTag("DIV")] + [ByTag("SPAN")] == [ByTag("DIV"), ByTag("SPAN")];
    assert SelectorUpwards(root, [], None, [ByTag("DIV"), ByTag("SPAN")]) == Some([ByTag("DIV"), ByTag("SPAN")]);
    assert SelectorUpwards(root, [0], None, [ByTag("SPAN")]) == Some([ByTag("DIV"), ByTag("SPAN")]);
    assert [ByTag("SPAN")] + [] == [ByTag("SPAN")];
  }

  lemma BelowPair(f: Forest, a: string, b: string, i: nat, j: nat)
    requires i < |f| && f[i].tag == a && j < |f[i].children| && f[i].children[j].tag == b
    ensures Below(f, [ByTag(a), ByTag(b)], [i, j])
  {
    assert [ByTag(a), ByTag(b)][1..] == [ByTag(b)] && [i, j][1..] == [j];
    assert Below(f[i].children, [ByTag(b)], [j]);
  }

  /** In a shadow root, the generated selector may match another element when read without its anchor:
      DIV > SPAN is unique among the children of the root and yet matches twice. */
  lemma UnanchoredReadingIsAmbiguous()
    ensures
      var root := [Plain("DIV", [Plain("SPAN", [])]), Plain("P", [Plain("DIV", [Plain("SPAN", [])])])];
      && IsPath(root, [0, 0])
      && SelectorUpwards(root, [0, 0], None, []) == Some([ByTag("DIV"), ByTag("SPAN")])
      && MatchesAnywhere(root, [ByTag("DIV"), ByTag("SPAN")], [0, 0])
      && MatchesAnywhere(root, [ByTag("DIV"), ByTag("SPAN")], [1, 0, 0])
  {
    var div := Plain("DIV", [Plain("SPAN", [])]);
    var root := [div, Plain("P", [div])];
    TwoStepsUp(root);
    BothMatch(root);
  }

  lemma BothMatch(root: Forest)
    requires root == [Plain("DIV", [Plain("SPAN", [])]), Plain("P", [Plain("DIV", [Plain("SPAN", [])])])]
    ensures MatchesAnywhere(root, [ByTag("DIV"), ByTag("SPAN")], [0, 0])
    ensures MatchesAnywhere(root, [ByTag("DIV"), ByTag("SPAN")], [1, 0, 0])
  {
    var p, q := [0, 0], [1, 0, 0];
    BelowPair(root, "DIV", "SPAN", 0, 0);
    assert p[..0] == [] && p[0..] == p;
    assert ChildrenAt(root, [1]) == [Plain("DIV", [Plain("SPAN", [])])];
    BelowPair(ChildrenAt(root, [1]), "DIV", "SPAN", 0, 0);
    assert q[..1] == [1] && q[1..] == [0, 0] && q == [1] + [0, 0];
    BelowIsPath(root, [ByTag("DIV"), ByTag("SPAN")], p);
    BelowIsPath(ChildrenAt(root, [1]), [ByTag("DIV"), ByTag("SPAN")], [0, 0]);
    PathConcat(root, [1], [0, 0]);
  }
}
