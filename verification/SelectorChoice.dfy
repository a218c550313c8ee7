/** Which selector is chosen, among those that designate the element: stable attributes before ids, classes and
    types, positions only as a last resort, and never a value that looks generated. */
module SelectorChoice {
  import opened Wrappers
  import opened Dom
  import opened Selector
  import opened SelectorProofs

  // ---- Values that look generated -----------------------------------------------------------------

  predicate HasDigit(value: string) {
    exists k | 0 <= k < |value| :: value[k] in {'0', '1', '2', '3', '4', '5', '6', '7', '8', '9'}
  }

  /** The attributes that may identify an element, in the order in which they are tried. */
  function StableNames(actionNameAttribute: Option<string>): seq<string> {
    (match actionNameAttribute
     case None => []
     case Some(name) => if name == "" then [] else [name]) + STABLE_ATTRIBUTES
  }

  /** Ids and classes have no digit, the body has no class, and attributes are stable ones. */
  predicate IsStable(c: Compound, actionNameAttribute: Option<string>) {
    match c
    case ById(id) => id != "" && !HasDigit(id)
    case ByClass(tag, class_) => tag != "BODY" && !HasDigit(class_)
    case ByAttribute(_, name, _) => name in StableNames(actionNameAttribute)
    case ByTag(_) => true
    case ByPosition(_, _) => true
  }

  lemma GeneratedMeansDigit(value: string)
    ensures IsGeneratedValue(value) <==> HasDigit(value)
  {
    assert forall k | 0 <= k < |value| ::
             '0' <= value[k] <= '9' <==> value[k] in {'0', '1', '2', '3', '4', '5', '6', '7', '8', '9'};
  }

  lemma {:induction false} FirstAttributeIs(e: Element, names: seq<string>)
    ensures
      match FirstAttribute(e, names)
      case None => forall k | 0 <= k < |names| :: names[k] !in e.attributes
      case Some(c) =>
        exists k | 0 <= k < |names| ::
          && (forall j | 0 <= j < k :: names[j] !in e.attributes)
          && names[k] in e.attributes && c == ByAttribute(e.tag, names[k], e.attributes[names[k]])
    decreases |names|
  {
    if names != [] && names[0] !in e.attributes {
      FirstAttributeIs(e, names[1..]);
      if FirstAttribute(e, names[1..]).Some? {
        var k :| 0 <= k < |names| - 1
                 && (forall j | 0 <= j < k :: names[1..][j] !in e.attributes)
                 && names[1..][k] in e.attributes
                 && FirstAttribute(e, names[1..]).value == ByAttribute(e.tag, names[1..][k], e.attributes[names[1..][k]]);
        forall j | 0 <= j < k + 1 ensures names[j] !in e.attributes {
          if j > 0 {
            assert names[1..][j - 1] !in e.attributes;
          }
        }
        assert names[k + 1] == names[1..][k];
      } else {
        forall k | 0 <= k < |names| ensures names[k] !in e.attributes {
          if k > 0 {
            assert names[1..][k - 1] !in e.attributes;
          }
        }
      }
    }
  }

  lemma {:induction false} FirstClassIs(e: Element, classes: seq<string>)
    ensures
      match FirstClass(e, classes)
      case None => forall k | 0 <= k < |classes| :: HasDigit(classes[k])
      case Some(c) =>
        exists k | 0 <= k < |classes| ::
          && (forall j | 0 <= j < k :: HasDigit(classes[j]))
          && !HasDigit(classes[k]) && c == ByClass(e.tag, classes[k])
    decreases |classes|
  {
    if classes != [] {
      GeneratedMeansDigit(classes[0]);
      if IsGeneratedValue(classes[0]) {
        FirstClassIs(e, classes[1..]);
        if FirstClass(e, classes[1..]).Some? {
          var k :| 0 <= k < |classes| - 1
                   && (forall j | 0 <= j < k :: HasDigit(classes[1..][j]))
                   && !HasDigit(classes[1..][k]) && FirstClass(e, classes[1..]).value == ByClass(e.tag, classes[1..][k]);
          forall j | 0 <= j < k + 1 ensures HasDigit(classes[j]) {
            if j > 0 {
              assert HasDigit(classes[1..][j - 1]);
            }
          }
          assert classes[k + 1] == classes[1..][k];
        } else {
          forall k | 0 <= k < |classes| ensures HasDigit(classes[k]) {
            if k > 0 {
              assert HasDigit(classes[1..][k - 1]);
            }
          }
        }
      }
    }
  }

  lemma GettersAreStable(getter: Getter, e: Element, actionNameAttribute: Option<string>)
    ensures
      var c := GetSelector(getter, e, actionNameAttribute);
      c.Some? ==> IsStable(c.value, actionNameAttribute)
  {
    GeneratedMeansDigit(e.id);
    FirstAttributeIs(e, StableNames(actionNameAttribute));
    FirstClassIs(e, e.classes);
  }

  lemma {:induction false} FirstUniqueIsStable(
    getters: seq<Getter>, scope: Scope, place: Place, actionNameAttribute: Option<string>, child: Chain
  )
    requires place.Valid()
    ensures
      var c := FirstUnique(getters, scope, place, actionNameAttribute, child);
      c.Some? ==> IsStable(c.value, actionNameAttribute)
    decreases |getters|
  {
    if getters != [] {
      GettersAreStable(getters[0], place.Element(), actionNameAttribute);
      FirstUniqueIsStable(getters[1..], scope, place, actionNameAttribute, child);
    }
  }

  ghost predicate AllStable(chain: Chain, actionNameAttribute: Option<string>) {
    forall k | 0 <= k < |chain| :: IsStable(chain[k], actionNameAttribute)
  }

  lemma {:induction false} WalkIsStable(root: Forest, p: Path, actionNameAttribute: Option<string>, child: Chain)
    requires (p == [] || IsPath(root, p)) && AllStable(child, actionNameAttribute)
    ensures
      var r := SelectorUpwards(root, p, actionNameAttribute, child);
      r.Some? ==> AllStable(r.value, actionNameAttribute)
    decreases |p|
  {
    if p != [] && At(root, p).tag != "HTML" {
      var place := PlaceOf(root, p);
      FirstUniqueIsStable(GLOBALLY_UNIQUE_SELECTOR_GETTERS, WithinRoot, place, actionNameAttribute, child);
      FirstUniqueIsStable(UNIQUE_AMONG_CHILDREN_SELECTOR_GETTERS, AmongSiblings, place, actionNameAttribute, child);
      if |p| > 1 {
        PathPrefix(root, p, |p| - 1);
      }
      WalkIsStable(root, p[..|p| - 1], actionNameAttribute, [ChildSelector(place, actionNameAttribute, child)] + child);
    }
  }

  /** No id and no class with a digit is ever used, nor a class of the body, nor an attribute that is not listed
      as stable. */
  lemma SelectorsAreStable(root: Forest, target: Path, actionNameAttribute: Option<string>, chain: Chain)
    requires IsPath(root, target) && SelectorUpwards(root, target, actionNameAttribute, []) == Some(chain)
    ensures forall k | 0 <= k < |chain| :: IsStable(chain[k], actionNameAttribute)
  {
    WalkIsStable(root, target, actionNameAttribute, []);
  }

  // ---- Selectors that are unique in the root --------------------------------------------------------

  lemma {:induction false} MatchingIsDistinct(f: Forest, chain: Chain, paths: seq<Path>)
    requires Distinct(paths)
    ensures Distinct(Matching(f, chain, paths))
    decreases |paths|
  {
    if paths != [] {
      MatchingIsDistinct(f, chain, paths[1..]);
      MatchingIff(f, chain, paths[1..], paths[0]);
    }
  }

  lemma SinglePath(root: Forest, chain: Chain, target: Path)
    requires forall q :: MatchesAnywhere(root, chain, q) <==> q == target
    ensures |QueryAll(root, chain)| == 1
  {
    var found := QueryAll(root, chain);
    PathsFromDistinct(root, 0);
    MatchingIsDistinct(root, chain, AllPaths(root));
    QueryAllIff(root, chain, target);
    if |found| > 1 {
      QueryAllIff(root, chain, found[0]);
      QueryAllIff(root, chain, found[1]);
      assert false;
    }
  }

  /** What a compound asks of an element, wherever it is. */
  predicate Fits(e: Element, c: Compound) {
    match c
    case ByAttribute(tag, name, value) => e.tag == tag && name in e.attributes && e.attributes[name] == value
    case ById(id) => e.id == id
    case ByClass(tag, class_) => e.tag == tag && class_ in e.classes
    case ByTag(tag) => e.tag == tag
    case ByPosition(tag, _) => e.tag == tag
  }

  lemma SingleMatches(root: Forest, c: Compound, q: Path)
    requires !c.ByPosition?
    ensures MatchesAnywhere(root, [c], q) <==> IsPath(root, q) && Fits(At(root, q), c)
  {
    if IsPath(root, q) {
      StepDown(root, q, |q|);
      assert q[..|q|] == q;
      assert q[|q| - 1..] == [q[|q| - 1]];
    }
  }

  /** No other element of the root fits. */
  ghost predicate OnlyOne(root: Forest, target: Path, c: Compound) {
    forall q | IsPath(root, q) && Fits(At(root, q), c) :: q == target
  }

  lemma UniqueIffOnlyOne(root: Forest, target: Path, c: Compound)
    requires IsPath(root, target) && Fits(At(root, target), c) && !c.ByPosition?
    ensures IsUnique(WithinRoot, PlaceOf(root, target), c, []) <==> OnlyOne(root, target, c)
  {
    forall q ensures MatchesAnywhere(root, [c], q) <==> IsPath(root, q) && Fits(At(root, q), c) {
      SingleMatches(root, c, q);
    }
    assert [c] + [] == [c];
    if OnlyOne(root, target, c) {
      SinglePath(root, [c], target);
    }
    if |QueryAll(root, [c])| == 1 {
      SingleMatch(root, [c], target);
    }
  }

  /** The attribute that is tried: the first stable one that the element has. */
  ghost predicate IsFirstStable(e: Element, actionNameAttribute: Option<string>, name: string) {
    var names := StableNames(actionNameAttribute);
    && name in e.attributes
    && exists k | 0 <= k < |names| :: names[k] == name && forall j | 0 <= j < k :: names[j] !in e.attributes
  }

  lemma FirstStableIsTried(e: Element, actionNameAttribute: Option<string>, name: string)
    requires IsFirstStable(e, actionNameAttribute, name)
    ensures GetSelector(StableAttributeSelector, e, actionNameAttribute) ==
            Some(ByAttribute(e.tag, name, e.attributes[name]))
  {
    FirstAttributeIs(e, StableNames(actionNameAttribute));
  }

  /** If the first stable attribute of the target singles it out in the root, it is the selector. */
  lemma UniqueAttributeIsTaken(root: Forest, target: Path, actionNameAttribute: Option<string>, name: string)
    requires IsPath(root, target) && At(root, target).tag != "HTML"
    requires IsFirstStable(At(root, target), actionNameAttribute, name)
    requires forall q | IsPath(root, q) && q != target ::
               var e := At(root, q);
               !(e.tag == At(root, target).tag && name in e.attributes
                 && e.attributes[name] == At(root, target).attributes[name])
    ensures SelectorUpwards(root, target, actionNameAttribute, []) ==
            Some([ByAttribute(At(root, target).tag, name, At(root, target).attributes[name])])
  {
    var e := At(root, target);
    var c := ByAttribute(e.tag, name, e.attributes[name]);
    FirstStableIsTried(e, actionNameAttribute, name);
    UniqueIffOnlyOne(root, target, c);
    assert [c] + [] == [c];
  }

  /** Otherwise, a non-empty id without a digit that singles it out is the selector. */
  lemma UniqueIdIsTaken(root: Forest, target: Path, actionNameAttribute: Option<string>)
    requires IsPath(root, target) && At(root, target).tag != "HTML"
    requires At(root, target).id != "" && !HasDigit(At(root, target).id)
    requires forall q | IsPath(root, q) && q != target :: At(root, q).id != At(root, target).id
    requires forall name | IsFirstStable(At(root, target), actionNameAttribute, name) ::
               exists q :: IsPath(root, q) && q != target
                 && Fits(At(root, q), ByAttribute(At(root, target).tag, name, At(root, target).attributes[name]))
    ensures SelectorUpwards(root, target, actionNameAttribute, []) == Some([ById(At(root, target).id)])
  {
    var e := At(root, target);
    var place := PlaceOf(root, target);
    var attribute := GetSelector(StableAttributeSelector, e, actionNameAttribute);
    FirstAttributeIs(e, StableNames(actionNameAttribute));
    GeneratedMeansDigit(e.id);
    if attribute.Some? {
      assert IsFirstStable(e, actionNameAttribute, attribute.value.name);
      UniqueIffOnlyOne(root, target, attribute.value);
    }
    UniqueIffOnlyOne(root, target, ById(e.id));
    NextGetter(GLOBALLY_UNIQUE_SELECTOR_GETTERS, WithinRoot, place, actionNameAttribute, []);
    assert GLOBALLY_UNIQUE_SELECTOR_GETTERS[1..] == [IDSelector];
    NextGetter([IDSelector], WithinRoot, place, actionNameAttribute, []);
    assert [ById(e.id)] + [] == [ById(e.id)];
  }

  // ---- Selectors that are unique among siblings -----------------------------------------------------

  /** Another sibling has the type. */
  ghost predicate SharesTag(place: Place)
    requires place.Valid()
  {
    exists j | 0 <= j < |place.siblings| && j != place.index :: place.siblings[j].tag == place.Element().tag
  }

  ghost predicate SharesClass(place: Place, class_: string)
    requires place.Valid()
  {
    exists j | 0 <= j < |place.siblings| && j != place.index ::
      place.siblings[j].tag == place.Element().tag && class_ in place.siblings[j].classes
  }

  lemma TagIsUnique(place: Place, child: Chain)
    requires place.Valid() && !SharesTag(place)
    ensures IsUnique(AmongSiblings, place, ByTag(place.Element().tag), child)
  {}

  lemma NextGetter(
    getters: seq<Getter>, scope: Scope, place: Place, actionNameAttribute: Option<string>, child: Chain
  )
    requires place.Valid() && getters != []
    ensures
      var c := GetSelector(getters[0], place.Element(), actionNameAttribute);
      FirstUnique(getters, scope, place, actionNameAttribute, child) ==
      if c.Some? && IsUnique(scope, place, c.value, child) then c
      else FirstUnique(getters[1..], scope, place, actionNameAttribute, child)
  {}

  lemma ChildGetters(place: Place, actionNameAttribute: Option<string>, child: Chain)
    requires place.Valid()
    ensures
      var e := place.Element();
      var attribute, class_ := GetSelector(StableAttributeSelector, e, actionNameAttribute), GetSelector(ClassSelector, e, actionNameAttribute);
      ChildSelector(place, actionNameAttribute, child) ==
      if attribute.Some? && IsUnique(AmongSiblings, place, attribute.value, child) then attribute.value
      else if class_.Some? && IsUnique(AmongSiblings, place, class_.value, child) then class_.value
      else if IsUnique(AmongSiblings, place, ByTag(e.tag), child) then ByTag(e.tag)
      else PositionSelector(place)
  {
    NextGetter(UNIQUE_AMONG_CHILDREN_SELECTOR_GETTERS, AmongSiblings, place, actionNameAttribute, child);
    assert UNIQUE_AMONG_CHILDREN_SELECTOR_GETTERS[1..] == [ClassSelector, TagNameSelector];
    NextGetter([ClassSelector, TagNameSelector], AmongSiblings, place, actionNameAttribute, child);
    assert [ClassSelector, TagNameSelector][1..] == [TagNameSelector];
    NextGetter([TagNameSelector], AmongSiblings, place, actionNameAttribute, child);
    assert [TagNameSelector][1..] == [];
  }

  /** The k-th compound of the chain stands for this ancestor of the target, the last one for the target. */
  function AncestorOf(target: Path, chain: Chain, k: nat): Path
    requires k < |chain| <= |target|
  {
    target[..|target| - (|chain| - 1 - k)]
  }

  /** A position is only used where another sibling has the same type. */
  ghost predicate LastResort(root: Forest, p: Path, c: Compound) {
    c.ByPosition? ==> IsPath(root, p) && SharesTag(PlaceOf(root, p))
  }

  ghost predicate LastResorts(root: Forest, target: Path, chain: Chain) {
    |chain| <= |target| && forall k: nat | k < |chain| :: LastResort(root, AncestorOf(target, chain, k), chain[k])
  }

  lemma LastResortBefore(root: Forest, target: Path, child: Chain, c: Compound)
    requires LastResorts(root, target, child) && |child| < |target|
    requires LastResort(root, target[..|target| - |child|], c)
    ensures LastResorts(root, target, [c] + child)
  {
    var chain := [c] + child;
    forall k: nat | k < |chain| ensures LastResort(root, AncestorOf(target, chain, k), chain[k]) {
      if k > 0 {
        assert AncestorOf(target, chain, k) == AncestorOf(target, child, k - 1) && chain[k] == child[k - 1];
      }
    }
  }

  lemma {:induction false} NoPosition(
    getters: seq<Getter>, scope: Scope, place: Place, actionNameAttribute: Option<string>, child: Chain
  )
    requires place.Valid()
    ensures
      var c := FirstUnique(getters, scope, place, actionNameAttribute, child);
      c.Some? ==> !c.value.ByPosition?
    decreases |getters|
  {
    if getters != [] {
      FirstAttributeIs(place.Element(), StableNames(actionNameAttribute));
      FirstClassIs(place.Element(), place.Element().classes);
      NoPosition(getters[1..], scope, place, actionNameAttribute, child);
    }
  }

  lemma {:induction false} WalkResortsLast(root: Forest, target: Path, actionNameAttribute: Option<string>, child: Chain)
    requires IsPath(root, target) && LastResorts(root, target, child)
    requires var p := target[..|target| - |child|]; p == [] || IsPath(root, p)
    ensures
      var r := SelectorUpwards(root, target[..|target| - |child|], actionNameAttribute, child);
      r.Some? ==> LastResorts(root, target, r.value)
    decreases |target| - |child|
  {
    var p := target[..|target| - |child|];
    if p != [] && At(root, p).tag != "HTML" {
      var place := PlaceOf(root, p);
      var global := FirstUnique(GLOBALLY_UNIQUE_SELECTOR_GETTERS, WithinRoot, place, actionNameAttribute, child);
      NoPosition(GLOBALLY_UNIQUE_SELECTOR_GETTERS, WithinRoot, place, actionNameAttribute, child);
      if global.Some? {
        LastResortBefore(root, target, child, global.value);
      } else {
        var c := ChildSelector(place, actionNameAttribute, child);
        ChildGetters(place, actionNameAttribute, child);
        NoPosition(UNIQUE_AMONG_CHILDREN_SELECTOR_GETTERS, AmongSiblings, place, actionNameAttribute, child);
        if c.ByPosition? && !SharesTag(place) {
          TagIsUnique(place, child);
        }
        LastResortBefore(root, target, child, c);
        if |p| > 1 {
          PathPrefix(root, p, |p| - 1);
        }
        assert p[..|p| - 1] == target[..|target| - |[c] + child|];
        WalkResortsLast(root, target, actionNameAttribute, [c] + child);
      }
    }
  }

  /** On every level, from the target upwards, a position is only used where a sibling has the same type. */
  lemma PositionsAreLastResort(root: Forest, target: Path, actionNameAttribute: Option<string>, chain: Chain)
    requires IsPath(root, target) && SelectorUpwards(root, target, actionNameAttribute, []) == Some(chain)
    ensures |chain| <= |target|
    ensures forall k: nat | k < |chain| && chain[k].ByPosition? ::
              IsPath(root, AncestorOf(target, chain, k)) && SharesTag(PlaceOf(root, AncestorOf(target, chain, k)))
  {
    assert target[..|target|] == target;
    WalkResortsLast(root, target, actionNameAttribute, []);
    assert forall k: nat | k < |chain| :: LastResort(root, AncestorOf(target, chain, k), chain[k]);
  }

  /** The first class without a digit, of an element other than the body. */
  ghost predicate IsFirstClass(e: Element, class_: string) {
    && e.tag != "BODY"
    && exists k | 0 <= k < |e.classes| ::
         e.classes[k] == class_ && !HasDigit(class_) && forall j | 0 <= j < k :: HasDigit(e.classes[j])
  }

  lemma FirstClassIsTried(e: Element, actionNameAttribute: Option<string>, class_: string)
    requires IsFirstClass(e, class_)
    ensures GetSelector(ClassSelector, e, actionNameAttribute) == Some(ByClass(e.tag, class_))
  {
    FirstClassIs(e, e.classes);
  }

  lemma ClassUniqueIffNotShared(place: Place, class_: string)
    requires place.Valid()
    ensures IsUnique(AmongSiblings, place, ByClass(place.Element().tag, class_), []) <==> !SharesClass(place, class_)
    ensures IsUnique(AmongSiblings, place, ByTag(place.Element().tag), []) <==> !SharesTag(place)
  {
    if SharesClass(place, class_) {
      var j :| 0 <= j < |place.siblings| && j != place.index
               && place.siblings[j].tag == place.Element().tag && class_ in place.siblings[j].classes;
      assert SiblingMatches(place.siblings, j, ByClass(place.Element().tag, class_), []);
    }
    if SharesTag(place) {
      var j :| 0 <= j < |place.siblings| && j != place.index && place.siblings[j].tag == place.Element().tag;
      assert SiblingMatches(place.siblings, j, ByTag(place.Element().tag), []);
    }
  }

  /** A target without stable attribute is singled out among its siblings by its first class without a digit if
      no sibling of its type has that class; else by its type, if no sibling has it; else by its position. */
  lemma TargetIsNamedBriefly(place: Place, actionNameAttribute: Option<string>, class_: string)
    requires place.Valid() && IsFirstClass(place.Element(), class_)
    requires forall name | name in StableNames(actionNameAttribute) :: name !in place.Element().attributes
    ensures
      var e := place.Element();
      var c := ChildSelector(place, actionNameAttribute, []);
      if !SharesClass(place, class_) then c == ByClass(e.tag, class_)
      else if !SharesTag(place) then c == ByTag(e.tag)
      else c.ByPosition? && c.tag == e.tag
  {
    var e := place.Element();
    FirstAttributeIs(e, StableNames(actionNameAttribute));
    FirstClassIsTried(e, actionNameAttribute, class_);
    ClassUniqueIffNotShared(place, class_);
    ChildGetters(place, actionNameAttribute, []);
  }
}
