/** Trees of elements, the selectors the selector generator emits, and what they match.

    A root (document or shadow root) is the list of its child elements. An element is named by its path:
    the child indices that lead to it from the root. Selectors are the parsed form of the emitted text:
    compounds joined by the child combinator, outermost first (sections 6 and 8.2 of W3C Selectors
    Level 3). The type of an element is its tag name. */
module Dom {
  import opened Wrappers

  datatype Element = Element(
    tag: string,
    id: string,
    classes: seq<string>,
    attributes: map<string, string>,
    children: seq<Element>,
    shadow: Option<seq<Element>>)

  type Forest = seq<Element>

  type Path = seq<nat>

  datatype Compound =
    | ByAttribute(tag: string, name: string, value: string)
    | ById(id: string)
    | ByClass(tag: string, class_: string)
    | ByTag(tag: string)
    | ByPosition(tag: string, nth: nat)

  type Chain = seq<Compound>

  // ---- Paths ----------------------------------------------------------------------------------

  predicate IsPath(f: Forest, p: Path)
    decreases |p|
  {
    |p| > 0 && p[0] < |f| && (|p| > 1 ==> IsPath(f[p[0]].children, p[1..]))
  }

  function At(f: Forest, p: Path): Element
    requires IsPath(f, p)
    decreases |p|
  {
    if |p| == 1 then f[p[0]] else At(f[p[0]].children, p[1..])
  }

  /** The children of the node `p` names; the empty path names the root. */
  function ChildrenAt(f: Forest, p: Path): Forest
    requires p == [] || IsPath(f, p)
  {
    if p == [] then f else At(f, p).children
  }

  lemma {:induction false} PathConcat(f: Forest, p: Path, q: Path)
    requires p == [] || IsPath(f, p)
    ensures q != [] ==> (IsPath(f, p + q) <==> IsPath(ChildrenAt(f, p), q))
    ensures q != [] && IsPath(f, p + q) ==> At(f, p + q) == At(ChildrenAt(f, p), q)
    decreases |p|
  {
    if p == [] {
      assert p + q == q;
    } else if |p| > 1 {
      PathConcat(f[p[0]].children, p[1..], q);
      assert (p + q)[1..] == p[1..] + q;
    } else {
      assert (p + q)[1..] == q;
    }
  }

  lemma {:induction false} PathPrefix(f: Forest, p: Path, k: nat)
    requires IsPath(f, p) && 0 < k <= |p|
    ensures IsPath(f, p[..k])
    decreases |p|
  {
    if k > 1 {
      PathPrefix(f[p[0]].children, p[1..], k - 1);
      assert p[..k][1..] == p[1..][..k - 1];
    }
  }

  /** One step down along a path. */
  lemma StepDown(f: Forest, p: Path, k: nat)
    requires IsPath(f, p) && 0 < k <= |p|
    ensures k - 1 == 0 || IsPath(f, p[..k - 1])
    ensures IsPath(f, p[..k])
    ensures p[k - 1] < |ChildrenAt(f, p[..k - 1])|
    ensures At(f, p[..k]) == ChildrenAt(f, p[..k - 1])[p[k - 1]]
  {
    PathPrefix(f, p, k);
    if k > 1 {
      PathPrefix(f, p, k - 1);
    }
    assert p[..k] == p[..k - 1] + [p[k - 1]];
    PathConcat(f, p[..k - 1], [p[k - 1]]);
  }

  /** Every path of a forest, in document order. */
  function AllPaths(f: Forest): seq<Path> {
    PathsFrom(f, 0)
  }

  function PathsFrom(f: Forest, i: nat): seq<Path>
    requires i <= |f|
    decreases f, |f| - i
  {
    if i == |f| then [] else [[i]] + Prepend(i, PathsFrom(f[i].children, 0)) + PathsFrom(f, i + 1)
  }

  function Prepend(i: nat, paths: seq<Path>): seq<Path> {
    seq(|paths|, k requires 0 <= k < |paths| => [i] + paths[k])
  }

  lemma PrependIff(i: nat, paths: seq<Path>, p: Path)
    ensures p in Prepend(i, paths) <==> |p| > 0 && p[0] == i && p[1..] in paths
  {
    if |p| > 0 && p[0] == i && p[1..] in paths {
      var k :| 0 <= k < |paths| && paths[k] == p[1..];
      assert Prepend(i, paths)[k] == p;
    }
  }

  lemma {:induction false} PathsFromComplete(f: Forest, i: nat, p: Path)
    requires i <= |f|
    ensures p in PathsFrom(f, i) <==> IsPath(f, p) && p[0] >= i
    decreases f, |f| - i
  {
    if i < |f| {
      PathsFromComplete(f, i + 1, p);
      PrependIff(i, PathsFrom(f[i].children, 0), p);
      if |p| > 0 {
        PathsFromComplete(f[i].children, 0, p[1..]);
        assert |p| == 1 ==> p == [p[0]];
      }
    }
  }

  ghost predicate Distinct<T>(items: seq<T>) {
    forall i, j | 0 <= i < j < |items| :: items[i] != items[j]
  }

  lemma {:induction false} PathsFromDistinct(f: Forest, i: nat)
    requires i <= |f|
    ensures Distinct(PathsFrom(f, i))
    decreases f, |f| - i
  {
    if i < |f| {
      var below, later := PathsFrom(f[i].children, 0), PathsFrom(f, i + 1);
      PathsFromDistinct(f[i].children, 0);
      PathsFromDistinct(f, i + 1);
      var here := Prepend(i, below);
      forall a, b | 0 <= a < b < |here| ensures here[a] != here[b] {
        assert here[a][1..] == below[a] && here[b][1..] == below[b];
      }
      forall a | 0 <= a < |below| ensures here[a] != [i] {
        PathsFromComplete(f[i].children, 0, below[a]);
      }
      forall a | 0 <= a < |later| ensures IsPath(f, later[a]) && later[a][0] > i {
        PathsFromComplete(f, i + 1, later[a]);
      }
      assert forall a | 0 <= a < |here| :: here[a][0] == i;
    }
  }

  // ---- Matching -------------------------------------------------------------------------------

  /** Elements before index `i` with the type `tag`. */
  function TypeCount(siblings: Forest, i: nat, tag: string): nat
    requires i <= |siblings|
  {
    if i == 0 then 0 else TypeCount(siblings, i - 1, tag) + (if siblings[i - 1].tag == tag then 1 else 0)
  }

  predicate MatchesCompound(siblings: Forest, i: nat, c: Compound)
    requires i < |siblings|
  {
    var e := siblings[i];
    match c
    case ByAttribute(tag, name, value) => e.tag == tag && name in e.attributes && e.attributes[name] == value
    case ById(id) => e.id == id
    case ByClass(tag, class_) => e.tag == tag && class_ in e.classes
    case ByTag(tag) => e.tag == tag
    case ByPosition(tag, nth) => e.tag == tag && TypeCount(siblings, i, tag) + 1 == nth
  }

  /** `q` leads from a child of the node with children `f` down a chain of elements, one per compound. */
  predicate Below(f: Forest, chain: Chain, q: Path)
    decreases |q|
  {
    && |q| == |chain| && |q| > 0
    && q[0] < |f| && MatchesCompound(f, q[0], chain[0])
    && (|q| > 1 ==> Below(f[q[0]].children, chain[1..], q[1..]))
  }

  lemma {:induction false} BelowIsPath(f: Forest, chain: Chain, q: Path)
    requires Below(f, chain, q)
    ensures IsPath(f, q)
    decreases |q|
  {
    if |q| > 1 {
      BelowIsPath(f[q[0]].children, chain[1..], q[1..]);
    }
  }

  /** Whether the chain matches anything, starting at the children of a node. */
  predicate HasMatchBelow(f: Forest, chain: Chain)
    requires |chain| > 0
    decreases |chain|
  {
    exists i | 0 <= i < |f| ::
      MatchesCompound(f, i, chain[0]) && (|chain| > 1 ==> HasMatchBelow(f[i].children, chain[1..]))
  }

  lemma {:induction false} MatchIsFound(f: Forest, chain: Chain, q: Path)
    requires Below(f, chain, q)
    ensures HasMatchBelow(f, chain)
    decreases |chain|
  {
    if |chain| > 1 {
      MatchIsFound(f[q[0]].children, chain[1..], q[1..]);
    }
    var i: int := q[0];
    assert 0 <= i < |f| && MatchesCompound(f, i, chain[0]);
  }

  lemma {:induction false} FoundIsMatch(f: Forest, chain: Chain) returns (q: Path)
    requires |chain| > 0 && HasMatchBelow(f, chain)
    ensures Below(f, chain, q)
    decreases |chain|
  {
    var i :| 0 <= i < |f| && MatchesCompound(f, i, chain[0])
             && (|chain| > 1 ==> HasMatchBelow(f[i].children, chain[1..]));
    if |chain| == 1 {
      q := [i];
    } else {
      var rest := FoundIsMatch(f[i].children, chain[1..]);
      q := [i] + rest;
      assert q[1..] == rest;
    }
  }

  /** The element at `p` matches the chain, wherever the chain starts. */
  predicate MatchesAnywhere(f: Forest, chain: Chain, p: Path) {
    && IsPath(f, p)
    && 0 < |chain| <= |p|
    && var n := |p| - |chain|;
       (n == 0 || IsPath(f, p[..n])) && Below(ChildrenAt(f, p[..n]), chain, p[n..])
  }

  function Matching(f: Forest, chain: Chain, paths: seq<Path>): seq<Path> {
    if paths == [] then []
    else (if MatchesAnywhere(f, chain, paths[0]) then [paths[0]] else []) + Matching(f, chain, paths[1..])
  }

  /** `querySelectorAll` */
  function QueryAll(f: Forest, chain: Chain): seq<Path> {
    Matching(f, chain, AllPaths(f))
  }

  lemma {:induction false} MatchingIff(f: Forest, chain: Chain, paths: seq<Path>, p: Path)
    ensures p in Matching(f, chain, paths) <==> p in paths && MatchesAnywhere(f, chain, p)
    decreases |paths|
  {
    if paths != [] {
      MatchingIff(f, chain, paths[1..], p);
      assert paths == [paths[0]] + paths[1..];
    }
  }

  lemma QueryAllIff(f: Forest, chain: Chain, p: Path)
    ensures p in QueryAll(f, chain) <==> MatchesAnywhere(f, chain, p)
  {
    MatchingIff(f, chain, AllPaths(f), p);
    PathsFromComplete(f, 0, p);
  }

  lemma {:induction false} MatchingDistinct(f: Forest, chain: Chain, paths: seq<Path>)
    requires Distinct(paths)
    ensures Distinct(Matching(f, chain, paths))
    decreases |paths|
  {
    if paths != [] {
      var rest := Matching(f, chain, paths[1..]);
      MatchingDistinct(f, chain, paths[1..]);
      forall k | 0 <= k < |rest| ensures rest[k] != paths[0] {
        MatchingIff(f, chain, paths[1..], rest[k]);
        assert rest[k] in rest;
      }
    }
  }

  /** A query lists every match once. */
  lemma QueryAllDistinct(f: Forest, chain: Chain)
    ensures Distinct(QueryAll(f, chain))
  {
    PathsFromDistinct(f, 0);
    MatchingDistinct(f, chain, AllPaths(f));
  }
}
