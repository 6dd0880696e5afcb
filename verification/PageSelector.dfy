/**
 The structural selector an element falls back to when its attributes do not
 single it out: a child path of nth-of-type steps from the root. An element is
 its path of child positions from the root.
 */
module PageSelector {
  datatype Element = Element(tag: string, children: seq<Element>)

  type Path = seq<nat>

  /** One compound selector, tag:nth-of-type(index). */
  datatype Part = Part(tag: string, index: nat)

  datatype Selector = Candidate | Structural(parts: seq<Part>)

  predicate ValidPath(root: Element, path: Path)
    decreases |path|, 0
  {
    path == [] || (ValidPath(root, path[..|path| - 1]) &&
                   path[|path| - 1] < |NodeAt(root, path[..|path| - 1]).children|)
  }

  function NodeAt(root: Element, path: Path): Element
    requires ValidPath(root, path)
    decreases |path|, 1
  {
    if path == [] then root else NodeAt(root, path[..|path| - 1]).children[path[|path| - 1]]
  }

  /** How many of the elements carry the tag. */
  function CountTag(elements: seq<Element>, tag: string): nat {
    if elements == [] then 0
    else CountTag(elements[..|elements| - 1], tag) + if elements[|elements| - 1].tag == tag then 1 else 0
  }

  /** One more than the number of preceding siblings with the same tag: section 6.6.5.4 of Selectors Level 3. */
  function TypeIndex(children: seq<Element>, position: nat): nat
    requires position < |children|
  {
    CountTag(children[..position], children[position].tag) + 1
  }

  /** `rootMatches` says whether an element without a parent can be nth-of-type(1). */
  predicate MatchesPart(root: Element, part: Part, e: Path, rootMatches: bool)
    requires ValidPath(root, e)
  {
    NodeAt(root, e).tag == part.tag &&
    if e == [] then rootMatches && part.index == 1
    else TypeIndex(NodeAt(root, e[..|e| - 1]).children, e[|e| - 1]) == part.index
  }

  /** The last part matches the element and the parts before it match its parent: section 8.2 of Selectors Level 3. */
  predicate Matches(root: Element, parts: seq<Part>, e: Path, rootMatches: bool)
    requires ValidPath(root, e)
    decreases |parts|
  {
    parts != [] && MatchesPart(root, parts[|parts| - 1], e, rootMatches) &&
    (|parts| == 1 || (e != [] && Matches(root, parts[..|parts| - 1], e[..|e| - 1], rootMatches)))
  }

  function PartOf(root: Element, path: Path): Part
    requires ValidPath(root, path)
  {
    Part(NodeAt(root, path).tag,
         if path == [] then 1 else TypeIndex(NodeAt(root, path[..|path| - 1]).children, path[|path| - 1]))
  }

  /** The steps from the root down to the element. */
  function PartsOf(root: Element, path: Path): (parts: seq<Part>)
    requires ValidPath(root, path)
    ensures |parts| == |path| + 1
    decreases |path|
  {
    (if path == [] then [] else PartsOf(root, path[..|path| - 1])) + [PartOf(root, path)]
  }

  ghost predicate RootTagIsUnique(root: Element) {
    forall e :: ValidPath(root, e) && e != [] ==> NodeAt(root, e).tag != root.tag
  }

  lemma {:induction false} CountTagGrows(elements: seq<Element>, tag: string, i: nat, j: nat)
    requires i < j <= |elements| && elements[i].tag == tag
    ensures CountTag(elements[..i], tag) < CountTag(elements[..j], tag)
  {
    assert elements[..j][..j - 1] == elements[..j - 1];
    if i < j - 1 { CountTagGrows(elements, tag, i, j - 1); }
  }

  /** The type index counts from 1: the child itself and every sibling before it with its tag. */
  lemma {:induction false} TypeIndexIs(children: seq<Element>, position: nat)
    requires position < |children|
    ensures TypeIndex(children, position) == |set j: nat | j <= position && children[j].tag == children[position].tag|
  {
    var tag := children[position].tag;
    CountTagIs(children[..position], tag);
    var before := set j: nat | j < position && children[..position][j].tag == tag;
    assert (set j: nat | j <= position && children[j].tag == tag) == before + {position};
  }

  lemma {:induction false} CountTagIs(elements: seq<Element>, tag: string)
    ensures CountTag(elements, tag) == |set j: nat | j < |elements| && elements[j].tag == tag|
  {
    if elements != [] {
      var n := |elements| - 1;
      CountTagIs(elements[..n], tag);
      assert CountTag(elements, tag) == CountTag(elements[..n], tag) + if elements[n].tag == tag then 1 else 0;
      hide CountTag;
      OneMoreTagged(elements[..n], elements[n], tag);
      assert elements[..n] + [elements[n]] == elements;
    }
  }

  lemma OneMoreTagged(init: seq<Element>, last: Element, tag: string)
    ensures |set j: nat | j < |init + [last]| && (init + [last])[j].tag == tag|
      == |set j: nat | j < |init| && init[j].tag == tag| + if last.tag == tag then 1 else 0
  {
    var before := set j: nat | j < |init| && init[j].tag == tag;
    assert (set j: nat | j < |init + [last]| && (init + [last])[j].tag == tag)
      == before + if last.tag == tag then {|init|} else {};
  }

  /** Two children of one parent with the same tag and the same index are the same child. */
  lemma {:induction false} TypeIndexIsInjective(children: seq<Element>, i: nat, j: nat)
    requires i < |children| && j < |children| && children[i].tag == children[j].tag
    requires TypeIndex(children, i) == TypeIndex(children, j)
    ensures i == j
  {
    if i < j { CountTagGrows(children, children[i].tag, i, j); }
    if j < i { CountTagGrows(children, children[j].tag, j, i); }
  }

  lemma {:induction false} MatchesStep(root: Element, path: Path, e: Path, rootMatches: bool)
    requires ValidPath(root, path) && ValidPath(root, e) && path != []
    ensures Matches(root, PartsOf(root, path), e, rootMatches) <==>
      (MatchesPart(root, PartOf(root, path), e, rootMatches) && e != [] &&
       Matches(root, PartsOf(root, path[..|path| - 1]), e[..|e| - 1], rootMatches))
  {
    var parts := PartsOf(root, path);
    assert parts[..|parts| - 1] == PartsOf(root, path[..|path| - 1]) && parts[|parts| - 1] == PartOf(root, path);
    hide MatchesPart, PartOf, NodeAt;
  }

  /** Below one parent, only the element itself matches its own step. */
  lemma {:induction false} StepIsExact(root: Element, path: Path, e: Path, rootMatches: bool)
    requires ValidPath(root, path) && ValidPath(root, e) && path != [] && e != [] && e[..|e| - 1] == path[..|path| - 1]
    ensures MatchesPart(root, PartOf(root, path), e, rootMatches) <==> e == path
  {
    var init := path[..|path| - 1];
    assert e == init + [e[|e| - 1]] && path == init + [path[|path| - 1]];
    var children := NodeAt(root, init).children;
    assert NodeAt(root, e) == children[e[|e| - 1]] && NodeAt(root, path) == children[path[|path| - 1]];
    hide TypeIndex, NodeAt;
    if MatchesPart(root, PartOf(root, path), e, rootMatches) {
      TypeIndexIsInjective(children, e[|e| - 1], path[|path| - 1]);
    }
  }

  lemma {:induction false} RootSelectsRoot(root: Element, e: Path, rootMatches: bool)
    requires RootTagIsUnique(root) && ValidPath(root, e)
    ensures Matches(root, PartsOf(root, []), e, rootMatches) <==> rootMatches && e == []
  {
    assert PartsOf(root, []) == [Part(root.tag, 1)];
  }

  /**
   If the root's tag occurs nowhere else, the path selects its element and nothing else (nothing at all if the root
   cannot match).
   */
  lemma {:induction false} PathSelectsExactly(root: Element, path: Path, e: Path, rootMatches: bool)
    requires RootTagIsUnique(root) && ValidPath(root, path) && ValidPath(root, e)
    ensures Matches(root, PartsOf(root, path), e, rootMatches) <==> rootMatches && e == path
    decreases |path|
  {
    hide RootTagIsUnique, Matches, MatchesPart, PartsOf, NodeAt;
    if path == [] {
      RootSelectsRoot(root, e, rootMatches);
    } else {
      MatchesStep(root, path, e, rootMatches);
      if e != [] {
        PathSelectsExactly(root, path[..|path| - 1], e[..|e| - 1], rootMatches);
        if e[..|e| - 1] == path[..|path| - 1] { StepIsExact(root, path, e, rootMatches); }
      }
    }
  }

  /** Of the children with a tag that occurs, one is the first. */
  lemma {:induction false} FirstWithTag(children: seq<Element>, tag: string, k: nat) returns (i: nat)
    requires k < |children| && children[k].tag == tag
    ensures i < |children| && children[i].tag == tag && CountTag(children[..i], tag) == 0
  {
    if j :| 0 <= j < k && children[j].tag == tag {
      i := FirstWithTag(children, tag, j);
    } else {
      NoneMeansZero(children[..k], tag);
      i := k;
    }
  }

  lemma {:induction false} NoneMeansZero(elements: seq<Element>, tag: string)
    requires forall k :: 0 <= k < |elements| ==> elements[k].tag != tag
    ensures CountTag(elements, tag) == 0
  {
    if elements != [] { NoneMeansZero(elements[..|elements| - 1], tag); }
  }

  /** The structural path of one element also selects another. */
  predicate Confuses(root: Element, path: Path, other: Path) {
    ValidPath(root, path) && ValidPath(root, other) && other != path && Matches(root, PartsOf(root, path), other, true)
  }

  /** Structural paths never confuse two elements exactly when the root's tag occurs only at the root. */
  lemma {:induction false} PathsAreUniqueIff(root: Element)
    ensures (forall path: Path, other: Path :: !Confuses(root, path, other)) <==> RootTagIsUnique(root)
  {
    if RootTagIsUnique(root) {
      forall path: Path, other: Path ensures !Confuses(root, path, other) {
        if ValidPath(root, path) && ValidPath(root, other) { PathSelectsExactly(root, path, other, true); }
      }
    } else {
      var e :| ValidPath(root, e) && e != [] && NodeAt(root, e).tag == root.tag;
      var parent := e[..|e| - 1];
      var children := NodeAt(root, parent).children;
      assert children[e[|e| - 1]].tag == root.tag;
      var position := FirstWithTag(children, root.tag, e[|e| - 1]);
      var first := parent + [position];
      assert first[..|first| - 1] == parent;
      assert PartsOf(root, []) == [Part(root.tag, 1)];
      assert Confuses(root, [], first);
    }
  }

  /** The positions of the children with this tag. */
  function SameTag(children: seq<Element>, tag: string): (positions: seq<nat>)
    ensures |positions| == CountTag(children, tag)
    ensures forall i :: 0 <= i < |positions| ==> positions[i] < |children|
  {
    if children == [] then []
    else
      var n := |children| - 1;
      SameTag(children[..n], tag) + if children[n].tag == tag then [n] else []
  }

  lemma {:induction false} PlaceAmongSameTag(children: seq<Element>, position: nat)
    requires position < |children|
    ensures var same, k := SameTag(children, children[position].tag), TypeIndex(children, position) - 1;
      k < |same| && same[k] == position && forall i :: 0 <= i < k ==> same[i] != position
  {
    var n := |children| - 1;
    var tag := children[position].tag;
    var earlier := SameTag(children[..n], tag);
    if position < n {
      PlaceAmongSameTag(children[..n], position);
      assert children[..n][..position] == children[..position];
    } else {
      assert children[..position] == children[..n];
      assert SameTag(children, tag) == earlier + [n] && |earlier| == TypeIndex(children, position) - 1;
    }
  }

  method IndexOf(positions: seq<nat>, position: nat) returns (index: nat)
    requires position in positions
    ensures index < |positions| && positions[index] == position
    ensures forall i :: 0 <= i < index ==> positions[i] != position
  {
    index := 0;
    while positions[index] != position
      invariant index < |positions|
      invariant forall i :: 0 <= i < index ==> positions[i] != position
      decreases |positions| - index
    {
      index := index + 1;
    }
  }

  /** The path position of an element among its siblings of the same tag, found by search. */
  method PartAt(root: Element, node: Path) returns (part: Part)
    requires ValidPath(root, node)
    ensures part == PartOf(root, node)
  {
    var index := 1;
    if node != [] {
      var parent, position := NodeAt(root, node[..|node| - 1]), node[|node| - 1];
      var siblings := SameTag(parent.children, NodeAt(root, node).tag);
      PlaceAmongSameTag(parent.children, position);
      var k := IndexOf(siblings, position);
      index := k + 1;
    }
    part := Part(NodeAt(root, node).tag, index);
  }

  /** `matched` is what the candidate selects in the document. */
  function Chosen(root: Element, path: Path, matched: set<Path>): Selector
    requires ValidPath(root, path)
  {
    if |matched| == 1 then Candidate else Structural(PartsOf(root, path))
  }

  predicate Selects(root: Element, selector: Selector, matched: set<Path>, e: Path)
    requires ValidPath(root, e)
  {
    match selector
    case Candidate => e in matched
    case Structural(parts) => Matches(root, parts, e, true)
  }

  function Above(root: Element, node: Path): seq<Part>
    requires ValidPath(root, node)
  {
    if node == [] then [] else PartsOf(root, node[..|node| - 1])
  }

  lemma {:induction false} AboveStep(root: Element, node: Path, parts: seq<Part>)
    requires ValidPath(root, node) && node != []
    ensures var parent := node[..|node| - 1];
      Above(root, node) + parts == Above(root, parent) + ([PartOf(root, parent)] + parts)
  {
  }

  /** The candidate if it matches one element, otherwise the path found by walking from the element up to the root. */
  method UniqueSelectorFor(root: Element, path: Path, matched: set<Path>) returns (selector: Selector)
    requires ValidPath(root, path)
    ensures selector == Chosen(root, path, matched)
  {
    if |matched| == 1 { return Candidate; }
    var node := path;
    var first := PartAt(root, node);
    var parts := [first];
    while node != []
      invariant ValidPath(root, node)
      invariant Above(root, node) + parts == PartsOf(root, path)
      decreases |node|
    {
      AboveStep(root, node, parts);
      hide NodeAt, PartOf, Above, PartsOf;
      node := node[..|node| - 1];
      var part := PartAt(root, node);
      parts := [part] + parts;
    }
    selector := Structural(parts);
  }

  lemma OnlyOne(matched: set<Path>, path: Path)
    requires |matched| == 1 && path in matched
    ensures matched == {path}
  {
    assert |matched - {path}| == 0;
  }

  /** What is chosen selects the element alone, if the candidate matches the element it was built from. */
  lemma {:induction false} ChosenSelectorIsExact(root: Element, path: Path, matched: set<Path>, e: Path)
    requires RootTagIsUnique(root) && ValidPath(root, path) && ValidPath(root, e) && path in matched
    ensures Selects(root, Chosen(root, path, matched), matched, e) <==> e == path
    ensures Chosen(root, path, matched) == Candidate <==> matched == {path}
  {
    if |matched| == 1 { OnlyOne(matched, path); }
    if |matched| == 1 {
      assert |matched - {path}| == 0;
      assert e in matched && e != path ==> e in matched - {path};
    } else {
      PathSelectsExactly(root, path, e, true);
    }
  }
}
