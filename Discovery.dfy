/**
 * One discovery pass of the widget over a snapshot of the parent document:
 * locate our own iframe, collect the elements around it in proximity order,
 * pick the first textbox and the first button, and check their order.
 */
module Discovery {
  import opened Wrappers
  import opened Dom

  // ---------------------------------------------------------------------
  // Proximity collector
  // ---------------------------------------------------------------------

  /**
   * The previous siblings of child `j` of the element at `pp` (whose children
   * are `cs`), nearest first, each followed by the pre-order walk of its subtree.
   */
  function PrevSiblings(cs: seq<Element>, pp: Path, j: nat): seq<ElementRef>
    requires j <= |cs|
    decreases j
  {
    if j == 0 then [] else Walk(cs[j - 1], pp + [j - 1]) + PrevSiblings(cs, pp, j - 1)
  }

  /** `parentElement`, on paths: the root's parent is null. */
  function ParentOf(q: Path): Option<Path> {
    if |q| == 0 then None else Some(q[..|q| - 1])
  }

  lemma ParentOfValid(root: Element, q: Path)
    requires ValidPath(root, q)
    ensures ParentOf(q).Some? ==> ValidPath(root, ParentOf(q).value)
  {
    if |q| > 0 {
      ParentStep(root, q);
    }
  }

  /** What the element at `q` contributes: its previous siblings and their subtrees. */
  function Level(root: Element, q: Path): seq<ElementRef>
    requires ValidPath(root, q)
  {
    if |q| == 0 then []
    else
      ParentStep(root, q);
      PrevSiblings(NodeAt(root, q[..|q| - 1]).children, q[..|q| - 1], q[|q| - 1])
  }

  /**
   * The levels of `parent` and of each of its ancestors in turn, stopping
   * (before contributing anything) at `document.body` or past the root.
   */
  function Upward(doc: Document, parent: Option<Path>): seq<ElementRef>
    requires parent.Some? ==> ValidPath(doc.root, parent.value)
    decreases if parent.Some? then |parent.value| + 1 else 0
  {
    if parent.None? || parent == doc.body then []
    else
      ParentOfValid(doc.root, parent.value);
      Level(doc.root, parent.value) + Upward(doc, ParentOf(parent.value))
  }

  /**
   * The candidate list built for the iframe at `p`: the iframe's own previous
   * siblings, then those of each ancestor strictly below `body`. This is
   * proximity order (nearest first), not document order.
   */
  function Candidates(doc: Document, p: Path): seq<ElementRef>
    requires ValidPath(doc.root, p)
  {
    ParentOfValid(doc.root, p);
    Level(doc.root, p) + Upward(doc, ParentOf(p))
  }

  /** `collectElementsInOrder`: push the element, then recurse into each child in order. */
  method CollectElementsInOrder(element: Element, at: Path, collection: seq<ElementRef>)
    returns (result: seq<ElementRef>)
    ensures result == collection + Walk(element, at)
    decreases element
  {
    result := collection + [ElementRef(at, element)];
    var children := element.children;
    for i := 0 to |children|
      invariant result == collection + [ElementRef(at, element)] + WalkChildren(children, at, i)
    {
      result := CollectElementsInOrder(children[i], at + [i], result);
    }
  }

  /**
   * The `previousElementSibling` loop: starting from the element at `q`, collect
   * each earlier sibling, nearest first. `k` stands for the current sibling,
   * child `k - 1` of the parent; `k == 0` is null.
   */
  method CollectPreviousSiblings(root: Element, q: Path, collection: seq<ElementRef>)
    returns (result: seq<ElementRef>)
    requires ValidPath(root, q)
    ensures result == collection + Level(root, q)
  {
    result := collection;
    if |q| == 0 {
      return;
    }
    ParentStep(root, q);
    var pp := q[..|q| - 1];
    var cs := NodeAt(root, pp).children;
    var k: nat := q[|q| - 1];
    while k > 0
      invariant k <= q[|q| - 1]
      invariant result + PrevSiblings(cs, pp, k) == collection + PrevSiblings(cs, pp, q[|q| - 1])
    {
      k := k - 1;
      result := CollectElementsInOrder(cs[k], pp + [k], result);
    }
  }

  /** One step up: a level below `body` contributes itself, then the walk goes on from its parent. */
  lemma UpwardStep(doc: Document, q: Path)
    requires ValidPath(doc.root, q) && Some(q) != doc.body
    ensures ParentOf(q).Some? ==> ValidPath(doc.root, ParentOf(q).value)
    ensures Upward(doc, Some(q)) == Level(doc.root, q) + Upward(doc, ParentOf(q))
  {
    ParentOfValid(doc.root, q);
  }

  /** `findElementsBeforeIframe`, the collecting half: the iframe's siblings, then each ancestor's below `body`. */
  method CollectCandidates(doc: Document, p: Path) returns (elementsBeforeIframe: seq<ElementRef>)
    requires ValidPath(doc.root, p)
    ensures elementsBeforeIframe == Candidates(doc, p)
  {
    elementsBeforeIframe := CollectPreviousSiblings(doc.root, p, []);
    ParentOfValid(doc.root, p);
    var parent := ParentOf(p);
    while parent.Some? && parent != doc.body
      invariant parent.Some? ==> ValidPath(doc.root, parent.value)
      invariant elementsBeforeIframe + Upward(doc, parent) == Candidates(doc, p)
      decreases if parent.Some? then |parent.value| + 1 else 0
    {
      var q := parent.value;
      UpwardStep(doc, q);
      ghost var before := elementsBeforeIframe;
      elementsBeforeIframe := CollectPreviousSiblings(doc.root, q, elementsBeforeIframe);
      assert elementsBeforeIframe + Upward(doc, ParentOf(q)) == before + Upward(doc, parent);
      parent := ParentOf(q);
    }
  }

  // ---------------------------------------------------------------------
  // Properties of the candidate list
  // ---------------------------------------------------------------------

  lemma {:induction false} PrevSiblingsLeftOf(root: Element, pp: Path, j: nat, p: Path)
    requires ValidPath(root, pp) && j <= |NodeAt(root, pp).children|
    requires |pp| < |p| && p[..|pp|] == pp && j <= p[|pp|]
    ensures forall r :: r in PrevSiblings(NodeAt(root, pp).children, pp, j) ==>
      Located(root, r) && LeftOf(r.path, p) && pp <= r.path
    decreases j
  {
    var cs := NodeAt(root, pp).children;
    if j > 0 {
      PrevSiblingsLeftOf(root, pp, j - 1, p);
      ChildStep(root, pp, j - 1);
      WalkLocated(root, cs[j - 1], pp + [j - 1]);
      forall r | r in Walk(cs[j - 1], pp + [j - 1])
        ensures LeftOf(r.path, p) && pp <= r.path
      {
        var k := |pp|;
        assert pp + [j - 1] <= r.path;
        assert r.path[..k] == (pp + [j - 1])[..k] == pp;
        assert r.path[k] == (pp + [j - 1])[k] == j - 1;
      }
    }
  }

  lemma LevelLeftOf(root: Element, q: Path, p: Path)
    requires ValidPath(root, q) && q <= p
    ensures forall r :: r in Level(root, q) ==>
      Located(root, r) && LeftOf(r.path, p) && (|q| > 0 ==> q[..|q| - 1] <= r.path)
  {
    if |q| > 0 {
      ParentStep(root, q);
      var pp := q[..|q| - 1];
      assert p[..|pp|] == pp;
      assert p[|pp|] == q[|q| - 1];
      PrevSiblingsLeftOf(root, pp, q[|q| - 1], p);
    }
  }

  lemma {:induction false} UpwardLeftOf(doc: Document, parent: Option<Path>, p: Path)
    requires parent.Some? ==> ValidPath(doc.root, parent.value) && parent.value <= p
    ensures forall r :: r in Upward(doc, parent) ==> Located(doc.root, r) && LeftOf(r.path, p)
    decreases if parent.Some? then |parent.value| + 1 else 0
  {
    if parent.Some? && parent != doc.body {
      var q := parent.value;
      ParentOfValid(doc.root, q);
      LevelLeftOf(doc.root, q, p);
      if |q| > 0 {
        assert q[..|q| - 1] <= p;
      }
      UpwardLeftOf(doc, ParentOf(q), p);
    }
  }

  /**
   * Every candidate is an element of the document that comes before the
   * iframe in document order and is not one of its ancestors; in particular
   * the iframe itself, its ancestors and (when it contains the iframe) `body`
   * never appear.
   */
  lemma CandidatesBeforeIframe(doc: Document, p: Path)
    requires ValidPath(doc.root, p)
    ensures forall r :: r in Candidates(doc, p) ==>
      Located(doc.root, r) && LeftOf(r.path, p) && !(r.path <= p)
  {
    ParentOfValid(doc.root, p);
    LevelLeftOf(doc.root, p, p);
    if |p| > 0 {
      assert p[..|p| - 1] <= p;
    }
    UpwardLeftOf(doc, ParentOf(p), p);
    forall r | r in Candidates(doc, p)
      ensures !(r.path <= p)
    {
      LeftOfIsNotAncestor(r.path, p);
    }
  }

  lemma {:induction false} UpwardInsideBody(doc: Document, parent: Option<Path>, b: Path)
    requires doc.body == Some(b)
    requires parent.Some? ==> ValidPath(doc.root, parent.value) && b <= parent.value
    ensures forall r :: r in Upward(doc, parent) ==> b <= r.path && r.path != b
    decreases if parent.Some? then |parent.value| + 1 else 0
  {
    if parent.Some? && parent != doc.body {
      var q := parent.value;
      assert q != b && b == q[..|b|] && q[..|q|] == q;
      assert |b| == |q| ==> b == q;
      ParentOfValid(doc.root, q);
      LevelLeftOf(doc.root, q, q);
      var pq := q[..|q| - 1];
      assert |b| < |q| && pq[..|b|] == q[..|b|];
      assert b <= pq;
      forall r | r in Level(doc.root, q)
        ensures b <= r.path && r.path != b
      {
        assert pq <= r.path;
        LeftOfIsNotAncestor(r.path, q);
      }
      UpwardInsideBody(doc, ParentOf(q), b);
    }
  }

  /**
   * When `body` contains the iframe, the walk upward stops there: every
   * candidate lies strictly inside `body`.
   */
  lemma CandidatesInsideBody(doc: Document, p: Path, b: Path)
    requires ValidPath(doc.root, p) && doc.body == Some(b) && b <= p && b != p
    ensures forall r :: r in Candidates(doc, p) ==> b <= r.path && r.path != b
  {
    ParentOfValid(doc.root, p);
    LevelLeftOf(doc.root, p, p);
    var pp := p[..|p| - 1];
    assert b <= pp;
    forall r | r in Level(doc.root, p)
      ensures b <= r.path && r.path != b
    {
      assert pp <= r.path;
      LeftOfIsNotAncestor(r.path, p);
    }
    UpwardInsideBody(doc, ParentOf(p), b);
  }

  /**
   * The list begins with the iframe's nearest previous sibling followed by
   * that sibling's subtree.
   */
  lemma CandidatesStartWithNearestSibling(doc: Document, p: Path)
    requires ValidPath(doc.root, p) && |p| > 0 && p[|p| - 1] > 0
    ensures ValidPath(doc.root, p[..|p| - 1] + [p[|p| - 1] - 1])
    ensures |Candidates(doc, p)| >= Size(NodeAt(doc.root, p[..|p| - 1] + [p[|p| - 1] - 1]))
    ensures var s := p[..|p| - 1] + [p[|p| - 1] - 1];
      Candidates(doc, p)[..Size(NodeAt(doc.root, s))] == Walk(NodeAt(doc.root, s), s)
  {
    ParentStep(doc.root, p);
    var pp := p[..|p| - 1];
    var j := p[|p| - 1] - 1;
    ChildStep(doc.root, pp, j);
    var s := pp + [j];
    WalkShape(NodeAt(doc.root, s), s);
  }

  // ---------------------------------------------------------------------
  // Completeness and distinctness of the candidate list
  // ---------------------------------------------------------------------

  lemma {:induction false} PrevSiblingsContains(cs: seq<Element>, pp: Path, j: nat, i: nat)
    requires i < j <= |cs|
    ensures forall r :: r in Walk(cs[i], pp + [i]) ==> r in PrevSiblings(cs, pp, j)
    decreases j
  {
    if i < j - 1 {
      PrevSiblingsContains(cs, pp, j - 1, i);
    }
  }

  /** Every element in the subtree of an earlier sibling of `q` is in `q`'s level. */
  lemma LevelContains(root: Element, q: Path, r: ElementRef)
    requires ValidPath(root, q) && |q| > 0 && Located(root, r) && |q| <= |r.path|
    requires r.path[..|q| - 1] == q[..|q| - 1] && r.path[|q| - 1] < q[|q| - 1]
    ensures r in Level(root, q)
  {
    ParentStep(root, q);
    var pp := q[..|q| - 1];
    var i := r.path[|q| - 1];
    var cs := NodeAt(root, pp).children;
    ChildStep(root, pp, i);
    assert r.path[..|q|] == pp + [i];
    WalkComplete(root, cs[i], pp + [i], r);
    PrevSiblingsContains(cs, pp, q[|q| - 1], i);
  }

  /** Walking up from `x`, the level of the ancestor `q` is reached when no `body` lies on the way. */
  lemma {:induction false} UpwardReaches(doc: Document, x: Path, q: Path, r: ElementRef)
    requires ValidPath(doc.root, x) && ValidPath(doc.root, q) && q <= x
    requires forall j :: |q| <= j <= |x| ==> Some(x[..j]) != doc.body
    requires r in Level(doc.root, q)
    ensures r in Upward(doc, Some(x))
    decreases |x|
  {
    assert x[..|x|] == x;
    UpwardStep(doc, x);
    if |x| > |q| {
      var y := x[..|x| - 1];
      assert q <= y;
      forall j | |q| <= j <= |y|
        ensures Some(y[..j]) != doc.body
      {
        assert y[..j] == x[..j];
      }
      UpwardReaches(doc, y, q, r);
    } else {
      assert x == q;
    }
  }

  /**
   * The converse of `CandidatesBeforeIframe`: every element before the iframe
   * in document order that is not an ancestor of it is a candidate, unless it
   * lies outside a `body` that contains the iframe.
   */
  lemma CandidatesCover(doc: Document, p: Path, r: ElementRef)
    requires ValidPath(doc.root, p) && Located(doc.root, r) && LeftOf(r.path, p)
    requires doc.body.Some? && doc.body.value <= p && doc.body.value != p ==>
      doc.body.value <= r.path
    ensures r in Candidates(doc, p)
  {
    var k :| 0 <= k < |r.path| && k < |p| && r.path[..k] == p[..k] && r.path[k] < p[k];
    var q := p[..k + 1];
    PrefixValid(doc.root, p, k + 1);
    assert q[..k] == p[..k] && q[k] == p[k];
    LevelContains(doc.root, q, r);
    ParentOfValid(doc.root, p);
    if k + 1 < |p| {
      var x := p[..|p| - 1];
      NoBodyBetween(doc, p, x, r, k);
      UpwardReaches(doc, x, q, r);
    } else {
      assert q == p;
    }
  }

  /** No `body` containing the iframe lies strictly between it and the level where `r` branches off. */
  lemma NoBodyBetween(doc: Document, p: Path, x: Path, r: ElementRef, k: nat)
    requires k + 1 < |p| && x == p[..|p| - 1] && k < |r.path| && r.path[k] < p[k]
    requires doc.body.Some? && doc.body.value <= p && doc.body.value != p ==>
      doc.body.value <= r.path
    ensures p[..k + 1] <= x
    ensures forall j :: k + 1 <= j <= |x| ==> Some(x[..j]) != doc.body
  {
    forall j | k + 1 <= j <= |x|
      ensures Some(x[..j]) != doc.body
    {
      assert x[..j] == p[..j] && p[..j] <= p && |p[..j]| < |p|;
      assert p[..j][k] == p[k] != r.path[k];
    }
  }

  lemma {:induction false} PrevSiblingsPaths(cs: seq<Element>, pp: Path, j: nat)
    requires j <= |cs|
    ensures forall r :: r in PrevSiblings(cs, pp, j) ==>
      |pp| < |r.path| && pp <= r.path && r.path[|pp|] < j
    decreases j
  {
    if j > 0 {
      PrevSiblingsPaths(cs, pp, j - 1);
      WalkPaths(cs[j - 1], pp + [j - 1]);
      forall r | r in Walk(cs[j - 1], pp + [j - 1])
        ensures |pp| < |r.path| && pp <= r.path && r.path[|pp|] < j
      {
        assert pp + [j - 1] <= r.path;
        assert r.path[..|pp|] == (pp + [j - 1])[..|pp|] == pp;
        assert r.path[|pp|] == (pp + [j - 1])[|pp|];
      }
    }
  }

  lemma {:induction false} PrevSiblingsDistinct(cs: seq<Element>, pp: Path, j: nat)
    requires j <= |cs|
    ensures DistinctPaths(PrevSiblings(cs, pp, j))
    decreases j
  {
    if j > 0 {
      PrevSiblingsDistinct(cs, pp, j - 1);
      WalkDistinct(cs[j - 1], pp + [j - 1]);
      PrevSiblingsPaths(cs, pp, j - 1);
      WalkPaths(cs[j - 1], pp + [j - 1]);
      forall x, y | x in Walk(cs[j - 1], pp + [j - 1]) && y in PrevSiblings(cs, pp, j - 1)
        ensures x.path != y.path
      {
        assert pp + [j - 1] <= x.path;
        assert x.path[|pp|] == (pp + [j - 1])[|pp|];
      }
      ConcatDistinct(Walk(cs[j - 1], pp + [j - 1]), PrevSiblings(cs, pp, j - 1));
    }
  }

  /** A level, followed by anything left of the parent of `q`, repeats no element. */
  lemma LevelThenLeftOfParent(root: Element, q: Path, rest: seq<ElementRef>)
    requires ValidPath(root, q) && |q| > 0
    requires forall y :: y in rest ==> LeftOf(y.path, q[..|q| - 1])
    requires DistinctPaths(rest)
    ensures DistinctPaths(Level(root, q) + rest)
  {
    ParentStep(root, q);
    var pp := q[..|q| - 1];
    var cs := NodeAt(root, pp).children;
    PrevSiblingsDistinct(cs, pp, q[|q| - 1]);
    PrevSiblingsPaths(cs, pp, q[|q| - 1]);
    forall x, y | x in Level(root, q) && y in rest
      ensures x.path != y.path
    {
      LeftOfIsNotDescendant(y.path, pp);
    }
    ConcatDistinct(Level(root, q), rest);
  }

  lemma {:induction false} UpwardDistinct(doc: Document, parent: Option<Path>)
    requires parent.Some? ==> ValidPath(doc.root, parent.value)
    ensures DistinctPaths(Upward(doc, parent))
    decreases if parent.Some? then |parent.value| + 1 else 0
  {
    if parent.Some? && parent != doc.body {
      var q := parent.value;
      UpwardStep(doc, q);
      UpwardDistinct(doc, ParentOf(q));
      if |q| > 0 {
        UpwardLeftOf(doc, ParentOf(q), q[..|q| - 1]);
        LevelThenLeftOfParent(doc.root, q, Upward(doc, ParentOf(q)));
      }
    }
  }

  /** The candidate list names each element at most once. */
  lemma CandidatesDistinct(doc: Document, p: Path)
    requires ValidPath(doc.root, p)
    ensures DistinctPaths(Candidates(doc, p))
  {
    ParentOfValid(doc.root, p);
    UpwardDistinct(doc, ParentOf(p));
    if |p| > 0 {
      UpwardLeftOf(doc, ParentOf(p), p[..|p| - 1]);
      LevelThenLeftOfParent(doc.root, p, Upward(doc, ParentOf(p)));
    }
  }

  // ---------------------------------------------------------------------
  // Classifier
  // ---------------------------------------------------------------------

  datatype Role = Textbox | Button

  /**
   * A qualifying textbox is an INPUT or TEXTAREA whose type is none of
   * hidden/button/submit; a qualifying button is a BUTTON, or an INPUT of
   * type button or submit.
   */
  predicate Qualifies(e: Element, role: Role) {
    match role
    case Textbox =>
      (e.tagName == "INPUT" || e.tagName == "TEXTAREA")
      && e.typ != "hidden" && e.typ != "button" && e.typ != "submit"
    case Button =>
      e.tagName == "BUTTON" || (e.tagName == "INPUT" && (e.typ == "button" || e.typ == "submit"))
  }

  /**
   * An INPUT is exactly one of: ignored (type hidden), a button (type button
   * or submit), or a textbox (any other type); a BUTTON is always a button
   * and never a textbox.
   */
  lemma InputRoles(e: Element)
    ensures e.tagName == "INPUT" ==>
      (Qualifies(e, Button) <==> e.typ == "button" || e.typ == "submit")
      && (Qualifies(e, Textbox) <==> e.typ != "hidden" && !Qualifies(e, Button))
    ensures e.tagName == "BUTTON" ==> Qualifies(e, Button) && !Qualifies(e, Textbox)
  {
  }

  /** No element is both a qualifying textbox and a qualifying button. */
  lemma RolesDisjoint(e: Element)
    ensures !(Qualifies(e, Textbox) && Qualifies(e, Button))
  {
  }

  /** The index of the first element of `s` that qualifies for `role`, if any. */
  function FirstIndex(s: seq<ElementRef>, role: Role): (r: Option<nat>)
    ensures r.Some? ==> r.value < |s| && Qualifies(s[r.value].element, role)
    ensures r.Some? ==> forall j :: 0 <= j < r.value ==> !Qualifies(s[j].element, role)
    ensures r.None? ==> forall j :: 0 <= j < |s| ==> !Qualifies(s[j].element, role)
  {
    if |s| == 0 then None
    else if Qualifies(s[0].element, role) then Some(0)
    else match FirstIndex(s[1..], role)
      case None => None
      case Some(k) => Some(k + 1)
  }

  /** The first-match property determines the index. */
  lemma FirstIndexUnique(s: seq<ElementRef>, role: Role, r: Option<nat>)
    requires r.Some? ==> r.value < |s| && Qualifies(s[r.value].element, role)
    requires r.Some? ==> forall j :: 0 <= j < r.value ==> !Qualifies(s[j].element, role)
    requires r.None? ==> forall j :: 0 <= j < |s| ==> !Qualifies(s[j].element, role)
    ensures r == FirstIndex(s, role)
  {
  }

  /** The first textbox and the first button are never the same candidate. */
  lemma FirstTextboxIsNotFirstButton(s: seq<ElementRef>)
    requires FirstIndex(s, Textbox).Some? && FirstIndex(s, Button).Some?
    ensures FirstIndex(s, Textbox).value != FirstIndex(s, Button).value
  {
    RolesDisjoint(s[FirstIndex(s, Textbox).value].element);
  }

  /**
   * `findElementsBeforeIframe`, the scan: one pass over the candidates; each
   * of the two results records the first qualifying index and is never
   * overwritten later.
   */
  method Classify(elementsBeforeIframe: seq<ElementRef>)
    returns (foundTextbox: Option<nat>, foundButton: Option<nat>)
    ensures foundTextbox == FirstIndex(elementsBeforeIframe, Textbox)
    ensures foundButton == FirstIndex(elementsBeforeIframe, Button)
  {
    var s := elementsBeforeIframe;
    foundTextbox, foundButton := None, None;
    for i := 0 to |s|
      invariant foundTextbox.Some? ==> foundTextbox.value < i && Qualifies(s[foundTextbox.value].element, Textbox)
      invariant foundTextbox.Some? ==> forall j :: 0 <= j < foundTextbox.value ==> !Qualifies(s[j].element, Textbox)
      invariant foundTextbox.None? ==> forall j :: 0 <= j < i ==> !Qualifies(s[j].element, Textbox)
      invariant foundButton.Some? ==> foundButton.value < i && Qualifies(s[foundButton.value].element, Button)
      invariant foundButton.Some? ==> forall j :: 0 <= j < foundButton.value ==> !Qualifies(s[j].element, Button)
      invariant foundButton.None? ==> forall j :: 0 <= j < i ==> !Qualifies(s[j].element, Button)
    {
      var el := s[i].element;
      if foundTextbox.None? && (el.tagName == "INPUT" || el.tagName == "TEXTAREA") {
        if el.typ != "hidden" && el.typ != "button" && el.typ != "submit" {
          foundTextbox := Some(i);
        }
      }
      if foundButton.None? && (el.tagName == "BUTTON" ||
          (el.tagName == "INPUT" && (el.typ == "button" || el.typ == "submit"))) {
        foundButton := Some(i);
      }
    }
    FirstIndexUnique(s, Textbox, foundTextbox);
    FirstIndexUnique(s, Button, foundButton);
  }

  // ---------------------------------------------------------------------
  // Self-locator and the outcome of a pass
  // ---------------------------------------------------------------------

  /** The index of the first iframe whose content window is `self`; iframes whose read throws are skipped. */
  function LocateSelf(iframes: seq<ElementRef>, self: WindowId): (r: Option<nat>)
    ensures r.Some? ==> r.value < |iframes| && iframes[r.value].element.frameWindow == Window(self)
    ensures r.Some? ==> forall j :: 0 <= j < r.value ==> iframes[j].element.frameWindow != Window(self)
    ensures r.None? ==> forall j :: 0 <= j < |iframes| ==> iframes[j].element.frameWindow != Window(self)
  {
    if |iframes| == 0 then None
    else if iframes[0].element.frameWindow == Window(self) then Some(0)
    else match LocateSelf(iframes[1..], self)
      case None => None
      case Some(k) => Some(k + 1)
  }

  /** `findParentElements`, the `for` loop over the parent's iframes, with its `break` and its skipped exceptions. */
  method LocateIframe(iframes: seq<ElementRef>, self: WindowId) returns (ourIframe: Option<ElementRef>)
    ensures ourIframe.None? <==> LocateSelf(iframes, self).None?
    ensures ourIframe.Some? ==> ourIframe.value == iframes[LocateSelf(iframes, self).value]
  {
    ourIframe := None;
    ghost var at: Option<nat> := None;
    for i := 0 to |iframes|
      invariant ourIframe.None? && at.None?
      invariant forall j :: 0 <= j < i ==> iframes[j].element.frameWindow != Window(self)
    {
      match iframes[i].element.frameWindow
      case Throws =>
      case Window(w) =>
        if w == self {
          ourIframe := Some(iframes[i]);
          at := Some(i);
          assert at.value < |iframes| && ourIframe.value == iframes[at.value];
          break;
        }
    }
    FirstIndexOfSelfUnique(iframes, self, at);
  }

  lemma FirstIndexOfSelfUnique(iframes: seq<ElementRef>, self: WindowId, r: Option<nat>)
    requires r.Some? ==> r.value < |iframes| && iframes[r.value].element.frameWindow == Window(self)
    requires r.Some? ==> forall j :: 0 <= j < r.value ==> iframes[j].element.frameWindow != Window(self)
    requires r.None? ==> forall j :: 0 <= j < |iframes| ==> iframes[j].element.frameWindow != Window(self)
    ensures r == LocateSelf(iframes, self)
  {
  }

  /** Reading `window.parent.document`: blocked by the same-origin policy, or granted. */
  datatype ParentAccess = Denied(reason: string) | Granted(doc: Document)

  /** How one discovery pass ends. */
  datatype PassResult =
    | AccessDenied(reason: string)
    | IframeNotFound
    | OrderingViolation
    | NoTextbox
    | NoButton(textbox: ElementRef)
    | Found(textbox: ElementRef, button: ElementRef)

  /** The outcomes after which the widget polls again. */
  predicate Retryable(r: PassResult) {
    r.IframeNotFound? || r.OrderingViolation? || r.NoTextbox? || r.NoButton?
  }

  /**
   * `findElementsBeforeIframe`, the verdict from the first textbox index `t`
   * and the first button index `b` among the candidates `c`.
   */
  function Verdict(c: seq<ElementRef>, t: Option<nat>, b: Option<nat>): (r: PassResult)
    requires t.Some? ==> t.value < |c|
    requires b.Some? ==> b.value < |c|
    ensures !r.AccessDenied? && !r.IframeNotFound?
    ensures r.OrderingViolation? <==> t.Some? && b.Some? && t.value > b.value
    ensures r.NoTextbox? <==> t.None?
    ensures r.NoButton? <==> t.Some? && b.None?
    ensures r.NoButton? ==> r.textbox == c[t.value]
    ensures r.Found? <==> t.Some? && b.Some? && t.value <= b.value
    ensures r.Found? ==> r.textbox == c[t.value] && r.button == c[b.value]
  {
    if t.Some? && b.Some? && t.value > b.value then OrderingViolation
    else if t.None? then NoTextbox
    else if b.None? then NoButton(c[t.value])
    else Found(c[t.value], c[b.value])
  }

  /** The verdict on the candidates of the iframe at `p`. */
  function Discover(doc: Document, p: Path): PassResult
    requires ValidPath(doc.root, p)
  {
    var c := Candidates(doc, p);
    Verdict(c, FirstIndex(c, Textbox), FirstIndex(c, Button))
  }

  /** What one pass of `findParentElements` concludes. */
  function Pass(access: ParentAccess, self: WindowId): PassResult {
    match access
    case Denied(reason) => AccessDenied(reason)
    case Granted(doc) =>
      var iframes := Iframes(doc);
      match LocateSelf(iframes, self)
      case None => IframeNotFound
      case Some(i) => Discover(doc, iframes[i].path)
  }

  /**
   * A pass succeeds exactly when the parent document is readable, one of its
   * iframes is ours (the first such), and among that iframe's candidates the
   * first qualifying textbox comes strictly before the first qualifying
   * button; the two found elements are then those first matches.
   */
  lemma PassFoundCharacterized(doc: Document, self: WindowId)
    ensures var r := Pass(Granted(doc), self);
      var i := LocateSelf(Iframes(doc), self);
      r.Found? <==>
        (i.Some? &&
         var c := Candidates(doc, Iframes(doc)[i.value].path);
         FirstIndex(c, Textbox).Some? && FirstIndex(c, Button).Some? &&
         FirstIndex(c, Textbox).value < FirstIndex(c, Button).value)
    ensures var r := Pass(Granted(doc), self);
      r.Found? ==>
        var p := Iframes(doc)[LocateSelf(Iframes(doc), self).value].path;
        Qualifies(r.textbox.element, Textbox) && Qualifies(r.button.element, Button) &&
        Located(doc.root, r.textbox) && Located(doc.root, r.button) &&
        LeftOf(r.textbox.path, p) && LeftOf(r.button.path, p)
  {
    var iframes := Iframes(doc);
    var i := LocateSelf(iframes, self);
    if i.Some? {
      assert iframes[i.value] in iframes;
      var p := iframes[i.value].path;
      var c := Candidates(doc, p);
      CandidatesBeforeIframe(doc, p);
      if FirstIndex(c, Textbox).Some? && FirstIndex(c, Button).Some? {
        FirstTextboxIsNotFirstButton(c);
        assert c[FirstIndex(c, Textbox).value] in c;
        assert c[FirstIndex(c, Button).value] in c;
      }
    }
  }

  /**
   * The verdict when both elements were found: accepted exactly when the
   * textbox is nearer the iframe than the button, rejected as an ordering
   * violation otherwise.
   */
  lemma DiscoverOrdering(doc: Document, p: Path)
    requires ValidPath(doc.root, p)
    requires FirstIndex(Candidates(doc, p), Textbox).Some? && FirstIndex(Candidates(doc, p), Button).Some?
    ensures var c := Candidates(doc, p);
      Discover(doc, p).Found? <==> FirstIndex(c, Textbox).value < FirstIndex(c, Button).value
    ensures var c := Candidates(doc, p);
      Discover(doc, p).OrderingViolation? <==> FirstIndex(c, Button).value < FirstIndex(c, Textbox).value
  {
    FirstTextboxIsNotFirstButton(Candidates(doc, p));
  }

  // ---------------------------------------------------------------------
  // Proximity order is not document order
  // ---------------------------------------------------------------------

  const TextInput := Element("INPUT", "text", "code", "", "", Throws, [])
  const SubmitButton := Element("BUTTON", "submit", "go", "", "", Throws, [])

  /** A page whose body holds `before` and then our iframe, as its last child. */
  function SiblingsPage(before: seq<Element>, self: WindowId): Document {
    var frame := Element("IFRAME", "", "", "", "", Window(self), []);
    Document(Element("HTML", "", "", "", "", Throws, [Element("BODY", "", "", "", "", Throws, before + [frame])]),
             Some([0]))
  }

  /** A leaf's walk is the leaf alone. */
  lemma LeafWalk(e: Element, at: Path)
    requires e.children == []
    ensures Walk(e, at) == [ElementRef(at, e)]
  {
    assert WalkChildren(e.children, at, 0) == [];
  }

  /** The candidates of the iframe on an example page: the two leaves, nearest first. */
  lemma ExampleCandidates(before: seq<Element>, self: WindowId)
    requires |before| == 2 && before[0].children == [] && before[1].children == []
    ensures ValidPath(SiblingsPage(before, self).root, [0, 2])
    ensures Candidates(SiblingsPage(before, self), [0, 2])
      == [ElementRef([0, 1], before[1]), ElementRef([0, 0], before[0])]
  {
    var doc := SiblingsPage(before, self);
    var body := doc.root.children[0];
    var cs := body.children;
    assert [0, 2][1..] == [2] && [2][1..] == [];
    assert ValidPath(doc.root, [0, 2]);
    assert [0, 2][..1] == [0] && [0][1..] == [];
    assert NodeAt(doc.root, [0]) == body;
    assert ParentOf([0, 2]) == Some([0]);
    assert Upward(doc, Some([0])) == [];
    LeafWalk(cs[0], [0, 0]);
    LeafWalk(cs[1], [0, 1]);
    assert [0] + [0] == [0, 0] && [0] + [1] == [0, 1];
    assert PrevSiblings(cs, [0], 1) == [ElementRef([0, 0], cs[0])];
    assert PrevSiblings(cs, [0], 2) == [ElementRef([0, 1], cs[1]), ElementRef([0, 0], cs[0])];
    assert Level(doc.root, [0, 2]) == PrevSiblings(cs, [0], 2);
  }

  /** The pre-order walk of an example page: root, body, the two leaves, the iframe. */
  lemma ExampleWalk(before: seq<Element>, self: WindowId)
    requires |before| == 2 && before[0].children == [] && before[1].children == []
    ensures var doc := SiblingsPage(before, self);
      var cs := doc.root.children[0].children;
      Walk(doc.root, []) == [ElementRef([], doc.root), ElementRef([0], doc.root.children[0]),
                             ElementRef([0, 0], cs[0]), ElementRef([0, 1], cs[1]), ElementRef([0, 2], cs[2])]
  {
    var doc := SiblingsPage(before, self);
    var body := doc.root.children[0];
    var cs := body.children;
    assert [] + [0] == [0];
    assert [0] + [0] == [0, 0] && [0] + [1] == [0, 1] && [0] + [2] == [0, 2];
    LeafWalk(cs[0], [0, 0]);
    LeafWalk(cs[1], [0, 1]);
    LeafWalk(cs[2], [0, 2]);
    assert WalkChildren(cs, [0], 1) == [ElementRef([0, 0], cs[0])];
    assert WalkChildren(cs, [0], 2) == [ElementRef([0, 0], cs[0]), ElementRef([0, 1], cs[1])];
    assert WalkChildren(cs, [0], 3)
      == [ElementRef([0, 0], cs[0]), ElementRef([0, 1], cs[1]), ElementRef([0, 2], cs[2])];
    assert Walk(body, [0]) == [ElementRef([0], body)] + WalkChildren(cs, [0], 3);
    assert WalkChildren(doc.root.children, [], 1) == Walk(body, [0]);
  }

  /** An example page has one iframe, ours. */
  lemma ExampleIframes(before: seq<Element>, self: WindowId)
    requires |before| == 2 && before[0].children == [] && before[1].children == []
    requires before[0].tagName != "IFRAME" && before[1].tagName != "IFRAME"
    ensures var doc := SiblingsPage(before, self);
      |Iframes(doc)| == 1 && Iframes(doc)[0].path == [0, 2] && LocateSelf(Iframes(doc), self) == Some(0)
  {
    ExampleWalk(before, self);
    var doc := SiblingsPage(before, self);
    var w := Walk(doc.root, []);
    assert IframesIn(w[4..]) == [w[4]];
    assert IframesIn(w[3..]) == [w[4]];
    assert IframesIn(w[2..]) == [w[4]];
    assert IframesIn(w[1..]) == [w[4]];
    assert Iframes(doc) == IframesIn(w);
  }

  /** On an example page, a pass judges the two leaves, nearest first. */
  lemma ExamplePass(before: seq<Element>, self: WindowId)
    requires |before| == 2 && before[0].children == [] && before[1].children == []
    requires before[0].tagName != "IFRAME" && before[1].tagName != "IFRAME"
    ensures var c := [ElementRef([0, 1], before[1]), ElementRef([0, 0], before[0])];
      Pass(Granted(SiblingsPage(before, self)), self) == Verdict(c, FirstIndex(c, Textbox), FirstIndex(c, Button))
  {
    ExampleIframes(before, self);
    ExampleCandidates(before, self);
  }

  /**
   * With the textbox, the button and the iframe as siblings in that document
   * order, the pass is rejected: the button is the iframe's nearer sibling,
   * so it comes first in the candidate list. Swapping the two is accepted.
   */
  lemma ProximityNotDocumentOrder(self: WindowId)
    ensures Pass(Granted(SiblingsPage([TextInput, SubmitButton], self)), self) == OrderingViolation
    ensures Pass(Granted(SiblingsPage([SubmitButton, TextInput], self)), self)
      == Found(ElementRef([0, 1], TextInput), ElementRef([0, 0], SubmitButton))
  {
    ExamplePass([TextInput, SubmitButton], self);
    var c := [ElementRef([0, 1], SubmitButton), ElementRef([0, 0], TextInput)];
    assert FirstIndex(c[1..], Textbox) == Some(0);
    assert FirstIndex(c, Textbox) == Some(1) && FirstIndex(c, Button) == Some(0);
    ExamplePass([SubmitButton, TextInput], self);
    var d := [ElementRef([0, 1], TextInput), ElementRef([0, 0], SubmitButton)];
    assert FirstIndex(d[1..], Button) == Some(0);
    assert FirstIndex(d, Textbox) == Some(0) && FirstIndex(d, Button) == Some(1);
  }
}
