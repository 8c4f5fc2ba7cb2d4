/**
 * The host page as the widget sees it: an immutable tree of elements.
 * An element is identified by its path from the document root (the list of
 * child indices leading to it), so "the same element" and "an ancestor of"
 * are statements about paths.
 */
module Dom {
  import opened Wrappers

  type WindowId = nat

  /** Child indices from the document root; [] is the root itself. */
  type Path = seq<nat>

  /** Reading an iframe's `contentWindow`: either it throws or it yields a window. */
  datatype WindowRead = Throws | Window(id: WindowId)

  datatype Element = Element(
    tagName: string,       // upper-case, as the DOM reports it for HTML elements
    typ: string,           // the `type` property ("text" for a plain INPUT, "submit" for a BUTTON)
    id: string,
    name: string,
    value: string,         // the `value` property at the time the page is read
    frameWindow: WindowRead,
    children: seq<Element>)

  /** A reference to an element of a document: where it is, and what it is. */
  datatype ElementRef = ElementRef(path: Path, element: Element)

  /** The parent document: its root element and `document.body` (null when absent). */
  datatype Document = Document(root: Element, body: Option<Path>)

  predicate ValidPath(e: Element, p: Path)
    decreases |p|
  {
    |p| == 0 || (p[0] < |e.children| && ValidPath(e.children[p[0]], p[1..]))
  }

  function NodeAt(e: Element, p: Path): Element
    requires ValidPath(e, p)
    decreases |p|
  {
    if |p| == 0 then e else NodeAt(e.children[p[0]], p[1..])
  }

  /** `r` really is the element found at `r.path` below `root`. */
  predicate Located(root: Element, r: ElementRef) {
    ValidPath(root, r.path) && NodeAt(root, r.path) == r.element
  }

  /** Stepping from a node to one of its children extends the path by one index. */
  lemma {:induction false} ChildStep(root: Element, p: Path, j: nat)
    requires ValidPath(root, p) && j < |NodeAt(root, p).children|
    ensures ValidPath(root, p + [j])
    ensures NodeAt(root, p + [j]) == NodeAt(root, p).children[j]
    decreases |p|
  {
    if |p| > 0 {
      assert (p + [j])[0] == p[0];
      assert (p + [j])[1..] == p[1..] + [j];
      ChildStep(root.children[p[0]], p[1..], j);
    }
  }

  /** The parent of a located non-root element is located, and holds it at its last index. */
  lemma {:induction false} ParentStep(root: Element, p: Path)
    requires ValidPath(root, p) && |p| > 0
    ensures ValidPath(root, p[..|p| - 1])
    ensures p[|p| - 1] < |NodeAt(root, p[..|p| - 1]).children|
    ensures NodeAt(root, p[..|p| - 1]).children[p[|p| - 1]] == NodeAt(root, p)
    decreases |p|
  {
    if |p| > 1 {
      var c := root.children[p[0]];
      ParentStep(c, p[1..]);
      assert p[1..][..|p[1..]| - 1] == p[..|p| - 1][1..];
      assert p[1..][|p[1..]| - 1] == p[|p| - 1];
    }
  }

  /** Number of elements in a subtree, the element itself included. */
  function Size(e: Element): nat
    decreases e, 1
  {
    1 + ChildrenSize(e.children, |e.children|)
  }

  /** Total size of the first `n` subtrees of `cs`. */
  function ChildrenSize(cs: seq<Element>, n: nat): nat
    requires n <= |cs|
    decreases cs, 0, n
  {
    if n == 0 then 0 else ChildrenSize(cs, n - 1) + Size(cs[n - 1])
  }

  /**
   * Pre-order walk of the subtree of `e`, which sits at path `at`: the
   * element first, then each child's walk, first child first.
   */
  function Walk(e: Element, at: Path): seq<ElementRef>
    decreases e, 1
  {
    [ElementRef(at, e)] + WalkChildren(e.children, at, |e.children|)
  }

  /** The walks of the first `n` children `cs` of the element at `at`, in order. */
  function WalkChildren(cs: seq<Element>, at: Path, n: nat): seq<ElementRef>
    requires n <= |cs|
    decreases cs, 0, n
  {
    if n == 0 then [] else WalkChildren(cs, at, n - 1) + Walk(cs[n - 1], at + [n - 1])
  }

  /** A walk starts with the element itself and has one entry per element of the subtree. */
  lemma {:induction false} WalkShape(e: Element, at: Path)
    ensures |Walk(e, at)| == Size(e)
    ensures Walk(e, at)[0] == ElementRef(at, e)
    decreases e, 1
  {
    WalkChildrenShape(e.children, at, |e.children|);
  }

  lemma {:induction false} WalkChildrenShape(cs: seq<Element>, at: Path, n: nat)
    requires n <= |cs|
    ensures |WalkChildren(cs, at, n)| == ChildrenSize(cs, n)
    decreases cs, 0, n
  {
    if n > 0 {
      WalkChildrenShape(cs, at, n - 1);
      WalkShape(cs[n - 1], at + [n - 1]);
    }
  }

  /**
   * Every entry of the walk of a located element is itself located, and lies
   * in that element's subtree (its path extends the element's path).
   */
  lemma {:induction false} WalkLocated(root: Element, e: Element, at: Path)
    requires Located(root, ElementRef(at, e))
    ensures forall r :: r in Walk(e, at) ==> Located(root, r) && at <= r.path
    decreases e, 1
  {
    WalkChildrenLocated(root, e.children, at, |e.children|);
  }

  lemma {:induction false} WalkChildrenLocated(root: Element, cs: seq<Element>, at: Path, n: nat)
    requires ValidPath(root, at) && NodeAt(root, at).children == cs && n <= |cs|
    ensures forall r :: r in WalkChildren(cs, at, n) ==> Located(root, r) && |at| < |r.path| && at <= r.path
    decreases cs, 0, n
  {
    if n > 0 {
      WalkChildrenLocated(root, cs, at, n - 1);
      ChildStep(root, at, n - 1);
      WalkLocated(root, cs[n - 1], at + [n - 1]);
      forall r | r in Walk(cs[n - 1], at + [n - 1])
        ensures |at| < |r.path| && at <= r.path
      {
        assert at + [n - 1] <= r.path;
        assert r.path[..|at|] == (at + [n - 1])[..|at|] == at;
      }
    }
  }

  /** The entries of a walk whose element is an `<iframe>`, in document order. */
  function IframesIn(s: seq<ElementRef>): (r: seq<ElementRef>)
    ensures forall x :: x in r ==> x in s && x.element.tagName == "IFRAME"
  {
    if |s| == 0 then []
    else if s[0].element.tagName == "IFRAME" then [s[0]] + IframesIn(s[1..])
    else IframesIn(s[1..])
  }

  /**
   * `document.getElementsByTagName('iframe')`: every iframe of the document,
   * in document order, each a located reference.
   */
  function Iframes(doc: Document): (r: seq<ElementRef>)
    ensures forall x :: x in r ==> Located(doc.root, x) && x.element.tagName == "IFRAME"
  {
    WalkLocated(doc.root, doc.root, []);
    IframesIn(Walk(doc.root, []))
  }

  lemma {:induction false} IframesInContains(s: seq<ElementRef>, x: ElementRef)
    requires x in s && x.element.tagName == "IFRAME"
    ensures x in IframesIn(s)
    decreases |s|
  {
    if s[0] != x {
      assert x in s[1..];
      IframesInContains(s[1..], x);
    }
  }

  /** Conversely, every iframe of the document is in `Iframes`. */
  lemma IframesComplete(doc: Document, x: ElementRef)
    requires Located(doc.root, x) && x.element.tagName == "IFRAME"
    ensures x in Iframes(doc)
  {
    WalkComplete(doc.root, doc.root, [], x);
    IframesInContains(Walk(doc.root, []), x);
  }

  /** `a` comes before `b` in document order without being one of its ancestors. */
  predicate LeftOf(a: Path, b: Path) {
    exists k :: 0 <= k < |a| && k < |b| && a[..k] == b[..k] && a[k] < b[k]
  }

  /** An element left of another is neither that element nor one of its ancestors. */
  lemma LeftOfIsNotAncestor(a: Path, b: Path)
    requires LeftOf(a, b)
    ensures !(a <= b)
  {
    var k :| 0 <= k < |a| && k < |b| && a[..k] == b[..k] && a[k] < b[k];
    assert a[k] != b[k];
  }

  /** Nothing left of an element lies inside it. */
  lemma LeftOfIsNotDescendant(a: Path, b: Path)
    requires LeftOf(a, b)
    ensures !(b <= a)
  {
    var k :| 0 <= k < |a| && k < |b| && a[..k] == b[..k] && a[k] < b[k];
    assert a[k] != b[k];
  }

  /** Every prefix of a valid path is valid, and the next index is a child there. */
  lemma {:induction false} PrefixValid(root: Element, p: Path, n: nat)
    requires ValidPath(root, p) && n <= |p|
    ensures ValidPath(root, p[..n])
    ensures n < |p| ==> p[n] < |NodeAt(root, p[..n]).children|
    decreases |p|
  {
    if n < |p| {
      ParentStep(root, p);
      var pp := p[..|p| - 1];
      if n < |p| - 1 {
        PrefixValid(root, pp, n);
        assert pp[..n] == p[..n] && pp[n] == p[n];
      }
    } else {
      assert p[..n] == p;
    }
  }

  // ---------------------------------------------------------------------
  // Completeness and distinctness of walks
  // ---------------------------------------------------------------------

  lemma {:induction false} WalkChildrenContains(cs: seq<Element>, at: Path, n: nat, i: nat)
    requires i < n <= |cs|
    ensures forall r :: r in Walk(cs[i], at + [i]) ==> r in WalkChildren(cs, at, n)
    decreases n
  {
    if i < n - 1 {
      WalkChildrenContains(cs, at, n - 1, i);
    }
  }

  /** A walk is complete: every element of the document inside the walked subtree appears in it. */
  lemma {:induction false} WalkComplete(root: Element, e: Element, at: Path, r: ElementRef)
    requires Located(root, ElementRef(at, e)) && Located(root, r) && at <= r.path
    ensures r in Walk(e, at)
    decreases |r.path| - |at|
  {
    if |r.path| == |at| {
      assert r.path == at;
      assert Walk(e, at)[0] == r;
    } else {
      var i := r.path[|at|];
      PrefixValid(root, r.path, |at|);
      assert r.path[..|at|] == at;
      ChildStep(root, at, i);
      assert r.path[..|at| + 1] == at + [i];
      WalkComplete(root, e.children[i], at + [i], r);
      WalkChildrenContains(e.children, at, |e.children|, i);
    }
  }

  /** No two entries of `s` are the same element. */
  predicate DistinctPaths(s: seq<ElementRef>) {
    forall i, j :: 0 <= i < j < |s| ==> s[i].path != s[j].path
  }

  lemma ConcatDistinct(a: seq<ElementRef>, b: seq<ElementRef>)
    requires DistinctPaths(a) && DistinctPaths(b)
    requires forall x, y :: x in a && y in b ==> x.path != y.path
    ensures DistinctPaths(a + b)
  {
    forall i, j | 0 <= i < j < |a + b|
      ensures (a + b)[i].path != (a + b)[j].path
    {
      if j < |a| {
        assert (a + b)[i] == a[i] && (a + b)[j] == a[j];
      } else if i >= |a| {
        assert (a + b)[i] == b[i - |a|] && (a + b)[j] == b[j - |a|];
      } else {
        assert (a + b)[i] == a[i] && a[i] in a;
        assert (a + b)[j] == b[j - |a|] && b[j - |a|] in b;
      }
    }
  }

  lemma {:induction false} WalkPaths(e: Element, at: Path)
    ensures forall r :: r in Walk(e, at) ==> at <= r.path
    decreases e, 1
  {
    WalkChildrenPaths(e.children, at, |e.children|);
  }

  lemma {:induction false} WalkChildrenPaths(cs: seq<Element>, at: Path, n: nat)
    requires n <= |cs|
    ensures forall r :: r in WalkChildren(cs, at, n) ==>
      |at| < |r.path| && at <= r.path && r.path[|at|] < n
    decreases cs, 0, n
  {
    if n > 0 {
      WalkChildrenPaths(cs, at, n - 1);
      WalkPaths(cs[n - 1], at + [n - 1]);
      forall r | r in Walk(cs[n - 1], at + [n - 1])
        ensures |at| < |r.path| && at <= r.path && r.path[|at|] < n
      {
        assert at + [n - 1] <= r.path;
        assert r.path[..|at|] == (at + [n - 1])[..|at|] == at;
        assert r.path[|at|] == (at + [n - 1])[|at|];
      }
    }
  }

  /** A walk lists each element of the subtree once. */
  lemma {:induction false} WalkDistinct(e: Element, at: Path)
    ensures DistinctPaths(Walk(e, at))
    decreases e, 1
  {
    WalkChildrenDistinct(e.children, at, |e.children|);
    WalkChildrenPaths(e.children, at, |e.children|);
    ConcatDistinct([ElementRef(at, e)], WalkChildren(e.children, at, |e.children|));
  }

  lemma {:induction false} WalkChildrenDistinct(cs: seq<Element>, at: Path, n: nat)
    requires n <= |cs|
    ensures DistinctPaths(WalkChildren(cs, at, n))
    decreases cs, 0, n
  {
    if n > 0 {
      WalkChildrenDistinct(cs, at, n - 1);
      WalkDistinct(cs[n - 1], at + [n - 1]);
      WalkChildrenPaths(cs, at, n - 1);
      WalkPaths(cs[n - 1], at + [n - 1]);
      forall x, y | x in WalkChildren(cs, at, n - 1) && y in Walk(cs[n - 1], at + [n - 1])
        ensures x.path != y.path
      {
        assert at + [n - 1] <= y.path;
        assert y.path[|at|] == (at + [n - 1])[|at|];
      }
      ConcatDistinct(WalkChildren(cs, at, n - 1), Walk(cs[n - 1], at + [n - 1]));
    }
  }
}
