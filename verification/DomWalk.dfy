/** The read-only pointer walks: the next element, and the comparison of two positions. */
module DomWalk {
  import opened Sequences
  import opened Forests
  import opened ForestOrder
  import opened DomTree

  ghost function Elements(f: Links): set<NodeImp> {
    set n | n in f.kids && n.content.Element?
  }

  ghost function Head<T>(s: seq<T>): Option<T> {
    if s == [] then None else Some(s[0])
  }

  /** One step along the siblings, or up when there are none left. */
  lemma SiblingStep(f: Links, es: set<NodeImp>, root: Option<NodeImp>, n: NodeImp)
    requires WellFormed(f) && Inside(f, root, n) && !AtTop(f, root, n)
    ensures var p := f.parent[n];
      p in f.kids && n in f.kids[p] && Inside(f, root, p) && p in f.depth && f.depth[p] < f.depth[n]
    ensures NextOf(f, n) == None ==> Beyond(f, es, root, n) == Beyond(f, es, root, f.parent[n])
    ensures NextOf(f, n).Some? ==> var m := NextOf(f, n).value;
      && Inside(f, root, m) && !AtTop(f, root, m) && f.parent[m] == f.parent[n] && f.depth[m] == f.depth[n]
      && m in f.kids[f.parent[n]]
      && IndexOf(f.kids[f.parent[n]], m) == IndexOf(f.kids[f.parent[n]], n) + 1
      && (m in es ==> Head(Beyond(f, es, root, n)) == Some(m))
      && (m !in es ==> Beyond(f, es, root, n) == Beyond(f, es, root, m))
  {
    hide WellFormed, InSubtree;
    WellChild(f, n);
    var p := f.parent[n];
    var i := IndexOf(f.kids[p], n);
    InsideParent(f, root, n);
    if i + 1 < |f.kids[p]| {
      KidFacts(f, p, i + 1);
      InsideKid(f, root, p, i + 1);
      var m := f.kids[p][i + 1];
      var w := WalkFrom(f, es, p, i + 2) + Beyond(f, es, root, p);
      assert Beyond(f, es, root, m) == w;
      assert Beyond(f, es, root, n) == Walk(f, es, m) + w by {
        assert WalkFrom(f, es, p, i + 1) == Walk(f, es, m) + WalkFrom(f, es, p, i + 2);
      }
    } else {
      assert WalkFrom(f, es, p, i + 1) == [];
    }
  }

  lemma InsideParent(f: Links, root: Option<NodeImp>, n: NodeImp)
    requires WellFormed(f) && Inside(f, root, n)
    ensures !AtTop(f, root, n) ==> Inside(f, root, f.parent[n])
    ensures n !in f.parent && root != Some(n) ==> root == None
    ensures f.depth.Keys == f.kids.Keys
  {
    if n in f.parent { WellChild(f, n); }
  }

  /** The first step down. */
  lemma KidWalk(f: Links, es: set<NodeImp>, n: NodeImp, i: nat)
    requires WellFormed(f) && n in f.kids && i <= |f.kids[n]|
    ensures i == |f.kids[n]| ==> WalkFrom(f, es, n, i) == []
    ensures i < |f.kids[n]| ==> var k := f.kids[n][i];
      && k in f.kids && k in f.parent && f.parent[k] == n
      && NextOf(f, k) == (if i + 1 < |f.kids[n]| then Some(f.kids[n][i + 1]) else None)
      && (k in es ==> Head(WalkFrom(f, es, n, i)) == Some(k))
      && (k !in es ==> WalkFrom(f, es, n, i) == WalkFrom(f, es, n, i + 1))
  {
    if i < |f.kids[n]| {
      KidFacts(f, n, i);
    }
  }

  /** The root that bounds the walk from n: one that is not at or above n does not. */
  ghost function Bound(f: Links, root: NodeImp?, n: NodeImp): (b: Option<NodeImp>)
    requires WellFormed(f) && n in f.kids
    ensures Inside(f, b, n) && (b == None || (b == Some(root) && InSubtree(f, root, n)))
    ensures root == null ==> b == None
    ensures root != null && root in f.kids && InSubtree(f, root, n) ==> b == Some(root)
  {
    if root != null && root in f.kids && InSubtree(f, root, n) then Some(root) else None
  }

  /**
   * With a root that does not bound the walk, null is never the answer: there is a next element, or the climb reads
   * through null.
   */
  ghost predicate Answered(root: NodeImp?, bound: Option<NodeImp>, left: seq<NodeImp>) {
    root != null && bound == None ==> left != []
  }

  /**
   * The element after n in the walk of root's tree, or of n's whole tree when root is null or is neither n nor above
   * it: the head of what n leaves of that walk.
   */
  method GetNextElement(n: NodeImp, root: NodeImp?, ghost f: Links) returns (r: NodeImp?)
    requires Represents(f) && WellFormed(f) && n in f.kids && n.content.Element?
    requires Answered(root, Bound(f, root, n), Rest(f, Elements(f), Bound(f, root, n), n))
    ensures Opt(r) == Head(Rest(f, Elements(f), Bound(f, root, n), n))
  {
    hide WellFormed, Represents, InSubtree, Bound, Beyond, WalkFrom;
    ghost var es := Elements(f);
    Linked(f, n);
    ghost var k := 0;
    var i := n.firstChild;
    while i != null
      invariant k <= |f.kids[n]| && i == (if k < |f.kids[n]| then f.kids[n][k] else null)
      invariant WalkFrom(f, es, n, 0) == WalkFrom(f, es, n, k)
      decreases |f.kids[n]| - k
    {
      KidWalk(f, es, n, k);
      if i.content.Element? {
        return i;
      }
      Linked(f, i);
      i := i.nextSibling;
      k := k + 1;
    }
    KidWalk(f, es, n, k);
    r := ClimbToNext(n, root, f);
  }

  lemma Neighbours(f: Links, n: NodeImp)
    requires Represents(f) && n in f.kids
    ensures n.nextSibling == Ptr(NextOf(f, n)) && n.parentNode == Ptr(ParentOf(f, n))
    ensures Opt(n.nextSibling) == NextOf(f, n)
    ensures if n in f.parent then n.parentNode == f.parent[n] else n.parentNode == null && n.nextSibling == null
  {
    hide WellFormed;
    assert n.LinkedAs(f);
  }

  ghost predicate AtSibling(f: Links, bound: Option<NodeImp>, start: NodeImp, last: NodeImp)
    requires WellFormed(f) && start in f.kids && start in f.parent
  {
    && Inside(f, bound, last) && !AtTop(f, bound, last) && last in f.kids && last in f.parent
    && f.parent[last] == f.parent[start] && f.parent[start] in f.kids && last in f.kids[f.parent[start]]
    && Beyond(f, Elements(f), bound, last) == Beyond(f, Elements(f), bound, start)
  }

  ghost function ToTheRight(f: Links, start: NodeImp, last: NodeImp): nat
    requires start in f.parent
  {
    var p := f.parent[start];
    if p in f.kids && last in f.kids[p] then |f.kids[p]| - IndexOf(f.kids[p], last) else 0
  }

  /** The inner loop: the siblings behind start up to the first element; last is where the pointer comes to rest. */
  method SiblingsAfter(start: NodeImp, ghost bound: Option<NodeImp>, ghost f: Links)
    returns (r: NodeImp?, last: NodeImp)
    requires Represents(f) && WellFormed(f) && Inside(f, bound, start) && start in f.kids
    requires start in f.parent ==> !AtTop(f, bound, start)
    ensures r != null ==> Head(Beyond(f, Elements(f), bound, start)) == Some(r)
    ensures start !in f.parent ==> r == null && last == start
    ensures start in f.parent ==>
      f.parent[start] in f.kids && last in f.kids && last in f.parent && f.parent[last] == f.parent[start]
    ensures start in f.parent && r == null ==>
      Beyond(f, Elements(f), bound, start) == Beyond(f, Elements(f), bound, f.parent[start])
  {
    hide WellFormed, Represents, InSubtree, Inside, AtTop, Beyond, Elements, IndexOf;
    last := start;
    r := null;
    Neighbours(f, start);
    if start in f.parent { StepOn(f, bound, start); }
    while last.nextSibling != null
      invariant start !in f.parent ==> last == start && last.nextSibling == null
      invariant start in f.parent ==> AtSibling(f, bound, start, last)
      decreases if start in f.parent then ToTheRight(f, start, last) else 0
    {
      StepOn(f, bound, last);
      last := last.nextSibling;
      if last.content.Element? {
        return last, last;
      }
    }
    if start in f.parent {
      StepOn(f, bound, last);
    }
  }

  /** One step of that loop, told of the pointers. */
  lemma StepOn(f: Links, bound: Option<NodeImp>, n: NodeImp)
    requires Represents(f) && WellFormed(f) && Inside(f, bound, n) && n in f.parent && !AtTop(f, bound, n)
    ensures n in f.kids && f.parent[n] in f.kids && n in f.kids[f.parent[n]]
    ensures n.nextSibling == null ==> Beyond(f, Elements(f), bound, n) == Beyond(f, Elements(f), bound, f.parent[n])
    ensures n.nextSibling != null ==> var m: NodeImp, p := n.nextSibling, f.parent[n];
      && Inside(f, bound, m) && !AtTop(f, bound, m)
      && m in f.kids && m in f.parent && f.parent[m] == p && m in f.kids[p]
      && IndexOf(f.kids[p], m) == IndexOf(f.kids[p], n) + 1
      && (m.content.Element? ==> Head(Beyond(f, Elements(f), bound, n)) == Some(m))
      && (!m.content.Element? ==> Beyond(f, Elements(f), bound, n) == Beyond(f, Elements(f), bound, m))
  {
    hide WellFormed, Represents, InSubtree, Beyond;
    Neighbours(f, n);
    SiblingStep(f, Elements(f), bound, n);
  }

  /** Where the climb stands: at an ancestor of start that leaves the same, or, with nothing left, behind the top. */
  ghost predicate Climbing(f: Links, bound: Option<NodeImp>, start: NodeImp, n: NodeImp?)
    requires WellFormed(f) && start in f.kids
  {
    var goal := Beyond(f, Elements(f), bound, start);
    if n == null then bound == None && goal == [] else
      n in f.kids && InSubtree(f, n, start) && Inside(f, bound, n) && Beyond(f, Elements(f), bound, n) == goal
  }

  lemma ClimbStarts(f: Links, bound: Option<NodeImp>, start: NodeImp)
    requires WellFormed(f) && Inside(f, bound, start)
    ensures Climbing(f, bound, start, start) && start in f.depth
  {
    InsideParent(f, bound, start);
    hide WellFormed, Beyond;
  }

  /** At an ancestor other than the root there is a level more, or the top of the whole tree. */
  lemma ClimbGoesOn(f: Links, root: NodeImp?, start: NodeImp, n: NodeImp)
    requires Represents(f) && WellFormed(f) && start in f.kids && n != root
    requires Climbing(f, Bound(f, root, start), start, n)
    ensures var bound := Bound(f, root, start);
      && n in f.kids && n in f.depth && Inside(f, bound, n)
      && Beyond(f, Elements(f), bound, n) == Beyond(f, Elements(f), bound, start)
      && (n in f.parent ==> !AtTop(f, bound, n) && f.parent[n] in f.depth && f.depth[f.parent[n]] < f.depth[n])
      && (n !in f.parent ==> n.nextSibling == null && n.parentNode == null && Climbing(f, bound, start, null))
  {
    var bound := Bound(f, root, start);
    InsideParent(f, bound, n);
    Neighbours(f, n);
    if n in f.parent { WellChild(f, n); }
    hide WellFormed, Represents, InSubtree;
  }

  lemma NothingAbove(f: Links, root: NodeImp?, start: NodeImp)
    requires WellFormed(f) && start in f.kids && Climbing(f, Bound(f, root, start), start, null)
    requires Answered(root, Bound(f, root, start), Beyond(f, Elements(f), Bound(f, root, start), start))
    ensures root == null
  {
    hide WellFormed, Bound;
  }

  lemma ClimbsUp(f: Links, root: NodeImp?, start: NodeImp, n: NodeImp)
    requires WellFormed(f) && start in f.kids && n in f.parent && f.parent[n] in f.kids && n != root
    requires var bound := Bound(f, root, start);
      && Climbing(f, bound, start, n) && !AtTop(f, bound, n)
      && Beyond(f, Elements(f), bound, n) == Beyond(f, Elements(f), bound, f.parent[n])
    ensures Climbing(f, Bound(f, root, start), start, f.parent[n])
  {
    hide Beyond;
    InsideParent(f, Bound(f, root, start), n);
    assert InSubtree(f, f.parent[n], n);
    SubtreeTrans(f, f.parent[n], n, start);
  }

  /** The climb ends at the root, and then nothing is left. */
  lemma ClimbEnds(f: Links, root: NodeImp?, start: NodeImp)
    requires WellFormed(f) && start in f.kids && Climbing(f, Bound(f, root, start), start, root)
    ensures Beyond(f, Elements(f), Bound(f, root, start), start) == []
  {
    hide WellFormed, InSubtree;
  }

  /** The second half of GetNextElement: the siblings after m, then those after each ancestor. */
  method ClimbToNext(start: NodeImp, root: NodeImp?, ghost f: Links) returns (r: NodeImp?)
    requires Represents(f) && WellFormed(f) && start in f.kids
    requires Answered(root, Bound(f, root, start), Beyond(f, Elements(f), Bound(f, root, start), start))
    ensures Opt(r) == Head(Beyond(f, Elements(f), Bound(f, root, start), start))
  {
    hide WellFormed, Represents, InSubtree, Bound, Inside, AtTop, Climbing, Beyond, Elements, IndexOf;
    ghost var bound := Bound(f, root, start);
    var n: NodeImp? := start;
    ClimbStarts(f, bound, start);
    while n != root
      invariant Climbing(f, bound, start, n) && (n != null ==> n in f.depth) && (n == null ==> root == null)
      decreases if n == null then 0 else f.depth[n] + 1
    {
      ClimbGoesOn(f, root, start, n);
      var last;
      r, last := SiblingsAfter(n, bound, f);
      if r != null {
        return r;
      }
      Neighbours(f, last);
      if n in f.parent { ClimbsUp(f, root, start, n); } else { NothingAbove(f, root, start); }
      n := last.parentNode;
    }
    ClimbEnds(f, root, start);
    r := null;
  }

  /**
   * Calling GetNextElement again and again lists start and exactly what is left of the walk
   * behind it, each element once and in order, and then answers null. With a root that is given but neither start nor
   * above it there is no such answer.
   */
  method ListElements(start: NodeImp, root: NodeImp?, ghost f: Links) returns (out: seq<NodeImp>)
    requires Represents(f) && WellFormed(f) && start.content.Element? && Inside(f, Opt(root), start)
    ensures out == [start] + Rest(f, Elements(f), Opt(root), start)
    ensures root == start ==> out == Walk(f, Elements(f), start)
  {
    hide *;
    ghost var es, bound := Elements(f), Opt(root);
    out := [start];
    var e: NodeImp := start;
    Bounded(f, root, e);
    ghost var left, all := Rest(f, es, bound, start), [start] + Rest(f, es, bound, start);
    if root == start { FromTheRoot(f, start); }
    var next := GetNextElement(e, root, f);
    while next != null
      invariant Inside(f, bound, e) && e in f.kids && e.content.Element?
      invariant left == Rest(f, es, bound, e) && Opt(next) == Head(left) && out + left == all
      decreases |left|
    {
      Listed(f, bound, e, next, left);
      e := next;
      assert out + left == (out + [e]) + left[1..];
      out := out + [e];
      left := left[1..];
      Bounded(f, root, e);
      next := GetNextElement(e, root, f);
    }
    assert left == [] by { HeadNone(left); }
    assert out + [] == out;
  }

  lemma Bounded(f: Links, root: NodeImp?, n: NodeImp)
    requires WellFormed(f) && Inside(f, Opt(root), n)
    ensures n in f.kids && Bound(f, root, n) == Opt(root)
    ensures Answered(root, Opt(root), Rest(f, Elements(f), Opt(root), n))
  {
    hide WellFormed, InSubtree;
  }

  lemma HeadNone<T>(s: seq<T>)
    ensures Head(s) == None <==> s == []
  {
  }

  /** What the answer is, and what it leaves. */
  lemma Listed(f: Links, bound: Option<NodeImp>, e: NodeImp, next: NodeImp, left: seq<NodeImp>)
    requires WellFormed(f) && Inside(f, bound, e) && e in f.kids
    requires left == Rest(f, Elements(f), bound, e) && Head(left) == Opt(next)
    ensures left != [] && left[0] == next && next in f.kids && next.content.Element? && Inside(f, bound, next)
    ensures left[1..] == Rest(f, Elements(f), bound, next)
  {
    hide WellFormed, InSubtree, Rest;
    RestStep(f, Elements(f), bound, e);
    assert ([left[0]] + Rest(f, Elements(f), bound, left[0]))[1..] == Rest(f, Elements(f), bound, left[0]);
  }

  lemma FromTheRoot(f: Links, n: NodeImp)
    requires WellFormed(f) && n in f.kids && n.content.Element?
    ensures [n] + Rest(f, Elements(f), Opt(n), n) == Walk(f, Elements(f), n)
  {
    BeyondSelf(f, Elements(f), n);
    hide WellFormed, WalkFrom, Beyond;
    assert WalkFrom(f, Elements(f), n, 0) + [] == WalkFrom(f, Elements(f), n, 0);
  }

  lemma BeyondSelf(f: Links, es: set<NodeImp>, n: NodeImp)
    requires WellFormed(f) && n in f.kids
    ensures Beyond(f, es, Some(n), n) == []
  {
  }

  // compareDocumentPosition.

  const DISCONNECTED := 1
  const PRECEDING := 2
  const FOLLOWING := 4
  const CONTAINS := 8
  const CONTAINED_BY := 16
  const IMPLEMENTATION_SPECIFIC := 32

  /**
   * Where b stands as seen from a. For nodes of different trees the source compares
   * addresses; `bLower` is that comparison.
   */
  ghost function Comparison(f: Links, a: NodeImp, b: NodeImp, bLower: bool): nat
    requires WellFormed(f) && a in f.kids && b in f.kids
  {
    if a == b then 0
    else if RootOf(f, a) != RootOf(f, b) then
      DISCONNECTED + IMPLEMENTATION_SPECIFIC + if bLower then PRECEDING else FOLLOWING
    else (if InSubtree(f, a, b) then CONTAINED_BY else if InSubtree(f, b, a) then CONTAINS else 0)
         + (if Precedes(f, b, a) then PRECEDING else 0)
         + (if Precedes(f, a, b) then FOLLOWING else 0)
  }

  method Root(n: NodeImp, ghost f: Links) returns (root: NodeImp, depth: int)
    requires Represents(f) && WellFormed(f) && n in f.kids
    ensures root == RootOf(f, n) && depth == f.depth[n] + 1
  {
    hide WellFormed, Represents;
    DepthDomain(f);
    root := n;
    depth := 1;
    Linked(f, root);
    while root.parentNode != null
      invariant root in f.kids && root.LinkedAs(f) && RootOf(f, root) == RootOf(f, n)
      invariant depth + f.depth[root] == f.depth[n] + 1
      decreases f.depth[root]
    {
      WellChild(f, root);
      root := root.parentNode;
      depth := depth + 1;
      Linked(f, root);
    }
    assert f.depth[root] == 0 by { RootDepth(f, root); }
  }

  lemma DepthDomain(f: Links)
    requires WellFormed(f)
    ensures f.depth.Keys == f.kids.Keys
  {
  }

  lemma RootDepth(f: Links, r: NodeImp)
    requires WellFormed(f) && r in f.kids && r !in f.parent
    ensures f.depth[r] == 0
  {
  }

  /** The ancestor `steps` levels up. */
  method Climb(n: NodeImp, steps: int, ghost f: Links) returns (x: NodeImp)
    requires Represents(f) && WellFormed(f) && n in f.kids && steps <= f.depth[n]
    ensures x in f.kids && InSubtree(f, x, n)
    ensures f.depth[x] == if steps > 0 then f.depth[n] - steps else f.depth[n]
  {
    hide WellFormed, Represents;
    DepthDomain(f);
    x := n;
    var i := steps;
    while 0 < i
      invariant x in f.kids && InSubtree(f, x, n)
      invariant f.depth[x] == f.depth[n] - (if steps > 0 then steps - i else 0)
      invariant steps > 0 ==> 0 <= i
    {
      Linked(f, x);
      if x !in f.parent { RootDepth(f, x); }
      WellChild(f, x);
      var p := x.parentNode;
      assert InSubtree(f, p, x);
      SubtreeTrans(f, p, x, n);
      x := p;
      i := i - 1;
    }
  }

  method CompareDocumentPosition(node: NodeImp, other: NodeImp?, otherLower: bool, ghost f: Links) returns (r: nat)
    requires Represents(f) && WellFormed(f) && node in f.kids && (other != null ==> other in f.kids)
    ensures other != null ==> r == Comparison(f, node, other, otherLower)
    ensures other == null ==>
      r == DISCONNECTED + IMPLEMENTATION_SPECIFIC + if otherLower then PRECEDING else FOLLOWING
  {
    hide WellFormed, Represents, InSubtree, Precedes;
    DepthDomain(f);
    if node == other {
      return 0;
    }
    if other == null {
      return DISCONNECTED + IMPLEMENTATION_SPECIFIC + if otherLower then PRECEDING else FOLLOWING;
    }
    var root, depth := Root(node, f);
    var otherRoot, otherDepth := Root(other, f);
    if root != otherRoot {
      return DISCONNECTED + IMPLEMENTATION_SPECIFIC + if otherLower then PRECEDING else FOLLOWING;
    }
    var x := Climb(node, depth - otherDepth, f);
    var y := Climb(other, otherDepth - depth, f);
    SubtreeDepth(f, x, node);
    SubtreeDepth(f, y, other);
    if x == y {
      if x == node {
        assert depth < otherDepth;
        OrderOf(f, node, other);
        AncestorPrecedes(f, node, other);
        return CONTAINED_BY + FOLLOWING;
      }
      if y == other {
        assert otherDepth < depth;
        OrderOf(f, node, other);
        AncestorPrecedes(f, other, node);
        SubtreeAntisym(f, node, other);
        return CONTAINS + PRECEDING;
      }
    }
    Unrelated(f, node, other, x, y);
    r := CompareCousins(node, other, x, y, f);
  }

  /** The second half: x and y are different ancestors at one depth. */
  method CompareCousins(ghost node: NodeImp, ghost other: NodeImp, x0: NodeImp, y0: NodeImp, ghost f: Links)
    returns (r: nat)
    requires Represents(f) && WellFormed(f) && node in f.kids && other in f.kids && x0 in f.kids && y0 in f.kids
    requires InSubtree(f, x0, node) && InSubtree(f, y0, other) && f.depth[x0] == f.depth[y0] && x0 != y0
    requires RootOf(f, node) == RootOf(f, other)
    ensures Precedes(f, node, other) || Precedes(f, other, node)
    ensures r == if Precedes(f, other, node) then PRECEDING else FOLLOWING
    ensures !(Precedes(f, node, other) && Precedes(f, other, node))
  {
    hide WellFormed, Represents, InSubtree, Precedes;
    DepthDomain(f);
    var x, y := x0, y0;
    while x.parentNode != y.parentNode
      invariant x in f.kids && y in f.kids
      invariant InSubtree(f, x, node) && InSubtree(f, y, other) && f.depth[x] == f.depth[y] && x != y
      decreases f.depth[x]
    {
      StepUp(f, x, node);
      StepUp(f, y, other);
      x := x.parentNode;
      y := y.parentNode;
    }
    r := CompareSiblings(node, other, x, y, f);
  }

  /** The sibling tests and the scan to the left of x. */
  method CompareSiblings(ghost node: NodeImp, ghost other: NodeImp, x: NodeImp, y: NodeImp, ghost f: Links)
    returns (r: nat)
    requires Represents(f) && WellFormed(f) && node in f.kids && other in f.kids && x in f.kids && y in f.kids && x != y
    requires InSubtree(f, x, node) && InSubtree(f, y, other) && x.parentNode == y.parentNode
    requires RootOf(f, node) == RootOf(f, other)
    ensures Precedes(f, node, other) || Precedes(f, other, node)
    ensures r == if Precedes(f, other, node) then PRECEDING else FOLLOWING
    ensures !(Precedes(f, node, other) && Precedes(f, other, node))
  {
    hide WellFormed, Represents, InSubtree, Precedes, RootOf;
    Linked(f, x);
    Linked(f, y);
    ghost var p, i, j := Siblings(f, x, y, node, other);
    if y.previousSibling == null || x.nextSibling == null {
      return PRECEDING;
    }
    if x.previousSibling == null || y.nextSibling == null {
      return FOLLOWING;
    }
    var z := x.previousSibling;
    ghost var k := i;
    while z != null
      invariant k <= i && z == (if k > 0 then f.kids[p][k - 1] else null)
      invariant forall m :: k <= m < i ==> f.kids[p][m] != y
      decreases k
    {
      if z == y {
        IndexOfUnique(f.kids[p], k - 1);
        return PRECEDING;
      }
      KidKnown(f, p, k - 1);
      Linked(f, z);
      z := z.previousSibling;
      k := k - 1;
    }
    return FOLLOWING;
  }

  lemma StepUp(f: Links, x: NodeImp, node: NodeImp)
    requires Represents(f) && WellFormed(f) && x in f.kids && node in f.kids && InSubtree(f, x, node)
    ensures if x in f.parent then x.parentNode == f.parent[x] else x.parentNode == null
    ensures x in f.parent <==> f.depth[x] > 0
    ensures x in f.parent ==> f.parent[x] in f.kids && f.depth[f.parent[x]] == f.depth[x] - 1
    ensures x in f.parent ==> InSubtree(f, f.parent[x], node)
  {
    Neighbours(f, x);
    if x in f.parent {
      WellChild(f, x);
      assert InSubtree(f, f.parent[x], x);
      SubtreeTrans(f, f.parent[x], x, node);
    }
  }

  /** Different ancestors of equal depth in one tree, with equal parent pointers, are siblings in order. */
  lemma Siblings(f: Links, x: NodeImp, y: NodeImp, node: NodeImp, other: NodeImp) returns (p: NodeImp, i: nat, j: nat)
    requires WellFormed(f) && node in f.kids && other in f.kids && x in f.kids && y in f.kids && x != y
    requires InSubtree(f, x, node) && InSubtree(f, y, other) && ParentOf(f, x) == ParentOf(f, y)
    requires RootOf(f, node) == RootOf(f, other)
    ensures p in f.kids && NoDup(f.kids[p]) && i < |f.kids[p]| && j < |f.kids[p]| && i != j
    ensures f.kids[p][i] == x && f.kids[p][j] == y
    ensures PrevOf(f, x) == KidBefore(f, p, i) && PrevOf(f, y) == KidBefore(f, p, j)
    ensures NextOf(f, x) == (if i + 1 < |f.kids[p]| then Some(f.kids[p][i + 1]) else None)
    ensures NextOf(f, y) == (if j + 1 < |f.kids[p]| then Some(f.kids[p][j + 1]) else None)
    ensures i < j ==> Precedes(f, node, other) && !Precedes(f, other, node)
    ensures j < i ==> Precedes(f, other, node) && !Precedes(f, node, other)
  {
    hide WellFormed, InSubtree;
    if x !in f.parent {
      RootUnique(f, x, node);
      RootUnique(f, y, other);
    }
    WellChild(f, x);
    WellChild(f, y);
    p := f.parent[x];
    WellKids(f, p);
    i, j := IndexOf(f.kids[p], x), IndexOf(f.kids[p], y);
    if i < j {
      CousinPrecedes(f, p, i, j, node, other);
      PrecedesStrict(f, node, other);
    } else {
      CousinPrecedes(f, p, j, i, other, node);
      PrecedesStrict(f, other, node);
    }
  }

  lemma SubtreeAntisym(f: Links, a: NodeImp, b: NodeImp)
    requires WellFormed(f) && a in f.kids && b in f.kids && a != b && InSubtree(f, b, a)
    ensures !InSubtree(f, a, b)
  {
    SubtreeDepth(f, b, a);
    if InSubtree(f, a, b) { SubtreeDepth(f, a, b); }
  }

  lemma Unrelated(f: Links, a: NodeImp, b: NodeImp, x: NodeImp, y: NodeImp)
    requires WellFormed(f) && a in f.kids && b in f.kids && x in f.kids && y in f.kids && x != y
    requires InSubtree(f, x, a) && InSubtree(f, y, b) && f.depth[x] == f.depth[y] && (x == a || y == b)
    ensures !InSubtree(f, a, b) && !InSubtree(f, b, a)
  {
    hide WellFormed, InSubtree;
    if InSubtree(f, a, b) {
      SubtreeTrans(f, x, a, b);
      AncestorsAtOneDepth(f, x, y, b);
    }
    if InSubtree(f, b, a) {
      SubtreeTrans(f, y, b, a);
      AncestorsAtOneDepth(f, x, y, a);
    }
  }

  /** In one tree, of two different nodes exactly one precedes the other. */
  lemma OrderOf(f: Links, a: NodeImp, b: NodeImp)
    requires WellFormed(f) && a in f.kids && b in f.kids && a != b && RootOf(f, a) == RootOf(f, b)
    ensures Precedes(f, a, b) <==> !Precedes(f, b, a)
  {
    var r := RootOf(f, a);
    PreorderIsSubtree(f, r, a);
    PreorderIsSubtree(f, r, b);
    var s := Preorder(f, r);
    var i, j := IndexOf(s, a), IndexOf(s, b);
    assert i < j ==> Precedes(f, a, b);
    assert j < i ==> Precedes(f, b, a);
    if Precedes(f, a, b) { PrecedesStrict(f, a, b); }
  }

  ghost function Mirrored(bits: nat): nat {
    if bits == 0 then 0
    else if bits >= 33 then 33 + if bits == 35 then FOLLOWING else PRECEDING
    else if bits == CONTAINED_BY + FOLLOWING then CONTAINS + PRECEDING
    else if bits == CONTAINS + PRECEDING then CONTAINED_BY + FOLLOWING
    else if bits == PRECEDING then FOLLOWING else PRECEDING
  }

  /**
   * Swapping the arguments swaps the answer, and within one tree the only answers besides 0
   * are preceding, following, and these two joined with the matching containment, as the tree has them.
   */
  lemma ComparisonMirrors(f: Links, a: NodeImp, b: NodeImp, bLower: bool)
    requires WellFormed(f) && a in f.kids && b in f.kids
    ensures Comparison(f, b, a, !bLower) == Mirrored(Comparison(f, a, b, bLower))
    ensures a != b && RootOf(f, a) == RootOf(f, b) ==>
      Comparison(f, a, b, bLower) in {2, 4, 10, 20}
    ensures a != b && RootOf(f, a) == RootOf(f, b) ==>
      && (Comparison(f, a, b, bLower) == 20 <==> InSubtree(f, a, b))
      && (Comparison(f, a, b, bLower) == 10 <==> InSubtree(f, b, a))
      && (Comparison(f, a, b, bLower) in {4, 20} <==> Precedes(f, a, b))
      && (Comparison(f, a, b, bLower) in {2, 10} <==> Precedes(f, b, a))
    ensures a == b <==> Comparison(f, a, b, bLower) == 0
    ensures RootOf(f, a) != RootOf(f, b) ==> Comparison(f, a, b, bLower) == if bLower then 35 else 37
  {
    hide WellFormed, InSubtree, Precedes;
    if a != b && RootOf(f, a) == RootOf(f, b) {
      OrderOf(f, a, b);
      if InSubtree(f, a, b) {
        AncestorPrecedes(f, a, b);
        SubtreeAntisym(f, b, a);
      } else if InSubtree(f, b, a) {
        AncestorPrecedes(f, b, a);
      }
    }
  }
}
