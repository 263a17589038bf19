/** cloneNode and isEqualNode on linked nodes, against the trees they stand for. */
module DomClone {
  import opened Sequences
  import opened DomLabels
  import opened Forests
  import opened ForestOrder
  import opened TreeEdits
  import opened DomTree
  import opened EqualTrees
  import opened TreeMeaning

  /** The tree below n as a value. */
  ghost function Shape(f: Links, n: NodeImp): (t: Tree)
    requires WellFormed(f) && n in f.kids
    ensures t.content == n.content && |t.kids| == |f.kids[n]|
    decreases Floor(f) - f.depth[n], 1, 0
  {
    Tree(n.content, ShapesFrom(f, n, 0))
  }

  ghost function ShapesFrom(f: Links, n: NodeImp, i: nat): (ts: seq<Tree>)
    requires WellFormed(f) && n in f.kids && i <= |f.kids[n]|
    ensures |ts| == |f.kids[n]| - i
    decreases Floor(f) - f.depth[n], 0, |f.kids[n]| - i
  {
    if i == |f.kids[n]| then [] else
      KidFacts(f, n, i);
      [Shape(f, f.kids[n][i])] + ShapesFrom(f, n, i + 1)
  }

  lemma {:induction false} ShapesFromAt(f: Links, n: NodeImp, i: nat, j: nat)
    requires WellFormed(f) && n in f.kids && i <= j < |f.kids[n]|
    ensures f.kids[n][j] in f.kids && ShapesFrom(f, n, i)[j - i] == Shape(f, f.kids[n][j])
    decreases j - i
  {
    hide WellFormed;
    KidFacts(f, n, i);
    if i < j { ShapesFromAt(f, n, i + 1, j); }
  }

  lemma ShapeKid(f: Links, n: NodeImp, j: nat)
    requires WellFormed(f) && n in f.kids && j < |f.kids[n]|
    ensures f.kids[n][j] in f.kids && Shape(f, n).kids[j] == Shape(f, f.kids[n][j])
  {
    ShapesFromAt(f, n, 0, j);
  }

  /** The shape depends only on the child lists of the subtree. */
  lemma {:induction false} SameShape(f: Links, g: Links, n: NodeImp)
    requires WellFormed(f) && WellFormed(g) && n in f.kids
    requires forall m :: m in f.kids && InSubtree(f, n, m) ==> m in g.kids && g.kids[m] == f.kids[m]
    ensures n in g.kids && Shape(g, n) == Shape(f, n)
    decreases Floor(f) - f.depth[n]
  {
    assert InSubtree(f, n, n);
    var s, t := Shape(f, n), Shape(g, n);
    forall j | 0 <= j < |f.kids[n]| ensures t.kids[j] == s.kids[j] {
      KidFacts(f, n, j);
      var k := f.kids[n][j];
      assert InSubtree(f, n, k);
      forall m | m in f.kids && InSubtree(f, k, m) ensures m in g.kids && g.kids[m] == f.kids[m] {
        SubtreeTrans(f, n, k, m);
      }
      SameShape(f, g, k);
      ShapeKid(f, n, j);
      ShapeKid(g, n, j);
    }
    assert s.kids == t.kids;
  }

  // isEqualNode.

  /** What the recursive pointer comparison computes, its identity shortcut included. */
  ghost predicate NodesEqual(f: Links, x: NodeImp, y: NodeImp)
    requires WellFormed(f) && x in f.kids && y in f.kids
    decreases Floor(f) - f.depth[x], 1, 0
  {
    x == y || (SameContent(x.content, y.content) && |f.kids[x]| == |f.kids[y]| && KidsEqualFrom(f, x, y, 0))
  }

  ghost predicate KidsEqualFrom(f: Links, x: NodeImp, y: NodeImp, i: nat)
    requires WellFormed(f) && x in f.kids && y in f.kids && i <= |f.kids[x]| == |f.kids[y]|
    decreases Floor(f) - f.depth[x], 0, |f.kids[x]| - i
  {
    i == |f.kids[x]| || (
      KidFacts(f, x, i); KidFacts(f, y, i);
      NodesEqual(f, f.kids[x][i], f.kids[y][i]) && KidsEqualFrom(f, x, y, i + 1))
  }

  /**
   * On trees with steady attributes the identity shortcut changes nothing: the comparison of
   * nodes is the comparison of the trees they stand for.
   */
  lemma {:induction false} NodesEqualIsEqualTree(f: Links, x: NodeImp, y: NodeImp)
    requires WellFormed(f) && x in f.kids && y in f.kids && Everywhere(Shape(f, x), Steady)
    ensures NodesEqual(f, x, y) <==> EqualTree(Shape(f, x), Shape(f, y))
    decreases Floor(f) - f.depth[x], 1, 0
  {
    if x == y {
      EqualReflexive(Shape(f, x));
    } else if |f.kids[x]| == |f.kids[y]| {
      KidsEqualIsEqualTrees(f, x, y, 0);
    }
  }

  lemma {:induction false} KidsEqualIsEqualTrees(f: Links, x: NodeImp, y: NodeImp, i: nat)
    requires WellFormed(f) && x in f.kids && y in f.kids && Everywhere(Shape(f, x), Steady)
    requires i <= |f.kids[x]| == |f.kids[y]|
    ensures KidsEqualFrom(f, x, y, i)
       <==> forall j :: i <= j < |f.kids[x]| ==> EqualTree(Shape(f, x).kids[j], Shape(f, y).kids[j])
    decreases Floor(f) - f.depth[x], 0, |f.kids[x]| - i
  {
    hide WellFormed, SameContent;
    if i < |f.kids[x]| {
      KidFacts(f, x, i);
      KidFacts(f, y, i);
      ShapeKid(f, x, i);
      ShapeKid(f, y, i);
      NodesEqualIsEqualTree(f, f.kids[x][i], f.kids[y][i]);
      KidsEqualIsEqualTrees(f, x, y, i + 1);
    }
  }

  /** The attribute loops: for every attribute of a, the first of b with its local name. */
  method AttributesEqual(a: seq<Attr>, b: seq<Attr>) returns (r: bool)
    ensures r == AttrsMatch(a, b)
  {
    if |a| != |b| {
      return false;
    }
    for i := 0 to |a|
      invariant forall k :: 0 <= k < i ==> FoundIn(a[k], b)
    {
      var found := false;
      var j := 0;
      while j < |b|
        invariant j <= |b| && !found
        invariant forall k :: 0 <= k < j ==> b[k].localName != a[i].localName
      {
        if a[i].localName == b[j].localName {
          if a[i].namespaceURI != b[j].namespaceURI {
            break;
          }
          if a[i].value != b[j].value {
            break;
          }
          found := true;
          break;
        }
        j := j + 1;
      }
      assert found <==> FoundIn(a[i], b);
      if !found {
        return false;
      }
    }
    return true;
  }

  /** What the overrides compare before they call the common part, and the node type, which that compares. */
  method ContentsEqual(a: Label, b: Label) returns (r: bool)
    ensures r == SameContent(a, b)
    ensures Telling(a) && Made(b) ==> (r <==> SameFields(a, b))
  {
    if Telling(a) && Made(b) { SameContentIsSameFields(a, b); }
    hide AttrsMatch, SameFields, Telling, Made;
    match a {
      case Element(ns, prefix, name, attributes) =>
        if !b.Element? {
          return false;
        }
        if ns != b.namespaceURI || prefix != b.prefix || name != b.localName {
          return false;
        }
        var same := AttributesEqual(attributes, b.attributes);
        if !same {
          return false;
        }
      case Text(data) =>
        if !(b.Text? || b.Comment? || b.Characters?) || data != b.data {
          return false;
        }
      case Comment(data) =>
        if !(b.Text? || b.Comment? || b.Characters?) || data != b.data {
          return false;
        }
      case Characters(data) =>
        if !(b.Text? || b.Comment? || b.Characters?) || data != b.data {
          return false;
        }
      case DocumentType(name, publicId, systemId) =>
        if !b.DocumentType? || name != b.name || publicId != b.publicId || systemId != b.systemId {
          return false;
        }
      case _ =>
    }
    return NodeType(a) == NodeType(b);
  }

  lemma NodesEqualIs(f: Links, x: NodeImp, y: NodeImp)
    requires WellFormed(f) && x in f.kids && y in f.kids
    ensures x == y ==> NodesEqual(f, x, y)
    ensures x != y && !(SameContent(x.content, y.content) && |f.kids[x]| == |f.kids[y]|) ==> !NodesEqual(f, x, y)
    ensures x != y && SameContent(x.content, y.content) && |f.kids[x]| == |f.kids[y]| ==>
      (NodesEqual(f, x, y) <==> KidsEqualFrom(f, x, y, 0))
  {
    hide WellFormed, SameContent;
  }

  lemma KidsEqualStep(f: Links, x: NodeImp, y: NodeImp, k: nat)
    requires WellFormed(f) && x in f.kids && y in f.kids && k <= |f.kids[x]| == |f.kids[y]|
    ensures k == |f.kids[x]| ==> KidsEqualFrom(f, x, y, k)
    ensures k < |f.kids[x]| ==>
      && f.kids[x][k] in f.kids && f.kids[y][k] in f.kids
      && (KidsEqualFrom(f, x, y, k) <==> NodesEqual(f, f.kids[x][k], f.kids[y][k]) && KidsEqualFrom(f, x, y, k + 1))
  {
    hide WellFormed;
    if k < |f.kids[x]| {
      KidFacts(f, x, k);
      KidFacts(f, y, k);
    }
  }

  /** The child at place k as a pointer: null behind the last. */
  ghost function KidPtr(f: Links, p: NodeImp, k: nat): NodeImp?
    requires p in f.kids
  {
    if k < |f.kids[p]| then f.kids[p][k] else null
  }

  lemma FirstKid(f: Links, p: NodeImp)
    requires Represents(f) && p in f.kids
    ensures p.firstChild == KidPtr(f, p, 0) && p.childCount == |f.kids[p]|
  {
    hide WellFormed;
    assert p.LinkedAs(f);
  }

  lemma NextKidPtr(f: Links, p: NodeImp, k: nat)
    requires Represents(f) && WellFormed(f) && p in f.kids && k < |f.kids[p]|
    ensures f.kids[p][k] in f.kids && KidPtr(f, p, k) == f.kids[p][k] && f.kids[p][k].nextSibling == KidPtr(f, p, k + 1)
    ensures p in f.depth && f.kids[p][k] in f.depth && f.depth[f.kids[p][k]] == f.depth[p] + 1
    ensures f.depth[f.kids[p][k]] <= Floor(f)
  {
    hide WellFormed;
    KidFacts(f, p, k);
    NextKid(f, p, k);
    assert f.kids[p][k].LinkedAs(f);
  }

  lemma NoKid(f: Links, p: NodeImp, k: nat)
    requires p in f.kids && k <= |f.kids[p]|
    ensures KidPtr(f, p, k) == null <==> k == |f.kids[p]|
  {
  }

  /** Where names are distinct, two nodes are equal just when their trees have the same gist. */
  lemma NodesEqualMeans(f: Links, x: NodeImp, y: NodeImp)
    requires WellFormed(f) && x in f.kids && y in f.kids
    ensures Everywhere(Shape(f, x), Telling) && Everywhere(Shape(f, y), Made) ==>
      (NodesEqual(f, x, y) <==> Forget(Shape(f, x)) == Forget(Shape(f, y)))
  {
    hide *;
    if Everywhere(Shape(f, x), Telling) && Everywhere(Shape(f, y), Made) {
      TellingIsSteady(Shape(f, x));
      NodesEqualIsEqualTree(f, x, y);
      EqualIsSameGist(Shape(f, x), Shape(f, y));
    }
  }

  method IsEqualNode(x: NodeImp, y: NodeImp?, ghost f: Links) returns (r: bool)
    requires Represents(f) && WellFormed(f) && x in f.kids && (y != null ==> y in f.kids)
    ensures r == (y != null && NodesEqual(f, x, y))
    ensures y != null && Everywhere(Shape(f, x), Telling) && Everywhere(Shape(f, y), Made) ==>
      (r <==> Forget(Shape(f, x)) == Forget(Shape(f, y)))
    decreases Floor(f) - f.depth[x]
  {
    hide *;
    if y != null { NodesEqualMeans(f, x, y); }
    if x == y {
      NodesEqualIs(f, x, x);
      return true;
    }
    if y == null {
      return false;
    }
    NodesEqualIs(f, x, y);
    FirstKid(f, x);
    FirstKid(f, y);
    var same := ContentsEqual(x.content, y.content);
    if !same || x.childCount != y.childCount {
      return false;
    }
    var i, j := x.firstChild, y.firstChild;
    ghost var k := 0;
    NoKid(f, x, k);
    NoKid(f, y, k);
    while i != null
      invariant k <= |f.kids[x]| == |f.kids[y]| && i == KidPtr(f, x, k) && j == KidPtr(f, y, k)
      invariant (i == null <==> k == |f.kids[x]|) && (j == null <==> k == |f.kids[x]|)
      invariant KidsEqualFrom(f, x, y, 0) == KidsEqualFrom(f, x, y, k)
      decreases |f.kids[x]| - k
    {
      KidsEqualStep(f, x, y, k);
      NextKidPtr(f, x, k);
      NextKidPtr(f, y, k);
      if j == null {
        return false;
      }
      var equal := IsEqualNode(i, j, f);
      if !equal {
        return false;
      }
      i, j := i.nextSibling, j.nextSibling;
      k := k + 1;
      NoKid(f, x, k);
      NoKid(f, y, k);
    }
    KidsEqualStep(f, x, y, k);
    return j == null;
  }

  lemma NextKid(f: Links, p: NodeImp, k: nat)
    requires WellFormed(f) && p in f.kids && k < |f.kids[p]|
    ensures NextOf(f, f.kids[p][k]) == if k + 1 < |f.kids[p]| then Some(f.kids[p][k + 1]) else None
  {
    hide WellFormed;
    KidFacts(f, p, k);
  }

  // cloneNode.

  ghost function NoHandles(h: Links): map<NodeImp, nat> {
    map n | n in h.kids :: 0
  }

  /** h is one tree, with c on top. */
  ghost predicate OneTree(h: Links, c: NodeImp) {
    WellFormed(h) && c in h.kids && c !in h.parent && forall m :: m in h.kids ==> InSubtree(h, c, m)
  }

  ghost predicate OneOwner(h: Links, owner: NodeImp?) {
    forall m :: m in h.kids ==> m.ownerDocument == owner
  }

  /** Every node at or below n belongs to n's document. */
  ghost predicate OwnedAlike(f: Links, n: NodeImp)
    requires WellFormed(f) && n in f.kids
  {
    forall m :: m in f.kids && InSubtree(f, n, m) ==> m.ownerDocument == n.ownerDocument
  }

  lemma OwnedAlikeBelow(f: Links, n: NodeImp, i: nat)
    requires WellFormed(f) && n in f.kids && OwnedAlike(f, n) && i < |f.kids[n]|
    ensures f.kids[n][i] in f.kids && f.kids[n][i].ownerDocument == n.ownerDocument && OwnedAlike(f, f.kids[n][i])
  {
    KidFacts(f, n, i);
    var k := f.kids[n][i];
    assert InSubtree(f, n, k);
    forall m | m in f.kids && InSubtree(f, k, m) ensures m.ownerDocument == k.ownerDocument {
      SubtreeTrans(f, n, k, m);
    }
  }

  /** A node below n is n or lies below one of its children. */
  lemma {:induction false} BelowKid(f: Links, n: NodeImp, m: NodeImp)
    requires WellFormed(f) && n in f.kids && m in f.kids && InSubtree(f, n, m) && m != n
    ensures exists i :: 0 <= i < |f.kids[n]| && f.kids[n][i] in f.kids && InSubtree(f, f.kids[n][i], m)
    decreases f.depth[m]
  {
    assert ChildOk(f, m);
    var p := f.parent[m];
    if p == n {
      var i :| 0 <= i < |f.kids[n]| && f.kids[n][i] == m;
    } else {
      BelowKid(f, n, p);
      var i :| 0 <= i < |f.kids[n]| && f.kids[n][i] in f.kids && InSubtree(f, f.kids[n][i], p);
      assert InSubtree(f, f.kids[n][i], m);
    }
  }

  ghost predicate KidsAlike(f: Links, n: NodeImp, i: nat)
    requires WellFormed(f) && n in f.kids && i <= |f.kids[n]|
  {
    forall j :: 0 <= j < i ==>
      && f.kids[n][j] in f.kids && f.kids[n][j].ownerDocument == n.ownerDocument && OwnedAlike(f, f.kids[n][j])
  }

  lemma NoneAlike(f: Links, n: NodeImp)
    requires WellFormed(f) && n in f.kids
    ensures KidsAlike(f, n, 0)
  {
  }

  lemma OneMoreAlike(f: Links, n: NodeImp, i: nat)
    requires WellFormed(f) && n in f.kids && i < |f.kids[n]| && KidsAlike(f, n, i) && f.kids[n][i] in f.kids
    requires f.kids[n][i].ownerDocument == n.ownerDocument && OwnedAlike(f, f.kids[n][i])
    ensures KidsAlike(f, n, i + 1)
  {
    hide WellFormed, OwnedAlike;
  }

  lemma AllKidsAlike(f: Links, n: NodeImp)
    requires WellFormed(f) && n in f.kids && KidsAlike(f, n, |f.kids[n]|)
    ensures OwnedAlike(f, n)
  {
    forall m | m in f.kids && InSubtree(f, n, m) ensures m.ownerDocument == n.ownerDocument {
      if m != n { BelowKid(f, n, m); }
    }
  }

  /** Every node is in the document of its parent, or its parent is that document. */
  ghost predicate AtHome(f: Links) {
    Settled(f, OwnersIn(f))
  }

  /** Only documents own nodes. */
  ghost predicate DocumentsOwn(f: Links) {
    forall m :: m in f.kids && m.ownerDocument != null ==> m.ownerDocument.content.Document?
  }

  ghost predicate ChildBelow(f: Links, n: NodeImp, k: NodeImp)
    requires WellFormed(f)
  {
    k in f.parent && k in f.kids && f.parent[k] in f.kids && InSubtree(f, n, f.parent[k])
  }

  /** No document at or below n has a child that it owns itself. */
  ghost predicate NoDocumentOwnsBelow(f: Links, n: NodeImp)
    requires WellFormed(f) && n in f.kids
  {
    forall k :: k in f.parent && ChildBelow(f, n, k) && f.parent[k].content.Document? ==>
      k.ownerDocument == f.parent[k].ownerDocument
  }

  /**
   * In a tree that the mutators made, the owners below n differ exactly if some document there has a child of its own.
   */
  lemma AlikeBelow(f: Links, n: NodeImp)
    requires WellFormed(f) && n in f.kids && AtHome(f) && DocumentsOwn(f)
    ensures OwnedAlike(f, n) <==> NoDocumentOwnsBelow(f, n)
  {
    if OwnedAlike(f, n) {
      forall k | k in f.parent && ChildBelow(f, n, k) ensures k.ownerDocument == f.parent[k].ownerDocument {
        assert InSubtree(f, n, k);
      }
    }
    if NoDocumentOwnsBelow(f, n) {
      forall m | m in f.kids && InSubtree(f, n, m) ensures m.ownerDocument == n.ownerDocument {
        SameOwnerBelow(f, n, m);
      }
    }
  }

  lemma {:induction false} SameOwnerBelow(f: Links, n: NodeImp, m: NodeImp)
    requires WellFormed(f) && n in f.kids && AtHome(f) && DocumentsOwn(f) && NoDocumentOwnsBelow(f, n)
    requires m in f.kids && InSubtree(f, n, m)
    ensures m.ownerDocument == n.ownerDocument
    decreases f.depth[m]
  {
    if m != n {
      assert ChildOk(f, m);
      SameOwnerBelow(f, n, f.parent[m]);
      assert !Foreign(OwnersIn(f), f.parent[m], m);
    }
  }

  /** The clone after i children: the copies of the first i children hang below c, in order. */
  ghost predicate CopiedUpTo(f: Links, n: NodeImp, h: Links, c: NodeImp, i: nat)
    requires WellFormed(f) && n in f.kids
  {
    && OneTree(h, c) && OneOwner(h, n.ownerDocument)
    && c.content == CloneContent(n.content) && |h.kids[c]| == i <= |f.kids[n]|
    && forall j :: 0 <= j < i ==> Shape(h, c).kids[j] == CloneTree(Shape(f, n).kids[j])
  }

  ghost function Hung(h: Links, c: NodeImp, hk: Links, k: NodeImp): Links
    requires OneTree(h, c) && OneTree(hk, k) && Apart(h, hk)
  {
    UnionWellFormed(h, hk);
    UnionLeft(h, hk, c);
    UnionRight(h, hk, k);
    Attach(Union(h, hk), c, |h.kids[c]|, k)
  }

  lemma HungReady(h: Links, c: NodeImp, hk: Links, k: NodeImp)
    requires OneTree(h, c) && OneTree(hk, k) && Apart(h, hk)
    ensures var u := Union(h, hk);
      && WellFormed(u) && u.kids.Keys == h.kids.Keys + hk.kids.Keys && c in u.kids && k in u.kids
      && k !in u.parent && !InSubtree(u, k, c) && c !in u.parent && u.kids[c] == h.kids[c]
    ensures WellFormed(Hung(h, c, hk, k)) && Hung(h, c, hk, k).kids.Keys == h.kids.Keys + hk.kids.Keys
    ensures Hung(h, c, hk, k).kids[c] == h.kids[c] + [k]
  {
    hide WellFormed, Attach;
    UnionWellFormed(h, hk);
    UnionLeft(h, hk, c);
    UnionRight(h, hk, k);
    var u := Union(h, hk);
    assert !InSubtree(u, k, c);
    AttachWellFormed(u, c, |h.kids[c]|, k);
    AttachedKids(u, c, |h.kids[c]|, k);
  }

  lemma AttachedKids(f: Links, p: NodeImp, k: nat, c: NodeImp)
    requires WellFormed(f) && p in f.kids && c in f.kids && k <= |f.kids[p]|
    ensures Attach(f, p, k, c).kids == f.kids[p := f.kids[p][..k] + [c] + f.kids[p][k..]]
    ensures Attach(f, p, k, c).parent == f.parent[c := p]
  {
  }

  lemma HungOneTree(h: Links, c: NodeImp, hk: Links, k: NodeImp)
    requires OneTree(h, c) && OneTree(hk, k) && Apart(h, hk)
    ensures OneTree(Hung(h, c, hk, k), c)
  {
    hide WellFormed, Attach;
    HungReady(h, c, hk, k);
    var u, g, i := Union(h, hk), Hung(h, c, hk, k), |h.kids[c]|;
    AttachedKids(u, c, i, k);
    assert InSubtree(g, c, k);
    forall m | m in g.kids ensures InSubtree(g, c, m) {
      if m in h.kids {
        UnionSubtreeLeft(h, hk, c, m);
        AttachKeepsSubtrees(u, c, i, k, c, m);
      } else {
        UnionSubtreeRight(h, hk, k, m);
        AttachKeepsSubtrees(u, c, i, k, k, m);
        SubtreeTrans(g, c, k, m);
      }
    }
  }

  /** Hanging hk below c changes the child list of c alone. */
  lemma HungKidLists(h: Links, c: NodeImp, hk: Links, k: NodeImp, m: NodeImp)
    requires OneTree(h, c) && OneTree(hk, k) && Apart(h, hk) && (m in h.kids || m in hk.kids) && m != c
    ensures var g := Hung(h, c, hk, k); m in g.kids && g.kids[m] == if m in h.kids then h.kids[m] else hk.kids[m]
  {
    hide WellFormed, Attach;
    HungReady(h, c, hk, k);
    AttachedKids(Union(h, hk), c, |h.kids[c]|, k);
    if m in h.kids { UnionLeft(h, hk, m); } else { UnionRight(h, hk, m); }
  }

  lemma HungShapes(h: Links, c: NodeImp, hk: Links, k: NodeImp)
    requires OneTree(h, c) && OneTree(hk, k) && Apart(h, hk)
    ensures WellFormed(Hung(h, c, hk, k)) && c in Hung(h, c, hk, k).kids
    ensures Shape(Hung(h, c, hk, k), c).kids == Shape(h, c).kids + [Shape(hk, k)]
  {
    hide WellFormed, Attach, Hung, Union;
    HungReady(h, c, hk, k);
    var g, i := Hung(h, c, hk, k), |h.kids[c]|;
    var t := Shape(g, c);
    forall j | 0 <= j < i ensures t.kids[j] == Shape(h, c).kids[j] {
      KidFacts(h, c, j);
      var x := h.kids[c][j];
      SubtreeDepth(h, x, x);
      forall m | m in h.kids && InSubtree(h, x, m) ensures m in g.kids && g.kids[m] == h.kids[m] {
        SubtreeDepth(h, x, m);
        HungKidLists(h, c, hk, k, m);
      }
      SameShape(h, g, x);
      ShapeKid(h, c, j);
      ShapeKid(g, c, j);
    }
    forall m | m in hk.kids && InSubtree(hk, k, m) ensures m in g.kids && g.kids[m] == hk.kids[m] {
      HungKidLists(h, c, hk, k, m);
    }
    SameShape(hk, g, k);
    ShapeKid(g, c, i);
    assert t.kids == Shape(h, c).kids + [Shape(hk, k)];
  }

  lemma CopyStep(f: Links, n: NodeImp, h: Links, c: NodeImp, i: nat, hk: Links, k: NodeImp)
    requires WellFormed(f) && n in f.kids && CopiedUpTo(f, n, h, c, i) && i < |f.kids[n]| && Apart(h, hk)
    requires OneTree(hk, k) && OneOwner(hk, n.ownerDocument) && f.kids[n][i] in f.kids
    requires Shape(hk, k) == CloneTree(Shape(f, f.kids[n][i]))
    ensures CopiedUpTo(f, n, Hung(h, c, hk, k), c, i + 1)
  {
    hide WellFormed, Attach, Hung, Union, OneTree, Shape, CloneTree;
    HungReady(h, c, hk, k);
    HungOneTree(h, c, hk, k);
    HungShapes(h, c, hk, k);
    ShapeKid(f, n, i);
    var g := Hung(h, c, hk, k);
    forall j | 0 <= j < i + 1 ensures Shape(g, c).kids[j] == CloneTree(Shape(f, n).kids[j]) {
    }
  }

  /** Two linked forests side by side are a linked forest. */
  lemma UnionLinked(f: Links, g: Links)
    requires Represents(f) && Represents(g) && Apart(f, g)
    ensures Represents(Union(f, g))
  {
    hide WellFormed;
    UnionWellFormed(f, g);
    forall n | n in Union(f, g).kids ensures n.LinkedAs(Union(f, g)) {
      if n in f.kids { UnionLeft(f, g, n); } else { UnionRight(f, g, n); }
    }
  }

  lemma UnionCounted(f: Links, g: Links)
    requires WellFormed(f) && WellFormed(g) && Apart(f, g) && Counted(f, NoHandles(f)) && Counted(g, NoHandles(g))
    ensures Counted(Union(f, g), NoHandles(Union(f, g)))
  {
    hide WellFormed;
    UnionWellFormed(f, g);
    forall n | n in Union(f, g).kids ensures n.count == if n in Union(f, g).parent then 1 else 0 {
      if n in f.kids { UnionLeft(f, g, n); } else { UnionRight(f, g, n); }
    }
  }

  /** Appending the top of a separate tree is refused exactly for another owner; otherwise it hangs it last. */
  lemma AppendHangs(h: Links, c: NodeImp, hk: Links, k: NodeImp)
    requires OneTree(h, c) && OneTree(hk, k) && Apart(h, hk) && k.ownerDocument != c
    ensures var u := Union(h, hk); var e := Edit.AppendChild(c, Some(k));
      && WellFormed(u) && KnownEdit(u, e) && u.kids.Keys == h.kids.Keys + hk.kids.Keys
      && Answering(u, e) == (if k.ownerDocument == c.ownerDocument then Returned(Some(k)) else Threw(WrongDocument))
      && (k.ownerDocument == c.ownerDocument ==> Editing(u, e) == Hung(h, c, hk, k))
  {
    hide WellFormed, Attach, OneTree, Union, InSubtree, Hung, Move;
    HungReady(h, c, hk, k);
    var u, e := Union(h, hk), Edit.AppendChild(c, Some(k));
    HungIsMove(h, c, hk, k);
    AppendMeans(u, c, k);
    TestsAnswer(u, c, k);
    if k.ownerDocument == c.ownerDocument { GrantedMeans(u, e); } else { RefusedMeans(u, e, WrongDocument); }
  }

  lemma HungIsMove(h: Links, c: NodeImp, hk: Links, k: NodeImp)
    requires OneTree(h, c) && OneTree(hk, k) && Apart(h, hk)
    ensures CanMove(Union(h, hk), c, None, k) && Move(Union(h, hk), c, None, k) == Hung(h, c, hk, k)
  {
    hide WellFormed, Attach, OneTree, Union, InSubtree, Move;
    HungReady(h, c, hk, k);
    MoveIsAttach(Union(h, hk), c, None, k);
  }

  /** The clone's handle while it is being appended: taken before, given back after. */
  method AppendClone(c: NodeImp, k: NodeImp, ghost h: Links, ghost hk: Links) returns (r: Outcome<NodeImp>)
    requires OneTree(h, c) && OneTree(hk, k) && Apart(h, hk) && k.ownerDocument != c
    requires Represents(h) && Represents(hk) && Counted(h, NoHandles(h)) && Counted(hk, NoHandles(hk))
    modifies h.kids.Keys, hk.kids.Keys
    ensures r == if k.ownerDocument == c.ownerDocument then Returned(Some(k)) else Threw(WrongDocument)
    ensures r.Returned? ==> Represents(Hung(h, c, hk, k)) && Counted(Hung(h, c, hk, k), NoHandles(Hung(h, c, hk, k)))
  {
    hide *;
    AppendHangs(h, c, hk, k);
    HungReady(h, c, hk, k);
    Tops(h, c, hk, k);
    UnionLinked(h, hk);
    UnionCounted(h, hk);
    ghost var u := Union(h, hk);
    ghost var handles := NoHandles(u)[k := 1];
    RetainHandle(k, u);
    r := c.AppendChild(k, u, handles);
    if r.Threw? {
      return;
    }
    HungParents(h, c, hk, k);
    SameHandles(u, Hung(h, c, hk, k));
    ReleaseHandle(k, Hung(h, c, hk, k));
  }

  lemma SameHandles(f: Links, g: Links)
    requires f.kids.Keys == g.kids.Keys
    ensures NoHandles(f) == NoHandles(g)
  {
  }

  /** A Node handle on k, the only one in sight. */
  method RetainHandle(k: NodeImp, ghost g: Links)
    requires k in g.kids && Counted(g, NoHandles(g))
    modifies k`count
    ensures Counted(g, NoHandles(g)[k := 1]) && Held(g, NoHandles(g)[k := 1], k)
  {
    k.Retain();
  }

  /** The end of a Node handle on k, the only one in sight. */
  method ReleaseHandle(k: NodeImp, ghost g: Links)
    requires Represents(g) && k in g.kids && k in g.parent && Counted(g, NoHandles(g)[k := 1])
    modifies k`count
    ensures Represents(g) && Counted(g, NoHandles(g))
  {
    hide WellFormed, Represents;
    var dead := k.Release();
    assert !dead;
  }

  lemma Tops(h: Links, c: NodeImp, hk: Links, k: NodeImp)
    requires OneTree(h, c) && OneTree(hk, k) && Apart(h, hk)
    ensures c in h.kids && k in hk.kids && k !in h.kids && WellFormed(h) && WellFormed(hk)
    ensures Union(h, hk).kids.Keys == h.kids.Keys + hk.kids.Keys
  {
    hide WellFormed, InSubtree;
  }

  lemma HungParents(h: Links, c: NodeImp, hk: Links, k: NodeImp)
    requires OneTree(h, c) && OneTree(hk, k) && Apart(h, hk)
    ensures k in Hung(h, c, hk, k).parent && Hung(h, c, hk, k).kids.Keys == Union(h, hk).kids.Keys
  {
  }

  /**
   * Cloning makes only fresh nodes and changes none that existed. The fresh nodes are one
   * well-linked tree, and that tree is the copy of n's tree (or of n alone).
   */
  method CloneNode(n: NodeImp, deep: bool, ghost f: Links) returns (r: Outcome<NodeImp>, ghost h: Links)
    requires Represents(f) && WellFormed(f) && n in f.kids
    ensures deep && !OwnedAlike(f, n) ==> r == Threw(WrongDocument)
    ensures !deep || OwnedAlike(f, n) ==> r.Returned? && r.node.Some? && CloneMade(f, n, deep, r.node.value, h)
    ensures r.Returned? ==> fresh(h.kids.Keys)
    decreases Floor(f) - f.depth[n], 1
  {
    hide Hung, Shape, CloneTree, OwnedAlike, Represents, Counted, WellFormed, CloneMade, CopiedUpTo, CloneContent;
    hide OneTree, OneOwner, Floor;
    ghost var owners := set m | m in f.kids :: m.ownerDocument;
    var c := new NodeImp(n.ownerDocument, CloneContent(n.content));
    assert forall m :: m in f.kids ==> m.ownerDocument in owners && m.ownerDocument != c;
    h := Lone<NodeImp>(c);
    CloneStarts(f, n, c);
    if !deep {
      return Returned(Some(c)), h;
    }
    r, h := CloneKids(n, c, f, h);
    if r.Returned? { Copied(f, n, h, c); }
  }

  lemma CloneStarts(f: Links, n: NodeImp, c: NodeImp)
    requires WellFormed(f) && n in f.kids && c.ownerDocument == n.ownerDocument && c.content == CloneContent(n.content)
    requires c.parentNode == null && c.firstChild == null && c.lastChild == null
    requires c.previousSibling == null && c.nextSibling == null && c.childCount == 0 && c.count == 0
    ensures var h := Lone<NodeImp>(c);
      && Represents(h) && Counted(h, NoHandles(h)) && CopiedUpTo(f, n, h, c, 0) && CloneMade(f, n, false, c, h)
  {
    hide WellFormed, Shape, Represents, Counted;
    LoneLinked(c);
  }

  /** h is a well-linked tree without handles on top of c, all of n's owner, and the copy of n's tree, or of n alone. */
  ghost predicate CloneMade(f: Links, n: NodeImp, deep: bool, c: NodeImp, h: Links)
    reads h.kids.Keys
    requires WellFormed(f) && n in f.kids
  {
    && Represents(h) && OneTree(h, c) && OneOwner(h, n.ownerDocument) && Counted(h, NoHandles(h))
    && Shape(h, c) == if deep then CloneTree(Shape(f, n)) else Tree(CloneContent(n.content), [])
  }

  /** The loop over the children, which appends a clone of each, and ends when one is refused. */
  method CloneKids(n: NodeImp, c: NodeImp, ghost f: Links, ghost lone: Links)
    returns (r: Outcome<NodeImp>, ghost h: Links)
    requires Represents(f) && WellFormed(f) && n in f.kids && Apart(f, lone)
    requires forall m :: m in f.kids ==> m.ownerDocument != c
    requires Represents(lone) && Counted(lone, NoHandles(lone)) && CopiedUpTo(f, n, lone, c, 0)
    modifies lone.kids.Keys
    ensures r == if OwnedAlike(f, n) then Returned(Some(c)) else Threw(WrongDocument)
    ensures r.Returned? ==> fresh(h.kids.Keys - lone.kids.Keys) && lone.kids.Keys <= h.kids.Keys
    ensures r.Returned? ==> Represents(h) && Counted(h, NoHandles(h)) && CopiedUpTo(f, n, h, c, |f.kids[n]|)
    decreases Floor(f) - f.depth[n], 0, 1
  {
    hide Hung, Shape, CloneTree, OwnedAlike, Represents, Counted, WellFormed, CopiedUpTo, KidPtr, KidsAlike;
    hide Floor, NoHandles;
    h := lone;
    FirstKid(f, n);
    ghost var i := 0;
    NoKid(f, n, i);
    NoneAlike(f, n);
    var node := n.firstChild;
    while node != null
      invariant fresh(h.kids.Keys - lone.kids.Keys) && lone.kids.Keys <= h.kids.Keys
      invariant Represents(h) && Counted(h, NoHandles(h)) && Apart(f, h)
      invariant i <= |f.kids[n]| && CopiedUpTo(f, n, h, c, i) && Represents(f) && KidsAlike(f, n, i)
      invariant node == KidPtr(f, n, i) && (node == null <==> i == |f.kids[n]|)
      decreases |f.kids[n]| - i
    {
      NextKidPtr(f, n, i);
      r, h := CloneKid(n, c, node, f, h, i);
      if r.Threw? {
        if OwnedAlike(f, n) { OwnedAlikeBelow(f, n, i); }
        return;
      }
      OneMoreAlike(f, n, i);
      node := node.nextSibling;
      i := i + 1;
      NoKid(f, n, i);
    }
    AllKidsAlike(f, n);
    r := Returned(Some(c));
  }

  /** One turn of the loop over the children: clone the child, append the clone. */
  method CloneKid(n: NodeImp, c: NodeImp, node: NodeImp, ghost f: Links, ghost h: Links, ghost i: nat)
    returns (r: Outcome<NodeImp>, ghost g: Links)
    requires Represents(f) && WellFormed(f) && n in f.kids && Apart(f, h)
    requires forall m :: m in f.kids ==> m.ownerDocument != c
    requires Represents(h) && Counted(h, NoHandles(h)) && CopiedUpTo(f, n, h, c, i)
    requires i < |f.kids[n]| && node == f.kids[n][i] && node in f.kids
    requires n in f.depth && node in f.depth && f.depth[node] == f.depth[n] + 1
    modifies h.kids.Keys
    ensures r.Returned? <==> node.ownerDocument == n.ownerDocument && OwnedAlike(f, node)
    ensures r.Threw? ==> r == Threw(WrongDocument)
    ensures r.Returned? ==> fresh(g.kids.Keys - h.kids.Keys) && h.kids.Keys <= g.kids.Keys
    ensures r.Returned? ==> Represents(g) && Counted(g, NoHandles(g)) && CopiedUpTo(f, n, g, c, i + 1)
    decreases Floor(f) - f.depth[n], 0, 0
  {
    hide Hung, Shape, CloneTree, OwnedAlike, Represents, Counted, WellFormed, OneTree, OneOwner, InSubtree;
    ghost var hk;
    r, hk := CloneNode(node, true, f);
    g := h;
    if r.Threw? {
      return;
    }
    var k := r.node.value;
    assert Apart(h, hk);
    assert c.ownerDocument == n.ownerDocument && k.ownerDocument == node.ownerDocument by {
      TopOwned(h, c, n.ownerDocument);
      TopOwned(hk, k, node.ownerDocument);
    }
    r := AppendClone(c, k, h, hk);
    if r.Threw? {
      return;
    }
    CopyStep(f, n, h, c, i, hk, k);
    HungReady(h, c, hk, k);
    g := Hung(h, c, hk, k);
  }

  lemma TopOwned(h: Links, c: NodeImp, owner: NodeImp?)
    requires OneTree(h, c) && OneOwner(h, owner)
    ensures c.ownerDocument == owner
  {
  }

  lemma LoneLinked(c: NodeImp)
    requires c.parentNode == null && c.firstChild == null && c.lastChild == null
    requires c.previousSibling == null && c.nextSibling == null && c.childCount == 0 && c.count == 0
    ensures var h := Lone<NodeImp>(c);
      && Represents(h) && OneTree(h, c) && OneOwner(h, c.ownerDocument) && Counted(h, NoHandles(h))
      && Shape(h, c) == Tree(c.content, []) && h.kids[c] == []
  {
  }

  lemma Copied(f: Links, n: NodeImp, h: Links, c: NodeImp)
    requires WellFormed(f) && n in f.kids && CopiedUpTo(f, n, h, c, |f.kids[n]|)
    requires Represents(h) && Counted(h, NoHandles(h))
    ensures CloneMade(f, n, true, c, h)
  {
    CopyContent(Shape(f, n));
    hide WellFormed, OneTree, OneOwner, Shape, CloneTree, Represents, Counted;
    var s, t := Shape(h, c), CloneTree(Shape(f, n));
    assert s.kids == t.kids && s.content == t.content;
  }

  lemma CopyContent(t: Tree)
    ensures CloneTree(t).content == CloneContent(t.content)
  {
  }

  /**
   * The public promise of cloneNode: a deep clone is refused exactly when the owners below n differ; otherwise
   * comparing original and clone answers true exactly when the tree holds no comment, no document and no
   * document type and all its attribute lists are steady.
   */
  method CloneAndCompare(n: NodeImp, ghost f: Links) returns (threw: bool, equal: bool)
    requires Represents(f) && WellFormed(f) && n in f.kids
    ensures threw <==> !OwnedAlike(f, n)
    ensures !threw ==> (equal <==> Everywhere(Shape(f, n), Faithful))
  {
    hide WellFormed, Represents, Shape, CloneTree, Everywhere, EqualTree, OwnedAlike, InSubtree;
    var r, h := CloneNode(n, true, f);
    if r.Threw? {
      return true, false;
    }
    var c := r.node.value;
    Apartness(f, h);
    UnionLinked(f, h);
    UnionWellFormed(f, h);
    UnionLeft(f, h, n);
    UnionRight(f, h, c);
    ghost var u := Union(f, h);
    threw := false;
    equal := IsEqualNode(n, c, u);
    UnionShapes(f, h, n, c);
    CloneEqual(Shape(f, n));
    CompareApart(f, h, n, c);
  }

  lemma Apartness(f: Links, h: Links)
    requires forall m :: m in f.kids ==> m !in h.kids
    ensures Apart(f, h)
  {
  }

  lemma UnionShapes(f: Links, h: Links, n: NodeImp, c: NodeImp)
    requires WellFormed(f) && WellFormed(h) && Apart(f, h) && n in f.kids && c in h.kids
    ensures var u := Union(f, h);
      && WellFormed(u) && n in u.kids && c in u.kids
      && Shape(u, n) == Shape(f, n) && Shape(u, c) == Shape(h, c)
  {
    UnionWellFormed(f, h);
    SameShape(f, Union(f, h), n);
    SameShape(h, Union(f, h), c);
  }

  /** Between two trees without common nodes the identity shortcut never applies. */
  lemma {:induction false} CompareApart(f: Links, h: Links, x: NodeImp, y: NodeImp)
    requires WellFormed(f) && WellFormed(h) && Apart(f, h) && x in f.kids && y in h.kids
    ensures var u := Union(f, h);
      && WellFormed(u) && x in u.kids && y in u.kids
      && (NodesEqual(u, x, y) <==> EqualTree(Shape(u, x), Shape(u, y)))
    decreases Floor(f) - f.depth[x], 1, 0
  {
    hide WellFormed, SameContent;
    UnionWellFormed(f, h);
    UnionLeft(f, h, x);
    UnionRight(f, h, y);
    if |f.kids[x]| == |h.kids[y]| {
      CompareKidsApart(f, h, x, y, 0);
    }
  }

  lemma {:induction false} CompareKidsApart(f: Links, h: Links, x: NodeImp, y: NodeImp, i: nat)
    requires WellFormed(f) && WellFormed(h) && Apart(f, h) && x in f.kids && y in h.kids
    requires WellFormed(Union(f, h)) && x in Union(f, h).kids && y in Union(f, h).kids
    requires Union(f, h).kids[x] == f.kids[x] && Union(f, h).kids[y] == h.kids[y]
    requires i <= |f.kids[x]| == |h.kids[y]|
    ensures var u := Union(f, h);
      KidsEqualFrom(u, x, y, i)
      <==> forall j :: i <= j < |f.kids[x]| ==> EqualTree(Shape(u, x).kids[j], Shape(u, y).kids[j])
    decreases Floor(f) - f.depth[x], 0, |f.kids[x]| - i
  {
    hide WellFormed, SameContent;
    var u := Union(f, h);
    if i < |f.kids[x]| {
      KidFacts(f, x, i);
      KidFacts(h, y, i);
      ShapeKid(u, x, i);
      ShapeKid(u, y, i);
      CompareApart(f, h, f.kids[x][i], h.kids[y][i]);
      CompareKidsApart(f, h, x, y, i + 1);
    }
  }

  // Two small runs in which the promise is not kept.

  /** A document takes in a child that it owns. */
  method TakeOwnChild(document: NodeImp, child: NodeImp) returns (taken: Outcome<NodeImp>, ghost g: Links)
    requires document != child && child.ownerDocument == document && document.ownerDocument == null
    requires var a, b := Lone<NodeImp>(document), Lone<NodeImp>(child);
      Represents(a) && Represents(b) && Counted(a, NoHandles(a)) && Counted(b, NoHandles(b))
    modifies document, child
    ensures taken.Returned? && WellFormed(g) && Represents(g) && document in g.kids && !OwnedAlike(g, document)
  {
    hide *;
    ghost var u := Union(Lone<NodeImp>(document), Lone<NodeImp>(child));
    Separately(document, child);
    RetainHandle(child, u);
    OwnChildTaken(u, document, child);
    taken := document.AppendChild(child, u, NoHandles(u)[child := 1]);
    OwnChildBelow(u, document, child);
    g := Move(u, document, None, child);
  }

  /** A document that has taken in a child of its own cannot be cloned with it. */
  method DocumentRefused(content: Label) returns (taken: Outcome<NodeImp>, cloned: Outcome<NodeImp>)
    ensures taken.Returned? && cloned == Threw(WrongDocument)
  {
    var document := new NodeImp(null, Document);
    var child := new NodeImp(document, content);
    LoneLinked(document);
    LoneLinked(child);
    hide *;
    ghost var g, h;
    taken, g := TakeOwnChild(document, child);
    cloned, h := CloneNode(document, true, g);
  }

  lemma LonePair(x: NodeImp, y: NodeImp)
    requires x != y
    ensures var a, b := Lone<NodeImp>(x), Lone<NodeImp>(y);
      Apart(a, b) && Union(a, b).kids.Keys == {x, y} && Union(a, b).parent == map[]
  {
  }

  lemma Separately(x: NodeImp, y: NodeImp)
    requires x != y
    requires var a, b := Lone<NodeImp>(x), Lone<NodeImp>(y);
      Represents(a) && Represents(b) && Counted(a, NoHandles(a)) && Counted(b, NoHandles(b))
    ensures var u := Union(Lone<NodeImp>(x), Lone<NodeImp>(y));
      && Represents(u) && WellFormed(u) && Counted(u, NoHandles(u))
      && u.kids.Keys == {x, y} && u.parent == map[]
  {
    hide *;
    LonePair(x, y);
    var a, b := Lone<NodeImp>(x), Lone<NodeImp>(y);
    Sound(a);
    Sound(b);
    UnionLinked(a, b);
    UnionCounted(a, b);
    UnionWellFormed(a, b);
  }

  lemma OwnChildTaken(u: Links, d: NodeImp, c: NodeImp)
    requires WellFormed(u) && d in u.kids && c in u.kids && u.parent == map[] && d != c && c.ownerDocument == d
    ensures var e := Edit.AppendChild(d, Opt(c));
      && KnownEdit(u, e) && CanMove(u, d, None, c) && Answering(u, e) == Returned(Opt(c))
      && Editing(u, e) == Move(u, d, None, c)
  {
    AppendMeans(u, d, c);
    TestsAnswer(u, d, c);
    assert !InSubtree(u, c, d) && !Alien(d, c);
    GrantedMeans(u, Edit.AppendChild(d, Opt(c)));
  }

  lemma OwnChildBelow(u: Links, d: NodeImp, c: NodeImp)
    requires CanMove(u, d, None, c) && d != c && c.ownerDocument == d && d.ownerDocument == null
    ensures var g := Move(u, d, None, c);
      WellFormed(g) && g.kids.Keys == u.kids.Keys && d in g.kids && !OwnedAlike(g, d)
  {
    MoveWellFormed(u, d, None, c);
    MoveParent(u, d, None, c);
    hide Move;
    var g := Move(u, d, None, c);
    assert c in g.parent && g.parent[c] == d;
    assert InSubtree(g, d, c);
  }

  /** A comment has a deep clone, and is not equal to it. */
  method CommentCompared(data: string) returns (threw: bool, equal: bool)
    ensures !threw && !equal
  {
    var comment := new NodeImp(null, Comment(data));
    ghost var f := Lone<NodeImp>(comment);
    LoneLinked(comment);
    LoneAlike(f, comment);
    hide *;
    threw, equal := CloneAndCompare(comment, f);
  }

  lemma LoneAlike(f: Links, n: NodeImp)
    requires f == Lone<NodeImp>(n) && WellFormed(f) && n.content.Comment?
    ensures n in f.kids && OwnedAlike(f, n) && !Everywhere(Shape(f, n), Faithful)
  {
  }
}
