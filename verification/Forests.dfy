/**
 * The abstract state behind the DOM node links: every node with its child list, the parent
 * of every attached node, and the number of proper ancestors of every node.
 * Exact depths make acyclicity first-order and give climbing loops their measure.
 */
module Forests {
  import opened Sequences

  datatype Forest<N(==)> = Forest(kids: map<N, seq<N>>, parent: map<N, N>, depth: map<N, nat>)

  ghost predicate ChildOk<N>(f: Forest<N>, c: N)
    requires c in f.parent
  {
    && c in f.kids && f.parent[c] in f.kids && c in f.depth && f.parent[c] in f.depth
    && c in f.kids[f.parent[c]]
    && f.depth[c] == f.depth[f.parent[c]] + 1
  }

  ghost predicate KidsOk<N>(f: Forest<N>, p: N)
    requires p in f.kids
  {
    && NoDup(f.kids[p])
    && (forall c :: c in f.kids[p] ==> c in f.parent && f.parent[c] == p)
  }

  ghost predicate WellFormed<N>(f: Forest<N>) {
    && f.depth.Keys == f.kids.Keys && f.parent.Keys <= f.kids.Keys
    && (forall c :: c in f.parent ==> ChildOk(f, c))
    && (forall p :: p in f.kids ==> KidsOk(f, p))
    && (forall r :: r in f.kids && r !in f.parent ==> f.depth[r] == 0)
  }

  /** a is n or one of its ancestors. */
  ghost predicate InSubtree<N>(f: Forest<N>, a: N, n: N)
    requires WellFormed(f) && n in f.kids
    decreases f.depth[n]
  {
    n == a || (n in f.parent && assert ChildOk(f, n); InSubtree(f, a, f.parent[n]))
  }

  ghost function RootOf<N>(f: Forest<N>, n: N): (r: N)
    requires WellFormed(f) && n in f.kids
    ensures r in f.kids && r !in f.parent && InSubtree(f, r, n)
    decreases f.depth[n]
  {
    if n in f.parent then assert ChildOk(f, n); RootOf(f, f.parent[n]) else n
  }

  // What the five link fields of a node must hold.

  ghost function ParentOf<N>(f: Forest<N>, n: N): Option<N> {
    if n in f.parent then Some(f.parent[n]) else None
  }

  ghost function FirstOf<N>(f: Forest<N>, n: N): Option<N>
    requires n in f.kids
  {
    if f.kids[n] == [] then None else Some(f.kids[n][0])
  }

  ghost function LastOf<N>(f: Forest<N>, n: N): Option<N>
    requires n in f.kids
  {
    if f.kids[n] == [] then None else Some(f.kids[n][|f.kids[n]| - 1])
  }

  ghost function PrevOf<N>(f: Forest<N>, n: N): Option<N> {
    if n in f.parent && f.parent[n] in f.kids then PrevIn(f.kids[f.parent[n]], n) else None
  }

  ghost function NextOf<N>(f: Forest<N>, n: N): Option<N> {
    if n in f.parent && f.parent[n] in f.kids then NextIn(f.kids[f.parent[n]], n) else None
  }

  // Elementary changes.

  /** Takes the subtree of c out of its parent's list and makes c a root. */
  ghost function Detach<N>(f: Forest<N>, c: N): Forest<N>
    requires WellFormed(f) && c in f.parent
  {
    assert ChildOk(f, c);
    var p := f.parent[c];
    Forest(f.kids[p := Without(f.kids[p], c)],
           f.parent - {c},
           map n | n in f.kids :: if InSubtree(f, c, n) then Drop(f.depth[n], f.depth[c]) else f.depth[n])
  }

  ghost function Drop(a: nat, b: nat): nat { if a >= b then a - b else 0 }

  /** Hangs the root c under p at position k. */
  ghost function Attach<N>(f: Forest<N>, p: N, k: nat, c: N): Forest<N>
    requires WellFormed(f) && p in f.kids && c in f.kids && k <= |f.kids[p]|
  {
    Forest(f.kids[p := InsertAt(f.kids[p], k, c)],
           f.parent[c := p],
           map n | n in f.kids :: if InSubtree(f, c, n) then f.depth[n] + f.depth[p] + 1 else f.depth[n])
  }

  /** A single node. */
  ghost function Lone<N>(n: N): Forest<N> {
    Forest(map[n := []], map[], map[n := 0])
  }

  lemma {:induction false} SubtreeDepth<N>(f: Forest<N>, a: N, n: N)
    requires WellFormed(f) && n in f.kids && InSubtree(f, a, n)
    ensures a in f.kids && f.depth[a] <= f.depth[n]
    ensures f.depth[a] == f.depth[n] ==> a == n
    decreases f.depth[n]
  {
    if n != a {
      assert ChildOk(f, n);
      SubtreeDepth(f, a, f.parent[n]);
    }
  }

  lemma {:induction false} SubtreeTrans<N>(f: Forest<N>, a: N, b: N, n: N)
    requires WellFormed(f) && n in f.kids && b in f.kids
    requires InSubtree(f, a, b) && InSubtree(f, b, n)
    ensures InSubtree(f, a, n)
    decreases f.depth[n]
  {
    if n != b {
      assert ChildOk(f, n);
      SubtreeTrans(f, a, b, f.parent[n]);
    }
  }

  /** The ancestors of a node form a chain. */
  lemma {:induction false} AncestorsChain<N>(f: Forest<N>, a: N, b: N, n: N)
    requires WellFormed(f) && n in f.kids
    requires InSubtree(f, a, n) && InSubtree(f, b, n) && a in f.kids && b in f.kids
    requires f.depth[a] <= f.depth[b]
    ensures InSubtree(f, a, b)
    decreases f.depth[n]
  {
    if n == b {
    } else {
      assert ChildOk(f, n);
      if n == a {
        SubtreeDepth(f, b, n);
      } else {
        AncestorsChain(f, a, b, f.parent[n]);
      }
    }
  }

  lemma AncestorsAtOneDepth<N>(f: Forest<N>, a: N, b: N, n: N)
    requires WellFormed(f) && n in f.kids && a in f.kids && b in f.kids
    requires InSubtree(f, a, n) && InSubtree(f, b, n) && f.depth[a] == f.depth[b]
    ensures a == b
  {
    AncestorsChain(f, a, b, n);
    SubtreeDepth(f, a, b);
  }

  lemma {:induction false} RootUnique<N>(f: Forest<N>, r: N, n: N)
    requires WellFormed(f) && n in f.kids && InSubtree(f, r, n) && r !in f.parent
    ensures r == RootOf(f, n)
    decreases f.depth[n]
  {
    if n in f.parent {
      assert ChildOk(f, n);
      RootUnique(f, r, f.parent[n]);
    }
  }

  lemma WellChild<N>(f: Forest<N>, c: N)
    requires WellFormed(f) && c in f.parent
    ensures ChildOk(f, c)
  {
  }

  lemma WellKids<N>(f: Forest<N>, p: N)
    requires WellFormed(f) && p in f.kids
    ensures KidsOk(f, p)
  {
  }

  // Detaching.

  lemma DetachDomain<N>(f: Forest<N>, c: N)
    requires WellFormed(f) && c in f.parent
    ensures Detach(f, c).kids.Keys == f.kids.Keys && Detach(f, c).parent == f.parent - {c}
  {
    assert ChildOk(f, c);
  }

  lemma DetachChildOk<N>(f: Forest<N>, c: N, n: N)
    requires WellFormed(f) && c in f.parent && n in f.parent && n != c
    ensures ChildOk(Detach(f, c), n)
  {
    assert ChildOk(f, c) && ChildOk(f, n);
    var p := f.parent[c];
    assert KidsOk(f, p);
    WithoutNoDup(f.kids[p], c);
    assert InSubtree(f, c, n) == InSubtree(f, c, f.parent[n]);
    if InSubtree(f, c, n) {
      SubtreeDepth(f, c, n);
      SubtreeDepth(f, c, f.parent[n]);
    }
  }

  lemma DetachKidsOk<N>(f: Forest<N>, c: N, q: N)
    requires WellFormed(f) && c in f.parent && q in f.kids
    ensures q in Detach(f, c).kids && KidsOk(Detach(f, c), q)
  {
    assert ChildOk(f, c);
    assert KidsOk(f, q);
    WithoutNoDup(f.kids[q], c);
  }

  lemma DetachRootDepth<N>(f: Forest<N>, c: N, r: N)
    requires WellFormed(f) && c in f.parent && r in f.kids && (r == c || r !in f.parent)
    ensures Detach(f, c).depth[r] == 0
  {
    assert r != c ==> !InSubtree(f, c, r);
  }

  lemma DetachWellFormed<N>(f: Forest<N>, c: N)
    requires WellFormed(f) && c in f.parent
    ensures WellFormed(Detach(f, c)) && Detach(f, c).kids.Keys == f.kids.Keys
  {
    hide InSubtree, ChildOk, KidsOk, Without;
    WellChild(f, c);
    DetachDomain(f, c);
    var g := Detach(f, c);
    forall n | n in g.parent ensures ChildOk(g, n) { DetachChildOk(f, c, n); }
    forall q | q in g.kids ensures KidsOk(g, q) { DetachKidsOk(f, c, q); }
    forall r | r in g.kids && r !in g.parent ensures g.depth[r] == 0 { DetachRootDepth(f, c, r); }
  }

  lemma {:induction false} DetachShrinksSubtrees<N>(f: Forest<N>, c: N, a: N, n: N)
    requires WellFormed(f) && c in f.parent && WellFormed(Detach(f, c)) && n in f.kids
    requires InSubtree(Detach(f, c), a, n)
    ensures InSubtree(f, a, n)
    decreases f.depth[n]
  {
    var g := Detach(f, c);
    if n != a {
      assert ChildOk(g, n) && ChildOk(f, n);
      assert f.parent[n] == g.parent[n];
      DetachShrinksSubtrees(f, c, a, f.parent[n]);
    }
  }

  /** Detaching rewrites exactly the links that the unlinking code assigns: parent and ends. */
  lemma DetachEnds<N>(f: Forest<N>, c: N, n: N)
    requires WellFormed(f) && c in f.parent && n in f.kids
    ensures n in Detach(f, c).kids
    ensures var g := Detach(f, c); var p := f.parent[c];
      && ParentOf(g, n) == (if n == c then None else ParentOf(f, n))
      && |g.kids[n]| == |f.kids[n]| - (if n == p then 1 else 0)
      && FirstOf(g, n) == (if n == p && PrevOf(f, c) == None then NextOf(f, c) else FirstOf(f, n))
      && LastOf(g, n) == (if n == p && NextOf(f, c) == None then PrevOf(f, c) else LastOf(f, n))
  {
    hide WellFormed, InSubtree;
    WellChild(f, c);
    WellKids(f, f.parent[c]);
    WithoutSiblings(f.kids[f.parent[c]], c, c);
  }

  /** Detaching rewrites exactly the links that the unlinking code assigns: siblings. */
  lemma DetachSiblings<N>(f: Forest<N>, c: N, n: N)
    requires WellFormed(f) && c in f.parent && n in f.kids
    ensures var g := Detach(f, c);
      && PrevOf(g, n) == (if n == c then None else if Some(n) == NextOf(f, c) then PrevOf(f, c) else PrevOf(f, n))
      && NextOf(g, n) == (if n == c then None else if Some(n) == PrevOf(f, c) then NextOf(f, c) else NextOf(f, n))
  {
    hide WellFormed, InSubtree;
    WellChild(f, c);
    WellKids(f, f.parent[c]);
    if n in f.parent {
      WellChild(f, n);
      WellKids(f, f.parent[n]);
      WithoutSiblings(f.kids[f.parent[n]], c, n);
    }
  }

  // Attaching.

  lemma AttachChildOk<N>(f: Forest<N>, p: N, k: nat, c: N, n: N)
    requires WellFormed(f) && p in f.kids && c in f.kids && k <= |f.kids[p]|
    requires c !in f.parent && !InSubtree(f, c, p) && (n in f.parent || n == c)
    ensures n in Attach(f, p, k, c).parent && ChildOk(Attach(f, p, k, c), n)
  {
    assert KidsOk(f, p);
    InsertAtNoDup(f.kids[p], k, c);
    if n != c {
      assert ChildOk(f, n);
      assert InSubtree(f, c, n) == InSubtree(f, c, f.parent[n]);
    }
  }

  lemma AttachKidsOk<N>(f: Forest<N>, p: N, k: nat, c: N, q: N)
    requires WellFormed(f) && p in f.kids && c in f.kids && k <= |f.kids[p]|
    requires c !in f.parent && q in f.kids
    ensures q in Attach(f, p, k, c).kids && KidsOk(Attach(f, p, k, c), q)
  {
    assert KidsOk(f, p) && KidsOk(f, q);
    InsertAtNoDup(f.kids[p], k, c);
  }

  lemma AttachWellFormed<N>(f: Forest<N>, p: N, k: nat, c: N)
    requires WellFormed(f) && p in f.kids && c in f.kids && k <= |f.kids[p]|
    requires c !in f.parent && !InSubtree(f, c, p)
    ensures WellFormed(Attach(f, p, k, c)) && Attach(f, p, k, c).kids.Keys == f.kids.Keys
  {
    hide InSubtree, ChildOk, KidsOk, InsertAt;
    var g := Attach(f, p, k, c);
    assert g.depth.Keys == g.kids.Keys == f.kids.Keys && g.parent.Keys == f.parent.Keys + {c};
    forall n | n in g.parent ensures ChildOk(g, n) { AttachChildOk(f, p, k, c, n); }
    forall q | q in g.kids ensures KidsOk(g, q) { AttachKidsOk(f, p, k, c, q); }
    forall r | r in g.kids && r !in g.parent ensures g.depth[r] == 0 { AttachRootDepth(f, p, k, c, r); }
  }

  lemma AttachRootDepth<N>(f: Forest<N>, p: N, k: nat, c: N, r: N)
    requires WellFormed(f) && p in f.kids && c in f.kids && k <= |f.kids[p]|
    requires r in f.kids && r != c && r !in f.parent
    ensures Attach(f, p, k, c).depth[r] == 0
  {
    assert !InSubtree(f, c, r);
  }

  ghost function KidBefore<N>(f: Forest<N>, p: N, k: nat): Option<N>
    requires p in f.kids && k <= |f.kids[p]|
  {
    if k == 0 then None else Some(f.kids[p][k - 1])
  }

  ghost function KidAt<N>(f: Forest<N>, p: N, k: nat): Option<N>
    requires p in f.kids && k <= |f.kids[p]|
  {
    if k == |f.kids[p]| then None else Some(f.kids[p][k])
  }

  /** Attaching rewrites exactly the links that the inserting and appending code assigns: parent and ends. */
  lemma AttachEnds<N>(f: Forest<N>, p: N, k: nat, c: N, n: N)
    requires WellFormed(f) && p in f.kids && c in f.kids && k <= |f.kids[p]| && n in f.kids
    ensures n in Attach(f, p, k, c).kids
    ensures var g := Attach(f, p, k, c);
      && ParentOf(g, n) == (if n == c then Some(p) else ParentOf(f, n))
      && |g.kids[n]| == |f.kids[n]| + (if n == p then 1 else 0)
      && FirstOf(g, n) == (if n == p && k == 0 then Some(c) else FirstOf(f, n))
      && LastOf(g, n) == (if n == p && k == |f.kids[p]| then Some(c) else LastOf(f, n))
  {
    hide WellFormed, InSubtree;
  }

  /** Attaching rewrites exactly the links that the inserting and appending code assigns: siblings. */
  lemma AttachSiblings<N>(f: Forest<N>, p: N, k: nat, c: N, n: N)
    requires WellFormed(f) && p in f.kids && c in f.kids && k <= |f.kids[p]| && n in f.kids
    requires c !in f.parent
    ensures var g := Attach(f, p, k, c); var before := KidBefore(f, p, k); var after := KidAt(f, p, k);
      && PrevOf(g, n) == (if n == c then before else if Some(n) == after then Some(c) else PrevOf(f, n))
      && NextOf(g, n) == (if n == c then after else if Some(n) == before then Some(c) else NextOf(f, n))
  {
    hide WellFormed, InSubtree;
    WellKids(f, p);
    if n == c {
      InsertAtPrev(f.kids[p], k, c, n);
      InsertAtNext(f.kids[p], k, c, n);
    } else if n in f.parent {
      WellChild(f, n);
      if f.parent[n] == p {
        InsertAtPrev(f.kids[p], k, c, n);
        InsertAtNext(f.kids[p], k, c, n);
      } else {
        assert n !in f.kids[p];
      }
    } else {
      assert n !in f.kids[p];
    }
  }

  // Two forests side by side.

  ghost function Union<N>(f: Forest<N>, g: Forest<N>): Forest<N> {
    Forest(f.kids + g.kids, f.parent + g.parent, f.depth + g.depth)
  }

  ghost predicate Apart<N>(f: Forest<N>, g: Forest<N>) {
    f.kids.Keys !! g.kids.Keys
  }

  lemma UnionLeft<N>(f: Forest<N>, g: Forest<N>, n: N)
    requires WellFormed(f) && WellFormed(g) && Apart(f, g) && n in f.kids
    ensures var u := Union(f, g);
      && n in u.kids && u.kids[n] == f.kids[n] && ParentOf(u, n) == ParentOf(f, n) && u.depth[n] == f.depth[n]
      && PrevOf(u, n) == PrevOf(f, n) && NextOf(u, n) == NextOf(f, n)
  {
    if n in f.parent { WellChild(f, n); }
  }

  lemma UnionRight<N>(f: Forest<N>, g: Forest<N>, n: N)
    requires WellFormed(f) && WellFormed(g) && Apart(f, g) && n in g.kids
    ensures var u := Union(f, g);
      && n in u.kids && u.kids[n] == g.kids[n] && ParentOf(u, n) == ParentOf(g, n) && u.depth[n] == g.depth[n]
      && PrevOf(u, n) == PrevOf(g, n) && NextOf(u, n) == NextOf(g, n)
  {
    if n in g.parent { WellChild(g, n); }
  }

  lemma UnionWellFormed<N>(f: Forest<N>, g: Forest<N>)
    requires WellFormed(f) && WellFormed(g) && Apart(f, g)
    ensures WellFormed(Union(f, g)) && Union(f, g).kids.Keys == f.kids.Keys + g.kids.Keys
  {
    hide KidsOk, ChildOk;
    var u := Union(f, g);
    forall c | c in u.parent ensures ChildOk(u, c) {
      UnionChildOk(f, g, c);
    }
    forall p | p in u.kids ensures KidsOk(u, p) {
      UnionKidsOk(f, g, p);
    }
  }

  lemma UnionChildOk<N>(f: Forest<N>, g: Forest<N>, c: N)
    requires WellFormed(f) && WellFormed(g) && Apart(f, g) && c in Union(f, g).parent
    ensures ChildOk(Union(f, g), c)
  {
    if c in g.parent { WellChild(g, c); } else { WellChild(f, c); }
  }

  lemma UnionKidsOk<N>(f: Forest<N>, g: Forest<N>, p: N)
    requires WellFormed(f) && WellFormed(g) && Apart(f, g) && p in Union(f, g).kids
    ensures KidsOk(Union(f, g), p)
  {
    if p in g.kids { WellKids(g, p); } else { WellKids(f, p); }
  }

  lemma {:induction false} UnionSubtreeLeft<N>(f: Forest<N>, g: Forest<N>, a: N, n: N)
    requires WellFormed(f) && WellFormed(g) && Apart(f, g) && WellFormed(Union(f, g)) && n in f.kids
    ensures n in Union(f, g).kids && (InSubtree(Union(f, g), a, n) <==> InSubtree(f, a, n))
    decreases f.depth[n]
  {
    UnionLeft(f, g, n);
    if n in f.parent {
      WellChild(f, n);
      UnionSubtreeLeft(f, g, a, f.parent[n]);
    }
  }

  lemma {:induction false} UnionSubtreeRight<N>(f: Forest<N>, g: Forest<N>, a: N, n: N)
    requires WellFormed(f) && WellFormed(g) && Apart(f, g) && WellFormed(Union(f, g)) && n in g.kids
    ensures n in Union(f, g).kids && (InSubtree(Union(f, g), a, n) <==> InSubtree(g, a, n))
    decreases g.depth[n]
  {
    UnionRight(f, g, n);
    if n in g.parent {
      WellChild(g, n);
      UnionSubtreeRight(f, g, a, g.parent[n]);
    }
  }

  /** Attaching keeps every ancestor relation. */
  lemma {:induction false} AttachKeepsSubtrees<N>(f: Forest<N>, p: N, k: nat, c: N, a: N, n: N)
    requires WellFormed(f) && p in f.kids && c in f.kids && k <= |f.kids[p]| && n in f.kids
    requires c !in f.parent && WellFormed(Attach(f, p, k, c)) && InSubtree(f, a, n)
    ensures InSubtree(Attach(f, p, k, c), a, n)
    decreases f.depth[n]
  {
    if n != a {
      WellChild(f, n);
      AttachKeepsSubtrees(f, p, k, c, a, f.parent[n]);
    }
  }
}
