/**
 * Document order. `Walk` lists the nodes of `es` met when only nodes of `es` are entered;
 * with all nodes it is the preorder of the tree, with the elements it is what a walk from
 * element to element can see.
 */
module ForestOrder {
  import opened Sequences
  import opened Forests

  ghost function MaxOf(s: set<nat>): (b: nat)
    ensures forall x :: x in s ==> x <= b
  {
    if s == {} then 0 else
      var x :| x in s;
      var b := MaxOf(s - {x});
      assert forall y :: y in s ==> y == x || y in s - {x};
      if x > b then x else b
  }

  ghost function Floor<N>(f: Forest<N>): (b: nat)
    ensures forall n :: n in f.depth ==> f.depth[n] <= b
  {
    var b := MaxOf(f.depth.Values);
    assert forall n :: n in f.depth ==> f.depth[n] in f.depth.Values;
    b
  }

  ghost function Walk<N>(f: Forest<N>, es: set<N>, n: N): seq<N>
    requires WellFormed(f) && n in f.kids
    decreases Floor(f) - f.depth[n], 1, 0
  {
    if n in es then [n] + WalkFrom(f, es, n, 0) else []
  }

  /** The walk over the children of n from position i on. */
  ghost function WalkFrom<N>(f: Forest<N>, es: set<N>, n: N, i: nat): seq<N>
    requires WellFormed(f) && n in f.kids && i <= |f.kids[n]|
    decreases Floor(f) - f.depth[n], 0, |f.kids[n]| - i
  {
    if i == |f.kids[n]| then [] else
      KidFacts(f, n, i);
      Walk(f, es, f.kids[n][i]) + WalkFrom(f, es, n, i + 1)
  }

  lemma KidFacts<N>(f: Forest<N>, n: N, i: nat)
    requires WellFormed(f) && n in f.kids && i < |f.kids[n]|
    ensures var k := f.kids[n][i];
      k in f.kids && k in f.parent && k in f.depth && n in f.depth && f.parent[k] == n && f.depth[k] == f.depth[n] + 1
    ensures IndexOf(f.kids[n], f.kids[n][i]) == i
  {
    assert KidsOk(f, n) && f.kids[n][i] in f.kids[n];
    assert ChildOk(f, f.kids[n][i]);
    IndexOfUnique(f.kids[n], i);
  }

  ghost function Preorder<N>(f: Forest<N>, n: N): seq<N>
    requires WellFormed(f) && n in f.kids
  {
    Walk(f, f.kids.Keys, n)
  }

  /** What the walk below n sees, after n itself when n counts. */
  ghost function Listing<N>(f: Forest<N>, es: set<N>, n: N): seq<N>
    requires WellFormed(f) && n in f.kids
  {
    (if n in es then [n] else []) + WalkFrom(f, es, n, 0)
  }

  ghost predicate AtTop<N>(f: Forest<N>, root: Option<N>, n: N) {
    root == Some(n) || n !in f.parent
  }

  /** What is left of the walk of root's tree once the subtree of n is done. */
  ghost function Beyond<N>(f: Forest<N>, es: set<N>, root: Option<N>, n: N): seq<N>
    requires WellFormed(f) && n in f.kids
    decreases f.depth[n]
  {
    if AtTop(f, root, n) then [] else
      WellChild(f, n);
      var p := f.parent[n];
      WalkFrom(f, es, p, IndexOf(f.kids[p], n) + 1) + Beyond(f, es, root, p)
  }

  /** What is left of the walk once n has been visited. */
  ghost function Rest<N>(f: Forest<N>, es: set<N>, root: Option<N>, n: N): seq<N>
    requires WellFormed(f) && n in f.kids
  {
    WalkFrom(f, es, n, 0) + Beyond(f, es, root, n)
  }

  // Stepping from element to element.

  ghost predicate Inside<N>(f: Forest<N>, root: Option<N>, n: N)
    requires WellFormed(f)
  {
    n in f.kids && (root.Some? ==> root.value in f.kids && InSubtree(f, root.value, n))
  }

  lemma InsideKid<N>(f: Forest<N>, root: Option<N>, n: N, i: nat)
    requires WellFormed(f) && Inside(f, root, n) && i < |f.kids[n]|
    ensures Inside(f, root, f.kids[n][i]) && root != Some(f.kids[n][i])
  {
    KidFacts(f, n, i);
    if root.Some? { SubtreeDepth(f, root.value, n); }
  }

  /** w, if anything, is its first element followed by what that element leaves. */
  ghost predicate StepsOn<N>(f: Forest<N>, es: set<N>, root: Option<N>, w: seq<N>)
    requires WellFormed(f)
  {
    w != [] ==> w[0] in es && Inside(f, root, w[0]) && w == [w[0]] + Rest(f, es, root, w[0])
  }

  lemma {:induction false} KidsStep<N>(f: Forest<N>, es: set<N>, root: Option<N>, n: N, i: nat)
    requires WellFormed(f) && Inside(f, root, n) && i <= |f.kids[n]| && WalkFrom(f, es, n, i) != []
    ensures StepsOn(f, es, root, WalkFrom(f, es, n, i) + Beyond(f, es, root, n))
    decreases |f.kids[n]| - i
  {
    hide WellFormed, InSubtree;
    KidFacts(f, n, i);
    InsideKid(f, root, n, i);
    var k := f.kids[n][i];
    if k !in es {
      KidsStep(f, es, root, n, i + 1);
      assert WalkFrom(f, es, n, i) == WalkFrom(f, es, n, i + 1);
    } else {
      assert Beyond(f, es, root, k) == WalkFrom(f, es, n, i + 1) + Beyond(f, es, root, n);
    }
  }

  lemma {:induction false} BeyondStep<N>(f: Forest<N>, es: set<N>, root: Option<N>, n: N)
    requires WellFormed(f) && Inside(f, root, n)
    ensures StepsOn(f, es, root, Beyond(f, es, root, n))
    decreases f.depth[n]
  {
    hide WellFormed;
    if !AtTop(f, root, n) {
      WellChild(f, n);
      var p := f.parent[n];
      var i := IndexOf(f.kids[p], n) + 1;
      if WalkFrom(f, es, p, i) == [] {
        BeyondStep(f, es, root, p);
      } else {
        KidsStep(f, es, root, p, i);
      }
    }
  }

  /** The walk still to come, element by element. */
  lemma RestStep<N>(f: Forest<N>, es: set<N>, root: Option<N>, n: N)
    requires WellFormed(f) && Inside(f, root, n)
    ensures StepsOn(f, es, root, Rest(f, es, root, n))
  {
    if WalkFrom(f, es, n, 0) == [] {
      BeyondStep(f, es, root, n);
    } else {
      KidsStep(f, es, root, n, 0);
    }
  }

  // Where the walk of a node sits in the walk of the whole tree.

  /** Every node strictly between root and n, and n itself unless it is root, is entered by the walk. */
  ghost predicate PathIn<N>(f: Forest<N>, es: set<N>, root: N, n: N)
    requires WellFormed(f) && n in f.kids
    decreases f.depth[n]
  {
    n == root || (n in es && n in f.parent && (WellChild(f, n); PathIn(f, es, root, f.parent[n])))
  }

  lemma {:induction false} WalkSplit<N>(f: Forest<N>, es: set<N>, n: N, i: nat, j: nat) returns (u: seq<N>)
    requires WellFormed(f) && n in f.kids && i <= j <= |f.kids[n]|
    ensures WalkFrom(f, es, n, i) == u + WalkFrom(f, es, n, j)
    decreases j - i
  {
    if i == j {
      u := [];
    } else {
      hide WellFormed, Walk;
      KidFacts(f, n, i);
      var v := WalkSplit(f, es, n, i + 1, j);
      var k := Walk(f, es, f.kids[n][i]);
      u := k + v;
      assert k + (v + WalkFrom(f, es, n, j)) == u + WalkFrom(f, es, n, j);
    }
  }

  lemma Regroup<T>(v: seq<T>, h: seq<T>, t: seq<T>, l: seq<T>, w: seq<T>, b: seq<T>)
    ensures v + (h + (t + (l + w))) + b == v + h + t + l + (w + b)
  {
  }

  lemma {:induction false} Zip<N>(f: Forest<N>, es: set<N>, root: N, n: N) returns (u: seq<N>)
    requires WellFormed(f) && n in f.kids && root in f.kids && PathIn(f, es, root, n)
    ensures Listing(f, es, root) == u + Listing(f, es, n) + Beyond(f, es, Some(root), n)
    decreases f.depth[n]
  {
    hide WellFormed;
    if n == root {
      u := [];
    } else {
      WellChild(f, n);
      var p := f.parent[n];
      var k := IndexOf(f.kids[p], n);
      var v := Zip(f, es, root, p);
      var t := WalkSplit(f, es, p, 0, k);
      var h := if p in es then [p] else [];
      u := v + h + t;
      var b := Beyond(f, es, Some(root), p);
      var w := WalkFrom(f, es, p, k + 1);
      assert WalkFrom(f, es, p, k) == Listing(f, es, n) + w;
      assert Beyond(f, es, Some(root), n) == w + b;
      Regroup(v, h, t, Listing(f, es, n), w, b);
    }
  }

  lemma {:induction false} BeyondNoRoot<N>(f: Forest<N>, es: set<N>, n: N)
    requires WellFormed(f) && n in f.kids
    ensures Beyond(f, es, Some(RootOf(f, n)), n) == Beyond(f, es, None, n)
    decreases f.depth[n]
  {
    if n in f.parent {
      WellChild(f, n);
      BeyondNoRoot(f, es, f.parent[n]);
    }
  }

  /**
   * Without a root the walk goes on to the end of the whole tree: what precedes n, n, and
   * what n leaves together make up the walk of the tree that n is in.
   */
  lemma RestToTheEnd<N>(f: Forest<N>, es: set<N>, n: N) returns (u: seq<N>)
    requires WellFormed(f) && n in f.kids && n in es && PathIn(f, es, RootOf(f, n), n)
    ensures Listing(f, es, RootOf(f, n)) == u + [n] + Rest(f, es, None, n)
  {
    u := Zip(f, es, RootOf(f, n), n);
    BeyondNoRoot(f, es, n);
    assert u + ([n] + WalkFrom(f, es, n, 0)) + Beyond(f, es, None, n) == u + [n] + Rest(f, es, None, n);
  }

  lemma {:induction false} PathInAll<N>(f: Forest<N>, root: N, n: N)
    requires WellFormed(f) && n in f.kids && InSubtree(f, root, n)
    ensures PathIn(f, f.kids.Keys, root, n)
    decreases f.depth[n]
  {
    if n != root {
      WellChild(f, n);
      PathInAll(f, root, f.parent[n]);
    }
  }

  /** The preorder of a subtree is a block of the preorder of every tree around it. */
  lemma PreorderBlock<N>(f: Forest<N>, root: N, n: N) returns (u: seq<N>, v: seq<N>)
    requires WellFormed(f) && n in f.kids && root in f.kids && InSubtree(f, root, n)
    ensures Preorder(f, root) == u + Preorder(f, n) + v
  {
    PathInAll(f, root, n);
    u := Zip(f, f.kids.Keys, root, n);
    v := Beyond(f, f.kids.Keys, Some(root), n);
  }

  // Members.

  lemma {:induction false} WalkMembers<N>(f: Forest<N>, es: set<N>, n: N, x: N)
    requires WellFormed(f) && n in f.kids && x in Walk(f, es, n)
    ensures x in f.kids && x in es && InSubtree(f, n, x)
    decreases Floor(f) - f.depth[n], 1, 0
  {
    if x != n {
      var j := WalkFromMembers(f, es, n, 0, x);
    }
  }

  lemma {:induction false} WalkFromMembers<N>(f: Forest<N>, es: set<N>, n: N, i: nat, x: N) returns (j: nat)
    requires WellFormed(f) && n in f.kids && i <= |f.kids[n]| && x in WalkFrom(f, es, n, i)
    ensures i <= j < |f.kids[n]| && x in f.kids && x in es && InSubtree(f, f.kids[n][j], x)
    ensures InSubtree(f, n, x) && x != n
    decreases Floor(f) - f.depth[n], 0, |f.kids[n]| - i
  {
    KidFacts(f, n, i);
    var k := f.kids[n][i];
    if x in Walk(f, es, k) {
      WalkMembers(f, es, k, x);
      SubtreeTrans(f, n, k, x);
      SubtreeDepth(f, k, x);
      j := i;
    } else {
      j := WalkFromMembers(f, es, n, i + 1, x);
    }
  }

  /** The preorder lists exactly the subtree. */
  lemma PreorderIsSubtree<N>(f: Forest<N>, n: N, x: N)
    requires WellFormed(f) && n in f.kids
    ensures x in Preorder(f, n) <==> x in f.kids && InSubtree(f, n, x)
  {
    if x in Preorder(f, n) {
      WalkMembers(f, f.kids.Keys, n, x);
    }
    if x in f.kids && InSubtree(f, n, x) {
      var u, v := PreorderBlock(f, n, x);
      assert (u + Preorder(f, x) + v)[|u|] == x;
    }
  }

  /** Nothing is listed twice. */
  lemma {:induction false} WalkNoDup<N>(f: Forest<N>, es: set<N>, n: N)
    requires WellFormed(f) && n in f.kids
    ensures NoDup(Walk(f, es, n))
    decreases Floor(f) - f.depth[n], 1, 0
  {
    WalkFromNoDup(f, es, n, 0);
    if n in WalkFrom(f, es, n, 0) {
      var j := WalkFromMembers(f, es, n, 0, n);
    }
  }

  lemma {:induction false} WalkFromNoDup<N>(f: Forest<N>, es: set<N>, n: N, i: nat)
    requires WellFormed(f) && n in f.kids && i <= |f.kids[n]|
    ensures NoDup(WalkFrom(f, es, n, i))
    decreases Floor(f) - f.depth[n], 0, |f.kids[n]| - i
  {
    hide WellFormed, InSubtree;
    if i < |f.kids[n]| {
      KidFacts(f, n, i);
      var k := f.kids[n][i];
      WalkNoDup(f, es, k);
      WalkFromNoDup(f, es, n, i + 1);
      forall x | x in Walk(f, es, k)
        ensures x !in WalkFrom(f, es, n, i + 1)
      {
        if x in WalkFrom(f, es, n, i + 1) {
          WalkMembers(f, es, k, x);
          var j := WalkFromMembers(f, es, n, i + 1, x);
          KidFacts(f, n, j);
          AncestorsAtOneDepth(f, k, f.kids[n][j], x);
        }
      }
      NoDupConcat(Walk(f, es, k), WalkFrom(f, es, n, i + 1));
    }
  }

  lemma NoDupConcat<T>(s: seq<T>, t: seq<T>)
    requires NoDup(s) && NoDup(t) && forall x :: x in s ==> x !in t
    ensures NoDup(s + t)
  {
    forall i, j | 0 <= i < j < |s + t| ensures (s + t)[i] != (s + t)[j] {
      if i < |s| <= j {
        assert (s + t)[i] in s && (s + t)[j] in t;
      }
    }
  }

  // The walk over es against the preorder restricted to es.

  ghost function Filter<T>(s: seq<T>, es: set<T>): seq<T> {
    if s == [] then [] else (if s[0] in es then [s[0]] else []) + Filter(s[1..], es)
  }

  lemma {:induction false} FilterConcat<T>(s: seq<T>, t: seq<T>, es: set<T>)
    ensures Filter(s + t, es) == Filter(s, es) + Filter(t, es)
  {
    if s == [] {
      assert s + t == t;
    } else {
      FilterConcat(s[1..], t, es);
      var h := if s[0] in es then [s[0]] else [];
      assert (s + t)[0] == s[0] && (s + t)[1..] == s[1..] + t;
      assert h + (Filter(s[1..], es) + Filter(t, es)) == h + Filter(s[1..], es) + Filter(t, es);
    }
  }

  lemma {:induction false} FilterNone<T>(s: seq<T>, es: set<T>)
    requires forall x :: x in s ==> x !in es
    ensures Filter(s, es) == []
  {
    if s != [] { FilterNone(s[1..], es); }
  }

  lemma {:induction false} FilterMembers<T>(s: seq<T>, es: set<T>, x: T)
    ensures x in Filter(s, es) <==> x in s && x in es
  {
    if s != [] { FilterMembers(s[1..], es, x); }
  }

  /** Nothing outside es, at or below n, has a node of es below it. */
  ghost predicate NothingHidden<N>(f: Forest<N>, es: set<N>, n: N)
    requires WellFormed(f) && n in f.kids
  {
    forall a, x :: a in f.kids && x in f.kids && InSubtree(f, n, a) && InSubtree(f, a, x) && x in es ==> a in es
  }

  lemma NothingHiddenBelow<N>(f: Forest<N>, es: set<N>, n: N, i: nat)
    requires WellFormed(f) && n in f.kids && NothingHidden(f, es, n) && i < |f.kids[n]|
    ensures f.kids[n][i] in f.kids && NothingHidden(f, es, f.kids[n][i])
  {
    KidFacts(f, n, i);
    var k := f.kids[n][i];
    forall a, x | a in f.kids && x in f.kids && InSubtree(f, k, a) && InSubtree(f, a, x) && x in es
      ensures a in es
    {
      assert InSubtree(f, n, k);
      SubtreeTrans(f, n, k, a);
    }
  }

  lemma {:induction false} WalkFilters<N>(f: Forest<N>, es: set<N>, n: N)
    requires WellFormed(f) && n in f.kids && NothingHidden(f, es, n)
    ensures Walk(f, es, n) == Filter(Preorder(f, n), es)
    decreases Floor(f) - f.depth[n], 1, 0
  {
    var w := WalkFrom(f, f.kids.Keys, n, 0);
    FilterConcat([n], w, es);
    WalkFromFilters(f, es, n, 0);
    if n !in es {
      forall x | x in Preorder(f, n) ensures x !in es {
        PreorderIsSubtree(f, n, x);
      }
      FilterNone(Preorder(f, n), es);
    }
  }

  lemma {:induction false} WalkFromFilters<N>(f: Forest<N>, es: set<N>, n: N, i: nat)
    requires WellFormed(f) && n in f.kids && NothingHidden(f, es, n) && i <= |f.kids[n]|
    ensures WalkFrom(f, es, n, i) == Filter(WalkFrom(f, f.kids.Keys, n, i), es)
    decreases Floor(f) - f.depth[n], 0, |f.kids[n]| - i
  {
    if i < |f.kids[n]| {
      KidFacts(f, n, i);
      var k := f.kids[n][i];
      NothingHiddenBelow(f, es, n, i);
      WalkFilters(f, es, k);
      WalkFromFilters(f, es, n, i + 1);
      FilterConcat(Preorder(f, k), WalkFrom(f, f.kids.Keys, n, i + 1), es);
    }
  }

  /** Whatever lies between n and a listed node is in es. */
  lemma {:induction false} WalkPaths<N>(f: Forest<N>, es: set<N>, n: N, a: N, x: N)
    requires WellFormed(f) && n in f.kids && a in f.kids && x in Walk(f, es, n) && x in f.kids
    requires InSubtree(f, n, a) && InSubtree(f, a, x)
    ensures a in es
    decreases Floor(f) - f.depth[n]
  {
    if a != n {
      SubtreeDepth(f, n, a);
      SubtreeDepth(f, a, x);
      var j := WalkHolder(f, es, n, 0, x);
      KidFacts(f, n, j);
      AncestorsChain(f, f.kids[n][j], a, x);
      WalkPaths(f, es, f.kids[n][j], a, x);
    }
  }

  lemma {:induction false} WalkHolder<N>(f: Forest<N>, es: set<N>, n: N, i: nat, x: N) returns (j: nat)
    requires WellFormed(f) && n in f.kids && i <= |f.kids[n]| && x in WalkFrom(f, es, n, i)
    ensures i <= j < |f.kids[n]| && f.kids[n][j] in f.kids && x in Walk(f, es, f.kids[n][j])
    ensures x in f.kids && InSubtree(f, f.kids[n][j], x)
    decreases |f.kids[n]| - i
  {
    KidFacts(f, n, i);
    if x in Walk(f, es, f.kids[n][i]) {
      j := i;
      WalkMembers(f, es, f.kids[n][i], x);
    } else {
      j := WalkHolder(f, es, n, i + 1, x);
    }
  }

  /**
   * The walk from element to element is the preorder of the elements exactly when no
   * non-element hides an element from it.
   */
  lemma WalkIsElementOrder<N>(f: Forest<N>, es: set<N>, n: N)
    requires WellFormed(f) && n in f.kids
    ensures Walk(f, es, n) == Filter(Preorder(f, n), es) <==> NothingHidden(f, es, n)
  {
    if NothingHidden(f, es, n) {
      WalkFilters(f, es, n);
    }
    if Walk(f, es, n) == Filter(Preorder(f, n), es) {
      forall a, x | a in f.kids && x in f.kids && InSubtree(f, n, a) && InSubtree(f, a, x) && x in es
        ensures a in es
      {
        SubtreeTrans(f, n, a, x);
        PreorderIsSubtree(f, n, x);
        FilterMembers(Preorder(f, n), es, x);
        WalkPaths(f, es, n, a, x);
      }
    }
  }

  // Document order of two nodes.

  /** a comes before b when the whole tree is read in preorder. */
  ghost predicate Precedes<N>(f: Forest<N>, a: N, b: N)
    requires WellFormed(f) && a in f.kids
  {
    Before(Preorder(f, RootOf(f, a)), a, b)
  }

  lemma AncestorPrecedes<N>(f: Forest<N>, a: N, b: N)
    requires WellFormed(f) && a in f.kids && b in f.kids && a != b && InSubtree(f, a, b)
    ensures Precedes(f, a, b)
  {
    var r := RootOf(f, a);
    PreorderIsSubtree(f, a, b);
    var w := WalkFrom(f, f.kids.Keys, a, 0);
    assert Preorder(f, a) == [a] + w;
    assert b in w;
    BeforeConcat([a], w, a, b);
    var u, v := PreorderBlock(f, r, a);
    BeforeEmbeds(u, Preorder(f, a), v, a, b);
  }

  /** Below different children, the order of the children decides. */
  lemma CousinPrecedes<N>(f: Forest<N>, p: N, i: nat, j: nat, a: N, b: N)
    requires WellFormed(f) && p in f.kids && i < j < |f.kids[p]| && a in f.kids && b in f.kids
    requires InSubtree(f, f.kids[p][i], a) && InSubtree(f, f.kids[p][j], b)
    ensures Precedes(f, a, b)
  {
    hide WellFormed;
    var es := f.kids.Keys;
    KidFacts(f, p, i);
    KidFacts(f, p, j);
    var x, y, r := f.kids[p][i], f.kids[p][j], RootOf(f, a);
    PreorderIsSubtree(f, x, a);
    PreorderIsSubtree(f, y, b);
    var s := WalkSplit(f, es, p, i + 1, j);
    var w := WalkFrom(f, es, p, i + 1);
    assert w == s + (Walk(f, es, y) + WalkFrom(f, es, p, j + 1));
    assert b in w;
    BeforeConcat(Walk(f, es, x), w, a, b);
    assert WalkFrom(f, es, p, i) == Walk(f, es, x) + w;
    var t := WalkSplit(f, es, p, 0, i);
    assert Preorder(f, p) == ([p] + t) + WalkFrom(f, es, p, i) + [];
    BeforeEmbeds([p] + t, WalkFrom(f, es, p, i), [], a, b);
    assert InSubtree(f, p, a) by {
      assert InSubtree(f, p, x);
      SubtreeTrans(f, p, x, a);
    }
    assert InSubtree(f, r, p) by { SubtreeDepth(f, r, a); SubtreeDepth(f, p, a); RootAbove(f, p, a); }
    var u, v := PreorderBlock(f, r, p);
    BeforeEmbeds(u, Preorder(f, p), v, a, b);
  }

  lemma {:induction false} RootAbove<N>(f: Forest<N>, p: N, a: N)
    requires WellFormed(f) && p in f.kids && a in f.kids && InSubtree(f, p, a)
    ensures RootOf(f, a) == RootOf(f, p) && InSubtree(f, RootOf(f, a), p)
    decreases f.depth[a]
  {
    if a != p {
      WellChild(f, a);
      RootAbove(f, p, f.parent[a]);
    }
  }

  /** Document order is strict. */
  lemma PrecedesStrict<N>(f: Forest<N>, a: N, b: N)
    requires WellFormed(f) && a in f.kids && b in f.kids && Precedes(f, a, b)
    requires RootOf(f, a) == RootOf(f, b)
    ensures !Precedes(f, b, a) && a != b
  {
    WalkNoDup(f, f.kids.Keys, RootOf(f, a));
  }
}
