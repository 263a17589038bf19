/**
 * What goes when a root that nobody holds is deleted: the nodes below it that are not held and have no held node above
 * them. The rest stays as it is, in trees of its own.
 */
module Pruning {
  import opened Sequences
  import opened Forests

  /** m is n or below it, and no node from m up to n is held. */
  ghost predicate Doomed<N>(f: Forest<N>, held: set<N>, n: N, m: N)
    requires WellFormed(f) && m in f.kids
    decreases f.depth[m]
  {
    m !in held && (m == n || (m in f.parent && (WellChild(f, m); Doomed(f, held, n, f.parent[m]))))
  }

  /** m has a parent that stays. */
  ghost predicate StaysLinked<N>(f: Forest<N>, held: set<N>, n: N, m: N)
    requires WellFormed(f)
  {
    m in f.parent && (WellChild(f, m); !Doomed(f, held, n, f.parent[m]))
  }

  /** How many ancestors m keeps. */
  ghost function Level<N>(f: Forest<N>, held: set<N>, n: N, m: N): nat
    requires WellFormed(f) && m in f.kids
    decreases f.depth[m]
  {
    if StaysLinked(f, held, n, m) then WellChild(f, m); Level(f, held, n, f.parent[m]) + 1 else 0
  }

  ghost function Prune<N>(f: Forest<N>, held: set<N>, n: N): Forest<N>
    requires WellFormed(f)
  {
    Forest(map q | q in f.kids && !Doomed(f, held, n, q) :: f.kids[q],
           map c | c in f.parent && c in f.kids && !Doomed(f, held, n, c) && StaysLinked(f, held, n, c) :: f.parent[c],
           map q | q in f.kids && !Doomed(f, held, n, q) :: Level(f, held, n, q))
  }

  /** What stays is a well-formed forest. */
  lemma PruneWellFormed<N>(f: Forest<N>, held: set<N>, n: N)
    requires WellFormed(f) && n !in f.parent
    ensures WellFormed(Prune(f, held, n))
  {
    var g := Prune(f, held, n);
    forall c | c in g.parent ensures ChildOk(g, c) { WellChild(f, c); }
    forall p | p in g.kids ensures KidsOk(g, p) {
      WellKids(f, p);
      forall c | c in g.kids[p] ensures c in g.parent && g.parent[c] == p { WellChild(f, c); }
    }
  }

  /** A forest is told by its child lists and parents alone. */
  lemma SameForest<N>(f: Forest<N>, g: Forest<N>)
    requires WellFormed(f) && WellFormed(g) && f.kids == g.kids && f.parent == g.parent
    ensures f == g
  {
    forall m | m in f.kids ensures f.depth[m] == g.depth[m] { SameDepth(f, g, m); }
    assert f.depth == g.depth;
  }

  lemma {:induction false} SameDepth<N>(f: Forest<N>, g: Forest<N>, m: N)
    requires WellFormed(f) && WellFormed(g) && f.kids == g.kids && f.parent == g.parent && m in f.kids
    ensures f.depth[m] == g.depth[m]
    decreases f.depth[m]
  {
    if m in f.parent {
      assert ChildOk(f, m) && ChildOk(g, m);
      SameDepth(f, g, f.parent[m]);
    }
  }

  /** g has some of f's nodes and some of its links. */
  ghost predicate PartOf<N>(g: Forest<N>, f: Forest<N>) {
    g.kids.Keys <= f.kids.Keys && forall c :: c in g.parent ==> c in f.parent && f.parent[c] == g.parent[c]
  }

  lemma {:induction false} PartDepth<N>(g: Forest<N>, f: Forest<N>, n: N, m: N)
    requires WellFormed(f) && WellFormed(g) && PartOf(g, f) && m in g.kids && InSubtree(g, n, m)
    ensures n in g.kids && InSubtree(f, n, m) && f.depth[m] + g.depth[n] == g.depth[m] + f.depth[n]
    decreases g.depth[m]
  {
    if n != m {
      assert ChildOk(g, m) && ChildOk(f, m);
      PartDepth(g, f, n, g.parent[m]);
    }
  }

  lemma {:induction false} PartDoomed<N>(g: Forest<N>, f: Forest<N>, held: set<N>, n: N, m: N)
    requires WellFormed(f) && WellFormed(g) && PartOf(g, f) && m in g.kids && Doomed(g, held, n, m)
    ensures Doomed(f, held, n, m)
    decreases g.depth[m]
  {
    if n != m {
      assert ChildOk(g, m) && ChildOk(f, m);
      PartDoomed(g, f, held, n, g.parent[m]);
    }
  }

  // One child after the other.

  /** m goes with one of the first i children of n. */
  ghost predicate GoneBefore<N>(f: Forest<N>, held: set<N>, n: N, i: nat, m: N)
    requires WellFormed(f) && n in f.kids && i <= |f.kids[n]| && m in f.kids
  {
    exists j :: 0 <= j < i && Doomed(f, held, f.kids[n][j], m)
  }

  ghost predicate NodesLeft<N>(f: Forest<N>, held: set<N>, n: N, i: nat, g: Forest<N>)
    requires WellFormed(f) && n in f.kids && i <= |f.kids[n]|
  {
    g.kids.Keys <= f.kids.Keys && forall m :: m in f.kids ==> (m in g.kids <==> !GoneBefore(f, held, n, i, m))
  }

  ghost predicate ListsKept<N>(f: Forest<N>, n: N, g: Forest<N>) {
    forall q :: q in g.kids && q != n ==> q in f.kids && g.kids[q] == f.kids[q]
  }

  ghost predicate LinksKept<N>(f: Forest<N>, n: N, i: nat, g: Forest<N>)
    requires n in f.kids && i <= |f.kids[n]|
  {
    forall c :: c in f.parent ==> (c in g.parent <==> c in g.kids && f.parent[c] in g.kids && c !in f.kids[n][..i])
  }

  /** The first i children of n have been taken out, and what was doomed below them is gone. */
  ghost predicate Partly<N>(f: Forest<N>, held: set<N>, n: N, i: nat, g: Forest<N>)
    requires WellFormed(f) && n in f.kids
  {
    && i <= |f.kids[n]| && WellFormed(g) && n in g.kids && n !in g.parent && g.kids[n] == f.kids[n][i..]
    && NodesLeft(f, held, n, i, g) && ListsKept(f, n, g) && PartOf(g, f) && LinksKept(f, n, i, g)
  }

  lemma PartlyStart<N>(f: Forest<N>, held: set<N>, n: N)
    requires WellFormed(f) && n in f.kids && n !in f.parent
    ensures Partly(f, held, n, 0, f)
  {
    forall c | c in f.parent ensures c in f.kids && f.parent[c] in f.kids { WellChild(f, c); }
  }

  /** Nothing is doomed from a node that is held, nor is a root from another node. */
  lemma {:induction false} DoomedFrom<N>(f: Forest<N>, held: set<N>, n: N, m: N)
    requires WellFormed(f) && m in f.kids && Doomed(f, held, n, m)
    ensures n in f.kids && n !in held && InSubtree(f, n, m)
    decreases f.depth[m]
  {
    if m != n {
      WellChild(f, m);
      DoomedFrom(f, held, n, f.parent[m]);
    }
  }

  lemma RootNotDoomed<N>(f: Forest<N>, held: set<N>, n: N, r: N)
    requires WellFormed(f) && r in f.kids && r !in f.parent && r != n
    ensures !Doomed(f, held, n, r)
  {
  }

  /** The next child is still there, below n, and n's first child. */
  lemma NextChild<N>(f: Forest<N>, held: set<N>, n: N, i: nat, g: Forest<N>)
    requires WellFormed(f) && n in f.kids && n !in f.parent && Partly(f, held, n, i, g) && i < |f.kids[n]|
    ensures var c := f.kids[n][i];
      && c != n && c in f.kids && c in f.parent && f.parent[c] == n && c !in f.kids[n][..i]
      && c in g.kids && c in g.parent && g.parent[c] == n && g.kids[n][0] == c
  {
    hide WellFormed;
    var c := f.kids[n][i];
    WellKids(f, n);
    assert c in f.kids[n];
    WellChild(f, c);
    forall j | 0 <= j < i ensures !Doomed(f, held, f.kids[n][j], c) {
      var k := f.kids[n][j];
      assert k in f.kids[n] && k != c;
      RootNotDoomed(f, held, k, n);
    }
    assert c in g.kids;
  }

  /** Without the next child g is still a part of f, and has one child less to go. */
  lemma ChildOut<N>(f: Forest<N>, held: set<N>, n: N, i: nat, g: Forest<N>)
    requires WellFormed(f) && n in f.kids && n !in f.parent && Partly(f, held, n, i, g) && i < |f.kids[n]|
    ensures var c := f.kids[n][i];
      && c in g.parent && WellFormed(Detach(g, c)) && PartOf(Detach(g, c), f)
      && Detach(g, c).kids == g.kids[n := f.kids[n][i + 1..]] && Detach(g, c).parent == g.parent - {c}
  {
    hide *;
    NextChild(f, held, n, i, g);
    var c := f.kids[n][i];
    PartlyMeans(f, held, n, i, g);
    DetachWellFormed(g, c);
    DetachParts(g, c);
    PartWithout(g, f, c);
    FirstOut(g.kids[n], c);
    assert f.kids[n][i..][1..] == f.kids[n][i + 1..];
  }

  lemma PartlyMeans<N>(f: Forest<N>, held: set<N>, n: N, i: nat, g: Forest<N>)
    requires WellFormed(f) && n in f.kids && Partly(f, held, n, i, g)
    ensures i <= |f.kids[n]| && WellFormed(g) && n in g.kids && n !in g.parent && g.kids[n] == f.kids[n][i..]
    ensures PartOf(g, f) && NoDup(g.kids[n])
  {
    WellKids(g, n);
  }

  lemma DetachParts<N>(f: Forest<N>, c: N)
    requires WellFormed(f) && c in f.parent
    ensures f.parent[c] in f.kids && Detach(f, c).kids == f.kids[f.parent[c] := Without(f.kids[f.parent[c]], c)]
    ensures Detach(f, c).parent == f.parent - {c}
  {
    WellChild(f, c);
  }

  lemma PartWithout<N>(g: Forest<N>, f: Forest<N>, c: N)
    requires WellFormed(g) && c in g.parent && PartOf(g, f)
    ensures PartOf(Detach(g, c), f)
  {
    DetachDomain(g, c);
    hide WellFormed, Detach;
  }

  lemma FirstOut<T>(s: seq<T>, x: T)
    requires NoDup(s) && s != [] && s[0] == x
    ensures Without(s, x) == s[1..]
  {
    IndexOfUnique(s, 0);
  }

  /** A node that is not held goes with its parent. */
  lemma GoneDown<N>(f: Forest<N>, held: set<N>, n: N, i: nat, m: N)
    requires WellFormed(f) && n in f.kids && i <= |f.kids[n]| && m in f.parent && m in f.kids && m !in held
    ensures f.parent[m] in f.kids && (GoneBefore(f, held, n, i, f.parent[m]) ==> GoneBefore(f, held, n, i, m))
  {
    WellChild(f, m);
  }

  /** What is still there and doomed from the next child is doomed from it in what is left. */
  lemma {:induction false} StillDoomed<N>(f: Forest<N>, held: set<N>, n: N, i: nat, g: Forest<N>, m: N)
    requires WellFormed(f) && n in f.kids && n !in f.parent && Partly(f, held, n, i, g) && i < |f.kids[n]|
    requires f.kids[n][i] in g.parent && WellFormed(Detach(g, f.kids[n][i]))
    requires m in g.kids && m in f.kids && Doomed(f, held, f.kids[n][i], m)
    ensures m in Detach(g, f.kids[n][i]).kids && Doomed(Detach(g, f.kids[n][i]), held, f.kids[n][i], m)
    decreases f.depth[m]
  {
    var c := f.kids[n][i];
    var h := Detach(g, c);
    ChildOut(f, held, n, i, g);
    NextChild(f, held, n, i, g);
    if m != c {
      var p := f.parent[m];
      assert ChildOk(f, m);
      RootNotDoomed(f, held, c, n);
      GoneDown(f, held, n, i, m);
      assert p in g.kids;
      WellKids(f, n);
      assert m !in f.kids[n][..i];
      StillDoomed(f, held, n, i, g, p);
    }
  }

  /** Which nodes are left when the next child goes, or stays as a root. */
  lemma GoneNext<N>(f: Forest<N>, held: set<N>, n: N, i: nat, m: N)
    requires WellFormed(f) && n in f.kids && i < |f.kids[n]| && m in f.kids
    ensures GoneBefore(f, held, n, i + 1, m) <==> GoneBefore(f, held, n, i, m) || Doomed(f, held, f.kids[n][i], m)
  {
    hide WellFormed, Doomed;
  }

  /** The next child, taken out, is held: it stays with all that is below it. */
  lemma ChildStays<N>(f: Forest<N>, held: set<N>, n: N, i: nat, g: Forest<N>)
    requires WellFormed(f) && n in f.kids && n !in f.parent && Partly(f, held, n, i, g) && i < |f.kids[n]|
    requires f.kids[n][i] in held && f.kids[n][i] in g.parent
    ensures Partly(f, held, n, i + 1, Detach(g, f.kids[n][i]))
  {
    hide WellFormed, NodesLeft, ListsKept, LinksKept, PartOf, Detach;
    ChildOut(f, held, n, i, g);
    var h := Detach(g, f.kids[n][i]);
    NodesStay(f, held, n, i, g, h);
    ListsOut(f, n, g, h, f.kids[n][i + 1..]);
    LinksOut(f, held, n, i, g, h);
  }

  lemma NodesStay<N>(f: Forest<N>, held: set<N>, n: N, i: nat, g: Forest<N>, h: Forest<N>)
    requires WellFormed(f) && n in f.kids && i < |f.kids[n]| && NodesLeft(f, held, n, i, g)
    requires f.kids[n][i] in held && h.kids.Keys == g.kids.Keys
    ensures NodesLeft(f, held, n, i + 1, h)
  {
    hide WellFormed, GoneBefore, Doomed;
    forall m | m in f.kids ensures m in h.kids <==> !GoneBefore(f, held, n, i + 1, m) {
      GoneNext(f, held, n, i, m);
      if Doomed(f, held, f.kids[n][i], m) { DoomedFrom(f, held, f.kids[n][i], m); }
    }
  }

  lemma ListsOut<N>(f: Forest<N>, n: N, g: Forest<N>, h: Forest<N>, left: seq<N>)
    requires ListsKept(f, n, g) && n in g.kids && h.kids == g.kids[n := left]
    ensures ListsKept(f, n, h)
  {
  }

  /** The links left when the next child has been taken out. */
  lemma LinksOut<N>(f: Forest<N>, held: set<N>, n: N, i: nat, g: Forest<N>, h: Forest<N>)
    requires WellFormed(f) && n in f.kids && n !in f.parent && Partly(f, held, n, i, g) && i < |f.kids[n]|
    requires h.kids.Keys == g.kids.Keys && f.kids[n][i] in g.parent && h.parent == g.parent - {f.kids[n][i]}
    ensures LinksKept(f, n, i + 1, h)
  {
    hide WellFormed, NodesLeft, ListsKept;
    assert f.kids[n][..i + 1] == f.kids[n][..i] + [f.kids[n][i]];
  }

  /** The next child, taken out, is not held: it goes, with what is doomed below it. */
  lemma ChildGoes<N>(f: Forest<N>, held: set<N>, n: N, i: nat, g: Forest<N>)
    requires WellFormed(f) && n in f.kids && n !in f.parent && Partly(f, held, n, i, g) && i < |f.kids[n]|
    requires f.kids[n][i] !in held && f.kids[n][i] in g.parent
    ensures var h := Detach(g, f.kids[n][i]);
      WellFormed(h) && Partly(f, held, n, i + 1, Prune(h, held, f.kids[n][i]))
  {
    hide WellFormed, NodesLeft, ListsKept, LinksKept, PartOf, Detach, Prune, Doomed;
    ChildOut(f, held, n, i, g);
    NextChild(f, held, n, i, g);
    var c := f.kids[n][i];
    var h := Detach(g, c);
    var t := Prune(h, held, c);
    PruneWellFormed(h, held, c);
    RootNotDoomed(h, held, c, n);
    PruneLinks(h, held, c);
    PartTrans(t, h, f);
    NodesGo(f, held, n, i, g);
    ListsOut(f, n, g, h, f.kids[n][i + 1..]);
    ListsLess(f, n, h, t);
    LinksOut(f, held, n, i, g, h);
    LinksLess(f, n, i + 1, h, t);
  }

  lemma PartTrans<N>(t: Forest<N>, h: Forest<N>, f: Forest<N>)
    requires PartOf(t, h) && PartOf(h, f)
    ensures PartOf(t, f)
  {
  }

  lemma NodesGo<N>(f: Forest<N>, held: set<N>, n: N, i: nat, g: Forest<N>)
    requires WellFormed(f) && n in f.kids && n !in f.parent && Partly(f, held, n, i, g) && i < |f.kids[n]|
    requires f.kids[n][i] in g.parent && WellFormed(Detach(g, f.kids[n][i]))
    ensures NodesLeft(f, held, n, i + 1, Prune(Detach(g, f.kids[n][i]), held, f.kids[n][i]))
  {
    hide WellFormed, ListsKept, LinksKept, PartOf, Detach, Doomed, GoneBefore;
    var c := f.kids[n][i];
    var h := Detach(g, c);
    var t := Prune(h, held, c);
    ChildOut(f, held, n, i, g);
    DetachDomain(g, c);
    forall m | m in f.kids ensures m in t.kids <==> !GoneBefore(f, held, n, i + 1, m) {
      GoneNext(f, held, n, i, m);
      if m in g.kids {
        if Doomed(f, held, c, m) { StillDoomed(f, held, n, i, g, m); }
        if Doomed(h, held, c, m) { PartDoomed(h, f, held, c, m); }
      }
    }
  }

  lemma ListsLess<N>(f: Forest<N>, n: N, h: Forest<N>, t: Forest<N>)
    requires ListsKept(f, n, h) && t.kids.Keys <= h.kids.Keys && forall q :: q in t.kids ==> t.kids[q] == h.kids[q]
    ensures ListsKept(f, n, t)
  {
  }

  lemma LinksLess<N>(f: Forest<N>, n: N, i: nat, h: Forest<N>, t: Forest<N>)
    requires n in f.kids && i <= |f.kids[n]| && LinksKept(f, n, i, h) && PartOf(h, f) && PartOf(t, h)
    requires forall k :: k in h.parent ==> (k in t.parent <==> k in t.kids && h.parent[k] in t.kids)
    ensures LinksKept(f, n, i, t)
  {
  }

  lemma PruneLinks<N>(h: Forest<N>, held: set<N>, c: N)
    requires WellFormed(h)
    ensures var t := Prune(h, held, c);
      && t.kids.Keys <= h.kids.Keys && (forall m :: m in h.kids ==> (m in t.kids <==> !Doomed(h, held, c, m)))
      && (forall q :: q in t.kids ==> t.kids[q] == h.kids[q]) && PartOf(t, h)
      && (forall k :: k in t.parent ==> k in h.parent)
      && (forall k :: k in h.parent ==> (k in t.parent <==> k in t.kids && h.parent[k] in t.kids))
  {
    forall k | k in h.parent ensures k in h.kids && h.parent[k] in h.kids { WellChild(h, k); }
    hide WellFormed;
  }

  // The end.

  /** A root without children taken out of the forest. */
  ghost function Gone<N>(g: Forest<N>, n: N): Forest<N> { Forest(g.kids - {n}, g.parent, g.depth - {n}) }

  /** When all children are out, and n goes too, just what was doomed is gone. */
  lemma AllOut<N>(f: Forest<N>, held: set<N>, n: N, g: Forest<N>)
    requires WellFormed(f) && n in f.kids && n !in f.parent && n !in held && Partly(f, held, n, |f.kids[n]|, g)
    ensures g.kids[n] == [] && WellFormed(Gone(g, n)) && Gone(g, n) == Prune(f, held, n)
  {
    GoneWellFormed(g, n);
    PruneWellFormed(f, held, n);
    SameNodes(f, held, n, g);
    SameLinks(f, held, n, g);
    hide WellFormed, Gone, Prune, NodesLeft, ListsKept, LinksKept, PartOf;
    SameForest(Gone(g, n), Prune(f, held, n));
  }

  lemma GoneWellFormed<N>(g: Forest<N>, n: N)
    requires WellFormed(g) && n in g.kids && n !in g.parent && g.kids[n] == []
    ensures WellFormed(Gone(g, n))
  {
    var h := Gone(g, n);
    forall c | c in h.parent ensures ChildOk(h, c) { WellChild(g, c); }
    forall p | p in h.kids ensures KidsOk(h, p) { WellKids(g, p); }
  }

  /** A node other than n is doomed from n just when it is from a child of n. */
  lemma {:induction false} DoomedByChild<N>(f: Forest<N>, held: set<N>, n: N, m: N)
    requires WellFormed(f) && n in f.kids && n !in f.parent && n !in held && m in f.kids && m != n
    ensures Doomed(f, held, n, m) <==> GoneBefore(f, held, n, |f.kids[n]|, m)
    decreases f.depth[m]
  {
    if m in f.parent {
      var p := f.parent[m];
      WellChild(f, m);
      WellKids(f, n);
      if p == n {
        var j :| 0 <= j < |f.kids[n]| && f.kids[n][j] == m;
        if GoneBefore(f, held, n, |f.kids[n]|, m) {
          var k :| 0 <= k < |f.kids[n]| && Doomed(f, held, f.kids[n][k], m);
        }
      } else {
        DoomedByChild(f, held, n, p);
      }
    }
  }

  lemma SameNodes<N>(f: Forest<N>, held: set<N>, n: N, g: Forest<N>)
    requires WellFormed(f) && n in f.kids && n !in f.parent && n !in held && Partly(f, held, n, |f.kids[n]|, g)
    ensures Gone(g, n).kids == Prune(f, held, n).kids
  {
    hide WellFormed, GoneBefore, Doomed;
    forall m | m in f.kids && m != n ensures m in g.kids <==> !Doomed(f, held, n, m) { DoomedByChild(f, held, n, m); }
    TopDoomed(f, held, n);
  }

  lemma TopDoomed<N>(f: Forest<N>, held: set<N>, n: N)
    requires WellFormed(f) && n in f.kids && n !in held
    ensures Doomed(f, held, n, n)
  {
  }

  lemma SameLinks<N>(f: Forest<N>, held: set<N>, n: N, g: Forest<N>)
    requires WellFormed(f) && n in f.kids && n !in f.parent && n !in held && Partly(f, held, n, |f.kids[n]|, g)
    ensures Gone(g, n).parent == Prune(f, held, n).parent
  {
    hide WellFormed, Doomed, Prune, NodesLeft, ListsKept;
    SameNodes(f, held, n, g);
    PruneLinks(f, held, n);
    var t := Prune(f, held, n);
    assert f.kids[n][..|f.kids[n]|] == f.kids[n];
    GoneKeys(g, n);
    forall c | c in f.parent ensures c in g.parent <==> c in t.parent { KidOf(f, n, c); }
    SameMap(g.parent, t.parent, f.parent);
  }

  lemma GoneKeys<N>(g: Forest<N>, n: N)
    ensures Gone(g, n).kids.Keys == g.kids.Keys - {n} && Gone(g, n).parent == g.parent
  {
  }

  lemma KidOf<N>(f: Forest<N>, n: N, c: N)
    requires WellFormed(f) && n in f.kids && c in f.parent
    ensures c in f.kids[n] <==> f.parent[c] == n
  {
    WellChild(f, c);
    WellKids(f, n);
  }

  lemma SameMap<N>(a: map<N, N>, b: map<N, N>, m: map<N, N>)
    requires forall c :: c in a ==> c in m && m[c] == a[c]
    requires forall c :: c in b ==> c in m && m[c] == b[c]
    requires forall c :: c in m ==> (c in a <==> c in b)
    ensures a == b
  {
  }

  /** No node below n is deeper than that. */
  ghost predicate Within<N>(f: Forest<N>, n: N, height: nat)
    requires WellFormed(f)
  {
    forall m :: m in f.kids && InSubtree(f, n, m) ==> f.depth[m] <= height
  }

  /** Below a child that has been taken out there is a level less. */
  lemma LevelLess<N>(f: Forest<N>, held: set<N>, n: N, i: nat, g: Forest<N>, height: nat)
    requires WellFormed(f) && n in f.kids && n !in f.parent && Partly(f, held, n, i, g) && i < |f.kids[n]|
    requires Within(f, n, height) && f.kids[n][i] in g.parent
    ensures var h := Detach(g, f.kids[n][i]);
      WellFormed(h) && 0 < height && Within(h, f.kids[n][i], height - 1)
  {
    var c := f.kids[n][i];
    var h := Detach(g, c);
    NextChild(f, held, n, i, g);
    ChildOut(f, held, n, i, g);
    DetachDomain(g, c);
    TopLevels(f, n, c);
    RootLevel(h, c);
    hide WellFormed, Partly, Detach, PartOf, InSubtree;
    forall m | m in h.kids && InSubtree(h, c, m) ensures h.depth[m] <= height - 1 {
      PartDepth(h, f, c, m);
      SubtreeTrans(f, n, c, m);
    }
  }

  lemma TopLevels<N>(f: Forest<N>, n: N, c: N)
    requires WellFormed(f) && n in f.kids && n !in f.parent && c in f.parent && f.parent[c] == n
    ensures c in f.kids && f.depth[c] == 1 && InSubtree(f, n, c) && f.depth.Keys == f.kids.Keys
  {
    assert ChildOk(f, c);
  }

  lemma RootLevel<N>(f: Forest<N>, c: N)
    requires WellFormed(f) && c in f.kids && c !in f.parent
    ensures f.depth[c] == 0 && f.depth.Keys == f.kids.Keys
  {
  }

  // What it means to go.

  /** No node from n down to m is held. */
  ghost predicate NoneHeldBetween<N>(f: Forest<N>, held: set<N>, n: N, m: N)
    requires WellFormed(f) && m in f.kids
  {
    forall k :: k in f.kids && InSubtree(f, n, k) && InSubtree(f, k, m) ==> k !in held
  }

  /** Just those nodes go that are below n with no held node from n down to them. */
  lemma {:induction false} DoomedMeans<N>(f: Forest<N>, held: set<N>, n: N, m: N)
    requires WellFormed(f) && n in f.kids && m in f.kids
    ensures Doomed(f, held, n, m) <==> InSubtree(f, n, m) && NoneHeldBetween(f, held, n, m)
    decreases f.depth[m]
  {
    hide WellFormed;
    if m == n {
      forall k | k in f.kids && InSubtree(f, n, k) && InSubtree(f, k, n) ensures k == n { SameNode(f, n, k); }
      assert InSubtree(f, n, n);
    } else if m in f.parent {
      WellChild(f, m);
      var p := f.parent[m];
      DoomedMeans(f, held, n, p);
      assert InSubtree(f, n, m) == InSubtree(f, n, p);
      assert InSubtree(f, m, m);
      forall k | k in f.kids ensures InSubtree(f, k, m) <==> k == m || InSubtree(f, k, p) {
      }
    }
  }

  lemma SameNode<N>(f: Forest<N>, n: N, k: N)
    requires WellFormed(f) && n in f.kids && k in f.kids && InSubtree(f, n, k) && InSubtree(f, k, n)
    ensures n == k
  {
    SubtreeDepth(f, n, k);
    if n != k {
      assert ChildOk(f, n);
      SubtreeDepth(f, k, f.parent[n]);
    }
  }

  /** Every node is held or has a parent. */
  ghost predicate NoneLost<N>(f: Forest<N>, held: set<N>) {
    forall m :: m in f.kids ==> m in held || m in f.parent
  }

  /** If only the deleted root was neither held nor below another node, no such node is left. */
  lemma PruneLosesNone<N>(f: Forest<N>, held: set<N>, n: N)
    requires WellFormed(f) && n in f.kids && n !in held
    requires forall m :: m in f.kids && m != n ==> m in held || m in f.parent
    ensures NoneLost(Prune(f, held, n), held)
  {
    TopDoomed(f, held, n);
    forall m | m in f.kids && !Doomed(f, held, n, m) ensures m in held || StaysLinked(f, held, n, m) {
      if m in f.parent { WellChild(f, m); }
    }
    hide WellFormed, Doomed;
  }
}
