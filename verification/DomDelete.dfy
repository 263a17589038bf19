/**
 * Nodes that delete themselves when their last reference goes, and whole runs of the tree's public calls with handles
 * taken and given up in between.
 */
module DomDelete {
  import opened Sequences
  import opened Forests
  import opened TreeEdits
  import opened DomTree
  import opened Pruning
  import opened ForestOrder

  type Handles = map<NodeImp, nat>

  ghost function Holding(handles: Handles): set<NodeImp> { set n | n in handles && handles[n] > 0 }

  method TakeHandle(n: NodeImp, ghost f: Links, ghost handles: Handles)
    requires Counted(f, handles) && n in f.kids && n in handles
    modifies n`count
    ensures Counted(f, handles[n := handles[n] + 1])
  {
    n.Retain();
  }

  /** A handle is given up; dead: it was the last reference. */
  method LetGo(n: NodeImp, ghost f: Links, ghost handles: Handles) returns (dead: bool)
    requires n in handles && n in f.kids && Counted(f, handles[n := handles[n] + 1])
    modifies n`count
    ensures Counted(f, handles) && (dead <==> handles[n] == 0 && n !in f.parent)
  {
    dead := n.Release();
  }

  /** Takes the first child out, as removeChild with a handle on that child, and gives the handle up. */
  method RemoveFirst(n: NodeImp, ghost f: Links, ghost handles: Handles) returns (c: NodeImp, dead: bool)
    requires Represents(f) && WellFormed(f) && Counted(f, handles) && n in f.kids && n.childCount > 0
    modifies f.kids.Keys
    ensures old(n.childCount) == |f.kids[n]| && f.kids[n] != [] && c == f.kids[n][0] && c in f.parent && c in handles
    ensures Represents(Detach(f, c)) && Counted(Detach(f, c), handles) && (dead <==> handles[c] == 0)
  {
    hide *;
    FirstIs(f, n, handles);
    c := n.firstChild;
    TakeHandle(c, f, handles);
    HeldNow(f, handles, c);
    RemoveMeans(f, n, c);
    GrantedMeans(f, Edit.RemoveChild(n, Opt(c)));
    DetachDomain(f, c);
    var r := n.RemoveChild(c, f, handles[c := handles[c] + 1]);
    dead := LetGo(c, Detach(f, c), handles);
  }

  lemma FirstIs(f: Links, n: NodeImp, handles: Handles)
    requires Represents(f) && WellFormed(f) && Counted(f, handles) && n in f.kids
    ensures n.childCount == |f.kids[n]| && (n.childCount > 0 ==> n.firstChild != null && n.firstChild == f.kids[n][0])
    ensures n.childCount > 0 ==> var c := f.kids[n][0];
      c in f.kids && c in f.parent && f.parent[c] == n && ParentOf(f, c) == Some(n) && c in handles
  {
    hide WellFormed;
    assert n.LinkedAs(f);
    if n.childCount > 0 { KidKnown(f, n, 0); WellKids(f, n); }
  }

  lemma HeldNow(f: Links, handles: Handles, c: NodeImp)
    requires c in f.kids && c in handles
    ensures Held(f, handles[c := handles[c] + 1], c)
  {
  }

  /** The destructor of a node without references: every child is taken out, and goes too unless it is held. */
  method Delete(n: NodeImp, ghost f: Links, ghost handles: Handles, ghost height: nat) returns (ghost g: Links)
    requires Represents(f) && WellFormed(f) && Counted(f, handles) && n in f.kids && n !in f.parent
    requires n in handles && handles[n] == 0 && Within(f, n, height)
    modifies f.kids.Keys
    ensures g == Prune(f, Holding(handles), n) && WellFormed(g) && Represents(g) && Counted(g, handles)
    decreases height
  {
    hide *;
    ghost var held := Holding(handles);
    ghost var i := 0;
    g := f;
    UnheldIs(handles, n);
    PartlyStart(f, held, n);
    PartlySays(f, held, n, 0, g);
    FirstIs(g, n, handles);
    while 0 < n.childCount
      invariant i <= |f.kids[n]| && Partly(f, held, n, i, g) && g.kids.Keys <= f.kids.Keys
      invariant WellFormed(g) && n in g.kids && Represents(g) && Counted(g, handles)
      invariant g.kids[n] == f.kids[n][i..] && n.childCount == |g.kids[n]|
      decreases |f.kids[n]| - i
    {
      var c, dead := RemoveFirst(n, g, handles);
      NextIs(f, held, n, i, g, handles);
      ghost var h := Detach(g, c);
      if dead {
        LevelLess(f, held, n, i, g, height);
        ChildGoes(f, held, n, i, g);
        g := Delete(c, h, handles, height - 1);
      } else {
        ChildStays(f, held, n, i, g);
        g := h;
      }
      i := i + 1;
      PartlySays(f, held, n, i, g);
      FirstIs(g, n, handles);
    }
    NoChildLeft(f, held, n, i, g);
    AllOut(f, held, n, g);
    GoneLinked(g, n, handles);
    g := Gone(g, n);
  }

  lemma PartlySays(f: Links, held: set<NodeImp>, n: NodeImp, i: nat, g: Links)
    requires WellFormed(f) && n in f.kids && Partly(f, held, n, i, g)
    ensures i <= |f.kids[n]| && WellFormed(g) && n in g.kids && g.kids[n] == f.kids[n][i..]
    ensures g.kids.Keys <= f.kids.Keys
  {
    hide WellFormed;
  }

  /** The child taken out is the next one. */
  lemma NextIs(f: Links, held: set<NodeImp>, n: NodeImp, i: nat, g: Links, handles: Handles)
    requires WellFormed(f) && n in f.kids && n !in f.parent && Partly(f, held, n, i, g) && g.kids[n] != []
    requires held == Holding(handles)
    ensures i < |f.kids[n]| && g.kids[n][0] == f.kids[n][i]
    ensures var c := f.kids[n][i];
      && c in f.kids && c in g.parent && WellFormed(Detach(g, c))
      && c in Detach(g, c).kids && c !in Detach(g, c).parent && Detach(g, c).kids.Keys <= g.kids.Keys
      && (c in handles ==> (handles[c] == 0 <==> c !in held))
  {
    hide WellFormed;
    PartlyMeans(f, held, n, i, g);
    NextChild(f, held, n, i, g);
    DetachWellFormed(g, f.kids[n][i]);
    DetachDomain(g, f.kids[n][i]);
  }

  lemma NoChildLeft(f: Links, held: set<NodeImp>, n: NodeImp, i: nat, g: Links)
    requires WellFormed(f) && n in f.kids && Partly(f, held, n, i, g) && g.kids[n] == []
    ensures i == |f.kids[n]| && n !in g.parent
  {
    hide WellFormed;
  }

  /** The others stand where they stood when a root without children goes. */
  lemma GoneView(g: Links, n: NodeImp, m: NodeImp)
    requires m in g.kids && m != n && (m in g.parent ==> g.parent[m] in g.kids && g.parent[m] != n)
    ensures var h := Gone(g, n);
      && m in h.kids && ParentOf(h, m) == ParentOf(g, m)
      && FirstOf(h, m) == FirstOf(g, m) && LastOf(h, m) == LastOf(g, m)
      && PrevOf(h, m) == PrevOf(g, m) && NextOf(h, m) == NextOf(g, m) && h.kids[m] == g.kids[m]
  {
  }

  lemma GoneLinkedNode(g: Links, n: NodeImp, m: NodeImp)
    requires Represents(g) && WellFormed(g) && n in g.kids && g.kids[n] == [] && m in g.kids && m != n
    ensures m in Gone(g, n).kids && m.LinkedAs(Gone(g, n))
  {
    hide *;
    Linked(g, m);
    ParentStays(g, n, m);
    GoneView(g, n, m);
    SameView(g, Gone(g, n), m);
  }

  lemma ParentStays(g: Links, n: NodeImp, m: NodeImp)
    requires WellFormed(g) && n in g.kids && g.kids[n] == []
    ensures m in g.parent ==> g.parent[m] in g.kids && g.parent[m] != n
  {
    hide WellFormed;
    if m in g.parent { WellChild(g, m); }
  }

  lemma SameView(g: Links, h: Links, m: NodeImp)
    requires m in g.kids && m in h.kids && m.LinkedAs(g)
    requires ParentOf(h, m) == ParentOf(g, m) && FirstOf(h, m) == FirstOf(g, m) && LastOf(h, m) == LastOf(g, m)
    requires PrevOf(h, m) == PrevOf(g, m) && NextOf(h, m) == NextOf(g, m) && h.kids[m] == g.kids[m]
    ensures m.LinkedAs(h)
  {
    hide ParentOf, FirstOf, LastOf, PrevOf, NextOf;
  }

  lemma GoneLinked(g: Links, n: NodeImp, handles: Handles)
    requires Represents(g) && WellFormed(g) && n in g.kids && n !in g.parent && g.kids[n] == []
    requires WellFormed(Gone(g, n)) && Counted(g, handles)
    ensures Represents(Gone(g, n)) && Counted(Gone(g, n), handles)
  {
    hide WellFormed;
    var h := Gone(g, n);
    forall m | m in h.kids ensures m.LinkedAs(h) { GoneLinkedNode(g, n, m); }
  }

  lemma UnheldIs(handles: Handles, n: NodeImp)
    requires n in handles
    ensures n in Holding(handles) <==> handles[n] > 0
  {
  }

  // Whole runs, with handles taken and given up between the calls.

  datatype Action = Call(e: Edit<NodeImp>) | Take(node: NodeImp) | Give(node: NodeImp)

  /** The nodes that there are, and how often each is held. */
  datatype Scene = Scene(f: Links, handles: Handles)

  ghost predicate Sane(s: Scene) { WellFormed(s.f) && s.f.kids.Keys <= s.handles.Keys }

  /** The nodes passed to a call are held, and only a handle that exists is given up. */
  ghost predicate Allowed(s: Scene, a: Action) {
    match a
    case Call(e) => HeldEdit(s.f, s.handles, e)
    case Take(n) => n in s.f.kids
    case Give(n) => n in s.f.kids && n in s.handles && s.handles[n] >= 1
  }

  ghost function Next(s: Scene, a: Action): (t: Scene)
    requires Sane(s) && Allowed(s, a)
    ensures Sane(t)
  {
    match a
    case Call(e) => Scene(Editing(s.f, e), s.handles)
    case Take(n) => Scene(s.f, s.handles[n := s.handles[n] + 1])
    case Give(n) =>
      var hs := s.handles[n := s.handles[n] - 1];
      if hs[n] > 0 || n in s.f.parent then Scene(s.f, hs) else
        PruneWellFormed(s.f, Holding(hs), n);
        Scene(Prune(s.f, Holding(hs), n), hs)
  }

  ghost predicate AllowedRun(s: Scene, acts: seq<Action>)
    requires Sane(s)
    decreases |acts|
  {
    acts != [] ==> Allowed(s, acts[0]) && AllowedRun(Next(s, acts[0]), acts[1..])
  }

  ghost function Ending(s: Scene, acts: seq<Action>): (t: Scene)
    requires Sane(s) && AllowedRun(s, acts)
    ensures Sane(t)
    decreases |acts|
  {
    if acts == [] then s else Ending(Next(s, acts[0]), acts[1..])
  }

  /** Only nodes that are there are held, and each has its parent, or its handles. */
  ghost predicate Tidy(s: Scene) {
    Holding(s.handles) <= s.f.kids.Keys && NoneLost(s.f, Holding(s.handles))
  }

  /** An edit leaves without parent only what it returns. */
  lemma EditParents(f: Links, e: Edit<NodeImp>)
    requires WellFormed(f) && KnownEdit(f, e)
    ensures forall m :: m in f.parent && m !in Editing(f, e).parent
                        ==> (e.ReplaceChild? || e.RemoveChild?) && e.leaving == Some(m)
  {
    hide WellFormed, Move, Detach, InSubtree;
    if Refusal(f, OwnersIn(f), e) == None {
      match e
      case InsertBefore(p, c, r) => if c != None && c != r { MoveParent(f, p, r, c.value); }
      case ReplaceChild(p, c, o) =>
        if c != None && c != o {
          MoveWellFormed(f, p, o, c.value);
          MoveParent(f, p, o, c.value);
          DetachDomain(Move(f, p, o, c.value), o.value);
        }
      case RemoveChild(p, o) => DetachDomain(f, o.value);
      case AppendChild(p, c) => if c != None { MoveParent(f, p, None, c.value); }
    }
  }

  lemma CallTidy(s: Scene, e: Edit<NodeImp>)
    requires Sane(s) && Allowed(s, Call(e)) && Tidy(s)
    ensures Tidy(Next(s, Call(e)))
  {
    hide WellFormed, KnownEdit, Editing;
    EditParents(s.f, e);
  }

  lemma GiveTidy(s: Scene, n: NodeImp)
    requires Sane(s) && Allowed(s, Give(n)) && Tidy(s)
    ensures Tidy(Next(s, Give(n)))
  {
    hide WellFormed, Prune;
    var hs := s.handles[n := s.handles[n] - 1];
    if hs[n] == 0 && n !in s.f.parent {
      PruneLosesNone(s.f, Holding(hs), n);
      HeldStays(s.f, Holding(hs), n);
    }
  }

  lemma HeldStays(f: Links, held: set<NodeImp>, n: NodeImp)
    requires WellFormed(f)
    ensures forall m :: m in f.kids && m in held ==> m in Prune(f, held, n).kids
  {
    hide WellFormed;
  }

  lemma NextTidy(s: Scene, a: Action)
    requires Sane(s) && Allowed(s, a) && Tidy(s)
    ensures Tidy(Next(s, a))
  {
    hide WellFormed, Prune, Editing;
    match a
    case Call(e) => CallTidy(s, e);
    case Take(n) =>
    case Give(n) => GiveTidy(s, n);
  }

  lemma NextSettled(s: Scene, a: Action)
    requires Sane(s) && Allowed(s, a) && Settled(s.f, OwnersIn(s.f))
    ensures Settled(Next(s, a).f, OwnersIn(Next(s, a).f))
  {
    hide WellFormed, Prune, After, Settled;
    match a
    case Call(e) =>
      AfterSettled(s.f, OwnersIn(s.f), e);
      assert OwnersIn(Editing(s.f, e)) == OwnersIn(s.f);
    case Take(n) =>
    case Give(n) =>
      var hs := s.handles[n := s.handles[n] - 1];
      if n !in s.f.parent { PruneSettled(s.f, Holding(hs), n); }
  }

  lemma PruneSettled(f: Links, held: set<NodeImp>, n: NodeImp)
    requires WellFormed(f) && n !in f.parent && Settled(f, OwnersIn(f))
    ensures Settled(Prune(f, held, n), OwnersIn(Prune(f, held, n)))
  {
    hide WellFormed, Prune;
    PruneLinks(f, held, n);
    PruneWellFormed(f, held, n);
    var g := Prune(f, held, n);
    forall c | c in g.parent ensures c in g.kids && g.parent[c] in g.kids { WellChild(g, c); }
  }

  /**
   * Over any run: if at first only nodes that are there are held, and each has its parent or its handles, it stays so;
   * so no handle is left to a deleted node, and no node is left that none of its ancestors' handles keeps.
   */
  lemma {:induction false} RunTidy(s: Scene, acts: seq<Action>)
    requires Sane(s) && AllowedRun(s, acts) && Tidy(s)
    ensures Tidy(Ending(s, acts))
    ensures forall m :: m in Ending(s, acts).f.kids ==> RootOf(Ending(s, acts).f, m) in Holding(Ending(s, acts).handles)
    decreases |acts|
  {
    hide WellFormed, Tidy, Next, Allowed;
    if acts != [] {
      NextTidy(s, acts[0]);
      RunTidy(Next(s, acts[0]), acts[1..]);
    } else {
      RootsHeld(s);
    }
  }

  lemma RootsHeld(s: Scene)
    requires Sane(s) && Tidy(s)
    ensures forall m :: m in s.f.kids ==> RootOf(s.f, m) in Holding(s.handles)
  {
    hide WellFormed, Holding;
  }

  method Act(a: Action, ghost s: Scene) returns (ghost t: Scene)
    requires Sane(s) && Represents(s.f) && Counted(s.f, s.handles) && Allowed(s, a)
    modifies s.f.kids.Keys
    ensures t == Next(s, a) && Represents(t.f) && Counted(t.f, t.handles)
  {
    hide *;
    t := Next(s, a);
    match a
    case Call(e) =>
      CallMeans(s, e);
      var r := Perform(e, s.f, s.handles);
    case Take(n) =>
      TakeMeans(s, n);
      TakeHandle(n, s.f, s.handles);
    case Give(n) =>
      GiveMeans(s, n);
      var dead := LetGo(n, s.f, t.handles);
      if dead {
        AllWithin(s.f, n);
        ghost var g := Delete(n, s.f, t.handles, Floor(s.f));
      }
  }

  lemma CallMeans(s: Scene, e: Edit<NodeImp>)
    requires Sane(s) && Allowed(s, Call(e))
    ensures HeldEdit(s.f, s.handles, e) && KnownEdit(s.f, e) && WellFormed(s.f)
    ensures Next(s, Call(e)) == Scene(Editing(s.f, e), s.handles)
  {
    hide WellFormed, Editing, KnownEdit;
  }

  lemma TakeMeans(s: Scene, n: NodeImp)
    requires Sane(s) && Allowed(s, Take(n))
    ensures n in s.f.kids && n in s.handles && Next(s, Take(n)) == Scene(s.f, s.handles[n := s.handles[n] + 1])
  {
    hide WellFormed;
  }

  lemma GiveMeans(s: Scene, n: NodeImp)
    requires Sane(s) && Allowed(s, Give(n))
    ensures var t := Next(s, Give(n));
      && n in s.f.kids && n in t.handles && WellFormed(s.f) && s.handles == t.handles[n := t.handles[n] + 1]
      && t.f == if t.handles[n] == 0 && n !in s.f.parent then Prune(s.f, Holding(t.handles), n) else s.f
  {
    hide WellFormed, Prune;
  }

  lemma AllWithin(f: Links, n: NodeImp)
    requires WellFormed(f)
    ensures Within(f, n, Floor(f))
  {
    hide InSubtree;
  }

  /**
   * Any run of public mutators, with handles taken and given up in between and nodes deleted when their last reference
   * goes, leaves linked nodes that stand for the run of the abstract forest, with every reference accounted for; no
   * child becomes foreign to its parent, and each node that is left is kept by a handle on it or above it.
   */
  method PerformAll(acts: seq<Action>, ghost s: Scene)
    requires Sane(s) && Represents(s.f) && Counted(s.f, s.handles) && AllowedRun(s, acts)
    modifies s.f.kids.Keys
    ensures var t := Ending(s, acts);
      && t.f.kids.Keys <= s.f.kids.Keys && Represents(t.f) && Counted(t.f, t.handles)
      && (Settled(s.f, OwnersIn(s.f)) ==> Settled(t.f, OwnersIn(t.f))) && (Tidy(s) ==> Tidy(t))
  {
    hide *;
    ghost var t := s;
    assert acts[0..] == acts;
    for i := 0 to |acts|
      invariant Sane(t) && Represents(t.f) && Counted(t.f, t.handles) && t.f.kids.Keys <= s.f.kids.Keys
      invariant AllowedRun(t, acts[i..]) && Ending(t, acts[i..]) == Ending(s, acts)
      invariant Settled(s.f, OwnersIn(s.f)) ==> Settled(t.f, OwnersIn(t.f))
    {
      RunStep(t, acts[i..]);
      assert acts[i..][0] == acts[i] && acts[i..][1..] == acts[i + 1..];
      t := Act(acts[i], t);
    }
    assert acts[|acts|..] == [];
    RunEnds(t);
    if Tidy(s) { RunTidy(s, acts); }
  }

  /** One action, and what it leaves of the run that follows. */
  lemma RunStep(s: Scene, acts: seq<Action>)
    requires Sane(s) && AllowedRun(s, acts) && acts != []
    ensures Allowed(s, acts[0])
    ensures var t := Next(s, acts[0]);
      && Sane(t) && AllowedRun(t, acts[1..]) && Ending(t, acts[1..]) == Ending(s, acts)
      && t.f.kids.Keys <= s.f.kids.Keys
      && (Settled(s.f, OwnersIn(s.f)) ==> Settled(t.f, OwnersIn(t.f)))
  {
    hide WellFormed, Settled, Next, Allowed;
    FewerNodes(s, acts[0]);
    if Settled(s.f, OwnersIn(s.f)) { NextSettled(s, acts[0]); }
  }

  lemma FewerNodes(s: Scene, a: Action)
    requires Sane(s) && Allowed(s, a)
    ensures Next(s, a).f.kids.Keys <= s.f.kids.Keys
  {
    hide WellFormed;
  }

  lemma RunEnds(s: Scene)
    requires Sane(s)
    ensures AllowedRun(s, []) && Ending(s, []) == s
  {
  }
}
