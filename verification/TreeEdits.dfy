/**
 * The four public tree mutators as functions on the abstract forest: which call is refused
 * with which DOM error, and what the others do to the child lists.
 */
module TreeEdits {
  import opened Sequences
  import opened Forests

  datatype DomError = WrongDocument | NotFound | HierarchyRequest

  datatype Outcome<N> = Returned(node: Option<N>) | Threw(error: DomError)

  datatype Edit<N> =
    | InsertBefore(target: N, child: Option<N>, ref: Option<N>)
    | ReplaceChild(target: N, child: Option<N>, leaving: Option<N>)
    | RemoveChild(target: N, leaving: Option<N>)
    | AppendChild(target: N, child: Option<N>)

  type Owners<N(==)> = map<N, Option<N>>

  ghost predicate Known<N>(f: Forest<N>, o: Option<N>) {
    o.Some? ==> o.value in f.kids
  }

  ghost predicate KnownEdit<N>(f: Forest<N>, e: Edit<N>) {
    && e.target in f.kids
    && match e
       case InsertBefore(_, c, r) => Known(f, c) && Known(f, r)
       case ReplaceChild(_, c, o) => Known(f, c) && Known(f, o)
       case RemoveChild(_, o) => Known(f, o)
       case AppendChild(_, c) => Known(f, c)
  }

  ghost predicate Foreign<N>(owner: Owners<N>, p: N, c: N)
    requires p in owner && c in owner
  {
    owner[c] != owner[p] && owner[c] != Some(p)
  }

  /** The tests every insertion makes on the new child, in the order appendChild makes them. */
  ghost function AppendRefusal<N>(f: Forest<N>, owner: Owners<N>, p: N, c: N): Option<DomError>
    requires WellFormed(f) && p in f.kids && c in f.kids && f.kids.Keys <= owner.Keys
  {
    if Foreign(owner, p, c) then Some(WrongDocument)
    else if InSubtree(f, c, p) then Some(HierarchyRequest)
    else None
  }

  ghost function Refusal<N>(f: Forest<N>, owner: Owners<N>, e: Edit<N>): Option<DomError>
    requires WellFormed(f) && KnownEdit(f, e) && f.kids.Keys <= owner.Keys
  {
    match e
    case InsertBefore(p, c, r) =>
      if c == None then None
      else if r == None then AppendRefusal(f, owner, p, c.value)
      else if c == r then None
      else if Foreign(owner, p, c.value) then Some(WrongDocument)
      else if ParentOf(f, r.value) != Some(p) then Some(NotFound)
      else AppendRefusal(f, owner, p, c.value)
    case ReplaceChild(p, c, o) =>
      if c == None then None
      else if o == None || ParentOf(f, o.value) != Some(p) then Some(NotFound)
      else if c == o then None
      else AppendRefusal(f, owner, p, c.value)
    case RemoveChild(p, o) =>
      if o == None || ParentOf(f, o.value) != Some(p) then Some(NotFound) else None
    case AppendChild(p, c) =>
      if c == None then None else AppendRefusal(f, owner, p, c.value)
  }

  ghost function Answer<N>(f: Forest<N>, owner: Owners<N>, e: Edit<N>): Outcome<N>
    requires WellFormed(f) && KnownEdit(f, e) && f.kids.Keys <= owner.Keys
  {
    match Refusal(f, owner, e)
    case Some(x) => Threw(x)
    case None => Returned(if e.InsertBefore? || e.AppendChild? then e.child else e.leaving)
  }

  // Moving a node: out of its old place, then in front of ref or to the end.

  ghost function Lift<N>(f: Forest<N>, c: N): Forest<N>
    requires WellFormed(f)
  {
    if c in f.parent then Detach(f, c) else f
  }

  ghost function Slot<N>(f: Forest<N>, p: N, ref: Option<N>): (k: nat)
    requires p in f.kids && (ref.Some? ==> ref.value in f.kids[p])
    ensures if ref.Some? then k < |f.kids[p]| && f.kids[p][k] == ref.value else k == |f.kids[p]|
  {
    if ref.Some? then IndexOf(f.kids[p], ref.value) else |f.kids[p]|
  }

  ghost predicate CanMove<N>(f: Forest<N>, p: N, ref: Option<N>, c: N) {
    && WellFormed(f) && p in f.kids && c in f.kids && !InSubtree(f, c, p)
    && (ref.Some? ==> ref.value != c && ParentOf(f, ref.value) == Some(p))
  }

  lemma LiftReady<N>(f: Forest<N>, p: N, ref: Option<N>, c: N)
    requires CanMove(f, p, ref, c)
    ensures var g := Lift(f, c);
      && WellFormed(g) && g.kids.Keys == f.kids.Keys && c !in g.parent && !InSubtree(g, c, p)
      && (ref.Some? ==> ref.value in g.kids[p])
  {
    if c in f.parent {
      DetachWellFormed(f, c);
      if InSubtree(Detach(f, c), c, p) { DetachShrinksSubtrees(f, c, c, p); }
    }
    if ref.Some? {
      assert ChildOk(f, ref.value) && KidsOk(f, p);
      WithoutNoDup(f.kids[p], c);
    }
  }

  ghost function Move<N>(f: Forest<N>, p: N, ref: Option<N>, c: N): Forest<N>
    requires CanMove(f, p, ref, c)
  {
    LiftReady(f, p, ref, c);
    var g := Lift(f, c);
    Attach(g, p, Slot(g, p, ref), c)
  }

  lemma MoveWellFormed<N>(f: Forest<N>, p: N, ref: Option<N>, c: N)
    requires CanMove(f, p, ref, c)
    ensures WellFormed(Move(f, p, ref, c)) && Move(f, p, ref, c).kids.Keys == f.kids.Keys
  {
    LiftReady(f, p, ref, c);
    var g := Lift(f, c);
    AttachWellFormed(g, p, Slot(g, p, ref), c);
  }

  lemma MoveIsAttach<N>(f: Forest<N>, p: N, ref: Option<N>, c: N)
    requires CanMove(f, p, ref, c)
    ensures var g := Lift(f, c);
      && WellFormed(g) && p in g.kids && c in g.kids && (ref.Some? ==> ref.value in g.kids[p])
      && Move(f, p, ref, c) == Attach(g, p, Slot(g, p, ref), c)
      && Move(f, p, ref, c).kids.Keys == f.kids.Keys
  {
    LiftReady(f, p, ref, c);
  }

  lemma MoveParent<N>(f: Forest<N>, p: N, ref: Option<N>, c: N)
    requires CanMove(f, p, ref, c)
    ensures Move(f, p, ref, c).parent == f.parent[c := p]
  {
    LiftParent(f, c);
    PutBack(f.parent, c, p);
    hide Lift, WellFormed, InSubtree, Without, InsertAt, Slot, IndexOf;
  }

  lemma LiftParent<N>(f: Forest<N>, c: N)
    requires WellFormed(f)
    ensures Lift(f, c).parent == f.parent - {c}
  {
    if c !in f.parent { assert f.parent - {c} == f.parent; }
  }

  lemma PutBack<K, V>(m: map<K, V>, k: K, v: V)
    ensures (m - {k})[k := v] == m[k := v]
  {
  }

  /** Every list loses the moved node, and the target's list gains it at the slot. */
  lemma LiftKids<N>(f: Forest<N>, c: N, q: N)
    requires WellFormed(f) && c in f.kids && q in f.kids
    ensures q in Lift(f, c).kids && Lift(f, c).kids[q] == Without(f.kids[q], c)
  {
    assert KidsOk(f, q);
    if c in f.parent { assert ChildOk(f, c); }
  }

  lemma KidsDistinct<N>(f: Forest<N>, p: N)
    requires WellFormed(f) && p in f.kids
    ensures NoDup(f.kids[p])
  {
    WellKids(f, p);
  }

  /**
   * What a move means for the child lists: everywhere the moved node is gone from its old
   * place; under p, apart from it, the order is kept, and it stands right before ref, or last.
   */
  lemma MoveEffect<N>(f: Forest<N>, p: N, ref: Option<N>, c: N)
    requires CanMove(f, p, ref, c)
    ensures var g := Move(f, p, ref, c);
      && (forall q :: q in f.kids && q != p ==> q in g.kids && g.kids[q] == Without(f.kids[q], c))
      && p in g.kids && c in g.kids[p] && Without(g.kids[p], c) == Without(f.kids[p], c)
      && NextIn(g.kids[p], c) == ref
      && c !in Without(f.kids[p], c)
  {
    hide WellFormed, InSubtree, Lift, KidsOk;
    LiftReady(f, p, ref, c);
    var g := Lift(f, c);
    var k := Slot(g, p, ref);
    forall q | q in f.kids ensures q in g.kids && g.kids[q] == Without(f.kids[q], c) { LiftKids(f, c, q); }
    KidsDistinct(f, p);
    KidsDistinct(g, p);
    WithoutNoDup(f.kids[p], c);
    InsertAtIndex(g.kids[p], k, c, c);
    InsertThenTakeOut(g.kids[p], k, c);
  }

  /** The forest after a call. */
  ghost function After<N>(f: Forest<N>, owner: Owners<N>, e: Edit<N>): Forest<N>
    requires WellFormed(f) && KnownEdit(f, e) && f.kids.Keys <= owner.Keys
  {
    if Refusal(f, owner, e).Some? then f else
    match e
    case InsertBefore(p, c, r) => if c == None || c == r then f else Move(f, p, r, c.value)
    case ReplaceChild(p, c, o) =>
      if c == None || c == o then f else
        assert CanMove(f, p, o, c.value);
        MoveWellFormed(f, p, o, c.value);
        MoveParent(f, p, o, c.value);
        Detach(Move(f, p, o, c.value), o.value)
    case RemoveChild(p, o) => Detach(f, o.value)
    case AppendChild(p, c) => if c == None then f else Move(f, p, None, c.value)
  }

  lemma AfterWellFormed<N>(f: Forest<N>, owner: Owners<N>, e: Edit<N>)
    requires WellFormed(f) && KnownEdit(f, e) && f.kids.Keys <= owner.Keys
    ensures WellFormed(After(f, owner, e)) && After(f, owner, e).kids.Keys == f.kids.Keys
  {
    if Refusal(f, owner, e) == None {
      match e
      case InsertBefore(p, c, r) => if c != None && c != r { MoveWellFormed(f, p, r, c.value); }
      case ReplaceChild(p, c, o) =>
        if c != None && c != o {
          MoveWellFormed(f, p, o, c.value);
          MoveParent(f, p, o, c.value);
          DetachWellFormed(Move(f, p, o, c.value), o.value);
        }
      case RemoveChild(p, o) => DetachWellFormed(f, o.value);
      case AppendChild(p, c) => if c != None { MoveWellFormed(f, p, None, c.value); }
    }
  }

  /**
   * Replacing puts the new child exactly where the old one stood, once the new child
   * has left its own old place, and leaves the old child without a parent.
   */
  lemma ReplaceEffect<N>(f: Forest<N>, owner: Owners<N>, p: N, c: N, o: N)
    requires WellFormed(f) && p in f.kids && c in f.kids && o in f.kids && f.kids.Keys <= owner.Keys && c != o
    requires Refusal(f, owner, ReplaceChild(p, Some(c), Some(o))) == None
    ensures var g := After(f, owner, ReplaceChild(p, Some(c), Some(o)));
      var w := Without(f.kids[p], c);
      && o in w && p in g.kids && g.kids[p] == w[IndexOf(w, o) := c]
      && g.parent == f.parent[c := p] - {o}
      && forall q :: q in f.kids && q != p ==> q in g.kids && g.kids[q] == Without(f.kids[q], c)
  {
    MoveWellFormed(f, p, Some(o), c);
    MoveParent(f, p, Some(o), c);
    MoveEffect(f, p, Some(o), c);
    var m, w := Move(f, p, Some(o), c), Without(f.kids[p], c);
    assert KidsOk(m, p);
    ReplacedInPlace(m.kids[p], c, o);
    assert Detach(m, o).kids[p] == Without(m.kids[p], o);
  }

  lemma ReplacedInPlace<T>(s: seq<T>, c: T, o: T)
    requires NoDup(s) && c in s && NextIn(s, c) == Some(o)
    ensures o in Without(s, c)
    ensures var w := Without(s, c); Without(s, o) == w[IndexOf(w, o) := c]
  {
    hide *;
    var k, w := IndexOf(s, c), Without(s, c);
    NextStands(s, c, o);
    WithoutIs(s, c);
    WithoutIs(s, o);
    WithoutNoDup(s, c);
    assert w[k] == o;
    IndexOfUnique(w, k);
    ReplacedAt(s, k);
  }

  lemma NextStands<T>(s: seq<T>, c: T, o: T)
    requires NoDup(s) && c in s && NextIn(s, c) == Some(o)
    ensures IndexOf(s, c) + 1 < |s| && s[IndexOf(s, c) + 1] == o && o in s && IndexOf(s, o) == IndexOf(s, c) + 1
  {
    IndexOfUnique(s, IndexOf(s, c) + 1);
  }

  lemma WithoutIs<T>(s: seq<T>, x: T)
    requires x in s
    ensures Without(s, x) == s[..IndexOf(s, x)] + s[IndexOf(s, x) + 1..]
  {
  }

  lemma ReplacedAt<T>(s: seq<T>, k: nat)
    requires k + 1 < |s|
    ensures s[..k + 1] + s[k + 2..] == (s[..k] + s[k + 1..])[k := s[k]]
  {
  }

  // Whole runs.

  ghost predicate KnownRun<N>(f: Forest<N>, es: seq<Edit<N>>) {
    forall e :: e in es ==> KnownEdit(f, e)
  }

  lemma KnownAfter<N>(f: Forest<N>, g: Forest<N>, es: seq<Edit<N>>)
    requires KnownRun(f, es) && g.kids.Keys == f.kids.Keys
    ensures KnownRun(g, es)
  {
    forall e | e in es ensures KnownEdit(g, e) { assert KnownEdit(f, e); }
  }

  ghost function Run<N>(f: Forest<N>, owner: Owners<N>, es: seq<Edit<N>>): (g: Forest<N>)
    requires WellFormed(f) && KnownRun(f, es) && f.kids.Keys <= owner.Keys
    ensures WellFormed(g) && g.kids.Keys == f.kids.Keys
    decreases |es|
  {
    if es == [] then f else
      var h := After(f, owner, es[0]);
      AfterWellFormed(f, owner, es[0]);
      KnownAfter(f, h, es[1..]);
      Run(h, owner, es[1..])
  }

  // Owners.

  /** Every child has its parent's owner, or its parent as owner. */
  ghost predicate Settled<N>(f: Forest<N>, owner: Owners<N>) {
    forall c :: c in f.parent ==> c in owner && f.parent[c] in owner && !Foreign(owner, f.parent[c], c)
  }

  /** No edit makes a child foreign to its parent. */
  lemma AfterSettled<N>(f: Forest<N>, owner: Owners<N>, e: Edit<N>)
    requires WellFormed(f) && KnownEdit(f, e) && f.kids.Keys <= owner.Keys && Settled(f, owner)
    ensures Settled(After(f, owner, e), owner)
  {
    hide WellFormed, InSubtree, Move, Detach, Settled, Foreign;
    if Refusal(f, owner, e) == None {
      match e
      case InsertBefore(p, c, r) =>
        if c != None && c != r { MoveSettled(f, owner, p, r, c.value); }
      case ReplaceChild(p, c, o) =>
        if c != None && c != o {
          var m := Move(f, p, o, c.value);
          MoveSettled(f, owner, p, o, c.value);
          MoveWellFormed(f, p, o, c.value);
          MoveParent(f, p, o, c.value);
          DetachSettled(m, owner, o.value);
        }
      case RemoveChild(p, o) => DetachSettled(f, owner, o.value);
      case AppendChild(p, c) =>
        if c != None { MoveSettled(f, owner, p, None, c.value); }
    }
  }

  lemma MoveSettled<N>(f: Forest<N>, owner: Owners<N>, p: N, ref: Option<N>, c: N)
    requires CanMove(f, p, ref, c) && f.kids.Keys <= owner.Keys && Settled(f, owner) && !Foreign(owner, p, c)
    ensures Settled(Move(f, p, ref, c), owner)
  {
    hide WellFormed, InSubtree, Move;
    MoveParent(f, p, ref, c);
  }

  lemma DetachSettled<N>(f: Forest<N>, owner: Owners<N>, o: N)
    requires WellFormed(f) && o in f.parent && Settled(f, owner)
    ensures Settled(Detach(f, o), owner)
  {
    hide WellFormed, Detach;
    DetachDomain(f, o);
  }

  /** Over any run of edits children stay with their owners. */
  lemma {:induction false} RunSettled<N>(f: Forest<N>, owner: Owners<N>, es: seq<Edit<N>>)
    requires WellFormed(f) && KnownRun(f, es) && f.kids.Keys <= owner.Keys && Settled(f, owner)
    ensures Settled(Run(f, owner, es), owner)
    decreases |es|
  {
    hide Settled, WellFormed, After;
    if es != [] {
      var h := After(f, owner, es[0]);
      AfterWellFormed(f, owner, es[0]);
      KnownAfter(f, h, es[1..]);
      AfterSettled(f, owner, es[0]);
      RunSettled(h, owner, es[1..]);
    }
  }
}
