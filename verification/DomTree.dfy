/**
 * NodeImp: the linked representation of the forest. Every method takes the forest that the
 * links stand for as a ghost argument; `Represents` ties the two together.
 */
module DomTree {
  import opened Sequences
  import opened Forests
  import opened TreeEdits
  import opened DomLabels

  type Links = Forest<NodeImp>

  ghost function Ptr(o: Option<NodeImp>): NodeImp? {
    match o case None => null case Some(n) => n
  }

  function Opt(n: NodeImp?): (o: Option<NodeImp>)
    ensures if n == null then o == None else o.Some? && o.value == n
  {
    if n == null then None else Some(n)
  }

  ghost predicate Represents(f: Links)
    reads f.kids.Keys`parentNode, f.kids.Keys`firstChild, f.kids.Keys`lastChild
    reads f.kids.Keys`previousSibling, f.kids.Keys`nextSibling, f.kids.Keys`childCount
  {
    WellFormed(f) && forall n :: n in f.kids ==> n.LinkedAs(f)
  }

  ghost function OwnersIn(f: Links): (o: Owners<NodeImp>)
    ensures o.Keys == f.kids.Keys
  {
    map n | n in f.kids :: Opt(n.ownerDocument)
  }

  /** What the edit answers and leaves behind, for nodes with their actual owners. */
  ghost function Answering(f: Links, e: Edit<NodeImp>): Outcome<NodeImp>
    requires WellFormed(f) && KnownEdit(f, e)
  {
    Answer(f, OwnersIn(f), e)
  }

  ghost function Editing(f: Links, e: Edit<NodeImp>): (g: Links)
    requires WellFormed(f) && KnownEdit(f, e)
    ensures WellFormed(g) && g.kids.Keys == f.kids.Keys
  {
    AfterWellFormed(f, OwnersIn(f), e);
    After(f, OwnersIn(f), e)
  }

  /** One reference per external handle and one from the parent. */
  ghost predicate Counted(f: Links, handles: map<NodeImp, nat>)
    reads f.kids.Keys`count
  {
    && f.kids.Keys <= handles.Keys
    && forall n :: n in f.kids ==> n.count == handles[n] + if n in f.parent then 1 else 0
  }

  /** A node that is passed as a Node argument is held by at least that handle. */
  ghost predicate Held(f: Links, handles: map<NodeImp, nat>, n: NodeImp?) {
    n != null ==> n in f.kids && n in handles && handles[n] >= 1
  }

  class NodeImp {
    const ownerDocument: NodeImp?
    const content: Label
    var parentNode: NodeImp?
    var firstChild: NodeImp?
    var lastChild: NodeImp?
    var previousSibling: NodeImp?
    var nextSibling: NodeImp?
    var childCount: nat
    var count: nat

    ghost predicate LinkedAs(f: Links)
      requires this in f.kids
      reads this`parentNode, this`firstChild, this`lastChild, this`previousSibling, this`nextSibling, this`childCount
    {
      && parentNode == Ptr(ParentOf(f, this))
      && firstChild == Ptr(FirstOf(f, this))
      && lastChild == Ptr(LastOf(f, this))
      && previousSibling == Ptr(PrevOf(f, this))
      && nextSibling == Ptr(NextOf(f, this))
      && childCount == |f.kids[this]|
    }

    constructor (owner: NodeImp?, content: Label)
      ensures ownerDocument == owner && this.content == content && count == 0
      ensures parentNode == null && firstChild == null && lastChild == null
      ensures previousSibling == null && nextSibling == null && childCount == 0
    {
      ownerDocument := owner;
      this.content := content;
      parentNode, firstChild, lastChild := null, null, null;
      previousSibling, nextSibling, childCount, count := null, null, 0, 0;
    }

    method Retain()
      modifies this`count
      ensures count == old(count) + 1
    {
      count := count + 1;
    }

    /** dead: the count reached zero, so the object would now delete itself. */
    method Release() returns (dead: bool)
      modifies this`count
      ensures count == if old(count) > 0 then old(count) - 1 else 0
      ensures dead <==> count == 0
    {
      if 0 < count {
        count := count - 1;
      }
      dead := count == 0;
    }

    // Private link surgery, stated field by field over any set of nodes that holds those it touches.

    method UnlinkChild(item: NodeImp, ghost all: set<NodeImp>)
      requires this in all && item in all && childCount > 0
      requires item.previousSibling != null ==> item.previousSibling in all
      requires item.nextSibling != null ==> item.nextSibling in all
      modifies all`parentNode, all`firstChild, all`lastChild, all`previousSibling, all`nextSibling, all`childCount
      ensures forall n :: n in all ==>
        && n.parentNode == (if n == item then null else old(n.parentNode))
        && n.childCount == old(n.childCount) - (if n == this then 1 else 0)
        && n.firstChild == (if n == this && old(item.previousSibling) == null then old(item.nextSibling)
                            else old(n.firstChild))
        && n.lastChild == (if n == this && old(item.nextSibling) == null then old(item.previousSibling)
                           else old(n.lastChild))
      ensures forall n :: n in all ==>
        && n.previousSibling == (if n == item then null
                                 else if n == old(item.nextSibling) then old(item.previousSibling)
                                 else old(n.previousSibling))
        && n.nextSibling == (if n == item then null
                             else if n == old(item.previousSibling) then old(item.nextSibling)
                             else old(n.nextSibling))
    {
      var next := item.nextSibling;
      var prev := item.previousSibling;
      if next == null {
        lastChild := prev;
      } else {
        next.previousSibling := prev;
      }
      if prev == null {
        firstChild := next;
      } else {
        prev.nextSibling := next;
      }
      item.parentNode, item.previousSibling, item.nextSibling := null, null, null;
      childCount := childCount - 1;
    }

    method LinkBefore(item: NodeImp, after: NodeImp, ghost all: set<NodeImp>)
      requires this in all && item in all && after in all && item != after
      requires after.previousSibling != null ==> after.previousSibling in all && after.previousSibling != item
      modifies all`parentNode, all`firstChild, all`lastChild, all`previousSibling, all`nextSibling, all`childCount
      ensures forall n :: n in all ==>
        && n.parentNode == (if n == item then this else old(n.parentNode))
        && n.childCount == old(n.childCount) + (if n == this then 1 else 0)
        && n.firstChild == (if n == this && old(after.previousSibling) == null then item else old(n.firstChild))
        && n.lastChild == old(n.lastChild)
      ensures forall n :: n in all ==>
        && n.previousSibling == (if n == item then old(after.previousSibling)
                                 else if n == after then item else old(n.previousSibling))
        && n.nextSibling == (if n == item then after
                             else if n == old(after.previousSibling) then item else old(n.nextSibling))
    {
      item.previousSibling := after.previousSibling;
      item.nextSibling := after;
      after.previousSibling := item;
      if item.previousSibling == null {
        firstChild := item;
      } else {
        item.previousSibling.nextSibling := item;
      }
      item.parentNode := this;
      childCount := childCount + 1;
    }

    method LinkLast(item: NodeImp, ghost all: set<NodeImp>)
      requires this in all && item in all
      requires lastChild != null ==> lastChild in all && lastChild != item
      modifies all`parentNode, all`firstChild, all`lastChild, all`previousSibling, all`nextSibling, all`childCount
      ensures forall n :: n in all ==>
        && n.parentNode == (if n == item then this else old(n.parentNode))
        && n.childCount == old(n.childCount) + (if n == this then 1 else 0)
        && n.firstChild == (if n == this && old(lastChild) == null then item else old(n.firstChild))
        && n.lastChild == (if n == this then item else old(n.lastChild))
      ensures forall n :: n in all ==>
        && n.previousSibling == (if n == item then old(lastChild) else old(n.previousSibling))
        && n.nextSibling == (if n == item then null
                             else if n == old(lastChild) then item else old(n.nextSibling))
    {
      var prev := lastChild;
      if prev == null {
        firstChild := item;
      } else {
        prev.nextSibling := item;
      }
      item.previousSibling := prev;
      item.nextSibling := null;
      lastChild := item;
      item.parentNode := this;
      childCount := childCount + 1;
    }

    // The same surgery as a change of the forest.

    method DetachChild(item: NodeImp, ghost f: Links)
      requires Represents(f) && item in f.parent && f.parent[item] == this
      modifies f.kids.Keys`parentNode, f.kids.Keys`firstChild, f.kids.Keys`lastChild
      modifies f.kids.Keys`previousSibling, f.kids.Keys`nextSibling, f.kids.Keys`childCount
      ensures Represents(Detach(f, item)) && Detach(f, item).kids.Keys == f.kids.Keys
    {
      SiblingsKnown(f, item);
      UnlinkChild(item, f.kids.Keys);
      DetachWellFormed(f, item);
      forall n | n in f.kids ensures n.LinkedAs(Detach(f, item)) {
        DetachEnds(f, item, n);
        DetachSiblings(f, item, n);
      }
    }

    method AttachBefore(item: NodeImp, after: NodeImp, ghost k: nat, ghost f: Links)
      requires Represents(f) && this in f.kids && item in f.kids && item !in f.parent
      requires !InSubtree(f, item, this) && k < |f.kids[this]| && f.kids[this][k] == after
      modifies f.kids.Keys`parentNode, f.kids.Keys`firstChild, f.kids.Keys`lastChild
      modifies f.kids.Keys`previousSibling, f.kids.Keys`nextSibling, f.kids.Keys`childCount
      ensures Represents(Attach(f, this, k, item))
    {
      KidKnown(f, this, k);
      LinkBefore(item, after, f.kids.Keys);
      AttachWellFormed(f, this, k, item);
      forall n | n in f.kids ensures n.LinkedAs(Attach(f, this, k, item)) {
        AttachEnds(f, this, k, item, n);
        AttachSiblings(f, this, k, item, n);
      }
    }

    method AttachLast(item: NodeImp, ghost f: Links)
      requires Represents(f) && this in f.kids && item in f.kids && item !in f.parent
      requires !InSubtree(f, item, this)
      modifies f.kids.Keys`parentNode, f.kids.Keys`firstChild, f.kids.Keys`lastChild
      modifies f.kids.Keys`previousSibling, f.kids.Keys`nextSibling, f.kids.Keys`childCount
      ensures Represents(Attach(f, this, |f.kids[this]|, item))
    {
      ghost var k := |f.kids[this]|;
      LastKnown(f, this);
      LinkLast(item, f.kids.Keys);
      AttachWellFormed(f, this, k, item);
      forall n | n in f.kids ensures n.LinkedAs(Attach(f, this, k, item)) {
        AttachEnds(f, this, k, item, n);
        AttachSiblings(f, this, k, item, n);
      }
    }

    /** Whether this is a proper ancestor of node. */
    method IsAncestorOf(node: NodeImp, ghost f: Links) returns (r: bool)
      requires Represents(f) && node in f.kids
      ensures r <==> node in f.parent && InSubtree(f, this, f.parent[node])
      ensures r || this == node <==> InSubtree(f, this, node)
    {
      assert node.LinkedAs(f);
      if node in f.parent { assert ChildOk(f, node); }
      var parent := node.parentNode;
      while parent != null
        invariant parent != null ==> parent in f.kids
        invariant (node in f.parent && InSubtree(f, this, f.parent[node]))
             <==> (parent != null && InSubtree(f, this, parent))
        decreases if parent == null then 0 else f.depth[parent] + 1
      {
        if this == parent {
          return true;
        }
        assert parent.LinkedAs(f);
        if parent in f.parent { assert ChildOk(f, parent); }
        parent := parent.parentNode;
      }
      r := false;
    }

    // Public mutators.

    /** Takes over one reference and leaves the old parent, if any, together with its reference. */
    method LeaveParent(ghost f: Links)
      requires Represents(f) && this in f.kids
      requires this in f.parent ==> count > 0
      modifies f.kids.Keys`parentNode, f.kids.Keys`firstChild, f.kids.Keys`lastChild
      modifies f.kids.Keys`previousSibling, f.kids.Keys`nextSibling, f.kids.Keys`childCount, this`count
      ensures Represents(Lift(f, this)) && Lift(f, this).kids.Keys == f.kids.Keys
      ensures count == old(count) + if this in f.parent then 0 else 1
    {
      hide Represents, Detach, WellFormed, InSubtree;
      Linked(f, this);
      Retain();
      if parentNode != null {
        assert ChildOk(f, this) by { WellChild(f, this); }
        DetachDomain(f, this);
        parentNode.DetachChild(this, f);
        var dead := Release();
        assert !dead;
      }
    }

    /** The common middle of the three inserting calls. */
    method Place(child: NodeImp, ref: NodeImp?, ghost f: Links, ghost handles: map<NodeImp, nat>)
      requires Represents(f) && Counted(f, handles) && CanMove(f, this, Opt(ref), child)
      modifies f.kids.Keys
      ensures Represents(Move(f, this, Opt(ref), child)) && Counted(Move(f, this, Opt(ref), child), handles)
    {
      hide *;
      ghost var r, counts := Opt(ref), Counts(f);
      MoveStarts(f, this, ref, child, handles);
      LiftReady(f, this, r, child);
      MoveIsAttach(f, this, r, child);
      MoveParent(f, this, r, child);
      ghost var g := Lift(f, child);
      child.LeaveParent(f);
      if ref == null {
        AttachLast(child, g);
      } else {
        AttachBefore(child, ref, Slot(g, this, Some(ref)), g);
      }
      CountedMoved(f, Move(f, this, r, child), handles, this, child, counts);
    }

    method AppendChild(newChild: NodeImp?, ghost f: Links, ghost handles: map<NodeImp, nat>)
      returns (r: Outcome<NodeImp>)
      requires Represents(f) && Counted(f, handles) && this in f.kids && Held(f, handles, newChild)
      modifies f.kids.Keys
      ensures r == Answering(f, Edit.AppendChild(this, Opt(newChild)))
      ensures Represents(Editing(f, Edit.AppendChild(this, Opt(newChild))))
      ensures Counted(Editing(f, Edit.AppendChild(this, Opt(newChild))), handles)
      ensures r.Threw? ==> unchanged(f.kids.Keys)
    {
      hide *;
      Sound(f);
      HeldIn(f, handles, newChild);
      ghost var e := Edit.AppendChild(this, Opt(newChild));
      AppendMeans(f, this, newChild);
      if newChild == null {
        GrantedMeans(f, e);
        return Returned(None);
      }
      TestsAnswer(f, this, newChild);
      if newChild.ownerDocument != ownerDocument && newChild.ownerDocument != this {
        RefusedMeans(f, e, WrongDocument);
        return Threw(WrongDocument);
      }
      var above := newChild.IsAncestorOf(this, f);
      if newChild == this || above {
        RefusedMeans(f, e, HierarchyRequest);
        return Threw(HierarchyRequest);
      }
      GrantedMeans(f, e);
      Place(newChild, null, f, handles);
      return Returned(Some(newChild));
    }

    method InsertBefore(newChild: NodeImp?, refChild: NodeImp?, ghost f: Links, ghost handles: map<NodeImp, nat>)
      returns (r: Outcome<NodeImp>)
      requires Represents(f) && Counted(f, handles) && this in f.kids
      requires Held(f, handles, newChild) && Held(f, handles, refChild)
      modifies f.kids.Keys
      ensures r == Answering(f, Edit.InsertBefore(this, Opt(newChild), Opt(refChild)))
      ensures Represents(Editing(f, Edit.InsertBefore(this, Opt(newChild), Opt(refChild))))
      ensures Counted(Editing(f, Edit.InsertBefore(this, Opt(newChild), Opt(refChild))), handles)
      ensures r.Threw? ==> unchanged(f.kids.Keys)
    {
      hide *;
      Sound(f);
      HeldIn(f, handles, newChild);
      HeldIn(f, handles, refChild);
      ghost var e := Edit.InsertBefore(this, Opt(newChild), Opt(refChild));
      if newChild == null {
        NullChild(f, this, Opt(refChild));
        GrantedMeans(f, e);
        return Returned(None);
      }
      if refChild == null {
        NullOther(f, this, newChild);
        r := AppendChild(newChild, f, handles);
        return;
      }
      InsertMeans(f, this, newChild, refChild);
      TestsAnswer(f, this, newChild);
      if newChild != refChild {
        if newChild.ownerDocument != ownerDocument && newChild.ownerDocument != this {
          RefusedMeans(f, e, WrongDocument);
          return Threw(WrongDocument);
        }
        ParentIs(f, this, refChild);
        if refChild.parentNode != this {
          RefusedMeans(f, e, NotFound);
          return Threw(NotFound);
        }
        var above := newChild.IsAncestorOf(this, f);
        if newChild == this || above {
          RefusedMeans(f, e, HierarchyRequest);
          return Threw(HierarchyRequest);
        }
        GrantedMeans(f, e);
        Place(newChild, refChild, f, handles);
        return Returned(Some(newChild));
      }
      GrantedMeans(f, e);
      return Returned(Some(newChild));
    }

    method ReplaceChild(newChild: NodeImp?, oldChild: NodeImp?, ghost f: Links, ghost handles: map<NodeImp, nat>)
      returns (r: Outcome<NodeImp>)
      requires Represents(f) && Counted(f, handles) && this in f.kids
      requires Held(f, handles, newChild) && Held(f, handles, oldChild)
      modifies f.kids.Keys
      ensures r == Answering(f, Edit.ReplaceChild(this, Opt(newChild), Opt(oldChild)))
      ensures Represents(Editing(f, Edit.ReplaceChild(this, Opt(newChild), Opt(oldChild))))
      ensures Counted(Editing(f, Edit.ReplaceChild(this, Opt(newChild), Opt(oldChild))), handles)
      ensures r.Threw? ==> unchanged(f.kids.Keys)
    {
      hide *;
      Sound(f);
      HeldIn(f, handles, newChild);
      HeldIn(f, handles, oldChild);
      ghost var e := Edit.ReplaceChild(this, Opt(newChild), Opt(oldChild));
      if newChild == null {
        NullChild(f, this, Opt(oldChild));
        GrantedMeans(f, e);
        return Returned(Opt(oldChild));
      }
      if oldChild == null {
        NullOther(f, this, newChild);
        RefusedMeans(f, e, NotFound);
        return Threw(NotFound);
      }
      ReplaceMeans(f, this, newChild, oldChild);
      TestsAnswer(f, this, newChild);
      ParentIs(f, this, oldChild);
      if oldChild.parentNode != this {
        RefusedMeans(f, e, NotFound);
        return Threw(NotFound);
      }
      if newChild != oldChild {
        if newChild.ownerDocument != ownerDocument && newChild.ownerDocument != this {
          RefusedMeans(f, e, WrongDocument);
          return Threw(WrongDocument);
        }
        var above := newChild.IsAncestorOf(this, f);
        if newChild == this || above {
          RefusedMeans(f, e, HierarchyRequest);
          return Threw(HierarchyRequest);
        }
        GrantedMeans(f, e);
        ReplaceReady(f, this, newChild, oldChild, handles);
        Place(newChild, oldChild, f, handles);
        DropChild(oldChild, Move(f, this, Opt(oldChild), newChild), handles);
        return Returned(Some(oldChild));
      }
      GrantedMeans(f, e);
      return Returned(Some(oldChild));
    }

    /** Unlinks a held child and gives back the parent's reference. */
    method DropChild(child: NodeImp, ghost f: Links, ghost handles: map<NodeImp, nat>)
      requires Represents(f) && Counted(f, handles) && Held(f, handles, child)
      requires child in f.parent && f.parent[child] == this
      modifies f.kids.Keys
      ensures Represents(Detach(f, child)) && Counted(Detach(f, child), handles)
    {
      hide *;
      ghost var counts := Counts(f);
      DropStarts(f, child, handles);
      DetachChild(child, f);
      var dead := child.Release();
      assert !dead;
      CountedDropped(f, handles, child, counts);
    }

    method RemoveChild(oldChild: NodeImp?, ghost f: Links, ghost handles: map<NodeImp, nat>)
      returns (r: Outcome<NodeImp>)
      requires Represents(f) && Counted(f, handles) && this in f.kids && Held(f, handles, oldChild)
      modifies f.kids.Keys
      ensures r == Answering(f, Edit.RemoveChild(this, Opt(oldChild)))
      ensures Represents(Editing(f, Edit.RemoveChild(this, Opt(oldChild))))
      ensures Counted(Editing(f, Edit.RemoveChild(this, Opt(oldChild))), handles)
      ensures r.Threw? ==> unchanged(f.kids.Keys)
    {
      hide *;
      Sound(f);
      HeldIn(f, handles, oldChild);
      ghost var e := Edit.RemoveChild(this, Opt(oldChild));
      RemoveMeans(f, this, oldChild);
      if oldChild == null {
        RefusedMeans(f, e, NotFound);
        return Threw(NotFound);
      }
      ParentIs(f, this, oldChild);
      if oldChild.parentNode != this {
        RefusedMeans(f, e, NotFound);
        return Threw(NotFound);
      }
      GrantedMeans(f, e);
      DropChild(oldChild, f, handles);
      return Returned(Some(oldChild));
    }
  }

  // What the specification says to each branch of a call.

  /** The owners differ in the way that forbids c under p. */
  predicate Alien(p: NodeImp, c: NodeImp) { c.ownerDocument != p.ownerDocument && c.ownerDocument != p }

  lemma HeldIn(f: Links, handles: map<NodeImp, nat>, n: NodeImp?)
    requires Held(f, handles, n)
    ensures n != null ==> n in f.kids && Known(f, Opt(n))
    ensures n == null ==> Known(f, Opt(n))
  {
  }

  lemma AlienIs(f: Links, p: NodeImp, c: NodeImp)
    requires p in f.kids && c in f.kids
    ensures Foreign(OwnersIn(f), p, c) <==> Alien(p, c)
  {
  }

  lemma ParentIs(f: Links, p: NodeImp, n: NodeImp)
    requires Represents(f) && p in f.kids && n in f.kids
    ensures n.parentNode == p <==> ParentOf(f, n) == Some(p)
    ensures n.parentNode == p <==> n in f.parent && f.parent[n] == p
  {
    hide WellFormed;
    assert n.LinkedAs(f);
  }

  lemma RefusedMeans(f: Links, e: Edit<NodeImp>, x: DomError)
    requires WellFormed(f) && KnownEdit(f, e) && Refusal(f, OwnersIn(f), e) == Some(x)
    ensures Answering(f, e) == Threw(x) && Editing(f, e) == f
  {
    hide WellFormed, KnownEdit, Refusal;
  }

  lemma GrantedMeans(f: Links, e: Edit<NodeImp>)
    requires WellFormed(f) && KnownEdit(f, e) && Refusal(f, OwnersIn(f), e) == None
    ensures Answering(f, e) == Returned(if e.InsertBefore? || e.AppendChild? then e.child else e.leaving)
    ensures Editing(f, e) == After(f, OwnersIn(f), e)
  {
    hide WellFormed, KnownEdit, Refusal, After;
  }

  /** The tests of an insertion, as the code makes them. */
  ghost function Tests(f: Links, p: NodeImp, c: NodeImp): Option<DomError>
    requires WellFormed(f) && p in f.kids && c in f.kids
  {
    if Alien(p, c) then Some(WrongDocument) else if InSubtree(f, c, p) then Some(HierarchyRequest) else None
  }

  lemma TestsAre(f: Links, p: NodeImp, c: NodeImp)
    requires WellFormed(f) && p in f.kids && c in f.kids
    ensures AppendRefusal(f, OwnersIn(f), p, c) == Tests(f, p, c)
  {
    hide WellFormed, InSubtree, Foreign, Alien;
    AlienIs(f, p, c);
  }

  lemma AppendMeans(f: Links, p: NodeImp, c: NodeImp?)
    requires WellFormed(f) && p in f.kids && (c != null ==> c in f.kids)
    ensures var e := Edit.AppendChild(p, Opt(c));
      KnownEdit(f, e) && Refusal(f, OwnersIn(f), e) == if c == null then None else Tests(f, p, c)
    ensures c != null && Tests(f, p, c) == None ==> CanMove(f, p, None, c)
    ensures var e := Edit.AppendChild(p, Opt(c));
      && (c == null ==> After(f, OwnersIn(f), e) == f)
      && (c != null && Tests(f, p, c) == None ==> After(f, OwnersIn(f), e) == Move(f, p, None, c))
  {
    hide WellFormed, InSubtree, Alien, Move, AppendRefusal;
    if c != null { TestsAre(f, p, c); }
  }

  lemma InsertMeans(f: Links, p: NodeImp, c: NodeImp, ref: NodeImp)
    requires WellFormed(f) && p in f.kids && c in f.kids && ref in f.kids
    ensures var e := Edit.InsertBefore(p, Opt(c), Opt(ref));
      && KnownEdit(f, e)
      && Refusal(f, OwnersIn(f), e) ==
           if c == ref then None
           else if Alien(p, c) then Some(WrongDocument)
           else if ParentOf(f, ref) != Some(p) then Some(NotFound)
           else Tests(f, p, c)
    ensures c != ref && ParentOf(f, ref) == Some(p) && Tests(f, p, c) == None ==> CanMove(f, p, Opt(ref), c)
    ensures var e := Edit.InsertBefore(p, Opt(c), Opt(ref));
      && (c == ref ==> After(f, OwnersIn(f), e) == f)
      && (c != ref && ParentOf(f, ref) == Some(p) && Tests(f, p, c) == None ==>
            After(f, OwnersIn(f), e) == Move(f, p, Opt(ref), c))
  {
    hide WellFormed, InSubtree, Alien, Foreign, Move, AppendRefusal, ParentOf;
    AlienIs(f, p, c);
    TestsAre(f, p, c);
  }

  lemma ReplaceMeans(f: Links, p: NodeImp, c: NodeImp, o: NodeImp)
    requires WellFormed(f) && p in f.kids && c in f.kids && o in f.kids
    ensures var e := Edit.ReplaceChild(p, Opt(c), Opt(o));
      && KnownEdit(f, e)
      && Refusal(f, OwnersIn(f), e) ==
           if ParentOf(f, o) != Some(p) then Some(NotFound) else if c == o then None else Tests(f, p, c)
    ensures c != o && ParentOf(f, o) == Some(p) && Tests(f, p, c) == None ==> Replaceable(f, p, c, o)
    ensures var e := Edit.ReplaceChild(p, Opt(c), Opt(o));
      && (ParentOf(f, o) == Some(p) && c == o ==> After(f, OwnersIn(f), e) == f)
      && (c != o && ParentOf(f, o) == Some(p) && Tests(f, p, c) == None ==>
            After(f, OwnersIn(f), e) == Detach(Move(f, p, Opt(o), c), o))
  {
    hide WellFormed, InSubtree, Alien, Foreign, Move, AppendRefusal, Detach;
    TestsAre(f, p, c);
    if c != o && ParentOf(f, o) == Some(p) && Tests(f, p, c) == None {
      MoveWellFormed(f, p, Opt(o), c);
      MoveParent(f, p, Opt(o), c);
    }
  }

  lemma NullChild(f: Links, p: NodeImp, o: Option<NodeImp>)
    requires WellFormed(f) && p in f.kids && Known(f, o)
    ensures var e := Edit.InsertBefore(p, None, o);
      KnownEdit(f, e) && Refusal(f, OwnersIn(f), e) == None && After(f, OwnersIn(f), e) == f
    ensures var e := Edit.ReplaceChild(p, None, o);
      KnownEdit(f, e) && Refusal(f, OwnersIn(f), e) == None && After(f, OwnersIn(f), e) == f
  {
    hide WellFormed;
  }

  lemma NullOther(f: Links, p: NodeImp, c: NodeImp)
    requires WellFormed(f) && p in f.kids && c in f.kids
    ensures var e, a := Edit.InsertBefore(p, Opt(c), None), Edit.AppendChild(p, Opt(c));
      && KnownEdit(f, e) && KnownEdit(f, a)
      && Answering(f, e) == Answering(f, a) && Editing(f, e) == Editing(f, a)
    ensures var e := Edit.ReplaceChild(p, Opt(c), None);
      KnownEdit(f, e) && Refusal(f, OwnersIn(f), e) == Some(NotFound)
  {
    hide WellFormed, AppendRefusal, Move;
  }

  lemma TestsAnswer(f: Links, p: NodeImp, c: NodeImp)
    requires WellFormed(f) && p in f.kids && c in f.kids
    ensures c.ownerDocument != p.ownerDocument && c.ownerDocument != p <==> Alien(p, c)
    ensures Tests(f, p, c) == if Alien(p, c) then Some(WrongDocument)
                              else if InSubtree(f, c, p) then Some(HierarchyRequest) else None
  {
    hide WellFormed, InSubtree;
  }

  lemma RemoveMeans(f: Links, p: NodeImp, o: NodeImp?)
    requires WellFormed(f) && p in f.kids && (o != null ==> o in f.kids)
    ensures var e := Edit.RemoveChild(p, Opt(o));
      && KnownEdit(f, e)
      && Refusal(f, OwnersIn(f), e) == if o == null || ParentOf(f, o) != Some(p) then Some(NotFound) else None
    ensures var e := Edit.RemoveChild(p, Opt(o));
      o != null && ParentOf(f, o) == Some(p) ==> o in f.parent && After(f, OwnersIn(f), e) == Detach(f, o)
  {
    hide WellFormed, Detach;
  }

  lemma ReplaceReady(f: Links, p: NodeImp, c: NodeImp, o: NodeImp, handles: map<NodeImp, nat>)
    requires Replaceable(f, p, c, o) && Held(f, handles, o)
    ensures CanMove(f, p, Opt(o), c)
    ensures var g := Move(f, p, Opt(o), c);
      WellFormed(g) && g.kids.Keys == f.kids.Keys && o in g.parent && g.parent[o] == p && Held(g, handles, o)
  {
    hide WellFormed, CanMove, Move;
  }

  /** Moving c in front of o leaves o where it is. */
  ghost predicate Replaceable(f: Links, p: NodeImp, c: NodeImp, o: NodeImp) {
    && CanMove(f, p, Opt(o), c)
    && var g := Move(f, p, Opt(o), c);
       WellFormed(g) && g.kids.Keys == f.kids.Keys && o in g.parent && g.parent[o] == p
  }

  lemma MoveStarts(f: Links, p: NodeImp, ref: NodeImp?, c: NodeImp, handles: map<NodeImp, nat>)
    requires Represents(f) && Counted(f, handles) && CanMove(f, p, Opt(ref), c)
    ensures WellFormed(f) && p in f.kids && c in f.kids && (c in f.parent ==> c.count > 0)
    ensures CountsFit(f, handles, Counts(f))
  {
    hide WellFormed, InSubtree;
  }

  lemma DropStarts(f: Links, c: NodeImp, handles: map<NodeImp, nat>)
    requires Represents(f) && Counted(f, handles) && Held(f, handles, c) && c in f.parent
    ensures WellFormed(f) && c in f.kids && f.parent[c] in f.kids && c.count >= 2 && CountsFit(f, handles, Counts(f))
    ensures Detach(f, c).kids.Keys == f.kids.Keys
  {
    hide WellFormed, Represents, Detach, ChildOk;
    Sound(f);
    WellChild(f, c);
    DetachDomain(f, c);
  }

  ghost function Counts(f: Links): (counts: map<NodeImp, nat>)
    reads f.kids.Keys`count
    ensures counts.Keys == f.kids.Keys && forall n :: n in f.kids ==> counts[n] == n.count
  {
    map n | n in f.kids :: n.count
  }

  /** The counts are those that the references give. */
  ghost predicate CountsFit(f: Links, handles: map<NodeImp, nat>, counts: map<NodeImp, nat>) {
    && f.kids.Keys <= handles.Keys && f.kids.Keys <= counts.Keys
    && forall n :: n in f.kids ==> counts[n] == handles[n] + if n in f.parent then 1 else 0
  }

  /** Only c's count has changed since, by what the move of c needs. */
  lemma CountedMoved(f: Links, g: Links, handles: map<NodeImp, nat>, p: NodeImp, c: NodeImp, counts: map<NodeImp, nat>)
    requires CountsFit(f, handles, counts) && c in f.kids && g.kids.Keys == f.kids.Keys && g.parent == f.parent[c := p]
    requires forall n :: n in f.kids && n != c ==> n.count == counts[n]
    requires c.count == counts[c] + if c in f.parent then 0 else 1
    ensures Counted(g, handles)
  {
  }

  lemma CountedDropped(f: Links, handles: map<NodeImp, nat>, c: NodeImp, counts: map<NodeImp, nat>)
    requires CountsFit(f, handles, counts) && WellFormed(f) && c in f.parent && c in f.kids
    requires Detach(f, c).kids.Keys == f.kids.Keys && c.count + 1 == counts[c]
    requires forall n :: n in f.kids && n != c ==> n.count == counts[n]
    ensures Counted(Detach(f, c), handles)
  {
    hide WellFormed, Detach;
    DetachDomain(f, c);
  }

  ghost predicate HeldEdit(f: Links, handles: map<NodeImp, nat>, e: Edit<NodeImp>) {
    && KnownEdit(f, e)
    && match e
       case InsertBefore(_, c, r) => Held(f, handles, Ptr(c)) && Held(f, handles, Ptr(r))
       case ReplaceChild(_, c, o) => Held(f, handles, Ptr(c)) && Held(f, handles, Ptr(o))
       case RemoveChild(_, o) => Held(f, handles, Ptr(o))
       case AppendChild(_, c) => Held(f, handles, Ptr(c))
  }

  function Raw(o: Option<NodeImp>): (n: NodeImp?)
    ensures n == Ptr(o) && Opt(n) == o
  {
    match o case None => null case Some(n) => n
  }

  /** One call of a public mutator. */
  method Perform(e: Edit<NodeImp>, ghost f: Links, ghost handles: map<NodeImp, nat>) returns (r: Outcome<NodeImp>)
    requires Represents(f) && Counted(f, handles) && HeldEdit(f, handles, e)
    modifies f.kids.Keys
    ensures r == Answering(f, e)
    ensures Represents(Editing(f, e)) && Counted(Editing(f, e), handles)
    ensures r.Threw? ==> unchanged(f.kids.Keys)
  {
    hide Represents, Counted, WellFormed, Answering, Editing;
    match e
    case InsertBefore(p, c, ref) => r := p.InsertBefore(Raw(c), Raw(ref), f, handles);
    case ReplaceChild(p, c, o) => r := p.ReplaceChild(Raw(c), Raw(o), f, handles);
    case RemoveChild(p, o) => r := p.RemoveChild(Raw(o), f, handles);
    case AppendChild(p, c) => r := p.AppendChild(Raw(c), f, handles);
  }

  lemma Sound(f: Links)
    requires Represents(f)
    ensures WellFormed(f)
  {
  }

  lemma Linked(f: Links, n: NodeImp)
    requires Represents(f) && n in f.kids
    ensures WellFormed(f) && n.LinkedAs(f)
  {
  }

  lemma SiblingsKnown(f: Links, n: NodeImp)
    requires WellFormed(f) && n in f.parent
    ensures n in f.kids && f.parent[n] in f.kids && |f.kids[f.parent[n]]| > 0
    ensures PrevOf(f, n).Some? ==> PrevOf(f, n).value in f.parent
    ensures NextOf(f, n).Some? ==> NextOf(f, n).value in f.parent
  {
    assert ChildOk(f, n) && KidsOk(f, f.parent[n]);
  }

  lemma KidKnown(f: Links, p: NodeImp, k: nat)
    requires WellFormed(f) && p in f.kids && k < |f.kids[p]|
    ensures f.kids[p][k] in f.parent && f.kids[p][k] in f.kids
    ensures PrevOf(f, f.kids[p][k]) == KidBefore(f, p, k)
    ensures k > 0 ==> f.kids[p][k - 1] in f.parent && f.kids[p][k - 1] in f.kids
  {
    WellKids(f, p);
    IndexOfUnique(f.kids[p], k);
    assert f.kids[p][k] in f.kids[p];
    assert k > 0 ==> f.kids[p][k - 1] in f.kids[p];
  }

  lemma LastKnown(f: Links, n: NodeImp)
    requires WellFormed(f) && n in f.kids
    ensures LastOf(f, n).Some? ==> LastOf(f, n).value in f.parent
  {
    assert KidsOk(f, n);
    assert f.kids[n] != [] ==> f.kids[n][|f.kids[n]| - 1] in f.kids[n];
  }
}
