/** When the mutators refuse a call, and with which error, told of the child lists and the owners. */
module EditMeaning {
  import opened Sequences
  import opened Forests
  import opened TreeEdits

  /** c has p's owner, or p as its owner. */
  ghost predicate Alike<N>(owner: Owners<N>, p: N, c: N)
    requires p in owner && c in owner
  {
    owner[c] == owner[p] || owner[c] == Some(p)
  }

  ghost predicate ChildOf<N>(f: Forest<N>, p: N, c: Option<N>)
    requires p in f.kids
  {
    c.Some? && c.value in f.kids[p]
  }

  lemma ParentIsList<N>(f: Forest<N>, p: N, c: Option<N>)
    requires WellFormed(f) && p in f.kids
    ensures ChildOf(f, p, c) <==> c.Some? && ParentOf(f, c.value) == Some(p)
  {
    WellKids(f, p);
    if c.Some? && c.value in f.parent { WellChild(f, c.value); }
  }

  /**
   * appendChild refuses a node of another document, and then one that would be its own ancestor; nothing else, and a
   * null pointer is passed back.
   */
  lemma AppendRefused<N>(f: Forest<N>, owner: Owners<N>, p: N, c: Option<N>)
    requires WellFormed(f) && KnownEdit(f, AppendChild(p, c)) && f.kids.Keys <= owner.Keys
    ensures var r := Refusal(f, owner, AppendChild(p, c));
      && (r == None <==> c.Some? ==> Alike(owner, p, c.value) && !InSubtree(f, c.value, p))
      && (r == Some(WrongDocument) <==> c.Some? && !Alike(owner, p, c.value))
      && (r == Some(HierarchyRequest) <==> c.Some? && Alike(owner, p, c.value) && InSubtree(f, c.value, p))
      && r != Some(NotFound)
  {
  }

  /** insertBefore looks for the owner first, then for the reference, and then for a cycle. */
  lemma InsertRefused<N>(f: Forest<N>, owner: Owners<N>, p: N, c: N, ref: N)
    requires WellFormed(f) && KnownEdit(f, InsertBefore(p, Some(c), Some(ref))) && f.kids.Keys <= owner.Keys
    ensures var r := Refusal(f, owner, InsertBefore(p, Some(c), Some(ref)));
      && (r == None <==> c == ref || (Alike(owner, p, c) && ChildOf(f, p, Some(ref)) && !InSubtree(f, c, p)))
      && (r == Some(WrongDocument) <==> c != ref && !Alike(owner, p, c))
      && (r == Some(NotFound) <==> c != ref && Alike(owner, p, c) && !ChildOf(f, p, Some(ref)))
      && (r == Some(HierarchyRequest) <==>
            c != ref && Alike(owner, p, c) && ChildOf(f, p, Some(ref)) && InSubtree(f, c, p))
  {
    ParentIsList(f, p, Some(ref));
  }

  /** Without a reference it is appendChild; without a child nothing happens. */
  lemma InsertWithout<N>(f: Forest<N>, owner: Owners<N>, p: N, c: Option<N>, ref: Option<N>)
    requires WellFormed(f) && KnownEdit(f, InsertBefore(p, c, ref)) && f.kids.Keys <= owner.Keys
    requires c == None || ref == None
    ensures Refusal(f, owner, InsertBefore(p, c, ref)) == Refusal(f, owner, AppendChild(p, c))
    ensures After(f, owner, InsertBefore(p, c, ref)) == After(f, owner, AppendChild(p, c))
    ensures c == None ==> After(f, owner, InsertBefore(p, c, ref)) == f
  {
  }

  /** replaceChild looks for the old child first, then for the owner, and then for a cycle. */
  lemma ReplaceRefused<N>(f: Forest<N>, owner: Owners<N>, p: N, c: Option<N>, old_: Option<N>)
    requires WellFormed(f) && KnownEdit(f, ReplaceChild(p, c, old_)) && f.kids.Keys <= owner.Keys
    ensures var r, fresh_ := Refusal(f, owner, ReplaceChild(p, c, old_)), c.Some? && c != old_;
      && (r == Some(NotFound) <==> c.Some? && !ChildOf(f, p, old_))
      && (r == Some(WrongDocument) <==> fresh_ && ChildOf(f, p, old_) && !Alike(owner, p, c.value))
      && (r == Some(HierarchyRequest) <==>
            fresh_ && ChildOf(f, p, old_) && Alike(owner, p, c.value) && InSubtree(f, c.value, p))
      && (r == None <==> c == None
                         || (ChildOf(f, p, old_)
                             && (c == old_ || (Alike(owner, p, c.value) && !InSubtree(f, c.value, p)))))
    ensures c == None || c == old_ ==> After(f, owner, ReplaceChild(p, c, old_)) == f
  {
    ParentIsList(f, p, old_);
  }

  /** removeChild takes out a child, and refuses anything else. */
  lemma RemoveMeans<N>(f: Forest<N>, owner: Owners<N>, p: N, c: Option<N>)
    requires WellFormed(f) && KnownEdit(f, RemoveChild(p, c)) && f.kids.Keys <= owner.Keys
    ensures Refusal(f, owner, RemoveChild(p, c)) == if ChildOf(f, p, c) then None else Some(NotFound)
    ensures var g := After(f, owner, RemoveChild(p, c));
      && g.kids.Keys == f.kids.Keys
      && (!ChildOf(f, p, c) ==> g == f)
      && (ChildOf(f, p, c) ==> c.value !in g.kids[p] && g.kids[p] == Without(f.kids[p], c.value))
      && (ChildOf(f, p, c) ==> c.value !in g.parent && forall q :: q in f.kids && q != p ==> g.kids[q] == f.kids[q])
  {
    ParentIsList(f, p, c);
    if ChildOf(f, p, c) {
      WellKids(f, p);
      WithoutNoDup(f.kids[p], c.value);
    }
  }

  /** What a call that is not refused returns: the new child, or the child that leaves. */
  lemma Returns<N>(f: Forest<N>, owner: Owners<N>, e: Edit<N>)
    requires WellFormed(f) && KnownEdit(f, e) && f.kids.Keys <= owner.Keys
    ensures Refusal(f, owner, e) == None <==> Answer(f, owner, e).Returned?
    ensures Refusal(f, owner, e).Some? ==>
      After(f, owner, e) == f && Answer(f, owner, e) == Threw(Refusal(f, owner, e).value)
    ensures Refusal(f, owner, e) == None ==> Answer(f, owner, e) == Returned(
      match e
      case InsertBefore(_, c, _) => c
      case AppendChild(_, c) => c
      case ReplaceChild(_, _, o) => o
      case RemoveChild(_, o) => o)
  {
    hide InSubtree, Move, Detach;
  }
}
