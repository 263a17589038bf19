/** Node trees as values: what isEqualNode compares, and what cloneNode copies. */
module EqualTrees {
  import opened Sequences
  import opened DomLabels

  datatype Tree = Tree(content: Label, kids: seq<Tree>)

  /** The scan for x stops at the first attribute with its local name and compares only that one. */
  ghost predicate FoundIn(x: Attr, b: seq<Attr>) {
    exists j :: 0 <= j < |b| && b[j].localName == x.localName
      && (forall k :: 0 <= k < j ==> b[k].localName != x.localName)
      && b[j].namespaceURI == x.namespaceURI && b[j].value == x.value
  }

  ghost predicate AttrsMatch(a: seq<Attr>, b: seq<Attr>) {
    |a| == |b| && forall i :: 0 <= i < |a| ==> FoundIn(a[i], b)
  }

  ghost predicate HasData(l: Label) { l.Text? || l.Comment? || l.Characters? }

  ghost predicate SameContent(a: Label, b: Label) {
    if a.Element? then
      && b.Element? && a.namespaceURI == b.namespaceURI && a.prefix == b.prefix && a.localName == b.localName
      && AttrsMatch(a.attributes, b.attributes)
    else if a.DocumentType? then a == b
    else if HasData(a) then HasData(b) && a.data == b.data && NodeType(a) == NodeType(b)
    else NodeType(a) == NodeType(b)
  }

  ghost predicate EqualTree(s: Tree, t: Tree)
    decreases s
  {
    SameContent(s.content, t.content) && |s.kids| == |t.kids|
    && forall i :: 0 <= i < |s.kids| ==> EqualTree(s.kids[i], t.kids[i])
  }

  /** Holds of the content of every node of the tree. */
  ghost predicate Everywhere(t: Tree, p: Label -> bool) {
    p(t.content) && forall i :: 0 <= i < |t.kids| ==> Everywhere(t.kids[i], p)
  }

  // The conditions a caller can check on the attribute lists.

  /** Attributes that share a local name agree on namespace and value. */
  ghost predicate Steady(l: Label) {
    l.Element? ==> SteadyNames(l.attributes)
  }

  ghost predicate SteadyNames(a: seq<Attr>) {
    forall i, j :: 0 <= i < j < |a| && a[i].localName == a[j].localName ==>
      a[i].namespaceURI == a[j].namespaceURI && a[i].value == a[j].value
  }

  ghost predicate DistinctNames(a: seq<Attr>) {
    forall i, j :: 0 <= i < j < |a| ==> a[i].localName != a[j].localName
  }

  /** No two attributes share both namespace and local name: what every way of setting one sees to. */
  ghost predicate DistinctPairs(a: seq<Attr>) {
    forall i, j :: 0 <= i < j < |a| ==> a[i].localName != a[j].localName || a[i].namespaceURI != a[j].namespaceURI
  }

  /** An element as the program makes it, or any other node but the clone of a document. */
  ghost predicate Proper(l: Label) {
    l != Plain && (l.Element? ==> DistinctPairs(l.attributes))
  }

  lemma FirstNamed(x: Attr, b: seq<Attr>) returns (j: nat)
    requires exists k :: 0 <= k < |b| && b[k].localName == x.localName
    ensures j < |b| && b[j].localName == x.localName && forall k :: 0 <= k < j ==> b[k].localName != x.localName
  {
    j := 0;
    while b[j].localName != x.localName
      invariant j < |b| && forall k :: 0 <= k < j ==> b[k].localName != x.localName
      decreases |b| - j
    {
      j := j + 1;
    }
  }

  lemma SteadyMatches(a: seq<Attr>)
    requires SteadyNames(a)
    ensures AttrsMatch(a, a)
  {
    forall i | 0 <= i < |a| ensures FoundIn(a[i], a) {
      var j := FirstNamed(a[i], a);
    }
  }

  lemma MatchIsSteady(a: seq<Attr>)
    requires AttrsMatch(a, a)
    ensures SteadyNames(a)
  {
    forall i, j | 0 <= i < j < |a| && a[i].localName == a[j].localName
      ensures a[i].namespaceURI == a[j].namespaceURI && a[i].value == a[j].value
    {
      FoundAlike(a[i], a[j], a);
    }
  }

  lemma FoundAlike(x: Attr, y: Attr, b: seq<Attr>)
    requires FoundIn(x, b) && FoundIn(y, b) && x.localName == y.localName
    ensures x.namespaceURI == y.namespaceURI && x.value == y.value
  {
  }

  lemma SameAsItself(l: Label)
    ensures SameContent(l, l) <==> Steady(l)
  {
    hide SteadyNames, AttrsMatch;
    if l.Element? {
      if Steady(l) { SteadyMatches(l.attributes); }
      if AttrsMatch(l.attributes, l.attributes) { MatchIsSteady(l.attributes); }
    }
  }

  /**
   * isEqualNode answers true for two separate copies of one tree exactly when every element's
   * attributes with a common local name agree on namespace and value.
   */
  lemma {:induction false} EqualReflexive(t: Tree)
    ensures EqualTree(t, t) <==> Everywhere(t, Steady)
  {
    SameAsItself(t.content);
    forall i | 0 <= i < |t.kids|
      ensures EqualTree(t.kids[i], t.kids[i]) <==> Everywhere(t.kids[i], Steady)
    {
      EqualReflexive(t.kids[i]);
    }
  }

  lemma FoundThrough(x: Attr, b: seq<Attr>, c: seq<Attr>)
    requires FoundIn(x, b) && AttrsMatch(b, c)
    ensures FoundIn(x, c)
  {
    var j :| 0 <= j < |b| && b[j].localName == x.localName
      && b[j].namespaceURI == x.namespaceURI && b[j].value == x.value;
    assert FoundIn(b[j], c);
  }

  lemma SameTransitive(a: Label, b: Label, c: Label)
    requires SameContent(a, b) && SameContent(b, c)
    ensures SameContent(a, c)
  {
    if a.Element? {
      forall i | 0 <= i < |a.attributes| ensures FoundIn(a.attributes[i], c.attributes) {
        FoundThrough(a.attributes[i], b.attributes, c.attributes);
      }
    }
  }

  lemma {:induction false} EqualTransitive(s: Tree, t: Tree, u: Tree)
    requires EqualTree(s, t) && EqualTree(t, u)
    ensures EqualTree(s, u)
    decreases s
  {
    SameTransitive(s.content, t.content, u.content);
    forall i | 0 <= i < |s.kids| ensures EqualTree(s.kids[i], u.kids[i]) {
      EqualTransitive(s.kids[i], t.kids[i], u.kids[i]);
    }
  }

  // Symmetry: only one side's attributes are scanned.

  ghost function Names(a: seq<Attr>): set<string> {
    set i | 0 <= i < |a| :: a[i].localName
  }

  /** One name more counts if it is new. */
  lemma OneName(b: seq<Attr>, x: Attr)
    ensures |Names(b + [x])| == if x.localName in Names(b) then |Names(b)| else |Names(b)| + 1
  {
    var a := b + [x];
    assert Names(a) == Names(b) + {x.localName} by {
      assert a[|b|] == x;
      forall i | 0 <= i < |b| ensures b[i].localName in Names(a) { assert a[i] == b[i]; }
    }
    hide Names;
    if x.localName in Names(b) { assert Names(b) + {x.localName} == Names(b); }
  }

  lemma OneDistinct(b: seq<Attr>, x: Attr)
    ensures DistinctNames(b + [x]) <==> DistinctNames(b) && x.localName !in Names(b)
  {
    var a := b + [x];
    if DistinctNames(a) {
      forall i, j | 0 <= i < j < |b| ensures b[i].localName != b[j].localName { assert a[i] == b[i] && a[j] == b[j]; }
      forall i | 0 <= i < |b| ensures b[i].localName != x.localName { assert a[i] == b[i] && a[|b|] == x; }
    }
    if DistinctNames(b) && x.localName !in Names(b) {
      forall i, j | 0 <= i < j < |a| ensures a[i].localName != a[j].localName {
        assert a[i] == b[i] && a[i].localName in Names(b);
      }
    }
  }

  /** There are never more names than attributes, and as many only if no name comes twice. */
  lemma {:induction false} NamesCount(a: seq<Attr>)
    ensures |Names(a)| <= |a|
    ensures |Names(a)| == |a| <==> DistinctNames(a)
  {
    if a != [] {
      hide Names, DistinctNames;
      var n := |a| - 1;
      assert a == a[..n] + [a[n]];
      NamesCount(a[..n]);
      OneName(a[..n], a[n]);
      OneDistinct(a[..n], a[n]);
    }
  }

  lemma SubsetOfEqualSize<T>(s: set<T>, t: set<T>)
    requires s <= t && |s| >= |t|
    ensures s == t
  {
    if s != t {
      var x :| x in t && x !in s;
      assert |t| == |t - {x}| + 1;
      SubsetSize(s, t - {x});
    }
  }

  lemma MatchedNames(a: seq<Attr>, b: seq<Attr>)
    requires AttrsMatch(a, b)
    ensures Names(a) <= Names(b)
  {
    forall x | x in Names(a) ensures x in Names(b) {
      var i :| 0 <= i < |a| && a[i].localName == x;
      assert FoundIn(a[i], b);
    }
  }

  /** When the search from a in b succeeds, the search back does exactly if b is steady and has no further name. */
  lemma MatchReversed(a: seq<Attr>, b: seq<Attr>)
    requires AttrsMatch(a, b)
    ensures AttrsMatch(b, a) <==> SteadyNames(b) && Names(b) <= Names(a)
  {
    if AttrsMatch(b, a) {
      MatchedNames(b, a);
      forall i, j | 0 <= i < j < |b| && b[i].localName == b[j].localName
        ensures b[i].namespaceURI == b[j].namespaceURI && b[i].value == b[j].value
      {
        FoundAlike(b[i], b[j], a);
      }
    }
    if SteadyNames(b) && Names(b) <= Names(a) {
      forall j | 0 <= j < |b| ensures FoundIn(b[j], a) {
        assert b[j].localName in Names(b);
        var i := FirstNamed(b[j], a);
        assert FoundIn(a[i], b);
      }
    }
  }

  /** With distinct pairs on the scanned side alone, the search is symmetric. */
  lemma MatchSymmetric(a: seq<Attr>, b: seq<Attr>)
    requires AttrsMatch(a, b) && DistinctPairs(a)
    ensures AttrsMatch(b, a)
  {
    forall i, j | 0 <= i < j < |a| ensures a[i].localName != a[j].localName {
      if a[i].localName == a[j].localName { FoundAlike(a[i], a[j], b); }
    }
    NamesCount(a);
    NamesCount(b);
    MatchedNames(a, b);
    SubsetOfEqualSize(Names(a), Names(b));
    MatchReversed(a, b);
  }

  /** What a caller can check to know that equality of these two contents goes both ways. */
  ghost predicate Reversible(a: Label, b: Label) {
    && (a.Element? && b.Element? ==> SteadyNames(b.attributes) && Names(b.attributes) <= Names(a.attributes))
    && !(a.Plain? && b.Characters?)
  }

  ghost predicate ReversibleTree(s: Tree, t: Tree)
    decreases s
  {
    && Reversible(s.content, t.content) && |s.kids| == |t.kids|
    && forall i :: 0 <= i < |s.kids| ==> ReversibleTree(s.kids[i], t.kids[i])
  }

  lemma SameReversed(a: Label, b: Label)
    requires SameContent(a, b)
    ensures SameContent(b, a) <==> Reversible(a, b)
  {
    if a.Element? { MatchReversed(a.attributes, b.attributes); }
    hide AttrsMatch, SteadyNames;
  }

  /**
   * When the first tree equals the second, the second equals the first exactly if the pair is reversible throughout.
   */
  lemma {:induction false} EqualReversed(s: Tree, t: Tree)
    requires EqualTree(s, t)
    ensures EqualTree(t, s) <==> ReversibleTree(s, t)
    decreases s
  {
    SameReversed(s.content, t.content);
    forall i | 0 <= i < |s.kids| ensures EqualTree(t.kids[i], s.kids[i]) <==> ReversibleTree(s.kids[i], t.kids[i]) {
      EqualReversed(s.kids[i], t.kids[i]);
    }
  }

  /** Whatever the second tree is, equality goes both ways when the first is made as the program makes trees. */
  lemma {:induction false} EqualSymmetric(s: Tree, t: Tree)
    requires Everywhere(s, Proper) && EqualTree(s, t)
    ensures EqualTree(t, s)
    decreases s
  {
    if s.content.Element? {
      MatchSymmetric(s.content.attributes, t.content.attributes);
    }
    forall i | 0 <= i < |s.kids| ensures EqualTree(t.kids[i], s.kids[i]) {
      EqualSymmetric(s.kids[i], t.kids[i]);
    }
  }

  /** Two clones that the program makes: that of an empty document equals that of a comment, but not conversely. */
  lemma AsymmetricPair(data: string) returns (s: Tree, t: Tree)
    ensures s == CloneTree(Tree(Document, [])) && t == CloneTree(Tree(Comment(data), []))
    ensures EqualTree(s, t) && !EqualTree(t, s)
  {
    s, t := Tree(Plain, []), Tree(Characters(data), []);
  }

  // Cloning.

  /** Only elements and text override cloneNode with their own class. */
  function CloneContent(l: Label): Label {
    match l
    case Comment(d) => Characters(d)
    case Document => Plain
    case DocumentType(_, _, _) => Plain
    case _ => l
  }

  ghost function CloneTree(t: Tree): (c: Tree)
    ensures |c.kids| == |t.kids| && forall i :: 0 <= i < |t.kids| ==> c.kids[i] == CloneTree(t.kids[i])
  {
    Tree(CloneContent(t.content), CloneTrees(t.kids))
  }

  ghost function CloneTrees(ts: seq<Tree>): (cs: seq<Tree>)
    ensures |cs| == |ts| && forall i :: 0 <= i < |ts| ==> cs[i] == CloneTree(ts[i])
  {
    if ts == [] then [] else [CloneTree(ts[0])] + CloneTrees(ts[1..])
  }

  /** What cloning keeps: everything except comments, documents and document types, given steady attributes. */
  ghost predicate Faithful(l: Label) {
    Steady(l) && !l.Comment? && !l.Document? && !l.DocumentType?
  }

  /**
   * A deep clone, where there is one, is equal to its original exactly when every attribute list is
   * steady and the tree holds no comment, no document and no document type.
   */
  lemma {:induction false} CloneEqual(t: Tree)
    ensures EqualTree(t, CloneTree(t)) <==> Everywhere(t, Faithful)
  {
    SameAsItself(t.content);
    assert SameContent(t.content, CloneContent(t.content)) <==> Faithful(t.content);
    forall i | 0 <= i < |t.kids|
      ensures EqualTree(t.kids[i], CloneTree(t.kids[i])) <==> Everywhere(t.kids[i], Faithful)
    {
      CloneEqual(t.kids[i]);
    }
  }

  /** A comment is not equal to its clone, which is character data of another node type. */
  lemma CommentDiffers(data: string)
    ensures var t := Tree(Comment(data), []);
      CloneTree(t).content == Characters(data) && !EqualTree(t, CloneTree(t))
  {
    CloneEqual(Tree(Comment(data), []));
  }

  /** Nor is a document. */
  lemma DocumentDiffers(kids: seq<Tree>)
    ensures var t := Tree(Document, kids); CloneTree(t).content == Plain && !EqualTree(t, CloneTree(t))
  {
    CloneEqual(Tree(Document, kids));
  }
}
