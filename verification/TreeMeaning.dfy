/** What a comparison of trees tells apart, written over the fields of the nodes. */
module TreeMeaning {
  import opened Sequences
  import opened DomLabels
  import opened EqualTrees

  datatype Kind = ElementKind | TextKind | CommentKind | DocumentKind | DoctypeKind | OtherKind

  datatype Named = Named(namespaceURI: string, prefix: string, localName: string)

  /** An attribute without its prefix. */
  datatype Setting = Setting(namespaceURI: Option<string>, localName: string, value: string)

  datatype Ids = Ids(name: string, publicId: string, systemId: string)

  /** All that a comparison can see of a node and of those below it. */
  datatype Gist = Gist(
    kind: Kind, named: Option<Named>, settings: set<Setting>, data: Option<string>, ids: Option<Ids>, kids: seq<Gist>)

  function KindOf(l: Label): Kind {
    match l
    case Element(_, _, _, _) => ElementKind
    case Text(_) => TextKind
    case Comment(_) => CommentKind
    case Document => DocumentKind
    case DocumentType(_, _, _) => DoctypeKind
    case Characters(_) => OtherKind
    case Plain => OtherKind
  }

  function SettingOf(x: Attr): Setting { Setting(x.namespaceURI, x.localName, x.value) }

  ghost function Settings(a: seq<Attr>): set<Setting> { set i | 0 <= i < |a| :: SettingOf(a[i]) }

  ghost function Forget(t: Tree): Gist
    decreases t
  {
    var l := t.content;
    Gist(KindOf(l),
         if l.Element? then Some(Named(l.namespaceURI, l.prefix, l.localName)) else None,
         if l.Element? then Settings(l.attributes) else {},
         if l.Text? || l.Comment? || l.Characters? then Some(l.data) else None,
         if l.DocumentType? then Some(Ids(l.name, l.publicId, l.systemId)) else None,
         seq(|t.kids|, i requires 0 <= i < |t.kids| => Forget(t.kids[i])))
  }

  /** The attributes of an element have names of their own; and the node is not the clone of a document. */
  ghost predicate Telling(l: Label) { l != Plain && (l.Element? ==> DistinctNames(l.attributes)) }

  /** No two attributes share namespace and local name, as every way of setting one sees to. */
  ghost predicate Made(l: Label) { l.Element? ==> DistinctPairs(l.attributes) }

  /** When one side's names are distinct, what is found on the other is the same set of settings. */
  lemma MatchIsSameSettings(a: seq<Attr>, b: seq<Attr>)
    requires DistinctNames(a) && DistinctPairs(b)
    ensures AttrsMatch(a, b) <==> Settings(a) == Settings(b)
  {
    if AttrsMatch(a, b) { MatchGivesSettings(a, b); }
    if Settings(a) == Settings(b) {
      SettingsCount(a);
      SettingsCount(b);
      forall i | 0 <= i < |a| ensures FoundIn(a[i], b) { SettingFound(a, b, i); }
    }
  }

  lemma MatchGivesSettings(a: seq<Attr>, b: seq<Attr>)
    requires DistinctNames(a) && AttrsMatch(a, b)
    ensures Settings(a) == Settings(b)
  {
    MatchSymmetric(a, b);
    MatchContained(a, b);
    MatchContained(b, a);
  }

  lemma MatchContained(a: seq<Attr>, b: seq<Attr>)
    requires AttrsMatch(a, b)
    ensures Settings(a) <= Settings(b)
  {
    forall x | x in Settings(a) ensures x in Settings(b) {
      var i :| 0 <= i < |a| && SettingOf(a[i]) == x;
      assert FoundIn(a[i], b);
    }
  }

  /** With distinct pairs there are as many settings as attributes. */
  lemma {:induction false} SettingsCount(a: seq<Attr>)
    requires DistinctPairs(a)
    ensures |Settings(a)| == |a|
  {
    if a != [] {
      var n := |a| - 1;
      SettingsMore(a[..n], a[n]);
      assert a == a[..n] + [a[n]];
      assert forall i :: 0 <= i < n ==> a[..n][i] == a[i];
      SettingsCount(a[..n]);
      assert SettingOf(a[n]) !in Settings(a[..n]);
    }
  }

  lemma SettingsMore(a: seq<Attr>, x: Attr)
    ensures Settings(a + [x]) == Settings(a) + {SettingOf(x)}
  {
    var b := a + [x];
    assert b[|a|] == x;
    forall i | 0 <= i < |a| ensures SettingOf(a[i]) in Settings(b) { assert b[i] == a[i]; }
  }

  /** An attribute whose setting the other list has is found there: no other attribute there has its name. */
  lemma SettingFound(a: seq<Attr>, b: seq<Attr>, i: nat)
    requires DistinctNames(a) && DistinctPairs(b) && Settings(a) == Settings(b) && i < |a|
    ensures FoundIn(a[i], b)
  {
    assert SettingOf(a[i]) in Settings(b);
    var j :| 0 <= j < |b| && SettingOf(b[j]) == SettingOf(a[i]);
    forall k | 0 <= k < j ensures b[k].localName != a[i].localName {
      assert SettingOf(b[k]) in Settings(a);
      var m :| 0 <= m < |a| && SettingOf(a[m]) == SettingOf(b[k]);
    }
  }

  /** What is compared of two nodes themselves. */
  ghost predicate SameFields(a: Label, b: Label) {
    && KindOf(a) == KindOf(b)
    && (a.Element? && b.Element? ==>
          && a.namespaceURI == b.namespaceURI && a.prefix == b.prefix && a.localName == b.localName
          && Settings(a.attributes) == Settings(b.attributes))
    && (HasText(a) <==> HasText(b)) && (HasText(a) && HasText(b) ==> a.data == b.data)
    && (a.DocumentType? && b.DocumentType? ==>
          a.name == b.name && a.publicId == b.publicId && a.systemId == b.systemId)
  }

  ghost predicate HasText(l: Label) { l.Text? || l.Comment? || l.Characters? }

  lemma SameContentIsSameFields(a: Label, b: Label)
    requires Telling(a) && Made(b)
    ensures SameContent(a, b) <==> SameFields(a, b)
  {
    hide AttrsMatch, DistinctNames, DistinctPairs, Settings;
    if a.Element? && b.Element? { MatchIsSameSettings(a.attributes, b.attributes); }
  }

  lemma ForgetSame(s: Tree, t: Tree)
    ensures Forget(s) == Forget(t) <==>
      && SameFields(s.content, t.content) && |s.kids| == |t.kids|
      && forall i :: 0 <= i < |s.kids| ==> Forget(s.kids[i]) == Forget(t.kids[i])
  {
    hide Settings;
    var g, h := Forget(s), Forget(t);
    assert |g.kids| == |s.kids| && |h.kids| == |t.kids|;
    assert forall i :: 0 <= i < |s.kids| ==> g.kids[i] == Forget(s.kids[i]);
    assert forall i :: 0 <= i < |t.kids| ==> h.kids[i] == Forget(t.kids[i]);
    if g == h {
      forall i | 0 <= i < |s.kids| ensures Forget(s.kids[i]) == Forget(t.kids[i]) { assert g.kids[i] == h.kids[i]; }
    }
    if |s.kids| == |t.kids| && forall i :: 0 <= i < |s.kids| ==> Forget(s.kids[i]) == Forget(t.kids[i]) {
      assert g.kids == h.kids;
    }
  }

  /**
   * The comparison tells apart just what the gist does: node types, the names of elements, the set of their attributes
   * without the prefixes, data, the ids of document types, and the children in their order.
   */
  lemma {:induction false} EqualIsSameGist(s: Tree, t: Tree)
    requires Everywhere(s, Telling) && Everywhere(t, Made)
    ensures EqualTree(s, t) <==> Forget(s) == Forget(t)
    decreases s
  {
    hide SameContent, SameFields;
    SameContentIsSameFields(s.content, t.content);
    ForgetSame(s, t);
    if |s.kids| == |t.kids| {
      forall i | 0 <= i < |s.kids| ensures EqualTree(s.kids[i], t.kids[i]) <==> Forget(s.kids[i]) == Forget(t.kids[i]) {
        EqualIsSameGist(s.kids[i], t.kids[i]);
      }
    }
  }

  /** In such trees attributes that share a name agree, because none do. */
  lemma {:induction false} TellingIsSteady(t: Tree)
    requires Everywhere(t, Telling)
    ensures Everywhere(t, Steady)
    decreases t
  {
    forall i | 0 <= i < |t.kids| ensures Everywhere(t.kids[i], Steady) { TellingIsSteady(t.kids[i]); }
  }

  /** What a deep clone shows: a comment its data but no kind, a document and a document type nothing but children. */
  lemma CloneGist(t: Tree)
    ensures var g, c := Forget(t), Forget(CloneTree(t));
      && c.named == g.named && c.settings == g.settings && c.data == g.data && c.ids == None
      && c.kind == (if g.kind == ElementKind || g.kind == TextKind then g.kind else OtherKind)
    ensures t.content.Element? || t.content.Text? ==> CloneTree(t).content == t.content
    ensures |Forget(CloneTree(t)).kids| == |t.kids|
    ensures forall i :: 0 <= i < |t.kids| ==> Forget(CloneTree(t)).kids[i] == Forget(CloneTree(t.kids[i]))
  {
    hide Settings, CloneTrees;
    var l := t.content;
    assert CloneTree(t).content == CloneContent(l);
  }
}
