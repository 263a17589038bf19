/** Which stubs and which metadata an interface gets, told of its elements. */
module EsidlMeaning {
  import opened Esidl

  /** An attribute can be set: it is not read-only, or assigning it is put forward or replaces it. */
  predicate Settable(e: Element) { e.Attribute? && (e.isReadonly ==> e.isPutForwards || e.isReplaceable) }

  /** The overload that leaves out the k-th optional parameter and all behind it, or the one with all of them. */
  ghost predicate Leaves(params: seq<bool>, k: nat, args: nat) {
    && args <= |params| && Optionals(params[..args]) == k
    && (args < |params| ==> params[args])
  }

  lemma {:induction false} TakenLeaves(params: seq<bool>, k: nat, args: nat)
    requires k <= Optionals(params)
    ensures Leaves(params, k, args) && (k == Optionals(params) ==> args == |params|) <==> args == Taken(params, k)
  {
    TakenIs(params, k);
    assert params[..|params|] == params;
    if Leaves(params, k, args) && args < |params| { TakenAt(params, k, args); }
    if args == |params| && Leaves(params, k, args) { assert params[..args] == params; }
  }

  lemma {:induction false} OverloadsAt(e: Element, n: nat, k: nat)
    requires e.Operation? && k < n <= |e.metaOps|
    ensures Overloads(e, n)[k] == Overload(e.name, Taken(e.optional, k), e.metaOps[k])
  {
    if k < n - 1 { OverloadsAt(e, n - 1, k); }
  }

  /**
   * What an element is written as: an attribute as its getter and, just if it can be set, its setter; an operation as
   * one overload for each number of optional parameters left out, the fewest parameters first; a constant as itself.
   */
  lemma PiecesMean(e: Element)
    requires WellFormed(e)
    ensures e.Attribute? ==> Pieces(e) != [] && Pieces(e)[0] == Getter(e.name, e.getter)
    ensures e.Attribute? ==> (Settable(e) <==> |Pieces(e)| == 2) && (!Settable(e) <==> |Pieces(e)| == 1)
    ensures Settable(e) ==> Pieces(e)[1] == Setter(e.name, e.setter)
    ensures e.Operation? ==> |Pieces(e)| == Optionals(e.optional) + 1
    ensures e.Operation? ==> forall k :: 0 <= k < |Pieces(e)| ==>
      var p := Pieces(e)[k];
      && p.Overload? && p.name == e.name && p.text == e.metaOps[k] && Leaves(e.optional, k, p.args)
      && (k == |Pieces(e)| - 1 ==> p.args == |e.optional|)
    ensures e.Constant? ==> Pieces(e) == [Const(e.name, e.meta)]
    ensures e.Constructor? || e.Other? ==> Pieces(e) == []
  {
    if e.Operation? {
      forall k | 0 <= k < |Pieces(e)|
        ensures var p := Pieces(e)[k];
          && p.Overload? && p.name == e.name && p.text == e.metaOps[k] && Leaves(e.optional, k, p.args)
          && (k == |Pieces(e)| - 1 ==> p.args == |e.optional|)
      {
        OverloadsAt(e, |Pieces(e)|, k);
        TakenLeaves(e.optional, k, Taken(e.optional, k));
      }
    }
  }

  lemma {:induction false} PiecesOfMembers(es: seq<Element>, p: Piece)
    requires EachWellFormed(es)
    ensures p in PiecesOf(es) <==> exists e :: e in es && p in Pieces(e)
  {
    if es != [] {
      var n := |es| - 1;
      assert es == es[..n] + [es[n]];
      PiecesOfMembers(es[..n], p);
      hide Pieces, WellFormed;
      assert forall e :: e in es <==> e in es[..n] || e == es[n];
    }
  }

  ghost predicate Member(parts: seq<seq<Element>>, e: Element) { exists es :: es in parts && e in es }

  lemma {:induction false} AllPiecesMembers(parts: seq<seq<Element>>, p: Piece)
    requires AllWellFormed(parts)
    ensures p in AllPieces(parts) <==> exists e :: Member(parts, e) && WellFormed(e) && p in Pieces(e)
  {
    hide Pieces, WellFormed;
    if parts != [] {
      var n := |parts| - 1;
      assert parts == parts[..n] + [parts[n]];
      AllPiecesMembers(parts[..n], p);
      PiecesOfMembers(parts[n], p);
      forall e ensures Member(parts, e) <==> Member(parts[..n], e) || e in parts[n] {
        assert forall es :: es in parts <==> es in parts[..n] || es == parts[n];
        if e in parts[n] { assert parts[n] in parts; }
        if Member(parts[..n], e) { var es :| es in parts[..n] && e in es; assert es in parts; }
      }
      hide Member, PiecesOf, AllPieces;
      forall e | e in parts[n] ensures WellFormed(e) { assert EachWellFormed(parts[n]); }
    }
  }

  // What this means for the stubs and the text that are written.

  /** A stub with that many arguments leads to this text. */
  ghost predicate Leads(stubs: seq<Stub>, text: string, name: string, setter: bool, args: nat, part: string) {
    exists j :: 0 <= j < |stubs| && LeadsAt(stubs[j], text, name, setter, args, part)
  }

  ghost predicate LeadsAt(s: Stub, text: string, name: string, setter: bool, args: nat, part: string) {
    && s.name == name && s.setter == setter && s.args == args
    && s.at + |part| <= |text| && text[s.at..s.at + |part|] == part
  }

  /** The stub of a piece leads to what is written for it. */
  lemma PieceLeads(meta: string, ps: seq<Piece>, c: bool, text: string, symbols: map<string, (nat, nat)>,
                   stubs: seq<Stub>, p: Piece)
    requires Agree(meta, ps, c, text, symbols, stubs) && p in ps && !p.Const?
    ensures Leads(stubs, text, p.name, p.Setter?, StubOf(p, 0).args, Shown(p, c))
  {
    hide Rank, Size, Shown;
    var i :| 0 <= i < |ps| && ps[i] == p;
    assert StubAgrees(ps, i, c, text, stubs);
    assert LeadsAt(stubs[Rank(ps[..i])], text, p.name, p.Setter?, StubOf(p, 0).args, Shown(p, c));
  }

  /** A stub is one for a piece. */
  lemma StubComes(meta: string, ps: seq<Piece>, c: bool, text: string, symbols: map<string, (nat, nat)>,
                  stubs: seq<Stub>, j: nat) returns (p: Piece)
    requires Agree(meta, ps, c, text, symbols, stubs) && j < |stubs|
    ensures p in ps && !p.Const? && stubs[j] == StubOf(p, stubs[j].at)
  {
    hide Rank, Size, Shown, Origin;
    var i := Origin(ps, j);
    OriginRank(ps, j);
    assert StubAgrees(ps, i, c, text, stubs);
    p := ps[i];
  }

  lemma PieceIn(parts: seq<seq<Element>>, e: Element, p: Piece)
    requires AllWellFormed(parts) && Member(parts, e) && WellFormed(e) && p in Pieces(e)
    ensures p in AllPieces(parts)
  {
    AllPiecesMembers(parts, p);
  }

  lemma MemberFits(parts: seq<seq<Element>>, e: Element)
    requires AllWellFormed(parts) && Member(parts, e)
    ensures WellFormed(e)
  {
    hide WellFormed;
    var es :| es in parts && e in es;
    assert EachWellFormed(es);
  }

  /** Each attribute has a getter, and an attribute that can be set a setter, each with its own metadata. */
  lemma AttributeWritten(meta: string, parts: seq<seq<Element>>, c: bool, text: string,
                         symbols: map<string, (nat, nat)>, stubs: seq<Stub>, e: Element)
    requires AllWellFormed(parts) && Agree(meta, AllPieces(parts), c, text, symbols, stubs)
    requires Member(parts, e) && e.Attribute?
    ensures Leads(stubs, text, e.name, false, 0, e.getter)
    ensures Settable(e) ==> Leads(stubs, text, e.name, true, 1, e.setter)
  {
    hide Agree, AllPieces, Member, Leads;
    MemberFits(parts, e);
    PiecesMean(e);
    PieceIn(parts, e, Pieces(e)[0]);
    PieceLeads(meta, AllPieces(parts), c, text, symbols, stubs, Pieces(e)[0]);
    if Settable(e) {
      PieceIn(parts, e, Pieces(e)[1]);
      PieceLeads(meta, AllPieces(parts), c, text, symbols, stubs, Pieces(e)[1]);
    }
  }

  /** There is a setter stub of a name just if an attribute of that name can be set. */
  lemma SetterIff(meta: string, parts: seq<seq<Element>>, c: bool, text: string,
                  symbols: map<string, (nat, nat)>, stubs: seq<Stub>, name: string)
    requires AllWellFormed(parts) && Agree(meta, AllPieces(parts), c, text, symbols, stubs)
    ensures (exists j :: 0 <= j < |stubs| && stubs[j].setter && stubs[j].name == name)
       <==> exists e :: Member(parts, e) && Settable(e) && e.name == name
  {
    if j :| 0 <= j < |stubs| && stubs[j].setter && stubs[j].name == name {
      var p := StubComes(meta, AllPieces(parts), c, text, symbols, stubs, j);
      hide Agree, AllPieces, Member;
      AllPiecesMembers(parts, p);
      var e :| Member(parts, e) && WellFormed(e) && p in Pieces(e);
      PiecesMean(e);
    }
    if e :| Member(parts, e) && Settable(e) && e.name == name {
      hide Agree, AllPieces, Member;
      AttributeWritten(meta, parts, c, text, symbols, stubs, e);
    }
  }

  /** Each overload of an operation has a stub, with metadata that begin with N in a constructor, else with F. */
  lemma OverloadWritten(meta: string, parts: seq<seq<Element>>, c: bool, text: string,
                        symbols: map<string, (nat, nat)>, stubs: seq<Stub>, e: Element, k: nat) returns (args: nat)
    requires AllWellFormed(parts) && Agree(meta, AllPieces(parts), c, text, symbols, stubs)
    requires Member(parts, e) && e.Operation? && k <= Optionals(e.optional)
    ensures Leaves(e.optional, k, args) && (k == Optionals(e.optional) ==> args == |e.optional|)
    ensures k < |e.metaOps| && e.metaOps[k] != ""
    ensures Leads(stubs, text, e.name, false, args, [if c then 'N' else 'F'] + e.metaOps[k][1..])
  {
    hide Agree, AllPieces, Member, Leads, Leaves;
    MemberFits(parts, e);
    PiecesMean(e);
    var p := Pieces(e)[k];
    PieceIn(parts, e, p);
    PieceLeads(meta, AllPieces(parts), c, text, symbols, stubs, p);
    assert e.metaOps[k] in e.metaOps;
    args := p.args;
  }
}
