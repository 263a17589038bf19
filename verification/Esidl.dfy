/**
 * Two passes of the interface compiler over one interface: the one that writes out its metadata
 * string, and the one that writes a stub for every getter, setter and overload of an operation,
 * with the place of its metadata in that string baked in.
 */
module Esidl {

  /** What an interface can hold, with the metadata worked out for each part beforehand. */
  datatype Element =
    | Attribute(name: string, getter: string, setter: string,
                isReadonly: bool, isPutForwards: bool, isReplaceable: bool)
    | Operation(name: string, optional: seq<bool>, metaOps: seq<string>)
    | Constant(name: string, meta: string)
    | Constructor
    | Other

  // The stages of an operation with optional parameters.

  function Optionals(params: seq<bool>): (n: nat)
    ensures n <= |params|
  {
    if params == [] then 0 else Optionals(params[..|params| - 1]) + if params[|params| - 1] then 1 else 0
  }

  /** The parameters of the overload of a stage: those before the optional one that the stage leaves out first. */
  function Taken(params: seq<bool>, stage: nat): (n: nat)
    ensures n <= |params|
  {
    if params == [] then 0
    else if Optionals(params) <= stage then |params|
    else Taken(params[..|params| - 1], stage)
  }

  lemma {:induction false} TakenIs(params: seq<bool>, stage: nat)
    ensures Taken(params, stage) == |params| <==> Optionals(params) <= stage
    ensures Optionals(params) > stage ==>
      params[Taken(params, stage)] && Optionals(params[..Taken(params, stage)]) == stage
  {
    if params != [] && Optionals(params) > stage {
      var shorter := params[..|params| - 1];
      TakenIs(shorter, stage);
      var n := Taken(shorter, stage);
      if n < |shorter| {
        assert shorter[..n] == params[..n];
      }
    }
  }

  lemma OptionalsStep(params: seq<bool>, i: nat)
    requires i < |params|
    ensures Optionals(params[..i + 1]) == Optionals(params[..i]) + if params[i] then 1 else 0
  {
    assert params[..i + 1][..i] == params[..i];
  }

  lemma {:induction false} OptionalsGrow(params: seq<bool>, i: nat)
    requires i <= |params|
    ensures Optionals(params[..i]) <= Optionals(params)
    decreases |params| - i
  {
    if i < |params| {
      OptionalsStep(params, i);
      OptionalsGrow(params, i + 1);
    } else {
      assert params[..i] == params;
    }
  }

  /** Whoever stops at an optional parameter with stage of them before it has found Taken. */
  lemma TakenAt(params: seq<bool>, stage: nat, i: nat)
    requires i < |params| && params[i] && Optionals(params[..i]) == stage
    ensures Taken(params, stage) == i && Optionals(params) > stage
    decreases |params|
  {
    OptionalsStep(params, i);
    OptionalsGrow(params, i + 1);
    var n := |params| - 1;
    if i < n {
      var shorter := params[..n];
      assert shorter[..i] == params[..i];
      TakenAt(shorter, stage, i);
    } else {
      assert Optionals(params[..n]) <= stage;
      assert params[..n] != [] ==> Taken(params[..n], stage) == n;
    }
  }

  /** The loop that counts the overloads of an operation beforehand. */
  method AdjustMethodCount(params: seq<bool>) returns (methodCount: nat, paramCounts: seq<nat>)
    ensures methodCount == Optionals(params) + 1 == |paramCounts|
    ensures forall k :: 0 <= k < methodCount ==> paramCounts[k] == Taken(params, k)
  {
    methodCount, paramCounts := 0, [];
    var optionalStage, optionalCount := 0, 0;
    while optionalStage <= optionalCount
      invariant methodCount == optionalStage == |paramCounts| <= Optionals(params) + 1
      invariant optionalCount == if optionalStage <= Optionals(params) then optionalStage else Optionals(params)
      invariant forall k :: 0 <= k < methodCount ==> paramCounts[k] == Taken(params, k)
      decreases Optionals(params) + 1 - optionalStage
    {
      optionalCount := 0;
      methodCount := methodCount + 1;
      var paramCount := 0;
      while paramCount < |params|
        invariant paramCount <= |params| && optionalCount == Optionals(params[..paramCount]) <= optionalStage
        decreases |params| - paramCount
      {
        OptionalsStep(params, paramCount);
        if params[paramCount] {
          optionalCount := optionalCount + 1;
          if optionalStage < optionalCount {
            TakenAt(params, optionalStage, paramCount);
            break;
          }
        }
        paramCount := paramCount + 1;
      }
      if paramCount == |params| {
        assert params[..paramCount] == params;
        TakenIs(params, optionalStage);
      }
      paramCounts := paramCounts + [paramCount];
      optionalStage := optionalStage + 1;
    }
  }

  // What both passes go through, in order.

  datatype Piece =
    | Getter(name: string, text: string)
    | Setter(name: string, text: string)
    | Overload(name: string, args: nat, text: string)
    | Const(name: string, text: string)

  /** An operation has a metadata text for each of its overloads. */
  predicate WellFormed(e: Element) {
    e.Operation? ==> |e.metaOps| == Optionals(e.optional) + 1 && "" !in e.metaOps
  }

  function Overloads(e: Element, n: nat): (ps: seq<Piece>)
    requires e.Operation? && n <= |e.metaOps|
    ensures |ps| == n
  {
    if n == 0 then [] else Overloads(e, n - 1) + [Overload(e.name, Taken(e.optional, n - 1), e.metaOps[n - 1])]
  }

  function Pieces(e: Element): seq<Piece>
    requires WellFormed(e)
  {
    match e
    case Attribute(name, getter, setter, ro, forwards, replaced) =>
      [Getter(name, getter)] + if ro && !forwards && !replaced then [] else [Setter(name, setter)]
    case Operation(_, optional, _) => Overloads(e, Optionals(optional) + 1)
    case Constant(name, meta) => [Const(name, meta)]
    case _ => []
  }

  ghost predicate EachWellFormed(es: seq<Element>) { forall e :: e in es ==> WellFormed(e) }

  ghost function PiecesOf(es: seq<Element>): seq<Piece>
    requires EachWellFormed(es)
  {
    if es == [] then [] else PiecesOf(es[..|es| - 1]) + Pieces(es[|es| - 1])
  }

  ghost predicate AllWellFormed(parts: seq<seq<Element>>) {
    forall es :: es in parts ==> EachWellFormed(es)
  }

  /** The pieces of an interface and of the interfaces that supplement it. */
  ghost function AllPieces(parts: seq<seq<Element>>): seq<Piece>
    requires AllWellFormed(parts)
  {
    if parts == [] then [] else AllPieces(parts[..|parts| - 1]) + PiecesOf(parts[|parts| - 1])
  }

  // Where the pieces lie.

  function Size(ps: seq<Piece>): nat {
    if ps == [] then 0 else Size(ps[..|ps| - 1]) + |ps[|ps| - 1].text|
  }

  /** How many of the pieces can be called. */
  function Rank(ps: seq<Piece>): nat {
    if ps == [] then 0 else Rank(ps[..|ps| - 1]) + if ps[|ps| - 1].Const? then 0 else 1
  }

  /** A piece as it is written out: an overload's first letter says whether it constructs. */
  function Shown(p: Piece, constructs: bool): (t: string)
    ensures |t| == |p.text|
  {
    if p.Overload? && p.text != "" then [if constructs then 'N' else 'F'] + p.text[1..] else p.text
  }

  function Text(ps: seq<Piece>, constructs: bool): (t: string)
    ensures |t| == Size(ps)
  {
    if ps == [] then "" else Text(ps[..|ps| - 1], constructs) + Shown(ps[|ps| - 1], constructs)
  }

  lemma OneMore(ps: seq<Piece>, p: Piece, c: bool)
    ensures Size(ps + [p]) == Size(ps) + |p.text| && Rank(ps + [p]) == Rank(ps) + if p.Const? then 0 else 1
    ensures Text(ps + [p], c) == Text(ps, c) + Shown(p, c)
  {
    assert (ps + [p])[..|ps|] == ps;
  }

  /** The text of a prefix is a prefix of the text. */
  lemma {:induction false} TextOfPrefix(ps: seq<Piece>, i: nat, c: bool)
    requires i <= |ps|
    ensures Size(ps[..i]) <= Size(ps) && Text(ps, c)[..Size(ps[..i])] == Text(ps[..i], c)
    ensures Rank(ps[..i]) <= Rank(ps)
    decreases |ps|
  {
    if i < |ps| {
      var shorter := ps[..|ps| - 1];
      TextOfPrefix(shorter, i, c);
      assert shorter[..i] == ps[..i];
    } else {
      assert ps[..i] == ps;
    }
  }

  /** Every piece is found in the text just where the ones before it end. */
  lemma TextAt(ps: seq<Piece>, i: nat, c: bool)
    requires i < |ps|
    ensures var start := Size(ps[..i]); start + |ps[i].text| <= Size(ps)
    ensures Text(ps, c)[Size(ps[..i])..Size(ps[..i]) + |ps[i].text|] == Shown(ps[i], c)
  {
    hide Text, Size, Rank;
    TextOfPrefix(ps, i + 1, c);
    assert ps[..i + 1] == ps[..i] + [ps[i]];
    OneMore(ps[..i], ps[i], c);
    Between(Text(ps, c), Text(ps[..i], c), Shown(ps[i], c));
  }

  lemma Between(t: string, before: string, part: string)
    requires |before| + |part| <= |t| && t[..|before| + |part|] == before + part
    ensures t[|before|..|before| + |part|] == part
  {
    assert t[|before|..|before| + |part|] == t[..|before| + |part|][|before|..];
  }

  // The symbol tables.

  /** The first piece with this name that is a constant, or that is not; |ps| if there is none. */
  function First(ps: seq<Piece>, name: string, isConst: bool): (i: nat)
    ensures i <= |ps|
    ensures i < |ps| ==> ps[i].name == name && ps[i].Const? == isConst
    ensures forall j :: 0 <= j < i ==> !(ps[j].name == name && ps[j].Const? == isConst)
  {
    if ps == [] then 0
    else
      var n := |ps| - 1;
      var i := First(ps[..n], name, isConst);
      if i < n || (ps[n].name == name && ps[n].Const? == isConst) then i else n + 1
  }

  /** The table tells of each name the place and the rank of the first piece that bears it. */
  ghost predicate SymbolsRight(table: map<string, (nat, nat)>, ps: seq<Piece>, base: nat) {
    forall name :: SymbolRight(table, ps, base, name)
  }

  ghost predicate SymbolRight(table: map<string, (nat, nat)>, ps: seq<Piece>, base: nat, name: string) {
    var i := First(ps, name, false);
    && (name in table <==> i < |ps|)
    && (name in table ==> table[name] == (base + Size(ps[..i]), Rank(ps[..i])))
  }

  ghost predicate ConstantsRight(table: map<string, nat>, ps: seq<Piece>, base: nat) {
    forall name :: ConstantRight(table, ps, base, name)
  }

  ghost predicate ConstantRight(table: map<string, nat>, ps: seq<Piece>, base: nat, name: string) {
    var i := First(ps, name, true);
    && (name in table <==> i < |ps|)
    && (name in table ==> table[name] == base + Size(ps[..i]))
  }

  /** std::map::insert keeps what is there. */
  function Insert<V>(table: map<string, V>, key: string, value: V): map<string, V> {
    if key in table then table else table[key := value]
  }

  lemma FirstStep(ps: seq<Piece>, p: Piece, name: string, isConst: bool)
    ensures var i := First(ps, name, isConst);
      First(ps + [p], name, isConst) == (if i < |ps| || (p.name == name && p.Const? == isConst) then i else |ps| + 1)
      && (ps + [p])[..i] == ps[..i]
  {
    assert (ps + [p])[..|ps|] == ps;
  }

  lemma SymbolStep(table: map<string, (nat, nat)>, ps: seq<Piece>, base: nat, p: Piece, name: string)
    requires SymbolRight(table, ps, base, name)
    ensures p.Const? ==> SymbolRight(table, ps + [p], base, name)
    ensures !p.Const? ==>
      SymbolRight(Insert<(nat, nat)>(table, p.name, (base + Size(ps), Rank(ps))), ps + [p], base, name)
  {
    FirstStep(ps, p, name, false);
    hide First, Size, Rank;
    if First(ps, name, false) == |ps| {
      assert ps[..|ps|] == ps;
    }
  }

  lemma ConstantStep(table: map<string, nat>, ps: seq<Piece>, base: nat, p: Piece, name: string)
    requires ConstantRight(table, ps, base, name)
    ensures !p.Const? ==> ConstantRight(table, ps + [p], base, name)
    ensures p.Const? ==> ConstantRight(Insert<nat>(table, p.name, base + Size(ps)), ps + [p], base, name)
  {
    FirstStep(ps, p, name, true);
    hide First, Size;
    if First(ps, name, true) == |ps| {
      assert ps[..|ps|] == ps;
    }
  }

  /** One more piece, entered into the table it belongs in, leaves both tables right. */
  lemma TablesStep(symbols: map<string, (nat, nat)>, constants: map<string, nat>, ps: seq<Piece>, base: nat, p: Piece)
    requires SymbolsRight(symbols, ps, base) && ConstantsRight(constants, ps, base)
    ensures p.Const? ==> SymbolsRight(symbols, ps + [p], base)
    ensures p.Const? ==> ConstantsRight(Insert<nat>(constants, p.name, base + Size(ps)), ps + [p], base)
    ensures !p.Const? ==> SymbolsRight(Insert<(nat, nat)>(symbols, p.name, (base + Size(ps), Rank(ps))), ps + [p], base)
    ensures !p.Const? ==> ConstantsRight(constants, ps + [p], base)
  {
    hide SymbolRight, ConstantRight, Insert, Size, Rank;
    var nextSymbols := if p.Const? then symbols else Insert<(nat, nat)>(symbols, p.name, (base + Size(ps), Rank(ps)));
    var nextConstants := if p.Const? then Insert<nat>(constants, p.name, base + Size(ps)) else constants;
    forall name ensures SymbolRight(nextSymbols, ps + [p], base, name) {
      SymbolStep(symbols, ps, base, p, name);
    }
    forall name ensures ConstantRight(nextConstants, ps + [p], base, name) {
      ConstantStep(constants, ps, base, p, name);
    }
  }

  // The pass that writes the metadata.

  lemma Extended(before: string, ps: seq<Piece>, p: Piece, c: bool)
    ensures before + Text(ps, c) + Shown(p, c) == before + Text(ps + [p], c)
  {
    hide Text, Shown;
    OneMore(ps, p, c);
    assert before + Text(ps, c) + Shown(p, c) == before + (Text(ps, c) + Shown(p, c));
  }

  class CPlusPlusMeta {
    var offset: nat
    var symbolNumber: nat
    var symbolTable: map<string, (nat, nat)>
    var constantTable: map<string, nat>
    var constructorMode: bool
    var text: string
    ghost var head: string
    ghost var pieces: seq<Piece>

    ghost predicate TextFor(ps: seq<Piece>)
      reads `text, `offset, `head, `constructorMode
    {
      text == head + Text(ps, constructorMode) && offset == |text|
    }

    ghost predicate TablesFor(ps: seq<Piece>)
      reads `symbolNumber, `symbolTable, `constantTable, `head
    {
      symbolNumber == Rank(ps) && SymbolsRight(symbolTable, ps, |head|) && ConstantsRight(constantTable, ps, |head|)
    }

    /** The offset is where the text ends, and the tables tell of the pieces written so far. */
    ghost predicate Valid()
      reads this
    {
      TextFor(pieces) && TablesFor(pieces)
    }

    constructor ()
      ensures Valid() && pieces == [] && head == "" && !constructorMode
    {
      offset, symbolNumber, symbolTable, constantTable, constructorMode := 0, 0, map[], map[], false;
      text, head, pieces := "", "", [];
    }

    method AddSymbol(symbol: string, ghost p: Piece)
      requires !p.Const? && p.name == symbol && TextFor(pieces) && TablesFor(pieces)
      modifies `symbolTable, `symbolNumber
      ensures TablesFor(pieces + [p])
    {
      hide SymbolsRight, ConstantsRight, Rank, Size, Text, Insert, Shown;
      TablesStep(symbolTable, constantTable, pieces, |head|, p);
      OneMore(pieces, p, constructorMode);
      symbolTable := Insert<(nat, nat)>(symbolTable, symbol, (offset, symbolNumber));
      symbolNumber := symbolNumber + 1;
    }

    method AddConstant(symbol: string, ghost p: Piece)
      requires p.Const? && p.name == symbol && TextFor(pieces) && TablesFor(pieces)
      modifies `constantTable
      ensures TablesFor(pieces + [p])
    {
      hide SymbolsRight, ConstantsRight, Rank, Size, Text, Insert, Shown;
      TablesStep(symbolTable, constantTable, pieces, |head|, p);
      OneMore(pieces, p, constructorMode);
      constantTable := Insert<nat>(constantTable, symbol, offset);
    }

    /** Writing one piece out and moving the offset on. */
    method Write(t: string, ghost p: Piece)
      requires TextFor(pieces) && TablesFor(pieces + [p]) && t == Shown(p, constructorMode)
      modifies `text, `offset, `pieces
      ensures Valid() && pieces == old(pieces) + [p]
    {
      hide Text, Rank, Size, SymbolsRight, ConstantsRight, Shown, TablesFor;
      Extended(head, pieces, p, constructorMode);
      text := text + t;
      offset := offset + |t|;
      pieces := pieces + [p];
    }

    method AtAttribute(e: Element)
      requires Valid() && e.Attribute?
      modifies this
      ensures Valid() && pieces == old(pieces) + Pieces(e) && head == old(head)
      ensures constructorMode == old(constructorMode)
    {
      hide TextFor, TablesFor;
      AddSymbol(e.name, Getter(e.name, e.getter));
      Write(e.getter, Getter(e.name, e.getter));
      if !e.isReadonly || e.isPutForwards || e.isReplaceable {
        AddSymbol(e.name, Setter(e.name, e.setter));
        Write(e.setter, Setter(e.name, e.setter));
      }
    }

    method AtOperation(e: Element)
      requires Valid() && e.Operation? && WellFormed(e)
      modifies this
      ensures Valid() && pieces == old(pieces) + Pieces(e) && head == old(head)
      ensures constructorMode == old(constructorMode)
    {
      hide TextFor, TablesFor, Valid;
      var methodCount, paramCounts := AdjustMethodCount(e.optional);
      assert old(pieces) == old(pieces) + Overloads(e, 0);
      for i := 0 to methodCount
        invariant Valid() && pieces == old(pieces) + Overloads(e, i)
        invariant head == old(head) && constructorMode == old(constructorMode)
      {
        AtOverload(e, i);
        assert Overloads(e, i + 1) == Overloads(e, i) + [Overload(e.name, Taken(e.optional, i), e.metaOps[i])];
      }
    }

    /** One turn of the loop over the overloads. */
    method AtOverload(e: Element, i: nat)
      requires Valid() && e.Operation? && WellFormed(e) && i < |e.metaOps|
      modifies this
      ensures Valid() && pieces == old(pieces) + [Overload(e.name, Taken(e.optional, i), e.metaOps[i])]
      ensures head == old(head) && constructorMode == old(constructorMode)
    {
      hide TextFor, TablesFor;
      var metaOp := e.metaOps[i];
      assert metaOp in e.metaOps;
      ghost var p := Overload(e.name, Taken(e.optional, i), metaOp);
      AddSymbol(e.name, p);
      if constructorMode {
        Write(['N'] + metaOp[1..], p);
      } else {
        Write(['F'] + metaOp[1..], p);
      }
    }

    method AtConstant(e: Element)
      requires Valid() && e.Constant?
      modifies this
      ensures Valid() && pieces == old(pieces) + Pieces(e) && head == old(head)
      ensures constructorMode == old(constructorMode)
    {
      hide TextFor, TablesFor;
      AddConstant(e.name, Const(e.name, e.meta));
      Write(e.meta, Const(e.name, e.meta));
    }

    method VisitInterfaceElement(e: Element)
      requires Valid() && WellFormed(e)
      modifies this
      ensures Valid() && pieces == old(pieces) + Pieces(e) && head == old(head)
      ensures constructorMode == old(constructorMode)
    {
      hide TextFor, TablesFor, Valid;
      match e {
        case Attribute(_, _, _, _, _, _) => AtAttribute(e);
        case Operation(_, _, _) => AtOperation(e);
        case Constant(_, _) => AtConstant(e);
        case _ =>
      }
    }

    /** The elements of the interface, or of one that supplements it. */
    method AtElements(es: seq<Element>)
      requires Valid() && EachWellFormed(es)
      modifies this
      ensures Valid() && pieces == old(pieces) + PiecesOf(es) && head == old(head)
      ensures constructorMode == old(constructorMode)
    {
      hide *;
      ghost var before := pieces;
      ghost var so: seq<Piece> := [];
      PiecesStart(es);
      for j := 0 to |es|
        invariant Valid() && head == old(head) && constructorMode == old(constructorMode)
        invariant EachWellFormed(es[..j]) && so == PiecesOf(es[..j]) && pieces == before + so
      {
        PiecesStep(es, j);
        VisitInterfaceElement(es[j]);
        so := so + Pieces(es[j]);
      }
      assert es[..|es|] == es;
    }

    /** The whole of an interface, meta being what its own node says of it. */
    method AtInterface(meta: string, parts: seq<seq<Element>>, isConstructor: bool)
      requires Valid() && pieces == [] && head == "" && AllWellFormed(parts)
      modifies this
      ensures head == meta && pieces == AllPieces(parts) && text == meta + Text(pieces, isConstructor)
      ensures offset == |text|
      ensures symbolNumber == Rank(pieces)
      ensures SymbolsRight(symbolTable, pieces, |meta|) && ConstantsRight(constantTable, pieces, |meta|)
    {
      NothingYet(symbolTable, constantTable, 0, |meta|);
      offset := 0;
      text := meta;
      head := meta;
      offset := offset + |meta|;
      constructorMode := isConstructor;
      assert Valid();
      hide *;
      for i := 0 to |parts|
        invariant Valid() && head == meta && constructorMode == isConstructor && AllWellFormed(parts[..i])
        invariant pieces == AllPieces(parts[..i])
      {
        PartsStep(parts, i);
        AtElements(parts[i]);
      }
      assert parts[..|parts|] == parts;
      Done();
    }

    lemma Done()
      requires Valid()
      ensures text == head + Text(pieces, constructorMode) && offset == |text| && symbolNumber == Rank(pieces)
      ensures SymbolsRight(symbolTable, pieces, |head|) && ConstantsRight(constantTable, pieces, |head|)
    {
    }
  }

  lemma NothingYet(symbols: map<string, (nat, nat)>, constants: map<string, nat>, base: nat, other: nat)
    requires SymbolsRight(symbols, [], base) && ConstantsRight(constants, [], base)
    ensures SymbolsRight(symbols, [], other) && ConstantsRight(constants, [], other)
  {
    forall name ensures SymbolRight(symbols, [], other, name) && ConstantRight(constants, [], other, name) {
      assert SymbolRight(symbols, [], base, name) && ConstantRight(constants, [], base, name);
    }
  }

  lemma PiecesStart(es: seq<Element>)
    ensures EachWellFormed(es[..0]) && PiecesOf(es[..0]) == []
  {
  }

  lemma PiecesStep(es: seq<Element>, j: nat)
    requires j < |es| && EachWellFormed(es)
    ensures WellFormed(es[j]) && EachWellFormed(es[..j]) && EachWellFormed(es[..j + 1])
    ensures PiecesOf(es[..j + 1]) == PiecesOf(es[..j]) + Pieces(es[j])
  {
    assert es[..j + 1][..j] == es[..j];
  }

  lemma PartsStep(parts: seq<seq<Element>>, i: nat)
    requires i < |parts| && AllWellFormed(parts)
    ensures AllWellFormed(parts[..i]) && AllWellFormed(parts[..i + 1]) && EachWellFormed(parts[i])
    ensures AllPieces(parts[..i + 1]) == AllPieces(parts[..i]) + PiecesOf(parts[i])
  {
    assert parts[i] in parts && parts[..i + 1][..i] == parts[..i];
  }

  // The pass that writes the stubs.

  /** What is baked into a generated function: whose it is, the place of its metadata, its number of arguments. */
  datatype Stub = Stub(name: string, setter: bool, at: nat, args: nat)

  function StubOf(p: Piece, at: nat): Stub
    requires !p.Const?
  {
    match p
    case Getter(name, _) => Stub(name, false, at, 0)
    case Setter(name, _) => Stub(name, true, at, 1)
    case Overload(name, args, _) => Stub(name, false, at, args)
  }

  function Stubs(ps: seq<Piece>, base: nat): (s: seq<Stub>)
    ensures |s| == Rank(ps)
  {
    if ps == [] then []
    else
      var shorter := ps[..|ps| - 1];
      var p := ps[|ps| - 1];
      if p.Const? then Stubs(shorter, base) else Stubs(shorter, base) + [StubOf(p, base + Size(shorter))]
  }

  lemma StubsStep(ps: seq<Piece>, p: Piece, base: nat)
    ensures Stubs(ps + [p], base) ==
              if p.Const? then Stubs(ps, base) else Stubs(ps, base) + [StubOf(p, base + Size(ps))]
    ensures Size(ps + [p]) == Size(ps) + |p.text| && Rank(ps + [p]) == Rank(ps) + if p.Const? then 0 else 1
  {
    assert (ps + [p])[..|ps|] == ps;
  }

  /** The stub of a piece is the one at its rank, and has the place where the piece starts. */
  lemma {:induction false} StubAt(ps: seq<Piece>, i: nat, base: nat)
    requires i < |ps| && !ps[i].Const?
    ensures Rank(ps[..i]) < Rank(ps)
    ensures Stubs(ps, base)[Rank(ps[..i])] == StubOf(ps[i], base + Size(ps[..i]))
    decreases |ps|
  {
    var n := |ps| - 1;
    if i < n {
      StubAt(ps[..n], i, base);
      assert ps[..n][..i] == ps[..i];
    }
  }

  class CPlusPlusInvoke {
    var offset: nat
    var methodNumber: nat
    var optionalStage: nat
    var optionalCount: nat
    var paramCount: nat
    var stubs: seq<Stub>
    ghost var base: nat
    ghost var pieces: seq<Piece>

    /** The offset is where the next piece lies, and every callable piece passed has its stub. */
    ghost predicate Valid()
      reads `offset, `methodNumber, `stubs, `base, `pieces
    {
      offset == base + Size(pieces) && methodNumber == Rank(pieces) && stubs == Stubs(pieces, base)
    }

    constructor ()
      ensures stubs == []
    {
      offset, methodNumber, optionalStage, optionalCount, paramCount, stubs := 0, 0, 0, 0, 0, [];
      base, pieces := 0, [];
    }

    /** A stub with the offset as it stands, which then moves on by the length of the piece's metadata. */
    method WriteStub(stub: Stub, length: nat, ghost p: Piece)
      requires Valid() && !p.Const? && stub == StubOf(p, offset) && length == |p.text|
      modifies `stubs, `methodNumber, `offset, `pieces
      ensures Valid() && pieces == old(pieces) + [p]
    {
      StubsStep(pieces, p, base);
      hide Stubs, Rank, Size;
      stubs := stubs + [stub];
      methodNumber := methodNumber + 1;
      offset := offset + length;
      pieces := pieces + [p];
    }

    method AtAttribute(e: Element)
      requires Valid() && e.Attribute?
      modifies `stubs, `methodNumber, `offset, `pieces
      ensures Valid() && pieces == old(pieces) + Pieces(e)
    {
      WriteStub(Stub(e.name, false, offset, 0), |e.getter|, Getter(e.name, e.getter));
      if e.isReadonly && !e.isPutForwards && !e.isReplaceable {
        return;
      }
      WriteStub(Stub(e.name, true, offset, 1), |e.setter|, Setter(e.name, e.setter));
    }

    method AtConstant(e: Element)
      requires Valid() && e.Constant?
      modifies `offset, `pieces
      ensures Valid() && pieces == old(pieces) + Pieces(e)
    {
      StubsStep(pieces, Const(e.name, e.meta), base);
      offset := offset + |e.meta|;
      pieces := pieces + [Const(e.name, e.meta)];
    }

    /** Writes out the parameters of the overload of the current stage and counts them and the optional ones met. */
    method WriteParameters(params: seq<bool>)
      requires optionalCount == 0
      modifies `optionalCount, `paramCount
      ensures paramCount == Taken(params, optionalStage)
      ensures optionalCount == if optionalStage < Optionals(params) then optionalStage + 1 else Optionals(params)
    {
      paramCount := 0;
      var i := 0;
      while i < |params|
        invariant i == paramCount <= |params| && optionalCount == Optionals(params[..i]) <= optionalStage
        decreases |params| - i
      {
        OptionalsStep(params, i);
        if params[i] {
          optionalCount := optionalCount + 1;
          if optionalStage < optionalCount {
            TakenAt(params, optionalStage, i);
            return;
          }
        }
        paramCount := paramCount + 1;
        i := i + 1;
      }
      assert params[..i] == params;
      TakenIs(params, optionalStage);
    }

    method AtOperation(e: Element)
      requires Valid() && e.Operation? && WellFormed(e) && optionalCount == 0 && optionalStage <= Optionals(e.optional)
      modifies `stubs, `methodNumber, `offset, `pieces, `optionalCount, `paramCount
      ensures Valid()
      ensures pieces == old(pieces) + [Overload(e.name, Taken(e.optional, optionalStage), e.metaOps[optionalStage])]
      ensures optionalCount ==
                if optionalStage < Optionals(e.optional) then optionalStage + 1 else Optionals(e.optional)
    {
      WriteParameters(e.optional);
      var metaOp := e.metaOps[optionalStage];
      WriteStub(Stub(e.name, false, offset, paramCount), |metaOp|, Overload(e.name, paramCount, metaOp));
    }

    /** The stage loop: one pass for each overload of an operation, one for anything else. */
    method VisitInterfaceElement(e: Element)
      requires Valid() && WellFormed(e)
      modifies `stubs, `methodNumber, `offset, `pieces, `optionalCount, `optionalStage, `paramCount
      ensures Valid() && pieces == old(pieces) + Pieces(e)
    {
      hide Valid, Taken, Optionals;
      if e.Constructor? {
        return;
      }
      optionalStage := 0;
      var more := true;
      assert old(pieces) == old(pieces) + UpTo(e, 0);
      while more
        invariant Valid() && optionalStage <= Passes(e) && (more <==> optionalStage < Passes(e))
        invariant pieces == old(pieces) + UpTo(e, optionalStage)
        decreases Passes(e) - optionalStage
      {
        optionalCount := 0;
        match e {
          case Attribute(_, _, _, _, _, _) => AtAttribute(e);
          case Operation(_, _, _) => AtOperation(e);
          case Constant(_, _) => AtConstant(e);
          case _ =>
        }
        optionalStage := optionalStage + 1;
        more := optionalStage <= optionalCount;
      }
    }

    /** The elements of the interface, or of one that supplements it. */
    method AtElements(es: seq<Element>)
      requires Valid() && EachWellFormed(es)
      modifies `stubs, `methodNumber, `offset, `pieces, `optionalCount, `optionalStage, `paramCount
      ensures Valid() && pieces == old(pieces) + PiecesOf(es)
    {
      hide *;
      ghost var before := pieces;
      ghost var so: seq<Piece> := [];
      PiecesStart(es);
      for j := 0 to |es|
        invariant Valid() && EachWellFormed(es[..j]) && so == PiecesOf(es[..j]) && pieces == before + so
      {
        PiecesStep(es, j);
        VisitInterfaceElement(es[j]);
        so := so + Pieces(es[j]);
      }
      assert es[..|es|] == es;
    }

    /** The whole of an interface, meta being what its own node says of it. */
    method AtInterface(meta: string, parts: seq<seq<Element>>)
      requires AllWellFormed(parts) && stubs == []
      modifies this
      ensures pieces == AllPieces(parts) && stubs == Stubs(pieces, |meta|)
      ensures methodNumber == Rank(pieces) && offset == |meta| + Size(pieces)
    {
      methodNumber := 0;
      offset := |meta|;
      base, pieces := |meta|, [];
      assert Valid() && AllPieces(parts[..0]) == [];
      hide AllPieces, PiecesOf, Valid;
      for i := 0 to |parts|
        invariant Valid() && base == |meta| && AllWellFormed(parts[..i])
        invariant pieces == AllPieces(parts[..i])
      {
        PartsStep(parts, i);
        AtElements(parts[i]);
      }
      assert parts[..|parts|] == parts;
      Done();
    }

    lemma Done()
      requires Valid()
      ensures offset == base + Size(pieces) && methodNumber == Rank(pieces) && stubs == Stubs(pieces, base)
    {
    }
  }

  function Passes(e: Element): nat { if e.Operation? then Optionals(e.optional) + 1 else 1 }

  /** The pieces of the first passes over an element. */
  function UpTo(e: Element, passes: nat): seq<Piece>
    requires WellFormed(e) && passes <= Passes(e)
  {
    if e.Operation? then Overloads(e, passes) else if passes == 0 then [] else Pieces(e)
  }

  /** Both passes over one interface. */
  method Generate(meta: string, parts: seq<seq<Element>>, isConstructor: bool)
      returns (text: string, symbols: map<string, (nat, nat)>, constants: map<string, nat>, stubs: seq<Stub>)
    requires AllWellFormed(parts)
    ensures Agree(meta, AllPieces(parts), isConstructor, text, symbols, stubs)
    ensures forall name :: name in constants ==> ConstantAgrees(AllPieces(parts), name, constants[name], text)
  {
    var writer := new CPlusPlusMeta();
    writer.AtInterface(meta, parts, isConstructor);
    text, symbols, constants := writer.text, writer.symbolTable, writer.constantTable;
    var invoker := new CPlusPlusInvoke();
    invoker.AtInterface(meta, parts);
    stubs := invoker.stubs;
    Agreement(meta, AllPieces(parts), isConstructor, symbols);
    forall name | name in constants ensures ConstantAgrees(AllPieces(parts), name, constants[name], text) {
      ConstantAgreement(meta, AllPieces(parts), isConstructor, constants, name);
    }
  }

  /** A constant is entered with the place of the first one that bears its name. */
  ghost predicate ConstantAgrees(ps: seq<Piece>, name: string, at: nat, text: string) {
    var i := First(ps, name, true);
    i < |ps| && at + |ps[i].text| <= |text| && text[at..at + |ps[i].text|] == ps[i].text
  }

  /**
   * Every stub's place in the text is where the very metadata of its getter, setter or overload stands; and a name is
   * entered with the place and the number of the first stub that bears it.
   */
  ghost predicate Agree(meta: string, ps: seq<Piece>, constructs: bool, text: string,
          symbols: map<string, (nat, nat)>, stubs: seq<Stub>)
  {
    && |stubs| == Rank(ps) && |text| == |meta| + Size(ps) && text[..|meta|] == meta
    && (forall i :: 0 <= i < |ps| && !ps[i].Const? ==> StubAgrees(ps, i, constructs, text, stubs))
    && (forall name :: name in symbols ==> SymbolAgrees(symbols[name], name, stubs))
    && (forall j :: 0 <= j < |stubs| ==> stubs[j].name in symbols)
  }

  ghost predicate StubAgrees(ps: seq<Piece>, i: nat, constructs: bool, text: string, stubs: seq<Stub>)
    requires i < |ps| && !ps[i].Const?
  {
    Rank(ps[..i]) < |stubs| && Fits(stubs[Rank(ps[..i])], ps[i], constructs, text)
  }

  ghost predicate Fits(stub: Stub, p: Piece, constructs: bool, text: string)
    requires !p.Const?
  {
    && stub == StubOf(p, stub.at) && stub.at + |p.text| <= |text|
    && text[stub.at..stub.at + |p.text|] == Shown(p, constructs)
  }

  ghost predicate SymbolAgrees(entry: (nat, nat), name: string, stubs: seq<Stub>) {
    && entry.1 < |stubs| && stubs[entry.1].name == name && stubs[entry.1].at == entry.0
    && forall j :: 0 <= j < entry.1 ==> stubs[j].name != name
  }

  /** The piece a stub was written for. */
  function Origin(ps: seq<Piece>, j: nat): (i: nat)
    requires j < Rank(ps)
    ensures i < |ps| && !ps[i].Const?
  {
    var n := |ps| - 1;
    if j == Rank(ps[..n]) then n else Origin(ps[..n], j)
  }

  lemma {:induction false} OriginRank(ps: seq<Piece>, j: nat)
    requires j < Rank(ps)
    ensures Rank(ps[..Origin(ps, j)]) == j
    decreases |ps|
  {
    var n := |ps| - 1;
    if j < Rank(ps[..n]) {
      OriginRank(ps[..n], j);
      assert ps[..n][..Origin(ps[..n], j)] == ps[..Origin(ps, j)];
    }
  }

  lemma StubAgreement(meta: string, ps: seq<Piece>, i: nat, c: bool)
    requires i < |ps| && !ps[i].Const?
    ensures StubAgrees(ps, i, c, meta + Text(ps, c), Stubs(ps, |meta|))
  {
    hide Size, Rank, Text, Stubs, Shown, StubOf, Fits;
    StubAt(ps, i, |meta|);
    assert Fits(StubOf(ps[i], |meta| + Size(ps[..i])), ps[i], c, meta + Text(ps, c)) by {
      TextAt(ps, i, c);
      FitsAt(meta, Text(ps, c), ps[i], Size(ps[..i]), c);
    }
  }

  lemma FitsAt(meta: string, t: string, p: Piece, at: nat, c: bool)
    requires !p.Const? && at + |p.text| <= |t| && t[at..at + |p.text|] == Shown(p, c)
    ensures Fits(StubOf(p, |meta| + at), p, c, meta + t)
  {
    Shifted(meta, t, at, |p.text|);
  }

  lemma Shifted(a: string, t: string, start: nat, n: nat)
    requires start + n <= |t|
    ensures (a + t)[|a| + start..|a| + start + n] == t[start..start + n]
  {
  }

  /** The first piece with a name has the first stub with that name. */
  lemma FirstStub(ps: seq<Piece>, name: string, base: nat, j: nat)
    requires j < Rank(ps) && Stubs(ps, base)[j].name == name
    ensures First(ps, name, false) < |ps| && Rank(ps[..First(ps, name, false)]) <= j
  {
    var i, o := First(ps, name, false), Origin(ps, j);
    OriginRank(ps, j);
    StubAt(ps, o, base);
    assert ps[o].name == name;
    TextOfPrefix(ps[..o], i, false);
    assert ps[..o][..i] == ps[..i];
  }

  lemma SymbolAgreement(meta: string, ps: seq<Piece>, symbols: map<string, (nat, nat)>, name: string)
    requires SymbolsRight(symbols, ps, |meta|) && name in symbols
    ensures SymbolAgrees(symbols[name], name, Stubs(ps, |meta|))
  {
    assert SymbolRight(symbols, ps, |meta|, name);
    var i := First(ps, name, false);
    StubAt(ps, i, |meta|);
    hide Stubs, Rank, Size, First;
    forall j | 0 <= j < Rank(ps[..i]) ensures Stubs(ps, |meta|)[j].name != name {
      if Stubs(ps, |meta|)[j].name == name { FirstStub(ps, name, |meta|, j); }
    }
  }

  lemma ConstantAgreement(meta: string, ps: seq<Piece>, c: bool, constants: map<string, nat>, name: string)
    requires ConstantsRight(constants, ps, |meta|) && name in constants
    ensures ConstantAgrees(ps, name, constants[name], meta + Text(ps, c))
  {
    assert ConstantRight(constants, ps, |meta|, name);
    hide Size, Text;
    var i := First(ps, name, true);
    TextAt(ps, i, c);
    Shifted(meta, Text(ps, c), Size(ps[..i]), |ps[i].text|);
  }

  lemma Agreement(meta: string, ps: seq<Piece>, constructs: bool, symbols: map<string, (nat, nat)>)
    requires SymbolsRight(symbols, ps, |meta|)
    ensures Agree(meta, ps, constructs, meta + Text(ps, constructs), symbols, Stubs(ps, |meta|))
  {
    hide Stubs, Rank, Size, First, Text, StubAgrees, SymbolAgrees;
    var stubs := Stubs(ps, |meta|);
    forall i | 0 <= i < |ps| && !ps[i].Const?
      ensures StubAgrees(ps, i, constructs, meta + Text(ps, constructs), stubs)
    {
      StubAgreement(meta, ps, i, constructs);
    }
    forall name | name in symbols ensures SymbolAgrees(symbols[name], name, stubs) {
      SymbolAgreement(meta, ps, symbols, name);
    }
    forall j | 0 <= j < |stubs| ensures stubs[j].name in symbols {
      FirstStub(ps, stubs[j].name, |meta|, j);
      assert SymbolRight(symbols, ps, |meta|, stubs[j].name);
    }
  }
}
