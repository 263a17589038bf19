/**
 * The generator of the metadata string: the letters it writes for what the grammar lets an interface declare.
 */
module MessengerMeta {

  import opened Reflect

  datatype Flag = Stringifier | IndexCreator | IndexDeleter | IndexGetter | IndexSetter | Caller | Omittable | Static

  datatype Special = Getter | Setter | Creator | Deleter | LegacyCaller

  /** What may stand in front of an operation: static alone, or any of the specials, or stringifier alone. */
  datatype Qualifiers = JustStatic | Specials(omittable: bool, specials: set<Special>) | JustStringifier

  /** An element of an interface, by its name, which an operation may lack. */
  datatype Declaration =
    | Base(name: string)
    | Operation(qualifiers: Qualifiers, name: string)
    | Attribute(isReadonly: bool, isPutForwards: bool, isReplaceable: bool, stringifier: bool, name: string)
    | Constant(name: string, value: string)

  function Bit(on: bool, flag: Flag): set<Flag> { if on then {flag} else {} }

  /** The attribute bits the parser gives an operation. */
  function Bits(q: Qualifiers): set<Flag> {
    match q
    case JustStatic => {Static}
    case JustStringifier => {Stringifier}
    case Specials(omittable, specials) =>
      Bit(omittable, Omittable) + Bit(Getter in specials, IndexGetter) + Bit(Setter in specials, IndexSetter)
      + Bit(Creator in specials, IndexCreator) + Bit(Deleter in specials, IndexDeleter)
      + Bit(LegacyCaller in specials, Caller)
  }

  function Letter(attr: set<Flag>, flag: Flag, letter: char): string { if flag in attr then [letter] else "" }

  /** The letters of an operation or attribute, in the order they are written. */
  function Letters(attr: set<Flag>): string {
    Letter(attr, Stringifier, 't') + Letter(attr, IndexCreator, 'c') + Letter(attr, IndexDeleter, 'd')
    + Letter(attr, IndexGetter, 'g') + Letter(attr, IndexSetter, 's') + Letter(attr, Caller, 'f')
    + Letter(attr, Omittable, 'o') + Letter(attr, Static, 'i')
  }

  function EntryOf(d: Declaration, constructorMode: bool): Entry {
    match d
    case Base(name) => Entry('X', "", name, "")
    case Operation(q, name) => Entry(if constructorMode then 'C' else 'F', Letters(Bits(q)), name, "")
    case Attribute(fixed, forwards, replaced, stringifier, name) =>
      Entry('A', (if fixed && !forwards && replaced then "r" else "") + Letters(Bit(stringifier, Stringifier)),
            name, "")
    case Constant(name, value) => Entry('K', "", name, value)
  }

  function EntriesOf(ds: seq<Declaration>, constructorMode: bool): (es: seq<Entry>)
    ensures |es| == |ds| && forall i :: 0 <= i < |ds| ==> es[i] == EntryOf(ds[i], constructorMode)
  {
    seq(|ds|, i requires 0 <= i < |ds| => EntryOf(ds[i], constructorMode))
  }

  /** Names are identifiers, and a constant's value is a letter and a number. */
  predicate Proper(d: Declaration) {
    && |d.name| < UINT && NoDigitFirst(d.name)
    && (d.Constant? ==> NoDigitFirst(d.value) && forall i :: 0 <= i < |d.value| ==> d.value[i] != ' ')
  }

  predicate IsStaticOperation(d: Declaration) { d.Operation? && d.qualifiers.JustStatic? }

  function StaticCount(ds: seq<Declaration>): nat {
    if ds == [] then 0 else (if IsStaticOperation(ds[0]) then 1 else 0) + StaticCount(ds[1..])
  }

  lemma LettersAre(attr: set<Flag>)
    ensures forall i :: 0 <= i < |Letters(attr)| ==> !IsDigit(Letters(attr)[i])
    ensures 'i' in Letters(attr) <==> Static in attr
  {
  }

  /** An operation has the letter of static just when it is declared static, and then no other. */
  lemma StaticIsAlone(d: Declaration, constructorMode: bool)
    ensures var e := EntryOf(d, constructorMode);
      && (IsStatic(e) <==> IsStaticOperation(d) && !constructorMode)
      && (IsStatic(e) ==> e.specials == "i" && BinOf(e) == Statics)
  {
    if d.Operation? { LettersAre(Bits(d.qualifiers)); }
  }

  /** What is written for an element that is no operation: its kind, its name and value, and an attribute's letters. */
  lemma ElementMeans(d: Declaration, constructorMode: bool)
    requires !d.Operation?
    ensures var e := EntryOf(d, constructorMode);
      && e.name == d.name && e.constant == (if d.Constant? then d.value else "")
      && (d.Base? ==> e.kind == 'X' && e.specials == "") && (d.Constant? ==> e.kind == 'K' && e.specials == "")
      && (d.Attribute? ==> e.kind == 'A')
      && (d.Attribute? ==> forall c :: c in e.specials <==>
            (c == 'r' && d.isReadonly && !d.isPutForwards && d.isReplaceable) || (c == 't' && d.stringifier))
  {
    hide Letters;
    if d.Attribute? {
      var bits := Bit(d.stringifier, Stringifier);
      LettersMean(bits);
      var mark := if d.isReadonly && !d.isPutForwards && d.isReplaceable then "r" else "";
      forall c ensures c in EntryOf(d, constructorMode).specials <==> c in mark || c in Letters(bits) {
        InEither(c, mark, Letters(bits));
      }
    }
  }

  /** An attribute that cannot be set: read-only, and assigning it is neither put forward nor replaces it. */
  predicate CannotBeSet(d: Declaration) { d.Attribute? && d.isReadonly && !d.isPutForwards && !d.isReplaceable }

  /** The letter r says whether an attribute can be set just if it is not read-only, or is put forward. */
  lemma ReadOnlyTold(d: Declaration, constructorMode: bool)
    requires d.Attribute?
    ensures ('r' in EntryOf(d, constructorMode).specials <==> CannotBeSet(d)) <==> !d.isReadonly || d.isPutForwards
  {
    hide EntryOf;
    ElementMeans(d, constructorMode);
  }

  /** A read-only attribute is not marked, and a replaceable one is. */
  lemma ReadOnlyUntold(name: string)
    ensures EntryOf(Attribute(true, false, false, false, name), false) == Entry('A', "", name, "")
    ensures EntryOf(Attribute(true, false, true, false, name), false) == Entry('A', "r", name, "")
  {
  }

  /** Which letter stands for which qualifier of an operation, and that no other letters are written. */
  lemma OperationMeans(d: Declaration, constructorMode: bool)
    requires d.Operation?
    ensures var e := EntryOf(d, constructorMode);
      && e.name == d.name && e.constant == "" && e.kind == (if constructorMode then 'C' else 'F')
      && forall c :: c in e.specials <==> Stands(c, d.qualifiers)
  {
    hide Letters;
    LettersMean(Bits(d.qualifiers));
    forall c ensures Flagged(Bits(d.qualifiers), c) <==> Stands(c, d.qualifiers) {
      BitsMean(d.qualifiers);
    }
  }

  predicate Stands(c: char, q: Qualifiers) {
    || (c == 'i' && q.JustStatic?) || (c == 't' && q.JustStringifier?) || (c == 'o' && q.Specials? && q.omittable)
    || (c == 'g' && Says(q, Getter)) || (c == 's' && Says(q, Setter)) || (c == 'c' && Says(q, Creator))
    || (c == 'd' && Says(q, Deleter)) || (c == 'f' && Says(q, LegacyCaller))
  }

  lemma BitsMean(q: Qualifiers)
    ensures var bits := Bits(q);
      && (Static in bits <==> q.JustStatic?) && (Stringifier in bits <==> q.JustStringifier?)
      && (Omittable in bits <==> q.Specials? && q.omittable)
      && (IndexGetter in bits <==> Says(q, Getter)) && (IndexSetter in bits <==> Says(q, Setter))
      && (IndexCreator in bits <==> Says(q, Creator)) && (IndexDeleter in bits <==> Says(q, Deleter))
      && (Caller in bits <==> Says(q, LegacyCaller))
  {
  }

  predicate Says(q: Qualifiers, s: Special) { q.Specials? && s in q.specials }

  /** The flag that a letter stands for. */
  predicate Flagged(attr: set<Flag>, c: char) {
    || (c == 't' && Stringifier in attr) || (c == 'c' && IndexCreator in attr) || (c == 'd' && IndexDeleter in attr)
    || (c == 'g' && IndexGetter in attr) || (c == 's' && IndexSetter in attr) || (c == 'f' && Caller in attr)
    || (c == 'o' && Omittable in attr) || (c == 'i' && Static in attr)
  }

  lemma LettersMean(attr: set<Flag>)
    ensures forall c :: c in Letters(attr) <==> Flagged(attr, c)
  {
    hide Letter;
    var a, b := Letter(attr, Stringifier, 't'), Letter(attr, IndexCreator, 'c');
    var d, e := Letter(attr, IndexDeleter, 'd'), Letter(attr, IndexGetter, 'g');
    var f, g := Letter(attr, IndexSetter, 's'), Letter(attr, Caller, 'f');
    var h, i := Letter(attr, Omittable, 'o'), Letter(attr, Static, 'i');
    forall c ensures c in Letters(attr) <==> Flagged(attr, c) {
      assert Letters(attr) == a + b + d + e + f + g + h + i;
      InEither(c, a + b + d + e + f + g + h, i);
      InEither(c, a + b + d + e + f + g, h);
      InEither(c, a + b + d + e + f, g);
      InEither(c, a + b + d + e, f);
      InEither(c, a + b + d, e);
      InEither(c, a + b, d);
      InEither(c, a, b);
      forall flag, letter ensures c in Letter(attr, flag, letter) <==> c == letter && flag in attr {
        LetterIs(attr, flag, letter, c);
      }
    }
  }

  lemma InEither(c: char, a: string, b: string)
    ensures c in a + b <==> c in a || c in b
  {
  }

  lemma LetterIs(attr: set<Flag>, flag: Flag, letter: char, c: char)
    ensures c in Letter(attr, flag, letter) <==> c == letter && flag in attr
  {
  }

  lemma EntryWellFormed(d: Declaration, constructorMode: bool)
    requires Proper(d)
    ensures WellFormed(EntryOf(d, constructorMode))
  {
    hide Letters;
    match d {
      case Operation(q, _) => LettersAre(Bits(q));
      case Attribute(_, _, _, stringifier, _) => LettersAre(Bit(stringifier, Stringifier));
      case _ =>
    }
    var e := EntryOf(d, constructorMode);
    assert e.name + e.constant == if e.name == "" then e.constant else e.name + e.constant;
  }

  /** What the constructor of an interface counts as static in generated metadata are the static operations. */
  lemma {:induction false} GeneratedCount(ds: seq<Declaration>, constructorMode: bool)
    ensures var es := EntriesOf(ds, constructorMode);
      && StaticComesFirst(es)
      && InBin(es, Statics) == StaticOperations(es) == if constructorMode then 0 else StaticCount(ds)
  {
    var es := EntriesOf(ds, constructorMode);
    if ds != [] {
      GeneratedCount(ds[1..], constructorMode);
      assert es == [EntryOf(ds[0], constructorMode)] + EntriesOf(ds[1..], constructorMode);
      StaticIsAlone(ds[0], constructorMode);
      hide IsStatic, EntryOf, BinOf, IsStaticOperation;
      assert es[1..] == EntriesOf(ds[1..], constructorMode);
    }
    StaticCountExact(es);
  }

  /** The whole string of an interface: its own entry, then those of its elements. */
  function MetaData(name: string, hasConstructor: bool, ds: seq<Declaration>, constructorMode: bool): string {
    EncodeAll([Entry('I', if hasConstructor then "c" else "", name, "")] + EntriesOf(ds, constructorMode))
  }

  /** Read back, it is its elements in order. */
  lemma MetaDataIs(name: string, hasConstructor: bool, ds: seq<Declaration>, constructorMode: bool)
    requires |name| < UINT && NoDigitFirst(name) && forall d :: d in ds ==> Proper(d)
    ensures var s := MetaData(name, hasConstructor, ds, constructorMode);
      s != "" && Walkable(s) && Parsed(s) != [] && Parsed(s)[1..] == EntriesOf(ds, constructorMode)
  {
    var head, es := Entry('I', if hasConstructor then "c" else "", name, ""), EntriesOf(ds, constructorMode);
    assert WellFormed(head) by { assert name + "" == name; }
    var all := [head] + es;
    forall e | e in all ensures WellFormed(e) {
      if e in es {
        var i :| 0 <= i < |es| && es[i] == e;
        EntryWellFormed(ds[i], constructorMode);
      }
    }
    hide WellFormed, EntriesOf, Encode;
    RoundTrip(all);
    assert all[1..] == es;
    assert EncodeAll(all) != "" by { EncodeSize(head); }
  }

  /** An interface made from generated metadata has the right static count. */
  method Load(name: string, hasConstructor: bool, ds: seq<Declaration>, constructorMode: bool) returns (i: Interface)
    requires |name| < UINT && NoDigitFirst(name) && forall d :: d in ds ==> Proper(d)
    ensures fresh(i) && i.info == MetaData(name, hasConstructor, ds, constructorMode)
    ensures i.staticOperationCount == if constructorMode then 0 else StaticCount(ds)
  {
    hide *;
    MetaDataIs(name, hasConstructor, ds, constructorMode);
    GeneratedCount(ds, constructorMode);
    i := new Interface(MetaData(name, hasConstructor, ds, constructorMode));
  }
}
