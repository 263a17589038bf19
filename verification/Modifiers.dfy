/**
 * The byte of modifier keys of a keyboard report: its bits, which of them two reports differ in, and what they mean.
 */
module Modifiers {

  type u8 = x: int | 0 <= x < 256

  /** The bits of a byte, the lowest first. */
  type Bits = b: seq<bool> | |b| == 8 witness seq(8, _ => false)

  function BitsOf(b: u8): Bits { Binary(b, 8) }

  function Binary(n: nat, size: nat): (r: seq<bool>)
    ensures |r| == size
  {
    if size == 0 then [] else [n % 2 == 1] + Binary(n / 2, size - 1)
  }

  function Value(w: seq<bool>): nat {
    if w == [] then 0 else (if w[0] then 1 else 0) + 2 * Value(w[1..])
  }

  function Power(size: nat): nat { if size == 0 then 1 else 2 * Power(size - 1) }

  lemma {:induction false} ValueOfBinary(n: nat, size: nat)
    requires n < Power(size)
    ensures Value(Binary(n, size)) == n
  {
    if size > 0 {
      assert Binary(n, size)[1..] == Binary(n / 2, size - 1);
      ValueOfBinary(n / 2, size - 1);
    }
  }

  lemma {:induction false} BinaryOfValue(w: seq<bool>)
    ensures Value(w) < Power(|w|) && Binary(Value(w), |w|) == w
  {
    if w != [] { BinaryOfValue(w[1..]); }
  }

  lemma Powers()
    ensures Power(8) == 256
  {
    assert Power(4) == 16;
  }

  function ByteOf(b: Bits): u8 {
    BinaryOfValue(b);
    Powers();
    Value(b)
  }

  /** A byte and its bits tell each other. */
  lemma ByteAndBits(b: u8, bits: Bits)
    ensures ByteOf(BitsOf(b)) == b && BitsOf(ByteOf(bits)) == bits
  {
    hide Binary, Value, Power;
    Powers();
    ValueOfBinary(b, 8);
    BinaryOfValue(bits);
  }

  function Xor(a: Bits, b: Bits): Bits { seq(8, i requires 0 <= i < 8 => a[i] != b[i]) }

  function And(a: Bits, b: Bits): Bits { seq(8, i requires 0 <= i < 8 => a[i] && b[i]) }

  function Or(a: Bits, b: Bits): Bits { seq(8, i requires 0 <= i < 8 => a[i] || b[i]) }

  /** The upper half moved down. */
  function UpperHalf(a: Bits): Bits { seq(8, i requires 0 <= i < 8 => i < 4 && a[i + 4]) }

  /** The bits of a that b has not got. */
  function Only(a: Bits, b: Bits): Bits { seq(8, i requires 0 <= i < 8 => a[i] && !b[i]) }

  lemma Differ(a: Bits, b: Bits)
    ensures And(Xor(a, b), a) == Only(a, b) && And(Xor(a, b), b) == Only(b, a)
  {
  }

  /** The place of the lowest bit set, or the length. */
  function FirstBit(w: seq<bool>): (j: nat)
    ensures j <= |w| && (j < |w| ==> w[j]) && forall i :: 0 <= i < j ==> !w[i]
  {
    if w == [] || w[0] then 0 else
      assert forall i :: 0 < i < |w| ==> w[i] == w[1..][i - 1];
      1 + FirstBit(w[1..])
  }

  /** The places of the bits set from place j on, the lowest first. */
  function OnFrom(w: seq<bool>, j: nat): seq<nat>
    requires j <= |w|
    decreases |w| - j
  {
    if j == |w| then [] else if w[j] then [j] + OnFrom(w, j + 1) else OnFrom(w, j + 1)
  }

  function On(w: seq<bool>): seq<nat> { OnFrom(w, 0) }

  lemma {:induction false} OnFromCount(w: seq<bool>, j: nat, k: nat)
    requires j <= |w|
    ensures multiset(OnFrom(w, j))[k] == if j <= k < |w| && w[k] then 1 else 0
    decreases |w| - j
  {
    if j < |w| {
      OnFromCount(w, j + 1, k);
      assert multiset([j] + OnFrom(w, j + 1)) == multiset([j]) + multiset(OnFrom(w, j + 1));
    }
  }

  lemma {:induction false} OnFromAscends(w: seq<bool>, j: nat)
    requires j <= |w|
    ensures forall a :: 0 <= a < |OnFrom(w, j)| ==> j <= OnFrom(w, j)[a]
    ensures forall a, b :: 0 <= a < b < |OnFrom(w, j)| ==> OnFrom(w, j)[a] < OnFrom(w, j)[b]
    decreases |w| - j
  {
    if j < |w| { OnFromAscends(w, j + 1); }
  }

  /** The list holds just the bits that are set, each once, in ascending order. */
  lemma OnIs(w: seq<bool>)
    ensures forall k: nat :: k in On(w) <==> k < |w| && w[k]
    ensures forall k: nat :: multiset(On(w))[k] == if k < |w| && w[k] then 1 else 0
    ensures forall a, b :: 0 <= a < b < |On(w)| ==> On(w)[a] < On(w)[b]
  {
    hide OnFrom;
    OnFromAscends(w, 0);
    forall k: nat ensures multiset(On(w))[k] == if k < |w| && w[k] then 1 else 0 { OnFromCount(w, 0, k); }
    forall k: nat ensures k in On(w) <==> multiset(On(w))[k] > 0 { }
  }

  lemma {:induction false} SameFrom(v: seq<bool>, w: seq<bool>, j: nat)
    requires |v| == |w| && j <= |w| && v[j..] == w[j..]
    ensures OnFrom(v, j) == OnFrom(w, j)
    decreases |w| - j
  {
    if j < |w| {
      assert v[j] == v[j..][0] && w[j] == w[j..][0];
      assert v[j + 1..] == v[j..][1..] && w[j + 1..] == w[j..][1..];
      SameFrom(v, w, j + 1);
    }
  }

  lemma {:induction false} LowestFrom(w: seq<bool>, j: nat)
    requires j <= FirstBit(w) < |w|
    ensures OnFrom(w, j) == [FirstBit(w)] + OnFrom(w[FirstBit(w) := false], j)
    decreases |w| - j
  {
    var k := FirstBit(w);
    var v := w[k := false];
    if j < k {
      LowestFrom(w, j + 1);
    } else {
      assert v[j + 1..] == w[j + 1..];
      SameFrom(v, w, j + 1);
    }
  }

  /** The lowest bit is the first of the list, and clearing it leaves the others; without one the list is empty. */
  lemma LowestFirst(w: seq<bool>)
    ensures if FirstBit(w) < |w| then On(w) == [FirstBit(w)] + On(w[FirstBit(w) := false]) else On(w) == []
  {
    OnIs(w);
    if FirstBit(w) < |w| { LowestFrom(w, 0); } else { NothingOn(w); }
  }

  lemma NothingOn(w: seq<bool>)
    ensures On(w) == [] <==> forall k :: 0 <= k < |w| ==> !w[k]
  {
    hide On;
    OnIs(w);
    if k :| 0 <= k < |w| && w[k] { assert k in On(w); }
    if On(w) != [] { assert On(w)[0] in On(w); }
  }

  /** Two bytes differ just when one has a bit that the other has not got. */
  lemma SomeOnly(a: u8, b: u8)
    ensures a != b <==> On(Only(BitsOf(a), BitsOf(b))) != [] || On(Only(BitsOf(b), BitsOf(a))) != []
  {
    var v, w := BitsOf(a), BitsOf(b);
    hide BitsOf, On;
    NothingOn(Only(v, w));
    NothingOn(Only(w, v));
    ByteAndBits(a, v);
    ByteAndBits(b, w);
    if k :| 0 <= k < 8 && v[k] != w[k] { assert Only(v, w)[k] || Only(w, v)[k]; }
    if forall k :: 0 <= k < 8 ==> v[k] == w[k] { assert v == w; }
  }

  /** What a has and what only b has are what b has and what only a has. */
  lemma Exchange(a: Bits, b: Bits)
    ensures multiset(On(b)) + multiset(On(Only(a, b))) == multiset(On(a)) + multiset(On(Only(b, a)))
  {
    OnIs(a);
    OnIs(b);
    OnIs(Only(a, b));
    OnIs(Only(b, a));
    hide On;
    var s, t := multiset(On(b)) + multiset(On(Only(a, b))), multiset(On(a)) + multiset(On(Only(b, a)));
    forall k: nat ensures s[k] == t[k] { }
  }

  datatype Modifier = CtrlKey | ShiftKey | CommandKey | OptionKey

  function If(c: bool, m: Modifier): set<Modifier> { if c then {m} else {} }

  /** The modifiers that the byte calls for, its upper half, of the keys on the right, laid over the lower. */
  function ModifiersOf(to: u8): set<Modifier> {
    var mod := Or(BitsOf(to), UpperHalf(BitsOf(to)));
    If(mod[0], CtrlKey) + If(mod[1], ShiftKey) + If(mod[2], CommandKey)
    + If(mod[4], CtrlKey) + If(mod[5], ShiftKey) + If(mod[6], OptionKey)
  }

  /** Either key of a kind calls for its modifier, the right one of the third kind for the fourth modifier as well. */
  lemma ModifiersMean(to: u8)
    ensures var b, m := BitsOf(to), ModifiersOf(to);
      && (CtrlKey in m <==> b[0] || b[4]) && (ShiftKey in m <==> b[1] || b[5])
      && (CommandKey in m <==> b[2] || b[6]) && (OptionKey in m <==> b[6])
  {
    hide BitsOf;
  }
}
