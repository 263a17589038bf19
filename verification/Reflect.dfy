/**
 * The string-encoded interface metadata: how it is laid out, how the reader walks it, and what
 * the Interface constructor counts. Strings are the characters before the terminating NUL.
 */
module Reflect {

  const UINT: nat := 0x1_0000_0000

  predicate IsDigit(c: char) { '0' <= c <= '9' }

  // The layout.

  /** One entry: I, X, F, A, K or C; the special letters; the name, which may be empty; for K the type and value. */
  datatype Entry = Entry(kind: char, specials: string, name: string, constant: string)

  predicate NoDigitFirst(s: string) { s != "" ==> !IsDigit(s[0]) }

  /** What follows the number in an entry must not go on with a digit. */
  predicate WellFormed(e: Entry) {
    && e.kind in "IXFAKC"
    && (forall i :: 0 <= i < |e.specials| ==> !IsDigit(e.specials[i]))
    && |e.name| < UINT && NoDigitFirst(e.name + e.constant)
    && (forall i :: 0 <= i < |e.constant| ==> e.constant[i] != ' ')
    && (e.kind != 'K' ==> e.constant == "")
  }

  function Digit(n: nat): char
    requires n < 10
  {
    ('0' as int + n) as char
  }

  function Dec(n: nat): (s: string)
    ensures s != "" && forall i :: 0 <= i < |s| ==> IsDigit(s[i])
  {
    if n < 10 then [Digit(n)] else Dec(n / 10) + [Digit(n % 10)]
  }

  function Tail(e: Entry): string { if e.kind == 'K' then e.constant + " " else "" }

  function Encode(e: Entry): string {
    [e.kind] + e.specials + Dec(|e.name|) + e.name + Tail(e)
  }

  function EncodeAll(es: seq<Entry>): string {
    if es == [] then "" else Encode(es[0]) + EncodeAll(es[1..])
  }

  // The reader, on what is left of the string.

  function DigitRun(t: string): (n: nat)
    ensures n <= |t|
  {
    if t != "" && IsDigit(t[0]) then 1 + DigitRun(t[1..]) else 0
  }

  function SpecialRun(t: string): (n: nat)
    ensures n <= |t|
  {
    if t != "" && !IsDigit(t[0]) then 1 + SpecialRun(t[1..]) else 0
  }

  function DigitValue(c: char): (n: nat)
    requires IsDigit(c)
    ensures n < 10
  {
    c as int - '0' as int
  }

  /** The unsigned accumulation of skipDigits. */
  function Number(t: string, acc: nat): (r: nat)
    requires forall i :: 0 <= i < |t| ==> IsDigit(t[i])
    decreases |t|
  {
    if t == "" then acc else Number(t[1..], (10 * acc + DigitValue(t[0])) % UINT)
  }

  /** The same without the wrap. */
  ghost function Exact(t: string, acc: nat): (r: nat)
    requires forall i :: 0 <= i < |t| ==> IsDigit(t[i])
    ensures acc <= r
    decreases |t|
  {
    if t == "" then acc else Exact(t[1..], 10 * acc + DigitValue(t[0]))
  }

  lemma {:induction false} NoWrap(t: string, acc: nat)
    requires (forall i :: 0 <= i < |t| ==> IsDigit(t[i])) && Exact(t, acc) < UINT
    ensures Number(t, acc) == Exact(t, acc)
    decreases |t|
  {
    if t != "" {
      var next := 10 * acc + DigitValue(t[0]);
      NoWrap(t[1..], next);
      assert next % UINT == next;
    }
  }

  lemma {:induction false} ExactLast(t: string, c: char, acc: nat)
    requires (forall i :: 0 <= i < |t| ==> IsDigit(t[i])) && IsDigit(c)
    ensures Exact(t + [c], acc) == 10 * Exact(t, acc) + DigitValue(c)
    decreases |t|
  {
    if t != "" {
      assert (t + [c])[1..] == t[1..] + [c];
      ExactLast(t[1..], c, 10 * acc + DigitValue(t[0]));
    } else {
      assert (t + [c])[1..] == "";
    }
  }

  lemma {:induction false} DecValue(n: nat)
    ensures Exact(Dec(n), 0) == n
  {
    if n >= 10 {
      DecValue(n / 10);
      ExactLast(Dec(n / 10), Digit(n % 10), 0);
    }
  }

  lemma {:induction false} DigitRunIsDigits(t: string)
    ensures forall i :: 0 <= i < DigitRun(t) ==> IsDigit(t[i])
  {
    if t != "" && IsDigit(t[0]) {
      DigitRunIsDigits(t[1..]);
      forall i | 0 <= i < DigitRun(t) ensures IsDigit(t[i]) {
        if i > 0 { assert t[i] == t[1..][i - 1]; }
      }
    }
  }

  function NameLength(t: string): nat {
    DigitRunIsDigits(t);
    Number(t[..DigitRun(t)], 0)
  }

  function SpaceAt(t: string): (n: nat)
    ensures n <= |t| && (n < |t| ==> t[n] == ' ')
  {
    if t == "" || t[0] == ' ' then 0 else 1 + SpaceAt(t[1..])
  }

  /** Where the digits, the name, and the property at the head of t end. */
  function SpecialsEnd(t: string): (n: nat)
    requires t != ""
    ensures 1 <= n <= |t|
  {
    1 + SpecialRun(t[1..])
  }

  function NameStart(t: string): (n: nat)
    requires t != ""
    ensures 1 <= n <= |t|
  {
    SpecialsEnd(t) + DigitRun(t[SpecialsEnd(t)..])
  }

  function NameEnd(t: string): nat
    requires t != ""
  {
    NameStart(t) + NameLength(t[SpecialsEnd(t)..])
  }

  /** What a reader may assume of a property: its name, and the space after a constant's value, are there. */
  predicate Readable(t: string) {
    t != "" && NameEnd(t) <= |t| && (t[0] == 'K' ==> SpaceAt(t[NameEnd(t)..]) < |t| - NameEnd(t))
  }

  function PropertyLength(t: string): (n: nat)
    requires Readable(t)
    ensures 1 <= n <= |t|
  {
    if t[0] == 'K' then NameEnd(t) + SpaceAt(t[NameEnd(t)..]) + 1 else NameEnd(t)
  }

  function EntryAt(t: string): Entry
    requires Readable(t)
  {
    Entry(t[0], t[1..SpecialsEnd(t)], t[NameStart(t)..NameEnd(t)],
          if t[0] == 'K' then t[NameEnd(t)..PropertyLength(t) - 1] else "")
  }

  predicate Walkable(t: string)
    decreases |t|
  {
    t == "" || (Readable(t) && Walkable(t[PropertyLength(t)..]))
  }

  function Parsed(t: string): seq<Entry>
    requires Walkable(t)
    decreases |t|
  {
    if t == "" then [] else [EntryAt(t)] + Parsed(t[PropertyLength(t)..])
  }

  // Reading what was written.

  lemma {:induction false} RunThrough(a: string, post: string)
    requires (forall i :: 0 <= i < |a| ==> IsDigit(a[i])) && (post != "" ==> !IsDigit(post[0]))
    ensures DigitRun(a + post) == |a|
    decreases |a|
  {
    if a == "" { assert a + post == post; } else {
      assert (a + post)[1..] == a[1..] + post;
      RunThrough(a[1..], post);
    }
  }

  lemma {:induction false} SpecialsThrough(a: string, post: string)
    requires (forall i :: 0 <= i < |a| ==> !IsDigit(a[i])) && post != "" && IsDigit(post[0])
    ensures SpecialRun(a + post) == |a|
    decreases |a|
  {
    if a == "" { assert a + post == post; } else {
      assert (a + post)[1..] == a[1..] + post;
      SpecialsThrough(a[1..], post);
    }
  }

  lemma {:induction false} SpaceThrough(a: string, post: string)
    requires forall i :: 0 <= i < |a| ==> a[i] != ' '
    ensures SpaceAt(a + " " + post) == |a|
    decreases |a|
  {
    if a == "" { assert a + " " + post == " " + post; } else {
      assert (a + " " + post)[1..] == a[1..] + " " + post;
      SpaceThrough(a[1..], post);
    }
  }

  lemma SpecialsOfHead(e: Entry, post: string)
    requires WellFormed(e)
    ensures var t := Encode(e) + post;
      && t != "" && t[0] == e.kind && SpecialsEnd(t) == 1 + |e.specials| && t[1..SpecialsEnd(t)] == e.specials
      && t[SpecialsEnd(t)..] == Dec(|e.name|) + (e.name + (Tail(e) + post))
  {
    var digits, rest := Dec(|e.name|), e.name + (Tail(e) + post);
    var t := Encode(e) + post;
    assert t == [e.kind] + (e.specials + (digits + rest));
    assert t[1..] == e.specials + (digits + rest);
    SpecialsThrough(e.specials, digits + rest);
    assert SpecialsEnd(t) == 1 + |e.specials|;
    hide *;
    Behind(t, 1, e.specials, digits + rest);
  }

  /** A part that stands somewhere in t, and what comes behind it. */
  lemma Behind(t: string, i: nat, a: string, rest: string)
    requires i <= |t| && t[i..] == a + rest
    ensures i + |a| <= |t| && t[i..i + |a|] == a && t[i + |a|..] == rest
  {
    assert t[i..i + |a|] == t[i..][..|a|] && t[i + |a|..] == t[i..][|a|..];
  }

  lemma NumberThrough(n: nat, post: string)
    requires n < UINT && NoDigitFirst(post)
    ensures DigitRun(Dec(n) + post) == |Dec(n)| && NameLength(Dec(n) + post) == n
  {
    RunThrough(Dec(n), post);
    assert (Dec(n) + post)[..|Dec(n)|] == Dec(n);
    DecValue(n);
    NoWrap(Dec(n), 0);
  }

  lemma NameOfHead(e: Entry, post: string)
    requires WellFormed(e) && NoDigitFirst(post)
    ensures var t := Encode(e) + post;
      && t != "" && NameEnd(t) == NameStart(t) + |e.name| && NameEnd(t) <= |t|
      && t[NameStart(t)..NameEnd(t)] == e.name && t[NameEnd(t)..] == Tail(e) + post
      && NameEnd(t) + |Tail(e)| == |Encode(e)|
  {
    hide *;
    var t, rest := Encode(e) + post, e.name + (Tail(e) + post);
    SpecialsOfHead(e, post);
    EncodeSize(e);
    NameFirst(e, post);
    NamePlaces(t);
    NumberBehind(t, SpecialsEnd(t), |e.name|, rest);
    Behind(t, NameStart(t), e.name, Tail(e) + post);
  }

  lemma NumberBehind(t: string, i: nat, n: nat, rest: string)
    requires i <= |t| && t[i..] == Dec(n) + rest && n < UINT && NoDigitFirst(rest)
    ensures DigitRun(t[i..]) == |Dec(n)| && NameLength(t[i..]) == n
    ensures i + |Dec(n)| <= |t| && t[i + |Dec(n)|..] == rest
  {
    NumberThrough(n, rest);
    hide *;
    Behind(t, i, Dec(n), rest);
  }

  lemma NamePlaces(t: string)
    requires t != ""
    ensures NameStart(t) == SpecialsEnd(t) + DigitRun(t[SpecialsEnd(t)..])
    ensures NameEnd(t) == NameStart(t) + NameLength(t[SpecialsEnd(t)..])
  {
  }

  lemma NameFirst(e: Entry, post: string)
    requires WellFormed(e) && NoDigitFirst(post)
    ensures NoDigitFirst(e.name + (Tail(e) + post)) && |e.name| < UINT
  {
    assert e.name + (Tail(e) + post) == if e.kind == 'K' then e.name + e.constant + " " + post else e.name + post;
  }

  lemma EncodeSize(e: Entry)
    ensures |Encode(e)| == 1 + |e.specials| + |Dec(|e.name|)| + |e.name| + |Tail(e)|
  {
  }

  /** The property at the head of an encoded string is the entry that was written, and skipping it skips just that. */
  lemma HeadIsEntry(e: Entry, post: string)
    requires WellFormed(e) && NoDigitFirst(post)
    ensures var t := Encode(e) + post; Readable(t) && PropertyLength(t) == |Encode(e)| && EntryAt(t) == e
  {
    var t := Encode(e) + post;
    hide Encode, WellFormed, NameStart, NameEnd, SpecialsEnd, SpaceAt, Tail, NoDigitFirst;
    SpecialsOfHead(e, post);
    NameOfHead(e, post);
    if e.kind == 'K' { ConstantOfHead(t, e, post); } else { NoTail(e); }
  }

  lemma NoTail(e: Entry)
    requires WellFormed(e) && e.kind != 'K'
    ensures e.constant == "" && |Tail(e)| == 0
  {
  }

  lemma ConstantOfHead(t: string, e: Entry, post: string)
    requires WellFormed(e) && t != "" && NameEnd(t) <= |t| && t[NameEnd(t)..] == Tail(e) + post && e.kind == 'K'
    ensures var n := NameEnd(t);
      && SpaceAt(t[n..]) == |e.constant| < |t| - n && |Tail(e)| == |e.constant| + 1
      && t[n..n + |e.constant|] == e.constant
  {
    SpaceThrough(e.constant, post);
    assert Tail(e) + post == e.constant + (" " + post) == e.constant + " " + post;
    hide *;
    Behind(t, NameEnd(t), e.constant, " " + post);
  }

  ghost predicate AllWellFormed(es: seq<Entry>) { forall e :: e in es ==> WellFormed(e) }

  lemma EncodedStart(es: seq<Entry>)
    requires AllWellFormed(es)
    ensures NoDigitFirst(EncodeAll(es))
  {
    if es != [] {
      assert es[0] in es;
      assert EncodeAll(es)[0] == Encode(es[0])[0] == es[0].kind;
    }
  }

  /** Walking what was encoded recovers every entry, in order, and stops exactly at the end. */
  lemma {:induction false} RoundTrip(es: seq<Entry>)
    requires AllWellFormed(es)
    ensures Walkable(EncodeAll(es)) && Parsed(EncodeAll(es)) == es
  {
    if es != [] {
      hide *;
      RestWellFormed(es);
      var post := EncodeAll(es[1..]);
      EncodedHead(es);
      RoundTrip(es[1..]);
      EncodedStart(es[1..]);
      HeadIsEntry(es[0], post);
      ParsedHead(Encode(es[0]), post);
      assert es == [es[0]] + es[1..];
    }
  }

  lemma RestWellFormed(es: seq<Entry>)
    requires AllWellFormed(es) && es != []
    ensures WellFormed(es[0]) && AllWellFormed(es[1..])
  {
    hide WellFormed;
    assert es[0] in es;
  }

  lemma EncodedHead(es: seq<Entry>)
    requires es != []
    ensures EncodeAll(es) == Encode(es[0]) + EncodeAll(es[1..])
  {
  }

  lemma ParsedHead(head: string, post: string)
    requires Readable(head + post) && PropertyLength(head + post) == |head| && Walkable(post)
    ensures Walkable(head + post) && Parsed(head + post) == [EntryAt(head + post)] + Parsed(post)
  {
    hide Readable, PropertyLength, EntryAt;
    assert (head + post)[|head|..] == post;
  }

  // Counting entries.

  /** Which count the constructor gives an entry to; of the specials it looks at the first alone. */
  datatype Bin = Constants | Attributes | Statics | Operations | Others

  function BinFor(kind: char, second: bool): Bin {
    if kind == 'K' then Constants
    else if kind == 'F' then if second then Statics else Operations
    else if kind == 'A' then Attributes
    else Others
  }

  function BinOf(e: Entry): Bin { BinFor(e.kind, e.specials != "" && e.specials[0] == 'i') }

  function InBin(es: seq<Entry>, b: Bin): nat {
    if es == [] then 0 else (if BinOf(es[0]) == b then 1 else 0) + InBin(es[1..], b)
  }

  function OfKind(es: seq<Entry>, kind: char): nat {
    if es == [] then 0 else (if es[0].kind == kind then 1 else 0) + OfKind(es[1..], kind)
  }

  /** What Property::isStatic answers. */
  predicate IsStatic(e: Entry) { e.kind == 'F' && 'i' in e.specials }

  function StaticOperations(es: seq<Entry>): nat {
    if es == [] then 0 else (if IsStatic(es[0]) then 1 else 0) + StaticOperations(es[1..])
  }

  /** length + 1, computed in an unsigned. */
  function RoomFor(length: nat): nat { (length + 1) % UINT }

  function NameRoom(es: seq<Entry>): nat {
    if es == [] then 0 else RoomFor(|es[0].name|) + NameRoom(es[1..])
  }

  ghost predicate StaticComesFirst(es: seq<Entry>) { forall e :: e in es ==> IsStatic(e) ==> BinOf(e) == Statics }

  /** The constructor's static count is the number of static operations exactly when each has its i in front. */
  lemma {:induction false} StaticCountExact(es: seq<Entry>)
    ensures InBin(es, Statics) <= StaticOperations(es)
    ensures InBin(es, Statics) == StaticOperations(es) <==> StaticComesFirst(es)
  {
    if es != [] {
      StaticCountExact(es[1..]);
      assert es[0] in es;
      assert forall e :: e in es ==> e == es[0] || e in es[1..];
    }
  }

  /** A static operation with another letter in front is counted as one that is not static. */
  lemma StaticBehindOmittable(name: string)
    ensures var e := Entry('F', "oi", name, ""); InBin([e], Statics) == 0 && StaticOperations([e]) == 1
  {
    var e := Entry('F', "oi", name, "");
    assert e.specials[0] == 'o' && e.specials[1] == 'i';
    assert [e][1..] == [];
  }

  /** The other counts are counts of kinds, and static and other operations together are all of them. */
  lemma {:induction false} BinsAreKinds(es: seq<Entry>)
    ensures InBin(es, Constants) == OfKind(es, 'K') && InBin(es, Attributes) == OfKind(es, 'A')
    ensures InBin(es, Statics) + InBin(es, Operations) == OfKind(es, 'F')
  {
    if es != [] { BinsAreKinds(es[1..]); }
  }

  /** With names of every sane length the room is the names, each with one more character. */
  lemma {:induction false} NameRoomExact(es: seq<Entry>, post: seq<Entry>)
    requires forall e :: e in es ==> |e.name| + 1 < UINT
    ensures NameRoom(es + post) == |es| + |Names(es)| + NameRoom(post)
  {
    if es != [] {
      assert es[0] in es;
      assert (es + post)[1..] == es[1..] + post;
      NameRoomExact(es[1..], post);
    } else {
      assert es + post == post;
    }
  }

  function Names(es: seq<Entry>): string { if es == [] then "" else es[0].name + Names(es[1..]) }

  // The reader's functions as they run.

  method SkipDigits(s: string, info: nat) returns (p: nat, value: nat)
    requires info <= |s|
    ensures p == info + DigitRun(s[info..]) <= |s| && value == NameLength(s[info..])
  {
    ghost var t := s[info..];
    DigitRunIsDigits(t);
    p := info;
    value := 0;
    while p < |s| && IsDigit(s[p])
      invariant info <= p <= |s| && p - info + DigitRun(s[p..]) == DigitRun(t)
      invariant Number(t[p - info..DigitRun(t)], value) == Number(t[..DigitRun(t)], 0)
    {
      assert s[p..][1..] == s[p + 1..];
      assert t[p - info..DigitRun(t)][1..] == t[p + 1 - info..DigitRun(t)];
      value := (10 * value + DigitValue(s[p])) % UINT;
      p := p + 1;
    }
  }

  method SkipSpecials(s: string, info: nat) returns (p: nat)
    requires info <= |s|
    ensures p == info + SpecialRun(s[info..]) <= |s|
  {
    p := info;
    while p < |s| && !IsDigit(s[p])
      invariant info <= p <= |s| && p - info + SpecialRun(s[p..]) == SpecialRun(s[info..])
    {
      assert s[p..][1..] == s[p + 1..];
      p := p + 1;
    }
  }

  method SkipName(s: string, info: nat) returns (p: nat)
    requires info <= |s|
    ensures p == info + DigitRun(s[info..]) + NameLength(s[info..])
  {
    var q, length := SkipDigits(s, info);
    p := q + length;
  }

  method SkipConstantValue(s: string, value: nat) returns (p: nat)
    requires value <= |s| && SpaceAt(s[value..]) < |s| - value
    ensures p == value + SpaceAt(s[value..]) + 1
  {
    p := value;
    while s[p] != ' '
      invariant value <= p < |s| && p - value + SpaceAt(s[p..]) == SpaceAt(s[value..])
      decreases |s| - p
    {
      assert s[p..][1..] == s[p + 1..];
      p := p + 1;
    }
    p := p + 1;
  }

  /** The places of a property in the middle of a string. */
  lemma Places(s: string, info: nat)
    requires info < |s| && Readable(s[info..])
    ensures var t := s[info..];
      && t[0] == s[info] && SpecialsEnd(t) == 1 + SpecialRun(s[info + 1..])
      && NameStart(t) == SpecialsEnd(t) + DigitRun(s[info + SpecialsEnd(t)..])
      && NameEnd(t) == NameStart(t) + NameLength(s[info + SpecialsEnd(t)..]) <= |s| - info
    ensures var t := s[info..];
      if t[0] != 'K' then PropertyLength(t) == NameEnd(t) else
        && PropertyLength(t) == NameEnd(t) + SpaceAt(s[info + NameEnd(t)..]) + 1
        && SpaceAt(s[info + NameEnd(t)..]) < |s| - (info + NameEnd(t))
  {
    var t := s[info..];
    hide SpecialRun, DigitRun, NameLength, SpaceAt;
    DropTwice(s, info, 1);
    DropTwice(s, info, SpecialsEnd(t));
    DropTwice(s, info, NameEnd(t));
  }

  lemma DropTwice(s: string, i: nat, j: nat)
    requires i + j <= |s|
    ensures s[i..][j..] == s[i + j..]
  {
  }

  lemma SliceTwice(s: string, i: nat, j: nat, k: nat)
    requires i + k <= |s| && j <= k
    ensures s[i..][j..k] == s[i + j..i + k]
    ensures s[i..][..k] == s[i..i + k]
  {
  }

  /** The parts of the entry of such a property. */
  lemma EntryParts(s: string, info: nat)
    requires info < |s| && Readable(s[info..])
    ensures var t := s[info..];
      && NameStart(t) <= NameEnd(t) <= |s| - info
      && EntryAt(t).name == s[info + NameStart(t)..info + NameEnd(t)]
      && EntryAt(t).specials == s[info + 1..][..SpecialRun(s[info + 1..])]
      && |EntryAt(t).name| == NameLength(s[info + SpecialsEnd(t)..])
  {
    var t := s[info..];
    Places(s, info);
    hide SpecialRun, DigitRun, NameLength, SpaceAt, SpecialsEnd, NameStart, NameEnd;
    SliceTwice(s, info, NameStart(t), NameEnd(t));
    SliceTwice(s, info, 1, SpecialsEnd(t));
    SliceTwice(s, info + 1, 0, SpecialRun(s[info + 1..]));
  }

  method SkipProperty(s: string, info: nat) returns (p: nat)
    requires info < |s| && Readable(s[info..])
    ensures p == info + PropertyLength(s[info..])
  {
    hide *;
    Places(s, info);
    var q := SkipSpecials(s, info + 1);
    var next := SkipName(s, q);
    if s[info] != 'K' {
      return next;
    }
    p := SkipConstantValue(s, next);
  }

  method GetName(s: string, info: nat) returns (name: string)
    requires info < |s| && Readable(s[info..])
    ensures name == EntryAt(s[info..]).name
  {
    hide *;
    Places(s, info);
    EntryParts(s, info);
    var q := SkipSpecials(s, info + 1);
    var start, length := SkipDigits(s, q);
    name := s[start..start + length];
  }

  method HasSpecial(s: string, info: nat, special: char) returns (r: bool)
    requires info < |s| && Readable(s[info..])
    ensures r <==> special in EntryAt(s[info..]).specials
  {
    hide Readable, EntryAt, SpecialsEnd, NameStart, NameEnd, NameLength, DigitRun;
    EntryParts(s, info);
    ghost var run := s[info + 1..];
    var p := info + 1;
    while p < |s| && !IsDigit(s[p])
      invariant info + 1 <= p <= |s| && p - info - 1 + SpecialRun(s[p..]) == SpecialRun(run)
      invariant special !in run[..p - info - 1]
    {
      assert s[p..][1..] == s[p + 1..];
      assert run[..p - info] == run[..p - info - 1] + [s[p]];
      if s[p] == special {
        assert run[..SpecialRun(run)][p - info - 1] == special;
        return true;
      }
      p := p + 1;
    }
    return false;
  }

  // Whole interfaces.

  lemma ParsedStep(s: string, p: nat)
    requires p < |s| && Walkable(s[p..])
    ensures Readable(s[p..]) && p + PropertyLength(s[p..]) <= |s| && Walkable(s[p + PropertyLength(s[p..])..])
    ensures Parsed(s[p..]) != [] && Parsed(s[p..])[0] == EntryAt(s[p..])
    ensures Parsed(s[p..])[1..] == Parsed(s[p + PropertyLength(s[p..])..])
  {
    var n := PropertyLength(s[p..]);
    assert s[p..][n..] == s[p + n..];
  }

  /** Going through a whole string with next(), asking each property for its kind, its name and one special. */
  method Walk(s: string, special: char) returns (kinds: seq<char>, names: seq<string>, flags: seq<bool>)
    requires Walkable(s)
    ensures |kinds| == |names| == |flags| == |Parsed(s)|
    ensures forall i :: 0 <= i < |kinds| ==> kinds[i] == Parsed(s)[i].kind && names[i] == Parsed(s)[i].name
    ensures forall i :: 0 <= i < |flags| ==> (flags[i] <==> special in Parsed(s)[i].specials)
  {
    hide *;
    kinds, names, flags := [], [], [];
    var p := 0;
    ghost var es := Parsed(s);
    assert s[0..] == s && es[0..] == es;
    while p < |s|
      invariant p <= |s| && |kinds| == |names| == |flags| <= |es|
      invariant Walkable(s[p..]) && Parsed(s[p..]) == es[|kinds|..]
      invariant forall i :: 0 <= i < |kinds| ==> kinds[i] == es[i].kind && names[i] == es[i].name
      invariant forall i :: 0 <= i < |flags| ==> (flags[i] <==> special in es[i].specials)
      decreases |s| - p
    {
      ParsedStep(s, p);
      HeadKind(s, p);
      assert es[|kinds|..][0] == es[|kinds|] && es[|kinds|..][1..] == es[|kinds| + 1..];
      var name := GetName(s, p);
      var flag := HasSpecial(s, p, special);
      kinds, names, flags := kinds + [s[p]], names + [name], flags + [flag];
      p := SkipProperty(s, p);
    }
    ParsedEnd(s);
  }

  lemma ParsedEnd(s: string)
    ensures Walkable(s[|s|..]) && Parsed(s[|s|..]) == []
  {
  }

  lemma HeadKind(s: string, p: nat)
    requires p < |s| && Readable(s[p..])
    ensures EntryAt(s[p..]).kind == s[p]
  {
  }

  /** The constructor's own way over a property: the same step as skipProperty, with the name's length on the side. */
  method StepOver(s: string, info: nat) returns (p: nat, length: nat)
    requires info < |s| && Readable(s[info..])
    ensures p == info + PropertyLength(s[info..]) && length == |EntryAt(s[info..]).name|
  {
    hide *;
    Places(s, info);
    EntryParts(s, info);
    p := SkipSpecials(s, info + 1);
    p, length := SkipDigits(s, p);
    p := p + length;
    if s[info] == 'K' {
      p := SkipConstantValue(s, p);
    }
  }

  lemma RoomStep(es: seq<Entry>)
    ensures NameRoom(es) == if es == [] then 0 else RoomFor(|es[0].name|) + NameRoom(es[1..])
  {
  }

  lemma BinAhead(s: string, p: nat)
    requires p < |s| && Readable(s[p..])
    ensures BinOf(EntryAt(s[p..])) == BinFor(s[p], p + 1 < |s| && s[p + 1] == 'i')
  {
    assert s[p..][1..] == s[p + 1..];
  }

  /** The counts an interface takes when it is made from its encoded string. */
  class Interface {
    const info: string
    var operationCount: nat
    var attributeCount: nat
    var constantCount: nat
    var stringSize: nat
    var staticOperationCount: nat

    /** The counts so far, and what the entries still ahead add to them, make up the counts of es. */
    ghost predicate Counting(es: seq<Entry>, ahead: seq<Entry>)
      reads `constantCount, `attributeCount, `staticOperationCount, `operationCount
    {
      && constantCount + InBin(ahead, Constants) == InBin(es, Constants)
      && attributeCount + InBin(ahead, Attributes) == InBin(es, Attributes)
      && staticOperationCount + InBin(ahead, Statics) == InBin(es, Statics)
      && operationCount + InBin(ahead, Operations) == InBin(es, Operations)
    }

    constructor (s: string)
      requires s != "" && Walkable(s)
      ensures info == s
      ensures constantCount == InBin(Parsed(s)[1..], Constants)
      ensures attributeCount == InBin(Parsed(s)[1..], Attributes)
      ensures staticOperationCount == InBin(Parsed(s)[1..], Statics)
      ensures operationCount == InBin(Parsed(s)[1..], Operations)
      ensures stringSize == NameRoom(Parsed(s)[1..])
    {
      info := s;
      operationCount, attributeCount, constantCount, stringSize, staticOperationCount := 0, 0, 0, 0, 0;
      new;
      hide *;
      assert s[0..] == s;
      ParsedStep(s, 0);
      ghost var es := Parsed(s)[1..];
      CountingStart(es);
      CountAll(s, es);
      CountingDone(es);
    }

    /** The constructor's loop. */
    method CountAll(s: string, ghost es: seq<Entry>)
      requires s != "" && Walkable(s) && es == Parsed(s)[1..] && Counting(es, es) && stringSize == 0
      modifies this
      ensures Counting(es, []) && stringSize == NameRoom(es)
    {
      hide *;
      assert s[0..] == s;
      ParsedStep(s, 0);
      var p := SkipProperty(s, 0);
      while p < |s|
        invariant p <= |s| && Walkable(s[p..]) && Counting(es, Parsed(s[p..]))
        invariant stringSize + NameRoom(Parsed(s[p..])) == NameRoom(es)
        decreases |s| - p
      {
        ParsedStep(s, p);
        BinAhead(s, p);
        RoomStep(Parsed(s[p..]));
        CountKind(s[p], p + 1 < |s| && s[p + 1] == 'i', es, Parsed(s[p..]));
        // The same step as skipProperty, while summing up the lengths of the names.
        var length;
        p, length := StepOver(s, p);
        stringSize := stringSize + RoomFor(length);
      }
      ParsedEnd(s);
      RoomStep([]);
    }

    lemma CountingStart(es: seq<Entry>)
      requires constantCount == attributeCount == staticOperationCount == operationCount == 0
      ensures Counting(es, es)
    {
    }

    lemma CountingDone(es: seq<Entry>)
      requires Counting(es, [])
      ensures constantCount == InBin(es, Constants) && attributeCount == InBin(es, Attributes)
      ensures staticOperationCount == InBin(es, Statics) && operationCount == InBin(es, Operations)
    {
    }

    /** The switch of the constructor's loop; second says that the character after the kind is an i. */
    method CountKind(kind: char, second: bool, ghost es: seq<Entry>, ghost ahead: seq<Entry>)
      requires ahead != [] && BinOf(ahead[0]) == BinFor(kind, second) && Counting(es, ahead)
      modifies `constantCount, `operationCount, `staticOperationCount, `attributeCount
      ensures Counting(es, ahead[1..])
    {
      if kind == 'K' {
        constantCount := constantCount + 1;
      } else if kind == 'F' {
        if second {
          staticOperationCount := staticOperationCount + 1;
        } else {
          operationCount := operationCount + 1;
        }
      } else if kind == 'A' {
        attributeCount := attributeCount + 1;
      }
    }

    /** The base interface is named by the second entry if that is an X, and there is none otherwise. */
    method GetExtends() returns (name: string)
      requires info != "" && Walkable(info)
      ensures name == if |Parsed(info)| > 1 && Parsed(info)[1].kind == 'X' then Parsed(info)[1].name else ""
    {
      hide *;
      assert info[0..] == info;
      ParsedStep(info, 0);
      var p := SkipProperty(info, 0);
      ParsedEnd(info);
      if p < |info| {
        ParsedStep(info, p);
        HeadKind(info, p);
      }
      if p == |info| || info[p] != 'X' {
        return "";
      }
      name := GetName(info, p);
    }
  }
}
