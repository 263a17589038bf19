/**
 * picojson as functions on byte strings: the serializer, and the parser read as a function of
 * the bytes still to come. Numbers keep their lexeme; whether strtod takes all of one is a
 * parameter.
 */
module Json {

  type Byte = c: char | c as int < 256
  type Bytes = seq<Byte>

  datatype Member = Member(key: Bytes, val: Value)

  datatype Value =
    | Null
    | Bool(b: bool)
    | Num(lexeme: Bytes)
    | Str(s: Bytes)
    | Arr(items: seq<Value>)
    | Obj(members: seq<Member>)

  // The serializer.

  function HexDigit(n: int): Byte
    requires 0 <= n < 16
  {
    if n < 10 then (('0' as int) + n) as char else (('a' as int) + n - 10) as char
  }

  /** How serialize_str writes one byte. */
  function Escape(c: Byte): Bytes {
    if c == '"' then "\\\""
    else if c == '\\' then "\\\\"
    else if c == '/' then "\\/"
    else if c as int == 8 then "\\b"
    else if c as int == 12 then "\\f"
    else if c as int == 10 then "\\n"
    else if c as int == 13 then "\\r"
    else if c as int == 9 then "\\t"
    else if (c as int) < 0x20 || c as int == 0x7f then
      "\\u00" + [HexDigit(c as int / 16), HexDigit(c as int % 16)]
    else [c]
  }

  function Escaped(s: Bytes): Bytes {
    if s == [] then [] else Escape(s[0]) + Escaped(s[1..])
  }

  function WriteString(s: Bytes): Bytes {
    "\"" + Escaped(s) + "\""
  }

  function Write(v: Value): Bytes
    decreases v, 1
  {
    match v
    case Null => "null"
    case Bool(b) => if b then "true" else "false"
    case Num(l) => l
    case Str(s) => WriteString(s)
    case Arr(items) => "[" + WriteItems(items) + "]"
    case Obj(members) => "{" + WriteMembers(members) + "}"
  }

  function WriteItems(items: seq<Value>): Bytes
    decreases items, 0
  {
    if items == [] then []
    else if |items| == 1 then Write(items[0])
    else Write(items[0]) + "," + WriteItems(items[1..])
  }

  function WriteMember(m: Member): Bytes
    decreases m, 0
  {
    WriteString(m.key) + ":" + Write(m.val)
  }

  function WriteMembers(members: seq<Member>): Bytes
    decreases members, 0
  {
    if members == [] then []
    else if |members| == 1 then WriteMember(members[0])
    else WriteMember(members[0]) + "," + WriteMembers(members[1..])
  }

  // The parser, as a function of the remaining input.

  datatype Step<T> = Ok(val: T, rest: Bytes) | Bad(rest: Bytes)

  predicate IsSpace(c: Byte) { c == ' ' || c as int == 9 || c as int == 10 || c as int == 13 }

  function SkipSpace(s: Bytes): (r: Bytes)
    ensures |r| <= |s|
  {
    if s != [] && IsSpace(s[0]) then SkipSpace(s[1..]) else s
  }

  function Expect(s: Bytes, c: Byte): (r: Step<()>)
    ensures |r.rest| <= |s| && (r.Ok? ==> |r.rest| < |s|)
  {
    var t := SkipSpace(s);
    if t != [] && t[0] == c then Ok((), t[1..]) else Bad(t)
  }

  function Match(s: Bytes, pattern: Bytes): (r: Step<()>)
    ensures |r.rest| <= |s|
    decreases |pattern|
  {
    if pattern == [] then Ok((), s)
    else if s != [] && s[0] == pattern[0] then Match(s[1..], pattern[1..])
    else Bad(s)
  }

  function HexValue(c: Byte): int {
    if '0' <= c <= '9' then c as int - '0' as int
    else if 'A' <= c <= 'F' then c as int - 'A' as int + 10
    else if 'a' <= c <= 'f' then c as int - 'a' as int + 10
    else -1
  }

  /** u fits in the 4 - n digits read while n digits are still to come. */
  predicate QuadState(n: int, u: int) {
    (n == 4 && u == 0) || (n == 3 && 0 <= u < 16) || (n == 2 && 0 <= u < 256)
    || (n == 1 && 0 <= u < 4096) || (n == 0 && 0 <= u < 65536)
  }

  /** The rest of a quadhex: n digits still to read, u read so far. */
  function QuadHex(s: Bytes, n: int, u: int): (r: Step<int>)
    requires QuadState(n, u)
    ensures |r.rest| <= |s| && (r.Ok? ==> 0 <= r.val < 65536)
    decreases n
  {
    if n == 0 then Ok(u, s)
    else if s == [] || HexValue(s[0]) == -1 then Bad(s)
    else QuadHex(s[1..], n - 1, u * 16 + HexValue(s[0]))
  }

  function B(n: int): Byte
    requires 0 <= n < 256
  {
    n as char
  }

  function Utf8(u: int): Bytes
    requires 0 <= u < 0x110000
  {
    if u < 0x80 then [B(u)]
    else if u < 0x800 then [B(0xc0 + u / 64), B(0x80 + u % 64)]
    else if u < 0x10000 then [B(0xe0 + u / 4096), B(0x80 + u / 64 % 64), B(0x80 + u % 64)]
    else [B(0xf0 + u / 262144), B(0x80 + u / 4096 % 64), B(0x80 + u / 64 % 64), B(0x80 + u % 64)]
  }

  function Codepoint(s: Bytes): (r: Step<Bytes>)
    ensures |r.rest| <= |s|
  {
    var q := QuadHex(s, 4, 0);
    if q.Bad? then Bad(q.rest)
    else if !(0xd800 <= q.val <= 0xdfff) then Ok(Utf8(q.val), q.rest)
    else if 0xdc00 <= q.val then Bad(q.rest)
    else if q.rest == [] || q.rest[0] != '\\' then Bad(q.rest)
    else if |q.rest| == 1 || q.rest[1] != 'u' then Bad(q.rest[1..])
    else
      var p := QuadHex(q.rest[2..], 4, 0);
      if p.Ok? && 0xdc00 <= p.val <= 0xdfff then
        Ok(Utf8((q.val - 0xd800) * 0x400 + (p.val - 0xdc00) + 0x10000), p.rest)
      else Bad(p.rest)
  }

  /** What a one-letter escape stands for; -1 when it is none. */
  function Unescape(c: Byte): int {
    if c == '"' || c == '\\' || c == '/' then c as int
    else if c == 'b' then 8
    else if c == 'f' then 12
    else if c == 'n' then 10
    else if c == 'r' then 13
    else if c == 't' then 9
    else -1
  }

  /** After the opening quote; acc is what the string holds so far. */
  function StringBody(s: Bytes, acc: Bytes): (r: Step<Bytes>)
    ensures |r.rest| <= |s| && (r.Ok? ==> |r.rest| < |s|)
    decreases |s|
  {
    if s == [] || s[0] < ' ' then Bad(s)
    else if s[0] == '"' then Ok(acc, s[1..])
    else if s[0] != '\\' then StringBody(s[1..], acc + [s[0]])
    else if |s| == 1 then Bad([])
    else if Unescape(s[1]) != -1 then StringBody(s[2..], acc + [B(Unescape(s[1]))])
    else if s[1] == 'u' then
      var c := Codepoint(s[2..]);
      if c.Ok? then StringBody(c.rest, acc + c.val) else Bad(c.rest)
    else Bad(s[2..])
  }

  predicate NumberByte(c: Byte) {
    '0' <= c <= '9' || c == '+' || c == '-' || c == '.' || c == 'e' || c == 'E'
  }

  function NumberRun(s: Bytes): (n: nat)
    ensures n <= |s| && (s != [] && NumberByte(s[0]) ==> 0 < n)
  {
    if s != [] && NumberByte(s[0]) then 1 + NumberRun(s[1..]) else 0
  }

  function Number(s: Bytes, strtod: Bytes -> bool): (r: Step<Value>)
    ensures |r.rest| == |s| - NumberRun(s)
  {
    var n := NumberRun(s);
    if strtod(s[..n]) then Ok(Num(s[..n]), s[n..]) else Bad(s[n..])
  }

  /** Byte strings in the order of std::string. */
  predicate Less(a: Bytes, b: Bytes) {
    b != [] && (a == [] || a[0] < b[0] || (a[0] == b[0] && Less(a[1..], b[1..])))
  }

  /** o[key] = val on a map kept in key order. */
  function Put(ms: seq<Member>, m: Member): seq<Member> {
    if ms == [] || Less(m.key, ms[0].key) then [m] + ms
    else if m.key == ms[0].key then [m] + ms[1..]
    else [ms[0]] + Put(ms[1..], m)
  }

  function Parse(s: Bytes, strtod: Bytes -> bool): (r: Step<Value>)
    ensures |r.rest| <= |s| && (r.Ok? ==> |r.rest| < |s|)
    decreases |s|, 2
  {
    var t := SkipSpace(s);
    if t == [] then Bad(t)
    else if t[0] == 'n' then
      var m := Match(t[1..], "ull"); if m.Ok? then Ok(Null, m.rest) else Bad(m.rest)
    else if t[0] == 'f' then
      var m := Match(t[1..], "alse"); if m.Ok? then Ok(Bool(false), m.rest) else Bad(m.rest)
    else if t[0] == 't' then
      var m := Match(t[1..], "rue"); if m.Ok? then Ok(Bool(true), m.rest) else Bad(m.rest)
    else if t[0] == '"' then
      var b := StringBody(t[1..], []); if b.Ok? then Ok(Str(b.val), b.rest) else Bad(b.rest)
    else if t[0] == '[' then
      var e := Expect(t[1..], ']'); if e.Ok? then Ok(Arr([]), e.rest) else Items(e.rest, [], strtod)
    else if t[0] == '{' then
      var e := Expect(t[1..], '}'); if e.Ok? then Ok(Obj([]), e.rest) else Members(e.rest, [], strtod)
    else if '0' <= t[0] <= '9' || t[0] == '-' then Number(t, strtod)
    else Bad(t)
  }

  /** Array items from here on, after the items in acc. */
  function Items(s: Bytes, acc: seq<Value>, strtod: Bytes -> bool): (r: Step<Value>)
    ensures |r.rest| <= |s| && (r.Ok? ==> |r.rest| < |s|)
    decreases |s|, 3
  {
    var v := Parse(s, strtod);
    if v.Bad? then Bad(v.rest)
    else
      var e := Expect(v.rest, ',');
      if e.Ok? then Items(e.rest, acc + [v.val], strtod)
      else
        var c := Expect(e.rest, ']');
        if c.Ok? then Ok(Arr(acc + [v.val]), c.rest) else Bad(c.rest)
  }

  /** One object member. */
  function ParseMember(s: Bytes, strtod: Bytes -> bool): (r: Step<Member>)
    ensures |r.rest| <= |s| && (r.Ok? ==> |r.rest| < |s|)
    decreases |s|, 3
  {
    var q := Expect(s, '"');
    if q.Bad? then Bad(q.rest)
    else
      var k := StringBody(q.rest, []);
      if k.Bad? then Bad(k.rest)
      else
        var c := Expect(k.rest, ':');
        if c.Bad? then Bad(c.rest)
        else
          var v := Parse(c.rest, strtod);
          if v.Bad? then Bad(v.rest) else Ok(Member(k.val, v.val), v.rest)
  }

  /** Object members from here on, after those in acc. */
  function Members(s: Bytes, acc: seq<Member>, strtod: Bytes -> bool): (r: Step<Value>)
    ensures |r.rest| <= |s| && (r.Ok? ==> |r.rest| < |s|)
    decreases |s|, 4
  {
    var m := ParseMember(s, strtod);
    if m.Bad? then Bad(m.rest)
    else
      var e := Expect(m.rest, ',');
      if e.Ok? then Members(e.rest, Put(acc, m.val), strtod)
      else
        var c := Expect(e.rest, '}');
        if c.Ok? then Ok(Obj(Put(acc, m.val)), c.rest) else Bad(c.rest)
  }

  // The round trip.

  predicate KeysAscend(ms: seq<Member>) {
    forall i :: 0 < i < |ms| ==> Less(ms[i - 1].key, ms[i].key)
  }

  /** A value a number-free program can hold: objects are maps, so their keys ascend. */
  predicate Plain(v: Value) {
    match v
    case Num(_) => false
    case Arr(items) => forall i :: 0 <= i < |items| ==> Plain(items[i])
    case Obj(members) => KeysAscend(members) && forall i :: 0 <= i < |members| ==> Plain(members[i].val)
    case _ => true
  }

  lemma {:induction false} LessTransitive(a: Bytes, b: Bytes, c: Bytes)
    requires Less(a, b) && Less(b, c)
    ensures Less(a, c)
    decreases |a|
  {
    if a != [] && a[0] == b[0] == c[0] {
      LessTransitive(a[1..], b[1..], c[1..]);
    }
  }

  lemma {:induction false} LessIrreflexive(a: Bytes)
    ensures !Less(a, a)
    decreases |a|
  {
    if a != [] { LessIrreflexive(a[1..]); }
  }

  lemma LessAsymmetric(a: Bytes, b: Bytes)
    requires Less(a, b)
    ensures !Less(b, a) && a != b
  {
    if Less(b, a) { LessTransitive(a, b, a); }
    LessIrreflexive(a);
  }

  lemma {:induction false} AscendingBelow(ms: seq<Member>, k: nat)
    requires KeysAscend(ms) && 0 < k < |ms|
    ensures Less(ms[0].key, ms[k].key)
    decreases k
  {
    if k > 1 {
      AscendingBelow(ms, k - 1);
      LessTransitive(ms[0].key, ms[k - 1].key, ms[k].key);
    }
  }

  /** Storing a greater key goes to the end. */
  lemma {:induction false} PutLast(ms: seq<Member>, m: Member)
    requires KeysAscend(ms + [m])
    ensures Put(ms, m) == ms + [m]
    decreases |ms|
  {
    if ms != [] {
      var all := ms + [m];
      assert all[0] == ms[0] && all[|ms|] == m;
      AscendingBelow(all, |ms|);
      LessAsymmetric(ms[0].key, m.key);
      assert KeysAscend(ms[1..] + [m]) by {
        forall i | 0 < i < |ms| ensures Less((ms[1..] + [m])[i - 1].key, (ms[1..] + [m])[i].key) {
          assert (ms[1..] + [m])[i - 1] == all[i] && (ms[1..] + [m])[i] == all[i + 1];
        }
      }
      PutLast(ms[1..], m);
    }
  }

  lemma Regroup<T>(a: seq<T>, b: seq<T>, c: seq<T>, d: seq<T>)
    ensures a + b + c + d == a + (b + (c + d))
  {
  }

  lemma EscapedByte(c: Byte, post: Bytes, acc: Bytes)
    ensures StringBody(Escape(c) + post, acc) == StringBody(post, acc + [c])
  {
    hide Codepoint;
    var e := Escape(c);
    var s := e + post;
    assert s[0] == e[0];
    if |e| == 6 {
      UnicodeEscape(c, post);
      assert s[1] == 'u' && s[2..] == "00" + [HexDigit(c as int / 16), HexDigit(c as int % 16)] + post;
    } else if |e| == 2 {
      assert s[1] == e[1] && s[2..] == post;
    } else {
      assert s[1..] == post;
    }
  }

  lemma UnicodeEscape(c: Byte, post: Bytes)
    requires (c as int) < 0x80
    ensures Codepoint("00" + [HexDigit(c as int / 16), HexDigit(c as int % 16)] + post) == Ok([c], post)
  {
    var h, l := HexDigit(c as int / 16), HexDigit(c as int % 16);
    assert HexValue(h) == c as int / 16 && HexValue(l) == c as int % 16;
    hide HexValue, HexDigit, QuadHex;
    var s3 := [l] + post;
    var s2 := [h] + s3;
    var s1 := ['0'] + s2;
    FourInFront('0', '0', h, l, post);
    DigitRead('0', s1, 4, 0);
    DigitRead('0', s2, 3, 0);
    DigitRead(h, s3, 2, 0);
    DigitRead(l, post, 1, c as int / 16);
  }

  lemma FourInFront(a: Byte, b: Byte, c: Byte, d: Byte, post: Bytes)
    ensures [a, b] + [c, d] + post == [a] + ([b] + ([c] + ([d] + post)))
  {
  }

  lemma DigitRead(d: Byte, post: Bytes, n: int, u: int)
    requires QuadState(n, u) && 0 < n && HexValue(d) != -1
    ensures HexValue('0') == 0
    ensures QuadHex([d] + post, n, u) == QuadHex(post, n - 1, u * 16 + HexValue(d))
  {
    assert ([d] + post)[1..] == post;
  }

  /** Reading back a written string gives its bytes, whatever follows. */
  lemma {:induction false} StringRoundTrip(s: Bytes, post: Bytes, acc: Bytes)
    ensures StringBody(Escaped(s) + "\"" + post, acc) == Ok(acc + s, post)
    decreases |s|
  {
    hide Escape, Codepoint;
    if s == [] {
      assert Escaped(s) + "\"" + post == "\"" + post;
      assert ("\"" + post)[1..] == post && acc + s == acc;
    } else {
      var tail := Escaped(s[1..]) + "\"" + post;
      assert Escaped(s) + "\"" + post == Escape(s[0]) + tail;
      EscapedByte(s[0], tail, acc);
      StringRoundTrip(s[1..], post, acc + [s[0]]);
      assert acc + [s[0]] + s[1..] == acc + s;
    }
  }

  lemma KeyRoundTrip(s: Bytes, post: Bytes)
    ensures WriteString(s) + post == "\"" + (Escaped(s) + "\"" + post)
    ensures StringBody((WriteString(s) + post)[1..], []) == Ok(s, post)
  {
    hide Escaped, StringBody;
    StringRoundTrip(s, post, []);
    var t := Escaped(s) + "\"" + post;
    assert WriteString(s) + post == "\"" + t;
    assert ("\"" + t)[1..] == t;
    assert [] + s == s;
  }

  /** Every text the serializer writes starts with a byte that is neither space nor closing bracket. */
  lemma WriteStarts(v: Value)
    requires Plain(v)
    ensures Write(v) != [] && !IsSpace(Write(v)[0]) && Write(v)[0] != ']' && Write(v)[0] != '}'
  {
  }

  lemma MatchPrefix(p: Bytes, post: Bytes)
    ensures Match(p + post, p) == Ok((), post)
    decreases |p|
  {
    if p == [] {
      assert p + post == post;
    } else {
      assert (p + post)[1..] == p[1..] + post;
      MatchPrefix(p[1..], post);
    }
  }

  lemma ExpectHere(c: Byte, post: Bytes)
    requires !IsSpace(c)
    ensures Expect([c] + post, c) == Ok((), post)
    ensures forall d: Byte :: d != c ==> Expect([c] + post, d) == Bad([c] + post)
  {
    assert ([c] + post)[1..] == post;
  }

  lemma WordRoundTrip(v: Value, post: Bytes, strtod: Bytes -> bool)
    requires v.Null? || v.Bool?
    ensures Parse(Write(v) + post, strtod) == Ok(v, post)
  {
    hide StringBody, Items, Members, Match, Expect, Number;
    var s := Write(v) + post;
    if v.Null? {
      assert s[1..] == "ull" + post;
      MatchPrefix("ull", post);
    } else if v.b {
      assert s[1..] == "rue" + post;
      MatchPrefix("rue", post);
    } else {
      assert s[1..] == "alse" + post;
      MatchPrefix("alse", post);
    }
  }

  /**
   * Parsing what the serializer wrote gives back the value and stops right behind it,
   * whatever text follows.
   */
  lemma {:induction false} RoundTrip(v: Value, post: Bytes, strtod: Bytes -> bool)
    requires Plain(v)
    ensures Parse(Write(v) + post, strtod) == Ok(v, post)
    decreases v, 2
  {
    hide WriteString, StringBody, WriteItems, WriteMembers, Items, Members, Match, Expect, IsSpace, Number;
    var s := Write(v) + post;
    WriteStarts(v);
    SpaceKept(s);
    match v {
      case Null =>
        WordRoundTrip(v, post, strtod);
      case Bool(b) =>
        WordRoundTrip(v, post, strtod);
      case Str(t) =>
        KeyRoundTrip(t, post);
        assert s[0] == '"';
      case Arr(items) =>
        assert s[1..] == WriteItems(items) + ("]" + post);
        if items == [] {
          EmptyClose(post);
          assert s[1..] == "]" + post;
        } else {
          ItemsStart(items, "]" + post);
          ItemsRoundTrip(items, [], post, strtod);
          assert [] + items == items;
        }
      case Obj(members) =>
        assert s[1..] == WriteMembers(members) + ("}" + post);
        if members == [] {
          EmptyClose(post);
          assert s[1..] == "}" + post;
        } else {
          MembersStart(members, "}" + post);
          MembersRoundTrip(members, [], post, strtod);
          assert [] + members == members;
        }
    }
  }

  lemma SpaceKept(s: Bytes)
    requires s != [] && !IsSpace(s[0])
    ensures SkipSpace(s) == s
  {
  }

  lemma EmptyClose(post: Bytes)
    ensures WriteItems([]) == [] && WriteMembers([]) == []
    ensures Expect("]" + post, ']') == Ok((), post) && Expect("}" + post, '}') == Ok((), post)
  {
    ExpectHere(']', post);
    ExpectHere('}', post);
  }

  lemma ItemsStart(items: seq<Value>, post: Bytes)
    requires items != [] && forall i :: 0 <= i < |items| ==> Plain(items[i])
    ensures Expect(WriteItems(items) + post, ']') == Bad(WriteItems(items) + post)
  {
    hide Write;
    WriteStarts(items[0]);
    assert WriteItems(items)[0] == Write(items[0])[0];
  }

  lemma MembersStart(members: seq<Member>, post: Bytes)
    requires members != []
    ensures Expect(WriteMembers(members) + post, '}') == Bad(WriteMembers(members) + post)
  {
    assert WriteMembers(members)[0] == '"';
  }

  lemma ItemsText(items: seq<Value>, post: Bytes)
    requires items != []
    ensures |items| == 1 ==> WriteItems(items) + post == Write(items[0]) + post
    ensures |items| > 1 ==> WriteItems(items) + post == Write(items[0]) + ("," + (WriteItems(items[1..]) + post))
  {
    hide Write;
    if |items| > 1 {
      Regroup(Write(items[0]), ",", WriteItems(items[1..]), post);
    }
  }

  /** One item read, and what comes behind it. */
  lemma ItemsStep(s: Bytes, acc: seq<Value>, v: Value, c: Byte, post: Bytes, strtod: Bytes -> bool)
    requires Parse(s, strtod) == Ok(v, [c] + post) && !IsSpace(c)
    ensures c == ',' ==> Items(s, acc, strtod) == Items(post, acc + [v], strtod)
    ensures c == ']' ==> Items(s, acc, strtod) == Ok(Arr(acc + [v]), post)
  {
    hide Parse, Expect;
    ExpectHere(c, post);
  }

  lemma {:induction false} ItemsRoundTrip(items: seq<Value>, acc: seq<Value>, post: Bytes, strtod: Bytes -> bool)
    requires items != [] && forall i :: 0 <= i < |items| ==> Plain(items[i])
    ensures Items(WriteItems(items) + ("]" + post), acc, strtod) == Ok(Arr(acc + items), post)
    decreases items, 1
  {
    hide Parse, Write, Expect, Plain, Items, WriteItems;
    var v, s := items[0], WriteItems(items) + ("]" + post);
    ItemsText(items, "]" + post);
    if |items| == 1 {
      RoundTrip(v, "]" + post, strtod);
      ItemsStep(s, acc, v, ']', post, strtod);
      assert acc + [v] == acc + items;
    } else {
      var tail := WriteItems(items[1..]) + ("]" + post);
      RoundTrip(v, "," + tail, strtod);
      ItemsStep(s, acc, v, ',', tail, strtod);
      ItemsRoundTrip(items[1..], acc + [v], post, strtod);
      assert acc + [v] + items[1..] == acc + items;
    }
  }

  lemma {:induction false} MemberRoundTrip(m: Member, post: Bytes, strtod: Bytes -> bool)
    requires Plain(m.val)
    ensures ParseMember(WriteMember(m) + post, strtod) == Ok(m, post)
    decreases m, 3
  {
    var tail := ":" + (Write(m.val) + post);
    assert WriteMember(m) + post == WriteString(m.key) + tail;
    KeyRoundTrip(m.key, tail);
    ExpectHere('"', Escaped(m.key) + "\"" + tail);
    ExpectHere(':', Write(m.val) + post);
    RoundTrip(m.val, post, strtod);
  }

  lemma MembersText(members: seq<Member>, post: Bytes)
    requires members != []
    ensures |members| == 1 ==> WriteMembers(members) + post == WriteMember(members[0]) + post
    ensures |members| > 1 ==>
      WriteMembers(members) + post == WriteMember(members[0]) + ("," + (WriteMembers(members[1..]) + post))
  {
    hide WriteMember;
    if |members| > 1 {
      Regroup(WriteMember(members[0]), ",", WriteMembers(members[1..]), post);
    }
  }

  lemma MembersStep(s: Bytes, acc: seq<Member>, m: Member, c: Byte, post: Bytes, strtod: Bytes -> bool)
    requires ParseMember(s, strtod) == Ok(m, [c] + post) && !IsSpace(c)
    ensures c == ',' ==> Members(s, acc, strtod) == Members(post, Put(acc, m), strtod)
    ensures c == '}' ==> Members(s, acc, strtod) == Ok(Obj(Put(acc, m)), post)
  {
    hide ParseMember, Expect, Put;
    ExpectHere(c, post);
  }

  lemma AscendingStart(acc: seq<Member>, m: Member, more: seq<Member>)
    requires KeysAscend(acc + ([m] + more))
    ensures KeysAscend(acc + [m])
  {
    hide Less;
    var all := acc + ([m] + more);
    forall i | 0 < i < |acc + [m]| ensures Less((acc + [m])[i - 1].key, (acc + [m])[i].key) {
      assert (acc + [m])[i - 1] == all[i - 1] && (acc + [m])[i] == all[i];
    }
  }

  lemma {:induction false} MembersRoundTrip(members: seq<Member>, acc: seq<Member>, post: Bytes, strtod: Bytes -> bool)
    requires members != [] && KeysAscend(acc + members)
    requires forall i :: 0 <= i < |members| ==> Plain(members[i].val)
    ensures Members(WriteMembers(members) + ("}" + post), acc, strtod) == Ok(Obj(acc + members), post)
    decreases members, 1
  {
    hide ParseMember, WriteMember, Expect, Plain, Put, KeysAscend, Members, WriteMembers;
    var m, s := members[0], WriteMembers(members) + ("}" + post);
    assert members == [m] + members[1..];
    AscendingStart(acc, m, members[1..]);
    PutLast(acc, m);
    MembersText(members, "}" + post);
    if |members| == 1 {
      MemberRoundTrip(m, "}" + post, strtod);
      MembersStep(s, acc, m, '}', post, strtod);
      assert acc + [m] == acc + members;
    } else {
      var tail := WriteMembers(members[1..]) + ("}" + post);
      MemberRoundTrip(m, "," + tail, strtod);
      MembersStep(s, acc, m, ',', tail, strtod);
      assert acc + [m] + members[1..] == acc + members;
      MembersRoundTrip(members[1..], acc + [m], post, strtod);
    }
  }

  // What the parser can return at all.

  predicate Ordered(v: Value) {
    match v
    case Arr(items) => forall i :: 0 <= i < |items| ==> Ordered(items[i])
    case Obj(members) => KeysAscend(members) && forall i :: 0 <= i < |members| ==> Ordered(members[i].val)
    case _ => true
  }

  predicate NumberFree(v: Value) {
    match v
    case Num(_) => false
    case Arr(items) => forall i :: 0 <= i < |items| ==> NumberFree(items[i])
    case Obj(members) => forall i :: 0 <= i < |members| ==> NumberFree(members[i].val)
    case _ => true
  }

  predicate OrderedMembers(ms: seq<Member>) {
    KeysAscend(ms) && forall i :: 0 <= i < |ms| ==> Ordered(ms[i].val)
  }

  lemma {:induction false} LessTotal(a: Bytes, b: Bytes)
    ensures Less(a, b) || a == b || Less(b, a)
    decreases |a|
  {
    if a != [] && b != [] && a[0] == b[0] {
      LessTotal(a[1..], b[1..]);
      assert a == [a[0]] + a[1..] && b == [b[0]] + b[1..];
    }
  }

  /** Storing into a map in key order: still in order, the key holds the value, other keys are as before. */
  lemma {:induction false} PutStores(ms: seq<Member>, m: Member)
    requires OrderedMembers(ms) && Ordered(m.val)
    ensures OrderedMembers(Put(ms, m)) && m in Put(ms, m)
    ensures forall x: Member :: x.key != m.key ==> (x in Put(ms, m) <==> x in ms)
    ensures Put(ms, m)[0] == m || (ms != [] && Put(ms, m)[0] == ms[0] && Less(ms[0].key, m.key))
    decreases |ms|
  {
    hide Ordered, Less;
    if ms == [] {
      InFront(m, []);
    } else if Less(m.key, ms[0].key) {
      hide Put;
      PutInFront(ms, m);
      InFront(m, ms);
      OrderedInFront(m, ms);
    } else {
      InFront(ms[0], ms[1..]);
      OrderedRest(ms);
      if m.key == ms[0].key {
        InFront(m, ms[1..]);
        OrderedInFront(m, ms[1..]);
      } else {
        LessTotal(m.key, ms[0].key);
        PutStores(ms[1..], m);
        InFront(ms[0], Put(ms[1..], m));
        OrderedInFront(ms[0], Put(ms[1..], m));
      }
    }
  }

  lemma PutInFront(ms: seq<Member>, m: Member)
    requires ms != [] && Less(m.key, ms[0].key)
    ensures Put(ms, m) == [m] + ms
  {
  }

  lemma InFront(m: Member, t: seq<Member>)
    ensures ([m] + t)[0] == m && ([m] + t)[1..] == t
    ensures forall x :: x in [m] + t <==> x == m || x in t
  {
  }

  lemma OrderedInFront(m: Member, t: seq<Member>)
    requires OrderedMembers(t) && Ordered(m.val) && (t != [] ==> Less(m.key, t[0].key))
    ensures OrderedMembers([m] + t)
  {
    hide Ordered, Less;
    var p := [m] + t;
    forall i | 0 < i < |p| ensures Less(p[i - 1].key, p[i].key) {
      if 1 < i { assert p[i - 1] == t[i - 2] && p[i] == t[i - 1]; }
    }
    forall i | 0 <= i < |p| ensures Ordered(p[i].val) {
      if 0 < i { assert p[i] == t[i - 1]; }
    }
  }

  lemma OrderedRest(ms: seq<Member>)
    requires OrderedMembers(ms) && ms != []
    ensures OrderedMembers(ms[1..]) && Ordered(ms[0].val) && ms == [ms[0]] + ms[1..]
    ensures 1 < |ms| ==> Less(ms[0].key, ms[1..][0].key)
  {
    hide Ordered, Less;
    var t := ms[1..];
    forall i | 0 < i < |t| ensures Less(t[i - 1].key, t[i].key) {
      assert t[i - 1] == ms[i] && t[i] == ms[i + 1];
    }
  }

  /** Whatever the parser accepts, objects come out in key order. */
  lemma {:induction false} ParseOrdered(s: Bytes, strtod: Bytes -> bool)
    requires Parse(s, strtod).Ok?
    ensures Ordered(Parse(s, strtod).val)
    decreases |s|, 2
  {
    hide Expect, StringBody, Match, Items, Members, Number;
    var t := SkipSpace(s);
    if t[0] == '[' {
      var e := Expect(t[1..], ']');
      if e.Bad? { ItemsOrdered(e.rest, [], strtod); }
    } else if t[0] == '{' {
      var e := Expect(t[1..], '}');
      if e.Bad? { MembersOrdered(e.rest, [], strtod); }
    } else {
      NumberOrdered(t, strtod);
    }
  }

  lemma NumberOrdered(s: Bytes, strtod: Bytes -> bool)
    ensures Number(s, strtod).Ok? ==> Ordered(Number(s, strtod).val)
  {
  }

  lemma {:induction false} ItemsOrdered(s: Bytes, acc: seq<Value>, strtod: Bytes -> bool)
    requires Items(s, acc, strtod).Ok? && forall i :: 0 <= i < |acc| ==> Ordered(acc[i])
    ensures Ordered(Items(s, acc, strtod).val)
    decreases |s|, 3
  {
    hide Parse, Expect;
    ParseOrdered(s, strtod);
    var v := Parse(s, strtod);
    var e := Expect(v.rest, ',');
    if e.Ok? { ItemsOrdered(e.rest, acc + [v.val], strtod); }
  }

  lemma {:induction false} MembersOrdered(s: Bytes, acc: seq<Member>, strtod: Bytes -> bool)
    requires Members(s, acc, strtod).Ok? && OrderedMembers(acc)
    ensures Ordered(Members(s, acc, strtod).val)
    decreases |s|, 4
  {
    hide ParseMember, Expect, Put;
    MemberOrdered(s, strtod);
    var m := ParseMember(s, strtod);
    PutStores(acc, m.val);
    var e := Expect(m.rest, ',');
    if e.Ok? { MembersOrdered(e.rest, Put(acc, m.val), strtod); }
  }

  lemma {:induction false} MemberOrdered(s: Bytes, strtod: Bytes -> bool)
    requires ParseMember(s, strtod).Ok?
    ensures Ordered(ParseMember(s, strtod).val.val)
    decreases |s|, 3
  {
    hide Parse, Expect, StringBody;
    var q := Expect(s, '"');
    var k := StringBody(q.rest, []);
    ParseOrdered(Expect(k.rest, ':').rest, strtod);
  }

  lemma {:induction false} OrderedNumberFree(v: Value)
    requires Ordered(v) && NumberFree(v)
    ensures Plain(v)
  {
    match v
    case Arr(items) => forall i | 0 <= i < |items| ensures Plain(items[i]) { OrderedNumberFree(items[i]); }
    case Obj(members) =>
      forall i | 0 <= i < |members| ensures Plain(members[i].val) { OrderedNumberFree(members[i].val); }
    case _ =>
  }

  /**
   * Every text the parser accepts as a number-free value can be normalised: printing what was
   * parsed and parsing that again gives the same value, and uses up exactly the printed text.
   */
  lemma Normalise(text: Bytes, strtod: Bytes -> bool)
    requires Parse(text, strtod).Ok? && NumberFree(Parse(text, strtod).val)
    ensures var v := Parse(text, strtod).val; Parse(Write(v), strtod) == Ok(v, [])
  {
    hide Parse, Write, Plain, NumberFree, Ordered;
    ParseOrdered(text, strtod);
    var v := Parse(text, strtod).val;
    OrderedNumberFree(v);
    RoundTrip(v, [], strtod);
    assert Write(v) + [] == Write(v);
  }
}
