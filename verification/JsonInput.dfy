/**
 * picojson as it runs: the input with its one byte of pushback, the recursive parser over it,
 * and the serializer that appends to a string. Each is tied to its function in Json.
 */
module JsonInput {
  import opened Json

  ghost function Newlines(s: Bytes): nat {
    if s == [] then 0 else Newlines(s[..|s| - 1]) + if s[|s| - 1] as int == 10 then 1 else 0
  }

  function CloseArray(s: Bytes, a: seq<Value>): Step<Value> {
    var c := Expect(s, ']');
    if c.Ok? then Ok(Arr(a), c.rest) else Bad(c.rest)
  }

  function CloseObject(s: Bytes, o: seq<Member>): Step<Value> {
    var c := Expect(s, '}');
    if c.Ok? then Ok(Obj(o), c.rest) else Bad(c.rest)
  }

  lemma QuadStart()
    ensures QuadState(4, 0)
  {
  }

  lemma QuadStep(s: Bytes, n: int, u: int)
    requires QuadState(n, u) && n > 0
    ensures s == [] || HexValue(s[0]) == -1 ==> QuadHex(s, n, u) == Bad(s)
    ensures s != [] && HexValue(s[0]) != -1 ==>
      QuadState(n - 1, u * 16 + HexValue(s[0])) && QuadHex(s, n, u) == QuadHex(s[1..], n - 1, u * 16 + HexValue(s[0]))
  {
  }

  lemma QuadDone(s: Bytes, u: int)
    requires QuadState(0, u)
    ensures QuadHex(s, 0, u) == Ok(u, s)
  {
  }

  /** What parse reports behind "near: ": the rest of the line without control bytes. */
  function Near(s: Bytes): Bytes {
    if s == [] || s[0] as int == 10 then [] else (if s[0] >= ' ' then [s[0]] else []) + Near(s[1..])
  }

  /** What lies behind the next newline. */
  function AfterLine(s: Bytes): (r: Bytes)
    ensures |r| <= |s|
  {
    if s == [] then [] else if s[0] as int == 10 then s[1..] else AfterLine(s[1..])
  }

  /** The line counter once p bytes are taken: a newline counts when the byte behind it is taken. */
  ghost function LineAt(text: Bytes, p: nat): nat
    requires p <= |text|
  {
    1 + Newlines(if p == 0 then [] else text[..p - 1])
  }

  /** Reading one byte of s, or nothing at its end, leaves rest. */
  ghost predicate Reads(s: Bytes, ch: int, rest: Bytes) {
    if s == [] then ch == -1 && rest == [] else ch == s[0] as int && rest == s[1..]
  }

  /** What is left after a byte has been read and pushed back. */
  lemma PutBack(before: Bytes, ch: int, rest: Bytes, after: Bytes)
    requires Reads(before, ch, rest) && if ch == -1 then after == rest else Reads(after, ch, rest)
    ensures before == after && (ch == -1 <==> before == [])
  {
    if ch != -1 { assert before == [before[0]] + rest == after; }
  }

  /** The bytes num of a number have been taken from all, and rest is left. */
  ghost predicate Taken(all: Bytes, num: Bytes, rest: Bytes) {
    all == num + rest && NumberRun(all) == |num| + NumberRun(rest)
  }

  lemma NoneTaken(all: Bytes)
    ensures Taken(all, [], all)
  {
    hide NumberRun;
    assert all == [] + all;
  }

  predicate IsNumberCode(ch: int) { 48 <= ch <= 57 || ch == 43 || ch == 45 || ch == 46 || ch == 101 || ch == 69 }

  lemma OneTaken(all: Bytes, num: Bytes, rest: Bytes, ch: int, after: Bytes)
    requires Taken(all, num, rest) && IsNumberCode(ch) && Reads(rest, ch, after)
    ensures 0 <= ch < 256 && Taken(all, num + [B(ch)], after) && |after| < |rest|
  {
    assert num + rest == num + [rest[0]] + rest[1..];
  }

  /** The run of number bytes is taken, and it ends there. */
  ghost predicate TakenWhole(all: Bytes, num: Bytes, rest: Bytes) {
    all == num + rest && NumberRun(all) == |num|
  }

  lemma AllTaken(all: Bytes, num: Bytes, rest: Bytes, ch: int, after: Bytes)
    requires Taken(all, num, rest) && !IsNumberCode(ch) && Reads(rest, ch, after)
    ensures TakenWhole(all, num, rest)
  {
  }

  lemma NumberTaken(all: Bytes, num: Bytes, rest: Bytes, strtod: Bytes -> bool)
    requires TakenWhole(all, num, rest)
    ensures Number(all, strtod) == if strtod(num) then Ok(Num(num), rest) else Bad(rest)
  {
    assert all[..|num|] == num && all[|num|..] == rest;
  }

  class Input {
    const text: Bytes
    var cur: nat
    var lastCh: int
    var ungot: bool
    var line: nat

    ghost predicate Valid()
      reads this
    {
      && cur <= |text|
      && (lastCh != -1 ==> cur > 0 && lastCh == text[cur - 1] as int)
      && (lastCh == -1 ==> !ungot && (cur == 0 || cur == |text|))
      && line == LineAt(text, cur)
    }

    /** The bytes a reader has still to see. */
    ghost function Rest(): Bytes
      requires Valid()
      reads this
    {
      text[if ungot then cur - 1 else cur..]
    }

    constructor (text: Bytes)
      ensures this.text == text && Valid() && Rest() == text && !ungot
    {
      this.text := text;
      cur, lastCh, ungot, line := 0, -1, false, 1;
    }

    /** The next byte, or -1 at the end. */
    method GetC() returns (ch: int)
      requires Valid()
      modifies this
      ensures Valid() && !ungot && lastCh == ch
      ensures Reads(old(Rest()), ch, Rest())
    {
      if ungot {
        ungot := false;
        return lastCh;
      }
      if cur == |text| {
        lastCh := -1;
        return -1;
      }
      if lastCh == 10 {
        line := line + 1;
      }
      assert cur > 0 ==> text[..cur][..cur - 1] == text[..cur - 1];
      cur := cur + 1;
      lastCh := text[cur - 1] as int;
      ch := lastCh;
    }

    /**
     * Pushes the last byte back, never with a byte already pushed back: what was left before it was read is left again.
     */
    method UngetC(ghost before: Bytes)
      requires Valid() && (lastCh != -1 ==> !ungot) && Reads(before, lastCh, Rest())
      modifies this`ungot
      ensures Valid() && Rest() == before && ungot == (old(ungot) || lastCh != -1)
      ensures lastCh == -1 <==> before == []
    {
      if lastCh != -1 {
        assert !ungot;
        ghost var after := Rest();
        ungot := true;
        PutBack(before, lastCh, after, Rest());
      }
    }

    method SkipWs()
      requires Valid()
      modifies this
      ensures Valid() && Rest() == SkipSpace(old(Rest()))
    {
      hide Valid, Rest;
      while true
        invariant Valid() && SkipSpace(Rest()) == SkipSpace(old(Rest()))
        decreases |Rest()|
      {
        ghost var before := Rest();
        var ch := GetC();
        if !(ch == 32 || ch == 9 || ch == 10 || ch == 13) {
          UngetC(before);
          break;
        }
      }
    }

    method ExpectC(c: Byte) returns (ok: bool)
      requires Valid()
      modifies this
      ensures Valid() && ok == Expect(old(Rest()), c).Ok? && Rest() == Expect(old(Rest()), c).rest
      ensures ok ==> !ungot
    {
      hide Valid, Rest, SkipSpace;
      SkipWs();
      ghost var before := Rest();
      var ch := GetC();
      if ch != c as int {
        UngetC(before);
        return false;
      }
      return true;
    }

    method MatchAll(pattern: Bytes) returns (ok: bool)
      requires Valid()
      modifies this
      ensures Valid() && ok == Match(old(Rest()), pattern).Ok? && Rest() == Match(old(Rest()), pattern).rest
      ensures ok && pattern != [] ==> !ungot
    {
      hide Valid, Rest;
      var i := 0;
      while i < |pattern|
        invariant 0 <= i <= |pattern| && Valid() && (i > 0 ==> !ungot)
        invariant Match(Rest(), pattern[i..]) == Match(old(Rest()), pattern)
      {
        ghost var before := Rest();
        var ch := GetC();
        if ch != pattern[i] as int {
          UngetC(before);
          return false;
        }
        i := i + 1;
      }
      return true;
    }

    /** Four hexadecimal digits, or -1. */
    method ParseQuadHex() returns (uni: int)
      requires Valid()
      modifies this
      ensures Valid() && Rest() == QuadHex(old(Rest()), 4, 0).rest
      ensures uni == if QuadHex(old(Rest()), 4, 0).Ok? then QuadHex(old(Rest()), 4, 0).val else -1
    {
      hide Valid, Rest, QuadHex, QuadState;
      uni := 0;
      assert QuadState(4, 0) by { QuadStart(); }
      var i := 0;
      while i < 4
        invariant 0 <= i <= 4 && Valid() && QuadState(4 - i, uni)
        invariant QuadHex(Rest(), 4 - i, uni) == QuadHex(old(Rest()), 4, 0)
      {
        ghost var before := Rest();
        var hex := GetC();
        if hex == -1 {
          QuadStep(before, 4 - i, uni);
          return -1;
        }
        if 48 <= hex <= 57 {
          hex := hex - 48;
        } else if 65 <= hex <= 70 {
          hex := hex - (65 - 10);
        } else if 97 <= hex <= 102 {
          hex := hex - (97 - 10);
        } else {
          UngetC(before);
          QuadStep(before, 4 - i, uni);
          return -1;
        }
        assert hex == HexValue(before[0]);
        QuadStep(before, 4 - i, uni);
        uni := uni * 16 + hex;
        i := i + 1;
      }
      QuadDone(Rest(), uni);
    }

    /** The part of a \u escape behind the u; appends its UTF-8 form. */
    method ParseCodepoint(s: Bytes) returns (ok: bool, out: Bytes)
      requires Valid()
      modifies this
      ensures Valid() && ok == Codepoint(old(Rest())).Ok? && Rest() == Codepoint(old(Rest())).rest
      ensures ok ==> out == s + Codepoint(old(Rest())).val
    {
      hide Valid, Rest, QuadHex;
      out := s;
      var uni := ParseQuadHex();
      if uni == -1 {
        return false, out;
      }
      if 0xd800 <= uni <= 0xdfff {
        if 0xdc00 <= uni {
          return false, out;
        }
        ghost var before := Rest();
        var ch := GetC();
        if ch != 92 {
          UngetC(before);
          return false, out;
        }
        ghost var between := Rest();
        ch := GetC();
        if ch != 117 {
          UngetC(between);
          return false, out;
        }
        assert Rest() == before[2..];
        var second := ParseQuadHex();
        if !(0xdc00 <= second <= 0xdfff) {
          return false, out;
        }
        uni := (uni - 0xd800) * 0x400 + (second - 0xdc00);
        uni := uni + 0x10000;
      }
      if uni < 0x80 {
        out := out + [B(uni)];
      } else {
        if uni < 0x800 {
          out := out + [B(0xc0 + uni / 64)];
        } else {
          if uni < 0x10000 {
            out := out + [B(0xe0 + uni / 4096)];
          } else {
            out := out + [B(0xf0 + uni / 262144)];
            out := out + [B(0x80 + uni / 4096 % 64)];
          }
          out := out + [B(0x80 + uni / 64 % 64)];
        }
        out := out + [B(0x80 + uni % 64)];
      }
      assert out == s + Utf8(uni);
      return true, out;
    }

    method ParseString() returns (ok: bool, out: Bytes)
      requires Valid()
      modifies this
      ensures Valid() && ok == StringBody(old(Rest()), []).Ok? && Rest() == StringBody(old(Rest()), []).rest
      ensures ok ==> out == StringBody(old(Rest()), []).val && !ungot
    {
      hide Valid, Rest, Codepoint;
      out := [];
      while true
        invariant Valid() && StringBody(Rest(), out) == StringBody(old(Rest()), [])
        decreases |Rest()|
      {
        ghost var before := Rest();
        var ch := GetC();
        if ch < 32 {
          UngetC(before);
          return false, out;
        } else if ch == 34 {
          return true, out;
        } else if ch == 92 {
          ch := GetC();
          if ch == -1 {
            return false, out;
          }
          assert Rest() == before[2..];
          if ch == 34 || ch == 92 || ch == 47 {
            out := out + [B(ch)];
          } else if ch == 98 {
            out := out + [B(8)];
          } else if ch == 102 {
            out := out + [B(12)];
          } else if ch == 110 {
            out := out + [B(10)];
          } else if ch == 114 {
            out := out + [B(13)];
          } else if ch == 116 {
            out := out + [B(9)];
          } else if ch == 117 {
            ok, out := ParseCodepoint(out);
            if !ok {
              return false, out;
            }
          } else {
            return false, out;
          }
        } else {
          out := out + [B(ch)];
        }
      }
    }

    /** The loop: the bytes that may stand in a number, up to the first other one, which is pushed back. */
    method TakeNumber() returns (num: Bytes)
      requires Valid()
      modifies this
      ensures Valid() && TakenWhole(old(Rest()), num, Rest()) && (ungot <==> Rest() != [])
    {
      ghost var all := Rest();
      num := [];
      hide *;
      NoneTaken(all);
      while true
        invariant Valid() && Taken(all, num, Rest())
        decreases |Rest()|
      {
        ghost var before := Rest();
        var ch := GetC();
        if IsNumberCode(ch) {
          OneTaken(all, num, before, ch, Rest());
          num := num + [B(ch)];
        } else {
          AllTaken(all, num, before, ch, Rest());
          UngetC(before);
          return;
        }
      }
    }

    method ParseNumber(strtod: Bytes -> bool) returns (ok: bool, out: Value)
      requires Valid()
      modifies this
      ensures Valid() && ok == Number(old(Rest()), strtod).Ok? && Rest() == Number(old(Rest()), strtod).rest
      ensures ok ==> out == Number(old(Rest()), strtod).val
      ensures out.Num? && (ungot <==> Rest() != [])
    {
      hide *;
      ghost var all := Rest();
      var num := TakeNumber();
      NumberTaken(all, num, Rest(), strtod);
      out := Num(num);
      ok := strtod(num);
    }

    /** What is left of the line, without control bytes, for the error message. */
    method RestOfLine() returns (near: Bytes)
      requires Valid()
      modifies this
      ensures Valid() && near == Near(old(Rest())) && Rest() == AfterLine(old(Rest())) && !ungot
    {
      hide Valid, Rest;
      near := [];
      while true
        invariant Valid() && near + Near(Rest()) == Near(old(Rest())) && AfterLine(Rest()) == AfterLine(old(Rest()))
        decreases |Rest()|
      {
        var ch := GetC();
        if ch == -1 || ch == 10 {
          break;
        } else if ch >= 32 {
          near := near + [B(ch)];
        }
      }
    }

    /** The position of the caller's iterator: one past a byte that was pushed back. */
    lemma Where()
      requires Valid()
      ensures cur <= |text| && cur == |text| - |Rest()| + (if ungot then 1 else 0) && line == LineAt(text, cur)
    {
    }

    /** Any value. */
    method ParseValue(strtod: Bytes -> bool) returns (ok: bool, out: Value)
      requires Valid()
      modifies this
      ensures Valid() && ok == Parse(old(Rest()), strtod).Ok? && Rest() == Parse(old(Rest()), strtod).rest
      ensures ok ==> out == Parse(old(Rest()), strtod).val && (ungot <==> out.Num? && Rest() != [])
      decreases |Rest()|, 2
    {
      hide Valid, Rest, StringBody, Match, Items, Members, Number, SkipSpace, Expect;
      SkipWs();
      ghost var t := Rest();
      var ch := GetC();
      out := Null;
      if ch == 110 {
        ok := MatchAll("ull");
      } else if ch == 102 {
        ok := MatchAll("alse");
        out := Bool(false);
      } else if ch == 116 {
        ok := MatchAll("rue");
        out := Bool(true);
      } else if ch == 34 {
        var s;
        ok, s := ParseString();
        out := Str(s);
      } else if ch == 91 {
        ok, out := ParseArray(strtod);
      } else if ch == 123 {
        ok, out := ParseObject(strtod);
      } else if 48 <= ch <= 57 || ch == 45 {
        UngetC(t);
        ok, out := ParseNumber(strtod);
      } else {
        UngetC(t);
        ok := false;
      }
    }

    /** Behind the opening bracket. */
    method ParseArray(strtod: Bytes -> bool) returns (ok: bool, out: Value)
      requires Valid()
      modifies this
      ensures Valid()
      ensures var e := Expect(old(Rest()), ']');
        var p := if e.Ok? then Ok(Arr([]), e.rest) else Items(e.rest, [], strtod);
        ok == p.Ok? && Rest() == p.rest && (ok ==> out == p.val && !out.Num? && !ungot)
      decreases |Rest()|, 4
    {
      hide Valid, Rest, Expect, Parse;
      out := Arr([]);
      ok := ExpectC(']');
      if ok {
        return;
      }
      var a: seq<Value> := [];
      ghost var all := Rest();
      var more := true;
      while more
        invariant Valid() && |Rest()| <= |all| <= |old(Rest())|
        invariant more ==> Items(Rest(), a, strtod) == Items(all, [], strtod)
        invariant !more ==> Items(all, [], strtod) == CloseArray(Rest(), a)
        decreases more, |Rest()|
      {
        ghost var before := Rest();
        var v;
        ok, v := ParseValue(strtod);
        if !ok {
          return;
        }
        a := a + [v];
        more := ExpectC(',');
      }
      out := Arr(a);
      ok := ExpectC(']');
    }

    /** Behind the opening brace. */
    method ParseObject(strtod: Bytes -> bool) returns (ok: bool, out: Value)
      requires Valid()
      modifies this
      ensures Valid()
      ensures var e := Expect(old(Rest()), '}');
        var p := if e.Ok? then Ok(Obj([]), e.rest) else Members(e.rest, [], strtod);
        ok == p.Ok? && Rest() == p.rest && (ok ==> out == p.val && !out.Num? && !ungot)
      decreases |Rest()|, 4
    {
      hide Valid, Rest, Expect, Parse, ParseMember, Put;
      out := Obj([]);
      ok := ExpectC('}');
      if ok {
        return;
      }
      var o: seq<Member> := [];
      ghost var all := Rest();
      var more := true;
      while more
        invariant Valid() && |Rest()| <= |all| <= |old(Rest())|
        invariant more ==> Members(Rest(), o, strtod) == Members(all, [], strtod)
        invariant !more ==> Members(all, [], strtod) == CloseObject(Rest(), o)
        decreases more, |Rest()|
      {
        var m;
        ok, m := ParseOneMember(strtod);
        if !ok {
          return;
        }
        o := Put(o, m);
        more := ExpectC(',');
      }
      out := Obj(o);
      ok := ExpectC('}');
    }

    method ParseOneMember(strtod: Bytes -> bool) returns (ok: bool, m: Member)
      requires Valid()
      modifies this
      ensures Valid() && ok == ParseMember(old(Rest()), strtod).Ok? && Rest() == ParseMember(old(Rest()), strtod).rest
      ensures ok ==> m == ParseMember(old(Rest()), strtod).val
      decreases |Rest()|, 3
    {
      hide Valid, Rest, Expect, Parse, StringBody;
      m := Member([], Null);
      ok := ExpectC('"');
      if !ok {
        return;
      }
      var key;
      ok, key := ParseString();
      if !ok {
        return;
      }
      ok := ExpectC(':');
      if !ok {
        return;
      }
      var val;
      ok, val := ParseValue(strtod);
      m := Member(key, val);
    }
  }

  // The serializer.

  method SerializeString(s: Bytes, out: Bytes) returns (r: Bytes)
    ensures r == out + WriteString(s)
  {
    hide Escape;
    r := out + "\"";
    var i := 0;
    while i < |s|
      invariant 0 <= i <= |s|
      invariant r + Escaped(s[i..]) == out + "\"" + Escaped(s)
    {
      r := r + Escape(s[i]);
      assert s[i..][1..] == s[i + 1..];
      i := i + 1;
    }
    assert s[|s|..] == [];
    assert r == out + "\"" + Escaped(s);
    r := r + "\"";
    assert out + "\"" + Escaped(s) + "\"" == out + WriteString(s);
  }

  method Serialize(v: Value, out: Bytes) returns (r: Bytes)
    ensures r == out + Write(v)
    decreases v, 1
  {
    match v
    case Str(s) => r := SerializeString(s, out);
    case Arr(items) => r := SerializeArray(items, out);
    case Obj(members) => r := SerializeObject(members, out);
    case Null => r := out + "null";
    case Bool(b) => r := out + if b then "true" else "false";
    case Num(l) => r := out + l;
  }

  /** What is left to write of the items from i on, comma included. */
  ghost function ItemsTail(items: seq<Value>, i: nat): Bytes
    requires i <= |items|
  {
    if i == |items| then [] else (if i == 0 then [] else ",") + WriteItems(items[i..])
  }

  lemma ItemsTailStep(items: seq<Value>, i: nat)
    requires i < |items|
    ensures ItemsTail(items, i) == (if i == 0 then [] else ",") + Write(items[i]) + ItemsTail(items, i + 1)
  {
    hide Write;
    assert items[i..][0] == items[i] && items[i..][1..] == items[i + 1..];
  }

  method SerializeArray(items: seq<Value>, out: Bytes) returns (r: Bytes)
    ensures r == out + ("[" + WriteItems(items) + "]")
    decreases items, 0
  {
    hide WriteItems, Write, ItemsTail;
    r := out + "[";
    assert r + ItemsTail(items, 0) == out + "[" + WriteItems(items) by { ItemsTailStart(items); }
    var i := 0;
    while i < |items|
      invariant 0 <= i <= |items|
      invariant r + ItemsTail(items, i) == out + "[" + WriteItems(items)
    {
      ItemsTailStep(items, i);
      if i != 0 {
        r := r + ",";
      }
      r := Serialize(items[i], r);
      i := i + 1;
    }
    ItemsTailStart(items);
    assert r == out + "[" + WriteItems(items);
    r := r + "]";
    assert out + "[" + WriteItems(items) + "]" == out + ("[" + WriteItems(items) + "]");
  }

  lemma ItemsTailStart(items: seq<Value>)
    ensures ItemsTail(items, 0) == WriteItems(items) && ItemsTail(items, |items|) == []
  {
    assert items[0..] == items;
  }

  ghost function MembersTail(members: seq<Member>, i: nat): Bytes
    requires i <= |members|
  {
    if i == |members| then [] else (if i == 0 then [] else ",") + WriteMembers(members[i..])
  }

  lemma MemberText(m: Member)
    ensures WriteMember(m) == WriteString(m.key) + ":" + Write(m.val)
  {
  }

  lemma WriteMembersStep(ms: seq<Member>)
    requires ms != []
    ensures WriteMembers(ms) == WriteMember(ms[0]) + if |ms| == 1 then [] else "," + WriteMembers(ms[1..])
  {
    hide WriteMember;
  }

  lemma MembersTailStep(members: seq<Member>, i: nat)
    requires i < |members|
    ensures MembersTail(members, i) ==
      (if i == 0 then [] else ",") + WriteString(members[i].key) + ":" + Write(members[i].val)
      + MembersTail(members, i + 1)
  {
    hide Write, WriteString, WriteMember, WriteMembers;
    assert members[i..][0] == members[i] && members[i..][1..] == members[i + 1..];
    WriteMembersStep(members[i..]);
    MemberText(members[i]);
    var c: Bytes := if i == 0 then [] else ",";
    Regroup(c, WriteString(members[i].key), ":", Write(members[i].val), MembersTail(members, i + 1));
  }

  lemma Regroup(a: Bytes, b: Bytes, c: Bytes, d: Bytes, e: Bytes)
    ensures a + ((b + c + d) + e) == a + b + c + d + e
  {
  }

  lemma MembersTailStart(members: seq<Member>)
    ensures MembersTail(members, 0) == WriteMembers(members) && MembersTail(members, |members|) == []
  {
    assert members == [] ==> WriteMembers(members) == [];
    hide WriteMembers;
    assert members[0..] == members;
    assert [] + WriteMembers(members) == WriteMembers(members);
  }

  method SerializeObject(members: seq<Member>, out: Bytes) returns (r: Bytes)
    ensures r == out + ("{" + WriteMembers(members) + "}")
    decreases members, 0
  {
    hide WriteMembers, Write, WriteString, MembersTail;
    r := out + "{";
    assert r + MembersTail(members, 0) == out + "{" + WriteMembers(members) by { MembersTailStart(members); }
    var i := 0;
    while i < |members|
      invariant 0 <= i <= |members|
      invariant r + MembersTail(members, i) == out + "{" + WriteMembers(members)
    {
      MembersTailStep(members, i);
      if i != 0 {
        r := r + ",";
      }
      r := SerializeString(members[i].key, r);
      r := r + ":";
      r := Serialize(members[i].val, r);
      i := i + 1;
    }
    MembersTailStart(members);
    assert r == out + "{" + WriteMembers(members);
    r := r + "}";
    assert out + "{" + WriteMembers(members) + "}" == out + ("{" + WriteMembers(members) + "}");
  }

  // The public calls.

  /**
   * pos is the position the caller gets back: behind the value, and one further when a number had to read the byte
   * behind it; after an error, behind the line.
   */
  method ParseText(text: Bytes, strtod: Bytes -> bool) returns (ok: bool, out: Value, line: nat, near: Bytes, pos: nat)
    ensures ok == Parse(text, strtod).Ok? && pos <= |text|
    ensures ok ==> out == Parse(text, strtod).val && near == []
    ensures var stop := |text| - |Parse(text, strtod).rest|;
      ok ==> pos == (if out.Num? && stop < |text| then stop + 1 else stop) && line == LineAt(text, pos)
    ensures !ok ==> near == Near(Parse(text, strtod).rest) && pos == |text| - |AfterLine(Parse(text, strtod).rest)|
    ensures var stop := |text| - |Parse(text, strtod).rest|;
      line == LineAt(text, stop) || (stop < |text| && line == LineAt(text, stop + 1))
  {
    hide Parse, Near, LineAt, Input.Valid, Input.Rest;
    var input := new Input(text);
    ok, out := input.ParseValue(strtod);
    line := input.line;
    input.Where();
    pos := input.cur;
    near := [];
    if !ok {
      near := input.RestOfLine();
      input.Where();
      pos := input.cur;
    }
  }

  /** Printing a number-free value and parsing the text gives the value back and uses up the text. */
  method PrintAndParse(v: Value, strtod: Bytes -> bool) returns (text: Bytes, ok: bool, out: Value, pos: nat)
    requires Plain(v)
    ensures text == Write(v) && ok && out == v && pos == |text|
  {
    text := Serialize(v, []);
    assert [] + Write(v) == Write(v);
    RoundTrip(v, [], strtod);
    assert Write(v) + [] == Write(v);
    var line, near;
    ok, out, line, near, pos := ParseText(text, strtod);
  }
}
