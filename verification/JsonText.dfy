/**
 * Which texts the parser takes, and what they mean: strings as pieces, each a byte or an escape, and values as forms,
 * with white space wherever it may stand. Written without the parser's functions.
 */
module JsonText {
  import opened Sequences
  import opened Json

  // UTF-8 as RFC 3629 reads it.

  predicate Trails(c: Byte) { 0x80 <= c as int <= 0xbf }

  /** The scalar value that the bytes stand for, if they are its UTF-8 form. */
  function Decode(b: Bytes): Option<int> {
    if |b| == 1 && b[0] as int <= 0x7f then Some(b[0] as int)
    else if |b| == 2 && 0xc2 <= b[0] as int <= 0xdf && Trails(b[1]) then
      Some((b[0] as int - 0xc0) * 0x40 + (b[1] as int - 0x80))
    else if |b| == 3 && 0xe0 <= b[0] as int <= 0xef && Trails(b[1]) && Trails(b[2]) then
      Checked(((b[0] as int - 0xe0) * 0x40 + (b[1] as int - 0x80)) * 0x40 + (b[2] as int - 0x80), 0x800)
    else if |b| == 4 && 0xf0 <= b[0] as int <= 0xf4 && Trails(b[1]) && Trails(b[2]) && Trails(b[3]) then
      Checked((((b[0] as int - 0xf0) * 0x40 + (b[1] as int - 0x80)) * 0x40 + (b[2] as int - 0x80)) * 0x40
              + (b[3] as int - 0x80), 0x10000)
    else None
  }

  /** Neither longer than it need be, nor a surrogate, nor beyond the last one. */
  function Checked(u: int, least: int): Option<int> { if least <= u && Scalar(u) then Some(u) else None }

  predicate Surrogate(u: int) { 0xd800 <= u <= 0xdfff }

  predicate Scalar(u: int) { 0 <= u < 0x110000 && !Surrogate(u) }

  lemma SixBits(u: int)
    requires 0 <= u
    ensures u == u / 64 * 64 + u % 64 && 0 <= u % 64 < 64
    ensures u / 4096 == u / 64 / 64 && u / 262144 == u / 64 / 64 / 64
  {
  }

  /** The parser's form of every scalar value is the one UTF-8 form of it. */
  lemma Utf8Decodes(u: int, b: Bytes)
    requires Scalar(u)
    ensures Decode(b) == Some(u) <==> b == Utf8(u)
  {
    DecodesBack(u);
    hide Decode, Utf8;
    if Decode(b) == Some(u) { OneForm(u, b); }
  }

  lemma DecodesBack(u: int)
    requires Scalar(u)
    ensures Decode(Utf8(u)) == Some(u)
  {
    SixBits(u);
    SixBits(u / 64);
    SixBits(u / 4096);
  }

  lemma OneForm(u: int, b: Bytes)
    requires Decode(b) == Some(u)
    ensures Scalar(u) && b == Utf8(u)
  {
    if |b| == 2 {
      LastSix(b[0] as int - 0xc0, b[1]);
    } else if |b| == 3 {
      ThreeForm(u, b);
    } else if |b| == 4 {
      FourForm(u, b);
    }
  }

  lemma LastSix(x: int, c: Byte)
    requires 0 <= x && Trails(c)
    ensures var u := x * 64 + (c as int - 0x80); u / 64 == x && 0x80 + u % 64 == c as int
  {
  }

  lemma ThreeForm(u: int, b: Bytes)
    requires Decode(b) == Some(u) && |b| == 3
    ensures Scalar(u) && b == Utf8(u)
  {
    var x := b[0] as int - 0xe0;
    LastSix(x, b[1]);
    LastSix(x * 64 + (b[1] as int - 0x80), b[2]);
    SixBits(u);
  }

  lemma FourForm(u: int, b: Bytes)
    requires Decode(b) == Some(u) && |b| == 4
    ensures Scalar(u) && b == Utf8(u)
  {
    var x := b[0] as int - 0xf0;
    var y := x * 64 + (b[1] as int - 0x80);
    LastSix(x, b[1]);
    LastSix(y, b[2]);
    LastSix(y * 64 + (b[2] as int - 0x80), b[3]);
    SixBits(u);
  }

  // Strings.

  const LOWER: Bytes := "0123456789abcdef"
  const UPPER: Bytes := "0123456789ABCDEF"

  function Digit(n: int, upper: bool): Byte
    requires 0 <= n < 16
  {
    if upper then UPPER[n] else LOWER[n]
  }

  type Code = u: int | 0 <= u < 65536

  type Cases = c: seq<bool> | |c| == 4 witness [false, false, false, false]

  /** A 16-bit unit in four digits, each in either case. */
  function Four(u: Code, cases: Cases): (d: Bytes)
    ensures |d| == 4
  {
    [Digit(u / 4096, cases[0]), Digit(u / 256 % 16, cases[1]), Digit(u / 16 % 16, cases[2]), Digit(u % 16, cases[3])]
  }

  /** A part of a string: a byte as it is, a one-letter escape, an escaped unit, or an escaped pair of surrogates. */
  datatype Piece =
    | Raw(c: Byte)
    | Short(letter: Byte)
    | Unit(u: Code, cases: Cases)
    | Pair(high: Code, low: Code, first: Cases, second: Cases)

  predicate Allowed(p: Piece) {
    match p
    case Raw(c) => c as int >= 0x20 && c != '"' && c != '\\'
    case Short(l) => l in "\"\\/bfnrt"
    case Unit(u, _) => Scalar(u)
    case Pair(h, l, _, _) => 0xd800 <= h <= 0xdbff && 0xdc00 <= l <= 0xdfff
  }

  function PieceText(p: Piece): Bytes {
    match p
    case Raw(c) => [c]
    case Short(l) => ['\\', l]
    case Unit(u, cs) => "\\u" + Four(u, cs)
    case Pair(h, l, cs, ds) => "\\u" + Four(h, cs) + "\\u" + Four(l, ds)
  }

  /** What the parser puts into the string for it. */
  function PieceBytes(p: Piece): Bytes
    requires Allowed(p)
  {
    match p
    case Raw(c) => [c]
    case Short(l) => [B(Unescape(l))]
    case Unit(u, _) => Utf8(u)
    case Pair(h, l, _, _) => Utf8((h - 0xd800) * 0x400 + (l - 0xdc00) + 0x10000)
  }

  /** What it stands for: a byte of its own, or the UTF-8 form of a scalar value. */
  ghost predicate Means(p: Piece, b: Bytes)
    requires Allowed(p)
  {
    match p
    case Raw(c) => b == [c]
    case Short(l) =>
      && |b| == 1 && (l == '"' || l == '\\' || l == '/' ==> b[0] == l)
      && (l == 'b' ==> b[0] as int == 8) && (l == 'f' ==> b[0] as int == 12) && (l == 'n' ==> b[0] as int == 10)
      && (l == 'r' ==> b[0] as int == 13) && (l == 't' ==> b[0] as int == 9)
    case Unit(u, _) => Decode(b) == Some(u)
    case Pair(h, l, _, _) => Decode(b) == Some(0x10000 + 0x400 * (h - 0xd800) + (l - 0xdc00))
  }

  /** Every piece is read as what it stands for, and that determines its bytes. */
  lemma PieceMeans(p: Piece, b: Bytes)
    requires Allowed(p)
    ensures b == PieceBytes(p) <==> Means(p, b)
  {
    hide Decode, Utf8;
    match p
    case Raw(_) =>
    case Short(_) =>
    case Unit(u, _) => Utf8Decodes(u, b);
    case Pair(h, l, _, _) => Utf8Decodes((h - 0xd800) * 0x400 + (l - 0xdc00) + 0x10000, b);
  }

  lemma DigitIs(n: int, upper: bool)
    requires 0 <= n < 16
    ensures HexValue(Digit(n, upper)) == n
  {
  }

  lemma FourRead(u: Code, cases: Cases, post: Bytes)
    ensures QuadHex(Four(u, cases) + post, 4, 0) == Ok(u, post)
  {
    hide QuadHex, HexValue, Digit;
    var a, b, c, d := u / 4096, u / 256 % 16, u / 16 % 16, u % 16;
    DigitIs(a, cases[0]);
    DigitIs(b, cases[1]);
    DigitIs(c, cases[2]);
    DigitIs(d, cases[3]);
    var f := Four(u, cases);
    assert f + post == [f[0]] + ([f[1]] + ([f[2]] + ([f[3]] + post)));
    DigitRead(f[0], [f[1]] + ([f[2]] + ([f[3]] + post)), 4, 0);
    DigitRead(f[1], [f[2]] + ([f[3]] + post), 3, a);
    DigitRead(f[2], [f[3]] + post, 2, a * 16 + b);
    DigitRead(f[3], post, 1, (a * 16 + b) * 16 + c);
    NoDigitsLeft(post, u);
    HexSum(u);
  }

  lemma HexSum(u: int)
    requires 0 <= u
    ensures ((u / 4096 * 16 + u / 256 % 16) * 16 + u / 16 % 16) * 16 + u % 16 == u
  {
    Sixteenths(u);
    OneSixteenth(u);
    OneSixteenth(u / 16);
    OneSixteenth(u / 16 / 16);
  }

  lemma OneSixteenth(u: int)
    requires 0 <= u
    ensures u / 16 * 16 + u % 16 == u
  {
  }

  lemma NoDigitsLeft(post: Bytes, u: int)
    requires 0 <= u < 65536
    ensures QuadHex(post, 0, u) == Ok(u, post)
  {
  }

  /** The part of an escaped unit or pair behind its first u. */
  lemma CodeRead(p: Piece, post: Bytes)
    requires Allowed(p) && (p.Unit? || p.Pair?)
    ensures PieceText(p) + post == "\\u" + (PieceText(p) + post)[2..]
    ensures Codepoint((PieceText(p) + post)[2..]) == Ok(PieceBytes(p), post)
  {
    hide QuadHex, Utf8, Four;
    if p.Unit? {
      FourRead(p.u, p.cases, post);
      assert (PieceText(p) + post)[2..] == Four(p.u, p.cases) + post;
    } else {
      var tail := "\\u" + (Four(p.low, p.second) + post);
      FourRead(p.high, p.first, tail);
      FourRead(p.low, p.second, post);
      assert (PieceText(p) + post)[2..] == Four(p.high, p.first) + tail;
      assert tail[2..] == Four(p.low, p.second) + post;
    }
  }

  lemma PieceRead(p: Piece, post: Bytes, acc: Bytes)
    requires Allowed(p)
    ensures StringBody(PieceText(p) + post, acc) == StringBody(post, acc + PieceBytes(p))
  {
    hide Codepoint, Utf8, Four;
    var s := PieceText(p) + post;
    if p.Raw? {
      assert s[0] == p.c && s[1..] == post;
    } else if p.Short? {
      assert s[0] == '\\' && s[1] == p.letter && s[2..] == post;
    } else {
      CodeRead(p, post);
    }
  }

  predicate AllAllowed(ps: seq<Piece>) { forall p :: p in ps ==> Allowed(p) }

  function PiecesText(ps: seq<Piece>): Bytes {
    if ps == [] then [] else PieceText(ps[0]) + PiecesText(ps[1..])
  }

  function PiecesBytes(ps: seq<Piece>): Bytes
    requires AllAllowed(ps)
  {
    if ps == [] then [] else PieceBytes(ps[0]) + PiecesBytes(ps[1..])
  }

  /** A string written in whatever way is read as what its pieces stand for. */
  lemma {:induction false} StringRead(ps: seq<Piece>, post: Bytes, acc: Bytes)
    requires AllAllowed(ps)
    ensures StringBody(PiecesText(ps) + "\"" + post, acc) == Ok(acc + PiecesBytes(ps), post)
    decreases |ps|
  {
    hide StringBody, PieceText, PieceBytes, Allowed;
    if ps == [] {
      StringEnds(post, acc);
      assert PiecesText(ps) + "\"" + post == "\"" + post && acc + PiecesBytes(ps) == acc;
    } else {
      var tail := PiecesText(ps[1..]) + "\"" + post;
      assert PiecesText(ps) + "\"" + post == PieceText(ps[0]) + tail;
      PieceRead(ps[0], tail, acc);
      StringRead(ps[1..], post, acc + PieceBytes(ps[0]));
      assert acc + PieceBytes(ps[0]) + PiecesBytes(ps[1..]) == acc + PiecesBytes(ps);
    }
  }

  lemma StringEnds(post: Bytes, acc: Bytes)
    ensures StringBody("\"" + post, acc) == Ok(acc, post)
  {
    assert ("\"" + post)[1..] == post;
  }

  // And there is no other string.

  lemma DigitFrom(c: Byte) returns (n: int, upper: bool)
    requires HexValue(c) != -1
    ensures 0 <= n < 16 && n == HexValue(c) && Digit(n, upper) == c
  {
    n, upper := HexValue(c), 'A' <= c <= 'F';
  }

  lemma FourFrom(s: Bytes) returns (cases: Cases)
    requires QuadHex(s, 4, 0).Ok?
    ensures var q := QuadHex(s, 4, 0); s == Four(q.val, cases) + q.rest
  {
    hide QuadHex, HexValue, Digit, Four;
    var a, a0 := DigitFirst(s, 4, 0);
    var b, b0 := DigitFirst(s[1..], 3, a);
    var c, c0 := DigitFirst(s[2..], 2, a * 16 + b);
    var d, d0 := DigitFirst(s[3..], 1, (a * 16 + b) * 16 + c);
    var u: Code := ((a * 16 + b) * 16 + c) * 16 + d;
    NoDigitsLeft(s[4..], u);
    cases := [a0, b0, c0, d0];
    FourOf(a, b, c, d, cases);
    assert s == [s[0], s[1], s[2], s[3]] + s[4..];
  }

  lemma FourOf(a: int, b: int, c: int, d: int, cases: Cases)
    requires 0 <= a < 16 && 0 <= b < 16 && 0 <= c < 16 && 0 <= d < 16
    ensures Four(((a * 16 + b) * 16 + c) * 16 + d, cases)
         == [Digit(a, cases[0]), Digit(b, cases[1]), Digit(c, cases[2]), Digit(d, cases[3])]
  {
    hide Digit;
    LastHex(a, b);
    LastHex(a * 16 + b, c);
    LastHex((a * 16 + b) * 16 + c, d);
    Sixteenths(((a * 16 + b) * 16 + c) * 16 + d);
  }

  lemma LastHex(x: int, d: int)
    requires 0 <= x && 0 <= d < 16
    ensures (x * 16 + d) / 16 == x && (x * 16 + d) % 16 == d
  {
  }

  lemma Sixteenths(u: int)
    requires 0 <= u
    ensures u / 256 == u / 16 / 16 && u / 4096 == u / 16 / 16 / 16
  {
  }

  lemma DigitFirst(s: Bytes, n: int, u: int) returns (d: int, upper: bool)
    requires QuadState(n, u) && 0 < n && QuadHex(s, n, u).Ok?
    ensures s != [] && 0 <= d < 16 && s[0] == Digit(d, upper) && QuadState(n - 1, u * 16 + d)
    ensures QuadHex(s, n, u) == QuadHex(s[1..], n - 1, u * 16 + d)
  {
    d, upper := DigitFrom(s[0]);
  }

  lemma CodeFrom(s: Bytes) returns (p: Piece)
    requires Codepoint(s).Ok?
    ensures Allowed(p) && (p.Unit? || p.Pair?) && "\\u" + s == PieceText(p) + Codepoint(s).rest
    ensures Codepoint(s).val == PieceBytes(p)
  {
    hide QuadHex, Utf8, Four;
    var q := QuadHex(s, 4, 0);
    var cs := FourFrom(s);
    if !(0xd800 <= q.val <= 0xdfff) {
      p := Unit(q.val, cs);
      assert "\\u" + s == PieceText(p) + q.rest;
    } else {
      var t := QuadHex(q.rest[2..], 4, 0);
      var ds := FourFrom(q.rest[2..]);
      p := Pair(q.val, t.val, cs, ds);
      assert q.rest == "\\u" + (Four(t.val, ds) + t.rest);
      assert "\\u" + s == PieceText(p) + t.rest;
    }
  }

  lemma FirstPiece(s: Bytes, acc: Bytes) returns (p: Piece, after: Bytes)
    requires StringBody(s, acc).Ok? && s != [] && s[0] != '"'
    ensures Allowed(p) && s == PieceText(p) + after && |after| < |s|
    ensures StringBody(s, acc) == StringBody(after, acc + PieceBytes(p))
  {
    hide Codepoint, Four, Utf8;
    if s[0] != '\\' {
      p, after := Raw(s[0]), s[1..];
    } else if Unescape(s[1]) != -1 {
      p, after := Short(s[1]), s[2..];
    } else {
      p := CodeFrom(s[2..]);
      after := Codepoint(s[2..]).rest;
      assert s == "\\u" + s[2..];
    }
  }

  /** Every string that the parser takes is made of such pieces: so lone surrogates are refused. */
  lemma {:induction false} StringFrom(s: Bytes, acc: Bytes) returns (ps: seq<Piece>)
    requires StringBody(s, acc).Ok?
    ensures AllAllowed(ps) && s == PiecesText(ps) + "\"" + StringBody(s, acc).rest
    ensures StringBody(s, acc).val == acc + PiecesBytes(ps)
    decreases |s|
  {
    hide *;
    BodyStarts(s, acc);
    if s[0] == '"' {
      ps := [];
      NoPieces();
      assert s == [] + "\"" + StringBody(s, acc).rest && acc + [] == acc;
    } else {
      var p, after := FirstPiece(s, acc);
      var more := StringFrom(after, acc + PieceBytes(p));
      ps := [p] + more;
      OnePieceMore(p, more, acc, StringBody(s, acc).rest);
    }
  }

  lemma BodyStarts(s: Bytes, acc: Bytes)
    requires StringBody(s, acc).Ok?
    ensures s != [] && (s[0] == '"' ==> StringBody(s, acc) == Ok(acc, s[1..]) && s == "\"" + s[1..])
  {
    hide Codepoint;
  }

  lemma NoPieces()
    ensures AllAllowed([]) && PiecesText([]) == [] && PiecesBytes([]) == []
  {
  }

  lemma OnePieceMore(p: Piece, more: seq<Piece>, acc: Bytes, rest: Bytes)
    requires Allowed(p) && AllAllowed(more)
    ensures var ps := [p] + more;
      && AllAllowed(ps) && PieceText(p) + (PiecesText(more) + "\"" + rest) == PiecesText(ps) + "\"" + rest
      && acc + PieceBytes(p) + PiecesBytes(more) == acc + PiecesBytes(ps)
  {
    hide PieceText, PieceBytes, Allowed;
    assert ([p] + more)[1..] == more;
  }

  // Escapes by themselves.

  /** A string of one escape is read as what the escape stands for. */
  lemma EscapeRead(p: Piece, post: Bytes, strtod: Bytes -> bool)
    requires Allowed(p)
    ensures var r := Parse("\"" + PieceText(p) + "\"" + post, strtod);
      r.Ok? && r.val.Str? && Means(p, r.val.s) && r.rest == post
  {
    hide StringBody, Match, Items, Members, Number, Expect, PieceBytes, Means, PieceText;
    var s := "\"" + PieceText(p) + "\"" + post;
    assert PiecesText([p]) == PieceText(p) && PiecesBytes([p]) == PieceBytes(p);
    StringRead([p], post, []);
    assert s[1..] == PiecesText([p]) + "\"" + post;
    assert [] + PieceBytes(p) == PieceBytes(p);
    PieceMeans(p, PieceBytes(p));
  }

  /** A surrogate stands only as the first of a pair. */
  lemma LoneRefused(u: Code, cases: Cases, post: Bytes, acc: Bytes)
    requires Surrogate(u) && StringBody("\\u" + Four(u, cases) + post, acc).Ok?
    ensures u < 0xdc00
    ensures exists low: Code, ds, tail :: 0xdc00 <= low < 0xe000 && post == "\\u" + Four(low, ds) + tail
  {
    hide *;
    var s := "\\u" + Four(u, cases) + post;
    assert s[2..] == Four(u, cases) + post;
    EscapeIsCode(s, acc);
    var p := CodeFrom(s[2..]);
    var rest := Codepoint(s[2..]).rest;
    var first, cs, tail := FirstUnit(p, rest);
    assert ("\\u" + s[2..])[2..] == s[2..];
    assert ("\\u" + (Four(first, cs) + tail))[2..] == Four(first, cs) + tail;
    FourRead(u, cases, post);
    FourRead(first, cs, tail);
    PairOnly(p);
  }

  lemma EscapeIsCode(s: Bytes, acc: Bytes)
    requires StringBody(s, acc).Ok? && |s| > 2 && s[0] == '\\' && s[1] == 'u'
    ensures Codepoint(s[2..]).Ok?
  {
    hide Codepoint;
  }

  lemma FirstUnit(p: Piece, rest: Bytes) returns (u: Code, cs: Cases, tail: Bytes)
    requires p.Unit? || p.Pair?
    ensures PieceText(p) + rest == "\\u" + (Four(u, cs) + tail)
    ensures if p.Unit? then u == p.u else u == p.high && tail == "\\u" + Four(p.low, p.second) + rest
  {
    hide Four;
    u, cs := if p.Unit? then p.u else p.high, if p.Unit? then p.cases else p.first;
    tail := if p.Unit? then rest else "\\u" + Four(p.low, p.second) + rest;
  }

  lemma PairOnly(p: Piece)
    requires Allowed(p)
    ensures p.Unit? ==> !Surrogate(p.u)
    ensures p.Pair? ==> p.high < 0xdc00 && 0xdc00 <= p.low < 0xe000
  {
  }
}
