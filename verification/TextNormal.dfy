/** What the normal form of a text is. */
module TextNormal {
  import opened InputStream

  lemma {:induction false} BomsConcat(a: seq<Unit>, b: seq<Unit>)
    ensures DropBoms(a + b) == DropBoms(a) + DropBoms(b)
  {
    if a == [] { assert a + b == b; } else {
      assert (a + b)[1..] == a[1..] + b;
      BomsConcat(a[1..], b);
    }
  }

  /** A newline of two units is cut apart between a and b. */
  predicate Torn(a: seq<Unit>, b: seq<Unit>) { a != [] && a[|a| - 1] == 13 && b != [] && b[0] == 10 }

  /** How many units the first newline or other unit takes up. */
  function Width(s: seq<Unit>): nat { if |s| > 1 && s[0] == 13 && s[1] == 10 then 2 else 1 }

  lemma NewlinesStep(s: seq<Unit>)
    requires s != []
    ensures Width(s) <= |s|
    ensures UnifyNewlines(s) == [if s[0] == 13 then 10 else s[0]] + UnifyNewlines(s[Width(s)..])
  {
  }

  lemma NoNewlines()
    ensures UnifyNewlines([]) == []
  {
  }

  lemma {:induction false} NewlinesConcat(a: seq<Unit>, b: seq<Unit>)
    requires !Torn(a, b)
    ensures UnifyNewlines(a + b) == UnifyNewlines(a) + UnifyNewlines(b)
    decreases |a|
  {
    hide UnifyNewlines;
    NoNewlines();
    if a == [] { assert a + b == b && [] + UnifyNewlines(b) == UnifyNewlines(b); } else {
      var k := Width(a);
      NewlinesStep(a);
      NewlinesStep(a + b);
      assert (a + b)[k..] == a[k..] + b;
      assert Width(a + b) == k;
      NewlinesConcat(a[k..], b);
    }
  }

  lemma {:induction false} NulsConcat(a: seq<Unit>, b: seq<Unit>)
    ensures ReplaceNuls(a + b) == ReplaceNuls(a) + ReplaceNuls(b)
  {
    if a == [] { assert a + b == b; } else {
      assert (a + b)[1..] == a[1..] + b;
      NulsConcat(a[1..], b);
    }
  }

  /** Unless a newline is torn apart, a text is made normal part by part. */
  lemma NormalConcat(a: seq<Unit>, b: seq<Unit>)
    requires !Torn(DropBoms(a), DropBoms(b))
    ensures Normal(a + b) == Normal(a) + Normal(b)
  {
    BomsConcat(a, b);
    NewlinesConcat(DropBoms(a), DropBoms(b));
    NulsConcat(UnifyNewlines(DropBoms(a)), UnifyNewlines(DropBoms(b)));
  }

  predicate Clean(s: seq<Unit>) { forall c :: c in s ==> c != 13 && c != 0 && c != 0xFEFF }

  lemma {:induction false} NoBoms(s: seq<Unit>)
    ensures forall c :: c in DropBoms(s) <==> c in s && c != 0xFEFF
  {
    if s != [] { NoBoms(s[1..]); }
  }

  lemma {:induction false} NoReturns(s: seq<Unit>)
    ensures forall c :: c in UnifyNewlines(s) ==> c != 13 && (c in s || c == 10)
    decreases |s|
  {
    if s != [] { NoReturns(if s[0] == 13 && |s| > 1 && s[1] == 10 then s[2..] else s[1..]); }
  }

  lemma {:induction false} NoNuls(s: seq<Unit>)
    ensures forall c :: c in ReplaceNuls(s) ==> c != 0 && (c in s || c == 0xFFFD)
  {
    if s != [] { NoNuls(s[1..]); }
  }

  /** A normal text holds no carriage return, no NUL and no byte order mark. */
  lemma NormalClean(s: seq<Unit>)
    ensures Clean(Normal(s))
  {
    NoBoms(s);
    NoReturns(DropBoms(s));
    NoNuls(UnifyNewlines(DropBoms(s)));
  }

  /** A text without them is normal. */
  lemma {:induction false} CleanIsNormal(s: seq<Unit>)
    requires Clean(s)
    ensures DropBoms(s) == s && UnifyNewlines(s) == s && ReplaceNuls(s) == s && Normal(s) == s
  {
    if s != [] {
      assert s == [s[0]] + s[1..] && s[0] in s && forall c :: c in s[1..] ==> c in s;
      CleanIsNormal(s[1..]);
    }
  }

  lemma NormalOfOne(c: Unit)
    ensures Normal([13, 10]) == [10] && Normal([13]) == [10] && Normal([0]) == [0xFFFD] && Normal([0xFEFF]) == []
    ensures c != 13 && c != 0 && c != 0xFEFF ==> Normal([c]) == [c]
    ensures DropBoms([13, 10]) == [13, 10] && DropBoms([13]) == [13] && DropBoms([0]) == [0]
    ensures DropBoms([c]) == if c == 0xFEFF then [] else [c]
  {
    assert [13, 10][1..] == [10] && [13, 10][2..] == [] && DropBoms([10]) == [10];
    assert UnifyNewlines([13, 10]) == [10] + UnifyNewlines([]);
    assert UnifyNewlines([13]) == [10] + UnifyNewlines([]);
    if c != 13 && c != 0 && c != 0xFEFF { CleanIsNormal([c]); }
  }

  /**
   * Wherever they stand: CR LF is one line feed, and so is a lone CR; NUL is U+FFFD, a byte order mark is nothing, and
   * any other unit is itself.
   */
  lemma EachGives(a: seq<Unit>, c: Unit, b: seq<Unit>)
    ensures Normal(a + [13, 10] + b) == Normal(a) + [10] + Normal(b)
    ensures !Torn([13], DropBoms(b)) ==> Normal(a + [13] + b) == Normal(a) + [10] + Normal(b)
    ensures Normal(a + [0] + b) == Normal(a) + [0xFFFD] + Normal(b)
    ensures Normal(a + [0xFEFF] + b) == Normal(a + b)
    ensures c != 13 && c != 0 && c != 0xFEFF && !Torn(DropBoms(a), [c]) ==>
      Normal(a + [c] + b) == Normal(a) + [c] + Normal(b)
  {
    hide Normal, DropBoms;
    NormalOfOne(c);
    Between(a, [13, 10], b);
    Between(a, [0], b);
    if !Torn([13], DropBoms(b)) { Between(a, [13], b); }
    if c != 13 && c != 0xFEFF && !Torn(DropBoms(a), [c]) { Between(a, [c], b); }
    NormalWithoutBom(a, b);
  }

  lemma Between(a: seq<Unit>, m: seq<Unit>, b: seq<Unit>)
    requires DropBoms(m) == m != [] && !Torn(DropBoms(a), m) && !Torn(m, DropBoms(b))
    ensures Normal(a + m + b) == Normal(a) + Normal(m) + Normal(b)
  {
    hide Normal, DropBoms;
    NormalConcat(a, m);
    BomsConcat(a, m);
    NormalConcat(a + m, b);
  }

  lemma NormalWithoutBom(a: seq<Unit>, b: seq<Unit>)
    ensures Normal(a + [0xFEFF] + b) == Normal(a + b)
  {
    BomsConcat(a + [0xFEFF], b);
    BomsConcat(a, [0xFEFF]);
    BomsConcat(a, b);
    assert DropBoms([0xFEFF]) == [];
    assert DropBoms(a) + [] == DropBoms(a);
    hide UnifyNewlines, ReplaceNuls, DropBoms;
  }
}
