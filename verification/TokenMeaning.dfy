/** What the operations on a token list do: which tokens are there afterwards, and that all others keep their place. */
module TokenMeaning {
  import opened Sequences
  import opened TokenList

  /** The tokens that are not among these, in their order. */
  ghost function But(ts: seq<string>, out: set<string>): seq<string> {
    if ts == [] then [] else (if ts[0] in out then [] else [ts[0]]) + But(ts[1..], out)
  }

  lemma {:induction false} ButMembers(ts: seq<string>, out: set<string>)
    ensures forall t :: t in But(ts, out) <==> t in ts && t !in out
  {
    if ts != [] {
      assert ts == [ts[0]] + ts[1..];
      ButMembers(ts[1..], out);
    }
  }

  lemma {:induction false} ButBoth(ts: seq<string>, a: set<string>, b: set<string>)
    ensures But(But(ts, a), b) == But(ts, a + b)
  {
    if ts != [] {
      var r := But(ts[1..], a);
      ButBoth(ts[1..], a, b);
      assert ([ts[0]] + r)[1..] == r && [] + r == r;
    }
  }

  lemma {:induction false} ButNothing(ts: seq<string>, out: set<string>)
    requires forall t :: t in ts ==> t !in out
    ensures But(ts, out) == ts
  {
    if ts != [] {
      assert ts == [ts[0]] + ts[1..];
      ButNothing(ts[1..], out);
    }
  }

  lemma {:induction false} ButLast(ts: seq<string>, t: string, out: set<string>)
    ensures But(ts + [t], out) == But(ts, out) + if t in out then [] else [t]
  {
    if ts != [] {
      assert (ts + [t])[0] == ts[0] && (ts + [t])[1..] == ts[1..] + [t];
      ButLast(ts[1..], t, out);
    }
  }

  lemma {:induction false} ButNoDup(ts: seq<string>, out: set<string>)
    requires NoDup(ts)
    ensures NoDup(But(ts, out))
  {
    if ts != [] {
      var r := But(ts[1..], out);
      assert ts == [ts[0]] + ts[1..] && ts[0] !in ts[1..];
      ButNoDup(ts[1..], out);
      ButMembers(ts[1..], out);
      assert ts[0] !in r;
      assert NoDup([ts[0]] + r);
    }
  }

  /** Removing a token from a list that names it at most once is leaving it out. */
  lemma {:induction false} RemoveIsBut(ts: seq<string>, t: string)
    requires multiset(ts)[t] <= 1
    ensures RemoveFirst(ts, t) == But(ts, {t})
  {
    if ts != [] {
      assert ts == [ts[0]] + ts[1..];
      if ts[0] == t {
        assert t !in ts[1..];
        ButNothing(ts[1..], {t});
      } else {
        RemoveIsBut(ts[1..], t);
      }
    }
  }

  /** The token that an argument names; none if it is white space. */
  ghost function Named(arg: string): set<string> { if Strip(arg) == "" then {} else {Strip(arg)} }

  lemma AddMeans(ts: seq<string>, arg: string)
    ensures var r := AddOne(ts, arg);
      && (forall t :: t in r <==> t in ts || t in Named(arg)) && ts <= r && |r| <= |ts| + 1
      && But(r, Named(arg)) == But(ts, Named(arg))
  {
    ButLast(ts, Strip(arg), Named(arg));
  }

  lemma RemoveMeans(ts: seq<string>, arg: string)
    requires multiset(ts)[Strip(arg)] <= 1
    ensures RemoveOne(ts, arg) == But(ts, Named(arg))
  {
    if Strip(arg) == "" {
      ButNothing(ts, Named(arg));
    } else {
      RemoveIsBut(ts, Strip(arg));
    }
  }

  /**
   * On a list that names the token at most once, toggling puts it there just if it was not, forcing just if told so,
   * and every other token keeps its place; an argument of white space changes nothing.
   */
  lemma ToggleMeans(ts: seq<string>, arg: string, on: bool)
    requires multiset(ts)[Strip(arg)] <= 1
    ensures var t, r, s := Strip(arg), Applied(ts, Toggle(arg)), Applied(ts, Force(arg, on));
      && But(r, {t}) == But(ts, {t}) && But(s, {t}) == But(ts, {t})
      && (t != "" ==> (t in r <==> t !in ts) && (t in s <==> on)) && (t == "" ==> r == s == ts)
  {
    var t := Strip(arg);
    AddMeans(ts, arg);
    RemoveMeans(ts, arg);
    ButMembers(ts, {t});
    ButBoth(ts, {t}, {t});
    assert {t} + {t} == {t};
  }

  ghost function AllNamed(args: seq<string>): set<string> {
    if args == [] then {} else AllNamed(args[..|args| - 1]) + Named(args[|args| - 1])
  }

  lemma {:induction false} AllNamedIs(args: seq<string>)
    ensures forall t :: t in AllNamed(args) <==> t != "" && exists arg :: arg in args && Strip(arg) == t
  {
    if args != [] {
      var n := |args| - 1;
      assert args == args[..n] + [args[n]];
      AllNamedIs(args[..n]);
      hide Strip;
      assert forall a :: a in args <==> a in args[..n] || a == args[n];
    }
  }

  /** Adding keeps what is there, in front and in its order, and adds each token named that is not. */
  lemma {:induction false} AddAllMeans(ts: seq<string>, args: seq<string>)
    ensures ts <= AddAll(ts, args)
    ensures forall t :: t in AddAll(ts, args) <==> t in ts || t in AllNamed(args)
  {
    if args != [] {
      var n := |args| - 1;
      AddAllMeans(ts, args[..n]);
      AddMeans(AddAll(ts, args[..n]), args[n]);
      hide AddOne, But, Named;
    }
  }

  /** Removing from a list without duplicates leaves out just the tokens named. */
  lemma {:induction false} RemoveAllMeans(ts: seq<string>, args: seq<string>)
    requires NoDup(ts)
    ensures RemoveAll(ts, args) == But(ts, AllNamed(args))
  {
    if args == [] {
      ButNothing(ts, {});
    } else {
      var n := |args| - 1;
      RemoveAllMeans(ts, args[..n]);
      var r := But(ts, AllNamed(args[..n]));
      ButNoDup(ts, AllNamed(args[..n]));
      OnceEach(r, Strip(args[n]));
      RemoveMeans(r, args[n]);
      ButBoth(ts, AllNamed(args[..n]), Named(args[n]));
    }
  }

  lemma {:induction false} OnceEach(ts: seq<string>, t: string)
    requires NoDup(ts)
    ensures multiset(ts)[t] <= 1
  {
    if ts != [] {
      assert ts == [ts[0]] + ts[1..];
      OnceEach(ts[1..], t);
      assert ts[0] !in ts[1..];
    }
  }

  // The names of attributes.

  const CAPITALS := "ABCDEFGHIJKLMNOPQRSTUVWXYZ"
  const SMALL := "abcdefghijklmnopqrstuvwxyz"

  /** A capital letter becomes the small one, and any other character stays. */
  lemma LowerCharMeans(c: char)
    ensures forall i :: 0 <= i < 26 && c == CAPITALS[i] ==> LowerChar(c) == SMALL[i]
    ensures c !in CAPITALS ==> LowerChar(c) == c
  {
    assert forall i :: 0 <= i < 26 ==> CAPITALS[i] as int == 65 + i && SMALL[i] as int == 97 + i;
    if 'A' <= c <= 'Z' {
      assert c == CAPITALS[c as int - 65];
    }
  }

  /** The same letters, capital or small. */
  ghost predicate SameName(s: string, t: string) {
    |s| == |t| && forall i :: 0 <= i < |s| ==> SameLetter(s[i], t[i])
  }

  ghost predicate SameLetter(c: char, d: char) { c == d || exists i :: BothAre(c, d, i) }

  predicate BothAre(c: char, d: char, i: int) {
    0 <= i < 26 && (c == CAPITALS[i] || c == SMALL[i]) && (d == CAPITALS[i] || d == SMALL[i])
  }

  lemma SameLetterIff(c: char, d: char)
    ensures SameLetter(c, d) <==> LowerChar(c) == LowerChar(d)
  {
    Alphabet();
    hide CAPITALS, SMALL;
    if LowerChar(c) == LowerChar(d) && c != d {
      var i := LowerChar(c) as int - 97;
      assert BothAre(c, d, i);
    }
  }

  lemma Alphabet()
    ensures forall i :: 0 <= i < 26 ==> CAPITALS[i] as int == 65 + i && SMALL[i] as int == 97 + i
  {
  }

  lemma SameNameIff(s: string, t: string)
    ensures SameName(s, t) <==> Lower(s) == Lower(t)
  {
    hide SameLetter, LowerChar;
    if |s| == |t| {
      forall i | 0 <= i < |s| ensures SameLetter(s[i], t[i]) <==> Lower(s)[i] == Lower(t)[i] {
        SameLetterIff(s[i], t[i]);
      }
      if Lower(s) == Lower(t) { assert SameName(s, t); }
    } else {
      assert |Lower(s)| != |Lower(t)|;
    }
  }

  /** An attribute that has been set is read under just those names that are the same but for capitals. */
  lemma SetThenRead(attrs: seq<Attr>, name: string, value: string, other: string)
    ensures Lookup(Store(attrs, Lower(name), value), Lower(other))
         == if SameName(name, other) then Some(value) else Lookup(attrs, Lower(other))
  {
    StoreThenLookup(attrs, Lower(name), value, Lower(other));
    SameNameIff(name, other);
  }
}
