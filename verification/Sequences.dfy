/** Sequence vocabulary shared by the models. */
module Sequences {

  datatype Option<+T> = None | Some(value: T)

  ghost predicate NoDup<T>(s: seq<T>) {
    forall i, j :: 0 <= i < j < |s| ==> s[i] != s[j]
  }

  /** The first position of x. */
  ghost function IndexOf<T>(s: seq<T>, x: T): (i: nat)
    requires x in s
    ensures i < |s| && s[i] == x
  {
    FirstExists(s, x);
    var i: nat :| i < |s| && s[i] == x && x !in s[..i];
    i
  }

  lemma {:induction false} FirstExists<T>(s: seq<T>, x: T)
    requires x in s
    ensures exists i: nat :: i < |s| && s[i] == x && x !in s[..i]
    decreases |s|
  {
    var n := |s| - 1;
    if x in s[..n] {
      FirstExists(s[..n], x);
      var i: nat :| i < n && s[..n][i] == x && x !in s[..n][..i];
      assert s[..n][..i] == s[..i];
    } else {
      assert s == s[..n] + [s[n]];
    }
  }

  lemma IndexOfFirst<T>(s: seq<T>, i: nat)
    requires i < |s| && s[i] !in s[..i]
    ensures IndexOf(s, s[i]) == i
  {
  }

  /** The sequence with x, if present, taken out. */
  ghost function Without<T>(s: seq<T>, x: T): seq<T> {
    if x in s then s[..IndexOf(s, x)] + s[IndexOf(s, x) + 1..] else s
  }

  ghost function InsertAt<T>(s: seq<T>, k: nat, x: T): seq<T>
    requires k <= |s|
  {
    s[..k] + [x] + s[k..]
  }

  lemma IndexOfUnique<T>(s: seq<T>, i: nat)
    requires NoDup(s) && i < |s|
    ensures IndexOf(s, s[i]) == i
  {
  }

  lemma WithoutNoDup<T>(s: seq<T>, x: T)
    requires NoDup(s)
    ensures NoDup(Without(s, x)) && x !in Without(s, x)
    ensures forall y :: y in Without(s, x) <==> y in s && y != x
  {
    if x in s {
      var k := IndexOf(s, x);
      var w := Without(s, x);
      forall y ensures y in w <==> y in s && y != x {
        if y in s && y != x {
          var i := IndexOf(s, y);
          assert w[if i < k then i else i - 1] == y;
        }
      }
    }
  }

  lemma InsertAtNoDup<T>(s: seq<T>, k: nat, x: T)
    requires NoDup(s) && x !in s && k <= |s|
    ensures NoDup(InsertAt(s, k, x))
    ensures forall y :: y in InsertAt(s, k, x) <==> y in s || y == x
  {
    var t := InsertAt(s, k, x);
    assert t[k] == x;
    forall y ensures y in t <==> y in s || y == x {
      if y in s {
        var i := IndexOf(s, y);
        assert t[if i < k then i else i + 1] == y;
      }
    }
  }

  lemma InsertThenTakeOut<T>(s: seq<T>, k: nat, x: T)
    requires NoDup(s) && x !in s && k <= |s|
    ensures Without(InsertAt(s, k, x), x) == s
  {
    InsertAtIndex(s, k, x, x);
  }

  /** The neighbours of x. */
  ghost function PrevIn<T>(s: seq<T>, x: T): Option<T> {
    if x in s && IndexOf(s, x) > 0 then Some(s[IndexOf(s, x) - 1]) else None
  }

  ghost function NextIn<T>(s: seq<T>, x: T): Option<T> {
    if x in s && IndexOf(s, x) + 1 < |s| then Some(s[IndexOf(s, x) + 1]) else None
  }

  lemma WithoutSiblings<T>(s: seq<T>, c: T, n: T)
    requires NoDup(s) && n in s
    ensures var t := Without(s, c);
      && (n != c ==> PrevIn(t, n) == if c in s && Some(n) == NextIn(s, c) then PrevIn(s, c) else PrevIn(s, n))
      && (n != c ==> NextIn(t, n) == if c in s && Some(n) == PrevIn(s, c) then NextIn(s, c) else NextIn(s, n))
      && (n == c ==> |t| == |s| - 1)
  {
    if c in s && n != c {
      var k, i, t := IndexOf(s, c), IndexOf(s, n), Without(s, c);
      WithoutNoDup(s, c);
      IndexOfUnique(t, if i < k then i else i - 1);
    }
  }

  lemma InsertAtIndex<T>(s: seq<T>, k: nat, c: T, n: T)
    requires NoDup(s) && c !in s && k <= |s| && (n in s || n == c)
    ensures n in InsertAt(s, k, c)
    ensures IndexOf(InsertAt(s, k, c), n)
         == if n == c then k else if IndexOf(s, n) < k then IndexOf(s, n) else IndexOf(s, n) + 1
  {
    var t := InsertAt(s, k, c);
    var i := if n == c then k else if IndexOf(s, n) < k then IndexOf(s, n) else IndexOf(s, n) + 1;
    assert t[i] == n;
    var j := IndexOf(t, n);
    assert n == c ==> j == k;
    assert j != k ==> s[if j < k then j else j - 1] == n;
  }

  lemma InsertAtPrev<T>(s: seq<T>, k: nat, c: T, n: T)
    requires NoDup(s) && c !in s && k <= |s| && (n in s || n == c)
    ensures PrevIn(InsertAt(s, k, c), n) ==
      if n == c then (if k == 0 then None else Some(s[k - 1]))
      else if k < |s| && n == s[k] then Some(c) else PrevIn(s, n)
  {
    InsertAtIndex(s, k, c, n);
    if n != c {
      var i := IndexOf(s, n);
      if k < |s| { IndexOfUnique(s, k); }
      assert i > k ==> InsertAt(s, k, c)[i] == s[i - 1];
    }
  }

  lemma InsertAtNext<T>(s: seq<T>, k: nat, c: T, n: T)
    requires NoDup(s) && c !in s && k <= |s| && (n in s || n == c)
    ensures NextIn(InsertAt(s, k, c), n) ==
      if n == c then (if k == |s| then None else Some(s[k]))
      else if k > 0 && n == s[k - 1] then Some(c) else NextIn(s, n)
  {
    InsertAtIndex(s, k, c, n);
    if n != c {
      var i := IndexOf(s, n);
      if k > 0 { IndexOfUnique(s, k - 1); }
      assert i >= k && i + 1 < |s| ==> InsertAt(s, k, c)[i + 2] == s[i + 1];
    }
  }

  /** a stands before b. */
  ghost predicate Before<T>(s: seq<T>, a: T, b: T) {
    exists i, j :: 0 <= i < j < |s| && s[i] == a && s[j] == b
  }

  lemma BeforeEmbeds<T>(u: seq<T>, s: seq<T>, v: seq<T>, a: T, b: T)
    requires Before(s, a, b)
    ensures Before(u + s + v, a, b)
  {
    var i, j :| 0 <= i < j < |s| && s[i] == a && s[j] == b;
    var t := u + s + v;
    assert t[|u| + i] == a && t[|u| + j] == b;
  }

  lemma BeforeConcat<T>(s: seq<T>, t: seq<T>, a: T, b: T)
    requires a in s && b in t
    ensures Before(s + t, a, b)
  {
    var i, j := IndexOf(s, a), IndexOf(t, b);
    assert (s + t)[i] == a && (s + t)[|s| + j] == b;
  }

  lemma {:induction false} SubsetSize<T>(s: set<T>, t: set<T>)
    requires s <= t
    ensures |s| <= |t|
  {
    if s != {} {
      var x :| x in s;
      SubsetSize(s - {x}, t - {x});
    }
  }
}
