/**
 * The event manager's comparison of two keyboard reports: of their bytes of modifiers, and then a merge of the keys of
 * the last report and of the next one, both ended by 255, that tells which keys went up and which went down.
 */
module KeyMerge {
  import opened Modifiers

  const AUTO_REPEAT_RATE := 4
  const AUTO_REPEAT_DELAY := 20
  const NONE: u8 := 255

  /** What is handed on: a key released, pressed or repeated by the merge, or a modifier told down or up before it. */
  datatype Event =
    | Up(key: u8)
    | Down(key: u8)
    | Again(key: u8)
    | ModifierDown(place: nat)
    | ModifierUp(place: nat)

  /** The nine bytes kept of a report: at most eight of its own, then padding. */
  function Report(data: seq<u8>): (r: seq<u8>)
    ensures |r| == 9 && r[8] == NONE
  {
    var size := if 8 < |data| then 8 else |data|;
    data[..size] + seq(9 - size, _ => NONE)
  }

  function Run(s: seq<u8>): (n: nat)
    ensures n <= |s| && (n < |s| ==> s[n] == NONE) && NONE !in s[..n]
  {
    if s == [] || s[0] == NONE then 0 else
      assert s[..1 + Run(s[1..])] == [s[0]] + s[1..][..Run(s[1..])];
      1 + Run(s[1..])
  }

  /** The keys of a report: what follows the modifiers up to the padding. */
  function Keys(r: seq<u8>): (k: seq<u8>)
    requires |r| == 9
    ensures |k| <= 8 && NONE !in k && k == r[1..1 + |k|] && (|k| < 8 ==> r[1 + |k|] == NONE)
  {
    assert r[1..][..Run(r[1..])] == r[1..1 + Run(r[1..])];
    r[1..][..Run(r[1..])]
  }

  /** No key after the padding has begun. */
  predicate Padded(r: seq<u8>)
    requires |r| == 9
  {
    forall i :: |Keys(r)| < i < 9 ==> r[i] == NONE
  }

  lemma KeysAre(r: seq<u8>)
    requires |r| == 9 && r[8] == NONE
    ensures |Keys(r)| <= 7 && r[1 + |Keys(r)|] == NONE
    ensures forall i :: 0 <= i < |Keys(r)| ==> r[1 + i] == Keys(r)[i] != NONE
  {
    assert forall i :: 0 <= i < |Keys(r)| ==> r[1 + i] == Keys(r)[i];
  }

  predicate Ascending(s: seq<u8>) { forall i, j :: 0 <= i < j < |s| ==> s[i] < s[j] }

  /** The keys of both lists. */
  function Shared(s: seq<u8>, t: seq<u8>): set<u8> { set k | k in s && k in t }

  /** The keys of s that are not shared, in their order. */
  function Own(s: seq<u8>, shared: set<u8>): seq<u8> {
    if s == [] then [] else if s[0] in shared then Own(s[1..], shared) else [s[0]] + Own(s[1..], shared)
  }

  /** The keys of s that are shared, in their order. */
  function Common(s: seq<u8>, shared: set<u8>): seq<u8> {
    if s == [] then [] else if s[0] in shared then [s[0]] + Common(s[1..], shared) else Common(s[1..], shared)
  }

  function Head(s: seq<u8>): u8 { if s == [] then NONE else s[0] }

  /** Each key that is not shared is less than the next shared one. */
  predicate BelowNext(s: seq<u8>, shared: set<u8>) {
    s != [] ==> (s[0] !in shared ==> s[0] < Head(Common(s, shared))) && BelowNext(s[1..], shared)
  }

  /** The shared keys stand in one order, and every other key is less than the shared one that follows it. */
  predicate Aligned(before: seq<u8>, after: seq<u8>) {
    var shared := Shared(before, after);
    Common(before, shared) == Common(after, shared) && BelowNext(before, shared) && BelowNext(after, shared)
  }

  /** What the merge of a with b takes from a alone. */
  function TakenAlone(a: seq<u8>, b: seq<u8>): seq<u8>
    decreases |a| + |b|
  {
    if a == [] then []
    else if a[0] < Head(b) || b == [] then [a[0]] + TakenAlone(a[1..], b)
    else if Head(b) < a[0] then TakenAlone(a, b[1..])
    else TakenAlone(a[1..], b[1..])
  }

  function Ups(es: seq<Event>): seq<u8> {
    if es == [] then []
    else if es[|es| - 1].Up? then Ups(es[..|es| - 1]) + [es[|es| - 1].key]
    else Ups(es[..|es| - 1])
  }

  function Downs(es: seq<Event>): seq<u8> {
    if es == [] then []
    else if es[|es| - 1].Down? then Downs(es[..|es| - 1]) + [es[|es| - 1].key]
    else Downs(es[..|es| - 1])
  }

  function ModifierUps(es: seq<Event>): seq<nat> {
    if es == [] then []
    else if es[|es| - 1].ModifierUp? then ModifierUps(es[..|es| - 1]) + [es[|es| - 1].place]
    else ModifierUps(es[..|es| - 1])
  }

  function ModifierDowns(es: seq<Event>): seq<nat> {
    if es == [] then []
    else if es[|es| - 1].ModifierDown? then ModifierDowns(es[..|es| - 1]) + [es[|es| - 1].place]
    else ModifierDowns(es[..|es| - 1])
  }

  lemma OneMore(es: seq<Event>, e: Event)
    ensures Ups(es + [e]) == if e.Up? then Ups(es) + [e.key] else Ups(es)
    ensures Downs(es + [e]) == if e.Down? then Downs(es) + [e.key] else Downs(es)
    ensures ModifierUps(es + [e]) == if e.ModifierUp? then ModifierUps(es) + [e.place] else ModifierUps(es)
    ensures ModifierDowns(es + [e]) == if e.ModifierDown? then ModifierDowns(es) + [e.place] else ModifierDowns(es)
  {
    assert (es + [e])[..|es|] == es;
  }

  lemma {:induction false} InARow(es: seq<Event>, fs: seq<Event>)
    ensures Ups(es + fs) == Ups(es) + Ups(fs) && Downs(es + fs) == Downs(es) + Downs(fs)
    ensures ModifierUps(es + fs) == ModifierUps(es) + ModifierUps(fs)
    ensures ModifierDowns(es + fs) == ModifierDowns(es) + ModifierDowns(fs)
  {
    if fs == [] {
      assert es + fs == es;
    } else {
      var n := |fs| - 1;
      assert es + fs == (es + fs[..n]) + [fs[n]] && fs == fs[..n] + [fs[n]];
      InARow(es, fs[..n]);
      OneMore(es + fs[..n], fs[n]);
    }
  }

  ghost predicate NoModifiers(es: seq<Event>) { forall e :: e in es ==> !e.ModifierDown? && !e.ModifierUp? }

  lemma KeysMore(es: seq<Event>, e: Event)
    requires NoModifiers(es) && !e.ModifierDown? && !e.ModifierUp?
    ensures NoModifiers(es + [e])
  {
  }

  lemma {:induction false} NoneTold(es: seq<Event>)
    requires NoModifiers(es)
    ensures ModifierUps(es) == [] && ModifierDowns(es) == []
  {
    if es != [] { NoneTold(es[..|es| - 1]); }
  }

  /** The keys of before that after has not got, and the other way round. */
  lemma {:induction false} OwnIsDifference(s: seq<u8>, shared: set<u8>)
    ensures forall k :: k in Own(s, shared) <==> k in s && k !in shared
    ensures Ascending(s) ==> Ascending(Own(s, shared))
  {
    if s != [] {
      OwnIsDifference(s[1..], shared);
      assert forall k :: k in s <==> k == s[0] || k in s[1..];
      var o := Own(s[1..], shared);
      if Ascending(s) {
        forall i | 0 <= i < |o| ensures s[0] < o[i] {
          assert o[i] in s[1..];
        }
      }
    }
  }

  /** Lists no key of which is the padding, when every key of both is among shared. */
  ghost predicate Comparable(a: seq<u8>, b: seq<u8>, shared: set<u8>) {
    NONE !in a && NONE !in b && forall k :: k in a && k in b ==> k in shared
  }

  ghost predicate ExactFrom(a: seq<u8>, b: seq<u8>, shared: set<u8>) {
    TakenAlone(a, b) == Own(a, shared) && TakenAlone(b, a) == Own(b, shared)
  }

  ghost predicate AlignedFrom(a: seq<u8>, b: seq<u8>, shared: set<u8>) {
    Common(a, shared) == Common(b, shared) && BelowNext(a, shared) && BelowNext(b, shared)
  }

  /** The first key of a is taken alone though it is shared: neither exact nor aligned. */
  lemma WrongTake(a: seq<u8>, b: seq<u8>, shared: set<u8>)
    requires Comparable(a, b, shared) && a != [] && (b == [] || a[0] < b[0]) && a[0] in shared
    ensures !ExactFrom(a, b, shared) && !AlignedFrom(a, b, shared)
  {
    OwnIsDifference(a, shared);
    assert TakenAlone(a, b)[0] == a[0] && a[0] !in Own(a, shared);
    assert Common(a, shared)[0] == a[0];
  }

  lemma SameTail(x: u8, s: seq<u8>, t: seq<u8>)
    ensures [x] + s == [x] + t <==> s == t
  {
    assert ([x] + s)[1..] == s && ([x] + t)[1..] == t;
  }

  /** The first key of a is taken alone, and is not shared. */
  lemma RightTake(a: seq<u8>, b: seq<u8>, shared: set<u8>)
    requires Comparable(a, b, shared) && a != [] && (b == [] || a[0] < b[0]) && a[0] !in shared
    ensures ExactFrom(a, b, shared) <==> ExactFrom(a[1..], b, shared)
    ensures AlignedFrom(a, b, shared) <==> AlignedFrom(a[1..], b, shared)
  {
    assert a[0] in a && a[0] != NONE;
    assert b != [] ==> TakenAlone(b, a) == TakenAlone(b, a[1..]);
    SameTail(a[0], TakenAlone(a[1..], b), Own(a[1..], shared));
  }

  lemma BothTaken(a: seq<u8>, b: seq<u8>, shared: set<u8>)
    requires Comparable(a, b, shared) && a != [] && b != [] && a[0] == b[0]
    ensures ExactFrom(a, b, shared) <==> ExactFrom(a[1..], b[1..], shared)
    ensures AlignedFrom(a, b, shared) <==> AlignedFrom(a[1..], b[1..], shared)
  {
    assert a[0] in a && b[0] in b;
    SameTail(a[0], Common(a[1..], shared), Common(b[1..], shared));
  }

  /** From any place in both lists: what is taken alone is what is not shared exactly when what is left is aligned. */
  lemma {:induction false} ExactIffAligned(a: seq<u8>, b: seq<u8>, shared: set<u8>)
    requires Comparable(a, b, shared)
    ensures ExactFrom(a, b, shared) <==> AlignedFrom(a, b, shared)
    decreases |a| + |b|
  {
    hide ExactFrom, AlignedFrom;
    if a == [] && b == [] {
      NothingLeft(shared);
    } else if a != [] && (b == [] || a[0] < b[0]) {
      if a[0] in shared { WrongTake(a, b, shared); } else {
        RightTake(a, b, shared);
        ExactIffAligned(a[1..], b, shared);
      }
    } else if b != [] && (a == [] || b[0] < a[0]) {
      EitherWay(a, b, shared);
      if b[0] in shared { WrongTake(b, a, shared); } else {
        RightTake(b, a, shared);
        EitherWay(a, b[1..], shared);
        ExactIffAligned(a, b[1..], shared);
      }
    } else {
      BothTaken(a, b, shared);
      ExactIffAligned(a[1..], b[1..], shared);
    }
  }

  lemma NothingLeft(shared: set<u8>)
    ensures ExactFrom([], [], shared) && AlignedFrom([], [], shared)
  {
  }

  lemma EitherWay(a: seq<u8>, b: seq<u8>, shared: set<u8>)
    ensures ExactFrom(a, b, shared) <==> ExactFrom(b, a, shared)
    ensures AlignedFrom(a, b, shared) <==> AlignedFrom(b, a, shared)
  {
  }

  lemma {:induction false} CommonMembers(s: seq<u8>, shared: set<u8>)
    ensures forall k :: k in Common(s, shared) <==> k in s && k in shared
  {
    if s != [] {
      CommonMembers(s[1..], shared);
      assert forall k :: k in s <==> k == s[0] || k in s[1..];
    }
  }

  lemma {:induction false} AscendingBelowNext(s: seq<u8>, shared: set<u8>)
    requires Ascending(s) && NONE !in s
    ensures BelowNext(s, shared)
  {
    if s != [] {
      CommonMembers(s[1..], shared);
      assert Head(Common(s[1..], shared)) == NONE || Head(Common(s[1..], shared)) in s[1..];
      assert s[0] in s;
      AscendingBelowNext(s[1..], shared);
    }
  }

  lemma {:induction false} AscendingCommon(a: seq<u8>, b: seq<u8>, shared: set<u8>)
    requires Ascending(a) && Ascending(b) && forall k :: k in shared ==> (k in a <==> k in b)
    ensures Common(a, shared) == Common(b, shared)
    decreases |a| + |b|
  {
    assert a != [] ==> forall k :: k in a <==> k == a[0] || k in a[1..];
    assert b != [] ==> forall k :: k in b <==> k == b[0] || k in b[1..];
    if a != [] && a[0] !in shared {
      AscendingCommon(a[1..], b, shared);
    } else if b != [] && b[0] !in shared {
      AscendingCommon(a, b[1..], shared);
    } else if a != [] && b != [] {
      assert a[0] in b && b[0] in a;
      assert a[0] == b[0];
      AscendingCommon(a[1..], b[1..], shared);
    }
  }

  /** Reports in ascending order are aligned. */
  lemma AscendingAligned(before: seq<u8>, after: seq<u8>)
    requires Ascending(before) && Ascending(after) && NONE !in before && NONE !in after
    ensures Aligned(before, after)
  {
    var shared := Shared(before, after);
    AscendingCommon(before, after, shared);
    AscendingBelowNext(before, shared);
    AscendingBelowNext(after, shared);
  }

  /** Between two reports the merge is true to the keys, whatever their order. */
  ghost predicate Balanced(before: seq<u8>, after: seq<u8>, es: seq<Event>) {
    multiset(after) + multiset(Ups(es)) == multiset(before) + multiset(Downs(es))
  }

  /** Up goes what only the first report has, down what only the second has, each in its order. */
  ghost predicate Exact(before: seq<u8>, after: seq<u8>, es: seq<Event>) {
    Ups(es) == Own(before, Shared(before, after)) && Downs(es) == Own(after, Shared(before, after))
  }

  /** Only a key that is in both reports is repeated; when there is none in either, the padding is. */
  ghost predicate RepeatsHeld(before: seq<u8>, after: seq<u8>, es: seq<Event>) {
    forall e :: e in es && e.Again? ==>
      (e.key in before && e.key in after) || (|before| == |after| == 0 && e.key == NONE)
  }

  /** What a whole merge has sent: balanced always, and exact just when the reports are aligned. */
  ghost predicate Merged(before: seq<u8>, after: seq<u8>, es: seq<Event>) {
    && Balanced(before, after, es) && RepeatsHeld(before, after, es)
    && (Exact(before, after, es) <==> Aligned(before, after))
  }

  lemma AllTaken(before: seq<u8>, after: seq<u8>, es: seq<Event>)
    requires Midway(before, after, |before|, |after|, es)
    ensures Merged(before, after, es)
  {
    assert before[..|before|] == before && after[..|after|] == after;
    assert Ups(es) == TakenAlone(before, after) && Downs(es) == TakenAlone(after, before);
    ExactIffAligned(before, after, Shared(before, after));
  }

  /** The merge has taken c keys of before and d of after, and sent es; what it still takes is told by what is left. */
  ghost predicate Midway(before: seq<u8>, after: seq<u8>, c: nat, d: nat, es: seq<Event>) {
    && c <= |before| && d <= |after| && NONE !in before && NONE !in after
    && Balanced(before[..c], after[..d], es) && RepeatsHeld(before, after, es)
    && ToGo(before, after, before[c..], after[d..], es)
  }

  ghost predicate ToGo(before: seq<u8>, after: seq<u8>, a: seq<u8>, b: seq<u8>, es: seq<Event>) {
    && Ups(es) + TakenAlone(a, b) == TakenAlone(before, after)
    && Downs(es) + TakenAlone(b, a) == TakenAlone(after, before)
  }

  /** The merge takes the first key of a alone, whichever list one asks about. */
  lemma TakesFirst(a: seq<u8>, b: seq<u8>)
    requires a != [] && a[0] != NONE && (b == [] || a[0] < b[0])
    ensures TakenAlone(a, b) == [a[0]] + TakenAlone(a[1..], b) && TakenAlone(b, a) == TakenAlone(b, a[1..])
  {
  }

  lemma Associates<T>(s: seq<T>, t: seq<T>, u: seq<T>)
    ensures s + (t + u) == s + t + u
  {
  }

  lemma Grown<T>(s: seq<T>, t: seq<T>, now: seq<T>)
    requires s + t <= now
    ensures now == s + (t + now[|s + t|..])
  {
  }

  lemma ToGoUp(before: seq<u8>, after: seq<u8>, a: seq<u8>, b: seq<u8>, es: seq<Event>)
    requires ToGo(before, after, a, b, es) && a != [] && a[0] != NONE && (b == [] || a[0] < b[0])
    ensures ToGo(before, after, a[1..], b, es + [Up(a[0])])
  {
    hide TakenAlone, Ups, Downs;
    TakesFirst(a, b);
    OneMore(es, Up(a[0]));
    Associates(Ups(es), [a[0]], TakenAlone(a[1..], b));
  }

  lemma ToGoDown(before: seq<u8>, after: seq<u8>, a: seq<u8>, b: seq<u8>, es: seq<Event>)
    requires ToGo(before, after, a, b, es) && b != [] && b[0] != NONE && (a == [] || b[0] < a[0])
    ensures ToGo(before, after, a, b[1..], es + [Down(b[0])])
  {
    hide TakenAlone, Ups, Downs;
    TakesFirst(b, a);
    OneMore(es, Down(b[0]));
    Associates(Downs(es), [b[0]], TakenAlone(b[1..], a));
  }

  lemma ToGoBoth(before: seq<u8>, after: seq<u8>, a: seq<u8>, b: seq<u8>, es: seq<Event>)
    requires ToGo(before, after, a, b, es) && a != [] && b != [] && a[0] == b[0]
    ensures ToGo(before, after, a[1..], b[1..], es)
  {
  }

  /** Appending one key on each side keeps the balance. */
  lemma BothGain(a: seq<u8>, b: seq<u8>, x: seq<u8>, y: seq<u8>, k: u8)
    requires multiset(a) + multiset(b) == multiset(x) + multiset(y)
    ensures multiset(a + [k]) + multiset(b) == multiset(x + [k]) + multiset(y)
    ensures multiset(a + [k]) + multiset(b) == multiset(x) + multiset(y + [k])
    ensures multiset(a) + multiset(b + [k]) == multiset(x + [k]) + multiset(y)
  {
    var n := multiset([k]);
    assert multiset(a + [k]) == multiset(a) + n && multiset(b + [k]) == multiset(b) + n;
    assert multiset(x + [k]) == multiset(x) + n && multiset(y + [k]) == multiset(y) + n;
    assert multiset(a + [k]) + multiset(b) == multiset(a) + multiset(b) + n == multiset(a) + multiset(b + [k]);
    assert multiset(x + [k]) + multiset(y) == multiset(x) + multiset(y) + n == multiset(x) + multiset(y + [k]);
  }

  lemma TakeUp(before: seq<u8>, after: seq<u8>, c: nat, d: nat, es: seq<Event>)
    requires Midway(before, after, c, d, es) && c < |before| && (d < |after| ==> before[c] < after[d])
    ensures Midway(before, after, c + 1, d, es + [Up(before[c])])
  {
    hide Ups, Downs, ToGo;
    OneMore(es, Up(before[c]));
    assert before[..c + 1] == before[..c] + [before[c]];
    BothGain(after[..d], Ups(es), before[..c], Downs(es), before[c]);
    assert before[c] in before;
    ToGoUp(before, after, before[c..], after[d..], es);
    assert before[c..][1..] == before[c + 1..];
  }

  lemma TakeDown(before: seq<u8>, after: seq<u8>, c: nat, d: nat, es: seq<Event>)
    requires Midway(before, after, c, d, es) && d < |after| && (c < |before| ==> after[d] < before[c])
    ensures Midway(before, after, c, d + 1, es + [Down(after[d])])
  {
    hide Ups, Downs, ToGo;
    OneMore(es, Down(after[d]));
    assert after[..d + 1] == after[..d] + [after[d]];
    BothGain(after[..d], Ups(es), before[..c], Downs(es), after[d]);
    assert after[d] in after;
    ToGoDown(before, after, before[c..], after[d..], es);
    assert after[d..][1..] == after[d + 1..];
  }

  lemma TakeBoth(before: seq<u8>, after: seq<u8>, c: nat, d: nat, es: seq<Event>)
    requires Midway(before, after, c, d, es) && c < |before| && d < |after| && before[c] == after[d]
    ensures Midway(before, after, c + 1, d + 1, es)
  {
    hide Ups, Downs, ToGo;
    assert before[..c + 1] == before[..c] + [before[c]] && after[..d + 1] == after[..d] + [after[d]];
    BothGain(after[..d], Ups(es), before[..c], Downs(es), after[d]);
    ToGoBoth(before, after, before[c..], after[d..], es);
    assert before[c..][1..] == before[c + 1..] && after[d..][1..] == after[d + 1..];
  }

  lemma Repeated(before: seq<u8>, after: seq<u8>, c: nat, d: nat, es: seq<Event>, k: u8)
    requires Midway(before, after, c, d, es) && ((k in before && k in after) || (|before| == |after| == 0 && k == NONE))
    ensures Midway(before, after, c, d, es + [Again(k)])
  {
    hide Ups, Downs, TakenAlone;
    OneMore(es, Again(k));
  }

  /** The merge under way: the places of its two pointers, the repeat counter, its two flags, what it has sent. */
  datatype Merging = Merging(from: nat, to: nat, repeat: int, notify: bool, repeated: bool, es: seq<Event>)

  predicate IsReport(r: seq<u8>) { |r| == 9 && r[8] == NONE }

  /** One turn of the loop, on the reports k and n. */
  function Turn(k: seq<u8>, n: seq<u8>, m: Merging): Merging
    requires m.from < |k| && m.to < |n|
  {
    if k[m.from] < n[m.to] then
      m.(from := m.from + 1, es := m.es + [Up(k[m.from])], notify := true, repeat := 0)
    else if n[m.to] < k[m.from] then
      m.(to := m.to + 1, es := m.es + [Down(n[m.to])], notify := true, repeat := 0)
    else if m.repeat + 1 == AUTO_REPEAT_DELAY then
      Merging(m.from + 1, m.to + 1, AUTO_REPEAT_DELAY - AUTO_REPEAT_RATE, m.notify, true, m.es + [Again(n[m.to])])
    else
      Merging(m.from + 1, m.to + 1, m.repeat + 1, m.notify, true, m.es)
  }

  /** The do-while is to go round: at the start always, later until both pointers are on the padding. */
  predicate Open(k: seq<u8>, n: seq<u8>, m: Merging) {
    && IsReport(k) && IsReport(n) && 1 <= m.from <= 8 && 1 <= m.to <= 8
    && (m.from == m.to == 1 || n[m.to] != k[m.from] || n[m.to] != NONE)
  }

  /** The whole loop from m on. */
  function Rest(k: seq<u8>, n: seq<u8>, m: Merging): (r: Merging)
    requires Open(k, n, m)
    ensures 1 <= r.from <= 8 && 1 <= r.to <= 8 && n[r.to] == k[r.from] == NONE
    decreases 16 - m.from - m.to
  {
    var t := Turn(k, n, m);
    if n[t.to] != k[t.from] || n[t.to] != NONE then Rest(k, n, t) else t
  }

  /** The loop from m on is one turn, and the loop from there on if it is to go round again. */
  lemma RestTurns(k: seq<u8>, n: seq<u8>, m: Merging)
    requires Open(k, n, m)
    ensures var t := Turn(k, n, m);
      t.from <= 8 && t.to <= 8 && Rest(k, n, m) == if Open(k, n, t) then Rest(k, n, t) else t
    ensures var t := Turn(k, n, m); Open(k, n, t) <==> n[t.to] != k[t.from] || n[t.to] != NONE
  {
  }

  lemma TurnIs(k: seq<u8>, n: seq<u8>, m: Merging)
    requires m.from < |k| && m.to < |n|
    ensures var t, a, b := Turn(k, n, m), k[m.from], n[m.to];
      && (a < b ==> t == Merging(m.from + 1, m.to, 0, true, m.repeated, m.es + [Up(a)]))
      && (b < a ==> t == Merging(m.from, m.to + 1, 0, true, m.repeated, m.es + [Down(b)]))
      && (a == b ==> t.from == m.from + 1 && t.to == m.to + 1 && t.notify == m.notify && t.repeated)
      && (a == b && m.repeat + 1 == AUTO_REPEAT_DELAY ==>
            t.repeat == AUTO_REPEAT_DELAY - AUTO_REPEAT_RATE && t.es == m.es + [Again(b)])
      && (a == b && m.repeat + 1 != AUTO_REPEAT_DELAY ==> t.repeat == m.repeat + 1 && t.es == m.es)
  {
  }

  /** What the bytes under the pointers call for. */
  function Next(a: u8, b: u8): Event { if a < b then Up(a) else if b < a then Down(b) else Again(b) }

  function Start(repeat: int): Merging { Merging(1, 1, repeat, false, false, []) }

  /** The places and the counter stay in range, and the notify flag tells of keys gone up or down. */
  ghost predicate Sound(k: seq<u8>, n: seq<u8>, m: Merging) {
    && IsReport(k) && IsReport(n) && 1 <= m.from <= 8 && 1 <= m.to <= 8
    && 0 <= m.repeat < AUTO_REPEAT_DELAY && (m.notify <==> Ups(m.es) != [] || Downs(m.es) != []) && NoModifiers(m.es)
  }

  lemma SoundTurn(k: seq<u8>, n: seq<u8>, m: Merging)
    requires Sound(k, n, m) && Open(k, n, m)
    ensures Sound(k, n, Turn(k, n, m))
  {
    hide Ups, Downs, NoModifiers, ModifierUps, ModifierDowns;
    KeysMore(m.es, Next(k[m.from], n[m.to]));
    if k[m.from] < n[m.to] {
      OneMore(m.es, Up(k[m.from]));
    } else if n[m.to] < k[m.from] {
      OneMore(m.es, Down(n[m.to]));
    } else {
      OneMore(m.es, Again(n[m.to]));
    }
  }

  /** What has been taken of two padded reports; both pointers may come to rest on the padding. */
  ghost predicate Taken(k: seq<u8>, n: seq<u8>, m: Merging)
    requires |k| == |n| == 9
  {
    if |Keys(k)| == |Keys(n)| == 0 && m.from == m.to == 2 then Midway(Keys(k), Keys(n), 0, 0, m.es)
    else
      && 1 <= m.from <= 1 + |Keys(k)| && 1 <= m.to <= 1 + |Keys(n)|
      && Midway(Keys(k), Keys(n), m.from - 1, m.to - 1, m.es)
  }

  /** What a report says of its keys, place by place. */
  ghost predicate Laid(r: seq<u8>, keys: seq<u8>) {
    && |r| == 9 && |keys| <= 7 && r[1 + |keys|] == NONE && (|keys| == 0 ==> r[2] == NONE)
    && forall i :: 1 <= i <= |keys| ==> r[i] == keys[i - 1] != NONE
  }

  lemma KeysLaid(r: seq<u8>)
    requires IsReport(r) && Padded(r)
    ensures Laid(r, Keys(r))
  {
    KeysAre(r);
    forall i | 1 <= i <= |Keys(r)| ensures r[i] == Keys(r)[i - 1] != NONE {
      assert r[1 + (i - 1)] == Keys(r)[i - 1];
    }
  }

  lemma TakenUp(k: seq<u8>, n: seq<u8>, m: Merging)
    requires Open(k, n, m) && Laid(k, Keys(k)) && Laid(n, Keys(n)) && Taken(k, n, m) && k[m.from] < n[m.to]
    ensures Taken(k, n, Turn(k, n, m))
  {
    hide Midway, Keys;
    TakeUp(Keys(k), Keys(n), m.from - 1, m.to - 1, m.es);
  }

  lemma TakenDown(k: seq<u8>, n: seq<u8>, m: Merging)
    requires Open(k, n, m) && Laid(k, Keys(k)) && Laid(n, Keys(n)) && Taken(k, n, m) && n[m.to] < k[m.from]
    ensures Taken(k, n, Turn(k, n, m))
  {
    hide Midway, Keys;
    TakeDown(Keys(k), Keys(n), m.from - 1, m.to - 1, m.es);
  }

  lemma TakenBoth(k: seq<u8>, n: seq<u8>, m: Merging)
    requires Open(k, n, m) && Laid(k, Keys(k)) && Laid(n, Keys(n)) && Taken(k, n, m) && n[m.to] == k[m.from]
    ensures Taken(k, n, Turn(k, n, m))
  {
    hide Midway, Keys;
    if n[m.to] == NONE {
      Repeated(Keys(k), Keys(n), 0, 0, m.es, NONE);
    } else {
      TakeBoth(Keys(k), Keys(n), m.from - 1, m.to - 1, m.es);
      Repeated(Keys(k), Keys(n), m.from, m.to, m.es, n[m.to]);
    }
  }

  /** What the loop keeps. */
  ghost predicate Kept(k: seq<u8>, n: seq<u8>, m: Merging) {
    Sound(k, n, m) && (Padded(k) && Padded(n) ==> Taken(k, n, m))
  }

  lemma KeptTurn(k: seq<u8>, n: seq<u8>, m: Merging)
    requires Kept(k, n, m) && Open(k, n, m)
    ensures Kept(k, n, Turn(k, n, m))
  {
    SoundTurn(k, n, m);
    hide Taken, Turn, Padded, Laid, Keys, Sound;
    if Padded(k) && Padded(n) {
      KeysLaid(k);
      KeysLaid(n);
      if k[m.from] < n[m.to] {
        TakenUp(k, n, m);
      } else if n[m.to] < k[m.from] {
        TakenDown(k, n, m);
      } else {
        TakenBoth(k, n, m);
      }
    }
  }

  lemma KeptStart(k: seq<u8>, n: seq<u8>, repeat: int)
    requires IsReport(k) && IsReport(n) && 0 <= repeat < AUTO_REPEAT_DELAY
    ensures Kept(k, n, Start(repeat)) && Open(k, n, Start(repeat))
  {
  }

  lemma TakenAll(k: seq<u8>, n: seq<u8>, m: Merging)
    requires Kept(k, n, m) && n[m.to] == k[m.from] == NONE && Padded(k) && Padded(n)
    ensures Merged(Keys(k), Keys(n), m.es)
  {
    hide Midway, Keys, Merged, Ups, Downs, Padded;
    KeysLaid(k);
    KeysLaid(n);
    assert m.from == |Keys(k)| + 1 || (|Keys(k)| == |Keys(n)| == 0 && m.from == m.to == 2);
    AllTaken(Keys(k), Keys(n), m.es);
  }

  /** Of any two reports the counter and the flag are right, and of padded ones the events. */
  lemma {:induction false} MergeRight(k: seq<u8>, n: seq<u8>, m: Merging)
    requires Kept(k, n, m) && Open(k, n, m)
    ensures var r := Rest(k, n, m);
      && 0 <= r.repeat < AUTO_REPEAT_DELAY && (r.notify <==> Ups(r.es) != [] || Downs(r.es) != [])
      && NoModifiers(r.es) && (Padded(k) && Padded(n) ==> Merged(Keys(k), Keys(n), r.es))
    decreases 16 - m.from - m.to
  {
    KeptTurn(k, n, m);
    hide Merged, Padded, Keys, Taken, Ups, Downs;
    var t := Turn(k, n, m);
    if n[t.to] != k[t.from] || n[t.to] != NONE {
      MergeRight(k, n, t);
    } else if Padded(k) && Padded(n) {
      TakenAll(k, n, t);
    }
  }

  /** One report more with the same key alone, or with none again. */
  ghost predicate Tick(before: int, after: int, k: u8, es: seq<Event>) {
    if before == AUTO_REPEAT_DELAY - 1 then after == AUTO_REPEAT_DELAY - AUTO_REPEAT_RATE && es == [Again(k)]
    else after == before + 1 && es == []
  }

  lemma SameKeyTicks(k: seq<u8>, n: seq<u8>, repeat: int)
    requires IsReport(k) && IsReport(n) && k[1] == n[1] && k[2] == n[2] == NONE
    ensures Open(k, n, Start(repeat))
    ensures var r := Rest(k, n, Start(repeat)); r.repeated && Tick(repeat, r.repeat, k[1], r.es)
  {
    var t := Turn(k, n, Start(repeat));
    assert t.from == t.to == 2;
  }

  predicate SameKey(k: seq<u8>, n: seq<u8>)
    requires IsReport(k) && IsReport(n)
  {
    k[1] == n[1] && k[2] == n[2] == NONE
  }

  // The modifiers.

  /** The bits set in one byte are told in ascending order. */
  function Telling(places: seq<nat>, down: bool): (es: seq<Event>) {
    if places == [] then [] else
      var n := |places| - 1;
      Telling(places[..n], down) + [if down then ModifierDown(places[n]) else ModifierUp(places[n])]
  }

  function Released(was: u8, now: u8): seq<nat> { On(Only(BitsOf(was), BitsOf(now))) }

  /** What is told of two bytes of modifiers: those released as down, and then those pressed as up. */
  function ModifierEvents(was: u8, now: u8): seq<Event> {
    Telling(Released(was, now), true) + Telling(Released(now, was), false)
  }

  lemma {:induction false} TellingIs(places: seq<nat>, down: bool)
    ensures var es := Telling(places, down);
      && Ups(es) == [] && Downs(es) == [] && (forall e :: e in es ==> !e.Again?)
      && ModifierDowns(es) == (if down then places else []) && ModifierUps(es) == (if down then [] else places)
  {
    if places != [] {
      var n := |places| - 1;
      TellingIs(places[..n], down);
      OneMore(Telling(places[..n], down), if down then ModifierDown(places[n]) else ModifierUp(places[n]));
    }
  }

  lemma TellingMore(places: seq<nat>, k: nat, down: bool)
    ensures Telling(places + [k], down) == Telling(places, down) + [if down then ModifierDown(k) else ModifierUp(k)]
  {
    assert (places + [k])[..|places|] == places;
  }

  /** The modifiers are told the wrong way round: those released are told down, those pressed up. */
  ghost predicate Backwards(was: u8, now: u8, es: seq<Event>) {
    ModifierDowns(es) == Released(was, now) && ModifierUps(es) == Released(now, was)
  }

  /** Told before the events of the merge, they leave what those say of keys. */
  lemma WithModifiers(was: u8, now: u8, es: seq<Event>)
    requires NoModifiers(es)
    ensures var all := ModifierEvents(was, now) + es;
      && Ups(all) == Ups(es) && Downs(all) == Downs(es) && Backwards(was, now, all)
      && forall e :: e in all && e.Again? ==> e in es
  {
    hide Ups, Downs, ModifierUps, ModifierDowns, NoModifiers, Telling, Released;
    var downs, ups := Telling(Released(was, now), true), Telling(Released(now, was), false);
    TellingIs(Released(was, now), true);
    TellingIs(Released(now, was), false);
    InARow(downs, ups);
    InARow(downs + ups, es);
    NoneTold(es);
  }

  lemma MergedWithModifiers(before: seq<u8>, after: seq<u8>, was: u8, now: u8, es: seq<Event>)
    requires NoModifiers(es) && Merged(before, after, es)
    ensures Merged(before, after, ModifierEvents(was, now) + es)
  {
    hide NoModifiers, Ups, Downs, ModifierEvents, Aligned, Backwards;
    WithModifiers(was, now, es);
  }

  lemma NoEvents(was: u8, now: u8)
    ensures was == now ==> ModifierEvents(was, now) == []
    ensures was != now <==> Released(was, now) != [] || Released(now, was) != []
  {
    SomeOnly(was, now);
  }

  /** Told that way, what is pressed is told down and what is released up only when nothing has changed. */
  lemma RightIffUnchanged(was: u8, now: u8, es: seq<Event>)
    requires Backwards(was, now, es)
    ensures ModifierDowns(es) == Released(now, was) && ModifierUps(es) == Released(was, now) <==> was == now
  {
    hide BitsOf, On;
    NoEvents(was, now);
    OnIs(Only(BitsOf(was), BitsOf(now)));
    OnIs(Only(BitsOf(now), BitsOf(was)));
    var released, pressed := Released(was, now), Released(now, was);
    assert forall k: nat :: k in released ==> k !in pressed;
    if released != [] { assert released[0] in released; }
  }

  /** Over a run the modifiers told up and not down are those that have come to be held. */
  ghost predicate Inverted(was: u8, now: u8, es: seq<Event>) {
    multiset(On(BitsOf(now))) + multiset(ModifierDowns(es)) == multiset(On(BitsOf(was))) + multiset(ModifierUps(es))
  }

  lemma BackwardsInverts(was: u8, now: u8, es: seq<Event>)
    requires Backwards(was, now, es)
    ensures Inverted(was, now, es)
  {
    Exchange(BitsOf(was), BitsOf(now));
  }

  lemma InvertedRun(a: u8, b: u8, c: u8, es: seq<Event>, fs: seq<Event>)
    requires Inverted(a, b, es) && Inverted(b, c, fs)
    ensures Inverted(a, c, es + fs)
  {
    hide On, BitsOf, ModifierUps, ModifierDowns;
    InARow(es, fs);
    SumOf(ModifierUps(es), ModifierUps(fs));
    SumOf(ModifierDowns(es), ModifierDowns(fs));
    Telescope(multiset(On(BitsOf(a))), multiset(On(BitsOf(b))), multiset(On(BitsOf(c))),
              multiset(ModifierDowns(es)), multiset(ModifierDowns(fs)),
              multiset(ModifierUps(es)), multiset(ModifierUps(fs)));
  }

  lemma SumOf<T>(s: seq<T>, t: seq<T>)
    ensures multiset(s + t) == multiset(s) + multiset(t)
  {
  }

  /** What one report makes of the last one k, the next one n. */
  ghost predicate Reported(k: seq<u8>, n: seq<u8>, notify: bool, es: seq<Event>)
    requires IsReport(k) && IsReport(n)
  {
    && ModifierEvents(k[0], n[0]) <= es && Backwards(k[0], n[0], es)
    && (notify <==> k[0] != n[0] || Ups(es) != [] || Downs(es) != [])
    && (Padded(k) && Padded(n) ==> Merged(Keys(k), Keys(n), es))
  }

  /** What the merge makes of it. */
  ghost predicate KeysReported(k: seq<u8>, n: seq<u8>, notify: bool, es: seq<Event>)
    requires IsReport(k) && IsReport(n)
  {
    && NoModifiers(es) && (notify <==> Ups(es) != [] || Downs(es) != [])
    && (Padded(k) && Padded(n) ==> Merged(Keys(k), Keys(n), es))
  }

  /** One report more with the same keys, whatever the modifiers. */
  ghost predicate Ticked(before: int, after: int, k: seq<u8>, n: seq<u8>, es: seq<Event>)
    requires IsReport(k) && IsReport(n)
  {
    var ms := ModifierEvents(k[0], n[0]);
    ms <= es && Tick(before, after, n[1], es[|ms|..])
  }

  lemma ReportedWhole(k: seq<u8>, n: seq<u8>, repeat: int, r: Merging)
    requires IsReport(k) && IsReport(n) && KeysReported(k, n, r.notify, r.es)
    requires SameKey(k, n) ==> Tick(repeat, r.repeat, n[1], r.es)
    ensures var es := ModifierEvents(k[0], n[0]) + r.es;
      && Reported(k, n, r.notify || k[0] != n[0], es) && (SameKey(k, n) ==> Ticked(repeat, r.repeat, k, n, es))
  {
    hide Ups, Downs, Padded, Keys, Merged, NoModifiers, ModifierEvents, Backwards, Tick;
    WithModifiers(k[0], n[0], r.es);
    if Padded(k) && Padded(n) { MergedWithModifiers(Keys(k), Keys(n), k[0], n[0], r.es); }
  }

  /** With the modifiers unchanged, what is told is what the merge tells. */
  lemma TickedAgain(before: int, after: int, k: seq<u8>, es: seq<Event>)
    requires IsReport(k) && Ticked(before, after, k, k, es)
    ensures Tick(before, after, k[1], es)
  {
    hide Tick, ModifierEvents;
    NoEvents(k[0], k[0]);
  }

  lemma SameButFirst(k: seq<u8>, n: seq<u8>)
    requires |k| == |n| == 9 && k[1..] == n[1..]
    ensures Keys(k) == Keys(n) && (Padded(k) <==> Padded(n))
  {
    assert forall i :: 1 <= i < 9 ==> k[i] == k[1..][i - 1] && n[i] == n[1..][i - 1];
  }

  /** The merge of a new report n with the last one, whose first byte the new one has replaced. */
  lemma MergeReports(was: seq<u8>, n: seq<u8>, repeat: int)
    requires IsReport(was) && IsReport(n) && 0 <= repeat < AUTO_REPEAT_DELAY
    ensures Open(was[0 := n[0]], n, Start(repeat))
    ensures var r := Rest(was[0 := n[0]], n, Start(repeat));
      && 0 <= r.repeat < AUTO_REPEAT_DELAY && KeysReported(was, n, r.notify, r.es)
      && (SameKey(was, n) ==> r.repeated && Tick(repeat, r.repeat, n[1], r.es))
  {
    var k := was[0 := n[0]];
    hide Rest, Merged, Keys, Padded, Ups, Downs;
    SameButFirst(was, k);
    KeptStart(k, n, repeat);
    MergeRight(k, n, Start(repeat));
    if SameKey(was, n) { SameKeyTicks(k, n, repeat); }
  }

  // A report that shares no key with the last one starts the counter anew.

  ghost predicate Apart(k: seq<u8>, n: seq<u8>)
    requires IsReport(k) && IsReport(n)
  {
    && Padded(k) && Padded(n) && (forall x :: x in Keys(k) ==> x !in Keys(n))
    && (Keys(k) != [] || Keys(n) != [])
  }

  /** Neither pointer is beyond the padding's first byte. */
  ghost predicate Within(k: seq<u8>, n: seq<u8>, m: Merging)
    requires |k| == |n| == 9
  {
    m.from <= 1 + |Keys(k)| && m.to <= 1 + |Keys(n)|
  }

  lemma ApartTurn(k: seq<u8>, n: seq<u8>, m: Merging)
    requires IsReport(k) && IsReport(n) && Apart(k, n) && Open(k, n, m) && Within(k, n, m) && !m.repeated
    ensures Within(k, n, Turn(k, n, m)) && !Turn(k, n, m).repeated
  {
    hide Keys, Padded;
    KeyThere(k, m.from);
    KeyThere(n, m.to);
  }

  /** Up to the padding's first byte a place holds a key, unless it is that byte. */
  lemma KeyThere(r: seq<u8>, i: nat)
    requires IsReport(r) && Padded(r) && 1 <= i <= 1 + |Keys(r)|
    ensures i <= 8 && (if i <= |Keys(r)| then r[i] in Keys(r) else r[i] == NONE)
  {
    KeysLaid(r);
    hide Keys, Padded;
    if i <= |Keys(r)| { assert r[i] == Keys(r)[i - 1]; }
  }

  lemma {:induction false} ApartRest(k: seq<u8>, n: seq<u8>, m: Merging)
    requires IsReport(k) && IsReport(n) && Apart(k, n) && Open(k, n, m) && Within(k, n, m) && !m.repeated
    ensures !Rest(k, n, m).repeated
    decreases 16 - m.from - m.to
  {
    hide Apart, Within;
    ApartTurn(k, n, m);
    RestTurns(k, n, m);
    if Open(k, n, Turn(k, n, m)) { ApartRest(k, n, Turn(k, n, m)); }
  }

  lemma ApartStart(was: seq<u8>, n: seq<u8>, repeat: int)
    requires IsReport(was) && IsReport(n) && Apart(was, n)
    ensures Open(was[0 := n[0]], n, Start(repeat)) && !Rest(was[0 := n[0]], n, Start(repeat)).repeated
  {
    hide Keys, Padded, Rest;
    var k := was[0 := n[0]];
    SameButFirst(was, k);
    ApartRest(k, n, Start(repeat));
  }

  /** A key is pressed while none is held. */
  predicate Pressed(k: seq<u8>, n: seq<u8>)
    requires IsReport(k) && IsReport(n)
  {
    k[1] == NONE && n[1] != NONE && n[2] == NONE
  }

  lemma PressRead(was: seq<u8>, n: seq<u8>, repeat: int)
    requires IsReport(was) && IsReport(n) && Pressed(was, n)
    ensures Open(was[0 := n[0]], n, Start(repeat))
    ensures var r := Rest(was[0 := n[0]], n, Start(repeat)); r.es == [Down(n[1])] && !r.repeated
  {
    hide Rest;
    RestTurns(was[0 := n[0]], n, Start(repeat));
  }

  /**
   * What receiving a report n means after the last one k: its events and whether it notifies; the same key again ticks
   * the counter, a report that shares no key with the last sets it to zero; and a single key pressed is told.
   */
  ghost predicate Received(k: seq<u8>, n: seq<u8>, before: int, after: int, notify: bool, es: seq<Event>)
    requires IsReport(k) && IsReport(n)
  {
    && Reported(k, n, notify, es)
    && (SameKey(k, n) ==> Ticked(before, after, k, n, es))
    && (Apart(k, n) ==> after == 0)
    && (Pressed(k, n) ==> after == 0 && es == ModifierEvents(k[0], n[0]) + [Down(n[1])])
  }

  /** What a report n makes of the last one, modifiers and keys. */
  lemma WholeReport(was: seq<u8>, n: seq<u8>, repeat: int)
    requires IsReport(was) && IsReport(n) && 0 <= repeat < AUTO_REPEAT_DELAY
    ensures var k := was[0 := n[0]];
      && IsReport(k) && Open(k, n, Start(repeat))
      && var r := Rest(k, n, Start(repeat));
         && 0 <= r.repeat < AUTO_REPEAT_DELAY
         && Received(was, n, repeat, if r.repeated then r.repeat else 0, r.notify || was[0] != n[0],
                     ModifierEvents(was[0], n[0]) + r.es)
  {
    hide Rest, Reported, KeysReported, SameKey, Tick, Ticked, ModifierEvents, Apart;
    if Apart(was, n) { ApartStart(was, n, repeat); }
    if Pressed(was, n) { PressRead(was, n, repeat); }
    MergeReports(was, n, repeat);
    ReportedWhole(was, n, repeat, Rest(was[0 := n[0]], n, Start(repeat)));
  }

  lemma MergedBalances(before: seq<u8>, after: seq<u8>, es: seq<Event>)
    requires Merged(before, after, es)
    ensures Balanced(before, after, es)
  {
  }

  lemma BalancedRun(a: seq<u8>, b: seq<u8>, c: seq<u8>, es: seq<Event>, fs: seq<Event>)
    requires Balanced(a, b, es) && Balanced(b, c, fs)
    ensures Balanced(a, c, es + fs)
  {
    InARow(es, fs);
    var x, y := multiset(Ups(es)) + multiset(Ups(fs)), multiset(Downs(es)) + multiset(Downs(fs));
    assert multiset(Ups(es) + Ups(fs)) == x && multiset(Downs(es) + Downs(fs)) == y;
    Telescope(multiset(a), multiset(b), multiset(c),
              multiset(Ups(es)), multiset(Ups(fs)), multiset(Downs(es)), multiset(Downs(fs)));
  }

  lemma Telescope<T>(a: multiset<T>, b: multiset<T>, c: multiset<T>, u: multiset<T>, v: multiset<T>, d: multiset<T>,
          e: multiset<T>)
    requires b + u == a + d && c + v == b + e
    ensures c + (u + v) == a + (d + e)
  {
    forall k: T ensures (c + (u + v))[k] == (a + (d + e))[k] {
      assert (b + u)[k] == (a + d)[k] && (c + v)[k] == (b + e)[k];
    }
  }

  /** A report that holds no 255 of its own among the keys is padded. */
  lemma WithoutPadding(data: seq<u8>)
    requires data == [] || NONE !in data[1..]
    ensures Padded(Report(data))
    ensures Keys(Report(data)) == if |data| == 0 then [] else data[1..if 8 < |data| then 8 else |data|]
  {
    assert forall i :: 1 <= i < |data| ==> data[i] == data[1..][i - 1];
    var size := if 8 < |data| then 8 else |data|;
    var n := if size == 0 then 0 else size - 1;
    assert forall i :: 0 <= i < n ==> Report(data)[1..][i] == data[1 + i];
    RunIs(Report(data)[1..], n);
  }

  lemma {:induction false} RunIs(s: seq<u8>, n: nat)
    requires n <= |s| && (forall i :: 0 <= i < n ==> s[i] != NONE) && (n < |s| ==> s[n] == NONE)
    ensures Run(s) == n
  {
    if n > 0 {
      assert forall i :: 0 <= i < n - 1 ==> s[1..][i] == s[i + 1];
      RunIs(s[1..], n - 1);
    }
  }

  /** The same two keys told in another order are not aligned: one of them is sent up and down again. */
  lemma OrderMatters()
    ensures var k, n := Report([0, 4, 5]), Report([0, 5, 4]);
      && Keys(k) == [4, 5] && Keys(n) == [5, 4] && !Aligned(Keys(k), Keys(n))
      && Open(k, n, Start(0)) && Rest(k, n, Start(0)).es == [Up(4), Down(4)]
  {
    hide *;
    KeysSwapped();
    NotAligned();
    MergeSwapped(Report([0, 4, 5]), Report([0, 5, 4]));
  }

  lemma KeysSwapped()
    ensures var k, n := Report([0, 4, 5]), Report([0, 5, 4]);
      && IsReport(k) && IsReport(n) && Keys(k) == [4, 5] && Keys(n) == [5, 4]
      && k[1] == n[2] == 4 && k[2] == n[1] == 5 && k[3] == n[3] == NONE
  {
    WithoutPadding([0, 4, 5]);
    WithoutPadding([0, 5, 4]);
    var k: seq<u8>, n: seq<u8> := [0, 4, 5], [0, 5, 4];
    assert k[1..3] == [4, 5] && n[1..3] == [5, 4];
    hide Keys;
  }

  lemma MergeSwapped(k: seq<u8>, n: seq<u8>)
    requires IsReport(k) && IsReport(n) && k[1] == n[2] == 4 && k[2] == n[1] == 5 && k[3] == n[3] == NONE
    ensures Open(k, n, Start(0)) && Rest(k, n, Start(0)).es == [Up(4), Down(4)]
  {
    hide Rest;
    var m := Merging(2, 1, 0, true, false, [Up(4)]);
    assert Turn(k, n, Start(0)) == m && Open(k, n, Start(0)) && Open(k, n, m);
    RestTurns(k, n, Start(0));
    RestTurns(k, n, m);
    RestTurns(k, n, Merging(3, 2, 1, true, true, [Up(4)]));
  }

  lemma NotAligned()
    ensures !Aligned([4, 5], [5, 4])
  {
    var shared := Shared([4, 5], [5, 4]);
    assert 4 in shared && 5 in shared;
    assert Common([4, 5], shared)[0] == 4 && Common([5, 4], shared)[0] == 5;
  }

  /** Aligned reports need not be in ascending order. */
  lemma AlignedUnsorted()
    ensures Aligned([5, 4], [5, 3, 4]) && !Ascending([5, 4])
  {
    assert [5, 4][0] > [5, 4][1];
    assert [5, 4][1..] == [4] && [5, 3, 4][1..] == [3, 4] && [3, 4][1..] == [4];
  }

  /** The repeat counter after that many reports of one key. */
  function CountAfter(times: nat): int {
    if times < AUTO_REPEAT_DELAY then times
    else AUTO_REPEAT_DELAY - AUTO_REPEAT_RATE + (times - AUTO_REPEAT_DELAY) % AUTO_REPEAT_RATE
  }

  /** How often the key has been repeated by then. */
  function SentAfter(times: nat): nat {
    if times < AUTO_REPEAT_DELAY then 0 else 1 + (times - AUTO_REPEAT_DELAY) / AUTO_REPEAT_RATE
  }

  /** The next number of the four is the next remainder, or a new four begins. */
  lemma NextOfFour(n: nat)
    ensures n % 4 == 3 ==> (n + 1) % 4 == 0 && (n + 1) / 4 == n / 4 + 1
    ensures n % 4 != 3 ==> (n + 1) % 4 == n % 4 + 1 && (n + 1) / 4 == n / 4
  {
    var q, r := n / 4, n % 4;
    assert n == 4 * q + r;
  }

  lemma CountsOn(times: nat)
    ensures CountAfter(times) == AUTO_REPEAT_DELAY - 1 ==>
      CountAfter(times + 1) == AUTO_REPEAT_DELAY - AUTO_REPEAT_RATE && SentAfter(times + 1) == SentAfter(times) + 1
    ensures CountAfter(times) != AUTO_REPEAT_DELAY - 1 ==>
      CountAfter(times + 1) == CountAfter(times) + 1 && SentAfter(times + 1) == SentAfter(times)
  {
    if AUTO_REPEAT_DELAY <= times { NextOfFour(times - AUTO_REPEAT_DELAY); }
  }

  /** The counter and what has been told after that many reports with the one key of k, or none. */
  ghost predicate Repeating(k: seq<u8>, times: nat, repeat: int, es: seq<Event>) {
    && IsReport(k) && k[2] == NONE && repeat == CountAfter(times) && |es| == SentAfter(times)
    && forall e :: e in es ==> e == Again(k[1])
  }

  lemma RepeatingStarts(k: seq<u8>)
    requires IsReport(k) && k[2] == NONE
    ensures Repeating(k, 0, 0, [])
  {
  }

  lemma SameAgain(k: seq<u8>)
    requires IsReport(k) && k[2] == NONE
    ensures SameKey(k, k)
  {
  }

  lemma RepeatingOn(k: seq<u8>, times: nat, before: int, after: int, notify: bool, es: seq<Event>, fs: seq<Event>)
    requires Repeating(k, times, before, es) && IsReport(k) && SameKey(k, k)
    requires Received(k, k, before, after, notify, fs)
    ensures Repeating(k, times + 1, after, es + fs)
  {
    hide CountAfter, SentAfter, Ticked, Reported, Apart, Pressed;
    CountsOn(times);
    TickedAgain(before, after, k, fs);
  }

  lemma RepeatingIs(k: seq<u8>, times: nat, repeat: int, es: seq<Event>)
    requires Repeating(k, times, repeat, es)
    ensures IsReport(k) && (forall e :: e in es ==> e == Again(k[1]))
    ensures |es| == if times < 20 then 0 else 1 + (times - 20) / 4
  {
  }

  /** What a run of reports makes of the first one and the last one. */
  ghost predicate ReportedAll(first: seq<u8>, last: seq<u8>, reports: seq<seq<u8>>, es: seq<Event>) {
    && IsReport(first) && IsReport(last) && Inverted(first[0], last[0], es)
    && (Padded(first) && (forall r :: r in reports ==> Padded(Report(r))) ==>
          Padded(last) && Balanced(Keys(first), Keys(last), es))
  }

  lemma ReportedStarts(k: seq<u8>)
    requires IsReport(k)
    ensures ReportedAll(k, k, [], [])
  {
  }

  lemma ReportedOne(first: seq<u8>, last: seq<u8>, reports: seq<seq<u8>>, data: seq<u8>, notify: bool, es: seq<Event>,
                    fs: seq<Event>)
    requires ReportedAll(first, last, reports, es) && IsReport(last) && Reported(last, Report(data), notify, fs)
    ensures ReportedAll(first, Report(data), reports + [data], es + fs)
  {
    hide Merged, Padded, Keys, Balanced, Ups, Downs, ModifierEvents, Backwards, Inverted, Report;
    var n := Report(data);
    BackwardsInverts(last[0], n[0], fs);
    InvertedRun(first[0], last[0], n[0], es, fs);
    if Padded(first) && forall r :: r in reports + [data] ==> Padded(Report(r)) {
      assert forall r :: r in reports ==> r in reports + [data];
      assert data in reports + [data];
      MergedBalances(Keys(last), Keys(n), fs);
      BalancedRun(Keys(first), Keys(last), Keys(n), es, fs);
    }
  }

  lemma ReportedEnds(first: seq<u8>, last: seq<u8>, reports: seq<seq<u8>>, es: seq<Event>)
    requires ReportedAll(first, last, reports, es)
    ensures IsReport(first) && IsReport(last) && Inverted(first[0], last[0], es)
    ensures Padded(first) && (forall r :: r in reports ==> Padded(Report(r))) ==> Balanced(Keys(first), Keys(last), es)
  {
  }

  lemma NoneHeld()
    ensures ModifiersOf(0) == {}
  {
    ModifiersMean(0);
    assert BitsOf(0) == seq(8, _ => false);
    forall m: Modifier ensures m !in ModifiersOf(0) {
      assert m.CtrlKey? || m.ShiftKey? || m.CommandKey? || m.OptionKey?;
    }
  }

  class EventManager {
    const registered: bool
    const key: array<u8>
    var modifiers: set<Modifier>
    var repeat: int
    var sent: seq<Event>

    ghost predicate Valid()
      reads this, key
    {
      IsReport(key[..]) && 0 <= repeat < AUTO_REPEAT_DELAY && modifiers == ModifiersOf(key[0])
    }

    constructor (registered: bool)
      ensures Valid() && fresh(key) && this.registered == registered && repeat == 0 && sent == []
      ensures key[..] == Report([0])
    {
      this.registered := registered;
      var k := new u8[9](i => if i == 0 then 0 else NONE);
      key, modifiers, repeat, sent := k, {}, 0, [];
      new;
      NoneHeld();
    }

    /** The loop over the bits in which the two bytes of modifiers differ. */
    method TellModifiers(changed: Bits, down: bool) returns (notify: bool)
      modifies `sent
      ensures sent == old(sent) + Telling(On(changed), down) && (notify <==> On(changed) != [])
    {
      notify := false;
      var bits: Bits := changed;
      ghost var told: seq<nat> := [];
      while FirstBit(bits) < 8
        invariant On(changed) == told + On(bits) && sent == old(sent) + Telling(told, down) && (notify <==> told != [])
        decreases |On(bits)|
      {
        hide FirstBit, On, Telling;
        var place := FirstBit(bits);
        LowestFirst(bits);
        TellingMore(told, place, down);
        told := told + [place];
        bits := bits[place := false];
        sent := sent + [if down then ModifierDown(place) else ModifierUp(place)];
        notify := true;
      }
      LowestFirst(bits);
      assert told + On(bits) == told;
    }

    /** Both bytes of modifiers, and what the new one calls for. */
    method CompareModifiers(now: u8) returns (notify: bool)
      requires key.Length > 0
      modifies `sent, `modifiers
      ensures sent == old(sent) + ModifierEvents(key[0], now) && modifiers == ModifiersOf(now)
      ensures notify <==> key[0] != now
    {
      hide On, BitsOf, ModifiersOf, Xor, And, Only, Telling;
      Differ(BitsOf(key[0]), BitsOf(now));
      NoEvents(key[0], now);
      var released := TellModifiers(And(Xor(BitsOf(key[0]), BitsOf(now)), BitsOf(key[0])), true);
      var pressed := TellModifiers(And(Xor(BitsOf(key[0]), BitsOf(now)), BitsOf(now)), false);
      Associates(old(sent), Telling(Released(key[0], now), true), Telling(Released(now, key[0]), false));
      modifiers := ModifiersOf(now);
      notify := released || pressed;
    }

    /** The loop over both reports; from and to are the places of the two pointers. */
    method Merge(next: array<u8>) returns (notify: bool, repeated: bool)
      requires IsReport(key[..]) && IsReport(next[..])
      modifies `repeat, `sent
      ensures var r := Rest(key[..], next[..], Start(old(repeat)));
        notify == r.notify && repeated == r.repeated && repeat == r.repeat && sent == old(sent) + r.es
    {
      assert key.Length == next.Length == 9 && Open(key[..], next[..], Start(repeat));
      hide IsReport, Rest, Open, Keys, Run, Turn;
      notify, repeated := false, false;
      var from, to, more := 1, 1, true;
      ghost var k, n := key[..], next[..];
      ghost var m, end := Start(repeat), Rest(k, n, Start(repeat));
      while more
        invariant m == Merging(from, to, repeat, notify, repeated, m.es) && sent == old(sent) + m.es
        invariant from <= 8 && to <= 8
        invariant if more then Open(k, n, m) && Rest(k, n, m) == end else m == end
        decreases 16 - from - to, more
      {
        RestTurns(k, n, m);
        TurnIs(k, n, m);
        assert key[from] == k[from] && next[to] == n[to];
        Associates(old(sent), m.es, [Next(k[from], n[to])]);
        m := Turn(k, n, m);
        if key[from] < next[to] {
          sent := sent + [Up(key[from])];
          notify := true;
          from := from + 1;
          repeat := 0;
        } else if next[to] < key[from] {
          sent := sent + [Down(next[to])];
          notify := true;
          to := to + 1;
          repeat := 0;
        } else {
          repeated := true;
          repeat := repeat + 1;
          if repeat == AUTO_REPEAT_DELAY {
            sent := sent + [Again(next[to])];
            repeat := AUTO_REPEAT_DELAY - AUTO_REPEAT_RATE;
          }
          from, to := from + 1, to + 1;
        }
        assert m == Merging(from, to, repeat, notify, repeated, m.es);
        more := next[to] != key[from] || next[to] != NONE;
      }
    }

    method Keep(next: array<u8>)
      requires key.Length == next.Length && key != next
      modifies key
      ensures key[..] == next[..]
    {
      forall i | 0 <= i < key.Length {
        key[i] := next[i];
      }
    }

    /** A report comes in. */
    method KeyEvent(data: seq<u8>) returns (notify: bool)
      requires Valid()
      modifies this, key
      ensures Valid() && old(sent) <= sent
      ensures !registered ==> !notify && key[..] == old(key[..]) && repeat == old(repeat) && sent == old(sent)
      ensures registered ==> key[..] == Report(data)
      ensures registered ==>
        Received(old(key[..]), Report(data), old(repeat), repeat, notify, sent[|old(sent)|..])
    {
      if !registered {
        return false;
      }
      hide Open, Rest, Received, Report, ModifiersOf, ModifierEvents;
      var next := Padding(data);
      ghost var was, n := key[..], next[..];
      WholeReport(was, n, repeat);
      ghost var r := Rest(was[0 := n[0]], n, Start(repeat));
      var changed := CompareModifiers(next[0]);
      key[0] := next[0];
      assert key[..] == was[0 := n[0]];
      Associates(old(sent), ModifierEvents(was[0], n[0]), r.es);
      var moved, repeated := Merge(next);
      if !repeated {
        repeat := 0;
      }
      notify := changed || moved;
      Keep(next);
    }

    /** The report, with padding behind. */
    method Padding(data: seq<u8>) returns (next: array<u8>)
      ensures fresh(next) && next[..] == Report(data) && IsReport(next[..])
    {
      var size := if 8 < |data| then 8 else |data|;
      next := new u8[9](i => if 0 <= i < size then data[i] else NONE);
      assert next[..] == Report(data);
    }

    /** Any run of reports, from whatever was held before. */
    method KeyEvents(reports: seq<seq<u8>>)
      requires Valid() && registered
      modifies this, key
      ensures Valid() && old(sent) <= sent
      ensures key[..] == if reports == [] then old(key[..]) else Report(reports[|reports| - 1])
      ensures Padded(old(key[..])) && (forall r :: r in reports ==> Padded(Report(r))) ==>
        Balanced(Keys(old(key[..])), Keys(key[..]), sent[|old(sent)|..])
      ensures Inverted(old(key[0]), key[0], sent[|old(sent)|..])
    {
      hide Rest, Reported, SameKey, Ticked, Report, ModifiersOf, ModifierEvents, ReportedAll, Balanced, Keys, Padded,
           Inverted;
      ghost var es: seq<Event> := [];
      ghost var first := key[..];
      ReportedStarts(first);
      for i := 0 to |reports|
        invariant Valid() && sent == old(sent) + es
        invariant key[..] == if i == 0 then first else Report(reports[i - 1])
        invariant ReportedAll(first, key[..], reports[..i], es)
      {
        ghost var was, m := key[..], |sent|;
        var notify := KeyEvent(reports[i]);
        ReportedOne(first, was, reports[..i], reports[i], notify, es, sent[m..]);
        assert reports[..i + 1] == reports[..i] + [reports[i]];
        Grown(old(sent), es, sent);
        es := es + sent[m..];
      }
      assert reports[..|reports|] == reports;
      ReportedEnds(first, key[..], reports, es);
    }

    /** The same report over and over, with one key held or none: the delay, then the rate. */
    method Hold(data: seq<u8>, times: nat)
      requires Valid() && registered && repeat == 0 && key[..] == Report(data) && Report(data)[2] == NONE
      modifies this, key
      ensures Valid() && key[..] == Report(data) && old(sent) <= sent
      ensures forall e :: e in sent[|old(sent)|..] ==> e == Again(Report(data)[1])
      ensures |sent[|old(sent)|..]| == if times < 20 then 0 else 1 + (times - 20) / 4
    {
      hide *;
      ghost var es: seq<Event> := [];
      ghost var k := Report(data);
      RepeatingStarts(k);
      for i := 0 to times
        invariant Valid() && key[..] == k == Report(data) && sent == old(sent) + es && Repeating(k, i, repeat, es)
      {
        ghost var m, before := |sent|, repeat;
        SameAgain(k);
        var notify := KeyEvent(data);
        RepeatingOn(k, i, before, repeat, notify, es, sent[m..]);
        Grown(old(sent), es, sent);
        es := es + sent[m..];
      }
      RepeatingIs(k, times, repeat, es);
    }
  }

  /** With no key ever down, the twentieth report sends the padding as a repeated key. */
  method PaddingRepeats() returns (sent: seq<Event>)
    ensures sent == [Again(NONE)]
  {
    var manager := new EventManager(true);
    assert Report([0])[1] == Report([0])[2] == NONE;
    manager.Hold([0], 20);
    sent := manager.sent;
    assert sent[0..] == sent && sent[0] in sent;
  }

  /** A key pressed while none is held, and then held: told once, and repeated after twenty further reports. */
  method PressAndHold(manager: EventManager, data: seq<u8>, times: nat)
    requires manager.Valid() && manager.registered && Pressed(manager.key[..], Report(data))
    modifies manager, manager.key
    ensures manager.Valid()
    ensures var ms, down := ModifierEvents(old(manager.key[0]), Report(data)[0]), Down(Report(data)[1]);
      var first := old(manager.sent) + ms + [down];
      && first <= manager.sent && (forall e :: e in manager.sent[|first|..] ==> e == Again(Report(data)[1]))
      && |manager.sent[|first|..]| == if times < 20 then 0 else 1 + (times - 20) / 4
  {
    PressedAlone(manager.key[..], data);
    hide *;
    var notify := manager.KeyEvent(data);
    manager.Hold(data, times);
  }

  lemma PressedAlone(k: seq<u8>, data: seq<u8>)
    requires IsReport(k) && Pressed(k, Report(data))
    ensures Report(data)[2] == NONE
  {
  }

  /** The key of place 1 is pressed, and told up. */
  method PressToldUp() returns (sent: seq<Event>)
    ensures sent == [ModifierUp(1)]
  {
    var manager := new EventManager(true);
    var notify := manager.KeyEvent([2]);
    sent := manager.sent;
    PressEvents();
  }

  lemma PressEvents()
    ensures SameKey(Report([0]), Report([2])) && ModifierEvents(0, 2) == [ModifierUp(1)]
  {
    assert Released(0, 2) == [] && Released(2, 0) == [1];
  }
}
