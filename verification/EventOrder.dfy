/**
 * In which order a dispatch goes through the tree, which listeners it runs on its way, and what their calls do.
 */
module EventOrder {
  import opened Sequences
  import opened Forests
  import opened Events
  import DomTree

  // The order of the visits, told of the tree.

  lemma {:induction false} ReversedAt(s: seq<EventTarget>, i: nat)
    requires i < |s|
    ensures |Reversed(s)| == |s| && Reversed(s)[i] == s[|s| - 1 - i]
  {
    ReversedLength(s[1..]);
    if i < |s| - 1 { ReversedAt(s[1..], i); }
  }

  lemma {:induction false} ReversedLength(s: seq<EventTarget>)
    ensures |Reversed(s)| == |s|
  {
    if s != [] { ReversedLength(s[1..]); }
  }

  /** The targets from the root down to the parent are those of the ancestors, the one at depth i at place i. */
  lemma {:induction false} PathAt(f: DomTree.Links, of: Targets, n: NodeImp, a: NodeImp)
    requires WellFormed(f) && n in f.kids && a in f.kids && f.kids.Keys <= of.Keys && InSubtree(f, a, n) && a != n
    ensures |PathFrom(f, of, n)| == f.depth[n] && f.depth[a] < f.depth[n] && PathFrom(f, of, n)[f.depth[a]] == of[a]
    decreases f.depth[n]
  {
    assert ChildOk(f, n);
    var p := f.parent[n];
    PathLength(f, of, n);
    PathLength(f, of, p);
    if a != p { PathAt(f, of, p, a); }
  }

  lemma {:induction false} PathLength(f: DomTree.Links, of: Targets, n: NodeImp)
    requires WellFormed(f) && n in f.kids && f.kids.Keys <= of.Keys
    ensures |PathFrom(f, of, n)| == f.depth[n]
    decreases f.depth[n]
  {
    if n in f.parent {
      assert ChildOk(f, n);
      PathLength(f, of, f.parent[n]);
    }
  }

  lemma {:induction false} AncestorAt(f: DomTree.Links, of: Targets, n: NodeImp, i: nat) returns (a: NodeImp)
    requires WellFormed(f) && n in f.kids && f.kids.Keys <= of.Keys && i < |PathFrom(f, of, n)|
    ensures a in f.kids && f.depth[a] == i && InSubtree(f, a, n) && a != n && PathFrom(f, of, n)[i] == of[a]
    decreases f.depth[n]
  {
    assert ChildOk(f, n);
    a := f.parent[n];
    PathLength(f, of, a);
    if i < f.depth[a] { a := AncestorAt(f, of, a, i); }
  }

  /** s is the window and t a node, or s is a proper ancestor of t. */
  ghost predicate Above(f: DomTree.Links, of: Targets, window: EventTarget?, s: EventTarget, t: EventTarget)
    requires WellFormed(f) && f.kids.Keys <= of.Keys
  {
    exists b :: b in f.kids && of[b] == t
      && (s == window || exists a :: a in f.kids && of[a] == s && a != b && InSubtree(f, a, b))
  }

  /** The event passes t on its way to n: the window, unless this is a load, and the ancestors. */
  ghost predicate OnTheWay(f: DomTree.Links, of: Targets, n: NodeImp, window: EventTarget?, kind: string,
                            t: EventTarget)
    requires WellFormed(f) && n in f.kids && f.kids.Keys <= of.Keys
  {
    (window != null && kind != "load" && t == window)
    || exists a :: a in f.kids && a != n && InSubtree(f, a, n) && of[a] == t
  }

  /** Each target of the path is above those that follow it, and above t. */
  ghost predicate Descends(f: DomTree.Links, of: Targets, window: EventTarget?, path: seq<EventTarget>, t: EventTarget)
    requires WellFormed(f) && f.kids.Keys <= of.Keys
  {
    && (forall i, j :: 0 <= i < j < |path| ==> Above(f, of, window, path[i], path[j]))
    && (forall i :: 0 <= i < |path| ==> Above(f, of, window, path[i], t))
  }

  lemma NodeAbove(f: DomTree.Links, of: Targets, window: EventTarget?, a: NodeImp, b: NodeImp)
    requires WellFormed(f) && f.kids.Keys <= of.Keys && b in f.kids
    ensures window != null ==> Above(f, of, window, window, of[b])
    ensures a in f.kids && a != b && InSubtree(f, a, b) ==> Above(f, of, window, of[a], of[b])
  {
    hide WellFormed, InSubtree;
  }

  lemma UpDescends(f: DomTree.Links, of: Targets, n: NodeImp, window: EventTarget?)
    requires WellFormed(f) && n in f.kids && f.kids.Keys <= of.Keys
    ensures Descends(f, of, window, PathFrom(f, of, n), of[n])
  {
    hide WellFormed, PathFrom, InSubtree, Above;
    var up := PathFrom(f, of, n);
    forall i, j | 0 <= i < j < |up| ensures Above(f, of, window, up[i], up[j]) {
      var a := AncestorAt(f, of, n, i);
      var b := AncestorAt(f, of, n, j);
      AncestorsChain(f, a, b, n);
      NodeAbove(f, of, window, a, b);
    }
    forall i | 0 <= i < |up| ensures Above(f, of, window, up[i], of[n]) {
      var a := AncestorAt(f, of, n, i);
      NodeAbove(f, of, window, a, n);
    }
  }

  lemma PathOrder(f: DomTree.Links, of: Targets, n: NodeImp, window: EventTarget?, kind: string)
    requires WellFormed(f) && n in f.kids && f.kids.Keys <= of.Keys
    ensures Descends(f, of, window, PathOf(f, of, n, window, kind), of[n])
  {
    hide WellFormed, PathFrom, InSubtree, Above;
    var path, up := PathOf(f, of, n, window, kind), PathFrom(f, of, n);
    UpDescends(f, of, n, window);
    if window != null && kind != "load" {
      NodeAbove(f, of, window, n, n);
      forall j | 0 < j < |path| ensures Above(f, of, window, window, path[j]) {
        var b := AncestorAt(f, of, n, j - 1);
        NodeAbove(f, of, window, n, b);
      }
      OneInFront(f, of, window, window, up, of[n]);
    }
  }

  lemma OneInFront(f: DomTree.Links, of: Targets, window: EventTarget?, s: EventTarget, path: seq<EventTarget>,
                   t: EventTarget)
    requires WellFormed(f) && f.kids.Keys <= of.Keys && Descends(f, of, window, path, t)
    requires Above(f, of, window, s, t) && forall j :: 0 < j < |[s] + path| ==> Above(f, of, window, s, ([s] + path)[j])
    ensures Descends(f, of, window, [s] + path, t)
  {
    hide WellFormed, Above;
    var all := [s] + path;
    forall i, j | 0 <= i < j < |all| ensures Above(f, of, window, all[i], all[j]) {
      if 0 < i { assert all[i] == path[i - 1] && all[j] == path[j - 1]; }
    }
    forall i | 0 <= i < |all| ensures Above(f, of, window, all[i], t) {
      if 0 < i { assert all[i] == path[i - 1]; }
    }
  }

  lemma PathMembers(f: DomTree.Links, of: Targets, n: NodeImp, window: EventTarget?, kind: string, t: EventTarget)
    requires WellFormed(f) && n in f.kids && f.kids.Keys <= of.Keys
    ensures t in PathOf(f, of, n, window, kind) <==> OnTheWay(f, of, n, window, kind, t)
  {
    var path, up := PathOf(f, of, n, window, kind), PathFrom(f, of, n);
    hide WellFormed, PathFrom, InSubtree;
    assert t in path <==> (window != null && kind != "load" && t == window) || t in up;
    if t in up {
      var i :| 0 <= i < |up| && up[i] == t;
      var a := AncestorAt(f, of, n, i);
    }
    if a :| a in f.kids && a != n && InSubtree(f, a, n) && of[a] == t { PathAt(f, of, n, a); }
  }

  /** u comes before v: down while capturing, then the target, and up while bubbling and by default. */
  ghost predicate Before(f: DomTree.Links, of: Targets, window: EventTarget?, u: Visit, v: Visit)
    requires WellFormed(f) && f.kids.Keys <= of.Keys
  {
    match u.phase
    case Capturing =>
      if v.phase == Capturing then Above(f, of, window, u.target, v.target)
      else v.phase == AtTarget || v.phase == Bubbling
    case AtTarget => v.phase == Bubbling
    case Bubbling => v.phase == Bubbling && Above(f, of, window, v.target, u.target)
    case DefaultPhase => v.phase == DefaultPhase && Above(f, of, window, v.target, u.target)
    case Idle => false
  }

  ghost predicate InOrder(f: DomTree.Links, of: Targets, window: EventTarget?, vs: seq<Visit>)
    requires WellFormed(f) && f.kids.Keys <= of.Keys
  {
    forall i, j :: 0 <= i < j < |vs| ==> Before(f, of, window, vs[i], vs[j])
  }

  /** The route goes down from the window or the root to the target, and up again from the parent to the window. */
  lemma RouteInOrder(f: DomTree.Links, of: Targets, n: NodeImp, window: EventTarget?, kind: string, bubbles: bool)
    requires WellFormed(f) && n in f.kids && f.kids.Keys <= of.Keys
    ensures var path := PathOf(f, of, n, window, kind);
      && InOrder(f, of, window, Route(path, of[n], bubbles))
      && InOrder(f, of, window, DefaultRoute(path, of[n], bubbles))
  {
    hide *;
    var path := PathOf(f, of, n, window, kind);
    PathOrder(f, of, n, window, kind);
    Falls(f, of, window, path, of[n], bubbles);
    Climbs(f, of, window, path, of[n], bubbles);
  }

  lemma RouteAt(path: seq<EventTarget>, t: EventTarget, bubbles: bool, i: nat)
    requires i < |Route(path, t, bubbles)|
    ensures |path| < |Route(path, t, bubbles)| <= |path| + 1 + |path|
    ensures var r, k := Route(path, t, bubbles), |path|;
      && (i < k ==> r[i] == Visit(path[i], Capturing)) && (i == k ==> r[i] == Visit(t, AtTarget))
      && (k < i ==> r[i] == Visit(path[k - (i - k)], Bubbling))
  {
    var k := |path|;
    ReversedLength(path);
    if k < i { ReversedAt(path, i - k - 1); }
    hide Reversed;
  }

  lemma Falls(f: DomTree.Links, of: Targets, window: EventTarget?, path: seq<EventTarget>, t: EventTarget,
              bubbles: bool)
    requires WellFormed(f) && f.kids.Keys <= of.Keys && Descends(f, of, window, path, t)
    ensures InOrder(f, of, window, Route(path, t, bubbles))
  {
    hide WellFormed, Above, Route;
    var r := Route(path, t, bubbles);
    forall i, j | 0 <= i < j < |r| ensures Before(f, of, window, r[i], r[j]) {
      RouteAt(path, t, bubbles, i);
      RouteAt(path, t, bubbles, j);
    }
  }

  lemma DefaultRouteAt(path: seq<EventTarget>, t: EventTarget, bubbles: bool, i: nat)
    requires i < |DefaultRoute(path, t, bubbles)|
    ensures |DefaultRoute(path, t, bubbles)| <= |path| + 1
    ensures var d, k := DefaultRoute(path, t, bubbles), |path|;
      (i == 0 ==> d[i] == Visit(t, DefaultPhase)) && (0 < i ==> d[i] == Visit(path[k - i], DefaultPhase))
  {
    ReversedLength(path);
    if 0 < i { ReversedAt(path, i - 1); }
    hide Reversed;
  }

  lemma Climbs(f: DomTree.Links, of: Targets, window: EventTarget?, path: seq<EventTarget>, t: EventTarget,
               bubbles: bool)
    requires WellFormed(f) && f.kids.Keys <= of.Keys && Descends(f, of, window, path, t)
    ensures InOrder(f, of, window, DefaultRoute(path, t, bubbles))
  {
    hide WellFormed, Above, DefaultRoute;
    var d := DefaultRoute(path, t, bubbles);
    forall i, j | 0 <= i < j < |d| ensures Before(f, of, window, d[i], d[j]) {
      DefaultRouteAt(path, t, bubbles, i);
      DefaultRouteAt(path, t, bubbles, j);
    }
  }

  /** The route comes to the target once, and to all that is on the way in each phase. */
  lemma RouteMembers(f: DomTree.Links, of: Targets, n: NodeImp, window: EventTarget?, kind: string, bubbles: bool,
                     v: Visit)
    requires WellFormed(f) && n in f.kids && f.kids.Keys <= of.Keys
    ensures var path, way := PathOf(f, of, n, window, kind), OnTheWay(f, of, n, window, kind, v.target);
      && (v in Route(path, of[n], bubbles) <==>
            v == Visit(of[n], AtTarget) || (v.phase == Capturing && way) || (bubbles && v.phase == Bubbling && way))
      && (v in DefaultRoute(path, of[n], bubbles) <==>
            v == Visit(of[n], DefaultPhase) || (bubbles && v.phase == DefaultPhase && way))
  {
    var path := PathOf(f, of, n, window, kind);
    PathMembers(f, of, n, window, kind, v.target);
    hide WellFormed, PathOf, OnTheWay;
    RouteTargets(path);
    AlongMembers(path, Capturing, v);
    AlongMembers(Reversed(path), Bubbling, v);
    AlongMembers(Reversed(path), DefaultPhase, v);
  }

  lemma AlongMembers(ts: seq<EventTarget>, p: Phase, v: Visit)
    ensures v in Along(ts, p) <==> v.phase == p && v.target in ts
  {
    if v.phase == p && v.target in ts {
      var i :| 0 <= i < |ts| && ts[i] == v.target;
      assert Along(ts, p)[i] == v;
    }
  }

  /** So of any two visits of a dispatch the earlier comes before the later, as the tree has them. */
  lemma DispatchInOrder(f: DomTree.Links, of: Targets, n: NodeImp, window: EventTarget?, kind: string, d: Dispatch,
                        react: Reaction, visits: seq<Visit>, defaults: seq<Visit>, f2: Flags)
    requires WellFormed(f) && n in f.kids && f.kids.Keys <= of.Keys
    requires d.path == PathOf(f, of, n, window, kind) && d.target == of[n]
    requires Dispatched(d, react, visits, defaults, f2)
    ensures InOrder(f, of, window, visits) && InOrder(f, of, window, defaults)
  {
    RouteInOrder(f, of, n, window, kind, d.bubbles);
    hide WellFormed, PathOf, Before, Route, DefaultRoute, FlagsAlong, Unhalted;
  }

  // What the log says.

  /** A listener is run only in a phase that it is for. */
  ghost predicate ForPhase(l: Listener, p: Phase) {
    && (p == Capturing ==> l.useCapture && !l.useDefault) && (p == Bubbling ==> !l.useCapture && !l.useDefault)
    && (p == AtTarget ==> !l.useDefault) && (p == DefaultPhase ==> l.useDefault) && p != Idle
  }

  lemma {:induction false} MatchingMeans(ls: seq<Listener>, p: Phase)
    ensures forall l :: l in Matching(ls, p) <==> l in ls && ForPhase(l, p)
  {
    if ls != [] {
      assert ls == [ls[0]] + ls[1..];
      MatchingMeans(ls[1..], p);
    }
  }

  /** What a run of the log calls. */
  ghost predicate Calls(r: Run, react: Reaction, c: Call) {
    r.target != null && c in react(r.listener, r.target, r.phase)
  }

  ghost predicate AnyCalls(rs: seq<Run>, react: Reaction, c: Call) { exists r :: r in rs && Calls(r, react, c) }

  lemma AnyCallsBoth(a: seq<Run>, b: seq<Run>, react: Reaction, c: Call)
    ensures AnyCalls(a + b, react, c) <==> AnyCalls(a, react, c) || AnyCalls(b, react, c)
  {
    assert forall r :: r in a + b <==> r in a || r in b;
  }

  /** The flags g are f and what the calls of these runs have done to it. */
  ghost predicate Told(g: Flags, f: Flags, rs: seq<Run>, react: Reaction) {
    && (g.stop <==> f.stop || AnyCalls(rs, react, Stop) || AnyCalls(rs, react, StopImmediate))
    && (g.stopImmediate <==> f.stopImmediate || AnyCalls(rs, react, StopImmediate))
    && (g.canceled <==> f.canceled || (f.cancelable && AnyCalls(rs, react, Prevent))) && g.cancelable == f.cancelable
  }

  lemma {:induction false} CallsTold(f: Flags, cs: seq<Call>)
    ensures var g := ApplyAll(f, cs);
      && (g.stop <==> f.stop || Stop in cs || StopImmediate in cs)
      && (g.stopImmediate <==> f.stopImmediate || StopImmediate in cs)
      && (g.canceled <==> f.canceled || (f.cancelable && Prevent in cs)) && g.cancelable == f.cancelable
    decreases |cs|
  {
    if cs != [] {
      assert cs == [cs[0]] + cs[1..];
      CallsTold(Apply(f, cs[0]), cs[1..]);
    }
  }

  lemma NoneCalls(react: Reaction, c: Call)
    ensures !AnyCalls([], react, c)
  {
  }

  lemma ToldNothing(f: Flags, react: Reaction)
    ensures Told(f, f, [], react)
  {
  }

  lemma ToldMore(g: Flags, h: Flags, f: Flags, a: seq<Run>, b: seq<Run>, react: Reaction)
    requires Told(h, f, a, react) && Told(g, h, b, react)
    ensures Told(g, f, a + b, react)
  {
    AnyCallsBoth(a, b, react, Stop);
    AnyCallsBoth(a, b, react, StopImmediate);
    AnyCallsBoth(a, b, react, Prevent);
    hide AnyCalls;
  }

  lemma ToldOne(f: Flags, l: Listener, t: EventTarget, p: Phase, react: Reaction)
    ensures Told(ApplyAll(f, react(l, t, p)), f, [Run(l, t, p)], react)
  {
    CallsTold(f, react(l, t, p));
    assert forall c :: AnyCalls([Run(l, t, p)], react, c) <==> Calls([Run(l, t, p)][0], react, c);
    hide ApplyAll;
  }

  lemma {:induction false} RunsInFront(l: Listener, ls: seq<Listener>, t: EventTarget, p: Phase)
    ensures Runs([l] + ls, t, p) == [Run(l, t, p)] + Runs(ls, t, p)
  {
  }

  /** No run but the last stops immediately. */
  ghost predicate NothingBehind(rs: seq<Run>, react: Reaction) {
    forall i :: 0 <= i < |rs| - 1 ==> !Calls(rs[i], react, StopImmediate)
  }

  lemma NothingAtAll(react: Reaction)
    ensures NothingBehind([], react)
  {
  }

  lemma NothingMore(r: Run, rs: seq<Run>, react: Reaction)
    requires NothingBehind(rs, react) && (Calls(r, react, StopImmediate) ==> rs == [])
    ensures NothingBehind([r] + rs, react)
  {
    hide Calls;
  }

  /** The flags that a visit leaves are those of the calls of its runs; and nothing runs behind an immediate stop. */
  lemma {:induction false} VisitTold(ls: seq<Listener>, f: Flags, t: EventTarget, p: Phase, react: Reaction)
    ensures var rs := Runs(Fired(ls, f, t, p, react), t, p);
      && Told(FlagsAfter(ls, f, t, p, react), f, rs, react)
      && NothingBehind(rs, react)
  {
    hide Told, ApplyAll, Wanted, Calls, NothingBehind;
    ToldNothing(f, react);
    NothingAtAll(react);
    if ls != [] && !f.stopImmediate {
      if Wanted(ls[0], p) {
        var g := ApplyAll(f, react(ls[0], t, p));
        VisitTold(ls[1..], g, t, p, react);
        var more := Fired(ls[1..], g, t, p, react);
        RunsInFront(ls[0], more, t, p);
        ToldOne(f, ls[0], t, p, react);
        ToldMore(FlagsAfter(ls[1..], g, t, p, react), g, f, [Run(ls[0], t, p)], Runs(more, t, p), react);
        NoMore(f, ls[0], ls[1..], t, p, react);
        NothingMore(Run(ls[0], t, p), Runs(more, t, p), react);
      } else {
        VisitTold(ls[1..], f, t, p, react);
      }
    }
  }

  lemma NoMore(f: Flags, l: Listener, ls: seq<Listener>, t: EventTarget, p: Phase, react: Reaction)
    ensures Calls(Run(l, t, p), react, StopImmediate) ==> Fired(ls, ApplyAll(f, react(l, t, p)), t, p, react) == []
  {
    CallsTold(f, react(l, t, p));
  }

  /** Nothing runs behind an immediate stop; and behind a stop only what is at the same target in the same phase. */
  ghost predicate StopsThere(rs: seq<Run>, react: Reaction) {
    && NothingBehind(rs, react)
    && (forall i, j :: 0 <= i < j < |rs| && Calls(rs[i], react, Stop) ==>
          rs[j].target == rs[i].target && rs[j].phase == rs[i].phase)
  }

  /** The log of the visits of a dispatch, up to the first halt, and the flags that they leave. */
  lemma {:induction false} VisitsTold(vs: seq<Visit>, f: Flags, lists: Lists, react: Reaction)
    ensures Told(FlagsAlong(vs, f, lists, react), f, RunsAlong(vs, f, lists, react), react)
  {
    hide Told, Runs, FlagsAfter, Fired;
    ToldNothing(f, react);
    if vs != [] {
      var n := |vs| - 1;
      var v, g := vs[n], FlagsAlong(vs[..n], f, lists, react);
      VisitsTold(vs[..n], f, lists, react);
      VisitTold(ListIn(lists, v.target), g, v.target, v.phase, react);
      ToldMore(FlagsAlong(vs, f, lists, react), g, f, RunsAlong(vs[..n], f, lists, react), RunsAt(v, g, lists, react),
               react);
    }
  }

  /** A stop halts the visits before the next target. */
  lemma {:induction false} VisitsStop(vs: seq<Visit>, f: Flags, lists: Lists, react: Reaction)
    requires Unhalted(vs, f, lists, react, false)
    ensures StopsThere(RunsAlong(vs, f, lists, react), react)
  {
    hide Fired, FlagsAfter, FlagsAlong, Calls, Unhalted, AnyCalls, NothingBehind, StopsThere;
    if vs == [] {
      NoneStops(react);
    } else {
      var n := |vs| - 1;
      var v, g := vs[n], FlagsAlong(vs[..n], f, lists, react);
      StillGoing(vs, f, lists, react);
      VisitsStop(vs[..n], f, lists, react);
      VisitsTold(vs[..n], f, lists, react);
      VisitTold(ListIn(lists, v.target), g, v.target, v.phase, react);
      Joined(RunsAlong(vs[..n], f, lists, react), RunsAt(v, g, lists, react), v, react);
    }
  }

  lemma NoneStops(react: Reaction)
    ensures StopsThere([], react)
  {
  }

  lemma StillGoing(vs: seq<Visit>, f: Flags, lists: Lists, react: Reaction)
    requires Unhalted(vs, f, lists, react, false) && vs != []
    ensures var init := vs[..|vs| - 1];
      Unhalted(init, f, lists, react, false) && !FlagsAlong(init, f, lists, react).stop
  {
    hide FlagsAlong;
    var n := |vs| - 1;
    forall k | 0 <= k < n ensures !Halted(FlagsAlong(vs[..n][..k], f, lists, react), false) {
      assert vs[..n][..k] == vs[..k];
    }
  }

  lemma Joined(a: seq<Run>, b: seq<Run>, v: Visit, react: Reaction)
    requires StopsThere(a, react) && !AnyCalls(a, react, Stop) && !AnyCalls(a, react, StopImmediate)
    requires NothingBehind(b, react)
    requires forall i :: 0 <= i < |b| ==> b[i].target == v.target && b[i].phase == v.phase
    ensures StopsThere(a + b, react)
  {
    hide Calls;
    assert forall i :: 0 <= i < |a| ==> (a + b)[i] == a[i] && a[i] in a;
    assert forall i :: |a| <= i < |a + b| ==> (a + b)[i] == b[i - |a|];
  }

  /** The runs of the log: each of a listener of its target's list, in a phase that the listener is for. */
  lemma {:induction false} RunsListed(vs: seq<Visit>, f: Flags, lists: Lists, react: Reaction)
    ensures forall r :: r in RunsAlong(vs, f, lists, react) ==>
      r.target != null && Visit(r.target, r.phase) in vs && r.listener in ListIn(lists, r.target)
      && ForPhase(r.listener, r.phase)
  {
    if vs != [] {
      var n := |vs| - 1;
      var v, g := vs[n], FlagsAlong(vs[..n], f, lists, react);
      RunsListed(vs[..n], f, lists, react);
      var ls := ListIn(lists, v.target);
      FiredInOrder(ls, g, v.target, v.phase, react);
      MatchingMeans(ls, v.phase);
      assert vs == vs[..n] + [v];
      hide Fired, FlagsAlong, Matching, ForPhase, ListIn;
      var fired := Fired(ls, g, v.target, v.phase, react);
      forall r | r in RunsAt(v, g, lists, react)
        ensures r.target == v.target && r.phase == v.phase && r.listener in ls && ForPhase(r.listener, r.phase)
      {
        var i :| 0 <= i < |fired| && r == Runs(fired, v.target, v.phase)[i];
        assert fired[i] == Matching(ls, v.phase)[i];
      }
    }
  }

  /** Without an immediate stop, every listener that is for the phase runs at each visit. */
  lemma {:induction false} AllRun(vs: seq<Visit>, f: Flags, lists: Lists, react: Reaction, v: Visit, l: Listener)
    requires !FlagsAlong(vs, f, lists, react).stopImmediate
    requires v in vs && l in ListIn(lists, v.target) && ForPhase(l, v.phase)
    ensures Run(l, v.target, v.phase) in RunsAlong(vs, f, lists, react)
  {
    hide Fired, ForPhase, ListIn, FlagsAfter;
    var n := |vs| - 1;
    var w, g := vs[n], FlagsAlong(vs[..n], f, lists, react);
    VisitTold(ListIn(lists, w.target), g, w.target, w.phase, react);
    if v == w {
      RunsHere(ListIn(lists, w.target), g, w.target, w.phase, react, l);
    } else {
      assert vs == vs[..n] + [w];
      AllRun(vs[..n], f, lists, react, v, l);
    }
  }

  lemma RunsHere(ls: seq<Listener>, g: Flags, t: EventTarget, p: Phase, react: Reaction, l: Listener)
    requires !FlagsAfter(ls, g, t, p, react).stopImmediate && l in ls && ForPhase(l, p)
    ensures Run(l, t, p) in Runs(Fired(ls, g, t, p, react), t, p)
  {
    hide Fired, Matching, ForPhase, FlagsAfter;
    FiredInOrder(ls, g, t, p, react);
    MatchingMeans(ls, p);
    var fired := Fired(ls, g, t, p, react);
    var i :| 0 <= i < |fired| && fired[i] == l;
    assert Runs(fired, t, p)[i] == Run(l, t, p);
  }

  /**
   * The log of a whole dispatch: its runs are of listeners that are for their phase, a stop halts it before the next
   * target, an immediate stop at once, also for the default phase, and the default phase is entered just if no run
   * before it has prevented the default of a cancelable event.
   */
  lemma DispatchTold(d: Dispatch, react: Reaction, visits: seq<Visit>, defaults: seq<Visit>, f2: Flags)
    requires Dispatched(d, react, visits, defaults, f2)
    ensures forall r :: r in RunsIn(d, react, visits, defaults) ==> r.target != null && ForPhase(r.listener, r.phase)
    ensures StopsThere(RunsAlong(visits, d.flags, d.lists, react), react)
    ensures Told(f2, d.flags, RunsIn(d, react, visits, defaults), react)
    ensures var early := RunsAlong(visits, d.flags, d.lists, react);
      defaults == [] <==> (d.flags.canceled || (d.flags.cancelable && AnyCalls(early, react, Prevent)))
  {
    hide RunsAlong, FlagsAlong, Unhalted, Route, Told, StopsThere, ForPhase, Calls;
    var f1 := FlagsAlong(visits, d.flags, d.lists, react);
    RunsListed(visits, d.flags, d.lists, react);
    RunsListed(defaults, f1, d.lists, react);
    VisitsStop(visits, d.flags, d.lists, react);
    VisitsTold(visits, d.flags, d.lists, react);
    VisitsTold(defaults, f1, d.lists, react);
    ToldMore(f2, f1, d.flags, RunsAlong(visits, d.flags, d.lists, react), RunsAlong(defaults, f1, d.lists, react),
             react);
    DefaultsEmpty(d, react, visits, defaults, f2);
  }

  lemma DefaultsEmpty(d: Dispatch, react: Reaction, visits: seq<Visit>, defaults: seq<Visit>, f2: Flags)
    requires Dispatched(d, react, visits, defaults, f2)
    requires var early := RunsAlong(visits, d.flags, d.lists, react);
      Told(FlagsAlong(visits, d.flags, d.lists, react), d.flags, early, react)
    ensures var early := RunsAlong(visits, d.flags, d.lists, react);
      defaults == [] <==> (d.flags.canceled || (d.flags.cancelable && AnyCalls(early, react, Prevent)))
  {
    hide RunsAlong, Route, Calls, AnyCalls;
    var f1 := FlagsAlong(visits, d.flags, d.lists, react);
    assert FlagsAlong([], f1, d.lists, react) == f1;
    assert defaults != [] ==> defaults[..0] == [];
  }
}
