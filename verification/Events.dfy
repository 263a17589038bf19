/**
 * Event listeners and dispatch: which targets an event visits in which phase, and which
 * listeners run there. Listeners may set the event's flags but leave the lists alone.
 */
module Events {
  import opened Sequences
  import opened Forests
  import DomTree

  type NodeImp = DomTree.NodeImp

  datatype Phase = Idle | Capturing | AtTarget | Bubbling | DefaultPhase

  datatype Listener = Listener(handler: nat, useCapture: bool, useDefault: bool)

  /** What a listener may do to the event. */
  datatype Call = Stop | StopImmediate | Prevent

  datatype Flags = Flags(stop: bool, stopImmediate: bool, cancelable: bool, canceled: bool)

  function Apply(f: Flags, c: Call): Flags {
    match c
    case Stop => f.(stop := true)
    case StopImmediate => f.(stop := true, stopImmediate := true)
    case Prevent => if f.cancelable then f.(canceled := true) else f
  }

  function ApplyAll(f: Flags, cs: seq<Call>): Flags
    decreases |cs|
  {
    if cs == [] then f else ApplyAll(Apply(f, cs[0]), cs[1..])
  }

  predicate Wanted(l: Listener, p: Phase) {
    match p
    case Capturing => l.useCapture && !l.useDefault
    case Bubbling => !l.useCapture && !l.useDefault
    case AtTarget => !l.useDefault
    case DefaultPhase => l.useDefault
    case Idle => false
  }

  /** What each listener does when it runs at a target in a phase. */
  type Reaction = (Listener, EventTarget, Phase) -> seq<Call>

  datatype Visit = Visit(target: EventTarget, phase: Phase)

  /** A listener run, with the current target and the phase it found in the event. */
  datatype Run = Run(listener: Listener, target: EventTarget?, phase: Phase)

  // One visit.

  /** The listeners that run, out of a list, with the flags they find. */
  ghost function Fired(ls: seq<Listener>, f: Flags, t: EventTarget, p: Phase, react: Reaction): seq<Listener> {
    if ls == [] || f.stopImmediate then []
    else if Wanted(ls[0], p) then [ls[0]] + Fired(ls[1..], ApplyAll(f, react(ls[0], t, p)), t, p, react)
    else Fired(ls[1..], f, t, p, react)
  }

  ghost function Runs(ls: seq<Listener>, t: EventTarget?, p: Phase): (rs: seq<Run>)
    ensures |rs| == |ls| && forall i :: 0 <= i < |ls| ==> rs[i] == Run(ls[i], t, p)
  {
    if ls == [] then [] else Runs(ls[..|ls| - 1], t, p) + [Run(ls[|ls| - 1], t, p)]
  }

  lemma RunsStep(ls: seq<Listener>, l: Listener, t: EventTarget?, p: Phase)
    ensures Runs(ls + [l], t, p) == Runs(ls, t, p) + [Run(l, t, p)]
  {
    assert (ls + [l])[..|ls|] == ls;
  }

  lemma NoRuns(t: EventTarget?, p: Phase)
    ensures Runs([], t, p) == []
  {
  }

  ghost function FlagsAfter(ls: seq<Listener>, f: Flags, t: EventTarget, p: Phase, react: Reaction): Flags {
    if ls == [] || f.stopImmediate then f
    else if Wanted(ls[0], p) then FlagsAfter(ls[1..], ApplyAll(f, react(ls[0], t, p)), t, p, react)
    else FlagsAfter(ls[1..], f, t, p, react)
  }

  ghost function Matching(ls: seq<Listener>, p: Phase): seq<Listener> {
    if ls == [] then [] else (if Wanted(ls[0], p) then [ls[0]] else []) + Matching(ls[1..], p)
  }

  lemma {:induction false} FlagsGrow(f: Flags, cs: seq<Call>)
    ensures var g := ApplyAll(f, cs);
      && (f.stop ==> g.stop) && (f.stopImmediate ==> g.stopImmediate) && (f.canceled ==> g.canceled)
      && g.cancelable == f.cancelable
    decreases |cs|
  {
    if cs != [] { FlagsGrow(Apply(f, cs[0]), cs[1..]); }
  }

  /**
   * A visit runs the listeners meant for the phase in registration order, all of them unless
   * the event was stopped immediately, and then a prefix of them.
   */
  lemma {:induction false} FiredInOrder(ls: seq<Listener>, f: Flags, t: EventTarget, p: Phase, react: Reaction)
    ensures Fired(ls, f, t, p, react) <= Matching(ls, p)
    ensures Fired(ls, f, t, p, react) != Matching(ls, p) ==> FlagsAfter(ls, f, t, p, react).stopImmediate
    ensures f.stopImmediate ==> Fired(ls, f, t, p, react) == []
  {
    hide Wanted, ApplyAll;
    if ls != [] && !f.stopImmediate {
      FiredInOrder(ls[1..], if Wanted(ls[0], p) then ApplyAll(f, react(ls[0], t, p)) else f, t, p, react);
    }
  }

  lemma {:induction false} MatchingNoDup(ls: seq<Listener>, p: Phase)
    requires NoDup(ls)
    ensures NoDup(Matching(ls, p)) && forall l :: l in Matching(ls, p) <==> l in ls && Wanted(l, p)
  {
    if ls != [] {
      var t := ls[1..];
      assert ls == [ls[0]] + t;
      MatchingNoDup(t, p);
      assert ls[0] !in t;
    }
  }

  /** With a duplicate-free list each entry runs at most once per visit. */
  lemma FiredOnce(ls: seq<Listener>, f: Flags, t: EventTarget, p: Phase, react: Reaction)
    requires NoDup(ls)
    ensures NoDup(Fired(ls, f, t, p, react)) && forall l :: l in Fired(ls, f, t, p, react) ==> l in ls && Wanted(l, p)
  {
    FiredInOrder(ls, f, t, p, react);
    MatchingNoDup(ls, p);
  }

  // Listener lists.

  ghost function Added(ls: seq<Listener>, item: Listener): seq<Listener> {
    if item in ls then ls else ls + [item]
  }

  datatype Change = Add(kind: string, item: Listener) | Remove(kind: string, item: Listener)

  type Table = map<string, seq<Listener>>

  ghost function ListOf(m: Table, kind: string): seq<Listener> { if kind in m then m[kind] else [] }

  ghost function Changed(m: Table, c: Change): Table {
    match c
    case Add(k, item) => m[k := Added(ListOf(m, k), item)]
    case Remove(k, item) => if k in m then m[k := Without(m[k], item)] else m
  }

  ghost function AllChanged(m: Table, cs: seq<Change>): Table {
    if cs == [] then m else Changed(AllChanged(m, cs[..|cs| - 1]), cs[|cs| - 1])
  }

  ghost predicate Clean(m: Table) { forall k :: k in m ==> NoDup(m[k]) }

  /** Over every run of additions and removals no list ever holds an entry twice. */
  lemma {:induction false} ListsStayClean(m: Table, cs: seq<Change>)
    requires Clean(m)
    ensures Clean(AllChanged(m, cs))
  {
    if cs != [] {
      var n := |cs| - 1;
      ListsStayClean(m, cs[..n]);
      var b := AllChanged(m, cs[..n]);
      forall k | k in Changed(b, cs[n]) ensures NoDup(Changed(b, cs[n])[k]) {
        if cs[n].Remove? && k == cs[n].kind { WithoutNoDup(b[k], cs[n].item); }
      }
    }
  }

  /** Adding and removing again: the entry is gone, and every other entry keeps its place. */
  lemma AddThenRemove(m: Table, k: string, item: Listener)
    requires Clean(m) && item !in ListOf(m, k)
    ensures ListOf(Changed(Changed(m, Add(k, item)), Remove(k, item)), k) == ListOf(m, k)
  {
    var ls := ListOf(m, k);
    assert ls + [item] == InsertAt(ls, |ls|, item);
    InsertThenTakeOut(ls, |ls|, item);
  }

  class EventTarget {
    var map_: Table

    constructor ()
      ensures map_ == map[]
    {
      map_ := map[];
    }

    method AddEventListener(kind: string, handler: Option<nat>, useCapture: bool, useDefault: bool)
      modifies this
      ensures map_ == if handler == None then old(map_) else
                Changed(old(map_), Add(kind, Listener(handler.value, useCapture, useDefault)))
    {
      if handler == None {
        return;
      }
      var item := Listener(handler.value, useCapture, useDefault);
      if kind !in map_ {
        assert [] + [item] == [item];
        map_ := map_[kind := [item]];
        return;
      }
      var listeners := map_[kind];
      var i := 0;
      while i < |listeners|
        invariant i <= |listeners| && item !in listeners[..i] && map_ == old(map_)
      {
        if listeners[i] == item {
          assert listeners[i] in listeners && Added(listeners, item) == listeners;
          assert Changed(map_, Add(kind, item)) == map_[kind := listeners] == map_;
          return;
        }
        i := i + 1;
      }
      map_ := map_[kind := listeners + [item]];
    }

    method RemoveEventListener(kind: string, handler: Option<nat>, useCapture: bool, useDefault: bool)
      modifies this
      ensures map_ == if handler == None then old(map_) else
                Changed(old(map_), Remove(kind, Listener(handler.value, useCapture, useDefault)))
    {
      if handler == None {
        return;
      }
      var item := Listener(handler.value, useCapture, useDefault);
      if kind !in map_ {
        return;
      }
      var listeners := map_[kind];
      var i := 0;
      while i < |listeners|
        invariant i <= |listeners| && item !in listeners[..i] && map_ == old(map_)
      {
        if listeners[i] == item {
          IndexOfFirst(listeners, i);
          map_ := map_[kind := listeners[..i] + listeners[i + 1..]];
          return;
        }
        i := i + 1;
      }
      assert map_[kind := map_[kind]] == map_;
    }

    /** Runs the listeners for the event's type and phase, each of them once and in order. */
    method Invoke(event: Event, react: Reaction)
      modifies event`stopPropagationFlag, event`stopImmediatePropagationFlag, event`canceledFlag, event`log
      ensures var fired := Fired(ListOf(map_, event.kind), old(event.FlagsNow()), this, event.phase, react);
        event.log == old(event.log) + Runs(fired, event.currentTarget, event.phase)
      ensures event.FlagsNow() == FlagsAfter(ListOf(map_, event.kind), old(event.FlagsNow()), this, event.phase, react)
    {
      hide Runs, Apply, ApplyAll;
      ghost var fired: seq<Listener> := [];
      NoRuns(event.currentTarget, event.phase);
      if event.kind !in map_ {
        return;
      }
      var listeners := map_[event.kind];
      ghost var f0 := event.FlagsNow();
      var i := 0;
      while i < |listeners|
        invariant i <= |listeners| && event.log == old(event.log) + Runs(fired, event.currentTarget, event.phase)
        invariant fired + Fired(listeners[i..], event.FlagsNow(), this, event.phase, react)
               == Fired(listeners, f0, this, event.phase, react)
        invariant FlagsAfter(listeners[i..], event.FlagsNow(), this, event.phase, react)
               == FlagsAfter(listeners, f0, this, event.phase, react)
        decreases |listeners| - i
      {
        if event.stopImmediatePropagationFlag {
          return;
        }
        var l := listeners[i];
        assert listeners[i..][0] == l && listeners[i..][1..] == listeners[i + 1..];
        var run := false;
        match event.phase {
          case Capturing => run := l.useCapture && !l.useDefault;
          case Bubbling => run := !l.useCapture && !l.useDefault;
          case AtTarget => run := !l.useDefault;
          case DefaultPhase => run := l.useDefault;
          case Idle =>
        }
        if run {
          event.Handle(l, react(l, this, event.phase));
          RunsStep(fired, l, event.currentTarget, event.phase);
          fired := fired + [l];
        }
        i := i + 1;
      }
    }
  }

  class Event {
    var kind: string
    var target: EventTarget?
    var currentTarget: EventTarget?
    var phase: Phase
    var stopPropagationFlag: bool
    var stopImmediatePropagationFlag: bool
    var bubbleFlag: bool
    var cancelFlag: bool
    var canceledFlag: bool
    var trustedFlag: bool
    var initializedFlag: bool
    var dispatchFlag: bool

    /** Every listener this event was ever handed to. */
    var log: seq<Run>

    ghost function FlagsNow(): Flags
      reads this`stopPropagationFlag, this`stopImmediatePropagationFlag, this`cancelFlag, this`canceledFlag
    {
      Flags(stopPropagationFlag, stopImmediatePropagationFlag, cancelFlag, canceledFlag)
    }

    constructor ()
      ensures log == [] && FlagsNow() == Flags(false, false, false, false) && !bubbleFlag && !dispatchFlag
      ensures !initializedFlag
    {
      kind, target, currentTarget, phase := "", null, null, Idle;
      stopPropagationFlag, stopImmediatePropagationFlag := false, false;
      bubbleFlag, cancelFlag, canceledFlag := false, false, false;
      trustedFlag, initializedFlag, dispatchFlag := false, false, false;
      log := [];
    }

    method StopPropagation()
      modifies this`stopPropagationFlag
      ensures FlagsNow() == Apply(old(FlagsNow()), Stop)
    {
      stopPropagationFlag := true;
    }

    method StopImmediatePropagation()
      modifies this`stopPropagationFlag, this`stopImmediatePropagationFlag
      ensures FlagsNow() == Apply(old(FlagsNow()), StopImmediate)
    {
      stopPropagationFlag := true;
      stopImmediatePropagationFlag := true;
    }

    method PreventDefault()
      modifies this`canceledFlag
      ensures FlagsNow() == Apply(old(FlagsNow()), Prevent)
    {
      if cancelFlag {
        canceledFlag := true;
      }
    }

    /** The event has made these visits: its flags and its log are what they leave. */
    ghost predicate Went(before: seq<Run>, vs: seq<Visit>, f0: Flags, lists: Lists, react: Reaction)
      reads this`stopPropagationFlag, this`stopImmediatePropagationFlag, this`cancelFlag, this`canceledFlag, this`log
    {
      FlagsNow() == FlagsAlong(vs, f0, lists, react) && log == before + RunsAlong(vs, f0, lists, react)
    }

    /** handleEvent of a listener: it is logged with what it sees, and makes its calls on the event. */
    method Handle(l: Listener, calls: seq<Call>)
      modifies this`stopPropagationFlag, this`stopImmediatePropagationFlag, this`canceledFlag, this`log
      ensures log == old(log) + [Run(l, currentTarget, phase)]
      ensures FlagsNow() == ApplyAll(old(FlagsNow()), calls)
    {
      log := log + [Run(l, currentTarget, phase)];
      var i := 0;
      while i < |calls|
        invariant log == old(log) + [Run(l, currentTarget, phase)]
        invariant i <= |calls| && ApplyAll(FlagsNow(), calls[i..]) == ApplyAll(old(FlagsNow()), calls)
        decreases |calls| - i
      {
        assert calls[i..][1..] == calls[i + 1..];
        match calls[i] {
          case Stop => StopPropagation();
          case StopImmediate => StopImmediatePropagation();
          case Prevent => PreventDefault();
        }
        i := i + 1;
      }
    }

    /**
     * During a dispatch nothing but the initialized flag changes; bubbling and cancelable are only ever switched on.
     */
    method InitEvent(kind: string, bubbles: bool, cancelable: bool)
      modifies this
      ensures initializedFlag && log == old(log) && dispatchFlag == old(dispatchFlag) && phase == old(phase)
      ensures currentTarget == old(currentTarget)
      ensures old(dispatchFlag) ==> FlagsNow() == old(FlagsNow()) && this.kind == old(this.kind)
      ensures old(dispatchFlag) ==> target == old(target) && bubbleFlag == old(bubbleFlag)
      ensures old(dispatchFlag) ==> trustedFlag == old(trustedFlag)
      ensures !old(dispatchFlag) ==> this.kind == kind && target == null && !trustedFlag
      ensures !old(dispatchFlag) ==> FlagsNow() == Flags(false, false, old(cancelFlag) || cancelable, false)
      ensures !old(dispatchFlag) ==> bubbleFlag == (old(bubbleFlag) || bubbles)
    {
      initializedFlag := true;
      if dispatchFlag {
        return;
      }
      stopPropagationFlag := false;
      stopImmediatePropagationFlag := false;
      canceledFlag := false;
      trustedFlag := false;
      target := null;
      this.kind := kind;
      if bubbles {
        bubbleFlag := true;
      }
      if cancelable {
        cancelFlag := true;
      }
    }
  }

  // A dispatch.

  function Reversed(s: seq<EventTarget>): seq<EventTarget> {
    if s == [] then [] else Reversed(s[1..]) + [s[0]]
  }

  ghost function Along(ts: seq<EventTarget>, p: Phase): (vs: seq<Visit>)
    ensures |vs| == |ts| && forall i :: 0 <= i < |ts| ==> vs[i] == Visit(ts[i], p)
  {
    if ts == [] then [] else Along(ts[..|ts| - 1], p) + [Visit(ts[|ts| - 1], p)]
  }

  /** Root to parent, the target, and back up when the event bubbles. */
  ghost function Route(path: seq<EventTarget>, t: EventTarget, bubbles: bool): seq<Visit> {
    Along(path, Capturing) + [Visit(t, AtTarget)] + if bubbles then Along(Reversed(path), Bubbling) else []
  }

  ghost function DefaultRoute(path: seq<EventTarget>, t: EventTarget, bubbles: bool): seq<Visit> {
    [Visit(t, DefaultPhase)] + if bubbles then Along(Reversed(path), DefaultPhase) else []
  }

  /** The listener lists for the event's type, target by target. */
  type Lists = map<EventTarget, seq<Listener>>

  ghost function ListIn(lists: Lists, t: EventTarget): seq<Listener> { if t in lists then lists[t] else [] }

  ghost function ListsFor(node: EventTarget, path: seq<EventTarget>, kind: string): Lists
    reads node`map_, path`map_
  {
    map t | t in path + [node] :: ListOf(t.map_, kind)
  }

  /** The flags after these visits. */
  ghost function FlagsAlong(vs: seq<Visit>, f: Flags, lists: Lists, react: Reaction): Flags
  {
    if vs == [] then f else
      var n := |vs| - 1;
      FlagsAfter(ListIn(lists, vs[n].target), FlagsAlong(vs[..n], f, lists, react), vs[n].target, vs[n].phase, react)
  }

  /** What one visit runs when the event comes to it with flags g. */
  ghost function RunsAt(v: Visit, g: Flags, lists: Lists, react: Reaction): seq<Run> {
    Runs(Fired(ListIn(lists, v.target), g, v.target, v.phase, react), v.target, v.phase)
  }

  /** The listeners that run during these visits. */
  ghost function RunsAlong(vs: seq<Visit>, f: Flags, lists: Lists, react: Reaction): seq<Run>
  {
    if vs == [] then [] else
      var n := |vs| - 1;
      var v := vs[n];
      RunsAlong(vs[..n], f, lists, react) + RunsAt(v, FlagsAlong(vs[..n], f, lists, react), lists, react)
  }

  ghost predicate Halted(f: Flags, byCancel: bool) { if byCancel then f.canceled else f.stop }

  /** No visit of vs begins with the event halted. */
  ghost predicate Unhalted(vs: seq<Visit>, f: Flags, lists: Lists, react: Reaction, byCancel: bool)
  {
    forall k :: 0 <= k < |vs| ==> !Halted(FlagsAlong(vs[..k], f, lists, react), byCancel)
  }

  /** vs is the route up to the first point at which the event is halted. */
  ghost predicate CutAtHalt(vs: seq<Visit>, route: seq<Visit>, f: Flags, lists: Lists, react: Reaction, byCancel: bool)
  {
    && vs <= route && Unhalted(vs, f, lists, react, byCancel)
    && (|vs| < |route| ==> Halted(FlagsAlong(vs, f, lists, react), byCancel))
  }

  /** There is only one such cut. */
  lemma CutUnique(vs: seq<Visit>, ws: seq<Visit>, route: seq<Visit>, f: Flags, lists: Lists, react: Reaction,
          byCancel: bool)
    requires CutAtHalt(vs, route, f, lists, react, byCancel) && CutAtHalt(ws, route, f, lists, react, byCancel)
    ensures vs == ws
  {
    assert |vs| <= |ws| ==> ws[..|vs|] == vs;
    assert |ws| <= |vs| ==> vs[..|ws|] == ws;
  }

  lemma FlagsAlongStep(vs: seq<Visit>, v: Visit, f: Flags, lists: Lists, react: Reaction)
    ensures FlagsAlong(vs + [v], f, lists, react)
         == FlagsAfter(ListIn(lists, v.target), FlagsAlong(vs, f, lists, react), v.target, v.phase, react)
    ensures RunsAlong(vs + [v], f, lists, react) == RunsAlong(vs, f, lists, react)
         + RunsAt(v, FlagsAlong(vs, f, lists, react), lists, react)
  {
    assert (vs + [v])[..|vs|] == vs;
  }

  lemma UnhaltedStep(vs: seq<Visit>, v: Visit, f: Flags, lists: Lists, react: Reaction, byCancel: bool)
    requires Unhalted(vs, f, lists, react, byCancel) && !Halted(FlagsAlong(vs, f, lists, react), byCancel)
    ensures Unhalted(vs + [v], f, lists, react, byCancel)
  {
    var ws := vs + [v];
    forall k | 0 <= k < |ws| ensures !Halted(FlagsAlong(ws[..k], f, lists, react), byCancel) {
      assert ws[..k] == if k < |vs| then vs[..k] else vs;
    }
  }

  lemma AlongStep(ts: seq<EventTarget>, k: nat, p: Phase)
    requires k < |ts|
    ensures Along(ts[..k + 1], p) == Along(ts[..k], p) + [Visit(ts[k], p)]
  {
    assert ts[..k + 1][..k] == ts[..k];
  }

  lemma {:induction false} RouteTargets(path: seq<EventTarget>)
    ensures forall t: EventTarget :: t in Reversed(path) <==> t in path
  {
    if path != [] {
      assert path == [path[0]] + path[1..];
      RouteTargets(path[1..]);
    }
  }

  /** One visit of a dispatch that is not halted. */
  method VisitOne(t: EventTarget, event: Event, react: Reaction, ghost lists: Lists, ghost byCancel: bool,
          ghost vs: seq<Visit>, ghost f0: Flags, ghost log0: seq<Run>)
    requires event.Went(log0, vs, f0, lists, react)
    requires ListOf(t.map_, event.kind) == ListIn(lists, t)
    requires CutAtHalt(vs, vs, f0, lists, react, byCancel) && !Halted(event.FlagsNow(), byCancel)
    modifies event`stopPropagationFlag, event`stopImmediatePropagationFlag, event`canceledFlag, event`currentTarget
    modifies event`log
    ensures var ws := vs + [Visit(t, event.phase)];
      && event.Went(log0, ws, f0, lists, react)
      && CutAtHalt(ws, ws, f0, lists, react, byCancel)
  {
    hide FlagsAlong, RunsAlong, Unhalted, CutAtHalt, Fired, FlagsAfter, Runs, ListOf, ListIn;
    event.currentTarget := t;
    t.Invoke(event, react);
    FlagsAlongStep(vs, Visit(t, event.phase), f0, lists, react);
    CutStep(vs, Visit(t, event.phase), f0, lists, react, byCancel);
  }

  /** One loop of dispatchEvent: go on along the route, visiting the targets in turn until the event is halted. */
  method VisitEach(ts: seq<EventTarget>, event: Event, react: Reaction, ghost lists: Lists, byCancel: bool,
                   ghost before: seq<Visit>, ghost route: seq<Visit>, ghost f0: Flags, ghost log0: seq<Run>)
    returns (ghost vs: seq<Visit>)
    requires event.Went(log0, before, f0, lists, react)
    requires forall t :: t in ts ==> ListOf(t.map_, event.kind) == ListIn(lists, t)
    requires CutAtHalt(before, route, f0, lists, react, byCancel)
    modifies event`stopPropagationFlag, event`stopImmediatePropagationFlag, event`canceledFlag, event`currentTarget
    modifies event`log
    ensures event.Went(log0, vs, f0, lists, react)
    ensures CutAtHalt(vs, route + Along(ts, event.phase), f0, lists, react, byCancel)
  {
    hide FlagsAlong, RunsAlong, Unhalted, CutAtHalt, Along;
    vs := before;
    ghost var p := event.phase;
    var i := 0;
    assert route + Along(ts[..0], p) == route by { assert ts[..0] == []; }
    while i < |ts|
      invariant i <= |ts| && event.phase == p && event.kind == old(event.kind)
      invariant CutAtHalt(vs, route + Along(ts[..i], p), f0, lists, react, byCancel)
      invariant event.Went(log0, vs, f0, lists, react)
      decreases |ts| - i
    {
      ghost var so := route + Along(ts[..i], p);
      if (if byCancel then event.canceledFlag else event.stopPropagationFlag) {
        AlongRest(ts, i, p);
        CutExtends(vs, so, Along(ts[i..], p), f0, lists, react, byCancel);
        assert so + Along(ts[i..], p) == route + Along(ts, p);
        return;
      }
      CutWhole(vs, so, f0, lists, react, byCancel);
      VisitOne(ts[i], event, react, lists, byCancel, vs, f0, log0);
      AlongStep(ts, i, p);
      vs := vs + [Visit(ts[i], p)];
      assert vs == route + Along(ts[..i + 1], p);
      i := i + 1;
    }
    assert ts[..|ts|] == ts;
  }

  lemma AlongRest(ts: seq<EventTarget>, k: nat, p: Phase)
    requires k <= |ts|
    ensures Along(ts, p) == Along(ts[..k], p) + Along(ts[k..], p)
  {
  }

  lemma CutExtends(vs: seq<Visit>, route: seq<Visit>, more: seq<Visit>, f: Flags, lists: Lists, react: Reaction,
          byCancel: bool)
    requires CutAtHalt(vs, route, f, lists, react, byCancel) && Halted(FlagsAlong(vs, f, lists, react), byCancel)
    ensures CutAtHalt(vs, route + more, f, lists, react, byCancel)
  {
  }

  lemma CutWhole(vs: seq<Visit>, route: seq<Visit>, f: Flags, lists: Lists, react: Reaction, byCancel: bool)
    requires CutAtHalt(vs, route, f, lists, react, byCancel) && !Halted(FlagsAlong(vs, f, lists, react), byCancel)
    ensures vs == route
  {
  }

  /** The capture, target and bubble phases. */
  method Propagate(node: EventTarget, path: seq<EventTarget>, event: Event, react: Reaction, ghost lists: Lists)
    returns (ghost vs: seq<Visit>)
    requires forall t :: t in path + [node] ==> ListOf(t.map_, event.kind) == ListIn(lists, t)
    modifies event`stopPropagationFlag, event`stopImmediatePropagationFlag, event`canceledFlag, event`currentTarget
    modifies event`log, event`phase
    ensures event.Went(old(event.log), vs, old(event.FlagsNow()), lists, react)
    ensures CutAtHalt(vs, Route(path, node, event.bubbleFlag), old(event.FlagsNow()), lists, react, false)
  {
    hide FlagsAlong, RunsAlong, Unhalted, CutAtHalt, Along;
    ghost var f0, log0 := event.FlagsNow(), event.log;
    Listed(node, path, event.kind, lists);
    Nothing(f0, lists, react, false);
    event.phase := Capturing;
    vs := VisitEach(path, event, react, lists, false, [], [], f0, log0);
    ghost var route := [] + Along(path, Capturing);
    assert route == Along(path, Capturing);

    event.phase := AtTarget;
    ghost var here := Visit(node, AtTarget);
    if !event.stopPropagationFlag {
      CutWhole(vs, route, f0, lists, react, false);
      VisitOne(node, event, react, lists, false, vs, f0, log0);
      vs := vs + [here];
    } else {
      CutExtends(vs, route, [here], f0, lists, react, false);
    }
    route := route + [here];

    if event.bubbleFlag {
      event.phase := Bubbling;
      Listed(node, path, event.kind, lists);
      vs := VisitEach(Reversed(path), event, react, lists, false, vs, route, f0, log0);
      route := route + Along(Reversed(path), Bubbling);
    } else {
      assert route == route + [];
    }
    assert route == Route(path, node, event.bubbleFlag);
  }

  lemma Nothing(f: Flags, lists: Lists, react: Reaction, byCancel: bool)
    ensures FlagsAlong([], f, lists, react) == f && RunsAlong([], f, lists, react) == []
    ensures CutAtHalt([], [], f, lists, react, byCancel)
  {
  }

  lemma CutStep(vs: seq<Visit>, v: Visit, f: Flags, lists: Lists, react: Reaction, byCancel: bool)
    requires CutAtHalt(vs, vs, f, lists, react, byCancel) && !Halted(FlagsAlong(vs, f, lists, react), byCancel)
    ensures CutAtHalt(vs + [v], vs + [v], f, lists, react, byCancel)
  {
    UnhaltedStep(vs, v, f, lists, react, byCancel);
  }

  /** The default phase, entered only when the default is not prevented. */
  method DefaultActions(node: EventTarget, path: seq<EventTarget>, event: Event, react: Reaction, ghost lists: Lists)
    returns (ghost vs: seq<Visit>)
    requires forall t :: t in path + [node] ==> ListOf(t.map_, event.kind) == ListIn(lists, t)
    modifies event`stopPropagationFlag, event`stopImmediatePropagationFlag, event`canceledFlag, event`currentTarget
    modifies event`log, event`phase
    ensures event.Went(old(event.log), vs, old(event.FlagsNow()), lists, react)
    ensures CutAtHalt(vs, DefaultRoute(path, node, event.bubbleFlag), old(event.FlagsNow()), lists, react, true)
  {
    hide FlagsAlong, RunsAlong, Unhalted, CutAtHalt, Along;
    ghost var f0, log0 := event.FlagsNow(), event.log;
    Listed(node, path, event.kind, lists);
    Nothing(f0, lists, react, true);
    vs := [];
    ghost var here := Visit(node, DefaultPhase);
    ghost var route := [here];
    if event.canceledFlag {
      CutExtends([], [], DefaultRoute(path, node, event.bubbleFlag), f0, lists, react, true);
      assert [] + DefaultRoute(path, node, event.bubbleFlag) == DefaultRoute(path, node, event.bubbleFlag);
      return;
    }
    event.phase := DefaultPhase;
    VisitOne(node, event, react, lists, true, [], f0, log0);
    assert [] + [here] == route;
    vs := [here];
    if event.bubbleFlag {
      Listed(node, path, event.kind, lists);
      vs := VisitEach(Reversed(path), event, react, lists, true, vs, route, f0, log0);
      route := route + Along(Reversed(path), DefaultPhase);
    } else {
      assert route == route + [];
    }
    assert route == DefaultRoute(path, node, event.bubbleFlag);
  }

  /** The event target that each node is. */
  type Targets = map<NodeImp, EventTarget>

  /** From the root down to the parent of n. */
  ghost function PathFrom(f: DomTree.Links, of: Targets, n: NodeImp): seq<EventTarget>
    requires WellFormed(f) && n in f.kids && f.kids.Keys <= of.Keys
    decreases f.depth[n]
  {
    if n in f.parent then assert ChildOk(f, n); PathFrom(f, of, f.parent[n]) + [of[f.parent[n]]] else []
  }

  /** The event path: the window when there is one and this is not a load, then root down to parent. */
  ghost function PathOf(f: DomTree.Links, of: Targets, n: NodeImp, window: EventTarget?, kind: string): seq<EventTarget>
    requires WellFormed(f) && n in f.kids && f.kids.Keys <= of.Keys
  {
    if window != null && kind != "load" then [window] + PathFrom(f, of, n) else PathFrom(f, of, n)
  }

  /** What a dispatch starts from: the path, the target, whether it bubbles, the listener lists, the flags. */
  datatype Dispatch = Dispatch(path: seq<EventTarget>, target: EventTarget, bubbles: bool, lists: Lists, flags: Flags)

  /**
   * The visits are the route root to parent, target, and back when it bubbles, up to the first stop; then the default
   * route unless prevented, up to the first prevention; and these leave the flags f2.
   */
  ghost predicate Dispatched(d: Dispatch, react: Reaction, visits: seq<Visit>, defaults: seq<Visit>, f2: Flags) {
    var f1 := FlagsAlong(visits, d.flags, d.lists, react);
    && CutAtHalt(visits, Route(d.path, d.target, d.bubbles), d.flags, d.lists, react, false)
    && CutAtHalt(defaults, DefaultRoute(d.path, d.target, d.bubbles), f1, d.lists, react, true)
    && f2 == FlagsAlong(defaults, f1, d.lists, react)
  }

  /** The listeners run in a dispatch, in order. */
  ghost function RunsIn(d: Dispatch, react: Reaction, visits: seq<Visit>, defaults: seq<Visit>): seq<Run> {
    var f1 := FlagsAlong(visits, d.flags, d.lists, react);
    RunsAlong(visits, d.flags, d.lists, react) + RunsAlong(defaults, f1, d.lists, react)
  }

  /**
   * dispatchEvent on a node of the tree. The event visits the route root to parent, target, and back when
   * it bubbles, up to the first stop; then the default route unless prevented, up to the first
   * prevention. What its log gains are just the listeners these visits run; the answer is whether the
   * default was left alone.
   */
  method DispatchEvent(node: NodeImp, ghost f: DomTree.Links, of: Targets, window: EventTarget?, event: Event,
          react: Reaction)
    returns (ok: bool, ghost visits: seq<Visit>, ghost defaults: seq<Visit>)
    requires DomTree.Represents(f) && node in f.kids && f.kids.Keys <= of.Keys
    modifies event
    ensures var path := PathOf(f, of, node, window, event.kind);
      var lists := old(ListsFor(of[node], path, event.kind));
      var d := Dispatch(path, of[node], event.bubbleFlag, lists, old(event.FlagsNow()));
      && Dispatched(d, react, visits, defaults, event.FlagsNow())
      && event.log == old(event.log) + RunsIn(d, react, visits, defaults)
    ensures ok == !event.canceledFlag
    ensures event.kind == old(event.kind) && event.bubbleFlag == old(event.bubbleFlag)
    ensures event.target == of[node] && event.currentTarget == null && event.phase == AtTarget && !event.dispatchFlag
  {
    hide *;
    Grown(f);
    var path := BuildPath(node, f, of, window, event.kind);
    ghost var lists := ListsFor(of[node], path, event.kind);
    assert lists == old(ListsFor(of[node], path, event.kind));
    ok, visits, defaults := DispatchAlong(of[node], path, event, react);
    assert path == PathOf(f, of, node, window, event.kind);
  }

  /** dispatchEvent once the path is known. */
  method DispatchAlong(node: EventTarget, path: seq<EventTarget>, event: Event, react: Reaction)
    returns (ok: bool, ghost visits: seq<Visit>, ghost defaults: seq<Visit>)
    modifies event
    ensures var lists := old(ListsFor(node, path, event.kind));
      var d := Dispatch(path, node, event.bubbleFlag, lists, old(event.FlagsNow()));
      && Dispatched(d, react, visits, defaults, event.FlagsNow())
      && event.log == old(event.log) + RunsIn(d, react, visits, defaults)
    ensures ok == !event.canceledFlag
    ensures event.kind == old(event.kind) && event.bubbleFlag == old(event.bubbleFlag)
    ensures event.target == node && event.currentTarget == null && event.phase == AtTarget && !event.dispatchFlag
  {
    hide FlagsAlong, RunsAlong, CutAtHalt, Along, Route, DefaultRoute, ListIn;
    ghost var lists := ListsFor(node, path, event.kind);
    AllListed(node, path, event.kind);
    event.dispatchFlag := true;
    event.target := node;
    visits := Propagate(node, path, event, react, lists);
    defaults := DefaultActions(node, path, event, react, lists);
    event.dispatchFlag := false;
    event.phase := AtTarget;
    event.currentTarget := null;
    ok := !event.canceledFlag;
  }

  lemma Grown(f: DomTree.Links)
    requires DomTree.Represents(f)
    ensures WellFormed(f)
  {
  }

  lemma Listed(node: EventTarget, path: seq<EventTarget>, kind: string, lists: Lists)
    requires forall t :: t in path + [node] ==> ListOf(t.map_, kind) == ListIn(lists, t)
    ensures forall t :: t in path ==> ListOf(t.map_, kind) == ListIn(lists, t)
    ensures forall t :: t in Reversed(path) ==> ListOf(t.map_, kind) == ListIn(lists, t)
    ensures ListOf(node.map_, kind) == ListIn(lists, node)
  {
    RouteTargets(path);
    forall t: EventTarget | t in Reversed(path) || t in path || t == node
      ensures ListOf(t.map_, kind) == ListIn(lists, t)
    {
      assert t in path + [node];
    }
  }

  lemma AllListed(node: EventTarget, path: seq<EventTarget>, kind: string)
    ensures forall t :: t in path + [node] ==> ListOf(t.map_, kind) == ListIn(ListsFor(node, path, kind), t)
  {
  }

  /** The climb over the parents, which ends because the tree has no cycle. */
  method BuildPath(node: NodeImp, ghost f: DomTree.Links, of: Targets, window: EventTarget?, kind: string)
    returns (path: seq<EventTarget>)
    requires DomTree.Represents(f) && node in f.kids && f.kids.Keys <= of.Keys
    ensures path == PathOf(f, of, node, window, kind)
  {
    hide *;
    path := [];
    Upward(f, of, node);
    ghost var whole := PathFrom(f, of, node);
    assert whole == PathFrom(f, of, node) + [];
    ghost var n := node;
    var ancestor := node.parentNode;
    while ancestor != null
      invariant n in f.kids && n in f.depth && ancestor == n.parentNode && whole == PathFrom(f, of, n) + path
      decreases f.depth[n]
    {
      Upward(f, of, n);
      n := ancestor;
      assert PathFrom(f, of, n) + [of[n]] + path == PathFrom(f, of, n) + ([of[n]] + path);
      path := [of[ancestor]] + path;
      ancestor := ancestor.parentNode;
    }
    Upward(f, of, n);
    assert [] + path == path;
    PathIs(f, of, node, window, kind);
    if window != null && kind != "load" {
      path := [window] + path;
    }
  }

  lemma Upward(f: DomTree.Links, of: Targets, n: NodeImp)
    requires DomTree.Represents(f) && n in f.kids && f.kids.Keys <= of.Keys
    ensures WellFormed(f) && n in f.depth
    ensures n.parentNode == null ==> PathFrom(f, of, n) == []
    ensures n.parentNode != null ==> n.parentNode in f.kids && n.parentNode in f.depth
    ensures n.parentNode != null ==> f.depth[n.parentNode] < f.depth[n]
    ensures n.parentNode != null ==> PathFrom(f, of, n) == PathFrom(f, of, n.parentNode) + [of[n.parentNode]]
  {
    DomTree.Linked(f, n);
    if n in f.parent { assert ChildOk(f, n); }
  }

  lemma PathIs(f: DomTree.Links, of: Targets, n: NodeImp, window: EventTarget?, kind: string)
    requires WellFormed(f) && n in f.kids && f.kids.Keys <= of.Keys
    ensures PathOf(f, of, n, window, kind) ==
              if window != null && kind != "load" then [window] + PathFrom(f, of, n) else PathFrom(f, of, n)
  {
  }

  /** Different nodes are different event targets, and none of them is the window. */
  ghost predicate Separate(f: DomTree.Links, of: Targets, window: EventTarget?) {
    && f.kids.Keys <= of.Keys
    && (forall a, b :: a in f.kids && b in f.kids && of[a] == of[b] ==> a == b)
    && (forall a :: a in f.kids ==> of[a] != window)
  }

  /** t is the target of a node higher in the tree than n. */
  ghost predicate HigherUp(f: DomTree.Links, of: Targets, n: NodeImp, t: EventTarget)
    requires WellFormed(f) && n in f.kids && f.kids.Keys <= of.Keys
  {
    exists a :: a in f.kids && of[a] == t && f.depth[a] < f.depth[n]
  }

  lemma HigherUpApart(f: DomTree.Links, of: Targets, n: NodeImp, window: EventTarget?, t: EventTarget)
    requires WellFormed(f) && n in f.kids && Separate(f, of, window) && HigherUp(f, of, n, t)
    ensures t != of[n] && t != window
  {
  }

  lemma HigherStill(f: DomTree.Links, of: Targets, n: NodeImp, t: EventTarget)
    requires WellFormed(f) && n in f.parent && f.kids.Keys <= of.Keys
    ensures n in f.kids && f.parent[n] in f.kids && f.depth[f.parent[n]] < f.depth[n]
    ensures HigherUp(f, of, f.parent[n], t) || t == of[f.parent[n]] ==> HigherUp(f, of, n, t)
  {
    assert ChildOk(f, n);
  }

  lemma PathUp(f: DomTree.Links, of: Targets, n: NodeImp)
    requires WellFormed(f) && n in f.kids && f.kids.Keys <= of.Keys
    ensures PathFrom(f, of, n) == if n in f.parent then
      assert ChildOk(f, n); PathFrom(f, of, f.parent[n]) + [of[f.parent[n]]] else []
  {
  }

  /** The targets from the root to the parent are those of nodes higher in the tree than n, each once. */
  lemma {:induction false} PathNoDup(f: DomTree.Links, of: Targets, n: NodeImp, window: EventTarget?)
    requires WellFormed(f) && n in f.kids && Separate(f, of, window)
    ensures NoDup(PathFrom(f, of, n))
    ensures forall t :: t in PathFrom(f, of, n) ==> HigherUp(f, of, n, t)
    decreases f.depth[n]
  {
    assert f.kids.Keys <= of.Keys;
    hide WellFormed, Separate, HigherUp, PathFrom, NoDup;
    PathUp(f, of, n);
    if n in f.parent {
      var p := f.parent[n];
      forall t: EventTarget ensures HigherUp(f, of, p, t) || t == of[p] ==> HigherUp(f, of, n, t) {
        HigherStill(f, of, n, t);
      }
      HigherStill(f, of, n, of[p]);
      PathNoDup(f, of, p, window);
      if of[p] in PathFrom(f, of, p) { HigherUpApart(f, of, p, window, of[p]); }
      OneMoreNoDup(PathFrom(f, of, p), of[p]);
    } else {
      assert NoDup<EventTarget>([]) by { NoDupEmpty(); }
    }
  }

  lemma NoDupEmpty()
    ensures NoDup<EventTarget>([])
  {
  }

  lemma OneMoreNoDup(s: seq<EventTarget>, t: EventTarget)
    requires NoDup(s) && t !in s
    ensures NoDup(s + [t]) && NoDup([t] + s)
  {
  }

  /** The event path holds no target twice and not the node itself, because the tree has no cycle. */
  lemma WholePathNoDup(f: DomTree.Links, of: Targets, n: NodeImp, window: EventTarget?, kind: string)
    requires WellFormed(f) && n in f.kids && Separate(f, of, window)
    ensures NoDup(PathOf(f, of, n, window, kind)) && of[n] !in PathOf(f, of, n, window, kind)
  {
    var path := PathFrom(f, of, n);
    assert window != of[n];
    PathNoDup(f, of, n, window);
    hide WellFormed, Separate, HigherUp, PathFrom, NoDup;
    forall t: EventTarget | t in path ensures t != of[n] && t != window { HigherUpApart(f, of, n, window, t); }
    if window != null { OneMoreNoDup(path, window); }
  }

  /** Each ancestor is visited at most once in each phase of a dispatch. */
  lemma {:induction false} ReversedNoDup(s: seq<EventTarget>)
    requires NoDup(s)
    ensures NoDup(Reversed(s)) && |Reversed(s)| == |s| && forall x: EventTarget :: x in Reversed(s) <==> x in s
  {
    if s != [] {
      assert s == [s[0]] + s[1..];
      var r := Reversed(s[1..]);
      ReversedNoDup(s[1..]);
      assert s[0] !in s[1..];
      forall i, j | 0 <= i < j < |r + [s[0]]| ensures (r + [s[0]])[i] != (r + [s[0]])[j] {
        assert (r + [s[0]])[i] == r[i] && r[i] in r;
      }
    }
  }

  lemma RouteNoDup(path: seq<EventTarget>, t: EventTarget, bubbles: bool)
    requires NoDup(path)
    ensures NoDup(Route(path, t, bubbles))
  {
    ReversedNoDup(path);
    var a, c := Along(path, Capturing), Along(Reversed(path), Bubbling);
    AlongNoDup(path, Capturing);
    AlongNoDup(Reversed(path), Bubbling);
    var r, n := Route(path, t, bubbles), |path|;
    forall i, j | 0 <= i < j < |r| ensures r[i] != r[j] {
      assert i < n ==> r[i] == a[i];
      assert j < n ==> r[j] == a[j];
      assert j > n ==> r[j] == c[j - n - 1];
      assert i > n ==> r[i] == c[i - n - 1];
    }
  }

  lemma AlongNoDup(ts: seq<EventTarget>, p: Phase)
    requires NoDup(ts)
    ensures NoDup(Along(ts, p))
  {
  }

  // Nothing runs twice.

  ghost predicate CleanLists(lists: Lists) { forall t :: t in lists ==> NoDup(lists[t]) }

  /**
   * When no visit is made twice and no list holds an entry twice, no listener runs twice at one target in one phase.
   */
  lemma {:induction false} RunsOnce(vs: seq<Visit>, f: Flags, lists: Lists, react: Reaction)
    requires NoDup(vs) && CleanLists(lists)
    ensures NoDup(RunsAlong(vs, f, lists, react))
    ensures forall r :: r in RunsAlong(vs, f, lists, react) ==> r.target != null && Visit(r.target, r.phase) in vs
  {
    if vs != [] {
      var n := |vs| - 1;
      var v := vs[n];
      var fired := Fired(ListIn(lists, v.target), FlagsAlong(vs[..n], f, lists, react), v.target, v.phase, react);
      RunsOnce(vs[..n], f, lists, react);
      FiredOnce(ListIn(lists, v.target), FlagsAlong(vs[..n], f, lists, react), v.target, v.phase, react);
      assert vs == vs[..n] + [v] && v !in vs[..n];
      hide Fired, FlagsAlong;
      NoDupJoin(RunsAlong(vs[..n], f, lists, react), Runs(fired, v.target, v.phase));
    }
  }

  lemma NoDupJoin<T>(a: seq<T>, b: seq<T>)
    requires NoDup(a) && NoDup(b) && forall r :: r in a ==> r !in b
    ensures NoDup(a + b)
  {
    forall i, j | 0 <= i < j < |a + b| ensures (a + b)[i] != (a + b)[j] {
      if i < |a| <= j { assert a[i] in a && b[j - |a|] in b; }
    }
  }

  /**
   * In a whole dispatch every listener entry runs at most once at each target in each phase. So a reaction, which is a
   * function of just these, is free to differ from run to run.
   */
  lemma DispatchRunsOnce(d: Dispatch, react: Reaction, visits: seq<Visit>, defaults: seq<Visit>, f2: Flags)
    requires NoDup(d.path) && d.target !in d.path && CleanLists(d.lists)
    requires Dispatched(d, react, visits, defaults, f2)
    ensures NoDup(RunsIn(d, react, visits, defaults))
  {
    var f1 := FlagsAlong(visits, d.flags, d.lists, react);
    RouteNoDup(d.path, d.target, d.bubbles);
    DefaultRouteNoDup(d.path, d.target, d.bubbles);
    RoutePhases(d.path, d.target, d.bubbles);
    RunsOnce(visits, d.flags, d.lists, react);
    RunsOnce(defaults, f1, d.lists, react);
    hide RunsAlong, Route, DefaultRoute, Along;
    NoDupJoin(RunsAlong(visits, d.flags, d.lists, react), RunsAlong(defaults, f1, d.lists, react));
  }

  lemma DefaultRouteNoDup(path: seq<EventTarget>, t: EventTarget, bubbles: bool)
    requires NoDup(path) && t !in path
    ensures NoDup(DefaultRoute(path, t, bubbles))
  {
    ReversedNoDup(path);
    AlongNoDup(Reversed(path), DefaultPhase);
    assert forall i :: 0 <= i < |Reversed(path)| ==> Reversed(path)[i] in Reversed(path);
    NoDupJoin([Visit(t, DefaultPhase)], Along(Reversed(path), DefaultPhase));
  }

  lemma RoutePhases(path: seq<EventTarget>, t: EventTarget, bubbles: bool)
    ensures forall v :: v in Route(path, t, bubbles) ==> v.phase != DefaultPhase
    ensures forall v :: v in DefaultRoute(path, t, bubbles) ==> v.phase == DefaultPhase
  {
  }
}
