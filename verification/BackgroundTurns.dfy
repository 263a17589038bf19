/**
 * What the worker does with the commands it takes, told of the trace of a run alone: each of its turns in full, and
 * what follows for a view that is handed out.
 */
module BackgroundTurns {
  import opened Sequences
  import opened BackgroundTask

  /** The worker's own events. */
  predicate Own(e: Event) { !e.Posted? && !e.Restarted? && !e.HandedOut? }

  ghost function OwnEvents(tr: seq<Event>): seq<Event> {
    if tr == [] then [] else
      var n := |tr| - 1;
      OwnEvents(tr[..n]) + if Own(tr[n]) then [tr[n]] else []
  }

  /** The view there is: the last one created, unless it has been dropped. */
  ghost function Current(os: seq<Event>): Option<View> {
    if os == [] then None else
      var n := |os| - 1;
      if os[n].Created? then Some(os[n].v) else if os[n].Dropped? then None else Current(os[..n])
  }

  const WORK := Decided(true, false)

  ghost predicate Commands(os: seq<Event>, k: nat) { k < |os| && os[k].Slept? }

  /** The view goes: restart was asked for and there is a document. */
  ghost predicate Drops(command: set<Command>, decision: Event, view: Option<View>) {
    view.Some? && Restart in command && decision.Decided? && decision.hasDocument
  }

  /** What the worker does next, when it has decided, and dropped the view if it had to. */
  ghost predicate NextIs(e: Event, command: set<Command>, decision: Event, view: Option<View>) {
    if decision != WORK then e.Slept?
    else if view == None then e.Created? || e == NoMemory
    else if Cascade in command then e == CascadeRun(view.value)
    else e == LayoutRun(view.value) && Layout in command
  }

  /**
   * The turn that starts where the worker takes a command: it decides unless aborted; with a restart and a document it
   * drops the view; it cascades if told so or if there is no view, for which it makes one if it can; else it lays out.
   */
  ghost predicate TurnOk(os: seq<Event>, k: nat)
    requires Commands(os, k)
  {
    var c, view := os[k].command, Current(os[..k]);
    && (k + 1 < |os| ==> os[k + 1].Decided? && Abort !in c)
    && (k + 2 < |os| ==>
          if Drops(c, os[k + 1], view) then os[k + 2] == Dropped(view.value) else NextIs(os[k + 2], c, os[k + 1], view))
    && (k + 3 < |os| && Drops(c, os[k + 1], view) ==> NextIs(os[k + 3], c, os[k + 1], None))
  }

  /** A view that was made is cascaded, and a cascade, a layout or a lack of memory ends the turn. */
  ghost predicate EndOk(os: seq<Event>, k: nat) {
    k + 1 < |os| ==>
      && (os[k].Created? ==> os[k + 1] == CascadeRun(os[k].v))
      && (os[k].CascadeRun? || os[k].LayoutRun? || os[k] == NoMemory ==> os[k + 1].Slept?)
  }

  /** The worker's events are its turns, one after the other. */
  ghost predicate InTurns(os: seq<Event>) {
    && (os != [] ==> os[0].Slept?)
    && (forall k :: 0 <= k < |os| && Commands(os, k) ==> TurnOk(os, k))
    && (forall k :: 0 <= k < |os| ==> EndOk(os, k))
  }

  // One more event of the worker.

  /** e may come next. */
  ghost predicate Fits(os: seq<Event>, e: Event) {
    var n := |os|;
    && (n == 0 ==> e.Slept?)
    && (n >= 1 && os[n - 1].Slept? ==> e.Decided? && Abort !in os[n - 1].command)
    && (n >= 1 && os[n - 1].Created? ==> e == CascadeRun(os[n - 1].v))
    && (n >= 1 && (os[n - 1].CascadeRun? || os[n - 1].LayoutRun? || os[n - 1] == NoMemory) ==> e.Slept?)
    && (n >= 2 && os[n - 2].Slept? ==>
          var c, view := os[n - 2].command, Current(os[..n - 2]);
          if Drops(c, os[n - 1], view) then e == Dropped(view.value) else NextIs(e, c, os[n - 1], view))
    && (n >= 3 && os[n - 3].Slept? && Drops(os[n - 3].command, os[n - 2], Current(os[..n - 3])) ==>
          NextIs(e, os[n - 3].command, os[n - 2], None))
  }

  lemma TurnsGrow(os: seq<Event>, e: Event)
    requires InTurns(os) && Fits(os, e)
    ensures InTurns(os + [e])
  {
    hide Current, Drops, NextIs;
    var all, n := os + [e], |os|;
    forall k | 0 <= k < |all| && Commands(all, k) ensures TurnOk(all, k) {
      if k < n { assert Commands(os, k) && TurnOk(os, k) && all[..k] == os[..k]; }
    }
    forall k | 0 <= k < |all| ensures EndOk(all, k) {
      if k < n { assert EndOk(os, k); }
    }
  }

  lemma CurrentGrows(os: seq<Event>, e: Event)
    ensures Current(os + [e]) == if e.Created? then Some(e.v) else if e.Dropped? then None else Current(os)
  {
    assert (os + [e])[..|os|] == os;
  }

  lemma OwnGrows(tr: seq<Event>, e: Event)
    ensures OwnEvents(tr + [e]) == OwnEvents(tr) + if Own(e) then [e] else []
  {
    assert (tr + [e])[..|tr|] == tr;
  }

  /** What the worker may do next, from where it is. */
  ghost predicate Tail(os: seq<Event>, view: Option<View>, place: Place) {
    match place
    case Asleep => forall c :: Fits(os, Slept(c))
    case Woken(c) => os != [] && os[|os| - 1] == Slept(c)
    case InCascade =>
      if view == None then (forall v :: Fits(os, Created(v))) && Fits(os, NoMemory)
      else Fits(os, CascadeRun(view.value))
    case InLayout => view.Some? && Fits(os, LayoutRun(view.value))
    case Gone => true
  }

  ghost predicate TurnsKept(t: Task) {
    var os := OwnEvents(t.trace);
    InTurns(os) && t.view == Current(os) && Tail(os, t.view, t.place)
  }

  lemma SleepTurn(t: Task)
    requires TurnsKept(t) && Enabled(t, Sleep)
    ensures TurnsKept(Step(t, Sleep))
  {
    hide Fits, InTurns, Current;
    var os, e := OwnEvents(t.trace), Slept(t.flags);
    OwnGrows(t.trace, e);
    TurnsGrow(os, e);
    CurrentGrows(os, e);
  }

  /** A cascade, a layout or a lack of memory ends the turn: sleep comes next. */
  lemma TurnEnds(os: seq<Event>, e: Event)
    requires InTurns(os) && Fits(os, e) && (e.CascadeRun? || e.LayoutRun? || e == NoMemory)
    ensures forall c :: Fits(os + [e], Slept(c))
  {
    hide Current;
    var n, all := |os|, os + [e];
    if n >= 2 && os[n - 2].Slept? {
      assert Commands(os, n - 2) && TurnOk(os, n - 2) && all[..n - 2] == os[..n - 2];
    }
  }

  lemma OneEvent(t: Task, u: Task, e: Event)
    requires TurnsKept(t) && Fits(OwnEvents(t.trace), e) && (e.CascadeRun? || e.LayoutRun? || e == NoMemory)
    requires u.trace == t.trace + [e] && u.view == t.view && u.place == Asleep
    ensures TurnsKept(u)
  {
    hide Fits, InTurns, Current;
    var os := OwnEvents(t.trace);
    OwnGrows(t.trace, e);
    TurnsGrow(os, e);
    CurrentGrows(os, e);
    TurnEnds(os, e);
  }

  lemma CascadeTurn(t: Task, memory: bool)
    requires TurnsKept(t) && Enabled(t, FinishCascade(memory))
    ensures TurnsKept(Step(t, FinishCascade(memory)))
  {
    hide Fits, InTurns, Current, TurnsKept, Tail;
    var u := Step(t, FinishCascade(memory));
    MayCascade(t);
    if t.view.Some? {
      OneEvent(t, u, CascadeRun(t.view.value));
    } else if !memory {
      OneEvent(t, u, NoMemory);
    } else {
      var v := t.created;
      var m := Logged(t, Created(v)).(view := Some(v));
      MadeView(t, m, v);
      OneEvent(m, u, CascadeRun(v));
    }
  }

  lemma MayCascade(t: Task)
    requires TurnsKept(t) && t.place == InCascade
    ensures var os := OwnEvents(t.trace);
      if t.view == None then (forall v :: Fits(os, Created(v))) && Fits(os, NoMemory)
      else Fits(os, CascadeRun(t.view.value))
  {
    hide Fits, InTurns, Current;
  }

  lemma MadeView(t: Task, m: Task, v: View)
    requires TurnsKept(t) && Fits(OwnEvents(t.trace), Created(v)) && m.trace == t.trace + [Created(v)]
    requires m.view == Some(v) && m.place == InCascade
    ensures TurnsKept(m) && Fits(OwnEvents(m.trace), CascadeRun(v))
  {
    hide InTurns, Current;
    var os := OwnEvents(t.trace);
    OwnGrows(t.trace, Created(v));
    TurnsGrow(os, Created(v));
    CurrentGrows(os, Created(v));
    ThenCascade(os, v);
  }

  lemma ThenCascade(os: seq<Event>, v: View)
    requires InTurns(os) && Fits(os, Created(v))
    ensures Fits(os + [Created(v)], CascadeRun(v))
  {
    hide Current;
    var n, all := |os|, os + [Created(v)];
    if n >= 2 && os[n - 2].Slept? {
      assert Commands(os, n - 2) && TurnOk(os, n - 2) && all[..n - 2] == os[..n - 2];
    }
  }

  lemma LayoutTurn(t: Task)
    requires TurnsKept(t) && Enabled(t, FinishLayout)
    ensures TurnsKept(Step(t, FinishLayout))
  {
    hide Fits, InTurns, Current;
    OneEvent(t, Step(t, FinishLayout), LayoutRun(t.view.value));
  }

  lemma NotTwice(os: seq<Event>)
    requires InTurns(os) && |os| >= 2 && os[|os| - 1].Slept?
    ensures !Commands(os, |os| - 2)
  {
    hide Current, NextIs, Drops;
  }

  /** A decision after a command that is no abort, and what may come next. */
  lemma DecisionFits(os: seq<Event>, e: Event)
    requires InTurns(os) && os != [] && os[|os| - 1].Slept? && Abort !in os[|os| - 1].command && e.Decided?
    ensures Fits(os, e) && InTurns(os + [e])
    ensures var c, view := os[|os| - 1].command, Current(os);
      forall x :: (if Drops(c, e, view) then x == Dropped(view.value) else NextIs(x, c, e, view)) ==> Fits(os + [e], x)
  {
    hide Current, NextIs, Drops;
    var n, all := |os|, os + [e];
    CurrentGrows(os[..n - 1], os[n - 1]);
    assert os == os[..n - 1] + [os[n - 1]] && all[..n - 1] == os[..n - 1];
    if n >= 2 { NotTwice(os); }
    if n >= 3 && os[n - 3].Slept? { assert Commands(os, n - 3) && TurnOk(os, n - 3); }
    TurnsGrow(os, e);
    assert all[n] == e && all[n - 1] == os[n - 1];
    assert n >= 2 ==> all[n - 2] == os[n - 2];
  }

  lemma DropFits(os: seq<Event>, e: Event, view: Option<View>)
    requires InTurns(os) && |os| >= 2 && os[|os| - 2].Slept? && os[|os| - 1] == e && e.Decided?
    requires view.Some? && view == Current(os[..|os| - 2]) && Drops(os[|os| - 2].command, e, view)
    requires Fits(os, Dropped(view.value))
    ensures InTurns(os + [Dropped(view.value)])
    ensures forall x :: NextIs(x, os[|os| - 2].command, e, None) ==> Fits(os + [Dropped(view.value)], x)
  {
    hide Current, NextIs, Drops;
    var n, d := |os|, Dropped(view.value);
    var all := os + [d];
    TurnsGrow(os, d);
    assert all[n] == d && all[n - 1] == e && all[n - 2] == os[n - 2] && all[..n - 2] == os[..n - 2];
  }

  /** What a decision leaves: the view it drops, and where the worker goes. */
  lemma DecideMeans(t: Task, hasDocument: bool, binding: bool)
    requires Invariant(t) && Enabled(t, Decide(hasDocument, binding))
    ensures var e, c, u := Decided(hasDocument, binding), t.place.command, Step(t, Decide(hasDocument, binding));
      && Abort !in c
      && (if Drops(c, e, t.view) then
            t.view.Some? && u.view == None && u.trace == t.trace + [e] + [Dropped(t.view.value)]
          else u.view == t.view && u.trace == t.trace + [e])
      && u.place == (if e != WORK then Asleep else if u.view == None || Cascade in c then InCascade else InLayout)
      && (u.place == InLayout ==> Layout in c)
  {
    hide Invariant;
    DecidesSome(t);
    SomeCommand(t.place.command);
  }

  lemma TailAfter(os: seq<Event>, c: set<Command>, e: Event, view: Option<View>, place: Place)
    requires forall x :: NextIs(x, c, e, view) ==> Fits(os, x)
    requires place == (if e != WORK then Asleep else if view == None || Cascade in c then InCascade else InLayout)
    requires place == InLayout ==> Layout in c
    ensures Tail(os, view, place)
  {
    hide Fits;
    if place == InCascade && view == None { assert NextIs(NoMemory, c, e, view); }
  }

  lemma TakenLast(t: Task)
    requires TurnsKept(t) && t.place.Woken?
    ensures var os := OwnEvents(t.trace);
      InTurns(os) && os != [] && os[|os| - 1] == Slept(t.place.command) && t.view == Current(os)
  {
    hide InTurns, Current;
  }

  lemma DecideTurn(t: Task, hasDocument: bool, binding: bool)
    requires Invariant(t) && TurnsKept(t) && Enabled(t, Decide(hasDocument, binding))
    ensures TurnsKept(Step(t, Decide(hasDocument, binding)))
  {
    hide *;
    ghost var os, e, u := OwnEvents(t.trace), Decided(hasDocument, binding), Step(t, Decide(hasDocument, binding));
    WokenHere(t, hasDocument, binding);
    var c := t.place.command;
    DecideMeans(t, hasDocument, binding);
    TakenLast(t);
    DecisionFits(os, e);
    OwnHere(e);
    OwnGrows(t.trace, e);
    CurrentGrows(os, e);
    if Drops(c, e, t.view) {
      var d := Dropped(t.view.value);
      DroppedToo(os, c, e, t.view);
      OwnHere(d);
      OwnGrows(t.trace + [e], d);
      CurrentGrows(os + [e], d);
      TailAfter(os + [e] + [d], c, e, None, u.place);
      KeptIs(u, os + [e] + [d]);
    } else {
      TailAfter(os + [e], c, e, t.view, u.place);
      KeptIs(u, os + [e]);
    }
  }

  lemma WokenHere(t: Task, hasDocument: bool, binding: bool)
    requires Enabled(t, Decide(hasDocument, binding))
    ensures t.place.Woken?
  {
  }

  lemma OwnHere(e: Event)
    ensures e.Decided? || e.Dropped? ==> Own(e)
  {
  }

  lemma KeptIs(u: Task, os: seq<Event>)
    requires OwnEvents(u.trace) == os && InTurns(os) && u.view == Current(os) && Tail(os, u.view, u.place)
    ensures TurnsKept(u)
  {
  }

  lemma DroppedToo(os: seq<Event>, c: set<Command>, e: Event, view: Option<View>)
    requires InTurns(os + [e]) && os != [] && os[|os| - 1] == Slept(c) && e.Decided? && view == Current(os)
    requires Drops(c, e, view)
    requires view.Some? ==> Fits(os + [e], Dropped(view.value))
    ensures view.Some? && InTurns(os + [e] + [Dropped(view.value)])
    ensures forall x :: NextIs(x, c, e, None) ==> Fits(os + [e] + [Dropped(view.value)], x)
  {
    hide InTurns, Current, NextIs, Fits;
    assert (os + [e])[..|os| - 1] == os[..|os| - 1];
    CommandLast(os);
    DropFits(os + [e], e, view);
  }

  /** The view is the same before the command as behind it. */
  lemma CommandLast(os: seq<Event>)
    requires os != [] && os[|os| - 1].Slept?
    ensures Current(os[..|os| - 1]) == Current(os)
  {
    CurrentGrows(os[..|os| - 1], os[|os| - 1]);
    assert os == os[..|os| - 1] + [os[|os| - 1]];
  }

  lemma MainTurn(t: Task, a: Action)
    requires TurnsKept(t) && Enabled(t, a) && (a.WakeUp? || a.RestartCall? || a.GetView?)
    ensures TurnsKept(Step(t, a))
  {
    hide *;
    var u, os := Step(t, a), OwnEvents(t.trace);
    MainMeans(t, a);
    KeptMeans(t);
    if u.trace != t.trace {
      OwnGrows(t.trace, u.trace[|t.trace|]);
      assert os + [] == os;
    }
    KeptIs(u, os);
  }

  /** A call of the main thread leaves the view, the worker's place and its events. */
  lemma MainMeans(t: Task, a: Action)
    requires Enabled(t, a) && (a.WakeUp? || a.RestartCall? || a.GetView?)
    ensures var u := Step(t, a);
      && u.view == t.view && u.place == t.place
      && (u.trace != t.trace ==> |u.trace| == |t.trace| + 1 && u.trace == t.trace + [u.trace[|t.trace|]]
                                 && !Own(u.trace[|t.trace|]))
  {
  }

  lemma KeptMeans(t: Task)
    requires TurnsKept(t)
    ensures var os := OwnEvents(t.trace); InTurns(os) && t.view == Current(os) && Tail(os, t.view, t.place)
  {
  }

  /** In every run the worker's events are its turns, and each turn does what its command calls for. */
  lemma {:induction false} EveryTurn(run: seq<Action>)
    requires After(run).Some?
    ensures TurnsKept(After(run).value) && InTurns(OwnEvents(After(run).value.trace))
    decreases |run|
  {
    hide InTurns, Step, Enabled;
    if run == [] {
      assert InTurns([]) by { NoTurns(); }
    } else {
      var n := |run| - 1;
      var t, a := After(run[..n]).value, run[n];
      EveryTurn(run[..n]);
      hide TurnsKept;
      EveryRun(run[..n]);
      match a {
        case Sleep => SleepTurn(t);
        case Decide(d, b) => DecideTurn(t, d, b);
        case FinishCascade(m) => CascadeTurn(t, m);
        case FinishLayout => LayoutTurn(t);
        case _ => MainTurn(t, a);
      }
    }
  }

  lemma NoTurns()
    ensures InTurns([])
  {
  }

  /** So a command to cascade, decided with a document that is not a binding one, is followed by a cascade. */
  lemma CascadeFollows(run: seq<Action>, k: nat)
    requires After(run).Some?
    requires var os := OwnEvents(After(run).value.trace);
      k + 2 < |os| && os[k].Slept? && Cascade in os[k].command && Restart !in os[k].command && os[k + 1] == WORK
    ensures var os := OwnEvents(After(run).value.trace);
      os[k + 2].CascadeRun? || os[k + 2] == NoMemory
      || (os[k + 2].Created? && (k + 3 < |os| ==> os[k + 3] == CascadeRun(os[k + 2].v)))
  {
    hide After, Current;
    EveryTurn(run);
    var os := OwnEvents(After(run).value.trace);
    assert Commands(os, k) && TurnOk(os, k) && EndOk(os, k + 2);
  }

  // What this means for a view that is handed out.

  /** The worker took the command at i, and decided about it at j. */
  ghost predicate TurnAt(tr: seq<Event>, i: int, j: int) {
    0 <= i < j < |tr| && tr[i].Slept? && tr[j].Decided? && forall m :: i < m < j ==> !Own(tr[m])
  }

  ghost predicate Behind(tr: seq<Event>, j: int, e: Event) { exists m :: 0 <= m < |tr| && j < m && tr[m] == e }

  /** v was made since every restart that was decided with a document. */
  ghost predicate MadeSince(tr: seq<Event>, v: View) {
    forall i, j :: TurnAt(tr, i, j) && Restart in tr[i].command && tr[j].hasDocument ==> Behind(tr, j, Created(v))
  }

  /** v was cascaded since every command to cascade that was decided with a document that is not a binding one. */
  ghost predicate CascadedSince(tr: seq<Event>, v: View) {
    forall i, j :: TurnAt(tr, i, j) && Cascade in tr[i].command && tr[j] == WORK ==> Behind(tr, j, CascadeRun(v))
  }

  ghost predicate Obeyed(t: Task) {
    && (t.place.Woken? ==> exists i :: CommandAt(t.trace, i, t.place.command))
    && (t.view.Some? ==> MadeSince(t.trace, t.view.value))
    && (t.view.Some? && t.place != InCascade ==> CascadedSince(t.trace, t.view.value))
  }

  /** The worker's last event is taking the command. */
  ghost predicate CommandAt(tr: seq<Event>, i: nat, c: set<Command>) {
    i < |tr| && tr[i] == Slept(c) && forall m :: i < m < |tr| ==> !Own(tr[m])
  }

  lemma TurnBefore(tr: seq<Event>, e: Event, i: int, j: int)
    requires TurnAt(tr + [e], i, j) && (j < |tr| || !e.Decided?)
    ensures 0 <= i < j < |tr| && TurnAt(tr, i, j) && (tr + [e])[i] == tr[i] && (tr + [e])[j] == tr[j]
  {
    assert forall m :: 0 <= m < |tr| ==> (tr + [e])[m] == tr[m];
  }

  lemma StillBehind(tr: seq<Event>, e: Event, j: int, x: Event)
    requires 0 <= j < |tr|
    ensures Behind(tr + [e], j, x) <==> x == e || Behind(tr, j, x)
  {
    assert forall m :: 0 <= m < |tr| ==> (tr + [e])[m] == tr[m];
    assert (tr + [e])[|tr|] == e;
  }

  /** An event that is no decision leaves what was done since, and may do it. */
  lemma SinceGrows(tr: seq<Event>, e: Event, v: View)
    requires !e.Decided?
    ensures MadeSince(tr, v) || e == Created(v) ==> MadeSince(tr + [e], v)
    ensures CascadedSince(tr, v) || e == CascadeRun(v) ==> CascadedSince(tr + [e], v)
  {
    hide TurnAt, Behind;
    var all := tr + [e];
    forall i, j | TurnAt(all, i, j)
      ensures 0 <= i < j < |tr| && TurnAt(tr, i, j) && all[i] == tr[i] && all[j] == tr[j]
      ensures forall x :: Behind(all, j, x) <==> x == e || Behind(tr, j, x)
    {
      Placed(all, i, j);
      TurnBefore(tr, e, i, j);
      forall x ensures Behind(all, j, x) <==> x == e || Behind(tr, j, x) { StillBehind(tr, e, j, x); }
    }
  }

  lemma Placed(tr: seq<Event>, i: int, j: int)
    requires TurnAt(tr, i, j)
    ensures 0 <= i < j < |tr| && tr[i].Slept? && tr[j].Decided?
  {
  }

  /** A decision adds the turn of the command taken last. */
  lemma SinceDecided(tr: seq<Event>, e: Event, v: View, at: nat, c: set<Command>)
    requires e.Decided? && CommandAt(tr, at, c)
    ensures MadeSince(tr, v) && !(Restart in c && e.hasDocument) ==> MadeSince(tr + [e], v)
    ensures CascadedSince(tr, v) && !(Cascade in c && e == WORK) ==> CascadedSince(tr + [e], v)
  {
    var all := tr + [e];
    forall i, j | TurnAt(all, i, j)
      ensures 0 <= i < j <= |tr|
      ensures (j == |tr| && all[i] == Slept(c) && all[j] == e)
           || (j < |tr| && TurnAt(tr, i, j) && all[i] == tr[i] && all[j] == tr[j])
      ensures j < |tr| ==> forall x :: Behind(tr, j, x) ==> Behind(all, j, x)
    {
      if j < |tr| {
        TurnBefore(tr, e, i, j);
        forall x | Behind(tr, j, x) ensures Behind(all, j, x) { StillBehind(tr, e, j, x); }
      } else {
        assert all[at] == tr[at] && forall m :: 0 <= m < |tr| ==> all[m] == tr[m];
        assert i == at;
      }
    }
    hide TurnAt, Behind, CommandAt;
  }

  lemma ObeyedMain(t: Task, a: Action)
    requires Obeyed(t) && Enabled(t, a) && (a.WakeUp? || a.RestartCall? || a.GetView? || a.Sleep?)
    ensures Obeyed(Step(t, a))
  {
    hide MadeSince, CascadedSince;
    var u := Step(t, a);
    if |u.trace| > |t.trace| {
      var e := u.trace[|t.trace|];
      assert u.trace == t.trace + [e];
      if t.view.Some? { SinceGrows(t.trace, e, t.view.value); }
      CommandStays(t.trace, e, t.place);
      if e.Slept? { assert CommandAt(u.trace, |t.trace|, e.command); }
    }
  }

  lemma CommandStays(tr: seq<Event>, e: Event, place: Place)
    requires place.Woken? ==> exists i :: CommandAt(tr, i, place.command)
    ensures place.Woken? && !Own(e) ==> exists i :: CommandAt(tr + [e], i, place.command)
  {
    if place.Woken? && !Own(e) {
      var i :| CommandAt(tr, i, place.command);
      assert forall m :: 0 <= m < |tr| ==> (tr + [e])[m] == tr[m];
      assert CommandAt(tr + [e], i, place.command);
    }
  }

  lemma ObeyedDecide(t: Task, hasDocument: bool, binding: bool)
    requires Obeyed(t) && Enabled(t, Decide(hasDocument, binding))
    ensures Obeyed(Step(t, Decide(hasDocument, binding)))
  {
    hide MadeSince, CascadedSince, CommandAt;
    var e, c := Decided(hasDocument, binding), t.place.command;
    var at :| CommandAt(t.trace, at, c);
    if t.view.Some? { SinceDecided(t.trace, e, t.view.value, at, c); }
  }

  lemma ObeyedFinish(t: Task, a: Action)
    requires Invariant(t) && Obeyed(t) && Enabled(t, a) && (a.FinishCascade? || a.FinishLayout?)
    ensures Obeyed(Step(t, a))
  {
    hide MadeSince, CascadedSince, CommandAt, Invariant;
    var u := Step(t, a);
    if a.FinishLayout? {
      LayoutHasView(t);
      SinceGrows(t.trace, LayoutRun(t.view.value), t.view.value);
    } else if t.view.Some? {
      CascadeGives(t.trace, t.view.value);
      SinceGrows(t.trace, CascadeRun(t.view.value), t.view.value);
    } else if u.view.Some? {
      var v := u.view.value;
      var mid := t.trace + [Created(v)];
      SinceGrows(t.trace, Created(v), v);
      SinceGrows(mid, CascadeRun(v), v);
    }
  }

  lemma CascadeGives(tr: seq<Event>, v: View)
    ensures MadeSince(tr, v) ==> MadeSince(tr + [CascadeRun(v)], v)
  {
    SinceGrows(tr, CascadeRun(v), v);
  }

  lemma {:induction false} EveryRunObeys(run: seq<Action>)
    requires After(run).Some?
    ensures Obeyed(After(run).value)
    decreases |run|
  {
    hide Step, Enabled, MadeSince, CascadedSince;
    if run != [] {
      var n := |run| - 1;
      var t, a := After(run[..n]).value, run[n];
      EveryRunObeys(run[..n]);
      hide Obeyed;
      EveryRun(run[..n]);
      match a {
        case Decide(d, b) => ObeyedDecide(t, d, b);
        case FinishCascade(_) => ObeyedFinish(t, a);
        case FinishLayout => ObeyedFinish(t, a);
        case _ => ObeyedMain(t, a);
      }
    }
  }

  /**
   * A view that is handed out was made since every restart that the worker decided with a document, and cascaded since
   * every command to cascade that it decided with a document that is not a binding one.
   */
  ghost predicate HandOutsObey(tr: seq<Event>) {
    forall k :: 0 <= k < |tr| && tr[k].HandedOut? ==> MadeSince(tr[..k], tr[k].v) && CascadedSince(tr[..k], tr[k].v)
  }

  lemma {:induction false} HandedOutAsTold(run: seq<Action>)
    requires After(run).Some?
    ensures HandOutsObey(After(run).value.trace)
    decreases |run|
  {
    hide MadeSince, CascadedSince, Enabled;
    if run != [] {
      var n := |run| - 1;
      var t, a := After(run[..n]).value, run[n];
      HandedOutAsTold(run[..n]);
      EveryRun(run[..n]);
      EveryRunObeys(run[..n]);
      HandedNow(t, a);
    }
  }

  lemma HandedNow(t: Task, a: Action)
    requires Invariant(t) && Obeyed(t) && Enabled(t, a) && HandOutsObey(t.trace)
    ensures HandOutsObey(Step(t, a).trace)
  {
    hide MadeSince, CascadedSince, Invariant, HandOutsObey;
    CoreShapeOf(t);
    var u := Step(t, a);
    if a.GetView? && u.trace != t.trace {
      OneHanded(t.trace, t.view.value);
    } else {
      NoneHanded(t, a);
    }
  }

  lemma OneHanded(tr: seq<Event>, v: View)
    requires HandOutsObey(tr) && MadeSince(tr, v) && CascadedSince(tr, v)
    ensures HandOutsObey(tr + [HandedOut(v)])
  {
    hide MadeSince, CascadedSince;
    var all := tr + [HandedOut(v)];
    forall k | 0 <= k < |all| && all[k].HandedOut?
      ensures MadeSince(all[..k], all[k].v) && CascadedSince(all[..k], all[k].v)
    {
      assert all[..k] == tr[..k];
      if k < |tr| { assert all[k] == tr[k]; } else { assert tr[..k] == tr; }
    }
  }

  lemma NoneHanded(t: Task, a: Action)
    requires Enabled(t, a) && HandOutsObey(t.trace) && (a.GetView? ==> Step(t, a).trace == t.trace)
    ensures HandOutsObey(Step(t, a).trace)
  {
    hide MadeSince, CascadedSince, Step, Enabled;
    var tr := Step(t, a).trace;
    TraceGrows(t, a);
    forall k | 0 <= k < |tr| && tr[k].HandedOut?
      ensures MadeSince(tr[..k], tr[k].v) && CascadedSince(tr[..k], tr[k].v)
    {
      assert tr[..k] == t.trace[..k] && tr[k] == t.trace[k];
    }
  }

  lemma TraceGrows(t: Task, a: Action)
    requires Enabled(t, a) && (a.GetView? ==> Step(t, a).trace == t.trace)
    ensures var tr := Step(t, a).trace;
      t.trace <= tr && forall k :: |t.trace| <= k < |tr| ==> !tr[k].HandedOut?
  {
    match a
    case Decide(d, b) =>
      var u := Logged(t, Decided(d, b));
      assert u.trace == t.trace + [Decided(d, b)];
      assert DeleteView(u).trace == if t.view.Some? then u.trace + [Dropped(t.view.value)] else u.trace;
    case _ =>
  }

  /** A view is not fetched during a cascade. */
  lemma CoreShapeOf(t: Task)
    requires Invariant(t)
    ensures t.place == InCascade <==> t.state == Cascading
  {
    CoreShape(t);
  }

  // The state word.

  /** The worker's last event but taking a command. */
  ghost function LastDone(os: seq<Event>): Option<Event> {
    if os == [] then None else
      var n := |os| - 1;
      if os[n].Slept? || os[n].Dropped? then LastDone(os[..n]) else Some(os[n])
  }

  /** What the state word says of it: init at first, without a document and without memory, else what was done last. */
  ghost predicate StateSays(state: Phase, done: Option<Event>) {
    match done
    case None => state == Init
    case Some(e) =>
      && (e == NoMemory ==> state == Init) && (e.CascadeRun? ==> state == Cascaded) && (e.LayoutRun? ==> state == Done)
      && (e.Decided? && !e.hasDocument ==> state == Init) && (e == Decided(true, true) ==> state == Done)
      && (e == WORK || e.Created? ==> state == Cascading || state == Layouting)
  }

  ghost predicate StateTells(t: Task) {
    && StateSays(t.state, LastDone(OwnEvents(t.trace)))
    && (t.state == Cascading <==> t.place == InCascade) && (t.state == Layouting <==> t.place == InLayout)
  }

  lemma LastDoneGrows(os: seq<Event>, e: Event)
    ensures LastDone(os + [e]) == if e.Slept? || e.Dropped? then LastDone(os) else Some(e)
  {
    assert (os + [e])[..|os|] == os;
  }

  /** What was done last, when one more event has happened. */
  lemma DoneGrows(tr: seq<Event>, e: Event)
    ensures LastDone(OwnEvents(tr + [e]))
         == if !Own(e) || e.Slept? || e.Dropped? then LastDone(OwnEvents(tr)) else Some(e)
  {
    hide LastDone;
    OwnGrows(tr, e);
    LastDoneGrows(OwnEvents(tr), e);
    assert OwnEvents(tr) + [] == OwnEvents(tr);
  }

  lemma StateMain(t: Task, a: Action)
    requires StateTells(t) && Enabled(t, a) && (a.WakeUp? || a.RestartCall? || a.GetView? || a.Sleep?)
    ensures StateTells(Step(t, a))
  {
    hide LastDone, OwnEvents;
    var u := Step(t, a);
    if |u.trace| > |t.trace| {
      assert u.trace == t.trace + [u.trace[|t.trace|]];
      DoneGrows(t.trace, u.trace[|t.trace|]);
    }
  }

  lemma StateDecide(t: Task, hasDocument: bool, binding: bool)
    requires Invariant(t) && StateTells(t) && Enabled(t, Decide(hasDocument, binding))
    ensures StateTells(Step(t, Decide(hasDocument, binding)))
  {
    hide LastDone, OwnEvents, Invariant;
    var e := Decided(hasDocument, binding);
    DecideMeans(t, hasDocument, binding);
    DoneGrows(t.trace, e);
    if t.view.Some? { DoneGrows(t.trace + [e], Dropped(t.view.value)); }
  }

  lemma StateFinish(t: Task, a: Action)
    requires Invariant(t) && StateTells(t) && Enabled(t, a) && (a.FinishCascade? || a.FinishLayout?)
    ensures StateTells(Step(t, a))
  {
    hide LastDone, OwnEvents, Invariant;
    if a.FinishLayout? {
      LayoutHasView(t);
      DoneGrows(t.trace, LayoutRun(t.view.value));
    } else if t.view.Some? {
      DoneGrows(t.trace, CascadeRun(t.view.value));
    } else if a.memory {
      DoneGrows(t.trace + [Created(t.created)], CascadeRun(t.created));
    } else {
      DoneGrows(t.trace, NoMemory);
    }
  }

  lemma StateStep(t: Task, a: Action)
    requires Invariant(t) && StateTells(t) && Enabled(t, a)
    ensures StateTells(Step(t, a))
  {
    hide StateTells, Invariant, Step, Enabled;
    match a
    case Decide(d, b) => StateDecide(t, d, b);
    case FinishCascade(_) => StateFinish(t, a);
    case FinishLayout => StateFinish(t, a);
    case _ => StateMain(t, a);
  }

  /** In every run the state word tells what the worker did last, or that it is in a long operation. */
  lemma {:induction false} EveryState(run: seq<Action>)
    requires After(run).Some?
    ensures StateTells(After(run).value)
    decreases |run|
  {
    hide Step, Enabled;
    if run != [] {
      var n := |run| - 1;
      EveryState(run[..n]);
      EveryRun(run[..n]);
      StateStep(After(run[..n]).value, run[n]);
    }
  }
}
