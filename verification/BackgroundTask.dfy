/**
 * The background layout worker and the main thread, sharing a mailbox of command bits, a state
 * word and one view. Steps: a locked call or getView of the main thread; for the worker, taking
 * the mailbox, deciding what to do, and finishing a cascade or a layout.
 */
module BackgroundTask {
  import opened Sequences

  datatype Command = Abort | Cascade | Layout | Restart

  datatype Phase = Init | Cascading | Cascaded | Layouting | Done

  /** Where the worker is: in sleep(), behind it with a command, inside a long operation, or gone. */
  datatype Place = Asleep | Woken(command: set<Command>) | InCascade | InLayout | Gone

  type View = nat

  datatype Event =
    | Posted(bits: set<Command>)
    | Restarted(bits: set<Command>)
    | Slept(command: set<Command>)
    | Decided(hasDocument: bool, binding: bool)
    | Created(v: View)
    | NoMemory
    | CascadeRun(v: View)
    | LayoutRun(v: View)
    | Dropped(v: View)
    | HandedOut(v: View)

  datatype Task = Task(
    state: Phase, flags: set<Command>, view: Option<View>, xfered: bool,
    place: Place, created: nat, trace: seq<Event>)

  const START := Task(Init, {}, None, false, Asleep, 0, [])

  datatype Action =
    | WakeUp(bits: set<Command>)
    | RestartCall(bits: set<Command>)
    | GetView
    | Sleep
    | Decide(hasDocument: bool, binding: bool)
    | FinishCascade(memory: bool)
    | FinishLayout

  /** getView asserts its states; the worker's steps follow one another. */
  predicate Enabled(t: Task, a: Action) {
    match a
    case GetView => t.state == Done || t.state == Init
    case Sleep => t.place == Asleep && t.flags != {}
    case Decide(_, _) => t.place.Woken?
    case FinishCascade(_) => t.place == InCascade
    case FinishLayout => t.place == InLayout
    case _ => true
  }

  function Logged(t: Task, e: Event): Task { t.(trace := t.trace + [e]) }

  function DeleteView(t: Task): Task {
    (if t.view.Some? then Logged(t, Dropped(t.view.value)) else t).(view := None, xfered := false)
  }

  function Choose(t: Task, command: set<Command>, binding: bool): Task {
    if binding then t.(state := Done, place := Asleep)
    else if t.view == None || Cascade in command then t.(state := Cascading, place := InCascade)
    else if Layout in command then t.(state := Layouting, place := InLayout)
    else t.(state := Done, place := Asleep)
  }

  function Step(t: Task, a: Action): Task
    requires Enabled(t, a)
  {
    match a
    case WakeUp(bits) => Logged(t, Posted(bits)).(xfered := false, flags := t.flags + bits)
    case RestartCall(bits) => Logged(t, Restarted(bits)).(flags := t.flags - {Abort} + ({Restart} + bits))
    case GetView =>
      if !t.xfered && t.view.Some? then Logged(t, HandedOut(t.view.value)).(xfered := true) else t
    case Sleep =>
      Logged(t, Slept(t.flags)).(flags := {}, place := if Abort in t.flags then Gone else Woken(t.flags))
    case Decide(hasDocument, binding) =>
      var command, u := t.place.command, Logged(t, Decided(hasDocument, binding));
      if !hasDocument then u.(state := Init, place := Asleep)
      else Choose(if Restart in command then DeleteView(u).(state := Init) else u, command - {Restart}, binding)
    case FinishCascade(memory) =>
      if t.view.Some? then Logged(t, CascadeRun(t.view.value)).(state := Cascaded, place := Asleep)
      else if memory then
        Logged(Logged(t, Created(t.created)), CascadeRun(t.created))
          .(view := Some(t.created), created := t.created + 1, state := Cascaded, place := Asleep)
      else Logged(t, NoMemory).(state := Init, place := Asleep)
    case FinishLayout =>
      (if t.view.Some? then Logged(t, LayoutRun(t.view.value)) else t).(state := Done, place := Asleep)
  }

  /** The state after a run from the start; None when some action of it was not enabled. */
  function After(run: seq<Action>): Option<Task>
    decreases |run|
  {
    if run == [] then Some(START) else
      var s := After(run[..|run| - 1]);
      var a := run[|run| - 1];
      if s.Some? && Enabled(s.value, a) then Some(Step(s.value, a)) else None
  }

  // What the trace of a run is to satisfy.

  ghost predicate Posts(e: Event, c: Command) {
    (e.Posted? && c in e.bits) || (e.Restarted? && (c in e.bits || c == Restart))
  }

  /** c was posted since the last sleep, and if it is Abort no restart came after it. */
  ghost predicate Outstanding(tr: seq<Event>, c: Command) {
    exists i :: 0 <= i < |tr| && Posts(tr[i], c)
      && forall j :: i < j < |tr| ==> !tr[j].Slept? && (c == Abort ==> !tr[j].Restarted?)
  }

  /** Each sleep returned exactly what was outstanding. */
  ghost predicate SleepsTakeAll(tr: seq<Event>) {
    forall k :: 0 <= k < |tr| && tr[k].Slept? ==> forall c :: c in tr[k].command <==> Outstanding(tr[..k], c)
  }

  /** Before position k, v was cascaded, and neither created nor dropped since. */
  ghost predicate CascadedBefore(tr: seq<Event>, k: nat, v: View)
    requires k <= |tr|
  {
    exists j :: 0 <= j < k && tr[j] == CascadeRun(v)
      && forall m :: j < m < k ==> tr[m] != Created(v) && tr[m] != Dropped(v)
  }

  /** Each layout ran on a view cascaded since it was created. */
  ghost predicate LayoutsAfterCascade(tr: seq<Event>) {
    forall k :: 0 <= k < |tr| && tr[k].LayoutRun? ==> CascadedBefore(tr, k, tr[k].v)
  }

  /** No view is created twice. */
  ghost predicate FreshViews(tr: seq<Event>, n: nat) {
    && (forall k :: 0 <= k < |tr| && tr[k].Created? ==> tr[k].v < n)
    && (forall j, k :: 0 <= j < k < |tr| && tr[j].Created? && tr[k].Created? ==> tr[j].v != tr[k].v)
  }

  /** Between two hand-outs of one view the main thread called wakeUp. */
  ghost predicate HandOutsApart(tr: seq<Event>) {
    forall j, k :: 0 <= j < k < |tr| && tr[j].HandedOut? && tr[k] == tr[j] ==> exists m :: j < m < k && tr[m].Posted?
  }

  /** Only cascaded views that are still there are handed out. */
  ghost predicate HandOutsCascaded(tr: seq<Event>) {
    forall k :: 0 <= k < |tr| && tr[k].HandedOut? ==> CascadedBefore(tr, k, tr[k].v)
  }

  /** e happened, and v was not cascaded again since. */
  ghost predicate Since(tr: seq<Event>, e: Event, v: View) {
    exists l :: 0 <= l < |tr| && tr[l] == e && forall m :: l < m < |tr| ==> tr[m] != CascadeRun(v)
  }

  /** v was laid out since its last cascade. */
  ghost predicate LaidOut(tr: seq<Event>, v: View) { Since(tr, LayoutRun(v), v) }

  /** Since the last cascade of v the worker had a turn with a document that is not a binding document. */
  ghost predicate HadTurn(tr: seq<Event>, v: View) { Since(tr, Decided(true, false), v) }

  /** A view that is handed out is laid out exactly if the worker had such a turn since the view was last cascaded. */
  ghost predicate HandOutsLaid(tr: seq<Event>) {
    forall k :: 0 <= k < |tr| && tr[k].HandedOut? ==> (LaidOut(tr[..k], tr[k].v) <==> HadTurn(tr[..k], tr[k].v))
  }

  // The inductive invariant.

  ghost predicate LiveCascade(tr: seq<Event>, v: View) {
    CascadedBefore(tr, |tr|, v)
  }

  /** v may be handed out now: any earlier hand-out has a wakeUp behind it. */
  ghost predicate MayHandOut(tr: seq<Event>, v: View) {
    forall j :: 0 <= j < |tr| && tr[j] == HandedOut(v) ==> exists m :: j < m < |tr| && tr[m].Posted?
  }

  ghost predicate Shape(t: Task) {
    && (t.state == Cascaded || t.state == Layouting ==> t.view.Some?)
    && (t.place == InLayout ==> t.view.Some? && t.state == Layouting)
    && (t.place == InCascade <==> t.state == Cascading)
    && (t.state == Layouting ==> t.place == InLayout)
    && (t.view.Some? ==> t.view.value < t.created)
    && (t.place.Woken? ==> t.place.command != {} && Abort !in t.place.command)
  }

  /** Everything the invariant says about the trace alone; n views have been created. */
  ghost predicate TraceOk(tr: seq<Event>, n: nat) {
    && SleepsTakeAll(tr) && LayoutsAfterCascade(tr) && FreshViews(tr, n)
    && (forall k :: 0 <= k < |tr| && tr[k].HandedOut? ==> tr[k].v < n)
    && HandOutsApart(tr) && HandOutsCascaded(tr) && HandOutsLaid(tr)
  }

  ghost predicate Mailbox(tr: seq<Event>, flags: set<Command>) {
    forall c :: c in flags <==> Outstanding(tr, c)
  }

  ghost predicate ViewOk(tr: seq<Event>, view: Option<View>, xfered: bool) {
    && (view.Some? ==> LiveCascade(tr, view.value))
    && (view.Some? && !xfered ==> MayHandOut(tr, view.value))
  }

  /** Outside the two long operations a view is laid out just when the worker had its turn; in a layout it had it. */
  ghost predicate LayoutOk(tr: seq<Event>, view: Option<View>, place: Place) {
    view.Some? ==>
      && (place == InLayout ==> HadTurn(tr, view.value))
      && (place != InLayout && place != InCascade ==> (LaidOut(tr, view.value) <==> HadTurn(tr, view.value)))
  }

  ghost predicate Core(t: Task) {
    && Shape(t) && Mailbox(t.trace, t.flags) && TraceOk(t.trace, t.created) && ViewOk(t.trace, t.view, t.xfered)
  }

  ghost predicate Invariant(t: Task) {
    Core(t) && LayoutOk(t.trace, t.view, t.place)
  }

  // One more event on a trace, clause by clause.

  lemma OutstandingStep(tr: seq<Event>, e: Event, c: Command)
    ensures Outstanding(tr + [e], c) <==>
      Posts(e, c) || (Outstanding(tr, c) && !e.Slept? && (c == Abort ==> !e.Restarted?))
  {
    var t := tr + [e];
    if Posts(e, c) {
      assert t[|tr|] == e;
    } else if Outstanding(tr, c) && !e.Slept? && (c == Abort ==> !e.Restarted?) {
      var i :| 0 <= i < |tr| && Posts(tr[i], c)
        && forall j :: i < j < |tr| ==> !tr[j].Slept? && (c == Abort ==> !tr[j].Restarted?);
      assert t[i] == tr[i];
    }
    if Outstanding(t, c) && !Posts(e, c) {
      var i :| 0 <= i < |t| && Posts(t[i], c)
        && forall j :: i < j < |t| ==> !t[j].Slept? && (c == Abort ==> !t[j].Restarted?);
      assert t[|tr|] == e && t[i] == tr[i];
      forall j | i < j < |tr| ensures !tr[j].Slept? && (c == Abort ==> !tr[j].Restarted?) {
        assert t[j] == tr[j];
      }
    }
  }

  lemma SleepsStep(tr: seq<Event>, e: Event)
    requires SleepsTakeAll(tr) && (e.Slept? ==> forall c :: c in e.command <==> Outstanding(tr, c))
    ensures SleepsTakeAll(tr + [e])
  {
    var t := tr + [e];
    forall k | 0 <= k < |t| && t[k].Slept?
      ensures forall c :: c in t[k].command <==> Outstanding(t[..k], c)
    {
      if k < |tr| {
        assert t[k] == tr[k] && t[..k] == tr[..k];
      } else {
        assert t[..k] == tr;
      }
    }
  }

  lemma LiveStep(tr: seq<Event>, e: Event, v: View)
    requires LiveCascade(tr, v) && e != Created(v) && e != Dropped(v)
    ensures LiveCascade(tr + [e], v)
  {
    var t := tr + [e];
    var j :| 0 <= j < |tr| && tr[j] == CascadeRun(v)
      && forall m :: j < m < |tr| ==> tr[m] != Created(v) && tr[m] != Dropped(v);
    assert t[j] == CascadeRun(v);
  }

  lemma LiveNow(tr: seq<Event>, v: View)
    ensures LiveCascade(tr + [CascadeRun(v)], v)
  {
    assert (tr + [CascadeRun(v)])[|tr|] == CascadeRun(v);
  }

  lemma CascadeOrderStep(tr: seq<Event>, e: Event)
    requires LayoutsAfterCascade(tr) && HandOutsCascaded(tr)
    requires e.LayoutRun? || e.HandedOut? ==> LiveCascade(tr, e.v)
    ensures LayoutsAfterCascade(tr + [e]) && HandOutsCascaded(tr + [e])
  {
    var t := tr + [e];
    forall k | 0 <= k < |t| && (t[k].LayoutRun? || t[k].HandedOut?)
      ensures CascadedBefore(t, k, t[k].v)
    {
      if k < |tr| {
        assert t[k] == tr[k];
        var j :| 0 <= j < k && tr[j] == CascadeRun(tr[k].v)
          && forall m :: j < m < k ==> tr[m] != Created(tr[k].v) && tr[m] != Dropped(tr[k].v);
        assert t[j] == tr[j];
      } else {
        var j :| 0 <= j < |tr| && tr[j] == CascadeRun(e.v)
          && forall m :: j < m < |tr| ==> tr[m] != Created(e.v) && tr[m] != Dropped(e.v);
        assert t[j] == tr[j];
      }
    }
  }

  lemma FreshStep(tr: seq<Event>, e: Event, n: nat, m: nat)
    requires FreshViews(tr, n) && n <= m && (e.Created? ==> e.v == n < m)
    ensures FreshViews(tr + [e], m)
  {
  }

  lemma HandOutStep(tr: seq<Event>, e: Event)
    requires HandOutsApart(tr) && (e.HandedOut? ==> MayHandOut(tr, e.v))
    ensures HandOutsApart(tr + [e])
  {
    var t := tr + [e];
    forall j, k | 0 <= j < k < |t| && t[j].HandedOut? && t[k] == t[j]
      ensures exists m :: j < m < k && t[m].Posted?
    {
      if k < |tr| {
        var m :| j < m < k && tr[m].Posted?;
        assert t[m] == tr[m];
      } else {
        var m :| j < m < |tr| && tr[m].Posted?;
        assert t[m] == tr[m];
      }
    }
  }

  lemma MayStep(tr: seq<Event>, e: Event, v: View)
    requires e.Posted? || (MayHandOut(tr, v) && e != HandedOut(v))
    ensures MayHandOut(tr + [e], v)
  {
    var t := tr + [e];
    forall j | 0 <= j < |t| && t[j] == HandedOut(v)
      ensures exists m :: j < m < |t| && t[m].Posted?
    {
      assert j < |tr|;
      if e.Posted? {
        assert t[|tr|] == e;
      } else {
        var m :| j < m < |tr| && tr[m].Posted?;
        assert t[m] == tr[m];
      }
    }
  }

  lemma MayFresh(tr: seq<Event>, v: View, n: nat)
    requires n <= v && forall k :: 0 <= k < |tr| && tr[k].HandedOut? ==> tr[k].v < n
    ensures MayHandOut(tr, v)
  {
  }

  lemma SinceStep(tr: seq<Event>, x: Event, e: Event, v: View)
    ensures Since(tr + [x], e, v) <==> x == e || (Since(tr, e, v) && x != CascadeRun(v))
  {
    var t := tr + [x];
    if x == e { assert t[|tr|] == e; }
    if Since(tr, e, v) && x != CascadeRun(v) {
      var l :| 0 <= l < |tr| && tr[l] == e && forall m :: l < m < |tr| ==> tr[m] != CascadeRun(v);
      assert t[l] == e;
    }
    if Since(t, e, v) && x != e {
      var l :| 0 <= l < |t| && t[l] == e && forall m :: l < m < |t| ==> t[m] != CascadeRun(v);
      assert t[|tr|] == x && tr[l] == e;
      forall m | l < m < |tr| ensures tr[m] != CascadeRun(v) { assert t[m] == tr[m]; }
    }
  }

  lemma LaidStep(tr: seq<Event>, e: Event)
    requires HandOutsLaid(tr) && (e.HandedOut? ==> (LaidOut(tr, e.v) <==> HadTurn(tr, e.v)))
    ensures HandOutsLaid(tr + [e])
  {
    hide LaidOut, HadTurn;
    var t := tr + [e];
    forall k | 0 <= k < |t| && t[k].HandedOut? ensures LaidOut(t[..k], t[k].v) <==> HadTurn(t[..k], t[k].v) {
      assert t[..k] == if k < |tr| then tr[..k] else tr;
      assert t[k] == if k < |tr| then tr[k] else e;
    }
  }

  lemma TraceStep(tr: seq<Event>, e: Event, n: nat, m: nat)
    requires TraceOk(tr, n) && n <= m && (e.Created? ==> e.v == n < m) && (e.HandedOut? ==> e.v < n)
    requires e.Slept? ==> forall c :: c in e.command <==> Outstanding(tr, c)
    requires e.LayoutRun? || e.HandedOut? ==> LiveCascade(tr, e.v)
    requires e.HandedOut? ==> MayHandOut(tr, e.v) && (LaidOut(tr, e.v) <==> HadTurn(tr, e.v))
    ensures TraceOk(tr + [e], m)
  {
    LaidStep(tr, e);
    SleepsStep(tr, e);
    CascadeOrderStep(tr, e);
    FreshStep(tr, e, n, m);
    HandOutStep(tr, e);
  }

  lemma MailboxStep(tr: seq<Event>, e: Event, flags: set<Command>, after: set<Command>)
    requires Mailbox(tr, flags)
    requires match e
      case Posted(bits) => after == flags + bits
      case Restarted(bits) => after == flags - {Abort} + ({Restart} + bits)
      case Slept(_) => after == {}
      case _ => after == flags
    ensures Mailbox(tr + [e], after)
  {
    hide Outstanding;
    forall c ensures c in after <==> Outstanding(tr + [e], c) { OutstandingStep(tr, e, c); }
  }

  lemma ViewStep(tr: seq<Event>, e: Event, view: Option<View>, xfered: bool)
    requires ViewOk(tr, view, xfered)
    requires view.Some? ==> e != Created(view.value) && e != Dropped(view.value)
    ensures ViewOk(tr + [e], view, xfered || e.HandedOut?)
    ensures e.Posted? ==> ViewOk(tr + [e], view, false)
  {
    hide LiveCascade, MayHandOut;
    if view.Some? {
      LiveStep(tr, e, view.value);
      if e.Posted? || (!xfered && !e.HandedOut?) { MayStep(tr, e, view.value); }
    }
  }

  lemma MainSteps(t: Task, a: Action)
    requires Invariant(t) && Enabled(t, a) && (a.WakeUp? || a.RestartCall? || a.GetView? || a.Sleep?)
    ensures Core(Step(t, a))
  {
    hide TraceOk, Mailbox, ViewOk;
    var u := Step(t, a);
    if |u.trace| > |t.trace| {
      var e := u.trace[|t.trace|];
      assert u.trace == t.trace + [e];
      if e.HandedOut? { HandOutReady(t); }
      if e.Slept? { SleepReady(t); }
      TraceStep(t.trace, e, t.created, t.created);
      MailboxStep(t.trace, e, t.flags, u.flags);
      ViewStep(t.trace, e, t.view, t.xfered);
    }
  }

  lemma HandOutReady(t: Task)
    requires Invariant(t) && Enabled(t, GetView) && !t.xfered && t.view.Some?
    ensures LiveCascade(t.trace, t.view.value) && MayHandOut(t.trace, t.view.value)
    ensures LaidOut(t.trace, t.view.value) <==> HadTurn(t.trace, t.view.value)
  {
  }

  lemma SleepReady(t: Task)
    requires Invariant(t)
    ensures forall c :: c in t.flags <==> Outstanding(t.trace, c)
  {
  }

  lemma NoView(tr: seq<Event>)
    ensures ViewOk(tr, None, false)
  {
  }

  lemma DropStep(t: Task)
    requires TraceOk(t.trace, t.created) && Mailbox(t.trace, t.flags)
    ensures var d := DeleteView(t);
      TraceOk(d.trace, t.created) && Mailbox(d.trace, t.flags) && ViewOk(d.trace, None, false)
  {
    hide TraceOk, Mailbox, ViewOk;
    NoView(DeleteView(t).trace);
    if t.view.Some? {
      TraceStep(t.trace, Dropped(t.view.value), t.created, t.created);
      MailboxStep(t.trace, Dropped(t.view.value), t.flags, t.flags);
    }
  }

  lemma DecideSteps(t: Task, a: Action)
    requires Invariant(t) && Enabled(t, a) && a.Decide?
    ensures Core(Step(t, a))
  {
    hide TraceOk, Mailbox, ViewOk;
    var e := Decided(a.hasDocument, a.binding);
    TraceStep(t.trace, e, t.created, t.created);
    MailboxStep(t.trace, e, t.flags, t.flags);
    ViewStep(t.trace, e, t.view, t.xfered);
    DropStep(Logged(t, e));
  }

  lemma CreateStep(t: Task)
    requires Invariant(t) && t.view == None
    ensures var tr := t.trace + [Created(t.created)] + [CascadeRun(t.created)];
      TraceOk(tr, t.created + 1) && Mailbox(tr, t.flags) && ViewOk(tr, Some(t.created), t.xfered)
  {
    var n := t.created;
    var mid := t.trace + [Created(n)];
    assert HandedBelow(mid, n) by {
      forall k | 0 <= k < |mid| && mid[k].HandedOut? ensures mid[k].v < n { assert mid[k] == t.trace[k]; }
    }
    hide TraceOk, Mailbox;
    TraceStep(t.trace, Created(n), n, n + 1);
    TraceStep(mid, CascadeRun(n), n + 1, n + 1);
    MailboxStep(t.trace, Created(n), t.flags, t.flags);
    MailboxStep(mid, CascadeRun(n), t.flags, t.flags);
    LiveNow(mid, n);
    MayFresh(mid, n, n);
    MayStep(mid, CascadeRun(n), n);
  }

  ghost predicate HandedBelow(tr: seq<Event>, n: nat) {
    forall k :: 0 <= k < |tr| && tr[k].HandedOut? ==> tr[k].v < n
  }

  lemma FinishSteps(t: Task, a: Action)
    requires Invariant(t) && Enabled(t, a) && (a.FinishCascade? || a.FinishLayout?)
    ensures Core(Step(t, a))
  {
    hide TraceOk, Mailbox, ViewOk;
    if t.view.Some? {
      var v := t.view.value;
      var e := if a.FinishLayout? then LayoutRun(v) else CascadeRun(v);
      LiveView(t);
      TraceStep(t.trace, e, t.created, t.created);
      MailboxStep(t.trace, e, t.flags, t.flags);
      ViewStep(t.trace, e, t.view, t.xfered);
    } else {
      CreateStep(t);
      TraceStep(t.trace, NoMemory, t.created, t.created);
      MailboxStep(t.trace, NoMemory, t.flags, t.flags);
      ViewStep(t.trace, NoMemory, t.view, t.xfered);
    }
  }

  lemma LiveView(t: Task)
    requires Invariant(t) && t.view.Some?
    ensures LiveCascade(t.trace, t.view.value)
  {
  }

  /** Any other event but a cascade, a layout or a turn leaves both answers as they are. */
  lemma SameSince(tr: seq<Event>, x: Event, view: Option<View>, place: Place, next: Place)
    requires LayoutOk(tr, view, place) && !x.CascadeRun? && !x.LayoutRun? && x != Decided(true, false)
    requires next == place || (next != InLayout && next != InCascade && place != InLayout && place != InCascade)
    ensures LayoutOk(tr + [x], view, next)
  {
    if view.Some? {
      SinceStep(tr, x, LayoutRun(view.value), view.value);
      SinceStep(tr, x, Decided(true, false), view.value);
    }
    hide Since;
  }

  lemma LayoutDecide(t: Task, a: Action)
    requires Invariant(t) && Enabled(t, a) && a.Decide?
    ensures var u := Step(t, a); LayoutOk(u.trace, u.view, u.place)
  {
    hide Since, Core, LaidOut, HadTurn, Shape;
    var e := Decided(a.hasDocument, a.binding);
    DecidesSome(t);
    if t.view.Some? {
      Turned(t.trace, e, t.view.value);
      SomeCommand(t.place.command);
      if e != Decided(true, false) { SameSince(t.trace, e, t.view, t.place, Asleep); }
    }
  }

  /** A turn is taken of commands, and abort is not among them. */
  lemma DecidesSome(t: Task)
    requires Invariant(t) && t.place.Woken?
    ensures t.place.command != {} && Abort !in t.place.command
  {
    hide LayoutOk;
    CoreShape(t);
  }

  lemma SomeCommand(command: set<Command>)
    requires command != {} && Abort !in command
    ensures Restart in command || Cascade in command || Layout in command
  {
    var c :| c in command;
    match c
    case Abort =>
    case Restart =>
    case Cascade =>
    case Layout =>
  }

  lemma CoreShape(t: Task)
    requires Core(t)
    ensures Shape(t)
  {
  }

  lemma Turned(tr: seq<Event>, e: Event, v: View)
    ensures e == Decided(true, false) ==> HadTurn(tr + [e], v)
  {
    SinceStep(tr, e, Decided(true, false), v);
  }

  lemma LayoutFinish(t: Task, a: Action)
    requires Invariant(t) && Enabled(t, a) && (a.FinishCascade? || a.FinishLayout?)
    ensures var u := Step(t, a); LayoutOk(u.trace, u.view, u.place)
  {
    var u := Step(t, a);
    if u.view.Some? {
      var v := u.view.value;
      var before := if t.view.Some? then t.trace else t.trace + [Created(v)];
      var e := if a.FinishLayout? then LayoutRun(v) else CascadeRun(v);
      assert u.trace == before + [e];
      SinceStep(before, e, LayoutRun(v), v);
      SinceStep(before, e, Decided(true, false), v);
    }
    hide Since;
  }

  lemma LayoutMain(t: Task, a: Action)
    requires Invariant(t) && Enabled(t, a) && (a.WakeUp? || a.RestartCall? || a.GetView? || a.Sleep?)
    ensures var u := Step(t, a); LayoutOk(u.trace, u.view, u.place)
  {
    var u := Step(t, a);
    if |u.trace| > |t.trace| {
      SameSince(t.trace, u.trace[|t.trace|], t.view, t.place, u.place);
    }
    hide LaidOut, HadTurn;
  }

  lemma StepKeepsInvariant(t: Task, a: Action)
    requires Invariant(t) && Enabled(t, a)
    ensures Invariant(Step(t, a))
  {
    hide Core, LayoutOk, Step, Enabled;
    match a {
      case Decide(_, _) =>
        DecideSteps(t, a);
        LayoutDecide(t, a);
      case FinishCascade(_) =>
        FinishSteps(t, a);
        LayoutFinish(t, a);
      case FinishLayout =>
        FinishSteps(t, a);
        LayoutFinish(t, a);
      case _ =>
        MainSteps(t, a);
        LayoutMain(t, a);
    }
  }

  /**
   * Under every interleaving: a cascaded or layouting state means there is a view; every layout
   * ran on a view cascaded since it was created; no view was handed out twice without a wakeUp
   * in between; a view handed out is laid out since its last cascade exactly if the worker had a turn for it
   * with a document that is not a binding document; and every sleep returned exactly what was outstanding.
   */
  lemma {:induction false} EveryRun(run: seq<Action>)
    requires After(run).Some?
    ensures Invariant(After(run).value)
    decreases |run|
  {
    if run != [] {
      var n := |run| - 1;
      EveryRun(run[..n]);
      StepKeepsInvariant(After(run[..n]).value, run[n]);
    } else {
      assert forall c :: !Outstanding([], c);
    }
  }

  lemma RunOn(run: seq<Action>, s: Task, a: Action)
    requires After(run) == Some(s) && Enabled(s, a)
    ensures After(run + [a]) == Some(Step(s, a))
  {
    assert (run + [a])[..|run|] == run;
  }

  /**
   * A view that was never laid out can be handed out: when the document goes away before the layout, and
   * when the window has become that of a binding document.
   */
  lemma HandOutWithoutLayout(hasDocument: bool, binding: bool) returns (run: seq<Action>, t: Task)
    requires !hasDocument || binding
    ensures After(run) == Some(t) && HandedOut(0) in t.trace && forall e :: e in t.trace ==> !e.LayoutRun?
  {
    hide After;
    run, t := CascadeFirst();
    run, t := ThenLayout(run, t);
    RunOn(run, t, Decide(hasDocument, binding));
    run, t := run + [Decide(hasDocument, binding)], Step(t, Decide(hasDocument, binding));
    RunOn(run, t, GetView);
    run, t := run + [GetView], Step(t, GetView);
    assert t.trace[|t.trace| - 1] == HandedOut(0);
  }

  /** The condition, told of the hand-out itself: in every run, whatever came before. */
  lemma HandedOutLaidOut(run: seq<Action>, k: nat)
    requires After(run).Some? && k < |After(run).value.trace| && After(run).value.trace[k].HandedOut?
    ensures var tr := After(run).value.trace; LaidOut(tr[..k], tr[k].v) <==> HadTurn(tr[..k], tr[k].v)
  {
    EveryRun(run);
    assert HandOutsLaid(After(run).value.trace);
  }

  const POSTED := START.(flags := {Cascade}, trace := [Posted({Cascade})])
  const TAKEN := POSTED.(flags := {}, place := Woken({Cascade}), trace := POSTED.trace + [Slept({Cascade})])
  const BEGUN := TAKEN.(state := Cascading, place := InCascade, trace := TAKEN.trace + [Decided(true, false)])
  const FINISHED := BEGUN.(state := Cascaded, place := Asleep, view := Some(0), created := 1,
                           trace := BEGUN.trace + [Created(0)] + [CascadeRun(0)])

  lemma FirstSteps()
    ensures After([]) == Some(START)
    ensures Enabled(START, WakeUp({Cascade})) && Step(START, WakeUp({Cascade})) == POSTED
    ensures Enabled(POSTED, Sleep) && Step(POSTED, Sleep) == TAKEN
    ensures Enabled(TAKEN, Decide(true, false)) && Step(TAKEN, Decide(true, false)) == BEGUN
    ensures Enabled(BEGUN, FinishCascade(true)) && Step(BEGUN, FinishCascade(true)) == FINISHED
  {
    assert START.trace + [Posted({Cascade})] == POSTED.trace;
    assert Cascade in POSTED.flags;
  }

  lemma FirstView()
    ensures FINISHED.place == Asleep && FINISHED.flags == {} && FINISHED.view == Some(0) && !FINISHED.xfered
    ensures forall e :: e in FINISHED.trace ==> !e.LayoutRun?
  {
  }

  /** A run in which the first view is made and cascaded. */
  lemma CascadeFirst() returns (run: seq<Action>, t: Task)
    ensures After(run) == Some(t)
    ensures t.place == Asleep && t.flags == {} && t.view == Some(0) && !t.xfered
    ensures forall e :: e in t.trace ==> !e.LayoutRun?
  {
    hide *;
    FirstSteps();
    FirstView();
    RunOn([], START, WakeUp({Cascade}));
    run := [] + [WakeUp({Cascade})];
    RunOn(run, POSTED, Sleep);
    run := run + [Sleep];
    RunOn(run, TAKEN, Decide(true, false));
    run := run + [Decide(true, false)];
    RunOn(run, BEGUN, FinishCascade(true));
    run, t := run + [FinishCascade(true)], FINISHED;
  }

  // What it means that the worker is idle.

  predicate Idle(t: Task) { t.state == Done && t.flags == {} && t.xfered }

  /** A command other than abort was taken out of the mailbox, and the worker has not decided about it yet. */
  ghost predicate Undecided(tr: seq<Event>) {
    exists i :: 0 <= i < |tr| && tr[i].Slept? && Abort !in tr[i].command && forall j :: i < j < |tr| ==> !tr[j].Decided?
  }

  /** v was handed out and no wakeUp came since. */
  ghost predicate HandedSince(tr: seq<Event>, v: View) {
    exists i :: 0 <= i < |tr| && tr[i] == HandedOut(v) && forall j :: i < j < |tr| ==> !tr[j].Posted?
  }

  lemma UndecidedStep(tr: seq<Event>, e: Event)
    ensures Undecided(tr + [e]) <==> (e.Slept? && Abort !in e.command) || (Undecided(tr) && !e.Decided?)
  {
    var t := tr + [e];
    assert t[|tr|] == e;
    if Undecided(tr) && !e.Decided? {
      var i :| 0 <= i < |tr| && tr[i].Slept? && Abort !in tr[i].command && forall j :: i < j < |tr| ==> !tr[j].Decided?;
      assert t[i] == tr[i];
    }
    if Undecided(t) && !(e.Slept? && Abort !in e.command) {
      var i :| 0 <= i < |t| && t[i].Slept? && Abort !in t[i].command && forall j :: i < j < |t| ==> !t[j].Decided?;
      assert tr[i] == t[i];
      forall j | i < j < |tr| ensures !tr[j].Decided? { assert t[j] == tr[j]; }
    }
  }

  lemma HandedStep(tr: seq<Event>, e: Event, v: View)
    requires e == HandedOut(v) || (HandedSince(tr, v) && !e.Posted?)
    ensures HandedSince(tr + [e], v)
  {
    var t := tr + [e];
    if e == HandedOut(v) {
      assert t[|tr|] == e;
    } else {
      var i :| 0 <= i < |tr| && tr[i] == HandedOut(v) && forall j :: i < j < |tr| ==> !tr[j].Posted?;
      assert t[i] == tr[i];
    }
  }

  ghost predicate Settling(t: Task) {
    && (t.place.Woken? <==> Undecided(t.trace))
    && (t.xfered ==> t.view.Some? && HandedSince(t.trace, t.view.value))
  }

  lemma SettlingStep(t: Task, a: Action)
    requires Settling(t) && Enabled(t, a)
    ensures Settling(Step(t, a))
  {
    hide Undecided, HandedSince;
    var u := Step(t, a);
    if |t.trace| < |u.trace| {
      var e := u.trace[|t.trace|];
      UndecidedStep(t.trace, e);
      if t.xfered && !e.Posted? { HandedStep(t.trace, e, t.view.value); }
      if e.HandedOut? { HandedStep(t.trace, e, e.v); }
      if |t.trace| + 1 < |u.trace| {
        UndecidedStep(t.trace + [e], u.trace[|t.trace| + 1]);
        assert u.trace == t.trace + [e] + [u.trace[|t.trace| + 1]];
      } else {
        assert u.trace == t.trace + [e];
      }
    }
  }

  lemma {:induction false} EveryRunSettles(run: seq<Action>)
    requires After(run).Some?
    ensures Settling(After(run).value)
    decreases |run|
  {
    if run != [] {
      var n := |run| - 1;
      EveryRunSettles(run[..n]);
      SettlingStep(After(run[..n]).value, run[n]);
    }
  }

  /**
   * An idle worker has handed out its view, with no wakeUp since, nothing is posted for it, and it is in no long
   * operation. But it rests only when it has decided about every command that it took.
   */
  lemma IdleMeans(run: seq<Action>, t: Task)
    requires After(run) == Some(t) && Idle(t)
    ensures t.view.Some? && HandedSince(t.trace, t.view.value) && forall c :: !Outstanding(t.trace, c)
    ensures t.place != InCascade && t.place != InLayout
    ensures t.place == Asleep || t.place == Gone <==> !Undecided(t.trace)
  {
    EveryRun(run);
    EveryRunSettles(run);
    CoreShape(t);
  }

  /** An idle worker that has taken a command: woken for another layout of a finished view before that is fetched. */
  lemma IdleButWoken() returns (run: seq<Action>, t: Task)
    ensures After(run) == Some(t) && Idle(t) && t.place == Woken({Layout})
  {
    hide After;
    run, t := CascadeFirst();
    run, t := ThenLayout(run, t);
    RunOn(run, t, Decide(true, false));
    run, t := run + [Decide(true, false)], Step(t, Decide(true, false));
    RunOn(run, t, FinishLayout);
    run, t := run + [FinishLayout], Step(t, FinishLayout);
    run, t := ThenLayoutAndView(run, t);
  }

  /** wakeUp for a layout, and the worker takes the command. */
  lemma ThenLayout(before: seq<Action>, s: Task) returns (run: seq<Action>, t: Task)
    requires After(before) == Some(s) && s.place == Asleep && s.flags == {}
    ensures After(run) == Some(t)
    ensures t == s.(xfered := false, place := Woken({Layout}),
                    trace := s.trace + [Posted({Layout})] + [Slept({Layout})])
  {
    hide After;
    RunOn(before, s, WakeUp({Layout}));
    run, t := before + [WakeUp({Layout})], Step(s, WakeUp({Layout}));
    assert Layout in t.flags && t.flags == {Layout};
    RunOn(run, t, Sleep);
    run, t := run + [Sleep], Step(t, Sleep);
  }

  /** The same, with the view fetched in between. */
  lemma ThenLayoutAndView(before: seq<Action>, s: Task) returns (run: seq<Action>, t: Task)
    requires After(before) == Some(s) && s.place == Asleep && s.flags == {} && s.state == Done && s.view.Some?
    ensures After(run) == Some(t) && Idle(t) && t.place == Woken({Layout})
  {
    hide After;
    RunOn(before, s, WakeUp({Layout}));
    run, t := before + [WakeUp({Layout})], Step(s, WakeUp({Layout}));
    assert Layout in t.flags && t.flags == {Layout};
    RunOn(run, t, GetView);
    run, t := run + [GetView], Step(t, GetView);
    RunOn(run, t, Sleep);
    run, t := run + [Sleep], Step(t, Sleep);
  }

  // The object itself. Each method is one step.

  lemma LayoutHasView(t: Task)
    requires Invariant(t) && t.place == InLayout
    ensures t.view.Some?
  {
  }

  class Worker {
    var state: Phase
    var flags: set<Command>
    var view: Option<View>
    var xfered: bool
    var place: Place
    var created: nat
    ghost var trace: seq<Event>

    ghost function Abs(): Task
      reads this
    {
      Task(state, flags, view, xfered, place, created, trace)
    }

    constructor ()
      ensures Abs() == START
    {
      state, flags, view, xfered, place, created, trace := Init, {}, None, false, Asleep, 0, [];
    }

    method WakeUpCall(bits: set<Command>)
      modifies this
      ensures Abs() == Step(old(Abs()), WakeUp(bits))
    {
      xfered := false;
      flags := flags + bits;
      trace := trace + [Posted(bits)];
    }

    method AbortCall()
      modifies this
      ensures Abs() == Step(old(Abs()), WakeUp({Abort}))
    {
      WakeUpCall({Abort});
    }

    method RestartTask(bits: set<Command>)
      modifies this
      ensures Abs() == Step(old(Abs()), RestartCall(bits))
    {
      flags := flags - {Abort};
      flags := flags + ({Restart} + bits);
      trace := trace + [Restarted(bits)];
    }

    method GetViewCall() returns (r: Option<View>)
      requires state == Done || state == Init
      modifies this
      ensures Abs() == Step(old(Abs()), GetView)
      ensures r == if !old(xfered) then old(view) else None
    {
      if !xfered && view.Some? {
        xfered := true;
        trace := trace + [HandedOut(view.value)];
        return view;
      }
      return None;
    }

    /** sleep() once the mailbox holds something; the loop guard of operator() included. */
    method SleepCall() returns (command: set<Command>)
      requires place == Asleep && flags != {}
      modifies this
      ensures Abs() == Step(old(Abs()), Sleep) && command == old(flags)
    {
      command := flags;
      flags := {};
      place := if Abort in command then Gone else Woken(command);
      trace := trace + [Slept(command)];
    }

    method DeleteViewCall()
      modifies this`view, this`xfered, this`trace
      ensures Abs() == DeleteView(old(Abs()))
    {
      if view.Some? {
        trace := trace + [Dropped(view.value)];
      }
      view := None;
      xfered := false;
    }

    /** From sleep() up to the next long operation or the end of the iteration. */
    method DecideCall(hasDocument: bool, binding: bool)
      requires place.Woken?
      modifies this
      ensures Abs() == Step(old(Abs()), Decide(hasDocument, binding))
    {
      var command := place.command;
      trace := trace + [Decided(hasDocument, binding)];
      if !hasDocument {
        state := Init;
        place := Asleep;
        return;
      }
      if Restart in command {
        command := command - {Restart};
        DeleteViewCall();
        state := Init;
      }
      assert command == old(place.command) - {Restart};
      if binding {
        state := Done;
        place := Asleep;
        return;
      }
      if view == None || Cascade in command {
        state := Cascading;
        place := InCascade;
        return;
      }
      if Layout in command {
        state := Layouting;
        place := InLayout;
        return;
      }
      state := Done;
      place := Asleep;
    }

    /** The rest of the cascade branch; memory: whether allocating a view succeeds. */
    method FinishCascadeCall(memory: bool)
      requires place == InCascade
      modifies this
      ensures Abs() == Step(old(Abs()), FinishCascade(memory))
    {
      if view == None {
        if memory {
          view := Some(created);
          trace := trace + [Created(created)];
          created := created + 1;
        } else {
          trace := trace + [NoMemory];
        }
      }
      if view.Some? {
        trace := trace + [CascadeRun(view.value)];
        state := Cascaded;
      } else {
        state := Init;
      }
      place := Asleep;
    }

    /** The rest of the layout branch; the view it works on is there. */
    method FinishLayoutCall()
      requires place == InLayout && Invariant(Abs())
      modifies this
      ensures Abs() == Step(old(Abs()), FinishLayout)
    {
      hide Invariant;
      LayoutHasView(Abs());
      trace := trace + [LayoutRun(view.value)];
      state := Done;
      place := Asleep;
    }

    predicate IsIdle()
      reads this
    {
      state == Done && flags == {} && xfered
    }
  }

  lemma IdleIs(w: Worker)
    ensures w.IsIdle() <==> Idle(w.Abs())
  {
  }

  /** Any interleaving of calls on the object goes through the states of the abstract run. */
  method Perform(w: Worker, a: Action, ghost run: seq<Action>)
    requires After(run) == Some(w.Abs()) && Enabled(w.Abs(), a)
    modifies w
    ensures After(run + [a]) == Some(w.Abs()) && Invariant(w.Abs())
  {
    hide Invariant;
    EveryRun(run);
    StepKeepsInvariant(w.Abs(), a);
    assert (run + [a])[..|run|] == run;
    match a
    case WakeUp(bits) => w.WakeUpCall(bits);
    case RestartCall(bits) => w.RestartTask(bits);
    case GetView => var r := w.GetViewCall();
    case Sleep => var c := w.SleepCall();
    case Decide(d, b) => w.DecideCall(d, b);
    case FinishCascade(m) => w.FinishCascadeCall(m);
    case FinishLayout => w.FinishLayoutCall();
  }
}
