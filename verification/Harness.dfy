/**
 * The parallel test scheduler: a ring of running tests, filled by map and emptied by reduce,
 * while the children finish in any order.
 */
module Harness {
  import Sequences

  const ES_PASS := 0
  const ES_FATAL := 1
  const ES_FAIL := 2
  const ES_INVALID := 3
  const ES_NA := 4
  const ES_SKIP := 5
  const ES_UNCERTAIN := 6

  const STATUS_STRINGS: seq<string> := ["pass", "fatal", "fail", "invalid", "?", "skip", "uncertain"]

  /** How a child ended. Children of map exit with one of the codes above or are killed. */
  datatype WaitStatus = Exited(code: nat) | Killed

  predicate Legal(s: WaitStatus) { s.Exited? ==> s.code < |STATUS_STRINGS| }

  function CodeOf(s: WaitStatus): (c: nat)
    requires Legal(s)
    ensures c < |STATUS_STRINGS|
  {
    if s.Exited? then s.code else ES_FATAL
  }

  /** The code a child exits with, told from how its result begins. */
  function StatusOf(result: string): (c: nat)
    ensures c < |STATUS_STRINGS|
  {
    if "pass" <= result then ES_PASS
    else if "fatal" <= result then ES_FATAL
    else if "fail" <= result then ES_FAIL
    else if "invalid" <= result then ES_INVALID
    else if "skip" <= result then ES_SKIP
    else if "uncertain" <= result then ES_UNCERTAIN
    else ES_NA
  }

  /** The report's word for a child's code is the one its result begins with, and "?" if it begins with none. */
  lemma StatusNamesResult(result: string, c: nat)
    requires c < |STATUS_STRINGS| && c != ES_NA
    ensures StatusOf(result) == c <==> STATUS_STRINGS[c] <= result
    ensures CodeOf(Exited(StatusOf(result))) == StatusOf(result)
  {
    assert "pass" <= result ==> result[0] == 'p';
    assert "fatal" <= result ==> result[0] == 'f' && result[2] == 't';
    assert "fail" <= result ==> result[0] == 'f' && result[2] == 'i';
    assert "invalid" <= result ==> result[0] == 'i';
    assert "skip" <= result ==> result[0] == 's';
    assert "uncertain" <= result ==> result[0] == 'u';
  }

  /** How the children end, in the order they are forked: what the operating system has in store. */
  type Fates = nat -> WaitStatus

  ghost predicate LegalFates(fates: Fates) { forall i: nat :: Legal(fates(i)) }

  datatype ForkStatus = ForkStatus(pid: int, url: string, code: int)

  /** A launched test with the status its child will end with. */
  datatype Launch = Launch(url: string, pid: int, status: WaitStatus)

  datatype Entry = Result(url: string, status: string) | Note(text: string) | Heading(text: string)

  function EntryOf(l: Launch): Entry
    requires Legal(l.status)
  {
    Result(l.url, STATUS_STRINGS[CodeOf(l.status)])
  }

  ghost predicate AllLegal(w: seq<Launch>) { forall l :: l in w ==> Legal(l.status) }

  ghost function Entries(w: seq<Launch>): (es: seq<Entry>)
    requires AllLegal(w)
    ensures |es| == |w| && forall i :: 0 <= i < |w| ==> es[i] == EntryOf(w[i])
  {
    if w == [] then [] else Entries(w[..|w| - 1]) + [EntryOf(w[|w| - 1])]
  }

  /** The results the console shows: all but "?". */
  ghost function Shown(es: seq<Entry>): seq<Entry> {
    if es == [] then [] else
      Shown(es[..|es| - 1]) + if es[|es| - 1].Result? && es[|es| - 1].status != "?" then [es[|es| - 1]] else []
  }

  ghost function Uncertain(es: seq<Entry>): nat {
    if es == [] then 0 else
      Uncertain(es[..|es| - 1]) + if es[|es| - 1].Result? && es[|es| - 1].status == "uncertain" then 1 else 0
  }

  ghost function Body(es: seq<Entry>): seq<Entry> {
    if es == [] then [] else Body(es[..|es| - 1]) + if es[|es| - 1].Heading? then [] else [es[|es| - 1]]
  }

  lemma {:induction false} ShownConcat(a: seq<Entry>, b: seq<Entry>)
    ensures Shown(a + b) == Shown(a) + Shown(b)
  {
    if b == [] { assert a + b == a; } else {
      var n := |b| - 1;
      assert (a + b)[..|a + b| - 1] == a + b[..n];
      ShownConcat(a, b[..n]);
    }
  }

  lemma {:induction false} UncertainConcat(a: seq<Entry>, b: seq<Entry>)
    ensures Uncertain(a + b) == Uncertain(a) + Uncertain(b)
  {
    if b == [] { assert a + b == a; } else {
      var n := |b| - 1;
      assert (a + b)[..|a + b| - 1] == a + b[..n];
      UncertainConcat(a, b[..n]);
    }
  }

  lemma {:induction false} BodyConcat(a: seq<Entry>, b: seq<Entry>)
    ensures Body(a + b) == Body(a) + Body(b)
  {
    if b == [] { assert a + b == a; } else {
      var n := |b| - 1;
      assert (a + b)[..|a + b| - 1] == a + b[..n];
      BodyConcat(a, b[..n]);
    }
  }

  lemma {:induction false} EntriesConcat(a: seq<Launch>, b: seq<Launch>)
    requires AllLegal(a + b)
    ensures AllLegal(a) && AllLegal(b) && Entries(a + b) == Entries(a) + Entries(b)
  {
    assert forall l :: l in a ==> l in a + b;
    assert forall l :: l in b ==> l in a + b;
    assert Entries(a + b) == Entries(a) + Entries(b);
  }

  lemma {:induction false} EntriesAreBody(w: seq<Launch>)
    requires AllLegal(w)
    ensures Body(Entries(w)) == Entries(w)
  {
    if w != [] { EntriesAreBody(w[..|w| - 1]); }
  }

  lemma NextEntry(w: seq<Launch>, k: nat)
    requires AllLegal(w) && k < |w|
    ensures AllLegal(w[..k]) && AllLegal(w[..k + 1]) && Entries(w[..k + 1]) == Entries(w[..k]) + [EntryOf(w[k])]
  {
    assert w[..k + 1][..k] == w[..k];
  }

  lemma ShownOne(es: seq<Entry>, e: Entry)
    ensures Shown(es + [e]) == Shown(es) + if e.Result? && e.status != "?" then [e] else []
    ensures Uncertain(es + [e]) == Uncertain(es) + if e.Result? && e.status == "uncertain" then 1 else 0
    ensures Body(es + [e]) == Body(es) + if e.Heading? then [] else [e]
  {
    assert (es + [e])[..|es|] == es;
  }

  lemma EmptyEntries()
    ensures AllLegal([]) && Entries([]) == [] && Shown([]) == []
  {
  }

  lemma LegalRest(w: seq<Launch>, k: nat)
    requires AllLegal(w) && k <= |w|
    ensures AllLegal(w[k..]) && AllLegal(w[..k])
  {
  }

  ghost function Pids(w: seq<Launch>): set<int> {
    set i | 0 <= i < |w| :: w[i].pid
  }

  lemma {:induction false} FewPids(w: seq<Launch>)
    ensures |Pids(w)| <= |w|
  {
    if w != [] {
      var n := |w| - 1;
      FewPids(w[..n]);
      assert Pids(w) == Pids(w[..n]) + {w[n].pid};
    }
  }

  /** Some member, the operating system's choice. */
  method AnyOf<T>(s: set<T>) returns (x: T)
    requires s != {}
    ensures x in s
  {
    x :| x in s;
  }

  lemma Multiples(q: int, m: int)
    requires 0 < m
    ensures q <= 0 ==> q * m <= 0
    ensures 2 <= q ==> m + m <= q * m
  {
    if 2 <= q {
      assert q * m == (q - 2) * m + (m + m) && 0 <= (q - 2) * m;
    }
  }

  /** A number less than twice the divisor leaves what is over the divisor, if it is not less. */
  lemma ModOnce(a: nat, m: nat)
    requires a < m + m
    ensures a % m == if a < m then a else a - m
  {
    var q, r := a / m, a % m;
    assert a == q * m + r && 0 <= r < m;
    Multiples(q, m);
    assert q == 0 || q == 1;
  }

  /** The slot i places behind the oldest one. */
  function SlotAt(top: nat, max: nat, i: nat): int {
    if top + i < max then top + i else top + i - max
  }

  lemma NewPid(w: seq<Launch>, l: Launch)
    requires l.pid !in Pids(w)
    ensures Pids(w + [l]) == Pids(w) + {l.pid} && forall i :: 0 <= i < |w| ==> w[i].pid != l.pid
  {
    var v := w + [l];
    forall i | 0 <= i < |w| ensures w[i].pid != l.pid { assert w[i].pid in Pids(w); }
    forall p | p in Pids(w) + {l.pid} ensures p in Pids(v) {
      if p in Pids(w) {
        var j :| 0 <= j < |w| && w[j].pid == p;
        assert v[j].pid == p;
      } else {
        assert v[|w|].pid == p;
      }
    }
  }

  lemma SomeUnused(s: set<int>) returns (b: int)
    ensures b > 0 && forall x :: x in s ==> x < b
  {
    if s == {} {
      b := 1;
    } else {
      var x := Pick(s);
      var c := SomeUnused(s - {x});
      assert forall y :: y in s ==> y == x || y in s - {x};
      b := if x >= c then x + 1 else c;
    }
  }

  lemma Pick<T>(s: set<T>) returns (x: T)
    requires s != {}
    ensures x in s
  {
    x :| x in s;
  }

  method AnyUnused(s: set<int>) returns (x: int)
    ensures x > 0 && x !in s
  {
    ghost var b := SomeUnused(s);
    assert b > 0 && b !in s;
    x :| x > 0 && x !in s;
  }

  /** Children none of which is among the first count are all among the others. */
  lemma LiveLeft(live: map<int, WaitStatus>, w: seq<Launch>, count: nat)
    requires count <= |w| && live.Keys <= Pids(w) && forall i :: 0 <= i < count ==> w[i].pid !in live
    ensures live.Keys <= Pids(w[count..])
  {
    forall p | p in live ensures p in Pids(w[count..]) {
      assert p in Pids(w);
      var j :| 0 <= j < |w| && w[j].pid == p;
      assert w[count..][j - count] == w[j];
    }
  }

  /** Slot s holds the launch: running with code -1, or reaped with its own code. */
  ghost predicate Holds(s: ForkStatus, l: Launch, running: map<int, WaitStatus>) {
    && s.pid == l.pid && s.url == l.url && Legal(l.status)
    && (if l.pid in running then s.code == -1 && running[l.pid] == l.status else s.code == CodeOf(l.status))
  }

  /** From top on the slots hold the launches w, but that the first `cleared` are free again, as the rest are. */
  ghost predicate Filled(states: seq<ForkStatus>, top: nat, w: seq<Launch>, cleared: nat, running: map<int,
          WaitStatus>)
  {
    && top < |states| && cleared <= |w| <= |states|
    && (forall i :: 0 <= i < cleared ==> states[SlotAt(top, |states|, i)].code == -1)
    && (forall i :: cleared <= i < |w| ==> Holds(states[SlotAt(top, |states|, i)], w[i], running))
    && (forall i :: |w| <= i < |states| ==> states[SlotAt(top, |states|, i)].code == -1)
  }

  lemma FilledAt(states: seq<ForkStatus>, top: nat, w: seq<Launch>, cleared: nat, running: map<int, WaitStatus>, i: nat)
    requires Filled(states, top, w, cleared, running) && i < |states|
    ensures var s := SlotAt(top, |states|, i);
      && 0 <= s < |states|
      && if cleared <= i < |w| then Holds(states[s], w[i], running) else states[s].code == -1
  {
  }

  /** The child of slot i has been reaped. */
  lemma FilledCode(states: seq<ForkStatus>, top: nat, w: seq<Launch>, running: map<int, WaitStatus>, i: nat)
    requires i < |w| && w[i].pid in running && Filled(states, top, w, 0, running) && DistinctPids(w)
    ensures var s := SlotAt(top, |states|, i);
      Filled(states[s := states[s].(code := CodeOf(running[w[i].pid]))], top, w, 0, running - {w[i].pid})
  {
    hide CodeOf, Legal;
  }

  lemma FilledClear(states: seq<ForkStatus>, top: nat, w: seq<Launch>, cleared: nat, running: map<int, WaitStatus>)
    requires cleared < |w| && Filled(states, top, w, cleared, running)
    ensures var s := SlotAt(top, |states|, cleared);
      Filled(states[s := states[s].(code := -1)], top, w, cleared + 1, running)
  {
    hide Holds;
  }

  /** One launch more, in the slot behind the newest. */
  lemma FilledMore(states: seq<ForkStatus>, top: nat, w: seq<Launch>, running: map<int, WaitStatus>, l: Launch)
    requires |w| < |states| && Filled(states, top, w, 0, running) && l.pid !in Pids(w) && Legal(l.status)
    ensures var s := SlotAt(top, |states|, |w|);
      Filled(states[s := states[s].(url := l.url, pid := l.pid)], top, w + [l], 0, running[l.pid := l.status])
  {
    hide CodeOf, Legal, Pids;
    NewPid(w, l);
  }

  /** The ring moved past what is cleared. */
  lemma FilledPast(states: seq<ForkStatus>, top: nat, w: seq<Launch>, cleared: nat, running: map<int, WaitStatus>)
    requires Filled(states, top, w, cleared, running)
    ensures Filled(states, SlotAt(top, |states|, cleared), w[cleared..], 0, running)
  {
    hide Holds;
    var n, next := |states|, SlotAt(top, |states|, cleared);
    forall i | 0 <= i < n
      ensures SlotAt(next, n, i) == SlotAt(top, n, if cleared + i < n then cleared + i else cleared + i - n)
    {
    }
  }

  /** Launches with numbers of their own, among them the children still running. */
  ghost predicate Tracked(w: seq<Launch>, running: map<int, WaitStatus>) {
    DistinctPids(w) && (forall i :: 0 <= i < |w| ==> w[i].pid > 0) && running.Keys <= Pids(w)
  }

  lemma TrackedMore(w: seq<Launch>, running: map<int, WaitStatus>, l: Launch)
    requires Tracked(w, running) && l.pid > 0 && l.pid !in Pids(w) && (w != [] ==> w[0].pid in running)
    ensures Tracked(w + [l], running[l.pid := l.status]) && (w + [l])[0].pid in running[l.pid := l.status]
  {
    NewPid(w, l);
    hide Pids;
  }

  /** The first `count` are not running any more. */
  lemma TrackedRest(w: seq<Launch>, running: map<int, WaitStatus>, count: nat)
    requires Tracked(w, running) && count <= |w| && forall i :: 0 <= i < count ==> w[i].pid !in running
    ensures Tracked(w[count..], running)
  {
    LiveLeft(running, w, count);
    hide Pids;
  }

  ghost predicate DistinctPids(w: seq<Launch>) { forall i, j :: 0 <= i < j < |w| ==> w[i].pid != w[j].pid }

  class Scheduler {
    const forkMax: nat
    var forkTop: nat
    var forkCount: nat
    const forkStates: array<ForkStatus>
    var uncertainCount: nat
    var report: seq<Entry>
    var console: seq<Entry>

    /** The operating system's view: how children end, how many were forked, which are still to be waited for. */
    const fates: Fates
    var launched: nat
    var live: map<int, WaitStatus>

    /** The launched tests that are not reported yet, oldest first. */
    ghost var window: seq<Launch>

    lemma SlotIsMod(i: nat)
      requires forkTop < forkMax && i <= forkMax
      ensures (forkTop + i) % forkMax == SlotAt(forkTop, forkMax, i) && SlotAt(forkTop, forkMax, i) < forkMax
    {
      ModOnce(forkTop + i, forkMax);
    }

    /** The ring against its launches, when the children in `running` have not been reaped. */
    ghost predicate Ring(running: map<int, WaitStatus>)
      reads this`forkTop, this`forkCount, this`window, forkStates
    {
      && forkMax == forkStates.Length && |window| == forkCount
      && Filled(forkStates[..], forkTop, window, 0, running) && Tracked(window, running)
    }

    /** Between calls the oldest test, if any, is still running. */
    ghost predicate Valid()
      reads this, forkStates
    {
      && Ring(live) && AllLegal(window) && (forkCount > 0 ==> window[0].pid in live)
      && uncertainCount == Uncertain(report) && LegalFates(fates)
    }

    constructor (jobs: nat, fates: Fates)
      requires LegalFates(fates)
      ensures Valid() && fresh(forkStates) && forkMax == (if jobs == 0 then 1 else jobs)
      ensures this.fates == fates && launched == 0 && window == [] && report == [] && console == []
    {
      this.fates, launched := fates, 0;
      forkMax := if jobs == 0 then 1 else jobs;
      forkStates := new ForkStatus[if jobs == 0 then 1 else jobs](_ => ForkStatus(-1, "", -1));
      forkTop, forkCount, uncertainCount := 0, 0, 0;
      report, console, live, window := [], [], map[], [];
    }

    /** waitpid(-1, &status, op): some child that ended, -1 without children, or 0 when it may not block. */
    method WaitPid(nohang: bool) returns (pid: int, status: WaitStatus)
      requires forall p :: p in live ==> p > 0
      modifies this`live
      ensures pid == -1 ==> old(live).Keys == {} && live == old(live)
      ensures pid == 0 ==> nohang && live == old(live)
      ensures pid != -1 && pid != 0 ==> pid in old(live) && status == old(live)[pid] && live == old(live) - {pid}
    {
      status := Killed;
      if live.Keys == {} {
        return -1, status;
      }
      if nohang {
        var none: bool := *;
        if none {
          return 0, status;
        }
      }
      var children := live.Keys;
      pid := AnyOf(children);
      status := live[pid];
      live := live - {pid};
    }

    lemma RingSlot(running: map<int, WaitStatus>, i: nat)
      requires Ring(running) && i < forkCount
      ensures forkTop < forkMax && i < |window| && 0 <= SlotAt(forkTop, forkMax, i) < forkMax == forkStates.Length
      ensures (forkTop + i) % forkMax == SlotAt(forkTop, forkMax, i)
      ensures forkStates[SlotAt(forkTop, forkMax, i)].pid == window[i].pid && window[i].pid > 0
    {
      FilledAt(forkStates[..], forkTop, window, 0, running, i);
      SlotIsMod(i);
    }

    method SetCode(i: nat, status: WaitStatus)
      requires i < forkCount == |window| && window[i].pid !in live && Ring(live[window[i].pid := status])
      modifies forkStates
      ensures Ring(live)
    {
      ghost var pid, states := window[i].pid, forkStates[..];
      FilledCode(states, forkTop, window, live[pid := status], i);
      assert live[pid := status] - {pid} == live;
      RingSlot(live[pid := status], i);
      hide Filled;
      var s := (forkTop + i) % forkMax;
      forkStates[s] := forkStates[s].(code := if status.Exited? then status.code else ES_FATAL);
      assert forkStates[..] == states[s := states[s].(code := CodeOf(status))];
    }

    lemma ChildInRing(pid: int, status: WaitStatus)
      requires Ring(live[pid := status])
      ensures exists j :: 0 <= j < forkCount == |window| && window[j].pid == pid
    {
      assert pid in live[pid := status];
    }

    /** Files the status under the reaped child's slot; head tells whether that was the oldest. */
    method File(pid: int, status: WaitStatus) returns (head: bool)
      requires pid == -1 ==> Ring(live)
      requires pid != -1 ==> pid !in live && Ring(live[pid := status])
      modifies forkStates
      ensures Ring(live)
      ensures head <==> forkCount > 0 && forkCount == |window| && window[0].pid == pid
    {
      ghost var running := if pid == -1 then live else live[pid := status];
      assert forkCount == |window| && 0 < forkMax;
      assert forkCount > 0 && window[0].pid == pid ==> pid > 0;
      hide Ring;
      head := false;
      var i := 0;
      while i < forkCount
        invariant i <= forkCount && !head && Ring(running)
        invariant forall j :: 0 <= j < i ==> window[j].pid != pid
      {
        RingSlot(running, i);
        var s := (forkTop + i) % forkMax;
        if forkStates[s].pid == pid {
          SetCode(i, status);
          if i == 0 {
            head := true;
          }
          return;
        }
        i := i + 1;
      }
      if pid != -1 { ChildInRing(pid, status); }
    }

    lemma OneFewer(m: map<int, WaitStatus>, pid: int)
      requires pid in m
      ensures (m - {pid})[pid := m[pid]] == m && |(m - {pid}).Keys| < |m.Keys|
    {
      assert (m - {pid}).Keys == m.Keys - {pid};
    }

    lemma FewLive()
      requires Ring(live)
      ensures 0 < forkMax && |live.Keys| <= forkCount == |window| && forall p :: p in live ==> p > 0
    {
      FewPids(window);
      Sequences.SubsetSize(live.Keys, Pids(window));
    }

    /** Waits for one child and files its status; none when no child has ended and the call may not block. */
    method WaitOne(nohang: bool) returns (none: bool, head: bool)
      requires Ring(live) && forall p :: p in live ==> p > 0
      modifies this`live, forkStates
      ensures Ring(live) && live.Keys <= old(live.Keys)
      ensures none ==> nohang && live == old(live)
      ensures !none ==> |live.Keys| < |old(live).Keys| || live.Keys == {}
      ensures !none && head ==> forkCount > 0 && forkCount == |window| && window[0].pid !in live
    {
      hide *;
      head := false;
      ghost var before := live;
      var pid, status := WaitPid(nohang);
      none := pid == 0;
      if none {
        return;
      }
      if pid != -1 { OneFewer(before, pid); }
      head := File(pid, status);
    }

    /** The first loop of reduce: wait for as many children as there are tests outstanding. */
    method Reap(nohang: bool) returns (count: nat)
      requires Ring(live)
      modifies this`live, forkStates
      ensures Ring(live) && live.Keys <= old(live.Keys)
      ensures count == 0 ==> live == old(live)
      ensures forkCount == forkMax ==> count > 0 && window[0].pid !in live
      ensures !nohang ==> live.Keys == {} && (forkCount > 0 ==> count > 0)
    {
      hide *;
      FewLive();
      var op := if forkCount < forkMax then nohang else false;
      count := 0;
      while count < forkCount
        invariant 0 <= count <= forkCount && Ring(live) && live.Keys <= old(live.Keys)
        invariant |live.Keys| <= forkCount - count && (forall p :: p in live ==> p > 0)
        invariant op ==> nohang
        invariant forkCount == forkMax && op ==> window[0].pid !in live
        invariant count == 0 ==> live == old(live) && (forkCount == forkMax ==> !op)
      {
        var none, head := WaitOne(op);
        if none {
          break;
        }
        if head {
          op := nohang;
        }
        count := count + 1;
      }
      if live.Keys == {} && forkCount > 0 {
        assert window[0].pid !in live;
      }
    }

    /** How many of the oldest tests are finished. */
    ghost function Done(): (k: nat)
      requires Ring(live)
      reads this, forkStates
      ensures k <= forkCount
      ensures forall i :: 0 <= i < k ==> window[i].pid !in live
      ensures k < forkCount ==> window[k].pid in live
    {
      DoneFrom(0)
    }

    ghost function DoneFrom(i: nat): (k: nat)
      requires Ring(live) && i <= forkCount
      reads this, forkStates
      ensures i <= k <= forkCount
      ensures forall j :: i <= j < k ==> window[j].pid !in live
      ensures k < forkCount ==> window[k].pid in live
      decreases forkCount - i
    {
      if i == forkCount || window[i].pid in live then i else DoneFrom(i + 1)
    }

    /** The ring with its oldest `count` entries cleared. */
    ghost predicate Cleared(count: nat)
      reads this`forkTop, this`forkCount, this`window, this`live, forkStates
    {
      forkMax == forkStates.Length && |window| == forkCount && Filled(forkStates[..], forkTop, window, count, live)
    }

    /** The first `count` launches are reported, after base on the report and shown on the console. */
    ghost predicate Reported(count: nat, base: seq<Entry>, shown: seq<Entry>)
      reads this`window, this`report, this`console, this`uncertainCount
    {
      && count <= |window| && AllLegal(window)
      && AllLegal(window[..count])
      && report == base + Entries(window[..count])
      && console == shown + Shown(Entries(window[..count]))
      && uncertainCount == Uncertain(report)
    }

    lemma Front(count: nat)
      requires Cleared(count) && count < forkMax
      ensures SlotAt(forkTop, forkMax, count) < forkMax
      ensures (forkTop + count) % forkMax == SlotAt(forkTop, forkMax, count)
      ensures count == forkCount ==> forkStates[SlotAt(forkTop, forkMax, count)].code == -1
      ensures count < forkCount ==> Holds(forkStates[SlotAt(forkTop, forkMax, count)], window[count], live)
      ensures count < forkCount ==>
        (forkStates[SlotAt(forkTop, forkMax, count)].code == -1 <==> window[count].pid in live)
    {
      FilledAt(forkStates[..], forkTop, window, count, live, count);
      SlotIsMod(count);
    }

    method ClearSlot(count: nat)
      requires Cleared(count) && count < forkCount
      modifies forkStates
      ensures Cleared(count + 1)
    {
      Front(count);
      ghost var states := forkStates[..];
      FilledClear(states, forkTop, window, count, live);
      hide Filled;
      var s := (forkTop + count) % forkMax;
      forkStates[s] := forkStates[s].(code := -1);
      assert forkStates[..] == states[s := states[s].(code := -1)];
    }

    /** The second loop of reduce: report the oldest tests up to the first one still running. */
    method Drain() returns (count: nat)
      requires Ring(live) && AllLegal(window) && uncertainCount == Uncertain(report)
      modifies this`report, this`console, this`uncertainCount, forkStates
      ensures Cleared(count) && count == old(Done())
      ensures Reported(count, old(report), old(console))
    {
      hide *;
      StartReport();
      RingCleared();
      count := 0;
      ghost var goal := Done();
      while count < forkMax
        invariant Cleared(count) && count <= forkCount == |window| <= forkMax == forkStates.Length
        invariant forall i :: 0 <= i < count ==> window[i].pid !in live
        invariant Reported(count, old(report), old(console))
      {
        Front(count);
        var s := forkStates[(forkTop + count) % forkMax];
        if s.code == -1 {
          break;
        }
        ReportOne(s, count, old(report), old(console));
        ClearSlot(count);
        count := count + 1;
      }
    }

    lemma RingCleared()
      requires Ring(live)
      ensures Cleared(0) && forkCount == |window| <= forkMax == forkStates.Length
    {
    }

    lemma StartReport()
      requires AllLegal(window) && uncertainCount == Uncertain(report)
      ensures Reported(0, report, console)
    {
      assert window[..0] == [];
    }

    method ReportOne(s: ForkStatus, ghost count: nat, ghost base: seq<Entry>, ghost shown: seq<Entry>)
      requires Reported(count, base, shown) && count < |window| && Holds(s, window[count], live) && s.code != -1
      modifies this`report, this`console, this`uncertainCount
      ensures Reported(count + 1, base, shown)
    {
      hide Shown, Uncertain, Entries, AllLegal, Body;
      ghost var e := EntryOf(window[count]);
      ghost var es := Entries(window[..count]);
      NextEntry(window, count);
      ShownOne(es, e);
      ShownOne(report, e);
      ghost var before, seen := report, console;
      if s.code == ES_UNCERTAIN {
        uncertainCount := uncertainCount + 1;
      }
      if s.code != ES_NA {
        console := console + [Result(s.url, STATUS_STRINGS[s.code])];
      }
      report := report + [Result(s.url, STATUS_STRINGS[s.code])];
      assert report == before + [e] == base + (es + [e]);
      assert console == seen + if e.status != "?" then [e] else [];
    }

    /** Moves the ring past its cleared entries. */
    method Advance(count: nat)
      requires Cleared(count) && Tracked(window, live) && forall i :: 0 <= i < count ==> window[i].pid !in live
      modifies this`forkTop, this`forkCount, this`window
      ensures Ring(live) && window == old(window)[count..]
    {
      hide *;
      Advancing(count);
      forkTop := forkTop + count;
      forkTop := forkTop % forkMax;
      forkCount := forkCount - count;
      window := window[count..];
      RingOf();
    }

    lemma Advancing(count: nat)
      requires Cleared(count) && Tracked(window, live) && forall i :: 0 <= i < count ==> window[i].pid !in live
      ensures 0 < forkMax == forkStates.Length && count <= forkCount == |window|
      ensures (forkTop + count) % forkMax == SlotAt(forkTop, forkMax, count) >= 0
      ensures Filled(forkStates[..], SlotAt(forkTop, forkMax, count), window[count..], 0, live)
      ensures Tracked(window[count..], live)
    {
      assert forkTop < forkMax && count <= forkCount <= forkMax;
      hide Filled, Tracked;
      TrackedRest(window, live, count);
      FilledPast(forkStates[..], forkTop, window, count, live);
      SlotIsMod(count);
    }

    lemma RingOf()
      requires forkMax == forkStates.Length && |window| == forkCount
      requires Filled(forkStates[..], forkTop, window, 0, live) && Tracked(window, live)
      ensures Ring(live)
    {
    }

    /**
     * Collects what has ended and reports the oldest tests, in launch order, each with its own
     * status, up to the first one still running. A full ring frees at least its oldest entry;
     * a blocking call empties the ring.
     */
    method Reduce(nohang: bool) returns (count: nat)
      requires Valid()
      modifies this`live, this`report, this`console, this`uncertainCount
      modifies this`forkTop, this`forkCount, this`window, forkStates
      ensures Valid() && count <= |old(window)| && window == old(window)[count..]
      ensures AllLegal(old(window)[..count]) && report == old(report) + Entries(old(window)[..count])
      ensures console == old(console) + Shown(Entries(old(window)[..count]))
      ensures old(forkCount) == forkMax ==> count > 0 && forkCount < forkMax
      ensures !nohang ==> window == []
    {
      hide AllLegal, Entries, Shown, Uncertain, Ring, Cleared, Pids;
      StartReport();
      ghost var all := window;
      assert window[0..] == window && window[..0] == [];
      RingFacts();
      count := Reap(nohang);
      if 0 < count {
        RingFacts();
        count := Drain();
        assert count <= forkCount;
        Advance(count);
        RingFacts();
        LegalRest(all, count);
      } else {
        EmptyEntries();
      }
    }

    lemma RingFacts()
      requires Ring(live)
      ensures forkCount == |window| <= forkMax && 0 < forkMax && Tracked(window, live)
    {
    }

    /** fork: -1, or a process number that is not in use; the new child will end as the next fate says. */
    method Fork() returns (pid: int)
      requires Ring(live)
      modifies this`live, this`launched
      ensures pid == -1 ==> live == old(live) && launched == old(launched)
      ensures pid != -1 ==> pid > 0 && pid !in Pids(window) && pid !in old(live)
      ensures pid != -1 ==> live == old(live)[pid := fates(old(launched))] && launched == old(launched) + 1
    {
      var used: set<int> := {};
      var i := 0;
      while i < forkCount
        invariant i <= forkCount && live == old(live) && launched == old(launched)
        invariant forall j :: 0 <= j < i ==> window[j].pid in used
      {
        RingSlot(live, i);
        used := used + {forkStates[(forkTop + i) % forkMax].pid};
        i := i + 1;
      }
      var fails: bool := *;
      if fails {
        return -1;
      }
      pid := AnyUnused(used);
      live := live[pid := fates(launched)];
      launched := launched + 1;
    }

    /** The parent's half of map, once the child exists: enter it behind the others. */
    method Enter(url: string, pid: int, ghost before: map<int, WaitStatus>)
      requires Ring(before) && AllLegal(window) && (forkCount > 0 ==> window[0].pid in before) && forkCount < forkMax
      requires uncertainCount == Uncertain(report) && LegalFates(fates)
      requires pid > 0 && pid !in Pids(window) && pid !in before
      requires launched > 0 && live == before[pid := fates(launched - 1)]
      modifies this`forkCount, this`window, forkStates
      ensures Valid() && window == old(window) + [Launch(url, pid, fates(launched - 1))]
    {
      hide *;
      ghost var l := Launch(url, pid, fates(launched - 1));
      assert Legal(l.status) by { LegalFate(launched - 1); }
      Entering(l, before);
      Occupy(url, pid);
      forkCount := forkCount + 1;
      window := window + [l];
      Entered(l);
    }

    /** The slots with a child's data behind the newest test. */
    ghost function WithChild(url: string, pid: int): seq<ForkStatus>
      requires forkTop < forkMax == forkStates.Length && forkCount < forkMax
      reads this`forkTop, this`forkCount, forkStates
    {
      var s := SlotAt(forkTop, forkMax, forkCount);
      forkStates[..][s := forkStates[s].(url := url, pid := pid)]
    }

    /** The slot behind the newest test gets the child's data. */
    method Occupy(url: string, pid: int)
      requires forkTop < forkMax == forkStates.Length && forkCount < forkMax
      modifies forkStates
      ensures forkStates[..] == old(WithChild(url, pid))
    {
      SlotIsMod(forkCount);
      var s := (forkTop + forkCount) % forkMax;
      forkStates[s] := forkStates[s].(url := url, pid := pid);
    }

    /** What the ring is to be, said of its parts before the child is entered. */
    lemma Entering(l: Launch, before: map<int, WaitStatus>)
      requires Ring(before) && AllLegal(window) && (forkCount > 0 ==> window[0].pid in before) && forkCount < forkMax
      requires l.pid > 0 && l.pid !in Pids(window) && Legal(l.status)
      ensures forkTop < forkMax == forkStates.Length && |window| == forkCount
      ensures Filled(WithChild(l.url, l.pid), forkTop, window + [l], 0, before[l.pid := l.status])
      ensures Tracked(window + [l], before[l.pid := l.status]) && AllLegal(window + [l])
      ensures (window + [l])[0].pid in before[l.pid := l.status]
    {
      assert forkTop < forkMax == forkStates.Length && |window| == forkCount;
      hide Filled, Pids, Legal;
      TrackedMore(window, before, l);
      FilledMore(forkStates[..], forkTop, window, before, l);
    }

    lemma LegalFate(n: nat)
      requires LegalFates(fates)
      ensures Legal(fates(n))
    {
    }

    lemma Entered(l: Launch)
      requires forkTop < forkMax == forkStates.Length && |window| == forkCount > 0 && LegalFates(fates)
      requires Filled(forkStates[..], forkTop, window, 0, live) && Tracked(window, live) && AllLegal(window)
      requires window[0].pid in live && uncertainCount == Uncertain(report)
      ensures Valid()
    {
      hide Filled, Tracked, AllLegal, Uncertain, LegalFates;
    }

    /**
     * Launches a test, whose child ends as the next fate says, and collects what has ended meanwhile. When fork fails
     * the program ends.
     */
    method Map(url: string) returns (forked: bool, ghost l: Launch, ghost k: nat)
      requires Valid() && forkCount < forkMax
      modifies this`live, this`launched, this`report, this`console, this`uncertainCount
      modifies this`forkTop, this`forkCount, this`window, forkStates
      ensures Valid() && forkCount < forkMax && launched == old(launched) + if forked then 1 else 0
      ensures forked ==> var all := old(window) + [l];
        && l.url == url && l.status == fates(old(launched)) && k <= |all| && window == all[k..] && AllLegal(all)
        && AllLegal(all[..k]) && report == old(report) + Entries(all[..k])
        && console == old(console) + Shown(Entries(all[..k]))
      ensures !forked ==> report == old(report) && console == old(console) && window == old(window)
    {
      hide Ring, Entries, Shown, Uncertain, Legal, Pids;
      k := 0;
      assert forkCount < forkMax;
      ghost var before := live;
      var pid := Fork();
      l := Launch(url, pid, fates(old(launched)));
      forked := pid != -1;
      if !forked {
        return;
      }
      Enter(url, pid, before);
      assert window == old(window) + [l];
      RingFacts();
      k := Reduce(true);
      RingFacts();
    }
  }

  // The main loop over the lines of the report file.

  datatype Line = Test(url: string) | Comment(text: string) | Header

  datatype Mode = Headless | Update | Generate

  const HEADER := "testname    result  comment"

  ghost function Tests(lines: seq<Line>): nat {
    if lines == [] then 0 else Tests(lines[..|lines| - 1]) + if lines[|lines| - 1].Test? then 1 else 0
  }

  /** What one more line calls for. */
  ghost function CalledFor(l: Line, fates: Fates, k: nat): seq<Entry>
    requires LegalFates(fates)
  {
    match l
    case Header => []
    case Comment(t) => [Note(t)]
    case Test(u) => [Result(u, STATUS_STRINGS[CodeOf(fates(k))])]
  }

  /** What the report has to say about these lines when the children end as fates says. */
  ghost function Script(lines: seq<Line>, fates: Fates): seq<Entry>
    requires LegalFates(fates)
  {
    if lines == [] then [] else
      var n := |lines| - 1;
      Script(lines[..n], fates) + CalledFor(lines[n], fates, Tests(lines[..n]))
  }

  // What the report says, told of its entries.

  ghost function Results(es: seq<Entry>): (rs: seq<Entry>)
    ensures |rs| <= |es| && forall e :: e in rs <==> e in es && e.Result?
  {
    if es == [] then [] else
      var n := |es| - 1;
      assert es == es[..n] + [es[n]];
      Results(es[..n]) + if es[n].Result? then [es[n]] else []
  }

  lemma {:induction false} ResultsConcat(a: seq<Entry>, b: seq<Entry>)
    ensures Results(a + b) == Results(a) + Results(b)
  {
    if b == [] { assert a + b == a; } else {
      var n := |b| - 1;
      assert (a + b)[..|a + b| - 1] == a + b[..n];
      ResultsConcat(a, b[..n]);
    }
  }

  lemma ResultsOne(es: seq<Entry>, e: Entry)
    ensures Results(es + [e]) == Results(es) + if e.Result? then [e] else []
  {
    assert (es + [e])[..|es|] == es;
  }

  lemma {:induction false} ResultsOfBody(es: seq<Entry>)
    ensures Results(Body(es)) == Results(es)
  {
    if es != [] {
      var n := |es| - 1;
      ResultsOfBody(es[..n]);
      ResultsConcat(Body(es[..n]), if es[n].Heading? then [] else [es[n]]);
      ResultsOne([], es[n]);
    }
  }

  lemma {:induction false} ResultsOfEntries(w: seq<Launch>)
    requires AllLegal(w)
    ensures Results(Entries(w)) == Entries(w)
  {
    if w != [] {
      var n := |w| - 1;
      LegalRest(w, n);
      ResultsOfEntries(w[..n]);
      ResultsOne(Entries(w[..n]), EntryOf(w[n]));
    }
  }

  /** The word that the report has for how a child ended. */
  ghost predicate Worded(e: Entry, status: WaitStatus) {
    e.Result? &&
    match status
    case Killed => e.status == "fatal"
    case Exited(c) =>
      && (c == 0 ==> e.status == "pass") && (c == 1 ==> e.status == "fatal") && (c == 2 ==> e.status == "fail")
      && (c == 3 ==> e.status == "invalid") && (c == 4 ==> e.status == "?") && (c == 5 ==> e.status == "skip")
      && (c == 6 ==> e.status == "uncertain")
  }

  /** The results are those of the first tests, in order: each has its test's name and the word for its child's end. */
  ghost predicate TestsTold(report: seq<Entry>, lines: seq<Line>, fates: Fates) {
    && |Results(report)| <= Tests(lines)
    && forall i :: 0 <= i < |lines| && lines[i].Test? && Tests(lines[..i]) < |Results(report)| ==>
         var e := Results(report)[Tests(lines[..i])];
         e.Result? && e.url == lines[i].url && Worded(e, fates(Tests(lines[..i])))
  }

  lemma {:induction false} ScriptTold(lines: seq<Line>, fates: Fates)
    requires LegalFates(fates)
    ensures |Results(Script(lines, fates))| == Tests(lines) && TestsTold(Script(lines, fates), lines, fates)
  {
    if lines != [] {
      hide *;
      var n := |lines| - 1;
      ScriptTold(lines[..n], fates);
      assert lines == lines[..n] + [lines[n]];
      ScriptLine(lines[..n], fates, lines[n]);
      ResultsConcat(Script(lines[..n], fates), CalledFor(lines[n], fates, Tests(lines[..n])));
      LineWorded(lines[n], fates, Tests(lines[..n]));
      LineTold(Script(lines[..n], fates), lines[..n], fates, lines[n]);
    } else {
      NothingTold(fates);
    }
  }

  lemma NothingTold(fates: Fates)
    requires LegalFates(fates)
    ensures |Results(Script([], fates))| == Tests([]) && TestsTold(Script([], fates), [], fates)
  {
  }

  lemma LineTold(es: seq<Entry>, lines: seq<Line>, fates: Fates, l: Line)
    requires LegalFates(fates) && TestsTold(es, lines, fates) && |Results(es)| == Tests(lines)
    requires var more := CalledFor(l, fates, Tests(lines));
      && Results(es + more) == Results(es) + Results(more) && Tests(lines + [l]) == Tests(lines) + |Results(more)|
      && (l.Test? ==> |Results(more)| == 1 && Worded(Results(more)[0], fates(Tests(lines)))
                      && Results(more)[0].url == l.url)
    ensures TestsTold(es + CalledFor(l, fates, Tests(lines)), lines + [l], fates)
  {
    hide Results, CalledFor, Worded, Tests;
    var all, now := lines + [l], es + CalledFor(l, fates, Tests(lines));
    forall i | 0 <= i < |all| && all[i].Test? && Tests(all[..i]) < |Results(now)|
      ensures var e := Results(now)[Tests(all[..i])];
        e.Result? && e.url == all[i].url && Worded(e, fates(Tests(all[..i])))
    {
      if i < |lines| {
        TestsBefore(lines, i);
        assert all[..i] == lines[..i] && all[i] == lines[i];
      } else {
        assert all[..i] == lines;
      }
    }
  }

  lemma {:induction false} TestsBefore(lines: seq<Line>, i: nat)
    requires i < |lines|
    ensures Tests(lines[..i]) + (if lines[i].Test? then 1 else 0) <= Tests(lines)
  {
    var n := |lines| - 1;
    if i < n {
      TestsBefore(lines[..n], i);
      assert lines[..n][..i] == lines[..i];
    }
  }

  lemma LineWorded(l: Line, fates: Fates, k: nat)
    requires LegalFates(fates)
    ensures var rs := Results(CalledFor(l, fates, k));
      && |rs| == (if l.Test? then 1 else 0)
      && (l.Test? ==> rs[0].Result? && rs[0].url == l.url && Worded(rs[0], fates(k)))
  {
    if l.Test? { TestWorded(l, fates, k); }
    assert CalledFor(l, fates, k)[..0] == [];
  }

  lemma TestWorded(l: Line, fates: Fates, k: nat)
    requires LegalFates(fates) && l.Test?
    ensures |CalledFor(l, fates, k)| == 1 && CalledFor(l, fates, k)[0].Result?
    ensures CalledFor(l, fates, k)[0].url == l.url && Worded(CalledFor(l, fates, k)[0], fates(k))
  {
  }

  /** What has been reported so far is told as well. */
  lemma ReportTold(report: seq<Entry>, w: seq<Launch>, lines: seq<Line>, fates: Fates)
    requires LegalFates(fates) && AllLegal(w) && Body(report) + Entries(w) == Script(lines, fates)
    ensures TestsTold(report, lines, fates) && |Results(report)| + |w| == Tests(lines)
  {
    hide Results, Body, Script, Tests, Entries, Worded, AllLegal;
    ScriptTold(lines, fates);
    ResultsConcat(Body(report), Entries(w));
    ResultsOfBody(report);
    ResultsOfEntries(w);
  }

  // Where the comments and the header line stand.

  /** The line stands at place p: as it is, behind the earlier lines that are no tests, before any later test. */
  ghost predicate StandsAt(report: seq<Entry>, p: nat, lines: seq<Line>, i: nat)
    requires i < |lines|
  {
    && p < |report| && !lines[i].Test?
    && report[p] == (if lines[i].Comment? then Note(lines[i].text) else Heading("testname    result  comment"))
    && p - |Results(report[..p])| == i - Tests(lines[..i]) && |Results(report[..p])| <= Tests(lines[..i])
    && (lines[i].Comment? ==> |Results(report[..p])| == Tests(lines[..i]))
  }

  /** Every line that is no test stands in the report; and there is nothing else but results. */
  ghost predicate AsidesPlaced(report: seq<Entry>, lines: seq<Line>) {
    && |report| - |Results(report)| == |lines| - Tests(lines)
    && forall i :: 0 <= i < |lines| && !lines[i].Test? ==> exists p :: StandsAt(report, p, lines, i)
  }

  lemma StillStands(report: seq<Entry>, more: seq<Entry>, p: nat, lines: seq<Line>, after: seq<Line>, i: nat)
    requires i < |lines| && StandsAt(report, p, lines, i)
    ensures StandsAt(report + more, p, lines + after, i)
  {
    hide Results, Tests;
    assert (report + more)[..p] == report[..p] && (lines + after)[..i] == lines[..i];
  }

  lemma PlacedResults(report: seq<Entry>, more: seq<Entry>, lines: seq<Line>)
    requires AsidesPlaced(report, lines) && Results(more) == more
    ensures AsidesPlaced(report + more, lines)
  {
    hide Results, Tests, StandsAt;
    ResultsConcat(report, more);
    assert lines + [] == lines;
    forall i | 0 <= i < |lines| && !lines[i].Test? ensures exists p :: StandsAt(report + more, p, lines, i) {
      var p :| StandsAt(report, p, lines, i);
      StillStands(report, more, p, lines, [], i);
    }
  }

  lemma PlacedEntries(report: seq<Entry>, w: seq<Launch>, k: nat, lines: seq<Line>)
    requires AsidesPlaced(report, lines) && AllLegal(w) && k <= |w|
    ensures AllLegal(w[..k]) && AsidesPlaced(report + Entries(w[..k]), lines)
  {
    hide AsidesPlaced, Entries, Results;
    LegalRest(w, k);
    ResultsOfEntries(w[..k]);
    PlacedResults(report, Entries(w[..k]), lines);
  }

  lemma PlacedTest(report: seq<Entry>, lines: seq<Line>, l: Line)
    requires AsidesPlaced(report, lines) && l.Test?
    ensures AsidesPlaced(report, lines + [l])
  {
    TestsOne(lines, l);
    hide Results, Tests, StandsAt;
    assert report + [] == report;
    forall i | 0 <= i < |lines + [l]| && !(lines + [l])[i].Test?
      ensures exists p :: StandsAt(report, p, lines + [l], i)
    {
      var p :| StandsAt(report, p, lines, i);
      StillStands(report, [], p, lines, [l], i);
    }
  }

  lemma TestsOne(lines: seq<Line>, l: Line)
    ensures Tests(lines + [l]) == Tests(lines) + if l.Test? then 1 else 0
  {
    assert (lines + [l])[..|lines|] == lines;
  }

  lemma PlacedOther(report: seq<Entry>, lines: seq<Line>, l: Line)
    requires AsidesPlaced(report, lines) && !l.Test? && |Results(report)| <= Tests(lines)
    requires l.Comment? ==> |Results(report)| == Tests(lines)
    ensures AsidesPlaced(report + [EntryFor(l)], lines + [l])
  {
    var all, now := lines + [l], report + [EntryFor(l)];
    TestsOne(lines, l);
    ResultsOne(report, EntryFor(l));
    hide Results, Tests;
    assert all[..|lines|] == lines && now[..|report|] == report;
    forall i | 0 <= i < |all| && !all[i].Test? ensures exists p :: StandsAt(now, p, all, i) {
      if i < |lines| {
        var p :| StandsAt(report, p, lines, i);
        StillStands(report, [EntryFor(l)], p, lines, [l], i);
      } else {
        assert StandsAt(now, |report|, all, i);
      }
    }
  }

  // What the console shows, and the count of uncertain results.

  lemma {:induction false} ShownMeans(es: seq<Entry>)
    ensures forall e :: e in Shown(es) <==> e in es && e.Result? && e.status != "?"
    ensures Uncertain(es) > 0 <==> exists e :: e in es && e.Result? && e.status == "uncertain"
  {
    if es != [] {
      var n := |es| - 1;
      assert es == es[..n] + [es[n]];
      ShownMeans(es[..n]);
      ShownOne(es[..n], es[n]);
      assert forall e :: e in es <==> e in es[..n] || e == es[n];
    }
  }

  /** The run so far: reported and outstanding entries together are what the lines call for, in order. */
  ghost predicate OnScript(s: Scheduler, lines: seq<Line>)
    reads s, s.forkStates
  {
    && s.Valid() && s.launched == Tests(lines)
    && Body(s.report) + Entries(s.window) == Script(lines, s.fates)
    && s.console == Shown(s.report) && AsidesPlaced(s.report, lines)
  }

  lemma SettleBody(report: seq<Entry>, all: seq<Launch>, k: nat)
    requires k <= |all| && AllLegal(all)
    ensures AllLegal(all[..k]) && AllLegal(all[k..])
    ensures Body(report + Entries(all[..k])) + Entries(all[k..]) == Body(report) + Entries(all)
    ensures Shown(report + Entries(all[..k])) == Shown(report) + Shown(Entries(all[..k]))
  {
    hide Entries, Body, Shown, AllLegal;
    LegalRest(all, k);
    assert all == all[..k] + all[k..];
    EntriesConcat(all[..k], all[k..]);
    BodyConcat(report, Entries(all[..k]));
    EntriesAreBody(all[..k]);
    ShownConcat(report, Entries(all[..k]));
  }

  /** One more test, launched as l behind w, and then the first k entries reported. */
  lemma TestScripted(lines: seq<Line>, fates: Fates, base: seq<Entry>, w: seq<Launch>, l: Launch, k: nat)
    requires LegalFates(fates) && AllLegal(w) && AllLegal(w + [l]) && k <= |w| + 1
    requires l.status == fates(Tests(lines)) && Body(base) + Entries(w) == Script(lines, fates)
    ensures Tests(lines + [Test(l.url)]) == Tests(lines) + 1
    ensures Body(base + Entries((w + [l])[..k])) + Entries((w + [l])[k..]) == Script(lines + [Test(l.url)], fates)
    ensures Shown(base + Entries((w + [l])[..k])) == Shown(base) + Shown(Entries((w + [l])[..k]))
  {
    hide Body, Shown, AllLegal, Legal, Script, Tests, Entries;
    EntriesGrow(w, l);
    SettleBody(base, w + [l], k);
    ScriptLine(lines, fates, Test(l.url));
    assert Body(base) + (Entries(w) + [EntryOf(l)]) == Body(base) + Entries(w) + [EntryOf(l)];
  }

  lemma EntriesGrow(w: seq<Launch>, l: Launch)
    requires AllLegal(w + [l])
    ensures AllLegal(w) && Legal(l.status) && Entries(w + [l]) == Entries(w) + [EntryOf(l)]
  {
    var all := w + [l];
    assert all[..|w|] == w && all[..|w| + 1] == all;
    NextEntry(all, |w|);
    LegalLast(all);
  }

  method OnTest(s: Scheduler, u: string, ghost lines: seq<Line>) returns (forked: bool)
    requires OnScript(s, lines) && s.forkCount < s.forkMax
    modifies s, s.forkStates
    ensures forked ==> OnScript(s, lines + [Test(u)]) && s.forkCount < s.forkMax
    ensures !forked ==> OnScript(s, lines)
  {
    hide Entries, Shown, Body, Uncertain, AllLegal, Legal, Script, Tests, AsidesPlaced;
    ghost var w, base := s.window, s.report;
    PlacedTest(base, lines, Test(u));
    ghost var l, k;
    forked, l, k := s.Map(u);
    if forked {
      TestScripted(lines, s.fates, base, w, l, k);
      PlacedEntries(base, w + [l], k, lines + [Test(u)]);
    }
  }

  lemma LegalLast(w: seq<Launch>)
    requires AllLegal(w) && w != []
    ensures Legal(w[|w| - 1].status)
  {
    assert w[|w| - 1] in w;
  }

  lemma ScriptLine(lines: seq<Line>, fates: Fates, l: Line)
    requires LegalFates(fates)
    ensures Tests(lines + [l]) == Tests(lines) + if l.Test? then 1 else 0
    ensures Script(lines + [l], fates) == Script(lines, fates) + CalledFor(l, fates, Tests(lines))
  {
    assert (lines + [l])[..|lines|] == lines;
  }

  /** What a line that is no test puts on the report at once. */
  function EntryFor(l: Line): Entry
    requires !l.Test?
  {
    if l.Comment? then Note(l.text) else Heading(HEADER)
  }

  lemma OtherScripted(lines: seq<Line>, fates: Fates, base: seq<Entry>, w: seq<Launch>, l: Line)
    requires LegalFates(fates) && AllLegal(w) && !l.Test? && (l.Comment? ==> w == [])
    requires Body(base) + Entries(w) == Script(lines, fates)
    ensures Tests(lines + [l]) == Tests(lines)
    ensures Body(base + [EntryFor(l)]) + Entries(w) == Script(lines + [l], fates)
    ensures Shown(base + [EntryFor(l)]) == Shown(base) && Uncertain(base + [EntryFor(l)]) == Uncertain(base)
  {
    hide Script, Tests, Body, Shown, Uncertain, AllLegal, Entries, LegalFates;
    ScriptLine(lines, fates, l);
    ShownOne(base, EntryFor(l));
    if l.Comment? { EmptyEntries(); }
  }

  method WriteLine(s: Scheduler, e: Entry)
    requires s.Valid() && Uncertain(s.report + [e]) == Uncertain(s.report)
    modifies s`report
    ensures s.Valid() && s.report == old(s.report) + [e]
  {
    hide Uncertain, LegalFates, AllLegal;
    s.report := s.report + [e];
  }

  method DrainAll(s: Scheduler, ghost lines: seq<Line>)
    requires OnScript(s, lines)
    modifies s, s.forkStates
    ensures OnScript(s, lines) && s.window == [] && s.forkCount < s.forkMax
  {
    hide Entries, Shown, Body, Uncertain, AllLegal, Legal, Script, Tests, AsidesPlaced;
    ghost var w, base := s.window, s.report;
    var k := s.Reduce(false);
    SettleBody(base, w, k);
    PlacedEntries(base, w, k, lines);
    s.RingFacts();
  }

  method OnOther(s: Scheduler, l: Line, ghost lines: seq<Line>)
    requires OnScript(s, lines) && s.forkCount < s.forkMax && !l.Test?
    modifies s, s.forkStates
    ensures OnScript(s, lines + [l]) && s.forkCount < s.forkMax
  {
    hide Entries, Shown, Body, Uncertain, AllLegal, Legal, Script, Tests, AsidesPlaced, Results, TestsTold;
    if l.Comment? {
      DrainAll(s, lines);
    }
    OtherScripted(lines, s.fates, s.report, s.window, l);
    ReportTold(s.report, s.window, lines, s.fates);
    PlacedOther(s.report, lines, l);
    WriteLine(s, if l.Comment? then Note(l.text) else Heading(HEADER));
  }

  /**
   * The whole program. However the children interleave, and however each of them ends, the report
   * lists the tests in launch order, each once and with the status its own child ended with, between the
   * comments they were launched between. Unless fork failed or the reports were being generated, no test is
   * left unreported and no child is left to be waited for.
   */
  method RunHarness(lines: seq<Line>, mode: Mode, jobs: nat, fates: Fates)
    returns (s: Scheduler, completed: bool, failure: bool, ghost done: nat)
    requires LegalFates(fates)
    ensures s.fates == fates && done <= |lines| && OnScript(s, lines[..done])
    ensures completed ==> done == |lines|
    ensures completed && mode != Generate ==> Body(s.report) == Script(lines, fates)
    ensures completed && mode != Generate ==> s.launched == Tests(lines) && s.live.Keys == {}
    ensures TestsTold(s.report, lines[..done], fates) && AsidesPlaced(s.report, lines[..done])
    ensures completed && mode != Generate ==> |Results(s.report)| == Tests(lines)
    ensures forall e :: e in s.console <==> e in s.report && e.Result? && e.status != "?"
    ensures failure <==> !completed || exists e :: e in s.report && e.Result? && e.status == "uncertain"
  {
    hide OnScript, Entries, Shown, Body, Uncertain, Legal, Script, Tests, AsidesPlaced, TestsTold, Results;
    s := new Scheduler(jobs, fates);
    completed := true;
    Opening(s);
    var i := 0;
    done := 0;
    while i < |lines|
      invariant 0 <= i <= |lines| && done == i && s.forkCount < s.forkMax && s.fates == fates
      invariant fresh(s) && fresh(s.forkStates)
      invariant OnScript(s, lines[..i])
    {
      assert lines[..i + 1] == lines[..i] + [lines[i]];
      if lines[i].Test? {
        var forked := OnTest(s, lines[i].url, lines[..i]);
        if !forked {
          Telling(s, lines[..i]);
          return s, false, true, done;
        }
      } else {
        OnOther(s, lines[i], lines[..i]);
      }
      i := i + 1;
      done := i;
    }
    assert lines[..|lines|] == lines;
    if mode == Headless || mode == Update {
      DrainAll(s, lines);
      Closing(s, lines);
    }
    Telling(s, lines);
    failure := Finish(s);
  }

  /** What the state of a run says of its report. */
  lemma Telling(s: Scheduler, lines: seq<Line>)
    requires OnScript(s, lines)
    ensures TestsTold(s.report, lines, s.fates) && AsidesPlaced(s.report, lines)
    ensures |Results(s.report)| + |s.window| == Tests(lines) && s.uncertainCount == Uncertain(s.report)
    ensures forall e :: e in s.console <==> e in s.report && e.Result? && e.status != "?"
    ensures Uncertain(s.report) > 0 <==> exists e :: e in s.report && e.Result? && e.status == "uncertain"
  {
    hide TestsTold, AsidesPlaced, Results, Tests, Uncertain, Shown, Script, Body, Entries, Legal;
    ReportTold(s.report, s.window, lines, s.fates);
    ShownMeans(s.report);
  }

  lemma Opening(s: Scheduler)
    requires s.Valid() && s.launched == 0 && s.window == [] && s.report == [] && s.console == []
    ensures OnScript(s, []) && s.forkCount < s.forkMax
  {
  }

  lemma Closing(s: Scheduler, lines: seq<Line>)
    requires OnScript(s, lines) && s.window == []
    ensures Body(s.report) == Script(lines, s.fates) && s.launched == Tests(lines) && s.live.Keys == {}
  {
  }

  method Finish(s: Scheduler) returns (failure: bool)
    requires s.uncertainCount == Uncertain(s.report)
    ensures failure <==> Uncertain(s.report) > 0
  {
    failure := 0 < s.uncertainCount;
  }
}
