// Openings over whole runs of the connection manager: which handles open in a step and what the log then says, that
// none opens twice, and which connections count as stable (browser/js/reliable.js:492-797).
module OpeningRuns {
  import opened Transports
  import opened TransportSafety
  import opened TransportOpenings

  // ---- One step ----

  /** Handle id opens in the step from m to n: connect() returned it open, or the poll finds it open. */
  ghost predicate OpensNow(m: Manager, e: Event, n: Manager, id: nat) {
    && id in n.info && n.info[id].ready == Open
    && (id !in m.info || (e == DoPoll(id) && m.info[id].polling))
  }

  /** The handles from number low on, below high, that are open. */
  function NewOpen(n: Manager, low: nat, high: nat): (ids: seq<nat>)
    ensures forall i :: 0 <= i < |ids| ==> ids[i] in n.info
    decreases high
  {
    if high <= low then []
    else NewOpen(n, low, high - 1)
         + (if high - 1 in n.info && n.info[high - 1].ready == Open then [high - 1] else [])
  }

  /** The handles that open in the step from m to n, in order: those made open, or the one that the poll finds open. */
  function OpenedBy(m: Manager, e: Event, n: Manager): (ids: seq<nat>)
    ensures forall i :: 0 <= i < |ids| ==> ids[i] in n.info
  {
    if e.DoPoll? && e.id in m.info
    then if m.info[e.id].polling && m.info[e.id].ready == Open && e.id in n.info then [e.id] else []
    else NewOpen(n, m.next, n.next)
  }

  lemma {:induction false} NewOpenHas(n: Manager, low: nat, high: nat, id: nat)
    ensures id in NewOpen(n, low, high) <==> low <= id < high && id in n.info && n.info[id].ready == Open
    decreases high
  {
    if high > low {
      NewOpenHas(n, low, high - 1, id);
    }
  }

  lemma LastIsGreatest(ids: seq<nat>, low: nat, high: nat, i: nat)
    requires Increasing(ids, low, high) && i < |ids|
    ensures i < |ids| - 1 ==> ids[i] < ids[|ids| - 1]
    ensures ids[|ids| - 1] < high
  {
  }

  lemma WithLast(ids: seq<nat>, low: nat, k: nat)
    requires Increasing(ids, low, k + 1) && k in ids
    ensures ids != [] && ids == ids[..|ids| - 1] + [k] && Increasing(ids[..|ids| - 1], low, k)
  {
    hide Increasing;
    var i :| 0 <= i < |ids| && ids[i] == k;
    LastIsGreatest(ids, low, k + 1, i);
    FrontIncreasing(ids, low, k + 1);
  }

  lemma FrontIncreasing(ids: seq<nat>, low: nat, high: nat)
    requires Increasing(ids, low, high) && ids != []
    ensures Increasing(ids[..|ids| - 1], low, ids[|ids| - 1])
  {
  }

  lemma WithoutLast(ids: seq<nat>, low: nat, k: nat)
    requires Increasing(ids, low, k + 1) && k !in ids
    ensures Increasing(ids, low, k)
  {
    forall i | 0 <= i < |ids|
      ensures ids[i] < k
    {
      assert ids[i] in ids;
    }
  }

  lemma SomeElement(ids: seq<nat>)
    ensures ids == [] || exists id :: id in ids
  {
    if ids != [] {
      assert ids[0] in ids;
    }
  }

  /** A growing list of exactly these handles is the list. */
  lemma {:induction false} IncreasingIsNewOpen(n: Manager, low: nat, high: nat, ids: seq<nat>)
    requires Increasing(ids, low, high)
    requires forall id :: id in ids <==> low <= id < high && id in n.info && n.info[id].ready == Open
    ensures ids == NewOpen(n, low, high)
    decreases high
  {
    hide Increasing;
    if high > low {
      var k := high - 1;
      if k in n.info && n.info[k].ready == Open {
        WithLast(ids, low, k);
        var front := ids[..|ids| - 1];
        NotInFront(front, low, k);
        forall id
          ensures id in front <==> low <= id < k && id in n.info && n.info[id].ready == Open
        {
          assert id in ids <==> id in front || id == k;
        }
        IncreasingIsNewOpen(n, low, k, front);
      } else {
        WithoutLast(ids, low, k);
        IncreasingIsNewOpen(n, low, k, ids);
      }
    } else {
      SomeElement(ids);
    }
  }

  lemma NotInFront(ids: seq<nat>, low: nat, k: nat)
    requires Increasing(ids, low, k)
    ensures k !in ids
  {
  }

  /** The mode really changes. */
  predicate Switches(m: Manager, e: Event) { e.DoSetAllowed? && e.mode != m.allowed }

  /** What a step adds to the log: tidy openings of exactly the handles that open, in order and each under its name;
      one more resume at the end when the mode changes; data passed on exactly when it arrives on a handle. */
  ghost predicate LogsStep(m: Manager, e: Event, n: Manager, d: seq<Effect>) {
    && n.effects == m.effects + (if Switches(m, e) then d + [ResumeSent] else d)
    && Tidy(d)
    && Openings(d) == OpenedBy(m, e, n)
    && (forall id :: id in Openings(d) <==> OpensNow(m, e, n, id))
    && (forall x :: x in d && x.Opened? ==> x.id in n.info && x.name == n.info[x.id].name)
    && (if e.DoData? && e.id in m.info then d == [Passed(e.id)] else forall x :: x in d ==> !x.Passed?)
  }

  lemma {:induction false} LossesTidy(effects: seq<Effect>)
    requires OnlyLoses(effects)
    ensures Tidy(effects) && Openings(effects) == []
    decreases |effects|
  {
    if effects != [] {
      assert effects[0] in effects;
      LossesTidy(effects[1..]);
    }
  }

  /** Closing, then connecting. */
  lemma MoveLogs(m: Manager, mid: Manager, n: Manager) returns (d: seq<Effect>)
    requires Numbered(m) && Cutting(m, mid) && Joining(mid, n)
    ensures n.effects == m.effects + d && Tidy(d) && (forall x :: x in d ==> !x.Passed?)
    ensures Openings(d) == Openings(Added(mid, n)) && OpensNew(mid, n, Openings(d))
    ensures forall x :: x in d && x.Opened? ==> x.id in n.info && x.name == n.info[x.id].name
  {
    hide Tidy, Openings, LostIn;
    var a, b := Added(m, mid), Added(mid, n);
    d := a + b;
    LossesTidy(a);
    TidyConcat(a, b);
    OpeningsConcat(a, b);
  }

  lemma MoveLogsStep(m: Manager, e: Event, mid: Manager, n: Manager) returns (d: seq<Effect>)
    requires Numbered(m) && Cutting(m, mid) && Joining(mid, n) && !e.DoData? && !e.DoPoll?
    ensures var s := if Switches(m, e) then n.(effects := n.effects + [ResumeSent]) else n;
            LogsStep(m, e, s, d)
  {
    hide Tidy, Openings, LostIn, NewOpen;
    d := MoveLogs(m, mid, n);
    var s := if Switches(m, e) then n.(effects := n.effects + [ResumeSent]) else n;
    SameNew(n, s, m.next, n.next);
    MoveOpens(m, mid, n, Openings(d));
    assert Switches(m, e) ==> (m.effects + d) + [ResumeSent] == m.effects + (d + [ResumeSent]);
  }

  lemma MoveOpens(m: Manager, mid: Manager, n: Manager, ids: seq<nat>)
    requires Numbered(m) && Cutting(m, mid) && NewHandles(mid, n) && OpensNew(mid, n, ids)
    ensures ids == NewOpen(n, m.next, n.next)
  {
    hide LostIn;
    forall id
      ensures id in ids <==> m.next <= id < n.next && id in n.info && n.info[id].ready == Open
    {
    }
    IncreasingIsNewOpen(n, m.next, n.next, ids);
  }

  lemma {:induction false} SameNew(n: Manager, s: Manager, low: nat, high: nat)
    requires s.info == n.info
    ensures NewOpen(s, low, high) == NewOpen(n, low, high)
    decreases high
  {
    if high > low {
      SameNew(n, s, low, high - 1);
    }
  }

  lemma SetAllowedMoves(m: Manager, mode: Name, connect: Name -> Attempt, prompt: Name -> bool, blocked: bool)
    returns (mid: Manager, n: Manager)
    requires Core(m) && mode != m.allowed
    ensures Cutting(m, mid) && Joining(mid, n)
    ensures SetAllowed(m, mode, connect, prompt, blocked) == n.(effects := n.effects + [ResumeSent])
  {
    hide Cutting, Joining, Core, DisconnectDisallowed, ConnectAllowed;
    var names, switched := Names(m.handles), m.(allowed := mode);
    ModeCore(m, mode);
    mid := DisconnectDisallowed(switched, names, prompt, |names|);
    DisconnectDisallowedCuts(switched, names, prompt, |names|);
    SameLog(m, switched, mid);
    CoreNumbered(m);
    CutNumbered(m, mid);
    n := ConnectAllowed(mid, connect, blocked, |mid.defs|);
    ConnectAllowedConnects(mid, connect, blocked, |mid.defs|);
  }

  lemma SameLog(m: Manager, switched: Manager, mid: Manager)
    requires Cutting(switched, mid) && switched == m.(allowed := switched.allowed)
    ensures Cutting(m, mid)
  {
    hide LostIn;
    assert Added(m, mid) == Added(switched, mid);
  }

  lemma CoreNumbered(m: Manager)
    requires Core(m)
    ensures Numbered(m)
  {
  }

  lemma CutNumbered(m: Manager, n: Manager)
    requires Numbered(m) && Cutting(m, n)
    ensures Numbered(n)
  {
    hide LostIn;
  }

  lemma PollLogs(m: Manager, id: nat) returns (d: seq<Effect>)
    requires id in m.info && m.info[id].polling
    ensures LogsStep(m, DoPoll(id), PollOpen(m, id), d)
  {
    hide Tidy, Openings;
    NoneOpened();
    if m.info[id].ready == Open {
      d := OpeningOf(m.info[id].name, id);
      OpeningTidy(m.info[id].name, id);
    } else {
      d := [];
    }
  }

  lemma OneLogs(e: Effect)
    requires e.Stable? || e.Passed?
    ensures Tidy([e]) && Openings([e]) == []
  {
    assert [e][1..] == [];
  }

  lemma NothingLogs(m: Manager, e: Event, n: Manager)
    requires n.effects == m.effects && !Switches(m, e) && !(e.DoData? && e.id in m.info) && n.next == m.next
    requires n.info.Keys == m.info.Keys && (e.DoPoll? ==> e.id !in m.info || !m.info[e.id].polling)
    ensures LogsStep(m, e, n, [])
  {
    NoneOpened();
  }

  lemma SameMode(m: Manager, connect: Name -> Attempt, prompt: Name -> bool, blocked: bool)
    ensures SetAllowed(m, m.allowed, connect, prompt, blocked) == m
  {
  }

  /** Every step of every run is logged. */
  lemma StepLogs(m: Manager, e: Event) returns (d: seq<Effect>)
    requires Core(m)
    ensures LogsStep(m, e, Step(m, e), d)
  {
    hide Core, Cutting, Joining, SetAllowed, HandleCloses, Connect, PollOpen, Tidy, Openings, LogsStep;
    CoreNumbered(m);
    NothingCut(m);
    NothingConnects(m);
    match e
    case DoSetAllowed(mode, connect, prompt, blocked) =>
      if mode != m.allowed {
        var mid, n := SetAllowedMoves(m, mode, connect, prompt, blocked);
        d := MoveLogsStep(m, e, mid, n);
      } else {
        SameMode(m, connect, prompt, blocked);
        d := MoveLogsStep(m, e, m, m);
      }
    case DoClose(id) =>
      if id in m.info {
        CoreNamed(m);
        HandleClosesCuts(m, id);
        NothingConnects(HandleCloses(m, id));
        d := MoveLogsStep(m, e, HandleCloses(m, id), HandleCloses(m, id));
      } else {
        d := MoveLogsStep(m, e, m, m);
      }
    case DoTimer(name, attempt, blocked) =>
      var fired := if name in m.timers then m.(timers := m.timers - {name}) else m;
      DropTimersCuts(m, fired.timers);
      NothingConnects(fired);
      ConnectConnects(fired, name, attempt, blocked);
      var n := if name in m.timers && Allowed(fired, name) then Connect(fired, name, attempt, blocked) else fired;
      d := MoveLogsStep(m, e, fired, n);
    case DoCheckRtc(attempt, blocked) =>
      ConnectConnects(m, RTC, attempt, blocked);
      d := MoveLogsStep(m, e, m, Step(m, e));
    case DoPoll(id) =>
      if id in m.info && m.info[id].polling {
        d := PollLogs(m, id);
      } else {
        d := [];
        NothingLogs(m, e, m);
      }
    case DoStability(id) =>
      d := if id in m.info && m.info[id].stability then [Stable(m.info[id].name, id)] else [];
      StabilityLogs(m, id, d);
    case DoData(id) =>
      d := if id in m.info then [Passed(id)] else [];
      DataLogs(m, id, d);
    case DoReady(id, ready) =>
      d := [];
      NothingLogs(m, e, Step(m, e));
  }

  lemma StabilityLogs(m: Manager, id: nat, d: seq<Effect>)
    requires d == if id in m.info && m.info[id].stability then [Stable(m.info[id].name, id)] else []
    ensures LogsStep(m, DoStability(id), Step(m, DoStability(id)), d)
  {
    hide Tidy, Openings;
    NoneOpened();
    if d != [] {
      OneLogs(d[0]);
    }
  }

  lemma DataLogs(m: Manager, id: nat, d: seq<Effect>)
    requires d == if id in m.info then [Passed(id)] else []
    ensures LogsStep(m, DoData(id), Step(m, DoData(id)), d)
  {
    hide Tidy, Openings;
    NoneOpened();
    OneLogs(Passed(id));
  }
}
