// When a transport never has two live handles: if every close() calls back before it returns and no handle closes
// twice, the manager holds every handle that has not closed.
module TransportHandles {
  import opened Transports
  import opened TransportSafety
  import opened Wrappers

  /** The handles whose close callback has run. */
  function ClosedIds(effects: seq<Effect>): set<nat>
    decreases |effects|
  {
    if effects == [] then {}
    else
      var last := effects[|effects| - 1];
      ClosedIds(effects[..|effects| - 1]) + (if last.Lost? then {last.id} else {})
  }

  predicate Live(m: Manager, id: nat) { id in m.info && id !in ClosedIds(m.effects) }

  /** The manager holds every live handle. */
  ghost predicate Tracked(m: Manager) {
    forall id :: Live(m, id) ==> Get(m.handles, m.info[id].name) == Some(id)
  }

  lemma ClosedSnoc(effects: seq<Effect>, e: Effect)
    ensures ClosedIds(effects + [e]) == ClosedIds(effects) + (if e.Lost? then {e.id} else {})
  {
    assert (effects + [e])[..|effects|] == effects;
  }

  /** No handle is added and none is dropped. */
  predicate SameHandles(m: Manager, n: Manager) {
    && n.handles == m.handles && n.info.Keys == m.info.Keys && ClosedIds(n.effects) == ClosedIds(m.effects)
    && forall id :: id in m.info ==> n.info[id].name == m.info[id].name
  }

  lemma TrackedFrame(m: Manager, n: Manager)
    requires Tracked(m) && SameHandles(m, n)
    ensures Tracked(n)
  {
    hide ClosedIds;
    forall id | Live(n, id)
      ensures Get(n.handles, n.info[id].name) == Some(id)
    {
      assert Live(m, id);
    }
  }

  lemma ScheduleSame(m: Manager, name: Name)
    ensures SameHandles(m, Schedule(m, name))
  {
    hide ClosedIds;
    if name !in m.timers {
      ClosedSnoc(m.effects, Scheduled(name, NextDelay(m, name)));
    }
  }

  lemma OpenSame(m: Manager, id: nat)
    requires id in m.info
    ensures SameHandles(m, TransportOpen(m, id))
  {
    hide ClosedIds;
    var e := Opened(m.info[id].name, id);
    var up := m.effects + [e];
    ClosedSnoc(m.effects, e);
    if m.info[id].name == WS {
      ClosedSnoc(up, WsReset);
      ClosedSnoc(up + [WsReset], ResumeSent);
      assert up + [WsReset] + [ResumeSent] == up + [WsReset, ResumeSent];
    } else {
      ClosedSnoc(up, ResumeSent);
    }
  }

  lemma ConnectedTracked(m: Manager, name: Name, ready: Ready)
    requires Tracked(m) && Get(m.handles, name).None? && m.next !in m.info
    ensures Tracked(Connected(m, name, ready))
  {
    hide ClosedIds;
    var made := m.(info := m.info[m.next := Info(name, ready, true, ready != Open, false)], next := m.next + 1);
    if ready == Open {
      OpenSame(made, m.next);
    }
    var c := Connected(m, name, ready);
    forall id | Live(c, id)
      ensures Get(c.handles, c.info[id].name) == Some(id)
    {
      GetWith(m.handles, name, m.next, c.info[id].name);
      if id != m.next {
        assert Live(m, id);
      }
    }
  }

  lemma ConnectTracked(m: Manager, name: Name, attempt: Attempt, blocked: bool)
    requires Tracked(m) && Get(m.handles, name).None? && m.next !in m.info
    ensures Tracked(Connect(m, name, attempt, blocked))
  {
    hide Tracked, Connected, Schedule, SameHandles;
    if attempt.Failed? {
      ScheduleSame(m, name);
      TrackedFrame(m, Schedule(m, name));
    } else {
      ConnectedTracked(m, name, attempt.ready);
    }
  }

  lemma {:induction false} ConnectAllowedTracked(m: Manager, connect: Name -> Attempt, blocked: bool, n: nat)
    requires Tracked(m) && Core(m) && n <= |m.defs|
    ensures Tracked(ConnectAllowed(m, connect, blocked, n))
    decreases n
  {
    hide Tracked, Core, Connect;
    if n > 0 {
      var before, name := ConnectAllowed(m, connect, blocked, n - 1), m.defs[n - 1].name;
      ConnectAllowedTracked(m, connect, blocked, n - 1);
      ConnectAllowedInv(m, connect, blocked, n - 1);
      if Idle(before, name) {
        CoreFresh(before);
        ConnectTracked(before, name, connect(name), blocked);
      }
    }
  }

  lemma CoreFresh(m: Manager)
    requires Core(m)
    ensures m.next !in m.info
  {
  }

  /** The handle that closes is the one in its slot. */
  lemma ClosesTracked(m: Manager, id: nat)
    requires Tracked(m) && id in m.info && Get(m.handles, m.info[id].name) == Some(id)
    ensures Tracked(HandleCloses(m, id))
  {
    hide ClosedIds, Schedule;
    var name := m.info[id].name;
    var failures := if name in m.failures then m.failures[name] else 0;
    var lost := Lost(name, id, failures + 1 == WARN_AT);
    var closed := m.(info := m.info[id := m.info[id].(stability := false)],
                     handles := Without(m.handles, name),
                     failures := m.failures[name := failures + 1],
                     effects := m.effects + [lost]);
    ClosedSnoc(m.effects, lost);
    forall k | Live(closed, k)
      ensures Get(closed.handles, closed.info[k].name) == Some(k)
    {
      assert Live(m, k);
      GetWithout(m.handles, name, closed.info[k].name);
    }
    ScheduleSame(closed, name);
    TrackedFrame(closed, Schedule(closed, name));
  }

  lemma DisconnectTracked(m: Manager, name: Name)
    requires Tracked(m) && Core(m)
    ensures Tracked(Disconnect(m, name, true))
  {
    hide Core, HandleCloses, ClosedIds;
    var slot := Get(m.handles, name);
    if slot.Some? {
      var id := slot.value;
      CoreNamed(m);
      GetNamed(m.handles, m.info, name);
      var silent := m.(info := m.info[id := m.info[id].(polling := false, stability := false)]);
      TrackedFrame(m, silent);
      ClosesTracked(silent, id);
      WithoutTwice(silent, id);
    }
  }

  /** The slot is empty already. */
  lemma WithoutTwice(m: Manager, id: nat)
    requires id in m.info
    ensures Without(HandleCloses(m, id).handles, m.info[id].name) == HandleCloses(m, id).handles
  {
    WithoutIdle(m.handles, m.info[id].name);
  }

  lemma {:induction false} WithoutIdle(slots: seq<Slot>, name: Name)
    ensures Without(Without(slots, name), name) == Without(slots, name)
    decreases |slots|
  {
    if slots != [] {
      WithoutIdle(slots[1..], name);
    }
  }

  lemma {:induction false} DisconnectDisallowedTracked(m: Manager, names: seq<Name>, prompt: Name -> bool, n: nat)
    requires Tracked(m) && Core(m) && n <= |names| && forall name :: prompt(name)
    ensures Tracked(DisconnectDisallowed(m, names, prompt, n))
    decreases n
  {
    hide Tracked, Core, Disconnect;
    if n > 0 {
      DisconnectDisallowedTracked(m, names, prompt, n - 1);
      DisconnectDisallowedCore(m, names, prompt, n - 1);
      DisconnectTracked(DisconnectDisallowed(m, names, prompt, n - 1), names[n - 1]);
    }
  }

  /** Every close() calls back at once, and no handle closes twice. */
  ghost predicate PromptOnce(m: Manager, e: Event) {
    && (e.DoSetAllowed? ==> forall name :: e.prompt(name))
    && (e.DoClose? ==> e.id !in ClosedIds(m.effects))
  }

  lemma SetAllowedTracked(m: Manager, mode: Name, connect: Name -> Attempt, prompt: Name -> bool, blocked: bool)
    requires Tracked(m) && Core(m) && forall name :: prompt(name)
    ensures Tracked(SetAllowed(m, mode, connect, prompt, blocked))
  {
    hide Core, ClosedIds, ConnectAllowed, DisconnectDisallowed;
    if mode != m.allowed {
      var names, switched := Names(m.handles), m.(allowed := mode);
      ModeCore(m, mode);
      TrackedFrame(m, switched);
      DisconnectDisallowedCore(switched, names, prompt, |names|);
      DisconnectDisallowedTracked(switched, names, prompt, |names|);
      var cut := DisconnectDisallowed(switched, names, prompt, |names|);
      ConnectAllowedTracked(cut, connect, blocked, |m.defs|);
      var joined := ConnectAllowed(cut, connect, blocked, |m.defs|);
      ClosedSnoc(joined.effects, ResumeSent);
      TrackedFrame(joined, joined.(effects := joined.effects + [ResumeSent]));
    }
  }

  lemma TimerTracked(m: Manager, name: Name, attempt: Attempt, blocked: bool)
    requires Tracked(m) && Core(m) && name in m.timers
    ensures Tracked(TimerFires(m, name, attempt, blocked))
  {
    hide Paced, ClosedIds, Connect;
    var fired := m.(timers := m.timers - {name});
    TrackedFrame(m, fired);
    if Allowed(fired, name) {
      ConnectTracked(fired, name, attempt, blocked);
    }
  }

  lemma StabilityTracked(m: Manager, id: nat)
    requires Tracked(m) && id in m.info
    ensures Tracked(StabilityFires(m, id))
  {
    hide ClosedIds;
    ClosedSnoc(m.effects, Stable(m.info[id].name, id));
    TrackedFrame(m, StabilityFires(m, id));
  }

  lemma PollTracked(m: Manager, id: nat)
    requires Tracked(m) && id in m.info
    ensures Tracked(PollOpen(m, id))
  {
    hide ClosedIds;
    var done := m.(info := m.info[id := m.info[id].(polling := false)]);
    TrackedFrame(m, done);
    OpenSame(done, id);
    TrackedFrame(done, TransportOpen(done, id));
  }

  lemma DataTracked(m: Manager, id: nat)
    requires Tracked(m) && id in m.info
    ensures Tracked(HandleReceives(m, id))
  {
    hide ClosedIds;
    ClosedSnoc(m.effects, Passed(id));
    TrackedFrame(m, HandleReceives(m, id));
  }

  lemma StepTracked(m: Manager, e: Event)
    requires Tracked(m) && Core(m) && PromptOnce(m, e)
    ensures Tracked(Step(m, e))
  {
    hide Core, ClosedIds, SetAllowed, TimerFires, HandleCloses, StabilityFires, PollOpen, HandleReceives, Connect;
    match e
    case DoSetAllowed(mode, connect, prompt, blocked) => SetAllowedTracked(m, mode, connect, prompt, blocked);
    case DoClose(id) =>
      if id in m.info {
        assert Live(m, id);
        ClosesTracked(m, id);
      }
    case DoTimer(name, attempt, blocked) => if name in m.timers { TimerTracked(m, name, attempt, blocked); }
    case DoStability(id) => if id in m.info { StabilityTracked(m, id); }
    case DoPoll(id) => if id in m.info { PollTracked(m, id); }
    case DoCheckRtc(attempt, blocked) =>
      if Idle(m, RTC) {
        CoreFresh(m);
        ConnectTracked(m, RTC, attempt, blocked);
      }
    case DoData(id) => if id in m.info { DataTracked(m, id); }
    case DoReady(id, ready) => if id in m.info { TrackedFrame(m, ReadyChanges(m, id, ready)); }
  }

  ghost predicate PromptRun(m: Manager, events: seq<Event>)
    decreases |events|
  {
    events == []
    || (PromptRun(m, events[..|events| - 1]) && PromptOnce(Run(m, events[..|events| - 1]), events[|events| - 1]))
  }

  lemma {:induction false} RunTracked(m: Manager, events: seq<Event>)
    requires Tracked(m) && Inv(m) && PromptRun(m, events)
    ensures Tracked(Run(m, events))
    decreases |events|
  {
    hide Tracked, Core, Covered, PromptOnce, Step;
    if events != [] {
      var before := Run(m, events[..|events| - 1]);
      RunTracked(m, events[..|events| - 1]);
      RunKeepsInv(m, events[..|events| - 1]);
      StepTracked(before, events[|events| - 1]);
    }
  }

  /** In such a run a transport has at most one live handle, the one the manager holds, and no close drops another. */
  lemma OneLiveHandle(defs: seq<Definition>, allowed: Name, connect: Name -> Attempt, blocked: bool, events: seq<Event>)
    requires PromptRun(Start(defs, allowed, connect, blocked), events)
    ensures var m := Run(Start(defs, allowed, connect, blocked), events);
            && Tracked(m)
            && (forall i, j :: Live(m, i) && Live(m, j) && m.info[i].name == m.info[j].name ==> i == j)
            && (forall id :: Live(m, id) ==> !Orphans(m, id))
  {
    hide Start, ConnectAllowed, ClosedIds, Inv, Core, Orphans, HandleCloses;
    var blank := Manager(defs, [], map[], map[], map[], allowed, map[], 0, []);
    BlankCore(blank);
    ConnectAllowedTracked(blank, connect, blocked, |defs|);
    StartIs(defs, allowed, connect, blocked);
    StartHasInv(defs, allowed, connect, blocked);
    RunTracked(Start(defs, allowed, connect, blocked), events);
    var m := Run(Start(defs, allowed, connect, blocked), events);
    forall id | Live(m, id)
      ensures !Orphans(m, id)
    {
      LateCloseOrphans(m, id);
    }
  }

  lemma BlankCore(m: Manager)
    requires m.handles == [] && m.timers == map[] && m.backoff == map[] && m.failures == map[] && m.info == map[]
    requires m.effects == []
    ensures Core(m)
  {
  }

  lemma StartIs(defs: seq<Definition>, allowed: Name, connect: Name -> Attempt, blocked: bool)
    ensures Start(defs, allowed, connect, blocked)
         == ConnectAllowed(Manager(defs, [], map[], map[], map[], allowed, map[], 0, []), connect, blocked, |defs|)
  {
  }
}
