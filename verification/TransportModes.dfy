// Modes and the block of rtc over every run: only transports that the mode allows are held, a blocked rtc is never
// connected, and the check connects it once the block is gone (browser/js/reliable.js:492-509, 587-620, 762-797).
module TransportModes {
  import opened Transports
  import opened TransportSafety
  import opened TransportOpenings
  import opened Wrappers

  ghost predicate AllowedHeld(m: Manager) { forall s :: s in m.handles ==> Allowed(m, s.name) }

  lemma ConnectHoldsAllowed(m: Manager, name: Name, attempt: Attempt, blocked: bool)
    requires AllowedHeld(m)
    ensures AllowedHeld(Connect(m, name, attempt, blocked))
  {
    hide Connectable, With;
    var n := Connect(m, name, attempt, blocked);
    forall s | s in n.handles
      ensures Allowed(n, s.name)
    {
      if s !in m.handles {
        WithHas(m.handles, name, m.next, s);
      }
    }
  }

  lemma {:induction false} ConnectAllowedHolds(m: Manager, connect: Name -> Attempt, blocked: bool, n: nat)
    requires AllowedHeld(m) && n <= |m.defs|
    ensures AllowedHeld(ConnectAllowed(m, connect, blocked, n))
    decreases n
  {
    hide AllowedHeld, Connect, Idle;
    if n > 0 {
      ConnectAllowedHolds(m, connect, blocked, n - 1);
      var name := m.defs[n - 1].name;
      ConnectHoldsAllowed(ConnectAllowed(m, connect, blocked, n - 1), name, connect(name), blocked);
    }
  }

  lemma CutHoldsAllowed(m: Manager, n: Manager)
    requires AllowedHeld(m) && Cutting(m, n) && n.allowed == m.allowed
    ensures AllowedHeld(n)
  {
    hide LostIn;
  }

  lemma {:induction false} HeldIsGot(slots: seq<Slot>, s: Slot)
    requires s in slots
    ensures Get(slots, s.name).Some?
    decreases |slots|
  {
    if slots[0].name != s.name {
      HeldIsGot(slots[1..], s);
    }
  }

  lemma {:induction false} DisallowedGone(m: Manager, names: seq<Name>, prompt: Name -> bool, n: nat, i: nat)
    requires Core(m) && i < n <= |names| && !Allowed(m, names[i])
    ensures Get(DisconnectDisallowed(m, names, prompt, n).handles, names[i]).None?
    decreases n
  {
    hide Core, Disconnect;
    var before, name := DisconnectDisallowed(m, names, prompt, n - 1), names[n - 1];
    DisconnectDisallowedCore(m, names, prompt, n - 1);
    DisconnectUnplaces(before, name, prompt(name), names[i]);
    if i < n - 1 {
      DisallowedGone(m, names, prompt, n - 1, i);
    }
  }

  /** After the switch nothing that the new mode does not allow is held. */
  lemma SwitchHoldsAllowed(m: Manager, mode: Name, connect: Name -> Attempt, prompt: Name -> bool, blocked: bool)
    requires Core(m) && mode != m.allowed
    ensures AllowedHeld(SetAllowed(m, mode, connect, prompt, blocked))
  {
    hide Core, DisconnectDisallowed, ConnectAllowed, Cutting;
    var names, switched := Names(m.handles), m.(allowed := mode);
    ModeCore(m, mode);
    var cut := DisconnectDisallowed(switched, names, prompt, |names|);
    DisconnectDisallowedCuts(switched, names, prompt, |names|);
    forall s | s in cut.handles
      ensures Allowed(cut, s.name)
    {
      CutSlot(switched, cut, s);
      var i :| 0 <= i < |m.handles| && m.handles[i] == s;
      HeldIsGot(cut.handles, s);
      if !Allowed(cut, names[i]) {
        DisallowedGone(switched, names, prompt, |names|, i);
      }
    }
    ConnectAllowedHolds(cut, connect, blocked, |m.defs|);
  }

  lemma CutSlot(m: Manager, n: Manager, s: Slot)
    requires Cutting(m, n) && s in n.handles
    ensures s in m.handles
  {
    hide LostIn;
  }

  lemma StepHoldsAllowed(m: Manager, e: Event)
    requires Core(m) && AllowedHeld(m)
    ensures AllowedHeld(Step(m, e))
  {
    hide Core, Cutting, SetAllowed, Connect, HandleCloses;
    match e
    case DoSetAllowed(mode, connect, prompt, blocked) =>
      if mode != m.allowed {
        SwitchHoldsAllowed(m, mode, connect, prompt, blocked);
      } else {
        SwitchedNowhere(m, connect, prompt, blocked);
      }
    case DoClose(id) =>
      if id in m.info {
        CoreNamed(m);
        HandleClosesCuts(m, id);
        CutHoldsAllowed(m, HandleCloses(m, id));
      }
    case DoTimer(name, attempt, blocked) =>
      ConnectHoldsAllowed(m.(timers := m.timers - {name}), name, attempt, blocked);
    case DoCheckRtc(attempt, blocked) =>
      ConnectHoldsAllowed(m, RTC, attempt, blocked);
    case _ =>
  }

  lemma SwitchedNowhere(m: Manager, connect: Name -> Attempt, prompt: Name -> bool, blocked: bool)
    ensures SetAllowed(m, m.allowed, connect, prompt, blocked) == m
  {
  }

  /** In every reachable state only transports that the mode allows are held. */
  lemma {:induction false} OnlyAllowedHeld(defs: seq<Definition>, allowed: Name, connect: Name -> Attempt,
                                           blocked: bool, events: seq<Event>)
    ensures var m := Run(Start(defs, allowed, connect, blocked), events);
            forall s :: s in m.handles ==> m.allowed == "auto" || m.allowed == s.name
    decreases |events|
  {
    hide Inv, Step, ConnectAllowed;
    if events == [] {
      ConnectAllowedHolds(Manager(defs, [], map[], map[], map[], allowed, map[], 0, []), connect, blocked, |defs|);
    } else {
      var init := events[..|events| - 1];
      OnlyAllowedHeld(defs, allowed, connect, blocked, init);
      StartHasInv(defs, allowed, connect, blocked);
      RunKeepsInv(Start(defs, allowed, connect, blocked), init);
      HasCore(Run(Start(defs, allowed, connect, blocked), init));
      StepHoldsAllowed(Run(Start(defs, allowed, connect, blocked), init), events[|events| - 1]);
    }
  }

  lemma HasCore(m: Manager)
    requires Inv(m)
    ensures Core(m)
  {
  }

  // ---- The block of rtc ----

  /** Every handle that n has more than m is not one of rtc. */
  ghost predicate NoNewRtc(m: Manager, n: Manager) {
    forall id :: id in n.info && id !in m.info ==> n.info[id].name != RTC
  }

  lemma BlockedConnect(m: Manager, name: Name, attempt: Attempt)
    ensures NoNewRtc(m, Connect(m, name, attempt, true))
  {
    hide Connectable, With;
  }

  lemma {:induction false} BlockedConnectAllowed(m: Manager, connect: Name -> Attempt, n: nat)
    requires Numbered(m) && n <= |m.defs|
    ensures NoNewRtc(m, ConnectAllowed(m, connect, true, n))
    decreases n
  {
    hide Connect, Idle, Joining, Numbered;
    if n > 0 {
      var before, name := ConnectAllowed(m, connect, true, n - 1), m.defs[n - 1].name;
      BlockedConnectAllowed(m, connect, n - 1);
      ConnectAllowedConnects(m, connect, true, n - 1);
      StillNumbered(m, before);
      BlockedConnect(before, name, connect(name));
      ConnectConnects(before, name, connect(name), true);
      OldKept(before, Connect(before, name, connect(name), true));
    }
  }

  lemma OldKept(m: Manager, n: Manager)
    requires Joining(m, n)
    ensures forall id :: id in m.info ==> id in n.info && n.info[id] == m.info[id]
  {
    hide Tidy, Openings;
  }

  /** While rtc is blocked no timer and no check connects it; once it is not, the check leaves it connected or
      waiting. */
  lemma RtcFollowsBlock(m: Manager, name: Name, attempt: Attempt)
    requires Core(m)
    ensures NoNewRtc(m, Step(m, DoTimer(name, attempt, true))) && NoNewRtc(m, Step(m, DoCheckRtc(attempt, true)))
    ensures Allowed(m, RTC) && Connectable(m.defs, RTC) ==> Placed(Step(m, DoCheckRtc(attempt, false)), RTC)
  {
    hide Core, Connect, Connectable;
    BlockedConnect(m.(timers := m.timers - {name}), name, attempt);
    if Idle(m, RTC) && Connectable(m.defs, RTC) {
      UnblockedConnect(m, attempt);
    }
  }

  lemma UnblockedConnect(m: Manager, attempt: Attempt)
    requires Core(m) && Idle(m, RTC) && Connectable(m.defs, RTC)
    ensures Placed(Connect(m, RTC, attempt, false), RTC)
  {
    hide Core, Connected, Schedule, Connectable;
    if attempt.Failed? {
      ScheduleCore(m, RTC);
    } else {
      ConnectedCore(m, RTC, attempt.ready);
    }
  }

  // ---- The order of handles ----

  /** A transport that is held keeps its place when it is connected again, another one goes behind all others. */
  lemma {:induction false} WithKeepsOrder(slots: seq<Slot>, name: Name, id: nat)
    ensures var w := With(slots, name, id);
            if Get(slots, name).Some?
            then |w| == |slots| && forall i :: 0 <= i < |w| ==> w[i].name == slots[i].name
            else w == slots + [Slot(name, id)]
    decreases |slots|
  {
    if slots != [] && slots[0].name != name {
      WithKeepsOrder(slots[1..], name, id);
      assert slots == [slots[0]] + slots[1..];
    }
  }
}
