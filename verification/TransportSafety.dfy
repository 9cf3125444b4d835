// What every run of the connection manager keeps: each allowed transport has exactly one of a handle and a reconnect
// timer, reconnect delays double from one second to thirty, the active transport is the best open one.
module TransportSafety {
  import opened Powers
  import opened Transports
  import opened Wrappers

  // ---- Handles by name ----

  lemma {:induction false} GetWith(slots: seq<Slot>, name: Name, id: nat, n: Name)
    ensures Get(With(slots, name, id), n) == if n == name then Some(id) else Get(slots, n)
    decreases |slots|
  {
    if slots != [] && slots[0].name != name {
      GetWith(slots[1..], name, id, n);
    }
  }

  lemma {:induction false} GetWithout(slots: seq<Slot>, name: Name, n: Name)
    ensures Get(Without(slots, name), n) == if n == name then None else Get(slots, n)
    decreases |slots|
  {
    if slots != [] {
      GetWithout(slots[1..], name, n);
    }
  }

  /** Every slot holds a handle of its own name. */
  ghost predicate Named(slots: seq<Slot>, info: map<nat, Info>) {
    forall s :: s in slots ==> s.id in info && info[s.id].name == s.name
  }

  lemma {:induction false} NamedWith(slots: seq<Slot>, name: Name, id: nat, info: map<nat, Info>)
    requires Named(slots, info) && id in info && info[id].name == name
    ensures Named(With(slots, name, id), info)
    decreases |slots|
  {
    if slots != [] && slots[0].name != name {
      NamedWith(slots[1..], name, id, info);
    }
  }

  lemma {:induction false} NamedWithout(slots: seq<Slot>, name: Name, info: map<nat, Info>)
    requires Named(slots, info)
    ensures Named(Without(slots, name), info)
    decreases |slots|
  {
    if slots != [] {
      NamedWithout(slots[1..], name, info);
    }
  }

  lemma {:induction false} GetNamed(slots: seq<Slot>, info: map<nat, Info>, name: Name)
    requires Named(slots, info) && Get(slots, name).Some?
    ensures var id := Get(slots, name).value; id in info && info[id].name == name
    decreases |slots|
  {
    if slots[0].name != name {
      GetNamed(slots[1..], info, name);
    }
  }

  // ---- Backoff ----

  /** The delay before reconnect number k (from zero) since the transport was last stable. */
  function Delay(k: nat): nat {
    if FIRST_DELAY * Pow2(k) < LAST_DELAY then FIRST_DELAY * Pow2(k) else LAST_DELAY
  }

  /** How many reconnects have been scheduled for name since it was last stable. */
  function Strikes(effects: seq<Effect>, name: Name): nat
    decreases |effects|
  {
    if effects == [] then 0
    else
      var before, last := effects[..|effects| - 1], effects[|effects| - 1];
      if last.Scheduled? && last.name == name then Strikes(before, name) + 1
      else if last.Stable? && last.name == name then 0
      else Strikes(before, name)
  }

  /** How often name has been lost since it was last stable. */
  function Losses(effects: seq<Effect>, name: Name): nat
    decreases |effects|
  {
    if effects == [] then 0
    else
      var before, last := effects[..|effects| - 1], effects[|effects| - 1];
      if last.Lost? && last.name == name then Losses(before, name) + 1
      else if last.Stable? && last.name == name then 0
      else Losses(before, name)
  }

  /** The right delay for a reconnect; a warning at the third loss in a row and at no other. */
  predicate Timely(before: seq<Effect>, e: Effect) {
    && (e.Scheduled? ==> e.delay == Delay(Strikes(before, e.name)))
    && (e.Lost? ==> (e.warned <==> Losses(before, e.name) + 1 == WARN_AT))
  }

  predicate PacedAt(effects: seq<Effect>, i: nat)
    requires i < |effects|
  {
    Timely(effects[..i], effects[i])
  }

  predicate AllPaced(effects: seq<Effect>) {
    forall i :: 0 <= i < |effects| ==> PacedAt(effects, i)
  }

  function NextDelay(m: Manager, name: Name): nat {
    if name in m.backoff && m.backoff[name] != 0 then m.backoff[name] else FIRST_DELAY
  }

  function Failures(m: Manager, name: Name): nat { if name in m.failures then m.failures[name] else 0 }

  ghost predicate Paced(m: Manager) {
    && AllPaced(m.effects)
    && (forall name :: NextDelay(m, name) == Delay(Strikes(m.effects, name)))
    && (forall name :: Failures(m, name) == Losses(m.effects, name))
  }

  lemma AllPacedSnoc(effects: seq<Effect>, e: Effect)
    requires AllPaced(effects) && Timely(effects, e)
    ensures AllPaced(effects + [e])
  {
    var more := effects + [e];
    forall i | 0 <= i < |more|
      ensures PacedAt(more, i)
    {
      assert more[..i] == effects[..i];
      if i < |effects| {
        assert PacedAt(effects, i);
      } else {
        assert effects[..i] == effects;
      }
    }
  }

  lemma StrikesSnoc(effects: seq<Effect>, e: Effect, name: Name)
    ensures Strikes(effects + [e], name)
         == if e.Scheduled? && e.name == name then Strikes(effects, name) + 1
            else if e.Stable? && e.name == name then 0
            else Strikes(effects, name)
    ensures Losses(effects + [e], name)
         == if e.Lost? && e.name == name then Losses(effects, name) + 1
            else if e.Stable? && e.name == name then 0
            else Losses(effects, name)
  {
    assert (effects + [e])[..|effects|] == effects;
  }

  lemma DelayDoubles(k: nat)
    ensures Delay(k) > 0
    ensures Delay(k + 1) == if Delay(k) * 2 < LAST_DELAY then Delay(k) * 2 else LAST_DELAY
  {
  }

  /** The state after one more effect keeps its books when its entries follow the new log. */
  lemma Booked(m: Manager, n: Manager, e: Effect)
    requires Paced(m) && n.effects == m.effects + [e] && Timely(m.effects, e)
    requires forall name :: NextDelay(n, name)
                         == if e.Scheduled? && e.name == name then Delay(Strikes(m.effects, name) + 1)
                            else if e.Stable? && e.name == name then Delay(0) else NextDelay(m, name)
    requires forall name :: Failures(n, name) == if e.Lost? && e.name == name then Failures(m, name) + 1
                                                 else if e.Stable? && e.name == name then 0 else Failures(m, name)
    ensures Paced(n)
  {
    hide Delay, Strikes, Losses, AllPaced, NextDelay, Failures;
    AllPacedSnoc(m.effects, e);
    forall name
      ensures NextDelay(n, name) == Delay(Strikes(n.effects, name)) && Failures(n, name) == Losses(n.effects, name)
    {
      StrikesSnoc(m.effects, e, name);
      assert NextDelay(m, name) == Delay(Strikes(m.effects, name)) && Failures(m, name) == Losses(m.effects, name);
    }
  }

  lemma SchedulePaced(m: Manager, name: Name)
    requires Paced(m)
    ensures Paced(Schedule(m, name))
  {
    hide Delay, Strikes, Losses, AllPaced;
    if name !in m.timers {
      assert NextDelay(m, name) == Delay(Strikes(m.effects, name));
      DelayDoubles(Strikes(m.effects, name));
      Booked(m, Schedule(m, name), Scheduled(name, NextDelay(m, name)));
    }
  }

  /** Effects on the channel leave the books alone. */
  lemma QuietEffect(m: Manager, e: Effect)
    requires Paced(m) && (e.Opened? || e.WsReset? || e.ResumeSent? || e.Passed?)
    ensures Paced(m.(effects := m.effects + [e]))
  {
    hide Delay, Strikes, Losses, AllPaced;
    Booked(m, m.(effects := m.effects + [e]), e);
  }

  lemma StabilityPaced(m: Manager, id: nat)
    requires Paced(m) && id in m.info
    ensures Paced(StabilityFires(m, id))
  {
    hide Strikes, Losses, AllPaced;
    Booked(m, StabilityFires(m, id), Stable(m.info[id].name, id));
  }

  lemma LossPaced(m: Manager, n: Manager, name: Name, id: nat)
    requires Paced(m) && n.backoff == m.backoff && n.failures == m.failures[name := Failures(m, name) + 1]
    requires n.effects == m.effects + [Lost(name, id, Failures(m, name) + 1 == WARN_AT)]
    ensures Paced(n)
  {
    hide Delay, Strikes, Losses, AllPaced;
    assert Failures(m, name) == Losses(m.effects, name);
    Booked(m, n, Lost(name, id, Failures(m, name) + 1 == WARN_AT));
  }

  // ---- Never both ----

  /** Every handle was made by connect(), which marks it as having received. */
  ghost predicate Known(m: Manager) {
    && Named(m.handles, m.info)
    && forall id :: id in m.info ==> id < m.next && m.info[id].received
  }

  ghost predicate Exclusive(m: Manager) {
    forall name :: name in m.timers ==> Get(m.handles, name).None?
  }

  ghost predicate Core(m: Manager) {
    Known(m) && Exclusive(m) && Paced(m)
  }

  predicate Placed(m: Manager, name: Name) {
    Get(m.handles, name).Some? || name in m.timers
  }

  /** The transports the manager must keep going: rtc may be held back by its block check. */
  predicate Wanted(m: Manager, name: Name) {
    name != RTC && Connectable(m.defs, name) && Allowed(m, name)
  }

  ghost predicate Covered(m: Manager) {
    forall name :: Wanted(m, name) ==> Placed(m, name)
  }

  ghost predicate Inv(m: Manager) {
    Core(m) && Covered(m)
  }

  /** info only gains entries or changes their other fields. */
  lemma SameNames(slots: seq<Slot>, before: map<nat, Info>, after: map<nat, Info>)
    requires Named(slots, before) && forall id :: id in before ==> id in after && after[id].name == before[id].name
    ensures Named(slots, after)
  {
  }

  lemma ScheduleCore(m: Manager, name: Name)
    requires Core(m) && Get(m.handles, name).None?
    ensures Core(Schedule(m, name)) && name in Schedule(m, name).timers
    ensures forall n :: Placed(m, n) ==> Placed(Schedule(m, name), n)
  {
    hide Paced;
    SchedulePaced(m, name);
  }

  lemma OpenCore(m: Manager, id: nat)
    requires Core(m) && id in m.info
    ensures Core(TransportOpen(m, id))
  {
    hide Paced;
    var o := TransportOpen(m, id);
    SameNames(m.handles, m.info, o.info);
    var quiet := m.(info := o.info);
    assert Paced(quiet) by {
      PacedFrame(m, quiet);
    }
    var e := Opened(m.info[id].name, id);
    QuietEffect(quiet, e);
    var up := quiet.(effects := quiet.effects + [e]);
    if m.info[id].name == WS {
      QuietEffect(up, WsReset);
      var reset := up.(effects := up.effects + [WsReset]);
      QuietEffect(reset, ResumeSent);
      assert reset.effects + [ResumeSent] == o.effects;
    } else {
      QuietEffect(up, ResumeSent);
    }
  }

  lemma PacedFrame(m: Manager, n: Manager)
    requires Paced(m) && n.effects == m.effects && n.backoff == m.backoff && n.failures == m.failures
    ensures Paced(n)
  {
    hide Delay, Strikes, Losses, AllPaced;
    forall name
      ensures NextDelay(n, name) == Delay(Strikes(n.effects, name)) && Failures(n, name) == Losses(n.effects, name)
    {
      assert NextDelay(m, name) == Delay(Strikes(m.effects, name)) && Failures(m, name) == Losses(m.effects, name);
    }
  }

  lemma ConnectedCore(m: Manager, name: Name, ready: Ready)
    requires Core(m) && name !in m.timers
    ensures Core(Connected(m, name, ready)) && Placed(Connected(m, name, ready), name)
    ensures forall n :: Placed(m, n) ==> Placed(Connected(m, name, ready), n)
  {
    hide Paced;
    var info := m.info[m.next := Info(name, ready, true, ready != Open, false)];
    var made := m.(info := info, next := m.next + 1);
    SameNames(m.handles, m.info, info);
    PacedFrame(m, made);
    if ready == Open {
      OpenCore(made, m.next);
    }
    var running := if ready == Open then TransportOpen(made, m.next) else made;
    NamedWith(m.handles, name, m.next, running.info);
    var c := Connected(m, name, ready);
    PacedFrame(running, c);
    forall n
      ensures Get(c.handles, n) == if n == name then Some(m.next) else Get(m.handles, n)
    {
      GetWith(m.handles, name, m.next, n);
    }
  }

  lemma ConnectCore(m: Manager, name: Name, attempt: Attempt, blocked: bool)
    requires Core(m) && Get(m.handles, name).None? && name !in m.timers
    ensures var c := Connect(m, name, attempt, blocked);
            && Core(c) && (Wanted(m, name) ==> Placed(c, name))
            && forall n :: Placed(m, n) ==> Placed(c, n)
  {
    hide Core;
    if attempt.Failed? {
      ScheduleCore(m, name);
    } else {
      ConnectedCore(m, name, attempt.ready);
    }
  }

  lemma {:induction false} ConnectAllowedInv(m: Manager, connect: Name -> Attempt, blocked: bool, n: nat)
    requires Core(m) && n <= |m.defs|
    ensures var c := ConnectAllowed(m, connect, blocked, n);
            && Core(c) && (forall name :: Placed(m, name) ==> Placed(c, name))
            && (forall i :: 0 <= i < n && Wanted(m, m.defs[i].name) ==> Placed(c, m.defs[i].name))
    decreases n
  {
    hide Core, Connect, Connectable;
    if n > 0 {
      ConnectAllowedInv(m, connect, blocked, n - 1);
      var before := ConnectAllowed(m, connect, blocked, n - 1);
      var name := m.defs[n - 1].name;
      if Idle(before, name) {
        ConnectCore(before, name, connect(name), blocked);
      }
    }
  }

  lemma {:induction false} LookupDefined(defs: seq<Definition>, name: Name)
    requires Lookup(defs, name).Some?
    ensures exists i :: 0 <= i < |defs| && defs[i].name == name
    decreases |defs|
  {
    if defs[0].name != name {
      LookupDefined(defs[1..], name);
      var i :| 0 <= i < |defs[1..]| && defs[1..][i].name == name;
      assert defs[i + 1].name == name;
    }
  }

  /** Connecting everything allowed covers every transport. */
  lemma ConnectAllCovers(m: Manager, connect: Name -> Attempt, blocked: bool)
    requires Core(m)
    ensures Inv(ConnectAllowed(m, connect, blocked, |m.defs|))
  {
    hide Core;
    ConnectAllowedInv(m, connect, blocked, |m.defs|);
    var c := ConnectAllowed(m, connect, blocked, |m.defs|);
    forall name | Wanted(c, name)
      ensures Placed(c, name)
    {
      LookupDefined(m.defs, name);
      var i :| 0 <= i < |m.defs| && m.defs[i].name == name;
      assert Wanted(m, m.defs[i].name);
    }
  }

  /** The slot and the timer of every other name stay as they are. */
  ghost predicate OthersKept(m: Manager, after: Manager, name: Name) {
    forall n :: n != name ==> Placed(after, n) == Placed(m, n)
  }

  lemma CoreNamed(m: Manager)
    requires Core(m)
    ensures Named(m.handles, m.info) && forall id :: id in m.info ==> m.info[id].received
  {
  }

  lemma QuietInfo(m: Manager, id: nat, change: Info)
    requires Core(m) && id in m.info && change.name == m.info[id].name && change.received
    ensures Core(m.(info := m.info[id := change]))
  {
    hide Paced;
    var n := m.(info := m.info[id := change]);
    SameNames(m.handles, m.info, n.info);
    PacedFrame(m, n);
  }

  lemma DropHandle(m: Manager, name: Name)
    requires Core(m)
    ensures var d := m.(handles := Without(m.handles, name));
            Core(d) && (forall n :: Get(d.handles, n) == if n == name then None else Get(m.handles, n))
  {
    hide Paced;
    var d := m.(handles := Without(m.handles, name));
    NamedWithout(m.handles, name, m.info);
    PacedFrame(m, d);
    forall n
      ensures Get(d.handles, n) == if n == name then None else Get(m.handles, n)
    {
      GetWithout(m.handles, name, n);
    }
  }

  lemma HandleClosesCore(m: Manager, id: nat)
    requires Core(m) && id in m.info
    ensures var c := HandleCloses(m, id);
            && Core(c) && OthersKept(m, c, m.info[id].name) && Get(c.handles, m.info[id].name).None?
            && (Allowed(m, m.info[id].name) ==> m.info[id].name in c.timers)
  {
    hide Core;
    var name := m.info[id].name;
    CoreNamed(m);
    var quiet := m.(info := m.info[id := m.info[id].(stability := false)]);
    QuietInfo(m, id, m.info[id].(stability := false));
    DropHandle(quiet, name);
    var gone := quiet.(handles := Without(m.handles, name));
    var failures := if name in m.failures then m.failures[name] else 0;
    var closed := gone.(failures := m.failures[name := failures + 1],
                        effects := m.effects + [Lost(name, id, failures + 1 == WARN_AT)]);
    LossCore(gone, closed, name, id);
    ScheduleCore(closed, name);
  }

  lemma LossCore(m: Manager, n: Manager, name: Name, id: nat)
    requires Core(m) && n == m.(failures := n.failures, effects := n.effects)
    requires n.failures == m.failures[name := Failures(m, name) + 1]
    requires n.effects == m.effects + [Lost(name, id, Failures(m, name) + 1 == WARN_AT)]
    ensures Core(n)
  {
    hide Paced;
    LossPaced(m, n, name, id);
  }

  lemma DropTimer(m: Manager, name: Name)
    requires Core(m)
    ensures Core(m.(timers := m.timers - {name})) && OthersKept(m, m.(timers := m.timers - {name}), name)
  {
    hide Paced;
    PacedFrame(m, m.(timers := m.timers - {name}));
  }

  lemma DisconnectCore(m: Manager, name: Name, prompt: bool)
    requires Core(m)
    ensures var d := Disconnect(m, name, prompt);
            Core(d) && !Placed(d, name) && OthersKept(m, d, name)
  {
    hide Core, HandleCloses;
    CoreNamed(m);
    var slot := Get(m.handles, name);
    if slot.None? {
      DropTimer(m, name);
    } else {
      var id := slot.value;
      GetNamed(m.handles, m.info, name);
      QuietInfo(m, id, m.info[id].(polling := false, stability := false));
      var silent := m.(info := m.info[id := m.info[id].(polling := false, stability := false)]);
      if prompt {
        HandleClosesCore(silent, id);
      }
      var closed := if prompt then HandleCloses(silent, id) else silent;
      DropHandle(closed, name);
      var gone := closed.(handles := Without(closed.handles, name));
      DropTimer(gone, name);
      forall n | n != name
        ensures Placed(gone, n) == Placed(m, n)
      {
        assert Placed(silent, n) == Placed(m, n);
        assert Placed(closed, n) == Placed(silent, n);
      }
    }
  }

  lemma {:induction false} DisconnectDisallowedCore(m: Manager, names: seq<Name>, prompt: Name -> bool, n: nat)
    requires Core(m) && n <= |names|
    ensures Core(DisconnectDisallowed(m, names, prompt, n))
    decreases n
  {
    hide Core, Disconnect;
    if n > 0 {
      DisconnectDisallowedCore(m, names, prompt, n - 1);
      DisconnectCore(DisconnectDisallowed(m, names, prompt, n - 1), names[n - 1], prompt(names[n - 1]));
    }
  }

  lemma ModeCore(m: Manager, mode: Name)
    requires Core(m)
    ensures Core(m.(allowed := mode))
  {
    hide Paced;
    PacedFrame(m, m.(allowed := mode));
  }

  /** Handles, timers and mode decide what is covered. */
  lemma CoveredFrame(m: Manager, n: Manager)
    requires Covered(m) && n.handles == m.handles && n.timers == m.timers && n.defs == m.defs && n.allowed == m.allowed
    ensures Covered(n)
  {
    hide Connectable;
    forall name | Wanted(n, name)
      ensures Placed(n, name)
    {
      assert Wanted(m, name) && Placed(m, name);
    }
  }

  lemma QuietEffectInv(m: Manager, e: Effect)
    requires Inv(m) && (e.Opened? || e.WsReset? || e.ResumeSent? || e.Passed?)
    ensures Inv(m.(effects := m.effects + [e]))
  {
    hide Paced, Covered;
    QuietEffect(m, e);
    CoveredFrame(m, m.(effects := m.effects + [e]));
  }

  lemma SetAllowedInv(m: Manager, mode: Name, connect: Name -> Attempt, prompt: Name -> bool, blocked: bool)
    requires Inv(m)
    ensures Inv(SetAllowed(m, mode, connect, prompt, blocked))
  {
    hide Core, Covered;
    if mode != m.allowed {
      var names := Names(m.handles);
      ModeCore(m, mode);
      DisconnectDisallowedCore(m.(allowed := mode), names, prompt, |names|);
      var cut := DisconnectDisallowed(m.(allowed := mode), names, prompt, |names|);
      ConnectAllCovers(cut, connect, blocked);
      QuietEffectInv(ConnectAllowed(cut, connect, blocked, |m.defs|), ResumeSent);
    }
  }

  lemma TimerInv(m: Manager, name: Name, attempt: Attempt, blocked: bool)
    requires Inv(m) && name in m.timers
    ensures Inv(TimerFires(m, name, attempt, blocked))
  {
    hide Connect, Paced, Connectable;
    DropTimer(m, name);
    var fired := m.(timers := m.timers - {name});
    if Allowed(fired, name) {
      ConnectCore(fired, name, attempt, blocked);
    }
  }

  lemma CloseInv(m: Manager, id: nat)
    requires Inv(m) && id in m.info
    ensures Inv(HandleCloses(m, id))
  {
    hide Core, HandleCloses, Connectable;
    HandleClosesCore(m, id);
  }

  lemma RtcInv(m: Manager, attempt: Attempt, blocked: bool)
    requires Inv(m)
    ensures Inv(CheckRtcBlock(m, attempt, blocked))
  {
    hide Core, Connect, Connectable;
    if !blocked && Idle(m, RTC) {
      ConnectCore(m, RTC, attempt, blocked);
    }
  }

  lemma StabilityInv(m: Manager, id: nat)
    requires Inv(m) && id in m.info
    ensures Inv(StabilityFires(m, id))
  {
    hide Paced, Covered;
    StabilityPaced(m, id);
    CoveredFrame(m, StabilityFires(m, id));
    SameNames(m.handles, m.info, StabilityFires(m, id).info);
  }

  lemma PollInv(m: Manager, id: nat)
    requires Inv(m) && id in m.info
    ensures Inv(PollOpen(m, id))
  {
    hide Core, Covered;
    CoveredFrame(m, PollOpen(m, id));
    assert m.info[id].received by {
      Marked(m, id);
    }
    QuietInfo(m, id, m.info[id].(polling := false));
    if m.info[id].ready == Open {
      OpenCore(m.(info := m.info[id := m.info[id].(polling := false)]), id);
    }
  }

  lemma Marked(m: Manager, id: nat)
    requires Core(m) && id in m.info
    ensures m.info[id].received
  {
  }

  lemma ReceiveInv(m: Manager, id: nat)
    requires Inv(m) && id in m.info
    ensures Inv(HandleReceives(m, id))
  {
    hide Core, Covered;
    QuietInfo(m, id, m.info[id].(received := true));
    CoveredFrame(m, m.(info := m.info[id := m.info[id].(received := true)]));
    QuietEffectInv(m.(info := m.info[id := m.info[id].(received := true)]), Passed(id));
  }

  lemma ReadyInv(m: Manager, id: nat, ready: Ready)
    requires Inv(m) && id in m.info
    ensures Inv(ReadyChanges(m, id, ready))
  {
    hide Core, Covered;
    Marked(m, id);
    CoveredFrame(m, ReadyChanges(m, id, ready));
    QuietInfo(m, id, m.info[id].(ready := ready));
  }

  lemma StepKeepsInv(m: Manager, e: Event)
    requires Inv(m)
    ensures Inv(Step(m, e))
  {
    hide Inv;
    match e
    case DoSetAllowed(mode, connect, prompt, blocked) => SetAllowedInv(m, mode, connect, prompt, blocked);
    case DoClose(id) => if id in m.info { CloseInv(m, id); }
    case DoTimer(name, attempt, blocked) => if name in m.timers { TimerInv(m, name, attempt, blocked); }
    case DoStability(id) => if id in m.info { StabilityInv(m, id); }
    case DoPoll(id) => if id in m.info { PollInv(m, id); }
    case DoCheckRtc(attempt, blocked) => RtcInv(m, attempt, blocked);
    case DoData(id) => if id in m.info { ReceiveInv(m, id); }
    case DoReady(id, ready) => if id in m.info { ReadyInv(m, id, ready); }
  }

  lemma {:induction false} RunKeepsInv(m: Manager, events: seq<Event>)
    requires Inv(m)
    ensures Inv(Run(m, events))
    decreases |events|
  {
    hide Inv, Step;
    if events != [] {
      RunKeepsInv(m, events[..|events| - 1]);
      StepKeepsInv(Run(m, events[..|events| - 1]), events[|events| - 1]);
    }
  }

  lemma StartHasInv(defs: seq<Definition>, allowed: Name, connect: Name -> Attempt, blocked: bool)
    ensures Inv(Start(defs, allowed, connect, blocked))
  {
    hide ConnectAllowed;
    var m := Manager(defs, [], map[], map[], map[], allowed, map[], 0, []);
    ConnectAllCovers(m, connect, blocked);
  }

  /** In every reachable state a wanted transport has exactly one of a handle and a reconnect timer. */
  lemma NeverStrandedNeverDoubled(defs: seq<Definition>, allowed: Name, connect: Name -> Attempt, blocked: bool,
                                  events: seq<Event>, name: Name)
    ensures var m := Run(Start(defs, allowed, connect, blocked), events);
            && (Wanted(m, name) ==> (Get(m.handles, name).Some? <==> name !in m.timers))
            && !(Get(m.handles, name).Some? && name in m.timers)
  {
    hide Start, Paced, Connectable;
    StartHasInv(defs, allowed, connect, blocked);
    RunKeepsInv(Start(defs, allowed, connect, blocked), events);
  }

  /** In every run, each reconnect waits one second doubled by every earlier one since the transport was stable, at
      most thirty, and the application is warned of a transport exactly at its third loss since then. */
  lemma BackoffAndWarnings(defs: seq<Definition>, allowed: Name, connect: Name -> Attempt, blocked: bool,
                       events: seq<Event>, i: nat)
    requires i < |Run(Start(defs, allowed, connect, blocked), events).effects|
    ensures PacedAt(Run(Start(defs, allowed, connect, blocked), events).effects, i)
  {
    hide Start, Timely;
    StartHasInv(defs, allowed, connect, blocked);
    RunKeepsInv(Start(defs, allowed, connect, blocked), events);
  }

  // ---- The active transport ----

  predicate OpenSlot(m: Manager, slot: Slot) {
    slot.id in m.info && m.info[slot.id].ready == Open
  }

  /** The result is the name of the first of the best eligible handles, or nothing when none is eligible. */
  ghost predicate IsBest(m: Manager, n: nat, r: Option<Name>)
    requires n <= |m.handles|
  {
    match r
    case None => forall i :: 0 <= i < n ==> !Eligible(m, m.handles[i])
    case Some(name) =>
      exists b :: 0 <= b < n && m.handles[b].name == name && Eligible(m, m.handles[b])
        && (forall i :: 0 <= i < n && Eligible(m, m.handles[i]) ==>
            Priority(m.defs, name) <= Priority(m.defs, m.handles[i].name))
        && (forall i :: 0 <= i < b && Eligible(m, m.handles[i]) ==>
            Priority(m.defs, name) < Priority(m.defs, m.handles[i].name))
  }

  lemma {:induction false} BestIsBest(m: Manager, n: nat)
    requires n <= |m.handles|
    ensures IsBest(m, n, Best(m, n))
    decreases n
  {
    hide Eligible, Priority;
    if n > 0 {
      BestIsBest(m, n - 1);
      var rest, slot := Best(m, n - 1), m.handles[n - 1];
      if Eligible(m, slot) && (rest.None? || Priority(m.defs, slot.name) < Priority(m.defs, rest.value)) {
        assert m.handles[n - 1].name == slot.name;
      } else if rest.Some? {
        var b :| 0 <= b < n - 1 && m.handles[b].name == rest.value && Eligible(m, m.handles[b])
          && (forall i :: 0 <= i < n - 1 && Eligible(m, m.handles[i]) ==>
              Priority(m.defs, rest.value) <= Priority(m.defs, m.handles[i].name))
          && (forall i :: 0 <= i < b && Eligible(m, m.handles[i]) ==>
              Priority(m.defs, rest.value) < Priority(m.defs, m.handles[i].name));
        assert m.handles[b].name == rest.value;
      }
    }
  }

  /** In every reachable state an open handle is eligible: connect() has marked it as having received already. */
  lemma OpenIsEligible(defs: seq<Definition>, allowed: Name, connect: Name -> Attempt, blocked: bool,
                       events: seq<Event>)
    ensures var m := Run(Start(defs, allowed, connect, blocked), events);
            && IsBest(m, |m.handles|, Active(m))
            && forall slot :: slot in m.handles ==> (Eligible(m, slot) <==> OpenSlot(m, slot))
  {
    hide Start, Paced, IsBest;
    StartHasInv(defs, allowed, connect, blocked);
    RunKeepsInv(Start(defs, allowed, connect, blocked), events);
    var m := Run(Start(defs, allowed, connect, blocked), events);
    BestIsBest(m, |m.handles|);
  }

  // ---- A late close ----

  /** Closing handle id drops the slot of some other handle. */
  ghost predicate Orphans(m: Manager, id: nat)
    requires id in m.info
  {
    exists n: Name :: Dropped(m, id, n)
  }

  ghost predicate Dropped(m: Manager, id: nat, n: Name)
    requires id in m.info
  {
    Get(m.handles, n).Some? && Get(m.handles, n).value != id && Get(HandleCloses(m, id).handles, n).None?
  }

  /** The close callback goes by name, so it drops another handle exactly when another one has taken the slot. */
  lemma LateCloseOrphans(m: Manager, id: nat)
    requires id in m.info
    ensures Orphans(m, id) <==> Get(m.handles, m.info[id].name).Some? && Get(m.handles, m.info[id].name).value != id
  {
    var name := m.info[id].name;
    forall n
      ensures Dropped(m, id, n) <==> n == name && Get(m.handles, n).Some? && Get(m.handles, n).value != id
    {
      GetWithout(m.handles, name, n);
    }
  }

  const ONE_WS: seq<Definition> := [Definition(WS, 0, true)]

  function AllOpen(name: Name): Attempt { Made(Open) }

  function NeverPrompt(name: Name): bool { false }

  const AWAY: Event := DoSetAllowed(RTC, AllOpen, NeverPrompt, false)
  const BACK: Event := DoSetAllowed(AUTO, AllOpen, NeverPrompt, false)

  lemma FirstHandle()
    ensures var s := Start(ONE_WS, AUTO, AllOpen, false);
            && s.handles == [Slot(WS, 0)] && s.timers == map[] && s.next == 1 && s.defs == ONE_WS && s.allowed == AUTO
            && s.info == map[0 := Info(WS, Open, true, false, true)]
  {
    var blank := Manager(ONE_WS, [], map[], map[], map[], AUTO, map[], 0, []);
    assert ConnectAllowed(blank, AllOpen, false, 0) == blank;
    assert Start(ONE_WS, AUTO, AllOpen, false) == Connected(blank, WS, Open);
  }

  lemma SwitchedAway(s: Manager)
    requires s.handles == [Slot(WS, 0)] && s.timers == map[] && s.next == 1 && s.defs == ONE_WS && s.allowed == AUTO
    requires s.info == map[0 := Info(WS, Open, true, false, true)]
    ensures var t := Step(s, AWAY);
            && t.handles == [] && t.timers == map[] && t.next == 1 && t.defs == ONE_WS && t.allowed == RTC
            && t.info == map[0 := Info(WS, Open, true, false, false)]
  {
    var away := s.(allowed := RTC);
    assert Names(s.handles) == [WS];
    assert DisconnectDisallowed(away, [WS], NeverPrompt, 0) == away;
    var cut := Disconnect(away, WS, false);
    assert Get(s.handles, WS) == Some(0);
    assert Without(s.handles, WS) == [];
    assert cut.handles == [] && cut.timers == map[];
    assert cut.info == map[0 := Info(WS, Open, true, false, false)];
    assert DisconnectDisallowed(away, [WS], NeverPrompt, 1) == cut;
    assert ConnectAllowed(cut, AllOpen, false, 0) == cut;
    assert ConnectAllowed(cut, AllOpen, false, 1) == cut;
  }

  lemma SwitchedBack(s: Manager)
    requires s.handles == [] && s.timers == map[] && s.next == 1 && s.defs == ONE_WS && s.allowed == RTC
    requires s.info == map[0 := Info(WS, Open, true, false, false)]
    ensures var t := Step(s, BACK);
            && t.handles == [Slot(WS, 1)] && t.timers == map[] && t.allowed == AUTO
            && t.info == map[0 := Info(WS, Open, true, false, false), 1 := Info(WS, Open, true, false, true)]
  {
    var back := s.(allowed := AUTO);
    assert Names(s.handles) == [];
    assert DisconnectDisallowed(back, [], NeverPrompt, 0) == back;
    assert ConnectAllowed(back, AllOpen, false, 0) == back;
    assert ConnectAllowed(back, AllOpen, false, 1) == Connected(back, WS, Open);
  }

  /** Switching away and back opens a second handle before the first one's close arrives; the close then drops the
      second. */
  lemma LateCloseExample()
    ensures var m := Run(Start(ONE_WS, AUTO, AllOpen, false), [AWAY, BACK]);
            && Get(m.handles, WS) == Some(1)
            && 0 in m.info && m.info[0].name == WS
            && var after := Step(m, DoClose(0));
               Get(after.handles, WS).None? && 1 in after.info && after.info[1].ready == Open && WS in after.timers
  {
    hide Start, Step;
    var s := Start(ONE_WS, AUTO, AllOpen, false);
    FirstHandle();
    SwitchedAway(s);
    SwitchedBack(Step(s, AWAY));
    assert [AWAY, BACK][..1] == [AWAY] && [AWAY][..0] == [];
    assert Run(s, []) == s && Run(s, [AWAY]) == Step(s, AWAY);
    assert Run(s, [AWAY, BACK]) == Step(Step(s, AWAY), BACK);
    SecondDropped(Run(s, [AWAY, BACK]));
  }

  lemma SecondDropped(m: Manager)
    requires m.handles == [Slot(WS, 1)] && m.timers == map[] && m.allowed == AUTO
    requires m.info == map[0 := Info(WS, Open, true, false, false), 1 := Info(WS, Open, true, false, true)]
    ensures var after := Step(m, DoClose(0));
            Get(after.handles, WS).None? && 1 in after.info && after.info[1].ready == Open && WS in after.timers
  {
    assert Without(m.handles, WS) == [];
  }

  // ---- Destroying ----

  lemma DisconnectUnplaces(m: Manager, name: Name, prompt: bool, n: Name)
    requires Core(m)
    ensures Get(Disconnect(m, name, prompt).handles, n) == if n == name then None else Get(m.handles, n)
  {
    var slot := Get(m.handles, name);
    if slot.Some? {
      GetNamed(m.handles, m.info, name);
      var silent := m.(info := m.info[slot.value := m.info[slot.value].(polling := false, stability := false)]);
      GetWithout(silent.handles, name, n);
      GetWithout(Without(silent.handles, name), name, n);
    }
  }

  lemma {:induction false} DisconnectAllCore(m: Manager, names: seq<Name>, prompt: Name -> bool, n: nat)
    requires Core(m) && n <= |names|
    ensures var d := DisconnectAll(m, names, prompt, n);
            && Core(d) && d.allowed == m.allowed
            && (forall i :: 0 <= i < n ==> Get(d.handles, names[i]).None?)
            && (forall name :: Get(m.handles, name).None? ==> Get(d.handles, name).None?)
    decreases n
  {
    hide Core, Disconnect;
    if n > 0 {
      DisconnectAllCore(m, names, prompt, n - 1);
      var before, last := DisconnectAll(m, names, prompt, n - 1), names[n - 1];
      DisconnectCore(before, last, prompt(last));
      forall name
        ensures Get(Disconnect(before, last, prompt(last)).handles, name)
             == if name == last then None else Get(before.handles, name)
      {
        DisconnectUnplaces(before, last, prompt(last), name);
      }
    }
  }

  lemma {:induction false} GetInNames(slots: seq<Slot>, name: Name)
    requires Get(slots, name).Some?
    ensures exists i :: 0 <= i < |slots| && slots[i].name == name
    decreases |slots|
  {
    if slots[0].name != name {
      GetInNames(slots[1..], name);
      var i :| 0 <= i < |slots[1..]| && slots[1..][i].name == name;
      assert slots[i + 1].name == name;
    }
  }

  /** After destroy nothing is connected or waiting, but a close arriving later starts a reconnect of an allowed
      transport. */
  lemma DestroyThenLateClose(m: Manager, prompt: Name -> bool, id: nat)
    requires Core(m)
    ensures var d := Destroy(m, prompt);
            && (forall name :: !Placed(d, name))
            && (id in d.info ==> forall name :: Placed(Step(d, DoClose(id)), name) <==>
                name == d.info[id].name && Allowed(m, name))
  {
    hide Core;
    var names := Names(m.handles);
    DisconnectAllCore(m, names, prompt, |names|);
    var d := Destroy(m, prompt);
    forall name
      ensures Get(d.handles, name).None?
    {
      if Get(m.handles, name).Some? {
        GetInNames(m.handles, name);
        var i :| 0 <= i < |m.handles| && m.handles[i].name == name;
        assert names[i] == name;
      }
    }
    if id in d.info {
      forall n
        ensures Get(Without(d.handles, d.info[id].name), n).None?
      {
        GetWithout(d.handles, d.info[id].name, n);
      }
    }
  }
}
