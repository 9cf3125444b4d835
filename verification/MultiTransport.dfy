// The connection manager as the object it is: every callback and public call updates the fields in place and is proved
// to do what the state function of the same name in Transports says.
module MultiTransport {
  import opened Wrappers
  import T = Transports

  class ReliableMultiTransport {
    const defs: seq<T.Definition>
    var handles: seq<T.Slot>
    var timers: map<T.Name, nat>
    var backoff: map<T.Name, nat>
    var failures: map<T.Name, nat>
    var allowed: T.Name
    var info: map<nat, T.Info>
    var next: nat
    /** What was done to the channel and the clock so far. */
    ghost var effects: seq<T.Effect>

    ghost function View(): T.Manager
      reads this
    {
      T.Manager(defs, handles, timers, backoff, failures, allowed, info, next, effects)
    }

    constructor (defs: seq<T.Definition>, allowed: T.Name, connect: T.Name -> T.Attempt, blocked: bool)
      ensures View() == T.Start(defs, allowed, connect, blocked)
    {
      this.defs := defs;
      this.allowed := allowed;
      handles, timers, backoff, failures, info, next, effects := [], map[], map[], map[], map[], 0, [];
      new;
      ConnectAllowed(connect, blocked);
    }

    method IsAllowed(name: T.Name) returns (ok: bool)
      ensures ok <==> T.Allowed(View(), name)
    {
      if allowed == T.AUTO {
        return true;
      }
      return allowed == name;
    }

    /** The best open transport that has received something. */
    method ActiveName() returns (best: Option<T.Name>)
      ensures best == T.Active(View())
    {
      hide T.Eligible;
      best := None;
      var bestPri := 0;
      var i := 0;
      while i < |handles|
        invariant 0 <= i <= |handles| && best == T.Best(View(), i)
        invariant best.Some? ==> bestPri == T.Priority(defs, best.value)
      {
        var slot := handles[i];
        var eligible := IsEligible(slot);
        if eligible {
          var pri := T.Priority(defs, slot.name);
          if best.None? || pri < bestPri {
            bestPri := pri;
            best := Some(slot.name);
          }
        }
        i := i + 1;
      }
    }

    method IsEligible(slot: T.Slot) returns (ok: bool)
      ensures ok <==> T.Eligible(View(), slot)
    {
      ok := slot.id in info && info[slot.id].ready == T.Open && info[slot.id].received;
    }

    method ScheduleReconnect(name: T.Name)
      modifies `timers, `backoff, `effects
      ensures View() == T.Schedule(old(View()), name)
    {
      if name in timers {
        return;
      }
      var delay := T.FIRST_DELAY;
      if name in backoff && backoff[name] != 0 {
        delay := backoff[name];
      }
      backoff := backoff[name := if delay * 2 < T.LAST_DELAY then delay * 2 else T.LAST_DELAY];
      timers := timers[name := delay];
      effects := effects + [T.Scheduled(name, delay)];
    }

    method OnTransportOpen(id: nat)
      requires id in info
      modifies `info, `effects
      ensures View() == T.TransportOpen(old(View()), id)
    {
      info := info[id := info[id].(received := true)];
      info := info[id := info[id].(stability := true)];
      effects := effects + [T.Opened(info[id].name, id)];
      if info[id].name == T.WS {
        effects := effects + [T.WsReset];
      }
      effects := effects + [T.ResumeSent];
    }

    method ConnectTransport(name: T.Name, attempt: T.Attempt, blocked: bool)
      modifies `handles, `timers, `backoff, `info, `next, `effects
      ensures View() == T.Connect(old(View()), name, attempt, blocked)
    {
      hide T.Schedule, T.TransportOpen, T.With;
      if name == T.RTC && blocked {
        return;
      }
      var ok := IsAllowed(name);
      if !ok || !T.Connectable(defs, name) {
        return;
      }
      if attempt.Failed? {
        ScheduleReconnect(name);
        return;
      }
      var id := next;
      next := next + 1;
      info := info[id := T.Info(name, attempt.ready, true, attempt.ready != T.Open, false)];
      if attempt.ready == T.Open {
        OnTransportOpen(id);
      }
      handles := T.With(handles, name, id);
    }

    /** Connects all allowed transports that are not connected or waiting. */
    method ConnectAllowed(connect: T.Name -> T.Attempt, blocked: bool)
      modifies `handles, `timers, `backoff, `info, `next, `effects
      ensures View() == T.ConnectAllowed(old(View()), connect, blocked, |defs|)
    {
      hide T.Connect;
      var i := 0;
      while i < |defs|
        invariant 0 <= i <= |defs| && allowed == old(allowed) && failures == old(failures)
        invariant View() == T.ConnectAllowed(old(View()), connect, blocked, i)
      {
        var name := defs[i].name;
        var ok := IsAllowed(name);
        if ok && T.Get(handles, name).None? && name !in timers {
          ConnectTransport(name, connect(name), blocked);
        }
        i := i + 1;
      }
    }

    /** The onclose callback of handle id. */
    method OnClose(id: nat)
      requires id in info
      modifies `handles, `timers, `backoff, `failures, `info, `effects
      ensures View() == T.HandleCloses(old(View()), id)
    {
      hide T.Schedule;
      var name := info[id].name;
      info := info[id := info[id].(stability := false)];
      handles := T.Without(handles, name);
      failures := failures[name := (if name in failures then failures[name] else 0) + 1];
      effects := effects + [T.Lost(name, id, failures[name] == T.WARN_AT)];
      var ok := IsAllowed(name);
      if ok {
        ScheduleReconnect(name);
      }
    }

    method DisconnectTransport(name: T.Name, prompt: bool)
      modifies `handles, `timers, `backoff, `failures, `info, `effects
      ensures View() == T.Disconnect(old(View()), name, prompt)
    {
      hide T.HandleCloses, T.Without;
      var slot := T.Get(handles, name);
      if slot.Some? && slot.value in info {
        var id := slot.value;
        info := info[id := info[id].(polling := false)];
        info := info[id := info[id].(stability := false)];
        assert View() == old(View()).(info := old(info)[id := old(info)[id].(polling := false, stability := false)]);
        if prompt {
          OnClose(id);
        }
        handles := T.Without(handles, name);
      }
      timers := timers - {name};
    }

    method SetAllowedTransports(mode: T.Name, connect: T.Name -> T.Attempt, prompt: T.Name -> bool, blocked: bool)
      modifies this
      ensures View() == T.SetAllowed(old(View()), mode, connect, prompt, blocked)
    {
      hide T.ConnectAllowed;
      var prev := allowed;
      allowed := mode;
      if prev != mode {
        DisconnectOthers(T.Names(handles), prompt);
        ConnectAllowed(connect, blocked);
        effects := effects + [T.ResumeSent];
      }
    }

    /** Disconnects the named transports that are not allowed any more. */
    method DisconnectOthers(names: seq<T.Name>, prompt: T.Name -> bool)
      modifies `handles, `timers, `backoff, `failures, `info, `effects
      ensures View() == T.DisconnectDisallowed(old(View()), names, prompt, |names|)
    {
      hide T.Disconnect;
      var i := 0;
      while i < |names|
        invariant 0 <= i <= |names|
        invariant View() == T.DisconnectDisallowed(old(View()), names, prompt, i)
      {
        var ok := IsAllowed(names[i]);
        if !ok {
          DisconnectTransport(names[i], prompt(names[i]));
        }
        i := i + 1;
      }
    }

    method Destroy(prompt: T.Name -> bool)
      modifies this
      ensures View() == T.Destroy(old(View()), prompt)
    {
      DisconnectEach(T.Names(handles), prompt);
      timers := map[];
    }

    method DisconnectEach(names: seq<T.Name>, prompt: T.Name -> bool)
      modifies `handles, `timers, `backoff, `failures, `info, `effects
      ensures View() == T.DisconnectAll(old(View()), names, prompt, |names|)
    {
      hide T.Disconnect;
      var i := 0;
      while i < |names|
        invariant 0 <= i <= |names|
        invariant View() == T.DisconnectAll(old(View()), names, prompt, i)
      {
        DisconnectTransport(names[i], prompt(names[i]));
        i := i + 1;
      }
    }

    /** A reconnect timer runs out. */
    method OnTimer(name: T.Name, attempt: T.Attempt, blocked: bool)
      requires name in timers
      modifies this
      ensures View() == T.TimerFires(old(View()), name, attempt, blocked)
    {
      hide T.Connect;
      timers := timers - {name};
      var ok := IsAllowed(name);
      if ok {
        ConnectTransport(name, attempt, blocked);
      }
    }

    /** The connection has been open for five seconds. */
    method OnStable(id: nat)
      requires id in info
      modifies this
      ensures View() == T.StabilityFires(old(View()), id)
    {
      var name := info[id].name;
      info := info[id := info[id].(stability := false)];
      backoff := backoff[name := 0];
      failures := failures[name := 0];
      effects := effects + [T.Stable(name, id)];
    }

    /** The open check looks at a handle that was connecting. */
    method OnPoll(id: nat)
      requires id in info
      modifies this
      ensures View() == T.PollOpen(old(View()), id)
    {
      if info[id].ready == T.Open {
        info := info[id := info[id].(polling := false)];
        OnTransportOpen(id);
      } else if info[id].ready == T.Closed {
        info := info[id := info[id].(polling := false)];
      }
    }

    method CheckRtcBlock(attempt: T.Attempt, blocked: bool)
      modifies this
      ensures View() == T.CheckRtcBlock(old(View()), attempt, blocked)
    {
      hide T.Connect;
      var ok := IsAllowed(T.RTC);
      if !blocked && ok && T.Get(handles, T.RTC).None? && T.RTC !in timers {
        ConnectTransport(T.RTC, attempt, blocked);
      }
    }

    /** Data on a handle refreshes it and goes to the channel. */
    method OnMessage(id: nat)
      requires id in info
      modifies this
      ensures View() == T.HandleReceives(old(View()), id)
    {
      info := info[id := info[id].(received := true)];
      effects := effects + [T.Passed(id)];
    }
  }
}
