// The connection manager over one reliable channel (browser/js/reliable.js, ReliableMultiTransport) as functions on
// its state: connecting, closing, reconnect timers with exponential backoff, the allowed mode and the choice of the
// active transport. Handle objects are identities; what they hold is kept in info.
module Transports {
  import opened Wrappers

  type Name = string

  const AUTO: Name := "auto"
  const WS: Name := "ws"
  const RTC: Name := "rtc"
  const FIRST_DELAY: nat := 1000
  const LAST_DELAY: nat := 30000

  /** connectable: the definition has a connect function. */
  datatype Definition = Definition(name: Name, priority: int, connectable: bool)

  datatype Ready = Connecting | Open | Closed

  /** received: _lastRecv is set. polling, stability: the open check and the stability timer are running. */
  datatype Info = Info(name: Name, ready: Ready, received: bool, polling: bool, stability: bool)

  datatype Slot = Slot(name: Name, id: nat)

  /** What connect() gives: an error or nothing, or a handle in some ready state. */
  datatype Attempt = Failed | Made(ready: Ready)

  /** What the manager does to the channel, the clock and the application, in order. Stable: the connection has lasted
      five seconds; warned: onconnectfail is called; Opened: onconnect is called. */
  datatype Effect =
    | Scheduled(name: Name, delay: nat)
    | Stable(name: Name, id: nat)
    | Lost(name: Name, id: nat, warned: bool)
    | Opened(name: Name, id: nat)
    | WsReset
    | ResumeSent
    | Passed(id: nat)

  const WARN_AT: nat := 3

  /** handles keeps the order in which the names were added. */
  datatype Manager = Manager(
    defs: seq<Definition>,
    handles: seq<Slot>,
    timers: map<Name, nat>,
    backoff: map<Name, nat>,
    failures: map<Name, nat>,
    allowed: Name,
    info: map<nat, Info>,
    next: nat,
    effects: seq<Effect>)

  // ---- Handles by name ----

  function Get(slots: seq<Slot>, name: Name): Option<nat>
    decreases |slots|
  {
    if slots == [] then None
    else if slots[0].name == name then Some(slots[0].id)
    else Get(slots[1..], name)
  }

  function Without(slots: seq<Slot>, name: Name): seq<Slot>
    decreases |slots|
  {
    if slots == [] then []
    else if slots[0].name == name then Without(slots[1..], name)
    else [slots[0]] + Without(slots[1..], name)
  }

  /** Assignment to a property: in place when the name is there, at the end otherwise. */
  function With(slots: seq<Slot>, name: Name, id: nat): seq<Slot>
    decreases |slots|
  {
    if slots == [] then [Slot(name, id)]
    else if slots[0].name == name then [Slot(name, id)] + slots[1..]
    else [slots[0]] + With(slots[1..], name, id)
  }

  // ---- Definitions ----

  function Lookup(defs: seq<Definition>, name: Name): Option<Definition>
    decreases |defs|
  {
    if defs == [] then None
    else if defs[0].name == name then Some(defs[0])
    else Lookup(defs[1..], name)
  }

  predicate Connectable(defs: seq<Definition>, name: Name) {
    Lookup(defs, name).Some? && Lookup(defs, name).value.connectable
  }

  function Priority(defs: seq<Definition>, name: Name): int {
    if Lookup(defs, name).Some? then Lookup(defs, name).value.priority else 99
  }

  predicate Allowed(m: Manager, name: Name) {
    m.allowed == AUTO || m.allowed == name
  }

  // ---- The active transport ----

  predicate Eligible(m: Manager, slot: Slot) {
    slot.id in m.info && m.info[slot.id].ready == Open && m.info[slot.id].received
  }

  /** The best among the first n handles: a lower priority number wins, the earlier one on a tie. */
  function Best(m: Manager, n: nat): Option<Name>
    requires n <= |m.handles|
    decreases n
  {
    if n == 0 then None
    else
      var rest, slot := Best(m, n - 1), m.handles[n - 1];
      if Eligible(m, slot) && (rest.None? || Priority(m.defs, slot.name) < Priority(m.defs, rest.value))
      then Some(slot.name) else rest
  }

  function Active(m: Manager): Option<Name> { Best(m, |m.handles|) }

  // ---- Connecting ----

  function Schedule(m: Manager, name: Name): (r: Manager)
    ensures r.defs == m.defs && r.allowed == m.allowed
  {
    if name in m.timers then m
    else
      var delay := if name in m.backoff && m.backoff[name] != 0 then m.backoff[name] else FIRST_DELAY;
      m.(timers := m.timers[name := delay],
         backoff := m.backoff[name := if delay * 2 < LAST_DELAY then delay * 2 else LAST_DELAY],
         effects := m.effects + [Scheduled(name, delay)])
  }

  /** A handle reports open: opening ws starts the channel afresh before the resume goes out. */
  function TransportOpen(m: Manager, id: nat): (r: Manager)
    requires id in m.info
    ensures r.defs == m.defs && r.allowed == m.allowed
  {
    m.(info := m.info[id := m.info[id].(received := true, stability := true)],
       effects := m.effects + [Opened(m.info[id].name, id)]
                  + (if m.info[id].name == WS then [WsReset, ResumeSent] else [ResumeSent]))
  }

  /** connect() has returned a handle. */
  function Connected(m: Manager, name: Name, ready: Ready): (r: Manager)
    ensures r.defs == m.defs && r.allowed == m.allowed
  {
    var made := m.(info := m.info[m.next := Info(name, ready, true, ready != Open, false)], next := m.next + 1);
    var running := if ready == Open then TransportOpen(made, m.next) else made;
    running.(handles := With(m.handles, name, m.next))
  }

  function Connect(m: Manager, name: Name, attempt: Attempt, blocked: bool): (r: Manager)
    ensures r.defs == m.defs && r.allowed == m.allowed
  {
    if name == RTC && blocked then m
    else if !Allowed(m, name) then m
    else if !Connectable(m.defs, name) then m
    else
      match attempt
      case Failed => Schedule(m, name)
      case Made(ready) => Connected(m, name, ready)
  }

  predicate Idle(m: Manager, name: Name) {
    Allowed(m, name) && Get(m.handles, name).None? && name !in m.timers
  }

  /** Connects every allowed transport among the first n definitions that has neither handle nor timer. */
  function ConnectAllowed(m: Manager, connect: Name -> Attempt, blocked: bool, n: nat): (r: Manager)
    requires n <= |m.defs|
    ensures r.defs == m.defs && r.allowed == m.allowed
    decreases n
  {
    if n == 0 then m
    else
      var before := ConnectAllowed(m, connect, blocked, n - 1);
      var name := m.defs[n - 1].name;
      if Idle(before, name) then Connect(before, name, connect(name), blocked) else before
  }

  function Start(defs: seq<Definition>, allowed: Name, connect: Name -> Attempt, blocked: bool): Manager {
    ConnectAllowed(Manager(defs, [], map[], map[], map[], allowed, map[], 0, []), connect, blocked, |defs|)
  }

  // ---- Closing ----

  /** The onclose callback of a handle. It looks its slot up by name alone. */
  function HandleCloses(m: Manager, id: nat): (r: Manager)
    requires id in m.info
    ensures r.defs == m.defs && r.allowed == m.allowed
  {
    var name := m.info[id].name;
    var failures := if name in m.failures then m.failures[name] else 0;
    var closed := m.(info := m.info[id := m.info[id].(stability := false)],
                     handles := Without(m.handles, name),
                     failures := m.failures[name := failures + 1],
                     effects := m.effects + [Lost(name, id, failures + 1 == WARN_AT)]);
    if Allowed(m, name) then Schedule(closed, name) else closed
  }

  /** prompt: close() calls onclose before it returns. */
  function Disconnect(m: Manager, name: Name, prompt: bool): (r: Manager)
    ensures r.defs == m.defs && r.allowed == m.allowed
  {
    var gone :=
      match Get(m.handles, name)
      case None => m
      case Some(id) =>
        if id in m.info then
          var silent := m.(info := m.info[id := m.info[id].(polling := false, stability := false)]);
          var closed := if prompt then HandleCloses(silent, id) else silent;
          closed.(handles := Without(closed.handles, name))
        else m;
    gone.(timers := gone.timers - {name})
  }

  /** Disconnects those of the first n names that are not allowed. */
  function DisconnectDisallowed(m: Manager, names: seq<Name>, prompt: Name -> bool, n: nat): (r: Manager)
    requires n <= |names|
    ensures r.defs == m.defs && r.allowed == m.allowed
    decreases n
  {
    if n == 0 then m
    else
      var before, name := DisconnectDisallowed(m, names, prompt, n - 1), names[n - 1];
      if Allowed(before, name) then before else Disconnect(before, name, prompt(name))
  }

  function Names(slots: seq<Slot>): (names: seq<Name>)
    ensures |names| == |slots| && forall i :: 0 <= i < |slots| ==> names[i] == slots[i].name
  {
    seq(|slots|, i requires 0 <= i < |slots| => slots[i].name)
  }

  function SetAllowed(m: Manager, mode: Name, connect: Name -> Attempt, prompt: Name -> bool, blocked: bool): Manager {
    if mode == m.allowed then m
    else
      var names := Names(m.handles);
      var cut := DisconnectDisallowed(m.(allowed := mode), names, prompt, |names|);
      var joined := ConnectAllowed(cut, connect, blocked, |m.defs|);
      joined.(effects := joined.effects + [ResumeSent])
  }

  /** Disconnects the first n names. */
  function DisconnectAll(m: Manager, names: seq<Name>, prompt: Name -> bool, n: nat): Manager
    requires n <= |names|
    decreases n
  {
    if n == 0 then m
    else
      var before := DisconnectAll(m, names, prompt, n - 1);
      Disconnect(before, names[n - 1], prompt(names[n - 1]))
  }

  function Destroy(m: Manager, prompt: Name -> bool): Manager {
    var names := Names(m.handles);
    DisconnectAll(m, names, prompt, |names|).(timers := map[])
  }

  // ---- Timers ----

  function TimerFires(m: Manager, name: Name, attempt: Attempt, blocked: bool): Manager
    requires name in m.timers
  {
    var fired := m.(timers := m.timers - {name});
    if Allowed(fired, name) then Connect(fired, name, attempt, blocked) else fired
  }

  /** The five seconds after opening have passed. */
  function StabilityFires(m: Manager, id: nat): Manager
    requires id in m.info
  {
    var name := m.info[id].name;
    m.(info := m.info[id := m.info[id].(stability := false)],
       backoff := m.backoff[name := 0],
       failures := m.failures[name := 0],
       effects := m.effects + [Stable(name, id)])
  }

  /** The open check polls a handle that was still connecting. */
  function PollOpen(m: Manager, id: nat): Manager
    requires id in m.info
  {
    var done := m.(info := m.info[id := m.info[id].(polling := false)]);
    match m.info[id].ready
    case Connecting => m
    case Open => TransportOpen(done, id)
    case Closed => done
  }

  function CheckRtcBlock(m: Manager, attempt: Attempt, blocked: bool): Manager {
    if !blocked && Idle(m, RTC) then Connect(m, RTC, attempt, blocked) else m
  }

  /** Data arrives on a handle and goes to the channel. */
  function HandleReceives(m: Manager, id: nat): Manager
    requires id in m.info
  {
    m.(info := m.info[id := m.info[id].(received := true)], effects := m.effects + [Passed(id)])
  }

  /** The adapter changes its ready state on its own. */
  function ReadyChanges(m: Manager, id: nat, ready: Ready): Manager
    requires id in m.info
  {
    m.(info := m.info[id := m.info[id].(ready := ready)])
  }

  // ---- Runs ----

  datatype Event =
    | DoSetAllowed(mode: Name, connect: Name -> Attempt, prompt: Name -> bool, blocked: bool)
    | DoClose(id: nat)
    | DoTimer(name: Name, attempt: Attempt, blocked: bool)
    | DoStability(id: nat)
    | DoPoll(id: nat)
    | DoCheckRtc(attempt: Attempt, blocked: bool)
    | DoData(id: nat)
    | DoReady(id: nat, ready: Ready)

  /** Events on handles that do not exist, or timers that are not set, change nothing. */
  function Step(m: Manager, e: Event): Manager {
    match e
    case DoSetAllowed(mode, connect, prompt, blocked) => SetAllowed(m, mode, connect, prompt, blocked)
    case DoClose(id) => if id in m.info then HandleCloses(m, id) else m
    case DoTimer(name, attempt, blocked) => if name in m.timers then TimerFires(m, name, attempt, blocked) else m
    case DoStability(id) => if id in m.info && m.info[id].stability then StabilityFires(m, id) else m
    case DoPoll(id) => if id in m.info && m.info[id].polling then PollOpen(m, id) else m
    case DoCheckRtc(attempt, blocked) => CheckRtcBlock(m, attempt, blocked)
    case DoData(id) => if id in m.info then HandleReceives(m, id) else m
    case DoReady(id, ready) => if id in m.info then ReadyChanges(m, id, ready) else m
  }

  function Run(m: Manager, events: seq<Event>): Manager
    decreases |events|
  {
    if events == [] then m
    else Step(Run(m, events[..|events| - 1]), events[|events| - 1])
  }
}
