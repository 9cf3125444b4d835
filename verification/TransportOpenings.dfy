// What the manager does when handles open and close, over every run: a handle opens once, opening ws resets the
// channel and no other opening does, every opening sends one resume, and only a connection that has stayed open counts
// as stable (browser/js/reliable.js:492-797).
module TransportOpenings {
  import opened Transports
  import opened TransportSafety
  import opened Wrappers

  // ---- The order of effects ----

  /** Every opening is followed at once by its resume, for ws with a reset between them; no other reset or resume. */
  predicate Tidy(effects: seq<Effect>)
    decreases |effects|
  {
    effects == []
    || match effects[0]
       case Opened(name, _) =>
         if name == WS
         then |effects| >= 3 && effects[1] == WsReset && effects[2] == ResumeSent && Tidy(effects[3..])
         else |effects| >= 2 && effects[1] == ResumeSent && Tidy(effects[2..])
       case WsReset => false
       case ResumeSent => false
       case _ => Tidy(effects[1..])
  }

  /** The handles opened, in order. */
  function Openings(effects: seq<Effect>): seq<nat>
    decreases |effects|
  {
    if effects == [] then []
    else (if effects[0].Opened? then [effects[0].id] else []) + Openings(effects[1..])
  }

  lemma {:induction false} TidyConcat(a: seq<Effect>, b: seq<Effect>)
    requires Tidy(a) && Tidy(b)
    ensures Tidy(a + b)
    decreases |a|
  {
    if a == [] {
      assert a + b == b;
    } else {
      var k := if !a[0].Opened? then 1 else if a[0].name == WS then 3 else 2;
      assert (a + b)[k..] == a[k..] + b;
      TidyConcat(a[k..], b);
    }
  }

  lemma {:induction false} OpeningsConcat(a: seq<Effect>, b: seq<Effect>)
    ensures Openings(a + b) == Openings(a) + Openings(b)
    decreases |a|
  {
    hide Openings;
    if a == [] {
      assert a + b == b;
      NoneOpened();
    } else {
      assert (a + b)[1..] == a[1..] + b;
      OpeningsConcat(a[1..], b);
      OpeningsFirst(a);
      OpeningsFirst(a + b);
    }
  }

  lemma OpeningsFirst(effects: seq<Effect>)
    requires effects != []
    ensures Openings(effects) == (if effects[0].Opened? then [effects[0].id] else []) + Openings(effects[1..])
  {
  }

  lemma {:induction false} OpeningsHas(effects: seq<Effect>, id: nat)
    ensures id in Openings(effects) <==> exists i :: 0 <= i < |effects| && effects[i].Opened? && effects[i].id == id
    decreases |effects|
  {
    if effects != [] {
      OpeningsHas(effects[1..], id);
      if id in Openings(effects[1..]) {
        var i :| 0 <= i < |effects[1..]| && effects[1..][i].Opened? && effects[1..][i].id == id;
        assert effects[i + 1].Opened? && effects[i + 1].id == id;
      }
      if i :| 0 <= i < |effects| && effects[i].Opened? && effects[i].id == id {
        assert i > 0 ==> effects[1..][i - 1] == effects[i];
      }
    }
  }

  /** The last thing that happened to a handle. */
  function LastAbout(effects: seq<Effect>, id: nat): Option<Effect>
    decreases |effects|
  {
    if effects == [] then None
    else
      var e := effects[|effects| - 1];
      if (e.Opened? || e.Lost? || e.Stable?) && e.id == id then Some(e) else LastAbout(effects[..|effects| - 1], id)
  }

  predicate StandsOpen(effects: seq<Effect>, id: nat) {
    LastAbout(effects, id).Some? && LastAbout(effects, id).value.Opened?
  }

  lemma LastAboutSnoc(effects: seq<Effect>, e: Effect, id: nat)
    ensures LastAbout(effects + [e], id)
         == if (e.Opened? || e.Lost? || e.Stable?) && e.id == id then Some(e) else LastAbout(effects, id)
  {
    assert (effects + [e])[..|effects|] == effects;
  }

  // ---- Connecting ----

  /** The effects that n has more than m. */
  function Added(m: Manager, n: Manager): seq<Effect> {
    if m.effects <= n.effects then n.effects[|m.effects|..] else []
  }

  ghost predicate Numbered(m: Manager) { forall id :: id in m.info ==> id < m.next }

  predicate Increasing(ids: seq<nat>, low: nat, high: nat) {
    && (forall i :: 0 <= i < |ids| ==> low <= ids[i] < high)
    && (forall i, j :: 0 <= i < j < |ids| ==> ids[i] < ids[j])
  }

  /** A new handle is open or is being polled. */
  predicate Begun(info: Info) { info.polling == (info.ready != Open) && info.stability == (info.ready == Open) }

  /** New handles appear, the old ones stay as they are. */
  ghost predicate NewHandles(m: Manager, n: Manager) {
    && m.next <= n.next
    && (forall id :: id in m.info ==> id in n.info && n.info[id] == m.info[id])
    && (forall id :: id in n.info && id !in m.info ==> m.next <= id < n.next && Begun(n.info[id]))
    && (forall s :: s in n.handles ==> s in m.handles || s.id !in m.info)
  }

  /** Only handles that open, and timers. */
  ghost predicate OnlyOpens(effects: seq<Effect>, info: map<nat, Info>) {
    forall e :: e in effects ==>
      && !e.Lost? && !e.Stable? && !e.Passed?
      && (e.Opened? ==> e.id in info && info[e.id].name == e.name)
  }

  /** Exactly the new handles that are open have been opened, each once. */
  ghost predicate OpensNew(m: Manager, n: Manager, ids: seq<nat>) {
    && Increasing(ids, m.next, n.next)
    && forall id :: id in ids <==> id in n.info && id !in m.info && n.info[id].ready == Open
  }

  ghost predicate Joining(m: Manager, n: Manager) {
    && m.effects <= n.effects && Tidy(Added(m, n)) && OnlyOpens(Added(m, n), n.info)
    && NewHandles(m, n) && OpensNew(m, n, Openings(Added(m, n)))
  }

  lemma NothingConnects(m: Manager)
    ensures Joining(m, m)
  {
    assert Added(m, m) == [];
  }

  lemma JoiningTwice(m: Manager, n: Manager, p: Manager)
    requires Numbered(m) && Joining(m, n) && Joining(n, p)
    ensures Joining(m, p) && Numbered(n)
  {
    hide Tidy, Openings, OpensNew, NewHandles, OnlyOpens;
    var a, b := Added(m, n), Added(n, p);
    assert Added(m, p) == a + b;
    TidyConcat(a, b);
    OpeningsConcat(a, b);
    NewTwice(m, n, p);
    OnlyOpensTwice(a, b, n, p);
    OpensTwice(m, n, p, Openings(a), Openings(b));
  }

  lemma NewTwice(m: Manager, n: Manager, p: Manager)
    requires Numbered(m) && NewHandles(m, n) && NewHandles(n, p)
    ensures NewHandles(m, p) && Numbered(n)
  {
  }

  lemma OnlyOpensTwice(a: seq<Effect>, b: seq<Effect>, n: Manager, p: Manager)
    requires OnlyOpens(a, n.info) && OnlyOpens(b, p.info) && NewHandles(n, p)
    ensures OnlyOpens(a + b, p.info)
  {
    forall e | e in a + b
      ensures !e.Lost? && !e.Stable? && !e.Passed?
      ensures e.Opened? ==> e.id in p.info && p.info[e.id].name == e.name
    {
      assert e in a || e in b;
    }
  }

  lemma OpensTwice(m: Manager, n: Manager, p: Manager, a: seq<nat>, b: seq<nat>)
    requires NewHandles(m, n) && NewHandles(n, p) && OpensNew(m, n, a) && OpensNew(n, p, b) && Numbered(m)
    ensures OpensNew(m, p, a + b)
  {
    forall id
      ensures id in a + b <==> id in p.info && id !in m.info && p.info[id].ready == Open
    {
      assert id in a + b <==> id in a || id in b;
    }
  }

  lemma ScheduleConnects(m: Manager, name: Name)
    ensures Joining(m, Schedule(m, name))
  {
    var n := Schedule(m, name);
    if name in m.timers {
      NothingConnects(m);
    } else {
      assert Added(m, n) == [n.effects[|m.effects|]];
      assert n.effects[|m.effects|..][1..] == [];
    }
  }

  lemma {:induction false} WithHas(slots: seq<Slot>, name: Name, id: nat, s: Slot)
    requires s in With(slots, name, id)
    ensures s in slots || s == Slot(name, id)
    decreases |slots|
  {
    if slots != [] && slots[0].name != name && s != slots[0] {
      WithHas(slots[1..], name, id, s);
    }
  }

  /** What one opening adds. */
  function OpeningOf(name: Name, id: nat): seq<Effect> {
    [Opened(name, id)] + (if name == WS then [WsReset, ResumeSent] else [ResumeSent])
  }

  lemma OpeningTidy(name: Name, id: nat)
    ensures Tidy(OpeningOf(name, id)) && Openings(OpeningOf(name, id)) == [id]
  {
    var o := OpeningOf(name, id);
    NoneOpened();
    if name == WS {
      assert o == [Opened(name, id)] + ([WsReset] + [ResumeSent]) && o[3..] == [];
      OpeningsConcat([Opened(name, id)], [WsReset] + [ResumeSent]);
      OpeningsConcat([WsReset], [ResumeSent]);
      OpeningsOne(WsReset);
    } else {
      assert o[2..] == [];
      OpeningsConcat([Opened(name, id)], [ResumeSent]);
    }
    OpeningsOne(Opened(name, id));
    OpeningsOne(ResumeSent);
  }

  lemma OpeningsOne(e: Effect)
    ensures Openings([e]) == if e.Opened? then [e.id] else []
  {
    assert [e][1..] == [];
  }

  lemma ConnectedConnects(m: Manager, name: Name, ready: Ready)
    requires Numbered(m)
    ensures Joining(m, Connected(m, name, ready))
  {
    hide Tidy, Openings, With, NewHandles, OpensNew, OnlyOpens;
    var n := Connected(m, name, ready);
    NoneOpened();
    OpeningTidy(name, m.next);
    var d := if ready == Open then OpeningOf(name, m.next) else [];
    assert n.effects == m.effects + d;
    assert Added(m, n) == d;
    MadeHandle(m, name, ready);
    OneOpens(m, n, d, ready == Open);
  }

  lemma MadeHandle(m: Manager, name: Name, ready: Ready)
    requires Numbered(m)
    ensures var n := Connected(m, name, ready);
            && NewHandles(m, n) && n.info.Keys == m.info.Keys + {m.next} && n.next == m.next + 1
            && n.info[m.next].name == name && n.info[m.next].ready == ready
  {
    hide With;
    var n := Connected(m, name, ready);
    forall s | s in n.handles
      ensures s in m.handles || s.id !in m.info
    {
      WithHas(m.handles, name, m.next, s);
    }
  }

  lemma OneOpens(m: Manager, n: Manager, d: seq<Effect>, open: bool)
    requires Numbered(m) && n.info.Keys == m.info.Keys + {m.next} && n.next == m.next + 1
    requires open <==> n.info[m.next].ready == Open
    requires d == if open then OpeningOf(n.info[m.next].name, m.next) else []
    ensures OnlyOpens(d, n.info) && OpensNew(m, n, if open then [m.next] else [])
  {
  }

  lemma NoneOpened()
    ensures Openings([]) == [] && Tidy([])
  {
  }

  lemma ConnectConnects(m: Manager, name: Name, attempt: Attempt, blocked: bool)
    requires Numbered(m)
    ensures Joining(m, Connect(m, name, attempt, blocked))
  {
    hide Joining, Connected, Schedule, Connectable;
    NothingConnects(m);
    match attempt
    case Failed => ScheduleConnects(m, name);
    case Made(ready) => ConnectedConnects(m, name, ready);
  }

  lemma {:induction false} ConnectAllowedConnects(m: Manager, connect: Name -> Attempt, blocked: bool, n: nat)
    requires Numbered(m) && n <= |m.defs|
    ensures Joining(m, ConnectAllowed(m, connect, blocked, n))
    decreases n
  {
    hide Joining, Connect, Numbered, Idle;
    NothingConnects(m);
    if n > 0 {
      ConnectAllowedConnects(m, connect, blocked, n - 1);
      var before, name := ConnectAllowed(m, connect, blocked, n - 1), m.defs[n - 1].name;
      NothingConnects(before);
      StillNumbered(m, before);
      ConnectConnects(before, name, connect(name), blocked);
      JoiningTwice(m, before, ConnectAllowed(m, connect, blocked, n));
    }
  }

  lemma StillNumbered(m: Manager, n: Manager)
    requires Numbered(m) && Joining(m, n)
    ensures Numbered(n)
  {
    hide Tidy, Openings;
  }

  // ---- Closing ----

  predicate LostIn(effects: seq<Effect>, id: nat) {
    exists e :: e in effects && e.Lost? && e.id == id
  }

  predicate OnlyLoses(effects: seq<Effect>) { forall e :: e in effects ==> e.Lost? || e.Scheduled? }

  /** Timers of a handle may have been stopped. */
  predicate Weakened(before: Info, after: Info) {
    && after.name == before.name && after.ready == before.ready && after.received == before.received
    && (after.polling ==> before.polling) && (after.stability ==> before.stability)
  }

  /** Slots are dropped; the timers of handles that are still held run on, and what is lost is not stable any more. */
  ghost predicate Cutting(m: Manager, n: Manager) {
    && m.effects <= n.effects && m.next == n.next && m.info.Keys == n.info.Keys && OnlyLoses(Added(m, n))
    && (forall id :: id in m.info ==> Weakened(m.info[id], n.info[id]))
    && (forall s :: s in n.handles ==> s in m.handles && !LostIn(Added(m, n), s.id))
    && (forall s :: s in n.handles && s.id in m.info ==> n.info[s.id] == m.info[s.id])
    && (forall id :: id in n.info && LostIn(Added(m, n), id) ==> !n.info[id].stability)
  }

  lemma NothingCut(m: Manager)
    ensures Cutting(m, m)
  {
    assert Added(m, m) == [];
  }

  lemma LostConcat(a: seq<Effect>, b: seq<Effect>, id: nat)
    ensures LostIn(a + b, id) <==> LostIn(a, id) || LostIn(b, id)
  {
    if e :| e in a && e.Lost? && e.id == id {
      assert e in a + b;
    }
    if e :| e in b && e.Lost? && e.id == id {
      assert e in a + b;
    }
  }

  lemma CuttingTwice(m: Manager, n: Manager, p: Manager)
    requires Cutting(m, n) && Cutting(n, p)
    ensures Cutting(m, p)
  {
    hide LostIn;
    var a, b := Added(m, n), Added(n, p);
    assert Added(m, p) == a + b;
    forall id
      ensures LostIn(Added(m, p), id) <==> LostIn(a, id) || LostIn(b, id)
    {
      LostConcat(a, b, id);
    }
  }

  lemma {:induction false} WithoutHas(slots: seq<Slot>, name: Name, s: Slot)
    ensures s in Without(slots, name) <==> s in slots && s.name != name
    decreases |slots|
  {
    if slots != [] {
      WithoutHas(slots[1..], name, s);
    }
  }

  /** Dropping a slot after stopping timers of its handle. */
  lemma DropCuts(m: Manager, id: nat, change: Info, name: Name)
    requires Named(m.handles, m.info) && id in m.info && Weakened(m.info[id], change) && name == m.info[id].name
    ensures Cutting(m, m.(info := m.info[id := change], handles := Without(m.handles, name)))
  {
    var n := m.(info := m.info[id := change], handles := Without(m.handles, name));
    assert Added(m, n) == [];
    forall s | s in n.handles
      ensures s in m.handles && s.id != id
    {
      WithoutHas(m.handles, name, s);
    }
  }

  /** A loss is logged after its slot has gone. */
  lemma LossCuts(m: Manager, n: Manager, e: Effect)
    requires n == m.(effects := n.effects, timers := n.timers, backoff := n.backoff, failures := n.failures)
    requires n.effects == m.effects + [e] && (e.Scheduled? || e.Lost?)
    requires e.Lost? ==> (forall s :: s in m.handles ==> s.id != e.id) && (e.id in m.info ==> !m.info[e.id].stability)
    ensures Cutting(m, n)
  {
    assert Added(m, n) == [e];
    assert e in Added(m, n);
  }

  lemma ScheduleCuts(m: Manager, name: Name)
    ensures Cutting(m, Schedule(m, name))
  {
    if name in m.timers {
      NothingCut(m);
    } else {
      var n := Schedule(m, name);
      LossCuts(m, n, n.effects[|m.effects|]);
    }
  }

  lemma HandleClosesCuts(m: Manager, id: nat)
    requires Named(m.handles, m.info) && id in m.info
    ensures Cutting(m, HandleCloses(m, id))
  {
    hide Cutting, Without, Schedule;
    var name := m.info[id].name;
    var failures := if name in m.failures then m.failures[name] else 0;
    DropCuts(m, id, m.info[id].(stability := false), name);
    var gone := m.(info := m.info[id := m.info[id].(stability := false)], handles := Without(m.handles, name));
    var e := Lost(name, id, failures + 1 == WARN_AT);
    var closed := gone.(failures := m.failures[name := failures + 1], effects := m.effects + [e]);
    forall s | s in gone.handles
      ensures s.id != id
    {
      WithoutHas(m.handles, name, s);
    }
    LossCuts(gone, closed, e);
    CuttingTwice(m, gone, closed);
    ScheduleCuts(closed, name);
    CuttingTwice(m, closed, Schedule(closed, name));
  }

  lemma DropTimersCuts(m: Manager, timers: map<Name, nat>)
    ensures Cutting(m, m.(timers := timers))
  {
    assert Added(m, m.(timers := timers)) == [];
  }

  lemma StopCuts(m: Manager, n: Manager, name: Name)
    requires n == m.(handles := Without(m.handles, name))
    ensures Cutting(m, n)
  {
    assert Added(m, n) == [];
    forall s | s in n.handles
      ensures s in m.handles
    {
      WithoutHas(m.handles, name, s);
    }
  }

  /** Stopping the timers of a handle and dropping its slot, with or without its close callback between. */
  lemma DisconnectCuts(m: Manager, name: Name, prompt: bool)
    requires Core(m)
    ensures Cutting(m, Disconnect(m, name, prompt))
  {
    hide Cutting, Core, HandleCloses, Without;
    CoreNamed(m);
    var slot := Get(m.handles, name);
    if slot.None? {
      DropTimersCuts(m, m.timers - {name});
    } else {
      var id := slot.value;
      GetNamed(m.handles, m.info, name);
      var change := m.info[id].(polling := false, stability := false);
      var silent := m.(info := m.info[id := change]);
      QuietInfo(m, id, change);
      CoreNamed(silent);
      var closed := if prompt then HandleCloses(silent, id) else silent;
      var gone := closed.(handles := Without(closed.handles, name));
      if prompt {
        PromptCloseCuts(m, id, change);
        StopCuts(closed, gone, name);
        CuttingTwice(m, closed, gone);
      } else {
        DropCuts(m, id, change, name);
      }
      DropTimersCuts(gone, gone.timers - {name});
      CuttingTwice(m, gone, gone.(timers := gone.timers - {name}));
    }
  }

  lemma PromptCloseCuts(m: Manager, id: nat, change: Info)
    requires Named(m.handles, m.info) && id in m.info && change == m.info[id].(polling := false, stability := false)
    ensures Cutting(m, HandleCloses(m.(info := m.info[id := change]), id))
  {
    hide Without, Schedule, LostIn;
    var silent := m.(info := m.info[id := change]);
    var c := HandleCloses(silent, id);
    SameNames(m.handles, m.info, silent.info);
    HandleClosesCuts(silent, id);
    assert Added(silent, c) == Added(m, c);
    forall s | s in c.handles
      ensures s.id != id
    {
      ClosedGone(silent, id, s);
    }
  }

  lemma ClosedGone(m: Manager, id: nat, s: Slot)
    requires id in m.info && Named(m.handles, m.info) && s in HandleCloses(m, id).handles
    ensures s.id != id
  {
    hide Without;
    var name := m.info[id].name;
    assert HandleCloses(m, id).handles == Without(m.handles, name);
    WithoutHas(m.handles, name, s);
  }

  lemma {:induction false} DisconnectDisallowedCuts(m: Manager, names: seq<Name>, prompt: Name -> bool, n: nat)
    requires Core(m) && n <= |names|
    ensures Cutting(m, DisconnectDisallowed(m, names, prompt, n))
    decreases n
  {
    hide Cutting, Core, Disconnect;
    NothingCut(m);
    if n > 0 {
      DisconnectDisallowedCuts(m, names, prompt, n - 1);
      DisconnectDisallowedCore(m, names, prompt, n - 1);
      var before := DisconnectDisallowed(m, names, prompt, n - 1);
      DisconnectCuts(before, names[n - 1], prompt(names[n - 1]));
      CuttingTwice(m, before, Disconnect(before, names[n - 1], prompt(names[n - 1])));
    }
  }
}
