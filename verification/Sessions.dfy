// The connection manager and its channel together: what opening, closing and switching transports does to the session
// (browser/js/reliable.js:634-637, 712-759). The manager's log says what it does to the channel; over every run the
// channel goes through one run of its own in which it starts over exactly when a ws handle opens.
module Sessions {
  import opened Octets
  import opened Codec
  import C = Channel
  import S = SendBuffer
  import T = Transports
  import opened TransportSafety
  import opened TransportOpenings
  import opened OpeningRuns

  // ---- The channel driven by the log ----

  function Then(o: C.Outcome, p: C.Outcome): C.Outcome {
    C.Outcome(p.state, o.wire + p.wire, o.handed + p.handed, o.messages + p.messages)
  }

  /** What one entry of the log means for the channel; data is what arrives on a handle. */
  function Apply(c: C.State, e: T.Effect, data: bytes): C.Outcome {
    match e
    case WsReset => C.Quiet(c.(nextSeq := 1, sendBuffer := [], lastAck := 0, lastContiguous := 0, reorder := map[]))
    case ResumeSent => C.SendResume(c)
    case Passed(_) => C.Receive(c, data)
    case _ => C.Quiet(c)
  }

  function Drive(c: C.State, effects: seq<T.Effect>, data: bytes): C.Outcome
    decreases |effects|
  {
    if effects == [] then C.Quiet(c)
    else
      var o := Apply(c, effects[0], data);
      Then(o, Drive(o.state, effects[1..], data))
  }

  /** The channel going through events of its own. */
  function Perform(c: C.State, events: seq<S.Event>): C.Outcome
    requires c.maxFrame >= 1
    decreases |events|
  {
    if events == [] then C.Quiet(c)
    else
      S.StepKeepsLimits(c, events[0]);
      var o := S.Step(c, events[0]);
      Then(o, Perform(o.state, events[1..]))
  }

  /** The opening of a transport, seen from the channel. */
  function OpeningEvent(name: T.Name): S.Event { if name == T.WS then S.DoWsOpen else S.DoSendResume }

  function Script(effects: seq<T.Effect>, data: bytes): seq<S.Event>
    decreases |effects|
  {
    if effects == [] then []
    else
      (match effects[0]
       case Opened(name, _) => [OpeningEvent(name)]
       case Passed(_) => [S.DoReceive(data)]
       case _ => [])
      + Script(effects[1..], data)
  }

  lemma ThenNothing(o: C.Outcome)
    ensures Then(o, C.Quiet(o.state)) == o
    ensures Then(C.Quiet(o.state), o) == o
  {
  }

  lemma ThenThen(o: C.Outcome, p: C.Outcome, q: C.Outcome)
    ensures Then(Then(o, p), q) == Then(o, Then(p, q))
  {
  }

  lemma {:induction false} DriveConcat(c: C.State, a: seq<T.Effect>, b: seq<T.Effect>, data: bytes)
    ensures Drive(c, a + b, data) == Then(Drive(c, a, data), Drive(Drive(c, a, data).state, b, data))
    decreases |a|
  {
    hide Apply, Then;
    if a == [] {
      assert a + b == b;
      ThenNothing(Drive(c, b, data));
      QuietFirst(c, Drive(c, b, data));
    } else {
      var o := Apply(c, a[0], data);
      assert (a + b)[1..] == a[1..] + b;
      DriveConcat(o.state, a[1..], b, data);
      ThenThen(o, Drive(o.state, a[1..], data), Drive(Drive(o.state, a[1..], data).state, b, data));
      ThenState(o, Drive(o.state, a[1..], data));
    }
  }

  lemma ThenState(o: C.Outcome, p: C.Outcome)
    ensures Then(o, p).state == p.state
  {
  }

  lemma QuietFirst(c: C.State, o: C.Outcome)
    ensures Then(C.Quiet(c), o) == o
  {
  }

  lemma DriveOne(c: C.State, e: T.Effect, data: bytes)
    ensures Drive(c, [e], data) == Apply(c, e, data)
  {
    hide Apply;
    assert [e][1..] == [];
  }

  lemma {:induction false} PerformConcat(c: C.State, a: seq<S.Event>, b: seq<S.Event>)
    requires c.maxFrame >= 1
    ensures Perform(c, a).state.maxFrame == c.maxFrame
    ensures Perform(c, a + b) == Then(Perform(c, a), Perform(Perform(c, a).state, b))
    decreases |a|
  {
    hide S.Step, Then;
    if a == [] {
      assert a + b == b;
      QuietFirst(c, Perform(c, b));
    } else {
      S.StepKeepsLimits(c, a[0]);
      var o := S.Step(c, a[0]);
      assert (a + b)[1..] == a[1..] + b;
      PerformConcat(o.state, a[1..], b);
      ThenThen(o, Perform(o.state, a[1..]), Perform(Perform(o.state, a[1..]).state, b));
      ThenState(o, Perform(o.state, a[1..]));
    }
  }

  lemma PerformOne(c: C.State, e: S.Event)
    requires c.maxFrame >= 1
    ensures Perform(c, [e]) == S.Step(c, e)
  {
    hide S.Step;
    S.StepKeepsLimits(c, e);
    assert [e][1..] == [];
    ThenNothing(S.Step(c, e));
  }

  /** The effects of one opening do what the opening means. */
  lemma OpeningDrives(c: C.State, name: T.Name, id: nat, data: bytes)
    requires c.maxFrame >= 1
    ensures Drive(c, OpeningOf(name, id), data) == S.Step(c, OpeningEvent(name))
  {
    hide Drive;
    if name == T.WS {
      var reset := Apply(c, T.WsReset, data);
      DriveConcat(c, [T.Opened(name, id)], [T.WsReset] + [T.ResumeSent], data);
      DriveConcat(c, [T.WsReset], [T.ResumeSent], data);
      assert OpeningOf(name, id) == [T.Opened(name, id)] + ([T.WsReset] + [T.ResumeSent]);
      DriveOne(c, T.WsReset, data);
      DriveOne(reset.state, T.ResumeSent, data);
    } else {
      DriveConcat(c, [T.Opened(name, id)], [T.ResumeSent], data);
      DriveOne(c, T.ResumeSent, data);
    }
    DriveOne(c, T.Opened(name, id), data);
  }

  // ---- Tidy logs ----

  lemma ScriptOne(e: T.Effect, data: bytes)
    ensures Script([e], data) == match e case Opened(name, _) => [OpeningEvent(name)]
                                         case Passed(_) => [S.DoReceive(data)]
                                         case _ => []
  {
    assert [e][1..] == [];
  }

  lemma {:induction false} ScriptConcat(a: seq<T.Effect>, b: seq<T.Effect>, data: bytes)
    ensures Script(a + b, data) == Script(a, data) + Script(b, data)
    decreases |a|
  {
    hide Script;
    if a == [] {
      assert a + b == b;
      NoScript(data);
    } else {
      assert (a + b)[1..] == a[1..] + b;
      ScriptConcat(a[1..], b, data);
      ScriptFirst(a, data);
      ScriptFirst(a + b, data);
    }
  }

  lemma NoScript(data: bytes)
    ensures Script([], data) == []
  {
  }

  lemma ScriptFirst(effects: seq<T.Effect>, data: bytes)
    requires effects != []
    ensures Script(effects, data) == Script([effects[0]], data) + Script(effects[1..], data)
  {
    ScriptOne(effects[0], data);
  }

  lemma OpeningScript(name: T.Name, id: nat, data: bytes)
    ensures Script(OpeningOf(name, id), data) == [OpeningEvent(name)]
  {
    hide Script;
    ScriptOne(T.Opened(name, id), data);
    ScriptOne(T.WsReset, data);
    ScriptOne(T.ResumeSent, data);
    if name == T.WS {
      ScriptConcat([T.WsReset], [T.ResumeSent], data);
      ScriptConcat([T.Opened(name, id)], [T.WsReset] + [T.ResumeSent], data);
      assert OpeningOf(name, id) == [T.Opened(name, id)] + ([T.WsReset] + [T.ResumeSent]);
    } else {
      ScriptConcat([T.Opened(name, id)], [T.ResumeSent], data);
    }
  }

  /** The front of a tidy log: a whole opening, or one effect that is no opening. */
  function Front(effects: seq<T.Effect>): seq<T.Effect>
    requires effects != [] && Tidy(effects)
  {
    if effects[0].Opened? then OpeningOf(effects[0].name, effects[0].id) else [effects[0]]
  }

  lemma FrontOf(effects: seq<T.Effect>)
    requires effects != [] && Tidy(effects)
    ensures var f := Front(effects); |f| > 0 && f <= effects && Tidy(effects[|f|..])
  {
    var f := Front(effects);
    if effects[0].Opened? && effects[0].name == T.WS {
      assert f == effects[..3];
    } else if effects[0].Opened? {
      assert f == effects[..2];
    }
  }

  lemma FrontDrives(c: C.State, effects: seq<T.Effect>, data: bytes)
    requires c.maxFrame >= 1 && effects != [] && Tidy(effects)
    ensures var f := Front(effects);
            Drive(c, f, data) == Perform(c, Script(f, data))
  {
    hide Drive, Perform, Script, S.Step, Tidy;
    var e := effects[0];
    if e.Opened? {
      OpeningDrives(c, e.name, e.id, data);
      OpeningScript(e.name, e.id, data);
      PerformOne(c, OpeningEvent(e.name));
    } else {
      OneDrives(c, effects, data);
    }
  }

  lemma OneDrives(c: C.State, effects: seq<T.Effect>, data: bytes)
    requires c.maxFrame >= 1 && effects != [] && Tidy(effects) && !effects[0].Opened?
    ensures Drive(c, [effects[0]], data) == Perform(c, Script([effects[0]], data))
  {
    hide Drive, Perform, Script;
    var e := effects[0];
    DriveOne(c, e, data);
    ScriptOne(e, data);
    if e.Passed? {
      PerformOne(c, S.DoReceive(data));
    } else {
      PerformNothing(c);
    }
  }

  lemma PerformNothing(c: C.State)
    requires c.maxFrame >= 1
    ensures Perform(c, []) == C.Quiet(c)
  {
  }

  /** A tidy log makes the channel go through its script: a ws open or a resume for every opening, in order. */
  lemma {:induction false} TidyDrives(c: C.State, effects: seq<T.Effect>, data: bytes)
    requires c.maxFrame >= 1 && Tidy(effects)
    ensures Drive(c, effects, data) == Perform(c, Script(effects, data))
    decreases |effects|
  {
    hide Drive, Perform, Script, S.Step, Then, Tidy, Front;
    if effects == [] {
      NothingDriven(c, data);
    } else {
      var f := Front(effects);
      FrontOf(effects);
      var rest := effects[|f|..];
      assert effects == f + rest;
      FrontDrives(c, effects, data);
      DriveConcat(c, f, rest, data);
      ScriptConcat(f, rest, data);
      PerformConcat(c, Script(f, data), Script(rest, data));
      TidyDrives(Perform(c, Script(f, data)).state, rest, data);
    }
  }

  lemma NothingDriven(c: C.State, data: bytes)
    requires c.maxFrame >= 1
    ensures Drive(c, [], data) == Perform(c, Script([], data))
  {
  }

  // ---- Steps of the manager ----

  /** The openings of these handles, in order. */
  function OpeningEvents(n: T.Manager, ids: seq<nat>): (events: seq<S.Event>)
    requires forall i :: 0 <= i < |ids| ==> ids[i] in n.info
    ensures |events| == |ids|
  {
    seq(|ids|, i requires 0 <= i < |ids| => OpeningEvent(n.info[ids[i]].name))
  }

  /** What a step of the manager means for the channel: a ws open for every ws handle that opens, a resume for every
      other handle that opens and for a change of mode, and the data that arrives. */
  function StepScript(m: T.Manager, e: T.Event, data: bytes): seq<S.Event> {
    var n := T.Step(m, e);
    if e.DoData? && e.id in m.info then [S.DoReceive(data)]
    else OpeningEvents(n, OpenedBy(m, e, n)) + (if Switches(m, e) then [S.DoSendResume] else [])
  }

  lemma {:induction false} ScriptIsOpenings(n: T.Manager, effects: seq<T.Effect>, data: bytes)
    requires forall x :: x in effects ==> !x.Passed?
    requires forall x :: x in effects && x.Opened? ==> x.id in n.info && x.name == n.info[x.id].name
    ensures forall i :: 0 <= i < |Openings(effects)| ==> Openings(effects)[i] in n.info
    ensures Script(effects, data) == OpeningEvents(n, Openings(effects))
    decreases |effects|
  {
    hide OpeningEvent, OpeningEvents;
    if effects == [] {
      NoEvents(n);
    } else {
      var e, rest := effects[0], effects[1..];
      assert e in effects;
      ScriptIsOpenings(n, rest, data);
      if e.Opened? {
        FirstEvent(n, e.id, Openings(rest));
      } else {
        assert Openings(effects) == Openings(rest) && Script(effects, data) == Script(rest, data);
      }
    }
  }

  lemma NoEvents(n: T.Manager)
    ensures OpeningEvents(n, []) == []
  {
  }

  lemma FirstEvent(n: T.Manager, id: nat, ids: seq<nat>)
    requires id in n.info && forall i :: 0 <= i < |ids| ==> ids[i] in n.info
    ensures OpeningEvents(n, [id] + ids) == [OpeningEvent(n.info[id].name)] + OpeningEvents(n, ids)
  {
    hide OpeningEvent;
  }

  function StepOutcome(m: T.Manager, e: T.Event, c: C.State, data: bytes): C.Outcome {
    Drive(c, Added(m, T.Step(m, e)), data)
  }

  lemma ResumeStep(c: C.State, data: bytes)
    requires c.maxFrame >= 1
    ensures S.Step(c, S.DoSendResume) == Apply(c, T.ResumeSent, data)
  {
  }

  /** Every step of every run makes the channel do exactly that. */
  lemma StepDrives(m: T.Manager, e: T.Event, c: C.State, data: bytes)
    requires Core(m) && c.maxFrame >= 1
    ensures StepOutcome(m, e, c, data) == Perform(c, StepScript(m, e, data))
  {
    hide Core, T.Step, Drive, Perform, Script, Tidy, Openings, OpenedBy, OpensNow, S.Step, Then;
    var n := T.Step(m, e);
    var d := StepLogs(m, e);
    TidyDrives(c, d, data);
    if Switches(m, e) {
      assert Added(m, n) == d + [T.ResumeSent];
      ScriptIsOpenings(n, d, data);
      DriveConcat(c, d, [T.ResumeSent], data);
      DriveOne(Drive(c, d, data).state, T.ResumeSent, data);
      PerformConcat(c, Script(d, data), [S.DoSendResume]);
      PerformOne(Perform(c, Script(d, data)).state, S.DoSendResume);
      ResumeStep(Perform(c, Script(d, data)).state, data);
    } else {
      assert Added(m, n) == d;
      if e.DoData? && e.id in m.info {
        ScriptOne(T.Passed(e.id), data);
      } else {
        ScriptIsOpenings(n, d, data);
        assert Script(d, data) + [] == Script(d, data);
      }
    }
  }

  // ---- Which steps end a session ----

  predicate Opening(e: S.Event) { e.DoWsOpen? || e.DoSendResume? }

  lemma {:induction false} OpeningsPerform(c: C.State, events: seq<S.Event>)
    requires c.maxFrame >= 1 && forall i :: 0 <= i < |events| ==> Opening(events[i])
    ensures var o := Perform(c, events);
            && |o.wire| == |events| && o.handed == [] && o.messages == []
            && o.state == (if S.DoWsOpen in events then C.WsOpen(c).state else c)
            && forall i :: 0 <= i < |events| ==>
                 o.wire[i] == ResumeBytes(if S.DoWsOpen in events[..i + 1] then 0 else c.lastContiguous)
    decreases |events|
  {
    hide Perform, ResumeBytes;
    if events == [] {
      PerformNothing(c);
    } else {
      var k := |events| - 1;
      var front, e := events[..k], events[k];
      assert events == front + [e] && events[..k + 1] == events;
      OpeningsPerform(c, front);
      PerformConcat(c, front, [e]);
      var before := Perform(c, front);
      PerformOne(before.state, e);
      forall i | 0 <= i <= k
        ensures front[..i] == events[..i]
      {
      }
    }
  }

  /** Whatever a step of the manager other than passing data on does: a session ends exactly when a ws handle opens.
      Then the channel numbers from one, holds nothing and expects frame one; otherwise it is as before. Each opening
      sends one resume; that of a ws handle, and what follows, reports nothing received. */
  lemma OnlyWsEndsSession(m: T.Manager, e: T.Event, c: C.State, data: bytes)
    requires Core(m) && c.maxFrame >= 1 && !(e.DoData? && e.id in m.info)
    ensures var n, o := T.Step(m, e), StepOutcome(m, e, c, data);
            var ids := OpenedBy(m, e, n);
            && |o.wire| == |ids| + (if Switches(m, e) then 1 else 0)
            && (if exists i :: 0 <= i < |ids| && n.info[ids[i]].name == T.WS
                then o.state == c.(nextSeq := 1, sendBuffer := [], lastAck := 0, lastContiguous := 0, reorder := map[])
                else o.state == c)
            && forall i :: 0 <= i < |o.wire| ==>
                 o.wire[i] == ResumeBytes(if exists k :: 0 <= k <= i && k < |ids| && n.info[ids[k]].name == T.WS
                                          then 0 else c.lastContiguous)
  {
    hide Core, T.Step, OpenedBy, Perform, Drive, ResumeBytes;
    var n := T.Step(m, e);
    var ids, events := OpenedBy(m, e, n), StepScript(m, e, data);
    StepDrives(m, e, c, data);
    OpeningsPerform(c, events);
    forall i | 0 <= i <= |events|
      ensures S.DoWsOpen in events[..i] <==> exists k :: 0 <= k < i && k < |ids| && n.info[ids[k]].name == T.WS
    {
      WsAmong(n, ids, Switches(m, e), i);
    }
    assert events[..|events|] == events;
  }

  lemma WsAmong(n: T.Manager, ids: seq<nat>, more: bool, i: nat)
    requires forall k :: 0 <= k < |ids| ==> ids[k] in n.info
    requires i <= |ids| + (if more then 1 else 0)
    ensures var events := OpeningEvents(n, ids) + (if more then [S.DoSendResume] else []);
            S.DoWsOpen in events[..i] <==> exists k :: 0 <= k < i && k < |ids| && n.info[ids[k]].name == T.WS
  {
    var events := OpeningEvents(n, ids) + (if more then [S.DoSendResume] else []);
    forall k | 0 <= k < i
      ensures events[k] == S.DoWsOpen <==> k < |ids| && n.info[ids[k]].name == T.WS
    {
    }
    if k :| 0 <= k < i && k < |ids| && n.info[ids[k]].name == T.WS {
      assert events[..i][k] == S.DoWsOpen;
    }
  }

  // ---- Whole runs ----

  datatype Moment = AtManager(e: T.Event, data: bytes) | AtChannel(own: S.Event)

  /** The manager, its channel, and all that the channel has sent. */
  datatype Session = Session(m: T.Manager, c: C.State, wire: seq<bytes>)

  function Go(s: Session, x: Moment): (t: Session)
    requires s.c.maxFrame >= 1
  {
    match x
    case AtManager(e, data) =>
      var o := StepOutcome(s.m, e, s.c, data);
      Session(T.Step(s.m, e), o.state, s.wire + o.wire)
    case AtChannel(e) =>
      var o := S.Step(s.c, e);
      Session(s.m, o.state, s.wire + o.wire)
  }

  lemma {:induction false} DriveKeepsLimits(c: C.State, effects: seq<T.Effect>, data: bytes)
    ensures Drive(c, effects, data).state.maxFrame == c.maxFrame
    decreases |effects|
  {
    if effects != [] {
      DriveKeepsLimits(Apply(c, effects[0], data).state, effects[1..], data);
    }
  }

  function After(s: Session, run: seq<Moment>): (t: Session)
    requires s.c.maxFrame >= 1
    ensures t.c.maxFrame >= 1
    decreases |run|
  {
    if run == [] then s
    else
      var before := After(s, run[..|run| - 1]);
      GoKeepsLimits(before, run[|run| - 1]);
      Go(before, run[|run| - 1])
  }

  lemma GoKeepsLimits(s: Session, x: Moment)
    requires s.c.maxFrame >= 1
    ensures Go(s, x).c.maxFrame == s.c.maxFrame
  {
    hide T.Step, Drive, S.Step;
    match x
    case AtManager(e, data) => DriveKeepsLimits(s.c, Added(s.m, T.Step(s.m, e)), data);
    case AtChannel(e) => S.StepKeepsLimits(s.c, e);
  }

  /** What a run means for the channel. */
  function RunScript(s: Session, run: seq<Moment>): seq<S.Event>
    requires s.c.maxFrame >= 1
    decreases |run|
  {
    if run == [] then []
    else
      var init, x := run[..|run| - 1], run[|run| - 1];
      RunScript(s, init)
      + (match x
         case AtManager(e, data) => StepScript(After(s, init).m, e, data)
         case AtChannel(e) => [e])
  }

  lemma GoKeepsInv(s: Session, x: Moment)
    requires Inv(s.m) && s.c.maxFrame >= 1
    ensures Inv(Go(s, x).m)
  {
    hide Inv, T.Step, S.Step, Drive;
    if x.AtManager? {
      StepKeepsInv(s.m, x.e);
    }
  }

  lemma GoPerforms(s: Session, x: Moment)
    requires Inv(s.m) && s.c.maxFrame >= 1
    ensures var o := Perform(s.c, match x case AtManager(e, data) => StepScript(s.m, e, data) case AtChannel(e) => [e]);
            Go(s, x).c == o.state && Go(s, x).wire == s.wire + o.wire
  {
    hide Core, Covered, T.Step, S.Step, Perform, StepScript, StepOutcome;
    match x
    case AtManager(e, data) => StepDrives(s.m, e, s.c, data);
    case AtChannel(e) => PerformOne(s.c, e);
  }

  /** Over every run of manager and channel together, the channel goes through the run's script: one run of its own
      that starts over exactly where a ws handle opens. */
  lemma {:induction false} SessionFollowsScript(s: Session, run: seq<Moment>)
    requires Inv(s.m) && s.c.maxFrame >= 1
    ensures Inv(After(s, run).m)
    ensures var o := Perform(s.c, RunScript(s, run));
            After(s, run).c == o.state && After(s, run).wire == s.wire + o.wire
    decreases |run|
  {
    hide Inv, Perform, Go, StepScript, Then;
    if run == [] {
      PerformNothing(s.c);
    } else {
      var init, x := run[..|run| - 1], run[|run| - 1];
      var before := After(s, init);
      SessionFollowsScript(s, init);
      GoKeepsInv(before, x);
      GoPerforms(before, x);
      var last := match x case AtManager(e, data) => StepScript(before.m, e, data) case AtChannel(e) => [e];
      PerformConcat(s.c, RunScript(s, init), last);
      ThenParts(Perform(s.c, RunScript(s, init)), Perform(before.c, last), s.wire);
    }
  }

  lemma ThenParts(o: C.Outcome, p: C.Outcome, wire: seq<bytes>)
    ensures Then(o, p).state == p.state && wire + Then(o, p).wire == (wire + o.wire) + p.wire
  {
  }

  /** So the send buffer of a managed channel is, after any run, a consecutive run of numbers ending at the last one
      handed out. */
  lemma SessionContiguous(defs: seq<T.Definition>, allowed: T.Name, connect: T.Name -> T.Attempt, blocked: bool,
                          maxBuffer: nat, maxFrame: nat, run: seq<Moment>)
    requires maxFrame >= 1
    ensures var s := Session(T.Start(defs, allowed, connect, blocked), C.Init(maxBuffer, maxFrame), []);
            S.Contiguous(After(s, run).c.sendBuffer, After(s, run).c.nextSeq)
  {
    hide T.Start, Inv, Perform, RunScript, After, S.Contiguous;
    var s := Session(T.Start(defs, allowed, connect, blocked), C.Init(maxBuffer, maxFrame), []);
    StartHasInv(defs, allowed, connect, blocked);
    SessionFollowsScript(s, run);
    PerformExecutes(s.c, RunScript(s, run));
    S.EveryRunContiguous(maxBuffer, maxFrame, RunScript(s, run));
  }

  lemma {:induction false} PerformExecutes(c: C.State, events: seq<S.Event>)
    requires c.maxFrame >= 1
    ensures Perform(c, events).state == S.Execute(c, events)
    decreases |events|
  {
    hide Perform, S.Step;
    if events == [] {
      PerformNothing(c);
    } else {
      var init, e := events[..|events| - 1], events[|events| - 1];
      assert events == init + [e];
      PerformExecutes(c, init);
      PerformConcat(c, init, [e]);
      PerformOne(Perform(c, init).state, e);
    }
  }
}
