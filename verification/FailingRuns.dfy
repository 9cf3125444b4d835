// Runs of the protocol, from new channels on, that reach the inputs on which the documented claims fail.
module FailingRuns {
  import opened Octets
  import opened Wrappers
  import opened Codec
  import opened Channel
  import opened SendBuffer
  import opened Network
  import opened Convergence

  function ZeroClock(n: nat): int { 0 }

  /** A payload that fits one frame, into a buffer that is not full. */
  lemma SendSmall(c: State, payload: bytes, priority: nat)
    requires |payload| <= c.maxFrame && c.maxFrame >= 1 && |c.sendBuffer| < c.maxBuffer
    ensures var e := Entry(c.nextSeq, priority, DataBytes(c.nextSeq, 0, priority, [TAG_STANDALONE] + payload));
            Send(c, payload, priority, ZeroClock)
                == Outcome(c.(nextSeq := c.nextSeq + 1, sendBuffer := c.sendBuffer + [e]), [e.encoded], [], [])
  {
    hide DataBytes;
    var frames := [[TAG_STANDALONE] + payload];
    assert frames[..0] == [] && Fragments(payload, c.maxFrame) == frames;
    assert SendAll(c, frames[..0], priority, ZeroClock) == Quiet(c);
  }

  lemma ExecuteSnoc(c: State, events: seq<Event>, e: Event)
    requires c.maxFrame >= 1
    ensures Execute(c, events + [e]) == Step(Execute(c, events), e).state
  {
    assert (events + [e])[..|events|] == events;
  }

  const BUFFER: nat := 1000
  const FRAME: nat := 32768
  const SMALL: Event := DoSend([7], CRITICAL, ZeroClock)
  const LIGHT: Event := DoSend([7], BEST_EFFORT, ZeroClock)

  // ---- A ws open loses a frame ----

  const PAIR: System := System(NewNode(BUFFER, FRAME), NewNode(BUFFER, FRAME), {}, {})

  /** One critical message is sent and not yet acknowledged; opening a ws transport now loses it. */
  lemma WsOpenLosesFrame()
    ensures EpochStart(PAIR) && EpochRun(PAIR, [AtA(SMALL)])
    ensures var t := After(PAIR, [AtA(SMALL)]);
            && Sized(t) && NothingLost(t.a, t.b) && !NothingLost(t.a.(ch := WsOpen(t.a.ch).state), t.b)
  {
    hide NothingLost, Link, DataBytes, Send, WsOpen;
    NewChannelsStart(BUFFER, FRAME, BUFFER, FRAME);
    assert [AtA(SMALL)][..0] == [];
    SmallEnabled();
    StartHasInv(PAIR);
    RunKeepsInv(PAIR, [AtA(SMALL)]);
    SendSmall(Init(BUFFER, FRAME), [7], CRITICAL);
    var t := After(PAIR, [AtA(SMALL)]);
    assert t == Next(PAIR, AtA(SMALL));
    assert t.a.ch.sendBuffer[0] in t.a.ch.sendBuffer && !NothingPending(t.a, t.b);
    LinkLosesNothing(t.a, t.b, t.toB, t.toA);
    WsOpenForgets(t.a, t.b, t.toB, t.toA);
  }

  lemma SmallEnabled()
    ensures Sized(PAIR) && Enabled(PAIR, AtA(SMALL))
  {
    assert |Fragments([7], FRAME)| == 1;
  }

  // ---- A caught-up peer makes us skip its frames ----

  /** The frame that either end's first small message goes out in, as it is received. */
  const FIRST: Item := Item([TAG_STANDALONE, 7], 1, CRITICAL)
  const FIRST_BYTES: bytes := DataBytes(1, 0, CRITICAL, [TAG_STANDALONE, 7])
  const ACK: bytes := AckBytes(1, BUFFER)

  /** A's message arrives and is acknowledged; B's is still on its way. */
  const CAUGHT_UP: seq<Label> := [AtA(SMALL), AtB(DoReceive(FIRST_BYTES)), AtB(SMALL), AtB(DoTick), AtA(DoReceive(ACK))]

  function FirstSent(c: State): State {
    c.(nextSeq := 2, sendBuffer := [Entry(1, CRITICAL, FIRST_BYTES)])
  }

  lemma FirstSmall(c: State)
    requires c.maxFrame == FRAME && c.sendBuffer == [] && c.maxBuffer == BUFFER && c.nextSeq == 1
    ensures Step(c, SMALL) == Outcome(FirstSent(c), [FIRST_BYTES], [], [])
  {
    hide DataBytes, Send;
    SendSmall(c, [7], CRITICAL);
    assert [TAG_STANDALONE] + [7] == [TAG_STANDALONE, 7];
  }

  lemma FirstArrives(c: State)
    requires c.lastContiguous == 0 && c.reorder == map[]
    ensures ItemOf(FIRST_BYTES) == Some(FIRST)
    ensures var o := Receive(c, FIRST_BYTES);
            && o.state == c.(ackPending := true, lastContiguous := 1, assembly := c.assembly)
            && o.wire == [] && o.handed == [FIRST]
  {
    hide DataBytes, Decode;
    DataPacket(1, 0, CRITICAL, [TAG_STANDALONE, 7]);
    assert Drain(1, map[]) == [] && DrainedReorder(1, map[]) == map[];
    assert [FIRST][..0] == [];
    assert Process(c.assembly, []) == Processed(c.assembly, []);
  }

  lemma AckArrives(c: State)
    requires c.lastAck == 0 && c.sendBuffer == [Entry(1, CRITICAL, FIRST_BYTES)]
    ensures Decode(ACK).Some? && Decode(ACK).value.Ack?
    ensures Receive(c, ACK).state == c.(lastAck := 1, sendBuffer := [], dupAcks := 0) && Receive(c, ACK).wire == []
  {
    hide AckBytes, Decode, DataBytes;
    AckIsReceived(c, 1, BUFFER);
    AckRoundTrip(1, BUFFER, []);
    assert AckBytes(1, BUFFER) + [] == AckBytes(1, BUFFER);
    assert Trim(c.sendBuffer, 1) == Trim(c.sendBuffer[1..], 1);
  }

  function At(n: nat): System
    requires n <= |CAUGHT_UP|
  {
    After(PAIR, CAUGHT_UP[..n])
  }

  lemma AtStep(n: nat)
    requires n < |CAUGHT_UP| && EpochRun(PAIR, CAUGHT_UP[..n]) && Sized(At(n)) && Enabled(At(n), CAUGHT_UP[n])
    ensures EpochRun(PAIR, CAUGHT_UP[..n + 1]) && At(n + 1) == Next(At(n), CAUGHT_UP[n])
  {
    hide Sized, Enabled, Next;
    assert CAUGHT_UP[..n + 1][..n] == CAUGHT_UP[..n] && CAUGHT_UP[..n + 1][n] == CAUGHT_UP[n];
  }

  /** The channels and what is on its way while the run goes on. */
  predicate Stands(t: System, a: State, b: State, toA: set<bytes>, toB: set<bytes>) {
    t.a.ch == a && t.b.ch == b && t.toA == toA && t.toB == toB
  }

  lemma ArrivedAtB(a: State, b: State)
    requires a == Init(BUFFER, FRAME) == b
    ensures EpochRun(PAIR, CAUGHT_UP[..2])
    ensures Stands(At(2), FirstSent(a), b.(ackPending := true, lastContiguous := 1), {}, {FIRST_BYTES})
  {
    hide DataBytes, Decode, AckBytes, Receive, Send;
    assert CAUGHT_UP[..0] == [];
    SmallEnabled();
    AtStep(0);
    FirstSmall(a);
    FirstArrives(b);
    AtStep(1);
  }

  lemma AnsweredByB(a: State, b: State)
    requires a == Init(BUFFER, FRAME) == b
    ensures EpochRun(PAIR, CAUGHT_UP[..4])
    ensures Stands(At(4), FirstSent(a), FirstSent(b.(lastContiguous := 1)), {FIRST_BYTES, ACK}, {FIRST_BYTES})
  {
    hide DataBytes, Decode, AckBytes, Send, Receive, EpochRun, After;
    ArrivedAtB(a, b);
    SmallEnabled();
    AtStep(2);
    FirstSmall(b.(ackPending := true, lastContiguous := 1));
    AtStep(3);
  }

  lemma ResumeArrives(c: State, n: nat)
    requires n < U32_LIMIT
    ensures Receive(c, ResumeBytes(n)) == HandleResume(c, n)
  {
    hide Decode, ResumeBytes, HandleResume;
    ResumeRoundTrip(n, []);
    assert ResumeBytes(n) + [] == ResumeBytes(n);
  }

  /** A can replay all that B is missing, which is nothing; B's message is on its way and A would hand it up, but after
      the Resume that B sends A takes it for a duplicate. */
  predicate SkipsFirst(t: System) {
    && Sized(t) && CanReplay(t.a.ch, t.b.ch.lastContiguous)
    && FIRST_BYTES in t.toA && Receive(t.a.ch, FIRST_BYTES).handed == [FIRST]
    && SendResume(t.b.ch).wire == [ResumeBytes(1)]
    && Receive(Receive(t.a.ch, ResumeBytes(1)).state, FIRST_BYTES).handed == []
  }

  /** A caught-up peer's Resume makes this end skip the peer's own message. */
  lemma CaughtUpPeerReached()
    ensures EpochRun(PAIR, CAUGHT_UP) && SkipsFirst(After(PAIR, CAUGHT_UP))
  {
    hide DataBytes, Decode, AckBytes, ResumeBytes, Send, Receive, EpochRun, After;
    var c := Init(BUFFER, FRAME);
    AnsweredByB(c, c);
    AckArrives(FirstSent(c));
    AtStep(4);
    assert CAUGHT_UP[..5] == CAUGHT_UP;
    var a := After(PAIR, CAUGHT_UP).a.ch;
    FirstArrives(a);
    ResumeArrives(a, 1);
    AlreadySkipped(HandleResume(a, 1).state);
  }

  lemma AlreadySkipped(c: State)
    requires c.lastContiguous >= 1
    ensures Receive(c, FIRST_BYTES).handed == []
  {
    hide DataBytes, Decode;
    DataPacket(1, 0, CRITICAL, [TAG_STANDALONE, 7]);
  }

  // ---- A best-effort frame is not replayed ----

  /** One critical and one best-effort message sent, neither received: the Resume(0) of the peer does not replay
      both. */
  lemma BestEffortNotReplayed()
    ensures var c := Execute(Init(BUFFER, FRAME), [SMALL, LIGHT]);
            && c.nextSeq == 3 && ResumeNormal(c, 0) && !ReplaysAllAbove(c, 0, HandleResume(c, 0).wire)
  {
    hide DataBytes, Send, ReplaysAllAbove, HandleResume;
    var c := Execute(Init(BUFFER, FRAME), [SMALL, LIGHT]);
    assert [] + [SMALL] == [SMALL] && [SMALL] + [LIGHT] == [SMALL, LIGHT];
    ExecuteSnoc(Init(BUFFER, FRAME), [], SMALL);
    FirstSmall(Init(BUFFER, FRAME));
    EveryRunContiguous(BUFFER, FRAME, [SMALL, LIGHT]);
    ExecuteSnoc(Init(BUFFER, FRAME), [SMALL], LIGHT);
    SendSmall(Execute(Init(BUFFER, FRAME), [SMALL]), [7], BEST_EFFORT);
    assert c.sendBuffer[1].priority == BEST_EFFORT && c.sendBuffer[1].seqNo == 2;
    ResumeReplaysAll(c, 0);
  }
}
