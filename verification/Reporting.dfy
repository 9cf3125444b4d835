// What an end tells its peer, and what it forgets: acks on the timer tick, and the resets
// (browser/js/reliable.js:215-216, 297-325, 344-376, 743-752).
module Reporting {
  import opened Octets
  import opened Wrappers
  import opened Codec
  import opened Channel
  import opened Messages
  import opened SendBuffer
  import opened ReorderBuffer
  import opened Network
  import opened Convergence

  // ---- Acks ----

  predicate IsData(data: bytes) { Decode(data).Some? && Decode(data).value.Data? }

  /** A data frame, new or not, has come in since the last tick or reset. */
  predicate Owes(events: seq<Event>)
    decreases |events|
  {
    events != []
    && var e := events[|events| - 1];
       (e.DoReceive? && IsData(e.data)) || (!e.DoTick? && !e.DoReset? && Owes(events[..|events| - 1]))
  }

  lemma StepOwes(c: State, e: Event)
    requires c.maxFrame >= 1
    ensures Step(c, e).state.ackPending
       <==> ((e.DoReceive? && IsData(e.data)) || (!e.DoTick? && !e.DoReset? && c.ackPending))
  {
    hide Decode, Drain, DrainedReorder, Process, Trim, Replay, AckBytes;
    if e.DoSend? {
      SendAllKeepsPending(c, Fragments(e.payload, c.maxFrame), e.priority, e.clock);
    }
  }

  lemma {:induction false} SendAllKeepsPending(c: State, frames: seq<bytes>, priority: nat, clock: nat -> int)
    ensures SendAll(c, frames, priority, clock).state.ackPending == c.ackPending
    decreases |frames|
  {
    hide Evict, DataBytes;
    if frames != [] {
      SendAllKeepsPending(c, frames[..|frames| - 1], priority, clock);
    }
  }

  lemma {:induction false} PendingMeansOwing(c: State, events: seq<Event>)
    requires c.maxFrame >= 1 && !c.ackPending
    ensures Execute(c, events).ackPending <==> Owes(events)
    decreases |events|
  {
    hide Step, IsData;
    if events != [] {
      PendingMeansOwing(c, events[..|events| - 1]);
      StepOwes(Execute(c, events[..|events| - 1]), events[|events| - 1]);
    }
  }

  lemma AckDecodes(n: nat, window: nat)
    ensures Decode(AckBytes(n, window)) == Some(Ack(n % U32_LIMIT, window % U16_LIMIT))
  {
    hide Decode;
    WindowWraps(n, window);
    U32Wraps(n);
    var p := AckBytes(n % U32_LIMIT, window % U16_LIMIT);
    AckRoundTrip(n % U32_LIMIT, window % U16_LIMIT, []);
    assert p + [] == p;
  }

  /** In any run a tick sends one ack when data came in since the last one, and nothing otherwise; it carries the
      contiguous count and the room left by the frames that wait. A second tick sends nothing. */
  lemma TickReports(maxBuffer: nat, maxFrame: nat, events: seq<Event>)
    requires maxFrame >= 1
    ensures var c := Execute(Init(maxBuffer, maxFrame), events);
            var o := Step(c, DoTick);
            var room := if |c.reorder| < maxBuffer then maxBuffer - |c.reorder| else 0;
            && (if Owes(events)
                then |o.wire| == 1
                     && Decode(o.wire[0]) == Some(Ack(c.lastContiguous % U32_LIMIT, room % U16_LIMIT))
                else o.wire == [])
            && Step(o.state, DoTick).wire == []
            && o.state == c.(ackPending := false)
  {
    hide Execute, Decode, AckBytes, Owes;
    var c := Execute(Init(maxBuffer, maxFrame), events);
    PendingMeansOwing(Init(maxBuffer, maxFrame), events);
    RunKeepsLimits(Init(maxBuffer, maxFrame), events);
    AckDecodes(c.lastContiguous, Window(c));
  }

  lemma {:induction false} RunKeepsLimits(c: State, events: seq<Event>)
    requires c.maxFrame >= 1
    ensures Execute(c, events).maxBuffer == c.maxBuffer
    decreases |events|
  {
    hide Step;
    if events != [] {
      RunKeepsLimits(c, events[..|events| - 1]);
      StepKeepsLimits(Execute(c, events[..|events| - 1]), events[|events| - 1]);
    }
  }

  // ---- Resets ----

  /** A reset, a ws open, or a reset branch of Resume. */
  ghost predicate Resets(c: State, s: State) {
    s == Reset(c).state || s == WsOpen(c).state || exists n :: !ResumeNormal(c, n) && s == HandleResume(c, n).state
  }

  /** Frames handed up come from the waiting ones or from those that arrive. */
  lemma {:induction false} DrainedWaited(last: nat, reorder: map<nat, Item>, x: Item)
    requires x in Drain(last, reorder)
    ensures x in reorder.Values
    decreases |reorder|
  {
    var rest := Drain(reorder[last + 1].seqNo, reorder - {last + 1});
    if x in rest {
      DrainedWaited(reorder[last + 1].seqNo, reorder - {last + 1}, x);
    }
  }

  lemma {:induction false} LeftWaited(last: nat, reorder: map<nat, Item>, x: Item)
    requires x in DrainedReorder(last, reorder).Values
    ensures x in reorder.Values
    decreases |reorder|
  {
    if last + 1 in reorder {
      LeftWaited(reorder[last + 1].seqNo, reorder - {last + 1}, x);
    }
  }

  lemma AcceptedFrom(last: nat, reorder: map<nat, Item>, item: Item, x: Item)
    ensures var a := Accept(last, reorder, item);
            x in a.run || x in a.reorder.Values ==> x == item || x in reorder.Values
  {
    hide Drain, DrainedReorder;
    var a := Accept(last, reorder, item);
    if item.seqNo == last + 1 {
      if x in Drain(item.seqNo, reorder) {
        DrainedWaited(item.seqNo, reorder, x);
      }
      if x in DrainedReorder(item.seqNo, reorder).Values {
        LeftWaited(item.seqNo, reorder, x);
      }
    }
  }

  lemma {:induction false} HandedFrom(c: State, items: seq<Item>, x: Item)
    ensures var o := ReceiveItems(c, items);
            x in o.handed || x in o.state.reorder.Values ==> x in items || x in c.reorder.Values
    decreases |items|
  {
    hide Accept, Process;
    if items != [] {
      var init, item := items[..|items| - 1], items[|items| - 1];
      HandedFrom(c, init, x);
      var before := ReceiveItems(c, init).state;
      AcceptedFrom(before.lastContiguous, before.reorder, item, x);
    }
  }

  /** Whatever waited before a reset never comes out: all that is handed up afterwards has arrived afterwards. */
  lemma ResetForgets(c: State, s: State, items: seq<Item>, x: Item)
    requires Resets(c, s) && x in ReceiveItems(s, items).handed
    ensures x in items
  {
    hide ReceiveItems, Trim, Replay;
    HandedFrom(s, items, x);
  }

  /** After a reset a channel is a new one but for the count of duplicate acks; after a ws open also but for the chunk
      assembly and an ack that is due. */
  lemma ResetIsNew(c: State)
    ensures Reset(c).state == Init(c.maxBuffer, c.maxFrame).(dupAcks := c.dupAcks)
    ensures WsOpen(c).state == Init(c.maxBuffer, c.maxFrame).(dupAcks := c.dupAcks, assembly := c.assembly,
                                                              ackPending := c.ackPending)
    ensures Reset(c).wire == [] && |WsOpen(c).wire| == 1 && Decode(WsOpen(c).wire[0]) == Some(Resume(0))
  {
    hide Decode;
    ResumeRoundTrip(0, []);
    assert ResumeBytes(0) + [] == ResumeBytes(0);
  }
}
