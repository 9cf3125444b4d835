// What is sent again: after a Resume or a third duplicate ack exactly the critical frames the peer lacks, once each
// and in order, whatever lies between them in the send buffer (browser/js/reliable.js:275-295, 327-333).
module Replaying {
  import opened Octets
  import opened Wrappers
  import opened Codec
  import opened Channel
  import opened Messages
  import opened SendBuffer
  import opened ReorderBuffer
  import opened Network
  import opened Convergence

  // ---- One buffer ----

  /** The positions before k of entries that are critical and numbered above n. */
  function Due(buffer: seq<Entry>, n: nat, k: nat): set<nat>
    requires k <= |buffer|
  {
    set i: nat | i < k && buffer[i].seqNo > n && buffer[i].priority == CRITICAL
  }

  lemma DueNext(buffer: seq<Entry>, n: nat, k: nat)
    requires k < |buffer|
    ensures var due := buffer[k].seqNo > n && buffer[k].priority == CRITICAL;
            && Due(buffer, n, k + 1) == Due(buffer, n, k) + (if due then {k} else {})
            && |Due(buffer, n, k + 1)| == |Due(buffer, n, k)| + (if due then 1 else 0)
  {
    assert k !in Due(buffer, n, k);
  }

  lemma DueFront(buffer: seq<Entry>, n: nat, m: nat, k: nat)
    requires k <= m <= |buffer|
    ensures Due(buffer[..m], n, k) == Due(buffer, n, k)
  {
  }

  lemma {:induction false} ReplayCount(buffer: seq<Entry>, n: nat)
    ensures |Replay(buffer, n)| == |Due(buffer, n, |buffer|)|
    decreases |buffer|
  {
    hide Due;
    if buffer == [] {
      NothingDue(n);
    } else {
      var k := |buffer| - 1;
      ReplayCount(buffer[..k], n);
      DueNext(buffer, n, k);
      DueFront(buffer, n, k, k);
    }
  }

  lemma NothingDue(n: nat)
    ensures Due([], n, 0) == {}
  {
  }

  lemma DueHas(buffer: seq<Entry>, n: nat, k: nat, i: nat)
    requires k <= |buffer|
    ensures i in Due(buffer, n, k) <==> i < k && buffer[i].seqNo > n && buffer[i].priority == CRITICAL
  {
  }

  lemma {:induction false} ReplayRank(buffer: seq<Entry>, n: nat, i: nat)
    requires i < |buffer| && buffer[i].seqNo > n && buffer[i].priority == CRITICAL
    ensures var r := |Due(buffer, n, i)|; r < |Replay(buffer, n)| && Replay(buffer, n)[r] == buffer[i].encoded
    decreases |buffer|
  {
    hide Due;
    var k := |buffer| - 1;
    var front := buffer[..k];
    DueFront(buffer, n, k, i);
    if i < k {
      ReplayRank(front, n, i);
    } else {
      ReplayCount(front, n);
    }
  }

  /** For every buffer: as many packets as there are critical entries above n, and the packet of such an entry stands
      behind those of the earlier ones. */
  lemma ReplayExactly(buffer: seq<Entry>, n: nat)
    ensures |Replay(buffer, n)| == |Due(buffer, n, |buffer|)|
    ensures forall i {:trigger buffer[i]} :: i in Due(buffer, n, |buffer|) ==>
              var r := |Due(buffer, n, i)|; r < |Replay(buffer, n)| && Replay(buffer, n)[r] == buffer[i].encoded
  {
    hide Due, Replay;
    ReplayCount(buffer, n);
    forall i | i in Due(buffer, n, |buffer|)
      ensures i < |buffer| && var r := |Due(buffer, n, i)|;
              r < |Replay(buffer, n)| && Replay(buffer, n)[r] == buffer[i].encoded
    {
      DueHas(buffer, n, |buffer|, i);
      ReplayRank(buffer, n, i);
    }
  }

  /** No other packet: each one is that of a due entry. */
  lemma {:induction false} ReplayOnlyDue(buffer: seq<Entry>, n: nat, p: bytes) returns (i: nat)
    requires p in Replay(buffer, n)
    ensures i in Due(buffer, n, |buffer|) && buffer[i].encoded == p
    decreases |buffer|
  {
    var k := |buffer| - 1;
    i := k;
    if p in Replay(buffer[..k], n) {
      i := ReplayOnlyDue(buffer[..k], n, p);
    }
  }

  // ---- Two ends ----

  /** The frames above number n that are critical. */
  function Lacking(sent: seq<Item>, n: nat): set<Item> {
    set x | x in sent && x.seqNo > n && x.priority == CRITICAL
  }

  /** The packet of a critical frame above n. */
  predicate CarriesLacking(p: bytes, sent: seq<Item>, n: nat) {
    ItemOf(p).Some? && ItemOf(p).value in Lacking(sent, n)
  }

  lemma ReplaysIs(c: State, n: nat, o: Outcome)
    requires Replays(c, n, o)
    ensures o.wire == Replay(c.sendBuffer, n)
  {
    hide Replay, Trim;
  }

  lemma DueIsLacking(c: State, sent: seq<Item>, base: nat, reached: nat, n: nat, i: nat)
    requires SenderHalf(c, sent, base, reached) && IsNumbered(sent, base)
    requires i in Due(c.sendBuffer, n, |c.sendBuffer|)
    ensures CarriesLacking(c.sendBuffer[i].encoded, sent, n)
  {
    hide ItemOf;
    assert Keeps(c.sendBuffer[i], sent, base);
  }

  lemma LackingIsDue(c: State, sent: seq<Item>, base: nat, reached: nat, n: nat, x: Item) returns (i: nat)
    requires SenderHalf(c, sent, base, reached) && IsNumbered(sent, base) && n <= reached
    requires x in Lacking(sent, reached)
    ensures i in Due(c.sendBuffer, n, |c.sendBuffer|) && ItemOf(c.sendBuffer[i].encoded) == Some(x)
  {
    hide ItemOf;
    var k :| 0 <= k < |sent| && sent[k] == x;
    assert !Expendable(sent[k], reached);
    i := k - (|sent| - |c.sendBuffer|);
    assert Keeps(c.sendBuffer[i], sent, base);
  }

  /** At any moment of an epoch, for any count n that the peer may have reported: every critical frame that it still
      lacks goes out again, best-effort frames between them or not, and nothing else than critical frames above n. */
  lemma LackingReplayed(s: Node, r: Node, toR: set<bytes>, toS: set<bytes>, n: nat, o: Outcome)
    requires Link(s, r, toR, toS) && n <= r.ch.lastContiguous && Replays(s.ch, n, o)
    ensures forall x :: x in Lacking(Sent(s), r.ch.lastContiguous) ==> exists p :: p in o.wire && ItemOf(p) == Some(x)
    ensures forall p :: p in o.wire ==> CarriesLacking(p, Sent(s), n)
  {
    hide Replays, SenderHalf, ReceiverKeeps, HonestData, HonestReports, ItemOf, IsNumbered, Lacking, Replay, Due,
         CarriesLacking;
    var c, sent := s.ch, Sent(s);
    SentNumbered(s);
    ReplaysIs(c, n, o);
    forall x | x in Lacking(sent, r.ch.lastContiguous)
      ensures exists p :: p in o.wire && ItemOf(p) == Some(x)
    {
      var i := LackingIsDue(c, sent, s.base, r.ch.lastContiguous, n, x);
      var p := DueOnWire(c.sendBuffer, n, i);
    }
    forall p | p in o.wire
      ensures CarriesLacking(p, sent, n)
    {
      var i := ReplayOnlyDue(c.sendBuffer, n, p);
      DueIsLacking(c, sent, s.base, r.ch.lastContiguous, n, i);
    }
  }

  lemma DueOnWire(buffer: seq<Entry>, n: nat, i: nat) returns (p: bytes)
    requires i in Due(buffer, n, |buffer|)
    ensures p == buffer[i].encoded && p in Replay(buffer, n)
  {
    ReplayExactly(buffer, n);
    p := buffer[i].encoded;
  }

  // ---- Duplicate acks over whole runs ----

  /** How many acks have repeated the last ack, with frames still unacknowledged, since the last ack that went on. */
  function Repeats(c: State, events: seq<Event>): nat
    requires c.maxFrame >= 1
    decreases |events|
  {
    if events == [] then c.dupAcks
    else
      var init, e := events[..|events| - 1], events[|events| - 1];
      var before := Execute(c, init);
      if !IsAck(e) || AckOf(e) < before.lastAck then Repeats(c, init)
      else if AckOf(e) > before.lastAck then 0
      else if before.sendBuffer == [] then Repeats(c, init)
      else Repeats(c, init) + 1
  }

  predicate IsAck(e: Event) { e.DoReceive? && Decode(e.data).Some? && Decode(e.data).value.Ack? }

  function AckOf(e: Event): nat
    requires IsAck(e)
  {
    Decode(e.data).value.ackSeq
  }

  lemma OthersKeepCount(c: State, e: Event)
    requires c.maxFrame >= 1 && !IsAck(e)
    ensures Step(c, e).state.dupAcks == c.dupAcks
  {
    hide Decode, Drain, DrainedReorder, Process, Evict, Trim, Replay;
    if e.DoSend? {
      SendAllKeepsCount(c, Fragments(e.payload, c.maxFrame), e.priority, e.clock);
    }
  }

  lemma {:induction false} SendAllKeepsCount(c: State, frames: seq<bytes>, priority: nat, clock: nat -> int)
    ensures SendAll(c, frames, priority, clock).state.dupAcks == c.dupAcks
    decreases |frames|
  {
    hide Evict, DataBytes;
    if frames != [] {
      SendAllKeepsCount(c, frames[..|frames| - 1], priority, clock);
    }
  }

  lemma AckStep(c: State, e: Event)
    requires c.maxFrame >= 1 && IsAck(e)
    ensures Step(c, e) == ReceiveAck(c, AckOf(e))
  {
    hide Decode, ReceiveAck;
  }

  /** The counter counts the repeats modulo three. */
  lemma {:induction false} CountsRepeats(c: State, events: seq<Event>)
    requires c.maxFrame >= 1 && c.dupAcks < 3
    ensures Execute(c, events).dupAcks == Repeats(c, events) % 3
    decreases |events|
  {
    hide Step, IsAck, AckOf, Trim, Replay;
    if events != [] {
      var init, e := events[..|events| - 1], events[|events| - 1];
      CountsRepeats(c, init);
      if IsAck(e) {
        AckStep(Execute(c, init), e);
      } else {
        OthersKeepCount(Execute(c, init), e);
      }
    }
  }

  lemma RepeatsSnoc(c: State, events: seq<Event>, e: Event)
    requires c.maxFrame >= 1 && IsAck(e)
    ensures var before := Execute(c, events);
            Repeats(c, events + [e])
              == if AckOf(e) > before.lastAck then 0
                 else if AckOf(e) == before.lastAck && before.sendBuffer != [] then Repeats(c, events) + 1
                 else Repeats(c, events)
  {
    hide IsAck, AckOf;
    assert (events + [e])[..|events|] == events;
  }

  /** In any run an ack makes the channel send if and only if it is the third, sixth, ... repeat since the last ack
      that went on; it then replays. */
  lemma EveryThirdReplays(maxBuffer: nat, maxFrame: nat, events: seq<Event>, e: Event)
    requires maxFrame >= 1 && IsAck(e)
    ensures var c := Execute(Init(maxBuffer, maxFrame), events);
            var before := Repeats(Init(maxBuffer, maxFrame), events);
            var after := Repeats(Init(maxBuffer, maxFrame), events + [e]);
            Step(c, e).wire == if after == before + 1 && after % 3 == 0 then Replay(c.sendBuffer, AckOf(e)) else []
  {
    hide Step, IsAck, AckOf, Trim, Replay, Execute, Repeats;
    var c0 := Init(maxBuffer, maxFrame);
    RepeatsSnoc(c0, events, e);
    CountsRepeats(c0, events);
    AckStep(Execute(c0, events), e);
  }
}
