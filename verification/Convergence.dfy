// Recovery: one replay brings a receiver that is behind all the way up, whatever the network does to the order of the
// replayed frames (browser/js/reliable.js:215-240, 275-295, 327-337, 352-358).
module Convergence {
  import opened Octets
  import opened Wrappers
  import opened Codec
  import opened Channel
  import opened Messages
  import opened SendBuffer
  import opened ReorderBuffer
  import opened Network

  // ---- A receiver and a list of arriving frames ----

  function ReceiveItems(c: State, items: seq<Item>): Outcome
    decreases |items|
  {
    if items == [] then Quiet(c)
    else
      var before := ReceiveItems(c, items[..|items| - 1]);
      var last := ReceiveData(before.state, items[|items| - 1]);
      Outcome(last.state, [], before.handed + last.handed, before.messages + last.messages)
  }

  lemma {:induction false} ReceiveItemsIs(c: State, items: seq<Item>)
    ensures var a := AcceptAll(c.lastContiguous, c.reorder, items);
            var p := Process(c.assembly, a.run);
            ReceiveItems(c, items) == Outcome(c.(ackPending := c.ackPending || items != [], lastContiguous := a.last,
                                                 reorder := a.reorder, assembly := p.assembly), [], a.run, p.messages)
    decreases |items|
  {
    hide Process, Accept;
    if items == [] {
      ProcessNone(c.assembly);
    } else {
      var init := items[..|items| - 1];
      ReceiveItemsIs(c, init);
      var before := AcceptAll(c.lastContiguous, c.reorder, init);
      var a := Accept(before.last, before.reorder, items[|items| - 1]);
      ProcessConcat(c.assembly, before.run, a.run);
    }
  }

  /** The receiver's whole state, the frames handed up and the messages delivered depend only on which honest frames
      arrive. */
  lemma ChannelConfluence(c: State, sent: seq<Item>, base: nat, xs: seq<Item>, ys: seq<Item>)
    requires IsNumbered(sent, base) && ReceiverHalf(c.lastContiguous, c.reorder, sent, base)
    requires AllHonest(xs, sent, base) && AllHonest(ys, sent, base) && NumbersOf(xs) == NumbersOf(ys)
    ensures ReceiveItems(c, xs) == ReceiveItems(c, ys)
  {
    hide IsNumbered, ReceiverHalf, AllHonest, Process, AcceptAll;
    Confluence(c.lastContiguous, c.reorder, sent, base, xs, ys);
    ReceiveItemsIs(c, xs);
    ReceiveItemsIs(c, ys);
    if xs != [] {
      assert xs[0].seqNo in NumbersOf(xs);
    }
    if ys != [] {
      assert ys[0].seqNo in NumbersOf(ys);
    }
  }

  // ---- What the sender puts on the wire ----

  /** Everything numbered above n is critical. */
  predicate CriticalAbove(sent: seq<Item>, base: nat, n: nat) {
    base <= n <= base + |sent| && forall i :: n - base <= i < |sent| ==> sent[i].priority == CRITICAL
  }

  /** The sender is about to replay for a receiver that has everything up to n: a Resume(n) in the normal branch, or
      the third duplicate of Ack(n). */
  predicate Replays(c: State, n: nat, o: Outcome) {
    || (ResumeNormal(c, n) && o == HandleResume(c, n))
    || (n == c.lastAck && c.sendBuffer != [] && c.dupAcks >= 2 && o == ReceiveAck(c, n))
  }

  /** The packets carry exactly these frames, in this order. */
  predicate CarriesExactly(wire: seq<bytes>, frames: seq<Item>) {
    |wire| == |frames| && forall i :: 0 <= i < |wire| ==> ItemOf(wire[i]) == Some(frames[i])
  }

  lemma BufferTail(c: State, sent: seq<Item>, base: nat, n: nat) returns (k: nat)
    requires SenderHalf(c, sent, base, n) && IsNumbered(sent, base) && CriticalAbove(sent, base, n)
    ensures k + |sent| - (n - base) == |c.sendBuffer| && k <= |c.sendBuffer|
    ensures forall i :: 0 <= i < k ==> c.sendBuffer[i].seqNo <= n
    ensures forall i :: k <= i < |c.sendBuffer| ==> c.sendBuffer[i].seqNo > n
    ensures AllCritical(c.sendBuffer[k..]) && CarriesExactly(Encodings(c.sendBuffer[k..]), sent[n - base..])
  {
    hide ItemOf;
    var gone := |sent| - |c.sendBuffer|;
    if n - base < |sent| {
      assert !Expendable(sent[n - base], n);
    }
    k := n - base - gone;
    forall i | k <= i < |c.sendBuffer|
      ensures c.sendBuffer[i].priority == CRITICAL && ItemOf(c.sendBuffer[i].encoded) == Some(sent[i + gone])
    {
      assert Keeps(c.sendBuffer[i], sent, base);
    }
  }

  /** The sender re-emits exactly the frames n+1 to nextSeq-1, in order. */
  lemma ReplayIsMissingSuffix(c: State, sent: seq<Item>, base: nat, n: nat, o: Outcome)
    requires SenderHalf(c, sent, base, n) && IsNumbered(sent, base) && CriticalAbove(sent, base, n) && Replays(c, n, o)
    ensures CarriesExactly(o.wire, sent[n - base..])
  {
    hide SenderHalf, IsNumbered, CriticalAbove, CarriesExactly;
    var k := BufferTail(c, sent, base, n);
    ReplayLength(c.sendBuffer, n, k);
  }

  // ---- What the receiver makes of it ----

  lemma NothingAbove(last: nat, reorder: map<nat, Item>, sent: seq<Item>, base: nat)
    requires Waiting(last, reorder, sent, base) && last == base + |sent|
    ensures reorder == map[]
  {
  }

  lemma AllSeenMeansDone(last: nat, reorder: map<nat, Item>, sent: seq<Item>, base: nat)
    requires ReceiverHalf(last, reorder, sent, base)
    requires forall q :: base < q <= base + |sent| ==> HasSeen(last, reorder, base, q)
    ensures last == base + |sent| && reorder == map[]
  {
    assert !HasSeen(last, reorder, base, last + 1);
    NothingAbove(last, reorder, sent, base);
  }

  lemma EverythingSeen(last: nat, reorder: map<nat, Item>, last': nat, reorder': map<nat, Item>, sent: seq<Item>,
                       base: nat, items: seq<Item>)
    requires IsNumbered(sent, base) && base <= last && SeenGrows(last, reorder, last', reorder', base, NumbersOf(items))
    requires forall i :: 0 <= i < |sent| && base + i + 1 > last ==> sent[i] in items
    ensures forall q :: base < q <= base + |sent| ==> HasSeen(last', reorder', base, q)
  {
    forall q | base < q <= base + |sent|
      ensures HasSeen(last', reorder', base, q)
    {
      assert sent[q - base - 1].seqNo == q;
      assert HasSeen(last, reorder, base, q) || q in NumbersOf(items);
    }
  }

  /** Any arrival of honest frames that includes all the missing ones hands up exactly the missing suffix, each
      once. */
  lemma SuffixTaken(c: State, sent: seq<Item>, base: nat, items: seq<Item>)
    requires IsNumbered(sent, base) && ReceiverHalf(c.lastContiguous, c.reorder, sent, base)
    requires AllHonest(items, sent, base)
    requires forall i :: c.lastContiguous - base <= i < |sent| ==> sent[i] in items
    ensures var x := ReceiveItems(c, items);
            && x.state.lastContiguous == base + |sent| && x.state.reorder == map[]
            && x.handed == sent[c.lastContiguous - base..]
  {
    hide Process, AcceptAll, SeenGrows, IsNumbered;
    var last := c.lastContiguous;
    ReceiveItemsIs(c, items);
    AcceptAllSteps(last, c.reorder, sent, base, items);
    var a := AcceptAll(last, c.reorder, items);
    EverythingSeen(last, c.reorder, a.last, a.reorder, sent, base, items);
    AllSeenMeansDone(a.last, a.reorder, sent, base);
  }

  // ---- The acknowledgement that ends it ----

  lemma TrimAll(buffer: seq<Entry>, nextSeq: nat)
    requires Contiguous(buffer, nextSeq)
    ensures Trim(buffer, nextSeq - 1) == []
  {
    TrimAboveAck(buffer, nextSeq, nextSeq - 1);
  }

  lemma FinalAckEmpties(c: State, sent: seq<Item>, base: nat, reached: nat)
    requires SenderHalf(c, sent, base, reached)
    ensures ReceiveAck(c, c.nextSeq - 1).state.sendBuffer == []
  {
    hide Keeps, Expendable;
    TrimAll(c.sendBuffer, c.nextSeq);
  }

  lemma AckIsReceived(c: State, n: nat, window: nat)
    requires n < U32_LIMIT
    ensures Receive(c, AckBytes(n, window)) == ReceiveAck(c, n)
  {
    hide Decode, AckBytes, ReceiveAck, HandleResume, ReceiveData;
    WindowWraps(n, window);
    AckRoundTrip(n, window % U16_LIMIT, []);
    assert AckBytes(n, window % U16_LIMIT) + [] == AckBytes(n, window % U16_LIMIT);
  }

  /** Everything posted has been delivered. */
  lemma AllDelivered(s: Node, r: Node, x: Outcome)
    requires s.ch.maxFrame >= 1 && ReceiverKeeps(r, Sent(s), s.base)
    requires x.handed == Sent(s)[r.ch.lastContiguous - s.base..]
    requires x.messages == Process(r.ch.assembly, x.handed).messages
    ensures r.delivered + x.messages == Deliveries(s.base, s.posts, s.ch.maxFrame)
  {
    hide Process, AfterPrefix, ReceiverHalf;
    var sent := Sent(s);
    LastAboveBase(r, sent, s.base);
    assert sent[..|sent|] == sent;
    ProcessConcat(r.held, r.handed, x.handed);
    assert r.handed + x.handed == sent;
    PrefixDelivers(r.held, s.base, s.posts, s.ch.maxFrame, |sent|);
    WholePrefix(Process(r.held, sent), s.base, s.posts, s.ch.maxFrame);
  }

  /** Convergence. In any state of an epoch, let the sender replay for a receiver that stands at n, with every frame
      above n critical. Then it re-emits exactly n+1..nextSeq-1 in order; once these have arrived, in any order, with
      duplicates and mixed with other honest frames, the receiver has handed up exactly the missing suffix and
      delivered every post; and the ack of its next tick empties the send buffer. */
  lemma ReplayConverges(s: Node, r: Node, toR: set<bytes>, toS: set<bytes>, o: Outcome, items: seq<Item>)
    requires Link(s, r, toR, toS)
    requires Replays(s.ch, r.ch.lastContiguous, o) && CriticalAbove(Sent(s), s.base, r.ch.lastContiguous)
    requires items != [] && AllHonest(items, Sent(s), s.base)
    requires forall p :: p in o.wire && ItemOf(p).Some? ==> ItemOf(p).value in items
    ensures CarriesExactly(o.wire, Sent(s)[r.ch.lastContiguous - s.base..])
    ensures var x := ReceiveItems(r.ch, items);
            && x.state.lastContiguous == s.ch.nextSeq - 1 && x.state.reorder == map[]
            && x.handed == Sent(s)[r.ch.lastContiguous - s.base..]
            && r.delivered + x.messages == Deliveries(s.base, s.posts, s.ch.maxFrame)
            && |Tick(x.state).wire| == 1
            && Receive(o.state, Tick(x.state).wire[0]).state.sendBuffer == []
  {
    hide Process, ReceiverHalf, BufferKeeps, ItemOf, IsNumbered, AllHonest, AckBytes, Receive, ReceiveItems, AcceptAll;
    var sent, n := Sent(s), r.ch.lastContiguous;
    SentNumbered(s);
    ReplayIsMissingSuffix(s.ch, sent, s.base, n, o);
    forall i | n - s.base <= i < |sent|
      ensures sent[i] in items
    {
      assert ItemOf(o.wire[i - (n - s.base)]) == Some(sent[n - s.base..][i - (n - s.base)]);
    }
    SuffixTaken(r.ch, sent, s.base, items);
    ReceiveItemsIs(r.ch, items);
    var x := ReceiveItems(r.ch, items);
    AllDelivered(s, r, x);
    ReportKeeps(s.ch, sent, s.base, n, n, o);
    AckIsReceived(o.state, s.ch.nextSeq - 1, Window(x.state));
    FinalAckEmpties(o.state, sent, s.base, n);
  }
}
