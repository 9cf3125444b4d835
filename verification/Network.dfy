// Two ends of the protocol joined by a network that drops, duplicates, reorders and damages packets and carries them
// on any transport. An epoch is a run without a ws open, a reset or a Resume that resets something.
module Network {
  import opened Octets
  import opened Wrappers
  import opened Codec
  import opened Channel
  import opened Messages
  import opened SendBuffer
  import opened ReorderBuffer

  /** One end: its channel, the number below its first frame of the epoch, the chunk assembly it entered the epoch
      with, everything given to send, every frame handed up, every message delivered. */
  datatype Node = Node(ch: State, base: nat, held: seq<bytes>, posts: seq<Post>, handed: seq<Item>,
                       delivered: seq<Message>)

  /** The packets that may still arrive: everything put on any transport, never taken away, so that any packet may be
      lost, overtaken or repeated. */
  datatype System = System(a: Node, b: Node, toA: set<bytes>, toB: set<bytes>)

  datatype Label =
    | AtA(e: Event)
    | AtB(e: Event)
    | DamageToA(packet: bytes, k: nat, damaged: bytes)
    | DamageToB(packet: bytes, k: nat, damaged: bytes)

  function Sent(n: Node): seq<Item>
    requires n.ch.maxFrame >= 1
  {
    Numbered(n.base, n.posts, n.ch.maxFrame)
  }

  function ItemOf(packet: bytes): Option<Item> {
    match Decode(packet)
    case Some(Data(seqNo, _, _, priority, payload)) => Some(Item(payload, seqNo, priority))
    case _ => None
  }

  /** The contiguous count a packet reports, in an ack or a resume. */
  function ReportOf(packet: bytes): Option<nat> {
    match Decode(packet)
    case Some(Ack(n, _)) => Some(n)
    case Some(Resume(n)) => Some(n)
    case _ => None
  }

  function NodeStep(n: Node, e: Event): Node
    requires n.ch.maxFrame >= 1
  {
    var o := Step(n.ch, e);
    n.(ch := o.state,
       posts := if e.DoSend? then n.posts + [Post(e.payload, e.priority)] else n.posts,
       handed := n.handed + o.handed,
       delivered := n.delivered + o.messages)
  }

  function WireOf(n: Node, e: Event): set<bytes>
    requires n.ch.maxFrame >= 1
  {
    set p | p in Step(n.ch, e).wire
  }

  /** A Resume in the stale branch that changes nothing but the last ack: what a reset leaves is what there is. */
  predicate ResumeIdle(c: State, n: nat) { ResumeStale(c, n) && HandleResume(c, n).state == c.(lastAck := n) }

  /** The events of an epoch: sequence numbers stay below 2^32, and no branch of Resume resets anything. */
  predicate InEpoch(n: Node, e: Event, inbox: set<bytes>)
    requires n.ch.maxFrame >= 1
  {
    match e
    case DoSend(payload, priority, _) => priority < 256 &&
        n.ch.nextSeq + |Fragments(payload, n.ch.maxFrame)| <= U32_LIMIT
    case DoReceive(data) => data in inbox &&
        (Decode(data).Some? && Decode(data).value.Resume? ==>
           var upTo := Decode(data).value.lastAckSeq; ResumeNormal(n.ch, upTo) || ResumeIdle(n.ch, upTo))
    case DoTick => true
    case DoSendResume => true
    case DoReset => false
    case DoWsOpen => false
  }

  /** A data frame on its way, damaged inside four consecutive payload bytes. */
  predicate Damages(inbox: set<bytes>, packet: bytes, k: nat, damaged: bytes) {
    && packet in inbox && Decode(packet).Some? && Decode(packet).value.Data?
    && Encode(Decode(packet).value) == packet && PayloadDamaged(packet, k, damaged)
  }

  predicate Sized(sys: System) { sys.a.ch.maxFrame >= 1 && sys.b.ch.maxFrame >= 1 }

  predicate Enabled(sys: System, l: Label)
    requires Sized(sys)
  {
    match l
    case AtA(e) => InEpoch(sys.a, e, sys.toA)
    case AtB(e) => InEpoch(sys.b, e, sys.toB)
    case DamageToA(packet, k, damaged) => Damages(sys.toA, packet, k, damaged)
    case DamageToB(packet, k, damaged) => Damages(sys.toB, packet, k, damaged)
  }

  function Next(sys: System, l: Label): System
    requires Sized(sys)
  {
    match l
    case AtA(e) => sys.(a := NodeStep(sys.a, e), toB := sys.toB + WireOf(sys.a, e))
    case AtB(e) => sys.(b := NodeStep(sys.b, e), toA := sys.toA + WireOf(sys.b, e))
    case DamageToA(_, _, damaged) => sys.(toA := sys.toA + {damaged})
    case DamageToB(_, _, damaged) => sys.(toB := sys.toB + {damaged})
  }

  // ---- The invariant of one direction ----

  /** The sender still keeps this frame. */
  predicate Keeps(e: Entry, sent: seq<Item>, base: nat) {
    base < e.seqNo <= base + |sent|
    && ItemOf(e.encoded) == Some(sent[e.seqNo - base - 1]) && e.priority == sent[e.seqNo - base - 1].priority
  }

  /** A frame the sender may forget. */
  predicate Expendable(item: Item, reached: nat) { item.priority == BEST_EFFORT || item.seqNo <= reached }

  predicate SenderHalf(c: State, sent: seq<Item>, base: nat, reached: nat) {
    && c.nextSeq == base + |sent| + 1 <= U32_LIMIT
    && 1 <= c.maxFrame < U32_LIMIT - 1
    && c.lastAck <= reached
    && c.lastAck + |c.sendBuffer| < c.nextSeq // nothing acknowledged is still buffered
    && BufferKeeps(c.sendBuffer, c.nextSeq, sent, base, reached)
  }

  predicate BufferKeeps(buffer: seq<Entry>, nextSeq: nat, sent: seq<Item>, base: nat, reached: nat) {
    && Contiguous(buffer, nextSeq) && |buffer| <= |sent|
    && (forall i :: 0 <= i < |buffer| ==> Keeps(buffer[i], sent, base))
    && (forall i :: 0 <= i < |sent| - |buffer| ==> Expendable(sent[i], reached))
  }

  predicate HonestData(inbox: set<bytes>, sent: seq<Item>, base: nat) {
    forall p :: p in inbox && ItemOf(p).Some? ==> Honest(ItemOf(p).value, sent, base)
  }

  predicate HonestReports(inbox: set<bytes>, base: nat, reached: nat) {
    forall p :: p in inbox && ReportOf(p).Some? ==> base <= ReportOf(p).value <= reached
  }

  predicate ReceiverKeeps(r: Node, sent: seq<Item>, base: nat) {
    && ReceiverHalf(r.ch.lastContiguous, r.ch.reorder, sent, base)
    && r.handed == sent[..r.ch.lastContiguous - base]
    && Process(r.held, r.handed) == Processed(r.ch.assembly, r.delivered)
  }

  /** Direction s to r: toR holds what may reach r, toS what may come back. */
  predicate Link(s: Node, r: Node, toR: set<bytes>, toS: set<bytes>) {
    && s.ch.maxFrame >= 1
    && SenderHalf(s.ch, Sent(s), s.base, r.ch.lastContiguous)
    && ReceiverKeeps(r, Sent(s), s.base)
    && HonestData(toR, Sent(s), s.base)
    && HonestReports(toS, s.base, r.ch.lastContiguous)
  }

  predicate Inv(sys: System) {
    Link(sys.a, sys.b, sys.toB, sys.toA) && Link(sys.b, sys.a, sys.toA, sys.toB)
  }

  // ---- The sending half ----

  lemma DataPacket(seqNo: nat, timestamp: int, priority: nat, payload: bytes)
    requires seqNo < U32_LIMIT && priority < 256 && |payload| < U32_LIMIT
    ensures ItemOf(DataBytes(seqNo, timestamp, priority, payload)) == Some(Item(payload, seqNo, priority))
    ensures ReportOf(DataBytes(seqNo, timestamp, priority, payload)) == None
  {
    hide Decode, DataBytes;
    DataRoundTrip(seqNo, timestamp, priority, payload, []);
    assert DataBytes(seqNo, timestamp, priority, payload) + [] == DataBytes(seqNo, timestamp, priority, payload);
  }

  lemma ReportPacket(c: State, window: nat)
    requires c.lastContiguous < U32_LIMIT
    ensures ItemOf(AckBytes(c.lastContiguous, window)) == None
    ensures ReportOf(AckBytes(c.lastContiguous, window)) == Some(c.lastContiguous)
    ensures ItemOf(ResumeBytes(c.lastContiguous)) == None
    ensures ReportOf(ResumeBytes(c.lastContiguous)) == Some(c.lastContiguous)
  {
    hide Decode, AckBytes, ResumeBytes;
    var n := c.lastContiguous;
    WindowWraps(n, window);
    AckRoundTrip(n, window % U16_LIMIT, []);
    ResumeRoundTrip(n, []);
    assert AckBytes(n, window % U16_LIMIT) + [] == AckBytes(n, window % U16_LIMIT);
    assert ResumeBytes(n) + [] == ResumeBytes(n);
  }

  lemma WindowWraps(n: nat, window: nat)
    ensures AckBytes(n, window) == AckBytes(n, window % U16_LIMIT)
  {
    var m, q := window % U16_LIMIT, window / U16_LIMIT;
    Peel(window, m, 256 * q);
    Peel(window / 256, m / 256, q);
  }

  /** Dropping a front part of expendable frames. */
  lemma DropFront(buffer: seq<Entry>, nextSeq: nat, sent: seq<Item>, base: nat, reached: nat, k: nat)
    requires BufferKeeps(buffer, nextSeq, sent, base, reached) && IsNumbered(sent, base) && nextSeq == base + |sent| + 1
    requires k <= |buffer| && forall i :: 0 <= i < k ==> buffer[i].priority == BEST_EFFORT || buffer[i].seqNo <= reached
    ensures BufferKeeps(buffer[k..], nextSeq, sent, base, reached)
  {
    SuffixContiguous(buffer, nextSeq, k);
    var gone := |sent| - |buffer|;
    forall i | 0 <= i < |sent| - |buffer[k..]|
      ensures Expendable(sent[i], reached)
    {
      if i >= gone {
        assert Keeps(buffer[i - gone], sent, base);
      }
    }
  }

  lemma AddEntry(buffer: seq<Entry>, nextSeq: nat, sent: seq<Item>, base: nat, reached: nat, e: Entry, item: Item)
    requires BufferKeeps(buffer, nextSeq, sent, base, reached) && nextSeq == base + |sent| + 1
    requires e.seqNo == nextSeq && ItemOf(e.encoded) == Some(item) && e.priority == item.priority
    ensures BufferKeeps(buffer + [e], nextSeq + 1, sent + [item], base, reached)
  {
    hide ItemOf;
    forall i | 0 <= i < |buffer + [e]|
      ensures Keeps((buffer + [e])[i], sent + [item], base)
    {
      if i < |buffer| {
        assert Keeps(buffer[i], sent, base);
      }
    }
  }

  lemma NumberedGrows(sent: seq<Item>, base: nat, item: Item)
    requires IsNumbered(sent, base) && item.seqNo == base + |sent| + 1
    ensures IsNumbered(sent + [item], base)
  {
  }

  lemma SendOneKeeps(c: State, sent: seq<Item>, base: nat, reached: nat, payload: bytes, priority: nat,
                     clock: nat -> int)
    requires SenderHalf(c, sent, base, reached) && IsNumbered(sent, base)
    requires priority < 256 && |payload| < U32_LIMIT && c.nextSeq < U32_LIMIT
    ensures var o := SendOne(c, payload, priority, clock);
            var item := Item(payload, c.nextSeq, priority);
            && SenderHalf(o.state, sent + [item], base, reached) && IsNumbered(sent + [item], base)
            && |o.wire| == 1 && ItemOf(o.wire[0]) == Some(item) && ReportOf(o.wire[0]) == None
            && o.state.lastContiguous == c.lastContiguous && o.state.maxFrame == c.maxFrame
            && o.state.reorder == c.reorder && o.state.assembly == c.assembly
  {
    hide BufferKeeps, DataBytes, ItemOf, ReportOf, IsNumbered;
    var item := Item(payload, c.nextSeq, priority);
    DataPacket(c.nextSeq, clock(c.nextSeq), priority, payload);
    var e := Entry(c.nextSeq, priority, DataBytes(c.nextSeq, clock(c.nextSeq), priority, payload));
    AddEntry(c.sendBuffer, c.nextSeq, sent, base, reached, e, item);
    NumberedGrows(sent, base, item);
    var k := EvictDropsFront(c.sendBuffer + [e], c.maxBuffer, c.lastAck);
    DropFront(c.sendBuffer + [e], c.nextSeq + 1, sent + [item], base, reached, k);
  }

  /** Every packet carries an honest frame and no report. */
  predicate CarriesFrames(wire: seq<bytes>, sent: seq<Item>, base: nat) {
    forall i :: 0 <= i < |wire| ==>
        ItemOf(wire[i]).Some? && Honest(ItemOf(wire[i]).value, sent, base) && ReportOf(wire[i]) == None
  }

  lemma HonestGrows(item: Item, sent: seq<Item>, more: seq<Item>, base: nat)
    requires Honest(item, sent, base)
    ensures Honest(item, sent + more, base)
  {
  }

  lemma CarriesMore(wire: seq<bytes>, sent: seq<Item>, base: nat, item: Item, p: bytes)
    requires CarriesFrames(wire, sent, base) && IsNumbered(sent + [item], base)
    requires ItemOf(p) == Some(item) && ReportOf(p) == None
    ensures CarriesFrames(wire + [p], sent + [item], base)
  {
    hide ItemOf, ReportOf, Honest;
    forall i | 0 <= i < |wire|
      ensures Honest(ItemOf(wire[i]).value, sent + [item], base)
    {
      HonestGrows(ItemOf(wire[i]).value, sent, [item], base);
    }
    LastHonest(sent, base, item);
  }

  lemma LastHonest(sent: seq<Item>, base: nat, item: Item)
    requires IsNumbered(sent + [item], base)
    ensures Honest(item, sent + [item], base)
  {
    assert (sent + [item])[|sent|] == item;
  }

  lemma NumberLast(start: nat, frames: seq<bytes>, priority: nat)
    requires frames != []
    ensures Number(start, frames, priority)
         == Number(start, frames[..|frames| - 1], priority) + [Item(frames[|frames| - 1], start + |frames|, priority)]
  {
  }

  /** The other half of the channel state. */
  predicate SameInbound(c: State, d: State) {
    && d.lastContiguous == c.lastContiguous && d.reorder == c.reorder
    && d.assembly == c.assembly && d.maxFrame == c.maxFrame
  }

  predicate SameOutbound(c: State, d: State) {
    d.nextSeq == c.nextSeq && d.sendBuffer == c.sendBuffer && d.lastAck == c.lastAck && d.maxFrame == c.maxFrame
  }

  lemma {:induction false} SendAllKeeps(c: State, sent: seq<Item>, base: nat, reached: nat, frames: seq<bytes>,
                                        priority: nat, clock: nat -> int)
    requires SenderHalf(c, sent, base, reached) && IsNumbered(sent, base) && priority < 256
    requires c.nextSeq + |frames| <= U32_LIMIT && forall i :: 0 <= i < |frames| ==> |frames[i]| < U32_LIMIT
    ensures var o := SendAll(c, frames, priority, clock);
            var more := Number(base + |sent|, frames, priority);
            && SenderHalf(o.state, sent + more, base, reached) && IsNumbered(sent + more, base)
            && CarriesFrames(o.wire, sent + more, base) && SameInbound(c, o.state)
            && o.handed == [] && o.messages == []
    decreases |frames|
  {
    hide BufferKeeps, ItemOf, ReportOf, IsNumbered, SendOne, Honest;
    if frames == [] {
      assert sent + Number(base + |sent|, frames, priority) == sent;
    } else {
      var init, last := frames[..|frames| - 1], frames[|frames| - 1];
      var before := SendAll(c, init, priority, clock);
      var all := sent + Number(base + |sent|, init, priority);
      SendAllKeeps(c, sent, base, reached, init, priority, clock);
      SendOneKeeps(before.state, all, base, reached, last, priority, clock);
      NumberLast(base + |sent|, frames, priority);
      var item := Item(last, before.state.nextSeq, priority);
      assert sent + Number(base + |sent|, frames, priority) == all + [item];
      var o := SendOne(before.state, last, priority, clock);
      CarriesMore(before.wire, all, base, item, o.wire[0]);
      assert o.wire == [o.wire[0]];
    }
  }

  lemma {:induction false} PiecesFit(payload: bytes, maxFrame: nat, offset: nat)
    requires maxFrame >= 1 && offset <= |payload|
    ensures forall i :: 0 <= i < |Pieces(payload, maxFrame, offset)| ==>
        |Pieces(payload, maxFrame, offset)[i]| <= maxFrame + 1
    decreases |payload| - offset
  {
    if offset < |payload| {
      PiecesFit(payload, maxFrame, if offset + maxFrame < |payload| then offset + maxFrame else |payload|);
    }
  }

  lemma SendKeeps(n: Node, e: Event, reached: nat)
    requires n.ch.maxFrame >= 1 && e.DoSend? && InEpoch(n, e, {})
    requires SenderHalf(n.ch, Sent(n), n.base, reached)
    ensures var o := Step(n.ch, e);
            && o.state.maxFrame == n.ch.maxFrame && SameInbound(n.ch, o.state) && o.handed == [] && o.messages == []
            && Sent(n) <= Sent(NodeStep(n, e)) && IsNumbered(Sent(NodeStep(n, e)), n.base)
            && SenderHalf(o.state, Sent(NodeStep(n, e)), n.base, reached)
            && CarriesFrames(o.wire, Sent(NodeStep(n, e)), n.base)
  {
    hide BufferKeeps, CarriesFrames, SendAll, IsNumbered;
    var frames := Fragments(e.payload, n.ch.maxFrame);
    PiecesFit(e.payload, n.ch.maxFrame, 0);
    SentNumbered(n);
    SendAllKeeps(n.ch, Sent(n), n.base, reached, frames, e.priority, e.clock);
    var posts := n.posts + [Post(e.payload, e.priority)];
    assert posts[..|posts| - 1] == n.posts;
  }

  lemma SentNumbered(n: Node)
    requires n.ch.maxFrame >= 1
    ensures IsNumbered(Sent(n), n.base)
  {
    NumberedHasNumbers(n.base, n.posts, n.ch.maxFrame);
  }

  lemma KeptCarried(wire: seq<bytes>, sent: seq<Item>, base: nat, e: Entry)
    requires CarriesFrames(wire, sent, base) && Keeps(e, sent, base) && IsNumbered(sent, base)
    ensures CarriesFrames(wire + [e.encoded], sent, base)
  {
    hide ItemOf, ReportOf;
    NoReport(e.encoded);
  }

  lemma {:induction false} ReplayCarriesFrames(buffer: seq<Entry>, above: nat, sent: seq<Item>, base: nat)
    requires IsNumbered(sent, base) && forall i :: 0 <= i < |buffer| ==> Keeps(buffer[i], sent, base)
    ensures CarriesFrames(Replay(buffer, above), sent, base)
    decreases |buffer|
  {
    hide ItemOf, ReportOf, Keeps, Honest, IsNumbered;
    if buffer != [] {
      var init := buffer[..|buffer| - 1];
      ReplayCarriesFrames(init, above, sent, base);
      assert Keeps(buffer[|buffer| - 1], sent, base);
      KeptCarried(Replay(init, above), sent, base, buffer[|buffer| - 1]);
      assert Replay(init, above) + [] == Replay(init, above);
    }
  }

  lemma NoReport(p: bytes)
    requires ItemOf(p).Some?
    ensures ReportOf(p) == None
  {
  }

  lemma TrimKeeps(buffer: seq<Entry>, nextSeq: nat, sent: seq<Item>, base: nat, reached: nat, n: nat)
    requires BufferKeeps(buffer, nextSeq, sent, base, reached) && IsNumbered(sent, base) && nextSeq == base + |sent| + 1
    requires n <= reached
    ensures BufferKeeps(Trim(buffer, n), nextSeq, sent, base, reached)
  {
    hide IsNumbered, Expendable, Keeps;
    var k := TrimKeepsAbove(buffer, nextSeq, n);
    DropFront(buffer, nextSeq, sent, base, reached, k);
  }

  lemma TrimAboveAck(buffer: seq<Entry>, nextSeq: nat, n: nat)
    requires Contiguous(buffer, nextSeq) && n < nextSeq
    ensures n + |Trim(buffer, n)| < nextSeq
  {
    var k := TrimKeepsAbove(buffer, nextSeq, n);
    if k < |buffer| {
      assert buffer[k].seqNo > n;
    }
  }

  /** Any report an honest receiver can have made leaves the sender whole, and what it sends again is honest. */
  lemma ReportKeeps(c: State, sent: seq<Item>, base: nat, reached: nat, n: nat, o: Outcome)
    requires SenderHalf(c, sent, base, reached) && IsNumbered(sent, base) && n <= reached <= base + |sent|
    requires o == ReceiveAck(c, n) || (o == HandleResume(c, n) && (ResumeNormal(c, n) || ResumeIdle(c, n)))
    ensures SenderHalf(o.state, sent, base, reached) && SameInbound(c, o.state)
    ensures CarriesFrames(o.wire, sent, base) && o.handed == [] && o.messages == []
  {
    hide IsNumbered, Expendable, Keeps;
    TrimKeeps(c.sendBuffer, c.nextSeq, sent, base, reached, n);
    TrimAboveAck(c.sendBuffer, c.nextSeq, n);
    ReplayCarriesFrames(c.sendBuffer, n, sent, base);
  }

  lemma ReachedGrows(c: State, sent: seq<Item>, base: nat, reached: nat, reached': nat)
    requires SenderHalf(c, sent, base, reached) && reached <= reached'
    ensures SenderHalf(c, sent, base, reached')
  {
    hide Keeps;
    forall i | 0 <= i < |sent| - |c.sendBuffer|
      ensures Expendable(sent[i], reached')
    {
      assert Expendable(sent[i], reached);
    }
  }

  // ---- The receiving half ----

  lemma HandUp(held: seq<bytes>, handed: seq<Item>, p: Processed, sent: seq<Item>, i: nat, k: nat, run: seq<Item>)
    requires i <= k <= |sent| && handed == sent[..i] && run == sent[i..k] && Process(held, handed) == p
    ensures handed + run == sent[..k]
    ensures var q := Process(p.assembly, run);
            Process(held, handed + run) == Processed(q.assembly, p.messages + q.messages)
  {
    hide Process;
    ProcessConcat(held, handed, run);
  }

  lemma ReceiveDataKeeps(r: Node, sent: seq<Item>, base: nat, data: bytes)
    requires r.ch.maxFrame >= 1 && ReceiverKeeps(r, sent, base) && IsNumbered(sent, base)
    requires ItemOf(data).Some? && Honest(ItemOf(data).value, sent, base)
    ensures var r' := NodeStep(r, DoReceive(data));
            && ReceiverKeeps(r', sent, base) && r.ch.lastContiguous <= r'.ch.lastContiguous
            && SameOutbound(r.ch, r'.ch) && Step(r.ch, DoReceive(data)).wire == []
  {
    hide Accept, Process, ReceiverHalf, IsNumbered, Honest, SeenGrows;
    var item := ItemOf(data).value;
    var last := r.ch.lastContiguous;
    LastAboveBase(r, sent, base);
    AcceptStep(last, r.ch.reorder, sent, base, item);
    var a := Accept(last, r.ch.reorder, item);
    HandUp(r.held, r.handed, Processed(r.ch.assembly, r.delivered), sent, last - base, a.last - base, a.run);
  }

  lemma LastAboveBase(r: Node, sent: seq<Item>, base: nat)
    requires ReceiverKeeps(r, sent, base)
    ensures base <= r.ch.lastContiguous <= base + |sent|
  {
  }

  lemma ReceiverSees(r: Node, sent: seq<Item>, more: seq<Item>, base: nat)
    requires ReceiverKeeps(r, sent, base) && sent <= more
    ensures ReceiverKeeps(r, more, base)
  {
    hide Process;
  }

  // ---- One step of one node ----

  /** What one event at x keeps, seen from its peer y. */
  predicate NodeKeeps(x: Node, x': Node, wire: set<bytes>, y: Node) {
    && x.ch.maxFrame >= 1 && y.ch.maxFrame >= 1 && x'.ch.maxFrame == x.ch.maxFrame && x'.base == x.base
    && Sent(x) <= Sent(x') && x.ch.lastContiguous <= x'.ch.lastContiguous
    && SenderHalf(x'.ch, Sent(x'), x.base, y.ch.lastContiguous)
    && ReceiverKeeps(x', Sent(y), y.base)
    && HonestData(wire, Sent(x'), x.base)
    && (forall p :: p in wire && ReportOf(p).Some? ==> ReportOf(p).value == x'.ch.lastContiguous)
  }

  lemma FramesAreHonest(wire: seq<bytes>, sent: seq<Item>, base: nat)
    requires CarriesFrames(wire, sent, base)
    ensures HonestData((set p | p in wire), sent, base)
    ensures forall p :: p in wire ==> ReportOf(p) == None
  {
    hide ItemOf, ReportOf, Honest;
  }

  lemma UnchangedInbound(x: Node, e: Event, sent: seq<Item>, base: nat)
    requires x.ch.maxFrame >= 1 && ReceiverKeeps(x, sent, base)
    requires SameInbound(x.ch, Step(x.ch, e).state) && Step(x.ch, e).handed == [] && Step(x.ch, e).messages == []
    ensures ReceiverKeeps(NodeStep(x, e), sent, base)
  {
    hide Process, Step, ReceiverHalf;
    assert x.handed + [] == x.handed && x.delivered + [] == x.delivered;
  }

  lemma SendStep(x: Node, e: Event, y: Node, inbox: set<bytes>)
    requires Link(x, y, {}, inbox) && Link(y, x, inbox, {})
    requires e.DoSend? && InEpoch(x, e, inbox)
    ensures NodeKeeps(x, NodeStep(x, e), WireOf(x, e), y)
  {
    hide SenderHalf, ReceiverKeeps, CarriesFrames, HonestData, Step, Sent, ReportOf;
    SendKeeps(x, e, y.ch.lastContiguous);
    UnchangedInbound(x, e, Sent(y), y.base);
    FramesAreHonest(Step(x.ch, e).wire, Sent(NodeStep(x, e)), x.base);
  }

  lemma ReceiveDataStep(x: Node, data: bytes, y: Node, inbox: set<bytes>)
    requires Link(x, y, {}, inbox) && Link(y, x, inbox, {})
    requires InEpoch(x, DoReceive(data), inbox) && ItemOf(data).Some?
    ensures NodeKeeps(x, NodeStep(x, DoReceive(data)), WireOf(x, DoReceive(data)), y)
  {
    hide ReceiverKeeps, Step, ItemOf, BufferKeeps, IsNumbered;
    SentNumbered(y);
    assert data in inbox;
    ReceiveDataKeeps(x, Sent(y), y.base, data);
    assert WireOf(x, DoReceive(data)) == {};
  }

  lemma ReachedBound(s: Node, r: Node, toR: set<bytes>, toS: set<bytes>)
    requires Link(s, r, toR, toS)
    ensures s.base <= r.ch.lastContiguous <= s.base + |Sent(s)|
  {
    hide SenderHalf, HonestData, HonestReports;
    LastAboveBase(r, Sent(s), s.base);
  }

  lemma ReceiveReportStep(x: Node, data: bytes, y: Node, inbox: set<bytes>)
    requires Link(x, y, {}, inbox) && Link(y, x, inbox, {})
    requires InEpoch(x, DoReceive(data), inbox) && ReportOf(data).Some?
    ensures NodeKeeps(x, NodeStep(x, DoReceive(data)), WireOf(x, DoReceive(data)), y)
  {
    hide ReceiverKeeps, BufferKeeps, CarriesFrames, IsNumbered;
    var n := ReportOf(data).value;
    var o := Step(x.ch, DoReceive(data));
    SentNumbered(x);
    assert data in inbox;
    ReachedBound(x, y, {}, inbox);
    ReportKeeps(x.ch, Sent(x), x.base, y.ch.lastContiguous, n, o);
    UnchangedInbound(x, DoReceive(data), Sent(y), y.base);
    FramesAreHonest(o.wire, Sent(x), x.base);
  }

  lemma ReceiveNoiseStep(x: Node, data: bytes, y: Node, inbox: set<bytes>)
    requires Link(x, y, {}, inbox) && Link(y, x, inbox, {}) && Decode(data) == None
    ensures NodeKeeps(x, NodeStep(x, DoReceive(data)), WireOf(x, DoReceive(data)), y)
  {
    hide ReceiverKeeps, BufferKeeps, Decode;
    UnchangedInbound(x, DoReceive(data), Sent(y), y.base);
    assert WireOf(x, DoReceive(data)) == {};
  }

  lemma ReportingStep(x: Node, e: Event, y: Node, inbox: set<bytes>)
    requires Link(x, y, {}, inbox) && Link(y, x, inbox, {}) && (e.DoTick? || e.DoSendResume?)
    ensures NodeKeeps(x, NodeStep(x, e), WireOf(x, e), y)
  {
    hide ReceiverKeeps, BufferKeeps, ItemOf, ReportOf, AckBytes, ResumeBytes;
    InboundBound(x, y);
    ReportPacket(x.ch, Window(x.ch));
    UnchangedInbound(x, e, Sent(y), y.base);
  }

  lemma InboundBound(x: Node, y: Node)
    requires Link(y, x, {}, {})
    ensures x.ch.lastContiguous < U32_LIMIT
  {
  }

  lemma NarrowLink(s: Node, r: Node, toR: set<bytes>, toS: set<bytes>, toR': set<bytes>, toS': set<bytes>)
    requires Link(s, r, toR, toS) && toR' <= toR && toS' <= toS
    ensures Link(s, r, toR', toS')
  {
    hide SenderHalf, ReceiverKeeps, ItemOf, ReportOf, Honest;
  }

  lemma EventStep(x: Node, e: Event, y: Node, inbox: set<bytes>)
    requires Link(x, y, {}, inbox) && Link(y, x, inbox, {}) && InEpoch(x, e, inbox)
    ensures NodeKeeps(x, NodeStep(x, e), WireOf(x, e), y)
  {
    hide NodeKeeps, Link;
    match e
    case DoSend(_, _, _) =>
      SendStep(x, e, y, inbox);
    case DoReceive(data) =>
      if ItemOf(data).Some? {
        ReceiveDataStep(x, data, y, inbox);
      } else if ReportOf(data).Some? {
        ReceiveReportStep(x, data, y, inbox);
      } else {
        ReceiveNoiseStep(x, data, y, inbox);
      }
    case _ =>
      ReportingStep(x, e, y, inbox);
  }

  // ---- Whole runs ----

  /** One event at x keeps both directions. */
  lemma LinksKept(x: Node, x': Node, wire: set<bytes>, y: Node, toX: set<bytes>, toY: set<bytes>)
    requires Link(x, y, toY, toX) && Link(y, x, toX, toY) && NodeKeeps(x, x', wire, y)
    ensures Link(x', y, toY + wire, toX) && Link(y, x', toX, toY + wire)
  {
    hide ItemOf, ReportOf, Process, BufferKeeps;
    ReceiverSees(y, Sent(x), Sent(x'), x.base);
    ReachedGrows(y.ch, Sent(y), y.base, x.ch.lastContiguous, x'.ch.lastContiguous);
    forall p | p in toY + wire && ItemOf(p).Some?
      ensures Honest(ItemOf(p).value, Sent(x'), x.base)
    {
      if p in toY {
        HonestGrows(ItemOf(p).value, Sent(x), Sent(x')[|Sent(x)|..], x.base);
        assert Sent(x) + Sent(x')[|Sent(x)|..] == Sent(x');
      }
    }
  }

  lemma DamageIsNoise(inbox: set<bytes>, packet: bytes, k: nat, damaged: bytes)
    requires Damages(inbox, packet, k, damaged)
    ensures Decode(damaged) == None
  {
    hide Decode, DataBytes;
    match Decode(packet).value
    case Data(seqNo, timestamp, _, priority, payload) =>
      DecodedRange(packet);
      DamageRejected(seqNo, timestamp, priority, payload, k, damaged);
  }

  lemma NoiseKept(s: Node, r: Node, toR: set<bytes>, toS: set<bytes>, p: bytes)
    requires Link(s, r, toR, toS) && Decode(p) == None
    ensures Link(s, r, toR + {p}, toS) && Link(s, r, toR, toS + {p})
  {
    hide SenderHalf, ReceiverKeeps, Decode, Honest;
  }

  lemma EventKeepsLinks(x: Node, e: Event, y: Node, toX: set<bytes>, toY: set<bytes>)
    requires Link(x, y, toY, toX) && Link(y, x, toX, toY) && InEpoch(x, e, toX)
    ensures Link(NodeStep(x, e), y, toY + WireOf(x, e), toX) && Link(y, NodeStep(x, e), toX, toY + WireOf(x, e))
  {
    hide SenderHalf, ReceiverKeeps, HonestData, HonestReports, InEpoch, NodeStep, WireOf, NodeKeeps;
    NarrowLink(x, y, toY, toX, {}, toX);
    NarrowLink(y, x, toX, toY, toX, {});
    EventStep(x, e, y, toX);
    LinksKept(x, NodeStep(x, e), WireOf(x, e), y, toX, toY);
  }

  /** Every step of an epoch keeps both directions. */
  lemma StepKeepsInv(sys: System, l: Label)
    requires Inv(sys) && Enabled(sys, l)
    ensures Sized(Next(sys, l)) && Inv(Next(sys, l))
  {
    hide SenderHalf, ReceiverKeeps, HonestData, HonestReports, Decode, InEpoch, Damages, NodeStep, WireOf;
    match l
    case AtA(e) =>
      EventKeepsLinks(sys.a, e, sys.b, sys.toA, sys.toB);
    case AtB(e) =>
      EventKeepsLinks(sys.b, e, sys.a, sys.toB, sys.toA);
    case DamageToA(packet, k, damaged) =>
      DamageIsNoise(sys.toA, packet, k, damaged);
      NoiseKept(sys.a, sys.b, sys.toB, sys.toA, damaged);
      NoiseKept(sys.b, sys.a, sys.toA, sys.toB, damaged);
    case DamageToB(packet, k, damaged) =>
      DamageIsNoise(sys.toB, packet, k, damaged);
      NoiseKept(sys.a, sys.b, sys.toB, sys.toA, damaged);
      NoiseKept(sys.b, sys.a, sys.toA, sys.toB, damaged);
  }

  /** A run of an epoch. */
  ghost predicate EpochRun(sys: System, labels: seq<Label>)
    decreases |labels|
  {
    labels == [] || (EpochRun(sys, labels[..|labels| - 1])
      && Sized(After(sys, labels[..|labels| - 1])) && Enabled(After(sys, labels[..|labels| - 1]), labels[|labels| - 1]))
  }

  /** The system after a run; labels that the channels cannot take leave it alone. */
  function After(sys: System, labels: seq<Label>): System
    decreases |labels|
  {
    if labels == [] then sys
    else
      var before := After(sys, labels[..|labels| - 1]);
      if Sized(before) then Next(before, labels[|labels| - 1]) else before
  }

  lemma {:induction false} RunKeepsInv(sys: System, labels: seq<Label>)
    requires Inv(sys) && EpochRun(sys, labels)
    ensures Inv(After(sys, labels))
    decreases |labels|
  {
    hide Inv, Enabled, Next;
    if labels != [] {
      RunKeepsInv(sys, labels[..|labels| - 1]);
      StepKeepsInv(After(sys, labels[..|labels| - 1]), labels[|labels| - 1]);
    }
  }

  /** How an epoch begins: in each direction the sender's numbers start right above what the receiver has, nothing is
      buffered and no packet of an earlier epoch is on its way. The chunk assemblies may hold anything. */
  predicate EpochStart(sys: System) {
    && sys.toA == {} && sys.toB == {} && FreshDirection(sys.a, sys.b) && FreshDirection(sys.b, sys.a)
  }

  predicate FreshDirection(s: Node, r: Node) {
    && 1 <= s.ch.maxFrame < U32_LIMIT - 1
    && s.ch.nextSeq == s.base + 1 <= U32_LIMIT && s.ch.sendBuffer == [] && s.ch.lastAck <= s.base && s.posts == []
    && r.ch.lastContiguous == s.base && r.ch.reorder == map[]
    && r.handed == [] && r.delivered == [] && r.held == r.ch.assembly
  }

  lemma StartHasInv(sys: System)
    requires EpochStart(sys)
    ensures Inv(sys)
  {
    FreshHasLink(sys.a, sys.b);
    FreshHasLink(sys.b, sys.a);
  }

  lemma FreshHasLink(s: Node, r: Node)
    requires FreshDirection(s, r)
    ensures Link(s, r, {}, {})
  {
    assert Process(r.held, r.handed) == Processed(r.held, []);
  }

  function NewNode(maxBuffer: nat, maxFrame: nat): Node { Node(Init(maxBuffer, maxFrame), 0, [], [], [], []) }

  /** Two new channels begin an epoch. */
  lemma NewChannelsStart(maxBufferA: nat, maxFrameA: nat, maxBufferB: nat, maxFrameB: nat)
    requires 1 <= maxFrameA < U32_LIMIT - 1 && 1 <= maxFrameB < U32_LIMIT - 1
    ensures EpochStart(System(NewNode(maxBufferA, maxFrameA), NewNode(maxBufferB, maxFrameB), {}, {}))
  {
  }

  // ---- What holds at any moment of any epoch ----

  /** Frames are handed up in order, without a gap, each exactly once: a prefix of the frames the peer numbered. */
  predicate FramesInOrder(s: Node, r: Node)
    requires s.ch.maxFrame >= 1
  {
    r.handed <= Sent(s) && |r.handed| == r.ch.lastContiguous - s.base
  }

  /** The messages delivered are exactly the posts whose frames have all been handed up, in order and byte for byte,
      and the chunk assembly holds exactly the pieces of the one unfinished post. */
  predicate MessagesInOrder(s: Node, r: Node)
    requires s.ch.maxFrame >= 1
  {
    AfterPrefix(Processed(r.ch.assembly, r.delivered), s.base, s.posts, s.ch.maxFrame, |r.handed|)
  }

  /** Every frame that is not best-effort has been handed up by the peer or is still in the send buffer. */
  predicate NothingLost(s: Node, r: Node)
    requires s.ch.maxFrame >= 1
  {
    forall i :: 0 <= i < |Sent(s)| && Sent(s)[i].priority != BEST_EFFORT ==>
      Sent(s)[i] in r.handed || exists e :: e in s.ch.sendBuffer && ItemOf(e.encoded) == Some(Sent(s)[i])
  }

  /** An honest report never claims frames that were not sent: the first reset branch of Resume is unreachable in an
      epoch. */
  lemma NeverAhead(s: Node, r: Node, toR: set<bytes>, toS: set<bytes>, p: bytes)
    requires Link(s, r, toR, toS) && p in toS && ReportOf(p).Some?
    ensures !ResumeAhead(s.ch, ReportOf(p).value)
  {
    hide ReportOf, Process, BufferKeeps, ItemOf;
  }

  lemma LinkDelivers(s: Node, r: Node, toR: set<bytes>, toS: set<bytes>)
    requires Link(s, r, toR, toS)
    ensures FramesInOrder(s, r) && MessagesInOrder(s, r)
  {
    hide AfterPrefix, SenderHalf, HonestData, HonestReports;
    var k := r.ch.lastContiguous - s.base;
    PrefixDelivers(r.held, s.base, s.posts, s.ch.maxFrame, k);
    assert |Sent(s)[..k]| == k;
  }

  /** No frame handed up in an epoch takes the unknown-tag branch. */
  lemma UnknownTagUnreachable(s: Node, r: Node, toR: set<bytes>, toS: set<bytes>)
    requires Link(s, r, toR, toS)
    ensures forall i :: 0 <= i < |r.handed| ==> KnownTag(r.handed[i].payload)
  {
    hide KnownTag, Process, SenderHalf, HonestData, HonestReports;
    NumberedTagged(s.base, s.posts, s.ch.maxFrame);
  }

  lemma LinkLosesNothing(s: Node, r: Node, toR: set<bytes>, toS: set<bytes>)
    requires Link(s, r, toR, toS)
    ensures NothingLost(s, r)
  {
    hide ItemOf, Honest, Process;
    SentNumbered(s);
    var sent, buffer := Sent(s), s.ch.sendBuffer;
    forall i | 0 <= i < |sent| && sent[i].priority != BEST_EFFORT
      ensures sent[i] in r.handed || exists e :: e in buffer && ItemOf(e.encoded) == Some(sent[i])
    {
      if i < |sent| - |buffer| {
        assert Expendable(sent[i], r.ch.lastContiguous);
        assert r.handed[i] == sent[i];
      } else {
        var e := buffer[i - (|sent| - |buffer|)];
        assert Keeps(e, sent, s.base);
        assert e in buffer;
      }
    }
  }

  /** Nothing the peer still needs is in the send buffer. */
  predicate NothingPending(s: Node, r: Node) {
    forall e :: e in s.ch.sendBuffer ==> e.priority == BEST_EFFORT || e.seqNo <= r.ch.lastContiguous
  }

  /** Every frame that is not best-effort has been handed up. */
  predicate AllHandedUp(s: Node, r: Node)
    requires s.ch.maxFrame >= 1
  {
    forall i :: 0 <= i < |Sent(s)| && Sent(s)[i].priority != BEST_EFFORT ==> Sent(s)[i] in r.handed
  }

  lemma HandedByNumber(s: Node, r: Node)
    requires Link(s, r, {}, {})
    ensures forall i :: 0 <= i < |Sent(s)| ==> (Sent(s)[i] in r.handed <==> Sent(s)[i].seqNo <= r.ch.lastContiguous)
  {
    hide SenderHalf, Process;
    SentNumbered(s);
    HandedNumbers(r.handed, Sent(s), s.base, r.ch.lastContiguous);
  }

  lemma PendingIfHandedUp(s: Node, r: Node)
    requires Link(s, r, {}, {}) && AllHandedUp(s, r)
    ensures NothingPending(s, r)
  {
    hide ItemOf, ReceiverKeeps;
    SentNumbered(s);
    HandedByNumber(s, r);
    forall e | e in s.ch.sendBuffer
      ensures e.priority == BEST_EFFORT || e.seqNo <= r.ch.lastContiguous
    {
      var i :| 0 <= i < |s.ch.sendBuffer| && s.ch.sendBuffer[i] == e;
      assert Keeps(s.ch.sendBuffer[i], Sent(s), s.base);
      assert Sent(s)[e.seqNo - s.base - 1].seqNo == e.seqNo;
    }
  }

  lemma HandedUpIfNothingPending(s: Node, r: Node)
    requires Link(s, r, {}, {}) && NothingPending(s, r)
    ensures AllHandedUp(s, r)
  {
    hide ItemOf, ReceiverKeeps;
    SentNumbered(s);
    HandedByNumber(s, r);
    var sent, buffer := Sent(s), s.ch.sendBuffer;
    var gone := |sent| - |buffer|;
    forall i | 0 <= i < |sent| && sent[i].priority != BEST_EFFORT
      ensures sent[i] in r.handed
    {
      if i < gone {
        assert Expendable(sent[i], r.ch.lastContiguous);
      } else {
        assert Keeps(buffer[i - gone], sent, s.base) && buffer[i - gone] in buffer;
      }
    }
  }

  /** README, "no data lost", at the boundary of an epoch: opening a ws transport forgets the send buffer, and nothing
      is lost exactly when every frame in it is best-effort or already handed up by the peer. */
  lemma WsOpenForgets(s: Node, r: Node, toR: set<bytes>, toS: set<bytes>)
    requires Link(s, r, toR, toS)
    ensures NothingLost(s.(ch := WsOpen(s.ch).state), r) <==> NothingPending(s, r)
  {
    hide SenderHalf, ReceiverKeeps, HonestData, HonestReports, ItemOf;
    NarrowLink(s, r, toR, toS, {}, {});
    var s' := s.(ch := WsOpen(s.ch).state);
    assert Sent(s') == Sent(s) && s'.ch.sendBuffer == [];
    assert NothingLost(s', r) <==> AllHandedUp(s, r);
    if AllHandedUp(s, r) {
      PendingIfHandedUp(s, r);
    }
    if NothingPending(s, r) {
      HandedUpIfNothingPending(s, r);
    }
  }

  lemma HandedNumbers(handed: seq<Item>, sent: seq<Item>, base: nat, last: nat)
    requires IsNumbered(sent, base) && base <= last <= base + |sent| && handed == sent[..last - base]
    ensures forall i :: 0 <= i < |sent| ==> (sent[i] in handed <==> sent[i].seqNo <= last)
  {
    forall i | 0 <= i < |sent|
      ensures sent[i] in handed <==> sent[i].seqNo <= last
    {
      if i < last - base {
        assert handed[i] == sent[i];
      }
    }
  }

  /** Safety of every epoch: over any schedule of sends, ticks, resumes, losses, repetitions, overtakings and damage,
      in both directions. */
  lemma EpochSafety(sys: System, labels: seq<Label>)
    requires EpochStart(sys) && EpochRun(sys, labels)
    ensures var t := After(sys, labels);
            && Sized(t)
            && FramesInOrder(t.a, t.b) && MessagesInOrder(t.a, t.b) && NothingLost(t.a, t.b)
            && FramesInOrder(t.b, t.a) && MessagesInOrder(t.b, t.a) && NothingLost(t.b, t.a)
  {
    hide FramesInOrder, MessagesInOrder, NothingLost, SenderHalf, ReceiverKeeps, HonestData, HonestReports;
    StartHasInv(sys);
    RunKeepsInv(sys, labels);
    var t := After(sys, labels);
    LinkDelivers(t.a, t.b, t.toB, t.toA);
    LinkDelivers(t.b, t.a, t.toA, t.toB);
    LinkLosesNothing(t.a, t.b, t.toB, t.toA);
    LinkLosesNothing(t.b, t.a, t.toA, t.toB);
  }

  // ---- Runs of several epochs ----

  /** Everything EpochSafety promises at one moment. */
  predicate Safe(t: System) {
    && Sized(t)
    && FramesInOrder(t.a, t.b) && MessagesInOrder(t.a, t.b) && NothingLost(t.a, t.b)
    && FramesInOrder(t.b, t.a) && MessagesInOrder(t.b, t.a) && NothingLost(t.b, t.a)
  }

  /** An end whose ws transport has opened; it still holds its chunk assembly. Its resume is the first event to
      come. */
  function Reopened(n: Node): Node { Node(WsOpen(n.ch).state, 0, n.ch.assembly, [], [], []) }

  /** Both ends have opened a new connection, and nothing sent before is on its way any more. */
  function Reconnected(sys: System): System { System(Reopened(sys.a), Reopened(sys.b), {}, {}) }

  predicate Framed(sys: System) {
    1 <= sys.a.ch.maxFrame < U32_LIMIT - 1 && 1 <= sys.b.ch.maxFrame < U32_LIMIT - 1
  }

  /** A new connection begins an epoch, whatever went before and whatever the chunk assemblies hold; what the open puts
      on the wire is the resume of the new state, which the other end, having nothing yet, takes without a change. */
  lemma ReconnectStarts(sys: System)
    requires Framed(sys)
    ensures EpochStart(Reconnected(sys)) && Framed(Reconnected(sys))
    ensures WsOpen(sys.a.ch).wire == SendResume(Reopened(sys.a).ch).wire == [ResumeBytes(0)]
    ensures ResumeIdle(Reopened(sys.a).ch, 0) && ResumeIdle(Reopened(sys.b).ch, 0)
  {
  }

  /** Each epoch begins with a new connection at both ends. */
  function AfterEpochs(sys: System, epochs: seq<seq<Label>>): System
    decreases |epochs|
  {
    if epochs == [] then sys
    else After(Reconnected(AfterEpochs(sys, epochs[..|epochs| - 1])), epochs[|epochs| - 1])
  }

  ghost predicate EpochsRun(sys: System, epochs: seq<seq<Label>>)
    decreases |epochs|
  {
    epochs == []
    || (EpochsRun(sys, epochs[..|epochs| - 1])
        && EpochRun(Reconnected(AfterEpochs(sys, epochs[..|epochs| - 1])), epochs[|epochs| - 1]))
  }

  lemma InvFramed(sys: System)
    requires Inv(sys)
    ensures Framed(sys)
  {
    hide ReceiverKeeps, HonestData, HonestReports, BufferKeeps;
  }

  lemma {:induction false} EpochsFramed(sys: System, epochs: seq<seq<Label>>)
    requires Framed(sys) && EpochsRun(sys, epochs)
    ensures Framed(AfterEpochs(sys, epochs))
    decreases |epochs|
  {
    hide Framed, EpochStart, Inv, EpochRun;
    if epochs != [] {
      var before := AfterEpochs(sys, epochs[..|epochs| - 1]);
      EpochsFramed(sys, epochs[..|epochs| - 1]);
      ReconnectStarts(before);
      StartHasInv(Reconnected(before));
      RunKeepsInv(Reconnected(before), epochs[|epochs| - 1]);
      InvFramed(AfterEpochs(sys, epochs));
    }
  }

  /** Safety at any moment of a run of any number of epochs, each against what its own epoch posted. */
  lemma EveryEpochSafe(sys: System, epochs: seq<seq<Label>>)
    requires Framed(sys) && epochs != [] && EpochsRun(sys, epochs)
    ensures Safe(AfterEpochs(sys, epochs))
  {
    hide Framed, EpochStart, EpochRun, FramesInOrder, MessagesInOrder, NothingLost;
    var before := AfterEpochs(sys, epochs[..|epochs| - 1]);
    EpochsFramed(sys, epochs[..|epochs| - 1]);
    ReconnectStarts(before);
    EpochSafety(Reconnected(before), epochs[|epochs| - 1]);
  }
}
