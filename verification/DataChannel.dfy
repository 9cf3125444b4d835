// Framing and chunking on the WebRTC data channel (browser/js/gpu.js): [type][length u32][payload], with large
// payloads cut into chunk frames that carry [index u32][count u32][original type][piece].
module DataChannel {
  import opened Octets
  import opened Wrappers
  import opened Codec

  const JSON: byte := 0x01
  const BINARY: byte := 0x02
  const CHUNK: byte := 0x05
  const CHUNK_SIZE: nat := 16384
  const FRAME_HEADER: nat := 5
  const CHUNK_HEADER: nat := 9
  const CHUNK_DATA_SIZE: nat := CHUNK_SIZE - FRAME_HEADER - CHUNK_HEADER

  /** A message handed to the handler of its type. */
  datatype Delivery = Delivery(kind: byte, data: bytes)

  /** The reassembly state: parts is a sparse array of this length. */
  datatype Assembly = Assembly(total: nat, originalType: byte, parts: map<nat, bytes>, length: nat, received: nat)

  datatype Outcome = Outcome(chunks: Option<Assembly>, delivered: seq<Delivery>)

  // ---- Sending ----

  function FrameOf(kind: byte, payload: bytes): bytes {
    [kind] + U32(|payload|) + payload
  }

  function ChunkCount(length: nat): nat { (length + CHUNK_DATA_SIZE - 1) / CHUNK_DATA_SIZE }

  function Min(a: nat, b: nat): nat { if a < b then a else b }

  function Piece(payload: bytes, i: nat): bytes
    requires i < ChunkCount(|payload|)
  {
    payload[i * CHUNK_DATA_SIZE..Min((i + 1) * CHUNK_DATA_SIZE, |payload|)]
  }

  function ChunkBody(kind: byte, total: nat, i: nat, piece: bytes): bytes {
    U32(i) + U32(total) + [kind] + piece
  }

  function ChunkFrame(kind: byte, payload: bytes, i: nat): bytes
    requires i < ChunkCount(|payload|)
  {
    FrameOf(CHUNK, ChunkBody(kind, ChunkCount(|payload|), i, Piece(payload, i)))
  }

  predicate Single(payload: bytes) { FRAME_HEADER + |payload| <= CHUNK_SIZE }

  function Frames(kind: byte, payload: bytes): seq<bytes> {
    if Single(payload) then [FrameOf(kind, payload)]
    else seq(ChunkCount(|payload|), i requires 0 <= i < ChunkCount(|payload|) => ChunkFrame(kind, payload, i))
  }

  // ---- Receiving ----

  predicate Filled(a: Assembly) {
    forall i :: 0 <= i < a.length ==> i in a.parts
  }

  function Join(parts: map<nat, bytes>, n: nat): bytes
    requires forall i :: 0 <= i < n ==> i in parts
  {
    if n == 0 then [] else Join(parts, n - 1) + parts[n - 1]
  }

  /** Storing past the end makes the array longer; the largest 32-bit number is not an array index. */
  function Store(a: Assembly, i: nat, piece: bytes): Assembly {
    if i in a.parts then a
    else a.(parts := a.parts[i := piece],
            length := if a.length <= i < U32_LIMIT - 1 then i + 1 else a.length,
            received := a.received + 1)
  }

  /** Emits the message once enough parts are in; a hole among them raises an error that leaves the state as it is. */
  function Finish(a: Assembly): Outcome {
    if a.received < a.total || !Filled(a) then Outcome(Some(a), [])
    else Outcome(None, if a.originalType == JSON || a.originalType == BINARY
                       then [Delivery(a.originalType, Join(a.parts, a.length))] else [])
  }

  /** The assembly a chunk of total belongs to: the current one only if its total is the same. */
  function Begin(chunks: Option<Assembly>, total: nat, kind: byte): Assembly {
    if chunks.None? || chunks.value.total != total then Assembly(total, kind, map[], total, 0) else chunks.value
  }

  function Arrive(chunks: Option<Assembly>, i: nat, total: nat, kind: byte, piece: bytes): Outcome {
    Finish(Store(Begin(chunks, total, kind), i, piece))
  }

  function ReceiveChunk(chunks: Option<Assembly>, body: bytes): Outcome {
    if |body| < CHUNK_HEADER then Outcome(chunks, [])
    else Arrive(chunks, ReadU32(body, 0), ReadU32(body, 4), body[8], body[CHUNK_HEADER..])
  }

  function Body(data: bytes): bytes
    requires |data| >= FRAME_HEADER
  {
    data[FRAME_HEADER..Min(FRAME_HEADER + ReadU32(data, 1), |data|)]
  }

  /** dc.onmessage for one binary message; pings and pongs touch neither the assembly nor the handlers. */
  function Receive(chunks: Option<Assembly>, data: bytes): Outcome {
    if |data| < FRAME_HEADER then Outcome(chunks, [])
    else if data[0] == JSON || data[0] == BINARY then Outcome(chunks, [Delivery(data[0], Body(data))])
    else if data[0] == CHUNK then ReceiveChunk(chunks, Body(data))
    else Outcome(chunks, [])
  }

  function ReceiveAll(chunks: Option<Assembly>, frames: seq<bytes>): Outcome
    decreases |frames|
  {
    if frames == [] then Outcome(chunks, [])
    else
      var before := ReceiveAll(chunks, frames[..|frames| - 1]);
      var last := Receive(before.chunks, frames[|frames| - 1]);
      Outcome(last.chunks, before.delivered + last.delivered)
  }

  // ---- Sizes ----

  lemma PieceSize(payload: bytes, i: nat)
    requires i < ChunkCount(|payload|)
    ensures i * CHUNK_DATA_SIZE < |payload|
    ensures 0 < |Piece(payload, i)| <= CHUNK_DATA_SIZE
  {
    var n := ChunkCount(|payload|);
    assert n * CHUNK_DATA_SIZE <= |payload| + CHUNK_DATA_SIZE - 1;
  }

  /** No frame is larger than the limit, and every chunk carries something. */
  lemma FramesFit(kind: byte, payload: bytes, k: nat)
    requires k < |Frames(kind, payload)|
    ensures |Frames(kind, payload)[k]| <= CHUNK_SIZE
    ensures !Single(payload) ==> |Frames(kind, payload)[k]| > FRAME_HEADER + CHUNK_HEADER
  {
    hide U32, Piece;
    if !Single(payload) {
      PieceSize(payload, k);
    }
  }

  /** The frames with the numbers of the format written out: one frame up to 16379 bytes; otherwise chunks of 16370
      bytes, each with its length, its index, the number of chunks and the type in front. */
  lemma FramesExactly(kind: byte, payload: bytes, k: nat)
    requires k < |Frames(kind, payload)| && |payload| < U32_LIMIT
    ensures var frames := Frames(kind, payload);
            var f := frames[k];
            if |payload| <= 16379 then |frames| == 1 && f == [kind] + U32(|payload|) + payload
            else
              && |frames| == (|payload| + 16369) / 16370
              && |f| >= 14 && f[0] == 0x05 && ReadU32(f, 1) == |f| - 5
              && ReadU32(f, 5) == k && ReadU32(f, 9) == |frames| && f[13] == kind
              && k * 16370 < |payload|
              && f[14..] == payload[k * 16370..if (k + 1) * 16370 < |payload| then (k + 1) * 16370 else |payload|]
  {
    hide U32, Piece;
    if !Single(payload) {
      var n, f := ChunkCount(|payload|), ChunkFrame(kind, payload, k);
      PieceSize(payload, k);
      PieceIs(payload, k);
      var body := ChunkBody(kind, n, k, Piece(payload, k));
      ChunkLayout(kind, n, k, Piece(payload, k));
      FieldAt(f, 1, |body|);
      FieldAt(f, 5, k);
      FieldAt(f, 9, n);
    }
  }

  lemma PieceIs(payload: bytes, k: nat)
    requires k < ChunkCount(|payload|)
    ensures k * 16370 < |payload|
    ensures Piece(payload, k) == payload[k * 16370..if (k + 1) * 16370 < |payload| then (k + 1) * 16370 else |payload|]
  {
    PieceSize(payload, k);
  }

  lemma ChunkLayout(kind: byte, n: nat, k: nat, piece: bytes)
    ensures var body := ChunkBody(kind, n, k, piece);
            var f := FrameOf(CHUNK, body);
            && |body| == 9 + |piece| && |f| == 14 + |piece| && f[0] == 0x05 && f[13] == kind && f[14..] == piece
            && f[1..5] == U32(|body|) && f[5..9] == U32(k) && f[9..13] == U32(n)
  {
    hide U32;
  }

  lemma FieldAt(f: bytes, at: nat, value: nat)
    requires at + 4 <= |f| && value < U32_LIMIT && f[at..at + 4] == U32(value)
    ensures ReadU32(f, at) == value
  {
    U32RoundTrip(value, f, at);
  }

  lemma NextPiece(payload: bytes, i: nat)
    requires i < ChunkCount(|payload|)
    ensures payload[..Min(i * CHUNK_DATA_SIZE, |payload|)] + Piece(payload, i)
         == payload[..Min((i + 1) * CHUNK_DATA_SIZE, |payload|)]
  {
    PieceSize(payload, i);
    JoinNext(payload, i * CHUNK_DATA_SIZE, Min((i + 1) * CHUNK_DATA_SIZE, |payload|));
  }

  lemma {:induction false} PiecesJoin(payload: bytes, parts: map<nat, bytes>, n: nat)
    requires n <= ChunkCount(|payload|)
    requires forall i :: 0 <= i < n ==> i in parts && parts[i] == Piece(payload, i)
    ensures Join(parts, n) == payload[..Min(n * CHUNK_DATA_SIZE, |payload|)]
    decreases n
  {
    hide Piece, ChunkCount;
    if n > 0 {
      PiecesJoin(payload, parts, n - 1);
      NextPiece(payload, n - 1);
    }
  }

  lemma JoinNext(payload: bytes, p: nat, q: nat)
    requires p <= q <= |payload|
    ensures payload[..p] + payload[p..q] == payload[..q]
  {
  }

  lemma CountCovers(payload: bytes)
    ensures Min(ChunkCount(|payload|) * CHUNK_DATA_SIZE, |payload|) == |payload|
    ensures !Single(payload) ==> ChunkCount(|payload|) >= 2
  {
  }

  // ---- Frames read back ----

  lemma FrameReadsBack(kind: byte, payload: bytes)
    requires |payload| < U32_LIMIT
    ensures var f := FrameOf(kind, payload); |f| >= FRAME_HEADER && f[0] == kind && Body(f) == payload
  {
    hide U32;
    var f := FrameOf(kind, payload);
    assert f[1..5] == U32(|payload|);
    U32RoundTrip(|payload|, f, 1);
    assert f[FRAME_HEADER..] == payload;
  }

  lemma BodyReadsBack(kind: byte, total: nat, i: nat, piece: bytes)
    requires i < U32_LIMIT && total < U32_LIMIT
    ensures var b := ChunkBody(kind, total, i, piece);
            && |b| >= CHUNK_HEADER && ReadU32(b, 0) == i && ReadU32(b, 4) == total
            && b[8] == kind && b[CHUNK_HEADER..] == piece
  {
    hide U32;
    var b := ChunkBody(kind, total, i, piece);
    assert b[0..4] == U32(i) && b[4..8] == U32(total);
    U32RoundTrip(i, b, 0);
    U32RoundTrip(total, b, 4);
  }

  /** A chunk frame is received as the piece it was made from. */
  lemma ChunkArrives(chunks: Option<Assembly>, kind: byte, payload: bytes, i: nat)
    requires i < ChunkCount(|payload|) < U32_LIMIT
    ensures Receive(chunks, ChunkFrame(kind, payload, i))
        == Arrive(chunks, i, ChunkCount(|payload|), kind, Piece(payload, i))
  {
    hide U32, Arrive, Piece, ReadU32, ChunkCount;
    var n := ChunkCount(|payload|);
    PieceSize(payload, i);
    FrameReadsBack(CHUNK, ChunkBody(kind, n, i, Piece(payload, i)));
    BodyReadsBack(kind, n, i, Piece(payload, i));
  }

  // ---- Any order, with duplicates ----

  function Full(n: nat): (s: set<nat>)
    ensures forall i: nat :: i in s <==> i < n
  {
    if n == 0 then {} else Full(n - 1) + {n - 1}
  }

  lemma {:induction false} FullSize(n: nat)
    ensures |Full(n)| == n
  {
    if n > 0 {
      FullSize(n - 1);
    }
  }

  lemma {:induction false} SubsetSize(s: set<nat>, t: set<nat>)
    requires s <= t
    ensures |s| <= |t| && (|s| == |t| ==> s == t)
    decreases s
  {
    if s != {} {
      var x :| x in s;
      SubsetSize(s - {x}, t - {x});
      assert s == (s - {x}) + {x} && t == (t - {x}) + {x};
    }
  }

  lemma PartialSize(have: set<nat>, n: nat)
    requires have <= Full(n)
    ensures |have| <= n && (|have| == n <==> have == Full(n))
  {
    FullSize(n);
    SubsetSize(have, Full(n));
  }

  /** The leftover state, if any, is that of a message with another number of chunks. */
  predicate Clean(chunks: Option<Assembly>, n: nat) {
    chunks.None? || chunks.value.total != n
  }

  function PartsOf(payload: bytes, have: set<nat>): (parts: map<nat, bytes>)
    requires have <= Full(ChunkCount(|payload|))
    ensures parts.Keys == have && forall i :: i in have ==> parts[i] == Piece(payload, i)
  {
    map i | i in have :: Piece(payload, i)
  }

  /** Exactly the pieces in have have been stored. */
  ghost predicate Holding(chunks: Option<Assembly>, kind: byte, payload: bytes, have: set<nat>)
    requires have <= Full(ChunkCount(|payload|))
  {
    var n := ChunkCount(|payload|);
    if have == {} then Clean(chunks, n)
    else chunks == Some(Assembly(n, kind, PartsOf(payload, have), n, |have|))
  }

  lemma Stored(chunks: Option<Assembly>, kind: byte, payload: bytes, have: set<nat>, i: nat)
    requires have < Full(ChunkCount(|payload|)) && i < ChunkCount(|payload|) && Holding(chunks, kind, payload, have)
    ensures var n := ChunkCount(|payload|);
            (Store(Begin(chunks, n, kind), i, Piece(payload, i))
             == Assembly(n, kind, PartsOf(payload, have + {i}), n, |have + {i}|))
  {
    hide Piece, ChunkCount;
    if i in have {
      assert have + {i} == have;
    }
  }

  lemma FinishFull(kind: byte, payload: bytes)
    requires kind == JSON || kind == BINARY
    ensures var n := ChunkCount(|payload|);
            Finish(Assembly(n, kind, PartsOf(payload, Full(n)), n, n)) == Outcome(None, [Delivery(kind, payload)])
  {
    hide Piece, ChunkCount;
    var n := ChunkCount(|payload|);
    PiecesJoin(payload, PartsOf(payload, Full(n)), n);
    CountCovers(payload);
    assert payload[..|payload|] == payload;
  }

  /** One more chunk: it is kept, or it is the last one missing and the message comes out. */
  lemma OneMore(chunks: Option<Assembly>, kind: byte, payload: bytes, have: set<nat>, i: nat)
    requires have < Full(ChunkCount(|payload|)) && i < ChunkCount(|payload|) && Holding(chunks, kind, payload, have)
    requires kind == JSON || kind == BINARY
    ensures var o := Arrive(chunks, i, ChunkCount(|payload|), kind, Piece(payload, i));
            if have + {i} == Full(ChunkCount(|payload|)) then o == Outcome(None, [Delivery(kind, payload)])
            else o.delivered == [] && Holding(o.chunks, kind, payload, have + {i})
  {
    hide Piece, ChunkCount, Store, Begin, PartsOf, Full;
    var n, all := ChunkCount(|payload|), have + {i};
    assert all <= Full(n);
    Stored(chunks, kind, payload, have, i);
    PartialSize(all, n);
    if all == Full(n) {
      FinishFull(kind, payload);
    }
  }

  function Arrivals(kind: byte, payload: bytes, order: seq<nat>): (frames: seq<bytes>)
    requires forall k :: 0 <= k < |order| ==> order[k] < ChunkCount(|payload|)
    ensures |frames| == |order|
  {
    seq(|order|, k requires 0 <= k < |order| => ChunkFrame(kind, payload, order[k]))
  }

  function Seen(order: seq<nat>): set<nat> { set i | i in order }

  lemma ArriveLast(chunks: Option<Assembly>, kind: byte, payload: bytes, order: seq<nat>)
    requires order != [] && ChunkCount(|payload|) < U32_LIMIT
    requires forall k :: 0 <= k < |order| ==> order[k] < ChunkCount(|payload|)
    ensures var front, i := order[..|order| - 1], order[|order| - 1];
            var before := ReceiveAll(chunks, Arrivals(kind, payload, front));
            var last := Arrive(before.chunks, i, ChunkCount(|payload|), kind, Piece(payload, i));
            && ReceiveAll(chunks, Arrivals(kind, payload, order))
                == Outcome(last.chunks, before.delivered + last.delivered)
            && Seen(order) == Seen(front) + {i}
  {
    hide Receive, Arrive, ChunkFrame, Piece, ChunkCount;
    var frames, front := Arrivals(kind, payload, order), order[..|order| - 1];
    assert frames[..|frames| - 1] == Arrivals(kind, payload, front);
    ChunkArrives(ReceiveAll(chunks, Arrivals(kind, payload, front)).chunks, kind, payload, order[|order| - 1]);
  }

  /** As long as a chunk is missing nothing comes out, whatever the order and the duplicates. */
  lemma {:induction false} IncompleteHeld(chunks: Option<Assembly>, kind: byte, payload: bytes, order: seq<nat>)
    requires kind == JSON || kind == BINARY
    requires ChunkCount(|payload|) < U32_LIMIT && Clean(chunks, ChunkCount(|payload|))
    requires forall k :: 0 <= k < |order| ==> order[k] < ChunkCount(|payload|)
    requires Seen(order) < Full(ChunkCount(|payload|))
    ensures var o := ReceiveAll(chunks, Arrivals(kind, payload, order));
            o.delivered == [] && Holding(o.chunks, kind, payload, Seen(order))
    decreases |order|
  {
    hide Arrive, Piece, ChunkCount, Clean;
    if order != [] {
      var front := order[..|order| - 1];
      ArriveLast(chunks, kind, payload, order);
      IncompleteHeld(chunks, kind, payload, front);
      OneMore(ReceiveAll(chunks, Arrivals(kind, payload, front)).chunks, kind, payload, Seen(front),
              order[|order| - 1]);
    }
  }

  /** The message comes out exactly once, with its type and all its bytes, on the last distinct chunk. */
  lemma MessageReassembled(chunks: Option<Assembly>, kind: byte, payload: bytes, order: seq<nat>)
    requires kind == JSON || kind == BINARY
    requires ChunkCount(|payload|) < U32_LIMIT && Clean(chunks, ChunkCount(|payload|))
    requires forall k :: 0 <= k < |order| ==> order[k] < ChunkCount(|payload|)
    requires order != [] && Seen(order) == Full(ChunkCount(|payload|)) != Seen(order[..|order| - 1])
    ensures ReceiveAll(chunks, Arrivals(kind, payload, order)) == Outcome(None, [Delivery(kind, payload)])
  {
    hide Arrive, Piece, ChunkCount, Clean;
    var front := order[..|order| - 1];
    ArriveLast(chunks, kind, payload, order);
    IncompleteHeld(chunks, kind, payload, front);
    OneMore(ReceiveAll(chunks, Arrivals(kind, payload, front)).chunks, kind, payload, Seen(front), order[|order| - 1]);
  }

  // ---- Exactly when it works ----

  /** All n chunks of the message arrive, the last distinct one at the end. */
  ghost predicate Completes(kind: byte, payload: bytes, order: seq<nat>, n: nat) {
    && (kind == JSON || kind == BINARY) && ChunkCount(|payload|) == n
    && (forall k :: 0 <= k < |order| ==> order[k] < n)
    && order != [] && Seen(order) == Full(n) != Seen(order[..|order| - 1])
  }

  ghost predicate Delivers(chunks: Option<Assembly>, kind: byte, payload: bytes, order: seq<nat>)
    requires forall k :: 0 <= k < |order| ==> order[k] < ChunkCount(|payload|)
  {
    ReceiveAll(chunks, Arrivals(kind, payload, order)).delivered == [Delivery(kind, payload)]
  }

  /** From this state every message of n chunks comes out as sent. */
  ghost predicate Dependable(chunks: Option<Assembly>, n: nat) {
    forall kind, payload, order :: Completes(kind, payload, order, n) ==> Delivers(chunks, kind, payload, order)
  }

  /** While a leftover with the same count is there, chunks of the new message join it and come out under its type. */
  lemma {:induction false} LeftoverWins(chunks: Option<Assembly>, kind: byte, payload: bytes, order: seq<nat>)
    requires ChunkCount(|payload|) < U32_LIMIT && !Clean(chunks, ChunkCount(|payload|))
    requires chunks.value.originalType == JSON || chunks.value.originalType == BINARY
    requires forall k :: 0 <= k < |order| ==> order[k] < ChunkCount(|payload|)
    ensures var o := ReceiveAll(chunks, Arrivals(kind, payload, order));
            var leftover := chunks.value.originalType;
            if o.delivered == [] then !Clean(o.chunks, ChunkCount(|payload|)) && o.chunks.value.originalType == leftover
            else o.delivered[0].kind == leftover
    decreases |order|
  {
    hide Piece, ChunkCount, Join;
    if order != [] {
      ArriveLast(chunks, kind, payload, order);
      LeftoverWins(chunks, kind, payload, order[..|order| - 1]);
    }
  }

  function UpTo(n: nat): (order: seq<nat>)
    ensures |order| == n && forall k :: 0 <= k < n ==> order[k] == k
  {
    seq(n, k requires 0 <= k < n => k)
  }

  lemma InOrderCompletes(kind: byte, payload: bytes, n: nat)
    requires (kind == JSON || kind == BINARY) && ChunkCount(|payload|) == n && n >= 1
    ensures Completes(kind, payload, UpTo(n), n)
  {
    hide ChunkCount, Full;
    var order := UpTo(n);
    forall i
      ensures i in Seen(order) <==> i in Full(n)
    {
      if i in Full(n) {
        assert order[i] == i;
      }
    }
    assert n - 1 in Full(n) && n - 1 !in Seen(order[..n - 1]);
  }

  /** A leftover for n chunks of a type that is neither. */
  predicate Strange(chunks: Option<Assembly>, n: nat) {
    !Clean(chunks, n) && chunks.value.originalType != JSON && chunks.value.originalType != BINARY
  }

  lemma StrangeArrives(chunks: Option<Assembly>, i: nat, n: nat, kind: byte, piece: bytes)
    requires Strange(chunks, n)
    ensures var o := Arrive(chunks, i, n, kind, piece);
            o.delivered == [] && (Strange(o.chunks, n) || o.chunks == None)
  {
    hide Join;
  }

  /** It emits nothing when it completes, and what arrives after that is never complete without the first chunk. */
  lemma {:induction false} StrangeLeftover(chunks: Option<Assembly>, kind: byte, payload: bytes, m: nat)
    returns (have: set<nat>)
    requires (kind == JSON || kind == BINARY) && m <= ChunkCount(|payload|) < U32_LIMIT
    requires Strange(chunks, ChunkCount(|payload|))
    ensures have <= Full(ChunkCount(|payload|)) && forall i :: i in have ==> 1 <= i < m
    ensures var o := ReceiveAll(chunks, Arrivals(kind, payload, UpTo(m)));
            && o.delivered == []
            && (Strange(o.chunks, ChunkCount(|payload|)) || Holding(o.chunks, kind, payload, have))
    decreases m
  {
    hide Piece, ChunkCount, Arrive, Full, Strange, Holding, ReceiveAll, Arrivals;
    have := {};
    NoneArrived(chunks, kind, payload);
    if m > 0 {
      var n := ChunkCount(|payload|);
      assert UpTo(m)[..m - 1] == UpTo(m - 1);
      ArriveLast(chunks, kind, payload, UpTo(m));
      var had := StrangeLeftover(chunks, kind, payload, m - 1);
      var before := ReceiveAll(chunks, Arrivals(kind, payload, UpTo(m - 1)));
      if Strange(before.chunks, n) {
        StrangeArrives(before.chunks, m - 1, n, kind, Piece(payload, m - 1));
        NothingHeld(kind, payload);
      } else {
        have := had + {m - 1};
        WithoutFirst(before.chunks, kind, payload, had, m - 1);
      }
    }
  }

  lemma NothingHeld(kind: byte, payload: bytes)
    ensures Holding(None, kind, payload, {})
  {
  }

  /** A message whose first chunk is missing is not complete after another chunk either. */
  lemma WithoutFirst(chunks: Option<Assembly>, kind: byte, payload: bytes, had: set<nat>, i: nat)
    requires had <= Full(ChunkCount(|payload|)) && 0 !in had && 1 <= i < ChunkCount(|payload|)
    requires Holding(chunks, kind, payload, had) && (kind == JSON || kind == BINARY)
    ensures had + {i} <= Full(ChunkCount(|payload|))
    ensures var o := Arrive(chunks, i, ChunkCount(|payload|), kind, Piece(payload, i));
            o.delivered == [] && Holding(o.chunks, kind, payload, had + {i})
  {
    hide Piece, ChunkCount, Arrive, Full, Holding;
    var n := ChunkCount(|payload|);
    LessThanFull(had, n, i);
    NotFull(had, n);
    NotFull(had + {i}, n);
    OneMore(chunks, kind, payload, had, i);
  }

  lemma NoneArrived(chunks: Option<Assembly>, kind: byte, payload: bytes)
    ensures ReceiveAll(chunks, Arrivals(kind, payload, UpTo(0))) == Outcome(chunks, [])
  {
    assert Arrivals(kind, payload, UpTo(0)) == [];
  }

  lemma LessThanFull(have: set<nat>, n: nat, i: nat)
    requires have <= Full(n) && i < n
    ensures have + {i} <= Full(n)
  {
  }

  lemma NotFull(have: set<nat>, n: nat)
    requires 0 !in have && n >= 1
    ensures 0 in Full(n) && have != Full(n)
  {
  }

  lemma SizedPayload(n: nat)
    ensures ChunkCount(|seq(n * CHUNK_DATA_SIZE, _ => 0 as byte)|) == n
  {
  }

  /** Messages of n chunks come out as sent exactly when no leftover of n chunks is around. */
  lemma DependableExactly(chunks: Option<Assembly>, n: nat)
    requires 1 <= n < U32_LIMIT
    ensures Dependable(chunks, n) <==> Clean(chunks, n)
  {
    hide ChunkCount, Completes;
    if Clean(chunks, n) {
      forall kind, payload, order | Completes(kind, payload, order, n)
        ensures ChunkCount(|payload|) == n && (forall k :: 0 <= k < |order| ==> order[k] < n) &&
            Delivers(chunks, kind, payload, order)
      {
        CompletesMeans(kind, payload, order, n);
        MessageReassembled(chunks, kind, payload, order);
      }
    } else {
      var kind := if chunks.value.originalType == JSON then BINARY else JSON;
      var payload := seq(n * CHUNK_DATA_SIZE, _ => 0 as byte);
      SizedPayload(n);
      InOrderCompletes(kind, payload, n);
      if chunks.value.originalType == JSON || chunks.value.originalType == BINARY {
        LeftoverWins(chunks, kind, payload, UpTo(n));
      } else {
        var _ := StrangeLeftover(chunks, kind, payload, n);
      }
      assert !Delivers(chunks, kind, payload, UpTo(n));
    }
  }

  lemma CompletesMeans(kind: byte, payload: bytes, order: seq<nat>, n: nat)
    requires Completes(kind, payload, order, n)
    ensures (kind == JSON || kind == BINARY) && ChunkCount(|payload|) == n
    ensures forall k :: 0 <= k < |order| ==> order[k] < n
    ensures order != [] && Seen(order) == Full(n) != Seen(order[..|order| - 1])
  {
  }

  /** A message that is sent arrives: its frames, received in order, deliver it once and leave no chunk behind. */
  lemma SentArrives(chunks: Option<Assembly>, kind: byte, payload: bytes)
    requires (kind == JSON || kind == BINARY) && ChunkCount(|payload|) < U32_LIMIT
    requires Clean(chunks, ChunkCount(|payload|))
    ensures ReceiveAll(chunks, Frames(kind, payload))
         == Outcome(if Single(payload) then chunks else None, [Delivery(kind, payload)])
  {
    hide ChunkCount, Completes, ReceiveAll, Clean;
    if Single(payload) {
      SingleArrives(chunks, kind, payload);
    } else {
      var n := ChunkCount(|payload|);
      CountCovers(payload);
      assert Frames(kind, payload) == Arrivals(kind, payload, UpTo(n));
      InOrderCompletes(kind, payload, n);
      CompletesMeans(kind, payload, UpTo(n), n);
      MessageReassembled(chunks, kind, payload, UpTo(n));
    }
  }

  lemma SingleArrives(chunks: Option<Assembly>, kind: byte, payload: bytes)
    requires Single(payload) && (kind == JSON || kind == BINARY)
    ensures ReceiveAll(chunks, [FrameOf(kind, payload)]) == Outcome(chunks, [Delivery(kind, payload)])
  {
    hide U32, ReadU32;
    var f := FrameOf(kind, payload);
    assert [f][..0] == [];
    assert ReceiveAll(chunks, []) == Outcome(chunks, []);
    FrameReadsBack(kind, payload);
  }

  lemma FirstStored(n: nat, kind: byte, i: nat, piece: bytes)
    requires i < n && n >= 2
    ensures Arrive(None, i, n, kind, piece) == Outcome(Some(Assembly(n, kind, map[i := piece], n, 1)), [])
  {
  }

  /** A chunk repeated after its message is complete leaves such a leftover behind. */
  lemma LateDuplicate(kind: byte, payload: bytes, i: nat)
    requires kind == JSON || kind == BINARY
    requires i < ChunkCount(|payload|) < U32_LIMIT && !Single(payload)
    ensures var o := Receive(None, ChunkFrame(kind, payload, i));
            o.delivered == [] && !Dependable(o.chunks, ChunkCount(|payload|))
  {
    hide Piece, Dependable, Receive, Arrive, ChunkFrame, ChunkCount;
    var n := ChunkCount(|payload|);
    CountCovers(payload);
    ChunkArrives(None, kind, payload, i);
    FirstStored(n, kind, i, Piece(payload, i));
    DependableExactly(Some(Assembly(n, kind, map[i := Piece(payload, i)], n, 1)), n);
  }

  // ---- The sender ----

  /** One framed message. */
  method MakeFrame(kind: byte, payload: bytes) returns (frame: array<byte>)
    ensures fresh(frame) && frame[..] == FrameOf(kind, payload)
  {
    hide U32;
    frame := new byte[FRAME_HEADER + |payload|];
    SetBytes(frame, 0, [kind]);
    SetBytes(frame, 1, U32(|payload|));
    SetBytes(frame, FRAME_HEADER, payload);
    assert frame[..] == frame[..frame.Length];
  }

  method MakeChunk(kind: byte, total: nat, i: nat, piece: bytes) returns (frame: array<byte>)
    ensures fresh(frame) && frame[..] == FrameOf(CHUNK, ChunkBody(kind, total, i, piece))
  {
    hide U32;
    frame := new byte[FRAME_HEADER + CHUNK_HEADER + |piece|];
    SetBytes(frame, 0, [CHUNK]);
    SetBytes(frame, 1, U32(CHUNK_HEADER + |piece|));
    SetBytes(frame, 5, U32(i));
    SetBytes(frame, 9, U32(total));
    SetBytes(frame, 13, [kind]);
    SetBytes(frame, 14, piece);
    assert frame[..] == frame[..frame.Length];
  }

  /** Sends a payload as one frame or as chunks; sent is what dc.send was given. */
  method SendFramed(kind: byte, payload: bytes) returns (sent: seq<bytes>)
    ensures sent == Frames(kind, payload)
  {
    hide FrameOf, ChunkBody;
    if FRAME_HEADER + |payload| <= CHUNK_SIZE {
      var frame := MakeFrame(kind, payload);
      return [frame[..]];
    }
    sent := [];
    var totalChunks := (|payload| + CHUNK_DATA_SIZE - 1) / CHUNK_DATA_SIZE;
    var i := 0;
    while i < totalChunks
      invariant 0 <= i <= totalChunks && sent == Frames(kind, payload)[..i]
    {
      var start := i * CHUNK_DATA_SIZE;
      PieceSize(payload, i);
      var end := Min(start + CHUNK_DATA_SIZE, |payload|);
      var frame := MakeChunk(kind, totalChunks, i, payload[start..end]);
      sent := sent + [frame[..]];
      i := i + 1;
    }
  }

  // ---- The receiver ----

  class Reassembler {
    var chunks: Option<Assembly>

    constructor ()
      ensures chunks == None
    {
      chunks := None;
    }

    /** Whether every slot up to the array's length has a part. */
    method NoHoles(a: Assembly) returns (ok: bool)
      ensures ok <==> Filled(a)
    {
      var i := 0;
      while i < a.length
        invariant 0 <= i <= a.length && forall k :: 0 <= k < i ==> k in a.parts
      {
        if i !in a.parts {
          return false;
        }
        i := i + 1;
      }
      return true;
    }

    /** Copies the parts one after another. */
    method Assemble(a: Assembly) returns (assembled: bytes)
      requires Filled(a)
      ensures assembled == Join(a.parts, a.length)
    {
      var totalLen := 0;
      var i := 0;
      while i < a.length
        invariant 0 <= i <= a.length && totalLen == |Join(a.parts, i)|
      {
        totalLen := totalLen + |a.parts[i]|;
        i := i + 1;
      }
      var buf := new byte[totalLen];
      var offset := 0;
      i := 0;
      while i < a.length
        invariant 0 <= i <= a.length && offset == |Join(a.parts, i)| <= totalLen
        invariant buf[..offset] == Join(a.parts, i)
      {
        JoinGrows(a.parts, i + 1, a.length);
        SetBytes(buf, offset, a.parts[i]);
        offset := offset + |a.parts[i]|;
        i := i + 1;
      }
      assert buf[..] == buf[..totalLen];
      return buf[..];
    }

    /** dc.onmessage for one binary message. */
    method OnMessage(data: bytes) returns (delivered: seq<Delivery>)
      modifies this
      ensures Outcome(chunks, delivered) == Receive(old(chunks), data)
    {
      hide ReadU32, Filled, Join;
      delivered := [];
      if |data| < FRAME_HEADER {
        return;
      }
      var payload := Body(data);
      if data[0] == JSON || data[0] == BINARY {
        return [Delivery(data[0], payload)];
      }
      if data[0] == CHUNK && |payload| >= CHUNK_HEADER {
        delivered := OnChunk(ReadU32(payload, 0), ReadU32(payload, 4), payload[8], payload[CHUNK_HEADER..]);
      }
    }

    method OnChunk(i: nat, total: nat, kind: byte, piece: bytes) returns (delivered: seq<Delivery>)
      modifies this
      ensures Outcome(chunks, delivered) == Arrive(old(chunks), i, total, kind, piece)
    {
      hide Filled, Join;
      delivered := [];
      if chunks.None? || chunks.value.total != total {
        chunks := Some(Assembly(total, kind, map[], total, 0));
      }
      var a := Store(chunks.value, i, piece);
      chunks := Some(a);
      if a.received >= a.total {
        var whole := NoHoles(a);
        if whole {
          var assembled := Assemble(a);
          chunks := None;
          if a.originalType == JSON || a.originalType == BINARY {
            return [Delivery(a.originalType, assembled)];
          }
        }
      }
    }
  }

  lemma {:induction false} JoinGrows(parts: map<nat, bytes>, m: nat, n: nat)
    requires m <= n && forall i :: 0 <= i < n ==> i in parts
    ensures |Join(parts, m)| <= |Join(parts, n)|
    decreases n
  {
    if m < n {
      JoinGrows(parts, m, n - 1);
    }
  }
}
