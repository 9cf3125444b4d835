// Fragmentation and reassembly: what the receiver delivers from a prefix of the numbered frames
// (browser/js/reliable.js, send, _processChunk).
module Messages {
  import opened Octets
  import opened Channel

  /** One call of send. */
  datatype Post = Post(payload: bytes, priority: nat)

  /** Frames in the order they are numbered, the first getting number start + 1. */
  function Number(start: nat, frames: seq<bytes>, priority: nat): (r: seq<Item>)
    ensures |r| == |frames|
  {
    seq(|frames|, i requires 0 <= i < |frames| => Item(frames[i], start + i + 1, priority))
  }

  /** All frames ever numbered for a list of posts, above the number base. */
  function Numbered(base: nat, posts: seq<Post>, maxFrame: nat): seq<Item>
    requires maxFrame >= 1
    decreases |posts|
  {
    if posts == [] then []
    else
      var init := Numbered(base, posts[..|posts| - 1], maxFrame);
      var last := posts[|posts| - 1];
      init + Number(base + |init|, Fragments(last.payload, maxFrame), last.priority)
  }

  /** What a receiver has to deliver: each payload whole, in order, with the number of its last frame. */
  function Deliveries(base: nat, posts: seq<Post>, maxFrame: nat): seq<Message>
    requires maxFrame >= 1
    decreases |posts|
  {
    if posts == [] then []
    else
      var last := posts[|posts| - 1];
      Deliveries(base, posts[..|posts| - 1], maxFrame)
      + [Message(last.payload, base + |Numbered(base, posts, maxFrame)|, last.priority)]
  }

  lemma {:induction false} NumberedHasNumbers(base: nat, posts: seq<Post>, maxFrame: nat)
    requires maxFrame >= 1
    ensures forall i :: 0 <= i < |Numbered(base, posts, maxFrame)| ==>
        Numbered(base, posts, maxFrame)[i].seqNo == base + i + 1
    decreases |posts|
  {
    if posts != [] {
      NumberedHasNumbers(base, posts[..|posts| - 1], maxFrame);
    }
  }

  lemma {:induction false} ProcessConcat(assembly: seq<bytes>, xs: seq<Item>, ys: seq<Item>)
    ensures var p := Process(assembly, xs);
            var q := Process(p.assembly, ys);
            Process(assembly, xs + ys) == Processed(q.assembly, p.messages + q.messages)
    decreases |ys|
  {
    if ys == [] {
      assert xs + ys == xs;
    } else {
      var init := ys[..|ys| - 1];
      var all, last := xs + ys, ys[|ys| - 1];
      ProcessConcat(assembly, xs, init);
      assert all[..|all| - 1] == xs + init && all[|all| - 1] == last;
    }
  }

  lemma {:induction false} FlattenConcat(xs: seq<bytes>, ys: seq<bytes>)
    ensures Flatten(xs + ys) == Flatten(xs) + Flatten(ys)
    decreases |ys|
  {
    if ys == [] {
      assert xs + ys == xs;
    } else {
      var init := ys[..|ys| - 1];
      var all, last := xs + ys, ys[|ys| - 1];
      FlattenConcat(xs, init);
      assert all[..|all| - 1] == xs + init && all[|all| - 1] == last;
      assert Flatten(all) == Flatten(xs + init) + last;
      assert Flatten(xs) + (Flatten(init) + last) == (Flatten(xs) + Flatten(init)) + last;
    }
  }

  /** The pieces of a payload from offset on, without their tags. */
  function Slices(payload: bytes, maxFrame: nat, offset: nat): seq<bytes>
    requires maxFrame >= 1 && offset <= |payload|
    decreases |payload| - offset
  {
    if offset == |payload| then []
    else
      var end := if offset + maxFrame < |payload| then offset + maxFrame else |payload|;
      [payload[offset..end]] + Slices(payload, maxFrame, end)
  }

  lemma {:induction false} SlicesCoverPayload(payload: bytes, maxFrame: nat, offset: nat)
    requires maxFrame >= 1 && offset <= |payload|
    ensures Flatten(Slices(payload, maxFrame, offset)) == payload[offset..]
    ensures |Slices(payload, maxFrame, offset)| == |Pieces(payload, maxFrame, offset)|
    decreases |payload| - offset
  {
    if offset < |payload| {
      var end := if offset + maxFrame < |payload| then offset + maxFrame else |payload|;
      SlicesCoverPayload(payload, maxFrame, end);
      FlattenConcat([payload[offset..end]], Slices(payload, maxFrame, end));
      assert Flatten([payload[offset..end]]) == payload[offset..end];
      assert payload[offset..] == payload[offset..end] + payload[end..];
    }
  }

  lemma ProcessNone(assembly: seq<bytes>)
    ensures Process(assembly, []) == Processed(assembly, [])
  {
  }

  lemma ProcessOne(assembly: seq<bytes>, item: Item)
    ensures Process(assembly, [item]) == ProcessChunk(assembly, item)
  {
    assert Process(assembly, []) == Processed(assembly, []);
  }

  lemma NumberFirst(start: nat, frame: bytes, rest: seq<bytes>, priority: nat, r: nat)
    requires 1 <= r <= 1 + |rest|
    ensures Number(start, [frame] + rest, priority)[..r]
         == [Item(frame, start + 1, priority)] + Number(start + 1, rest, priority)[..r - 1]
  {
  }

  /** The state after r of the pieces from offset on; kept is what the receiver holds of what came before them. */
  predicate AfterPieces(p: Processed, kept: seq<bytes>, payload: bytes, maxFrame: nat, offset: nat, last: nat,
                        priority: nat, r: nat)
    requires maxFrame >= 1 && offset <= |payload|
  {
    var slices := Slices(payload, maxFrame, offset);
    if r == |slices| then p == Processed([], [Message(Flatten(kept) + payload[offset..], last, priority)])
    else r < |slices| && p == Processed(kept + slices[..r], [])
  }

  /** A first piece makes the receiver forget what it holds. */
  function Kept(assembly: seq<bytes>, offset: nat): seq<bytes> { if offset == 0 then [] else assembly }

  /** One piece of a payload that is not the last one leaves the rest of the payload to come. */
  lemma MiddlePiece(assembly: seq<bytes>, payload: bytes, maxFrame: nat, offset: nat, item: Item)
    requires maxFrame >= 1 && offset + maxFrame < |payload| && item.payload == Pieces(payload, maxFrame, offset)[0]
    ensures ProcessChunk(assembly, item)
         == Processed(Kept(assembly, offset) + [payload[offset..offset + maxFrame]], [])
  {
    assert item.payload[1..] == payload[offset..offset + maxFrame];
  }

  lemma LastPiece(assembly: seq<bytes>, payload: bytes, maxFrame: nat, offset: nat, item: Item)
    requires maxFrame >= 1 && 0 < offset < |payload| <= offset + maxFrame
    requires item.payload == Pieces(payload, maxFrame, offset)[0]
    ensures ProcessChunk(assembly, item)
         == Processed([], [Message(Flatten(assembly) + payload[offset..], item.seqNo, item.priority)])
    ensures Pieces(payload, maxFrame, offset) == [item.payload]
  {
    var slice := payload[offset..];
    assert item.payload[1..] == slice;
    FlattenLast(assembly, slice);
  }

  lemma FlattenLast(pieces: seq<bytes>, slice: bytes)
    ensures Flatten(pieces + [slice]) == Flatten(pieces) + slice
  {
    assert (pieces + [slice])[..|pieces|] == pieces;
  }

  /** One more piece is held, the rest is still to come. */
  lemma Grown(kept: seq<bytes>, payload: bytes, offset: nat, end: nat)
    requires offset <= end <= |payload|
    ensures Flatten(kept + [payload[offset..end]]) + payload[end..] == Flatten(kept) + payload[offset..]
  {
    FlattenLast(kept, payload[offset..end]);
    assert payload[offset..] == payload[offset..end] + payload[end..];
  }

  lemma PiecesFirst(payload: bytes, maxFrame: nat, offset: nat)
    requires maxFrame >= 1 && offset < |payload|
    ensures var end := if offset + maxFrame < |payload| then offset + maxFrame else |payload|;
            Pieces(payload, maxFrame, offset) == [Pieces(payload, maxFrame, offset)[0]] + Pieces(payload, maxFrame, end)
  {
  }

  lemma ProcessNext(assembly: seq<bytes>, item: Item, tail: seq<Item>)
    ensures var p := ProcessChunk(assembly, item);
            var q := Process(p.assembly, tail);
            && Process(assembly, [item] + tail) == Processed(q.assembly, p.messages + q.messages)
            && (p.messages == [] ==> Process(assembly, [item] + tail) == q)
            && (tail == [] ==> Process(assembly, [item] + tail) == p)
  {
    hide Process, ProcessChunk;
    ProcessConcat(assembly, [item], tail);
    ProcessOne(assembly, item);
    assert [item] + [] == [item];
  }

  lemma WidenPieces(p: Processed, kept: seq<bytes>, payload: bytes, maxFrame: nat, offset: nat, last: nat,
                    priority: nat, r: nat)
    requires maxFrame >= 1 && offset + maxFrame < |payload| && 1 <= r <= |Slices(payload, maxFrame, offset)|
    requires AfterPieces(p, kept + [payload[offset..offset + maxFrame]], payload, maxFrame, offset + maxFrame,
                         last, priority, r - 1)
    ensures AfterPieces(p, kept, payload, maxFrame, offset, last, priority, r)
  {
    hide Slices, Flatten;
    NextSlices(kept, payload, maxFrame, offset, r);
    Grown(kept, payload, offset, offset + maxFrame);
  }

  lemma NothingYet(kept: seq<bytes>, payload: bytes, maxFrame: nat, offset: nat, last: nat, priority: nat)
    requires maxFrame >= 1 && offset < |payload|
    ensures AfterPieces(Processed(kept, []), kept, payload, maxFrame, offset, last, priority, 0)
  {
    assert kept + Slices(payload, maxFrame, offset)[..0] == kept;
  }

  /** Processing the first r pieces from offset on: the last one delivers them after what was held. */
  lemma {:induction false} ProcessPieces(assembly: seq<bytes>, payload: bytes, maxFrame: nat, offset: nat, start: nat,
                                         priority: nat, r: nat)
    requires maxFrame >= 1 && offset < |payload| && (offset == 0 ==> maxFrame < |payload|)
    requires 0 < r <= |Pieces(payload, maxFrame, offset)|
    ensures AfterPieces(Process(assembly, Number(start, Pieces(payload, maxFrame, offset), priority)[..r]),
                        Kept(assembly, offset), payload, maxFrame, offset, start + r, priority, r)
    decreases |payload| - offset
  {
    hide Process, ProcessChunk, Pieces, AfterPieces, Number, Slices, Flatten;
    var pieces, kept := Pieces(payload, maxFrame, offset), Kept(assembly, offset);
    var end := if offset + maxFrame < |payload| then offset + maxFrame else |payload|;
    PiecesFirst(payload, maxFrame, offset);
    SlicesCoverPayload(payload, maxFrame, offset);
    var item, rest := Item(pieces[0], start + 1, priority), Pieces(payload, maxFrame, end);
    var tail := Number(start + 1, rest, priority)[..r - 1];
    NumberFirst(start, pieces[0], rest, priority, r);
    ProcessNext(assembly, item, tail);
    if offset + maxFrame < |payload| {
      var more := kept + [payload[offset..end]];
      MiddlePiece(assembly, payload, maxFrame, offset, item);
      if r == 1 {
        ProcessNone(more);
        NothingYet(more, payload, maxFrame, end, start + r, priority);
      } else {
        ProcessPieces(more, payload, maxFrame, end, start + 1, priority, r - 1);
      }
      assert tail == [] ==> Process(more, tail) == Processed(more, []) by {
        ProcessNone(more);
      }
      WidenPieces(Process(more, tail), kept, payload, maxFrame, offset, start + r, priority, r);
    } else {
      LastPiece(assembly, payload, maxFrame, offset, item);
      LastSlice(payload, maxFrame, offset);
      WholeRest(Process(assembly, Number(start, pieces, priority)[..r]), kept, payload, maxFrame, offset,
                start + r, priority);
    }
  }

  lemma WholeRest(p: Processed, kept: seq<bytes>, payload: bytes, maxFrame: nat, offset: nat, last: nat, priority: nat)
    requires maxFrame >= 1 && offset <= |payload| && |Slices(payload, maxFrame, offset)| == 1
    requires p == Processed([], [Message(Flatten(kept) + payload[offset..], last, priority)])
    ensures AfterPieces(p, kept, payload, maxFrame, offset, last, priority, 1)
  {
  }

  lemma LastSlice(payload: bytes, maxFrame: nat, offset: nat)
    requires maxFrame >= 1 && offset < |payload| <= offset + maxFrame
    ensures |Slices(payload, maxFrame, offset)| == 1
  {
    assert Slices(payload, maxFrame, |payload|) == [];
  }

  /** A receiver that is set down inside a message, say by a reset branch of Resume, puts whatever it still holds in
      front of the pieces that follow: the message is right exactly when it holds the pieces before them. */
  lemma SetDownInside(assembly: seq<bytes>, payload: bytes, maxFrame: nat, offset: nat, start: nat, priority: nat)
    requires maxFrame >= 1 && 0 < offset < |payload|
    ensures var pieces := Pieces(payload, maxFrame, offset);
            var messages := Process(assembly, Number(start, pieces, priority)).messages;
            && messages == [Message(Flatten(assembly) + payload[offset..], start + |pieces|, priority)]
            && (messages[0].data == payload <==> Flatten(assembly) == payload[..offset])
  {
    hide Process, Number, Flatten, Pieces, Slices;
    var pieces := Pieces(payload, maxFrame, offset);
    PiecesFirst(payload, maxFrame, offset);
    SlicesCoverPayload(payload, maxFrame, offset);
    ProcessPieces(assembly, payload, maxFrame, offset, start, priority, |pieces|);
    assert Number(start, pieces, priority)[..|pieces|] == Number(start, pieces, priority);
    var held, rest := Flatten(assembly), payload[offset..];
    assert payload == payload[..offset] + rest;
    if held + rest == payload {
      assert |held| == offset;
      assert held == (held + rest)[..offset];
    }
  }

  lemma NextSlices(kept: seq<bytes>, payload: bytes, maxFrame: nat, offset: nat, r: nat)
    requires maxFrame >= 1 && offset + maxFrame < |payload| && 1 <= r <= |Slices(payload, maxFrame, offset)|
    ensures var later := Slices(payload, maxFrame, offset + maxFrame);
            |Slices(payload, maxFrame, offset)| == 1 + |later|
            && kept + Slices(payload, maxFrame, offset)[..r]
                == kept + [payload[offset..offset + maxFrame]] + later[..r - 1]
  {
  }

  /** Processing the first r frames of one post: nothing is delivered before the last, which delivers the payload. */
  lemma ProcessFragments(assembly: seq<bytes>, payload: bytes, maxFrame: nat, start: nat, priority: nat, r: nat)
    requires maxFrame >= 1 && 0 < r <= |Fragments(payload, maxFrame)|
    ensures var p := Process(assembly, Number(start, Fragments(payload, maxFrame), priority)[..r]);
            if r == |Fragments(payload, maxFrame)| then p.messages == [Message(payload, start + r, priority)]
            else (p.messages == [] && r < |Slices(payload, maxFrame, 0)|
                  && p.assembly == Slices(payload, maxFrame, 0)[..r])
  {
    if |payload| <= maxFrame {
      var item := Item([TAG_STANDALONE] + payload, start + 1, priority);
      ProcessOne(assembly, item);
      assert Number(start, Fragments(payload, maxFrame), priority)[..r] == [item];
      assert item.payload[1..] == payload;
    } else {
      ProcessPieces(assembly, payload, maxFrame, 0, start, priority, r);
      SlicesCoverPayload(payload, maxFrame, 0);
      assert [] + Slices(payload, maxFrame, 0)[..r] == Slices(payload, maxFrame, 0)[..r];
      assert Flatten([]) + payload[0..] == payload;
    }
  }

  /** How many posts are complete within the first k frames. */
  function Complete(base: nat, posts: seq<Post>, maxFrame: nat, k: nat): nat
    requires maxFrame >= 1
    decreases |posts|
  {
    if posts == [] then 0
    else if k >= |Numbered(base, posts, maxFrame)| then |posts|
    else Complete(base, posts[..|posts| - 1], maxFrame, k)
  }

  lemma {:induction false} DeliveriesLength(base: nat, posts: seq<Post>, maxFrame: nat)
    requires maxFrame >= 1
    ensures |Deliveries(base, posts, maxFrame)| == |posts|
    decreases |posts|
  {
    if posts != [] {
      DeliveriesLength(base, posts[..|posts| - 1], maxFrame);
    }
  }

  /** The pieces of the unfinished post among the first k frames, if the k-th frame leaves one unfinished. */
  predicate HoldsUnfinished(assembly: seq<bytes>, base: nat, posts: seq<Post>, maxFrame: nat, k: nat)
    requires maxFrame >= 1
  {
    var done := Complete(base, posts, maxFrame, k);
    done < |posts| ==>
      var r := k - |Numbered(base, posts[..done], maxFrame)|;
      var slices := Slices(posts[done].payload, maxFrame, 0);
      r > 0 ==> r < |slices| && assembly == slices[..r]
  }

  /** Delivered exactly the complete posts, and holding exactly the pieces of the unfinished one. */
  predicate AfterPrefix(p: Processed, base: nat, posts: seq<Post>, maxFrame: nat, k: nat)
    requires maxFrame >= 1
  {
    var done := Complete(base, posts, maxFrame, k);
    && done <= |posts| == |Deliveries(base, posts, maxFrame)|
    && p.messages == Deliveries(base, posts, maxFrame)[..done]
    && HoldsUnfinished(p.assembly, base, posts, maxFrame, k)
  }

  lemma CompleteWhole(base: nat, posts: seq<Post>, maxFrame: nat, k: nat)
    requires maxFrame >= 1 && k >= |Numbered(base, posts, maxFrame)|
    ensures Complete(base, posts, maxFrame, k) == |posts|
  {
  }

  lemma CompleteUnchanged(base: nat, posts: seq<Post>, maxFrame: nat, k: nat)
    requires maxFrame >= 1 && posts != [] && k <= |Numbered(base, posts[..|posts| - 1], maxFrame)|
    ensures Complete(base, posts, maxFrame, k) == Complete(base, posts[..|posts| - 1], maxFrame, k)
    ensures k < |Numbered(base, posts, maxFrame)|
  {
    FragmentsNonempty(posts[|posts| - 1].payload, maxFrame);
  }

  lemma FragmentsNonempty(payload: bytes, maxFrame: nat)
    requires maxFrame >= 1
    ensures |Fragments(payload, maxFrame)| >= 1
  {
  }

  lemma PrefixWithoutLast(p: Processed, base: nat, posts: seq<Post>, maxFrame: nat, k: nat)
    requires maxFrame >= 1 && posts != [] && k <= |Numbered(base, posts[..|posts| - 1], maxFrame)|
    requires AfterPrefix(p, base, posts[..|posts| - 1], maxFrame, k)
    ensures AfterPrefix(p, base, posts, maxFrame, k)
  {
    var init := posts[..|posts| - 1];
    var done := Complete(base, init, maxFrame, k);
    CompleteUnchanged(base, posts, maxFrame, k);
    DeliveriesLength(base, posts, maxFrame);
    assert posts[..done] == init[..done];
    if done == |init| {
      assert init[..done] == init;
    }
  }

  lemma PrefixWithLast(p: Processed, base: nat, posts: seq<Post>, maxFrame: nat, k: nat, last: Processed)
    requires maxFrame >= 1 && posts != []
    requires |Numbered(base, posts[..|posts| - 1], maxFrame)| < k <= |Numbered(base, posts, maxFrame)|
    requires p == Processed(last.assembly, Deliveries(base, posts[..|posts| - 1], maxFrame) + last.messages)
    requires var payload := posts[|posts| - 1].payload;
             var r := k - |Numbered(base, posts[..|posts| - 1], maxFrame)|;
             var slices := Slices(payload, maxFrame, 0);
             if r == |Fragments(payload, maxFrame)|
             then last.messages == [Message(payload, base + k, posts[|posts| - 1].priority)]
             else last.messages == [] && r < |slices| && last.assembly == slices[..r]
    ensures AfterPrefix(p, base, posts, maxFrame, k)
  {
    hide Fragments, Slices, Number;
    var init := posts[..|posts| - 1];
    DeliveriesLength(base, posts, maxFrame);
    DeliveriesLength(base, init, maxFrame);
    CompleteWhole(base, init, maxFrame, k);
    if k == |Numbered(base, posts, maxFrame)| {
      CompleteWhole(base, posts, maxFrame, k);
    } else {
      assert posts[..|init|] == init;
    }
  }

  lemma NoPosts(assembly: seq<bytes>, base: nat, maxFrame: nat)
    requires maxFrame >= 1
    ensures AfterPrefix(Process(assembly, Numbered(base, [], maxFrame)[..0]), base, [], maxFrame, 0)
  {
  }

  lemma PrefixOfConcat<T>(xs: seq<T>, ys: seq<T>, k: nat)
    requires k <= |xs| + |ys|
    ensures (xs + ys)[..k] == if k <= |xs| then xs[..k] else xs + ys[..k - |xs|]
  {
  }

  lemma NumberedLast(base: nat, posts: seq<Post>, maxFrame: nat)
    requires maxFrame >= 1 && posts != []
    ensures var before := Numbered(base, posts[..|posts| - 1], maxFrame);
            var last := posts[|posts| - 1];
            Numbered(base, posts, maxFrame)
                == before + Number(base + |before|, Fragments(last.payload, maxFrame), last.priority)
  {
  }

  lemma SplitPrefix(base: nat, posts: seq<Post>, maxFrame: nat, k: nat)
    requires maxFrame >= 1 && posts != [] && k <= |Numbered(base, posts, maxFrame)|
    ensures var before := Numbered(base, posts[..|posts| - 1], maxFrame);
            var last := posts[|posts| - 1];
            var frames := Number(base + |before|, Fragments(last.payload, maxFrame), last.priority);
            && Numbered(base, posts, maxFrame) == before + frames
            && (k <= |before| ==> Numbered(base, posts, maxFrame)[..k] == before[..k])
            && (k > |before| ==> k - |before| <= |frames|)
            && (k > |before| ==> Numbered(base, posts, maxFrame)[..k] == before + frames[..k - |before|])
  {
    hide Numbered, Number, Fragments;
    NumberedLast(base, posts, maxFrame);
    var before := Numbered(base, posts[..|posts| - 1], maxFrame);
    var last := posts[|posts| - 1];
    PrefixOfConcat(before, Number(base + |before|, Fragments(last.payload, maxFrame), last.priority), k);
  }

  lemma ExtendByLast(assembly: seq<bytes>, base: nat, posts: seq<Post>, maxFrame: nat, k: nat)
    requires maxFrame >= 1 && posts != []
    requires |Numbered(base, posts[..|posts| - 1], maxFrame)| < k <= |Numbered(base, posts, maxFrame)|
    requires Process(assembly, Numbered(base, posts[..|posts| - 1], maxFrame)).messages
        == Deliveries(base, posts[..|posts| - 1], maxFrame)
    ensures AfterPrefix(Process(assembly, Numbered(base, posts, maxFrame)[..k]), base, posts, maxFrame, k)
  {
    hide AfterPrefix, Process, ProcessChunk, Numbered;
    var last := posts[|posts| - 1];
    var before := Numbered(base, posts[..|posts| - 1], maxFrame);
    var r := k - |before|;
    SplitPrefix(base, posts, maxFrame, k);
    var frames := Number(base + |before|, Fragments(last.payload, maxFrame), last.priority)[..r];
    var p := Process(assembly, before);
    ProcessConcat(assembly, before, frames);
    ProcessFragments(p.assembly, last.payload, maxFrame, base + |before|, last.priority, r);
    PrefixWithLast(Process(assembly, before + frames), base, posts, maxFrame, k, Process(p.assembly, frames));
  }

  lemma WholePrefix(p: Processed, base: nat, posts: seq<Post>, maxFrame: nat)
    requires maxFrame >= 1 && AfterPrefix(p, base, posts, maxFrame, |Numbered(base, posts, maxFrame)|)
    ensures p.messages == Deliveries(base, posts, maxFrame)
  {
    CompleteWhole(base, posts, maxFrame, |Numbered(base, posts, maxFrame)|);
  }

  /** From any prefix of the numbered frames, and whatever the assembly held before, the receiver delivers exactly the
      posts that are complete in it, byte for byte, and then holds exactly the pieces of the unfinished one. */
  lemma {:induction false} PrefixDelivers(assembly: seq<bytes>, base: nat, posts: seq<Post>, maxFrame: nat, k: nat)
    requires maxFrame >= 1 && k <= |Numbered(base, posts, maxFrame)|
    ensures AfterPrefix(Process(assembly, Numbered(base, posts, maxFrame)[..k]), base, posts, maxFrame, k)
    decreases |posts|
  {
    hide AfterPrefix, Process;
    if posts == [] {
      NoPosts(assembly, base, maxFrame);
    } else {
      var init := posts[..|posts| - 1];
      var before := Numbered(base, init, maxFrame);
      SplitPrefix(base, posts, maxFrame, k);
      if k <= |before| {
        PrefixDelivers(assembly, base, init, maxFrame, k);
        PrefixWithoutLast(Process(assembly, before[..k]), base, posts, maxFrame, k);
      } else {
        PrefixDelivers(assembly, base, init, maxFrame, |before|);
        assert before[..|before|] == before;
        WholePrefix(Process(assembly, before), base, init, maxFrame);
        ExtendByLast(assembly, base, posts, maxFrame, k);
      }
    }
  }

  predicate KnownTag(frame: bytes) {
    && frame != []
    && (frame[0] == TAG_STANDALONE || frame[0] == TAG_FIRST || frame[0] == TAG_MIDDLE || frame[0] == TAG_LAST)
  }

  lemma {:induction false} PiecesTagged(payload: bytes, maxFrame: nat, offset: nat)
    requires maxFrame >= 1 && offset <= |payload|
    ensures forall i :: 0 <= i < |Pieces(payload, maxFrame, offset)| ==> KnownTag(Pieces(payload, maxFrame, offset)[i])
    decreases |payload| - offset
  {
    if offset < |payload| {
      PiecesTagged(payload, maxFrame, if offset + maxFrame < |payload| then offset + maxFrame else |payload|);
    }
  }

  /** Every numbered frame carries one of the four known tags: the fallback branch for other tags never runs on
      them. */
  lemma {:induction false} NumberedTagged(base: nat, posts: seq<Post>, maxFrame: nat)
    requires maxFrame >= 1
    ensures forall i :: 0 <= i < |Numbered(base, posts, maxFrame)| ==>
        KnownTag(Numbered(base, posts, maxFrame)[i].payload)
    decreases |posts|
  {
    hide KnownTag;
    if posts != [] {
      NumberedTagged(base, posts[..|posts| - 1], maxFrame);
      FragmentsTagged(posts[|posts| - 1].payload, maxFrame);
    }
  }

  lemma FragmentsTagged(payload: bytes, maxFrame: nat)
    requires maxFrame >= 1
    ensures forall i :: 0 <= i < |Fragments(payload, maxFrame)| ==> KnownTag(Fragments(payload, maxFrame)[i])
  {
    PiecesTagged(payload, maxFrame, 0);
  }
}
