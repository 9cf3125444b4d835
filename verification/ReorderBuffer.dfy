// The receiving half: what is handed up, and what waits in the reorder buffer, depends only on which frames have
// arrived (browser/js/reliable.js, _receiveData).
module ReorderBuffer {
  import opened Channel

  /** The i-th frame sent above the base carries number base + i + 1. */
  predicate IsNumbered(sent: seq<Item>, base: nat) {
    forall i :: 0 <= i < |sent| ==> sent[i].seqNo == base + i + 1
  }

  /** A frame as the sender numbered it. */
  predicate Honest(item: Item, sent: seq<Item>, base: nat) {
    base < item.seqNo <= base + |sent| && sent[item.seqNo - base - 1] == item
  }

  /** Everything up to last has been taken; what waits is honest and lies above last. */
  predicate Waiting(last: nat, reorder: map<nat, Item>, sent: seq<Item>, base: nat) {
    && base <= last <= base + |sent|
    && forall q :: q in reorder ==> last < q && Honest(reorder[q], sent, base) && reorder[q].seqNo == q
  }

  /** The receiver's state between frames: the next frame in order is never waiting. */
  predicate ReceiverHalf(last: nat, reorder: map<nat, Item>, sent: seq<Item>, base: nat) {
    Waiting(last, reorder, sent, base) && last + 1 !in reorder
  }

  /** Frame q has arrived. */
  predicate HasSeen(last: nat, reorder: map<nat, Item>, base: nat, q: nat) { base < q <= last || q in reorder }

  /** The second state has seen what the first has, and number extra if that is given. */
  ghost predicate SeenGrows(last: nat, reorder: map<nat, Item>, last': nat, reorder': map<nat, Item>, base: nat,
                            extra: set<nat>) {
    forall q :: HasSeen(last', reorder', base, q) <==> HasSeen(last, reorder, base, q) || q in extra
  }

  lemma SeenGrowsTwice(l0: nat, r0: map<nat, Item>, l1: nat, r1: map<nat, Item>, l2: nat, r2: map<nat, Item>,
                       base: nat, x: set<nat>, y: set<nat>)
    requires SeenGrows(l0, r0, l1, r1, base, x) && SeenGrows(l1, r1, l2, r2, base, y)
    ensures SeenGrows(l0, r0, l2, r2, base, x + y)
  {
  }

  /** Taking the next frame out of the buffer moves the counter, nothing else. */
  lemma TakeNext(last: nat, reorder: map<nat, Item>, sent: seq<Item>, base: nat)
    requires IsNumbered(sent, base) && Waiting(last, reorder, sent, base) && last + 1 in reorder
    ensures reorder[last + 1].seqNo == last + 1 && base <= last < base + |sent|
    ensures reorder[last + 1] == sent[last - base]
    ensures Waiting(last + 1, reorder - {last + 1}, sent, base)
    ensures SeenGrows(last, reorder, last + 1, reorder - {last + 1}, base, {})
  {
  }

  lemma SliceJoin(sent: seq<Item>, i: nat, k: nat)
    requires i < k <= |sent|
    ensures [sent[i]] + sent[i + 1..k] == sent[i..k]
  {
  }

  /** Frames run have been handed up from a state, in order without a gap; the next frame is not there, nothing was
      lost. */
  ghost predicate Handed(last: nat, reorder: map<nat, Item>, sent: seq<Item>, base: nat,
                         last': nat, reorder': map<nat, Item>, run: seq<Item>, extra: set<nat>) {
    && base <= last <= last' <= base + |sent|
    && run == sent[last - base..last' - base]
    && ReceiverHalf(last', reorder', sent, base)
    && SeenGrows(last, reorder, last', reorder', base, extra)
  }

  lemma DrainNothing(last: nat, reorder: map<nat, Item>, sent: seq<Item>, base: nat)
    requires Waiting(last, reorder, sent, base) && last + 1 !in reorder
    ensures Handed(last, reorder, sent, base, last, reorder, [], {})
  {
  }

  lemma HandOne(last: nat, reorder: map<nat, Item>, rest: map<nat, Item>, sent: seq<Item>, base: nat,
                end: nat, final: map<nat, Item>, run: seq<Item>, extra: set<nat>)
    requires base <= last < base + |sent| && SeenGrows(last, reorder, last + 1, rest, base, extra)
    requires Handed(last + 1, rest, sent, base, end, final, run, {})
    ensures Handed(last, reorder, sent, base, end, final, [sent[last - base]] + run, extra)
  {
    hide SeenGrows, ReceiverHalf;
    SliceJoin(sent, last - base, end - base);
    SeenGrowsTwice(last, reorder, last + 1, rest, end, final, base, extra, {});
    assert extra + {} == extra;
  }

  /** Draining terminates, hands up the next frames in order without a gap, and stops at the first missing one. */
  lemma {:induction false} DrainTakesRun(last: nat, reorder: map<nat, Item>, sent: seq<Item>, base: nat)
    requires IsNumbered(sent, base) && Waiting(last, reorder, sent, base)
    ensures var run := Drain(last, reorder);
            Handed(last, reorder, sent, base, last + |run|, DrainedReorder(last, reorder), run, {})
    decreases |reorder|
  {
    hide IsNumbered, Handed, Waiting, SeenGrows;
    if last + 1 in reorder {
      var rest := reorder - {last + 1};
      TakeNext(last, reorder, sent, base);
      DrainTakesRun(last + 1, rest, sent, base);
      var run := Drain(last + 1, rest);
      HandOne(last, reorder, rest, sent, base, last + 1 + |run|, DrainedReorder(last + 1, rest), run, {});
    } else {
      DrainNothing(last, reorder, sent, base);
    }
  }

  lemma NextSeen(last: nat, reorder: map<nat, Item>, sent: seq<Item>, base: nat)
    requires ReceiverHalf(last, reorder, sent, base) && last < base + |sent|
    ensures Waiting(last + 1, reorder, sent, base)
    ensures SeenGrows(last, reorder, last + 1, reorder, base, {last + 1})
  {
  }

  lemma OutOfOrder(last: nat, reorder: map<nat, Item>, sent: seq<Item>, base: nat, item: Item)
    requires ReceiverHalf(last, reorder, sent, base) && Honest(item, sent, base) && item.seqNo != last + 1
    ensures var a := Accept(last, reorder, item);
            Handed(last, reorder, sent, base, a.last, a.reorder, a.run, {item.seqNo})
  {
  }

  lemma InOrder(last: nat, reorder: map<nat, Item>, sent: seq<Item>, base: nat, item: Item)
    requires IsNumbered(sent, base) && ReceiverHalf(last, reorder, sent, base)
    requires Honest(item, sent, base) && item.seqNo == last + 1
    ensures var a := Accept(last, reorder, item);
            Handed(last, reorder, sent, base, a.last, a.reorder, a.run, {item.seqNo})
  {
    NextSeen(last, reorder, sent, base);
    DrainTakesRun(last + 1, reorder, sent, base);
    var run := Drain(last + 1, reorder);
    var end := last + 1 + |run|;
    LastOfRun(last, sent, base, item, end, run);
    HandOne(last, reorder, reorder, sent, base, end, DrainedReorder(last + 1, reorder), run, {item.seqNo});
  }

  lemma LastOfRun(last: nat, sent: seq<Item>, base: nat, item: Item, end: nat, run: seq<Item>)
    requires IsNumbered(sent, base) && Honest(item, sent, base) && item.seqNo == last + 1
    requires last + 1 <= end <= base + |sent| && run == sent[last + 1 - base..end - base]
    ensures ([item] + run)[|run|].seqNo == end
  {
    if run != [] {
      assert ([item] + run)[|run|] == sent[end - base - 1];
    }
  }

  /** One honest frame: the frames handed up continue the sequence, and exactly this number has been added to those
      seen. */
  lemma AcceptStep(last: nat, reorder: map<nat, Item>, sent: seq<Item>, base: nat, item: Item)
    requires IsNumbered(sent, base) && ReceiverHalf(last, reorder, sent, base) && Honest(item, sent, base)
    ensures var a := Accept(last, reorder, item);
            Handed(last, reorder, sent, base, a.last, a.reorder, a.run, {item.seqNo})
  {
    hide Accept, IsNumbered, ReceiverHalf, Honest, Handed;
    if item.seqNo == last + 1 {
      InOrder(last, reorder, sent, base, item);
    } else {
      OutOfOrder(last, reorder, sent, base, item);
    }
  }

  /** A whole arrival sequence; run collects everything handed up. */
  function AcceptAll(last: nat, reorder: map<nat, Item>, items: seq<Item>): Accepted
    decreases |items|
  {
    if items == [] then Accepted(last, reorder, [])
    else
      var before := AcceptAll(last, reorder, items[..|items| - 1]);
      var a := Accept(before.last, before.reorder, items[|items| - 1]);
      Accepted(a.last, a.reorder, before.run + a.run)
  }

  function NumbersOf(items: seq<Item>): set<nat> { set item | item in items :: item.seqNo }

  predicate AllHonest(items: seq<Item>, sent: seq<Item>, base: nat) {
    forall item :: item in items ==> Honest(item, sent, base)
  }

  lemma SliceConcat(sent: seq<Item>, i: nat, j: nat, k: nat)
    requires i <= j <= k <= |sent|
    ensures sent[i..j] + sent[j..k] == sent[i..k]
  {
  }

  lemma NumbersOfLast(items: seq<Item>)
    requires items != []
    ensures NumbersOf(items) == NumbersOf(items[..|items| - 1]) + {items[|items| - 1].seqNo}
  {
    assert items == items[..|items| - 1] + [items[|items| - 1]];
  }

  lemma HandMore(last: nat, reorder: map<nat, Item>, mid: nat, midReorder: map<nat, Item>,
                 end: nat, final: map<nat, Item>, sent: seq<Item>, base: nat,
                 run: seq<Item>, more: seq<Item>, x: set<nat>, y: set<nat>)
    requires Handed(last, reorder, sent, base, mid, midReorder, run, x)
    requires Handed(mid, midReorder, sent, base, end, final, more, y)
    ensures Handed(last, reorder, sent, base, end, final, run + more, x + y)
  {
    hide SeenGrows, ReceiverHalf;
    SliceConcat(sent, last - base, mid - base, end - base);
    SeenGrowsTwice(last, reorder, mid, midReorder, end, final, base, x, y);
  }

  /** Any honest frames in any order with any duplicates. */
  lemma {:induction false} AcceptAllSteps(last: nat, reorder: map<nat, Item>, sent: seq<Item>, base: nat,
                                          items: seq<Item>)
    requires IsNumbered(sent, base) && ReceiverHalf(last, reorder, sent, base) && AllHonest(items, sent, base)
    ensures var a := AcceptAll(last, reorder, items);
            Handed(last, reorder, sent, base, a.last, a.reorder, a.run, NumbersOf(items))
    decreases |items|
  {
    hide Handed, IsNumbered, Accept, Honest, Waiting;
    if items == [] {
      DrainNothing(last, reorder, sent, base);
      assert NumbersOf(items) == {};
    } else {
      var init, item := items[..|items| - 1], items[|items| - 1];
      AcceptAllSteps(last, reorder, sent, base, init);
      var before := AcceptAll(last, reorder, init);
      HandedHalf(last, reorder, sent, base, before.last, before.reorder, before.run, NumbersOf(init));
      AcceptStep(before.last, before.reorder, sent, base, item);
      var a := Accept(before.last, before.reorder, item);
      NumbersOfLast(items);
      HandMore(last, reorder, before.last, before.reorder, a.last, a.reorder, sent, base, before.run, a.run,
               NumbersOf(init), {item.seqNo});
    }
  }

  lemma HandedHalf(last: nat, reorder: map<nat, Item>, sent: seq<Item>, base: nat,
                   last': nat, reorder': map<nat, Item>, run: seq<Item>, extra: set<nat>)
    requires Handed(last, reorder, sent, base, last', reorder', run, extra)
    ensures ReceiverHalf(last', reorder', sent, base)
  {
  }

  /** The numbers seen determine the counter: it is the largest k such that everything from base+1 to k has been
      seen. */
  lemma CounterIsLargestPrefix(last: nat, reorder: map<nat, Item>, sent: seq<Item>, base: nat, k: nat)
    requires ReceiverHalf(last, reorder, sent, base) && base <= k
    ensures (forall q :: base < q <= k ==> HasSeen(last, reorder, base, q)) <==> k <= last
  {
    if k > last {
      assert !HasSeen(last, reorder, base, last + 1);
    }
  }

  /** The numbers seen determine the whole state. */
  lemma SeenDetermines(last1: nat, reorder1: map<nat, Item>, last2: nat, reorder2: map<nat, Item>, sent: seq<Item>,
                       base: nat)
    requires ReceiverHalf(last1, reorder1, sent, base) && ReceiverHalf(last2, reorder2, sent, base)
    requires SeenGrows(last1, reorder1, last2, reorder2, base, {})
    ensures last1 == last2 && reorder1 == reorder2
  {
    CounterIsLargestPrefix(last1, reorder1, sent, base, last2);
    CounterIsLargestPrefix(last2, reorder2, sent, base, last1);
    forall q | q in reorder1 || q in reorder2
      ensures q in reorder1 && q in reorder2 && reorder1[q] == reorder2[q]
    {
      assert HasSeen(last1, reorder1, base, q) && HasSeen(last2, reorder2, base, q);
    }
  }

  lemma SeenSame(last: nat, reorder: map<nat, Item>, last1: nat, reorder1: map<nat, Item>, last2: nat,
                 reorder2: map<nat, Item>, base: nat, s: set<nat>)
    requires SeenGrows(last, reorder, last1, reorder1, base, s) && SeenGrows(last, reorder, last2, reorder2, base, s)
    ensures SeenGrows(last1, reorder1, last2, reorder2, base, {})
  {
  }

  /** Confluence: from one state, two arrivals of the same set of honest frames, in any orders and with any duplicates,
      lead to the same state and hand up the same frames. */
  lemma Confluence(last: nat, reorder: map<nat, Item>, sent: seq<Item>, base: nat, xs: seq<Item>, ys: seq<Item>)
    requires IsNumbered(sent, base) && ReceiverHalf(last, reorder, sent, base)
    requires AllHonest(xs, sent, base) && AllHonest(ys, sent, base) && NumbersOf(xs) == NumbersOf(ys)
    ensures AcceptAll(last, reorder, xs) == AcceptAll(last, reorder, ys)
  {
    hide SeenGrows;
    AcceptAllSteps(last, reorder, sent, base, xs);
    AcceptAllSteps(last, reorder, sent, base, ys);
    var a, b := AcceptAll(last, reorder, xs), AcceptAll(last, reorder, ys);
    SeenSame(last, reorder, a.last, a.reorder, b.last, b.reorder, base, NumbersOf(xs));
    SeenDetermines(a.last, a.reorder, b.last, b.reorder, sent, base);
  }

  lemma SeenFromStart(last: nat, reorder: map<nat, Item>, sent: seq<Item>, base: nat, s: set<nat>, k: nat)
    requires ReceiverHalf(last, reorder, sent, base) && SeenGrows(base, map[], last, reorder, base, s) && base <= k
    ensures (forall q :: base < q <= k ==> q in s) <==> k <= last
    ensures reorder.Keys == set q | q in s && q > last
  {
    assert forall q: nat :: HasSeen(last, reorder, base, q) <==> q in s;
    CounterIsLargestPrefix(last, reorder, sent, base, k);
    if k > last {
      assert !HasSeen(last, reorder, base, last + 1);
    }
  }

  lemma FreshHalf(sent: seq<Item>, base: nat)
    ensures ReceiverHalf(base, map[], sent, base)
  {
  }

  /** The state itself: the counter is the largest k with base+1..k all received, the rest waits, the next one does
      not. */
  lemma ArrivalState(sent: seq<Item>, base: nat, xs: seq<Item>, k: nat)
    requires IsNumbered(sent, base) && AllHonest(xs, sent, base) && base <= k
    ensures var a := AcceptAll(base, map[], xs);
            && ((forall q :: base < q <= k ==> q in NumbersOf(xs)) <==> k <= a.last)
            && a.reorder.Keys == (set q | q in NumbersOf(xs) && q > a.last)
            && a.last + 1 !in a.reorder
            && base <= a.last <= base + |sent| && a.run == sent[..a.last - base]
  {
    hide SeenGrows, AcceptAll, IsNumbered, AllHonest, NumbersOf;
    FreshHalf(sent, base);
    AcceptAllSteps(base, map[], sent, base, xs);
    var a := AcceptAll(base, map[], xs);
    SeenFromStart(a.last, a.reorder, sent, base, NumbersOf(xs), k);
  }
}
