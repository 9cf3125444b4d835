// Where the trailing-artifact trimmer cuts (browser/js/voice-play.js, _trimTrailingAudio): a vote at three window
// sizes on per-frame anomaly flags picks the last frame to keep. The flags and the end of the body come from feature
// statistics, and are parameters here.
module TrailingVote {

  const WINDOWS: seq<nat> := [5, 10, 20]

  function Min(a: int, b: int): int { if a < b then a else b }

  // ---- The vote ----

  /** How many of the w frames ending at frame i are not anomalous. */
  function NormalCount(anomalous: seq<bool>, i: nat, w: nat): (c: nat)
    requires w <= i + 1 && i < |anomalous|
    ensures c <= w
    decreases w
  {
    if w == 0 then 0 else NormalCount(anomalous, i, w - 1) + (if anomalous[i - (w - 1)] then 0 else 1)
  }

  predicate MostlyNormal(anomalous: seq<bool>, i: nat, w: nat)
    requires w <= i + 1 && i < |anomalous|
  {
    2 * NormalCount(anomalous, i, w) > w
  }

  /** The window of w frames ending at i lies in the tail. */
  predicate InTail(anomalous: seq<bool>, bodyEnd: nat, i: int, w: nat) {
    bodyEnd <= i - w + 1 && i < |anomalous| && w >= 1
  }

  /** The last frame, from i downwards, at which a mostly normal window ends; -1 if there is none in the tail. */
  function LastNormal(anomalous: seq<bool>, bodyEnd: nat, i: int, w: nat): (e: int)
    requires -1 <= i < |anomalous| && w >= 1
    ensures e == -1 || (e <= i && InTail(anomalous, bodyEnd, e, w) && MostlyNormal(anomalous, e, w))
    ensures forall k {:trigger InTail(anomalous, bodyEnd, k, w)} ::
              e < k <= i && InTail(anomalous, bodyEnd, k, w) ==> !MostlyNormal(anomalous, k, w)
    decreases i + 1
  {
    if !InTail(anomalous, bodyEnd, i, w) then -1
    else if MostlyNormal(anomalous, i, w) then i
    else LastNormal(anomalous, bodyEnd, i - 1, w)
  }

  /** Where one window size would trim: in the middle of its last mostly normal window, or at the end of the body. */
  function Candidate(anomalous: seq<bool>, bodyEnd: nat, w: nat): (frame: nat)
    requires w >= 1
  {
    var e := LastNormal(anomalous, bodyEnd, |anomalous| - 1, w);
    if e == -1 then bodyEnd else e - w / 2
  }

  /** The deepest trim among the last frame and the first n window sizes. */
  function Deepest(anomalous: seq<bool>, bodyEnd: nat, n: nat): (frame: nat)
    requires n <= |WINDOWS| && |anomalous| > 0
    decreases n
  {
    if n == 0 then |anomalous| - 1
    else Min(Deepest(anomalous, bodyEnd, n - 1), Candidate(anomalous, bodyEnd, WINDOWS[n - 1]))
  }

  function Vote(anomalous: seq<bool>, bodyEnd: nat): nat
    requires |anomalous| > 0
  {
    Deepest(anomalous, bodyEnd, |WINDOWS|)
  }

  lemma CandidateInTail(anomalous: seq<bool>, bodyEnd: nat, w: nat)
    requires w >= 1 && bodyEnd < |anomalous|
    ensures bodyEnd <= Candidate(anomalous, bodyEnd, w) < |anomalous|
  {
    hide MostlyNormal;
  }

  /** Whatever the flags, the vote picks a frame of the tail: that of one window size, and none of them goes deeper. */
  lemma VoteIsDeepest(anomalous: seq<bool>, bodyEnd: nat)
    requires bodyEnd < |anomalous|
    ensures bodyEnd <= Vote(anomalous, bodyEnd) < |anomalous|
    ensures exists w :: w in WINDOWS && Vote(anomalous, bodyEnd) == Candidate(anomalous, bodyEnd, w)
    ensures forall w :: w in WINDOWS ==> Vote(anomalous, bodyEnd) <= Candidate(anomalous, bodyEnd, w)
  {
    hide Candidate;
    CandidateInTail(anomalous, bodyEnd, 5);
    CandidateInTail(anomalous, bodyEnd, 10);
    CandidateInTail(anomalous, bodyEnd, 20);
    assert WINDOWS[0] == 5 && WINDOWS[1] == 10 && WINDOWS[2] == 20;
    assert Deepest(anomalous, bodyEnd, 1) == Min(|anomalous| - 1, Candidate(anomalous, bodyEnd, 5));
    assert Deepest(anomalous, bodyEnd, 2) == Min(Deepest(anomalous, bodyEnd, 1), Candidate(anomalous, bodyEnd, 10));
    assert Deepest(anomalous, bodyEnd, 3) == Min(Deepest(anomalous, bodyEnd, 2), Candidate(anomalous, bodyEnd, 20));
  }

  lemma {:induction false} AllNormalCount(anomalous: seq<bool>, i: nat, w: nat)
    requires w <= i + 1 && i < |anomalous| && forall k :: i - w < k <= i ==> !anomalous[k]
    ensures NormalCount(anomalous, i, w) == w
    decreases w
  {
    if w > 0 {
      AllNormalCount(anomalous, i, w - 1);
    }
  }

  lemma NormalTailCandidate(anomalous: seq<bool>, bodyEnd: nat, w: nat)
    requires w >= 1 && bodyEnd < |anomalous| && forall k :: bodyEnd <= k < |anomalous| ==> !anomalous[k]
    ensures Candidate(anomalous, bodyEnd, w) == if |anomalous| - bodyEnd >= w then |anomalous| - 1 - w / 2 else bodyEnd
  {
    if |anomalous| - bodyEnd >= w {
      AllNormalCount(anomalous, |anomalous| - 1, w);
    }
  }

  /** A tail without a single anomalous frame still loses its last ten frames, or all of itself when it is shorter than
      twenty. */
  lemma NormalTailVote(anomalous: seq<bool>, bodyEnd: nat)
    requires bodyEnd < |anomalous| && forall k :: bodyEnd <= k < |anomalous| ==> !anomalous[k]
    ensures Vote(anomalous, bodyEnd) == if |anomalous| - bodyEnd >= 20 then |anomalous| - 11 else bodyEnd
  {
    hide Candidate;
    VoteIsDeepest(anomalous, bodyEnd);
    NormalTailCandidate(anomalous, bodyEnd, 5);
    NormalTailCandidate(anomalous, bodyEnd, 10);
    NormalTailCandidate(anomalous, bodyEnd, 20);
    assert WINDOWS[0] == 5 && WINDOWS[1] == 10 && WINDOWS[2] == 20;
  }

  // ---- What the vote computes ----

  /** The normal frames among the w frames ending at frame e. */
  function NormalFrames(anomalous: seq<bool>, e: nat, w: nat): set<nat>
    requires e < |anomalous|
  {
    set k: nat | e - w < k <= e && !anomalous[k]
  }

  /** The w frames ending at e lie in the tail and more than half of them are normal. */
  predicate MajorityEnds(anomalous: seq<bool>, bodyEnd: nat, w: nat, e: nat) {
    e < |anomalous| && bodyEnd <= e - w + 1 && 2 * |NormalFrames(anomalous, e, w)| > w
  }

  /** One window size trims at c: half a window before the end of the last window with a normal majority, or at the
      end of the body when there is none. */
  ghost predicate TrimsAt(anomalous: seq<bool>, bodyEnd: nat, w: nat, c: nat) {
    || (c == bodyEnd && forall e :: !MajorityEnds(anomalous, bodyEnd, w, e))
    || (exists e :: MajorityEnds(anomalous, bodyEnd, w, e) && c + w / 2 == e
                    && forall f :: f > e ==> !MajorityEnds(anomalous, bodyEnd, w, f))
  }

  lemma {:induction false} CountsNormal(anomalous: seq<bool>, i: nat, w: nat)
    requires w <= i + 1 && i < |anomalous|
    ensures NormalCount(anomalous, i, w) == |NormalFrames(anomalous, i, w)|
    decreases w
  {
    if w == 0 {
      assert NormalFrames(anomalous, i, 0) == {};
    } else {
      CountsNormal(anomalous, i, w - 1);
      var k := i - (w - 1);
      var before := NormalFrames(anomalous, i, w - 1);
      assert k !in before;
      assert NormalFrames(anomalous, i, w) == if anomalous[k] then before else before + {k};
    }
  }

  lemma MajorityMeans(anomalous: seq<bool>, bodyEnd: nat, w: nat, e: nat)
    requires w >= 1
    ensures MajorityEnds(anomalous, bodyEnd, w, e)
       <==> InTail(anomalous, bodyEnd, e, w) && MostlyNormal(anomalous, e, w)
  {
    if InTail(anomalous, bodyEnd, e, w) {
      CountsNormal(anomalous, e, w);
    }
  }

  lemma CandidateExactly(anomalous: seq<bool>, bodyEnd: nat, w: nat)
    requires w >= 1 && bodyEnd < |anomalous|
    ensures TrimsAt(anomalous, bodyEnd, w, Candidate(anomalous, bodyEnd, w))
  {
    hide MajorityEnds, MostlyNormal;
    var last := LastNormal(anomalous, bodyEnd, |anomalous| - 1, w);
    forall f: nat | f > last
      ensures !MajorityEnds(anomalous, bodyEnd, w, f)
    {
      MajorityMeans(anomalous, bodyEnd, w, f);
    }
    if last >= 0 {
      MajorityMeans(anomalous, bodyEnd, w, last);
    }
  }

  /** The vote is the deepest of the trims at five, ten and twenty frames. */
  lemma VoteExactly(anomalous: seq<bool>, bodyEnd: nat) returns (five: nat, ten: nat, twenty: nat)
    requires bodyEnd < |anomalous|
    ensures TrimsAt(anomalous, bodyEnd, 5, five) && TrimsAt(anomalous, bodyEnd, 10, ten)
    ensures TrimsAt(anomalous, bodyEnd, 20, twenty)
    ensures Vote(anomalous, bodyEnd) <= five && Vote(anomalous, bodyEnd) <= ten && Vote(anomalous, bodyEnd) <= twenty
    ensures Vote(anomalous, bodyEnd) in {five, ten, twenty}
  {
    hide TrimsAt, Candidate, Vote;
    five, ten := Candidate(anomalous, bodyEnd, 5), Candidate(anomalous, bodyEnd, 10);
    twenty := Candidate(anomalous, bodyEnd, 20);
    CandidateExactly(anomalous, bodyEnd, 5);
    CandidateExactly(anomalous, bodyEnd, 10);
    CandidateExactly(anomalous, bodyEnd, 20);
    VoteIsDeepest(anomalous, bodyEnd);
    assert WINDOWS[0] == 5 && WINDOWS[1] == 10 && WINDOWS[2] == 20;
  }

  // ---- The code ----

  method CountNormal(anomalous: seq<bool>, i: nat, w: nat) returns (normalCount: nat)
    requires w <= i + 1 && i < |anomalous|
    ensures normalCount == NormalCount(anomalous, i, w)
  {
    normalCount := 0;
    var j := 0;
    while j < w
      invariant 0 <= j <= w && normalCount == NormalCount(anomalous, i, j)
    {
      if !anomalous[i - j] {
        normalCount := normalCount + 1;
      }
      j := j + 1;
    }
  }

  /** One backward scan: where window size w would trim. */
  method Scan(anomalous: seq<bool>, bodyEnd: nat, w: nat) returns (trimAt: nat)
    requires w >= 1
    ensures trimAt == Candidate(anomalous, bodyEnd, w)
  {
    var i := |anomalous| - 1;
    while i >= bodyEnd
      invariant -1 <= i < |anomalous|
      invariant LastNormal(anomalous, bodyEnd, i, w) == LastNormal(anomalous, bodyEnd, |anomalous| - 1, w)
      decreases i + 1
    {
      if i - w + 1 < bodyEnd {
        return bodyEnd;
      }
      var normalCount := CountNormal(anomalous, i, w);
      if 2 * normalCount > w {
        return i - w / 2;
      }
      i := i - 1;
    }
    return bodyEnd;
  }

  /** The scans at all window sizes; the deepest trim wins. */
  method FindTrimFrame(anomalous: seq<bool>, bodyEnd: nat) returns (bestTrimFrame: nat)
    requires |anomalous| > 0
    ensures bestTrimFrame == Vote(anomalous, bodyEnd)
  {
    bestTrimFrame := |anomalous| - 1;
    var n := 0;
    while n < |WINDOWS|
      invariant 0 <= n <= |WINDOWS| && bestTrimFrame == Deepest(anomalous, bodyEnd, n)
    {
      var trimAt := Scan(anomalous, bodyEnd, WINDOWS[n]);
      if trimAt < bestTrimFrame {
        bestTrimFrame := trimAt;
      }
      n := n + 1;
    }
  }
}
