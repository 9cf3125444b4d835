// What the splitter leaves: sentences that hold no further place to cut, put together from the front while they are
// too short (gpu-worker/handler.py:1164-1181).
module SentenceShape {
  import opened SentenceSplit
  import opened SentenceMerging
  import opened SentenceSpaces
  import opened SentenceCuts

  // ---- Sentences ----

  /** No split character followed by white space. */
  ghost predicate Unbroken(s: string, ends: set<char>, space: Space) {
    forall i :: 1 <= i < |s| ==> !BreakAt(s, ends, space, i)
  }

  ghost predicate AllUnbroken(parts: seq<string>, n: nat, ends: set<char>, space: Space)
    requires n <= |parts|
  {
    forall k :: 0 <= k < n ==> Unbroken(parts[k], ends, space)
  }

  lemma UnbrokenPart(s: string, ends: set<char>, space: Space, i: nat, k: nat)
    requires Unbroken(s, ends, space) && i <= k <= |s|
    ensures Unbroken(s[i..k], ends, space)
  {
    var t := s[i..k];
    forall l | 1 <= l < |t|
      ensures !BreakAt(t, ends, space, l)
    {
      assert !BreakAt(s, ends, space, i + l);
    }
  }

  lemma BeforeFirstBreak(s: string, ends: set<char>, space: Space)
    ensures var p := FirstBreak(s, ends, space, 1); Unbroken(if p < |s| then s[..p] else s, ends, space)
  {
    hide FirstBreak;
    var p := FirstBreak(s, ends, space, 1);
    var t := if p < |s| then s[..p] else s;
    forall i | 1 <= i < |t|
      ensures !BreakAt(t, ends, space, i)
    {
      if s[i - 1] in ends && space(s[i]) {
        NoEarlierBreak(s, ends, space, 1, i);
      }
    }
  }

  lemma {:induction false} SplitUnbroken(s: string, ends: set<char>, space: Space)
    ensures var parts := Split(s, ends, space); AllUnbroken(parts, |parts|, ends, space)
    decreases |s|
  {
    hide FirstBreak, StripLeft, Unbroken;
    var p := FirstBreak(s, ends, space, 1);
    BeforeFirstBreak(s, ends, space);
    if p < |s| {
      SplitUnbroken(StripLeft(s[p..], space), ends, space);
    }
  }

  lemma StripUnbroken(s: string, ends: set<char>, space: Space)
    requires Unbroken(s, ends, space)
    ensures Unbroken(Strip(s, space), ends, space)
  {
    hide StripLeft, StripRight, Unbroken;
    StripLeftInked(s, space);
    var l := StripLeft(s, space);
    UnbrokenPart(s, ends, space, |s| - |l|, |s|);
    assert s[|s| - |l|..|s|] == l;
    var r := StripRight(l, space);
    UnbrokenPart(l, ends, space, 0, |r|);
    assert l[0..|r|] == r;
  }

  lemma {:induction false} CleanedUnbroken(parts: seq<string>, ends: set<char>, space: Space, n: nat)
    requires n <= |parts| && AllUnbroken(parts, n, ends, space)
    ensures var c := Cleaned(parts, space, n); AllUnbroken(c, |c|, ends, space)
    decreases n
  {
    hide Strip, Unbroken;
    if n > 0 {
      CleanedUnbroken(parts, ends, space, n - 1);
      StripUnbroken(parts[n - 1], ends, space);
    }
  }

  /** No sentence holds a place where it should have been cut. */
  lemma SentencesUnbroken(text: string, ends: set<char>, space: Space)
    ensures var s := Sentences(text, ends, space); AllUnbroken(s, |s|, ends, space)
  {
    hide Strip, Split, Cleaned, AllUnbroken;
    var parts := Split(Strip(text, space), ends, space);
    SplitUnbroken(Strip(text, space), ends, space);
    CleanedUnbroken(parts, ends, space, |parts|);
  }

  // ---- Chunks ----

  /** The first sentence of the chunk that sentence n - 1 is in: a chunk ends as soon as it reaches the minimum. */
  function GroupStart(s: seq<string>, min: int, length: Length, n: nat): (i: nat)
    requires 1 <= n <= |s|
    ensures i < n
    decreases n
  {
    if n == 1 then 0
    else
      var i := GroupStart(s, min, length, n - 1);
      if min > 0 && length(Join(s[i..n - 1])) < min then i else n - 1
  }

  /** The chunk being built is always the whole group of sentences since the last one that was full. */
  lemma {:induction false} MergedIsGreedy(s: seq<string>, min: int, length: Length, n: nat)
    requires 1 <= n <= |s|
    ensures var i := GroupStart(s, min, length, n);
            Merged(s[..n], min, length) == Merged(s[..i], min, length) + [Join(s[i..n])]
    decreases n
  {
    hide Merged, Join, Add;
    var front, x := s[..n - 1], s[n - 1];
    assert s[..n] == front + [x];
    MergedSnoc(front, x, min, length);
    if n == 1 {
      assert s[..0] == [] && s[0..1] == [x];
      NoneMerged(min, length);
      JoinOne(x);
      FirstAdded(x, min, length);
    } else {
      var i := GroupStart(s, min, length, n - 1);
      MergedIsGreedy(s, min, length, n - 1);
      AddIs(Merged(front, min, length), x, min, length);
      assert s[i..n] == s[i..n - 1] + [x] && s[n - 1..n] == [x];
      JoinSnoc(s[i..n - 1], x);
      JoinOne(x);
    }
  }

  lemma FirstAdded(x: string, min: int, length: Length)
    ensures Add([], x, min, length) == [x]
  {
  }
}
