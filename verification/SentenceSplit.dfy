// Splitting text into sentence chunks (gpu-worker/handler.py, _split_sentences): cut after a split character followed
// by white space, then merge chunks shorter than a minimum. What counts as white space and how long a string is are
// parameters.
module SentenceSplit {

  type Space = char -> bool
  type Length = string -> int

  // ---- Cutting ----

  function StripLeft(s: string, space: Space): (r: string)
    ensures |r| <= |s|
    decreases |s|
  {
    if s != [] && space(s[0]) then StripLeft(s[1..], space) else s
  }

  function StripRight(s: string, space: Space): (r: string)
    ensures r <= s
    decreases |s|
  {
    if s != [] && space(s[|s| - 1]) then StripRight(s[..|s| - 1], space) else s
  }

  function Strip(s: string, space: Space): string { StripRight(StripLeft(s, space), space) }

  /** The first position from i on where white space follows a split character. */
  function FirstBreak(s: string, ends: set<char>, space: Space, i: nat): (p: nat)
    requires 1 <= i
    ensures p >= 1 && (p < |s| ==> s[p - 1] in ends && space(s[p]))
    decreases |s| - i
  {
    if i >= |s| then i
    else if s[i - 1] in ends && space(s[i]) then i
    else FirstBreak(s, ends, space, i + 1)
  }

  /** Splits at every run of white space that follows a split character. */
  function Split(s: string, ends: set<char>, space: Space): (parts: seq<string>)
    ensures parts != []
    decreases |s|
  {
    var p := FirstBreak(s, ends, space, 1);
    if p >= |s| then [s] else [s[..p]] + Split(StripLeft(s[p..], space), ends, space)
  }

  /** The first n parts, stripped, without the empty ones. */
  function Cleaned(parts: seq<string>, space: Space, n: nat): seq<string>
    requires n <= |parts|
    decreases n
  {
    if n == 0 then []
    else
      var p := Strip(parts[n - 1], space);
      Cleaned(parts, space, n - 1) + (if p == "" then [] else [p])
  }

  /** The sentences of a text. */
  function Sentences(text: string, ends: set<char>, space: Space): seq<string> {
    var parts := Split(Strip(text, space), ends, space);
    Cleaned(parts, space, |parts|)
  }

  // ---- Merging ----

  function Last(s: seq<string>): string
    requires s != []
  {
    s[|s| - 1]
  }

  /** The next sentence joins the last chunk while that is too short. */
  function Add(merged: seq<string>, part: string, min: int, length: Length): (r: seq<string>)
    ensures r != []
  {
    if merged != [] && min > 0 && length(Last(merged)) < min
    then merged[..|merged| - 1] + [Last(merged) + " " + part]
    else merged + [part]
  }

  function Merged(sentences: seq<string>, min: int, length: Length): (r: seq<string>)
    ensures r == [] <==> sentences == []
    decreases |sentences|
  {
    if sentences == [] then []
    else Add(Merged(sentences[..|sentences| - 1], min, length), Last(sentences), min, length)
  }

  /** A last chunk that is too short joins the one before. */
  function Finish(merged: seq<string>, min: int, length: Length): seq<string> {
    var n := |merged|;
    if n > 1 && min > 0 && length(merged[n - 1]) < min
    then merged[..n - 2] + [merged[n - 2] + " " + merged[n - 1]]
    else merged
  }

  /** The chunks of a text; a text without any sentence is returned as it is. */
  function Chunks(text: string, ends: set<char>, min: int, space: Space, length: Length): seq<string> {
    var merged := Merged(Sentences(text, ends, space), min, length);
    if merged == [] then [text] else Finish(merged, min, length)
  }

  // ---- Nothing is lost ----

  /** The chunks with single spaces between them. */
  function Join(chunks: seq<string>): string
    decreases |chunks|
  {
    if chunks == [] then ""
    else if |chunks| == 1 then chunks[0]
    else Join(chunks[..|chunks| - 1]) + " " + Last(chunks)
  }

  lemma JoinSnoc(chunks: seq<string>, c: string)
    ensures Join(chunks + [c]) == if chunks == [] then c else Join(chunks) + " " + c
  {
    assert (chunks + [c])[..|chunks|] == chunks;
  }

  /** Merging the last two chunks does not change the joined text. */
  lemma JoinPair(chunks: seq<string>, b: string, c: string)
    ensures Join(chunks + [b + " " + c]) == Join(chunks + [b] + [c])
  {
    JoinSnoc(chunks, b + " " + c);
    JoinSnoc(chunks, b);
    JoinSnoc(chunks + [b], c);
    if chunks != [] {
      assert Join(chunks) + " " + (b + " " + c) == Join(chunks) + " " + b + " " + c;
    }
  }

  lemma AddJoins(merged: seq<string>, part: string, min: int, length: Length)
    ensures Join(Add(merged, part, min, length)) == Join(merged + [part])
  {
    if merged != [] {
      var front := merged[..|merged| - 1];
      assert front + [Last(merged)] == merged;
      JoinPair(front, Last(merged), part);
    }
  }

  lemma {:induction false} MergedJoins(sentences: seq<string>, min: int, length: Length)
    ensures Join(Merged(sentences, min, length)) == Join(sentences)
    decreases |sentences|
  {
    hide Add;
    if sentences != [] {
      var front := sentences[..|sentences| - 1];
      MergedJoins(front, min, length);
      AddJoins(Merged(front, min, length), Last(sentences), min, length);
      JoinSnoc(Merged(front, min, length), Last(sentences));
      JoinSnoc(front, Last(sentences));
      assert front + [Last(sentences)] == sentences;
    }
  }

  lemma FinishJoins(merged: seq<string>, min: int, length: Length)
    ensures Join(Finish(merged, min, length)) == Join(merged)
  {
    var n := |merged|;
    if n > 1 {
      JoinPair(merged[..n - 2], merged[n - 2], merged[n - 1]);
      assert merged[..n - 2] + [merged[n - 2]] + [merged[n - 1]] == merged;
    }
  }

  /** Joined with spaces, the chunks are the sentences of the text in order. */
  lemma ChunksJoin(text: string, ends: set<char>, min: int, space: Space, length: Length)
    ensures var sentences := Sentences(text, ends, space);
            Join(Chunks(text, ends, min, space, length)) == if sentences == [] then text else Join(sentences)
  {
    hide Finish, Join, Sentences;
    var sentences := Sentences(text, ends, space);
    MergedJoins(sentences, min, length);
    FinishJoins(Merged(sentences, min, length), min, length);
    JoinOne(text);
  }

  lemma JoinOne(text: string)
    ensures Join([text]) == text
  {
  }

  /** The characters that are not white space. */
  function Ink(s: string, space: Space): string
    decreases |s|
  {
    if s == "" then "" else (if space(s[0]) then "" else [s[0]]) + Ink(s[1..], space)
  }

  lemma {:induction false} InkAppend(a: string, b: string, space: Space)
    ensures Ink(a + b, space) == Ink(a, space) + Ink(b, space)
    decreases |a|
  {
    if a == "" {
      assert a + b == b;
    } else {
      assert (a + b)[1..] == a[1..] + b;
      InkAppend(a[1..], b, space);
    }
  }

  lemma {:induction false} InkStripLeft(s: string, space: Space)
    ensures Ink(StripLeft(s, space), space) == Ink(s, space)
    decreases |s|
  {
    if s != [] && space(s[0]) {
      InkStripLeft(s[1..], space);
    }
  }

  lemma {:induction false} InkStripRight(s: string, space: Space)
    ensures Ink(StripRight(s, space), space) == Ink(s, space)
    decreases |s|
  {
    if s != [] && space(s[|s| - 1]) {
      var front, last := s[..|s| - 1], s[|s| - 1..];
      InkStripRight(front, space);
      InkAppend(front, last, space);
      assert front + last == s && last[1..] == "";
    }
  }

  lemma InkStrip(s: string, space: Space)
    ensures Ink(Strip(s, space), space) == Ink(s, space)
  {
    InkStripLeft(s, space);
    InkStripRight(StripLeft(s, space), space);
  }

  function InkOf(parts: seq<string>, space: Space, n: nat): string
    requires n <= |parts|
    decreases n
  {
    if n == 0 then "" else InkOf(parts, space, n - 1) + Ink(parts[n - 1], space)
  }

  lemma {:induction false} InkOfCons(p: string, parts: seq<string>, space: Space, n: nat)
    requires n <= |parts|
    ensures InkOf([p] + parts, space, n + 1) == Ink(p, space) + InkOf(parts, space, n)
    decreases n
  {
    if n > 0 {
      InkOfCons(p, parts, space, n - 1);
    } else {
      assert InkOf([p] + parts, space, 0) == "";
    }
  }

  lemma {:induction false} SplitKeepsInk(s: string, ends: set<char>, space: Space)
    ensures var parts := Split(s, ends, space); InkOf(parts, space, |parts|) == Ink(s, space)
    decreases |s|
  {
    hide FirstBreak;
    var p := FirstBreak(s, ends, space, 1);
    if p < |s| {
      var rest := StripLeft(s[p..], space);
      SplitKeepsInk(rest, ends, space);
      InkStripLeft(s[p..], space);
      assert s == s[..p] + s[p..];
      InkAppend(s[..p], s[p..], space);
      var tail := Split(rest, ends, space);
      InkOfCons(s[..p], tail, space, |tail|);
    } else {
      InkSingle(s, space);
    }
  }

  lemma InkSingle(s: string, space: Space)
    ensures InkOf([s], space, 1) == Ink(s, space)
  {
    assert InkOf([s], space, 0) == "";
  }

  lemma InkSpace(space: Space)
    requires space(' ')
    ensures Ink(" ", space) == ""
  {
    assert " "[1..] == "";
  }

  lemma {:induction false} JoinInk(chunks: seq<string>, space: Space)
    requires space(' ')
    ensures Ink(Join(chunks), space) == InkOf(chunks, space, |chunks|)
    decreases |chunks|
  {
    hide Ink;
    if |chunks| == 0 {
      NoInk(space);
    } else if |chunks| == 1 {
      InkSingle(chunks[0], space);
      assert chunks == [chunks[0]];
    } else {
      var front := chunks[..|chunks| - 1];
      JoinInk(front, space);
      InkAppend(Join(front) + " ", Last(chunks), space);
      InkAppend(Join(front), " ", space);
      InkSpace(space);
      InkOfFront(chunks, space, |front|);
    }
  }

  lemma NoInk(space: Space)
    ensures Ink("", space) == ""
  {
  }

  lemma {:induction false} InkOfFront(parts: seq<string>, space: Space, n: nat)
    requires parts != [] && n <= |parts| - 1
    ensures InkOf(parts[..|parts| - 1], space, n) == InkOf(parts, space, n)
    decreases n
  {
    if n > 0 {
      InkOfFront(parts, space, n - 1);
    }
  }

  lemma {:induction false} CleanedInk(parts: seq<string>, space: Space, n: nat)
    requires n <= |parts|
    ensures var c := Cleaned(parts, space, n); InkOf(c, space, |c|) == InkOf(parts, space, n)
    decreases n
  {
    hide Ink, Strip;
    NoInk(space);
    if n > 0 {
      CleanedInk(parts, space, n - 1);
      InkStrip(parts[n - 1], space);
      var c, p := Cleaned(parts, space, n - 1), Strip(parts[n - 1], space);
      if p != "" {
        assert (c + [p])[..|c|] == c;
        InkOfFront(c + [p], space, |c|);
      } else {
        assert c + [] == c;
      }
    }
  }

  /** Every character of the text that is not white space is in the chunks, once and in order. */
  lemma InkKept(text: string, ends: set<char>, min: int, space: Space, length: Length)
    requires space(' ')
    ensures Ink(Join(Chunks(text, ends, min, space, length)), space) == Ink(text, space)
  {
    hide Chunks, Join, Ink, Split, Cleaned, Strip;
    ChunksJoin(text, ends, min, space, length);
    var sentences := Sentences(text, ends, space);
    if sentences != [] {
      JoinInk(sentences, space);
      var parts := Split(Strip(text, space), ends, space);
      CleanedInk(parts, space, |parts|);
      SplitKeepsInk(Strip(text, space), ends, space);
      InkStrip(text, space);
    }
  }

  // ---- Every chunk is long enough ----

  /** Appending never makes a string shorter. */
  ghost predicate Monotone(length: Length) {
    forall a: string, b: string :: length(a) <= length(a + b)
  }

  ghost predicate AllReach(chunks: seq<string>, n: nat, min: int, length: Length)
    requires n <= |chunks|
  {
    forall k :: 0 <= k < n ==> length(chunks[k]) >= min
  }

  lemma AddReach(merged: seq<string>, part: string, min: int, length: Length)
    requires min > 0 && (merged == [] || AllReach(merged, |merged| - 1, min, length))
    ensures var m := Add(merged, part, min, length); AllReach(m, |m| - 1, min, length)
  {
    var m := Add(merged, part, min, length);
    forall k | 0 <= k < |m| - 1
      ensures length(m[k]) >= min
    {
      assert m[k] == merged[k];
    }
  }

  /** While merging, only the last chunk can be too short. */
  lemma {:induction false} MergedReach(sentences: seq<string>, min: int, length: Length)
    requires min > 0 && sentences != []
    ensures var m := Merged(sentences, min, length); AllReach(m, |m| - 1, min, length)
    decreases |sentences|
  {
    hide Add, AllReach;
    var front := sentences[..|sentences| - 1];
    if front == [] {
      AddReach([], Last(sentences), min, length);
    } else {
      MergedReach(front, min, length);
      AddReach(Merged(front, min, length), Last(sentences), min, length);
    }
  }

  /** Every chunk reaches the minimum whenever there is more than one. */
  lemma ChunksReach(text: string, ends: set<char>, min: int, space: Space, length: Length)
    requires min > 0 && Monotone(length)
    ensures var c := Chunks(text, ends, min, space, length); |c| > 1 ==> AllReach(c, |c|, min, length)
  {
    hide Sentences, Merged;
    var sentences := Sentences(text, ends, space);
    if sentences != [] {
      MergedReach(sentences, min, length);
      var m := Merged(sentences, min, length);
      var n := |m|;
      if n > 1 && length(m[n - 1]) < min {
        assert length(m[n - 2]) <= length(m[n - 2] + (" " + m[n - 1]));
        assert m[n - 2] + (" " + m[n - 1]) == m[n - 2] + " " + m[n - 1];
      }
    }
  }

  // ---- Chunks end where sentences end ----

  predicate EndsWell(s: string, ends: set<char>) { s != "" && s[|s| - 1] in ends }

  predicate AllEndWell(parts: seq<string>, n: int, ends: set<char>)
    requires n <= |parts|
  {
    forall k :: 0 <= k < n ==> EndsWell(parts[k], ends)
  }

  predicate Inked(ends: set<char>, space: Space) { forall c :: c in ends ==> !space(c) }

  lemma {:induction false} StripLeftEndsWell(s: string, ends: set<char>, space: Space)
    requires EndsWell(s, ends) && Inked(ends, space)
    ensures EndsWell(StripLeft(s, space), ends)
    decreases |s|
  {
    if space(s[0]) {
      StripLeftEndsWell(s[1..], ends, space);
    }
  }

  lemma StripEndsWell(s: string, ends: set<char>, space: Space)
    requires EndsWell(s, ends) && Inked(ends, space)
    ensures EndsWell(Strip(s, space), ends)
  {
    StripLeftEndsWell(s, ends, space);
  }

  lemma {:induction false} SplitEndsWell(s: string, ends: set<char>, space: Space)
    ensures var parts := Split(s, ends, space); AllEndWell(parts, |parts| - 1, ends)
    decreases |s|
  {
    hide FirstBreak, StripLeft;
    var p := FirstBreak(s, ends, space, 1);
    if p < |s| {
      SplitEndsWell(StripLeft(s[p..], space), ends, space);
    }
  }

  lemma {:induction false} CleanedEndsWell(parts: seq<string>, ends: set<char>, space: Space, n: nat)
    requires n <= |parts| && AllEndWell(parts, n, ends) && Inked(ends, space)
    ensures AllEndWell(Cleaned(parts, space, n), |Cleaned(parts, space, n)|, ends)
    decreases n
  {
    hide Strip;
    if n > 0 {
      CleanedEndsWell(parts, ends, space, n - 1);
      StripEndsWell(parts[n - 1], ends, space);
    }
  }

  /** Every sentence but the last ends with a split character. */
  lemma SentencesEndWell(text: string, ends: set<char>, space: Space)
    requires Inked(ends, space)
    ensures var s := Sentences(text, ends, space); AllEndWell(s, |s| - 1, ends)
  {
    hide Split;
    var parts := Split(Strip(text, space), ends, space);
    SplitEndsWell(Strip(text, space), ends, space);
    CleanedEndsWell(parts, ends, space, |parts| - 1);
  }

  lemma {:induction false} MergedEndsWell(sentences: seq<string>, n: nat, min: int, length: Length, ends: set<char>)
    requires n == |sentences| && AllEndWell(sentences, n, ends)
    ensures var m := Merged(sentences, min, length); AllEndWell(m, |m|, ends)
    decreases n
  {
    hide Add, EndsWell;
    if n > 0 {
      MergedEndsWell(sentences[..n - 1], n - 1, min, length, ends);
      MergedLast(sentences, min, length);
      AddEndsWell(Merged(sentences[..n - 1], min, length), Last(sentences), min, length, ends);
    }
  }

  lemma NoSentences(min: int, length: Length)
    ensures Merged([], min, length) == []
  {
  }

  lemma OneEndsWell(text: string, ends: set<char>)
    ensures AllEndWell([text], 0, ends)
  {
  }

  lemma FrontEndsWell(s: seq<string>, ends: set<char>)
    requires s != [] && AllEndWell(s, |s| - 1, ends)
    ensures AllEndWell(s[..|s| - 1], |s| - 1, ends)
  {
  }

  lemma MergedLast(s: seq<string>, min: int, length: Length)
    requires s != []
    ensures Merged(s, min, length) == Add(Merged(s[..|s| - 1], min, length), Last(s), min, length)
  {
  }

  lemma AddEndsWell(merged: seq<string>, part: string, min: int, length: Length, ends: set<char>)
    requires AllEndWell(merged, |merged|, ends)
    ensures var m := Add(merged, part, min, length);
            AllEndWell(m, |m| - 1, ends) && (EndsWell(part, ends) ==> AllEndWell(m, |m|, ends))
  {
  }

  lemma FinishEndsWell(merged: seq<string>, min: int, length: Length, ends: set<char>)
    requires merged != [] && AllEndWell(merged, |merged| - 1, ends)
    ensures var m := Finish(merged, min, length); AllEndWell(m, |m| - 1, ends)
  {
  }

  /** Every chunk but the last ends with a split character. */
  lemma ChunksEndWell(text: string, ends: set<char>, min: int, space: Space, length: Length)
    requires Inked(ends, space)
    ensures var c := Chunks(text, ends, min, space, length); AllEndWell(c, |c| - 1, ends)
  {
    hide Sentences, AllEndWell, Add, Finish, Merged;
    SentencesEndWell(text, ends, space);
    var s := Sentences(text, ends, space);
    if s == [] {
      NoSentences(min, length);
      OneEndsWell(text, ends);
    } else {
      var front := s[..|s| - 1];
      FrontEndsWell(s, ends);
      MergedEndsWell(front, |front|, min, length, ends);
      MergedLast(s, min, length);
      AddEndsWell(Merged(front, min, length), Last(s), min, length, ends);
      FinishEndsWell(Merged(s, min, length), min, length, ends);
    }
  }

  // ---- The code ----

  lemma MergedSnoc(done: seq<string>, part: string, min: int, length: Length)
    ensures Merged(done + [part], min, length) == Add(Merged(done, min, length), part, min, length)
  {
    assert (done + [part])[..|done|] == done;
  }

  /** The merging loop. */
  method MergeShort(parts: seq<string>, min: int, space: Space, length: Length) returns (merged: seq<string>)
    ensures merged == Merged(Cleaned(parts, space, |parts|), min, length)
  {
    hide Strip, Add, Merged;
    merged := [];
    NoneMerged(min, length);
    var i := 0;
    while i < |parts|
      invariant 0 <= i <= |parts| && merged == Merged(Cleaned(parts, space, i), min, length)
    {
      var part := Strip(parts[i], space);
      ghost var done := Cleaned(parts, space, i);
      if part != "" {
        MergedSnoc(done, part, min, length);
        merged := AddPart(merged, part, min, length);
      } else {
        assert done + [] == done;
      }
      i := i + 1;
    }
  }

  lemma NoneMerged(min: int, length: Length)
    ensures Merged([], min, length) == []
  {
  }

  method AddPart(before: seq<string>, part: string, min: int, length: Length) returns (merged: seq<string>)
    ensures merged == Add(before, part, min, length)
  {
    merged := before;
    var n := |merged|;
    if n > 0 && min > 0 && length(merged[n - 1]) < min {
      merged := merged[n - 1 := merged[n - 1] + " " + part];
    } else {
      merged := merged + [part];
    }
  }

  /** The final pass. */
  method MergeLast(before: seq<string>, min: int, length: Length) returns (merged: seq<string>)
    ensures merged == Finish(before, min, length)
  {
    merged := before;
    var n := |merged|;
    if n > 1 && min > 0 && length(merged[n - 1]) < min {
      var last := merged[n - 1];
      merged := merged[..n - 1];
      merged := merged[n - 2 := merged[n - 2] + " " + last];
    }
  }
}
