// Cutting one text under two ideas of white space: what neither program drops, and when they cut alike.
module SentenceSpaces {
  import opened SentenceSplit

  /** What only the first program counts as white space. */
  function Only(a: Space, b: Space): Space { c => a(c) && !b(c) }

  /** How many characters of s are in q. */
  function Tally(s: string, q: Space): nat
    decreases |s|
  {
    if s == "" then 0 else (if q(s[0]) then 1 else 0) + Tally(s[1..], q)
  }

  function TallyOf(parts: seq<string>, q: Space, n: nat): nat
    requires n <= |parts|
    decreases n
  {
    if n == 0 then 0 else TallyOf(parts, q, n - 1) + Tally(parts[n - 1], q)
  }

  lemma {:induction false} TallyAppend(a: string, b: string, q: Space)
    ensures Tally(a + b, q) == Tally(a, q) + Tally(b, q)
    decreases |a|
  {
    if a == "" {
      assert a + b == b;
    } else {
      assert (a + b)[1..] == a[1..] + b;
      TallyAppend(a[1..], b, q);
    }
  }

  lemma TallyOne(c: char, q: Space)
    ensures Tally([c], q) == if q(c) then 1 else 0
  {
    assert [c][1..] == "";
  }

  // ---- Stripping and splitting never add to a tally ----

  lemma {:induction false} StripLeftTally(s: string, space: Space, q: Space)
    ensures Tally(StripLeft(s, space), q) <= Tally(s, q)
    decreases |s|
  {
    if s != [] && space(s[0]) {
      StripLeftTally(s[1..], space, q);
    }
  }

  lemma {:induction false} StripRightTally(s: string, space: Space, q: Space)
    ensures Tally(StripRight(s, space), q) <= Tally(s, q)
    decreases |s|
  {
    if s != [] && space(s[|s| - 1]) {
      var front := s[..|s| - 1];
      assert s == front + [s[|s| - 1]];
      TallyAppend(front, [s[|s| - 1]], q);
      StripRightTally(front, space, q);
    }
  }

  lemma StripTally(s: string, space: Space, q: Space)
    ensures Tally(Strip(s, space), q) <= Tally(StripLeft(s, space), q) <= Tally(s, q)
  {
    StripLeftTally(s, space, q);
    StripRightTally(StripLeft(s, space), space, q);
  }

  lemma {:induction false} TallyOfCons(p: string, parts: seq<string>, q: Space, n: nat)
    requires n <= |parts|
    ensures TallyOf([p] + parts, q, n + 1) == Tally(p, q) + TallyOf(parts, q, n)
    decreases n
  {
    if n > 0 {
      TallyOfCons(p, parts, q, n - 1);
    } else {
      assert TallyOf([p] + parts, q, 0) == 0;
    }
  }

  lemma {:induction false} TallyOfFront(parts: seq<string>, x: string, q: Space, n: nat)
    requires n <= |parts|
    ensures TallyOf(parts + [x], q, n) == TallyOf(parts, q, n)
    decreases n
  {
    if n > 0 {
      TallyOfFront(parts, x, q, n - 1);
    }
  }

  lemma TallyOfSnoc(parts: seq<string>, x: string, q: Space)
    ensures TallyOf(parts + [x], q, |parts| + 1) == TallyOf(parts, q, |parts|) + Tally(x, q)
  {
    TallyOfFront(parts, x, q, |parts|);
  }

  /** What splitting does to a tally, one cut at a time. */
  lemma SplitStepTally(s: string, ends: set<char>, space: Space, q: Space)
    ensures var p := FirstBreak(s, ends, space, 1);
            var parts := Split(s, ends, space);
            if p < |s| then
              var rest := StripLeft(s[p..], space);
              var tail := Split(rest, ends, space);
              && TallyOf(parts, q, |parts|) == Tally(s[..p], q) + TallyOf(tail, q, |tail|)
              && Tally(s, q) == Tally(s[..p], q) + Tally(s[p..], q)
              && Tally(rest, q) <= Tally(s[p..], q)
            else TallyOf(parts, q, |parts|) == Tally(s, q)
  {
    hide FirstBreak, StripLeft, Tally;
    var p := FirstBreak(s, ends, space, 1);
    if p < |s| {
      var rest := StripLeft(s[p..], space);
      var tail := Split(rest, ends, space);
      TallyOfCons(s[..p], tail, q, |tail|);
      assert s == s[..p] + s[p..];
      TallyAppend(s[..p], s[p..], q);
      StripLeftTally(s[p..], space, q);
    } else {
      assert TallyOf([s], q, 0) == 0;
    }
  }

  lemma {:induction false} SplitTally(s: string, ends: set<char>, space: Space, q: Space)
    ensures var parts := Split(s, ends, space); TallyOf(parts, q, |parts|) <= Tally(s, q)
    decreases |s|
  {
    hide FirstBreak, StripLeft, Tally, TallyOf;
    var p := FirstBreak(s, ends, space, 1);
    SplitStepTally(s, ends, space, q);
    if p < |s| {
      SplitTally(StripLeft(s[p..], space), ends, space, q);
    }
  }

  lemma CleanedNext(parts: seq<string>, space: Space, q: Space, n: nat)
    requires 0 < n <= |parts|
    ensures var c, d := Cleaned(parts, space, n - 1), Cleaned(parts, space, n);
            TallyOf(d, q, |d|) == TallyOf(c, q, |c|) + Tally(Strip(parts[n - 1], space), q)
  {
    hide Strip;
    var c, p := Cleaned(parts, space, n - 1), Strip(parts[n - 1], space);
    if p == "" {
      assert c + [] == c;
    } else {
      TallyOfSnoc(c, p, q);
    }
  }

  lemma {:induction false} CleanedTally(parts: seq<string>, space: Space, q: Space, n: nat)
    requires n <= |parts|
    ensures var c := Cleaned(parts, space, n); TallyOf(c, q, |c|) <= TallyOf(parts, q, n)
    decreases n
  {
    hide Strip, Tally;
    if n > 0 {
      CleanedTally(parts, space, q, n - 1);
      CleanedNext(parts, space, q, n);
      StripTally(parts[n - 1], space, q);
    }
  }

  lemma {:induction false} JoinTally(chunks: seq<string>, q: Space)
    requires !q(' ')
    ensures Tally(Join(chunks), q) == TallyOf(chunks, q, |chunks|)
    decreases |chunks|
  {
    hide Tally, Join;
    if chunks == [] {
      NothingTallied(q);
    } else {
      var front, x := chunks[..|chunks| - 1], chunks[|chunks| - 1];
      assert chunks == front + [x];
      JoinSnoc(front, x);
      JoinTally(front, q);
      TallyOfSnoc(front, x, q);
      if front != [] {
        TallyAppend(Join(front) + " ", x, q);
        TallyAppend(Join(front), " ", q);
        TallyOne(' ', q);
      }
    }
  }

  lemma NothingTallied(q: Space)
    ensures Tally(Join([]), q) == 0
  {
  }

  // ---- What is kept whole ----

  /** White space outside q never touches a tally of q. */
  lemma {:induction false} TallyOfInk(s: string, space: Space, q: Space)
    requires forall c :: q(c) ==> !space(c)
    ensures Tally(Ink(s, space), q) == Tally(s, q)
    decreases |s|
  {
    if s != "" {
      var rest := Ink(s[1..], space);
      TallyOfInk(s[1..], space, q);
      if space(s[0]) {
        assert "" + rest == rest;
      } else {
        assert ([s[0]] + rest)[1..] == rest;
      }
    }
  }

  /** The first program drops no character that only it counts as white space. */
  predicate KeepsOwn(text: string, ends: set<char>, a: Space, b: Space) {
    Tally(Join(Sentences(text, ends, a)), Only(a, b)) == Tally(text, Only(a, b))
  }

  /** A text whose sentences join to those of the other program loses nothing of the first program's own white
      space. */
  lemma SameJoinKeeps(text: string, ends: set<char>, others: set<char>, a: Space, b: Space)
    requires a(' ') && b(' ') && Sentences(text, others, b) != []
    requires Join(Sentences(text, ends, a)) == Join(Sentences(text, others, b))
    ensures KeepsOwn(text, ends, a, b)
  {
    hide Sentences, Join, Tally, Ink;
    var q := Only(a, b);
    SentencesInk(text, others, b);
    TallyOfInk(text, b, q);
    TallyOfInk(Join(Sentences(text, others, b)), b, q);
  }

  lemma SentencesInk(text: string, ends: set<char>, space: Space)
    requires space(' ') && Sentences(text, ends, space) != []
    ensures Ink(Join(Sentences(text, ends, space)), space) == Ink(text, space)
  {
    hide Sentences, Join, Ink;
    InkKept(text, ends, 0, space, s => |s|);
    ChunksJoin(text, ends, 0, space, s => |s|);
  }

  /** Nothing of the tally is dropped on the way from the text to its sentences. */
  predicate AllKept(text: string, ends: set<char>, a: Space, q: Space) {
    var s := Strip(text, a);
    var parts := Split(s, ends, a);
    && Tally(s, q) == Tally(StripLeft(text, a), q) == Tally(text, q)
    && TallyOf(parts, q, |parts|) == Tally(s, q)
    && (var c := Cleaned(parts, a, |parts|); TallyOf(c, q, |c|) == TallyOf(parts, q, |parts|))
  }

  lemma KeptThroughout(text: string, ends: set<char>, a: Space, b: Space)
    requires b(' ') && KeepsOwn(text, ends, a, b)
    ensures AllKept(text, ends, a, Only(a, b))
  {
    hide Strip, StripLeft, Split, Cleaned, Tally, TallyOf, Join;
    var q := Only(a, b);
    var s := Strip(text, a);
    var parts := Split(s, ends, a);
    StripTally(text, a, q);
    SplitTally(s, ends, a, q);
    CleanedTally(parts, a, q, |parts|);
    JoinTally(Sentences(text, ends, a), q);
  }

  // ---- Then both programs do the same ----

  lemma {:induction false} StripLeftSame(s: string, a: Space, b: Space)
    requires Tally(StripLeft(s, a), Only(a, b)) == Tally(s, Only(a, b))
    requires Tally(StripLeft(s, b), Only(b, a)) == Tally(s, Only(b, a))
    ensures StripLeft(s, a) == StripLeft(s, b)
    decreases |s|
  {
    if s != [] && (a(s[0]) || b(s[0])) {
      StripLeftTally(s[1..], a, Only(a, b));
      StripLeftTally(s[1..], b, Only(b, a));
      StripLeftSame(s[1..], a, b);
    }
  }

  lemma {:induction false} StripRightSame(s: string, a: Space, b: Space)
    requires Tally(StripRight(s, a), Only(a, b)) == Tally(s, Only(a, b))
    requires Tally(StripRight(s, b), Only(b, a)) == Tally(s, Only(b, a))
    ensures StripRight(s, a) == StripRight(s, b)
    decreases |s|
  {
    hide Tally;
    if s != [] && (a(s[|s| - 1]) || b(s[|s| - 1])) {
      var front, x := s[..|s| - 1], s[|s| - 1];
      assert s == front + [x];
      LastTally(front, x, Only(a, b));
      LastTally(front, x, Only(b, a));
      StripRightTally(front, a, Only(a, b));
      StripRightTally(front, b, Only(b, a));
      StripRightSame(front, a, b);
    }
  }

  lemma LastTally(front: string, x: char, q: Space)
    ensures Tally(front + [x], q) == Tally(front, q) + (if q(x) then 1 else 0)
  {
    TallyAppend(front, [x], q);
    TallyOne(x, q);
  }

  lemma StripSame(s: string, a: Space, b: Space)
    requires Tally(Strip(s, a), Only(a, b)) == Tally(s, Only(a, b))
    requires Tally(Strip(s, b), Only(b, a)) == Tally(s, Only(b, a))
    ensures Strip(s, a) == Strip(s, b)
  {
    hide StripLeft, StripRight, Tally;
    StripTally(s, a, Only(a, b));
    StripTally(s, b, Only(b, a));
    StripLeftSame(s, a, b);
    StripRightSame(StripLeft(s, a), a, b);
  }

  /** Before the first break there is none. */
  lemma {:induction false} NoEarlierBreak(s: string, ends: set<char>, space: Space, i: nat, j: nat)
    requires 1 <= i <= j < |s| && s[j - 1] in ends && space(s[j])
    ensures FirstBreak(s, ends, space, i) <= j
    decreases |s| - i
  {
    if i < j && !(s[i - 1] in ends && space(s[i])) {
      NoEarlierBreak(s, ends, space, i + 1, j);
    }
  }

  /** A break that drops no own white space is a break for the other program too. */
  lemma BreakShared(s: string, ends: set<char>, a: Space, b: Space)
    requires var p := FirstBreak(s, ends, a, 1);
             p < |s| ==> Tally(StripLeft(s[p..], a), Only(a, b)) == Tally(s[p..], Only(a, b))
    ensures var p := FirstBreak(s, ends, a, 1); p < |s| ==> FirstBreak(s, ends, b, 1) <= p
  {
    hide FirstBreak;
    var p := FirstBreak(s, ends, a, 1);
    if p < |s| {
      var u := s[p..];
      assert u[0] == s[p];
      StripLeftTally(u[1..], a, Only(a, b));
      assert b(s[p]);
      NoEarlierBreak(s, ends, b, 1, p);
    }
  }

  /** One cut keeps the whole tally: so do the white space it drops and everything after it. */
  lemma StepKept(s: string, ends: set<char>, a: Space, q: Space)
    requires var parts := Split(s, ends, a); TallyOf(parts, q, |parts|) == Tally(s, q)
    ensures var p := FirstBreak(s, ends, a, 1);
            p < |s| ==>
              var rest := StripLeft(s[p..], a);
              var tail := Split(rest, ends, a);
              Tally(rest, q) == Tally(s[p..], q) && TallyOf(tail, q, |tail|) == Tally(rest, q)
  {
    hide FirstBreak, StripLeft, Tally, TallyOf, Split;
    SplitStepTally(s, ends, a, q);
    var p := FirstBreak(s, ends, a, 1);
    if p < |s| {
      SplitTally(StripLeft(s[p..], a), ends, a, q);
    }
  }

  lemma {:induction false} SplitSame(s: string, ends: set<char>, a: Space, b: Space)
    requires var parts := Split(s, ends, a); TallyOf(parts, Only(a, b), |parts|) == Tally(s, Only(a, b))
    requires var parts := Split(s, ends, b); TallyOf(parts, Only(b, a), |parts|) == Tally(s, Only(b, a))
    ensures Split(s, ends, a) == Split(s, ends, b)
    decreases |s|
  {
    hide FirstBreak, StripLeft, Tally, TallyOf;
    StepKept(s, ends, a, Only(a, b));
    StepKept(s, ends, b, Only(b, a));
    BreakShared(s, ends, a, b);
    BreakShared(s, ends, b, a);
    var p := FirstBreak(s, ends, a, 1);
    if p < |s| {
      assert FirstBreak(s, ends, b, 1) == p;
      StripLeftSame(s[p..], a, b);
      SplitSame(StripLeft(s[p..], a), ends, a, b);
    }
  }

  lemma {:induction false} CleanedSame(parts: seq<string>, a: Space, b: Space, n: nat)
    requires n <= |parts|
    requires var c := Cleaned(parts, a, n); TallyOf(c, Only(a, b), |c|) == TallyOf(parts, Only(a, b), n)
    requires var c := Cleaned(parts, b, n); TallyOf(c, Only(b, a), |c|) == TallyOf(parts, Only(b, a), n)
    ensures Cleaned(parts, a, n) == Cleaned(parts, b, n)
    decreases n
  {
    hide Strip, Tally;
    if n > 0 {
      CleanedNext(parts, a, Only(a, b), n);
      CleanedNext(parts, b, Only(b, a), n);
      CleanedTally(parts, a, Only(a, b), n - 1);
      CleanedTally(parts, b, Only(b, a), n - 1);
      StripTally(parts[n - 1], a, Only(a, b));
      StripTally(parts[n - 1], b, Only(b, a));
      StripSame(parts[n - 1], a, b);
      CleanedSame(parts, a, b, n - 1);
    }
  }

  lemma KeptMeansSame(text: string, ends: set<char>, a: Space, b: Space)
    requires AllKept(text, ends, a, Only(a, b)) && AllKept(text, ends, b, Only(b, a))
    ensures Sentences(text, ends, a) == Sentences(text, ends, b)
  {
    hide Strip, StripLeft, Split, Cleaned, Tally, TallyOf;
    StripSame(text, a, b);
    var s := Strip(text, a);
    SplitSame(s, ends, a, b);
    var parts := Split(s, ends, a);
    CleanedSame(parts, a, b, |parts|);
  }

  // ---- Texts without any character of a kind ----

  lemma {:induction false} TallyZero(s: string, q: Space)
    ensures Tally(s, q) == 0 <==> forall k :: 0 <= k < |s| ==> !q(s[k])
    decreases |s|
  {
    if s != "" {
      TallyZero(s[1..], q);
      assert forall k :: 0 <= k < |s| - 1 ==> s[1..][k] == s[k + 1];
      assert forall k :: 0 < k < |s| ==> s[k] == s[1..][k - 1];
    }
  }

  lemma SentencesTally(text: string, ends: set<char>, space: Space, q: Space)
    ensures var c := Sentences(text, ends, space); TallyOf(c, q, |c|) <= Tally(text, q)
  {
    hide Strip, Split, Cleaned, Tally, TallyOf;
    var s := Strip(text, space);
    var parts := Split(s, ends, space);
    StripTally(text, space, q);
    SplitTally(s, ends, space, q);
    CleanedTally(parts, space, q, |parts|);
  }

  lemma {:induction false} TallyOfZero(parts: seq<string>, q: Space, n: nat, k: nat)
    requires k < n <= |parts| && TallyOf(parts, q, n) == 0
    ensures Tally(parts[k], q) == 0
    decreases n
  {
    if k < n - 1 {
      TallyOfZero(parts, q, n - 1, k);
    }
  }

  /** Sentences are free of any character that the text is free of. */
  lemma SentencesFree(text: string, ends: set<char>, space: Space, q: Space, k: nat)
    requires k < |Sentences(text, ends, space)| && forall i :: 0 <= i < |text| ==> !q(text[i])
    ensures forall i :: 0 <= i < |Sentences(text, ends, space)[k]| ==> !q(Sentences(text, ends, space)[k][i])
  {
    hide Sentences, Tally, TallyOf;
    var c := Sentences(text, ends, space);
    TallyZero(text, q);
    SentencesTally(text, ends, space, q);
    TallyOfZero(c, q, |c|, k);
    TallyZero(c[k], q);
  }

  lemma FreeKept(text: string, ends: set<char>, a: Space, q: Space)
    requires forall k :: 0 <= k < |text| ==> !q(text[k])
    ensures AllKept(text, ends, a, q)
  {
    hide Strip, StripLeft, Split, Cleaned, Tally, TallyOf;
    TallyZero(text, q);
    var s := Strip(text, a);
    var parts := Split(s, ends, a);
    StripTally(text, a, q);
    SplitTally(s, ends, a, q);
    CleanedTally(parts, a, q, |parts|);
  }

  predicate SameSpace(s: string, a: Space, b: Space) {
    forall k :: 0 <= k < |s| ==> a(s[k]) == b(s[k])
  }

  /** A text on whose characters both agree has the same sentences for both. */
  lemma SameSpaceSameSentences(text: string, ends: set<char>, a: Space, b: Space)
    requires SameSpace(text, a, b)
    ensures Sentences(text, ends, a) == Sentences(text, ends, b)
  {
    hide Sentences, AllKept;
    FreeKept(text, ends, a, Only(a, b));
    FreeKept(text, ends, b, Only(b, a));
    KeptMeansSame(text, ends, a, b);
  }
}
