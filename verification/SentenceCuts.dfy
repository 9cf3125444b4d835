// Cutting one text at fewer and at more characters: whenever both join to the same text, the sentences of the first
// are those of the second, some of them put together.
module SentenceCuts {
  import opened SentenceMerging
  import opened SentenceSpaces
  import opened SentenceSplit

  // ---- The shared cuts of two lists ----

  /** The first k pieces of j are some first elements of p. */
  predicate Shared(p: seq<string>, j: seq<string>, k: nat)
    requires k <= |j|
  {
    exists i :: 1 <= i < |p| && Join(p[..i]) == Join(j[..k])
  }

  /** Where both lists begin something new. */
  function Cuts(p: seq<string>, j: seq<string>): set<nat> { set k: nat | 1 <= k < |j| && Shared(p, j, k) }

  lemma {:induction false} CutKeepsPrefix(j: seq<string>, cuts: set<nat>, k: nat, n: nat)
    requires 1 <= k < n <= |j| && k in cuts
    ensures Glued(j, cuts, k) < Glued(j, cuts, n)
    decreases n
  {
    if k < n - 1 {
      CutKeepsPrefix(j, cuts, k, n - 1);
    }
  }

  lemma {:induction false} PrefixIsCut(j: seq<string>, cuts: set<nat>, n: nat, i: nat) returns (k: nat)
    requires n <= |j| && 1 <= i < |Glued(j, cuts, n)|
    ensures 1 <= k < n && k in cuts && Glued(j, cuts, n)[..i] == Glued(j, cuts, k)
    decreases n
  {
    var g := Glued(j, cuts, n - 1);
    if i < |g| {
      k := PrefixIsCut(j, cuts, n - 1, i);
    } else {
      k := n - 1;
    }
  }

  lemma JoinLonger(j: seq<string>, k: nat, n: nat)
    requires 1 <= k < n <= |j|
    ensures |Join(j[..k])| < |Join(j[..n])|
  {
    hide Join;
    assert j[..n] == j[..k] + j[k..n];
    JoinAppend(j[..k], j[k..n]);
  }

  /** The cuts of a list that is glued together can be read off it. */
  lemma CutsReadOff(j: seq<string>, cuts: set<nat>, k: nat)
    requires 1 <= k < |j|
    ensures Shared(Glued(j, cuts, |j|), j, k) <==> k in cuts
  {
    hide Join, Glued;
    var p := Glued(j, cuts, |j|);
    if k in cuts {
      CutKeepsPrefix(j, cuts, k, |j|);
      GluedJoins(j, cuts, k);
      var i := |Glued(j, cuts, k)|;
      assert p[..i] == Glued(j, cuts, k);
    }
    if i :| 1 <= i < |p| && Join(p[..i]) == Join(j[..k]) {
      var c := PrefixIsCut(j, cuts, |j|, i);
      GluedJoins(j, cuts, c);
      if c != k {
        JoinLonger(j, if c < k then c else k, if c < k then k else c);
      }
    }
  }

  lemma {:induction false} SameGlued(j: seq<string>, c: set<nat>, d: set<nat>, n: nat)
    requires n <= |j| && forall k :: 1 <= k < n ==> (k in c <==> k in d)
    ensures Glued(j, c, n) == Glued(j, d, n)
    decreases n
  {
    hide Extended;
    if n > 0 {
      SameGlued(j, c, d, n - 1);
    }
  }

  lemma GluedAtCuts(j: seq<string>, cuts: set<nat>)
    ensures var p := Glued(j, cuts, |j|); p == Glued(j, Cuts(p, j), |j|)
  {
    hide Glued, Shared;
    var p := Glued(j, cuts, |j|);
    forall k | 1 <= k < |j|
      ensures k in cuts <==> k in Cuts(p, j)
    {
      CutsReadOff(j, cuts, k);
    }
    SameGlued(j, cuts, Cuts(p, j), |j|);
  }

  /** A list shares every cut with itself. */
  lemma {:induction false} GluedEverywhere(j: seq<string>, cuts: set<nat>, n: nat)
    requires n <= |j| && forall k :: 1 <= k < n ==> k in cuts
    ensures Glued(j, cuts, n) == j[..n]
    decreases n
  {
    if n > 0 {
      GluedEverywhere(j, cuts, n - 1);
    }
  }

  lemma OwnCuts(j: seq<string>, k: nat)
    requires 1 <= k < |j|
    ensures k in Cuts(j, j)
  {
    hide Join;
    assert Join(j[..k]) == Join(j[..k]);
  }

  // ---- Lists that grow at the front ----

  function Shifted(cuts: set<nat>): set<nat> { set k | k in cuts :: k + 1 }

  lemma ShiftedHas(cuts: set<nat>, k: nat)
    ensures k + 1 in Shifted(cuts) <==> k in cuts
  {
  }

  lemma GluedStep(j: seq<string>, cuts: set<nat>, n: nat)
    requires n < |j|
    ensures var g := Glued(j, cuts, n);
            Glued(j, cuts, n + 1)
              == if n == 0 then [j[0]] else if n in cuts then g + [j[n]] else Extended(g, j[n])
  {
    hide Extended;
  }

  lemma {:induction false} GluedCons(h: string, j: seq<string>, cuts: set<nat>, n: nat)
    requires n <= |j|
    ensures Glued([h] + j, {1} + Shifted(cuts), n + 1) == [h] + Glued(j, cuts, n)
    decreases n
  {
    hide Glued, Extended, Shifted;
    var c, l := {1} + Shifted(cuts), [h] + j;
    GluedStep(l, c, n);
    if n > 0 {
      assert l[n] == j[n - 1];
      GluedStep(j, cuts, n - 1);
      GluedCons(h, j, cuts, n - 1);
      ShiftedHas(cuts, n - 1);
      ConsStep(h, Glued(j, cuts, n - 1), j[n - 1]);
    } else {
      NothingGlued(j, cuts);
    }
  }

  lemma NothingGlued(j: seq<string>, cuts: set<nat>)
    ensures Glued(j, cuts, 0) == []
  {
  }

  lemma ConsStep(h: string, g: seq<string>, x: string)
    ensures ([h] + g) + [x] == [h] + (g + [x])
    ensures g != [] ==> Extended([h] + g, x) == [h] + Extended(g, x)
  {
  }

  /** The first element goes on after a. */
  function Prefixed(a: string, p: seq<string>): seq<string>
    requires p != []
  {
    [a + p[0]] + p[1..]
  }

  lemma {:induction false} GluedOnto(h: string, j: seq<string>, cuts: set<nat>, n: nat)
    requires 1 <= n <= |j|
    ensures Glued([h] + j, Shifted(cuts) - {1}, n + 1) == Prefixed(h + " ", Glued(j, cuts, n))
    decreases n
  {
    hide Glued, Extended, Shifted, Prefixed;
    var c, l := Shifted(cuts) - {1}, [h] + j;
    GluedStep(l, c, n);
    GluedStep(j, cuts, n - 1);
    assert l[n] == j[n - 1];
    if n == 1 {
      GluedStep(l, c, 0);
      OnePrefixed(h, j[0]);
    } else {
      GluedOnto(h, j, cuts, n - 1);
      ShiftedHas(cuts, n - 1);
      PrefixedStep(h + " ", Glued(j, cuts, n - 1), j[n - 1]);
    }
  }

  lemma OnePrefixed(h: string, x: string)
    ensures Extended([h], x) == Prefixed(h + " ", [x])
  {
  }

  lemma PrefixedStep(a: string, g: seq<string>, x: string)
    requires g != []
    ensures Prefixed(a, g) + [x] == Prefixed(a, g + [x])
    ensures Extended(Prefixed(a, g), x) == Prefixed(a, Extended(g, x))
  {
    if |g| == 1 {
      assert a + g[0] + " " + x == a + (g[0] + " " + x);
    }
  }

  lemma JoinPrefixed(a: string, p: seq<string>)
    requires p != []
    ensures Join(Prefixed(a, p)) == a + Join(p)
  {
    hide Join;
    var t := p[1..];
    assert p == [p[0]] + t;
    JoinOne(p[0]);
    JoinOne(a + p[0]);
    if t != [] {
      JoinCons(p[0], t);
      JoinCons(a + p[0], t);
      assert a + p[0] + " " + Join(t) == a + (p[0] + " " + Join(t));
    } else {
      assert Prefixed(a, p) == [a + p[0]] && p == [p[0]];
    }
  }

  // ---- A text without white space at its ends ----

  predicate Trimmed(s: string, space: Space) { s != "" && !space(s[0]) && !space(s[|s| - 1]) }

  lemma TrimmedStays(s: string, space: Space)
    requires Trimmed(s, space)
    ensures Strip(s, space) == s
  {
  }

  lemma {:induction false} StripTrims(s: string, space: Space)
    ensures Strip(s, space) == "" || Trimmed(Strip(s, space), space)
    decreases |s|
  {
    StripLeftInked(s, space);
    StripRightInked(StripLeft(s, space), space);
  }

  lemma {:induction false} StripLeftInked(s: string, space: Space)
    ensures var r := StripLeft(s, space);
            && (r != "" ==> !space(r[0]) && r[|r| - 1] == s[|s| - 1])
            && |r| <= |s| && r == s[|s| - |r|..] && forall k :: 0 <= k < |s| - |r| ==> space(s[k])
    decreases |s|
  {
    if s != [] && space(s[0]) {
      StripLeftInked(s[1..], space);
    }
  }

  lemma {:induction false} StripRightInked(s: string, space: Space)
    ensures var r := StripRight(s, space);
            && (r != "" ==> !space(r[|r| - 1]) && r[0] == s[0])
            && (s != "" && !space(s[0]) ==> r != "")
    decreases |s|
  {
    if s != [] && space(s[|s| - 1]) {
      StripRightInked(s[..|s| - 1], space);
    }
  }

  /** White space at the end goes, up to the last character that is none. */
  lemma {:induction false} StripRightUpTo(s: string, w: string, space: Space)
    requires s != "" && !space(s[|s| - 1]) && forall k :: 0 <= k < |w| ==> space(w[k])
    ensures StripRight(s + w, space) == s
    decreases |w|
  {
    if w == "" {
      assert s + w == s;
    } else {
      assert (s + w)[..|s + w| - 1] == s + w[..|w| - 1];
      StripRightUpTo(s, w[..|w| - 1], space);
    }
  }

  lemma {:induction false} StripLeftUpTo(w: string, s: string, space: Space)
    requires s != "" && !space(s[0]) && forall k :: 0 <= k < |w| ==> space(w[k])
    ensures StripLeft(w + s, space) == s
    decreases |w|
  {
    if w == "" {
      assert w + s == s;
    } else {
      assert (w + s)[1..] == w[1..] + s;
      StripLeftUpTo(w[1..], s, space);
    }
  }

  lemma {:induction false} StripRightAfter(a: string, x: string, space: Space)
    requires x != "" && !space(x[0])
    ensures StripRight(a + x, space) == a + StripRight(x, space)
    decreases |x|
  {
    if space(x[|x| - 1]) {
      assert (a + x)[..|a + x| - 1] == a + x[..|x| - 1];
      StripRightAfter(a, x[..|x| - 1], space);
    }
  }

  /** The sentences of a text that is stripped already. */
  function Pieces(s: string, ends: set<char>, space: Space): seq<string> {
    var parts := Split(s, ends, space);
    Cleaned(parts, space, |parts|)
  }

  lemma {:induction false} CleanedCons(x: string, parts: seq<string>, space: Space, n: nat)
    requires n <= |parts|
    ensures Cleaned([x] + parts, space, n + 1)
         == (if Strip(x, space) == "" then [] else [Strip(x, space)]) + Cleaned(parts, space, n)
    decreases n
  {
    hide Strip, Cleaned;
    CleanedStep([x] + parts, space, n);
    if n > 0 {
      assert ([x] + parts)[n] == parts[n - 1];
      CleanedStep(parts, space, n - 1);
      CleanedCons(x, parts, space, n - 1);
    } else {
      NothingCleaned([x] + parts, space);
      NothingCleaned(parts, space);
    }
  }

  lemma CleanedStep(parts: seq<string>, space: Space, n: nat)
    requires n < |parts|
    ensures var p := Strip(parts[n], space);
            Cleaned(parts, space, n + 1) == Cleaned(parts, space, n) + (if p == "" then [] else [p])
  {
  }

  lemma NothingCleaned(parts: seq<string>, space: Space)
    ensures Cleaned(parts, space, 0) == []
  {
  }

  lemma LastPiece(s: string, ends: set<char>, space: Space)
    requires Trimmed(s, space) && FirstBreak(s, ends, space, 1) >= |s|
    ensures Pieces(s, ends, space) == [s]
  {
    hide Strip, FirstBreak;
    TrimmedStays(s, space);
    assert Cleaned([s], space, 0) == [];
  }

  lemma FirstOfPieces(s: string, ends: set<char>, space: Space)
    requires Trimmed(s, space) && FirstBreak(s, ends, space, 1) < |s|
    ensures var p := FirstBreak(s, ends, space, 1);
            var rest := StripLeft(s[p..], space);
            && Trimmed(rest, space) && |rest| < |s|
            && Pieces(s, ends, space) == [StripRight(s[..p], space)] + Pieces(rest, ends, space)
  {
    hide FirstBreak, StripRight, StripLeft, Cleaned;
    var p := FirstBreak(s, ends, space, 1);
    var rest := StripLeft(s[p..], space);
    StripLeftInked(s[p..], space);
    StripRightInked(s[..p], space);
    InkedStart(s[..p], space);
    var tail := Split(rest, ends, space);
    CleanedCons(s[..p], tail, space, |tail|);
    RestNonempty(s[p..], space);
  }

  lemma InkedStart(s: string, space: Space)
    requires s != "" && !space(s[0])
    ensures StripLeft(s, space) == s
  {
  }

  lemma RestNonempty(s: string, space: Space)
    requires s != "" && !space(s[|s| - 1])
    ensures StripLeft(s, space) != ""
  {
    StripLeftInked(s, space);
  }

  // ---- Breaks ----

  predicate BreakAt(s: string, ends: set<char>, space: Space, i: nat)
    requires 1 <= i < |s|
  {
    s[i - 1] in ends && space(s[i])
  }

  /** Skipping positions that are no breaks. */
  lemma {:induction false} SkipBreaks(s: string, ends: set<char>, space: Space, i: nat, k: nat)
    requires 1 <= i <= k <= |s| && forall l :: i <= l < k ==> !BreakAt(s, ends, space, l)
    ensures FirstBreak(s, ends, space, i) == FirstBreak(s, ends, space, k)
    decreases k - i
  {
    if i < k {
      assert !BreakAt(s, ends, space, i);
      SkipBreaks(s, ends, space, i + 1, k);
    }
  }

  lemma {:induction false} ShiftedBreak(a: string, r: string, ends: set<char>, space: Space, i: nat)
    requires 1 <= i
    ensures FirstBreak(a + r, ends, space, |a| + i) == |a| + FirstBreak(r, ends, space, i)
    decreases |r| - i
  {
    if i < |r| {
      assert (a + r)[|a| + i] == r[i] && (a + r)[|a| + i - 1] == r[i - 1];
      ShiftedBreak(a, r, ends, space, i + 1);
    }
  }

  /** With fewer split characters the first break is the same or a later one. */
  lemma LaterBreak(s: string, few: set<char>, many: set<char>, space: Space)
    requires few <= many
    ensures var p, e := FirstBreak(s, many, space, 1), FirstBreak(s, few, space, 1);
            && (e < |s| ==> p <= e)
            && (p < |s| && s[p - 1] in few ==> e == p)
  {
    hide FirstBreak;
    var p, e := FirstBreak(s, many, space, 1), FirstBreak(s, few, space, 1);
    if e < |s| {
      NoEarlierBreak(s, many, space, 1, e);
    }
    if p < |s| && s[p - 1] in few {
      NoEarlierBreak(s, few, space, 1, p);
    }
  }

  /** No break inside a or at its end: the first piece goes on into r. */
  lemma GoesOnInto(a: string, r: string, ends: set<char>, space: Space)
    requires Trimmed(a + r, space) && Trimmed(r, space) && FirstBreak(a + r, ends, space, 1) > |a|
    ensures Pieces(r, ends, space) != [] && Pieces(a + r, ends, space) == Prefixed(a, Pieces(r, ends, space))
  {
    hide FirstBreak, Pieces, StripRight, StripLeft;
    var s := a + r;
    forall i | 1 <= i < |a| + 1
      ensures !BreakAt(s, ends, space, i)
    {
      if BreakAt(s, ends, space, i) {
        NoEarlierBreak(s, ends, space, 1, i);
      }
    }
    SkipBreaks(s, ends, space, 1, |a| + 1);
    ShiftedBreak(a, r, ends, space, 1);
    var f := FirstBreak(r, ends, space, 1);
    if f >= |r| {
      LastPiece(s, ends, space);
      LastPiece(r, ends, space);
    } else {
      FirstOfPieces(s, ends, space);
      FirstOfPieces(r, ends, space);
      assert s[|a| + f..] == r[f..] && s[..|a| + f] == a + r[..f];
      StripRightAfter(a, r[..f], space);
    }
  }

  /** A break inside the white space w after h: the same first piece, and the same rest. */
  lemma BreakInSpace(h: string, w: string, r: string, ends: set<char>, space: Space)
    requires Trimmed(h + w + r, space) && h != "" && !space(h[|h| - 1]) && Trimmed(r, space)
    requires forall k :: 0 <= k < |w| ==> space(w[k])
    requires |h| < FirstBreak(h + w + r, ends, space, 1) < |h + w|
    ensures Pieces(h + w + r, ends, space) == [h] + Pieces(r, ends, space)
  {
    hide FirstBreak, Pieces, StripRight, StripLeft;
    var s := h + w + r;
    var e := FirstBreak(s, ends, space, 1);
    var i := e - |h|;
    FirstOfPieces(s, ends, space);
    assert s[..e] == h + w[..i] && s[e..] == w[i..] + r;
    StripRightUpTo(h, w[..i], space);
    StripLeftUpTo(w[i..], r, space);
  }

  // ---- Fewer split characters, coarser sentences ----

  /** The pieces pe are no shorter than pj and lose no more of q; when both join to the same text, pe is pj with some
      pieces put together. */
  ghost predicate Coarser(pe: seq<string>, pj: seq<string>, q: Space) {
    && pe != [] && pj != []
    && |Join(pj)| <= |Join(pe)|
    && (!q(' ') ==> Tally(Join(pj), q) <= Tally(Join(pe), q))
    && (Join(pe) == Join(pj) ==> exists cuts: set<nat> :: pe == Glued(pj, cuts, |pj|))
  }

  lemma SameIsCoarser(p: seq<string>, q: Space)
    requires p != []
    ensures Coarser(p, p, q)
  {
    hide Join, Tally, Glued, Cuts;
    var cuts := Cuts(p, p);
    forall k | 1 <= k < |p|
      ensures k in cuts
    {
      OwnCuts(p, k);
    }
    GluedEverywhere(p, cuts, |p|);
    assert p[..|p|] == p;
  }

  lemma CoarserCons(h: string, pe: seq<string>, pj: seq<string>, q: Space)
    requires Coarser(pe, pj, q)
    ensures Coarser([h] + pe, [h] + pj, q)
  {
    hide Join, Tally, Glued;
    JoinCons(h, pe);
    JoinCons(h, pj);
    TallyAppend(h + " ", Join(pe), q);
    TallyAppend(h + " ", Join(pj), q);
    if Join([h] + pe) == Join([h] + pj) {
      SameTail(h + " ", Join(pe), Join(pj));
      var cuts: set<nat> :| pe == Glued(pj, cuts, |pj|);
      GluedCons(h, pj, cuts, |pj|);
    }
  }

  lemma CoarserOnto(h: string, w: string, pe: seq<string>, pj: seq<string>, q: Space)
    requires Coarser(pe, pj, q) && w != ""
    ensures Coarser(Prefixed(h + w, pe), [h] + pj, q)
  {
    hide Join, Tally, Glued, Prefixed;
    JoinCons(h, pj);
    JoinPrefixed(h + w, pe);
    TallyAppend(h + w, Join(pe), q);
    TallyAppend(h + " ", Join(pj), q);
    TallyAppend(h, w, q);
    TallyAppend(h, " ", q);
    TallyOne(' ', q);
    PrefixedNonempty(h + w, pe);
    if h + w + Join(pe) == h + " " + Join(pj) {
      assert |w| == 1;
      assert (h + w + Join(pe))[|h|] == w[0] && (h + " " + Join(pj))[|h|] == ' ';
      assert w == " ";
      SameTail(h + " ", Join(pe), Join(pj));
      var cuts: set<nat> :| pe == Glued(pj, cuts, |pj|);
      GluedOnto(h, pj, cuts, |pj|);
    }
  }

  lemma PrefixedNonempty(a: string, p: seq<string>)
    requires p != []
    ensures Prefixed(a, p) != []
  {
  }

  /** Split characters left out are no white space. */
  predicate Fewer(few: set<char>, many: set<char>, space: Space) {
    few <= many && forall c :: c in many && c !in few ==> !space(c)
  }

  /** White space from p on, and the rest. */
  lemma SpaceRun(s: string, p: nat, space: Space) returns (w: string)
    requires Trimmed(s, space) && p < |s| && space(s[p])
    ensures var rest := StripLeft(s[p..], space);
            && w != "" && (forall k :: 0 <= k < |w| ==> space(w[k]))
            && s == s[..p] + w + rest && Trimmed(rest, space)
  {
    hide StripLeft;
    var t, rest := s[p..], StripLeft(s[p..], space);
    StripLeftInked(t, space);
    RestNonempty(t, space);
    w := t[..|t| - |rest|];
    assert t == w + rest;
    assert s[..p] + w + rest == s[..p] + t == s;
  }

  /** The rest after a break that only many split characters see. */
  lemma AfterExtraBreak(s: string, few: set<char>, many: set<char>, space: Space) returns (w: string)
    requires Trimmed(s, space) && Fewer(few, many, space)
    requires var p := FirstBreak(s, many, space, 1); p < |s| && s[p - 1] !in few
    ensures var p := FirstBreak(s, many, space, 1);
            var rest := StripLeft(s[p..], space);
            && w != "" && StripRight(s[..p], space) == s[..p] && Pieces(rest, few, space) != []
            && (|| Pieces(s, few, space) == [s[..p]] + Pieces(rest, few, space)
                || Pieces(s, few, space) == Prefixed(s[..p] + w, Pieces(rest, few, space)))
  {
    hide FirstBreak, Pieces, StripRight, StripLeft, Prefixed;
    var p, e := FirstBreak(s, many, space, 1), FirstBreak(s, few, space, 1);
    var h, rest := s[..p], StripLeft(s[p..], space);
    assert BreakAt(s, many, space, p);
    w := SpaceRun(s, p, space);
    StripRightUpTo(h, "", space);
    assert h + "" == h;
    PiecesNonempty(rest, few, space);
    LaterBreak(s, few, many, space);
    if e > |h + w| {
      GoesOnInto(h + w, rest, few, space);
    } else {
      NotAtInk(h + w, rest, few, space);
      BreakInSpace(h, w, rest, few, space);
    }
  }

  lemma NotAtInk(a: string, r: string, ends: set<char>, space: Space)
    requires r != "" && !space(r[0])
    ensures FirstBreak(a + r, ends, space, 1) != |a|
  {
    hide FirstBreak;
    assert (a + r)[|a|] == r[0];
  }

  lemma PiecesNonempty(s: string, ends: set<char>, space: Space)
    requires Trimmed(s, space)
    ensures Pieces(s, ends, space) != []
  {
    hide FirstBreak, Pieces, StripRight, StripLeft;
    if FirstBreak(s, ends, space, 1) < |s| {
      FirstOfPieces(s, ends, space);
    } else {
      LastPiece(s, ends, space);
    }
  }

  lemma {:induction false} FewerCoarser(s: string, few: set<char>, many: set<char>, space: Space, q: Space)
    requires Trimmed(s, space) && Fewer(few, many, space)
    ensures Coarser(Pieces(s, few, space), Pieces(s, many, space), q)
    decreases |s|
  {
    hide FirstBreak, Pieces, StripRight, StripLeft, Coarser, Prefixed;
    var p := FirstBreak(s, many, space, 1);
    LaterBreak(s, few, many, space);
    if p >= |s| {
      LastPiece(s, few, space);
      LastPiece(s, many, space);
      SameIsCoarser([s], q);
    } else {
      var h, rest := StripRight(s[..p], space), StripLeft(s[p..], space);
      FirstOfPieces(s, many, space);
      FewerCoarser(rest, few, many, space, q);
      var pe, pj := Pieces(rest, few, space), Pieces(rest, many, space);
      CoarserCons(h, pe, pj, q);
      if s[p - 1] in few {
        FirstOfPieces(s, few, space);
      } else {
        var w := AfterExtraBreak(s, few, many, space);
        CoarserOnto(h, w, pe, pj, q);
      }
    }
  }

  /** A text whose characters are split characters alike has the same sentences. */
  predicate SameEnds(s: string, few: set<char>, many: set<char>) {
    forall k :: 0 <= k < |s| ==> (s[k] in few <==> s[k] in many)
  }

  lemma {:induction false} SameEndsSameBreak(s: string, few: set<char>, many: set<char>, space: Space, i: nat)
    requires SameEnds(s, few, many) && 1 <= i
    ensures FirstBreak(s, few, space, i) == FirstBreak(s, many, space, i)
    decreases |s| - i
  {
    if i < |s| {
      SameEndsSameBreak(s, few, many, space, i + 1);
    }
  }

  lemma {:induction false} SameEndsSameSplit(s: string, few: set<char>, many: set<char>, space: Space)
    requires SameEnds(s, few, many)
    ensures Split(s, few, space) == Split(s, many, space)
    decreases |s|
  {
    hide FirstBreak, StripLeft;
    var p := FirstBreak(s, few, space, 1);
    SameEndsSameBreak(s, few, many, space, 1);
    if p < |s| {
      StripLeftInked(s[p..], space);
      SameEndsSameSplit(StripLeft(s[p..], space), few, many, space);
    }
  }

  lemma SameEndsSameSentences(text: string, few: set<char>, many: set<char>, space: Space)
    requires SameEnds(text, few, many)
    ensures Sentences(text, few, space) == Sentences(text, many, space)
  {
    hide StripLeft, StripRight, Split, Cleaned;
    StripLeftInked(text, space);
    SameEndsSameSplit(Strip(text, space), few, many, space);
  }

  lemma BlankNoSentences(text: string, ends: set<char>, space: Space)
    ensures Sentences(text, ends, space) == [] <==> Strip(text, space) == ""
  {
    hide Split, Strip, Cleaned, Pieces;
    var s := Strip(text, space);
    if s == "" {
      EmptyPieces(ends, space);
    } else {
      StripTrims(text, space);
      PiecesNonempty(s, ends, space);
      SentencesArePieces(text, ends, space);
    }
  }

  lemma EmptyPieces(ends: set<char>, space: Space)
    ensures var parts := Split("", ends, space); Cleaned(parts, space, |parts|) == []
  {
    assert Split("", ends, space) == [""];
    assert Cleaned([""], space, 0) == [];
  }

  lemma SentencesArePieces(text: string, ends: set<char>, space: Space)
    ensures Sentences(text, ends, space) == Pieces(Strip(text, space), ends, space)
  {
  }

  /** A text blank under one idea of white space that has no split character is at most one sentence under the
      other. */
  lemma BlankIsOneSentence(text: string, ends: set<char>, blank: Space, space: Space)
    requires Strip(text, blank) == "" && Inked(ends, blank)
    ensures Sentences(text, ends, space) == if Strip(text, space) == "" then [] else [Strip(text, space)]
  {
    hide StripLeft, StripRight, Pieces, FirstBreak, Sentences;
    StripLeftInked(text, blank);
    StripRightInked(StripLeft(text, blank), blank);
    assert forall k :: 0 <= k < |text| ==> blank(text[k]);
    BlankNoSentences(text, ends, space);
    var s := Strip(text, space);
    if s != "" {
      StripLeftInked(text, space);
      StripTrims(text, space);
      SentencesArePieces(text, ends, space);
      var d := |text| - |StripLeft(text, space)|;
      assert forall k :: 0 <= k < |s| ==> s[k] == text[d + k];
      assert forall k :: 0 <= k < |s| ==> s[k] !in ends;
      LastPiece(s, ends, space);
    }
  }

  lemma StrippedIsSame(s: string, space: Space)
    requires Strip(s, space) != ""
    ensures Strip(s, space) == s <==> Trimmed(s, space)
  {
    hide StripLeft, StripRight;
    StripTrims(s, space);
    if Trimmed(s, space) {
      TrimmedStays(s, space);
    }
  }

  // ---- Two programs ----

  /** Sentences that join to the same text: what counts as white space made no difference, and with fewer split
      characters the sentences are the others with some of them put together. */
  lemma SameJoinSameSentences(text: string, few: set<char>, many: set<char>, a: Space, b: Space)
    requires a(' ') && b(' ') && Fewer(few, many, b)
    requires Sentences(text, few, a) != [] && Sentences(text, many, b) != []
    requires Join(Sentences(text, few, a)) == Join(Sentences(text, many, b))
    ensures var p, j := Sentences(text, few, a), Sentences(text, many, b);
            p == Sentences(text, few, b) == Glued(j, Cuts(p, j), |j|)
  {
    hide Sentences, Join, KeepsOwn, AllKept, Coarser, Glued, Cuts, Pieces, Strip;
    var q := Only(b, a);
    var p, j := Sentences(text, few, a), Sentences(text, many, b);
    SameJoinKeeps(text, few, many, a, b);
    SameJoinKeeps(text, many, few, b, a);
    var s := Strip(text, b);
    BlankNoSentences(text, many, b);
    StripTrims(text, b);
    FewerCoarser(s, few, many, b, q);
    SentencesArePieces(text, few, b);
    SentencesArePieces(text, many, b);
    CoarserKeeps(text, few, many, b, a);
    KeptThroughout(text, few, a, b);
    KeptThroughout(text, few, b, a);
    KeptMeansSame(text, few, a, b);
    CoarserCuts(p, j, q);
  }

  lemma CoarserKeeps(text: string, few: set<char>, many: set<char>, b: Space, a: Space)
    requires a(' ') && KeepsOwn(text, many, b, a)
    requires Coarser(Sentences(text, few, b), Sentences(text, many, b), Only(b, a))
    ensures KeepsOwn(text, few, b, a)
  {
    hide Sentences, Join, Tally, TallyOf, Glued;
    SentencesTally(text, few, b, Only(b, a));
    JoinTally(Sentences(text, few, b), Only(b, a));
  }

  lemma CoarserCuts(p: seq<string>, j: seq<string>, q: Space)
    requires Coarser(p, j, q) && Join(p) == Join(j)
    ensures p == Glued(j, Cuts(p, j), |j|)
  {
    hide Join, Tally, Glued, Cuts;
    var cuts: set<nat> :| p == Glued(j, cuts, |j|);
    GluedAtCuts(j, cuts);
  }
}
