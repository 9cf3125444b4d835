// The Python splitter (gpu-worker/handler.py) and its JavaScript mirror (browser/js/voice-play.js): they differ in
// what counts as white space, in how long a string is, in what a wide split character stands for, in what a minimum of
// zero means and in what they do without split characters.
module SentencePrograms {
  import opened SentenceCuts
  import opened SentenceMerging
  import opened SentenceSpaces
  import opened SentenceSplit
  import opened Wrappers

  const DEFAULT_MIN: int := 80
  const DEFAULT_ENDS: set<char> := {'.', '!', '?'}

  // ---- White space ----

  predicate CommonSpace(c: char) {
    var u := c as int;
    || 0x09 <= u <= 0x0D || u == 0x20 || u == 0xA0 || u == 0x1680 || 0x2000 <= u <= 0x200A
    || u == 0x2028 || u == 0x2029 || u == 0x202F || u == 0x205F || u == 0x3000
  }

  /** Of strip and of the class \\s in Python. */
  predicate PySpace(c: char) { CommonSpace(c) || 0x1C <= c as int <= 0x1F || c as int == 0x85 }

  /** Of trim and of the class \\s in JavaScript. */
  predicate JsSpace(c: char) { CommonSpace(c) || c as int == 0xFEFF }

  // ---- Split characters ----

  /** The UTF-16 code units of a character. */
  function Units(c: char): (u: seq<int>)
    ensures |u| > 0
  {
    var i := c as int - 0x10000;
    if i < 0 then [c as int] else [0xD800 + i / 0x400, 0xDC00 + i % 0x400]
  }

  function LastUnit(c: char): int { Units(c)[|Units(c)| - 1] }

  /** Without the u flag a class in a JavaScript expression consists of code units. */
  function JsClass(ends: set<char>): set<int> { set c, k | c in ends && 0 <= k < |Units(c)| :: Units(c)[k] }

  /** The characters after which JavaScript cuts: those whose last unit, which precedes the white space, is in the
      class. */
  function JsEnds(ends: set<char>): set<char> { set c: char | LastUnit(c) in JsClass(ends) }

  /** Python cuts after the split characters; in JavaScript a wide one stands for every character with the same last
      ten bits. */
  lemma JsEndsExactly(ends: set<char>, c: char)
    ensures c in JsEnds(ends)
       <==> c in ends || (Wide()(c) && exists d :: d in ends && Wide()(d) && c as int % 0x400 == d as int % 0x400)
  {
    if c in ends {
      var l := |Units(c)| - 1;
      assert Units(c)[l] in JsClass(ends);
    }
    if d :| d in ends && Wide()(c) && Wide()(d) && c as int % 0x400 == d as int % 0x400 {
      assert Units(d)[1] in JsClass(ends);
    }
  }

  lemma JsEndsFewer(ends: set<char>)
    ensures Fewer(ends, JsEnds(ends), JsSpace)
  {
    hide JsEnds;
    forall c: char
      ensures c in ends ==> c in JsEnds(ends)
      ensures c in JsEnds(ends) && c !in ends ==> !JsSpace(c)
    {
      JsEndsExactly(ends, c);
    }
  }

  // ---- The two programs ----

  /** None: without split characters the regular expression is an error. */
  function PyChunks(text: string, ends: set<char>, minChars: int): Option<seq<string>> {
    if ends == {} then None else Some(Chunks(text, ends, minChars, PySpace, PyLength))
  }

  /** Zero counts as not given. */
  function JsMin(minChars: int): int { if minChars == 0 then DEFAULT_MIN else minChars }

  /** No split characters count as not given. */
  function JsChunks(text: string, ends: set<char>, minChars: int): seq<string> {
    Chunks(text, JsEnds(if ends == {} then DEFAULT_ENDS else ends), JsMin(minChars), JsSpace, JsLength)
  }

  /** In both programs every chunk reaches the minimum whenever there is more than one. */
  lemma ProgramsReach(text: string, ends: set<char>, minChars: int)
    requires minChars > 0
    ensures PyChunks(text, ends, minChars).Some? ==>
              var c := PyChunks(text, ends, minChars).value; |c| > 1 ==> AllReach(c, |c|, minChars, PyLength)
    ensures var c := JsChunks(text, ends, minChars); |c| > 1 ==> AllReach(c, |c|, minChars, JsLength)
  {
    hide Chunks, AllReach;
    LengthsMonotone();
    ChunksReach(text, ends, minChars, PySpace, PyLength);
    ChunksReach(text, JsEnds(if ends == {} then DEFAULT_ENDS else ends), minChars, JsSpace, JsLength);
  }

  // ---- Exactly when they agree ----

  predicate Unmergeable(sentences: seq<string>, min: int, length: Length) {
    |sentences| <= 1 || min <= 0 || forall k :: 0 <= k < |sentences| ==> length(sentences[k]) >= min
  }

  lemma {:induction false} NothingMerged(sentences: seq<string>, min: int, length: Length)
    requires Unmergeable(sentences, min, length)
    ensures Merged(sentences, min, length) == sentences
    decreases |sentences|
  {
    if sentences != [] {
      var front := sentences[..|sentences| - 1];
      NothingMerged(front, min, length);
      assert front != [] && min > 0 ==> length(Last(front)) >= min;
      assert front + [Last(sentences)] == sentences;
    }
  }

  lemma NothingFinished(sentences: seq<string>, min: int, length: Length)
    requires Unmergeable(sentences, min, length)
    ensures Finish(sentences, min, length) == sentences
  {
  }

  lemma Untouched(sentences: seq<string>, min: int, length: Length)
    requires Unmergeable(sentences, min, length)
    ensures Result(sentences, min, length) == sentences
  {
    hide Merged, Finish;
    NothingMerged(sentences, min, length);
    NothingFinished(sentences, min, length);
  }

  /** Chunks that are the sentences themselves reach the minimum. */
  lemma ResultReaches(sentences: seq<string>, min: int, length: Length)
    requires min > 0 && Monotone(length) && sentences != [] && Result(sentences, min, length) == sentences
    ensures Unmergeable(sentences, min, length)
  {
    hide Merged;
    MergedReach(sentences, min, length);
    MergedJoins(sentences, min, length);
    var m := Merged(sentences, min, length);
    var n := |m|;
    if n > 1 && length(m[n - 1]) < min {
      assert length(m[n - 2]) <= length(m[n - 2] + (" " + m[n - 1]));
      assert m[n - 2] + (" " + m[n - 1]) == m[n - 2] + " " + m[n - 1];
    }
  }

  lemma ChunksAre(text: string, ends: set<char>, min: int, space: Space, length: Length)
    ensures var s := Sentences(text, ends, space);
            Chunks(text, ends, min, space, length) == if s == [] then [text] else Result(s, min, length)
  {
  }

  lemma ResultJoins(s: seq<string>, min: int, length: Length)
    ensures Join(Result(s, min, length)) == Join(s)
  {
    hide Merged, Finish, Join;
    MergedJoins(s, min, length);
    FinishJoins(Merged(s, min, length), min, length);
  }

  /** The sentences give back the text and end as one chunk. */
  predicate Whole(text: string, s: seq<string>, min: int, length: Length) {
    Join(s) == text && OneChunk(s, min, length)
  }

  /** The texts on which both programs return the same list, in terms of the sentences each of them finds. */
  predicate TextAgrees(text: string, ends: set<char>, minChars: int) {
    var p, j := Sentences(text, ends, PySpace), Sentences(text, JsEnds(ends), JsSpace);
    if p == [] then j == [] || Whole(text, j, JsMin(minChars), JsLength) // blank for Python: it returns the text
    else if j == [] then Whole(text, p, minChars, PyLength) // blank for JavaScript
    else Join(p) == Join(j) && AgreeOn(j, Cuts(p, j), minChars, JsMin(minChars))
  }

  lemma WholeExactly(text: string, s: seq<string>, min: int, length: Length)
    requires s != [] && Additive(length)
    ensures Result(s, min, length) == [text] <==> Whole(text, s, min, length)
  {
    hide Result, Join, OneChunk;
    OneChunkExactly(s, min, length);
    ResultJoins(s, min, length);
    JoinOne(text);
  }

  /** Both programs return the same list exactly when there are split characters and TextAgrees holds, for every text
      and every minimum. */
  lemma ProgramsAgreeExactly(text: string, ends: set<char>, minChars: int)
    ensures PyChunks(text, ends, minChars) == Some(JsChunks(text, ends, minChars))
      <==> ends != {} && TextAgrees(text, ends, minChars)
  {
    hide Chunks, Sentences, Result, JsLength, PySpace, JsSpace, JsEnds, Whole, Cuts, Glued, Join, AgreeOn;
    var p, j := Sentences(text, ends, PySpace), Sentences(text, JsEnds(ends), JsSpace);
    ChunksAre(text, ends, minChars, PySpace, PyLength);
    ChunksAre(text, JsEnds(ends), JsMin(minChars), JsSpace, JsLength);
    LengthsAdditive();
    if p == [] && j != [] {
      WholeExactly(text, j, JsMin(minChars), JsLength);
    } else if p != [] && j == [] {
      WholeExactly(text, p, minChars, PyLength);
    } else if p != [] {
      ResultJoins(p, minChars, PyLength);
      ResultJoins(j, JsMin(minChars), JsLength);
      if Join(p) == Join(j) {
        BlankIsSpace();
        JsEndsFewer(ends);
        SameJoinSameSentences(text, ends, JsEnds(ends), PySpace, JsSpace);
        AgreeExactly(j, Cuts(p, j), minChars, JsMin(minChars));
      }
    }
  }

  lemma BlankIsSpace()
    ensures PySpace(' ') && JsSpace(' ')
  {
  }

  /** On a text that is blank for one program only they agree exactly when it has no white space of the other one's at
      its ends, given that no split character is white space. */
  lemma BlankAgreesExactly(text: string, ends: set<char>, minChars: int)
    requires ends != {} && Inked(ends, PySpace) && Inked(ends, JsSpace)
    ensures Strip(text, PySpace) == "" ==>
              (PyChunks(text, ends, minChars) == Some(JsChunks(text, ends, minChars))
               <==> Strip(text, JsSpace) == "" || Trimmed(text, JsSpace))
    ensures Strip(text, JsSpace) == "" ==>
              (PyChunks(text, ends, minChars) == Some(JsChunks(text, ends, minChars))
               <==> Strip(text, PySpace) == "" || Trimmed(text, PySpace))
  {
    hide Chunks, Sentences, JsLength, PySpace, JsSpace, JsEnds, Cuts, Join, AgreeOn, Strip, Trimmed;
    ProgramsAgreeExactly(text, ends, minChars);
    BlankNoSentences(text, ends, PySpace);
    BlankNoSentences(text, JsEnds(ends), JsSpace);
    JsEndsInked(ends);
    if Strip(text, PySpace) == "" && Strip(text, JsSpace) != "" {
      BlankIsOneSentence(text, JsEnds(ends), PySpace, JsSpace);
      OneIsWhole(text, JsSpace, JsMin(minChars), JsLength);
    }
    if Strip(text, JsSpace) == "" && Strip(text, PySpace) != "" {
      BlankIsOneSentence(text, ends, JsSpace, PySpace);
      OneIsWhole(text, PySpace, minChars, PyLength);
    }
  }

  lemma OneIsWhole(text: string, space: Space, min: int, length: Length)
    requires Strip(text, space) != ""
    ensures Whole(text, [Strip(text, space)], min, length) <==> Trimmed(text, space)
  {
    hide Join, Strip, Trimmed;
    JoinOne(Strip(text, space));
    StrippedIsSame(text, space);
  }

  lemma JsEndsInked(ends: set<char>)
    requires Inked(ends, PySpace)
    ensures Inked(JsEnds(ends), PySpace)
  {
    hide JsEnds;
    forall c | c in JsEnds(ends)
      ensures !PySpace(c)
    {
      JsEndsExactly(ends, c);
    }
  }

  /** With a minimum of zero, on a text whose white space and split characters they agree on: exactly when merging at
      the JavaScript default changes nothing. */
  lemma ZeroAgreesExactly(text: string, ends: set<char>)
    requires SameSpace(text, PySpace, JsSpace) && SameEnds(text, ends, JsEnds(ends)) && ends != {}
    ensures var s := Sentences(text, ends, PySpace);
            (PyChunks(text, ends, 0) == Some(JsChunks(text, ends, 0)))
              <==> (|s| <= 1 || forall k :: 0 <= k < |s| ==> JsLength(s[k]) >= DEFAULT_MIN)
  {
    hide Chunks, Sentences, JsLength, PySpace, JsSpace, JsEnds, Result;
    SameSpaceSameSentences(text, ends, PySpace, JsSpace);
    SameEndsSameSentences(text, ends, JsEnds(ends), JsSpace);
    var s := Sentences(text, ends, PySpace);
    ChunksAre(text, ends, 0, PySpace, PyLength);
    ChunksAre(text, JsEnds(ends), DEFAULT_MIN, JsSpace, JsLength);
    Untouched(s, 0, PyLength);
    LengthsMonotone();
    if s != [] {
      if Unmergeable(s, DEFAULT_MIN, JsLength) {
        Untouched(s, DEFAULT_MIN, JsLength);
      } else if Result(s, DEFAULT_MIN, JsLength) == s {
        ResultReaches(s, DEFAULT_MIN, JsLength);
      }
    }
  }

  // ---- Plain texts ----

  /** Both programs see the same white space in s and count its characters alike. */
  predicate Plain(s: string) {
    SameSpace(s, PySpace, JsSpace) && Basic(s)
  }

  function Wide(): Space { c => c as int >= 0x10000 }

  /** Only characters of the basic plane, which both programs count as one. */
  predicate Basic(s: string) { forall k :: 0 <= k < |s| ==> !Wide()(s[k]) }

  predicate AllBasic(parts: seq<string>) { forall k :: 0 <= k < |parts| ==> Basic(parts[k]) }

  lemma {:induction false} BasicLength(s: string)
    requires Basic(s)
    ensures JsLength(s) == PyLength(s)
    decreases |s|
  {
    if s != "" {
      BasicLength(s[..|s| - 1]);
    }
  }

  lemma AddBasic(merged: seq<string>, part: string, min: int)
    requires AllBasic(merged) && Basic(part)
    ensures Add(merged, part, min, PyLength) == Add(merged, part, min, JsLength)
    ensures AllBasic(Add(merged, part, min, PyLength))
  {
    hide JsLength;
    if merged != [] {
      BasicLength(Last(merged));
      assert Basic(Last(merged) + " " + part);
    }
  }

  lemma {:induction false} MergedBasic(sentences: seq<string>, min: int)
    requires AllBasic(sentences)
    ensures Merged(sentences, min, PyLength) == Merged(sentences, min, JsLength)
    ensures AllBasic(Merged(sentences, min, PyLength))
    decreases |sentences|
  {
    hide Add, JsLength;
    if sentences != [] {
      MergedBasic(sentences[..|sentences| - 1], min);
      AddBasic(Merged(sentences[..|sentences| - 1], min, PyLength), Last(sentences), min);
    }
  }

  lemma ResultBasic(s: seq<string>, min: int)
    requires AllBasic(s)
    ensures Result(s, min, PyLength) == Result(s, min, JsLength)
  {
    hide Merged, JsLength, Basic;
    MergedBasic(s, min);
    var m := Merged(s, min, PyLength);
    if m != [] {
      BasicLength(Last(m));
    }
  }

  /** With a minimum given, both programs cut a plain text into the same chunks. */
  lemma ProgramsAgree(text: string, ends: set<char>, minChars: int)
    requires Plain(text) && minChars > 0 && ends != {}
    ensures PyChunks(text, ends, minChars) == Some(JsChunks(text, ends, minChars))
  {
    hide Sentences, Chunks, Result, JsLength, PySpace, JsSpace, Basic, JsEnds;
    SameSpaceSameSentences(text, ends, PySpace, JsSpace);
    BasicSameEnds(text, ends);
    SameEndsSameSentences(text, ends, JsEnds(ends), JsSpace);
    var s := Sentences(text, ends, PySpace);
    forall k | 0 <= k < |s|
      ensures Basic(s[k])
    {
      BasicSentence(text, ends, k);
    }
    ChunksAre(text, ends, minChars, PySpace, PyLength);
    ChunksAre(text, JsEnds(ends), minChars, JsSpace, JsLength);
    ResultBasic(s, minChars);
  }

  lemma BasicSameEnds(text: string, ends: set<char>)
    requires Basic(text)
    ensures SameEnds(text, ends, JsEnds(ends))
  {
    hide JsEnds;
    forall k | 0 <= k < |text|
      ensures text[k] in ends <==> text[k] in JsEnds(ends)
    {
      JsEndsExactly(ends, text[k]);
    }
  }

  lemma BasicSentence(text: string, ends: set<char>, k: nat)
    requires Basic(text) && k < |Sentences(text, ends, PySpace)|
    ensures Basic(Sentences(text, ends, PySpace)[k])
  {
    hide Sentences;
    SentencesFree(text, ends, PySpace, Wide(), k);
  }

  // ---- Texts that fail ----

  lemma NoBreaks(s: string, ends: set<char>, space: Space)
    requires Trimmed(s, space) && forall i :: 1 <= i < |s| ==> !BreakAt(s, ends, space, i)
    ensures Split(s, ends, space) == [s] && Sentences(s, ends, space) == [s]
  {
    hide StripLeft, StripRight, Strip;
    var p := FirstBreak(s, ends, space, 1);
    assert p < |s| ==> BreakAt(s, ends, space, p);
    TrimmedStays(s, space);
    assert Cleaned([s], space, 0) == [];
  }

  /** Two sentences with one white space between them. */
  lemma OneBreak(a: string, w: char, b: string, ends: set<char>, space: Space)
    requires Trimmed(a, space) && Trimmed(b, space) && space(w) && a[|a| - 1] in ends
    requires forall i :: 1 <= i < |a + [w] + b| && i != |a| ==> !BreakAt(a + [w] + b, ends, space, i)
    ensures Sentences(a + [w] + b, ends, space) == [a, b]
  {
    hide StripLeft, StripRight, Strip, Cleaned;
    var t := a + [w] + b;
    TrimmedStays(t, space);
    var p := FirstBreak(t, ends, space, 1);
    NoEarlierBreak(t, ends, space, 1, |a|);
    assert BreakAt(t, ends, space, p);
    assert t[..|a|] == a && t[|a|..] == [w] + b;
    OneSpace(w, b, space);
    forall i | 1 <= i < |b|
      ensures !BreakAt(b, ends, space, i)
    {
      assert !BreakAt(t, ends, space, i + |a| + 1);
    }
    NoBreaks(b, ends, space);
    assert Split(t, ends, space) == [a, b];
    BothKept(a, b, space);
  }

  lemma OneSpace(w: char, b: string, space: Space)
    requires space(w) && Trimmed(b, space)
    ensures StripLeft([w] + b, space) == b
  {
    assert ([w] + b)[1..] == b;
  }

  lemma BothKept(a: string, b: string, space: Space)
    requires Trimmed(a, space) && Trimmed(b, space)
    ensures Cleaned([a, b], space, 2) == [a, b]
  {
    hide Strip;
    TrimmedStays(a, space);
    TrimmedStays(b, space);
    assert Cleaned([a, b], space, 0) == [];
    assert Cleaned([a, b], space, 1) == [a];
  }

  lemma TwoChunks(a: string, b: string, min: int, length: Length)
    requires min > 0
    ensures length(a) < min ==> Result([a, b], min, length) == [a + " " + b]
    ensures length(a) >= min && length(b) >= min ==> Result([a, b], min, length) == [a, b]
  {
    MergedOne(a, min, length);
    assert [a] + [b] == [a, b];
    MergedSnoc([a], b, min, length);
  }

  const SMILE: string := "\U{1F600}."
  const ONE: string := "One."
  const TWO: string := "Two."
  const KING: string := "\U{1FA00}"

  lemma BasicEnds(ends: set<char>)
    requires forall c :: c in ends ==> !Wide()(c)
    ensures JsEnds(ends) == ends
  {
    hide JsEnds;
    forall c: char
      ensures c in JsEnds(ends) <==> c in ends
    {
      JsEndsExactly(ends, c);
    }
  }

  /** A wide character: a sentence of two characters for Python and of three units for JavaScript. */
  lemma WideTextDiffers()
    ensures PyChunks(SMILE + [' '] + "Bye", {'.'}, 3) == Some([SMILE + " " + "Bye"])
    ensures JsChunks(SMILE + [' '] + "Bye", {'.'}, 3) == [SMILE, "Bye"]
  {
    hide Chunks, Sentences, Result, JsEnds;
    var text := SMILE + [' '] + "Bye";
    BasicEnds({'.'});
    OneBreak(SMILE, ' ', "Bye", {'.'}, PySpace);
    OneBreak(SMILE, ' ', "Bye", {'.'}, JsSpace);
    ChunksAre(text, {'.'}, 3, PySpace, PyLength);
    ChunksAre(text, {'.'}, 3, JsSpace, JsLength);
    assert SMILE[..1][..0] == "";
    assert JsLength(SMILE[..1]) == 2 && JsLength(SMILE) == 3;
    JsAtLeastPy("Bye");
    TwoChunks(SMILE, "Bye", 3, PyLength);
    TwoChunks(SMILE, "Bye", 3, JsLength);
  }

  /** A byte order mark: white space for JavaScript only. */
  lemma MarkedTextDiffers()
    ensures PyChunks(ONE + ['\U{FEFF}'] + TWO, {'.'}, 3) == Some([ONE + ['\U{FEFF}'] + TWO])
    ensures JsChunks(ONE + ['\U{FEFF}'] + TWO, {'.'}, 3) == [ONE, TWO]
  {
    hide Chunks, Sentences, Result, JsEnds;
    var text := ONE + ['\U{FEFF}'] + TWO;
    BasicEnds({'.'});
    NoBreaks(text, {'.'}, PySpace);
    OneBreak(ONE, '\U{FEFF}', TWO, {'.'}, JsSpace);
    ChunksAre(text, {'.'}, 3, PySpace, PyLength);
    ChunksAre(text, {'.'}, 3, JsSpace, JsLength);
    Untouched([text], 3, PyLength);
    JsAtLeastPy(ONE);
    JsAtLeastPy(TWO);
    TwoChunks(ONE, TWO, 3, JsLength);
  }

  /** A wide split character: JavaScript also cuts after another one that ends with the same unit. */
  lemma WideEndsDiffer()
    ensures PyChunks(KING + [' '] + "Bye", {'\U{1F600}'}, 2) == Some([KING + [' '] + "Bye"])
    ensures JsChunks(KING + [' '] + "Bye", {'\U{1F600}'}, 2) == [KING, "Bye"]
  {
    hide Chunks, Sentences, Result, JsEnds;
    var text, ends := KING + [' '] + "Bye", {'\U{1F600}'};
    KingIsEnd();
    NoBreaks(text, ends, PySpace);
    OneBreak(KING, ' ', "Bye", JsEnds(ends), JsSpace);
    ChunksAre(text, ends, 2, PySpace, PyLength);
    ChunksAre(text, JsEnds(ends), 2, JsSpace, JsLength);
    Untouched([text], 2, PyLength);
    assert KING[..0] == "";
    JsAtLeastPy("Bye");
    TwoChunks(KING, "Bye", 2, JsLength);
  }

  lemma KingIsEnd()
    ensures var j := JsEnds({'\U{1F600}'}); KING[0] in j && ' ' !in j && 'B' !in j && 'y' !in j
  {
    hide JsEnds;
    JsEndsExactly({'\U{1F600}'}, KING[0]);
    JsEndsExactly({'\U{1F600}'}, ' ');
    JsEndsExactly({'\U{1F600}'}, 'B');
    JsEndsExactly({'\U{1F600}'}, 'y');
  }

  // ---- The code ----

  /** None is the error that the regular expression raises. */
  method PySplitSentences(text: string, splitChars: set<char>, minChars: int) returns (chunks: Option<seq<string>>)
    ensures chunks == PyChunks(text, splitChars, minChars)
  {
    hide Split, Strip, Cleaned, Merged;
    if splitChars == {} {
      return None;
    }
    var parts := Split(Strip(text, PySpace), splitChars, PySpace);
    var merged := MergeShort(parts, minChars, PySpace, PyLength);
    merged := MergeLast(merged, minChars, PyLength);
    return Some(if merged == [] then [text] else merged);
  }

  method JsSplitSentences(text: string, splitChars: set<char>, minChars: int) returns (chunks: seq<string>)
    ensures chunks == JsChunks(text, splitChars, minChars)
  {
    hide Split, Strip, Cleaned, Merged, JsLength, JsEnds;
    var ends := JsEnds(if splitChars == {} then DEFAULT_ENDS else splitChars);
    var min := JsMin(minChars);
    var parts := Split(Strip(text, JsSpace), ends, JsSpace);
    chunks := MergeShort(parts, min, JsSpace, JsLength);
    chunks := MergeLast(chunks, min, JsLength);
    if chunks == [] {
      chunks := [text];
    }
  }
}
