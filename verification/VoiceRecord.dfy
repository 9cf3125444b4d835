// Splitting a recording into segments in the browser (browser/js/voice-record.js): every flush decodes the whole
// recording, sends the new samples up to a quiet point and carries the rest over; the end of the recording sends what
// is left.
module VoiceRecord {
  import opened QuietCut

  const SEARCH_ZONE_SEC: nat := 5
  const CUT_WINDOW_MS: nat := 300

  /** A decoded recording. */
  datatype Decoded = Decoded(pcm: Samples, rate: nat)

  datatype Recorder = Recorder(processed: nat, segments: seq<Samples>)

  function Max(a: int, b: int): int { if a > b then a else b }

  function Window(rate: nat): nat { rate * CUT_WINDOW_MS / 1000 }

  function SearchStart(length: nat, rate: nat): nat { Max(0, length - rate * SEARCH_ZONE_SEC) }

  function StepSize(rate: nat): nat { Max(1, Window(rate) / 3) }

  function CutSample(samples: Samples, rate: nat): nat {
    Cut(samples, SearchStart(|samples|, rate), Window(rate), StepSize(rate), |samples| - Window(rate) + 1)
  }

  // slice clamps its bounds
  function From(s: Samples, k: nat): Samples { if k <= |s| then s[k..] else [] }

  function UpTo(s: Samples, k: nat): Samples { if k <= |s| then s[..k] else s }

  function Flush(r: Recorder, d: Decoded): Recorder {
    var added := From(d.pcm, r.processed);
    if added == [] then r
    else
      var cut := CutSample(added, d.rate);
      Recorder(r.processed + cut, r.segments + [UpTo(added, cut)])
  }

  function Record(decodes: seq<Decoded>): Recorder
    decreases |decodes|
  {
    if decodes == [] then Recorder(0, []) else Flush(Record(decodes[..|decodes| - 1]), decodes[|decodes| - 1])
  }

  function Concat(parts: seq<Samples>): Samples
    decreases |parts|
  {
    if parts == [] then [] else Concat(parts[..|parts| - 1]) + parts[|parts| - 1]
  }

  /** All that was sent, the remainder at the end included. */
  function Sent(decodes: seq<Decoded>, final: Samples): Samples {
    var r := Record(decodes);
    Concat(r.segments) + From(final, r.processed)
  }

  // ---- The cut ----

  lemma CutBounds(s: Samples, rate: nat)
    ensures |s| < Window(rate) ==> CutSample(s, rate) == Window(rate) / 2
    ensures |s| >= Window(rate) ==> CutSample(s, rate) <= |s|
  {
    hide Energy, FirstMin, WindowStart;
    var start, window, step, limit := SearchStart(|s|, rate), Window(rate), StepSize(rate), |s| - Window(rate) + 1;
    if |s| >= window > 0 {
      CutIsQuietest(s, start, window, step, limit);
      ScannedInside(s, start, window, step, limit);
    }
  }

  /** A cut stays inside the samples exactly when they fill half a window. */
  lemma CutInside(s: Samples, rate: nat)
    ensures CutSample(s, rate) <= |s| <==> |s| >= Window(rate) / 2
  {
    CutBounds(s, rate);
  }

  /** The cut is the middle of the first quietest 300 ms window among those that start in the last five seconds, a
      third of a window apart, and fit. */
  lemma CutInLastSeconds(s: Samples, rate: nat)
    requires |s| >= rate * 300 / 1000 >= 1
    ensures var window := rate * 300 / 1000;
            var start := if |s| > 5 * rate then |s| - 5 * rate else 0;
            CutsAtQuietest(s, start, window, if window < 6 then 1 else window / 3, |s| - window + 1, CutSample(s, rate))
  {
    hide CutsAtQuietest, Cut;
    CutIsFirstQuietest(s, SearchStart(|s|, rate), Window(rate), StepSize(rate), |s| - Window(rate) + 1);
  }

  // ---- Conservation ----

  /** Every decode is a prefix of the final one. */
  predicate Growing(decodes: seq<Decoded>, final: Samples) {
    forall k :: 0 <= k < |decodes| ==> decodes[k].pcm <= final
  }

  /** The flush of d finds new samples, but fewer than half a window of them. */
  predicate Short(r: Recorder, d: Decoded) {
    0 < |From(d.pcm, r.processed)| < Window(d.rate) / 2
  }

  /** Flush k was short, and the recording went on after it. */
  predicate Overran(decodes: seq<Decoded>, k: nat, final: Samples)
    requires k < |decodes|
  {
    Short(Record(decodes[..k]), decodes[k]) && |final| > |decodes[k].pcm|
  }

  ghost predicate NoOverrun(decodes: seq<Decoded>, final: Samples) {
    forall k :: 0 <= k < |decodes| ==> !Overran(decodes, k, final)
  }

  lemma ConcatSnoc(parts: seq<Samples>, p: Samples)
    ensures Concat(parts + [p]) == Concat(parts) + p
  {
    assert (parts + [p])[..|parts|] == parts;
  }

  lemma ConcatOne(p: Samples)
    ensures Concat([p]) == p
  {
    assert [p][..0] == [];
  }

  lemma FlushKeeps(r: Recorder, d: Decoded, final: Samples)
    requires d.pcm <= final && Concat(r.segments) == UpTo(final, r.processed)
    requires !(Short(r, d) && |final| > |d.pcm|)
    ensures Concat(Flush(r, d).segments) == UpTo(final, Flush(r, d).processed)
  {
    hide CutSample, Concat;
    var added := From(d.pcm, r.processed);
    if added != [] {
      var cut := CutSample(added, d.rate);
      CutInside(added, d.rate);
      ConcatSnoc(r.segments, UpTo(added, cut));
      if cut <= |added| {
        assert final[..r.processed] + d.pcm[r.processed..][..cut] == final[..r.processed + cut];
      } else {
        assert d.pcm == final;
        assert final[..r.processed] + final[r.processed..] == final;
      }
    }
  }

  lemma {:induction false} SegmentsArePrefix(decodes: seq<Decoded>, final: Samples)
    requires Growing(decodes, final) && NoOverrun(decodes, final)
    ensures Concat(Record(decodes).segments) == UpTo(final, Record(decodes).processed)
    decreases |decodes|
  {
    hide Flush, Short;
    if decodes != [] {
      var n := |decodes| - 1;
      var front := decodes[..n];
      forall k | 0 <= k < |front|
        ensures !Overran(front, k, final)
      {
        assert front[..k] == decodes[..k];
        assert !Overran(decodes, k, final);
      }
      SegmentsArePrefix(front, final);
      assert !Overran(decodes, n, final);
      FlushKeeps(Record(front), decodes[n], final);
    }
  }

  /** Room left by what has been sent; gap is one once a flush has overrun. */
  predicate Bounded(r: Recorder, final: Samples, gap: nat) {
    |Concat(r.segments)| + gap <= r.processed && |Concat(r.segments)| + gap <= |final|
  }

  lemma FlushBound(r: Recorder, d: Decoded, final: Samples, gap: nat)
    requires d.pcm <= final && Bounded(r, final, gap) && gap <= 1
    ensures Bounded(Flush(r, d), final, gap)
    ensures Short(r, d) && |final| > |d.pcm| ==> Bounded(Flush(r, d), final, 1)
  {
    hide CutSample, Concat, Window;
    var added := From(d.pcm, r.processed);
    if added != [] {
      CutInside(added, d.rate);
      ConcatSnoc(r.segments, UpTo(added, CutSample(added, d.rate)));
    }
  }

  /** Never more is sent than was there. */
  lemma {:induction false} SentAtMost(decodes: seq<Decoded>, final: Samples)
    requires Growing(decodes, final)
    ensures Bounded(Record(decodes), final, 0)
    decreases |decodes|
  {
    hide Flush, Bounded;
    if decodes == [] {
      NothingSent(final);
    } else {
      SentAtMost(decodes[..|decodes| - 1], final);
      FlushBound(Record(decodes[..|decodes| - 1]), decodes[|decodes| - 1], final, 0);
    }
  }

  /** Less is sent once a flush has overrun. */
  lemma {:induction false} SentLess(decodes: seq<Decoded>, final: Samples, k: nat)
    requires Growing(decodes, final) && k < |decodes| && Overran(decodes, k, final)
    ensures Bounded(Record(decodes), final, 1)
    decreases |decodes|
  {
    hide Flush, Bounded, Short;
    var n := |decodes| - 1;
    var front := decodes[..n];
    if k < n {
      assert front[..k] == decodes[..k];
      SentLess(front, final, k);
      FlushBound(Record(front), decodes[n], final, 1);
    } else {
      SentAtMost(front, final);
      FlushBound(Record(front), decodes[n], final, 0);
    }
  }

  lemma NothingSent(final: Samples)
    ensures Bounded(Record([]), final, 0)
  {
  }

  /** The segments and the remainder are the whole recording exactly when no flush cut past the end of what it had. */
  lemma ConservedExactly(decodes: seq<Decoded>, final: Samples)
    requires Growing(decodes, final)
    ensures Sent(decodes, final) == final <==> NoOverrun(decodes, final)
  {
    hide Record, Overran, Concat;
    if NoOverrun(decodes, final) {
      SegmentsArePrefix(decodes, final);
    } else {
      var k :| 0 <= k < |decodes| && Overran(decodes, k, final);
      SentLess(decodes, final, k);
    }
  }

  /** One early flush of a single sample at 48 kHz moves the mark 7200 samples on: the next sample is never sent. */
  lemma OverrunExample()
    ensures Sent([Decoded([0.0], 48000)], [0.0, 1.0]) != [0.0, 1.0]
  {
    hide CutSample;
    var decodes := [Decoded([0.0], 48000)];
    assert decodes[..0] == [];
    assert Record([]) == Recorder(0, []);
    assert Overran(decodes, 0, [0.0, 1.0]);
    ConservedExactly(decodes, [0.0, 1.0]);
  }

  // ---- The code ----

  type Blob = seq<int>

  class VoiceRecorder {
    var audioChunks: seq<Blob>
    var allWebmChunks: seq<Blob>
    var processedSamples: nat
    var segmentBlobs: seq<Samples>

    ghost function View(): Recorder
      reads this
    {
      Recorder(processedSamples, segmentBlobs)
    }

    constructor ()
      ensures View() == Record([]) && audioChunks == allWebmChunks == []
    {
      audioChunks, allWebmChunks, processedSamples, segmentBlobs := [], [], 0, [];
    }

    /** The recorder hands over a chunk; empty ones are dropped. */
    method OnDataAvailable(data: Blob)
      modifies `audioChunks
      ensures audioChunks == if data == [] then old(audioChunks) else old(audioChunks) + [data]
    {
      if |data| > 0 {
        audioChunks := audioChunks + [data];
      }
    }

    method FindQuietestCutSample(samples: Samples, sampleRate: nat) returns (cut: nat)
      ensures cut == CutSample(samples, sampleRate)
    {
      var searchStart := Max(0, |samples| - sampleRate * SEARCH_ZONE_SEC);
      var windowSamples := sampleRate * CUT_WINDOW_MS / 1000;
      var stepSamples := Max(1, windowSamples / 3);
      cut := FindQuietest(samples, searchStart, windowSamples, stepSamples, |samples| - windowSamples + 1);
    }

    /** Takes the new chunks, decodes all of them and sends the new samples up to the cut; decode is the browser's
        decoder. */
    method FlushAndSplitSegment(decode: seq<Blob> -> Decoded)
      modifies this
      ensures audioChunks == [] && allWebmChunks == old(allWebmChunks + audioChunks)
      ensures View() == if allWebmChunks == [] then old(View()) else Flush(old(View()), decode(allWebmChunks))
    {
      var chunks := audioChunks;
      audioChunks := [];
      allWebmChunks := allWebmChunks + chunks;
      if allWebmChunks == [] {
        return;
      }
      var d := decode(allWebmChunks);
      var newSamples := From(d.pcm, processedSamples);
      if newSamples == [] {
        return;
      }
      var cut := FindQuietestCutSample(newSamples, d.rate);
      processedSamples := processedSamples + cut;
      segmentBlobs := segmentBlobs + [UpTo(newSamples, cut)];
    }

    /** The end of a recording that was segmented: the remainder is sent as the last segment. */
    method FinishRecording(decode: seq<Blob> -> Decoded) returns (remainder: Samples)
      modifies this
      ensures audioChunks == [] && allWebmChunks == old(allWebmChunks + audioChunks)
      ensures remainder == if allWebmChunks == [] then [] else From(decode(allWebmChunks).pcm, old(processedSamples))
      ensures segmentBlobs == old(segmentBlobs) + [remainder] && processedSamples == old(processedSamples)
    {
      var chunks := audioChunks;
      audioChunks := [];
      allWebmChunks := allWebmChunks + chunks;
      remainder := [];
      if |allWebmChunks| > 0 {
        var d := decode(allWebmChunks);
        remainder := From(d.pcm, processedSamples);
      }
      segmentBlobs := segmentBlobs + [remainder];
    }
  }
}
