// Trimming and fading after the vote (browser/js/voice-play.js, _trimTrailingAudio). The fade curve is a parameter.
module TrailingTrim {
  import opened TrailingVote

  type Samples = seq<real>

  const MIN_FRAMES: nat := 10

  function Abs(x: real): real { if x < 0.0 then -x else x }

  // ---- Trimming and fading ----

  function FrameSize(rate: nat): nat { rate / 50 }

  function Frames(length: nat, rate: nat): nat
    requires rate >= 50
  {
    length / FrameSize(rate)
  }

  /** 80 ms after the last frame kept, but not past the end. */
  function TrimSample(length: nat, rate: nat, last: nat): nat {
    Min((last + 1) * FrameSize(rate) + rate * 80 / 1000, length)
  }

  /** At least 100 ms would go. */
  predicate WorthTrimming(length: nat, rate: nat, last: nat) {
    (length - TrimSample(length, rate, last)) * 10 >= rate
  }

  function FadeSamples(length: nat, rate: nat, last: nat): (n: nat)
    ensures n <= length - TrimSample(length, rate, last)
  {
    Min(rate * 150 / 1000, length - TrimSample(length, rate, last))
  }

  type Gain = (nat, nat) -> real

  /** A fade curve: gain(i, n) is the factor at step i of n. */
  ghost predicate Fading(gain: Gain) {
    forall i, n :: 0 <= i < n ==> 0.0 <= gain(i, n) <= 1.0
  }

  /** The first t samples, then n samples of fade. */
  function FadedAt(s: Samples, t: nat, n: nat, gain: Gain): (out: Samples)
    requires t + n <= |s|
    ensures |out| == t + n
    ensures forall k :: 0 <= k < t ==> out[k] == s[k]
    ensures forall k :: t <= k < t + n ==> out[k] == s[k] * gain(k - t, n)
  {
    s[..t] + seq(n, i requires 0 <= i < n => s[t + i] * gain(i, n))
  }

  function Faded(s: Samples, rate: nat, last: nat, gain: Gain): Samples {
    FadedAt(s, TrimSample(|s|, rate, last), FadeSamples(|s|, rate, last), gain)
  }

  /** clustered: the body gave two usable clusters. */
  function Trimmed(s: Samples, rate: nat, clustered: bool, anomalous: seq<bool>, bodyEnd: nat, gain: Gain): Samples
    requires rate >= 50 && |anomalous| == Frames(|s|, rate)
  {
    if Frames(|s|, rate) < MIN_FRAMES || !clustered then s
    else
      var last := Vote(anomalous, bodyEnd);
      if WorthTrimming(|s|, rate, last) then Faded(s, rate, last, gain) else s
  }

  lemma FramesFit(k: nat, length: nat, rate: nat)
    requires rate >= 50 && k <= Frames(length, rate)
    ensures k * FrameSize(rate) <= length
  {
    var f := FrameSize(rate);
    assert length == f * (length / f) + length % f;
    assert k * f <= length / f * f;
  }

  lemma ShrinksMagnitude(x: real, g: real)
    requires 0.0 <= g <= 1.0
    ensures Abs(x * g) <= Abs(x)
  {
    if x < 0.0 {
      assert x * g <= 0.0 && -(x * g) == -x * g && -x * g <= -x;
    } else {
      assert 0.0 <= x * g <= x;
    }
  }

  /** Up to b nothing changes, after that nothing grows. */
  ghost predicate Subdued(out: Samples, s: Samples, b: nat) {
    && b <= |out| <= |s|
    && (forall k :: 0 <= k < b ==> out[k] == s[k])
    && (forall k :: 0 <= k < |out| ==> Abs(out[k]) <= Abs(s[k]))
  }

  lemma FadeSubdues(s: Samples, t: nat, n: nat, gain: Gain, b: nat)
    requires t + n <= |s| && b <= t && Fading(gain)
    ensures Subdued(FadedAt(s, t, n, gain), s, b)
  {
    var out := FadedAt(s, t, n, gain);
    forall k | 0 <= k < |out|
      ensures Abs(out[k]) <= Abs(s[k])
    {
      if k >= t {
        var g := gain(k - t, n);
        ShrinksMagnitude(s[k], g);
        assert out[k] == s[k] * g;
      }
    }
  }

  lemma MultipleMonotone(a: nat, b: nat, f: nat)
    requires a <= b
    ensures a * f <= b * f
  {
  }

  lemma BodyBefore(length: nat, rate: nat, bodyEnd: nat, last: nat)
    requires bodyEnd <= last && bodyEnd * FrameSize(rate) <= length
    ensures bodyEnd * FrameSize(rate) <= TrimSample(length, rate, last)
  {
    MultipleMonotone(bodyEnd, last + 1, FrameSize(rate));
  }

  /** The body is untouched, nothing is added, and no sample grows in magnitude. */
  lemma BodyKept(s: Samples, rate: nat, clustered: bool, anomalous: seq<bool>, bodyEnd: nat, gain: Gain)
    requires rate >= 50 && |anomalous| == Frames(|s|, rate) && bodyEnd < |anomalous| && Fading(gain)
    ensures Subdued(Trimmed(s, rate, clustered, anomalous, bodyEnd, gain), s, bodyEnd * FrameSize(rate))
  {
    hide Vote, Frames, FrameSize, Fading, FadedAt, FadeSamples, WorthTrimming, TrimSample, Abs;
    FramesFit(bodyEnd, |s|, rate);
    VoteIsDeepest(anomalous, bodyEnd);
    var last := Vote(anomalous, bodyEnd);
    BodyBefore(|s|, rate, bodyEnd, last);
    FadeSubdues(s, TrimSample(|s|, rate, last), FadeSamples(|s|, rate, last), gain, bodyEnd * FrameSize(rate));
  }

  /** The samples up to the cut, then a fade of this length. */
  ghost predicate EndsFaded(out: Samples, s: Samples, cut: nat, fade: nat, gain: Gain) {
    && |out| == cut + fade <= |s|
    && (forall k :: 0 <= k < cut ==> out[k] == s[k])
    && (forall k :: 0 <= k < fade ==> out[cut + k] == s[cut + k] * gain(k, fade))
  }

  /** The cut lies 80 ms behind the last frame kept, of rate / 50 samples each. When at least 100 ms lie behind the
      cut, the first 150 ms of them at most are faded and the rest is dropped; otherwise nothing is changed, nor is
      audio of less than ten frames or without clusters. */
  lemma TrimmedExactly(s: Samples, rate: nat, clustered: bool, anomalous: seq<bool>, bodyEnd: nat, gain: Gain)
    requires rate >= 50 && |anomalous| == Frames(|s|, rate) && bodyEnd < |anomalous|
    ensures var out := Trimmed(s, rate, clustered, anomalous, bodyEnd, gain);
            var cut := (Vote(anomalous, bodyEnd) + 1) * (rate / 50) + rate * 80 / 1000;
            var gone := if cut < |s| then |s| - cut else 0;
            if gone * 1000 < 100 * rate || |anomalous| < 10 || !clustered then out == s
            else
              var fade := if rate * 150 / 1000 < gone then rate * 150 / 1000 else gone;
              EndsFaded(out, s, cut, fade, gain)
  {
    hide Vote;
  }

  /** What a rate that is no multiple of fifty adds to the nine frames below, in samples. */
  function Slack(rate: nat): nat { rate % 50 * 80 / 1000 + (rate % 50 + 9) / 10 }

  /** Trimming is worth it exactly when nine more frames, and the slack, follow the last frame kept. */
  lemma WorthExactly(length: nat, rate: nat, last: nat)
    requires rate >= 50
    ensures WorthTrimming(length, rate, last) <==>
        length >= (last + 1) * FrameSize(rate) + 9 * FrameSize(rate) + Slack(rate)
  {
    var f, r := FrameSize(rate), rate % 50;
    assert rate == 50 * f + r;
    assert rate * 80 / 1000 == 4 * f + r * 80 / 1000;
  }

  /** The last frame kept of an entirely normal tail. */
  function NormalTailKeeps(frames: nat, bodyEnd: nat): nat
    requires bodyEnd < frames
  {
    if frames - bodyEnd >= 20 then frames - 11 else bodyEnd
  }

  /** Enough samples to trim after the last frame kept. */
  predicate Roomy(length: nat, rate: nat, last: nat) {
    length >= (last + 1) * FrameSize(rate) + 9 * FrameSize(rate) + Slack(rate)
  }

  lemma RoomyInFrames(length: nat, rate: nat, bodyEnd: nat)
    requires rate >= 50 && rate % 50 == 0 && bodyEnd < Frames(length, rate)
    ensures Roomy(length, rate, NormalTailKeeps(Frames(length, rate), bodyEnd)) <==>
        Frames(length, rate) - bodyEnd >= 10
  {
    var f, n := FrameSize(rate), Frames(length, rate);
    var last := NormalTailKeeps(n, bodyEnd);
    assert length == n * f + length % f;
    assert (last + 1) * f + 9 * f == (last + 10) * f;
    if n - bodyEnd >= 10 {
      MultipleMonotone(last + 10, n, f);
    } else {
      MultipleMonotone(n + 1, last + 10, f);
      assert (n + 1) * f == n * f + f;
    }
  }

  /** A recording with an entirely normal tail is still cut and faded, exactly when it has room for it: when the rate
      is a multiple of fifty, exactly when the tail has at least ten frames. */
  lemma NormalTailTrimmed(s: Samples, rate: nat, anomalous: seq<bool>, bodyEnd: nat, gain: Gain)
    requires rate >= 50 && |anomalous| == Frames(|s|, rate) >= MIN_FRAMES
    requires bodyEnd < |anomalous| && forall k :: bodyEnd <= k < |anomalous| ==> !anomalous[k]
    ensures var last := NormalTailKeeps(|anomalous|, bodyEnd);
            && Trimmed(s, rate, true, anomalous, bodyEnd, gain)
                == (if Roomy(|s|, rate, last) then Faded(s, rate, last, gain) else s)
            && (rate % 50 == 0 ==> (Roomy(|s|, rate, last) <==> |anomalous| - bodyEnd >= 10))
  {
    hide Vote, WorthTrimming, Faded, FrameSize, Frames, Slack;
    NormalTailVote(anomalous, bodyEnd);
    WorthExactly(|s|, rate, Vote(anomalous, bodyEnd));
    if rate % 50 == 0 {
      RoomyInFrames(|s|, rate, bodyEnd);
    }
  }

  // ---- The code ----

  /** The trimmed copy of the samples, faded to its end; the input itself when nothing is to be trimmed. */
  method TrimTrailingAudio(s: Samples, rate: nat, clustered: bool, anomalous: seq<bool>, bodyEnd: nat, gain: Gain)
    returns (out: Samples)
    requires rate >= 50 && |anomalous| == Frames(|s|, rate)
    ensures out == Trimmed(s, rate, clustered, anomalous, bodyEnd, gain)
  {
    hide Vote, FrameSize;
    if |anomalous| < MIN_FRAMES || !clustered {
      return s;
    }
    var last := FindTrimFrame(anomalous, bodyEnd);
    var trimSample := TrimSample(|s|, rate, last);
    if (|s| - trimSample) * 10 < rate {
      return s;
    }
    var fadeSamples := Min(rate * 150 / 1000, |s| - trimSample);
    out := FadeOut(s, trimSample, fadeSamples, gain);
  }

  /** Copies the part to keep into a new buffer and fades it out. */
  method FadeOut(s: Samples, trimSample: nat, fadeSamples: nat, gain: Gain) returns (out: Samples)
    requires trimSample + fadeSamples <= |s|
    ensures out == FadedAt(s, trimSample, fadeSamples, gain)
  {
    var trimmed := new real[trimSample + fadeSamples](k requires 0 <= k < |s| => s[k]);
    var i := 0;
    while i < fadeSamples
      invariant 0 <= i <= fadeSamples
      invariant forall k :: 0 <= k < trimSample ==> trimmed[k] == s[k]
      invariant forall k :: trimSample <= k < trimSample + i ==> trimmed[k] == s[k] * gain(k - trimSample, fadeSamples)
    {
      var p := trimSample + i;
      trimmed[p] := s[p] * gain(i, fadeSamples);
      i := i + 1;
    }
    out := trimmed[..];
    ghost var want := FadedAt(s, trimSample, fadeSamples, gain);
    forall k | 0 <= k < |want|
      ensures out[k] == want[k]
    {
      if k >= trimSample {
        assert want[k] == s[k] * gain(k - trimSample, fadeSamples);
      }
    }
    assert out == want;
  }
}
