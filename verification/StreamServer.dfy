// Streamed transcription on the GPU server (gpu-worker/local_server.py): partial requests decode the whole recording
// so far, send the new samples up to a quiet point and count them as consumed; finalizing sends what is left.
module StreamServer {
  import opened Wrappers
  import opened QuietCut
  import V = VoiceRecord

  type Blob = seq<int>
  type Sid = string

  /** The audio decoder, for the recorded chunks and for the pre-roll; None when it fails. */
  type WebmDecoder = seq<Blob> -> Option<Samples>
  type WavDecoder = Blob -> Option<Samples>

  const SAMPLE_RATE: nat := 16000
  const SEARCH_SAMPLES: nat := 160000
  const WINDOW: nat := 4800
  const STEP: nat := 1600
  const MIN_BYTES: nat := 1000
  const MIN_DECODED: nat := 1600
  const MIN_REMAINDER: nat := 1600

  /** What is sent to be transcribed: samples, the recording as it came in, or nothing but an empty answer. */
  datatype Job = Pcm(samples: Samples) | Webm(chunks: seq<Blob>) | Empty

  /** started: there is a list of chunks. Since the last start: what had been consumed before it (skipped), the samples
      of the partial jobs (sent), and the pre-roll that was put in front of the first of them (lead). */
  datatype Stream = Stream(
    started: bool,
    chunks: seq<Blob>,
    preroll: Option<Blob>,
    consumed: nat,
    skipped: nat,
    sent: seq<Samples>,
    lead: Samples)

  const FRESH: Stream := Stream(false, [], None, 0, 0, [], [])

  function TotalBytes(chunks: seq<Blob>): nat
    decreases |chunks|
  {
    if chunks == [] then 0 else TotalBytes(chunks[..|chunks| - 1]) + |chunks[|chunks| - 1]|
  }

  /** The pre-roll goes in front of the first partial. */
  function Lead(s: Stream, wav: WavDecoder): Samples {
    if s.consumed == 0 && s.preroll.Some? && wav(s.preroll.value).Some? then wav(s.preroll.value).value else []
  }

  function CutSample(added: Samples): nat {
    Cut(added, V.Max(0, |added| - SEARCH_SAMPLES), WINDOW, STEP, |added| - WINDOW)
  }

  function Partial(s: Stream, webm: WebmDecoder, wav: WavDecoder): Stream {
    if s.chunks == [] || TotalBytes(s.chunks) <= MIN_BYTES then s
    else
      match webm(s.chunks)
      case None => s
      case Some(pcm) =>
        if |pcm| <= MIN_DECODED then s else Take(s, Lead(s, wav), pcm)
  }

  function Take(s: Stream, lead: Samples, pcm: Samples): Stream {
    var added := V.From(lead + pcm, s.consumed);
    if |added| <= SAMPLE_RATE then s
    else
      var cut := CutSample(added);
      s.(consumed := s.consumed + cut,
         sent := s.sent + [V.UpTo(added, cut)],
         lead := if s.consumed == 0 then lead else s.lead)
  }

  function Finalize(s: Stream, webm: WebmDecoder, wav: WavDecoder): Job {
    if s.chunks == [] then Empty
    else if s.consumed > 0 then
      match webm(s.chunks)
      case None => Webm(s.chunks)
      case Some(pcm) =>
        if pcm == [] then Webm(s.chunks)
        else
          var rest := V.From(pcm, s.consumed);
          if |rest| < MIN_REMAINDER then Empty else Pcm(rest)
    else if Lead(s, wav) != [] && webm(s.chunks).Some? && webm(s.chunks).value != [] then
      Pcm(Lead(s, wav) + webm(s.chunks).value)
    else Webm(s.chunks)
  }

  datatype Event = DoStart | DoPreroll(blob: Blob) | DoChunk(blob: Blob) | DoPartial | DoFinalize

  /** A start clears the chunks but not what was consumed; chunks of a stream that was not started are ignored. */
  function Step(s: Stream, e: Event, webm: WebmDecoder, wav: WavDecoder): Stream {
    match e
    case DoStart => s.(started := true, chunks := [], skipped := s.consumed, sent := [], lead := [])
    case DoPreroll(blob) => s.(preroll := Some(blob))
    case DoChunk(blob) => if s.started then s.(chunks := s.chunks + [blob]) else s
    case DoPartial => Partial(s, webm, wav)
    case DoFinalize => FRESH
  }

  function Run(events: seq<Event>, webm: WebmDecoder, wav: WavDecoder): Stream
    decreases |events|
  {
    if events == [] then FRESH else Step(Run(events[..|events| - 1], webm, wav), events[|events| - 1], webm, wav)
  }

  // ---- Conservation ----

  /** Decoding fewer chunks gives a prefix of the whole recording. */
  ghost predicate Extends(webm: WebmDecoder, chunks: seq<Blob>, final: Samples) {
    forall k {:trigger chunks[..k]} :: 0 <= k <= |chunks| && webm(chunks[..k]).Some? ==>
        webm(chunks[..k]).value <= final
  }

  lemma CutBounds(s: Samples)
    requires |s| > SAMPLE_RATE
    ensures 0 < CutSample(s) < |s|
  {
    hide Energy, FirstMin;
    var start, limit := V.Max(0, |s| - SEARCH_SAMPLES), |s| - WINDOW;
    CutIsQuietest(s, start, WINDOW, STEP, limit);
    var q :| 0 <= q < Scanned(start, STEP, limit) && QuietestAt(s, start, WINDOW, STEP, limit, q)
             && CutSample(s) == WindowStart(start, STEP, q) + WINDOW / 2;
    ScannedWithin(start, STEP, limit, q);
  }

  /** The cut is the middle of the first quietest window of 4800 samples among those that start in the last ten
      seconds, 1600 samples apart, and end before the last sample. */
  lemma CutInLastSeconds(s: Samples)
    requires |s| > 16000
    ensures CutsAtQuietest(s, if |s| > 160000 then |s| - 160000 else 0, 4800, 1600, |s| - 4800, CutSample(s))
  {
    hide CutsAtQuietest, Cut;
    CutIsFirstQuietest(s, V.Max(0, |s| - SEARCH_SAMPLES), WINDOW, STEP, |s| - WINDOW);
  }

  /** What the partial jobs amount to, against the whole recording. */
  predicate Accounted(s: Stream, final: Samples) {
    && |V.Concat(s.sent)| + s.skipped == s.consumed
    && (s.lead == [] ==> V.Concat(s.sent) == V.From(V.UpTo(final, s.consumed), s.skipped))
    && (s.lead != [] ==> s.skipped == 0 && s.consumed < |s.lead| + |final| && BehindLead(s, final))
    && (s.consumed == 0 ==> s.sent == [] && s.lead == [])
  }

  /** The first piece is cut from the pre-roll and the recording, the others go on in the recording alone. */
  predicate BehindLead(s: Stream, final: Samples) {
    && s.sent != [] && |s.sent[0]| <= s.consumed
    && V.Concat(s.sent) == V.UpTo(s.lead + final, |s.sent[0]|) + V.From(V.UpTo(final, s.consumed), |s.sent[0]|)
  }

  lemma FirstBehindLead(s: Stream, final: Samples, pcm: Samples)
    requires s.lead != [] && pcm <= final && 0 < s.consumed <= |s.lead + pcm|
    requires s.sent == [V.UpTo(s.lead + pcm, s.consumed)]
    ensures BehindLead(s, final)
  {
    V.ConcatOne(s.sent[0]);
    assert s.lead + final == (s.lead + pcm) + final[|pcm|..];
    assert V.From(V.UpTo(final, s.consumed), s.consumed) == [];
  }

  lemma NextBehindLead(s: Stream, final: Samples, pcm: Samples, cut: nat, p: Stream)
    requires BehindLead(s, final) && pcm <= final && s.consumed + cut <= |pcm|
    requires p.lead == s.lead && p.consumed == s.consumed + cut
    requires p.sent == s.sent + [V.UpTo(V.From(pcm, s.consumed), cut)]
    ensures BehindLead(p, final)
  {
    hide V.Concat, V.UpTo, V.From;
    var first := |s.sent[0]|;
    var start, piece := V.UpTo(s.lead + final, first), V.UpTo(V.From(pcm, s.consumed), cut);
    V.ConcatSnoc(s.sent, piece);
    NextPiece(final, pcm, first, s.consumed, cut);
    var mid := V.From(V.UpTo(final, s.consumed), first);
    assert (start + mid) + piece == start + (mid + piece);
    assert p.sent[0] == s.sent[0];
  }

  lemma NextPiece(final: Samples, pcm: Samples, from: nat, k: nat, cut: nat)
    requires pcm <= final && from <= k && k + cut <= |pcm|
    ensures V.From(V.UpTo(final, k), from) + V.UpTo(V.From(pcm, k), cut) == V.From(V.UpTo(final, k + cut), from)
  {
    assert final[..k][from..] + pcm[k..][..cut] == final[..k + cut][from..];
  }

  lemma TakeAccounted(s: Stream, lead: Samples, pcm: Samples, final: Samples)
    requires Accounted(s, final) && pcm <= final && (s.consumed > 0 ==> lead == [])
    ensures Accounted(Take(s, lead, pcm), final)
  {
    hide CutSample, V.Concat, BehindLead;
    var added := V.From(lead + pcm, s.consumed);
    if |added| > SAMPLE_RATE {
      CutBounds(added);
      var cut := CutSample(added);
      V.ConcatSnoc(s.sent, V.UpTo(added, cut));
      if lead == [] {
        assert lead + pcm == pcm;
        NextPiece(final, pcm, s.skipped, s.consumed, cut);
        if s.lead != [] {
          NextBehindLead(s, final, pcm, cut, Take(s, lead, pcm));
        }
      } else {
        FirstBehindLead(Take(s, lead, pcm), final, pcm);
      }
    }
  }

  lemma PartialAccounted(s: Stream, webm: WebmDecoder, wav: WavDecoder, all: seq<Blob>, final: Samples)
    requires Accounted(s, final) && s.chunks <= all && Extends(webm, all, final)
    ensures Accounted(Partial(s, webm, wav), final)
  {
    hide Accounted, Take;
    if s.chunks != [] && TotalBytes(s.chunks) > MIN_BYTES && webm(s.chunks).Some? {
      assert all[..|s.chunks|] == s.chunks;
      TakeAccounted(s, Lead(s, wav), webm(s.chunks).value, final);
    }
  }

  lemma {:induction false} RunAccounted(events: seq<Event>, webm: WebmDecoder, wav: WavDecoder, all: seq<Blob>,
                                        final: Samples)
    requires Run(events, webm, wav).chunks <= all && Extends(webm, all, final)
    ensures Accounted(Run(events, webm, wav), final)
    decreases |events|
  {
    hide Extends, Partial, Accounted;
    if events == [] {
      NothingAccounted(FRESH, final);
    } else {
      var s := Run(events[..|events| - 1], webm, wav);
      var e := events[|events| - 1];
      if e.DoStart? || e.DoFinalize? {
        NothingAccounted(Step(s, e, webm, wav), final);
      } else {
        PartialChunks(s, webm, wav);
        RunAccounted(events[..|events| - 1], webm, wav, all, final);
        PartialAccounted(s, webm, wav, all, final);
        if !e.DoPartial? {
          AccountedAlike(s, Step(s, e, webm, wav), final);
        }
      }
    }
  }

  lemma NothingAccounted(s: Stream, final: Samples)
    requires s.sent == [] && s.lead == [] && s.consumed == s.skipped
    ensures Accounted(s, final)
  {
  }

  lemma AccountedAlike(s: Stream, t: Stream, final: Samples)
    requires Accounted(s, final) && t.consumed == s.consumed && t.skipped == s.skipped && t.sent == s.sent
    requires t.lead == s.lead
    ensures Accounted(t, final)
  {
  }

  lemma PartialChunks(s: Stream, webm: WebmDecoder, wav: WavDecoder)
    ensures Partial(s, webm, wav).chunks == s.chunks
  {
  }

  /** What a job lets the transcriber hear. */
  function Heard(job: Job, webm: WebmDecoder): Samples {
    match job
    case Pcm(samples) => samples
    case Webm(chunks) => if webm(chunks).Some? then webm(chunks).value else []
    case Empty => []
  }

  /** Everything heard of a stream that has ended. */
  function Total(s: Stream, webm: WebmDecoder, wav: WavDecoder): Samples {
    V.Concat(s.sent) + Heard(Finalize(s, webm, wav), webm)
  }

  lemma HeardRest(s: Stream, webm: WebmDecoder, wav: WavDecoder, final: Samples)
    requires s.chunks != [] && webm(s.chunks) == Some(final) && (s.consumed == 0 ==> Lead(s, wav) == [])
    ensures Heard(Finalize(s, webm, wav), webm)
         == if s.consumed == 0 then final
            else if |V.From(final, s.consumed)| < MIN_REMAINDER then [] else V.From(final, s.consumed)
  {
    hide Lead;
  }

  /** Without pre-roll the jobs of any run give the recording from the sample on that was due at its start, up to a
      tail of at most 1599 samples. */
  lemma TailOnlyDropped(events: seq<Event>, webm: WebmDecoder, wav: WavDecoder, final: Samples)
    requires var s := Run(events, webm, wav);
             s.lead == [] && s.chunks != [] && Extends(webm, s.chunks, final) && webm(s.chunks) == Some(final)
             && (s.consumed == 0 ==> Lead(s, wav) == [])
    ensures var s := Run(events, webm, wav);
            var total := Total(s, webm, wav);
            var due := V.From(final, s.skipped);
            total <= due && |due| - |total| <= 1599
  {
    hide Run, Extends, V.Concat, Lead, Finalize, Heard;
    var s := Run(events, webm, wav);
    RunAccounted(events, webm, wav, s.chunks, final);
    HeardRest(s, webm, wav, final);
    if s.consumed <= |final| {
      SliceJoins(final, s.skipped, s.consumed);
    }
  }

  lemma SliceJoins(final: Samples, from: nat, k: nat)
    requires from <= k <= |final|
    ensures V.From(V.UpTo(final, k), from) + V.From(final, k) == V.From(final, from)
  {
  }

  /** Once something was consumed, all of it is heard exactly when nothing had been consumed before the last start, no
      pre-roll was put in front and the rest is not a short one. */
  lemma ConservedExactly(events: seq<Event>, webm: WebmDecoder, wav: WavDecoder, final: Samples)
    requires var s := Run(events, webm, wav);
             && s.consumed > 0 && s.chunks != [] && final != []
             && Extends(webm, s.chunks, final) && webm(s.chunks) == Some(final)
    ensures var s := Run(events, webm, wav);
            (Total(s, webm, wav) == s.lead + final)
              <==> (s.skipped == 0 && s.lead == [] && (s.consumed == |final| || |final| - s.consumed >= 1600))
  {
    hide Run, Extends, V.Concat;
    var s := Run(events, webm, wav);
    RunAccounted(events, webm, wav, s.chunks, final);
    if s.lead == [] {
      assert s.lead + final == final;
      if s.consumed <= |final| {
        SliceJoins(final, s.skipped, s.consumed);
      }
    } else {
      assert |Total(s, webm, wav)| < |s.lead + final|;
    }
  }

  // ---- Pre-rolls ----

  /** What the pre-roll that is held decodes to. */
  function Preroll(s: Stream, wav: WavDecoder): Samples {
    if s.preroll.Some? && wav(s.preroll.value).Some? then wav(s.preroll.value).value else []
  }

  /** Without a partial since the start the pre-roll and the whole recording are heard, for every stream that decodes
      to something; a recording that does not decode is sent as it came in. */
  lemma UncutHeard(events: seq<Event>, webm: WebmDecoder, wav: WavDecoder)
    requires Run(events, webm, wav).consumed == 0 && Run(events, webm, wav).chunks != []
    ensures var s := Run(events, webm, wav);
            if webm(s.chunks).Some? && webm(s.chunks).value != []
            then Total(s, webm, wav) == Preroll(s, wav) + webm(s.chunks).value
            else Finalize(s, webm, wav) == Webm(s.chunks)
  {
    hide Run;
    UnconsumedUnsent(events, webm, wav);
  }

  lemma {:induction false} UnconsumedUnsent(events: seq<Event>, webm: WebmDecoder, wav: WavDecoder)
    ensures var s := Run(events, webm, wav); s.consumed == 0 ==> s.sent == []
    decreases |events|
  {
    hide Partial, TotalBytes;
    if events != [] {
      UnconsumedUnsent(events[..|events| - 1], webm, wav);
      PartialExactly(Run(events[..|events| - 1], webm, wav), webm, wav);
    }
  }

  /** A partial sends something exactly when more than 1000 bytes have come in, more than 1600 samples can be decoded
      and more than 16000 of these, with the pre-roll in front the first time, are new; it sends some of the new ones,
      from the first on. */
  lemma PartialExactly(s: Stream, webm: WebmDecoder, wav: WavDecoder)
    ensures var p := Partial(s, webm, wav);
            var pre := if s.consumed == 0 then Preroll(s, wav) else [];
            if s.chunks != [] && TotalBytes(s.chunks) > 1000 && webm(s.chunks).Some? && |webm(s.chunks).value| > 1600
               && |pre + webm(s.chunks).value| > s.consumed + 16000
            then
              var all := pre + webm(s.chunks).value;
              && s.consumed < p.consumed < |all|
              && p.sent == s.sent + [all[s.consumed..p.consumed]]
              && p.lead == (if s.consumed == 0 then pre else s.lead)
              && p.chunks == s.chunks && p.preroll == s.preroll && p.skipped == s.skipped && p.started == s.started
            else p == s
  {
    hide CutSample, TotalBytes;
    if webm(s.chunks).Some? {
      var pre := if s.consumed == 0 then Preroll(s, wav) else [];
      var all := pre + webm(s.chunks).value;
      assert Lead(s, wav) == pre;
      if |all| > s.consumed + 16000 {
        var added := V.From(all, s.consumed);
        CutBounds(added);
        assert V.UpTo(added, CutSample(added)) == all[s.consumed..s.consumed + CutSample(added)];
      }
    }
  }

  /** With a pre-roll put in front, what is heard is the pre-roll and the recording up to the first cut, and then the
      recording alone counted from the same place, up to a tail of at most 1599 samples. */
  lemma HeardBehindLead(events: seq<Event>, webm: WebmDecoder, wav: WavDecoder, final: Samples)
    requires var s := Run(events, webm, wav);
             s.lead != [] && s.chunks != [] && Extends(webm, s.chunks, final) && webm(s.chunks) == Some(final)
    ensures var s := Run(events, webm, wav);
            s.sent != []
            && var first, total := |s.sent[0]|, Total(s, webm, wav);
               var want := V.UpTo(s.lead + final, first) + V.From(final, first);
               total <= want && |want| - |total| <= 1599
  {
    hide Run, Extends, V.Concat, Lead, Finalize, Heard;
    var s := Run(events, webm, wav);
    RunAccounted(events, webm, wav, s.chunks, final);
    HeardRest(s, webm, wav, final);
    if s.consumed <= |final| {
      SliceJoins(final, |s.sent[0]|, s.consumed);
    }
  }

  /** An event that does not start or end a stream. */
  predicate Ongoing(e: Event) { !e.DoStart? && !e.DoFinalize? }

  /** Until the next start, what is skipped is what had been consumed when the stream was started: a restart conserves
      the new recording exactly when the stream had been finalized, or nothing of it consumed, before. */
  lemma {:induction false} RestartSkips(before: seq<Event>, after: seq<Event>, webm: WebmDecoder, wav: WavDecoder)
    requires forall i :: 0 <= i < |after| ==> Ongoing(after[i])
    ensures Run(before + [DoStart] + after, webm, wav).skipped == Run(before, webm, wav).consumed
    decreases |after|
  {
    hide Partial;
    var events := before + [DoStart] + after;
    if after == [] {
      assert events == before + [DoStart] && events[..|events| - 1] == before;
    } else {
      var init := after[..|after| - 1];
      assert events[..|events| - 1] == before + [DoStart] + init;
      RestartSkips(before, init, webm, wav);
      PartialSkips(Run(before + [DoStart] + init, webm, wav), webm, wav);
    }
  }

  lemma PartialSkips(s: Stream, webm: WebmDecoder, wav: WavDecoder)
    ensures Partial(s, webm, wav).skipped == s.skipped
  {
  }

  // ---- What a stream holds ----

  /** The chunks among these events, in order. */
  function Blobs(events: seq<Event>): seq<Blob>
    decreases |events|
  {
    if events == [] then []
    else
      var e := events[|events| - 1];
      Blobs(events[..|events| - 1]) + (if e.DoChunk? then [e.blob] else [])
  }

  /** A stream holds the chunks that have come in since it was started. */
  lemma {:induction false} ChunksSinceStart(before: seq<Event>, after: seq<Event>, webm: WebmDecoder, wav: WavDecoder)
    requires forall i :: 0 <= i < |after| ==> Ongoing(after[i])
    ensures var s := Run(before + [DoStart] + after, webm, wav); s.started && s.chunks == Blobs(after)
    decreases |after|
  {
    hide Partial;
    var events := before + [DoStart] + after;
    if after == [] {
      assert events[..|events| - 1] == before && events[|events| - 1] == DoStart;
    } else {
      var init := after[..|after| - 1];
      assert events[..|events| - 1] == before + [DoStart] + init && events[|events| - 1] == after[|after| - 1];
      ChunksSinceStart(before, init, webm, wav);
      PartialHolds(Run(before + [DoStart] + init, webm, wav), webm, wav);
    }
  }

  lemma PartialHolds(s: Stream, webm: WebmDecoder, wav: WavDecoder)
    ensures var p := Partial(s, webm, wav);
            p.chunks == s.chunks && p.started == s.started && p.preroll == s.preroll
  {
  }

  /** The latest pre-roll counts, until the stream is finalized. */
  lemma {:induction false} LatestPreroll(before: seq<Event>, blob: Blob, after: seq<Event>, webm: WebmDecoder,
                                         wav: WavDecoder)
    requires forall i :: 0 <= i < |after| ==> !after[i].DoPreroll? && !after[i].DoFinalize?
    ensures Run(before + [DoPreroll(blob)] + after, webm, wav).preroll == Some(blob)
    decreases |after|
  {
    hide Partial;
    var events := before + [DoPreroll(blob)] + after;
    if after == [] {
      assert events[..|events| - 1] == before && events[|events| - 1] == DoPreroll(blob);
    } else {
      var init := after[..|after| - 1];
      assert events[..|events| - 1] == before + [DoPreroll(blob)] + init;
      assert events[|events| - 1] == after[|after| - 1];
      LatestPreroll(before, blob, init, webm, wav);
      PartialHolds(Run(before + [DoPreroll(blob)] + init, webm, wav), webm, wav);
    }
  }

  /** A finalized stream is forgotten: what follows goes as if nothing had been before. */
  lemma {:induction false} FinalizeForgets(before: seq<Event>, after: seq<Event>, webm: WebmDecoder, wav: WavDecoder)
    ensures Run(before + [DoFinalize] + after, webm, wav) == Run(after, webm, wav)
    decreases |after|
  {
    hide Step;
    var events := before + [DoFinalize] + after;
    if after == [] {
      assert events[..|events| - 1] == before && events[|events| - 1] == DoFinalize;
      Forgotten(Run(before, webm, wav), webm, wav);
    } else {
      var init := after[..|after| - 1];
      assert events[..|events| - 1] == before + [DoFinalize] + init && events[|events| - 1] == after[|after| - 1];
      FinalizeForgets(before, init, webm, wav);
    }
  }

  lemma Forgotten(s: Stream, webm: WebmDecoder, wav: WavDecoder)
    ensures Step(s, DoFinalize, webm, wav) == Run([], webm, wav)
  {
  }

  // ---- Runs that lose samples ----

  function Silence(n: nat): (s: Samples)
    ensures |s| == n
  {
    seq(n, _ => 0.0)
  }

  function TenThousandBytes(): (b: Blob)
    ensures |b| == 10000
  {
    seq(10000, _ => 0)
  }

  /** A decoder that finds twenty thousand samples in any recording, and one that finds one sample in any pre-roll. */
  function SomeRecording(chunks: seq<Blob>): Option<Samples> { Some(Silence(20000)) }

  function SomePreroll(blob: Blob): Option<Samples> { Some(Silence(1)) }

  const CHUNK: Event := DoChunk(TenThousandBytes())

  lemma RunSnoc(events: seq<Event>, e: Event, webm: WebmDecoder, wav: WavDecoder)
    ensures Run(events + [e], webm, wav) == Step(Run(events, webm, wav), e, webm, wav)
  {
    assert (events + [e])[..|events|] == events;
  }

  lemma OneChunk(b: Blob)
    ensures TotalBytes([b]) == |b|
  {
    assert [b][..0] == [];
  }

  /** A partial on one big chunk, nothing consumed so far. */
  lemma FirstPartial(s: Stream)
    requires s.chunks == [TenThousandBytes()] && s.consumed == 0
    ensures var p := Partial(s, SomeRecording, SomePreroll);
            && p.chunks == s.chunks && 0 < p.consumed < 20001 && p.skipped == s.skipped && p.started == s.started
            && p.lead == (if s.preroll.Some? then Silence(1) else [])
  {
    hide CutSample, TotalBytes, Silence;
    OneChunk(TenThousandBytes());
    var lead := if s.preroll.Some? then Silence(1) else [];
    var added := lead + Silence(20000);
    assert V.From(added, 0) == added;
    CutBounds(added);
  }

  lemma AlwaysExtends(chunks: seq<Blob>)
    ensures Extends(SomeRecording, chunks, Silence(20000))
  {
  }

  const WITH_PREROLL: seq<Event> := [DoStart, DoPreroll([]), CHUNK, DoPartial]

  /** With a pre-roll of one sample, some of the pre-roll and the recording is not heard. */
  lemma PrerollLoses()
    ensures var s := Run(WITH_PREROLL, SomeRecording, SomePreroll);
            && s.lead == Silence(1)
            && Total(s, SomeRecording, SomePreroll) != s.lead + Silence(20000)
  {
    hide Run, Partial, Silence, TenThousandBytes, Total;
    NothingRun();
    RunSnoc([], DoStart, SomeRecording, SomePreroll);
    RunSnoc([DoStart], DoPreroll([]), SomeRecording, SomePreroll);
    RunSnoc([DoStart, DoPreroll([])], CHUNK, SomeRecording, SomePreroll);
    RunSnoc([DoStart, DoPreroll([]), CHUNK], DoPartial, SomeRecording, SomePreroll);
    assert [] + [DoStart] == [DoStart];
    assert [DoStart] + [DoPreroll([])] == [DoStart, DoPreroll([])];
    assert [DoStart, DoPreroll([])] + [CHUNK] == [DoStart, DoPreroll([]), CHUNK];
    assert [DoStart, DoPreroll([]), CHUNK] + [DoPartial] == WITH_PREROLL;
    FirstPartial(Run([DoStart, DoPreroll([]), CHUNK], SomeRecording, SomePreroll));
    AlwaysExtends(Run(WITH_PREROLL, SomeRecording, SomePreroll).chunks);
    ConservedExactly(WITH_PREROLL, SomeRecording, SomePreroll, Silence(20000));
  }

  lemma NothingRun()
    ensures Run([], SomeRecording, SomePreroll) == FRESH
  {
  }

  const RESTARTED: seq<Event> := [DoStart, CHUNK, DoPartial, DoStart, CHUNK]

  /** A stream that is started again without having been finalized loses the beginning of its second recording. */
  lemma RestartLoses()
    ensures var s := Run(RESTARTED, SomeRecording, SomePreroll);
            s.lead == [] && Total(s, SomeRecording, SomePreroll) != Silence(20000)
  {
    hide Run, Partial, Silence, TenThousandBytes, Total;
    NothingRun();
    RunSnoc([], DoStart, SomeRecording, SomePreroll);
    RunSnoc([DoStart], CHUNK, SomeRecording, SomePreroll);
    RunSnoc([DoStart, CHUNK], DoPartial, SomeRecording, SomePreroll);
    RunSnoc([DoStart, CHUNK, DoPartial], DoStart, SomeRecording, SomePreroll);
    RunSnoc([DoStart, CHUNK, DoPartial, DoStart], CHUNK, SomeRecording, SomePreroll);
    assert [] + [DoStart] == [DoStart];
    assert [DoStart] + [CHUNK] == [DoStart, CHUNK];
    assert [DoStart, CHUNK] + [DoPartial] == [DoStart, CHUNK, DoPartial];
    assert [DoStart, CHUNK, DoPartial] + [DoStart] == [DoStart, CHUNK, DoPartial, DoStart];
    assert [DoStart, CHUNK, DoPartial, DoStart] + [CHUNK] == RESTARTED;
    FirstPartial(Run([DoStart, CHUNK], SomeRecording, SomePreroll));
    AlwaysExtends(Run(RESTARTED, SomeRecording, SomePreroll).chunks);
    ConservedExactly(RESTARTED, SomeRecording, SomePreroll, Silence(20000));
    assert [] + Silence(20000) == Silence(20000);
  }

  // ---- The code ----

  class AudioStreams {
    var audioStreams: map<Sid, seq<Blob>>
    var prerolls: map<Sid, Blob>
    var streamConsumed: map<Sid, nat>
    /** Since the last start: what had been consumed before it, the samples of the partial jobs, and the pre-roll put
        in front of the first. */
    ghost var skips: map<Sid, nat>
    ghost var sent: map<Sid, seq<Samples>>
    ghost var leads: map<Sid, Samples>

    ghost function View(sid: Sid): Stream
      reads this
    {
      Stream(sid in audioStreams,
             if sid in audioStreams then audioStreams[sid] else [],
             if sid in prerolls then Some(prerolls[sid]) else None,
             if sid in streamConsumed then streamConsumed[sid] else 0,
             if sid in skips then skips[sid] else 0,
             if sid in sent then sent[sid] else [],
             if sid in leads then leads[sid] else [])
    }

    constructor ()
      ensures forall sid :: View(sid) == FRESH
    {
      audioStreams, prerolls, streamConsumed, skips, sent, leads := map[], map[], map[], map[], map[], map[];
    }

    /** Starts a stream, or starts it again: its chunks are cleared, what was consumed is not. */
    method OnStart(sid: Sid, ghost webm: WebmDecoder, ghost wav: WavDecoder)
      modifies this
      ensures View(sid) == Step(old(View(sid)), DoStart, webm, wav)
      ensures forall t :: t != sid ==> View(t) == old(View(t))
    {
      audioStreams := audioStreams[sid := []];
      skips := skips[sid := if sid in streamConsumed then streamConsumed[sid] else 0];
      sent := sent[sid := []];
      leads := leads[sid := []];
    }

    method OnPreroll(sid: Sid, blob: Blob, ghost webm: WebmDecoder, ghost wav: WavDecoder)
      modifies this
      ensures View(sid) == Step(old(View(sid)), DoPreroll(blob), webm, wav)
      ensures forall t :: t != sid ==> View(t) == old(View(t))
    {
      prerolls := prerolls[sid := blob];
    }

    /** Chunks of streams that were never started are ignored. */
    method OnChunk(sid: Sid, blob: Blob, ghost webm: WebmDecoder, ghost wav: WavDecoder)
      modifies this
      ensures View(sid) == Step(old(View(sid)), DoChunk(blob), webm, wav)
      ensures forall t :: t != sid ==> View(t) == old(View(t))
    {
      if sid in audioStreams {
        audioStreams := audioStreams[sid := audioStreams[sid] + [blob]];
      }
    }

    method DecodeLead(sid: Sid, wav: WavDecoder) returns (lead: Samples)
      ensures lead == Lead(View(sid), wav)
    {
      var consumed := if sid in streamConsumed then streamConsumed[sid] else 0;
      lead := [];
      if consumed == 0 && sid in prerolls {
        var decoded := wav(prerolls[sid]);
        if decoded.Some? {
          lead := decoded.value;
        }
      }
    }

    method QuietCutSample(newPcm: Samples) returns (cut: nat)
      requires |newPcm| > SAMPLE_RATE
      ensures cut == CutSample(newPcm)
    {
      hide Cut;
      var searchStart := V.Max(0, |newPcm| - SAMPLE_RATE * 10);
      cut := FindQuietest(newPcm, searchStart, WINDOW, V.Max(1, WINDOW / 3), |newPcm| - WINDOW);
    }

    method CountBytes(chunks: seq<Blob>) returns (n: nat)
      ensures n == TotalBytes(chunks)
    {
      n := 0;
      var i := 0;
      while i < |chunks|
        invariant 0 <= i <= |chunks| && n == TotalBytes(chunks[..i])
      {
        assert chunks[..i + 1][..i] == chunks[..i];
        n := n + |chunks[i]|;
        i := i + 1;
      }
      assert chunks[..|chunks|] == chunks;
    }

    method OnPartial(sid: Sid, webm: WebmDecoder, wav: WavDecoder)
      modifies this
      ensures View(sid) == Partial(old(View(sid)), webm, wav)
      ensures forall t :: t != sid ==> View(t) == old(View(t))
    {
      hide Take, Lead, TotalBytes;
      if sid !in audioStreams || audioStreams[sid] == [] {
        return;
      }
      var chunks := audioStreams[sid];
      var size := CountBytes(chunks);
      if size <= MIN_BYTES {
        return;
      }
      var decoded := webm(chunks);
      if decoded.None? || |decoded.value| <= MIN_DECODED {
        return;
      }
      var lead := DecodeLead(sid, wav);
      SendPartial(sid, lead, decoded.value);
    }

    /** Sends the new samples up to the cut and counts them as consumed. */
    method SendPartial(sid: Sid, lead: Samples, pcm: Samples)
      modifies `sent, `leads, `streamConsumed
      ensures View(sid) == Take(old(View(sid)), lead, pcm)
      ensures forall t :: t != sid ==> View(t) == old(View(t))
    {
      hide CutSample;
      var consumed := if sid in streamConsumed then streamConsumed[sid] else 0;
      var newPcm := V.From(lead + pcm, consumed);
      if |newPcm| > SAMPLE_RATE {
        var cut := QuietCutSample(newPcm);
        sent := sent[sid := (if sid in sent then sent[sid] else []) + [V.UpTo(newPcm, cut)]];
        if consumed == 0 {
          leads := leads[sid := lead];
        }
        streamConsumed := streamConsumed[sid := consumed + cut];
      }
    }

    method Forget(sid: Sid)
      modifies this
      ensures View(sid) == FRESH
      ensures forall t :: t != sid ==> View(t) == old(View(t))
    {
      audioStreams := audioStreams - {sid};
      prerolls := prerolls - {sid};
      streamConsumed := streamConsumed - {sid};
      skips := skips - {sid};
      sent := sent - {sid};
      leads := leads - {sid};
    }

    /** Ends a stream: all it had is forgotten, and the job for the rest is returned. */
    method OnFinalize(sid: Sid, webm: WebmDecoder, wav: WavDecoder) returns (job: Job)
      modifies this
      ensures job == Finalize(old(View(sid)), webm, wav)
      ensures View(sid) == Step(old(View(sid)), DoFinalize, webm, wav)
      ensures forall t :: t != sid ==> View(t) == old(View(t))
    {
      var chunks := if sid in audioStreams then audioStreams[sid] else [];
      var consumed := if sid in streamConsumed then streamConsumed[sid] else 0;
      var lead := DecodeLead(sid, wav);
      Forget(sid);
      if chunks == [] {
        return Empty;
      }
      var decoded := webm(chunks);
      if decoded.None? || decoded.value == [] {
        return Webm(chunks);
      }
      if consumed > 0 {
        var rest := V.From(decoded.value, consumed);
        return if |rest| < MIN_REMAINDER then Empty else Pcm(rest);
      }
      return if lead != [] then Pcm(lead + decoded.value) else Webm(chunks);
    }
  }
}
