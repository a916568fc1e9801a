/** The two bounded audio accumulators kept for traces. */
module AudioSnippets {
  // One belongs to a live transcription session, the other to a streamed speech synthesis, with the WAV
  // header in front.

  import opened ByteType
  import opened Wrappers

  const MAX_SNIPPET_SECONDS := 30

  // ---------- Float32sToInt16LEBytes ----------

  // Go's conversion of a float to an integer drops the fraction.
  function Truncate(x: real): int {
    if x >= 0.0 then x.Floor else -((-x).Floor)
  }

  function Quantise(sample: real): (v: int)
    ensures -32768 <= v <= 32767
  {
    var v := Truncate(sample * 32767.0);
    if v > 32767 then 32767 else if v < -32768 then -32768 else v
  }

  function EncodeSample(sample: real): (bytes: seq<byte>)
    ensures |bytes| == 2
  {
    var u: int := Quantise(sample) % 0x1_0000;
    var lo: int := u % 256;
    var hi: int := u / 256;
    [lo, hi]
  }

  function Encode(samples: seq<real>): (bytes: seq<byte>)
    ensures |bytes| == 2 * |samples|
  {
    if samples == [] then [] else Encode(samples[..|samples| - 1]) + EncodeSample(samples[|samples| - 1])
  }

  // Reading a 16-bit little-endian two's complement sample back.
  function DecodeSample(bytes: seq<byte>): int
    requires |bytes| == 2
  {
    var lo: int := bytes[0];
    var hi: int := bytes[1];
    var u := lo + 256 * hi;
    if u >= 0x8000 then u - 0x1_0000 else u
  }

  /** Encoding keeps every in-range sample value and saturates the others instead of wrapping. */
  lemma EncodedSampleReadsBack(sample: real)
    ensures DecodeSample(EncodeSample(sample)) == Quantise(sample)
    ensures 0.0 <= sample <= 1.0 ==> Quantise(sample) == (sample * 32767.0).Floor
    ensures -1.0 <= sample < 0.0 ==> Quantise(sample) == -Quantise(-sample)
    ensures sample > 1.0 ==> Quantise(sample) == 32767
    ensures sample < -1.0001 ==> Quantise(sample) == -32768
  {
    var v := Quantise(sample);
    var u := v % 0x1_0000;
    assert u == if v >= 0 then v else v + 0x1_0000;
    assert u % 256 + 256 * (u / 256) == u;
  }

  lemma {:induction false} EncodeOfConcat(a: seq<real>, b: seq<real>)
    ensures Encode(a + b) == Encode(a) + Encode(b)
  {
    if b == [] {
      assert a + b == a;
    } else {
      var front := b[..|b| - 1];
      assert (a + b)[..|a + b| - 1] == a + front;
      EncodeOfConcat(a, front);
    }
  }

  /** The two bytes at 2i are the sample i, for any number of samples. */
  lemma {:induction false} EncodingReadsBack(samples: seq<real>, i: nat)
    requires i < |samples|
    ensures DecodeSample(Encode(samples)[2 * i..2 * i + 2]) == Quantise(samples[i])
  {
    var last := |samples| - 1;
    var front := Encode(samples[..last]);
    if i < last {
      EncodingReadsBack(samples[..last], i);
      assert Encode(samples)[2 * i..2 * i + 2] == front[2 * i..2 * i + 2];
    } else {
      EncodedSampleReadsBack(samples[last]);
      assert Encode(samples)[2 * i..2 * i + 2] == EncodeSample(samples[last]);
    }
  }

  // ---------- Live session trace ----------

  const LIVE_SAMPLE_RATE := 16000
  const LIVE_CAP := MAX_SNIPPET_SECONDS * LIVE_SAMPLE_RATE  // samples

  datatype LiveEvent = LiveEvent(delta: string, eou: bool, eob: bool, finalText: Option<string>)

  datatype LiveState = LiveState(
    pcm: seq<byte>, fedSamples: nat, deltaEvents: nat, eouEvents: nat, eobEvents: nat, finalText: string)

  const LIVE_START := LiveState([], 0, 0, 0, 0, "")

  function Fed(st: LiveState, chunk: seq<real>): LiveState {
    var room := (2 * LIVE_CAP - |st.pcm|) / 2;
    st.(fedSamples := st.fedSamples + |chunk|,
        pcm := if room > 0 then st.pcm + Encode(if |chunk| > room then chunk[..room] else chunk) else st.pcm)
  }

  function Observed(st: LiveState, ev: LiveEvent): LiveState {
    st.(deltaEvents := st.deltaEvents + (if ev.delta != "" then 1 else 0),
        eouEvents := st.eouEvents + (if ev.eou then 1 else 0),
        eobEvents := st.eobEvents + (if ev.eob then 1 else 0),
        finalText := if ev.finalText.Some? then ev.finalText.value else st.finalText)
  }

  class LiveTraceState {
    var pcm: seq<byte>
    var fedSamples: nat
    var deltaEvents: nat
    var eouEvents: nat
    var eobEvents: nat
    var finalText: string

    ghost function View(): LiveState
      reads this
    {
      LiveState(pcm, fedSamples, deltaEvents, eouEvents, eobEvents, finalText)
    }

    constructor ()
      ensures View() == LIVE_START
    {
      pcm, fedSamples, deltaEvents, eouEvents, eobEvents, finalText := [], 0, 0, 0, 0, "";
    }

    method AddPCM(chunk: seq<real>)
      modifies this
      ensures View() == Fed(old(View()), chunk)
    {
      fedSamples := fedSamples + |chunk|;
      var maxBytes := MAX_SNIPPET_SECONDS * LIVE_SAMPLE_RATE * 2;
      var room := (maxBytes - |pcm|) / 2;
      if room > 0 {
        var kept := chunk;
        if |chunk| > room {
          kept := chunk[..room];
        }
        pcm := pcm + Encode(kept);
      }
    }

    method Observe(ev: LiveEvent)
      modifies this
      ensures View() == Observed(old(View()), ev)
    {
      if ev.delta != "" {
        deltaEvents := deltaEvents + 1;
      }
      if ev.eou {
        eouEvents := eouEvents + 1;
      }
      if ev.eob {
        eobEvents := eobEvents + 1;
      }
      if ev.finalText.Some? {
        finalText := ev.finalText.value;
      }
    }
  }

  // Feed and the receive goroutine interleave freely.
  datatype LiveStep = Feed(chunk: seq<real>) | Receive(ev: LiveEvent)

  function LiveRun(steps: seq<LiveStep>): LiveState {
    if steps == [] then LIVE_START
    else
      var st := LiveRun(steps[..|steps| - 1]);
      match steps[|steps| - 1]
      case Feed(chunk) => Fed(st, chunk)
      case Receive(ev) => Observed(st, ev)
  }

  function Audio(steps: seq<LiveStep>): seq<real> {
    if steps == [] then []
    else Audio(steps[..|steps| - 1]) + (if steps[|steps| - 1].Feed? then steps[|steps| - 1].chunk else [])
  }

  function Min(a: nat, b: nat): nat {
    if a < b then a else b
  }

  lemma FedExtends(st: LiveState, all: seq<real>, chunk: seq<real>)
    requires st.pcm == Encode(all[..Min(|all|, LIVE_CAP)]) && st.fedSamples == |all|
    ensures var more := all + chunk;
            Fed(st, chunk).pcm == Encode(more[..Min(|more|, LIVE_CAP)]) && Fed(st, chunk).fedSamples == |more|
  {
    var more, kept := all + chunk, Min(|all|, LIVE_CAP);
    var room := LIVE_CAP - kept;
    if room > 0 {
      var taken := if |chunk| > room then chunk[..room] else chunk;
      assert more[..Min(|more|, LIVE_CAP)] == all[..kept] + taken;
      EncodeOfConcat(all[..kept], taken);
    } else {
      assert more[..Min(|more|, LIVE_CAP)] == all[..kept];
    }
  }

  /** However the audio is chunked and whatever is received meanwhile, the trace holds the encoding of
      exactly the first min(fed, cap) samples, and every sample is counted. */
  lemma {:induction false} LiveSnippetIsPrefix(steps: seq<LiveStep>)
    ensures var st, all := LiveRun(steps), Audio(steps);
            st.pcm == Encode(all[..Min(|all|, 480000)]) && st.fedSamples == |all|
  {
    if steps != [] {
      var front := steps[..|steps| - 1];
      LiveSnippetIsPrefix(front);
      if steps[|steps| - 1].Feed? {
        FedExtends(LiveRun(front), Audio(front), steps[|steps| - 1].chunk);
      } else {
        assert Audio(steps) == Audio(front);
      }
    }
  }

  function Tally(steps: seq<LiveStep>, p: LiveEvent -> bool): nat {
    if steps == [] then 0
    else
      var last := steps[|steps| - 1];
      Tally(steps[..|steps| - 1], p) + (if last.Receive? && p(last.ev) then 1 else 0)
  }

  function LastFinal(steps: seq<LiveStep>): string {
    if steps == [] then ""
    else
      var last := steps[|steps| - 1];
      if last.Receive? && last.ev.finalText.Some? then last.ev.finalText.value else LastFinal(steps[..|steps| - 1])
  }

  /** The counters are the numbers of received events of each kind, and the text is the last final one. */
  lemma {:induction false} LiveCountersAreTallies(steps: seq<LiveStep>)
    ensures var st := LiveRun(steps);
            && st.deltaEvents == Tally(steps, (ev: LiveEvent) => ev.delta != "")
            && st.eouEvents == Tally(steps, (ev: LiveEvent) => ev.eou)
            && st.eobEvents == Tally(steps, (ev: LiveEvent) => ev.eob)
            && st.finalText == LastFinal(steps)
  {
    if steps != [] {
      LiveCountersAreTallies(steps[..|steps| - 1]);
    }
  }

  // ---------- Streamed speech synthesis ----------

  type Error = string

  // A reply of the backend; `rate` is the sample_rate found in its message, if the message is a JSON
  // object that has one.
  datatype TtsReply = TtsReply(message: seq<byte>, rate: Option<nat>, audio: seq<byte>)

  // What the caller's audio callback does with the header and with the audio of one reply.
  datatype Outcome = Outcome(headerErr: Option<Error>, audioErr: Option<Error>)

  // A write to the caller, and whether it succeeded.
  datatype Write = HeaderWrite(rate: nat, ok: bool) | AudioWrite(audio: seq<byte>, ok: bool)

  datatype TtsState = TtsState(
    headerSent: bool, sampleRate: nat, snippetPCM: seq<byte>, totalPCMBytes: nat, snippetCapped: bool,
    callbackErr: Option<Error>, writes: seq<Write>)

  const TTS_START := TtsState(false, 16000, [], 0, false, None, [])

  // The header part; the second component says whether the callback goes on to the audio.
  function AfterHeader(st: TtsState, reply: TtsReply, o: Outcome): (TtsState, bool) {
    if st.headerSent || reply.message == [] then (st, true)
    else
      var rate := if reply.rate.Some? then reply.rate.value else st.sampleRate;
      var st1 := st.(sampleRate := rate, writes := st.writes + [HeaderWrite(rate, o.headerErr.None?)]);
      if o.headerErr.Some? then (st1.(callbackErr := o.headerErr), false) else (st1.(headerSent := true), true)
  }

  // The snippet and its capped flag after the audio of one reply.
  function Collected(snippet: seq<byte>, maxBytes: nat, audio: seq<byte>): (seq<byte>, bool) {
    if |snippet| + |audio| <= maxBytes then (snippet + audio, false)
    else
      var remaining := maxBytes - |snippet|;
      (if remaining > 0 then snippet + audio[..remaining - remaining % 2] else snippet, true)
  }

  // 30 seconds of 16-bit mono audio
  function MaxBytes(sampleRate: nat): nat {
    sampleRate * 2 * MAX_SNIPPET_SECONDS
  }

  function AfterAudio(st: TtsState, audio: seq<byte>, o: Outcome, tracing: bool): TtsState {
    if audio == [] then st
    else
      var (snippet, capped) :=
        if tracing && !st.snippetCapped then Collected(st.snippetPCM, MaxBytes(st.sampleRate), audio)
        else (st.snippetPCM, st.snippetCapped);
      st.(writes := st.writes + [AudioWrite(audio, o.audioErr.None?)],
          callbackErr := if o.audioErr.Some? then o.audioErr else st.callbackErr,
          totalPCMBytes := st.totalPCMBytes + |audio|,
          snippetPCM := snippet,
          snippetCapped := capped)
  }

  function AfterTtsReply(st: TtsState, reply: TtsReply, o: Outcome, tracing: bool): TtsState {
    var (st1, goesOn) := AfterHeader(st, reply, o);
    if goesOn then AfterAudio(st1, reply.audio, o, tracing) else st1
  }

  class TtsStream {
    const tracing: bool
    var headerSent: bool
    var sampleRate: nat
    var snippetPCM: seq<byte>
    var totalPCMBytes: nat
    var snippetCapped: bool
    var callbackErr: Option<Error>
    var writes: seq<Write>

    ghost function View(): TtsState
      reads this
    {
      TtsState(headerSent, sampleRate, snippetPCM, totalPCMBytes, snippetCapped, callbackErr, writes)
    }

    constructor (tracing: bool)
      ensures this.tracing == tracing && View() == TTS_START
    {
      this.tracing := tracing;
      headerSent, sampleRate, snippetPCM, totalPCMBytes := false, 16000, [], 0;
      snippetCapped, callbackErr, writes := false, None, [];
    }

    method OnReply(reply: TtsReply, o: Outcome)
      modifies this
      ensures View() == AfterTtsReply(old(View()), reply, o, tracing)
    {
      if !headerSent && |reply.message| > 0 {
        if reply.rate.Some? {
          sampleRate := reply.rate.value;
        }
        writes := writes + [HeaderWrite(sampleRate, o.headerErr.None?)];
        if o.headerErr.Some? {
          callbackErr := o.headerErr;
          return;
        }
        headerSent := true;
      }
      if |reply.audio| > 0 {
        writes := writes + [AudioWrite(reply.audio, o.audioErr.None?)];
        if o.audioErr.Some? {
          callbackErr := o.audioErr;
        }
        totalPCMBytes := totalPCMBytes + |reply.audio|;
        if tracing && !snippetCapped {
          Collect(reply.audio);
        }
      }
    }

    method Collect(audio: seq<byte>)
      requires !snippetCapped
      modifies `snippetPCM, `snippetCapped
      ensures (snippetPCM, snippetCapped) == Collected(old(snippetPCM), MaxBytes(sampleRate), audio)
    {
      var maxBytes := MaxBytes(sampleRate);
      if |snippetPCM| + |audio| <= maxBytes {
        snippetPCM := snippetPCM + audio;
      } else {
        var remaining := maxBytes - |snippetPCM|;
        if remaining > 0 {
          remaining := remaining - remaining % 2;
          snippetPCM := snippetPCM + audio[..remaining];
        }
        snippetCapped := true;
      }
    }
  }

  function TtsRun(replies: seq<(TtsReply, Outcome)>, tracing: bool): TtsState {
    if replies == [] then TTS_START
    else
      var n := |replies| - 1;
      AfterTtsReply(TtsRun(replies[..n], tracing), replies[n].0, replies[n].1, tracing)
  }

  function Streamed(writes: seq<Write>): seq<byte> {
    if writes == [] then []
    else Streamed(writes[..|writes| - 1]) + (if writes[|writes| - 1].AudioWrite? then writes[|writes| - 1].audio else [])
  }

  function HeadersSent(writes: seq<Write>): nat {
    if writes == [] then 0
    else HeadersSent(writes[..|writes| - 1]) + (if writes[|writes| - 1].HeaderWrite? && writes[|writes| - 1].ok then 1 else 0)
  }

  predicate AnyFailed(writes: seq<Write>) {
    writes != [] && (AnyFailed(writes[..|writes| - 1]) || !writes[|writes| - 1].ok)
  }

  lemma OneMoreWrite(writes: seq<Write>, w: Write)
    ensures Streamed(writes + [w]) == Streamed(writes) + (if w.AudioWrite? then w.audio else [])
    ensures HeadersSent(writes + [w]) == HeadersSent(writes) + (if w.HeaderWrite? && w.ok then 1 else 0)
    ensures AnyFailed(writes + [w]) <==> AnyFailed(writes) || !w.ok
  {
    assert (writes + [w])[..|writes|] == writes;
  }

  ghost predicate TtsValid(st: TtsState, tracing: bool) {
    && st.totalPCMBytes == |Streamed(st.writes)|
    && st.snippetPCM <= Streamed(st.writes)
    && (tracing && !st.snippetCapped ==> st.snippetPCM == Streamed(st.writes))
    && (!tracing ==> st.snippetPCM == [] && !st.snippetCapped)
    && HeadersSent(st.writes) == (if st.headerSent then 1 else 0)
    && (st.callbackErr.Some? <==> AnyFailed(st.writes))
  }

  lemma HeaderKeepsValid(st: TtsState, reply: TtsReply, o: Outcome, tracing: bool)
    requires TtsValid(st, tracing)
    ensures var (st1, goesOn) := AfterHeader(st, reply, o);
            && TtsValid(st1, tracing) && Streamed(st1.writes) == Streamed(st.writes)
            && (st1.headerSent <==> st.headerSent || (reply.message != [] && o.headerErr.None?))
            && (goesOn <==> st.headerSent || reply.message == [] || o.headerErr.None?)
  {
    var rate := if reply.rate.Some? then reply.rate.value else st.sampleRate;
    OneMoreWrite(st.writes, HeaderWrite(rate, o.headerErr.None?));
    assert Streamed(st.writes) + [] == Streamed(st.writes);
  }

  lemma AudioKeepsValid(st: TtsState, audio: seq<byte>, o: Outcome, tracing: bool)
    requires TtsValid(st, tracing)
    ensures var st' := AfterAudio(st, audio, o, tracing);
            && TtsValid(st', tracing)
            && st'.headerSent == st.headerSent && Streamed(st'.writes) == Streamed(st.writes) + audio
  {
    OneMoreWrite(st.writes, AudioWrite(audio, o.audioErr.None?));
  }

  /** Over every stream, with any write failing: the snippet is a prefix of all audio streamed, and all
      of it until the cap is reached; the byte total counts everything; at most one WAV header is ever
      sent successfully; and an error is reported exactly when some write failed. */
  lemma {:induction false} TtsStreamIsValid(replies: seq<(TtsReply, Outcome)>, tracing: bool)
    ensures TtsValid(TtsRun(replies, tracing), tracing)
  {
    if replies != [] {
      var n := |replies| - 1;
      TtsStreamIsValid(replies[..n], tracing);
      var st := TtsRun(replies[..n], tracing);
      HeaderKeepsValid(st, replies[n].0, replies[n].1, tracing);
      AudioKeepsValid(AfterHeader(st, replies[n].0, replies[n].1).0, replies[n].0.audio, replies[n].1, tracing);
    }
  }

  // Some reply has got a header out to the caller.
  predicate HeaderOut(replies: seq<(TtsReply, Outcome)>) {
    replies != [] &&
    var (reply, o) := replies[|replies| - 1];
    HeaderOut(replies[..|replies| - 1]) || (reply.message != [] && o.headerErr.None?)
  }

  // The audio of all replies but those whose attempt to send the header failed.
  function Audible(replies: seq<(TtsReply, Outcome)>): seq<byte> {
    if replies == [] then []
    else
      var front, (reply, o) := replies[..|replies| - 1], replies[|replies| - 1];
      Audible(front) + (if !HeaderOut(front) && reply.message != [] && o.headerErr.Some? then [] else reply.audio)
  }

  lemma ReplyStreams(st: TtsState, reply: TtsReply, o: Outcome, tracing: bool)
    requires TtsValid(st, tracing)
    ensures var st' := AfterTtsReply(st, reply, o, tracing);
            && (st'.headerSent <==> st.headerSent || (reply.message != [] && o.headerErr.None?))
            && Streamed(st'.writes) == Streamed(st.writes) +
                 (if !st.headerSent && reply.message != [] && o.headerErr.Some? then [] else reply.audio)
  {
    var (st1, goesOn) := AfterHeader(st, reply, o);
    HeaderKeepsValid(st, reply, o, tracing);
    if goesOn {
      AudioKeepsValid(st1, reply.audio, o, tracing);
    } else {
      assert AfterTtsReply(st, reply, o, tracing) == st1;
      assert Streamed(st.writes) + [] == Streamed(st.writes);
    }
  }

  lemma {:induction false} StreamedIsAudible(replies: seq<(TtsReply, Outcome)>, tracing: bool)
    ensures TtsRun(replies, tracing).headerSent <==> HeaderOut(replies)
    ensures Streamed(TtsRun(replies, tracing).writes) == Audible(replies)
  {
    if replies != [] {
      var n := |replies| - 1;
      StreamedIsAudible(replies[..n], tracing);
      TtsStreamIsValid(replies[..n], tracing);
      ReplyStreams(TtsRun(replies[..n], tracing), replies[n].0, replies[n].1, tracing);
    }
  }

  // Whether a reply after those attempts to send the header.
  predicate AttemptsHeader(front: seq<(TtsReply, Outcome)>, reply: TtsReply) {
    !HeaderOut(front) && reply.message != []
  }

  // The rate announced last, by a reply that attempts to send the header.
  function LatestRate(replies: seq<(TtsReply, Outcome)>): nat {
    if replies == [] then 16000
    else
      var front, (reply, _) := replies[..|replies| - 1], replies[|replies| - 1];
      if AttemptsHeader(front, reply) && reply.rate.Some? then reply.rate.value else LatestRate(front)
  }

  // The header writes that the replies call for.
  function HeadersDue(replies: seq<(TtsReply, Outcome)>): seq<Write> {
    if replies == [] then []
    else
      var front, (reply, o) := replies[..|replies| - 1], replies[|replies| - 1];
      HeadersDue(front) + (if AttemptsHeader(front, reply) then [HeaderWrite(LatestRate(replies), o.headerErr.None?)] else [])
  }

  // The error of the latest write that failed.
  function LatestError(replies: seq<(TtsReply, Outcome)>): Option<Error> {
    if replies == [] then None
    else
      var front, (reply, o) := replies[..|replies| - 1], replies[|replies| - 1];
      if AttemptsHeader(front, reply) && o.headerErr.Some? then o.headerErr
      else if reply.audio != [] && o.audioErr.Some? then o.audioErr
      else LatestError(front)
  }

  function HeaderWrites(writes: seq<Write>): seq<Write> {
    if writes == [] then []
    else HeaderWrites(writes[..|writes| - 1]) + (if writes[|writes| - 1].HeaderWrite? then [writes[|writes| - 1]] else [])
  }

  lemma ReplyWritesHeader(st: TtsState, reply: TtsReply, o: Outcome, tracing: bool)
    ensures var st' := AfterTtsReply(st, reply, o, tracing);
            var attempts := !st.headerSent && reply.message != [];
            var rate := if attempts && reply.rate.Some? then reply.rate.value else st.sampleRate;
            && st'.sampleRate == rate
            && HeaderWrites(st'.writes)
               == HeaderWrites(st.writes) + (if attempts then [HeaderWrite(rate, o.headerErr.None?)] else [])
            && st'.callbackErr ==
                 if attempts && o.headerErr.Some? then o.headerErr
                 else if reply.audio != [] && o.audioErr.Some? then o.audioErr
                 else st.callbackErr
  {
    var st1 := AfterHeader(st, reply, o).0;
    assert st1.writes != st.writes ==> st1.writes[..|st1.writes| - 1] == st.writes;
    assert (st1.writes + [AudioWrite(reply.audio, o.audioErr.None?)])[..|st1.writes|] == st1.writes;
  }

  /** Every header carries the rate announced last, the default being 16000, each reply attempts one
      exactly as long as none has got out and it has a message, and the error kept is that of the
      latest write that failed. */
  lemma {:induction false} HeadersCarryLatestRate(replies: seq<(TtsReply, Outcome)>, tracing: bool)
    ensures var st := TtsRun(replies, tracing);
            && HeaderWrites(st.writes) == HeadersDue(replies)
            && st.sampleRate == LatestRate(replies)
            && st.callbackErr == LatestError(replies)
  {
    if replies != [] {
      var n := |replies| - 1;
      HeadersCarryLatestRate(replies[..n], tracing);
      StreamedIsAudible(replies[..n], tracing);
      ReplyWritesHeader(TtsRun(replies[..n], tracing), replies[n].0, replies[n].1, tracing);
    }
  }

  /** In terms of the replies: the snippet is a prefix of the audio of all replies but those whose
      header failed, all of it until the cap is reached, and the total is its length. */
  lemma SnippetIsPrefixOfReplies(replies: seq<(TtsReply, Outcome)>, tracing: bool)
    ensures var st := TtsRun(replies, tracing);
            && st.snippetPCM <= Audible(replies)
            && (tracing && !st.snippetCapped ==> st.snippetPCM == Audible(replies))
            && st.totalPCMBytes == |Audible(replies)|
  {
    TtsStreamIsValid(replies, tracing);
    StreamedIsAudible(replies, tracing);
  }

  lemma ReplyKeepsCapped(st: TtsState, reply: TtsReply, o: Outcome, tracing: bool)
    ensures var later := AfterTtsReply(st, reply, o, tracing);
            && (st.snippetCapped ==> later.snippetCapped && later.snippetPCM == st.snippetPCM)
            && (st.headerSent ==> later.headerSent && later.sampleRate == st.sampleRate)
            && st.totalPCMBytes <= later.totalPCMBytes
  {}

  /** Once capped the snippet is frozen for the rest of the stream, once the header is out the sample
      rate is fixed, and the byte total never falls. */
  lemma {:induction false} CappedSnippetIsFrozen(replies: seq<(TtsReply, Outcome)>, more: seq<(TtsReply, Outcome)>, tracing: bool)
    ensures var st, later := TtsRun(replies, tracing), TtsRun(replies + more, tracing);
            && (st.snippetCapped ==> later.snippetCapped && later.snippetPCM == st.snippetPCM)
            && (st.headerSent ==> later.headerSent && later.sampleRate == st.sampleRate)
            && st.totalPCMBytes <= later.totalPCMBytes
  {
    if more == [] {
      assert replies + more == replies;
    } else {
      var n := |more| - 1;
      CappedSnippetIsFrozen(replies, more[..n], tracing);
      assert (replies + more)[..|replies + more| - 1] == replies + more[..n];
      ReplyKeepsCapped(TtsRun(replies + more[..n], tracing), more[n].0, more[n].1, tracing);
    }
  }

  lemma CollectedParity(snippet: seq<byte>, maxBytes: nat, audio: seq<byte>)
    requires Collected(snippet, maxBytes, audio).1
    ensures |Collected(snippet, maxBytes, audio).0| % 2 == |snippet| % 2
  {
    var remaining := maxBytes - |snippet|;
    if remaining > 0 {
      var k := remaining / 2;
      assert remaining - remaining % 2 == 2 * k;
      assert |Collected(snippet, maxBytes, audio).0| == |snippet| + 2 * k;
      assert (|snippet| + 2 * k) % 2 == |snippet| % 2;
    }
  }

  /** The cut at the cap is meant to fall on a sample boundary. It does exactly when an even number of
      bytes was streamed before the reply that reaches the cap, since the code rounds the number of
      bytes still to take and not the total. */
  lemma CapIsAlignedIff(replies: seq<(TtsReply, Outcome)>, last: (TtsReply, Outcome))
    requires !TtsRun(replies, true).snippetCapped && TtsRun(replies + [last], true).snippetCapped
    ensures |TtsRun(replies + [last], true).snippetPCM| % 2 == 0 <==> TtsRun(replies, true).totalPCMBytes % 2 == 0
  {
    TtsStreamIsValid(replies, true);
    assert (replies + [last])[..|replies|] == replies;
    var st1 := AfterHeader(TtsRun(replies, true), last.0, last.1).0;
    CollectedParity(st1.snippetPCM, MaxBytes(st1.sampleRate), last.0.audio);
  }

  /** The reply that reaches the cap fills the snippet up to 30 seconds of 16-bit samples, or to one byte
      less, unless it was longer than that already. */
  lemma CappedSnippetIsFull(replies: seq<(TtsReply, Outcome)>, last: (TtsReply, Outcome))
    requires !TtsRun(replies, true).snippetCapped && TtsRun(replies + [last], true).snippetCapped
    ensures var before, st := TtsRun(replies, true), TtsRun(replies + [last], true);
            if |before.snippetPCM| > 60 * st.sampleRate then st.snippetPCM == before.snippetPCM
            else 60 * st.sampleRate - 1 <= |st.snippetPCM| <= 60 * st.sampleRate
  {
    assert (replies + [last])[..|replies|] == replies;
    var st1 := AfterHeader(TtsRun(replies, true), last.0, last.1).0;
    CollectedIsFull(st1.snippetPCM, MaxBytes(st1.sampleRate), last.0.audio);
  }

  lemma CollectedIsFull(snippet: seq<byte>, maxBytes: nat, audio: seq<byte>)
    requires Collected(snippet, maxBytes, audio).1
    ensures if |snippet| > maxBytes then Collected(snippet, maxBytes, audio).0 == snippet
            else maxBytes - 1 <= |Collected(snippet, maxBytes, audio).0| <= maxBytes
  {}

  // Zero bytes of audio
  function Silence(n: nat): seq<byte> {
    seq(n, i => 0)
  }

  const SENT := Outcome(None, None)

  /** One odd byte first, and then more than fits: the snippet ends in half a sample. */
  lemma OddChunkMisalignsCap()
    ensures var replies := [(TtsReply([], None, Silence(1)), SENT)] + [(TtsReply([], None, Silence(960000)), SENT)];
            TtsRun(replies, true).snippetCapped && |TtsRun(replies, true).snippetPCM| == 959999
  {
    var first, last := (TtsReply([], None, Silence(1)), SENT), (TtsReply([], None, Silence(960000)), SENT);
    assert TtsRun([first], true) == AfterTtsReply(TTS_START, first.0, SENT, true) by {
      assert [first][..0] == [];
    }
    assert ([first] + [last])[..1] == [first];
  }

  // ---------- The cap in seconds ----------

  ghost predicate WithinCap(st: TtsState) {
    |st.snippetPCM| <= MaxBytes(st.sampleRate)
  }

  lemma AudioStaysWithinCapIff(st: TtsState, audio: seq<byte>, o: Outcome, tracing: bool)
    ensures WithinCap(AfterAudio(st, audio, o, tracing)) <==> WithinCap(st)
  {}

  lemma {:induction false} HeaderFixesCap(
    replies: seq<(TtsReply, Outcome)>, more: seq<(TtsReply, Outcome)>, tracing: bool)
    requires TtsRun(replies, tracing).headerSent
    ensures WithinCap(TtsRun(replies + more, tracing)) <==> WithinCap(TtsRun(replies, tracing))
  {
    if more == [] {
      assert replies + more == replies;
    } else {
      var n := |more| - 1;
      var front := more[..n];
      HeaderFixesCap(replies, front, tracing);
      CappedSnippetIsFrozen(replies, front, tracing);
      assert (replies + more)[..|replies + more| - 1] == replies + front;
      AudioStaysWithinCapIff(TtsRun(replies + front, tracing), more[n].0.audio, more[n].1, tracing);
    }
  }

  // What is known before the header from rates and audio lengths alone: the rate in force, the bytes
  // kept, and whether the cap has been reached.
  datatype Gauge = Gauge(rate: nat, kept: nat, capped: bool)

  function Announced(reply: TtsReply, rate: nat): nat {
    if reply.rate.Some? then reply.rate.value else rate
  }

  function Filled(g: Gauge, bytes: nat): Gauge {
    var room := MaxBytes(g.rate) - g.kept;
    if bytes == 0 || g.capped then g
    else if bytes <= room then g.(kept := g.kept + bytes)
    else g.(kept := if room > 0 then g.kept + room - room % 2 else g.kept, capped := true)
  }

  // Every header attempted so far has failed, its rate being taken over all the same.
  function Gathered(replies: seq<(TtsReply, Outcome)>): Gauge {
    if replies == [] then Gauge(16000, 0, false)
    else
      var g, reply := Gathered(replies[..|replies| - 1]), replies[|replies| - 1].0;
      if reply.message != [] then g.(rate := Announced(reply, g.rate)) else Filled(g, |reply.audio|)
  }

  ghost predicate Shows(g: Gauge, st: TtsState) {
    !st.headerSent && st.sampleRate == g.rate && |st.snippetPCM| == g.kept && st.snippetCapped == g.capped
  }

  lemma AudioFills(st: TtsState, g: Gauge, audio: seq<byte>, o: Outcome)
    requires Shows(g, st)
    ensures Shows(Filled(g, |audio|), AfterAudio(st, audio, o, true))
  {}

  lemma {:induction false} GaugeIsRight(replies: seq<(TtsReply, Outcome)>)
    requires !HeaderOut(replies)
    ensures Shows(Gathered(replies), TtsRun(replies, true))
  {
    if replies != [] {
      var n := |replies| - 1;
      GaugeIsRight(replies[..n]);
      AudioFills(TtsRun(replies[..n], true), Gathered(replies[..n]), replies[n].0.audio, replies[n].1);
    }
  }

  /** The cap follows the sample rate, which the header may lower after audio has been gathered at
      another one. From the header on, the snippet stays within 30 seconds exactly if the bytes gathered
      before the header fit into 30 seconds at the announced rate. */
  lemma SnippetWithinCapIff(before: seq<(TtsReply, Outcome)>, header: TtsReply, o: Outcome, more: seq<(TtsReply, Outcome)>)
    requires !HeaderOut(before) && header.message != [] && o.headerErr.None?
    ensures WithinCap(TtsRun(before + [(header, o)] + more, true))
            <==> Gathered(before).kept <= MaxBytes(Announced(header, Gathered(before).rate))
  {
    GaugeIsRight(before);
    var replies, st := before + [(header, o)], TtsRun(before, true);
    assert replies[..|before|] == before;
    AudioStaysWithinCapIff(AfterHeader(st, header, o).0, header.audio, o, true);
    HeaderFixesCap(replies, more, true);
  }

  /** As long as no header has got out, it is within 30 seconds exactly if what has been gathered fits
      into 30 seconds at the rate last announced, a failed header's included. */
  lemma HeaderlessWithinCapIff(replies: seq<(TtsReply, Outcome)>)
    requires !HeaderOut(replies)
    ensures WithinCap(TtsRun(replies, true)) <==> Gathered(replies).kept <= MaxBytes(Gathered(replies).rate)
  {
    GaugeIsRight(replies);
  }

  function AudioBytes(replies: seq<(TtsReply, Outcome)>): nat {
    if replies == [] then 0
    else AudioBytes(replies[..|replies| - 1]) + |replies[|replies| - 1].0.audio|
  }

  ghost predicate WithoutMessages(replies: seq<(TtsReply, Outcome)>) {
    forall i | 0 <= i < |replies| :: replies[i].0.message == []
  }

  lemma {:induction false} GatheredWithoutMessages(replies: seq<(TtsReply, Outcome)>)
    requires WithoutMessages(replies)
    ensures !HeaderOut(replies)
    ensures var g, bytes := Gathered(replies), AudioBytes(replies);
            g.rate == 16000 && if bytes <= 960000 then g == Gauge(16000, bytes, false) else g.capped && 959999 <= g.kept <= 960000
  {
    if replies != [] {
      var n := |replies| - 1;
      assert replies[n].0.message == [];
      assert forall i | 0 <= i < n :: replies[..n][i] == replies[i];
      GatheredWithoutMessages(replies[..n]);
    }
  }

  /** When the first message is the header: the snippet stays within 30 seconds exactly if the audio
      before it is at most 30 seconds at the announced rate, or that rate is not below the default. */
  lemma FirstMessageWithinCapIff(before: seq<(TtsReply, Outcome)>, header: TtsReply, o: Outcome, more: seq<(TtsReply, Outcome)>)
    requires WithoutMessages(before) && header.message != [] && o.headerErr.None?
    ensures var rate := Announced(header, 16000);
            WithinCap(TtsRun(before + [(header, o)] + more, true)) <==> AudioBytes(before) <= MaxBytes(rate) || rate >= 16000
  {
    GatheredWithoutMessages(before);
    SnippetWithinCapIff(before, header, o, more);
  }

  /** A header before all audio keeps the snippet within 30 seconds. */
  lemma HeaderFirstIsWithinCap(header: TtsReply, o: Outcome, more: seq<(TtsReply, Outcome)>)
    requires header.message != [] && o.headerErr.None?
    ensures WithinCap(TtsRun([(header, o)] + more, true))
  {
    FirstMessageWithinCapIff([], header, o, more);
    assert [] + [(header, o)] + more == [(header, o)] + more;
  }

  /** 30 seconds at the default rate and then a header that announces half of it: the snippet stays at
      60 seconds. */
  lemma LateHeaderBreaksCap(message: seq<byte>, more: seq<(TtsReply, Outcome)>)
    requires message != []
    ensures var before := [(TtsReply([], None, Silence(960000)), SENT)];
            !WithinCap(TtsRun(before + [(TtsReply(message, Some(8000), []), SENT)] + more, true))
  {
    var before := [(TtsReply([], None, Silence(960000)), SENT)];
    assert before[..0] == [] && AudioBytes([]) == 0;
    FirstMessageWithinCapIff(before, TtsReply(message, Some(8000), []), SENT, more);
  }
}
