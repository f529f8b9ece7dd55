/** The transmitted audio timeline: two clocks stamp audio frames, the session pins each stamp to one frame
    past the last transmitted one, and the encoder turns stamps into frame ids and RTP timestamps. */
module AudioTimeline {
  import opened Arithmetic
  import opened RtpClock

  /** A captured or synthetic frame; the stamp is in nanoseconds of the steady clock. */
  datatype AudioFrame = AudioFrame(stamp: int, sampleRate: int, samples: int, pcm: seq<int>)

  datatype Encoded = Encoded(frameId: uint32, rtp: uint32, captureTime: int, delayMs: int)

  /** Whole microseconds of a clock reading. */
  function SteadyUs(stamp: int): int { TruncDiv(stamp, 1000) }

  function FrameUs(f: AudioFrame): int {
    TruncDiv(1_000_000 * f.samples, if f.sampleRate > 0 then f.sampleRate else 48_000)
  }

  /** The frame time in whole microseconds, rounded down; a frame without a rate counts as 48 kHz. */
  lemma FrameUsMeans(f: AudioFrame)
    requires f.samples >= 0
    ensures var rate := if f.sampleRate > 0 then f.sampleRate else 48_000;
            FrameUs(f) * rate <= 1_000_000 * f.samples < (FrameUs(f) + 1) * rate
  {
  }

  /** Stamps up to a microsecond past the origin, and any before it, are at tick 0. */
  lemma EarlyStampsAtZero(origin: int, stamp: int, rate: nat)
    requires stamp < origin + 1000
    ensures Ticks(origin, stamp, rate) == 0 && Timestamp(origin, stamp, rate) == 0
  {
    assert CaptureUs(origin, stamp) == 0;
  }

  /** A stamp earlier than one frame past the last transmitted frame is moved there. */
  function Pinned(lastEmitUs: int, f: AudioFrame): int {
    if SteadyUs(f.stamp) < lastEmitUs + FrameUs(f) then (lastEmitUs + FrameUs(f)) * 1000 else f.stamp
  }

  // ---------- The encoder ----------

  class AudioEncoder {
    var created: bool
    var sampleRate: nat
    var playoutDelayMs: int
    var nextFrameId: uint32
    var rtpClockOrigin: int
    var rtpClockOriginSet: bool

    constructor ()
      ensures !created
    {
      created, sampleRate, playoutDelayMs := false, 48_000, 200;
      nextFrameId, rtpClockOrigin, rtpClockOriginSet := 0, 0, false;
    }

    /** `opusReady` is whether the codec could be created. */
    method Initialize(rate: nat, delayMs: int, opusReady: bool) returns (ok: bool)
      modifies this
      ensures ok == created == opusReady && sampleRate == rate && playoutDelayMs == delayMs
      ensures ok ==> nextFrameId == 0 && !rtpClockOriginSet
    {
      sampleRate, playoutDelayMs := rate, delayMs;
      created := opusReady;
      if !created {
        return false;
      }
      nextFrameId := 0;
      rtpClockOriginSet := false;
      ok := true;
    }

    method SetClockOrigin(origin: int)
      modifies this`rtpClockOrigin, this`rtpClockOriginSet
      ensures rtpClockOrigin == origin && rtpClockOriginSet
    {
      rtpClockOrigin := origin;
      rtpClockOriginSet := true;
    }

    /** Encodes one frame; `opusOk` is the codec's answer. A failed encode uses up no frame id. */
    method Encode(f: AudioFrame, opusOk: bool) returns (out: Option<Encoded>)
      modifies this`nextFrameId, this`rtpClockOrigin, this`rtpClockOriginSet
      ensures out.None? <==> !created || f.pcm == [] || !opusOk
      ensures out.None? ==> nextFrameId == old(nextFrameId) && rtpClockOriginSet == old(rtpClockOriginSet) &&
                            rtpClockOrigin == old(rtpClockOrigin)
      ensures out.Some? ==>
                && nextFrameId == ToU32(old(nextFrameId) + 1) && rtpClockOriginSet
                && rtpClockOrigin == (if old(rtpClockOriginSet) then old(rtpClockOrigin) else f.stamp)
                && out.value == Encoded(old(nextFrameId), Timestamp(rtpClockOrigin, f.stamp, sampleRate), f.stamp,
                                        if playoutDelayMs > 0 then playoutDelayMs else 200)
    {
      if !created || f.pcm == [] {
        return None;
      }
      if !opusOk {
        return None;
      }
      var frameId := nextFrameId;
      nextFrameId := ToU32(nextFrameId + 1);
      if !rtpClockOriginSet {
        rtpClockOrigin := f.stamp;
        rtpClockOriginSet := true;
      }
      var captureUs := TruncDiv(f.stamp - rtpClockOrigin, 1000);
      if captureUs < 0 {
        captureUs := 0;
      }
      var rtp := ToU32(captureUs * sampleRate / 1_000_000);
      out := Some(Encoded(frameId, rtp, f.stamp, if playoutDelayMs > 0 then playoutDelayMs else 200));
    }
  }

  // ---------- The session's audio path ----------

  class AudioSession {
    const encoder: AudioEncoder
    var streaming: bool
    var muted: bool
    var lastAudioEmitUs: int
    var playoutDelayMs: int

    ghost function View(): Timeline
      reads this`lastAudioEmitUs, encoder
    {
      Timeline(encoder.nextFrameId, lastAudioEmitUs)
    }

    constructor (encoder: AudioEncoder)
      ensures this.encoder == encoder && !streaming && lastAudioEmitUs == 0
    {
      this.encoder := encoder;
      streaming, muted, lastAudioEmitUs, playoutDelayMs := false, false, 0, 0;
    }

    /** One audio frame to the wire. `opusOk` and `sendOk` are the codec's and the socket's answers. */
    method ProcessAudioFrame(f: AudioFrame, opusOk: bool, sendOk: bool) returns (sent: Option<Encoded>)
      modifies this`lastAudioEmitUs, encoder
      ensures encoder.created == old(encoder.created) && encoder.sampleRate == old(encoder.sampleRate)
      ensures encoder.playoutDelayMs == old(encoder.playoutDelayMs)
      ensures f.samples == 480 && f.sampleRate == 48_000 && old(encoder.nextFrameId) + 1 < TWO32 ==>
                View() == Advance(old(View()),
                                  Attempt(f.stamp, streaming && encoder.created && f.pcm != [] && opusOk, sendOk))
      ensures var encoded := streaming && encoder.created && f.pcm != [] && opusOk;
              var stamp := Pinned(old(lastAudioEmitUs), f);
              && (sent.Some? <==> encoded && sendOk)
              && encoder.nextFrameId ==
                    (if encoded then ToU32(old(encoder.nextFrameId) + 1) else old(encoder.nextFrameId))
              && (old(encoder.rtpClockOriginSet) ==>
                    encoder.rtpClockOriginSet && encoder.rtpClockOrigin == old(encoder.rtpClockOrigin))
              && (sent.None? ==> lastAudioEmitUs == old(lastAudioEmitUs))
              && (sent.Some? ==>
                    && lastAudioEmitUs == SteadyUs(stamp)
                    && sent.value.frameId == old(encoder.nextFrameId) && sent.value.captureTime == stamp
                    && sent.value.rtp == Timestamp(encoder.rtpClockOrigin, stamp, encoder.sampleRate)
                    && sent.value.delayMs == (if playoutDelayMs > 0 then playoutDelayMs
                                              else if encoder.playoutDelayMs > 0 then encoder.playoutDelayMs else 200))
    {
      if !streaming {
        return None;
      }
      var frameUs := TruncDiv(1_000_000 * f.samples, if f.sampleRate > 0 then f.sampleRate else 48_000);
      var minCaptureUs := lastAudioEmitUs + frameUs;
      var stamped := f;
      if SteadyUs(f.stamp) < minCaptureUs {
        stamped := f.(stamp := minCaptureUs * 1000);
      }
      var raw := encoder.Encode(stamped, opusOk);
      if raw.None? {
        return None;
      }
      var out := raw.value;
      if playoutDelayMs > 0 {
        out := out.(delayMs := playoutDelayMs);
      }
      if !sendOk {
        return None;
      }
      lastAudioEmitUs := SteadyUs(out.captureTime);
      sent := Some(out);
    }

    /** A frame from the capture layer; while muted, silence stamped now goes out instead. */
    method OnCapturedFrame(f: AudioFrame, now: int, opusOk: bool, sendOk: bool) returns (sent: Option<Encoded>)
      modifies this`lastAudioEmitUs, encoder
      ensures var g := if muted then Silence(now) else f;
              var encoded := streaming && old(encoder.created) && g.pcm != [] && opusOk;
              && (sent.Some? <==> encoded && sendOk)
              && (g.samples == 480 && g.sampleRate == 48_000 && old(encoder.nextFrameId) + 1 < TWO32 ==>
                    View() == Advance(old(View()), Attempt(g.stamp, encoded, sendOk)))
              && (sent.Some? ==>
                    sent.value.frameId == old(encoder.nextFrameId) &&
                    sent.value.captureTime == Pinned(old(lastAudioEmitUs), g))
    {
      if muted && streaming {
        sent := InjectSilenceAudioFrame(now, opusOk, sendOk);
        return;
      }
      sent := ProcessAudioFrame(f, opusOk, sendOk);
    }

    /** Mute and keepalive: a frame of silence stamped from the wall clock. */
    method InjectSilenceAudioFrame(now: int, opusOk: bool, sendOk: bool) returns (sent: Option<Encoded>)
      modifies this`lastAudioEmitUs, encoder
      ensures var encoded := streaming && old(encoder.created) && opusOk;
              && (sent.Some? <==> encoded && sendOk)
              && (old(encoder.nextFrameId) + 1 < TWO32 ==>
                    View() == Advance(old(View()), Attempt(now, encoded, sendOk)))
              && (sent.Some? ==>
                    sent.value.frameId == old(encoder.nextFrameId) &&
                    sent.value.captureTime == Pinned(old(lastAudioEmitUs), Silence(now)))
    {
      sent := ProcessAudioFrame(Silence(now), opusOk, sendOk);
    }
  }

  function Silence(now: int): AudioFrame { AudioFrame(now, 48_000, 480, seq(960, _ => 0)) }

  // ---------- Whole runs between two negotiations ----------

  /** One frame offered to the audio path, from whichever clock, and what codec and socket answered. */
  datatype Attempt = Attempt(stamp: int, encoded: bool, sent: bool)

  datatype Timeline = Timeline(nextId: nat, lastEmitUs: int)

  /** A transmitted frame: its id and stamp. */
  datatype OnWire = OnWire(id: nat, stamp: int)

  const FRAME_US := 10_000

  function StampOf(t: Timeline, a: Attempt): int { Pinned(t.lastEmitUs, AudioFrame(a.stamp, 48_000, 480, [])) }

  function Advance(t: Timeline, a: Attempt): Timeline {
    Timeline(if a.encoded then t.nextId + 1 else t.nextId,
             if a.encoded && a.sent then SteadyUs(StampOf(t, a)) else t.lastEmitUs)
  }

  function RunAttempts(t: Timeline, attempts: seq<Attempt>): Timeline {
    if attempts == [] then t
    else Advance(RunAttempts(t, attempts[..|attempts| - 1]), attempts[|attempts| - 1])
  }

  function Transmitted(t: Timeline, attempts: seq<Attempt>): seq<OnWire> {
    if attempts == [] then []
    else
      var init, a := attempts[..|attempts| - 1], attempts[|attempts| - 1];
      var s := RunAttempts(t, init);
      Transmitted(t, init) + if a.encoded && a.sent then [OnWire(s.nextId, StampOf(s, a))] else []
  }

  /** Transmitted frames: ids below the next one, stamps up to the last emission, both in step. */
  predicate InStep(t: Timeline, w: seq<OnWire>) {
    && (forall i :: 0 <= i < |w| ==>
          w[i].id < t.nextId && SteadyUs(w[i].stamp) + (|w| - 1 - i) * FRAME_US <= t.lastEmitUs)
    && (forall i, j :: 0 <= i < j < |w| ==>
          w[i].id < w[j].id && SteadyUs(w[j].stamp) >= SteadyUs(w[i].stamp) + (j - i) * FRAME_US)
  }

  lemma {:induction false} RunInStep(t: Timeline, attempts: seq<Attempt>)
    ensures InStep(RunAttempts(t, attempts), Transmitted(t, attempts))
  {
    if attempts != [] {
      hide SteadyUs;
      var init, a := attempts[..|attempts| - 1], attempts[|attempts| - 1];
      RunInStep(t, init);
      PinnedAhead(RunAttempts(t, init), a);
    }
  }

  lemma PinnedAhead(t: Timeline, a: Attempt)
    ensures SteadyUs(StampOf(t, a)) >= t.lastEmitUs + FRAME_US && StampOf(t, a) >= a.stamp
  {
  }

  lemma {:induction false} TransmittedFrom(t: Timeline, attempts: seq<Attempt>, origin: int)
    requires From(attempts, origin)
    ensures forall x :: x in Transmitted(t, attempts) ==> x.stamp >= origin
  {
    if attempts != [] {
      var init, a := attempts[..|attempts| - 1], attempts[|attempts| - 1];
      assert a in attempts && forall x :: x in init ==> x in attempts;
      TransmittedFrom(t, init, origin);
      PinnedAhead(RunAttempts(t, init), a);
    }
  }

  /** Stamps at or after the clock origin, in nanoseconds. */
  ghost predicate From(attempts: seq<Attempt>, origin: int) { forall a :: a in attempts ==> a.stamp >= origin }

  /** The audio timeline on the wire: for any interleaving of captured, muted, idle and keepalive frames stamped
      at or after the clock origin, itself not before the clock's epoch, transmitted frames have strictly
      increasing ids, and frames `n` apart are at least `480 n` RTP ticks apart, or one tick less when the origin
      is not a whole microsecond. */
  lemma WireTimeline(t: Timeline, attempts: seq<Attempt>, origin: int, i: nat, j: nat)
    requires origin >= 0 && From(attempts, origin) && i < j < |Transmitted(t, attempts)|
    ensures var w := Transmitted(t, attempts);
            && w[i].id < w[j].id
            && Ticks(origin, w[j].stamp, 48_000) >= Ticks(origin, w[i].stamp, 48_000) + 480 * (j - i) - 1
            && (origin % 1000 == 0 ==>
                  Ticks(origin, w[j].stamp, 48_000) >= Ticks(origin, w[i].stamp, 48_000) + 480 * (j - i))
  {
    hide Ticks;
    var w := Transmitted(t, attempts);
    RunInStep(t, attempts);
    TransmittedFrom(t, attempts, origin);
    assert w[i] in w && w[j] in w;
    TicksApart(origin, w[i].stamp, w[j].stamp, j - i);
  }

  // ---------- Exactly which stamps ----------

  /** The stamps the transmitted frames of a run were offered with. */
  function Offered(attempts: seq<Attempt>): seq<int> {
    if attempts == [] then []
    else
      var a := attempts[|attempts| - 1];
      Offered(attempts[..|attempts| - 1]) + if a.encoded && a.sent then [a.stamp] else []
  }

  /** What pushes transmitted frame `j` back: the run's start, or an offered stamp no later than its own. */
  function Pushed(t: Timeline, o: seq<int>, i: int, j: nat): int
    requires -1 <= i <= j < |o|
  {
    if i < 0 then t.lastEmitUs + (j + 1) * FRAME_US else SteadyUs(o[i]) + (j - i) * FRAME_US
  }

  /** Frame `j` goes out at the latest of all these, and at none later. */
  ghost predicate Latest(t: Timeline, w: seq<OnWire>, o: seq<int>, j: nat)
    requires j < |o| == |w|
  {
    && (forall i :: -1 <= i <= j ==> SteadyUs(w[j].stamp) >= Pushed(t, o, i, j))
    && exists i :: -1 <= i <= j && SteadyUs(w[j].stamp) == Pushed(t, o, i, j)
  }

  lemma PinnedStamp(t: Timeline, a: Attempt)
    ensures SteadyUs(StampOf(t, a)) == Max(SteadyUs(a.stamp), t.lastEmitUs + FRAME_US)
    ensures SteadyUs(a.stamp) >= t.lastEmitUs + FRAME_US ==> StampOf(t, a) == a.stamp
  {
  }

  lemma {:induction false} LastEmission(t: Timeline, attempts: seq<Attempt>)
    ensures var w := Transmitted(t, attempts);
            && |w| == |Offered(attempts)|
            && RunAttempts(t, attempts).lastEmitUs == if w == [] then t.lastEmitUs else SteadyUs(w[|w| - 1].stamp)
  {
    hide StampOf, SteadyUs;
    if attempts != [] { LastEmission(t, attempts[..|attempts| - 1]); }
  }

  /** One frame more, from the closed form of the one before it. */
  lemma LatestExtends(t: Timeline, w: seq<OnWire>, o: seq<int>, us: int, stamp: int, x: OnWire)
    requires |w| == |o| && (w != [] ==> Latest(t, w, o, |w| - 1))
    requires us == if w == [] then t.lastEmitUs else SteadyUs(w[|w| - 1].stamp)
    requires SteadyUs(x.stamp) == Max(SteadyUs(stamp), us + FRAME_US)
    ensures Latest(t, w + [x], o + [stamp], |w|)
  {
    hide SteadyUs;
    var w', o', n := w + [x], o + [stamp], |w|;
    assert Pushed(t, o', n, n) == SteadyUs(stamp);
    if w == [] {
      assert Pushed(t, o', -1, n) == us + FRAME_US;
    } else {
      forall i | -1 <= i < n ensures Pushed(t, o', i, n) == Pushed(t, o, i, n - 1) + FRAME_US {
        assert i >= 0 ==> o'[i] == o[i];
      }
      var i :| -1 <= i <= n - 1 && SteadyUs(w[n - 1].stamp) == Pushed(t, o, i, n - 1);
      assert Pushed(t, o', i, n) == us + FRAME_US;
    }
  }

  lemma LatestKept(t: Timeline, w: seq<OnWire>, o: seq<int>, more: OnWire, stamp: int, j: nat)
    requires j < |o| == |w| && Latest(t, w, o, j)
    ensures Latest(t, w + [more], o + [stamp], j)
  {
    hide SteadyUs;
    forall i | -1 <= i <= j ensures Pushed(t, o + [stamp], i, j) == Pushed(t, o, i, j) {
      assert i >= 0 ==> (o + [stamp])[i] == o[i];
    }
    var i :| -1 <= i <= j && SteadyUs(w[j].stamp) == Pushed(t, o, i, j);
    assert SteadyUs((w + [more])[j].stamp) == Pushed(t, o + [stamp], i, j);
  }

  lemma NoAttempts(t: Timeline)
    ensures Transmitted(t, []) == [] && Offered([]) == [] && RunAttempts(t, []) == t
  {
  }

  lemma LastAttempt(t: Timeline, attempts: seq<Attempt>)
    requires attempts != []
    ensures var init, a := attempts[..|attempts| - 1], attempts[|attempts| - 1];
            var s := RunAttempts(t, init);
            && RunAttempts(t, attempts) == Advance(s, a)
            && if a.encoded && a.sent then
                 && Transmitted(t, attempts) == Transmitted(t, init) + [OnWire(s.nextId, StampOf(s, a))]
                 && Offered(attempts) == Offered(init) + [a.stamp]
               else Transmitted(t, attempts) == Transmitted(t, init) && Offered(attempts) == Offered(init)
  {
    hide StampOf, Advance;
  }

  /** The stamps of a run in closed form: frame `j` goes out at the latest of `j + 1` frame times past the last emission
      before the run and of every offered stamp up to its own, moved on by the frames since. */
  lemma {:induction false} TransmittedStamps(t: Timeline, attempts: seq<Attempt>, j: nat)
    requires j < |Transmitted(t, attempts)|
    ensures |Offered(attempts)| == |Transmitted(t, attempts)|
    ensures Latest(t, Transmitted(t, attempts), Offered(attempts), j)
  {
    LastAttempt(t, attempts);
    NoAttempts(t);
    hide SteadyUs, StampOf, Latest, Transmitted, Offered, RunAttempts, Advance;
    var init, a := attempts[..|attempts| - 1], attempts[|attempts| - 1];
    var w, o, s := Transmitted(t, init), Offered(init), RunAttempts(t, init);
    LastEmission(t, init);
    LastEmission(t, attempts);
    if j < |w| { TransmittedStamps(t, init, j); }
    if a.encoded && a.sent {
      var x := OnWire(s.nextId, StampOf(s, a));
      PinnedStamp(s, a);
      assert Transmitted(t, attempts) == w + [x] && Offered(attempts) == o + [a.stamp];
      if j < |w| {
        LatestKept(t, w, o, x, a.stamp, j);
      } else {
        if w != [] { TransmittedStamps(t, init, |w| - 1); }
        LatestExtends(t, w, o, s.lastEmitUs, a.stamp, x);
      }
    }
  }

  /** Offered stamps a frame or more apart, the first one past the last emission. */
  ghost predicate OnTime(t: Timeline, o: seq<int>) { forall j :: 0 <= j < |o| ==> Spaced(t, o, j) }

  predicate Spaced(t: Timeline, o: seq<int>, j: nat)
    requires j < |o|
  {
    SteadyUs(o[j]) >= (if j == 0 then t.lastEmitUs else SteadyUs(o[j - 1])) + FRAME_US
  }

  /** A run offered on time is transmitted with exactly its own stamps, to the nanosecond, and when nothing fails its
      frames are numbered on from the next id. */
  lemma {:induction false} OnTimeKeepsStamps(t: Timeline, attempts: seq<Attempt>)
    requires OnTime(t, Offered(attempts))
    ensures var w, o := Transmitted(t, attempts), Offered(attempts);
            && |w| == |o| && (forall j :: 0 <= j < |w| ==> w[j].stamp == o[j])
            && ((forall a :: a in attempts ==> a.encoded && a.sent) ==>
                  && |w| == |attempts| && RunAttempts(t, attempts).nextId == t.nextId + |attempts|
                  && forall j :: 0 <= j < |w| ==> w[j].id == t.nextId + j)
  {
    hide SteadyUs, StampOf, Transmitted, Offered, RunAttempts, OnTime;
    LastEmission(t, attempts);
    if attempts == [] {
      NoAttempts(t);
    } else {
      var init, a := attempts[..|attempts| - 1], attempts[|attempts| - 1];
      var s, o := RunAttempts(t, init), Offered(init);
      assert a in attempts && forall x :: x in init ==> x in attempts;
      LastAttempt(t, attempts);
      LastEmission(t, init);
      PinnedStamp(s, a);
      if a.encoded && a.sent { OnTimePrefix(t, o, a.stamp); }
      OnTimeKeepsStamps(t, init);
    }
  }

  lemma OnTimePrefix(t: Timeline, o: seq<int>, stamp: int)
    requires OnTime(t, o + [stamp])
    ensures OnTime(t, o)
    ensures SteadyUs(stamp) >= (if o == [] then t.lastEmitUs else SteadyUs(o[|o| - 1])) + FRAME_US
  {
    hide SteadyUs;
    var p := o + [stamp];
    assert Spaced(t, p, |o|);
    forall j | 0 <= j < |o| ensures Spaced(t, o, j) {
      assert Spaced(t, p, j);
      assert p[j] == o[j] && (j > 0 ==> p[j - 1] == o[j - 1]);
    }
  }

  /** No two transmitted frames of a run are closer than whole frames. */
  ghost predicate WholeFramesApart(t: Timeline, attempts: seq<Attempt>, origin: int) {
    var w := Transmitted(t, attempts);
    forall i, j :: 0 <= i < j < |w| ==>
      Ticks(origin, w[j].stamp, 48_000) >= Ticks(origin, w[i].stamp, 48_000) + 480 * (j - i)
  }

  /** Over every run frames stay 480 ticks apart exactly when the clock origin is a whole microsecond; the stamps
      may carry any nanoseconds. */
  lemma WholeFramesApartIff(origin: int)
    requires origin >= 0
    ensures (forall t, attempts :: From(attempts, origin) ==> WholeFramesApart(t, attempts, origin)) <==>
              origin % 1000 == 0
  {
    hide Ticks, Transmitted;
    if origin % 1000 == 0 {
      forall t, attempts | From(attempts, origin) ensures WholeFramesApart(t, attempts, origin) {
        var w := Transmitted(t, attempts);
        forall i: nat, j: nat | i < j < |w|
          ensures Ticks(origin, w[j].stamp, 48_000) >= Ticks(origin, w[i].stamp, 48_000) + 480 * (j - i)
        {
          WireTimeline(t, attempts, origin, i, j);
        }
      }
    } else {
      OneTickShort(origin);
      var w := Transmitted(Timeline(0, 0), ShortRun(origin));
      assert Ticks(origin, w[1].stamp, 48_000) < Ticks(origin, w[0].stamp, 48_000) + 480 * (1 - 0);
      assert !WholeFramesApart(Timeline(0, 0), ShortRun(origin), origin);
    }
  }

  /** One frame offered twice, 125 ms and almost a microsecond after the origin's whole microsecond. */
  function ShortRun(origin: nat): seq<Attempt> {
    var a := Attempt(origin / 1000 * 1000 + 125_000_999, true, true);
    [a, a]
  }

  /** The pin drops the part of a stamp below a microsecond, and for any origin that has such a part two frames of
      a session come out 479 ticks apart. */
  lemma OneTickShort(origin: nat)
    requires origin % 1000 != 0
    ensures From(ShortRun(origin), origin)
    ensures var w := Transmitted(Timeline(0, 0), ShortRun(origin));
            |w| == 2 && Ticks(origin, w[1].stamp, 48_000) == Ticks(origin, w[0].stamp, 48_000) + 479
  {
    hide Ticks, StampOf;
    var us, r := origin / 1000, origin % 1000;
    var a, t := Attempt(us * 1000 + 125_000_999, true, true), Timeline(0, 0);
    assert [a, a][..1] == [a] && [a][..0] == [];
    ShortStamps(us, a);
    assert RunAttempts(t, [a]) == Advance(RunAttempts(t, []), a);
    assert Transmitted(t, [a]) == Transmitted(t, []) + [OnWire(0, a.stamp)];
    assert Transmitted(t, [a, a]) == Transmitted(t, [a]) + [OnWire(1, (us + 135_000) * 1000)];
    ShortTicks(us, r);
    assert origin == us * 1000 + r;
  }

  lemma ShortStamps(us: nat, a: Attempt)
    requires a.stamp == us * 1000 + 125_000_999
    ensures StampOf(Timeline(0, 0), a) == a.stamp && SteadyUs(a.stamp) == us + 125_000
    ensures StampOf(Timeline(1, us + 125_000), a) == (us + 135_000) * 1000
  {
  }

  lemma ShortTicks(us: nat, r: nat)
    requires 0 < r < 1000
    ensures Ticks(us * 1000 + r, us * 1000 + 125_000_999, 48_000) == 6000
    ensures Ticks(us * 1000 + r, (us + 135_000) * 1000, 48_000) == 6479
  {
    assert CaptureUs(us * 1000 + r, us * 1000 + 125_000_999) == 125_000;
    assert CaptureUs(us * 1000 + r, (us + 135_000) * 1000) == 134_999;
  }

  lemma TicksApart(origin: int, a: int, b: int, n: nat)
    requires 0 <= origin <= a && origin <= b && SteadyUs(b) >= SteadyUs(a) + n * FRAME_US
    ensures Ticks(origin, b, 48_000) >= Ticks(origin, a, 48_000) + 480 * n - 1
    ensures origin % 1000 == 0 ==> Ticks(origin, b, 48_000) >= Ticks(origin, a, 48_000) + 480 * n
  {
    hide CaptureUs, SteadyUs;
    MicrosecondsApart(origin, a, b, n);
    TicksOfMicroseconds(CaptureUs(origin, a), CaptureUs(origin, b), n);
  }

  lemma MicrosecondsApart(origin: int, a: int, b: int, n: nat)
    requires 0 <= origin <= a && origin <= b && SteadyUs(b) >= SteadyUs(a) + n * FRAME_US
    ensures CaptureUs(origin, b) >= CaptureUs(origin, a) + n * FRAME_US - 1
    ensures origin % 1000 == 0 ==> CaptureUs(origin, b) >= CaptureUs(origin, a) + n * FRAME_US
  {
  }

  lemma TicksOfMicroseconds(a: nat, b: nat, n: nat)
    ensures b >= a + n * FRAME_US - 1 ==> b * 48_000 / 1_000_000 >= a * 48_000 / 1_000_000 + 480 * n - 1
    ensures b >= a + n * FRAME_US ==> b * 48_000 / 1_000_000 >= a * 48_000 / 1_000_000 + 480 * n
  {
    var ticks := a * 48_000 / 1_000_000;
    if b >= a + n * FRAME_US { TicksAtLeast(b * 48_000, ticks + 480 * n); }
    if b >= a + n * FRAME_US - 1 { TicksAtLeast(b * 48_000, ticks + 480 * n - 1); }
  }

  lemma TicksAtLeast(scaled: int, ticks: int)
    requires ticks * 1_000_000 <= scaled
    ensures scaled / 1_000_000 >= ticks
  {
  }
}
