/** The adaptive controller: an eight-rung quality ladder driven by receiver feedback.

    `State` is the controller's whole state as a value and `Evaluate`, `Absorb`, ... are its
    transition functions; the class at the end keeps the same state in fields and is proved to
    take exactly these transitions. Times are nanoseconds of the steady clock. */
module Adaptive {
  import opened Arithmetic

  const MIN_PLAYOUT_DELAY_MS := 150
  const MAX_PLAYOUT_DELAY_MS := 400
  const DEFAULT_PLAYOUT_DELAY_MS := 200
  const RTT_TREND_MIN_RISE_MS := 3.0
  const RTT_TREND_TICKS := 3
  const STABILITY_CAP_CLEAN_TICKS := 10
  const RAMP_UP_CLEAN_TICKS := 8
  const STABILITY_CEILING_KBPS := 8000

  // Times are nanoseconds.
  const TEN_S := 10_000_000_000
  const FIFTEEN_S := 15_000_000_000

  datatype Rung = Rung(width: int, height: int, framerate: int, bitrateKbps: uint32)

  type RungIndex = i: int | 0 <= i < 8

  function Ladder(i: RungIndex): Rung {
    match i
    case 0 => Rung(3840, 2160, 60, 25000)
    case 1 => Rung(3840, 2160, 30, 16000)
    case 2 => Rung(2560, 1440, 60, 12000)
    case 3 => Rung(1920, 1080, 60, 8000)
    case 4 => Rung(1920, 1080, 30, 5000)
    case 5 => Rung(1280, 720, 60, 3500)
    case 6 => Rung(1280, 720, 30, 2000)
    case 7 => Rung(960, 540, 30, 1200)
  }

  const FLOOR_RUNG: RungIndex := 7

  datatype Nack = Nack(frameId: uint32, packetId: uint16)

  /** The part of a parsed RTCP packet that the controller reads. */
  datatype Feedback = Feedback(hasRtt: bool, rttMs: real, jitter: uint32, hasReportBlock: bool,
                               fractionLost: real, nacks: seq<Nack>, pli: bool)

  /** What arrived since the last evaluation. */
  datatype Window = Window(loss: real, rtt: real, jitter: real, nackKeys: set<int>, pli: bool, arrived: bool)

  const EMPTY_WINDOW := Window(0.0, 0.0, 0.0, {}, false, false)

  datatype Ewma = Ewma(rtt: real, jitter: real, initialized: bool)

  const UNSET_EWMA := Ewma(0.0, 0.0, false)

  /** The settings the encoder is to use. */
  datatype Quality = Quality(width: int, height: int, framerate: int, bitrateKbps: uint32, delayMs: int)

  datatype Limits = Limits(maxWidth: int, maxHeight: int, initialFps: int)

  /** The user's cap, the bitrate to hold on a clean link, and the ceiling congestion imposed; 0 means none. */
  datatype Caps = Caps(user: uint32, target: uint32, stability: uint32)

  /** Evaluation counters. */
  datatype Ticks = Ticks(loss: int, clean: int, cleanDelay: int, rising: int, stability: int)

  datatype Clocks = Clocks(lastEval: int, lastDownshift: int, lastFloorWarning: int)

  datatype State = State(
    rung: RungIndex,
    quality: Quality,
    limits: Limits,
    enabled: bool,
    allowResolution: bool,
    evalMs: int,
    caps: Caps,
    window: Window,
    ewma: Ewma,
    ticks: Ticks,
    lastRtt: real,
    clocks: Clocks)

  /** Whole milliseconds from `since` to `now`, truncated as `duration_cast` truncates. */
  function ElapsedMs(since: int, now: int): int {
    if now >= since then (now - since) / 1_000_000 else -((since - now) / 1_000_000)
  }

  function ElapsedS(since: int, now: int): int {
    if now >= since then (now - since) / 1_000_000_000 else -((since - now) / 1_000_000_000)
  }

  // ---------- Caps ----------

  /** The bitrate after the user cap and the congestion ceiling; 0 means no cap. */
  function ApplyCaps(bitrate: uint32, caps: Caps): uint32 {
    var cap: int := if caps.stability == 0 then caps.user
                    else if caps.user == 0 then caps.stability
                    else Min(caps.user, caps.stability);
    if cap > 0 && bitrate > cap then cap else bitrate
  }

  function SetCap(s: State, kbps: uint32): State {
    s.(caps := s.caps.(user := kbps, target := kbps),
       quality := s.quality.(bitrateKbps := if kbps > 0 && s.quality.bitrateKbps > kbps then kbps
                                            else s.quality.bitrateKbps))
  }

  // ---------- Choosing a rung ----------

  predicate FitsLimits(r: Rung, l: Limits) {
    r.width <= l.maxWidth && r.height <= l.maxHeight && r.framerate <= l.initialFps
  }

  predicate FitsBitrate(i: RungIndex, l: Limits, kbps: uint32) {
    Ladder(i).bitrateKbps <= kbps && FitsLimits(Ladder(i), l)
  }

  /** The best rung for a bitrate at or below `i`, the floor when none fits. */
  function RungForBitrateFrom(i: RungIndex, l: Limits, kbps: uint32): (best: RungIndex)
    ensures i <= best
    ensures best < FLOOR_RUNG ==>
              && Ladder(best).bitrateKbps <= kbps && Ladder(best).width <= l.maxWidth
              && Ladder(best).height <= l.maxHeight && Ladder(best).framerate <= l.initialFps
    ensures forall k: RungIndex :: i <= k < best ==>
              || Ladder(k).bitrateKbps > kbps || Ladder(k).width > l.maxWidth
              || Ladder(k).height > l.maxHeight || Ladder(k).framerate > l.initialFps
    ensures FitsBitrate(best, l, kbps) ||
            (best == FLOOR_RUNG && forall k: RungIndex :: i <= k ==> !FitsBitrate(k, l, kbps))
    ensures forall k: RungIndex :: i <= k < best ==> !FitsBitrate(k, l, kbps)
    decreases FLOOR_RUNG - i
  {
    if FitsBitrate(i, l, kbps) || i == FLOOR_RUNG then i else RungForBitrateFrom(i + 1, l, kbps)
  }

  function ResetRung(s: State, kbps: uint32, now: int): State {
    var best := RungForBitrateFrom(0, s.limits, kbps);
    s.(rung := best, quality := s.quality.(bitrateKbps := Ladder(best).bitrateKbps),
       caps := s.caps.(stability := 0), ticks := s.ticks.(loss := 0, clean := 0),
       clocks := s.clocks.(lastDownshift := now - TEN_S))
  }

  /** What a live bitrate change does to the controller: the new cap, then the rung for it. */
  function SetLive(s: State, kbps: uint32, now: int): State {
    ResetRung(SetCap(s, kbps), kbps, now)
  }

  /** The settings a session starts from. */
  datatype Start = Start(width: int, height: int, framerate: int, bitrateKbps: uint32, delayMs: int)

  predicate FitsStart(i: RungIndex, t: Start) {
    Ladder(i).width <= t.width && Ladder(i).framerate <= t.framerate && Ladder(i).bitrateKbps <= t.bitrateKbps
  }

  /** The first rung that fits a start; 1080p60 when none does. */
  function StartRungFrom(i: RungIndex, t: Start): (r: RungIndex)
    ensures (FitsStart(r, t) && i <= r) || r == 3
    ensures FitsStart(r, t) <==>
              && Ladder(r).width <= t.width && Ladder(r).framerate <= t.framerate
              && Ladder(r).bitrateKbps <= t.bitrateKbps
    ensures (exists k: RungIndex :: i <= k && FitsStart(k, t)) ==> FitsStart(r, t)
    ensures FitsStart(r, t) && i <= r ==> forall k: RungIndex :: i <= k < r ==> !FitsStart(k, t)
    decreases FLOOR_RUNG - i
  {
    if FitsStart(i, t) then i else if i == FLOOR_RUNG then 3 else StartRungFrom(i + 1, t)
  }

  /** The frame size and rate of a rung within the initial limits. */
  function AtRung(q: Quality, rung: RungIndex, l: Limits): Quality {
    q.(width := Even(Min(Ladder(rung).width, l.maxWidth)),
       height := Even(Min(Ladder(rung).height, l.maxHeight)),
       framerate := Min(Ladder(rung).framerate, l.initialFps))
  }

  function Initialized(s: State, t: Start, now: int): State {
    var limits := Limits(t.width, t.height, if t.framerate > 0 then t.framerate else 60);
    var rung := StartRungFrom(0, t);
    var delay := if t.delayMs > 0 then Clamp(t.delayMs, MIN_PLAYOUT_DELAY_MS, MAX_PLAYOUT_DELAY_MS)
                 else DEFAULT_PLAYOUT_DELAY_MS;
    State(rung, AtRung(Quality(0, 0, 0, t.bitrateKbps, delay), rung, limits), limits,
          s.enabled, s.allowResolution, s.evalMs, Caps(t.bitrateKbps, t.bitrateKbps, 0), EMPTY_WINDOW, UNSET_EWMA,
          Ticks(0, 0, 0, 0, s.ticks.stability), 0.0, Clocks(now, now - TEN_S, 0))
  }

  // ---------- Feedback ----------

  /** One smoothing step: round trip 0.8/0.2, jitter 0.9/0.1, with |sample - average| standing
      in for a jitter the receiver did not report. */
  function Smooth(e: Ewma, rttMs: real, jitter: real): Ewma {
    if !e.initialized then Ewma(rttMs, jitter, true)
    else
      var sample := if jitter > 0.0 then jitter else AbsR(rttMs - e.rtt);
      Ewma(0.8 * e.rtt + 0.2 * rttMs, 0.9 * e.jitter + 0.1 * sample, true)
  }

  function NackKey(n: Nack): int { n.frameId * 0x1_0000 + n.packetId }

  function NackKeys(nacks: seq<Nack>): set<int> { set n | n in nacks :: NackKey(n) }

  function Absorb(s: State, fb: Feedback): State {
    var ewma := if fb.hasRtt then Smooth(s.ewma, fb.rttMs, fb.jitter as real) else s.ewma;
    s.(ewma := ewma,
       window := Window(if fb.hasReportBlock then fb.fractionLost else s.window.loss,
                        if fb.hasRtt then ewma.rtt else s.window.rtt,
                        if fb.hasRtt then ewma.jitter else s.window.jitter,
                        s.window.nackKeys + NackKeys(fb.nacks),
                        s.window.pli || fb.pli,
                        true))
  }

  function ResetWindow(s: State, now: int): State {
    s.(window := EMPTY_WINDOW, ewma := UNSET_EWMA, ticks := Ticks(0, 0, 0, 0, s.ticks.stability), lastRtt := 0.0,
       clocks := s.clocks.(lastEval := now))
  }

  // ---------- Playout delay ----------

  function SetDelay(s: State, delayMs: int): State {
    s.(quality := s.quality.(delayMs := Clamp(delayMs, MIN_PLAYOUT_DELAY_MS, MAX_PLAYOUT_DELAY_MS)))
  }

  function DelayUp(d: int): int { if d < 200 then 200 else if d < 300 then 300 else 400 }

  function DelayDown(d: int): int { if d > 300 then 300 else if d > 200 then 200 else 150 }

  predicate NackPressure(w: Window) {
    (w.loss > 0.01 && |w.nackKeys| >= (if w.jitter > 30.0 then 6 else 4)) || |w.nackKeys| >= 50
  }

  predicate SevereFeedback(w: Window) {
    (w.loss > 0.03 && |w.nackKeys| >= (if w.jitter > 30.0 then 10 else 8)) || |w.nackKeys| >= 50 || w.pli
  }

  predicate DelayDegraded(s: State, w: Window) {
    s.ewma.jitter > 30.0 || w.loss > 0.03 || NackPressure(w) || w.pli
  }

  predicate DelayClean(s: State, w: Window) {
    w.loss <= 0.0001 && w.nackKeys == {} && !w.pli && s.ewma.rtt < 25.0 && s.ewma.jitter < 8.0
  }

  predicate CanDownshift(s: State, now: int) {
    ElapsedMs(s.clocks.lastDownshift, now) >= 4 * s.evalMs
  }

  function AdaptDelay(s: State, w: Window, now: int): State {
    if DelayDegraded(s, w) then
      s.(ticks := s.ticks.(cleanDelay := 0),
         quality := if CanDownshift(s, now) then s.quality.(delayMs := DelayUp(s.quality.delayMs)) else s.quality)
    else if !DelayClean(s, w) then s.(ticks := s.ticks.(cleanDelay := 0))
    else if s.ticks.cleanDelay + 1 >= 15 then
      s.(ticks := s.ticks.(cleanDelay := 0), quality := s.quality.(delayMs := DelayDown(s.quality.delayMs)))
    else s.(ticks := s.ticks.(cleanDelay := s.ticks.cleanDelay + 1))
  }

  // ---------- Round-trip trend ----------

  function TrackRtt(s: State, w: Window): State {
    var sample := if w.rtt > 0.0 then w.rtt else s.ewma.rtt;
    var rising := s.lastRtt > 0.0 && sample > s.lastRtt + RTT_TREND_MIN_RISE_MS;
    s.(ticks := s.ticks.(rising := if rising then s.ticks.rising + 1 else 0), lastRtt := sample)
  }

  predicate RttTrend(s: State) { s.ticks.rising >= RTT_TREND_TICKS }

  /** Whether an evaluation counts as congested. */
  predicate Congested(s: State, w: Window) {
    w.loss > 0.03 || w.rtt > 120.0 || NackPressure(w) || w.pli || RttTrend(s)
  }

  // ---------- Congestion ----------

  function StepDown(s: State, now: int): State
    requires s.rung < FLOOR_RUNG
  {
    var rung := s.rung + 1;
    s.(rung := rung, clocks := s.clocks.(lastDownshift := now), ticks := s.ticks.(loss := 0, rising := 0),
       quality := s.quality.(bitrateKbps := ApplyCaps(Ladder(rung).bitrateKbps, s.caps)))
  }

  /** A 1080p session that congests holds at the 1080p60 bitrate until its ceiling lifts. */
  function ImposeCeiling(s: State): State {
    if s.limits.maxWidth <= 1920 && s.limits.maxHeight <= 1080 &&
       (s.caps.stability == 0 || s.caps.stability > STABILITY_CEILING_KBPS)
    then s.(caps := s.caps.(stability := STABILITY_CEILING_KBPS)) else s
  }

  predicate Emergency(w: Window) { w.loss > 0.15 || (|w.nackKeys| >= 50 && w.loss > 0.03) }

  function React(s: State, w: Window, now: int): State {
    var weight := if SevereFeedback(w) || RttTrend(s) then 2 else 1;
    var s1 := s.(ticks := s.ticks.(loss := Min(2, s.ticks.loss + weight), clean := 0));
    if Emergency(w) && ElapsedMs(s.clocks.lastDownshift, now) >= 3000 && s.rung < FLOOR_RUNG then StepDown(s1, now)
    else if s1.ticks.loss >= 2 && CanDownshift(s, now) then
      var s2 := ImposeCeiling(s1);
      if s.rung < FLOOR_RUNG then StepDown(s2, now)
      else if s.clocks.lastFloorWarning == 0 || now - s.clocks.lastFloorWarning >= TEN_S then
        s2.(clocks := s2.clocks.(lastFloorWarning := now), ticks := s2.ticks.(loss := 0))
      else s2
    else s1
  }

  // ---------- Recovery ----------

  function CountClean(s: State): State {
    var lifted := s.caps.stability > 0 && s.ticks.stability + 1 >= STABILITY_CAP_CLEAN_TICKS;
    s.(ticks := s.ticks.(loss := 0, clean := s.ticks.clean + 1,
                         stability := if s.caps.stability > 0 then s.ticks.stability + 1 else 0),
       caps := s.caps.(stability := if lifted then 0 else s.caps.stability))
  }

  function RampStep(gap: int): int { Max(500, gap / 2) }

  predicate RampDue(s: State) {
    s.caps.target > 0 && s.ticks.clean >= RAMP_UP_CLEAN_TICKS && s.ticks.rising == 0 &&
    s.quality.bitrateKbps < s.caps.target
  }

  /** The next bitrate on the way back to the target; the sum is a 32-bit one. */
  function Ramped(bitrate: uint32, target: uint32): uint32
    requires bitrate < target
  {
    Min(target, ToU32(bitrate + RampStep(target - bitrate)))
  }

  function RampUp(s: State): State {
    if !RampDue(s) then s
    else s.(ticks := s.ticks.(clean := 0),
            quality := s.quality.(bitrateKbps := ApplyCaps(Ramped(s.quality.bitrateKbps, s.caps.target), s.caps)))
  }

  predicate BitrateRecovered(s: State) { s.caps.target == 0 || s.quality.bitrateKbps >= s.caps.target }

  predicate UpshiftDue(s: State, now: int) {
    BitrateRecovered(s) && s.ticks.clean >= 10 && ElapsedS(s.clocks.lastDownshift, now) >= 15 && s.rung > 0
  }

  /** Whether the next better rung is within the session's limits and the user's cap. */
  predicate UpshiftAllowed(s: State)
    requires s.rung > 0
  {
    FitsLimits(Ladder(s.rung - 1), s.limits) && (s.caps.user == 0 || Ladder(s.rung - 1).bitrateKbps <= s.caps.user)
  }

  function Upshift(s: State, now: int): State {
    if !UpshiftDue(s, now) then s
    else if !UpshiftAllowed(s) then s.(ticks := s.ticks.(clean := 0))
    else s.(rung := s.rung - 1, ticks := s.ticks.(clean := 0),
            quality := s.quality.(bitrateKbps := ApplyCaps(Ladder(s.rung - 1).bitrateKbps, s.caps)))
  }

  function Recover(s: State, now: int): State { Upshift(RampUp(CountClean(s)), now) }

  // ---------- One evaluation ----------

  function DeriveGeometry(s: State): State {
    if s.allowResolution then s.(quality := AtRung(s.quality, s.rung, s.limits)) else s
  }

  /** Closes the feedback window at `now`. */
  function OpenWindow(s: State, now: int): State { s.(clocks := s.clocks.(lastEval := now), window := EMPTY_WINDOW) }

  /** The state in which the congestion decision of an evaluation is taken. */
  function Sampled(s: State, now: int): State {
    TrackRtt(AdaptDelay(OpenWindow(s, now), s.window, now), s.window)
  }

  function EvaluateEnabled(s: State, now: int): State {
    var s1 := Sampled(s, now);
    DeriveGeometry(if Congested(s1, s.window) then React(s1, s.window, now) else Recover(s1, now))
  }

  /** With adaptation off only severe congestion moves the rung, past every cap. */
  function EvaluateDisabled(s: State, now: int): State {
    var w := s.window;
    var severe := w.loss > 0.10 || w.pli || (|w.nackKeys| >= 50 && w.loss > 0.03);
    var s1 := OpenWindow(s, now);
    if severe && ElapsedMs(s.clocks.lastDownshift, now) >= 3000 && s.rung < FLOOR_RUNG then
      s1.(rung := s.rung + 1, clocks := s1.clocks.(lastDownshift := now),
          quality := s.quality.(bitrateKbps := Ladder(s.rung + 1).bitrateKbps))
    else s1
  }

  /** An evaluation acts only when its interval has passed and feedback has arrived. */
  predicate Due(s: State, now: int) { ElapsedMs(s.clocks.lastEval, now) >= s.evalMs }

  predicate Acts(s: State, now: int) { Due(s, now) && s.window.arrived }

  function Evaluate(s: State, now: int): State {
    if !Due(s, now) then s
    else if !s.window.arrived then s.(clocks := s.clocks.(lastEval := now))
    else if s.enabled then EvaluateEnabled(s, now)
    else EvaluateDisabled(s, now)
  }

  /** Whether an evaluation reports new settings. */
  predicate Reports(s: State, now: int) {
    Evaluate(s, now).quality != s.quality || (Acts(s, now) && !s.enabled && Evaluate(s, now).rung != s.rung)
  }

  // ---------- The controller object ----------

  class AdaptiveController {
    var currentRung: RungIndex
    var current: Quality
    var limits: Limits
    var enabled: bool
    var allowResolutionChange: bool
    var evalIntervalMs: int
    var caps: Caps
    var recent: Window
    var ewma: Ewma
    var ticks: Ticks
    var lastEvalRtt: real
    var clocks: Clocks

    ghost function View(): State
      reads this
    {
      State(currentRung, current, limits, enabled, allowResolutionChange, evalIntervalMs,
            caps, recent, ewma, ticks, lastEvalRtt, clocks)
    }

    constructor (now: int)
      ensures View() == State(0, Quality(1920, 1080, 60, 6000, DEFAULT_PLAYOUT_DELAY_MS), Limits(1920, 1080, 60),
                              true, true, 1000, Caps(0, 0, 0), EMPTY_WINDOW, UNSET_EWMA, Ticks(0, 0, 0, 0, 0), 0.0,
                              Clocks(now, now, 0))
    {
      currentRung := 0;
      current := Quality(1920, 1080, 60, 6000, DEFAULT_PLAYOUT_DELAY_MS);
      limits := Limits(1920, 1080, 60);
      enabled, allowResolutionChange, evalIntervalMs := true, true, 1000;
      caps := Caps(0, 0, 0);
      recent, ewma := EMPTY_WINDOW, UNSET_EWMA;
      ticks := Ticks(0, 0, 0, 0, 0);
      lastEvalRtt := 0.0;
      clocks := Clocks(now, now, 0);
    }

    method SetEnabled(on: bool)
      modifies this`enabled
      ensures enabled == on
    {
      enabled := on;
    }

    method SetAllowResolutionChange(allow: bool)
      modifies this`allowResolutionChange
      ensures allowResolutionChange == allow
    {
      allowResolutionChange := allow;
    }

    method ResetFeedbackWindow(now: int)
      modifies this
      ensures View() == ResetWindow(old(View()), now)
    {
      recent, ewma := EMPTY_WINDOW, UNSET_EWMA;
      ticks := ticks.(loss := 0, clean := 0, cleanDelay := 0, rising := 0);
      lastEvalRtt := 0.0;
      clocks := clocks.(lastEval := now);
    }

    /** Starts a session at the first ladder rung that fits it. */
    method Initialize(t: Start, now: int)
      modifies this
      ensures View() == Initialized(old(View()), t, now)
    {
      var delay := if t.delayMs > 0 then Clamp(t.delayMs, MIN_PLAYOUT_DELAY_MS, MAX_PLAYOUT_DELAY_MS)
                   else DEFAULT_PLAYOUT_DELAY_MS;
      current := Quality(0, 0, 0, t.bitrateKbps, delay);
      limits := Limits(t.width, t.height, if t.framerate > 0 then t.framerate else 60);
      caps := Caps(t.bitrateKbps, t.bitrateKbps, 0);
      clocks := clocks.(lastDownshift := now - TEN_S, lastFloorWarning := 0);
      ResetFeedbackWindow(now);
      currentRung := FindStartRung(t);
      current := AtRung(current, currentRung, limits);
    }

    /** The first rung, best first, that fits a start. */
    method FindStartRung(t: Start) returns (r: RungIndex)
      ensures r == StartRungFrom(0, t)
    {
      r := 3;
      var i := 0;
      while i < 8
        invariant 0 <= i <= 8
        invariant StartRungFrom(0, t) == if i < 8 then StartRungFrom(i, t) else r
      {
        if FitsStart(i, t) {
          r := i;
          break;
        }
        i := i + 1;
      }
    }

    method SetBitrateCapKbps(kbps: uint32)
      modifies this
      ensures View() == SetCap(old(View()), kbps)
    {
      caps := caps.(user := kbps, target := kbps);
      if kbps > 0 && current.bitrateKbps > kbps {
        current := current.(bitrateKbps := kbps);
      }
    }

    /** The first rung, best first, within a bitrate and the session's limits. */
    method FindRungForBitrate(kbps: uint32) returns (best: RungIndex)
      ensures best == RungForBitrateFrom(0, limits, kbps)
    {
      best := FLOOR_RUNG;
      var i := 0;
      while i < 8
        invariant 0 <= i <= 8
        invariant RungForBitrateFrom(0, limits, kbps) == if i < 8 then RungForBitrateFrom(i, limits, kbps) else best
      {
        if FitsBitrate(i, limits, kbps) {
          best := i;
          break;
        }
        i := i + 1;
      }
    }

    method ResetRungForBitrate(kbps: uint32, now: int)
      modifies this
      ensures View() == ResetRung(old(View()), kbps, now)
    {
      currentRung := FindRungForBitrate(kbps);
      current := current.(bitrateKbps := Ladder(currentRung).bitrateKbps);
      caps := caps.(stability := 0);
      ticks := ticks.(loss := 0, clean := 0);
      clocks := clocks.(lastDownshift := now - TEN_S);
    }

    method SetPlayoutDelayMs(delayMs: int)
      modifies this
      ensures View() == SetDelay(old(View()), delayMs)
    {
      current := current.(delayMs := Clamp(delayMs, MIN_PLAYOUT_DELAY_MS, MAX_PLAYOUT_DELAY_MS));
    }

    method StepUpPlayoutDelay()
      modifies this`current
      ensures current == old(current).(delayMs := DelayUp(old(current).delayMs))
    {
      if current.delayMs < 200 {
        current := current.(delayMs := 200);
      } else if current.delayMs < 300 {
        current := current.(delayMs := 300);
      } else {
        current := current.(delayMs := 400);
      }
    }

    method StepDownPlayoutDelay()
      modifies this`current
      ensures current == old(current).(delayMs := DelayDown(old(current).delayMs))
    {
      if current.delayMs > 300 {
        current := current.(delayMs := 300);
      } else if current.delayMs > 200 {
        current := current.(delayMs := 200);
      } else {
        current := current.(delayMs := 150);
      }
    }

    method SmoothRtt(rttMs: real, jitter: real)
      modifies this`ewma
      ensures ewma == Smooth(old(ewma), rttMs, jitter)
    {
      var previous := ewma.rtt;
      if !ewma.initialized {
        ewma := Ewma(rttMs, jitter, true);
      } else {
        var sample := if jitter > 0.0 then jitter else AbsR(rttMs - previous);
        ewma := Ewma(0.8 * previous + 0.2 * rttMs, 0.9 * ewma.jitter + 0.1 * sample, true);
      }
    }

    method OnFeedback(fb: Feedback)
      modifies this
      ensures View() == Absorb(old(View()), fb)
    {
      if fb.hasRtt {
        SmoothRtt(fb.rttMs, fb.jitter as real);
        recent := recent.(rtt := ewma.rtt, jitter := ewma.jitter);
      }
      if fb.hasReportBlock {
        recent := recent.(loss := fb.fractionLost);
      }
      InsertNackKeys(fb.nacks);
      if fb.pli {
        recent := recent.(pli := true);
      }
      recent := recent.(arrived := true);
    }

    method InsertNackKeys(nacks: seq<Nack>)
      modifies this`recent
      ensures recent == old(recent).(nackKeys := old(recent).nackKeys + NackKeys(nacks))
    {
      var i := 0;
      while i < |nacks|
        invariant 0 <= i <= |nacks|
        invariant recent == old(recent).(nackKeys := old(recent).nackKeys + NackKeys(nacks[..i]))
      {
        assert nacks[..i + 1] == nacks[..i] + [nacks[i]];
        recent := recent.(nackKeys := recent.nackKeys + {NackKey(nacks[i])});
        i := i + 1;
      }
      assert nacks[..i] == nacks;
    }

    method ClampToCaps()
      modifies this`current
      ensures current == old(current).(bitrateKbps :=
                ApplyCaps(old(current).bitrateKbps, caps))
    {
      var cap: int := caps.user;
      if caps.stability > 0 {
        cap := if cap > 0 then Min(cap, caps.stability) else caps.stability;
      }
      if cap > 0 && current.bitrateKbps > cap {
        current := current.(bitrateKbps := cap);
      }
    }

    method AdaptPlayoutDelay(w: Window, now: int)
      modifies this
      ensures View() == AdaptDelay(old(View()), w, now)
    {
      var canDownshift := ElapsedMs(clocks.lastDownshift, now) >= 4 * evalIntervalMs;
      if ewma.jitter > 30.0 || w.loss > 0.03 || NackPressure(w) || w.pli {
        if canDownshift {
          StepUpPlayoutDelay();
        }
        ticks := ticks.(cleanDelay := 0);
      } else if w.loss <= 0.0001 && w.nackKeys == {} && !w.pli && ewma.rtt < 25.0 && ewma.jitter < 8.0 {
        ticks := ticks.(cleanDelay := ticks.cleanDelay + 1);
        if ticks.cleanDelay >= 15 {
          StepDownPlayoutDelay();
          ticks := ticks.(cleanDelay := 0);
        }
      } else {
        ticks := ticks.(cleanDelay := 0);
      }
    }

    method TrackRttTrend(w: Window)
      modifies this
      ensures View() == TrackRtt(old(View()), w)
    {
      var sample := if w.rtt > 0.0 then w.rtt else ewma.rtt;
      if lastEvalRtt > 0.0 && sample > lastEvalRtt + RTT_TREND_MIN_RISE_MS {
        ticks := ticks.(rising := ticks.rising + 1);
      } else {
        ticks := ticks.(rising := 0);
      }
      lastEvalRtt := sample;
    }

    method Downshift(now: int)
      requires currentRung < FLOOR_RUNG
      modifies this
      ensures View() == StepDown(old(View()), now)
    {
      currentRung := currentRung + 1;
      current := current.(bitrateKbps := Ladder(currentRung).bitrateKbps);
      clocks := clocks.(lastDownshift := now);
      ClampToCaps();
      ticks := ticks.(loss := 0, rising := 0);
    }

    method ReactToCongestion(w: Window, now: int)
      modifies this
      ensures View() == React(old(View()), w, now)
    {
      hide SevereFeedback, Emergency, ApplyCaps, Ladder;
      var weight := if SevereFeedback(w) || ticks.rising >= RTT_TREND_TICKS then 2 else 1;
      ticks := ticks.(loss := Min(2, ticks.loss + weight), clean := 0);
      if Emergency(w) && ElapsedMs(clocks.lastDownshift, now) >= 3000 && currentRung < FLOOR_RUNG {
        Downshift(now);
      } else if ticks.loss >= 2 && ElapsedMs(clocks.lastDownshift, now) >= 4 * evalIntervalMs {
        if limits.maxWidth <= 1920 && limits.maxHeight <= 1080 &&
           (caps.stability == 0 || caps.stability > STABILITY_CEILING_KBPS) {
          caps := caps.(stability := STABILITY_CEILING_KBPS);
        }
        if currentRung < FLOOR_RUNG {
          Downshift(now);
        } else if clocks.lastFloorWarning == 0 || now - clocks.lastFloorWarning >= TEN_S {
          clocks := clocks.(lastFloorWarning := now);
          ticks := ticks.(loss := 0);
        }
      }
    }

    method CountCleanInterval()
      modifies this
      ensures View() == CountClean(old(View()))
    {
      ticks := ticks.(loss := 0, clean := ticks.clean + 1);
      if caps.stability > 0 {
        ticks := ticks.(stability := ticks.stability + 1);
        if ticks.stability >= STABILITY_CAP_CLEAN_TICKS {
          caps := caps.(stability := 0);
        }
      } else {
        ticks := ticks.(stability := 0);
      }
    }

    method RampBitrate()
      modifies this
      ensures View() == RampUp(old(View()))
    {
      if caps.target > 0 && ticks.clean >= RAMP_UP_CLEAN_TICKS && ticks.rising == 0 &&
         current.bitrateKbps < caps.target {
        var gap := caps.target - current.bitrateKbps;
        var step := Max(500, gap / 2);
        current := current.(bitrateKbps := Min(caps.target, ToU32(current.bitrateKbps + step)));
        ClampToCaps();
        ticks := ticks.(clean := 0);
      }
    }

    method UpshiftRung(now: int)
      modifies this
      ensures View() == Upshift(old(View()), now)
    {
      var recovered := caps.target == 0 || current.bitrateKbps >= caps.target;
      if recovered && ticks.clean >= 10 && ElapsedS(clocks.lastDownshift, now) >= 15 &&
         currentRung > 0 {
        var next: RungIndex := currentRung - 1;
        if FitsLimits(Ladder(next), limits) &&
           !(caps.user > 0 && Ladder(next).bitrateKbps > caps.user) {
          currentRung := next;
          current := current.(bitrateKbps := Ladder(next).bitrateKbps);
          ClampToCaps();
        }
        ticks := ticks.(clean := 0);
      }
    }

    /** The periodic evaluation: reports the new settings when they changed. */
    method CheckAdaptation(now: int) returns (update: Option<Quality>)
      modifies this
      ensures View() == Evaluate(old(View()), now)
      ensures update == if Reports(old(View()), now) then Some(current) else None
    {
      hide AdaptDelay, TrackRtt, React, CountClean, RampUp, Upshift, NackPressure, AtRung, Ladder;
      if ElapsedMs(clocks.lastEval, now) < evalIntervalMs {
        return None;
      }
      clocks := clocks.(lastEval := now);
      if !recent.arrived {
        return None;
      }
      var w, before := recent, current;
      recent := EMPTY_WINDOW;

      if !enabled {
        var severe := w.loss > 0.10 || w.pli || (|w.nackKeys| >= 50 && w.loss > 0.03);
        if severe && ElapsedMs(clocks.lastDownshift, now) >= 3000 && currentRung < FLOOR_RUNG {
          currentRung := currentRung + 1;
          current := current.(bitrateKbps := Ladder(currentRung).bitrateKbps);
          clocks := clocks.(lastDownshift := now);
          return Some(current);
        }
        return None;
      }

      AdaptPlayoutDelay(w, now);
      TrackRttTrend(w);
      if w.loss > 0.03 || w.rtt > 120.0 || NackPressure(w) || w.pli || ticks.rising >= RTT_TREND_TICKS {
        ReactToCongestion(w, now);
      } else {
        CountCleanInterval();
        RampBitrate();
        UpshiftRung(now);
      }
      if allowResolutionChange {
        current := AtRung(current, currentRung, limits);
      }
      return if current != before then Some(current) else None;
    }
  }
}
