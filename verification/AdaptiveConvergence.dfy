/** Recovery on a clean link: every long enough run of clean evaluations reaches a stable point.

    The measure `Work` bounds the clean evaluations left before stability: a full recovery per rung
    still to climb, the ramps left to the hold target, and the clean ticks left to the next move. */
module AdaptiveConvergence {
  import opened Arithmetic
  import opened Adaptive
  import opened AdaptiveRuns

  /** The feedback packets of one interval, then the evaluation that closes it. */
  datatype Tick = Tick(feedback: seq<Feedback>, now: int)

  function AbsorbAll(s: State, fbs: seq<Feedback>): State {
    if fbs == [] then s else Absorb(AbsorbAll(s, fbs[..|fbs| - 1]), fbs[|fbs| - 1])
  }

  function RunTick(s: State, t: Tick): State { Evaluate(AbsorbAll(s, t.feedback), t.now) }

  function RunTicks(s: State, ts: seq<Tick>): State {
    if ts == [] then s else RunTick(RunTicks(s, ts[..|ts| - 1]), ts[|ts| - 1])
  }

  /** The evaluation acts, finds no congestion and sees no rising round trip. */
  predicate CleanTick(s: State, t: Tick) {
    var s1 := AbsorbAll(s, t.feedback);
    Acts(s1, t.now) && !Congested(Sampled(s1, t.now), s1.window) && Sampled(s1, t.now).ticks.rising == 0
  }

  predicate CleanRun(s: State, ts: seq<Tick>) {
    ts == [] || (CleanRun(s, ts[..|ts| - 1]) && CleanTick(RunTicks(s, ts[..|ts| - 1]), ts[|ts| - 1]))
  }

  /** The cap is the hold target, and no 32-bit ramp can wrap. */
  predicate Sound(s: State) {
    s.caps.user == s.caps.target <= TWO32 - 500 && s.evalMs > 0 && s.ticks.clean >= 0 && s.ticks.stability >= 0
  }

  /** A sound state with adaptation on. */
  predicate Ready(s: State) { s.enabled && Sound(s) }

  // ---------- Ramps ----------

  function Gap(s: State): nat {
    if s.quality.bitrateKbps < s.caps.target then s.caps.target - s.quality.bitrateKbps else 0
  }

  /** Ramps needed to close a gap. */
  function Ramps(gap: nat): nat
    decreases gap
  {
    if gap == 0 then 0 else 1 + Ramps(gap - Min(gap, RampStep(gap)))
  }

  lemma {:induction false} RampsMonotone(a: nat, b: nat)
    requires a <= b
    ensures Ramps(a) <= Ramps(b)
    decreases b
  {
    if a > 0 { RampsMonotone(a - Min(a, RampStep(a)), b - Min(b, RampStep(b))); }
  }

  function Pow2(k: nat): nat { if k == 0 then 1 else 2 * Pow2(k - 1) }

  /** Only logarithmically many ramps are ever needed. */
  lemma {:induction false} RampsLogarithmic(gap: nat, k: nat)
    requires gap <= 500 * Pow2(k)
    ensures Ramps(gap) <= k + 1
    decreases k
  {
    if gap > 0 {
      var rest := gap - Min(gap, RampStep(gap));
      if k > 0 { RampsLogarithmic(rest, k - 1); }
    }
  }

  /** A ramp never lowers the bitrate, from any bitrate below the target, exactly when the target leaves
      the minimum step room below 2^32. */
  lemma RampNeverDropsIff(target: uint32)
    requires target > 0
    ensures (forall b: uint32 | b < target :: Ramped(b, target) >= b) <==> target <= TWO32 - 500
  {
    if target > TWO32 - 500 {
      assert Ramped(target - 1, target) < target - 1;
    }
  }

  /** One ramp takes exactly its step off the gap. */
  lemma RampClosesGap(b: uint32, target: uint32)
    requires b < target <= TWO32 - 500
    ensures b < Ramped(b, target) <= target
    ensures target - Ramped(b, target) == (target - b) - Min(target - b, RampStep(target - b))
  {
  }

  // ---------- One clean tick ----------

  lemma {:induction false} AbsorbFrame(s: State, fbs: seq<Feedback>)
    ensures var r := AbsorbAll(s, fbs); r == s.(window := r.window, ewma := r.ewma)
  {
    if fbs != [] { AbsorbFrame(s, fbs[..|fbs| - 1]); }
  }

  /** A clean tick is a recovery step of the parts that matter here. */
  lemma CleanTickRecovers(s: State, t: Tick)
    requires Ready(s) && CleanTick(s, t)
    ensures var r, p := RunTick(s, t), Recover(s.(ticks := s.ticks.(rising := 0)), t.now);
            && r.rung == p.rung && r.quality.bitrateKbps == p.quality.bitrateKbps && r.caps == p.caps
            && r.ticks.clean == p.ticks.clean && r.ticks.stability == p.ticks.stability
            && r.limits == s.limits && r.enabled && r.evalMs == s.evalMs
            && r.clocks.lastDownshift == s.clocks.lastDownshift && r.clocks.lastEval == t.now
            && t.now - s.clocks.lastEval >= s.evalMs * 1_000_000
  {
    hide Sampled, Congested, AbsorbAll, React, Recover, UpshiftAllowed;
    AbsorbFrame(s, t.feedback);
    var s1 := AbsorbAll(s, t.feedback);
    SampledFrame(s1, t.now);
    RecoverAgrees(Sampled(s1, t.now), s.(ticks := s.ticks.(rising := 0)), t.now);
  }

  /** What recovery reads of the state. */
  predicate Alike(a: State, b: State) {
    && a.rung == b.rung && a.quality.bitrateKbps == b.quality.bitrateKbps && a.caps == b.caps
    && a.ticks.clean == b.ticks.clean && a.ticks.stability == b.ticks.stability && a.ticks.rising == b.ticks.rising
    && a.limits == b.limits && a.clocks.lastDownshift == b.clocks.lastDownshift
  }

  /** What recovery leaves alone. */
  predicate OnlyRecovered(a: State, p: State) {
    p == a.(rung := p.rung, quality := a.quality.(bitrateKbps := p.quality.bitrateKbps),
            caps := p.caps, ticks := p.ticks)
  }

  lemma CountAgrees(a: State, b: State)
    requires Alike(a, b)
    ensures Alike(CountClean(a), CountClean(b)) && OnlyRecovered(a, CountClean(a))
  {
  }

  lemma RampAgrees(a: State, b: State)
    requires Alike(a, b)
    ensures Alike(RampUp(a), RampUp(b)) && OnlyRecovered(a, RampUp(a))
  {
    hide Ramped, ApplyCaps;
  }

  lemma UpshiftAgrees(a: State, b: State, now: int)
    requires Alike(a, b)
    ensures Alike(Upshift(a, now), Upshift(b, now)) && OnlyRecovered(a, Upshift(a, now))
  {
    hide ApplyCaps, Ladder, FitsLimits;
  }

  /** Recovery reads only these parts. */
  lemma RecoverAgrees(a: State, b: State, now: int)
    requires Alike(a, b)
    ensures Alike(Recover(a, now), Recover(b, now)) && OnlyRecovered(a, Recover(a, now))
  {
    hide Alike, CountClean, RampUp, Upshift;
    CountAgrees(a, b);
    RampAgrees(CountClean(a), CountClean(b));
    UpshiftAgrees(RampUp(CountClean(a)), RampUp(CountClean(b)), now);
  }

  /** The target is held and no better rung is open. */
  predicate Stable(s: State) {
    s.caps.stability == 0 && Gap(s) == 0 && (s.rung == 0 || !UpshiftAllowed(s))
  }

  /** The clean ticks a whole rung can take. */
  function RungWork(target: uint32): nat { 8 * Ramps(target) + 10 }

  function Work(s: State): int {
    s.rung * RungWork(s.caps.target) +
    (if Gap(s) > 0 then 8 * Ramps(Gap(s)) + 10 - Min(s.ticks.clean, 7) else 10 - Min(s.ticks.clean, 9))
  }

  lemma WorkBounded(s: State)
    requires Ready(s)
    ensures 0 < Work(s) <= 8 * RungWork(s.caps.target)
  {
    hide Ramps;
    RampsMonotone(Gap(s), s.caps.target);
    Scale(s.rung, 7, RungWork(s.caps.target));
  }

  lemma Scale(a: nat, b: nat, unit: nat)
    requires a <= b
    ensures 0 <= a * unit <= b * unit
  {
  }

  lemma TickKeepsReady(s: State, t: Tick)
    requires Ready(s) && CleanTick(s, t)
    ensures var r := RunTick(s, t);
            && Ready(r) && r.rung <= s.rung && r.caps.target == s.caps.target && r.limits == s.limits
            && r.evalMs == s.evalMs && r.clocks.lastDownshift == s.clocks.lastDownshift
            && r.clocks.lastEval == t.now >= s.clocks.lastEval + s.evalMs * 1_000_000
  {
    hide RunTick, CleanTick;
    CleanTickRecovers(s, t);
  }

  /** The congestion ceiling only lifts, and its counter says when. */
  lemma TickLiftsCeiling(s: State, t: Tick)
    requires Ready(s) && CleanTick(s, t)
    ensures var r := RunTick(s, t);
            && (s.caps.stability == 0 ==> r.caps.stability == 0)
            && (r.caps.stability > 0 ==> r.ticks.stability == s.ticks.stability + 1 < STABILITY_CAP_CLEAN_TICKS)
            && (s.caps.stability > 0 ==>
                  && r.ticks.stability == s.ticks.stability + 1
                  && r.caps.stability ==
                       if s.ticks.stability + 1 >= STABILITY_CAP_CLEAN_TICKS then 0 else s.caps.stability)
  {
    hide RunTick, CleanTick;
    CleanTickRecovers(s, t);
  }

  /** With no ceiling and 15 s since the last downshift every clean tick short of stability does some work. */
  lemma TickWorks(s: State, t: Tick)
    requires Ready(s) && CleanTick(s, t) && s.caps.stability == 0 && !Stable(s)
    requires t.now - s.clocks.lastDownshift >= FIFTEEN_S
    ensures Work(RunTick(s, t)) < Work(s)
  {
    hide RunTick, CleanTick, Ramps;
    CleanTickRecovers(s, t);
    var r := RunTick(s, t);
    var s1 := CountClean(s.(ticks := s.ticks.(rising := 0)));
    if RampDue(s1) {
      RampClosesGap(s.quality.bitrateKbps, s.caps.target);
      RampsOnce(Gap(s));
      assert Gap(r) == Gap(s) - Min(Gap(s), RampStep(Gap(s)));
      assert r.rung == s.rung && r.ticks.clean == 0;
      RampsOnce(Gap(r));
    } else if r.rung < s.rung {
      RampsMonotone(Gap(r), s.caps.target);
      RungsDistribute(s);
      assert r.ticks.clean == 0;
    } else {
      assert r.rung == s.rung && Gap(r) == Gap(s);
    }
  }

  lemma RampsOnce(gap: nat)
    ensures if gap == 0 then Ramps(gap) == 0 else Ramps(gap) == 1 + Ramps(gap - Min(gap, RampStep(gap)))
  {
  }

  lemma RungsDistribute(s: State)
    requires s.rung > 0
    ensures s.rung * RungWork(s.caps.target) == (s.rung - 1) * RungWork(s.caps.target) + RungWork(s.caps.target)
  {
  }

  /** A stable point keeps its rung, bitrate and stability. */
  lemma StableStays(s: State, t: Tick)
    requires Ready(s) && CleanTick(s, t) && Stable(s)
    ensures var r := RunTick(s, t);
            Stable(r) && r.rung == s.rung && r.quality.bitrateKbps == s.quality.bitrateKbps
  {
    hide RunTick, CleanTick;
    CleanTickRecovers(s, t);
  }

  /** Congestion does not clear the ceiling's clean-tick counter, so a ceiling imposed while the counter still
      stands at nine or more lasts a single clean evaluation instead of ten. */
  lemma ReimposedCeilingLiftsAtOnceIff(s: State, w: Window, now: int, later: int)
    requires React(s, w, now).caps.stability > 0
    ensures Recover(React(s, w, now), later).caps.stability == 0 <==>
              s.ticks.stability + 1 >= STABILITY_CAP_CLEAN_TICKS
  {
    hide SevereFeedback, Emergency, UpshiftAllowed;
  }

  // ---------- Clean runs ----------

  lemma {:induction false} RunKeepsReady(s: State, ts: seq<Tick>)
    requires Ready(s) && CleanRun(s, ts)
    ensures var r := RunTicks(s, ts);
            && Ready(r) && r.rung <= s.rung && r.caps.target == s.caps.target && r.limits == s.limits
            && r.evalMs == s.evalMs && r.clocks.lastDownshift == s.clocks.lastDownshift
            && (ts != [] ==> r.clocks.lastEval >= ts[0].now + (|ts| - 1) * (s.evalMs * 1_000_000))
  {
    hide RunTick, CleanTick, Ready;
    if ts != [] {
      var init := ts[..|ts| - 1];
      RunKeepsReady(s, init);
      TickKeepsReady(RunTicks(s, init), ts[|ts| - 1]);
      if init != [] {
        assert init[0] == ts[0];
        var n: int, unit := |init|, s.evalMs * 1_000_000;
        assert n * unit == (n - 1) * unit + unit;
      }
    }
  }

  /** A congestion ceiling lifts within ten clean evaluations. */
  lemma {:induction false} CeilingLifts(s: State, ts: seq<Tick>)
    requires Ready(s) && CleanRun(s, ts)
    ensures var r := RunTicks(s, ts);
            r.caps.stability > 0 ==> |ts| <= r.ticks.stability && (|ts| > 0 ==> r.ticks.stability < 10)
  {
    hide RunTick, CleanTick, Ready;
    if ts != [] {
      var init := ts[..|ts| - 1];
      RunKeepsReady(s, init);
      CeilingLifts(s, init);
      TickLiftsCeiling(RunTicks(s, init), ts[|ts| - 1]);
    } else {
      assert s.ticks.stability >= 0 by { ReadyCounts(s); }
    }
  }

  /** How many clean evaluations a standing ceiling lasts, given its counter. */
  function CeilingTicks(counter: int): nat { Max(1, STABILITY_CAP_CLEAN_TICKS - counter) }

  /** A standing ceiling lasts exactly that long, and is then gone for the rest of the clean run. */
  lemma {:induction false} CeilingLasts(s: State, ts: seq<Tick>)
    requires Ready(s) && CleanRun(s, ts) && s.caps.stability > 0
    ensures var r, n := RunTicks(s, ts), CeilingTicks(s.ticks.stability);
            && r.caps.stability == (if |ts| < n then s.caps.stability else 0)
            && (|ts| <= n ==> r.ticks.stability == s.ticks.stability + |ts|)
  {
    hide RunTick, CleanTick, Ready;
    if ts != [] {
      var init := ts[..|ts| - 1];
      RunKeepsReady(s, init);
      CeilingLasts(s, init);
      TickLiftsCeiling(RunTicks(s, init), ts[|ts| - 1]);
    }
  }

  lemma ReadyCounts(s: State)
    requires Ready(s)
    ensures s.ticks.stability >= 0 && s.evalMs > 0
    ensures s.enabled && s.caps.user == s.caps.target
  {
  }

  /** Evaluations until the ceiling has lifted and 15 s have passed since the last downshift. */
  function WarmUp(evalMs: int): (n: nat)
    requires evalMs > 0
    ensures n > 10
  {
    10 + 15_000 / evalMs + 2
  }

  lemma WarmUpSuffices(evalMs: int)
    requires evalMs > 0
    ensures (WarmUp(evalMs) - 1) * (evalMs * 1_000_000) >= FIFTEEN_S
  {
    var q, w := 15_000 / evalMs + 1, WarmUp(evalMs) - 1;
    assert q * evalMs >= 15_000;
    assert w * evalMs == q * evalMs + 10 * evalMs;
    assert w * (evalMs * 1_000_000) == (w * evalMs) * 1_000_000;
  }

  lemma WarmUpScales(n: nat, evalMs: int)
    requires evalMs > 0 && n >= WarmUp(evalMs)
    ensures (n - 1) * (evalMs * 1_000_000) >= FIFTEEN_S
  {
    WarmUpSuffices(evalMs);
    Scale(WarmUp(evalMs) - 1, n - 1, evalMs * 1_000_000);
  }

  /** After the warm-up a clean run is stable, or each further tick has done some work. */
  lemma {:induction false} WorkRunsDown(s: State, ts: seq<Tick>)
    requires Ready(s) && CleanRun(s, ts) && |ts| >= WarmUp(s.evalMs) && ts[0].now >= s.clocks.lastDownshift
    ensures var r := RunTicks(s, ts);
            && r.caps.stability == 0
            && (Stable(r) || Work(r) + (|ts| - WarmUp(s.evalMs)) <= 8 * RungWork(s.caps.target))
    decreases |ts|
  {
    hide RunTick, CleanTick, Ready, Stable, Work, RungWork, WarmUp;
    ReadyCounts(s);
    var init, t := ts[..|ts| - 1], ts[|ts| - 1];
    CeilingLifts(s, ts);
    RunKeepsReady(s, ts);
    if |ts| == WarmUp(s.evalMs) {
      WorkBounded(RunTicks(s, ts));
    } else {
      var b := RunTicks(s, init);
      assert init[0] == ts[0];
      WorkRunsDown(s, init);
      RunKeepsReady(s, init);
      if Stable(b) {
        StableStays(b, t);
      } else {
        WarmUpScales(|init|, s.evalMs);
        TickKeepsReady(b, t);
        assert t.now - b.clocks.lastDownshift >= FIFTEEN_S;
        TickWorks(b, t);
      }
    }
  }

  // ---------- Where a clean run rests ----------

  /** A rung the session's limits and the user's cap leave open. */
  predicate Open(i: RungIndex, l: Limits, user: uint32) {
    && Ladder(i).width <= l.maxWidth && Ladder(i).height <= l.maxHeight && Ladder(i).framerate <= l.initialFps
    && (user == 0 || Ladder(i).bitrateKbps <= user)
  }

  /** The rung below the first closed one on the way up. */
  function Rest(i: RungIndex, l: Limits, user: uint32): (r: RungIndex)
    ensures r <= i
    decreases i
  {
    if i > 0 && Open(i - 1, l, user) then Rest(i - 1, l, user) else i
  }

  /** Climbing gets to rung `q` or better exactly when every rung from `q` up to the start's predecessor is open. */
  lemma {:induction false} RestReachesIff(i: RungIndex, l: Limits, user: uint32, q: RungIndex)
    requires q <= i
    ensures Rest(i, l, user) <= q <==> forall k: RungIndex :: q <= k < i ==> Open(k, l, user)
    decreases i
  {
    if q < i && Open(i - 1, l, user) { RestReachesIff(i - 1, l, user, q); }
  }

  lemma TickKeepsRest(s: State, t: Tick)
    requires Ready(s) && CleanTick(s, t)
    ensures var r := RunTick(s, t);
            r.caps.user == s.caps.user && Rest(r.rung, s.limits, s.caps.user) == Rest(s.rung, s.limits, s.caps.user)
  {
    hide RunTick, CleanTick, ApplyCaps, Ladder, Ramped;
    CleanTickRecovers(s, t);
  }

  /** No clean run, however long, leaves the climb to its resting rung. */
  lemma {:induction false} RunKeepsRest(s: State, ts: seq<Tick>)
    requires Ready(s) && CleanRun(s, ts)
    ensures var r := RunTicks(s, ts);
            && r.caps.user == s.caps.user && Rest(r.rung, s.limits, s.caps.user) == Rest(s.rung, s.limits, s.caps.user)
            && r.rung >= Rest(s.rung, s.limits, s.caps.user)
  {
    hide RunTick, CleanTick, Ready, Rest;
    if ts != [] {
      var init := ts[..|ts| - 1];
      RunKeepsReady(s, init);
      RunKeepsRest(s, init);
      TickKeepsRest(RunTicks(s, init), ts[|ts| - 1]);
    }
  }

  lemma StableRests(s: State)
    requires Stable(s)
    ensures Rest(s.rung, s.limits, s.caps.user) == s.rung
  {
  }

  // ---------- Where its bitrate ends ----------

  /** A bitrate above the target is left alone until an upshift, and none rises above the target. */
  lemma TickMovesBitrate(s: State, t: Tick)
    requires Ready(s) && CleanTick(s, t) && s.caps.target > 0
    ensures var r := RunTick(s, t);
            if s.quality.bitrateKbps > s.caps.target && r.rung == s.rung
            then r.quality.bitrateKbps == s.quality.bitrateKbps
            else r.quality.bitrateKbps <= s.caps.target
  {
    hide RunTick, CleanTick, Ladder;
    CleanTickRecovers(s, t);
  }

  lemma {:induction false} RunMovesBitrate(s: State, ts: seq<Tick>)
    requires Ready(s) && CleanRun(s, ts) && s.caps.target > 0
    ensures var r := RunTicks(s, ts);
            if s.quality.bitrateKbps > s.caps.target && r.rung == s.rung
            then r.quality.bitrateKbps == s.quality.bitrateKbps
            else r.quality.bitrateKbps <= s.caps.target
  {
    hide RunTick, CleanTick, Ready;
    if ts != [] {
      var init, t := ts[..|ts| - 1], ts[|ts| - 1];
      RunKeepsReady(s, init);
      RunMovesBitrate(s, init);
      TickKeepsReady(RunTicks(s, init), t);
      TickMovesBitrate(RunTicks(s, init), t);
    }
  }

  /** A standing ceiling has counted every clean evaluation that counts towards an upshift. */
  predicate CeilingCounted(s: State) { s.caps.stability > 0 ==> s.ticks.stability >= s.ticks.clean }

  /** Without a target a bitrate moves only with the rung, and then to that rung's own: the ceiling has lifted by the
      time an upshift is due. */
  lemma TickWithoutTarget(s: State, t: Tick)
    requires Ready(s) && CleanTick(s, t) && s.caps.target == 0 && CeilingCounted(s)
    ensures var r := RunTick(s, t);
            && CeilingCounted(r)
            && r.quality.bitrateKbps == if r.rung == s.rung then s.quality.bitrateKbps else Ladder(r.rung).bitrateKbps
  {
    hide RunTick, CleanTick, Ladder;
    CleanTickRecovers(s, t);
  }

  lemma {:induction false} RunWithoutTarget(s: State, ts: seq<Tick>)
    requires Ready(s) && CleanRun(s, ts) && s.caps.target == 0 && CeilingCounted(s)
    ensures var r := RunTicks(s, ts);
            && CeilingCounted(r)
            && r.quality.bitrateKbps == if r.rung == s.rung then s.quality.bitrateKbps else Ladder(r.rung).bitrateKbps
  {
    hide RunTick, CleanTick, Ready, Ladder, CeilingCounted;
    if ts != [] {
      var init, t := ts[..|ts| - 1], ts[|ts| - 1];
      RunKeepsReady(s, init);
      RunWithoutTarget(s, init);
      TickKeepsReady(RunTicks(s, init), t);
      TickWithoutTarget(RunTicks(s, init), t);
    }
  }

  // ---------- Convergence ----------

  /** Whether a clean run from `s` brings the bitrate to the target: it is not above it, or the rung has room to
      climb. */
  predicate ReachesTarget(s: State) {
    s.quality.bitrateKbps <= s.caps.target || Rest(s.rung, s.limits, s.caps.user) < s.rung
  }

  /** The state a clean run recovers to from `s`: no ceiling, the resting rung, and the bitrate at the target or, when
      it started above the target on the resting rung, where it was. Without a target the bitrate follows the rung. */
  predicate Recovered(s: State, r: State) {
    && r.caps.stability == 0
    && r.rung == Rest(s.rung, s.limits, s.caps.user)
    && (s.caps.target > 0 ==>
          r.quality.bitrateKbps == if ReachesTarget(s) then s.caps.target else s.quality.bitrateKbps)
    && (s.caps.target == 0 && CeilingCounted(s) ==>
          r.quality.bitrateKbps == if r.rung == s.rung then s.quality.bitrateKbps else Ladder(r.rung).bitrateKbps)
  }

  /** Clean evaluations that bring any state back: the warm-up plus eight rungs' work, which grows only with the
      logarithm of the target. */
  predicate LongEnough(s: State, ts: seq<Tick>, k: nat) {
    && s.evalMs > 0 && s.caps.target <= 500 * Pow2(k)
    && |ts| >= WarmUp(s.evalMs) + 8 * (8 * (k + 1) + 10) && ts[0].now >= s.clocks.lastDownshift
  }

  /** Convergence: from any ready state, whatever its bitrate, a long enough clean run ends with no ceiling, on
      exactly the rung below the first one that limits or cap close, and with the bitrate at the target if and only if
      it started no higher or that rung is not the one it started on. */
  lemma CleanRunConverges(s: State, ts: seq<Tick>, k: nat)
    requires Ready(s) && CleanRun(s, ts) && LongEnough(s, ts, k)
    ensures Recovered(s, RunTicks(s, ts))
    ensures s.caps.target > 0 ==> (RunTicks(s, ts).quality.bitrateKbps == s.caps.target <==> ReachesTarget(s))
  {
    hide RunTick, CleanTick, Ready, Work, WarmUp, Ramps, Rest;
    ReadyCounts(s);
    RampsLogarithmic(s.caps.target, k);
    WorkRunsDown(s, ts);
    RunKeepsReady(s, ts);
    WorkBounded(RunTicks(s, ts));
    RunKeepsRest(s, ts);
    StableRests(RunTicks(s, ts));
    if s.caps.target > 0 { RunMovesBitrate(s, ts); }
    if s.caps.target == 0 && CeilingCounted(s) { RunWithoutTarget(s, ts); }
  }

  /** Such a run gets back to rung `q` or better exactly when every rung from `q` up to the start's predecessor is
      within the limits and the cap. */
  lemma CleanRunReturnsIff(s: State, ts: seq<Tick>, k: nat, q: RungIndex)
    requires Ready(s) && CleanRun(s, ts) && LongEnough(s, ts, k) && q <= s.rung
    ensures RunTicks(s, ts).rung <= q <==> forall i: RungIndex :: q <= i < s.rung ==> Open(i, s.limits, s.caps.user)
  {
    hide RunTicks, CleanRun, Ready, LongEnough, Open, Rest;
    CleanRunConverges(s, ts, k);
    RestReachesIff(s.rung, s.limits, s.caps.user, q);
  }

  // ---------- Live caps ----------

  /** A live cap below the floor rung's bitrate closes every rung above the floor, and no clean run, however long,
      brings the bitrate down to it. */
  lemma LowLiveCapStays(s: State, kbps: uint32, now: int, ts: seq<Tick>)
    requires Ready(s) && 0 < kbps < FLOOR_KBPS && CleanRun(SetLive(s, kbps, now), ts)
    ensures var r := RunTicks(SetLive(s, kbps, now), ts);
            r.rung == FLOOR_RUNG && r.quality.bitrateKbps == FLOOR_KBPS > kbps
  {
    hide CleanRun, RunTicks, RungForBitrateFrom;
    var b := SetLive(s, kbps, now);
    RunKeepsRest(b, ts);
    RunKeepsReady(b, ts);
    RunMovesBitrate(b, ts);
  }

  /** After a live change to any nonzero cap a long enough clean run brings the bitrate to exactly the cap if and only
      if the cap reaches the floor rung's bitrate. */
  lemma LiveCapRecoversIff(s: State, kbps: uint32, now: int, ts: seq<Tick>, k: nat)
    requires Ready(s) && 0 < kbps <= TWO32 - 500
    requires CleanRun(SetLive(s, kbps, now), ts) && LongEnough(SetLive(s, kbps, now), ts, k)
    ensures RunTicks(SetLive(s, kbps, now), ts).quality.bitrateKbps == kbps <==> kbps >= FLOOR_KBPS
  {
    hide CleanRun, RunTicks, LongEnough;
    if kbps < FLOOR_KBPS {
      LowLiveCapStays(s, kbps, now, ts);
    } else {
      LiveCapRespectedIff(s, kbps, now);
      CleanRunConverges(SetLive(s, kbps, now), ts, k);
    }
  }

  // ---------- Sessions ----------

  /** Caps that leave no ramp room to wrap. */
  predicate Settable(e: Event) { e.CapSet? || e.LiveSet? ==> e.kbps <= TWO32 - 500 }

  lemma ReactionKeepsSound(s: State, w: Window, now: int)
    requires Sound(s)
    ensures Sound(React(s, w, now)) && React(s, w, now).enabled == s.enabled
    ensures CeilingCounted(s) ==> CeilingCounted(React(s, w, now))
  {
    hide SevereFeedback, Emergency, ApplyCaps, Ladder;
  }

  lemma RecoveryKeepsSound(s: State, now: int)
    requires Sound(s)
    ensures Sound(Recover(s, now)) && Recover(s, now).enabled == s.enabled
    ensures CeilingCounted(s) ==> CeilingCounted(Recover(s, now))
  {
    hide UpshiftAllowed, ApplyCaps, Ladder, Ramped;
  }

  lemma EvaluationKeepsSound(s: State, now: int)
    requires Sound(s)
    ensures Sound(Evaluate(s, now)) && Evaluate(s, now).enabled == s.enabled
    ensures CeilingCounted(s) ==> CeilingCounted(Evaluate(s, now))
  {
    hide Sampled, Congested, React, Recover, AtRung;
    SampledFrame(s, now);
    ReactionKeepsSound(Sampled(s, now), s.window, now);
    RecoveryKeepsSound(Sampled(s, now), now);
  }

  /** Every run of calls, toggles and the lowest caps included, keeps what convergence needs besides adaptation on. */
  lemma {:induction false} SoundReached(s: State, es: seq<Event>)
    requires Sound(s) && CeilingCounted(s) && forall e :: e in es ==> Settable(e)
    ensures Sound(Run(s, es)) && CeilingCounted(Run(s, es))
  {
    hide Evaluate;
    if es != [] {
      var init, e := es[..|es| - 1], es[|es| - 1];
      assert e in es && forall x :: x in init ==> x in es;
      SoundReached(s, init);
      if e.Evaluated? { EvaluationKeepsSound(Run(s, init), e.now); }
    }
  }

  lemma {:induction false} LimitsFixed(s: State, es: seq<Event>)
    ensures Run(s, es).limits == s.limits
  {
    hide Step;
    if es != [] {
      LimitsFixed(s, es[..|es| - 1]);
      StepKeepsLimits(Run(s, es[..|es| - 1]), es[|es| - 1]);
    }
  }

  lemma StepKeepsLimits(s: State, e: Event)
    ensures Step(s, e).limits == s.limits
  {
    hide Evaluate, Absorb;
    if e.Evaluated? {
      EvaluationKeepsLimits(s, e.now);
    } else if e.Received? {
      AbsorbKeepsLimits(s, e.feedback);
    }
  }

  lemma EvaluationKeepsLimits(s: State, now: int)
    ensures Evaluate(s, now).limits == s.limits
  {
    hide Sampled, Congested, Ladder, ApplyCaps, UpshiftAllowed, SevereFeedback, Emergency;
    SampledFrame(s, now);
  }

  lemma AbsorbKeepsLimits(s: State, fb: Feedback)
    ensures Absorb(s, fb).limits == s.limits
  {
  }

  /** Whatever a session went through since `Initialize`, toggles and any live caps included, a long enough clean run
      with adaptation on recovers it. */
  lemma SessionRecovers(s: State, t: Start, now: int, es: seq<Event>, ts: seq<Tick>, k: nat)
    requires s.evalMs > 0 && s.ticks.stability >= 0 && t.bitrateKbps <= TWO32 - 500
    requires forall e :: e in es ==> Settable(e)
    requires var b := Run(Initialized(s, t, now), es); b.enabled && CleanRun(b, ts) && LongEnough(b, ts, k)
    ensures var b := Run(Initialized(s, t, now), es);
            && Recovered(b, RunTicks(b, ts)) && CeilingCounted(b) && b.limits == Initialized(s, t, now).limits
            && (b.caps.target > 0 ==> (RunTicks(b, ts).quality.bitrateKbps == b.caps.target <==> ReachesTarget(b)))
  {
    hide CleanRun, RunTicks, Run, Recovered, ReachesTarget, LongEnough;
    LimitsFixed(Initialized(s, t, now), es);
    SoundReached(Initialized(s, t, now), es);
    CleanRunConverges(Run(Initialized(s, t, now), es), ts, k);
  }

  // ---------- Clean runs exist ----------

  /** A report that measures nothing and asks for nothing. */
  const QUIET := Feedback(false, 0.0, 0, false, 0.0, [], false)

  /** `n` evaluations, one interval apart, each after a quiet report. */
  function QuietTicks(s: State, n: nat): (ts: seq<Tick>)
    ensures |ts| == n
  {
    if n == 0 then [] else QuietTicks(s, n - 1) + [Tick([QUIET], s.clocks.lastEval + n * (s.evalMs * 1_000_000))]
  }

  /** Nothing is pending, and the last round trip does not look like the start of a rise. */
  predicate Settled(s: State) {
    s.window == EMPTY_WINDOW && s.ticks.rising < RTT_TREND_TICKS && s.ticks.loss >= 0 &&
    !(s.lastRtt > 0.0 && s.ewma.rtt > s.lastRtt + RTT_TREND_MIN_RISE_MS)
  }

  lemma AbsorbQuiet(s: State)
    requires s.window == EMPTY_WINDOW
    ensures AbsorbAll(s, [QUIET]) == s.(window := EMPTY_WINDOW.(arrived := true))
  {
    assert [QUIET][..0] == [] && NackKeys([]) == {};
    assert AbsorbAll(s, [QUIET]) == Absorb(AbsorbAll(s, []), QUIET);
  }

  lemma ExactInterval(since: int, ms: int)
    requires ms > 0
    ensures ElapsedMs(since, since + ms * 1_000_000) == ms
  {
  }

  /** One interval after an evaluation a quiet report makes a clean tick of a settled state, and settles it again. */
  lemma QuietTickIsClean(s: State)
    requires Ready(s) && Settled(s)
    ensures var t := Tick([QUIET], s.clocks.lastEval + s.evalMs * 1_000_000);
            CleanTick(s, t) && Settled(RunTick(s, t))
  {
    hide React, Recover, AtRung, ElapsedMs, AdaptDelay;
    var t := Tick([QUIET], s.clocks.lastEval + s.evalMs * 1_000_000);
    var s1 := s.(window := EMPTY_WINDOW.(arrived := true));
    AbsorbQuiet(s);
    ExactInterval(s.clocks.lastEval, s.evalMs);
    DelayFrame(OpenWindow(s1, t.now), s1.window, t.now);
    RecoverFrame(Sampled(s1, t.now), t.now);
  }

  lemma DelayFrame(s: State, w: Window, now: int)
    ensures var r := AdaptDelay(s, w, now);
            r == s.(quality := r.quality, ticks := s.ticks.(cleanDelay := r.ticks.cleanDelay))
  {
  }

  lemma RecoverFrame(s: State, now: int)
    ensures var r := Recover(s, now);
            r.window == s.window && r.ewma == s.ewma && r.lastRtt == s.lastRtt && r.ticks.rising == s.ticks.rising &&
            r.clocks == s.clocks && r.evalMs == s.evalMs && r.ticks.loss == 0
  {
  }

  /** Clean runs of every length exist: quiet reports one interval apart keep a settled session clean. */
  lemma {:induction false} QuietRunIsClean(s: State, n: nat)
    requires Ready(s) && Settled(s)
    ensures CleanRun(s, QuietTicks(s, n)) && Settled(RunTicks(s, QuietTicks(s, n)))
    ensures RunTicks(s, QuietTicks(s, n)).clocks.lastEval == s.clocks.lastEval + n * (s.evalMs * 1_000_000)
  {
    hide CleanTick, RunTick, CleanRun, RunTicks, Ready, Settled;
    if n == 0 {
      NoTicks(s);
    } else {
      var ts := QuietTicks(s, n - 1);
      var b := RunTicks(s, ts);
      QuietRunIsClean(s, n - 1);
      RunKeepsReady(s, ts);
      QuietTickIsClean(b);
      OneMoreUnit(n, s.evalMs * 1_000_000);
      var t := Tick([QUIET], b.clocks.lastEval + s.evalMs * 1_000_000);
      OneMoreTick(s, ts, t);
      TickKeepsReady(b, t);
    }
  }

  /** So a session just started has clean runs of every length, each after its downshift clock. */
  lemma FreshSessionHasCleanRuns(s: State, t: Start, now: int, n: nat)
    requires s.enabled && s.evalMs > 0 && s.ticks.stability >= 0 && t.bitrateKbps <= TWO32 - 500
    ensures var b := Initialized(s, t, now);
            CleanRun(b, QuietTicks(b, n)) && (n > 0 ==> QuietTicks(b, n)[0].now >= b.clocks.lastDownshift)
  {
    hide CleanRun, RunTicks, AtRung;
    var b := Initialized(s, t, now);
    QuietRunIsClean(b, n);
    if n > 0 { FirstQuietTick(b, n); }
  }

  lemma {:induction false} FirstQuietTick(s: State, n: nat)
    requires n > 0
    ensures QuietTicks(s, n)[0].now == s.clocks.lastEval + s.evalMs * 1_000_000
  {
    if n > 1 { FirstQuietTick(s, n - 1); }
  }

  lemma NoTicks(s: State)
    ensures CleanRun(s, []) && RunTicks(s, []) == s
  {
  }

  lemma OneMoreTick(s: State, ts: seq<Tick>, t: Tick)
    ensures RunTicks(s, ts + [t]) == RunTick(RunTicks(s, ts), t)
    ensures CleanRun(s, ts + [t]) <==> CleanRun(s, ts) && CleanTick(RunTicks(s, ts), t)
  {
    hide CleanTick, RunTick;
    assert (ts + [t])[..|ts|] == ts;
  }

  lemma OneMoreUnit(n: int, unit: int)
    ensures n * unit == (n - 1) * unit + unit
  {
  }

  // ---------- Congested sessions ----------

  /** A picture loss and the evaluation that finds it. */
  function PliTick(now: int): Tick { Tick([PLI], now) }

  lemma AbsorbPli(s: State)
    requires s.window == EMPTY_WINDOW
    ensures AbsorbAll(s, [PLI]) == s.(window := EMPTY_WINDOW.(pli := true, arrived := true))
  {
    assert [PLI][..0] == [] && NackKeys([]) == {};
    assert AbsorbAll(s, [PLI]) == Absorb(AbsorbAll(s, []), PLI);
  }

  /** Past the cooldown a picture loss moves a settled state one rung down, or keeps it on the floor, imposes the
      ceiling and leaves the ceiling's counter alone. */
  lemma PliTickReacts(s: State, now: int)
    requires Ready(s) && Settled(s) && Due(s, now) && CanDownshift(s, now)
    ensures var r := RunTick(s, PliTick(now));
            && Ready(r) && Settled(r) && r.limits == s.limits && r.evalMs == s.evalMs && r.caps == ImposeCeiling(s).caps
            && r.rung == (if s.rung < FLOOR_RUNG then s.rung + 1 else s.rung)
            && r.ticks.stability == s.ticks.stability && r.clocks.lastEval == now
            && r.clocks.lastDownshift == (if s.rung < FLOOR_RUNG then now else s.clocks.lastDownshift)
  {
    hide AtRung, AdaptDelay, Ladder, ApplyCaps, ElapsedMs;
    var s1 := s.(window := EMPTY_WINDOW.(pli := true, arrived := true));
    AbsorbPli(s);
    DelayFrame(OpenWindow(s1, now), s1.window, now);
    EvaluationKeepsSound(s1, now);
  }

  lemma ElapsedAtLeast(since: int, now: int, ms: int)
    requires ms >= 0 && now >= since + ms * 1_000_000
    ensures ElapsedMs(since, now) >= ms
  {
  }

  lemma InitializedSettled(s: State, t: Start, now: int)
    requires s.enabled && s.evalMs > 0 && s.ticks.stability >= 0 && t.bitrateKbps <= TWO32 - 500
    ensures Ready(Initialized(s, t, now)) && Settled(Initialized(s, t, now))
  {
    hide AtRung;
  }

  /** Any time from four intervals after the last evaluation on is late enough for a downshift. */
  lemma FourIntervalsLater(s: State, now: int)
    requires s.evalMs > 0 && now >= s.clocks.lastEval + 4 * s.evalMs * 1_000_000
    requires s.clocks.lastDownshift <= s.clocks.lastEval
    ensures Due(s, now) && CanDownshift(s, now)
  {
    ElapsedAtLeast(s.clocks.lastEval, now, s.evalMs);
    ElapsedAtLeast(s.clocks.lastDownshift, now, 4 * s.evalMs);
  }

  /** A session started as 1080p at 30 fps and 5000 kbps that congests twice is on 720p30, and no clean run, however
      long, takes it off that rung again: the next one up runs at 60 fps. */
  lemma StuckOn720p30(s: State, t: Start, now: int, first: int, later: int, ts: seq<Tick>)
    requires s.enabled && s.evalMs > 0 && s.ticks.stability >= 0
    requires t == Start(1920, 1080, 30, 5000, t.delayMs)
    requires first >= now + 4 * s.evalMs * 1_000_000 && later >= first + 4 * s.evalMs * 1_000_000
    requires CleanRun(RunTicks(Initialized(s, t, now), [PliTick(first), PliTick(later)]), ts)
    ensures var b := RunTicks(Initialized(s, t, now), [PliTick(first), PliTick(later)]);
            Initialized(s, t, now).rung == 4 && b.rung == 6 && RunTicks(b, ts).rung == 6
  {
    hide RunTick, CleanTick, CleanRun, RunTicks, Ready, Settled, AtRung, ElapsedMs;
    var i := Initialized(s, t, now);
    InitializedSettled(s, t, now);
    TwoTicks(i, PliTick(first), PliTick(later));
    assert i.rung == 4 && i.limits == Limits(1920, 1080, 30);
    FourIntervalsLater(i, first);
    PliTickReacts(i, first);
    var a := RunTick(i, PliTick(first));
    FourIntervalsLater(a, later);
    PliTickReacts(a, later);
    var b := RunTick(a, PliTick(later));
    RunKeepsRest(b, ts);
    RunKeepsReady(b, ts);
    assert !Open(5, b.limits, b.caps.user);
    assert Rest(6, b.limits, b.caps.user) == 6;
  }

  lemma TwoTicks(s: State, t: Tick, u: Tick)
    ensures RunTicks(s, [t, u]) == RunTick(RunTick(s, t), u)
  {
    assert [t, u][..1] == [t] && [t][..0] == [];
    assert RunTicks(s, [t]) == RunTick(RunTicks(s, []), t);
  }

  /** Every 1080p session meets a reimposed ceiling that lasts one clean evaluation: it congests, the ceiling lifts
      after `CeilingTicks` clean evaluations with its counter left standing, it congests again at the next one, and
      the new ceiling is gone after a single clean evaluation. */
  lemma ReimposedCeilingReached(s: State, t: Start, now: int)
    requires s.enabled && s.evalMs > 0 && s.ticks.stability >= 0 && t.bitrateKbps <= TWO32 - 500
    requires t.width <= 1920 && t.height <= 1080
    ensures var a := RunTick(Initialized(s, t, now), PliTick(now + 4 * s.evalMs * 1_000_000));
            var b := RunTicks(a, QuietTicks(a, CeilingTicks(s.ticks.stability)));
            var c := RunTick(b, PliTick(b.clocks.lastEval + 4 * s.evalMs * 1_000_000));
            && CleanRun(a, QuietTicks(a, CeilingTicks(s.ticks.stability))) && CleanRun(c, QuietTicks(c, 1))
            && a.caps.stability == c.caps.stability == 8000 && b.caps.stability == 0
            && RunTicks(c, QuietTicks(c, 1)).caps.stability == 0
  {
    hide RunTick, CleanTick, CleanRun, RunTicks, Ready, Settled, AtRung, ElapsedMs, QuietTicks;
    var i, gap := Initialized(s, t, now), 4 * s.evalMs * 1_000_000;
    InitializedSettled(s, t, now);
    FourIntervalsLater(i, now + gap);
    PliTickReacts(i, now + gap);
    var a, n := RunTick(i, PliTick(now + gap)), CeilingTicks(s.ticks.stability);
    var ts := QuietTicks(a, n);
    QuietRunIsClean(a, n);
    CeilingLasts(a, ts);
    RunKeepsReady(a, ts);
    RunKeepsRest(a, ts);
    var b := RunTicks(a, ts);
    assert n * (a.evalMs * 1_000_000) >= 0;
    FourIntervalsLater(b, b.clocks.lastEval + gap);
    PliTickReacts(b, b.clocks.lastEval + gap);
    var c := RunTick(b, PliTick(b.clocks.lastEval + gap));
    QuietRunIsClean(c, 1);
    CeilingLasts(c, QuietTicks(c, 1));
  }
}
