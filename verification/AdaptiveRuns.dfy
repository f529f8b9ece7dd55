/** Whole-run properties of the adaptive controller: reachable bounds, downshift rate, step-up discipline. */
module AdaptiveRuns {
  import opened Arithmetic
  import opened Adaptive

  datatype Event =
    | Received(feedback: Feedback)
    | Evaluated(now: int)
    | CapSet(kbps: uint32)
    | LiveSet(kbps: uint32, now: int)
    | DelaySet(delayMs: int)
    | ResolutionAllowed(allow: bool)
    | Toggled(on: bool)
    | WindowReset(now: int)

  function Step(s: State, e: Event): State {
    match e
    case Received(fb) => Absorb(s, fb)
    case Evaluated(now) => Evaluate(s, now)
    case CapSet(kbps) => SetCap(s, kbps)
    case LiveSet(kbps, now) => SetLive(s, kbps, now)
    case DelaySet(delayMs) => SetDelay(s, delayMs)
    case ResolutionAllowed(allow) => s.(allowResolution := allow)
    case Toggled(on) => s.(enabled := on)
    case WindowReset(now) => ResetWindow(s, now)
  }

  function Run(s: State, es: seq<Event>): State {
    if es == [] then s else Step(Run(s, es[..|es| - 1]), es[|es| - 1])
  }

  /** The state before event `i` of a run. */
  function Before(s: State, es: seq<Event>, i: nat): State
    requires i <= |es|
  {
    Run(s, es[..i])
  }

  lemma NextState(s: State, es: seq<Event>, i: nat)
    requires i < |es|
    ensures Before(s, es, i + 1) == Step(Before(s, es, i), es[i])
  {
    assert es[..i + 1][..i] == es[..i];
  }

  /** The delay and round-trip bookkeeping of an evaluation leaves everything else alone. */
  lemma SampledFrame(s: State, now: int)
    ensures var r := Sampled(s, now);
            r == s.(quality := s.quality.(delayMs := r.quality.delayMs), window := EMPTY_WINDOW,
                    ticks := s.ticks.(cleanDelay := r.ticks.cleanDelay, rising := r.ticks.rising),
                    lastRtt := r.lastRtt, clocks := s.clocks.(lastEval := now))
    ensures Sampled(s, now).quality.delayMs == AdaptDelay(OpenWindow(s, now), s.window, now).quality.delayMs
    ensures Sampled(s, now).ticks.cleanDelay == AdaptDelay(OpenWindow(s, now), s.window, now).ticks.cleanDelay
  {
  }

  // ---------- Reachable bounds ----------

  /** The cap is the hold target, and frame and delay lie within the session's limits. */
  ghost predicate Bounded(s: State) {
    && s.caps.user == s.caps.target
    && s.quality.width % 2 == 0 && s.quality.height % 2 == 0
    && s.quality.width <= s.limits.maxWidth && s.quality.height <= s.limits.maxHeight
    && s.quality.framerate <= s.limits.initialFps
    && MIN_PLAYOUT_DELAY_MS <= s.quality.delayMs <= MAX_PLAYOUT_DELAY_MS
  }

  /** The bitrate is within a nonzero cap, or within `floor` where the cap is lower. */
  predicate Capped(s: State, floor: nat) {
    s.caps.user > 0 ==> s.quality.bitrateKbps <= Max(s.caps.user, floor)
  }

  /** The floor rung's bitrate, which a live cap does not go below. */
  const FLOOR_KBPS: nat := Ladder(FLOOR_RUNG).bitrateKbps

  /** Live caps reach `floor` at least as far as the floor rung does. */
  predicate Respects(e: Event, floor: nat) { !e.Toggled? && (e.LiveSet? ==> Max(e.kbps, floor) >= FLOOR_KBPS) }

  lemma InitializeBounds(s: State, t: Start, now: int)
    ensures Bounded(Initialized(s, t, now)) && Capped(Initialized(s, t, now), 0)
  {
  }

  lemma SamplingKeepsBounds(s: State, now: int)
    requires Bounded(s)
    ensures Bounded(Sampled(s, now))
  {
  }

  lemma ReactionKeepsBounds(s: State, w: Window, now: int)
    requires Bounded(s)
    ensures Bounded(React(s, w, now))
  {
    hide SevereFeedback, Emergency, ApplyCaps, Ladder;
  }

  lemma RecoveryKeepsBounds(s: State, now: int)
    requires Bounded(s)
    ensures Bounded(Recover(s, now))
  {
    hide UpshiftAllowed, ApplyCaps, Ladder, Ramped;
  }

  lemma EvaluationKeepsBounds(s: State, now: int)
    requires Bounded(s)
    ensures Bounded(Evaluate(s, now))
  {
    hide Sampled, React, Recover, Congested, Ladder;
    var s1 := Sampled(s, now);
    SamplingKeepsBounds(s, now);
    ReactionKeepsBounds(s1, s.window, now);
    RecoveryKeepsBounds(s1, now);
  }

  lemma StepKeepsBounds(s: State, e: Event)
    requires Bounded(s)
    ensures Bounded(Step(s, e))
  {
    hide Evaluate;
    if e.Evaluated? { EvaluationKeepsBounds(s, e.now); }
  }

  lemma {:induction false} RunKeepsBounds(s: State, es: seq<Event>)
    requires Bounded(s)
    ensures Bounded(Run(s, es))
  {
    hide Step, Bounded;
    if es != [] {
      RunKeepsBounds(s, es[..|es| - 1]);
      StepKeepsBounds(Run(s, es[..|es| - 1]), es[|es| - 1]);
    }
  }

  lemma ReactionKeepsCapped(s: State, w: Window, now: int, floor: nat)
    requires Capped(s, floor)
    ensures Capped(React(s, w, now), floor) && React(s, w, now).enabled == s.enabled
  {
    hide SevereFeedback, Emergency, Ladder;
  }

  lemma RecoveryKeepsCapped(s: State, now: int, floor: nat)
    requires Capped(s, floor)
    ensures Capped(Recover(s, now), floor) && Recover(s, now).enabled == s.enabled
  {
    hide UpshiftAllowed, Ladder, Ramped;
  }

  lemma StepKeepsCapped(s: State, e: Event, floor: nat)
    requires Capped(s, floor) && s.enabled && Respects(e, floor)
    ensures Capped(Step(s, e), floor) && Step(s, e).enabled
  {
    hide Sampled, React, Recover, Congested;
    if e.Evaluated? {
      SampledFrame(s, e.now);
      ReactionKeepsCapped(Sampled(s, e.now), s.window, e.now, floor);
      RecoveryKeepsCapped(Sampled(s, e.now), e.now, floor);
    }
  }

  lemma {:induction false} RunKeepsCapped(s: State, es: seq<Event>, floor: nat)
    requires Capped(s, floor) && s.enabled && forall e :: e in es ==> Respects(e, floor)
    ensures Capped(Run(s, es), floor) && Run(s, es).enabled
  {
    hide Step, Capped, Respects;
    if es != [] {
      var init, e := es[..|es| - 1], es[|es| - 1];
      assert e in es && forall x :: x in init ==> x in es;
      RunKeepsCapped(s, init, floor);
      StepKeepsCapped(Run(s, init), e, floor);
    }
  }

  /** Every state a session reaches after `Initialize` respects its limits. With adaptation on the bitrate is within
      the cap or the floor rung's bitrate, and within the cap alone when every live cap reached that rung. */
  lemma ReachableBounds(s: State, t: Start, now: int, es: seq<Event>)
    ensures var r := Run(Initialized(s, t, now), es);
            && Bounded(r)
            && (s.enabled && (forall e :: e in es ==> !e.Toggled?) ==> Capped(r, FLOOR_KBPS))
            && (s.enabled && (forall e :: e in es ==> !e.Toggled? && (e.LiveSet? ==> e.kbps >= FLOOR_KBPS)) ==>
                  Capped(r, 0))
  {
    hide Run, Bounded, Initialized;
    var i := Initialized(s, t, now);
    InitializeBounds(s, t, now);
    InitializeKeepsEnabled(s, t, now);
    RunKeepsBounds(i, es);
    if s.enabled && forall e :: e in es ==> !e.Toggled? { RunKeepsCapped(i, es, FLOOR_KBPS); }
    if s.enabled && forall e :: e in es ==> !e.Toggled? && (e.LiveSet? ==> e.kbps >= FLOOR_KBPS) {
      RunKeepsCapped(i, es, 0);
    }
  }

  lemma InitializeKeepsEnabled(s: State, t: Start, now: int)
    ensures Initialized(s, t, now).enabled == s.enabled
  {
  }

  /** A live bitrate change leaves the bitrate within the new cap exactly when the cap reaches the floor rung. */
  lemma LiveCapRespectedIff(s: State, kbps: uint32, now: int)
    ensures SetLive(s, kbps, now).quality.bitrateKbps <= kbps <==> kbps >= FLOOR_KBPS
  {
  }

  /** With adaptation off a downshift takes the ladder bitrate past every cap: the result is within a nonzero cap
      exactly when the next rung's bitrate is, whatever the bitrate was before. */
  lemma DisabledDownshiftCappedIff(s: State, now: int)
    requires !s.enabled && Evaluate(s, now).rung > s.rung
    ensures Capped(Evaluate(s, now), 0) <==> s.caps.user == 0 || Ladder(s.rung + 1).bitrateKbps <= s.caps.user
    ensures ApplyCaps(Evaluate(s, now).quality.bitrateKbps, s.caps) == Evaluate(s, now).quality.bitrateKbps <==>
              && (s.caps.user == 0 || Ladder(s.rung + 1).bitrateKbps <= s.caps.user)
              && (s.caps.stability == 0 || Ladder(s.rung + 1).bitrateKbps <= s.caps.stability)
  {
  }

  /** A report that asks for a key frame and measures nothing. */
  const PLI := Feedback(false, 0.0, 0, false, 0.0, [], true)

  /** Every session started below the floor rung's bitrate gets there: no rung fits it, it starts on 1080p60, and one
      picture loss with adaptation off sets the 5000 kbps of the rung below. */
  lemma DisabledDownshiftPassesCap(s: State, t: Start, now: int)
    requires 0 < t.bitrateKbps < FLOOR_KBPS && s.evalMs >= 0
    ensures var es := [Toggled(false), Received(PLI), Evaluated(now + s.evalMs * 1_000_000)];
            Run(Initialized(s, t, now), es).quality.bitrateKbps == 5000
  {
    hide AtRung;
    var b, later := Initialized(s, t, now), now + s.evalMs * 1_000_000;
    assert b.rung == 3;
    RunThree(b, Toggled(false), Received(PLI), Evaluated(later));
  }

  lemma RunThree(s: State, a: Event, b: Event, c: Event)
    ensures Run(s, [a, b, c]) == Step(Step(Step(s, a), b), c)
  {
    hide Step;
    var es := [a, b, c];
    assert es[..2] == [a, b] && es[..2][..1] == [a] && es[..2][..1][..0] == [];
    assert Run(s, [a]) == Step(Run(s, []), a);
    assert Run(s, [a, b]) == Step(Run(s, [a]), b);
  }

  lemma StepFreezesGeometry(s: State, e: Event)
    requires !s.allowResolution && (e.ResolutionAllowed? ==> !e.allow)
    ensures SameGeometry(s, Step(s, e)) && !Step(s, e).allowResolution
  {
    hide Sampled, Congested;
    if e.Evaluated? { SampledFrame(s, e.now); }
  }

  predicate SameGeometry(a: State, b: State) {
    a.quality.width == b.quality.width && a.quality.height == b.quality.height &&
    a.quality.framerate == b.quality.framerate
  }

  /** While resolution changes are disallowed no run changes the frame size or rate. */
  lemma {:induction false} GeometryFrozen(s: State, es: seq<Event>)
    requires !s.allowResolution && (forall e :: e in es ==> e.ResolutionAllowed? ==> !e.allow)
    ensures SameGeometry(s, Run(s, es)) && !Run(s, es).allowResolution
  {
    hide Step;
    if es != [] {
      var init, e := es[..|es| - 1], es[|es| - 1];
      assert e in es && forall x :: x in init ==> x in es;
      GeometryFrozen(s, init);
      StepFreezesGeometry(Run(s, init), e);
    }
  }

  // ---------- Downshift rate ----------

  /** Event `i` is an evaluation that moves the rung down the ladder. */
  predicate Downshifts(s: State, es: seq<Event>, i: nat)
    requires i < |es|
  {
    es[i].Evaluated? && Before(s, es, i + 1).rung > Before(s, es, i).rung
  }

  predicate Upshifts(s: State, es: seq<Event>, i: nat)
    requires i < |es|
  {
    es[i].Evaluated? && Before(s, es, i + 1).rung < Before(s, es, i).rung
  }

  /** The least distance of two downshifts, in nanoseconds. */
  function DownshiftGap(evalMs: int): int { Min(3000, 4 * evalMs) * 1_000_000 }

  predicate NoReset(es: seq<Event>, from: nat, to: nat)
    requires to <= |es|
  {
    forall k :: from <= k < to ==> !es[k].LiveSet?
  }

  /** How a move of the rung and the downshift clock go together. */
  predicate ShiftsOneRung(s: State, r: State, now: int) {
    && -1 <= r.rung - s.rung <= 1
    && (r.rung > s.rung ==> r.clocks.lastDownshift == now && now - s.clocks.lastDownshift >= DownshiftGap(s.evalMs))
    && (r.rung <= s.rung ==> r.clocks.lastDownshift == s.clocks.lastDownshift)
  }

  lemma ReactionShiftsOneRung(s: State, w: Window, now: int)
    requires s.evalMs > 0
    ensures ShiftsOneRung(s, React(s, w, now), now)
  {
    hide SevereFeedback, Emergency, ApplyCaps, Ladder;
  }

  lemma RecoveryShiftsOneRung(s: State, now: int)
    ensures ShiftsOneRung(s, Recover(s, now), now)
  {
    hide UpshiftAllowed, ApplyCaps, Ladder, Ramped;
  }

  /** What one evaluation can do to the rung and the downshift clock. */
  lemma EvaluationShiftsOneRung(s: State, now: int)
    requires s.evalMs > 0
    ensures ShiftsOneRung(s, Evaluate(s, now), now)
  {
    hide Sampled, Congested, React, Recover, AtRung;
    SampledFrame(s, now);
    ReactionShiftsOneRung(Sampled(s, now), s.window, now);
    RecoveryShiftsOneRung(Sampled(s, now), now);
  }

  /** The downshift clock over one event: only a downshifting evaluation or a live change moves it. */
  lemma StepMovesClock(s: State, e: Event)
    requires s.evalMs > 0
    ensures var r := Step(s, e);
            && r.evalMs == s.evalMs
            && (e.Evaluated? && r.rung > s.rung ==>
                  r.clocks.lastDownshift == e.now && e.now - s.clocks.lastDownshift >= DownshiftGap(s.evalMs))
            && (!e.LiveSet? && !(e.Evaluated? && r.rung > s.rung) ==>
                  r.clocks.lastDownshift == s.clocks.lastDownshift)
  {
    hide Evaluate, Absorb;
    if e.Evaluated? {
      EvaluationShiftsOneRung(s, e.now);
      EvaluationKeepsInterval(s, e.now);
    } else if e.Received? {
      AbsorbKeepsClocks(s, e.feedback);
    }
  }

  lemma EvaluationKeepsInterval(s: State, now: int)
    ensures Evaluate(s, now).evalMs == s.evalMs
  {
    hide Sampled, Congested, Ladder, ApplyCaps, UpshiftAllowed;
    SampledFrame(s, now);
  }

  lemma AbsorbKeepsClocks(s: State, fb: Feedback)
    ensures Absorb(s, fb).evalMs == s.evalMs && Absorb(s, fb).clocks == s.clocks
  {
  }

  lemma {:induction false} EvalIntervalFixed(s: State, es: seq<Event>)
    requires s.evalMs > 0
    ensures Run(s, es).evalMs == s.evalMs
  {
    hide Step;
    if es != [] {
      EvalIntervalFixed(s, es[..|es| - 1]);
      StepMovesClock(Run(s, es[..|es| - 1]), es[|es| - 1]);
    }
  }

  /** After a downshift the clock never falls behind it, until a reset. */
  lemma {:induction false} DownshiftClockHolds(s: State, es: seq<Event>, i: nat, j: nat)
    requires i < j <= |es| && s.evalMs > 0 && Downshifts(s, es, i) && NoReset(es, i, j)
    ensures Before(s, es, j).clocks.lastDownshift >= es[i].now
  {
    hide Step, Run;
    NextState(s, es, j - 1);
    EvalIntervalFixed(s, es[..j - 1]);
    StepMovesClock(Before(s, es, j - 1), es[j - 1]);
    if i + 1 < j { DownshiftClockHolds(s, es, i, j - 1); }
  }

  /** Any two downshifts, emergency or ordinary, with adaptation on or off, are at least
      min(3000 ms, four evaluation intervals) apart. */
  lemma DownshiftsAreApart(s: State, es: seq<Event>, i: nat, j: nat)
    requires i < j < |es| && s.evalMs > 0 && Downshifts(s, es, i) && Downshifts(s, es, j) && NoReset(es, i, j)
    ensures es[j].now - es[i].now >= DownshiftGap(s.evalMs)
  {
    hide Step, Run;
    DownshiftClockHolds(s, es, i, j);
    NextState(s, es, j);
    EvalIntervalFixed(s, es[..j]);
    StepMovesClock(Before(s, es, j), es[j]);
  }

  function CountDownshifts(s: State, es: seq<Event>, to: nat): nat
    requires to <= |es|
  {
    if to == 0 then 0 else CountDownshifts(s, es, to - 1) + (if Downshifts(s, es, to - 1) then 1 else 0)
  }

  lemma {:induction false} DownshiftClockCounts(s: State, es: seq<Event>, to: nat, t0: int, t1: int)
    requires to <= |es| && s.evalMs > 0 && NoReset(es, 0, to) && t0 <= t1
    requires forall k :: 0 <= k < to && es[k].Evaluated? ==> t0 <= es[k].now <= t1
    ensures var n := CountDownshifts(s, es, to);
            n > 0 ==> t0 + (n - 1) * DownshiftGap(s.evalMs) <= Before(s, es, to).clocks.lastDownshift <= t1
  {
    hide Step, Run, DownshiftGap;
    if to > 0 {
      DownshiftClockCounts(s, es, to - 1, t0, t1);
      NextState(s, es, to - 1);
      EvalIntervalFixed(s, es[..to - 1]);
      StepMovesClock(Before(s, es, to - 1), es[to - 1]);
      var n, gap := CountDownshifts(s, es, to - 1), DownshiftGap(s.evalMs);
      assert n * gap == (n - 1) * gap + gap;
    }
  }

  /** A run whose evaluations lie in a window holds at most one downshift more than whole gaps in it. */
  lemma DownshiftsInWindow(s: State, es: seq<Event>, t0: int, t1: int)
    requires s.evalMs > 0 && NoReset(es, 0, |es|) && t0 <= t1
    requires forall k :: 0 <= k < |es| && es[k].Evaluated? ==> t0 <= es[k].now <= t1
    ensures (CountDownshifts(s, es, |es|) - 1) * DownshiftGap(s.evalMs) <= t1 - t0
  {
    hide Step, Run;
    DownshiftClockCounts(s, es, |es|, t0, t1);
    if CountDownshifts(s, es, |es|) == 0 { assert DownshiftGap(s.evalMs) >= 0; }
  }

  // ---------- Step-up discipline ----------

  /** What an observer of the controller sees in one event. */
  datatype Outcome = Nothing | Restart | Congestion | Steady | Ramp | Up

  function OutcomeOf(s: State, e: Event): Outcome {
    if e.LiveSet? || e.WindowReset? then Restart
    else if !e.Evaluated? || !Acts(s, e.now) || !s.enabled then Nothing
    else if Congested(Sampled(s, e.now), s.window) then Congestion
    else if Evaluate(s, e.now).rung < s.rung then Up
    else if RampDue(CountClean(Sampled(s, e.now))) then Ramp
    else Steady
  }

  /** Clean evaluations with feedback since the last congestion, ramp, upshift, live change or window reset of a run.
      Evaluations with adaptation off, which leave the clean count alone even when they downshift, are passed over. */
  function CleanStreak(s: State, es: seq<Event>): nat {
    if es == [] then 0 else
    var streak := CleanStreak(s, es[..|es| - 1]);
    match OutcomeOf(Run(s, es[..|es| - 1]), es[|es| - 1])
    case Nothing => streak
    case Steady => streak + 1
    case _ => 0
  }

  lemma EvaluationCountsClean(s: State, now: int)
    ensures var r := Evaluate(s, now);
            match OutcomeOf(s, Evaluated(now))
            case Nothing => r.ticks.clean == s.ticks.clean
            case Steady => r.ticks.clean == s.ticks.clean + 1 || r.ticks.clean == 0
            case _ => r.ticks.clean == 0
  {
    hide Sampled, Congested;
    SampledFrame(s, now);
  }

  lemma StepCountsClean(s: State, e: Event)
    ensures match OutcomeOf(s, e)
            case Nothing => Step(s, e).ticks.clean == s.ticks.clean
            case Steady => Step(s, e).ticks.clean <= Max(s.ticks.clean + 1, 0)
            case _ => Step(s, e).ticks.clean == 0
  {
    hide Evaluate, Sampled, Congested;
    if e.Evaluated? { EvaluationCountsClean(s, e.now); }
  }

  lemma {:induction false} CleanTicksWithinStreak(s: State, es: seq<Event>)
    requires s.ticks.clean <= 0
    ensures Run(s, es).ticks.clean <= CleanStreak(s, es)
  {
    hide Step, OutcomeOf;
    if es != [] {
      var init, e := es[..|es| - 1], es[|es| - 1];
      CleanTicksWithinStreak(s, init);
      StepCountsClean(Run(s, init), e);
    }
  }

  /** What an upshifting evaluation must have found. */
  lemma UpshiftNeeds(s: State, e: Event)
    requires e.Evaluated? && Step(s, e).rung < s.rung
    ensures OutcomeOf(s, e) == Up && s.ticks.clean + 1 >= 10
    ensures e.now - s.clocks.lastDownshift >= FIFTEEN_S
    ensures s.caps.target == 0 || s.quality.bitrateKbps >= s.caps.target
  {
    hide Sampled, Congested;
    SampledFrame(s, e.now);
  }

  /** Every upshift closes a streak of ten clean evaluations, at the hold target, 15 s after any
      downshift with no live change since; a live change sets the downshift clock to 10 s ago. */
  lemma UpshiftDiscipline(s: State, es: seq<Event>, i: nat)
    requires i < |es| && s.ticks.clean <= 0 && s.evalMs > 0 && Upshifts(s, es, i)
    ensures OutcomeOf(Before(s, es, i), es[i]) == Up && CleanStreak(s, es[..i]) + 1 >= 10
    ensures var b := Before(s, es, i); b.caps.target == 0 || b.quality.bitrateKbps >= b.caps.target
    ensures forall k :: 0 <= k < i && Downshifts(s, es, k) && NoReset(es, k, i) ==>
              es[i].now - es[k].now >= FIFTEEN_S
  {
    hide Step, Run, OutcomeOf;
    NextState(s, es, i);
    UpshiftNeeds(Before(s, es, i), es[i]);
    CleanTicksWithinStreak(s, es[..i]);
    forall k | 0 <= k < i && Downshifts(s, es, k) && NoReset(es, k, i)
      ensures es[i].now - es[k].now >= FIFTEEN_S
    {
      DownshiftClockHolds(s, es, k, i);
    }
  }

  /** What an evaluation that raises the bitrate without moving the rung must have found. */
  lemma RampNeeds(s: State, e: Event)
    requires e.Evaluated? && Step(s, e).rung == s.rung && s.caps.target <= TWO32 - 500
    requires Step(s, e).quality.bitrateKbps > s.quality.bitrateKbps
    ensures OutcomeOf(s, e) == Ramp && s.ticks.clean + 1 >= 8 && Step(s, e).ticks.rising == 0
    ensures var b, r, target := s.quality.bitrateKbps, Step(s, e).quality.bitrateKbps, s.caps.target;
            b < r <= target && r - b <= Max(500, (target - b) / 2)
  {
    hide Sampled, Congested, Ladder, React, Recover;
    SampledFrame(s, e.now);
    ReactionRaisesNothing(Sampled(s, e.now), s.window, e.now);
    RecoveryRamps(Sampled(s, e.now), e.now);
  }

  lemma ReactionRaisesNothing(s: State, w: Window, now: int)
    ensures React(s, w, now).rung == s.rung ==> React(s, w, now).quality.bitrateKbps == s.quality.bitrateKbps
  {
    hide Ladder, SevereFeedback, Emergency, ApplyCaps, ElapsedMs;
  }

  lemma RecoveryRamps(s: State, now: int)
    requires s.caps.target <= TWO32 - 500
    ensures var b, p, target := s.quality.bitrateKbps, Recover(s, now), s.caps.target;
            p.rung == s.rung && p.quality.bitrateKbps > b ==>
              && RampDue(CountClean(s)) && s.ticks.clean + 1 >= 8 && p.ticks.rising == 0
              && p.quality.bitrateKbps <= target && p.quality.bitrateKbps - b <= Max(500, (target - b) / 2)
  {
    hide Ladder, UpshiftAllowed, Ramped, ElapsedS;
    if s.quality.bitrateKbps < s.caps.target { RampGains(s.quality.bitrateKbps, s.caps.target); }
    CapsOnlyCut(s, now);
  }

  lemma RampGains(b: uint32, target: uint32)
    requires b < target <= TWO32 - 500
    ensures b < Ramped(b, target) <= target && Ramped(b, target) - b <= Max(500, (target - b) / 2)
  {
  }

  lemma CapsOnlyCut(s: State, now: int)
    ensures Recover(s, now).rung == s.rung ==> Recover(s, now).quality == RampUp(CountClean(s)).quality
    ensures forall x: uint32, c: Caps :: ApplyCaps(x, c) <= x
  {
    hide Ladder, UpshiftAllowed, Ramped, RampDue, ElapsedS;
  }

  /** Every ramp of a run closes a streak of eight clean evaluations and gains at most half the gap to the target, or
      500 kbps. */
  lemma RampDiscipline(s: State, es: seq<Event>, i: nat)
    requires i < |es| && s.ticks.clean <= 0 && es[i].Evaluated?
    requires var b, r := Before(s, es, i), Before(s, es, i + 1);
             r.rung == b.rung && r.quality.bitrateKbps > b.quality.bitrateKbps && b.caps.target <= TWO32 - 500
    ensures var b, r := Before(s, es, i), Before(s, es, i + 1);
            var gap := b.caps.target - b.quality.bitrateKbps;
            && CleanStreak(s, es[..i]) + 1 >= 8 && gap > 0 && r.ticks.rising == 0
            && r.quality.bitrateKbps - b.quality.bitrateKbps <= Min(gap, Max(500, gap / 2))
  {
    hide Step, Run, OutcomeOf;
    NextState(s, es, i);
    RampNeeds(Before(s, es, i), es[i]);
    CleanTicksWithinStreak(s, es[..i]);
  }

  /** What an event says about the playout delay. */
  datatype DelayOutcome = DelayNothing | DelayRestart | DelayDirty | DelayHeld | DelayStepped

  function DelayOutcomeOf(s: State, e: Event): DelayOutcome {
    if e.WindowReset? then DelayRestart
    else if !e.Evaluated? || !Acts(s, e.now) || !s.enabled then DelayNothing
    else if DelayDegraded(s, s.window) || !DelayClean(s, s.window) then DelayDirty
    else if Evaluate(s, e.now).quality.delayMs < s.quality.delayMs then DelayStepped
    else DelayHeld
  }

  /** Delay-clean evaluations since the last other one, the last step down or the last window reset. */
  function DelayStreak(s: State, es: seq<Event>): nat {
    if es == [] then 0 else
    var streak := DelayStreak(s, es[..|es| - 1]);
    match DelayOutcomeOf(Run(s, es[..|es| - 1]), es[|es| - 1])
    case DelayNothing => streak
    case DelayHeld => streak + 1
    case _ => 0
  }

  predicate DelayValid(s: State) { MIN_PLAYOUT_DELAY_MS <= s.quality.delayMs <= MAX_PLAYOUT_DELAY_MS }

  /** How one evaluation moves the delay and its counter. */
  lemma EvaluationMovesDelay(s: State, now: int)
    requires DelayValid(s) && Acts(s, now) && s.enabled
    ensures var r, d := Evaluate(s, now), AdaptDelay(OpenWindow(s, now), s.window, now);
            r.quality.delayMs == d.quality.delayMs && r.ticks.cleanDelay == d.ticks.cleanDelay
  {
    hide AdaptDelay, Sampled, Congested;
    SampledFrame(s, now);
  }

  lemma StepMovesDelay(s: State, e: Event)
    requires DelayValid(s)
    ensures var r := Step(s, e);
            && DelayValid(r)
            && (e.Evaluated? && r.quality.delayMs != s.quality.delayMs ==> r.quality.delayMs in {150, 200, 300, 400})
            && (e.Evaluated? && r.quality.delayMs < s.quality.delayMs ==>
                  DelayOutcomeOf(s, e) == DelayStepped && s.ticks.cleanDelay + 1 >= 15)
            && match DelayOutcomeOf(s, e)
               case DelayNothing => r.ticks.cleanDelay == s.ticks.cleanDelay
               case DelayHeld => r.ticks.cleanDelay <= Max(s.ticks.cleanDelay + 1, 0)
               case _ => r.ticks.cleanDelay == 0
  {
    hide EvaluateEnabled, NackPressure;
    if e.Evaluated? && Acts(s, e.now) && s.enabled { EvaluationMovesDelay(s, e.now); }
  }

  lemma {:induction false} DelayTicksWithinStreak(s: State, es: seq<Event>)
    requires s.ticks.cleanDelay <= 0 && DelayValid(s)
    ensures Run(s, es).ticks.cleanDelay <= DelayStreak(s, es) && DelayValid(Run(s, es))
  {
    hide Step, DelayOutcomeOf;
    if es != [] {
      var init, e := es[..|es| - 1], es[|es| - 1];
      DelayTicksWithinStreak(s, init);
      StepMovesDelay(Run(s, init), e);
    }
  }

  /** An evaluation leaves the delay on a step of its ladder when it moves it, and lowers it only at the end
      of fifteen consecutive delay-clean evaluations. */
  lemma DelayDiscipline(s: State, es: seq<Event>, i: nat)
    requires i < |es| && es[i].Evaluated? && s.ticks.cleanDelay <= 0 && DelayValid(s)
    ensures var was, is_ := Before(s, es, i).quality.delayMs, Before(s, es, i + 1).quality.delayMs;
            && (is_ != was ==> is_ in {150, 200, 300, 400})
            && (is_ < was ==> DelayStreak(s, es[..i]) + 1 >= 15)
  {
    hide Step, Run, DelayOutcomeOf;
    NextState(s, es, i);
    DelayTicksWithinStreak(s, es[..i]);
    StepMovesDelay(Before(s, es, i), es[i]);
  }
}
