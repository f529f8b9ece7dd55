/** What the controller does about a bad link, in terms of the feedback received and plain numbers: the dual of its
    recovery on a clean one. */
module AdaptiveCongestion {
  import opened Arithmetic
  import opened Adaptive
  import opened AdaptiveRuns
  import opened AdaptiveConvergence

  const MS := 1_000_000
  const THREE_S := 3_000_000_000

  // ---------- What a window shows ----------

  /** A window that shows trouble: 3 % loss, a round trip above 120 ms, 50 packets asked for, a picture lost, or 1 %
      loss with packets asked for, more of them needed when arrival times jitter. */
  predicate Trouble(w: Window) {
    || w.loss > 0.03 || w.rtt > 120.0 || |w.nackKeys| >= 50 || w.pli
    || (w.loss > 0.01 && |w.nackKeys| >= 6) || (w.loss > 0.01 && w.jitter <= 30.0 && |w.nackKeys| >= 4)
  }

  /** Trouble that counts for two evaluations. */
  predicate Severe(w: Window) {
    || |w.nackKeys| >= 50 || w.pli
    || (w.loss > 0.03 && |w.nackKeys| >= 10) || (w.loss > 0.03 && w.jitter <= 30.0 && |w.nackKeys| >= 8)
  }

  /** Trouble that does not wait for the cooldown of four intervals. */
  predicate Flood(w: Window) { w.loss > 0.15 || (|w.nackKeys| >= 50 && w.loss > 0.03) }

  /** The third round trip in a row more than 3 ms above the one before. */
  predicate ThirdRise(s: State) {
    var sample := if s.window.rtt > 0.0 then s.window.rtt else s.ewma.rtt;
    s.ticks.rising >= 2 && s.lastRtt > 0.0 && sample > s.lastRtt + 3.0
  }

  /** An evaluation at `now` that acts with adaptation on. */
  predicate Evaluating(s: State, now: int) {
    s.enabled && s.evalMs > 0 && s.window.arrived && now - s.clocks.lastEval >= s.evalMs * MS
  }

  /** The bitrate of a rung, cut to whatever caps there are. */
  predicate RungBitrate(kbps: uint32, rung: RungIndex, user: uint32, ceiling: uint32) {
    && kbps <= Ladder(rung).bitrateKbps && (user > 0 ==> kbps <= user) && (ceiling > 0 ==> kbps <= ceiling)
    && (kbps == Ladder(rung).bitrateKbps || (user > 0 && kbps == user) || (ceiling > 0 && kbps == ceiling))
  }

  lemma Waited(since: int, now: int, ms: int)
    requires ms > 0
    ensures ElapsedMs(since, now) >= ms <==> now - since >= ms * MS
  {
  }

  lemma CongestedMeans(s: State, now: int)
    ensures Congested(Sampled(s, now), s.window) <==> Trouble(s.window) || ThirdRise(s)
    ensures SevereFeedback(s.window) <==> Severe(s.window)
    ensures RttTrend(Sampled(s, now)) <==> ThirdRise(s)
    ensures Emergency(s.window) <==> Flood(s.window)
  {
    hide AdaptDelay;
    DelayFrame(OpenWindow(s, now), s.window, now);
  }

  // ---------- One evaluation ----------

  /** Whether trouble moves the rung down now. */
  predicate DownshiftDue(s: State, now: int) {
    || (Flood(s.window) && now - s.clocks.lastDownshift >= THREE_S)
    || (now - s.clocks.lastDownshift >= 4 * s.evalMs * MS &&
        (s.ticks.loss >= 1 || Severe(s.window) || ThirdRise(s)))
  }

  lemma TroubledReaction(s: State, now: int)
    requires Evaluating(s, now) && s.ticks.loss >= 0
    ensures var s1 := Sampled(s, now);
            var r := React(s1, s.window, now);
            && r.ticks.clean == 0
            && r.rung == (if s.rung < FLOOR_RUNG && DownshiftDue(s, now) then s.rung + 1 else s.rung)
            && (r.rung > s.rung ==>
                  && r.clocks.lastDownshift == now && r.ticks.loss == 0
                  && RungBitrate(r.quality.bitrateKbps, r.rung, s.caps.user, r.caps.stability))
            && (r.rung == s.rung ==>
                  && r.clocks.lastDownshift == s.clocks.lastDownshift
                  && r.quality.bitrateKbps == s.quality.bitrateKbps
                  && (s.rung < FLOOR_RUNG ==> r.ticks.loss >= Min(2, s.ticks.loss + 1)))
            && r.ticks.loss >= 0
  {
    hide Sampled, Ladder, SevereFeedback, Emergency, RttTrend, ElapsedMs, Flood, Severe, ThirdRise;
    CongestedMeans(s, now);
    SampledFrame(s, now);
    Waited(s.clocks.lastDownshift, now, 3000);
    Waited(s.clocks.lastDownshift, now, 4 * s.evalMs);
  }

  lemma EvaluatingDue(s: State, now: int)
    requires Evaluating(s, now)
    ensures Evaluate(s, now) == EvaluateEnabled(s, now)
  {
    hide EvaluateEnabled;
    Waited(s.clocks.lastEval, now, s.evalMs);
  }

  /** Trouble, or a third rise, zeroes the clean count, raises neither rung nor bitrate by recovery, and moves exactly
      one rung down, to that rung's capped bitrate, if and only if it is due: at once for a flood three seconds past
      the last downshift, else four intervals past it when severe or the second in a row. */
  lemma TroubledEvaluation(s: State, now: int)
    requires Evaluating(s, now) && s.ticks.loss >= 0 && (Trouble(s.window) || ThirdRise(s))
    ensures var r := Evaluate(s, now);
            && r.ticks.clean == 0 && r.ticks.loss >= 0
            && r.rung == (if s.rung < FLOOR_RUNG && DownshiftDue(s, now) then s.rung + 1 else s.rung)
            && (if r.rung > s.rung
                then RungBitrate(r.quality.bitrateKbps, r.rung, s.caps.user, r.caps.stability)
                else r.quality.bitrateKbps == s.quality.bitrateKbps)
  {
    hide Sampled, React, Recover, Congested, Trouble, ThirdRise, DownshiftDue, RungBitrate, Ladder;
    EvaluatingDue(s, now);
    CongestedMeans(s, now);
    TroubledReaction(s, now);
  }

  /** An evaluation restarts a short clean count exactly when its window shows trouble or a third rise. */
  lemma CleanCountRestartsIff(s: State, now: int)
    requires Evaluating(s, now) && s.ticks.loss >= 0 && 0 <= s.ticks.clean < 7
    ensures Evaluate(s, now).ticks.clean == (if Trouble(s.window) || ThirdRise(s) then 0 else s.ticks.clean + 1)
  {
    hide Sampled, React, Congested, Trouble, ThirdRise, DownshiftDue, Ladder, ApplyCaps, Ramped, UpshiftAllowed;
    EvaluatingDue(s, now);
    CongestedMeans(s, now);
    TroubledReaction(s, now);
    SampledFrame(s, now);
  }

  /** With adaptation off a downshift needs a tenth of loss, a lost picture, or 50 packets asked for with 3 % loss, and
      three seconds since the last one. */
  lemma DisabledDownshiftIff(s: State, now: int)
    requires !s.enabled && s.evalMs > 0 && s.window.arrived && now - s.clocks.lastEval >= s.evalMs * MS
    ensures Evaluate(s, now).rung == s.rung + 1 <==>
              && s.rung < FLOOR_RUNG && now - s.clocks.lastDownshift >= THREE_S
              && (s.window.loss > 0.10 || s.window.pli || (|s.window.nackKeys| >= 50 && s.window.loss > 0.03))
    ensures Evaluate(s, now).rung in {s.rung, s.rung + 1}
  {
    Waited(s.clocks.lastEval, now, s.evalMs);
    Waited(s.clocks.lastDownshift, now, 3000);
  }

  // ---------- From feedback to window ----------

  /** The loss of the last report block, if there was one. */
  function LastLoss(fbs: seq<Feedback>): Option<real> {
    if fbs == [] then None
    else
      var fb := fbs[|fbs| - 1];
      if fb.hasReportBlock then Some(fb.fractionLost) else LastLoss(fbs[..|fbs| - 1])
  }

  /** The packets some feedback asks for. */
  ghost predicate AskedFor(fbs: seq<Feedback>, n: Nack) { exists i :: 0 <= i < |fbs| && n in fbs[i].nacks }

  lemma NackKeyInjective(a: Nack, b: Nack)
    requires NackKey(a) == NackKey(b)
    ensures a == b
  {
  }

  /** An evaluation sees the last loss reported, every packet asked for, and whether a picture was lost. */
  lemma {:induction false} WindowCollects(s: State, fbs: seq<Feedback>)
    ensures var w := AbsorbAll(s, fbs).window;
            && w.loss == (if LastLoss(fbs).Some? then LastLoss(fbs).value else s.window.loss)
            && (w.pli <==> s.window.pli || exists i :: 0 <= i < |fbs| && fbs[i].pli)
            && (forall n: Nack :: NackKey(n) in w.nackKeys <==> NackKey(n) in s.window.nackKeys || AskedFor(fbs, n))
            && (w.arrived <==> s.window.arrived || fbs != [])
  {
    if fbs != [] {
      var init, fb := fbs[..|fbs| - 1], fbs[|fbs| - 1];
      WindowCollects(s, init);
      var a, b := AbsorbAll(s, init).window, AbsorbAll(s, fbs).window;
      CollectOne(AbsorbAll(s, init), fb);
      forall n: Nack
        ensures NackKey(n) in b.nackKeys <==> NackKey(n) in s.window.nackKeys || AskedFor(fbs, n)
      {
        assert AskedFor(fbs, n) <==> AskedFor(init, n) || n in fb.nacks by {
          if AskedFor(init, n) {
            var i :| 0 <= i < |init| && n in init[i].nacks;
            assert n in fbs[i].nacks;
          }
        }
      }
      if a.pli && !s.window.pli {
        var i :| 0 <= i < |init| && init[i].pli;
        assert fbs[i].pli;
      }
    }
  }

  lemma CollectOne(s: State, fb: Feedback)
    ensures var w := Absorb(s, fb).window;
            && w.loss == (if fb.hasReportBlock then fb.fractionLost else s.window.loss)
            && (w.pli <==> s.window.pli || fb.pli) && w.arrived
            && (forall n: Nack :: NackKey(n) in w.nackKeys <==> NackKey(n) in s.window.nackKeys || n in fb.nacks)
  {
    hide Smooth;
    forall n: Nack ensures NackKey(n) in NackKeys(fb.nacks) <==> n in fb.nacks {
      if NackKey(n) in NackKeys(fb.nacks) {
        var m :| m in fb.nacks && NackKey(m) == NackKey(n);
        NackKeyInjective(m, n);
      }
    }
  }

  /** A set of distinct packets asked for counts once each. */
  lemma {:induction false} KeysCount(keys: set<int>, packets: set<Nack>)
    requires forall n :: n in packets ==> NackKey(n) in keys
    ensures |keys| >= |packets|
    decreases |packets|
  {
    if packets != {} {
      var n :| n in packets;
      forall m | m in packets - {n} ensures NackKey(m) in keys - {NackKey(n)} {
        if NackKey(m) == NackKey(n) { NackKeyInjective(m, n); }
      }
      KeysCount(keys - {NackKey(n)}, packets - {n});
    }
  }

  /** Feedback that reports 3 % loss last, loses a picture, or asks for fifty packets makes the window show trouble,
      whatever else was pending. */
  lemma FeedbackShowsTrouble(s: State, fbs: seq<Feedback>, packets: set<Nack>)
    requires forall n :: n in packets ==> AskedFor(fbs, n)
    requires || (LastLoss(fbs).Some? && LastLoss(fbs).value > 0.03)
             || (exists i :: 0 <= i < |fbs| && fbs[i].pli)
             || |packets| >= 50
             || (LastLoss(fbs).Some? && LastLoss(fbs).value > 0.01 && |packets| >= 6)
    ensures Trouble(AbsorbAll(s, fbs).window)
  {
    WindowCollects(s, fbs);
    KeysCount(AbsorbAll(s, fbs).window.nackKeys, packets);
  }

  /** More than 15 % loss in the last report of an interval, three seconds past the last downshift: one rung down. */
  lemma HeavyLossDownshifts(s: State, fbs: seq<Feedback>, now: int)
    requires s.enabled && s.evalMs > 0 && s.ticks.loss >= 0 && s.rung < FLOOR_RUNG
    requires LastLoss(fbs).Some? && LastLoss(fbs).value > 0.15
    requires now - s.clocks.lastEval >= s.evalMs * MS && now - s.clocks.lastDownshift >= THREE_S
    ensures var r := RunTick(s, Tick(fbs, now));
            && r.rung == s.rung + 1 && r.ticks.clean == 0
            && RungBitrate(r.quality.bitrateKbps, r.rung, s.caps.user, r.caps.stability)
  {
    hide Evaluate, RungBitrate;
    var s1 := AbsorbAll(s, fbs);
    assert fbs != [];
    AbsorbFrame(s, fbs);
    WindowCollects(s, fbs);
    TroubledEvaluation(s1, now);
  }

  /** So every session not started on the floor leaves its rung at the first evaluation, if that interval's last
      report has such a loss. */
  lemma FreshSessionReactsToLoss(s: State, t: Start, now: int, fbs: seq<Feedback>, later: int)
    requires s.enabled && s.evalMs > 0 && later >= now + s.evalMs * MS
    requires LastLoss(fbs).Some? && LastLoss(fbs).value > 0.15 && Initialized(s, t, now).rung < FLOOR_RUNG
    ensures RunTick(Initialized(s, t, now), Tick(fbs, later)).rung == Initialized(s, t, now).rung + 1
  {
    hide RunTick, AtRung;
    HeavyLossDownshifts(Initialized(s, t, now), fbs, later);
  }

  // ---------- Round trips and jitter ----------

  /** Round trips above a level keep the average above it, and the window sees the average. */
  lemma {:induction false} RoundTripsAbove(s: State, fbs: seq<Feedback>, level: real)
    requires s.ewma.initialized ==> s.ewma.rtt > level
    requires forall i :: 0 <= i < |fbs| && fbs[i].hasRtt ==> fbs[i].rttMs > level
    ensures var r := AbsorbAll(s, fbs);
            && (r.ewma.initialized ==> r.ewma.rtt > level)
            && ((exists i :: 0 <= i < |fbs| && fbs[i].hasRtt) ==> r.window.rtt > level)
  {
    if fbs != [] {
      var init := fbs[..|fbs| - 1];
      RoundTripsAbove(s, init, level);
      if i :| 0 <= i < |fbs| && fbs[i].hasRtt && !fbs[|fbs| - 1].hasRtt {
        assert init[i].hasRtt;
      }
    }
  }

  /** Round trips above 120 ms show trouble. */
  lemma SlowLinkShowsTrouble(s: State, fbs: seq<Feedback>)
    requires s.ewma.initialized ==> s.ewma.rtt > 120.0
    requires forall i :: 0 <= i < |fbs| && fbs[i].hasRtt ==> fbs[i].rttMs > 120.0
    requires exists i :: 0 <= i < |fbs| && fbs[i].hasRtt
    ensures Trouble(AbsorbAll(s, fbs).window)
  {
    RoundTripsAbove(s, fbs, 120.0);
  }

  /** `n` reports of one round trip and one jitter. */
  function Steady(n: nat, rttMs: real, jitter: uint32): (fbs: seq<Feedback>)
    ensures |fbs| == n
  {
    if n == 0 then [] else Steady(n - 1, rttMs, jitter) + [Feedback(true, rttMs, jitter, false, 0.0, [], false)]
  }

  /** The distance of the round-trip average from steady samples shrinks by a fifth at each, that of the jitter average
      by a tenth; where the receiver reports no jitter the round trips' distance from their average stands in. */
  lemma {:induction false} SteadyAverages(s: State, n: nat, x: real, jitter: uint32)
    requires s.ewma.initialized
    ensures var r, p, q := AbsorbAll(s, Steady(n, x, jitter)), Power(0.8, n), Power(0.9, n);
            && r.ewma.initialized && p > 0.0
            && r.ewma.rtt - x == p * (s.ewma.rtt - x)
            && (jitter > 0 ==> r.ewma.jitter - jitter as real == q * (s.ewma.jitter - jitter as real))
            && (jitter == 0 ==> r.ewma.jitter == q * s.ewma.jitter + (q - p) * AbsR(s.ewma.rtt - x))
            && (n > 0 ==> r.window.rtt == r.ewma.rtt && r.window.jitter == r.ewma.jitter)
  {
    hide Power, Smooth, AbsorbAll, Steady, AbsR;
    PowerStep(0.8, n);
    PowerStep(0.9, n);
    if n == 0 {
      NothingAbsorbed(s, x, jitter);
    } else {
      SteadyAverages(s, n - 1, x, jitter);
      AbsorbSteady(s, n, x, jitter);
      var b := AbsorbAll(s, Steady(n - 1, x, jitter));
      SmoothSteady(b.ewma, x, jitter);
      SteadyStep(b.ewma.rtt, b.ewma.jitter, s.ewma.rtt, s.ewma.jitter, Power(0.8, n - 1), Power(0.9, n - 1), x,
                 jitter as real);
    }
  }

  lemma NothingAbsorbed(s: State, x: real, jitter: uint32)
    ensures AbsorbAll(s, Steady(0, x, jitter)) == s
  {
  }

  lemma AbsorbSteady(s: State, n: nat, x: real, jitter: uint32)
    requires n > 0 && AbsorbAll(s, Steady(n - 1, x, jitter)).ewma.initialized
    ensures var b, r := AbsorbAll(s, Steady(n - 1, x, jitter)), AbsorbAll(s, Steady(n, x, jitter));
            && r.ewma == Smooth(b.ewma, x, jitter as real)
            && r.window.rtt == r.ewma.rtt && r.window.jitter == r.ewma.jitter
  {
    hide Smooth;
    assert Steady(n, x, jitter)[..n - 1] == Steady(n - 1, x, jitter);
  }

  lemma SmoothSteady(e: Ewma, x: real, jitter: uint32)
    requires e.initialized
    ensures var r := Smooth(e, x, jitter as real);
            && r.initialized && r.rtt - x == 0.8 * (e.rtt - x)
            && r.jitter == 0.9 * e.jitter + 0.1 * (if jitter > 0 then jitter as real else AbsR(x - e.rtt))
  {
  }

  /** The first sample is taken as it is. */
  lemma {:induction false} SteadyFromStart(s: State, n: nat, x: real, jitter: uint32)
    requires !s.ewma.initialized && n > 0
    ensures AbsorbAll(s, Steady(n, x, jitter)).ewma == Ewma(x, jitter as real, true)
  {
    assert Steady(n, x, jitter)[..n - 1] == Steady(n - 1, x, jitter);
    if n > 1 { SteadyFromStart(s, n - 1, x, jitter); } else { NothingAbsorbed(s, x, jitter); }
  }

  /** Every evaluation counts a round trip more than 3 ms above the last one, and starts over at any other; a downshift
      starts over too. */
  lemma RiseCounted(s: State, now: int)
    requires Evaluating(s, now) && s.ticks.loss >= 0
    ensures var r := Evaluate(s, now);
            var sample := if s.window.rtt > 0.0 then s.window.rtt else s.ewma.rtt;
            && r.lastRtt == sample
            && r.ticks.rising ==
                 if r.rung > s.rung then 0
                 else if s.lastRtt > 0.0 && sample > s.lastRtt + 3.0 then s.ticks.rising + 1
                 else 0
  {
    hide Congested, Ladder, ApplyCaps, Ramped, UpshiftAllowed, SevereFeedback, Emergency, AdaptDelay;
    EvaluatingDue(s, now);
    DelayFrame(OpenWindow(s, now), s.window, now);
  }

  // ---------- Playout delay ----------

  /** A window that degrades the playout delay. */
  predicate Jumpy(s: State) {
    var w := s.window;
    || s.ewma.jitter > 30.0 || w.loss > 0.03 || |w.nackKeys| >= 50 || w.pli
    || (w.loss > 0.01 && |w.nackKeys| >= 6) || (w.loss > 0.01 && w.jitter <= 30.0 && |w.nackKeys| >= 4)
  }

  /** A window without loss, requests or picture loss, under 25 ms of round trip and 8 ms of jitter. */
  predicate Calm(s: State) {
    s.window.loss <= 0.0001 && s.window.nackKeys == {} && !s.window.pli && s.ewma.rtt < 25.0 && s.ewma.jitter < 8.0
  }

  /** `e` is the next step above `d`, with none between, or the top. */
  predicate NextUp(d: int, e: int) {
    e in {200, 300, 400} && (d < e || d == e == 400) && !(d < 200 < e) && !(d < 300 < e)
  }

  predicate NextDown(d: int, e: int) {
    e in {150, 200, 300} && (e < d || d == e == 150) && !(e < 200 < d) && !(e < 300 < d)
  }

  /** The delay goes to the next of 200, 300 and 400 ms in a degraded interval past the cooldown, to the next of 300,
      200 and 150 at the end of fifteen calm ones, and nowhere else. */
  lemma DelayMoves(s: State, now: int)
    requires Evaluating(s, now) && DelayValid(s) && s.ticks.cleanDelay >= 0
    ensures var d, r := s.quality.delayMs, Evaluate(s, now);
            var e, n := r.quality.delayMs, r.ticks.cleanDelay;
            if Jumpy(s) then
              n == 0 && if now - s.clocks.lastDownshift >= 4 * s.evalMs * MS then NextUp(d, e) else e == d
            else if Calm(s) && s.ticks.cleanDelay >= 14 then n == 0 && NextDown(d, e)
            else e == d && n == if Calm(s) then s.ticks.cleanDelay + 1 else 0
  {
    hide Sampled, Congested, EvaluateEnabled;
    EvaluationActs(s, now);
    EvaluationMovesDelay(s, now);
    Waited(s.clocks.lastDownshift, now, 4 * s.evalMs);
  }

  lemma EvaluationActs(s: State, now: int)
    requires Evaluating(s, now)
    ensures Acts(s, now)
  {
    Waited(s.clocks.lastEval, now, s.evalMs);
  }

  // ---------- The ceiling ----------

  /** A session larger than 1080p never gets a ceiling. */
  lemma {:induction false} NoCeilingAbove1080p(s: State, es: seq<Event>)
    requires s.limits.maxWidth > 1920 || s.limits.maxHeight > 1080
    requires s.caps.stability == 0
    ensures Run(s, es).caps.stability == 0
  {
    hide Step;
    if es != [] {
      NoCeilingAbove1080p(s, es[..|es| - 1]);
      LimitsFixed(s, es[..|es| - 1]);
      StepImposesNoCeiling(Run(s, es[..|es| - 1]), es[|es| - 1]);
    }
  }

  lemma StepImposesNoCeiling(s: State, e: Event)
    requires (s.limits.maxWidth > 1920 || s.limits.maxHeight > 1080) && s.caps.stability == 0
    ensures Step(s, e).caps.stability == 0
  {
    hide Sampled, Congested, Ladder, ApplyCaps, Ramped, UpshiftAllowed, SevereFeedback, Emergency, Absorb;
    if e.Evaluated? { SampledFrame(s, e.now); } else if e.Received? { AbsorbKeepsCaps(s, e.feedback); }
  }

  lemma AbsorbKeepsCaps(s: State, fb: Feedback)
    ensures Absorb(s, fb).caps == s.caps
  {
  }

  // ---------- The floor warning ----------

  /** On the floor, two bad evaluations in a row past the cooldown warn, at most once in ten seconds. */
  lemma FloorWarnsIff(s: State, now: int)
    requires Evaluating(s, now) && s.ticks.loss >= 0 && (Trouble(s.window) || ThirdRise(s))
    requires now != s.clocks.lastFloorWarning
    ensures var last, r := s.clocks.lastFloorWarning, Evaluate(s, now);
            && r.clocks.lastFloorWarning in {last, now}
            && (r.clocks.lastFloorWarning == now <==>
                  && s.rung == FLOOR_RUNG && (last == 0 || now - last >= 10_000_000_000)
                  && now - s.clocks.lastDownshift >= 4 * s.evalMs * MS
                  && (s.ticks.loss >= 1 || Severe(s.window) || ThirdRise(s)))
  {
    hide Sampled, Recover, Congested, Trouble, ThirdRise, Ladder, ApplyCaps, Severe, Flood, SevereFeedback, Emergency;
    hide RttTrend, ElapsedMs, AtRung;
    EvaluatingDue(s, now);
    CongestedMeans(s, now);
    SampledFrame(s, now);
    Waited(s.clocks.lastDownshift, now, 4 * s.evalMs);
  }

  // ---------- Intervals ----------

  /** Evaluations are an interval apart: one that was due, with feedback or without, starts the interval over, and until
      it has passed no further one changes anything, whatever feedback arrives. */
  lemma EvaluationsAreApart(s: State, now: int, fbs: seq<Feedback>, later: int)
    requires s.evalMs > 0 && now - s.clocks.lastEval >= s.evalMs * MS && later - now < s.evalMs * MS
    ensures var r := AbsorbAll(Evaluate(s, now), fbs);
            Evaluate(r, later) == r
  {
    hide EvaluateEnabled, EvaluateDisabled, AbsorbAll;
    Waited(s.clocks.lastEval, now, s.evalMs);
    EvaluateClosesInterval(s, now);
    AbsorbFrame(Evaluate(s, now), fbs);
    Waited(now, later, s.evalMs);
  }

  lemma EvaluateClosesInterval(s: State, now: int)
    requires Due(s, now)
    ensures Evaluate(s, now).clocks.lastEval == now && Evaluate(s, now).evalMs == s.evalMs
  {
    hide Sampled, Congested, Ladder, ApplyCaps, Ramped, UpshiftAllowed, SevereFeedback, Emergency;
    SampledFrame(s, now);
  }

  /** A ceiling imposed right after a clean evaluation without one lasts its full ten clean evaluations. */
  lemma FreshCeilingLastsTen(s: State, quiet: Tick, now: int, ts: seq<Tick>)
    requires Ready(s) && CleanTick(s, quiet) && s.caps.stability == 0
    requires var a := RunTick(s, quiet); Settled(a) && Due(a, now) && CanDownshift(a, now)
    requires var b := RunTick(RunTick(s, quiet), PliTick(now)); CleanRun(b, ts) && b.caps.stability > 0
    ensures var b := RunTick(RunTick(s, quiet), PliTick(now));
            RunTicks(b, ts).caps.stability == if |ts| < 10 then b.caps.stability else 0
  {
    hide RunTick, CleanTick, CleanRun, RunTicks, Settled, Due, CanDownshift;
    var a := RunTick(s, quiet);
    CleanTickRecovers(s, quiet);
    assert a.ticks.stability == 0;
    TickKeepsReady(s, quiet);
    PliTickReacts(a, now);
    CeilingLasts(RunTick(a, PliTick(now)), ts);
  }

  // ---------- Settings ----------

  /** The largest even size within a rung's and the session's. */
  predicate EvenWithin(size: int, rung: int, limit: int) {
    var m := Min(rung, limit);
    size % 2 == 0 && size <= m < size + 2
  }

  /** Every evaluation that acts with adaptation on and resolution changes allowed leaves frame size and rate at those
      of the rung it ends on, within the session's. */
  lemma EvaluationSetsGeometry(s: State, now: int)
    requires Evaluating(s, now) && s.allowResolution
    ensures var r := Evaluate(s, now);
            && EvenWithin(r.quality.width, Ladder(r.rung).width, s.limits.maxWidth)
            && EvenWithin(r.quality.height, Ladder(r.rung).height, s.limits.maxHeight)
            && r.quality.framerate == Min(Ladder(r.rung).framerate, s.limits.initialFps)
  {
    hide Sampled, Congested, Ladder, ApplyCaps, Ramped, UpshiftAllowed, SevereFeedback, Emergency;
    EvaluatingDue(s, now);
    SampledFrame(s, now);
  }

  /** A session starts with its delay as asked within [150, 400] ms, 200 when none was asked, at the frame size and rate
      of its rung; a delay set later is taken the same way. */
  lemma SettingsTaken(s: State, t: Start, now: int, delayMs: int)
    ensures var r := Initialized(s, t, now);
            && EvenWithin(r.quality.width, Ladder(r.rung).width, t.width)
            && EvenWithin(r.quality.height, Ladder(r.rung).height, t.height)
            && r.quality.framerate == Min(Ladder(r.rung).framerate, if t.framerate > 0 then t.framerate else 60)
            && (150 <= t.delayMs <= 400 ==> r.quality.delayMs == t.delayMs)
            && (t.delayMs <= 0 ==> r.quality.delayMs == 200)
            && (0 < t.delayMs < 150 ==> r.quality.delayMs == 150) && (t.delayMs > 400 ==> r.quality.delayMs == 400)
    ensures var d := SetDelay(s, delayMs).quality.delayMs;
            && (150 <= delayMs <= 400 ==> d == delayMs)
            && (delayMs < 150 ==> d == 150) && (delayMs > 400 ==> d == 400)
  {
    hide Ladder;
  }

  /** Feedback received before a reset of the window has no effect after it. */
  lemma ResetForgetsFeedback(s: State, fbs: seq<Feedback>, now: int)
    ensures ResetWindow(AbsorbAll(s, fbs), now) == ResetWindow(s, now)
  {
    AbsorbFrame(s, fbs);
  }

  /** A live change leaves the session ready to react: heavy loss in the next interval takes it off the new rung. */
  lemma LiveChangeReactsToLoss(s: State, kbps: uint32, now: int, fbs: seq<Feedback>, later: int)
    requires s.enabled && s.evalMs > 0 && SetLive(s, kbps, now).rung < FLOOR_RUNG
    requires later >= now && later - s.clocks.lastEval >= s.evalMs * MS
    requires LastLoss(fbs).Some? && LastLoss(fbs).value > 0.15
    ensures RunTick(SetLive(s, kbps, now), Tick(fbs, later)).rung == SetLive(s, kbps, now).rung + 1
  {
    hide RunTick, RungForBitrateFrom;
    HeavyLossDownshifts(SetLive(s, kbps, now), fbs, later);
  }

  // ---------- Whole runs of trouble ----------

  /** Every interval's window shows trouble when it is evaluated. */
  predicate TroubledRun(s: State, ts: seq<Tick>) {
    ts == [] ||
    (TroubledRun(s, ts[..|ts| - 1]) && TroubledTick(RunTicks(s, ts[..|ts| - 1]), ts[|ts| - 1]))
  }

  predicate TroubledTick(s: State, t: Tick) {
    var s1 := AbsorbAll(s, t.feedback);
    Evaluating(s1, t.now) && Trouble(s1.window)
  }

  /** Whole intervals the last evaluation came after the last downshift. */
  function IntervalsSince(s: State): int
    requires s.evalMs > 0
  {
    (s.clocks.lastEval - s.clocks.lastDownshift) / (s.evalMs * MS)
  }

  /** Evaluations in trouble until the next downshift at the latest. */
  function Patience(s: State): int
    requires s.evalMs > 0
  {
    Max(1, Max(4 - IntervalsSince(s), 2 - s.ticks.loss))
  }

  /** Evaluations in trouble until the floor at the latest. */
  function TicksToFloor(s: State): int
    requires s.evalMs > 0
  {
    if s.rung == FLOOR_RUNG then 0 else 4 * (FLOOR_RUNG - 1 - s.rung) + Patience(s)
  }

  /** At most four for every rung above the floor. */
  lemma TicksToFloorBound(s: State)
    requires s.evalMs > 0 && s.ticks.loss >= 0 && s.clocks.lastDownshift <= s.clocks.lastEval
    ensures TicksToFloor(s) <= 4 * (FLOOR_RUNG - s.rung) <= 28
  {
    NonNegativeQuotient(s.clocks.lastEval - s.clocks.lastDownshift, s.evalMs * MS);
  }

  lemma NonNegativeQuotient(a: nat, unit: nat)
    requires unit > 0
    ensures a / unit >= 0
  {
  }

  lemma OneIntervalMore(a: int, b: int, unit: int)
    requires unit > 0 && b >= a + unit
    ensures b / unit >= a / unit + 1
  {
    var q := a / unit;
    assert b >= (q + 1) * unit;
    QuotientAtLeast(b, unit, q + 1);
  }

  lemma QuotientAtLeast(b: int, unit: int, q: int)
    requires unit > 0 && b >= q * unit
    ensures b / unit >= q
  {
    var d := b / unit;
    assert b == d * unit + b % unit;
    assert (d + 1 - q) * unit == d * unit + unit - q * unit;
    PositiveFactor(d + 1 - q, unit);
  }

  lemma PositiveFactor(x: int, unit: int)
    requires unit > 0 && x * unit > 0
    ensures x > 0
  {
  }

  lemma QuotientTimes(b: int, unit: int, q: int)
    requires unit > 0 && b / unit >= q
    ensures b >= q * unit
  {
    assert b / unit * unit <= b;
    assert q * unit <= b / unit * unit;
  }

  /** One troubled evaluation uses up one of them. */
  lemma TroubledTickCounts(s: State, t: Tick)
    requires s.evalMs > 0 && s.ticks.loss >= 0 && TroubledTick(s, t)
    ensures var r := RunTick(s, t);
            && r.evalMs == s.evalMs && r.ticks.loss >= 0 && r.rung >= s.rung && r.ticks.clean == 0
            && TicksToFloor(r) <= Max(0, TicksToFloor(s) - 1)
  {
    hide Sampled, React, Recover, Congested, Trouble, Ladder, RungBitrate, Flood, Severe, ThirdRise, AbsorbAll;
    hide TicksToFloor, AtRung;
    AbsorbFrame(s, t.feedback);
    var s1 := AbsorbAll(s, t.feedback);
    EvaluatingDue(s1, t.now);
    CongestedMeans(s1, t.now);
    TroubledReaction(s1, t.now);
    ReactionFrame(s1, t.now);
    CountsDown(s, RunTick(s, t));
  }

  /** What a troubled evaluation does to the count, as a downshift, a wait or on the floor. */
  lemma CountsDown(s: State, r: State)
    requires s.evalMs > 0 && r.evalMs == s.evalMs && s.ticks.loss >= 0 && r.ticks.loss >= 0
    requires r.clocks.lastEval - s.clocks.lastEval >= s.evalMs * MS
    requires || (s.rung < FLOOR_RUNG && r.rung == s.rung + 1 && r.clocks.lastDownshift == r.clocks.lastEval &&
                 r.ticks.loss == 0)
             || (s.rung == FLOOR_RUNG == r.rung)
             || (&& s.rung < FLOOR_RUNG && r.rung == s.rung && r.clocks.lastDownshift == s.clocks.lastDownshift
                 && r.ticks.loss >= Min(2, s.ticks.loss + 1)
                 && !(r.clocks.lastEval - s.clocks.lastDownshift >= 4 * s.evalMs * MS && s.ticks.loss >= 1))
    ensures TicksToFloor(r) <= Max(0, TicksToFloor(s) - 1)
  {
    var unit := s.evalMs * MS;
    if r.rung > s.rung {
      NothingElapsed(unit);
    } else if s.rung < FLOOR_RUNG {
      OneIntervalMore(s.clocks.lastEval - s.clocks.lastDownshift, r.clocks.lastEval - s.clocks.lastDownshift, unit);
      if IntervalsSince(r) >= 4 { QuotientTimes(r.clocks.lastEval - s.clocks.lastDownshift, unit, 4); }
    }
  }

  lemma NothingElapsed(unit: int)
    requires unit > 0
    ensures 0 / unit == 0
  {
  }

  lemma ReactionFrame(s: State, now: int)
    ensures var r := React(Sampled(s, now), s.window, now);
            r.clocks.lastEval == now && r.evalMs == s.evalMs && r.enabled == s.enabled
  {
    hide Ladder, ApplyCaps, SevereFeedback, Emergency, Sampled;
    SampledFrame(s, now);
  }

  /** The dual of convergence: a run whose every window shows trouble is on the floor rung after at most
      `TicksToFloor` evaluations, never climbs, and counts nothing as clean. */
  lemma {:induction false} TroubledRunReachesFloor(s: State, ts: seq<Tick>)
    requires s.evalMs > 0 && s.ticks.loss >= 0 && TroubledRun(s, ts)
    ensures var r := RunTicks(s, ts);
            && r.rung >= s.rung && r.evalMs == s.evalMs && r.ticks.loss >= 0
            && (ts != [] ==> r.ticks.clean == 0)
            && TicksToFloor(r) <= Max(0, TicksToFloor(s) - |ts|)
            && (|ts| >= TicksToFloor(s) ==> r.rung == FLOOR_RUNG)
  {
    hide RunTick, TroubledTick, Patience;
    if ts != [] {
      var init := ts[..|ts| - 1];
      TroubledRunReachesFloor(s, init);
      TroubledTickCounts(RunTicks(s, init), ts[|ts| - 1]);
    }
    AboveFloorNeedsTicks(RunTicks(s, ts));
  }

  lemma AboveFloorNeedsTicks(s: State)
    requires s.evalMs > 0
    ensures s.rung < FLOOR_RUNG ==> TicksToFloor(s) >= 1
  {
  }
}
