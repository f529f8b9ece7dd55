/** The capture layer's sample queue: whole 10 ms frames leave it stamped on one advancing timeline. */
module CaptureQueue {
  import opened Arithmetic

  datatype CapturedFrame = CapturedFrame(stamp: int, samples: seq<int>)

  /** Values per frame and the frame's duration in nanoseconds. */
  datatype Format = Format(values: nat, durationNs: nat)

  /** Queued values, the stamp of the first one, and whether that stamp is set. */
  datatype Queue = Queue(pending: seq<int>, start: int, hasStart: bool)

  datatype Flushed = Flushed(queue: Queue, frames: seq<CapturedFrame>)

  predicate Usable(f: Format) { f.values > 0 && f.durationNs > 0 && f.durationNs % 1000 == 0 }

  /** A queued value always has a stamp, and between calls less than a frame is queued. */
  predicate QueueValid(f: Format, q: Queue) { (q.pending != [] ==> q.hasStart) && |q.pending| < f.values }

  function Flush(f: Format, q: Queue): (r: Flushed)
    requires f.values > 0
    decreases |q.pending|
  {
    if |q.pending| < f.values then Flushed(q.(hasStart := q.hasStart && q.pending != []), [])
    else
      var rest := Flush(f, Queue(q.pending[f.values..], q.start + f.durationNs, true));
      rest.(frames := [CapturedFrame(q.start, q.pending[..f.values])] + rest.frames)
  }

  /** A queue about to be flushed that never got a start is stamped now. */
  function Started(f: Format, q: Queue, now: int): Queue {
    if q.hasStart || |q.pending| < f.values then q else q.(start := now, hasStart := true)
  }

  /** Queues values captured at `stamp`: the stamp counts only when the queue was empty. */
  function Enqueue(f: Format, q: Queue, values: seq<int>, stamp: int): Flushed
    requires f.values > 0
  {
    Flush(f, Queue(q.pending + values, if q.pending == [] then stamp else q.start, true))
  }

  function Zeros(n: nat): seq<int> { seq(n, _ => 0) }

  /** Whole frames an idle timeline lags behind now, at most five, and where it continues. */
  function IdleFrames(f: Format, start: int, now: int): nat
    requires Usable(f)
  {
    if now <= start then 0 else Min(5, (now - start) / 1000 / (f.durationNs / 1000))
  }

  function IdleStart(f: Format, start: int, now: int): int
    requires Usable(f)
  {
    if now > start && (now - start) / 1000 / (f.durationNs / 1000) > 5 then now - 5 * f.durationNs else start
  }

  function Idle(f: Format, q: Queue, now: int): Flushed
    requires Usable(f)
  {
    var start := if q.start == 0 then now else q.start;
    var s := IdleStart(f, start, now);
    Enqueue(f, q.(start := s), Zeros(IdleFrames(f, start, now) * f.values), s)
  }

  /** Restamps a partial queue to end where the next buffer starts. */
  function Reanchor(q: Queue, bufferTs: int, valueRate: nat): Queue
    requires valueRate > 0
  {
    if q.pending == [] then q.(hasStart := false)
    else q.(start := bufferTs - 1_000_000 * |q.pending| / valueRate * 1000, hasStart := true)
  }

  lemma FlushOne(f: Format, q: Queue)
    requires f.values > 0
    ensures if |q.pending| < f.values then Flush(f, q) == Flushed(q.(hasStart := q.hasStart && q.pending != []), [])
            else var rest := Flush(f, Queue(q.pending[f.values..], q.start + f.durationNs, true));
                 Flush(f, q) == rest.(frames := [CapturedFrame(q.start, q.pending[..f.values])] + rest.frames)
  {
  }

  // ---------- What a flush emits ----------

  function Samples(frames: seq<CapturedFrame>): seq<int> {
    if frames == [] then [] else frames[0].samples + Samples(frames[1..])
  }

  /** A flush splits the queue in order into whole frames exactly one duration apart, leaving less than a frame. */
  lemma FlushMeaning(f: Format, q: Queue)
    requires f.values > 0
    ensures var r := Flush(f, q);
            && Samples(r.frames) + r.queue.pending == q.pending
            && |r.frames| == |q.pending| / f.values && |r.queue.pending| < f.values
            && r.queue.start == q.start + |r.frames| * f.durationNs
            && (forall k :: 0 <= k < |r.frames| ==>
                  |r.frames[k].samples| == f.values && r.frames[k].stamp == q.start + k * f.durationNs)
            && (q.hasStart || |q.pending| >= f.values ==> QueueValid(f, r.queue))
            && (r.queue.hasStart ==> r.queue.pending != [])
  {
    hide Flush, Samples;
    FlushContents(f, q);
    FlushStamps(f, q);
  }

  lemma {:induction false} FlushContents(f: Format, q: Queue)
    requires f.values > 0
    ensures var r := Flush(f, q);
            && Samples(r.frames) + r.queue.pending == q.pending
            && |r.frames| == |q.pending| / f.values && |r.queue.pending| < f.values
            && (q.hasStart || |q.pending| >= f.values ==> QueueValid(f, r.queue))
            && (r.queue.hasStart ==> r.queue.pending != [])
    decreases |q.pending|
  {
    hide Flush;
    FlushOne(f, q);
    if |q.pending| >= f.values {
      var n := Queue(q.pending[f.values..], q.start + f.durationNs, true);
      FlushContents(f, n);
      var r, t := Flush(f, q), Flush(f, n);
      assert r.frames[1..] == t.frames && r.frames[0].samples == q.pending[..f.values];
      assert q.pending == q.pending[..f.values] + (Samples(t.frames) + t.queue.pending);
      WholeFrames(|q.pending|, f.values);
    } else {
      NoWholeFrame(|q.pending|, f.values);
    }
  }

  lemma NoWholeFrame(n: nat, values: nat)
    requires n < values
    ensures n / values == 0
  {
  }

  lemma {:induction false} FlushStamps(f: Format, q: Queue)
    requires f.values > 0
    ensures var r := Flush(f, q);
            && r.queue.start == q.start + |r.frames| * f.durationNs
            && (forall k :: 0 <= k < |r.frames| ==>
                  |r.frames[k].samples| == f.values && r.frames[k].stamp == q.start + k * f.durationNs)
    decreases |q.pending|
  {
    hide Flush;
    FlushOne(f, q);
    if |q.pending| >= f.values {
      var n := Queue(q.pending[f.values..], q.start + f.durationNs, true);
      FlushStamps(f, n);
      var r, t := Flush(f, q), Flush(f, n);
      forall k | 0 <= k < |r.frames|
        ensures |r.frames[k].samples| == f.values && r.frames[k].stamp == q.start + k * f.durationNs
      {
        if k > 0 {
          assert r.frames[k] == t.frames[k - 1];
          OneMore(k - 1, f.durationNs);
        }
      }
      OneMore(|t.frames|, f.durationNs);
    }
  }

  lemma OneMore(k: int, d: int)
    ensures k * d + d == (k + 1) * d
  {
  }

  lemma WholeFrames(n: nat, values: nat)
    requires 0 < values <= n
    ensures n / values == (n - values) / values + 1
  {
    var q, r := (n - values) / values, (n - values) % values;
    assert n == (q + 1) * values + r;
    DivUnique(n, values, q + 1, r);
  }

  lemma DivUnique(n: nat, d: nat, q: nat, r: nat)
    requires d > 0 && r < d && n == q * d + r
    ensures n / d == q
  {
    assert (n / d - q) * d == r - n % d;
    SmallMultiple(n / d - q, d);
  }

  lemma SmallMultiple(x: int, d: int)
    requires -d < x * d < d
    ensures x == 0
  {
  }

  /** After an idle wake at most five frames went out, on the timeline, and it lags now by less than one frame. */
  lemma IdleCatchesUp(f: Format, q: Queue, now: int)
    requires Usable(f) && QueueValid(f, q)
    ensures var r := Idle(f, q, now);
            && QueueValid(f, r.queue) && |r.frames| <= 5
            && now - r.queue.start < f.durationNs
            && (forall k :: 0 <= k < |r.frames| - 1 ==> r.frames[k + 1].stamp == r.frames[k].stamp + f.durationNs)
            && (r.frames != [] ==> r.queue.start <= now && q.start != 0 && q.start <= r.frames[0].stamp)
  {
    hide Flush, Zeros, IdleFrames, IdleStart;
    var start := if q.start == 0 then now else q.start;
    var n, s := IdleFrames(f, start, now), IdleStart(f, start, now);
    IdleFlushed(f, q, now);
    IdleLag(f, start, now);
    var frames := Idle(f, q, now).frames;
    forall k | 0 <= k < |frames| - 1 ensures frames[k + 1].stamp == frames[k].stamp + f.durationNs {
      OneMore(k, f.durationNs);
    }
    if n > 0 { IdleStarted(f, now); }
  }

  lemma IdleStarted(f: Format, now: int)
    requires Usable(f)
    ensures IdleFrames(f, now, now) == 0
  {
  }

  /** An idle wake puts out its whole frames from where the timeline continues. */
  lemma IdleFlushed(f: Format, q: Queue, now: int)
    requires Usable(f) && QueueValid(f, q)
    ensures var start := if q.start == 0 then now else q.start;
            var r, n, s := Idle(f, q, now), IdleFrames(f, start, now), IdleStart(f, start, now);
            && QueueValid(f, r.queue) && |r.frames| == n && r.queue.start == s + n * f.durationNs
            && forall k :: 0 <= k < n ==> r.frames[k].stamp == s + k * f.durationNs
  {
    hide Flush, IdleFrames, IdleStart;
    var start := if q.start == 0 then now else q.start;
    var n, s := IdleFrames(f, start, now), IdleStart(f, start, now);
    var zeros := Zeros(n * f.values);
    FlushMeaning(f, Queue(q.pending + zeros, s, true));
    assert Idle(f, q, now) == Flush(f, Queue(q.pending + zeros, s, true));
    DivUnique(|q.pending + zeros|, f.values, n, |q.pending|);
  }

  /** Exactly the whole frames the timeline lags behind go out, five at most; up to five it just moves on by them, and
      past five it skips so that they end now. */
  lemma IdleEmits(f: Format, q: Queue, now: int)
    requires Usable(f) && QueueValid(f, q)
    ensures var r, lag := Idle(f, q, now), if q.start == 0 then 0 else now - q.start;
            && |r.frames| == (if lag <= 0 then 0 else Min(5, lag / f.durationNs))
            && r.queue.start ==
                 if lag >= 6 * f.durationNs then now
                 else (if q.start == 0 then now else q.start) + |r.frames| * f.durationNs
  {
    hide Idle, IdleFrames, IdleStart;
    IdleFlushed(f, q, now);
    IdleCounts(f, if q.start == 0 then now else q.start, now);
  }

  lemma IdleLag(f: Format, start: int, now: int)
    requires Usable(f)
    ensures var n, s := IdleFrames(f, start, now), IdleStart(f, start, now);
            n <= 5 && s >= start && now - (s + n * f.durationNs) < f.durationNs &&
            (n > 0 ==> s + n * f.durationNs <= now)
  {
    if now > start {
      WholeUnits(now - start, f.durationNs / 1000, f.durationNs);
    }
  }

  /** Exactly the whole frames of the lag go out; past five the timeline skips so that they end now. */
  lemma IdleCounts(f: Format, start: int, now: int)
    requires Usable(f)
    ensures var n, s, lag := IdleFrames(f, start, now), IdleStart(f, start, now), now - start;
            && n == (if lag <= 0 then 0 else Min(5, lag / f.durationNs))
            && s == (if lag >= 6 * f.durationNs then now - 5 * f.durationNs else start)
  {
    if now > start {
      var lag := now - start;
      var n := lag / 1000 / (f.durationNs / 1000);
      WholeUnits(lag, f.durationNs / 1000, f.durationNs);
      DivUnique(lag, f.durationNs, n, lag - n * f.durationNs);
      if n >= 6 { FactorKeeps(6, n, f.durationNs); } else { FactorKeeps(n + 1, 6, f.durationNs); }
    }
  }

  lemma FactorKeeps(a: int, b: int, d: nat)
    requires a <= b
    ensures a * d <= b * d
  {
  }

  /** Counting in microseconds finds the whole frames of a lag in nanoseconds. */
  lemma WholeUnits(lag: nat, unit: nat, durationNs: nat)
    requires unit > 0 && durationNs == 1000 * unit
    ensures var n := lag / 1000 / unit;
            n * durationNs <= lag < n * durationNs + durationNs && (n > 5 ==> 5 * durationNs <= lag)
  {
    var n := lag / 1000 / unit;
    DivBounds(lag / 1000, unit);
    assert n * durationNs == 1000 * (n * unit);
    if n > 5 { AtLeast(n, durationNs); }
  }

  lemma DivBounds(us: nat, unit: nat)
    requires unit > 0
    ensures us / unit * unit <= us < us / unit * unit + unit
  {
  }

  lemma AtLeast(n: nat, d: nat)
    requires n > 5
    ensures 5 * d <= n * d
  {
  }

  // ---------- Whole runs ----------

  datatype Event = Captured(values: seq<int>, stamp: int) | Woken(now: int) | Discontinued(bufferTs: int)

  function Step(f: Format, rate: nat, q: Queue, e: Event): Flushed
    requires Usable(f) && rate > 0
  {
    match e
    case Captured(values, stamp) => Enqueue(f, q, values, stamp)
    case Woken(now) => Idle(f, q, now)
    case Discontinued(bufferTs) => Flushed(Reanchor(q, bufferTs, rate), [])
  }

  function Run(f: Format, rate: nat, q: Queue, es: seq<Event>): Flushed
    requires Usable(f) && rate > 0
  {
    if es == [] then Flushed(q, [])
    else
      var before := Run(f, rate, q, es[..|es| - 1]);
      var after := Step(f, rate, before.queue, es[|es| - 1]);
      after.(frames := before.frames + after.frames)
  }

  /** What one event queues: captured values, or the silence of an idle wake. */
  function Added(f: Format, q: Queue, e: Event): seq<int>
    requires Usable(f)
  {
    match e
    case Captured(values, _) => values
    case Woken(now) => Zeros(IdleFrames(f, if q.start == 0 then now else q.start, now) * f.values)
    case Discontinued(_) => []
  }

  /** Everything a run queued. */
  function Queued(f: Format, rate: nat, q: Queue, es: seq<Event>): seq<int>
    requires Usable(f) && rate > 0
  {
    if es == [] then q.pending
    else Queued(f, rate, q, es[..|es| - 1]) + Added(f, Run(f, rate, q, es[..|es| - 1]).queue, es[|es| - 1])
  }

  ghost predicate AllWhole(f: Format, frames: seq<CapturedFrame>) {
    forall x :: x in frames ==> |x.samples| == f.values
  }

  lemma {:induction false} SamplesConcat(a: seq<CapturedFrame>, b: seq<CapturedFrame>)
    ensures Samples(a + b) == Samples(a) + Samples(b)
  {
    if a == [] {
      assert a + b == b;
    } else {
      assert (a + b)[1..] == a[1..] + b;
      SamplesConcat(a[1..], b);
    }
  }

  lemma NoSamples()
    ensures Samples([]) == []
  {
  }

  /** Over every run the emitted frames followed by the queue are the queued samples in order, each frame is
      whole, and the queue stays short of one frame. */
  lemma {:induction false} RunConserves(f: Format, rate: nat, q: Queue, es: seq<Event>)
    requires Usable(f) && rate > 0 && QueueValid(f, q)
    ensures var r := Run(f, rate, q, es);
            && Samples(r.frames) + r.queue.pending == Queued(f, rate, q, es)
            && QueueValid(f, r.queue) && AllWhole(f, r.frames)
  {
    hide Step, Samples, Added, QueueValid, Run, Queued;
    if es == [] {
      NoSamples();
      RunNothing(f, rate, q);
    } else {
      var init, e := es[..|es| - 1], es[|es| - 1];
      RunConserves(f, rate, q, init);
      RunOne(f, rate, q, es);
      var b := Run(f, rate, q, init);
      var a := Step(f, rate, b.queue, e);
      StepConserves(f, rate, b.queue, e);
      SamplesConcat(b.frames, a.frames);
      Reassociate(Samples(b.frames), Samples(a.frames), a.queue.pending, b.queue.pending, Added(f, b.queue, e));
    }
  }

  lemma RunNothing(f: Format, rate: nat, q: Queue)
    requires Usable(f) && rate > 0
    ensures Run(f, rate, q, []) == Flushed(q, []) && Queued(f, rate, q, []) == q.pending
  {
  }

  lemma RunOne(f: Format, rate: nat, q: Queue, es: seq<Event>)
    requires Usable(f) && rate > 0 && es != []
    ensures var init, e := es[..|es| - 1], es[|es| - 1];
            var b := Run(f, rate, q, init);
            && Run(f, rate, q, es) ==
                  Flushed(Step(f, rate, b.queue, e).queue, b.frames + Step(f, rate, b.queue, e).frames)
            && Queued(f, rate, q, es) == Queued(f, rate, q, init) + Added(f, b.queue, e)
  {
    hide Step, Added;
  }

  lemma Reassociate(emitted: seq<int>, out: seq<int>, left: seq<int>, pending: seq<int>, added: seq<int>)
    requires out + left == pending + added
    ensures (emitted + out) + left == (emitted + pending) + added
  {
    assert (emitted + out) + left == emitted + (out + left);
  }

  lemma StepConserves(f: Format, rate: nat, q: Queue, e: Event)
    requires Usable(f) && rate > 0 && QueueValid(f, q)
    ensures var r := Step(f, rate, q, e);
            && QueueValid(f, r.queue) && AllWhole(f, r.frames)
            && Samples(r.frames) + r.queue.pending == q.pending + Added(f, q, e)
  {
    match e
    case Captured(values, stamp) =>
      FlushMeaning(f, Queue(q.pending + values, if q.pending == [] then stamp else q.start, true));
    case Woken(now) =>
      var start := if q.start == 0 then now else q.start;
      FlushMeaning(f, Queue(q.pending + Zeros(IdleFrames(f, start, now) * f.values), IdleStart(f, start, now), true));
    case Discontinued(_) =>
  }

  /** Where a run's timeline was last taken from a buffer: the frame that starts with the buffer, and its stamp. */
  datatype Anchor = Anchor(frame: nat, stamp: int)

  /** A buffer that finds the queue empty anchors the timeline; any other continues it. */
  function AnchorOf(f: Format, rate: nat, q: Queue, es: seq<Event>): Anchor
    requires Usable(f) && rate > 0 && forall i :: 0 <= i < |es| ==> es[i].Captured?
  {
    if es == [] then Anchor(0, q.start)
    else
      var before := Run(f, rate, q, es[..|es| - 1]);
      if before.queue.pending == [] then Anchor(|before.frames|, es[|es| - 1].stamp)
      else AnchorOf(f, rate, q, es[..|es| - 1])
  }

  /** The capture instant of frame `k`, counted in frame times from an anchor. */
  function Instant(f: Format, a: Anchor, k: int): int { a.stamp + (k - a.frame) * f.durationNs }

  /** While buffers come in, the frames the last one completes are stamped with the capture instants of their first
      samples, and so is what stays queued. */
  lemma {:induction false} CapturedTimeline(f: Format, rate: nat, q: Queue, es: seq<Event>)
    requires Usable(f) && rate > 0 && QueueValid(f, q) && forall i :: 0 <= i < |es| ==> es[i].Captured?
    ensures var r, a := Run(f, rate, q, es), AnchorOf(f, rate, q, es);
            && (r.queue.pending != [] ==> r.queue.start == Instant(f, a, |r.frames|))
            && (es != [] ==> var n := |Run(f, rate, q, es[..|es| - 1]).frames|;
                             && n <= |r.frames| && r.frames[..n] == Run(f, rate, q, es[..|es| - 1]).frames
                             && forall k :: n <= k < |r.frames| ==> r.frames[k].stamp == Instant(f, a, k))
  {
    hide Run, Queued, Enqueue, Instant, QueueValid, AnchorOf;
    RunNothing(f, rate, q);
    AnchorStep(f, rate, q, es);
    if es == [] {
      InstantHere(f, AnchorOf(f, rate, q, es));
    } else {
      var init, e := es[..|es| - 1], es[|es| - 1];
      CapturedTimeline(f, rate, q, init);
      RunConserves(f, rate, q, init);
      RunOne(f, rate, q, es);
      var b, a := Run(f, rate, q, init), AnchorOf(f, rate, q, es);
      InstantHere(f, a);
      BufferStamps(f, b.queue, e.values, e.stamp, a, |b.frames|);
      var out := Enqueue(f, b.queue, e.values, e.stamp);
      CapturedStep(f, rate, b.queue, e);
      FramesFollow(f, a, b.frames, out.frames);
    }
  }

  lemma AnchorStep(f: Format, rate: nat, q: Queue, es: seq<Event>)
    requires Usable(f) && rate > 0 && forall i :: 0 <= i < |es| ==> es[i].Captured?
    ensures AnchorOf(f, rate, q, es) ==
              if es == [] then Anchor(0, q.start)
              else
                var before := Run(f, rate, q, es[..|es| - 1]);
                if before.queue.pending == [] then Anchor(|before.frames|, es[|es| - 1].stamp)
                else AnchorOf(f, rate, q, es[..|es| - 1])
  {
    hide Run;
  }

  lemma CapturedStep(f: Format, rate: nat, q: Queue, e: Event)
    requires Usable(f) && rate > 0 && e.Captured?
    ensures Step(f, rate, q, e) == Enqueue(f, q, e.values, e.stamp)
  {
    hide Enqueue;
  }

  lemma FramesFollow(f: Format, a: Anchor, before: seq<CapturedFrame>, out: seq<CapturedFrame>)
    requires forall k :: 0 <= k < |out| ==> out[k].stamp == Instant(f, a, |before| + k)
    ensures (before + out)[..|before|] == before
    ensures forall k :: |before| <= k < |before + out| ==> (before + out)[k].stamp == Instant(f, a, k)
  {
    hide Instant;
    forall k | |before| <= k < |before + out| ensures (before + out)[k].stamp == Instant(f, a, k) {
      assert (before + out)[k] == out[k - |before|];
    }
  }

  lemma InstantHere(f: Format, a: Anchor)
    ensures Instant(f, a, a.frame) == a.stamp
  {
  }

  /** The frames one buffer completes, when the queue starts at frame `n` of an anchored timeline. */
  lemma BufferStamps(f: Format, q: Queue, values: seq<int>, stamp: int, a: Anchor, n: nat)
    requires f.values > 0 && (if q.pending == [] then stamp else q.start) == Instant(f, a, n)
    ensures var r := Enqueue(f, q, values, stamp);
            && r.queue.start == Instant(f, a, n + |r.frames|)
            && forall k :: 0 <= k < |r.frames| ==> r.frames[k].stamp == Instant(f, a, n + k)
  {
    hide Flush, Instant;
    var full := Queue(q.pending + values, if q.pending == [] then stamp else q.start, true);
    FlushMeaning(f, full);
    var out := Flush(f, full);
    forall k | 0 <= k < |out.frames| ensures out.frames[k].stamp == Instant(f, a, n + k) {
      InstantsApart(f, a, n, k);
    }
    InstantsApart(f, a, n, |out.frames|);
  }

  lemma InstantsApart(f: Format, a: Anchor, k: int, n: int)
    ensures Instant(f, a, k) + n * f.durationNs == Instant(f, a, k + n)
  {
    assert (k + n - a.frame) * f.durationNs == (k - a.frame) * f.durationNs + n * f.durationNs;
  }

  /** After a discontinuity the queued part ends where the next buffer starts, to the microsecond. */
  lemma ReanchorEndsAtBuffer(q: Queue, bufferTs: int, valueRate: nat)
    requires valueRate > 0 && q.pending != []
    ensures var r := Reanchor(q, bufferTs, valueRate);
            var endUs := 1_000_000 * |q.pending|;
            0 <= endUs * 1000 - (bufferTs - r.start) * valueRate < 1000 * valueRate && r.pending == q.pending
  {
    var us := 1_000_000 * |q.pending| / valueRate;
    assert us * valueRate <= 1_000_000 * |q.pending| < us * valueRate + valueRate;
    assert (us * 1000) * valueRate == 1000 * (us * valueRate);
  }

  // ---------- The frame format ----------

  /** 10 ms of samples per channel, and their duration in whole microseconds. */
  function FormatOf(rate: nat, channels: nat): Format {
    var samples := rate / 100;
    Format(samples * channels, if rate == 0 then 0 else 1_000_000 * samples / rate * 1000)
  }

  /** For every rate the duration is that of the samples, less than a microsecond short; for whole hundreds of samples a
      second, as 48 kHz, it is exactly 10 ms. */
  lemma FrameIsTenMs(rate: nat, channels: nat)
    requires rate >= 100
    ensures var f, samples := FormatOf(rate, channels), rate / 100;
            && f.values == samples * channels
            && 0 <= 1_000_000_000 * samples - f.durationNs * rate < 1000 * rate
            && (rate % 100 == 0 ==> f.durationNs == 10_000_000)
  {
    var samples := rate / 100;
    var us := 1_000_000 * samples / rate;
    DivBounds(1_000_000 * samples, rate);
    assert (us * 1000) * rate == 1000 * (us * rate);
    if rate % 100 == 0 {
      assert 1_000_000 * samples == 10_000 * rate;
      DivUnique(1_000_000 * samples, rate, 10_000, 0);
    }
  }

  // ---------- The capture object ----------

  class WasapiAudioCapture {
    const outputRate: nat
    const outputChannels: nat
    var pending: seq<int>
    var pendingStart: int
    var pendingHasStart: bool

    ghost predicate Valid()
      reads this
    {
      outputRate >= 100 && outputChannels > 0 && Usable(FrameFormat()) && QueueValid(FrameFormat(), View())
    }

    ghost function View(): Queue
      reads this
    {
      Queue(pending, pendingStart, pendingHasStart)
    }

    function FrameFormat(): Format { FormatOf(outputRate, outputChannels) }

    constructor (rate: nat, channels: nat)
      requires rate >= 100 && channels > 0
      ensures Valid() && outputRate == rate && outputChannels == channels && View() == Queue([], 0, false)
    {
      outputRate, outputChannels := rate, channels;
      pending, pendingStart, pendingHasStart := [], 0, false;
      new;
      FormatUsable(rate, channels);
    }

    /** Emits every whole frame in the queue; `now` stamps a queue that never got a start. */
    method FlushPending(now: int) returns (frames: seq<CapturedFrame>)
      requires Usable(FrameFormat())
      modifies this
      ensures Flush(FrameFormat(), Started(FrameFormat(), old(View()), now)) == Flushed(View(), frames)
    {
      hide Flush;
      frames := [];
      var f := FrameFormat();
      ghost var whole := Flush(f, Started(f, View(), now));
      while |pending| >= f.values
        invariant whole.queue == Flush(f, Started(f, View(), now)).queue
        invariant whole.frames == frames + Flush(f, Started(f, View(), now)).frames
        decreases |pending|
      {
        if !pendingHasStart {
          pendingStart := now;
          pendingHasStart := true;
        }
        var frame := CapturedFrame(pendingStart, pending[..f.values]);
        ghost var q := View();
        pendingStart := pendingStart + f.durationNs;
        pending := pending[f.values..];
        FlushOne(f, q);
        assert frames + [frame] + Flush(f, View()).frames == frames + Flush(f, q).frames;
        frames := frames + [frame];
      }
      FlushOne(f, View());
      assert frames + [] == frames;
      if pending == [] {
        pendingHasStart := false;
      }
    }

    /** The queueing part of `ConvertAndEmit`: converted samples of a buffer rendered at `bufferTs`. */
    method QueueConverted(values: seq<int>, bufferTs: int, now: int) returns (frames: seq<CapturedFrame>)
      requires Valid()
      modifies this
      ensures Enqueue(FrameFormat(), old(View()), values, bufferTs) == Flushed(View(), frames) && Valid()
    {
      if pending == [] {
        pendingStart := bufferTs;
        pendingHasStart := true;
      }
      pending := pending + values;
      FlushMeaning(FrameFormat(), View());
      frames := FlushPending(now);
    }

    method EmitSilenceFrames(samples: nat, ts: int, now: int) returns (frames: seq<CapturedFrame>)
      requires Valid()
      modifies this
      ensures Enqueue(FrameFormat(), old(View()), Zeros(samples * outputChannels), ts) ==
                Flushed(View(), frames) && Valid()
    {
      if pending == [] {
        pendingStart := ts;
        pendingHasStart := true;
      }
      pending := pending + Zeros(samples * outputChannels);
      FlushMeaning(FrameFormat(), View());
      frames := FlushPending(now);
    }

    /** The idle branch of the capture loop: exactly the silence that keeps the timeline on wall time. */
    method OnIdleWake(now: int) returns (frames: seq<CapturedFrame>)
      requires Valid()
      modifies this
      ensures Idle(FrameFormat(), old(View()), now) == Flushed(View(), frames) && Valid()
    {
      if pendingStart == 0 {
        pendingStart := now;
      }
      hide Flush;
      ghost var start := pendingStart;
      var samples := outputRate / 100;
      var durationUs := FrameFormat().durationNs / 1000;
      assert FrameFormat().durationNs == durationUs * 1000;
      var count := 0;
      if now > pendingStart {
        count := (now - pendingStart) / 1000 / durationUs;
        if count > 5 {
          pendingStart := now - 5 * (durationUs * 1000);
          count := 5;
        }
      }
      assert count == IdleFrames(FrameFormat(), start, now) && pendingStart == IdleStart(FrameFormat(), start, now);
      Regroup(count, samples, outputChannels);
      frames := EmitSilenceFrames(count * samples, pendingStart, now);
    }

    /** A data discontinuity: an empty queue anchors on the next buffer, a partial one is restamped. */
    method OnDiscontinuity(bufferTs: int)
      requires Valid()
      modifies this
      ensures View() == Reanchor(old(View()), bufferTs, outputChannels * outputRate) && Valid()
    {
      if pending == [] {
        pendingHasStart := false;
      } else {
        var queuedUs := 1_000_000 * |pending| / (outputChannels * outputRate);
        pendingStart := bufferTs - queuedUs * 1000;
        pendingHasStart := true;
      }
    }
  }

  lemma Regroup(a: nat, b: nat, c: nat)
    ensures a * b * c == a * (b * c)
  {
  }

  lemma FormatUsable(rate: nat, channels: nat)
    requires rate >= 100 && channels > 0
    ensures rate / 100 * channels > 0 && 1_000_000 * (rate / 100) / rate * 1000 > 0
  {
    var samples := rate / 100;
    assert samples >= 1 && samples * 100 <= rate < samples * 100 + 100 <= samples * 200;
    assert 1_000_000 * samples >= rate;
  }
}
