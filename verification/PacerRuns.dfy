/** Whole runs of the token bucket: what a window can let through. */
module PacerRuns {
  import opened Transport

  datatype Call = Call(count: nat, now: int)

  function RunCalls(p: Pacer, calls: seq<Call>): Pacer
    decreases |calls|
  {
    if calls == [] then p else RunCalls(Consume(p, calls[0].count, calls[0].now), calls[1..])
  }

  /** Packets granted over a run. */
  function Granted(p: Pacer, calls: seq<Call>): nat
    decreases |calls|
  {
    if calls == [] then 0
    else (if Grants(p, calls[0].count, calls[0].now) then calls[0].count else 0) +
         Granted(Consume(p, calls[0].count, calls[0].now), calls[1..])
  }

  /** Call times never decrease and lie after the clock's epoch. */
  predicate Timed(calls: seq<Call>) {
    && (forall i, j :: 0 <= i < j < |calls| ==> calls[i].now <= calls[j].now)
    && (forall i :: 0 <= i < |calls| ==> calls[i].now > 0)
  }

  /** The bucket was last refilled no later than `now`. */
  predicate Ready(p: Pacer, now: int) { PacerValid(p) && p.lastRefill <= now }

  lemma ConsumeKeepsValid(p: Pacer, count: nat, now: int)
    requires Ready(p, now)
    ensures PacerValid(Consume(p, count, now)) && Consume(p, count, now).lastRefill == now
    ensures (if Grants(p, count, now) then count else 0) as real + Consume(p, count, now).tokens <= PACING_MAX_BURST
    ensures p.lastRefill != 0 ==>
              (if Grants(p, count, now) then count else 0) as real + Consume(p, count, now).tokens
                <= p.tokens + Refill(now - p.lastRefill)
  {
  }

  lemma TimedTail(calls: seq<Call>)
    requires Timed(calls) && calls != []
    ensures Timed(calls[1..])
  {
  }

  lemma {:induction false} GrantedFromTokens(p: Pacer, calls: seq<Call>)
    requires calls != [] && Timed(calls) && Ready(p, calls[0].now) && p.lastRefill > 0
    ensures Granted(p, calls) as real <= p.tokens + Refill(calls[|calls| - 1].now - p.lastRefill)
    decreases |calls|
  {
    hide Grants, Consume;
    var q := Consume(p, calls[0].count, calls[0].now);
    ConsumeKeepsValid(p, calls[0].count, calls[0].now);
    if |calls| > 1 {
      TimedTail(calls);
      GrantedFromTokens(q, calls[1..]);
    }
  }

  /** A run from any bucket grants at most one burst plus what its time span refills. */
  lemma GrantedInRun(p: Pacer, calls: seq<Call>)
    requires calls != [] && Timed(calls) && Ready(p, calls[0].now)
    ensures Granted(p, calls) as real <= PACING_MAX_BURST + Refill(calls[|calls| - 1].now - calls[0].now)
  {
    hide Grants, Consume;
    var q := Consume(p, calls[0].count, calls[0].now);
    ConsumeKeepsValid(p, calls[0].count, calls[0].now);
    if |calls| > 1 {
      TimedTail(calls);
      GrantedFromTokens(q, calls[1..]);
    }
  }

  lemma {:induction false} RunKeepsValid(p: Pacer, calls: seq<Call>, n: nat)
    requires n < |calls| && Timed(calls) && Ready(p, calls[0].now)
    ensures Ready(RunCalls(p, calls[..n]), calls[n].now)
    decreases |calls|
  {
    hide Consume;
    if n > 0 {
      var q := Consume(p, calls[0].count, calls[0].now);
      ConsumeKeepsValid(p, calls[0].count, calls[0].now);
      TimedTail(calls);
      RunKeepsValid(q, calls[1..], n - 1);
      assert calls[..n][1..] == calls[1..][..n - 1];
    }
  }

  /** Over every run of calls and every window of it, the packets granted stay within one burst plus the
      refill of the window's length, whoever calls and however many packets each call wants. */
  lemma WindowBound(p: Pacer, calls: seq<Call>, i: nat, j: nat)
    requires i < j <= |calls| && Timed(calls) && Ready(p, calls[0].now)
    ensures Granted(RunCalls(p, calls[..i]), calls[i..j]) as real
              <= PACING_MAX_BURST + Refill(calls[j - 1].now - calls[i].now)
  {
    hide Grants, Consume;
    var w := calls[i..j];
    RunKeepsValid(p, calls, i);
    assert forall k :: 0 <= k < |w| ==> w[k] == calls[i + k];
    GrantedInRun(RunCalls(p, calls[..i]), w);
  }

  // ---------- One interval ----------

  const INTERVAL_NS := 2_000_000

  /** One-packet calls, as the pacing loop makes them, inside one interval from `t0`. */
  ghost predicate InInterval(calls: seq<Call>, t0: int) {
    Timed(calls) && forall i :: 0 <= i < |calls| ==> calls[i].count == 1 && t0 <= calls[i].now <= t0 + INTERVAL_NS
  }

  /** No more than one burst goes through. */
  ghost predicate WithinBurst(p: Pacer, calls: seq<Call>) { Granted(p, calls) <= 10 }

  /** `n` one-packet calls at one time, then the rest. */
  function CallsAt(n: nat, t: int, rest: seq<Call>): seq<Call> {
    if n == 0 then rest else [Call(1, t)] + CallsAt(n - 1, t, rest)
  }

  lemma CallsAtSize(n: nat, t: int, rest: seq<Call>)
    ensures |CallsAt(n, t, rest)| == n + |rest|
    ensures forall i :: 0 <= i < n ==> CallsAt(n, t, rest)[i] == Call(1, t)
    ensures forall i :: n <= i < n + |rest| ==> CallsAt(n, t, rest)[i] == rest[i - n]
  {
  }

  /** A bucket refilled at `t` grants that many one-packet calls at once. */
  lemma {:induction false} CallsAtGranted(p: Pacer, n: nat, t: int, rest: seq<Call>)
    requires t > 0 && p.lastRefill == t && n as real <= p.tokens <= PACING_MAX_BURST
    ensures Granted(p, CallsAt(n, t, rest)) == n + Granted(Pacer(p.tokens - n as real, t), rest)
    decreases n
  {
    hide Granted, Grants, Consume;
    if n > 0 {
      OneGranted(p, t);
      GrantedFirst(p, Call(1, t), CallsAt(n - 1, t, rest));
      CallsAtGranted(Consume(p, 1, t), n - 1, t, rest);
    }
  }

  lemma OneGranted(p: Pacer, t: int)
    requires t > 0 && p.lastRefill == t && 1.0 <= p.tokens <= PACING_MAX_BURST
    ensures Grants(p, 1, t) && Consume(p, 1, t) == Pacer(p.tokens - 1.0, t)
  {
  }

  lemma GrantedFirst(p: Pacer, c: Call, rest: seq<Call>)
    ensures Granted(p, [c] + rest) ==
              (if Grants(p, c.count, c.now) then c.count else 0) + Granted(Consume(p, c.count, c.now), rest)
  {
    assert ([c] + rest)[1..] == rest;
  }

  /** The first of several calls at once refills the bucket for all of them. */
  lemma RefilledFirst(p: Pacer, n: nat, t: int, rest: seq<Call>)
    requires n > 0 && t > 0 && PacerValid(p) && p.lastRefill <= t
    ensures Granted(p, CallsAt(n, t, rest)) == Granted(Refilled(p, t), CallsAt(n, t, rest))
  {
    assert Refilled(Refilled(p, t), t) == Refilled(p, t);
    assert CallsAt(n, t, rest)[0] == Call(1, t);
  }

  lemma NothingGranted(p: Pacer)
    ensures Granted(p, []) == 0
  {
  }

  /** `n` calls at `t0` and a burst one interval later are all granted when the bucket holds `n` tokens at `t0`. */
  lemma BurstAfterInterval(p: Pacer, t0: int, n: nat)
    requires t0 > 0 && PacerValid(p) && p.lastRefill <= t0 && 0 < n <= 10 && Grants(p, n, t0)
    ensures var calls := CallsAt(n, t0, CallsAt(10, t0 + INTERVAL_NS, []));
            InInterval(calls, t0) && Granted(p, calls) == n + 10
  {
    hide Granted, CallsAt;
    var t1 := t0 + INTERVAL_NS;
    var burst := CallsAt(10, t1, []);
    CallsAtSize(10, t1, []);
    CallsAtSize(n, t0, burst);
    var full := Refilled(p, t0);
    RefilledFirst(p, n, t0, burst);
    CallsAtGranted(full, n, t0, burst);
    var q := Pacer(full.tokens - n as real, t0);
    RefilledFirst(q, 10, t1, []);
    assert Refilled(q, t1) == Pacer(PACING_MAX_BURST, t1);
    CallsAtGranted(Refilled(q, t1), 10, t1, []);
    NothingGranted(Pacer(0.0, t1));
  }

  /** What the bucket can let through in one interval when it has no token at its start. */
  lemma EmptyAtStart(p: Pacer, t0: int, calls: seq<Call>)
    requires 0 <= p.lastRefill <= t0 && t0 > 0 && PacerValid(p) && !Grants(p, 1, t0) && InInterval(calls, t0)
    ensures WithinBurst(p, calls)
  {
    if calls == [] {
      NothingGranted(p);
    } else {
      hide Granted;
      GrantedFromTokens(p, calls);
      var last := calls[|calls| - 1].now;
      assert Refill(last - p.lastRefill) <= Refill(t0 - p.lastRefill) + 10.0;
      assert p.tokens + Refill(t0 - p.lastRefill) < 1.0;
    }
  }

  /** Every run of one-packet calls inside the 2 ms from `t0` stays within one burst exactly when the bucket has
      no token left at `t0`. */
  lemma IntervalWithinBurstIff(p: Pacer, t0: int)
    requires 0 <= p.lastRefill <= t0 && t0 > 0 && PacerValid(p)
    ensures (forall calls :: InInterval(calls, t0) ==> WithinBurst(p, calls)) <==> !Grants(p, 1, t0)
  {
    if Grants(p, 1, t0) {
      BurstAfterInterval(p, t0, 1);
      assert !WithinBurst(p, CallsAt(1, t0, CallsAt(10, t0 + INTERVAL_NS, [])));
    } else {
      forall calls | InInterval(calls, t0) ensures WithinBurst(p, calls) { EmptyAtStart(p, t0, calls); }
    }
  }

  /** The window bound is met by the pacing loop's own calls: from a bucket full at `t0`, as `Start` and `Stop` leave
      it, two bursts fit the 2 ms from `t0`. */
  lemma TwoBurstsInOneInterval(p: Pacer, t0: int)
    requires 0 <= p.lastRefill <= t0 && t0 > 0 && PacerValid(p) && Grants(p, 10, t0)
    ensures exists calls :: InInterval(calls, t0) && Granted(p, calls) as real == PACING_MAX_BURST + Refill(INTERVAL_NS)
  {
    BurstAfterInterval(p, t0, 10);
    assert InInterval(CallsAt(10, t0, CallsAt(10, t0 + INTERVAL_NS, [])), t0);
  }
}
