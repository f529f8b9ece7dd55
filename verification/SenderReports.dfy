/** Sender reports (section 6.4.1 of RFC 3550): the RTP field is the send instant on the media clock. */
module SenderReports {
  import opened Arithmetic
  import opened Transport
  import opened RtpClock

  /** The RTP field before wrapping: the frame's ticks advanced by its age. */
  function Unwrapped(origin: int, capture: int, timebase: nat, now: int): int {
    Ticks(origin, capture, timebase) + TruncDiv(TruncDiv(now - capture, 1000) * timebase, 1_000_000)
  }

  lemma FieldUnwraps(origin: int, capture: int, timebase: nat, now: int)
    requires capture != 0
    ensures RtpAt(Timestamp(origin, capture, timebase), capture, timebase, now) ==
              ToU32(Unwrapped(origin, capture, timebase, now))
  {
    hide Ticks, TruncDiv, ToU32;
    WrapAdds(Ticks(origin, capture, timebase), TruncDiv(TruncDiv(now - capture, 1000) * timebase, 1_000_000));
  }

  /** The send instant's exact tick minus the RTP field, in billionths of a tick. */
  function Error(origin: int, capture: int, timebase: nat, now: int): int {
    (now - origin) * timebase - Unwrapped(origin, capture, timebase, now) * 1_000_000_000
  }

  /** The report maps its send instant to within (-1, 2) ticks. */
  predicate Maps(origin: int, capture: int, timebase: nat, now: int) {
    -1_000_000_000 < Error(origin, capture, timebase, now) < 2_000_000_000
  }

  /** Any number of microseconds is a multiple of this many millionths of a tick. */
  function Grain(timebase: nat): nat { if timebase == 48_000 then 8000 else 10_000 }

  /** The parts below a microsecond of the capture stamp and of the age together leave room for the roundings. */
  predicate SmallPhases(timebase: nat, r1: nat, r2: nat) { (r1 + r2) * timebase < 2 * 1000 * Grain(timebase) }

  /** The same for a stamp ahead of the send instant. */
  predicate SmallLead(timebase: nat, r1: nat, r2: nat) { (r2 - r1) * timebase < 1000 * Grain(timebase) }

  lemma ResidueBound(us: nat, timebase: nat)
    requires timebase in {48_000, 90_000}
    ensures us * timebase % 1_000_000 <= 1_000_000 - Grain(timebase)
  {
    var q := us * timebase / 1_000_000;
    if timebase == 48_000 {
      assert us * timebase == us * 48_000;
      assert us * timebase % 1_000_000 == 8000 * (6 * us - 125 * q);
    } else {
      assert us * timebase == us * 90_000;
      assert us * timebase % 1_000_000 == 10_000 * (9 * us - 100 * q);
    }
  }

  lemma TruncatedAge(v: int, r: int)
    requires v >= 0 && 0 <= r < 1000
    ensures TruncDiv(1000 * v + r, 1000) == v && TruncDiv(-(1000 * v + r), 1000) == -v
  {
  }

  lemma TruncatedTicks(v: int, timebase: nat)
    requires v >= 0
    ensures v * timebase >= 0 && -v * timebase == -(v * timebase)
    ensures TruncDiv(v * timebase, 1_000_000) == v * timebase / 1_000_000
    ensures TruncDiv(-v * timebase, 1_000_000) == -(v * timebase / 1_000_000)
  {
  }

  lemma Distributed(u: int, v: int, r: int, timebase: int)
    ensures (1000 * (u + v) + r) * timebase == 1000 * (u * timebase) + 1000 * (v * timebase) + r * timebase
  {
  }

  /** The exact error of a report sent `v` microseconds and `r2` nanoseconds after a capture `u` microseconds and
      `r1` nanoseconds past the origin: what the two tick divisions and the two microsecond divisions drop. */
  lemma PastError(origin: int, timebase: nat, u: nat, r1: nat, v: nat, r2: nat)
    requires r1 < 1000 && r2 < 1000
    ensures var capture := origin + 1000 * u + r1;
            Error(origin, capture, timebase, capture + 1000 * v + r2) ==
              1000 * (u * timebase % 1_000_000) + 1000 * (v * timebase % 1_000_000) + (r1 + r2) * timebase
  {
    hide TruncDiv;
    TruncatedAge(u, r1);
    TruncatedAge(v, r2);
    TruncatedTicks(v, timebase);
    Distributed(u, v, r1 + r2, timebase);
  }

  /** The exact error when the stamp is `v` microseconds and `r2` nanoseconds ahead of the send instant. */
  lemma FutureError(origin: int, timebase: nat, u: nat, r1: nat, v: nat, r2: nat)
    requires r1 < 1000 && r2 < 1000
    ensures var capture := origin + 1000 * u + r1;
            Error(origin, capture, timebase, capture - (1000 * v + r2)) ==
              1000 * (u * timebase % 1_000_000) - 1000 * (v * timebase % 1_000_000) + (r1 - r2) * timebase
  {
    hide TruncDiv;
    TruncatedAge(u, r1);
    TruncatedAge(v, r2);
    TruncatedTicks(v, timebase);
    Distributed(u, 0 - v, r1 - r2, timebase);
  }

  /** A report maps its send instant whatever the latency when the phases of stamp and age leave room, and so does
      one whose stamp lies in the future; whole microseconds always do. */
  lemma ReportMapsSendInstant(origin: int, capture: int, timebase: nat, now: int)
    requires timebase in {48_000, 90_000} && origin <= capture
    requires var r1, r2 := (capture - origin) % 1000, Abs(now - capture) % 1000;
             if now >= capture then SmallPhases(timebase, r1, r2) else SmallLead(timebase, r1, r2)
    ensures Maps(origin, capture, timebase, now)
  {
    hide Error;
    var u, r1 := (capture - origin) / 1000, (capture - origin) % 1000;
    var v, r2 := Abs(now - capture) / 1000, Abs(now - capture) % 1000;
    ResidueBound(u, timebase);
    ResidueBound(v, timebase);
    if now >= capture {
      PastError(origin, timebase, u, r1, v, r2);
      assert capture + 1000 * v + r2 == now;
    } else {
      FutureError(origin, timebase, u, r1, v, r2);
      assert capture - (1000 * v + r2) == now;
      assert (r1 - r2) * timebase == -((r2 - r1) * timebase);
      PhaseBound(r1 - r2, timebase);
    }
    assert capture == origin + 1000 * u + r1;
  }

  lemma PhaseBound(r: int, timebase: nat)
    requires -1000 < r < 1000 && timebase in {48_000, 90_000}
    ensures -90_000_000 < r * timebase < 90_000_000
  {
  }

  /** For any stamps the error stays within what the roundings of a microsecond add to (-1, 2) ticks. */
  lemma ReportErrorBound(origin: int, capture: int, timebase: nat, now: int)
    requires timebase in {48_000, 90_000} && origin <= capture
    ensures -1_000_000_000 - 1000 * timebase < Error(origin, capture, timebase, now)
              < 2_000_000_000 + 2000 * timebase
  {
    var us, age := CaptureUs(origin, capture), TruncDiv(now - capture, 1000);
    if timebase == 48_000 {
      assert us * timebase == us * 48_000 && age * timebase == age * 48_000;
    } else {
      assert us * timebase == us * 90_000 && age * timebase == age * 90_000;
    }
  }

  // ---------- Exactly which phases ----------

  ghost predicate MapsPast(origin: int, timebase: nat, r1: nat, r2: nat, u: nat, v: nat) {
    var capture := origin + 1000 * u + r1;
    Maps(origin, capture, timebase, capture + 1000 * v + r2)
  }

  ghost predicate MapsFuture(origin: int, timebase: nat, r1: nat, r2: nat, u: nat, v: nat) {
    var capture := origin + 1000 * u + r1;
    Maps(origin, capture, timebase, capture - (1000 * v + r2))
  }

  /** The latency, in microseconds, whose ticks lose most to rounding. */
  function WorstLag(timebase: nat): nat { if timebase == 48_000 then 104 else 11 }

  /** A whole number of ticks, in microseconds. */
  function WholeTicks(timebase: nat): nat { if timebase == 48_000 then 125 else 100 }

  /** The loss repeats every whole number of ticks. */
  lemma Residues(us: nat, timebase: nat)
    requires timebase in {48_000, 90_000}
    ensures us % WholeTicks(timebase) == WorstLag(timebase) ==>
              us * timebase % 1_000_000 == 1_000_000 - Grain(timebase)
    ensures us % WholeTicks(timebase) == 0 ==> us * timebase % 1_000_000 == 0
  {
    if timebase == 48_000 {
      var q := us / 125;
      assert us * timebase == 48_000 * us;
      if us % 125 == 104 { Remainder(us * timebase, 6 * q + 4, 992_000); }
      if us % 125 == 0 { Remainder(us * timebase, 6 * q, 0); }
    } else {
      var q := us / 100;
      assert us * timebase == 90_000 * us;
      if us % 100 == 11 { Remainder(us * timebase, 9 * q, 990_000); }
      if us % 100 == 0 { Remainder(us * timebase, 9 * q, 0); }
    }
  }

  lemma Remainder(x: nat, k: nat, rest: nat)
    requires x == k * 1_000_000 + rest && rest < 1_000_000
    ensures x % 1_000_000 == rest
  {
  }

  /** For reports sent at or after the capture instant, the mapping holds for every whole-microsecond part of stamp
      and latency exactly when the phases are small. */
  lemma PastReportsMapIff(origin: int, timebase: nat, r1: nat, r2: nat)
    requires timebase in {48_000, 90_000} && r1 < 1000 && r2 < 1000
    ensures (forall u: nat, v: nat :: MapsPast(origin, timebase, r1, r2, u, v)) <==> SmallPhases(timebase, r1, r2)
  {
    hide Maps;
    if SmallPhases(timebase, r1, r2) {
      forall u: nat, v: nat ensures MapsPast(origin, timebase, r1, r2, u, v) {
        PastMaps(origin, timebase, r1, r2, u, v);
      }
    } else {
      PastMisses(origin, timebase, r1, r2, WorstLag(timebase), WorstLag(timebase));
    }
  }

  lemma PastMaps(origin: int, timebase: nat, r1: nat, r2: nat, u: nat, v: nat)
    requires timebase in {48_000, 90_000} && r1 < 1000 && r2 < 1000 && SmallPhases(timebase, r1, r2)
    ensures MapsPast(origin, timebase, r1, r2, u, v)
  {
    hide Maps, SmallPhases;
    var capture := origin + 1000 * u + r1;
    ReportMapsSendInstant(origin, capture, timebase, capture + 1000 * v + r2);
  }

  /** Phases that are not small make two full ticks of error, at worst stamps and latencies as large as wanted. */
  lemma PastMisses(origin: int, timebase: nat, r1: nat, r2: nat, u: nat, v: nat)
    requires timebase in {48_000, 90_000} && r1 < 1000 && r2 < 1000 && !SmallPhases(timebase, r1, r2)
    requires u % WholeTicks(timebase) == v % WholeTicks(timebase) == WorstLag(timebase)
    ensures !MapsPast(origin, timebase, r1, r2, u, v)
  {
    hide Error;
    Residues(u, timebase);
    Residues(v, timebase);
    PastError(origin, timebase, u, r1, v, r2);
  }

  /** For stamps ahead of the send instant, itself not before the origin. */
  lemma FutureReportsMapIff(origin: int, timebase: nat, r1: nat, r2: nat)
    requires timebase in {48_000, 90_000} && r1 < 1000 && r2 < 1000
    ensures (forall u: nat, v: nat :: 0 < 1000 * v + r2 <= 1000 * u + r1 ==> MapsFuture(origin, timebase, r1, r2, u, v))
              <==> SmallLead(timebase, r1, r2)
  {
    hide Maps;
    if SmallLead(timebase, r1, r2) {
      forall u: nat, v: nat | 0 < 1000 * v + r2 <= 1000 * u + r1 ensures MapsFuture(origin, timebase, r1, r2, u, v) {
        FutureMaps(origin, timebase, r1, r2, u, v);
      }
    } else {
      FutureMisses(origin, timebase, r1, r2, WholeTicks(timebase), WorstLag(timebase));
    }
  }

  lemma FutureMaps(origin: int, timebase: nat, r1: nat, r2: nat, u: nat, v: nat)
    requires timebase in {48_000, 90_000} && r1 < 1000 && r2 < 1000 && SmallLead(timebase, r1, r2)
    requires 1000 * v + r2 > 0
    ensures MapsFuture(origin, timebase, r1, r2, u, v)
  {
    hide Maps, SmallLead;
    var capture := origin + 1000 * u + r1;
    ReportMapsSendInstant(origin, capture, timebase, capture - (1000 * v + r2));
  }

  /** A lead that is not small puts a full tick between them, for stamps on whole ticks as late as wanted. */
  lemma FutureMisses(origin: int, timebase: nat, r1: nat, r2: nat, u: nat, v: nat)
    requires timebase in {48_000, 90_000} && r1 < 1000 && r2 < 1000 && !SmallLead(timebase, r1, r2)
    requires u % WholeTicks(timebase) == 0 && v % WholeTicks(timebase) == WorstLag(timebase)
    ensures !MapsFuture(origin, timebase, r1, r2, u, v)
  {
    hide Error;
    Residues(u, timebase);
    Residues(v, timebase);
    FutureError(origin, timebase, u, r1, v, r2);
    assert (r1 - r2) * timebase == -((r2 - r1) * timebase);
  }

  /** The NTP timestamp is strictly monotone in microseconds until its seconds wrap. */
  lemma NtpMonotone(a: nat, b: nat)
    requires a < b && b / 1_000_000 + NTP_EPOCH_S < TWO32
    ensures NtpSeconds(a) < NtpSeconds(b) || (NtpSeconds(a) == NtpSeconds(b) && NtpFraction(a) < NtpFraction(b))
  {
    if a / 1_000_000 == b / 1_000_000 {
      assert b % 1_000_000 >= a % 1_000_000 + 1;
    }
  }

  /** Seconds and fraction together are the Unix time since 1900 in units of 2^-32 s, rounded down. */
  lemma NtpExact(unixUs: nat)
    requires unixUs / 1_000_000 + NTP_EPOCH_S < TWO32
    ensures var ntp := (NtpSeconds(unixUs) - 2_208_988_800) * TWO32 + NtpFraction(unixUs);
            0 <= unixUs * TWO32 - ntp * 1_000_000 < 1_000_000
  {
    var s, us := unixUs / 1_000_000, unixUs % 1_000_000;
    assert unixUs == s * 1_000_000 + us;
    assert NtpSeconds(unixUs) - 2_208_988_800 == s;
  }

  // ---------- Runs of reports ----------

  /** A frame that went out on a stream: its packets and bytes, and when. */
  datatype Went = Went(ssrc: uint32, rtp: uint32, packets: uint32, octets: uint32, now: int)

  function RunReports(r: Reports, ws: seq<Went>): Reports {
    if ws == [] then r
    else
      var w := ws[|ws| - 1];
      Reported(RunReports(r, ws[..|ws| - 1]), w.ssrc, w.rtp, w.packets, w.octets, w.now)
  }

  function PacketsOn(ws: seq<Went>, ssrc: uint32): nat {
    if ws == [] then 0
    else PacketsOn(ws[..|ws| - 1], ssrc) + if ws[|ws| - 1].ssrc == ssrc then ws[|ws| - 1].packets else 0
  }

  function OctetsOn(ws: seq<Went>, ssrc: uint32): nat {
    if ws == [] then 0
    else OctetsOn(ws[..|ws| - 1], ssrc) + if ws[|ws| - 1].ssrc == ssrc then ws[|ws| - 1].octets else 0
  }

  /** Over every interleaving of streams a stream's counters are its own packets and bytes, modulo 2^32. */
  lemma {:induction false} CountersTotal(ws: seq<Went>, ssrc: uint32)
    requires ssrc != 0
    ensures var st := StateOf(RunReports(map[], ws), ssrc);
            st.packets == ToU32(PacketsOn(ws, ssrc)) && st.octets == ToU32(OctetsOn(ws, ssrc))
  {
    hide ToU32;
    if ws == [] {
      NothingWraps();
    } else {
      var init, w := ws[..|ws| - 1], ws[|ws| - 1];
      CountersTotal(init, ssrc);
      if w.ssrc == ssrc {
        WrapKeeps(PacketsOn(init, ssrc), w.packets);
        WrapKeeps(OctetsOn(init, ssrc), w.octets);
      }
    }
  }

  lemma NothingWraps()
    ensures ToU32(0) == 0
  {
  }

  lemma WrapKeeps(a: nat, b: uint32)
    ensures ToU32(ToU32(a) + b) == ToU32(a + b)
  {
    WrapAdds(a, b);
  }

  /** Whether frame `i` of a run makes a report leave. */
  predicate Leaves(ws: seq<Went>, i: nat)
    requires i < |ws|
  {
    var w, st := ws[i], StateOf(RunReports(map[], ws[..i]), ws[i].ssrc);
    w.ssrc != 0 && ReportDue(Counted(st, w.rtp, w.packets, w.octets), w.now)
  }

  /** Frame `i` made the stream's last report leave. */
  ghost predicate LeftLast(ws: seq<Went>, ssrc: uint32, i: nat)
    requires i < |ws|
  {
    ws[i].ssrc == ssrc && Leaves(ws, i) && forall k :: i < k < |ws| && ws[k].ssrc == ssrc ==> !Leaves(ws, k)
  }

  /** The stream's last report left at a frame of the run, or none has. */
  lemma {:induction false} LastReportLeft(ws: seq<Went>, ssrc: uint32)
    requires ssrc != 0 && forall i :: 0 <= i < |ws| ==> ws[i].now > 0
    ensures var last := StateOf(RunReports(map[], ws), ssrc).lastReport;
            && (last != 0 ==> exists i :: 0 <= i < |ws| && ws[i].ssrc == ssrc && Leaves(ws, i) && ws[i].now == last)
            && forall i :: 0 <= i < |ws| && LeftLast(ws, ssrc, i) ==> last == ws[i].now
  {
    hide RunReports, Leaves;
    NothingReported(ssrc);
    if ws != [] {
      var n := |ws| - 1;
      var init := ws[..n];
      LastReportLeft(init, ssrc);
      LastReportMoves(ws, ssrc);
      forall i | 0 <= i < n ensures Leaves(init, i) <==> Leaves(ws, i) { LeavesPrefix(ws, n, i); }
      forall i | 0 <= i < n && LeftLast(ws, ssrc, i) ensures LeftLast(init, ssrc, i) {
      }
    }
  }

  lemma NothingReported(ssrc: uint32)
    ensures StateOf(RunReports(map[], []), ssrc).lastReport == 0
  {
  }

  lemma LeavesPrefix(ws: seq<Went>, n: nat, i: nat)
    requires i < n <= |ws|
    ensures Leaves(ws[..n], i) <==> Leaves(ws, i)
  {
    hide RunReports;
    assert ws[..n][..i] == ws[..i];
  }

  /** A frame moves its stream's last report exactly when it makes one leave. */
  lemma LastReportMoves(ws: seq<Went>, ssrc: uint32)
    requires ws != [] && ssrc != 0
    ensures var n := |ws| - 1;
            StateOf(RunReports(map[], ws), ssrc).lastReport ==
              if ws[n].ssrc == ssrc && Leaves(ws, n) then ws[n].now
              else StateOf(RunReports(map[], ws[..n]), ssrc).lastReport
  {
    RunReportsLast(ws);
    hide RunReports;
  }

  lemma RunReportsLast(ws: seq<Went>)
    ensures RunReports(map[], ws) ==
              if ws == [] then map[]
              else var w := ws[|ws| - 1];
                   Reported(RunReports(map[], ws[..|ws| - 1]), w.ssrc, w.rtp, w.packets, w.octets, w.now)
  {
  }

  /** A frame makes a report leave exactly when none has left for its stream in the 40 ms before. */
  lemma LeavesIff(ws: seq<Went>, j: nat)
    requires j < |ws| && ws[j].ssrc != 0 && Timed(ws)
    ensures Leaves(ws, j) <==>
              forall i :: 0 <= i < j && ws[i].ssrc == ws[j].ssrc && Leaves(ws, i) ==>
                ws[j].now - ws[i].now >= 40_000_000
  {
    hide RunReports;
    var ssrc, before := ws[j].ssrc, ws[..j];
    LastReportLeft(before, ssrc);
    forall i | 0 <= i < j ensures Leaves(before, i) <==> Leaves(ws, i) { LeavesPrefix(ws, j, i); }
    NewestLeft(before, ssrc);
  }

  /** Frame times never decrease and lie after the clock's epoch. */
  predicate Timed(ws: seq<Went>) {
    (forall i, j :: 0 <= i < j < |ws| ==> ws[i].now <= ws[j].now) && forall i :: 0 <= i < |ws| ==> ws[i].now > 0
  }

  /** If any report left for a stream, one left last. */
  lemma {:induction false} NewestLeft(ws: seq<Went>, ssrc: uint32)
    ensures (forall i :: 0 <= i < |ws| && ws[i].ssrc == ssrc ==> !Leaves(ws, i)) ||
            exists i :: 0 <= i < |ws| && LeftLast(ws, ssrc, i)
  {
    hide Leaves;
    var n := |ws|;
    while n > 0
      invariant 0 <= n <= |ws|
      invariant forall k :: n <= k < |ws| && ws[k].ssrc == ssrc ==> !Leaves(ws, k)
    {
      n := n - 1;
      if ws[n].ssrc == ssrc && Leaves(ws, n) {
        assert LeftLast(ws, ssrc, n);
        return;
      }
    }
  }

  /** A receiver reads back every field of a report. */
  lemma ReportRoundTrip(ssrc: uint32, rtpNow: uint32, unixUs: nat, st: ReportState)
    ensures var r := ReportBytes(ssrc, rtpNow, unixUs, st);
            && |r| == 28 && r[..4] == [0x80, 200, 0, 6]
            && ReadBigEndian(r[4..8]) == ssrc && ReadBigEndian(r[8..12]) == NtpSeconds(unixUs)
            && ReadBigEndian(r[12..16]) == NtpFraction(unixUs) && ReadBigEndian(r[16..20]) == rtpNow
            && ReadBigEndian(r[20..24]) == st.packets && ReadBigEndian(r[24..28]) == st.octets
  {
    hide BigEndian, ReadBigEndian, NtpSeconds, NtpFraction;
    NtpFractionFits(unixUs);
    var r := ReportBytes(ssrc, rtpNow, unixUs, st);
    assert r[4..8] == BigEndian(ssrc) && r[8..12] == BigEndian(NtpSeconds(unixUs));
    assert r[12..16] == BigEndian(ToU32(NtpFraction(unixUs))) && r[16..20] == BigEndian(rtpNow);
    assert r[20..24] == BigEndian(st.packets) && r[24..28] == BigEndian(st.octets);
    BigEndianRoundTrip(ssrc);
    BigEndianRoundTrip(NtpSeconds(unixUs));
    BigEndianRoundTrip(ToU32(NtpFraction(unixUs)));
    BigEndianRoundTrip(rtpNow);
    BigEndianRoundTrip(st.packets);
    BigEndianRoundTrip(st.octets);
  }
}
