/** The media transport: retransmit cache, duplicate-NACK suppression, pacing and sender reports.

    Each `cache_mutex_` or `send_mutex_` section of the transport is one transition on `Cache` or
    `Pacer`; the class at the end takes exactly these transitions. */
module Transport {
  import opened Arithmetic

  // ---------- Packets ----------

  datatype Packet = Packet(frameId: uint32, packetId: uint16, captureTime: int, data: seq<uint8>)

  datatype Header = Header(video: bool, rtp: uint32, ssrc: uint32)

  /** Cast audio uses payload type 127. Packets too short for an RTP header count as video on SSRC 0. */
  function ParseHeader(p: Packet): Header {
    if |p.data| < 12 then Header(true, 0, 0)
    else Header(p.data[1] % 128 != 127, ReadBigEndian(p.data[4..8]), ReadBigEndian(p.data[8..12]))
  }

  /** The fields of an RTP header (section 5.1 of RFC 3550). */
  datatype Rtp = Rtp(first: uint8, marker: bool, payloadType: nat, number: uint16, timestamp: uint32, ssrc: uint32)

  const AUDIO_TYPE := 127

  function RtpHeader(h: Rtp): (b: seq<uint8>)
    requires h.payloadType < 128
    ensures |b| == 12
  {
    [h.first, (if h.marker then 128 else 0) + h.payloadType, h.number / 0x100, h.number % 0x100] +
    BigEndian(h.timestamp) + BigEndian(h.ssrc)
  }

  /** The packet starts with that header. */
  predicate Carries(p: Packet, h: Rtp) {
    h.payloadType < 128 && |p.data| >= 12 && p.data[..12] == RtpHeader(h)
  }

  /** The transport reads the stream, the timestamp and the kind of media the header was made with. */
  lemma HeaderReads(p: Packet, h: Rtp)
    requires Carries(p, h)
    ensures ParseHeader(p) == Header(h.payloadType != 127, h.timestamp, h.ssrc)
  {
    hide BigEndian, ReadBigEndian;
    var b := p.data[..12];
    assert p.data[4..8] == b[4..8] == BigEndian(h.timestamp) && p.data[8..12] == b[8..12] == BigEndian(h.ssrc);
    assert p.data[1] == b[1];
    BigEndianRoundTrip(h.timestamp);
    BigEndianRoundTrip(h.ssrc);
  }

  // ---------- The retransmit cache ----------

  type Frame = map<uint16, Packet>

  type FrameCache = map<uint32, Frame>

  datatype PacketKey = PacketKey(ssrc: uint32, frameId: uint32, packetId: uint16)

  /** Cached frames and newest frame id per SSRC, and the time each packet was last retransmitted. */
  datatype Cache = Cache(frames: map<uint32, FrameCache>, lastSent: map<uint32, uint32>,
                         retransmitted: map<PacketKey, int>)

  const EMPTY_CACHE := Cache(map[], map[], map[])

  function FramesOf(c: Cache, ssrc: uint32): FrameCache { if ssrc in c.frames then c.frames[ssrc] else map[] }

  function LastSent(c: Cache, ssrc: uint32): uint32 { if ssrc in c.lastSent then c.lastSent[ssrc] else 0 }

  function AddPackets(f: Frame, packets: seq<Packet>): Frame {
    if packets == [] then f
    else AddPackets(f, packets[..|packets| - 1])[packets[|packets| - 1].packetId := packets[|packets| - 1]]
  }

  predicate IsMin(k: uint32, s: set<uint32>) { k in s && forall j :: j in s ==> k <= j }

  lemma {:induction false} MinExists(s: set<uint32>)
    requires s != {}
    ensures exists k :: IsMin(k, s)
  {
    var k :| k in s;
    if s - {k} == {} {
      assert s == {k};
      assert IsMin(k, s);
    } else {
      MinExists(s - {k});
      var m :| IsMin(m, s - {k});
      assert forall j :: j in s ==> j == k || j in s - {k};
      assert IsMin(if k < m then k else m, s);
    }
  }

  ghost function MinKey(s: set<uint32>): (k: uint32)
    requires s != {}
    ensures IsMin(k, s)
  {
    MinExists(s);
    var k :| IsMin(k, s);
    k
  }

  /** Drops the oldest frames until at most `max` are left. */
  ghost function Trim(m: FrameCache, max: nat): FrameCache
    decreases |m|
  {
    if |m| <= max then m else Trim(m - {MinKey(m.Keys)}, max)
  }

  /** Half a second of video at 60 fps, or of audio in 10 ms frames. */
  function MaxFrames(video: bool): nat { if video then 30 else 50 }

  ghost function CacheFrame(c: Cache, packets: seq<Packet>): Cache
    requires packets != []
  {
    var h, fid, frames := ParseHeader(packets[0]), packets[0].frameId, FramesOf(c, ParseHeader(packets[0]).ssrc);
    var frame := AddPackets(if fid in frames then frames[fid] else map[], packets);
    c.(lastSent := c.lastSent[h.ssrc := fid],
       frames := c.frames[h.ssrc := Trim(frames[fid := frame], MaxFrames(h.video))])
  }

  /** The value of a 32-bit word read as a signed integer. */
  function Signed32(x: uint32): int { if x < 0x8000_0000 then x else x - TWO32 }

  /** The highest frame id a checkpoint makes safe to drop; 0 drops nothing. */
  function SafeCacheEraseLimit(checkpoint: uint32, lastSent: uint32): uint32 {
    if checkpoint == 0 then 0
    else
      var diff := Signed32(ToU32(checkpoint - lastSent));
      if diff > 32 then 0
      else if diff > 0 then (if lastSent > 0 then lastSent - 1 else 0)
      else checkpoint
  }

  function DropThrough(m: FrameCache, limit: uint32): FrameCache { map k | k in m && k > limit :: m[k] }

  function Forget(r: map<PacketKey, int>, ssrc: uint32, limit: uint32): map<PacketKey, int> {
    map k | k in r && !(k.ssrc == ssrc && k.frameId <= limit) :: r[k]
  }

  function Checkpoint(c: Cache, ssrc: uint32, checkpoint: uint32): Cache {
    var limit := SafeCacheEraseLimit(checkpoint, LastSent(c, ssrc));
    if ssrc == 0 || limit == 0 then c
    else c.(frames := if ssrc in c.frames then c.frames[ssrc := DropThrough(c.frames[ssrc], limit)] else c.frames,
            retransmitted := Forget(c.retransmitted, ssrc, limit))
  }

  // ---------- Retransmission ----------

  const RETRANSMIT_SUPPRESS_NS := 80_000_000
  const WHOLE_FRAME: uint16 := 0xFFFF

  /** A packet is due unless it went out within the suppression window; time 0 means never. */
  predicate Due(r: map<PacketKey, int>, k: PacketKey, now: int) {
    k in r ==> r[k] == 0 || now - r[k] >= RETRANSMIT_SUPPRESS_NS
  }

  /** The packets a NACK retransmits. */
  function DuePackets(c: Cache, ssrc: uint32, frameId: uint32, packetId: uint16, now: int): set<uint16> {
    if frameId !in FramesOf(c, ssrc) then {}
    else set p | p in FramesOf(c, ssrc)[frameId] && (packetId == WHOLE_FRAME || p == packetId) &&
                 Due(c.retransmitted, PacketKey(ssrc, frameId, p), now)
  }

  function MarkSent(r: map<PacketKey, int>, ssrc: uint32, frameId: uint32, ids: set<uint16>, now: int)
    : map<PacketKey, int>
  {
    r + map p | p in ids :: PacketKey(ssrc, frameId, p) := now
  }

  function Retransmit(c: Cache, ssrc: uint32, frameId: uint32, packetId: uint16, now: int): Cache {
    c.(retransmitted := MarkSent(c.retransmitted, ssrc, frameId, DuePackets(c, ssrc, frameId, packetId, now), now))
  }

  // ---------- Pacing ----------

  const PACING_MAX_BURST := 10.0

  /** Tokens earned in a number of nanoseconds: a full burst every 2 ms. */
  function Refill(elapsedNs: int): real { elapsedNs as real / 1_000_000.0 * 5.0 }

  /** The token bucket; a last refill of 0 marks a bucket not started yet. */
  datatype Pacer = Pacer(tokens: real, lastRefill: int)

  function Refilled(p: Pacer, now: int): Pacer {
    Pacer(if p.lastRefill == 0 then PACING_MAX_BURST
          else MinR(PACING_MAX_BURST, p.tokens + Refill(now - p.lastRefill)), now)
  }

  predicate Grants(p: Pacer, count: nat, now: int) { Refilled(p, now).tokens >= count as real }

  function Consume(p: Pacer, count: nat, now: int): Pacer {
    var r := Refilled(p, now);
    if Grants(p, count, now) then r.(tokens := r.tokens - count as real) else r
  }

  /** How long a sender that found too few tokens for one packet sleeps, in nanoseconds rounded up. */
  function PacingWait(tokens: real): int {
    var waitMs := (1.0 - tokens) / 5.0;
    ((if waitMs < 0.05 then 0.05 else waitMs) * 1_000_000.0).Floor + 1
  }

  predicate PacerValid(p: Pacer) { 0.0 <= p.tokens <= PACING_MAX_BURST }

  /** A lone sender that sleeps the computed wait is granted on its next attempt. */
  lemma LoneSenderSucceeds(p: Pacer, now: int, later: int)
    requires PacerValid(p) && now > 0 && !Grants(p, 1, now)
    requires later >= now + PacingWait(Consume(p, 1, now).tokens)
    ensures Grants(Consume(p, 1, now), 1, later)
  {
    var q := Consume(p, 1, now);
    var waitMs := (1.0 - q.tokens) / 5.0;
    assert later as real >= now as real + waitMs * 1_000_000.0;
    assert Refill(later - now) >= 1.0 - q.tokens;
  }

  // ---------- Sender reports ----------

  datatype ReportState = ReportState(lastRtp: uint32, packets: uint32, octets: uint32, lastReport: int)

  const NO_REPORTS := ReportState(0, 0, 0, 0)
  const REPORT_INTERVAL_NS := 40_000_000
  const NTP_EPOCH_S := 2_208_988_800

  /** The RTP clock `ageUs` after a timestamp; signed, wrapping in 32 bits. */
  function RtpAt(rtp: uint32, captureTime: int, timebase: int, now: int): uint32 {
    if captureTime == 0 then rtp
    else ToU32(rtp + ToU32(TruncDiv(TruncDiv(now - captureTime, 1000) * timebase, 1_000_000)))
  }

  function NtpSeconds(unixUs: nat): uint32 { ToU32(unixUs / 1_000_000 + NTP_EPOCH_S) }

  function NtpFraction(unixUs: nat): (f: int) { unixUs % 1_000_000 * TWO32 / 1_000_000 }

  /** The fraction of a second always fits its 32-bit field. */
  lemma NtpFractionFits(unixUs: nat)
    ensures 0 <= NtpFraction(unixUs) < TWO32
  {
  }

  /** The 28 bytes of a report with no report blocks. */
  function ReportBytes(ssrc: uint32, rtpNow: uint32, unixUs: nat, st: ReportState): seq<uint8> {
    [0x80, 200, 0x00, 0x06] + BigEndian(ssrc) + BigEndian(NtpSeconds(unixUs)) + BigEndian(ToU32(NtpFraction(unixUs))) +
    BigEndian(rtpNow) + BigEndian(st.packets) + BigEndian(st.octets)
  }

  function Counted(st: ReportState, rtp: uint32, packets: uint32, octets: uint32): ReportState {
    st.(lastRtp := rtp, packets := ToU32(st.packets + packets), octets := ToU32(st.octets + octets))
  }

  predicate ReportDue(st: ReportState, now: int) { st.lastReport == 0 || now - st.lastReport >= REPORT_INTERVAL_NS }

  /** A report carries the stream and its clock at the send instant. */
  lemma ReportCarries(ssrc: uint32, rtpNow: uint32, unixUs: nat, st: ReportState)
    ensures var r := ReportBytes(ssrc, rtpNow, unixUs, st);
            |r| == 28 && ReadBigEndian(r[4..8]) == ssrc && ReadBigEndian(r[16..20]) == rtpNow
  {
    hide BigEndian, ReadBigEndian;
    var r := ReportBytes(ssrc, rtpNow, unixUs, st);
    assert r[4..8] == BigEndian(ssrc) && r[16..20] == BigEndian(rtpNow);
    BigEndianRoundTrip(ssrc);
    BigEndianRoundTrip(rtpNow);
  }

  type Reports = map<uint32, ReportState>

  function StateOf(r: Reports, ssrc: uint32): ReportState { if ssrc in r then r[ssrc] else NO_REPORTS }

  /** The report states after a frame of `packets` packets and `octets` bytes went out. */
  function Reported(r: Reports, ssrc: uint32, rtp: uint32, packets: uint32, octets: uint32, now: int): Reports {
    var st := Counted(StateOf(r, ssrc), rtp, packets, octets);
    if ssrc == 0 then r else r[ssrc := if ReportDue(st, now) then st.(lastReport := now) else st]
  }

  /** The report that frame makes due, if any. */
  function ReportSent(r: Reports, ssrc: uint32, rtp: uint32, captureTime: int, timebase: int,
                      packets: uint32, octets: uint32, now: int, unixUs: nat): Option<seq<uint8>> {
    var st := Counted(StateOf(r, ssrc), rtp, packets, octets);
    if ssrc != 0 && ReportDue(st, now) then Some(ReportBytes(ssrc, RtpAt(rtp, captureTime, timebase, now), unixUs, st))
    else None
  }

  // ---------- Round-trip smoothing ----------

  datatype Average = Average(rtt: real, jitter: real, initialized: bool)

  function Averaged(a: Average, sample: real): Average {
    if !a.initialized then Average(sample, 0.0, true)
    else Average(0.8 * a.rtt + 0.2 * sample, 0.9 * a.jitter + 0.1 * AbsR(sample - a.rtt), true)
  }

  function AverageOf(a: Average, n: nat, x: real): Average {
    if n == 0 then a else Averaged(AverageOf(a, n - 1, x), x)
  }

  /** Steady round trips bring the average a fifth closer each time, and the jitter follows the distance left. */
  lemma {:induction false} SteadyRoundTrips(a: Average, n: nat, x: real)
    requires a.initialized
    ensures var r, p, q := AverageOf(a, n, x), Power(0.8, n), Power(0.9, n);
            && r.initialized && p > 0.0 && r.rtt - x == p * (a.rtt - x)
            && r.jitter == q * a.jitter + (q - p) * AbsR(a.rtt - x)
  {
    hide AbsR, Power, Averaged, AverageOf;
    AverageStep(a, n, x);
    PowerStep(0.8, n);
    PowerStep(0.9, n);
    if n > 0 {
      SteadyRoundTrips(a, n - 1, x);
      var b := AverageOf(a, n - 1, x);
      AveragedOnce(b, x);
      SteadyStep(b.rtt, b.jitter, a.rtt, a.jitter, Power(0.8, n - 1), Power(0.9, n - 1), x, 0.0);
    }
  }

  /** The first round trip is the average, without jitter. */
  lemma {:induction false} FirstRoundTrip(a: Average, n: nat, x: real)
    requires !a.initialized && n > 0
    ensures AverageOf(a, n, x) == Average(x, 0.0, true)
  {
    if n > 1 { FirstRoundTrip(a, n - 1, x); }
  }

  lemma AverageStep(a: Average, n: nat, x: real)
    ensures AverageOf(a, n, x) == if n == 0 then a else Averaged(AverageOf(a, n - 1, x), x)
  {
  }

  lemma AveragedOnce(b: Average, x: real)
    requires b.initialized
    ensures var r := Averaged(b, x);
            r.initialized && r.rtt - x == 0.8 * (b.rtt - x) && r.jitter == 0.9 * b.jitter + 0.1 * AbsR(x - b.rtt)
  {
  }

  // ---------- The transport object ----------

  /** A report says nothing about when the previous one went out. */
  lemma ReportReads(ssrc: uint32, rtpNow: uint32, unixUs: nat, st: ReportState, last: int)
    ensures forall before: int ::
              ReportBytes(ssrc, rtpNow, unixUs, st.(lastReport := before)) == ReportBytes(ssrc, rtpNow, unixUs, st)
  {
  }

  datatype PacketNack = PacketNack(frameId: uint32, packetId: uint16)

  /** The part of a parsed RTCP packet that the transport acts on. */
  datatype Feedback = Feedback(senderSsrc: uint32, checkpoint: uint32, nacks: seq<PacketNack>,
                               rttMs: Option<real>, pli: bool)

  ghost function RetransmitAll(c: Cache, ssrc: uint32, nacks: seq<PacketNack>, nows: seq<int>): Cache
    requires |nacks| == |nows|
  {
    if nacks == [] then c
    else
      var n := |nacks| - 1;
      Retransmit(RetransmitAll(c, ssrc, nacks[..n], nows[..n]), ssrc, nacks[n].frameId, nacks[n].packetId, nows[n])
  }

  /** Every cached packet is filed under its own id. */
  ghost predicate Filed(c: Cache) {
    forall ssrc, f, p :: ssrc in c.frames && f in c.frames[ssrc] && p in c.frames[ssrc][f] ==>
      c.frames[ssrc][f][p].packetId == p
  }

  function Ids(packets: seq<Packet>): set<uint16> { set p | p in packets :: p.packetId }

  predicate Ascending(packets: seq<Packet>) {
    forall i, j :: 0 <= i < j < |packets| ==> packets[i].packetId < packets[j].packetId
  }

  /** `sent` answers a NACK: the due packets in id order, each as cached. */
  ghost predicate Answers(c: Cache, ssrc: uint32, n: PacketNack, now: int, sent: seq<Packet>) {
    && Ascending(sent) && Ids(sent) == DuePackets(c, ssrc, n.frameId, n.packetId, now)
    && forall p :: p in sent ==> IsCached(c, ssrc, n.frameId, p)
  }

  /** Every NACK is answered from the cache after those before it. */
  ghost predicate AnswersAll(c: Cache, ssrc: uint32, nacks: seq<PacketNack>, nows: seq<int>, resent: seq<seq<Packet>>)
    requires |nacks| == |nows| == |resent|
  {
    forall i :: 0 <= i < |nacks| ==>
      Answers(RetransmitAll(c, ssrc, nacks[..i], nows[..i]), ssrc, nacks[i], nows[i], resent[i])
  }

  ghost predicate IsCached(c: Cache, ssrc: uint32, frameId: uint32, p: Packet) {
    frameId in FramesOf(c, ssrc) && p.packetId in FramesOf(c, ssrc)[frameId] &&
    FramesOf(c, ssrc)[frameId][p.packetId] == p
  }

  lemma {:induction false} TrimKeepsFrames(m: FrameCache, max: nat)
    ensures forall k :: k in Trim(m, max) ==> k in m && Trim(m, max)[k] == m[k]
    decreases |m|
  {
    if |m| > max {
      TrimKeepsFrames(m - {MinKey(m.Keys)}, max);
    }
  }

  /** Trimming leaves at most the bound and, if that is not zero, the newest frame. */
  lemma {:induction false} TrimKeepsLast(m: FrameCache, max: nat, last: uint32)
    requires last in m && (forall k :: k in m ==> k <= last) && max > 0
    ensures last in Trim(m, max) && |Trim(m, max)| <= max
    decreases |m|
  {
    if |m| > max {
      OldestIsNotLast(m, last);
      TrimKeepsLast(m - {MinKey(m.Keys)}, max, last);
    }
  }

  lemma OldestIsNotLast(m: FrameCache, last: uint32)
    requires last in m && (forall k :: k in m ==> k <= last) && |m| > 1
    ensures MinKey(m.Keys) < last
  {
    assert |m.Keys - {last}| == |m| - 1;
    var k :| k in m.Keys - {last};
    assert MinKey(m.Keys) <= k;
  }

  lemma {:induction false} TrimBounds(m: FrameCache, max: nat)
    ensures |Trim(m, max)| <= max
    decreases |m|
  {
    if |m| > max { TrimBounds(m - {MinKey(m.Keys)}, max); }
  }

  /** What sending a frame with a given header does to the cache: only that stream's frames change, by the new frame
      and evictions down to 30 frames, or 50 for audio; a frame newer than all of them is there with its packets. */
  ghost predicate FiledUnder(before: Cache, after: Cache, packets: seq<Packet>, h: Rtp)
    requires packets != []
  {
    var fid, old_, new_ := packets[0].frameId, FramesOf(before, h.ssrc), FramesOf(after, h.ssrc);
    && after.lastSent == before.lastSent[h.ssrc := fid]
    && (forall other: uint32 :: other != h.ssrc ==> FramesOf(after, other) == FramesOf(before, other))
    && (forall k :: k in new_ && k != fid ==> k in old_ && new_[k] == old_[k])
    && |new_| <= (if h.payloadType == 127 then 50 else 30)
    && ((forall k :: k in old_ ==> k < fid) ==> fid in new_ && new_[fid] == AddPackets(map[], packets))
  }

  lemma FiledAsEncoded(c: Cache, packets: seq<Packet>)
    requires packets != []
    ensures forall h :: Carries(packets[0], h) ==> FiledUnder(c, CacheFrame(c, packets), packets, h)
  {
    forall h | Carries(packets[0], h) ensures FiledUnder(c, CacheFrame(c, packets), packets, h) {
      FiledAs(c, packets, h);
    }
  }

  lemma FiledAs(c: Cache, packets: seq<Packet>, h: Rtp)
    requires packets != [] && Carries(packets[0], h)
    ensures FiledUnder(c, CacheFrame(c, packets), packets, h)
  {
    hide Trim, AddPackets, ParseHeader, Carries;
    HeaderReads(packets[0], h);
    var fid, frames := packets[0].frameId, FramesOf(c, h.ssrc);
    var frame := AddPackets(if fid in frames then frames[fid] else map[], packets);
    var m, max := frames[fid := frame], MaxFrames(h.payloadType != 127);
    TrimKeepsFrames(m, max);
    TrimBounds(m, max);
    if forall k :: k in frames ==> k < fid { TrimKeepsLast(m, max, fid); }
  }

  /** What a report sent with a frame says: its stream, and its timestamp advanced on the clock of its media. */
  ghost predicate ReportsFrame(report: seq<uint8>, h: Rtp, captureTime: int, t: int) {
    && |report| == 28 && ReadBigEndian(report[4..8]) == h.ssrc
    && ReadBigEndian(report[16..20]) ==
         RtpAt(h.timestamp, captureTime, if h.payloadType == 127 then 48_000 else 90_000, t)
  }

  lemma ReportedAsEncoded(r: Reports, p: Packet, packets: uint32, octets: uint32, t: int, unixUs: nat)
    ensures var h := ParseHeader(p);
            var report := ReportSent(r, h.ssrc, h.rtp, p.captureTime, Timebase(h.video), packets, octets, t, unixUs);
            report.Some? ==> forall x :: Carries(p, x) ==> ReportsFrame(report.value, x, p.captureTime, t)
  {
    hide ReportBytes, ParseHeader, Carries, RtpAt;
    var h := ParseHeader(p);
    var st := Counted(StateOf(r, h.ssrc), h.rtp, packets, octets);
    forall x | Carries(p, x) ensures h == Header(x.payloadType != 127, x.timestamp, x.ssrc) { HeaderReads(p, x); }
    ReportCarries(h.ssrc, RtpAt(h.rtp, p.captureTime, Timebase(h.video), t), unixUs, st);
  }

  lemma {:induction false} AddPacketsFiled(f: Frame, packets: seq<Packet>)
    requires forall k :: k in f ==> f[k].packetId == k
    ensures forall k :: k in AddPackets(f, packets) ==> AddPackets(f, packets)[k].packetId == k
  {
    if packets != [] { AddPacketsFiled(f, packets[..|packets| - 1]); }
  }

  lemma SendingFiled(c: Cache, packets: seq<Packet>)
    requires packets != [] && Filed(c)
    ensures Filed(CacheFrame(c, packets))
  {
    hide Trim, ParseHeader, AddPackets;
    var h, fid := ParseHeader(packets[0]), packets[0].frameId;
    var m := FramesOf(c, h.ssrc);
    var f: Frame := if fid in m then m[fid] else map[];
    AddPacketsFiled(f, packets);
    TrimKeepsFrames(m[fid := AddPackets(f, packets)], MaxFrames(h.video));
  }

  lemma CheckpointFiled(c: Cache, ssrc: uint32, checkpoint: uint32)
    requires Filed(c)
    ensures Filed(Checkpoint(c, ssrc, checkpoint))
  {
  }

  lemma NoIds(r: map<PacketKey, int>, ssrc: uint32, frameId: uint32, now: int)
    ensures Ids([]) == {} && MarkSent(r, ssrc, frameId, {}, now) == r
  {
  }

  lemma MarkOneMore(r: map<PacketKey, int>, ssrc: uint32, frameId: uint32, sent: seq<Packet>, now: int, p: Packet)
    ensures Ids(sent + [p]) == Ids(sent) + {p.packetId}
    ensures MarkSent(r, ssrc, frameId, Ids(sent), now)[PacketKey(ssrc, frameId, p.packetId) := now] ==
              MarkSent(r, ssrc, frameId, Ids(sent + [p]), now)
  {
    IdsOneMore(sent, p);
    hide Ids;
    var ids, k := Ids(sent), PacketKey(ssrc, frameId, p.packetId);
    var a, b := MarkSent(r, ssrc, frameId, ids, now)[k := now], MarkSent(r, ssrc, frameId, ids + {p.packetId}, now);
    assert a.Keys == b.Keys;
  }

  lemma IdsOneMore(sent: seq<Packet>, p: Packet)
    ensures Ids(sent + [p]) == Ids(sent) + {p.packetId}
  {
    assert forall q :: q in sent + [p] <==> q in sent || q == p;
  }

  lemma OthersUnmarked(r: map<PacketKey, int>, ssrc: uint32, frameId: uint32, ids: set<uint16>, now: int, p: uint16)
    requires p !in ids
    ensures var k := PacketKey(ssrc, frameId, p);
            Due(MarkSent(r, ssrc, frameId, ids, now), k, now) == Due(r, k, now)
  {
  }

  /** Bytes of the delivered packets, in a 32-bit counter. */
  function OctetsSent(packets: seq<Packet>, delivered: seq<bool>): uint32
    requires |packets| == |delivered|
  {
    if packets == [] then 0
    else
      var n := |packets| - 1;
      var before := OctetsSent(packets[..n], delivered[..n]);
      if delivered[n] then ToU32(before + |packets[n].data|) else before
  }

  function Timebase(video: bool): nat { if video then 90_000 else 48_000 }

  function CountTrue(bs: seq<bool>): nat {
    if bs == [] then 0 else CountTrue(bs[..|bs| - 1]) + (if bs[|bs| - 1] then 1 else 0)
  }

  /** Where a call notices that the transport was stopped: never, at the loop's check before a packet, under the
      send lock before a packet, or only when it would report. */
  datatype Stopping = Never | BeforePacket(at: nat) | UnderLock(at: nat) | AtReport

  predicate Noticed(stop: Stopping, size: nat) {
    match stop
    case Never => false
    case BeforePacket(at) => at < size
    case UnderLock(at) => at < size
    case AtReport => true
  }

  /** Seen under the lock a stop abandons the call: nothing is counted. */
  predicate Abandoned(stop: Stopping, size: nat) { stop.UnderLock? && stop.at < size }

  /** The packets a call gets to. */
  function Handled(stop: Stopping, size: nat): (n: nat)
    ensures n <= size
  {
    if (stop.BeforePacket? || stop.UnderLock?) && stop.at < size then stop.at else size
  }

  lemma LongerRun(i: nat, size: nat, bound: nat)
    requires i <= size
    ensures i * bound + bound == (i + 1) * bound && i * bound <= size * bound
  {
  }

  lemma NoNacks(c: Cache, ssrc: uint32)
    ensures RetransmitAll(c, ssrc, [], []) == c
  {
  }

  lemma OneMoreNack(c: Cache, ssrc: uint32, nacks: seq<PacketNack>, nows: seq<int>, i: nat)
    requires i < |nacks| == |nows|
    ensures RetransmitAll(c, ssrc, nacks[..i + 1], nows[..i + 1]) ==
              Retransmit(RetransmitAll(c, ssrc, nacks[..i], nows[..i]), ssrc, nacks[i].frameId, nacks[i].packetId,
                         nows[i])
  {
    hide Retransmit;
    assert nacks[..i + 1][..i] == nacks[..i] && nows[..i + 1][..i] == nows[..i];
  }

  /** The cache looks the same before and after an answer. */
  lemma AnswerIs(c: Cache, ssrc: uint32, n: PacketNack, now: int, sent: seq<Packet>)
    requires Ascending(sent) && Ids(sent) == DuePackets(c, ssrc, n.frameId, n.packetId, now)
    requires forall p :: p in sent ==> IsCached(Retransmit(c, ssrc, n.frameId, n.packetId, now), ssrc, n.frameId, p)
    ensures Answers(c, ssrc, n, now, sent) && Retransmit(c, ssrc, n.frameId, n.packetId, now).frames == c.frames
  {
    hide Ascending, Ids, DuePackets, MarkSent;
  }

  class CastTransport {
    var running: bool
    var packetCache: map<uint32, FrameCache>
    var lastSentFrameId: map<uint32, uint32>
    var lastRetransmitTime: map<PacketKey, int>
    var pacingTokens: real
    var pacingLastRefill: int
    var reports: Reports
    var average: Average
    var totalPacketsSent: uint32
    var totalFramesSent: uint32
    var totalNacksReceived: uint32
    var totalPliReceived: uint32

    ghost function CacheView(): Cache
      reads this`packetCache, this`lastSentFrameId, this`lastRetransmitTime
    {
      Cache(packetCache, lastSentFrameId, lastRetransmitTime)
    }

    ghost function PacerView(): Pacer
      reads this`pacingTokens, this`pacingLastRefill
    {
      Pacer(pacingTokens, pacingLastRefill)
    }

    ghost predicate Valid()
      reads this
    {
      Filed(CacheView()) && PacerValid(PacerView())
    }

    /** The state `Start` leaves behind once the socket is open. */
    constructor (now: int)
      ensures Valid() && running && CacheView() == EMPTY_CACHE && reports == map[]
      ensures PacerView() == Pacer(PACING_MAX_BURST, now)
    {
      running := true;
      packetCache, lastSentFrameId, lastRetransmitTime := map[], map[], map[];
      pacingTokens, pacingLastRefill := PACING_MAX_BURST, now;
      reports := map[];
      average := Average(0.0, 0.0, false);
      totalPacketsSent, totalFramesSent, totalNacksReceived, totalPliReceived := 0, 0, 0, 0;
    }

    /** `cache_mutex_` section of `SendPackets`: file the packets, then drop the oldest frames. */
    method CachePackets(packets: seq<Packet>)
      requires packets != []
      modifies this`packetCache, this`lastSentFrameId
      ensures CacheView() == CacheFrame(old(CacheView()), packets)
    {
      var h, fid := ParseHeader(packets[0]), packets[0].frameId;
      lastSentFrameId := lastSentFrameId[h.ssrc := fid];
      var frames := if h.ssrc in packetCache then packetCache[h.ssrc] else map[];
      var frame: Frame := if fid in frames then frames[fid] else map[];
      ghost var start := frame;
      var i := 0;
      while i < |packets|
        invariant 0 <= i <= |packets|
        invariant frame == AddPackets(start, packets[..i])
      {
        assert packets[..i + 1][..i] == packets[..i];
        frame := frame[packets[i].packetId := packets[i]];
        i := i + 1;
      }
      assert packets[..i] == packets;
      frames := DropOldest(frames[fid := frame], MaxFrames(h.video));
      packetCache := packetCache[h.ssrc := frames];
    }

    static method DropOldest(m: FrameCache, max: nat) returns (frames: FrameCache)
      ensures frames == Trim(m, max)
    {
      frames := m;
      while |frames| > max
        invariant Trim(m, max) == Trim(frames, max)
        decreases |frames|
      {
        MinExists(frames.Keys);
        var oldest: uint32 :| oldest in frames && forall k | k in frames.Keys :: oldest <= k;
        assert IsMin(oldest, frames.Keys) && MinKey(frames.Keys) == oldest;
        frames := frames - {oldest};
      }
    }

    /** Drops frames from the oldest on while their ids are within the limit. */
    static method DropAcknowledged(m: FrameCache, limit: uint32) returns (frames: FrameCache)
      ensures frames == DropThrough(m, limit)
    {
      frames := m;
      while frames != map[] && exists k | k in frames.Keys :: k <= limit
        invariant DropThrough(frames, limit) == DropThrough(m, limit)
        decreases |frames|
      {
        MinExists(frames.Keys);
        var oldest: uint32 :| oldest in frames && forall k | k in frames.Keys :: oldest <= k;
        ghost var rest := frames - {oldest};
        assert DropThrough(rest, limit) == DropThrough(frames, limit);
        frames := frames - {oldest};
      }
      assert DropThrough(frames, limit) == frames;
    }

    /** Refills the bucket and takes `count` tokens when it holds that many. */
    method ConsumePacingTokens(count: nat, now: int) returns (granted: bool)
      modifies this`pacingTokens, this`pacingLastRefill
      ensures granted == Grants(old(PacerView()), count, now)
      ensures PacerView() == Consume(old(PacerView()), count, now)
    {
      if pacingLastRefill == 0 {
        pacingTokens := PACING_MAX_BURST;
        pacingLastRefill := now;
      } else {
        var elapsedMs := (now - pacingLastRefill) as real / 1_000_000.0;
        pacingTokens := MinR(PACING_MAX_BURST, pacingTokens + elapsedMs * 5.0);
        pacingLastRefill := now;
      }
      if pacingTokens >= count as real {
        pacingTokens := pacingTokens - count as real;
        return true;
      }
      return false;
    }

    /** The pacing loop for one packet of a lone sender whose sleeps run over by `oversleep`: it ends,
        within 200 us of sleep, having taken exactly one token. */
    method AcquireToken(now: int, oversleep: nat) returns (t: int)
      requires PacerValid(PacerView()) && 0 < now && pacingLastRefill <= now
      modifies this`pacingTokens, this`pacingLastRefill
      ensures PacerValid(PacerView()) && pacingLastRefill == t && now <= t <= now + 200_001 + oversleep
      ensures var p := old(PacerView());
              if Grants(p, 1, now) then t == now && PacerView() == Consume(p, 1, now)
              else Grants(Consume(p, 1, now), 1, t) && PacerView() == Consume(Consume(p, 1, now), 1, t)
    {
      t := now;
      var acquired := ConsumePacingTokens(1, t);
      ghost var slept := false;
      while !acquired
        invariant PacerValid(PacerView()) && pacingLastRefill == t && 0 < t
        invariant !slept ==> t == now && PacerView() == Consume(old(PacerView()), 1, now) &&
                             acquired == Grants(old(PacerView()), 1, now)
        invariant slept ==> acquired && !Grants(old(PacerView()), 1, now) &&
                            now <= t <= now + 200_001 + oversleep &&
                            Grants(Consume(old(PacerView()), 1, now), 1, t) &&
                            PacerView() == Consume(Consume(old(PacerView()), 1, now), 1, t)
        decreases if slept then 0 else 1
      {
        var waitMs := (1.0 - pacingTokens) / 5.0;
        if waitMs < 0.05 { waitMs := 0.05; }
        var next := t + (waitMs * 1_000_000.0).Floor + 1 + oversleep;
        LoneSenderSucceeds(old(PacerView()), now, next);
        t := next;
        acquired := ConsumePacingTokens(1, t);
        slept := true;
      }
    }

    /** Counts what was just sent and emits a report when none went out in the last 40 ms. */
    method MaybeSendSenderReport(ssrc: uint32, rtp: uint32, captureTime: int, timebase: int,
                                 packets: uint32, octets: uint32, now: int, unixUs: nat)
      returns (report: Option<seq<uint8>>)
      modifies this`reports
      ensures reports == Reported(old(reports), ssrc, rtp, packets, octets, now)
      ensures report == ReportSent(old(reports), ssrc, rtp, captureTime, timebase, packets, octets, now, unixUs)
    {
      hide ReportBytes, TruncDiv, ToU32;
      if ssrc == 0 {
        return None;
      }
      var st := if ssrc in reports then reports[ssrc] else NO_REPORTS;
      st := st.(lastRtp := rtp);
      st := st.(packets := ToU32(st.packets + packets));
      st := st.(octets := ToU32(st.octets + octets));
      if st.lastReport != 0 && now - st.lastReport < REPORT_INTERVAL_NS {
        reports := reports[ssrc := st];
        return None;
      }
      st := st.(lastReport := now);
      reports := reports[ssrc := st];
      var rtpNow := rtp;
      if captureTime != 0 {
        var ageUs := TruncDiv(now - captureTime, 1000);
        rtpNow := ToU32(rtpNow + ToU32(TruncDiv(ageUs * timebase, 1_000_000)));
      }
      assert rtpNow == RtpAt(rtp, captureTime, timebase, now);
      ReportReads(ssrc, rtpNow, unixUs, st, now);
      report := Some(ReportBytes(ssrc, rtpNow, unixUs, st));
    }

    /** Caches a frame, paces and sends its packets, then reports. `delivered[i]` is the socket's answer for
        packet `i`, and `stop` says where another thread's `Stop` is noticed. The lone-sender clock bound makes every
        call end. */
    method SendPackets(packets: seq<Packet>, delivered: seq<bool>, stop: Stopping, now: int, oversleep: nat,
                       unixUs: nat)
      returns (sent: bool, t: int, report: Option<seq<uint8>>)
      requires Valid() && |delivered| == |packets| && 0 < now && pacingLastRefill <= now
      modifies this
      ensures !old(running) || packets == [] ==>
                !sent && CacheView() == old(CacheView()) && PacerView() == old(PacerView())
      ensures Valid() && pacingLastRefill <= t
      ensures running == (old(running) && (packets == [] || !Noticed(stop, |packets|)))
      ensures old(running) && packets != [] ==>
                var n := CountTrue(delivered[..Handled(stop, |packets|)]);
                && CacheView() == CacheFrame(old(CacheView()), packets)
                && sent == (n > 0 && !Abandoned(stop, |packets|))
                && totalPacketsSent == ToU32(old(totalPacketsSent) + if Abandoned(stop, |packets|) then 0 else n)
                && now <= t <= now + |packets| * (200_001 + oversleep)
      ensures sent ==>
                totalFramesSent == if ParseHeader(packets[0]).video then ToU32(old(totalFramesSent) + 1)
                                   else old(totalFramesSent)
      ensures sent && !Noticed(stop, |packets|) ==>
                var h, n := ParseHeader(packets[0]), ToU32(CountTrue(delivered));
                var octets := OctetsSent(packets, delivered);
                && reports == Reported(old(reports), h.ssrc, h.rtp, n, octets, t)
                && report == ReportSent(old(reports), h.ssrc, h.rtp, packets[0].captureTime, Timebase(h.video), n,
                                        octets, t, unixUs)
      ensures !sent || Noticed(stop, |packets|) ==> reports == old(reports) && report == None
      ensures old(running) && packets != [] ==>
                forall h :: Carries(packets[0], h) ==>
                  && FiledUnder(old(CacheView()), CacheView(), packets, h)
                  && (report.Some? ==> ReportsFrame(report.value, h, packets[0].captureTime, t))
      ensures !sent ==> totalFramesSent == old(totalFramesSent)
    {
      hide CacheFrame, Filed, PacerValid, ParseHeader, Reported, ReportSent, CountTrue, OctetsSent;
      hide Carries, FiledUnder, ReportsFrame;
      t, report := now, None;
      if !running || packets == [] {
        return false, now, None;
      }
      var h := ParseHeader(packets[0]);
      SendingFiled(CacheView(), packets);
      FiledAsEncoded(CacheView(), packets);
      CachePackets(packets);
      var okCount, octets, abandoned;
      okCount, octets, t, abandoned := SendEach(packets, delivered, stop, now, oversleep);
      if abandoned {
        return false, t, None;
      }
      assert delivered[..|packets|] == delivered && packets[..|packets|] == packets;
      if stop == AtReport {
        running := false;
      }
      if okCount > 0 && running {
        ReportedAsEncoded(reports, packets[0], ToU32(okCount), octets, t, unixUs);
        report := MaybeSendSenderReport(h.ssrc, h.rtp, packets[0].captureTime, Timebase(h.video),
                                        ToU32(okCount), octets, t, unixUs);
      }
      totalPacketsSent := ToU32(totalPacketsSent + okCount);
      if okCount > 0 && h.video {
        totalFramesSent := ToU32(totalFramesSent + 1);
      }
      sent := okCount > 0;
    }

    /** The pacing and sending loop. */
    method SendEach(packets: seq<Packet>, delivered: seq<bool>, stop: Stopping, now: int, oversleep: nat)
      returns (okCount: nat, octets: uint32, t: int, abandoned: bool)
      requires running && |delivered| == |packets|
      requires PacerValid(PacerView()) && 0 < now && pacingLastRefill <= now
      modifies this`running, this`pacingTokens, this`pacingLastRefill
      ensures PacerValid(PacerView()) && pacingLastRefill <= t
      ensures running == !((stop.BeforePacket? || stop.UnderLock?) && stop.at < |packets|)
      ensures abandoned == Abandoned(stop, |packets|)
      ensures var n := Handled(stop, |packets|);
              okCount == CountTrue(delivered[..n]) && octets == OctetsSent(packets[..n], delivered[..n])
      ensures now <= t <= now + |packets| * (200_001 + oversleep)
    {
      hide PacerValid, Grants, Consume;
      okCount, octets, t, abandoned := 0, 0, now, false;
      var i := 0;
      while i < |packets|
        invariant 0 <= i <= Handled(stop, |packets|) && running && 0 < now
        invariant PacerValid(PacerView()) && pacingLastRefill <= t
        invariant now <= t <= now + i * (200_001 + oversleep)
        invariant okCount == CountTrue(delivered[..i]) && octets == OctetsSent(packets[..i], delivered[..i])
      {
        LongerRun(i, |packets|, 200_001 + oversleep);
        if stop == BeforePacket(i) || stop == UnderLock(i) {
          running, abandoned := false, stop.UnderLock?;
          return;
        }
        assert delivered[..i + 1][..i] == delivered[..i] && packets[..i + 1][..i] == packets[..i];
        t := AcquireToken(t, oversleep);
        if delivered[i] {
          octets := ToU32(octets + |packets[i].data|);
          okCount := okCount + 1;
        }
        i := i + 1;
      }
    }

    /** The packets a NACK asks for that are due again, in packet-id order. */
    method RetransmitPacket(ssrc: uint32, frameId: uint32, packetId: uint16, now: int) returns (toSend: seq<Packet>)
      requires Valid()
      modifies this`lastRetransmitTime
      ensures Valid()
      ensures CacheView() == Retransmit(old(CacheView()), ssrc, frameId, packetId, now)
      ensures Ascending(toSend) && Ids(toSend) == DuePackets(old(CacheView()), ssrc, frameId, packetId, now)
      ensures forall p :: p in toSend ==> IsCached(CacheView(), ssrc, frameId, p)
    {
      hide Ids, MarkSent, Due;
      toSend := [];
      NoIds(lastRetransmitTime, ssrc, frameId, now);
      if ssrc in packetCache && frameId in packetCache[ssrc] {
        var frame := packetCache[ssrc][frameId];
        ghost var due := DuePackets(CacheView(), ssrc, frameId, packetId, now);
        var p := if packetId == WHOLE_FRAME then 0 else packetId;
        var end := if packetId == WHOLE_FRAME then 0x1_0000 else packetId + 1;
        while p < end
          invariant p <= end <= 0x1_0000 && (packetId != WHOLE_FRAME ==> packetId <= p && end == packetId + 1)
          invariant forall q: uint16 :: q in due && q < p ==> q in Ids(toSend)
          invariant forall q :: q in Ids(toSend) ==> q in due && q < p
          invariant forall x :: x in toSend ==> x.packetId < p && x.packetId in frame && x == frame[x.packetId]
          invariant Ascending(toSend)
          invariant lastRetransmitTime == MarkSent(old(lastRetransmitTime), ssrc, frameId, Ids(toSend), now)
        {
          if p in frame {
            assert frame[p].packetId == p;
            var key := PacketKey(ssrc, frameId, frame[p].packetId);
            OthersUnmarked(old(lastRetransmitTime), ssrc, frameId, Ids(toSend), now, p);
            if Due(lastRetransmitTime, key, now) {
              MarkOneMore(old(lastRetransmitTime), ssrc, frameId, toSend, now, frame[p]);
              lastRetransmitTime := lastRetransmitTime[key := now];
              toSend := toSend + [frame[p]];
            }
          }
          p := p + 1;
        }
        assert Ids(toSend) == due;
      }
    }

    /** The checkpoint section of the receive loop. */
    method ApplyCheckpoint(ssrc: uint32, checkpoint: uint32)
      modifies this`packetCache, this`lastRetransmitTime
      ensures CacheView() == Checkpoint(old(CacheView()), ssrc, checkpoint)
    {
      if ssrc == 0 {
        return;
      }
      var lastSent := if ssrc in lastSentFrameId then lastSentFrameId[ssrc] else 0;
      var eraseTo := SafeCacheEraseLimit(checkpoint, lastSent);
      if eraseTo > 0 {
        if ssrc in packetCache {
          var frames := DropAcknowledged(packetCache[ssrc], eraseTo);
          packetCache := packetCache[ssrc := frames];
        }
        lastRetransmitTime := Forget(lastRetransmitTime, ssrc, eraseTo);
      }
    }

    /** One parsed RTCP packet: statistics, the checkpoint, then each NACK at its own clock reading. */
    method HandleFeedback(fb: Feedback, nows: seq<int>) returns (resent: seq<seq<Packet>>)
      requires Valid() && |nows| == |fb.nacks|
      modifies this
      ensures CacheView() == RetransmitAll(Checkpoint(old(CacheView()), fb.senderSsrc, fb.checkpoint),
                                           fb.senderSsrc, fb.nacks, nows)
      ensures |resent| == |fb.nacks| && Valid() && PacerView() == old(PacerView())
      ensures AnswersAll(Checkpoint(old(CacheView()), fb.senderSsrc, fb.checkpoint), fb.senderSsrc, fb.nacks, nows,
                         resent)
      ensures average == if fb.rttMs.Some? then Averaged(old(average), fb.rttMs.value) else old(average)
      ensures totalNacksReceived == ToU32(old(totalNacksReceived) + |fb.nacks|)
      ensures totalPliReceived == if fb.pli then ToU32(old(totalPliReceived) + 1) else old(totalPliReceived)
    {
      hide Checkpoint, Averaged, Filed, AnswersAll, RetransmitAll;
      CheckpointFiled(CacheView(), fb.senderSsrc, fb.checkpoint);
      if fb.rttMs.Some? {
        UpdateEwmaRtt(fb.rttMs.value);
      }
      totalNacksReceived := ToU32(totalNacksReceived + |fb.nacks|);
      if fb.pli {
        totalPliReceived := ToU32(totalPliReceived + 1);
      }
      ApplyCheckpoint(fb.senderSsrc, fb.checkpoint);
      resent := AnswerNacks(fb.senderSsrc, fb.nacks, nows);
    }

    /** The NACK loop. */
    method AnswerNacks(ssrc: uint32, nacks: seq<PacketNack>, nows: seq<int>) returns (resent: seq<seq<Packet>>)
      requires Valid() && |nows| == |nacks|
      modifies this`lastRetransmitTime
      ensures Valid() && |resent| == |nacks|
      ensures CacheView() == RetransmitAll(old(CacheView()), ssrc, nacks, nows)
      ensures AnswersAll(old(CacheView()), ssrc, nacks, nows, resent)
    {
      hide Retransmit, Answers, Filed, Ids, Ascending, IsCached, RetransmitAll, DuePackets;
      ghost var c := CacheView();
      resent := [];
      var i := 0;
      NoNacks(c, ssrc);
      assert nacks[..0] == [] && nows[..0] == [];
      while i < |nacks|
        invariant 0 <= i <= |nacks| && |resent| == i && Valid()
        invariant CacheView() == RetransmitAll(c, ssrc, nacks[..i], nows[..i])
        invariant forall k :: 0 <= k < i ==>
                    Answers(RetransmitAll(c, ssrc, nacks[..k], nows[..k]), ssrc, nacks[k], nows[k], resent[k])
      {
        OneMoreNack(c, ssrc, nacks, nows, i);
        ghost var before := CacheView();
        var again := RetransmitPacket(ssrc, nacks[i].frameId, nacks[i].packetId, nows[i]);
        AnswerIs(before, ssrc, nacks[i], nows[i], again);
        resent := resent + [again];
        i := i + 1;
      }
      assert nacks[..i] == nacks && nows[..i] == nows;
    }

    method UpdateEwmaRtt(sampleMs: real)
      modifies this`average
      ensures average == Averaged(old(average), sampleMs)
    {
      if !average.initialized {
        average := Average(sampleMs, 0.0, true);
      } else {
        var previous := average.rtt;
        var difference := AbsR(sampleMs - previous);
        average := Average(0.8 * previous + 0.2 * sampleMs, 0.9 * average.jitter + 0.1 * difference, true);
      }
    }
  }
}
