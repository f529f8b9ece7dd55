/** Whole runs of the transport over media as the sender has it: encoded frames of a stream in, retransmitted packets
    out. */
module MediaRuns {
  import opened Arithmetic
  import opened Transport
  import opened RetransmitRuns

  // ---------- Media ----------

  datatype MediaPacket = MediaPacket(packetId: uint16, marker: bool, number: uint16, captureTime: int,
                                     payload: seq<uint8>)

  /** An encoded frame of the stream `ssrc`, in at least one packet. */
  datatype MediaFrame = MediaFrame(ssrc: uint32, timestamp: uint32, payloadType: nat, frameId: uint32,
                                   head: MediaPacket, tail: seq<MediaPacket>)

  predicate FrameValid(f: MediaFrame) { f.payloadType < 128 }

  function Rtps(f: MediaFrame, p: MediaPacket): Rtp {
    Rtp(0x80, p.marker, f.payloadType, p.number, f.timestamp, f.ssrc)
  }

  function MakePacket(f: MediaFrame, p: MediaPacket): Packet
    requires FrameValid(f)
  {
    Packet(f.frameId, p.packetId, p.captureTime, RtpHeader(Rtps(f, p)) + p.payload)
  }

  function MakePackets(f: MediaFrame, ps: seq<MediaPacket>): (r: seq<Packet>)
    requires FrameValid(f)
    ensures |r| == |ps| && forall i :: 0 <= i < |ps| ==> r[i] == MakePacket(f, ps[i])
  {
    if ps == [] then [] else [MakePacket(f, ps[0])] + MakePackets(f, ps[1..])
  }

  function Packets(f: MediaFrame): (r: seq<Packet>)
    requires FrameValid(f)
    ensures r != [] && r[0] == MakePacket(f, f.head)
  {
    MakePackets(f, [f.head] + f.tail)
  }

  lemma FirstCarries(f: MediaFrame)
    requires FrameValid(f)
    ensures Carries(Packets(f)[0], Rtps(f, f.head))
    ensures ParseHeader(Packets(f)[0]) == Header(f.payloadType != 127, f.timestamp, f.ssrc)
  {
    hide RtpHeader, ParseHeader;
    assert (RtpHeader(Rtps(f, f.head)) + f.head.payload)[..12] == RtpHeader(Rtps(f, f.head));
    HeaderReads(Packets(f)[0], Rtps(f, f.head));
  }

  // ---------- Runs ----------

  datatype MediaEvent =
    | FrameSent(frame: MediaFrame)
    | Acknowledged(ssrc: uint32, checkpoint: uint32)
    | Requested(ssrc: uint32, frameId: uint32, packetId: uint16, now: int)

  predicate EventValid(m: MediaEvent) { m.FrameSent? ==> FrameValid(m.frame) }

  function EncodeEvent(m: MediaEvent): Event
    requires EventValid(m)
  {
    match m
    case FrameSent(f) => Sent(Packets(f))
    case Acknowledged(ssrc, checkpoint) => Checkpointed(ssrc, checkpoint)
    case Requested(ssrc, frameId, packetId, now) => Nacked(ssrc, frameId, packetId, now)
  }

  predicate Valid(ms: seq<MediaEvent>) { forall i :: 0 <= i < |ms| ==> EventValid(ms[i]) }

  function Encode(ms: seq<MediaEvent>): (es: seq<Event>)
    requires Valid(ms)
    ensures |es| == |ms| && forall i :: 0 <= i < |ms| ==> es[i] == EncodeEvent(ms[i])
  {
    if ms == [] then [] else Encode(ms[..|ms| - 1]) + [EncodeEvent(ms[|ms| - 1])]
  }

  /** The frames sent on a stream. */
  function FramesSent(ms: seq<MediaEvent>, ssrc: uint32): seq<MediaFrame> {
    if ms == [] then []
    else
      var m := ms[|ms| - 1];
      FramesSent(ms[..|ms| - 1], ssrc) + if m.FrameSent? && m.frame.ssrc == ssrc then [m.frame] else []
  }

  /** The history the cache refines is that of the frames sent on the stream itself. */
  ghost predicate Matches(h: seq<SentFrame>, fs: seq<MediaFrame>) {
    && |h| == |fs|
    && forall i :: 0 <= i < |fs| ==>
         FrameValid(fs[i]) && h[i] == SentFrame(fs[i].frameId, AddPackets(map[], Packets(fs[i])))
  }

  lemma {:induction false} HistoryMatches(ms: seq<MediaEvent>, ssrc: uint32)
    requires Valid(ms)
    ensures Matches(History(Encode(ms), ssrc), FramesSent(ms, ssrc))
  {
    hide AddPackets, Packets, ParseHeader;
    if ms != [] {
      var init, m := ms[..|ms| - 1], ms[|ms| - 1];
      assert Valid(init);
      HistoryMatches(init, ssrc);
      if m.FrameSent? { FirstCarries(m.frame); }
      assert Encode(ms)[..|ms| - 1] == Encode(init);
    }
  }

  /** A stream of one kind of media with ids below 2^31 that only go up, distinct packet ids in a frame, and
      acknowledgements below 2^31. */
  ghost predicate Stream(ms: seq<MediaEvent>, ssrc: uint32, audio: bool) {
    && Valid(ms)
    && (forall i, j :: 0 <= i < j < |FramesSent(ms, ssrc)| ==>
          FramesSent(ms, ssrc)[i].frameId < FramesSent(ms, ssrc)[j].frameId)
    && (forall i :: 0 <= i < |ms| && ms[i].FrameSent? && ms[i].frame.ssrc == ssrc ==>
          (ms[i].frame.payloadType == 127 <==> audio) && ms[i].frame.frameId < 0x8000_0000)
    && (forall i :: 0 <= i < |ms| && ms[i].Acknowledged? && ms[i].ssrc == ssrc ==> ms[i].checkpoint < 0x8000_0000)
  }

  predicate Distinct(ps: seq<Packet>) { forall i, j :: 0 <= i < j < |ps| ==> ps[i].packetId != ps[j].packetId }

  /** A cached frame is exactly its packets. */
  ghost predicate Holds(m: Frame, ps: seq<Packet>) {
    && (forall p :: p in ps ==> p.packetId in m && m[p.packetId] == p)
    && forall k :: k in m ==> exists p :: p in ps && p.packetId == k
  }

  lemma StreamOrdered(ms: seq<MediaEvent>, ssrc: uint32, audio: bool)
    requires Stream(ms, ssrc, audio)
    ensures Ordered(History(Encode(ms), ssrc)) && Plain(Encode(ms), ssrc, !audio)
  {
    hide ParseHeader, AddPackets, Packets, History, FramesSent;
    HistoryMatches(ms, ssrc);
    var es := Encode(ms);
    forall e | e in es && OnStream(e, ssrc)
      ensures ParseHeader(e.packets[0]).video == !audio && e.packets[0].frameId < 0x8000_0000
    {
      var i :| 0 <= i < |es| && es[i] == e;
      assert ms[i].FrameSent?;
      FirstCarries(ms[i].frame);
    }
    forall e | e in es && e.Checkpointed? && e.ssrc == ssrc ensures e.checkpoint < 0x8000_0000 {
      var i :| 0 <= i < |es| && es[i] == e;
      assert ms[i].Acknowledged?;
    }
  }

  /** A stream's cache, over every interleaving with other streams, acknowledgements and requests: at most 30 video or
      50 audio frames, each exactly the packets it was sent with, and a frame sent is missing only when an
      acknowledgement for the stream reached it or that many newer frames were sent. */
  lemma StreamCache(ms: seq<MediaEvent>, ssrc: uint32, audio: bool, i: nat)
    requires Stream(ms, ssrc, audio) && i < |FramesSent(ms, ssrc)|
    ensures var f, m, max := FramesSent(ms, ssrc)[i], FramesOf(Run(Encode(ms)), ssrc), if audio then 50 else 30;
            && FrameValid(f) && |m| <= max
            && (f.frameId in m && Distinct(Packets(f)) ==> Holds(m[f.frameId], Packets(f)))
            && (f.frameId !in m ==>
                  || |FramesSent(ms, ssrc)| - 1 - i >= max
                  || exists k ::
                       0 <= k < |ms| && ms[k].Acknowledged? && ms[k].ssrc == ssrc && ms[k].checkpoint >= f.frameId)
  {
    hide Run, History, Ordered, Plain, AddPackets, Packets, FramesSent, Stream;
    StreamValid(ms, ssrc, audio);
    StreamOrdered(ms, ssrc, audio);
    HistoryMatches(ms, ssrc);
    var es := Encode(ms);
    CacheLosesOnly(es, ssrc, !audio, i);
    var f := FramesSent(ms, ssrc)[i];
    if Distinct(Packets(f)) {
      AddPacketsStores(map[], Packets(f));
      AddPacketsKeeps(map[], Packets(f));
    }
    if e :| e in es && e.Checkpointed? && e.ssrc == ssrc && e.checkpoint >= f.frameId {
      var k :| 0 <= k < |es| && es[k] == e;
      assert ms[k].Acknowledged?;
    }
  }

  lemma StreamValid(ms: seq<MediaEvent>, ssrc: uint32, audio: bool)
    requires Stream(ms, ssrc, audio)
    ensures Valid(ms)
  {
  }

  // ---------- Feedback ----------

  /** The critical sections of one RTCP packet: its checkpoint and its first `n` NACKs. */
  function Sections(fb: Feedback, nows: seq<int>, n: nat): (es: seq<Event>)
    requires n <= |fb.nacks| == |nows|
    ensures |es| == n + 1
  {
    if n == 0 then [Checkpointed(fb.senderSsrc, fb.checkpoint)]
    else
      Sections(fb, nows, n - 1) +
      [Nacked(fb.senderSsrc, fb.nacks[n - 1].frameId, fb.nacks[n - 1].packetId, nows[n - 1])]
  }

  lemma {:induction false} SectionsRun(es: seq<Event>, fb: Feedback, nows: seq<int>, n: nat)
    requires n <= |fb.nacks| == |nows|
    ensures Run(es + Sections(fb, nows, n)) ==
              RetransmitAll(Checkpoint(Run(es), fb.senderSsrc, fb.checkpoint), fb.senderSsrc, fb.nacks[..n], nows[..n])
  {
    hide Checkpoint, Retransmit;
    var all := es + Sections(fb, nows, n);
    if n == 0 {
      assert all[..|all| - 1] == es;
    } else {
      SectionsRun(es, fb, nows, n - 1);
      assert all[..|all| - 1] == es + Sections(fb, nows, n - 1);
      assert fb.nacks[..n][..n - 1] == fb.nacks[..n - 1] && nows[..n][..n - 1] == nows[..n - 1];
    }
  }

  lemma {:induction false} SectionsAt(fb: Feedback, nows: seq<int>, n: nat, i: nat)
    requires i < n <= |fb.nacks| == |nows|
    ensures Sections(fb, nows, n)[i + 1] == Nacked(fb.senderSsrc, fb.nacks[i].frameId, fb.nacks[i].packetId, nows[i])
    ensures Sections(fb, nows, n)[..i + 1] == Sections(fb, nows, i)
  {
    if i < n - 1 {
      SectionsAt(fb, nows, n - 1, i);
      assert Sections(fb, nows, n)[..i + 1] == Sections(fb, nows, n - 1)[..i + 1];
    } else {
      assert Sections(fb, nows, n)[..n] == Sections(fb, nows, n - 1);
    }
  }

  /** What an RTCP packet makes the transport resend, after any run: for each NACK exactly the packets that are cached
      then, that it names, and that no earlier retransmission of the run sent less than 80 ms before; each as cached. */
  lemma ResentIff(es: seq<Event>, fb: Feedback, nows: seq<int>, resent: seq<seq<Packet>>, i: nat, q: uint16)
    requires |fb.nacks| == |nows| == |resent| && i < |fb.nacks| && Fair(es + Sections(fb, nows, |nows|))
    requires AnswersAll(Checkpoint(Run(es), fb.senderSsrc, fb.checkpoint), fb.senderSsrc, fb.nacks, nows, resent)
    ensures var all, j := es + Sections(fb, nows, |nows|), |es| + i + 1;
            var frames, n := FramesOf(Run(all[..j]), fb.senderSsrc), fb.nacks[i];
            && ((exists p :: p in resent[i] && p.packetId == q) <==>
                  && n.frameId in frames && q in frames[n.frameId]
                  && (n.packetId == 0xFFFF || n.packetId == q)
                  && forall k :: 0 <= k < j && Retransmits(all, k, PacketKey(fb.senderSsrc, n.frameId, q)) ==>
                       nows[i] - all[k].now >= 80_000_000)
            && forall p :: p in resent[i] && p.packetId == q ==>
                 n.frameId in frames && q in frames[n.frameId] && frames[n.frameId][q] == p
  {
    hide Run, Fair, Checkpoint, RetransmitAll, DuePackets, Retransmits;
    var all, j := es + Sections(fb, nows, |nows|), |es| + i + 1;
    SectionsAt(fb, nows, |nows|, i);
    assert all[j] == Sections(fb, nows, |nows|)[i + 1];
    assert all[..j] == es + Sections(fb, nows, i);
    SectionsRun(es, fb, nows, i);
    var c, key := Run(all[..j]), PacketKey(fb.senderSsrc, fb.nacks[i].frameId, q);
    assert Answers(c, fb.senderSsrc, fb.nacks[i], nows[i], resent[i]);
    RetransmitsIff(all, j, key);
    RetransmitsMeans(all, j, key);
    NamedIff(resent[i], q);
  }

  lemma RetransmitsMeans(es: seq<Event>, j: nat, k: PacketKey)
    requires j < |es| && es[j].Nacked? && es[j].ssrc == k.ssrc && es[j].frameId == k.frameId
    ensures Retransmits(es, j, k) <==>
              k.packetId in DuePackets(Run(es[..j]), k.ssrc, k.frameId, es[j].packetId, es[j].now)
  {
    hide Run, DuePackets;
  }

  lemma NamedIff(ps: seq<Packet>, q: uint16)
    ensures q in Ids(ps) <==> exists p :: p in ps && p.packetId == q
  {
  }
}
