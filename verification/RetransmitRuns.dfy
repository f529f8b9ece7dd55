/** Whole runs of the retransmit cache: it refines the sent history, and it never repeats a
    retransmission within the suppression window. */
module RetransmitRuns {
  import opened Arithmetic
  import opened Transport

  /** The transport's critical sections, in the order their lock is taken. */
  datatype Event =
    | Sent(packets: seq<Packet>)
    | Checkpointed(ssrc: uint32, checkpoint: uint32)
    | Nacked(ssrc: uint32, frameId: uint32, packetId: uint16, now: int)

  ghost function Step(c: Cache, e: Event): Cache {
    match e
    case Sent(packets) => if packets == [] then c else CacheFrame(c, packets)
    case Checkpointed(ssrc, checkpoint) => Checkpoint(c, ssrc, checkpoint)
    case Nacked(ssrc, frameId, packetId, now) => Retransmit(c, ssrc, frameId, packetId, now)
  }

  ghost function Run(es: seq<Event>): Cache {
    if es == [] then EMPTY_CACHE else Step(Run(es[..|es| - 1]), es[|es| - 1])
  }

  // ---------- The sent history of one stream ----------

  datatype SentFrame = SentFrame(id: uint32, frame: Frame)

  predicate OnStream(e: Event, ssrc: uint32) { e.Sent? && e.packets != [] && ParseHeader(e.packets[0]).ssrc == ssrc }

  function History(es: seq<Event>, ssrc: uint32): seq<SentFrame> {
    if es == [] then []
    else
      var e, h := es[|es| - 1], History(es[..|es| - 1], ssrc);
      if OnStream(e, ssrc) then h + [SentFrame(e.packets[0].frameId, AddPackets(map[], e.packets))] else h
  }

  /** Frame ids strictly increase, as the encoders number their frames. */
  predicate Ordered(h: seq<SentFrame>) { forall i, j :: 0 <= i < j < |h| ==> h[i].id < h[j].id }

  function LastId(h: seq<SentFrame>): uint32 { if h == [] then 0 else h[|h| - 1].id }

  /** How many leading frames have ids up to a limit. */
  function CountUpTo(h: seq<SentFrame>, limit: uint32): (n: nat)
    ensures n <= |h|
  {
    if h == [] || h[0].id > limit then 0 else 1 + CountUpTo(h[1..], limit)
  }

  /** How many of the oldest frames the run has dropped: those beyond the memory bound when a newer
      frame was sent, and those up to a believed checkpoint. */
  function Dropped(es: seq<Event>, ssrc: uint32): nat {
    if es == [] then 0
    else
      var e, init := es[|es| - 1], es[..|es| - 1];
      var h, d := History(init, ssrc), Dropped(init, ssrc);
      if OnStream(e, ssrc) then Max(d, |h| + 1 - MaxFrames(ParseHeader(e.packets[0]).video))
      else if e.Checkpointed? && e.ssrc == ssrc && ssrc != 0 && SafeCacheEraseLimit(e.checkpoint, LastId(h)) > 0
      then Max(d, CountUpTo(h, SafeCacheEraseLimit(e.checkpoint, LastId(h))))
      else d
  }

  /** A cache holding exactly the frames of `h`. */
  ghost predicate Exactly(m: FrameCache, h: seq<SentFrame>) {
    && (forall i :: 0 <= i < |h| ==> h[i].id in m && m[h[i].id] == h[i].frame)
    && (forall k :: k in m ==> exists i :: 0 <= i < |h| && h[i].id == k)
  }

  // ---------- Refinement of the history ----------

  lemma {:induction false} ExactlySize(m: FrameCache, h: seq<SentFrame>)
    requires Exactly(m, h) && Ordered(h)
    ensures |m| == |h|
  {
    if h == [] {
      assert forall k :: k !in m;
      assert m.Keys == {};
    } else {
      ExactlyTail(m, h);
      ExactlySize(m - {h[0].id}, h[1..]);
      assert m.Keys == (m - {h[0].id}).Keys + {h[0].id};
    }
  }

  lemma ExactlyTail(m: FrameCache, h: seq<SentFrame>)
    requires Exactly(m, h) && Ordered(h) && h != []
    ensures Exactly(m - {h[0].id}, h[1..]) && Ordered(h[1..]) && IsMin(h[0].id, m.Keys)
  {
    var m', t := m - {h[0].id}, h[1..];
    forall k | k in m' ensures exists i :: 0 <= i < |t| && t[i].id == k {
      var i :| 0 <= i < |h| && h[i].id == k;
      assert t[i - 1] == h[i];
    }
    forall k | k in m ensures h[0].id <= k {
      var i :| 0 <= i < |h| && h[i].id == k;
    }
  }

  lemma MinUnique(k: uint32, s: set<uint32>)
    requires IsMin(k, s)
    ensures MinKey(s) == k
  {
  }

  lemma TrimOnce(m: FrameCache, max: nat)
    ensures if |m| <= max then Trim(m, max) == m else Trim(m, max) == Trim(m - {MinKey(m.Keys)}, max)
  {
  }

  lemma SuffixOfTail(h: seq<SentFrame>, max: nat)
    requires |h| > max
    ensures h[1..][Max(0, |h[1..]| - max)..] == h[Max(0, |h| - max)..]
  {
  }

  lemma {:induction false} TrimKeepsNewest(m: FrameCache, h: seq<SentFrame>, max: nat)
    requires Exactly(m, h) && Ordered(h)
    ensures Exactly(Trim(m, max), h[Max(0, |h| - max)..])
    decreases |h|
  {
    hide Exactly, Ordered, Trim, IsMin;
    ExactlySize(m, h);
    TrimOnce(m, max);
    if |h| > max {
      ExactlyTail(m, h);
      MinUnique(h[0].id, m.Keys);
      TrimKeepsNewest(m - {h[0].id}, h[1..], max);
      SuffixOfTail(h, max);
    } else {
      assert h[0..] == h;
    }
  }

  lemma {:induction false} CountUpToSplits(h: seq<SentFrame>, limit: uint32)
    requires Ordered(h)
    ensures forall i :: 0 <= i < |h| ==> (i < CountUpTo(h, limit) <==> h[i].id <= limit)
  {
    if h != [] && h[0].id <= limit {
      CountUpToSplits(h[1..], limit);
      forall i | 0 < i < |h| ensures i < CountUpTo(h, limit) <==> h[i].id <= limit {
        assert h[1..][i - 1] == h[i];
      }
    }
  }

  lemma DropThroughKeepsSuffix(m: FrameCache, h: seq<SentFrame>, d: nat, limit: uint32)
    requires d <= |h| && Exactly(m, h[d..]) && Ordered(h)
    ensures Exactly(DropThrough(m, limit), h[Max(d, CountUpTo(h, limit))..])
  {
    hide CountUpTo, Ordered;
    CountUpToSplits(h, limit);
    var m', n := DropThrough(m, limit), Max(d, CountUpTo(h, limit));
    var t := h[n..];
    forall i | 0 <= i < |t| ensures t[i].id in m' && m'[t[i].id] == t[i].frame {
      assert t[i] == h[n + i] == h[d..][n + i - d];
    }
    forall k | k in m' ensures exists i :: 0 <= i < |t| && t[i].id == k {
      var i :| 0 <= i < |h[d..]| && h[d..][i].id == k;
      assert h[d + i].id == k && d + i >= n;
      assert t[d + i - n].id == k;
    }
  }

  lemma SendingExtends(m: FrameCache, h: seq<SentFrame>, d: nat, f: SentFrame)
    requires d <= |h| && Exactly(m, h[d..]) && Ordered(h + [f])
    ensures f.id !in m && Exactly(m[f.id := f.frame], (h + [f])[d..])
  {
    var m', t := m[f.id := f.frame], (h + [f])[d..];
    assert (h + [f])[|h|] == f;
    assert t == h[d..] + [f];
    forall i | 0 <= i < |h[d..]| ensures h[d..][i].id < f.id {
      assert h[d..][i] == (h + [f])[d + i];
    }
    forall k | k in m' ensures exists i :: 0 <= i < |t| && t[i].id == k {
      if k == f.id { assert t[|t| - 1].id == k; } else {
        var i :| 0 <= i < |h[d..]| && h[d..][i].id == k;
        assert t[i].id == k;
      }
    }
  }

  lemma OrderedPrefix(h: seq<SentFrame>, f: SentFrame)
    requires Ordered(h + [f])
    ensures Ordered(h)
  {
    assert forall i :: 0 <= i < |h| ==> h[i] == (h + [f])[i];
  }

  lemma EmptyExact()
    ensures Exactly(map[], [])
    ensures forall limit :: DropThrough(map[], limit) == map[]
  {
  }

  lemma OrderedSuffix(h: seq<SentFrame>, d: nat)
    requires d <= |h| && Ordered(h)
    ensures Ordered(h[d..])
  {
    assert forall i :: 0 <= i < |h| - d ==> h[d..][i] == h[d + i];
  }

  /** The cache of a stream is the sent history without its dropped prefix. */
  ghost predicate Refines(c: Cache, h: seq<SentFrame>, d: nat, ssrc: uint32) {
    d <= |h| && Exactly(FramesOf(c, ssrc), h[d..]) && LastSent(c, ssrc) == LastId(h)
  }

  lemma SendRefines(c: Cache, h: seq<SentFrame>, d: nat, packets: seq<Packet>)
    requires packets != [] && Refines(c, h, d, ParseHeader(packets[0]).ssrc)
    requires Ordered(h + [SentFrame(packets[0].frameId, AddPackets(map[], packets))])
    ensures var h' := h + [SentFrame(packets[0].frameId, AddPackets(map[], packets))];
            Refines(CacheFrame(c, packets), h', Max(d, |h'| - MaxFrames(ParseHeader(packets[0]).video)),
                    ParseHeader(packets[0]).ssrc)
  {
    hide Exactly, Trim, AddPackets, ParseHeader, Ordered;
    var hd, f := ParseHeader(packets[0]), SentFrame(packets[0].frameId, AddPackets(map[], packets));
    var m, h', max := FramesOf(c, hd.ssrc), h + [f], MaxFrames(hd.video);
    OrderedPrefix(h, f);
    SendingExtends(m, h, d, f);
    OrderedSuffix(h', d);
    TrimKeepsNewest(m[f.id := f.frame], h'[d..], max);
    assert h'[d..][Max(0, |h'| - d - max)..] == h'[Max(d, |h'| - max)..];
  }

  lemma CheckpointRefines(c: Cache, h: seq<SentFrame>, d: nat, ssrc: uint32, checkpoint: uint32)
    requires Refines(c, h, d, ssrc) && Ordered(h)
    ensures var limit := SafeCacheEraseLimit(checkpoint, LastId(h));
            Refines(Checkpoint(c, ssrc, checkpoint), h,
                    if ssrc != 0 && limit > 0 then Max(d, CountUpTo(h, limit)) else d, ssrc)
  {
    hide Exactly, DropThrough, SafeCacheEraseLimit, CountUpTo, Ordered;
    EmptyExact();
    DropThroughKeepsSuffix(FramesOf(c, ssrc), h, d, SafeCacheEraseLimit(checkpoint, LastId(h)));
  }

  lemma OtherRefines(c: Cache, h: seq<SentFrame>, d: nat, ssrc: uint32, e: Event)
    requires Refines(c, h, d, ssrc) && !OnStream(e, ssrc) && !(e.Checkpointed? && e.ssrc == ssrc)
    ensures Refines(Step(c, e), h, d, ssrc)
  {
    hide Exactly, Trim, DropThrough, SafeCacheEraseLimit, AddPackets, ParseHeader;
  }

  /** Over every interleaving of sends, checkpoints and NACKs the cache refines the sent history. */
  lemma {:induction false} CacheRefinesHistory(es: seq<Event>, ssrc: uint32)
    requires Ordered(History(es, ssrc))
    ensures Refines(Run(es), History(es, ssrc), Dropped(es, ssrc), ssrc)
  {
    if es == [] {
      EmptyExact();
    } else {
      hide Refines, CacheFrame, Checkpoint, Retransmit, SafeCacheEraseLimit, AddPackets, CountUpTo, Ordered;
      var e, init := es[|es| - 1], es[..|es| - 1];
      var h, d := History(init, ssrc), Dropped(init, ssrc);
      if OnStream(e, ssrc) {
        OrderedPrefix(h, SentFrame(e.packets[0].frameId, AddPackets(map[], e.packets)));
        CacheRefinesHistory(init, ssrc);
        SendRefines(Run(init), h, d, e.packets);
      } else {
        CacheRefinesHistory(init, ssrc);
        if e.Checkpointed? && e.ssrc == ssrc {
          CheckpointRefines(Run(init), h, d, ssrc, e.checkpoint);
        } else {
          OtherRefines(Run(init), h, d, ssrc, e);
        }
      }
    }
  }

  // ---------- What a stream loses ----------

  /** Every frame of the stream has the same media kind and ids, and its checkpoints, stay below 2^31. */
  predicate Plain(es: seq<Event>, ssrc: uint32, video: bool) {
    && (forall e :: e in es && OnStream(e, ssrc) ==>
          ParseHeader(e.packets[0]).video == video && e.packets[0].frameId < 0x8000_0000)
    && (forall e :: e in es && e.Checkpointed? && e.ssrc == ssrc ==> e.checkpoint < 0x8000_0000)
  }

  lemma {:induction false} PlainIds(es: seq<Event>, ssrc: uint32, video: bool)
    requires Plain(es, ssrc, video)
    ensures forall f :: f in History(es, ssrc) ==> f.id < 0x8000_0000
  {
    if es != [] {
      var init := es[..|es| - 1];
      assert es[|es| - 1] in es && forall x :: x in init ==> x in es;
      PlainIds(init, ssrc, video);
    }
  }

  /** A dropped frame was covered by a received checkpoint, or a full memory bound of newer frames was sent. */
  lemma {:induction false} DroppedFor(es: seq<Event>, ssrc: uint32, video: bool, i: nat)
    requires Ordered(History(es, ssrc)) && Plain(es, ssrc, video) && i < Dropped(es, ssrc) && i < |History(es, ssrc)|
    ensures |History(es, ssrc)| - 1 - i >= MaxFrames(video) ||
            exists e :: e in es && e.Checkpointed? && e.ssrc == ssrc && e.checkpoint >= History(es, ssrc)[i].id
  {
    var e, init := es[|es| - 1], es[..|es| - 1];
    var h := History(init, ssrc);
    assert e in es && forall x :: x in init ==> x in es;
    if OnStream(e, ssrc) {
      OrderedPrefix(h, SentFrame(e.packets[0].frameId, AddPackets(map[], e.packets)));
      if i < Dropped(init, ssrc) {
        CacheRefinesHistory(init, ssrc);
        DroppedFor(init, ssrc, video, i);
      }
    } else if i < Dropped(init, ssrc) {
      DroppedFor(init, ssrc, video, i);
    } else {
      var limit := SafeCacheEraseLimit(e.checkpoint, LastId(h));
      PlainIds(init, ssrc, video);
      if h != [] { assert h[|h| - 1] in h; }
      EraseLimitMeaning(e.checkpoint, LastId(h));
      CountUpToSplits(h, limit);
    }
  }

  /** The cache is bounded, and a sent frame missing from it was acknowledged or crowded out. */
  lemma CacheLosesOnly(es: seq<Event>, ssrc: uint32, video: bool, i: nat)
    requires Ordered(History(es, ssrc)) && Plain(es, ssrc, video) && i < |History(es, ssrc)|
    ensures var h, m := History(es, ssrc), FramesOf(Run(es), ssrc);
            && |m| <= MaxFrames(video)
            && (h[i].id in m ==> m[h[i].id] == h[i].frame)
            && (h[i].id !in m ==>
                  |h| - 1 - i >= MaxFrames(video) ||
                  exists e :: e in es && e.Checkpointed? && e.ssrc == ssrc && e.checkpoint >= h[i].id)
  {
    hide Exactly, Ordered, Run, History, Dropped, Plain;
    var h, d := History(es, ssrc), Dropped(es, ssrc);
    CacheRefinesHistory(es, ssrc);
    SizeBounded(es, ssrc, video);
    OrderedSuffix(h, d);
    ExactlySize(FramesOf(Run(es), ssrc), h[d..]);
    ExactlyHolds(FramesOf(Run(es), ssrc), h, d, i);
    if i < d { DroppedFor(es, ssrc, video, i); }
  }

  /** A frame of an ordered history is in the cache of a suffix exactly when it is in the suffix. */
  lemma ExactlyHolds(m: FrameCache, h: seq<SentFrame>, d: nat, i: nat)
    requires d <= |h| && i < |h| && Exactly(m, h[d..]) && Ordered(h)
    ensures h[i].id in m <==> d <= i
    ensures d <= i ==> m[h[i].id] == h[i].frame
  {
    if d <= i {
      assert h[d..][i - d] == h[i];
    } else {
      assert forall k :: 0 <= k < |h[d..]| ==> h[d..][k] == h[d + k] && h[d + k].id > h[i].id;
    }
  }

  lemma {:induction false} SizeBounded(es: seq<Event>, ssrc: uint32, video: bool)
    requires Plain(es, ssrc, video)
    ensures |History(es, ssrc)| - Dropped(es, ssrc) <= MaxFrames(video)
  {
    if es != [] {
      var init := es[..|es| - 1];
      assert es[|es| - 1] in es && forall x :: x in init ==> x in es;
      SizeBounded(init, ssrc, video);
    }
  }

  // ---------- Checkpoint limits ----------

  /** Below 2^31 a checkpoint drops up to itself, never past the last frame sent, and drops the newest
      frame only when it names it. */
  lemma EraseLimitMeaning(checkpoint: uint32, lastSent: uint32)
    requires checkpoint < 0x8000_0000 && lastSent < 0x8000_0000
    ensures SafeCacheEraseLimit(checkpoint, lastSent) <= Min(checkpoint, lastSent)
    ensures checkpoint <= lastSent ==> SafeCacheEraseLimit(checkpoint, lastSent) == checkpoint
    ensures 0 < lastSent < checkpoint <= lastSent + 32 ==> SafeCacheEraseLimit(checkpoint, lastSent) == lastSent - 1
    ensures checkpoint > lastSent + 32 ==> SafeCacheEraseLimit(checkpoint, lastSent) == 0
  {
  }

  /** Over the whole 32-bit range the limit stays within what was sent exactly when the checkpoint is less than 2^31
      ahead; further ahead it drops every frame of any cache of frames sent, the newest included. */
  lemma EraseLimitSafeIff(checkpoint: uint32, lastSent: uint32)
    ensures SafeCacheEraseLimit(checkpoint, lastSent) <= lastSent <==> checkpoint - lastSent < 0x8000_0000
    ensures checkpoint - lastSent >= 0x8000_0000 ==>
              forall m: FrameCache :: (forall k :: k in m ==> k <= lastSent) ==>
                DropThrough(m, SafeCacheEraseLimit(checkpoint, lastSent)) == map[]
  {
    if checkpoint >= lastSent {
      assert ToU32(checkpoint - lastSent) == checkpoint - lastSent;
    } else {
      assert ToU32(checkpoint - lastSent) == checkpoint - lastSent + TWO32;
    }
  }

  /** The instance at 0xFFFFFFFE after frame 5: frames 0 to 5 are all dropped. */
  lemma WrappedCheckpointEmptiesCache(m: FrameCache)
    requires forall k :: k in m ==> k <= 5
    ensures DropThrough(m, SafeCacheEraseLimit(0xFFFF_FFFE, 5)) == map[]
  {
    EraseLimitSafeIff(0xFFFF_FFFE, 5);
  }

  // ---------- What a cached frame holds ----------

  lemma {:induction false} AddPacketsKeeps(f: Frame, packets: seq<Packet>)
    ensures forall k :: k in AddPackets(f, packets) <==> (k in f || exists p :: p in packets && p.packetId == k)
    ensures forall k :: k in AddPackets(f, packets) && (forall p :: p in packets ==> p.packetId != k) ==>
              AddPackets(f, packets)[k] == f[k]
  {
    if packets != [] {
      var init, last := packets[..|packets| - 1], packets[|packets| - 1];
      AddPacketsKeeps(f, init);
      assert packets == init + [last];
    }
  }

  /** Packets with distinct ids are cached each under its own id. */
  lemma {:induction false} AddPacketsStores(f: Frame, packets: seq<Packet>)
    requires forall i, j :: 0 <= i < j < |packets| ==> packets[i].packetId != packets[j].packetId
    ensures forall p :: p in packets ==> p.packetId in AddPackets(f, packets) && AddPackets(f, packets)[p.packetId] == p
  {
    if packets != [] {
      var init, last := packets[..|packets| - 1], packets[|packets| - 1];
      AddPacketsStores(f, init);
      assert packets == init + [last];
      assert forall p :: p in init ==> p.packetId != last.packetId;
    }
  }

  // ---------- Duplicate NACKs ----------

  /** A stream never reuses a frame id, and NACK times are after the clock's epoch. */
  ghost predicate Fair(es: seq<Event>) {
    es == [] || (
      var e, c := es[|es| - 1], Run(es[..|es| - 1]);
      && Fair(es[..|es| - 1])
      && (e.Sent? && e.packets != [] && ParseHeader(e.packets[0]).ssrc in c.lastSent ==>
            e.packets[0].frameId > c.lastSent[ParseHeader(e.packets[0]).ssrc])
      && (e.Nacked? ==> e.now > 0))
  }

  lemma {:induction false} FairPrefix(es: seq<Event>, n: nat)
    requires Fair(es) && n <= |es|
    ensures Fair(es[..n])
    decreases |es|
  {
    if n < |es| {
      FairPrefix(es[..|es| - 1], n);
      assert es[..|es| - 1][..n] == es[..n];
    } else {
      assert es[..n] == es;
    }
  }

  /** The packets event `i` retransmits. */
  ghost predicate Retransmits(es: seq<Event>, i: nat, k: PacketKey)
    requires i < |es|
  {
    && es[i].Nacked? && es[i].ssrc == k.ssrc && es[i].frameId == k.frameId
    && k.packetId in DuePackets(Run(es[..i]), k.ssrc, k.frameId, es[i].packetId, es[i].now)
  }

  lemma {:induction false} TrimShrinks(m: FrameCache, max: nat)
    ensures Trim(m, max).Keys <= m.Keys
    decreases |m|
  {
    if |m| > max {
      TrimShrinks(m - {MinKey(m.Keys)}, max);
    }
  }

  /** Cached frames are at most as new as the last one sent on their stream. */
  ghost predicate Dated(c: Cache) {
    forall ssrc, f :: ssrc in c.frames && f in c.frames[ssrc] ==> ssrc in c.lastSent && f <= c.lastSent[ssrc]
  }

  /** A packet retransmitted at `t` is gone for good, or remembered with a time not before `t`. */
  ghost predicate Remembered(c: Cache, k: PacketKey, t: int) {
    && k.ssrc in c.lastSent && k.frameId <= c.lastSent[k.ssrc]
    && (k.frameId in FramesOf(c, k.ssrc) ==> k in c.retransmitted && c.retransmitted[k] >= t)
  }

  lemma SendingAddsOneId(c: Cache, packets: seq<Packet>)
    requires packets != []
    ensures var ssrc := ParseHeader(packets[0]).ssrc;
            ssrc in CacheFrame(c, packets).frames &&
            CacheFrame(c, packets).frames[ssrc].Keys <= FramesOf(c, ssrc).Keys + {packets[0].frameId}
  {
    var h, fid := ParseHeader(packets[0]), packets[0].frameId;
    var m := FramesOf(c, h.ssrc);
    TrimShrinks(m[fid := AddPackets(if fid in m then m[fid] else map[], packets)], MaxFrames(h.video));
  }

  lemma StepKeepsDated(es: seq<Event>)
    requires es != [] && Fair(es) && Dated(Run(es[..|es| - 1]))
    ensures Dated(Run(es))
  {
    hide Trim, ParseHeader, AddPackets, SafeCacheEraseLimit;
    var e, c := es[|es| - 1], Run(es[..|es| - 1]);
    if e.Sent? && e.packets != [] { SendingAddsOneId(c, e.packets); }
  }

  lemma {:induction false} RunDated(es: seq<Event>)
    requires Fair(es)
    ensures Dated(Run(es))
  {
    if es != [] {
      RunDated(es[..|es| - 1]);
      StepKeepsDated(es);
    }
  }

  lemma StepRemembers(es: seq<Event>, k: PacketKey, t: int)
    requires es != [] && Fair(es) && t > 0 && Dated(Run(es[..|es| - 1])) && Remembered(Run(es[..|es| - 1]), k, t)
    ensures Remembered(Run(es), k, t)
  {
    hide Trim, ParseHeader, AddPackets, SafeCacheEraseLimit;
    var e, c := es[|es| - 1], Run(es[..|es| - 1]);
    match e
    case Sent(packets) =>
      if packets != [] { SendingAddsOneId(c, packets); }
    case Checkpointed(_, _) =>
    case Nacked(ssrc, frameId, packetId, now) =>
      var due := DuePackets(c, ssrc, frameId, packetId, now);
      if k.ssrc == ssrc && k.frameId == frameId && k.packetId in due {
        assert Due(c.retransmitted, k, now);
      }
  }

  lemma NackRemembered(es: seq<Event>, k: PacketKey, packetId: uint16)
    requires es != [] && Dated(Run(es[..|es| - 1]))
    requires var e := es[|es| - 1];
             && e.Nacked? && e.ssrc == k.ssrc && e.frameId == k.frameId && e.packetId == packetId
             && k.packetId in DuePackets(Run(es[..|es| - 1]), k.ssrc, k.frameId, packetId, e.now)
    ensures Remembered(Run(es), k, es[|es| - 1].now)
  {
  }

  lemma FairTime(es: seq<Event>, i: nat)
    requires Fair(es) && i < |es| && es[i].Nacked?
    ensures es[i].now > 0
  {
    FairPrefix(es, i + 1);
    assert es[..i + 1][i] == es[i];
  }

  lemma {:induction false} RunRemembers(es: seq<Event>, i: nat, j: nat, k: PacketKey)
    requires i < j <= |es| && Fair(es) && Retransmits(es, i, k)
    ensures Remembered(Run(es[..j]), k, es[i].now)
  {
    hide Step, Remembered, Dated, Fair, DuePackets;
    assert es[..j][..j - 1] == es[..j - 1];
    FairPrefix(es, j);
    FairPrefix(es, j - 1);
    RunDated(es[..j - 1]);
    if i + 1 == j {
      NackRemembered(es[..j], k, es[i].packetId);
    } else {
      FairTime(es, i);
      RunRemembers(es, i, j - 1, k);
      StepRemembers(es[..j], k, es[i].now);
    }
  }

  /** Any two retransmissions of one packet are at least the suppression window apart, although checkpoints
      erase suppression records. */
  lemma RetransmissionsAreApart(es: seq<Event>, i: nat, j: nat, k: PacketKey)
    requires i < j < |es| && Fair(es) && Retransmits(es, i, k) && Retransmits(es, j, k)
    ensures es[j].now - es[i].now >= RETRANSMIT_SUPPRESS_NS
  {
    hide Run, Step, Fair;
    RunRemembers(es, i, j, k);
    FairTime(es, i);
    assert Due(Run(es[..j]).retransmitted, k, es[j].now);
  }

  /** A believed checkpoint forgets exactly its stream's retransmissions up to the limit, so suppression records do not
      outlive the frames they are for. */
  lemma CheckpointForgets(c: Cache, ssrc: uint32, checkpoint: uint32, k: PacketKey)
    requires ssrc != 0 && SafeCacheEraseLimit(checkpoint, LastSent(c, ssrc)) > 0
    ensures var r, limit := Checkpoint(c, ssrc, checkpoint), SafeCacheEraseLimit(checkpoint, LastSent(c, ssrc));
            && (k in r.retransmitted <==> k in c.retransmitted && (k.ssrc != ssrc || k.frameId > limit))
            && (k in r.retransmitted ==> r.retransmitted[k] == c.retransmitted[k])
            && forall f :: f in FramesOf(r, ssrc) <==> f in FramesOf(c, ssrc) && f > limit
  {
    hide SafeCacheEraseLimit;
  }

  // ---------- Exactly when a NACK is answered ----------

  /** Every suppression record is the time of an earlier retransmission of its packet. */
  lemma {:induction false} RecordsAreRetransmissions(es: seq<Event>, k: PacketKey)
    requires k in Run(es).retransmitted
    ensures exists i :: 0 <= i < |es| && Retransmits(es, i, k) && es[i].now == Run(es).retransmitted[k]
  {
    hide CacheFrame, SafeCacheEraseLimit, DuePackets;
    var n := |es| - 1;
    var e, init := es[n], es[..n];
    if e.Nacked? && e.ssrc == k.ssrc && e.frameId == k.frameId &&
       k.packetId in DuePackets(Run(init), k.ssrc, k.frameId, e.packetId, e.now) {
      assert Retransmits(es, n, k);
    } else {
      SendKeepsRecords(Run(init), e);
      RecordsAreRetransmissions(init, k);
      var i :| 0 <= i < |init| && Retransmits(init, i, k) && init[i].now == Run(init).retransmitted[k];
      assert init[..i] == es[..i];
      assert Retransmits(es, i, k);
    }
  }

  lemma SendKeepsRecords(c: Cache, e: Event)
    ensures e.Sent? ==> Step(c, e).retransmitted == c.retransmitted
  {
  }

  /** A NACK retransmits a packet exactly when the packet is cached, the NACK names it, and it was not
      retransmitted within the suppression window. */
  lemma RetransmitsIff(es: seq<Event>, j: nat, k: PacketKey)
    requires j < |es| && Fair(es) && es[j].Nacked? && es[j].ssrc == k.ssrc && es[j].frameId == k.frameId
    ensures Retransmits(es, j, k) <==>
              && k.frameId in FramesOf(Run(es[..j]), k.ssrc) && k.packetId in FramesOf(Run(es[..j]), k.ssrc)[k.frameId]
              && (es[j].packetId == WHOLE_FRAME || es[j].packetId == k.packetId)
              && forall i :: 0 <= i < j && Retransmits(es, i, k) ==> es[j].now - es[i].now >= RETRANSMIT_SUPPRESS_NS
  {
    hide Run, Step, Fair;
    forall i | 0 <= i < j && Retransmits(es, i, k) && Retransmits(es, j, k)
      ensures es[j].now - es[i].now >= RETRANSMIT_SUPPRESS_NS
    {
      RetransmissionsAreApart(es, i, j, k);
    }
    if k in Run(es[..j]).retransmitted {
      RecordsAreRetransmissions(es[..j], k);
      var i :| 0 <= i < j && Retransmits(es[..j], i, k) && es[..j][i].now == Run(es[..j]).retransmitted[k];
      assert es[..j][..i] == es[..i];
      assert Retransmits(es, i, k);
    }
  }
}
