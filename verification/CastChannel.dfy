/** The control channel's framing: a four-byte big-endian length before every message, written in whatever
    pieces the TLS layer takes and reassembled from whatever pieces it hands out. */
module CastChannel {
  import opened Arithmetic

  type Message = seq<uint8>

  const MAX_MESSAGE := 0x10_0000

  /** The sender's framing; the length field keeps the low 32 bits of the size. */
  function FrameMessage(m: Message): seq<uint8> { BigEndian(ToU32(|m|)) + m }

  function FrameAll(ms: seq<Message>): seq<uint8> {
    if ms == [] then [] else FrameAll(ms[..|ms| - 1]) + FrameMessage(ms[|ms| - 1])
  }

  /** Sizes the receiver accepts. */
  predicate Accepted(size: nat) { 0 < size <= MAX_MESSAGE }

  /** The complete messages at the front of a byte stream, up to the first length the receiver refuses. */
  function Decode(s: seq<uint8>): seq<Message>
    decreases |s|
  {
    if |s| < 4 then []
    else
      var n := ReadBigEndian(s[..4]);
      if !Accepted(n) || |s| < 4 + n then [] else [s[4..4 + n]] + Decode(s[4 + n..])
  }

  // ---------- Reassembly ----------

  lemma DecodeOne(m: Message, rest: seq<uint8>)
    requires Accepted(|m|)
    ensures Decode(FrameMessage(m) + rest) == [m] + Decode(rest)
  {
    var s := FrameMessage(m) + rest;
    BigEndianRoundTrip(|m|);
    assert s[..4] == BigEndian(|m|);
    assert s[4..4 + |m|] == m && s[4 + |m|..] == rest;
  }

  lemma {:induction false} FrameAllFront(m: Message, ms: seq<Message>)
    ensures FrameAll([m] + ms) == FrameMessage(m) + FrameAll(ms)
  {
    hide FrameMessage, FrameAll;
    if ms == [] {
      FrameLast([], m);
      assert [m] + ms == [] + [m];
      NothingFramed();
    } else {
      var n := |ms| - 1;
      FrameAllFront(m, ms[..n]);
      assert [m] + ms == ([m] + ms[..n]) + [ms[n]] && ms == ms[..n] + [ms[n]];
      FrameLast([m] + ms[..n], ms[n]);
      FrameLast(ms[..n], ms[n]);
    }
  }

  lemma NothingFramed()
    ensures FrameAll([]) == []
  {
  }

  lemma FrameLast(ms: seq<Message>, m: Message)
    ensures FrameAll(ms + [m]) == FrameAll(ms) + FrameMessage(m)
  {
    assert (ms + [m])[..|ms|] == ms;
  }

  /** Framed messages decode to themselves, whatever follows. */
  lemma {:induction false} DecodeFramed(ms: seq<Message>, rest: seq<uint8>)
    requires forall m :: m in ms ==> Accepted(|m|)
    ensures Decode(FrameAll(ms) + rest) == ms + Decode(rest)
  {
    hide FrameMessage, Decode;
    if ms == [] {
      assert FrameAll(ms) + rest == rest;
    } else {
      var m, t := ms[0], ms[1..];
      assert ms == [m] + t;
      FrameAllFront(m, t);
      assert FrameAll(ms) + rest == FrameMessage(m) + (FrameAll(t) + rest);
      DecodeOne(m, FrameAll(t) + rest);
      DecodeFramed(t, rest);
    }
  }

  lemma PartialFrame(m: Message, cut: nat)
    requires Accepted(|m|) && cut < |FrameMessage(m)|
    ensures Decode(FrameMessage(m)[..cut]) == []
  {
    if cut >= 4 {
      BigEndianRoundTrip(|m|);
      assert FrameMessage(m)[..cut][..4] == BigEndian(|m|);
    }
  }

  /** Whole messages in lock order, then the message a write error cut off: the receiver sees exactly the
      whole ones. */
  lemma ReassemblesUntilError(ms: seq<Message>, m: Message, cut: nat)
    requires (forall x :: x in ms ==> Accepted(|x|)) && Accepted(|m|) && cut < |FrameMessage(m)|
    ensures Decode(FrameAll(ms) + FrameMessage(m)[..cut]) == ms
  {
    DecodeFramed(ms, FrameMessage(m)[..cut]);
    PartialFrame(m, cut);
  }

  /** At any moment, whatever part of the stream has been read, the receiver has delivered a prefix of the
      messages sent. */
  lemma {:induction false} DeliveredIsPrefix(ms: seq<Message>, consumed: nat)
    requires (forall m :: m in ms ==> Accepted(|m|)) && consumed <= |FrameAll(ms)|
    ensures Decode(FrameAll(ms)[..consumed]) <= ms
  {
    hide FrameMessage, Decode;
    if ms == [] {
      NothingYet([]);
      assert FrameAll(ms)[..consumed] == [][..0];
    } else {
      var m, t := ms[0], ms[1..];
      assert ms == [m] + t;
      FrameAllFront(m, t);
      if consumed < |FrameMessage(m)| {
        PartialFrame(m, consumed);
        assert FrameAll(ms)[..consumed] == FrameMessage(m)[..consumed];
      } else {
        var c := consumed - |FrameMessage(m)|;
        DeliveredIsPrefix(t, c);
        DecodeOne(m, FrameAll(t)[..c]);
        assert FrameAll(ms)[..consumed] == FrameMessage(m) + FrameAll(t)[..c];
      }
    }
  }

  lemma {:induction false} FrameAllAppend(a: seq<Message>, b: seq<Message>)
    ensures FrameAll(a + b) == FrameAll(a) + FrameAll(b)
  {
    hide FrameMessage, FrameAll;
    if b == [] {
      assert a + b == a;
      NothingFramed();
    } else {
      var n := |b| - 1;
      FrameAllAppend(a, b[..n]);
      assert a + b == (a + b[..n]) + [b[n]] && b == b[..n] + [b[n]];
      FrameLast(a + b[..n], b[n]);
      FrameLast(b[..n], b[n]);
    }
  }

  /** A list of messages survives framing and reassembly exactly when every size is one the receiver accepts. */
  lemma FramingRoundTripIff(ms: seq<Message>)
    ensures Decode(FrameAll(ms)) == ms <==> forall m :: m in ms ==> 1 <= |m| <= 1_048_576
  {
    assert (forall m :: m in ms ==> 1 <= |m| <= 1_048_576) <==> forall m :: m in ms ==> Accepted(|m|);
    if forall m :: m in ms ==> Accepted(|m|) {
      DecodeFramed(ms, []);
      assert FrameAll(ms) + [] == FrameAll(ms) && ms + Decode([]) == ms;
    } else {
      var k := FirstRefused(ms);
      var m, rest := ms[k], FrameAll(ms[k + 1..]);
      assert ms == ms[..k] + ([m] + ms[k + 1..]);
      FrameAllAppend(ms[..k], [m] + ms[k + 1..]);
      FrameAllFront(m, ms[k + 1..]);
      DecodeFramed(ms[..k], FrameMessage(m) + rest);
      RefusedDiffers(m, rest, ms[k + 1..]);
      PrefixCancels(ms[..k], Decode(FrameMessage(m) + rest), [m] + ms[k + 1..]);
    }
  }

  lemma PrefixCancels<T>(p: seq<T>, a: seq<T>, b: seq<T>)
    ensures p + a == p + b ==> a == b
  {
    assert (p + a)[|p|..] == a && (p + b)[|p|..] == b;
  }

  lemma FirstRefused(ms: seq<Message>) returns (k: nat)
    requires !forall m :: m in ms ==> Accepted(|m|)
    ensures k < |ms| && !Accepted(|ms[k]|) && forall m :: m in ms[..k] ==> Accepted(|m|)
  {
    k := 0;
    while Accepted(|ms[k]|)
      invariant k < |ms| && forall i :: 0 <= i < k ==> Accepted(|ms[i]|)
      invariant exists i :: k <= i < |ms| && !Accepted(|ms[i]|)
      decreases |ms| - k
    {
      k := k + 1;
    }
  }

  /** A message of a refused size ends decoding, or comes out cut to its wrapped length. */
  lemma RefusedDiffers(m: Message, rest: seq<uint8>, others: seq<Message>)
    requires !Accepted(|m|)
    ensures Decode(FrameMessage(m) + rest) != [m] + others
  {
    var s, n := FrameMessage(m) + rest, ToU32(|m|);
    BigEndianRoundTrip(n);
    assert s[..4] == BigEndian(n);
    if Decode(s) != [] {
      assert |Decode(s)[0]| == n;
      assert n != |m|;
    }
  }

  // ---------- The channel object ----------

  /** One `SSL_read`: some bytes, a retryable condition, or the end of the connection. */
  datatype Read = Got(count: nat) | Retry | Lost

  /** Reads that bring at least a byte. */
  function Gots(rs: seq<Read>): nat {
    if rs == [] then 0 else Gots(rs[..|rs| - 1]) + (if rs[|rs| - 1].Got? && rs[|rs| - 1].count > 0 then 1 else 0)
  }

  predicate Ends(r: Read) { r == Lost || r == Got(0) }

  lemma GotsOneMore(rs: seq<Read>, n: nat)
    requires n < |rs|
    ensures Gots(rs[..n + 1]) == Gots(rs[..n]) + (if rs[n].Got? && rs[n].count > 0 then 1 else 0)
  {
    assert rs[..n + 1][..n] == rs[..n];
  }

  /** The length one write is called with: the bytes left, cast to a signed 32-bit integer. */
  function Asked(left: nat): int {
    var low := left % TWO32;
    if low < 0x8000_0000 then low else low - TWO32
  }

  /** Bytes of `left` that the writes from the k-th on accept before one fails, as one does that is called with no
      positive length. */
  function Taken(writes: nat -> int, k: nat, left: nat): (n: nat)
    ensures n <= left
    decreases left
  {
    if left == 0 || Asked(left) <= 0 || writes(k) <= 0 then 0
    else
      var n := Min(writes(k), Asked(left));
      n + Taken(writes, k + 1, left - n)
  }

  /** Writes that never fail take everything, however little each accepts. */
  lemma {:induction false} TakenAll(writes: nat -> int, k: nat, left: nat)
    requires left < 0x8000_0000 && forall i: nat :: i >= k ==> writes(i) > 0
    ensures Taken(writes, k, left) == left
    decreases left
  {
    if left > 0 { TakenAll(writes, k + 1, left - Min(writes(k), left)); }
  }

  datatype Ending = Stopped | Disconnected | InvalidSize

  class CastChannel {
    var connected: bool
    /** Bytes the TLS layer has accepted so far. */
    var wire: seq<uint8>
    ghost var sent: seq<Message>
    ghost var broken: bool

    /** Until the first write error the wire is the sent messages, framed, in lock order. */
    ghost predicate Valid()
      reads this
    {
      !broken ==> wire == FrameAll(sent)
    }

    constructor ()
      ensures Valid() && connected && !broken && sent == [] && wire == []
    {
      connected, wire, sent, broken := true, [], [], false;
    }

    /** Writes all of `data`; `writes(k)` is the result of the k-th `SSL_write` of this call. */
    method SendRawPacket(data: seq<uint8>, writes: nat -> int) returns (ok: bool)
      modifies this`wire
      ensures !connected ==> !ok && wire == old(wire)
      ensures connected ==> var n := Taken(writes, 0, |data|);
                            wire == old(wire) + data[..n] && (ok <==> n == |data|)
    {
      if !connected {
        return false;
      }
      var written, calls := 0, 0;
      while written < |data|
        invariant 0 <= written <= |data|
        invariant wire == old(wire) + data[..written]
        invariant Taken(writes, 0, |data|) == written + Taken(writes, calls, |data| - written)
      {
        var length := Asked(|data| - written);
        var ret := if length <= 0 then -1 else Min(writes(calls), length);
        if ret <= 0 {
          return false;
        }
        var n := ret;
        assert data[..written + n] == data[..written] + data[written..written + n];
        wire := wire + data[written..written + n];
        written := written + n;
        calls := calls + 1;
      }
      ok := true;
    }

    /** Frames and writes one serialized message. */
    method SendCastMessage(serialized: Message, writes: nat -> int) returns (ok: bool)
      requires Valid()
      modifies this
      ensures Valid() && connected == old(connected)
      ensures !connected ==> !ok && wire == old(wire) && broken == old(broken)
      ensures connected ==> var n := Taken(writes, 0, |FrameMessage(serialized)|);
                            && wire == old(wire) + FrameMessage(serialized)[..n]
                            && (ok <==> n == |FrameMessage(serialized)|) && (broken <==> old(broken) || !ok)
      ensures sent == if ok then old(sent) + [serialized] else old(sent)
      ensures connected && !ok && !old(broken) && (forall m :: m in sent + [serialized] ==> Accepted(|m|)) ==>
                SenderWire(wire, sent, serialized, Taken(writes, 0, |FrameMessage(serialized)|))
    {
      if !connected {
        return false;
      }
      var header := BigEndian(ToU32(|serialized|));
      var packet := header + serialized;
      assert packet == FrameMessage(serialized);
      ok := SendRawPacket(packet, writes);
      if ok {
        sent := sent + [serialized];
        assert sent[..|sent| - 1] == old(sent) && packet[..|packet|] == packet;
      } else {
        broken := true;
      }
    }

    /** Reads until `want` bytes are there: the bytes of the stream from `start` on, over reads `from` to `next`. */
    method ReadBytes(incoming: seq<uint8>, results: seq<Read>, start: nat, from: nat, want: nat)
      returns (buf: seq<uint8>, consumed: nat, next: nat, full: bool)
      requires connected && start <= |incoming| && from <= |results| && Going(incoming, results, from, start)
      modifies this`connected
      ensures from <= next <= |results| && start <= consumed <= |incoming| && buf == incoming[start..consumed]
      ensures |buf| <= want && (full <==> |buf| == want) && consumed >= Min(|incoming|, Gots(results[..next]))
      ensures connected ==> Going(incoming, results, next, consumed) && (full || next == |results|)
      ensures !connected ==> !full && next > 0 && Ends(results[next - 1])
    {
      hide Gots;
      buf, consumed, next := [], start, from;
      while |buf| < want
        invariant connected && from <= next <= |results| && start <= consumed <= |incoming|
        invariant |buf| <= want && buf == incoming[start..consumed] && Going(incoming, results, next, consumed)
        decreases |results| - next
      {
        if next == |results| {
          full := false;
          return;
        }
        var r := results[next];
        GotsOneMore(results, next);
        next := next + 1;
        if Ends(r) {
          full, connected := false, false;
          return;
        }
        if r.Got? {
          var n := Min(r.count, Min(want - |buf|, |incoming| - consumed));
          buf := buf + incoming[consumed..consumed + n];
          consumed := consumed + n;
        }
      }
      full := true;
    }

    /** The receive loop over the bytes the peer sent, for any sequence of read results, of which it uses `next`.
        What it delivers is decided by the bytes consumed alone, not by how the reads cut them, and it goes on
        until the reads run out, one ends the connection, or a length is refused. */
    method ReceiveLoop(incoming: seq<uint8>, results: seq<Read>)
      returns (delivered: seq<Message>, consumed: nat, next: nat, ending: Ending)
      modifies this`connected
      ensures consumed <= |incoming| && delivered == Decode(incoming[..consumed])
      ensures ending == Stopped ==> connected == old(connected)
      ensures ending != Stopped ==> !connected
      ensures next <= |results| && (ending == Stopped && connected ==> next == |results|)
      ensures ending == Disconnected <==> next > 0 && Ends(results[next - 1])
      ensures ending == InvalidSize ==> Decode(incoming) == delivered && Refuses(incoming, consumed)
      ensures EndToEnd(incoming, consumed, delivered)
      ensures consumed >= Min(|incoming|, Gots(results[..next]))
    {
      hide FrameAll, FrameMessage, ReadBigEndian, Gots, FramedUpTo, EndToEnd;
      WireDelivers(incoming);
      NothingYet(incoming);
      NoReads();
      delivered, consumed, next, ending := [], 0, 0, Stopped;
      assert results[..next] == [];
      if !connected {
        return;
      }
      hide Decode;
      ghost var start := 0;
      while true
        invariant next <= |results| && connected == old(connected) && Going(incoming, results, next, consumed)
        invariant start == consumed <= |incoming| && ending == Stopped
        invariant FramedUpTo(incoming, start, delivered)
        decreases |results| - next, |incoming| - start
      {
        var lenBuf, full;
        lenBuf, consumed, next, full := ReadBytes(incoming, results, consumed, next, 4);
        if !full {
          PartialHeader(incoming, start, consumed, delivered);
          ending := if connected then Stopped else Disconnected;
          return;
        }
        var size := ReadBigEndian(lenBuf);
        if size == 0 || size > MAX_MESSAGE {
          RefusedSize(incoming, start, delivered);
          ending, connected := InvalidSize, false;
          return;
        }
        var payload;
        payload, consumed, next, full := ReadBytes(incoming, results, consumed, next, size);
        if !full {
          PartialBody(incoming, start, consumed, delivered);
          ending := if connected then Stopped else Disconnected;
          return;
        }
        WholeMessage(incoming, start, size, delivered);
        delivered := delivered + [payload];
        start := consumed;
      }
    }
  }

  /** No read so far ended the connection, and every one with bytes brought some while there were any left. */
  ghost predicate Going(incoming: seq<uint8>, results: seq<Read>, next: nat, consumed: nat)
    requires next <= |results|
  {
    (next > 0 ==> !Ends(results[next - 1])) && consumed >= Min(|incoming|, Gots(results[..next]))
  }

  /** The last four bytes before `at` are a length the receiver refuses. */
  ghost predicate Refuses(incoming: seq<uint8>, at: nat) {
    4 <= at <= |incoming| && !Accepted(ReadBigEndian(incoming[at - 4..at]))
  }

  lemma NoReads()
    ensures Gots([]) == 0
  {
  }

  /** What a sender leaves on the wire: whole messages in lock order, then what a write error let through of the
      message that failed. */
  ghost predicate SenderWire(incoming: seq<uint8>, sent: seq<Message>, failed: Message, cut: nat) {
    && (forall m :: m in sent ==> Accepted(|m|)) && Accepted(|failed|) && cut < |FrameMessage(failed)|
    && incoming == FrameAll(sent) + FrameMessage(failed)[..cut]
  }

  /** On a sender's wire the messages delivered are a prefix of those sent, and all of them once their bytes are
      consumed. */
  ghost predicate EndToEnd(incoming: seq<uint8>, consumed: nat, delivered: seq<Message>) {
    forall sent, failed, cut :: SenderWire(incoming, sent, failed, cut) ==>
      delivered <= sent && (consumed >= |FrameAll(sent)| ==> delivered == sent)
  }

  lemma WireDelivers(incoming: seq<uint8>)
    ensures forall consumed: nat {:trigger incoming[..consumed]} :: consumed <= |incoming| ==>
              EndToEnd(incoming, consumed, Decode(incoming[..consumed]))
  {
    hide Decode, FrameAll, FrameMessage;
    forall consumed: nat | consumed <= |incoming| ensures EndToEnd(incoming, consumed, Decode(incoming[..consumed])) {
      forall sent, failed, cut | SenderWire(incoming, sent, failed, cut)
        ensures Decode(incoming[..consumed]) <= sent
        ensures consumed >= |FrameAll(sent)| ==> Decode(incoming[..consumed]) == sent
      {
        DeliveredBeforeError(sent, failed, cut, consumed);
      }
    }
  }

  /** Wherever reading stops on a sender's wire. */
  lemma DeliveredBeforeError(sent: seq<Message>, failed: Message, cut: nat, consumed: nat)
    requires (forall m :: m in sent ==> Accepted(|m|)) && Accepted(|failed|) && cut < |FrameMessage(failed)|
    requires consumed <= |FrameAll(sent) + FrameMessage(failed)[..cut]|
    ensures var got := Decode((FrameAll(sent) + FrameMessage(failed)[..cut])[..consumed]);
            got <= sent && (consumed >= |FrameAll(sent)| ==> got == sent)
  {
    hide Decode, FrameAll, FrameMessage;
    var whole, part := FrameAll(sent), FrameMessage(failed)[..cut];
    if consumed < |whole| {
      DeliveredIsPrefix(sent, consumed);
      assert (whole + part)[..consumed] == whole[..consumed];
    } else {
      var over := consumed - |whole|;
      ReassemblesUntilError(sent, failed, over);
      assert (whole + part)[..consumed] == whole + part[..over];
      assert part[..over] == FrameMessage(failed)[..over];
    }
  }

  lemma NothingYet(incoming: seq<uint8>)
    ensures FramedUpTo(incoming, 0, []) && Decode(incoming[..0]) == []
  {
  }

  predicate FramedUpTo(incoming: seq<uint8>, start: nat, delivered: seq<Message>) {
    start <= |incoming| && FrameAll(delivered) == incoming[..start] && forall m :: m in delivered ==> Accepted(|m|)
  }

  lemma DecodeFrom(incoming: seq<uint8>, start: nat, end: nat, delivered: seq<Message>)
    requires FramedUpTo(incoming, start, delivered) && start <= end <= |incoming|
    ensures Decode(incoming[..end]) == delivered + Decode(incoming[start..end])
  {
    assert incoming[..end] == incoming[..start] + incoming[start..end];
    DecodeFramed(delivered, incoming[start..end]);
  }

  lemma PartialHeader(incoming: seq<uint8>, start: nat, consumed: nat, delivered: seq<Message>)
    requires FramedUpTo(incoming, start, delivered) && start <= consumed < start + 4 && consumed <= |incoming|
    ensures Decode(incoming[..consumed]) == delivered
  {
    DecodeFrom(incoming, start, consumed, delivered);
  }

  lemma RefusedSize(incoming: seq<uint8>, start: nat, delivered: seq<Message>)
    requires FramedUpTo(incoming, start, delivered) && start + 4 <= |incoming|
    requires !Accepted(ReadBigEndian(incoming[start..start + 4]))
    ensures Decode(incoming[..start + 4]) == delivered && Decode(incoming) == delivered
  {
    hide Decode, FramedUpTo, ReadBigEndian;
    DecodeFrom(incoming, start, start + 4, delivered);
    DecodeFrom(incoming, start, |incoming|, delivered);
    assert incoming[..|incoming|] == incoming;
    var header, rest := incoming[start..start + 4], incoming[start..|incoming|];
    assert header[..4] == header && rest[..4] == header;
    DecodeRefused(header);
    DecodeRefused(rest);
    assert delivered + [] == delivered;
  }

  lemma DecodeRefused(s: seq<uint8>)
    requires |s| >= 4 && !Accepted(ReadBigEndian(s[..4]))
    ensures Decode(s) == []
  {
  }

  lemma PartialBody(incoming: seq<uint8>, start: nat, consumed: nat, delivered: seq<Message>)
    requires FramedUpTo(incoming, start, delivered) && start + 4 <= consumed <= |incoming|
    requires consumed < start + 4 + ReadBigEndian(incoming[start..start + 4])
    ensures Decode(incoming[..consumed]) == delivered
  {
    DecodeFrom(incoming, start, consumed, delivered);
    assert incoming[start..consumed][..4] == incoming[start..start + 4];
  }

  lemma WholeMessage(incoming: seq<uint8>, start: nat, size: nat, delivered: seq<Message>)
    requires FramedUpTo(incoming, start, delivered) && start + 4 + size <= |incoming| && Accepted(size)
    requires size == ReadBigEndian(incoming[start..start + 4])
    ensures FramedUpTo(incoming, start + 4 + size, delivered + [incoming[start + 4..start + 4 + size]])
  {
    hide BigEndian, ReadBigEndian;
    var m := incoming[start + 4..start + 4 + size];
    assert (delivered + [m])[..|delivered|] == delivered;
    ReadThenWrite(incoming[start..start + 4]);
    assert incoming[..start + 4 + size] == incoming[..start] + (incoming[start..start + 4] + m);
  }

  lemma ReadThenWrite(b: seq<uint8>)
    requires |b| == 4
    ensures BigEndian(ReadBigEndian(b)) == b
  {
    var b0: int, b1: int, b2: int, b3: int := b[0], b[1], b[2], b[3];
    var high := b0 * 0x1_0000 + b1 * 0x100 + b2;
    assert ReadBigEndian(b) == high * 0x100 + b3;
    LastByte(high, b3);
    LastByte(b0 * 0x100 + b1, b2);
    LastByte(b0, b1);
    Shifted(high * 0x100 + b3);
  }

  lemma LastByte(high: nat, low: nat)
    requires low < 0x100
    ensures (high * 0x100 + low) / 0x100 == high && (high * 0x100 + low) % 0x100 == low
  {
  }

  lemma Shifted(x: nat)
    ensures x / 0x1_0000 == x / 0x100 / 0x100 && x / 0x100_0000 == x / 0x100 / 0x100 / 0x100
  {
  }
}
