/** mDNS discovery: the query printer and the response walk, against the message format of section 4.1 of
    RFC 1035 and the TXT strings of section 6 of RFC 6763. */
module DeviceDiscovery {
  import opened Arithmetic

  type Bytes = seq<uint8>

  // ---------- The format ----------

  function Be16(x: uint16): Bytes { [x / 0x100, x % 0x100] }

  function Read16(b: Bytes): uint16
    requires |b| == 2
  {
    var hi: int, lo: int := b[0], b[1];
    hi * 0x100 + lo
  }

  lemma Be16RoundTrip(x: uint16)
    ensures Read16(Be16(x)) == x
  {
  }

  /** A name: plain labels, then the root or a compression pointer's two bytes. */
  datatype Name = Name(labels: seq<Bytes>, pointer: Option<uint16>)

  predicate NameValid(n: Name) {
    (forall l :: l in n.labels ==> 1 <= |l| <= 63) && (n.pointer.Some? ==> n.pointer.value < 0x4000)
  }

  function EncodeLabels(labels: seq<Bytes>): Bytes
    requires forall l :: l in labels ==> |l| <= 63
  {
    if labels == [] then [] else [|labels[0]|] + labels[0] + EncodeLabels(labels[1..])
  }

  function NameEnd(n: Name): Bytes
    requires NameValid(n)
  {
    match n.pointer case None => [0] case Some(p) => [0xC0 + p / 0x100, p % 0x100]
  }

  function EncodeName(n: Name): Bytes
    requires NameValid(n)
  {
    EncodeLabels(n.labels) + NameEnd(n)
  }

  datatype Question = Question(name: Name, qtype: uint16, qclass: uint16)

  datatype Record = Record(name: Name, rtype: uint16, rclass: uint16, ttl: uint32, rdata: Bytes)

  predicate QuestionValid(q: Question) { NameValid(q.name) && |q.name.labels| <= 100 }

  predicate RecordValid(r: Record) { NameValid(r.name) && |r.name.labels| <= 100 && |r.rdata| < 0x1_0000 }

  predicate QuestionsValid(qs: seq<Question>) { forall i :: 0 <= i < |qs| ==> QuestionValid(qs[i]) }

  predicate RecordsValid(rs: seq<Record>) { forall i :: 0 <= i < |rs| ==> RecordValid(rs[i]) }

  function EncodeQuestions(qs: seq<Question>): Bytes
    requires QuestionsValid(qs)
  {
    if qs == [] then []
    else EncodeName(qs[0].name) + (Be16(qs[0].qtype) + Be16(qs[0].qclass)) + EncodeQuestions(qs[1..])
  }

  /** The fixed part of a record after its name. */
  function RecordHead(r: Record): Bytes
    requires RecordValid(r)
  {
    Be16(r.rtype) + Be16(r.rclass) + BigEndian(r.ttl) + Be16(|r.rdata|)
  }

  function EncodeRecords(rs: seq<Record>): Bytes
    requires RecordsValid(rs)
  {
    if rs == [] then [] else EncodeName(rs[0].name) + RecordHead(rs[0]) + rs[0].rdata + EncodeRecords(rs[1..])
  }

  datatype Response = Response(id: uint16, flags: uint16, questions: seq<Question>,
                               answers: seq<Record>, authorities: seq<Record>, additionals: seq<Record>)

  function Records(m: Response): seq<Record> { m.answers + m.authorities + m.additionals }

  predicate ResponseValid(m: Response) {
    && m.flags >= 0x8000 && |m.questions| < 0x1_0000
    && |m.answers| < 0x1_0000 && |m.authorities| < 0x1_0000 && |m.additionals| < 0x1_0000
    && QuestionsValid(m.questions) && RecordsValid(Records(m))
  }

  function EncodeHeader(m: Response): Bytes
    requires |m.questions| < 0x1_0000 && |m.answers| < 0x1_0000 &&
             |m.authorities| < 0x1_0000 && |m.additionals| < 0x1_0000
  {
    Be16(m.id) + Be16(m.flags) + Be16(|m.questions|) + Be16(|m.answers|) + Be16(|m.authorities|) + Be16(|m.additionals|)
  }

  function EncodeResponse(m: Response): Bytes
    requires ResponseValid(m)
  {
    EncodeHeader(m) + EncodeQuestions(m.questions) + EncodeRecords(Records(m))
  }

  // ---------- The walk ----------

  /** Where the walk resumes after the name at `offset`, with `jumped` labels already passed. */
  function Skip(buf: Bytes, offset: nat, jumped: nat): (r: nat)
    ensures r >= offset
    decreases |buf| - offset
  {
    if offset >= |buf| then offset
    else
      var l := buf[offset];
      if l == 0 then offset + 1
      else if l >= 0xC0 then offset + 2
      else if jumped + 1 > 100 then offset + 1 + l
      else Skip(buf, offset + 1 + l, jumped + 1)
  }

  function SkipQuestions(buf: Bytes, offset: nat, count: nat): nat
    decreases count
  {
    if count == 0 || offset >= |buf| then offset else SkipQuestions(buf, Skip(buf, offset, 0) + 4, count - 1)
  }

  /** The strings of TXT data; a length that does not fit skips only its own byte. */
  function TxtStrings(s: Bytes): seq<Bytes>
    decreases |s|
  {
    if s == [] then []
    else
      var l := s[0];
      if l > 0 && 1 + l <= |s| then [s[1..1 + l]] + TxtStrings(s[1 + l..]) else TxtStrings(s[1..])
  }

  /** What the walk has gathered: TXT strings, the first IPv4 address, the last Cast control port. */
  datatype Gathered = Gathered(txt: seq<Bytes>, address: Option<Bytes>, port: uint16)

  const NOTHING := Gathered([], None, 8009)

  function Gather(g: Gathered, rtype: uint16, rdata: Bytes): Gathered {
    if rtype == 16 then g.(txt := g.txt + TxtStrings(rdata))
    else if rtype == 1 && |rdata| == 4 && g.address.None? then g.(address := Some(rdata))
    else if rtype == 33 && |rdata| >= 6 && Read16(rdata[4..6]) in {8008, 8009} then g.(port := Read16(rdata[4..6]))
    else g
  }

  function Walk(buf: Bytes, offset: nat, count: nat, g: Gathered): Gathered
    decreases count
  {
    if count == 0 || offset >= |buf| then g
    else
      var o := Skip(buf, offset, 0);
      if o + 10 > |buf| then g
      else
        var length := Read16(buf[o + 8..o + 10]);
        if o + 10 + length > |buf| then g
        else Walk(buf, o + 10 + length, count - 1, Gather(g, Read16(buf[o..o + 2]), buf[o + 10..o + 10 + length]))
  }

  function Parse(buf: Bytes): Option<Gathered> {
    if |buf| < 12 || buf[2] < 0x80 then None
    else
      var start := SkipQuestions(buf, 12, Read16(buf[4..6]));
      Some(Walk(buf, start, Read16(buf[6..8]) + Read16(buf[8..10]) + Read16(buf[10..12]), NOTHING))
  }

  // ---------- Names ----------

  /** `buf` holds `part` at `at`. */
  predicate HasAt(buf: Bytes, at: nat, part: Bytes) { at + |part| <= |buf| && buf[at..at + |part|] == part }

  lemma HasParts(buf: Bytes, at: nat, a: Bytes, b: Bytes)
    requires HasAt(buf, at, a + b)
    ensures HasAt(buf, at, a) && HasAt(buf, at + |a|, b)
  {
    var whole := buf[at..at + |a| + |b|];
    assert buf[at..at + |a|] == whole[..|a|] == a;
    assert buf[at + |a|..at + |a| + |b|] == whole[|a|..] == b;
  }

  lemma HasByte(buf: Bytes, at: nat, part: Bytes, k: nat)
    requires HasAt(buf, at, part) && k < |part|
    ensures at + k < |buf| && buf[at + k] == part[k]
  {
    assert buf[at..at + |part|][k] == buf[at + k];
  }

  lemma SkipOne(buf: Bytes, at: nat, jumped: nat)
    requires at < |buf| && 0 < buf[at] < 0xC0 && jumped < 100
    ensures Skip(buf, at, jumped) == Skip(buf, at + 1 + buf[at], jumped + 1)
  {
  }

  /** Passing whole labels keeps count of them. */
  lemma {:induction false} SkipLabels(buf: Bytes, at: nat, labels: seq<Bytes>, jumped: nat)
    requires forall l :: l in labels ==> 1 <= |l| <= 63
    requires HasAt(buf, at, EncodeLabels(labels)) && jumped + |labels| <= 100
    ensures Skip(buf, at, jumped) == Skip(buf, at + |EncodeLabels(labels)|, jumped + |labels|)
    decreases |labels|
  {
    hide HasAt, Skip;
    if labels != [] {
      var l, t := labels[0], labels[1..];
      assert l in labels;
      HasByte(buf, at, EncodeLabels(labels), 0);
      HasParts(buf, at, [|l|] + l, EncodeLabels(t));
      SkipOne(buf, at, jumped);
      SkipLabels(buf, at + 1 + |l|, t, jumped + 1);
    }
  }

  lemma SkipEnd(buf: Bytes, at: nat, n: Name, jumped: nat)
    requires NameValid(n) && HasAt(buf, at, NameEnd(n))
    ensures Skip(buf, at, jumped) == at + |NameEnd(n)|
  {
    HasByte(buf, at, NameEnd(n), 0);
  }

  /** A name of at most a hundred labels is skipped exactly. */
  lemma SkipName(buf: Bytes, at: nat, n: Name)
    requires NameValid(n) && |n.labels| <= 100 && HasAt(buf, at, EncodeName(n))
    ensures Skip(buf, at, 0) == at + |EncodeName(n)|
  {
    HasParts(buf, at, EncodeLabels(n.labels), NameEnd(n));
    SkipLabels(buf, at, n.labels, 0);
    SkipEnd(buf, at + |EncodeLabels(n.labels)|, n, |n.labels|);
  }

  lemma {:induction false} LabelsSplit(a: seq<Bytes>, b: seq<Bytes>)
    requires forall l :: l in a + b ==> |l| <= 63
    ensures (forall l :: l in a ==> |l| <= 63) && forall l :: l in b ==> |l| <= 63
    ensures EncodeLabels(a + b) == EncodeLabels(a) + EncodeLabels(b)
  {
    hide EncodeLabels;
    assert forall l :: l in a || l in b ==> l in a + b;
    if a == [] {
      assert a + b == b;
      NoLabels();
    } else {
      assert a[0] in a + b;
      assert a == [a[0]] + a[1..] && a + b == [a[0]] + (a[1..] + b);
      LabelsSplit(a[1..], b);
      LabelFirst(a[0], a[1..]);
      LabelFirst(a[0], a[1..] + b);
    }
  }

  lemma LabelFirst(l: Bytes, rest: seq<Bytes>)
    requires |l| <= 63 && forall x :: x in rest ==> |x| <= 63
    ensures EncodeLabels([l] + rest) == [|l|] + l + EncodeLabels(rest)
  {
    assert ([l] + rest)[1..] == rest;
  }

  /** Skipping lands behind a well-formed name exactly when it has at most a hundred labels. */
  lemma SkipNameIff(buf: Bytes, at: nat, n: Name)
    requires NameValid(n) && HasAt(buf, at, EncodeName(n))
    ensures Skip(buf, at, 0) == at + |EncodeName(n)| <==> |n.labels| <= 100
  {
    hide HasAt, EncodeName, Skip;
    if |n.labels| <= 100 { SkipName(buf, at, n); } else { SkipFallsShort(buf, at, n); }
  }

  lemma SkipFallsShort(buf: Bytes, at: nat, n: Name)
    requires NameValid(n) && HasAt(buf, at, EncodeName(n)) && |n.labels| > 100
    ensures Skip(buf, at, 0) < at + |EncodeName(n)|
  {
    hide EncodeLabels, Skip, NameEnd, HasAt;
    var a, t := n.labels[..100], n.labels[100..];
    assert n.labels == a + t;
    LabelsSplit(a, t);
    var rest := EncodeLabels(t) + NameEnd(n);
    assert EncodeName(n) == EncodeLabels(a) + rest;
    HasParts(buf, at, EncodeLabels(a), rest);
    SkipLabels(buf, at, a, 0);
    HasParts(buf, at + |EncodeLabels(a)|, EncodeLabels(t), NameEnd(n));
    SkipStops(buf, at + |EncodeLabels(a)|, t, n);
  }

  /** At the hundred-and-first label the walk stops short of the name's end. */
  lemma SkipStops(buf: Bytes, at: nat, labels: seq<Bytes>, n: Name)
    requires NameValid(n) && labels != [] && forall l :: l in labels ==> 1 <= |l| <= 63
    requires HasAt(buf, at, EncodeLabels(labels))
    ensures Skip(buf, at, 100) < at + |EncodeLabels(labels)| + |NameEnd(n)|
  {
    HasByte(buf, at, EncodeLabels(labels), 0);
    assert labels[0] in labels;
  }

  // ---------- Whole messages ----------

  lemma {:induction false} QuestionsSkipped(buf: Bytes, at: nat, qs: seq<Question>)
    requires QuestionsValid(qs) && HasAt(buf, at, EncodeQuestions(qs))
    ensures SkipQuestions(buf, at, |qs|) == at + |EncodeQuestions(qs)|
    decreases |qs|
  {
    hide Skip, EncodeName, Be16, HasAt, NameValid;
    SizedBe16();
    if qs != [] {
      var q, name, t := qs[0], EncodeName(qs[0].name), qs[1..];
      var fixed := Be16(q.qtype) + Be16(q.qclass);
      HasParts(buf, at, name + fixed, EncodeQuestions(t));
      HasParts(buf, at, name, fixed);
      SkipName(buf, at, q.name);
      QuestionsSkipped(buf, at + |name| + 4, t);
    }
  }

  function GatherAll(g: Gathered, rs: seq<Record>): Gathered
    decreases |rs|
  {
    if rs == [] then g else GatherAll(Gather(g, rs[0].rtype, rs[0].rdata), rs[1..])
  }

  /** One record: its boundaries, type and data are found. */
  lemma WalkOne(buf: Bytes, at: nat, r: Record, count: nat, g: Gathered)
    requires RecordValid(r) && count > 0 && HasAt(buf, at, EncodeName(r.name) + RecordHead(r) + r.rdata)
    ensures Walk(buf, at, count, g) ==
              Walk(buf, at + |EncodeName(r.name)| + 10 + |r.rdata|, count - 1, Gather(g, r.rtype, r.rdata))
    ensures |RecordHead(r)| == 10
  {
    hide EncodeName, RecordHead, Gather, Skip, Read16;
    var name, head := EncodeName(r.name), RecordHead(r);
    HasParts(buf, at, name + head, r.rdata);
    HasParts(buf, at, name, head);
    SkipName(buf, at, r.name);
    HeadFields(buf, at + |name|, r);
  }

  lemma HeadFields(buf: Bytes, o: nat, r: Record)
    requires RecordValid(r) && HasAt(buf, o, RecordHead(r))
    ensures |RecordHead(r)| == 10 && o + 10 <= |buf|
    ensures Read16(buf[o..o + 2]) == r.rtype && Read16(buf[o + 8..o + 10]) == |r.rdata|
  {
    hide Be16, Read16, BigEndian;
    SizedBe16();
    var rest := Be16(r.rclass) + BigEndian(r.ttl) + Be16(|r.rdata|);
    assert RecordHead(r) == Be16(r.rtype) + rest;
    HasParts(buf, o, Be16(r.rtype), rest);
    HasParts(buf, o, Be16(r.rtype) + Be16(r.rclass) + BigEndian(r.ttl), Be16(|r.rdata|));
    Be16RoundTrip(r.rtype);
    Be16RoundTrip(|r.rdata|);
  }

  lemma SizedBe16()
    ensures forall x: uint16 :: |Be16(x)| == 2
  {
  }

  lemma WalkNothing(buf: Bytes, at: nat, g: Gathered)
    ensures Walk(buf, at, 0, g) == g
  {
  }

  lemma {:induction false} RecordsWalked(buf: Bytes, at: nat, rs: seq<Record>, g: Gathered)
    requires RecordsValid(rs) && HasAt(buf, at, EncodeRecords(rs))
    ensures Walk(buf, at, |rs|, g) == GatherAll(g, rs)
    decreases |rs|
  {
    hide Walk, Gather, EncodeName, RecordHead;
    if rs == [] {
      WalkNothing(buf, at, g);
    } else {
      var r, t := rs[0], rs[1..];
      var first := EncodeName(r.name) + RecordHead(r) + r.rdata;
      HasParts(buf, at, first, EncodeRecords(t));
      WalkOne(buf, at, r, |rs|, g);
      RecordsWalked(buf, at + |first|, t, Gather(g, r.rtype, r.rdata));
    }
  }

  /** The walk of a well-formed response, whatever follows it in the datagram, visits exactly its records. */
  lemma ParsesWellFormed(m: Response, rest: Bytes)
    requires ResponseValid(m)
    ensures Parse(EncodeResponse(m) + rest) == Some(GatherAll(NOTHING, Records(m)))
  {
    hide EncodeQuestions, EncodeRecords, SkipQuestions, Walk, EncodeHeader, Read16, GatherAll,
         QuestionsValid, RecordsValid, Records;
    var header, qs, rs := EncodeHeader(m), EncodeQuestions(m.questions), EncodeRecords(Records(m));
    var buf := EncodeResponse(m) + rest;
    HeaderSize(m);
    assert buf[..12] == header;
    HeaderFields(buf, m);
    assert HasAt(buf, 12, qs) by { assert buf[12..12 + |qs|] == qs; }
    assert HasAt(buf, 12 + |qs|, rs) by { assert buf[12 + |qs|..12 + |qs| + |rs|] == rs; }
    QuestionsSkipped(buf, 12, m.questions);
    RecordsWalked(buf, 12 + |qs|, Records(m), NOTHING);
  }

  lemma HeaderSize(m: Response)
    requires ResponseValid(m)
    ensures |EncodeHeader(m)| == 12
  {
  }

  lemma HeaderFields(buf: Bytes, m: Response)
    requires ResponseValid(m) && |buf| >= 12 && buf[..12] == EncodeHeader(m)
    ensures buf[2] >= 0x80 && Read16(buf[4..6]) == |m.questions|
    ensures Read16(buf[6..8]) + Read16(buf[8..10]) + Read16(buf[10..12]) == |Records(m)|
  {
    var h := buf[..12];
    assert buf[2] == h[2] && buf[4..6] == h[4..6] && buf[6..8] == h[6..8] &&
           buf[8..10] == h[8..10] && buf[10..12] == h[10..12];
    assert h[4..6] == Be16(|m.questions|) && h[6..8] == Be16(|m.answers|);
    assert h[8..10] == Be16(|m.authorities|) && h[10..12] == Be16(|m.additionals|);
  }

  // ---------- Responses cut short ----------

  /** A name cut short at the end of the buffer is skipped to the end or beyond. */
  lemma {:induction false} SkipTruncated(buf: Bytes, at: nat, labels: seq<Bytes>, n: Name, jumped: nat)
    requires NameValid(n) && (forall l :: l in labels ==> 1 <= |l| <= 63) && jumped + |labels| <= 100
    requires at <= |buf| && buf[at..] < EncodeLabels(labels) + NameEnd(n)
    ensures Skip(buf, at, jumped) >= |buf|
    decreases |labels|
  {
    hide Skip;
    var part, whole := buf[at..], EncodeLabels(labels) + NameEnd(n);
    if part == [] {
      SkipPastEnd(buf, at, jumped);
    } else if labels == [] {
      assert buf[at] == part[0] == whole[0];
      SkipCutPointer(buf, at, jumped);
    } else {
      var l, t := labels[0], labels[1..];
      assert l in labels;
      assert whole == [|l|] + l + (EncodeLabels(t) + NameEnd(n));
      assert buf[at] == part[0] == |l|;
      SkipOne(buf, at, jumped);
      if at + 1 + |l| <= |buf| {
        assert buf[at + 1 + |l|..] == part[1 + |l|..] < whole[1 + |l|..];
        assert whole[1 + |l|..] == EncodeLabels(t) + NameEnd(n);
        SkipTruncated(buf, at + 1 + |l|, t, n, jumped + 1);
      } else {
        SkipPastEnd(buf, at + 1 + |l|, jumped + 1);
      }
    }
  }

  lemma SkipPastEnd(buf: Bytes, at: nat, jumped: nat)
    requires at >= |buf|
    ensures Skip(buf, at, jumped) == at
  {
  }

  lemma SkipCutPointer(buf: Bytes, at: nat, jumped: nat)
    requires at < |buf| && (buf[at] == 0 || buf[at] >= 0xC0)
    ensures Skip(buf, at, jumped) > at
  {
  }

  /** A record cut short ends the walk. */
  lemma TruncatedRecordEnds(buf: Bytes, at: nat, r: Record, count: nat, g: Gathered)
    requires RecordValid(r) && at <= |buf| && buf[at..] < EncodeName(r.name) + RecordHead(r) + r.rdata
    ensures Walk(buf, at, count, g) == g
  {
    hide Walk, Skip, EncodeName, RecordHead, HasAt;
    var name, head := EncodeName(r.name), RecordHead(r);
    assert name + head + r.rdata == name + (head + r.rdata);
    PrefixAt(buf, at, name, head + r.rdata);
    if |buf| - at < |name| {
      NameParts(r.name);
      SkipTruncated(buf, at, r.name.labels, r.name, 0);
      WalkStops(buf, at, count, g);
    } else {
      SkipName(buf, at, r.name);
      HeadSize(r);
      PrefixAt(buf, at + |name|, head, r.rdata);
      if |buf| - at - |name| >= 10 { HeadFields(buf, at + |name|, r); }
      WalkCut(buf, at, count, g);
    }
  }

  /** A proper prefix of two parts at the end of the buffer: part of the first, or all of it and part of the second. */
  lemma PrefixAt(buf: Bytes, at: nat, a: Bytes, b: Bytes)
    requires at <= |buf| && buf[at..] < a + b
    ensures |buf| - at < |a| ==> buf[at..] < a
    ensures |buf| - at >= |a| ==> HasAt(buf, at, a) && buf[at + |a|..] < b
  {
    var part := buf[at..];
    if |part| < |a| {
      assert part == (a + b)[..|part|] == a[..|part|];
    } else {
      assert buf[at..at + |a|] == part[..|a|] == (a + b)[..|part|][..|a|] == a;
      assert buf[at + |a|..] == part[|a|..] == (a + b)[..|part|][|a|..] == b[..|part| - |a|];
    }
  }

  lemma NameParts(n: Name)
    requires NameValid(n)
    ensures EncodeName(n) == EncodeLabels(n.labels) + NameEnd(n)
  {
  }

  /** No whole head, or no whole data, after the name. */
  lemma WalkCut(buf: Bytes, at: nat, count: nat, g: Gathered)
    requires var o := Skip(buf, at, 0);
             o + 10 > |buf| || o + 10 + Read16(buf[o + 8..o + 10]) > |buf|
    ensures Walk(buf, at, count, g) == g
  {
    hide Skip, Read16, Gather;
  }

  lemma HeadSize(r: Record)
    requires RecordValid(r)
    ensures |RecordHead(r)| == 10
  {
    SizedBe16();
  }

  lemma WalkStops(buf: Bytes, at: nat, count: nat, g: Gathered)
    requires Skip(buf, at, 0) >= |buf|
    ensures Walk(buf, at, count, g) == g
  {
    hide Skip;
  }

  lemma {:induction false} TruncatedYieldsWholeRecords(buf: Bytes, at: nat, rs: seq<Record>, r: Record, count: nat,
                                                       g: Gathered)
    requires RecordsValid(rs) && RecordValid(r) && count > |rs| && at <= |buf|
    requires EncodeRecords(rs) <= buf[at..] < EncodeRecords(rs) + (EncodeName(r.name) + RecordHead(r) + r.rdata)
    ensures Walk(buf, at, count, g) == GatherAll(g, rs)
    decreases |rs|
  {
    hide Walk, Gather, EncodeName, RecordHead, HasAt, EncodeRecords;
    RecordsFirst(rs);
    if rs == [] {
      TruncatedRecordEnds(buf, at, r, count, g);
    } else {
      var x, t, last := rs[0], rs[1..], EncodeName(r.name) + RecordHead(r) + r.rdata;
      var first := EncodeName(x.name) + RecordHead(x) + x.rdata;
      assert EncodeRecords(rs) + last == first + (EncodeRecords(t) + last);
      PrefixAt(buf, at, first, EncodeRecords(t) + last);
      assert buf[at..][|first|..] == buf[at + |first|..];
      WalkOne(buf, at, x, count, g);
      TruncatedYieldsWholeRecords(buf, at + |first|, t, r, count - 1, Gather(g, x.rtype, x.rdata));
    }
  }

  /** A response cut short anywhere among its records yields exactly the records that are whole. */
  lemma TruncatedResponse(m: Response, tail: Bytes, i: nat)
    requires ResponseValid(m) && i < |Records(m)| && RecordsValid(Records(m)[..i])
    requires var r := Records(m)[i];
             EncodeRecords(Records(m)[..i]) <= tail
               < EncodeRecords(Records(m)[..i]) + (EncodeName(r.name) + RecordHead(r) + r.rdata)
    ensures Parse(EncodeHeader(m) + EncodeQuestions(m.questions) + tail) == Some(GatherAll(NOTHING, Records(m)[..i]))
  {
    hide EncodeQuestions, EncodeRecords, SkipQuestions, Walk, EncodeHeader, Read16, GatherAll;
    hide QuestionsValid, RecordsValid, Records, EncodeName, RecordHead, RecordValid;
    var header, qs := EncodeHeader(m), EncodeQuestions(m.questions);
    var buf := header + qs + tail;
    HeaderSize(m);
    assert buf[..12] == header;
    HeaderFields(buf, m);
    assert HasAt(buf, 12, qs) by { assert buf[12..12 + |qs|] == qs; }
    assert buf[12 + |qs|..] == tail;
    QuestionsSkipped(buf, 12, m.questions);
    OneValid(Records(m), i);
    TruncatedYieldsWholeRecords(buf, 12 + |qs|, Records(m)[..i], Records(m)[i], |Records(m)|, NOTHING);
  }

  lemma RecordsFirst(rs: seq<Record>)
    requires RecordsValid(rs)
    ensures EncodeRecords(rs) ==
              if rs == [] then [] else EncodeName(rs[0].name) + RecordHead(rs[0]) + rs[0].rdata + EncodeRecords(rs[1..])
  {
    hide EncodeName, RecordHead;
  }

  lemma OneValid(rs: seq<Record>, i: nat)
    requires RecordsValid(rs) && i < |rs|
    ensures RecordValid(rs[i])
  {
  }

  // ---------- TXT strings ----------

  function EncodeStrings(ss: seq<Bytes>): Bytes
    requires forall s :: s in ss ==> |s| < 0x100
  {
    if ss == [] then [] else [|ss[0]|] + ss[0] + EncodeStrings(ss[1..])
  }

  function NonEmpty(ss: seq<Bytes>): seq<Bytes> {
    if ss == [] then [] else (if ss[0] == [] then [] else [ss[0]]) + NonEmpty(ss[1..])
  }

  /** TXT data gives back its non-empty strings as encoded. */
  lemma {:induction false} TxtRoundTrip(ss: seq<Bytes>)
    requires forall s :: s in ss ==> |s| < 0x100
    ensures TxtStrings(EncodeStrings(ss)) == NonEmpty(ss)
  {
    if ss != [] {
      var s, e := ss[0], EncodeStrings(ss);
      TxtRoundTrip(ss[1..]);
      assert e[1..1 + |s|] == s && e[1 + |s|..] == EncodeStrings(ss[1..]);
    }
  }

  /** On arbitrary bytes every string found is there with its length in front, and none is empty. */
  lemma {:induction false} TxtStringsOccur(s: Bytes, x: Bytes)
    requires x in TxtStrings(s)
    ensures x != [] && exists p :: 0 <= p < |s| && s[p] == |x| && HasAt(s, p + 1, x)
    decreases |s|
  {
    hide HasAt;
    TxtOne(s);
    var l: int := s[0];
    if l > 0 && 1 + l <= |s| && x == s[1..1 + l] {
      assert HasAt(s, 1, x) by { TakenAt(s, 1, x); }
    } else {
      var d := if l > 0 && 1 + l <= |s| then 1 + l else 1;
      TxtStringsOccur(s[d..], x);
      var p :| 0 <= p < |s[d..]| && s[d..][p] == |x| && HasAt(s[d..], p + 1, x);
      HasInSuffix(s, d, p + 1, x);
      assert s[d + p] == |x|;
    }
  }

  lemma TakenAt(s: Bytes, at: nat, x: Bytes)
    requires at + |x| <= |s| && s[at..at + |x|] == x
    ensures HasAt(s, at, x)
  {
  }

  lemma HasInSuffix(s: Bytes, d: nat, at: nat, x: Bytes)
    requires d <= |s| && HasAt(s[d..], at, x)
    ensures HasAt(s, d + at, x)
  {
    assert s[d..][at..at + |x|] == s[d + at..d + at + |x|];
  }

  /** The TXT strings of a list of records, in order. */
  function AllTxt(rs: seq<Record>): seq<Bytes> {
    if rs == [] then [] else (if rs[0].rtype == 16 then TxtStrings(rs[0].rdata) else []) + AllTxt(rs[1..])
  }

  lemma {:induction false} GatherAllTxt(g: Gathered, rs: seq<Record>)
    ensures GatherAll(g, rs).txt == g.txt + AllTxt(rs)
    decreases |rs|
  {
    if rs != [] { GatherAllTxt(Gather(g, rs[0].rtype, rs[0].rdata), rs[1..]); }
  }

  /** The data of every TXT record is the encoding of its list of strings. */
  predicate TxtEncodes(rs: seq<Record>, lists: seq<seq<Bytes>>) {
    && |lists| == |rs|
    && forall i :: 0 <= i < |rs| && rs[i].rtype == 16 ==>
         (forall s :: s in lists[i] ==> |s| < 0x100) && rs[i].rdata == EncodeStrings(lists[i])
  }

  /** The non-empty strings of the TXT records' lists, in record order. */
  function AllNonEmpty(rs: seq<Record>, lists: seq<seq<Bytes>>): seq<Bytes>
    requires |lists| == |rs|
  {
    if rs == [] then []
    else (if rs[0].rtype == 16 then NonEmpty(lists[0]) else []) + AllNonEmpty(rs[1..], lists[1..])
  }

  lemma {:induction false} AllTxtDecodes(rs: seq<Record>, lists: seq<seq<Bytes>>)
    requires TxtEncodes(rs, lists)
    ensures AllTxt(rs) == AllNonEmpty(rs, lists)
  {
    hide EncodeStrings, TxtStrings, NonEmpty;
    if rs != [] {
      if rs[0].rtype == 16 { TxtRoundTrip(lists[0]); }
      assert TxtEncodes(rs[1..], lists[1..]);
      AllTxtDecodes(rs[1..], lists[1..]);
    }
  }

  /** A well-formed response, with any number of TXT records among its others, yields exactly their non-empty strings
      as encoded, in record order. */
  lemma ResponseYieldsTxt(m: Response, rest: Bytes, lists: seq<seq<Bytes>>)
    requires ResponseValid(m) && TxtEncodes(Records(m), lists)
    ensures Parse(EncodeResponse(m) + rest).Some?
    ensures Parse(EncodeResponse(m) + rest).value.txt == AllNonEmpty(Records(m), lists)
  {
    hide Parse, EncodeResponse, GatherAll, ResponseValid, TxtEncodes;
    ParsesWellFormed(m, rest);
    GatherAllTxt(NOTHING, Records(m));
    AllTxtDecodes(Records(m), lists);
  }

  // ---------- Address and port ----------

  predicate IsAddress(r: Record) { r.rtype == 1 && |r.rdata| == 4 }

  /** A service record with one of the two Cast control ports. */
  predicate IsCastPort(r: Record) {
    r.rtype == 33 && |r.rdata| >= 6 && Read16(r.rdata[4..6]) in {8008, 8009}
  }

  ghost predicate FirstAddressAt(rs: seq<Record>, i: nat)
    requires i < |rs|
  {
    IsAddress(rs[i]) && forall k :: 0 <= k < i ==> !IsAddress(rs[k])
  }

  ghost predicate LastPortAt(rs: seq<Record>, i: nat)
    requires i < |rs|
  {
    IsCastPort(rs[i]) && forall k :: i < k < |rs| ==> !IsCastPort(rs[k])
  }

  /** The address is the first one among the records after any gathered before. */
  ghost predicate AddressOf(a: Option<Bytes>, before: Option<Bytes>, rs: seq<Record>) {
    if before.Some? then a == before
    else if a.None? then forall i :: 0 <= i < |rs| ==> !IsAddress(rs[i])
    else exists i :: 0 <= i < |rs| && FirstAddressAt(rs, i) && a.value == rs[i].rdata
  }

  /** The port is the last Cast control port among the records, or the one gathered before. */
  ghost predicate PortOf(port: uint16, before: uint16, rs: seq<Record>) {
    || (port == before && forall i :: 0 <= i < |rs| ==> !IsCastPort(rs[i]))
    || exists i :: 0 <= i < |rs| && LastPortAt(rs, i) && port == Read16(rs[i].rdata[4..6])
  }

  lemma {:induction false} GatherAllFinds(g: Gathered, rs: seq<Record>)
    ensures AddressOf(GatherAll(g, rs).address, g.address, rs) && PortOf(GatherAll(g, rs).port, g.port, rs)
    decreases |rs|
  {
    hide Read16, TxtStrings, Gather, AddressOf, PortOf;
    if rs == [] {
      NothingFound(g);
    } else {
      var first, rest := rs[0], rs[1..];
      assert rs == [first] + rest;
      var h, r := Gather(g, first.rtype, first.rdata), GatherAll(g, rs);
      GatherAllFinds(h, rest);
      AddressExtends(g, first, rest, r.address);
      PortExtends(g, first, rest, r.port);
    }
  }

  lemma NothingFound(g: Gathered)
    ensures AddressOf(g.address, g.address, []) && PortOf(g.port, g.port, [])
  {
  }

  lemma AddressExtends(g: Gathered, first: Record, rest: seq<Record>, a: Option<Bytes>)
    requires AddressOf(a, Gather(g, first.rtype, first.rdata).address, rest)
    ensures AddressOf(a, g.address, [first] + rest)
  {
    hide Read16, TxtStrings;
    var rs := [first] + rest;
    assert forall i :: 0 < i < |rs| ==> rs[i] == rest[i - 1];
    assert rs[0] == first;
    if g.address.None? && IsAddress(first) {
      assert FirstAddressAt(rs, 0);
    } else if g.address.None? && a.Some? {
      var i :| 0 <= i < |rest| && FirstAddressAt(rest, i) && a.value == rest[i].rdata;
      assert rs[i + 1] == rest[i] && FirstAddressAt(rs, i + 1);
    }
  }

  lemma PortExtends(g: Gathered, first: Record, rest: seq<Record>, port: uint16)
    requires PortOf(port, Gather(g, first.rtype, first.rdata).port, rest)
    ensures PortOf(port, g.port, [first] + rest)
  {
    hide Read16, TxtStrings;
    var rs := [first] + rest;
    assert forall i :: 0 < i < |rs| ==> rs[i] == rest[i - 1];
    assert rs[0] == first;
    if i :| 0 <= i < |rest| && LastPortAt(rest, i) && port == Read16(rest[i].rdata[4..6]) {
      assert rs[i + 1] == rest[i] && LastPortAt(rs, i + 1);
    } else if IsCastPort(first) {
      assert LastPortAt(rs, 0);
    }
  }

  /** A well-formed response yields its first address record's address, and the last Cast control port of its service
      records, 8009 when there is none. */
  lemma ResponseYieldsAddress(m: Response, rest: Bytes)
    requires ResponseValid(m)
    ensures Parse(EncodeResponse(m) + rest).Some?
    ensures var g := Parse(EncodeResponse(m) + rest).value;
            AddressOf(g.address, None, Records(m)) && PortOf(g.port, 8009, Records(m))
  {
    hide Parse, EncodeResponse, GatherAll, ResponseValid, AddressOf, PortOf;
    ParsesWellFormed(m, rest);
    GatherAllFinds(NOTHING, Records(m));
  }

  /** A 16-bit field is the low half of the 32-bit word. */
  lemma Be16IsBigEndian(x: uint16)
    ensures BigEndian(x) == [0, 0] + Be16(x)
  {
  }

  // ---------- The query printer ----------

  const QUERY_HEADER: Bytes := [0, 0, 0, 0, 0, 1, 0, 0, 0, 0, 0, 0]

  function QueryBytes(labels: seq<Bytes>, qclass: uint16): Bytes
    requires forall l :: l in labels ==> |l| <= 63
  {
    QUERY_HEADER + EncodeLabels(labels) + [0] + Be16(12) + Be16(qclass)
  }

  /** Skipping the name of a printed query lands on its QTYPE. */
  lemma SkipPrintedName(labels: seq<Bytes>, qclass: uint16)
    requires |labels| <= 100 && forall l :: l in labels ==> 1 <= |l| <= 63
    ensures var q, at := QueryBytes(labels, qclass), 12 + |EncodeLabels(labels)| + 1;
            Skip(q, 12, 0) == at && q[at..] == Be16(12) + Be16(qclass)
  {
    var n := Name(labels, None);
    var q := QueryBytes(labels, qclass);
    assert HasAt(q, 12, EncodeName(n)) by { assert q[12..12 + |EncodeName(n)|] == EncodeName(n); }
    SkipName(q, 12, n);
  }

  /** A printed query is a message with exactly one question, for PTR records, in the format of the header and
      question section; being no response it is ignored when it comes back. */
  lemma PrintedQueryIsQuestion(labels: seq<Bytes>, qclass: uint16)
    requires |labels| <= 100 && forall l :: l in labels ==> 1 <= |l| <= 63
    ensures var q, question := QueryBytes(labels, qclass), Question(Name(labels, None), 12, qclass);
            && q[..12] == EncodeHeader(Response(0, 0, [question], [], [], []))
            && QuestionsValid([question]) && q[12..] == EncodeQuestions([question]) && Parse(q) == None
  {
    hide EncodeLabels;
    var q, question := QueryBytes(labels, qclass), Question(Name(labels, None), 12, qclass);
    assert [question][1..] == [];
    NoQuestions();
    assert q[12..] == EncodeLabels(labels) + [0] + (Be16(12) + Be16(qclass));
  }

  lemma NoQuestions()
    ensures EncodeQuestions([]) == []
  {
  }

  // ---------- The loops ----------

  method SkipDnsName(buf: Bytes, start: nat) returns (offset: nat)
    ensures offset == Skip(buf, start, 0)
  {
    offset := start;
    var jumped := 0;
    while offset < |buf|
      invariant Skip(buf, start, 0) == Skip(buf, offset, jumped) && jumped <= 100
      decreases |buf| - offset
    {
      var l := buf[offset];
      if l == 0 {
        return offset + 1;
      }
      if l >= 0xC0 {
        return offset + 2;
      }
      offset := offset + 1 + l;
      jumped := jumped + 1;
      if jumped > 100 {
        return;
      }
    }
  }

  method ReadTxt(buf: Bytes, start: nat, length: nat) returns (entries: seq<Bytes>)
    requires start + length <= |buf|
    ensures entries == TxtStrings(buf[start..start + length])
  {
    hide TxtStrings;
    entries := [];
    var pos, end := start, start + length;
    while pos < end
      invariant start <= pos <= end
      invariant TxtStrings(buf[start..end]) == entries + TxtStrings(buf[pos..end])
      decreases end - pos
    {
      ghost var rest := buf[pos..end];
      TxtOne(rest);
      var l: nat := buf[pos];
      pos := pos + 1;
      SubSlice(buf, pos - 1, end, 1, end - pos + 1);
      if l > 0 && pos + l <= end {
        SubSlice(buf, pos - 1, end, 1, 1 + l);
        SubSlice(buf, pos - 1, end, 1 + l, end - pos + 1);
        entries := entries + [buf[pos..pos + l]];
        pos := pos + l;
      }
    }
    assert buf[pos..end] == [];
    NoTxtStrings();
  }

  lemma NoTxtStrings()
    ensures TxtStrings([]) == []
  {
  }

  lemma TxtOne(s: Bytes)
    requires s != []
    ensures var l: int := s[0];
            TxtStrings(s) == if l > 0 && 1 + l <= |s| then
              [s[1..1 + l]] + TxtStrings(s[1 + l..]) else TxtStrings(s[1..])
  {
  }

  lemma SubSlice(buf: Bytes, from: nat, to: nat, i: nat, j: nat)
    requires from <= to <= |buf| && i <= j <= to - from
    ensures buf[from..to][i..j] == buf[from + i..from + j]
    ensures j == to - from ==> buf[from..to][i..] == buf[from + i..to]
  {
    var part := buf[from..to];
    forall k | 0 <= k < j - i ensures part[i..j][k] == buf[from + i..from + j][k] {
      assert part[i + k] == buf[from + (i + k)];
    }
    assert part[i..j] == buf[from + i..from + j];
    if j == to - from { assert part[i..] == part[i..j]; }
  }

  method SkipQuestionSection(buf: Bytes, count: nat) returns (offset: nat)
    ensures offset == SkipQuestions(buf, 12, count)
  {
    hide Skip;
    offset := 12;
    var q := 0;
    while q < count && offset < |buf|
      invariant q <= count
      invariant SkipQuestions(buf, 12, count) == SkipQuestions(buf, offset, count - q)
    {
      offset := SkipDnsName(buf, offset);
      offset := offset + 4;
      q := q + 1;
    }
  }

  method WalkRecords(buf: Bytes, start: nat, total: nat) returns (g: Gathered)
    ensures g == Walk(buf, start, total, NOTHING)
  {
    hide Skip, Read16, TxtStrings;
    g := NOTHING;
    var offset: nat, r: nat := start, 0;
    while r < total && offset < |buf|
      invariant r <= total
      invariant Walk(buf, start, total, NOTHING) == Walk(buf, offset, total - r, g)
      decreases total - r
    {
      offset := SkipDnsName(buf, offset);
      if offset + 10 > |buf| {
        return;
      }
      var rtype, length := Read16(buf[offset..offset + 2]), Read16(buf[offset + 8..offset + 10]);
      offset := offset + 10;
      if offset + length > |buf| {
        return;
      }
      if rtype == 16 {
        var entries := ReadTxt(buf, offset, length);
        g := g.(txt := g.txt + entries);
      } else if rtype == 1 && length == 4 && g.address.None? {
        g := g.(address := Some(buf[offset..offset + length]));
      } else if rtype == 33 && length >= 6 {
        assert buf[offset + 4..offset + 6] == buf[offset..offset + length][4..6];
        var port := Read16(buf[offset + 4..offset + 6]);
        if port == 8009 || port == 8008 {
          g := g.(port := port);
        }
      }
      offset := offset + length;
      r := r + 1;
    }
  }

  /** The structured part of `ProcessMdnsResponse`, on arbitrary bytes. */
  method ProcessMdnsResponse(buf: Bytes) returns (found: Option<Gathered>)
    ensures found == Parse(buf)
  {
    if |buf| < 12 {
      return None;
    }
    if buf[2] < 0x80 {
      return None;
    }
    var offset := SkipQuestionSection(buf, Read16(buf[4..6]));
    var g := WalkRecords(buf, offset, Read16(buf[6..8]) + Read16(buf[8..10]) + Read16(buf[10..12]));
    found := Some(g);
  }

  /** Prints a PTR query into a caller's buffer. */
  method BuildQuery(labels: seq<Bytes>, qclass: uint16, out: array<uint8>) returns (offset: nat)
    requires (forall l :: l in labels ==> |l| <= 63) && |QueryBytes(labels, qclass)| <= out.Length
    modifies out
    ensures offset == |QueryBytes(labels, qclass)| && out[..offset] == QueryBytes(labels, qclass)
  {
    hide EncodeLabels, Be16;
    SizedBe16();
    offset := Append(out, 0, QUERY_HEADER);
    offset := AppendLabels(out, offset, labels);
    offset := Append(out, offset, [0] + Be16(12) + Be16(qclass));
    assert QueryBytes(labels, qclass) == QUERY_HEADER + EncodeLabels(labels) + ([0] + Be16(12) + Be16(qclass));
  }

  method AppendLabels(out: array<uint8>, at: nat, labels: seq<Bytes>) returns (offset: nat)
    requires (forall l :: l in labels ==> |l| <= 63) && at + |EncodeLabels(labels)| <= out.Length
    modifies out
    ensures offset == at + |EncodeLabels(labels)| && out[..offset] == old(out[..at]) + EncodeLabels(labels)
  {
    hide EncodeLabels;
    offset := at;
    ghost var was := out[..at];
    var i := 0;
    NoLabels();
    assert labels[..0] == [];
    while i < |labels|
      invariant 0 <= i <= |labels| && offset == at + |EncodeLabels(labels[..i])| <= out.Length
      invariant out[..offset] == was + EncodeLabels(labels[..i])
    {
      OneMoreLabel(labels, i);
      ghost var part := EncodeLabels(labels[..i]);
      offset := Append(out, offset, [|labels[i]|]);
      offset := Append(out, offset, labels[i]);
      assert was + part + [|labels[i]|] + labels[i] == was + (part + [|labels[i]|] + labels[i]);
      i := i + 1;
    }
    assert labels[..i] == labels;
  }

  lemma NoLabels()
    ensures EncodeLabels([]) == []
  {
  }

  lemma OneMoreLabel(labels: seq<Bytes>, i: nat)
    requires i < |labels| && forall l :: l in labels ==> |l| <= 63
    ensures EncodeLabels(labels[..i + 1]) == EncodeLabels(labels[..i]) + [|labels[i]|] + labels[i]
    ensures |EncodeLabels(labels[..i + 1])| <= |EncodeLabels(labels)|
  {
    assert labels[..i + 1] == labels[..i] + [labels[i]];
    LabelsSplit(labels[..i], [labels[i]]);
    assert EncodeLabels([labels[i]]) == [|labels[i]|] + labels[i] + EncodeLabels([]);
    assert labels == labels[..i + 1] + labels[i + 1..];
    LabelsSplit(labels[..i + 1], labels[i + 1..]);
  }

  method Append(out: array<uint8>, at: nat, part: Bytes) returns (end: nat)
    requires at + |part| <= out.Length
    modifies out
    ensures end == at + |part| && out[..end] == old(out[..at]) + part
  {
    forall k | 0 <= k < |part| { out[at + k] := part[k]; }
    end := at + |part|;
  }

  // ---------- TXT keys ----------

  const MAX_ENTRY := 255
  const MAX_KEY := 64

  function FindEquals(s: string, from: nat): (r: nat)
    requires from <= |s|
    ensures from <= r <= |s| && (forall k :: from <= k < r ==> s[k] != '=') && (r < |s| ==> s[r] == '=')
    decreases |s| - from
  {
    if from == |s| || s[from] == '=' then from else FindEquals(s, from + 1)
  }

  function KeyOf(entry: string): string { entry[..FindEquals(entry, 0)] }

  function ValueOf(entry: string): string {
    var eq := FindEquals(entry, 0);
    if eq == |entry| then "" else entry[eq + 1..]
  }

  /** Entries the TXT map takes notice of. */
  predicate Usable(entry: string) { |entry| <= 255 && 0 < |KeyOf(entry)| <= 64 }

  /** Exactly the keys of the first `n` usable entries are present. */
  ghost predicate KeysPresent(result: map<string, string>, entries: seq<string>, n: nat)
    requires n <= |entries|
  {
    forall k :: k in result <==> exists i :: 0 <= i < n && HasKey(entries[i], k)
  }

  predicate HasKey(entry: string, key: string) { Usable(entry) && KeyOf(entry) == key }

  /** A key maps to the value of its first usable entry. */
  ghost predicate FirstValues(result: map<string, string>, entries: seq<string>, n: nat)
    requires n <= |entries|
  {
    forall i, k :: 0 <= i < n && HasKey(entries[i], k) && First(entries, i, k) ==>
      k in result && result[k] == ValueOf(entries[i])
  }

  /** No entry before `i` has the key. */
  ghost predicate First(entries: seq<string>, i: nat, key: string)
    requires i <= |entries|
  {
    forall j :: 0 <= j < i ==> !HasKey(entries[j], key)
  }

  lemma EntryIgnored(result: map<string, string>, entries: seq<string>, n: nat)
    requires n < |entries| && KeysPresent(result, entries, n) && FirstValues(result, entries, n)
    requires forall k :: HasKey(entries[n], k) ==> k in result
    ensures KeysPresent(result, entries, n + 1) && FirstValues(result, entries, n + 1)
  {
    hide HasKey, ValueOf;
  }

  lemma EntryTaken(result: map<string, string>, entries: seq<string>, n: nat, key: string)
    requires n < |entries| && KeysPresent(result, entries, n) && FirstValues(result, entries, n)
    requires HasKey(entries[n], key) && (forall k :: HasKey(entries[n], k) ==> k == key) && key !in result
    ensures KeysPresent(result[key := ValueOf(entries[n])], entries, n + 1)
    ensures FirstValues(result[key := ValueOf(entries[n])], entries, n + 1)
  {
    hide HasKey, ValueOf;
  }

  lemma UsableHas(entry: string)
    ensures forall k :: HasKey(entry, k) <==> Usable(entry) && k == KeyOf(entry)
  {
  }

  method ParseTxtRecord(entries: seq<string>) returns (result: map<string, string>)
    ensures KeysPresent(result, entries, |entries|) && FirstValues(result, entries, |entries|)
  {
    hide FirstValues, KeysPresent, FindEquals, HasKey;
    result := map[];
    var n := 0;
    NoValues(entries);
    while n < |entries|
      invariant 0 <= n <= |entries| && KeysPresent(result, entries, n) && FirstValues(result, entries, n)
    {
      var entry := entries[n];
      UsableHas(entry);
      n := n + 1;
      if entry == "" || |entry| > MAX_ENTRY {
        EntryIgnored(result, entries, n - 1);
        continue;
      }
      var eq := FindEquals(entry, 0);
      if eq < |entry| {
        var key, val := entry[..eq], entry[eq + 1..];
        if key == "" || |key| > MAX_KEY || key in result {
          EntryIgnored(result, entries, n - 1);
          continue;
        }
        EntryTaken(result, entries, n - 1, key);
        result := result[key := val];
      } else {
        assert entry[..eq] == entry;
        if |entry| > MAX_KEY || entry in result {
          EntryIgnored(result, entries, n - 1);
          continue;
        }
        EntryTaken(result, entries, n - 1, entry);
        result := result[entry := ""];
      }
    }
  }

  lemma NoValues(entries: seq<string>)
    ensures KeysPresent(map[], entries, 0) && FirstValues(map[], entries, 0)
  {
  }
}
