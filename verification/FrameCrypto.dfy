/** Frame encryption: AES-CTR (section 6.5 of NIST SP 800-38A) with a counter block made from the stream's
    mask and the frame id. The block cipher itself is a parameter: `cipher(key, block, j)` is byte `j` of an
    encrypted block, and a block is its 128-bit big-endian number. */
module FrameCrypto {
  import opened Arithmetic

  type Byte = uint8

  type BlockCipher = (seq<Byte>, nat, nat) -> Byte

  const TWO128: nat := 0x1_0000_0000_0000_0000_0000_0000_0000_0000

  /** Bitwise exclusive or. */
  function XorBits(a: nat, b: nat): nat
    decreases a + b
  {
    if a == 0 && b == 0 then 0 else (a + b) % 2 + 2 * XorBits(a / 2, b / 2)
  }

  lemma {:induction false} XorFits(a: nat, b: nat, limit: nat)
    requires a < limit && b < limit && (limit == 1 || limit % 2 == 0)
    requires limit in {1, 2, 4, 8, 16, 32, 64, 128, 256}
    ensures XorBits(a, b) < limit
    decreases limit
  {
    if limit > 1 { XorFits(a / 2, b / 2, limit / 2); }
  }

  function Xor(a: Byte, b: Byte): Byte {
    XorFits(a, b, 256);
    XorBits(a, b)
  }

  lemma {:induction false} XorBitsTwice(a: nat, b: nat)
    ensures XorBits(XorBits(a, b), b) == a
    decreases a + b
  {
    hide XorBits;
    XorHalves(a, b);
    XorHalves(XorBits(a, b), b);
    if a > 0 || b > 0 { XorBitsTwice(a / 2, b / 2); } else { XorZeros(); }
  }

  lemma XorZeros()
    ensures XorBits(0, 0) == 0
  {
  }

  lemma XorHalves(a: nat, b: nat)
    ensures XorBits(a, b) / 2 == XorBits(a / 2, b / 2) && XorBits(a, b) % 2 == (a + b) % 2
  {
  }

  /** The big-endian number of a byte string. */
  function Value(s: seq<Byte>): nat {
    if s == [] then 0 else Value(s[..|s| - 1]) * 256 + s[|s| - 1]
  }

  /** Byte `k` of the nonce before masking: the frame id at offset 8, most significant byte first. */
  function IdByte(frameId: uint32, k: nat): Byte {
    if 8 <= k < 12 then BigEndian(frameId)[k - 8] else 0
  }

  function Nonce(mask: seq<Byte>, frameId: uint32): (n: seq<Byte>)
    requires |mask| == 16
    ensures |n| == 16
  {
    seq(16, k requires 0 <= k < 16 => Xor(IdByte(frameId, k), mask[k]))
  }

  /** Block `i` of a frame's counter sequence. */
  function Counter(mask: seq<Byte>, frameId: uint32, i: nat): nat
    requires |mask| == 16
  {
    (Value(Nonce(mask, frameId)) + i) % TWO128
  }

  /** The length the cipher call sees: a `size_t` cast to a signed `int`, nothing when not positive. */
  function CallLength(n: nat): nat {
    var low := n % TWO32;
    if low < 0x8000_0000 then low else 0
  }

  function KeystreamByte(cipher: BlockCipher, key: seq<Byte>, mask: seq<Byte>, frameId: uint32, k: nat): Byte
    requires |mask| == 16
  {
    cipher(key, Counter(mask, frameId, k / 16), k % 16)
  }

  /** The output vector starts as zeros; the cipher call overwrites its own length of it. */
  function Crypted(cipher: BlockCipher, key: seq<Byte>, mask: seq<Byte>, frameId: uint32, data: seq<Byte>): seq<Byte>
    requires |mask| == 16
  {
    seq(|data|, k requires 0 <= k < |data| =>
      if k < CallLength(|data|) then Xor(data[k], KeystreamByte(cipher, key, mask, frameId, k)) else 0)
  }

  function Zeroed(n: nat): seq<Byte> { seq(n, _ => 0) }

  class FrameCrypto {
    const cipher: BlockCipher
    const aesKey: seq<Byte>
    const castIvMask: seq<Byte>

    ghost predicate Valid() { |aesKey| == 16 && |castIvMask| == 16 }

    constructor (cipher: BlockCipher, key: seq<Byte>, mask: seq<Byte>)
      requires |key| == 16 && |mask| == 16
      ensures Valid() && this.cipher == cipher && aesKey == key && castIvMask == mask
    {
      this.cipher, aesKey, castIvMask := cipher, key, mask;
    }

    /** Fills the nonce with the frame id, then masks it in place. */
    method MaskedNonce(frameId: uint32) returns (nonce: array<Byte>)
      requires Valid()
      ensures nonce[..] == Nonce(castIvMask, frameId)
    {
      hide XorBits, BigEndian, Xor;
      nonce := new Byte[16](_ => 0);
      var id := BigEndian(frameId);
      nonce[8] := id[0];
      nonce[9] := id[1];
      nonce[10] := id[2];
      nonce[11] := id[3];
      var i := 0;
      while i < 16
        invariant 0 <= i <= 16
        invariant forall k :: 0 <= k < 16 ==>
                    nonce[k] == if k < i then Xor(IdByte(frameId, k), castIvMask[k]) else IdByte(frameId, k)
      {
        nonce[i] := Xor(nonce[i], castIvMask[i]);
        i := i + 1;
      }
    }

    /** Builds the nonce and runs the cipher over the data. `ctxOk` is whether a cipher context could be allocated;
        without one the zeroed output stays as it was. */
    method Crypt(frameId: uint32, data: seq<Byte>, ctxOk: bool) returns (out: seq<Byte>)
      requires Valid()
      ensures out == if ctxOk then Crypted(cipher, aesKey, castIvMask, frameId, data) else Zeroed(|data|)
    {
      hide Nonce, Value, Xor;
      if |data| == 0 {
        return [];
      }
      var nonce := MaskedNonce(frameId);
      if !ctxOk {
        return Zeroed(|data|);
      }
      var start, length, key, run := Value(nonce[..]), CallLength(|data|), aesKey, cipher;
      out := seq(|data|, k requires 0 <= k < |data| =>
        if k < length then Xor(data[k], run(key, (start + k / 16) % TWO128, k % 16)) else 0);
    }

    method Encrypt(frameId: uint32, plain: seq<Byte>, ctxOk: bool) returns (out: seq<Byte>)
      requires Valid()
      ensures out == if ctxOk then Crypted(cipher, aesKey, castIvMask, frameId, plain) else Zeroed(|plain|)
    {
      out := Crypt(frameId, plain, ctxOk);
    }

    /** What was encrypted under the same key, mask and frame id comes back when both calls got their context and
        the payload is below 2^31 bytes. */
    method Decrypt(frameId: uint32, data: seq<Byte>, ctxOk: bool) returns (out: seq<Byte>)
      requires Valid()
      ensures out == if ctxOk then Crypted(cipher, aesKey, castIvMask, frameId, data) else Zeroed(|data|)
      ensures ctxOk && |data| < 0x8000_0000 ==>
                forall plain :: data == Crypted(cipher, aesKey, castIvMask, frameId, plain) ==> out == plain
    {
      hide Crypted;
      out := Crypt(frameId, data, ctxOk);
      forall plain | ctxOk && |data| < 0x8000_0000 && data == Crypted(cipher, aesKey, castIvMask, frameId, plain)
        ensures out == plain
      {
        CryptedSize(cipher, aesKey, castIvMask, frameId, plain);
        DecryptInvertsIff(cipher, aesKey, castIvMask, frameId, plain);
      }
    }
  }

  lemma CryptedSize(cipher: BlockCipher, key: seq<Byte>, mask: seq<Byte>, frameId: uint32, data: seq<Byte>)
    requires |mask| == 16
    ensures |Crypted(cipher, key, mask, frameId, data)| == |data|
  {
  }

  // ---------- Inversion ----------

  lemma XorTwice(x: Byte, k: Byte)
    ensures Xor(Xor(x, k), k) == x
  {
    XorBitsTwice(x, k);
  }

  /** Decryption undoes encryption, for any block cipher, exactly when every byte past the length the cipher
      call sees is zero; below 2^31 bytes there is no such byte. */
  lemma DecryptInvertsIff(cipher: BlockCipher, key: seq<Byte>, mask: seq<Byte>, frameId: uint32, plain: seq<Byte>)
    requires |mask| == 16
    ensures Crypted(cipher, key, mask, frameId, Crypted(cipher, key, mask, frameId, plain)) == plain <==>
              forall k :: CallLength(|plain|) <= k < |plain| ==> plain[k] == 0
    ensures |plain| < 0x8000_0000 ==> CallLength(|plain|) == |plain|
  {
    var once := Crypted(cipher, key, mask, frameId, plain);
    var twice := Crypted(cipher, key, mask, frameId, once);
    forall k | 0 <= k < CallLength(|plain|) && k < |plain| ensures twice[k] == plain[k] {
      XorTwice(plain[k], KeystreamByte(cipher, key, mask, frameId, k));
    }
    if forall k :: CallLength(|plain|) <= k < |plain| ==> plain[k] == 0 {
      assert twice == plain;
    }
  }

  // ---------- Counter uniqueness ----------

  lemma Value4(t: seq<Byte>)
    requires |t| == 4
    ensures var a: int, b: int, c: int, d: int := t[0], t[1], t[2], t[3];
            Value(t) == ((a * 256 + b) * 256 + c) * 256 + d < TWO32
  {
    assert t[..3][..2] == t[..2] && t[..2][..1] == t[..1] && t[..1][..0] == [];
    assert Value(t[..1]) == t[0] && Value(t[..2]) == Value(t[..1]) * 256 + t[1];
    assert Value(t[..3]) == Value(t[..2]) * 256 + t[2];
  }

  /** Four more bytes shift a number by 32 bits. */
  lemma ValueSplit(s: seq<Byte>, t: seq<Byte>)
    requires |t| == 4
    ensures Value(s + t) == Value(s) * TWO32 + Value(t)
  {
    Value4(t);
    var u := s + t;
    var n := |u|;
    assert u[..n - 1][..n - 2] == u[..n - 2] && u[..n - 2][..n - 3] == u[..n - 3] &&
           u[..n - 3][..n - 4] == u[..n - 4] == s;
    assert u[n - 1] == t[3] && u[..n - 1][n - 2] == t[2] && u[..n - 2][n - 3] == t[1] && u[..n - 3][n - 4] == t[0];
    assert Value(u) == Value(u[..n - 1]) * 256 + t[3];
    assert Value(u[..n - 1]) == Value(u[..n - 2]) * 256 + t[2];
    assert Value(u[..n - 2]) == Value(u[..n - 3]) * 256 + t[1];
    assert Value(u[..n - 3]) == Value(s) * 256 + t[0];
  }

  lemma {:induction false} ValueInjective(s: seq<Byte>, t: seq<Byte>)
    requires |s| == |t| && Value(s) == Value(t)
    ensures s == t
  {
    if s != [] {
      var n := |s| - 1;
      ValueInjective(s[..n], t[..n]);
      assert s == s[..n] + [s[n]] && t == t[..n] + [t[n]];
    }
  }

  lemma XorInjective(a: Byte, b: Byte, m: Byte)
    requires Xor(a, m) == Xor(b, m)
    ensures a == b
  {
    XorTwice(a, m);
    XorTwice(b, m);
  }

  /** Frames with equal nonces have equal ids. */
  lemma NonceInjective(mask: seq<Byte>, f: uint32, g: uint32)
    requires |mask| == 16 && Nonce(mask, f)[8..12] == Nonce(mask, g)[8..12]
    ensures f == g
  {
    hide XorBits, BigEndian;
    var a, b := Nonce(mask, f), Nonce(mask, g);
    forall k | 0 <= k < 4 ensures BigEndian(f)[k] == BigEndian(g)[k] {
      assert a[8..12][k] == a[k + 8] && b[8..12][k] == b[k + 8];
      XorInjective(BigEndian(f)[k], BigEndian(g)[k], mask[k + 8]);
    }
    assert BigEndian(f) == BigEndian(g);
    BigEndianRoundTrip(f);
    BigEndianRoundTrip(g);
  }

  /** A nonce as three parts: unmasked high half, masked id, unmasked low word. */
  lemma NonceParts(mask: seq<Byte>, f: uint32)
    requires |mask| == 16
    ensures Value(Nonce(mask, f)) ==
              (Value(mask[..8]) * TWO32 + Value(Nonce(mask, f)[8..12])) * TWO32 + Value(mask[12..])
    ensures Value(Nonce(mask, f)[8..12]) < TWO32
  {
    hide Xor, Value, BigEndian;
    var n := Nonce(mask, f);
    forall k | 0 <= k < 8 || 12 <= k < 16 ensures n[k] == mask[k] { XorZero(mask[k]); }
    assert n[..8] == mask[..8] && n[12..] == mask[12..];
    assert n == (n[..8] + n[8..12]) + n[12..];
    ValueSplit(n[..8], n[8..12]);
    ValueSplit(n[..8] + n[8..12], n[12..]);
    Value4(n[8..12]);
  }

  lemma XorZero(m: Byte)
    ensures Xor(0, m) == m
  {
    ZeroXorBits(m);
  }

  lemma {:induction false} ZeroXorBits(m: nat)
    ensures XorBits(0, m) == m
  {
    if m > 0 { ZeroXorBits(m / 2); }
  }

  const MAX_BLOCKS: nat := 0x800_0000

  /** Under one mask no two counter blocks of frames below 2^31 bytes coincide: neither blocks of different
      frames nor different blocks of one frame. */
  lemma CountersDistinct(mask: seq<Byte>, f: uint32, i: nat, g: uint32, j: nat)
    requires |mask| == 16 && i < MAX_BLOCKS && j < MAX_BLOCKS && (f != g || i != j)
    ensures Counter(mask, f, i) != Counter(mask, g, j)
  {
    hide Nonce, Value;
    NonceParts(mask, f);
    NonceParts(mask, g);
    var a, b := Value(Nonce(mask, f)[8..12]), Value(Nonce(mask, g)[8..12]);
    var v, w := Value(Nonce(mask, f)) + i, Value(Nonce(mask, g)) + j;
    assert v - w == (a - b) * TWO32 + (i - j);
    if f != g && a == b {
      ValueInjective(Nonce(mask, f)[8..12], Nonce(mask, g)[8..12]);
      NonceInjective(mask, f, g);
      assert false;
    }
    assert v != w && Abs(v - w) < TWO128;
    if v % TWO128 == w % TWO128 { CongruentApart(v, w); }
  }

  lemma CongruentApart(v: nat, w: nat)
    requires v % TWO128 == w % TWO128 && Abs(v - w) < TWO128
    ensures v == w
  {
    assert v == v / TWO128 * TWO128 + v % TWO128 && w == w / TWO128 * TWO128 + w % TWO128;
  }

  // ---------- The key stream ----------

  /** Data of at most one block, xored with the encryption of a counter. */
  function XorBlock(cipher: BlockCipher, key: seq<Byte>, counter: nat, data: seq<Byte>): seq<Byte> {
    seq<Byte>(|data|, j requires 0 <= j < |data| => Xor(data[j], cipher(key, counter, j)))
  }

  /** Counter mode as section 6.5 of NIST SP 800-38A writes it: each block of 16 bytes is xored with the encryption of
      the running counter, the last one with as much of it as there is data. */
  function CounterMode(cipher: BlockCipher, key: seq<Byte>, counter: nat, data: seq<Byte>): seq<Byte>
    decreases |data|
  {
    if |data| <= 16 then XorBlock(cipher, key, counter, data)
    else XorBlock(cipher, key, counter, data[..16]) + CounterMode(cipher, key, (counter + 1) % TWO128, data[16..])
  }

  lemma {:induction false} CounterModeAt(cipher: BlockCipher, key: seq<Byte>, counter: nat, data: seq<Byte>, k: nat)
    requires k < |data| && counter < TWO128
    ensures |CounterMode(cipher, key, counter, data)| == |data|
    ensures CounterMode(cipher, key, counter, data)[k] ==
              Xor(data[k], cipher(key, (counter + k / 16) % TWO128, k % 16))
    decreases |data|
  {
    hide Xor;
    if |data| > 16 {
      var next, rest := (counter + 1) % TWO128, data[16..];
      if k >= 16 {
        CounterModeAt(cipher, key, next, rest, k - 16);
        NextBlock(counter, k);
      } else {
        CounterModeAt(cipher, key, next, rest, 0);
      }
    }
  }

  lemma NextBlock(counter: nat, k: nat)
    requires k >= 16 && counter < TWO128
    ensures ((counter + 1) % TWO128 + (k - 16) / 16) % TWO128 == (counter + k / 16) % TWO128 && (k - 16) % 16 == k % 16
  {
    var i := (k - 16) / 16;
    assert k / 16 == i + 1;
    if counter + 1 == TWO128 { WrapOnce(i); }
  }

  lemma WrapOnce(i: nat)
    ensures (TWO128 + i) % TWO128 == i % TWO128
  {
  }

  /** The nonce without its mask is the frame id, 32 bits up from the end. */
  lemma NonceUnmasked(mask: seq<Byte>, frameId: uint32)
    requires |mask| == 16
    ensures Value(seq(16, k requires 0 <= k < 16 => Xor(Nonce(mask, frameId)[k], mask[k]))) == frameId * TWO32
  {
    hide Xor, Value, BigEndian, Nonce;
    var plain := seq(16, k requires 0 <= k < 16 => IdByte(frameId, k));
    var s := seq(16, k requires 0 <= k < 16 => Xor(Nonce(mask, frameId)[k], mask[k]));
    forall k | 0 <= k < 16 ensures s[k] == plain[k] {
      NonceAt(mask, frameId, k);
      XorTwice(IdByte(frameId, k), mask[k]);
    }
    assert s == plain;
    ZeroBytes(plain[..8], 8);
    ZeroBytes(plain[12..], 4);
    assert plain[8..12] == BigEndian(frameId);
    assert plain == (plain[..8] + plain[8..12]) + plain[12..];
    ValueSplit(plain[..8], plain[8..12]);
    ValueSplit(plain[..8] + plain[8..12], plain[12..]);
    BigEndianIsValue(frameId);
  }

  lemma NonceAt(mask: seq<Byte>, frameId: uint32, k: nat)
    requires |mask| == 16 && k < 16
    ensures Nonce(mask, frameId)[k] == Xor(IdByte(frameId, k), mask[k])
  {
    hide Xor;
  }

  lemma {:induction false} ZeroBytes(s: seq<Byte>, n: nat)
    requires |s| == n && forall k :: 0 <= k < n ==> s[k] == 0
    ensures Value(s) == 0
  {
    if n > 0 { ZeroBytes(s[..n - 1], n - 1); }
  }

  /** The four bytes of a word, read as a number with the first byte worth most, are the word. */
  lemma BigEndianIsValue(x: uint32)
    ensures Value(BigEndian(x)) == x
  {
    Value4(BigEndian(x));
    BigEndianRoundTrip(x);
  }

  /** Encryption is counter mode from the nonce, for every cipher, key, mask and frame below 2^31 bytes. */
  lemma CryptedIsCounterMode(cipher: BlockCipher, key: seq<Byte>, mask: seq<Byte>, frameId: uint32, data: seq<Byte>)
    requires |mask| == 16 && |data| < 0x8000_0000
    ensures Crypted(cipher, key, mask, frameId, data) == CounterMode(cipher, key, Value(Nonce(mask, frameId)), data)
  {
    var nonce := Value(Nonce(mask, frameId));
    NonceFits(mask, frameId);
    var a, b := Crypted(cipher, key, mask, frameId, data), CounterMode(cipher, key, nonce, data);
    if data == [] {
      assert a == b;
    } else {
      CounterModeAt(cipher, key, nonce, data, 0);
      forall k | 0 <= k < |data| ensures a[k] == b[k] {
        CounterModeAt(cipher, key, nonce, data, k);
        CryptedAt(cipher, key, mask, frameId, data, k);
      }
    }
  }

  lemma NonceFits(mask: seq<Byte>, frameId: uint32)
    requires |mask| == 16
    ensures Value(Nonce(mask, frameId)) < TWO128
  {
    hide Nonce;
    ValueBound(Nonce(mask, frameId)[..8]);
    ValueBound(mask[..8]);
    NonceParts(mask, frameId);
    Value4(mask[12..]);
  }

  lemma ValueBound(s: seq<Byte>)
    requires |s| == 8
    ensures Value(s) < TWO32 * TWO32
  {
    hide Value;
    assert s == s[..4] + s[4..];
    ValueSplit(s[..4], s[4..]);
    Value4(s[..4]);
    Value4(s[4..]);
  }

  lemma CryptedAt(cipher: BlockCipher, key: seq<Byte>, mask: seq<Byte>, frameId: uint32, data: seq<Byte>, k: nat)
    requires |mask| == 16 && |data| < 0x8000_0000 && k < |data|
    ensures Crypted(cipher, key, mask, frameId, data)[k] ==
              Xor(data[k], cipher(key, (Value(Nonce(mask, frameId)) + k / 16) % TWO128, k % 16))
  {
    hide Nonce, Value, Xor;
  }

  /** The cipher whose one nonzero output byte is that of one key, block and position. */
  function Marking(key: seq<Byte>, block: nat, at: nat): BlockCipher {
    (k: seq<Byte>, b: nat, j: nat) => if k == key && b == block && j == at then 1 else 0
  }

  lemma MarkShows()
    ensures Xor(0, 1) != Xor(0, 0)
  {
    XorZero(1);
    XorZero(0);
  }

  /** No two bytes of any two frames, or of one, are encrypted under the same key stream byte: some cipher encrypts a
      zero differently at the two places. */
  lemma KeystreamNotShared(key: seq<Byte>, mask: seq<Byte>, f: uint32, n: nat, k: nat, g: uint32, m: nat, j: nat)
    requires |mask| == 16 && k < n < 0x8000_0000 && j < m < 0x8000_0000 && (f != g || k != j)
    ensures exists cipher: BlockCipher ::
              Crypted(cipher, key, mask, f, Zeroed(n))[k] != Crypted(cipher, key, mask, g, Zeroed(m))[j]
  {
    hide Nonce, Value, Xor;
    var cipher := Marking(key, Counter(mask, f, k / 16), k % 16);
    if f != g || k / 16 != j / 16 { CountersDistinct(mask, f, k / 16, g, j / 16); }
    CryptedAt(cipher, key, mask, f, Zeroed(n), k);
    CryptedAt(cipher, key, mask, g, Zeroed(m), j);
    MarkShows();
    assert Crypted(cipher, key, mask, f, Zeroed(n))[k] != Crypted(cipher, key, mask, g, Zeroed(m))[j];
  }

  // ---------- A session's audio keys ----------

  /** A negotiation makes new keys and its media start resets the encoder's frame ids; each encoded audio
      frame of `length` bytes is encrypted under the next id, whether or not it is then sent. */
  datatype Event = Negotiated(key: seq<Byte>, mask: seq<Byte>) | Encrypted(length: nat)

  datatype Use = Use(negotiation: nat, key: seq<Byte>, mask: seq<Byte>, frameId: nat, length: nat)

  /** Negotiations so far, the current key and mask, the encoder's next id, and every encryption. */
  datatype Session = Session(negotiations: nat, key: seq<Byte>, mask: seq<Byte>, nextId: nat, uses: seq<Use>)

  function Run(es: seq<Event>): Session {
    if es == [] then Session(0, [], [], 0, [])
    else
      var s := Run(es[..|es| - 1]);
      match es[|es| - 1]
      case Negotiated(key, mask) => Session(s.negotiations + 1, key, mask, 0, s.uses)
      case Encrypted(length) =>
        if s.negotiations == 0 then s
        else s.(nextId := s.nextId + 1, uses := s.uses + [Use(s.negotiations, s.key, s.mask, s.nextId, length)])
  }

  /** Every negotiation draws a key not drawn before, and masks are 16 bytes. */
  predicate Fresh(es: seq<Event>) {
    && (forall i, j :: 0 <= i < j < |es| && es[i].Negotiated? && es[j].Negotiated? ==> es[i].key != es[j].key)
    && (forall i :: 0 <= i < |es| && es[i].Negotiated? ==> |es[i].mask| == 16)
  }

  /** Uses belong to past negotiations, and within one they are numbered upward below the next id. */
  ghost predicate Numbered(s: Session, es: seq<Event>) {
    && s.nextId <= |es| && (s.negotiations > 0 ==> |s.mask| == 16 && Negotiated(s.key, s.mask) in es)
    && (forall u :: u in s.uses ==>
          && 0 < u.negotiation <= s.negotiations && |u.mask| == 16 && u.frameId < |es|
          && Negotiated(u.key, u.mask) in es
          && (u.negotiation < s.negotiations ==> u.key != s.key)
          && (u.negotiation == s.negotiations ==> u.key == s.key && u.mask == s.mask && u.frameId < s.nextId))
    && (forall i, j :: 0 <= i < j < |s.uses| ==>
          (s.uses[i].key == s.uses[j].key <==> s.uses[i].negotiation == s.uses[j].negotiation) &&
          (s.uses[i].key == s.uses[j].key ==>
             s.uses[i].mask == s.uses[j].mask && s.uses[i].frameId < s.uses[j].frameId))
  }

  lemma {:induction false} RunNumbered(es: seq<Event>)
    requires Fresh(es)
    ensures Numbered(Run(es), es)
  {
    if es != [] {
      var init, e := es[..|es| - 1], es[|es| - 1];
      assert Fresh(init);
      RunNumbered(init);
      assert es == init + [e];
    }
  }

  /** In a session no audio counter block is used twice under one key: a key is fresh per negotiation,
      and within one the frame ids, and so the counter blocks, differ. */
  lemma NoCounterReuse(es: seq<Event>, i: nat, j: nat, bi: nat, bj: nat)
    requires Fresh(es) && |es| <= TWO32 && i < |Run(es).uses| && j < |Run(es).uses| && (i != j || bi != bj)
    requires var u, w := Run(es).uses[i], Run(es).uses[j];
             u.length < 0x8000_0000 && w.length < 0x8000_0000 && bi * 16 < u.length && bj * 16 < w.length
    ensures var u, w := Run(es).uses[i], Run(es).uses[j];
            && |u.mask| == |w.mask| == 16 && u.frameId < TWO32 && w.frameId < TWO32
            && (u.key == w.key ==> Counter(u.mask, u.frameId, bi) != Counter(w.mask, w.frameId, bj))
  {
    hide Run, Counter;
    RunNumbered(es);
    var u, w := Run(es).uses[i], Run(es).uses[j];
    assert u in Run(es).uses && w in Run(es).uses;
    if u.key == w.key {
      CountersDistinct(u.mask, u.frameId, bi, w.frameId, bj);
    }
  }

  /** So over a session no two audio bytes sent, in whatever frames and negotiations, are encrypted under the same key
      stream byte. */
  lemma NoKeystreamReuse(es: seq<Event>, i: nat, k: nat, j: nat, l: nat)
    requires Fresh(es) && |es| <= TWO32 && i < |Run(es).uses| && j < |Run(es).uses| && (i != j || k != l)
    requires var u, w := Run(es).uses[i], Run(es).uses[j];
             k < u.length < 0x8000_0000 && l < w.length < 0x8000_0000
    ensures var u, w := Run(es).uses[i], Run(es).uses[j];
            && |u.mask| == |w.mask| == 16 && u.frameId < TWO32 && w.frameId < TWO32
            && exists cipher: BlockCipher ::
                 Crypted(cipher, u.key, u.mask, u.frameId, Zeroed(u.length))[k] !=
                 Crypted(cipher, w.key, w.mask, w.frameId, Zeroed(w.length))[l]
  {
    hide Run, Counter, Crypted, Numbered, Xor, Value, Nonce;
    RunNumbered(es);
    UsesNumbered(Run(es), es, i, j);
    var u, w := Run(es).uses[i], Run(es).uses[j];
    if u.key == w.key {
      KeystreamNotShared(u.key, u.mask, u.frameId, u.length, k, w.frameId, w.length, l);
    } else {
      OtherKeys(u, w, k, l);
    }
  }

  lemma UsesNumbered(s: Session, es: seq<Event>, i: nat, j: nat)
    requires Numbered(s, es) && i < |s.uses| && j < |s.uses| && |es| <= TWO32
    ensures var u, w := s.uses[i], s.uses[j];
            && |u.mask| == |w.mask| == 16 && u.frameId < TWO32 && w.frameId < TWO32
            && (u.key == w.key ==> u.mask == w.mask && (i != j ==> u.frameId != w.frameId))
  {
    assert s.uses[i] in s.uses && s.uses[j] in s.uses;
  }

  lemma OtherKeys(u: Use, w: Use, k: nat, l: nat)
    requires |u.mask| == |w.mask| == 16 && u.frameId < TWO32 && w.frameId < TWO32 && u.key != w.key
    requires k < u.length < 0x8000_0000 && l < w.length < 0x8000_0000
    ensures exists cipher: BlockCipher ::
              Crypted(cipher, u.key, u.mask, u.frameId, Zeroed(u.length))[k] !=
              Crypted(cipher, w.key, w.mask, w.frameId, Zeroed(w.length))[l]
  {
    hide Nonce, Value, Xor;
    var cipher := Marking(u.key, Counter(u.mask, u.frameId, k / 16), k % 16);
    CryptedAt(cipher, u.key, u.mask, u.frameId, Zeroed(u.length), k);
    CryptedAt(cipher, w.key, w.mask, w.frameId, Zeroed(w.length), l);
    MarkShows();
    assert Crypted(cipher, u.key, u.mask, u.frameId, Zeroed(u.length))[k] !=
           Crypted(cipher, w.key, w.mask, w.frameId, Zeroed(w.length))[l];
  }
}
