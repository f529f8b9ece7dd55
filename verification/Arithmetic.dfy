/** Machine arithmetic shared by the models: C++ integer division, 32-bit wrap-around,
    clamping, and big-endian words. */
module Arithmetic {

  const TWO32: int := 0x1_0000_0000

  type uint32 = x: int | 0 <= x < TWO32
  type uint16 = x: int | 0 <= x < 0x1_0000
  type uint8 = x: int | 0 <= x < 0x100

  datatype Option<+T> = None | Some(value: T)

  function Min(a: int, b: int): int { if a < b then a else b }

  function Max(a: int, b: int): int { if a < b then b else a }

  function Clamp(x: int, low: int, high: int): int { if x < low then low else if high < x then high else x }

  function MinR(a: real, b: real): real { if a < b then a else b }

  function AbsR(x: real): real { if x < 0.0 then -x else x }

  function Abs(x: int): nat { if x < 0 then -x else x }

  /** Clears the lowest bit, as `x & ~1` does on a two's complement integer. */
  function Even(x: int): int { x - x % 2 }

  /** C++ integer division truncates toward zero; Dafny's `/` rounds down for a positive divisor. */
  function TruncDiv(a: int, b: int): (q: int)
    requires b > 0
    ensures a >= 0 ==> 0 <= q && q * b <= a < (q + 1) * b
    ensures a < 0 ==> q <= 0 && (q - 1) * b < a <= q * b
  {
    DivLaw(Abs(a), b);
    if a >= 0 then a / b else -((-a) / b)
  }

  lemma DivLaw(n: int, d: int)
    requires n >= 0 && d > 0
    ensures n / d >= 0 && n / d * d <= n < (n / d + 1) * d && (-(n / d) - 1) * d < -n <= -(n / d) * d
  {
    var q := n / d;
    assert n == q * d + n % d;
    assert (q + 1) * d == q * d + d && -q * d == -(q * d) && (-q - 1) * d == -(q * d) - d;
  }

  /** Keeps the low 32 bits, as a conversion to `uint32_t` does. */
  function ToU32(x: int): uint32 { x % TWO32 }

  /** Wrapping before an addition makes no difference to the wrapped sum. */
  lemma WrapAdds(a: int, b: int)
    ensures ToU32(ToU32(a) + ToU32(b)) == ToU32(a + b)
  {
    var q, r := a / TWO32, b / TWO32;
    assert a + b == (q + r) * TWO32 + (ToU32(a) + ToU32(b));
    WrapShifts(ToU32(a) + ToU32(b), q + r);
  }

  lemma WrapShifts(x: int, k: int)
    ensures ToU32(x + k * TWO32) == ToU32(x)
  {
  }

  /** The four bytes of a 32-bit word, most significant first. */
  function BigEndian(x: uint32): (b: seq<uint8>)
    ensures |b| == 4
  {
    [x / 0x100_0000, x / 0x1_0000 % 0x100, x / 0x100 % 0x100, x % 0x100]
  }

  /** Reads four bytes as a 32-bit word, most significant first. */
  function ReadBigEndian(b: seq<uint8>): uint32
    requires |b| == 4
  {
    var b0: int, b1: int, b2: int, b3: int := b[0], b[1], b[2], b[3];
    b0 * 0x100_0000 + b1 * 0x1_0000 + b2 * 0x100 + b3
  }

  lemma BigEndianRoundTrip(x: uint32)
    ensures ReadBigEndian(BigEndian(x)) == x
  {
    var hi, lo := x / 0x1_0000, x % 0x1_0000;
    assert x / 0x100_0000 == hi / 0x100;
    assert x / 0x100 % 0x100 == lo / 0x100;
    assert x % 0x100 == lo % 0x100;
  }

  // ---------- Exponential averages ----------

  function Power(base: real, n: nat): real { if n == 0 then 1.0 else base * Power(base, n - 1) }

  lemma PowerStep(base: real, n: nat)
    ensures Power(base, n) == if n == 0 then 1.0 else base * Power(base, n - 1)
  {
  }

  lemma ScaledAbs(p: real, d: real)
    requires p > 0.0
    ensures AbsR(-(p * d)) == p * AbsR(d)
  {
    if d < 0.0 { assert p * d < 0.0; }
    if d > 0.0 { assert p * d > 0.0; }
  }

  /** One steady sample `x` more, with jitter `j` where one is reported, for averages `p` and `q` powers from their
      start. */
  lemma SteadyStep(rtt: real, jitter: real, rtt0: real, jitter0: real, p: real, q: real, x: real, j: real)
    requires p > 0.0 && rtt - x == p * (rtt0 - x)
    ensures 0.8 * (rtt - x) == (0.8 * p) * (rtt0 - x)
    ensures jitter - j == q * (jitter0 - j) ==> 0.9 * jitter + 0.1 * j - j == (0.9 * q) * (jitter0 - j)
    ensures jitter == q * jitter0 + (q - p) * AbsR(rtt0 - x) ==>
              0.9 * jitter + 0.1 * AbsR(x - rtt) == (0.9 * q) * jitter0 + (0.9 * q - 0.8 * p) * AbsR(rtt0 - x)
  {
    ScaledAbs(p, rtt0 - x);
    assert x - rtt == -(p * (rtt0 - x));
    hide AbsR;
    var d := AbsR(rtt0 - x);
    assert AbsR(x - rtt) == p * d;
    Distribute(q, jitter0, p, d);
  }

  lemma Distribute(q: real, a: real, p: real, d: real)
    ensures 0.9 * (q * a + (q - p) * d) + 0.1 * (p * d) == (0.9 * q) * a + (0.9 * q - 0.8 * p) * d
  {
  }
}
