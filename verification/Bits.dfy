/** Machine integers, powers of two and the bit operations the byte formats use. */
module Bits {
  type Byte = n: int | 0 <= n < 0x100
  type U16 = n: int | 0 <= n < 0x1_0000
  type U32 = n: int | 0 <= n < 0x1_0000_0000
  type I32 = n: int | -0x8000_0000 <= n < 0x8000_0000
  type U64 = n: int | 0 <= n < 0x1_0000_0000_0000_0000

  const TWO_32 := 0x1_0000_0000
  const TWO_64 := 0x1_0000_0000_0000_0000

  datatype Option<+T> = None | Some(value: T)

  function Pow2(k: nat): (p: nat)
    ensures p >= 1
  {
    if k == 0 then 1 else 2 * Pow2(k - 1)
  }

  lemma Pow2Add(a: nat, b: nat)
    ensures Pow2(a + b) == Pow2(a) * Pow2(b)
  {
    if b != 0 {
      Pow2Add(a, b - 1);
    }
  }

  lemma Pow2Seven(k: nat)
    ensures Pow2(k + 7) == 128 * Pow2(k)
  {
    hide Or;
    Pow2Add(k, 7);
    assert Pow2(7) == 128;
  }

  lemma Pow2Monotone(a: nat, b: nat)
    requires a <= b
    ensures Pow2(a) <= Pow2(b)
  {
    if a < b {
      Pow2Monotone(a, b - 1);
    }
  }

  /** Bitwise or, bit by bit. */
  function Or(a: nat, b: nat): (r: nat)
    decreases a + b
  {
    if a == 0 && b == 0 then 0
    else (if a % 2 == 1 || b % 2 == 1 then 1 else 0) + 2 * Or(a / 2, b / 2)
  }

  lemma {:induction false} OrZero(b: nat)
    ensures Or(0, b) == b
  {
    if b == 0 {
    } else {
      OrZero(b / 2);
    }
  }

  /** Or-ing a group into bits that are still zero adds it: why an accumulating varint loop adds up. */
  lemma {:induction false} OrDisjoint(a: nat, c: nat, k: nat)
    requires a < Pow2(k)
    ensures Or(a, c * Pow2(k)) == a + c * Pow2(k)
  {
    if k == 0 {
      OrZero(c);
    } else {
      assert a / 2 < Pow2(k - 1) && c * Pow2(k) == 2 * (c * Pow2(k - 1));
      OrDisjoint(a / 2, c, k - 1);
      hide Pow2;
      OrEven(a, c * Pow2(k - 1));
    }
  }

  lemma OrEven(a: nat, h: nat)
    ensures Or(a, 2 * h) == a % 2 + 2 * Or(a / 2, h)
  {
  }

  /** The four bytes of `v`, least significant first. */
  function Le32(v: U32): (s: seq<Byte>)
    ensures |s| == 4
  {
    [v % 0x100, v / 0x100 % 0x100, v / 0x1_0000 % 0x100, v / 0x100_0000]
  }

  function FromLe32(s: seq<Byte>): U32
    requires |s| == 4
  {
    var a: int, b: int, c: int, d: int := s[0], s[1], s[2], s[3];
    a + 0x100 * b + 0x1_0000 * c + 0x100_0000 * d
  }

  lemma Le32RoundTrip(v: U32)
    ensures FromLe32(Le32(v)) == v
  {
    var hi := v / 0x1_0000;
    assert hi / 0x100 == v / 0x100_0000;
  }

  /** Byte `k` of the four has the weight 256^k. */
  lemma LeastFirst(s: seq<Byte>)
    requires |s| == 4
    ensures s[0] == FromLe32(s) % 256 && s[1] == FromLe32(s) / 0x100 % 256
    ensures s[2] == FromLe32(s) / 0x1_0000 % 256 && s[3] == FromLe32(s) / 0x100_0000
  {
    var v, b: int, c: int, d: int := FromLe32(s), s[1], s[2], s[3];
    assert v / 0x100 == b + 0x100 * c + 0x1_0000 * d;
    assert v / 0x1_0000 == c + 0x100 * d;
  }

  function Le64(v: U64): (s: seq<Byte>)
    ensures |s| == 8
  {
    Le32(v % TWO_32) + Le32(v / TWO_32)
  }

  function FromLe64(s: seq<Byte>): U64
    requires |s| == 8
  {
    FromLe32(s[..4]) + TWO_32 * FromLe32(s[4..])
  }

  lemma Le64RoundTrip(v: U64)
    ensures FromLe64(Le64(v)) == v
  {
    var lo, hi := Le32(v % TWO_32), Le32(v / TWO_32);
    assert Le64(v)[..4] == lo && Le64(v)[4..] == hi;
    hide Le32, FromLe32;
    Le32RoundTrip(v % TWO_32);
    Le32RoundTrip(v / TWO_32);
  }

  lemma Distribute(a: nat, b: nat, c: nat)
    ensures (a + b) * c == a * c + b * c
  {
  }

  lemma MulMonotone(a: nat, b: nat, c: nat)
    requires a <= b
    ensures a * c <= b * c
  {
  }

  lemma DivModUnique(v: nat, d: nat, q: nat, r: nat)
    requires d > 0 && v == q * d + r && r < d
    ensures v / d == q && v % d == r
  {
    var e, f := v / d, v % d;
    assert e * d + f == q * d + r;
    if e < q {
      MulMonotone(e + 1, q, d);
      Distribute(e, 1, d);
    }
    if q < e {
      MulMonotone(q + 1, e, d);
      Distribute(q, 1, d);
    }
  }

  /** The byte of an ASCII character. */
  function Code(c: char): Byte {
    if c < 128 as char then c as int else 63
  }

  /** The bytes of an ASCII text. */
  function Ascii(s: string): (b: seq<Byte>)
    ensures |b| == |s|
  {
    seq(|s|, i requires 0 <= i < |s| => Code(s[i]))
  }
}
