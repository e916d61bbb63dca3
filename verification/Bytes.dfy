/** Wire bytes and the fixed-width integers the parsers and builders exchange with them. */
module Bytes {
  type byte = x: int | 0 <= x < 0x100
  type u16 = x: int | 0 <= x < 0x1_0000
  type u32 = x: int | 0 <= x < 0x1_0000_0000
  type i32 = x: int | -0x8000_0000 <= x < 0x8000_0000

  /** The big-endian 16-bit field at offset i. */
  function U16(b: seq<byte>, i: nat): u16
    requires i + 2 <= |b|
  {
    var hi: int, lo: int := b[i], b[i + 1];
    hi * 0x100 + lo
  }

  /** The big-endian 32-bit field at offset i. */
  function U32(b: seq<byte>, i: nat): u32
    requires i + 4 <= |b|
  {
    var hi: int, lo: int := U16(b, i), U16(b, i + 2);
    hi * 0x1_0000 + lo
  }

  function Put16(v: u16): (r: seq<byte>)
    ensures |r| == 2
  {
    [v / 0x100, v % 0x100]
  }

  function Put32(v: u32): (r: seq<byte>)
    ensures |r| == 4
  {
    Put16(v / 0x1_0000) + Put16(v % 0x1_0000)
  }

  function Reverse4(b: seq<byte>): (r: seq<byte>)
    requires |b| == 4
    ensures |r| == 4
  {
    [b[3], b[2], b[1], b[0]]
  }

  /** The int32 whose two's-complement bit pattern is v. */
  function Signed32(v: u32): i32 {
    if v < 0x8000_0000 then v else v - 0x1_0000_0000
  }

  function Unsigned32(v: i32): u32 {
    if v >= 0 then v else v + 0x1_0000_0000
  }

  /** Bitwise AND of two naturals. */
  function And(a: nat, b: nat): (r: nat)
    ensures r <= a
  {
    if a == 0 || b == 0 then 0
    else (if a % 2 == 1 && b % 2 == 1 then 1 else 0) + 2 * And(a / 2, b / 2)
  }

  function Pow2(n: nat): (r: nat)
    ensures r >= 1
  {
    if n == 0 then 1 else 2 * Pow2(n - 1)
  }

  /** Masking with 2^n - 1 keeps the low n bits. */
  lemma {:induction false} AndLowBits(a: nat, n: nat) returns (q: nat)
    ensures a == Pow2(n) * q + And(a, Pow2(n) - 1) && And(a, Pow2(n) - 1) < Pow2(n)
  {
    if n == 0 {
      q := a;
    } else {
      var p := Pow2(n - 1);
      q := AndLowBits(a / 2, n - 1);
      AndOddMask(a, p - 1);
      DoubleProduct(p, q);
    }
  }

  lemma DoubleProduct(p: int, q: int)
    ensures (2 * p) * q == 2 * (p * q)
  {
  }

  lemma AndLowMask(a: nat, n: nat)
    ensures And(a, Pow2(n) - 1) == a % Pow2(n)
  {
    var q := AndLowBits(a, n);
    RemainderUnique(a, Pow2(n), q, And(a, Pow2(n) - 1));
  }

  lemma AndOddMask(a: nat, m: nat)
    ensures And(a, 2 * m + 1) == a % 2 + 2 * And(a / 2, m)
  {
    var k := 2 * m + 1;
    assert k % 2 == 1 && k / 2 == m;
  }

  lemma RemainderUnique(a: nat, d: nat, q: nat, r: nat)
    requires d > 0 && r < d && a == d * q + r
    ensures a % d == r
  {
    var q', r' := a / d, a % d;
    assert a == d * q' + r';
    assert d * (q - q') == r' - r;
    if q > q' {
      ProductAtLeast(d, q - q');
    } else if q < q' {
      assert d * (q' - q) == r - r';
      ProductAtLeast(d, q' - q);
    }
  }

  lemma ProductAtLeast(d: nat, k: nat)
    requires k >= 1
    ensures d * k >= d
  {
  }

  lemma Put16Reads(v: u16)
    ensures U16(Put16(v), 0) == v
  {
  }

  lemma Put32Reads(v: u32)
    ensures U32(Put32(v), 0) == v
  {
  }

  /** Reading a field and writing it back gives the same bytes. */
  lemma ReadPut16(b: seq<byte>, i: nat)
    requires i + 2 <= |b|
    ensures Put16(U16(b, i)) == b[i..i + 2]
  {
  }

  lemma ReadPut32(b: seq<byte>, i: nat)
    requires i + 4 <= |b|
    ensures Put32(U32(b, i)) == b[i..i + 4]
  {
    ReadPut16(b, i);
    ReadPut16(b, i + 2);
    assert U32(b, i) / 0x1_0000 == U16(b, i) && U32(b, i) % 0x1_0000 == U16(b, i + 2);
    assert b[i..i + 4] == b[i..i + 2] + b[i + 2..i + 4];
  }

  /** A field read inside a longer buffer. */
  lemma U16Within(b: seq<byte>, i: nat, v: u16)
    requires i + 2 <= |b|
    ensures U16(b, i) == v <==> b[i..i + 2] == Put16(v)
  {
    ReadPut16(b, i);
    Put16Reads(v);
  }

  lemma U32Within(b: seq<byte>, i: nat, v: u32)
    requires i + 4 <= |b|
    ensures U32(b, i) == v <==> b[i..i + 4] == Put32(v)
  {
    ReadPut32(b, i);
    Put32Reads(v);
  }

  /** x + y starts b exactly when x does and y follows it. */
  lemma ConcatPrefix(x: seq<byte>, y: seq<byte>, b: seq<byte>)
    ensures x + y <= b <==> |x| + |y| <= |b| && x <= b && b[|x|..|x| + |y|] == y
  {
    var e := x + y;
    assert e[..|x|] == x && e[|x|..] == y;
    if |e| <= |b| {
      assert b[..|e|] == b[..|x|] + b[|x|..|e|];
      if e <= b {
        assert b[|x|..|e|] == b[..|e|][|x|..];
      }
    }
  }

  lemma SliceOfSlice(b: seq<byte>, lo: nat, hi: nat, i: nat, j: nat)
    requires lo <= hi <= |b| && i <= j <= hi - lo
    ensures b[lo..hi][i..j] == b[lo + i..lo + j]
  {
    assert |b[lo..hi]| == hi - lo;
    forall k | 0 <= k < j - i ensures b[lo..hi][i..j][k] == b[lo + i..lo + j][k] {
      assert b[lo..hi][i + k] == b[lo + (i + k)];
    }
  }

  /** Bitwise OR of two naturals. */
  function Or(a: nat, b: nat): nat
    decreases a + b
  {
    if a == 0 then b else if b == 0 then a
    else (if a % 2 == 1 || b % 2 == 1 then 1 else 0) + 2 * Or(a / 2, b / 2)
  }

  /** Setting low bits that are clear adds them. */
  lemma {:induction false} OrLowBits(k: nat, n: nat, b: nat)
    requires b < Pow2(n)
    ensures Or(Pow2(n) * k, b) == Pow2(n) * k + b
    decreases n
  {
    if n > 0 && b > 0 && k > 0 {
      var p := Pow2(n - 1);
      DoubleProduct(p, k);
      OrLowBits(k, n - 1, b / 2);
      OrEven(p * k, b);
    }
  }

  lemma OrEven(a: nat, b: nat)
    ensures Or(2 * a, b) == b % 2 + 2 * Or(a, b / 2)
  {
    var x := 2 * a;
    assert x / 2 == a && x % 2 == 0;
    if a == 0 {
      assert Or(x, b) == b && Or(a, b / 2) == b / 2;
    } else if b == 0 {
      assert Or(x, b) == x && Or(a, b / 2) == a;
    } else {
      assert Or(x, b) == (if b % 2 == 1 then 1 else 0) + 2 * Or(x / 2, b / 2);
    }
  }

  lemma {:induction false} Pow2Split(m: nat, n: nat)
    ensures Pow2(m + n) == Pow2(m) * Pow2(n)
  {
    if m == 0 {
    } else {
      Pow2Split(m - 1, n);
      DoubleProduct(Pow2(m - 1), Pow2(n));
    }
  }

  /** Shifting 2^(m+n) - 1 right by m leaves 2^n - 1. */
  lemma OnesShifted(m: nat, n: nat)
    ensures (Pow2(m + n) - 1) / Pow2(m) == Pow2(n) - 1
  {
    Pow2Split(m, n);
    var d, q := Pow2(m), Pow2(n) - 1;
    assert d * (q + 1) == d * q + d;
    QuotientUnique(Pow2(m + n) - 1, d, q, d - 1);
  }

  lemma RemainderBounds(v: nat, d: nat)
    requires d > 0
    ensures v % d < d && v % d <= v
  {
    assert v / d >= 0;
    assert v == d * (v / d) + v % d;
  }

  lemma QuotientUnique(a: nat, d: nat, q: nat, r: nat)
    requires d > 0 && r < d && a == d * q + r
    ensures a / d == q
  {
    RemainderUnique(a, d, q, r);
    var q' := a / d;
    assert a == d * q' + r && d * (q - q') == 0;
    if q > q' {
      ProductAtLeast(d, q - q');
    } else if q < q' {
      assert d * (q' - q) == 0;
      ProductAtLeast(d, q' - q);
    }
  }
}
