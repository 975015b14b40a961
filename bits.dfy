/*
 * Machine-level helpers shared by the capture, FIFO and UVC models:
 * bytes, the C bitwise AND on non-negative operands, little-endian
 * byte layouts and memcpy over byte sequences.
 */
module Bits {

  /** A value that may be absent (a NULL pointer, a lookup that finds nothing). */
  datatype Option<T> = None | Some(value: T)

  /** An unsigned 8-bit value (uint8_t, __u8). */
  type byte = x: int | 0 <= x < 256

  /** 2 to the power k. */
  function Pow2(k: nat): (r: nat)
    ensures r >= 1
  {
    if k == 0 then 1 else 2 * Pow2(k - 1)
  }

  /** 256 to the power n: the number of values an n-byte unsigned field holds. */
  function Pow256(n: nat): (r: nat)
    ensures r >= 1
  {
    if n == 0 then 1 else 256 * Pow256(n - 1)
  }

  /** The C operator `a & b` on non-negative operands, bit by bit from the lowest bit. */
  function And(a: nat, b: nat): (r: nat)
    ensures r <= a && r <= b
    decreases a
  {
    if a == 0 || b == 0 then 0
    else 2 * And(a / 2, b / 2) + (if a % 2 == 1 && b % 2 == 1 then 1 else 0)
  }

  lemma MulNonneg(a: int, b: int)
    requires a >= 0 && b >= 0
    ensures a * b >= 0
  {
  }

  lemma MulStep(d: int, t: int)
    requires d > 0 && t >= 1
    ensures d * t >= d
  {
    MulNonneg(d, t - 1);
    assert d * t == d * (t - 1) + d;
  }

  /** Euclidean division is unique: a quotient and remainder in range are THE quotient and remainder. */
  lemma DivModUnique(x: int, d: int, q: int, r: int)
    requires d > 0 && x == d * q + r && 0 <= r < d
    ensures x / d == q && x % d == r
  {
    var q', r' := x / d, x % d;
    assert x == d * q' + r';
    if q > q' {
      MulStep(d, q - q');
      assert false;
    } else if q < q' {
      MulStep(d, q' - q);
      assert false;
    }
  }

  /** Splitting a remainder modulo a * b into its low part modulo a and the rest. */
  lemma ModProduct(x: nat, a: nat, b: nat)
    requires a > 0 && b > 0
    ensures x % (a * b) == x % a + a * ((x / a) % b)
    ensures x / (a * b) == (x / a) / b
  {
    var q := x / a;
    var lo := x % a;
    var hi := q % b;
    assert q == b * (q / b) + hi;
    assert x == a * q + lo;
    assert x == (a * b) * (q / b) + (lo + a * hi) by {
      calc {
        x;
        a * q + lo;
        a * (b * (q / b) + hi) + lo;
        (a * b) * (q / b) + (lo + a * hi);
      }
    }
    assert a * hi <= a * (b - 1);
    DivModUnique(x, a * b, q / b, lo + a * hi);
  }

  lemma AndUnfold(a: nat, b: nat)
    requires a > 0 && b > 0
    ensures And(a, b) == 2 * And(a / 2, b / 2) + (if a % 2 == 1 && b % 2 == 1 then 1 else 0)
  {
  }

  lemma Pow2Step(k: nat)
    requires k > 0
    ensures Pow2(k) == 2 * Pow2(k - 1)
  {
  }

  /** A mask of k low one bits keeps exactly the value modulo 2^k. */
  lemma {:induction false} AndLowMask(x: nat, k: nat)
    ensures And(x, Pow2(k) - 1) == x % Pow2(k)
  {
    if k == 0 {
      assert Pow2(k) - 1 == 0;
    } else if x == 0 {
    } else {
      var p := Pow2(k - 1);
      Pow2Step(k);
      var m := Pow2(k) - 1;
      assert m == 2 * (p - 1) + 1;
      DivModUnique(m, 2, p - 1, 1);
      AndUnfold(x, m);
      AndLowMask(x / 2, k - 1);
      ModProduct(x, 2, p);
    }
  }

  /** Doubling the mask is shifting x right by one and the result left by one. */
  lemma AndDouble(x: nat, m: nat)
    ensures And(x, 2 * m) == 2 * And(x / 2, m)
  {
    if x != 0 && m != 0 {
      DivModUnique(2 * m, 2, m, 0);
      AndUnfold(x, 2 * m);
    }
  }

  /** The mask 0x60 selects bits 5 and 6 of x: (x / 32) % 4, shifted back into place. */
  lemma AndTypeMask(x: nat)
    ensures And(x, 0x60) == 32 * ((x / 32) % 4)
  {
    var x1 := x / 2;
    var x2 := x1 / 2;
    var x3 := x2 / 2;
    var x4 := x3 / 2;
    var x5 := x4 / 2;
    AndDouble(x, 0x30);
    AndDouble(x1, 0x18);
    AndDouble(x2, 0x0c);
    AndDouble(x3, 0x06);
    AndDouble(x4, 0x03);
    assert And(x, 0x60) == 32 * And(x5, 3);
    AndLowMask(x5, 2);
    assert x5 == x / 32 by {
      ModProduct(x, 2, 2);
      ModProduct(x, 4, 2);
      ModProduct(x, 8, 2);
      ModProduct(x, 16, 2);
    }
  }

  /** The n-byte little-endian layout of x modulo 256^n. */
  function LeBytes(x: nat, n: nat): (s: seq<byte>)
    ensures |s| == n
  {
    if n == 0 then [] else [x % 256] + LeBytes(x / 256, n - 1)
  }

  /** The unsigned value of a little-endian byte sequence. */
  function LeValue(s: seq<byte>): (v: nat)
    ensures v < Pow256(|s|)
  {
    if s == [] then 0 else s[0] + 256 * LeValue(s[1..])
  }

  /** Writing x in n little-endian bytes and reading it back gives x modulo 256^n. */
  lemma {:induction false} LeValueOfBytes(x: nat, n: nat)
    ensures LeValue(LeBytes(x, n)) == x % Pow256(n)
  {
    if n > 0 {
      var s := LeBytes(x, n);
      assert s[1..] == LeBytes(x / 256, n - 1);
      LeValueOfBytes(x / 256, n - 1);
      ModProduct(x, 256, Pow256(n - 1));
    }
  }

  /** Reading a byte sequence and writing the value back in as many bytes gives the sequence. */
  lemma {:induction false} LeBytesOfValue(s: seq<byte>)
    ensures LeBytes(LeValue(s), |s|) == s
  {
    if s != [] {
      var v := LeValue(s);
      DivModUnique(v, 256, LeValue(s[1..]), s[0]);
      LeBytesOfValue(s[1..]);
    }
  }

  /**
   * memcpy(dst, src, n) on byte buffers: the first n bytes of dst become the
   * first n bytes of src, the rest of dst is kept.
   */
  function Memcpy<T>(dst: seq<T>, src: seq<T>, n: nat): (r: seq<T>)
    requires n <= |dst| && n <= |src|
    ensures |r| == |dst|
    ensures forall i :: 0 <= i < n ==> r[i] == src[i]
    ensures forall i :: n <= i < |dst| ==> r[i] == dst[i]
  {
    src[..n] + dst[n..]
  }
}
