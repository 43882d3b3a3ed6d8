/**
 * Fixed-width integer encodings the contracts build by hand: the
 * least-significant-first shift loop (`byte = tmp & 0xFF; tmp >>= 8`), the
 * most-significant-first shift expressions (`(x >> 24) & 0xFF`, ...) and
 * Rust's `u64::to_be_bytes`. Each comes with its decoder and the round trip.
 */
module ByteCodec {
  import opened Prims

  function Pow256(n: nat): (p: nat)
    ensures p > 0
  {
    if n == 0 then 1 else 256 * Pow256(n - 1)
  }

  /** The low `n` bytes of `x`, least-significant first. */
  function LittleEndian(x: nat, n: nat): (r: Bytes)
    ensures |r| == n
  {
    if n == 0 then [] else [x % 256] + LittleEndian(x / 256, n - 1)
  }

  function FromLittleEndian(s: Bytes): nat
  {
    if s == [] then 0 else s[0] + 256 * FromLittleEndian(s[1..])
  }

  /** The low `n` bytes of `x`, most-significant first. */
  function BigEndian(x: nat, n: nat): (r: Bytes)
    ensures |r| == n
  {
    if n == 0 then [] else BigEndian(x / 256, n - 1) + [x % 256]
  }

  function FromBigEndian(s: Bytes): nat
  {
    if s == [] then 0 else 256 * FromBigEndian(s[..|s| - 1]) + s[|s| - 1]
  }

  lemma MulStep(d: nat, a: int)
    ensures d * (a + 1) == d * a + d
  {
  }

  lemma MulMono(d: nat, a: int, b: int)
    ensures a <= b ==> d * a <= d * b
  {
    if a <= b {
      assert d * b == d * a + d * (b - a);
    }
  }

  /** Euclidean division is unique. */
  lemma ModUnique(x: nat, d: nat, q: nat, m: nat)
    requires 0 <= m < d && x == d * q + m
    ensures x % d == m && x / d == q
  {
    var q', m' := x / d, x % d;
    assert x == d * q' + m';
    MulStep(d, q);
    MulStep(d, q');
    MulMono(d, q + 1, q');
    MulMono(d, q' + 1, q);
  }

  /** x mod 256p splits into its lowest byte and (x div 256) mod p. */
  lemma ModSplit(x: nat, p: nat)
    requires p > 0
    ensures x % (256 * p) == 256 * ((x / 256) % p) + x % 256
  {
    var q, r := x / 256, x % 256;
    var hi, lo := q / p, q % p;
    assert q == p * hi + lo;
    assert x == 256 * q + r;
    assert x == (256 * p) * hi + (256 * lo + r) by {
      calc {
        x;
        256 * q + r;
        256 * (p * hi + lo) + r;
        (256 * p) * hi + (256 * lo + r);
      }
    }
    assert 256 * lo + r < 256 * p by {
      assert lo <= p - 1;
      assert 256 * lo <= 256 * (p - 1);
    }
    ModUnique(x, 256 * p, hi, 256 * lo + r);
  }

  /** Decoding the little-endian bytes gives back the value truncated to `n` bytes. */
  lemma {:induction false} LittleEndianTruncates(x: nat, n: nat)
    ensures FromLittleEndian(LittleEndian(x, n)) == x % Pow256(n)
  {
    if n > 0 {
      var r := LittleEndian(x, n);
      assert r[1..] == LittleEndian(x / 256, n - 1);
      LittleEndianTruncates(x / 256, n - 1);
      ModSplit(x, Pow256(n - 1));
    }
  }

  /** Decoding the big-endian bytes gives back the value truncated to `n` bytes. */
  lemma {:induction false} BigEndianTruncates(x: nat, n: nat)
    ensures FromBigEndian(BigEndian(x, n)) == x % Pow256(n)
  {
    if n > 0 {
      var r := BigEndian(x, n);
      assert r[..n - 1] == BigEndian(x / 256, n - 1);
      BigEndianTruncates(x / 256, n - 1);
      ModSplit(x, Pow256(n - 1));
    }
  }

  lemma LittleEndianRoundTrip(x: nat, n: nat)
    requires x < Pow256(n)
    ensures FromLittleEndian(LittleEndian(x, n)) == x
  {
    LittleEndianTruncates(x, n);
  }

  lemma BigEndianRoundTrip(x: nat, n: nat)
    requires x < Pow256(n)
    ensures FromBigEndian(BigEndian(x, n)) == x
  {
    BigEndianTruncates(x, n);
  }

  lemma Pow256Widths()
    ensures Pow256(4) == U32_LIMIT && Pow256(8) == U64_LIMIT
  {
    assert Pow256(2) == 0x1_0000;
  }

  /** A `u64` survives its eight little-endian bytes. */
  lemma U64LittleEndianRoundTrip(x: U64)
    ensures FromLittleEndian(LittleEndian(x, 8)) == x
  {
    Pow256Widths();
    LittleEndianRoundTrip(x, 8);
  }

  /** A `u64` survives `to_be_bytes`. */
  lemma U64BigEndianRoundTrip(x: U64)
    ensures FromBigEndian(BigEndian(x, 8)) == x
  {
    Pow256Widths();
    BigEndianRoundTrip(x, 8);
  }

  lemma MulDistribAssoc(a: int, b: int, hi: int, lo: int)
    ensures a * (b * hi + lo) == (a * b) * hi + a * lo
  {
  }

  lemma DivDiv(x: nat, a: nat, b: nat)
    requires a > 0 && b > 0
    ensures x / a / b == x / (a * b)
  {
    var q := x / a;
    var hi, lo := q / b, q % b;
    var r := x % a;
    assert x == a * q + r;
    assert q == b * hi + lo;
    MulDistribAssoc(a, b, hi, lo);
    MulMono(a, lo, b - 1);
    MulStep(a, b - 1);
    ModUnique(x, a * b, hi, a * lo + r);
  }

  /**
   * The source writes four big-endian bytes as shifts and masks:
   * `((x >> 24) & 0xFF, (x >> 16) & 0xFF, (x >> 8) & 0xFF, x & 0xFF)`.
   */
  lemma BigEndian4AsShifts(x: nat)
    ensures BigEndian(x, 4) == [(x / 0x100_0000) % 256, (x / 0x1_0000) % 256, (x / 0x100) % 256, x % 256]
  {
    var x1 := x / 256;
    var x2 := x1 / 256;
    var x3 := x2 / 256;
    DivDiv(x, 256, 256);
    DivDiv(x, 0x1_0000, 256);
    assert x2 == x / 0x1_0000;
    assert x3 == x / 0x100_0000;
    assert BigEndian(x3, 1) == [x3 % 256] by {
      assert BigEndian(x3 / 256, 0) == [];
    }
    assert BigEndian(x2, 2) == [x3 % 256, x2 % 256];
    assert BigEndian(x1, 3) == [x3 % 256, x2 % 256, x1 % 256];
    assert BigEndian(x, 4) == [x3 % 256, x2 % 256, x1 % 256, x % 256];
  }

  /**
   * The eight-step loop that appends the low byte of a `u64` and shifts it
   * right by eight bits, so the value goes out least-significant byte first.
   */
  method AppendLittleEndian64(data: Bytes, x: U64) returns (out: Bytes)
    ensures out == data + LittleEndian(x, 8)
  {
    out := data;
    var tmp: nat := x;
    var i := 0;
    while i < 8
      invariant 0 <= i <= 8
      invariant out + LittleEndian(tmp, 8 - i) == data + LittleEndian(x, 8)
    {
      assert LittleEndian(tmp, 8 - i) == [tmp % 256] + LittleEndian(tmp / 256, 8 - i - 1);
      assert (out + [tmp % 256]) + LittleEndian(tmp / 256, 8 - i - 1) == out + ([tmp % 256] + LittleEndian(tmp / 256, 8 - i - 1));
      out := out + [tmp % 256];
      tmp := tmp / 256;
      i := i + 1;
    }
  }
}
