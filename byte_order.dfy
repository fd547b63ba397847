/**
 * Big-endian encoding of integers into 8 bytes, as Rust's `u64::to_be_bytes`
 * defines it, and its inverse `u64::from_be_bytes`.
 */
module ByteOrder {
  import opened Common

  function Pow256(k: nat): (p: nat)
    ensures p > 0
  {
    if k == 0 then 1 else 256 * Pow256(k - 1)
  }

  /**
   * Rust `u64::to_be_bytes`: byte `k` is `(x >> 8 * (7 - k)) & 0xFF`,
   * so the most significant byte comes first.
   */
  function ToBeBytes(x: U64): Bytes
  {
    seq(8, k requires 0 <= k < 8 => x / Pow256(7 - k) % 256)
  }

  /** Rust `u64::from_be_bytes`, for byte strings of any length. */
  function FromBeBytes(bytes: Bytes): nat
  {
    if bytes == [] then 0 else FromBeBytes(bytes[..|bytes| - 1]) * 256 + bytes[|bytes| - 1]
  }

  /**
   * The `width` low-order bytes of `n`, most significant first, produced the
   * way a shift loop produces them: the lowest byte goes last and the rest
   * comes from `n` shifted right by 8 (floor division, also for negative `n`).
   */
  function LowBytes(n: int, width: nat): Bytes
    decreases width
  {
    if width == 0 then [] else LowBytes(n / 256, width - 1) + [n % 256]
  }

  lemma DivModUnique(n: int, d: int, q: int, r: int)
    requires d > 0 && 0 <= r < d && n == d * q + r
    ensures n / d == q && n % d == r
  {
    var k := q - n / d;
    assert d * k == n % d - r;
    MulSign(d, k);
  }

  lemma MulSign(d: int, k: int)
    requires d > 0
    ensures k >= 1 ==> d * k >= d
    ensures k <= -1 ==> d * k <= -d
  {
  }

  lemma MulMonotone(a: int, x: int, y: int)
    requires a > 0 && x <= y
    ensures a * x <= a * y
  {
  }

  lemma DivDiv(n: int, a: int, b: int)
    requires a > 0 && b > 0
    ensures n / a / b == n / (a * b)
  {
    var q1, r1 := n / a, n % a;
    var q2, r2 := q1 / b, q1 % b;
    assert n == a * q1 + r1;
    assert q1 == b * q2 + r2;
    assert a * q1 == (a * b) * q2 + a * r2;
    MulMonotone(a, r2, b - 1);
    assert a * (b - 1) == a * b - a;
    DivModUnique(n, a * b, q2, a * r2 + r1);
  }

  lemma ModSplit(n: int, p: int)
    requires p > 0
    ensures n / 256 % p * 256 + n % 256 == n % (256 * p)
  {
    var m, r := n / 256, n % 256;
    var q, s := m / p, m % p;
    assert n == (256 * p) * q + (s * 256 + r) by {
      assert n == 256 * m + r;
      assert m == p * q + s;
    }
    assert s * 256 + r < 256 * p by {
      assert s * 256 <= (p - 1) * 256;
    }
    DivModUnique(n, 256 * p, q, s * 256 + r);
  }

  /** Byte `k` of `LowBytes(n, width)` is `(n >> 8 * (width - 1 - k)) & 0xFF`. */
  lemma {:induction false} LowBytesAt(n: int, width: nat, k: nat)
    requires k < width
    decreases width
    ensures |LowBytes(n, width)| == width
    ensures LowBytes(n, width)[k] == n / Pow256(width - 1 - k) % 256
  {
    LowBytesLength(n / 256, width - 1);
    if k < width - 1 {
      LowBytesAt(n / 256, width - 1, k);
      DivDiv(n, 256, Pow256(width - 2 - k));
    }
  }

  lemma {:induction false} LowBytesLength(n: int, width: nat)
    decreases width
    ensures |LowBytes(n, width)| == width
  {
    if width > 0 {
      LowBytesLength(n / 256, width - 1);
    }
  }

  /** Reading `LowBytes(n, width)` back gives `n` modulo `256^width`. */
  lemma {:induction false} LowBytesRoundTrip(n: int, width: nat)
    decreases width
    ensures FromBeBytes(LowBytes(n, width)) == n % Pow256(width)
  {
    if width > 0 {
      var high := LowBytes(n / 256, width - 1);
      assert (high + [n % 256])[..|high + [n % 256]| - 1] == high;
      LowBytesRoundTrip(n / 256, width - 1);
      ModSplit(n, Pow256(width - 1));
    }
  }

  /** Two byte strings of the same length with the same big-endian value are equal. */
  lemma {:induction false} FromBeBytesInjective(a: Bytes, b: Bytes)
    requires |a| == |b| && FromBeBytes(a) == FromBeBytes(b)
    ensures a == b
  {
    if a != [] {
      var a', b' := a[..|a| - 1], b[..|b| - 1];
      DivModUnique(FromBeBytes(a), 256, FromBeBytes(a'), a[|a| - 1]);
      DivModUnique(FromBeBytes(b), 256, FromBeBytes(b'), b[|b| - 1]);
      FromBeBytesInjective(a', b');
      assert a == a' + [a[|a| - 1]];
      assert b == b' + [b[|b| - 1]];
    }
  }

  lemma Pow64IsPow256Of8()
    ensures Pow256(8) == Pow64
  {
  }

  /** `to_be_bytes` is the 8 low-order bytes of its argument. */
  lemma ToBeBytesIsLowBytes(x: U64)
    ensures ToBeBytes(x) == LowBytes(x, 8)
  {
    LowBytesLength(x, 8);
    forall k | 0 <= k < 8
      ensures ToBeBytes(x)[k] == LowBytes(x, 8)[k]
    {
      LowBytesAt(x, 8, k);
    }
  }

  /** `u64::from_be_bytes(u64::to_be_bytes(x)) == x`. */
  lemma ToBeBytesRoundTrip(x: U64)
    ensures |ToBeBytes(x)| == 8
    ensures FromBeBytes(ToBeBytes(x)) == x
  {
    ToBeBytesIsLowBytes(x);
    LowBytesLength(x, 8);
    LowBytesRoundTrip(x, 8);
    Pow64IsPow256Of8();
    DivModUnique(x, Pow64, 0, x);
  }

  /** Distinct indices get distinct keys. */
  lemma ToBeBytesInjective(x: U64, y: U64)
    ensures ToBeBytes(x) == ToBeBytes(y) <==> x == y
  {
    ToBeBytesRoundTrip(x);
    ToBeBytesRoundTrip(y);
  }

  /**
   * The 8 low-order bytes of any integer are `to_be_bytes` of that integer
   * modulo `2^64`: only the low 64 bits survive.
   */
  lemma LowBytesKeepsLow64(n: int)
    ensures LowBytes(n, 8) == ToBeBytes(n % Pow64)
  {
    var m := n % Pow64;
    Pow64IsPow256Of8();
    LowBytesLength(n, 8);
    LowBytesRoundTrip(n, 8);
    ToBeBytesRoundTrip(m);
    FromBeBytesInjective(LowBytes(n, 8), ToBeBytes(m));
  }
}
