/** Bit strings: the specification language of everything the encoder writes. */
module BitStrings {

  type Byte = x: int | 0 <= x < 256

  type Word = x: int | 0 <= x < 0x1_0000_0000

  function Min(a: int, b: int): int { if a > b then b else a }

  function Max(a: int, b: int): int { if a > b then a else b }

  function Pow2(n: nat): (p: nat)
    ensures p >= 1
  {
    if n == 0 then 1 else 2 * Pow2(n - 1)
  }

  // ---------- machine words, one bit at a time ----------

  /** `v >> k` for an unsigned v. */
  function Shr(v: nat, k: nat): nat
  {
    if k == 0 then v else Shr(v / 2, k - 1)
  }

  /** `v & ((1 << k) - 1)`. */
  function Mask(v: nat, k: nat): nat
  {
    if k == 0 then 0 else 2 * Mask(v / 2, k - 1) + v % 2
  }

  /** `(b << k) | (v & ((1 << k) - 1))` on unbounded integers. */
  function ShlOr(b: nat, v: nat, k: nat): nat
  {
    if k == 0 then b else 2 * ShlOr(b, v / 2, k - 1) + v % 2
  }

  /** `b << k`, bits leaving a 32-bit register lost. */
  function Shl32(b: nat, k: nat): (r: Word)
  {
    MaskBound(ShlOr(b, 0, k), 32);
    Mask(ShlOr(b, 0, k), 32)
  }

  lemma {:induction false} MaskBound(v: nat, k: nat)
    ensures Mask(v, k) < Pow2(k)
    ensures k == 32 ==> Pow2(k) == 0x1_0000_0000
  {
    if k > 0 { MaskBound(v / 2, k - 1); }
    Pow2Values();
  }

  lemma {:induction false} MaskId(v: nat, k: nat)
    requires v < Pow2(k)
    ensures Mask(v, k) == v
  {
    if k > 0 { MaskId(v / 2, k - 1); }
  }

  lemma MulDouble(a: nat, b: nat)
    ensures a * (2 * b) == 2 * (a * b)
    ensures (2 * a) * b == 2 * (a * b)
  {
  }

  /** The word operations in terms of powers of two. */
  lemma {:induction false} WordOps(b: nat, v: nat, k: nat)
    ensures v == Shr(v, k) * Pow2(k) + Mask(v, k)
    ensures ShlOr(b, v, k) == b * Pow2(k) + Mask(v, k)
  {
    if k > 0 {
      WordOps(b, v / 2, k - 1);
      MulDouble(Shr(v, k), Pow2(k - 1));
      MulDouble(b, Pow2(k - 1));
    }
  }

  lemma {:induction false} Pow2Add(a: nat, b: nat)
    ensures Pow2(a + b) == Pow2(a) * Pow2(b)
  {
    if a > 0 {
      Pow2Add(a - 1, b);
      MulDouble(Pow2(a - 1), Pow2(b));
    }
  }

  lemma {:induction false} Pow2Mono(a: nat, b: nat)
    requires a <= b
    ensures Pow2(a) <= Pow2(b)
  {
    if a < b { Pow2Mono(a, b - 1); }
  }

  lemma {:induction false} Pow2Values()
    ensures Pow2(0) == 1 && Pow2(1) == 2 && Pow2(2) == 4 && Pow2(3) == 8 && Pow2(4) == 16 && Pow2(5) == 32
    ensures Pow2(6) == 64 && Pow2(7) == 128 && Pow2(8) == 256
    ensures Pow2(12) == 0x1000 && Pow2(15) == 0x8000 && Pow2(17) == 0x2_0000
    ensures Pow2(16) == 0x1_0000 && Pow2(24) == 0x100_0000 && Pow2(32) == 0x1_0000_0000
  {
    assert Pow2(8) == 256;
    assert Pow2(16) == 0x1_0000;
    assert Pow2(24) == 0x100_0000;
  }

  // ---------- bit strings ----------

  /** The low `n` bits of `v`, most significant first. */
  function Bits(v: nat, n: nat): (s: seq<bool>)
    ensures |s| == n
  {
    if n == 0 then [] else Bits(v / 2, n - 1) + [v % 2 == 1]
  }

  /** The number a bit string spells, most significant bit first. */
  function Value(s: seq<bool>): nat
  {
    if s == [] then 0 else 2 * Value(s[..|s| - 1]) + (if s[|s| - 1] then 1 else 0)
  }

  function Zeros(n: nat): (s: seq<bool>)
    ensures |s| == n
  {
    seq(n, _ => false)
  }

  /** The bits of a byte string, in transmission order. */
  function ByteBits(s: seq<Byte>): (r: seq<bool>)
    ensures |r| == 8 * |s|
  {
    if s == [] then [] else ByteBits(s[..|s| - 1]) + Bits(s[|s| - 1], 8)
  }

  /** Shift-and-or appends: the new field goes below the old contents. */
  lemma {:induction false} BitsShlOr(b: nat, v: nat, n: nat, k: nat)
    ensures Bits(ShlOr(b, v, k), n + k) == Bits(b, n) + Bits(v, k)
    decreases k
  {
    if k > 0 {
      var w := ShlOr(b, v, k);
      assert w / 2 == ShlOr(b, v / 2, k - 1) && w % 2 == v % 2;
      BitsShlOr(b, v / 2, n, k - 1);
      BitsUnfold(w, n + k);
      BitsUnfold(v, k);
      hide Bits, ShlOr;
      Regroup(Bits(b, n), Bits(v / 2, k - 1), [v % 2 == 1]);
    } else {
      assert Bits(v, 0) == [];
    }
  }

  /** Bits above position `n` do not show: what a stale register keeps up there is invisible. */
  lemma {:induction false} BitsMask(v: nat, m: nat, n: nat)
    requires n <= m
    ensures Bits(Mask(v, m), n) == Bits(v, n)
  {
    if n > 0 {
      assert Mask(v, m) / 2 == Mask(v / 2, m - 1) && Mask(v, m) % 2 == v % 2;
      BitsMask(v / 2, m - 1, n - 1);
    }
  }

  /** A field splits into its high part, shifted down, and its low part. */
  lemma {:induction false} BitsSplit(v: nat, n: nat, k: nat)
    ensures Bits(v, n + k) == Bits(Shr(v, k), n) + Bits(v, k)
    decreases k
  {
    if k > 0 {
      BitsSplit(v / 2, n, k - 1);
      BitsUnfold(v, n + k);
      BitsUnfold(v, k);
      hide Bits;
      Regroup(Bits(Shr(v, k), n), Bits(v / 2, k - 1), [v % 2 == 1]);
    } else {
      assert Bits(v, 0) == [];
    }
  }

  lemma BitsUnfold(v: nat, n: nat)
    requires n > 0
    ensures Bits(v, n) == Bits(v / 2, n - 1) + [v % 2 == 1]
  {
  }

  lemma {:induction false} BitsZero(n: nat)
    ensures Bits(0, n) == Zeros(n)
  {
    if n > 0 { BitsZero(n - 1); }
  }

  /** A field read back: writing the low `n` bits and reading them gives the masked value. */
  lemma {:induction false} ValueOfBits(v: nat, n: nat)
    ensures Value(Bits(v, n)) == Mask(v, n)
  {
    if n > 0 {
      ValueOfBits(v / 2, n - 1);
      assert Bits(v, n)[..n - 1] == Bits(v / 2, n - 1);
    }
  }

  lemma Regroup<T>(a: seq<T>, b: seq<T>, c: seq<T>)
    ensures a + (b + c) == a + b + c
  {
  }

  lemma RegroupFour(a: seq<bool>, b: seq<bool>, c: seq<bool>, d: seq<bool>)
    ensures a + (b + c) + d == (a + b) + (c + d)
  {
  }

  lemma {:induction false} ByteBitsPush(a: seq<Byte>, b: Byte)
    ensures ByteBits(a + [b]) == ByteBits(a) + Bits(b, 8)
  {
    assert (a + [b])[..|a|] == a;
  }

  lemma {:induction false} ByteBitsConcat(a: seq<Byte>, b: seq<Byte>)
    ensures ByteBits(a + b) == ByteBits(a) + ByteBits(b)
    decreases |b|
  {
    if b == [] {
      assert a + b == a;
    } else {
      var m := |b| - 1;
      assert a + b == (a + b[..m]) + [b[m]];
      hide ByteBits, Bits;
      ByteBitsPush(a + b[..m], b[m]);
      ByteBitsConcat(a, b[..m]);
      ByteBitsPush(b[..m], b[m]);
      assert b[..m] + [b[m]] == b;
      Regroup(ByteBits(a), ByteBits(b[..m]), Bits(b[m], 8));
    }
  }
}
