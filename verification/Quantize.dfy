/** Quantisation of one mantissa (a52enc.c:713-733): how far a decoder's value can be from the coefficient. */
module Quantize {
  import opened Arithmetic
  import opened BitStrings
  import opened Exponent

  /** Arithmetic shift right of a signed integer. */
  function Sar(a: int, k: nat): int
  {
    a / Pow2(k)
  }

  /** sym_quant. */
  function SymQuant(c: int, e: nat, levels: nat): int
    requires e <= 24
  {
    Sar(Sar(levels * c, 24 - e) + 1, 1) + levels / 2
  }

  /** asym_quant before the clip. */
  function Shifted(c: int, e: nat, qbits: nat): int
    requires 1 <= qbits
  {
    var lshift := e + (qbits - 1) - 24;
    if lshift >= 0 then c * Pow2(lshift) else Sar(c, -lshift)
  }

  /** asym_quant. */
  function AsymQuant(c: int, e: nat, qbits: nat): int
    requires 1 <= qbits
  {
    var m: int := Pow2(qbits - 1);
    Clip(Shifted(c, e, qbits), -m, m - 1)
  }

  lemma FloorBounds(a: int, s: int)
    requires s > 0
    ensures a / s * s <= a < a / s * s + s
  {
  }

  lemma MulBetween(levels: int, c: int, s: int)
    requires -s < c < s && levels > 0
    ensures -(levels * s) < levels * c < levels * s
  {
  }

  lemma QuotientBetween(a: int, levels: int, s: int)
    requires s > 0 && -(levels * s) <= a < levels * s
    ensures -levels <= a / s < levels
  {
    FloorBounds(a, s);
    if a / s >= levels { MulMono(levels, a / s, s); }
    if a / s < -levels { MulMono(a / s + 1, -levels, s); }
  }

  /** Rounding a quotient to the nearest odd or even neighbour, as (q + 1) >> 1 does. */
  lemma RoundedHalf(a: int, q: int, levels: int, s: int)
    requires s > 0 && levels > 0 && levels % 2 == 1 && -levels <= q < levels && q * s <= a < q * s + s
    ensures var v := (q + 1) / 2 + levels / 2;
      0 <= v < levels && a - s <= (2 * v - (levels - 1)) * s <= a + s
  {
    var m := (q + 1) / 2;
    if 2 * m != q { assert (2 * m) * s == q * s + s; }
    assert 2 * (m + levels / 2) - (levels - 1) == 2 * m;
  }

  /** The symmetric quantiser with an odd number of levels: code v stands for (2v - (levels - 1)) / levels, and a
      coefficient c / s below 1 in magnitude is off by at most 1 / levels. */
  lemma SymQuantError(c: int, e: nat, levels: nat)
    requires e <= 24 && levels % 2 == 1 && Abs(c) < Pow2(24 - e)
    ensures var v, s := SymQuant(c, e, levels), Pow2(24 - e);
      0 <= v < levels && Abs(levels * c - (2 * v - (levels - 1)) * s) <= s
  {
    var s := Pow2(24 - e);
    Pow2Values();
    hide Pow2;
    var q := levels * c / s;
    MulBetween(levels, c, s);
    QuotientBetween(levels * c, levels, s);
    FloorBounds(levels * c, s);
    RoundedHalf(levels * c, q, levels, s);
  }

  lemma NoNearer(x: int, u: int, t: int, d: int, s: int)
    requires s > 0 && t == u + 2 * d && Abs(x - u * s) <= s
    ensures Abs(x - u * s) <= Abs(x - t * s)
  {
    var ds := d * s;
    assert t * s == u * s + 2 * ds;
    if d > 0 {
      MulMono(1, d, s);
    } else if d < 0 {
      MulMono(d, -1, s);
    }
  }

  /** Hence no other level is nearer. */
  lemma SymQuantNearest(c: int, e: nat, levels: nat, w: int)
    requires e <= 24 && levels % 2 == 1 && Abs(c) < Pow2(24 - e)
    ensures var v, s := SymQuant(c, e, levels), Pow2(24 - e);
      Abs(levels * c - (2 * v - (levels - 1)) * s) <= Abs(levels * c - (2 * w - (levels - 1)) * s)
  {
    hide SymQuant, Pow2, Abs;
    var v, s := SymQuant(c, e, levels), Pow2(24 - e);
    SymQuantError(c, e, levels);
    NoNearer(levels * c, 2 * v - (levels - 1), 2 * w - (levels - 1), w - v, s);
  }

  /** The asymmetric quantiser: the clip never fires, and c / s exceeds the decoded v / m by less than a step, 1 / m. */
  lemma AsymQuantError(c: int, e: nat, qbits: nat)
    requires e <= 24 && 1 <= qbits && Abs(c) < Pow2(24 - e)
    ensures var v, s: int, m: int := AsymQuant(c, e, qbits), Pow2(24 - e), Pow2(qbits - 1);
      v == Shifted(c, e, qbits) && -m <= v < m && 0 <= c * m - v * s < s
  {
    var s: int, m: int := Pow2(24 - e), Pow2(qbits - 1);
    var lshift := e + (qbits - 1) - 24;
    if lshift >= 0 {
      Pow2Add(24 - e, lshift);
      hide Pow2;
      ScaledUp(c, s, Pow2(lshift));
    } else {
      Pow2Add(qbits - 1, -lshift);
      hide Pow2;
      ScaledDown(c, m, Pow2(-lshift));
    }
  }

  lemma ScaledUp(c: int, s: int, t: int)
    requires t > 0 && -s < c < s
    ensures -(s * t) <= c * t < s * t && c * (s * t) - (c * t) * s == 0
  {
    MulMono(c + 1, s, t);
    MulMono(-s, c, t);
    MulRegroup(c, s, t);
  }

  lemma ScaledDown(c: int, m: int, t: int)
    requires t > 0 && m > 0 && -(m * t) < c < m * t
    ensures -m <= c / t < m && 0 <= c * m - (c / t) * (m * t) < m * t
  {
    FloorBounds(c, t);
    QuotientBetween(c, m, t);
    Remainder(c, c / t, m, t);
  }

  lemma MulRegroup(c: int, s: int, t: int)
    ensures c * (s * t) == (c * t) * s
  {
  }

  lemma Remainder(c: int, q: int, m: int, t: int)
    requires m > 0 && t > 0 && q * t <= c < q * t + t
    ensures 0 <= c * m - q * (m * t) < m * t
  {
    MulRegroup(q, m, t);
    assert c * m - (q * t) * m == (c - q * t) * m;
    MulMono(0, c - q * t, m);
    MulMono(c - q * t, t - 1, m);
    assert (t - 1) * m == t * m - m;
  }

  /** The quantised value for bap b, as the cases of quant_mant_ch choose it. */
  function Quantized(c: int, e: nat, b: nat): int
    requires e <= 24 && b <= 15
  {
    match b
    case 0 => 0
    case 1 => SymQuant(c, e, 3)
    case 2 => SymQuant(c, e, 5)
    case 3 => SymQuant(c, e, 7)
    case 4 => SymQuant(c, e, 11)
    case 5 => SymQuant(c, e, 15)
    case 14 => AsymQuant(c, e, 14)
    case 15 => AsymQuant(c, e, 16)
    case _ => AsymQuant(c, e, b - 1)
  }

  /** Levels of the symmetric quantisers. */
  function Levels(b: nat): nat
    requires 1 <= b <= 5
  {
    match b case 1 => 3 case 2 => 5 case 3 => 7 case 4 => 11 case _ => 15
  }

  /** Bits of an asymmetric mantissa. */
  function QBits(b: nat): nat
    requires 6 <= b <= 15
  {
    if b == 15 then 16 else if b == 14 then 14 else b - 1
  }

  /** The values a mantissa of pointer b can take. */
  predicate InRange(b: nat, v: int)
  {
    b <= 15 &&
    (b == 0 ==> v == 0) && (1 <= b <= 5 ==> 0 <= v < Levels(b)) &&
    (b >= 6 ==> 0 - Pow2(QBits(b) - 1) <= v < Pow2(QBits(b) - 1))
  }

  /** Value v stands for coefficient c: within 1 / levels of it for the symmetric pointers, and less than one step
      below it for the others, in units of the exponent's scale. */
  ghost predicate Near(c: int, e: nat, b: nat, v: int)
    requires e <= 24 && b <= 15
  {
    var s := Pow2(24 - e);
    InRange(b, v) &&
    (1 <= b <= 5 ==> Abs(Levels(b) * c - (2 * v - (Levels(b) - 1)) * s) <= s) &&
    (b >= 6 ==> 0 <= c * Pow2(QBits(b) - 1) - v * s < s)
  }

  /** Every coefficient its exponent bounds gets a value of its pointer's range, near the coefficient. */
  lemma QuantizedIsAccurate(c: int, e: nat, b: nat)
    requires e <= 24 && b <= 15 && Abs(c) < Pow2(24 - e)
    ensures Near(c, e, b, Quantized(c, e, b))
  {
    hide SymQuant, AsymQuant, Pow2, Abs;
    if 1 <= b <= 5 {
      SymQuantError(c, e, Levels(b));
    } else if b >= 6 {
      AsymQuantError(c, e, QBits(b));
    }
  }

  /** End to end: a coefficient whose exponent went through extraction, the minimum over its run of blocks, grouping
      and slope limiting still quantises in range, with the error its pointer promises. */
  lemma FrameQuantization(e: seq<seq<Byte>>, c: int, strategy: seq<nat>, blk: nat, ncoefs: nat, k: nat, b: nat)
    requires |e| == |strategy| && blk < |e| && ValidCount(ncoefs) && k < ncoefs && b <= 15
    requires strategy[0] != REUSE && forall j :: 0 <= j < |e| ==> strategy[j] <= 3
    requires forall j :: 0 <= j < |e| ==> |e[j]| == 256
    requires Abs(c) < 0x100_0000 && e[blk][k] == ExponentOf(c)
    ensures var x := RunExponents(e, strategy, blk, ncoefs)[k];
      0 <= x <= 24 && Near(c, x, b, Quantized(c, x, b))
  {
    hide RunExponents, Quantized, Near, Pow2, Abs, ExponentOf;
    CoefficientsStayBounded(e, c, strategy, blk, ncoefs, k);
    var x := RunExponents(e, strategy, blk, ncoefs)[k];
    QuantizedIsAccurate(c, x, b);
  }
}
