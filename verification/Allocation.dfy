/** The bit allocation of a frame as a function of its exponents, and the search for the best SNR offset (bitalloc.c)
    over that function. */
module Allocation {
  import opened BitStrings
  import opened Tables
  import opened Masking
  import opened MantissaCost
  import Exponent

  const BLOCKS: nat := 6

  /** One channel of a frame: strategies and final exponents of its six blocks. */
  datatype Channel = Channel(strategy: seq<nat>, exp: seq<seq<Byte>>, ncoefs: nat)
  {
    ghost predicate Valid()
    {
      |strategy| == 6 && |exp| == 6 && ValidEnd(ncoefs) &&
      1 <= strategy[0] <= 3 && (forall b :: 0 <= b < 6 ==> strategy[b] <= 3) &&
      (forall b :: 0 <= b < 6 ==> ValidRow(exp[b], ncoefs)) &&
      (forall b :: 0 < b < 6 && strategy[b] == Exponent.REUSE ==> exp[b][..ncoefs] == exp[b - 1][..ncoefs])
    }
  }

  ghost predicate ValidRow(row: seq<Byte>, ncoefs: nat)
  {
    |row| == 256 && ncoefs <= 256 && forall k :: 0 <= k < ncoefs ==> row[k] <= 24
  }

  datatype FrameIn = FrameIn(channels: seq<Channel>, p: Params)
  {
    ghost predicate Valid()
    {
      1 <= |channels| <= 6 && p.Valid() && forall ch :: 0 <= ch < |channels| ==> channels[ch].Valid()
    }
  }

  /** The fast gain code of a block: fixed by the strategy of the block whose exponents it uses. */
  function FgainCod(c: Channel, b: nat): (r: nat)
    requires c.Valid() && b < 6
    ensures 1 <= r <= 3
    ensures c.strategy[b] != Exponent.REUSE ==> r + c.strategy[b] == 4
    ensures b > 0 && c.strategy[b] == Exponent.REUSE ==> r == FgainCod(c, b - 1)
  {
    4 - c.strategy[Exponent.RunStart(c.strategy, b)]
  }

  // ---------- what a decoder computes from one block's exponents ----------

  function BandPowers(exp: seq<Byte>, ncoefs: nat): (bp: seq<int>)
    requires ValidRow(exp, ncoefs) && ValidEnd(ncoefs)
    ensures BandInput(bp) && |bp| == BandEnd(ncoefs)
  {
    RowBandInput(exp, ncoefs);
    BandPsd(PsdRow(exp, ncoefs), ncoefs)
  }

  lemma RowBandInput(exp: seq<Byte>, ncoefs: nat)
    requires ValidRow(exp, ncoefs) && ValidEnd(ncoefs)
    ensures BandInput(BandPsd(PsdRow(exp, ncoefs), ncoefs))
  {
    forall b | 0 <= b < BandEnd(ncoefs)
      ensures 0 <= BandPsd(PsdRow(exp, ncoefs), ncoefs)[b] <= 4544
    {
      BandPsdRange(exp, ncoefs, b);
    }
  }

  function MaskRow(exp: seq<Byte>, ncoefs: nat, p: Params, fgaincod: nat): (m: seq<int>)
    requires ValidRow(exp, ncoefs) && ValidEnd(ncoefs) && p.Valid()
    ensures |m| == BandEnd(ncoefs)
  {
    var bp := BandPowers(exp, ncoefs);
    seq(|bp|, b requires 0 <= b < |bp| => MaskAt(bp, p, FastGainTab(fgaincod), b))
  }

  lemma BinBelowBandEnd(ncoefs: nat, k: nat)
    requires ValidEnd(ncoefs) && k < ncoefs
    ensures BandOf(k) < BandEnd(ncoefs)
  {
  }

  /** All pointers of one block and channel. */
  function Baps(exp: seq<Byte>, ncoefs: nat, p: Params, fgaincod: nat, snroffset: int): (r: seq<nat>)
    requires ValidRow(exp, ncoefs) && ValidEnd(ncoefs) && p.Valid()
    ensures |r| == ncoefs && forall k :: 0 <= k < ncoefs ==> r[k] <= 15
  {
    var m := MaskRow(exp, ncoefs, p, fgaincod);
    seq(ncoefs, k requires 0 <= k < ncoefs =>
      (BinBelowBandEnd(ncoefs, k); Bap(m[BandOf(k)], Psd(exp[k]), snroffset, p.floor)))
  }

  lemma MaskRowRange(exp: seq<Byte>, ncoefs: nat, p: Params, fgaincod: nat, b: nat)
    requires ValidRow(exp, ncoefs) && ValidEnd(ncoefs) && p.Valid() && b < BandEnd(ncoefs)
    ensures 752 <= MaskRow(exp, ncoefs, p, fgaincod)[b] <= 5120
  {
    MaskRange(BandPowers(exp, ncoefs), p, FastGainTab(fgaincod), b);
  }

  lemma BapsMonotone(exp: seq<Byte>, ncoefs: nat, p: Params, fgaincod: nat, s: int, t: int)
    requires ValidRow(exp, ncoefs) && ValidEnd(ncoefs) && p.Valid() && 0 <= s <= t
    ensures Pointwise(Baps(exp, ncoefs, p, fgaincod, SnrOffset(s)), Baps(exp, ncoefs, p, fgaincod, SnrOffset(t)))
  {
    forall k | 0 <= k < ncoefs
      ensures Baps(exp, ncoefs, p, fgaincod, SnrOffset(s))[k] <= Baps(exp, ncoefs, p, fgaincod, SnrOffset(t))[k]
    {
      BinBelowBandEnd(ncoefs, k);
      MaskRowRange(exp, ncoefs, p, fgaincod, BandOf(k));
      BapMonotone(MaskRow(exp, ncoefs, p, fgaincod)[BandOf(k)], Psd(exp[k]), s, t, p.floor);
    }
  }

  // ---------- the cost of a frame ----------

  function BlockRows(f: FrameIn, b: nat, s: int): (r: seq<seq<nat>>)
    requires f.Valid() && b < 6
    ensures |r| == |f.channels|
  {
    seq(|f.channels|, ch requires 0 <= ch < |f.channels| =>
      Baps(f.channels[ch].exp[b], f.channels[ch].ncoefs, f.p, FgainCod(f.channels[ch], b), SnrOffset(s)))
  }

  /** Mantissa bits of the first n blocks. */
  function CostOf(f: FrameIn, s: int, n: nat): nat
    requires f.Valid() && n <= 6
  {
    if n == 0 then 0 else CostOf(f, s, n - 1) + BlockBits(Flat(BlockRows(f, n - 1, s)))
  }

  /** Mantissa bits of the frame at search position s. */
  function Cost(f: FrameIn, s: int): nat
    requires f.Valid()
  {
    CostOf(f, s, BLOCKS)
  }

  lemma {:induction false} FlatPointwise(a: seq<seq<nat>>, b: seq<seq<nat>>)
    requires |a| == |b| && forall i :: 0 <= i < |a| ==> Pointwise(a[i], b[i])
    ensures Pointwise(Flat(a), Flat(b))
  {
    if a != [] {
      var n := |a| - 1;
      FlatPointwise(a[..n], b[..n]);
      assert Pointwise(a[n], b[n]);
    }
  }

  lemma BlockRowsMonotone(f: FrameIn, b: nat, s: int, t: int)
    requires f.Valid() && b < 6 && 0 <= s <= t
    ensures Pointwise(Flat(BlockRows(f, b, s)), Flat(BlockRows(f, b, t)))
  {
    forall ch | 0 <= ch < |f.channels|
      ensures Pointwise(BlockRows(f, b, s)[ch], BlockRows(f, b, t)[ch])
    {
      BapsMonotone(f.channels[ch].exp[b], f.channels[ch].ncoefs, f.p, FgainCod(f.channels[ch], b), s, t);
    }
    FlatPointwise(BlockRows(f, b, s), BlockRows(f, b, t));
  }

  lemma {:induction false} CostOfAlmostMonotone(f: FrameIn, s: int, t: int, n: nat)
    requires f.Valid() && 0 <= s <= t && n <= 6
    ensures CostOf(f, s, n) <= CostOf(f, t, n) + 11 * n
  {
    if n > 0 {
      CostOfAlmostMonotone(f, s, t, n - 1);
      BlockRowsMonotone(f, n - 1, s, t);
      BlockBitsAlmostMonotone(Flat(BlockRows(f, n - 1, s)), Flat(BlockRows(f, n - 1, t)));
    }
  }

  /** A higher SNR offset can make a frame cheaper, by at most 66 bits. */
  lemma CostAlmostMonotone(f: FrameIn, s: int, t: int)
    requires f.Valid() && 0 <= s <= t
    ensures Cost(f, s) <= Cost(f, t) + 66
  {
    CostOfAlmostMonotone(f, s, t, 6);
  }

  lemma {:induction false} FlatZeros(rows: seq<seq<nat>>)
    requires forall i, k :: 0 <= i < |rows| && 0 <= k < |rows[i]| ==> rows[i][k] == 0
    ensures forall k :: 0 <= k < |Flat(rows)| ==> Flat(rows)[k] == 0
  {
    if rows != [] {
      var n := |rows| - 1;
      FlatZeros(rows[..n]);
      assert forall k :: 0 <= k < |rows[n]| ==> rows[n][k] == 0;
    }
  }

  lemma {:induction false} CostOfZero(f: FrameIn, n: nat)
    requires f.Valid() && n <= 6
    ensures CostOf(f, 0, n) == 0
  {
    if n > 0 {
      CostOfZero(f, n - 1);
      FlatZeros(BlockRows(f, n - 1, 0));
      BlockBitsOfZeros(Flat(BlockRows(f, n - 1, 0)));
    }
  }

  /** At position 0 no mantissa gets any bit. */
  lemma CostZero(f: FrameIn)
    requires f.Valid()
    ensures Cost(f, 0) == 0
  {
    CostOfZero(f, 6);
  }
}
