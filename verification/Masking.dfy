/** Power spectrum, masking curve and bit allocation pointers (a52.c). */
module Masking {
  import opened Arithmetic
  import opened BitStrings
  import opened Tables

  type Int16 = x: int | -0x8000 <= x < 0x8000

  /** Coefficient counts the encoder uses: 7 for LFE, 73 to 253 for full bandwidth channels. */
  predicate ValidEnd(end: nat) { end == 7 || 73 <= end <= 253 }

  // ---------- critical bands ----------

  /** First bin of a critical band; BandStart(50) is one past the last bin. */
  function BandStart(band: nat): nat
  {
    if band <= 28 then band
    else if band <= 35 then 28 + 3 * (band - 28)
    else if band <= 41 then 49 + 6 * (band - 35)
    else if band <= 45 then 85 + 12 * (band - 41)
    else 133 + 24 * (band - 45)
  }

  /** The band a bin lies in. */
  function BandOf(bin: nat): nat
  {
    if bin < 28 then bin
    else if bin < 49 then 28 + (bin - 28) / 3
    else if bin < 85 then 35 + (bin - 49) / 6
    else if bin < 133 then 41 + (bin - 85) / 12
    else 45 + (bin - 133) / 24
  }

  lemma BandStartStep(band: nat)
    requires band < 50
    ensures BandStart(band + 1) == BandStart(band) + CriticalBandSizeTab(band) && BandStart(50) == 253
  {
  }

  /** A bin lies in band b exactly when it is between the starts of b and b + 1. */
  lemma BandOfIs(bin: nat, b: nat)
    requires bin < 253 && b < 50
    ensures BandOf(bin) == b <==> BandStart(b) <= bin < BandStart(b + 1)
    ensures BandOf(bin) < 50
  {
  }

  /** a52_common_init: both band tables from the band sizes. */
  method CommonInit() returns (bandStart: array<Byte>, binToBand: array<Byte>)
    ensures fresh(bandStart) && bandStart.Length == 51 && fresh(binToBand) && binToBand.Length == 253
    ensures forall b :: 0 <= b <= 50 ==> bandStart[b] == BandStart(b)
    ensures forall k :: 0 <= k < 253 ==> binToBand[k] == BandOf(k)
  {
    bandStart, binToBand := new Byte[51], new Byte[253];
    var bin := 0;
    for band := 0 to 50
      invariant bin == BandStart(band) <= 253
      invariant forall b :: 0 <= b < band ==> bandStart[b] == BandStart(b)
      invariant forall k :: 0 <= k < bin ==> binToBand[k] == BandOf(k)
    {
      BandStartStep(band);
      BandBounds(band);
      var bandEnd := bin + CriticalBandSizeTab(band);
      bandStart[band] := bin;
      while bin < bandEnd
        invariant BandStart(band) <= bin <= bandEnd == BandStart(band + 1) <= 253
        invariant forall b :: 0 <= b <= band ==> bandStart[b] == BandStart(b)
        invariant forall k :: 0 <= k < bin ==> binToBand[k] == BandOf(k)
      {
        BandOfIs(bin, band);
        binToBand[bin] := band;
        bin := bin + 1;
      }
    }
    bandStart[50] := bin;
  }

  lemma BandBounds(b: nat)
    requires b < 50
    ensures BandStart(b) < BandStart(b + 1) <= 253 && BandStart(b + 1) - BandStart(b) <= 24
  {
  }

  // ---------- power spectrum ----------

  function Psd(e: int): int { 3072 - 128 * e }

  /** Addition of powers in the logarithmic domain. */
  function LogAdd(v: int, p: int): int
  {
    Max(v, p) + LogAddTab(Min(Abs(v - p) / 2, 255))
  }

  /** The power of bins lo .. hi-1 together. */
  function LogSum(psd: seq<int>, lo: nat, hi: nat): int
    requires lo < hi <= |psd|
    decreases hi
  {
    if hi == lo + 1 then psd[lo] else LogAdd(LogSum(psd, lo, hi - 1), psd[hi - 1])
  }

  function PsdRow(exp: seq<int>, end: nat): (r: seq<int>)
    requires end <= |exp|
    ensures |r| == end
  {
    seq(end, k requires 0 <= k < end => Psd(exp[k]))
  }

  function BandEnd(end: nat): (b: nat)
    requires 1 <= end <= 253
    ensures b <= 50 && 1 <= b
  {
    BandOfIs(end - 1, 0);
    BandOf(end - 1) + 1
  }

  /** Band powers of the bands that hold bins below `end`; the last one may be cut short. */
  function BandPsd(psd: seq<int>, end: nat): (r: seq<int>)
    requires 1 <= end <= 253 && end <= |psd|
    ensures |r| == BandEnd(end)
  {
    seq(BandEnd(end), b requires 0 <= b < BandEnd(end) => BandPower(psd, end, b))
  }

  function BandPower(psd: seq<int>, end: nat, b: nat): int
    requires 1 <= end <= 253 && end <= |psd| && b < BandEnd(end)
  {
    LastBand(end, b);
    LogSum(psd, BandStart(b), Min(BandStart(b + 1), end))
  }

  /** The bands below BandEnd(end) are exactly those that start below `end`. */
  lemma LastBand(end: nat, b: nat)
    requires 1 <= end <= 253
    ensures b < BandEnd(end) <==> b < 50 && BandStart(b) < end
    ensures b < BandEnd(end) ==> BandStart(b) < BandStart(b + 1)
  {
    BandOfIs(end - 1, 0);
    BandOfIs(end - 1, BandOf(end - 1));
    if b < 50 { BandOfIs(end - 1, b); }
  }

  /** Adding powers gives at least the least of them and at most 64 per addition above the greatest. */
  lemma {:induction false} LogSumRange(psd: seq<int>, lo: nat, hi: nat, least: int, top: int)
    requires lo < hi <= |psd| && forall k :: 0 <= k < |psd| ==> least <= psd[k] <= top
    ensures least <= LogSum(psd, lo, hi) <= top + 64 * (hi - lo - 1)
    decreases hi
  {
    if lo + 1 < hi { LogSumRange(psd, lo, hi - 1, least, top); }
  }

  /** With exponents in 0..24, no band power leaves the range 0..4544. */
  lemma BandPsdRange(exp: seq<int>, end: nat, b: nat)
    requires 1 <= end <= 253 && end <= |exp| && b < BandEnd(end)
    requires forall k :: 0 <= k < end ==> 0 <= exp[k] <= 24
    ensures 0 <= BandPsd(PsdRow(exp, end), end)[b] <= 4544
  {
    LastBand(end, b);
    BandBounds(b);
    LogSumRange(PsdRow(exp, end), BandStart(b), Min(BandStart(b + 1), end), 0, 3072);
  }

  /** a52_bit_alloc_calc_psd from bin 0. */
  method CalcPsd(bandStart: array<Byte>, exp: seq<Byte>, end: nat, psd: array<Int16>, bandPsd: array<Int16>)
    requires bandStart.Length == 51 && forall b :: 0 <= b <= 50 ==> bandStart[b] == BandStart(b)
    requires 1 <= end <= 253 && end <= |exp| && end <= psd.Length && bandPsd.Length == 50 && psd != bandPsd
    requires forall k :: 0 <= k < end ==> exp[k] <= 24
    modifies psd, bandPsd
    ensures psd[..end] == PsdRow(exp, end)
    ensures bandPsd[..BandEnd(end)] == BandPsd(psd[..end], end)
  {
    for bin := 0 to end
      invariant forall k :: 0 <= k < bin ==> psd[k] == Psd(exp[k])
    {
      var e: int := exp[bin];
      psd[bin] := 3072 - e * 128;
    }
    assert psd[..end] == PsdRow(exp, end);
    hide BandPsd;
    IntegrateBands(bandStart, end, psd, bandPsd, psd[..end]);
  }

  /** The power of every band up to the one that holds bin end - 1. */
  method IntegrateBands(bandStart: array<Byte>, end: nat, psd: array<Int16>, bandPsd: array<Int16>, ghost p: seq<int>)
    requires bandStart.Length == 51 && forall b :: 0 <= b <= 50 ==> bandStart[b] == BandStart(b)
    requires 1 <= end <= 253 && end <= psd.Length && bandPsd.Length == 50 && psd != bandPsd && p == psd[..end]
    requires forall k :: 0 <= k < end ==> 0 <= p[k] <= 3072
    modifies bandPsd
    ensures bandPsd[..BandEnd(end)] == BandPsd(p, end)
  {
    hide LogSum;
    var bin, band := 0, 0;
    LastBand(end, 0);
    while true
      invariant band < BandEnd(end) && bin == BandStart(band) < end
      invariant psd[..end] == p
      invariant forall b :: 0 <= b < band ==> bandPsd[b] == BandPower(p, end, b)
      decreases 50 - band
    {
      LastBand(end, band);
      BandBounds(band);
      var bandEnd := Min(bandStart[band + 1], end);
      var v := IntegrateBand(psd, bin, bandEnd, p);
      LogSumRange(p, bin, bandEnd, 0, 3072);
      bin := bandEnd;
      bandPsd[band] := v;
      band := band + 1;
      LastBand(end, band);
      if !(end > bandStart[band]) { break; }
    }
  }

  /** The inner loop of the power integration. */
  method IntegrateBand(psd: array<Int16>, from: nat, bandEnd: nat, ghost p: seq<int>) returns (v: int)
    requires from < bandEnd <= |p| <= psd.Length && psd[..|p|] == p
    ensures v == LogSum(p, from, bandEnd)
  {
    v := psd[from];
    for bin := from + 1 to bandEnd
      invariant v == LogSum(p, from, bin)
    {
      var adr := Min(Abs(v - psd[bin]) / 2, 255);
      v := Max(v, psd[bin]) + LogAddTab(adr);
    }
  }

  // ---------- masking curve ----------

  datatype Params = Params(fscod: nat, halfratecod: nat, sgain: nat, sdecay: nat, fdecay: nat, dbknee: nat, floor: int)
  {
    /** Values start_bit_allocation can load from the tables. */
    predicate Valid()
    {
      fscod < 3 && halfratecod < 3 && 1040 <= sgain <= 1344 && sdecay <= 21 && fdecay <= 123 && dbknee <= 2816 &&
      -2048 <= floor <= 752
    }
  }

  function LowComp1(a: int, b0: int, b1: int, c: int): int
  {
    if b0 + 256 == b1 then c else if b0 > b1 then Max(a - 64, 0) else a
  }

  function LowCompStep(a: int, b0: int, b1: int, band: nat): int
  {
    if band < 7 then LowComp1(a, b0, b1, 384)
    else if band < 20 then LowComp1(a, b0, b1, 320)
    else Max(a - 128, 0)
  }

  /** The last band of the LFE channel has no right neighbour and is skipped by the slope tests. */
  predicate LfeLast(bandEnd: nat, band: nat) { bandEnd == 7 && band == 6 }

  ghost predicate BandInput(bp: seq<int>)
  {
    (|bp| == 7 || 22 < |bp| <= 50) && forall b :: 0 <= b < |bp| ==> 0 <= bp[b] <= 4544
  }

  /** Low frequency compensation after band `band`, for the 22 bands that use it. */
  function LowComp(bp: seq<int>, band: nat): (r: int)
    requires band < |bp| && (band + 1 < |bp| || LfeLast(|bp|, band))
    ensures 0 <= r <= 384
  {
    var prev := if band == 0 then 0 else LowComp(bp, band - 1);
    if LfeLast(|bp|, band) then prev else LowCompStep(prev, bp[band], bp[band + 1], band)
  }

  /** The first band whose excitation uses the leaks: one past the first rise from band 2 on, at most 7. */
  function Begin(bp: seq<int>, band: nat): (r: nat)
    requires 2 <= band <= 7 <= |bp|
    ensures band <= r <= 7 && r >= 3
    decreases 7 - band
  {
    if band == 7 then 7
    else if !LfeLast(|bp|, band) && bp[band] <= bp[band + 1] then band + 1
    else Begin(bp, band + 1)
  }

  /** An upper envelope that sinks by `decay` per band; fastleak and slowleak of the source. */
  function Leak(bp: seq<int>, gain: int, decay: int, band: nat): int
    requires 7 <= |bp| && 2 <= band < |bp|
  {
    if band < Begin(bp, 2) then bp[band] - gain
    else Max(Leak(bp, gain, decay, band - 1) - decay, bp[band] - gain)
  }

  function Excite(bp: seq<int>, p: Params, fgain: int, band: nat): int
    requires BandInput(bp) && band < |bp|
  {
    if band < Begin(bp, 2) then bp[band] - fgain - LowComp(bp, band)
    else if band < 22 then
      Max(Leak(bp, fgain, p.fdecay, band) - LowComp(bp, band), Leak(bp, p.sgain, p.sdecay, band))
    else
      Max(Leak(bp, fgain, p.fdecay, band), Leak(bp, p.sgain, p.sdecay, band))
  }

  function KneeBoost(bp: int, dbknee: int): int
  {
    if dbknee - bp > 0 then (dbknee - bp) / 4 else 0
  }

  function MaskAt(bp: seq<int>, p: Params, fgain: int, band: nat): int
    requires BandInput(bp) && band < |bp| && p.Valid()
  {
    ShrBound(band, p.halfratecod);
    Max(HearingThresholdTab(Shr(band, p.halfratecod), p.fscod),
        Excite(bp, p, fgain, band) + KneeBoost(bp[band], p.dbknee))
  }

  lemma {:induction false} ShrBound(v: nat, k: nat)
    ensures Shr(v, k) <= v
  {
    if k > 0 { ShrBound(v / 2, k - 1); }
  }

  lemma {:induction false} LeakRange(bp: seq<int>, gain: int, decay: int, band: nat, top: int)
    requires 7 <= |bp| && 2 <= band < |bp| && 0 <= decay && forall b :: 0 <= b < |bp| ==> bp[b] <= top
    ensures bp[band] - gain <= Leak(bp, gain, decay, band) <= top - gain
  {
    if band >= Begin(bp, 2) { LeakRange(bp, gain, decay, band - 1, top); }
  }

  /** The running leak in closed form: the greatest of bp[j] - gain - (band - j) * decay over the bands since the first
      rise. */
  lemma {:induction false} LeakEnvelope(bp: seq<int>, gain: int, decay: int, band: nat, j: nat)
    requires 7 <= |bp| && Begin(bp, 2) - 1 <= j <= band < |bp|
    ensures Leak(bp, gain, decay, band) >= bp[j] - gain - (band - j) * decay
  {
    if j < band {
      LeakEnvelope(bp, gain, decay, band - 1, j);
      assert (band - j) * decay == (band - 1 - j) * decay + decay;
    }
  }

  lemma {:induction false} LeakReached(bp: seq<int>, gain: int, decay: int, band: nat) returns (j: nat)
    requires 7 <= |bp| && Begin(bp, 2) - 1 <= band < |bp|
    ensures Begin(bp, 2) - 1 <= j <= band && Leak(bp, gain, decay, band) == bp[j] - gain - (band - j) * decay
  {
    if band < Begin(bp, 2) || Leak(bp, gain, decay, band - 1) - decay <= bp[band] - gain {
      j := band;
    } else {
      j := LeakReached(bp, gain, decay, band - 1);
      assert (band - j) * decay == (band - 1 - j) * decay + decay;
    }
  }

  /** The masking curve fits 16 bits, is at least the hearing threshold, and lies at most fgain + 384 below the band
      power. */
  lemma MaskRange(bp: seq<int>, p: Params, fgain: int, band: nat)
    requires BandInput(bp) && band < |bp| && p.Valid() && 128 <= fgain <= 1024
    ensures -1408 <= Excite(bp, p, fgain, band) <= 4416
    ensures 752 <= MaskAt(bp, p, fgain, band) <= 5120
    ensures MaskAt(bp, p, fgain, band) >= bp[band] - fgain - 384
  {
    if band >= 2 {
      LeakRange(bp, fgain, p.fdecay, band, 4544);
      LeakRange(bp, p.sgain, p.sdecay, band, 4544);
    }
  }

  /** The excitation of bands 0 and 1. */
  method ExciteFirst(p: Params, bp: seq<Int16>, fgain: int, excite: array<Int16>) returns (lowcomp: int)
    requires BandInput(bp) && p.Valid() && 128 <= fgain <= 1024 && excite.Length == 50
    modifies excite
    ensures lowcomp == LowComp(bp, 1) && forall b :: 0 <= b < 2 ==> excite[b] == Excite(bp, p, fgain, b)
  {
    lowcomp := LowComp1(0, bp[0], bp[1], 384);
    MaskRange(bp, p, fgain, 0);
    excite[0] := bp[0] - fgain - lowcomp;
    lowcomp := LowComp1(lowcomp, bp[1], bp[2], 384);
    MaskRange(bp, p, fgain, 1);
    excite[1] := bp[1] - fgain - lowcomp;
  }

  /** One band of the low range: what becomes of the running values. */
  lemma LowBand(bp: seq<int>, p: Params, fgain: int, b: nat)
    requires BandInput(bp) && p.Valid() && 128 <= fgain <= 1024 && 2 <= b < Min(|bp|, 22)
    ensures LowComp(bp, b) ==
      if LfeLast(|bp|, b) then LowComp(bp, b - 1) else LowCompStep(LowComp(bp, b - 1), bp[b], bp[b + 1], b)
    ensures b < Begin(bp, 2) ==>
      Leak(bp, fgain, p.fdecay, b) == bp[b] - fgain && Leak(bp, p.sgain, p.sdecay, b) == bp[b] - p.sgain &&
      Excite(bp, p, fgain, b) == bp[b] - fgain - LowComp(bp, b)
    ensures b >= Begin(bp, 2) > 2 ==>
      Leak(bp, fgain, p.fdecay, b) == Max(Leak(bp, fgain, p.fdecay, b - 1) - p.fdecay, bp[b] - fgain) &&
      Leak(bp, p.sgain, p.sdecay, b) == Max(Leak(bp, p.sgain, p.sdecay, b - 1) - p.sdecay, bp[b] - p.sgain) &&
      Excite(bp, p, fgain, b) == Max(Leak(bp, fgain, p.fdecay, b) - LowComp(bp, b), Leak(bp, p.sgain, p.sdecay, b))
    ensures -1408 <= Excite(bp, p, fgain, b) <= 4416
  {
    MaskRange(bp, p, fgain, b);
    hide MaskAt;
  }

  /** The excitation up to the first rise. */
  method ExciteStart(p: Params, bp: seq<Int16>, fgain: int, excite: array<Int16>)
      returns (begin: nat, lowcomp: int, fastleak: int, slowleak: int)
    requires BandInput(bp) && p.Valid() && 128 <= fgain <= 1024 && excite.Length == 50
    modifies excite
    ensures begin == Begin(bp, 2) && lowcomp == LowComp(bp, begin - 1)
    ensures forall b :: 0 <= b < begin ==> excite[b] == Excite(bp, p, fgain, b)
    ensures fastleak == Leak(bp, fgain, p.fdecay, begin - 1) && slowleak == Leak(bp, p.sgain, p.sdecay, begin - 1)
  {
    var bandEnd := |bp|;
    lowcomp := ExciteFirst(p, bp, fgain, excite);
    begin := 7;
    fastleak, slowleak := 0, 0;
    var band := 2;
    while band < 7
      invariant 2 <= band <= 7 && Begin(bp, 2) == Begin(bp, band) && begin == 7
      invariant lowcomp == LowComp(bp, band - 1)
      invariant forall b :: 0 <= b < band ==> excite[b] == Excite(bp, p, fgain, b)
      invariant band > 2 ==> fastleak == Leak(bp, fgain, p.fdecay, band - 1)
      invariant band > 2 ==> slowleak == Leak(bp, p.sgain, p.sdecay, band - 1)
    {
      if !(bandEnd == 7 && band == 6) {
        lowcomp := LowComp1(lowcomp, bp[band], bp[band + 1], 384);
      }
      MaskRange(bp, p, fgain, band);
      fastleak := bp[band] - fgain;
      slowleak := bp[band] - p.sgain;
      excite[band] := fastleak - lowcomp;
      if !(bandEnd == 7 && band == 6) {
        if bp[band] <= bp[band + 1] {
          begin := band + 1;
          break;
        }
      }
      band := band + 1;
    }
  }

  /** The excitation of bands 0 to 21, with the leaks as they stand when band 22 is reached. */
  method ExciteLow(p: Params, bp: seq<Int16>, fgain: int, excite: array<Int16>) returns (fastleak: int, slowleak: int)
    requires BandInput(bp) && p.Valid() && 128 <= fgain <= 1024 && excite.Length == 50
    modifies excite
    ensures forall b :: 0 <= b < Min(|bp|, 22) ==> excite[b] == Excite(bp, p, fgain, b)
    ensures fastleak == Leak(bp, fgain, p.fdecay, Min(|bp|, 22) - 1)
    ensures slowleak == Leak(bp, p.sgain, p.sdecay, Min(|bp|, 22) - 1)
  {
    hide Excite, Leak, LowComp, LowCompStep;
    var bandEnd := |bp|;
    var begin, lowcomp: int;
    begin, lowcomp, fastleak, slowleak := ExciteStart(p, bp, fgain, excite);
    var end1 := Min(bandEnd, 22);
    for b := begin to end1
      invariant lowcomp == LowComp(bp, b - 1)
      invariant forall k :: 0 <= k < b ==> excite[k] == Excite(bp, p, fgain, k)
      invariant fastleak == Leak(bp, fgain, p.fdecay, b - 1)
      invariant slowleak == Leak(bp, p.sgain, p.sdecay, b - 1)
    {
      if !(bandEnd == 7 && b == 6) {
        lowcomp := LowCompStep(lowcomp, bp[b], bp[b + 1], b);
      }
      LowBand(bp, p, fgain, b);
      fastleak := Max(fastleak - p.fdecay, bp[b] - fgain);
      slowleak := Max(slowleak - p.sdecay, bp[b] - p.sgain);
      excite[b] := Max(fastleak - lowcomp, slowleak);
    }
  }

  /** a52_bit_alloc_calc_mask from bin 0 and without delta bit allocation. */
  method CalcMask(p: Params, binToBand: array<Byte>, bandPsd: seq<Int16>, end: nat, fgain: int, mask: array<Int16>)
    requires binToBand.Length == 253 && forall k :: 0 <= k < 253 ==> binToBand[k] == BandOf(k)
    requires ValidEnd(end) && |bandPsd| == 50 && mask.Length == 50
    requires BandInput(bandPsd[..BandEnd(end)]) && p.Valid() && 128 <= fgain <= 1024
    modifies mask
    ensures forall b :: 0 <= b < BandEnd(end) ==> mask[b] == MaskAt(bandPsd[..BandEnd(end)], p, fgain, b)
  {
    var excite := new Int16[50];
    var bandEnd := binToBand[end - 1] + 1;
    var bp: seq<Int16> := bandPsd[..bandEnd];
    var fastleak, slowleak := ExciteLow(p, bp, fgain, excite);
    ExciteHigh(p, bp, fgain, excite, fastleak, slowleak);
    MaskBands(p, bp, fgain, excite, mask);
  }

  /** The excitation from band 22 on: the leaks alone. */
  method ExciteHigh(p: Params, bp: seq<Int16>, fgain: int, excite: array<Int16>, fast: int, slow: int)
    requires BandInput(bp) && p.Valid() && 128 <= fgain <= 1024 && excite.Length == 50
    requires forall b :: 0 <= b < Min(|bp|, 22) ==> excite[b] == Excite(bp, p, fgain, b)
    requires fast == Leak(bp, fgain, p.fdecay, Min(|bp|, 22) - 1) &&
      slow == Leak(bp, p.sgain, p.sdecay, Min(|bp|, 22) - 1)
    modifies excite
    ensures forall b :: 0 <= b < |bp| ==> excite[b] == Excite(bp, p, fgain, b)
  {
    hide Params.Valid;
    var bandEnd := |bp|;
    var fastleak, slowleak := fast, slow;
    for band := 22 to Max(bandEnd, 22)
      invariant forall k :: 0 <= k < Min(Max(band, 22), bandEnd) ==> excite[k] == Excite(bp, p, fgain, k)
      invariant fastleak == Leak(bp, fgain, p.fdecay, Min(bandEnd, band) - 1)
      invariant slowleak == Leak(bp, p.sgain, p.sdecay, Min(bandEnd, band) - 1)
    {
      MaskRange(bp, p, fgain, band);
      fastleak := Max(fastleak - p.fdecay, bp[band] - fgain);
      slowleak := Max(slowleak - p.sdecay, bp[band] - p.sgain);
      excite[band] := Max(fastleak, slowleak);
    }
  }

  /** The masking curve from the excitation, which is adjusted in place below the knee. */
  method MaskBands(p: Params, bp: seq<Int16>, fgain: int, excite: array<Int16>, mask: array<Int16>)
    requires BandInput(bp) && p.Valid() && 128 <= fgain <= 1024 && excite.Length == mask.Length == 50 && excite != mask
    requires forall b :: 0 <= b < |bp| ==> excite[b] == Excite(bp, p, fgain, b)
    modifies excite, mask
    ensures forall b :: 0 <= b < |bp| ==> mask[b] == MaskAt(bp, p, fgain, b)
  {
    hide Excite;
    for band := 0 to |bp|
      invariant forall k :: band <= k < |bp| ==> excite[k] == Excite(bp, p, fgain, k)
      invariant forall k :: 0 <= k < band ==> mask[k] == MaskAt(bp, p, fgain, k)
    {
      MaskRange(bp, p, fgain, band);
      ShrBound(band, p.halfratecod);
      var tmp := p.dbknee - bp[band];
      if tmp > 0 {
        excite[band] := excite[band] + tmp / 4;
      }
      mask[band] := Max(HearingThresholdTab(Shr(band, p.halfratecod), p.fscod), excite[band]);
    }
  }

  // ---------- bit allocation pointers ----------

  /** `x & 0x1FE0` for x >= 0. */
  function And1FE0(x: nat): nat { x % 0x2000 / 32 * 32 }

  /** It keeps bits 5 to 12 and clears the others. */
  lemma And1FE0Is(x: nat) returns (high: nat, bits: nat, low: nat)
    ensures x == 0x2000 * high + And1FE0(x) + low && And1FE0(x) == 32 * bits && bits < 256 && low < 32
  {
    high, bits := x / 0x2000, x % 0x2000 / 32;
    low := x % 0x2000 % 32;
  }

  /** The quantised masking level a band's coefficients are compared with. */
  function Level(mask: int, snroffset: int, floor: int): int
  {
    And1FE0(Max(mask - snroffset - floor, 0)) + floor
  }

  /** The bit allocation pointer of one coefficient; -960 switches everything off. */
  function Bap(mask: int, psd: int, snroffset: int, floor: int): (r: nat)
    ensures r <= 15
  {
    if snroffset == -960 then 0 else BapTab(Clip((psd - Level(mask, snroffset, floor)) / 32, 0, 63))
  }

  /** The offset a search position stands for. */
  function SnrOffset(s: int): int { 4 * s - 960 }

  /** For masks the encoder produces, the masked difference never exceeds 13 bits, so only low bits are lost. */
  lemma LevelDropsLowBits(mask: int, s: int, floor: int)
    requires mask <= 5120 && 0 < s && -2048 <= floor
    ensures var x := Max(mask - SnrOffset(s) - floor, 0); x < 8192 && And1FE0(x) == x - x % 32
  {
  }

  /** More signal-to-noise never takes bits from a coefficient. */
  lemma BapMonotone(mask: int, psd: int, s: int, t: int, floor: int)
    requires mask <= 5120 && 0 <= s <= t && -2048 <= floor
    ensures Bap(mask, psd, SnrOffset(s), floor) <= Bap(mask, psd, SnrOffset(t), floor)
  {
    if s > 0 {
      var x, y := Max(mask - SnrOffset(s) - floor, 0), Max(mask - SnrOffset(t) - floor, 0);
      LevelDropsLowBits(mask, s, floor);
      LevelDropsLowBits(mask, t, floor);
      assert y - y % 32 <= x - x % 32;
      AddressMonotone(psd - Level(mask, SnrOffset(s), floor), psd - Level(mask, SnrOffset(t), floor));
    }
  }

  lemma AddressMonotone(a: int, b: int)
    requires a <= b
    ensures 0 <= Clip(a / 32, 0, 63) <= Clip(b / 32, 0, 63) <= 63
    ensures BapTab(Clip(a / 32, 0, 63)) <= BapTab(Clip(b / 32, 0, 63))
  {
    assert a / 32 <= b / 32;
  }

  /** a52_bit_alloc_calc_bap from bin 0, up to the last band that holds coefficients. */
  method CalcBap(bandStart: array<Byte>, mask: seq<Int16>, psd: seq<Int16>, end: nat, snroffset: int, floor: int,
                 bap: array<Byte>)
    requires bandStart.Length == 51 && forall b :: 0 <= b <= 50 ==> bandStart[b] == BandStart(b)
    requires 1 <= end <= 253 && |mask| == 50 && |psd| == 256 && bap.Length == 256
    requires bap != bandStart
    modifies bap
    ensures forall k :: 0 <= k < end ==> BandOf(k) < 50 && bap[k] == Bap(mask[BandOf(k)], psd[k], snroffset, floor)
    ensures snroffset == -960 ==> forall k :: 0 <= k < 256 ==> bap[k] == 0
    ensures snroffset != -960 ==> forall k :: end <= k < 256 ==> bap[k] == old(bap[k])
  {
    BandsOfBins();
    if snroffset == -960 {
      for k := 0 to 256
        invariant forall j :: 0 <= j < k ==> bap[j] == 0
      {
        bap[k] := 0;
      }
      return;
    }
    var bin, band := 0, 0;
    LastBand(end, 0);
    while true
      invariant band < BandEnd(end) && bin == BandStart(band) < end
      invariant forall k :: 0 <= k < bin ==> bap[k] == Bap(mask[BandOf(k)], psd[k], snroffset, floor)
      invariant forall k :: bin <= k < 256 ==> bap[k] == old(bap[k])
      decreases 50 - band
    {
      LastBand(end, band);
      BandBounds(band);
      var m := And1FE0(Max(mask[band] - snroffset - floor, 0)) + floor;
      var bandEnd := Min(bandStart[band + 1], end);
      FillBand(mask, psd, band, bin, bandEnd, m, snroffset, floor, bap);
      bin := bandEnd;
      band := band + 1;
      LastBand(end, band);
      if !(end > bandStart[band]) { break; }
    }
  }

  lemma BandsOfBins()
    ensures forall k: nat :: k < 253 ==> BandOf(k) < 50
  {
  }

  /** One band of pointers, an odd first one and then two at a time. */
  method FillBand(mask: seq<Int16>, psd: seq<Int16>, band: nat, from: nat, bandEnd: nat, m: int, snroffset: int,
                  floor: int, bap: array<Byte>)
    requires band < 50 && |mask| == 50 && |psd| == 256 && bap.Length == 256 && snroffset != -960
    requires BandStart(band) <= from < bandEnd <= BandStart(band + 1) && bandEnd <= 253
    requires m == Level(mask[band], snroffset, floor)
    modifies bap
    ensures forall k :: from <= k < bandEnd ==> BandOf(k) == band && bap[k] == Bap(mask[band], psd[k], snroffset, floor)
    ensures forall k :: 0 <= k < 256 && !(from <= k < bandEnd) ==> bap[k] == old(bap[k])
  {
    InBand(band, from, bandEnd);
    hide BandOf, BandStart, Level;
    var bin := from;
    if (bandEnd - bin) % 2 == 1 {
      var address := Clip((psd[bin] - m) / 32, 0, 63);
      bap[bin] := BapTab(address);
      bin := bin + 1;
    }
    while bin < bandEnd
      invariant from <= bin <= bandEnd && (bandEnd - bin) % 2 == 0
      invariant forall k :: from <= k < bin ==> bap[k] == Bap(mask[band], psd[k], snroffset, floor)
      invariant forall k :: 0 <= k < 256 && !(from <= k < bin) ==> bap[k] == old(bap[k])
    {
      var address1 := Clip((psd[bin] - m) / 32, 0, 63);
      var address2 := Clip((psd[bin + 1] - m) / 32, 0, 63);
      bap[bin] := BapTab(address1);
      bap[bin + 1] := BapTab(address2);
      bin := bin + 2;
    }
  }

  lemma InBand(band: nat, lo: nat, hi: nat)
    requires band < 50 && BandStart(band) <= lo && hi <= BandStart(band + 1) && hi <= 253
    ensures forall k :: lo <= k < hi ==> BandOf(k) == band
  {
    forall k | lo <= k < hi
      ensures BandOf(k) == band
    {
      BandOfIs(k, band);
    }
  }
}
