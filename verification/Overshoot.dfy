/** A frame on which the accurate search (bitalloc.c:287-328) misses the best SNR offset: a low tone in silence, mono
    at 48 kHz and 320 kbps. The second jump leaves the range 0..1023, and nothing brings the search back. */
module Overshoot {
  import opened BitStrings
  import opened Tables
  import opened Masking
  import opened MantissaCost
  import opened Allocation
  import opened Search
  import opened BitAlloc
  import opened FrameSyntax
  import opened FrameOutput
  import Exponent
  import D = FrameDecoder

  const BINS: nat := 124

  /** Full scale in the first bins, then silence, as steep as exponents can be sent. */
  function ToneExp(k: nat): (e: Byte)
    ensures e <= 24
  {
    if k < 7 then 0 else if k < 18 then 2 * (k - 6) else 24
  }

  function ToneRow(): (r: seq<Byte>)
    ensures |r| == 256 && forall k :: 0 <= k < 256 ==> r[k] == ToneExp(k)
  {
    seq(256, k requires 0 <= k < 256 => ToneExp(k))
  }

  /** One set of exponents for all six blocks. */
  function ToneChannel(): Channel
  {
    Channel([Exponent.D15, 0, 0, 0, 0, 0], seq(6, _ => ToneRow()), BINS)
  }

  /** Mono at 48 kHz, frame size code 26, nothing optional. */
  function ToneConfig(): Config
  {
    Config(1, false, 0, 0, false, false, false, false, 0, false, 26)
  }

  /** The codes frame_init sets. */
  function ToneCodes(): ParamCodes
  {
    ParamCodes(2, 1, 1, 2, 7)
  }

  function ToneParams(): (p: Params)
    ensures p.Valid()
  {
    Params(0, 0, 1240, 19, 83, 2304, -2048)
  }

  function ToneFrame(): FrameIn
  {
    FrameIn([ToneChannel()], ToneParams())
  }

  lemma ToneValid()
    ensures ToneChannel().Valid() && ToneFrame().Valid() && ToneConfig().Valid() && ToneCodes().Valid()
    ensures LoadParams(ToneConfig(), ToneCodes()) == ToneParams()
    ensures forall b :: 0 <= b < 6 ==> FgainCod(ToneChannel(), b) == 3
  {
    assert forall b :: 0 <= b < 6 ==> ToneChannel().exp[b] == ToneRow();
    var c := ToneChannel();
    forall b | 0 <= b < 6
      ensures Exponent.RunStart(c.strategy, b) == 0
    {
      Exponent.RunStartIs(c.strategy, 0, b);
    }
  }

  // ---------- band powers ----------

  function TonePower(b: nat): int
  {
    if b < 7 then 3072 else if b < 18 then 3072 - 256 * (b - 6) else if b < 28 then 0
    else if b < 35 || b >= 44 then 101 else if b < 41 then 165 else 228
  }

  /** n silent bins together. */
  function Silence(n: nat): int
    requires n >= 1
  {
    if n == 1 then 0 else LogAdd(Silence(n - 1), 0)
  }

  lemma {:induction false} LogSumOfZeros(psd: seq<int>, lo: nat, hi: nat)
    requires lo < hi <= |psd| && forall k :: lo <= k < hi ==> psd[k] == 0
    ensures LogSum(psd, lo, hi) == Silence(hi - lo)
    decreases hi
  {
    hide LogAdd;
    if lo + 1 < hi { LogSumOfZeros(psd, lo, hi - 1); }
  }

  lemma SilenceIs()
    ensures Silence(3) == 101 && Silence(6) == 165 && Silence(12) == 228
  {
    assert Silence(1) == 0 && Silence(2) == 64 && Silence(3) == 101 && Silence(4) == 128;
    assert Silence(5) == 148 && Silence(6) == 165;
    assert Silence(7) == 179 && Silence(8) == 191;
    assert Silence(9) == 202 && Silence(10) == 211;
    assert Silence(11) == 220 && Silence(12) == 228;
  }

  lemma ToneBand(b: nat)
    requires b < 45
    ensures var lo, hi := BandStart(b), Min(BandStart(b + 1), BINS);
      lo < hi && (b < 28 ==> lo == b && hi == b + 1) &&
      (b >= 28 ==> lo >= 28 && hi - lo == if b < 35 || b == 44 then 3 else if b < 41 then 6 else 12)
  {
  }

  lemma TonePsd(row: seq<Byte>, k: nat)
    requires row == ToneRow() && k < BINS
    ensures BINS == 124 && |PsdRow(row, BINS)| == 124
    ensures PsdRow(row, BINS)[k] == if k < 18 then TonePower(k) else 0
  {
  }

  lemma BandIs(exp: seq<Byte>, ncoefs: nat, b: nat)
    requires ValidRow(exp, ncoefs) && ValidEnd(ncoefs) && b < BandEnd(ncoefs)
    ensures |BandPowers(exp, ncoefs)| == BandEnd(ncoefs) && BandStart(b) < Min(BandStart(b + 1), ncoefs) <= ncoefs
    ensures BandPowers(exp, ncoefs)[b] ==
      LogSum(PsdRow(exp, ncoefs), BandStart(b), Min(BandStart(b + 1), ncoefs))
  {
    LastBand(ncoefs, b);
    hide LogSum, BandStart, PsdRow;
  }

  lemma ToneFits(row: seq<Byte>)
    requires row == ToneRow()
    ensures ValidRow(row, BINS) && ValidEnd(BINS) && BandEnd(BINS) == 45
  {
  }

  lemma ToneBands(row: seq<Byte>, b: nat)
    requires row == ToneRow() && b < 45
    ensures ValidRow(row, BINS) && ValidEnd(BINS) && BandEnd(BINS) == 45 == |BandPowers(row, BINS)|
    ensures BandPowers(row, BINS)[b] == TonePower(b)
  {
    hide *;
    ToneFits(row);
    ToneBand(b);
    SilenceIs();
    BandIs(row, BINS, b);
    var psd, lo, hi := PsdRow(row, BINS), BandStart(b), Min(BandStart(b + 1), BINS);
    TonePsd(row, lo);
    if b < 28 {
      OneBin(psd, b);
      HighBands(b);
    } else {
      forall k | lo <= k < hi
        ensures psd[k] == 0
      {
        TonePsd(row, k);
      }
      LogSumOfZeros(psd, lo, hi);
      HighBands(b);
    }
  }

  lemma HighBands(b: nat)
    requires b < 45
    ensures 18 <= b < 28 ==> TonePower(b) == 0
    ensures 28 <= b < 45 ==> TonePower(b) == if b < 35 || b == 44 then 101 else if b < 41 then 165 else 228
  {
  }

  lemma OneBin(psd: seq<int>, b: nat)
    requires b < |psd|
    ensures LogSum(psd, b, b + 1) == psd[b]
  {
  }

  ghost predicate IsTone(bp: seq<int>)
  {
    |bp| == 45 && forall b :: 0 <= b < 45 ==> bp[b] == TonePower(b)
  }

  // ---------- mask ----------

  /** The mask sinks with the fast leak at first, with the slow leak later, and rises by the knee. */
  function ToneMask(b: nat): int
  {
    (if b < 7 then 2560 else if b < 18 then 2560 - 83 * (b - 6) else 1832 - 19 * (b - 6)) +
    KneeBoost(TonePower(b), 2304)
  }

  lemma ToneInput(bp: seq<int>)
    requires IsTone(bp)
    ensures BandInput(bp) && Begin(bp, 2) == 3
  {
  }

  lemma {:induction false} ToneLowComp(bp: seq<int>, b: nat)
    requires IsTone(bp) && b < 22
    ensures LowComp(bp, b) == 0
  {
    if b > 0 { ToneLowComp(bp, b - 1); }
  }

  /** A leak that sinks more slowly than the tone's skirt and more slowly than silence is linear. */
  lemma {:induction false} ToneLeak(bp: seq<int>, gain: int, decay: int, b: nat)
    requires IsTone(bp) && Begin(bp, 2) == 3 && 2 <= b < 45 && 0 <= decay <= 83 && (decay <= 19 || b < 18)
    ensures Leak(bp, gain, decay, b) == 3072 - gain - (if b < 7 then 0 else decay * (b - 6))
  {
    hide Begin;
    if b > 2 {
      ToneLeak(bp, gain, decay, b - 1);
      assert b >= 7 ==> decay * (b - 6) == decay * (b - 7) + decay;
      SkirtBelow(decay, b);
    }
  }

  lemma SkirtBelow(decay: int, b: nat)
    requires 2 <= b < 45 && 0 <= decay <= 83 && (decay <= 19 || b < 18)
    ensures TonePower(b) <= 3072 - (if b < 7 then 0 else decay * (b - 6))
  {
    if b >= 18 {
      assert decay * (b - 6) <= 19 * 38;
    } else if b >= 7 {
      assert decay * (b - 6) <= 83 * (b - 6);
    }
  }

  /** From band 18 on the slow leak is the higher one. */
  lemma {:induction false} FastBelowSlow(bp: seq<int>, b: nat)
    requires IsTone(bp) && Begin(bp, 2) == 3 && 17 <= b < 45
    ensures Leak(bp, 512, 83, b) <= 1664 - 19 * (b - 17)
    ensures b >= 18 ==> Leak(bp, 512, 83, b) <= 1604 - 19 * (b - 18)
  {
    hide Begin;
    if b == 17 {
      ToneLeak(bp, 512, 83, 17);
    } else {
      FastBelowSlow(bp, b - 1);
    }
  }

  lemma ToneExcite(bp: seq<int>, b: nat)
    requires IsTone(bp) && b < 45 && BandInput(bp)
    ensures Excite(bp, ToneParams(), 512, b) ==
      if b < 7 then 2560 else if b < 18 then 2560 - 83 * (b - 6) else 1832 - 19 * (b - 6)
  {
    ToneInput(bp);
    hide Begin, Leak, LowComp, BandInput;
    if b < 22 { ToneLowComp(bp, b); }
    if b >= 2 { ToneLeak(bp, 1240, 19, b); }
    if 2 <= b < 18 { ToneLeak(bp, 512, 83, b); }
    if b >= 18 { FastBelowSlow(bp, b); }
  }

  lemma ToneMaskAt(bp: seq<int>, b: nat)
    requires IsTone(bp) && b < 45
    ensures BandInput(bp) && MaskAt(bp, ToneParams(), 512, b) == ToneMask(b)
  {
    ToneInput(bp);
    ToneExcite(bp, b);
    hide Excite, BandInput;
    assert Shr(b, 0) == b;
    assert HearingThresholdTab(b, 0) <= 1312;
  }

  lemma MaskRowIs(exp: seq<Byte>, ncoefs: nat, p: Params, fgaincod: nat, b: nat)
    requires ValidRow(exp, ncoefs) && ValidEnd(ncoefs) && p.Valid() && b < BandEnd(ncoefs)
    ensures BandInput(BandPowers(exp, ncoefs)) && |BandPowers(exp, ncoefs)| == BandEnd(ncoefs)
    ensures MaskRow(exp, ncoefs, p, fgaincod)[b] == MaskAt(BandPowers(exp, ncoefs), p, FastGainTab(fgaincod), b)
  {
    hide MaskAt, BandInput;
  }

  lemma ToneMaskRow(row: seq<Byte>, b: nat)
    requires row == ToneRow() && b < 45
    ensures ValidRow(row, BINS) && ValidEnd(BINS) && |MaskRow(row, BINS, ToneParams(), 3)| == 45
    ensures MaskRow(row, BINS, ToneParams(), 3)[b] == ToneMask(b)
  {
    hide *;
    ToneBands(row, b);
    forall i | 0 <= i < 45
      ensures BandPowers(row, BINS)[i] == TonePower(i)
    {
      ToneBands(row, i);
    }
    IsToneNow(BandPowers(row, BINS));
    MaskRowIs(row, BINS, ToneParams(), 3, b);
    ToneMaskAt(BandPowers(row, BINS), b);
    Gain512();
  }

  lemma IsToneNow(bp: seq<int>)
    requires |bp| == 45 && forall b :: 0 <= b < 45 ==> bp[b] == TonePower(b)
    ensures IsTone(bp)
  {
  }

  lemma Gain512()
    ensures FastGainTab(3) == 512
  {
  }

  // ---------- pointers ----------

  /** Pointers of band b at the positions the search visits, and at the highest one a decoder can take them for. */
  function TonePointer(b: nat, s: int): nat
  {
    if s == 30 then 0
    else if s == 1054 then
      if b < 16 then 15 else if b == 16 then 14 else if b == 17 then 13 else if b == 18 then 10 else if b < 26 then 11
      else if b < 31 then 12 else if b < 37 then 13 else 14
    else
      if b < 15 then 15 else if b < 18 then 29 - b else if b == 18 then 9
      else if b < (if s == 1023 then 26 else 25) then 10 else if b < 31 then 11 else if b < 37 then 12
      else if b < 43 || (b == 44 && s == 1023) then 13 else 14
  }

  predicate Visited(s: int) { s == 30 || s == 1023 || s == 1024 || s == 1054 }

  lemma PointerLow(b: nat, s: int)
    requires b < 18 && Visited(s) && s != 30
    ensures Bap(ToneMask(b), TonePower(b), SnrOffset(s), -2048) == TonePointer(b, s)
  {
  }

  lemma PointerAfter(b: nat, s: int)
    requires 18 <= b < 25 && Visited(s) && s != 30
    ensures Bap(ToneMask(b), 0, SnrOffset(s), -2048) == TonePointer(b, s)
  {
  }

  lemma PointerMiddle(b: nat, s: int)
    requires 25 <= b < 31 && Visited(s) && s != 30
    ensures Bap(ToneMask(b), 0, SnrOffset(s), -2048) == TonePointer(b, s)
  {
  }

  lemma PointerHigh(b: nat, s: int)
    requires 31 <= b < 45 && Visited(s) && s != 30
    ensures Bap(ToneMask(b), 0, SnrOffset(s), -2048) == TonePointer(b, s)
  {
  }

  lemma PointerZero(b: nat)
    requires b < 45
    ensures Bap(ToneMask(b), if b < 18 then TonePower(b) else 0, SnrOffset(30), -2048) == TonePointer(b, 30)
  {
  }

  lemma BapsIs(exp: seq<Byte>, ncoefs: nat, p: Params, fgaincod: nat, off: int, k: nat)
    requires ValidRow(exp, ncoefs) && ValidEnd(ncoefs) && p.Valid() && k < ncoefs
    ensures BandOf(k) < BandEnd(ncoefs)
    ensures Baps(exp, ncoefs, p, fgaincod, off)[k] ==
      Bap(MaskRow(exp, ncoefs, p, fgaincod)[BandOf(k)], Psd(exp[k]), off, p.floor)
  {
    BinBelowBandEnd(ncoefs, k);
    hide MaskRow, Bap, Psd, BandOf;
  }

  lemma ToneBin(row: seq<Byte>, k: nat)
    requires row == ToneRow() && k < BINS
    ensures BandOf(k) < 45 && ToneParams().floor == -2048
    ensures Psd(row[k]) == if BandOf(k) < 18 then TonePower(BandOf(k)) else 0
  {
  }

  lemma TonePointers(row: seq<Byte>, s: int, k: nat)
    requires row == ToneRow() && Visited(s) && k < BINS
    ensures ValidRow(row, BINS) && ValidEnd(BINS) && BandOf(k) < 45
    ensures Baps(row, BINS, ToneParams(), 3, SnrOffset(s))[k] == TonePointer(BandOf(k), s)
  {
    hide *;
    ToneBin(row, k);
    ToneMaskRow(row, BandOf(k));
    BapsIs(row, BINS, ToneParams(), 3, SnrOffset(s), k);
    if s == 30 {
      PointerZero(BandOf(k));
    } else if BandOf(k) < 18 {
      PointerLow(BandOf(k), s);
    } else if BandOf(k) < 25 {
      PointerAfter(BandOf(k), s);
    } else if BandOf(k) < 31 {
      PointerMiddle(BandOf(k), s);
    } else {
      PointerHigh(BandOf(k), s);
    }
  }

  // ---------- cost ----------

  /** A stretch of equal ungrouped pointers. */
  lemma {:induction false} Stretch(row: seq<nat>, lo: nat, hi: nat, b: nat)
    requires lo <= hi <= |row| && b >= 5 && forall k :: lo <= k < hi ==> row[k] == b
    ensures Wide(row[..hi]) == Wide(row[..lo]) + (hi - lo) * WideBits(b)
    ensures forall c :: 1 <= c <= 4 ==> Count(row[..hi], c) == Count(row[..lo], c)
    decreases hi - lo
  {
    hide WideBits;
    if lo < hi {
      Stretch(row, lo, hi - 1, b);
      assert row[..hi][..hi - 1] == row[..hi - 1];
      assert (hi - lo) * WideBits(b) == (hi - 1 - lo) * WideBits(b) + WideBits(b);
    }
  }

  lemma NoGroups(row: seq<nat>, n: nat)
    requires Wide(row) == n && forall c :: 1 <= c <= 4 ==> Count(row, c) == 0
    ensures BlockBits(row) == n
  {
    hide Wide, Count;
  }

  /** The pointers of one block, bin by bin. */
  ghost predicate ToneBlock(row: seq<nat>, s: int)
  {
    |row| == BINS && forall k :: 0 <= k < BINS ==> row[k] == TonePointer(BandOf(k), s)
  }

  lemma Segment(row: seq<nat>, s: int, lo: nat, hi: nat, b: nat)
    requires ToneBlock(row, s) && lo <= hi <= BINS && b >= 5
    requires forall k :: lo <= k < hi ==> TonePointer(BandOf(k), s) == b
    ensures Wide(row[..hi]) == Wide(row[..lo]) + (hi - lo) * WideBits(b)
    ensures forall c :: 1 <= c <= 4 ==> Count(row[..hi], c) == Count(row[..lo], c)
  {
    hide Wide, Count, WideBits, TonePointer, BandOf;
    Stretch(row, lo, hi, b);
  }

  lemma BitsAt1023(row: seq<nat>)
    requires ToneBlock(row, 1023)
    ensures BlockBits(row) == 1502
  {
    hide Wide, Count, ToneBlock;
    Segment(row, 1023, 0, 15, 15);
    Segment(row, 1023, 15, 16, 14);
    Segment(row, 1023, 16, 17, 13);
    Segment(row, 1023, 17, 18, 12);
    Segment(row, 1023, 18, 19, 9);
    Segment(row, 1023, 19, 26, 10);
    Segment(row, 1023, 26, 37, 11);
    Segment(row, 1023, 37, 61, 12);
    Segment(row, 1023, 61, 109, 13);
    Segment(row, 1023, 109, 121, 14);
    Segment(row, 1023, 121, 124, 13);
    Whole(row, 1023);
    NoGroups(row, 1502);
  }

  lemma BitsAt1024(row: seq<nat>)
    requires ToneBlock(row, 1024)
    ensures BlockBits(row) == 1509
  {
    hide Wide, Count, ToneBlock;
    Segment(row, 1024, 0, 15, 15);
    Segment(row, 1024, 15, 16, 14);
    Segment(row, 1024, 16, 17, 13);
    Segment(row, 1024, 17, 18, 12);
    Segment(row, 1024, 18, 19, 9);
    Segment(row, 1024, 19, 25, 10);
    Segment(row, 1024, 25, 37, 11);
    Segment(row, 1024, 37, 61, 12);
    Segment(row, 1024, 61, 109, 13);
    Segment(row, 1024, 109, 124, 14);
    Whole(row, 1024);
    NoGroups(row, 1509);
  }

  lemma BitsAt1054(row: seq<nat>)
    requires ToneBlock(row, 1054)
    ensures BlockBits(row) == 1652
  {
    hide Wide, Count, ToneBlock;
    Segment(row, 1054, 0, 16, 15);
    Segment(row, 1054, 16, 17, 14);
    Segment(row, 1054, 17, 18, 13);
    Segment(row, 1054, 18, 19, 10);
    Segment(row, 1054, 19, 26, 11);
    Segment(row, 1054, 26, 37, 12);
    Segment(row, 1054, 37, 61, 13);
    Segment(row, 1054, 61, 124, 14);
    Whole(row, 1054);
    NoGroups(row, 1652);
  }

  lemma BitsAt30(row: seq<nat>)
    requires ToneBlock(row, 30)
    ensures BlockBits(row) == 0
  {
    assert forall k :: 0 <= k < BINS ==> row[k] == 0;
    hide BlockBits;
    BlockBitsOfZeros(row);
  }

  lemma Whole(row: seq<nat>, s: int)
    requires ToneBlock(row, s)
    ensures |row| == 124 == BINS && row[..124] == row && Wide(row[..0]) == 0 && forall c :: Count(row[..0], c) == 0
  {
  }

  lemma OneRow(f: FrameIn, b: nat, s: int, r: seq<nat>)
    requires f.Valid() && b < 6 && |f.channels| == 1
    requires r == Baps(f.channels[0].exp[b], f.channels[0].ncoefs, f.p, FgainCod(f.channels[0], b), SnrOffset(s))
    ensures Flat(BlockRows(f, b, s)) == r
  {
    hide Baps, FgainCod, FrameIn.Valid;
    var rows := BlockRows(f, b, s);
    assert rows == [r] && rows[..0] == [];
    assert Flat(rows[..0]) + r == r;
  }

  lemma ToneShape(b: nat)
    requires b < 6
    ensures ToneFrame().channels == [ToneChannel()] && ToneFrame().p == ToneParams()
    ensures ToneChannel().exp[b] == ToneRow() && ToneChannel().ncoefs == BINS == 124
  {
  }

  lemma IsToneBlock(r: seq<nat>, s: int)
    requires |r| == BINS && forall k :: 0 <= k < BINS ==> r[k] == TonePointer(BandOf(k), s)
    ensures ToneBlock(r, s)
  {
  }

  function BitsAt(s: int): nat
  {
    if s == 30 then 0 else if s == 1023 then 1502 else if s == 1024 then 1509 else 1652
  }

  lemma ToneBlockBits(b: nat, s: int)
    requires b < 6 && ToneFrame().Valid() && Visited(s)
    ensures BlockBits(Flat(BlockRows(ToneFrame(), b, s))) == BitsAt(s)
  {
    hide *;
    ToneValid();
    ToneShape(b);
    ToneMaskRow(ToneRow(), 0);
    var r := Baps(ToneRow(), BINS, ToneParams(), 3, SnrOffset(s));
    forall k | 0 <= k < BINS
      ensures r[k] == TonePointer(BandOf(k), s)
    {
      TonePointers(ToneRow(), s, k);
    }
    IsToneBlock(r, s);
    OneRow(ToneFrame(), b, s, r);
    AllBits(r, s);
  }

  lemma AllBits(r: seq<nat>, s: int)
    requires Visited(s) && ToneBlock(r, s)
    ensures BlockBits(r) == BitsAt(s)
  {
    hide BlockBits, ToneBlock;
    if s == 30 {
      BitsAt30(r);
    } else if s == 1023 {
      BitsAt1023(r);
    } else if s == 1024 {
      BitsAt1024(r);
    } else {
      BitsAt1054(r);
    }
  }

  lemma {:induction false} CostOfSame(f: FrameIn, s: int, n: nat, bits: nat)
    requires f.Valid() && n <= 6 && forall b :: 0 <= b < n ==> BlockBits(Flat(BlockRows(f, b, s))) == bits
    ensures CostOf(f, s, n) == n * bits
  {
    hide BlockBits, BlockRows, Flat, FrameIn.Valid;
    if n > 0 { CostOfSame(f, s, n - 1, bits); }
  }

  lemma ToneCost(s: int)
    requires ToneFrame().Valid() && Visited(s)
    ensures Cost(ToneFrame(), s) == 6 * BitsAt(s)
  {
    hide BlockBits, BlockRows, Flat, FrameIn.Valid, ToneFrame;
    forall b | 0 <= b < 6
      ensures BlockBits(Flat(BlockRows(ToneFrame(), b, s))) == BitsAt(s)
    {
      ToneBlockBits(b, s);
    }
    CostOfSame(ToneFrame(), s, 6, BitsAt(s));
  }

  // ---------- the frame ----------

  lemma ToneSide(b: nat)
    requires b < 6
    ensures ValidChannels(ToneConfig(), ToneFrame().channels)
    ensures SideBits(ToneConfig(), ToneFrame().channels, b) == if b == 0 then 43 else 10
    ensures ExponentBits(ToneFrame().channels, b, 1) == if b == 0 then 291 else 0
  {
    ToneValid();
    var c, cs := ToneChannel(), ToneFrame().channels;
    assert cs == [c] && NewCount(cs, b, 0) == 0 && NewCount(cs, b, 1) == if b == 0 then 1 else 0;
    hide FgainCod, Channel.Valid, ToneRow;
    assert WriteSnr(cs, b) <==> GainChanged(cs[0], b);
    assert ExponentBits(cs, b, 0) == 0;
  }

  lemma {:induction false} ToneTotals(n: nat)
    requires 1 <= n <= 6
    ensures ValidChannels(ToneConfig(), ToneFrame().channels)
    ensures SideBitsTo(ToneConfig(), ToneFrame().channels, n) == 33 + 10 * n
    ensures FrameExponentBits(ToneFrame().channels, n) == 291
  {
    ToneSide(n - 1);
    hide SideBits, ExponentBits, Channel.Valid, ToneChannel;
    if n > 1 { ToneTotals(n - 1); }
  }

  /** A frame of 640 words, 320 kbps, leaves 9773 bits for mantissas. */
  lemma ToneRoom()
    ensures FrameSizeTab(26, 0) == 16 * 640
    ensures ValidChannels(ToneConfig(), ToneFrame().channels)
    ensures Room(ToneConfig(), ToneFrame().channels, 640) == 9773
  {
    hide SideBitsTo, FrameExponentBits, Channel.Valid, ToneChannel;
    ToneTotals(6);
  }

  lemma ToneDecodable(row: seq<Byte>)
    requires row == ToneRow()
    ensures |row| == 256 && Exponent.Start(1, 124) == 124 == BINS && Exponent.Decodable(row, 1, 123)
    ensures Exponent.NumGroups(Exponent.D15, BINS) == 41 && Exponent.GroupSize(Exponent.D15) == 1
  {
    var p := Exponent.PerGroup(row, 1, 123);
    assert forall i :: 0 <= i <= 123 ==> p[i] == ToneExp(i);
  }

  lemma RowIsEncode(e: seq<Byte>, strategy: nat, ncoefs: nat, g: nat, n: nat)
    requires |e| == 256 && 1 <= strategy <= 3 && ncoefs <= 253
    requires g == Exponent.GroupSize(strategy) && n == 3 * Exponent.NumGroups(strategy, ncoefs)
    ensures Exponent.ValidSize(g) && Exponent.Start(g, n + 1) <= 256
    ensures Exponent.EncodeRow(e, strategy, ncoefs) == Exponent.Encode(e, g, n)
  {
    Exponent.GroupsFit(strategy, ncoefs, g, Exponent.NumGroups(strategy, ncoefs));
    hide Exponent.Encode, Exponent.NumGroups, Exponent.GroupSize, Exponent.Start;
  }

  /** These exponents can be sent as they are, and the exponent coder leaves them so. */
  lemma ToneSendable(row: seq<Byte>)
    requires row == ToneRow()
    ensures Exponent.NumGroups(Exponent.D15, BINS) == 41 && |row| == 256 && Exponent.Decodable(row, 1, 123)
    ensures forall k :: 0 <= k < 124 ==> Exponent.EncodeRow(row, Exponent.D15, BINS)[k] == row[k]
  {
    ToneDecodable(row);
    hide Exponent.Encode, Exponent.Decodable, Exponent.EncodeRow, Exponent.NumGroups, Exponent.Start, ToneRow;
    RowIsEncode(row, Exponent.D15, BINS, 1, 123);
    Exponent.EncodeBelow(row, 1, 123);
    Exponent.EncodeGreatest(row, row, 1, 123);
  }

  /** At 320 kbps, after a frame of quality 1023, the encoder gives this frame a position above 1023 and reports
      success, although 1023 fits: 761 bits are left there, the jump goes to 1054, where 139 are missing, and the
      descent stops as soon as none is. The coarse code does not fit its six bits, and a decoder computes pointers for
      a position 1024 lower. */
  lemma SearchOvershoots()
    ensures ToneFrame().Valid() && Jumps(ToneFrame(), 9773, 1, 1023) == 1054
    ensures Fits(ToneFrame(), 9773, 1023)
    ensures 1024 <= Accurate(ToneFrame(), 9773, 1, 1023) <= 1054
    ensures Fits(ToneFrame(), 9773, Accurate(ToneFrame(), 9773, 1, 1023))
    ensures !Optimal(ToneFrame(), 9773, Accurate(ToneFrame(), 9773, 1, 1023))
    ensures var r := Accurate(ToneFrame(), 9773, 1, 1023);
      r / 16 >= 64 && DecoderOffset(r / 16 % 64, r % 16) == SnrOffset(r - 1024)
  {
    ToneValid();
    var f := ToneFrame();
    hide Cost, FrameIn.Valid, ToneFrame, Optimal;
    ToneCost(1023);
    ToneCost(1024);
    ToneCost(1054);
    assert Turn(f, 9773, 1, 1023) == 1054;
    DescendStops(f, 9773, 1054);
    assert Fits(f, 9773, 1024);
    AccurateExactly(f, 9773, 1, 1023);
  }

  /** From the quality a stream of this rate starts with, the same frame gets position 1023. */
  lemma ToneFirst()
    ensures ToneFrame().Valid() && Accurate(ToneFrame(), 9773, 1, 561) == 1023
  {
    ToneValid();
    var f := ToneFrame();
    hide Cost, FrameIn.Valid, ToneFrame, Accurate;
    ToneCost(1023);
    CostAlmostMonotone(f, 561, 1023);
    CostAlmostMonotone(f, 0, 561);
    CostZero(f);
    CostIsBits(f, 561);
    var p := Jump2(f, 9773, 1, 561);
    CostAlmostMonotone(f, p, 1023);
    assert Jumps(f, 9773, 1, 561) == p;
    AccurateIsOptimal(f, 9773, 1, 561);
    assert Fits(f, 9773, 1023);
  }

  lemma CostIsBits(f: FrameIn, s: int)
    requires f.Valid()
    ensures Cost(f, s) >= 0
  {
    hide FrameIn.Valid;
  }

  /** So a stream that starts with this frame twice leaves the range with its second frame. */
  lemma ToneTwice(tasks: seq<Task>)
    requires ToneFrame().Valid() && tasks == [Task(ToneFrame(), 9773), Task(ToneFrame(), 9773)]
    ensures ValidTasks(tasks) && StartOf(ToneConfig(), tasks, 561, 1) == 1023
    ensures 1024 <= StartOf(ToneConfig(), tasks, 561, 2) <= 1054 && !TaskStays(ToneConfig(), tasks, 561, 1)
  {
    hide Cost, FrameIn.Valid, ToneFrame, Accurate, Optimal, StaysInRange;
    SearchOvershoots();
    ToneFirst();
    assert StartOf(ToneConfig(), tasks, 561, 0) == 561;
    assert StartOf(ToneConfig(), tasks, 561, 1) == 1023;
    FoundInRange(ToneConfig(), ToneFrame(), 9773, 1023);
  }

  /** And what is sent for it does not decode: at the position a decoder takes it for, all pointers are almost zero. */
  lemma ToneGarbled(r: int)
    requires ToneFrame().Valid() && 1024 <= r <= 1054
    ensures !D.SameTo(ToneFrame(), r, 6)
  {
    hide *;
    var f := ToneFrame();
    TonePoints(r);
    ToneCost(30);
    ToneCost(1023);
    CostAlmostMonotone(f, r - 1024, 30);
    CostAlmostMonotone(f, 1023, r);
    if D.SameTo(f, r, 6) { SameCost(f, r, 6); }
  }

  lemma TonePoints(r: int)
    requires 1024 <= r <= 1054
    ensures Visited(30) && Visited(1023) && BitsAt(30) == 0 && BitsAt(1023) == 1502 && D.CodedPos(r) == r - 1024
  {
  }

  lemma {:induction false} SameCost(f: FrameIn, r: int, n: nat)
    requires f.Valid() && n <= 6 && D.SameTo(f, r, n)
    ensures CostOf(f, r, n) == CostOf(f, D.CodedPos(r), n)
    ensures n == 6 ==> Cost(f, r) == Cost(f, D.CodedPos(r))
  {
    hide FrameIn.Valid, BlockRows, BlockBits, Flat, D.CodedPos;
    if n > 0 {
      SameCost(f, r, n - 1);
      assert D.SameRows(f, r, n - 1);
    }
  }
}
