/** Where the jumps of the accurate search (bitalloc.c:287-301) can land, from how fast the cost of a frame grows with
    the position: from which starts the search finds the best position, without looking at a jump. */
module JumpRange {
  import opened Arithmetic
  import opened BitStrings
  import opened Tables
  import opened Masking
  import opened MantissaCost
  import opened Allocation
  import opened Search

  // ---------- a bin and its mask ----------

  lemma {:induction false} LogSumAbove(psd: seq<int>, lo: nat, hi: nat, k: nat)
    requires lo <= k < hi <= |psd|
    ensures psd[k] <= LogSum(psd, lo, hi)
    decreases hi
  {
    if k < hi - 1 { LogSumAbove(psd, lo, hi - 1, k); }
  }

  lemma BinBelowPower(exp: seq<Byte>, ncoefs: nat, k: nat)
    requires ValidRow(exp, ncoefs) && ValidEnd(ncoefs) && k < ncoefs
    ensures BandOf(k) < BandEnd(ncoefs) == |BandPowers(exp, ncoefs)|
    ensures Psd(exp[k]) <= BandPowers(exp, ncoefs)[BandOf(k)]
  {
    var b := BandOf(k);
    BinBelowBandEnd(ncoefs, k);
    BandOfIs(k, b);
    LastBand(ncoefs, b);
    hide BandStart, BandOf, LogSum;
    LogSumAbove(PsdRow(exp, ncoefs), BandStart(b), Min(BandStart(b + 1), ncoefs), k);
  }

  lemma MaskTop(bp: seq<int>, p: Params, fgain: int, band: nat)
    requires BandInput(bp) && band < |bp| && p.Valid() && 256 <= fgain <= 512
    ensures 752 <= MaskAt(bp, p, fgain, band) <= 4992 && bp[band] - MaskAt(bp, p, fgain, band) <= 896
  {
    MaskRange(bp, p, fgain, band);
    if band >= 2 {
      LeakRange(bp, fgain, p.fdecay, band, 4544);
      LeakRange(bp, p.sgain, p.sdecay, band, 4544);
    }
  }

  /** No bin is more than 896 above its mask. */
  lemma MaskNear(exp: seq<Byte>, ncoefs: nat, p: Params, fgaincod: nat, k: nat)
    requires ValidRow(exp, ncoefs) && ValidEnd(ncoefs) && p.Valid() && 1 <= fgaincod <= 3 && k < ncoefs
    ensures BandOf(k) < |MaskRow(exp, ncoefs, p, fgaincod)| == BandEnd(ncoefs)
    ensures var m := MaskRow(exp, ncoefs, p, fgaincod)[BandOf(k)]; 752 <= m <= 4992 && Psd(exp[k]) - m <= 896
  {
    BinBelowPower(exp, ncoefs, k);
    MaskTop(BandPowers(exp, ncoefs), p, FastGainTab(fgaincod), BandOf(k));
    hide MaskAt, BandPowers, Psd, BandOf;
  }

  // ---------- one pointer ----------

  /** The address of the pointer table. */
  function Address(mask: int, psd: int, s: int, floor: int): nat
  {
    Clip((psd - Level(mask, SnrOffset(s), floor)) / 32, 0, 63)
  }

  lemma AddressLow(mask: int, psd: int, s: int, floor: int)
    requires 752 <= mask <= 4992 && psd - mask <= 896 && -47 <= s && -2048 <= floor
    ensures (psd - Level(mask, SnrOffset(s), floor)) / 32 <= (4 * s - 33) / 32
  {
  }

  /** At the lowest positions, some of them below 0, every pointer is 0. */
  lemma QuietBap(mask: int, psd: int, s: int, floor: int)
    requires 752 <= mask <= 4992 && psd - mask <= 896 && -47 <= s && -2048 <= floor
    ensures s <= 16 ==> Bap(mask, psd, SnrOffset(s), floor) == 0
    ensures s <= 56 ==> Bap(mask, psd, SnrOffset(s), floor) <= 1
    ensures s <= 72 ==> Bap(mask, psd, SnrOffset(s), floor) <= 2
  {
    AddressLow(mask, psd, s, floor);
    hide Level;
  }

  lemma AddressGrows(mask: int, psd: int, s: int, t: int, floor: int)
    requires mask <= 5120 && 0 < s <= t && -2048 <= floor
    ensures Address(mask, psd, t, floor) <= Address(mask, psd, s, floor) + (t - s + 7) / 8
  {
    LevelDropsLowBits(mask, s, floor);
    LevelDropsLowBits(mask, t, floor);
    var x, y := Max(mask - SnrOffset(s) - floor, 0), Max(mask - SnrOffset(t) - floor, 0);
    hide And1FE0;
    assert Level(mask, SnrOffset(s), floor) == 32 * (x / 32) + floor;
    assert Level(mask, SnrOffset(t), floor) == 32 * (y / 32) + floor;
  }

  /** What a mantissa can cost more d addresses further, in sixths of a bit. */
  function Steeper(d: nat): nat { 6 + 6 * ((d + 3) / 4) + (if d > 34 then 6 else 0) }

  lemma TableGrows(a: nat, d: nat)
    requires a + d <= 63
    ensures Exact6Of(BapTab(a + d)) <= Exact6Of(BapTab(a)) + Steeper(d)
  {
  }

  /** What it can cost more k positions further. */
  function Growth(k: nat): nat { 6 + 6 * ((k + 31) / 32) + (if k > 272 then 6 else 0) }

  lemma SteeperGrowth(d: nat, k: nat)
    requires d <= (k + 7) / 8
    ensures Steeper(d) <= Growth(k)
  {
  }

  lemma BapGrows(mask: int, psd: int, s: int, t: int, floor: int)
    requires mask <= 5120 && 0 < s <= t && -2048 <= floor
    ensures Exact6Of(Bap(mask, psd, SnrOffset(t), floor)) <=
      Exact6Of(Bap(mask, psd, SnrOffset(s), floor)) + Growth(t - s)
  {
    var a, b := Address(mask, psd, s, floor), Address(mask, psd, t, floor);
    AddressGrows(mask, psd, s, t, floor);
    AddressOrder(mask, psd, s, t, floor);
    BapIs(mask, psd, s, floor);
    BapIs(mask, psd, t, floor);
    hide Address, Bap, Exact6Of, BapTab, Steeper, Growth;
    TableGrows(a, b - a);
    SteeperGrowth(b - a, t - s);
  }

  lemma BapIs(mask: int, psd: int, s: int, floor: int)
    requires s != 0
    ensures Address(mask, psd, s, floor) <= 63
    ensures Bap(mask, psd, SnrOffset(s), floor) == BapTab(Address(mask, psd, s, floor))
  {
    hide Level, BapTab;
  }

  lemma AddressOrder(mask: int, psd: int, s: int, t: int, floor: int)
    requires mask <= 5120 && 0 < s <= t && -2048 <= floor
    ensures Address(mask, psd, s, floor) <= Address(mask, psd, t, floor)
  {
    LevelDropsLowBits(mask, s, floor);
    LevelDropsLowBits(mask, t, floor);
    hide And1FE0;
  }

  // ---------- rows, blocks, frames ----------

  /** No mantissa of b costs more than c sixths above that of a. */
  ghost predicate Raised(a: seq<nat>, b: seq<nat>, c: nat)
  {
    |a| == |b| && forall k :: 0 <= k < |a| ==> Exact6Of(b[k]) <= Exact6Of(a[k]) + c
  }

  lemma {:induction false} Exact6Raised(a: seq<nat>, b: seq<nat>, c: nat)
    requires Raised(a, b, c)
    ensures Exact6(b) <= Exact6(a) + c * |a|
  {
    hide Exact6Of;
    if a != [] {
      var n := |a| - 1;
      Exact6Raised(a[..n], b[..n], c);
      assert c * |a| == c * n + c;
      assert a[..n] + [a[n]] == a && b[..n] + [b[n]] == b;
    }
  }

  lemma {:induction false} Exact6Below(row: seq<nat>, c: nat)
    requires forall k :: 0 <= k < |row| ==> Exact6Of(row[k]) <= c
    ensures Exact6(row) <= c * |row|
  {
    hide Exact6Of;
    if row != [] {
      var n := |row| - 1;
      Exact6Below(row[..n], c);
      assert c * |row| == c * n + c;
    }
  }

  lemma {:induction false} FlatRaised(a: seq<seq<nat>>, b: seq<seq<nat>>, c: nat)
    requires |a| == |b| && forall i :: 0 <= i < |a| ==> Raised(a[i], b[i], c)
    ensures Raised(Flat(a), Flat(b), c)
  {
    hide Exact6Of;
    if a != [] {
      var n := |a| - 1;
      FlatRaised(a[..n], b[..n], c);
      assert Raised(a[n], b[n], c);
    }
  }

  /** The coefficients of a block, all channels together. */
  function Bins(channels: seq<Channel>): nat
  {
    if channels == [] then 0 else Bins(channels[..|channels| - 1]) + channels[|channels| - 1].ncoefs
  }

  lemma {:induction false} FlatLength(rows: seq<seq<nat>>, channels: seq<Channel>)
    requires |rows| == |channels| && forall ch :: 0 <= ch < |rows| ==> |rows[ch]| == channels[ch].ncoefs
    ensures |Flat(rows)| == Bins(channels)
  {
    if rows != [] { FlatLength(rows[..|rows| - 1], channels[..|channels| - 1]); }
  }

  lemma RowsLength(f: FrameIn, b: nat, s: int)
    requires f.Valid() && b < 6
    ensures |Flat(BlockRows(f, b, s))| == Bins(f.channels)
  {
    hide Baps;
    FlatLength(BlockRows(f, b, s), f.channels);
  }

  lemma BapsRaised(exp: seq<Byte>, ncoefs: nat, p: Params, fgaincod: nat, s: int, t: int)
    requires ValidRow(exp, ncoefs) && ValidEnd(ncoefs) && p.Valid() && 0 < s <= t
    ensures Raised(Baps(exp, ncoefs, p, fgaincod, SnrOffset(s)), Baps(exp, ncoefs, p, fgaincod, SnrOffset(t)),
                   Growth(t - s))
  {
    hide Exact6Of, Bap, MaskRow, Growth, SnrOffset;
    forall k | 0 <= k < ncoefs
      ensures Exact6Of(Baps(exp, ncoefs, p, fgaincod, SnrOffset(t))[k]) <=
        Exact6Of(Baps(exp, ncoefs, p, fgaincod, SnrOffset(s))[k]) + Growth(t - s)
    {
      BinBelowBandEnd(ncoefs, k);
      MaskRowRange(exp, ncoefs, p, fgaincod, BandOf(k));
      BapGrows(MaskRow(exp, ncoefs, p, fgaincod)[BandOf(k)], Psd(exp[k]), s, t, p.floor);
    }
  }

  lemma BapsLow(exp: seq<Byte>, ncoefs: nat, p: Params, fgaincod: nat, s: int)
    requires ValidRow(exp, ncoefs) && ValidEnd(ncoefs) && p.Valid() && 1 <= fgaincod <= 3 && -47 <= s <= 72
    ensures forall k :: 0 <= k < ncoefs ==>
      Baps(exp, ncoefs, p, fgaincod, SnrOffset(s))[k] <= if s <= 16 then 0 else if s <= 56 then 1 else 2
  {
    hide Bap, MaskRow, SnrOffset;
    forall k | 0 <= k < ncoefs
      ensures Baps(exp, ncoefs, p, fgaincod, SnrOffset(s))[k] <= if s <= 16 then 0 else if s <= 56 then 1 else 2
    {
      MaskNear(exp, ncoefs, p, fgaincod, k);
      QuietBap(MaskRow(exp, ncoefs, p, fgaincod)[BandOf(k)], Psd(exp[k]), s, p.floor);
    }
  }

  lemma RowsRaised(f: FrameIn, b: nat, s: int, t: int)
    requires f.Valid() && b < 6 && 0 < s <= t
    ensures Raised(Flat(BlockRows(f, b, s)), Flat(BlockRows(f, b, t)), Growth(t - s))
  {
    hide Baps, Raised, Growth;
    forall ch | 0 <= ch < |f.channels|
      ensures Raised(BlockRows(f, b, s)[ch], BlockRows(f, b, t)[ch], Growth(t - s))
    {
      BapsRaised(f.channels[ch].exp[b], f.channels[ch].ncoefs, f.p, FgainCod(f.channels[ch], b), s, t);
    }
    FlatRaised(BlockRows(f, b, s), BlockRows(f, b, t), Growth(t - s));
  }

  lemma BlockGrows(f: FrameIn, b: nat, s: int, t: int)
    requires f.Valid() && b < 6 && 0 < s <= t
    ensures 6 * BlockBits(Flat(BlockRows(f, b, t))) <=
      6 * BlockBits(Flat(BlockRows(f, b, s))) + Growth(t - s) * Bins(f.channels) + 69
  {
    hide *;
    var x, y := Flat(BlockRows(f, b, s)), Flat(BlockRows(f, b, t));
    RowsRaised(f, b, s, t);
    RowsLength(f, b, s);
    Exact6Raised(x, y, Growth(t - s));
    GroupingOverhead(x);
    GroupingOverhead(y);
  }

  lemma {:induction false} CostOfGrows(f: FrameIn, s: int, t: int, n: nat)
    requires f.Valid() && n <= 6 && 0 < s <= t
    ensures 6 * CostOf(f, t, n) <= 6 * CostOf(f, s, n) + n * (Growth(t - s) * Bins(f.channels) + 69)
  {
    hide BlockRows, BlockBits, Flat, Growth, Bins, FrameIn.Valid;
    if n > 0 {
      CostOfGrows(f, s, t, n - 1);
      BlockGrows(f, n - 1, s, t);
      var d := Growth(t - s) * Bins(f.channels) + 69;
      assert n * d == (n - 1) * d + d;
    }
  }

  /** From position s to t, no frame's cost grows by more than Growth(t - s) bits for each coefficient, and 69. */
  lemma CostGrows(f: FrameIn, s: int, t: int)
    requires f.Valid() && 0 < s <= t
    ensures Cost(f, t) <= Cost(f, s) + Growth(t - s) * Bins(f.channels) + 69
  {
    hide CostOf, Growth, Bins, FrameIn.Valid;
    CostOfGrows(f, s, t, 6);
  }

  lemma {:induction false} FlatLow(rows: seq<seq<nat>>, top: nat)
    requires forall i, k :: 0 <= i < |rows| && 0 <= k < |rows[i]| ==> rows[i][k] <= top
    ensures forall k :: 0 <= k < |Flat(rows)| ==> Flat(rows)[k] <= top
  {
    if rows != [] {
      var n := |rows| - 1;
      FlatLow(rows[..n], top);
      assert forall k :: 0 <= k < |rows[n]| ==> rows[n][k] <= top;
    }
  }

  /** Sixths of a bit a mantissa can cost at the lowest positions. */
  function LowCost(s: int): nat
  {
    if s <= 16 then 0 else if s <= 56 then 10 else 14
  }

  lemma RowsLow(f: FrameIn, b: nat, s: int)
    requires f.Valid() && b < 6 && -47 <= s <= 72
    ensures forall k :: 0 <= k < |Flat(BlockRows(f, b, s))| ==>
      Flat(BlockRows(f, b, s))[k] <= if s <= 16 then 0 else if s <= 56 then 1 else 2
  {
    hide Baps, FgainCod, SnrOffset;
    var top := if s <= 16 then 0 else if s <= 56 then 1 else 2;
    forall ch, k | 0 <= ch < |f.channels| && 0 <= k < |BlockRows(f, b, s)[ch]|
      ensures BlockRows(f, b, s)[ch][k] <= top
    {
      BapsLow(f.channels[ch].exp[b], f.channels[ch].ncoefs, f.p, FgainCod(f.channels[ch], b), s);
    }
    FlatLow(BlockRows(f, b, s), top);
  }

  lemma LowSixths(row: seq<nat>, s: int)
    requires forall k :: 0 <= k < |row| ==> row[k] <= if s <= 16 then 0 else if s <= 56 then 1 else 2
    ensures forall k :: 0 <= k < |row| ==> Exact6Of(row[k]) <= LowCost(s)
  {
  }

  lemma BlockLow(f: FrameIn, b: nat, s: int)
    requires f.Valid() && b < 6 && -47 <= s <= 72
    ensures 6 * BlockBits(Flat(BlockRows(f, b, s))) <= LowCost(s) * Bins(f.channels) + 69
    ensures s <= 16 ==> BlockBits(Flat(BlockRows(f, b, s))) == 0
  {
    hide BlockRows, Flat, Bins, BlockBits, FrameIn.Valid;
    RowsLow(f, b, s);
    RowsLength(f, b, s);
    var row := Flat(BlockRows(f, b, s));
    LowSixths(row, s);
    hide Exact6Of, LowCost;
    Exact6Below(row, LowCost(s));
    GroupingOverhead(row);
    if s <= 16 { BlockBitsOfZeros(row); }
  }

  lemma {:induction false} CostOfLow(f: FrameIn, s: int, n: nat)
    requires f.Valid() && n <= 6 && -47 <= s <= 72
    ensures 6 * CostOf(f, s, n) <= n * (LowCost(s) * Bins(f.channels) + 69)
    ensures s <= 16 ==> CostOf(f, s, n) == 0
  {
    hide BlockRows, BlockBits, Flat, LowCost, Bins, FrameIn.Valid;
    if n > 0 {
      CostOfLow(f, s, n - 1);
      BlockLow(f, n - 1, s);
      var d := LowCost(s) * Bins(f.channels) + 69;
      assert n * d == (n - 1) * d + d;
    }
  }

  /** Positions from -47 to 16 cost nothing, and the next ones little. */
  lemma CostLow(f: FrameIn, s: int)
    requires f.Valid() && -47 <= s <= 72
    ensures Cost(f, s) <= LowCost(s) * Bins(f.channels) + 69 && (s <= 16 ==> Cost(f, s) == 0)
  {
    hide CostOf, LowCost, Bins, FrameIn.Valid;
    CostOfLow(f, s, 6);
  }

  // ---------- where the jumps land ----------

  /** As many coefficients as nch full channels and an LFE channel have. */
  predicate Sized(f: FrameIn, nch: nat)
  {
    1 <= nch <= 5 && Bins(f.channels) <= 253 * nch + 7
  }

  /** A frame that fits at s with more than 400 bits to spare and at t, reached by one position for every 24 of them
      and channel, does not. The bits missing there are too few for a jump back to below -47. */
  lemma BackFrom(nch: nat, s: nat, t: nat, bins: nat, c: nat, spare: int, missing: int)
    requires 1 <= nch <= 5 && bins <= 253 * nch + 7 && s <= t && spare > 400 && 24 * nch * (t - s) <= spare
    requires missing <= c * bins + 69 - spare
    requires c <= if t <= 72 then LowCost(t) else Growth(t - s)
    ensures missing < 40 * nch * (t + 48)
  {
    MulMono(bins, 253 * nch + 7, c);
    if nch == 1 {
      BackFromOne(s, t, c, spare);
    } else if nch == 2 {
      BackFromTwo(s, t, c, spare);
    } else if nch == 3 {
      BackFromThree(s, t, c, spare);
    } else if nch == 4 {
      BackFromFour(s, t, c, spare);
    } else {
      BackFromFive(s, t, c, spare);
    }
  }

  lemma BackFromOne(s: nat, t: nat, c: nat, spare: int)
    requires s <= t && spare > 400 && 24 * (t - s) <= spare && c <= if t <= 72 then LowCost(t) else Growth(t - s)
    ensures 260 * c + 69 - spare < 40 * (t + 48)
  {
  }

  lemma BackFromTwo(s: nat, t: nat, c: nat, spare: int)
    requires s <= t && spare > 400 && 48 * (t - s) <= spare && c <= if t <= 72 then LowCost(t) else Growth(t - s)
    ensures 513 * c + 69 - spare < 80 * (t + 48)
  {
  }

  lemma BackFromThree(s: nat, t: nat, c: nat, spare: int)
    requires s <= t && spare > 400 && 72 * (t - s) <= spare && c <= if t <= 72 then LowCost(t) else Growth(t - s)
    ensures 766 * c + 69 - spare < 120 * (t + 48)
  {
  }

  lemma BackFromFour(s: nat, t: nat, c: nat, spare: int)
    requires s <= t && spare > 400 && 96 * (t - s) <= spare && c <= if t <= 72 then LowCost(t) else Growth(t - s)
    ensures 1019 * c + 69 - spare < 160 * (t + 48)
  {
  }

  lemma BackFromFive(s: nat, t: nat, c: nat, spare: int)
    requires s <= t && spare > 400 && 120 * (t - s) <= spare && c <= if t <= 72 then LowCost(t) else Growth(t - s)
    ensures 1272 * c + 69 - spare < 200 * (t + 48)
  {
  }

  lemma CostAfter(f: FrameIn, s: nat, t: nat) returns (c: nat)
    requires f.Valid() && s <= t
    ensures Cost(f, t) <= Cost(f, s) + c * Bins(f.channels) + 69 && c <= if t <= 72 then LowCost(t) else Growth(t - s)
  {
    hide Cost, Bins, FrameIn.Valid, Growth, LowCost;
    if t <= 72 {
      c := LowCost(t);
      CostLow(f, t);
    } else if s > 0 {
      c := Growth(t - s);
      CostGrows(f, s, t);
    } else {
      c := Growth(t - 1);
      CostZero(f);
      CostLow(f, 1);
      CostGrows(f, 1, t);
      GrowthOrder(t - 1, t);
    }
  }

  lemma GrowthOrder(j: nat, k: nat)
    requires j <= k
    ensures Growth(j) <= Growth(k)
  {
  }

  /** A jump up is followed by none to below -47. */
  lemma AfterRise(f: FrameIn, avail: int, nch: nat, s: nat, t: nat)
    requires f.Valid() && Sized(f, nch) && s <= t
    requires avail - Cost(f, s) > 400 && 24 * nch * (t - s) <= avail - Cost(f, s)
    ensures Cost(f, t) - avail < 40 * nch * (t + 48)
  {
    hide Cost, Bins, FrameIn.Valid, Growth, LowCost;
    var c := CostAfter(f, s, t);
    BackFrom(nch, s, t, Bins(f.channels), c, avail - Cost(f, s), Cost(f, t) - avail);
  }

  /** The starts that the jumps do not lead astray from, by what is left there, what is available, and the number of
      channels: with more than 400 bits left, the jump up must end in range; with more than 400 missing, the jumps down
      must not end too low, nor one back up too high; otherwise, every start. */
  predicate StartsWell(start: int, left: int, avail: int, nch: nat)
    requires nch >= 1
  {
    0 <= start <= 1023 &&
    (left > 400 ==> start + left / (24 * nch) <= 1023) &&
    (left < -400 ==>
       var low := start - (0 - left) / (16 * nch);
       0 <= low && low + avail / (24 * nch) <= 1023 && (66 - left) / (40 * nch) <= low + 47)
  }

  lemma DroppedBy(s: int, t: int, m: int, limit: nat, d: nat)
    requires Dropped(s, t, m, limit, d) && d > 0 && m > limit
    ensures s - t == m / d && t <= s && d * (s - t) <= m
  {
    DivisionUnique(m, d, s - t, m - d * (s - t));
  }

  /** A quotient is at most what bounds its product. */
  lemma QuotientBelow(m: nat, n: nat, d: nat)
    requires d > 0 && m <= n
    ensures m / d <= n / d
  {
    DivMod(m, d);
    DivMod(n, d);
    if m / d > n / d { MulMono(n / d + 1, m / d, d); }
  }

  /** The first jump. */
  lemma FirstDrop(f: FrameIn, avail: int, nch: nat, start: int, s1: int)
    requires f.Valid() && Sized(f, nch) && StartsWell(start, avail - Cost(f, start), avail, nch)
    requires Dropped(start, s1, Cost(f, start) - avail, 400, 16 * nch)
    ensures 0 <= s1 <= start
    ensures avail - Cost(f, s1) > 400 ==> s1 + (avail - Cost(f, s1)) / (24 * nch) <= 1023
    ensures Cost(f, s1) - avail > 200 ==> (Cost(f, s1) - avail) / (40 * nch) <= s1 + 47
  {
    hide Cost, Bins, FrameIn.Valid;
    var m, d16, d24, d40 := Cost(f, start) - avail, 16 * nch, 24 * nch, 40 * nch;
    var m1 := Cost(f, s1) - avail;
    if m > 400 {
      DroppedBy(start, s1, m, 400, d16);
      CostAlmostMonotone(f, s1, start);
      if m1 < -400 { QuotientBelow(-m1, avail, d24); }
      if m1 > 200 { QuotientBelow(m1, m + 66, d40); }
    } else if m1 > 200 {
      AtMostTen(m1, nch);
    }
  }

  lemma AtMostTen(m: nat, nch: nat)
    requires m <= 400 && nch >= 1
    ensures m / (40 * nch) <= 10
  {
    QuotientBelow(m, 400 * nch, 40 * nch);
    DivisionUnique(400 * nch, 40 * nch, 10, 0);
  }

  /** The other two. */
  lemma LaterJumps(f: FrameIn, avail: int, nch: nat, s1: int, s2: int, p: int)
    requires f.Valid() && Sized(f, nch) && 0 <= s1 <= 1023
    requires Dropped(s2, s1, avail - Cost(f, s1), 400, 24 * nch)
    requires Dropped(s2, p, Cost(f, s2) - avail, 200, 40 * nch)
    requires avail - Cost(f, s1) > 400 ==> s1 + (avail - Cost(f, s1)) / (24 * nch) <= 1023
    requires Cost(f, s1) - avail > 200 ==> (Cost(f, s1) - avail) / (40 * nch) <= s1 + 47
    ensures -47 <= p <= 1023
  {
    hide Cost, Bins, FrameIn.Valid;
    var up, back := avail - Cost(f, s1), Cost(f, s2) - avail;
    if up > 400 {
      DroppedBy(s2, s1, up, 400, 24 * nch);
      AfterRise(f, avail, nch, s1, s2);
    }
    if back > 200 {
      DroppedBy(s2, p, back, 200, 40 * nch);
      if up > 400 { BackLess(nch, s2 - p, s2, back); }
    }
  }

  lemma BackLess(nch: nat, x: int, t: nat, back: int)
    requires nch >= 1 && 40 * nch * x <= back < 40 * nch * (t + 48)
    ensures x <= t + 47
  {
    if x >= t + 48 { MulMono(t + 48, x, 40 * nch); }
  }

  /** From such a start the jumps end between -47 and 1023. */
  lemma JumpsLand(f: FrameIn, avail: int, nch: nat, start: int)
    requires f.Valid() && Sized(f, nch) && StartsWell(start, avail - Cost(f, start), avail, nch)
    ensures -47 <= Jumps(f, avail, nch, start) <= 1023
  {
    hide Cost, Bins, FrameIn.Valid, Jumps, Dropped, StartsWell;
    var s1, s2 := JumpsAre(f, avail, nch, start);
    FirstDrop(f, avail, nch, start, s1);
    StartInRange(start, avail - Cost(f, start), avail, nch);
    LaterJumps(f, avail, nch, s1, s2, Jumps(f, avail, nch, start));
  }

  lemma StartInRange(start: int, left: int, avail: int, nch: nat)
    requires nch >= 1 && StartsWell(start, left, avail, nch)
    ensures 0 <= start <= 1023
  {
  }

  /** The climb from there is never held up below 0: those positions cost nothing. */
  lemma ClimbsFree(f: FrameIn, avail: int, step: nat, p: int)
    requires f.Valid() && -47 <= p && avail >= 0 && step >= 1
    ensures AllRise(f, avail, step, p)
  {
    hide Cost, FrameIn.Valid;
    forall k: nat
      ensures Rises(f, avail, step, p, k)
    {
      assert k * step >= 0;
      if p + k * step < 0 { CostLow(f, p + k * step); }
    }
  }

  /** What a caller can check before the search: from such a start the accurate search ends at the largest position of
      0..1023 that fits, and fails only if none does. */
  lemma AccurateFinds(f: FrameIn, avail: int, nch: nat, start: int)
    requires f.Valid() && Sized(f, nch) && StartsWell(start, avail - Cost(f, start), avail, nch)
    ensures Reaches(f, avail, nch, start) && Optimal(f, avail, Accurate(f, avail, nch, start))
  {
    hide Cost, Bins, FrameIn.Valid, Jumps, StartsWell, Accurate, AllRise, Optimal;
    JumpsLand(f, avail, nch, start);
    if avail >= 0 { ClimbsFree(f, avail, Step(nch), Jumps(f, avail, nch, start)); }
    AccurateExactly(f, avail, nch, start);
  }
}
