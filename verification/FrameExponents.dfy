/** All exponents of a frame (a52_process_exponents, exponent.c): extraction, encoding over runs of blocks, and the
    group codes with the bits they cost. */
module FrameExponents {
  import opened Arithmetic
  import opened BitStrings
  import opened Tables
  import opened Masking
  import opened Allocation
  import opened BitAlloc
  import opened FrameSyntax
  import opened FrameOutput
  import opened Exponent

  /** The coefficients of one block and channel, in units of 2^-24 and below 1 in magnitude. */
  ghost predicate SmallRow(row: seq<int>)
  {
    |row| == 256 && forall k :: 0 <= k < 256 ==> Abs(row[k]) < 0x100_0000
  }

  /** One channel's coefficients. */
  ghost predicate SmallRows(coef: seq<seq<int>>)
  {
    |coef| == 6 && forall b :: 0 <= b < 6 ==> SmallRow(coef[b])
  }

  predicate ValidStrategy(strategy: seq<nat>)
  {
    |strategy| == 6 && 1 <= strategy[0] <= 3 && forall b :: 0 <= b < 6 ==> strategy[b] <= 3
  }

  /** Every row of the strategy table is one the exponent coder accepts. */
  lemma TableStrategiesValid(set_: nat)
    requires set_ < 32
    ensures ValidStrategy(ExpstrSetTab(set_))
  {
    assert ExpstrSetTab(set_)[0] in {1, 2, 3};
    hide ExpstrSetTab;
  }

  /** Whether block b gets exponents of its own in row `set_`: the first does, block b > 0 by bit 5 - b of the row's
      number. */
  predicate NewIn(set_: nat, b: nat)
    requires b < 6
  {
    match b
    case 0 => true
    case 1 => set_ / 16 % 2 == 1
    case 2 => set_ / 8 % 2 == 1
    case 3 => set_ / 4 % 2 == 1
    case 4 => set_ / 2 % 2 == 1
    case 5 => set_ % 2 == 1
  }

  lemma TableNew(set_: nat, b: nat)
    requires set_ < 32 && b < 6
    ensures ExpstrSetTab(set_)[b] != REUSE <==> NewIn(set_, b)
  {
  }

  /** The whole strategy table by one rule: new exponents where the bits of the row's number say so, one for four bins
      if they serve one block, one for two bins if they serve two or three, and one for each if they serve more. */
  lemma TableRule(set_: nat, b: nat, run: nat)
    requires set_ < 32 && b < 6 && run == RunEnd(ExpstrSetTab(set_), b + 1) - b
    ensures ExpstrSetTab(set_)[b] != REUSE <==> NewIn(set_, b)
    ensures NewIn(set_, b) ==> ExpstrSetTab(set_)[b] == if run == 1 then D45 else if run <= 3 then D25 else D15
  {
    TableNew(set_, b);
    if NewIn(set_, b) { TableRun(ExpstrSetTab(set_), set_, b, run); }
    hide ExpstrSetTab, RunEnd, NewIn;
  }

  lemma TableRun(s: seq<nat>, set_: nat, b: nat, run: nat)
    requires set_ < 32 && s == ExpstrSetTab(set_) && b < 6 && s[b] != REUSE && b + run <= 6 && run > 0
    requires (b + run < 6 ==> s[b + run] != REUSE) && forall k :: b < k < b + run ==> s[k] == REUSE
    ensures s[b] == if run == 1 then D45 else if run <= 3 then D25 else D15
  {
    assert b < 1 < b + run ==> s[1] == REUSE;
    assert b < 2 < b + run ==> s[2] == REUSE;
    assert b < 3 < b + run ==> s[3] == REUSE;
    assert b < 4 < b + run ==> s[4] == REUSE;
    assert b < 5 < b + run ==> s[5] == REUSE;
  }

  ghost predicate TabReady(tab: array2<nat>)
    reads tab
  {
    tab.Length0 == 3 && tab.Length1 == 256 &&
    forall s, c :: 0 <= s < 3 && 0 <= c < 256 ==> tab[s, c] == NumGroups(s + 1, c)
  }

  ghost function ExtractedRow(row: seq<int>): (e: seq<Byte>)
    requires SmallRow(row)
    ensures |e| == 256 && forall k :: 0 <= k < 256 ==> e[k] == ExponentOf(row[k]) <= 24
  {
    seq(256, k requires 0 <= k < 256 => ExponentOf(row[k]))
  }

  ghost function Extracted(coef: seq<seq<int>>): (e: seq<seq<Byte>>)
    requires SmallRows(coef)
    ensures |e| == 6 && forall b :: 0 <= b < 6 ==> |e[b]| == 256
  {
    seq(6, b requires 0 <= b < 6 => ExtractedRow(coef[b]))
  }

  /** Extraction of one block, into an array of its own. */
  method ExtractBlock(row: seq<int>) returns (exp: array<Byte>)
    requires SmallRow(row)
    ensures fresh(exp) && exp.Length == 256 && exp[..] == ExtractedRow(row)
  {
    hide Abs, ExponentOf;
    var coef := new int[256](i requires 0 <= i < 256 => row[i]);
    exp := new Byte[256];
    ExtractExponents(coef, exp);
  }

  method ExtractChannel(coef: seq<seq<int>>) returns (exp: seq<array<Byte>>)
    requires SmallRows(coef)
    ensures |exp| == 6 && Distinct(exp) && forall b :: 0 <= b < 6 ==> fresh(exp[b]) && exp[b].Length == 256
    ensures Rows(exp) == Extracted(coef)
  {
    hide SmallRow, ExtractedRow;
    exp := [];
    for b := 0 to 6
      invariant |exp| == b && Distinct(exp)
      invariant forall c :: 0 <= c < b ==> fresh(exp[c]) && exp[c].Length == 256 && exp[c][..] == ExtractedRow(coef[c])
    {
      var e := ExtractBlock(coef[b]);
      exp := exp + [e];
    }
    assert forall b :: 0 <= b < 6 ==> Rows(exp)[b] == Extracted(coef)[b];
  }

  /** The channel is what the exponent coder makes of the coefficients under the strategy. */
  ghost predicate CodedFrom(c: Channel, coef: seq<seq<int>>, strategy: seq<nat>, ncoefs: nat)
    requires SmallRows(coef)
  {
    c.strategy == strategy && c.ncoefs == ncoefs && |c.exp| == 6 &&
    forall b :: 0 <= b < 6 ==> FinalRow(c.exp[b], Extracted(coef), strategy, b, ncoefs)
  }

  /** extract_exponents and encode_exponents for one channel. */
  method EncodeChannel(tab: array2<nat>, coef: seq<seq<int>>, strategy: seq<nat>, ncoefs: nat) returns (c: Channel)
    requires TabReady(tab) && SmallRows(coef) && ValidStrategy(strategy) && ncoefs <= 253
    ensures CodedFrom(c, coef, strategy, ncoefs)
  {
    hide FinalRow, SmallRows;
    var exp := ExtractChannel(coef);
    EncodeExponents(tab, exp, strategy, ncoefs);
    c := Channel(strategy, Rows(exp), ncoefs);
  }

  lemma FinalWithin(x: seq<Byte>, e: seq<seq<Byte>>, row: seq<int>, strategy: seq<nat>, b: nat, ncoefs: nat, k: nat)
    requires FinalRow(x, e, strategy, b, ncoefs) && ValidCount(ncoefs) && k < ncoefs
    requires SmallRow(row) && e[b] == ExtractedRow(row)
    ensures |x| == |row| == 256 && x[k] <= 24 && Abs(row[k]) < Pow2(24 - x[k])
  {
    hide Pow2, ExponentOf, RunExponents;
    CoefficientsStayBounded(e, row[k], strategy, b, ncoefs, k);
  }

  /** Every final exponent still bounds its coefficient. */
  lemma CodedBounds(c: Channel, coef: seq<seq<int>>, strategy: seq<nat>, ncoefs: nat, b: nat, k: nat)
    requires SmallRows(coef) && CodedFrom(c, coef, strategy, ncoefs) && ValidCount(ncoefs) && b < 6 && k < ncoefs
    ensures |c.exp| == 6 && |c.exp[b]| == |coef[b]| == 256 && c.exp[b][k] <= 24
    ensures Abs(coef[b][k]) < Pow2(24 - c.exp[b][k])
  {
    hide FinalRow, ExtractedRow, SmallRow, Pow2;
    FinalWithin(c.exp[b], Extracted(coef), coef[b], strategy, b, ncoefs, k);
  }

  lemma SameRun(strategy: seq<nat>, b: nat)
    requires 0 < b < |strategy| && strategy[0] != REUSE && strategy[b] == REUSE
    ensures RunStart(strategy, b) == RunStart(strategy, b - 1)
  {
  }

  lemma FinalReused(x: seq<Byte>, y: seq<Byte>, e: seq<seq<Byte>>, strategy: seq<nat>, b: nat, ncoefs: nat)
    requires FinalRow(x, e, strategy, b, ncoefs) && b > 0 && FinalRow(y, e, strategy, b - 1, ncoefs)
    requires strategy[b] == REUSE
    ensures |x| == |y| == 256 && ncoefs <= 253 && x[..ncoefs] == y[..ncoefs]
  {
    hide EncodeRow, RunMin, RunEnd, RunStart;
    SameRun(strategy, b);
  }

  /** What encode_exponents leaves is a channel the bit allocation can work on. */
  lemma CodedIsValid(c: Channel, coef: seq<seq<int>>, strategy: seq<nat>, ncoefs: nat)
    requires SmallRows(coef) && ValidStrategy(strategy) && CodedFrom(c, coef, strategy, ncoefs) && ValidCount(ncoefs)
    ensures c.Valid()
  {
    hide FinalRow, Extracted, SmallRow, Pow2;
    forall b | 0 <= b < 6
      ensures ValidRow(c.exp[b], c.ncoefs)
    {
      forall k | 0 <= k < ncoefs
        ensures |c.exp[b]| == 256 && c.exp[b][k] <= 24
      {
        CodedBounds(c, coef, strategy, ncoefs, b, k);
      }
      CodedBounds(c, coef, strategy, ncoefs, b, 0);
    }
    forall b | 0 < b < 6 && strategy[b] == REUSE
      ensures c.exp[b][..ncoefs] == c.exp[b - 1][..ncoefs]
    {
      FinalReused(c.exp[b], c.exp[b - 1], Extracted(coef), strategy, b, ncoefs);
    }
  }

  /** Rows that start a run can be transmitted. */
  lemma FinalDecodable(x: seq<Byte>, e: seq<seq<Byte>>, strategy: seq<nat>, b: nat, ncoefs: nat, g: nat, m: nat)
    requires FinalRow(x, e, strategy, b, ncoefs) && strategy[b] != REUSE
    requires g == GroupSize(strategy[b]) && m == NumGroups(strategy[b], ncoefs)
    ensures |x| == 256 && Start(g, 3 * m + 1) <= 256 && Decodable(x, g, 3 * m)
  {
    var e' := RunMin(e, b, RunEnd(strategy, b + 1), ncoefs);
    GroupsFit(strategy[b], ncoefs, g, m);
    EncodeDecodable(e', g, 3 * m);
    hide Encode, Decodable, RunMin, RunEnd, NumGroups, Start;
    assert x == Encode(e', g, 3 * m);
  }

  ghost predicate Transmittable(c: Channel, b: nat)
    requires c.Valid() && b < 6
  {
    NewExponents(c, b) ==>
      var g, m := GroupSize(c.strategy[b]), Groups(c, b);
      GroupsFit(c.strategy[b], c.ncoefs, g, m);
      Decodable(c.exp[b], g, 3 * m)
  }

  lemma CodedTransmittable(c: Channel, coef: seq<seq<int>>, strategy: seq<nat>, ncoefs: nat, b: nat)
    requires SmallRows(coef) && CodedFrom(c, coef, strategy, ncoefs) && c.Valid() && b < 6
    ensures Transmittable(c, b)
  {
    hide FinalRow, Extracted, Decodable, NumGroups, Start;
    if NewExponents(c, b) {
      FinalDecodable(c.exp[b], Extracted(coef), strategy, b, ncoefs, GroupSize(strategy[b]), Groups(c, b));
    }
  }

  // ---------- group_exponents ----------

  const MAX_GROUPS: nat := 85

  lemma GroupsBelow(strategy: nat, ncoefs: nat)
    requires 1 <= strategy <= 3 && ncoefs <= 253
    ensures NumGroups(strategy, ncoefs) < MAX_GROUPS
  {
  }

  /** The codes of one block and channel. */
  method GroupRow(tab: array2<nat>, c: Channel, b: nat) returns (row: seq<nat>, bits: nat)
    requires TabReady(tab) && c.Valid() && b < 6 && Transmittable(c, b)
    ensures CodesFor(row, c, b) && bits == ChannelExponentBits(c, b)
  {
    hide Decodable, NumGroups, Start, CodeAt, PerGroup;
    var grp := new Byte[MAX_GROUPS](_ => 0);
    bits := 0;
    if c.strategy[b] != REUSE {
      var nexpgrps := tab[c.strategy[b] - 1, c.ncoefs];
      GroupsBelow(c.strategy[b], c.ncoefs);
      GroupsFit(c.strategy[b], c.ncoefs, GroupSize(c.strategy[b]), nexpgrps);
      var exp := new Byte[256](i requires 0 <= i < 256 => c.exp[b][i]);
      assert exp[..] == c.exp[b];
      bits := GroupExponents(exp, GroupSize(c.strategy[b]), nexpgrps, grp);
    }
    row := grp[..];
  }

  /** The first n channels of block b have their codes. */
  ghost predicate RowsCoded(rows: seq<seq<nat>>, channels: seq<Channel>, b: nat, n: nat)
    requires b < 6 && forall ch :: 0 <= ch < |channels| ==> channels[ch].Valid()
  {
    |rows| == n <= |channels| && forall ch :: 0 <= ch < n ==> CodesFor(rows[ch], channels[ch], b)
  }

  ghost predicate AllTransmittable(channels: seq<Channel>)
  {
    forall ch :: 0 <= ch < |channels| ==>
      channels[ch].Valid() && forall b :: 0 <= b < 6 ==> Transmittable(channels[ch], b)
  }

  method GroupBlock(tab: array2<nat>, channels: seq<Channel>, b: nat) returns (rows: seq<seq<nat>>, bits: nat)
    requires TabReady(tab) && AllTransmittable(channels) && b < 6
    ensures RowsCoded(rows, channels, b, |channels|) && bits == ExponentBits(channels, b, |channels|)
  {
    hide CodesFor, Transmittable, Channel.Valid, TabReady, ChannelExponentBits;
    rows, bits := [], 0;
    for ch := 0 to |channels|
      invariant RowsCoded(rows, channels, b, ch) && bits == ExponentBits(channels, b, ch)
    {
      var row, n := GroupRow(tab, channels[ch], b);
      rows := rows + [row];
      bits := bits + n;
    }
  }

  /** group_exponents: the codes of all blocks and channels, and exp_bits. */
  method GroupFrame(tab: array2<nat>, channels: seq<Channel>) returns (grp: seq<seq<seq<nat>>>, bits: nat)
    requires TabReady(tab) && AllTransmittable(channels)
    ensures |grp| == 6 && forall b :: 0 <= b < 6 ==> RowsCoded(grp[b], channels, b, |channels|)
    ensures bits == FrameExponentBits(channels, 6)
  {
    hide RowsCoded, TabReady, Channel.Valid, Transmittable, ExponentBits;
    grp, bits := [], 0;
    for b := 0 to 6
      invariant |grp| == b && bits == FrameExponentBits(channels, b)
      invariant forall i :: 0 <= i < b ==> RowsCoded(grp[i], channels, i, |channels|)
    {
      var rows, n := GroupBlock(tab, channels, b);
      grp := grp + [rows];
      bits := bits + n;
    }
  }
}
