/** One frame from its coefficients to its bytes (process_frame, a52enc.c:1294-1348, after the transform): exponents,
    bit allocation, quantisation, output; and what a decoder finds in the bytes. */
module Encoder {
  import opened Arithmetic
  import opened BitStrings
  import opened Tables
  import opened MantissaCost
  import opened Allocation
  import opened BitAlloc
  import opened Mantissa
  import opened FrameSyntax
  import opened FrameOutput
  import opened FrameExponents
  import Search
  import Quantize
  import Exponent
  import Crc
  import RateControl
  import D = FrameDecoder
  import Jump = JumpRange

  /** A frame before its exponents: settings, metadata, and the coefficients of each channel and block. */
  datatype Input = Input(cfg: Config, meta: Meta, codes: ParamCodes, bwcode: nat, rematflg: seq<nat>,
                         blksw: seq<seq<nat>>, dithflag: seq<seq<nat>>, dynrng: seq<nat>, sets: seq<nat>,
                         coef: seq<seq<seq<int>>>)
  {
    ghost predicate Valid()
    {
      cfg.Valid() && codes.Valid() && D.MetaFits(meta) && bwcode <= 60 && |rematflg| == 4 && D.Flags(rematflg) &&
      |blksw| == |dithflag| == |dynrng| == 6 && (forall b :: 0 <= b < 6 ==> ValidBlock(b)) &&
      |sets| == cfg.Channels() && (forall ch :: 0 <= ch < |sets| ==> sets[ch] < 32) &&
      |coef| == cfg.AllChannels() && forall ch :: 0 <= ch < |coef| ==> SmallRows(coef[ch])
    }

    ghost predicate ValidBlock(b: nat)
      requires b < |blksw| == |dithflag| == |dynrng|
    {
      |blksw[b]| == |dithflag[b]| == cfg.Channels() && D.Flags(blksw[b]) && D.Flags(dithflag[b]) && dynrng[b] < 256
    }

    /** Exponent strategies: a row of the table for a full channel, one run of new exponents for the LFE channel. */
    function Strategy(ch: nat): (r: seq<nat>)
      requires forall c :: 0 <= c < |sets| ==> sets[c] < 32
      ensures |r| == 6 && (ch >= |sets| ==> forall b :: 0 <= b < 6 ==> (r[b] == Exponent.REUSE <==> b > 0))
    {
      if ch < |sets| then ExpstrSetTab(sets[ch]) else [Exponent.D15, 0, 0, 0, 0, 0]
    }

    /** ncoefs: from the bandwidth code, or 7. */
    function Count(ch: nat): nat
    {
      if ch < cfg.Channels() then bwcode * 3 + 73 else 7
    }
  }

  // ---------- exponents ----------

  /** Channel ch of the frame as the exponent coder leaves it. */
  ghost predicate CodedAs(inp: Input, c: Channel, ch: nat)
    requires inp.Valid() && ch < |inp.coef|
  {
    CodedFrom(c, inp.coef[ch], inp.Strategy(ch), inp.Count(ch))
  }

  ghost predicate AllCoded(inp: Input, channels: seq<Channel>, n: nat)
    requires inp.Valid()
  {
    |channels| == n <= |inp.coef| && forall ch :: 0 <= ch < n ==> CodedAs(inp, channels[ch], ch)
  }

  lemma InputChannel(inp: Input, ch: nat)
    requires inp.Valid() && ch < |inp.coef|
    ensures SmallRows(inp.coef[ch]) && ValidStrategy(inp.Strategy(ch)) && Exponent.ValidCount(inp.Count(ch))
    ensures inp.Count(ch) <= 253 && |inp.coef| == inp.cfg.AllChannels()
    ensures ch >= inp.cfg.Channels() ==> forall b :: 0 <= b < 6 ==> inp.Strategy(ch)[b] < 2
  {
    hide ExpstrSetTab, SmallRows;
    if ch < |inp.sets| { TableStrategiesValid(inp.sets[ch]); }
  }

  method EncodeChannels(tab: array2<nat>, inp: Input) returns (channels: seq<Channel>)
    requires TabReady(tab) && inp.Valid()
    ensures AllCoded(inp, channels, |inp.coef|)
  {
    hide TabReady, Input.Valid, CodedFrom, ExpstrSetTab;
    channels := [];
    for ch := 0 to |inp.coef|
      invariant AllCoded(inp, channels, ch)
    {
      InputChannel(inp, ch);
      SetsValid(inp);
      var c := EncodeChannel(tab, inp.coef[ch], inp.Strategy(ch), inp.Count(ch));
      channels := channels + [c];
    }
  }

  lemma SetsValid(inp: Input)
    requires inp.Valid()
    ensures forall c :: 0 <= c < |inp.sets| ==> inp.sets[c] < 32
  {
  }

  lemma OneCoded(inp: Input, channels: seq<Channel>, ch: nat)
    requires inp.Valid() && AllCoded(inp, channels, |inp.coef|) && ch < |channels|
    ensures |channels| == |inp.coef| && SmallRows(inp.coef[ch])
    ensures CodedFrom(channels[ch], inp.coef[ch], inp.Strategy(ch), inp.Count(ch))
  {
    assert CodedAs(inp, channels[ch], ch);
  }

  lemma ChannelFacts(inp: Input, channels: seq<Channel>, ch: nat)
    requires inp.Valid() && AllCoded(inp, channels, |inp.coef|) && ch < |channels|
    ensures channels[ch].Valid() && channels[ch].ncoefs == inp.Count(ch) && channels[ch].strategy == inp.Strategy(ch)
    ensures forall b :: 0 <= b < 6 ==> Transmittable(channels[ch], b)
  {
    hide Input.Valid, AllCoded, Exponent.FinalRow, Transmittable, Channel.Valid, SmallRows, ValidStrategy,
      Exponent.ValidCount;
    OneCoded(inp, channels, ch);
    InputChannel(inp, ch);
    SetsValid(inp);
    CodedIsValid(channels[ch], inp.coef[ch], inp.Strategy(ch), inp.Count(ch));
    forall b | 0 <= b < 6
      ensures Transmittable(channels[ch], b)
    {
      CodedTransmittable(channels[ch], inp.coef[ch], inp.Strategy(ch), inp.Count(ch), b);
    }
  }

  /** The encoded channels are what the bit allocation and group_exponents work on. */
  lemma ChannelsValid(inp: Input, channels: seq<Channel>)
    requires inp.Valid() && AllCoded(inp, channels, |inp.coef|)
    ensures inp.cfg.Valid() && inp.codes.Valid() && ValidChannels(inp.cfg, channels) && AllTransmittable(channels)
  {
    hide AllCoded, Transmittable, Channel.Valid, SmallRows;
    forall ch | 0 <= ch < |channels|
      ensures channels[ch].Valid() && forall b :: 0 <= b < 6 ==> Transmittable(channels[ch], b)
    {
      ChannelFacts(inp, channels, ch);
    }
    CodedCount(inp, channels);
  }

  lemma CodedCount(inp: Input, channels: seq<Channel>)
    requires inp.Valid() && AllCoded(inp, channels, |inp.coef|)
    ensures |channels| == inp.cfg.AllChannels() == |inp.coef|
  {
  }

  // ---------- mantissas ----------

  ghost predicate Shaped(inp: Input, channels: seq<Channel>)
  {
    |channels| <= |inp.coef| && forall ch :: 0 <= ch < |channels| ==> |inp.coef[ch]| == |channels[ch].exp| == 6
  }

  /** What quantize_mantissas reads of block b. */
  function BlockCoded(inp: Input, channels: seq<Channel>, bap: seq<seq<Byte>>, b: nat): (r: seq<Coded>)
    requires b < 6 && Shaped(inp, channels) && |bap| == |channels|
    ensures |r| == |channels|
  {
    seq(|channels|, ch requires 0 <= ch < |channels| =>
      Coded(inp.coef[ch][b], channels[ch].exp[b], bap[ch], channels[ch].ncoefs))
  }

  /** Exponents bound coefficients and pointers are pointers, in all blocks. */
  ghost predicate Quantizable(inp: Input, channels: seq<Channel>, bap: seq<seq<seq<Byte>>>)
  {
    Shaped(inp, channels) && |bap| == 6 &&
    forall b :: 0 <= b < 6 ==> |bap[b]| == |channels| && ValidCoded(BlockCoded(inp, channels, bap[b], b))
  }

  ghost function FrameItems(inp: Input, channels: seq<Channel>, bap: seq<seq<seq<Byte>>>): (r: seq<seq<seq<Item>>>)
    requires Quantizable(inp, channels, bap)
    ensures |r| == 6
  {
    seq(6, b requires 0 <= b < 6 => BlockItems(BlockCoded(inp, channels, bap[b], b)))
  }

  method NewWords(n: nat) returns (qmant: seq<array<Half>>)
    ensures |qmant| == n && Arrays(qmant) && forall c :: 0 <= c < n ==> fresh(qmant[c])
  {
    qmant := [];
    for c := 0 to n
      invariant |qmant| == c && Arrays(qmant) && forall i :: 0 <= i < c ==> fresh(qmant[i])
    {
      var a := new Half[256];
      qmant := qmant + [a];
    }
  }

  /** The words of one block. */
  method QuantizeOne(chans: seq<Coded>) returns (q: seq<seq<Half>>)
    requires ValidCoded(chans)
    ensures |q| == |chans| && forall c :: 0 <= c < |q| ==> |q[c]| == 256
    ensures AllInRange(Flat(BlockItems(chans))) && Laid(q, BlockItems(chans), Codes(Flat(BlockItems(chans))))
  {
    hide Laid, AllInRange, Flat, Codes, BlockItems, ValidCoded;
    var qmant := NewWords(|chans|);
    QuantizeBlock(chans, qmant);
    q := [];
    for c := 0 to |qmant|
      invariant |q| == c && forall i :: 0 <= i < c ==> q[i] == qmant[i][..]
    {
      q := q + [qmant[c][..]];
    }
    assert q == Words(qmant);
  }

  lemma HoldsBlock(inp: Input, channels: seq<Channel>, bap: seq<seq<Byte>>, b: nat, q: seq<seq<Half>>)
    requires b < 6 && Shaped(inp, channels) && |bap| == |channels| == |q| &&
      ValidCoded(BlockCoded(inp, channels, bap, b))
    requires forall c :: 0 <= c < |q| ==> |q[c]| == 256
    requires var rows := BlockItems(BlockCoded(inp, channels, bap, b));
      AllInRange(Flat(rows)) && Laid(q, rows, Codes(Flat(rows)))
    ensures HoldItems(bap, q, channels, BlockItems(BlockCoded(inp, channels, bap, b)))
  {
    hide Laid, AllInRange, Flat, Codes;
    var chans := BlockCoded(inp, channels, bap, b);
    forall ch | 0 <= ch < |channels|
      ensures |BlockItems(chans)[ch]| == channels[ch].ncoefs <= |bap[ch]| == 256
      ensures forall k :: 0 <= k < channels[ch].ncoefs ==> BlockItems(chans)[ch][k].b == bap[ch][k]
    {
      assert chans[ch].Valid();
    }
  }

  /** quantize_mantissas: the words of all blocks are the codes of the quantised coefficients. */
  method QuantizeMantissas(inp: Input, channels: seq<Channel>, bap: seq<seq<seq<Byte>>>)
      returns (q: seq<seq<seq<Half>>>)
    requires Quantizable(inp, channels, bap)
    ensures |q| == 6 && forall b :: 0 <= b < 6 ==> HoldItems(bap[b], q[b], channels, FrameItems(inp, channels, bap)[b])
  {
    hide HoldItems, ValidCoded, BlockItems, Laid, AllInRange, Flat, Codes;
    q := [];
    for b := 0 to 6
      invariant |q| == b
      invariant forall i :: 0 <= i < b ==> HoldItems(bap[i], q[i], channels, FrameItems(inp, channels, bap)[i])
    {
      var words := QuantizeOne(BlockCoded(inp, channels, bap[b], b));
      HoldsBlock(inp, channels, bap[b], b, words);
      q := q + [words];
    }
  }

  /** The frame as the bit allocation sees it. */
  function FrameOf(inp: Input, channels: seq<Channel>): FrameIn
    requires inp.cfg.Valid() && inp.codes.Valid()
  {
    FrameIn(channels, LoadParams(inp.cfg, inp.codes))
  }

  lemma RowQuantizable(inp: Input, channels: seq<Channel>, p: Masking.Params, row: seq<Byte>, b: nat, pos: int, ch: nat)
    requires inp.Valid() && AllCoded(inp, channels, |inp.coef|) && ch < |channels| && b < 6 && p.Valid()
    requires channels[ch].Valid() && AllocatedRow(row, channels[ch], p, b, pos)
    ensures |channels| == |inp.coef| && |inp.coef[ch]| == |channels[ch].exp| == 6
    ensures Coded(inp.coef[ch][b], channels[ch].exp[b], row, channels[ch].ncoefs).Valid()
  {
    hide Input.Valid, AllCoded, Exponent.FinalRow, Pow2, Extracted, Baps, SmallRow;
    OneCoded(inp, channels, ch);
    InputChannel(inp, ch);
    SetsValid(inp);
    assert channels[ch].ncoefs == inp.Count(ch);
    forall k | 0 <= k < channels[ch].ncoefs
      ensures |channels[ch].exp[b]| == |inp.coef[ch][b]| == |row| == 256
      ensures Bounded(inp.coef[ch][b][k], channels[ch].exp[b][k], row[k])
    {
      CodedBounds(channels[ch], inp.coef[ch], inp.Strategy(ch), inp.Count(ch), b, k);
      assert row[k] == row[..channels[ch].ncoefs][k];
    }
    CodedBounds(channels[ch], inp.coef[ch], inp.Strategy(ch), inp.Count(ch), b, 0);
  }

  lemma AllocatedQuantizable(inp: Input, f: FrameIn, bap: seq<seq<seq<Byte>>>, pos: int)
    requires inp.Valid() && AllCoded(inp, f.channels, |inp.coef|) && f.Valid() && AllocatedTo(bap, f, 6, pos)
    ensures Quantizable(inp, f.channels, bap)
  {
    hide Input.Valid, AllCoded, AllocatedRow, Coded.Valid, Channel.Valid, Masking.Params.Valid;
    forall b, ch | 0 <= b < 6 && 0 <= ch < |f.channels|
      ensures |f.channels| == |inp.coef| && |inp.coef[ch]| == |f.channels[ch].exp| == 6
      ensures Coded(inp.coef[ch][b], f.channels[ch].exp[b], bap[b][ch], f.channels[ch].ncoefs).Valid()
    {
      assert AllocatedRow(bap[b][ch], f.channels[ch], f.p, b, pos);
      RowQuantizable(inp, f.channels, f.p, bap[b][ch], b, pos, ch);
    }
    assert |f.channels| >= 1 && f.channels[0].Valid();
    assert AllocatedRow(bap[0][0], f.channels[0], f.p, 0, pos);
    RowQuantizable(inp, f.channels, f.p, bap[0][0], 0, pos, 0);
  }

  // ---------- what a decoder should find ----------

  /** The quantised coefficients of block b, channel by channel. */
  ghost function ValueRows(inp: Input, f: FrameIn, pos: int, b: nat): (r: seq<seq<int>>)
    requires f.Valid() && Shaped(inp, f.channels) && b < 6
    requires forall ch :: 0 <= ch < |f.channels| ==> |inp.coef[ch][b]| == 256
    ensures |r| == |f.channels|
  {
    seq(|f.channels|, ch requires 0 <= ch < |f.channels| =>
      seq(f.channels[ch].ncoefs, k requires 0 <= k < f.channels[ch].ncoefs =>
        Quantize.Quantized(inp.coef[ch][b][k], f.channels[ch].exp[b][k], BlockRows(f, b, pos)[ch][k])))
  }

  ghost predicate Rowed(inp: Input, f: FrameIn)
  {
    Shaped(inp, f.channels) && |inp.blksw| == |inp.dithflag| == |inp.dynrng| == 6 &&
    forall ch, b :: 0 <= ch < |f.channels| && 0 <= b < 6 ==> |inp.coef[ch][b]| == 256
  }

  /** Block b as the encoder means it: its tools, final exponents, the pointers of position pos, and the quantised
      coefficients. */
  ghost function Meant(inp: Input, f: FrameIn, pos: int, b: nat): D.BlockData
    requires f.Valid() && Rowed(inp, f) && b < 6
  {
    D.BlockData(
      D.ToolsOf(inp.cfg, inp.blksw[b], inp.dithflag[b], inp.dynrng[b], inp.rematflg),
      seq(|f.channels|, ch requires 0 <= ch < |f.channels| => f.channels[ch].exp[b][..f.channels[ch].ncoefs]),
      BlockRows(f, b, pos), Flat(ValueRows(inp, f, pos, b)))
  }

  ghost function AllMeant(inp: Input, f: FrameIn, pos: int): (r: seq<D.BlockData>)
    requires f.Valid() && Rowed(inp, f)
    ensures |r| == 6
  {
    seq(6, b requires 0 <= b < 6 => Meant(inp, f, pos, b))
  }

  /** The frame as the encoder means it. */
  ghost function FrameMeant(inp: Input, f: FrameIn, pos: int, sizeCode: nat): D.FrameData
    requires f.Valid() && Rowed(inp, f)
  {
    D.FrameData(D.FormatOf(inp.cfg), D.InfoOf(inp.cfg, inp.meta, sizeCode), AllMeant(inp, f, pos))
  }

  /** The settings that reach the output as they are. */
  ghost predicate SameSettings(inp: Input, s: Side)
  {
    s.cfg == inp.cfg && s.meta == inp.meta && s.codes == inp.codes && s.rematflg == inp.rematflg &&
    s.blksw == inp.blksw && s.dithflag == inp.dithflag && s.dynrng == inp.dynrng
  }

  lemma {:induction false} ValuesOfRows(rows: seq<seq<Item>>, vals: seq<seq<int>>)
    requires |rows| == |vals| && forall c :: 0 <= c < |rows| ==> Values(rows[c]) == vals[c]
    ensures Values(Flat(rows)) == Flat(vals)
  {
    if rows != [] {
      var n := |rows| - 1;
      ValuesOfRows(rows[..n], vals[..n]);
    }
  }

  lemma RowMeans(inp: Input, f: FrameIn, row: seq<Byte>, pos: int, b: nat, ch: nat, c: Coded)
    requires f.Valid() && Rowed(inp, f) && b < 6 && ch < |f.channels|
    requires AllocatedRow(row, f.channels[ch], f.p, b, pos)
    requires c == Coded(inp.coef[ch][b], f.channels[ch].exp[b], row, f.channels[ch].ncoefs) && c.Valid()
    ensures Values(c.Items(c.ncoefs)) == ValueRows(inp, f, pos, b)[ch]
  {
    hide Baps, Quantize.Quantized;
    var vals := ValueRows(inp, f, pos, b)[ch];
    forall k | 0 <= k < c.ncoefs
      ensures Values(c.Items(c.ncoefs))[k] == vals[k]
    {
      assert row[k] == row[..c.ncoefs][k] == BlockRows(f, b, pos)[ch][k];
    }
  }

  lemma ValuesMean(inp: Input, f: FrameIn, bap: seq<seq<seq<Byte>>>, pos: int, b: nat)
    requires f.Valid() && Rowed(inp, f) && b < 6 && Quantizable(inp, f.channels, bap) && AllocatedTo(bap, f, 6, pos)
    ensures Values(Flat(FrameItems(inp, f.channels, bap)[b])) == Flat(ValueRows(inp, f, pos, b))
  {
    hide Flat, AllocatedRow, ValueRows, Channel.Valid, Masking.Params.Valid, Coded.Valid, Values;
    var chans := BlockCoded(inp, f.channels, bap[b], b);
    var rows, vals := BlockItems(chans), ValueRows(inp, f, pos, b);
    forall ch | 0 <= ch < |rows|
      ensures Values(rows[ch]) == vals[ch]
    {
      assert chans[ch].Valid() && AllocatedRow(bap[b][ch], f.channels[ch], f.p, b, pos);
      RowMeans(inp, f, bap[b][ch], pos, b, ch, chans[ch]);
    }
    ValuesOfRows(rows, vals);
  }

  lemma ExponentsMean(inp: Input, s: Side, f: FrameIn, pos: int, b: nat)
    requires s.Valid() && f.Valid() && f.channels == s.channels && Rowed(inp, f) && b < 6
    ensures D.ExponentsOf(s, b) == Meant(inp, f, pos, b).exps
  {
    hide Flat, BlockRows, ValueRows, Channel.Valid;
  }

  lemma ToolsMean(inp: Input, s: Side, f: FrameIn, pos: int, b: nat)
    requires s.Valid() && SameSettings(inp, s) && f.Valid() && Rowed(inp, f) && b < 6
    ensures D.SideTools(s, b) == Meant(inp, f, pos, b).tools
  {
    hide Shaped, BlockRows, ValueRows, Channel.Valid, Flat, D.ToolsOf;
  }

  lemma BlockMeans(inp: Input, s: Side, f: FrameIn, bap: seq<seq<seq<Byte>>>, pos: int, b: nat)
    requires s.Valid() && SameSettings(inp, s) && f.Valid() && f.channels == s.channels && Rowed(inp, f) && b < 6
    requires Quantizable(inp, f.channels, bap) && AllocatedTo(bap, f, 6, pos)
    ensures D.Sent(s, f, pos, Flat(FrameItems(inp, f.channels, bap)[b]), b) == Meant(inp, f, pos, b)
  {
    hide Flat, BlockRows, Side.Valid, FrameIn.Valid, Quantizable, AllocatedTo, ValueRows, FrameItems, D.ExponentsOf,
      Values, Rowed, SameSettings, D.SideTools, D.ToolsOf;
    ValuesMean(inp, f, bap, pos, b);
    ExponentsMean(inp, s, f, pos, b);
    ToolsMean(inp, s, f, pos, b);
    LengthsOf(s, f, inp, b);
  }

  lemma LengthsOf(s: Side, f: FrameIn, inp: Input, b: nat)
    requires s.Valid() && Rowed(inp, f) && b < 6
    ensures b < |s.blksw| && b < |s.dithflag| && b < |s.dynrng|
    ensures b < |inp.blksw| && b < |inp.dithflag| && b < |inp.dynrng|
  {
  }

  lemma {:induction false} SentTo(inp: Input, s: Side, f: FrameIn, bap: seq<seq<seq<Byte>>>, pos: int, n: nat)
    requires SameSettings(inp, s)
    requires s.Valid() && f.Valid() && f.channels == s.channels && Rowed(inp, f) && n <= 6
    requires Quantizable(inp, f.channels, bap) && AllocatedTo(bap, f, 6, pos)
    ensures D.AllSent(s, f, pos, FrameItems(inp, f.channels, bap), n) == AllMeant(inp, f, pos)[..n]
  {
    hide D.Sent, Meant, Quantizable, AllocatedTo, Side.Valid, FrameIn.Valid, Flat, FrameItems, Rowed, SameSettings;
    if n > 0 {
      SentTo(inp, s, f, bap, pos, n - 1);
      BlockMeans(inp, s, f, bap, pos, n - 1);
      var all := AllMeant(inp, f, pos);
      assert all[..n] == all[..n - 1] + [all[n - 1]];
    }
  }

  lemma CodedRowed(inp: Input, channels: seq<Channel>)
    requires inp.Valid() && AllCoded(inp, channels, |inp.coef|) && inp.cfg.Valid() && inp.codes.Valid()
    ensures Rowed(inp, FrameOf(inp, channels))
  {
    hide Exponent.FinalRow, LoadParams;
    InputBlock(inp, 0);
    forall ch | 0 <= ch < |channels|
      ensures |inp.coef[ch]| == |channels[ch].exp| == 6 && forall b :: 0 <= b < 6 ==> |inp.coef[ch][b]| == 256
    {
      OneCoded(inp, channels, ch);
    }
  }

  /** Every value a decoder finds is near its coefficient: within 1 / levels for the symmetric pointers, and less than
      one step below for the others. */
  lemma MeantIsAccurate(inp: Input, f: FrameIn, pos: int, b: nat, ch: nat, k: nat)
    requires inp.Valid() && AllCoded(inp, f.channels, |inp.coef|) && f.Valid() && Rowed(inp, f)
    requires b < 6 && ch < |f.channels| && k < f.channels[ch].ncoefs
    ensures var rows := ValueRows(inp, f, pos, b); var i := Pos(rows, Slot(ch, k));
      i < |Meant(inp, f, pos, b).values| && f.channels[ch].exp[b][k] <= 24 &&
      Quantize.Near(inp.coef[ch][b][k], f.channels[ch].exp[b][k], BlockRows(f, b, pos)[ch][k],
                    Meant(inp, f, pos, b).values[i])
  {
    hide Input.Valid, AllCoded, Exponent.FinalRow, Pow2, Extracted, Baps, SmallRow, Quantize.Quantized, Quantize.Near,
      Abs, Flat, Off;
    OneCoded(inp, f.channels, ch);
    InputChannel(inp, ch);
    SetsValid(inp);
    assert f.channels[ch].ncoefs == inp.Count(ch);
    CodedBounds(f.channels[ch], inp.coef[ch], inp.Strategy(ch), inp.Count(ch), b, k);
    FlatAt(ValueRows(inp, f, pos, b), Slot(ch, k));
    Quantize.QuantizedIsAccurate(inp.coef[ch][b][k], f.channels[ch].exp[b][k], BlockRows(f, b, pos)[ch][k]);
  }

  // ---------- output ----------

  /** What the output functions read; the SNR codes are cut to their fields as the bit writer cuts them. */
  function SideOf(inp: Input, channels: seq<Channel>, grp: seq<seq<seq<nat>>>, writeSnr: seq<bool>,
                  fgaincod: seq<seq<nat>>, csnroffst: int, fsnroffst: int, sizeCode: nat): Side
  {
    Side(inp.cfg, inp.meta, inp.codes, sizeCode, inp.bwcode, inp.rematflg, channels, inp.blksw, inp.dithflag,
         inp.dynrng, grp, writeSnr, fgaincod, csnroffst % 64, fsnroffst % 16)
  }

  /** Flags and codes of start_bit_allocation. */
  ghost predicate GainsSet(channels: seq<Channel>, writeSnr: seq<bool>, fgaincod: seq<seq<nat>>)
    requires forall ch :: 0 <= ch < |channels| ==> channels[ch].Valid()
  {
    |fgaincod| == |writeSnr| == 6 &&
    (forall b :: 0 <= b < 6 ==> |fgaincod[b]| == |channels| && writeSnr[b] == WriteSnr(channels, b)) &&
    forall b, ch :: 0 <= b < 6 && 0 <= ch < |channels| ==> fgaincod[b][ch] == FgainCod(channels[ch], b)
  }

  ghost predicate GroupsSet(channels: seq<Channel>, grp: seq<seq<seq<nat>>>)
    requires forall ch :: 0 <= ch < |channels| ==> channels[ch].Valid()
  {
    |grp| == 6 && forall b :: 0 <= b < 6 ==> RowsCoded(grp[b], channels, b, |channels|)
  }

  lemma RowsShape(rows: seq<seq<nat>>, channels: seq<Channel>, b: nat, ch: nat)
    requires b < 6 && (forall c :: 0 <= c < |channels| ==> channels[c].Valid()) && ch < |channels|
    requires RowsCoded(rows, channels, b, |channels|)
    ensures |rows| == |channels| && |rows[ch]| > Groups(channels[ch], b) && CodesFor(rows[ch], channels[ch], b)
  {
  }

  lemma InputBlock(inp: Input, b: nat)
    requires inp.Valid() && b < 6
    ensures inp.cfg.Valid() && |inp.rematflg| == 4 && |inp.blksw| == |inp.dithflag| == |inp.dynrng| == 6
    ensures inp.ValidBlock(b) && D.Flags(inp.rematflg) && inp.bwcode <= 60 && inp.codes.Valid() && D.MetaFits(inp.meta)
    ensures |inp.sets| == inp.cfg.Channels()
  {
  }

  /** Side information s is that of the input, with the position's two codes. */
  ghost predicate SideFrom(inp: Input, s: Side, csnroffst: int, fsnroffst: int)
    requires forall ch :: 0 <= ch < |s.channels| ==> s.channels[ch].Valid()
  {
    GainsSet(s.channels, s.writeSnr, s.fgaincod) && GroupsSet(s.channels, s.grp) && s.sizeCode < 64 &&
    s == SideOf(inp, s.channels, s.grp, s.writeSnr, s.fgaincod, csnroffst, fsnroffst, s.sizeCode)
  }

  lemma SideValid(inp: Input, s: Side, csnroffst: int, fsnroffst: int)
    requires inp.Valid() && AllCoded(inp, s.channels, |inp.coef|) && ValidChannels(inp.cfg, s.channels)
    requires SideFrom(inp, s, csnroffst, fsnroffst)
    ensures s.Valid() && s.GainsRight()
  {
    hide Input.Valid, AllCoded, RowsCoded, Channel.Valid, D.Flags, Config.Valid, D.MetaFits;
    forall b | 0 <= b < 6
      ensures |s.blksw| == |s.dithflag| == |s.grp| == |s.fgaincod| == |s.dynrng| == 6 && |s.rematflg| == 4
      ensures s.cfg.Valid() && s.ValidBlock(b)
    {
      InputBlock(inp, b);
      forall ch | 0 <= ch < |s.channels|
        ensures |s.grp[b]| == |s.channels| && |s.grp[b][ch]| > Groups(s.channels[ch], b)
      {
        RowsShape(s.grp[b], s.channels, b, ch);
      }
      assert |s.channels| > 0;
      RowsShape(s.grp[b], s.channels, b, 0);
    }
    InputBlock(inp, 0);
  }

  lemma ChannelWritable(inp: Input, s: Side, b: nat, ch: nat)
    requires inp.Valid() && AllCoded(inp, s.channels, |inp.coef|) && s.Valid() && GroupsSet(s.channels, s.grp)
    requires s.cfg == inp.cfg && s.bwcode == inp.bwcode && ch < |s.channels| && b < 6
    ensures D.CodesRight(s, b, ch)
    ensures s.channels[ch].ncoefs == if ch < s.cfg.Channels() then 3 * s.bwcode + 73 else 7
    ensures ch >= s.cfg.Channels() ==> |s.channels[ch].strategy| == 6 && s.channels[ch].strategy[b] < 2
  {
    hide Input.Valid, AllCoded, RowsCoded, Channel.Valid, CodesFor, Side.Valid, SmallRows, Transmittable;
    SideChannels(s);
    assert RowsCoded(s.grp[b], s.channels, b, |s.channels|);
    RowsShape(s.grp[b], s.channels, b, ch);
    ChannelFacts(inp, s.channels, ch);
    SetsValid(inp);
    CodedCount(inp, s.channels);
    InputChannel(inp, ch);
  }

  lemma SideChannels(s: Side)
    requires s.Valid()
    ensures s.cfg.Valid() && ValidChannels(s.cfg, s.channels) && |s.channels| == s.cfg.AllChannels()
  {
  }

  /** Every value fits its field. */
  lemma SideWritable(inp: Input, s: Side, csnroffst: int, fsnroffst: int)
    requires inp.Valid() && AllCoded(inp, s.channels, |inp.coef|) && ValidChannels(inp.cfg, s.channels)
    requires SideFrom(inp, s, csnroffst, fsnroffst)
    ensures D.Writable(s) && D.HeaderFits(s)
  {
    hide Input.Valid, AllCoded, RowsCoded, Channel.Valid, Side.Valid, Side.GainsRight, D.Flags, D.MetaFits,
      D.CodesRight, ValidChannels, GainsSet;
    SideValid(inp, s, csnroffst, fsnroffst);
    SideChannels(s);
    InputBlock(inp, 0);
    forall b | 0 <= b < 6
      ensures D.WritableBlock(s, b)
    {
      InputBlock(inp, b);
      forall ch | 0 <= ch < |s.channels|
        ensures D.CodesRight(s, b, ch)
      {
        ChannelWritable(inp, s, b, ch);
      }
      if s.cfg.lfe { ChannelWritable(inp, s, b, s.cfg.Channels()); }
    }
    forall ch | 0 <= ch < |s.channels|
      ensures s.channels[ch].ncoefs == if ch < s.cfg.Channels() then 3 * s.bwcode + 73 else 7
    {
      ChannelWritable(inp, s, 0, ch);
    }
  }

  lemma TotalAtLeast(s: Side, bap: seq<seq<seq<Byte>>>, q: seq<seq<seq<Half>>>)
    requires s.Valid() && ValidFrameWords(s, bap, q)
    ensures Total(FrameFields(s, bap, q, 6)) >= 32
  {
    D.HeaderFirst(s, bap, q, 6);
    SideChannels(s);
    HeaderTotal(s);
    hide FrameFields, D.AudioFields, Total, Header, Side.Valid, ValidFrameWords;
    EmitConcat(Header(s), D.AudioFields(s, bap, q, 6));
  }

  /** output_frame_header and output_audio_blocks. */
  method WriteFields(s: Side, bap: seq<seq<seq<Byte>>>, q: seq<seq<seq<Half>>>, frame: array<Byte>)
      returns (w: FrameWriter)
    requires s.Valid() && s.cfg.Valid() && ValidFrameWords(s, bap, q) && MAX_FRAME <= frame.Length
    modifies frame
    ensures w.frame == frame && fresh(w.bw) && w.Wrote(FrameFields(s, bap, q, 6))
  {
    hide *;
    w := new FrameWriter(frame);
    w.OutputFrameHeader(s);
    w.OutputAudioBlocks(s, bap, q);
  }

  lemma FinishedFrom(frame: seq<Byte>, bytes: seq<Byte>, w: seq<Field>, fs: nat)
    requires 2 <= fs && 2 * fs <= |frame| && bytes == frame[..2 * fs] && 32 <= Total(w) <= 8 * (2 * fs - 2)
    requires ByteBits(frame[..2]) == Padded(w, fs)[..16] && ByteBits(frame[4..2 * fs - 2]) == Padded(w, fs)[32..]
    ensures D.Finished(bytes, w, fs)
  {
    hide ByteBits, Padded, Total;
    assert bytes[..2] == frame[..2] && bytes[4..2 * fs - 2] == frame[4..2 * fs - 2];
  }

  /** output_frame_header, output_audio_blocks and output_frame_end: data that fits becomes a whole frame. */
  method WriteFrame(s: Side, bap: seq<seq<seq<Byte>>>, q: seq<seq<seq<Half>>>, fs: nat, table: array<Crc.Word16>,
                    frame: array<Byte>) returns (size: int)
    requires s.Valid() && s.cfg.Valid() && ValidFrameWords(s, bap, q)
    requires 32 <= Total(FrameFields(s, bap, q, 6)) <= 16 * fs - 18
    requires Crc.TableOk(table[..]) && 4 <= fs && 2 * fs <= MAX_FRAME <= frame.Length && table as object != frame
    modifies frame
    ensures size == 2 * fs
    ensures Crc.IsCrc(frame[2..2 * FiveEighths(fs)], 0) && Crc.IsCrc(frame[2..2 * fs], 0)
    ensures D.Finished(frame[..2 * fs], FrameFields(s, bap, q, 6), fs)
  {
    hide *;
    ghost var tab := table[..];
    var w := WriteFields(s, bap, q, frame);
    assert table[..] == tab;
    size := w.OutputFrameEnd(fs, table, FrameFields(s, bap, q, 6));
    FinishedFrom(frame[..], frame[..2 * fs], FrameFields(s, bap, q, 6), fs);
  }

  // ---------- one frame ----------

  /** The tables set up once: group counts, critical bands and the checksum table. */
  datatype Context = Context(nexpgrptab: array2<nat>, bandStart: array<Byte>, binToBand: array<Byte>,
                             crcTab: array<Crc.Word16>)
  {
    ghost predicate Ready()
      reads nexpgrptab, bandStart, binToBand, crcTab
    {
      TabReady(nexpgrptab) && BandTables(bandStart, binToBand) && Crc.TableOk(crcTab[..])
    }
  }

  method InitContext() returns (t: Context)
    ensures t.Ready() && fresh(t.nexpgrptab) && fresh(t.bandStart) && fresh(t.binToBand) && fresh(t.crcTab)
  {
    hide Crc.TableOk, Exponent.NumGroups, Masking.BandStart, Masking.BandOf;
    var nexpgrptab := Exponent.ExponentInit();
    var bandStart, binToBand := Masking.CommonInit();
    var crcTab := Crc.InitTable(16, Crc.POLY);
    t := Context(nexpgrptab, bandStart, binToBand, crcTab);
  }

  /** Frame size and starting point: for constant bit rate as adjust_frame_size left the size (see
      RateControl.FrameSizeIsTabulated). */
  datatype Sizing = Sizing(frmsizecod: nat, frameSize: nat, frameSizeMin: nat, bitRate: nat, lastQuality: int)
  {
    predicate Right(fscod: nat)
      requires fscod < 3
    {
      frameSize >= frameSizeMin && frmsizecod + (frameSize - frameSizeMin) < 38 &&
      16 * frameSize == FrameSizeTab(frmsizecod + (frameSize - frameSizeMin), fscod)
    }
  }

  /** At constant bit rate, the size every frame of every run gets is right for the header it is written with. */
  lemma RunSizesRight(r: RateControl.Rate, n: nat, quality: int)
    requires r.Valid()
    ensures var pad := RateControl.P2N(RateControl.Pads(RateControl.AtFrame(r, n), r.Kbps(), r.SampleRate()));
      Sizing(2 * r.index, r.MinWords() + pad, r.MinWords(), r.BitRate(), quality).Right(r.fscod)
  {
    hide RateControl.Pads, RateControl.AtFrame, FrameSizeTab;
    RateControl.FrameSizeIsTabulated(r, n);
  }

  /** What compute_bit_allocation leaves in the frame. */
  datatype Choice = Choice(ok: bool, bap: seq<seq<seq<Byte>>>, writeSnr: seq<bool>, fgaincod: seq<seq<nat>>,
                           csnroffst: int, fsnroffst: int, quality: int, words: nat, sizeCode: nat)

  /** Where the search of a frame starts. */
  function StartPosition(inp: Input, z: Sizing): int
  {
    if inp.cfg.vbr then inp.cfg.vbrQuality else z.lastQuality
  }

  /** The position the search settles on in a frame of so many words. */
  ghost function Position(inp: Input, channels: seq<Channel>, words: nat, z: Sizing): int
    requires inp.cfg.Valid() && inp.codes.Valid() && ValidChannels(inp.cfg, channels) && FrameOf(inp, channels).Valid()
  {
    Found(inp.cfg, FrameOf(inp, channels), Room(inp.cfg, channels, words), StartPosition(inp, z))
  }

  ghost predicate Fits(inp: Input, channels: seq<Channel>, words: nat, pos: int)
    requires inp.cfg.Valid() && inp.codes.Valid() && ValidChannels(inp.cfg, channels) && FrameOf(inp, channels).Valid()
  {
    Search.Fits(FrameOf(inp, channels), Room(inp.cfg, channels, words), pos)
  }

  ghost predicate Chosen(inp: Input, channels: seq<Channel>, x: Choice, z: Sizing)
    requires inp.cfg.Valid() && inp.codes.Valid() && ValidChannels(inp.cfg, channels) && FrameOf(inp, channels).Valid()
  {
    var pos := Position(inp, channels, x.words, z);
    GainsSet(channels, x.writeSnr, x.fgaincod) &&
    x.sizeCode < 38 && 16 * x.words == FrameSizeTab(x.sizeCode, inp.cfg.fscod) &&
    (!inp.cfg.vbr ==> x.words == z.frameSize) && (x.ok <==> Fits(inp, channels, x.words, pos)) &&
    (x.ok ==> x.quality == pos && x.csnroffst == pos / 16 && x.fsnroffst == pos % 16 &&
              AllocatedTo(x.bap, FrameOf(inp, channels), 6, pos))
  }

  lemma GainsFrom(channels: seq<Channel>, writeSnr: seq<bool>, fgaincod: seq<seq<nat>>)
    requires forall ch :: 0 <= ch < |channels| ==> channels[ch].Valid()
    requires |fgaincod| == |writeSnr| == 6
    requires forall b :: 0 <= b < 6 ==> |fgaincod[b]| == |channels| && writeSnr[b] == WriteSnr(channels, b)
    requires forall b, ch :: 0 <= b < 6 && 0 <= ch < |channels| ==> fgaincod[b][ch] == FgainCod(channels[ch], b)
    ensures GainsSet(channels, writeSnr, fgaincod)
  {
  }

  /** The allocation of one frame. */
  method ChooseAllocation(t: Context, inp: Input, channels: seq<Channel>, expBits: nat, z: Sizing) returns (x: Choice)
    requires t.Ready() && inp.cfg.Valid() && inp.codes.Valid() && ValidChannels(inp.cfg, channels)
    requires (!inp.cfg.vbr ==> z.Right(inp.cfg.fscod)) && expBits == FrameExponentBits(channels, 6)
    ensures FrameOf(inp, channels).Valid() && Chosen(inp, channels, x, z)
  {
    hide LoadParams, FrameBits, FrameExponentBits, WriteSnr, FgainCod, Channel.Valid, FrameSizeTab, Found, AllocatedTo,
      Allocator.Started, Crc.TableOk, Cost, GainsSet, FrameIn.Valid, TabReady, BandTables, Config.Valid;
    var a := new Allocator(inp.cfg, channels, inp.codes, t.bandStart, t.binToBand, expBits, z.frmsizecod, z.frameSize,
                           z.frameSizeMin, z.bitRate, z.lastQuality);
    var ok := a.ComputeBitAllocation();
    a.StartedMeans();
    GainsFrom(channels, a.writeSnr, a.fgaincod);
    x := Choice(ok, a.bap, a.writeSnr, a.fgaincod, a.csnroffst, a.fsnroffst, a.quality, a.frameSize,
                a.frmsizecod + (a.frameSize - a.frameSizeMin));
  }

  /** Everything the output needs, from the pieces. */
  lemma ReadyToWrite(inp: Input, s: Side, x: Choice, q: seq<seq<seq<Half>>>, z: Sizing)
    requires inp.Valid() && AllCoded(inp, s.channels, |inp.coef|) && inp.cfg.Valid() && inp.codes.Valid()
    requires ValidChannels(inp.cfg, s.channels) && FrameOf(inp, s.channels).Valid()
    requires Chosen(inp, s.channels, x, z) && x.ok
    requires SideFrom(inp, s, x.csnroffst, x.fsnroffst) && Quantizable(inp, s.channels, x.bap) && |q| == 6
    requires forall b :: 0 <= b < 6 ==> HoldItems(x.bap[b], q[b], s.channels, FrameItems(inp, s.channels, x.bap)[b])
    ensures s.Valid() && s.cfg.Valid() && ValidFrameWords(s, x.bap, q)
    ensures Encoded(s, FrameOf(inp, s.channels), x.quality, x.bap, q, FrameItems(inp, s.channels, x.bap))
    ensures 32 <= Total(FrameFields(s, x.bap, q, 6)) <= 16 * x.words - 18
  {
    hide *;
    SideValid(inp, s, x.csnroffst, x.fsnroffst);
    SideChannels(s);
    ChosenMeans(inp, s.channels, x, z);
    SideSame(inp, s, x.csnroffst, x.fsnroffst);
    var f, items := FrameOf(inp, s.channels), FrameItems(inp, s.channels, x.bap);
    EncodedFrom(s, f, x.quality, x.bap, q, items);
    EncodedWords(s, f, x.quality, x.bap, q, items);
    FrameFits(s, f, x.quality, x.bap, q, items, x.words);
    TotalAtLeast(s, x.bap, q);
  }

  lemma SideSame(inp: Input, s: Side, csnroffst: int, fsnroffst: int)
    requires ValidChannels(inp.cfg, s.channels) && SideFrom(inp, s, csnroffst, fsnroffst)
    ensures SameSettings(inp, s) && s.csnroffst == csnroffst % 64 && s.fsnroffst == fsnroffst % 16
  {
  }

  lemma ChosenMeans(inp: Input, channels: seq<Channel>, x: Choice, z: Sizing)
    requires inp.cfg.Valid() && inp.codes.Valid() && ValidChannels(inp.cfg, channels) && FrameOf(inp, channels).Valid()
    requires Chosen(inp, channels, x, z) && x.ok
    ensures FrameOf(inp, channels).channels == channels && FrameOf(inp, channels).p == LoadParams(inp.cfg, inp.codes)
    ensures AllocatedTo(x.bap, FrameOf(inp, channels), 6, x.quality)
    ensures Cost(FrameOf(inp, channels), x.quality) <= Room(inp.cfg, channels, x.words)
    ensures x.csnroffst == x.quality / 16 && x.fsnroffst == x.quality % 16
    ensures 64 <= x.words && 2 * x.words <= MAX_FRAME && x.sizeCode < 38
  {
    hide LoadParams, AllocatedTo, Cost, Room, Found, FrameSizeTab, GainsSet, Channel.Valid, FrameIn.Valid;
    SizeBounds(x.sizeCode, inp.cfg.fscod);
  }

  lemma SizeBounds(i: nat, fscod: nat)
    requires i < 38 && fscod < 3
    ensures 1024 <= FrameSizeTab(i, fscod) <= 30720
  {
  }

  lemma EncodedFrom(s: Side, f: FrameIn, pos: int, bap: seq<seq<seq<Byte>>>, q: seq<seq<seq<Half>>>,
                    items: seq<seq<seq<Item>>>)
    requires s.Valid() && s.GainsRight() && f.Valid() && f.channels == s.channels && AllocatedTo(bap, f, 6, pos)
    requires |q| == |items| == 6 && forall b :: 0 <= b < 6 ==> HoldItems(bap[b], q[b], s.channels, items[b])
    ensures Encoded(s, f, pos, bap, q, items)
  {
    hide HoldItems, Side.Valid, Side.GainsRight, FrameIn.Valid, AllocatedTo;
  }

  /** What a decoder makes of the finished bytes. */
  lemma FrameDecodes(inp: Input, s: Side, x: Choice, q: seq<seq<seq<Half>>>, z: Sizing, bytes: seq<Byte>)
    requires inp.Valid() && AllCoded(inp, s.channels, |inp.coef|) && inp.cfg.Valid() && inp.codes.Valid()
    requires ValidChannels(inp.cfg, s.channels) && FrameOf(inp, s.channels).Valid()
    requires Chosen(inp, s.channels, x, z) && x.ok
    requires SideFrom(inp, s, x.csnroffst, x.fsnroffst) && Quantizable(inp, s.channels, x.bap) && |q| == 6
    requires forall b :: 0 <= b < 6 ==> HoldItems(x.bap[b], q[b], s.channels, FrameItems(inp, s.channels, x.bap)[b])
    requires s.Valid() && ValidFrameWords(s, x.bap, q) && Rowed(inp, FrameOf(inp, s.channels))
    requires D.Finished(bytes, FrameFields(s, x.bap, q, 6), x.words)
    ensures Decodes(inp, FrameOf(inp, s.channels), x.quality, s.sizeCode, bytes) <==>
      D.SameTo(FrameOf(inp, s.channels), x.quality, 6)
  {
    hide *;
    ReadyToWrite(inp, s, x, q, z);
    ChosenMeans(inp, s.channels, x, z);
    SideSame(inp, s, x.csnroffst, x.fsnroffst);
    SideWritable(inp, s, x.csnroffst, x.fsnroffst);
    var f, items := FrameOf(inp, s.channels), FrameItems(inp, s.channels, x.bap);
    SameFrom(inp, s, f, x.quality);
    D.FrameRoundTrip(s, f, x.quality, x.bap, q, items, x.words, bytes);
    SentTo(inp, s, f, x.bap, x.quality, 6);
    assert AllMeant(inp, f, x.quality)[..6] == AllMeant(inp, f, x.quality);
    FrameMeans(inp, s, f, x.quality, items, bytes);
  }

  lemma FrameMeans(inp: Input, s: Side, f: FrameIn, pos: int, items: seq<seq<seq<Item>>>, bytes: seq<Byte>)
    requires s.Valid() && f.Valid() && |items| == 6 && Rowed(inp, f) && SameSettings(inp, s)
    requires D.AllSent(s, f, pos, items, 6) == AllMeant(inp, f, pos)
    ensures var p := D.ReadFrame(ByteBits(bytes));
      Decodes(inp, f, pos, s.sizeCode, bytes) <==> p.Ok? && p.value == D.FrameSent(s, f, pos, items)
  {
    hide Side.Valid, FrameIn.Valid, Rowed, D.AllSent, AllMeant, D.ReadFrame, ByteBits, D.InfoOf, D.FormatOf;
  }

  lemma SameFrom(inp: Input, s: Side, f: FrameIn, pos: int)
    requires s.Valid() && s.cfg.Valid() && s.codes.Valid() && f.Valid() && f.channels == s.channels
    requires SameSettings(inp, s) && inp.cfg.Valid() && inp.codes.Valid() && f.p == LoadParams(inp.cfg, inp.codes)
    requires s.csnroffst == pos / 16 % 64 && s.fsnroffst == pos % 16 % 16
    ensures D.SameAllocation(s, f, pos)
  {
    hide LoadParams, Side.Valid, FrameIn.Valid;
  }

  /** A decoder finds in the bytes exactly what the encoder meant with position pos. */
  ghost predicate Decodes(inp: Input, f: FrameIn, pos: int, sizeCode: nat, bytes: seq<Byte>)
    requires f.Valid() && Rowed(inp, f)
  {
    var p := D.ReadFrame(ByteBits(bytes)); p.Ok? && p.value == FrameMeant(inp, f, pos, sizeCode)
  }

  /** The bytes of a frame that was encoded: both checksums hold, and a decoder finds exactly what the encoder meant if
      and only if the two SNR codes, as far as their fields hold them, stand for a position of the same pointers. */
  ghost predicate Delivered(inp: Input, f: FrameIn, pos: int, words: nat, sizeCode: nat, bytes: seq<Byte>)
    requires f.Valid() && Rowed(inp, f)
  {
    |bytes| == 2 * words >= 128 && Crc.IsCrc(bytes[2..2 * FiveEighths(words)], 0) && Crc.IsCrc(bytes[2..], 0) &&
    (Decodes(inp, f, pos, sizeCode, bytes) <==> D.SameTo(f, pos, 6))
  }

  /** What process_frame reports. */
  datatype Outcome = Outcome(ok: bool, size: int, quality: int, sizeCode: nat)

  /** The frame is produced exactly when the position the search settles on fits; then its size is the one its header
      announces, and its bytes are delivered. */
  ghost predicate Produced(inp: Input, channels: seq<Channel>, z: Sizing, r: Outcome, words: nat, bytes: seq<Byte>)
    requires inp.cfg.Valid() && inp.codes.Valid() && ValidChannels(inp.cfg, channels) && FrameOf(inp, channels).Valid()
    requires Rowed(inp, FrameOf(inp, channels))
  {
    var pos := Position(inp, channels, words, z);
    r.sizeCode < 38 && 16 * words == FrameSizeTab(r.sizeCode, inp.cfg.fscod) &&
    (!inp.cfg.vbr ==> words == z.frameSize) && (r.ok <==> Fits(inp, channels, words, pos)) &&
    (!r.ok ==> r.size == 0) &&
    (r.ok ==> r.size == 2 * words && r.quality == pos && 2 * words <= |bytes| &&
              Delivered(inp, FrameOf(inp, channels), pos, words, r.sizeCode, bytes[..2 * words]))
  }

  lemma ProducedFrom(inp: Input, channels: seq<Channel>, z: Sizing, x: Choice, r: Outcome, bytes: seq<Byte>)
    requires inp.cfg.Valid() && inp.codes.Valid() && ValidChannels(inp.cfg, channels) && FrameOf(inp, channels).Valid()
    requires Rowed(inp, FrameOf(inp, channels)) && Chosen(inp, channels, x, z)
    requires r.ok == x.ok && r.sizeCode == x.sizeCode && r.quality == x.quality &&
      r.size == (if x.ok then 2 * x.words else 0)
    requires x.ok ==>
      2 * x.words <= |bytes| &&
      Delivered(inp, FrameOf(inp, channels), x.quality, x.words, x.sizeCode, bytes[..2 * x.words])
    ensures Produced(inp, channels, z, r, x.words, bytes)
  {
    hide LoadParams, AllocatedTo, Found, FrameSizeTab, GainsSet, Channel.Valid, FrameIn.Valid, Delivered, Rowed, Fits;
  }

  lemma DeliveredFrom(inp: Input, f: FrameIn, pos: int, words: nat, sizeCode: nat, frame: seq<Byte>)
    requires f.Valid() && Rowed(inp, f) && 64 <= words && 2 * words <= |frame|
    requires Crc.IsCrc(frame[2..2 * FiveEighths(words)], 0) && Crc.IsCrc(frame[2..2 * words], 0)
    requires Decodes(inp, f, pos, sizeCode, frame[..2 * words]) <==> D.SameTo(f, pos, 6)
    ensures Delivered(inp, f, pos, words, sizeCode, frame[..2 * words])
  {
    hide Crc.IsCrc, Decodes, FrameIn.Valid, Rowed, D.SameTo;
    var bytes := frame[..2 * words];
    assert bytes[2..2 * FiveEighths(words)] == frame[2..2 * FiveEighths(words)] && bytes[2..] == frame[2..2 * words];
  }

  /** Quantisation and output of an allocated frame. */
  method EmitFrame(t: Context, inp: Input, channels: seq<Channel>, grp: seq<seq<seq<nat>>>, x: Choice,
                   frame: array<Byte>, ghost z: Sizing) returns (size: int)
    requires inp.Valid() && AllCoded(inp, channels, |inp.coef|) && inp.cfg.Valid() && inp.codes.Valid()
    requires ValidChannels(inp.cfg, channels) && FrameOf(inp, channels).Valid() && Rowed(inp, FrameOf(inp, channels))
    requires Chosen(inp, channels, x, z) && x.ok && GroupsSet(channels, grp) && Crc.TableOk(t.crcTab[..])
    requires MAX_FRAME <= frame.Length && t.crcTab as object != frame
    modifies frame
    ensures size == 2 * x.words <= frame.Length
    ensures Delivered(inp, FrameOf(inp, channels), x.quality, x.words, x.sizeCode, frame[..2 * x.words])
  {
    hide *;
    ghost var f := FrameOf(inp, channels);
    ChosenMeans(inp, channels, x, z);
    AllocatedQuantizable(inp, f, x.bap, x.quality);
    var q := QuantizeMantissas(inp, channels, x.bap);
    var s := SideOf(inp, channels, grp, x.writeSnr, x.fgaincod, x.csnroffst, x.fsnroffst, x.sizeCode);
    SideIs(inp, channels, grp, x, z, s);
    ReadyToWrite(inp, s, x, q, z);
    size := WriteFrame(s, x.bap, q, x.words, t.crcTab, frame);
    FrameDecodes(inp, s, x, q, z, frame[..2 * x.words]);
    DeliveredFrom(inp, f, x.quality, x.words, x.sizeCode, frame[..]);
    assert frame[..][..2 * x.words] == frame[..2 * x.words];
  }

  lemma SideIs(inp: Input, channels: seq<Channel>, grp: seq<seq<seq<nat>>>, x: Choice, z: Sizing, s: Side)
    requires inp.cfg.Valid() && inp.codes.Valid() && ValidChannels(inp.cfg, channels) && FrameOf(inp, channels).Valid()
    requires Chosen(inp, channels, x, z) && GroupsSet(channels, grp)
    requires s == SideOf(inp, channels, grp, x.writeSnr, x.fgaincod, x.csnroffst, x.fsnroffst, x.sizeCode)
    ensures s.channels == channels && SideFrom(inp, s, x.csnroffst, x.fsnroffst) && s.sizeCode == x.sizeCode
  {
    hide LoadParams, AllocatedTo, Found, FrameSizeTab, GainsSet, GroupsSet, Channel.Valid, FrameIn.Valid, Fits;
  }

  lemma GroupsFrom(cfg: Config, channels: seq<Channel>, grp: seq<seq<seq<nat>>>)
    requires ValidChannels(cfg, channels)
    requires |grp| == 6 && forall b :: 0 <= b < 6 ==> RowsCoded(grp[b], channels, b, |channels|)
    ensures GroupsSet(channels, grp)
  {
  }

  lemma ReadyParts(t: Context)
    requires t.Ready()
    ensures TabReady(t.nexpgrptab) && BandTables(t.bandStart, t.binToBand) && Crc.TableOk(t.crcTab[..])
  {
    hide TabReady, BandTables, Crc.TableOk;
  }

  /** process_frame from the coefficients on. */
  method ProcessFrame(t: Context, inp: Input, z: Sizing, frame: array<Byte>)
      returns (channels: seq<Channel>, r: Outcome, words: nat)
    requires t.Ready() && inp.Valid() && (!inp.cfg.vbr ==> inp.cfg.Valid() && z.Right(inp.cfg.fscod))
    requires MAX_FRAME <= frame.Length && t.crcTab as object != frame && t.bandStart != frame && t.binToBand != frame
    modifies frame
    ensures AllCoded(inp, channels, |inp.coef|)
    ensures inp.cfg.Valid() && inp.codes.Valid() && ValidChannels(inp.cfg, channels) && FrameOf(inp, channels).Valid()
    ensures Rowed(inp, FrameOf(inp, channels)) && Produced(inp, channels, z, r, words, frame[..])
    ensures !r.ok ==> frame[..] == old(frame[..])
  {
    hide *;
    ReadyParts(t);
    channels := EncodeChannels(t.nexpgrptab, inp);
    ChannelsValid(inp, channels);
    var grp, expBits := GroupFrame(t.nexpgrptab, channels);
    GroupsFrom(inp.cfg, channels, grp);
    var x := ChooseAllocation(t, inp, channels, expBits, z);
    CodedRowed(inp, channels);
    words := x.words;
    var size := 0;
    if x.ok {
      size := EmitFrame(t, inp, channels, grp, x, frame, z);
    }
    r := Outcome(x.ok, size, x.quality, x.sizeCode);
    ProducedFrom(inp, channels, z, x, r, frame[..]);
  }

  /** The search passes over nothing above 1023 that fits. */
  ghost predicate InRange(inp: Input, channels: seq<Channel>, words: nat, z: Sizing)
    requires inp.cfg.Valid() && inp.codes.Valid() && ValidChannels(inp.cfg, channels) && FrameOf(inp, channels).Valid()
  {
    StaysInRange(inp.cfg, FrameOf(inp, channels), Room(inp.cfg, channels, words), StartPosition(inp, z))
  }

  /** Either search: a produced frame has a quality that the SNR codes can express exactly when the search stays in
      range, and then it decodes to what the encoder meant. */
  lemma ProducedDecodes(inp: Input, channels: seq<Channel>, z: Sizing, r: Outcome, words: nat, bytes: seq<Byte>)
    requires inp.cfg.Valid() && inp.codes.Valid() && ValidChannels(inp.cfg, channels) && FrameOf(inp, channels).Valid()
    requires Rowed(inp, FrameOf(inp, channels)) && Produced(inp, channels, z, r, words, bytes) && r.ok
    requires inp.cfg.fast ==> StartPosition(inp, z) >= 0
    ensures 0 <= r.quality <= 1023 <==> InRange(inp, channels, words, z)
    ensures 2 * words <= |bytes|
    ensures InRange(inp, channels, words, z) ==>
      Decodes(inp, FrameOf(inp, channels), r.quality, r.sizeCode, bytes[..2 * words])
  {
    hide LoadParams, FrameSizeTab, Channel.Valid, FrameIn.Valid, Rowed, Cost, Room, Decodes, Crc.IsCrc, Found,
      StaysInRange, D.SameTo;
    var f, avail := FrameOf(inp, channels), Room(inp.cfg, channels, words);
    FoundInRange(inp.cfg, f, avail, StartPosition(inp, z));
    assert Delivered(inp, f, r.quality, words, r.sizeCode, bytes[..2 * words]);
    if 0 <= r.quality <= 1023 { InCodes(f, r.quality); }
  }

  lemma InCodes(f: FrameIn, pos: int)
    requires f.Valid() && 0 <= pos <= 1023
    ensures D.SameTo(f, pos, 6)
  {
    D.CodedPosIs(pos);
    hide FrameIn.Valid, BlockRows, D.CodedPos;
  }

  /** A frame is produced exactly when some position fits, and then with the best position that fits. */
  ghost predicate Best(inp: Input, channels: seq<Channel>, words: nat, r: Outcome)
    requires inp.cfg.Valid() && inp.codes.Valid() && ValidChannels(inp.cfg, channels) && FrameOf(inp, channels).Valid()
  {
    (r.ok <==> exists s :: 0 <= s <= 1023 && Fits(inp, channels, words, s)) &&
    (r.ok ==> 0 <= r.quality <= 1023 && Fits(inp, channels, words, r.quality) &&
              forall s :: r.quality < s <= 1023 ==> !Fits(inp, channels, words, s))
  }

  /** The accurate search, from every start: the frame is the best one exactly when its jumps let the search reach the
      optimum; jumps that stay in 0..1023 do. */
  lemma BestFrame(inp: Input, channels: seq<Channel>, z: Sizing, r: Outcome, words: nat, bytes: seq<Byte>)
    requires inp.cfg.Valid() && inp.codes.Valid() && ValidChannels(inp.cfg, channels) && FrameOf(inp, channels).Valid()
    requires Rowed(inp, FrameOf(inp, channels)) && Produced(inp, channels, z, r, words, bytes) && !inp.cfg.fast
    ensures var f, avail, nch := FrameOf(inp, channels), Room(inp.cfg, channels, words), inp.cfg.Channels();
      (Best(inp, channels, words, r) <==> Search.Reaches(f, avail, nch, StartPosition(inp, z))) &&
      (0 <= Search.Jumps(f, avail, nch, StartPosition(inp, z)) <= 1023 ==> Best(inp, channels, words, r))
  {
    hide LoadParams, FrameSizeTab, Channel.Valid, FrameIn.Valid, Rowed, Cost, Room, Delivered, Search.Jumps,
      Search.Accurate, Search.Reaches;
    var f, avail, start := FrameOf(inp, channels), Room(inp.cfg, channels, words), StartPosition(inp, z);
    Search.AccurateExactly(f, avail, inp.cfg.Channels(), start);
    var pos := Search.Accurate(f, avail, inp.cfg.Channels(), start);
    assert Position(inp, channels, words, z) == pos;
    forall s
      ensures Fits(inp, channels, words, s) <==> Search.Fits(f, avail, s)
    {
    }
    if 0 <= Search.Jumps(f, avail, inp.cfg.Channels(), start) <= 1023 {
      Search.AccurateIsOptimal(f, avail, inp.cfg.Channels(), start);
    }
  }

  lemma {:induction false} BinsAtMost(channels: seq<Channel>, n: nat)
    requires forall ch :: 0 <= ch < |channels| ==> channels[ch].ncoefs <= if ch < n then 253 else 7
    ensures |channels| <= n ==> Jump.Bins(channels) <= 253 * |channels|
    ensures |channels| == n + 1 ==> Jump.Bins(channels) <= 253 * n + 7
  {
    if channels != [] { BinsAtMost(channels[..|channels| - 1], n); }
  }

  lemma CodedSized(inp: Input, channels: seq<Channel>)
    requires inp.Valid() && AllCoded(inp, channels, |inp.coef|) && inp.cfg.Valid() && inp.codes.Valid()
    ensures Jump.Sized(FrameOf(inp, channels), inp.cfg.Channels())
  {
    hide Exponent.FinalRow, LoadParams, SmallRows, Jump.Bins, D.MetaFits;
    forall ch | 0 <= ch < |channels|
      ensures channels[ch].ncoefs <= if ch < inp.cfg.Channels() then 253 else 7
    {
      OneCoded(inp, channels, ch);
      InputChannel(inp, ch);
    }
    BinsAtMost(channels, inp.cfg.Channels());
  }

  /** The accurate search, by what is known before it: from a start that the jumps do not lead astray from, the frame
      is the best one, and what is produced decodes. */
  lemma BestFromStart(inp: Input, channels: seq<Channel>, z: Sizing, r: Outcome, words: nat, bytes: seq<Byte>)
    requires inp.Valid() && AllCoded(inp, channels, |inp.coef|)
    requires inp.cfg.Valid() && inp.codes.Valid() && ValidChannels(inp.cfg, channels) && FrameOf(inp, channels).Valid()
    requires Rowed(inp, FrameOf(inp, channels)) && Produced(inp, channels, z, r, words, bytes) && !inp.cfg.fast
    requires var f, avail, start := FrameOf(inp, channels), Room(inp.cfg, channels, words), StartPosition(inp, z);
      Jump.StartsWell(start, avail - Cost(f, start), avail, inp.cfg.Channels())
    ensures Best(inp, channels, words, r)
    ensures r.ok ==> 2 * words <= |bytes| &&
                     Decodes(inp, FrameOf(inp, channels), r.quality, r.sizeCode, bytes[..2 * words])
  {
    hide LoadParams, FrameSizeTab, Channel.Valid, FrameIn.Valid, Rowed, Cost, Room, Decodes, Search.Jumps, Produced,
      Search.Accurate, Jump.StartsWell, Jump.Sized, FrameOf, Input.Valid, AllCoded, StartPosition, StaysInRange, Fits,
      Search.JumpLands, Config.Valid;
    CodedSized(inp, channels);
    var f, avail := FrameOf(inp, channels), Room(inp.cfg, channels, words);
    Jump.AccurateFinds(f, avail, inp.cfg.Channels(), StartPosition(inp, z));
    BestFrame(inp, channels, z, r, words, bytes);
    if r.ok { ProducedDecodes(inp, channels, z, r, words, bytes); BestInRange(inp, channels, words, r); }
  }

  lemma BestInRange(inp: Input, channels: seq<Channel>, words: nat, r: Outcome)
    requires inp.cfg.Valid() && inp.codes.Valid() && ValidChannels(inp.cfg, channels) && FrameOf(inp, channels).Valid()
    requires Best(inp, channels, words, r) && r.ok
    ensures 0 <= r.quality <= 1023
  {
    hide Fits, Channel.Valid, FrameIn.Valid;
  }
}
