/** The fields of a frame in transmission order (a52enc.c:653-970), and their total size. */
module FrameSyntax {
  import opened BitStrings
  import opened Tables
  import opened MantissaCost
  import opened Allocation
  import opened BitAlloc
  import opened Mantissa
  import Exponent

  /** One call of bitwriter_writebits. */
  datatype Field = Field(bits: nat, val: nat)

  function Emit(fs: seq<Field>): seq<bool>
  {
    if fs == [] then [] else Emit(fs[..|fs| - 1]) + Bits(fs[|fs| - 1].val, fs[|fs| - 1].bits)
  }

  function Total(fs: seq<Field>): nat
  {
    if fs == [] then 0 else Total(fs[..|fs| - 1]) + fs[|fs| - 1].bits
  }

  lemma EmitPush(fs: seq<Field>, x: Field)
    ensures Emit(fs + [x]) == Emit(fs) + Bits(x.val, x.bits) && Total(fs + [x]) == Total(fs) + x.bits
  {
    assert (fs + [x])[..|fs|] == fs;
  }

  lemma {:induction false} EmitTotal(fs: seq<Field>)
    ensures |Emit(fs)| == Total(fs)
  {
    if fs != [] { EmitTotal(fs[..|fs| - 1]); }
  }

  lemma {:induction false} EmitConcat(a: seq<Field>, b: seq<Field>)
    ensures Emit(a + b) == Emit(a) + Emit(b) && Total(a + b) == Total(a) + Total(b)
    decreases |b|
  {
    if b == [] {
      assert a + b == a;
    } else {
      var n := |b| - 1;
      assert a + b == (a + b[..n]) + [b[n]] && b == b[..n] + [b[n]];
      EmitConcat(a, b[..n]);
      EmitPush(a + b[..n], b[n]);
      EmitPush(b[..n], b[n]);
      hide Emit, Total;
    }
  }

  /** The same width for every value. */
  function Each(bits: nat, vals: seq<nat>): (r: seq<Field>)
    ensures |r| == |vals|
  {
    seq(|vals|, i requires 0 <= i < |vals| => Field(bits, vals[i]))
  }

  lemma {:induction false} TotalEach(bits: nat, vals: seq<nat>)
    ensures Total(Each(bits, vals)) == bits * |vals|
  {
    if vals != [] {
      var n := |vals| - 1;
      assert Each(bits, vals)[..n] == Each(bits, vals[..n]);
      TotalEach(bits, vals[..n]);
      assert bits * |vals| == bits * n + bits;
    }
  }

  /** Metadata that only the header carries. */
  datatype Meta = Meta(bsmod: nat, cmixlev: nat, surmixlev: nat, dsurmod: nat, dialnorm: nat, dmixmod: nat,
                       ltrtcmixlev: nat, ltrtsmixlev: nat, lorocmixlev: nat, lorosmixlev: nat, dsurexmod: nat,
                       dheadphonmod: nat, adconvtyp: nat)

  /** Everything output_frame_header and output_audio_blocks read, except pointers and mantissa words. */
  datatype Side = Side(cfg: Config, meta: Meta, codes: ParamCodes, sizeCode: nat, bwcode: nat, rematflg: seq<nat>,
                       channels: seq<Channel>, blksw: seq<seq<nat>>, dithflag: seq<seq<nat>>, dynrng: seq<nat>,
                       grp: seq<seq<seq<nat>>>, writeSnr: seq<bool>, fgaincod: seq<seq<nat>>, csnroffst: nat,
                       fsnroffst: nat)
  {
    ghost predicate Valid()
    {
      cfg.Valid() && ValidChannels(cfg, channels) && |rematflg| == 4 && |blksw| == 6 && |dithflag| == 6 &&
      |dynrng| == 6 && |grp| == 6 && |writeSnr| == 6 && |fgaincod| == 6 &&
      forall b :: 0 <= b < 6 ==> ValidBlock(b)
    }

    ghost predicate ValidBlock(b: nat)
      requires ValidChannels(cfg, channels) && b < 6
      requires |blksw| == 6 && |dithflag| == 6 && |grp| == 6 && |fgaincod| == 6
    {
      |blksw[b]| == cfg.Channels() && |dithflag[b]| == cfg.Channels() && |fgaincod[b]| == |channels| &&
      |grp[b]| == |channels| && forall ch :: 0 <= ch < |channels| ==> |grp[b][ch]| > Groups(channels[ch], b)
    }

    /** Flags and gain codes are those start_bit_allocation sets. */
    ghost predicate GainsRight()
      requires Valid()
    {
      (forall b :: 0 <= b < 6 ==> writeSnr[b] == WriteSnr(channels, b)) &&
      forall b, ch :: 0 <= b < 6 && 0 <= ch < |channels| ==>
        (assert ValidBlock(b); fgaincod[b][ch] == FgainCod(channels[ch], b))
    }
  }

  /** nexpgrps: the exponent groups block b transmits for a channel. */
  function Groups(c: Channel, b: nat): nat
    requires c.Valid() && b < 6
  {
    if c.strategy[b] == Exponent.REUSE then 0 else Exponent.NumGroups(c.strategy[b], c.ncoefs)
  }

  /** A block's group codes for a channel are those group_exponents makes of decodable exponents. */
  ghost predicate CodesFor(row: seq<nat>, c: Channel, b: nat)
    requires c.Valid() && b < 6
  {
    |row| > Groups(c, b) &&
    (NewExponents(c, b) ==>
       (var g, m := Exponent.GroupSize(c.strategy[b]), Groups(c, b);
        Exponent.GroupsFit(c.strategy[b], c.ncoefs, g, m);
        Exponent.Decodable(c.exp[b], g, 3 * m) && row[0] == c.exp[b][0] &&
        forall i :: 1 <= i <= m ==> row[i] == Exponent.CodeAt(Exponent.PerGroup(c.exp[b], g, 3 * m), i) <= 124))
  }

  /** bsid: reduced rates, else the alternate syntax when extra information is present. */
  function Bsid(cfg: Config): nat
  {
    if cfg.halfratecod > 0 then 8 + cfg.halfratecod else if cfg.xbsi1e || cfg.xbsi2e then 6 else 8
  }

  function If(c: bool, fs: seq<Field>): seq<Field> { if c then fs else [] }

  // ---------- header ----------

  function HeaderStart(s: Side): seq<Field>
  {
    [Field(16, 0x0B77), Field(16, 0), Field(2, s.cfg.fscod), Field(6, s.sizeCode), Field(5, Bsid(s.cfg)),
     Field(3, s.meta.bsmod), Field(3, s.cfg.acmod)]
  }

  function HeaderMix(s: Side): seq<Field>
  {
    If(s.cfg.acmod % 2 == 1 && s.cfg.acmod != 1, [Field(2, s.meta.cmixlev)]) +
    If(s.cfg.acmod >= 4, [Field(2, s.meta.surmixlev)]) +
    If(s.cfg.acmod == 2, [Field(2, s.meta.dsurmod)])
  }

  function HeaderProgram(s: Side): seq<Field>
  {
    [Field(1, B2N(s.cfg.lfe)), Field(5, s.meta.dialnorm), Field(1, 0), Field(1, 0), Field(1, 0)] +
    If(s.cfg.acmod == 0, [Field(5, s.meta.dialnorm), Field(1, 0), Field(1, 0), Field(1, 0)]) +
    [Field(1, 0), Field(1, 1)]
  }

  function HeaderExtra1(s: Side): seq<Field>
  {
    [Field(1, B2N(s.cfg.xbsi1e))] +
    If(s.cfg.xbsi1e, [Field(2, s.meta.dmixmod), Field(3, s.meta.ltrtcmixlev), Field(3, s.meta.ltrtsmixlev),
                      Field(3, s.meta.lorocmixlev), Field(3, s.meta.lorosmixlev)])
  }

  function HeaderExtra2(s: Side): seq<Field>
  {
    [Field(1, B2N(s.cfg.xbsi2e))] +
    If(s.cfg.xbsi2e, [Field(2, s.meta.dsurexmod), Field(2, s.meta.dheadphonmod), Field(1, s.meta.adconvtyp),
                      Field(9, 0)])
  }

  function HeaderExtra(s: Side): seq<Field>
  {
    (if Bsid(s.cfg) == 6 then HeaderExtra1(s) + HeaderExtra2(s) else [Field(1, 0), Field(1, 0)]) + [Field(1, 0)]
  }

  function Header(s: Side): seq<Field>
  {
    HeaderStart(s) + HeaderMix(s) + HeaderProgram(s) + HeaderExtra(s)
  }

  // ---------- audio blocks ----------

  function Switches(s: Side, b: nat): seq<Field>
    requires b < |s.blksw| && b < |s.dithflag|
  {
    Each(1, s.blksw[b]) + Each(1, s.dithflag[b])
  }

  function Dynamics(s: Side, b: nat): seq<Field>
    requires b < |s.dynrng|
  {
    if s.cfg.dynrng then
      [Field(1, 1), Field(8, s.dynrng[b])] + If(s.cfg.acmod == 0, [Field(1, 1), Field(8, s.dynrng[b])])
    else [Field(1, 0)] + If(s.cfg.acmod == 0, [Field(1, 0)])
  }

  function Coupling(b: nat): seq<Field>
  {
    if b == 0 then [Field(1, 1), Field(1, 0)] else [Field(1, 0)]
  }

  function Rematrixing(s: Side, b: nat): seq<Field>
  {
    if s.cfg.acmod == 2 then [Field(1, B2N(b == 0))] + If(b == 0, Each(1, s.rematflg)) else []
  }

  function StrategyOf(channels: seq<Channel>, b: nat, n: nat): (r: seq<nat>)
    requires n <= |channels| && forall c :: 0 <= c < n ==> b < |channels[c].strategy|
    ensures |r| == n
  {
    seq(n, c requires 0 <= c < n => channels[c].strategy[b])
  }

  function Strategies(s: Side, b: nat): seq<Field>
    requires s.cfg.acmod < 8 && |s.channels| == s.cfg.AllChannels()
    requires forall c :: 0 <= c < |s.channels| ==> b < |s.channels[c].strategy|
  {
    Each(2, StrategyOf(s.channels, b, s.cfg.Channels())) +
    If(s.cfg.lfe, [Field(1, if s.cfg.lfe then s.channels[s.cfg.Channels()].strategy[b] else 0)])
  }

  /** chbwcod of the first n channels. */
  function Bandwidths(s: Side, b: nat, n: nat): seq<Field>
    requires n <= |s.channels| && forall c :: 0 <= c < n ==> b < |s.channels[c].strategy|
  {
    if n == 0 then []
    else Bandwidths(s, b, n - 1) + If(NewExponents(s.channels[n - 1], b), [Field(6, s.bwcode)])
  }

  /** Exponents one channel transmits in a block: the first one, the groups, and the gain range of full channels. */
  ghost function ChannelExponents(s: Side, b: nat, ch: nat): seq<Field>
    requires s.Valid() && b < 6 && ch < |s.channels|
  {
    assert s.ValidBlock(b);
    if NewExponents(s.channels[ch], b) then
      [Field(4, s.grp[b][ch][0])] + Each(7, s.grp[b][ch][1..Groups(s.channels[ch], b) + 1]) +
      If(ch < s.cfg.Channels(), [Field(2, 0)])
    else []
  }

  ghost function Exponents(s: Side, b: nat, n: nat): seq<Field>
    requires s.Valid() && b < 6 && n <= |s.channels|
  {
    if n == 0 then [] else Exponents(s, b, n - 1) + ChannelExponents(s, b, n - 1)
  }

  function Parameters(s: Side, b: nat): seq<Field>
  {
    [Field(1, B2N(b == 0))] +
    If(b == 0, [Field(2, s.codes.sdecaycod), Field(2, s.codes.fdecaycod), Field(2, s.codes.sgaincod),
                Field(2, s.codes.dbkneecod), Field(3, s.codes.floorcod)])
  }

  function Offsets(s: Side, b: nat, n: nat): seq<Field>
    requires b < |s.fgaincod| && n <= |s.fgaincod[b]|
  {
    if n == 0 then [] else Offsets(s, b, n - 1) + [Field(4, s.fsnroffst), Field(3, s.fgaincod[b][n - 1])]
  }

  function Snr(s: Side, b: nat): seq<Field>
    requires b < |s.writeSnr| && b < |s.fgaincod|
  {
    [Field(1, B2N(s.writeSnr[b]))] +
    If(s.writeSnr[b], [Field(6, s.csnroffst)] + Offsets(s, b, |s.fgaincod[b]|))
  }

  /** A block up to its exponents ... */
  ghost function BlockStart(s: Side, b: nat): seq<Field>
    requires s.Valid() && b < 6
  {
    Switches(s, b) + Dynamics(s, b) + Coupling(b) + Rematrixing(s, b) + Strategies(s, b) +
    Bandwidths(s, b, s.cfg.Channels())
  }

  /** ... and up to its mantissas. */
  ghost function BlockSide(s: Side, b: nat): seq<Field>
    requires s.Valid() && b < 6
  {
    BlockStart(s, b) + Exponents(s, b, |s.channels|) + Parameters(s, b) + Snr(s, b) + [Field(1, 0), Field(1, 0)]
  }

  /** The write for one mantissa word. */
  function MantissaField(b: nat, q: nat): seq<Field>
  {
    if Grouped(b) then (if q != 128 then [Field(CodeBits(b), q)] else [])
    else if b == 0 then [] else [Field(Width(b), q)]
  }

  function RowMantissas(bap: seq<Byte>, q: seq<Half>, n: nat): seq<Field>
    requires n <= |bap| && n <= |q|
  {
    if n == 0 then [] else RowMantissas(bap, q, n - 1) + MantissaField(bap[n - 1], q[n - 1])
  }

  /** Pointers and words of one block, channel by channel. */
  ghost predicate ValidWords(bap: seq<seq<Byte>>, q: seq<seq<Half>>, channels: seq<Channel>)
  {
    |bap| == |q| == |channels| &&
    forall ch :: 0 <= ch < |channels| ==> |bap[ch]| == |q[ch]| == 256 && channels[ch].ncoefs <= 256
  }

  ghost function Mantissas(bap: seq<seq<Byte>>, q: seq<seq<Half>>, channels: seq<Channel>, n: nat): seq<Field>
    requires ValidWords(bap, q, channels) && n <= |channels|
  {
    if n == 0 then []
    else Mantissas(bap, q, channels, n - 1) + RowMantissas(bap[n - 1], q[n - 1], channels[n - 1].ncoefs)
  }

  // ---------- sizes ----------

  function ChannelExponentBits(c: Channel, b: nat): nat
    requires c.Valid() && b < 6
  {
    if NewExponents(c, b) then 4 + 7 * Groups(c, b) else 0
  }

  /** Exponent bits of the first n channels of block b, as group_exponents counts them. */
  ghost function ExponentBits(channels: seq<Channel>, b: nat, n: nat): nat
    requires b < 6 && n <= |channels| && forall ch :: 0 <= ch < |channels| ==> channels[ch].Valid()
  {
    if n == 0 then 0 else ExponentBits(channels, b, n - 1) + ChannelExponentBits(channels[n - 1], b)
  }

  lemma Total1(a: Field)
    ensures Total([a]) == a.bits && Total([]) == 0
  {
    EmitPush([], a);
    assert [] + [a] == [a];
  }

  lemma Total2(a: Field, b: Field)
    ensures Total([a, b]) == a.bits + b.bits
  {
    Total1(a);
    hide Total;
    EmitPush([a], b);
    assert [a] + [b] == [a, b];
  }

  lemma Total3(a: Field, b: Field, c: Field)
    ensures Total([a, b, c]) == a.bits + b.bits + c.bits
  {
    Total2(a, b);
    hide Total;
    EmitPush([a, b], c);
    assert [a, b] + [c] == [a, b, c];
  }

  lemma Total4(a: Field, b: Field, c: Field, d: Field)
    ensures Total([a, b, c, d]) == a.bits + b.bits + c.bits + d.bits
  {
    Total3(a, b, c);
    hide Total;
    EmitPush([a, b, c], d);
    assert [a, b, c] + [d] == [a, b, c, d];
  }

  lemma Total5(a: Field, b: Field, c: Field, d: Field, e: Field)
    ensures Total([a, b, c, d, e]) == a.bits + b.bits + c.bits + d.bits + e.bits
  {
    Total4(a, b, c, d);
    hide Total;
    EmitPush([a, b, c, d], e);
    assert [a, b, c, d] + [e] == [a, b, c, d, e];
  }

  lemma Total7(a: Field, b: Field, c: Field, d: Field, e: Field, f: Field, g: Field)
    ensures Total([a, b, c, d, e, f, g]) == a.bits + b.bits + c.bits + d.bits + e.bits + f.bits + g.bits
  {
    Total5(a, b, c, d, e);
    Total2(f, g);
    hide Total;
    EmitConcat([a, b, c, d, e], [f, g]);
    assert [a, b, c, d, e] + [f, g] == [a, b, c, d, e, f, g];
  }

  lemma Parts(a: seq<Field>, b: seq<Field>, c: seq<Field>, d: seq<Field>, e: seq<Field>)
    ensures Total(a + b + c + d + e) == Total(a) + Total(b) + Total(c) + Total(d) + Total(e)
  {
    hide Total;
    EmitConcat(a, b);
    EmitConcat(a + b, c);
    EmitConcat(a + b + c, d);
    EmitConcat(a + b + c + d, e);
  }

  // ---------- the header is 65 bits plus what frame_bits_inc says, plus the extra information ----------

  lemma HeaderMixTotal(s: Side)
    requires s.cfg.Valid()
    ensures Total(HeaderMix(s)) + (if s.cfg.acmod == 0 then 8 else 0) == HeaderInc(s.cfg.acmod)
  {
    Total1(Field(2, s.meta.cmixlev));
    Total1(Field(2, s.meta.surmixlev));
    Total1(Field(2, s.meta.dsurmod));
    hide Total;
    var a := If(s.cfg.acmod % 2 == 1 && s.cfg.acmod != 1, [Field(2, s.meta.cmixlev)]);
    var b := If(s.cfg.acmod >= 4, [Field(2, s.meta.surmixlev)]);
    var c := If(s.cfg.acmod == 2, [Field(2, s.meta.dsurmod)]);
    EmitConcat(a, b);
    EmitConcat(a + b, c);
  }

  lemma HeaderProgramTotal(s: Side)
    ensures Total(HeaderProgram(s)) == 11 + (if s.cfg.acmod == 0 then 8 else 0)
  {
    Total5(Field(1, B2N(s.cfg.lfe)), Field(5, s.meta.dialnorm), Field(1, 0), Field(1, 0), Field(1, 0));
    Total4(Field(5, s.meta.dialnorm), Field(1, 0), Field(1, 0), Field(1, 0));
    Total2(Field(1, 0), Field(1, 1));
    Total1(Field(1, 0));
    hide Total;
    var a := [Field(1, B2N(s.cfg.lfe)), Field(5, s.meta.dialnorm), Field(1, 0), Field(1, 0), Field(1, 0)];
    var b := If(s.cfg.acmod == 0, [Field(5, s.meta.dialnorm), Field(1, 0), Field(1, 0), Field(1, 0)]);
    EmitConcat(a, b);
    EmitConcat(a + b, [Field(1, 0), Field(1, 1)]);
  }

  lemma HeaderExtra1Total(s: Side)
    ensures Total(HeaderExtra1(s)) == 1 + 14 * B2N(s.cfg.xbsi1e)
  {
    Total1(Field(1, B2N(s.cfg.xbsi1e)));
    Total5(Field(2, s.meta.dmixmod), Field(3, s.meta.ltrtcmixlev), Field(3, s.meta.ltrtsmixlev),
           Field(3, s.meta.lorocmixlev), Field(3, s.meta.lorosmixlev));
    hide Total;
    EmitConcat([Field(1, B2N(s.cfg.xbsi1e))],
      If(s.cfg.xbsi1e, [Field(2, s.meta.dmixmod), Field(3, s.meta.ltrtcmixlev), Field(3, s.meta.ltrtsmixlev),
                        Field(3, s.meta.lorocmixlev), Field(3, s.meta.lorosmixlev)]));
  }

  lemma HeaderExtra2Total(s: Side)
    ensures Total(HeaderExtra2(s)) == 1 + 14 * B2N(s.cfg.xbsi2e)
  {
    Total1(Field(1, B2N(s.cfg.xbsi2e)));
    Total4(Field(2, s.meta.dsurexmod), Field(2, s.meta.dheadphonmod), Field(1, s.meta.adconvtyp), Field(9, 0));
    hide Total;
    EmitConcat([Field(1, B2N(s.cfg.xbsi2e))],
      If(s.cfg.xbsi2e, [Field(2, s.meta.dsurexmod), Field(2, s.meta.dheadphonmod), Field(1, s.meta.adconvtyp),
                        Field(9, 0)]));
  }

  /** Extra information the frame size accounts for but a reduced-rate header does not carry. */
  function Unsent(cfg: Config): nat
  {
    if Bsid(cfg) == 6 then 0 else 14 * B2N(cfg.xbsi1e) + 14 * B2N(cfg.xbsi2e)
  }

  lemma HeaderExtraTotal(s: Side)
    ensures Total(HeaderExtra(s)) + Unsent(s.cfg) == 3 + 14 * B2N(s.cfg.xbsi1e) + 14 * B2N(s.cfg.xbsi2e)
  {
    HeaderExtra1Total(s);
    HeaderExtra2Total(s);
    Total1(Field(1, 0));
    Total2(Field(1, 0), Field(1, 0));
    hide Total, HeaderExtra1, HeaderExtra2;
    EmitConcat(HeaderExtra1(s), HeaderExtra2(s));
    EmitConcat(if Bsid(s.cfg) == 6 then HeaderExtra1(s) + HeaderExtra2(s) else [Field(1, 0), Field(1, 0)],
      [Field(1, 0)]);
  }

  lemma HeaderTotal(s: Side)
    requires s.cfg.Valid()
    ensures Total(Header(s)) + Unsent(s.cfg) ==
      65 + HeaderInc(s.cfg.acmod) + 14 * B2N(s.cfg.xbsi1e) + 14 * B2N(s.cfg.xbsi2e)
  {
    Total7(Field(16, 0x0B77), Field(16, 0), Field(2, s.cfg.fscod), Field(6, s.sizeCode), Field(5, Bsid(s.cfg)),
           Field(3, s.meta.bsmod), Field(3, s.cfg.acmod));
    HeaderMixTotal(s);
    HeaderProgramTotal(s);
    HeaderExtraTotal(s);
    hide Total, HeaderMix, HeaderProgram, HeaderExtra, Unsent, HeaderInc;
    EmitConcat(HeaderStart(s), HeaderMix(s));
    EmitConcat(HeaderStart(s) + HeaderMix(s), HeaderProgram(s));
    EmitConcat(HeaderStart(s) + HeaderMix(s) + HeaderProgram(s), HeaderExtra(s));
  }

  // ---------- blocks ----------

  lemma SwitchesTotal(s: Side, b: nat)
    requires s.Valid() && b < 6
    ensures Total(Switches(s, b)) == 2 * s.cfg.Channels()
  {
    assert s.ValidBlock(b);
    TotalEach(1, s.blksw[b]);
    TotalEach(1, s.dithflag[b]);
    hide Total;
    EmitConcat(Each(1, s.blksw[b]), Each(1, s.dithflag[b]));
  }

  lemma DynamicsTotal(s: Side, b: nat)
    requires s.Valid() && b < 6
    ensures Total(Dynamics(s, b)) ==
      1 + B2N(s.cfg.acmod == 0) + (if s.cfg.dynrng then 8 + 8 * B2N(s.cfg.acmod == 0) else 0)
  {
    Total1(Field(1, 0));
    Total2(Field(1, 1), Field(8, s.dynrng[b]));
    hide Total;
    EmitConcat([Field(1, 1), Field(8, s.dynrng[b])], If(s.cfg.acmod == 0, [Field(1, 1), Field(8, s.dynrng[b])]));
    EmitConcat([Field(1, 0)], If(s.cfg.acmod == 0, [Field(1, 0)]));
  }

  lemma CouplingTotal(b: nat)
    ensures Total(Coupling(b)) == 1 + B2N(b == 0)
  {
    Total1(Field(1, 0));
    Total2(Field(1, 1), Field(1, 0));
  }

  lemma RematrixingTotal(s: Side, b: nat)
    requires s.Valid() && b < 6
    ensures Total(Rematrixing(s, b)) == if s.cfg.acmod == 2 then 1 + 4 * B2N(b == 0) else 0
  {
    Total1(Field(1, B2N(b == 0)));
    TotalEach(1, s.rematflg);
    hide Total;
    EmitConcat([Field(1, B2N(b == 0))], If(b == 0, Each(1, s.rematflg)));
  }

  lemma StrategiesTotal(s: Side, b: nat)
    requires s.Valid() && b < 6
    ensures Total(Strategies(s, b)) == 2 * s.cfg.Channels() + B2N(s.cfg.lfe)
  {
    var lfe := Field(1, if s.cfg.lfe then s.channels[s.cfg.Channels()].strategy[b] else 0);
    Total1(lfe);
    TotalEach(2, StrategyOf(s.channels, b, s.cfg.Channels()));
    hide Total;
    EmitConcat(Each(2, StrategyOf(s.channels, b, s.cfg.Channels())), If(s.cfg.lfe, [lfe]));
  }

  lemma {:induction false} BandwidthsTotal(s: Side, b: nat, n: nat)
    requires s.Valid() && b < 6 && n <= |s.channels|
    ensures Total(Bandwidths(s, b, n)) == 6 * NewCount(s.channels, b, n)
  {
    Total1(Field(6, s.bwcode));
    if n > 0 {
      BandwidthsTotal(s, b, n - 1);
      hide Total;
      EmitConcat(Bandwidths(s, b, n - 1), If(NewExponents(s.channels[n - 1], b), [Field(6, s.bwcode)]));
    }
  }

  lemma ChannelExponentsTotal(s: Side, b: nat, ch: nat)
    requires s.Valid() && b < 6 && ch < |s.channels|
    ensures Total(ChannelExponents(s, b, ch)) ==
      ChannelExponentBits(s.channels[ch], b) + 2 * B2N(ch < s.cfg.Channels() && NewExponents(s.channels[ch], b))
  {
    assert s.ValidBlock(b);
    var groups := s.grp[b][ch][1..Groups(s.channels[ch], b) + 1];
    var first := Field(4, s.grp[b][ch][0]);
    Total1(first);
    Total1(Field(2, 0));
    TotalEach(7, groups);
    hide Total;
    EmitConcat([first], Each(7, groups));
    EmitConcat([first] + Each(7, groups), If(ch < s.cfg.Channels(), [Field(2, 0)]));
  }

  /** One channel more in the running sums. */
  lemma ExponentsStep(s: Side, b: nat, n: nat)
    requires s.Valid() && b < 6 && n < |s.channels|
    ensures Exponents(s, b, n + 1) == Exponents(s, b, n) + ChannelExponents(s, b, n)
    ensures ExponentBits(s.channels, b, n + 1) ==
      ExponentBits(s.channels, b, n) + ChannelExponentBits(s.channels[n], b)
    ensures NewCount(s.channels, b, Min(n + 1, s.cfg.Channels())) ==
      NewCount(s.channels, b, Min(n, s.cfg.Channels())) + B2N(n < s.cfg.Channels() && NewExponents(s.channels[n], b))
  {
    hide ChannelExponents, ChannelExponentBits;
  }

  lemma NoExponentsTotal(s: Side, b: nat)
    requires s.Valid() && b < 6
    ensures Total(Exponents(s, b, 0)) ==
      ExponentBits(s.channels, b, 0) + 2 * NewCount(s.channels, b, Min(0, s.cfg.Channels()))
  {
  }

  lemma {:induction false} ExponentsTotal(s: Side, b: nat, n: nat)
    requires s.Valid() && b < 6 && n <= |s.channels|
    ensures Total(Exponents(s, b, n)) ==
      ExponentBits(s.channels, b, n) + 2 * NewCount(s.channels, b, Min(n, s.cfg.Channels()))
  {
    hide *;
    if n == 0 {
      NoExponentsTotal(s, b);
    } else {
      ExponentsTotal(s, b, n - 1);
      ChannelExponentsTotal(s, b, n - 1);
      ExponentsStep(s, b, n - 1);
      EmitConcat(Exponents(s, b, n - 1), ChannelExponents(s, b, n - 1));
    }
  }

  lemma ParametersTotal(s: Side, b: nat)
    ensures Total(Parameters(s, b)) == 1 + 11 * B2N(b == 0)
  {
    Total1(Field(1, B2N(b == 0)));
    Total5(Field(2, s.codes.sdecaycod), Field(2, s.codes.fdecaycod), Field(2, s.codes.sgaincod),
           Field(2, s.codes.dbkneecod), Field(3, s.codes.floorcod));
    hide Total;
    EmitConcat([Field(1, B2N(b == 0))],
      If(b == 0, [Field(2, s.codes.sdecaycod), Field(2, s.codes.fdecaycod), Field(2, s.codes.sgaincod),
                  Field(2, s.codes.dbkneecod), Field(3, s.codes.floorcod)]));
  }

  lemma {:induction false} OffsetsTotal(s: Side, b: nat, n: nat)
    requires b < |s.fgaincod| && n <= |s.fgaincod[b]|
    ensures Total(Offsets(s, b, n)) == 7 * n
  {
    if n > 0 {
      OffsetsTotal(s, b, n - 1);
      Total2(Field(4, s.fsnroffst), Field(3, s.fgaincod[b][n - 1]));
      hide Total;
      EmitConcat(Offsets(s, b, n - 1), [Field(4, s.fsnroffst), Field(3, s.fgaincod[b][n - 1])]);
    }
  }

  lemma SnrTotal(s: Side, b: nat)
    requires s.Valid() && b < 6
    ensures Total(Snr(s, b)) == 1 + (if s.writeSnr[b] then 6 + 7 * s.cfg.AllChannels() else 0)
  {
    assert s.ValidBlock(b);
    Total1(Field(1, B2N(s.writeSnr[b])));
    Total1(Field(6, s.csnroffst));
    OffsetsTotal(s, b, |s.fgaincod[b]|);
    hide Total, Offsets;
    EmitConcat([Field(6, s.csnroffst)], Offsets(s, b, |s.fgaincod[b]|));
    EmitConcat([Field(1, B2N(s.writeSnr[b]))],
      If(s.writeSnr[b], [Field(6, s.csnroffst)] + Offsets(s, b, |s.fgaincod[b]|)));
  }

  lemma BlockStartTotal(s: Side, b: nat)
    requires s.Valid() && b < 6
    ensures Total(BlockStart(s, b)) == StartBits(s.cfg, b) + 6 * NewCount(s.channels, b, s.cfg.Channels())
  {
    SwitchesTotal(s, b);
    DynamicsTotal(s, b);
    CouplingTotal(b);
    RematrixingTotal(s, b);
    StrategiesTotal(s, b);
    BandwidthsTotal(s, b, s.cfg.Channels());
    Parts(Switches(s, b), Dynamics(s, b), Coupling(b), Rematrixing(s, b), Strategies(s, b));
    EmitConcat(Switches(s, b) + Dynamics(s, b) + Coupling(b) + Rematrixing(s, b) + Strategies(s, b),
               Bandwidths(s, b, s.cfg.Channels()));
    hide Total, Switches, Dynamics, Coupling, Rematrixing, Strategies, Bandwidths, NewCount, Side.Valid,
      Config.Channels;
  }

  /** The side information of a block is as large as count_frame_bits and group_exponents say. */
  lemma BlockSideTotal(s: Side, b: nat)
    requires s.Valid() && s.GainsRight() && b < 6
    ensures Total(BlockSide(s, b)) == SideBits(s.cfg, s.channels, b) + ExponentBits(s.channels, b, |s.channels|)
  {
    BlockStartTotal(s, b);
    ExponentsTotal(s, b, |s.channels|);
    ParametersTotal(s, b);
    SnrTotal(s, b);
    Total2(Field(1, 0), Field(1, 0));
    assert Min(|s.channels|, s.cfg.Channels()) == s.cfg.Channels();
    assert s.writeSnr[b] == WriteSnr(s.channels, b);
    Parts(BlockStart(s, b), Exponents(s, b, |s.channels|), Parameters(s, b), Snr(s, b), [Field(1, 0), Field(1, 0)]);
    BlockSideIs(s, b);
    hide *;
    SideBitsAre(s.cfg, s.channels, b);
  }

  lemma SideBitsAre(cfg: Config, channels: seq<Channel>, b: nat)
    requires b < 6 && ValidChannels(cfg, channels)
    ensures SideBits(cfg, channels, b) ==
      StartBits(cfg, b) + 8 * NewCount(channels, b, cfg.Channels()) + (1 + 11 * B2N(b == 0)) +
      (1 + (if WriteSnr(channels, b) then 6 + 7 * cfg.AllChannels() else 0)) + 2
  {
  }

  lemma BlockSideIs(s: Side, b: nat)
    requires s.Valid() && b < 6
    ensures BlockSide(s, b) ==
      BlockStart(s, b) + Exponents(s, b, |s.channels|) + Parameters(s, b) + Snr(s, b) + [Field(1, 0), Field(1, 0)]
  {
  }
}
