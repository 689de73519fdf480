/** A decoder of the frames this encoder writes, after sections 5.3, 5.4, 7.1.3, 7.2.2 and 7.3 of ATSC A/52: it reads
    the bits in order, and knows of the encoder only what it has read. */
module FrameDecoder {
  import opened Arithmetic
  import opened BitStrings
  import opened Tables
  import opened Masking
  import opened MantissaCost
  import opened Allocation
  import opened BitAlloc
  import opened Mantissa
  import opened FrameSyntax
  import opened FrameOutput
  import BitIO
  import Exponent

  /** A value and the bits not yet read, or failure. */
  datatype Parsed<T> = Ok(value: T, rest: seq<bool>) | Bad
  {
    predicate IsFailure() { Bad? }

    function PropagateFailure<U>(): Parsed<U>
      requires Bad?
    {
      Bad
    }

    function Extract(): (T, seq<bool>)
      requires Ok?
    {
      (value, rest)
    }
  }

  function Read(n: nat, bits: seq<bool>): Parsed<nat>
  {
    if |bits| < n then Bad else Ok(Value(bits[..n]), bits[n..])
  }

  function ReadFields(widths: seq<nat>, bits: seq<bool>): Parsed<seq<nat>>
  {
    if widths == [] then Ok([], bits)
    else
      var t :- ReadFields(widths[..|widths| - 1], bits);
      var x :- Read(widths[|widths| - 1], t.1);
      Ok(t.0 + [x.0], x.1)
  }

  function Rep(width: nat, n: nat): (r: seq<nat>)
    ensures |r| == n
  {
    seq(n, _ => width)
  }

  // ---------- reading back what was written ----------

  ghost predicate Fits(fs: seq<Field>)
  {
    forall i :: 0 <= i < |fs| ==> fs[i].val < Pow2(fs[i].bits)
  }

  function Widths(fs: seq<Field>): (r: seq<nat>)
    ensures |r| == |fs|
  {
    seq(|fs|, i requires 0 <= i < |fs| => fs[i].bits)
  }

  function Vals(fs: seq<Field>): (r: seq<nat>)
    ensures |r| == |fs|
  {
    seq(|fs|, i requires 0 <= i < |fs| => fs[i].val)
  }

  lemma ReadOne(v: nat, n: nat, rest: seq<bool>)
    requires v < Pow2(n)
    ensures Read(n, Bits(v, n) + rest) == Ok(v, rest)
  {
    var bits := Bits(v, n) + rest;
    assert bits[..n] == Bits(v, n) && bits[n..] == rest;
    ValueOfBits(v, n);
    MaskId(v, n);
    hide Bits, Value, Mask, Pow2;
  }

  lemma {:induction false} ReadAll(fs: seq<Field>, rest: seq<bool>)
    requires Fits(fs)
    ensures ReadFields(Widths(fs), Emit(fs) + rest) == Ok(Vals(fs), rest)
  {
    if fs == [] {
      assert Emit(fs) + rest == rest;
    } else {
      var n := |fs| - 1;
      var x := fs[n];
      ReadAll(fs[..n], Bits(x.val, x.bits) + rest);
      ReadOne(x.val, x.bits, rest);
      assert Widths(fs)[..n] == Widths(fs[..n]) && Vals(fs) == Vals(fs[..n]) + [x.val];
      Regroup(Emit(fs[..n]), Bits(x.val, x.bits), rest);
      hide Read, Bits, Pow2;
    }
  }

  lemma ReadEach(width: nat, vals: seq<nat>, rest: seq<bool>)
    requires forall i :: 0 <= i < |vals| ==> vals[i] < Pow2(width)
    ensures ReadFields(Rep(width, |vals|), Emit(Each(width, vals)) + rest) == Ok(vals, rest)
  {
    ReadAll(Each(width, vals), rest);
    assert Widths(Each(width, vals)) == Rep(width, |vals|) && Vals(Each(width, vals)) == vals;
  }

  /** A single field. */
  lemma ReadField(width: nat, v: nat, rest: seq<bool>)
    requires v < Pow2(width)
    ensures Read(width, Emit([Field(width, v)]) + rest) == Ok(v, rest)
  {
    EmitPush([], Field(width, v));
    assert [] + [Field(width, v)] == [Field(width, v)] && [] + Bits(v, width) == Bits(v, width);
    ReadOne(v, width, rest);
  }

  /** Bits of two stretches of fields, the second to be read later. */
  lemma Later(a: seq<Field>, b: seq<Field>, rest: seq<bool>)
    ensures Emit(a + b) + rest == Emit(a) + (Emit(b) + rest)
  {
    hide Emit;
    EmitConcat(a, b);
    Regroup(Emit(a), Emit(b), rest);
  }

  lemma NothingLater(rest: seq<bool>)
    ensures Emit([]) + rest == rest
  {
  }

  // ---------- what the header tells ----------

  /** What a decoder needs of the header. */
  datatype Format = Format(acmod: nat, lfe: bool, fscod: nat, half: nat)
  {
    predicate Valid() { acmod < 8 && fscod < 3 && half < 3 }

    function Channels(): nat { ChannelsTab(acmod) }

    function AllChannels(): nat { WithLfe(Channels(), lfe) }
  }

  function FormatOf(cfg: Config): Format
  {
    Format(cfg.acmod, cfg.lfe, cfg.fscod, cfg.halfratecod)
  }

  // ---------- side information of a block, section by section ----------

  function ReadSwitches(n: nat, bits: seq<bool>): Parsed<(seq<nat>, seq<nat>)>
  {
    var blksw :- ReadFields(Rep(1, n), bits);
    var dith :- ReadFields(Rep(1, n), blksw.1);
    Ok((blksw.0, dith.0), dith.1)
  }

  lemma SwitchesBack(s: Side, b: nat, rest: seq<bool>)
    requires s.Valid() && b < 6 && Flags(s.blksw[b]) && Flags(s.dithflag[b])
    ensures ReadSwitches(s.cfg.Channels(), Emit(Switches(s, b)) + rest) == Ok((s.blksw[b], s.dithflag[b]), rest)
  {
    assert s.ValidBlock(b);
    assert Pow2(1) == 2;
    ReadEach(1, s.blksw[b], Emit(Each(1, s.dithflag[b])) + rest);
    ReadEach(1, s.dithflag[b], rest);
    Later(Each(1, s.blksw[b]), Each(1, s.dithflag[b]), rest);
    hide ReadFields, Emit;
  }

  predicate Flags(v: seq<nat>) { forall i :: 0 <= i < |v| ==> v[i] < 2 }

  /** One dynamic range word, if there is one. */
  function ReadGain(bits: seq<bool>): Parsed<seq<nat>>
  {
    var e :- Read(1, bits);
    if e.0 == 0 then Ok([], e.1)
    else
      var g :- Read(8, e.1);
      Ok([g.0], g.1)
  }

  function GainFields(on: bool, v: nat): seq<Field>
  {
    if on then [Field(1, 1), Field(8, v)] else [Field(1, 0)]
  }

  lemma GainBack(on: bool, v: nat, rest: seq<bool>)
    requires v < 256
    ensures ReadGain(Emit(GainFields(on, v)) + rest) == Ok(if on then [v] else [], rest)
  {
    assert Pow2(1) == 2 && Pow2(8) == 256 by { Pow2Values(); }
    if on {
      assert GainFields(on, v) == [Field(1, 1)] + [Field(8, v)];
      Later([Field(1, 1)], [Field(8, v)], rest);
      ReadField(1, 1, Emit([Field(8, v)]) + rest);
      ReadField(8, v, rest);
    } else {
      ReadField(1, 0, rest);
    }
    hide Read, Emit, Pow2;
  }

  function ReadDynamics(acmod: nat, bits: seq<bool>): Parsed<seq<nat>>
  {
    var g :- ReadGain(bits);
    if acmod != 0 then Ok(g.0, g.1)
    else
      var h :- ReadGain(g.1);
      Ok(g.0 + h.0, h.1)
  }

  /** The dynamic range words of a block. */
  function GainWords(cfg: Config, v: nat): seq<nat>
  {
    if !cfg.dynrng then [] else if cfg.acmod == 0 then [v, v] else [v]
  }

  lemma DynamicsBack(s: Side, b: nat, rest: seq<bool>)
    requires b < |s.dynrng| && s.dynrng[b] < 256
    ensures ReadDynamics(s.cfg.acmod, Emit(Dynamics(s, b)) + rest) == Ok(GainWords(s.cfg, s.dynrng[b]), rest)
  {
    var on, v := s.cfg.dynrng, s.dynrng[b];
    if s.cfg.acmod == 0 {
      assert Dynamics(s, b) == GainFields(on, v) + GainFields(on, v);
      Later(GainFields(on, v), GainFields(on, v), rest);
      GainBack(on, v, Emit(GainFields(on, v)) + rest);
      assert (if on then [v] else []) + (if on then [v] else []) == if on then [v, v] else [];
    } else {
      assert Dynamics(s, b) == GainFields(on, v);
    }
    GainBack(on, v, rest);
    hide ReadGain, Emit;
  }

  /** Coupling is never in use. */
  function ReadCoupling(bits: seq<bool>): Parsed<bool>
  {
    var e :- Read(1, bits);
    if e.0 == 0 then Ok(false, e.1)
    else
      var c :- Read(1, e.1);
      if c.0 == 0 then Ok(false, c.1) else Bad
  }

  lemma CouplingBack(b: nat, rest: seq<bool>)
    ensures ReadCoupling(Emit(Coupling(b)) + rest) == Ok(false, rest)
  {
    assert Pow2(1) == 2;
    if b == 0 {
      assert Coupling(b) == [Field(1, 1)] + [Field(1, 0)];
      Later([Field(1, 1)], [Field(1, 0)], rest);
      ReadField(1, 1, Emit([Field(1, 0)]) + rest);
    }
    ReadField(1, 0, rest);
    hide Read, Emit, Pow2;
  }

  /** The rematrixing flags in force; a block that sends none keeps those before it. */
  function ReadRematrixing(acmod: nat, before: seq<nat>, bits: seq<bool>): Parsed<seq<nat>>
  {
    if acmod != 2 then Ok([], bits)
    else
      var e :- Read(1, bits);
      if e.0 == 0 then Ok(before, e.1) else ReadFields(Rep(1, 4), e.1)
  }

  /** Only a stereo frame has rematrixing flags. */
  function FlagsOf(cfg: Config, rematflg: seq<nat>): seq<nat>
  {
    if cfg.acmod == 2 then rematflg else []
  }

  lemma RematrixingBack(s: Side, b: nat, before: seq<nat>, rest: seq<bool>)
    requires s.Valid() && Flags(s.rematflg) && (b > 0 ==> before == FlagsOf(s.cfg, s.rematflg))
    ensures ReadRematrixing(s.cfg.acmod, before, Emit(Rematrixing(s, b)) + rest) ==
      Ok(FlagsOf(s.cfg, s.rematflg), rest)
  {
    assert Pow2(1) == 2;
    if s.cfg.acmod == 2 {
      var on := If(b == 0, Each(1, s.rematflg));
      Later([Field(1, B2N(b == 0))], on, rest);
      ReadField(1, B2N(b == 0), Emit(on) + rest);
      ReadEach(1, s.rematflg, rest);
    }
    NothingLater(rest);
    hide Read, ReadFields, Emit, Pow2;
  }

  function ReadStrategies(fmt: Format, bits: seq<bool>): Parsed<seq<nat>>
  {
    var full :- ReadFields(Rep(2, fmt.Channels()), bits);
    if !fmt.lfe then Ok(full.0, full.1)
    else
      var lfe :- Read(1, full.1);
      Ok(full.0 + [lfe.0], lfe.1)
  }

  lemma StrategiesBack(s: Side, b: nat, rest: seq<bool>)
    requires s.Valid() && b < 6 && (s.cfg.lfe ==> s.channels[s.cfg.Channels()].strategy[b] < 2)
    ensures ReadStrategies(FormatOf(s.cfg), Emit(Strategies(s, b)) + rest) ==
      Ok(StrategyOf(s.channels, b, |s.channels|), rest)
  {
    hide Read, ReadFields, Emit, Pow2, Channel.Valid;
    StrategiesSmall(s, b);
    var full := StrategyOf(s.channels, b, s.cfg.Channels());
    if s.cfg.lfe {
      var v := s.channels[s.cfg.Channels()].strategy[b];
      Later(Each(2, full), [Field(1, v)], rest);
      ReadEach(2, full, Emit([Field(1, v)]) + rest);
      ReadField(1, v, rest);
      assert StrategyOf(s.channels, b, |s.channels|) == full + [v];
    } else {
      assert Strategies(s, b) == Each(2, full);
      ReadEach(2, full, rest);
    }
  }

  lemma StrategiesSmall(s: Side, b: nat)
    requires s.Valid() && b < 6
    ensures Pow2(1) == 2 && Pow2(2) == 4
    ensures forall ch :: 0 <= ch < |s.channels| ==> |s.channels[ch].strategy| == 6 && s.channels[ch].strategy[b] < 4
  {
  }

  /** The bandwidth code of one channel; a channel that reuses exponents keeps its coefficient count. */
  function NextBandwidth(strategy: nat, ch: nat, ncoefs: seq<nat>, bits: seq<bool>): (p: Parsed<seq<nat>>)
    requires ch < |ncoefs|
    ensures p.Ok? ==> |p.value| == |ncoefs|
  {
    if strategy == Exponent.REUSE then Ok(ncoefs, bits)
    else
      var bw :- Read(6, bits);
      if bw.0 > 60 then Bad else Ok(ncoefs[ch := 3 * bw.0 + 73], bw.1)
  }

  /** The bandwidth codes of the first n channels. */
  function ReadBandwidths(strategy: seq<nat>, n: nat, ncoefs: seq<nat>, bits: seq<bool>): (p: Parsed<seq<nat>>)
    requires n <= |strategy| == |ncoefs|
    ensures p.Ok? ==> |p.value| == |ncoefs|
  {
    if n == 0 then Ok(ncoefs, bits)
    else
      var t :- ReadBandwidths(strategy, n - 1, ncoefs, bits);
      NextBandwidth(strategy[n - 1], n - 1, t.0, t.1)
  }

  /** Coefficient counts: from the bandwidth code for full channels, 7 for the LFE channel. */
  ghost predicate CountsRight(s: Side)
    requires s.Valid()
  {
    s.bwcode <= 60 && forall ch :: 0 <= ch < |s.channels| ==>
      s.channels[ch].ncoefs == if ch < s.cfg.Channels() then 3 * s.bwcode + 73 else 7
  }

  /** The decoder's counts before block b: known once a channel had exponents of its own. */
  ghost predicate CountsKnown(s: Side, b: nat, ncoefs: seq<nat>)
  {
    |ncoefs| == |s.channels| &&
    forall ch :: 0 <= ch < |ncoefs| && (b > 0 || ch >= s.cfg.Channels()) ==> ncoefs[ch] == s.channels[ch].ncoefs
  }

  lemma NextBandwidthBack(s: Side, b: nat, ch: nat, ncoefs: seq<nat>, rest: seq<bool>)
    requires s.bwcode <= 60 && ch < |s.channels| == |ncoefs| && s.channels[ch].Valid() && b < 6
    requires s.channels[ch].ncoefs == 3 * s.bwcode + 73 && (b > 0 ==> ncoefs[ch] == s.channels[ch].ncoefs)
    ensures NextBandwidth(s.channels[ch].strategy[b], ch, ncoefs,
                          Emit(If(NewExponents(s.channels[ch], b), [Field(6, s.bwcode)])) + rest) ==
      Ok(ncoefs[ch := s.channels[ch].ncoefs], rest)
  {
    hide Read, Emit, Pow2;
    SmallPowers();
    ReadField(6, s.bwcode, rest);
    NothingLater(rest);
    if !NewExponents(s.channels[ch], b) { assert ncoefs[ch := ncoefs[ch]] == ncoefs; }
  }

  lemma {:induction false} BandwidthsBack(s: Side, b: nat, n: nat, ncoefs: seq<nat>, rest: seq<bool>)
    requires s.Valid() && CountsRight(s) && b < 6 && n <= s.cfg.Channels() && CountsKnown(s, b, ncoefs)
    ensures |StrategyOf(s.channels, b, |s.channels|)| == |s.channels| && |s.channels| >= n
    ensures var p :=
        ReadBandwidths(StrategyOf(s.channels, b, |s.channels|), n, ncoefs, Emit(Bandwidths(s, b, n)) + rest);
      p.Ok? && p.rest == rest && CountsKnown(s, b, p.value) &&
      forall ch :: 0 <= ch < n ==> p.value[ch] == s.channels[ch].ncoefs
  {
    hide NextBandwidth, Emit, Channel.Valid, Side.Valid, Side.ValidBlock, Config.Channels;
    Lengths(s, b);
    if n == 0 {
      NothingLater(rest);
    } else {
      ValidChannel(s, n - 1, b);
      var strategy := StrategyOf(s.channels, b, |s.channels|);
      var fs := If(NewExponents(s.channels[n - 1], b), [Field(6, s.bwcode)]);
      BandwidthsBack(s, b, n - 1, ncoefs, Emit(fs) + rest);
      Later(Bandwidths(s, b, n - 1), fs, rest);
      var t := ReadBandwidths(strategy, n - 1, ncoefs, Emit(Bandwidths(s, b, n)) + rest);
      NextBandwidthBack(s, b, n - 1, t.value, rest);
    }
  }

  /** The exponents one channel transmits, decoded by section 7.1.3; the gain range of a full channel must be 0. */
  function ReadChannelExponents(strategy: nat, ncoefs: nat, full: bool, bits: seq<bool>): (p: Parsed<seq<int>>)
    requires 1 <= strategy <= 3 && Exponent.ValidCount(ncoefs)
    ensures p.Ok? ==> |p.value| == ncoefs
  {
    var g, m := Exponent.GroupSize(strategy), Exponent.NumGroups(strategy, ncoefs);
    var first :- Read(4, bits);
    var codes :- ReadFields(Rep(7, m), first.1);
    Exponent.GroupsFit(strategy, ncoefs, g, m);
    if |codes.0| != m then Bad
    else
      var exps := Exponent.DecodeExponents([first.0] + codes.0, g, m)[..ncoefs];
      if !full then Ok(exps, codes.1)
      else
        var gain :- Read(2, codes.1);
        if gain.0 == 0 then Ok(exps, gain.1) else Bad
  }

  /** The group codes of a block and channel are those group_exponents makes of decodable exponents. */
  ghost predicate CodesRight(s: Side, b: nat, ch: nat)
    requires s.Valid() && b < 6 && ch < |s.channels|
  {
    assert s.ValidBlock(b);
    CodesFor(s.grp[b][ch], s.channels[ch], b)
  }

  /** The three parts of a channel's exponents, read in turn. */
  lemma ChannelPartsBack(first: nat, codes: seq<nat>, gain: seq<Field>, rest: seq<bool>)
    requires first < 16 && (forall i :: 0 <= i < |codes| ==> codes[i] < 128) && (gain == [] || gain == [Field(2, 0)])
    ensures var bits := Emit([Field(4, first)] + Each(7, codes) + gain) + rest;
      var after := Emit(gain) + rest;
      Read(4, bits) == Ok(first, Emit(Each(7, codes)) + after) &&
      ReadFields(Rep(7, |codes|), Emit(Each(7, codes)) + after) == Ok(codes, after) &&
      (if gain == [] then after == rest else Read(2, after) == Ok(0, rest))
  {
    hide Read, ReadFields, Emit, Each, Rep, Pow2;
    SmallPowers();
    Later([Field(4, first)] + Each(7, codes), gain, rest);
    Later([Field(4, first)], Each(7, codes), Emit(gain) + rest);
    ReadField(4, first, Emit(Each(7, codes)) + (Emit(gain) + rest));
    ReadEach(7, codes, Emit(gain) + rest);
    ReadField(2, 0, rest);
    NothingLater(rest);
  }

  lemma SmallPowers()
    ensures Pow2(1) == 2 && Pow2(2) == 4 && Pow2(3) == 8 && Pow2(4) == 16 && Pow2(6) == 64 && Pow2(7) == 128
  {
    Pow2Values();
  }

  lemma ReadsChannel(strategy: nat, ncoefs: nat, full: bool, first: nat, codes: seq<nat>, gain: seq<Field>,
                     rest: seq<bool>, g: nat, m: nat)
    requires 1 <= strategy <= 3 && Exponent.ValidCount(ncoefs) && g == Exponent.GroupSize(strategy)
    requires m == Exponent.NumGroups(strategy, ncoefs) == |codes| && gain == If(full, [Field(2, 0)])
    requires first < 16 && forall i :: 0 <= i < |codes| ==> codes[i] < 128
    ensures ncoefs <= Exponent.Start(g, 3 * m + 1)
    ensures ReadChannelExponents(strategy, ncoefs, full, Emit([Field(4, first)] + Each(7, codes) + gain) + rest) ==
      Ok(Exponent.DecodeExponents([first] + codes, g, m)[..ncoefs], rest)
  {
    hide Read, ReadFields, Emit, Each, Rep, Exponent.DecodeExponents, Exponent.NumGroups, Exponent.GroupSize;
    Exponent.GroupsFit(strategy, ncoefs, g, m);
    ChannelPartsBack(first, codes, gain, rest);
  }

  lemma ChannelExponentsBack(s: Side, b: nat, ch: nat, rest: seq<bool>)
    requires s.Valid() && CountsRight(s) && b < 6 && ch < |s.channels|
    requires NewExponents(s.channels[ch], b) && CodesRight(s, b, ch)
    ensures s.channels[ch].Valid() && 1 <= s.channels[ch].strategy[b] <= 3 && Exponent.ValidCount(s.channels[ch].ncoefs)
    ensures ReadChannelExponents(s.channels[ch].strategy[b], s.channels[ch].ncoefs, ch < s.cfg.Channels(),
                                 Emit(ChannelExponents(s, b, ch)) + rest) ==
      Ok(s.channels[ch].exp[b][..s.channels[ch].ncoefs], rest)
  {
    hide ReadChannelExponents, Emit, Each, Exponent.DecodeExponents, Exponent.Decodable, Exponent.PerGroup,
      Exponent.CodeAt, Exponent.Start, Exponent.NumGroups, Exponent.GroupSize;
    var c := s.channels[ch];
    var g, m := Exponent.GroupSize(c.strategy[b]), Groups(c, b);
    assert s.ValidBlock(b) && c.Valid();
    var grp, full := s.grp[b][ch], ch < s.cfg.Channels();
    var codes, gain := grp[1..m + 1], If(full, [Field(2, 0)]);
    Exponent.GroupsFit(c.strategy[b], c.ncoefs, g, m);
    FirstExponent(c.exp[b], g, 3 * m);
    ReadsChannel(c.strategy[b], c.ncoefs, full, grp[0], codes, gain, rest, g, m);
    DecodedExponents(c.exp[b], g, m, grp, [grp[0]] + codes, c.ncoefs);
  }

  lemma FirstExponent(e: seq<Byte>, g: nat, n: nat)
    requires Exponent.ValidSize(g) && Exponent.Start(g, n + 1) <= |e| && Exponent.Decodable(e, g, n)
    ensures 0 < |e| && e[0] <= 15
  {
  }

  lemma DecodedExponents(exp: seq<Byte>, g: nat, m: nat, grp: seq<nat>, read: seq<nat>, ncoefs: nat)
    requires Exponent.ValidSize(g) && Exponent.Start(g, 3 * m + 1) <= |exp| == 256 && Exponent.Decodable(exp, g, 3 * m)
    requires m < |grp| && m < |read| && read == grp[..m + 1] && grp[0] == exp[0]
    requires forall i :: 1 <= i <= m ==> grp[i] == Exponent.CodeAt(Exponent.PerGroup(exp, g, 3 * m), i)
    requires ncoefs <= Exponent.Start(g, 3 * m + 1)
    ensures Exponent.DecodeExponents(read, g, m)[..ncoefs] == exp[..ncoefs]
  {
    hide Exponent.Decodable, Exponent.PerGroup, Exponent.DecodeExponents, Exponent.CodeAt, Exponent.Start;
    Exponent.DecodeInverts(exp, g, m, read);
    var n := Exponent.Start(g, 3 * m + 1);
    assert exp[..n][..ncoefs] == exp[..ncoefs];
  }

  /** Exponents of one channel; a channel that reuses them keeps what it had. */
  function NextExponents(fmt: Format, strategy: nat, ncoefs: nat, ch: nat, exps: seq<seq<int>>, bits: seq<bool>):
      (p: Parsed<seq<seq<int>>>)
    requires ch < |exps|
    ensures p.Ok? ==> |p.value| == |exps|
  {
    if strategy == Exponent.REUSE then Ok(exps, bits)
    else if strategy > 3 || !Exponent.ValidCount(ncoefs) then Bad
    else
      var e :- ReadChannelExponents(strategy, ncoefs, ch < fmt.Channels(), bits);
      Ok(exps[ch := e.0], e.1)
  }

  /** Exponents of the first n channels. */
  function ReadExponents(fmt: Format, strategy: seq<nat>, ncoefs: seq<nat>, n: nat, exps: seq<seq<int>>,
                         bits: seq<bool>): (p: Parsed<seq<seq<int>>>)
    requires n <= |strategy| == |ncoefs| == |exps|
    ensures p.Ok? ==> |p.value| == |exps|
  {
    if n == 0 then Ok(exps, bits)
    else
      var t :- ReadExponents(fmt, strategy, ncoefs, n - 1, exps, bits);
      NextExponents(fmt, strategy[n - 1], ncoefs[n - 1], n - 1, t.0, t.1)
  }

  /** The exponents block b uses. */
  ghost function ExponentsOf(s: Side, b: nat): (r: seq<seq<int>>)
    requires s.Valid() && b < 6
    ensures |r| == |s.channels|
  {
    seq(|s.channels|, ch requires 0 <= ch < |s.channels| => Used(s.channels[ch], b))
  }

  ghost function Used(c: Channel, b: nat): seq<int>
    requires c.Valid() && b < 6
  {
    c.exp[b][..c.ncoefs]
  }

  lemma Reused(c: Channel, b: nat)
    requires c.Valid() && b < 6 && !NewExponents(c, b)
    ensures b > 0 && Used(c, b) == Used(c, b - 1)
  {
  }

  ghost predicate CountsAre(s: Side, ncoefs: seq<nat>)
  {
    |ncoefs| == |s.channels| && forall ch :: 0 <= ch < |ncoefs| ==> ncoefs[ch] == s.channels[ch].ncoefs
  }

  lemma NextExponentsBack(s: Side, b: nat, ch: nat, exps: seq<seq<int>>, rest: seq<bool>)
    requires s.Valid() && CountsRight(s) && b < 6 && ch < |s.channels| == |exps| && CodesRight(s, b, ch)
    requires s.channels[ch].Valid() && (b > 0 ==> exps[ch] == Used(s.channels[ch], b - 1))
    ensures NextExponents(FormatOf(s.cfg), s.channels[ch].strategy[b], s.channels[ch].ncoefs, ch, exps,
                          Emit(ChannelExponents(s, b, ch)) + rest) == Ok(exps[ch := Used(s.channels[ch], b)], rest)
  {
    hide CodesRight, ReadChannelExponents, Emit, ChannelExponents, CountsRight, Side.ValidBlock, Side.Valid;
    var c := s.channels[ch];
    if NewExponents(c, b) {
      ChannelExponentsBack(s, b, ch, rest);
    } else {
      Reused(c, b);
      NoExponents(s, b, ch);
      NothingLater(rest);
      assert exps[ch := exps[ch]] == exps;
    }
  }

  /** Exponents of block b in the first n channels, of the block before in the others. */
  ghost predicate UsedTo(s: Side, b: nat, n: nat, before: seq<seq<int>>, exps: seq<seq<int>>)
    requires s.Valid() && b < 6
  {
    |exps| == |before| == |s.channels| && n <= |exps| &&
    (forall ch :: 0 <= ch < n ==> exps[ch] == Used(s.channels[ch], b)) &&
    forall ch :: n <= ch < |exps| ==> exps[ch] == before[ch]
  }

  lemma {:induction false} ExponentsBack(s: Side, b: nat, n: nat, exps: seq<seq<int>>, ncoefs: seq<nat>,
                                         rest: seq<bool>)
    requires s.Valid() && CountsRight(s) && CountsAre(s, ncoefs) && b < 6 && n <= |s.channels|
    requires forall ch :: 0 <= ch < |s.channels| ==> CodesRight(s, b, ch)
    requires |exps| == |s.channels| && (b > 0 ==> exps == ExponentsOf(s, b - 1))
    ensures var p := ReadExponents(FormatOf(s.cfg), StrategyOf(s.channels, b, |s.channels|), ncoefs, n, exps,
                                   Emit(Exponents(s, b, n)) + rest);
      p.Ok? && p.rest == rest && UsedTo(s, b, n, exps, p.value)
  {
    hide CodesRight, Emit, ChannelExponents, CountsRight, Channel.Valid, Side.ValidBlock, Side.Valid, NextExponents,
      Used;
    if n == 0 {
      NothingLater(rest);
    } else {
      var fs := ChannelExponents(s, b, n - 1);
      Lengths(s, b);
      var fmt, strategy := FormatOf(s.cfg), StrategyOf(s.channels, b, |s.channels|);
      ValidChannel(s, n - 1, b);
      ExponentsBack(s, b, n - 1, exps, ncoefs, Emit(fs) + rest);
      Later(Exponents(s, b, n - 1), fs, rest);
      var t := ReadExponents(fmt, strategy, ncoefs, n - 1, exps, Emit(Exponents(s, b, n)) + rest);
      NextExponentsBack(s, b, n - 1, t.value, rest);
    }
  }

  lemma ValidChannel(s: Side, ch: nat, b: nat)
    requires s.Valid() && ch < |s.channels| && b < 6
    ensures s.channels[ch].Valid() && |s.channels[ch].strategy| == 6 && s.channels[ch].strategy[b] <= 3
    ensures |s.channels| == s.cfg.AllChannels()
  {
  }

  lemma NoExponents(s: Side, b: nat, ch: nat)
    requires s.Valid() && b < 6 && ch < |s.channels| && !NewExponents(s.channels[ch], b)
    ensures ChannelExponents(s, b, ch) == []
  {
  }

  function ReadParameters(before: ParamCodes, bits: seq<bool>): Parsed<ParamCodes>
  {
    var e :- Read(1, bits);
    if e.0 == 0 then Ok(before, e.1)
    else
      var f :- ReadFields([2, 2, 2, 2, 3], e.1);
      if |f.0| != 5 then Bad else Ok(ParamCodes(f.0[0], f.0[1], f.0[2], f.0[3], f.0[4]), f.1)
  }

  lemma ParametersBack(s: Side, b: nat, before: ParamCodes, rest: seq<bool>)
    requires s.codes.Valid() && (b > 0 ==> before == s.codes)
    ensures ReadParameters(before, Emit(Parameters(s, b)) + rest) == Ok(s.codes, rest)
  {
    hide Read, ReadFields, Emit, Pow2;
    SmallPowers();
    var fs := [Field(2, s.codes.sdecaycod), Field(2, s.codes.fdecaycod), Field(2, s.codes.sgaincod),
               Field(2, s.codes.dbkneecod), Field(3, s.codes.floorcod)];
    Later([Field(1, B2N(b == 0))], If(b == 0, fs), rest);
    ReadField(1, B2N(b == 0), Emit(If(b == 0, fs)) + rest);
    ReadAll(fs, rest);
    assert Widths(fs) == [2, 2, 2, 2, 3];
    NothingLater(rest);
  }

  /** The SNR offset codes and fast gain codes in force. */
  datatype Gains = Gains(csnroffst: nat, fsnroffst: seq<nat>, fgaincod: seq<nat>)

  function ReadOffsets(n: nat, bits: seq<bool>): (p: Parsed<(seq<nat>, seq<nat>)>)
    ensures p.Ok? ==> |p.value.0| == |p.value.1| == n
  {
    if n == 0 then Ok(([], []), bits)
    else
      var t :- ReadOffsets(n - 1, bits);
      var fine :- Read(4, t.1);
      var gain :- Read(3, fine.1);
      Ok((t.0.0 + [fine.0], t.0.1 + [gain.0]), gain.1)
  }

  lemma {:induction false} OffsetsBack(s: Side, b: nat, n: nat, rest: seq<bool>)
    requires b < |s.fgaincod| && n <= |s.fgaincod[b]| && s.fsnroffst < 16
    requires forall ch :: 0 <= ch < |s.fgaincod[b]| ==> s.fgaincod[b][ch] < 8
    ensures ReadOffsets(n, Emit(Offsets(s, b, n)) + rest) == Ok((Rep(s.fsnroffst, n), s.fgaincod[b][..n]), rest)
  {
    hide Read, Emit, Pow2;
    SmallPowers();
    if n == 0 {
      NothingLater(rest);
    } else {
      var x, y := Field(4, s.fsnroffst), Field(3, s.fgaincod[b][n - 1]);
      assert [x, y] == [x] + [y];
      OffsetsBack(s, b, n - 1, Emit([x, y]) + rest);
      Later(Offsets(s, b, n - 1), [x, y], rest);
      Later([x], [y], rest);
      ReadField(4, s.fsnroffst, Emit([y]) + rest);
      ReadField(3, s.fgaincod[b][n - 1], rest);
      assert Rep(s.fsnroffst, n) == Rep(s.fsnroffst, n - 1) + [s.fsnroffst];
      assert s.fgaincod[b][..n] == s.fgaincod[b][..n - 1] + [s.fgaincod[b][n - 1]];
    }
  }

  function ReadSnr(fmt: Format, before: Gains, bits: seq<bool>): Parsed<Gains>
  {
    var e :- Read(1, bits);
    if e.0 == 0 then Ok(before, e.1)
    else
      var coarse :- Read(6, e.1);
      var fine :- ReadOffsets(fmt.AllChannels(), coarse.1);
      Ok(Gains(coarse.0, fine.0.0, fine.0.1), fine.1)
  }

  /** What a decoder has in force after block b. */
  ghost function GainsAfter(s: Side, b: nat): Gains
    requires s.Valid() && b < 6
  {
    Gains(s.csnroffst, Rep(s.fsnroffst, |s.channels|), s.fgaincod[b])
  }

  lemma SnrBack(s: Side, b: nat, before: Gains, rest: seq<bool>)
    requires s.Valid() && s.GainsRight() && b < 6 && s.csnroffst < 64 && s.fsnroffst < 16
    requires b > 0 ==> before == GainsAfter(s, b - 1)
    ensures ReadSnr(FormatOf(s.cfg), before, Emit(Snr(s, b)) + rest) == Ok(GainsAfter(s, b), rest)
  {
    hide Read, ReadOffsets, Emit, Pow2, Offsets, Channel.Valid, FgainCod, WriteSnr;
    SmallPowers();
    var on, fgain := s.writeSnr[b], s.fgaincod[b];
    GainCodes(s, b);
    var tail := Offsets(s, b, |fgain|);
    var fs := If(on, [Field(6, s.csnroffst)] + tail);
    Later([Field(1, B2N(on))], fs, rest);
    ReadField(1, B2N(on), Emit(fs) + rest);
    if on {
      Later([Field(6, s.csnroffst)], tail, rest);
      ReadField(6, s.csnroffst, Emit(tail) + rest);
      OffsetsBack(s, b, |fgain|, rest);
      assert fgain[..|fgain|] == fgain;
    } else {
      NothingLater(rest);
    }
  }

  /** Gain codes are small, and stay when none is sent. */
  lemma GainCodes(s: Side, b: nat)
    requires s.Valid() && s.GainsRight() && b < 6
    ensures |s.fgaincod[b]| == |s.channels| == FormatOf(s.cfg).AllChannels()
    ensures forall ch :: 0 <= ch < |s.channels| ==> s.fgaincod[b][ch] < 8
    ensures !s.writeSnr[b] ==> b > 0 && s.fgaincod[b] == s.fgaincod[b - 1]
  {
    assert s.ValidBlock(b);
    forall ch | 0 <= ch < |s.channels|
      ensures s.fgaincod[b][ch] < 8
    {
      assert s.fgaincod[b][ch] == FgainCod(s.channels[ch], b);
    }
    if !s.writeSnr[b] {
      assert !WriteSnr(s.channels, b) && !GainChanged(s.channels[0], b);
      assert s.ValidBlock(b - 1);
      forall ch | 0 <= ch < |s.channels|
        ensures s.fgaincod[b][ch] == s.fgaincod[b - 1][ch]
      {
        assert !GainChanged(s.channels[ch], b);
      }
    }
  }

  // ---------- a block ----------

  /** What a decoder carries from block to block. */
  datatype Carry = Carry(ncoefs: seq<nat>, exps: seq<seq<int>>, codes: ParamCodes, gains: Gains, rematflg: seq<nat>)

  function FirstCarry(fmt: Format): Carry
  {
    var n := fmt.AllChannels();
    Carry(seq(n, ch => if ch < fmt.Channels() then 0 else 7), seq(n, _ => []), ParamCodes(0, 0, 0, 0, 0),
          Gains(0, Rep(0, n), Rep(0, n)), [])
  }

  /** Block switches, dither flags, dynamic range words and rematrixing flags of a block. */
  datatype Tools = Tools(blksw: seq<nat>, dithflag: seq<nat>, dynrng: seq<nat>, rematflg: seq<nat>)

  /** Everything before the bandwidth codes, exponent strategies last. */
  function ReadStart(fmt: Format, before: seq<nat>, bits: seq<bool>): Parsed<(Tools, seq<nat>)>
  {
    var switches :- ReadSwitches(fmt.Channels(), bits);
    var gains :- ReadDynamics(fmt.acmod, switches.1);
    var coupling :- ReadCoupling(gains.1);
    var remat :- ReadRematrixing(fmt.acmod, before, coupling.1);
    var strategy :- ReadStrategies(fmt, remat.1);
    Ok((Tools(switches.0.0, switches.0.1, gains.0, remat.0), strategy.0), strategy.1)
  }

  /** The rest of the side information. */
  function ReadSide(fmt: Format, c: Carry, rematflg: seq<nat>, strategy: seq<nat>, bits: seq<bool>): Parsed<Carry>
  {
    if !(|strategy| == |c.ncoefs| == |c.exps| == fmt.AllChannels()) then Bad
    else
      var counts :- ReadBandwidths(strategy, fmt.Channels(), c.ncoefs, bits);
      var exps :- ReadExponents(fmt, strategy, counts.0, |strategy|, c.exps, counts.1);
      var codes :- ReadParameters(c.codes, exps.1);
      var gains :- ReadSnr(fmt, c.gains, codes.1);
      var delta :- Read(1, gains.1);
      var skip :- Read(1, delta.1);
      if delta.0 == 0 && skip.0 == 0 then Ok(Carry(counts.0, exps.0, codes.0, gains.0, rematflg), skip.1) else Bad
  }

  /** Values fit their fields, and exponent codes are those of the exponents. */
  ghost predicate Writable(s: Side)
  {
    s.Valid() && s.GainsRight() && CountsRight(s) && s.codes.Valid() && s.csnroffst < 64 && s.fsnroffst < 16 &&
    Flags(s.rematflg) && forall b :: 0 <= b < 6 ==> WritableBlock(s, b)
  }

  ghost predicate WritableBlock(s: Side, b: nat)
    requires s.Valid() && b < 6
  {
    Flags(s.blksw[b]) && Flags(s.dithflag[b]) && s.dynrng[b] < 256 &&
    (s.cfg.lfe ==> s.channels[s.cfg.Channels()].strategy[b] < 2) &&
    forall ch :: 0 <= ch < |s.channels| ==> CodesRight(s, b, ch)
  }

  /** What a decoder in step with the encoder carries after block b. */
  ghost function CarryAfter(s: Side, b: nat): Carry
    requires s.Valid() && b < 6
  {
    Carry(seq(|s.channels|, ch requires 0 <= ch < |s.channels| => s.channels[ch].ncoefs), ExponentsOf(s, b), s.codes,
          GainsAfter(s, b), FlagsOf(s.cfg, s.rematflg))
  }

  ghost predicate InStepBefore(s: Side, b: nat, c: Carry)
    requires s.Valid() && b < 6
  {
    if b == 0 then c == FirstCarry(FormatOf(s.cfg)) else c == CarryAfter(s, b - 1)
  }

  /** The fields before the bandwidth codes. */
  ghost function StartFields(s: Side, b: nat): seq<Field>
    requires s.Valid() && b < 6
  {
    Switches(s, b) + Dynamics(s, b) + Coupling(b) + Rematrixing(s, b) + Strategies(s, b)
  }

  /** Five stretches read in turn. */
  lemma LaterFive(a: seq<Field>, b: seq<Field>, c: seq<Field>, d: seq<Field>, e: seq<Field>, rest: seq<bool>)
    ensures Emit(a + b + c + d + e) + rest == Emit(a) + (Emit(b) + (Emit(c) + (Emit(d) + (Emit(e) + rest))))
  {
    hide Emit;
    Later(a + b + c + d, e, rest);
    Later(a + b + c, d, Emit(e) + rest);
    Later(a + b, c, Emit(d) + (Emit(e) + rest));
    Later(a, b, Emit(c) + (Emit(d) + (Emit(e) + rest)));
  }

  /** The tools of a block, from the encoder's settings. */
  function ToolsOf(cfg: Config, blksw: seq<nat>, dithflag: seq<nat>, gain: nat, rematflg: seq<nat>): Tools
  {
    Tools(blksw, dithflag, GainWords(cfg, gain), FlagsOf(cfg, rematflg))
  }

  lemma StartBack(s: Side, b: nat, before: seq<nat>, rest: seq<bool>)
    requires s.Valid() && b < 6 && WritableBlock(s, b) && Flags(s.rematflg)
    requires b > 0 ==> before == FlagsOf(s.cfg, s.rematflg)
    ensures ReadStart(FormatOf(s.cfg), before, Emit(StartFields(s, b)) + rest) ==
      Ok((ToolsOf(s.cfg, s.blksw[b], s.dithflag[b], s.dynrng[b], s.rematflg), StrategyOf(s.channels, b, |s.channels|)),
         rest)
  {
    hide Emit, ReadSwitches, ReadDynamics, ReadCoupling, ReadRematrixing, ReadStrategies, CodesRight, Switches,
      Dynamics, Coupling, Rematrixing, Strategies, Flags;
    var e := Emit(Strategies(s, b)) + rest;
    var d := Emit(Rematrixing(s, b)) + e;
    var c := Emit(Coupling(b)) + d;
    var g := Emit(Dynamics(s, b)) + c;
    LaterFive(Switches(s, b), Dynamics(s, b), Coupling(b), Rematrixing(s, b), Strategies(s, b), rest);
    SwitchesBack(s, b, g);
    DynamicsBack(s, b, c);
    CouplingBack(b, d);
    RematrixingBack(s, b, before, e);
    StrategiesBack(s, b, rest);
  }

  lemma StepCounts(s: Side, b: nat, c: Carry)
    requires s.Valid() && CountsRight(s) && b < 6 && InStepBefore(s, b, c)
    ensures |c.ncoefs| == |c.exps| == |s.channels| == FormatOf(s.cfg).AllChannels() && CountsKnown(s, b, c.ncoefs)
    ensures b > 0 ==> c.exps == ExponentsOf(s, b - 1) && c.codes == s.codes && c.gains == GainsAfter(s, b - 1)
    ensures b > 0 ==> c.rematflg == FlagsOf(s.cfg, s.rematflg)
  {
    hide Channel.Valid, ExponentsOf, GainsAfter;
  }

  /** Counts after the bandwidth codes. */
  lemma CountsBack(s: Side, b: nat, c: Carry, rest: seq<bool>)
    requires s.Valid() && CountsRight(s) && b < 6 && InStepBefore(s, b, c)
    ensures |StrategyOf(s.channels, b, |s.channels|)| == |c.ncoefs| >= s.cfg.Channels()
    ensures var p := ReadBandwidths(StrategyOf(s.channels, b, |s.channels|), s.cfg.Channels(), c.ncoefs,
                                    Emit(Bandwidths(s, b, s.cfg.Channels())) + rest);
      p == Ok(CarryAfter(s, b).ncoefs, rest)
  {
    StepCounts(s, b, c);
    BandwidthsBack(s, b, s.cfg.Channels(), c.ncoefs, rest);
    hide ReadBandwidths, Emit, Bandwidths, Channel.Valid, ExponentsOf, GainsAfter;
    var p := ReadBandwidths(StrategyOf(s.channels, b, |s.channels|), s.cfg.Channels(), c.ncoefs,
                            Emit(Bandwidths(s, b, s.cfg.Channels())) + rest);
    assert p.value == CarryAfter(s, b).ncoefs;
  }

  lemma AllExponentsBack(s: Side, b: nat, c: Carry, rest: seq<bool>)
    requires s.Valid() && CountsRight(s) && b < 6 && InStepBefore(s, b, c) && WritableBlock(s, b)
    ensures |StrategyOf(s.channels, b, |s.channels|)| == |CarryAfter(s, b).ncoefs| == |c.exps| == |s.channels|
    ensures ReadExponents(FormatOf(s.cfg), StrategyOf(s.channels, b, |s.channels|), CarryAfter(s, b).ncoefs,
                          |s.channels|, c.exps, Emit(Exponents(s, b, |s.channels|)) + rest) ==
      Ok(ExponentsOf(s, b), rest)
  {
    StepCounts(s, b, c);
    hide ReadExponents, Emit, Exponents, Channel.Valid, GainsAfter, CodesRight, Flags, Used;
    var p := ReadExponents(FormatOf(s.cfg), StrategyOf(s.channels, b, |s.channels|), CarryAfter(s, b).ncoefs,
                           |s.channels|, c.exps, Emit(Exponents(s, b, |s.channels|)) + rest);
    ExponentsBack(s, b, |s.channels|, c.exps, CarryAfter(s, b).ncoefs, rest);
    assert p.value == ExponentsOf(s, b);
  }

  ghost function RestFields(s: Side, b: nat): seq<Field>
    requires s.Valid() && b < 6
  {
    Bandwidths(s, b, s.cfg.Channels()) + Exponents(s, b, |s.channels|) + Parameters(s, b) + Snr(s, b) +
    [Field(1, 0), Field(1, 0)]
  }

  lemma TwoZeros(rest: seq<bool>)
    ensures var bits := Emit([Field(1, 0), Field(1, 0)]) + rest;
      Read(1, bits) == Ok(0, Emit([Field(1, 0)]) + rest) && Read(1, Emit([Field(1, 0)]) + rest) == Ok(0, rest)
  {
    hide Read, Emit, Pow2;
    SmallPowers();
    assert [Field(1, 0), Field(1, 0)] == [Field(1, 0)] + [Field(1, 0)];
    Later([Field(1, 0)], [Field(1, 0)], rest);
    ReadField(1, 0, Emit([Field(1, 0)]) + rest);
    ReadField(1, 0, rest);
  }

  lemma Lengths(s: Side, b: nat)
    requires s.Valid() && b < 6
    ensures b < |s.writeSnr| && b < |s.fgaincod| && s.cfg.Channels() <= |s.channels|
    ensures forall c :: 0 <= c < |s.channels| ==> b < |s.channels[c].strategy|
  {
  }

  lemma RestBack(s: Side, b: nat, c: Carry, rest: seq<bool>)
    requires Writable(s) && b < 6 && InStepBefore(s, b, c)
    ensures ReadSide(FormatOf(s.cfg), c, FlagsOf(s.cfg, s.rematflg), StrategyOf(s.channels, b, |s.channels|),
                     Emit(RestFields(s, b)) + rest) == Ok(CarryAfter(s, b), rest)
  {
    hide Emit, Read, ReadBandwidths, ReadExponents, ReadParameters, ReadSnr, Bandwidths, Exponents, Parameters, Snr,
      Side.Valid, Side.GainsRight, CountsRight, WritableBlock, InStepBefore, ExponentsOf, GainsAfter, Channel.Valid;
    Lengths(s, b);
    var zeros := [Field(1, 0), Field(1, 0)];
    var e := Emit(zeros) + rest;
    var d := Emit(Snr(s, b)) + e;
    var p := Emit(Parameters(s, b)) + d;
    var x := Emit(Exponents(s, b, |s.channels|)) + p;
    LaterFive(Bandwidths(s, b, s.cfg.Channels()), Exponents(s, b, |s.channels|), Parameters(s, b), Snr(s, b), zeros,
      rest);
    StepCounts(s, b, c);
    CountsBack(s, b, c, x);
    AllExponentsBack(s, b, c, p);
    ParametersBack(s, b, c.codes, d);
    SnrBack(s, b, c.gains, e);
    TwoZeros(rest);
  }

  // ---------- mantissas ----------

  predicate GoodExponents(exps: seq<int>, ncoefs: nat)
  {
    ValidEnd(ncoefs) && |exps| == ncoefs && forall k :: 0 <= k < ncoefs ==> 0 <= exps[k] <= 24
  }

  /** The carried values describe a block that can be allocated. */
  predicate Usable(fmt: Format, c: Carry)
  {
    fmt.Valid() && c.codes.Valid() && |c.ncoefs| == |c.exps| == |c.gains.fsnroffst| == |c.gains.fgaincod| &&
    forall ch :: 0 <= ch < |c.exps| ==> GoodExponents(c.exps[ch], c.ncoefs[ch])
  }

  function PaddedRow(exps: seq<int>, ncoefs: nat): (r: seq<Byte>)
    requires GoodExponents(exps, ncoefs)
    ensures ValidRow(r, ncoefs)
  {
    seq(256, k requires 0 <= k < 256 => if k < ncoefs then exps[k] else 0)
  }

  /** The pointers of all channels, from nothing but what was transmitted. */
  function DecoderBaps(fmt: Format, c: Carry): (r: seq<seq<nat>>)
    requires Usable(fmt, c)
    ensures |r| == |c.exps|
    ensures forall ch, k :: 0 <= ch < |r| && 0 <= k < |r[ch]| ==> r[ch][k] <= 15
  {
    seq(|c.exps|, ch requires 0 <= ch < |c.exps| =>
      Baps(PaddedRow(c.exps[ch], c.ncoefs[ch]), c.ncoefs[ch], CodedParams(fmt.fscod, fmt.half, c.codes),
           c.gains.fgaincod[ch], DecoderOffset(c.gains.csnroffst, c.gains.fsnroffst[ch])))
  }

  lemma {:induction false} FlatRange(rows: seq<seq<nat>>)
    requires forall ch, k :: 0 <= ch < |rows| && 0 <= k < |rows[ch]| ==> rows[ch][k] <= 15
    ensures forall i :: 0 <= i < |Flat(rows)| ==> Flat(rows)[i] <= 15
  {
    if rows != [] {
      var n := |rows| - 1;
      FlatRange(rows[..n]);
      assert forall k :: 0 <= k < |rows[n]| ==> rows[n][k] <= 15;
    }
  }

  /** One block: its tools, exponents, pointers and mantissa values. */
  datatype BlockData = BlockData(tools: Tools, exps: seq<seq<int>>, baps: seq<seq<nat>>, values: seq<int>)

  function ReadMantissas(fmt: Format, tools: Tools, c: Carry, bits: seq<bool>): Parsed<BlockData>
  {
    if !Usable(fmt, c) then Bad
    else
      var baps := DecoderBaps(fmt, c);
      FlatRange(baps);
      match Decode(Flat(baps), bits, Pending([], [], []))
      case Decoded(values, rest) => Ok(BlockData(tools, c.exps, baps, values), rest)
      case OutOfBits => Bad
  }

  function ReadBlock(fmt: Format, c: Carry, bits: seq<bool>): Parsed<(BlockData, Carry)>
  {
    var start :- ReadStart(fmt, c.rematflg, bits);
    var carry :- ReadSide(fmt, c, start.0.0.rematflg, start.0.1, start.1);
    var data :- ReadMantissas(fmt, start.0.0, carry.0, carry.1);
    Ok((data.0, carry.0), data.1)
  }

  /** The first n blocks of a frame. */
  function ReadBlocks(fmt: Format, n: nat, bits: seq<bool>): Parsed<(seq<BlockData>, Carry)>
  {
    if n == 0 then Ok(([], FirstCarry(fmt)), bits)
    else
      var t :- ReadBlocks(fmt, n - 1, bits);
      var x :- ReadBlock(fmt, t.0.1, t.1);
      Ok((t.0.0 + [x.0.0], x.0.1), x.1)
  }

  function SideTools(s: Side, b: nat): Tools
    requires b < |s.blksw| && b < |s.dithflag| && b < |s.dynrng|
  {
    ToolsOf(s.cfg, s.blksw[b], s.dithflag[b], s.dynrng[b], s.rematflg)
  }

  /** What the encoder put into block b. */
  ghost function Sent(s: Side, f: FrameIn, pos: int, items: seq<Item>, b: nat): BlockData
    requires s.Valid() && f.Valid() && b < 6
  {
    BlockData(SideTools(s, b), ExponentsOf(s, b), BlockRows(f, b, pos), Values(items))
  }

  /** The allocation the frame was written with: parameters from the codes, and the position in the two offset codes,
      as far as six and four bits hold it. */
  ghost predicate SameAllocation(s: Side, f: FrameIn, pos: int)
    requires s.Valid()
  {
    s.codes.Valid() && f.Valid() && f.channels == s.channels && f.p == LoadParams(s.cfg, s.codes) &&
    s.csnroffst == pos / 16 % 64 && s.fsnroffst == pos % 16
  }

  /** The position the two codes stand for. */
  function CodedPos(pos: int): nat { pos % 1024 }

  lemma CodedPosIs(pos: int)
    ensures DecoderOffset(pos / 16 % 64, pos % 16) == SnrOffset(CodedPos(pos))
    ensures 0 <= pos <= 1023 ==> CodedPos(pos) == pos
  {
    DecoderOffsetIs(pos % 1024);
    PosParts(pos, pos / 1024, pos % 1024);
  }

  lemma PosParts(pos: int, q: int, r: nat)
    requires pos == 1024 * q + r && r < 1024
    ensures pos / 16 % 64 == r / 16 && pos % 16 == r % 16
  {
    DivisionUnique(pos, 16, 64 * q + r / 16, r % 16);
    DivisionUnique(64 * q + r / 16, 64, q, r / 16);
  }

  /** Block b has the same pointers at the coded position. */
  ghost predicate SameRows(f: FrameIn, pos: int, b: nat)
    requires f.Valid() && b < 6
  {
    BlockRows(f, b, pos) == BlockRows(f, b, CodedPos(pos))
  }

  lemma RowBack(c: Channel, b: nat, p: Params, fgaincod: nat, offset: int)
    requires c.Valid() && b < 6 && p.Valid()
    ensures GoodExponents(Used(c, b), c.ncoefs)
    ensures Baps(PaddedRow(Used(c, b), c.ncoefs), c.ncoefs, p, fgaincod, offset) ==
      Baps(c.exp[b], c.ncoefs, p, fgaincod, offset)
  {
    assert ValidRow(c.exp[b], c.ncoefs);
    var r := PaddedRow(Used(c, b), c.ncoefs);
    assert r[..c.ncoefs] == c.exp[b][..c.ncoefs];
    BapsSame(r, c.exp[b], c.ncoefs, p, fgaincod, offset);
  }

  lemma UsableAfter(s: Side, b: nat)
    requires s.Valid() && s.GainsRight() && s.codes.Valid() && b < 6
    ensures Usable(FormatOf(s.cfg), CarryAfter(s, b))
  {
    GainCodes(s, b);
    forall ch | 0 <= ch < |s.channels|
      ensures GoodExponents(ExponentsOf(s, b)[ch], s.channels[ch].ncoefs)
    {
      RowBack(s.channels[ch], b, LoadParams(s.cfg, s.codes), 0, 0);
    }
    hide GoodExponents, Used;
  }

  /** The decoder's pointers are those of the coded position. */
  lemma BapsBack(s: Side, f: FrameIn, pos: int, b: nat)
    requires s.Valid() && s.GainsRight() && SameAllocation(s, f, pos) && b < 6
    ensures Usable(FormatOf(s.cfg), CarryAfter(s, b))
    ensures DecoderBaps(FormatOf(s.cfg), CarryAfter(s, b)) == BlockRows(f, b, CodedPos(pos))
  {
    UsableAfter(s, b);
    GainCodes(s, b);
    CodedPosIs(pos);
    var at := CodedPos(pos);
    hide CodedPos;
    var d, r := DecoderBaps(FormatOf(s.cfg), CarryAfter(s, b)), BlockRows(f, b, at);
    forall ch | 0 <= ch < |s.channels|
      ensures d[ch] == r[ch]
    {
      RowBack(s.channels[ch], b, f.p, s.fgaincod[b][ch], SnrOffset(at));
    }
  }

  /** The mantissas of a block, from the words the encoder wrote. */
  lemma MantissasBack(s: Side, f: FrameIn, pos: int, bap: seq<seq<seq<Byte>>>, q: seq<seq<seq<Half>>>,
                      items: seq<seq<seq<Item>>>, b: nat, rest: seq<bool>)
    requires Encoded(s, f, pos, bap, q, items) && SameAllocation(s, f, pos) && b < 6 && SameRows(f, pos, b)
    ensures |bap| == |q| == |items| == 6 && ValidWords(bap[b], q[b], s.channels)
    ensures ReadMantissas(FormatOf(s.cfg), SideTools(s, b), CarryAfter(s, b),
                          Emit(Mantissas(bap[b], q[b], s.channels, |s.channels|)) + rest) ==
      Ok(Sent(s, f, pos, Flat(items[b]), b), rest)
  {
    hide Usable, DecoderBaps, Decode, Emit, BlockRows, SameAllocation, Encoded, HoldItems, Mantissas, Flat, Through,
      EmittedTo, AllInRange, ValidWords, Pointers, GainsAfter, Side.Valid, Values;
    EncodedParts(s, f, pos, bap, q, items, b);
    BapsBack(s, f, pos, b);
    var flat := Flat(items[b]);
    MantissaBits(bap[b], q[b], s.channels, items[b], |items[b]|);
    ThroughAll(items[b]);
    RoundTripOf(flat, Flat(BlockRows(f, b, pos)), rest);
  }

  lemma ThroughAll(rows: seq<seq<Item>>)
    requires AllInRange(Flat(rows))
    ensures Through(rows, |rows|) == EmittedTo(Flat(rows), |Flat(rows)|)
  {
    OffWithin(rows, |rows|);
  }

  lemma RoundTripOf(items: seq<Item>, baps: seq<nat>, rest: seq<bool>)
    requires AllInRange(items) && baps == Pointers(items) && forall i :: 0 <= i < |baps| ==> baps[i] <= 15
    ensures Decode(baps, EmittedTo(items, |items|) + rest, Pending([], [], [])) == Decoded(Values(items), rest)
  {
    hide Decode, EmittedTo, AllInRange;
    MantissaRoundTrip(items, rest);
  }

  /** What Encoded says of one block. */
  lemma EncodedParts(s: Side, f: FrameIn, pos: int, bap: seq<seq<seq<Byte>>>, q: seq<seq<seq<Half>>>,
                     items: seq<seq<seq<Item>>>, b: nat)
    requires Encoded(s, f, pos, bap, q, items) && b < 6
    ensures s.Valid() && s.GainsRight() && f.Valid() && |bap| == |q| == |items| == 6 && |items[b]| == |s.channels|
    ensures ValidWords(bap[b], q[b], s.channels) && HoldItems(bap[b], q[b], s.channels, items[b])
    ensures AllInRange(Flat(items[b])) && Pointers(Flat(items[b])) == Flat(BlockRows(f, b, pos))
    ensures forall i :: 0 <= i < |Flat(BlockRows(f, b, pos))| ==> Flat(BlockRows(f, b, pos))[i] <= 15
  {
    var rows, baps := items[b], BlockRows(f, b, pos);
    assert HoldItems(bap[b], q[b], s.channels, rows);
    forall ch | 0 <= ch < |rows|
      ensures Pointers(rows[ch]) == baps[ch]
    {
      assert AllocatedRow(bap[b][ch], f.channels[ch], f.p, b, pos);
      assert bap[b][ch][..s.channels[ch].ncoefs] == baps[ch];
    }
    BapsOfRows(rows, baps);
    FlatRange(baps);
    hide Flat, Laid, AllInRange, Baps, Codes;
  }

  lemma SideSplits(s: Side, b: nat, rest: seq<bool>)
    requires s.Valid() && b < 6
    ensures Emit(BlockSide(s, b)) + rest == Emit(StartFields(s, b)) + (Emit(RestFields(s, b)) + rest)
  {
    Lengths(s, b);
    hide Emit, Switches, Dynamics, Coupling, Rematrixing, Strategies, Bandwidths, Exponents, Parameters, Snr,
      Side.Valid;
    var a, w, x, p, n, z := StartFields(s, b), Bandwidths(s, b, s.cfg.Channels()), Exponents(s, b, |s.channels|),
      Parameters(s, b), Snr(s, b), [Field(1, 0), Field(1, 0)];
    Regroup(a, w + x + p + n, z);
    Regroup(a, w + x + p, n);
    Regroup(a, w + x, p);
    Regroup(a, w, x);
    assert BlockSide(s, b) == a + RestFields(s, b);
    Later(a, RestFields(s, b), rest);
  }

  /** The side information of a block read back, down to its mantissas. */
  lemma BlockSideBack(s: Side, b: nat, c: Carry, m: seq<bool>)
    requires Writable(s) && b < 6 && InStepBefore(s, b, c)
    ensures ReadBlock(FormatOf(s.cfg), c, Emit(BlockSide(s, b)) + m) ==
      match ReadMantissas(FormatOf(s.cfg), SideTools(s, b), CarryAfter(s, b), m)
      case Ok(data, rest) => Ok((data, CarryAfter(s, b)), rest)
      case Bad => Bad
  {
    hide Emit, Writable, InStepBefore, BlockSide, ReadStart, ReadSide, ReadMantissas, StartFields, RestFields,
      CarryAfter, StrategyOf, Side.Valid, FlagsOf;
    WritableParts(s, b);
    Lengths(s, b);
    StepCounts(s, b, c);
    SideSplits(s, b, m);
    StartBack(s, b, c.rematflg, Emit(RestFields(s, b)) + m);
    RestBack(s, b, c, m);
  }

  /** A block read back: the decoder is in step afterwards, and if its pointers are the encoder's, it has what the
      encoder put in. */
  lemma BlockBack(s: Side, f: FrameIn, pos: int, bap: seq<seq<seq<Byte>>>, q: seq<seq<seq<Half>>>,
                  items: seq<seq<seq<Item>>>, b: nat, c: Carry, rest: seq<bool>)
    requires Encoded(s, f, pos, bap, q, items) && SameAllocation(s, f, pos) && Writable(s) && b < 6 &&
      InStepBefore(s, b, c)
    ensures |bap| == |q| == |items| == 6 && ValidWords(bap[b], q[b], s.channels)
    ensures var p := ReadBlock(FormatOf(s.cfg), c,
                               Emit(BlockSide(s, b) + Mantissas(bap[b], q[b], s.channels, |s.channels|)) + rest);
      (SameRows(f, pos, b) ==> p == Ok((Sent(s, f, pos, Flat(items[b]), b), CarryAfter(s, b)), rest)) &&
      (p.Ok? && p.value.0.baps == BlockRows(f, b, pos) ==> SameRows(f, pos, b))
  {
    hide Emit, Encoded, SameAllocation, Writable, InStepBefore, BlockSide, Mantissas, ReadBlock, CarryAfter, Flat,
      ValidWords, SideTools, Usable, DecoderBaps, ExponentsOf, Values;
    EncodedParts(s, f, pos, bap, q, items, b);
    WritableParts(s, b);
    Lengths(s, b);
    Later(BlockSide(s, b), Mantissas(bap[b], q[b], s.channels, |s.channels|), rest);
    BlockSideBack(s, b, c, Emit(Mantissas(bap[b], q[b], s.channels, |s.channels|)) + rest);
    BapsBack(s, f, pos, b);
    if SameRows(f, pos, b) { MantissasBack(s, f, pos, bap, q, items, b, rest); }
  }

  lemma WritableParts(s: Side, b: nat)
    requires Writable(s) && b < 6
    ensures s.Valid() && WritableBlock(s, b) && Flags(s.rematflg) && CountsRight(s)
    ensures b < |s.blksw| && b < |s.dithflag| && b < |s.dynrng|
  {
  }

  /** The audio blocks below n. */
  ghost function AudioFields(s: Side, bap: seq<seq<seq<Byte>>>, q: seq<seq<seq<Half>>>, n: nat): seq<Field>
    requires s.Valid() && ValidFrameWords(s, bap, q) && n <= 6
  {
    if n == 0 then []
    else
      AudioFields(s, bap, q, n - 1) +
      (BlockSide(s, n - 1) + Mantissas(bap[n - 1], q[n - 1], s.channels, |s.channels|))
  }

  lemma {:induction false} HeaderFirst(s: Side, bap: seq<seq<seq<Byte>>>, q: seq<seq<seq<Half>>>, n: nat)
    requires s.Valid() && ValidFrameWords(s, bap, q) && n <= 6
    ensures FrameFields(s, bap, q, n) == Header(s) + AudioFields(s, bap, q, n)
  {
    hide Header, BlockSide, Mantissas, Side.Valid, ValidFrameWords;
    if n > 0 {
      HeaderFirst(s, bap, q, n - 1);
      Words(s, bap, q, n - 1);
      var side, mant := BlockSide(s, n - 1), Mantissas(bap[n - 1], q[n - 1], s.channels, |s.channels|);
      Regroup(FrameFields(s, bap, q, n - 1), side, mant);
      Regroup(Header(s), AudioFields(s, bap, q, n - 1), side + mant);
    }
  }

  lemma Words(s: Side, bap: seq<seq<seq<Byte>>>, q: seq<seq<seq<Half>>>, b: nat)
    requires ValidFrameWords(s, bap, q) && b < 6
    ensures |bap| == |q| == 6 && ValidWords(bap[b], q[b], s.channels)
  {
  }

  /** What the encoder put into the first n blocks. */
  ghost function AllSent(s: Side, f: FrameIn, pos: int, items: seq<seq<seq<Item>>>, n: nat): (r: seq<BlockData>)
    requires s.Valid() && f.Valid() && |items| == 6 && n <= 6
    ensures |r| == n
  {
    if n == 0 then [] else AllSent(s, f, pos, items, n - 1) + [Sent(s, f, pos, Flat(items[n - 1]), n - 1)]
  }

  /** The first n blocks have the same pointers at the coded position. */
  ghost predicate SameTo(f: FrameIn, pos: int, n: nat)
    requires f.Valid() && n <= 6
  {
    forall b :: 0 <= b < n ==> SameRows(f, pos, b)
  }

  lemma {:induction false} BlocksBack(s: Side, f: FrameIn, pos: int, bap: seq<seq<seq<Byte>>>, q: seq<seq<seq<Half>>>,
                                      items: seq<seq<seq<Item>>>, n: nat, rest: seq<bool>)
    requires Encoded(s, f, pos, bap, q, items) && SameAllocation(s, f, pos) && Writable(s) && ValidFrameWords(s, bap, q)
    requires n <= 6 && f.Valid() && SameTo(f, pos, n)
    ensures s.Valid() && |items| == 6
    ensures var p := ReadBlocks(FormatOf(s.cfg), n, Emit(AudioFields(s, bap, q, n)) + rest);
      p.Ok? && p.rest == rest && p.value.0 == AllSent(s, f, pos, items, n) && (n < 6 ==> InStepBefore(s, n, p.value.1))
  {
    hide Emit, Encoded, SameAllocation, Writable, ValidFrameWords, BlockSide, Mantissas, ReadBlock, Side.Valid,
      CarryAfter, Sent, FirstCarry, FrameIn.Valid, SameRows;
    EncodedParts(s, f, pos, bap, q, items, 0);
    if n == 0 {
      NothingLater(rest);
    } else {
      var b := n - 1;
      Words(s, bap, q, b);
      var fs := BlockSide(s, b) + Mantissas(bap[b], q[b], s.channels, |s.channels|);
      BlocksBack(s, f, pos, bap, q, items, b, Emit(fs) + rest);
      Later(AudioFields(s, bap, q, b), fs, rest);
      var t := ReadBlocks(FormatOf(s.cfg), b, Emit(AudioFields(s, bap, q, n)) + rest);
      BlockBack(s, f, pos, bap, q, items, b, t.value.1, rest);
    }
  }

  /** The first n blocks are a prefix of all of them. */
  lemma {:induction false} AudioPrefix(s: Side, bap: seq<seq<seq<Byte>>>, q: seq<seq<seq<Half>>>, n: nat, m: nat,
                                       rest: seq<bool>) returns (more: seq<bool>)
    requires s.Valid() && ValidFrameWords(s, bap, q) && n <= m <= 6
    ensures Emit(AudioFields(s, bap, q, m)) + rest == Emit(AudioFields(s, bap, q, n)) + more
    decreases m - n
  {
    hide Emit, ValidFrameWords, BlockSide, Mantissas, Side.Valid;
    if n == m {
      more := rest;
    } else {
      Words(s, bap, q, m - 1);
      var fs := BlockSide(s, m - 1) + Mantissas(bap[m - 1], q[m - 1], s.channels, |s.channels|);
      more := AudioPrefix(s, bap, q, n, m - 1, Emit(fs) + rest);
      Later(AudioFields(s, bap, q, m - 1), fs, rest);
    }
  }

  /** Reading more blocks reads the first ones first. */
  lemma {:induction false} BlocksPrefix(fmt: Format, n: nat, m: nat, bits: seq<bool>)
    requires n <= m && ReadBlocks(fmt, m, bits).Ok?
    ensures ReadBlocks(fmt, n, bits).Ok? && |ReadBlocks(fmt, m, bits).value.0| == m
    ensures ReadBlocks(fmt, n, bits).value.0 == ReadBlocks(fmt, m, bits).value.0[..n]
    decreases m
  {
    hide ReadBlock;
    if m > 0 {
      BlocksPrefix(fmt, if n < m then n else m - 1, m - 1, bits);
    }
  }

  /** If the blocks come out as they were sent, the pointers of the next block are those of the coded position too. */
  lemma NextRows(s: Side, f: FrameIn, pos: int, bap: seq<seq<seq<Byte>>>, q: seq<seq<seq<Half>>>,
                 items: seq<seq<seq<Item>>>, n: nat, rest: seq<bool>)
    requires Encoded(s, f, pos, bap, q, items) && SameAllocation(s, f, pos) && Writable(s) && ValidFrameWords(s, bap, q)
    requires s.Valid() && f.Valid() && |items| == 6 && n < 6 && SameTo(f, pos, n)
    requires var p := ReadBlocks(FormatOf(s.cfg), 6, Emit(AudioFields(s, bap, q, 6)) + rest);
      p.Ok? && p.value.0 == AllSent(s, f, pos, items, 6)
    ensures SameRows(f, pos, n)
  {
    hide Emit, Encoded, SameAllocation, Writable, ValidFrameWords, BlockSide, Mantissas, ReadBlock, Side.Valid,
      CarryAfter, FirstCarry, FrameIn.Valid, SameRows, InStepBefore, AudioFields, AllSent, Sent, BlockRows;
    var fmt, all := FormatOf(s.cfg), Emit(AudioFields(s, bap, q, 6)) + rest;
    Words(s, bap, q, n);
    var fs := BlockSide(s, n) + Mantissas(bap[n], q[n], s.channels, |s.channels|);
    var more := AudioPrefix(s, bap, q, n + 1, 6, rest);
    AudioStep(s, bap, q, n);
    Later(AudioFields(s, bap, q, n), fs, more);
    BlocksBack(s, f, pos, bap, q, items, n, Emit(fs) + more);
    BlocksPrefix(fmt, n + 1, 6, all);
    BlockBack(s, f, pos, bap, q, items, n, ReadBlocks(fmt, n, all).value.1, more);
    SentAt(s, f, pos, items, 6, n);
  }

  lemma AudioStep(s: Side, bap: seq<seq<seq<Byte>>>, q: seq<seq<seq<Half>>>, n: nat)
    requires s.Valid() && ValidFrameWords(s, bap, q) && n < 6
    ensures |bap| == |q| == 6 && ValidWords(bap[n], q[n], s.channels)
    ensures AudioFields(s, bap, q, n + 1) ==
      AudioFields(s, bap, q, n) + (BlockSide(s, n) + Mantissas(bap[n], q[n], s.channels, |s.channels|))
  {
    hide BlockSide, Mantissas, Side.Valid, ValidWords;
  }

  lemma {:induction false} SentAt(s: Side, f: FrameIn, pos: int, items: seq<seq<seq<Item>>>, n: nat, b: nat)
    requires s.Valid() && f.Valid() && |items| == 6 && b < n <= 6
    ensures AllSent(s, f, pos, items, n)[b].baps == BlockRows(f, b, pos)
  {
    hide Side.Valid, FrameIn.Valid, BlockRows, ExponentsOf, SideTools, Values;
    if b < n - 1 { SentAt(s, f, pos, items, n - 1, b); }
  }

  /** All six blocks come out as they were sent exactly when each has the same pointers at the coded position. */
  lemma AllBlocksBack(s: Side, f: FrameIn, pos: int, bap: seq<seq<seq<Byte>>>, q: seq<seq<seq<Half>>>,
                      items: seq<seq<seq<Item>>>, rest: seq<bool>)
    requires Encoded(s, f, pos, bap, q, items) && SameAllocation(s, f, pos) && Writable(s) && ValidFrameWords(s, bap, q)
    requires s.Valid() && f.Valid() && |items| == 6
    ensures var p := ReadBlocks(FormatOf(s.cfg), 6, Emit(AudioFields(s, bap, q, 6)) + rest);
      p.Ok? && p.value.0 == AllSent(s, f, pos, items, 6) <==> SameTo(f, pos, 6)
  {
    hide Emit, Encoded, SameAllocation, Writable, ValidFrameWords, Side.Valid, FrameIn.Valid, SameRows, AudioFields,
      AllSent, ReadBlocks, FormatOf, InStepBefore;
    if SameTo(f, pos, 6) {
      BlocksBack(s, f, pos, bap, q, items, 6, rest);
    } else {
      var b := FirstOther(f, pos, 6);
      var p := ReadBlocks(FormatOf(s.cfg), 6, Emit(AudioFields(s, bap, q, 6)) + rest);
      if p.Ok? && p.value.0 == AllSent(s, f, pos, items, 6) { NextRows(s, f, pos, bap, q, items, b, rest); }
    }
  }

  lemma {:induction false} FirstOther(f: FrameIn, pos: int, n: nat) returns (b: nat)
    requires f.Valid() && n <= 6 && !SameTo(f, pos, n)
    ensures b < n && SameTo(f, pos, b) && !SameRows(f, pos, b)
  {
    hide FrameIn.Valid, SameRows;
    if SameTo(f, pos, n - 1) { b := n - 1; } else { b := FirstOther(f, pos, n - 1); }
  }

  // ---------- the header and the whole frame ----------

  function ReadIf(on: bool, widths: seq<nat>, bits: seq<bool>): Parsed<seq<nat>>
  {
    if on then ReadFields(widths, bits) else Ok([], bits)
  }

  predicate AllZero(v: seq<nat>) { forall i :: 0 <= i < |v| ==> v[i] == 0 }

  /** The rest of the header: frame size code, service, the words sent for mix levels and dialogue normalisation, the
      copyright and original bits, and extra information. */
  datatype Info = Info(sizeCode: nat, bsmod: nat, mix: seq<nat>, dialnorm: seq<nat>, copyright: nat, original: nat,
                       extra: seq<nat>)

  /** Sync word, checksum, rates, identification: returns fscod, frame size code, bsid, bsmod and acmod. */
  function ReadSync(bits: seq<bool>): Parsed<(nat, nat, nat, nat, nat)>
  {
    var f :- ReadFields([16, 16, 2, 6, 5, 3, 3], bits);
    if |f.0| == 7 && f.0[0] == 0x0B77 && f.0[2] < 3 && (f.0[4] == 6 || 8 <= f.0[4] <= 10)
    then Ok((f.0[2], f.0[3], f.0[4], f.0[5], f.0[6]), f.1)
    else Bad
  }

  function ReadMix(acmod: nat, bits: seq<bool>): Parsed<seq<nat>>
  {
    var centre :- ReadIf(acmod % 2 == 1 && acmod != 1, [2], bits);
    var surround :- ReadIf(acmod >= 4, [2], centre.1);
    var dolby :- ReadIf(acmod == 2, [2], surround.1);
    Ok(centre.0 + surround.0 + dolby.0, dolby.1)
  }

  /** Program information; the optional words are never present. Returns lfeon, dialogue normalisation, and the
      copyright and original bits. */
  function ReadProgram(acmod: nat, bits: seq<bool>): Parsed<(nat, seq<nat>, nat, nat)>
  {
    var p :- ReadFields([1, 5, 1, 1, 1], bits);
    var d :- ReadIf(acmod == 0, [5, 1, 1, 1], p.1);
    var o :- ReadFields([1, 1], d.1);
    if |p.0| == 5 && |o.0| == 2 && AllZero(p.0[2..]) && (|d.0| > 0 ==> AllZero(d.0[1..]))
    then Ok((p.0[0], [p.0[1]] + (if d.0 == [] then [] else [d.0[0]]), o.0[0], o.0[1]), o.1)
    else Bad
  }

  /** The alternate syntax of bsid 6, or the absence of time codes; and no additional information. */
  function ReadExtra(bsid: nat, bits: seq<bool>): Parsed<seq<nat>>
  {
    var x :- Read(1, bits);
    var a :- ReadIf(bsid == 6 && x.0 == 1, [2, 3, 3, 3, 3], x.1);
    var y :- Read(1, a.1);
    var b :- ReadIf(bsid == 6 && y.0 == 1, [2, 2, 1, 9], y.1);
    var z :- Read(1, b.1);
    if (bsid != 6 ==> x.0 == 0 && y.0 == 0) && z.0 == 0 then Ok(a.0 + b.0, z.1) else Bad
  }

  function ReadHeader(bits: seq<bool>): Parsed<(Format, Info)>
  {
    var sync :- ReadSync(bits);
    var (fscod, sizeCode, bsid, bsmod, acmod) := sync.0;
    var mix :- ReadMix(acmod, sync.1);
    var program :- ReadProgram(acmod, mix.1);
    var extra :- ReadExtra(bsid, program.1);
    Ok((Format(acmod, program.0.0 == 1, fscod, if bsid > 8 then bsid - 8 else 0),
        Info(sizeCode, bsmod, mix.0, program.0.1, program.0.2, program.0.3, extra.0)), extra.1)
  }

  datatype FrameData = FrameData(format: Format, info: Info, blocks: seq<BlockData>)

  function ReadFrame(bits: seq<bool>): Parsed<FrameData>
  {
    var h :- ReadHeader(bits);
    var b :- ReadBlocks(h.0.0, 6, h.1);
    Ok(FrameData(h.0.0, h.0.1, b.0.0), b.1)
  }

  function IfSent(on: bool, v: seq<nat>): seq<nat> { if on then v else [] }

  function MixOf(cfg: Config, m: Meta): seq<nat>
  {
    IfSent(cfg.acmod % 2 == 1 && cfg.acmod != 1, [m.cmixlev]) + IfSent(cfg.acmod >= 4, [m.surmixlev]) +
    IfSent(cfg.acmod == 2, [m.dsurmod])
  }

  function ExtraOf(cfg: Config, m: Meta): seq<nat>
  {
    IfSent(Bsid(cfg) == 6 && cfg.xbsi1e, [m.dmixmod, m.ltrtcmixlev, m.ltrtsmixlev, m.lorocmixlev, m.lorosmixlev]) +
    IfSent(Bsid(cfg) == 6 && cfg.xbsi2e, [m.dsurexmod, m.dheadphonmod, m.adconvtyp, 0])
  }

  /** What the header tells of the encoder's settings: every frame is an original without copyright. */
  function InfoOf(cfg: Config, m: Meta, sizeCode: nat): Info
  {
    Info(sizeCode, m.bsmod, MixOf(cfg, m), [m.dialnorm] + IfSent(cfg.acmod == 0, [m.dialnorm]), 0, 1,
         ExtraOf(cfg, m))
  }

  /** The header with a checksum in place of the zeros it is first written with. */
  function HeaderWith(s: Side, crc1: nat): seq<Field>
  {
    [Field(16, 0x0B77), Field(16, crc1), Field(2, s.cfg.fscod), Field(6, s.sizeCode), Field(5, Bsid(s.cfg)),
     Field(3, s.meta.bsmod), Field(3, s.cfg.acmod)] + HeaderMix(s) + HeaderProgram(s) + HeaderExtra(s)
  }

  /** Metadata that fits its fields. */
  predicate MetaFits(m: Meta)
  {
    m.bsmod < 8 && m.cmixlev < 4 && m.surmixlev < 4 && m.dsurmod < 4 &&
    m.dialnorm < 32 && m.dmixmod < 4 && m.ltrtcmixlev < 8 && m.ltrtsmixlev < 8 && m.lorocmixlev < 8 &&
    m.lorosmixlev < 8 && m.dsurexmod < 4 && m.dheadphonmod < 4 && m.adconvtyp < 2
  }

  ghost predicate HeaderFits(s: Side)
  {
    s.cfg.Valid() && s.sizeCode < 64 && MetaFits(s.meta)
  }

  lemma MorePowers()
    ensures Pow2(5) == 32 && Pow2(9) == 512 && Pow2(16) == 0x1_0000
  {
    Pow2Values();
    assert Pow2(9) == 2 * Pow2(8);
  }

  lemma SyncBack(s: Side, crc1: nat, rest: seq<bool>)
    requires HeaderFits(s) && crc1 < 0x1_0000
    ensures ReadSync(Emit([Field(16, 0x0B77), Field(16, crc1), Field(2, s.cfg.fscod), Field(6, s.sizeCode),
                           Field(5, Bsid(s.cfg)), Field(3, s.meta.bsmod), Field(3, s.cfg.acmod)]) + rest) ==
      Ok((s.cfg.fscod, s.sizeCode, Bsid(s.cfg), s.meta.bsmod, s.cfg.acmod), rest)
  {
    hide ReadFields, Emit, Pow2;
    SmallPowers();
    MorePowers();
    var fs := [Field(16, 0x0B77), Field(16, crc1), Field(2, s.cfg.fscod), Field(6, s.sizeCode), Field(5, Bsid(s.cfg)),
               Field(3, s.meta.bsmod), Field(3, s.cfg.acmod)];
    ReadAll(fs, rest);
    assert Widths(fs) == [16, 16, 2, 6, 5, 3, 3];
  }

  /** An optional stretch of fields. */
  lemma IfBack(on: bool, fs: seq<Field>, widths: seq<nat>, rest: seq<bool>)
    requires Fits(fs) && widths == Widths(fs)
    ensures ReadIf(on, widths, Emit(If(on, fs)) + rest) == Ok(if on then Vals(fs) else [], rest)
  {
    hide ReadFields, Emit, Pow2;
    ReadAll(fs, rest);
    NothingLater(rest);
  }

  lemma MixBack(s: Side, rest: seq<bool>)
    requires HeaderFits(s)
    ensures ReadMix(s.cfg.acmod, Emit(HeaderMix(s)) + rest) == Ok(MixOf(s.cfg, s.meta), rest)
  {
    hide ReadIf, Emit, Pow2;
    SmallPowers();
    var x, y, z := [Field(2, s.meta.cmixlev)], [Field(2, s.meta.surmixlev)], [Field(2, s.meta.dsurmod)];
    var a, b, c := If(s.cfg.acmod % 2 == 1 && s.cfg.acmod != 1, x), If(s.cfg.acmod >= 4, y), If(s.cfg.acmod == 2, z);
    Later(a + b, c, rest);
    Later(a, b, Emit(c) + rest);
    assert Widths(x) == Widths(y) == Widths(z) == [2];
    assert Vals(x) == [s.meta.cmixlev] && Vals(y) == [s.meta.surmixlev] && Vals(z) == [s.meta.dsurmod];
    IfBack(s.cfg.acmod % 2 == 1 && s.cfg.acmod != 1, x, [2], Emit(b) + (Emit(c) + rest));
    IfBack(s.cfg.acmod >= 4, y, [2], Emit(c) + rest);
    IfBack(s.cfg.acmod == 2, z, [2], rest);
  }

  lemma ProgramBack(s: Side, rest: seq<bool>)
    requires HeaderFits(s)
    ensures ReadProgram(s.cfg.acmod, Emit(HeaderProgram(s)) + rest) ==
      Ok((B2N(s.cfg.lfe), [s.meta.dialnorm] + IfSent(s.cfg.acmod == 0, [s.meta.dialnorm]), 0, 1), rest)
  {
    hide ReadIf, ReadFields, Emit, Pow2;
    SmallPowers();
    MorePowers();
    var x := [Field(1, B2N(s.cfg.lfe)), Field(5, s.meta.dialnorm), Field(1, 0), Field(1, 0), Field(1, 0)];
    var y := [Field(5, s.meta.dialnorm), Field(1, 0), Field(1, 0), Field(1, 0)];
    var z := [Field(1, 0), Field(1, 1)];
    var d := If(s.cfg.acmod == 0, y);
    Later(x + d, z, rest);
    Later(x, d, Emit(z) + rest);
    assert Widths(x) == [1, 5, 1, 1, 1] && Widths(y) == [5, 1, 1, 1] && Widths(z) == [1, 1];
    ReadAll(x, Emit(d) + (Emit(z) + rest));
    IfBack(s.cfg.acmod == 0, y, [5, 1, 1, 1], Emit(z) + rest);
    ReadAll(z, rest);
  }

  lemma ExtraBack(s: Side, rest: seq<bool>)
    requires HeaderFits(s)
    ensures ReadExtra(Bsid(s.cfg), Emit(HeaderExtra(s)) + rest) == Ok(ExtraOf(s.cfg, s.meta), rest)
  {
    hide Read, ReadIf, Emit, Pow2, Bsid;
    SmallPowers();
    MorePowers();
    var six := Bsid(s.cfg) == 6;
    var u, v := six && s.cfg.xbsi1e, six && s.cfg.xbsi2e;
    var x := [Field(2, s.meta.dmixmod), Field(3, s.meta.ltrtcmixlev), Field(3, s.meta.ltrtsmixlev),
              Field(3, s.meta.lorocmixlev), Field(3, s.meta.lorosmixlev)];
    var y := [Field(2, s.meta.dsurexmod), Field(2, s.meta.dheadphonmod), Field(1, s.meta.adconvtyp), Field(9, 0)];
    var a, b, z := [Field(1, B2N(u))], [Field(1, B2N(v))], [Field(1, 0)];
    ExtraIs(s, a, x, b, y, z);
    LaterFive(a, If(u, x), b, If(v, y), z, rest);
    assert Widths(x) == [2, 3, 3, 3, 3] && Widths(y) == [2, 2, 1, 9];
    assert Vals(x) == [s.meta.dmixmod, s.meta.ltrtcmixlev, s.meta.ltrtsmixlev, s.meta.lorocmixlev, s.meta.lorosmixlev];
    assert Vals(y) == [s.meta.dsurexmod, s.meta.dheadphonmod, s.meta.adconvtyp, 0];
    var w := Emit(z) + rest;
    ReadField(1, B2N(u), Emit(If(u, x)) + (Emit(b) + (Emit(If(v, y)) + w)));
    IfBack(u, x, [2, 3, 3, 3, 3], Emit(b) + (Emit(If(v, y)) + w));
    ReadField(1, B2N(v), Emit(If(v, y)) + w);
    IfBack(v, y, [2, 2, 1, 9], w);
    ReadField(1, 0, rest);
  }

  /** The three shapes of the extra information in one. */
  lemma ExtraIs(s: Side, a: seq<Field>, x: seq<Field>, b: seq<Field>, y: seq<Field>, z: seq<Field>)
    requires x == [Field(2, s.meta.dmixmod), Field(3, s.meta.ltrtcmixlev), Field(3, s.meta.ltrtsmixlev),
                   Field(3, s.meta.lorocmixlev), Field(3, s.meta.lorosmixlev)]
    requires y == [Field(2, s.meta.dsurexmod), Field(2, s.meta.dheadphonmod), Field(1, s.meta.adconvtyp), Field(9, 0)]
    requires a == [Field(1, B2N(Bsid(s.cfg) == 6 && s.cfg.xbsi1e))] &&
      b == [Field(1, B2N(Bsid(s.cfg) == 6 && s.cfg.xbsi2e))]
    requires z == [Field(1, 0)]
    ensures HeaderExtra(s) ==
      a + If(Bsid(s.cfg) == 6 && s.cfg.xbsi1e, x) + b + If(Bsid(s.cfg) == 6 && s.cfg.xbsi2e, y) + z
  {
    hide Bsid;
    if Bsid(s.cfg) == 6 {
      Regroup(a + If(s.cfg.xbsi1e, x), b, If(s.cfg.xbsi2e, y));
    } else {
      assert [Field(1, 0), Field(1, 0)] == a + [] + b + [];
    }
  }

  lemma HeaderBack(s: Side, crc1: nat, rest: seq<bool>)
    requires HeaderFits(s) && crc1 < 0x1_0000
    ensures ReadHeader(Emit(HeaderWith(s, crc1)) + rest) ==
      Ok((FormatOf(s.cfg), InfoOf(s.cfg, s.meta, s.sizeCode)), rest)
  {
    hide Emit, ReadSync, ReadMix, ReadProgram, ReadExtra, HeaderMix, HeaderProgram, HeaderExtra, HeaderFits, MixOf,
      ExtraOf, IfSent;
    var sync := [Field(16, 0x0B77), Field(16, crc1), Field(2, s.cfg.fscod), Field(6, s.sizeCode), Field(5, Bsid(s.cfg)),
                 Field(3, s.meta.bsmod), Field(3, s.cfg.acmod)];
    var m, p, e := HeaderMix(s), HeaderProgram(s), HeaderExtra(s);
    Later(sync + m + p, e, rest);
    Later(sync + m, p, Emit(e) + rest);
    Later(sync, m, Emit(p) + (Emit(e) + rest));
    SyncBack(s, crc1, Emit(m) + (Emit(p) + (Emit(e) + rest)));
    MixBack(s, Emit(p) + (Emit(e) + rest));
    ProgramBack(s, Emit(e) + rest);
    ExtraBack(s, rest);
    HalfBack(s);
  }

  lemma HalfBack(s: Side)
    requires HeaderFits(s)
    ensures s.cfg.halfratecod == if Bsid(s.cfg) > 8 then Bsid(s.cfg) - 8 else 0
  {
  }

  /** The header after its checksum. */
  function HeaderTail(s: Side): seq<Field>
  {
    [Field(2, s.cfg.fscod), Field(6, s.sizeCode), Field(5, Bsid(s.cfg)), Field(3, s.meta.bsmod),
     Field(3, s.cfg.acmod)] +
    HeaderMix(s) + HeaderProgram(s) + HeaderExtra(s)
  }

  lemma HeaderParts(s: Side, crc1: nat)
    ensures Emit(HeaderWith(s, crc1)) == Bits(0x0B77, 16) + (Bits(crc1, 16) + Emit(HeaderTail(s)))
    ensures Header(s) == HeaderWith(s, 0)
  {
    hide Emit, Bits, HeaderMix, HeaderProgram, HeaderExtra, Bsid;
    var a, b := [Field(16, 0x0B77)], [Field(16, crc1)];
    var five := [Field(2, s.cfg.fscod), Field(6, s.sizeCode), Field(5, Bsid(s.cfg)), Field(3, s.meta.bsmod),
                 Field(3, s.cfg.acmod)];
    assert a + (b + five) == [Field(16, 0x0B77), Field(16, crc1)] + five;
    Regroup(a + (b + five) + HeaderMix(s), HeaderProgram(s), HeaderExtra(s));
    Regroup(a + (b + five), HeaderMix(s), HeaderProgram(s));
    Regroup(a, b + five, HeaderMix(s));
    Regroup(b, five, HeaderMix(s));
    Regroup(a, b + (five + HeaderMix(s)), HeaderProgram(s));
    Regroup(b, five + HeaderMix(s), HeaderProgram(s));
    Regroup(a, b + (five + HeaderMix(s) + HeaderProgram(s)), HeaderExtra(s));
    Regroup(b, five + HeaderMix(s) + HeaderProgram(s), HeaderExtra(s));
    assert HeaderWith(s, crc1) == a + (b + HeaderTail(s));
    EmitConcat(a, b + HeaderTail(s));
    EmitConcat(b, HeaderTail(s));
    EmitOne(Field(16, 0x0B77));
    EmitOne(Field(16, crc1));
  }

  lemma EmitOne(x: Field)
    ensures Emit([x]) == Bits(x.val, x.bits)
  {
    EmitPush([], x);
    assert [] + [x] == [x];
  }

  /** Two bytes as one number, high byte first. */
  function Word16Of(a: int, b: int): int { 256 * a + b }

  /** Two bytes as one field. */
  lemma WordBits(a: Byte, b: Byte)
    ensures 0 <= Word16Of(a, b) < 0x1_0000 && ByteBits([a, b]) == Bits(Word16Of(a, b), 16)
  {
    hide *;
    Halves(a, b);
    var w: nat := Word16Of(a, b);
    BitIO.ByteOf(w, 8);
    ByteBitsPush([], a);
    ByteBitsPush([a], b);
    NoBytes(a, b);
  }

  lemma Halves(a: Byte, b: Byte)
    ensures 0 <= Word16Of(a, b) < 0x1_0000 && Word16Of(a, b) / 0x100 == a && Word16Of(a, b) % 0x100 == b
  {
  }

  lemma NoBytes(a: Byte, b: Byte)
    ensures ByteBits([]) == [] && [] + [a] == [a] && [a] + [b] == [a, b] && [] + Bits(a, 8) == Bits(a, 8)
  {
    hide Bits;
  }

  /** The bytes of a finished frame: the padded fields with the two checksums set. */
  ghost predicate Finished(bytes: seq<Byte>, w: seq<Field>, fs: nat)
  {
    2 <= fs && |bytes| == 2 * fs && 32 <= Total(w) <= 8 * (2 * fs - 2) &&
    ByteBits(bytes[..2]) == Padded(w, fs)[..16] && ByteBits(bytes[4..2 * fs - 2]) == Padded(w, fs)[32..]
  }

  /** The first checksum as the frame holds it. */
  function StoredCrc1(bytes: seq<Byte>): (c: nat)
    requires |bytes| >= 4
    ensures c < 0x1_0000
  {
    Word16Of(bytes[2], bytes[3])
  }

  lemma CutBytes(bytes: seq<Byte>, n: nat)
    requires 4 <= n <= |bytes|
    ensures bytes[4..] == bytes[4..n] + bytes[n..]
    ensures bytes[2..] == [bytes[2], bytes[3]] + bytes[4..]
    ensures bytes == bytes[..2] + bytes[2..]
  {
  }

  lemma BytesSplit(bytes: seq<Byte>, n: nat)
    requires 4 <= n <= |bytes|
    ensures ByteBits(bytes) == ByteBits(bytes[..2]) +
      (Bits(StoredCrc1(bytes), 16) + (ByteBits(bytes[4..n]) + ByteBits(bytes[n..])))
  {
    hide ByteBits, Bits, Word16Of;
    CutBytes(bytes, n);
    WordBits(bytes[2], bytes[3]);
    ByteBitsConcat(bytes[4..n], bytes[n..]);
    ByteBitsConcat([bytes[2], bytes[3]], bytes[4..]);
    ByteBitsConcat(bytes[..2], bytes[2..]);
  }

  /** A finished frame is its header, with the checksum found in it, then the audio blocks, then bits nobody reads. */
  lemma FrameBitsAre(s: Side, w: seq<Field>, audio: seq<Field>, bytes: seq<Byte>, fs: nat) returns (rest: seq<bool>)
    requires Finished(bytes, w, fs) && w == Header(s) + audio && fs >= 3
    ensures ByteBits(bytes) == Emit(HeaderWith(s, StoredCrc1(bytes))) + (Emit(audio) + rest)
  {
    hide ByteBits, Bits, Emit, HeaderTail, Header, HeaderWith, Total;
    var n, crc1 := |bytes| - 2, StoredCrc1(bytes);
    var zeros := Zeros(8 * (2 * fs - 2) - Total(w));
    rest := zeros + ByteBits(bytes[n..]);
    BytesSplit(bytes, n);
    HeaderParts(s, 0);
    HeaderParts(s, crc1);
    EmitConcat(Header(s), audio);
    var t := Emit(HeaderTail(s));
    var body := t + (Emit(audio) + zeros);
    PadIs(w, fs, Bits(0x0B77, 16), Bits(0, 16), t, Emit(audio), zeros);
    Regroup(Bits(0x0B77, 16), Bits(crc1, 16) + t, Emit(audio) + rest);
    Regroup(Bits(crc1, 16), t, Emit(audio) + rest);
    Regroup(t, Emit(audio) + zeros, ByteBits(bytes[n..]));
    Regroup(Emit(audio), zeros, ByteBits(bytes[n..]));
  }

  lemma PadIs(w: seq<Field>, fs: nat, a: seq<bool>, b: seq<bool>, t: seq<bool>, audio: seq<bool>, zeros: seq<bool>)
    requires 2 <= 2 * fs && Total(w) <= 8 * (2 * fs - 2) && zeros == Zeros(8 * (2 * fs - 2) - Total(w))
    requires |a| == 16 && |b| == 16 && Emit(w) == a + (b + t) + audio
    ensures |Padded(w, fs)| >= 32 && Padded(w, fs)[..16] == a && Padded(w, fs)[32..] == t + (audio + zeros)
  {
    hide Emit, Total, Zeros;
    assert Padded(w, fs) == a + (b + t) + audio + zeros;
    assert a + (b + t) + audio + zeros == a + (b + (t + (audio + zeros)));
  }

  /** What the encoder put into the frame. */
  ghost function FrameSent(s: Side, f: FrameIn, pos: int, items: seq<seq<seq<Item>>>): FrameData
    requires s.Valid() && f.Valid() && |items| == 6
  {
    FrameData(FormatOf(s.cfg), InfoOf(s.cfg, s.meta, s.sizeCode), AllSent(s, f, pos, items, 6))
  }

  /** What a decoder makes of a finished frame: the header's settings and, for all six blocks, exactly the tools,
      exponents, bit allocation pointers and quantised mantissas the encoder had, if and only if the two codes stand
      for a position of the same pointers. */
  lemma FrameRoundTrip(s: Side, f: FrameIn, pos: int, bap: seq<seq<seq<Byte>>>, q: seq<seq<seq<Half>>>,
                       items: seq<seq<seq<Item>>>, fs: nat, bytes: seq<Byte>)
    requires Encoded(s, f, pos, bap, q, items) && SameAllocation(s, f, pos) && Writable(s) && HeaderFits(s)
    requires ValidFrameWords(s, bap, q) && Finished(bytes, FrameFields(s, bap, q, 6), fs) && fs >= 3
    ensures s.Valid() && f.Valid() && |items| == 6
    ensures var p := ReadFrame(ByteBits(bytes));
      p.Ok? && p.value == FrameSent(s, f, pos, items) <==> SameTo(f, pos, 6)
  {
    hide Emit, Bits, ByteBits, Encoded, SameAllocation, Writable, HeaderFits, ValidFrameWords, Finished, ReadHeader,
      ReadBlocks, FrameFields, AudioFields, HeaderWith, Side.Valid, FrameIn.Valid, AllSent, FormatOf, InfoOf, SameTo;
    EncodedParts(s, f, pos, bap, q, items, 0);
    var audio := AudioFields(s, bap, q, 6);
    HeaderFirst(s, bap, q, 6);
    FinishedLength(bytes, FrameFields(s, bap, q, 6), fs);
    var rest := FrameBitsAre(s, FrameFields(s, bap, q, 6), audio, bytes, fs);
    HeaderBack(s, StoredCrc1(bytes), Emit(audio) + rest);
    AllBlocksBack(s, f, pos, bap, q, items, rest);
  }

  lemma FinishedLength(bytes: seq<Byte>, w: seq<Field>, fs: nat)
    requires Finished(bytes, w, fs)
    ensures |bytes| == 2 * fs
  {
  }
}
