/** The bit allocation of one frame as the encoder runs it (bitalloc.c): tables of power spectra, masks and pointers
    filled in place, and searches that leave the frame's fields set. */
module BitAlloc {
  import opened BitStrings
  import opened Tables
  import opened Masking
  import opened MantissaCost
  import opened Allocation
  import opened Search
  import Exponent

  /** The encoder settings the allocation depends on. */
  datatype Config = Config(acmod: nat, lfe: bool, fscod: nat, halfratecod: nat, dynrng: bool, xbsi1e: bool,
                           xbsi2e: bool, vbr: bool, vbrQuality: nat, fast: bool, frmsizecod: nat)
  {
    predicate Valid()
    {
      acmod < 8 && fscod < 3 && halfratecod < 3 && vbrQuality <= 1023 && frmsizecod < 38
    }

    function Channels(): (n: nat)
      ensures 1 <= n <= 5
    {
      ChannelsTab(acmod)
    }

    function AllChannels(): nat { WithLfe(Channels(), lfe) }
  }

  /** Allocation parameter codes of a frame, as its header block transmits them. */
  datatype ParamCodes = ParamCodes(sdecaycod: nat, fdecaycod: nat, sgaincod: nat, dbkneecod: nat, floorcod: nat)
  {
    predicate Valid() { sdecaycod < 4 && fdecaycod < 4 && sgaincod < 4 && dbkneecod < 4 && floorcod < 8 }
  }

  /** The parameters the codes stand for at a sample rate and its reduction. */
  function CodedParams(fscod: nat, half: nat, k: ParamCodes): (p: Params)
    requires fscod < 3 && half < 3 && k.Valid()
    ensures p.Valid()
  {
    ShrBound(SlowDecayTab(k.sdecaycod), half);
    ShrBound(FastDecayTab(k.fdecaycod), half);
    Params(fscod, half, SlowGainTab(k.sgaincod), Shr(SlowDecayTab(k.sdecaycod), half),
           Shr(FastDecayTab(k.fdecaycod), half), DbPerBitTab(k.dbkneecod), FloorTab(k.floorcod))
  }

  /** At a reduced rate both decays lose one bit for each halving, and nothing else changes. */
  lemma ParamsAtRate(fscod: nat, half: nat, k: ParamCodes)
    requires fscod < 3 && half < 3 && k.Valid()
    ensures var p, full := CodedParams(fscod, half, k), CodedParams(fscod, 0, k);
      var times := if half == 0 then 1 else if half == 1 then 2 else 4;
      full.sdecay == SlowDecayTab(k.sdecaycod) && full.fdecay == FastDecayTab(k.fdecaycod) &&
      times * p.sdecay <= full.sdecay < times * p.sdecay + times &&
      times * p.fdecay <= full.fdecay < times * p.fdecay + times &&
      p == full.(halfratecod := half, sdecay := p.sdecay, fdecay := p.fdecay) &&
      full.sgain == SlowGainTab(k.sgaincod) && full.dbknee == DbPerBitTab(k.dbkneecod) &&
      full.floor == FloorTab(k.floorcod) && p.halfratecod == half && full.fscod == fscod
  {
    ShrFew(SlowDecayTab(k.sdecaycod));
    ShrFew(FastDecayTab(k.fdecaycod));
    hide SlowDecayTab, FastDecayTab;
  }

  lemma ShrFew(v: nat)
    ensures Shr(v, 0) == v && Shr(v, 1) == v / 2 && Shr(v, 2) == v / 4
  {
    assert Shr(v, 1) == Shr(v / 2, 0);
    assert Shr(v, 2) == Shr(v / 2, 1) && Shr(v / 2, 1) == Shr(v / 2 / 2, 0);
  }

  function LoadParams(cfg: Config, k: ParamCodes): (p: Params)
    requires cfg.Valid() && k.Valid()
    ensures p.Valid()
  {
    CodedParams(cfg.fscod, cfg.halfratecod, k)
  }

  ghost predicate ValidChannels(cfg: Config, channels: seq<Channel>)
  {
    |channels| == cfg.AllChannels() && forall ch :: 0 <= ch < |channels| ==> channels[ch].Valid()
  }

  // ---------- fast gain codes and when they are transmitted ----------

  predicate NewExponents(c: Channel, b: nat)
    requires b < |c.strategy|
  {
    c.strategy[b] != Exponent.REUSE
  }

  predicate GainChanged(c: Channel, b: nat)
    requires c.Valid() && b < 6
  {
    b == 0 || FgainCod(c, b) != FgainCod(c, b - 1)
  }

  /** Block b carries SNR offsets and fast gain codes: the first one, and every one in which a code changes. */
  ghost predicate WriteSnr(channels: seq<Channel>, b: nat)
    requires b < 6 && forall ch :: 0 <= ch < |channels| ==> channels[ch].Valid()
  {
    exists ch :: 0 <= ch < |channels| && GainChanged(channels[ch], b)
  }

  /** A code changes among the first n channels. */
  ghost predicate ChangedTo(channels: seq<Channel>, b: nat, n: nat)
    requires b < 6 && n <= |channels| && forall ch :: 0 <= ch < |channels| ==> channels[ch].Valid()
  {
    n > 0 && (ChangedTo(channels, b, n - 1) || GainChanged(channels[n - 1], b))
  }

  lemma {:induction false} ChangedIsWrite(channels: seq<Channel>, b: nat, n: nat)
    requires b < 6 && n <= |channels| && forall ch :: 0 <= ch < |channels| ==> channels[ch].Valid()
    ensures ChangedTo(channels, b, n) <==> exists ch :: 0 <= ch < n && GainChanged(channels[ch], b)
  {
    hide GainChanged;
    if n > 0 { ChangedIsWrite(channels, b, n - 1); }
  }

  /** The first n codes of a row are those of block b, and the flag says whether one of them changed. */
  ghost predicate GainRow(row: seq<nat>, flag: bool, channels: seq<Channel>, b: nat, n: nat)
    requires b < 6 && n <= |channels| && forall ch :: 0 <= ch < |channels| ==> channels[ch].Valid()
  {
    |row| == |channels| && (forall c :: 0 <= c < n ==> row[c] == FgainCod(channels[c], b)) &&
    (flag <==> ChangedTo(channels, b, n))
  }

  /** The rows and flags of the first n blocks are complete. */
  ghost predicate GainRows(rows: seq<seq<nat>>, flags: seq<bool>, channels: seq<Channel>, n: nat)
    requires n <= 6 && forall ch :: 0 <= ch < |channels| ==> channels[ch].Valid()
  {
    |rows| == |flags| == 6 && forall b :: 0 <= b < n ==> GainRow(rows[b], flags[b], channels, b, |channels|)
  }

  lemma GainRowStep(row: seq<nat>, flag: bool, before: seq<nat>, code: nat, flag': bool, channels: seq<Channel>, b: nat,
                    ch: nat)
    requires b < 6 && ch < |channels| && forall c :: 0 <= c < |channels| ==> channels[c].Valid()
    requires GainRow(row, flag, channels, b, ch) && |before| == |channels|
    requires b > 0 ==> before[ch] == FgainCod(channels[ch], b - 1)
    requires code == (if NewExponents(channels[ch], b) then 4 - channels[ch].strategy[b] else before[ch])
    requires flag' == (flag || (NewExponents(channels[ch], b) && (b == 0 || code != before[ch])))
    ensures GainRow(row[ch := code], flag', channels, b, ch + 1)
  {
    FgainCodStep(channels[ch], b);
    hide FgainCod, Channel.Valid;
  }

  /** The code a decoder has in force in block b: the one most recently transmitted. */
  ghost function Replayed(channels: seq<Channel>, ch: nat, b: nat): nat
    requires b < 6 && ch < |channels| && forall c :: 0 <= c < |channels| ==> channels[c].Valid()
  {
    if WriteSnr(channels, b) then FgainCod(channels[ch], b)
    else assert !GainChanged(channels[ch], b); Replayed(channels, ch, b - 1)
  }

  lemma {:induction false} ReplayedIsCurrent(channels: seq<Channel>, ch: nat, b: nat)
    requires b < 6 && ch < |channels| && forall c :: 0 <= c < |channels| ==> channels[c].Valid()
    ensures Replayed(channels, ch, b) == FgainCod(channels[ch], b)
  {
    if !WriteSnr(channels, b) {
      assert !GainChanged(channels[ch], b);
      ReplayedIsCurrent(channels, ch, b - 1);
    }
  }

  lemma FgainCodStep(c: Channel, b: nat)
    requires c.Valid() && b < 6
    ensures NewExponents(c, b) ==> FgainCod(c, b) == 4 - c.strategy[b]
    ensures !NewExponents(c, b) ==> b > 0 && FgainCod(c, b) == FgainCod(c, b - 1)
  {
  }

  // ---------- the fixed part of a frame ----------

  function B2N(b: bool): nat { if b then 1 else 0 }

  function NewCount(channels: seq<Channel>, b: nat, n: nat): nat
    requires n <= |channels| && forall c :: 0 <= c < n ==> b < |channels[c].strategy|
  {
    if n == 0 then 0 else NewCount(channels, b, n - 1) + B2N(NewExponents(channels[n - 1], b))
  }

  function HeaderInc(acmod: nat): nat
  {
    match acmod
    case 0 => 8
    case 1 => 0
    case 2 => 2
    case 3 => 2
    case 4 => 2
    case 5 => 4
    case 6 => 2
    case _ => 4
  }

  /** Bits of block b up to its bandwidth codes. */
  function StartBits(cfg: Config, b: nat): nat
  {
    var n, dual := cfg.Channels(), B2N(cfg.acmod == 0);
    2 * n + 1 + dual + (if cfg.dynrng then 8 + 8 * dual else 0) + 1 + B2N(b == 0) +
    (if cfg.acmod == 2 then 1 + 4 * B2N(b == 0) else 0) + 2 * n + B2N(cfg.lfe)
  }

  /** Bits of block b besides exponents and mantissas. */
  ghost function SideBits(cfg: Config, channels: seq<Channel>, b: nat): nat
    requires b < 6 && ValidChannels(cfg, channels)
  {
    StartBits(cfg, b) + 8 * NewCount(channels, b, cfg.Channels()) + 1 + 11 * B2N(b == 0) + 1 +
    (if WriteSnr(channels, b) then 6 + 7 * cfg.AllChannels() else 0) + 2
  }

  ghost function SideBitsTo(cfg: Config, channels: seq<Channel>, n: nat): nat
    requires n <= 6 && ValidChannels(cfg, channels)
  {
    if n == 0 then 0 else SideBitsTo(cfg, channels, n - 1) + SideBits(cfg, channels, n - 1)
  }

  /** Header, side information of all blocks, and the final auxdatae, crcrsv and crc2. */
  ghost function FrameBits(cfg: Config, channels: seq<Channel>): nat
    requires ValidChannels(cfg, channels)
  {
    65 + HeaderInc(cfg.acmod) + 14 * B2N(cfg.xbsi1e) + 14 * B2N(cfg.xbsi2e) + SideBitsTo(cfg, channels, 6) + 2 + 16
  }

  /** (csnroffst - 15) * 16 + fsnroffst, times 4: the offset a decoder forms from the two codes. */
  function DecoderOffset(csnroffst: int, fsnroffst: int): int { ((csnroffst - 15) * 16 + fsnroffst) * 4 }

  lemma DecoderOffsetIs(s: int)
    ensures DecoderOffset(s / 16, s % 16) == SnrOffset(s)
  {
  }

  lemma BapsSame(e1: seq<Byte>, e2: seq<Byte>, ncoefs: nat, p: Params, fgaincod: nat, snroffset: int)
    requires ValidRow(e1, ncoefs) && ValidRow(e2, ncoefs) && ValidEnd(ncoefs) && p.Valid()
    requires e1[..ncoefs] == e2[..ncoefs]
    ensures Baps(e1, ncoefs, p, fgaincod, snroffset) == Baps(e2, ncoefs, p, fgaincod, snroffset)
  {
    assert forall k :: 0 <= k < ncoefs ==> e1[..ncoefs][k] == e1[k] && e2[..ncoefs][k] == e2[k];
    assert PsdRow(e1, ncoefs) == PsdRow(e2, ncoefs);
    assert BandPowers(e1, ncoefs) == BandPowers(e2, ncoefs);
  }

  /** Spectrum and mask of one block and channel. */
  ghost predicate PreparedRow(s: seq<Int16>, m: seq<Int16>, c: Channel, p: Params, b: nat)
    requires c.Valid() && p.Valid() && b < 6
  {
    |s| == 256 && |m| == 50 && s[..c.ncoefs] == PsdRow(c.exp[b], c.ncoefs) &&
    m[..BandEnd(c.ncoefs)] == MaskRow(c.exp[b], c.ncoefs, p, FgainCod(c, b))
  }

  ghost predicate AllocatedRow(row: seq<Byte>, c: Channel, p: Params, b: nat, s: int)
    requires c.Valid() && p.Valid() && b < 6
  {
    |row| == 256 && row[..c.ncoefs] == Baps(c.exp[b], c.ncoefs, p, FgainCod(c, b), SnrOffset(s))
  }

  /** The pointers of the first n blocks are those a decoder computes from each block's own exponents. */
  ghost predicate AllocatedTo(bap: seq<seq<seq<Byte>>>, f: FrameIn, n: nat, s: int)
    requires f.Valid() && n <= 6
  {
    |bap| == 6 && (forall b :: 0 <= b < 6 ==> |bap[b]| == |f.channels|) &&
    forall b, ch :: 0 <= b < n && 0 <= ch < |f.channels| ==> AllocatedRow(bap[b][ch], f.channels[ch], f.p, b, s)
  }

  /** Blocks below blk and the first ch channels of block blk are allocated. */
  ghost predicate AllocatedPart(bap: seq<seq<seq<Byte>>>, f: FrameIn, blk: nat, ch: nat, s: int)
    requires f.Valid() && blk < 6 && ch <= |f.channels|
  {
    AllocatedTo(bap, f, blk, s) &&
    forall c :: 0 <= c < ch ==> AllocatedRow(bap[blk][c], f.channels[c], f.p, blk, s)
  }

  lemma PartIsTo(bap: seq<seq<seq<Byte>>>, f: FrameIn, blk: nat, ch: nat, s: int)
    requires f.Valid() && blk < 6 && ch < |f.channels| && AllocatedPart(bap, f, blk, ch, s)
    ensures AllocatedTo(bap, f, blk, s) && |bap| == 6 && |bap[blk]| == |f.channels|
  {
  }

  lemma PartPush(old_: seq<seq<seq<Byte>>>, bap: seq<seq<seq<Byte>>>, row: seq<Byte>, f: FrameIn, blk: nat, ch: nat,
                 s: int)
    requires f.Valid() && blk < 6 && ch < |f.channels| && AllocatedPart(old_, f, blk, ch, s)
    requires |old_| == 6 && |old_[blk]| == |f.channels| && bap == old_[blk := old_[blk][ch := row]]
    requires AllocatedRow(row, f.channels[ch], f.p, blk, s)
    ensures AllocatedPart(bap, f, blk, ch + 1, s)
  {
    hide AllocatedRow, Channel.Valid;
  }

  lemma PartIsAll(bap: seq<seq<seq<Byte>>>, f: FrameIn, blk: nat, s: int)
    requires f.Valid() && blk < 6 && AllocatedPart(bap, f, blk, |f.channels|, s)
    ensures AllocatedTo(bap, f, blk + 1, s)
  {
    hide AllocatedRow;
  }

  /** A table with one entry per block and channel. */
  ghost predicate Shape<T>(t: seq<seq<T>>, n: nat)
  {
    |t| == 6 && forall b :: 0 <= b < 6 ==> |t[b]| == n
  }

  /** Spectra and masks of all blocks with new exponents are filled. */
  ghost predicate PreparedTables(psd: seq<seq<seq<Int16>>>, mask: seq<seq<seq<Int16>>>, f: FrameIn)
    requires f.Valid()
  {
    Shape(psd, |f.channels|) && Shape(mask, |f.channels|) &&
    forall b, ch :: 0 <= b < 6 && 0 <= ch < |f.channels| && NewExponents(f.channels[ch], b) ==>
      PreparedRow(psd[b][ch], mask[b][ch], f.channels[ch], f.p, b)
  }

  /** The position the configured search settles on, from where it starts. */
  function Found(cfg: Config, f: FrameIn, avail: int, start: int): int
    requires f.Valid()
  {
    if cfg.fast then Fast(f, avail, start) else Accurate(f, avail, cfg.Channels(), start)
  }

  /** The search passes over nothing above 1023 that fits. */
  ghost predicate StaysInRange(cfg: Config, f: FrameIn, avail: int, start: int)
    requires f.Valid()
  {
    if cfg.fast then GridLands(f, avail, start) else JumpLands(f, avail, cfg.Channels(), start)
  }

  /** Exactly when either search, if it succeeds, ends at a position that both SNR codes can express. */
  lemma FoundInRange(cfg: Config, f: FrameIn, avail: int, start: int)
    requires f.Valid() && (cfg.fast ==> start >= 0)
    ensures var r := Found(cfg, f, avail, start);
      (Fits(f, avail, r) ==> 0 <= r <= 1023) <==> StaysInRange(cfg, f, avail, start)
  {
    hide Cost, FrameIn.Valid, Fast, Accurate, GridLands, JumpLands, Fits;
    if cfg.fast {
      Search.FastSearch(f, avail, start);
    } else {
      AccurateInRange(f, avail, cfg.Channels(), start);
    }
  }

  /** The fast search started in range always stays there. */
  lemma FastStays(cfg: Config, f: FrameIn, avail: int, start: int)
    requires f.Valid() && cfg.fast && start <= 1023
    ensures StaysInRange(cfg, f, avail, start)
  {
    hide Cost, FrameIn.Valid;
  }

  // ---------- the starting quality over a stream ----------

  /** One frame of a stream at constant bit rate: what the allocation sees, and the bits it has for mantissas. */
  datatype Task = Task(f: FrameIn, avail: int)

  ghost predicate ValidTasks(tasks: seq<Task>)
  {
    forall i :: 0 <= i < |tasks| ==> tasks[i].f.Valid()
  }

  /** last_quality of a worker before its frame n: the position of its last frame that was produced. */
  function StartOf(cfg: Config, tasks: seq<Task>, start: int, n: nat): int
    requires ValidTasks(tasks) && n <= |tasks|
  {
    if n == 0 then start
    else
      var s := StartOf(cfg, tasks, start, n - 1);
      var r := Found(cfg, tasks[n - 1].f, tasks[n - 1].avail, s);
      if Fits(tasks[n - 1].f, tasks[n - 1].avail, r) then r else s
  }

  ghost predicate StartsWithin(cfg: Config, tasks: seq<Task>, start: int, n: nat)
    requires ValidTasks(tasks) && n <= |tasks|
  {
    0 <= StartOf(cfg, tasks, start, n) <= 1023
  }

  ghost predicate TaskStays(cfg: Config, tasks: seq<Task>, start: int, n: nat)
    requires ValidTasks(tasks) && n < |tasks|
  {
    StaysInRange(cfg, tasks[n].f, tasks[n].avail, StartOf(cfg, tasks, start, n))
  }

  lemma OneTask(cfg: Config, tasks: seq<Task>, start: int, n: nat)
    requires ValidTasks(tasks) && n < |tasks| && StartsWithin(cfg, tasks, start, n)
    ensures StartsWithin(cfg, tasks, start, n + 1) <==> TaskStays(cfg, tasks, start, n)
    ensures cfg.fast ==> TaskStays(cfg, tasks, start, n)
  {
    hide FrameIn.Valid, Found, StaysInRange, Fits;
    var s := StartOf(cfg, tasks, start, n);
    FoundInRange(cfg, tasks[n].f, tasks[n].avail, s);
    if cfg.fast { FastStays(cfg, tasks[n].f, tasks[n].avail, s); }
  }

  lemma {:induction false} StartsWithinTo(cfg: Config, tasks: seq<Task>, start: int, n: nat)
    requires ValidTasks(tasks) && n <= |tasks| && 0 <= start <= 1023
    requires cfg.fast || forall i :: 0 <= i < n ==> TaskStays(cfg, tasks, start, i)
    ensures StartsWithin(cfg, tasks, start, n)
  {
    hide *;
    if n == 0 {
      StartsHere(cfg, tasks, start);
    } else {
      StartsWithinTo(cfg, tasks, start, n - 1);
      OneTask(cfg, tasks, start, n - 1);
    }
  }

  lemma StartsHere(cfg: Config, tasks: seq<Task>, start: int)
    requires ValidTasks(tasks)
    ensures StartsWithin(cfg, tasks, start, 0) <==> 0 <= start <= 1023
  {
    hide ValidTasks;
  }

  /** Over any stream started in range: every frame starts its search in range exactly when every search stays there;
      the fast search always does. */
  lemma StreamStaysInRange(cfg: Config, tasks: seq<Task>, start: int)
    requires ValidTasks(tasks) && 0 <= start <= 1023
    ensures (forall n :: 0 <= n <= |tasks| ==> StartsWithin(cfg, tasks, start, n)) <==>
      forall n :: 0 <= n < |tasks| ==> TaskStays(cfg, tasks, start, n)
    ensures cfg.fast ==> forall n :: 0 <= n < |tasks| ==> TaskStays(cfg, tasks, start, n)
  {
    hide TaskStays, StartsWithin, ValidTasks;
    if cfg.fast || forall n :: 0 <= n < |tasks| ==> TaskStays(cfg, tasks, start, n) {
      forall n: nat | n <= |tasks|
        ensures StartsWithin(cfg, tasks, start, n)
      {
        StartsWithinTo(cfg, tasks, start, n);
      }
    }
    if forall n :: 0 <= n <= |tasks| ==> StartsWithin(cfg, tasks, start, n) {
      forall n: nat | n < |tasks|
        ensures TaskStays(cfg, tasks, start, n)
      {
        assert StartsWithin(cfg, tasks, start, n) && StartsWithin(cfg, tasks, start, n + 1);
        OneTask(cfg, tasks, start, n);
      }
    }
  }

  ghost predicate BandTables(bandStart: array<Byte>, binToBand: array<Byte>)
    reads bandStart, binToBand
  {
    bandStart.Length == 51 && (forall b :: 0 <= b <= 50 ==> bandStart[b] == BandStart(b)) &&
    binToBand.Length == 253 && (forall k :: 0 <= k < 253 ==> binToBand[k] == BandOf(k))
  }

  class Allocator {
    const cfg: Config
    const channels: seq<Channel>
    const codes: ParamCodes
    const bandStart: array<Byte>
    const binToBand: array<Byte>
    // tables of the frame, indexed by block and channel
    var psd: seq<seq<seq<Int16>>>
    var mask: seq<seq<seq<Int16>>>
    var bap: seq<seq<seq<Byte>>>
    var fgaincod: seq<seq<nat>>
    var writeSnr: seq<bool>
    var p: Params
    var frameBits: nat
    var expBits: nat
    var mantBits: int
    var frameSize: nat
    var frameSizeMin: nat
    var bitRate: nat
    var frmsizecod: nat
    var csnroffst: int
    var fsnroffst: int
    var quality: int
    var lastQuality: int

    /** The allocation state of a frame whose exponents are encoded; the frame size is that of constant bit rate. */
    constructor (config: Config, chans: seq<Channel>, k: ParamCodes, starts: array<Byte>, bands: array<Byte>,
                 exponentBits: nat, sizeCode: nat, size: nat, sizeMin: nat, rate: nat, quality0: int)
      requires config.Valid() && k.Valid() && ValidChannels(config, chans)
      requires BandTables(starts, bands)
      ensures Valid() && cfg == config && channels == chans && codes == k && bandStart == starts && binToBand == bands
      ensures expBits == exponentBits && frmsizecod == sizeCode && frameSize == size && frameSizeMin == sizeMin
      ensures bitRate == rate && lastQuality == quality0
    {
      cfg, channels, codes, bandStart, binToBand := config, chans, k, starts, bands;
      psd := seq(6, _ => seq(|chans|, _ => []));
      mask := seq(6, _ => seq(|chans|, _ => []));
      bap := seq(6, _ => seq(|chans|, _ => []));
      fgaincod := seq(6, _ => seq(|chans|, _ => 0));
      writeSnr := seq(6, _ => false);
      p := LoadParams(config, k);
      frameBits, expBits, mantBits := 0, exponentBits, 0;
      frmsizecod, frameSize, frameSizeMin, bitRate := sizeCode, size, sizeMin, rate;
      csnroffst, fsnroffst, quality, lastQuality := 0, 0, 0, quality0;
    }

    /** The band tables are those of a52_common_init. */
    ghost predicate Bands()
      reads bandStart, binToBand
    {
      BandTables(bandStart, binToBand)
    }

    ghost predicate Valid()
      reads this`psd, this`mask, this`bap, this`fgaincod, this`writeSnr, bandStart, binToBand
    {
      cfg.Valid() && codes.Valid() && ValidChannels(cfg, channels) && Bands() &&
      Shape(psd, |channels|) && Shape(mask, |channels|) && Shape(bap, |channels|) && Shape(fgaincod, |channels|) &&
      |writeSnr| == 6
    }

    function Frame(): FrameIn
      reads this`p
    {
      FrameIn(channels, p)
    }

    /** The fast gain codes of all blocks are set, with the flags that say when they are sent. */
    ghost predicate GainsLoaded()
      requires Valid()
      reads this`psd, this`mask, this`bap, this`fgaincod, this`writeSnr, bandStart, binToBand
    {
      (forall b, ch :: 0 <= b < 6 && 0 <= ch < |channels| ==> fgaincod[b][ch] == FgainCod(channels[ch], b)) &&
      (forall b :: 0 <= b < 6 ==> writeSnr[b] == WriteSnr(channels, b))
    }

    /** start_bit_allocation has run: parameters and gain codes are loaded. */
    ghost predicate Started()
      requires Valid()
      reads this`p, this`frameBits, this`psd, this`mask, this`bap, this`fgaincod, this`writeSnr, bandStart, binToBand
    {
      p == LoadParams(cfg, codes) && frameBits == FrameBits(cfg, channels) && Frame().Valid() && GainsLoaded()
    }

    /** bit_alloc_prepare has run. */
    ghost predicate Prepared()
      requires Valid() && Frame().Valid()
      reads this`p, this`psd, this`mask, this`bap, this`fgaincod, this`writeSnr, bandStart, binToBand
    {
      PreparedTables(psd, mask, Frame())
    }

    /** bit_alloc has run for position s. */
    ghost predicate Allocated(s: int)
      requires Valid() && Frame().Valid()
      reads this`p, this`psd, this`mask, this`bap, this`fgaincod, this`writeSnr, bandStart, binToBand
    {
      AllocatedTo(bap, Frame(), 6, s)
    }

    /** Loads parameters and fast gain codes, and counts the fixed bits. */
    method StartBitAllocation()
      requires Valid()
      modifies this`p, this`frameBits, this`fgaincod, this`writeSnr
      ensures Valid() && Started()
    {
      ShrBound(SlowDecayTab(codes.sdecaycod), cfg.halfratecod);
      ShrBound(FastDecayTab(codes.fdecaycod), cfg.halfratecod);
      p := Params(cfg.fscod, cfg.halfratecod, SlowGainTab(codes.sgaincod),
                  Shr(SlowDecayTab(codes.sdecaycod), cfg.halfratecod),
                  Shr(FastDecayTab(codes.fdecaycod), cfg.halfratecod), DbPerBitTab(codes.dbkneecod),
                  FloorTab(codes.floorcod));
      LoadAllGains();
      CountFrameBits();
      StartedNow();
    }

    lemma StartedNow()
      requires Valid() && p == LoadParams(cfg, codes) && frameBits == FrameBits(cfg, channels) && GainsLoaded()
      ensures Started()
    {
      hide LoadParams, FrameBits, GainsLoaded, Channel.Valid;
    }

    /** The block loop over the gain codes. */
    method LoadAllGains()
      requires Valid()
      modifies this`fgaincod, this`writeSnr
      ensures Valid() && GainsLoaded()
    {
      hide GainRow, Channel.Valid, FgainCod, GainsLoaded;
      for blk := 0 to 6
        invariant Valid() && GainRows(fgaincod, writeSnr, channels, blk)
      {
        LoadGains(blk);
      }
      AllGains();
    }

    lemma AllGains()
      requires Valid() && GainRows(fgaincod, writeSnr, channels, 6)
      ensures GainsLoaded()
    {
      hide Channel.Valid, FgainCod, GainChanged, ChangedTo;
      forall b | 0 <= b < 6
        ensures writeSnr[b] == WriteSnr(channels, b)
        ensures forall ch :: 0 <= ch < |channels| ==> fgaincod[b][ch] == FgainCod(channels[ch], b)
      {
        ChangedIsWrite(channels, b, |channels|);
      }
    }

    /** Fast gain codes of one block, and whether the block must transmit them. */
    method LoadGains(blk: nat)
      requires Valid() && blk < 6 && GainRows(fgaincod, writeSnr, channels, blk)
      modifies this`fgaincod, this`writeSnr
      ensures Valid() && GainRows(fgaincod, writeSnr, channels, blk + 1)
    {
      hide Channel.Valid, FgainCod, ChangedTo, Config.Valid, ParamCodes.Valid, Bands;
      var before := if blk > 0 then fgaincod[blk - 1] else fgaincod[blk];
      var row, flag := GainCodes(blk, before, fgaincod[blk]);
      fgaincod := fgaincod[blk := row];
      writeSnr := writeSnr[blk := flag];
    }

    /** The loop over the channels; `before` holds the codes of the block before. */
    method GainCodes(blk: nat, before: seq<nat>, old_: seq<nat>) returns (row: seq<nat>, flag: bool)
      requires ValidChannels(cfg, channels) && blk < 6 && |before| == |old_| == |channels|
      requires blk > 0 ==> forall ch :: 0 <= ch < |channels| ==> before[ch] == FgainCod(channels[ch], blk - 1)
      ensures GainRow(row, flag, channels, blk, |channels|)
    {
      row, flag := old_, false;
      hide Channel.Valid, FgainCod;
      for ch := 0 to |channels|
        invariant GainRow(row, flag, channels, blk, ch)
      {
        ghost var was, had := row, flag;
        StrategyInRange(ch, blk);
        if channels[ch].strategy[blk] != Exponent.REUSE {
          var code: nat := 4 - channels[ch].strategy[blk];
          row := row[ch := code];
          flag := flag || blk == 0 || code != before[ch];
        } else {
          row := row[ch := before[ch]];
        }
        GainRowStep(was, had, before, row[ch], flag, channels, blk, ch);
      }
    }

    lemma StrategyInRange(ch: nat, blk: nat)
      requires ValidChannels(cfg, channels) && blk < 6 && ch < |channels|
      ensures |channels[ch].strategy| == 6 && channels[ch].strategy[blk] <= 3
    {
    }

    /** Counts all bits of the frame except exponents and mantissas. */
    method CountFrameBits()
      requires Valid() && GainsLoaded()
      modifies this`frameBits
      ensures frameBits == FrameBits(cfg, channels)
    {
      hide SideBits, HeaderInc, Channel.Valid;
      var bits := 65;
      bits := bits + HeaderInc(cfg.acmod);
      if cfg.xbsi1e { bits := bits + 14; }
      if cfg.xbsi2e { bits := bits + 14; }
      ghost var header := bits;
      for blk := 0 to 6
        invariant bits == header + SideBitsTo(cfg, channels, blk)
      {
        var side := CountBlockBits(blk);
        bits := bits + side;
      }
      frameBits := bits + 2 + 16;
    }

    /** The body of the counting loop: everything before the bandwidth codes ... */
    method CountBlockStart(blk: nat) returns (bits: nat)
      requires Valid() && blk < 6
      ensures bits == StartBits(cfg, blk)
    {
      var n := cfg.Channels();
      bits := n + n + 1 + (if cfg.acmod == 0 then 1 else 0);
      if cfg.dynrng {
        bits := bits + 8;
        if cfg.acmod == 0 { bits := bits + 8; }
      }
      bits := bits + 1;
      if blk == 0 { bits := bits + 1; }
      if cfg.acmod == 2 {
        bits := bits + 1;
        if blk == 0 { bits := bits + 4; }
      }
      bits := bits + 2 * n;
      if cfg.lfe { bits := bits + 1; }
    }

    /** ... and what follows. */
    method CountBlockBits(blk: nat) returns (bits: nat)
      requires Valid() && GainsLoaded() && blk < 6
      ensures bits == SideBits(cfg, channels, blk)
    {
      hide StartBits, WriteSnr;
      bits := CountBlockStart(blk);
      for ch := 0 to cfg.Channels()
        invariant bits == StartBits(cfg, blk) + 8 * NewCount(channels, blk, ch)
      {
        if channels[ch].strategy[blk] != Exponent.REUSE {
          bits := bits + 6;
          bits := bits + 2;
        }
      }
      bits := bits + 1;
      if blk == 0 { bits := bits + 2 + 2 + 2 + 2 + 3; }
      bits := bits + 1;
      if writeSnr[blk] {
        bits := bits + 6;
        bits := bits + cfg.AllChannels() * 4;
        bits := bits + cfg.AllChannels() * 3;
      }
      bits := bits + 1;
      bits := bits + 1;
    }

    /** Power spectra and masking curves of every block that has exponents of its own. */
    method BitAllocPrepare()
      requires Valid() && Started()
      modifies this`psd, this`mask
      ensures Valid() && Started() && Prepared()
    {
      hide PreparedRow;
      for blk := 0 to 6
        invariant Valid() && Started()
        invariant forall b, ch :: 0 <= b < blk && 0 <= ch < |channels| && NewExponents(channels[ch], b) ==>
          PreparedRow(psd[b][ch], mask[b][ch], channels[ch], p, b)
      {
        PrepareBlock(blk);
      }
    }

    method PrepareBlock(blk: nat)
      requires Valid() && Started() && blk < 6
      modifies this`psd, this`mask
      ensures Valid() && Started()
      ensures forall c :: 0 <= c < |channels| && NewExponents(channels[c], blk) ==>
        PreparedRow(psd[blk][c], mask[blk][c], channels[c], p, blk)
      ensures forall b :: 0 <= b < 6 && b != blk ==> psd[b] == old(psd[b]) && mask[b] == old(mask[b])
    {
      hide PreparedRow, FgainCod, WriteSnr, LoadParams, FrameBits, FrameIn.Valid, BandTables, ValidRow;
      for ch := 0 to |channels|
        invariant Valid() && Started()
        invariant forall c :: 0 <= c < ch && NewExponents(channels[c], blk) ==>
          PreparedRow(psd[blk][c], mask[blk][c], channels[c], p, blk)
        invariant forall b :: 0 <= b < 6 && b != blk ==> psd[b] == old(psd[b]) && mask[b] == old(mask[b])
      {
        if channels[ch].strategy[blk] != Exponent.REUSE {
          var s, m := PrepareRow(blk, ch);
          psd := psd[blk := psd[blk][ch := s]];
          mask := mask[blk := mask[blk][ch := m]];
        }
      }
    }

    /** a52_bit_allocation_prepare for one block and channel. */
    method PrepareRow(blk: nat, ch: nat) returns (s: seq<Int16>, m: seq<Int16>)
      requires Valid() && Started() && blk < 6 && ch < |channels|
      ensures PreparedRow(s, m, channels[ch], p, blk)
    {
      var c := channels[ch];
      assert ValidRow(c.exp[blk], c.ncoefs);
      var psdBuf, bandPsd, maskBuf := new Int16[256], new Int16[50], new Int16[50];
      CalcPsd(bandStart, c.exp[blk], c.ncoefs, psdBuf, bandPsd);
      s := psdBuf[..];
      RowBandInput(c.exp[blk], c.ncoefs);
      var bp: seq<Int16> := bandPsd[..];
      assert bp[..BandEnd(c.ncoefs)] == BandPowers(c.exp[blk], c.ncoefs);
      CalcMask(p, binToBand, bp, c.ncoefs, FastGainTab(fgaincod[blk][ch]), maskBuf);
      m := maskBuf[..];
      assert m[..BandEnd(c.ncoefs)] == MaskRow(c.exp[blk], c.ncoefs, p, FgainCod(c, blk));
    }

    /** The pointers of one block and channel: copied when the exponents are, computed otherwise. */
    method AllocRow(blk: nat, ch: nat, s: int, ghost f: FrameIn) returns (row: seq<Byte>)
      requires Bands() && f.Valid() && f == Frame() && blk < 6 && ch < |channels|
      requires PreparedTables(psd, mask, f) && AllocatedTo(bap, f, blk, s)
      ensures AllocatedRow(row, f.channels[ch], f.p, blk, s)
    {
      var c := channels[ch];
      FgainCodStep(c, blk);
      if c.strategy[blk] == Exponent.REUSE {
        row := bap[blk - 1][ch];
        BapsSame(c.exp[blk], c.exp[blk - 1], c.ncoefs, p, FgainCod(c, blk), SnrOffset(s));
      } else {
        assert PreparedRow(psd[blk][ch], mask[blk][ch], c, p, blk);
        var buf := new Byte[256];
        CalcBap(bandStart, mask[blk][ch], psd[blk][ch], c.ncoefs, s * 4 - 960, p.floor, buf);
        BapRowIs(buf[..], mask[blk][ch], psd[blk][ch], c, p, blk, s);
        row := buf[..];
      }
    }

    /** One channel's share of bit_alloc: its pointers, its grouped counts, its other mantissa bits. */
    method AllocChannel(blk: nat, ch: nat, s: int, mantCnt: array<nat>, ghost f: FrameIn, ghost rows: seq<seq<nat>>)
        returns (wide: nat)
      requires Bands() && f.Valid() && f == Frame() && blk < 6 && ch < |channels| && rows == BlockRows(f, blk, s)
      requires PreparedTables(psd, mask, f) && AllocatedPart(bap, f, blk, ch, s)
      requires mantCnt.Length == 5 && Counted(mantCnt[..], rows[..ch])
      modifies this`bap, mantCnt
      ensures AllocatedPart(bap, f, blk, ch + 1, s)
      ensures Counted(mantCnt[..], rows[..ch + 1]) && wide == Wide(rows[ch])
    {
      assert f.channels == channels && f.p == p && |rows| == |channels|;
      assert channels[ch].ncoefs <= 256 && mantCnt.Length == 5;
      hide *;
      ghost var old_ := bap;
      PartIsTo(bap, f, blk, ch, s);
      var row := AllocRow(blk, ch, s, f);
      bap := bap[blk := bap[blk][ch := row]];
      PartPush(old_, bap, row, f, blk, ch, s);
      RowOf(row, f, ch, blk, s);
      ghost var before := mantCnt[..];
      wide := ComputeMantissaSize(mantCnt, row, channels[ch].ncoefs);
      CountedPush(before, mantCnt[..], rows, ch);
    }

    /** bit_alloc for one block. */
    method AllocBlock(blk: nat, s: int, ghost f: FrameIn) returns (bits: nat)
      requires Bands() && f.Valid() && f == Frame() && blk < 6
      requires PreparedTables(psd, mask, f) && AllocatedTo(bap, f, blk, s)
      modifies this`bap
      ensures AllocatedTo(bap, f, blk + 1, s)
      ensures bits == BlockBits(Flat(BlockRows(f, blk, s)))
    {
      ghost var rows := BlockRows(f, blk, s);
      var mantCnt := new nat[5][0, 2, 2, 0, 1];
      bits := 0;
      NothingFlat(rows);
      assert Counted(mantCnt[..], rows[..0]);
      WideOfRows(rows);
      hide AllocatedPart, PreparedTables, Bands, Flat, Wide, Count, BlockRows, Channel.Valid, Counted, FrameIn.Valid;
      for ch := 0 to |channels|
        invariant mantCnt.Length == 5 && fresh(mantCnt) && AllocatedPart(bap, f, blk, ch, s)
        invariant bits == Wide(Flat(rows[..ch])) && Counted(mantCnt[..], rows[..ch])
      {
        var wide := AllocChannel(blk, ch, s, mantCnt, f, rows);
        bits := bits + wide;
      }
      PartIsAll(bap, f, blk, s);
      var grouped := ComputeMantissaSizeFinal(mantCnt);
      BlockBitsFrom(mantCnt[..], rows);
      bits := bits + grouped;
    }

    /** bit_alloc: fills every pointer for search position s and returns the mantissa bits. */
    method BitAllocate(s: int) returns (bits: nat)
      requires Valid() && Started() && Prepared()
      modifies this`bap
      ensures Valid() && Started() && Prepared() && Allocated(s) && bits == Cost(Frame(), s)
    {
      ghost var f := Frame();
      AllocatedNone(bap, f, s);
      hide Cost, AllocatedTo, PreparedTables;
      bits := AllocBlocks(s, f);
      AllocatedAll(bap, f, s);
    }

    method AllocBlocks(s: int, ghost f: FrameIn) returns (bits: nat)
      requires Bands() && f.Valid() && f == Frame() && PreparedTables(psd, mask, f) && AllocatedTo(bap, f, 0, s)
      modifies this`bap
      ensures AllocatedTo(bap, f, 6, s) && bits == Cost(f, s)
    {
      hide *;
      CostEnds(f, s);
      bits := 0;
      for blk := 0 to 6
        invariant AllocatedTo(bap, f, blk, s) && bits == CostOf(f, s, blk)
      {
        CostStep(f, s, blk);
        var blockBits := AllocBlock(blk, s, f);
        bits := bits + blockBits;
      }
    }

    /** One probe of the search: the bits left over at position s, with the pointers of s in place. */
    method Probe(avail: int, s: int, ghost f: FrameIn) returns (leftover: int)
      requires Bands() && f.Valid() && f == Frame() && PreparedTables(psd, mask, f) && Shape(bap, |channels|)
      modifies this`bap
      ensures Shape(bap, |channels|) && AllocatedTo(bap, f, 6, s) && leftover == Left(f, avail, s)
    {
      AllocatedNone(bap, f, s);
      var bits := AllocBlocks(s, f);
      AllocatedAll(bap, f, s);
      leftover := avail - bits;
    }

    /** Up to three jumps of the accurate search. */
    method TakeJumps(avail: int, start: int, ghost f: FrameIn) returns (s: int, leftover: int)
      requires Bands() && f.Valid() && f == Frame() && PreparedTables(psd, mask, f) && Shape(bap, |channels|)
      modifies this`bap
      ensures Shape(bap, |channels|) && AllocatedTo(bap, f, 6, s)
      ensures s == Jumps(f, avail, cfg.Channels(), start) && leftover == Left(f, avail, s)
    {
      hide Cost, FrameIn.Valid, AllocatedTo, PreparedTables, Bands, Shape;
      s := start;
      leftover := Probe(avail, s, f);
      if leftover < -400 {
        s := s + TDiv(leftover, 16 * cfg.Channels());
        leftover := Probe(avail, s, f);
      }
      if leftover > 400 {
        s := s + TDiv(leftover, 24 * cfg.Channels());
        leftover := Probe(avail, s, f);
      }
      if leftover < -200 {
        s := s + TDiv(leftover, 40 * cfg.Channels());
        leftover := Probe(avail, s, f);
      }
    }

    /** The accurate search. */
    method AccurateSearch(avail: int, start: int, ghost f: FrameIn) returns (s: int, leftover: int)
      requires Bands() && f.Valid() && f == Frame() && PreparedTables(psd, mask, f) && Shape(bap, |channels|)
      modifies this`bap
      ensures Shape(bap, |channels|) && AllocatedTo(bap, f, 6, s)
      ensures s == Accurate(f, avail, cfg.Channels(), start) && leftover == Left(f, avail, s)
    {
      hide Cost, FrameIn.Valid, AllocatedTo, PreparedTables, Bands, Shape, Jumps;
      s, leftover := TakeJumps(avail, start, f);
      ghost var jumped := s;
      var step := 10 / cfg.Channels();
      // adjust s until leftover <= -100
      while leftover > -100
        invariant Shape(bap, |channels|) && AllocatedTo(bap, f, 6, s) && leftover == Left(f, avail, s)
        invariant Climb(f, avail, step, jumped) == Climb(f, avail, step, s)
        decreases if s > 1023 then 0 else 1024 - s
      {
        s := s + step;
        if s > 1023 {
          s := 1023;
          leftover := Probe(avail, s, f);
          break;
        }
        leftover := Probe(avail, s, f);
      }
      ghost var turn := s;
      assert turn == Climb(f, avail, step, jumped);
      // adjust s until leftover is no longer negative
      while leftover < 0 && s > 0
        invariant Shape(bap, |channels|) && AllocatedTo(bap, f, 6, s) && leftover == Left(f, avail, s)
        invariant Descend(f, avail, turn) == Descend(f, avail, s)
        decreases s
      {
        s := s - 1;
        leftover := Probe(avail, s, f);
      }
    }

    /** The fast search: steps of 16 only. */
    method FastSearch(avail: int, start: int, ghost f: FrameIn) returns (s: int, leftover: int)
      requires Bands() && f.Valid() && f == Frame() && PreparedTables(psd, mask, f) && Shape(bap, |channels|)
      modifies this`bap
      ensures Shape(bap, |channels|) && AllocatedTo(bap, f, 6, s)
      ensures s == Fast(f, avail, start) && leftover == Left(f, avail, s)
    {
      hide Cost, FrameIn.Valid, AllocatedTo, PreparedTables, Bands, Shape;
      s := start;
      leftover := Probe(avail, s, f);
      var snr0, snr1, leftover0, leftover1 := s, s, leftover, leftover;
      if leftover != 0 {
        if leftover > 0 {
          while leftover1 > 0 && snr1 + 16 <= 1023
            invariant Shape(bap, |channels|) && AllocatedTo(bap, f, 6, snr1) && leftover1 == Left(f, avail, snr1)
            invariant FastUp(f, avail, start, start) == FastUp(f, avail, snr0, snr1)
            invariant snr0 == snr1 ==> snr1 == start
            decreases if snr1 > 1023 then 0 else 1024 - snr1
          {
            snr0, leftover0 := snr1, leftover1;
            snr1 := snr1 + 16;
            leftover1 := Probe(avail, snr1, f);
          }
        } else {
          while leftover0 < 0 && snr0 - 16 >= 0
            invariant Shape(bap, |channels|) && AllocatedTo(bap, f, 6, snr0) && leftover0 == Left(f, avail, snr0)
            invariant FastDown(f, avail, start) == FastDown(f, avail, snr0)
            invariant snr0 == snr1 ==> snr0 == start
            invariant snr0 <= snr1
            decreases if snr0 > 0 then snr0 else 0
          {
            snr1, leftover1 := snr0, leftover0;
            snr0 := snr0 - 16;
            leftover0 := Probe(avail, snr0, f);
          }
        }
      }
      if snr0 != snr1 {
        s := snr0;
        leftover := Probe(avail, s, f);
      }
    }

    /** The configured search; everything but the pointers stays as it is. */
    method RunSearch(avail: int, start: int) returns (s: int, leftover: int)
      requires Valid() && Started() && Prepared()
      modifies this`bap
      ensures Valid() && Started() && Prepared() && Allocated(s)
      ensures s == Found(cfg, Frame(), avail, start) && leftover == Left(Frame(), avail, s)
    {
      ghost var f := Frame();
      hide Cost, Fast, Accurate, AllocatedTo, PreparedTables;
      if cfg.fast {
        s, leftover := FastSearch(avail, start, f);
      } else {
        s, leftover := AccurateSearch(avail, start, f);
      }
    }

    /** Bits of the frame that mantissas may use. */
    function Available(): int
      reads this`frameSize, this`frameBits, this`expBits
    {
      16 * frameSize - (frameBits + expBits)
    }

    /** Where the search starts: the requested quality, or the previous frame's. */
    function StartPosition(): int
      reads this`lastQuality
    {
      if cfg.vbr then cfg.vbrQuality else lastQuality
    }

    /** What a completed allocation has left in the frame: the pointers of position r, and r itself on success. */
    ghost predicate Settled(r: int, avail: int, ok: bool)
      requires Valid() && Frame().Valid()
      reads this`p, this`mantBits, this`csnroffst, this`fsnroffst, this`quality, this`lastQuality
      reads this`psd, this`mask, this`bap, this`fgaincod, this`writeSnr, bandStart, binToBand
    {
      Allocated(r) && mantBits == Cost(Frame(), r) && (ok <==> Fits(Frame(), avail, r)) &&
      (ok ==> csnroffst == r / 16 && fsnroffst == r % 16 && quality == r && lastQuality == r)
    }

    /** cbr_bit_allocation: the search, and the frame fields it leaves behind. */
    method CbrBitAllocation(prepare: bool) returns (ok: bool)
      requires Valid() && Started() && (prepare || Prepared())
      modifies this`psd, this`mask, this`bap, this`mantBits, this`csnroffst, this`fsnroffst, this`quality,
               this`lastQuality
      ensures Valid() && Started() && Prepared()
      ensures Settled(Found(cfg, Frame(), Available(), old(StartPosition())), Available(), ok)
      ensures !ok ==> lastQuality == old(lastQuality)
    {
      hide Valid, Started, Prepared, Settled, Found, FrameIn.Valid;
      if prepare {
        BitAllocPrepare();
      }
      ok := Settle();
    }

    method Settle() returns (ok: bool)
      requires Valid() && Started() && Prepared()
      modifies this`bap, this`mantBits, this`csnroffst, this`fsnroffst, this`quality, this`lastQuality
      ensures Valid() && Started() && Prepared()
      ensures Settled(Found(cfg, Frame(), Available(), old(StartPosition())), Available(), ok)
      ensures !ok ==> lastQuality == old(lastQuality)
    {
      hide Cost, Settled, FrameIn.Valid, Found, Started, Prepared, Allocated, Valid;
      var avail := 16 * frameSize - (frameBits + expBits);
      var start := if cfg.vbr then cfg.vbrQuality else lastQuality;
      var s, leftover := RunSearch(avail, start);
      ok := StoreResult(avail, s, leftover);
    }

    /** The frame fields a search leaves behind; false when the data does not fit. */
    method StoreResult(avail: int, s: int, leftover: int) returns (ok: bool)
      requires Valid() && Started() && Prepared() && Allocated(s) && leftover == Left(Frame(), avail, s)
      modifies this`mantBits, this`csnroffst, this`fsnroffst, this`quality, this`lastQuality
      ensures Valid() && Started() && Prepared() && Settled(s, avail, ok)
      ensures !ok ==> lastQuality == old(lastQuality)
    {
      hide Cost, FrameIn.Valid, Started, Prepared, Allocated, Valid;
      mantBits := avail - leftover;
      if leftover < 0 {
        return false;
      }
      StorePosition(s);
      return true;
    }

    /** Sets the encoding parameters; the last position becomes the next frame's starting point. */
    method StorePosition(s: int)
      modifies this`csnroffst, this`fsnroffst, this`quality, this`lastQuality
      ensures csnroffst == s / 16 && fsnroffst == s % 16 && quality == s && lastQuality == s
    {
      csnroffst := s / 16;
      fsnroffst := s % 16;
      quality := s;
      lastQuality := s;
    }

    /** The smallest frame size index up to the limit that holds the data, or the limit. */
    ghost predicate SizeChosen(i: nat, need: int)
      requires cfg.Valid()
    {
      i <= cfg.frmsizecod && (forall j :: 0 <= j < i ==> FrameSizeTab(j, cfg.fscod) < need) &&
      (i < cfg.frmsizecod ==> FrameSizeTab(i, cfg.fscod) >= need)
    }

    method ChooseSize(need: int) returns (i: nat, bits: nat)
      requires cfg.Valid()
      ensures i <= cfg.frmsizecod && SizeChosen(i, need) && bits == FrameSizeTab(i, cfg.fscod)
    {
      bits := 0;
      i := 0;
      while i <= cfg.frmsizecod
        invariant i <= cfg.frmsizecod + 1
        invariant forall j :: 0 <= j < i ==> FrameSizeTab(j, cfg.fscod) < need
        invariant i > 0 ==> bits == FrameSizeTab(i - 1, cfg.fscod)
      {
        bits := FrameSizeTab(i, cfg.fscod);
        if bits >= need { break; }
        i := i + 1;
      }
      i := Min(i, cfg.frmsizecod);
    }

    /** The frame fields hold the size chosen for `need` bits and the bit rate that goes with it. */
    ghost predicate FrameChosen(need: int)
      requires cfg.Valid()
      reads this`frmsizecod, this`frameSize, this`frameSizeMin, this`bitRate
    {
      SizeChosen(frmsizecod, need) && 16 * frameSize == FrameSizeTab(frmsizecod, cfg.fscod) &&
      frameSizeMin == frameSize && bitRate == Shr(BitrateTab(frmsizecod / 2), cfg.halfratecod)
    }

    method ChooseFrame(need: int)
      requires cfg.Valid()
      modifies this`frmsizecod, this`frameSize, this`frameSizeMin, this`bitRate
      ensures FrameChosen(need)
    {
      hide FrameSizeTab, BitrateTab;
      var i, size := ChooseSize(need);
      SizesAreWords(i, cfg.fscod);
      bitRate := Shr(BitrateTab(i / 2), cfg.halfratecod);
      frmsizecod := i;
      frameSize := size / 16;
      frameSizeMin := frameSize;
    }

    /** Bits the frame needs at the requested quality. */
    method MeasureQuality() returns (need: int)
      requires Valid() && Started()
      modifies this`psd, this`mask, this`bap
      ensures Valid() && Started() && Prepared() && need == frameBits + expBits + Cost(Frame(), cfg.vbrQuality)
    {
      hide *;
      BitAllocPrepare();
      need := BitAllocate(cfg.vbrQuality);
      need := need + frameBits + expBits;
    }

    lemma CfgValid()
      requires Valid()
      ensures cfg.Valid()
    {
    }

    lemma StartsAtQuality()
      requires cfg.vbr
      ensures StartPosition() == cfg.vbrQuality
    {
    }

    /** vbr_bit_allocation: the frame size the requested quality needs, then the search inside that frame. */
    method VbrBitAllocation() returns (ok: bool)
      requires Valid() && Started() && cfg.vbr
      modifies this`psd, this`mask, this`bap, this`mantBits, this`csnroffst, this`fsnroffst, this`quality,
               this`lastQuality, this`frmsizecod, this`frameSize, this`frameSizeMin, this`bitRate
      ensures Valid() && Started() && Prepared()
      ensures FrameChosen(frameBits + expBits + Cost(Frame(), cfg.vbrQuality))
      ensures Settled(Found(cfg, Frame(), Available(), cfg.vbrQuality), Available(), ok)
    {
      hide *;
      CfgValid();
      var need := MeasureQuality();
      ChooseFrame(need);
      StartsAtQuality();
      ok := CbrBitAllocation(false);
    }

    /** The header's size code stands for the frame's size. */
    ghost predicate SizeRight()
      requires cfg.Valid()
      reads this`frmsizecod, this`frameSize, this`frameSizeMin
    {
      frameSize >= frameSizeMin && frmsizecod + (frameSize - frameSizeMin) < 38 &&
      16 * frameSize == FrameSizeTab(frmsizecod + (frameSize - frameSizeMin), cfg.fscod)
    }

    lemma ChosenIsRight(need: int)
      requires cfg.Valid() && FrameChosen(need)
      ensures SizeRight()
    {
    }

    lemma SettledMeans(r: int, avail: int, ok: bool)
      requires Valid() && Frame().Valid() && Settled(r, avail, ok)
      ensures ok <==> Fits(Frame(), avail, r)
      ensures ok ==> quality == r && csnroffst == r / 16 && fsnroffst == r % 16 && AllocatedTo(bap, Frame(), 6, r)
    {
      hide Valid, Frame, AllocatedTo, Cost;
    }

    lemma StartedMeans()
      requires Valid() && Started()
      ensures cfg.Valid() && codes.Valid() && Frame().Valid() && Frame() == FrameIn(channels, LoadParams(cfg, codes))
      ensures ValidChannels(cfg, channels) && frameBits == FrameBits(cfg, channels)
      ensures |bap| == |fgaincod| == |writeSnr| == 6
      ensures forall b :: 0 <= b < 6 ==> |fgaincod[b]| == |channels| && writeSnr[b] == WriteSnr(channels, b)
      ensures forall b, ch :: 0 <= b < 6 && 0 <= ch < |channels| ==> fgaincod[b][ch] == FgainCod(channels[ch], b)
    {
      hide LoadParams, FrameBits, WriteSnr, FgainCod, Channel.Valid;
    }

    /** compute_bit_allocation. On success the frame holds the allocation of position `quality`, which fits. */
    method ComputeBitAllocation() returns (ok: bool)
      requires Valid() && (!cfg.vbr ==> SizeRight())
      modifies this`psd, this`mask, this`bap, this`mantBits, this`csnroffst, this`fsnroffst, this`quality,
               this`lastQuality, this`frmsizecod, this`frameSize, this`frameSizeMin, this`bitRate,
               this`p, this`frameBits, this`fgaincod, this`writeSnr
      ensures Valid() && Started() && SizeRight()
      ensures var r := Found(cfg, Frame(), Available(), old(StartPosition()));
        (ok <==> Fits(Frame(), Available(), r)) &&
        (ok ==> quality == r && csnroffst == r / 16 && fsnroffst == r % 16 && AllocatedTo(bap, Frame(), 6, r))
      ensures !cfg.vbr ==> frameSize == old(frameSize)
    {
      hide *;
      CfgValid();
      StartBitAllocation();
      StartedMeans();
      if cfg.vbr {
        StartsAtQuality();
        ok := VbrBitAllocation();
        ChosenIsRight(frameBits + expBits + Cost(Frame(), cfg.vbrQuality));
      } else {
        ok := CbrBitAllocation(true);
      }
      StartedMeans();
      SettledMeans(Found(cfg, Frame(), Available(), old(StartPosition())), Available(), ok);
    }

    /** After a successful allocation every block's pointers are the ones a decoder computes: from that block's own
        exponents, the fast gain code most recently transmitted, and the offset the two SNR codes stand for. */
    lemma DecoderAgrees(r: int, avail: int, b: nat, ch: nat)
      requires Valid() && Started() && Settled(r, avail, true) && b < 6 && ch < |channels|
      ensures |bap[b][ch]| == 256
      ensures bap[b][ch][..channels[ch].ncoefs] ==
        Baps(channels[ch].exp[b], channels[ch].ncoefs, p, Replayed(channels, ch, b),
             DecoderOffset(csnroffst, fsnroffst))
    {
      DecoderOffsetIs(r);
      ReplayedIsCurrent(channels, ch, b);
      assert AllocatedRow(bap[b][ch], Frame().channels[ch], p, b, r);
    }
  }

  /** The running counts start at the padding of a whole group and then count pointers 1 to 4. */
  ghost predicate Counted(mantCnt: seq<nat>, rows: seq<seq<nat>>)
  {
    |mantCnt| == 5 && mantCnt[1] == 2 + Count(Flat(rows), 1) && mantCnt[2] == 2 + Count(Flat(rows), 2) &&
    mantCnt[3] == Count(Flat(rows), 3) && mantCnt[4] == 1 + Count(Flat(rows), 4)
  }

  lemma BapRowIs(row: seq<Byte>, m: seq<Int16>, s: seq<Int16>, c: Channel, p: Params, b: nat, pos: int)
    requires c.Valid() && p.Valid() && b < 6 && PreparedRow(s, m, c, p, b) && |row| == 256
    requires forall k :: 0 <= k < c.ncoefs ==>
      BandOf(k) < 50 && row[k] == Bap(m[BandOf(k)], s[k], SnrOffset(pos), p.floor)
    ensures AllocatedRow(row, c, p, b, pos)
  {
    var r := Baps(c.exp[b], c.ncoefs, p, FgainCod(c, b), SnrOffset(pos));
    forall k | 0 <= k < c.ncoefs
      ensures row[k] == r[k]
    {
      BinBelowBandEnd(c.ncoefs, k);
      assert s[k] == s[..c.ncoefs][k];
      assert m[BandOf(k)] == m[..BandEnd(c.ncoefs)][BandOf(k)];
    }
  }

  lemma RowOf(row: seq<Byte>, f: FrameIn, ch: nat, b: nat, s: int)
    requires f.Valid() && ch < |f.channels| && b < 6 && AllocatedRow(row, f.channels[ch], f.p, b, s)
    ensures f.channels[ch].ncoefs <= |row| && row[..f.channels[ch].ncoefs] == BlockRows(f, b, s)[ch]
  {
  }

  lemma FlatPush(rows: seq<seq<nat>>, n: nat)
    requires n < |rows|
    ensures Flat(rows[..n + 1]) == Flat(rows[..n]) + rows[n]
    ensures Wide(Flat(rows[..n + 1])) == Wide(Flat(rows[..n])) + Wide(rows[n])
    ensures forall b :: Count(Flat(rows[..n + 1]), b) == Count(Flat(rows[..n]), b) + Count(rows[n], b)
  {
    assert rows[..n + 1][..n] == rows[..n];
    WideConcat(Flat(rows[..n]), rows[n]);
    forall b
      ensures Count(Flat(rows[..n + 1]), b) == Count(Flat(rows[..n]), b) + Count(rows[n], b)
    {
      CountConcat(Flat(rows[..n]), rows[n], b);
    }
  }

  lemma NothingFlat(rows: seq<seq<nat>>)
    ensures Flat(rows[..0]) == [] && Wide(Flat(rows[..0])) == 0 && forall b :: Count(Flat(rows[..0]), b) == 0
  {
  }

  lemma CostEnds(f: FrameIn, s: int)
    requires f.Valid()
    ensures CostOf(f, s, 0) == 0 && Cost(f, s) == CostOf(f, s, 6)
  {
  }

  lemma CostStep(f: FrameIn, s: int, n: nat)
    requires f.Valid() && n < 6
    ensures CostOf(f, s, n + 1) == CostOf(f, s, n) + BlockBits(Flat(BlockRows(f, n, s)))
  {
  }

  lemma WideOfRows(rows: seq<seq<nat>>)
    ensures forall n :: 0 <= n < |rows| ==> Wide(Flat(rows[..n + 1])) == Wide(Flat(rows[..n])) + Wide(rows[n])
  {
    forall n | 0 <= n < |rows|
      ensures Wide(Flat(rows[..n + 1])) == Wide(Flat(rows[..n])) + Wide(rows[n])
    {
      FlatPush(rows, n);
    }
  }

  lemma CountedPush(before: seq<nat>, after: seq<nat>, rows: seq<seq<nat>>, ch: nat)
    requires ch < |rows| && |after| == 5 && Counted(before, rows[..ch])
    requires forall b :: 0 <= b < 5 ==> after[b] == before[b] + Count(rows[ch], b)
    ensures Counted(after, rows[..ch + 1])
  {
    FlatPush(rows, ch);
  }

  lemma BlockBitsFrom(mantCnt: seq<nat>, rows: seq<seq<nat>>)
    requires Counted(mantCnt, rows[..|rows|])
    ensures rows[..|rows|] == rows
    ensures BlockBits(Flat(rows)) ==
      Wide(Flat(rows)) + (mantCnt[1] / 3 * 5 + (mantCnt[2] / 3 + mantCnt[4] / 2) * 7 + mantCnt[3] * 3)
  {
    hide Flat, Wide, Count;
    assert rows[..|rows|] == rows;
  }

  lemma AllocatedNone(bap: seq<seq<seq<Byte>>>, f: FrameIn, s: int)
    requires f.Valid() && Shape(bap, |f.channels|)
    ensures AllocatedTo(bap, f, 0, s)
  {
  }

  lemma AllocatedAll(bap: seq<seq<seq<Byte>>>, f: FrameIn, s: int)
    requires f.Valid() && AllocatedTo(bap, f, 6, s)
    ensures Shape(bap, |f.channels|)
  {
  }

  lemma SizesAreWords(i: nat, fscod: nat)
    requires i < 38 && fscod < 3
    ensures FrameSizeTab(i, fscod) % 16 == 0 && FrameSizeTab(i, fscod) <= 30720
  {
  }

  /** When the requested quality fits the chosen frame, exactly when VBR does not end below it: always with the fast
      search, and with the accurate one unless it jumps below 0 and cannot climb back. */
  lemma VbrQualityKept(cfg: Config, f: FrameIn, avail: int, quality: int)
    requires f.Valid() && 0 <= quality <= 1023 && Fits(f, avail, quality)
    ensures var r, nch := Found(cfg, f, avail, quality), cfg.Channels(); var p := Jumps(f, avail, nch, quality);
      r >= quality && Fits(f, avail, r) <==> cfg.fast || (p < 0 ==> AllRise(f, avail, Search.Step(nch), p))
  {
    hide Cost, FrameIn.Valid, Accurate, Fast, Jumps, AllRise, Fits;
    if cfg.fast {
      Search.FastSearch(f, avail, quality);
    } else {
      AccurateKeepsStart(f, avail, cfg.Channels(), quality);
    }
  }
}
