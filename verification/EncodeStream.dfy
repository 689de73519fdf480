/** Frames encoded one after the other by one thread context (process_frame, a52enc.c:1294-1348): what passes from
    frame to frame are the rate counters and the quality the next search starts at. */
module EncodeStream {
  import opened Arithmetic
  import opened BitStrings
  import opened Tables
  import opened Allocation
  import opened BitAlloc
  import opened FrameSyntax
  import opened FrameOutput
  import opened FrameExponents
  import opened Encoder
  import opened RateControl
  import opened RateWrap
  import Search
  import Crc
  import StreamRate
  import D = FrameDecoder
  import Jump = JumpRange

  // ---------- the quality a stream starts with ----------

  /** The bit rate of one channel. */
  function Share(b: nat, nch: nat): nat
    requires nch > 0
  {
    b / nch
  }

  /** last_quality of a new thread context. */
  function InitialQuality(r: Rate, nch: nat, vbr: bool, quality: nat): nat
    requires r.Valid() && nch > 0
  {
    if vbr then quality else Share(r.BitRate(), nch) * 35 / 24 + 95 + 25 * r.half
  }

  /** By its rounding: 35/24 of the bit rate of one channel, rounded down twice, and 95, and 25 more for each halving
      of the sample rate. */
  lemma InitialQualityIs(r: Rate, nch: nat, share: nat)
    requires r.Valid() && nch > 0 && share * nch <= r.BitRate() < share * nch + nch
    ensures var q := InitialQuality(r, nch, false, 0) - 95 - 25 * r.half; 24 * q <= 35 * share < 24 * q + 24
    ensures forall quality: nat :: InitialQuality(r, nch, true, quality) == quality
  {
    hide Rate.BitRate;
    DivisionUnique(r.BitRate(), nch, share, r.BitRate() - share * nch);
  }

  lemma ShareOfRate(b: nat, nch: nat)
    requires 1 <= nch <= 5 && b <= 640 && (b > 576 ==> b == 640)
    ensures b / nch <= 576 <==> b != 640 || nch > 1
    ensures b / nch <= b && (nch == 1 ==> b / nch == b)
  {
    DivMod(b, nch);
    MulMono(1, nch, b / nch);
    if nch > 1 { MulMono(2, nch, b / nch); }
  }

  /** Exactly when a stream starts at a quality the SNR codes can express: mono at 640 kbps does not, it starts at
      1028. */
  lemma StartsInRange(r: Rate, nch: nat, vbr: bool, quality: nat)
    requires r.Valid() && 1 <= nch <= 5 && quality <= 1023
    ensures InitialQuality(r, nch, vbr, quality) <= 1023 <==> vbr || r != Rate(18, r.fscod, 0) || nch > 1
    ensures r == Rate(18, r.fscod, 0) && nch == 1 && !vbr ==> InitialQuality(r, nch, vbr, quality) == 1028
  {
    BitRates(r);
    ShareOfRate(r.BitRate(), nch);
    hide Rate.BitRate;
    var share := Share(r.BitRate(), nch);
    hide Share;
  }

  lemma BitRates(r: Rate)
    requires r.Valid()
    ensures r.BitRate() <= 640 && (r.half > 0 ==> r.BitRate() <= 320) && (r.BitRate() > 576 ==> r.BitRate() == 640)
    ensures r.BitRate() == 640 <==> r == Rate(18, r.fscod, 0)
  {
  }

  // ---------- one thread context ----------

  /** Size and starting point of frame n of a stream at constant bit rate. */
  function SizingAt(r: Rate, n: nat, quality: int): Sizing
    requires r.Valid()
  {
    Sizing(2 * r.index, FrameWords(r, n), r.MinWords(), r.BitRate(), quality)
  }

  lemma {:induction false} SettledStays(c: Counts, kbps: nat, srate: nat)
    requires kbps > 0 && srate > 0
    ensures Settle(Settle(c, kbps, srate), kbps, srate) == Settle(c, kbps, srate)
    decreases c.bits
  {
    if c.bits >= kbps && c.samples >= srate { SettledStays(Counts(c.bits - kbps, c.samples - srate), kbps, srate); }
  }

  class ThreadContext {
    const rate: Rate
    const tables: Context
    const counter: RateCounter
    var lastQuality: int

    constructor (r: Rate, nch: nat, t: Context)
      requires r.Valid() && nch > 0
      ensures rate == r && tables == t && fresh(counter) && Due(0)
      ensures lastQuality == InitialQuality(r, nch, false, 0)
    {
      rate, tables := r, t;
      counter := new RateCounter(r);
      lastQuality := InitialQuality(r, nch, false, 0);
    }

    /** The next frame is frame n of the run; a frame that failed may have settled the counters already. */
    ghost predicate Due(n: nat)
      reads counter
    {
      rate.Valid() && counter.rate == rate &&
      Settle(counter.Now(), rate.Kbps(), rate.SampleRate()) == AtFrame(rate, n)
    }

    /** process_frame at constant bit rate, frame n of the run: the frame is produced with the size and from the start
        that are due, and only a frame that was produced moves the run and the starting quality on. */
    method EncodeFrame(inp: Input, frame: array<Byte>, ghost n: nat)
        returns (channels: seq<Channel>, r: Outcome, words: nat)
      requires tables.Ready() && inp.Valid() && Due(n)
      requires inp.cfg.Valid() && !inp.cfg.vbr && inp.cfg.fscod == rate.fscod && inp.cfg.halfratecod == rate.half
      requires MAX_FRAME <= frame.Length
      requires tables.crcTab as object != frame && tables.bandStart != frame && tables.binToBand != frame
      modifies this`lastQuality, counter, frame
      ensures tables.Ready() && words == FrameWords(rate, n)
      ensures AllCoded(inp, channels, |inp.coef|) && inp.codes.Valid() && ValidChannels(inp.cfg, channels)
      ensures FrameOf(inp, channels).Valid() && Rowed(inp, FrameOf(inp, channels))
      ensures Produced(inp, channels, SizingAt(rate, n, old(lastQuality)), r, words, frame[..])
      ensures r.ok ==> counter.Now() == Run(rate, n + 1) && Due(n + 1) && lastQuality == r.quality
      ensures !r.ok ==> Due(n) && lastQuality == old(lastQuality) && frame[..] == old(frame[..])
    {
      hide *;
      DueMeans(n);
      counter.AdjustFrameSize();
      SizeIsDue(n, lastQuality);
      channels, r, words := ProcessFrame(tables, inp, SizingOf(lastQuality), frame);
      ProducedSize(inp, channels, rate, n, lastQuality, r, words, frame[..]);
      if r.ok {
        counter.CountFrame();
        Counted(n, AtFrame(rate, n));
        lastQuality := r.quality;
      }
    }

    /** Size and starting point as the context holds them. */
    function SizingOf(quality: int): Sizing
      requires rate.Valid()
      reads counter
    {
      Sizing(2 * rate.index, counter.frameSize, rate.MinWords(), rate.BitRate(), quality)
    }

    lemma DueMeans(n: nat)
      requires Due(n)
      ensures rate.Valid() && counter.rate == rate
      ensures Settle(counter.Now(), rate.Kbps(), rate.SampleRate()) == AtFrame(rate, n)
    {
    }

    lemma SizeIsDue(n: nat, quality: int)
      requires rate.Valid() && counter.rate == rate && counter.Now() == AtFrame(rate, n)
      requires counter.frameSize ==
        rate.MinWords() + P2N(Pads(counter.Now(), rate.Kbps(), rate.SampleRate()))
      ensures SizingOf(quality) == SizingAt(rate, n, quality) && SizingOf(quality).Right(rate.fscod) && Due(n)
      ensures counter.frameSize == FrameWords(rate, n)
    {
      hide Settle, Run, Pads, Rate.Kbps, Rate.SampleRate, Rate.MinWords, Rate.BitRate, Sizing.Right;
      RunSizesRight(rate, n, quality);
      SettledStays(Run(rate, n), rate.Kbps(), rate.SampleRate());
    }

    lemma Counted(n: nat, c: Counts)
      requires rate.Valid() && counter.rate == rate && c == AtFrame(rate, n) && counter.frameSize == FrameWords(rate, n)
      requires counter.Now() == Counts(Wrap(c.bits + 16 * counter.frameSize), Wrap(c.samples + SAMPLES))
      ensures counter.Now() == Run(rate, n + 1) && Due(n + 1)
    {
      hide Settle, Run, Pads, Rate.Kbps, Rate.SampleRate, Rate.MinWords, Wrap;
      NextCounts(rate, n);
    }
  }

  lemma ProducedSize(inp: Input, channels: seq<Channel>, r: Rate, n: nat, quality: int, o: Outcome, words: nat,
                     bytes: seq<Byte>)
    requires inp.cfg.Valid() && inp.codes.Valid() && ValidChannels(inp.cfg, channels) && FrameOf(inp, channels).Valid()
    requires r.Valid() && !inp.cfg.vbr && Rowed(inp, FrameOf(inp, channels))
    requires Produced(inp, channels, SizingAt(r, n, quality), o, words, bytes)
    ensures words == FrameWords(r, n)
  {
    hide LoadParams, FrameSizeTab, Channel.Valid, FrameIn.Valid, Rowed, Cost, Room, Found, Delivered, FrameWords;
  }

  // ---------- a whole stream ----------

  /** An input for a stream of rate r with settings cfg. */
  ghost predicate Encodable(r: Rate, cfg: Config, inp: Input)
  {
    inp.Valid() && inp.cfg == cfg && cfg.Valid() && !cfg.vbr && cfg.fscod == r.fscod && cfg.halfratecod == r.half
  }

  /** Silence, every setting at its least. */
  function Silence(cfg: Config): Input
  {
    Input(cfg, Meta(0, 0, 0, 0, 0, 0, 0, 0, 0, 0, 0, 0, 0), ParamCodes(0, 0, 0, 0, 0), 0, [0, 0, 0, 0],
          seq(6, _ => seq(cfg.Channels(), _ => 0)), seq(6, _ => seq(cfg.Channels(), _ => 0)), seq(6, _ => 0),
          seq(cfg.Channels(), _ => 0), seq(cfg.AllChannels(), _ => seq(6, _ => seq(256, _ => 0))))
  }

  /** Every rate has streams. */
  lemma SilenceEncodable(r: Rate, cfg: Config)
    requires r.Valid() && cfg.Valid() && !cfg.vbr && cfg.fscod == r.fscod && cfg.halfratecod == r.half
    ensures Encodable(r, cfg, Silence(cfg))
  {
    var inp := Silence(cfg);
    forall ch | 0 <= ch < |inp.coef|
      ensures SmallRows(inp.coef[ch])
    {
      assert forall b :: 0 <= b < 6 ==> inp.coef[ch][b] == seq(256, _ => 0);
    }
  }

  /** A frame of a stream that was produced. */
  datatype Done = Done(channels: seq<Channel>, quality: int, sizeCode: nat, bytes: seq<Byte>)

  /** The quality frame n is searched from: that of the frame before. */
  function StartAt(r: Rate, cfg: Config, done: seq<Done>, n: nat): int
    requires r.Valid() && n <= |done|
  {
    if n == 0 then InitialQuality(r, cfg.Channels(), false, 0) else done[n - 1].quality
  }

  ghost predicate Prepared(inp: Input, channels: seq<Channel>)
  {
    inp.Valid() && AllCoded(inp, channels, |inp.coef|) && inp.cfg.Valid() && inp.codes.Valid() &&
    ValidChannels(inp.cfg, channels) && FrameOf(inp, channels).Valid() && Rowed(inp, FrameOf(inp, channels))
  }

  /** Frame n, searched from `start`, is produced as ProcessFrame promises, with the size due. */
  ghost predicate FrameDone(r: Rate, inp: Input, n: nat, start: int, d: Done)
    requires r.Valid()
  {
    Prepared(inp, d.channels) && |d.bytes| == 2 * FrameWords(r, n) &&
    Produced(inp, d.channels, SizingAt(r, n, start), Outcome(true, |d.bytes|, d.quality, d.sizeCode), FrameWords(r, n),
             d.bytes)
  }

  ghost predicate AllDone(r: Rate, cfg: Config, inputs: seq<Input>, done: seq<Done>)
    requires r.Valid()
  {
    |done| <= |inputs| &&
    forall n :: 0 <= n < |done| ==> FrameDone(r, inputs[n], n, StartAt(r, cfg, done, n), done[n])
  }

  function Length(done: seq<Done>): nat
  {
    if done == [] then 0 else Length(done[..|done| - 1]) + |done[|done| - 1].bytes|
  }

  lemma DonePush(r: Rate, cfg: Config, inputs: seq<Input>, done: seq<Done>, d: Done)
    requires r.Valid() && AllDone(r, cfg, inputs, done) && |done| < |inputs|
    requires FrameDone(r, inputs[|done|], |done|, StartAt(r, cfg, done, |done|), d)
    ensures AllDone(r, cfg, inputs, done + [d]) && StartAt(r, cfg, done + [d], |done| + 1) == d.quality
  {
    hide FrameDone, InitialQuality;
    var all := done + [d];
    forall n | 0 <= n < |all|
      ensures FrameDone(r, inputs[n], n, StartAt(r, cfg, all, n), all[n])
    {
      assert StartAt(r, cfg, all, n) == StartAt(r, cfg, done, n);
    }
  }

  lemma PreparedFrom(r: Rate, inp: Input, n: nat, start: int, channels: seq<Channel>, o: Outcome, frame: seq<Byte>)
    requires inp.Valid() && AllCoded(inp, channels, |inp.coef|) && inp.cfg.Valid() && inp.codes.Valid()
    requires ValidChannels(inp.cfg, channels) && FrameOf(inp, channels).Valid() && Rowed(inp, FrameOf(inp, channels))
    requires r.Valid() && Produced(inp, channels, SizingAt(r, n, start), o, FrameWords(r, n), frame) && o.ok
    ensures Prepared(inp, channels) && 0 <= o.size <= |frame|
  {
    hide LoadParams, FrameSizeTab, Channel.Valid, FrameIn.Valid, Rowed, Cost, Room, Found, Delivered, FrameWords,
      SizingAt, AllCoded, Input.Valid;
  }

  lemma FrameDoneFrom(r: Rate, inp: Input, n: nat, start: int, channels: seq<Channel>, o: Outcome, frame: seq<Byte>,
                      d: Done)
    requires r.Valid() && Prepared(inp, channels) && o.ok
    requires Produced(inp, channels, SizingAt(r, n, start), o, FrameWords(r, n), frame)
    requires 0 <= o.size <= |frame| && d == Done(channels, o.quality, o.sizeCode, frame[..o.size])
    ensures FrameDone(r, inp, n, start, d)
  {
    hide LoadParams, FrameSizeTab, Channel.Valid, FrameIn.Valid, Rowed, Cost, Room, Found, Delivered, FrameWords,
      Prepared, SizingAt;
    assert d.bytes[..o.size] == d.bytes;
  }

  /** The position the search of frame n settles on does not fit. */
  ghost predicate FrameFails(r: Rate, inp: Input, n: nat, start: int)
    requires r.Valid()
  {
    exists channels :: Prepared(inp, channels) &&
      !Encoder.Fits(inp, channels, FrameWords(r, n), Position(inp, channels, FrameWords(r, n), SizingAt(r, n, start)))
  }

  lemma FailsFrom(r: Rate, inp: Input, n: nat, start: int, channels: seq<Channel>, o: Outcome, frame: seq<Byte>)
    requires inp.Valid() && AllCoded(inp, channels, |inp.coef|) && inp.cfg.Valid() && inp.codes.Valid()
    requires ValidChannels(inp.cfg, channels) && FrameOf(inp, channels).Valid() && Rowed(inp, FrameOf(inp, channels))
    requires r.Valid() && Produced(inp, channels, SizingAt(r, n, start), o, FrameWords(r, n), frame) && !o.ok
    ensures FrameFails(r, inp, n, start)
  {
    hide LoadParams, FrameSizeTab, Channel.Valid, FrameIn.Valid, Rowed, Cost, Room, Found, Delivered, FrameWords,
      SizingAt, AllCoded, Input.Valid;
    assert Prepared(inp, channels);
  }

  /** The frames of a stream at constant bit rate, one after the other, until one cannot be produced. */
  method EncodeFrames(r: Rate, cfg: Config, inputs: seq<Input>) returns (done: seq<Done>)
    requires r.Valid() && forall n :: 0 <= n < |inputs| ==> Encodable(r, cfg, inputs[n])
    ensures AllDone(r, cfg, inputs, done)
    ensures |done| <= |inputs|
    ensures |done| < |inputs| ==> FrameFails(r, inputs[|done|], |done|, StartAt(r, cfg, done, |done|))
  {
    hide *;
    var tables := InitContext();
    var t := new ThreadContext(r, cfg.Channels(), tables);
    var frame := new Byte[MAX_FRAME];
    done := [];
    NothingDone(r, cfg, inputs);
    var ok := true;
    while ok && |done| < |inputs|
      invariant tables.Ready() && t.rate == r && t.tables == tables && fresh(t) && fresh(t.counter) && fresh(frame)
      invariant frame.Length == MAX_FRAME
      invariant AllDone(r, cfg, inputs, done) && |done| <= |inputs|
      invariant !ok ==>
        |done| < |inputs| && FrameFails(r, inputs[|done|], |done|, StartAt(r, cfg, done, |done|))
      invariant t.Due(|done|) && t.lastQuality == StartAt(r, cfg, done, |done|)
      decreases |inputs| - |done|, ok
    {
      var n := |done|;
      EncodableMeans(r, cfg, inputs[n]);
      var channels, o, words := t.EncodeFrame(inputs[n], frame, n);
      ok := o.ok;
      if ok {
        PreparedFrom(r, inputs[n], n, StartAt(r, cfg, done, n), channels, o, frame[..]);
        var d := Done(channels, o.quality, o.sizeCode, frame[..o.size]);
        FrameDoneFrom(r, inputs[n], n, StartAt(r, cfg, done, n), channels, o, frame[..], d);
        DonePush(r, cfg, inputs, done, d);
        done := done + [d];
      } else {
        FailsFrom(r, inputs[n], n, StartAt(r, cfg, done, n), channels, o, frame[..]);
      }
    }
  }

  lemma NothingDone(r: Rate, cfg: Config, inputs: seq<Input>)
    requires r.Valid()
    ensures AllDone(r, cfg, inputs, []) && StartAt(r, cfg, [], 0) == InitialQuality(r, cfg.Channels(), false, 0)
  {
  }

  lemma EncodableMeans(r: Rate, cfg: Config, inp: Input)
    requires Encodable(r, cfg, inp)
    ensures inp.Valid() && inp.cfg.Valid() && !inp.cfg.vbr && inp.cfg.fscod == r.fscod && inp.cfg.halfratecod == r.half
  {
  }

  // ---------- what a stream keeps ----------

  /** The bytes of a stream are those its rate counters count, so its drift is that of the run. */
  lemma {:induction false} LengthIs(r: Rate, cfg: Config, inputs: seq<Input>, done: seq<Done>)
    requires r.Valid() && AllDone(r, cfg, inputs, done)
    ensures 8 * Length(done) == StreamRate.StreamBits(r, 1, |done|)
  {
    hide FrameDone, FrameWords;
    if done != [] {
      var n := |done| - 1;
      FirstDone(r, cfg, inputs, done, n);
      LengthIs(r, cfg, inputs, done[..n]);
      SizeDone(r, inputs[n], n, StartAt(r, cfg, done, n), done[n]);
    }
  }

  lemma FirstDone(r: Rate, cfg: Config, inputs: seq<Input>, done: seq<Done>, n: nat)
    requires r.Valid() && AllDone(r, cfg, inputs, done) && n <= |done|
    ensures AllDone(r, cfg, inputs, done[..n])
  {
    hide FrameDone, InitialQuality;
    forall m | 0 <= m < n
      ensures FrameDone(r, inputs[m], m, StartAt(r, cfg, done[..n], m), done[m])
    {
      assert StartAt(r, cfg, done[..n], m) == StartAt(r, cfg, done, m);
    }
  }

  lemma SizeDone(r: Rate, inp: Input, n: nat, start: int, d: Done)
    requires r.Valid() && FrameDone(r, inp, n, start, d)
    ensures |d.bytes| == 2 * FrameWords(r, n)
  {
    hide Prepared, Produced, FrameWords;
  }

  /** The bits of a stream, however long, are less than a word off the bit rate, but for one length in 3675 at 256 kbps
      and 44.1 kHz. */
  lemma StreamLength(r: Rate, cfg: Config, inputs: seq<Input>, done: seq<Done>)
    requires r.Valid() && AllDone(r, cfg, inputs, done)
    ensures var drift := Drift(Counts(8 * Length(done), SAMPLES * |done|), r.Kbps(), r.SampleRate());
      if r == RATE && |done| % PERIOD == 1792 then drift == -840000 < -16 * r.SampleRate()
      else -16 * r.SampleRate() < drift < 16 * r.SampleRate()
  {
    hide AllDone, Run, Rate.Kbps, Rate.SampleRate, Length, Drift, StreamRate.StreamBits, InBounds;
    LengthIs(r, cfg, inputs, done);
    StreamRate.WholeRounds(r, 1, |done|);
    WrappedDrift(r, |done|);
  }

  ghost predicate AllEncodable(r: Rate, cfg: Config, inputs: seq<Input>)
  {
    forall n :: 0 <= n < |inputs| ==> Encodable(r, cfg, inputs[n])
  }

  lemma OneDone(r: Rate, cfg: Config, inputs: seq<Input>, done: seq<Done>, n: nat)
    requires r.Valid() && AllDone(r, cfg, inputs, done) && n < |done|
    ensures |done| <= |inputs| && FrameDone(r, inputs[n], n, StartAt(r, cfg, done, n), done[n])
    ensures Prepared(inputs[n], done[n].channels)
  {
    assert FrameDone(r, inputs[n], n, StartAt(r, cfg, done, n), done[n]);
    hide Prepared, InitialQuality;
  }

  /** Frame n as the search sees it. */
  ghost function TaskOf(r: Rate, inp: Input, d: Done, n: nat): Task
    requires r.Valid() && Prepared(inp, d.channels)
  {
    Task(FrameOf(inp, d.channels), Room(inp.cfg, d.channels, FrameWords(r, n)))
  }

  ghost predicate AllPrepared(inputs: seq<Input>, done: seq<Done>)
  {
    |done| <= |inputs| && forall n :: 0 <= n < |done| ==> Prepared(inputs[n], done[n].channels)
  }

  lemma DonePrepared(r: Rate, cfg: Config, inputs: seq<Input>, done: seq<Done>)
    requires r.Valid() && AllDone(r, cfg, inputs, done)
    ensures AllPrepared(inputs, done)
  {
    hide Prepared, FrameDone, InitialQuality, AllDone;
    forall n: nat | n < |done|
      ensures n < |inputs| && Prepared(inputs[n], done[n].channels)
    {
      OneDone(r, cfg, inputs, done, n);
    }
    DoneCount(r, cfg, inputs, done);
  }

  lemma DoneCount(r: Rate, cfg: Config, inputs: seq<Input>, done: seq<Done>)
    requires r.Valid() && AllDone(r, cfg, inputs, done)
    ensures |done| <= |inputs|
  {
  }

  ghost function TasksOf(r: Rate, inputs: seq<Input>, done: seq<Done>): (t: seq<Task>)
    requires r.Valid() && AllPrepared(inputs, done)
    ensures |t| == |done|
  {
    seq(|done|, n requires 0 <= n < |done| => TaskOf(r, inputs[n], done[n], n))
  }

  lemma TasksValid(r: Rate, inputs: seq<Input>, done: seq<Done>)
    requires r.Valid() && AllPrepared(inputs, done)
    ensures ValidTasks(TasksOf(r, inputs, done))
  {
    forall n | 0 <= n < |done|
      ensures TasksOf(r, inputs, done)[n].f.Valid()
    {
      assert Prepared(inputs[n], done[n].channels);
    }
    hide FrameWords, Channel.Valid, FrameIn.Valid, Rowed, AllCoded;
  }

  lemma SearchDone(r: Rate, cfg: Config, inp: Input, n: nat, start: int, d: Done)
    requires r.Valid() && Encodable(r, cfg, inp) && FrameDone(r, inp, n, start, d)
    ensures Prepared(inp, d.channels)
    ensures var t := TaskOf(r, inp, d, n);
      t.f.Valid() && d.quality == Found(cfg, t.f, t.avail, start) && Search.Fits(t.f, t.avail, d.quality)
  {
    hide LoadParams, FrameSizeTab, Channel.Valid, FrameIn.Valid, Rowed, Cost, Room, Found, Delivered, FrameWords,
      AllCoded, Input.Valid;
  }

  /** The searches of a stream follow the run of StartOf. */
  lemma {:induction false} QualityRun(r: Rate, cfg: Config, inputs: seq<Input>, done: seq<Done>, n: nat)
    requires r.Valid() && AllEncodable(r, cfg, inputs) && AllDone(r, cfg, inputs, done) && n <= |done|
    ensures AllPrepared(inputs, done) && ValidTasks(TasksOf(r, inputs, done))
    ensures StartAt(r, cfg, done, n) ==
      StartOf(cfg, TasksOf(r, inputs, done), InitialQuality(r, cfg.Channels(), false, 0), n)
  {
    hide FrameDone, InitialQuality, TaskOf, Found, Search.Fits, AllDone, Encodable, ValidTasks, Prepared, FrameWords,
      FrameIn.Valid, AllPrepared;
    DonePrepared(r, cfg, inputs, done);
    TasksValid(r, inputs, done);
    DoneCount(r, cfg, inputs, done);
    if n > 0 {
      QualityRun(r, cfg, inputs, done, n - 1);
      OneDone(r, cfg, inputs, done, n - 1);
      SearchDone(r, cfg, inputs[n - 1], n - 1, StartAt(r, cfg, done, n - 1), done[n - 1]);
    }
  }

  /** A decoder finds in the bytes of a frame exactly what the encoder meant. */
  ghost predicate Recovered(inp: Input, d: Done)
    requires Prepared(inp, d.channels)
  {
    Decodes(inp, FrameOf(inp, d.channels), d.quality, d.sizeCode, d.bytes)
  }

  lemma InRangeRecovered(r: Rate, inp: Input, n: nat, start: int, d: Done)
    requires r.Valid() && FrameDone(r, inp, n, start, d) && 0 <= d.quality <= 1023
    ensures Prepared(inp, d.channels) && Recovered(inp, d)
  {
    hide LoadParams, FrameSizeTab, Channel.Valid, FrameIn.Valid, Rowed, Cost, Room, Found, FrameWords, AllCoded,
      Input.Valid, Decodes, Crc.IsCrc, D.SameTo;
    InCodes(FrameOf(inp, d.channels), d.quality);
    assert d.bytes[..|d.bytes|] == d.bytes;
  }

  /** A stream that starts at a quality the SNR codes can express decodes, all frames of it, while its searches stay in
      range; with the fast search always. */
  lemma StreamDecodes(r: Rate, cfg: Config, inputs: seq<Input>, done: seq<Done>)
    requires r.Valid() && AllEncodable(r, cfg, inputs) && AllDone(r, cfg, inputs, done)
    requires AllPrepared(inputs, done) && ValidTasks(TasksOf(r, inputs, done))
    requires var start, tasks := InitialQuality(r, cfg.Channels(), false, 0), TasksOf(r, inputs, done);
      start <= 1023 && (cfg.fast || forall n :: 0 <= n < |done| ==> TaskStays(cfg, tasks, start, n))
    ensures forall n :: 0 <= n < |done| ==> Prepared(inputs[n], done[n].channels) && Recovered(inputs[n], done[n])
  {
    hide FrameDone, InitialQuality, TaskOf, AllDone, AllEncodable, ValidTasks, Prepared, FrameWords, TaskStays,
      StartOf, Recovered, TasksOf;
    var start, tasks := InitialQuality(r, cfg.Channels(), false, 0), TasksOf(r, inputs, done);
    forall n: nat | n < |done|
      ensures n < |inputs| && Prepared(inputs[n], done[n].channels) && Recovered(inputs[n], done[n])
    {
      StartsWithinTo(cfg, tasks, start, n + 1);
      QualityRun(r, cfg, inputs, done, n + 1);
      OneDone(r, cfg, inputs, done, n);
      InRangeRecovered(r, inputs[n], n, StartAt(r, cfg, done, n), done[n]);
    }
  }

  /** The jumps of frame n's search cannot lead it astray, by what is left at its start. */
  ghost predicate StartsWell(r: Rate, inp: Input, n: nat, start: int, d: Done)
    requires r.Valid() && Prepared(inp, d.channels)
  {
    var t := TaskOf(r, inp, d, n);
    Jump.StartsWell(start, t.avail - Cost(t.f, start), t.avail, inp.cfg.Channels())
  }

  /** The frame has the best quality that fits in it. */
  ghost predicate BestQuality(r: Rate, inp: Input, n: nat, d: Done)
    requires r.Valid() && Prepared(inp, d.channels)
  {
    0 <= d.quality <= 1023 && Encoder.Fits(inp, d.channels, FrameWords(r, n), d.quality) &&
    forall s :: d.quality < s <= 1023 ==> !Encoder.Fits(inp, d.channels, FrameWords(r, n), s)
  }

  lemma FrameFindsBest(r: Rate, inp: Input, n: nat, start: int, d: Done)
    requires r.Valid() && FrameDone(r, inp, n, start, d) && !inp.cfg.fast && !inp.cfg.vbr
    requires Prepared(inp, d.channels) && StartsWell(r, inp, n, start, d)
    ensures BestQuality(r, inp, n, d) && Recovered(inp, d)
  {
    hide LoadParams, FrameSizeTab, Channel.Valid, FrameIn.Valid, Rowed, Cost, Room, Found, FrameWords, AllCoded,
      Input.Valid, Decodes, Produced, Jump.StartsWell, Encoder.Fits, FrameOf;
    BestFromStart(inp, d.channels, SizingAt(r, n, start), Outcome(true, |d.bytes|, d.quality, d.sizeCode),
      FrameWords(r, n), d.bytes);
    assert d.bytes[..2 * FrameWords(r, n)] == d.bytes;
  }

  /** With the accurate search: as long as every frame starts where the jumps do no harm, every frame of the stream has
      the best quality that fits in it, and decodes. */
  lemma StreamFindsBest(r: Rate, cfg: Config, inputs: seq<Input>, done: seq<Done>)
    requires r.Valid() && AllEncodable(r, cfg, inputs) && AllDone(r, cfg, inputs, done) && !cfg.fast
    requires AllPrepared(inputs, done)
    requires forall n :: 0 <= n < |done| ==> StartsWell(r, inputs[n], n, StartAt(r, cfg, done, n), done[n])
    ensures forall n :: 0 <= n < |done| ==> BestQuality(r, inputs[n], n, done[n]) && Recovered(inputs[n], done[n])
  {
    hide FrameDone, InitialQuality, Prepared, FrameWords, StartsWell, BestQuality, Recovered, Encodable, StartAt;
    forall n: nat | n < |done|
      ensures BestQuality(r, inputs[n], n, done[n]) && Recovered(inputs[n], done[n])
    {
      EncodableMode(r, cfg, inputs[n]);
      FrameFindsBest(r, inputs[n], n, StartAt(r, cfg, done, n), done[n]);
    }
  }

  lemma EncodableMode(r: Rate, cfg: Config, inp: Input)
    requires Encodable(r, cfg, inp)
    ensures inp.cfg == cfg && !cfg.vbr
  {
  }
}
