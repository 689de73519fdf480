/** Constant bit rate of a stream encoded by several workers. Each thread context has counters of its own
    (a52enc.c:1219-1234, 1335-1336), and frame i of the stream is the frame number i / workers of worker i % workers
    (process_frame_parallel, a52enc.c:1423-1481; see Workers), so the drift bound of one worker's frames is not one of
    the stream. */
module StreamRate {
  import opened Arithmetic
  import opened BitStrings
  import opened Tables
  import opened RateControl
  import opened RateWrap

  /** Bits of the first frames of a stream. */
  function StreamBits(r: Rate, workers: nat, frames: nat): nat
    requires r.Valid() && workers > 0
  {
    if frames == 0 then 0
    else StreamBits(r, workers, frames - 1) + 16 * FrameWords(r, (frames - 1) / workers)
  }

  /** Bits the stream owes, in units of 1 / sample rate. */
  function StreamDrift(r: Rate, workers: nat, frames: nat): int
    requires r.Valid() && workers > 0
  {
    Drift(Counts(StreamBits(r, workers, frames), SAMPLES * frames), r.Kbps(), r.SampleRate())
  }

  /** The drift of one worker that has made m frames. */
  function WorkerDrift(r: Rate, m: nat): int
    requires r.Valid()
  {
    Drift(Run(r, m), r.Kbps(), r.SampleRate())
  }

  // ---------- the stream's drift is that of its workers ----------

  lemma FrameDrift(c: Counts, words: nat, kbps: nat, srate: nat)
    ensures Drift(Sent(c, words), kbps, srate) == Drift(c, kbps, srate) + SAMPLES * kbps - 16 * (words * srate)
  {
    assert (c.samples + SAMPLES) * kbps == c.samples * kbps + SAMPLES * kbps;
    assert (c.bits + 16 * words) * srate == c.bits * srate + 16 * (words * srate);
  }

  lemma WorkerStep(r: Rate, m: nat)
    requires r.Valid()
    ensures WorkerDrift(r, m + 1) ==
      WorkerDrift(r, m) + SAMPLES * r.Kbps() - 16 * (FrameWords(r, m) * r.SampleRate())
  {
    hide Settle, Pads, Rate.Kbps, Rate.SampleRate, Rate.MinWords, Drift;
    SettleDrift(Run(r, m), r.Kbps(), r.SampleRate());
    FrameDrift(AtFrame(r, m), FrameWords(r, m), r.Kbps(), r.SampleRate());
  }

  lemma StreamStep(r: Rate, workers: nat, frames: nat)
    requires r.Valid() && workers > 0
    ensures StreamDrift(r, workers, 0) == 0
    ensures StreamDrift(r, workers, frames + 1) == StreamDrift(r, workers, frames) +
      WorkerDrift(r, frames / workers + 1) - WorkerDrift(r, frames / workers)
  {
    hide FrameWords, Rate.Kbps, Rate.SampleRate, WorkerDrift;
    WorkerStep(r, frames / workers);
    FrameDrift(Counts(StreamBits(r, workers, frames), SAMPLES * frames), FrameWords(r, frames / workers), r.Kbps(),
      r.SampleRate());
  }

  /** Of the workers, frames % workers have made one frame more than the others; the stream's drift is the sum. */
  lemma {:induction false} StreamIsSum(r: Rate, workers: nat, frames: nat)
    requires r.Valid() && workers > 0
    ensures var q, s := frames / workers, frames % workers;
      StreamDrift(r, workers, frames) == s * WorkerDrift(r, q + 1) + (workers - s) * WorkerDrift(r, q)
  {
    hide StreamDrift, WorkerDrift;
    if frames == 0 {
      NoFrames(r, workers);
    } else {
      StreamIsSum(r, workers, frames - 1);
      StreamStep(r, workers, frames - 1);
      DivNext(frames - 1, workers);
    }
  }

  lemma NoFrames(r: Rate, workers: nat)
    requires r.Valid() && workers > 0
    ensures StreamDrift(r, workers, 0) == 0 == WorkerDrift(r, 0) && 0 / workers == 0 == 0 % workers
  {
  }

  /** What one worker's drift stays within: a word, or at 256 kbps and 44.1 kHz 1.2 words. */
  function Limit(r: Rate): nat
    requires r.Valid()
  {
    if r == RATE then 840001 else 16 * r.SampleRate()
  }

  lemma WithinLimit(r: Rate, m: nat)
    requires r.Valid()
    ensures 0 - Limit(r) < WorkerDrift(r, m) < Limit(r)
  {
    hide Run, Rate.Kbps, Drift;
    WrappedDrift(r, m);
    RateIs();
  }

  /** The stream drifts less than one limit for each worker, over any number of frames. */
  lemma StreamBound(r: Rate, workers: nat, frames: nat)
    requires r.Valid() && workers > 0
    ensures 0 - workers * Limit(r) < StreamDrift(r, workers, frames) < workers * Limit(r)
  {
    hide StreamDrift, WorkerDrift, Limit;
    var q, s := frames / workers, frames % workers;
    StreamIsSum(r, workers, frames);
    WithinLimit(r, q);
    WithinLimit(r, q + 1);
    WeightedBound(s, workers - s, WorkerDrift(r, q + 1), WorkerDrift(r, q), Limit(r));
  }

  lemma WeightedBound(s: nat, t: nat, x: int, y: int, limit: nat)
    requires s + t > 0 && 0 - limit < x < limit && 0 - limit < y < limit
    ensures 0 - (s + t) * limit < s * x + t * y < (s + t) * limit
  {
    MulMono(x, limit - 1, s);
    MulMono(1 - limit, x, s);
    MulMono(y, limit - 1, t);
    MulMono(1 - limit, y, t);
    assert (limit - 1) * s + (limit - 1) * t == (s + t) * limit - (s + t);
    assert (1 - limit) * s + (1 - limit) * t == (s + t) - (s + t) * limit;
  }

  // ---------- the drift in units of 1/147 of a word ----------

  /** One worker's drift in units of 1/147 of a word, when a frame adds k of them. */
  function Tick(k: nat, m: nat): (e: int)
    requires 0 < k < 147
    ensures k - 147 < e <= k
  {
    if m == 0 then 0 else Tick(k, m - 1) + k - (if Tick(k, m - 1) > 0 then 147 else 0)
  }

  /** At 44.1 kHz and its half rates, as long as the decisions are right. */
  lemma {:induction false} WorkerTicks(r: Rate, m: nat)
    requires r.Valid() && r.fscod == 1 && (r == RATE ==> m <= 1791)
    ensures 0 < Excess(BitrateTab(r.index)) < 147
    ensures WorkerDrift(r, m) == 16 * (Unit(r) * Tick(Excess(BitrateTab(r.index)), m))
  {
    hide Run, Right, Unit, Excess, BitrateTab, Rate.Kbps, Rate.SampleRate, Rate.Rest, Drift;
    ExcessRange(r.index);
    if m == 0 {
      NothingSent(r);
    } else {
      WorkerTicks(r, m - 1);
      RightEarly(r, m - 1);
      RunStep(r, m - 1);
      RestIs(r);
      TickStep(Unit(r), Excess(BitrateTab(r.index)), m - 1);
    }
  }

  lemma ExcessRange(index: nat)
    requires index < 19
    ensures 0 < Excess(BitrateTab(index)) < 147
  {
  }

  lemma RightEarly(r: Rate, m: nat)
    requires r.Valid() && (r == RATE ==> m < 1791)
    ensures Right(r, m)
  {
    hide Right;
    RightExactly(r, m);
  }

  lemma TickStep(u: nat, k: nat, m: nat)
    requires u > 0 && 0 < k < 147
    ensures Tick(k, m) > 0 <==> 16 * (u * Tick(k, m)) > 0
    ensures 16 * (u * Tick(k, m + 1)) ==
      16 * (u * Tick(k, m)) + 16 * (k * u) - (if Tick(k, m) > 0 then 16 * (147 * u) else 0)
  {
    var e, next := Tick(k, m), Tick(k, m + 1);
    hide Tick;
    Positive(u, e);
    assert u * next == u * e + k * u - (if e > 0 then 147 * u else 0);
  }

  lemma Positive(u: nat, e: int)
    requires u > 0
    ensures e > 0 <==> u * e > 0
  {
    if e > 0 { MulMono(1, e, u); } else { MulMono(e, 0, u); }
  }

  // ---------- which streams keep within a word ----------

  ghost predicate WithinAWord(r: Rate, workers: nat, frames: nat)
    requires r.Valid() && workers > 0
  {
    -16 * r.SampleRate() < StreamDrift(r, workers, frames) < 16 * r.SampleRate()
  }

  /** Known before the stream starts. */
  predicate KeepsRate(r: Rate, workers: nat)
  {
    r.fscod != 1 || (workers == 1 && r != RATE) || (workers == 2 && r.index == 2)
  }

  /** When every worker has made m frames. */
  lemma WholeRounds(r: Rate, workers: nat, m: nat)
    requires r.Valid() && workers > 0
    ensures StreamDrift(r, workers, workers * m) == workers * WorkerDrift(r, m)
  {
    hide StreamDrift, WorkerDrift;
    var frames := workers * m;
    Whole(workers, m, frames);
    StreamIsSum(r, workers, frames);
  }

  lemma Whole(workers: nat, m: nat, frames: nat)
    requires workers > 0 && frames == workers * m
    ensures frames / workers == m && frames % workers == 0
  {
    DivisionUnique(frames, workers, m, 0);
  }

  /** The frames after which the workers together are a word off. */
  function Rounds(workers: nat, k: nat): nat
  {
    if workers * k >= 147 then 1
    else if workers >= 3 || k <= 36 then 2
    else if k <= 44 then 5
    else 14
  }

  lemma RoundsReach(workers: nat, k: nat)
    requires workers >= 2 && 0 < k < 147
    requires workers == 2 ==> k >= 74 || k <= 36 || k == 41 || k == 44 || k == 47
    ensures workers * Tick(k, Rounds(workers, k)) >= 147 || workers * Tick(k, Rounds(workers, k)) <= -147
  {
    FirstTicks(k);
    hide Tick;
    if workers * k < 147 && workers >= 3 {
      MulMono(3, workers, 147 - k);
      assert workers * Tick(k, 2) == 2 * (workers * k) - 147 * workers;
    }
  }

  lemma FirstTicks(k: nat)
    requires 0 < k < 147
    ensures Tick(k, 1) == k && Tick(k, 2) == 2 * k - 147
    ensures k == 41 ==> Tick(k, 5) == -89
    ensures k == 44 ==> Tick(k, 5) == -74
    ensures k == 47 ==> Tick(k, 14) == -77
  {
    assert Tick(k, 1) == k;
    if k == 41 { assert Tick(41, 5) == -89; }
    if k == 44 { assert Tick(44, 5) == -74; }
    if k == 47 { assert Tick(47, 14) == -77; }
  }

  lemma TwoWorkers(index: nat)
    requires index < 19 && index != 2
    ensures var k := Excess(BitrateTab(index)); k >= 74 || k <= 36 || k == 41 || k == 44 || k == 47
  {
  }

  lemma AWordOff(r: Rate, workers: nat) returns (frames: nat)
    requires r.Valid() && workers > 0 && !KeepsRate(r, workers)
    ensures !WithinAWord(r, workers, frames)
  {
    hide StreamDrift, WorkerDrift, Excess, Unit, BitrateTab, Rate.Kbps, Rate.SampleRate, Tick, Rounds;
    if workers == 1 {
      frames := 1792;
      RateTooFar(frames);
      WholeRounds(r, 1, frames);
    } else {
      var k := Excess(BitrateTab(r.index));
      ExcessRange(r.index);
      if workers == 2 { TwoWorkers(r.index); }
      RoundsReach(workers, k);
      var m := FewRounds(workers, k);
      WorkerTicks(r, m);
      WholeRounds(r, workers, m);
      RestIs(r);
      Weighted(workers, Unit(r), Tick(k, m));
      frames := workers * m;
    }
  }

  lemma FewRounds(workers: nat, k: nat) returns (m: nat)
    ensures m == Rounds(workers, k) <= 14
  {
    m := Rounds(workers, k);
  }

  lemma RateTooFar(m: nat)
    requires m == 1792 && RATE.Valid()
    ensures WorkerDrift(RATE, m) < -16 * RATE.SampleRate()
  {
    hide Run, Drift;
    WrappedDrift(RATE, m);
  }

  lemma Weighted(workers: nat, u: nat, e: int)
    requires workers * e >= 147 || workers * e <= -147
    ensures workers * (16 * (u * e)) >= 16 * (147 * u) || workers * (16 * (u * e)) <= -16 * (147 * u)
  {
    assert workers * (16 * (u * e)) == 16 * ((workers * e) * u);
    if workers * e >= 147 { MulMono(147, workers * e, u); } else { MulMono(workers * e, -147, u); }
  }

  lemma {:induction false} TicksByThree(m: nat)
    ensures Tick(72, m) % 3 == 0 && -72 <= Tick(72, m) <= 72
  {
    if m > 0 { TicksByThree(m - 1); }
  }

  /** At 48 kbps and its half rates drifts are multiples of 3/147 of a word, so no worker exceeds half a word. */
  lemma HalfAWord(r: Rate, m: nat)
    requires r.Valid() && r.fscod == 1 && r.index == 2
    ensures -8 * r.SampleRate() < WorkerDrift(r, m) < 8 * r.SampleRate()
  {
    hide WorkerDrift, Unit, Rate.SampleRate, Rate.Rest;
    WorkerTicks(r, m);
    TicksByThree(m);
    RestIs(r);
    MulMono(Tick(72, m), 72, Unit(r));
    MulMono(-72, Tick(72, m), Unit(r));
  }

  lemma Keeps(r: Rate, workers: nat, frames: nat)
    requires r.Valid() && workers > 0 && KeepsRate(r, workers)
    ensures WithinAWord(r, workers, frames)
  {
    hide StreamDrift, WorkerDrift, Rate.SampleRate, Limit;
    StreamIsSum(r, workers, frames);
    var q, s := frames / workers, frames % workers;
    if r.fscod != 1 {
      AtRate(r, q);
      AtRate(r, q + 1);
    } else if workers == 1 {
      WithinLimit(r, q);
      LimitIs(r);
    } else {
      HalfAWord(r, q);
      HalfAWord(r, q + 1);
    }
  }

  lemma AtRate(r: Rate, m: nat)
    requires r.Valid() && r.fscod != 1
    ensures WorkerDrift(r, m) == 0 && r.SampleRate() > 0
  {
    hide Run, Rate.SampleRate, Rate.Kbps, Drift;
    NeverPadded(r, m);
  }

  lemma LimitIs(r: Rate)
    requires r.Valid() && r != RATE
    ensures Limit(r) == 16 * r.SampleRate()
  {
  }

  /** The exact condition: after every number of frames the stream is less than a word off its rate if and only if the
      rate leaves no rest, or there is one worker and the rate is not 256 kbps at 44.1 kHz, or there are two and it is
      48 kbps or half or a quarter of that. */
  lemma StreamKeepsRate(r: Rate, workers: nat)
    requires r.Valid() && workers > 0
    ensures (forall frames: nat :: WithinAWord(r, workers, frames)) <==> KeepsRate(r, workers)
  {
    hide WithinAWord, KeepsRate;
    if KeepsRate(r, workers) {
      forall frames: nat
        ensures WithinAWord(r, workers, frames)
      {
        Keeps(r, workers, frames);
      }
    } else {
      var frames := AWordOff(r, workers);
    }
  }

  ghost predicate WithinWords(r: Rate, workers: nat, frames: nat)
    requires r.Valid() && workers > 0
  {
    0 - workers * (16 * r.SampleRate()) < StreamDrift(r, workers, frames) < workers * (16 * r.SampleRate())
  }

  /** A word for each worker is enough at every rate but one. */
  lemma WordPerWorker(r: Rate, workers: nat)
    requires r.Valid() && workers > 0
    ensures (forall frames: nat :: WithinWords(r, workers, frames)) <==> r != RATE
  {
    hide StreamDrift, Limit, WorkerDrift, Rate.SampleRate;
    if r != RATE {
      LimitIs(r);
      forall frames: nat
        ensures WithinWords(r, workers, frames)
      {
        StreamBound(r, workers, frames);
      }
    } else {
      RateTooFar(1792);
      WholeRounds(r, workers, 1792);
      MulMono(WorkerDrift(r, 1792), -16 * r.SampleRate(), workers);
      assert !WithinWords(r, workers, workers * 1792);
    }
  }

  /** Four workers at 256 kbps and 44.1 kHz: none pads its first frame, and after the fourth the stream owes more than
      a word. */
  lemma FourWorkers(frames: nat)
    requires RATE.Valid() && frames == 4
    ensures StreamDrift(RATE, 4, frames) == 787200 > 16 * RATE.SampleRate()
  {
    hide StreamDrift, Tick;
    WholeRounds(RATE, 4, 1);
    WorkerTicks(RATE, 1);
    assert Tick(41, 1) == 41;
    hide WorkerDrift;
  }
}
