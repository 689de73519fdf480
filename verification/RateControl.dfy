/** Constant bit rate over runs of any length (a52enc.c:622-627, 659, 1219-1234, 1335-1336): when a frame gets a
    padding word, how far the bits sent can drift from the bit rate, and what 32-bit products do to that. */
module RateControl {
  import opened Arithmetic
  import opened BitStrings
  import opened Tables

  const WRAP: nat := 0x1_0000_0000
  const SAMPLES: nat := 1536

  /** A bit rate and a sample rate the encoder accepts. */
  datatype Rate = Rate(index: nat, fscod: nat, half: nat)
  {
    predicate Valid() { index < 19 && fscod < 3 && half < 3 }

    function BitRate(): nat
      requires Valid()
    {
      Scaled(BitrateTab(index), half)
    }

    /** Bits per second. */
    function Kbps(): (k: nat)
      requires Valid()
      ensures k >= 8000
    {
      BitRate() * 1000
    }

    function SampleRate(): (s: nat)
      requires Valid()
      ensures 8000 <= s <= 48000
    {
      Scaled(SampleRateTab(fscod), half)
    }

    /** frame_size_min, in words. */
    function MinWords(): nat
      requires Valid()
    {
      BitRate() * 96000 / SampleRate()
    }

    /** What that division leaves. */
    function Rest(): (m: nat)
      requires Valid()
      ensures m < SampleRate()
    {
      BitRate() * 96000 % SampleRate()
    }
  }

  /** x >> half. */
  function Scaled(x: nat, half: nat): nat
    requires half < 3
  {
    if half == 0 then x else if half == 1 then x / 2 else x / 4
  }

  datatype Counts = Counts(bits: nat, samples: nat)

  /** Bits owed: positive when fewer bits were sent than the rate allows, in units of 1 / sample rate. */
  function Drift(c: Counts, kbps: nat, srate: nat): int
  {
    c.samples * kbps - c.bits * srate
  }

  /** The while loop of adjust_frame_size. */
  function Settle(c: Counts, kbps: nat, srate: nat): (r: Counts)
    requires kbps > 0 && srate > 0
    ensures r.bits <= c.bits && r.samples <= c.samples && (r.bits < kbps || r.samples < srate)
    decreases c.bits
  {
    if c.bits >= kbps && c.samples >= srate then Settle(Counts(c.bits - kbps, c.samples - srate), kbps, srate) else c
  }

  /** The comparison on unbounded products ... */
  predicate Owes(c: Counts, kbps: nat, srate: nat)
  {
    c.bits * srate < c.samples * kbps
  }

  /** ... and as 32-bit arithmetic makes it. */
  predicate Pads(c: Counts, kbps: nat, srate: nat)
  {
    c.bits * srate % WRAP < c.samples * kbps % WRAP
  }

  function Sent(c: Counts, words: nat): Counts
  {
    Counts(c.bits + 16 * words, c.samples + SAMPLES)
  }

  function P2N(b: bool): nat { if b then 1 else 0 }

  // ---------- one frame ----------

  lemma TakenDrift(c: Counts, r: Counts, k: nat, kbps: nat, srate: nat)
    requires Taken(c, r, k, kbps, srate)
    ensures Drift(r, kbps, srate) == Drift(c, kbps, srate)
  {
    assert (r.samples + k * srate) * kbps == r.samples * kbps + (k * srate) * kbps;
    assert (r.bits + k * kbps) * srate == r.bits * srate + (k * kbps) * srate;
    Swap(k, srate, kbps);
  }

  lemma Swap(k: nat, a: nat, b: nat)
    ensures (k * a) * b == (k * b) * a
  {
  }

  lemma OneMore(k: nat, a: nat)
    ensures (k + 1) * a == k * a + a
  {
  }

  lemma {:induction false} SettleTakes(c: Counts, kbps: nat, srate: nat) returns (k: nat)
    requires kbps > 0 && srate > 0
    ensures Taken(c, Settle(c, kbps, srate), k, kbps, srate)
    decreases c.bits
  {
    if c.bits >= kbps && c.samples >= srate {
      k := SettleTakes(Counts(c.bits - kbps, c.samples - srate), kbps, srate);
      OneMore(k, kbps);
      OneMore(k, srate);
      k := k + 1;
    } else {
      k := 0;
    }
  }

  /** The loop leaves the drift as it is. */
  lemma SettleDrift(c: Counts, kbps: nat, srate: nat)
    requires kbps > 0 && srate > 0
    ensures Drift(Settle(c, kbps, srate), kbps, srate) == Drift(c, kbps, srate)
  {
    hide Drift, Settle, Taken;
    var k := SettleTakes(c, kbps, srate);
    TakenDrift(c, Settle(c, kbps, srate), k, kbps, srate);
  }

  /** r is c after k turns of the loop. */
  ghost predicate Taken(c: Counts, r: Counts, k: nat, kbps: nat, srate: nat)
  {
    r.bits + k * kbps == c.bits && r.samples + k * srate == c.samples
  }

  lemma Division(r: Rate)
    requires r.Valid()
    ensures r.MinWords() * r.SampleRate() + r.Rest() == 96000 * r.BitRate()
    ensures r.Kbps() == 1000 * r.BitRate()
  {
    hide Rate.SampleRate, Rate.BitRate;
    DivMod(r.BitRate() * 96000, r.SampleRate());
  }

  lemma DriftOf(c: Counts, words: nat, pad: nat, bitRate: nat, srate: nat, rest: nat)
    requires words * srate + rest == 96000 * bitRate
    ensures Drift(Sent(c, words + pad), 1000 * bitRate, srate) ==
      Drift(c, 1000 * bitRate, srate) + 16 * rest - 16 * (pad * srate)
  {
    var kbps, all := 1000 * bitRate, words + pad;
    assert all * srate == words * srate + pad * srate;
    assert (c.samples + SAMPLES) * kbps == c.samples * kbps + SAMPLES * kbps;
    assert (c.bits + 16 * all) * srate == c.bits * srate + 16 * (all * srate);
  }

  /** A frame moves the drift by the division's rest, and a padding word takes the sample rate off, 16 times each. */
  lemma DriftStep(c: Counts, r: Rate, pad: bool)
    requires r.Valid()
    ensures Drift(Sent(c, r.MinWords() + P2N(pad)), r.Kbps(), r.SampleRate()) ==
      Drift(c, r.Kbps(), r.SampleRate()) + 16 * r.Rest() - (if pad then 16 * r.SampleRate() else 0)
  {
    hide Rate.MinWords, Rate.Rest, Rate.BitRate, Rate.SampleRate, Rate.Kbps, Drift, Sent;
    Division(r);
    DriftOf(c, r.MinWords(), P2N(pad), r.BitRate(), r.SampleRate(), r.Rest());
  }

  /** The sharp bound: at most one frame's rest owed, less than one word and a rest overpaid. */
  ghost predicate InBounds(c: Counts, r: Rate)
    requires r.Valid()
  {
    16 * r.Rest() - 16 * r.SampleRate() < Drift(c, r.Kbps(), r.SampleRate()) <= 16 * r.Rest()
  }

  /** With the right decision a frame keeps the drift in bounds. */
  lemma FrameKeepsBounds(c: Counts, r: Rate)
    requires r.Valid() && InBounds(c, r)
    ensures var s := Settle(c, r.Kbps(), r.SampleRate());
      InBounds(s, r) && InBounds(Sent(s, r.MinWords() + P2N(Owes(s, r.Kbps(), r.SampleRate()))), r)
  {
    var s := Settle(c, r.Kbps(), r.SampleRate());
    SettleDrift(c, r.Kbps(), r.SampleRate());
    DriftStep(s, r, Owes(s, r.Kbps(), r.SampleRate()));
  }

  /** While the drift is below 2^32, the wrapped comparison is right exactly when no multiple of 2^32 separates the two
      products. */
  lemma PadsRight(c: Counts, kbps: nat, srate: nat)
    requires 0 - WRAP < Drift(c, kbps, srate) < WRAP
    ensures (Pads(c, kbps, srate) <==> Owes(c, kbps, srate)) <==> c.bits * srate / WRAP == c.samples * kbps / WRAP
  {
    var x, y := c.bits * srate, c.samples * kbps;
    assert x == x / WRAP * WRAP + x % WRAP && y == y / WRAP * WRAP + y % WRAP;
  }

  lemma CountersArith(c: Counts, kbps: nat, srate: nat)
    requires kbps >= 8000 && srate <= 48000 && -16 * srate < Drift(c, kbps, srate) < 16 * srate
    requires c.bits < kbps || c.samples < srate
    ensures c.bits < kbps + 16 && c.samples < srate + 96
  {
    assert (srate + 96) * kbps == kbps * srate + 96 * kbps && (kbps + 16) * srate == kbps * srate + 16 * srate;
    if c.bits < kbps {
      MulMono(c.bits, kbps, srate);
      if c.samples >= srate + 96 { MulMono(srate + 96, c.samples, kbps); }
    } else {
      MulMono(c.samples, srate, kbps);
      if c.bits >= kbps + 16 { MulMono(kbps + 16, c.bits, srate); }
    }
  }

  /** In bounds and settled, both counters are far below 2^32, and stay so when the frame is added. */
  lemma CountersBounded(c: Counts, r: Rate)
    requires r.Valid() && InBounds(c, r) && (c.bits < r.Kbps() || c.samples < r.SampleRate())
    ensures c.bits < r.Kbps() + 16 && c.samples < r.SampleRate() + 96
  {
    hide Rate.Rest, Rate.SampleRate, Rate.Kbps, Drift;
    CountersArith(c, r.Kbps(), r.SampleRate());
  }

  // ---------- runs ----------

  /** The counters before frame n, with products read as integers ... */
  function ExactRun(r: Rate, n: nat): Counts
    requires r.Valid()
  {
    if n == 0 then Counts(0, 0)
    else
      var s := Settle(ExactRun(r, n - 1), r.Kbps(), r.SampleRate());
      Sent(s, r.MinWords() + P2N(Owes(s, r.Kbps(), r.SampleRate())))
  }

  /** ... and as the code computes them. */
  function Run(r: Rate, n: nat): Counts
    requires r.Valid()
  {
    if n == 0 then Counts(0, 0)
    else
      var s := Settle(Run(r, n - 1), r.Kbps(), r.SampleRate());
      Sent(s, r.MinWords() + P2N(Pads(s, r.Kbps(), r.SampleRate())))
  }

  /** The counters when frame n is decided. */
  function AtFrame(r: Rate, n: nat): Counts
    requires r.Valid()
  {
    Settle(Run(r, n), r.Kbps(), r.SampleRate())
  }

  ghost predicate Right(r: Rate, n: nat)
    requires r.Valid()
  {
    Pads(AtFrame(r, n), r.Kbps(), r.SampleRate()) <==> Owes(AtFrame(r, n), r.Kbps(), r.SampleRate())
  }

  /** With integer products, over any number of frames: less than one word either way. */
  lemma {:induction false} ExactDrift(r: Rate, n: nat)
    requires r.Valid()
    ensures InBounds(ExactRun(r, n), r)
    ensures -16 * r.SampleRate() < Drift(ExactRun(r, n), r.Kbps(), r.SampleRate()) < 16 * r.SampleRate()
    ensures ExactRun(r, n).bits < WRAP && ExactRun(r, n).samples < WRAP
  {
    hide Rate.Kbps, Rate.SampleRate, Rate.Rest, Rate.MinWords, Settle, InBounds, Drift;
    if n == 0 {
      NothingOwed(r);
    } else {
      ExactDrift(r, n - 1);
      FrameKeepsBounds(ExactRun(r, n - 1), r);
      CountersBounded(Settle(ExactRun(r, n - 1), r.Kbps(), r.SampleRate()), r);
      WordsBound(r);
      BoundsAre(ExactRun(r, n), r);
    }
  }

  lemma NothingOwed(r: Rate)
    requires r.Valid()
    ensures Drift(Counts(0, 0), r.Kbps(), r.SampleRate()) == 0 && InBounds(Counts(0, 0), r)
  {
    hide Rate.Kbps, Rate.SampleRate, Rate.Rest;
  }

  lemma BoundsAre(c: Counts, r: Rate)
    requires r.Valid() && InBounds(c, r)
    ensures -16 * r.SampleRate() < Drift(c, r.Kbps(), r.SampleRate()) < 16 * r.SampleRate()
  {
    hide Rate.Kbps, Rate.SampleRate, Rate.Rest, Drift;
  }

  lemma WordsBound(r: Rate)
    requires r.Valid()
    ensures r.MinWords() <= 1920 && r.Kbps() <= 640000
  {
    hide FrameSizeTab, Rate.MinWords, Rate.SampleRate, SampleRateTab;
    SizesAreQuotients(r);
    LargestSize(r.index, r.fscod);
  }

  lemma LargestSize(index: nat, fscod: nat)
    requires index < 19 && fscod < 3
    ensures FrameSizeTab(2 * index, fscod) <= 30720
  {
  }

  lemma {:induction false} SameRun(r: Rate, n: nat)
    requires r.Valid() && forall m :: 0 <= m < n ==> Right(r, m)
    ensures Run(r, n) == ExactRun(r, n)
  {
    if n > 0 { SameRun(r, n - 1); assert Right(r, n - 1); }
  }

  /** No multiple of 2^32 separates the two products when frame n is decided. */
  predicate Undivided(r: Rate, n: nat)
    requires r.Valid()
  {
    AtFrame(r, n).bits * r.SampleRate() / WRAP == AtFrame(r, n).samples * r.Kbps() / WRAP
  }

  /** While the run is still the exact one, the decision of frame n is right exactly then. */
  lemma RightWhenUndivided(r: Rate, n: nat)
    requires r.Valid() && Run(r, n) == ExactRun(r, n)
    ensures Right(r, n) <==> Undivided(r, n)
  {
    hide Rate.Kbps, Rate.SampleRate, Rate.Rest, Run, ExactRun, Settle, Pads, Owes;
    ExactDrift(r, n);
    SettleDrift(Run(r, n), r.Kbps(), r.SampleRate());
    PadsRight(AtFrame(r, n), r.Kbps(), r.SampleRate());
  }

  /** A wrong decision sends a different number of bits. */
  lemma StepsDiffer(r: Rate, n: nat)
    requires r.Valid() && Run(r, n) == ExactRun(r, n)
    ensures Run(r, n + 1) == ExactRun(r, n + 1) <==> Right(r, n)
  {
    hide Rate.Kbps, Rate.SampleRate, Rate.MinWords, Settle, Pads, Owes;
  }

  lemma {:induction false} SameRunIfUndivided(r: Rate, n: nat)
    requires r.Valid() && UndividedTo(r, n)
    ensures Run(r, n) == ExactRun(r, n)
  {
    hide Undivided, Right, Run, ExactRun;
    if n == 0 {
      SameStart(r);
    } else {
      SameRunIfUndivided(r, n - 1);
      RightWhenUndivided(r, n - 1);
      StepsDiffer(r, n - 1);
    }
  }

  lemma SameStart(r: Rate)
    requires r.Valid()
    ensures Run(r, 0) == ExactRun(r, 0) == Counts(0, 0)
  {
  }

  ghost predicate ExactTo(r: Rate, n: nat)
    requires r.Valid()
  {
    forall m: nat :: m <= n ==> Run(r, m) == ExactRun(r, m)
  }

  ghost predicate UndividedTo(r: Rate, n: nat)
    requires r.Valid()
  {
    forall m: nat :: m < n ==> Undivided(r, m)
  }

  lemma UndividedIfExact(r: Rate, n: nat, m: nat)
    requires r.Valid() && ExactTo(r, n) && m < n
    ensures Undivided(r, m)
  {
    hide Undivided, Right, Run, ExactRun;
    assert Run(r, m) == ExactRun(r, m) && Run(r, m + 1) == ExactRun(r, m + 1);
    RightWhenUndivided(r, m);
    StepsDiffer(r, m);
  }

  /** The exact condition, for every rate and every number of frames: a stream follows the exact run up to frame n if
      and only if no multiple of 2^32 separates the products at any decision before it. */
  lemma RunIsExact(r: Rate, n: nat)
    requires r.Valid()
    ensures ExactTo(r, n) <==> UndividedTo(r, n)
  {
    hide Undivided, Run, ExactRun;
    if ExactTo(r, n) {
      forall m: nat | m < n
        ensures Undivided(r, m)
      {
        UndividedIfExact(r, n, m);
      }
    }
    if UndividedTo(r, n) {
      forall m: nat | m <= n
        ensures Run(r, m) == ExactRun(r, m)
      {
        SameRunIfUndivided(r, m);
      }
    }
  }

  lemma NothingSent(r: Rate)
    requires r.Valid()
    ensures Drift(Run(r, 0), r.Kbps(), r.SampleRate()) == 0
  {
  }

  /** What one frame of a run does to the drift. */
  lemma RunStep(r: Rate, n: nat)
    requires r.Valid()
    ensures var before, after := Drift(Run(r, n), r.Kbps(), r.SampleRate()),
      Drift(Run(r, n + 1), r.Kbps(), r.SampleRate());
      if Right(r, n) == (before > 0) then after == before + 16 * r.Rest() - 16 * r.SampleRate()
      else after == before + 16 * r.Rest()
  {
    var s := AtFrame(r, n);
    SettleDrift(Run(r, n), r.Kbps(), r.SampleRate());
    DriftStep(s, r, Pads(s, r.Kbps(), r.SampleRate()));
    hide Settle, Rate.SampleRate, Rate.Kbps, Rate.Rest, Rate.MinWords, Pads, Sent;
  }

  /** The tabulated sizes of the even codes are the quotients. */
  lemma TableQuotient(index: nat, fscod: nat)
    requires index < 19 && fscod < 3
    ensures var words, rate, scaled := FrameSizeTab(2 * index, fscod) / 16, SampleRateTab(fscod),
      BitrateTab(index) * 96000;
      16 * words == FrameSizeTab(2 * index, fscod) && words * rate <= scaled < words * rate + rate &&
      (fscod != 1 ==> words * rate == scaled)
    ensures FrameSizeTab(2 * index + 1, fscod) == FrameSizeTab(2 * index, fscod) + (if fscod == 1 then 16 else 0)
    ensures BitrateTab(index) % 8 == 0
  {
    if fscod == 0 {
      SizesAt48(index);
    } else if fscod == 1 {
      SizesAt44(index);
    } else {
      SizesAt32(index);
    }
    hide FrameSizeTab, BitrateTab;
  }

  lemma SizesAt48(index: nat)
    requires index < 19
    ensures FrameSizeTab(2 * index, 0) * 3000 == BitrateTab(index) * 96000 && FrameSizeTab(2 * index, 0) % 16 == 0
    ensures FrameSizeTab(2 * index + 1, 0) == FrameSizeTab(2 * index, 0) && BitrateTab(index) % 8 == 0
  {
  }

  lemma SizesAt44(index: nat)
    requires index < 19
    ensures var words := FrameSizeTab(2 * index, 1) / 16;
      16 * words == FrameSizeTab(2 * index, 1) && words * 44100 <= BitrateTab(index) * 96000 < words * 44100 + 44100
    ensures FrameSizeTab(2 * index + 1, 1) == FrameSizeTab(2 * index, 1) + 16 && BitrateTab(index) % 8 == 0
  {
  }

  lemma SizesAt32(index: nat)
    requires index < 19
    ensures FrameSizeTab(2 * index, 2) * 2000 == BitrateTab(index) * 96000 && FrameSizeTab(2 * index, 2) % 16 == 0
    ensures FrameSizeTab(2 * index + 1, 2) == FrameSizeTab(2 * index, 2) && BitrateTab(index) % 8 == 0
  {
  }

  lemma QuotientIs(a: nat, b: nat, q: nat)
    requires b > 0 && q * b <= a < q * b + b
    ensures a / b == q && a % b == a - q * b
  {
    var d := a / b - q;
    assert d * b == a / b * b - q * b;
    if d >= 1 { MulMono(1, d, b); } else if d <= -1 { MulMono(1, -d, b); }
  }

  /** Scaling both rates divides them exactly. */
  lemma ScaledRates(r: Rate) returns (k: nat)
    requires r.Valid()
    ensures k > 0 && k * r.SampleRate() == SampleRateTab(r.fscod) && k * r.BitRate() == BitrateTab(r.index)
  {
    TableQuotient(r.index, r.fscod);
    hide BitrateTab;
    k := if r.half == 0 then 1 else if r.half == 1 then 2 else 4;
  }

  lemma ScaledQuotient(k: nat, words: nat, a: nat, b: nat)
    requires k > 0 && b > 0 && words * (k * b) <= 96000 * (k * a) < words * (k * b) + k * b
    ensures 96000 * a / b == words && 96000 * a % b == 96000 * a - words * b
  {
    assert words * (k * b) == k * (words * b) && 96000 * (k * a) == k * (96000 * a);
    if words * b > 96000 * a { MulMono(96000 * a + 1, words * b, k); }
    if 96000 * a >= words * b + b { MulMono(words * b + b, 96000 * a, k); }
    QuotientIs(96000 * a, b, words);
  }

  /** Half rates have the same frame sizes as full ones. */
  lemma SizesAreQuotients(r: Rate)
    requires r.Valid()
    ensures 16 * r.MinWords() == FrameSizeTab(2 * r.index, r.fscod)
    ensures r.fscod != 1 ==> r.Rest() == 0
  {
    hide FrameSizeTab, SampleRateTab, BitrateTab, Rate.BitRate, Rate.SampleRate;
    TableQuotient(r.index, r.fscod);
    var k := ScaledRates(r);
    var words := FrameSizeTab(2 * r.index, r.fscod) / 16;
    ScaledQuotient(k, words, r.BitRate(), r.SampleRate());
    if r.fscod != 1 { ScaledExact(k, words, r.BitRate(), r.SampleRate()); }
  }

  lemma ScaledExact(k: nat, words: nat, a: nat, b: nat)
    requires k > 0 && words * (k * b) == 96000 * (k * a)
    ensures words * b == 96000 * a
  {
    assert words * (k * b) == k * (words * b) && 96000 * (k * a) == k * (96000 * a);
    if words * b < 96000 * a { MulMono(words * b + 1, 96000 * a, k); }
    if words * b > 96000 * a { MulMono(96000 * a + 1, words * b, k); }
  }

  /** At 48 and 32 kHz and their half rates no frame is ever padded and nothing drifts, wrapping or not. */
  lemma {:induction false} NeverPadded(r: Rate, n: nat)
    requires r.Valid() && r.fscod != 1
    ensures Drift(Run(r, n), r.Kbps(), r.SampleRate()) == 0
    ensures !Pads(AtFrame(r, n), r.Kbps(), r.SampleRate())
  {
    hide *;
    if n == 0 {
      NothingSent(r);
    } else {
      NeverPadded(r, n - 1);
      NothingOwedNow(r, n - 1);
      RunStep(r, n - 1);
      SizesAreQuotients(r);
    }
    NothingOwedNow(r, n);
  }

  /** Without drift the products are equal, and the comparison is right even when they wrap. */
  lemma NothingOwedNow(r: Rate, n: nat)
    requires r.Valid() && Drift(Run(r, n), r.Kbps(), r.SampleRate()) == 0
    ensures !Pads(AtFrame(r, n), r.Kbps(), r.SampleRate()) && Right(r, n)
  {
    SettleDrift(Run(r, n), r.Kbps(), r.SampleRate());
    hide Settle, Run, Rate.Kbps, Rate.SampleRate;
  }

  /** Every frame of every run is as long as the table says for the frame size code in its header, which is the rate's
      code plus the padding. */
  lemma FrameSizeIsTabulated(r: Rate, n: nat)
    requires r.Valid()
    ensures var pad := P2N(Pads(AtFrame(r, n), r.Kbps(), r.SampleRate()));
      16 * (r.MinWords() + pad) == FrameSizeTab(2 * r.index + pad, r.fscod)
  {
    if r.fscod != 1 { NeverPadded(r, n); }
    SizesAreQuotients(r);
    TableQuotient(r.index, r.fscod);
    hide Pads, AtFrame, FrameSizeTab, Rate.MinWords;
  }
}
