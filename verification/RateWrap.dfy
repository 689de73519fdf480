/** What the 32-bit products of adjust_frame_size (a52enc.c:1232) do to runs of every rate: which decisions are wrong,
    and how far the bits sent drift from the bit rate all the same. */
module RateWrap {
  import opened Arithmetic
  import opened BitStrings
  import opened Tables
  import opened RateControl

  /** 256 kbps at 44.1 kHz. */
  const RATE: Rate := Rate(12, 1, 0)

  lemma RateIs()
    ensures RATE.Valid() && RATE.Kbps() == 256000 && RATE.SampleRate() == 44100
    ensures RATE.MinWords() == 557 && RATE.Rest() == 12300
  {
    assert RATE.BitRate() == 256;
  }

  // ---------- the counters are multiples of what a frame adds ----------

  /** The common divisor of 1536 and the sample rate. */
  function Grain(r: Rate): nat
  {
    if r.half == 0 then 12 else if r.half == 1 then 6 else 3
  }

  lemma BitRateEven(r: Rate)
    requires r.Valid()
    ensures r.BitRate() % 2 == 0 && r.Kbps() == 1000 * r.BitRate()
  {
  }

  lemma GridRates(r: Rate)
    requires r.Valid() && r.fscod == 1
    ensures r.Kbps() == 16 * (125 * (r.BitRate() / 2)) && r.SampleRate() == Grain(r) * 3675
    ensures SAMPLES == Grain(r) * (if r.half == 0 then 128 else if r.half == 1 then 256 else 512)
  {
    BitRateEven(r);
  }

  lemma GridLess(a: nat, b: nat, g: nat, i: nat, k: nat, t: nat)
    requires g > 0 && a + k * (g * t) == g * i
    ensures i >= k * t && a == g * (i - k * t)
  {
    assert k * (g * t) == g * (k * t);
    assert g * (i - k * t) == g * i - g * (k * t);
    if i < k * t { MulMono(i - k * t, -1, g); }
  }

  /** Bits are counted in words, samples in multiples of the grain. */
  lemma {:induction false} GridRun(r: Rate, n: nat) returns (i: nat, j: nat)
    requires r.Valid() && r.fscod == 1
    ensures Run(r, n) == Counts(16 * i, Grain(r) * j)
    decreases n, 0
  {
    hide Grain, Rate.Kbps, Rate.SampleRate, Rate.MinWords, Rate.BitRate, Settle, Pads;
    if n == 0 {
      i, j := 0, 0;
      assert Grain(r) * 0 == 0;
    } else {
      GridRates(r);
      i, j := GridAt(r, n - 1);
      var t := if r.half == 0 then 128 else if r.half == 1 then 256 else 512;
      var w := r.MinWords() + P2N(Pads(AtFrame(r, n - 1), r.Kbps(), r.SampleRate()));
      assert Grain(r) * (j + t) == Grain(r) * j + Grain(r) * t;
      i, j := i + w, j + t;
    }
  }

  lemma {:induction false} GridAt(r: Rate, n: nat) returns (i: nat, j: nat)
    requires r.Valid() && r.fscod == 1
    ensures AtFrame(r, n) == Counts(16 * i, Grain(r) * j)
    decreases n, 1
  {
    hide Grain, Rate.Kbps, Rate.SampleRate, Rate.BitRate, Settle, Run;
    i, j := GridRun(r, n);
    GridRates(r);
    var k := SettleTakes(Run(r, n), r.Kbps(), r.SampleRate());
    var s, t := AtFrame(r, n), 125 * (r.BitRate() / 2);
    assert Grain(r) > 0;
    GridLess(s.bits, 0, 16, i, k, t);
    GridLess(s.samples, 0, Grain(r), j, k, 3675);
    i, j := i - k * t, j - k * 3675;
  }

  // ---------- one decision ----------

  /** Numbers with different quotients have a multiple of 2^32 between them. */
  lemma Multiple(x: nat, y: nat) returns (m: nat)
    requires x / WRAP != y / WRAP
    ensures x < WRAP * m <= y || y < WRAP * m <= x
  {
    m := if x < y then y / WRAP else x / WRAP;
  }

  /** The bit rates at 44.1 kHz whose products exceed 2^32, with what the division for the frame size leaves. */
  predicate HighRate(b: nat, k: nat)
  {
    (b == 112 && k == 119) || (b == 128 && k == 94) || (b == 160 && k == 44) || (b == 192 && k == 141) ||
    (b == 224 && k == 91) || (b == 320 && k == 88) || (b == 384 && k == 135) || (b == 448 && k == 35) ||
    (b == 512 && k == 82) || (b == 576 && k == 129) || (b == 640 && k == 29)
  }

  /** Products in units of 4800, and the multiples of 2^32 among them, rounded up. */
  predicate Crossing(q: nat, m: nat)
  {
    (m == 1 && q == 894785) || (m == 2 && q == 1789570) || (m == 3 && q == 2684355) || (m == 4 && q == 3579140) ||
    (m == 5 && q == 4473925) || (m == 6 && q == 5368710)
  }

  /** The grid step y0 is the first past q. Only it, or the one before, can come as close to q as the products are to
      each other. */
  lemma Misses(y: int, x: int, y0: int, h: int, k: int, q: int)
    requires k - 147 < y - x <= k < 147 && h >= k && (y <= y0 - h || y == y0 || y >= y0 + h)
    requires q <= y0 && q - (y0 - h) >= 147 - k && (y0 - q >= k || y != y0)
    ensures !(x < q <= y) && !(y < q <= x)
  {
  }

  lemma OnSteps(h: nat, j: nat, j0: nat)
    ensures h * j <= h * j0 - h || h * j == h * j0 || h * j >= h * j0 + h
  {
    if j < j0 {
      MulMono(j + 1, j0, h);
      assert (j + 1) * h == h * j + h;
    } else if j > j0 {
      MulMono(j0 + 1, j, h);
      assert (j0 + 1) * h == h * j0 + h;
    }
  }

  /** The multiples of 2^32 that the products of a bit rate reach. */
  ghost predicate Within(b: nat, m: nat)
  {
    (b <= 224 ==> m <= 2) && (b <= 192 ==> m == 1) && (b == 320 || b == 384 ==> m <= 3) && (b == 448 ==> m <= 4) &&
    (b == 512 || b == 576 ==> m <= 5)
  }

  /** The first grid step past a crossing, and whether its distance alone decides. */
  ghost predicate Step(b: nat, k: nat, q: nat, m: nat, h: nat, y0: nat)
  {
    q <= y0 && q - (y0 - h) >= 147 - k &&
    (y0 - q >= k || (b == 112 && y0 == 894880) || (b == 160 && y0 == 894800) || (b == 320 && m == 2 && y0 == 1789600))
  }

  lemma Steps(b: nat, k: nat, q: nat, m: nat) returns (h: nat, j0: nat)
    requires HighRate(b, k) && Crossing(q, m) && Within(b, m)
    ensures h == 5 * (b / 2) && h >= k && k < 147 && Step(b, k, q, m, h, h * j0)
  {
    hide Crossing;
    if b <= 224 {
      h, j0 := LowSteps(b, k, q, m);
    } else if b <= 448 {
      h, j0 := MidSteps(b, k, q, m);
    } else {
      h, j0 := HighSteps(b, k, q, m);
    }
  }

  lemma LowSteps(b: nat, k: nat, q: nat, m: nat) returns (h: nat, j0: nat)
    requires HighRate(b, k) && Crossing(q, m) && Within(b, m) && b <= 224
    ensures h == 5 * (b / 2) && h >= k && Step(b, k, q, m, h, h * j0)
  {
    if b == 112 {
      h, j0 := 280, (q + 279) / 280;
    } else if b == 128 {
      h, j0 := 320, (q + 319) / 320;
    } else if b == 160 {
      h, j0 := 400, (q + 399) / 400;
    } else if b == 192 {
      h, j0 := 480, (q + 479) / 480;
    } else {
      h, j0 := 560, (q + 559) / 560;
    }
  }

  lemma MidSteps(b: nat, k: nat, q: nat, m: nat) returns (h: nat, j0: nat)
    requires HighRate(b, k) && Crossing(q, m) && Within(b, m) && 224 < b <= 448
    ensures h == 5 * (b / 2) && h >= k && Step(b, k, q, m, h, h * j0)
  {
    if b == 320 {
      h, j0 := 800, (q + 799) / 800;
    } else if b == 384 {
      h, j0 := 960, (q + 959) / 960;
    } else {
      h, j0 := 1120, (q + 1119) / 1120;
    }
  }

  lemma HighSteps(b: nat, k: nat, q: nat, m: nat) returns (h: nat, j0: nat)
    requires HighRate(b, k) && Crossing(q, m) && Within(b, m) && 448 < b
    ensures h == 5 * (b / 2) && h >= k && Step(b, k, q, m, h, h * j0)
  {
    if b == 512 {
      h, j0 := 1280, (q + 1279) / 1280;
    } else if b == 576 {
      h, j0 := 1440, (q + 1439) / 1440;
    } else {
      h, j0 := 1600, (q + 1599) / 1600;
    }
  }

  lemma NoCrossing(b: nat, k: nat, i: nat, j: nat, q: nat, m: nat)
    requires HighRate(b, k) && Crossing(q, m) && j < 3683
    requires k - 147 < 5 * (b / 2) * j - 147 * i <= k
    ensures !(147 * i < q <= 5 * (b / 2) * j) && !(5 * (b / 2) * j < q <= 147 * i)
  {
    var h := 5 * (b / 2);
    TooFar(b, k, h, j);
    if q <= h * j + 147 {
      InReach(b, k, q, m, h * j);
      var h', j0 := Steps(b, k, q, m);
      OnSteps(h, j, j0);
      AtStep(b, k, i, h * j, h * j0, q, m);
      hide HighRate, Crossing;
      if h * j0 - q >= k || h * j != h * j0 { Misses(h * j, 147 * i, h * j0, h, k, q); }
    }
  }

  lemma TooFar(b: nat, k: nat, h: nat, j: nat)
    requires HighRate(b, k) && h == 5 * (b / 2) && j < 3683
    ensures 2 * (h * j) <= 3682 * (5 * b)
  {
    MulMono(j, 3682, h);
  }

  lemma InReach(b: nat, k: nat, q: nat, m: nat, y: nat)
    requires HighRate(b, k) && Crossing(q, m) && 2 * y <= 3682 * (5 * b) && q <= y + 147
    ensures Within(b, m)
  {
  }

  /** In three cases the first step past the crossing is near; there the products are on the same side of it. */
  lemma AtStep(b: nat, k: nat, i: nat, y: int, y0: int, q: nat, m: nat)
    requires HighRate(b, k) && Crossing(q, m) && k - 147 < y - 147 * i <= k && Within(b, m) && y0 >= 0
    requires Step(b, k, q, m, 5 * (b / 2), y0)
    ensures y == y0 && y0 - q < k ==> !(147 * i < q <= y) && !(y < q <= 147 * i)
  {
  }

  lemma NoMultiple(b: nat, k: nat, i: nat, j: nat, m: nat)
    requires HighRate(b, k) && 12 * j < 44196
    requires 4800 * (k - 147) < 12 * j * (1000 * b) - 16 * i * 44100 <= 4800 * k
    ensures !(16 * i * 44100 < 0x1_0000_0000 * m <= 12 * j * (1000 * b))
    ensures !(12 * j * (1000 * b) < 0x1_0000_0000 * m <= 16 * i * 44100)
  {
    hide HighRate, Crossing;
    InUnits(b, k, j);
    var y, w := 5 * (b / 2) * j, 147 * i;
    assert 12 * j * (1000 * b) == 4800 * y && 16 * i * 44100 == 4800 * w;
    if 1 <= m <= 6 {
      var q := CrossingOf(m);
      NoCrossing(b, k, i, j, q, m);
      NotBetween(y, w, q, m);
    } else {
      BeyondProducts(y, w, m);
    }
  }

  lemma NotBetween(y: nat, w: nat, q: nat, m: nat)
    requires 4800 * (q - 1) < 0x1_0000_0000 * m <= 4800 * q && !(w < q <= y) && !(y < q <= w)
    ensures !(4800 * w < 0x1_0000_0000 * m <= 4800 * y) && !(4800 * y < 0x1_0000_0000 * m <= 4800 * w)
  {
  }

  lemma BeyondProducts(y: nat, w: nat, m: nat)
    requires 4800 * y <= 44196 * 640000 && y - w > -147 && (m == 0 || m > 6)
    ensures !(4800 * w < 0x1_0000_0000 * m <= 4800 * y) && !(4800 * y < 0x1_0000_0000 * m <= 4800 * w)
  {
  }

  lemma InUnits(b: nat, k: nat, j: nat)
    requires HighRate(b, k)
    ensures 12 * j * (1000 * b) == 4800 * (5 * (b / 2) * j) && 0 < k < 147
    ensures j < 3683 ==> 12 * j * (1000 * b) <= 44196 * 640000
  {
    assert 2 * (b / 2) == b;
    if j < 3683 { MulMono(12 * j, 44196, 1000 * b); }
  }

  lemma CrossingOf(m: nat) returns (q: nat)
    requires 1 <= m <= 6
    ensures Crossing(q, m) && 4800 * (q - 1) < 0x1_0000_0000 * m <= 4800 * q
  {
    q := (0x1_0000_0000 * m + 4799) / 4800;
  }

  lemma NoMultipleHalf(b: nat, k: nat, i: nat, j: nat, m: nat)
    requires HighRate(b, k) && b >= 448 && 6 * j < 22146
    requires 2400 * (k - 147) < 6 * j * (500 * b) - 16 * i * 22050 <= 2400 * k
    ensures !(16 * i * 22050 < 0x1_0000_0000 * m <= 6 * j * (500 * b))
    ensures !(6 * j * (500 * b) < 0x1_0000_0000 * m <= 16 * i * 22050)
  {
    assert m > 2 ==> 6 * j * (500 * b) < 0x1_0000_0000 * 2 - 705600;
  }

  // ---------- what the division for the frame size leaves ----------

  /** 320 b modulo 147: the rest in units of 1/147 of the sample rate. */
  function Excess(b: nat): nat { 320 * b % 147 }

  function Unit(r: Rate): nat
  {
    if r.half == 0 then 300 else if r.half == 1 then 150 else 75
  }

  lemma RestIs(r: Rate)
    requires r.Valid() && r.fscod == 1
    ensures r.SampleRate() == 147 * Unit(r) && r.Rest() == Excess(BitrateTab(r.index)) * Unit(r)
  {
    var b, u := BitrateTab(r.index), Unit(r);
    FullRateOf(r);
    hide BitrateTab, Rate.BitRate;
    RestArith(b, u, 320 * b / 147, Excess(b));
  }

  lemma FullRateOf(r: Rate)
    requires r.Valid() && r.fscod == 1
    ensures r.SampleRate() == 147 * Unit(r) && r.BitRate() * 96000 == 320 * BitrateTab(r.index) * Unit(r)
    ensures r.Kbps() == (if r.half == 0 then 1000 else if r.half == 1 then 500 else 250) * BitrateTab(r.index)
  {
  }

  lemma RestArith(b: nat, u: nat, q: nat, k: nat)
    requires u > 0 && q == 320 * b / 147 && k == 320 * b % 147
    ensures 320 * b * u % (147 * u) == k * u
  {
    assert 320 * b == 147 * q + k;
    assert 320 * b * u == (147 * u) * q + k * u;
    MulMono(k + 1, 147, u);
    DivisionUnique(320 * b * u, 147 * u, q, k * u);
  }

  // ---------- every rate but one ----------

  /** Products that stay below 2^32. */
  predicate SmallProducts(r: Rate)
    requires r.Valid()
  {
    (r.SampleRate() + 96) * r.Kbps() <= WRAP && (r.Kbps() + 16) * r.SampleRate() <= WRAP
  }

  lemma Classified(r: Rate)
    requires r.Valid() && r.fscod == 1 && r != RATE
    ensures var b := BitrateTab(r.index);
      SmallProducts(r) || (r.half == 0 && HighRate(b, Excess(b))) || (r.half == 1 && b >= 448 && HighRate(b, Excess(b)))
  {
  }

  lemma SmallQuotients(c: Counts, kbps: nat, srate: nat)
    requires c.bits < kbps + 16 && c.samples < srate + 96
    requires (srate + 96) * kbps <= WRAP && (kbps + 16) * srate <= WRAP && kbps > 0 && srate > 0
    ensures c.bits * srate / WRAP == c.samples * kbps / WRAP
  {
    MulMono(c.bits + 1, kbps + 16, srate);
    MulMono(c.samples + 1, srate + 96, kbps);
    assert (c.bits + 1) * srate == c.bits * srate + srate && (c.samples + 1) * kbps == c.samples * kbps + kbps;
  }

  /** While the run is exact, every decision is made within the bounds and on the grid. */
  lemma Decision(r: Rate, n: nat)
    requires r.Valid() && Run(r, n) == ExactRun(r, n)
    ensures InBounds(AtFrame(r, n), r)
    ensures AtFrame(r, n).bits < r.Kbps() + 16 && AtFrame(r, n).samples < r.SampleRate() + 96
  {
    hide Rate.Kbps, Rate.SampleRate, Rate.Rest, Rate.MinWords, Settle, InBounds, Run, ExactRun;
    ExactDrift(r, n);
    FrameKeepsBounds(ExactRun(r, n), r);
    CountersBounded(AtFrame(r, n), r);
  }

  lemma HighUndivided(r: Rate, n: nat, b: nat, k: nat)
    requires r.Valid() && r.fscod == 1 && Run(r, n) == ExactRun(r, n)
    requires b == BitrateTab(r.index) && k == Excess(b) && HighRate(b, k) && (r.half == 0 || (r.half == 1 && b >= 448))
    ensures Undivided(r, n)
  {
    hide HighRate, Run, ExactRun, Settle, BitrateTab, Excess, Rate.BitRate, Rate.MinWords;
    Decision(r, n);
    RestIs(r);
    FullRateOf(r);
    var c := AtFrame(r, n);
    var i, j := GridAt(r, n);
    if c.bits * r.SampleRate() / WRAP != c.samples * r.Kbps() / WRAP {
      var m := Multiple(c.bits * r.SampleRate(), c.samples * r.Kbps());
      if r.half == 0 { NoMultiple(b, k, i, j, m); } else { NoMultipleHalf(b, k, i, j, m); }
    }
  }

  lemma AlwaysUndivided(r: Rate, n: nat)
    requires r.Valid() && r.fscod == 1 && r != RATE && Run(r, n) == ExactRun(r, n)
    ensures Undivided(r, n)
  {
    hide Run, ExactRun, Settle, Rate.Kbps, Rate.SampleRate, HighRate, BitrateTab, Excess;
    Classified(r);
    if SmallProducts(r) {
      Decision(r, n);
      SmallQuotients(AtFrame(r, n), r.Kbps(), r.SampleRate());
    } else {
      HighUndivided(r, n, BitrateTab(r.index), Excess(BitrateTab(r.index)));
    }
  }

  /** At every rate but 256 kbps and 44.1 kHz, a stream of any length follows the exact run: all decisions are right. */
  lemma {:induction false} OthersExact(r: Rate, n: nat)
    requires r.Valid() && r != RATE
    ensures Run(r, n) == ExactRun(r, n) && Right(r, n)
  {
    hide Undivided, Run, ExactRun, Right, Pads, Rate.Kbps, Rate.SampleRate;
    if n > 0 {
      OthersExact(r, n - 1);
      StepsDiffer(r, n - 1);
    } else {
      SameStart(r);
    }
    if r.fscod == 1 {
      AlwaysUndivided(r, n);
      RightWhenUndivided(r, n);
    } else {
      NeverPadded(r, n);
      NothingOwedNow(r, n);
    }
  }

  // ---------- 256 kbps at 44.1 kHz ----------

  /** Every 3675 frames the samples counted return to where the products straddle 2^32. */
  const PERIOD: nat := 3675

  lemma {:induction false} SampleTotals(n: nat) returns (k: nat)
    requires RATE.Valid()
    ensures Run(RATE, n).samples + 44100 * k == 1536 * n
    decreases n, 0
  {
    RateIs();
    hide Settle, Pads, Rate.Kbps, Rate.SampleRate, Rate.MinWords;
    if n == 0 { k := 0; } else { k := SettledTotals(n - 1); }
  }

  lemma {:induction false} SettledTotals(n: nat) returns (k: nat)
    requires RATE.Valid()
    ensures AtFrame(RATE, n).samples + 44100 * k == 1536 * n
    decreases n, 1
  {
    RateIs();
    k := SampleTotals(n);
    var more := SettleTakes(Run(RATE, n), 256000, 44100);
    hide Settle, Run, Rate.Kbps, Rate.SampleRate, Rate.MinWords;
    k := k + more;
  }

  /** 1536 n = 16776 modulo 44100 has the solutions n = 1791 modulo 3675. */
  lemma FramesAt(n: nat, k: nat, samples: nat)
    requires samples + 44100 * k == 1536 * n && samples < 44196
    ensures samples == 16776 <==> n % PERIOD == 1791
  {
    if samples == 16776 { FrameIs(n, k); }
    if n % PERIOD == 1791 { SamplesOf(n, k, samples); }
  }

  lemma FrameIs(n: nat, k: nat)
    requires 16776 + 44100 * k == 1536 * n
    ensures n % PERIOD == 1791
  {
    assert 128 * (n - 1791) == 3675 * (k - 62);
    assert n - 1791 == 3675 * (1292 * (k - 62) - 45 * (n - 1791));
  }

  lemma SamplesOf(n: nat, k: nat, samples: nat)
    requires samples + 44100 * k == 1536 * n && samples < 44196 && n % PERIOD == 1791
    ensures samples == 16776
  {
    var a := n / 3675;
    assert n == 3675 * a + 1791;
    assert samples + 44100 * k == 44100 * (128 * a + 62) + 16776;
  }

  /** Only these counters can put a multiple of 2^32 between the products, and they do. */
  lemma StraddlesOnlyAt(s: Counts, i: nat, j: nat)
    requires s == Counts(16 * i, 12 * j) && s.samples < 44196
    requires -508800 < s.samples * 256000 - s.bits * 44100 <= 196800
    ensures s.bits * 44100 / WRAP != s.samples * 256000 / WRAP <==> s.samples == 16776
    ensures s.samples == 16776 ==> s == Counts(97392, 16776)
  {
    if s.samples == 16776 {
      assert i == 6087;
    } else if s.bits * 44100 / WRAP != s.samples * 256000 / WRAP {
      var m := Multiple(s.bits * 44100, s.samples * 256000);
      StraddleArith(s.bits, s.samples, j, m);
    }
  }

  lemma StraddleArith(bits: nat, samples: nat, t: int, m: nat)
    requires samples == 12 * t && samples < 44196 && -508800 < samples * 256000 - bits * 44100 <= 196800
    requires bits * 44100 < 0x1_0000_0000 * m <= samples * 256000 ||
      samples * 256000 < 0x1_0000_0000 * m <= bits * 44100
    ensures samples == 16776
  {
    assert m == 1 || m == 2;
  }

  /** What a wrong decision leaves, and what the next frame makes of it. */
  const AHEAD: Counts := Counts(106320, 18312)
  const LESS_AHEAD: Counts := Counts(115232, 19848)

  /** In bounds, or one of the two states on the way back. */
  ghost predicate Reached(c: Counts)
    requires RATE.Valid()
  {
    InBounds(c, RATE) || c == AHEAD || c == LESS_AHEAD
  }

  /** From inside the bounds: the decision is wrong exactly at the straddling counters. */
  lemma FromBounds(n: nat)
    requires RATE.Valid() && InBounds(Run(RATE, n), RATE)
    ensures Right(RATE, n) <==> n % PERIOD != 1791
    ensures Reached(Run(RATE, n + 1))
    ensures n % PERIOD == 1791 ==> AtFrame(RATE, n) == Counts(97392, 16776) && Run(RATE, n + 1) == AHEAD
  {
    RateIs();
    hide Settle, Run, Rate.Kbps, Rate.SampleRate, Rate.MinWords, Rate.Rest, Pads, Owes;
    var s := AtFrame(RATE, n);
    FrameKeepsBounds(Run(RATE, n), RATE);
    CountersBounded(s, RATE);
    var i, j := GridAt(RATE, n);
    var k := SettledTotals(n);
    BoundsHere(s);
    StraddlesOnlyAt(s, i, j);
    FramesAt(n, k, s.samples);
    PadsRight(s, 256000, 44100);
    if Right(RATE, n) {
      NextWhenRight(n);
    } else {
      NextWhenWrong(n);
    }
  }

  lemma BoundsHere(s: Counts)
    requires RATE.Valid() && InBounds(s, RATE)
    ensures Grain(RATE) == 12 && -508800 < s.samples * 256000 - s.bits * 44100 <= 196800
    ensures Drift(s, 256000, 44100) == s.samples * 256000 - s.bits * 44100
  {
    RateIs();
  }

  lemma NextWhenRight(n: nat)
    requires RATE.Valid() && Right(RATE, n)
    ensures var s := AtFrame(RATE, n);
      Run(RATE, n + 1) == Sent(s, RATE.MinWords() + P2N(Owes(s, RATE.Kbps(), RATE.SampleRate())))
  {
    hide Settle, Rate.Kbps, Rate.SampleRate, Rate.MinWords, Pads, Owes;
  }

  lemma NextWhenWrong(n: nat)
    requires RATE.Valid() && AtFrame(RATE, n) == Counts(97392, 16776)
    ensures Pads(AtFrame(RATE, n), 256000, 44100) && !Right(RATE, n) && Run(RATE, n + 1) == AHEAD
  {
    RateIs();
    hide Settle, Rate.Kbps, Rate.SampleRate, Rate.MinWords;
    assert Pads(Counts(97392, 16776), 256000, 44100) && !Owes(Counts(97392, 16776), 256000, 44100);
  }

  lemma AheadSettled(c: Counts)
    requires c == AHEAD || c == LESS_AHEAD
    ensures Settle(c, 256000, 44100) == c && !Pads(c, 256000, 44100) && !Owes(c, 256000, 44100)
    ensures c.samples < 44196 && c.samples != 16776
    ensures Sent(c, 557) == if c == AHEAD then LESS_AHEAD else Counts(124144, 21384)
  {
  }

  lemma UnpaddedNext(n: nat, c: Counts)
    requires RATE.Valid() && Settle(Run(RATE, n), 256000, 44100) == c
    requires !Pads(c, 256000, 44100) && !Owes(c, 256000, 44100)
    ensures Right(RATE, n) && Run(RATE, n + 1) == Sent(c, 557)
  {
    RateIs();
    hide Settle, Pads, Owes, Rate.Kbps, Rate.SampleRate, Rate.MinWords;
  }

  /** The way back takes two frames, both decided rightly. */
  lemma FromAhead(n: nat)
    requires RATE.Valid() && (Run(RATE, n) == AHEAD || Run(RATE, n) == LESS_AHEAD)
    ensures Right(RATE, n) && n % PERIOD != 1791
    ensures Run(RATE, n + 1) == if Run(RATE, n) == AHEAD then LESS_AHEAD else Counts(124144, 21384)
  {
    hide *;
    var k := SampleTotals(n);
    AheadSettled(Run(RATE, n));
    FramesAt(n, k, Run(RATE, n).samples);
    UnpaddedNext(n, Run(RATE, n));
  }

  lemma ReachedNext(n: nat)
    requires RATE.Valid() && Reached(Run(RATE, n))
    ensures Reached(Run(RATE, n + 1)) && (Right(RATE, n) <==> n % PERIOD != 1791)
  {
    hide Run, Right, InBounds;
    if InBounds(Run(RATE, n), RATE) {
      FromBounds(n);
    } else {
      FromAhead(n);
      BackInBounds();
    }
  }

  lemma BackInBounds()
    requires RATE.Valid()
    ensures InBounds(Counts(124144, 21384), RATE) && InBounds(Counts(0, 0), RATE) && Run(RATE, 0) == Counts(0, 0)
    ensures Drift(AHEAD, RATE.Kbps(), RATE.SampleRate()) == -840000
    ensures Drift(LESS_AHEAD, RATE.Kbps(), RATE.SampleRate()) == -643200
  {
    RateIs();
  }

  lemma ReachedAtStart()
    requires RATE.Valid()
    ensures Reached(Run(RATE, 0))
  {
    hide InBounds, Rate.Kbps, Rate.SampleRate;
    BackInBounds();
  }

  lemma {:induction false} AlwaysReached(n: nat)
    requires RATE.Valid()
    ensures Reached(Run(RATE, n))
  {
    hide *;
    if n == 0 {
      ReachedAtStart();
    } else {
      AlwaysReached(n - 1);
      ReachedNext(n - 1);
    }
  }

  // ---------- every rate, every frame ----------

  /** Exactly which decisions are wrong: those of frames 1791, 5466, 9141, ... at 256 kbps and 44.1 kHz. */
  lemma RightExactly(r: Rate, n: nat)
    requires r.Valid()
    ensures Right(r, n) <==> !(r == RATE && n % PERIOD == 1791)
  {
    hide Run, Right, Reached;
    if r == RATE {
      AlwaysReached(n);
      ReachedNext(n);
    } else {
      OthersExact(r, n);
    }
  }

  /** After the wrong decision: a word ahead of the exact run for two frames, then equal again. */
  lemma MadeUp(n: nat)
    requires RATE.Valid() && n % PERIOD == 1791 && Run(RATE, n) == ExactRun(RATE, n)
    ensures Run(RATE, n + 1) == AHEAD != ExactRun(RATE, n + 1)
    ensures Run(RATE, n + 2) == LESS_AHEAD != ExactRun(RATE, n + 2)
    ensures Run(RATE, n + 3) == ExactRun(RATE, n + 3)
  {
    hide Run, ExactRun, Right, InBounds, Reached, Settle, Rate.Kbps, Rate.SampleRate;
    RateIs();
    ExactDrift(RATE, n);
    FromBounds(n);
    FromAhead(n + 1);
    FromAhead(n + 2);
    ExactNext(n, Counts(97392, 16776));
    SettledHere();
    ExactNext(n + 1, Counts(106304, 18312));
    ExactNext(n + 2, Counts(115216, 19848));
  }

  lemma ExactNext(n: nat, s: Counts)
    requires RATE.Valid() && Settle(ExactRun(RATE, n), 256000, 44100) == s
    ensures ExactRun(RATE, n + 1) == Sent(s, 557 + P2N(Owes(s, 256000, 44100)))
  {
    hide Settle, Owes, Rate.Kbps, Rate.SampleRate, Rate.MinWords;
    RateIs();
  }

  lemma SettledHere()
    ensures Settle(Counts(106304, 18312), 256000, 44100) == Counts(106304, 18312)
    ensures Settle(Counts(115216, 19848), 256000, 44100) == Counts(115216, 19848)
  {
  }

  /** A wrong decision is made up for: the counters are again those of the exact run two frames later. */
  lemma {:induction false} ExactExactly(r: Rate, n: nat)
    requires r.Valid()
    ensures Run(r, n) == ExactRun(r, n) <==> !(r == RATE && 1792 <= n % PERIOD <= 1793)
  {
    hide Run, ExactRun, Right, AtFrame, InBounds;
    if r != RATE {
      OthersExact(r, n);
    } else if n == 0 {
      SameStart(r);
    } else if 1792 <= n % PERIOD <= 1794 {
      var before := n - (n % PERIOD - 1791);
      ExactExactly(r, before);
      MadeUp(before);
    } else {
      ExactExactly(r, n - 1);
      RightExactly(r, n - 1);
      StepsDiffer(r, n - 1);
    }
  }

  /** How far the bits sent are from the bit rate, over any number of frames: less than a word, but for one frame in
      3675 at 256 kbps and 44.1 kHz, where it is 1.2 words. */
  lemma WrappedDrift(r: Rate, n: nat)
    requires r.Valid()
    ensures var drift := Drift(Run(r, n), r.Kbps(), r.SampleRate());
      if r == RATE && n % PERIOD == 1792 then drift == -840000 < -16 * r.SampleRate()
      else -16 * r.SampleRate() < drift < 16 * r.SampleRate()
  {
    hide Run, ExactRun, Rate.Kbps, Rate.SampleRate, Rate.Rest, Drift;
    ExactExactly(r, n);
    ExactDrift(r, n);
    if r == RATE && 1792 <= n % PERIOD <= 1793 {
      ExactExactly(r, n - (n % PERIOD - 1791));
      MadeUp(n - (n % PERIOD - 1791));
      BackInBounds();
      RateIs();
    }
  }

  /** The first of those frames: at 256 kbps and 44.1 kHz the 1792nd frame of a stream is the first whose products a
      multiple of 2^32 separates. It gets a padding word although the stream is ahead of its rate. */
  lemma FirstWrongDecision(n: nat)
    requires RATE.Valid() && n == 1791
    ensures UndividedTo(RATE, n) && !Undivided(RATE, n)
    ensures AtFrame(RATE, n) == Counts(97392, 16776) && !Right(RATE, n)
    ensures Drift(Run(RATE, n + 1), RATE.Kbps(), RATE.SampleRate()) == -840000 < -16 * RATE.SampleRate()
  {
    hide *;
    RightBefore(n);
    SameRun(RATE, n);
    RunIsExact(RATE, n);
    ExactBefore(n);
    ExactDrift(RATE, n);
    AtPeriod(n);
    FromBounds(n);
    RightWhenUndivided(RATE, n);
    BackInBounds();
    RateIs();
  }

  lemma AtPeriod(n: nat)
    requires n == 1791
    ensures n % PERIOD == 1791
  {
  }

  lemma RightBefore(n: nat)
    requires RATE.Valid() && n <= 1791
    ensures forall m :: 0 <= m < n ==> Right(RATE, m)
  {
    hide Right;
    forall m: nat | m < n
      ensures Right(RATE, m)
    {
      RightExactly(RATE, m);
    }
  }

  lemma ExactBefore(n: nat)
    requires RATE.Valid() && n <= 1791
    ensures ExactTo(RATE, n)
  {
    hide Right, Run, ExactRun;
    forall m: nat | m <= n
      ensures Run(RATE, m) == ExactRun(RATE, m)
    {
      RightBefore(m);
      SameRun(RATE, m);
    }
  }

  // ---------- adjust_frame_size and the counting at the end of process_frame ----------

  /** A 32-bit counter. */
  function Wrap(x: nat): Word { x % 0x1_0000_0000 }

  class RateCounter {
    const rate: Rate
    var bitCnt: Word
    var sampleCnt: Word
    var frameSize: nat

    constructor (r: Rate)
      requires r.Valid()
      ensures rate == r && bitCnt == 0 && sampleCnt == 0
    {
      rate := r;
      bitCnt, sampleCnt, frameSize := 0, 0, 0;
    }

    function Now(): Counts
      reads this
    {
      Counts(bitCnt, sampleCnt)
    }

    method AdjustFrameSize()
      requires rate.Valid()
      modifies this
      ensures Now() == Settle(old(Now()), rate.Kbps(), rate.SampleRate())
      ensures frameSize == rate.MinWords() + P2N(Pads(Now(), rate.Kbps(), rate.SampleRate()))
    {
      var kbps := rate.BitRate() * 1000;
      var srate := rate.SampleRate();
      while bitCnt >= kbps && sampleCnt >= srate
        invariant Settle(Now(), kbps, srate) == Settle(old(Now()), kbps, srate)
        decreases bitCnt
      {
        bitCnt := bitCnt - kbps;
        sampleCnt := sampleCnt - srate;
      }
      var add := if bitCnt * srate % 0x1_0000_0000 < sampleCnt * kbps % 0x1_0000_0000 then 1 else 0;
      frameSize := rate.MinWords() + add;
    }

    method CountFrame()
      modifies this`bitCnt, this`sampleCnt
      ensures Now() == Counts(Wrap(old(Now()).bits + 16 * frameSize), Wrap(old(Now()).samples + SAMPLES))
    {
      bitCnt := (bitCnt + frameSize * 16) % 0x1_0000_0000;
      sampleCnt := (sampleCnt + SAMPLES) % 0x1_0000_0000;
    }

    /** Frame n of a stream: its size is the tabulated one for the code written, and the counters, wrapping or not, are
        those of the run, which is the exact one but for two frames in 3675 at one rate. */
    method NextFrame(n: nat) returns (frmsizecod: nat)
      requires rate.Valid() && Now() == Run(rate, n)
      modifies this
      ensures frameSize == FrameWords(rate, n) && frmsizecod < 38
      ensures 16 * frameSize == FrameSizeTab(frmsizecod, rate.fscod)
      ensures Now() == Run(rate, n + 1)
      ensures Now() == ExactRun(rate, n + 1) <==> !(rate == RATE && 1792 <= (n + 1) % PERIOD <= 1793)
    {
      hide Settle, Run, ExactRun, Pads, Rate.Kbps, Rate.SampleRate, Rate.MinWords, Rate.Valid, FrameSizeTab, Wrap;
      NextSize(rate, n);
      NextCounts(rate, n);
      ExactExactly(rate, n + 1);
      AdjustFrameSize();
      frmsizecod := 2 * rate.index + (frameSize - rate.MinWords());
      CountFrame();
    }
  }

  /** Words of frame n of a run. */
  function FrameWords(r: Rate, n: nat): nat
    requires r.Valid()
  {
    r.MinWords() + P2N(Pads(Settle(Run(r, n), r.Kbps(), r.SampleRate()), r.Kbps(), r.SampleRate()))
  }

  lemma NextSize(r: Rate, n: nat)
    requires r.Valid()
    ensures var words := FrameWords(r, n);
      var code := 2 * r.index + (words - r.MinWords());
      0 <= code < 38 && r.fscod < 3 && 16 * words == FrameSizeTab(code, r.fscod)
  {
    hide Settle, Pads, Rate.Kbps, Rate.SampleRate, Rate.MinWords, FrameSizeTab;
    FrameSizeIsTabulated(r, n);
  }

  /** The counters of a run need no reduction modulo 2^32. */
  lemma NextCounts(r: Rate, n: nat)
    requires r.Valid()
    ensures var s := Settle(Run(r, n), r.Kbps(), r.SampleRate());
      Run(r, n + 1) == Counts(Wrap(s.bits + 16 * FrameWords(r, n)), Wrap(s.samples + SAMPLES))
  {
    hide ExactRun, Settle, Pads, Rate.Kbps, Rate.SampleRate, Rate.MinWords, InBounds, Drift, Wrap, AHEAD, LESS_AHEAD;
    ExactExactly(r, n + 1);
    ExactDrift(r, n + 1);
    AheadFits(r, n + 1);
    NoWrap(Run(r, n + 1).bits);
    NoWrap(Run(r, n + 1).samples);
  }

  lemma AheadFits(r: Rate, n: nat)
    requires r.Valid()
    ensures r == RATE && 1792 <= n % PERIOD <= 1793 ==> Run(r, n).bits < WRAP && Run(r, n).samples < WRAP
  {
    hide Run, ExactRun;
    if r == RATE && 1792 <= n % PERIOD <= 1793 {
      var before := n - (n % PERIOD - 1791);
      ExactExactly(RATE, before);
      MadeUp(before);
    }
  }

  lemma NoWrap(x: nat)
    requires x < WRAP
    ensures Wrap(x) == x
  {
  }
}
