/** The search for the SNR offset (bitalloc.c:240-331) as functions of the frame's cost, and when it is optimal. */
module Search {
  import opened Arithmetic
  import opened BitStrings
  import opened Masking
  import opened Allocation

  /** Bits left over at search position s. */
  function Left(f: FrameIn, avail: int, s: int): int
    requires f.Valid()
  {
    avail - Cost(f, s)
  }

  predicate Fits(f: FrameIn, avail: int, s: int)
    requires f.Valid()
  {
    Cost(f, s) <= avail
  }

  /** Integer division of C: the quotient is truncated toward zero. */
  function TDiv(a: int, b: nat): int
    requires b > 0
  {
    if a >= 0 then a / b else -((-a) / b)
  }

  // ---------- the accurate search ----------

  function Jump1(f: FrameIn, avail: int, nch: nat, s: int): int
    requires f.Valid() && nch >= 1
  {
    if Left(f, avail, s) < -400 then s + TDiv(Left(f, avail, s), 16 * nch) else s
  }

  function Jump2(f: FrameIn, avail: int, nch: nat, s: int): int
    requires f.Valid() && nch >= 1
  {
    if Left(f, avail, s) > 400 then s + TDiv(Left(f, avail, s), 24 * nch) else s
  }

  function Jump3(f: FrameIn, avail: int, nch: nat, s: int): int
    requires f.Valid() && nch >= 1
  {
    if Left(f, avail, s) < -200 then s + TDiv(Left(f, avail, s), 40 * nch) else s
  }

  /** The position after up to three estimated jumps; nothing clamps it to 0..1023. */
  function Jumps(f: FrameIn, avail: int, nch: nat, s: int): int
    requires f.Valid() && nch >= 1
  {
    Jump3(f, avail, nch, Jump2(f, avail, nch, Jump1(f, avail, nch, s)))
  }

  /** From s, with m bits missing, the search goes down to t: one position for every d whole bits, if more than `limit`
      are missing. */
  predicate Dropped(s: int, t: int, m: int, limit: nat, d: nat)
  {
    if m > limit then t <= s && d * (s - t) <= m < d * (s - t) + d else t == s
  }

  lemma DropBy(s: int, l: int, limit: nat, d: nat)
    requires d > 0
    ensures Dropped(s, if l < 0 - limit then s + TDiv(l, d) else s, 0 - l, limit, d)
  {
    if l < 0 - limit {
      DivMod(-l, d);
      var q := (-l) / d;
      assert d * q == q * d;
    }
  }

  lemma RiseBy(s: int, l: int, limit: nat, d: nat)
    requires d > 0
    ensures Dropped(if l > limit then s + TDiv(l, d) else s, s, l, limit, d)
  {
    if l > limit {
      DivMod(l, d);
      var q := l / d;
      assert d * q == q * d;
    }
  }

  /** The three jumps by what they do: down by a position for every 16 bits and channel missing, up by one for every 24
      left, and down by one for every 40 missing. */
  lemma JumpsAre(f: FrameIn, avail: int, nch: nat, start: int) returns (s1: int, s2: int)
    requires f.Valid() && nch >= 1
    ensures Dropped(start, s1, Cost(f, start) - avail, 400, 16 * nch)
    ensures Dropped(s2, s1, avail - Cost(f, s1), 400, 24 * nch)
    ensures Dropped(s2, Jumps(f, avail, nch, start), Cost(f, s2) - avail, 200, 40 * nch)
  {
    hide Cost, FrameIn.Valid, TDiv, Dropped;
    s1 := Jump1(f, avail, nch, start);
    s2 := Jump2(f, avail, nch, s1);
    DropBy(start, Left(f, avail, start), 400, 16 * nch);
    RiseBy(s1, Left(f, avail, s1), 400, 24 * nch);
    DropBy(s2, Left(f, avail, s2), 200, 40 * nch);
  }

  /** Upward steps until at least 100 bits are missing, or to 1023. */
  function Climb(f: FrameIn, avail: int, step: nat, s: int): int
    requires f.Valid() && step >= 1
    decreases if s > 1023 then 0 else 1024 - s
  {
    if Left(f, avail, s) > -100 then
      if s + step > 1023 then 1023 else Climb(f, avail, step, s + step)
    else s
  }

  /** Single steps down while bits are missing. */
  function Descend(f: FrameIn, avail: int, s: int): int
    requires f.Valid()
    decreases if s > 0 then s else 0
  {
    if Left(f, avail, s) < 0 && s > 0 then Descend(f, avail, s - 1) else s
  }

  /** `10 / n_channels`. */
  function Step(nch: nat): (r: nat)
    requires 1 <= nch <= 10
    ensures 1 <= r <= 10
  {
    10 / nch
  }

  /** Where the search turns from climbing to descending. */
  function Turn(f: FrameIn, avail: int, nch: nat, start: int): int
    requires f.Valid() && 1 <= nch <= 10
  {
    Climb(f, avail, Step(nch), Jumps(f, avail, nch, start))
  }

  function Accurate(f: FrameIn, avail: int, nch: nat, start: int): int
    requires f.Valid() && 1 <= nch <= 10
  {
    Descend(f, avail, Turn(f, avail, nch, start))
  }

  lemma {:induction false} ClimbStops(f: FrameIn, avail: int, step: nat, s: int)
    requires f.Valid() && step >= 1
    ensures var p := Climb(f, avail, step, s);
      (p == 1023 || Left(f, avail, p) <= -100) && (s <= 1023 ==> s <= p <= 1023) && (s > 1023 ==> p == s || p == 1023)
    decreases if s > 1023 then 0 else 1024 - s
  {
    hide Cost, FrameIn.Valid;
    if Left(f, avail, s) > -100 && s + step <= 1023 {
      ClimbStops(f, avail, step, s + step);
    }
  }

  lemma {:induction false} DescendStops(f: FrameIn, avail: int, p: int)
    requires f.Valid()
    ensures var r := Descend(f, avail, p);
      r <= p && (p >= 0 ==> r >= 0) && (p < 0 ==> r == p) && (Left(f, avail, r) >= 0 || r <= 0)
    ensures forall t :: Descend(f, avail, p) < t <= p ==> !Fits(f, avail, t)
    decreases if p > 0 then p else 0
  {
    hide Cost, FrameIn.Valid;
    if Left(f, avail, p) < 0 && p > 0 {
      DescendStops(f, avail, p - 1);
    }
  }

  /** Past a position that misses 100 bits nothing fits any more: costs fall by at most 66. */
  lemma NothingFitsAbove(f: FrameIn, avail: int, p: int, t: int)
    requires f.Valid() && 0 <= p <= t && Left(f, avail, p) <= -100
    ensures !Fits(f, avail, t)
  {
    hide Cost, FrameIn.Valid;
    CostAlmostMonotone(f, p, t);
  }

  lemma FitsSomewhere(f: FrameIn, avail: int)
    requires f.Valid()
    ensures (exists s :: 0 <= s <= 1023 && Fits(f, avail, s)) <==> avail >= 0
  {
    hide Cost, FrameIn.Valid;
    CostZero(f);
    if avail >= 0 {
      assert Fits(f, avail, 0);
    }
  }

  /** r is what the search promises: a fit exists exactly when r fits, and then r is the largest in 0..1023. */
  ghost predicate Optimal(f: FrameIn, avail: int, r: int)
    requires f.Valid()
  {
    (Left(f, avail, r) >= 0 <==> exists s :: 0 <= s <= 1023 && Fits(f, avail, s)) &&
    (Left(f, avail, r) >= 0 ==> 0 <= r <= 1023 && forall t :: r < t <= 1023 ==> !Fits(f, avail, t))
  }

  lemma OptimalFromTurn(f: FrameIn, avail: int, p: int)
    requires f.Valid() && 0 <= p && (p == 1023 || Left(f, avail, p) <= -100)
    requires forall t :: 1023 < t <= p ==> !Fits(f, avail, t)
    ensures Optimal(f, avail, Descend(f, avail, p))
  {
    hide Cost, FrameIn.Valid;
    var r := Descend(f, avail, p);
    DescendStops(f, avail, p);
    FitsSomewhere(f, avail);
    CostZero(f);
    assert Left(f, avail, r) >= 0 <==> Fits(f, avail, r);
    assert r > 0 ==> Fits(f, avail, r);
    forall t | r < t <= 1023
      ensures !Fits(f, avail, t)
    {
      if t > p { NothingFitsAbove(f, avail, p, t); }
    }
  }

  /** While the jumps stay inside 0..1023, the accurate search finds the true optimum from every start. */
  lemma AccurateIsOptimal(f: FrameIn, avail: int, nch: nat, start: int)
    requires f.Valid() && 1 <= nch <= 10 && 0 <= Jumps(f, avail, nch, start) <= 1023
    ensures Optimal(f, avail, Accurate(f, avail, nch, start))
  {
    hide Cost, FrameIn.Valid;
    ClimbStops(f, avail, Step(nch), Jumps(f, avail, nch, start));
    OptimalFromTurn(f, avail, Turn(f, avail, nch, start));
  }

  /** In terms of where the search turns: optimal exactly when it does not turn below 0 with bits available, and does
      not turn above 1023 over a position that fits. */
  lemma OptimalByTurn(f: FrameIn, avail: int, nch: nat, start: int)
    requires f.Valid() && 1 <= nch <= 10
    ensures var p := Turn(f, avail, nch, start);
      Optimal(f, avail, Accurate(f, avail, nch, start)) <==>
      (p < 0 ==> avail < 0) && (forall t :: 1023 < t <= p ==> !Fits(f, avail, t))
  {
    hide Cost, FrameIn.Valid;
    var p := Turn(f, avail, nch, start);
    var r := Descend(f, avail, p);
    ClimbStops(f, avail, Step(nch), Jumps(f, avail, nch, start));
    DescendStops(f, avail, p);
    FitsSomewhere(f, avail);
    if 0 <= p && forall t :: 1023 < t <= p ==> !Fits(f, avail, t) {
      OptimalFromTurn(f, avail, p);
    } else if p > 1023 {
      var t :| 1023 < t <= p && Fits(f, avail, t);
      assert r >= t;
    }
  }

  /** The climb from a negative position passes k steps on through bits still to spare. */
  ghost predicate Rises(f: FrameIn, avail: int, step: nat, s: int, k: nat)
    requires f.Valid()
  {
    s + k * step < 0 ==> Left(f, avail, s + k * step) > -100
  }

  ghost predicate AllRise(f: FrameIn, avail: int, step: nat, s: int)
    requires f.Valid()
  {
    forall k: nat :: Rises(f, avail, step, s, k)
  }

  lemma RisesShift(f: FrameIn, avail: int, step: nat, s: int, k: nat)
    requires f.Valid()
    ensures Rises(f, avail, step, s + step, k) <==> Rises(f, avail, step, s, k + 1)
  {
    hide Cost, FrameIn.Valid;
    assert s + step + k * step == s + (k + 1) * step;
  }

  lemma RisesStart(f: FrameIn, avail: int, step: nat, s: int, k: nat)
    requires f.Valid()
    ensures s < 0 ==> (Rises(f, avail, step, s, 0) <==> Left(f, avail, s) > -100)
    ensures s >= 0 ==> Rises(f, avail, step, s, k)
  {
    hide Cost, FrameIn.Valid, Left;
    assert 0 * step == 0 && k * step >= 0;
  }

  lemma RisesAfter(f: FrameIn, avail: int, step: nat, s: int, k: nat)
    requires f.Valid() && AllRise(f, avail, step, s)
    ensures Rises(f, avail, step, s + step, k)
  {
    hide Cost, FrameIn.Valid, Left, Rises;
    RisesShift(f, avail, step, s, k);
    assert Rises(f, avail, step, s, k + 1);
  }

  lemma RisesBefore(f: FrameIn, avail: int, step: nat, s: int, k: nat)
    requires f.Valid() && Left(f, avail, s) > -100 && AllRise(f, avail, step, s + step)
    ensures Rises(f, avail, step, s, k)
  {
    hide Cost, FrameIn.Valid, Left, Rises;
    if k == 0 {
      RisesStart(f, avail, step, s, 0);
    } else {
      RisesShift(f, avail, step, s, k - 1);
      assert Rises(f, avail, step, s + step, k - 1);
    }
  }

  lemma AllRiseStep(f: FrameIn, avail: int, step: nat, s: int, t: int)
    requires f.Valid() && t == s + step && Left(f, avail, s) > -100
    ensures AllRise(f, avail, step, s) <==> AllRise(f, avail, step, t)
  {
    hide Cost, FrameIn.Valid, Left, Rises;
    if AllRise(f, avail, step, s) {
      forall k: nat
        ensures Rises(f, avail, step, t, k)
      {
        RisesAfter(f, avail, step, s, k);
      }
    }
    if AllRise(f, avail, step, t) {
      forall k: nat
        ensures Rises(f, avail, step, s, k)
      {
        RisesBefore(f, avail, step, s, k);
      }
    }
  }

  /** The climb gets above -1 exactly when no negative position it visits misses 100 bits. */
  lemma {:induction false} ClimbFromBelow(f: FrameIn, avail: int, step: nat, s: int)
    requires f.Valid() && 1 <= step <= 10 && s <= 1023
    ensures Climb(f, avail, step, s) >= 0 <==> AllRise(f, avail, step, s)
    decreases 1024 - s
  {
    hide Cost, FrameIn.Valid, Left, Rises;
    if s >= 0 {
      ClimbStops(f, avail, step, s);
      forall k: nat
        ensures Rises(f, avail, step, s, k)
      {
        RisesStart(f, avail, step, s, k);
      }
    } else if Left(f, avail, s) > -100 {
      ClimbFromBelow(f, avail, step, s + step);
      AllRiseStep(f, avail, step, s, s + step);
    } else {
      RisesStart(f, avail, step, s, 0);
    }
  }

  /** A turn above 1023 passes over nothing there that fits: a jump target above 1023 that misses 100 bits lies over no
      such position that fits. */
  ghost predicate JumpLands(f: FrameIn, avail: int, nch: nat, start: int)
    requires f.Valid() && nch >= 1
  {
    var p := Jumps(f, avail, nch, start);
    p > 1023 && Left(f, avail, p) <= -100 ==> forall t :: 1023 < t <= p ==> !Fits(f, avail, t)
  }

  /** And from a negative jump target, with bits available, the climb meets no negative position that misses 100 bits.
      */
  ghost predicate Reaches(f: FrameIn, avail: int, nch: nat, start: int)
    requires f.Valid() && 1 <= nch <= 10
  {
    var p := Jumps(f, avail, nch, start);
    JumpLands(f, avail, nch, start) && (p < 0 && avail >= 0 ==> AllRise(f, avail, Step(nch), p))
  }

  /** Without the hypothesis on the jumps, from every start: exactly when the search finds the optimum. */
  lemma AccurateExactly(f: FrameIn, avail: int, nch: nat, start: int)
    requires f.Valid() && 1 <= nch <= 10
    ensures Optimal(f, avail, Accurate(f, avail, nch, start)) <==> Reaches(f, avail, nch, start)
  {
    hide Cost, FrameIn.Valid, AllRise, Optimal, Accurate, Jumps;
    var p := Jumps(f, avail, nch, start);
    OptimalByTurn(f, avail, nch, start);
    ClimbStops(f, avail, Step(nch), p);
    if p <= 1023 { ClimbFromBelow(f, avail, Step(nch), p); }
  }

  /** Exactly when a successful search ends at a position the SNR codes can express. */
  lemma AccurateInRange(f: FrameIn, avail: int, nch: nat, start: int)
    requires f.Valid() && 1 <= nch <= 10
    ensures var r := Accurate(f, avail, nch, start);
      (Fits(f, avail, r) ==> 0 <= r <= 1023) <==> JumpLands(f, avail, nch, start)
  {
    hide Cost, FrameIn.Valid, Jumps;
    var p := Turn(f, avail, nch, start);
    ClimbStops(f, avail, Step(nch), Jumps(f, avail, nch, start));
    DescendStops(f, avail, p);
  }

  /** From a start that fits, exactly when the search does not end below it. */
  lemma AccurateKeepsStart(f: FrameIn, avail: int, nch: nat, start: int)
    requires f.Valid() && 1 <= nch <= 10 && 0 <= start <= 1023 && Fits(f, avail, start)
    ensures var r, p := Accurate(f, avail, nch, start), Jumps(f, avail, nch, start);
      r >= start && Fits(f, avail, r) <==> (p < 0 ==> AllRise(f, avail, Step(nch), p))
  {
    hide Cost, FrameIn.Valid, AllRise, Jumps;
    var p, turn := Jumps(f, avail, nch, start), Turn(f, avail, nch, start);
    ClimbStops(f, avail, Step(nch), p);
    DescendStops(f, avail, turn);
    if p <= 1023 { ClimbFromBelow(f, avail, Step(nch), p); }
    if turn >= 0 && (forall t :: 1023 < t <= turn ==> !Fits(f, avail, t)) { OptimalFromTurn(f, avail, turn); }
  }

  // ---------- the fast search ----------

  /** Doubling the position pair upward in steps of 16; the result is the last pair looked at. */
  function FastUp(f: FrameIn, avail: int, s0: int, s1: int): (int, int)
    requires f.Valid()
    decreases if s1 > 1023 then 0 else 1024 - s1
  {
    if Left(f, avail, s1) > 0 && s1 + 16 <= 1023 then FastUp(f, avail, s1, s1 + 16) else (s0, s1)
  }

  function FastDown(f: FrameIn, avail: int, s: int): int
    requires f.Valid()
    decreases if s > 0 then s else 0
  {
    if Left(f, avail, s) < 0 && s - 16 >= 0 then FastDown(f, avail, s - 16) else s
  }

  function Fast(f: FrameIn, avail: int, start: int): int
    requires f.Valid()
  {
    if Left(f, avail, start) > 0 then FastUp(f, avail, start, start).0
    else if Left(f, avail, start) < 0 then FastDown(f, avail, start)
    else start
  }

  /** r is on the grid from s up, with bits left at every grid position up to it. */
  ghost predicate ClimbedTo(f: FrameIn, avail: int, s: int, r: int)
    requires f.Valid()
  {
    s <= r && (r - s) % 16 == 0 && forall t :: s <= t <= r && (t - s) % 16 == 0 ==> Left(f, avail, t) > 0
  }

  lemma ClimbedOn(f: FrameIn, avail: int, s: int, r: int)
    requires f.Valid() && ClimbedTo(f, avail, s, r) && Left(f, avail, r + 16) > 0
    ensures ClimbedTo(f, avail, s, r + 16)
  {
    hide Cost, FrameIn.Valid, Left;
    forall t | s <= t <= r + 16 && (t - s) % 16 == 0
      ensures Left(f, avail, t) > 0
    {
      if t > r { assert t == r + 16; }
    }
  }

  lemma {:induction false} FastUpStops(f: FrameIn, avail: int, start: int, s0: int, s1: int)
    requires f.Valid() && ClimbedTo(f, avail, start, s0) && s1 <= 1023 && Left(f, avail, s0) > 0
    requires (s0 == s1 == start) || s1 == s0 + 16
    ensures var r := FastUp(f, avail, s0, s1).0;
      ClimbedTo(f, avail, start, r) && (r == start || r + 16 <= 1023) &&
      (r + 32 > 1023 || Left(f, avail, r + 16) <= 0)
    decreases if s1 > 1023 then 0 else 1024 - s1
  {
    hide Cost, FrameIn.Valid, ClimbedTo;
    if Left(f, avail, s1) > 0 && s1 + 16 <= 1023 {
      if s1 == s0 + 16 { ClimbedOn(f, avail, start, s0); }
      FastUpStops(f, avail, start, s1, s1 + 16);
    }
  }

  lemma {:induction false} FastDownStops(f: FrameIn, avail: int, s: int)
    requires f.Valid() && s >= 0
    ensures var r := FastDown(f, avail, s);
      0 <= r <= s && (s - r) % 16 == 0 && (Left(f, avail, r) >= 0 || r < 16)
    ensures forall t :: FastDown(f, avail, s) < t <= s && (s - t) % 16 == 0 ==> !Fits(f, avail, t)
    decreases s
  {
    hide Cost, FrameIn.Valid;
    if Left(f, avail, s) < 0 && s - 16 >= 0 {
      FastDownStops(f, avail, s - 16);
    }
  }

  /** No position above 1023 that the fast search meets on its way down fits. */
  ghost predicate GridLands(f: FrameIn, avail: int, start: int)
    requires f.Valid()
  {
    forall t :: 1023 < t <= start && (start - t) % 16 == 0 ==> !Fits(f, avail, t)
  }

  /** With bits left at the start, the fast search climbs in steps of 16 over positions with bits left, until the next
      one has none left, or the one after that lies above 1023. */
  lemma FastClimbs(f: FrameIn, avail: int, start: int)
    requires f.Valid() && start <= 1023 && Left(f, avail, start) > 0
    ensures var r := Fast(f, avail, start);
      ClimbedTo(f, avail, start, r) && (r == start || r + 16 <= 1023) &&
      (r + 32 > 1023 || Left(f, avail, r + 16) <= 0)
  {
    hide Cost, FrameIn.Valid;
    assert ClimbedTo(f, avail, start, start);
    FastUpStops(f, avail, start, start, start);
  }

  /** Without, it falls in steps of 16 to the first position that fits. */
  lemma FastFalls(f: FrameIn, avail: int, start: int)
    requires f.Valid() && 0 <= start && Left(f, avail, start) <= 0
    ensures var r := Fast(f, avail, start);
      0 <= r <= start && (start - r) % 16 == 0 && (Fits(f, avail, r) || r < 16)
    ensures forall t :: Fast(f, avail, start) < t <= start && (start - t) % 16 == 0 ==> !Fits(f, avail, t)
  {
    hide Cost, FrameIn.Valid;
    if Left(f, avail, start) < 0 { FastDownStops(f, avail, start); }
  }

  lemma FastFromAbove(f: FrameIn, avail: int, start: int)
    requires f.Valid() && start > 1023 && Left(f, avail, start) > 0
    ensures Fast(f, avail, start) == start
  {
    hide Cost, FrameIn.Valid;
  }

  lemma ClimbedMeans(f: FrameIn, avail: int, s: int, r: int)
    requires f.Valid() && ClimbedTo(f, avail, s, r)
    ensures s <= r && (r - s) % 16 == 0 && Fits(f, avail, r)
  {
    hide Cost, FrameIn.Valid;
    assert Left(f, avail, r) > 0;
  }

  /** The fast search moves in multiples of 16. From a start that fits it never fails and never goes down; from one
      that does not, it fails exactly when no grid position below the start fits. It succeeds inside 0..1023 except
      from a start above 1023 with a grid position there that fits. */
  lemma FastSearch(f: FrameIn, avail: int, start: int)
    requires f.Valid() && 0 <= start
    ensures var r := Fast(f, avail, start);
      0 <= r && (r - start) % 16 == 0 && (Fits(f, avail, start) ==> r >= start && Fits(f, avail, r)) &&
      (Fits(f, avail, r) <==> exists t :: 0 <= t <= start && (start - t) % 16 == 0 && Fits(f, avail, t)) &&
      ((Fits(f, avail, r) ==> r <= 1023) <==> GridLands(f, avail, start))
  {
    hide Cost, FrameIn.Valid, Fast, ClimbedTo;
    var r := Fast(f, avail, start);
    assert (start - start) % 16 == 0;
    if Left(f, avail, start) > 0 {
      assert Fits(f, avail, start);
      if start <= 1023 {
        FastClimbs(f, avail, start);
        ClimbedMeans(f, avail, start, r);
      } else {
        FastFromAbove(f, avail, start);
      }
    } else {
      FastFalls(f, avail, start);
    }
  }
}
