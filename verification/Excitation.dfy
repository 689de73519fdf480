/** The masking curve of section 7.2.2.4 to 7.2.2.6 of ATSC A/52 without running values (a52.c:34-161): what low
    frequency compensation a band gets, where the leaks begin, and the greatest of the terms a band's mask is made of.
    */
module Excitation {
  import opened BitStrings
  import opened Tables
  import opened Masking

  // ---------- low frequency compensation ----------

  /** Two powers of two louder in the next band, among the bands that raise the compensation. */
  predicate Rise(bp: seq<int>, b: nat) { b < 20 && b + 1 < |bp| && bp[b] + 256 == bp[b + 1] }

  predicate Fall(bp: seq<int>, b: nat) { b + 1 < |bp| && bp[b] > bp[b + 1] }

  /** What bands j+1 .. b take off: 64 for every fall below band 20, 128 for every band from there. */
  function Sunk(bp: seq<int>, j: nat, b: nat): nat
  {
    if b <= j then 0 else Sunk(bp, j, b - 1) + (if b >= 20 then 128 else if Fall(bp, b) then 64 else 0)
  }

  ghost predicate NoRise(bp: seq<int>, lo: nat, b: nat)
  {
    forall k :: lo <= k <= b ==> !Rise(bp, k)
  }

  ghost predicate LastRise(bp: seq<int>, j: nat, b: nat)
  {
    j <= b && Rise(bp, j) && NoRise(bp, j + 1, b)
  }

  /** The compensation of band b: nothing before the first rise; after the last one, 384 or 320 less what has sunk. */
  ghost predicate Compensation(bp: seq<int>, b: nat, c: int)
  {
    (NoRise(bp, 0, b) && c == 0) ||
    exists j: nat :: LastRise(bp, j, b) && c == Max(0, (if j < 7 then 384 else 320) - Sunk(bp, j, b))
  }

  lemma RisesNow(bp: seq<int>, b: nat)
    requires Rise(bp, b)
    ensures Compensation(bp, b, if b < 7 then 384 else 320)
  {
    assert LastRise(bp, b, b) && Sunk(bp, b, b) == 0;
  }

  lemma SinksNow(bp: seq<int>, b: nat, c: int)
    requires b > 0 && Compensation(bp, b - 1, c) && !Rise(bp, b)
    ensures Compensation(bp, b, Max(0, c - (if b >= 20 then 128 else if Fall(bp, b) then 64 else 0)))
  {
    if NoRise(bp, 0, b - 1) && c == 0 {
      assert NoRise(bp, 0, b);
    } else {
      var j: nat :| LastRise(bp, j, b - 1) && c == Max(0, (if j < 7 then 384 else 320) - Sunk(bp, j, b - 1));
      assert LastRise(bp, j, b);
    }
  }

  /** The running value of calc_lowcomp is that. */
  lemma {:induction false} LowCompIs(bp: seq<int>, b: nat)
    requires b < |bp| && (b + 1 < |bp| || LfeLast(|bp|, b)) && b < 22
    ensures Compensation(bp, b, LowComp(bp, b))
  {
    hide Compensation;
    if b == 0 {
      FirstBand(bp);
    } else {
      LowCompIs(bp, b - 1);
      if Rise(bp, b) { RisesNow(bp, b); } else { SinksNow(bp, b, LowComp(bp, b - 1)); }
    }
  }

  lemma FirstBand(bp: seq<int>)
    requires |bp| > 1
    ensures Compensation(bp, 0, LowComp(bp, 0))
  {
    if Rise(bp, 0) { RisesNow(bp, 0); }
  }

  lemma CompensationUnique(bp: seq<int>, b: nat, c: int, d: int)
    requires Compensation(bp, b, c) && Compensation(bp, b, d)
    ensures c == d
  {
    if !NoRise(bp, 0, b) {
      var i: nat :| LastRise(bp, i, b) && c == Max(0, (if i < 7 then 384 else 320) - Sunk(bp, i, b));
      var j: nat :| LastRise(bp, j, b) && d == Max(0, (if j < 7 then 384 else 320) - Sunk(bp, j, b));
      assert i < j ==> !Rise(bp, j);
      assert j < i ==> !Rise(bp, i);
    }
  }

  // ---------- excitation and mask ----------

  /** The leaks begin after the first band from 2 on that is not louder than the next one, and at band 7 at the latest.
      */
  lemma {:induction false} BeginIs(bp: seq<int>, band: nat)
    requires 2 <= band <= 7 <= |bp|
    ensures var r := Begin(bp, band);
      (forall b :: band <= b < r - 1 ==> Fall(bp, b) || b == 6) && (r < 7 ==> !Fall(bp, r - 1))
    decreases 7 - band
  {
    if band < 7 { BeginIs(bp, band + 1); }
  }

  /** What band i's power still adds at band b, d per band lower. */
  function Decayed(bp: seq<int>, i: nat, b: nat, gain: int, d: int): int
    requires i <= b < |bp|
  {
    bp[i] - gain - (b - i) * d
  }

  lemma ExciteBelow(bp: seq<int>, p: Params, fgain: int, b: nat, c: int)
    requires BandInput(bp) && b < Begin(bp, 2) && Compensation(bp, b, c)
    ensures Excite(bp, p, fgain, b) == bp[b] - fgain - c
  {
    LowCompIs(bp, b);
    CompensationUnique(bp, b, c, LowComp(bp, b));
    hide Compensation, LowComp, Begin;
  }

  /** From there on: the greatest of all decayed powers since the last band below, fast and slow. */
  lemma ExciteAbove(bp: seq<int>, p: Params, fgain: int, b: nat, c: int) returns (i: nat, j: nat)
    requires BandInput(bp) && Begin(bp, 2) <= b < |bp| && (if b < 22 then Compensation(bp, b, c) else c == 0)
    ensures Begin(bp, 2) - 1 <= i <= b && Begin(bp, 2) - 1 <= j <= b
    ensures Excite(bp, p, fgain, b) == Max(Decayed(bp, i, b, fgain, p.fdecay) - c, Decayed(bp, j, b, p.sgain, p.sdecay))
    ensures forall k :: Begin(bp, 2) - 1 <= k <= b ==>
      Decayed(bp, k, b, fgain, p.fdecay) <= Decayed(bp, i, b, fgain, p.fdecay) &&
      Decayed(bp, k, b, p.sgain, p.sdecay) <= Decayed(bp, j, b, p.sgain, p.sdecay)
  {
    if b < 22 {
      LowCompIs(bp, b);
      CompensationUnique(bp, b, c, LowComp(bp, b));
    }
    i := LeakReached(bp, fgain, p.fdecay, b);
    j := LeakReached(bp, p.sgain, p.sdecay, b);
    hide Compensation, LowComp, Begin, Leak;
    forall k: nat | Begin(bp, 2) - 1 <= k <= b
      ensures Decayed(bp, k, b, fgain, p.fdecay) <= Decayed(bp, i, b, fgain, p.fdecay)
      ensures Decayed(bp, k, b, p.sgain, p.sdecay) <= Decayed(bp, j, b, p.sgain, p.sdecay)
    {
      LeakEnvelope(bp, fgain, p.fdecay, b, k);
      LeakEnvelope(bp, p.sgain, p.sdecay, b, k);
    }
  }

  /** A quarter of how far a band lies below the knee. */
  function Lift(power: int, knee: int): int { if power < knee then (knee - power) / 4 else 0 }

  /** The mask of a band: the hearing threshold, or the excitation, lifted below the knee, if that is higher. */
  lemma MaskAtIs(bp: seq<int>, p: Params, fgain: int, b: nat, c: int) returns (i: nat, j: nat)
    requires BandInput(bp) && b < |bp| && p.Valid() && (if b < 22 then Compensation(bp, b, c) else c == 0)
    ensures Shr(b, p.halfratecod) < 50
    ensures var quiet, lift := HearingThresholdTab(Shr(b, p.halfratecod), p.fscod), Lift(bp[b], p.dbknee);
      if b < Begin(bp, 2) then MaskAt(bp, p, fgain, b) == Max(quiet, bp[b] - fgain - c + lift)
      else
        Begin(bp, 2) - 1 <= i <= b && Begin(bp, 2) - 1 <= j <= b &&
        MaskAt(bp, p, fgain, b) == Max(quiet, lift + Max(Decayed(bp, i, b, fgain, p.fdecay) - c,
                                                         Decayed(bp, j, b, p.sgain, p.sdecay))) &&
        forall k :: Begin(bp, 2) - 1 <= k <= b ==>
          Decayed(bp, k, b, fgain, p.fdecay) <= Decayed(bp, i, b, fgain, p.fdecay) &&
          Decayed(bp, k, b, p.sgain, p.sdecay) <= Decayed(bp, j, b, p.sgain, p.sdecay)
  {
    ShrBound(b, p.halfratecod);
    hide Compensation, Begin, Excite, Decayed, HearingThresholdTab, Shr;
    i, j := 0, 0;
    if b < Begin(bp, 2) {
      ExciteBelow(bp, p, fgain, b, c);
    } else {
      i, j := ExciteAbove(bp, p, fgain, b, c);
    }
  }

  // ---------- adding powers ----------

  /** Addition of powers does not ask which is the louder, is at least that one, exceeds it by 64 for equal powers, by
      less the further they are apart, and by nothing from 420 on. */
  lemma LogAddLaws(v: int, p: int)
    ensures LogAdd(v, p) == LogAdd(p, v) && LogAdd(v, v) == v + 64
    ensures v <= p ==> LogAdd(v, p) == p + LogAddTab(Min((p - v) / 2, 255)) <= p + 64
    ensures p - v >= 420 ==> LogAdd(v, p) == p
    ensures v + 1 <= p ==> LogAdd(v + 1, p) >= LogAdd(v, p)
  {
  }
}
