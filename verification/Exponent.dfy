/** Exponents (exponent.c): extraction, minima over reuse runs, in-place grouping and slope limiting, and the packing
    of three slopes per 7-bit code with its decoder. */
module Exponent {
  import opened Arithmetic
  import opened BitStrings
  import opened Tables

  const REUSE := 0
  const D15 := 1
  const D25 := 2
  const D45 := 3

  /** Bins per exponent group: strategy + (strategy == D45). */
  function GroupSize(strategy: nat): (g: nat)
    ensures 1 <= strategy <= 3 ==> g == 1 || g == 2 || g == 4
  {
    strategy + (if strategy == D45 then 1 else 0)
  }

  /** One entry of nexpgrptab; the numerator is -1 for zero coefficients and C truncates it to 0. */
  function NumGroups(strategy: nat, ncoefs: nat): (n: nat)
    requires 1 <= strategy <= 3
    ensures ncoefs <= 253 ==> 3 * GroupSize(strategy) * n <= 252
  {
    var g := GroupSize(strategy);
    if ncoefs == 7 then 2
    else if ncoefs + 3 * g < 4 then 0
    else (ncoefs + 3 * g - 4) / (3 * g)
  }

  /** A coefficient count the encoder uses: 7 for the LFE channel, 3w + 73 for bandwidth code w. */
  predicate ValidCount(ncoefs: nat)
  {
    ncoefs == 7 || (73 <= ncoefs <= 253 && ncoefs % 3 == 1)
  }

  /** The exponent groups reach every coefficient, and only the 256 exponent slots. */
  lemma GroupsCover(strategy: nat, ncoefs: nat)
    requires 1 <= strategy <= 3 && ValidCount(ncoefs)
    ensures ncoefs - 1 <= 3 * GroupSize(strategy) * NumGroups(strategy, ncoefs) <= 252
  {
  }

  /** The group counts of section 5.4.3 of ATSC A/52, for the end mantissa bin of a channel. */
  lemma NumGroupsStandard(ncoefs: nat)
    requires ValidCount(ncoefs)
    ensures ncoefs > 7 ==>
      NumGroups(D15, ncoefs) == (ncoefs - 1) / 3 && NumGroups(D25, ncoefs) == (ncoefs - 1 + 3) / 6 &&
      NumGroups(D45, ncoefs) == (ncoefs - 1 + 9) / 12
    ensures ncoefs == 7 ==> NumGroups(D15, ncoefs) == 2
  {
  }

  method ExponentInit() returns (tab: array2<nat>)
    ensures fresh(tab) && tab.Length0 == 3 && tab.Length1 == 256
    ensures forall i, j :: 0 <= i < 3 && 0 <= j < 256 ==> tab[i, j] == NumGroups(i + 1, j)
  {
    tab := new nat[3, 256];
    for i := 1 to 4
      invariant forall a, j :: 0 <= a < i - 1 && 0 <= j < 256 ==> tab[a, j] == NumGroups(a + 1, j)
    {
      for j := 0 to 256
        invariant forall a, k :: 0 <= a < i - 1 && 0 <= k < 256 ==> tab[a, k] == NumGroups(a + 1, k)
        invariant forall k :: 0 <= k < j ==> tab[i - 1, k] == NumGroups(i, k)
      {
        var grpsize := i + (if i == D45 then 1 else 0);
        var ngrps: nat := 0;
        if j == 7 {
          ngrps := 2;
        } else if j + grpsize * 3 - 4 >= 0 {
          ngrps := (j + grpsize * 3 - 4) / (3 * grpsize);
        }
        tab[i - 1, j] := ngrps;
      }
    }
  }

  // ---------- extraction ----------

  /** log2i: the position of the highest set bit, by two shifts and a table. */
  method Log2i(value: Word) returns (n: nat)
    ensures value > 0 ==> Pow2(n) <= value < Pow2(n + 1)
    ensures value == 0 ==> n == 0
  {
    Pow2Values();
    var v: nat := value;
    n := 0;
    if v >= 0x1_0000 {
      v := v / 0x1_0000;
      n := n + 16;
    }
    assert v < 0x1_0000 && (value > 0 ==> v > 0) && v == value / Pow2(n);
    if v >= 0x100 {
      v := v / 0x100;
      n := n + 8;
    }
    n := n + Log2Tab(v);
  }

  /** The exponent of a coefficient in units of 2^-24: the number of leading zeros after the point. */
  function ExponentOf(c: int): (e: nat)
    requires Abs(c) < 0x100_0000
  {
    Pow2Values();
    LeadingZeros(Abs(c), 24)
  }

  lemma LeadingZerosUnique(v: nat, n: nat, e: nat)
    requires v < Pow2(n) && e <= n && v < Pow2(n - e) && (e < n ==> v >= Pow2(n - e - 1))
    ensures e == LeadingZeros(v, n)
  {
    var z := LeadingZeros(v, n);
    if e < z { Pow2Mono(n - z, n - e - 1); }
    if z < e { Pow2Mono(n - e, n - z - 1); }
  }

  function LeadingZeros(v: nat, n: nat): (e: nat)
    requires v < Pow2(n)
    ensures e <= n && v < Pow2(n - e) && (e < n ==> v >= Pow2(n - e - 1))
  {
    if n == 0 then 0 else if v >= Pow2(n - 1) then 0 else 1 + LeadingZeros(v, n - 1)
  }

  /** extract_exponents for one channel of one block. */
  method ExtractExponents(coef: array<int>, exp: array<Byte>)
    requires coef.Length == 256 && exp.Length == 256
    requires forall j :: 0 <= j < 256 ==> Abs(coef[j]) < 0x100_0000
    modifies exp
    ensures forall j :: 0 <= j < 256 ==> exp[j] == ExponentOf(coef[j])
  {
    hide Abs, ExponentOf;
    var j := 0;
    while j < 256
      invariant 0 <= j <= 256 && j % 2 == 0
      invariant forall k :: 0 <= k < j ==> exp[k] == ExponentOf(coef[k])
    {
      var e1 := Extract(coef[j]);
      var e2 := Extract(coef[j + 1]);
      exp[j], exp[j + 1] := e1, e2;
      j := j + 2;
    }
  }

  method Extract(c: int) returns (e: Byte)
    requires Abs(c) < 0x100_0000
    ensures e == ExponentOf(c)
  {
    var v := Abs(c);
    var n := Log2i(v);
    Pow2Values();
    if v != 0 && n >= 24 { Pow2Mono(24, n); }
    e := if v == 0 then 24 else 23 - n;
    LeadingZerosUnique(v, 24, e);
  }

  /** exponent_min; the target may be the first operand, as the encoder calls it. */
  method ExponentMin(target: array<Byte>, exp: array<Byte>, exp1: array<Byte>, n: nat)
    requires n <= target.Length && n <= exp.Length && n <= exp1.Length && target != exp1
    modifies target
    ensures forall i :: 0 <= i < n ==> target[i] == Min(old(exp[i]), exp1[i])
    ensures forall i :: n <= i < target.Length ==> target[i] == old(target[i])
  {
    for i := 0 to n
      invariant forall k :: 0 <= k < i ==> target[k] == Min(old(exp[k]), exp1[k])
      invariant forall k :: i <= k < target.Length ==> target[k] == old(target[k])
      invariant forall k :: i <= k < exp.Length ==> exp[k] == old(exp[k])
    {
      target[i] := Min(exp[i], exp1[i]);
    }
  }

  // ---------- the slope limiter ----------

  /** The forward pass: nothing rises by more than 2. */
  function Forward(g: seq<int>, i: nat): int
    requires i < |g|
  {
    if i == 0 then g[0] else Min(g[i], Forward(g, i - 1) + 2)
  }

  /** The backward pass over the forward one: nothing falls by more than 2. */
  function Backward(g: seq<int>, i: nat): int
    requires i < |g|
    decreases |g| - i
  {
    if i == |g| - 1 then Forward(g, i) else Min(Forward(g, i), Backward(g, i + 1) + 2)
  }

  function Limit(g: seq<int>): (r: seq<int>)
    ensures |r| == |g|
  {
    seq(|g|, i requires 0 <= i < |g| => Backward(g, i))
  }

  lemma {:induction false} ForwardBound(g: seq<int>, i: nat, j: nat)
    requires j <= i < |g|
    ensures Forward(g, i) <= g[j] + 2 * (i - j)
  {
    if j < i { ForwardBound(g, i - 1, j); }
  }

  lemma {:induction false} ForwardReached(g: seq<int>, i: nat) returns (j: nat)
    requires i < |g|
    ensures j <= i && Forward(g, i) == g[j] + 2 * (i - j)
  {
    if i == 0 || g[i] <= Forward(g, i - 1) + 2 {
      j := i;
    } else {
      j := ForwardReached(g, i - 1);
    }
  }

  /** Every value is at most g[j] + 2|i - j|, for all j ... */
  lemma {:induction false} LimitBound(g: seq<int>, i: nat, j: nat)
    requires i < |g| && j < |g|
    ensures Limit(g)[i] <= g[j] + 2 * Abs(i - j)
    decreases |g| - i
  {
    if j <= i {
      ForwardBound(g, i, j);
    } else {
      LimitBound(g, i + 1, j);
    }
  }

  /** ... and equal for one of them: the limiter computes the minimum of g[j] + 2|i - j|. */
  lemma {:induction false} LimitReached(g: seq<int>, i: nat) returns (j: nat)
    requires i < |g|
    ensures j < |g| && Limit(g)[i] == g[j] + 2 * Abs(i - j)
    decreases |g| - i
  {
    if i == |g| - 1 || Forward(g, i) <= Backward(g, i + 1) + 2 {
      j := ForwardReached(g, i);
    } else {
      j := LimitReached(g, i + 1);
      if j <= i { ForwardBound(g, i, j); }
    }
  }

  ghost predicate Slopes2(m: seq<int>)
  {
    forall i :: 0 < i < |m| ==> Abs(m[i] - m[i - 1]) <= 2
  }

  ghost predicate Below(m: seq<int>, g: seq<int>)
  {
    |m| == |g| && forall i :: 0 <= i < |g| ==> m[i] <= g[i]
  }

  lemma LimitFeasible(g: seq<int>)
    ensures Below(Limit(g), g) && Slopes2(Limit(g))
  {
    forall i | 0 <= i < |g|
      ensures Limit(g)[i] <= g[i]
    {
      LimitBound(g, i, i);
    }
    forall i | 0 < i < |g|
      ensures Abs(Limit(g)[i] - Limit(g)[i - 1]) <= 2
    {
      var j := LimitReached(g, i);
      LimitBound(g, i - 1, j);
      j := LimitReached(g, i - 1);
      LimitBound(g, i, j);
    }
  }

  lemma {:induction false} SlopesSpread(m: seq<int>, i: nat, j: nat)
    requires Slopes2(m) && i < |m| && j < |m|
    ensures m[i] <= m[j] + 2 * Abs(i - j)
    decreases Abs(i - j)
  {
    if i < j {
      SlopesSpread(m, i, j - 1);
      assert Abs(m[j] - m[j - 1]) <= 2;
    } else if i > j {
      SlopesSpread(m, i, j + 1);
      assert Abs(m[j + 1] - m[j]) <= 2;
    }
  }

  /** The limiter's output is the greatest sequence below its input whose neighbours differ by at most 2. */
  lemma LimitGreatest(g: seq<int>, m: seq<int>)
    requires Below(m, g) && Slopes2(m)
    ensures Below(m, Limit(g))
  {
    forall i | 0 <= i < |g|
      ensures m[i] <= Limit(g)[i]
    {
      var j := LimitReached(g, i);
      SlopesSpread(m, i, j);
    }
  }

  // ---------- encode_exp_blk_ch ----------

  predicate ValidSize(g: nat) { g == 1 || g == 2 || g == 4 }

  /** The first bin of group i >= 1; bin 0, the DC exponent, is group 0. */
  function Start(g: nat, i: nat): nat
    requires ValidSize(g) && i >= 1
  {
    if g == 1 then i else if g == 2 then 2 * i - 1 else 4 * i - 3
  }

  /** The group that bin k belongs to. */
  function GroupOf(g: nat, k: nat): nat
    requires ValidSize(g)
  {
    if g == 1 then k else if g == 2 then (k + 1) / 2 else (k + 3) / 4
  }

  lemma GroupsFit(strategy: nat, ncoefs: nat, g: nat, n: nat)
    requires 1 <= strategy <= 3 && ncoefs <= 253 && g == GroupSize(strategy) && n == NumGroups(strategy, ncoefs)
    ensures Start(g, 3 * n + 1) <= 253
    ensures ValidCount(ncoefs) ==> ncoefs <= Start(g, 3 * n + 1)
  {
    if ValidCount(ncoefs) { GroupsCover(strategy, ncoefs); }
  }

  function MinOver(e: seq<Byte>, k: nat, n: nat): (r: Byte)
    requires n >= 1 && k + n <= |e|
    ensures forall b :: k <= b < k + n ==> r <= e[b]
    ensures exists b :: k <= b < k + n && r == e[b]
  {
    if n == 1 then e[k] else Min(MinOver(e, k, n - 1), e[k + n - 1])
  }

  /** The value the limiter starts from: the group's smallest exponent, the DC exponent capped at 15. */
  function GroupValue(e: seq<Byte>, g: nat, i: nat): (r: Byte)
    requires ValidSize(g) && Start(g, i + 1) <= |e|
  {
    if i == 0 then Min(e[0], 15) else MinOver(e, Start(g, i), g)
  }

  function GroupValues(e: seq<Byte>, g: nat, n: nat): (r: seq<int>)
    requires ValidSize(g) && Start(g, n + 1) <= |e|
    ensures |r| == n + 1
  {
    seq(n + 1, i requires 0 <= i <= n => GroupValue(e, g, i))
  }

  /** Exponents 0 .. Start(g, n+1)-1 take the limited value of their group; later ones are not touched. */
  function Encode(e: seq<Byte>, g: nat, n: nat): (r: seq<int>)
    requires ValidSize(g) && Start(g, n + 1) <= |e|
    ensures |r| == |e|
  {
    var l := Limit(GroupValues(e, g, n));
    seq(|e|, k requires 0 <= k < |e| => if k < Start(g, n + 1) then l[GroupOf(g, k)] else e[k])
  }

  /** The group values in the terms of the code. */
  lemma GroupValueIs(e: seq<Byte>, g: nat, i: nat, k: nat)
    requires ValidSize(g) && Start(g, i + 1) <= |e| && (i >= 1 ==> k == Start(g, i))
    ensures i == 0 ==> GroupValue(e, g, i) == Min(e[0], 15)
    ensures i >= 1 && g == 1 ==> k == i && GroupValue(e, g, i) == e[i]
    ensures i >= 1 && g == 2 ==> k + 2 <= |e| && GroupValue(e, g, i) == Min(e[k], e[k + 1])
    ensures i >= 1 && g == 4 ==>
      k + 4 <= |e| && GroupValue(e, g, i) == Min(Min(e[k], e[k + 1]), Min(e[k + 2], e[k + 3]))
  {
    if i >= 1 {
      assert MinOver(e, k, 1) == e[k];
      if g == 2 { assert MinOver(e, k, 2) == Min(MinOver(e, k, 1), e[k + 1]); }
      if g == 4 { MinOver4(e, k); }
    }
  }

  lemma MinOver4(e: seq<Byte>, k: nat)
    requires k + 4 <= |e|
    ensures MinOver(e, k, 4) == Min(Min(e[k], e[k + 1]), Min(e[k + 2], e[k + 3]))
  {
    assert MinOver(e, k, 2) == Min(MinOver(e, k, 1), e[k + 1]);
    assert MinOver(e, k, 3) == Min(MinOver(e, k, 2), e[k + 2]);
  }

  /** The group minima, written over the exponents they are computed from. */
  method GroupMinima(exp: array<Byte>, g: nat, n: nat)
    requires ValidSize(g) && Start(g, n + 1) <= exp.Length
    modifies exp
    ensures forall i :: 0 <= i <= n ==> exp[i] == GroupValue(old(exp[..]), g, i)
    ensures forall k :: n < k < exp.Length ==> exp[k] == old(exp[k])
  {
    hide GroupValue, MinOver;
    ghost var e := exp[..];
    GroupValueIs(e, g, 0, 0);
    exp[0] := Min(exp[0], 15);
    if g == 2 {
      var k := 1;
      for i := 1 to n + 1
        invariant k == Start(2, i)
        invariant forall j :: 0 <= j < i ==> exp[j] == GroupValue(e, g, j)
        invariant forall j :: i <= j < exp.Length ==> exp[j] == e[j]
      {
        GroupValueIs(e, g, i, k);
        exp[i] := Min(exp[k], exp[k + 1]);
        k := k + 2;
      }
    } else if g == 4 {
      var k := 1;
      for i := 1 to n + 1
        invariant k == Start(4, i)
        invariant forall j :: 0 <= j < i ==> exp[j] == GroupValue(e, g, j)
        invariant forall j :: i <= j < exp.Length ==> exp[j] == e[j]
      {
        GroupValueIs(e, g, i, k);
        var expMin1 := Min(exp[k], exp[k + 1]);
        var expMin2 := Min(exp[k + 2], exp[k + 3]);
        exp[i] := Min(expMin1, expMin2);
        k := k + 4;
      }
    } else {
      forall i | 1 <= i <= n
        ensures exp[i] == GroupValue(e, g, i)
      {
        GroupValueIs(e, g, i, i);
      }
    }
  }

  lemma {:induction false} ForwardRange(g: seq<int>, i: nat)
    requires i < |g| && forall j :: 0 <= j < |g| ==> 0 <= g[j] < 256
    ensures 0 <= Forward(g, i) < 256
  {
    if i > 0 { ForwardRange(g, i - 1); }
  }

  lemma {:induction false} BackwardRange(g: seq<int>, i: nat)
    requires i < |g| && forall j :: 0 <= j < |g| ==> 0 <= g[j] < 256
    ensures 0 <= Backward(g, i) < 256
    decreases |g| - i
  {
    ForwardRange(g, i);
    if i < |g| - 1 { BackwardRange(g, i + 1); }
  }

  lemma ForwardNext(g: seq<int>, i: nat)
    requires i < |g|
    ensures Forward(g, i) == if i == 0 then g[0] else Min(g[i], Forward(g, i - 1) + 2)
  {
  }

  method ForwardPass(exp: array<Byte>, n: nat)
    requires n < exp.Length
    modifies exp
    ensures forall i :: 0 <= i <= n ==> exp[i] == Forward(old(exp[..n + 1]), i)
    ensures forall k :: n < k < exp.Length ==> exp[k] == old(exp[k])
  {
    hide Forward;
    ghost var g: seq<int> := exp[..n + 1];
    ForwardNext(g, 0);
    for i := 1 to n + 1
      invariant forall j :: 0 <= j < i ==> exp[j] == Forward(g, j)
      invariant forall j :: i <= j < exp.Length ==> exp[j] == old(exp[j])
    {
      ForwardNext(g, i);
      var here: Byte, before: Byte := exp[i], exp[i - 1];
      exp[i] := Min(here, before + 2);
    }
  }

  lemma BackwardNext(g: seq<int>, i: nat)
    requires i < |g|
    ensures Backward(g, i) == if i == |g| - 1 then Forward(g, i) else Min(Forward(g, i), Backward(g, i + 1) + 2)
  {
  }

  method BackwardPass(exp: array<Byte>, n: nat, ghost g: seq<int>)
    requires n < exp.Length && |g| == n + 1
    requires forall i :: 0 <= i <= n ==> exp[i] == Forward(g, i)
    modifies exp
    ensures forall i :: 0 <= i <= n ==> exp[i] == Backward(g, i)
    ensures forall k :: n < k < exp.Length ==> exp[k] == old(exp[k])
  {
    hide Forward, Backward;
    BackwardNext(g, n);
    var i := n - 1;
    while i >= 0
      invariant -1 <= i < n
      invariant forall j :: 0 <= j <= i ==> exp[j] == Forward(g, j)
      invariant forall j :: i < j <= n ==> exp[j] == Backward(g, j)
      invariant forall k :: n < k < exp.Length ==> exp[k] == old(exp[k])
    {
      BackwardNext(g, i);
      var here: Byte, after: Byte := exp[i], exp[i + 1];
      exp[i] := Min(here, after + 2);
      i := i - 1;
    }
  }

  /** The two limiting passes over exp[0..n]. */
  method LimitSlopes(exp: array<Byte>, n: nat)
    requires n < exp.Length
    modifies exp
    ensures forall i :: 0 <= i <= n ==> exp[i] == Limit(old(exp[..n + 1]))[i]
    ensures forall k :: n < k < exp.Length ==> exp[k] == old(exp[k])
  {
    ghost var g: seq<int> := exp[..n + 1];
    ForwardPass(exp, n);
    BackwardPass(exp, n, g);
  }

  lemma GroupBounds(n: nat)
    ensures forall k :: 0 <= k <= 2 * n ==> GroupOf(2, k) <= n
    ensures forall k :: 0 <= k <= 4 * n ==> GroupOf(4, k) <= n
    ensures GroupOf(2, 0) == GroupOf(4, 0) == 0
  {
  }

  lemma BinsOfGroup(i: nat)
    requires i >= 1
    ensures GroupOf(2, 2 * i - 1) == GroupOf(2, 2 * i) == i
    ensures GroupOf(4, 4 * i - 3) == GroupOf(4, 4 * i - 2) == GroupOf(4, 4 * i - 1) == GroupOf(4, 4 * i) == i
  {
  }

  /** exp[k] = exp[k-1] = exp[i] */
  method Spread2(exp: array<Byte>, i: nat, k: nat)
    requires 1 <= k < exp.Length && i < exp.Length
    modifies exp
    ensures exp[k] == exp[k - 1] == old(exp[i])
    ensures forall j :: 0 <= j < k - 1 || k < j < exp.Length ==> exp[j] == old(exp[j])
  {
    exp[k - 1] := exp[i];
    exp[k] := exp[k - 1];
  }

  /** exp[k] = exp[k-1] = exp[k-2] = exp[k-3] = exp[i] */
  method Spread4(exp: array<Byte>, i: nat, k: nat)
    requires 3 <= k < exp.Length && i < exp.Length
    modifies exp
    ensures exp[k] == exp[k - 1] == exp[k - 2] == exp[k - 3] == old(exp[i])
    ensures forall j :: 0 <= j < k - 3 || k < j < exp.Length ==> exp[j] == old(exp[j])
  {
    exp[k - 3] := exp[i];
    exp[k - 2] := exp[k - 3];
    exp[k - 1] := exp[k - 2];
    exp[k] := exp[k - 1];
  }

  /** The values of e, each over the bins of its group; bins above `last` stay. */
  function Spread(e: seq<Byte>, g: nat, last: nat): (r: seq<Byte>)
    requires ValidSize(g)
    ensures |r| == |e|
  {
    seq(|e|, k requires 0 <= k < |e| => if k <= last && GroupOf(g, k) < |e| then e[GroupOf(g, k)] else e[k])
  }

  lemma SpreadMeans(e: seq<Byte>, g: nat, last: nat)
    requires ValidSize(g) && last < |e| && forall k :: 0 <= k <= last ==> GroupOf(g, k) < |e|
    ensures forall k :: 0 <= k <= last ==> Spread(e, g, last)[k] == e[GroupOf(g, k)]
    ensures forall k :: last < k < |e| ==> Spread(e, g, last)[k] == e[k]
    ensures Spread(e, g, last)[0] == e[0]
  {
  }

  lemma Spread2At(e: seq<Byte>, last: nat, i: nat, k: nat)
    requires 1 <= i && k == 2 * i <= last < |e|
    ensures Spread(e, 2, last)[k - 1] == Spread(e, 2, last)[k] == e[i]
  {
    BinsOfGroup(i);
  }

  lemma Spread4At(e: seq<Byte>, last: nat, i: nat, k: nat)
    requires 1 <= i && k == 4 * i <= last < |e|
    ensures var r := Spread(e, 4, last); r[k - 3] == r[k - 2] == r[k - 1] == r[k] == e[i]
  {
    BinsOfGroup(i);
  }

  /** The bins above k are spread, the others not yet. */
  ghost predicate Spreading(x: seq<Byte>, e: seq<Byte>, want: seq<Byte>, k: nat)
  {
    |x| == |e| == |want| && k < |x| && (forall j :: 0 <= j <= k ==> x[j] == e[j]) &&
    forall j :: k < j < |x| ==> x[j] == want[j]
  }

  lemma SpreadOn(x: seq<Byte>, y: seq<Byte>, e: seq<Byte>, want: seq<Byte>, k: nat, g: nat)
    requires Spreading(x, e, want, k) && g <= k && |y| == |x|
    requires forall j :: k - g < j <= k ==> y[j] == want[j]
    requires forall j :: 0 <= j <= k - g || k < j < |x| ==> y[j] == x[j]
    ensures Spreading(y, e, want, k - g)
  {
  }

  lemma SpreadAll(x: seq<Byte>, e: seq<Byte>, g: nat, last: nat)
    requires ValidSize(g) && last < |e| && forall k :: 0 <= k <= last ==> GroupOf(g, k) < |e|
    requires Spreading(x, e, Spread(e, g, last), 0)
    ensures forall k :: 0 <= k <= last ==> x[k] == e[GroupOf(g, k)]
    ensures forall k :: last < k < |e| ==> x[k] == e[k]
  {
    hide GroupOf, Spread;
    SpreadMeans(e, g, last);
  }

  lemma SpreadNone(e: seq<Byte>, g: nat, last: nat)
    requires ValidSize(g) && last < |e|
    ensures Spreading(e, e, Spread(e, g, last), last)
  {
    hide GroupOf;
  }

  method Expand2(exp: array<Byte>, n: nat, ghost e: seq<Byte>)
    requires 2 * n < exp.Length && e == exp[..]
    modifies exp
    ensures forall k :: 0 <= k <= 2 * n ==> GroupOf(2, k) < |e| && exp[k] == e[GroupOf(2, k)]
    ensures forall k :: 2 * n < k < exp.Length ==> exp[k] == e[k]
  {
    hide GroupOf, Spread, Spreading;
    GroupBounds(n);
    SpreadNone(e, 2, 2 * n);
    ghost var want := Spread(e, 2, 2 * n);
    var i, k := n, n * 2;
    while i > 0
      invariant 0 <= i <= n && k == 2 * i < exp.Length == |e|
      invariant Spreading(exp[..], e, want, k)
    {
      ghost var x := exp[..];
      NotYet(x, e, want, i, k);
      Spread2At(e, 2 * n, i, k);
      Spread2(exp, i, k);
      SpreadOn(x, exp[..], e, want, k, 2);
      k := k - 2;
      i := i - 1;
    }
    SpreadAll(exp[..], e, 2, 2 * n);
  }

  lemma NotYet(x: seq<Byte>, e: seq<Byte>, want: seq<Byte>, i: nat, k: nat)
    requires Spreading(x, e, want, k) && i <= k
    ensures i < |x| == |e| && x[i] == e[i]
  {
  }

  method Expand4(exp: array<Byte>, n: nat, ghost e: seq<Byte>)
    requires 4 * n < exp.Length && e == exp[..]
    modifies exp
    ensures forall k :: 0 <= k <= 4 * n ==> GroupOf(4, k) < |e| && exp[k] == e[GroupOf(4, k)]
    ensures forall k :: 4 * n < k < exp.Length ==> exp[k] == e[k]
  {
    hide GroupOf, Spread, Spreading;
    GroupBounds(n);
    SpreadNone(e, 4, 4 * n);
    ghost var want := Spread(e, 4, 4 * n);
    var i, k := n, n * 4;
    while i > 0
      invariant 0 <= i <= n && k == 4 * i < exp.Length == |e|
      invariant Spreading(exp[..], e, want, k)
    {
      ghost var x := exp[..];
      NotYet(x, e, want, i, k);
      Spread4At(e, 4 * n, i, k);
      Spread4(exp, i, k);
      SpreadOn(x, exp[..], e, want, k, 4);
      k := k - 4;
      i := i - 1;
    }
    SpreadAll(exp[..], e, 4, 4 * n);
  }

  /** The group values spread back over their bins, from the last group down. */
  method Expand(exp: array<Byte>, g: nat, n: nat)
    requires ValidSize(g) && Start(g, n + 1) <= exp.Length
    modifies exp
    ensures forall k :: 0 <= k < Start(g, n + 1) ==> exp[k] == old(exp[GroupOf(g, k)])
    ensures forall k :: Start(g, n + 1) <= k < exp.Length ==> exp[k] == old(exp[k])
  {
    ghost var e := exp[..];
    if g == 2 {
      Expand2(exp, n, e);
    } else if g == 4 {
      Expand4(exp, n, e);
    }
  }

  lemma EncodeIs(e: seq<Byte>, g: nat, n: nat, x: seq<Byte>)
    requires ValidSize(g) && Start(g, n + 1) <= |e| == |x|
    requires forall k :: 0 <= k < Start(g, n + 1) ==>
      (BinInGroup(g, k, n); x[k] == Limit(GroupValues(e, g, n))[GroupOf(g, k)])
    requires forall k :: Start(g, n + 1) <= k < |e| ==> x[k] == e[k]
    ensures x == Encode(e, g, n)
  {
  }

  /** The encoding chosen by a strategy. */
  function EncodeRow(e: seq<Byte>, strategy: nat, ncoefs: nat): (r: seq<int>)
    requires |e| == 256 && 1 <= strategy <= 3 && ncoefs <= 253
    ensures |r| == 256
  {
    GroupsFit(strategy, ncoefs, GroupSize(strategy), NumGroups(strategy, ncoefs));
    Encode(e, GroupSize(strategy), 3 * NumGroups(strategy, ncoefs))
  }

  /** encode_exp_blk_ch: the exponents of one block and channel as the decoder will see them. */
  method EncodeExpBlkCh(nexpgrptab: array2<nat>, exp: array<Byte>, ncoefs: nat, strategy: nat)
    requires nexpgrptab.Length0 == 3 && nexpgrptab.Length1 == 256
    requires forall i, j :: 0 <= i < 3 && 0 <= j < 256 ==> nexpgrptab[i, j] == NumGroups(i + 1, j)
    requires 1 <= strategy <= 3 && ncoefs <= 253 && exp.Length == 256
    modifies exp
    ensures exp[..] == EncodeRow(old(exp[..]), strategy, ncoefs)
  {
    var g, ngrps := GroupSize(strategy), nexpgrptab[strategy - 1, ncoefs] * 3;
    GroupsFit(strategy, ncoefs, g, NumGroups(strategy, ncoefs));
    EncodeWith(exp, g, ngrps);
  }

  method EncodeWith(exp: array<Byte>, g: nat, ngrps: nat)
    requires ValidSize(g) && exp.Length == 256 && Start(g, ngrps + 1) <= 256
    modifies exp
    ensures exp[..] == Encode(old(exp[..]), g, ngrps)
  {
    ghost var e := exp[..];
    hide Encode, Limit, GroupValue;
    GroupMinima(exp, g, ngrps);
    ghost var v: seq<int> := exp[..ngrps + 1];
    assert v == GroupValues(e, g, ngrps);
    LimitSlopes(exp, ngrps);
    ghost var l := exp[..];
    Expand(exp, g, ngrps);
    forall k | 0 <= k < Start(g, ngrps + 1)
      ensures exp[k] == Limit(v)[GroupOf(g, k)]
    {
      BinInGroup(g, k, ngrps);
      assert exp[k] == l[GroupOf(g, k)];
    }
    EncodeIs(e, g, ngrps, exp[..]);
  }

  // ---------- what the encoding means ----------

  lemma BinInGroup(g: nat, k: nat, n: nat)
    requires ValidSize(g) && k < Start(g, n + 1)
    ensures GroupOf(g, k) <= n
    ensures k > 0 ==> GroupOf(g, k) >= 1 && Start(g, GroupOf(g, k)) <= k < Start(g, GroupOf(g, k)) + g
  {
  }

  /** Exponents a decoder can produce: one value per group, a first value of at most 15, slopes of at most 2. */
  ghost predicate Decodable(m: seq<int>, g: nat, n: nat)
    requires ValidSize(g) && Start(g, n + 1) <= |m|
  {
    m[0] <= 15 && Slopes2(PerGroup(m, g, n)) &&
    forall k :: 0 <= k < Start(g, n + 1) ==> m[k] == PerGroup(m, g, n)[GroupOf(g, k)]
  }

  /** One representative bin of every group. */
  function PerGroup(m: seq<int>, g: nat, n: nat): (r: seq<int>)
    requires ValidSize(g) && Start(g, n + 1) <= |m|
    ensures |r| == n + 1
  {
    seq(n + 1, i requires 0 <= i <= n => if i == 0 then m[0] else m[Start(g, i)])
  }

  /** Encoding never raises an exponent it covers. */
  lemma EncodeBelow(e: seq<Byte>, g: nat, n: nat)
    requires ValidSize(g) && Start(g, n + 1) <= |e|
    ensures forall k :: 0 <= k < Start(g, n + 1) ==> 0 <= Encode(e, g, n)[k] <= e[k]
  {
    var v := GroupValues(e, g, n);
    LimitFeasible(v);
    forall k | 0 <= k < Start(g, n + 1)
      ensures 0 <= Encode(e, g, n)[k] <= e[k]
    {
      BinInGroup(g, k, n);
      BackwardRange(v, GroupOf(g, k));
      assert v[GroupOf(g, k)] <= e[k];
    }
  }

  lemma EncodePerGroup(e: seq<Byte>, g: nat, n: nat)
    requires ValidSize(g) && Start(g, n + 1) <= |e|
    ensures PerGroup(Encode(e, g, n), g, n) == Limit(GroupValues(e, g, n))
  {
    var p, l := PerGroup(Encode(e, g, n), g, n), Limit(GroupValues(e, g, n));
    forall i | 0 <= i <= n
      ensures p[i] == l[i]
    {
      assert i > 0 ==> GroupOf(g, Start(g, i)) == i && Start(g, i) < Start(g, n + 1);
    }
  }

  lemma EncodeDecodable(e: seq<Byte>, g: nat, n: nat)
    requires ValidSize(g) && Start(g, n + 1) <= |e|
    ensures Decodable(Encode(e, g, n), g, n)
  {
    var v := GroupValues(e, g, n);
    LimitFeasible(v);
    EncodePerGroup(e, g, n);
    EncodeBelow(e, g, n);
    assert Limit(v)[0] <= v[0];
    forall k | 0 <= k < Start(g, n + 1)
      ensures Encode(e, g, n)[k] == Limit(v)[GroupOf(g, k)]
    {
    }
  }

  lemma GroupBelow(e: seq<Byte>, m: seq<int>, g: nat, n: nat, i: nat)
    requires ValidSize(g) && Start(g, n + 1) <= |e| == |m| && Decodable(m, g, n) && i <= n
    requires forall k :: 0 <= k < Start(g, n + 1) ==> m[k] <= e[k]
    ensures PerGroup(m, g, n)[i] <= GroupValues(e, g, n)[i]
  {
    if i > 0 {
      var b :| Start(g, i) <= b < Start(g, i) + g && MinOver(e, Start(g, i), g) == e[b];
      assert GroupOf(g, b) == i && b < Start(g, n + 1);
      assert m[b] == PerGroup(m, g, n)[i];
    }
    hide MinOver, Slopes2;
  }

  /** Among all exponents a decoder can produce that do not exceed the input, the encoder picks the greatest. */
  lemma EncodeGreatest(e: seq<Byte>, m: seq<int>, g: nat, n: nat)
    requires ValidSize(g) && Start(g, n + 1) <= |e| == |m| && Decodable(m, g, n)
    requires forall k :: 0 <= k < Start(g, n + 1) ==> m[k] <= e[k]
    ensures forall k :: 0 <= k < Start(g, n + 1) ==> m[k] <= Encode(e, g, n)[k]
  {
    var v, p := GroupValues(e, g, n), PerGroup(m, g, n);
    forall i | 0 <= i <= n
      ensures p[i] <= v[i]
    {
      GroupBelow(e, m, g, n, i);
    }
    LimitGreatest(v, p);
    forall k | 0 <= k < Start(g, n + 1)
      ensures m[k] <= Encode(e, g, n)[k]
    {
      BinInGroup(g, k, n);
    }
  }

  /** The encoder's exponents in closed form: min over groups j of (value of group j + 2 * distance). */
  lemma EncodeClosedForm(e: seq<Byte>, g: nat, n: nat, k: nat)
    requires ValidSize(g) && Start(g, n + 1) <= |e| && k < Start(g, n + 1)
    ensures forall j :: 0 <= j <= n ==> Encode(e, g, n)[k] <= GroupValue(e, g, j) + 2 * Abs(GroupOf(g, k) - j)
    ensures exists j :: 0 <= j <= n && Encode(e, g, n)[k] == GroupValue(e, g, j) + 2 * Abs(GroupOf(g, k) - j)
  {
    var v, i := GroupValues(e, g, n), GroupOf(g, k);
    BinInGroup(g, k, n);
    forall j | 0 <= j <= n
      ensures Encode(e, g, n)[k] <= GroupValue(e, g, j) + 2 * Abs(i - j)
    {
      LimitBound(v, i, j);
    }
    var j := LimitReached(v, i);
    assert Encode(e, g, n)[k] == GroupValue(e, g, j) + 2 * Abs(i - j);
  }

  // ---------- group_exponents and the decoder of section 7.1.3 of ATSC A/52 ----------

  /** The code of one group of three slopes. */
  function GroupCode(a: int, b: int, c: int, d: int): int
  {
    ((b - a + 2) * 5 + (c - b + 2)) * 5 + (d - c + 2)
  }

  function CodeAt(v: seq<int>, i: nat): int
    requires 1 <= i && 3 * i < |v|
  {
    GroupCode(v[3 * i - 3], v[3 * i - 2], v[3 * i - 1], v[3 * i])
  }

  lemma CodeRange(v: seq<int>, i: nat)
    requires 1 <= i && 3 * i < |v| && Slopes2(v)
    ensures 0 <= CodeAt(v, i) <= 124
  {
    assert Abs(v[3 * i - 2] - v[3 * i - 3]) <= 2 && Abs(v[3 * i - 1] - v[3 * i - 2]) <= 2;
    assert Abs(v[3 * i] - v[3 * i - 1]) <= 2;
  }

  /** The three bins a code is made of. */
  lemma GroupBins(m: seq<int>, g: nat, n: nat, i: nat)
    requires ValidSize(g) && Start(g, n + 1) <= |m| && i >= 1 && 3 * i <= n
    ensures var p := Start(g, 3 * i - 2);
      p + 2 * g < |m| && p + 3 * g == Start(g, 3 * i + 1) &&
      m[p + 2 * g] == PerGroup(m, g, n)[3 * i] &&
      CodeAt(PerGroup(m, g, n), i) == GroupCode(PerGroup(m, g, n)[3 * i - 3], m[p], m[p + g], m[p + 2 * g])
  {
  }

  /** Three slopes merged into one code. */
  method PackCode(exp: array<Byte>, g: nat, start: nat, prev: int) returns (code: int, last: int)
    requires start + 2 * g < exp.Length
    ensures code == GroupCode(prev, exp[start], exp[start + g], exp[start + 2 * g]) && last == exp[start + 2 * g]
  {
    var p := start;
    var exp1 := exp[p];
    p := p + g;
    var delta0 := exp1 - prev + 2;
    var exp2 := exp[p];
    p := p + g;
    var delta1 := exp2 - exp1 + 2;
    var exp3 := exp[p];
    var delta2 := exp3 - exp2 + 2;
    code := ((delta0 * 5 + delta1) * 5) + delta2;
    last := exp3;
  }

  /** group_exponents for one block and channel; returns the exponent bits of the block. */
  method GroupExponents(exp: array<Byte>, g: nat, nexpgrps: nat, grp: array<Byte>) returns (bits: nat)
    requires ValidSize(g) && Start(g, 3 * nexpgrps + 1) <= exp.Length && nexpgrps < grp.Length && exp != grp
    requires Decodable(exp[..], g, 3 * nexpgrps)
    modifies grp
    ensures bits == 4 + 7 * nexpgrps
    ensures grp[0] == old(exp[0]) <= 15
    ensures forall i :: 1 <= i <= nexpgrps ==>
      0 <= grp[i] <= 124 && grp[i] == CodeAt(PerGroup(old(exp[..]), g, 3 * nexpgrps), i)
  {
    bits := 4 + nexpgrps * 7;
    ghost var x: seq<Byte> := exp[..];
    hide PerGroup, Start, CodeAt;
    FirstBin(x, g, 3 * nexpgrps);
    grp[0] := exp[0];
    PackGroups(exp, g, nexpgrps, grp, x, PerGroup(x, g, 3 * nexpgrps));
  }

  method PackGroups(exp: array<Byte>, g: nat, nexpgrps: nat, grp: array<Byte>, ghost x: seq<Byte>, ghost v: seq<int>)
    requires ValidSize(g) && Start(g, 3 * nexpgrps + 1) <= exp.Length && nexpgrps < grp.Length && exp != grp
    requires x == exp[..] && v == PerGroup(x, g, 3 * nexpgrps) && Slopes2(v) && grp[0] == exp[0]
    modifies grp
    ensures grp[0] == old(grp[0])
    ensures forall i :: 1 <= i <= nexpgrps ==> 0 <= grp[i] <= 124 && grp[i] == CodeAt(v, i)
  {
    FirstBin(x, g, 3 * nexpgrps);
    hide Slopes2, PerGroup, Start, CodeAt, GroupCode;
    var p := 1;
    var exp1: int := exp[0];
    for i := 1 to nexpgrps + 1
      invariant p == Start(g, 3 * i - 2) && exp1 == v[3 * i - 3] && grp[0] == old(grp[0])
      invariant forall k :: 1 <= k < i ==> 0 <= grp[k] <= 124 && grp[k] == CodeAt(v, k)
    {
      CodeRange(v, i);
      GroupBins(x, g, 3 * nexpgrps, i);
      assert exp[..] == x;
      var code, last := PackCode(exp, g, p, exp1);
      grp[i] := code;
      exp1 := last;
      p := p + 3 * g;
    }
  }

  lemma FirstBin(m: seq<int>, g: nat, n: nat)
    requires ValidSize(g) && Start(g, n + 1) <= |m|
    ensures Start(g, 1) == 1 && PerGroup(m, g, n)[0] == m[0]
    ensures Decodable(m, g, n) ==> Slopes2(PerGroup(m, g, n)) && m[0] <= 15
  {
  }

  /** Decoding: the first exponent is absolute, every code unpacks to three differences biased by 2. */
  function DecodeGroups(grp: seq<int>, n: nat): (v: seq<int>)
    requires n < |grp|
    ensures |v| == 3 * n + 1
  {
    if n == 0 then [grp[0]]
    else
      var prev := DecodeGroups(grp, n - 1);
      var m1 := prev[3 * n - 3] + grp[n] / 25 - 2;
      var m2 := m1 + grp[n] % 25 / 5 - 2;
      prev + [m1, m2, m2 + grp[n] % 5 - 2]
  }

  lemma Unpack(x: int, y: int, z: int)
    requires 0 <= x <= 4 && 0 <= y <= 4 && 0 <= z <= 4
    ensures var c := (x * 5 + y) * 5 + z; c / 25 == x && c % 25 / 5 == y && c % 5 == z && 0 <= c <= 124
  {
  }

  lemma UnpackCode(v: seq<int>, n: nat)
    requires n >= 1 && |v| > 3 * n && Slopes2(v)
    ensures var c := CodeAt(v, n);
      v[3 * n - 3] + c / 25 - 2 == v[3 * n - 2] && v[3 * n - 2] + c % 25 / 5 - 2 == v[3 * n - 1] &&
      v[3 * n - 1] + c % 5 - 2 == v[3 * n]
  {
    assert Abs(v[3 * n - 2] - v[3 * n - 3]) <= 2 && Abs(v[3 * n - 1] - v[3 * n - 2]) <= 2;
    assert Abs(v[3 * n] - v[3 * n - 1]) <= 2;
    Unpack(v[3 * n - 2] - v[3 * n - 3] + 2, v[3 * n - 1] - v[3 * n - 2] + 2, v[3 * n] - v[3 * n - 1] + 2);
  }

  lemma AppendThree(v: seq<int>, k: nat)
    requires k + 3 <= |v|
    ensures v[..k] + [v[k], v[k + 1], v[k + 2]] == v[..k + 3]
  {
  }

  lemma DecodeStep(grp: seq<int>, n: nat)
    requires 1 <= n < |grp|
    ensures |DecodeGroups(grp, n - 1)| == 3 * n - 2
    ensures var prev := DecodeGroups(grp, n - 1);
      var m1 := prev[3 * n - 3] + grp[n] / 25 - 2;
      var m2 := m1 + grp[n] % 25 / 5 - 2;
      DecodeGroups(grp, n) == prev + [m1, m2, m2 + grp[n] % 5 - 2]
  {
  }

  lemma DecodeFirst(v: seq<int>, grp: seq<int>)
    requires 1 <= |v| && 0 < |grp| && grp[0] == v[0]
    ensures DecodeGroups(grp, 0) == v[..1]
  {
  }

  lemma {:induction false} DecodeCodes(v: seq<int>, grp: seq<int>, n: nat)
    requires |v| >= 3 * n + 1 && n < |grp| && Slopes2(v) && grp[0] == v[0]
    requires forall i :: 1 <= i <= n ==> grp[i] == CodeAt(v, i)
    ensures DecodeGroups(grp, n) == v[..3 * n + 1]
  {
    hide *;
    if n == 0 {
      DecodeFirst(v, grp);
    } else {
      DecodeCodes(v, grp, n - 1);
      DecodeStep(grp, n);
      UnpackCode(v, n);
      AppendThree(v, 3 * n - 2);
    }
  }

  /** Every bin takes the decoded value of its group. */
  function DecodeExponents(grp: seq<int>, g: nat, nexpgrps: nat): (m: seq<int>)
    requires ValidSize(g) && nexpgrps < |grp|
    ensures |m| == Start(g, 3 * nexpgrps + 1)
  {
    var v := DecodeGroups(grp, nexpgrps);
    seq(Start(g, 3 * nexpgrps + 1), k requires 0 <= k < Start(g, 3 * nexpgrps + 1) =>
      (BinInGroup(g, k, 3 * nexpgrps); v[GroupOf(g, k)]))
  }

  /** Packing decodable exponents and decoding the codes returns them. */
  lemma DecodeInverts(m: seq<int>, g: nat, n: nat, grp: seq<int>)
    requires ValidSize(g) && Start(g, 3 * n + 1) <= |m| && Decodable(m, g, 3 * n) && n < |grp| && grp[0] == m[0]
    requires forall i :: 1 <= i <= n ==> grp[i] == CodeAt(PerGroup(m, g, 3 * n), i)
    ensures DecodeExponents(grp, g, n) == m[..Start(g, 3 * n + 1)]
  {
    var p := PerGroup(m, g, 3 * n);
    DecodeCodes(p, grp, n);
    assert p[..3 * n + 1] == p;
    hide Slopes2;
    forall k | 0 <= k < Start(g, 3 * n + 1)
      ensures DecodeExponents(grp, g, n)[k] == m[k]
    {
      BinInGroup(g, k, 3 * n);
    }
  }

  /** The codes group_exponents makes of a block's encoded exponents. */
  ghost predicate CodesOf(grp: seq<int>, e: seq<Byte>, g: nat, n: nat)
    requires ValidSize(g) && Start(g, 3 * n + 1) <= |e|
  {
    var m := Encode(e, g, 3 * n);
    n < |grp| && grp[0] == m[0] && forall i :: 1 <= i <= n ==> grp[i] == CodeAt(PerGroup(m, g, 3 * n), i)
  }

  /** For every strategy and coefficient count: encode, pack, decode returns the encoded exponents of all bins. */
  lemma ExponentRoundTrip(e: seq<Byte>, strategy: nat, ncoefs: nat, g: nat, n: nat, grp: seq<int>)
    requires 1 <= strategy <= 3 && ValidCount(ncoefs) && g == GroupSize(strategy) && n == NumGroups(strategy, ncoefs)
    requires |e| == 256 && Start(g, 3 * n + 1) <= 256 && CodesOf(grp, e, g, n)
    ensures ncoefs <= Start(g, 3 * n + 1)
    ensures DecodeExponents(grp, g, n) == Encode(e, g, 3 * n)[..Start(g, 3 * n + 1)]
  {
    GroupsFit(strategy, ncoefs, g, n);
    EncodeDecodable(e, g, 3 * n);
    hide Encode, Decodable, DecodeExponents, NumGroups;
    DecodeInverts(Encode(e, g, 3 * n), g, n, grp);
  }

  // ---------- encode_exponents for one channel ----------

  /** The end of the run of blocks that share block i's exponents. */
  function RunEnd(strategy: seq<nat>, j: nat): (r: nat)
    requires j <= |strategy|
    ensures j <= r <= |strategy| && (r < |strategy| ==> strategy[r] != REUSE)
    ensures forall k :: j <= k < r ==> strategy[k] == REUSE
    decreases |strategy| - j
  {
    if j < |strategy| && strategy[j] == REUSE then RunEnd(strategy, j + 1) else j
  }

  /** The block whose exponents block b uses. */
  function RunStart(strategy: seq<nat>, b: nat): (r: nat)
    requires b < |strategy| && strategy[0] != REUSE
    ensures r <= b && strategy[r] != REUSE
    ensures forall k :: r < k <= b ==> strategy[k] == REUSE
  {
    if strategy[b] != REUSE then b else RunStart(strategy, b - 1)
  }

  /** Bin-wise minimum of two rows on the first n bins; later bins are those of the first. */
  function MinRow(x: seq<Byte>, y: seq<Byte>, n: nat): (r: seq<Byte>)
    requires |x| == |y| == 256 && n <= 256
    ensures |r| == 256
  {
    seq(256, k requires 0 <= k < 256 => if k < n then Min(x[k], y[k]) else x[k])
  }

  /** Bin-wise minimum of blocks i .. j-1 on the first ncoefs bins; later bins are block i's own. */
  function RunMin(e: seq<seq<Byte>>, i: nat, j: nat, ncoefs: nat): (r: seq<Byte>)
    requires i < j <= |e| && ncoefs <= 256 && forall b :: 0 <= b < |e| ==> |e[b]| == 256
    ensures |r| == 256
    ensures forall b, k :: i <= b < j && 0 <= k < ncoefs ==> r[k] <= e[b][k]
    decreases j
  {
    if j == i + 1 then e[i] else MinRow(RunMin(e, i, j - 1, ncoefs), e[j - 1], ncoefs)
  }

  /** What block b ends up with: the encoded minimum over the run it belongs to. */
  function RunExponents(e: seq<seq<Byte>>, strategy: seq<nat>, b: nat, ncoefs: nat): (r: seq<int>)
    requires |e| == |strategy| && b < |e| && ncoefs <= 253 && forall k :: 0 <= k < |e| ==> |e[k]| == 256
    requires strategy[0] != REUSE && forall k :: 0 <= k < |e| ==> strategy[k] <= 3
    ensures |r| == 256
  {
    var i := RunStart(strategy, b);
    EncodeRow(RunMin(e, i, RunEnd(strategy, i + 1), ncoefs), strategy[i], ncoefs)
  }

  function Rows(exp: seq<array<Byte>>): (r: seq<seq<Byte>>)
    reads exp
    ensures |r| == |exp| && forall b :: 0 <= b < |exp| ==> r[b] == exp[b][..]
  {
    seq(|exp|, b requires 0 <= b < |exp| reads exp => exp[b][..])
  }

  lemma {:induction false} RunStartIs(strategy: seq<nat>, i: nat, b: nat)
    requires i <= b < |strategy| && strategy[0] != REUSE && strategy[i] != REUSE
    requires forall k :: i < k <= b ==> strategy[k] == REUSE
    ensures RunStart(strategy, b) == i
  {
    if b > i { RunStartIs(strategy, i, b - 1); }
  }

  lemma RunEndIs(strategy: seq<nat>, i: nat, j: nat)
    requires i <= j <= |strategy| && (j < |strategy| ==> strategy[j] != REUSE)
    requires forall k :: i <= k < j ==> strategy[k] == REUSE
    ensures RunEnd(strategy, i) == j
    decreases j - i
  {
    if i < j { RunEndIs(strategy, i + 1, j); }
  }

  ghost predicate Distinct(a: seq<array<Byte>>)
  {
    forall i, j :: 0 <= i < j < |a| ==> a[i] != a[j]
  }

  /** memcpy(target, source, n). */
  method CopyExponents(target: array<Byte>, source: array<Byte>, n: nat)
    requires n <= target.Length && n <= source.Length && target != source
    modifies target
    ensures forall k :: 0 <= k < n ==> target[k] == source[k]
    ensures forall k :: n <= k < target.Length ==> target[k] == old(target[k])
  {
    for c := 0 to n
      invariant forall k :: 0 <= k < c ==> target[k] == source[k]
      invariant forall k :: c <= k < target.Length ==> target[k] == old(target[k])
    {
      target[c] := source[c];
    }
  }

  lemma RunMinStep(e: seq<seq<Byte>>, i: nat, j: nat, ncoefs: nat)
    requires i < j < |e| && ncoefs <= 256 && forall b :: 0 <= b < |e| ==> |e[b]| == 256
    ensures RunMin(e, i, j + 1, ncoefs) == MinRow(RunMin(e, i, j, ncoefs), e[j], ncoefs)
  {
    hide MinRow;
  }

  /** exponent_min on one block and another. */
  method MinInto(target: array<Byte>, other: array<Byte>, n: nat)
    requires target.Length == other.Length == 256 && n <= 256 && target != other
    modifies target
    ensures target[..] == MinRow(old(target[..]), other[..], n)
  {
    ghost var x, y := target[..], other[..];
    ExponentMin(target, target, other, n);
    forall k | 0 <= k < 256
      ensures target[..][k] == MinRow(x, y, n)[k]
    {
      assert target[k] == if k < n then Min(x[k], y[k]) else x[k];
    }
  }

  /** The blocks after i still have the exponents e. */
  ghost predicate Later(exp: seq<array<Byte>>, e: seq<seq<Byte>>, i: nat)
    reads exp
  {
    |e| == |exp| && forall b :: i < b < |exp| ==> exp[b][..] == e[b] && exp[b].Length == 256
  }

  lemma LaterNow(exp: seq<array<Byte>>, e: seq<seq<Byte>>, i: nat)
    requires e == Rows(exp) && (forall b :: 0 <= b < |exp| ==> exp[b].Length == 256) && i < |exp|
    ensures Later(exp, e, i) && e[i] == exp[i][..] && forall b :: 0 <= b < |e| ==> |e[b]| == 256
  {
  }

  /** Block j joins the minima in block i. */
  method MinStep(exp: seq<array<Byte>>, ncoefs: nat, i: nat, j: nat, ghost e: seq<seq<Byte>>)
    requires Distinct(exp) && i < j < |exp| && exp[i].Length == 256 && ncoefs <= 253 && Later(exp, e, i)
    modifies exp[i]
    ensures Later(exp, e, i) && |e| == |exp| && |e[j]| == 256
    ensures exp[i][..] == MinRow(old(exp[i][..]), e[j], ncoefs)
  {
    hide MinRow;
    MinInto(exp[i], exp[j], ncoefs);
  }

  lemma RunMinOne(e: seq<seq<Byte>>, i: nat, ncoefs: nat)
    requires i < |e| && ncoefs <= 256 && forall b :: 0 <= b < |e| ==> |e[b]| == 256
    ensures RunMin(e, i, i + 1, ncoefs) == e[i]
  {
  }

  /** The minima over one run of reuse blocks, collected in its first block. */
  method MinimaOfRun(exp: seq<array<Byte>>, strategy: seq<nat>, ncoefs: nat, i: nat, ghost e: seq<seq<Byte>>)
      returns (j: nat)
    requires |exp| == |strategy| && Distinct(exp) && forall b :: 0 <= b < |exp| ==> exp[b].Length == 256
    requires i < |strategy| && ncoefs <= 253 && e == Rows(exp)
    modifies exp[i]
    ensures i < j == RunEnd(strategy, i + 1)
    ensures exp[i][..] == RunMin(e, i, j, ncoefs)
  {
    hide RunMin, MinRow, RunEnd, Distinct, Rows, Later;
    LaterNow(exp, e, i);
    RunMinOne(e, i, ncoefs);
    j := i + 1;
    while j < |strategy| && strategy[j] == REUSE
      invariant i < j <= |strategy|
      invariant forall k :: i < k < j ==> strategy[k] == REUSE
      invariant exp[i][..] == RunMin(e, i, j, ncoefs) && Later(exp, e, i)
    {
      MinStep(exp, ncoefs, i, j, e);
      RunMinStep(e, i, j, ncoefs);
      j := j + 1;
    }
    RunEndIs(strategy, i + 1, j);
  }

  /** The same first n exponents. */
  ghost predicate Agree(x: seq<Byte>, r: seq<int>, n: nat)
  {
    |x| == |r| == 256 && n <= 256 && forall k :: 0 <= k < n ==> x[k] == r[k]
  }

  lemma AgreeSelf(x: seq<Byte>, n: nat)
    requires |x| == 256 && n <= 256
    ensures Agree(x, x, n)
  {
  }

  /** Copies for the reuse case: blocks i+1 .. j-1 take the first exponents of block i. */
  method CopyRun(exp: seq<array<Byte>>, ncoefs: nat, i: nat, j: nat)
    requires i < j <= |exp| && Distinct(exp) && ncoefs <= 256 && forall b :: 0 <= b < |exp| ==> exp[b].Length == 256
    modifies exp[i + 1..j]
    ensures forall b :: i <= b < j ==> Agree(exp[b][..], old(exp[i][..]), ncoefs)
    ensures forall b :: 0 <= b <= i || j <= b < |exp| ==> exp[b][..] == old(exp[b][..])
  {
    hide Agree;
    ghost var first := exp[i][..];
    AgreeSelf(first, ncoefs);
    for k := i + 1 to j
      invariant forall b :: i <= b < k ==> Agree(exp[b][..], first, ncoefs)
      invariant forall b :: 0 <= b <= i || k <= b < |exp| ==> exp[b][..] == old(exp[b][..])
    {
      CopyFirst(exp, ncoefs, i, k, j, first);
    }
  }

  /** One copy, into block k. */
  method CopyFirst(exp: seq<array<Byte>>, ncoefs: nat, i: nat, k: nat, j: nat, ghost first: seq<Byte>)
    requires i < k < j <= |exp| && Distinct(exp) && ncoefs <= 256 && forall b :: 0 <= b < |exp| ==> exp[b].Length == 256
    requires exp[i][..] == first
    modifies exp[i + 1..j]
    ensures Agree(exp[k][..], first, ncoefs)
    ensures forall b :: 0 <= b < |exp| && b != k ==> exp[b][..] == old(exp[b][..])
  {
    assert exp[k] == exp[i + 1..j][k - (i + 1)];
    CopyExponents(exp[k], exp[i], ncoefs);
  }

  /** One run of encode_exponents: minima into block i, encoding, copies into blocks i+1 .. j-1. */
  method EncodeRun(tab: array2<nat>, exp: seq<array<Byte>>, strategy: seq<nat>, ncoefs: nat, i: nat,
                   ghost e: seq<seq<Byte>>) returns (j: nat)
    requires tab.Length0 == 3 && tab.Length1 == 256
    requires forall s, c :: 0 <= s < 3 && 0 <= c < 256 ==> tab[s, c] == NumGroups(s + 1, c)
    requires |exp| == |strategy| && Distinct(exp) && forall b :: 0 <= b < |exp| ==> exp[b].Length == 256
    requires i < |strategy| && 1 <= strategy[i] <= 3 && ncoefs <= 253 && e == Rows(exp)
    modifies exp[i..]
    ensures i < j == RunEnd(strategy, i + 1)
    ensures forall b :: 0 <= b < i || j <= b < |exp| ==> exp[b][..] == e[b]
    ensures exp[i][..] == EncodeRow(RunMin(e, i, j, ncoefs), strategy[i], ncoefs)
    ensures forall b :: i <= b < j ==>
      Agree(exp[b][..], EncodeRow(RunMin(e, i, j, ncoefs), strategy[i], ncoefs), ncoefs)
  {
    hide EncodeRow, RunMin, Agree, RunEnd;
    assert exp[i] in exp[i..];
    j := MinimaOfRun(exp, strategy, ncoefs, i, e);
    EncodeExpBlkCh(tab, exp[i], ncoefs, strategy[i]);
    assert forall b :: 0 <= b < |exp| && b != i ==> exp[b][..] == e[b];
    assert forall b :: i < b < j ==> exp[b] in exp[i..];
    CopyRun(exp, ncoefs, i, j);
  }

  /** Row x is what block b ends up with: in the first ncoefs exponents, and in all 256 when the block starts a run. */
  ghost predicate FinalRow(x: seq<Byte>, e: seq<seq<Byte>>, strategy: seq<nat>, b: nat, ncoefs: nat)
  {
    |e| == |strategy| && b < |e| && ncoefs <= 253 && (forall k :: 0 <= k < |e| ==> |e[k]| == 256) &&
    strategy[0] != REUSE && (forall k :: 0 <= k < |e| ==> strategy[k] <= 3) && |x| == 256 &&
    (strategy[b] != REUSE ==> x == RunExponents(e, strategy, b, ncoefs)) &&
    Agree(x, RunExponents(e, strategy, b, ncoefs), ncoefs)
  }

  lemma FinalFromRun(x: seq<Byte>, e: seq<seq<Byte>>, strategy: seq<nat>, i: nat, j: nat, b: nat, ncoefs: nat)
    requires |e| == |strategy| && ncoefs <= 253 && forall k :: 0 <= k < |e| ==> |e[k]| == 256
    requires i <= b < j <= |e| && j == RunEnd(strategy, i + 1) && strategy[0] != REUSE
    requires strategy[i] != REUSE && (forall k :: 0 <= k < |e| ==> strategy[k] <= 3) && |x| == 256
    requires b == i ==> x == EncodeRow(RunMin(e, i, j, ncoefs), strategy[i], ncoefs)
    requires Agree(x, EncodeRow(RunMin(e, i, j, ncoefs), strategy[i], ncoefs), ncoefs)
    ensures FinalRow(x, e, strategy, b, ncoefs)
  {
    hide EncodeRow, RunMin;
    RunStartIs(strategy, i, b);
  }

  /** One step of encode_exponents: the blocks of the run that starts at block i are final. */
  method EncodeNext(tab: array2<nat>, exp: seq<array<Byte>>, strategy: seq<nat>, ncoefs: nat, i: nat,
                    ghost e: seq<seq<Byte>>) returns (j: nat)
    requires tab.Length0 == 3 && tab.Length1 == 256
    requires forall s, c :: 0 <= s < 3 && 0 <= c < 256 ==> tab[s, c] == NumGroups(s + 1, c)
    requires |exp| == |strategy| == |e| && Distinct(exp)
    requires forall b :: 0 <= b < |exp| ==> exp[b].Length == |e[b]| == 256
    requires i < |exp| && strategy[0] != REUSE && (forall b :: 0 <= b < |exp| ==> strategy[b] <= 3) && ncoefs <= 253
    requires strategy[i] != REUSE && forall b :: i <= b < |exp| ==> exp[b][..] == e[b]
    modifies exp[i..]
    ensures i < j <= |exp| && (j < |exp| ==> strategy[j] != REUSE)
    ensures forall b :: 0 <= b < i || j <= b < |exp| ==> exp[b][..] == old(exp[b][..])
    ensures forall b :: i <= b < j ==> FinalRow(exp[b][..], e, strategy, b, ncoefs)
  {
    hide EncodeRow, RunMin, FinalRow, Agree;
    ghost var before := Rows(exp);
    j := EncodeRun(tab, exp, strategy, ncoefs, i, before);
    RunMinSame(before, e, i, j, ncoefs);
    forall b | i <= b < j
      ensures FinalRow(exp[b][..], e, strategy, b, ncoefs)
    {
      FinalFromRun(exp[b][..], e, strategy, i, j, b, ncoefs);
    }
  }

  /** encode_exponents for one channel: every block gets the encoded minimum of its run. */
  method EncodeExponents(tab: array2<nat>, exp: seq<array<Byte>>, strategy: seq<nat>, ncoefs: nat)
    requires tab.Length0 == 3 && tab.Length1 == 256
    requires forall s, c :: 0 <= s < 3 && 0 <= c < 256 ==> tab[s, c] == NumGroups(s + 1, c)
    requires 0 < |exp| == |strategy| && Distinct(exp) && forall b :: 0 <= b < |exp| ==> exp[b].Length == 256
    requires strategy[0] != REUSE && (forall b :: 0 <= b < |exp| ==> strategy[b] <= 3) && ncoefs <= 253
    modifies exp
    ensures forall b :: 0 <= b < |exp| ==> FinalRow(exp[b][..], old(Rows(exp)), strategy, b, ncoefs)
  {
    hide FinalRow;
    ghost var e := Rows(exp);
    var i := 0;
    while i < |exp|
      invariant i <= |exp| && (i < |exp| ==> strategy[i] != REUSE)
      invariant forall b :: i <= b < |exp| ==> exp[b][..] == e[b]
      invariant forall b :: 0 <= b < i ==> FinalRow(exp[b][..], e, strategy, b, ncoefs)
    {
      i := EncodeNext(tab, exp, strategy, ncoefs, i, e);
    }
  }

  lemma {:induction false} RunMinSame(a: seq<seq<Byte>>, e: seq<seq<Byte>>, i: nat, j: nat, ncoefs: nat)
    requires i < j <= |a| == |e| && ncoefs <= 256
    requires forall b :: 0 <= b < |a| ==> |a[b]| == |e[b]| == 256
    requires forall b :: i <= b < |a| ==> a[b] == e[b]
    ensures RunMin(a, i, j, ncoefs) == RunMin(e, i, j, ncoefs)
    decreases j
  {
    if j > i + 1 { RunMinSame(a, e, i, j - 1, ncoefs); }
  }

  /** No block's exponents are raised. */
  lemma RunExponentsBelow(e: seq<seq<Byte>>, strategy: seq<nat>, b: nat, ncoefs: nat, k: nat)
    requires |e| == |strategy| && b < |e| && ValidCount(ncoefs) && k < ncoefs
    requires strategy[0] != REUSE && forall c :: 0 <= c < |e| ==> strategy[c] <= 3
    requires forall c :: 0 <= c < |e| ==> |e[c]| == 256
    ensures 0 <= RunExponents(e, strategy, b, ncoefs)[k] <= e[b][k]
  {
    var i := RunStart(strategy, b);
    var s := strategy[i];
    RunCovers(strategy, i, b);
    var m := RunMin(e, i, RunEnd(strategy, i + 1), ncoefs);
    var g, n := GroupSize(s), NumGroups(s, ncoefs);
    GroupsFit(s, ncoefs, g, n);
    EncodeBelow(m, g, 3 * n);
  }

  /** Exponents that came from coefficients still bound them after minima, grouping and limiting. */
  lemma CoefficientsStayBounded(e: seq<seq<Byte>>, c: int, strategy: seq<nat>, b: nat, ncoefs: nat, k: nat)
    requires |e| == |strategy| && b < |e| && ValidCount(ncoefs) && k < ncoefs
    requires strategy[0] != REUSE && forall j :: 0 <= j < |e| ==> strategy[j] <= 3
    requires forall j :: 0 <= j < |e| ==> |e[j]| == 256
    requires Abs(c) < 0x100_0000 && e[b][k] == ExponentOf(c)
    ensures 0 <= RunExponents(e, strategy, b, ncoefs)[k] <= 24
    ensures Abs(c) < Pow2(24 - RunExponents(e, strategy, b, ncoefs)[k])
  {
    RunExponentsBelow(e, strategy, b, ncoefs, k);
    Pow2Values();
    hide RunExponents, Pow2;
    Pow2Mono(24 - ExponentOf(c), 24 - RunExponents(e, strategy, b, ncoefs)[k]);
  }

  /** The minimum over a run is one that some block of it has; bins past the coefficients stay those of its first. */
  lemma {:induction false} RunMinReached(e: seq<seq<Byte>>, i: nat, j: nat, ncoefs: nat, k: nat) returns (b: nat)
    requires i < j <= |e| && ncoefs <= 256 && (forall c :: 0 <= c < |e| ==> |e[c]| == 256) && k < 256
    ensures i <= b < j && RunMin(e, i, j, ncoefs)[k] == e[b][k] && (k >= ncoefs ==> b == i)
    decreases j
  {
    b := i;
    if j > i + 1 {
      b := RunMinReached(e, i, j - 1, ncoefs, k);
      if k < ncoefs && e[j - 1][k] < e[b][k] { b := j - 1; }
    }
  }

  /** m stays below every block of a run, in bins past the coefficients below its first block. */
  ghost predicate BelowRun(m: seq<int>, e: seq<seq<Byte>>, i: nat, j: nat, ncoefs: nat, end: nat)
    requires i < j <= |e| && (forall c :: 0 <= c < |e| ==> |e[c]| == 256) && |m| == 256 && end <= 256
  {
    forall c, k :: i <= c < j && 0 <= k < end && (k < ncoefs || c == i) ==> m[k] <= e[c][k]
  }

  lemma BelowRunIs(m: seq<int>, e: seq<seq<Byte>>, i: nat, j: nat, ncoefs: nat, end: nat)
    requires i < j <= |e| && (forall c :: 0 <= c < |e| ==> |e[c]| == 256) && |m| == 256 && end <= 256 && ncoefs <= 256
    ensures BelowRun(m, e, i, j, ncoefs, end) <==> forall k :: 0 <= k < end ==> m[k] <= RunMin(e, i, j, ncoefs)[k]
  {
    hide RunMin;
    forall k | 0 <= k < end
      ensures BelowRun(m, e, i, j, ncoefs, end) ==> m[k] <= RunMin(e, i, j, ncoefs)[k]
      ensures k >= ncoefs ==> RunMin(e, i, j, ncoefs)[k] == e[i][k]
    {
      var b := RunMinReached(e, i, j, ncoefs, k);
    }
  }

  /** What is sent for a run of blocks is the greatest row a decoder can produce that stays below all of them. */
  lemma RunGreatest(e: seq<seq<Byte>>, strategy: seq<nat>, b: nat, ncoefs: nat, i: nat, j: nat, g: nat, n: nat,
                    m: seq<int>)
    requires |e| == |strategy| && b < |e| && ncoefs <= 253 && forall k :: 0 <= k < |e| ==> |e[k]| == 256
    requires strategy[0] != REUSE && (forall k :: 0 <= k < |e| ==> strategy[k] <= 3) && |m| == 256
    requires i == RunStart(strategy, b) && j == RunEnd(strategy, i + 1)
    requires g == GroupSize(strategy[i]) && n == 3 * NumGroups(strategy[i], ncoefs)
    ensures Start(g, n + 1) <= 253
    ensures Decodable(RunExponents(e, strategy, b, ncoefs), g, n) &&
      BelowRun(RunExponents(e, strategy, b, ncoefs), e, i, j, ncoefs, Start(g, n + 1))
    ensures Decodable(m, g, n) && BelowRun(m, e, i, j, ncoefs, Start(g, n + 1)) ==>
      forall k :: 0 <= k < Start(g, n + 1) ==> m[k] <= RunExponents(e, strategy, b, ncoefs)[k]
  {
    hide RunMin, Encode, Decodable, NumGroups, RunStart, RunEnd, BelowRun;
    var e' := RunMin(e, i, j, ncoefs);
    GroupsFit(strategy[i], ncoefs, g, NumGroups(strategy[i], ncoefs));
    EncodeDecodable(e', g, n);
    EncodeBelow(e', g, n);
    BelowRunIs(Encode(e', g, n), e, i, j, ncoefs, Start(g, n + 1));
    BelowRunIs(m, e, i, j, ncoefs, Start(g, n + 1));
    if Decodable(m, g, n) && BelowRun(m, e, i, j, ncoefs, Start(g, n + 1)) { EncodeGreatest(e', m, g, n); }
  }

  lemma RunCovers(strategy: seq<nat>, i: nat, b: nat)
    requires i <= b < |strategy| && forall k :: i < k <= b ==> strategy[k] == REUSE
    ensures RunEnd(strategy, i + 1) > b
  {
    if i < b { RunEndSkips(strategy, i + 1, b + 1); }
  }

  lemma RunEndSkips(strategy: seq<nat>, j: nat, n: nat)
    requires j <= n <= |strategy| && forall k :: j <= k < n ==> strategy[k] == REUSE
    ensures RunEnd(strategy, j) >= n
    decreases n - j
  {
    if j < n { RunEndSkips(strategy, j + 1, n); }
  }
}
