/** The SSE2 forms of the exponent functions (x86/exponent_sse2.c) compute what the scalar ones compute. */
module ExponentSse2 {
  import opened Arithmetic
  import opened BitStrings
  import opened Exponent

  // ---------- 128-bit vectors as 16 bytes, lowest address first ----------

  type Vec = v: seq<Byte> | |v| == 16 witness seq(16, _ => 0)

  function And(a: nat, b: nat): nat
  {
    if a == 0 then 0 else 2 * And(a / 2, b / 2) + (if a % 2 == 1 && b % 2 == 1 then 1 else 0)
  }

  function Or(a: nat, b: nat): nat
    decreases a + b
  {
    if a == 0 && b == 0 then 0 else 2 * Or(a / 2, b / 2) + (if a % 2 == 1 || b % 2 == 1 then 1 else 0)
  }

  lemma {:induction false} AndOnes(a: nat, m: nat)
    requires a < Pow2(m)
    ensures And(a, Pow2(m) - 1) == a
  {
    if a > 0 {
      var p := Pow2(m - 1);
      assert Pow2(m) - 1 == 2 * (p - 1) + 1;
      AndOnes(a / 2, m - 1);
    }
  }

  lemma {:induction false} AndZero(a: nat)
    ensures And(a, 0) == 0
  {
    if a > 0 { AndZero(a / 2); }
  }

  lemma {:induction false} OrZero(a: nat)
    ensures Or(a, 0) == a && Or(0, a) == a
  {
    if a > 0 { OrZero(a / 2); }
  }

  lemma {:induction false} AndBelow(a: nat, b: nat)
    ensures And(a, b) <= a
  {
    if a > 0 { AndBelow(a / 2, b / 2); }
  }

  lemma {:induction false} OrBelow(a: nat, b: nat, m: nat)
    requires a < Pow2(m) && b < Pow2(m)
    ensures Or(a, b) < Pow2(m)
  {
    if m > 0 { OrBelow(a / 2, b / 2, m - 1); }
  }

  function AndByte(a: Byte, b: Byte): Byte
  {
    AndBelow(a, b);
    And(a, b)
  }

  function OrByte(a: Byte, b: Byte): Byte
  {
    Pow2Values();
    OrBelow(a, b, 8);
    Or(a, b)
  }

  lemma ByteMasks(a: Byte)
    ensures AndByte(a, 255) == a && AndByte(a, 0) == 0 && OrByte(a, 0) == a && OrByte(0, a) == a
  {
    Pow2Values();
    AndOnes(a, 8);
    AndZero(a);
    OrZero(a);
  }

  function Load(e: seq<Byte>, k: nat): Vec
    requires k + 16 <= |e|
  {
    e[k..k + 16]
  }

  /** _mm_min_epu8 */
  function MinEpu8(a: Vec, b: Vec): Vec { seq(16, i requires 0 <= i < 16 => if a[i] > b[i] then b[i] else a[i]) }

  /** _mm_srli_si128: bytes move to lower addresses. */
  function Srli(v: Vec, n: nat): Vec { seq(16, i requires 0 <= i < 16 => if i + n < 16 then v[i + n] else 0) }

  /** _mm_slli_si128: bytes move to higher addresses. */
  function Slli(v: Vec, n: nat): Vec { seq(16, i requires 0 <= i < 16 => if i >= n then v[i - n] else 0) }

  /** _mm_and_si128 with a mask that keeps the lowest byte of every lane of g bytes. */
  function KeepLow(v: Vec, g: nat): Vec
    requires g > 0
  {
    seq(16, i requires 0 <= i < 16 => AndByte(v[i], if i % g == 0 then 255 else 0))
  }

  /** _mm_or_si128 */
  function OrVec(a: Vec, b: Vec): Vec { seq(16, i requires 0 <= i < 16 => OrByte(a[i], b[i])) }

  predicate Wide(g: nat) { g == 2 || g == 4 }

  /** Lanes of g bytes in a vector. */
  function Lanes(g: nat): nat { if g == 2 then 8 else 4 }

  /** j groups of g bytes further on. */
  function Skip(g: nat, k: nat, j: nat): nat { if g == 2 then k + 2 * j else k + 4 * j }

  /** Lane j as a number, little-endian. */
  function Lane(v: Vec, g: nat, j: nat): int
    requires Wide(g) && j < Lanes(g)
  {
    if g == 2 then Bytes2(v[2 * j], v[2 * j + 1]) else Bytes4(v[4 * j], v[4 * j + 1], v[4 * j + 2], v[4 * j + 3])
  }

  function Bytes2(a: int, b: int): int { a + 256 * b }

  function Bytes4(a: int, b: int, c: int, d: int): int { a + 256 * b + 0x1_0000 * c + 0x100_0000 * d }

  // ---------- exponent_min_sse2 ----------

  method ExponentMinSse2(target: array<Byte>, exp: array<Byte>, exp1: array<Byte>, n: nat)
    requires n <= target.Length && n <= exp.Length && n <= exp1.Length
    requires target != exp1
    modifies target
    ensures forall i :: 0 <= i < n ==> target[i] == Min(old(exp[i]), exp1[i])
    ensures forall i :: n <= i < target.Length ==> target[i] == old(target[i])
  {
    hide MinEpu8, Load;
    var i := 0;
    while i < n / 16 * 16
      invariant i <= n && i % 16 == 0
      invariant forall k :: 0 <= k < i ==> target[k] == Min(old(exp[k]), exp1[k])
      invariant forall k :: i <= k < target.Length ==> target[k] == old(target[k])
      invariant forall k :: i <= k < exp.Length ==> exp[k] == old(exp[k])
    {
      var v := MinEpu8(Load(exp[..], i), Load(exp1[..], i));
      MinLanes(exp[..], exp1[..], i);
      Store(target, i, v);
      assert forall k :: i <= k < i + 16 ==> target[k] == v[k - i];
      i := i + 16;
    }
    while i < n
      invariant i <= n
      invariant forall k :: 0 <= k < i ==> target[k] == Min(old(exp[k]), exp1[k])
      invariant forall k :: i <= k < target.Length ==> target[k] == old(target[k])
      invariant forall k :: i <= k < exp.Length ==> exp[k] == old(exp[k])
    {
      target[i] := Min(exp[i], exp1[i]);
      i := i + 1;
    }
  }

  lemma MinLanes(a: seq<Byte>, b: seq<Byte>, i: nat)
    requires i + 16 <= |a| && i + 16 <= |b|
    ensures forall k :: i <= k < i + 16 ==> MinEpu8(Load(a, i), Load(b, i))[k - i] == Min(a[k], b[k])
  {
  }

  /** _mm_storeu_si128 */
  method Store(target: array<Byte>, k: nat, v: Vec)
    requires k + 16 <= target.Length
    modifies target
    ensures forall i :: 0 <= i < target.Length ==>
      target[i] == if k <= i < k + 16 then v[i - k] else old(target[i])
  {
    for j := 0 to 16
      invariant forall i :: 0 <= i < target.Length ==>
        target[i] == if k <= i < k + j then v[i - k] else old(target[i])
    {
      target[k + j] := v[j];
    }
  }

  // ---------- group minima into a separate array ----------

  function Minima(v: Vec, g: nat): Vec
    requires g == 2 || g == 4
  {
    if g == 2 then MinEpu8(KeepLow(v, 2), Srli(v, 1))
    else
      var w := MinEpu8(v, Srli(v, 1));
      KeepLow(MinEpu8(w, Srli(w, 2)), 4)
  }

  lemma KeepLowAt(v: Vec, g: nat, i: nat)
    requires Wide(g) && i < 16
    ensures KeepLow(v, g)[i] == if i % g == 0 then v[i] else 0
  {
    ByteMasks(v[i]);
  }

  lemma Minima2(v: Vec, j: nat)
    requires j < 8
    ensures Minima(v, 2)[2 * j] == Min(v[2 * j], v[2 * j + 1]) && Minima(v, 2)[2 * j + 1] == 0
  {
    hide KeepLow;
    KeepLowAt(v, 2, 2 * j);
    KeepLowAt(v, 2, 2 * j + 1);
  }

  /** The bytes of the 32-bit form before the mask: minima of four, two bytes apart. */
  function Quads(v: Vec): Vec
  {
    var w := MinEpu8(v, Srli(v, 1));
    MinEpu8(w, Srli(w, 2))
  }

  lemma QuadAt(v: Vec, i: nat)
    requires i < 13
    ensures Quads(v)[i] == Min(Min(v[i], v[i + 1]), Min(v[i + 2], v[i + 3]))
  {
  }

  lemma Minima4(v: Vec, j: nat)
    requires j < 4
    ensures Minima(v, 4)[4 * j] == Min(Min(v[4 * j], v[4 * j + 1]), Min(v[4 * j + 2], v[4 * j + 3]))
    ensures Minima(v, 4)[4 * j + 1] == Minima(v, 4)[4 * j + 2] == Minima(v, 4)[4 * j + 3] == 0
  {
    hide KeepLow, Quads;
    MinimaOfQuads(v);
    QuadAt(v, 4 * j);
    KeepLowAt(Quads(v), 4, 4 * j);
    KeepLowAt(Quads(v), 4, 4 * j + 1);
    KeepLowAt(Quads(v), 4, 4 * j + 2);
    KeepLowAt(Quads(v), 4, 4 * j + 3);
  }

  lemma MinimaOfQuads(v: Vec)
    ensures Minima(v, 4) == KeepLow(Quads(v), 4)
  {
    hide KeepLow, MinEpu8, Srli;
  }

  lemma MinOfGroup(e: seq<Byte>, g: nat, k: nat)
    requires Wide(g) && k + g <= |e|
    ensures MinOver(e, k, g) ==
      if g == 2 then Min(e[k], e[k + 1]) else Min(Min(e[k], e[k + 1]), Min(e[k + 2], e[k + 3]))
  {
    if g == 2 {
      assert MinOver(e, k, 2) == Min(MinOver(e, k, 1), e[k + 1]);
    } else {
      MinOver4(e, k);
    }
  }

  lemma LaneOf2(v: Vec, j: nat)
    requires j < 8
    ensures Lane(Minima(v, 2), 2, j) == Min(v[2 * j], v[2 * j + 1])
  {
    hide Minima;
    Minima2(v, j);
  }

  lemma LaneOf4(v: Vec, j: nat)
    requires j < 4
    ensures Lane(Minima(v, 4), 4, j) == Min(Min(v[4 * j], v[4 * j + 1]), Min(v[4 * j + 2], v[4 * j + 3]))
  {
    hide Minima;
    Minima4(v, j);
  }

  /** Every lane ends up with the minimum of its g bytes. */
  lemma MinimaLane(e: seq<Byte>, k: nat, g: nat, j: nat)
    requires k + 16 <= |e| && Wide(g) && j < Lanes(g)
    ensures Lane(Minima(Load(e, k), g), g, j) == MinOver(e, Skip(g, k, j), g)
  {
    hide Minima, MinOver, Lane;
    MinOfGroup(e, g, Skip(g, k, j));
    if g == 2 { LaneOf2(Load(e, k), j); } else { LaneOf4(Load(e, k), j); }
  }

  /** One vector of minima. */
  method StoreMinima(exp: array<Byte>, g: nat, i: nat, k: nat, exp1: array<int>)
    requires Wide(g) && k + 16 <= exp.Length && i + Lanes(g) <= exp1.Length
    modifies exp1
    ensures forall j :: 0 <= j < Lanes(g) ==> exp1[i + j] == MinOver(exp[..], Skip(g, k, j), g)
    ensures forall j :: 0 <= j < i || i + Lanes(g) <= j < exp1.Length ==> exp1[j] == old(exp1[j])
  {
    hide MinOver, Minima, Lane;
    ghost var e := exp[..];
    var v := Minima(Load(exp[..], k), g);
    for j := 0 to Lanes(g)
      invariant forall m :: 0 <= m < j ==> exp1[i + m] == MinOver(e, Skip(g, k, m), g)
      invariant forall m :: 0 <= m < i || i + Lanes(g) <= m < exp1.Length ==> exp1[m] == old(exp1[m])
    {
      MinimaLane(e, k, g, j);
      exp1[i + j] := Lane(v, g, j);
    }
  }

  /** exp1[j] is the value the limiter starts from in group j + 1. */
  ghost predicate HoldsMinima(exp1: seq<int>, e: seq<Byte>, g: nat, n: nat)
    requires Wide(g) && Start(g, n + 1) <= |e|
  {
    n <= |exp1| && forall j :: 0 <= j < n ==> exp1[j] == GroupValue(e, g, j + 1)
  }

  lemma MinimaOne(x: seq<int>, y: seq<int>, e: seq<Byte>, g: nat, n: nat, k: nat)
    requires Wide(g) && Start(g, n + 2) <= |e| && HoldsMinima(x, e, g, n) && n + 1 <= |y| && k == Start(g, n + 1)
    requires (forall j :: 0 <= j < n ==> y[j] == x[j]) && y[n] == MinOver(e, k, g)
    ensures HoldsMinima(y, e, g, n + 1)
  {
    hide MinOver;
  }

  lemma MinimaMore(x: seq<int>, y: seq<int>, e: seq<Byte>, g: nat, n: nat, k: nat)
    requires Wide(g) && k + 16 <= |e| && k == Start(g, n + 1) && HoldsMinima(x, e, g, n) && n + Lanes(g) <= |y|
    requires forall j :: 0 <= j < n ==> y[j] == x[j]
    requires forall j :: 0 <= j < Lanes(g) ==> y[n + j] == MinOver(e, Skip(g, k, j), g)
    ensures k + 16 == Start(g, n + Lanes(g) + 1) && HoldsMinima(y, e, g, n + Lanes(g))
  {
    forall j | 0 <= j < n + Lanes(g)
      ensures y[j] == GroupValue(e, g, j + 1)
    {
      if j >= n { assert y[n + (j - n)] == MinOver(e, Skip(g, k, j - n), g); }
    }
  }

  /** `n & ~7` or `n & ~3`: the groups that fill whole vectors. */
  function Whole(g: nat, n: nat): nat { if g == 2 then n / 8 * 8 else n / 4 * 4 }

  predicate Aligned(g: nat, i: nat) { if g == 2 then i % 8 == 0 else i % 4 == 0 }

  /** A vector that starts below the whole part lies within n groups. */
  lemma VectorFits(g: nat, n: nat, i: nat)
    requires Wide(g) && i < Whole(g, n) && Aligned(g, i)
    ensures Aligned(g, i + Lanes(g)) && i + Lanes(g) <= n
    ensures Start(g, i + 1) + 16 == Start(g, i + Lanes(g) + 1) <= Start(g, n + 1)
  {
  }

  lemma GroupFits(g: nat, n: nat, i: nat)
    requires Wide(g) && i < n
    ensures Start(g, i + 1) + g == Start(g, i + 2) <= Start(g, n + 1)
  {
  }

  lemma NoGroups(g: nat, n: nat)
    requires Wide(g)
    ensures Start(g, 1) == 1 <= Start(g, n + 1) && Aligned(g, 0) && Whole(g, n) <= n
  {
  }

  /** Group minima, 16 bytes at a time. */
  method VectorMinima(exp: array<Byte>, g: nat, n: nat, exp1: array<int>) returns (i: nat, k: nat)
    requires Wide(g) && Start(g, n + 1) <= exp.Length && n <= exp1.Length
    modifies exp1
    ensures i <= n && k == Start(g, i + 1) <= Start(g, n + 1) && HoldsMinima(exp1[..], exp[..], g, i)
  {
    hide MinOver, HoldsMinima, Start, Whole, Aligned;
    ghost var e := exp[..];
    i, k := 0, 1;
    NoGroups(g, n);
    NoMinima(exp1[..], e, g);
    while i < Whole(g, n)
      invariant Aligned(g, i) && i <= n && k == Start(g, i + 1) <= Start(g, n + 1)
      invariant HoldsMinima(exp1[..], e, g, i)
    {
      ghost var x := exp1[..];
      VectorFits(g, n, i);
      StoreMinima(exp, g, i, k, exp1);
      MinimaMore(x, exp1[..], e, g, i, k);
      i := i + Lanes(g);
      k := k + 16;
    }
  }

  /** All group minima: whole vectors, and the last groups singly. */
  method SeparateMinima(exp: array<Byte>, g: nat, n: nat, exp1: array<int>)
    requires Wide(g) && Start(g, n + 1) <= exp.Length && n <= exp1.Length
    modifies exp1
    ensures HoldsMinima(exp1[..], exp[..], g, n)
  {
    hide MinOver, HoldsMinima, Start;
    ghost var e := exp[..];
    var i, k := VectorMinima(exp, g, n, exp1);
    while i < n
      invariant i <= n && k == Start(g, i + 1) <= Start(g, n + 1)
      invariant HoldsMinima(exp1[..], e, g, i)
    {
      ghost var x := exp1[..];
      GroupFits(g, n, i);
      MinOfGroup(e, g, k);
      exp1[i] := if g == 2 then Min(exp[k], exp[k + 1])
                 else Min(Min(exp[k], exp[k + 1]), Min(exp[k + 2], exp[k + 3]));
      MinimaOne(x, exp1[..], e, g, i, k);
      i := i + 1;
      k := k + g;
    }
  }

  lemma NoMinima(x: seq<int>, e: seq<Byte>, g: nat)
    requires Wide(g) && 1 <= |e|
    ensures HoldsMinima(x, e, g, 0)
  {
  }

  // ---------- slope limiting with the DC exponent apart ----------

  /** The two passes when group 0 lies in exp[0] and group j + 1 in exp1[j]. */
  method LimitSeparate(exp: array<Byte>, exp1: array<int>, n: nat, ghost v: seq<int>)
    requires exp.Length > 0 && 1 <= n <= exp1.Length && |v| == n + 1
    requires v[0] == Min(exp[0], 15) && forall j :: 0 <= j < n ==> exp1[j] == v[j + 1]
    requires forall j :: 0 <= j <= n ==> 0 <= v[j] < 256
    modifies exp, exp1
    ensures exp[0] == Limit(v)[0] && forall j :: 0 <= j < n ==> exp1[j] == Limit(v)[j + 1]
    ensures forall j :: 0 <= j < n ==> 0 <= exp1[j] < 256
    ensures forall k :: 0 < k < exp.Length ==> exp[k] == old(exp[k])
  {
    exp[0] := Min(exp[0], 15);
    var first: int := exp[0];
    exp1[0] := Min(exp1[0], first + 2);
    for i := 1 to n
      invariant exp[0] == v[0] && forall k :: 0 < k < exp.Length ==> exp[k] == old(exp[k])
      invariant forall j :: 0 <= j < i ==> exp1[j] == Forward(v, j + 1)
      invariant forall j :: i <= j < n ==> exp1[j] == v[j + 1]
    {
      exp1[i] := Min(exp1[i], exp1[i - 1] + 2);
    }
    var i := n - 2;
    while i >= 0
      invariant -1 <= i <= n - 2
      invariant exp[0] == v[0] && forall k :: 0 < k < exp.Length ==> exp[k] == old(exp[k])
      invariant forall j :: 0 <= j <= i ==> exp1[j] == Forward(v, j + 1)
      invariant forall j :: i < j < n ==> exp1[j] == Backward(v, j + 1)
    {
      exp1[i] := Min(exp1[i], exp1[i + 1] + 2);
      i := i - 1;
    }
    forall j | 0 <= j < n
      ensures 0 <= exp1[j] < 256
    {
      BackwardRange(v, j + 1);
    }
    first := exp[0];
    exp[0] := Min(first, exp1[0] + 2);
  }

  // ---------- expansion by shift and or ----------

  function FromLanes(x: seq<int>, g: nat): Vec
    requires Wide(g) && |x| == Lanes(g) && forall j :: 0 <= j < |x| ==> 0 <= x[j] < 256
  {
    seq(16, i requires 0 <= i < 16 => if i % g == 0 then x[i / g] else 0)
  }

  /** Every byte of a lane gets the lane's value. */
  function Spread(v: Vec, g: nat): Vec
  {
    var w := OrVec(v, Slli(v, 1));
    if g == 2 then w else OrVec(w, Slli(w, 2))
  }

  lemma OrAt(a: Vec, b: Vec, i: nat)
    requires i < 16
    ensures b[i] == 0 ==> OrVec(a, b)[i] == a[i]
    ensures a[i] == 0 ==> OrVec(a, b)[i] == b[i]
  {
    ByteMasks(a[i]);
    ByteMasks(b[i]);
  }

  lemma Spread2At(x: seq<int>, i: nat)
    requires |x| == 8 && (forall j :: 0 <= j < 8 ==> 0 <= x[j] < 256) && i < 16
    ensures Spread(FromLanes(x, 2), 2)[i] == x[i / 2]
  {
    var v := FromLanes(x, 2);
    OrAt(v, Slli(v, 1), i);
    hide OrVec;
  }

  lemma Spread4First(x: seq<int>, i: nat)
    requires |x| == 4 && (forall j :: 0 <= j < 4 ==> 0 <= x[j] < 256) && i < 16
    ensures var v := FromLanes(x, 4); OrVec(v, Slli(v, 1))[i] == if i % 4 <= 1 then x[i / 4] else 0
  {
    var v := FromLanes(x, 4);
    OrAt(v, Slli(v, 1), i);
    hide OrVec;
    assert i % 4 == 1 ==> (i - 1) / 4 == i / 4 && (i - 1) % 4 == 0;
  }

  lemma Spread4At(x: seq<int>, i: nat)
    requires |x| == 4 && (forall j :: 0 <= j < 4 ==> 0 <= x[j] < 256) && i < 16
    ensures Spread(FromLanes(x, 4), 4)[i] == x[i / 4]
  {
    hide OrVec, FromLanes;
    var w := OrVec(FromLanes(x, 4), Slli(FromLanes(x, 4), 1));
    Spread4First(x, i);
    OrAt(w, Slli(w, 2), i);
    if i >= 2 { Spread4First(x, i - 2); }
  }

  /** Bins up to those of group n hold their group's value, later ones are untouched. */
  ghost predicate Expanded(y: seq<Byte>, before: seq<Byte>, x: seq<int>, g: nat, n: nat)
    requires Wide(g)
  {
    |y| == |before| && Start(g, n + 1) <= |y| && n <= |x| && y[0] == before[0] &&
    (forall k :: 1 <= k < Start(g, n + 1) ==> 1 <= GroupOf(g, k) <= n && y[k] == x[GroupOf(g, k) - 1]) &&
    forall k :: Start(g, n + 1) <= k < |y| ==> y[k] == before[k]
  }

  /** Byte i of a vector that starts at group n + 1 lies in group n + 1 + i / g. */
  lemma GroupInVector(g: nat, n: nat, i: nat)
    requires Wide(g) && i < 16
    ensures GroupOf(g, Start(g, n + 1) + i) == n + 1 + Div(g, i) && Div(g, i) < Lanes(g)
  {
  }

  lemma SpreadAt(x: seq<int>, g: nat, i: nat)
    requires Wide(g) && |x| == Lanes(g) && (forall j :: 0 <= j < |x| ==> 0 <= x[j] < 256) && i < 16
    ensures Div(g, i) < |x| && Spread(FromLanes(x, g), g)[i] == x[Div(g, i)]
  {
    hide Spread, FromLanes;
    if g == 2 { Spread2At(x, i); } else { Spread4At(x, i); }
  }

  function Div(g: nat, i: nat): nat { if g == 2 then i / 2 else i / 4 }

  /** A vector of lanes spread over the 16 bytes at k. */
  method StoreSpread(exp: array<Byte>, g: nat, k: nat, x: seq<int>)
    requires Wide(g) && k + 16 <= exp.Length && |x| == Lanes(g) && forall j :: 0 <= j < |x| ==> 0 <= x[j] < 256
    modifies exp
    ensures forall i :: 0 <= i < exp.Length && !(k <= i < k + 16) ==> exp[i] == old(exp[i])
    ensures forall i :: k <= i < k + 16 ==> exp[i] == x[Div(g, i - k)]
  {
    hide Spread, FromLanes;
    var v := Spread(FromLanes(x, g), g);
    Store(exp, k, v);
    forall i | k <= i < k + 16
      ensures exp[i] == x[Div(g, i - k)]
    {
      SpreadAt(x, g, i - k);
    }
  }

  lemma ExpandMore(y: seq<Byte>, z: seq<Byte>, before: seq<Byte>, x: seq<int>, g: nat, n: nat, s: nat)
    requires Wide(g) && Expanded(y, before, x, g, n) && n + Lanes(g) <= |x| && s == Start(g, n + 1)
    requires s + 16 <= |y| == |z|
    requires forall i :: 0 <= i < |z| && !(s <= i < s + 16) ==> z[i] == y[i]
    requires forall i :: s <= i < s + 16 ==> z[i] == x[n..n + Lanes(g)][Div(g, i - s)]
    ensures Expanded(z, before, x, g, n + Lanes(g))
  {
    hide Start, GroupOf, Div;
    var m := n + Lanes(g);
    StartPositive(g, n);
    forall k | 1 <= k < s + 16
      ensures 1 <= GroupOf(g, k) <= m && z[k] == x[GroupOf(g, k) - 1]
    {
      if k >= s { GroupInVector(g, n, k - s); }
    }
  }

  lemma StartPositive(g: nat, n: nat)
    requires Wide(g)
    ensures Start(g, n + 1) >= 1 && Start(g, n + Lanes(g) + 1) == Start(g, n + 1) + 16
  {
  }

  lemma ExpandOne(y: seq<Byte>, z: seq<Byte>, before: seq<Byte>, x: seq<int>, g: nat, n: nat, s: nat)
    requires Wide(g) && Expanded(y, before, x, g, n) && n < |x| && s == Start(g, n + 1) && s + g <= |y| == |z|
    requires forall i :: 0 <= i < |z| ==> z[i] == if s <= i < s + g then x[n] else y[i]
    ensures s + g == Start(g, n + 2) && Expanded(z, before, x, g, n + 1)
  {
  }

  lemma ExpandNone(y: seq<Byte>, x: seq<int>, g: nat)
    requires Wide(g) && 1 <= |y|
    ensures Expanded(y, y, x, g, 0)
  {
  }

  /** The values of exp1 spread over their bins, a vector of lanes at a time. */
  method ExpandVectors(exp: array<Byte>, g: nat, n: nat, exp1: array<int>) returns (i: nat, k: nat)
    requires Wide(g) && Start(g, n + 1) <= exp.Length && n <= exp1.Length
    requires forall j :: 0 <= j < n ==> 0 <= exp1[j] < 256
    modifies exp
    ensures i <= n && k == Start(g, i + 1) <= Start(g, n + 1) && Expanded(exp[..], old(exp[..]), exp1[..], g, i)
  {
    hide Expanded, Div, Start, Whole, Aligned;
    ghost var e := exp[..];
    i, k := 0, 1;
    NoGroups(g, n);
    ExpandNone(e, exp1[..], g);
    while i < Whole(g, n)
      invariant Aligned(g, i) && i <= n && k == Start(g, i + 1) <= Start(g, n + 1)
      invariant Expanded(exp[..], e, exp1[..], g, i)
    {
      ghost var y := exp[..];
      VectorFits(g, n, i);
      assert exp1[i..i + Lanes(g)] == exp1[..][i..i + Lanes(g)];
      StoreSpread(exp, g, k, exp1[i..i + Lanes(g)]);
      ExpandMore(y, exp[..], e, exp1[..], g, i, k);
      i := i + Lanes(g);
      k := k + 16;
    }
  }

  /** All values spread: whole vectors, and the last groups singly. */
  method ExpandSse2(exp: array<Byte>, g: nat, n: nat, exp1: array<int>)
    requires Wide(g) && Start(g, n + 1) <= exp.Length && n <= exp1.Length
    requires forall j :: 0 <= j < n ==> 0 <= exp1[j] < 256
    modifies exp
    ensures Expanded(exp[..], old(exp[..]), exp1[..], g, n)
  {
    hide Expanded, Start;
    ghost var e := exp[..];
    var i, k := ExpandVectors(exp, g, n, exp1);
    while i < n
      invariant i <= n && k == Start(g, i + 1) <= Start(g, n + 1)
      invariant Expanded(exp[..], e, exp1[..], g, i)
    {
      ghost var y := exp[..];
      GroupFits(g, n, i);
      StoreGroup(exp, g, k, exp1[i]);
      ExpandOne(y, exp[..], e, exp1[..], g, i, k);
      i := i + 1;
      k := k + g;
    }
  }

  method StoreGroup(exp: array<Byte>, g: nat, k: nat, v: Byte)
    requires Wide(g) && k + g <= exp.Length
    modifies exp
    ensures forall i :: 0 <= i < exp.Length ==> exp[i] == if k <= i < k + g then v else old(exp[i])
  {
    exp[k] := v;
    exp[k + 1] := v;
    if g == 4 {
      exp[k + 2] := v;
      exp[k + 3] := v;
    }
  }

  // ---------- encode_exp_blk_ch_sse2 ----------

  /** What the separate array holds, next to the capped DC exponent, is the limiter's input. */
  lemma ValuesAre(x: seq<int>, e: seq<Byte>, g: nat, n: nat)
    requires Wide(g) && Start(g, n + 1) <= |e| && HoldsMinima(x, e, g, n)
    ensures var v := GroupValues(e, g, n);
      v[0] == Min(e[0], 15) && (forall j :: 0 <= j < n ==> x[j] == v[j + 1]) &&
      forall j :: 0 <= j <= n ==> 0 <= v[j] < 256
  {
    hide MinOver;
  }

  lemma ExpandedIsEncoded(y: seq<Byte>, before: seq<Byte>, e: seq<Byte>, x: seq<int>, g: nat, n: nat)
    requires Wide(g) && Start(g, n + 1) <= |e| && Expanded(y, before, x, g, n) && |before| == |e|
    requires before[0] == Limit(GroupValues(e, g, n))[0] && forall k :: 0 < k < |e| ==> before[k] == e[k]
    requires forall j :: 0 <= j < n ==> x[j] == Limit(GroupValues(e, g, n))[j + 1]
    ensures y == Encode(e, g, n)
  {
    hide Limit, GroupValues;
    forall k | 0 <= k < Start(g, n + 1)
      ensures GroupOf(g, k) <= n && y[k] == Limit(GroupValues(e, g, n))[GroupOf(g, k)]
    {
      BinInGroup(g, k, n);
    }
    EncodeIs(e, g, n, y);
  }

  /** The two grouped strategies: minima and slopes in a separate array, then expansion. */
  method EncodeGrouped(exp: array<Byte>, g: nat, n: nat)
    requires Wide(g) && n >= 1 && exp.Length == 256 && Start(g, n + 1) <= 256
    modifies exp
    ensures exp[..] == Encode(old(exp[..]), g, n)
  {
    hide Encode, Limit, Expanded, GroupValue, GroupValues, HoldsMinima;
    ghost var e := exp[..];
    ghost var v := GroupValues(e, g, n);
    var exp1 := new int[256](_ => 0);
    SeparateMinima(exp, g, n, exp1);
    ValuesAre(exp1[..], e, g, n);
    LimitSeparate(exp, exp1, n, v);
    ghost var before := exp[..];
    ExpandSse2(exp, g, n, exp1);
    ExpandedIsEncoded(exp[..], before, e, exp1[..], g, n);
  }

  /** encode_exp_blk_ch_sse2 leaves what the scalar function leaves, for every coefficient count with a group. */
  method EncodeExpBlkChSse2(nexpgrptab: array2<nat>, exp: array<Byte>, ncoefs: nat, strategy: nat)
    requires nexpgrptab.Length0 == 3 && nexpgrptab.Length1 == 256
    requires forall i, j :: 0 <= i < 3 && 0 <= j < 256 ==> nexpgrptab[i, j] == NumGroups(i + 1, j)
    requires 1 <= strategy <= 3 && ncoefs <= 253 && exp.Length == 256 && NumGroups(strategy, ncoefs) > 0
    modifies exp
    ensures exp[..] == EncodeRow(old(exp[..]), strategy, ncoefs)
  {
    hide Encode, NumGroups;
    var g, ngrps := GroupSize(strategy), nexpgrptab[strategy - 1, ncoefs] * 3;
    GroupsFit(strategy, ncoefs, g, NumGroups(strategy, ncoefs));
    if g == 1 {
      EncodeWith(exp, g, ngrps);
    } else {
      EncodeGrouped(exp, g, ngrps);
    }
  }

  // ---------- squared error ----------

  /** The square of a difference. */
  function Square(x: int, y: int): nat
  {
    if x >= y then (x - y) * (x - y) else (y - x) * (y - x)
  }

  /** The sum of squared differences of the first n exponents. */
  function SquaredError(a: seq<Byte>, b: seq<Byte>, n: nat): nat
    requires n <= |a| && n <= |b|
  {
    if n == 0 then 0 else SquaredError(a, b, n - 1) + Square(a[n - 1], b[n - 1])
  }

  lemma SquareIs(x: int, y: int)
    ensures (x - y) * (x - y) == Square(x, y)
  {
  }

  /** The scalar exponent_sum_square_error. */
  method SumSquareError(exp0: array<Byte>, exp1: array<Byte>, ncoefs: nat) returns (error: int)
    requires ncoefs <= exp0.Length && ncoefs <= exp1.Length
    ensures error == SquaredError(exp0[..], exp1[..], ncoefs)
  {
    error := 0;
    if exp0 == exp1 {
      NoError(exp0[..], ncoefs);
      return 0;
    }
    for i := 0 to ncoefs
      invariant error == SquaredError(exp0[..], exp1[..], i)
    {
      var x: int, y: int := exp0[i], exp1[i];
      SquareIs(x, y);
      error := error + (x - y) * (x - y);
    }
  }

  lemma {:induction false} NoError(a: seq<Byte>, n: nat)
    requires n <= |a|
    ensures SquaredError(a, a, n) == 0
  {
    if n > 0 { NoError(a, n - 1); }
  }

  /** _mm_sub_epi8: differences modulo 256. */
  function SubEpi8(a: Vec, b: Vec): Vec
  {
    seq(16, i requires 0 <= i < 16 => SubByte(a[i], b[i]))
  }

  function SubByte(x: int, y: int): Byte { (x - y) % 256 }

  /** _mm_cmplt_epi8 against zero: all ones where the signed byte is negative. */
  function Signs(v: Vec): Vec { seq(16, i requires 0 <= i < 16 => if v[i] >= 128 then 255 else 0) }

  /** _mm_unpacklo_epi8 (from_ = 0) and _mm_unpackhi_epi8 (from_ = 8): bytes of a and b in turn. */
  function Unpack(a: Vec, b: Vec, from_: nat): Vec
    requires from_ <= 8
  {
    seq(16, i requires 0 <= i < 16 => if i % 2 == 0 then a[from_ + i / 2] else b[from_ + i / 2])
  }

  /** Signed 16-bit lane j. */
  function Signed16(v: Vec, j: nat): int
    requires j < 8
  {
    var u := Bytes2(v[2 * j], v[2 * j + 1]);
    if u >= 0x8000 then u - 0x1_0000 else u
  }

  /** Lane m of _mm_madd_epi16(v, v): two squares added. */
  function Madd(v: Vec, m: nat): int
    requires m < 4
  {
    Signed16(v, 2 * m) * Signed16(v, 2 * m) + Signed16(v, 2 * m + 1) * Signed16(v, 2 * m + 1)
  }

  /** Sign extension undoes the wrap of the 8-bit subtraction, as exponents differ by at most 24. */
  lemma DifferenceLane(a: Vec, b: Vec, from_: nat, j: nat)
    requires from_ <= 8 && j < 8 && 0 <= a[from_ + j] <= 24 && 0 <= b[from_ + j] <= 24
    ensures var d := SubEpi8(a, b); Signed16(Unpack(d, Signs(d), from_), j) == a[from_ + j] as int - b[from_ + j] as int
  {
    var d := SubEpi8(a, b);
    var u := Unpack(d, Signs(d), from_);
    assert u[2 * j] == d[from_ + j] && u[2 * j + 1] == Signs(d)[from_ + j];
  }

  ghost predicate SmallExponents(a: seq<Byte>, n: nat)
  {
    n <= |a| && forall i :: 0 <= i < n ==> a[i] <= 24
  }

  lemma MaddLane(a: seq<Byte>, b: seq<Byte>, k: nat, from_: nat, m: nat)
    requires (from_ == 0 || from_ == 8) && m < 4 && SmallExponents(a, k + 16) && SmallExponents(b, k + 16)
    ensures var d, i := SubEpi8(Load(a, k), Load(b, k)), k + from_ + 2 * m;
      Madd(Unpack(d, Signs(d), from_), m) == Square(a[i], b[i]) + Square(a[i + 1], b[i + 1])
  {
    hide SubEpi8, Signs, Unpack, Signed16, Square, SmallExponents, Load;
    Loaded(a, k, from_ + 2 * m);
    Loaded(b, k, from_ + 2 * m);
    var i := k + from_ + 2 * m;
    DifferenceLane(Load(a, k), Load(b, k), from_, 2 * m);
    DifferenceLane(Load(a, k), Load(b, k), from_, 2 * m + 1);
    SquareIs(a[i], b[i]);
    SquareIs(a[i + 1], b[i + 1]);
  }

  lemma Loaded(a: seq<Byte>, k: nat, i: nat)
    requires SmallExponents(a, k + 16) && i < 15
    ensures k + 16 <= |a| && Load(a, k)[i] == a[k + i] <= 24 && Load(a, k)[i + 1] == a[k + i + 1] <= 24
  {
  }

  lemma SixteenSquares(a: seq<Byte>, b: seq<Byte>, k: nat)
    requires k + 16 <= |a| && k + 16 <= |b|
    ensures SquaredError(a, b, k + 16) == SquaredError(a, b, k) +
      Pair(a, b, k) + Pair(a, b, k + 2) + Pair(a, b, k + 4) + Pair(a, b, k + 6) +
      Pair(a, b, k + 8) + Pair(a, b, k + 10) + Pair(a, b, k + 12) + Pair(a, b, k + 14)
  {
    TwoSquares(a, b, k);
    TwoSquares(a, b, k + 2);
    TwoSquares(a, b, k + 4);
    TwoSquares(a, b, k + 6);
    TwoSquares(a, b, k + 8);
    TwoSquares(a, b, k + 10);
    TwoSquares(a, b, k + 12);
    TwoSquares(a, b, k + 14);
    hide SquaredError, Pair;
  }

  function Pair(a: seq<Byte>, b: seq<Byte>, i: nat): nat
    requires i + 1 < |a| && i + 1 < |b|
  {
    Square(a[i], b[i]) + Square(a[i + 1], b[i + 1])
  }

  lemma TwoSquares(a: seq<Byte>, b: seq<Byte>, i: nat)
    requires i + 1 < |a| && i + 1 < |b|
    ensures SquaredError(a, b, i + 2) == SquaredError(a, b, i) + Pair(a, b, i)
  {
    hide Square;
  }

  /** What one turn of the vector loop adds to lane m. */
  function LaneError(a: Vec, b: Vec, m: nat): int
    requires m < 4
  {
    var d := SubEpi8(a, b);
    Madd(Unpack(d, Signs(d), 8), m) + Madd(Unpack(d, Signs(d), 0), m)
  }

  lemma LaneErrors(a: seq<Byte>, b: seq<Byte>, k: nat)
    requires SmallExponents(a, k + 16) && SmallExponents(b, k + 16)
    ensures SquaredError(a, b, k + 16) == SquaredError(a, b, k) +
      LaneError(Load(a, k), Load(b, k), 0) + LaneError(Load(a, k), Load(b, k), 1) +
      LaneError(Load(a, k), Load(b, k), 2) + LaneError(Load(a, k), Load(b, k), 3)
  {
    hide SquaredError, SubEpi8, Signs, Unpack, Madd, Square, Load;
    SixteenSquares(a, b, k);
    MaddLane(a, b, k, 0, 0);
    MaddLane(a, b, k, 0, 1);
    MaddLane(a, b, k, 0, 2);
    MaddLane(a, b, k, 0, 3);
    MaddLane(a, b, k, 8, 0);
    MaddLane(a, b, k, 8, 1);
    MaddLane(a, b, k, 8, 2);
    MaddLane(a, b, k, 8, 3);
  }

  lemma NoSquares(a: seq<Byte>, b: seq<Byte>)
    ensures SquaredError(a, b, 0) == 0
  {
  }

  lemma OneSquare(a: seq<Byte>, b: seq<Byte>, i: nat)
    requires i < |a| && i < |b|
    ensures SquaredError(a, b, i + 1) == SquaredError(a, b, i) + Square(a[i], b[i])
  {
  }

  /** exponent_sum_square_error_sse2 equals the scalar sum. */
  method SumSquareErrorSse2(exp0: array<Byte>, exp1: array<Byte>, ncoefs: nat) returns (error: int)
    requires SmallExponents(exp0[..], ncoefs) && SmallExponents(exp1[..], ncoefs)
    ensures error == SquaredError(exp0[..], exp1[..], ncoefs)
  {
    hide LaneError, Load, SquaredError, Square;
    ghost var a, b := exp0[..], exp1[..];
    NoSquares(a, b);
    var r0, r1, r2, r3 := 0, 0, 0, 0;
    var i := 0;
    while i < ncoefs - ncoefs % 16
      invariant i % 16 == 0 && i <= ncoefs && r0 + r1 + r2 + r3 == SquaredError(a, b, i)
    {
      LaneErrors(a, b, i);
      var v, w := Load(exp0[..], i), Load(exp1[..], i);
      r0 := r0 + LaneError(v, w, 0);
      r1 := r1 + LaneError(v, w, 1);
      r2 := r2 + LaneError(v, w, 2);
      r3 := r3 + LaneError(v, w, 3);
      i := i + 16;
    }
    r0 := r0 + r1;
    r2 := r2 + r3;
    error := r0 + r2;
    while i < ncoefs
      invariant i <= ncoefs && error == SquaredError(a, b, i)
    {
      var x: int, y: int := exp0[i], exp1[i];
      var err := x - y;
      SquareIs(x, y);
      OneSquare(a, b, i);
      error := error + err * err;
      i := i + 1;
    }
  }
}
