/** CRC-16 (crc.c) against polynomial arithmetic over GF(2): a polynomial is the finite set of the exponents that occur
    in it, so addition is symmetric difference and multiplication by x^k a shift. Nothing in these definitions mentions
    a register or a table. */
module Crc {
  import opened BitStrings

  type Poly = set<nat>

  // ---------- polynomials ----------

  function Add(a: Poly, b: Poly): (c: Poly)
    ensures forall i: nat :: i in c <==> (i in a) != (i in b)
  {
    (a - b) + (b - a)
  }

  function Shift(a: Poly, k: nat): (c: Poly)
    ensures forall i: nat :: i in c <==> i >= k && i - k in a
  {
    set i | i in a :: i + k
  }

  /** q times the generator x^16 + x^15 + x^2 + 1. */
  function TimesGen(q: Poly): Poly
  {
    Add(Add(Shift(q, 16), Shift(q, 15)), Add(Shift(q, 2), q))
  }

  /** Equality modulo the generator. */
  ghost predicate Congruent(a: Poly, b: Poly)
  {
    exists q: Poly :: Add(a, b) == TimesGen(q)
  }

  lemma Refl(a: Poly)
    ensures Congruent(a, a)
  {
    assert Add(a, a) == TimesGen({});
  }

  lemma Sym(a: Poly, b: Poly)
    requires Congruent(a, b)
    ensures Congruent(b, a)
  {
    assert Add(a, b) == Add(b, a);
  }

  lemma TimesGenAdd(p: Poly, q: Poly)
    ensures TimesGen(Add(p, q)) == Add(TimesGen(p), TimesGen(q))
  {
  }

  lemma Trans(a: Poly, b: Poly, c: Poly)
    requires Congruent(a, b) && Congruent(b, c)
    ensures Congruent(a, c)
  {
    var p :| Add(a, b) == TimesGen(p);
    var q :| Add(b, c) == TimesGen(q);
    TimesGenAdd(p, q);
    assert Add(a, c) == Add(Add(a, b), Add(b, c));
    assert Add(a, c) == TimesGen(Add(p, q));
  }

  lemma CongAdd(a: Poly, b: Poly, c: Poly, d: Poly)
    requires Congruent(a, b) && Congruent(c, d)
    ensures Congruent(Add(a, c), Add(b, d))
  {
    var p :| Add(a, b) == TimesGen(p);
    var q :| Add(c, d) == TimesGen(q);
    TimesGenAdd(p, q);
    assert Add(Add(a, c), Add(b, d)) == Add(Add(a, b), Add(c, d));
    assert Add(Add(a, c), Add(b, d)) == TimesGen(Add(p, q));
  }

  lemma CongShift(a: Poly, b: Poly, k: nat)
    requires Congruent(a, b)
    ensures Congruent(Shift(a, k), Shift(b, k))
  {
    var p :| Add(a, b) == TimesGen(p);
    hide Add, Shift, TimesGen;
    ShiftAdd(a, b, k);
    ShiftGen(p, k);
  }

  lemma ShiftGen(p: Poly, k: nat)
    ensures Shift(TimesGen(p), k) == TimesGen(Shift(p, k))
  {
    hide Add, Shift;
    ShiftAdd(Add(Shift(p, 16), Shift(p, 15)), Add(Shift(p, 2), p), k);
    ShiftAdd(Shift(p, 16), Shift(p, 15), k);
    ShiftAdd(Shift(p, 2), p, k);
    ShiftSwap(p, 16, k);
    ShiftSwap(p, 15, k);
    ShiftSwap(p, 2, k);
  }

  lemma ShiftSwap(p: Poly, j: nat, k: nat)
    ensures Shift(Shift(p, j), k) == Shift(Shift(p, k), j)
  {
    ShiftShift(p, j, k);
    ShiftShift(p, k, j);
    hide Shift;
  }

  lemma ShiftShift(a: Poly, j: nat, k: nat)
    ensures Shift(Shift(a, j), k) == Shift(a, j + k)
  {
  }

  lemma ShiftAdd(a: Poly, b: Poly, k: nat)
    ensures Shift(Add(a, b), k) == Add(Shift(a, k), Shift(b, k))
  {
  }

  /** A nonzero multiple of the generator has degree at least 16, so remainders are unique. */
  lemma RemainderUnique(a: Poly, b: Poly)
    requires Congruent(a, b)
    requires forall i :: i in a || i in b ==> i < 16
    ensures a == b
  {
    var q :| Add(a, b) == TimesGen(q);
    if q != {} {
      var m := MultipleDegree(q);
      assert false;
    }
    assert forall i: nat :: i !in TimesGen({});
    assert forall i: nat :: i in a <==> i in b;
  }

  lemma MultipleDegree(q: Poly) returns (m: nat)
    requires q != {}
    ensures m + 16 in TimesGen(q)
  {
    m := Degree(q);
    assert m + 16 in Shift(q, 16);
    assert m + 16 !in Shift(q, 15) && m + 16 !in Shift(q, 2) && m + 16 !in q;
  }

  lemma Degree(q: Poly) returns (m: nat)
    requires q != {}
    ensures m in q && forall i :: i in q ==> i <= m
  {
    var e: nat :| e in q;
    m := e;
    if q - {e} != {} {
      var d := Degree(q - {e});
      if d > e { m := d; }
      assert forall i :: i in q ==> i == e || i in q - {e};
    } else {
      assert forall i :: i in q ==> i in q - {e} || i == e;
    }
  }

  // ---------- words as polynomials ----------

  /** `a ^ b` on unsigned integers. */
  function Xor(a: nat, b: nat): nat
  {
    if a == 0 && b == 0 then 0
    else 2 * Xor(a / 2, b / 2) + (if a % 2 != b % 2 then 1 else 0)
  }

  /** A constant coefficient. */
  function Low(bit: bool): Poly
  {
    if bit then {0} else {}
  }

  /** The polynomial whose coefficients are the bits of a word. */
  function PolyOf(a: nat): Poly
  {
    if a == 0 then {} else Add(Low(a % 2 == 1), Shift(PolyOf(a / 2), 1))
  }

  /** Schoolbook product of a word's polynomial with another polynomial. */
  function Product(a: nat, b: Poly): Poly
  {
    if a == 0 then {} else Add(if a % 2 == 1 then b else {}, Product(a / 2, Shift(b, 1)))
  }

  lemma PolyUnfold(a: nat)
    ensures PolyOf(a) == Add(Low(a % 2 == 1), Shift(PolyOf(a / 2), 1))
  {
  }

  lemma XorUnfold(a: nat, b: nat)
    ensures Xor(a, b) / 2 == Xor(a / 2, b / 2) && (Xor(a, b) % 2 == 1) == ((a % 2 == 1) != (b % 2 == 1))
  {
  }

  lemma XorStep(x: bool, y: bool, p: Poly, q: Poly)
    ensures Add(Low(x != y), Shift(Add(p, q), 1)) == Add(Add(Low(x), Shift(p, 1)), Add(Low(y), Shift(q, 1)))
  {
  }

  /** Exclusive or of words is addition of polynomials. */
  lemma {:induction false} PolyXor(a: nat, b: nat)
    ensures PolyOf(Xor(a, b)) == Add(PolyOf(a), PolyOf(b))
  {
    if a == 0 && b == 0 {
    } else {
      PolyXor(a / 2, b / 2);
      XorUnfold(a, b);
      PolyUnfold(Xor(a, b));
      PolyUnfold(a);
      PolyUnfold(b);
      hide PolyOf, Xor;
      XorStep(a % 2 == 1, b % 2 == 1, PolyOf(a / 2), PolyOf(b / 2));
    }
  }

  /** A word fits in n bits exactly when its polynomial has degree below n. */
  lemma {:induction false} PolyBound(a: nat, n: nat)
    ensures a < Pow2(n) <==> forall i :: i in PolyOf(a) ==> i < n
    decreases n
  {
    if n == 0 {
      if a > 0 { var i := PolySome(a); }
    } else {
      PolyBound(a / 2, n - 1);
      hide PolyOf;
      BoundHalf(a, n);
      assert Pow2(n) == 2 * Pow2(n - 1);
    }
  }

  lemma BoundHalf(a: nat, n: nat)
    requires n > 0
    ensures (forall i :: i in PolyOf(a) ==> i < n) <==> forall i :: i in PolyOf(a / 2) ==> i < n - 1
  {
    PolyUnfold(a);
    hide PolyOf;
    if forall i :: i in PolyOf(a) ==> i < n {
      forall i | i in PolyOf(a / 2)
        ensures i < n - 1
      {
        assert i + 1 in PolyOf(a);
      }
    }
  }

  lemma {:induction false} PolySome(a: nat) returns (i: nat)
    requires a > 0
    ensures i in PolyOf(a)
  {
    if a % 2 == 1 {
      i := 0;
    } else {
      i := PolySome(a / 2);
      i := i + 1;
    }
  }

  lemma LowAndHigh(x: bool, y: bool, p: Poly, q: Poly)
    requires Add(Low(x), Shift(p, 1)) == Add(Low(y), Shift(q, 1))
    ensures x == y && p == q
  {
    var l, r := Add(Low(x), Shift(p, 1)), Add(Low(y), Shift(q, 1));
    assert x <==> 0 in l;
    assert y <==> 0 in r;
    forall i: nat
      ensures i in p <==> i in q
    {
      assert i in p <==> i + 1 in l;
      assert i in q <==> i + 1 in r;
    }
  }

  /** Different words have different polynomials. */
  lemma {:induction false} PolyInjective(a: nat, b: nat)
    requires PolyOf(a) == PolyOf(b)
    ensures a == b
  {
    if a > 0 || b > 0 {
      PolyUnfold(a);
      PolyUnfold(b);
      LowAndHigh(a % 2 == 1, b % 2 == 1, PolyOf(a / 2), PolyOf(b / 2));
      PolyInjective(a / 2, b / 2);
    }
  }

  /** Shifting a word left by k bits multiplies its polynomial by x^k. */
  lemma {:induction false} PolyShl(a: nat, k: nat)
    ensures PolyOf(a * Pow2(k)) == Shift(PolyOf(a), k)
  {
    if k == 0 {
      assert Shift(PolyOf(a), 0) == PolyOf(a);
    } else {
      PolyShl(a, k - 1);
      MulDouble(a, Pow2(k - 1));
      PolyUnfold(2 * (a * Pow2(k - 1)));
      assert forall i: nat :: i in Shift(PolyOf(a), k) <==> i in Shift(Shift(PolyOf(a), k - 1), 1);
    }
  }

  // ---------- one shift-register step ----------

  const POLY: nat := 0x18005

  lemma Unfold(a: nat, p: Poly, q: Poly)
    requires PolyOf(a / 2) == p && q == Low(a % 2 == 1) + Shift(p, 1)
    ensures PolyOf(a) == q
  {
    PolyUnfold(a);
  }

  lemma PolyZero(a: nat)
    requires a == 0
    ensures PolyOf(a) == {}
  {
  }

  lemma GeneratorTop(three: nat)
    requires three == 3
    ensures PolyOf(three * 0x1000) == {12, 13}
  {
    PolyZero(three / 4);
    Pow2Values();
    hide PolyOf, Pow2, Shift;
    assert {} == Shift({}, 1) && {0} + Shift({0}, 1) == {0, 1} && Shift({0, 1}, 12) == {12, 13} by { SmallShifts(); }
    Unfold(three / 2, {}, {0});
    Unfold(three, {0}, {0, 1});
    PolyShl(three, 12);
  }

  lemma SmallShifts()
    ensures Shift({}, 1) == {} && Shift({0}, 1) == {1} && Shift({0, 1}, 12) == {12, 13}
  {
  }

  lemma GeneratorSteps()
    ensures {0} + Shift({12, 13}, 1) == {0, 13, 14} && Shift({0, 13, 14}, 1) == {1, 14, 15}
    ensures {0} + Shift({1, 14, 15}, 1) == {0, 2, 15, 16}
  {
  }

  lemma GeneratorAsMultiple()
    ensures TimesGen({0}) == {0, 2, 15, 16}
  {
  }

  lemma GeneratorWord(p: nat)
    requires p == POLY
    ensures PolyOf(p) == TimesGen({0})
    ensures Congruent(PolyOf(p), {})
  {
    hide PolyOf, Shift, TimesGen;
    GeneratorTop(p / 0x8000);
    GeneratorSteps();
    GeneratorAsMultiple();
    Unfold(p / 4, {12, 13}, {0, 13, 14});
    Unfold(p / 2, {0, 13, 14}, {1, 14, 15});
    Unfold(p, {1, 14, 15}, {0, 2, 15, 16});
    assert Add(PolyOf(p), {}) == TimesGen({0});
  }

  /** `d & (1 << 16) ? d ^ 0x18005 : d` for a doubled 16-bit word. */
  function ReduceTop(d: nat): nat { if d / 0x1_0000 % 2 == 1 then Xor(d, POLY) else d }

  lemma CongZeroAdd(a: Poly, g: Poly)
    requires Congruent(g, {})
    ensures Congruent(Add(a, g), a)
  {
    var q :| Add(g, {}) == TimesGen(q);
    assert Add(Add(a, g), a) == Add(g, {});
  }

  /** Bit 16 goes when the generator is added to a word that has it. */
  lemma TopCancels(d: nat)
    requires 16 in PolyOf(d) && forall i: nat :: i in PolyOf(d) ==> i < 17
    ensures forall i: nat :: i in PolyOf(Xor(d, POLY)) ==> i < 16
  {
    hide PolyOf, Xor;
    PolyXor(d, POLY);
    GeneratorWord(POLY);
  }

  lemma TopBitIn(d: nat)
    requires 0x1_0000 <= d < 0x2_0000
    ensures 16 in PolyOf(d) && forall i: nat :: i in PolyOf(d) ==> i < 17
  {
    Pow2Values();
    hide PolyOf, Pow2;
    PolyBound(d, 17);
    PolyBound(d, 16);
  }

  lemma WordBound(d: nat)
    requires forall i: nat :: i in PolyOf(d) ==> i < 16
    ensures d < 0x1_0000
  {
    Pow2Values();
    hide PolyOf, Pow2;
    PolyBound(d, 16);
  }

  /** A word below 2^17 loses bit 16 to the generator. */
  lemma ReduceBound(d: nat)
    requires d < 0x2_0000
    ensures ReduceTop(d) < 0x1_0000
  {
    hide PolyOf, Xor;
    if d >= 0x1_0000 {
      TopBitIn(d);
      TopCancels(d);
      WordBound(Xor(d, POLY));
    }
  }

  /** Doubling with reduction multiplies by x modulo the generator. */
  lemma TimesX(a: nat)
    ensures Congruent(PolyOf(ReduceTop(2 * a)), Shift(PolyOf(a), 1))
  {
    Pow2Values();
    hide Xor, PolyOf, Pow2, TimesGen, Congruent;
    PolyShl(a, 1);
    PolyXor(2 * a, POLY);
    GeneratorWord(POLY);
    CongZeroAdd(PolyOf(2 * a), PolyOf(POLY));
    Refl(PolyOf(2 * a));
  }

  // ---------- the CRC of a byte string ----------

  /** The message polynomial: the first bit sent is the highest coefficient. */
  function MsgPoly(data: seq<Byte>): Poly
  {
    if data == [] then {}
    else Add(Shift(MsgPoly(data[..|data| - 1]), 8), PolyOf(data[|data| - 1]))
  }

  /** r is the CRC of data: the remainder of M(x) * x^16 modulo the generator. */
  ghost predicate IsCrc(data: seq<Byte>, r: nat)
  {
    r < 0x1_0000 && Congruent(PolyOf(r), Shift(MsgPoly(data), 16))
  }

  /** No byte string has two CRCs. */
  lemma CrcUnique(data: seq<Byte>, r: nat, s: nat)
    requires IsCrc(data, r) && IsCrc(data, s)
    ensures r == s
  {
    Pow2Values();
    hide PolyOf, MsgPoly, Congruent, Shift, Pow2;
    Sym(PolyOf(s), Shift(MsgPoly(data), 16));
    Trans(PolyOf(r), Shift(MsgPoly(data), 16), PolyOf(s));
    PolyBound(r, 16);
    PolyBound(s, 16);
    assert forall i: nat :: i in PolyOf(r) || i in PolyOf(s) ==> i < 16;
    RemainderUnique(PolyOf(r), PolyOf(s));
    PolyInjective(r, s);
  }

  // ---------- crc_init_table ----------

  type Word16 = x: int | 0 <= x < 0x1_0000

  function Bswap16(x: Word16): Word16 { x / 256 + 256 * (x % 256) }

  function TableNext(crc: nat, p: nat): nat
  {
    if crc / 0x8000 % 2 == 1 then Xor(2 * crc, p) else 2 * crc
  }

  /** The register of the table generator after j of its 16 steps. */
  function TableRegister(i: nat, j: nat): nat
  {
    if j == 0 then i else TableNext(TableRegister(i, j - 1), 0x28005)
  }

  /** What the generator stores: the low half of the register, byte-swapped. */
  function TableValue(i: nat): Word16
  {
    Bswap16(TableRegister(i, 16) % 0x1_0000)
  }

  ghost predicate TableOk(t: seq<Word16>)
  {
    |t| == 256 && forall i :: 0 <= i < 256 ==> t[i] == TableValue(i)
  }

  method InitTable(bits: nat, poly: nat) returns (table: array<Word16>)
    requires bits == 16 && poly == POLY
    ensures fresh(table) && TableOk(table[..])
  {
    hide TableNext;
    table := new Word16[256];
    var p := poly + 0x1_0000;
    for i := 0 to 256
      invariant forall k :: 0 <= k < i ==> table[k] == TableValue(k)
    {
      var crc := i;
      for j := 0 to bits
        invariant crc == TableRegister(i, j)
      {
        crc := TableNext(crc, p);
      }
      table[i] := Bswap16(crc % 0x1_0000);
    }
  }

  lemma {:induction false} PolyLow(a: nat, k: nat)
    ensures forall i :: i in PolyOf(Mask(a, k)) <==> i in PolyOf(a) && i < k
    decreases k
  {
    PolyUnfold(a);
    PolyUnfold(Mask(a, k));
    if k > 0 {
      PolyLow(a / 2, k - 1);
      assert Mask(a, k) / 2 == Mask(a / 2, k - 1) && Mask(a, k) % 2 == a % 2;
    }
  }

  lemma Mask16(a: nat)
    ensures Mask(a, 16) == a % 0x1_0000
  {
    Pow2Values();
    hide Pow2, Mask, Shr, ShlOr;
    WordOps(0, a, 16);
    MaskBound(a, 16);
    RemainderIs(a, Shr(a, 16), Mask(a, 16));
  }

  lemma RemainderIs(a: nat, q: nat, r: nat)
    requires a == q * 0x1_0000 + r && r < 0x1_0000
    ensures r == a % 0x1_0000
  {
  }

  lemma PolyLow16(a: nat)
    ensures forall i :: i in PolyOf(a % 0x1_0000) <==> i in PolyOf(a) && i < 16
  {
    Mask16(a);
    PolyLow(a, 16);
  }

  /** The generator lets junk pile up above bit 15; the low 16 bits follow the 16-bit register. */
  lemma TableStep(crc: nat)
    ensures TableNext(crc, 0x28005) % 0x1_0000 == ReduceTop(2 * (crc % 0x1_0000))
  {
    hide Xor;
    var low := crc % 0x1_0000;
    TopBit(crc);
    ReduceBound(2 * low);
    if crc / 0x8000 % 2 == 1 {
      XorLow(2 * crc, 2 * low, 0x28005, 0x18005);
    }
  }

  lemma TopBit(crc: nat)
    ensures var low := crc % 0x1_0000;
      crc / 0x8000 % 2 == 2 * low / 0x1_0000 % 2 && (2 * crc) % 0x1_0000 == (2 * low) % 0x1_0000
    ensures 2 * (crc % 0x1_0000) < 0x1_0000 ==> (2 * crc) % 0x1_0000 == 2 * (crc % 0x1_0000)
  {
    var low, high := crc % 0x1_0000, crc / 0x1_0000;
    assert crc == 0x1_0000 * high + low;
    assert crc / 0x8000 == 2 * high + low / 0x8000;
  }

  lemma XorLow(a: nat, b: nat, p: nat, q: nat)
    requires a % 0x1_0000 == b % 0x1_0000 && p % 0x1_0000 == q % 0x1_0000 && Xor(b, q) < 0x1_0000
    ensures Xor(a, p) % 0x1_0000 == Xor(b, q)
  {
    hide PolyOf, Xor;
    PolyXor(a, p);
    PolyXor(b, q);
    PolyLow16(Xor(a, p));
    PolyLow16(Xor(b, q));
    PolyLow16(a);
    PolyLow16(b);
    PolyLow16(p);
    PolyLow16(q);
    assert forall i: nat :: i in PolyOf(Xor(a, p) % 0x1_0000) <==> i in PolyOf(Xor(b, q) % 0x1_0000);
    PolyInjective(Xor(a, p) % 0x1_0000, Xor(b, q) % 0x1_0000);
  }

  lemma {:induction false} RegisterMeaning(i: nat, j: nat)
    ensures Congruent(PolyOf(TableRegister(i, j) % 0x1_0000), Shift(PolyOf(i % 0x1_0000), j))
    decreases j
  {
    var p := PolyOf(i % 0x1_0000);
    if j == 0 {
      Refl(p);
      assert Shift(p, 0) == p;
    } else {
      var low := TableRegister(i, j - 1) % 0x1_0000;
      RegisterMeaning(i, j - 1);
      TableStep(TableRegister(i, j - 1));
      assert TableRegister(i, j) % 0x1_0000 == ReduceTop(2 * low);
      hide *;
      TimesX(low);
      CongShift(PolyOf(low), Shift(p, j - 1), 1);
      ShiftShift(p, j - 1, 1);
      Trans(PolyOf(ReduceTop(2 * low)), Shift(PolyOf(low), 1), Shift(p, j));
    }
  }

  /** Every table entry, byte-swapped back, is the remainder of i * x^16. */
  lemma EntryMeaning(i: nat)
    requires i < 256
    ensures Congruent(PolyOf(Bswap16(TableValue(i))), Shift(PolyOf(i), 16))
  {
    hide PolyOf, TableRegister;
    RegisterMeaning(i, 16);
    BswapTwice(TableRegister(i, 16) % 0x1_0000);
  }

  lemma BswapTwice(x: Word16)
    ensures Bswap16(Bswap16(x)) == x
  {
    var h, l := x / 256, x % 256;
    assert Bswap16(x) == h + 256 * l && 0 <= h < 256 && 0 <= l < 256;
  }

  // ---------- calc_crc16 ----------

  /** The polynomial of the register, whose bytes are kept swapped. */
  function Swapped(w: Word16): Poly { Add(Shift(PolyOf(w % 256), 8), PolyOf(w / 256)) }

  lemma SwappedIsBswap(w: Word16)
    ensures PolyOf(Bswap16(w)) == Swapped(w)
  {
    Concat8(w % 256, w / 256);
  }

  lemma {:induction false} PolyShlOr(b: nat, v: nat, k: nat)
    ensures PolyOf(ShlOr(b, v, k)) == Add(Shift(PolyOf(b), k), PolyOf(Mask(v, k)))
    decreases k
  {
    hide PolyOf;
    if k == 0 {
      PolyZero(0);
      assert Add(Shift(PolyOf(b), 0), {}) == PolyOf(b);
    } else {
      PolyShlOr(b, v / 2, k - 1);
      PolyUnfold(ShlOr(b, v, k));
      PolyUnfold(Mask(v, k));
      HalfWords(b, v, k);
      hide Mask, ShlOr, Add, Shift;
      ShlOrStep(v % 2 == 1, PolyOf(b), PolyOf(Mask(v / 2, k - 1)), k - 1);
    }
  }

  lemma HalfWords(b: nat, v: nat, k: nat)
    requires k > 0
    ensures ShlOr(b, v, k) / 2 == ShlOr(b, v / 2, k - 1) && ShlOr(b, v, k) % 2 == v % 2
    ensures Mask(v, k) / 2 == Mask(v / 2, k - 1) && Mask(v, k) % 2 == v % 2
  {
  }

  lemma ShlOrStep(x: bool, p: Poly, q: Poly, k: nat)
    ensures Add(Low(x), Shift(Add(Shift(p, k), q), 1)) == Add(Shift(p, k + 1), Add(Low(x), Shift(q, 1)))
  {
  }

  lemma Concat8(hi: nat, lo: nat)
    requires lo < 256
    ensures PolyOf(256 * hi + lo) == Add(Shift(PolyOf(hi), 8), PolyOf(lo))
  {
    Pow2Values();
    hide Pow2, PolyOf, Mask, ShlOr;
    WordOps(hi, lo, 8);
    MaskId(lo, 8);
    PolyShlOr(hi, lo, 8);
  }

  lemma {:induction false} XorParts(a: nat, b: nat, k: nat)
    ensures Mask(Xor(a, b), k) == Xor(Mask(a, k), Mask(b, k))
    ensures Shr(Xor(a, b), k) == Xor(Shr(a, k), Shr(b, k))
    decreases k
  {
    if k > 0 {
      XorUnfold(a, b);
      XorParts(a / 2, b / 2, k - 1);
    }
  }

  lemma Bytes8(a: nat)
    ensures Mask(a, 8) == a % 256 && Shr(a, 8) == a / 256
  {
    Pow2Values();
    hide Pow2, Mask, Shr;
    WordOps(0, a, 8);
    MaskBound(a, 8);
  }

  lemma XorBound(a: nat, b: nat, k: nat)
    requires a < Pow2(k) && b < Pow2(k)
    ensures Xor(a, b) < Pow2(k)
  {
    hide PolyOf, Xor, Pow2;
    PolyXor(a, b);
    PolyBound(a, k);
    PolyBound(b, k);
    PolyBound(Xor(a, b), k);
  }

  lemma XorBytes(a: nat, b: nat)
    requires a < 256 && b < 0x1_0000
    ensures Xor(a, b) < 0x1_0000
    ensures Xor(a, b) % 256 == Xor(a, b % 256) && Xor(a, b) / 256 == b / 256
  {
    Pow2Values();
    XorZero(b / 256);
    hide Pow2, Mask, Shr, Xor;
    XorBound(a, b, 16);
    XorParts(a, b, 8);
    Bytes8(Xor(a, b));
    Bytes8(a);
    Bytes8(b);
  }

  lemma {:induction false} XorZero(b: nat)
    ensures Xor(0, b) == b
  {
    if b > 0 { XorZero(b / 2); }
  }

  /** One byte of calc_crc16. */
  function CrcStep(w: Word16, d: Byte): Word16
  {
    XorBoundBytes(w % 256, d);
    var v2 := Xor(w % 256, d);
    XorBytes(w / 256, TableValue(v2));
    Xor(w / 256, TableValue(v2))
  }

  lemma XorBoundBytes(a: nat, b: nat)
    requires a < 256 && b < 256
    ensures Xor(a, b) < 256
  {
    Pow2Values();
    hide Pow2, Xor;
    XorBound(a, b, 8);
  }

  lemma StepMeaning(w: Word16, d: Byte, m: Poly)
    requires Congruent(Swapped(w), Shift(m, 16))
    ensures Congruent(Swapped(CrcStep(w, d)), Shift(Add(Shift(m, 8), PolyOf(d)), 16))
  {
    var v1, v2 := w / 256, Xor(w % 256, d);
    XorBoundBytes(w % 256, d);
    var t := TableValue(v2);
    XorBytes(v1, t);
    EntryMeaning(v2);
    SwappedIsBswap(t);
    PolyXor(v1, t % 256);
    PolyXor(w % 256, d);
    assert Swapped(CrcStep(w, d)) == Add(Shift(Add(PolyOf(v1), PolyOf(t % 256)), 8), PolyOf(t / 256));
    hide PolyOf, Congruent, TableValue, Bswap16, Xor, CrcStep;
    CongShift(Swapped(w), Shift(m, 16), 8);
    StepAlgebra(PolyOf(v1), PolyOf(w % 256), PolyOf(d), PolyOf(t % 256), PolyOf(t / 256), m);
    Refl(Shift(PolyOf(d), 16));
    Refl(Shift(PolyOf(v1), 8));
    CongAdd(Shift(Swapped(w), 8), Shift(Shift(m, 16), 8), Shift(PolyOf(d), 16), Shift(PolyOf(d), 16));
    CongAdd(Swapped(t), Shift(PolyOf(v2), 16), Shift(PolyOf(v1), 8), Shift(PolyOf(v1), 8));
    Trans(Swapped(CrcStep(w, d)), Add(Shift(Swapped(w), 8), Shift(PolyOf(d), 16)),
      Shift(Add(Shift(m, 8), PolyOf(d)), 16));
  }

  /** hi, lo: the register; d: the data byte; tl, th: the swapped table entry; m: the message so far. */
  lemma StepAlgebra(hi: Poly, lo: Poly, d: Poly, tl: Poly, th: Poly, m: Poly)
    ensures Add(Shift(Add(hi, tl), 8), th) == Add(Add(Shift(tl, 8), th), Shift(hi, 8))
    ensures Add(Shift(Add(lo, d), 16), Shift(hi, 8)) == Add(Shift(Add(Shift(lo, 8), hi), 8), Shift(d, 16))
    ensures Shift(Add(Shift(m, 8), d), 16) == Add(Shift(Shift(m, 16), 8), Shift(d, 16))
  {
  }

  /** The register after a byte string. */
  function CrcRegister(data: seq<Byte>): Word16
  {
    if data == [] then 0 else CrcStep(CrcRegister(data[..|data| - 1]), data[|data| - 1])
  }

  lemma {:induction false} RegisterIsRemainder(data: seq<Byte>)
    ensures Congruent(Swapped(CrcRegister(data)), Shift(MsgPoly(data), 16))
  {
    if data == [] {
      assert Swapped(0) == {} && Shift(MsgPoly(data), 16) == {};
      Refl({});
    } else {
      var n := |data| - 1;
      RegisterIsRemainder(data[..n]);
      StepMeaning(CrcRegister(data[..n]), data[n], MsgPoly(data[..n]));
    }
  }

  /** calc_crc16 over data[from .. from + len]. */
  method CalcCrc16(table: array<Word16>, data: array<Byte>, from: nat, len: nat) returns (crc: Word16)
    requires TableOk(table[..]) && from + len <= data.Length
    ensures IsCrc(data[from..from + len], crc)
  {
    hide *;
    var word: Word16 := 0;
    EmptyRegister(data[from..from]);
    for i := 0 to len
      invariant word == CrcRegister(data[from..from + i])
    {
      RegisterNext(data[..], from, from + i);
      word := CrcByte(table, word, data[from + i]);
    }
    RegisterIsCrc(data[from..from + len]);
    crc := Bswap16(word);
  }

  lemma RegisterNext(s: seq<Byte>, a: nat, b: nat)
    requires a <= b < |s|
    ensures CrcRegister(s[a..b + 1]) == CrcStep(CrcRegister(s[a..b]), s[b])
  {
    assert s[a..b + 1] == s[a..b] + [s[b]];
    RegisterPush(s[a..b], s[b]);
    hide CrcStep, CrcRegister;
  }

  /** The register, bytes swapped, is the CRC. */
  lemma RegisterIsCrc(s: seq<Byte>)
    ensures IsCrc(s, Bswap16(CrcRegister(s)))
  {
    RegisterIsRemainder(s);
    SwappedIsBswap(CrcRegister(s));
    hide Swapped, PolyOf, MsgPoly, CrcRegister;
  }

  method CrcByte(table: array<Word16>, w: Word16, d: Byte) returns (word: Word16)
    requires TableOk(table[..])
    ensures word == CrcStep(w, d)
  {
    var v1 := w / 256;
    XorBoundBytes(w % 256, d);
    var v2 := Xor(w % 256, d);
    assert table[v2] == table[..][v2];
    StepIs(w, d);
    hide CrcStep, Xor;
    XorBytes(v1, table[v2]);
    word := Xor(v1, table[v2]);
  }

  lemma EmptyRegister(s: seq<Byte>)
    requires s == []
    ensures CrcRegister(s) == 0
  {
  }

  lemma RegisterPush(s: seq<Byte>, d: Byte)
    ensures CrcRegister(s + [d]) == CrcStep(CrcRegister(s), d)
  {
    assert (s + [d])[..|s|] == s;
  }

  lemma StepIs(w: Word16, d: Byte)
    ensures CrcStep(w, d) == Xor(w / 256, TableValue(Xor(w % 256, d)))
  {
  }

  // ---------- mul_poly, pow_poly, crc16_zero ----------

  lemma {:induction false} ProductAdd(a: nat, b: Poly, c: Poly)
    ensures Product(a, Add(b, c)) == Add(Product(a, b), Product(a, c))
  {
    if a > 0 {
      ShiftAdd(b, c, 1);
      ProductAdd(a / 2, Shift(b, 1), Shift(c, 1));
      var o := a % 2 == 1;
      hide Product;
      SumSwap(if o then b else {}, Product(a / 2, Shift(b, 1)), if o then c else {}, Product(a / 2, Shift(c, 1)));
    }
  }

  lemma SumSwap(a: Poly, b: Poly, c: Poly, d: Poly)
    ensures Add(Add(a, c), Add(b, d)) == Add(Add(a, b), Add(c, d))
  {
  }

  lemma {:induction false} ProductShift(a: nat, b: Poly, k: nat)
    ensures Product(a, Shift(b, k)) == Shift(Product(a, b), k)
  {
    if a > 0 {
      assert Shift(Shift(b, k), 1) == Shift(Shift(b, 1), k);
      ProductShift(a / 2, Shift(b, 1), k);
      ShiftAdd(if a % 2 == 1 then b else {}, Product(a / 2, Shift(b, 1)), k);
    }
  }

  lemma {:induction false} ProductEmpty(a: nat)
    ensures Product(a, {}) == {}
  {
    if a > 0 {
      assert Shift({}, 1) == {};
      ProductEmpty(a / 2);
    }
  }

  lemma {:induction false} ProductOne(a: nat)
    ensures Product(a, {0}) == PolyOf(a)
  {
    if a > 0 {
      ProductShift(a / 2, {0}, 1);
      ProductOne(a / 2);
    }
  }

  /** The product of two words does not depend on which of them drives the loop. */
  lemma {:induction false} ProductCommutes(a: nat, b: nat)
    ensures Product(a, PolyOf(b)) == Product(b, PolyOf(a))
  {
    ProductEmpty(b);
    if a > 0 {
      ProductCommutes(a / 2, b);
      ProductShift(a / 2, PolyOf(b), 1);
      PolyUnfold(a);
      ProductAdd(b, Low(a % 2 == 1), Shift(PolyOf(a / 2), 1));
      ProductShift(b, PolyOf(a / 2), 1);
      ProductOne(b);
    }
  }

  lemma {:induction false} CongProduct(a: nat, b: Poly, c: Poly)
    requires Congruent(b, c)
    ensures Congruent(Product(a, b), Product(a, c))
  {
    Refl({});
    if a > 0 {
      CongShift(b, c, 1);
      CongProduct(a / 2, Shift(b, 1), Shift(c, 1));
      var o := a % 2 == 1;
      CongAdd(if o then b else {}, if o then c else {}, Product(a / 2, Shift(b, 1)), Product(a / 2, Shift(c, 1)));
    }
  }

  /** mul_poly: the product of two polynomials modulo the generator. */
  method MulPoly(x: Word16, y: Word16) returns (c: Word16)
    ensures Congruent(PolyOf(c), Product(x, PolyOf(y)))
  {
    var a, b: Word16 := x, y;
    c := 0;
    MulStart(x, y);
    hide PolyOf, Product, Xor, ReduceTop;
    while a != 0
      invariant a >= 0 && Congruent(Add(PolyOf(c), Product(a, PolyOf(b))), Product(x, PolyOf(y)))
      decreases a
    {
      ghost var c0 := c;
      MulStep(a, b, c, Product(x, PolyOf(y)));
      XorBound16(c, b);
      if a % 2 == 1 { c := Xor(c, b); }
      a := a / 2;
      ReduceBound(2 * b);
      b := ReduceTop(2 * b);
    }
    MulEnd(a, b, c);
  }

  lemma XorBound16(a: nat, b: nat)
    requires a < 0x1_0000 && b < 0x1_0000
    ensures Xor(a, b) < 0x1_0000
  {
    Pow2Values();
    hide Pow2, Xor;
    XorBound(a, b, 16);
  }

  lemma MulStart(x: nat, y: nat)
    ensures Congruent(Add(PolyOf(0), Product(x, PolyOf(y))), Product(x, PolyOf(y)))
  {
    assert Add({}, Product(x, PolyOf(y))) == Product(x, PolyOf(y));
    Refl(Product(x, PolyOf(y)));
  }

  lemma MulEnd(a: nat, b: nat, c: nat)
    requires a == 0
    ensures Add(PolyOf(c), Product(a, PolyOf(b))) == PolyOf(c)
  {
    assert Product(a, PolyOf(b)) == {};
  }

  lemma MulStep(a: nat, b: nat, c: nat, target: Poly)
    requires a > 0 && Congruent(Add(PolyOf(c), Product(a, PolyOf(b))), target)
    ensures Congruent(Add(PolyOf(if a % 2 == 1 then Xor(c, b) else c), Product(a / 2, PolyOf(ReduceTop(2 * b)))),
                      target)
  {
    var c' := if a % 2 == 1 then Xor(c, b) else c;
    var p, q := Product(a / 2, PolyOf(ReduceTop(2 * b))), Product(a / 2, Shift(PolyOf(b), 1));
    PolyXor(c, b);
    assert Product(a, PolyOf(b)) == Add(if a % 2 == 1 then PolyOf(b) else {}, q);
    assert Add(PolyOf(c'), q) == Add(PolyOf(c), Product(a, PolyOf(b)));
    hide PolyOf, Product, Xor, ReduceTop, Congruent;
    TimesX(b);
    CongProduct(a / 2, PolyOf(ReduceTop(2 * b)), Shift(PolyOf(b), 1));
    Refl(PolyOf(c'));
    CongAdd(PolyOf(c'), PolyOf(c'), p, q);
    Trans(Add(PolyOf(c'), p), Add(PolyOf(c'), q), target);
  }

  /** r is x^(-k) modulo the generator. */
  ghost predicate IsInverseOfX(r: nat, k: nat)
  {
    Congruent(Shift(PolyOf(r), k), {0})
  }

  lemma InverseProduct(r: nat, k: nat, a: nat, m: nat, c: nat)
    requires IsInverseOfX(r, k) && IsInverseOfX(a, m) && Congruent(PolyOf(c), Product(r, PolyOf(a)))
    ensures IsInverseOfX(c, k + m)
  {
    hide PolyOf, Product, Congruent, Shift;
    var p := Product(r, PolyOf(a));
    ProductShift(r, PolyOf(a), m);
    CongProduct(r, Shift(PolyOf(a), m), {0});
    ProductOne(r);
    CongShift(Shift(p, m), PolyOf(r), k);
    ShiftShift(p, m, k);
    CongShift(PolyOf(c), p, m + k);
    Trans(Shift(PolyOf(c), m + k), Shift(p, m + k), Shift(PolyOf(r), k));
    Trans(Shift(PolyOf(c), m + k), Shift(PolyOf(r), k), {0});
  }

  /** x^(-1): the generator without its constant term, divided by x. */
  lemma InverseOfXWord(a: nat)
    requires a == POLY / 2
    ensures IsInverseOfX(a, 1)
  {
    hide PolyOf;
    GeneratorWord(2 * a + 1);
    PolyUnfold(2 * a + 1);
    assert Add(Shift(PolyOf(a), 1), {0}) == TimesGen({0});
  }

  /** One round of pow_poly: r takes the current power if the bit is set, the power is squared. */
  method PowRound(k: nat, x: Word16, y: Word16, ghost e: nat, ghost m: nat) returns (r: Word16, a: Word16)
    requires IsInverseOfX(x, e) && IsInverseOfX(y, m)
    ensures IsInverseOfX(r, if k % 2 == 1 then e + m else e) && IsInverseOfX(a, m + m)
  {
    hide *;
    r := x;
    if k % 2 == 1 {
      r := MulPoly(x, y);
      InverseProduct(x, e, y, m, r);
    }
    a := MulPoly(y, y);
    InverseProduct(y, m, y, m, a);
  }

  /** The exponent still to be collected: e done, k squarings of x^(-m) to go. */
  function Total(e: nat, k: nat, m: nat): nat { e + k * m }

  lemma TotalEnds(e: nat, n: nat, m: nat)
    ensures Total(0, n, 1) == n && Total(e, 0, m) == e
  {
  }

  lemma Halve(e: nat, k: nat, m: nat)
    ensures Total(e, k, m) == Total(if k % 2 == 1 then e + m else e, k / 2, m + m)
  {
    assert k == 2 * (k / 2) + k % 2;
    assert (2 * (k / 2)) * m == (k / 2) * (m + m);
  }

  /** pow_poly: x^(-n) by repeated squaring. */
  method PowPoly(n: nat) returns (r: Word16)
    ensures IsInverseOfX(r, n)
  {
    hide IsInverseOfX, Total;
    PowStart();
    var a: Word16 := POLY / 2;
    var k := n;
    r := 1;
    ghost var e: nat, m: nat := 0, 1;
    TotalEnds(0, n, 0);
    while k != 0
      invariant IsInverseOfX(r, e) && IsInverseOfX(a, m) && k >= 0 && Total(e, k, m) == n
      decreases k
    {
      Halve(e, k, m);
      r, a := PowRound(k, r, a, e, m);
      e, m := if k % 2 == 1 then e + m else e, m + m;
      k := k / 2;
    }
    TotalEnds(e, 0, m);
  }

  lemma PowStart()
    ensures IsInverseOfX(1, 0) && IsInverseOfX(POLY / 2, 1)
  {
    InverseOfXWord(POLY / 2);
    PolyZero(0);
    PolyUnfold(1);
    assert Shift({0}, 0) == {0};
    Refl({0});
  }

  /** crc16_zero: the two front bytes that cancel a given CRC `size - 2` bytes later. */
  method Crc16Zero(crc: Word16, size: nat) returns (z: Word16)
    ensures Congruent(Shift(PolyOf(z), 8 * size), PolyOf(crc))
  {
    var inv := PowPoly(size * 8);
    z := MulPoly(inv, crc);
    hide PolyOf, Product, Congruent, Shift;
    var p := Product(inv, PolyOf(crc));
    ProductCommutes(inv, crc);
    ProductShift(crc, PolyOf(inv), 8 * size);
    CongProduct(crc, Shift(PolyOf(inv), 8 * size), {0});
    ProductOne(crc);
    CongShift(PolyOf(z), p, 8 * size);
    Trans(Shift(PolyOf(z), 8 * size), Shift(p, 8 * size), PolyOf(crc));
  }

  // ---------- CRCs of assembled byte strings ----------

  lemma MsgPolyPush(a: seq<Byte>, d: Byte)
    ensures MsgPoly(a + [d]) == Add(Shift(MsgPoly(a), 8), PolyOf(d))
  {
    assert (a + [d])[..|a|] == a;
  }

  lemma {:induction false} MsgPolyConcat(a: seq<Byte>, b: seq<Byte>)
    ensures MsgPoly(a + b) == Add(Shift(MsgPoly(a), 8 * |b|), MsgPoly(b))
    decreases |b|
  {
    if b == [] {
      assert a + b == a;
      assert Add(Shift(MsgPoly(a), 0), {}) == MsgPoly(a);
    } else {
      var n := |b| - 1;
      MsgPolyConcat(a, b[..n]);
      MsgPolyPush(a + b[..n], b[n]);
      MsgPolyPush(b[..n], b[n]);
      assert a + b == (a + b[..n]) + [b[n]] && b == b[..n] + [b[n]];
      hide *;
      ConcatStep(MsgPoly(a), MsgPoly(b[..n]), PolyOf(b[n]), 8 * n);
    }
  }

  lemma ConcatStep(a: Poly, b: Poly, d: Poly, k: nat)
    ensures Add(Shift(Add(Shift(a, k), b), 8), d) == Add(Shift(a, k + 8), Add(Shift(b, 8), d))
  {
  }

  function BigEndian16(c: Word16): (s: seq<Byte>) { [c / 256, c % 256] }

  lemma MsgPolyWord(c: Word16)
    ensures MsgPoly(BigEndian16(c)) == PolyOf(c)
  {
    hide MsgPoly, PolyOf;
    var s := BigEndian16(c);
    assert s == [c / 256] + [c % 256] && [c / 256] == [] + [c / 256];
    MsgPolyPush([], c / 256);
    MsgPolyPush([c / 256], c % 256);
    NoMessage(PolyOf(c / 256));
    Concat8(c / 256, c % 256);
  }

  lemma NoMessage(p: Poly)
    ensures MsgPoly([]) == {} && Add(Shift({}, 8), p) == p
  {
  }

  /** z: the front word; c: the CRC of the rest, whose message polynomial m is n bits long. */
  lemma FrontAlgebra(z: Poly, c: Poly, m: Poly, n: nat)
    requires Congruent(Shift(z, n + 16), c) && Congruent(c, Shift(m, 16))
    ensures Congruent({}, Shift(Add(Shift(z, n), m), 16))
  {
    hide Congruent;
    ShiftAdd(Shift(z, n), m, 16);
    ShiftShift(z, n, 16);
    CongAdd(Shift(z, n + 16), c, c, Shift(m, 16));
    Cancel(Shift(z, n + 16), c, Shift(m, 16));
  }

  /** The CRC at the front: prefixing data with what crc16_zero computes gives CRC zero. */
  lemma FrontCrc(data: seq<Byte>, crc: Word16, z: Word16)
    requires IsCrc(data, crc)
    requires Congruent(Shift(PolyOf(z), 8 * (|data| + 2)), PolyOf(crc))
    ensures IsCrc(BigEndian16(z) + data, 0)
  {
    PolyZero(0);
    hide PolyOf, MsgPoly, Congruent, BigEndian16;
    MsgPolyConcat(BigEndian16(z), data);
    MsgPolyWord(z);
    FrontAlgebra(PolyOf(z), PolyOf(crc), MsgPoly(data), 8 * |data|);
  }

  lemma Cancel(a: Poly, c: Poly, b: Poly)
    requires Congruent(Add(a, c), Add(c, b))
    ensures Congruent({}, Add(a, b))
  {
    assert Add(Add(a, c), Add(c, b)) == Add({}, Add(a, b));
  }

  /** The CRC at the end: appending a byte string's own CRC gives CRC zero. */
  lemma BackCrc(data: seq<Byte>, crc: Word16)
    requires IsCrc(data, crc)
    ensures IsCrc(data + BigEndian16(crc), 0)
  {
    var m := MsgPoly(data);
    MsgPolyConcat(data, BigEndian16(crc));
    MsgPolyWord(crc);
    PolyZero(0);
    hide PolyOf, MsgPoly, Congruent;
    Sym(PolyOf(crc), Shift(m, 16));
    CongShift(PolyOf(crc), Shift(m, 16), 16);
    ShiftAdd(Shift(m, 16), PolyOf(crc), 16);
    Refl(Shift(PolyOf(crc), 16));
    CongAdd(Shift(PolyOf(crc), 16), Shift(Shift(m, 16), 16), Shift(PolyOf(crc), 16), Shift(PolyOf(crc), 16));
    assert Add(Shift(PolyOf(crc), 16), Shift(PolyOf(crc), 16)) == {};
  }

  /** A prefix with CRC zero does not change the CRC of what follows. */
  lemma ZeroPrefix(a: seq<Byte>, b: seq<Byte>, crc: Word16)
    requires IsCrc(a, 0) && IsCrc(b, crc)
    ensures IsCrc(a + b, crc)
  {
    MsgPolyConcat(a, b);
    PolyZero(0);
    hide PolyOf, MsgPoly, Congruent;
    var m, n := MsgPoly(a), MsgPoly(b);
    CongShift({}, Shift(m, 16), 8 * |b|);
    assert Shift({}, 8 * |b|) == {};
    assert Shift(Shift(m, 16), 8 * |b|) == Shift(Shift(m, 8 * |b|), 16);
    ShiftAdd(Shift(m, 8 * |b|), n, 16);
    CongAdd({}, Shift(Shift(m, 8 * |b|), 16), PolyOf(crc), Shift(n, 16));
    assert Add({}, PolyOf(crc)) == PolyOf(crc);
  }
}
