/** What the mantissas of a block cost (bitalloc.c:57-91), and how far that cost can fail to be monotone. */
module MantissaCost {
  import opened BitStrings

  /** Bits of a mantissa that is not grouped; none for the grouped pointers 1, 2, 4 and the counted pointer 3. */
  function WideBits(b: nat): nat
  {
    if b <= 4 then 0 else if b <= 13 then b - 1 else 14 + 2 * (b - 14)
  }

  function Wide(row: seq<nat>): nat
  {
    if row == [] then 0 else Wide(row[..|row| - 1]) + WideBits(row[|row| - 1])
  }

  function Count(row: seq<nat>, b: nat): nat
  {
    if row == [] then 0 else Count(row[..|row| - 1], b) + (if row[|row| - 1] == b then 1 else 0)
  }

  /** All entries of a block, channel after channel. */
  function Flat<T>(rows: seq<seq<T>>): seq<T>
  {
    if rows == [] then [] else Flat(rows[..|rows| - 1]) + rows[|rows| - 1]
  }

  /** Grouped mantissas are paid for in whole groups: 3 in 5 bits, 3 in 7, 2 in 7; pointer 3 costs 3 bits. */
  function GroupedBits(n1: nat, n2: nat, n3: nat, n4: nat): nat
  {
    (n1 + 2) / 3 * 5 + ((n2 + 2) / 3 + (n4 + 1) / 2) * 7 + n3 * 3
  }

  /** Mantissa bits of a block given all its pointers. */
  function BlockBits(row: seq<nat>): nat
  {
    Wide(row) + GroupedBits(Count(row, 1), Count(row, 2), Count(row, 3), Count(row, 4))
  }

  lemma {:induction false} CountConcat(a: seq<nat>, c: seq<nat>, b: nat)
    ensures Count(a + c, b) == Count(a, b) + Count(c, b)
    decreases |c|
  {
    if c == [] {
      assert a + c == a;
    } else {
      assert (a + c)[..|a| + |c| - 1] == a + c[..|c| - 1];
      CountConcat(a, c[..|c| - 1], b);
    }
  }

  lemma {:induction false} WideConcat(a: seq<nat>, c: seq<nat>)
    ensures Wide(a + c) == Wide(a) + Wide(c)
    decreases |c|
  {
    if c == [] {
      assert a + c == a;
    } else {
      assert (a + c)[..|a| + |c| - 1] == a + c[..|c| - 1];
      WideConcat(a, c[..|c| - 1]);
    }
  }

  // ---------- bounded non-monotonicity ----------

  /** Six times the exact cost of a mantissa, with 5/3, 7/3 and 7/2 bits for the grouped ones: increasing in b. */
  function Exact6Of(b: nat): nat
  {
    if b == 0 then 0 else if b == 1 then 10 else if b == 2 then 14 else if b == 3 then 18 else if b == 4 then 21
    else 6 * WideBits(b)
  }

  function Exact6(row: seq<nat>): nat
  {
    if row == [] then 0 else Exact6(row[..|row| - 1]) + Exact6Of(row[|row| - 1])
  }

  lemma {:induction false} Exact6Counts(row: seq<nat>)
    ensures Exact6(row) ==
      6 * Wide(row) + 10 * Count(row, 1) + 14 * Count(row, 2) + 18 * Count(row, 3) + 21 * Count(row, 4)
  {
    if row != [] { Exact6Counts(row[..|row| - 1]); }
  }

  /** Rounding up to whole groups costs at most 69/6 bits per block. */
  lemma GroupingOverhead(row: seq<nat>)
    ensures Exact6(row) <= 6 * BlockBits(row) <= Exact6(row) + 69
  {
    Exact6Counts(row);
    var n1, n2, n4 := Count(row, 1), Count(row, 2), Count(row, 4);
    assert 10 * n1 <= 30 * ((n1 + 2) / 3) <= 10 * n1 + 20;
    assert 14 * n2 <= 42 * ((n2 + 2) / 3) <= 14 * n2 + 28;
    assert 21 * n4 <= 42 * ((n4 + 1) / 2) <= 21 * n4 + 21;
  }

  ghost predicate Pointwise(a: seq<nat>, b: seq<nat>)
  {
    |a| == |b| && forall k :: 0 <= k < |a| ==> a[k] <= b[k]
  }

  lemma {:induction false} Exact6Monotone(a: seq<nat>, b: seq<nat>)
    requires Pointwise(a, b)
    ensures Exact6(a) <= Exact6(b)
  {
    if a != [] {
      var n := |a| - 1;
      assert Exact6Of(a[n]) <= Exact6Of(b[n]);
      Exact6Monotone(a[..n], b[..n]);
    }
  }

  /** Raising pointers can lower a block's cost, but by no more than 11 bits. */
  lemma BlockBitsAlmostMonotone(a: seq<nat>, b: seq<nat>)
    requires Pointwise(a, b)
    ensures BlockBits(a) <= BlockBits(b) + 11
  {
    Exact6Monotone(a, b);
    GroupingOverhead(a);
    GroupingOverhead(b);
  }

  lemma {:induction false} NothingCounted(row: seq<nat>, b: nat)
    requires b >= 1 && forall k :: 0 <= k < |row| ==> row[k] == 0
    ensures Wide(row) == 0 && Count(row, b) == 0
  {
    if row != [] { NothingCounted(row[..|row| - 1], b); }
  }

  lemma BlockBitsOfZeros(row: seq<nat>)
    requires forall k :: 0 <= k < |row| ==> row[k] == 0
    ensures BlockBits(row) == 0
  {
    NothingCounted(row, 1);
    NothingCounted(row, 2);
    NothingCounted(row, 3);
    NothingCounted(row, 4);
  }

  // ---------- compute_mantissa_size ----------

  /** Adds a channel's pointers to the running counts; returns the bits of its ungrouped mantissas. */
  method ComputeMantissaSize(mantCnt: array<nat>, bap: seq<Byte>, ncoefs: nat) returns (bits: nat)
    requires mantCnt.Length == 5 && ncoefs <= |bap|
    modifies mantCnt
    ensures forall b :: 0 <= b < 5 ==> mantCnt[b] == old(mantCnt[b]) + Count(bap[..ncoefs], b)
    ensures bits == Wide(bap[..ncoefs])
  {
    bits := 0;
    for i := 0 to ncoefs
      invariant forall b :: 0 <= b < 5 ==> mantCnt[b] == old(mantCnt[b]) + Count(bap[..i], b)
      invariant bits == Wide(bap[..i])
    {
      assert bap[..i + 1][..i] == bap[..i];
      var b: nat := bap[i];
      if b <= 4 {
        mantCnt[b] := mantCnt[b] + 1;
      } else if b <= 13 {
        bits := bits + (b - 1);
      } else {
        bits := bits + 14 + (b - 14) * 2;
      }
    }
  }

  method ComputeMantissaSizeFinal(mantCnt: array<nat>) returns (bits: nat)
    requires mantCnt.Length == 5
    ensures bits == mantCnt[1] / 3 * 5 + (mantCnt[2] / 3 + mantCnt[4] / 2) * 7 + mantCnt[3] * 3
  {
    bits := (mantCnt[1] / 3) * 5;
    bits := bits + ((mantCnt[2] / 3) + mantCnt[4] / 2) * 7;
    bits := bits + mantCnt[3] * 3;
  }
}
