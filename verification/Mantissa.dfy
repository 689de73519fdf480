/** Grouped mantissas of one block (a52enc.c:735-827): codes built up through a pointer that may lie in an earlier
    channel, and the decoder of section 7.3.5 of ATSC A/52 that takes them apart again. */
module Mantissa {
  import opened Arithmetic
  import opened BitStrings
  import opened MantissaCost
  import opened Quantize

  /** One mantissa: its bit allocation pointer and its quantised value. */
  datatype Item = Item(b: nat, v: int)

  ghost predicate AllInRange(items: seq<Item>)
  {
    forall i :: 0 <= i < |items| ==> InRange(items[i].b, items[i].v)
  }

  function Pointers(items: seq<Item>): (r: seq<nat>)
    ensures |r| == |items|
  {
    seq(|items|, i requires 0 <= i < |items| => items[i].b)
  }

  function Values(items: seq<Item>): (r: seq<int>)
    ensures |r| == |items|
  {
    seq(|items|, i requires 0 <= i < |items| => items[i].v)
  }

  predicate Grouped(b: nat) { b == 1 || b == 2 || b == 4 }

  /** Mantissas per group. */
  function GroupLen(b: nat): nat { if b == 4 then 2 else 3 }

  /** Bits per group code. */
  function CodeBits(b: nat): nat { if b == 1 then 5 else 7 }

  /** What the member at position j of a group contributes to its code, per unit. */
  function Weight(b: nat, j: nat): nat
  {
    if b == 1 then (if j == 0 then 9 else if j == 1 then 3 else 1)
    else if b == 2 then (if j == 0 then 25 else if j == 1 then 5 else 1)
    else if j == 0 then 11 else 1
  }

  function Pack(b: nat, d: seq<int>): int
    requires |d| == GroupLen(b)
  {
    if b == 4 then Weight(b, 0) * d[0] + Weight(b, 1) * d[1]
    else Weight(b, 0) * d[0] + Weight(b, 1) * d[1] + Weight(b, 2) * d[2]
  }

  /** The values of the next k mantissas with pointer b; zeros where there are none left. */
  function Next(items: seq<Item>, b: nat, k: nat): (r: seq<int>)
    ensures |r| == k
  {
    if k == 0 then []
    else if items == [] then seq(k, _ => 0)
    else if items[0].b == b then [items[0].v] + Next(items[1..], b, k - 1)
    else Next(items[1..], b, k)
  }

  function Cnt(items: seq<Item>, b: nat): nat
  {
    Count(Pointers(items), b)
  }

  predicate Leader(items: seq<Item>, i: nat)
    requires i < |items|
  {
    Cnt(items[..i], items[i].b) % GroupLen(items[i].b) == 0
  }

  /** The 16-bit word quant_mant_ch leaves at position i of a block. */
  function CodeAt(items: seq<Item>, i: nat): int
    requires i < |items|
  {
    var b := items[i].b;
    if !Grouped(b) then items[i].v % 0x1_0000
    else if Leader(items, i) then Pack(b, Next(items[i..], b, GroupLen(b)))
    else 128
  }

  function Codes(items: seq<Item>): (r: seq<int>)
    ensures |r| == |items|
  {
    seq(|items|, i requires 0 <= i < |items| => CodeAt(items, i))
  }

  // ---------- counting ----------

  lemma CntConcat(s: seq<Item>, t: seq<Item>, b: nat)
    ensures Cnt(s + t, b) == Cnt(s, b) + Cnt(t, b)
  {
    assert Pointers(s + t) == Pointers(s) + Pointers(t);
    CountConcat(Pointers(s), Pointers(t), b);
  }

  lemma CntOne(x: Item, b: nat)
    ensures Cnt([x], b) == if x.b == b then 1 else 0
  {
    assert Pointers([x]) == [] + [x.b];
    CountConcat([], [x.b], b);
  }

  lemma CntSnoc(s: seq<Item>, x: Item, b: nat)
    ensures Cnt(s + [x], b) == Cnt(s, b) + (if x.b == b then 1 else 0)
  {
    CntConcat(s, [x], b);
    CntOne(x, b);
  }

  lemma CntAt(items: seq<Item>, i: nat, b: nat)
    requires i < |items|
    ensures Cnt(items[..i + 1], b) == Cnt(items[..i], b) + (if items[i].b == b then 1 else 0)
    ensures Cnt(items[i..], b) == (if items[i].b == b then 1 else 0) + Cnt(items[i + 1..], b)
    ensures Cnt(items, b) == Cnt(items[..i], b) + Cnt(items[i..], b)
  {
    hide Cnt;
    assert items[..i + 1] == items[..i] + [items[i]];
    CntSnoc(items[..i], items[i], b);
    assert items[i..] == [items[i]] + items[i + 1..];
    CntConcat([items[i]], items[i + 1..], b);
    CntOne(items[i], b);
    assert items == items[..i] + items[i..];
    CntConcat(items[..i], items[i..], b);
  }

  lemma CntUpTo(items: seq<Item>, i: nat, j: nat, b: nat)
    requires i <= j <= |items|
    ensures Cnt(items[..i], b) <= Cnt(items[..j], b)
  {
    hide Cnt;
    assert items[..j] == items[..i] + items[i..j];
    CntConcat(items[..i], items[i..j], b);
  }

  lemma {:induction false} NextPad(items: seq<Item>, b: nat, k: nat, j: nat)
    requires Cnt(items, b) <= j < k
    ensures Next(items, b, k)[j] == 0
  {
    if items != [] {
      CntAt(items, 0, b);
      assert items[0..] == items;
      NextPad(items[1..], b, if items[0].b == b then k - 1 else k, if items[0].b == b then j - 1 else j);
    }
  }

  lemma {:induction false} NextAppend(items: seq<Item>, x: Item, b: nat, k: nat)
    ensures Cnt(items, b) < k && x.b == b ==> Next(items + [x], b, k) == Next(items, b, k)[Cnt(items, b) := x.v]
    ensures Cnt(items, b) >= k || x.b != b ==> Next(items + [x], b, k) == Next(items, b, k)
  {
    if k == 0 {
    } else if items == [] {
      assert [] + [x] == [x] && [x][1..] == [];
      assert Next([], b, k) == seq(k, _ => 0) && Next([], b, k - 1) == seq(k - 1, _ => 0);
      assert Cnt([], b) == 0;
      assert [x.v] + seq(k - 1, _ => 0) == seq(k, _ => 0)[0 := x.v];
    } else {
      CntAt(items, 0, b);
      assert items[0..] == items;
      assert (items + [x])[1..] == items[1..] + [x];
      var same := items[0].b == b;
      NextAppend(items[1..], x, b, if same then k - 1 else k);
      hide Cnt;
      if same && x.b == b && Cnt(items, b) < k {
        var n, tail := Cnt(items[1..], b), Next(items[1..], b, k - 1);
        assert [items[0].v] + tail[n := x.v] == ([items[0].v] + tail)[n + 1 := x.v];
      }
    }
  }

  lemma PackUpdate(b: nat, d: seq<int>, j: nat, v: int)
    requires Grouped(b) && |d| == GroupLen(b) && j < |d| && d[j] == 0
    ensures Pack(b, d[j := v]) == Pack(b, d) + Weight(b, j) * v
  {
  }

  // ---------- one mantissa more ----------

  /** Position p holds the leader of the last, incomplete group of pointer b. */
  ghost predicate OpenAt(items: seq<Item>, b: nat, p: nat)
  {
    p < |items| && items[p].b == b && Leader(items, p) && 0 < Cnt(items[p..], b) < GroupLen(b)
  }

  /** A group that is not complete can only be the open one. */
  lemma OpenLeader(items: seq<Item>, b: nat, i: nat)
    requires Grouped(b) && i < |items| && items[i].b == b && Leader(items, i) && Cnt(items[i..], b) < GroupLen(b)
    ensures OpenAt(items, b, i) && Cnt(items, b) % GroupLen(b) == Cnt(items[i..], b)
  {
    CntAt(items, i, b);
    hide Cnt;
    var m, n := GroupLen(b), Cnt(items[..i], b);
    assert n % m == 0 && (n + Cnt(items[i..], b)) % m == Cnt(items[i..], b);
  }

  lemma OpenUnique(items: seq<Item>, b: nat, p: nat, q: nat)
    requires Grouped(b) && OpenAt(items, b, p) && OpenAt(items, b, q)
    ensures p == q
  {
    OpenLeader(items, b, p);
    OpenLeader(items, b, q);
    CntAt(items, p, b);
    CntAt(items, q, b);
    hide Cnt;
    if p < q { CntUpTo(items, p + 1, q, b); }
    if q < p { CntUpTo(items, q + 1, p, b); }
  }

  /** What value v at position n of its group adds to the group's code. */
  function ShareAt(b: nat, n: nat, v: int): int
  {
    Weight(b, n) * v
  }

  function Share(items: seq<Item>, x: Item): int
  {
    ShareAt(x.b, Cnt(items, x.b) % GroupLen(x.b), x.v)
  }

  lemma PrefixesSame(items: seq<Item>, x: Item, i: nat)
    requires i < |items|
    ensures (items + [x])[..i] == items[..i] && (items + [x])[i..] == items[i..] + [x] && (items + [x])[i] == items[i]
    ensures Leader(items + [x], i) == Leader(items, i)
  {
    assert (items + [x])[..i] == items[..i];
  }

  /** Earlier words change only at the open leader of x's own kind, by x's weighted value. */
  lemma CodeAtPush(items: seq<Item>, x: Item, i: nat)
    requires i < |items|
    ensures CodeAt(items + [x], i) ==
      if Grouped(x.b) && OpenAt(items, x.b, i) then
        CodeAt(items, i) + Share(items, x)
      else CodeAt(items, i)
  {
    PrefixesSame(items, x, i);
    var b, s := items[i].b, items[i..];
    hide Cnt, Leader, Next, Pack, Weight;
    if Grouped(b) && Leader(items, i) {
      var m := GroupLen(b);
      NextAppend(s, x, b, m);
      if Cnt(s, b) < m {
        OpenLeader(items, b, i);
        if x.b == b {
          NextPad(s, b, m, Cnt(s, b));
          PackUpdate(b, Next(s, b, m), Cnt(s, b), x.v);
        }
      }
    }
  }

  /** The word the new mantissa itself gets. */
  function NewWord(items: seq<Item>, x: Item): int
  {
    if !Grouped(x.b) then x.v % 0x1_0000
    else if Cnt(items, x.b) % GroupLen(x.b) == 0 then ShareAt(x.b, 0, x.v)
    else 128
  }

  lemma LastWord(items: seq<Item>, x: Item)
    ensures CodeAt(items + [x], |items|) == NewWord(items, x)
  {
    assert (items + [x])[..|items|] == items && (items + [x])[|items|..] == [x] && [x][1..] == [];
    if Grouped(x.b) {
      var d := Next([x], x.b, GroupLen(x.b));
      assert d == [x.v] + Next([], x.b, GroupLen(x.b) - 1);
    }
  }

  lemma CodesPush(items: seq<Item>, x: Item)
    requires Grouped(x.b) ==> Cnt(items, x.b) % GroupLen(x.b) == 0
    ensures Codes(items + [x]) == Codes(items) + [NewWord(items, x)]
  {
    LastWord(items, x);
    hide Cnt, NewWord, Leader, CodeAt;
    forall i | 0 <= i < |items|
      ensures CodeAt(items + [x], i) == CodeAt(items, i)
    {
      CodeAtPush(items, x, i);
      if Grouped(x.b) && OpenAt(items, x.b, i) { OpenLeader(items, x.b, i); }
    }
  }

  lemma CodesJoin(items: seq<Item>, x: Item, p: nat)
    requires Grouped(x.b) && OpenAt(items, x.b, p)
    ensures Cnt(items, x.b) % GroupLen(x.b) != 0
    ensures Codes(items + [x]) ==
      Codes(items)[p := Codes(items)[p] + Share(items, x)] + [128]
  {
    OpenLeader(items, x.b, p);
    LastWord(items, x);
    hide Cnt, Leader, CodeAt, Share;
    forall i | 0 <= i < |items|
      ensures CodeAt(items + [x], i) ==
        if i == p then CodeAt(items, i) + Share(items, x) else CodeAt(items, i)
    {
      CodeAtPush(items, x, i);
      if OpenAt(items, x.b, i) { OpenUnique(items, x.b, i, p); }
    }
  }

  /** How the open groups move on. */
  lemma OpenPush(items: seq<Item>, x: Item, b: nat)
    requires Grouped(b)
    ensures x.b == b && Cnt(items, b) % GroupLen(b) == 0 ==> OpenAt(items + [x], b, |items|)
    ensures forall p: nat :: OpenAt(items, b, p) && (x.b != b || Cnt(items, b) % GroupLen(b) + 1 < GroupLen(b)) ==>
      OpenAt(items + [x], b, p)
    ensures Cnt(items + [x], b) % GroupLen(b) == (Cnt(items, b) + (if x.b == b then 1 else 0)) % GroupLen(b)
  {
    CntSnoc(items, x, b);
    assert (items + [x])[..|items|] == items && (items + [x])[|items|..] == [x];
    CntOne(x, b);
    hide Cnt;
    forall p: nat | OpenAt(items, b, p) && (x.b != b || Cnt(items, b) % GroupLen(b) + 1 < GroupLen(b))
      ensures OpenAt(items + [x], b, p)
    {
      OpenLeader(items, b, p);
      PrefixesSame(items, x, p);
      CntSnoc(items[p..], x, b);
    }
  }

  // ---------- the words stay small: no code is ever 128 ----------

  lemma {:induction false} NextInRange(items: seq<Item>, b: nat, k: nat)
    requires AllInRange(items) && 1 <= b <= 5
    ensures forall j :: 0 <= j < k ==> 0 <= Next(items, b, k)[j] < Levels(b)
  {
    if k > 0 && items != [] {
      assert InRange(items[0].b, items[0].v);
      NextInRange(items[1..], b, if items[0].b == b then k - 1 else k);
    }
  }

  /** Group codes are at most 26, 124 and 120. */
  lemma PackRange(b: nat, d: seq<int>)
    requires Grouped(b) && |d| == GroupLen(b) && forall j :: 0 <= j < |d| ==> 0 <= d[j] < Levels(b)
    ensures 0 <= Pack(b, d) <= if b == 1 then 26 else if b == 2 then 124 else 120
  {
    assert 0 <= d[0] < Levels(b) && 0 <= d[1] < Levels(b);
    if b != 4 { assert 0 <= d[2] < Levels(b); }
  }

  lemma CodeAtRange(items: seq<Item>, i: nat)
    requires AllInRange(items) && i < |items|
    ensures 0 <= CodeAt(items, i) < 0x1_0000
    ensures Grouped(items[i].b) ==> (CodeAt(items, i) == 128 <==> !Leader(items, i)) && CodeAt(items, i) <= 128
  {
    var b := items[i].b;
    hide Next, Leader, Pack;
    if Grouped(b) {
      NextInRange(items[i..], b, GroupLen(b));
      PackRange(b, Next(items[i..], b, GroupLen(b)));
    }
  }

  // ---------- emission ----------

  /** Bits of an ungrouped mantissa. */
  function Width(b: nat): nat
  {
    if b == 0 || Grouped(b) then 0 else if b == 3 then 3 else WideBits(b)
  }

  /** What output_audio_blocks writes for pointer b and word q. */
  function Written(b: nat, q: nat): seq<bool>
  {
    if Grouped(b) then (if q != 128 then Bits(q, CodeBits(b)) else []) else Bits(q, Width(b))
  }

  function Emitted(items: seq<Item>, i: nat): seq<bool>
    requires AllInRange(items) && i < |items|
  {
    CodeAtRange(items, i);
    Written(items[i].b, CodeAt(items, i))
  }

  /** The mantissa bits of the first n mantissas. */
  function EmittedTo(items: seq<Item>, n: nat): seq<bool>
    requires AllInRange(items) && n <= |items|
  {
    if n == 0 then [] else EmittedTo(items, n - 1) + Emitted(items, n - 1)
  }

  function EmittedFrom(items: seq<Item>, n: nat): seq<bool>
    requires AllInRange(items) && n <= |items|
    decreases |items| - n
  {
    if n == |items| then [] else Emitted(items, n) + EmittedFrom(items, n + 1)
  }

  lemma {:induction false} EmittedSplit(items: seq<Item>, n: nat)
    requires AllInRange(items) && n <= |items|
    ensures EmittedTo(items, n) + EmittedFrom(items, n) == EmittedFrom(items, 0)
  {
    hide Emitted, AllInRange;
    if n > 0 {
      EmittedSplit(items, n - 1);
      assert EmittedTo(items, n) + EmittedFrom(items, n) ==
        EmittedTo(items, n - 1) + (Emitted(items, n - 1) + EmittedFrom(items, n));
    }
  }

  lemma EmittedLength(items: seq<Item>, i: nat)
    requires AllInRange(items) && i < |items|
    ensures var b := items[i].b;
      |Emitted(items, i)| == if Grouped(b) then (if Leader(items, i) then CodeBits(b) else 0) else Width(b)
  {
    CodeAtRange(items, i);
    hide Leader, CodeAt;
  }

  lemma GroupedStep(n: nat, m: nat)
    requires m == 2 || m == 3
    ensures (n + 1 + m - 1) / m == (n + m - 1) / m + (if n % m == 0 then 1 else 0)
  {
  }

  lemma CountPush(row: seq<nat>, b: nat, k: nat)
    ensures Count(row + [b], k) == Count(row, k) + (if b == k then 1 else 0)
    ensures Wide(row + [b]) == Wide(row) + WideBits(b)
  {
    assert (row + [b])[..|row|] == row;
  }

  lemma GroupedBitsStep(n1: nat, n2: nat, n3: nat, n4: nat)
    ensures GroupedBits(n1 + 1, n2, n3, n4) == GroupedBits(n1, n2, n3, n4) + (if n1 % 3 == 0 then 5 else 0)
    ensures GroupedBits(n1, n2 + 1, n3, n4) == GroupedBits(n1, n2, n3, n4) + (if n2 % 3 == 0 then 7 else 0)
    ensures GroupedBits(n1, n2, n3 + 1, n4) == GroupedBits(n1, n2, n3, n4) + 3
    ensures GroupedBits(n1, n2, n3, n4 + 1) == GroupedBits(n1, n2, n3, n4) + (if n4 % 2 == 0 then 7 else 0)
  {
    GroupedStep(n1, 3);
    GroupedStep(n2, 3);
    GroupedStep(n4, 2);
  }

  /** After n mantissas of pointer b the next one opens a group. */
  predicate StartsGroup(b: nat, n: nat) { if b == 4 then n % 2 == 0 else n % 3 == 0 }

  /** Bits that one more mantissa of pointer b adds after n of the same pointer. */
  function AddedBits(b: nat, n: nat): nat
  {
    if Grouped(b) then (if StartsGroup(b, n) then CodeBits(b) else 0) else Width(b)
  }

  lemma GroupedBitsAdd(n1: nat, n2: nat, n3: nat, n4: nat, m1: nat, m2: nat, m3: nat, m4: nat, b: nat, n: nat)
    requires m1 == (if b == 1 then n1 + 1 else n1) && m2 == (if b == 2 then n2 + 1 else n2)
    requires m3 == (if b == 3 then n3 + 1 else n3) && m4 == (if b == 4 then n4 + 1 else n4)
    requires (b == 1 ==> n == n1) && (b == 2 ==> n == n2) && (b == 4 ==> n == n4)
    ensures WideBits(b) + GroupedBits(m1, m2, m3, m4) == GroupedBits(n1, n2, n3, n4) + AddedBits(b, n)
  {
    GroupedBitsStep(n1, n2, n3, n4);
    hide GroupedBits;
  }

  lemma BlockBitsStep(row: seq<nat>, b: nat)
    ensures BlockBits(row + [b]) == BlockBits(row) + AddedBits(b, Count(row, b))
  {
    var r := row + [b];
    hide GroupedBits, AddedBits, WideBits, Count, Wide;
    CountPush(row, b, 1);
    CountPush(row, b, 2);
    CountPush(row, b, 3);
    CountPush(row, b, 4);
    GroupedBitsAdd(Count(row, 1), Count(row, 2), Count(row, 3), Count(row, 4),
                   Count(r, 1), Count(r, 2), Count(r, 3), Count(r, 4), b, Count(row, b));
  }

  /** The counting function and the emitter agree bit for bit. */
  lemma {:induction false} EmittedBits(items: seq<Item>, n: nat)
    requires AllInRange(items) && n <= |items|
    ensures |EmittedTo(items, n)| == BlockBits(Pointers(items[..n]))
  {
    if n == 0 {
      assert Pointers(items[..0]) == [];
    } else {
      EmittedBits(items, n - 1);
      EmittedLength(items, n - 1);
      var b := items[n - 1].b;
      assert Pointers(items[..n]) == Pointers(items[..n - 1]) + [b];
      BlockBitsStep(Pointers(items[..n - 1]), b);
      assert Leader(items, n - 1) <==> StartsGroup(b, Count(Pointers(items[..n - 1]), b));
      hide Emitted, BlockBits, Leader;
    }
  }

  // ---------- the decoder of section 7.3.5 of ATSC A/52 ----------

  function Ungroup(b: nat, code: nat): (d: seq<int>)
    requires Grouped(b)
    ensures |d| == GroupLen(b)
  {
    if b == 1 then [code / 9, code % 9 / 3, code % 3]
    else if b == 2 then [code / 25, code % 25 / 5, code % 5]
    else [code / 11, code % 11]
  }

  lemma Split3(x: int, y: int, z: int)
    requires 0 <= x <= 2 && 0 <= y <= 2 && 0 <= z <= 2
    ensures var c := 9 * x + 3 * y + z; c / 9 == x && c % 9 / 3 == y && c % 3 == z
  {
  }

  lemma Split5(x: int, y: int, z: int)
    requires 0 <= x <= 4 && 0 <= y <= 4 && 0 <= z <= 4
    ensures var c := 25 * x + 5 * y + z; c / 25 == x && c % 25 / 5 == y && c % 5 == z
  {
  }

  lemma Split11(x: int, y: int)
    requires 0 <= x <= 10 && 0 <= y <= 10
    ensures var c := 11 * x + y; c / 11 == x && c % 11 == y
  {
  }

  lemma UngroupPack(b: nat, d: seq<int>)
    requires Grouped(b) && |d| == GroupLen(b) && forall j :: 0 <= j < |d| ==> 0 <= d[j] < Levels(b)
    ensures 0 <= Pack(b, d) < Pow2(CodeBits(b)) && Ungroup(b, Pack(b, d)) == d
  {
    assert Pow2(5) == 32 && Pow2(7) == 128 by { Pow2Values(); }
    assert 0 <= d[0] < Levels(b) && 0 <= d[1] < Levels(b);
    PackRange(b, d);
    if b == 1 {
      assert 0 <= d[2] < 3;
      Split3(d[0], d[1], d[2]);
      assert Pack(b, d) == 9 * d[0] + 3 * d[1] + d[2];
    } else if b == 2 {
      assert 0 <= d[2] < 5;
      Split5(d[0], d[1], d[2]);
      assert Pack(b, d) == 25 * d[0] + 5 * d[1] + d[2];
    } else {
      Split11(d[0], d[1]);
      assert Pack(b, d) == 11 * d[0] + d[1];
    }
  }

  /** A field of pointer b as a number: two's complement for the asymmetric quantisers. */
  function FieldValue(b: nat, field: nat): int
    requires b <= 15
  {
    if b >= 6 && field >= Pow2(QBits(b) - 1) then field - Pow2(QBits(b)) else field
  }

  /** Values already ungrouped and not yet used, for pointers 1, 2 and 4. */
  datatype Pending = Pending(p1: seq<int>, p2: seq<int>, p4: seq<int>)
  {
    function Get(b: nat): seq<int> { if b == 1 then p1 else if b == 2 then p2 else p4 }

    function Set(b: nat, d: seq<int>): Pending
    {
      if b == 1 then this.(p1 := d) else if b == 2 then this.(p2 := d) else this.(p4 := d)
    }
  }

  datatype Decoded = Decoded(values: seq<int>, rest: seq<bool>) | OutOfBits

  function Prepend(v: int, d: Decoded): Decoded
  {
    if d.OutOfBits? then d else Decoded([v] + d.values, d.rest)
  }

  /** Reads the mantissas of a block whose pointers are known. */
  function Decode(baps: seq<nat>, bits: seq<bool>, pend: Pending): Decoded
    requires forall i :: 0 <= i < |baps| ==> baps[i] <= 15
  {
    if baps == [] then Decoded([], bits)
    else
      var b := baps[0];
      if Grouped(b) then
        if pend.Get(b) != [] then Prepend(pend.Get(b)[0], Decode(baps[1..], bits, pend.Set(b, pend.Get(b)[1..])))
        else if |bits| < CodeBits(b) then OutOfBits
        else
          var d := Ungroup(b, Value(bits[..CodeBits(b)]));
          Prepend(d[0], Decode(baps[1..], bits[CodeBits(b)..], pend.Set(b, d[1..])))
      else if |bits| < Width(b) then OutOfBits
      else Prepend(FieldValue(b, Value(bits[..Width(b)])), Decode(baps[1..], bits[Width(b)..], pend))
  }

  /** Members still missing from the open group of pointer b before position i. */
  function Missing(items: seq<Item>, i: nat, b: nat): nat
    requires i <= |items| && Grouped(b)
  {
    var n := Cnt(items[..i], b) % GroupLen(b);
    if n == 0 then 0 else GroupLen(b) - n
  }

  /** What a decoder in step with the encoder has pending before position i. */
  function InStep(items: seq<Item>, i: nat): Pending
    requires i <= |items|
  {
    Pending(Next(items[i..], 1, Missing(items, i, 1)), Next(items[i..], 2, Missing(items, i, 2)),
            Next(items[i..], 4, Missing(items, i, 4)))
  }

  lemma NextStep(items: seq<Item>, i: nat, b: nat, k: nat)
    requires i < |items|
    ensures items[i].b != b ==> Next(items[i..], b, k) == Next(items[i + 1..], b, k)
    ensures items[i].b == b && k > 0 ==> Next(items[i..], b, k) == [items[i].v] + Next(items[i + 1..], b, k - 1)
  {
    assert items[i..][1..] == items[i + 1..];
    if k == 0 {
      assert Next(items[i..], b, k) == Next(items[i + 1..], b, k) == [];
    }
  }

  lemma MissingStep(items: seq<Item>, i: nat, b: nat)
    requires i < |items| && Grouped(b)
    ensures items[i].b != b ==> Missing(items, i + 1, b) == Missing(items, i, b)
    ensures items[i].b == b && Missing(items, i, b) > 0 ==> Missing(items, i + 1, b) == Missing(items, i, b) - 1
    ensures items[i].b == b && Missing(items, i, b) == 0 ==> Missing(items, i + 1, b) == GroupLen(b) - 1
    ensures items[i].b == b ==> (Leader(items, i) <==> Missing(items, i, b) == 0)
  {
    CntAt(items, i, b);
    hide Cnt;
  }

  /** The pending values after position i, from those before it. */
  lemma InStepNext(items: seq<Item>, i: nat)
    requires i < |items|
    ensures var b, p := items[i].b, InStep(items, i);
      !Grouped(b) ==> InStep(items, i + 1) == p
    ensures var b, p := items[i].b, InStep(items, i);
      Grouped(b) && Leader(items, i) ==>
        p.Get(b) == [] && InStep(items, i + 1) == p.Set(b, Next(items[i..], b, GroupLen(b))[1..]) &&
        Next(items[i..], b, GroupLen(b))[0] == items[i].v
    ensures var b, p := items[i].b, InStep(items, i);
      Grouped(b) && !Leader(items, i) ==>
        p.Get(b) != [] && p.Get(b)[0] == items[i].v && InStep(items, i + 1) == p.Set(b, p.Get(b)[1..])
  {
    MissingStep(items, i, 1);
    MissingStep(items, i, 2);
    MissingStep(items, i, 4);
    NextStep(items, i, 1, Missing(items, i, 1));
    NextStep(items, i, 2, Missing(items, i, 2));
    NextStep(items, i, 4, Missing(items, i, 4));
    if Grouped(items[i].b) { NextStep(items, i, items[i].b, GroupLen(items[i].b)); }
    hide Next, Missing, Leader;
  }

  lemma CodeBack(b: nat, d: seq<int>)
    requires Grouped(b) && |d| == GroupLen(b) && forall j :: 0 <= j < |d| ==> 0 <= d[j] < Levels(b)
    ensures Pack(b, d) >= 0 && Ungroup(b, Value(Bits(Pack(b, d), CodeBits(b)))) == d
  {
    UngroupPack(b, d);
    var code: nat := Pack(b, d);
    ValueOfBits(code, CodeBits(b));
    MaskId(code, CodeBits(b));
    hide Pack, Ungroup, Value, Bits, Mask, Pow2;
  }

  lemma ModOfMod(v: int, a: nat, b: nat)
    requires a > 0 && b > 0
    ensures v % (a * b) % a == v % a
  {
    var q, r := v / (a * b), v % (a * b);
    assert v == a * b * q + r == a * (b * q) + r;
    ModShift(r, a, b * q);
  }

  lemma ModShift(r: int, a: nat, q: int)
    requires a > 0
    ensures (a * q + r) % a == r % a
  {
    var x, y := r / a, r % a;
    assert a * q + r == a * (q + x) + y;
    DivisionUnique(a * q + r, a, q + x, y);
  }

  lemma FieldIs(q: nat, w: nat)
    ensures Value(Bits(q, w)) == q % Pow2(w)
  {
    hide *;
    ValueOfBits(q, w);
    WordOps(0, q, w);
    MaskBound(q, w);
    DivisionUnique(q, Pow2(w), Shr(q, w), Mask(q, w));
  }

  /** Two's complement in w bits. */
  lemma SignedBack(v: int, w: nat)
    requires 1 <= w <= 16 && 0 - Pow2(w - 1) <= v < Pow2(w - 1)
    ensures var field := v % 0x1_0000 % Pow2(w);
      v == if field >= Pow2(w - 1) then field - Pow2(w) else field
  {
    assert Pow2(w) == 2 * Pow2(w - 1);
    assert Pow2(16) == 0x1_0000 by { Pow2Values(); }
    Pow2Add(w, 16 - w);
    hide Pow2;
    ModOfMod(v, Pow2(w), Pow2(16 - w));
    if v >= 0 {
      DivisionUnique(v, Pow2(w), 0, v);
    } else {
      DivisionUnique(v, Pow2(w), -1, v + Pow2(w));
    }
  }

  lemma SmallBack(v: int, w: nat)
    requires w <= 4 && 0 <= v < Pow2(w)
    ensures v % 0x1_0000 % Pow2(w) == v
  {
    assert Pow2(w) <= Pow2(4) == 16 by {
      Pow2Mono(w, 4);
      Pow2Values();
    }
    hide Pow2;
    DivisionUnique(v, Pow2(w), 0, v);
  }

  lemma FieldBack(b: nat, v: int)
    requires InRange(b, v) && !Grouped(b)
    ensures FieldValue(b, Value(Bits(v % 0x1_0000, Width(b)))) == v
  {
    assert Pow2(0) == 1 && Pow2(3) == 8 && Pow2(4) == 16 by { Pow2Values(); }
    hide Pow2, Value, Bits;
    FieldIs(v % 0x1_0000, Width(b));
    if b <= 5 {
      assert b == 0 || b == 3 || b == 5;
      SmallBack(v, Width(b));
    } else {
      assert Width(b) == QBits(b);
      SignedBack(v, QBits(b));
    }
  }

  // one step of the decoder, for each way of getting a value

  lemma DecodeNone(bits: seq<bool>, pend: Pending)
    ensures Decode([], bits, pend) == Decoded([], bits)
  {
  }

  lemma DecodeCode(b: nat, baps: seq<nat>, code: seq<bool>, rest: seq<bool>, pend: Pending, d: seq<int>)
    requires Grouped(b) && (forall i :: 0 <= i < |baps| ==> baps[i] <= 15) && pend.Get(b) == []
    requires |code| == CodeBits(b) && Ungroup(b, Value(code)) == d
    ensures Decode([b] + baps, code + rest, pend) == Prepend(d[0], Decode(baps, rest, pend.Set(b, d[1..])))
  {
    var bits := code + rest;
    assert bits[..CodeBits(b)] == code && bits[CodeBits(b)..] == rest && ([b] + baps)[1..] == baps;
  }

  lemma DecodePending(b: nat, baps: seq<nat>, bits: seq<bool>, pend: Pending)
    requires Grouped(b) && (forall i :: 0 <= i < |baps| ==> baps[i] <= 15) && pend.Get(b) != []
    ensures Decode([b] + baps, bits, pend) ==
      Prepend(pend.Get(b)[0], Decode(baps, bits, pend.Set(b, pend.Get(b)[1..])))
  {
    assert ([b] + baps)[1..] == baps;
  }

  lemma DecodeField(b: nat, baps: seq<nat>, field: seq<bool>, rest: seq<bool>, pend: Pending)
    requires !Grouped(b) && b <= 15 && (forall i :: 0 <= i < |baps| ==> baps[i] <= 15) && |field| == Width(b)
    ensures Decode([b] + baps, field + rest, pend) == Prepend(FieldValue(b, Value(field)), Decode(baps, rest, pend))
  {
    var bits := field + rest;
    assert bits[..Width(b)] == field && bits[Width(b)..] == rest && ([b] + baps)[1..] == baps;
  }

  /** The next value, decoded from what its mantissa emits. */
  lemma DecodesOne(items: seq<Item>, i: nat, rest: seq<bool>, baps: seq<nat>)
    requires AllInRange(items) && i < |items| && forall k :: 0 <= k < |baps| ==> baps[k] <= 15
    ensures items[i].b <= 15
    ensures Decode([items[i].b] + baps, Emitted(items, i) + rest, InStep(items, i)) ==
      Prepend(items[i].v, Decode(baps, rest, InStep(items, i + 1)))
  {
    var b := items[i].b;
    assert InRange(b, items[i].v);
    assert b <= 15;
    InStepNext(items, i);
    CodeAtRange(items, i);
    EmittedLength(items, i);
    hide Leader, InStep, Next, Pack, Ungroup, InRange, Bits, Value, FieldValue, Decode;
    if !Grouped(b) {
      FieldBack(b, items[i].v);
      DecodeField(b, baps, Emitted(items, i), rest, InStep(items, i));
    } else if Leader(items, i) {
      NextInRange(items[i..], b, GroupLen(b));
      CodeBack(b, Next(items[i..], b, GroupLen(b)));
      DecodeCode(b, baps, Emitted(items, i), rest, InStep(items, i), Next(items[i..], b, GroupLen(b)));
    } else {
      DecodePending(b, baps, rest, InStep(items, i));
      assert Emitted(items, i) + rest == rest;
    }
  }

  lemma {:induction false} DecodesFrom(items: seq<Item>, i: nat, tail: seq<bool>)
    requires AllInRange(items) && i <= |items| && forall k :: 0 <= k < |items| ==> Pointers(items)[k] <= 15
    ensures Decode(Pointers(items)[i..], EmittedFrom(items, i) + tail, InStep(items, i)) ==
      Decoded(Values(items)[i..], tail)
    decreases |items| - i
  {
    hide Decode, InStep, Emitted;
    if i == |items| {
      assert Pointers(items)[i..] == [] && Values(items)[i..] == [];
      assert EmittedFrom(items, i) + tail == tail;
      DecodeNone(tail, InStep(items, i));
    } else {
      DecodesFrom(items, i + 1, tail);
      DecodesOne(items, i, EmittedFrom(items, i + 1) + tail, Pointers(items)[i + 1..]);
      assert EmittedFrom(items, i) + tail == Emitted(items, i) + (EmittedFrom(items, i + 1) + tail);
      assert Pointers(items)[i..] == [items[i].b] + Pointers(items)[i + 1..];
      assert Values(items)[i..] == [items[i].v] + Values(items)[i + 1..];
    }
  }

  /** Ungrouping the emitted bits of a block recovers every value of every channel. */
  lemma MantissaRoundTrip(items: seq<Item>, tail: seq<bool>)
    requires AllInRange(items) && forall k :: 0 <= k < |items| ==> Pointers(items)[k] <= 15
    ensures Decode(Pointers(items), EmittedTo(items, |items|) + tail, Pending([], [], [])) ==
      Decoded(Values(items), tail)
  {
    InStepAtStart(items);
    DecodesFrom(items, 0, tail);
    EmittedSplit(items, |items|);
    hide Decode, InStep, Emitted;
    assert EmittedTo(items, |items|) == EmittedFrom(items, 0);
    assert Pointers(items)[0..] == Pointers(items) && Values(items)[0..] == Values(items);
  }

  lemma InStepAtStart(items: seq<Item>)
    ensures InStep(items, 0) == Pending([], [], [])
  {
    assert items[..0] == [];
    assert Cnt([], 1) == Cnt([], 2) == Cnt([], 4) == 0;
  }

  // ---------- quant_mant_ch: one word array per channel, and pointers into them ----------

  type Half = x: int | 0 <= x < 0x1_0000

  /** Where a word lies: the index of its array and the index in it. */
  datatype Slot = Slot(ch: nat, i: nat)

  /** The pointer whose groups counter g follows. */
  function Kind(g: nat): nat { if g == 0 then 1 else if g == 1 then 2 else 4 }

  /** Words before channel c in the block's order. */
  function Off<T>(rows: seq<seq<T>>, c: nat): nat
    requires c <= |rows|
  {
    |Flat(rows[..c])|
  }

  ghost predicate Within<T>(s: Slot, rows: seq<seq<T>>)
  {
    s.ch < |rows| && s.i < |rows[s.ch]|
  }

  function Pos<T>(rows: seq<seq<T>>, s: Slot): nat
    requires s.ch < |rows|
  {
    Off(rows, s.ch) + s.i
  }

  lemma OffStep<T>(rows: seq<seq<T>>, c: nat)
    requires c < |rows|
    ensures Off(rows, c + 1) == Off(rows, c) + |rows[c]|
    ensures Off(rows, |rows|) == |Flat(rows)|
  {
    assert rows[..c + 1][..c] == rows[..c];
    assert rows[..|rows|] == rows;
  }

  lemma {:induction false} OffMono<T>(rows: seq<seq<T>>, c: nat, d: nat)
    requires c < d <= |rows|
    ensures Off(rows, c) + |rows[c]| <= Off(rows, d)
  {
    if d > c + 1 { OffMono(rows, c, d - 1); }
    OffStep(rows, d - 1);
  }

  /** Distinct slots have distinct positions. */
  lemma PosUnique<T>(rows: seq<seq<T>>, s: Slot, t: Slot)
    requires Within(s, rows) && Within(t, rows)
    ensures Pos(rows, s) == Pos(rows, t) ==> s == t
    ensures Pos(rows, s) < |Flat(rows)|
  {
    if s.ch < t.ch { OffMono(rows, s.ch, t.ch); }
    if t.ch < s.ch { OffMono(rows, t.ch, s.ch); }
    OffMono(rows, s.ch, |rows|);
    assert rows[..|rows|] == rows;
  }

  /** The last channel grows by one mantissa. */
  function Push<T>(rows: seq<seq<T>>, x: T): (r: seq<seq<T>>)
    requires rows != []
    ensures |r| == |rows|
  {
    rows[..|rows| - 1] + [rows[|rows| - 1] + [x]]
  }

  lemma FlatOfPush<T>(rows: seq<seq<T>>, x: T)
    requires rows != []
    ensures Flat(Push(rows, x)) == Flat(rows) + [x]
    ensures forall c :: 0 <= c < |rows| ==> Off(Push(rows, x), c) == Off(rows, c)
    ensures Off(rows, |rows| - 1) + |rows[|rows| - 1]| == |Flat(rows)|
  {
    var n := |rows| - 1;
    assert Push(rows, x)[..n] == rows[..n];
    assert forall c :: 0 <= c <= n ==> Push(rows, x)[..c] == rows[..c];
  }

  /** `(mant_cnt + 1) % group length`. */
  function NextCount(b: nat, n: nat): nat { (n + 1) % GroupLen(b) }

  /** The words of the arrays, channel after channel, are `codes`. */
  ghost predicate Laid<T>(q: seq<seq<int>>, rows: seq<seq<T>>, codes: seq<int>)
  {
    |rows| <= |q| && (forall c :: 0 <= c < |rows| ==> |rows[c]| <= |q[c]|) && |codes| == |Flat(rows)| &&
    forall s: Slot :: Within(s, rows) ==> (PosUnique(rows, s, s); q[s.ch][s.i] == codes[Pos(rows, s)])
  }

  /** They are the codes of the mantissas done so far. */
  ghost predicate Stored(q: seq<seq<int>>, done: seq<seq<Item>>)
  {
    Laid(q, done, Codes(Flat(done)))
  }

  /** Counter g says how full the open group of its pointer is, and the slot is that group's leader. */
  ghost predicate Tracks(slot: Slot, count: nat, b: nat, done: seq<seq<Item>>)
  {
    count == Cnt(Flat(done), b) % GroupLen(b) &&
    (count > 0 ==> Within(slot, done) && OpenAt(Flat(done), b, Pos(done, slot)))
  }

  ghost predicate State(q: seq<seq<int>>, ptr: seq<Slot>, cnt: seq<nat>, done: seq<seq<Item>>)
  {
    Stored(q, done) && |ptr| == 3 && |cnt| == 3 && forall g :: 0 <= g < 3 ==> Tracks(ptr[g], cnt[g], Kind(g), done)
  }

  function Put(q: seq<seq<int>>, s: Slot, w: int): (r: seq<seq<int>>)
    requires s.ch < |q| && s.i < |q[s.ch]|
    ensures |r| == |q| && forall c :: 0 <= c < |q| ==> |r[c]| == |q[c]|
  {
    q[s.ch := q[s.ch][s.i := w]]
  }

  lemma LaidPut<T>(q: seq<seq<int>>, rows: seq<seq<T>>, codes: seq<int>, t: Slot, w: int)
    requires Laid(q, rows, codes) && Within(t, rows)
    ensures Pos(rows, t) < |codes| && Laid(Put(q, t, w), rows, codes[Pos(rows, t) := w])
  {
    PosUnique(rows, t, t);
    hide Flat, Off;
    forall s: Slot | Within(s, rows)
      ensures Pos(rows, s) < |codes| && Put(q, t, w)[s.ch][s.i] == codes[Pos(rows, t) := w][Pos(rows, s)]
    {
      PosUnique(rows, s, t);
    }
  }

  lemma LaidPush<T>(q: seq<seq<int>>, rows: seq<seq<T>>, codes: seq<int>, x: T, w: int)
    requires rows != [] && Laid(q, rows, codes) && |rows[|rows| - 1]| < |q[|rows| - 1]|
    ensures Laid(Put(q, Slot(|rows| - 1, |rows[|rows| - 1]|), w), Push(rows, x), codes + [w])
  {
    var here, rows' := Slot(|rows| - 1, |rows[|rows| - 1]|), Push(rows, x);
    FlatOfPush(rows, x);
    hide Flat, Off;
    forall s: Slot | Within(s, rows')
      ensures Pos(rows', s) <= |codes| && Put(q, here, w)[s.ch][s.i] == (codes + [w])[Pos(rows', s)]
    {
      PosUnique(rows', s, s);
      if s != here {
        assert Within(s, rows);
        PosUnique(rows, s, s);
      }
    }
  }

  lemma StoredPush(q: seq<seq<int>>, done: seq<seq<Item>>, x: Item)
    requires done != [] && Stored(q, done) && |done[|done| - 1]| < |q[|done| - 1]|
    requires Grouped(x.b) ==> Cnt(Flat(done), x.b) % GroupLen(x.b) == 0
    ensures Stored(Put(q, Slot(|done| - 1, |done[|done| - 1]|), NewWord(Flat(done), x)), Push(done, x))
  {
    FlatOfPush(done, x);
    CodesPush(Flat(done), x);
    LaidPush(q, done, Codes(Flat(done)), x, NewWord(Flat(done), x));
  }

  lemma JoinedCodes(q: seq<seq<int>>, done: seq<seq<Item>>, x: Item, t: Slot, w: int)
    requires done != [] && Stored(q, done) && Grouped(x.b) && Within(t, done)
    requires OpenAt(Flat(done), x.b, Pos(done, t)) && w == q[t.ch][t.i] + Share(Flat(done), x)
    ensures Pos(done, t) < |Flat(done)|
    ensures Codes(Flat(Push(done, x))) == Codes(Flat(done))[Pos(done, t) := w] + [128]
  {
    PosUnique(done, t, t);
    FlatOfPush(done, x);
    hide Flat, Cnt, Off, OpenAt, Share, Codes, Leader;
    assert q[t.ch][t.i] == Codes(Flat(done))[Pos(done, t)];
    CodesJoin(Flat(done), x, Pos(done, t));
  }

  lemma StoredJoin(q: seq<seq<int>>, done: seq<seq<Item>>, x: Item, t: Slot, w: int)
    requires done != [] && |done| <= |q| && Stored(q, done) && |done[|done| - 1]| < |q[|done| - 1]|
    requires Grouped(x.b) && Within(t, done) && OpenAt(Flat(done), x.b, Pos(done, t))
    requires t.ch < |done| && t.ch < |q| && t.i < |q[t.ch]| && w == q[t.ch][t.i] + Share(Flat(done), x)
    ensures Stored(Put(Put(q, t, w), Slot(|done| - 1, |done[|done| - 1]|), 128), Push(done, x))
  {
    hide Codes, Flat, Off, OpenAt, Share, Leader, Laid, Put, Push, Pos, Within;
    JoinedCodes(q, done, x, t, w);
    var codes, joined := Codes(Flat(done)), Put(q, t, w);
    LaidPut(q, done, codes, t, w);
    LaidPush(joined, done, codes[Pos(done, t) := w], x, 128);
  }

  /** The counter and slot of one pointer after the next mantissa. */
  lemma TracksPush(slot: Slot, count: nat, b: nat, done: seq<seq<Item>>, x: Item)
    requires done != [] && Grouped(b) && Tracks(slot, count, b, done)
    ensures var here := Slot(|done| - 1, |done[|done| - 1]|);
      Tracks(if x.b == b && count == 0 then here else slot, if x.b == b then NextCount(b, count) else count, b,
             Push(done, x))
  {
    FlatOfPush(done, x);
    OpenPush(Flat(done), x, b);
    CntMod(Cnt(Flat(done), b), GroupLen(b));
    hide Flat, Cnt, Off, OpenAt;
  }

  lemma CntMod(n: nat, m: nat)
    requires m == 2 || m == 3
    ensures (n + 1) % m == (n % m + 1) % m && (n % m + 1 < m ==> (n + 1) % m == n % m + 1)
  {
  }

  lemma RangePush(done: seq<seq<Item>>, x: Item)
    requires done != [] && AllInRange(Flat(done)) && InRange(x.b, x.v)
    ensures AllInRange(Flat(Push(done, x)))
  {
    FlatOfPush(done, x);
  }

  /** The slot of the next mantissa. */
  function Here(done: seq<seq<Item>>): Slot
    requires done != []
  {
    Slot(|done| - 1, |done[|done| - 1]|)
  }

  /** What Join needs: the leader's word has room for the new share, or there is no leader yet. */
  ghost predicate Ready(q: seq<seq<int>>, ptr: seq<Slot>, cnt: seq<nat>, g: nat, v: int)
  {
    |ptr| == |cnt| == 3 && g < 3 &&
    if cnt[g] == 0 then 0 <= ShareAt(Kind(g), 0, v) < 0x1_0000
    else
      ptr[g].ch < |q| && ptr[g].i < |q[ptr[g].ch]| &&
      0 <= q[ptr[g].ch][ptr[g].i] + ShareAt(Kind(g), cnt[g], v) < 0x1_0000
  }

  /** The words after the leader took its share. */
  ghost function Shared(q: seq<seq<int>>, ptr: seq<Slot>, cnt: seq<nat>, g: nat, v: int): (r: seq<seq<int>>)
    requires Ready(q, ptr, cnt, g, v)
    ensures |r| == |q| && forall c :: 0 <= c < |q| ==> |r[c]| == |q[c]|
  {
    if cnt[g] == 0 then q
    else Put(q, ptr[g], q[ptr[g].ch][ptr[g].i] + ShareAt(Kind(g), cnt[g], v))
  }

  lemma StateUse(q: seq<seq<int>>, ptr: seq<Slot>, cnt: seq<nat>, done: seq<seq<Item>>, x: Item, g: nat)
    requires State(q, ptr, cnt, done) && done != [] && g < 3 && x.b == Kind(g)
    requires AllInRange(Flat(Push(done, x)))
    ensures Ready(q, ptr, cnt, g, x.v)
  {
    FlatOfPush(done, x);
    assert Tracks(ptr[g], cnt[g], Kind(g), done);
    if cnt[g] > 0 {
      var s := ptr[g];
      var w := q[s.ch][s.i] + Share(Flat(done), x);
      JoinedCodes(q, done, x, s, w);
      assert Codes(Flat(Push(done, x)))[Pos(done, s)] == w;
      CodeAtRange(Flat(Push(done, x)), Pos(done, s));
    } else {
      LastWord(Flat(done), x);
      CodeAtRange(Flat(Push(done, x)), |Flat(done)|);
    }
  }

  lemma StateTracks(ptr: seq<Slot>, cnt: seq<nat>, done: seq<seq<Item>>, x: Item)
    requires done != [] && |ptr| == |cnt| == 3 && forall g :: 0 <= g < 3 ==> Tracks(ptr[g], cnt[g], Kind(g), done)
    ensures forall g :: 0 <= g < 3 ==>
      Tracks(if x.b == Kind(g) && cnt[g] == 0 then Here(done) else ptr[g],
             if x.b == Kind(g) then NextCount(Kind(g), cnt[g]) else cnt[g], Kind(g), Push(done, x))
  {
    hide Tracks;
    forall g | 0 <= g < 3
      ensures Tracks(if x.b == Kind(g) && cnt[g] == 0 then Here(done) else ptr[g],
                     if x.b == Kind(g) then NextCount(Kind(g), cnt[g]) else cnt[g], Kind(g), Push(done, x))
    {
      TracksPush(ptr[g], cnt[g], Kind(g), done, x);
    }
  }

  lemma StateLead(q: seq<seq<int>>, ptr: seq<Slot>, cnt: seq<nat>, done: seq<seq<Item>>, x: Item, g: nat)
    requires State(q, ptr, cnt, done) && done != [] && g < 3 && x.b == Kind(g) && cnt[g] == 0
    requires Here(done).i < |q[|done| - 1]|
    ensures State(Put(q, Here(done), ShareAt(Kind(g), 0, x.v)), ptr[g := Here(done)],
                  cnt[g := NextCount(Kind(g), cnt[g])], Push(done, x))
  {
    assert Tracks(ptr[g], cnt[g], Kind(g), done);
    StoredPush(q, done, x);
    StateTracks(ptr, cnt, done, x);
    hide Stored, Tracks, Flat, Cnt;
  }

  lemma OpenSlot(q: seq<seq<int>>, slot: Slot, count: nat, g: nat, done: seq<seq<Item>>, x: Item)
    requires Stored(q, done) && Tracks(slot, count, Kind(g), done) && count > 0 && x.b == Kind(g)
    ensures Grouped(x.b) && Within(slot, done) && OpenAt(Flat(done), x.b, Pos(done, slot))
    ensures slot.ch < |done| <= |q| && slot.i < |q[slot.ch]|
    ensures Share(Flat(done), x) == ShareAt(Kind(g), count, x.v)
  {
    hide Flat, Cnt, OpenAt, ShareAt, Codes;
  }

  lemma StateJoin(q: seq<seq<int>>, ptr: seq<Slot>, cnt: seq<nat>, done: seq<seq<Item>>, x: Item, g: nat)
    requires State(q, ptr, cnt, done) && done != [] && |done| <= |q| && g < 3 && x.b == Kind(g) && cnt[g] > 0
    requires Here(done).i < |q[|done| - 1]| && Ready(q, ptr, cnt, g, x.v)
    ensures State(Put(Shared(q, ptr, cnt, g, x.v), Here(done), 128), ptr,
                  cnt[g := NextCount(Kind(g), cnt[g])], Push(done, x))
  {
    hide Stored, Tracks, Flat, Cnt, ShareAt, Put, Push, Share, OpenAt, Within, Pos;
    assert Tracks(ptr[g], cnt[g], Kind(g), done);
    OpenSlot(q, ptr[g], cnt[g], g, done, x);
    StoredJoin(q, done, x, ptr[g], q[ptr[g].ch][ptr[g].i] + Share(Flat(done), x));
    StateTracks(ptr, cnt, done, x);
  }

  /** A grouped mantissa, leader or not, keeps words, slots and counters in step. */
  lemma StateGrouped(q: seq<seq<int>>, ptr: seq<Slot>, cnt: seq<nat>, done: seq<seq<Item>>, x: Item, g: nat)
    requires State(q, ptr, cnt, done) && done != [] && g < 3 && x.b == Kind(g) && Ready(q, ptr, cnt, g, x.v)
    requires |done| <= |q| && Here(done).i < |q[|done| - 1]|
    ensures State(
      Put(Shared(q, ptr, cnt, g, x.v), Here(done), if cnt[g] == 0 then ShareAt(Kind(g), 0, x.v) else 128),
      if cnt[g] == 0 then ptr[g := Here(done)] else ptr, cnt[g := NextCount(Kind(g), cnt[g])], Push(done, x))
  {
    if cnt[g] == 0 {
      StateLead(q, ptr, cnt, done, x, g);
    } else {
      StateJoin(q, ptr, cnt, done, x, g);
    }
    hide State, Put, ShareAt;
  }

  lemma StateSingle(q: seq<seq<int>>, ptr: seq<Slot>, cnt: seq<nat>, done: seq<seq<Item>>, x: Item)
    requires State(q, ptr, cnt, done) && done != [] && !Grouped(x.b) && Here(done).i < |q[|done| - 1]|
    ensures State(Put(q, Here(done), x.v % 0x1_0000), ptr, cnt, Push(done, x))
  {
    StoredPush(q, done, x);
    StateTracks(ptr, cnt, done, x);
    hide Stored, Tracks, Flat, Cnt;
  }

  lemma StateMeans(q: seq<seq<int>>, ptr: seq<Slot>, cnt: seq<nat>, done: seq<seq<Item>>)
    requires State(q, ptr, cnt, done)
    ensures Stored(q, done)
  {
  }

  lemma NothingDone(q: seq<seq<int>>, ptr: seq<Slot>, cnt: seq<nat>)
    requires |ptr| == 3 && cnt == [0, 0, 0]
    ensures State(q, ptr, cnt, []) && AllInRange(Flat<Item>([]))
  {
    assert Cnt([], 1) == Cnt([], 2) == Cnt([], 4) == 0;
  }

  lemma FlatOpen<T>(rows: seq<seq<T>>)
    ensures Flat(rows + [[]]) == Flat(rows)
    ensures forall c :: 0 <= c <= |rows| ==> Off(rows + [[]], c) == Off(rows, c)
  {
    assert (rows + [[]])[..|rows|] == rows;
    forall c | 0 <= c <= |rows|
      ensures Off(rows + [[]], c) == Off(rows, c)
    {
      assert (rows + [[]])[..c] == rows[..c];
    }
  }

  lemma LaidOpen<T>(q: seq<seq<int>>, rows: seq<seq<T>>, codes: seq<int>)
    requires Laid(q, rows, codes) && |rows| < |q|
    ensures Laid(q, rows + [[]], codes)
  {
    FlatOpen(rows);
    hide Flat, Off;
    forall s: Slot | Within(s, rows + [[]])
      ensures Pos(rows + [[]], s) < |codes| && q[s.ch][s.i] == codes[Pos(rows + [[]], s)]
    {
      assert Within(s, rows);
      PosUnique(rows, s, s);
    }
  }

  lemma TracksOpen(slot: Slot, count: nat, b: nat, done: seq<seq<Item>>)
    requires Tracks(slot, count, b, done)
    ensures Tracks(slot, count, b, done + [[]])
  {
    FlatOpen(done);
    hide Flat, Off, OpenAt, Cnt;
  }

  /** A new channel opens; nothing moves. */
  lemma OpenChannel(q: seq<seq<int>>, ptr: seq<Slot>, cnt: seq<nat>, done: seq<seq<Item>>)
    requires State(q, ptr, cnt, done) && |done| < |q|
    ensures State(q, ptr, cnt, done + [[]]) && Flat(done + [[]]) == Flat(done)
  {
    FlatOpen(done);
    LaidOpen(q, done, Codes(Flat(done)));
    hide Flat, Off, Tracks, Laid, Codes;
    forall g | 0 <= g < 3
      ensures Tracks(ptr[g], cnt[g], Kind(g), done + [[]])
    {
      TracksOpen(ptr[g], cnt[g], Kind(g), done);
    }
  }

  lemma PushItem(c: Coded, done: seq<seq<Item>>, i: nat)
    requires c.Valid() && i < c.ncoefs
    ensures Push(done + [c.Items(i)], Item(c.bap[i], Quantized(c.coef[i], c.exp[i], c.bap[i]))) ==
      done + [c.Items(i + 1)]
    ensures Here(done + [c.Items(i)]) == Slot(|done|, i)
  {
    assert c.Items(i) + [Item(c.bap[i], Quantized(c.coef[i], c.exp[i], c.bap[i]))] == c.Items(i + 1);
    assert (done + [c.Items(i)])[..|done|] == done;
  }

  ghost function Words(a: seq<array<Half>>): (r: seq<seq<int>>)
    reads a
    ensures |r| == |a| && forall c :: 0 <= c < |a| ==> r[c] == a[c][..]
  {
    seq(|a|, c requires 0 <= c < |a| reads a => a[c][..])
  }

  ghost predicate Arrays(a: seq<array<Half>>)
  {
    (forall c :: 0 <= c < |a| ==> a[c].Length == 256) && forall c, d :: 0 <= c < d < |a| ==> a[c] != a[d]
  }

  lemma WordsPut(before: seq<seq<int>>, after: seq<seq<int>>, s: Slot, w: int)
    requires s.ch < |before| && s.i < |before[s.ch]| && |after| == |before|
    requires forall c :: 0 <= c < |before| ==> |after[c]| == |before[c]|
    requires forall c, k :: 0 <= c < |before| && 0 <= k < |before[c]| ==>
      after[c][k] == if c == s.ch && k == s.i then w else before[c][k]
    ensures after == Put(before, s, w)
  {
    assert forall c :: 0 <= c < |before| ==> after[c] == Put(before, s, w)[c];
  }

  method Write(qmant: seq<array<Half>>, s: Slot, w: Half)
    requires Arrays(qmant) && s.ch < |qmant| && s.i < 256
    modifies qmant
    ensures Words(qmant) == Put(old(Words(qmant)), s, w)
  {
    ghost var before := Words(qmant);
    qmant[s.ch][s.i] := w;
    WordsPut(before, Words(qmant), s, w);
  }

  /** `*p += share` on 16-bit words. */
  method AddTo(qmant: seq<array<Half>>, s: Slot, share: int)
    requires Arrays(qmant) && s.ch < |qmant| && s.i < 256 && 0 <= Words(qmant)[s.ch][s.i] + share < 0x1_0000
    modifies qmant
    ensures Words(qmant) == Put(old(Words(qmant)), s, old(Words(qmant))[s.ch][s.i] + share)
  {
    hide Put;
    var word: int := qmant[s.ch][s.i];
    var sum := word + share;
    assert sum % 0x1_0000 == sum;
    Write(qmant, s, sum % 0x1_0000);
  }

  /** What quant_mant_ch reads of one channel of a block. */
  datatype Coded = Coded(coef: seq<int>, exp: seq<Byte>, bap: seq<Byte>, ncoefs: nat)
  {
    ghost predicate Valid()
    {
      |coef| == |exp| == |bap| == 256 && ncoefs <= 256 &&
      forall k :: 0 <= k < ncoefs ==> Bounded(coef[k], exp[k], bap[k])
    }

    /** Quantised values and pointers of the first n coefficients. */
    ghost function Items(n: nat): (r: seq<Item>)
      requires Valid() && n <= ncoefs
      ensures |r| == n
    {
      seq(n, i requires 0 <= i < n => Item(bap[i], Quantized(coef[i], exp[i], bap[i])))
    }
  }

  /** The exponent bounds its coefficient; see Quantize.FrameQuantization for why it does. */
  ghost predicate Bounded(c: int, e: nat, b: nat)
  {
    e <= 24 && b <= 15 && Abs(c) < Pow2(24 - e)
  }

  ghost predicate ValidCoded(chans: seq<Coded>)
  {
    forall c :: 0 <= c < |chans| ==> chans[c].Valid()
  }

  ghost function BlockItems(chans: seq<Coded>): (r: seq<seq<Item>>)
    requires ValidCoded(chans)
    ensures |r| == |chans|
  {
    seq(|chans|, c requires 0 <= c < |chans| => chans[c].Items(chans[c].ncoefs))
  }

  /** The group pointers and counters of one block, carried from channel to channel. */
  class Grouping {
    var ptr: seq<Slot>
    var cnt: seq<nat>

    constructor ()
      ensures ptr == [Slot(0, 0), Slot(0, 0), Slot(0, 0)] && cnt == [0, 0, 0]
    {
      ptr := [Slot(0, 0), Slot(0, 0), Slot(0, 0)];
      cnt := [0, 0, 0];
    }

    ghost predicate Done(qmant: seq<array<Half>>, done: seq<seq<Item>>)
      reads this, qmant
    {
      Arrays(qmant) && State(Words(qmant), ptr, cnt, done) && AllInRange(Flat(done))
    }

    /** The common part of the grouped cases: the word for the slot `here`, after the group's leader took its share. */
    method Join(g: nat, v: int, here: Slot, qmant: seq<array<Half>>) returns (w: int)
      requires Arrays(qmant) && Ready(Words(qmant), ptr, cnt, g, v)
      modifies this, qmant
      ensures w == (if old(cnt[g]) == 0 then ShareAt(Kind(g), 0, v) else 128)
      ensures ptr == (if old(cnt[g]) == 0 then old(ptr)[g := here] else old(ptr))
      ensures Words(qmant) == Shared(old(Words(qmant)), old(ptr), old(cnt), g, v)
      ensures cnt == old(cnt)[g := NextCount(Kind(g), old(cnt[g]))]
    {
      hide ShareAt, NextCount, Put;
      if cnt[g] == 0 {
        ptr := ptr[g := here];
        w := ShareAt(Kind(g), 0, v);
      } else {
        AddTo(qmant, ptr[g], ShareAt(Kind(g), cnt[g], v));
        w := 128;
      }
      cnt := cnt[g := NextCount(Kind(g), cnt[g])];
    }

    /** The cases of pointers 1, 2 and 4. */
    method QuantGrouped(g: nat, v: int, here: Slot, qmant: seq<array<Half>>, ghost done: seq<seq<Item>>)
      requires Arrays(qmant) && g < 3 && 0 < |done| <= |qmant| && here == Here(done) && here.i < 256
      requires State(Words(qmant), ptr, cnt, done) && AllInRange(Flat(Push(done, Item(Kind(g), v))))
      modifies this, qmant
      ensures State(Words(qmant), ptr, cnt, Push(done, Item(Kind(g), v)))
    {
      StateUse(Words(qmant), ptr, cnt, done, Item(Kind(g), v), g);
      StateGrouped(Words(qmant), ptr, cnt, done, Item(Kind(g), v), g);
      hide *;
      var w := Join(g, v, here, qmant);
      Write(qmant, here, w);
    }

    /** One turn of the loop of quant_mant_ch. */
    method QuantOne(c: int, e: nat, b: nat, here: Slot, qmant: seq<array<Half>>, ghost done: seq<seq<Item>>)
      requires Bounded(c, e, b)
      requires Done(qmant, done) && 0 < |done| <= |qmant| && here == Here(done) && here.i < 256
      modifies this, qmant
      ensures Done(qmant, Push(done, Item(b, Quantized(c, e, b))))
    {
      var v := Quantized(c, e, b);
      ghost var x := Item(b, v);
      QuantizedIsAccurate(c, e, b);
      RangePush(done, x);
      hide Quantized, State, AllInRange, InRange, Flat, Put, Push;
      if Grouped(b) {
        QuantGrouped(if b == 1 then 0 else if b == 2 then 1 else 2, v, here, qmant, done);
      } else {
        StateSingle(Words(qmant), ptr, cnt, done, x);
        Write(qmant, here, v % 0x1_0000);
      }
    }

    /** quant_mant_ch: the mantissas of channel ch, some of which complete groups begun in earlier channels. */
    method QuantMantCh(c: Coded, ch: nat, qmant: seq<array<Half>>, ghost done: seq<seq<Item>>)
      requires c.Valid() && Done(qmant, done) && |done| == ch < |qmant|
      modifies this, qmant
      ensures Done(qmant, done + [c.Items(c.ncoefs)])
    {
      OpenChannel(Words(qmant), ptr, cnt, done);
      hide Done, Push, Flat;
      for i := 0 to c.ncoefs
        invariant Done(qmant, done + [c.Items(i)])
      {
        assert Bounded(c.coef[i], c.exp[i], c.bap[i]);
        PushItem(c, done, i);
        QuantOne(c.coef[i], c.exp[i], c.bap[i], Slot(ch, i), qmant, done + [c.Items(i)]);
      }
    }
  }

  /** quantize_mantissas for one block: the words left in the channels' arrays are the codes of all mantissas. */
  method QuantizeBlock(chans: seq<Coded>, qmant: seq<array<Half>>)
    requires ValidCoded(chans) && Arrays(qmant) && |chans| <= |qmant|
    modifies qmant
    ensures AllInRange(Flat(BlockItems(chans)))
    ensures Laid(Words(qmant), BlockItems(chans), Codes(Flat(BlockItems(chans))))
  {
    var g := new Grouping();
    ghost var rows := BlockItems(chans);
    NothingDone(Words(qmant), g.ptr, g.cnt);
    hide Flat, State;
    for ch := 0 to |chans|
      invariant fresh(g) && g.Done(qmant, rows[..ch])
    {
      assert rows[..ch] + [chans[ch].Items(chans[ch].ncoefs)] == rows[..ch + 1];
      g.QuantMantCh(chans[ch], ch, qmant, rows[..ch]);
    }
    assert rows[..|chans|] == rows;
    StateMeans(Words(qmant), g.ptr, g.cnt, rows);
  }
}
