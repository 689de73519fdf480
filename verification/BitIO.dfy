/** The bit writer (bitio.c): a 32-bit register in front of a byte buffer. */
module BitIO {
  import opened BitStrings

  /** The four bytes of a register in big-endian order. */
  function BigEndian(w: Word): (s: seq<Byte>)
    ensures |s| == 4
  {
    [w / 0x100_0000, w / 0x1_0000 % 256, w / 0x100 % 256, w % 256]
  }

  lemma {:induction false} Shr8(w: nat)
    ensures Shr(w, 8) == w / 0x100 && Mask(w, 8) == w % 0x100
  {
    Pow2Values();
    WordOps(0, w, 8);
    MaskBound(w, 8);
  }

  lemma {:induction false} ByteOf(w: nat, n: nat)
    ensures Bits(w, n + 8) == Bits(w / 0x100, n) + Bits(w % 0x100, 8)
  {
    Shr8(w);
    BitsSplit(w, n, 8);
    BitsMask(w, 8, 8);
  }

  lemma {:induction false} BigEndianBits(a: seq<Byte>, w: Word)
    ensures ByteBits(a + BigEndian(w)) == ByteBits(a) + Bits(w, 32)
  {
    var s := BigEndian(w);
    hide Bits, ByteBits;
    ByteOf(w, 24);
    ByteOf(w / 0x100, 16);
    ByteOf(w / 0x1_0000, 8);
    ByteOf(w / 0x100_0000, 0);
    ByteBitsPush(a, s[0]);
    ByteBitsPush(a + [s[0]], s[1]);
    ByteBitsPush(a + [s[0]] + [s[1]], s[2]);
    ByteBitsPush(a + [s[0]] + [s[1]] + [s[2]], s[3]);
    assert a + s == a + [s[0]] + [s[1]] + [s[2]] + [s[3]];
  }

  /** A 32-bit register whose low `n` bits are valid takes `k` more, whatever lay above them. */
  lemma {:induction false} AppendToRegister(buf: Word, n: nat, v: nat, k: nat)
    requires n + k <= 32
    ensures Mask(ShlOr(buf, v, k), 32) < 0x1_0000_0000
    ensures Bits(Mask(ShlOr(buf, v, k), 32), n + k) == Bits(buf, n) + Bits(v, k)
  {
    MaskBound(ShlOr(buf, v, k), 32);
    BitsMask(ShlOr(buf, v, k), 32, n + k);
    BitsShlOr(buf, v, n, k);
  }

  /** One byte leaves the top of the register; zeros enter at the bottom. */
  lemma {:induction false} TopByte(buf: Word, m: nat)
    requires m <= 24
    ensures Shr(buf, 24) < 256
    ensures Bits(buf, 32)[..m + 8] == Bits(Shr(buf, 24), 8) + Bits(Shl32(buf, 8), 32)[..m]
  {
    var w := ShlOr(buf, 0, 8);
    BitsSplit(buf, 8, 24);
    AppendToRegister(buf, 24, 0, 8);
    WordOps(0, buf, 24);
    Pow2Values();
  }

  class BitWriter {
    var bitBuf: Word
    var bitLeft: nat
    var buffer: array?<Byte>
    var bufPtr: nat      // offset of buf_ptr from buffer
    var bufEnd: nat      // offset of buf_end from buffer
    var eof: bool

    ghost predicate Valid()
      reads this
    {
      && bitLeft <= 32
      && (buffer != null ==> bufPtr <= bufEnd <= buffer.Length)
    }

    /** Every bit accepted so far: the stored bytes, then the valid low bits of the register. */
    ghost function Contents(): (s: seq<bool>)
      requires Valid() && buffer != null
      reads this, buffer
      ensures |s| == 8 * bufPtr + 32 - bitLeft
    {
      ByteBits(buffer[..bufPtr]) + Bits(bitBuf, 32 - bitLeft)
    }

    /** Whether a field of `bits` bits is taken: it stays in the register or the next word has room. */
    ghost predicate Accepts(bits: nat)
      reads this
    {
      bits <= bitLeft || buffer == null || (!eof && bufPtr + 3 < bufEnd)
    }

    constructor (buf: array?<Byte>, len: int)
      requires buf != null ==> len <= buf.Length
      ensures Valid() && !eof && bufPtr == 0 && bitLeft == 32
      ensures buffer == if len < 0 then null else buf
      ensures bufEnd == if len < 0 then 0 else len
      ensures buffer != null ==> Contents() == []
    {
      buffer := if len < 0 then null else buf;
      bufEnd := if len < 0 then 0 else len;
      bufPtr := 0;
      bitLeft := 32;
      bitBuf := 0;
      eof := false;
    }

    /** Stores a full register at the write position; false when the buffer is exhausted. */
    method StoreWord(w: Word) returns (ok: bool)
      requires Valid()
      modifies this`eof, buffer
      ensures Valid() && buffer == old(buffer)
      ensures ok == (buffer == null || (!old(eof) && bufPtr + 3 < bufEnd))
      ensures eof == (old(eof) || !ok)
      ensures buffer != null && ok ==>
        (bufPtr + 4 <= bufEnd && ByteBits(buffer[..bufPtr + 4]) == old(ByteBits(buffer[..bufPtr])) + Bits(w, 32))
      ensures buffer != null && !ok ==> buffer[..] == old(buffer[..])
    {
      hide Bits, ByteBits;
      if buffer != null {
        if eof { return false; }
        if bufPtr + 3 >= bufEnd {
          eof := true;
          return false;
        }
        var s := BigEndian(w);
        ghost var stored := buffer[..bufPtr];
        BigEndianBits(stored, w);
        buffer[bufPtr], buffer[bufPtr + 1], buffer[bufPtr + 2], buffer[bufPtr + 3] := s[0], s[1], s[2], s[3];
        assert buffer[..bufPtr + 4] == stored + s;
      }
      return true;
    }

    /** The overflow branch: the register is topped up from the high end of the field, stored, and then keeps the whole
        field, of which only the low `bits - bitLeft` bits still count. */
    method Spill(bits: nat, v: Word)
      requires Valid() && bitLeft < bits < 32
      modifies this, buffer
      ensures Valid() && buffer == old(buffer) && bufEnd == old(bufEnd)
      ensures old(Accepts(bits)) ==> eof == old(eof) && bufPtr == old(bufPtr) + 4 && bitLeft == old(bitLeft) + 32 - bits
      ensures !old(Accepts(bits)) ==> eof && bufPtr == old(bufPtr) && bitLeft == old(bitLeft)
      ensures buffer != null ==>
        Contents() == if old(Accepts(bits)) then old(Contents()) + Bits(v, bits) else old(Contents())
    {
      hide Bits, ByteBits, Mask, ShlOr, Shr, Pow2;
      ghost var before := if buffer != null then ByteBits(buffer[..bufPtr]) else [];
      var carry := bits - bitLeft;
      BitsSplit(v, bitLeft, carry);
      AppendToRegister(bitBuf, 32 - bitLeft, Shr(v, carry), bitLeft);
      RegroupFour(before, Bits(bitBuf, 32 - bitLeft), Bits(Shr(v, carry), bitLeft), Bits(v, carry));
      var bb := Mask(ShlOr(bitBuf, Shr(v, carry), bitLeft), 32);
      var ok := StoreWord(bb);
      if ok {
        bitLeft := bitLeft + (32 - bits);
        bufPtr := bufPtr + 4;
        bitBuf := v;
      }
    }

    /** Writes the low `bits` bits of `val`. `bits == 32` is excluded: the source shifts by 32 there. */
    method WriteBits(bits: nat, val: nat)
      requires Valid() && bits != 32
      modifies this, buffer
      ensures Valid() && buffer == old(buffer) && bufEnd == old(bufEnd)
      ensures bits > 32 ==> unchanged(this)
      ensures bits < 32 && old(Accepts(bits)) ==>
        8 * bufPtr + 32 - bitLeft == old(8 * bufPtr + 32 - bitLeft) + bits && eof == old(eof)
      ensures bits < 32 && old(Accepts(bits)) && buffer != null ==> Contents() == old(Contents()) + Bits(val, bits)
      ensures bits < 32 && !old(Accepts(bits)) ==> eof && Contents() == old(Contents())
      ensures bufPtr % 4 == old(bufPtr) % 4
    {
      if bits == 0 || bits > 32 {
        return;
      }
      hide Bits, ByteBits, Mask, ShlOr, Shr, Pow2;
      var v := Mask(val, bits);
      MaskBound(val, bits);
      MaskBound(val, 32);
      Pow2Mono(bits, 32);
      BitsMask(val, bits, bits);
      if bits <= bitLeft {
        ghost var before := if buffer != null then ByteBits(buffer[..bufPtr]) else [];
        AppendToRegister(bitBuf, 32 - bitLeft, v, bits);
        Regroup(before, Bits(bitBuf, 32 - bitLeft), Bits(v, bits));
        bitBuf := Mask(ShlOr(bitBuf, v, bits), 32);
        bitLeft := bitLeft - bits;
      } else {
        Spill(bits, v);
      }
    }

    method WriteBit(val: nat)
      requires Valid()
      modifies this, buffer
      ensures Valid() && buffer == old(buffer) && bufEnd == old(bufEnd)
      ensures old(Accepts(1)) ==>
        8 * bufPtr + 32 - bitLeft == old(8 * bufPtr + 32 - bitLeft) + 1 && eof == old(eof)
      ensures old(Accepts(1)) && buffer != null ==> Contents() == old(Contents()) + [val % 2 == 1]
      ensures !old(Accepts(1)) ==> eof && Contents() == old(Contents())
    {
      assert Bits(val % 2, 1) == [val % 2 == 1] && Bits(bitBuf, 0) == [];
      hide Bits, ByteBits, Mask, ShlOr;
      if bitLeft != 0 {
        ghost var before := if buffer != null then ByteBits(buffer[..bufPtr]) else [];
        Regroup(before, Bits(bitBuf, 32 - bitLeft), Bits(val % 2, 1));
        AppendToRegister(bitBuf, 32 - bitLeft, val % 2, 1);
        bitBuf := Mask(ShlOr(bitBuf, val % 2, 1), 32);
        bitLeft := bitLeft - 1;
      } else {
        var ok := StoreWord(bitBuf);
        if !ok { return; }
        bitLeft := 31;
        bufPtr := bufPtr + 4;
        bitBuf := val % 2;
      }
    }

    /** One round of the flush loop: the top byte of the register is stored. */
    method StoreByte()
      requires buffer != null && bufPtr < bufEnd <= buffer.Length
      modifies this`bufPtr, this`bitBuf, this`bitLeft, buffer
      ensures bufPtr == old(bufPtr) + 1 && bitLeft == old(bitLeft) + 8
      ensures forall m :: 0 <= m <= 24 ==>
        ByteBits(buffer[..bufPtr]) + Bits(bitBuf, 32)[..m] ==
          old(ByteBits(buffer[..bufPtr]) + Bits(bitBuf, 32)[..m + 8])
    {
      hide Bits, ByteBits, Mask, ShlOr, Shr;
      ghost var stored, reg := buffer[..bufPtr], bitBuf;
      TopByte(bitBuf, 0);
      ByteBitsPush(stored, Shr(bitBuf, 24));
      buffer[bufPtr] := Shr(bitBuf, 24);
      assert buffer[..bufPtr + 1] == stored + [buffer[bufPtr]];
      bufPtr := bufPtr + 1;
      bitBuf := Shl32(bitBuf, 8);
      bitLeft := bitLeft + 8;
      forall m | 0 <= m <= 24
        ensures ByteBits(buffer[..bufPtr]) + Bits(bitBuf, 32)[..m] == ByteBits(stored) + Bits(reg, 32)[..m + 8]
      {
        TopByte(reg, m);
        Regroup(ByteBits(stored), Bits(Shr(reg, 24), 8), Bits(bitBuf, 32)[..m]);
      }
    }

    /** Pads with zero bits to the next byte and stores the register. */
    method FlushBits()
      requires Valid()
      requires bitLeft < 32 ==> buffer != null && bufPtr + (39 - bitLeft) / 8 <= bufEnd
      modifies this, buffer
      ensures Valid() && buffer == old(buffer) && bufEnd == old(bufEnd) && eof == old(eof)
      ensures bitLeft == 32 && bufPtr == old(bufPtr + (39 - bitLeft) / 8)
      ensures buffer != null ==> Contents() == old(Contents()) + Zeros(8 * bufPtr - old(8 * bufPtr + 32 - bitLeft))
    {
      hide Bits, ByteBits, Mask, ShlOr, Shr;
      ghost var start, n := bufPtr, 32 - bitLeft;
      ghost var word := if buffer != null then Contents() + Zeros(bitLeft) else [];
      AppendToRegister(bitBuf, n, 0, bitLeft);
      BitsZero(bitLeft);
      bitBuf := Shl32(bitBuf, bitLeft);
      while bitLeft < 32
        invariant bitLeft <= 39 && start <= bufPtr && bitLeft == 32 - n + 8 * (bufPtr - start)
        invariant buffer == old(buffer) && bufEnd == old(bufEnd) && eof == old(eof)
        invariant bitLeft < 32 ==> buffer != null
        invariant buffer != null ==> bufPtr <= bufEnd <= buffer.Length && bufPtr <= start + 4
        invariant buffer != null ==>
          word == ByteBits(buffer[..bufPtr]) + Bits(bitBuf, 32)[..32 - 8 * (bufPtr - start)]
        decreases 39 - bitLeft
      {
        StoreByte();
      }
      bitLeft := 32;
      bitBuf := 0;
    }

    /** The number of bits accepted since initialisation. */
    method BitCount() returns (r: nat)
      requires Valid()
      ensures r == 8 * bufPtr + 32 - bitLeft
      ensures buffer != null ==> r == |Contents()|
    {
      r := bufPtr * 8 + 32 - bitLeft;
    }
  }
}
