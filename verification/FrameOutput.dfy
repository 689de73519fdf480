/** Writing a frame (a52enc.c:653-991): header, audio blocks, padding and the two checksums. */
module FrameOutput {
  import opened BitStrings
  import opened Tables
  import opened MantissaCost
  import opened Allocation
  import opened BitAlloc
  import opened Mantissa
  import opened FrameSyntax
  import opened BitIO
  import Exponent
  import Crc

  const MAX_FRAME: nat := 3840

  /** The bit writer of a frame and the frame buffer behind it. */
  class FrameWriter {
    const bw: BitWriter
    const frame: array<Byte>

    constructor (frameBuffer: array<Byte>)
      requires frameBuffer.Length >= MAX_FRAME
      ensures frame == frameBuffer && fresh(bw) && Wrote([])
    {
      frame := frameBuffer;
      bw := new BitWriter(frameBuffer, MAX_FRAME);
    }

    /** The writer holds exactly the fields fs, unless they exceed the buffer. */
    ghost predicate Wrote(fs: seq<Field>)
      reads bw, frame
    {
      bw.Valid() && bw.buffer == frame && bw.bufEnd == MAX_FRAME &&
      (Total(fs) <= 8 * MAX_FRAME ==> !bw.eof && bw.Contents() == Emit(fs))
    }

    method Put(bits: nat, val: nat, ghost fs: seq<Field>)
      requires Wrote(fs) && bits < 32
      modifies bw, frame
      ensures Wrote(fs + [Field(bits, val)])
    {
      EmitPush(fs, Field(bits, val));
      EmitTotal(fs);
      hide Emit, Total, Bits;
      bw.WriteBits(bits, val);
    }

    method PutEach(bits: nat, vals: seq<nat>, ghost fs: seq<Field>)
      requires Wrote(fs) && bits < 32
      modifies bw, frame
      ensures Wrote(fs + Each(bits, vals))
    {
      hide Wrote;
      assert fs + Each(bits, vals)[..0] == fs;
      for i := 0 to |vals|
        invariant Wrote(fs + Each(bits, vals)[..i])
      {
        Put(bits, vals[i], fs + Each(bits, vals)[..i]);
        assert fs + Each(bits, vals)[..i] + [Field(bits, vals[i])] == fs + Each(bits, vals)[..i + 1];
      }
      assert Each(bits, vals)[..|vals|] == Each(bits, vals);
    }

    // ---------- header ----------

    method WriteHeaderStart(s: Side, ghost fs: seq<Field>)
      requires Wrote(fs)
      modifies bw, frame
      ensures Wrote(fs + HeaderStart(s))
    {
      hide Wrote;
      ghost var w := fs;
      Put(16, 0x0B77, w);
      w := w + [Field(16, 0x0B77)];
      Put(16, 0, w);
      w := w + [Field(16, 0)];
      Put(2, s.cfg.fscod, w);
      w := w + [Field(2, s.cfg.fscod)];
      Put(6, s.sizeCode, w);
      w := w + [Field(6, s.sizeCode)];
      Put(5, Bsid(s.cfg), w);
      w := w + [Field(5, Bsid(s.cfg))];
      Put(3, s.meta.bsmod, w);
      w := w + [Field(3, s.meta.bsmod)];
      Put(3, s.cfg.acmod, w);
      w := w + [Field(3, s.cfg.acmod)];
      assert w == fs + HeaderStart(s);
    }

    method WriteHeaderMix(s: Side, ghost fs: seq<Field>)
      requires Wrote(fs) && s.cfg.Valid()
      modifies bw, frame
      ensures Wrote(fs + HeaderMix(s))
    {
      hide Wrote;
      ghost var w := fs;
      if s.cfg.acmod % 2 == 1 && s.cfg.acmod != 1 {
        Put(2, s.meta.cmixlev, w);
        w := w + [Field(2, s.meta.cmixlev)];
      }
      if s.cfg.acmod / 4 % 2 == 1 {
        Put(2, s.meta.surmixlev, w);
        w := w + [Field(2, s.meta.surmixlev)];
      }
      if s.cfg.acmod == 2 {
        Put(2, s.meta.dsurmod, w);
        w := w + [Field(2, s.meta.dsurmod)];
      }
      assert w == fs + HeaderMix(s);
    }

    method WriteHeaderProgram(s: Side, ghost fs: seq<Field>)
      requires Wrote(fs)
      modifies bw, frame
      ensures Wrote(fs + HeaderProgram(s))
    {
      hide Wrote;
      ghost var w := fs;
      Put(1, B2N(s.cfg.lfe), w);
      w := w + [Field(1, B2N(s.cfg.lfe))];
      WriteProgram(s.meta.dialnorm, w);
      w := w + [Field(5, s.meta.dialnorm), Field(1, 0), Field(1, 0), Field(1, 0)];
      if s.cfg.acmod == 0 {
        WriteProgram(s.meta.dialnorm, w);
        w := w + [Field(5, s.meta.dialnorm), Field(1, 0), Field(1, 0), Field(1, 0)];
      }
      Put(1, 0, w);
      w := w + [Field(1, 0)];
      Put(1, 1, w);
      w := w + [Field(1, 1)];
      assert w == fs + HeaderProgram(s);
    }

    /** Dialogue level, and no compression word, language code or production information. */
    method WriteProgram(dialnorm: nat, ghost fs: seq<Field>)
      requires Wrote(fs)
      modifies bw, frame
      ensures Wrote(fs + [Field(5, dialnorm), Field(1, 0), Field(1, 0), Field(1, 0)])
    {
      hide Wrote;
      Put(5, dialnorm, fs);
      Put(1, 0, fs + [Field(5, dialnorm)]);
      Put(1, 0, fs + [Field(5, dialnorm)] + [Field(1, 0)]);
      Put(1, 0, fs + [Field(5, dialnorm)] + [Field(1, 0)] + [Field(1, 0)]);
      assert fs + [Field(5, dialnorm)] + [Field(1, 0)] + [Field(1, 0)] + [Field(1, 0)] ==
        fs + [Field(5, dialnorm), Field(1, 0), Field(1, 0), Field(1, 0)];
    }

    method WriteExtra1(s: Side, ghost fs: seq<Field>)
      requires Wrote(fs)
      modifies bw, frame
      ensures Wrote(fs + HeaderExtra1(s))
    {
      hide Wrote;
      ghost var w := fs;
      Put(1, B2N(s.cfg.xbsi1e), w);
      w := w + [Field(1, B2N(s.cfg.xbsi1e))];
      if s.cfg.xbsi1e {
        Put(2, s.meta.dmixmod, w);
        w := w + [Field(2, s.meta.dmixmod)];
        Put(3, s.meta.ltrtcmixlev, w);
        w := w + [Field(3, s.meta.ltrtcmixlev)];
        Put(3, s.meta.ltrtsmixlev, w);
        w := w + [Field(3, s.meta.ltrtsmixlev)];
        Put(3, s.meta.lorocmixlev, w);
        w := w + [Field(3, s.meta.lorocmixlev)];
        Put(3, s.meta.lorosmixlev, w);
        w := w + [Field(3, s.meta.lorosmixlev)];
      }
      assert w == fs + HeaderExtra1(s);
    }

    method WriteExtra2(s: Side, ghost fs: seq<Field>)
      requires Wrote(fs)
      modifies bw, frame
      ensures Wrote(fs + HeaderExtra2(s))
    {
      hide Wrote;
      ghost var w := fs;
      Put(1, B2N(s.cfg.xbsi2e), w);
      w := w + [Field(1, B2N(s.cfg.xbsi2e))];
      if s.cfg.xbsi2e {
        Put(2, s.meta.dsurexmod, w);
        w := w + [Field(2, s.meta.dsurexmod)];
        Put(2, s.meta.dheadphonmod, w);
        w := w + [Field(2, s.meta.dheadphonmod)];
        Put(1, s.meta.adconvtyp, w);
        w := w + [Field(1, s.meta.adconvtyp)];
        Put(9, 0, w);
        w := w + [Field(9, 0)];
      }
      assert w == fs + HeaderExtra2(s);
    }

    /** output_frame_header; the writer starts empty. */
    method OutputFrameHeader(s: Side)
      requires Wrote([]) && s.cfg.Valid()
      modifies bw, frame
      ensures Wrote(Header(s))
    {
      hide Wrote, HeaderExtra1, HeaderExtra2, HeaderMix, HeaderProgram, HeaderStart;
      WriteHeaderStart(s, []);
      ghost var w := [] + HeaderStart(s);
      WriteHeaderMix(s, w);
      w := w + HeaderMix(s);
      WriteHeaderProgram(s, w);
      w := w + HeaderProgram(s);
      if Bsid(s.cfg) == 6 {
        WriteExtra1(s, w);
        w := w + HeaderExtra1(s);
        WriteExtra2(s, w);
        w := w + HeaderExtra2(s);
      } else {
        Put(1, 0, w);
        w := w + [Field(1, 0)];
        Put(1, 0, w);
        w := w + [Field(1, 0)];
      }
      Put(1, 0, w);
      w := w + [Field(1, 0)];
      assert w == Header(s);
    }

    // ---------- audio blocks ----------

    method WriteDynamics(s: Side, b: nat, ghost fs: seq<Field>)
      requires Wrote(fs) && b < |s.dynrng|
      modifies bw, frame
      ensures Wrote(fs + Dynamics(s, b))
    {
      hide Wrote;
      ghost var w := fs;
      if !s.cfg.dynrng {
        Put(1, 0, w);
        w := w + [Field(1, 0)];
        if s.cfg.acmod == 0 {
          Put(1, 0, w);
          w := w + [Field(1, 0)];
        }
      } else {
        Put(1, 1, w);
        w := w + [Field(1, 1)];
        Put(8, s.dynrng[b], w);
        w := w + [Field(8, s.dynrng[b])];
        if s.cfg.acmod == 0 {
          Put(1, 1, w);
          w := w + [Field(1, 1)];
          Put(8, s.dynrng[b], w);
          w := w + [Field(8, s.dynrng[b])];
        }
      }
      assert w == fs + Dynamics(s, b);
    }

    method WriteCoupling(b: nat, ghost fs: seq<Field>)
      requires Wrote(fs)
      modifies bw, frame
      ensures Wrote(fs + Coupling(b))
    {
      hide Wrote;
      if b == 0 {
        Put(1, 1, fs);
        Put(1, 0, fs + [Field(1, 1)]);
        assert fs + [Field(1, 1)] + [Field(1, 0)] == fs + Coupling(b);
      } else {
        Put(1, 0, fs);
      }
    }

    method WriteRematrixing(s: Side, b: nat, ghost fs: seq<Field>)
      requires Wrote(fs)
      modifies bw, frame
      ensures Wrote(fs + Rematrixing(s, b))
    {
      hide Wrote;
      ghost var w := fs;
      if s.cfg.acmod == 2 {
        Put(1, B2N(b == 0), w);
        w := w + [Field(1, B2N(b == 0))];
        if b == 0 {
          PutEach(1, s.rematflg, w);
          w := w + Each(1, s.rematflg);
        }
      }
      assert w == fs + Rematrixing(s, b);
    }

    method WriteStrategies(s: Side, b: nat, ghost fs: seq<Field>)
      requires Wrote(fs) && s.Valid() && b < 6
      modifies bw, frame
      ensures Wrote(fs + Strategies(s, b))
    {
      hide Wrote;
      ghost var w := fs;
      PutEach(2, StrategyOf(s.channels, b, s.cfg.Channels()), w);
      w := w + Each(2, StrategyOf(s.channels, b, s.cfg.Channels()));
      if s.cfg.lfe {
        Put(1, s.channels[s.cfg.Channels()].strategy[b], w);
        w := w + [Field(1, s.channels[s.cfg.Channels()].strategy[b])];
      }
      assert w == fs + Strategies(s, b);
    }

    method WriteBandwidths(s: Side, b: nat, ghost fs: seq<Field>)
      requires Wrote(fs) && s.Valid() && b < 6
      modifies bw, frame
      ensures Wrote(fs + Bandwidths(s, b, s.cfg.Channels()))
    {
      hide Wrote, Side.ValidBlock;
      assert fs + Bandwidths(s, b, 0) == fs;
      for ch := 0 to s.cfg.Channels()
        invariant Wrote(fs + Bandwidths(s, b, ch))
      {
        ghost var w := fs + Bandwidths(s, b, ch);
        if s.channels[ch].strategy[b] != Exponent.REUSE {
          Put(6, s.bwcode, w);
          w := w + [Field(6, s.bwcode)];
        }
        assert w == fs + Bandwidths(s, b, ch + 1);
      }
    }

    method WriteChannelExponents(s: Side, b: nat, ch: nat, ghost fs: seq<Field>)
      requires Wrote(fs) && s.Valid() && b < 6 && ch < |s.channels|
      modifies bw, frame
      ensures Wrote(fs + ChannelExponents(s, b, ch))
    {
      assert s.ValidBlock(b);
      hide Wrote, Side.ValidBlock;
      ghost var w := fs;
      if s.channels[ch].strategy[b] != Exponent.REUSE {
        Put(4, s.grp[b][ch][0], w);
        w := w + [Field(4, s.grp[b][ch][0])];
        PutEach(7, s.grp[b][ch][1..Groups(s.channels[ch], b) + 1], w);
        w := w + Each(7, s.grp[b][ch][1..Groups(s.channels[ch], b) + 1]);
        if ch < s.cfg.Channels() {
          Put(2, 0, w);
          w := w + [Field(2, 0)];
        }
      }
      assert w == fs + ChannelExponents(s, b, ch);
    }

    method WriteExponents(s: Side, b: nat, ghost fs: seq<Field>)
      requires Wrote(fs) && s.Valid() && b < 6
      modifies bw, frame
      ensures Wrote(fs + Exponents(s, b, |s.channels|))
    {
      hide Wrote, ChannelExponents, Side.Valid;
      assert fs + Exponents(s, b, 0) == fs;
      for ch := 0 to |s.channels|
        invariant Wrote(fs + Exponents(s, b, ch))
      {
        WriteChannelExponents(s, b, ch, fs + Exponents(s, b, ch));
        assert fs + Exponents(s, b, ch) + ChannelExponents(s, b, ch) == fs + Exponents(s, b, ch + 1);
      }
    }

    method WriteParameters(s: Side, b: nat, ghost fs: seq<Field>)
      requires Wrote(fs)
      modifies bw, frame
      ensures Wrote(fs + Parameters(s, b))
    {
      hide Wrote;
      ghost var w := fs;
      Put(1, B2N(b == 0), w);
      w := w + [Field(1, B2N(b == 0))];
      if b == 0 {
        Put(2, s.codes.sdecaycod, w);
        w := w + [Field(2, s.codes.sdecaycod)];
        Put(2, s.codes.fdecaycod, w);
        w := w + [Field(2, s.codes.fdecaycod)];
        Put(2, s.codes.sgaincod, w);
        w := w + [Field(2, s.codes.sgaincod)];
        Put(2, s.codes.dbkneecod, w);
        w := w + [Field(2, s.codes.dbkneecod)];
        Put(3, s.codes.floorcod, w);
        w := w + [Field(3, s.codes.floorcod)];
      }
      assert w == fs + Parameters(s, b);
    }

    method WriteSnrFields(s: Side, b: nat, ghost fs: seq<Field>)
      requires Wrote(fs) && s.Valid() && b < 6
      modifies bw, frame
      ensures Wrote(fs + Snr(s, b))
    {
      assert s.ValidBlock(b);
      hide Wrote, Side.Valid;
      ghost var w := fs;
      Put(1, B2N(s.writeSnr[b]), w);
      w := w + [Field(1, B2N(s.writeSnr[b]))];
      if s.writeSnr[b] {
        Put(6, s.csnroffst, w);
        w := w + [Field(6, s.csnroffst)];
        assert w + Offsets(s, b, 0) == w;
        for ch := 0 to |s.fgaincod[b]|
          invariant Wrote(w + Offsets(s, b, ch))
        {
          ghost var v := w + Offsets(s, b, ch);
          Put(4, s.fsnroffst, v);
          Put(3, s.fgaincod[b][ch], v + [Field(4, s.fsnroffst)]);
          assert v + [Field(4, s.fsnroffst)] + [Field(3, s.fgaincod[b][ch])] == w + Offsets(s, b, ch + 1);
        }
        w := w + Offsets(s, b, |s.fgaincod[b]|);
      }
      assert w == fs + Snr(s, b);
    }

    method WriteBlockStart(s: Side, b: nat, ghost fs: seq<Field>)
      requires Wrote(fs) && s.Valid() && b < 6
      modifies bw, frame
      ensures Wrote(fs + BlockStart(s, b))
    {
      hide Wrote, Dynamics, Rematrixing, Strategies, Bandwidths, Coupling;
      ghost var w := fs;
      PutEach(1, s.blksw[b], w);
      w := w + Each(1, s.blksw[b]);
      PutEach(1, s.dithflag[b], w);
      w := w + Each(1, s.dithflag[b]);
      WriteDynamics(s, b, w);
      w := w + Dynamics(s, b);
      WriteCoupling(b, w);
      w := w + Coupling(b);
      WriteRematrixing(s, b, w);
      w := w + Rematrixing(s, b);
      WriteStrategies(s, b, w);
      w := w + Strategies(s, b);
      WriteBandwidths(s, b, w);
      w := w + Bandwidths(s, b, s.cfg.Channels());
      assert w == fs + BlockStart(s, b);
    }

    /** A block up to its mantissas. */
    method WriteBlockSide(s: Side, b: nat, ghost fs: seq<Field>)
      requires Wrote(fs) && s.Valid() && b < 6
      modifies bw, frame
      ensures Wrote(fs + BlockSide(s, b))
    {
      BlockSideIs(s, b);
      ghost var start, exps, params, snr :=
        BlockStart(s, b), Exponents(s, b, |s.channels|), Parameters(s, b), Snr(s, b);
      hide *;
      WriteBlockStart(s, b, fs);
      WriteExponents(s, b, fs + start);
      WriteParameters(s, b, fs + start + exps);
      WriteSnrFields(s, b, fs + start + exps + params);
      ghost var w := fs + start + exps + params + snr;
      Put(1, 0, w);
      Put(1, 0, w + [Field(1, 0)]);
      assert [Field(1, 0)] + [Field(1, 0)] == [Field(1, 0), Field(1, 0)];
      Regroup(w, [Field(1, 0)], [Field(1, 0)]);
      Regroup(fs, start + exps + params + snr, [Field(1, 0), Field(1, 0)]);
      Regroup(fs, start + exps + params, snr);
      Regroup(fs, start + exps, params);
      Regroup(fs, start, exps);
    }

    /** The mantissa loop of one channel. */
    method WriteRow(bap: seq<Byte>, q: seq<Half>, n: nat, ghost fs: seq<Field>)
      requires Wrote(fs) && n <= |bap| && n <= |q| && forall k :: 0 <= k < n ==> bap[k] <= 15
      modifies bw, frame
      ensures Wrote(fs + RowMantissas(bap, q, n))
    {
      hide Wrote;
      assert fs + RowMantissas(bap, q, 0) == fs;
      for i := 0 to n
        invariant Wrote(fs + RowMantissas(bap, q, i))
      {
        ghost var w := fs + RowMantissas(bap, q, i);
        var b := bap[i];
        match b {
          case 0 =>
          case 1 => if q[i] != 128 { Put(5, q[i], w); }
          case 2 => if q[i] != 128 { Put(7, q[i], w); }
          case 3 => Put(3, q[i], w);
          case 4 => if q[i] != 128 { Put(7, q[i], w); }
          case 14 => Put(14, q[i], w);
          case 15 => Put(16, q[i], w);
          case _ => Put(b - 1, q[i], w);
        }
        assert w + MantissaField(b, q[i]) == fs + RowMantissas(bap, q, i + 1);
        assert MantissaField(b, q[i]) == [] ==> w + MantissaField(b, q[i]) == w;
      }
    }

    method WriteMantissas(bap: seq<seq<Byte>>, q: seq<seq<Half>>, channels: seq<Channel>, ghost fs: seq<Field>)
      requires Wrote(fs) && ValidWords(bap, q, channels) && PointersInRange(bap, channels)
      modifies bw, frame
      ensures Wrote(fs + Mantissas(bap, q, channels, |channels|))
    {
      hide Wrote, RowMantissas;
      assert fs + Mantissas(bap, q, channels, 0) == fs;
      for ch := 0 to |channels|
        invariant Wrote(fs + Mantissas(bap, q, channels, ch))
      {
        WriteRow(bap[ch], q[ch], channels[ch].ncoefs, fs + Mantissas(bap, q, channels, ch));
        assert fs + Mantissas(bap, q, channels, ch) + RowMantissas(bap[ch], q[ch], channels[ch].ncoefs) ==
          fs + Mantissas(bap, q, channels, ch + 1);
      }
    }

    /** output_audio_blocks. */
    method OutputAudioBlocks(s: Side, bap: seq<seq<seq<Byte>>>, q: seq<seq<seq<Half>>>)
      requires s.Valid() && Wrote(Header(s)) && ValidFrameWords(s, bap, q)
      modifies bw, frame
      ensures Wrote(FrameFields(s, bap, q, 6))
    {
      hide Wrote, BlockSide, Mantissas, Header, Side.Valid;
      for b := 0 to 6
        invariant Wrote(FrameFields(s, bap, q, b))
      {
        ghost var w := FrameFields(s, bap, q, b);
        WriteBlockSide(s, b, w);
        WriteMantissas(bap[b], q[b], s.channels, w + BlockSide(s, b));
        assert FrameFields(s, bap, q, b + 1) == w + BlockSide(s, b) + Mantissas(bap[b], q[b], s.channels, |s.channels|);
      }
    }

    // ---------- end of frame ----------

    /** Flushes the register and fills up with zero bytes to the last checksum; false when the data is too large. */
    method PadFrame(fs: nat, ghost w: seq<Field>) returns (ok: bool)
      requires Wrote(w) && Total(w) <= 8 * MAX_FRAME && 2 <= 2 * fs <= MAX_FRAME
      modifies bw, frame
      ensures ok <==> Total(w) <= 8 * (2 * fs - 2)
      ensures ok ==> ByteBits(frame[..2 * fs - 2]) == Padded(w, fs)
    {
      EmitTotal(w);
      hide Emit, Total, ByteBits, Bits;
      bw.FlushBits();
      var bitcount := bw.BitCount();
      var n := fs * 2 - 2 - bitcount / 8;
      if n < 0 {
        return false;
      }
      FillZeros(bitcount / 8, 2 * fs - 2);
      ZerosJoin(Emit(w), bitcount - Total(w), 8 * n);
      return true;
    }

    /** memset of bytes a .. b-1. */
    method FillZeros(a: nat, b: nat)
      requires a <= b <= frame.Length
      modifies frame
      ensures ByteBits(frame[..b]) == old(ByteBits(frame[..a])) + Zeros(8 * (b - a))
    {
      hide ByteBits, Bits;
      for i := a to b
        invariant ByteBits(frame[..i]) == old(ByteBits(frame[..a])) + Zeros(8 * (i - a))
      {
        ghost var stored := frame[..i];
        frame[i] := 0;
        assert frame[..i + 1] == stored + [0];
        ByteBitsPush(stored, 0);
        BitsZero(8);
        ZerosJoin(old(ByteBits(frame[..a])), 8 * (i - a), 8);
      }
    }

    /** crc1, in front of the first fs58 words it covers, and the double-check, which never fails. */
    method StoreCrc1(fs58: nat, table: array<Crc.Word16>)
      requires Crc.TableOk(table[..]) && 2 <= fs58 && 2 * fs58 <= frame.Length
      modifies frame
      ensures Crc.IsCrc(frame[2..2 * fs58], 0)
      ensures forall k :: 0 <= k < frame.Length && k != 2 && k != 3 ==> frame[k] == old(frame[k])
    {
      hide Crc.TableOk, Crc.IsCrc, Crc.MsgPoly, Crc.PolyOf;
      var crc := Crc.CalcCrc16(table, frame, 4, 2 * fs58 - 4);
      ghost var data := frame[4..2 * fs58];
      var crc1 := Crc.Crc16Zero(crc, 2 * fs58 - 2);
      Crc.FrontCrc(data, crc, crc1);
      frame[2] := crc1 / 256;
      frame[3] := crc1 % 256;
      assert frame[2..2 * fs58] == Crc.BigEndian16(crc1) + data;
      var check := Crc.CalcCrc16(table, frame, 2, 2 * fs58 - 2);
      Crc.CrcUnique(frame[2..2 * fs58], check, 0);
      assert check == 0;
    }

    /** crc2, behind the rest of the frame. */
    method StoreCrc2(fs: nat, fs58: nat, table: array<Crc.Word16>)
      requires Crc.TableOk(table[..]) && 1 <= fs58 < fs && 2 * fs <= frame.Length
      requires Crc.IsCrc(frame[2..2 * fs58], 0)
      modifies frame
      ensures Crc.IsCrc(frame[2..2 * fs], 0)
      ensures forall k :: 0 <= k < frame.Length && k != 2 * fs - 2 && k != 2 * fs - 1 ==> frame[k] == old(frame[k])
    {
      hide Crc.TableOk, Crc.IsCrc, Crc.MsgPoly, Crc.PolyOf;
      ghost var front, back := frame[2..2 * fs58], frame[2 * fs58..2 * fs - 2];
      var crc2 := Crc.CalcCrc16(table, frame, 2 * fs58, 2 * (fs - fs58) - 2);
      frame[2 * fs - 2] := crc2 / 256;
      frame[2 * fs - 1] := crc2 % 256;
      Crc.BackCrc(back, crc2);
      assert frame[2..2 * fs] == front + (back + Crc.BigEndian16(crc2));
      Crc.ZeroPrefix(front, back + Crc.BigEndian16(crc2), 0);
    }

    /** output_frame_end: -1 when the data exceeds the frame, else the frame's size in bytes. */
    method OutputFrameEnd(fs: nat, table: array<Crc.Word16>, ghost w: seq<Field>) returns (size: int)
      requires Wrote(w) && Total(w) <= 8 * MAX_FRAME && Crc.TableOk(table[..]) && 4 <= fs && 2 * fs <= MAX_FRAME
      modifies bw, frame
      ensures size == if Total(w) <= 8 * (2 * fs - 2) then 2 * fs else -1
      ensures size != -1 ==> Crc.IsCrc(frame[2..2 * FiveEighths(fs)], 0) && Crc.IsCrc(frame[2..2 * fs], 0)
      ensures size != -1 && Total(w) >= 32 ==>
        ByteBits(frame[..2]) == Padded(w, fs)[..16] && ByteBits(frame[4..2 * fs - 2]) == Padded(w, fs)[32..]
    {
      hide Crc.TableOk, Crc.IsCrc, Emit, Total, Padded, ByteBits;
      var ok := PadFrame(fs, w);
      if !ok {
        return -1;
      }
      ghost var body := frame[..2 * fs - 2];
      var fs58 := fs / 2 + fs / 8;
      StoreCrc1(fs58, table);
      ghost var front := frame[2..2 * fs58];
      StoreCrc2(fs, fs58, table);
      assert frame[2..2 * fs58] == front;
      SplitBody(body, frame[..2], frame[4..2 * fs - 2]);
      return 2 * fs;
    }
  }

  /** `(fs >> 1) + (fs >> 3)` words: the part of the frame the first checksum covers. */
  function FiveEighths(fs: nat): nat { fs / 2 + fs / 8 }

  /** Five eighths of the frame, less what the halves and eighths of an odd size lose. */
  lemma FiveEighthsIs(fs: nat)
    ensures 8 * FiveEighths(fs) == 5 * fs - 4 * (fs % 2) - fs % 8
  {
  }

  /** The fields with the zero bits that fill the frame up to its last checksum. */
  ghost function Padded(w: seq<Field>, fs: nat): (r: seq<bool>)
    requires 2 <= 2 * fs && Total(w) <= 8 * (2 * fs - 2)
    ensures |r| == 8 * (2 * fs - 2)
  {
    EmitTotal(w);
    Emit(w) + Zeros(8 * (2 * fs - 2) - Total(w))
  }

  lemma ZerosJoin(a: seq<bool>, m: nat, n: nat)
    ensures a + Zeros(m) + Zeros(n) == a + Zeros(m + n)
  {
  }

  /** The bits of a byte string before and after its third and fourth byte. */
  lemma SplitBody(body: seq<Byte>, a: seq<Byte>, b: seq<Byte>)
    requires |body| >= 4 && a == body[..2] && b == body[4..]
    ensures |ByteBits(body)| >= 32 && ByteBits(a) == ByteBits(body)[..16] && ByteBits(b) == ByteBits(body)[32..]
  {
    assert body == body[..4] + body[4..] && body == body[..2] + body[2..];
    hide ByteBits;
    ByteBitsConcat(body[..4], body[4..]);
    ByteBitsConcat(body[..2], body[2..]);
  }

  ghost predicate PointersInRange(bap: seq<seq<Byte>>, channels: seq<Channel>)
    requires |bap| == |channels|
  {
    forall ch :: 0 <= ch < |channels| ==>
      channels[ch].ncoefs <= |bap[ch]| && forall k :: 0 <= k < channels[ch].ncoefs ==> bap[ch][k] <= 15
  }

  ghost predicate ValidFrameWords(s: Side, bap: seq<seq<seq<Byte>>>, q: seq<seq<seq<Half>>>)
  {
    |bap| == |q| == 6 && forall b :: 0 <= b < 6 ==>
      ValidWords(bap[b], q[b], s.channels) && PointersInRange(bap[b], s.channels)
  }

  /** All fields up to the end of block n - 1. */
  ghost function FrameFields(s: Side, bap: seq<seq<seq<Byte>>>, q: seq<seq<seq<Half>>>, n: nat): seq<Field>
    requires s.Valid() && ValidFrameWords(s, bap, q) && n <= 6
  {
    if n == 0 then Header(s)
    else FrameFields(s, bap, q, n - 1) + BlockSide(s, n - 1) + Mantissas(bap[n - 1], q[n - 1], s.channels, |s.channels|)
  }

  // ---------- the bits of a frame, counted ----------

  lemma MantissaFieldIs(b: nat, q: nat)
    ensures Emit(MantissaField(b, q)) == Written(b, q)
  {
    if Grouped(b) && q != 128 {
      EmitPush([], Field(CodeBits(b), q));
      assert [] + [Field(CodeBits(b), q)] == [Field(CodeBits(b), q)];
    } else if !Grouped(b) && b != 0 {
      EmitPush([], Field(Width(b), q));
      assert [] + [Field(Width(b), q)] == [Field(Width(b), q)];
    } else {
      assert Bits(q, 0) == [];
    }
  }

  lemma {:induction false} FlatAt<T>(rows: seq<seq<T>>, s: Slot)
    requires Within(s, rows)
    ensures Pos(rows, s) < |Flat(rows)| && Flat(rows)[Pos(rows, s)] == rows[s.ch][s.i]
  {
    var n := |rows| - 1;
    PosUnique(rows, s, s);
    if s.ch < n {
      FlatAt(rows[..n], s);
      assert rows[..n][..s.ch] == rows[..s.ch];
    }
  }

  /** Pointers and words are those of quantised mantissas. */
  ghost predicate HoldItems(bap: seq<seq<Byte>>, q: seq<seq<Half>>, channels: seq<Channel>, rows: seq<seq<Item>>)
  {
    ValidWords(bap, q, channels) && |rows| == |channels| && AllInRange(Flat(rows)) &&
    Laid(q, rows, Codes(Flat(rows))) &&
    forall ch :: 0 <= ch < |rows| ==>
      |rows[ch]| == channels[ch].ncoefs && forall k :: 0 <= k < |rows[ch]| ==> rows[ch][k].b == bap[ch][k]
  }

  lemma HoldShape(bap: seq<seq<Byte>>, q: seq<seq<Half>>, channels: seq<Channel>, rows: seq<seq<Item>>)
    requires HoldItems(bap, q, channels, rows)
    ensures ValidWords(bap, q, channels) && |rows| == |channels| == |bap| == |q| && AllInRange(Flat(rows))
    ensures forall c :: 0 <= c < |rows| ==> |bap[c]| == |q[c]| == 256 && |rows[c]| == channels[c].ncoefs <= 256
  {
  }

  lemma RowSlots(rows: seq<seq<Item>>, ch: nat)
    requires ch < |rows|
    ensures Off(rows, ch) + |rows[ch]| <= |Flat(rows)|
    ensures forall k :: 0 <= k < |rows[ch]| ==> Within(Slot(ch, k), rows) && Pos(rows, Slot(ch, k)) == Off(rows, ch) + k
  {
    OffMono(rows, ch, |rows|);
    OffStep(rows, ch);
    hide Flat, Off;
  }

  lemma OneMantissa(bap: seq<seq<Byte>>, q: seq<seq<Half>>, channels: seq<Channel>, rows: seq<seq<Item>>, s: Slot,
                    items: seq<Item>, p: nat)
    requires HoldItems(bap, q, channels, rows) && Within(s, rows) && items == Flat(rows) && p == Pos(rows, s)
    ensures p < |items| && AllInRange(items)
    ensures EmittedTo(items, p + 1) == EmittedTo(items, p) + Emit(MantissaField(bap[s.ch][s.i], q[s.ch][s.i]))
  {
    FlatAt(rows, s);
    CodeAtRange(items, p);
    assert q[s.ch][s.i] == Codes(items)[p];
    MantissaFieldIs(bap[s.ch][s.i], q[s.ch][s.i]);
    hide Emit, Flat, Off, CodeAt, Written, MantissaField;
  }

  lemma RowPush(bap: seq<Byte>, q: seq<Half>, n: nat)
    requires n < |bap| && n < |q|
    ensures Emit(RowMantissas(bap, q, n + 1)) == Emit(RowMantissas(bap, q, n)) + Emit(MantissaField(bap[n], q[n]))
  {
    EmitConcat(RowMantissas(bap, q, n), MantissaField(bap[n], q[n]));
    hide Emit, MantissaField;
  }

  /** Position p + k of the block emits what pointer and word k of a row write. */
  ghost predicate Emits(items: seq<Item>, p: nat, row: seq<Byte>, words: seq<Half>, k: nat)
    requires AllInRange(items) && p + k < |items| && k < |row| && k < |words|
  {
    EmittedTo(items, p + k + 1) == EmittedTo(items, p + k) + Emit(MantissaField(row[k], words[k]))
  }

  lemma EmitsIs(items: seq<Item>, p: nat, row: seq<Byte>, words: seq<Half>, k: nat)
    requires AllInRange(items) && p + k < |items| && k < |row| && k < |words| && Emits(items, p, row, words, k)
    ensures EmittedTo(items, p + (k + 1)) == EmittedTo(items, p + k) + Emit(MantissaField(row[k], words[k]))
  {
  }

  lemma RowNone(row: seq<Byte>, words: seq<Half>)
    ensures Emit(RowMantissas(row, words, 0)) == []
  {
  }

  lemma {:induction false} RowBits(items: seq<Item>, p: nat, row: seq<Byte>, words: seq<Half>, n: nat)
    requires AllInRange(items) && p + n <= |items| && n <= |row| && n <= |words|
    requires forall k :: 0 <= k < n ==> Emits(items, p, row, words, k)
    ensures EmittedTo(items, p + n) == EmittedTo(items, p) + Emit(RowMantissas(row, words, n))
  {
    hide *;
    if n == 0 {
      RowNone(row, words);
    } else {
      RowBits(items, p, row, words, n - 1);
      RowPush(row, words, n - 1);
      EmitsIs(items, p, row, words, n - 1);
      Regroup(EmittedTo(items, p), Emit(RowMantissas(row, words, n - 1)),
        Emit(MantissaField(row[n - 1], words[n - 1])));
    }
  }

  lemma RowEmits(bap: seq<seq<Byte>>, q: seq<seq<Half>>, channels: seq<Channel>, rows: seq<seq<Item>>, ch: nat)
    requires HoldItems(bap, q, channels, rows) && ch < |rows|
    ensures AllInRange(Flat(rows)) && |bap[ch]| == |q[ch]| == 256
    ensures |rows[ch]| == channels[ch].ncoefs <= 256 && Off(rows, ch) + |rows[ch]| <= |Flat(rows)|
    ensures forall k :: 0 <= k < |rows[ch]| ==> Emits(Flat(rows), Off(rows, ch), bap[ch], q[ch], k)
  {
    hide *;
    HoldShape(bap, q, channels, rows);
    RowSlots(rows, ch);
    var items, p := Flat(rows), Off(rows, ch);
    forall k | 0 <= k < |rows[ch]|
      ensures p + k < |items| && Emits(items, p, bap[ch], q[ch], k)
    {
      OneMantissa(bap, q, channels, rows, Slot(ch, k), items, p + k);
      EmitsFrom(items, p, bap[ch], q[ch], k);
    }
  }

  lemma EmitsFrom(items: seq<Item>, p: nat, row: seq<Byte>, words: seq<Half>, k: nat)
    requires AllInRange(items) && p + k < |items| && k < |row| && k < |words|
    requires EmittedTo(items, p + k + 1) == EmittedTo(items, p + k) + Emit(MantissaField(row[k], words[k]))
    ensures Emits(items, p, row, words, k)
  {
  }

  lemma MantissasPush(bap: seq<seq<Byte>>, q: seq<seq<Half>>, channels: seq<Channel>, n: nat)
    requires ValidWords(bap, q, channels) && n < |channels|
    ensures Emit(Mantissas(bap, q, channels, n + 1)) ==
      Emit(Mantissas(bap, q, channels, n)) + Emit(RowMantissas(bap[n], q[n], channels[n].ncoefs))
  {
    EmitConcat(Mantissas(bap, q, channels, n), RowMantissas(bap[n], q[n], channels[n].ncoefs));
    hide Emit, RowMantissas;
  }

  /** The mantissa bits of the first n channels of a block. */
  ghost function Through(rows: seq<seq<Item>>, n: nat): seq<bool>
    requires AllInRange(Flat(rows)) && n <= |rows|
  {
    OffWithin(rows, n);
    EmittedTo(Flat(rows), Off(rows, n))
  }

  lemma OffWithin<T>(rows: seq<seq<T>>, n: nat)
    requires n <= |rows|
    ensures Off(rows, n) <= |Flat(rows)| && Off(rows, 0) == 0 && Off(rows, |rows|) == |Flat(rows)|
  {
    assert rows[..|rows|] == rows && rows[..0] == [];
    if n < |rows| { OffMono(rows, n, |rows|); }
  }

  lemma RowThrough(bap: seq<seq<Byte>>, q: seq<seq<Half>>, channels: seq<Channel>, rows: seq<seq<Item>>, n: nat)
    requires HoldItems(bap, q, channels, rows) && n < |rows|
    ensures AllInRange(Flat(rows)) && ValidWords(bap, q, channels) && n < |channels|
    ensures Through(rows, n + 1) == Through(rows, n) + Emit(RowMantissas(bap[n], q[n], channels[n].ncoefs))
  {
    hide *;
    HoldShape(bap, q, channels, rows);
    RowEmits(bap, q, channels, rows, n);
    RowBits(Flat(rows), Off(rows, n), bap[n], q[n], |rows[n]|);
    OffStep(rows, n);
    ThroughIs(rows, n);
    ThroughIs(rows, n + 1);
  }

  lemma ThroughIs(rows: seq<seq<Item>>, n: nat)
    requires n <= |rows| && AllInRange(Flat(rows))
    ensures Off(rows, n) <= |Flat(rows)| && Through(rows, n) == EmittedTo(Flat(rows), Off(rows, n))
  {
    OffWithin(rows, n);
  }

  /** What a block writes for its mantissas is what Mantissa.MantissaRoundTrip decodes. */
  lemma {:induction false} MantissaBits(bap: seq<seq<Byte>>, q: seq<seq<Half>>, channels: seq<Channel>,
                                        rows: seq<seq<Item>>, n: nat)
    requires HoldItems(bap, q, channels, rows) && n <= |rows|
    ensures AllInRange(Flat(rows)) && ValidWords(bap, q, channels) && n <= |channels|
    ensures Emit(Mantissas(bap, q, channels, n)) == Through(rows, n)
  {
    assert AllInRange(Flat(rows)) && ValidWords(bap, q, channels) && n <= |channels|;
    if n == 0 {
      OffWithin(rows, 0);
    } else {
      hide *;
      MantissaBits(bap, q, channels, rows, n - 1);
      RowThrough(bap, q, channels, rows, n - 1);
      MantissasPush(bap, q, channels, n - 1);
    }
  }

  lemma {:induction false} BapsOfRows(rows: seq<seq<Item>>, baps: seq<seq<nat>>)
    requires |rows| == |baps| && forall c :: 0 <= c < |rows| ==> Pointers(rows[c]) == baps[c]
    ensures Pointers(Flat(rows)) == Flat(baps)
  {
    if rows != [] {
      var n := |rows| - 1;
      BapsOfRows(rows[..n], baps[..n]);
    }
  }

  /** A block's mantissas take exactly the bits the allocation counted. */
  lemma BlockMantissaTotal(bap: seq<seq<Byte>>, q: seq<seq<Half>>, channels: seq<Channel>, rows: seq<seq<Item>>,
                           baps: seq<seq<nat>>)
    requires HoldItems(bap, q, channels, rows) && |baps| == |rows|
    requires forall ch :: 0 <= ch < |baps| ==> bap[ch][..channels[ch].ncoefs] == baps[ch]
    ensures Total(Mantissas(bap, q, channels, |channels|)) == BlockBits(Flat(baps))
  {
    MantissaBits(bap, q, channels, rows, |rows|);
    EmitTotal(Mantissas(bap, q, channels, |channels|));
    OffWithin(rows, |rows|);
    EmittedBits(Flat(rows), |Flat(rows)|);
    forall c | 0 <= c < |rows|
      ensures Pointers(rows[c]) == baps[c]
    {
      assert |bap[c][..channels[c].ncoefs]| == |rows[c]|;
    }
    BapsOfRows(rows, baps);
    assert Flat(rows)[..|Flat(rows)|] == Flat(rows);
  }

  // ---------- the whole frame ----------

  /** exp_bits: what group_exponents counts for the first n blocks. */
  ghost function FrameExponentBits(channels: seq<Channel>, n: nat): nat
    requires n <= 6 && forall ch :: 0 <= ch < |channels| ==> channels[ch].Valid()
  {
    if n == 0 then 0 else FrameExponentBits(channels, n - 1) + ExponentBits(channels, n - 1, |channels|)
  }

  /** Pointers are those of search position pos, words the codes of quantised mantissas. */
  ghost predicate Encoded(s: Side, f: FrameIn, pos: int, bap: seq<seq<seq<Byte>>>, q: seq<seq<seq<Half>>>,
                          items: seq<seq<seq<Item>>>)
  {
    s.Valid() && s.GainsRight() && f.Valid() && f.channels == s.channels && AllocatedTo(bap, f, 6, pos) &&
    |q| == |items| == 6 && forall b :: 0 <= b < 6 ==> HoldItems(bap[b], q[b], s.channels, items[b])
  }

  lemma EncodedBlock(s: Side, f: FrameIn, pos: int, bap: seq<seq<seq<Byte>>>, q: seq<seq<seq<Half>>>,
                     items: seq<seq<seq<Item>>>, b: nat)
    requires Encoded(s, f, pos, bap, q, items) && b < 6
    ensures |bap| == |q| == 6 && ValidWords(bap[b], q[b], s.channels) && PointersInRange(bap[b], s.channels)
    ensures Total(Mantissas(bap[b], q[b], s.channels, |s.channels|)) == BlockBits(Flat(BlockRows(f, b, pos)))
  {
    assert HoldItems(bap[b], q[b], s.channels, items[b]);
    forall ch | 0 <= ch < |s.channels|
      ensures bap[b][ch][..s.channels[ch].ncoefs] == BlockRows(f, b, pos)[ch]
    {
      assert AllocatedRow(bap[b][ch], f.channels[ch], f.p, b, pos);
    }
    assert PointersInRange(bap[b], s.channels) by {
      forall ch, k | 0 <= ch < |s.channels| && 0 <= k < s.channels[ch].ncoefs
        ensures bap[b][ch][k] <= 15
      {
        assert bap[b][ch][k] == BlockRows(f, b, pos)[ch][k];
      }
    }
    hide *;
    BlockMantissaTotal(bap[b], q[b], s.channels, items[b], BlockRows(f, b, pos));
  }

  lemma EncodedWords(s: Side, f: FrameIn, pos: int, bap: seq<seq<seq<Byte>>>, q: seq<seq<seq<Half>>>,
                     items: seq<seq<seq<Item>>>)
    requires Encoded(s, f, pos, bap, q, items)
    ensures ValidFrameWords(s, bap, q)
  {
    hide Encoded, PointersInRange;
    EncodedBlock(s, f, pos, bap, q, items, 0);
    forall b | 0 <= b < 6
      ensures ValidWords(bap[b], q[b], s.channels) && PointersInRange(bap[b], s.channels)
    {
      EncodedBlock(s, f, pos, bap, q, items, b);
    }
  }

  lemma {:induction false} BlocksTotal(s: Side, f: FrameIn, pos: int, bap: seq<seq<seq<Byte>>>, q: seq<seq<seq<Half>>>,
                                       items: seq<seq<seq<Item>>>, n: nat)
    requires Encoded(s, f, pos, bap, q, items) && ValidFrameWords(s, bap, q) && n <= 6
    ensures Total(FrameFields(s, bap, q, n)) ==
      Total(Header(s)) + SideBitsTo(s.cfg, s.channels, n) + FrameExponentBits(s.channels, n) + CostOf(f, pos, n)
  {
    if n > 0 {
      BlocksTotal(s, f, pos, bap, q, items, n - 1);
      BlockSideTotal(s, n - 1);
      EncodedBlock(s, f, pos, bap, q, items, n - 1);
      var before := FrameFields(s, bap, q, n - 1);
      EmitConcat(before, BlockSide(s, n - 1));
      EmitConcat(before + BlockSide(s, n - 1), Mantissas(bap[n - 1], q[n - 1], s.channels, |s.channels|));
      hide Total, Encoded, BlockSide, Mantissas, SideBits, ExponentBits, BlockRows, BlockBits, Header, ValidFrameWords,
        Side.Valid, FrameIn.Valid;
    }
  }

  /** Bit accounting: header and audio blocks emit frame_bits + exp_bits + mant_bits less the 18 bits of auxdatae,
      crcrsv and crc2, and less extra information that is counted but not sent. */
  lemma FrameTotal(s: Side, f: FrameIn, pos: int, bap: seq<seq<seq<Byte>>>, q: seq<seq<seq<Half>>>,
                   items: seq<seq<seq<Item>>>)
    requires Encoded(s, f, pos, bap, q, items) && ValidFrameWords(s, bap, q)
    ensures Total(FrameFields(s, bap, q, 6)) + 18 + Unsent(s.cfg) ==
      FrameBits(s.cfg, s.channels) + FrameExponentBits(s.channels, 6) + Cost(f, pos)
  {
    BlocksTotal(s, f, pos, bap, q, items, 6);
    HeaderTotal(s);
    hide Total, FrameFields, SideBitsTo, FrameExponentBits, CostOf, HeaderInc, Header, Unsent;
  }

  /** Bits the allocation may spend on mantissas in a frame of fs words. */
  ghost function Room(cfg: Config, channels: seq<Channel>, fs: nat): int
    requires ValidChannels(cfg, channels)
  {
    16 * fs - (FrameBits(cfg, channels) + FrameExponentBits(channels, 6))
  }

  /** An allocation that fits leaves room for the padding's fixed part and both checksums: the data never exceeds the
      frame. */
  lemma FrameFits(s: Side, f: FrameIn, pos: int, bap: seq<seq<seq<Byte>>>, q: seq<seq<seq<Half>>>,
                  items: seq<seq<seq<Item>>>, fs: nat)
    requires Encoded(s, f, pos, bap, q, items) && ValidFrameWords(s, bap, q)
    requires Cost(f, pos) <= Room(s.cfg, s.channels, fs)
    ensures Total(FrameFields(s, bap, q, 6)) <= 16 * fs - 18
  {
    FrameTotal(s, f, pos, bap, q, items);
    hide Total, FrameFields, FrameBits, FrameExponentBits, Cost, Unsent, Encoded, ValidFrameWords;
  }
}
