/** The fragmentation buffer (src/fragmentation_buffer.h, src/fragmentation_buffer.c) and what src/header.c and
    src/trailer.c do in it: the SDU is copied once, every header is written in place in front of it. Positions are
    indices where the source has pointers; the bounds that the source asserts are preconditions, proved at each
    call. */
module FragmentationBuffer {
  import opened Bytes
  import opened Conf
  import opened ProtoType
  import opened AlpduCodec
  import opened PpduHeader
  import opened Crc
  import opened Transmit

  /** Room for the largest PPDU header, ALPDU header, SDU and trailer, and not one byte more. */
  const F_BUFF_LEN := 4 + 3 + MAX_PDU_SIZE + 4
  const SDU_AT := 4 + 3

  lemma CutSlice(a: array<byte>, lo: nat, mid: nat, hi: nat)
    requires lo <= mid <= hi <= a.Length
    ensures a[lo..hi][..mid - lo] == a[lo..mid] && a[lo..hi][mid - lo..] == a[mid..hi]
  {
  }

  class FragBuf {
    const buffer: array<byte>
    var curPos: nat
    var ptype: u16
    var sduSize: nat
    var crc: bv32
    var sduStart: nat
    var sduEnd: nat
    var alpduStart: nat
    var alpduEnd: nat
    var ppduStart: nat
    var ppduEnd: nat

    /** rle_frag_buf_new, then rle_frag_buf_init. */
    constructor ()
      ensures fresh(buffer) && buffer.Length == F_BUFF_LEN == 4099
    {
      buffer := new byte[F_BUFF_LEN](i => 0);
      curPos, sduStart, sduEnd := SDU_AT, SDU_AT, SDU_AT;
      alpduStart, alpduEnd, ppduStart, ppduEnd := SDU_AT, SDU_AT, SDU_AT, SDU_AT;
      ptype, sduSize, crc := 0, 0, 0;
    }

    /** Every byte outside lo..hi is as it was. */
    twostate predicate KeptOutside(lo: int, hi: int)
      reads buffer
    {
      forall i :: 0 <= i < buffer.Length && (i < lo || hi <= i) ==> buffer[i] == old(buffer[i])
    }

    /** The order of the positions while an SDU is in the buffer. */
    ghost predicate Placed()
      reads this
    {
      && buffer.Length == F_BUFF_LEN
      && 4 <= alpduStart <= sduStart < sduEnd <= SDU_AT + MAX_PDU_SIZE
      && sduEnd <= alpduEnd <= F_BUFF_LEN
      && alpduStart <= curPos <= alpduEnd
    }

    /** What the buffer has to send: the ALPDU while no byte of it was sent, then the bytes from curPos on. */
    ghost function Job(conf: Config): TxJob
      requires Placed()
      reads this, buffer
    {
      if curPos == alpduStart then
        Fresh(ptype, Alpdu(buffer[alpduStart..sduStart], buffer[sduStart..sduEnd]),
              if conf.UseCrc() then CrcBytes(crc) else [])
      else Rest(buffer[curPos..alpduEnd])
    }

    /** The buffer of a busy context between two calls. */
    ghost predicate Busy(conf: Config)
      reads this, buffer
    {
      && Placed() && curPos < alpduEnd
      && (curPos == alpduStart ==> alpduEnd == sduEnd)
      && JobOk(conf, Job(conf))
    }

    /** memcpy into the buffer. */
    method Write(at: nat, bytes: seq<byte>)
      requires at + |bytes| <= buffer.Length
      modifies buffer
      ensures buffer[at..at + |bytes|] == bytes
      ensures KeptOutside(at, at + |bytes|)
    {
      forall i | 0 <= i < |bytes| {
        buffer[at + i] := bytes[i];
      }
    }

    // ---- an SDU becomes an ALPDU ----

    /** rle_frag_buf_init. */
    method Init()
      requires buffer.Length == F_BUFF_LEN
      modifies this`curPos, `sduStart, `sduEnd, `alpduStart, `alpduEnd, `ppduStart, `ppduEnd, buffer
      ensures curPos == sduStart == sduEnd == alpduStart == alpduEnd == ppduStart == ppduEnd == 7
      ensures forall i :: 0 <= i < buffer.Length ==> buffer[i] == 0
    {
      forall i | 0 <= i < buffer.Length {
        buffer[i] := 0;
      }
      curPos := SDU_AT;
      sduStart, sduEnd, alpduStart, alpduEnd := curPos, curPos, curPos, curPos;
      ppduStart, ppduEnd := curPos, curPos;
    }

    /** An SDU that was just copied: nothing in front of it, nothing behind it. */
    ghost predicate Holds(sdu: Sdu)
      reads this, buffer
    {
      && Placed()
      && curPos == alpduStart == sduStart == SDU_AT
      && alpduEnd == sduEnd == SDU_AT + |sdu.data|
      && ptype == sdu.ptype && sduSize == |sdu.data|
      && buffer[sduStart..sduEnd] == sdu.data
    }

    /** rle_frag_buf_cpy_sdu: refuses an SDU that is too long and a buffer already in use. */
    method CpySdu(sdu: Sdu) returns (ok: bool)
      requires buffer.Length == F_BUFF_LEN
      requires sduStart == sduEnd ==> sduEnd == alpduEnd == alpduStart == curPos == SDU_AT
      modifies this`sduEnd, `alpduEnd, `ptype, `sduSize, buffer
      ensures ok <==> |sdu.data| <= MAX_PDU_SIZE && old(sduStart == sduEnd)
      ensures ok && sdu.data != [] ==> Holds(sdu)
      ensures !ok ==> KeptOutside(0, 0) && sduEnd == old(sduEnd) && alpduEnd == old(alpduEnd)
    {
      if |sdu.data| > MAX_PDU_SIZE || sduStart != sduEnd {
        return false;
      }
      sduEnd, alpduEnd := sduEnd + |sdu.data|, alpduEnd + |sdu.data|;
      ptype, sduSize := sdu.ptype, |sdu.data|;
      Write(sduStart, sdu.data);
      return true;
    }

    /** frag_buf_alpdu_push, and the header written where the ALPDU now starts: the three functions that prepend
        an ALPDU header differ only in their bytes. */
    method PushAlpduBytes(hdr: seq<byte>)
      requires buffer.Length == F_BUFF_LEN && |hdr| <= alpduStart == sduStart <= F_BUFF_LEN
      modifies this`alpduStart, `ppduStart, `ppduEnd, `curPos, buffer
      ensures alpduStart == ppduStart == ppduEnd == curPos == old(alpduStart) - |hdr|
      ensures buffer[alpduStart..sduStart] == hdr && KeptOutside(alpduStart, sduStart)
    {
      alpduStart := alpduStart - |hdr|;
      ppduStart, ppduEnd := alpduStart, alpduStart;
      curPos := ppduEnd;
      Write(alpduStart, hdr);
    }

    /** The memmove over bytes 16 and 17 of the frame, then frag_buf_sdu_push(-2). */
    method DropVlanField()
      requires buffer.Length == F_BUFF_LEN && alpduStart == sduStart && sduStart + 18 <= sduEnd <= F_BUFF_LEN
      modifies this`sduStart, `alpduStart, `ppduStart, `ppduEnd, `curPos, buffer
      ensures sduStart == alpduStart == ppduStart == ppduEnd == curPos == old(sduStart) + 2
      ensures buffer[sduStart..sduEnd] == DropVlanPtype(old(buffer[sduStart..sduEnd]))
    {
      var at := sduStart;
      forall i | 0 <= i < 16 {
        buffer[at + 2 + i] := buffer[at + i];
      }
      sduStart, alpduStart := sduStart + 2, alpduStart + 2;
      ppduStart, ppduEnd := alpduStart, alpduStart;
      curPos := ppduEnd;
      assert buffer[at + 18..sduEnd] == old(buffer[at + 18..sduEnd]);
      assert buffer[at + 2..at + 18] == old(buffer[at..at + 16]);
      assert buffer[sduStart..sduEnd] == buffer[at + 2..at + 18] + buffer[at + 18..sduEnd];
      assert old(buffer[sduStart..sduEnd])[..16] == old(buffer[at..at + 16]);
      assert old(buffer[sduStart..sduEnd])[18..] == old(buffer[at + 18..sduEnd]);
    }

    /** push_alpdu_hdr: in place, the copied SDU becomes exactly the ALPDU that Encode describes. */
    method PushAlpduHdr(conf: Config, ghost sdu: Sdu)
      requires Holds(sdu)
      modifies this`sduStart, `alpduStart, `ppduStart, `ppduEnd, `curPos, buffer
      ensures Placed() && curPos == alpduStart && alpduEnd == sduEnd
      ensures Alpdu(buffer[alpduStart..sduStart], buffer[sduStart..sduEnd]) == Encode(conf, sdu)
    {
      var copied := Sdu(ptype, buffer[sduStart..sduStart + sduSize]);
      assert copied == sdu;
      if !IsOmissible(conf, copied) {
        if conf.useCompressedPtype == 0 {
          PushAlpduBytes(BigEndian(ptype));
        } else {
          var comp := if IsCompressible(ptype) then Compress(copied) else FALLBACK;
          if comp == FALLBACK {
            PushAlpduBytes([FALLBACK] + BigEndian(ptype));
          } else {
            if ptype == VLAN && comp == VLAN_COMP_WO_PTYPE {
              DropVlanField();
            }
            PushAlpduBytes([comp]);
          }
        }
      } else if ptype == VLAN && conf.implicitPtype == VLAN_COMP_WO_PTYPE {
        DropVlanField();
      }
    }

    // ---- an ALPDU is cut into PPDUs ----

    /** frag_buf_ppdu_init. */
    method PpduInit()
      requires curPos < F_BUFF_LEN
      modifies this`ppduStart, `ppduEnd
      ensures ppduStart == ppduEnd == curPos
    {
      ppduStart, ppduEnd := curPos, curPos;
    }

    /** frag_buf_ppdu_put: never beyond the end of the ALPDU. */
    method PpduPut(size: nat)
      requires sduStart != sduEnd && size <= MAX_PPDU_SIZE && ppduEnd == curPos <= alpduEnd <= F_BUFF_LEN
      modifies this`ppduEnd
      ensures ppduEnd == curPos + Min(size, alpduEnd - curPos)
    {
      var bounded := if alpduEnd - curPos < size then alpduEnd - curPos else size;
      ppduEnd := ppduEnd + bounded;
    }

    /** push_comp_ppdu_hdr. */
    method PushCompHdr(labelType: nat, suppressed: bool)
      requires labelType < 4 && 2 <= ppduStart <= ppduEnd <= buffer.Length
      modifies this`ppduStart, buffer
      ensures ppduStart == old(ppduStart) - 2 && KeptOutside(ppduStart, ppduStart + 2)
      ensures buffer[ppduStart..ppduEnd] ==
        CompHeader(ppduEnd - old(ppduStart), labelType, suppressed) + old(buffer[ppduStart..ppduEnd])
    {
      ppduStart := ppduStart - 2;
      Write(ppduStart, CompHeader(ppduEnd - ppduStart - 2, labelType, suppressed));
      assert buffer[ppduStart..ppduEnd] == buffer[ppduStart..ppduStart + 2] + buffer[ppduStart + 2..ppduEnd];
    }

    /** push_start_ppdu_hdr. */
    method PushStartHdr(id: FragId, labelType: nat, suppressed: bool, useCrc: bool)
      requires labelType < 4 && 4 <= ppduStart <= ppduEnd <= buffer.Length
      requires alpduStart <= sduStart <= sduEnd <= alpduEnd
      modifies this`ppduStart, buffer
      ensures ppduStart == old(ppduStart) - 4 && KeptOutside(ppduStart, ppduStart + 4)
      ensures buffer[ppduStart..ppduEnd] ==
        StartHeader(ppduEnd - old(ppduStart) + 2, id, useCrc, alpduEnd - alpduStart, labelType, suppressed)
        + old(buffer[ppduStart..ppduEnd])
    {
      ppduStart := ppduStart - 4;
      var total := (sduStart - alpduStart) + (sduEnd - sduStart) + (alpduEnd - sduEnd);
      Write(ppduStart, StartHeader(ppduEnd - ppduStart - 2, id, useCrc, total, labelType, suppressed));
      assert buffer[ppduStart..ppduEnd] == buffer[ppduStart..ppduStart + 4] + buffer[ppduStart + 4..ppduEnd];
    }

    /** push_cont_ppdu_hdr and push_end_ppdu_hdr. */
    method PushContEndHdr(end: bool, id: FragId)
      requires 2 <= ppduStart <= ppduEnd <= buffer.Length
      modifies this`ppduStart, buffer
      ensures ppduStart == old(ppduStart) - 2 && KeptOutside(ppduStart, ppduStart + 2)
      ensures buffer[ppduStart..ppduEnd] ==
        ContEndHeader(end, ppduEnd - old(ppduStart), id) + old(buffer[ppduStart..ppduEnd])
    {
      ppduStart := ppduStart - 2;
      Write(ppduStart, ContEndHeader(end, ppduEnd - ppduStart - 2, id));
      assert buffer[ppduStart..ppduEnd] == buffer[ppduStart..ppduStart + 2] + buffer[ppduStart + 2..ppduEnd];
    }

    /** frag_buf_set_cur_pos. */
    method SetCurPos()
      modifies this`curPos
      ensures curPos == ppduEnd
    {
      curPos := ppduEnd;
    }
  }
}
