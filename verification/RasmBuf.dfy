/** The reassembly buffer (src/reassembly_buffer.h, src/reassembly_buffer.c) and the SDU buffers of the caller, which
    the receiver fills (src/reassembly.c). Positions are indices where the source has pointers; the assertions of
    the source are preconditions, proved at each call. */
module ReassemblyBuffer {
  import opened Bytes
  import opened ProtoType
  import opened AlpduCodec
  import opened Receive

  const R_BUFF_LEN := 8191

  class RasmBuf {
    const buffer: array<byte>
    var ptype: u16
    var sduSize: nat
    var compPtype: byte
    var sduStart: nat
    var sduEnd: nat
    var fragStart: nat
    var fragEnd: nat

    /** rasm_buf_new, then rasm_buf_init. The stored type and size are unset until the first START; zero stands
        for them. */
    constructor ()
      ensures fresh(buffer) && buffer.Length == 8191 && Placed()
      ensures fragEnd == sduEnd == 0 && ptype == 0 && compPtype == 0
    {
      buffer := new byte[R_BUFF_LEN](i => 0);
      ptype, sduSize, compPtype := 0, 0, 0;
      sduStart, sduEnd, fragStart, fragEnd := 0, 0, 0, 0;
    }

    ghost predicate Placed()
      reads this
    {
      && buffer.Length == R_BUFF_LEN
      && sduStart == 0 && fragStart <= fragEnd <= sduEnd <= MAX_EXPECTED
    }

    /** The SDU bytes received since the START. */
    ghost function Got(): seq<byte>
      requires Placed()
      reads this, buffer
    {
      buffer[..fragEnd]
    }

    /** rasm_buf_init. */
    method Init()
      requires buffer.Length == R_BUFF_LEN
      modifies this`sduStart, `sduEnd, `fragStart, `fragEnd, buffer
      ensures Placed() && sduEnd == fragStart == fragEnd == 0
    {
      forall i | 0 <= i < buffer.Length {
        buffer[i] := 0;
      }
      sduStart, sduEnd, fragStart, fragEnd := 0, 0, 0, 0;
    }

    /** rasm_buf_init_sdu_frag, rasm_buf_sdu_frag_put and rasm_buf_cpy_sdu_frag: one more fragment. The
        preconditions are what the three functions assert: the buffer is in use and the fragment fits. */
    method Append(frag: seq<byte>)
      requires Placed() && sduStart != sduEnd && fragEnd + |frag| <= sduEnd
      modifies this`fragStart, `fragEnd, buffer
      ensures Placed() && Got() == old(Got()) + frag
    {
      fragStart := fragEnd;
      fragEnd := fragEnd + |frag|;
      var at := fragStart;
      forall i | 0 <= i < |frag| {
        buffer[at + i] := frag[i];
      }
      assert buffer[..fragEnd] == buffer[..at] + buffer[at..fragEnd];
      assert buffer[..at] == old(buffer[..fragEnd]);
    }
  }

  /** struct rle_sdu with a buffer of the caller's. The source does not check its size: it has to hold the largest
      SDU that can be reassembled, and the two bytes of a VLAN protocol field. */
  class SduBuf {
    const buffer: array<byte>
    var size: nat
    var ptype: u16

    constructor ()
      ensures fresh(buffer) && Valid()
    {
      buffer := new byte[MAX_EXPECTED + 2](i => 0);
      size, ptype := 0, 0;
    }

    ghost predicate Valid()
      reads this
    {
      buffer.Length >= MAX_EXPECTED + 2 && size <= buffer.Length
    }

    function Value(): Sdu
      requires Valid()
      reads this, buffer
    {
      Sdu(ptype, buffer[..size])
    }

    /** The copy of a complete SDU. */
    method Fill(pt: u16, data: seq<byte>)
      requires Valid() && |data| <= MAX_EXPECTED
      modifies this, buffer
      ensures Valid() && Value() == Sdu(pt, data)
    {
      size, ptype := |data|, pt;
      forall i | 0 <= i < |data| {
        buffer[i] := data[i];
      }
    }

    /** reassembly_insert_vlan_ptype: the frame is copied in two parts around the rebuilt protocol field. */
    method InsertVlanField(frag: seq<byte>) returns (ok: bool)
      requires Valid() && |frag| <= MAX_EXPECTED
      modifies this, buffer
      ensures Valid()
      ensures ok <==> InsertVlanPtype(frag).Some?
      ensures ok ==> InsertVlanPtype(frag) == Some(Value())
    {
      if |frag| < 17 || ReadBigEndian(frag[12], frag[13]) != VLAN {
        return false;
      }
      var version := IpVersion(frag[16]);
      assert frag[16..][0] == frag[16];
      if version != 4 && version != 6 {
        return false;
      }
      var vlanPtype: u16 := if version == 4 then IPV4 else IPV6;
      size, ptype := |frag| + 2, VLAN;
      forall i | 0 <= i < 16 {
        buffer[i] := frag[i];
      }
      buffer[16], buffer[17] := vlanPtype / 0x100, vlanPtype % 0x100;
      forall i | 16 <= i < |frag| {
        buffer[i + 2] := frag[i];
      }
      assert buffer[..size] == frag[..16] + BigEndian(vlanPtype) + frag[16..];
      return true;
    }

    /** The last step of the COMP and END handlers. */
    method Finish(pt: u16, comp: byte, data: seq<byte>) returns (ok: bool)
      requires Valid() && |data| <= MAX_EXPECTED
      modifies this, buffer
      ensures Valid()
      ensures ok <==> Rebuild(pt, comp, data).Some?
      ensures ok ==> Rebuild(pt, comp, data) == Some(Value())
    {
      hide InsertVlanPtype;
      if comp != VLAN_COMP_WO_PTYPE {
        Fill(pt, data);
        ok := true;
      } else {
        ok := InsertVlanField(data);
      }
    }
  }
}
