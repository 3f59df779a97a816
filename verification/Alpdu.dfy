/** The ALPDU header codec: what push_alpdu_hdr writes and what the receiver reads back
    (src/header.c, src/reassembly.c). */
module AlpduCodec {
  import opened Bytes
  import opened Conf
  import opened ProtoType

  /** An ALPDU before its trailer: 0 to 3 header bytes, then the SDU, two bytes shorter when the protocol
      field of its VLAN header was dropped. */
  datatype Alpdu = Alpdu(hdr: seq<byte>, body: seq<byte>) {
    function Bytes(): seq<byte> {
      hdr + body
    }

    predicate Suppressed() {
      hdr == []
    }
  }

  function DropVlanPtype(data: seq<byte>): seq<byte>
    requires |data| >= 18
  {
    data[..16] + data[18..]
  }

  /** push_alpdu_hdr. */
  function Encode(conf: Config, sdu: Sdu): Alpdu {
    if IsOmissible(conf, sdu) then
      if sdu.ptype == VLAN && conf.implicitPtype == VLAN_COMP_WO_PTYPE then Alpdu([], DropVlanPtype(sdu.data))
      else Alpdu([], sdu.data)
    else if conf.useCompressedPtype == 0 then
      Alpdu(BigEndian(sdu.ptype), sdu.data)
    else
      var comp := if IsCompressible(sdu.ptype) then Compress(sdu) else FALLBACK;
      if comp == FALLBACK then Alpdu([FALLBACK] + BigEndian(sdu.ptype), sdu.data)
      else if sdu.ptype == VLAN && comp == VLAN_COMP_WO_PTYPE then Alpdu([comp], DropVlanPtype(sdu.data))
      else Alpdu([comp], sdu.data)
  }

  /** What the receiver learns from the first ALPDU bytes. */
  datatype Extract = Extract(ptype: u16, compPtype: byte, sduFrag: seq<byte>, hdrLen: nat)

  /** The four extraction functions, selected by the PPDU header and the configuration as in
      reassembly_comp_ppdu and reassembly_start_ppdu. */
  function ExtractFrag(conf: Config, suppressed: bool, signal: bool, frag: seq<byte>): (x: Option<Extract>)
    ensures x.Some? ==> |x.value.sduFrag| + x.value.hdrLen == |frag| && x.value.sduFrag == frag[x.value.hdrLen..]
    ensures x.Some? && x.value.compPtype == VLAN_COMP_WO_PTYPE ==> x.value.ptype == VLAN
  {
    if suppressed then
      if signal then Some(Extract(SIGNAL, SIGNAL_COMP, frag, 0))
      else if conf.implicitPtype == IP_COMP then
        (match PtypeFromIpVersion(frag)
         case Some(pt) => Some(Extract(pt, IP_COMP, frag, 0))
         case None => None)
      else Some(Extract(Decompress(conf.implicitPtype), conf.implicitPtype, frag, 0))
    else if conf.useCompressedPtype != 0 then
      if |frag| < 1 then None
      else if frag[0] == FALLBACK then
        if |frag| < 3 then None
        else Some(Extract(ReadBigEndian(frag[1], frag[2]), FALLBACK, frag[3..], 3))
      else if frag[0] == IP_COMP then
        (match PtypeFromIpVersion(frag[1..])
         case Some(pt) => Some(Extract(pt, IP_COMP, frag[1..], 1))
         case None => None)
      else Some(Extract(Decompress(frag[0]), frag[0], frag[1..], 1))
    else
      if |frag| < 2 then None
      else Some(Extract(ReadBigEndian(frag[0], frag[1]), FALLBACK, frag[2..], 2))
  }

  /** reassembly_insert_vlan_ptype. */
  function InsertVlanPtype(frag: seq<byte>): Option<Sdu> {
    if |frag| < 17 then None
    else if ReadBigEndian(frag[12], frag[13]) != VLAN then None
    else match PtypeFromIpVersion(frag[16..])
      case None => None
      case Some(pt) => Some(Sdu(VLAN, frag[..16] + BigEndian(pt) + frag[16..]))
  }

  /** The last step of the COMP and END handlers: the SDU handed to the caller. */
  function Rebuild(ptype: u16, compPtype: byte, data: seq<byte>): Option<Sdu> {
    if compPtype != VLAN_COMP_WO_PTYPE then Some(Sdu(ptype, data)) else InsertVlanPtype(data)
  }

  /** The one family of SDUs that the receiver misreads: implicit type 0x31 lets the transmitter omit the type
      of any SDU shaped like Ethernet/VLAN/IP, but it drops the VLAN protocol field only for type 0x8100. */
  predicate Misread(conf: Config, sdu: Sdu) {
    && conf.allowPtypeOmission == 1
    && conf.implicitPtype == VLAN_COMP_WO_PTYPE
    && sdu.ptype != VLAN && sdu.ptype != SIGNAL
    && EthVlanIpType(sdu.data) == VLAN_COMP_WO_PTYPE
  }

  /** Sizes that the length fields rely on: at most 3 header bytes, and never more than 3 bytes added. */
  lemma EncodeSizes(conf: Config, sdu: Sdu)
    ensures var a := Encode(conf, sdu);
      && |a.hdr| <= 3
      && |a.body| <= |sdu.data| <= |a.body| + 2
      && (|a.body| != |sdu.data| ==> |a.hdr| <= 1 && |a.body| >= 17)
  {
  }

  /** The removed VLAN protocol field is put back exactly where it was. */
  lemma VlanFieldRoundTrip(data: seq<byte>)
    requires EthVlanIpType(data) == VLAN_COMP_WO_PTYPE
    ensures InsertVlanPtype(DropVlanPtype(data)) == Some(Sdu(VLAN, data))
  {
    var cut := DropVlanPtype(data);
    assert cut[16..] == data[18..];
    var pt := PtypeFromIpVersion(cut[16..]).value;
    assert pt == ReadBigEndian(data[16], data[17]);
    assert BigEndian(pt) == data[16..18];
    assert cut[..16] + BigEndian(pt) + cut[16..] == data;
  }

  /** An Ethernet frame with a VLAN header whose protocol field tells no more than the IP version behind it. */
  predicate CarriesIp(data: seq<byte>) {
    && |data| >= 19
    && data[12..14] == [0x81, 0x00]
    && ((data[16..18] == [0x08, 0x00] && 0x40 <= data[18] < 0x50)
        || (data[16..18] == [0x86, 0xdd] && 0x60 <= data[18] < 0x70))
  }

  /** The frames the transmitter may shorten are exactly those from which the receiver's reinsertion gets the dropped
      field back. */
  lemma ShortenedExactly(data: seq<byte>)
    requires |data| >= 18
    ensures EthVlanIpType(data) == 0x31 <==> InsertVlanPtype(DropVlanPtype(data)) == Some(Sdu(0x8100, data))
    ensures EthVlanIpType(data) == 0x31 <==> CarriesIp(data)
  {
    if EthVlanIpType(data) == 0x31 {
      VlanFieldRoundTrip(data);
    }
    var got := InsertVlanPtype(DropVlanPtype(data));
    if got == Some(Sdu(VLAN, data)) {
      var cut := DropVlanPtype(data);
      var pt := PtypeFromIpVersion(cut[16..]).value;
      assert data[16] == got.value.data[16] == BigEndian(pt)[0] && data[17] == got.value.data[17] == BigEndian(pt)[1];
      assert cut[16..][0] == data[18];
    }
  }

  /** Reinsertion inverts shortening on everything it accepts, and refuses everything else. */
  lemma ReinsertedExactly(frag: seq<byte>, s: Sdu)
    ensures InsertVlanPtype(frag) == Some(s) <==>
      s.ptype == 0x8100 && CarriesIp(s.data) && DropVlanPtype(s.data) == frag
  {
    if s.ptype == VLAN && CarriesIp(s.data) && DropVlanPtype(s.data) == frag {
      ShortenedExactly(s.data);
    }
    var got := InsertVlanPtype(frag);
    if got == Some(s) {
      var d := s.data;
      assert d[..16] == frag[..16] && d[18..] == frag[16..];
      assert DropVlanPtype(d) == frag;
      assert d[18] == frag[16..][0] && d[12] == frag[12] && d[13] == frag[13];
      ShortenedExactly(d);
    }
  }

  /** The VLAN field of a whole frame is not an IP header: its high nibble is 0 or 8. */
  lemma WholeFrameIsNotShortened(data: seq<byte>)
    requires EthVlanIpType(data) == VLAN_COMP_WO_PTYPE
    ensures InsertVlanPtype(data) == None
  {
    assert data[16..][0] == data[16];
  }

  /** What the receiver should read from a fragment that holds the whole header. */
  ghost predicate ReadsBack(conf: Config, sdu: Sdu, body: seq<byte>, x: Option<Extract>) {
    && x.Some?
    && (Misread(conf, sdu) ==> Rebuild(x.value.ptype, x.value.compPtype, body) == None)
    && (!Misread(conf, sdu) ==> Rebuild(x.value.ptype, x.value.compPtype, body) == Some(sdu))
  }

  lemma ExtractOmitted(conf: Config, sdu: Sdu, frag: seq<byte>)
    requires IsOmissible(conf, sdu)
    requires |sdu.data| >= 1 && |frag| >= 1 && frag[0] == sdu.data[0]
    ensures ReadsBack(conf, sdu, Encode(conf, sdu).body, ExtractFrag(conf, true, sdu.ptype == SIGNAL, frag))
  {
    if sdu.ptype != SIGNAL && conf.implicitPtype == VLAN_COMP_WO_PTYPE {
      VlanFieldRoundTrip(sdu.data);
      WholeFrameIsNotShortened(sdu.data);
    }
  }

  lemma ExtractCompressed(conf: Config, sdu: Sdu, frag: seq<byte>)
    requires !IsOmissible(conf, sdu) && conf.useCompressedPtype != 0
    requires Encode(conf, sdu).hdr <= frag
    ensures ReadsBack(conf, sdu, Encode(conf, sdu).body, ExtractFrag(conf, false, sdu.ptype == SIGNAL, frag))
  {
    var hdr := Encode(conf, sdu).hdr;
    assert frag[0] == hdr[0];
    if hdr[0] == FALLBACK {
      assert frag[1] == hdr[1] && frag[2] == hdr[2];
    } else if sdu.ptype == VLAN && EthVlanIpType(sdu.data) == VLAN_COMP_WO_PTYPE {
      VlanFieldRoundTrip(sdu.data);
    }
  }

  lemma ExtractUncompressed(conf: Config, sdu: Sdu, frag: seq<byte>)
    requires !IsOmissible(conf, sdu) && conf.useCompressedPtype == 0
    requires Encode(conf, sdu).hdr <= frag
    ensures ReadsBack(conf, sdu, Encode(conf, sdu).body, ExtractFrag(conf, false, sdu.ptype == SIGNAL, frag))
  {
    var hdr := Encode(conf, sdu).hdr;
    assert frag[0] == hdr[0] && frag[1] == hdr[1];
  }

  lemma HeaderLength(conf: Config, sdu: Sdu, frag: seq<byte>)
    requires Encode(conf, sdu).hdr <= frag
    ensures var x := ExtractFrag(conf, Encode(conf, sdu).Suppressed(), sdu.ptype == SIGNAL, frag);
      x.Some? ==> x.value.hdrLen == |Encode(conf, sdu).hdr|
  {
    var hdr := Encode(conf, sdu).hdr;
    assert forall i | 0 <= i < |hdr| :: frag[i] == hdr[i];
  }

  /** The receiver reads the header back from the first fragment, which holds the whole header and at least one
      SDU byte, exactly as it would from the whole ALPDU. */
  lemma ExtractFirstFragment(conf: Config, sdu: Sdu, n: nat)
    requires |sdu.data| >= 1
    requires 1 <= n <= |Encode(conf, sdu).body|
    ensures var a := Encode(conf, sdu);
      var x := ExtractFrag(conf, a.Suppressed(), sdu.ptype == SIGNAL, a.hdr + a.body[..n]);
      && ReadsBack(conf, sdu, a.body, x)
      && x.value.sduFrag == a.body[..n]
      && x.value.hdrLen == |a.hdr|
  {
    var a := Encode(conf, sdu);
    var frag := a.hdr + a.body[..n];
    HeaderLength(conf, sdu, frag);
    hide ExtractFrag, ReadsBack;
    assert frag[|a.hdr|..] == a.body[..n];
    if IsOmissible(conf, sdu) {
      ExtractOmitted(conf, sdu, frag);
    } else if conf.useCompressedPtype != 0 {
      ExtractCompressed(conf, sdu, frag);
    } else {
      ExtractUncompressed(conf, sdu, frag);
    }
  }

  /** Codec round trip, with its exact condition: the receiver gets the type and the bytes back from the ALPDU
      if and only if the SDU is not in the misread family, and in that family it rejects the ALPDU. */
  lemma CodecRoundTrip(conf: Config, sdu: Sdu)
    requires |sdu.data| >= 1
    ensures var a := Encode(conf, sdu);
      var x := ExtractFrag(conf, a.Suppressed(), sdu.ptype == SIGNAL, a.Bytes());
      && x.Some? && x.value.sduFrag == a.body
      && var got := Rebuild(x.value.ptype, x.value.compPtype, x.value.sduFrag);
         && (got == Some(sdu) <==> !Misread(conf, sdu))
         && (got.None? <==> Misread(conf, sdu))
  {
    var a := Encode(conf, sdu);
    EncodeSizes(conf, sdu);
    assert a.body[..|a.body|] == a.body;
    ExtractFirstFragment(conf, sdu, |a.body|);
  }

  // ---- which header ----

  /** What a receiver makes of an ALPDU that came without a header. */
  function ReadBare(conf: Config, signal: bool, body: seq<byte>): Option<Sdu> {
    match ExtractFrag(conf, true, signal, body)
    case None => None
    case Some(x) => Rebuild(x.ptype, x.compPtype, x.sduFrag)
  }

  /** The receiver could do without the header: the bytes alone, or the bytes without their VLAN protocol field, give
      the SDU back. */
  predicate Dispensable(conf: Config, sdu: Sdu) {
    || ReadBare(conf, sdu.ptype == 0x0082, sdu.data) == Some(sdu)
    || (|sdu.data| >= 18 && ReadBare(conf, sdu.ptype == 0x0082, DropVlanPtype(sdu.data)) == Some(sdu))
  }

  lemma BareLengths(conf: Config, signal: bool, body: seq<byte>)
    ensures var got := ReadBare(conf, signal, body);
      got.Some? ==>
        if !signal && conf.implicitPtype == 0x31 then |got.value.data| == |body| + 2 && got.value.ptype == 0x8100
        else got.value.data == body
  {
  }

  /** The header is left out exactly when omission is allowed and the receiver could do without it, misread SDUs, for
      which it could not, added. */
  lemma OmittedExactly(conf: Config, sdu: Sdu)
    requires |sdu.data| >= 1
    ensures Encode(conf, sdu).Suppressed() <==>
      conf.allowPtypeOmission == 1 && (Dispensable(conf, sdu) || Misread(conf, sdu))
  {
    BareLengths(conf, sdu.ptype == SIGNAL, sdu.data);
    if |sdu.data| >= 18 {
      BareLengths(conf, sdu.ptype == SIGNAL, DropVlanPtype(sdu.data));
      ShortenedExactly(sdu.data);
    }
    hide InsertVlanPtype, EthVlanIpType;
  }

  /** The compressed types that the transmitter uses, from Table 7-3 of ETSI EN 301 545-2; type 0x8100 has two. */
  const ONE_BYTE_CODES: map<u16, byte> := map[
    0x0082 := 0x42, 0x88a8 := 0x19, 0x9100 := 0x1a, 0x0800 := 0x0d, 0x86dd := 0x11, 0x0806 := 0x0e]

  /** Which header is written when it is not omitted: without compression the type itself; with it one byte for each of
      the six types with one code, and for type 0x8100 in front of a frame that has a VLAN header, shortened behind
      0x31 exactly when the frame carries IP; for anything else 0xff and the type. */
  lemma HeaderChoice(conf: Config, sdu: Sdu)
    requires !Encode(conf, sdu).Suppressed()
    ensures var a, plain := Encode(conf, sdu), [sdu.ptype / 0x100, sdu.ptype % 0x100];
      if conf.useCompressedPtype == 0 then a == Alpdu(plain, sdu.data)
      else if sdu.ptype in ONE_BYTE_CODES then a == Alpdu([ONE_BYTE_CODES[sdu.ptype]], sdu.data)
      else if sdu.ptype == 0x8100 && |sdu.data| >= 19 && sdu.data[12..14] == [0x81, 0x00] then
        if CarriesIp(sdu.data) then a == Alpdu([0x31], sdu.data[..16] + sdu.data[18..])
        else a == Alpdu([0x0f], sdu.data)
      else a == Alpdu([0xff] + plain, sdu.data)
  {
    if |sdu.data| >= 19 {
      assert ReadBigEndian(sdu.data[12], sdu.data[13]) == VLAN <==> sdu.data[12..14] == [0x81, 0x00];
      ShortenedExactly(sdu.data);
    }
  }

  /** The receiver's view of one code: a compressed type `c` is read as if `c` were the implicit type of an ALPDU
      without header, for every code but 0xff. */
  lemma CodeIsImplicitType(conf: Config, c: byte, signal: bool, data: seq<byte>)
    requires conf.useCompressedPtype != 0 && c != 0xff
    ensures var x := ExtractFrag(conf, false, signal, [c] + data);
      var y := ExtractFrag(conf.(implicitPtype := c), true, false, data);
      && (x.Some? <==> y.Some?)
      && (x.Some? ==> x.value == y.value.(hdrLen := 1))
  {
    var frag := [c] + data;
    assert frag[0] == c && frag[1..] == data;
  }

  /** The two headers that hold a whole type. */
  lemma WholeTypeIsRead(conf: Config, t: u16, signal: bool, data: seq<byte>)
    ensures var fallback := if conf.useCompressedPtype == 0 then [] else [0xff];
      ExtractFrag(conf, false, signal, fallback + BigEndian(t) + data) ==
        Some(Extract(t, 0xff, data, |fallback| + 2))
  {
    var hdr := (if conf.useCompressedPtype == 0 then [] else [0xff]) + BigEndian(t);
    var frag := hdr + data;
    assert frag[|hdr|..] == data;
    assert forall i | 0 <= i < |hdr| :: frag[i] == hdr[i];
  }

  /** A fragment that ends inside its header is refused. */
  lemma CutHeaderIsRefused(conf: Config, signal: bool, frag: seq<byte>)
    requires |frag| < if conf.useCompressedPtype == 0 then 2 else if frag != [] && frag[0] == 0xff then 3 else 1
    ensures ExtractFrag(conf, false, signal, frag) == None
  {
  }

  /** An ALPDU without header is read by the configuration alone, except for signalling and for implicit type 0x30,
      where the first byte tells IPv4 from IPv6. */
  lemma BareIsRead(conf: Config, signal: bool, frag: seq<byte>)
    ensures ExtractFrag(conf, true, signal, frag) ==
      if signal then Some(Extract(0x0082, 0x42, frag, 0))
      else if conf.implicitPtype != 0x30 then Some(Extract(Decompress(conf.implicitPtype), conf.implicitPtype, frag, 0))
      else if frag != [] && 0x40 <= frag[0] < 0x50 then Some(Extract(0x0800, 0x30, frag, 0))
      else if frag != [] && 0x60 <= frag[0] < 0x70 then Some(Extract(0x86dd, 0x30, frag, 0))
      else None
  {
  }

  /** A concrete misread SDU: an Ethernet/VLAN/IPv4 frame announced as plain IPv4. */
  lemma MisreadExample()
    ensures exists conf: Config, sdu: Sdu :: conf.Check() && 1 <= |sdu.data| <= MAX_PDU_SIZE && Misread(conf, sdu)
  {
    var conf := Config(1, 1, 0, 1, 0, VLAN_COMP_WO_PTYPE, 0, 0, 0);
    var data := Zeros(12) + [0x81, 0x00, 0x00, 0x01, 0x08, 0x00, 0x45];
    assert Misread(conf, Sdu(IPV4, data));
  }
}
