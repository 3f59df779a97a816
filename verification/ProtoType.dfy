/** Protocol types: compression, decompression, omission (src/rle_header_proto_type_field.c, src/rle_conf.c). */
module ProtoType {
  import opened Bytes
  import opened Conf

  const SIGNAL_COMP: byte := 0x42
  const VLAN_COMP: byte := 0x0f
  const VLAN_COMP_WO_PTYPE: byte := 0x31
  const VLAN_QINQ_COMP: byte := 0x19
  const VLAN_QINQ_LEGACY_COMP: byte := 0x1a
  const IP_COMP: byte := 0x30
  const IPV4_COMP: byte := 0x0d
  const IPV6_COMP: byte := 0x11
  const ARP_COMP: byte := 0x0e
  const FALLBACK: byte := 0xff

  const SIGNAL: u16 := 0x0082
  const VLAN: u16 := 0x8100
  const VLAN_QINQ: u16 := 0x88a8
  const VLAN_QINQ_LEGACY: u16 := 0x9100
  const IPV4: u16 := 0x0800
  const IPV6: u16 := 0x86dd
  const ARP: u16 := 0x0806

  const RESERVED: u16 := 0x0b04
  const USER_DEFINED: u16 := 0x0b05
  const ADJACENT_2BYTES: u16 := 0x0b07

  const LABEL_IMPLICIT := 2
  const LABEL_SIGNAL := 3

  /** Table 7-3 of ETSI EN 301 545-2 V1.2.1 as the array initialiser lays it out. The initialiser has 255
      values for 256 slots: slots from 0x47 up sit one below their comments and the last slot is zero. */
  function Decompress(c: byte): u16 {
    match c
    case 0x00 => 0x0000
    case 0x01 => 0x0001
    case 0x02 => 0x0002
    case 0x03 => 0x0003
    case 0x04 => 0x00c8
    case 0x05 => 0x0100
    case 0x06 => 0x0200
    case 0x07 => 0x0300
    case 0x08 => 0x0301
    case 0x09 => 0x03c3
    case 0x0a => 0x0400
    case 0x0b => 0x04c2
    case 0x0c => 0x0500
    case 0x0d => IPV4
    case 0x0e => ARP
    case 0x0f => VLAN
    case 0x10 => 0x22f1
    case 0x11 => IPV6
    case 0x12 => 0x8809
    case 0x13 => 0x8847
    case 0x14 => 0x8848
    case 0x15 => 0x8863
    case 0x16 => 0x8864
    case 0x17 => 0x888e
    case 0x18 => 0x8906
    case 0x19 => VLAN_QINQ
    case 0x1a => VLAN_QINQ_LEGACY
    case 0x30 => 0x0000
    case 0x31 => VLAN
    case 0x42 => SIGNAL
    case 0x45 => 0x0085
    case 0x46 => 0x0083
    case 0xfe => ADJACENT_2BYTES
    case 0xff => 0x0000
    case _ => if c < 0x7f then RESERVED else USER_DEFINED
  }

  /** Slots 0x00 to 0x1a of the table, as its comments and the standard number them. */
  const FIRST_SLOTS: seq<u16> := [
    0x0000, 0x0001, 0x0002, 0x0003, 0x00c8, 0x0100, 0x0200, 0x0300, 0x0301, 0x03c3, 0x0400, 0x04c2, 0x0500, 0x0800,
    0x0806, 0x8100, 0x22f1, 0x86dd, 0x8809, 0x8847, 0x8848, 0x8863, 0x8864, 0x888e, 0x8906, 0x88a8, 0x9100]

  /** The same table as the comments beside the initialiser place it, range by range; they give 0x47 a slot but no
      value. */
  function AsCommented(c: byte): Option<u16> {
    if c <= 0x1a then Some(FIRST_SLOTS[c])
    else if c <= 0x2f then Some(0x0b04)
    else if c == 0x30 then Some(0x0000)
    else if c == 0x31 then Some(0x8100)
    else if c <= 0x41 then Some(0x0b04)
    else if c == 0x42 then Some(0x0082)
    else if c <= 0x44 then Some(0x0b04)
    else if c == 0x45 then Some(0x0085)
    else if c == 0x46 then Some(0x0083)
    else if c == 0x47 then None
    else if c <= 0x7f then Some(0x0b04)
    else if c <= 0xfe then Some(0x0b05)
    else Some(0x0b07)
  }

  /** The compiled table is the commented one up to 0x46; behind the missing value everything is one slot early, which
      shows at the three slots where the value changes. */
  lemma TableIsShifted(c: byte)
    ensures c == 0x47 <==> AsCommented(c) == None
    ensures c != 0x47 ==> (Some(Decompress(c)) == AsCommented(c) <==> c !in {0x7f, 0xfe, 0xff})
    ensures c >= 0x47 && c < 0xff ==> Some(Decompress(c)) == AsCommented(c + 1)
    ensures Decompress(0xff) == 0
  {
  }

  predicate IsCompressible(ptype: u16) {
    ptype in {SIGNAL, VLAN, VLAN_QINQ, VLAN_QINQ_LEGACY, IPV4, IPV6, ARP}
  }

  function IpVersion(b: byte): nat {
    b / 16
  }

  /** is_eth_vlan_ip_frame: Ethernet header is bytes 0..13, VLAN header bytes 14..17. */
  function EthVlanIpType(sdu: seq<byte>): byte {
    if |sdu| <= 18 then FALLBACK
    else
      var ethType := ReadBigEndian(sdu[12], sdu[13]);
      var vlanType := ReadBigEndian(sdu[16], sdu[17]);
      var version := IpVersion(sdu[18]);
      if ethType != VLAN then FALLBACK
      else if (vlanType == IPV4 && version == 4) || (vlanType == IPV6 && version == 6) then VLAN_COMP_WO_PTYPE
      else VLAN_COMP
  }

  function Compress(sdu: Sdu): byte {
    match sdu.ptype
    case 0x0082 => SIGNAL_COMP
    case 0x8100 => EthVlanIpType(sdu.data)
    case 0x88a8 => VLAN_QINQ_COMP
    case 0x9100 => VLAN_QINQ_LEGACY_COMP
    case 0x0800 => IPV4_COMP
    case 0x86dd => IPV6_COMP
    case 0x0806 => ARP_COMP
    case _ => FALLBACK
  }

  /** The shift never meets the transmitter: what it compresses is read back. */
  lemma CompressedIsRead(sdu: Sdu)
    ensures Compress(sdu) != FALLBACK ==> Decompress(Compress(sdu)) == sdu.ptype && Compress(sdu) < 0x47
    ensures !IsCompressible(sdu.ptype) ==> Compress(sdu) == FALLBACK
  {
  }

  /** ptype_is_omissible. With implicit type 0x31 the code looks at the bytes only, not at the type. */
  predicate IsOmissible(conf: Config, sdu: Sdu) {
    if conf.allowPtypeOmission != 1 then false
    else if sdu.ptype == SIGNAL then true
    else if conf.implicitPtype == IP_COMP then
      && |sdu.data| >= 1
      && var version := IpVersion(sdu.data[0]);
         (sdu.ptype == IPV4 && version == 4) || (sdu.ptype == IPV6 && version == 6)
    else if conf.implicitPtype == VLAN_COMP_WO_PTYPE then EthVlanIpType(sdu.data) == VLAN_COMP_WO_PTYPE
    else sdu.ptype == Decompress(conf.implicitPtype)
  }

  /** get_alpdu_label_type. */
  function LabelType(conf: Config, ptype: u16, suppressed: bool): (lt: nat)
    ensures lt in {0, 2, 3}
    ensures lt == 3 <==> ptype == 0x0082
    ensures lt == 2 <==> ptype != 0x0082 && suppressed && conf.type0AlpduLabelSize != 0
  {
    if ptype == SIGNAL then LABEL_SIGNAL
    else if suppressed && conf.type0AlpduLabelSize != 0 then LABEL_IMPLICIT
    else 0
  }

  /** get_uncomp_ptype_from_sdu. */
  function PtypeFromIpVersion(frag: seq<byte>): Option<u16> {
    if |frag| < 1 then None
    else if IpVersion(frag[0]) == 4 then Some(IPV4)
    else if IpVersion(frag[0]) == 6 then Some(IPV6)
    else None
  }
}
