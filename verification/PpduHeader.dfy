/** PPDU headers, byte by byte (src/header.h, src/header.c). The first byte holds the START bit, the END bit and
    the high six bits of the length field; the length field counts the bytes after the first two. */
module PpduHeader {
  import opened Bytes
  import opened Conf

  type Ppdu = seq<byte>

  datatype FragType = Complete | StartFrag | ContFrag | EndFrag

  function Bit(b: bool): nat {
    if b then 1 else 0
  }

  /** rle_ppdu_hdr_set_ppdu_len together with the two indicator bits. */
  function FirstByte(start: bool, end: bool, len: nat): byte {
    Bit(start) * 128 + Bit(end) * 64 + len % 2048 / 32
  }

  function CompHeader(len: nat, labelType: nat, suppressed: bool): (h: seq<byte>)
    requires labelType < 4
    ensures |h| == 2
  {
    [FirstByte(true, true, len), Bit(suppressed) + 2 * labelType + 8 * (len % 32)]
  }

  function StartHeader(len: nat, id: FragId, useCrc: bool, total: nat, labelType: nat, suppressed: bool)
    : (h: seq<byte>)
    requires labelType < 4
    ensures |h| == 4
  {
    [FirstByte(true, false, len), id + 8 * (len % 32),
     Bit(useCrc) * 128 + total % 4096 / 32, Bit(suppressed) + 2 * labelType + 8 * (total % 32)]
  }

  function ContEndHeader(end: bool, len: nat, id: FragId): (h: seq<byte>)
    ensures |h| == 2
  {
    [FirstByte(false, end, len), id + 8 * (len % 32)]
  }

  /** rle_ppdu_get_fragment_type. */
  function TypeOf(p: Ppdu): FragType
    requires |p| >= 2
  {
    var start, end := p[0] / 128 == 1, p[0] / 64 % 2 == 1;
    if start then (if end then Complete else StartFrag) else (if end then EndFrag else ContFrag)
  }

  /** get_fragment_length: the length field plus the two base bytes. */
  function LengthOf(p: Ppdu): (n: nat)
    requires |p| >= 2
    ensures 2 <= n <= MAX_PPDU_SIZE
  {
    var hi: int, lo: int := p[0], p[1];
    hi % 64 * 32 + lo / 8 + 2
  }

  function FragIdOf(p: Ppdu): FragId
    requires |p| >= 2
  {
    p[1] % 8
  }

  function CompSuppressed(p: Ppdu): bool
    requires |p| >= 2
  {
    p[1] % 2 == 1
  }

  function CompLabel(p: Ppdu): nat
    requires |p| >= 2
  {
    p[1] / 2 % 4
  }

  function StartUsesCrc(p: Ppdu): bool
    requires |p| >= 4
  {
    p[2] / 128 == 1
  }

  function StartTotal(p: Ppdu): (n: nat)
    requires |p| >= 4
    ensures n <= 4095
  {
    var hi: int, lo: int := p[2], p[3];
    hi % 128 * 32 + lo / 8
  }

  function StartSuppressed(p: Ppdu): bool
    requires |p| >= 4
  {
    p[3] % 2 == 1
  }

  function StartLabel(p: Ppdu): nat
    requires |p| >= 4
  {
    p[3] / 2 % 4
  }

  function Payload(p: Ppdu): seq<byte>
    requires |p| >= 2 && (TypeOf(p) == StartFrag ==> |p| >= 4)
  {
    if TypeOf(p) == StartFrag then p[4..] else p[2..]
  }

  /** A one-bit flag above a seven-bit field. */
  lemma FlagByte(flag: bool, q: nat)
    requires q < 128
    ensures var hi: int := Bit(flag) * 128 + q;
      0 <= hi < 256 && (hi / 128 == 1 <==> flag) && hi % 128 == q
  {
  }

  /** The suppression bit, the label type and the five low bits of a length. */
  lemma LabelByte(suppressed: bool, labelType: nat, r: nat)
    requires labelType < 4 && r < 32
    ensures var lo: int := Bit(suppressed) + 2 * labelType + 8 * r;
      0 <= lo < 256 && (lo % 2 == 1 <==> suppressed) && lo / 2 % 4 == labelType && lo / 8 == r
  {
    assert (Bit(suppressed) + 2 * labelType + 8 * r) / 2 == labelType + 4 * r;
  }

  lemma SplitLength(n: nat, m: nat)
    requires m == 2048 || m == 4096
    ensures n % m / 32 * 32 + n % 32 == n % m && n % m / 32 < m / 32
  {
    assert n % m % 32 == n % 32 by {
      var k := n / m;
      assert n == k * m + n % m;
      assert m == 2048 ==> n % m == n - 32 * (64 * k);
      assert m == 4096 ==> n % m == n - 32 * (128 * k);
    }
  }

  /** Bytes 2 and 3 of a START header: the CRC flag and the total length, split 7+5 around the other fields. */
  lemma TotalFields(useCrc: bool, total: nat, labelType: nat, suppressed: bool)
    requires labelType < 4
    ensures var hi: int, lo: int :=
        Bit(useCrc) * 128 + total % 4096 / 32, Bit(suppressed) + 2 * labelType + 8 * (total % 32);
      && 0 <= hi < 256 && 0 <= lo < 256
      && (hi / 128 == 1 <==> useCrc)
      && (lo % 2 == 1 <==> suppressed)
      && lo / 2 % 4 == labelType
      && hi % 128 * 32 + lo / 8 == total % 4096
  {
    SplitLength(total, 4096);
    FlagByte(useCrc, total % 4096 / 32);
    LabelByte(suppressed, labelType, total % 32);
  }

  /** Bytes 0 and 1 of every header: the indicators, the length split 6+5, and three low bits of their own. */
  lemma LengthFields(start: bool, end: bool, len: nat, low: nat)
    requires low < 8
    ensures var hi: int, lo: int := FirstByte(start, end, len), low + 8 * (len % 32);
      && 0 <= lo < 256
      && (hi / 128 == 1 <==> start) && (hi / 64 % 2 == 1 <==> end)
      && lo % 8 == low
      && hi % 64 * 32 + lo / 8 == len % 2048
  {
    SplitLength(len, 2048);
    assert (low + 8 * (len % 32)) % 8 == low;
  }

  lemma CompHeaderRoundTrip(len: nat, labelType: nat, suppressed: bool, payload: seq<byte>)
    requires labelType < 4
    ensures var p := CompHeader(len, labelType, suppressed) + payload;
      && TypeOf(p) == Complete
      && (LengthOf(p) == len + 2 <==> len <= MAX_PPDU_PL_SIZE)
      && CompLabel(p) == labelType && CompSuppressed(p) == suppressed && Payload(p) == payload
  {
    LengthFields(true, true, len, Bit(suppressed) + 2 * labelType);
    LabelByte(suppressed, labelType, len % 32);
    hide FirstByte, Bit;
    var p := CompHeader(len, labelType, suppressed) + payload;
    var hi: int, lo: int := p[0], p[1];
    assert hi == FirstByte(true, true, len) && lo == Bit(suppressed) + 2 * labelType + 8 * (len % 32);
    assert p[2..] == payload;
  }

  lemma StartHeaderRoundTrip(len: nat, id: FragId, useCrc: bool, total: nat, labelType: nat, suppressed: bool,
                             payload: seq<byte>)
    requires labelType < 4
    ensures var p := StartHeader(len, id, useCrc, total, labelType, suppressed) + payload;
      && TypeOf(p) == StartFrag
      && (LengthOf(p) == len + 2 <==> len <= MAX_PPDU_PL_SIZE)
      && (StartTotal(p) == total <==> total <= 4095)
      && FragIdOf(p) == id && StartUsesCrc(p) == useCrc
      && StartLabel(p) == labelType && StartSuppressed(p) == suppressed && Payload(p) == payload
  {
    LengthFields(true, false, len, id);
    TotalFields(useCrc, total, labelType, suppressed);
    hide FirstByte, Bit;
    var p := StartHeader(len, id, useCrc, total, labelType, suppressed) + payload;
    var hi: int, lo: int := p[0], p[1];
    assert hi == FirstByte(true, false, len) && lo == id + 8 * (len % 32);
    var hi': int, lo': int := p[2], p[3];
    assert hi' == Bit(useCrc) * 128 + total % 4096 / 32 && lo' == Bit(suppressed) + 2 * labelType + 8 * (total % 32);
    assert p[4..] == payload;
  }

  lemma ContEndHeaderRoundTrip(end: bool, len: nat, id: FragId, payload: seq<byte>)
    ensures var p := ContEndHeader(end, len, id) + payload;
      && TypeOf(p) == (if end then EndFrag else ContFrag)
      && (LengthOf(p) == len + 2 <==> len <= MAX_PPDU_PL_SIZE)
      && FragIdOf(p) == id && Payload(p) == payload
  {
    LengthFields(false, end, len, id);
    var p := ContEndHeader(end, len, id) + payload;
    var hi: int, lo: int := p[0], p[1];
    assert hi == FirstByte(false, end, len) && lo == id + 8 * (len % 32);
    assert p[2..] == payload;
  }

  /** A word whose top bits, middle field and three low bits do not overlap, as two bytes. */
  lemma Word(top: nat, n: nat, low: nat)
    requires top in {0, 0x4000, 0x8000, 0xc000} && n < 4096 && low < 8 && top + 8 * n + low < 0x1_0000
    ensures BigEndian(top + 8 * n + low) == [top / 256 + n / 32, low + 8 * (n % 32)]
  {
  }

  lemma LengthWord(start: bool, end: bool, len: nat, low: nat)
    requires len < 2048 && low < 8
    ensures BigEndian((if start then 0x8000 else 0) + (if end then 0x4000 else 0) + 8 * len + low)
      == [FirstByte(start, end, len), low + 8 * (len % 32)]
  {
    Word((if start then 0x8000 else 0) + (if end then 0x4000 else 0), len, low);
    hide BigEndian;
  }

  lemma TotalWord(useCrc: bool, total: nat, low: nat)
    requires total < 4096 && low < 8
    ensures BigEndian((if useCrc then 0x8000 else 0) + 8 * total + low)
      == [Bit(useCrc) * 128 + total % 4096 / 32, low + 8 * (total % 32)]
  {
    Word(if useCrc then 0x8000 else 0, total, low);
    hide BigEndian;
  }

  /** The headers as numbers in network order: the START and END bits on top, the 11-bit length, then the label type and
      the suppression bit of a COMP or the fragment id of any other; a START has a second word with the CRC flag on top,
      the 12-bit total, the label type and the suppression bit. */
  lemma HeaderWords(end: bool, len: nat, id: FragId, useCrc: bool, total: nat, labelType: nat, suppressed: bool)
    requires len < 2048 && total < 4096 && labelType < 4
    ensures var low := 2 * labelType + if suppressed then 1 else 0;
      && CompHeader(len, labelType, suppressed) == BigEndian(0xc000 + 8 * len + low)
      && StartHeader(len, id, useCrc, total, labelType, suppressed) ==
           BigEndian(0x8000 + 8 * len + id) + BigEndian((if useCrc then 0x8000 else 0) + 8 * total + low)
      && ContEndHeader(end, len, id) == BigEndian((if end then 0x4000 else 0) + 8 * len + id)
  {
    hide BigEndian, FirstByte;
    var low := 2 * labelType + if suppressed then 1 else 0;
    LengthWord(true, true, len, low);
    LengthWord(true, false, len, id);
    LengthWord(false, end, len, id);
    TotalWord(useCrc, total, low);
  }
}
