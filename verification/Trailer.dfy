/** The protection at the end of a fragmented ALPDU (src/trailer.c). */
module Trailer {
  import opened Bytes
  import opened Conf
  import opened Crc
  import opened Ctx

  /** push_alpdu_trailer: four CRC bytes or one sequence number. */
  function Protection(conf: Config, sdu: Sdu, s: byte): (t: seq<byte>)
    ensures |t| == conf.TrailerLen()
  {
    if conf.UseCrc() then CrcBytes(SduCrc(sdu)) else [s]
  }

  /** What check_alpdu_trailer decides; `lost` is the size_t it reports. */
  datatype Check = Check(ok: bool, lost: nat, nextSeq: byte, seqInit: bool)

  /** The difference of two sequence numbers as the code stores it: the C remainder by 256 of an int between
      -255 and 255 is that int, and a negative one becomes a huge size_t. */
  function LostCount(received: byte, expected: byte): nat {
    if received >= expected then received - expected else TWO_TO_64 - (expected - received)
  }

  /** check_alpdu_trailer. */
  function CheckTrailer(useCrc: bool, t: seq<byte>, sdu: Sdu, nextSeq: byte, seqInit: bool): Check
    requires |t| == if useCrc then 4 else 1
  {
    if useCrc then
      var ok := t == CrcBytes(SduCrc(sdu));
      Check(ok, if ok then 0 else 1, nextSeq, seqInit)
    else
      var received := t[0];
      var ok := !seqInit || received == nextSeq || received == 0;
      Check(ok, if ok then 0 else LostCount(received, nextSeq), NextSeq(received), true)
  }

  /** How many ALPDUs are missing between the expected and the received one, when fewer than 256 are. */
  function Missing(received: byte, expected: byte): nat {
    (received - expected) % 256
  }

  /** The reported count is the number of missing ALPDUs exactly when the numbers did not wrap between the two. */
  lemma LostCountExact(received: byte, expected: byte)
    ensures LostCount(received, expected) == Missing(received, expected) <==> received >= expected
  {
  }

  /** Two ALPDUs missing around the wrap: the counter moves by a huge amount instead of two. */
  lemma LostCountWraps()
    ensures Missing(1, 255) == 2 && LostCount(1, 255) == 18446744073709551362
  {
  }

  /** An SDU that reaches the check as it was sent is accepted in CRC mode; in sequence-number mode it is accepted when
      no number is awaited yet, or the number is the awaited one or zero, and the next number is awaited afterwards in
      any case. An accepted SDU reports nothing lost. */
  lemma IntactSduChecked(sdu: Sdu, s: byte, nextSeq: byte, seqInit: bool)
    ensures CheckTrailer(true, CrcBytes(SduCrc(sdu)), sdu, nextSeq, seqInit) == Check(true, 0, nextSeq, seqInit)
    ensures var check := CheckTrailer(false, [s], sdu, nextSeq, seqInit);
      && (check.ok <==> seqInit ==> s in {0, nextSeq})
      && (check.ok ==> check.lost == 0)
      && (!check.ok && s > nextSeq ==> check.lost == s - nextSeq)
      && check.nextSeq == (s + 1) % 0x100 && check.seqInit
  {
    hide SduCrc, CrcBytes;
  }

  /** An SDU that reaches the check corrupted inside four consecutive bytes is rejected and counted as lost. */
  lemma CorruptedSduRejected(ptype: u16, before: seq<byte>, v: seq<byte>, w: seq<byte>, after: seq<byte>,
                             nextSeq: byte, seqInit: bool)
    requires |v| == |w| <= 4 && v != w
    ensures var sent, received := Sdu(ptype, before + v + after), Sdu(ptype, before + w + after);
      CheckTrailer(true, CrcBytes(SduCrc(sent)), received, nextSeq, seqInit) == Check(false, 1, nextSeq, seqInit)
  {
    hide SduCrc, CrcBytes;
    var sent, received := Sdu(ptype, before + v + after), Sdu(ptype, before + w + after);
    SduCorruptionDetected(ptype, before, v, w, after);
    CrcBytesInjective(SduCrc(sent), SduCrc(received));
  }
}
