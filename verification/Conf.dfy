/** Configuration of the two ends (include/rle.h, src/rle_conf.c). */
module Conf {
  import opened Bytes

  const MAX_PDU_SIZE := 4088
  const MAX_PPDU_PL_SIZE := 2047
  const MAX_PPDU_SIZE := 2049
  const FRAG_NUMBER := 8

  type FragId = i: int | 0 <= i < 8

  datatype Config = Config(
    allowPtypeOmission: int,
    useCompressedPtype: int,
    allowAlpduCrc: int,
    allowAlpduSeqno: int,
    useExplicitPayloadHeaderMap: int,
    implicitPtype: byte,
    implicitPpduLabelSize: byte,
    implicitPayloadLabelSize: byte,
    type0AlpduLabelSize: byte)
  {
    /** rle_config_check: what a transmitter or a receiver accepts at creation. */
    predicate Check() {
      && (allowPtypeOmission == 0 || allowPtypeOmission == 1)
      && (useCompressedPtype == 0 || useCompressedPtype == 1)
      && (allowAlpduCrc == 0 || allowAlpduCrc == 1)
      && (allowAlpduSeqno == 0 || allowAlpduSeqno == 1)
      && !(allowAlpduCrc == 0 && allowAlpduSeqno == 0)
      && useExplicitPayloadHeaderMap == 0
      && implicitPpduLabelSize <= 0x0f
      && implicitPayloadLabelSize <= 0x0f
      && type0AlpduLabelSize <= 0x0f
    }

    /** Sequence numbers win when both protections are allowed. */
    predicate UseCrc() {
      allowAlpduSeqno == 0 && allowAlpduCrc != 0
    }

    function TrailerLen(): nat {
      if UseCrc() then 4 else 1
    }
  }

  /** A checked configuration sets its flags to 0 or 1, allows at least one protection and no payload header map, and
      has label sizes of four bits. */
  lemma CheckedFields(c: Config)
    ensures c.Check() <==>
      && c.allowPtypeOmission in {0, 1} && c.useCompressedPtype in {0, 1}
      && c.allowAlpduCrc in {0, 1} && c.allowAlpduSeqno in {0, 1} && c.allowAlpduCrc + c.allowAlpduSeqno >= 1
      && c.useExplicitPayloadHeaderMap == 0
      && c.implicitPpduLabelSize / 16 == c.implicitPayloadLabelSize / 16 == c.type0AlpduLabelSize / 16 == 0
  {
  }
}
