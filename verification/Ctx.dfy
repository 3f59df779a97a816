/** What both ends keep per fragment id besides their buffer: sequence numbers, counters and the mask of busy
    contexts (src/rle_ctx.h, src/rle_ctx.c). */
module Ctx {
  import opened Bytes
  import opened Conf

  const TWO_TO_64 := 0x1_0000_0000_0000_0000

  /** link_status. The lost counter is 64 bits wide because the code adds wrapped differences to it; the others
      only grow by small amounts and are modelled without a bound. */
  datatype LinkStatus = LinkStatus(
    sdusIn: nat, sdusOk: nat, sdusDropped: nat, sdusLost: nat,
    bytesIn: nat, bytesOk: nat, bytesDropped: nat)

  const NO_STATUS := LinkStatus(0, 0, 0, 0, 0, 0, 0)

  /** rle_ctx_incr_seq_nb. */
  function NextSeq(s: byte): byte {
    (s + 1) % 256
  }

  /** One bit per fragment id; zero means free. */
  type Mask = bv8

  function IdBit(id: FragId): bv8 {
    match id
    case 0 => 1
    case 1 => 2
    case 2 => 4
    case 3 => 8
    case 4 => 16
    case 5 => 32
    case 6 => 64
    case 7 => 128
  }

  predicate IsFree(m: Mask, id: FragId) {
    m & IdBit(id) == 0
  }

  function SetBusy(m: Mask, id: FragId): Mask {
    m | IdBit(id)
  }

  function SetFree(m: Mask, id: FragId): Mask {
    m & (0xff ^ IdBit(id))
  }

  /** Setting or clearing the bit of one id is seen on that id and on no other. */
  lemma MaskUpdate(m: Mask, id: FragId, other: FragId)
    ensures IsFree(SetBusy(m, id), other) <==> (other != id && IsFree(m, other))
    ensures IsFree(SetFree(m, id), other) <==> (other == id || IsFree(m, other))
  {
    BitsApart(m, IdBit(id), IdBit(other));
    if id != other {
      assert IdBit(id) & IdBit(other) == 0;
    }
  }

  /** The mask of an id is one shifted by it. */
  lemma IdBitIsShift(id: FragId)
    ensures IdBit(id) == (1 as bv8) << (id as int)
  {
  }

  /** A new transmitter or receiver has no busy context. */
  lemma NothingBusy()
    ensures forall id: FragId :: IsFree(0, id)
  {
  }

  lemma BitsApart(m: bv8, p: bv8, q: bv8)
    ensures p != 0 ==> (m | p) & p != 0
    ensures (m & (0xff ^ p)) & p == 0
    ensures p & q == 0 ==> (m | p) & q == m & q
    ensures p & q == 0 ==> (m & (0xff ^ p)) & q == m & q
  {
  }
}
