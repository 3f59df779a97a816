/** The transmitter (src/rle_transmitter.c, src/encap.c, src/fragmentation.c, push_ppdu_hdr of src/header.c): eight
    contexts, each with its own fragmentation buffer, behave as eight copies of the state machine of module Transmit
    that do not see one another. */
module Transmitter {
  import opened Bytes
  import opened Conf
  import opened ProtoType
  import opened AlpduCodec
  import opened PpduHeader
  import opened Crc
  import opened Ctx
  import opened Transmit
  import opened FragmentationBuffer

  // ---- the four cuts, one by one ----

  function Room(burst: nat): nat {
    Min(burst, MAX_PPDU_SIZE)
  }

  function TrailerOf(conf: Config, crc: seq<byte>, s: byte): seq<byte> {
    if conf.UseCrc() then crc else [s]
  }

  function SeqAfterStart(conf: Config, s: byte): byte {
    if conf.UseCrc() then s else NextSeq(s)
  }

  lemma CutsComp(conf: Config, id: FragId, job: TxJob, s: byte, burst: nat)
    requires JobOk(conf, job) && job.Fresh? && |job.alpdu.Bytes()| + 2 <= Room(burst)
    ensures var supp := job.alpdu.Suppressed();
      CutOne(conf, id, job, s, burst) ==
        Some(Sent(CompHeader(|job.alpdu.Bytes()|, LabelType(conf, job.ptype, supp), supp) + job.alpdu.Bytes(), Idle, s))
  {
    hide CompHeader, StartHeader, ContEndHeader, LabelType;
  }

  lemma CutsStart(conf: Config, id: FragId, job: TxJob, s: byte, burst: nat, all: seq<byte>)
    requires JobOk(conf, job) && job.Fresh? && |job.alpdu.Bytes()| + 2 > Room(burst) >= 5 + |job.alpdu.hdr|
    requires all == job.alpdu.Bytes() + TrailerOf(conf, job.crc, s)
    ensures var supp, n := job.alpdu.Suppressed(), Room(burst) - 4;
      && CutOne(conf, id, job, s, burst) ==
           Some(Sent(StartHeader(n + 2, id, conf.UseCrc(), |all|, LabelType(conf, job.ptype, supp), supp) + all[..n],
                     Rest(all[n..]), SeqAfterStart(conf, s)))
      && JobOk(conf, Rest(all[n..]))
  {
    hide CompHeader, StartHeader, ContEndHeader, LabelType, NextSeq;
  }

  lemma CutsNothing(conf: Config, id: FragId, job: TxJob, s: byte, burst: nat)
    requires JobOk(conf, job) && job.Fresh?
    requires |job.alpdu.Bytes()| + 2 > Room(burst) && Room(burst) < 5 + |job.alpdu.hdr|
    ensures CutOne(conf, id, job, s, burst) == None
  {
    RefusedExactly(conf, id, job, s, burst);
    hide CutOne;
  }

  lemma CutsRest(conf: Config, id: FragId, unsent: seq<byte>, s: byte, burst: nat, cut: Cut)
    requires JobOk(conf, Rest(unsent)) && cut == CutRest(conf.UseCrc(), |unsent|, burst)
    ensures CutOne(conf, id, Rest(unsent), s, burst) ==
      match cut
      case End => Some(Sent(ContEndHeader(true, |unsent|, id) + unsent, Idle, s))
      case Cont(n) => Some(Sent(ContEndHeader(false, n, id) + unsent[..n], Rest(unsent[n..]), s))
      case _ => None
    ensures cut.Cont? ==> cut.n < |unsent| && JobOk(conf, Rest(unsent[cut.n..]))
  {
    hide CompHeader, StartHeader, ContEndHeader;
  }

  /** The fields of rle_ctx_mngt that a transmitter uses. */
  class FragCtx {
    const fragId: FragId
    const buff: FragBuf
    var nextSeq: byte
    var status: LinkStatus

    constructor (id: FragId)
      ensures fragId == id && nextSeq == 0 && status == NO_STATUS
      ensures fresh(buff) && fresh(buff.buffer) && buff.buffer.Length == F_BUFF_LEN
    {
      fragId, nextSeq, status := id, 0, NO_STATUS;
      buff := new FragBuf();
    }

    /** push_alpdu_trailer: the trailer is written right behind the SDU, and a sequence number is used up. */
    method PushAlpduTrailer(conf: Config)
      requires buff.alpduStart <= buff.alpduEnd && buff.alpduEnd + conf.TrailerLen() <= buff.buffer.Length
      modifies this`nextSeq, buff`alpduEnd, buff.buffer
      ensures buff.alpduEnd == old(buff.alpduEnd) + conf.TrailerLen()
      ensures buff.KeptOutside(old(buff.alpduEnd), buff.alpduEnd)
      ensures buff.buffer[buff.alpduStart..buff.alpduEnd] ==
        old(buff.buffer[buff.alpduStart..buff.alpduEnd]) + TrailerOf(conf, CrcBytes(buff.crc), old(nextSeq))
      ensures nextSeq == SeqAfterStart(conf, old(nextSeq))
    {
      hide CrcBytes;
      if conf.UseCrc() {
        buff.Write(buff.alpduEnd, CrcBytes(buff.crc));
        buff.alpduEnd := buff.alpduEnd + 4;
      } else {
        buff.Write(buff.alpduEnd, [nextSeq]);
        nextSeq := NextSeq(nextSeq);
        buff.alpduEnd := buff.alpduEnd + 1;
      }
    }

    /** What the two halves of push_ppdu_hdr promise. */
    twostate predicate DidCut(conf: Config, burst: nat, ok: bool)
      requires old(buff.Busy(conf))
      reads this, buff, buff.buffer
    {
      var r := CutOne(conf, fragId, old(buff.Job(conf)), old(nextSeq), burst);
      && (ok <==> r.Some?)
      && (!ok ==> buff.Busy(conf) && buff.Job(conf) == old(buff.Job(conf)) && nextSeq == old(nextSeq))
      && (ok ==> buff.ppduStart <= buff.ppduEnd <= F_BUFF_LEN == buff.buffer.Length
                 && buff.buffer[buff.ppduStart..buff.ppduEnd] == r.value.ppdu
                 && nextSeq == r.value.seqNb
                 && buff.curPos <= buff.alpduEnd
                 && (buff.curPos == buff.alpduEnd <==> r.value.job == Idle)
                 && (r.value.job != Idle ==> buff.Busy(conf) && buff.Job(conf) == r.value.job))
    }

    /** n unsent bytes leave as one CONT or END. The header overwrites bytes that were sent before, and no unsent
        byte. */
    method Emit(end: bool, n: nat)
      requires buff.Placed() && n <= MAX_PPDU_SIZE && n <= buff.alpduEnd - buff.curPos
      requires buff.ppduStart == buff.ppduEnd == buff.curPos
      modifies buff`ppduStart, buff`ppduEnd, buff`curPos, buff.buffer
      ensures buff.curPos == buff.ppduEnd == old(buff.curPos) + n && buff.ppduStart == old(buff.curPos) - 2
      ensures buff.KeptOutside(old(buff.curPos) - 2, old(buff.curPos))
      ensures buff.buffer[buff.ppduStart..buff.ppduEnd] ==
        ContEndHeader(end, n, fragId) + old(buff.buffer[buff.curPos..buff.alpduEnd])[..n]
      ensures buff.buffer[buff.curPos..buff.alpduEnd] == old(buff.buffer[buff.curPos..buff.alpduEnd])[n..]
    {
      hide ContEndHeader;
      CutSlice(buff.buffer, buff.curPos, buff.curPos + n, buff.alpduEnd);
      buff.PpduPut(n);
      buff.PushContEndHdr(end, fragId);
      buff.SetCurPos();
    }

    /** The fragmented ALPDU is cut where CutRest says. */
    method EmitRest(conf: Config, burst: nat, end: bool, n: nat)
      requires buff.Busy(conf) && buff.curPos > buff.alpduStart && buff.ppduStart == buff.ppduEnd == buff.curPos
      requires n <= buff.alpduEnd - buff.curPos && n <= MAX_PPDU_SIZE && (end ==> n == buff.alpduEnd - buff.curPos)
      requires JobOk(conf, Rest(buff.buffer[buff.curPos..buff.alpduEnd]))
      requires CutRest(conf.UseCrc(), buff.alpduEnd - buff.curPos, burst) == if end then End else Cont(n)
      modifies buff`ppduStart, buff`ppduEnd, buff`curPos, buff.buffer
      ensures DidCut(conf, burst, true)
      ensures buff.KeptOutside(old(buff.curPos) - 2, old(buff.curPos))
    {
      hide CutOne, CutRest, JobOk, ContEndHeader;
      CutsRest(conf, fragId, buff.buffer[buff.curPos..buff.alpduEnd], nextSeq, burst, if end then End else Cont(n));
      Emit(end, n);
    }

    /** The branch of push_ppdu_hdr for a fragmented ALPDU. */
    method PushContOrEnd(conf: Config, burst: nat) returns (ok: bool)
      requires buff.Busy(conf) && buff.curPos > buff.alpduStart
      requires buff.ppduStart == buff.ppduEnd == buff.curPos
      modifies buff`ppduStart, buff`ppduEnd, buff`curPos, buff.buffer
      ensures DidCut(conf, burst, ok)
      ensures buff.KeptOutside(old(buff.curPos) - 2, old(buff.curPos))
    {
      var remain := buff.alpduEnd - buff.curPos;
      assert JobOk(conf, Rest(buff.buffer[buff.curPos..buff.alpduEnd]));
      RefusedExactly(conf, fragId, buff.Job(conf), nextSeq, burst);
      hide CutOne;
      if burst <= 2 {
        return false;
      }
      var room := (if burst > MAX_PPDU_SIZE then MAX_PPDU_SIZE else burst) - 2;
      if remain <= room {
        EmitRest(conf, burst, true, remain);
      } else {
        var trailerLen := if conf.UseCrc() then 4 else 0;
        var overflow := remain - room;
        var n := room;
        if overflow < trailerLen {
          n := room - (trailerLen - overflow);
          if n == 0 {
            return false;
          }
        }
        EmitRest(conf, burst, false, n);
      }
      return true;
    }

    /** The whole ALPDU leaves as one COMP. */
    method EmitComp(labelType: nat, suppressed: bool, room: nat)
      requires buff.Placed() && buff.ppduStart == buff.ppduEnd == buff.curPos == buff.alpduStart
      requires labelType < 4 && buff.alpduEnd - buff.curPos <= room <= MAX_PPDU_SIZE
      modifies buff`ppduStart, buff`ppduEnd, buff`curPos, buff.buffer
      ensures buff.curPos == buff.ppduEnd == buff.alpduEnd && buff.ppduStart == old(buff.curPos) - 2
      ensures buff.KeptOutside(old(buff.curPos) - 2, old(buff.curPos))
      ensures var all := old(buff.buffer[buff.alpduStart..buff.alpduEnd]);
        buff.buffer[buff.ppduStart..buff.ppduEnd] == CompHeader(|all|, labelType, suppressed) + all
    {
      hide CompHeader;
      buff.PpduPut(room);
      buff.PushCompHdr(labelType, suppressed);
      buff.SetCurPos();
    }

    /** The first n bytes of the ALPDU leave as one START. */
    method EmitFirst(labelType: nat, suppressed: bool, useCrc: bool, n: nat)
      requires buff.Placed() && buff.ppduStart == buff.ppduEnd == buff.curPos == buff.alpduStart
      requires labelType < 4 && n <= buff.alpduEnd - buff.alpduStart && n <= MAX_PPDU_SIZE
      modifies buff`ppduStart, buff`ppduEnd, buff`curPos, buff.buffer
      ensures buff.curPos == buff.ppduEnd == old(buff.curPos) + n && buff.ppduStart == old(buff.curPos) - 4
      ensures buff.KeptOutside(old(buff.curPos) - 4, old(buff.curPos))
      ensures var all := old(buff.buffer[buff.alpduStart..buff.alpduEnd]);
        && buff.buffer[buff.ppduStart..buff.ppduEnd] ==
             StartHeader(n + 2, fragId, useCrc, |all|, labelType, suppressed) + all[..n]
        && buff.buffer[buff.curPos..buff.alpduEnd] == all[n..]
    {
      hide StartHeader;
      CutSlice(buff.buffer, buff.curPos, buff.curPos + n, buff.alpduEnd);
      buff.PpduPut(n);
      buff.PushStartHdr(fragId, labelType, suppressed, useCrc);
      buff.SetCurPos();
    }

    /** The trailer is added and a START is cut off. */
    method EmitStart(conf: Config, labelType: nat, suppressed: bool, n: nat)
      requires buff.Placed() && buff.ppduStart == buff.ppduEnd == buff.curPos == buff.alpduStart
      requires buff.alpduEnd == buff.sduEnd && labelType < 4
      requires n <= buff.alpduEnd - buff.curPos && n <= MAX_PPDU_SIZE
      modifies this`nextSeq, buff`alpduEnd, buff`ppduStart, buff`ppduEnd, buff`curPos, buff.buffer
      ensures buff.curPos == buff.ppduEnd == old(buff.curPos) + n && buff.ppduStart == old(buff.curPos) - 4
      ensures buff.alpduEnd == old(buff.alpduEnd) + conf.TrailerLen()
      ensures forall i :: old(buff.curPos) <= i < old(buff.alpduEnd) ==> buff.buffer[i] == old(buff.buffer[i])
      ensures nextSeq == SeqAfterStart(conf, old(nextSeq))
      ensures var t := TrailerOf(conf, old(CrcBytes(buff.crc)), old(nextSeq));
        var all := old(buff.buffer[buff.alpduStart..buff.alpduEnd]) + t;
        && buff.buffer[buff.ppduStart..buff.ppduEnd] ==
             StartHeader(n + 2, fragId, conf.UseCrc(), |all|, labelType, suppressed) + all[..n]
        && buff.buffer[buff.curPos..buff.alpduEnd] == all[n..]
    {
      hide StartHeader, CrcBytes, TrailerOf, SeqAfterStart;
      PushAlpduTrailer(conf);
      EmitFirst(labelType, suppressed, conf.UseCrc(), n);
    }

    /** The two ways to send the first bytes, as CutOne describes them. */
    method EmitWhole(conf: Config, burst: nat, labelType: nat, suppressed: bool)
      requires buff.Busy(conf) && buff.curPos == buff.alpduStart == buff.ppduStart == buff.ppduEnd
      requires suppressed == (buff.sduStart == buff.alpduStart) && labelType == LabelType(conf, buff.ptype, suppressed)
      requires buff.alpduEnd - buff.curPos + 2 <= Room(burst)
      modifies buff`ppduStart, buff`ppduEnd, buff`curPos, buff.buffer
      ensures DidCut(conf, burst, true)
      ensures buff.KeptOutside(old(buff.curPos) - 2, old(buff.curPos))
    {
      hide CutOne, JobOk, CompHeader, LabelType, CrcBytes;
      ghost var job := buff.Job(conf);
      assert job.alpdu.Bytes() == buff.buffer[buff.alpduStart..buff.alpduEnd];
      CutsComp(conf, fragId, job, nextSeq, burst);
      EmitComp(labelType, suppressed, Room(burst) - 2);
    }

    method EmitPart(conf: Config, burst: nat, labelType: nat, suppressed: bool)
      requires buff.Busy(conf) && buff.curPos == buff.alpduStart == buff.ppduStart == buff.ppduEnd
      requires suppressed == (buff.sduStart == buff.alpduStart) && labelType == LabelType(conf, buff.ptype, suppressed)
      requires buff.alpduEnd - buff.curPos + 2 > Room(burst) >= 5 + buff.sduStart - buff.alpduStart
      modifies this`nextSeq, buff`alpduEnd, buff`ppduStart, buff`ppduEnd, buff`curPos, buff.buffer
      ensures DidCut(conf, burst, true)
      ensures forall i :: old(buff.curPos) <= i < old(buff.alpduEnd) ==> buff.buffer[i] == old(buff.buffer[i])
    {
      hide CutOne, JobOk, StartHeader, LabelType, CrcBytes, SeqAfterStart;
      ghost var job := buff.Job(conf);
      assert job.alpdu.Bytes() == buff.buffer[buff.alpduStart..buff.alpduEnd];
      CutsStart(conf, fragId, job, nextSeq, burst, job.alpdu.Bytes() + TrailerOf(conf, job.crc, nextSeq));
      EmitStart(conf, labelType, suppressed, Room(burst) - 4);
    }

    /** The branch of push_ppdu_hdr for an ALPDU of which nothing was sent. */
    method PushCompOrStart(conf: Config, burst: nat) returns (ok: bool)
      requires buff.Busy(conf) && buff.curPos == buff.alpduStart
      requires buff.ppduStart == buff.ppduEnd == buff.curPos
      modifies this`nextSeq, buff`alpduEnd, buff`ppduStart, buff`ppduEnd, buff`curPos, buff.buffer
      ensures DidCut(conf, burst, ok)
      ensures forall i :: old(buff.curPos) <= i < old(buff.alpduEnd) ==> buff.buffer[i] == old(buff.buffer[i])
    {
      hide LabelType, CutOne, JobOk;
      var remain := buff.alpduEnd - buff.curPos;
      var room := if burst > MAX_PPDU_SIZE then MAX_PPDU_SIZE else burst;
      var hdrLen := buff.sduStart - buff.alpduStart;
      var suppressed := hdrLen == 0;
      var labelType := LabelType(conf, buff.ptype, suppressed);
      if remain + 2 > room {
        if room < 4 + hdrLen + 1 {
          ghost var job := buff.Job(conf);
          assert job.alpdu.Bytes() == buff.buffer[buff.alpduStart..buff.alpduEnd];
          CutsNothing(conf, fragId, job, nextSeq, burst);
          return false;
        }
        EmitPart(conf, burst, labelType, suppressed);
      } else {
        EmitWhole(conf, burst, labelType, suppressed);
      }
      return true;
    }

    /** push_ppdu_hdr: one PPDU is cut exactly as CutOne says, and no byte still to be sent is overwritten. */
    method PushPpduHdr(conf: Config, burst: nat) returns (ok: bool)
      requires buff.Busy(conf) && buff.ppduStart == buff.ppduEnd == buff.curPos
      modifies this`nextSeq, buff`alpduEnd, buff`ppduStart, buff`ppduEnd, buff`curPos, buff.buffer
      ensures DidCut(conf, burst, ok)
      ensures forall i :: old(buff.curPos) <= i < old(buff.alpduEnd) ==> buff.buffer[i] == old(buff.buffer[i])
    {
      hide DidCut;
      if buff.alpduStart < buff.ppduStart {
        ok := PushContOrEnd(conf, burst);
      } else {
        ok := PushCompOrStart(conf, burst);
      }
    }

    /** The part of rle_fragment after its checks, for a busy context. */
    method BuildPpdu(conf: Config, burst: nat) returns (ok: bool, at: nat, length: nat, finished: bool)
      requires buff.Busy(conf)
      modifies this, buff`alpduEnd, buff`ppduStart, buff`ppduEnd, buff`curPos, buff.buffer
      ensures var f := Fragment(conf, fragId, TxCtx(old(buff.Job(conf)), old(nextSeq), old(status)), burst);
        && f.status == (if ok then FragOk else FragBurstTooSmall)
        && at + length <= F_BUFF_LEN == buff.buffer.Length && buff.buffer[at..at + length] == f.ppdu
        && nextSeq == f.ctx.seqNb && status == f.ctx.status
        && (finished <==> f.ctx.job == Idle)
        && (!finished ==> buff.Busy(conf) && buff.Job(conf) == f.ctx.job)
    {
      hide CutOne, JobOk;
      buff.PpduInit();
      assert buff.Job(conf) == old(buff.Job(conf)) && buff.Busy(conf);
      ok := PushPpduHdr(conf, burst);
      at, length, finished := 0, 0, false;
      if ok {
        at, length := buff.ppduStart, buff.ppduEnd - buff.ppduStart;
        finished := buff.alpduEnd - buff.curPos == 0;
        status := status.(sdusOk := status.sdusOk + if finished then 1 else 0, bytesOk := status.bytesOk + length);
      }
    }

    /** The part of rle_encapsulate after its checks, with rle_encap_contextless. */
    method Load(conf: Config, sdu: Sdu)
      requires conf.Check() && buff.buffer.Length == F_BUFF_LEN && 1 <= |sdu.data| <= MAX_PDU_SIZE
      modifies this`status, buff, buff.buffer
      ensures buff.Busy(conf) && buff.Job(conf) == NewJob(conf, sdu)
      ensures status == old(status).(sdusIn := old(status).sdusIn + 1, bytesIn := old(status).bytesIn + |sdu.data|)
    {
      hide CrcBytes, SduCrc, Encode, JobOk;
      buff.Init();
      var copied := buff.CpySdu(sdu);
      if conf.allowAlpduSeqno == 0 && conf.allowAlpduCrc == 1 {
        var held := Sdu(buff.ptype, buff.buffer[buff.sduStart..buff.sduStart + buff.sduSize]);
        assert held == sdu;
        buff.crc := ComputeCrc32(held);
      }
      buff.PushAlpduHdr(conf, sdu);
      status := status.(sdusIn := status.sdusIn + 1, bytesIn := status.bytesIn + |sdu.data|);
      assert buff.Job(conf) == NewJob(conf, sdu);
    }
  }

  class Transmitter {
    const conf: Config
    const ctxs: seq<FragCtx>
    var freeCtx: Mask

    /** Eight contexts that share nothing. */
    ghost predicate Apart() {
      && |ctxs| == FRAG_NUMBER && conf.Check()
      && (forall i: FragId :: ctxs[i].fragId == i && ctxs[i].buff.buffer.Length == F_BUFF_LEN)
      && (forall i: FragId, j: FragId :: i != j ==>
            ctxs[i] != ctxs[j] && ctxs[i].buff != ctxs[j].buff && ctxs[i].buff.buffer != ctxs[j].buff.buffer)
    }

    ghost predicate CtxOk(id: FragId)
      requires |ctxs| == FRAG_NUMBER
      reads this, ctxs[id], ctxs[id].buff, ctxs[id].buff.buffer
    {
      IsFree(freeCtx, id) || ctxs[id].buff.Busy(conf)
    }

    ghost predicate Valid()
      reads this, ctxs, set c | c in ctxs :: c.buff, set c | c in ctxs :: c.buff.buffer
    {
      Apart() && forall id: FragId :: CtxOk(id)
    }

    /** What the context of one id means: a state of the machine of module Transmit. */
    ghost function State(id: FragId): TxCtx
      requires |ctxs| == FRAG_NUMBER && CtxOk(id)
      reads this, ctxs[id], ctxs[id].buff, ctxs[id].buff.buffer
    {
      TxCtx(if IsFree(freeCtx, id) then Idle else ctxs[id].buff.Job(conf), ctxs[id].nextSeq, ctxs[id].status)
    }

    /** rle_transmitter_new, for a configuration that rle_config_check accepts. */
    constructor (c: Config)
      requires c.Check()
      ensures Valid() && conf == c
      ensures forall id: FragId :: State(id) == TxCtx(Idle, 0, NO_STATUS)
    {
      conf, freeCtx := c, 0;
      var made: seq<FragCtx> := [];
      for i := 0 to FRAG_NUMBER
        invariant |made| == i
        invariant forall k :: 0 <= k < i ==>
          && made[k].fragId == k && made[k].nextSeq == 0 && made[k].status == NO_STATUS
          && allocated(made[k]) && made[k].buff.buffer.Length == F_BUFF_LEN
        invariant forall k, l :: 0 <= k < l < i ==>
          made[k] != made[l] && made[k].buff != made[l].buff && made[k].buff.buffer != made[l].buff.buffer
      {
        var ctx := new FragCtx(i);
        made := made + [ctx];
      }
      ctxs := made;
      new;
      NothingBusy();
    }

    /** rle_encapsulate. */
    method Encapsulate(sdu: Sdu, fragId: byte) returns (status: EncapStatus)
      requires Valid()
      modifies this`freeCtx
      modifies if fragId < FRAG_NUMBER then {ctxs[fragId], ctxs[fragId].buff, ctxs[fragId].buff.buffer} else {}
      ensures Valid()
      ensures fragId >= FRAG_NUMBER ==> status == EncapErr && freeCtx == old(freeCtx)
      ensures fragId < FRAG_NUMBER ==>
        (State(fragId), status) == Transmit.Encapsulate(conf, old(State(fragId)), sdu)
      ensures forall id: FragId :: id != fragId ==> State(id) == old(State(id))
    {
      hide NewJob, IsFree, SetBusy, SetFree, JobOk;
      if fragId >= FRAG_NUMBER {
        return EncapErr;
      }
      forall other: FragId {
        MaskUpdate(freeCtx, fragId, other);
      }
      if |sdu.data| == 0 || |sdu.data| > MAX_PDU_SIZE {
        freeCtx := SetFree(freeCtx, fragId);
        assert forall id: FragId :: old(CtxOk(id)) ==> CtxOk(id);
        return EncapSduTooBig;
      }
      if !IsFree(freeCtx, fragId) {
        return EncapErr;
      }
      freeCtx := SetBusy(freeCtx, fragId);
      ctxs[fragId].Load(conf, sdu);
      assert forall id: FragId :: id != fragId && old(CtxOk(id)) ==> CtxOk(id);
      return EncapOk;
    }

    /** rle_fragment. The PPDU is not copied: it is the `length` bytes of the context's buffer from `at` on. */
    method Fragment(fragId: byte, burst: nat) returns (status: FragStatus, at: nat, length: nat)
      requires Valid()
      modifies this`freeCtx
      modifies if fragId < FRAG_NUMBER then {ctxs[fragId], ctxs[fragId].buff, ctxs[fragId].buff.buffer} else {}
      ensures Valid()
      ensures fragId >= FRAG_NUMBER ==> status == FragErr && freeCtx == old(freeCtx) && length == 0
      ensures fragId < FRAG_NUMBER ==>
        && at + length <= F_BUFF_LEN
        && Fragmented(State(fragId), status, ctxs[fragId].buff.buffer[at..at + length]) ==
             Transmit.Fragment(conf, fragId, old(State(fragId)), burst)
      ensures forall id: FragId :: id != fragId ==> State(id) == old(State(id))
    {
      hide CutOne, IsFree, SetBusy, SetFree, JobOk;
      at, length := 0, 0;
      if fragId >= FRAG_NUMBER {
        return FragErr, at, length;
      }
      forall other: FragId {
        MaskUpdate(freeCtx, fragId, other);
      }
      if IsFree(freeCtx, fragId) {
        freeCtx := SetFree(freeCtx, fragId);
        assert forall id: FragId :: old(CtxOk(id)) ==> CtxOk(id);
        return FragContextIsNull, at, length;
      }
      assert CtxOk(fragId);
      var ok, finished;
      ok, at, length, finished := ctxs[fragId].BuildPpdu(conf, burst);
      if finished {
        freeCtx := SetFree(freeCtx, fragId);
      }
      assert forall id: FragId :: id != fragId && old(CtxOk(id)) ==> CtxOk(id);
      return if ok then FragOk else FragBurstTooSmall, at, length;
    }
  }
}
