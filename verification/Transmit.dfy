/** The transmitter of one fragment id, as a state machine over values (src/encap.c, src/fragmentation.c,
    src/header.c): an SDU becomes an ALPDU, and each call with some room in the burst cuts off one PPDU. */
module Transmit {
  import opened Bytes
  import opened Conf
  import opened ProtoType
  import opened AlpduCodec
  import opened PpduHeader
  import opened Crc
  import opened Ctx

  /** What one context has to send: nothing, an ALPDU of which nothing was sent yet, or the unsent end of a
      fragmented ALPDU, trailer included. */
  datatype TxJob =
    | Idle
    | Fresh(ptype: u16, alpdu: Alpdu, crc: seq<byte>)
    | Rest(unsent: seq<byte>)

  /** The size decision of push_ppdu_hdr; Start and Cont carry their number of ALPDU bytes. */
  datatype Cut = TooSmall | Comp | Start(n: nat) | Cont(n: nat) | End

  /** The branch of push_ppdu_hdr for an ALPDU that is not fragmented yet. */
  function CutFresh(hdrLen: nat, remain: nat, burst: nat): Cut {
    var room := Min(burst, MAX_PPDU_SIZE);
    if remain + 2 > room then
      if room < 4 + hdrLen + 1 then TooSmall else Start(room - 4)
    else Comp
  }

  /** The branch for a fragmented ALPDU. In CRC mode the last four bytes, the trailer, must not be split. */
  function CutRest(useCrc: bool, remain: nat, burst: nat): Cut
    requires remain >= if useCrc then 4 else 1
  {
    if burst <= 2 then TooSmall
    else
      var room := Min(burst, MAX_PPDU_SIZE) - 2;
      if remain <= room then End
      else
        var trailerLen := if useCrc then 4 else 0;
        var overflow := remain - room;
        if overflow < trailerLen then
          var n := room - (trailerLen - overflow);
          if n == 0 then TooSmall else Cont(n)
        else Cont(room)
  }

  /** What every reachable job satisfies. The last clause is the invariant that keeps the trailer whole and the
      subtractions of push_ppdu_hdr from wrapping. */
  predicate JobOk(conf: Config, job: TxJob) {
    match job
    case Idle => true
    case Fresh(_, a, crc) =>
      && |a.hdr| <= 3 && 1 <= |a.body| && |a.Bytes()| <= MAX_PDU_SIZE + 3
      && |crc| == (if conf.UseCrc() then 4 else 0)
    case Rest(unsent) => conf.TrailerLen() <= |unsent| <= 4095
  }

  datatype Sent = Sent(ppdu: Ppdu, job: TxJob, seqNb: byte)

  /** push_ppdu_hdr with its four header writers and push_alpdu_trailer; None is "burst too small". */
  function CutOne(conf: Config, id: FragId, job: TxJob, seqNb: byte, burst: nat): Option<Sent>
    requires JobOk(conf, job) && job != Idle
  {
    match job
    case Fresh(ptype, a, crc) =>
      var supp := a.Suppressed();
      var lt := LabelType(conf, ptype, supp);
      (match CutFresh(|a.hdr|, |a.Bytes()|, burst)
       case Comp => Some(Sent(CompHeader(|a.Bytes()|, lt, supp) + a.Bytes(), Idle, seqNb))
       case Start(n) =>
         var all := a.Bytes() + if conf.UseCrc() then crc else [seqNb];
         var next := if conf.UseCrc() then seqNb else NextSeq(seqNb);
         Some(Sent(StartHeader(n + 2, id, conf.UseCrc(), |all|, lt, supp) + all[..n], Rest(all[n..]), next))
       case _ => None)
    case Rest(unsent) =>
      (match CutRest(conf.UseCrc(), |unsent|, burst)
       case End => Some(Sent(ContEndHeader(true, |unsent|, id) + unsent, Idle, seqNb))
       case Cont(n) => Some(Sent(ContEndHeader(false, n, id) + unsent[..n], Rest(unsent[n..]), seqNb))
       case _ => None)
  }

  /** The job that rle_encapsulate leaves for an SDU of accepted size. */
  function NewJob(conf: Config, sdu: Sdu): (job: TxJob)
    ensures job.Fresh?
    ensures 1 <= |sdu.data| <= MAX_PDU_SIZE ==> JobOk(conf, job)
  {
    EncodeSizes(conf, sdu);
    Fresh(sdu.ptype, Encode(conf, sdu), if conf.UseCrc() then CrcBytes(SduCrc(sdu)) else [])
  }

  datatype TxCtx = TxCtx(job: TxJob, seqNb: byte, status: LinkStatus)

  datatype EncapStatus = EncapOk | EncapErr | EncapSduTooBig

  datatype FragStatus = FragOk | FragErr | FragBurstTooSmall | FragContextIsNull

  /** rle_encapsulate. A bad size frees the context even when it is busy. */
  function Encapsulate(conf: Config, c: TxCtx, sdu: Sdu): (TxCtx, EncapStatus) {
    if |sdu.data| == 0 || |sdu.data| > MAX_PDU_SIZE then (c.(job := Idle), EncapSduTooBig)
    else if c.job != Idle then (c, EncapErr)
    else
      var st := c.status.(sdusIn := c.status.sdusIn + 1, bytesIn := c.status.bytesIn + |sdu.data|);
      (c.(job := NewJob(conf, sdu), status := st), EncapOk)
  }

  datatype Fragmented = Fragmented(ctx: TxCtx, status: FragStatus, ppdu: Ppdu)

  /** rle_fragment. */
  function Fragment(conf: Config, id: FragId, c: TxCtx, burst: nat): Fragmented
    requires JobOk(conf, c.job)
  {
    if c.job == Idle then Fragmented(c, FragContextIsNull, [])
    else match CutOne(conf, id, c.job, c.seqNb, burst)
      case None => Fragmented(c, FragBurstTooSmall, [])
      case Some(s) =>
        var sent := if s.job == Idle then 1 else 0;
        var st := c.status.(sdusOk := c.status.sdusOk + sent, bytesOk := c.status.bytesOk + |s.ppdu|);
        Fragmented(TxCtx(s.job, s.seqNb, st), FragOk, s.ppdu)
  }

  // ---- one step ----

  /** The bytes of a job still to be sent, with the trailer that a START would add. */
  function Unsent(conf: Config, job: TxJob, seqNb: byte): seq<byte> {
    match job
    case Idle => []
    case Fresh(_, a, crc) => a.Bytes() + if conf.UseCrc() then crc else [seqNb]
    case Rest(unsent) => unsent
  }

  /** The invariant is kept: in CRC mode a fragmented ALPDU always has its whole trailer unsent. */
  lemma CutOneKeepsJobOk(conf: Config, id: FragId, job: TxJob, seqNb: byte, burst: nat)
    requires JobOk(conf, job) && job != Idle
    ensures var r := CutOne(conf, id, job, seqNb, burst);
      r.Some? ==> JobOk(conf, r.value.job)
  {
  }

  /** Bounds of every PPDU: it fits in the burst and in the 11-bit length field, carries at least one byte of
      payload, and a START announces at most 4095 bytes, so that its two split fields decode to what was meant. */
  lemma PpduBounds(conf: Config, id: FragId, job: TxJob, seqNb: byte, burst: nat)
    requires JobOk(conf, job) && job != Idle
    ensures var r := CutOne(conf, id, job, seqNb, burst);
      r.Some? ==> var p := r.value.ppdu;
        && 2 < |p| <= Min(burst, MAX_PPDU_SIZE)
        && LengthOf(p) == |p|
        && TypeOf(p) == (if job.Fresh? then (if r.value.job == Idle then Complete else StartFrag)
                         else (if r.value.job == Idle then EndFrag else ContFrag))
        && (job.Fresh? && r.value.job != Idle ==> |p| >= 5 && StartTotal(p) == |Unsent(conf, job, seqNb)|)
        && (TypeOf(p) != Complete ==> FragIdOf(p) == id)
  {
    var r := CutOne(conf, id, job, seqNb, burst);
    if r.Some? {
      match job
      case Fresh(ptype, a, crc) =>
        var supp := a.Suppressed();
        var lt := LabelType(conf, ptype, supp);
        var all := Unsent(conf, job, seqNb);
        match CutFresh(|a.hdr|, |a.Bytes()|, burst) {
          case Comp => CompHeaderRoundTrip(|a.Bytes()|, lt, supp, a.Bytes());
          case Start(n) => StartHeaderRoundTrip(n + 2, id, conf.UseCrc(), |all|, lt, supp, all[..n]);
          case _ =>
        }
      case Rest(unsent) =>
        match CutRest(conf.UseCrc(), |unsent|, burst)
        case End => ContEndHeaderRoundTrip(true, |unsent|, id, unsent);
        case Cont(n) => ContEndHeaderRoundTrip(false, n, id, unsent[..n]);
        case _ =>
    }
  }

  /** The trailer is never split: after a START at least three SDU bytes and the whole trailer are still to be sent,
      after a CONT at least the whole trailer, so that the END carries all of it. */
  lemma TrailerIsNeverSplit(conf: Config, id: FragId, job: TxJob, seqNb: byte, burst: nat)
    requires JobOk(conf, job) && job != Idle
    ensures var r := CutOne(conf, id, job, seqNb, burst);
      && (r.Some? && r.value.job.Rest? ==> |r.value.job.unsent| >= conf.TrailerLen() + if job.Fresh? then 3 else 0)
      && (r.Some? && job.Rest? && r.value.job == Idle ==>
            r.value.ppdu[2..] == job.unsent && |r.value.ppdu| >= 2 + conf.TrailerLen())
  {
    hide CompHeader, StartHeader, ContEndHeader;
  }

  /** Each PPDU carries exactly the next unsent bytes; a COMP carries everything but the trailer. */
  lemma PayloadIsNextBytes(conf: Config, id: FragId, job: TxJob, seqNb: byte, burst: nat)
    requires JobOk(conf, job) && job != Idle
    ensures var r := CutOne(conf, id, job, seqNb, burst);
      r.Some? ==>
        var p, after := r.value.ppdu, r.value.job;
        && |p| >= (if TypeOf(p) == StartFrag then 4 else 2)
        && (TypeOf(p) == Complete ==> job.Fresh? && Payload(p) == job.alpdu.Bytes())
        && (TypeOf(p) != Complete ==>
              Payload(p) + Unsent(conf, after, r.value.seqNb) == Unsent(conf, job, seqNb))
        && r.value.seqNb == (if TypeOf(p) == StartFrag && !conf.UseCrc() then NextSeq(seqNb) else seqNb)
  {
    PpduBounds(conf, id, job, seqNb, burst);
    var r := CutOne(conf, id, job, seqNb, burst);
    if r.Some? {
      hide FirstByte, CompHeader, StartHeader, ContEndHeader;
    }
  }

  /** The exact bursts that are refused. In particular eight bytes are always enough. */
  lemma RefusedExactly(conf: Config, id: FragId, job: TxJob, seqNb: byte, burst: nat)
    requires JobOk(conf, job) && job != Idle
    ensures CutOne(conf, id, job, seqNb, burst).None? <==>
      match job
      case Fresh(_, a, _) => |a.Bytes()| + 2 > burst && burst < 5 + |a.hdr|
      case Rest(unsent) => burst < 3 || (conf.UseCrc() && |unsent| == 4 && burst < 6)
      case Idle => true
    ensures burst >= 8 ==> CutOne(conf, id, job, seqNb, burst).Some?
  {
    hide CompHeader, StartHeader, ContEndHeader;
  }

  /** No room is wasted: an ALPDU is cut only when it does not fit, and a cut PPDU fills the burst (or the largest
      size of the standard) unless that would split the CRC, which is then left whole for the next PPDU. */
  lemma CutIsMaximal(conf: Config, id: FragId, job: TxJob, seqNb: byte, burst: nat)
    requires JobOk(conf, job) && job != Idle
    ensures var r := CutOne(conf, id, job, seqNb, burst);
      r.Some? && r.value.job != Idle ==>
        var room := Min(burst, MAX_PPDU_SIZE);
        && r.value.job.Rest?
        && (job.Fresh? ==> |job.alpdu.Bytes()| + 2 > room)
        && (job.Rest? ==> |job.unsent| + 2 > room)
        && (|r.value.ppdu| == room ||
            (job.Rest? && conf.UseCrc() && |r.value.job.unsent| == 4 && |job.unsent| + 2 - room < 4))
  {
    hide FirstByte;
  }

  /** Termination measure: the unsent bytes, counting the trailer before it exists. Every PPDU makes it smaller,
      while the raw number of queued bytes may grow when a START appends the trailer. */
  function Measure(conf: Config, job: TxJob): nat {
    match job
    case Idle => 0
    case Fresh(_, a, _) => |a.Bytes()| + conf.TrailerLen()
    case Rest(unsent) => |unsent|
  }

  lemma MeasureDecreases(conf: Config, id: FragId, job: TxJob, seqNb: byte, burst: nat)
    requires JobOk(conf, job) && job != Idle
    ensures var r := CutOne(conf, id, job, seqNb, burst);
      r.Some? ==> Measure(conf, r.value.job) < Measure(conf, job)
  {
    hide CompHeader, StartHeader, ContEndHeader;
  }

  /** A START that leaves more bytes in the queue than there were before it. */
  lemma QueueMayGrow(conf: Config)
    requires conf.Check() && conf.UseCrc()
    ensures var job := Fresh(IPV4, Alpdu([IPV4_COMP], [1, 2, 3, 4, 5]), [6, 7, 8, 9]);
      && JobOk(conf, job)
      && var r := CutOne(conf, 0, job, 0, 6);
         r.Some? && r.value.job.Rest? && |r.value.job.unsent| > |job.alpdu.Bytes()|
  {
    hide StartHeader;
  }

  // ---- what a call reports ----

  /** Which protection an accepted configuration gets, in terms of its fields: a START of an SDU with sequence numbers
      allowed, alone or beside the CRC, announces no CRC and is followed by bytes that end in the one byte of its
      number, which is then used up; otherwise it announces a CRC and is followed by bytes that end in the four of the
      CRC. */
  lemma ProtectionChosen(conf: Config, id: FragId, sdu: Sdu, seqNb: byte, burst: nat)
    requires conf.Check() && 1 <= |sdu.data| <= 4088
    requires CutOne(conf, id, NewJob(conf, sdu), seqNb, burst).Some?
    ensures var sent := CutOne(conf, id, NewJob(conf, sdu), seqNb, burst).value;
      sent.job != Idle ==>
        && sent.job.Rest? && |sent.job.unsent| >= 4 && |sent.ppdu| >= 4
        && var u, size := sent.job.unsent, |Encode(conf, sdu).Bytes()|;
           if conf.allowAlpduSeqno == 1 then
             && !StartUsesCrc(sent.ppdu) && StartTotal(sent.ppdu) == size + 1
             && u[|u| - 1] == seqNb && sent.seqNb == (seqNb + 1) % 256
           else
             && StartUsesCrc(sent.ppdu) && StartTotal(sent.ppdu) == size + 4
             && u[|u| - 4..] == CrcBytes(SduCrc(sdu)) && sent.seqNb == seqNb
  {
    hide Encode, SduCrc, CrcBytes, StartUsesCrc, StartTotal, StartHeader, CompHeader, LabelType;
    var job := NewJob(conf, sdu);
    var sent := CutOne(conf, id, job, seqNb, burst).value;
    if sent.job != Idle {
      var a := job.alpdu;
      var all, n := a.Bytes() + (if conf.UseCrc() then job.crc else [seqNb]), |sent.ppdu| - 4;
      var lt := LabelType(conf, sdu.ptype, a.Suppressed());
      StartHeaderRoundTrip(n + 2, id, conf.UseCrc(), |all|, lt, a.Suppressed(), all[..n]);
    }
  }

  /** What rle_fragment reports, and when: no SDU at all, a burst too small for the next PPDU, or a PPDU; unless it
      reports a PPDU nothing has changed. An SDU is counted as sent with its last PPDU, its bytes with each. */
  lemma FragmentReports(conf: Config, id: FragId, c: TxCtx, burst: nat)
    requires JobOk(conf, c.job)
    ensures var f := Fragment(conf, id, c, burst);
      && (f.status == FragContextIsNull <==> c.job == Idle)
      && (f.status == FragBurstTooSmall <==> match c.job
            case Idle => false
            case Fresh(_, a, _) => |a.Bytes()| + 2 > burst && burst < 5 + |a.hdr|
            case Rest(unsent) => burst < 3 || (conf.UseCrc() && |unsent| == 4 && burst < 6))
      && f.status != FragErr
      && (f.status != FragOk ==> f.ctx == c && f.ppdu == [])
      && (f.status == FragOk ==> f.ctx.status == c.status.(
            sdusOk := if f.ctx.job == Idle then c.status.sdusOk + 1 else c.status.sdusOk,
            bytesOk := c.status.bytesOk + |f.ppdu|))
  {
    hide CutOne;
    if c.job != Idle {
      RefusedExactly(conf, id, c.job, c.seqNb, burst);
    }
  }

  /** What rle_encapsulate reports, and when: the size is looked at first, then whether the context is busy. Only an
      SDU that is taken is counted, and it is queued whole; a bad size empties the queue; a busy context is left alone.
      */
  lemma EncapsulateReports(conf: Config, c: TxCtx, sdu: Sdu)
    ensures var (after, status) := Encapsulate(conf, c, sdu);
      && (status == EncapSduTooBig <==> |sdu.data| == 0 || |sdu.data| > 4088)
      && (status == EncapErr <==> 0 < |sdu.data| <= 4088 && c.job != Idle)
      && (status == EncapErr ==> after == c)
      && (status == EncapSduTooBig ==> after.job == Idle && after.status == c.status)
      && (status == EncapOk ==>
            && after.job.Fresh? && after.job.alpdu == Encode(conf, sdu) && after.job.ptype == sdu.ptype
            && after.status == c.status.(sdusIn := c.status.sdusIn + 1, bytesIn := c.status.bytesIn + |sdu.data|))
      && after.seqNb == c.seqNb
  {
    hide Encode, SduCrc, CrcBytes;
  }
}
