/** The counters: what goes in comes out, is dropped, or is still there. */
module Conservation {
  import opened Bytes
  import opened Conf
  import opened AlpduCodec
  import opened PpduHeader
  import opened Trailer
  import opened Crc
  import opened Ctx
  import opened Transmit
  import opened Fragments
  import opened Receive
  import opened RoundTrip
  import opened Link

  // ---- transmitter ----

  /** SDUs in are SDUs sent, plus the one in the queue. */
  predicate TxBalanced(c: TxCtx) {
    c.status.sdusIn == c.status.sdusOk + if c.job == Idle then 0 else 1
  }

  /** The balance survives an encapsulation unless an SDU of invalid size is offered to a busy context: the size
      is checked first and its failure frees the context, so the SDU in the queue is forgotten. */
  lemma EncapsulateBalance(conf: Config, c: TxCtx, sdu: Sdu)
    requires TxBalanced(c)
    ensures TxBalanced(Encapsulate(conf, c, sdu).0) <==>
      !(c.job != Idle && (|sdu.data| == 0 || |sdu.data| > MAX_PDU_SIZE))
  {
    hide Encode, SduCrc, CrcBytes;
  }

  lemma FragmentBalance(conf: Config, id: FragId, c: TxCtx, burst: nat)
    requires JobOk(conf, c.job)
    ensures TxBalanced(Fragment(conf, id, c, burst).ctx) <==> TxBalanced(c)
    ensures var f := Fragment(conf, id, c, burst);
      && f.ctx.status.bytesOk == c.status.bytesOk + |f.ppdu|
      && f.ctx.status.bytesIn == c.status.bytesIn
  {
    hide StartHeader, CompHeader, ContEndHeader;
  }

  /** Transmitter conservation over any run of calls with SDU sizes from 1 to 4088. */
  lemma {:induction false} TxConservation(conf: Config, id: FragId, c: TxCtx, ops: seq<Op>)
    requires JobOk(conf, c.job) && TxBalanced(c)
    requires forall op | op in ops :: op.Encap? ==> 1 <= |op.sdu.data| <= MAX_PDU_SIZE
    ensures TxBalanced(RunTx(conf, id, c, ops).ctx)
    ensures RunTx(conf, id, c, ops).ctx.status.bytesOk == c.status.bytesOk + TotalLength(RunTx(conf, id, c, ops).ppdus)
    decreases |ops|
  {
    hide TxBalanced, Encapsulate, Fragment, JobOk;
    if ops != [] {
      assert ops == [ops[0]] + ops[1..];
      assert ops[0] in ops && forall op | op in ops[1..] :: op in ops;
      RunTxCons(conf, id, c, ops[0], ops[1..]);
      match ops[0]
      case Encap(sdu) =>
        EncapsulateBalance(conf, c, sdu);
        EncapsulateBytes(conf, c, sdu);
        TxConservation(conf, id, Encapsulate(conf, c, sdu).0, ops[1..]);
      case Frag(burst) =>
        FragmentBalance(conf, id, c, burst);
        var f := Fragment(conf, id, c, burst);
        TxConservation(conf, id, f.ctx, ops[1..]);
        var rest := RunTx(conf, id, f.ctx, ops[1..]).ppdus;
        assert ([f.ppdu] + rest)[1..] == rest;
        NoPpduNoBytes(conf, id, c, burst);
        assert [] + rest == rest;
    }
  }

  lemma EncapsulateBytes(conf: Config, c: TxCtx, sdu: Sdu)
    ensures Encapsulate(conf, c, sdu).0.status.bytesOk == c.status.bytesOk
  {
  }

  lemma NoPpduNoBytes(conf: Config, id: FragId, c: TxCtx, burst: nat)
    requires JobOk(conf, c.job)
    ensures var f := Fragment(conf, id, c, burst); f.status != FragOk ==> f.ppdu == []
  {
    hide StartHeader, CompHeader, ContEndHeader;
  }

  lemma {:induction false} TailLength(conf: Config, id: FragId, ps: seq<Ppdu>)
    requires IsTail(conf, id, ps)
    ensures TotalLength(ps) == |TailBytes(ps)| + 2 * |ps|
  {
    if |ps| == 1 {
      assert TotalLength(ps) == |ps[0]| + TotalLength(ps[1..]) && TailBytes(ps) == ps[0][2..] + TailBytes(ps[1..]);
    } else {
      TailLength(conf, id, ps[1..]);
    }
  }

  /** What an SDU costs on the line: two bytes over its ALPDU when it goes out whole; in n fragments the trailer,
      four bytes for the START and two for each other fragment. */
  lemma LineCost(conf: Config, id: FragId, sdu: Sdu, s: byte, ps: seq<Ppdu>)
    ensures SentWhole(conf, sdu, ps) ==> TotalLength(ps) == |Encode(conf, sdu).Bytes()| + 2
    ensures SentInFragments(conf, id, sdu, s, ps) ==>
      TotalLength(ps) == |Encode(conf, sdu).Bytes()| + conf.TrailerLen() + 4 + 2 * (|ps| - 1)
  {
    hide Encode, Protection, CompHeader, StartHeader;
    if SentWhole(conf, sdu, ps) {
      assert ps[1..] == [] && TotalLength(ps) == |ps[0]| + TotalLength(ps[1..]);
    }
    if SentInFragments(conf, id, sdu, s, ps) {
      TailLength(conf, id, ps[1..]);
    }
  }

  /** New ends have counted nothing and hold nothing. */
  lemma NewIsBalanced()
    ensures TxBalanced(NEW_TX) && NEW_TX.status.sdusIn == NEW_TX.status.bytesIn == NEW_TX.status.bytesOk == 0
    ensures var rx := NewRxCtx();
      && RxOk(rx) && !rx.busy && !rx.seqInit && !rx.useCrc && SduImbalance(rx) == 0 && BytesDone(rx) == 0
      && rx.got == [] && rx.current == rx.expected == rx.nextSeq == 0
      && rx.status.sdusIn == rx.status.bytesIn == rx.status.sdusLost == rx.status.bytesOk == 0
  {
  }

  // ---- receiver ----

  /** How far the SDU counters are from "received = reassembled + dropped + one if busy". */
  function SduImbalance(c: RxCtx): int {
    c.status.sdusIn - c.status.sdusOk - c.status.sdusDropped - if c.busy then 1 else 0
  }

  /** PPDU bytes received that are neither dropped nor held for the SDU being reassembled. */
  function BytesDone(c: RxCtx): int {
    c.status.bytesIn - c.status.bytesDropped - if c.busy then c.current else 0
  }

  predicate InOrder(c: RxCtx, p: Ppdu)
    requires |p| >= 2
  {
    match TypeOf(p)
    case Complete => true
    case StartFrag => !c.busy
    case ContFrag => c.busy
    case EndFrag => c.busy
  }

  lemma SettledConserves(c: RxCtx, t: seq<byte>)
    requires c.busy && |t| == if c.useCrc then 4 else 1
    ensures var r := StepSettled(c, t);
      && SduImbalance(r.ctx) == SduImbalance(c) && r.ctx.current == c.current && !r.ctx.busy
      && BytesDone(r.ctx) == BytesDone(c) + (if r.outcome.Delivered? then r.ctx.current else 0)
  {
    hide Rebuild, CheckTrailer;
  }

  lemma EndConserves(c: RxCtx, p: Ppdu)
    requires |p| >= 2 && c.busy
    ensures var r := StepEnd(c, p);
      && SduImbalance(r.ctx) == SduImbalance(c) && r.ctx.current == c.current + |p| && !r.ctx.busy
      && BytesDone(r.ctx) == BytesDone(c) + (if r.outcome.Delivered? then r.ctx.current else 0)
  {
    hide StepSettled;
    var frag, trailerLen := p[2..], if c.useCrc then 4 else 1;
    if |frag| >= trailerLen {
      var n := |frag| - trailerLen;
      SettledConserves(CountIn(c, |p|).(got := c.got + frag[..n]), frag[n..]);
    }
  }

  lemma StartConserves(conf: Config, c: RxCtx, p: Ppdu)
    requires |p| >= 2 && !c.busy
    ensures var r := StepStart(conf, c, p);
      && SduImbalance(r.ctx) == SduImbalance(c) && BytesDone(r.ctx) == BytesDone(c)
      && (r.ctx.busy ==> r.ctx.current == |p|)
  {
    hide ExtractFrag;
  }

  lemma ContConserves(c: RxCtx, p: Ppdu)
    requires |p| >= 2 && c.busy
    ensures var r := StepCont(c, p);
      && SduImbalance(r.ctx) == SduImbalance(c) && BytesDone(r.ctx) == BytesDone(c)
      && r.ctx.current == c.current + |p|
  {
  }

  /** PPDU bytes since the last START, counted from the PPDUs alone; a COMP belongs to no context. */
  function SinceStart(since: nat, p: Ppdu): nat
    requires |p| >= 2
  {
    match TypeOf(p)
    case StartFrag => |p|
    case Complete => since
    case _ => since + |p|
  }

  /** The bytes an END that delivers adds to the bytes delivered. */
  function Gain(p: Ppdu, o: Outcome, now: nat): nat
    requires |p| >= 2
  {
    if TypeOf(p) == EndFrag && o.Delivered? then now else 0
  }

  /** Receiver conservation, one PPDU: in order, the SDU counters stay balanced, the current counter holds the bytes
      of the PPDUs since START, and the bytes done grow only on a delivery, by the bytes of all the PPDUs of that
      SDU. */
  lemma StepConserves(conf: Config, c: RxCtx, p: Ppdu, since: nat)
    requires |p| >= 2 && InOrder(c, p) && (c.busy ==> c.current == since)
    ensures var r := StepCtx(conf, c, p);
      && SduImbalance(r.ctx) == SduImbalance(c)
      && (r.ctx.busy ==> r.ctx.current == SinceStart(since, p))
      && BytesDone(r.ctx) == BytesDone(c) + Gain(p, r.outcome, SinceStart(since, p))
  {
    hide TypeOf, StepStart, StepCont, StepEnd, StepComp, SduImbalance, BytesDone;
    match TypeOf(p)
    case Complete =>
    case StartFrag => StartConserves(conf, c, p);
    case ContFrag => ContConserves(c, p);
    case EndFrag => EndConserves(c, p);
  }

  function SduDrift(t: FragType): int {
    match t
    case StartFrag => 1
    case ContFrag => -1
    case EndFrag => -2
    case Complete => 0
  }

  function ByteDrift(t: FragType, current: int, len: int): int {
    match t
    case StartFrag => current
    case ContFrag => -current
    case EndFrag => -(2 * current + len)
    case Complete => 0
  }

  /** Out of order, the counters drift by exact amounts: a START on a busy context counts the SDU it ends as neither
      reassembled nor dropped and forgets its bytes; an orphan CONT or END drops an SDU that was never counted in,
      the END twice, together with stale bytes. Each counts one SDU as lost. */
  lemma OutOfOrderDrift(conf: Config, c: RxCtx, p: Ppdu)
    requires |p| >= 2 && !InOrder(c, p)
    ensures var r := StepCtx(conf, c, p);
      && r.outcome == Rejected && !r.ctx.busy
      && SduImbalance(r.ctx) == SduImbalance(c) + SduDrift(TypeOf(p))
      && BytesDone(r.ctx) == BytesDone(c) + ByteDrift(TypeOf(p), c.current, |p|)
      && r.ctx.status.sdusLost == (c.status.sdusLost + 1) % TWO_TO_64
  {
    hide TypeOf, ExtractFrag, Rebuild, CheckTrailer;
  }

  /** How many SDUs a PPDU reports lost: one for a START or CONT that is refused and for an END without START, what the
      trailer check says for an END that reaches it, none otherwise. */
  function LostBy(c: RxCtx, p: Ppdu, o: Outcome): nat
    requires |p| >= 2
  {
    if o != Rejected || TypeOf(p) == Complete then 0
    else if TypeOf(p) != EndFrag || !c.busy then 1
    else match Verdict(c, p)
      case None => 0
      case Some(check) => check.lost
  }

  /** The counters that a reader of the PPDUs and return codes can keep for himself: SDUs and bytes received, SDUs and
      bytes delivered, SDUs lost. */
  function Counted(c: RxCtx, p: Ppdu, o: Outcome): LinkStatus
    requires |p| >= 2
  {
    var start, fragment := TypeOf(p) == StartFrag, TypeOf(p) != Complete;
    var size := if TypeOf(p) == EndFrag && o.Delivered? then Some(|o.sdu.data|) else None;
    c.status.(
      sdusIn := c.status.sdusIn + (if start then 1 else 0),
      bytesIn := c.status.bytesIn + (if fragment then |p| else 0),
      sdusOk := c.status.sdusOk + (if size.Some? then 1 else 0),
      bytesOk := c.status.bytesOk + (if size.Some? then size.value else 0),
      sdusLost := (c.status.sdusLost + LostBy(c, p, o)) % TWO_TO_64)
  }

  /** Two records that agree on those counters. */
  predicate SameCounts(a: LinkStatus, b: LinkStatus) {
    a.(sdusDropped := 0, bytesDropped := 0) == b.(sdusDropped := 0, bytesDropped := 0)
  }

  lemma StartCounts(conf: Config, c: RxCtx, p: Ppdu)
    requires |p| >= 2 && TypeOf(p) == StartFrag && c.status.sdusLost < TWO_TO_64
    ensures var r := StepStart(conf, c, p);
      r.outcome != Aborted ==> SameCounts(r.ctx.status, Counted(c, p, r.outcome))
  {
    hide TypeOf, ExtractFrag;
  }

  lemma ContCounts(c: RxCtx, p: Ppdu)
    requires |p| >= 2 && TypeOf(p) == ContFrag && c.status.sdusLost < TWO_TO_64
    ensures var r := StepCont(c, p);
      SameCounts(r.ctx.status, Counted(c, p, r.outcome))
  {
    hide TypeOf;
  }

  lemma EndCounts(c: RxCtx, p: Ppdu)
    requires |p| >= 2 && TypeOf(p) == EndFrag && c.status.sdusLost < TWO_TO_64
    ensures var r := StepEnd(c, p);
      SameCounts(r.ctx.status, Counted(c, p, r.outcome))
  {
    hide TypeOf, Rebuild, CheckTrailer;
    if |p| >= 2 + if c.useCrc then 4 else 1 {
      VerdictCuts(c, p);
    }
  }

  /** Whatever PPDU arrives, those counters are what such a reader has. */
  lemma CountersFollow(conf: Config, c: RxCtx, p: Ppdu)
    requires |p| >= 2 && c.status.sdusLost < TWO_TO_64
    ensures var r := StepCtx(conf, c, p);
      r.outcome != Aborted ==> SameCounts(r.ctx.status, Counted(c, p, r.outcome))
  {
    hide TypeOf, StepStart, StepCont, StepEnd, StepComp, SameCounts, LostBy;
    match TypeOf(p)
    case Complete => NothingCounted(conf, c, p);
    case StartFrag => StartCounts(conf, c, p);
    case ContFrag => ContCounts(c, p);
    case EndFrag => EndCounts(c, p);
  }

  lemma NothingCounted(conf: Config, c: RxCtx, p: Ppdu)
    requires |p| >= 2 && TypeOf(p) == Complete && c.status.sdusLost < TWO_TO_64
    ensures var r := StepCtx(conf, c, p);
      r.ctx == c && SameCounts(c.status, Counted(c, p, r.outcome))
  {
    hide TypeOf, StepComp;
  }

  predicate AllInOrder(conf: Config, c: RxCtx, ps: seq<Ppdu>)
    requires AllPpdus(ps)
    decreases |ps|
  {
    ps != [] ==> InOrder(c, ps[0]) && AllInOrder(conf, StepCtx(conf, c, ps[0]).ctx, ps[1..])
  }

  /** The bytes of the PPDUs of all SDUs delivered in a run, as counted by an observer who sees only PPDUs and return
      codes; `since` is the bytes of the PPDUs since the last START. */
  function DeliveredBytes(conf: Config, c: RxCtx, ps: seq<Ppdu>, since: nat): nat
    requires AllPpdus(ps)
    decreases |ps|
  {
    if ps == [] then 0
    else
      var r, now := StepCtx(conf, c, ps[0]), SinceStart(since, ps[0]);
      Gain(ps[0], r.outcome, now) + DeliveredBytes(conf, r.ctx, ps[1..], now)
  }

  /** Receiver conservation over any run in order, COMPs of any origin in between: SDUs received are reassembled,
      dropped or still there, and bytes received are dropped, of the PPDUs of a delivered SDU, or still there. */
  lemma {:induction false} RxConservation(conf: Config, c: RxCtx, ps: seq<Ppdu>, since: nat)
    requires AllPpdus(ps) && AllInOrder(conf, c, ps) && (c.busy ==> c.current == since)
    ensures SduImbalance(Run(conf, c, ps).ctx) == SduImbalance(c)
    ensures BytesDone(Run(conf, c, ps).ctx) == BytesDone(c) + DeliveredBytes(conf, c, ps, since)
    decreases |ps|
  {
    hide StepCtx, TypeOf, InOrder, SduImbalance, BytesDone, Gain, SinceStart;
    if ps != [] {
      StepConserves(conf, c, ps[0], since);
      RxConservation(conf, StepCtx(conf, c, ps[0]).ctx, ps[1..], SinceStart(since, ps[0]));
    }
  }
}
