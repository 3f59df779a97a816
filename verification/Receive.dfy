/** The receiver as a state machine over values (src/reassembly.c, src/rle_receiver.c): one reassembly context per
    fragment id, and the dispatch of a PPDU to its context. */
module Receive {
  import opened Bytes
  import opened Conf
  import opened ProtoType
  import opened AlpduCodec
  import opened PpduHeader
  import opened Trailer
  import opened Ctx

  /** A reassembly context. `expected` is the SDU length that the START announced, `got` the bytes received so
      far; both keep their last values while the context is free. */
  datatype RxCtx = RxCtx(
    busy: bool, nextSeq: byte, seqInit: bool, useCrc: bool, current: nat,
    expected: nat, got: seq<byte>, ptype: u16, compPtype: byte, status: LinkStatus)

  /** C_ERROR, C_OK, C_REASSEMBLY_OK with its SDU, and the failure of an assertion of the source. */
  datatype Outcome = Rejected | Accepted | Delivered(sdu: Sdu) | Aborted

  datatype Step = Step(ctx: RxCtx, outcome: Outcome)

  const MAX_EXPECTED := 4094

  predicate RxOk(c: RxCtx) {
    |c.got| <= c.expected <= MAX_EXPECTED && (c.busy ==> c.expected > 0)
  }

  function CountIn(c: RxCtx, len: nat): RxCtx {
    c.(current := c.current + len, status := c.status.(bytesIn := c.status.bytesIn + len))
  }

  /** The common error exit: one SDU dropped, `lost` lost, all bytes since START dropped, context freed. */
  function DropSdu(c: RxCtx, lost: nat): RxCtx {
    c.(busy := false, status := c.status.(
      sdusDropped := c.status.sdusDropped + 1,
      sdusLost := (c.status.sdusLost + lost) % TWO_TO_64,
      bytesDropped := c.status.bytesDropped + c.current))
  }

  /** reassembly_comp_ppdu: uses no context. */
  function StepComp(conf: Config, p: Ppdu): Outcome
    requires |p| >= 2
  {
    match ExtractFrag(conf, CompSuppressed(p), CompLabel(p) == LABEL_SIGNAL, p[2..])
    case None => Rejected
    case Some(x) =>
      match Rebuild(x.ptype, x.compPtype, x.sduFrag)
      case None => Rejected
      case Some(sdu) => Delivered(sdu)
  }

  /** reassembly_start_ppdu. A START shorter than its header has a wrapped, huge fragment length and fails the
      first length check; a total shorter than the ALPDU header, or with no SDU byte, fails an assertion. */
  function StepStart(conf: Config, c0: RxCtx, p: Ppdu): Step
    requires |p| >= 2
  {
    var c := c0.(current := |p|, status := c0.status.(
      sdusIn := c0.status.sdusIn + 1, bytesIn := c0.status.bytesIn + |p|));
    if c0.busy || |p| < 4 then Step(DropSdu(c, 1), Rejected)
    else match ExtractFrag(conf, StartSuppressed(p), StartLabel(p) == LABEL_SIGNAL, p[4..])
      case None => Step(DropSdu(c, 1), Rejected)
      case Some(x) =>
        var total, trailerLen := StartTotal(p), if StartUsesCrc(p) then 4 else 1;
        if |x.sduFrag| > total then Step(DropSdu(c, 1), Rejected)
        else if total < x.hdrLen then Step(c0, Aborted)
        else if trailerLen > total - x.hdrLen then Step(DropSdu(c, 1), Rejected)
        else
          var c1 := c.(useCrc := StartUsesCrc(p));
          var expected := total - x.hdrLen - trailerLen;
          if |x.sduFrag| > expected then Step(DropSdu(c1, 1), Rejected)
          else if expected == 0 then Step(c0, Aborted)
          else Step(c1.(busy := true, expected := expected, got := x.sduFrag, ptype := x.ptype,
                        compPtype := x.compPtype), Accepted)
  }

  /** reassembly_cont_ppdu. */
  function StepCont(c0: RxCtx, p: Ppdu): Step
    requires |p| >= 2
  {
    var c, frag := CountIn(c0, |p|), p[2..];
    if !c0.busy || |c0.got| + |frag| > c0.expected then Step(DropSdu(c, 1), Rejected)
    else Step(c.(got := c0.got + frag), Accepted)
  }

  /** The end of reassembly_end_ppdu, all announced bytes being there: rebuild the SDU, then check the trailer. */
  function StepSettled(c: RxCtx, t: seq<byte>): Step
    requires |t| == if c.useCrc then 4 else 1
  {
    match Rebuild(c.ptype, c.compPtype, c.got)
    case None => Step(DropSdu(c, 0), Rejected)
    case Some(sdu) =>
      var check := CheckTrailer(c.useCrc, t, sdu, c.nextSeq, c.seqInit);
      var c2 := c.(nextSeq := check.nextSeq, seqInit := check.seqInit);
      if !check.ok then Step(DropSdu(c2, check.lost), Rejected)
      else Step(c2.(busy := false, status := c2.status.(
                  sdusOk := c2.status.sdusOk + 1, bytesOk := c2.status.bytesOk + |sdu.data|)), Delivered(sdu))
  }

  /** reassembly_end_ppdu. An END on a free context goes through both error exits. */
  function StepEnd(c0: RxCtx, p: Ppdu): Step
    requires |p| >= 2
  {
    var c, frag := CountIn(c0, |p|), p[2..];
    var trailerLen := if c0.useCrc then 4 else 1;
    if !c0.busy then Step(DropSdu(DropSdu(c, 1), 0), Rejected)
    else if |frag| < trailerLen then Step(DropSdu(c, 0), Rejected)
    else
      var n := |frag| - trailerLen;
      if |c0.got| + n > c0.expected then Step(DropSdu(c, 0), Rejected)
      else
        var c1 := c.(got := c0.got + frag[..n]);
        if c0.expected > |c1.got| then Step(DropSdu(c1, 0), Rejected)
        else StepSettled(c1, frag[n..])
  }

  /** One context fed one fragment of its own id. */
  function StepCtx(conf: Config, c: RxCtx, p: Ppdu): Step
    requires |p| >= 2
  {
    match TypeOf(p)
    case StartFrag => StepStart(conf, c, p)
    case ContFrag => StepCont(c, p)
    case EndFrag => StepEnd(c, p)
    case Complete => Step(c, StepComp(conf, p))
  }

  /** The state after rle_receiver_new. */
  function NewRxCtx(): RxCtx {
    RxCtx(false, 0, false, false, 0, 0, [], 0, 0, NO_STATUS)
  }

  datatype Receipt = Receipt(ctxs: seq<RxCtx>, outcome: Outcome, index: int)

  /** rle_receiver_deencap_data: `index` is the fragment id, or -1 for a COMP. */
  function Deencap(conf: Config, ctxs: seq<RxCtx>, p: Ppdu): (r: Receipt)
    requires |ctxs| == FRAG_NUMBER && |p| >= 2
    ensures |r.ctxs| == FRAG_NUMBER
  {
    if TypeOf(p) == Complete then Receipt(ctxs, StepComp(conf, p), -1)
    else
      var id := FragIdOf(p);
      var s := StepCtx(conf, ctxs[id], p);
      Receipt(ctxs[id := s.ctx], s.outcome, id)
  }

  // ---- one step ----

  /** Reassembly invariant: a busy context never holds more bytes than its START announced, whatever arrives. */
  lemma StepKeepsRxOk(conf: Config, c: RxCtx, p: Ppdu)
    requires RxOk(c) && |p| >= 2
    ensures RxOk(StepCtx(conf, c, p).ctx)
  {
    hide ExtractFrag, Rebuild, CheckTrailer, DropSdu;
    DropKeepsBuffer();
  }

  /** A busy context refuses a START and a free one refuses a CONT or an END; either is free afterwards and awaits the
      same number. */
  lemma BusyRefusesStart(conf: Config, c: RxCtx, p: Ppdu)
    requires |p| >= 2 && TypeOf(p) == StartFrag && c.busy
    ensures var r := StepCtx(conf, c, p);
      r.outcome == Rejected && !r.ctx.busy && r.ctx.seqInit == c.seqInit && r.ctx.nextSeq == c.nextSeq
  {
    hide TypeOf;
  }

  lemma FreeRefusesRest(conf: Config, c: RxCtx, p: Ppdu)
    requires |p| >= 2 && (TypeOf(p) == ContFrag || TypeOf(p) == EndFrag) && !c.busy
    ensures var r := StepCtx(conf, c, p);
      r.outcome == Rejected && !r.ctx.busy && r.ctx.seqInit == c.seqInit && r.ctx.nextSeq == c.nextSeq
  {
    hide TypeOf, StepSettled;
  }

  lemma DropKeepsBuffer()
    ensures forall c, n :: DropSdu(c, n).got == c.got && DropSdu(c, n).expected == c.expected && !DropSdu(c, n).busy
  {
  }

  /** What an END on a busy context is judged by: the bytes collected with it are exactly as many as announced, they
      can be rebuilt into an SDU, and the trailer behind them fits. */
  function Verdict(c: RxCtx, p: Ppdu): Option<Check>
    requires |p| >= 2
  {
    var trailerLen := if c.useCrc then 4 else 1;
    if |p| < 2 + trailerLen || |c.got| + |p| - 2 - trailerLen != c.expected then None
    else match Rebuild(c.ptype, c.compPtype, c.got + p[2..|p| - trailerLen])
      case None => None
      case Some(sdu) => Some(CheckTrailer(c.useCrc, p[|p| - trailerLen..], sdu, c.nextSeq, c.seqInit))
  }

  lemma VerdictCuts(c: RxCtx, p: Ppdu)
    requires |p| >= 2 + if c.useCrc then 4 else 1
    ensures var n := |p| - 2 - if c.useCrc then 4 else 1;
      p[2..][..n] == p[2..n + 2] && p[2..][n..] == p[n + 2..]
  {
  }

  /** A context delivers if and only if it is an END, the context was busy, the bytes collected since its START are
      exactly as many as announced and can be rebuilt, and the trailer fits; what it delivers is rebuilt from those
      bytes and no others. */
  lemma DeliveredExactly(conf: Config, c: RxCtx, p: Ppdu)
    requires |p| >= 2 && TypeOf(p) != Complete
    ensures var s := StepCtx(conf, c, p);
      && (s.outcome.Delivered? <==>
            TypeOf(p) == EndFrag && c.busy && Verdict(c, p).Some? && Verdict(c, p).value.ok)
      && (s.outcome.Delivered? ==>
            var trailerLen := if c.useCrc then 4 else 1;
            && !s.ctx.busy && |p| >= 2 + trailerLen
            && s.ctx.got == c.got + p[2..|p| - trailerLen] && |s.ctx.got| == c.expected
            && Rebuild(c.ptype, c.compPtype, s.ctx.got) == Some(s.outcome.sdu)
            && s.ctx.nextSeq == Verdict(c, p).value.nextSeq && s.ctx.seqInit == Verdict(c, p).value.seqInit)
  {
    hide ExtractFrag, Rebuild, CheckTrailer;
    if |p| >= 2 + if c.useCrc then 4 else 1 {
      VerdictCuts(c, p);
    }
  }

  /** The SDU bytes that a START leaves room for, once ALPDU header and trailer are taken off its total. */
  function Announced(p: Ppdu, x: Extract): int
    requires |p| >= 4
  {
    StartTotal(p) - x.hdrLen - if StartUsesCrc(p) then 4 else 1
  }

  /** A START is accepted if and only if the context is free, its header can be read, and its total leaves room for
      some SDU byte and for all those it carries; then the context holds those and awaits exactly that many. A refused
      one frees the context, and sets its protection only when header and trailer fit in the total. */
  lemma StartAcceptedExactly(conf: Config, c: RxCtx, p: Ppdu)
    requires |p| >= 2 && TypeOf(p) == StartFrag
    ensures var s := StepCtx(conf, c, p);
      && (s.outcome == Accepted <==>
            && !c.busy && |p| >= 4
            && var x := ExtractFrag(conf, StartSuppressed(p), StartLabel(p) == 3, p[4..]);
               x.Some? && Announced(p, x.value) > 0 && |x.value.sduFrag| <= Announced(p, x.value))
      && (s.outcome == Accepted ==>
            var x := ExtractFrag(conf, StartSuppressed(p), StartLabel(p) == 3, p[4..]).value;
            && s.ctx.busy && s.ctx.got == x.sduFrag && s.ctx.expected == Announced(p, x)
            && s.ctx.useCrc == StartUsesCrc(p) && s.ctx.ptype == x.ptype && s.ctx.compPtype == x.compPtype
            && s.ctx.nextSeq == c.nextSeq && s.ctx.seqInit == c.seqInit)
      && (s.outcome == Rejected ==>
            && s.ctx == c.(busy := false, useCrc := s.ctx.useCrc, current := |p|, status := s.ctx.status)
            && (s.ctx.useCrc != c.useCrc ==>
                  && !c.busy && |p| >= 4
                  && var x := ExtractFrag(conf, StartSuppressed(p), StartLabel(p) == 3, p[4..]);
                     x.Some? && Announced(p, x.value) >= 0))
  {
    hide ExtractFrag;
  }

  /** A CONT is accepted if and only if the context is busy and not more bytes than announced have come with it; then
      its bytes are added and nothing else of the reassembly changes. */
  lemma ContAcceptedExactly(conf: Config, c: RxCtx, p: Ppdu)
    requires |p| >= 2 && TypeOf(p) == ContFrag
    ensures var s := StepCtx(conf, c, p);
      && (s.outcome == Accepted <==> c.busy && |c.got| + |p| - 2 <= c.expected)
      && (s.outcome == Accepted ==>
            s.ctx == c.(got := c.got + p[2..], current := s.ctx.current, status := s.ctx.status))
  {
    hide TypeOf;
  }

  /** The STARTs that trip an assertion, exactly: on a free context, a readable header, and an announced total that
      leaves no room for the ALPDU header, or for any SDU byte beside header and trailer. */
  lemma AbortsExactly(conf: Config, c: RxCtx, p: Ppdu)
    requires |p| >= 2
    ensures StepCtx(conf, c, p).outcome == Aborted <==>
      && TypeOf(p) == StartFrag && !c.busy && |p| >= 4
      && var x := ExtractFrag(conf, StartSuppressed(p), StartLabel(p) == 3, p[4..]);
         && x.Some?
         && var overhead := x.value.hdrLen + if StartUsesCrc(p) then 4 else 1;
            && |x.value.sduFrag| <= StartTotal(p)
            && (StartTotal(p) < x.value.hdrLen || (StartTotal(p) == overhead && x.value.sduFrag == []))
  {
    hide ExtractFrag, Rebuild, CheckTrailer, DropSdu;
  }
}
