/** One fragment id over any run of the transmitter: encapsulations and fragmentations in any order, over a channel
    that loses nothing. The two state machines simulate each other step by step. */
module Link {
  import opened Bytes
  import opened Conf
  import opened AlpduCodec
  import opened PpduHeader
  import opened Trailer
  import opened Crc
  import opened Ctx
  import opened Transmit
  import opened Fragments
  import opened Receive
  import opened RoundTrip

  /** A call of the transmitter's user. */
  datatype Op = Encap(sdu: Sdu) | Frag(burst: nat)

  datatype TxRun = TxRun(ctx: TxCtx, ppdus: seq<Ppdu>, accepted: seq<Sdu>)

  /** A run of calls: the PPDUs put on the line and the SDUs that were taken. */
  function RunTx(conf: Config, id: FragId, c: TxCtx, ops: seq<Op>): TxRun
    requires JobOk(conf, c.job)
    decreases |ops|
  {
    if ops == [] then TxRun(c, [], [])
    else match ops[0]
      case Encap(sdu) =>
        var (c1, status) := Encapsulate(conf, c, sdu);
        var rest := RunTx(conf, id, c1, ops[1..]);
        TxRun(rest.ctx, rest.ppdus, (if status == EncapOk then [sdu] else []) + rest.accepted)
      case Frag(burst) =>
        FragmentKeepsJobOk(conf, id, c, burst);
        var f := Fragment(conf, id, c, burst);
        var rest := RunTx(conf, id, f.ctx, ops[1..]);
        TxRun(rest.ctx, (if f.status == FragOk then [f.ppdu] else []) + rest.ppdus, rest.accepted)
  }

  lemma FragmentKeepsJobOk(conf: Config, id: FragId, c: TxCtx, burst: nat)
    requires JobOk(conf, c.job)
    ensures JobOk(conf, Fragment(conf, id, c, burst).ctx.job)
  {
    if c.job != Idle {
      CutOneKeepsJobOk(conf, id, c.job, c.seqNb, burst);
    }
  }

  // ---- what was sent ----

  /** The SDU of a transmitter context: none, one that waits, or one whose START took number `s`. */
  datatype Flight = Grounded | Queued(sdu: Sdu) | Flying(sdu: Sdu, s: byte)

  /** How an SDU went out: in one COMP, in START CONT* END, or begun and abandoned before its END because an SDU of
      invalid size was offered meanwhile. */
  datatype Sending = Whole(sdu: Sdu) | Full(sdu: Sdu, s: byte) | Abandoned(sdu: Sdu, s: byte)

  predicate ValidSize(sdu: Sdu) {
    1 <= |sdu.data| <= MAX_PDU_SIZE
  }

  datatype Noted = Noted(flight: Flight, log: seq<Sending>)

  /** The transmitter's log of one call. */
  function NoteOne(conf: Config, id: FragId, c: TxCtx, f: Flight, op: Op): Noted
    requires JobOk(conf, c.job)
  {
    match op
    case Encap(sdu) =>
      if !ValidSize(sdu) then Noted(Grounded, if f.Flying? then [Abandoned(f.sdu, f.s)] else [])
      else if f == Grounded then Noted(Queued(sdu), [])
      else Noted(f, [])
    case Frag(burst) =>
      var r := Fragment(conf, id, c, burst);
      if r.status != FragOk || f == Grounded then Noted(f, [])
      else if r.ctx.job == Idle then Noted(Grounded, if f.Queued? then [Whole(f.sdu)] else [Full(f.sdu, f.s)])
      else if f.Queued? then Noted(Flying(f.sdu, c.seqNb), [])
      else Noted(f, [])
  }

  function AfterOp(conf: Config, id: FragId, c: TxCtx, op: Op): TxCtx
    requires JobOk(conf, c.job)
  {
    match op
    case Encap(sdu) => Encapsulate(conf, c, sdu).0
    case Frag(burst) => Fragment(conf, id, c, burst).ctx
  }

  lemma AfterOpKeepsJobOk(conf: Config, id: FragId, c: TxCtx, op: Op)
    requires JobOk(conf, c.job)
    ensures JobOk(conf, AfterOp(conf, id, c, op).job)
  {
    hide Encode, CrcBytes, SduCrc, CutOne;
    if op.Frag? {
      FragmentKeepsJobOk(conf, id, c, op.burst);
    }
  }

  /** The log of a run of calls. */
  function Note(conf: Config, id: FragId, c: TxCtx, f: Flight, ops: seq<Op>): Noted
    requires JobOk(conf, c.job)
    decreases |ops|
  {
    if ops == [] then Noted(f, [])
    else
      AfterOpKeepsJobOk(conf, id, c, ops[0]);
      var one := NoteOne(conf, id, c, f, ops[0]);
      var rest := Note(conf, id, AfterOp(conf, id, c, ops[0]), one.flight, ops[1..]);
      Noted(rest.flight, one.log + rest.log)
  }

  // ---- what becomes of it ----

  /** All that matters of a receiver context between two ALPDUs: whether it is still busy with an abandoned one, and
      the number it awaits, if any. */
  datatype Belief = Belief(stuck: bool, awaits: Option<byte>)

  datatype Fate = Fate(sdus: seq<Sdu>, refused: bool, after: Belief)

  /** The fate of one sending: what is delivered, whether any of its PPDUs is refused, and what it leaves behind. */
  function FateOf(conf: Config, b: Belief, x: Sending): Fate {
    match x
    case Whole(sdu) => Fate(if Misread(conf, sdu) then [] else [sdu], Misread(conf, sdu), b)
    case Full(sdu, s) =>
      if b.stuck then Fate([], true, b.(stuck := false))
      else if Misread(conf, sdu) then Fate([], true, b)
      else
        var ok := conf.UseCrc() || b.awaits.None? || s == b.awaits.value || s == 0;
        Fate(if ok then [sdu] else [], !ok, if conf.UseCrc() then b else b.(awaits := Some(NextSeq(s))))
    case Abandoned(_, _) => Fate([], b.stuck, b.(stuck := !b.stuck))
  }

  function Fates(conf: Config, b: Belief, log: seq<Sending>): Fate
    decreases |log|
  {
    if log == [] then Fate([], false, b)
    else
      var one := FateOf(conf, b, log[0]);
      var rest := Fates(conf, one.after, log[1..]);
      Fate(one.sdus + rest.sdus, one.refused || rest.refused, rest.after)
  }

  lemma {:induction false} FatesConcat(conf: Config, b: Belief, x: seq<Sending>, y: seq<Sending>)
    ensures var one, two := Fates(conf, b, x), Fates(conf, Fates(conf, b, x).after, y);
      Fates(conf, b, x + y) == Fate(one.sdus + two.sdus, one.refused || two.refused, two.after)
    decreases |x|
  {
    hide FateOf;
    if x == [] {
      assert x + y == y;
    } else {
      assert (x + y)[1..] == x[1..] + y && (x + y)[0] == x[0];
      var first := FateOf(conf, b, x[0]);
      FatesConcat(conf, first.after, x[1..], y);
      var one := Fates(conf, first.after, x[1..]);
      var two := Fates(conf, one.after, y);
      assert first.sdus + (one.sdus + two.sdus) == (first.sdus + one.sdus) + two.sdus;
    }
  }

  lemma FatesOne(conf: Config, b: Belief, x: Sending)
    ensures Fates(conf, b, [x]) == FateOf(conf, b, x)
  {
    hide FateOf;
    assert FateOf(conf, b, x).sdus + [] == FateOf(conf, b, x).sdus && [x][1..] == [];
  }

  // ---- the simulation ----

  ghost predicate Expects(conf: Config, b: Belief, rx: RxCtx) {
    conf.UseCrc() || ((rx.seqInit <==> b.awaits.Some?) && (rx.seqInit ==> rx.nextSeq == b.awaits.value))
  }

  /** The context collects an ALPDU whose START it took. */
  ghost predicate Collects(rx: RxCtx) {
    exists before: RxCtx :: Since(before, rx)
  }

  /** Its START was refused by a context stuck in an abandoned ALPDU. */
  predicate Lost(f: Flight, b: Belief) {
    f.Flying? && b.stuck
  }

  /** The simulation relation. */
  ghost predicate Coupled(conf: Config, tx: TxCtx, f: Flight, rx: RxCtx, b: Belief) {
    && Expects(conf, b, rx)
    && (f != Grounded ==> ValidSize(f.sdu))
    && match f
       case Grounded => tx.job == Idle && rx.busy == b.stuck
       case Queued(sdu) => tx.job == NewJob(conf, sdu) && rx.busy == b.stuck
       case Flying(sdu, s) =>
         && tx.job.Rest?
         && (b.stuck ==> !rx.busy)
         && (!b.stuck ==>
               && Collects(rx) && |rx.got| <= |Encode(conf, sdu).body|
               && Opened(conf, sdu, rx, Encode(conf, sdu).body[..|rx.got|])
               && tx.job.unsent == Encode(conf, sdu).body[|rx.got|..] + Protection(conf, sdu, s))
  }

  function Given(o: Outcome): seq<Sdu> {
    if o.Delivered? then [o.sdu] else []
  }

  /** One PPDU of the transmitter and the receiver's step on it. */
  ghost predicate Progress(conf: Config, f: Flight, b: Belief, after: TxCtx, r: Step, noted: Noted) {
    var fate := Fates(conf, b, noted.log);
    && Coupled(conf, after, noted.flight, r.ctx, fate.after)
    && r.outcome != Aborted && Given(r.outcome) == fate.sdus
    && (r.outcome == Rejected || Lost(f, b) <==> fate.refused || Lost(noted.flight, fate.after))
  }

  lemma SendWhole(conf: Config, id: FragId, tx: TxCtx, f: Flight, rx: RxCtx, b: Belief, burst: nat)
    requires f.Queued? && JobOk(conf, tx.job) && Coupled(conf, tx, f, rx, b)
    requires Fragment(conf, id, tx, burst).status == FragOk && Fragment(conf, id, tx, burst).ctx.job == Idle
    ensures var sent := Fragment(conf, id, tx, burst);
      |sent.ppdu| >= 2 && Progress(conf, f, b, sent.ctx, StepCtx(conf, rx, sent.ppdu), Noted(Grounded, [Whole(f.sdu)]))
  {
    hide Encode, SduCrc, CrcBytes, CompHeader, StartHeader, Misread, TypeOf, StepComp, Opened;
    var p := Fragment(conf, id, tx, burst).ppdu;
    assert SentWhole(conf, f.sdu, [p]);
    ReceiveWhole(conf, f.sdu, [p], rx);
    FatesOne(conf, b, Whole(f.sdu));
  }

  lemma SendStart(conf: Config, id: FragId, tx: TxCtx, f: Flight, rx: RxCtx, b: Belief, burst: nat)
    requires f.Queued? && JobOk(conf, tx.job) && Coupled(conf, tx, f, rx, b)
    requires Fragment(conf, id, tx, burst).status == FragOk && Fragment(conf, id, tx, burst).ctx.job != Idle
    ensures var sent := Fragment(conf, id, tx, burst);
      && |sent.ppdu| >= 2
      && Progress(conf, f, b, sent.ctx, StepCtx(conf, rx, sent.ppdu), Noted(Flying(f.sdu, tx.seqNb), []))
  {
    hide Encode, SduCrc, CrcBytes, StartHeader, CompHeader, Misread, TypeOf, Rebuild, StepCtx;
    var sent := Fragment(conf, id, tx, burst);
    assert IsStart(conf, id, f.sdu, tx.seqNb, sent.ppdu);
    if b.stuck {
      HeaderOfStart(conf, id, f.sdu, tx.seqNb, sent.ppdu);
      BusyRefusesStart(conf, rx, sent.ppdu);
    } else {
      StartOpens(conf, id, f.sdu, tx.seqNb, sent.ppdu, rx);
      assert Since(rx, StepCtx(conf, rx, sent.ppdu).ctx);
    }
  }

  /** A fragmented job and its PPDU, seen from the bytes. */
  lemma NextOfRest(conf: Config, id: FragId, tx: TxCtx, burst: nat)
    requires tx.job.Rest? && JobOk(conf, tx.job) && Fragment(conf, id, tx, burst).status == FragOk
    ensures var sent := Fragment(conf, id, tx, burst);
      && |sent.ppdu| >= 2 && sent.ctx.seqNb == tx.seqNb
      && (if sent.ctx.job == Idle then TypeOf(sent.ppdu) == EndFrag && sent.ppdu[2..] == tx.job.unsent
          else
            && sent.ctx.job.Rest? && TypeOf(sent.ppdu) == ContFrag
            && sent.ppdu[2..] + sent.ctx.job.unsent == tx.job.unsent && |sent.ctx.job.unsent| >= conf.TrailerLen())
  {
    PpduBounds(conf, id, tx.job, tx.seqNb, burst);
    CutOneKeepsJobOk(conf, id, tx.job, tx.seqNb, burst);
    hide TypeOf, ContEndHeader;
  }

  lemma SendRest(conf: Config, id: FragId, tx: TxCtx, f: Flight, rx: RxCtx, b: Belief, burst: nat)
    requires f.Flying? && JobOk(conf, tx.job) && Coupled(conf, tx, f, rx, b)
    requires Fragment(conf, id, tx, burst).status == FragOk
    ensures var sent := Fragment(conf, id, tx, burst);
      && |sent.ppdu| >= 2
      && Progress(conf, f, b, sent.ctx, StepCtx(conf, rx, sent.ppdu),
                  if sent.ctx.job == Idle then Noted(Grounded, [Full(f.sdu, f.s)]) else Noted(f, []))
  {
    hide Encode, SduCrc, CrcBytes, Misread, TypeOf, Rebuild, StepCtx, Fragment, JobOk;
    NextOfRest(conf, id, tx, burst);
    FatesOne(conf, b, Full(f.sdu, f.s));
    var sent := Fragment(conf, id, tx, burst);
    if b.stuck {
      FreeRefusesRest(conf, rx, sent.ppdu);
    } else {
      var before: RxCtx :| Since(before, rx);
      if sent.ctx.job == Idle {
        EndDecides(conf, f.sdu, f.s, sent.ppdu, |rx.got|, before, rx);
      } else {
        ContAccepted(conf, f.sdu, f.s, sent.ppdu, sent.ctx.job.unsent, |rx.got|, before, rx);
      }
    }
  }

  /** One call of rle_fragment: either no PPDU and no change, or one PPDU on which the receiver does what the fate of
      its SDU says. */
  lemma FragmentSimulated(conf: Config, id: FragId, tx: TxCtx, f: Flight, rx: RxCtx, b: Belief, burst: nat)
    requires JobOk(conf, tx.job) && Coupled(conf, tx, f, rx, b)
    ensures var sent, noted := Fragment(conf, id, tx, burst), NoteOne(conf, id, tx, f, Frag(burst));
      if sent.status == FragOk then
        |sent.ppdu| >= 2 && Progress(conf, f, b, sent.ctx, StepCtx(conf, rx, sent.ppdu), noted)
      else sent.ctx == tx && noted == Noted(f, [])
  {
    NothingMoves(conf, id, tx, f, rx, b, burst);
    hide Progress, Coupled, Fragment, StepCtx, JobOk;
    if Fragment(conf, id, tx, burst).status == FragOk {
      if f.Flying? {
        SendRest(conf, id, tx, f, rx, b, burst);
      } else if Fragment(conf, id, tx, burst).ctx.job == Idle {
        SendWhole(conf, id, tx, f, rx, b, burst);
      } else {
        SendStart(conf, id, tx, f, rx, b, burst);
      }
    }
  }

  lemma NothingMoves(conf: Config, id: FragId, tx: TxCtx, f: Flight, rx: RxCtx, b: Belief, burst: nat)
    requires JobOk(conf, tx.job) && Coupled(conf, tx, f, rx, b)
    ensures var sent := Fragment(conf, id, tx, burst);
      && (sent.status != FragOk ==> sent.ctx == tx)
      && (sent.status == FragOk ==> f != Grounded)
  {
    hide CutOne, Encode, Opened;
  }

  lemma EncapsulateSimulated(conf: Config, tx: TxCtx, f: Flight, rx: RxCtx, b: Belief, id: FragId, sdu: Sdu)
    requires JobOk(conf, tx.job) && Coupled(conf, tx, f, rx, b)
    ensures var noted := NoteOne(conf, id, tx, f, Encap(sdu));
      var fate := Fates(conf, b, noted.log);
      && Coupled(conf, Encapsulate(conf, tx, sdu).0, noted.flight, rx, fate.after)
      && fate.sdus == [] && (Lost(f, b) <==> fate.refused || Lost(noted.flight, fate.after))
  {
    hide Encode, SduCrc, CrcBytes, Misread, Protection, Rebuild;
    if f.Flying? {
      FatesOne(conf, b, Abandoned(f.sdu, f.s));
    }
  }

  lemma RunTxCons(conf: Config, id: FragId, c: TxCtx, op: Op, ops: seq<Op>)
    requires JobOk(conf, c.job)
    ensures op.Encap? ==>
      var (c1, status) := Encapsulate(conf, c, op.sdu);
      JobOk(conf, c1.job) && RunTx(conf, id, c, [op] + ops) ==
        var rest := RunTx(conf, id, c1, ops);
        TxRun(rest.ctx, rest.ppdus, (if status == EncapOk then [op.sdu] else []) + rest.accepted)
    ensures op.Frag? ==>
      var f := Fragment(conf, id, c, op.burst);
      JobOk(conf, f.ctx.job) && RunTx(conf, id, c, [op] + ops) ==
        var rest := RunTx(conf, id, f.ctx, ops);
        TxRun(rest.ctx, (if f.status == FragOk then [f.ppdu] else []) + rest.ppdus, rest.accepted)
  {
    if op.Frag? {
      FragmentKeepsJobOk(conf, id, c, op.burst);
    }
    hide Fragment, NewJob;
    assert ([op] + ops)[1..] == ops;
  }

  /** What the log of a run explains: no assertion fails, exactly the SDUs of its fates come out, and some PPDU is
      refused exactly when the fates say so. */
  ghost predicate Explained(conf: Config, f: Flight, rx: RxCtx, b: Belief, run: TxRun, noted: Noted) {
    && AllPpdus(run.ppdus) && JobOk(conf, run.ctx.job)
    && var r, fate := Run(conf, rx, run.ppdus), Fates(conf, b, noted.log);
       && Coupled(conf, run.ctx, noted.flight, r.ctx, fate.after)
       && Deliveries(r.outcomes) == fate.sdus && Aborted !in r.outcomes
       && (Rejected in r.outcomes || Lost(f, b) <==> fate.refused || Lost(noted.flight, fate.after))
  }

  lemma ExplainedEncap(conf: Config, f: Flight, rx: RxCtx, b: Belief, one: Noted, rest: TxRun, later: Noted,
                       taken: seq<Sdu>)
    requires var fate := Fates(conf, b, one.log);
      && fate.sdus == [] && (Lost(f, b) <==> fate.refused || Lost(one.flight, fate.after))
      && Explained(conf, one.flight, rx, fate.after, rest, later)
    ensures Explained(conf, f, rx, b, TxRun(rest.ctx, rest.ppdus, taken), Noted(later.flight, one.log + later.log))
  {
    hide Run, Coupled, JobOk, Deliveries, Fates, Lost;
    FatesConcat(conf, b, one.log, later.log);
    var two := Fates(conf, Fates(conf, b, one.log).after, later.log);
    assert [] + two.sdus == two.sdus;
  }

  lemma ExplainedPpdu(conf: Config, f: Flight, rx: RxCtx, b: Belief, one: Noted, after: TxCtx, p: Ppdu, rest: TxRun,
                      later: Noted)
    requires |p| >= 2 && Progress(conf, f, b, after, StepCtx(conf, rx, p), one)
    requires Explained(conf, one.flight, StepCtx(conf, rx, p).ctx, Fates(conf, b, one.log).after, rest, later)
    ensures Explained(conf, f, rx, b, TxRun(rest.ctx, [p] + rest.ppdus, rest.accepted),
                      Noted(later.flight, one.log + later.log))
  {
    hide Run, Coupled, JobOk, StepCtx, Deliveries, Fates, Lost;
    var s := StepCtx(conf, rx, p);
    FatesConcat(conf, b, one.log, later.log);
    Prepend(conf, rx, p, rest.ppdus);
    var os := Run(conf, s.ctx, rest.ppdus).outcomes;
    assert Deliveries([s.outcome] + os) == Given(s.outcome) + Deliveries(os);
    assert forall o :: o in [s.outcome] + os <==> o == s.outcome || o in os;
  }

  /** Link theorem, for every run of calls whatever: SDUs of any size, shaped in any way, offered at any time, and
      any burst sizes. What the receiver delivers, and whether it refuses a PPDU, is exactly what the fates of the
      sent SDUs say, and no assertion fails. */
  lemma {:induction false} LinkDelivers(conf: Config, id: FragId, tx: TxCtx, f: Flight, rx: RxCtx, b: Belief,
                                        ops: seq<Op>)
    requires JobOk(conf, tx.job) && Coupled(conf, tx, f, rx, b)
    ensures Explained(conf, f, rx, b, RunTx(conf, id, tx, ops), Note(conf, id, tx, f, ops))
    decreases |ops|
  {
    hide StepCtx, Encapsulate, Fragment, JobOk, Progress, Coupled, NoteOne, Lost, Fates, Run, RunTx, Explained,
      Deliveries;
    if ops == [] {
      NothingSent(conf, id, tx, f, rx, b);
    } else {
      assert ops == [ops[0]] + ops[1..];
      RunTxCons(conf, id, tx, ops[0], ops[1..]);
      var one := NoteOne(conf, id, tx, f, ops[0]);
      var b1 := Fates(conf, b, one.log).after;
      match ops[0]
      case Encap(sdu) =>
        EncapsulateSimulated(conf, tx, f, rx, b, id, sdu);
        var (tx1, status) := Encapsulate(conf, tx, sdu);
        LinkDelivers(conf, id, tx1, one.flight, rx, b1, ops[1..]);
        ExplainedEncap(conf, f, rx, b, one, RunTx(conf, id, tx1, ops[1..]), Note(conf, id, tx1, one.flight, ops[1..]),
                       RunTx(conf, id, tx, ops).accepted);
      case Frag(burst) =>
        FragmentSimulated(conf, id, tx, f, rx, b, burst);
        var sent := Fragment(conf, id, tx, burst);
        var rest, later := RunTx(conf, id, sent.ctx, ops[1..]), Note(conf, id, sent.ctx, one.flight, ops[1..]);
        if sent.status == FragOk {
          var r := StepCtx(conf, rx, sent.ppdu);
          ProgressCouples(conf, f, b, sent.ctx, r, one);
          LinkDelivers(conf, id, sent.ctx, one.flight, r.ctx, b1, ops[1..]);
          ExplainedPpdu(conf, f, rx, b, one, sent.ctx, sent.ppdu, rest, later);
        } else {
          NothingFated(conf, b);
          LinkDelivers(conf, id, tx, f, rx, b, ops[1..]);
          assert [] + rest.ppdus == rest.ppdus && [] + later.log == later.log;
        }
    }
  }

  lemma NothingSent(conf: Config, id: FragId, tx: TxCtx, f: Flight, rx: RxCtx, b: Belief)
    requires JobOk(conf, tx.job) && Coupled(conf, tx, f, rx, b)
    ensures Explained(conf, f, rx, b, RunTx(conf, id, tx, []), Note(conf, id, tx, f, []))
  {
    hide Coupled, JobOk;
  }

  lemma NothingFated(conf: Config, b: Belief)
    ensures Fates(conf, b, []) == Fate([], false, b)
  {
  }

  lemma ProgressCouples(conf: Config, f: Flight, b: Belief, after: TxCtx, r: Step, noted: Noted)
    requires Progress(conf, f, b, after, r, noted)
    ensures Coupled(conf, after, noted.flight, r.ctx, Fates(conf, b, noted.log).after)
  {
  }

  lemma Prepend(conf: Config, c: RxCtx, p: Ppdu, rest: seq<Ppdu>)
    requires |p| >= 2 && AllPpdus(rest)
    ensures AllPpdus([p] + rest)
    ensures var s := StepCtx(conf, c, p);
      var r := Run(conf, s.ctx, rest);
      && Run(conf, c, [p] + rest) == RunResult(r.ctx, [s.outcome] + r.outcomes)
      && Deliveries([s.outcome] + r.outcomes) == (if s.outcome.Delivered? then [s.outcome.sdu] else []) + Deliveries(r.outcomes)
  {
    hide StepCtx;
    assert ([p] + rest)[1..] == rest;
    var os := [StepCtx(conf, c, p).outcome] + Run(conf, StepCtx(conf, c, p).ctx, rest).outcomes;
    assert os[1..] == Run(conf, StepCtx(conf, c, p).ctx, rest).outcomes;
  }

  const NEW_TX := TxCtx(Idle, 0, NO_STATUS)
  const NEW_BELIEF := Belief(false, None)

  /** From two new ends. */
  lemma NewLinkDelivers(conf: Config, id: FragId, ops: seq<Op>)
    ensures var run, noted := RunTx(conf, id, NEW_TX, ops), Note(conf, id, NEW_TX, Grounded, ops);
      && AllPpdus(run.ppdus)
      && var r, fate := Run(conf, NewRxCtx(), run.ppdus), Fates(conf, NEW_BELIEF, noted.log);
         && Deliveries(r.outcomes) == fate.sdus && Aborted !in r.outcomes
         && (Rejected in r.outcomes <==> fate.refused || Lost(noted.flight, fate.after))
  {
    hide RunTx, Run, Note, Fates, Deliveries;
    LinkDelivers(conf, id, NEW_TX, Grounded, NewRxCtx(), NEW_BELIEF, ops);
  }

  // ---- when nothing is lost ----

  function SdusOf(log: seq<Sending>): seq<Sdu> {
    if log == [] then [] else [log[0].sdu] + SdusOf(log[1..])
  }

  predicate Good(conf: Config, x: Sending) {
    !x.Abandoned? && !Misread(conf, x.sdu)
  }

  /** An SDU that is misread or abandoned never comes out. */
  lemma {:induction false} FewerComeOut(conf: Config, b: Belief, log: seq<Sending>)
    ensures |Fates(conf, b, log).sdus| <= |SdusOf(log)| == |log|
    ensures !(forall x | x in log :: Good(conf, x)) ==> |Fates(conf, b, log).sdus| < |log|
    decreases |log|
  {
    hide Misread;
    if log != [] {
      FewerComeOut(conf, FateOf(conf, b, log[0]).after, log[1..]);
      assert forall x | x in log :: x == log[0] || x in log[1..];
    }
  }

  /** The two ends agree on the numbers, and the receiver is not stuck. */
  ghost predicate InStep(conf: Config, tx: TxCtx, f: Flight, b: Belief) {
    && !b.stuck
    && (conf.UseCrc() ||
        match f
        case Flying(_, s) => tx.seqNb == NextSeq(s) && (b.awaits.Some? ==> b.awaits.value == s)
        case _ => b.awaits.Some? ==> b.awaits.value == tx.seqNb)
    && match f
       case Grounded => tx.job == Idle
       case Queued(_) => tx.job.Fresh?
       case Flying(_, _) => tx.job.Rest?
  }

  lemma StayInStep(conf: Config, id: FragId, tx: TxCtx, f: Flight, b: Belief, op: Op)
    requires JobOk(conf, tx.job) && InStep(conf, tx, f, b)
    requires forall x | x in NoteOne(conf, id, tx, f, op).log :: Good(conf, x)
    ensures var one := NoteOne(conf, id, tx, f, op);
      var fate := Fates(conf, b, one.log);
      fate.sdus == SdusOf(one.log) && !fate.refused && InStep(conf, AfterOp(conf, id, tx, op), one.flight, fate.after)
  {
    hide Encode, SduCrc, CrcBytes, Misread, CompHeader, StartHeader, ContEndHeader;
    var one := NoteOne(conf, id, tx, f, op);
    if one.log != [] {
      assert one.log == [one.log[0]] && one.log[0] in one.log;
      FatesOne(conf, b, one.log[0]);
      assert one.log[1..] == [];
    }
  }

  lemma {:induction false} SdusOfConcat(x: seq<Sending>, y: seq<Sending>)
    ensures SdusOf(x + y) == SdusOf(x) + SdusOf(y)
  {
    if x == [] {
      assert x + y == y;
    } else {
      assert (x + y)[1..] == x[1..] + y && (x + y)[0] == x[0];
      SdusOfConcat(x[1..], y);
    }
  }

  /** In step and with only good sendings, everything sent comes out, in order, and nothing is refused. */
  lemma {:induction false} GoodRun(conf: Config, id: FragId, tx: TxCtx, f: Flight, b: Belief, ops: seq<Op>)
    requires JobOk(conf, tx.job) && InStep(conf, tx, f, b)
    requires forall x | x in Note(conf, id, tx, f, ops).log :: Good(conf, x)
    ensures var noted := Note(conf, id, tx, f, ops);
      var fate := Fates(conf, b, noted.log);
      fate.sdus == SdusOf(noted.log) && !fate.refused && !fate.after.stuck
    decreases |ops|
  {
    hide NoteOne, AfterOp, JobOk, Good, Fates, SdusOf;
    if ops == [] {
      NothingFated(conf, b);
      NoSdus();
    } else {
      AfterOpKeepsJobOk(conf, id, tx, ops[0]);
      var one := NoteOne(conf, id, tx, f, ops[0]);
      var tx1 := AfterOp(conf, id, tx, ops[0]);
      var rest := Note(conf, id, tx1, one.flight, ops[1..]);
      assert forall x | x in one.log || x in rest.log :: x in one.log + rest.log;
      StayInStep(conf, id, tx, f, b, ops[0]);
      GoodRun(conf, id, tx1, one.flight, Fates(conf, b, one.log).after, ops[1..]);
      FatesConcat(conf, b, one.log, rest.log);
      SdusOfConcat(one.log, rest.log);
    }
  }

  lemma NoSdus()
    ensures SdusOf([]) == []
  {
  }

  /** From two new ends, exactly: every SDU that was sent comes out, in order, if and only if none of them was misread
      and none was abandoned; and then no PPDU is refused. */
  lemma SentIsDelivered(conf: Config, id: FragId, ops: seq<Op>)
    ensures var run, noted := RunTx(conf, id, NEW_TX, ops), Note(conf, id, NEW_TX, Grounded, ops);
      && AllPpdus(run.ppdus)
      && var os := Run(conf, NewRxCtx(), run.ppdus).outcomes;
         && (Deliveries(os) == SdusOf(noted.log) <==> forall x | x in noted.log :: Good(conf, x))
         && (Deliveries(os) == SdusOf(noted.log) ==> Rejected !in os)
  {
    hide RunTx, Run, Note, Fates, Deliveries, SdusOf, Good;
    NewLinkDelivers(conf, id, ops);
    var log := Note(conf, id, NEW_TX, Grounded, ops).log;
    FewerComeOut(conf, NEW_BELIEF, log);
    if forall x | x in log :: Good(conf, x) {
      GoodRun(conf, id, NEW_TX, Grounded, NEW_BELIEF, ops);
    }
  }

  function InFlight(f: Flight): seq<Sdu> {
    if f == Grounded then [] else [f.sdu]
  }

  predicate Sendable(conf: Config, sdu: Sdu) {
    ValidSize(sdu) && !Misread(conf, sdu)
  }

  predicate AllSendable(conf: Config, ops: seq<Op>) {
    forall op | op in ops :: op.Encap? ==> Sendable(conf, op.sdu)
  }

  /** When only SDUs of valid size and outside the misread family are offered, what was sent and what is in flight is
      what was taken. */
  lemma {:induction false} TakenIsSent(conf: Config, id: FragId, tx: TxCtx, f: Flight, b: Belief, ops: seq<Op>)
    requires JobOk(conf, tx.job) && InStep(conf, tx, f, b) && AllSendable(conf, ops)
    requires f != Grounded ==> Sendable(conf, f.sdu)
    ensures var run, noted := RunTx(conf, id, tx, ops), Note(conf, id, tx, f, ops);
      && (forall x | x in noted.log :: Good(conf, x))
      && SdusOf(noted.log) + InFlight(noted.flight) == InFlight(f) + run.accepted
      && (noted.flight == Grounded <==> run.ctx.job == Idle)
    decreases |ops|
  {
    hide NoteOne, AfterOp, JobOk, Good, Fates, SdusOf, Fragment, Encapsulate, RunTx, Sendable, InStep, InFlight, TakenBy,
      AllSendable;
    if ops == [] {
      NoSdus();
      NothingRun(conf, id, tx);
      InStepIdle(conf, tx, f, b);
      assert [] + InFlight(f) == InFlight(f) + [];
    } else {
      FirstSendable(conf, ops);
      AfterOpKeepsJobOk(conf, id, tx, ops[0]);
      var one, tx1 := NoteOne(conf, id, tx, f, ops[0]), AfterOp(conf, id, tx, ops[0]);
      TakenOne(conf, id, tx, f, b, ops[0]);
      StayInStep(conf, id, tx, f, b, ops[0]);
      TakenIsSent(conf, id, tx1, one.flight, Fates(conf, b, one.log).after, ops[1..]);
      var rest, later := Note(conf, id, tx1, one.flight, ops[1..]), RunTx(conf, id, tx1, ops[1..]);
      SdusOfConcat(one.log, rest.log);
      RunTxFirst(conf, id, tx, ops);
      Regroup(SdusOf(one.log), SdusOf(rest.log), InFlight(f), InFlight(one.flight), InFlight(rest.flight),
              TakenBy(conf, tx, ops[0]), later.accepted);
      assert forall x | x in one.log + rest.log :: x in one.log || x in rest.log;
    }
  }

  lemma Regroup(x: seq<Sdu>, y: seq<Sdu>, f0: seq<Sdu>, f1: seq<Sdu>, f2: seq<Sdu>, taken: seq<Sdu>, later: seq<Sdu>)
    requires x + f1 == f0 + taken && y + f2 == f1 + later
    ensures (x + y) + f2 == f0 + (taken + later)
  {
    assert (x + y) + f2 == x + (f1 + later);
    assert x + (f1 + later) == (f0 + taken) + later;
  }

  lemma InStepIdle(conf: Config, tx: TxCtx, f: Flight, b: Belief)
    requires InStep(conf, tx, f, b)
    ensures f == Grounded <==> tx.job == Idle
  {
  }

  lemma FirstSendable(conf: Config, ops: seq<Op>)
    requires AllSendable(conf, ops) && ops != []
    ensures AllSendable(conf, ops[1..]) && (ops[0].Encap? ==> Sendable(conf, ops[0].sdu))
  {
    assert ops[0] in ops && forall op | op in ops[1..] :: op in ops;
  }

  lemma RunTxFirst(conf: Config, id: FragId, tx: TxCtx, ops: seq<Op>)
    requires JobOk(conf, tx.job) && ops != []
    ensures JobOk(conf, AfterOp(conf, id, tx, ops[0]).job)
    ensures var run, rest := RunTx(conf, id, tx, ops), RunTx(conf, id, AfterOp(conf, id, tx, ops[0]), ops[1..]);
      run.ctx == rest.ctx && run.accepted == TakenBy(conf, tx, ops[0]) + rest.accepted
  {
    AfterOpKeepsJobOk(conf, id, tx, ops[0]);
    hide Fragment, Encapsulate, JobOk;
    assert ops == [ops[0]] + ops[1..];
    RunTxCons(conf, id, tx, ops[0], ops[1..]);
  }

  lemma NothingRun(conf: Config, id: FragId, tx: TxCtx)
    requires JobOk(conf, tx.job)
    ensures RunTx(conf, id, tx, []) == TxRun(tx, [], [])
  {
  }

  function TakenBy(conf: Config, tx: TxCtx, op: Op): seq<Sdu> {
    if op.Encap? && Encapsulate(conf, tx, op.sdu).1 == EncapOk then [op.sdu] else []
  }

  lemma TakenOne(conf: Config, id: FragId, tx: TxCtx, f: Flight, b: Belief, op: Op)
    requires JobOk(conf, tx.job) && InStep(conf, tx, f, b)
    requires op.Encap? ==> Sendable(conf, op.sdu)
    requires f != Grounded ==> Sendable(conf, f.sdu)
    ensures var one := NoteOne(conf, id, tx, f, op);
      && (forall x | x in one.log :: Good(conf, x))
      && SdusOf(one.log) + InFlight(one.flight) == InFlight(f) + TakenBy(conf, tx, op)
      && (one.flight != Grounded ==> Sendable(conf, one.flight.sdu))
  {
    hide Encode, SduCrc, CrcBytes, Misread, CutOne;
    var one := NoteOne(conf, id, tx, f, op);
    if one.log != [] {
      assert one.log == [one.log[0]] && one.log[1..] == [];
      assert SdusOf(one.log) == [one.log[0].sdu] + SdusOf(one.log[1..]);
    }
  }

  /** The plain case: only sendable SDUs. None is lost, none comes twice, none is altered, in order. */
  lemma TakenIsDelivered(conf: Config, id: FragId, ops: seq<Op>)
    requires AllSendable(conf, ops)
    ensures var run, noted := RunTx(conf, id, NEW_TX, ops), Note(conf, id, NEW_TX, Grounded, ops);
      && AllPpdus(run.ppdus)
      && var os := Run(conf, NewRxCtx(), run.ppdus).outcomes;
         && Deliveries(os) + InFlight(noted.flight) == run.accepted
         && Rejected !in os && Aborted !in os
         && (run.ctx.job == Idle ==> Deliveries(os) == run.accepted)
  {
    hide RunTx, Run, Note, Fates, Deliveries, SdusOf, Good;
    NewLinkDelivers(conf, id, ops);
    SentIsDelivered(conf, id, ops);
    TakenIsSent(conf, id, NEW_TX, Grounded, NEW_BELIEF, ops);
    var run, noted := RunTx(conf, id, NEW_TX, ops), Note(conf, id, NEW_TX, Grounded, ops);
    assert [] + run.accepted == run.accepted;
    assert SdusOf(noted.log) + [] == SdusOf(noted.log);
  }

  // ---- what one bad SDU costs the next ones ----

  /** A misread SDU in fragments takes the next SDU with it: its number was used up, but the receiver never saw it. */
  lemma MisreadCostsTheNext(conf: Config, m: Sdu, g: Sdu, h: Sdu, s: byte)
    requires !conf.UseCrc() && Misread(conf, m) && !Misread(conf, g) && !Misread(conf, h)
    ensures var log := [Full(m, s), Full(g, NextSeq(s)), Full(h, NextSeq(NextSeq(s)))];
      Fates(conf, Belief(false, Some(s)), log).sdus == if NextSeq(s) == 0 then [g, h] else [h]
  {
    hide Misread;
    var log := [Full(m, s), Full(g, NextSeq(s)), Full(h, NextSeq(NextSeq(s)))];
    assert log[1..] == [log[1], log[2]] && log[1..][1..] == [log[2]] && log[1..][1..][1..] == [];
    FatesOne(conf, FateOf(conf, FateOf(conf, Belief(false, Some(s)), log[0]).after, log[1]).after, log[2]);
  }

  /** An abandoned SDU takes the next two with it: the first one's START is refused by the busy context, and the second
      one's number is not the awaited one. */
  lemma AbandonedCostsTwo(conf: Config, a: Sdu, g: Sdu, h: Sdu, i: Sdu, s: byte)
    requires !conf.UseCrc() && !Misread(conf, g) && !Misread(conf, h) && !Misread(conf, i)
    ensures var t := NextSeq(s);
      var log := [Abandoned(a, s), Full(g, t), Full(h, NextSeq(t)), Full(i, NextSeq(NextSeq(t)))];
      Fates(conf, Belief(false, Some(s)), log).sdus == if NextSeq(t) == 0 then [h, i] else [i]
  {
    hide Misread;
    var t := NextSeq(s);
    var log := [Abandoned(a, s), Full(g, t), Full(h, NextSeq(t)), Full(i, NextSeq(NextSeq(t)))];
    assert log[1..] == [log[1], log[2], log[3]] && log[1..][1..] == [log[2], log[3]] && log[1..][1..][1..] == [log[3]];
    var b2 := Belief(false, Some(s));
    FatesOne(conf, FateOf(conf, b2, log[2]).after, log[3]);
    assert Fates(conf, b2, [log[2], log[3]]).sdus ==
      FateOf(conf, b2, log[2]).sdus + Fates(conf, FateOf(conf, b2, log[2]).after, [log[3]]).sdus by {
      assert [log[2], log[3]][1..] == [log[3]];
    }
  }
}
