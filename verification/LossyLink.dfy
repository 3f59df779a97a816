/** The no-chimera theorem for the transmitter's own stream: one fragment id in sequence-number mode, used by any calls,
    over a channel that drops any PPDUs it likes. */
module LossyLink {
  import opened Bytes
  import opened Conf
  import opened AlpduCodec
  import opened PpduHeader
  import opened Crc
  import opened Ctx
  import opened Transmit
  import opened Fragments
  import opened Receive
  import opened RoundTrip
  import opened Lossy
  import opened Link

  /** A PPDU, the SDU it was cut from, and the number of ALPDUs that had been started before its own. */
  datatype Labelled = Labelled(ppdu: Ppdu, sdu: Sdu, k: nat)

  /** The number of ALPDUs started, after a call. */
  function Started(f: Flight, f': Flight, k: nat): nat {
    if f.Queued? && f'.Flying? then k + 1 else k
  }

  function LabelOf(p: Ppdu, f: Flight, k: nat): Labelled
    requires f != Grounded
  {
    Labelled(p, f.sdu, if f.Flying? && k > 0 then k - 1 else k)
  }

  /** The stream of a run of calls, labelled. */
  function Labels(conf: Config, id: FragId, c: TxCtx, f: Flight, k: nat, ops: seq<Op>): seq<Labelled>
    requires JobOk(conf, c.job)
    decreases |ops|
  {
    if ops == [] then []
    else
      AfterOpKeepsJobOk(conf, id, c, ops[0]);
      var f' := NoteOne(conf, id, c, f, ops[0]).flight;
      var rest := Labels(conf, id, AfterOp(conf, id, c, ops[0]), f', Started(f, f', k), ops[1..]);
      if ops[0].Frag? && f != Grounded then
        var sent := Fragment(conf, id, c, ops[0].burst);
        (if sent.status == FragOk then [LabelOf(sent.ppdu, f, k)] else []) + rest
      else rest
  }

  function Unlabelled(ls: seq<Labelled>): (ps: seq<Ppdu>)
    ensures |ps| == |ls|
  {
    seq(|ls|, i requires 0 <= i < |ls| => ls[i].ppdu)
  }

  /** A delivery: the SDU that its last PPDU was cut from and the one that was delivered; for an END, the number of its
      ALPDU and that of the last ALPDU before it whose END reached the trailer check. */
  datatype Delivery = Delivery(whole: bool, k: nat, last: Option<nat>, own: Sdu, got: Sdu)

  function DeliveryBy(l: Labelled, last: Option<nat>, got: Sdu): Delivery
    requires |l.ppdu| >= 2
  {
    Delivery(TypeOf(l.ppdu) == Complete, l.k, last, l.sdu, got)
  }

  function LastChecked(conf: Config, rx: RxCtx, l: Labelled, last: Option<nat>): Option<nat>
    requires |l.ppdu| >= 2
  {
    if ReachesCheck(conf, rx, l.ppdu) then Some(l.k) else last
  }

  predicate AllSized(ls: seq<Labelled>) {
    forall l | l in ls :: |l.ppdu| >= 2
  }

  /** Everything a context delivers when `keep` says which PPDUs of the stream arrive. */
  function Trace(conf: Config, rx: RxCtx, last: Option<nat>, ls: seq<Labelled>, keep: seq<bool>): seq<Delivery>
    requires |keep| == |ls| && AllSized(ls)
    decreases |ls|
  {
    if ls == [] then []
    else if !keep[0] then Trace(conf, rx, last, ls[1..], keep[1..])
    else
      assert ls[0] in ls;
      var r := StepCtx(conf, rx, ls[0].ppdu);
      (if r.outcome.Delivered? then [DeliveryBy(ls[0], last, r.outcome.sdu)] else [])
      + Trace(conf, r.ctx, LastChecked(conf, rx, ls[0], last), ls[1..], keep[1..])
  }

  /** No mix and no hole, within one round of sequence numbers. */
  ghost predicate Honest(first: byte, d: Delivery) {
    && (d.whole ==> d.got == d.own)
    && (!d.whole && d.last.Some? && d.k <= d.last.value + 256 && SeqOf(first, d.k) != 0 ==> d.got == d.own)
  }

  // ---- the invariant ----

  /** The number awaited follows the last one checked, which is older than the next ALPDU. */
  ghost predicate Numbers(first: byte, rx: RxCtx, last: Option<nat>, k: nat) {
    && (rx.seqInit <==> last.Some?)
    && (last.Some? ==> rx.nextSeq == SeqOf(first, last.value + 1) && last.value < k)
    && (rx.busy ==> !rx.useCrc)
  }

  /** How many body bytes were sent when these are still unsent. */
  function Position(body: seq<byte>, unsent: seq<byte>): int {
    |body| + 1 - |unsent|
  }

  /** The context collects the ALPDU in flight, or is free. */
  ghost predicate Mine(conf: Config, sdu: Sdu, rx: RxCtx, unsent: seq<byte>) {
    var m := Position(Encode(conf, sdu).body, unsent);
    m >= 0 && Collecting(conf, sdu, rx, m)
  }

  /** The context is still busy with an ALPDU started after the last check and before `k`. */
  ghost predicate Stale(last: Option<nat>, k: nat) {
    last.Some? ==> last.value + 1 < k
  }

  ghost predicate Midway(conf: Config, sdu: Sdu, s: byte, unsent: seq<byte>) {
    var body := Encode(conf, sdu).body;
    var m := Position(body, unsent);
    0 <= m <= |body| && unsent == body[m..] + [s]
  }

  ghost predicate Loosely(conf: Config, first: byte, tx: TxCtx, f: Flight, k: nat, rx: RxCtx, last: Option<nat>) {
    && Numbers(first, rx, last, k) && tx.seqNb == SeqOf(first, k)
    && (f != Grounded ==> ValidSize(f.sdu))
    && match f
       case Grounded => tx.job == Idle && (rx.busy ==> Stale(last, k))
       case Queued(sdu) => tx.job == NewJob(conf, sdu) && (rx.busy ==> Stale(last, k))
       case Flying(sdu, s) =>
         && tx.job.Rest? && k > 0 && s == SeqOf(first, k - 1) && Stale(last, k)
         && Midway(conf, sdu, s, tx.job.unsent)
         && (Mine(conf, sdu, rx, tx.job.unsent) || (rx.busy && Stale(last, k - 1)))
  }

  /** One PPDU, kept or dropped. */
  ghost predicate Carried(conf: Config, first: byte, after: TxCtx, f: Flight, f': Flight, k: nat, rx: RxCtx,
                          last: Option<nat>, p: Ppdu) {
    && f != Grounded && |p| >= 2
    && Loosely(conf, first, after, f', Started(f, f', k), rx, last)
    && var l, r := LabelOf(p, f, k), StepCtx(conf, rx, p);
       && Loosely(conf, first, after, f', Started(f, f', k), r.ctx, LastChecked(conf, rx, l, last))
       && (r.outcome.Delivered? ==> Honest(first, DeliveryBy(l, last, r.outcome.sdu)))
  }

  lemma CompCarried(conf: Config, id: FragId, first: byte, tx: TxCtx, f: Flight, k: nat, rx: RxCtx,
                    last: Option<nat>, burst: nat)
    requires !conf.UseCrc() && JobOk(conf, tx.job) && f.Queued? && Loosely(conf, first, tx, f, k, rx, last)
    requires Fragment(conf, id, tx, burst).status == FragOk && Fragment(conf, id, tx, burst).ctx.job == Idle
    ensures var sent := Fragment(conf, id, tx, burst);
      Carried(conf, first, sent.ctx, f, Grounded, k, rx, last, sent.ppdu)
  {
    hide Encode, SduCrc, CrcBytes, CompHeader, StartHeader, Misread, TypeOf, StepComp, SeqOf;
    var p := Fragment(conf, id, tx, burst).ppdu;
    assert SentWhole(conf, f.sdu, [p]);
    ReceiveWhole(conf, f.sdu, [p], rx);
  }

  lemma StartCarried(conf: Config, id: FragId, first: byte, tx: TxCtx, f: Flight, k: nat, rx: RxCtx,
                     last: Option<nat>, burst: nat)
    requires !conf.UseCrc() && JobOk(conf, tx.job) && f.Queued? && Loosely(conf, first, tx, f, k, rx, last)
    requires Fragment(conf, id, tx, burst).status == FragOk && Fragment(conf, id, tx, burst).ctx.job != Idle
    ensures var sent := Fragment(conf, id, tx, burst);
      Carried(conf, first, sent.ctx, f, Flying(f.sdu, tx.seqNb), k, rx, last, sent.ppdu)
  {
    hide Encode, SduCrc, CrcBytes, CompHeader, StartHeader, Misread, TypeOf, StepCtx, Rebuild, Opened, Mine, Midway, SeqOf,
      ReachesCheck;
    var sent := Fragment(conf, id, tx, burst);
    var p, a := sent.ppdu, Encode(conf, f.sdu);
    assert IsStart(conf, id, f.sdu, tx.seqNb, p);
    HeaderOfStart(conf, id, f.sdu, tx.seqNb, p);
    NotAnEnd(conf, rx, p);
    NextNumber(first, k);
    var n, unsent := |p| - 4 - |a.hdr|, sent.ctx.job.unsent;
    StartOpens(conf, id, f.sdu, tx.seqNb, p, rx.(busy := false));
    assert unsent == a.body[n..] + [tx.seqNb];
    OpenedIsMine(conf, f.sdu, tx.seqNb, StepCtx(conf, rx.(busy := false), p).ctx, n, unsent);
    if rx.busy {
      BusyRefusesStart(conf, rx, p);
      FreeIsMine(conf, f.sdu, StepCtx(conf, rx, p).ctx, tx.seqNb, unsent);
    } else {
      assert rx.(busy := false) == rx;
      FreeIsMine(conf, f.sdu, rx, tx.seqNb, unsent);
    }
  }

  lemma OpenedIsMine(conf: Config, sdu: Sdu, s: byte, rx: RxCtx, n: nat, unsent: seq<byte>)
    requires !conf.UseCrc() && n <= |Encode(conf, sdu).body| && Opened(conf, sdu, rx, Encode(conf, sdu).body[..n])
    requires unsent == Encode(conf, sdu).body[n..] + [s]
    ensures Midway(conf, sdu, s, unsent) && Mine(conf, sdu, rx, unsent) && rx.busy && !rx.useCrc
  {
    hide Encode, Rebuild, Misread;
  }

  /** A CONT or an END and the bytes behind it. */
  lemma RestOf(conf: Config, id: FragId, tx: TxCtx, sdu: Sdu, s: byte, burst: nat)
    requires !conf.UseCrc() && JobOk(conf, tx.job) && tx.job.Rest? && Midway(conf, sdu, s, tx.job.unsent)
    requires Fragment(conf, id, tx, burst).status == FragOk
    ensures var sent := Fragment(conf, id, tx, burst);
      var p, body, m := sent.ppdu, Encode(conf, sdu).body, Position(Encode(conf, sdu).body, tx.job.unsent);
      && |p| >= 3 && sent.ctx.seqNb == tx.seqNb
      && if sent.ctx.job == Idle then TypeOf(p) == EndFrag && p[2..] == body[m..] + [s] && p[|p| - 1] == s
         else
           && sent.ctx.job.Rest? && TypeOf(p) == ContFrag && Midway(conf, sdu, s, sent.ctx.job.unsent)
           && Position(body, sent.ctx.job.unsent) == m + |p| - 2
           && p[2..] + sent.ctx.job.unsent == body[m..] + [s] && |sent.ctx.job.unsent| >= 1
  {
    PpduBounds(conf, id, tx.job, tx.seqNb, burst);
    NextOfRest(conf, id, tx, burst);
    hide Encode, TypeOf, CutOne, JobOk, Fragment;
    var sent := Fragment(conf, id, tx, burst);
    var p, body := sent.ppdu, Encode(conf, sdu).body;
    var m := Position(body, tx.job.unsent);
    if sent.ctx.job == Idle {
      assert p[|p| - 1] == p[2..][|p| - 3];
    } else {
      ContFits(body, [s], p[2..], sent.ctx.job.unsent, m);
    }
  }

  lemma ContCarried(conf: Config, first: byte, tx: TxCtx, after: TxCtx, f: Flight, k: nat, rx: RxCtx,
                    last: Option<nat>, p: Ppdu)
    requires !conf.UseCrc() && f.Flying? && Loosely(conf, first, tx, f, k, rx, last)
    requires |p| >= 3 && TypeOf(p) == ContFrag && after.seqNb == tx.seqNb && after.job.Rest? && |after.job.unsent| >= 1
    requires var body := Encode(conf, f.sdu).body;
      var m := Position(body, tx.job.unsent);
      && Midway(conf, f.sdu, f.s, after.job.unsent) && Position(body, after.job.unsent) == m + |p| - 2
      && p[2..] + after.job.unsent == body[m..] + [f.s]
    ensures Carried(conf, first, after, f, f, k, rx, last, p)
  {
    hide Encode, TypeOf, StepCtx, Collecting, SeqOf;
    StepWithoutEnd(conf, rx, p);
    NotAnEnd(conf, rx, p);
    var m := Position(Encode(conf, f.sdu).body, tx.job.unsent);
    if Mine(conf, f.sdu, rx, tx.job.unsent) {
      CollectCont(conf, f.sdu, rx, m, p, after.job.unsent, f.s, true);
      CollectCont(conf, f.sdu, rx, m, p, after.job.unsent, f.s, false);
    } else if !StepCtx(conf, rx, p).ctx.busy {
      FreeIsMine(conf, f.sdu, StepCtx(conf, rx, p).ctx, f.s, after.job.unsent);
    }
  }

  lemma FreeIsMine(conf: Config, sdu: Sdu, rx: RxCtx, s: byte, unsent: seq<byte>)
    requires !rx.busy && Midway(conf, sdu, s, unsent)
    ensures Mine(conf, sdu, rx, unsent)
  {
    hide Encode, Rebuild;
  }

  lemma EndCarried(conf: Config, first: byte, tx: TxCtx, after: TxCtx, f: Flight, k: nat, rx: RxCtx,
                   last: Option<nat>, p: Ppdu)
    requires !conf.UseCrc() && f.Flying? && Loosely(conf, first, tx, f, k, rx, last)
    requires |p| >= 3 && TypeOf(p) == EndFrag && after.seqNb == tx.seqNb && after.job == Idle && p[|p| - 1] == f.s
    requires p[2..] == Encode(conf, f.sdu).body[Position(Encode(conf, f.sdu).body, tx.job.unsent)..] + [f.s]
    ensures Carried(conf, first, after, f, Grounded, k, rx, last, p)
  {
    hide Encode, TypeOf, StepCtx, Collecting, SeqOf, ReachesCheck, Deliveries;
    StepWithEnd(conf, rx, p, f.s);
    NextNumber(first, k - 1);
    var r := StepCtx(conf, rx, p);
    OneGiven(r.ctx, r.outcome);
    if r.outcome.Delivered? {
      if Mine(conf, f.sdu, rx, tx.job.unsent) {
        CollectEnd(conf, f.sdu, rx, Position(Encode(conf, f.sdu).body, tx.job.unsent), p, f.s);
      } else if last.Some? && k - 1 <= last.value + 256 && SeqOf(first, k - 1) != 0 {
        SameSeq(first, last.value + 1, k - 1);
        assert false;
      }
    }
  }

  lemma NextNumber(first: byte, k: nat)
    ensures NextSeq(SeqOf(first, k)) == SeqOf(first, k + 1)
  {
  }

  lemma OneGiven(c: RxCtx, o: Outcome)
    ensures Deliveries(RunResult(c, [o]).outcomes) != [] <==> o.Delivered?
  {
    assert [o][1..] == [] && Deliveries([]) == [];
  }

  /** One call of rle_fragment, its PPDU kept or dropped. */
  lemma FragmentCarried(conf: Config, id: FragId, first: byte, tx: TxCtx, f: Flight, k: nat, rx: RxCtx,
                        last: Option<nat>, burst: nat)
    requires !conf.UseCrc() && JobOk(conf, tx.job) && Loosely(conf, first, tx, f, k, rx, last)
    ensures var sent, f' := Fragment(conf, id, tx, burst), NoteOne(conf, id, tx, f, Frag(burst)).flight;
      if sent.status == FragOk then Carried(conf, first, sent.ctx, f, f', k, rx, last, sent.ppdu)
      else sent.ctx == tx && f' == f
  {
    NothingToCarry(conf, id, first, tx, f, k, rx, last, burst);
    hide Carried, Loosely, Fragment, StepCtx, JobOk, Midway, Encode, TypeOf, Position;
    var sent := Fragment(conf, id, tx, burst);
    if sent.status == FragOk {
      if f.Flying? {
        FlyingIs(conf, first, tx, f, k, rx, last);
        RestOf(conf, id, tx, f.sdu, f.s, burst);
        if sent.ctx.job == Idle {
          EndCarried(conf, first, tx, sent.ctx, f, k, rx, last, sent.ppdu);
        } else {
          ContCarried(conf, first, tx, sent.ctx, f, k, rx, last, sent.ppdu);
        }
      } else if sent.ctx.job == Idle {
        CompCarried(conf, id, first, tx, f, k, rx, last, burst);
      } else {
        StartCarried(conf, id, first, tx, f, k, rx, last, burst);
      }
    }
  }

  lemma FlyingIs(conf: Config, first: byte, tx: TxCtx, f: Flight, k: nat, rx: RxCtx, last: Option<nat>)
    requires Loosely(conf, first, tx, f, k, rx, last) && f.Flying?
    ensures tx.job.Rest? && Midway(conf, f.sdu, f.s, tx.job.unsent)
  {
  }

  lemma NothingToCarry(conf: Config, id: FragId, first: byte, tx: TxCtx, f: Flight, k: nat, rx: RxCtx,
                       last: Option<nat>, burst: nat)
    requires JobOk(conf, tx.job) && Loosely(conf, first, tx, f, k, rx, last)
    ensures var sent := Fragment(conf, id, tx, burst);
      && (sent.status != FragOk ==> sent.ctx == tx)
      && (sent.status == FragOk ==> f != Grounded)
  {
    hide CutOne, Encode, Midway, Mine, SeqOf;
  }

  lemma EncapsulateCarried(conf: Config, id: FragId, first: byte, tx: TxCtx, f: Flight, k: nat, rx: RxCtx,
                           last: Option<nat>, sdu: Sdu)
    requires JobOk(conf, tx.job) && Loosely(conf, first, tx, f, k, rx, last)
    ensures var f' := NoteOne(conf, id, tx, f, Encap(sdu)).flight;
      Started(f, f', k) == k && Loosely(conf, first, Encapsulate(conf, tx, sdu).0, f', k, rx, last)
  {
    hide Encode, SduCrc, CrcBytes, Midway, Collecting, SeqOf;
  }

  lemma {:induction false} LabelsAreSized(conf: Config, id: FragId, tx: TxCtx, f: Flight, k: nat, ops: seq<Op>)
    requires JobOk(conf, tx.job)
    ensures AllSized(Labels(conf, id, tx, f, k, ops))
    decreases |ops|
  {
    hide NoteOne, AfterOp, Fragment, JobOk;
    if ops != [] {
      AfterOpKeepsJobOk(conf, id, tx, ops[0]);
      var f' := NoteOne(conf, id, tx, f, ops[0]).flight;
      LabelsAreSized(conf, id, AfterOp(conf, id, tx, ops[0]), f', Started(f, f', k), ops[1..]);
      if ops[0].Frag? {
        SentIsSized(conf, id, tx, ops[0].burst);
      }
    }
  }

  lemma SentIsSized(conf: Config, id: FragId, tx: TxCtx, burst: nat)
    requires JobOk(conf, tx.job)
    ensures Fragment(conf, id, tx, burst).status == FragOk ==> |Fragment(conf, id, tx, burst).ppdu| >= 2
  {
    hide CutOne;
    if tx.job != Idle {
      PpduBounds(conf, id, tx.job, tx.seqNb, burst);
    }
  }

  /** No chimera, for the stream of any calls. One transmitter context in sequence-number mode is used in any way,
      abandoned ALPDUs included; the channel drops any PPDUs. Whatever an initialised context delivers on an END with a
      non-zero number, at most 256 ALPDUs after the last one whose END reached the trailer check, is exactly the SDU
      that END was cut from; and a COMP always delivers its own. */
  lemma {:induction false} NoChimeraOnLine(conf: Config, id: FragId, first: byte, tx: TxCtx, f: Flight, k: nat,
                                           rx: RxCtx,
                                           last: Option<nat>, ops: seq<Op>, keep: seq<bool>)
    requires !conf.UseCrc() && JobOk(conf, tx.job) && Loosely(conf, first, tx, f, k, rx, last)
    requires |keep| == |Labels(conf, id, tx, f, k, ops)|
    ensures AllSized(Labels(conf, id, tx, f, k, ops))
    ensures forall d | d in Trace(conf, rx, last, Labels(conf, id, tx, f, k, ops), keep) :: Honest(first, d)
    decreases |ops|
  {
    hide NoteOne, Fragment, Encapsulate, JobOk, Loosely, Carried, Honest, Trace, AllSized, StepCtx, LastChecked,
      DeliveryBy, LabelOf;
    LabelsAreSized(conf, id, tx, f, k, ops);
    if ops == [] {
      NothingTraced(conf, rx, last, keep);
    } else {
      AfterOpKeepsJobOk(conf, id, tx, ops[0]);
      var f', tx1 := NoteOne(conf, id, tx, f, ops[0]).flight, AfterOp(conf, id, tx, ops[0]);
      match ops[0]
      case Encap(sdu) =>
        EncapsulateCarried(conf, id, first, tx, f, k, rx, last, sdu);
        NoChimeraOnLine(conf, id, first, tx1, f', k, rx, last, ops[1..], keep);
      case Frag(burst) =>
        FragmentCarried(conf, id, first, tx, f, k, rx, last, burst);
        var sent := Fragment(conf, id, tx, burst);
        var k' := Started(f, f', k);
        if sent.status == FragOk {
          CarriedIs(conf, first, sent.ctx, f, f', k, rx, last, sent.ppdu);
          var l := LabelOf(sent.ppdu, f, k);
          var rest := Labels(conf, id, tx1, f', k', ops[1..]);
          assert Labels(conf, id, tx, f, k, ops) == [l] + rest;
          LabelsAreSized(conf, id, tx1, f', k', ops[1..]);
          TraceFirst(conf, rx, last, l, rest, keep);
          if keep[0] {
            NoChimeraOnLine(conf, id, first, tx1, f', k', StepCtx(conf, rx, l.ppdu).ctx, LastChecked(conf, rx, l, last),
                            ops[1..], keep[1..]);
          } else {
            NoChimeraOnLine(conf, id, first, tx1, f', k', rx, last, ops[1..], keep[1..]);
          }
        } else {
          SameCount(f, k);
          var rest := Labels(conf, id, tx1, f', k', ops[1..]);
          assert [] + rest == rest;
          NoChimeraOnLine(conf, id, first, tx1, f', k', rx, last, ops[1..], keep);
        }
    }
  }

  lemma SameCount(f: Flight, k: nat)
    ensures Started(f, f, k) == k
  {
  }

  lemma CarriedIs(conf: Config, first: byte, after: TxCtx, f: Flight, f': Flight, k: nat, rx: RxCtx,
                  last: Option<nat>, p: Ppdu)
    requires Carried(conf, first, after, f, f', k, rx, last, p)
    ensures f != Grounded && |p| >= 2 && LabelOf(p, f, k).ppdu == p
    ensures Loosely(conf, first, after, f', Started(f, f', k), rx, last)
    ensures var l, r := LabelOf(p, f, k), StepCtx(conf, rx, p);
      && Loosely(conf, first, after, f', Started(f, f', k), r.ctx, LastChecked(conf, rx, l, last))
      && (r.outcome.Delivered? ==> Honest(first, DeliveryBy(l, last, r.outcome.sdu)))
  {
  }

  lemma NothingTraced(conf: Config, rx: RxCtx, last: Option<nat>, keep: seq<bool>)
    requires keep == []
    ensures AllSized([]) && Trace(conf, rx, last, [], keep) == []
  {
  }

  lemma TraceFirst(conf: Config, rx: RxCtx, last: Option<nat>, l: Labelled, rest: seq<Labelled>, keep: seq<bool>)
    requires |keep| == 1 + |rest| && AllSized([l] + rest) && AllSized(rest) && |l.ppdu| >= 2
    ensures var r := StepCtx(conf, rx, l.ppdu);
      Trace(conf, rx, last, [l] + rest, keep) ==
        if keep[0] then
          (if r.outcome.Delivered? then [DeliveryBy(l, last, r.outcome.sdu)] else [])
          + Trace(conf, r.ctx, LastChecked(conf, rx, l, last), rest, keep[1..])
        else Trace(conf, rx, last, rest, keep[1..])
  {
    hide StepCtx, LastChecked, DeliveryBy;
    assert ([l] + rest)[1..] == rest;
  }

  predicate Fits(tx: TxCtx, f: Flight) {
    match f
    case Grounded => tx.job == Idle
    case Queued(_) => tx.job.Fresh?
    case Flying(_, _) => tx.job.Rest?
  }

  /** The labels are put on the transmitter's own stream, PPDU for PPDU. */
  lemma {:induction false} LabelsAreTheLine(conf: Config, id: FragId, tx: TxCtx, f: Flight, k: nat, ops: seq<Op>)
    requires JobOk(conf, tx.job) && Fits(tx, f)
    ensures Unlabelled(Labels(conf, id, tx, f, k, ops)) == RunTx(conf, id, tx, ops).ppdus
    decreases |ops|
  {
    hide JobOk, CutOne, NewJob;
    if ops != [] {
      AfterOpKeepsJobOk(conf, id, tx, ops[0]);
      assert ops == [ops[0]] + ops[1..];
      RunTxCons(conf, id, tx, ops[0], ops[1..]);
      FlightFits(conf, id, tx, f, ops[0]);
      hide Fragment, Encapsulate, NoteOne, RunTx;
      var f' := NoteOne(conf, id, tx, f, ops[0]).flight;
      LabelsAreTheLine(conf, id, AfterOp(conf, id, tx, ops[0]), f', Started(f, f', k), ops[1..]);
    }
  }

  lemma FlightFits(conf: Config, id: FragId, tx: TxCtx, f: Flight, op: Op)
    requires JobOk(conf, tx.job) && Fits(tx, f)
    ensures Fits(AfterOp(conf, id, tx, op), NoteOne(conf, id, tx, f, op).flight)
    ensures op.Frag? && f == Grounded ==> Fragment(conf, id, tx, op.burst).status != FragOk
  {
    hide Encode, SduCrc, CrcBytes, CompHeader, StartHeader, ContEndHeader;
  }

  /** From two new ends. */
  lemma NewLineIsLoose(conf: Config)
    ensures Loosely(conf, 0, NEW_TX, Grounded, 0, NewRxCtx(), None)
  {
  }

  lemma NoChimeraFromNew(conf: Config, id: FragId, ops: seq<Op>, keep: seq<bool>)
    requires !conf.UseCrc() && |keep| == |RunTx(conf, id, NEW_TX, ops).ppdus|
    ensures var ls := Labels(conf, id, NEW_TX, Grounded, 0, ops);
      && Unlabelled(ls) == RunTx(conf, id, NEW_TX, ops).ppdus && AllSized(ls)
      && forall d | d in Trace(conf, NewRxCtx(), None, ls, keep) :: Honest(0, d)
  {
    hide RunTx, Labels, Trace, Honest, Loosely, Unlabelled;
    LabelsAreTheLine(conf, id, NEW_TX, Grounded, 0, ops);
    NewLineIsLoose(conf);
    NoChimeraOnLine(conf, id, 0, NEW_TX, Grounded, 0, NewRxCtx(), None, ops, keep);
  }
}
