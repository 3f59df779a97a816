/** Eight fragment ids on one line: what happens to one of them does not depend on the others. */
module Interleave {
  import opened Conf
  import opened PpduHeader
  import opened Transmit
  import opened Receive
  import opened RoundTrip
  import opened Link

  datatype Event = Event(index: int, outcome: Outcome)

  datatype RxRun = RxRun(ctxs: seq<RxCtx>, events: seq<Event>)

  /** The whole receiver fed a list of PPDUs. */
  function RunRx(conf: Config, ctxs: seq<RxCtx>, ps: seq<Ppdu>): (r: RxRun)
    requires |ctxs| == FRAG_NUMBER && AllPpdus(ps)
    ensures |r.ctxs| == FRAG_NUMBER && |r.events| == |ps|
    decreases |ps|
  {
    if ps == [] then RxRun(ctxs, [])
    else
      var r := Deencap(conf, ctxs, ps[0]);
      var rest := RunRx(conf, r.ctxs, ps[1..]);
      RxRun(rest.ctxs, [Event(r.index, r.outcome)] + rest.events)
  }

  /** The fragments of one id, in their order. */
  function Project(ps: seq<Ppdu>, id: FragId): seq<Ppdu>
    requires AllPpdus(ps)
  {
    if ps == [] then []
    else (if TypeOf(ps[0]) != Complete && FragIdOf(ps[0]) == id then [ps[0]] else []) + Project(ps[1..], id)
  }

  function Completes(ps: seq<Ppdu>): seq<Ppdu>
    requires AllPpdus(ps)
  {
    if ps == [] then [] else (if TypeOf(ps[0]) == Complete then [ps[0]] else []) + Completes(ps[1..])
  }

  /** The outcomes that the receiver reports for one index. */
  function OutcomesOf(events: seq<Event>, index: int): seq<Outcome> {
    if events == [] then []
    else (if events[0].index == index then [events[0].outcome] else []) + OutcomesOf(events[1..], index)
  }

  lemma {:induction false} ProjectPpdus(ps: seq<Ppdu>, id: FragId)
    requires AllPpdus(ps)
    ensures AllPpdus(Project(ps, id)) && AllPpdus(Completes(ps))
  {
    if ps != [] {
      ProjectPpdus(ps[1..], id);
    }
  }

  /** A step on one id leaves every other context alone. */
  lemma StepIsLocal(conf: Config, ctxs: seq<RxCtx>, p: Ppdu, id: FragId)
    requires |ctxs| == FRAG_NUMBER && |p| >= 2
    ensures var r := Deencap(conf, ctxs, p);
      if TypeOf(p) != Complete && FragIdOf(p) == id then
        r.index == id && r.ctxs[id] == StepCtx(conf, ctxs[id], p).ctx && r.outcome == StepCtx(conf, ctxs[id], p).outcome
      else
        r.index != id && r.ctxs[id] == ctxs[id]
  {
    hide StepCtx, TypeOf, FragIdOf, StepComp;
  }

  /** Interleaving independence: whatever the other ids and the COMP PPDUs do in between, the context of one id and
      the outcomes reported for it are those of its own fragments alone. */
  lemma {:induction false} Independent(conf: Config, ctxs: seq<RxCtx>, ps: seq<Ppdu>, id: FragId)
    requires |ctxs| == FRAG_NUMBER && AllPpdus(ps)
    ensures AllPpdus(Project(ps, id))
    ensures |RunRx(conf, ctxs, ps).ctxs| == FRAG_NUMBER
    ensures RunRx(conf, ctxs, ps).ctxs[id] == Run(conf, ctxs[id], Project(ps, id)).ctx
    ensures OutcomesOf(RunRx(conf, ctxs, ps).events, id) == Run(conf, ctxs[id], Project(ps, id)).outcomes
    decreases |ps|
  {
    hide StepCtx, TypeOf, FragIdOf, Deencap;
    ProjectPpdus(ps, id);
    if ps != [] {
      var p, rest := ps[0], ps[1..];
      StepIsLocal(conf, ctxs, p, id);
      var r := Deencap(conf, ctxs, p);
      var later := RunRx(conf, r.ctxs, rest);
      Independent(conf, r.ctxs, rest, id);
      assert RunRx(conf, ctxs, ps).events[1..] == later.events;
      if TypeOf(p) != Complete && FragIdOf(p) == id {
        Prepend(conf, ctxs[id], p, Project(rest, id));
      } else {
        assert Project(ps, id) == Project(rest, id);
        assert OutcomesOf(RunRx(conf, ctxs, ps).events, id) == OutcomesOf(later.events, id);
      }
    }
  }

  /** COMP PPDUs are decoded one by one. */
  function DecodeAll(conf: Config, ps: seq<Ppdu>): seq<Outcome>
    requires AllPpdus(ps)
  {
    if ps == [] then [] else [StepComp(conf, ps[0])] + DecodeAll(conf, ps[1..])
  }

  /** The outcomes reported for no id are those of the COMP PPDUs, whatever the contexts hold. */
  lemma {:induction false} CompletesIndependent(conf: Config, ctxs: seq<RxCtx>, ps: seq<Ppdu>)
    requires |ctxs| == FRAG_NUMBER && AllPpdus(ps)
    ensures AllPpdus(Completes(ps))
    ensures OutcomesOf(RunRx(conf, ctxs, ps).events, -1) == DecodeAll(conf, Completes(ps))
    decreases |ps|
  {
    hide StepComp, TypeOf, FragIdOf;
    ProjectPpdus(ps, 0);
    if ps != [] {
      var p, rest := ps[0], ps[1..];
      var r := Deencap(conf, ctxs, p);
      var later := RunRx(conf, r.ctxs, rest);
      CompletesIndependent(conf, r.ctxs, rest);
      assert RunRx(conf, ctxs, ps).events[1..] == later.events;
      if TypeOf(p) == Complete {
        assert ([p] + Completes(rest))[1..] == Completes(rest);
      } else {
        assert Completes(ps) == Completes(rest);
        assert OutcomesOf(RunRx(conf, ctxs, ps).events, -1) == OutcomesOf(later.events, -1);
      }
    }
  }

  lemma DeliveriesCons(o: Outcome, os: seq<Outcome>)
    ensures Deliveries([o] + os) == (if o.Delivered? then [o.sdu] else []) + Deliveries(os)
  {
    assert ([o] + os)[1..] == os;
  }

  /** Everything a transmitter puts on the line for one id is a COMP or carries that id. */
  lemma {:induction false} StreamOfId(conf: Config, id: FragId, c: TxCtx, ops: seq<Op>)
    requires JobOk(conf, c.job)
    ensures AllPpdus(RunTx(conf, id, c, ops).ppdus)
    ensures forall p | p in RunTx(conf, id, c, ops).ppdus :: TypeOf(p) != Complete ==> FragIdOf(p) == id
    decreases |ops|
  {
    hide TypeOf, FragIdOf, Encapsulate, Fragment, JobOk;
    if ops != [] {
      RunTxCons(conf, id, c, ops[0], ops[1..]);
      assert ops == [ops[0]] + ops[1..];
      match ops[0]
      case Encap(sdu) => StreamOfId(conf, id, Encapsulate(conf, c, sdu).0, ops[1..]);
      case Frag(burst) =>
        StreamOfId(conf, id, Fragment(conf, id, c, burst).ctx, ops[1..]);
        OnePpduOfId(conf, id, c, burst);
    }
  }

  lemma OnePpduOfId(conf: Config, id: FragId, c: TxCtx, burst: nat)
    requires JobOk(conf, c.job)
    ensures var f := Fragment(conf, id, c, burst);
      f.status == FragOk ==> |f.ppdu| >= 2 && (TypeOf(f.ppdu) != Complete ==> FragIdOf(f.ppdu) == id)
  {
    hide TypeOf, FragIdOf, CutOne;
    if c.job != Idle {
      PpduBounds(conf, id, c.job, c.seqNb, burst);
    }
  }

  function NewRx(): seq<RxCtx> {
    seq(FRAG_NUMBER, i => NewRxCtx())
  }

  // ---- runs of the whole receiver ----

  lemma RunRxFirst(conf: Config, ctxs: seq<RxCtx>, ps: seq<Ppdu>)
    requires |ctxs| == FRAG_NUMBER && AllPpdus(ps) && ps != []
    ensures AllPpdus(ps[1..]) && |ps[0]| >= 2
    ensures var one := Deencap(conf, ctxs, ps[0]);
      var rest := RunRx(conf, one.ctxs, ps[1..]);
      RunRx(conf, ctxs, ps) == RxRun(rest.ctxs, [Event(one.index, one.outcome)] + rest.events)
  {
    hide Deencap;
  }

  lemma PpdusConcat(a: seq<Ppdu>, b: seq<Ppdu>)
    requires AllPpdus(a) && AllPpdus(b)
    ensures AllPpdus(a + b)
  {
  }

  lemma NothingReceived(conf: Config, ctxs: seq<RxCtx>)
    requires |ctxs| == FRAG_NUMBER
    ensures RunRx(conf, ctxs, []) == RxRun(ctxs, [])
  {
  }

  lemma {:induction false} RunRxConcat(conf: Config, ctxs: seq<RxCtx>, a: seq<Ppdu>, b: seq<Ppdu>)
    requires |ctxs| == FRAG_NUMBER && AllPpdus(a) && AllPpdus(b)
    ensures AllPpdus(a + b)
    ensures RunRx(conf, ctxs, a + b).ctxs == RunRx(conf, RunRx(conf, ctxs, a).ctxs, b).ctxs
    ensures RunRx(conf, ctxs, a + b).events ==
      RunRx(conf, ctxs, a).events + RunRx(conf, RunRx(conf, ctxs, a).ctxs, b).events
    decreases |a|
  {
    hide Deencap, RunRx, AllPpdus;
    PpdusConcat(a, b);
    if a == [] {
      assert a + b == b;
      NothingReceived(conf, ctxs);
    } else {
      assert (a + b)[1..] == a[1..] + b && (a + b)[0] == a[0];
      RunRxFirst(conf, ctxs, a);
      RunRxFirst(conf, ctxs, a + b);
      RunRxConcat(conf, Deencap(conf, ctxs, a[0]).ctxs, a[1..], b);
    }
  }

  // ---- eight transmitter contexts on one line ----

  /** A PPDU on the line and the transmitter context that built it. The origin is not on the line: a COMP does not
      carry it. */
  datatype Tagged = Tagged(origin: FragId, ppdu: Ppdu)

  function OnLine(line: seq<Tagged>): (ps: seq<Ppdu>)
    ensures |ps| == |line|
  {
    seq(|line|, i requires 0 <= i < |line| => line[i].ppdu)
  }

  /** The PPDUs of one origin, in their order. */
  function Of(line: seq<Tagged>, id: FragId): seq<Ppdu> {
    if line == [] then [] else (if line[0].origin == id then [line[0].ppdu] else []) + Of(line[1..], id)
  }

  /** What the receiver reports on the PPDUs of one origin. */
  function OutcomesAt(line: seq<Tagged>, os: seq<Outcome>, id: FragId): seq<Outcome>
    requires |line| == |os|
  {
    if line == [] then []
    else (if line[0].origin == id then [os[0]] else []) + OutcomesAt(line[1..], os[1..], id)
  }

  function AllOutcomes(events: seq<Event>): (os: seq<Outcome>)
    ensures |os| == |events|
  {
    seq(|events|, i requires 0 <= i < |events| => events[i].outcome)
  }

  lemma OutcomesCons(e: Event, es: seq<Event>)
    ensures AllOutcomes([e] + es) == [e.outcome] + AllOutcomes(es)
  {
  }

  /** Fragments carry the id of their origin. */
  predicate OwnIds(line: seq<Tagged>)
    requires AllPpdus(OnLine(line))
  {
    forall i | 0 <= i < |line| :: IsOwn(line[i])
  }

  predicate IsOwn(t: Tagged) {
    |t.ppdu| >= 2 && (TypeOf(t.ppdu) != Complete ==> FragIdOf(t.ppdu) == t.origin)
  }

  lemma OnLineCons(line: seq<Tagged>)
    requires line != [] && AllPpdus(OnLine(line))
    ensures OnLine(line)[0] == line[0].ppdu && OnLine(line)[1..] == OnLine(line[1..])
    ensures AllPpdus(OnLine(line[1..])) && (OwnIds(line) ==> OwnIds(line[1..]) && IsOwn(line[0]))
  {
    hide IsOwn;
    assert OnLine(line)[1..] == OnLine(line[1..]);
    assert forall p | p in OnLine(line)[1..] :: p in OnLine(line);
    forall i | OwnIds(line) && 0 <= i < |line[1..]| ensures IsOwn(line[1..][i]) {
      assert line[1..][i] == line[i + 1];
    }
  }

  /** One PPDU from anywhere, seen from one context: its own PPDUs step it, COMPs included, and no other does. */
  lemma TaggedStep(conf: Config, ctxs: seq<RxCtx>, t: Tagged, id: FragId)
    requires |ctxs| == FRAG_NUMBER && IsOwn(t)
    ensures var r := Deencap(conf, ctxs, t.ppdu);
      if t.origin == id then Step(r.ctxs[id], r.outcome) == StepCtx(conf, ctxs[id], t.ppdu)
      else r.ctxs[id] == ctxs[id]
  {
    hide TypeOf, FragIdOf, StepStart, StepCont, StepEnd, StepComp;
  }

  /** Whatever is merged in between, one origin's PPDUs get exactly the outcomes they would get alone. */
  lemma {:induction false} OriginAlone(conf: Config, ctxs: seq<RxCtx>, line: seq<Tagged>, id: FragId)
    requires |ctxs| == FRAG_NUMBER && AllPpdus(OnLine(line)) && OwnIds(line)
    ensures AllPpdus(Of(line, id))
    ensures var run := RunRx(conf, ctxs, OnLine(line));
      var alone := Run(conf, ctxs[id], Of(line, id));
      run.ctxs[id] == alone.ctx && OutcomesAt(line, AllOutcomes(run.events), id) == alone.outcomes
    decreases |line|
  {
    hide Deencap, StepCtx, IsOwn, OwnIds, AllPpdus, OnLine, RunRx, Run, AllOutcomes;
    if line == [] {
      NothingOnLine(conf, ctxs, line, id);
    } else {
      OnLineCons(line);
      var t, rest := line[0], line[1..];
      RunRxFirst(conf, ctxs, OnLine(line));
      TaggedStep(conf, ctxs, t, id);
      var one := Deencap(conf, ctxs, t.ppdu);
      var later := RunRx(conf, one.ctxs, OnLine(rest));
      OriginAlone(conf, one.ctxs, rest, id);
      OutcomesCons(Event(one.index, one.outcome), later.events);
      var os := AllOutcomes(later.events);
      assert ([one.outcome] + os)[1..] == os;
      if t.origin == id {
        OwnSize(t);
        Prepend(conf, ctxs[id], t.ppdu, Of(rest, id));
      } else {
        assert [] + Of(rest, id) == Of(rest, id);
        assert [] + OutcomesAt(rest, os, id) == OutcomesAt(rest, os, id);
      }
    }
  }

  lemma OwnSize(t: Tagged)
    requires IsOwn(t)
    ensures |t.ppdu| >= 2
  {
  }

  lemma NothingOnLine(conf: Config, ctxs: seq<RxCtx>, line: seq<Tagged>, id: FragId)
    requires |ctxs| == FRAG_NUMBER && line == []
    ensures AllPpdus(OnLine(line)) && AllPpdus(Of(line, id))
    ensures var run := RunRx(conf, ctxs, OnLine(line));
      && run == RxRun(ctxs, []) && AllOutcomes(run.events) == []
      && Run(conf, ctxs[id], Of(line, id)) == RunResult(ctxs[id], [])
  {
  }

  lemma {:induction false} InItsStream(line: seq<Tagged>, i: nat)
    requires i < |line|
    ensures line[i].ppdu in Of(line, line[i].origin)
  {
    if i > 0 {
      InItsStream(line[1..], i - 1);
    }
  }

  /** The line is some merge of the streams of eight new transmitter contexts. */
  ghost predicate IsMerge(conf: Config, opss: seq<seq<Op>>, line: seq<Tagged>)
    requires |opss| == FRAG_NUMBER
  {
    forall id: FragId :: Of(line, id) == RunTx(conf, id, NEW_TX, opss[id]).ppdus
  }

  lemma MergeIsOwn(conf: Config, opss: seq<seq<Op>>, line: seq<Tagged>)
    requires |opss| == FRAG_NUMBER && IsMerge(conf, opss, line)
    ensures AllPpdus(OnLine(line)) && OwnIds(line)
  {
    hide RunTx, TypeOf, FragIdOf;
    forall i: nat | i < |line| ensures IsOwn(line[i]) {
      var id := line[i].origin;
      InItsStream(line, i);
      StreamOfId(conf, id, NEW_TX, opss[id]);
      assert Of(line, id) == RunTx(conf, id, NEW_TX, opss[id]).ppdus;
    }
  }

  /** Eight links on one line. Eight contexts are used in any way, each by its own calls; their PPDUs, COMPs included,
      reach a new receiver merged in any way that keeps each one's own order. Then the PPDUs of each origin get the
      outcomes of its link alone: what they deliver, in order, is what the fates of its own SDUs say, no assertion
      fails, and when only sendable SDUs were offered and the queue is empty it is exactly what that origin took. */
  lemma MergedLinks(conf: Config, opss: seq<seq<Op>>, line: seq<Tagged>, id: FragId)
    requires |opss| == FRAG_NUMBER && IsMerge(conf, opss, line)
    ensures AllPpdus(OnLine(line))
    ensures var run, noted := RunTx(conf, id, NEW_TX, opss[id]), Note(conf, id, NEW_TX, Grounded, opss[id]);
      var os := OutcomesAt(line, AllOutcomes(RunRx(conf, NewRx(), OnLine(line)).events), id);
      && AllPpdus(run.ppdus) && os == Run(conf, NewRxCtx(), run.ppdus).outcomes
      && Deliveries(os) == Fates(conf, NEW_BELIEF, noted.log).sdus && Aborted !in os
      && (AllSendable(conf, opss[id]) ==> Deliveries(os) + InFlight(noted.flight) == run.accepted && Rejected !in os)
      && (AllSendable(conf, opss[id]) && run.ctx.job == Idle ==> Deliveries(os) == run.accepted)
  {
    hide RunTx, Run, RunRx, Deliveries, TypeOf, FragIdOf, Note, Fates, OnLine, AllPpdus, OwnIds, AllSendable,
      AllOutcomes;
    MergeIsOwn(conf, opss, line);
    OriginAlone(conf, NewRx(), line, id);
    NewLinkDelivers(conf, id, opss[id]);
    if AllSendable(conf, opss[id]) {
      TakenIsDelivered(conf, id, opss[id]);
    }
    assert NewRx()[id] == NewRxCtx();
  }
}
