/** The two ends together, over a channel that loses nothing: what one SDU becomes at the receiver. */
module RoundTrip {
  import opened Bytes
  import opened Conf
  import opened ProtoType
  import opened AlpduCodec
  import opened PpduHeader
  import opened Trailer
  import opened Crc
  import opened Ctx
  import opened Transmit
  import opened Fragments
  import opened Receive

  predicate AllPpdus(ps: seq<Ppdu>) {
    forall p | p in ps :: |p| >= 2
  }

  datatype RunResult = RunResult(ctx: RxCtx, outcomes: seq<Outcome>)

  /** One context fed a list of PPDUs. */
  function Run(conf: Config, c: RxCtx, ps: seq<Ppdu>): RunResult
    requires AllPpdus(ps)
    decreases |ps|
  {
    if ps == [] then RunResult(c, [])
    else
      var s := StepCtx(conf, c, ps[0]);
      var rest := Run(conf, s.ctx, ps[1..]);
      RunResult(rest.ctx, [s.outcome] + rest.outcomes)
  }

  /** The SDUs handed to the caller. */
  function Deliveries(os: seq<Outcome>): seq<Sdu> {
    if os == [] then [] else (if os[0].Delivered? then [os[0].sdu] else []) + Deliveries(os[1..])
  }

  /** The receiver will accept the trailer of an ALPDU with sequence number `s`. */
  predicate InSync(conf: Config, c: RxCtx, s: byte) {
    conf.UseCrc() || !c.seqInit || s == c.nextSeq || s == 0
  }

  function TotalLength(ps: seq<Ppdu>): nat {
    if ps == [] then 0 else |ps[0]| + TotalLength(ps[1..])
  }

  lemma {:induction false} TailShape(conf: Config, id: FragId, ps: seq<Ppdu>)
    requires IsTail(conf, id, ps)
    ensures AllPpdus(ps)
    ensures |TailBytes(ps)| >= conf.TrailerLen()
  {
    if |ps| == 1 {
      assert TailBytes(ps[1..]) == [];
    } else {
      TailShape(conf, id, ps[1..]);
      assert forall p | p in ps :: p == ps[0] || p in ps[1..];
    }
  }

  lemma HeaderOfTail(conf: Config, id: FragId, ps: seq<Ppdu>)
    requires IsTail(conf, id, ps)
    ensures |ps[0]| >= 2 && TypeOf(ps[0]) == (if |ps| == 1 then EndFrag else ContFrag)
    ensures FragIdOf(ps[0]) == id && LengthOf(ps[0]) == |ps[0]|
  {
    var p := ps[0];
    assert p == p[..2] + p[2..];
    ContEndHeaderRoundTrip(|ps| == 1, |p| - 2, id, p[2..]);
  }

  lemma HeaderOfStart(conf: Config, id: FragId, sdu: Sdu, s: byte, p: Ppdu)
    requires IsStart(conf, id, sdu, s, p) && |sdu.data| <= MAX_PDU_SIZE
    ensures var a := Encode(conf, sdu);
      && TypeOf(p) == StartFrag && FragIdOf(p) == id && LengthOf(p) == |p|
      && StartTotal(p) == |a.hdr| + |a.body| + conf.TrailerLen() && StartUsesCrc(p) == conf.UseCrc()
      && StartSuppressed(p) == a.Suppressed() && (StartLabel(p) == LABEL_SIGNAL <==> sdu.ptype == SIGNAL)
      && p[4..] == a.hdr + a.body[..|p| - 4 - |a.hdr|]
  {
    hide Encode, Protection;
    var a, all := Encode(conf, sdu), Line(conf, sdu, s);
    var supp := a.Suppressed();
    EncodeSizes(conf, sdu);
    hide StartHeader, FirstByte;
    StartHeaderRoundTrip(|p| - 2, id, conf.UseCrc(), |all|, LabelType(conf, sdu.ptype, supp), supp, all[..|p| - 4]);
    assert p[4..] == all[..|p| - 4];
  }

  /** What the context holds after the START of an SDU reached it while it was free. */
  ghost predicate Opened(conf: Config, sdu: Sdu, c: RxCtx, got: seq<byte>) {
    var body := Encode(conf, sdu).body;
    && c.busy && c.useCrc == conf.UseCrc() && c.expected == |body| && c.got == got
    && (Misread(conf, sdu) ==> Rebuild(c.ptype, c.compPtype, body) == None)
    && (!Misread(conf, sdu) ==> Rebuild(c.ptype, c.compPtype, body) == Some(sdu))
  }

  lemma StartOpens(conf: Config, id: FragId, sdu: Sdu, s: byte, p: Ppdu, c: RxCtx)
    requires IsStart(conf, id, sdu, s, p) && 1 <= |sdu.data| <= MAX_PDU_SIZE && !c.busy
    ensures var r, a := StepCtx(conf, c, p), Encode(conf, sdu);
      var n := |p| - 4 - |a.hdr|;
      && r.outcome == Accepted
      && 1 <= n <= |a.body|
      && Opened(conf, sdu, r.ctx, a.body[..n])
      && Line(conf, sdu, s)[|p| - 4..] == a.body[n..] + Protection(conf, sdu, s)
      && r.ctx.nextSeq == c.nextSeq && r.ctx.seqInit == c.seqInit && r.ctx.current == |p|
      && r.ctx.status == c.status.(sdusIn := c.status.sdusIn + 1, bytesIn := c.status.bytesIn + |p|)
  {
    hide Encode, Protection, ExtractFrag, Rebuild, Misread, StartHeader, TypeOf, StartTotal, StartUsesCrc,
      StartSuppressed, StartLabel, DropSdu;
    var a, all := Encode(conf, sdu), Line(conf, sdu, s);
    var n := |p| - 4 - |a.hdr|;
    HeaderOfStart(conf, id, sdu, s, p);
    EncodeSizes(conf, sdu);
    ExtractFirstFragment(conf, sdu, n);
    assert all[|p| - 4..] == a.body[n..] + Protection(conf, sdu, s);
  }

  /** The verdict of the receiver on a complete ALPDU. */
  predicate Accepts(conf: Config, sdu: Sdu, s: byte, c: RxCtx) {
    !Misread(conf, sdu) && InSync(conf, c, s)
  }

  /** Everything a complete ALPDU of `len` PPDU bytes changes in a context that was free before it. */
  function Settled(conf: Config, sdu: Sdu, s: byte, len: nat, c: RxCtx): LinkStatus {
    var st := c.status.(sdusIn := c.status.sdusIn + 1, bytesIn := c.status.bytesIn + len);
    if Accepts(conf, sdu, s, c) then
      st.(sdusOk := st.sdusOk + 1, bytesOk := st.bytesOk + |sdu.data|)
    else
      var lost := if Misread(conf, sdu) then 0 else LostCount(s, c.nextSeq);
      st.(sdusDropped := st.sdusDropped + 1, sdusLost := (st.sdusLost + lost) % TWO_TO_64,
          bytesDropped := st.bytesDropped + len)
  }

  ghost predicate ClosedBy(conf: Config, sdu: Sdu, s: byte, len: nat, c: RxCtx, after: RxCtx) {
    && !after.busy
    && after.status == Settled(conf, sdu, s, len, c)
    && after.current == len
    && (if conf.UseCrc() || Misread(conf, sdu) then after.nextSeq == c.nextSeq && after.seqInit == c.seqInit
        else after.nextSeq == NextSeq(s) && after.seqInit)
  }

  /** The context `c` was free; `now` is the same context with its ALPDU partly received. */
  ghost predicate Since(c: RxCtx, now: RxCtx) {
    && now.nextSeq == c.nextSeq && now.seqInit == c.seqInit
    && now.status == c.status.(sdusIn := c.status.sdusIn + 1, bytesIn := c.status.bytesIn + now.current)
  }

  lemma EndDecides(conf: Config, sdu: Sdu, s: byte, p: Ppdu, n: nat, c: RxCtx, now: RxCtx)
    requires |p| >= 2 && TypeOf(p) == EndFrag
    requires n <= |Encode(conf, sdu).body| && Opened(conf, sdu, now, Encode(conf, sdu).body[..n])
    requires p[2..] == Encode(conf, sdu).body[n..] + Protection(conf, sdu, s)
    requires Since(c, now)
    ensures var r := StepCtx(conf, now, p);
      && ClosedBy(conf, sdu, s, now.current + |p|, c, r.ctx)
      && r.outcome == if Accepts(conf, sdu, s, c) then Delivered(sdu) else Rejected
  {
    hide Encode, Rebuild, Misread, SduCrc, CrcBytes, TypeOf;
    var body, t := Encode(conf, sdu).body, Protection(conf, sdu, s);
    var frag := p[2..];
    assert frag[..|frag| - |t|] == body[n..] && frag[|frag| - |t|..] == t;
    assert body[..n] + body[n..] == body;
  }

  lemma ContAccepted(conf: Config, sdu: Sdu, s: byte, p: Ppdu, after: seq<byte>, n: nat, c: RxCtx, now: RxCtx)
    requires |p| >= 2 && TypeOf(p) == ContFrag
    requires n <= |Encode(conf, sdu).body| && Opened(conf, sdu, now, Encode(conf, sdu).body[..n])
    requires p[2..] + after == Encode(conf, sdu).body[n..] + Protection(conf, sdu, s)
    requires |after| >= |Protection(conf, sdu, s)| && Since(c, now)
    ensures var r, body, m := StepCtx(conf, now, p), Encode(conf, sdu).body, n + |p| - 2;
      && r.outcome == Accepted && m <= |body|
      && Opened(conf, sdu, r.ctx, body[..m]) && Since(c, r.ctx) && r.ctx.current == now.current + |p|
      && after == body[m..] + Protection(conf, sdu, s)
  {
    hide Encode, Rebuild, Misread, Protection, TypeOf;
    ContFits(Encode(conf, sdu).body, Protection(conf, sdu, s), p[2..], after, n);
  }

  /** Every fragment but the last is accepted, and the last decides what is delivered. */
  ghost predicate OneVerdict(os: seq<Outcome>, n: nat, sdus: seq<Sdu>) {
    && |os| == n && Aborted !in os
    && Deliveries(os) == sdus
    && forall i | 0 <= i < n - 1 :: os[i] == Accepted
  }

  lemma VerdictAfter(os: seq<Outcome>, n: nat, sdus: seq<Sdu>)
    requires OneVerdict(os, n, sdus)
    ensures OneVerdict([Accepted] + os, n + 1, sdus)
  {
    assert ([Accepted] + os)[1..] == os;
    assert [] + Deliveries(os) == Deliveries(os);
  }

  lemma VerdictOf(o: Outcome)
    requires o != Aborted
    ensures OneVerdict([o], 1, if o.Delivered? then [o.sdu] else [])
  {
    assert [o][1..] == [] && Deliveries([]) == [];
  }

  lemma RunFirst(conf: Config, c: RxCtx, ps: seq<Ppdu>)
    requires AllPpdus(ps) && ps != []
    ensures AllPpdus(ps[1..])
    ensures var r := StepCtx(conf, c, ps[0]);
      var rest := Run(conf, r.ctx, ps[1..]);
      Run(conf, c, ps) == RunResult(rest.ctx, [r.outcome] + rest.outcomes)
  {
    hide StepCtx;
  }

  /** The rest of an opened ALPDU, received in full: every CONT is accepted and the END decides. */
  lemma {:induction false} ReceiveTail(conf: Config, id: FragId, sdu: Sdu, s: byte, ps: seq<Ppdu>, n: nat,
                                       c: RxCtx, now: RxCtx)
    requires AllPpdus(ps) && IsTail(conf, id, ps)
    requires n <= |Encode(conf, sdu).body| && Opened(conf, sdu, now, Encode(conf, sdu).body[..n])
    requires TailBytes(ps) == Encode(conf, sdu).body[n..] + Protection(conf, sdu, s)
    requires Since(c, now)
    ensures var r := Run(conf, now, ps);
      && ClosedBy(conf, sdu, s, now.current + TotalLength(ps), c, r.ctx)
      && OneVerdict(r.outcomes, |ps|, if Accepts(conf, sdu, s, c) then [sdu] else [])
    decreases |ps|
  {
    hide Encode, Protection, TypeOf, Accepts, Opened, ClosedBy, Since, StepCtx, ContEndHeader, OneVerdict;
    var p, rest, body := ps[0], ps[1..], Encode(conf, sdu).body;
    HeaderOfTail(conf, id, ps);
    if |ps| == 1 {
      assert TailBytes(ps) == p[2..] + TailBytes(rest) == p[2..];
      EndDecides(conf, sdu, s, p, n, c, now);
      assert Run(conf, StepCtx(conf, now, p).ctx, rest) == RunResult(StepCtx(conf, now, p).ctx, []);
      RunFirst(conf, now, ps);
      var o := StepCtx(conf, now, p).outcome;
      VerdictOf(o);
      assert [o] + [] == [o];
      assert TotalLength(ps) == |p| + TotalLength(rest) == |p|;
    } else {
      TailShape(conf, id, rest);
      var m := n + |p| - 2;
      ContAccepted(conf, sdu, s, p, TailBytes(rest), n, c, now);
      RunFirst(conf, now, ps);
      ReceiveTail(conf, id, sdu, s, rest, m, c, StepCtx(conf, now, p).ctx);
      var r := Run(conf, StepCtx(conf, now, p).ctx, rest);
      hide Run;
      VerdictAfter(r.outcomes, |rest|, if Accepts(conf, sdu, s, c) then [sdu] else []);
    }
  }

  /** A CONT payload lies inside the SDU when the bytes after it still hold the trailer. */
  lemma ContFits(body: seq<byte>, t: seq<byte>, payload: seq<byte>, after: seq<byte>, n: nat)
    requires n <= |body| && payload + after == body[n..] + t && |after| >= |t|
    ensures n + |payload| <= |body|
    ensures body[..n] + payload == body[..n + |payload|]
    ensures after == body[n + |payload|..] + t
  {
    var all := body[n..] + t;
    assert payload == all[..|payload|] && after == all[|payload|..];
  }

  lemma FragmentsShape(conf: Config, id: FragId, sdu: Sdu, s: byte, ps: seq<Ppdu>)
    requires SentInFragments(conf, id, sdu, s, ps)
    ensures AllPpdus(ps) && AllPpdus(ps[1..])
  {
    hide Encode, Protection, StartHeader;
    TailShape(conf, id, ps[1..]);
    assert forall p | p in ps :: p == ps[0] || p in ps[1..];
  }

  /** One SDU, sent in fragments and received in full by a free context. */
  lemma ReceiveFragments(conf: Config, id: FragId, sdu: Sdu, s: byte, ps: seq<Ppdu>, c: RxCtx)
    requires SentInFragments(conf, id, sdu, s, ps) && 1 <= |sdu.data| <= MAX_PDU_SIZE && !c.busy
    ensures AllPpdus(ps)
    ensures var r := Run(conf, c, ps);
      && ClosedBy(conf, sdu, s, TotalLength(ps), c, r.ctx)
      && OneVerdict(r.outcomes, |ps|, if Accepts(conf, sdu, s, c) then [sdu] else [])
  {
    hide Encode, Rebuild, Misread, Protection, Line, TypeOf, Accepts, Opened, ClosedBy, StepCtx, OneVerdict, Run,
      IsStart, IsTail, TailBytes, AllPpdus;
    FragmentsShape(conf, id, sdu, s, ps);
    StartOpens(conf, id, sdu, s, ps[0], c);
    var first := StepCtx(conf, c, ps[0]);
    var n := |ps[0]| - 4 - |Encode(conf, sdu).hdr|;
    RunFirst(conf, c, ps);
    ReceiveTail(conf, id, sdu, s, ps[1..], n, c, first.ctx);
    VerdictAfter(Run(conf, first.ctx, ps[1..]).outcomes, |ps[1..]|, if Accepts(conf, sdu, s, c) then [sdu] else []);
  }

  /** One SDU sent whole. */
  lemma ReceiveWhole(conf: Config, sdu: Sdu, ps: seq<Ppdu>, c: RxCtx)
    requires SentWhole(conf, sdu, ps) && 1 <= |sdu.data| <= MAX_PDU_SIZE
    ensures AllPpdus(ps) && |ps| == 1 && TypeOf(ps[0]) == Complete
    ensures LengthOf(ps[0]) == |ps[0]|
    ensures StepComp(conf, ps[0]) == (if Misread(conf, sdu) then Rejected else Delivered(sdu))
    ensures Run(conf, c, ps) == RunResult(c, [StepComp(conf, ps[0])])
  {
    hide Encode, Rebuild, Misread, ExtractFrag;
    var a := Encode(conf, sdu);
    CompHeaderRoundTrip(|a.Bytes()|, LabelType(conf, sdu.ptype, a.Suppressed()), a.Suppressed(), a.Bytes());
    CodecRoundTrip(conf, sdu);
    assert ps[0][2..] == a.Bytes();
    assert Run(conf, c, ps[1..]) == RunResult(c, []);
  }

  /** End-to-end round trip with its exact condition. For every configuration shared by both ends, every SDU the
      transmitter accepts and every list of burst sizes that empties the queue, refused bursts included, a free
      and synchronised receiver context delivers exactly one SDU, the one that was sent, and is free again, if
      and only if the SDU is not in the misread family; in that family it delivers nothing. */
  lemma EndToEnd(conf: Config, id: FragId, sdu: Sdu, s: byte, bursts: seq<nat>, c: RxCtx)
    requires 1 <= |sdu.data| <= MAX_PDU_SIZE
    requires Drain(conf, id, NewJob(conf, sdu), s, bursts).job == Idle
    requires !c.busy && InSync(conf, c, s)
    ensures var ps := Drain(conf, id, NewJob(conf, sdu), s, bursts).ppdus;
      && AllPpdus(ps)
      && var r := Run(conf, c, ps);
         && !r.ctx.busy && Aborted !in r.outcomes
         && (Deliveries(r.outcomes) == [sdu] <==> !Misread(conf, sdu))
         && (Deliveries(r.outcomes) == [] <==> Misread(conf, sdu))
  {
    hide NewJob, SentInFragments, SentWhole, Misread, Settled, StepCtx, StepComp;
    var d := Drain(conf, id, NewJob(conf, sdu), s, bursts);
    DrainWhole(conf, id, sdu, s, bursts);
    if SentWhole(conf, sdu, d.ppdus) {
      ReceiveWhole(conf, sdu, d.ppdus, c);
    } else {
      ReceiveFragments(conf, id, sdu, s, d.ppdus, c);
    }
  }

  /** Bursts of eight bytes or more, as many as there are bytes to send, always empty the queue. */
  lemma {:induction false} EightByteBurstsDrain(conf: Config, id: FragId, job: TxJob, s: byte, bursts: seq<nat>)
    requires JobOk(conf, job)
    requires (forall b | b in bursts :: b >= 8) && |bursts| >= Measure(conf, job)
    ensures Drain(conf, id, job, s, bursts).job == Idle
    decreases |bursts|
  {
    hide CutOne;
    if job != Idle && bursts != [] {
      assert bursts[0] in bursts && forall b | b in bursts[1..] :: b in bursts;
      CutOneKeepsJobOk(conf, id, job, s, bursts[0]);
      RefusedExactly(conf, id, job, s, bursts[0]);
      MeasureDecreases(conf, id, job, s, bursts[0]);
      var next := CutOne(conf, id, job, s, bursts[0]).value;
      EightByteBurstsDrain(conf, id, next.job, next.seqNb, bursts[1..]);
    }
  }
}
