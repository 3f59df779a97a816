/** What a reassembly buffer holds, over whole runs of arbitrary PPDUs (src/reassembly.c, src/reassembly_buffer.c). */
module Collecting {
  import opened Bytes
  import opened Conf
  import opened AlpduCodec
  import opened ProtoType
  import opened PpduHeader
  import opened Receive
  import opened RoundTrip

  /** The SDU bytes of an accepted START. */
  function StartBytes(conf: Config, p: Ppdu): seq<byte>
    requires |p| >= 2
  {
    if |p| < 4 then []
    else match ExtractFrag(conf, StartSuppressed(p), StartLabel(p) == LABEL_SIGNAL, p[4..])
      case None => []
      case Some(x) => x.sduFrag
  }

  /** The bookkeeping of an observer who sees only PPDUs and return codes: the bytes of the accepted fragments since
      the last accepted START. */
  function Observe(conf: Config, p: Ppdu, o: Outcome, seen: seq<byte>): seq<byte>
    requires |p| >= 2
  {
    if o != Accepted then seen
    else if TypeOf(p) == StartFrag then StartBytes(conf, p)
    else seen + p[2..]
  }

  function Collected(conf: Config, c: RxCtx, ps: seq<Ppdu>, seen: seq<byte>): seq<byte>
    requires AllPpdus(ps)
    decreases |ps|
  {
    if ps == [] then seen
    else
      var r := StepCtx(conf, c, ps[0]);
      Collected(conf, r.ctx, ps[1..], Observe(conf, ps[0], r.outcome, seen))
  }

  lemma StepCollects(conf: Config, c: RxCtx, p: Ppdu, seen: seq<byte>)
    requires |p| >= 2 && (c.busy ==> c.got == seen)
    ensures var r := StepCtx(conf, c, p);
      r.ctx.busy ==> r.ctx.got == Observe(conf, p, r.outcome, seen)
  {
    hide ExtractFrag, Rebuild, TypeOf, StepSettled;
    if TypeOf(p) == EndFrag {
      EndFrees(c, p);
    }
  }

  lemma EndFrees(c: RxCtx, p: Ppdu)
    requires |p| >= 2
    ensures !StepEnd(c, p).ctx.busy && StepEnd(c, p).outcome != Accepted
  {
    hide Rebuild;
  }

  /** Reassembly invariant over any run of any PPDUs, in order or not: while the context is busy its buffer holds
      exactly the bytes of the fragments accepted since its START, and never more than the START announced. */
  lemma {:induction false} BufferIsCollected(conf: Config, c: RxCtx, ps: seq<Ppdu>, seen: seq<byte>)
    requires AllPpdus(ps) && RxOk(c) && (c.busy ==> c.got == seen)
    ensures var after := Run(conf, c, ps).ctx;
      && RxOk(after)
      && (after.busy ==> after.got == Collected(conf, c, ps, seen) && |after.got| <= after.expected <= MAX_EXPECTED)
    decreases |ps|
  {
    hide StepCtx, Observe;
    if ps != [] {
      var r := StepCtx(conf, c, ps[0]);
      StepKeepsRxOk(conf, c, ps[0]);
      StepCollects(conf, c, ps[0], seen);
      BufferIsCollected(conf, r.ctx, ps[1..], Observe(conf, ps[0], r.outcome, seen));
    }
  }
}
