/** Sequence numbers when whole ALPDUs are lost: which of the others are delivered, and what is counted as lost. */
module Resync {
  import opened Bytes
  import opened Conf
  import opened AlpduCodec
  import opened Trailer
  import opened Ctx
  import opened Receive
  import opened RoundTrip
  import opened Lossy
  import opened Fragments

  /** One ALPDU received in full: whether its SDU came out, and the context afterwards. */
  datatype Verdict = Verdict(sdus: seq<Sdu>, ctx: RxCtx)

  function Verdicts(conf: Config, c: RxCtx, ships: seq<Shipment>): (v: seq<Verdict>)
    requires forall i | 0 <= i < |ships| :: AllPpdus(ships[i].ppdus)
    ensures |v| == |ships|
    decreases |ships|
  {
    if ships == [] then []
    else
      var r := Run(conf, c, ships[0].ppdus);
      [Verdict(Deliveries(r.outcomes), r.ctx)] + Verdicts(conf, r.ctx, ships[1..])
  }

  /** The ALPDUs numbered `ks` are the ones that were not lost. */
  ghost predicate Arrived(conf: Config, id: FragId, first: byte, ks: seq<nat>, ships: seq<Shipment>) {
    && |ks| == |ships|
    && forall i | 0 <= i < |ships| ::
         Shipped(conf, id, ships[i], SeqOf(first, ks[i])) && AllPpdus(ships[i].ppdus)
  }

  /** What the check of ALPDU `k` must do to a context `c` that was free before it. A misread SDU is rejected before
      its number is looked at. */
  ghost predicate Judged(conf: Config, first: byte, k: nat, sdu: Sdu, c: RxCtx, v: Verdict) {
    var s := SeqOf(first, k);
    && !v.ctx.busy
    && if Misread(conf, sdu) then
         && v.sdus == [] && v.ctx.seqInit == c.seqInit && v.ctx.nextSeq == c.nextSeq
         && v.ctx.status.sdusLost == c.status.sdusLost % TWO_TO_64
       else
         && v.sdus == (if !c.seqInit || s == c.nextSeq || s == 0 then [sdu] else [])
         && v.ctx.seqInit && v.ctx.nextSeq == SeqOf(first, k + 1)
         && v.ctx.status.sdusLost == (if v.sdus != [] then c.status.sdusLost
                                      else (c.status.sdusLost + LostCount(s, c.nextSeq)) % TWO_TO_64)
  }

  function Before(c: RxCtx, v: seq<Verdict>, i: nat): RxCtx
    requires i <= |v|
  {
    if i == 0 then c else v[i - 1].ctx
  }

  ghost predicate JudgedAt(conf: Config, first: byte, ks: seq<nat>, ships: seq<Shipment>, c: RxCtx,
                           v: seq<Verdict>, i: nat)
    requires i < |ks| == |ships| == |v|
  {
    Judged(conf, first, ks[i], ships[i].sdu, Before(c, v, i), v[i])
  }

  lemma JudgeOne(conf: Config, id: FragId, ship: Shipment, first: byte, k: nat, c: RxCtx)
    requires !conf.UseCrc() && Shipped(conf, id, ship, SeqOf(first, k)) && !c.busy
    ensures AllPpdus(ship.ppdus)
    ensures var r := Run(conf, c, ship.ppdus);
      Judged(conf, first, k, ship.sdu, c, Verdict(Deliveries(r.outcomes), r.ctx))
  {
    hide SentInFragments, Run, Deliveries, Misread;
    ReceiveFragments(conf, id, ship.sdu, SeqOf(first, k), ship.ppdus, c);
    assert NextSeq(SeqOf(first, k)) == SeqOf(first, k + 1);
  }

  /** Each ALPDU that arrives is judged against the one that arrived before it, and resynchronises the context
      whether it is delivered or not. */
  lemma {:induction false} EachIsJudged(conf: Config, id: FragId, first: byte, ks: seq<nat>,
                                        ships: seq<Shipment>, c: RxCtx)
    requires !conf.UseCrc() && Arrived(conf, id, first, ks, ships) && !c.busy
    ensures forall i: nat | i < |ships| :: JudgedAt(conf, first, ks, ships, c, Verdicts(conf, c, ships), i)
    decreases |ships|
  {
    hide Shipped, Run, Deliveries, Misread, Judged;
    if ships != [] {
      JudgeOne(conf, id, ships[0], first, ks[0], c);
      var r := Run(conf, c, ships[0].ppdus);
      var v0 := Verdict(Deliveries(r.outcomes), r.ctx);
      assert !r.ctx.busy by {
        FreeAfter(conf, first, ks[0], ships[0].sdu, c, v0);
      }
      EachIsJudged(conf, id, first, ks[1..], ships[1..], r.ctx);
      var v, w := Verdicts(conf, c, ships), Verdicts(conf, r.ctx, ships[1..]);
      assert v == [v0] + w;
      forall i: nat | i < |ships| ensures JudgedAt(conf, first, ks, ships, c, v, i) {
        if i > 0 {
          assert JudgedAt(conf, first, ks[1..], ships[1..], r.ctx, w, i - 1);
          assert Before(r.ctx, w, i - 1) == Before(c, v, i);
        }
      }
    }
  }

  lemma FreeAfter(conf: Config, first: byte, k: nat, sdu: Sdu, c: RxCtx, v: Verdict)
    requires Judged(conf, first, k, sdu, c, v)
    ensures !v.ctx.busy
  {
  }

  /** Numbers and gaps: with at most 255 ALPDUs missing, the number fits exactly when none is missing, and the
      reported count is the number missing exactly when the numbers did not wrap inside the gap. */
  lemma GapLaw(first: byte, a: nat, b: nat)
    requires a < b <= a + 256
    ensures SeqOf(first, b) == SeqOf(first, a + 1) <==> b == a + 1
    ensures Missing(SeqOf(first, b), SeqOf(first, a + 1)) == b - a - 1
    ensures LostCount(SeqOf(first, b), SeqOf(first, a + 1)) == b - a - 1 <==> SeqOf(first, b) >= SeqOf(first, a + 1)
  {
    var x: int, y: int := SeqOf(first, b), SeqOf(first, a + 1);
    assert (x - y) % 256 == b - a - 1 by {
      var p, q := (first + b) / 256, (first + a + 1) / 256;
      assert x - y == (b - a - 1) - 256 * (p - q);
      ModShift(b - a - 1, p - q);
    }
    LostCountExact(x, y);
  }

  lemma ModShift(r: nat, m: int)
    requires r < 256
    ensures (r - 256 * m) % 256 == r
  {
  }

  /** The first ALPDU that a fresh context receives. */
  ghost predicate FirstVerdict(first: byte, k: nat, sdu: Sdu, v: Verdict) {
    v.sdus == [sdu] && v.ctx.seqInit && v.ctx.nextSeq == SeqOf(first, k + 1)
  }

  /** ALPDU `b`, when `a` is the one that arrived before it and `lost` was the lost counter in between. */
  ghost predicate LaterVerdict(first: byte, a: nat, b: nat, sdu: Sdu, lost: nat, v: Verdict) {
    && v.ctx.seqInit && v.ctx.nextSeq == SeqOf(first, b + 1)
    && (b == a + 1 || SeqOf(first, b) == 0 ==> v.sdus == [sdu] && v.ctx.status.sdusLost == lost)
    && (!(b == a + 1 || SeqOf(first, b) == 0) ==>
          && v.sdus == []
          && (lost + 256 < TWO_TO_64 ==>
                (v.ctx.status.sdusLost == lost + (b - a - 1) <==> SeqOf(first, b) >= SeqOf(first, a + 1))))
  }

  /** The 64-bit sum is the plain one exactly when the count was. */
  lemma CountedExactly(lost: nat, received: byte, awaited: byte, gap: nat)
    requires lost + 256 < TWO_TO_64 && gap < 256
    ensures (lost + LostCount(received, awaited)) % TWO_TO_64 == lost + gap <==> LostCount(received, awaited) == gap
  {
    var d: int := awaited - received;
    if received < awaited {
      if lost >= d {
        assert lost + LostCount(received, awaited) == (lost - d) + TWO_TO_64;
      }
    }
  }

  lemma LaterIsJudged(conf: Config, first: byte, a: nat, b: nat, sdu: Sdu, c: RxCtx, v: Verdict)
    requires a < b <= a + 256 && c.seqInit && c.nextSeq == SeqOf(first, a + 1)
    requires Judged(conf, first, b, sdu, c, v) && !Misread(conf, sdu)
    ensures LaterVerdict(first, a, b, sdu, c.status.sdusLost, v)
  {
    hide SeqOf, Misread, LostCount;
    GapLaw(first, a, b);
    if c.status.sdusLost + 256 < TWO_TO_64 {
      CountedExactly(c.status.sdusLost, SeqOf(first, b), SeqOf(first, a + 1), b - a - 1);
    }
  }

  /** The number of the last ALPDU before arrival `i` that the receiver could read. */
  function LastRead(conf: Config, ks: seq<nat>, ships: seq<Shipment>, i: nat): Option<nat>
    requires i <= |ks| == |ships|
  {
    if i == 0 then None
    else if Misread(conf, ships[i - 1].sdu) then LastRead(conf, ks, ships, i - 1)
    else Some(ks[i - 1])
  }

  lemma {:induction false} AwaitsAfterLast(conf: Config, first: byte, ks: seq<nat>, ships: seq<Shipment>, c: RxCtx,
                                           v: seq<Verdict>, i: nat)
    requires i <= |ks| == |ships| == |v| && !c.seqInit
    requires forall j: nat | j < i :: JudgedAt(conf, first, ks, ships, c, v, j)
    ensures var now, last := Before(c, v, i), LastRead(conf, ks, ships, i);
      (now.seqInit <==> last.Some?) && (last.Some? ==> now.nextSeq == SeqOf(first, last.value + 1))
  {
    hide Misread, SeqOf;
    if i > 0 {
      AwaitsAfterLast(conf, first, ks, ships, c, v, i - 1);
      assert JudgedAt(conf, first, ks, ships, c, v, i - 1);
    }
  }

  /** The verdict on arrival `i`. */
  ghost predicate VerdictAt(conf: Config, first: byte, ks: seq<nat>, ships: seq<Shipment>, c: RxCtx,
                            v: seq<Verdict>, i: nat)
    requires i < |ks| == |ships| == |v|
  {
    var before, sdu, last := Before(c, v, i), ships[i].sdu, LastRead(conf, ks, ships, i);
    if Misread(conf, sdu) then
      && v[i].sdus == [] && v[i].ctx.seqInit == before.seqInit && v[i].ctx.nextSeq == before.nextSeq
      && (before.status.sdusLost < TWO_TO_64 ==> v[i].ctx.status.sdusLost == before.status.sdusLost)
    else
      && (last.None? ==> FirstVerdict(first, ks[i], sdu, v[i]))
      && (last.Some? ==> LaterVerdict(first, last.value, ks[i], sdu, before.status.sdusLost, v[i]))
  }

  lemma JudgedIsVerdict(conf: Config, first: byte, ks: seq<nat>, ships: seq<Shipment>, c: RxCtx, v: seq<Verdict>,
                        i: nat)
    requires i < |ks| == |ships| == |v| && JudgedAt(conf, first, ks, ships, c, v, i)
    requires var now, last := Before(c, v, i), LastRead(conf, ks, ships, i);
      && (now.seqInit <==> last.Some?)
      && (last.Some? ==> now.nextSeq == SeqOf(first, last.value + 1) && last.value < ks[i] <= last.value + 256)
    ensures VerdictAt(conf, first, ks, ships, c, v, i)
  {
    hide Misread, SeqOf, LostCount, LaterVerdict, LastRead, Before;
    var last := LastRead(conf, ks, ships, i);
    if !Misread(conf, ships[i].sdu) && last.Some? {
      LaterIsJudged(conf, first, last.value, ks[i], ships[i].sdu, Before(c, v, i), v[i]);
    }
  }

  /** Resynchronisation over whole-ALPDU loss, misread SDUs among the arrivals included. The first ALPDU that a fresh
      context can read is delivered; any later one is delivered if and only if no number is missing since the last one
      it could read, or its own number is zero; after each it awaits the next number; and for each rejected one the
      lost counter, below its 64-bit bound, grows by exactly the number of ALPDUs missing if and only if the numbers
      did not wrap in the gap. A misread SDU is rejected and moves nothing, so it counts as missing for the next. */
  lemma Resynchronises(conf: Config, id: FragId, first: byte, ks: seq<nat>, ships: seq<Shipment>, c: RxCtx)
    requires !conf.UseCrc() && Arrived(conf, id, first, ks, ships) && !c.busy && !c.seqInit
    requires forall i: nat | i < |ks| ::
      var last := LastRead(conf, ks, ships, i); last.Some? ==> last.value < ks[i] <= last.value + 256
    ensures forall i: nat | i < |ships| :: VerdictAt(conf, first, ks, ships, c, Verdicts(conf, c, ships), i)
  {
    hide Shipped, Misread, SeqOf, Verdicts, LastRead, JudgedAt, VerdictAt, AllPpdus, Before;
    var v := Verdicts(conf, c, ships);
    EachIsJudged(conf, id, first, ks, ships, c);
    forall i: nat | i < |ships| ensures VerdictAt(conf, first, ks, ships, c, v, i) {
      AwaitsAfterLast(conf, first, ks, ships, c, v, i);
      assert LastRead(conf, ks, ships, i).Some? ==>
        LastRead(conf, ks, ships, i).value < ks[i] <= LastRead(conf, ks, ships, i).value + 256;
      JudgedIsVerdict(conf, first, ks, ships, c, v, i);
    }
  }
}
