/** Sequence numbers over a channel that may drop any PPDUs: no SDU is ever put together from two. */
module Lossy {
  import opened Bytes
  import opened Conf
  import opened ProtoType
  import opened AlpduCodec
  import opened PpduHeader
  import opened Ctx
  import opened Fragments
  import opened Receive
  import opened RoundTrip

  /** A fragmented ALPDU as it was put on the line. */
  datatype Shipment = Shipment(sdu: Sdu, ppdus: seq<Ppdu>)

  /** The sequence number of the k-th fragmented ALPDU of one fragment id. */
  function SeqOf(first: byte, k: nat): byte {
    (first + k) % 256
  }

  ghost predicate Shipped(conf: Config, id: FragId, ship: Shipment, s: byte) {
    1 <= |ship.sdu.data| <= MAX_PDU_SIZE && SentInFragments(conf, id, ship.sdu, s, ship.ppdus)
  }

  /** The PPDUs that the channel does not drop, in their order. */
  function Survivors(ps: seq<Ppdu>, keep: seq<bool>): seq<Ppdu>
    requires |ps| == |keep|
  {
    if ps == [] then [] else (if keep[0] then [ps[0]] else []) + Survivors(ps[1..], keep[1..])
  }

  lemma {:induction false} SurvivorsArePpdus(ps: seq<Ppdu>, keep: seq<bool>)
    requires |ps| == |keep| && AllPpdus(ps)
    ensures AllPpdus(Survivors(ps, keep))
  {
    if ps != [] {
      assert ps[0] in ps && forall p | p in ps[1..] :: p in ps;
      SurvivorsArePpdus(ps[1..], keep[1..]);
    }
  }

  /** An END that gets as far as the trailer check. */
  predicate ReachesCheck(conf: Config, c: RxCtx, p: Ppdu)
    requires |p| >= 2
  {
    var trailerLen := if c.useCrc then 4 else 1;
    && TypeOf(p) == EndFrag && c.busy && |p| >= 2 + trailerLen
    && var got := c.got + p[2..|p| - trailerLen];
       |got| == c.expected && Rebuild(c.ptype, c.compPtype, got).Some?
  }

  predicate Checked(conf: Config, c: RxCtx, ps: seq<Ppdu>)
    requires AllPpdus(ps)
    decreases |ps|
  {
    ps != [] && (ReachesCheck(conf, c, ps[0]) || Checked(conf, StepCtx(conf, c, ps[0]).ctx, ps[1..]))
  }

  /** One delivery: the ALPDU whose END caused it, the last ALPDU before it whose END reached the trailer check,
      and the SDU delivered. */
  datatype Entry = Entry(k: nat, last: Option<nat>, sdu: Sdu)

  function Tag(k: nat, last: Option<nat>, sdus: seq<Sdu>): seq<Entry> {
    seq(|sdus|, i requires 0 <= i < |sdus| => Entry(k, last, sdus[i]))
  }

  /** Everything one context delivers from ALPDU `k` on, when `keeps` says which PPDUs arrive. */
  function History(conf: Config, c: RxCtx, last: Option<nat>, k: nat, ships: seq<Shipment>, keeps: seq<seq<bool>>)
    : seq<Entry>
    requires |ships| == |keeps|
    requires forall i | 0 <= i < |ships| :: |ships[i].ppdus| == |keeps[i]| && AllPpdus(ships[i].ppdus)
    decreases |ships|
  {
    if ships == [] then []
    else
      SurvivorsArePpdus(ships[0].ppdus, keeps[0]);
      var ps := Survivors(ships[0].ppdus, keeps[0]);
      var r := Run(conf, c, ps);
      var last' := if Checked(conf, c, ps) then Some(k) else last;
      Tag(k, last, Deliveries(r.outcomes)) + History(conf, r.ctx, last', k + 1, ships[1..], keeps[1..])
  }

  /** Between two ALPDUs: the expected number follows the last checked one, and a context still busy was opened
      after it, so at least one more ALPDU was started. */
  ghost predicate Between(first: byte, c: RxCtx, last: Option<nat>, k: nat) {
    && (c.seqInit <==> last.Some?)
    && (last.Some? ==> last.value < k && c.nextSeq == SeqOf(first, last.value + 1))
    && (c.busy ==> !c.useCrc && (last.Some? ==> last.value + 1 < k))
  }

  /** What the trailer check leaves behind, or its absence, for PPDUs of an ALPDU numbered `s`. */
  ghost predicate After(s: byte, c: RxCtx, checked: bool, r: RunResult) {
    && (checked ==> r.ctx.seqInit && r.ctx.nextSeq == NextSeq(s) && !r.ctx.busy)
    && (!checked ==> r.ctx.seqInit == c.seqInit && r.ctx.nextSeq == c.nextSeq && (r.ctx.busy ==> !r.ctx.useCrc))
    && (Deliveries(r.outcomes) != [] ==> checked && (!c.seqInit || s == c.nextSeq || s == 0))
  }

  lemma StepWithoutEnd(conf: Config, c: RxCtx, p: Ppdu)
    requires |p| >= 2 && TypeOf(p) == ContFrag
    ensures var r := StepCtx(conf, c, p);
      && !r.outcome.Delivered? && r.ctx.seqInit == c.seqInit && r.ctx.nextSeq == c.nextSeq
      && r.ctx.useCrc == c.useCrc && (r.ctx.busy ==> c.busy)
      && (r.ctx.busy ==> r.ctx == CountIn(c, |p|).(got := c.got + p[2..]) && |r.ctx.got| <= c.expected)
  {
    hide TypeOf;
  }

  lemma StepWithEnd(conf: Config, c: RxCtx, p: Ppdu, s: byte)
    requires |p| >= 3 && TypeOf(p) == EndFrag && p[|p| - 1] == s && (c.busy ==> !c.useCrc)
    ensures var r := StepCtx(conf, c, p);
      && After(s, c, ReachesCheck(conf, c, p), RunResult(r.ctx, [r.outcome]))
      && !r.ctx.busy
      && (r.outcome.Delivered? ==>
            var got := c.got + p[2..|p| - 1];
            c.busy && |got| == c.expected && Rebuild(c.ptype, c.compPtype, got) == Some(r.outcome.sdu))
  {
    hide TypeOf, Rebuild;
    var n := |p| - 3;
    assert p[2..][..n] == p[2..|p| - 1] && p[2..][n..] == [s];
    assert Deliveries([StepCtx(conf, c, p).outcome][1..]) == [];
  }

  lemma RunCons(conf: Config, c: RxCtx, p: Ppdu, rest: seq<Ppdu>)
    requires |p| >= 2 && AllPpdus(rest)
    ensures AllPpdus([p] + rest)
    ensures var first := StepCtx(conf, c, p);
      && Run(conf, c, [p] + rest).ctx == Run(conf, first.ctx, rest).ctx
      && Deliveries(Run(conf, c, [p] + rest).outcomes) ==
           (if first.outcome.Delivered? then [first.outcome.sdu] else []) + Deliveries(Run(conf, first.ctx, rest).outcomes)
      && Checked(conf, c, [p] + rest) == (ReachesCheck(conf, c, p) || Checked(conf, first.ctx, rest))
  {
    hide StepCtx, ReachesCheck;
    assert ([p] + rest)[1..] == rest;
    var r := Run(conf, c, [p] + rest);
    assert r.outcomes[1..] == Run(conf, StepCtx(conf, c, p).ctx, rest).outcomes;
  }

  lemma AfterCont(conf: Config, c: RxCtx, p: Ppdu, rest: seq<Ppdu>, s: byte)
    requires |p| >= 2 && TypeOf(p) == ContFrag && AllPpdus(rest)
    requires var c' := StepCtx(conf, c, p).ctx; After(s, c', Checked(conf, c', rest), Run(conf, c', rest))
    ensures AllPpdus([p] + rest)
    ensures After(s, c, Checked(conf, c, [p] + rest), Run(conf, c, [p] + rest))
    ensures Deliveries(Run(conf, c, [p] + rest).outcomes) ==
      Deliveries(Run(conf, StepCtx(conf, c, p).ctx, rest).outcomes)
    ensures Run(conf, c, [p] + rest).ctx == Run(conf, StepCtx(conf, c, p).ctx, rest).ctx
  {
    hide TypeOf, StepCtx, ReachesCheck, Run, Checked, Deliveries;
    StepWithoutEnd(conf, c, p);
    NotAnEnd(conf, c, p);
    RunCons(conf, c, p, rest);
  }

  /** The first PPDU of CONT* END and the rest, with and without losses. */
  lemma TailStep(conf: Config, id: FragId, ps: seq<Ppdu>, keep: seq<bool>)
    requires IsTail(conf, id, ps) && |keep| == |ps|
    ensures AllPpdus(Survivors(ps, keep)) && |ps| > 0 && |ps[0]| >= 3
    ensures TypeOf(ps[0]) == if |ps| == 1 then EndFrag else ContFrag
    ensures |ps| == 1 ==> TailBytes(ps) == ps[0][2..] && Survivors(ps, keep) == if keep[0] then [ps[0]] else []
    ensures |ps| > 1 ==>
      && IsTail(conf, id, ps[1..]) && |TailBytes(ps[1..])| >= 1
      && TailBytes(ps) == ps[0][2..] + TailBytes(ps[1..])
      && AllPpdus(Survivors(ps[1..], keep[1..]))
      && Survivors(ps, keep) ==
           if keep[0] then [ps[0]] + Survivors(ps[1..], keep[1..]) else Survivors(ps[1..], keep[1..])
  {
    TailShape(conf, id, ps);
    SurvivorsArePpdus(ps, keep);
    HeaderOfTail(conf, id, ps);
    hide TypeOf, ContEndHeader;
    if |ps| == 1 {
      assert TailBytes(ps) == ps[0][2..] + TailBytes(ps[1..]) == ps[0][2..];
    } else {
      TailShape(conf, id, ps[1..]);
      SurvivorsArePpdus(ps[1..], keep[1..]);
    }
  }

  /** Any subset of the CONTs and the END of one ALPDU, fed to any context. */
  lemma {:induction false} AnyTail(conf: Config, id: FragId, ps: seq<Ppdu>, keep: seq<bool>, s: byte, c: RxCtx)
    requires !conf.UseCrc() && IsTail(conf, id, ps) && |keep| == |ps|
    requires TailBytes(ps) != [] && TailBytes(ps)[|TailBytes(ps)| - 1] == s
    requires c.busy ==> !c.useCrc
    ensures AllPpdus(Survivors(ps, keep))
    ensures var kept := Survivors(ps, keep);
      After(s, c, Checked(conf, c, kept), Run(conf, c, kept))
    ensures !c.busy ==> Deliveries(Run(conf, c, Survivors(ps, keep)).outcomes) == []
                        && !Run(conf, c, Survivors(ps, keep)).ctx.busy
    decreases |ps|
  {
    hide TypeOf, StepCtx, ReachesCheck, After, Checked, Run, Deliveries, IsTail, TailBytes, Survivors;
    TailStep(conf, id, ps, keep);
    var p := ps[0];
    if |ps| == 1 {
      OnlyEnd(conf, c, p, s, Survivors(ps, keep));
    } else if keep[0] {
      StepWithoutEnd(conf, c, p);
      AnyTail(conf, id, ps[1..], keep[1..], s, StepCtx(conf, c, p).ctx);
      AfterCont(conf, c, p, Survivors(ps[1..], keep[1..]), s);
    } else {
      AnyTail(conf, id, ps[1..], keep[1..], s, c);
    }
  }

  lemma OnlyEnd(conf: Config, c: RxCtx, p: Ppdu, s: byte, kept: seq<Ppdu>)
    requires |p| >= 3 && TypeOf(p) == EndFrag && p[|p| - 1] == s && (c.busy ==> !c.useCrc)
    requires kept == [] || kept == [p]
    ensures After(s, c, Checked(conf, c, kept), Run(conf, c, kept))
    ensures !c.busy ==> Deliveries(Run(conf, c, kept).outcomes) == [] && !Run(conf, c, kept).ctx.busy
  {
    hide TypeOf, StepCtx, ReachesCheck;
    if kept == [p] {
      StepWithEnd(conf, c, p, s);
      EndIsChecked(conf, c, p);
      assert kept[1..] == [];
      assert Run(conf, c, kept) == RunResult(StepCtx(conf, c, p).ctx, [StepCtx(conf, c, p).outcome]);
    }
  }

  lemma EndIsChecked(conf: Config, c: RxCtx, p: Ppdu)
    requires |p| >= 2
    ensures Checked(conf, c, [p]) == ReachesCheck(conf, c, p)
    ensures !c.busy ==> !ReachesCheck(conf, c, p)
  {
    hide StepCtx;
    assert [p][1..] == [];
  }

  lemma NotAnEnd(conf: Config, c: RxCtx, p: Ppdu)
    requires |p| >= 2 && TypeOf(p) != EndFrag
    ensures !ReachesCheck(conf, c, p)
  {
  }

  /** A context opened by the START of `sdu`, after any subset of the SDU bytes before offset `m` arrived: it has no
      more than `m` bytes, and if it has that many, they are the right ones. */
  ghost predicate Collecting(conf: Config, sdu: Sdu, c: RxCtx, m: nat) {
    var body := Encode(conf, sdu).body;
    && m <= |body|
    && (c.busy ==>
      && !c.useCrc && c.expected == |body|
      && |c.got| <= m && (|c.got| == m ==> c.got == body[..m])
      && (Rebuild(c.ptype, c.compPtype, body) == None || Rebuild(c.ptype, c.compPtype, body) == Some(sdu)))
  }

  lemma CollectCont(conf: Config, sdu: Sdu, c: RxCtx, m: nat, p: Ppdu, after: seq<byte>, s: byte, kept: bool)
    requires |p| >= 2 && TypeOf(p) == ContFrag && Collecting(conf, sdu, c, m)
    requires p[2..] + after == Encode(conf, sdu).body[m..] + [s] && |after| >= 1
    ensures m + |p| - 2 <= |Encode(conf, sdu).body| && after == Encode(conf, sdu).body[m + |p| - 2..] + [s]
    ensures Collecting(conf, sdu, if kept then StepCtx(conf, c, p).ctx else c, m + |p| - 2)
  {
    hide Encode, Rebuild, TypeOf, StepCtx;
    ContFits(Encode(conf, sdu).body, [s], p[2..], after, m);
    StepWithoutEnd(conf, c, p);
  }

  lemma CollectEnd(conf: Config, sdu: Sdu, c: RxCtx, m: nat, p: Ppdu, s: byte)
    requires |p| >= 3 && TypeOf(p) == EndFrag && Collecting(conf, sdu, c, m)
    requires p[2..] == Encode(conf, sdu).body[m..] + [s]
    ensures StepCtx(conf, c, p).outcome.Delivered? ==> StepCtx(conf, c, p).outcome.sdu == sdu
  {
    hide Encode, Rebuild, TypeOf, StepCtx;
    var body := Encode(conf, sdu).body;
    assert p[|p| - 1] == p[2..][|p| - 3] == s;
    StepWithEnd(conf, c, p, s);
    assert p[2..|p| - 1] == body[m..];
    assert body[..m] + body[m..] == body;
  }

  /** Any subset of the CONTs and the END of an ALPDU whose START opened the context: what is delivered, if
      anything, is its SDU. */
  lemma {:induction false} OwnTail(conf: Config, id: FragId, sdu: Sdu, s: byte, ps: seq<Ppdu>, keep: seq<bool>,
                                   m: nat, c: RxCtx)
    requires !conf.UseCrc() && IsTail(conf, id, ps) && |keep| == |ps|
    requires Collecting(conf, sdu, c, m) && TailBytes(ps) == Encode(conf, sdu).body[m..] + [s]
    ensures AllPpdus(Survivors(ps, keep))
    ensures forall d | d in Deliveries(Run(conf, c, Survivors(ps, keep)).outcomes) :: d == sdu
    decreases |ps|
  {
    hide TypeOf, StepCtx, Run, Deliveries, Collecting, Encode, ReachesCheck, Checked, IsTail, TailBytes, Survivors;
    TailStep(conf, id, ps, keep);
    var p := ps[0];
    if |ps| == 1 {
      CollectEnd(conf, sdu, c, m, p, s);
      OneOutcome(conf, c, p);
    } else {
      CollectCont(conf, sdu, c, m, p, TailBytes(ps[1..]), s, keep[0]);
      if keep[0] {
        StepWithoutEnd(conf, c, p);
        RunCons(conf, c, p, Survivors(ps[1..], keep[1..]));
        OwnTail(conf, id, sdu, s, ps[1..], keep[1..], m + |p| - 2, StepCtx(conf, c, p).ctx);
      } else {
        OwnTail(conf, id, sdu, s, ps[1..], keep[1..], m + |p| - 2, c);
      }
    }
  }

  lemma OneOutcome(conf: Config, c: RxCtx, p: Ppdu)
    requires |p| >= 2
    ensures Deliveries(Run(conf, c, [p]).outcomes) ==
      if StepCtx(conf, c, p).outcome.Delivered? then [StepCtx(conf, c, p).outcome.sdu] else []
    ensures Deliveries(Run(conf, c, []).outcomes) == []
  {
    hide StepCtx, ReachesCheck;
    RunCons(conf, c, p, []);
    assert [p] + [] == [p];
  }

  lemma ShipmentShape(conf: Config, id: FragId, ship: Shipment, s: byte, keep: seq<bool>)
    requires !conf.UseCrc() && Shipped(conf, id, ship, s) && |keep| == |ship.ppdus|
    ensures var ps, tail := ship.ppdus, ship.ppdus[1..];
      && AllPpdus(ps) && AllPpdus(Survivors(ps, keep)) && TypeOf(ps[0]) == StartFrag
      && IsTail(conf, id, tail) && AllPpdus(Survivors(tail, keep[1..]))
      && TailBytes(tail) != [] && TailBytes(tail)[|TailBytes(tail)| - 1] == s
      && Survivors(ps, keep) == (if keep[0] then [ps[0]] else []) + Survivors(tail, keep[1..])
  {
    var ps, tail := ship.ppdus, ship.ppdus[1..];
    LastByteOfLine(conf, id, ship.sdu, s, ps);
    TailShape(conf, id, tail);
    HeaderOfStart(conf, id, ship.sdu, s, ps[0]);
    hide TypeOf, SentInFragments, IsTail;
    assert forall q | q in ps :: q == ps[0] || q in tail;
    SurvivorsArePpdus(ps, keep);
    SurvivorsArePpdus(tail, keep[1..]);
  }

  lemma OwnStart(conf: Config, id: FragId, ship: Shipment, s: byte, keep: seq<bool>, c: RxCtx)
    requires !conf.UseCrc() && Shipped(conf, id, ship, s) && |keep| == |ship.ppdus| - 1 && !c.busy
    ensures AllPpdus(Survivors(ship.ppdus[1..], keep)) && |ship.ppdus[0]| >= 2
    ensures var first := StepCtx(conf, c, ship.ppdus[0]);
      && first.outcome == Accepted && !first.ctx.useCrc
      && first.ctx.seqInit == c.seqInit && first.ctx.nextSeq == c.nextSeq
      && forall d | d in Deliveries(Run(conf, first.ctx, Survivors(ship.ppdus[1..], keep)).outcomes) :: d == ship.sdu
  {
    hide TypeOf, StepCtx, Run, Deliveries, Encode, StartHeader, IsTail;
    var ps, sdu := ship.ppdus, ship.sdu;
    StartOpens(conf, id, sdu, s, ps[0], c);
    var m := |ps[0]| - 4 - |Encode(conf, sdu).hdr|;
    OwnTail(conf, id, sdu, s, ps[1..], keep, m, StepCtx(conf, c, ps[0]).ctx);
  }

  /** One ALPDU through the lossy channel: what it delivers to a context that was free before it is its own SDU,
      and to a context still busy it delivers nothing if its START arrives. */
  lemma OneAlpdu(conf: Config, id: FragId, ship: Shipment, s: byte, keep: seq<bool>, c: RxCtx)
    requires !conf.UseCrc() && Shipped(conf, id, ship, s) && |keep| == |ship.ppdus|
    requires c.busy ==> !c.useCrc
    ensures AllPpdus(ship.ppdus) && AllPpdus(Survivors(ship.ppdus, keep))
    ensures var kept := Survivors(ship.ppdus, keep);
      var r := Run(conf, c, kept);
      && After(s, c, Checked(conf, c, kept), r)
      && (!c.busy ==> forall d | d in Deliveries(r.outcomes) :: d == ship.sdu)
  {
    ShipmentShape(conf, id, ship, s, keep);
    var p, tail := ship.ppdus[0], ship.ppdus[1..];
    var rest := Survivors(tail, keep[1..]);
    if !c.busy && keep[0] {
      OwnStart(conf, id, ship, s, keep[1..], c);
    }
    hide TypeOf, StepCtx, Run, Deliveries, Checked, After, ReachesCheck, Shipped, IsTail, TailBytes;
    if !keep[0] {
      assert Survivors(ship.ppdus, keep) == rest;
      AnyTail(conf, id, tail, keep[1..], s, c);
    } else {
      if c.busy {
        BusyRefusesStart(conf, c, p);
      }
      AnyTail(conf, id, tail, keep[1..], s, StepCtx(conf, c, p).ctx);
      AfterStart(conf, c, p, rest, s);
    }
  }

  lemma LastByteOfLine(conf: Config, id: FragId, sdu: Sdu, s: byte, ps: seq<Ppdu>)
    requires !conf.UseCrc() && SentInFragments(conf, id, sdu, s, ps)
    ensures var t := TailBytes(ps[1..]); t != [] && t[|t| - 1] == s
  {
    hide Encode, StartHeader, IsTail;
    var all := Line(conf, sdu, s);
    assert all[|all| - 1] == s;
  }

  lemma AfterStart(conf: Config, c: RxCtx, p: Ppdu, rest: seq<Ppdu>, s: byte)
    requires |p| >= 2 && TypeOf(p) == StartFrag && AllPpdus(rest)
    requires var r := StepCtx(conf, c, p);
      && !r.outcome.Delivered? && r.ctx.seqInit == c.seqInit && r.ctx.nextSeq == c.nextSeq
      && After(s, r.ctx, Checked(conf, r.ctx, rest), Run(conf, r.ctx, rest))
    ensures AllPpdus([p] + rest)
    ensures After(s, c, Checked(conf, c, [p] + rest), Run(conf, c, [p] + rest))
    ensures Deliveries(Run(conf, c, [p] + rest).outcomes) ==
      Deliveries(Run(conf, StepCtx(conf, c, p).ctx, rest).outcomes)
  {
    hide TypeOf, StepCtx, ReachesCheck, Run, Checked, Deliveries;
    NotAnEnd(conf, c, p);
    RunCons(conf, c, p, rest);
  }

  ghost predicate ShippedAll(conf: Config, id: FragId, first: byte, k: nat, ships: seq<Shipment>,
                             keeps: seq<seq<bool>>) {
    && |ships| == |keeps|
    && forall i | 0 <= i < |ships| ::
         Shipped(conf, id, ships[i], SeqOf(first, k + i)) && |keeps[i]| == |ships[i].ppdus| && AllPpdus(ships[i].ppdus)
  }

  /** The delivery is of the SDU encapsulated with the sequence number that the receiver checked. */
  ghost predicate Faithful(first: byte, k: nat, ships: seq<Shipment>, e: Entry) {
    && k <= e.k < k + |ships|
    && (e.last.Some? && e.k <= e.last.value + 256 && SeqOf(first, e.k) != 0 ==> e.sdu == ships[e.k - k].sdu)
  }

  lemma ShippedRest(conf: Config, id: FragId, first: byte, k: nat, ships: seq<Shipment>, keeps: seq<seq<bool>>)
    requires ShippedAll(conf, id, first, k, ships, keeps) && ships != []
    ensures Shipped(conf, id, ships[0], SeqOf(first, k))
    ensures |keeps[0]| == |ships[0].ppdus| && AllPpdus(ships[0].ppdus)
    ensures ShippedAll(conf, id, first, k + 1, ships[1..], keeps[1..])
  {
    hide Shipped, SeqOf, AllPpdus;
    assert Shipped(conf, id, ships[0], SeqOf(first, k + 0));
    forall i | 0 <= i < |ships[1..]|
      ensures Shipped(conf, id, ships[1..][i], SeqOf(first, k + 1 + i))
      ensures |keeps[1..][i]| == |ships[1..][i].ppdus| && AllPpdus(ships[1..][i].ppdus)
    {
      assert ships[1..][i] == ships[i + 1] && keeps[1..][i] == keeps[i + 1];
      assert Shipped(conf, id, ships[i + 1], SeqOf(first, k + (i + 1)));
    }
  }

  lemma BetweenNext(first: byte, c: RxCtx, last: Option<nat>, k: nat, checked: bool, r: RunResult)
    requires Between(first, c, last, k) && After(SeqOf(first, k), c, checked, r)
    ensures Between(first, r.ctx, if checked then Some(k) else last, k + 1)
  {
    assert NextSeq(SeqOf(first, k)) == SeqOf(first, k + 1);
  }

  lemma FaithfulRest(first: byte, k: nat, ships: seq<Shipment>, e: Entry)
    requires ships != [] && Faithful(first, k + 1, ships[1..], e)
    ensures Faithful(first, k, ships, e)
  {
  }

  lemma OwnFaithful(first: byte, c: RxCtx, last: Option<nat>, k: nat, ships: seq<Shipment>, checked: bool,
                    r: RunResult,
                    e: Entry)
    requires Between(first, c, last, k) && ships != [] && After(SeqOf(first, k), c, checked, r)
    requires !c.busy ==> forall d | d in Deliveries(r.outcomes) :: d == ships[0].sdu
    requires e in Tag(k, last, Deliveries(r.outcomes))
    ensures Faithful(first, k, ships, e)
  {
    hide Deliveries, Tag;
    OwnEntry(first, c, last, k, ships[0], SeqOf(first, k), Deliveries(r.outcomes), e);
  }

  /** No chimera. One fragment id in sequence-number mode; the channel drops any PPDUs it likes. Whenever an
      initialised context delivers on the END of an ALPDU with a non-zero number, and at most 256 ALPDUs were
      started since the last END that reached the trailer check, the SDU delivered is exactly the one that was
      encapsulated with that number: never a mix of two, never one with a hole. */
  lemma {:induction false} NoChimera(conf: Config, id: FragId, first: byte, c: RxCtx, last: Option<nat>, k: nat,
                                     ships: seq<Shipment>, keeps: seq<seq<bool>>)
    requires !conf.UseCrc() && ShippedAll(conf, id, first, k, ships, keeps) && Between(first, c, last, k)
    ensures forall e | e in History(conf, c, last, k, ships, keeps) :: Faithful(first, k, ships, e)
    decreases |ships|
  {
    hide Shipped, Run, Checked, Deliveries, After, Faithful, Tag, SeqOf, Survivors;
    if ships != [] {
      var s, keep := SeqOf(first, k), keeps[0];
      ShippedRest(conf, id, first, k, ships, keeps);
      OneAlpdu(conf, id, ships[0], s, keep, c);
      var kept := Survivors(ships[0].ppdus, keep);
      var r, checked := Run(conf, c, kept), Checked(conf, c, kept);
      BetweenNext(first, c, last, k, checked, r);
      var last' := if checked then Some(k) else last;
      NoChimera(conf, id, first, r.ctx, last', k + 1, ships[1..], keeps[1..]);
      forall e | e in History(conf, c, last, k, ships, keeps) ensures Faithful(first, k, ships, e) {
        if e in Tag(k, last, Deliveries(r.outcomes)) {
          OwnFaithful(first, c, last, k, ships, checked, r, e);
        } else {
          assert e in History(conf, r.ctx, last', k + 1, ships[1..], keeps[1..]);
          FaithfulRest(first, k, ships, e);
        }
      }
    }
  }

  lemma OwnEntry(first: byte, c: RxCtx, last: Option<nat>, k: nat, ship: Shipment, s: byte, sdus: seq<Sdu>, e: Entry)
    requires Between(first, c, last, k) && s == SeqOf(first, k)
    requires !c.busy ==> forall d | d in sdus :: d == ship.sdu
    requires sdus != [] ==> !c.seqInit || s == c.nextSeq || s == 0
    requires e in Tag(k, last, sdus)
    ensures e.k == k && (last.Some? && k <= last.value + 256 && s != 0 ==> e.sdu == ship.sdu)
    ensures e.last == last
  {
    var i :| 0 <= i < |sdus| && Tag(k, last, sdus)[i] == e;
    assert sdus[i] in sdus;
    if last.Some? && k <= last.value + 256 && s != 0 {
      assert SeqOf(first, k) == SeqOf(first, last.value + 1);
      assert k == last.value + 1 by {
        SameSeq(first, last.value + 1, k);
      }
    }
  }

  lemma SameSeq(first: byte, a: nat, b: nat)
    requires a <= b < a + 256 && SeqOf(first, a) == SeqOf(first, b)
    ensures a == b
  {
    assert (first + b) - (first + a) == b - a;
    assert (b - a) % 256 == 0;
  }

  // ---- the conditions are needed ----

  /** Sequence numbers only, nothing omitted or compressed. */
  const PLAIN := Config(0, 0, 0, 1, 0, 0, 0, 0, 0)

  /** A four-byte IPv4-typed SDU cut in the middle by bursts of eight and nine bytes. */
  function Halves(x: byte, s: byte): Shipment {
    Shipment(Sdu(IPV4, [x, x, x, x]),
             [StartHeader(6, 0, false, 7, 0, false) + [8, 0, x, x], ContEndHeader(true, 3, 0) + [x, x, s]])
  }

  lemma HalvesAreShipped(x: byte, s: byte)
    ensures Shipped(PLAIN, 0, Halves(x, s), s) && AllPpdus(Halves(x, s).ppdus) && |Halves(x, s).ppdus| == 2
  {
    hide StartHeader, ContEndHeader;
    var ship := Halves(x, s);
    var start, end := ship.ppdus[0], ship.ppdus[1];
    var all := Line(PLAIN, ship.sdu, s);
    assert all == [8, 0, x, x, x, x, s];
    assert all[..4] == [8, 0, x, x] && all[4..] == [x, x, s];
    assert ship.ppdus[1..] == [end] && end[2..] == [x, x, s] && TailBytes([end]) == end[2..] + TailBytes([end][1..]);
  }

  /** The START of one and the END of the other of two equally long SDUs, fed to a free context: the receiver puts
      them together, and only the number in the trailer can make it refuse. */
  lemma MixedHalves(x: byte, s: byte, y: byte, t: byte, c: RxCtx)
    requires !c.busy
    ensures AllPpdus([Halves(x, s).ppdus[0], Halves(y, t).ppdus[1]])
    ensures Deliveries(Run(PLAIN, c, [Halves(x, s).ppdus[0], Halves(y, t).ppdus[1]]).outcomes) ==
      if InSync(PLAIN, c, t) then [Sdu(IPV4, [x, x, y, y])] else []
  {
    hide StepCtx, StartHeader, ContEndHeader, ReachesCheck, TypeOf, Run, Deliveries, Rebuild;
    var ship, other := Halves(x, s), Halves(y, t);
    var start, end := ship.ppdus[0], other.ppdus[1];
    HalvesAreShipped(x, s);
    StartOpens(PLAIN, 0, ship.sdu, s, start, c);
    ContEndHeaderRoundTrip(true, 3, 0, [y, y, t]);
    var first := StepCtx(PLAIN, c, start);
    assert first.ctx.got == [x, x];
    MixedEnd(c, first.ctx, end, x, y, t);
    RunCons(PLAIN, c, start, [end]);
    OneOutcome(PLAIN, first.ctx, end);
    assert [start] + [end] == [start, end];
  }

  lemma MixedEnd(c: RxCtx, now: RxCtx, end: Ppdu, x: byte, y: byte, t: byte)
    requires |end| == 5 && TypeOf(end) == EndFrag && end[2..] == [y, y, t]
    requires now.busy && !now.useCrc && now.expected == 4 && now.got == [x, x]
    requires Rebuild(now.ptype, now.compPtype, [x, x, x, x]) == Some(Sdu(IPV4, [x, x, x, x]))
    requires now.seqInit == c.seqInit && now.nextSeq == c.nextSeq
    ensures StepCtx(PLAIN, now, end).outcome ==
      if InSync(PLAIN, c, t) then Delivered(Sdu(IPV4, [x, x, y, y])) else Rejected
  {
    hide TypeOf;
    var frag := end[2..];
    assert frag[..2] == [y, y] && frag[2..] == [t];
    assert now.compPtype != VLAN_COMP_WO_PTYPE;
    assert now.got + frag[..2] == [x, x, y, y];
  }

  /** Number zero is accepted out of sequence, so with it a chimera can be delivered: ALPDU 255 loses its END,
      ALPDU 256, numbered zero, loses its START, and an initialised context in sync delivers a mix of the two. */
  lemma ChimeraAtZero()
    ensures var ships, keeps := [Halves(1, 255), Halves(2, 0)], [[true, false], [false, true]];
      var c := NewRxCtx().(seqInit := true, nextSeq := 255);
      && ShippedAll(PLAIN, 0, 0, 255, ships, keeps) && Between(0, c, Some(254), 255)
      && Entry(256, Some(254), Sdu(IPV4, [1, 1, 2, 2])) in History(PLAIN, c, Some(254), 255, ships, keeps)
  {
    hide Halves, History, Shipped, ShippedAll;
    PairShipped(1, 255, 2, 0, 255);
    MixedHistory(NewRxCtx().(seqInit := true, nextSeq := 255), Some(254), 255, 1, 255, 2, 0);
  }

  /** The first trailer of a context that is not initialised is accepted whatever its number: another chimera. */
  lemma ChimeraBeforeInit()
    ensures var ships, keeps := [Halves(1, 0), Halves(2, 1)], [[true, false], [false, true]];
      && ShippedAll(PLAIN, 0, 0, 0, ships, keeps) && Between(0, NewRxCtx(), None, 0)
      && Entry(1, None, Sdu(IPV4, [1, 1, 2, 2])) in History(PLAIN, NewRxCtx(), None, 0, ships, keeps)
  {
    hide Halves, History, Shipped, ShippedAll;
    PairShipped(1, 0, 2, 1, 0);
    MixedHistory(NewRxCtx(), None, 0, 1, 0, 2, 1);
  }

  /** Once the numbers have gone round, a stale context and a new ALPDU agree by chance: a chimera on number one, with
      257 ALPDUs started since the last check. */
  lemma ChimeraAfterWrap()
    ensures var ships, keeps := [Halves(1, 0), Halves(2, 1)], [[true, false], [false, true]];
      var c := NewRxCtx().(seqInit := true, nextSeq := 1);
      && ShippedAll(PLAIN, 0, 0, 256, ships, keeps) && Between(0, c, Some(0), 256)
      && Entry(257, Some(0), Sdu(IPV4, [1, 1, 2, 2])) in History(PLAIN, c, Some(0), 256, ships, keeps)
  {
    hide Halves, History, Shipped, ShippedAll;
    PairShipped(1, 0, 2, 1, 256);
    MixedHistory(NewRxCtx().(seqInit := true, nextSeq := 1), Some(0), 256, 1, 0, 2, 1);
  }

  lemma PairShipped(x: byte, s: byte, y: byte, t: byte, k: nat)
    requires s == SeqOf(0, k) && t == SeqOf(0, k + 1)
    ensures ShippedAll(PLAIN, 0, 0, k, [Halves(x, s), Halves(y, t)], [[true, false], [false, true]])
  {
    hide Halves, Shipped, SeqOf, AllPpdus, ShippedAll;
    HalvesAreShipped(x, s);
    HalvesAreShipped(y, t);
    TwoShipped(PLAIN, 0, 0, k, Halves(x, s), Halves(y, t), [true, false], [false, true]);
  }

  lemma TwoShipped(conf: Config, id: FragId, first: byte, k: nat, a: Shipment, b: Shipment, ka: seq<bool>,
                   kb: seq<bool>)
    requires Shipped(conf, id, a, SeqOf(first, k)) && Shipped(conf, id, b, SeqOf(first, k + 1))
    requires |ka| == |a.ppdus| && |kb| == |b.ppdus| && AllPpdus(a.ppdus) && AllPpdus(b.ppdus)
    ensures ShippedAll(conf, id, first, k, [a, b], [ka, kb])
  {
    hide Shipped, SeqOf, AllPpdus;
    var ships, keeps := [a, b], [ka, kb];
    forall i | 0 <= i < 2
      ensures Shipped(conf, id, ships[i], SeqOf(first, k + i))
      ensures |keeps[i]| == |ships[i].ppdus| && AllPpdus(ships[i].ppdus)
    {
      if i == 0 {
        assert SeqOf(first, k + i) == SeqOf(first, k);
      } else {
        assert i == 1;
      }
    }
  }

  /** The history of two ALPDUs of which one PPDU each arrives, the first one not an END. */
  lemma HistoryOfTwo(conf: Config, c: RxCtx, last: Option<nat>, k: nat, a: Shipment, b: Shipment,
                     ka: seq<bool>, kb: seq<bool>, p: Ppdu, q: Ppdu)
    requires |a.ppdus| == |ka| && |b.ppdus| == |kb| && AllPpdus(a.ppdus) && AllPpdus(b.ppdus)
    requires |p| >= 2 && |q| >= 2 && Survivors(a.ppdus, ka) == [p] && Survivors(b.ppdus, kb) == [q]
    requires TypeOf(p) != EndFrag && !StepCtx(conf, c, p).outcome.Delivered?
    ensures AllPpdus([p, q])
    ensures History(conf, c, last, k, [a, b], [ka, kb]) == Tag(k + 1, last, Deliveries(Run(conf, c, [p, q]).outcomes))
  {
    hide StepCtx, TypeOf, ReachesCheck, Tag, Run, Deliveries, Checked, AllPpdus, Survivors;
    OnePpdu(p);
    OnePpdu(q);
    var first := StepCtx(conf, c, p);
    OneOutcome(conf, c, p);
    NotAnEnd(conf, c, p);
    RunCons(conf, c, p, []);
    RunCons(conf, c, p, [q]);
    NothingChecked(conf, first.ctx);
    assert [p] + [] == [p] && [p] + [q] == [p, q];
    assert [a, b][1..] == [b] && [ka, kb][1..] == [kb];
    EmptyTag(k, last);
    HistoryOfOne(conf, first.ctx, last, k + 1, b, kb, q);
    var later := Deliveries(Run(conf, first.ctx, [q]).outcomes);
    assert [] + later == later;
    assert Deliveries(Run(conf, c, [p, q]).outcomes) == later;
    assert History(conf, c, last, k, [a, b], [ka, kb]) ==
      Tag(k, last, Deliveries(Run(conf, c, [p]).outcomes)) + History(conf, Run(conf, c, [p]).ctx, last, k + 1, [b], [kb]);
  }

  lemma OnePpdu(p: Ppdu)
    requires |p| >= 2
    ensures AllPpdus([p]) && AllPpdus([])
  {
  }

  lemma NothingChecked(conf: Config, c: RxCtx)
    ensures !Checked(conf, c, []) && Run(conf, c, []).ctx == c
  {
  }

  lemma HistoryOfOne(conf: Config, c: RxCtx, last: Option<nat>, k: nat, b: Shipment, kb: seq<bool>, q: Ppdu)
    requires |b.ppdus| == |kb| && AllPpdus(b.ppdus) && |q| >= 2 && Survivors(b.ppdus, kb) == [q]
    ensures History(conf, c, last, k, [b], [kb]) == Tag(k, last, Deliveries(Run(conf, c, [q]).outcomes))
  {
    hide StepCtx, TypeOf, ReachesCheck, Tag, Run, Deliveries, Checked;
    assert [b][1..] == [] && [kb][1..] == [];
    var t := Tag(k, last, Deliveries(Run(conf, c, [q]).outcomes));
    assert t + [] == t;
  }

  lemma EmptyTag(k: nat, last: Option<nat>)
    ensures Tag(k, last, []) == []
  {
  }

  lemma MixedHistory(c: RxCtx, last: Option<nat>, k: nat, x: byte, s: byte, y: byte, t: byte)
    requires !c.busy && InSync(PLAIN, c, t)
    ensures AllPpdus(Halves(x, s).ppdus) && AllPpdus(Halves(y, t).ppdus)
    ensures |Halves(x, s).ppdus| == 2 && |Halves(y, t).ppdus| == 2
    ensures Entry(k + 1, last, Sdu(IPV4, [x, x, y, y])) in
      History(PLAIN, c, last, k, [Halves(x, s), Halves(y, t)], [[true, false], [false, true]])
  {
    var a, b := Halves(x, s), Halves(y, t);
    HalvesAreShipped(x, s);
    HalvesAreShipped(y, t);
    assert |a.ppdus| == 2 && |b.ppdus| == 2;
    var start, end := a.ppdus[0], b.ppdus[1];
    hide StepCtx, TypeOf, Halves, SentInFragments;
    KeepFirst(a.ppdus);
    KeepSecond(b.ppdus);
    ShippedStart(x, s, c);
    MixedHalves(x, s, y, t, c);
    HistoryOfTwo(PLAIN, c, last, k, a, b, [true, false], [false, true], start, end);
    var sdus := Deliveries(Run(PLAIN, c, [start, end]).outcomes);
    assert Tag(k + 1, last, sdus)[0] == Entry(k + 1, last, Sdu(IPV4, [x, x, y, y]));
  }

  lemma ShippedStart(x: byte, s: byte, c: RxCtx)
    requires !c.busy
    ensures var p := Halves(x, s).ppdus[0];
      |p| >= 2 && TypeOf(p) != EndFrag && !StepCtx(PLAIN, c, p).outcome.Delivered?
  {
    var a := Halves(x, s);
    HalvesAreShipped(x, s);
    hide StepCtx, TypeOf, Halves;
    HeaderOfStart(PLAIN, 0, a.sdu, s, a.ppdus[0]);
    StartOpens(PLAIN, 0, a.sdu, s, a.ppdus[0], c);
  }

  lemma KeepFirst(ps: seq<Ppdu>)
    requires |ps| == 2
    ensures Survivors(ps, [true, false]) == [ps[0]]
  {
    assert [true, false][1..] == [false] && Survivors(ps[1..], [false]) == Survivors(ps[1..][1..], [false][1..]);
  }

  lemma KeepSecond(ps: seq<Ppdu>)
    requires |ps| == 2
    ensures Survivors(ps, [false, true]) == [ps[1]]
  {
    assert [false, true][1..] == [true] && Survivors(ps[1..], [true]) == [ps[1]] + Survivors(ps[1..][1..], [true][1..]);
  }
}
