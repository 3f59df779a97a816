/** Frames: a label, PPDUs one after the other, and zero padding (src/pack.c); and the parsing loop of the receiver
    (src/deencap.c) as a function of the frame. */
module Fpdu {
  import opened Bytes
  import opened Conf
  import opened PpduHeader
  import opened Receive
  import opened RoundTrip
  import opened Interleave

  predicate LabelSizeOk(n: nat) {
    n == 0 || n == 3 || n == 6
  }

  /** A PPDU that the parser can tell from padding and whose length field is right. */
  predicate Parsable(p: Ppdu) {
    |p| >= 2 && LengthOf(p) == |p| && !(p[0] == 0 && p[1] == 0)
  }

  /** Fewer than two bytes, or padding. */
  predicate AtEnd(bytes: seq<byte>) {
    |bytes| < 2 || (bytes[0] == 0 && bytes[1] == 0)
  }

  datatype Parse = Parse(ppdus: seq<Ppdu>, ok: bool)

  /** The loop of rle_decapsulate over the bytes after the label: the PPDUs it cuts out, and whether it ends at
      padding or at the end of the frame rather than at a length that does not fit. */
  function Split(bytes: seq<byte>): (r: Parse)
    ensures AllPpdus(r.ppdus)
    decreases |bytes|
  {
    if AtEnd(bytes) then Parse([], true)
    else if LengthOf(bytes) > |bytes| then Parse([], false)
    else
      var n := LengthOf(bytes);
      var rest := Split(bytes[n..]);
      Parse([bytes[..n]] + rest.ppdus, rest.ok)
  }

  lemma SplitOne(p: Ppdu, rest: seq<byte>)
    requires Parsable(p)
    ensures Split(p + rest) == Parse([p] + Split(rest).ppdus, Split(rest).ok)
  {
    var bytes := p + rest;
    assert LengthOf(bytes) == LengthOf(p);
    assert bytes[..|p|] == p && bytes[|p|..] == rest;
  }

  lemma SplitPadding(n: nat)
    ensures Split(Zeros(n)) == Parse([], true)
  {
  }

  /** Parsing undoes packing: whatever PPDUs a frame was packed from, and however much padding follows, the loop
      cuts out exactly those PPDUs, in order. */
  lemma {:induction false} SplitPacked(ps: seq<Ppdu>, pad: nat)
    requires forall p | p in ps :: Parsable(p)
    ensures Split(Flatten(ps) + Zeros(pad)) == Parse(ps, true)
  {
    hide Split, Parsable;
    if ps == [] {
      assert [] + Zeros(pad) == Zeros(pad);
      SplitPadding(pad);
    } else {
      assert ps[0] in ps && forall p | p in ps[1..] :: p in ps;
      SplitPacked(ps[1..], pad);
      assert Flatten(ps) + Zeros(pad) == ps[0] + (Flatten(ps[1..]) + Zeros(pad));
      SplitOne(ps[0], Flatten(ps[1..]) + Zeros(pad));
    }
  }

  lemma SplitTurn(bytes: seq<byte>)
    requires !AtEnd(bytes) && LengthOf(bytes) <= |bytes|
    ensures var n := LengthOf(bytes);
      && Split(bytes) == Parse([bytes[..n]] + Split(bytes[n..]).ppdus, Split(bytes[n..]).ok)
      && Parsable(bytes[..n])
  {
    assert LengthOf(bytes[..LengthOf(bytes)]) == LengthOf(bytes);
  }

  lemma SplitEnds(bytes: seq<byte>)
    requires AtEnd(bytes) || LengthOf(bytes) > |bytes|
    ensures Split(bytes) == Parse([], AtEnd(bytes))
  {
  }

  /** Why the loop stops in front of `rest`: at the end or at padding, or else at a length that does not fit. */
  predicate StopsAt(rest: seq<byte>, ok: bool) {
    if ok then |rest| < 2 || rest[..2] == [0, 0]
    else |rest| >= 2 && rest[..2] != [0, 0] && |rest| < 2 + (rest[0] as int % 64 * 256 + rest[1]) / 8
  }

  /** Whatever bytes arrive, what the loop cut out is a prefix of them, every piece has the length it announces, and the
      loop stopped where it had to. */
  lemma {:induction false} SplitIsPrefix(bytes: seq<byte>)
    ensures var r := Split(bytes);
      && Flatten(r.ppdus) <= bytes
      && (forall p | p in r.ppdus :: Parsable(p))
      && StopsAt(bytes[|Flatten(r.ppdus)|..], r.ok)
    decreases |bytes|
  {
    hide Split, LengthOf, Parsable, StopsAt;
    if !AtEnd(bytes) && LengthOf(bytes) <= |bytes| {
      var n := LengthOf(bytes);
      SplitTurn(bytes);
      SplitIsPrefix(bytes[n..]);
      var r := Split(bytes[n..]);
      assert Flatten([bytes[..n]] + r.ppdus) == bytes[..n] + Flatten(r.ppdus) by {
        assert ([bytes[..n]] + r.ppdus)[1..] == r.ppdus;
      }
      assert bytes == bytes[..n] + bytes[n..];
      assert forall p | p in [bytes[..n]] + r.ppdus :: p == bytes[..n] || p in r.ppdus;
      assert bytes[n + |Flatten(r.ppdus)|..] == bytes[n..][|Flatten(r.ppdus)|..];
    } else {
      SplitEnds(bytes);
      StopsHere(bytes);
      assert bytes[0..] == bytes;
    }
  }

  lemma StopsHere(bytes: seq<byte>)
    requires AtEnd(bytes) || LengthOf(bytes) > |bytes|
    ensures StopsAt(bytes, AtEnd(bytes))
  {
  }

  datatype DecapStatus =
    | DecapOk | DecapErr | DecapSomeDrop | DecapErrInvFpdu | DecapErrInvSdus | DecapErrInvPl | DecapAborted

  datatype Decap = Decap(ctxs: seq<RxCtx>, sdus: seq<Sdu>, status: DecapStatus)

  /** What the loop does with the PPDUs it cuts out, given `slots` free SDU buffers; `status` is the status so far. */
  function Consume(conf: Config, ctxs: seq<RxCtx>, r: Parse, slots: nat, status: DecapStatus): (d: Decap)
    requires |ctxs| == FRAG_NUMBER && AllPpdus(r.ppdus)
    ensures |d.ctxs| == FRAG_NUMBER
    decreases |r.ppdus|
  {
    if r.ppdus == [] then Decap(ctxs, [], if r.ok then status else DecapErr)
    else if slots == 0 then Decap(ctxs, [], DecapSomeDrop)
    else
      var one := Deencap(conf, ctxs, r.ppdus[0]);
      var later := Parse(r.ppdus[1..], r.ok);
      match one.outcome
      case Aborted => Decap(ctxs, [], DecapAborted)
      case Rejected => Consume(conf, one.ctxs, later, slots, DecapErr)
      case Accepted => Consume(conf, one.ctxs, later, slots, status)
      case Delivered(sdu) =>
        var rest := Consume(conf, one.ctxs, later, slots - 1, status);
        Decap(rest.ctxs, [sdu] + rest.sdus, rest.status)
  }

  /** A result after SDUs that were delivered before. */
  function After(got: seq<Sdu>, d: Decap): Decap {
    d.(sdus := got + d.sdus)
  }

  /** One turn of the loop. */
  lemma ConsumeTurn(conf: Config, ctxs: seq<RxCtx>, bytes: seq<byte>, slots: nat, status: DecapStatus, got: seq<Sdu>)
    requires |ctxs| == FRAG_NUMBER && slots > 0
    requires |bytes| >= 2 && !(bytes[0] == 0 && bytes[1] == 0) && LengthOf(bytes) <= |bytes|
    ensures var n := LengthOf(bytes);
      var one, later := Deencap(conf, ctxs, bytes[..n]), Split(bytes[n..]);
      After(got, Consume(conf, ctxs, Split(bytes), slots, status)) ==
        match one.outcome
        case Aborted => Decap(ctxs, got, DecapAborted)
        case Rejected => After(got, Consume(conf, one.ctxs, later, slots, DecapErr))
        case Accepted => After(got, Consume(conf, one.ctxs, later, slots, status))
        case Delivered(sdu) => After(got + [sdu], Consume(conf, one.ctxs, later, slots - 1, status))
  {
    hide Deencap, LengthOf, Split, Consume, After;
    SplitTurn(bytes);
    var n := LengthOf(bytes);
    ConsumeFirst(conf, ctxs, bytes[..n], Split(bytes[n..]), slots, status, got);
  }

  lemma ConsumeFirst(conf: Config, ctxs: seq<RxCtx>, p: Ppdu, later: Parse, slots: nat, status: DecapStatus,
                     got: seq<Sdu>)
    requires |ctxs| == FRAG_NUMBER && slots > 0 && |p| >= 2 && AllPpdus(later.ppdus)
    ensures AllPpdus([p] + later.ppdus)
    ensures var one := Deencap(conf, ctxs, p);
      After(got, Consume(conf, ctxs, Parse([p] + later.ppdus, later.ok), slots, status)) ==
        match one.outcome
        case Aborted => Decap(ctxs, got, DecapAborted)
        case Rejected => After(got, Consume(conf, one.ctxs, later, slots, DecapErr))
        case Accepted => After(got, Consume(conf, one.ctxs, later, slots, status))
        case Delivered(sdu) => After(got + [sdu], Consume(conf, one.ctxs, later, slots - 1, status))
  {
    hide Deencap;
    var one := Deencap(conf, ctxs, p);
    assert ([p] + later.ppdus)[1..] == later.ppdus && Parse(later.ppdus, later.ok) == later;
    if one.outcome.Delivered? {
      var rest := Consume(conf, one.ctxs, later, slots - 1, status);
      assert got + ([one.outcome.sdu] + rest.sdus) == (got + [one.outcome.sdu]) + rest.sdus;
    } else if one.outcome == Aborted {
      assert got + [] == got;
    }
  }

  /** The three ways out of the loop. */
  lemma ConsumeEnds(conf: Config, ctxs: seq<RxCtx>, bytes: seq<byte>, slots: nat, status: DecapStatus, got: seq<Sdu>)
    requires |ctxs| == FRAG_NUMBER
    ensures var padding := AtEnd(bytes);
      var d := After(got, Consume(conf, ctxs, Split(bytes), slots, status));
      && (padding ==> d == Decap(ctxs, got, status))
      && (!padding && LengthOf(bytes) > |bytes| ==> d == Decap(ctxs, got, DecapErr))
      && (!padding && LengthOf(bytes) <= |bytes| && slots == 0 ==> d == Decap(ctxs, got, DecapSomeDrop))
  {
    hide LengthOf, Deencap;
  }

  /** rle_decapsulate. The label is copied to the caller; `slots` is sdus_max_nr. */
  function Decapsulate(conf: Config, ctxs: seq<RxCtx>, fpdu: seq<byte>, labelSize: nat, slots: nat): (d: Decap)
    requires |ctxs| == FRAG_NUMBER
    ensures |d.ctxs| == FRAG_NUMBER
  {
    if |fpdu| == 0 || |fpdu| < labelSize then Decap(ctxs, [], DecapErrInvFpdu)
    else if slots == 0 then Decap(ctxs, [], DecapErrInvSdus)
    else if !LabelSizeOk(labelSize) then Decap(ctxs, [], DecapErrInvPl)
    else Consume(conf, ctxs, Split(fpdu[labelSize..]), slots, DecapOk)
  }

  lemma {:induction false} LoopStatus(conf: Config, ctxs: seq<RxCtx>, r: Parse, slots: nat, status: DecapStatus)
    requires |ctxs| == FRAG_NUMBER && AllPpdus(r.ppdus) && (status == DecapOk || status == DecapErr)
    ensures Consume(conf, ctxs, r, slots, status).status in {DecapOk, DecapErr, DecapSomeDrop, DecapAborted}
    decreases |r.ppdus|
  {
    hide Deencap;
    if r.ppdus != [] && slots > 0 {
      var one, later := Deencap(conf, ctxs, r.ppdus[0]), Parse(r.ppdus[1..], r.ok);
      match one.outcome
      case Aborted =>
      case Rejected => LoopStatus(conf, one.ctxs, later, slots, DecapErr);
      case Accepted => LoopStatus(conf, one.ctxs, later, slots, status);
      case Delivered(_) => LoopStatus(conf, one.ctxs, later, slots - 1, status);
    }
  }

  /** The frames that are refused before the loop, exactly, and with which status: an empty one or one shorter than its
      label, then no buffer at all, then a label of any other size than 0, 3 or 6 bytes. They change nothing. */
  lemma RefusedFrames(conf: Config, ctxs: seq<RxCtx>, fpdu: seq<byte>, labelSize: nat, slots: nat)
    requires |ctxs| == FRAG_NUMBER
    ensures var d := Decapsulate(conf, ctxs, fpdu, labelSize, slots);
      && (d.status == DecapErrInvFpdu <==> fpdu == [] || |fpdu| < labelSize)
      && (d.status == DecapErrInvSdus <==> fpdu != [] && |fpdu| >= labelSize && slots == 0)
      && (d.status == DecapErrInvPl <==> fpdu != [] && |fpdu| >= labelSize && slots > 0 && labelSize !in {0, 3, 6})
      && (d.status in {DecapErrInvFpdu, DecapErrInvSdus, DecapErrInvPl} ==> d.ctxs == ctxs && d.sdus == [])
  {
    hide Consume, Split;
    if fpdu != [] && |fpdu| >= labelSize {
      LoopStatus(conf, ctxs, Split(fpdu[labelSize..]), slots, DecapOk);
    }
  }

  /** How many PPDUs the loop gets to: it stops before the first one that finds no free buffer, and only a delivery
      uses a buffer up. */
  function Served(os: seq<Outcome>, slots: nat): (n: nat)
    ensures n <= |os|
    decreases |os|
  {
    if os == [] || slots == 0 then 0
    else 1 + Served(os[1..], if os[0].Delivered? then slots - 1 else slots)
  }

  /** Before each PPDU that is served there is a free buffer; before the first one that is not, all are full. */
  lemma {:induction false} ServedExactly(os: seq<Outcome>, slots: nat)
    ensures var n := Served(os, slots);
      && (forall i | 0 <= i < n :: |Deliveries(os[..i])| < slots)
      && (n < |os| ==> |Deliveries(os[..n])| == slots)
    decreases |os|
  {
    hide Deliveries;
    NoDeliveries();
    if os != [] && slots > 0 {
      var rest, left := os[1..], if os[0].Delivered? then slots - 1 else slots;
      ServedExactly(rest, left);
      var n := Served(os, slots);
      forall i | 0 <= i <= n ensures i > 0 ==>
        |Deliveries(os[..i])| == (if os[0].Delivered? then 1 else 0) + |Deliveries(rest[..i - 1])| {
        if i > 0 {
          assert os[..i] == [os[0]] + rest[..i - 1];
          DeliveriesCons(os[0], rest[..i - 1]);
        }
      }
      assert os[..0] == [];
    } else {
      assert os[..0] == [];
    }
  }

  lemma NoDeliveries()
    ensures Deliveries([]) == []
  {
  }

  /** The result of the loop in terms of the whole receiver: it is fed the PPDUs served and no others, and every SDU
      is returned. The status tells a PPDU that found no buffer, else a refused PPDU or a length that did not fit. */
  ghost predicate Serves(conf: Config, ctxs: seq<RxCtx>, r: Parse, slots: nat, status: DecapStatus, d: Decap)
    requires |ctxs| == FRAG_NUMBER && AllPpdus(r.ppdus)
  {
    var n := Served(AllOutcomes(RunRx(conf, ctxs, r.ppdus).events), slots);
    SubPpdus(r.ppdus, n);
    var run := RunRx(conf, ctxs, r.ppdus[..n]);
    var os := AllOutcomes(run.events);
    if Aborted in os then d.status == DecapAborted
    else d == Decap(run.ctxs, Deliveries(os),
                    if n < |r.ppdus| then DecapSomeDrop else if !r.ok || Rejected in os then DecapErr else status)
  }

  lemma SubPpdus(ps: seq<Ppdu>, n: nat)
    requires AllPpdus(ps) && n <= |ps|
    ensures AllPpdus(ps[..n])
  {
    assert forall p | p in ps[..n] :: p in ps;
  }

  lemma ServesNone(conf: Config, ctxs: seq<RxCtx>, r: Parse, slots: nat, status: DecapStatus)
    requires |ctxs| == FRAG_NUMBER && AllPpdus(r.ppdus) && (r.ppdus == [] || slots == 0)
    ensures Serves(conf, ctxs, r, slots, status, Consume(conf, ctxs, r, slots, status))
  {
    hide Deencap;
    assert r.ppdus[..0] == [];
  }

  /** One PPDU more in front. */
  lemma ServesFirst(conf: Config, ctxs: seq<RxCtx>, r: Parse, slots: nat, status: DecapStatus, d: Decap)
    requires |ctxs| == FRAG_NUMBER && AllPpdus(r.ppdus) && r.ppdus != [] && slots > 0
    requires |r.ppdus[0]| >= 2 && AllPpdus(r.ppdus[1..])
    requires var one := Deencap(conf, ctxs, r.ppdus[0]);
      && one.outcome != Aborted
      && Serves(conf, one.ctxs, Parse(r.ppdus[1..], r.ok), if one.outcome.Delivered? then slots - 1 else slots,
                if one.outcome == Rejected then DecapErr else status, d)
    requires status == DecapOk || status == DecapErr
    ensures var one := Deencap(conf, ctxs, r.ppdus[0]);
      Serves(conf, ctxs, r, slots, status,
             d.(sdus := (if one.outcome.Delivered? then [one.outcome.sdu] else []) + d.sdus))
  {
    hide Deencap, RunRx, AllOutcomes, Deliveries, AllPpdus;
    var ps, rest := r.ppdus, r.ppdus[1..];
    var one := Deencap(conf, ctxs, ps[0]);
    RunRxFirst(conf, ctxs, ps);
    var all := RunRx(conf, one.ctxs, rest);
    OutcomesCons(Event(one.index, one.outcome), all.events);
    var os := AllOutcomes(all.events);
    assert ([one.outcome] + os)[1..] == os;
    var m := Served(os, if one.outcome.Delivered? then slots - 1 else slots);
    assert Served(AllOutcomes(RunRx(conf, ctxs, ps).events), slots) == 1 + m;
    SubPpdus(ps, m + 1);
    SubPpdus(rest, m);
    assert ps[..m + 1][0] == ps[0] && ps[..m + 1][1..] == rest[..m];
    RunRxFirst(conf, ctxs, ps[..m + 1]);
    var later := RunRx(conf, one.ctxs, rest[..m]);
    OutcomesCons(Event(one.index, one.outcome), later.events);
    DeliveriesCons(one.outcome, AllOutcomes(later.events));
    var os' := AllOutcomes(later.events);
    assert forall o :: o in [one.outcome] + os' <==> o == one.outcome || o in os';
  }

  lemma ServesAbort(conf: Config, ctxs: seq<RxCtx>, r: Parse, slots: nat, status: DecapStatus, d: Decap)
    requires |ctxs| == FRAG_NUMBER && AllPpdus(r.ppdus) && r.ppdus != [] && slots > 0
    requires |r.ppdus[0]| >= 2 && Deencap(conf, ctxs, r.ppdus[0]).outcome == Aborted && d.status == DecapAborted
    ensures Serves(conf, ctxs, r, slots, status, d)
  {
    hide Deencap, RunRx, AllOutcomes, Deliveries, AllPpdus;
    var ps := r.ppdus;
    var n := Served(AllOutcomes(RunRx(conf, ctxs, ps).events), slots);
    assert n >= 1 by {
      assert |RunRx(conf, ctxs, ps).events| == |ps|;
    }
    SubPpdus(ps, n);
    RunRxFirst(conf, ctxs, ps[..n]);
    var one := Deencap(conf, ctxs, ps[0]);
    var later := RunRx(conf, one.ctxs, ps[..n][1..]);
    OutcomesCons(Event(one.index, one.outcome), later.events);
    assert one.outcome in [one.outcome] + AllOutcomes(later.events);
  }

  /** The loop on any PPDUs, with any number of buffers: it serves exactly the PPDUs before the first one that finds no
      buffer, refused ones included, and reports exactly what went wrong. */
  lemma {:induction false} ConsumeServes(conf: Config, ctxs: seq<RxCtx>, r: Parse, slots: nat, status: DecapStatus)
    requires |ctxs| == FRAG_NUMBER && AllPpdus(r.ppdus) && (status == DecapOk || status == DecapErr)
    ensures Serves(conf, ctxs, r, slots, status, Consume(conf, ctxs, r, slots, status))
    decreases |r.ppdus|
  {
    hide Deencap, Serves;
    if r.ppdus == [] || slots == 0 {
      ServesNone(conf, ctxs, r, slots, status);
    } else {
      var one, later := Deencap(conf, ctxs, r.ppdus[0]), Parse(r.ppdus[1..], r.ok);
      if one.outcome == Aborted {
        ServesAbort(conf, ctxs, r, slots, status, Consume(conf, ctxs, r, slots, status));
      } else {
        var slots', status' := if one.outcome.Delivered? then slots - 1 else slots,
          if one.outcome == Rejected then DecapErr else status;
        var d := Consume(conf, one.ctxs, later, slots', status');
        ConsumeServes(conf, one.ctxs, later, slots', status');
        ServesFirst(conf, ctxs, r, slots, status, d);
        assert [] + d.sdus == d.sdus;
      }
    }
  }

  /** Frame theorem: a frame packed from any PPDUs with any label and any padding, decapsulated into any number of
      buffers: the contexts, SDUs and status are those of feeding the receiver those very PPDUs, up to the first one
      that finds no buffer. */
  lemma FrameRoundTrip(conf: Config, ctxs: seq<RxCtx>, frameLabel: seq<byte>, ps: seq<Ppdu>, pad: nat, slots: nat)
    requires |ctxs| == FRAG_NUMBER && |frameLabel| in {0, 3, 6}
    requires slots > 0 && |frameLabel| + |ps| + pad > 0
    requires forall p | p in ps :: Parsable(p)
    ensures AllPpdus(ps)
    ensures Serves(conf, ctxs, Parse(ps, true), slots, DecapOk,
                   Decapsulate(conf, ctxs, frameLabel + Flatten(ps) + Zeros(pad), |frameLabel|, slots))
  {
    hide RunRx, AllOutcomes, Split, Consume, Serves, Parsable, Flatten, AllPpdus, Zeros;
    PackedSize(ps, pad);
    var fpdu := frameLabel + Flatten(ps) + Zeros(pad);
    BehindLabel(frameLabel, Flatten(ps), Zeros(pad));
    SplitPacked(ps, pad);
    ConsumeServes(conf, ctxs, Parse(ps, true), slots, DecapOk);
  }

  lemma BehindLabel(frameLabel: seq<byte>, body: seq<byte>, pad: seq<byte>)
    ensures (frameLabel + body + pad)[|frameLabel|..] == body + pad
    ensures |frameLabel + body + pad| == |frameLabel| + |body| + |pad|
  {
  }

  lemma PackedSize(ps: seq<Ppdu>, pad: nat)
    requires forall p | p in ps :: Parsable(p)
    ensures AllPpdus(ps) && |Zeros(pad)| == pad && |Flatten(ps)| >= |ps|
  {
    if ps != [] {
      assert ps[0] in ps && forall p | p in ps[1..] :: p in ps;
      PackedSize(ps[1..], pad);
    }
  }

  /** A condition that a caller can check on the PPDUs: a buffer for each PPDU that could deliver, and one to spare for
      any PPDU after them. */
  predicate Roomy(ps: seq<Ppdu>, slots: nat)
    requires AllPpdus(ps)
  {
    ps != [] ==>
      slots > 0 && Roomy(ps[1..], if TypeOf(ps[0]) == Complete || TypeOf(ps[0]) == EndFrag then slots - 1 else slots)
  }

  lemma OnlyLastPpdusDeliver(conf: Config, ctxs: seq<RxCtx>, p: Ppdu)
    requires |ctxs| == FRAG_NUMBER && |p| >= 2
    ensures Deencap(conf, ctxs, p).outcome.Delivered? ==> TypeOf(p) == Complete || TypeOf(p) == EndFrag
  {
    hide TypeOf, FragIdOf, StepEnd, StepComp;
  }

  lemma {:induction false} RoomyServesAll(conf: Config, ctxs: seq<RxCtx>, ps: seq<Ppdu>, slots: nat, fewer: nat)
    requires |ctxs| == FRAG_NUMBER && AllPpdus(ps) && Roomy(ps, fewer) && fewer <= slots
    ensures Served(AllOutcomes(RunRx(conf, ctxs, ps).events), slots) == |ps|
    decreases |ps|
  {
    hide Deencap, TypeOf, AllOutcomes;
    if ps != [] {
      var one := Deencap(conf, ctxs, ps[0]);
      OnlyLastPpdusDeliver(conf, ctxs, ps[0]);
      var rest := RunRx(conf, one.ctxs, ps[1..]);
      OutcomesCons(Event(one.index, one.outcome), rest.events);
      var os := AllOutcomes(rest.events);
      assert ([one.outcome] + os)[1..] == os;
      RoomyServesAll(conf, one.ctxs, ps[1..], if one.outcome.Delivered? then slots - 1 else slots,
                     if TypeOf(ps[0]) == Complete || TypeOf(ps[0]) == EndFrag then fewer - 1 else fewer);
    }
  }
}
