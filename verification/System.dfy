/** From the user of the transmitter to the user of the receiver, through frames. */
module System {
  import opened Bytes
  import opened Conf
  import opened PpduHeader
  import opened Transmit
  import opened Receive
  import opened RoundTrip
  import opened Link
  import opened Interleave
  import opened Fpdu
  import opened Packing

  /** No PPDU of the transmitter is taken for padding, and each announces its own length. */
  lemma SentIsParsable(conf: Config, id: FragId, c: TxCtx, burst: nat)
    requires JobOk(conf, c.job)
    ensures var f := Fragment(conf, id, c, burst); f.status == FragOk ==> Parsable(f.ppdu)
  {
    if c.job != Idle {
      PpduBounds(conf, id, c.job, c.seqNb, burst);
      var r := CutOne(conf, id, c.job, c.seqNb, burst);
      if r.Some? {
        hide CutOne;
        NotPadding(r.value.ppdu);
      }
    }
  }

  lemma NotPadding(p: Ppdu)
    requires |p| > 2 && LengthOf(p) == |p|
    ensures !(p[0] == 0 && p[1] == 0)
  {
  }

  /** The rule that no CONT is sent empty is needed: on fragment id 0 an empty CONT is two zero bytes. */
  lemma EmptyContIsPadding(rest: seq<byte>)
    ensures Split(ContEndHeader(false, 0, 0) + rest).ppdus == []
  {
  }

  lemma {:induction false} StreamIsParsable(conf: Config, id: FragId, c: TxCtx, ops: seq<Op>)
    requires JobOk(conf, c.job)
    ensures forall p | p in RunTx(conf, id, c, ops).ppdus :: Parsable(p)
    decreases |ops|
  {
    hide Parsable, Encapsulate, Fragment, JobOk;
    if ops != [] {
      assert ops == [ops[0]] + ops[1..];
      RunTxCons(conf, id, c, ops[0], ops[1..]);
      match ops[0]
      case Encap(sdu) => StreamIsParsable(conf, id, Encapsulate(conf, c, sdu).0, ops[1..]);
      case Frag(burst) =>
        SentIsParsable(conf, id, c, burst);
        StreamIsParsable(conf, id, Fragment(conf, id, c, burst).ctx, ops[1..]);
    }
  }

  // ---- frames ----

  /** One frame: its label, its size, and the calls that filled it. */
  datatype Frame = Frame(frameLabel: seq<byte>, room: nat, calls: seq<PackOp>) {
    function Packed(): PackRun {
      RunPack(frameLabel, [], room, calls)
    }

    /** The frame after rle_pad. */
    function Bytes(): seq<byte> {
      Packed().used + Zeros(Packed().room)
    }

    /** A frame of some size that got its label. */
    predicate Begun() {
      room > 0 && (Packed().used != [] || frameLabel == [])
    }
  }

  /** The PPDUs that the frames took, in order. */
  function TakenOf(frames: seq<Frame>): seq<Ppdu> {
    if frames == [] then [] else frames[0].Packed().taken + TakenOf(frames[1..])
  }

  datatype Decaps = Decaps(ctxs: seq<RxCtx>, sdus: seq<Sdu>, statuses: seq<DecapStatus>)

  /** The receiver decapsulates the frames one after the other, each into `slots` buffers. */
  function DecapAll(conf: Config, ctxs: seq<RxCtx>, frames: seq<Frame>, slots: nat): Decaps
    requires |ctxs| == FRAG_NUMBER
    decreases |frames|
  {
    if frames == [] then Decaps(ctxs, [], [])
    else
      var d := Decapsulate(conf, ctxs, frames[0].Bytes(), |frames[0].frameLabel|, slots);
      var rest := DecapAll(conf, d.ctxs, frames[1..], slots);
      Decaps(rest.ctxs, d.sdus + rest.sdus, [d.status] + rest.statuses)
  }

  /** Before each PPDU of each frame there is a free buffer. */
  predicate AllServed(conf: Config, ctxs: seq<RxCtx>, frames: seq<Frame>, slots: nat)
    requires |ctxs| == FRAG_NUMBER && AllPpdus(TakenOf(frames))
    decreases |frames|
  {
    frames != [] ==>
      (FirstTaken(frames);
       var ps := frames[0].Packed().taken;
       var run := RunRx(conf, ctxs, ps);
       Served(AllOutcomes(run.events), slots) == |ps| && AllServed(conf, run.ctxs, frames[1..], slots))
  }

  lemma FirstTaken(frames: seq<Frame>)
    requires frames != [] && AllPpdus(TakenOf(frames))
    ensures AllPpdus(frames[0].Packed().taken) && AllPpdus(TakenOf(frames[1..]))
  {
    assert forall p | p in frames[0].Packed().taken || p in TakenOf(frames[1..]) :: p in TakenOf(frames);
  }

  /** A buffer for each COMP and END of a frame, and one to spare for any PPDU after them, always serve. */
  lemma {:induction false} RoomyAllServed(conf: Config, ctxs: seq<RxCtx>, frames: seq<Frame>, slots: nat)
    requires |ctxs| == FRAG_NUMBER && AllPpdus(TakenOf(frames))
    requires forall f: Frame | f in frames :: AllPpdus(f.Packed().taken) && Roomy(f.Packed().taken, slots)
    ensures AllServed(conf, ctxs, frames, slots)
    decreases |frames|
  {
    hide RunRx, Roomy, AllOutcomes, AllPpdus, Served, Frame.Packed;
    if frames != [] {
      assert frames[0] in frames && forall f | f in frames[1..] :: f in frames;
      FirstTaken(frames);
      var ps := frames[0].Packed().taken;
      RoomyServesAll(conf, ctxs, ps, slots, slots);
      RoomyAllServed(conf, RunRx(conf, ctxs, ps).ctxs, frames[1..], slots);
    }
  }

  /** What is meant to go into one frame. */
  datatype Load = Load(frameLabel: seq<byte>, size: nat, ps: seq<Ppdu>) {
    /** A condition on sizes alone. */
    predicate Fits() {
      |frameLabel| in {0, 3, 6} && ps != [] && |frameLabel| + |Flatten(ps)| <= size
    }

    /** The frame that is offered these PPDUs in order. */
    function Offered(): Frame {
      Frame(frameLabel, size, Puts(ps))
    }
  }

  function FramesOf(loads: seq<Load>): seq<Frame> {
    if loads == [] then [] else [loads[0].Offered()] + FramesOf(loads[1..])
  }

  function Loaded(loads: seq<Load>): seq<Ppdu> {
    if loads == [] then [] else loads[0].ps + Loaded(loads[1..])
  }

  lemma OneLoad(load: Load)
    requires load.Fits() && forall p | p in load.ps :: Parsable(p)
    ensures load.Offered().Begun() && load.Offered().Packed().taken == load.ps
  {
    hide RunPack, LengthOf, Puts, Zeros;
    assert (forall p | p in load.ps :: p != []) && load.ps[0] in load.ps;
    TakesAllThatFits(load.frameLabel, load.size, load.ps);
    FrameIsBuilt(load.frameLabel, [], load.size, [], Puts(load.ps));
    hide Parsable;
    assert [] + load.ps == load.ps;
  }

  /** Frames that are large enough, by the sizes alone, and leave a buffer for each COMP and END: they carry exactly the
      PPDUs meant for them and every PPDU finds a buffer, which is all that the system theorem asks of frames. */
  lemma {:induction false} FittingFramesCarry(conf: Config, ctxs: seq<RxCtx>, loads: seq<Load>, slots: nat)
    requires |ctxs| == FRAG_NUMBER && AllPpdus(Loaded(loads)) && forall p | p in Loaded(loads) :: Parsable(p)
    requires forall load: Load | load in loads :: load.Fits() && AllPpdus(load.ps) && Roomy(load.ps, slots)
    ensures TakenOf(FramesOf(loads)) == Loaded(loads)
    ensures forall f: Frame | f in FramesOf(loads) :: f.Begun()
    ensures AllServed(conf, ctxs, FramesOf(loads), slots)
    decreases |loads|
  {
    hide RunRx, Roomy, AllOutcomes, AllPpdus, Served, Frame.Packed, Frame.Begun, Load.Fits, Load.Offered, Parsable;
    if loads != [] {
      var first, rest := loads[0], loads[1..];
      assert first in loads && forall load | load in rest :: load in loads;
      assert forall p | p in first.ps || p in Loaded(rest) :: p in Loaded(loads);
      OneLoad(first);
      LaterLoads(first, rest);
      var frames := FramesOf(loads);
      assert frames[0] == first.Offered() && frames[1..] == FramesOf(rest);
      var run := RunRx(conf, ctxs, first.ps);
      RoomyServesAll(conf, ctxs, first.ps, slots, slots);
      FittingFramesCarry(conf, run.ctxs, rest, slots);
      FirstTaken(frames);
    }
  }

  lemma LaterLoads(first: Load, rest: seq<Load>)
    requires AllPpdus(first.ps + Loaded(rest))
    ensures AllPpdus(first.ps) && AllPpdus(Loaded(rest))
  {
    assert forall p | p in first.ps || p in Loaded(rest) :: p in first.ps + Loaded(rest);
  }

  lemma OneFrame(conf: Config, ctxs: seq<RxCtx>, f: Frame, slots: nat)
    requires |ctxs| == FRAG_NUMBER && slots > 0 && f.Begun()
    requires AllPpdus(f.Packed().taken) && forall p | p in f.Packed().taken :: Parsable(p)
    requires var os := AllOutcomes(RunRx(conf, ctxs, f.Packed().taken).events);
      Served(os, slots) == |f.Packed().taken| && Aborted !in os
    ensures var run := RunRx(conf, ctxs, f.Packed().taken);
      var os := AllOutcomes(run.events);
      Decapsulate(conf, ctxs, f.Bytes(), |f.frameLabel|, slots) ==
        Decap(run.ctxs, Deliveries(os), if Rejected in os then DecapErr else DecapOk)
  {
    hide RunRx, AllOutcomes, Split, Consume, Parsable, AllPpdus, Deliveries, RunPack, Served;
    PackedFrameParses(f.frameLabel, f.room, f.calls);
    var ps := f.Packed().taken;
    ConsumeServes(conf, ctxs, Parse(ps, true), slots, DecapOk);
    assert ps[..|ps|] == ps;
  }

  lemma {:induction false} DeliveriesConcat(a: seq<Outcome>, b: seq<Outcome>)
    ensures Deliveries(a + b) == Deliveries(a) + Deliveries(b)
  {
    if a == [] {
      assert a + b == b;
    } else {
      assert (a + b)[1..] == a[1..] + b && (a + b)[0] == a[0];
      DeliveriesConcat(a[1..], b);
      var first, x, y := if a[0].Delivered? then [a[0].sdu] else [], Deliveries(a[1..]), Deliveries(b);
      assert first + (x + y) == (first + x) + y;
    }
  }

  lemma AllOutcomesConcat(a: seq<Event>, b: seq<Event>)
    ensures AllOutcomes(a + b) == AllOutcomes(a) + AllOutcomes(b)
  {
  }

  /** However the PPDUs were spread over frames, by whatever calls and into frames of whatever sizes, the frames
      decapsulate to what the PPDUs deliver, and some frame reports an error exactly when some PPDU is refused. */
  lemma {:induction false} FramesDeliver(conf: Config, ctxs: seq<RxCtx>, frames: seq<Frame>, slots: nat)
    requires |ctxs| == FRAG_NUMBER && slots > 0 && forall f: Frame | f in frames :: f.Begun()
    requires AllPpdus(TakenOf(frames)) && forall p | p in TakenOf(frames) :: Parsable(p)
    requires AllServed(conf, ctxs, frames, slots)
    requires Aborted !in AllOutcomes(RunRx(conf, ctxs, TakenOf(frames)).events)
    ensures var d, run := DecapAll(conf, ctxs, frames, slots), RunRx(conf, ctxs, TakenOf(frames));
      var os := AllOutcomes(run.events);
      && d.ctxs == run.ctxs && d.sdus == Deliveries(os)
      && |d.statuses| == |frames| && (forall s | s in d.statuses :: s == DecapOk || s == DecapErr)
      && (DecapErr in d.statuses <==> Rejected in os)
    decreases |frames|
  {
    hide RunRx, Decapsulate, Parsable, AllOutcomes, Deliveries, AllPpdus, Served,
      Frame.Packed, Frame.Bytes, Frame.Begun;
    if frames == [] {
      NothingDelivered(conf, ctxs);
    } else {
      FirstTaken(frames);
      var f, later := frames[0], TakenOf(frames[1..]);
      var ps := f.Packed().taken;
      assert f in frames && forall g | g in frames[1..] :: g in frames;
      assert forall p | p in ps || p in later :: p in TakenOf(frames);
      RunRxConcat(conf, ctxs, ps, later);
      var r := RunRx(conf, ctxs, ps);
      var rest := RunRx(conf, r.ctxs, later);
      AllOutcomesConcat(r.events, rest.events);
      var x, y := AllOutcomes(r.events), AllOutcomes(rest.events);
      DeliveriesConcat(x, y);
      assert forall o :: o in x + y <==> o in x || o in y;
      OneFrame(conf, ctxs, f, slots);
      FramesDeliver(conf, r.ctxs, frames[1..], slots);
      var d := DecapAll(conf, r.ctxs, frames[1..], slots);
      var s := if Rejected in x then DecapErr else DecapOk;
      assert forall t :: t in [s] + d.statuses <==> t == s || t in d.statuses;
    }
  }

  lemma NothingDelivered(conf: Config, ctxs: seq<RxCtx>)
    requires |ctxs| == FRAG_NUMBER
    ensures RunRx(conf, ctxs, []).ctxs == ctxs
    ensures AllOutcomes(RunRx(conf, ctxs, []).events) == [] && Deliveries([]) == []
  {
  }

  // ---- the whole system ----

  /** Where each delivered SDU came from. */
  function Sources(line: seq<Tagged>, os: seq<Outcome>): (src: seq<FragId>)
    requires |line| == |os|
  {
    if line == [] then [] else (if os[0].Delivered? then [line[0].origin] else []) + Sources(line[1..], os[1..])
  }

  function Pick(sdus: seq<Sdu>, src: seq<FragId>, id: FragId): seq<Sdu>
    requires |sdus| == |src|
  {
    if sdus == [] then [] else (if src[0] == id then [sdus[0]] else []) + Pick(sdus[1..], src[1..], id)
  }

  lemma {:induction false} PickedByOrigin(line: seq<Tagged>, os: seq<Outcome>, id: FragId)
    requires |line| == |os|
    ensures |Sources(line, os)| == |Deliveries(os)|
    ensures Pick(Deliveries(os), Sources(line, os), id) == Deliveries(OutcomesAt(line, os, id))
  {
    if line != [] {
      PickedByOrigin(line[1..], os[1..], id);
      var sdus, src := Deliveries(os[1..]), Sources(line[1..], os[1..]);
      var at := OutcomesAt(line[1..], os[1..], id);
      if os[0].Delivered? {
        assert Deliveries(os)[1..] == sdus && Sources(line, os)[1..] == src;
      } else {
        assert [] + sdus == sdus && [] + src == src;
      }
      if line[0].origin == id {
        assert ([os[0]] + at)[1..] == at;
        assert [] + Deliveries(at) == Deliveries(at);
      } else {
        assert [] + at == at;
        assert [] + Pick(sdus, src, id) == Pick(sdus, src, id);
      }
    }
  }

  lemma {:induction false} InItsOutcomes(line: seq<Tagged>, os: seq<Outcome>, k: nat)
    requires k < |line| == |os|
    ensures os[k] in OutcomesAt(line, os, line[k].origin)
  {
    if k > 0 {
      InItsOutcomes(line[1..], os[1..], k - 1);
    }
  }

  /** `all` is a merge of the eight lists, each in its own order and nothing else. */
  ghost predicate MergedFrom(all: seq<Sdu>, src: seq<FragId>, parts: seq<seq<Sdu>>)
    requires |parts| == FRAG_NUMBER
  {
    |src| == |all| && forall id: FragId :: Pick(all, src, id) == parts[id]
  }

  /** What each transmitter context should get through, from its own calls alone. */
  function Due(conf: Config, opss: seq<seq<Op>>): (parts: seq<seq<Sdu>>)
    requires |opss| == FRAG_NUMBER
    ensures |parts| == FRAG_NUMBER
  {
    seq(FRAG_NUMBER, i requires 0 <= i < FRAG_NUMBER =>
      Fates(conf, NEW_BELIEF, Note(conf, i, NEW_TX, Grounded, opss[i]).log).sdus)
  }

  lemma NoAbortOnLine(conf: Config, opss: seq<seq<Op>>, line: seq<Tagged>)
    requires |opss| == FRAG_NUMBER && IsMerge(conf, opss, line)
    ensures AllPpdus(OnLine(line))
    ensures var os := AllOutcomes(RunRx(conf, NewRx(), OnLine(line)).events);
      && Aborted !in os
      && ((forall id: FragId :: AllSendable(conf, opss[id])) ==> Rejected !in os)
  {
    hide RunRx, AllOutcomes, Deliveries, Run, RunTx, Note, Fates, OnLine, AllSendable, AllPpdus;
    MergedLinks(conf, opss, line, 0);
    var os := AllOutcomes(RunRx(conf, NewRx(), OnLine(line)).events);
    forall k: nat | k < |os|
      ensures os[k] != Aborted && ((forall id: FragId :: AllSendable(conf, opss[id])) ==> os[k] != Rejected) {
      MergedLinks(conf, opss, line, line[k].origin);
      InItsOutcomes(line, os, k);
    }
  }

  lemma MergeIsParsable(conf: Config, opss: seq<seq<Op>>, line: seq<Tagged>)
    requires |opss| == FRAG_NUMBER && IsMerge(conf, opss, line)
    ensures forall p | p in OnLine(line) :: Parsable(p)
  {
    hide RunTx, Parsable;
    forall p | p in OnLine(line) ensures Parsable(p) {
      var i: nat :| i < |line| && OnLine(line)[i] == p;
      var id := line[i].origin;
      InItsStream(line, i);
      StreamIsParsable(conf, id, NEW_TX, opss[id]);
      assert Of(line, id) == RunTx(conf, id, NEW_TX, opss[id]).ppdus;
    }
  }

  /** System theorem, from the users of the transmitter to the user of the receiver. Eight contexts of a new
      transmitter are used by any calls; their PPDUs are merged in any way and packed, by any calls, into frames of
      any sizes; a new receiver decapsulates the frames with a free buffer before each PPDU. Then what comes out is a
      merge of the eight lists that the fates of the sent SDUs give: all of it, nothing else, each list in order. When
      only sendable SDUs were offered no frame reports an error, and for each context with an empty queue its list is
      exactly the SDUs it took. */
  lemma SystemDelivers(conf: Config, opss: seq<seq<Op>>, line: seq<Tagged>, frames: seq<Frame>, slots: nat)
    requires |opss| == FRAG_NUMBER && IsMerge(conf, opss, line)
    requires TakenOf(frames) == OnLine(line) && AllPpdus(OnLine(line))
    requires slots > 0 && forall f: Frame | f in frames :: f.Begun()
    requires AllServed(conf, NewRx(), frames, slots)
    ensures var d := DecapAll(conf, NewRx(), frames, slots);
      && (exists src :: MergedFrom(d.sdus, src, Due(conf, opss)))
      && (forall s | s in d.statuses :: s == DecapOk || s == DecapErr)
      && ((forall id: FragId :: AllSendable(conf, opss[id])) ==> forall s | s in d.statuses :: s == DecapOk)
    ensures forall id: FragId :: AllSendable(conf, opss[id]) && RunTx(conf, id, NEW_TX, opss[id]).ctx.job == Idle ==>
      Due(conf, opss)[id] == RunTx(conf, id, NEW_TX, opss[id]).accepted
  {
    hide RunTx, RunRx, Run, Deliveries, Parsable, AllOutcomes, DecapAll, AllServed, AllSendable, Note, Fates, OnLine,
      AllPpdus, TakenOf, Frame.Begun, IsMerge, OutcomesAt, Sources, Pick;
    MergeIsParsable(conf, opss, line);
    NoAbortOnLine(conf, opss, line);
    FramesDeliver(conf, NewRx(), frames, slots);
    var os := AllOutcomes(RunRx(conf, NewRx(), OnLine(line)).events);
    var src := Sources(line, os);
    PickedByOrigin(line, os, 0);
    forall id: FragId ensures Pick(Deliveries(os), src, id) == Due(conf, opss)[id] {
      PickedByOrigin(line, os, id);
      MergedLinks(conf, opss, line, id);
    }
    assert MergedFrom(Deliveries(os), src, Due(conf, opss));
    forall id: FragId | AllSendable(conf, opss[id]) && RunTx(conf, id, NEW_TX, opss[id]).ctx.job == Idle
      ensures Due(conf, opss)[id] == RunTx(conf, id, NEW_TX, opss[id]).accepted {
      MergedLinks(conf, opss, line, id);
    }
  }
}
