/** The receiver (src/rle_receiver.c, src/reassembly.c, src/trailer.c, src/deencap.c): eight contexts, each with its
    own reassembly buffer, behave as the state machine of module Receive, and the parsing loop does to them what
    module Fpdu says. */
module Receiver {
  import opened Bytes
  import opened Conf
  import opened ProtoType
  import opened AlpduCodec
  import opened PpduHeader
  import opened Trailer
  import opened Crc
  import opened Ctx
  import opened Receive
  import opened ReassemblyBuffer
  import opened Fpdu

  /** The return codes of the handlers; AssertFailed stands for the end of the process. */
  datatype Ret = Error | Ok | ReassemblyOk | AssertFailed

  function RetOf(o: Outcome): Ret {
    match o
    case Rejected => Error
    case Accepted => Ok
    case Delivered(_) => ReassemblyOk
    case Aborted => AssertFailed
  }

  /** The fields of rle_ctx_mngt that a receiver uses. */
  class RasmCtx {
    const fragId: FragId
    const buff: RasmBuf
    var nextSeq: byte
    var useCrc: bool
    var current: nat
    var status: LinkStatus

    constructor (id: FragId)
      ensures fragId == id && fresh(buff) && fresh(buff.buffer)
      ensures Sound(false) && Value(false, false) == NewRxCtx()
    {
      fragId, nextSeq, useCrc, current, status := id, 0, false, 0, NO_STATUS;
      buff := new RasmBuf();
    }

    /** What a context keeps: in use, its buffer knows the size of the SDU, and the type that asks for the VLAN
        field comes with the VLAN type. */
    ghost predicate Sound(busy: bool)
      reads this, buff
    {
      && buff.Placed()
      && (busy ==> 0 < buff.sduSize == buff.sduEnd && (buff.compPtype == VLAN_COMP_WO_PTYPE ==> buff.ptype == VLAN))
    }

    ghost function Value(busy: bool, init: bool): (c: RxCtx)
      requires buff.Placed()
      reads this, buff, buff.buffer
      ensures c.busy == busy && c.seqInit == init
    {
      RxCtx(busy, nextSeq, init, useCrc, current, buff.sduEnd, buff.Got(), buff.ptype, buff.compPtype, status)
    }

    /** The error exit of the handlers; freeing the context is left to the receiver. */
    method Drop(lost: nat, ghost busy: bool, ghost init: bool)
      requires buff.Placed()
      modifies this`status
      ensures Value(false, init) == DropSdu(old(Value(busy, init)), lost)
    {
      status := status.(
        sdusDropped := status.sdusDropped + 1,
        sdusLost := (status.sdusLost + lost) % TWO_TO_64,
        bytesDropped := status.bytesDropped + current);
    }

    /** What a handler promises, given what the machine does. */
    twostate predicate Did(s: Step, ret: Ret, init: bool)
      reads this, buff, buff.buffer
    {
      && ret == RetOf(s.outcome)
      && (s.outcome != Aborted ==> Sound(s.ctx.busy) && Value(s.ctx.busy, init) == s.ctx)
    }

    /** A new SDU of the given total size is opened with its first fragment. */
    method Open(x: Extract, total: nat, ghost init: bool)
      requires buff.Placed() && |x.sduFrag| <= total && 0 < total <= MAX_EXPECTED
      requires x.compPtype == VLAN_COMP_WO_PTYPE ==> x.ptype == VLAN
      modifies buff, buff.buffer
      ensures Sound(true)
      ensures Value(true, init) == old(Value(true, init)).(
        expected := total, got := x.sduFrag, ptype := x.ptype, compPtype := x.compPtype)
    {
      buff.Init();
      buff.sduEnd := total;
      buff.ptype, buff.compPtype, buff.sduSize := x.ptype, x.compPtype, total;
      buff.Append(x.sduFrag);
    }

    /** reassembly_start_ppdu. */
    method Start(conf: Config, busy: bool, ghost init: bool, p: Ppdu) returns (ret: Ret)
      requires Sound(busy) && 2 <= |p| <= MAX_PPDU_SIZE
      modifies this, buff, buff.buffer
      ensures Did(StepStart(conf, old(Value(busy, init)), p), ret, init)
    {
      hide ExtractFrag, DropSdu, StartTotal, StartUsesCrc, StartSuppressed, StartLabel;
      current := |p|;
      status := status.(sdusIn := status.sdusIn + 1, bytesIn := status.bytesIn + |p|);
      ret := Error;
      if !busy && |p| >= 4 {
        var extracted := ExtractFrag(conf, StartSuppressed(p), StartLabel(p) == LABEL_SIGNAL, p[4..]);
        if extracted != None && |extracted.value.sduFrag| <= StartTotal(p) {
          var x, trailerLen := extracted.value, if StartUsesCrc(p) then 4 else 1;
          if StartTotal(p) < x.hdrLen {
            return AssertFailed;
          }
          var total := StartTotal(p) - x.hdrLen;
          if trailerLen <= total {
            total := total - trailerLen;
            useCrc := StartUsesCrc(p);
            if |x.sduFrag| <= total {
              if total == 0 {
                return AssertFailed;
              }
              Open(x, total, init);
              ret := Ok;
            }
          }
        }
      }
      if ret == Error {
        Drop(1, busy, init);
      }
    }

    /** reassembly_cont_ppdu. */
    method Cont(busy: bool, ghost init: bool, p: Ppdu) returns (ret: Ret)
      requires Sound(busy) && 2 <= |p| <= MAX_PPDU_SIZE
      modifies this`current, this`status, buff`fragStart, buff`fragEnd, buff.buffer
      ensures Did(StepCont(old(Value(busy, init)), p), ret, init)
    {
      hide DropSdu;
      Count(|p|, busy, init);
      var frag := p[2..];
      if !busy || buff.fragEnd + |frag| > buff.sduEnd {
        Drop(1, busy, init);
        return Error;
      }
      buff.Append(frag);
      return Ok;
    }

    /** check_alpdu_trailer. The difference of the two sequence numbers is a C remainder stored in a size_t. */
    method CheckSum(t: seq<byte>, sdu: Sdu, init: bool) returns (ok: bool, lost: nat, init': bool)
      requires |t| == if useCrc then 4 else 1
      modifies this`nextSeq
      ensures Check(ok, lost, nextSeq, init') == CheckTrailer(useCrc, t, sdu, old(nextSeq), init)
    {
      hide CrcBytes, SduCrc;
      ok, lost, init' := true, 0, init;
      if useCrc {
        var crc := ComputeCrc32(sdu);
        if t != CrcBytes(crc) {
          ok, lost := false, 1;
        }
      } else {
        var received := t[0];
        if !init {
          init' := true;
          nextSeq := received;
        } else if received != nextSeq {
          if received != 0 {
            ok := false;
            var diff: int := received - nextSeq;
            lost := if diff >= 0 then diff % 256 else TWO_TO_64 - (-diff) % 256;
          }
          nextSeq := received;
        }
        nextSeq := NextSeq(nextSeq);
      }
    }

    /** The last part of reassembly_end_ppdu, once all bytes are there. */
    method Settle(t: seq<byte>, init: bool, sdu: SduBuf) returns (ret: Ret, init': bool)
      requires Sound(true) && buff.fragEnd == buff.sduEnd && sdu.Valid() && sdu.buffer != buff.buffer
      requires |t| == if useCrc then 4 else 1
      modifies this`nextSeq, this`status, sdu, sdu.buffer
      ensures sdu.Valid()
      ensures Did(StepSettled(old(Value(true, init)), t), ret, init')
      ensures ret == ReassemblyOk ==> StepSettled(old(Value(true, init)), t).outcome == Delivered(sdu.Value())
    {
      hide Rebuild, DropSdu, CheckTrailer;
      var rebuilt := sdu.Finish(buff.ptype, buff.compPtype, buff.buffer[..buff.sduSize]);
      init' := init;
      if !rebuilt {
        Drop(0, true, init);
        return Error, init';
      }
      var ok, lost;
      ok, lost, init' := CheckSum(t, sdu.Value(), init);
      if !ok {
        Drop(lost, true, init');
        return Error, init';
      }
      status := status.(sdusOk := status.sdusOk + 1, bytesOk := status.bytesOk + sdu.size);
      return ReassemblyOk, init';
    }

    /** The counters that CONT and END move first. */
    method Count(len: nat, ghost busy: bool, ghost init: bool)
      requires buff.Placed()
      modifies this`current, this`status
      ensures Value(busy, init) == CountIn(old(Value(busy, init)), len)
    {
      current := current + len;
      status := status.(bytesIn := status.bytesIn + len);
    }

    /** reassembly_end_ppdu on a busy context. */
    method EndBusy(init: bool, p: Ppdu, sdu: SduBuf) returns (ret: Ret, init': bool)
      requires Sound(true) && 2 <= |p| <= MAX_PPDU_SIZE && sdu.Valid() && sdu.buffer != buff.buffer
      modifies this, buff, buff.buffer, sdu, sdu.buffer
      ensures sdu.Valid()
      ensures Did(StepEnd(old(Value(true, init)), p), ret, init')
      ensures ret == ReassemblyOk ==> StepEnd(old(Value(true, init)), p).outcome == Delivered(sdu.Value())
    {
      hide DropSdu, StepSettled;
      ret, init' := Error, init;
      Count(|p|, true, init);
      var frag, trailerLen := p[2..], if useCrc then 4 else 1;
      if |frag| >= trailerLen && buff.fragEnd + |frag| - trailerLen <= buff.sduEnd {
        var n := |frag| - trailerLen;
        buff.Append(frag[..n]);
        if buff.sduEnd <= buff.fragEnd {
          ret, init' := Settle(frag[n..], init, sdu);
          return;
        }
      }
      Drop(0, true, init);
    }

    /** reassembly_end_ppdu. */
    method End(busy: bool, init: bool, p: Ppdu, sdu: SduBuf) returns (ret: Ret, init': bool)
      requires Sound(busy) && 2 <= |p| <= MAX_PPDU_SIZE && sdu.Valid() && sdu.buffer != buff.buffer
      modifies this, buff, buff.buffer, sdu, sdu.buffer
      ensures sdu.Valid()
      ensures Did(StepEnd(old(Value(busy, init)), p), ret, init')
      ensures ret == ReassemblyOk ==> StepEnd(old(Value(busy, init)), p).outcome == Delivered(sdu.Value())
    {
      if busy {
        ret, init' := EndBusy(init, p, sdu);
      } else {
        hide DropSdu, CountIn;
        Count(|p|, false, init);
        Drop(1, false, init);
        Drop(0, false, init);
        ret, init' := Error, init;
      }
    }

    /** One of the three handlers, by the type of the PPDU. */
    method Step(conf: Config, busy: bool, init: bool, p: Ppdu, sdu: SduBuf) returns (ret: Ret, init': bool)
      requires Sound(busy) && 2 <= |p| <= MAX_PPDU_SIZE && TypeOf(p) != Complete
      requires sdu.Valid() && sdu.buffer != buff.buffer
      modifies this, buff, buff.buffer, sdu, sdu.buffer
      ensures sdu.Valid()
      ensures Did(StepCtx(conf, old(Value(busy, init)), p), ret, init')
      ensures ret == ReassemblyOk ==> StepCtx(conf, old(Value(busy, init)), p).outcome == Delivered(sdu.Value())
    {
      OnlyEndDelivers(conf, Value(busy, init), p);
      hide StepStart, StepCont, StepEnd, TypeOf;
      init' := init;
      match TypeOf(p)
      case StartFrag => ret := Start(conf, busy, init, p);
      case ContFrag => ret := Cont(busy, init, p);
      case EndFrag => ret, init' := End(busy, init, p, sdu);
    }
  }

  lemma OnlyEndDelivers(conf: Config, c: RxCtx, p: Ppdu)
    requires |p| >= 2 && TypeOf(p) != Complete
    ensures StepCtx(conf, c, p).outcome.Delivered? ==> TypeOf(p) == EndFrag
  {
    hide ExtractFrag, StepEnd, TypeOf;
  }

  ghost function Buffers(sdus: seq<SduBuf>): set<object> {
    set s | s in sdus :: s.buffer as object
  }

  lemma InBuffers(sdus: seq<SduBuf>, i: nat)
    requires i < |sdus|
    ensures sdus[i].buffer in Buffers(sdus)
  {
    assert sdus[i] in sdus;
  }

  /** A context is busy after a PPDU exactly when the PPDU was accepted; only a START makes it so. */
  lemma BusyAfter(conf: Config, c: RxCtx, p: Ppdu)
    requires |p| >= 2 && TypeOf(p) != Complete
    ensures var s := StepCtx(conf, c, p);
      && (s.outcome != Aborted ==> (s.ctx.busy <==> s.outcome == Accepted))
      && (s.outcome == Accepted && TypeOf(p) != StartFrag ==> c.busy)
  {
    hide ExtractFrag, Rebuild, CheckTrailer, TypeOf;
  }

  function Extended(got: seq<Sdu>, o: Outcome): seq<Sdu> {
    if o.Delivered? then got + [o.sdu] else got
  }

  /** The result from here on is what follows after this turn, from these contexts and with these SDUs. */
  ghost predicate Continues(conf: Config, ctxs: seq<RxCtx>, bytes: seq<byte>, slots: nat, status: DecapStatus,
                            got: seq<Sdu>, ret: Ret, got': seq<Sdu>, ctxs': seq<RxCtx>)
    requires |ctxs| == FRAG_NUMBER == |ctxs'| && slots > 0 && |bytes| >= 2 && LengthOf(bytes) <= |bytes|
  {
    && |got| <= |got'| == |got| + (if ret == ReassemblyOk then 1 else 0)
    && After(got, Consume(conf, ctxs, Split(bytes), slots, status)) ==
         After(got', Consume(conf, ctxs', Split(bytes[LengthOf(bytes)..]), slots - (|got'| - |got|),
                             if ret == Error then DecapErr else status))
  }

  ghost predicate Dies(conf: Config, ctxs: seq<RxCtx>, bytes: seq<byte>, slots: nat, status: DecapStatus,
                       got: seq<Sdu>, got': seq<Sdu>)
    requires |ctxs| == FRAG_NUMBER
  {
    var d := After(got, Consume(conf, ctxs, Split(bytes), slots, status));
    got' == got && d.sdus == got && d.status == DecapAborted
  }

  /** The same turn on the specification. */
  lemma TurnOnSpec(conf: Config, ctxs: seq<RxCtx>, bytes: seq<byte>, slots: nat, status: DecapStatus, got: seq<Sdu>)
    requires |ctxs| == FRAG_NUMBER && slots > 0
    requires |bytes| >= 2 && !(bytes[0] == 0 && bytes[1] == 0) && LengthOf(bytes) <= |bytes|
    ensures var r := Receive.Deencap(conf, ctxs, bytes[..LengthOf(bytes)]);
      if r.outcome == Aborted then Dies(conf, ctxs, bytes, slots, status, got, Extended(got, r.outcome))
      else Continues(conf, ctxs, bytes, slots, status, got, RetOf(r.outcome), Extended(got, r.outcome), r.ctxs)
  {
    hide Split, Consume, LengthOf, Receive.Deencap;
    ConsumeTurn(conf, ctxs, bytes, slots, status, got);
  }

  class Receiver {
    const conf: Config
    const ctxs: seq<RasmCtx>
    const seqInit: array<bool>
    var freeCtx: Mask

    /** Eight contexts that share nothing. */
    ghost predicate Apart() {
      && |ctxs| == FRAG_NUMBER && conf.Check() && seqInit.Length == FRAG_NUMBER
      && (forall i: FragId :: ctxs[i].fragId == i)
      && (forall i: FragId, j: FragId :: i != j ==>
            ctxs[i] != ctxs[j] && ctxs[i].buff != ctxs[j].buff && ctxs[i].buff.buffer != ctxs[j].buff.buffer)
    }

    /** The objects of the contexts. */
    ghost function Repr(): set<object> {
      (set c | c in ctxs :: c as object)
      + (set c | c in ctxs :: c.buff as object)
      + (set c | c in ctxs :: c.buff.buffer as object)
    }

    ghost predicate CtxOk(id: FragId)
      requires |ctxs| == FRAG_NUMBER
      reads this, ctxs[id], ctxs[id].buff
    {
      ctxs[id].Sound(!IsFree(freeCtx, id))
    }

    ghost predicate Valid()
      reads this, Repr()
    {
      && Apart()
      && (forall id: FragId :: ctxs[id] in ctxs)
      && forall id: FragId :: CtxOk(id)
    }

    /** What the context of one id means: a state of the machine of module Receive. */
    ghost function State(id: FragId): RxCtx
      requires |ctxs| == FRAG_NUMBER == seqInit.Length && CtxOk(id)
      reads this, seqInit, ctxs[id], ctxs[id].buff, ctxs[id].buff.buffer
    {
      ctxs[id].Value(!IsFree(freeCtx, id), seqInit[id])
    }

    ghost function States(): (s: seq<RxCtx>)
      requires Valid()
      reads this, seqInit, Repr()
      ensures |s| == FRAG_NUMBER
    {
      [State(0), State(1), State(2), State(3), State(4), State(5), State(6), State(7)]
    }

    lemma Sizes(id: FragId)
      requires Valid()
      ensures |ctxs| == FRAG_NUMBER == seqInit.Length && CtxOk(id)
    {
    }

    lemma StatesAt(id: FragId)
      requires Valid()
      ensures States()[id] == State(id)
    {
      hide State, Valid;
    }

    /** The caller's SDU buffer is none of the receiver's. */
    ghost predicate Foreign(sdu: SduBuf) {
      sdu.buffer as object != seqInit && forall c | c in ctxs :: sdu.buffer != c.buff.buffer
    }

    /** rle_receiver_new, for a configuration that rle_config_check accepts. */
    constructor (c: Config)
      requires c.Check()
      ensures Valid() && conf == c
      ensures forall id: FragId :: State(id) == NewRxCtx()
    {
      conf, freeCtx := c, 0;
      var made: seq<RasmCtx> := [];
      for i := 0 to FRAG_NUMBER
        invariant |made| == i
        invariant forall k :: 0 <= k < i ==>
          made[k].fragId == k && allocated(made[k]) && made[k].Sound(false) && made[k].Value(false, false) == NewRxCtx()
        invariant forall k, l :: 0 <= k < l < i ==>
          made[k] != made[l] && made[k].buff != made[l].buff && made[k].buff.buffer != made[l].buff.buffer
      {
        var ctx := new RasmCtx(i);
        made := made + [ctx];
      }
      ctxs := made;
      seqInit := new bool[FRAG_NUMBER](i => false);
      new;
      NothingBusy();
    }

    /** reassembly_comp_ppdu: no context is touched. */
    method Comp(p: Ppdu, sdu: SduBuf) returns (ret: Ret)
      requires 2 <= |p| <= MAX_PPDU_SIZE && sdu.Valid()
      modifies sdu, sdu.buffer
      ensures sdu.Valid() && ret == RetOf(StepComp(conf, p))
      ensures ret == ReassemblyOk ==> StepComp(conf, p) == Delivered(sdu.Value())
    {
      hide ExtractFrag, Rebuild;
      var extracted := ExtractFrag(conf, CompSuppressed(p), CompLabel(p) == LABEL_SIGNAL, p[2..]);
      if extracted == None {
        return Error;
      }
      var x := extracted.value;
      var rebuilt := sdu.Finish(x.ptype, x.compPtype, x.sduFrag);
      return if rebuilt then ReassemblyOk else Error;
    }

    /** Contexts whose objects, sequence flag and bit did not change mean what they meant. */
    twostate lemma Untouched(id: FragId)
      requires old(Valid())
      requires forall other: FragId :: other != id ==>
        && unchanged(ctxs[other]) && unchanged(ctxs[other].buff) && unchanged(ctxs[other].buff.buffer)
        && seqInit[other] == old(seqInit[other])
        && (IsFree(freeCtx, other) <==> old(IsFree(freeCtx, other)))
      ensures forall other: FragId :: other != id ==> CtxOk(other) && State(other) == old(State(other))
    {
      forall other: FragId | other != id ensures CtxOk(other) && State(other) == old(State(other)) {
        assert old(CtxOk(other));
      }
    }

    /** The bit of the context after a handler: a START that is accepted takes the context, an error or an END frees
        it. */
    method Mark(ret: Ret, t: FragType, id: FragId, ghost c: RxCtx)
      requires |ctxs| == FRAG_NUMBER == seqInit.Length && ret != AssertFailed && t != Complete
      requires c.busy <==> ret == Ok
      requires ret == Ok && t != StartFrag ==> !IsFree(freeCtx, id)
      modifies this`freeCtx
      ensures IsFree(freeCtx, id) <==> !c.busy
      ensures forall other: FragId :: other != id ==> (IsFree(freeCtx, other) <==> old(IsFree(freeCtx, other)))
    {
      forall other: FragId {
        MaskUpdate(freeCtx, id, other);
      }
      hide IsFree, SetBusy, SetFree;
      if ret != Ok {
        freeCtx := SetFree(freeCtx, id);
      } else if t == StartFrag {
        freeCtx := SetBusy(freeCtx, id);
      }
    }

    /** The handlers of START, CONT and END: the context of the PPDU steps as StepCtx says, and no other is touched. */
    method Handle(p: Ppdu, id: FragId, sdu: SduBuf) returns (ret: Ret)
      requires Valid() && 2 <= |p| <= MAX_PPDU_SIZE && TypeOf(p) != Complete && id == FragIdOf(p)
      requires sdu.Valid() && Foreign(sdu)
      modifies this`freeCtx, seqInit, ctxs[id], ctxs[id].buff, ctxs[id].buff.buffer, sdu, sdu.buffer
      ensures sdu.Valid()
      ensures ret == RetOf(StepCtx(conf, old(State(id)), p).outcome)
      ensures ret == ReassemblyOk ==> StepCtx(conf, old(State(id)), p).outcome == Delivered(sdu.Value())
      ensures ret != AssertFailed ==> Valid() && State(id) == StepCtx(conf, old(State(id)), p).ctx
      ensures ret != AssertFailed ==> forall other: FragId :: other != id ==> State(other) == old(State(other))
    {
      hide TypeOf, FragIdOf, StepCtx, IsFree, RasmCtx.Sound, RasmCtx.Value;
      assert CtxOk(id);
      ghost var c := StepCtx(conf, State(id), p).ctx;
      BusyAfter(conf, State(id), p);
      assert StepCtx(conf, State(id), p).outcome == Accepted && TypeOf(p) != StartFrag ==> !IsFree(freeCtx, id) by {
        assert State(id).busy == !IsFree(freeCtx, id);
      }
      var init;
      ret, init := ctxs[id].Step(conf, !IsFree(freeCtx, id), seqInit[id], p, sdu);
      seqInit[id] := init;
      if ret != AssertFailed {
        Mark(ret, TypeOf(p), id, c);
        Untouched(id);
      }
    }

    /** rle_receiver_free_context. */
    method FreeContext(id: FragId)
      requires Valid()
      modifies this`freeCtx
      ensures Valid() && State(id) == old(State(id)).(busy := false)
      ensures forall other: FragId :: other != id ==> State(other) == old(State(other))
    {
      forall other: FragId {
        MaskUpdate(freeCtx, id, other);
      }
      hide IsFree, SetFree;
      assert CtxOk(id);
      freeCtx := SetFree(freeCtx, id);
      Untouched(id);
    }

    /** One context stepped, the others stayed. */
    twostate lemma StatesStep(id: FragId)
      requires old(Valid()) && Valid()
      requires forall other: FragId :: other != id ==> State(other) == old(State(other))
      ensures States() == old(States())[id := State(id)]
    {
      ghost var now := State(id);
      hide Valid, State, States;
      forall k: FragId ensures States()[k] == old(States())[id := now][k] {
        StatesAt(k);
        OldStatesAt(k);
      }
    }

    twostate lemma OldStatesAt(id: FragId)
      requires old(Valid())
      ensures old(States())[id] == old(State(id))
    {
      hide State, Valid;
    }

    twostate lemma AllUntouched()
      requires old(Valid()) && unchanged(this) && unchanged(seqInit)
      requires forall id: FragId :: unchanged(ctxs[id]) && unchanged(ctxs[id].buff) && unchanged(ctxs[id].buff.buffer)
      ensures Valid() && States() == old(States())
    {
    }

    /** A COMP: no context changes. */
    method CompOnly(p: Ppdu, sdu: SduBuf) returns (ret: Ret)
      requires Valid() && 2 <= |p| <= MAX_PPDU_SIZE && sdu.Valid() && Foreign(sdu)
      modifies sdu, sdu.buffer
      ensures sdu.Valid() && ret == RetOf(StepComp(conf, p))
      ensures ret == ReassemblyOk ==> StepComp(conf, p) == Delivered(sdu.Value())
      ensures Valid() && States() == old(States())
    {
      hide StepComp, States, CtxOk;
      ret := Comp(p, sdu);
      AllUntouched();
    }

    /** A fragment, and the second freeing of its context in the parsing loop when it was refused. */
    method HandleAndFree(p: Ppdu, id: FragId, sdu: SduBuf) returns (ret: Ret)
      requires Valid() && 2 <= |p| <= MAX_PPDU_SIZE && TypeOf(p) != Complete && id == FragIdOf(p)
      requires sdu.Valid() && Foreign(sdu)
      modifies this`freeCtx, seqInit, ctxs[id], ctxs[id].buff, ctxs[id].buff.buffer, sdu, sdu.buffer
      ensures sdu.Valid()
      ensures ret == RetOf(StepCtx(conf, old(State(id)), p).outcome)
      ensures ret == ReassemblyOk ==> StepCtx(conf, old(State(id)), p).outcome == Delivered(sdu.Value())
      ensures ret != AssertFailed ==> Valid() && States() == old(States())[id := StepCtx(conf, old(State(id)), p).ctx]
    {
      hide TypeOf, FragIdOf, StepCtx, State, States, Valid, CtxOk;
      Sizes(id);
      BusyAfter(conf, State(id), p);
      ret := Handle(p, id, sdu);
      if ret == Error {
        FreeContext(id);
      }
      if ret != AssertFailed {
        StatesStep(id);
      }
    }

    /** rle_receiver_deencap_data. */
    method Deencap(p: Ppdu, sdu: SduBuf) returns (ret: Ret, index: int)
      requires Valid() && 2 <= |p| <= MAX_PPDU_SIZE && sdu.Valid() && Foreign(sdu)
      modifies this`freeCtx, seqInit, sdu, sdu.buffer
      modifies ctxs[FragIdOf(p)], ctxs[FragIdOf(p)].buff, ctxs[FragIdOf(p)].buff.buffer
      ensures sdu.Valid()
      ensures var r := Receive.Deencap(conf, old(States()), p);
        && ret == RetOf(r.outcome) && index == r.index
        && (ret == ReassemblyOk ==> r.outcome == Delivered(sdu.Value()))
        && (ret != AssertFailed ==> Valid() && States() == r.ctxs)
    {
      var id := FragIdOf(p);
      StatesAt(id);
      hide TypeOf, FragIdOf, StepCtx, StepComp, State, CtxOk, States;
      if TypeOf(p) == Complete {
        ret := CompOnly(p, sdu);
        index := -1;
      } else {
        ret := HandleAndFree(p, id, sdu);
        index := id;
      }
    }

    /** The SDU buffers of the caller share nothing with one another or with the receiver. */
    ghost predicate AllForeign(sdus: seq<SduBuf>) {
      && (forall s | s in sdus :: Foreign(s))
      && (forall i, j :: 0 <= i < j < |sdus| ==> sdus[i] != sdus[j] && sdus[i].buffer != sdus[j].buffer)
    }

    /** The first SDU buffers hold these SDUs. */
    ghost predicate Hold(sdus: seq<SduBuf>, got: seq<Sdu>)
      reads sdus, Buffers(sdus)
    {
      && |got| <= |sdus|
      && forall i :: 0 <= i < |got| ==> sdus[i].Valid() && sdus[i].Value() == got[i]
    }

    ghost predicate AllValid(sdus: seq<SduBuf>)
      reads sdus
    {
      forall s | s in sdus :: s.Valid()
    }

    /** One turn of the loop of rle_decapsulate: only the next SDU buffer is written. */
    method ParseOne(p: Ppdu, sdus: seq<SduBuf>, nr: nat, ghost got: seq<Sdu>)
      returns (ret: Ret, ghost got': seq<Sdu>)
      requires Valid() && 2 <= |p| <= MAX_PPDU_SIZE
      requires AllForeign(sdus) && AllValid(sdus) && Hold(sdus, got) && |got| == nr < |sdus|
      modifies this`freeCtx, seqInit, sdus[nr], sdus[nr].buffer
      modifies ctxs[FragIdOf(p)], ctxs[FragIdOf(p)].buff, ctxs[FragIdOf(p)].buff.buffer
      ensures ret == RetOf(Receive.Deencap(conf, old(States()), p).outcome)
      ensures ret != AssertFailed ==> Valid() && States() == Receive.Deencap(conf, old(States()), p).ctxs
      ensures AllValid(sdus) && Hold(sdus, got')
      ensures got' == Extended(got, Receive.Deencap(conf, old(States()), p).outcome)
    {
      hide States, FragIdOf, Receive.Deencap, CtxOk;
      var index;
      ret, index := Deencap(p, sdus[nr]);
      forall i | 0 <= i < nr ensures sdus[i].Valid() && sdus[i].Value() == got[i] {
        assert sdus[i] in sdus && old(sdus[i].Value()) == got[i];
        assert unchanged(sdus[i]) && unchanged(sdus[i].buffer);
      }
      got' := if ret == ReassemblyOk then got + [sdus[nr].Value()] else got;
    }

    lemma InRepr(id: FragId)
      requires Valid()
      ensures |ctxs| == FRAG_NUMBER
      ensures ctxs[id] in Repr() && ctxs[id].buff in Repr() && ctxs[id].buff.buffer in Repr()
    {
      assert ctxs[id] in ctxs;
      hide CtxOk;
    }

    /** The body of the loop for a PPDU that fits and a free SDU buffer, followed on the specification. */
    method Turn(bytes: seq<byte>, length: nat, sdus: seq<SduBuf>, nr: nat, ghost status: DecapStatus,
                ghost got: seq<Sdu>)
      returns (ret: Ret, ghost got': seq<Sdu>)
      requires Valid() && AllForeign(sdus) && AllValid(sdus)
      requires |bytes| >= 2 && !(bytes[0] == 0 && bytes[1] == 0) && length == LengthOf(bytes) <= |bytes|
      requires Hold(sdus, got) && |got| == nr < |sdus|
      modifies this`freeCtx, seqInit, Repr()
      modifies sdus, Buffers(sdus)
      ensures AllValid(sdus) && Hold(sdus, got')
      ensures ret == AssertFailed ==> Dies(conf, old(States()), bytes, |sdus| - nr, status, got, got')
      ensures ret != AssertFailed ==>
        Valid() && Continues(conf, old(States()), bytes, |sdus| - nr, status, got, ret, got', States())
    {
      hide Apart, Repr, Buffers, Valid, States, CtxOk, LengthOf, Receive.Deencap, FragIdOf, AllValid,
        AllForeign, Hold, Extended, Dies, Continues;
      InRepr(FragIdOf(bytes[..length]));
      InBuffers(sdus, nr);
      ret, got' := ParseOne(bytes[..length], sdus, nr, got);
      TurnOnSpec(conf, old(States()), bytes, |sdus| - nr, status, got);
    }

    /** What is left of a frame, parsed from here, gives the result `all` after the SDUs `got`. */
    ghost predicate Ahead(all: Decap, bytes: seq<byte>, sdus: seq<SduBuf>, nr: nat, status: DecapStatus, got: seq<Sdu>)
      reads this, seqInit, Repr()
      reads sdus, Buffers(sdus)
    {
      && Valid() && AllValid(sdus) && Hold(sdus, got)
      && nr == |got| && status != DecapAborted
      && After(got, Consume(conf, States(), Split(bytes), |sdus| - nr, status)) == all
    }

    /** The receiver, the SDU buffers and what was returned are the result `all`. */
    ghost predicate Finished(all: Decap, sdus: seq<SduBuf>, status: DecapStatus, nr: nat)
      reads this, seqInit, Repr()
      reads sdus, Buffers(sdus)
    {
      && status == all.status && nr == |all.sdus| && Hold(sdus, all.sdus)
      && (status != DecapAborted ==> Valid() && States() == all.ctxs)
    }

    lemma Begins(bytes: seq<byte>, sdus: seq<SduBuf>)
      requires Valid() && AllValid(sdus)
      ensures Ahead(Consume(conf, States(), Split(bytes), |sdus|, DecapOk), bytes, sdus, 0, DecapOk, [])
    {
      hide Valid, States, AllValid, Consume, Split;
      var all := Consume(conf, States(), Split(bytes), |sdus|, DecapOk);
      assert [] + all.sdus == all.sdus;
    }

    lemma Ends(all: Decap, bytes: seq<byte>, sdus: seq<SduBuf>, nr: nat, status: DecapStatus, got: seq<Sdu>)
      requires Ahead(all, bytes, sdus, nr, status, got)
      ensures nr <= |sdus|
      ensures var padding := |bytes| < 2 || (bytes[0] == 0 && bytes[1] == 0);
        && (padding ==> Finished(all, sdus, status, nr))
        && (!padding && LengthOf(bytes) > |bytes| ==> Finished(all, sdus, DecapErr, nr))
        && (!padding && LengthOf(bytes) <= |bytes| && nr == |sdus| ==> Finished(all, sdus, DecapSomeDrop, nr))
    {
      hide LengthOf, Valid, States, AllValid;
      ConsumeEnds(conf, States(), bytes, |sdus| - nr, status, got);
    }

    /** One turn of the loop, followed on the specification. */
    method Advance(ghost all: Decap, bytes: seq<byte>, length: nat, sdus: seq<SduBuf>, nr: nat,
                   ghost status: DecapStatus, ghost got: seq<Sdu>) returns (ret: Ret, ghost got': seq<Sdu>)
      requires Ahead(all, bytes, sdus, nr, status, got) && AllForeign(sdus) && nr < |sdus|
      requires |bytes| >= 2 && !(bytes[0] == 0 && bytes[1] == 0) && length == LengthOf(bytes) <= |bytes|
      modifies this`freeCtx, seqInit, Repr()
      modifies sdus, Buffers(sdus)
      ensures ret == AssertFailed ==> Finished(all, sdus, DecapAborted, nr)
      ensures ret != AssertFailed ==>
        Ahead(all, bytes[length..], sdus, if ret == ReassemblyOk then nr + 1 else nr,
              if ret == Error then DecapErr else status, got')
    {
      hide Repr, Buffers, Valid, States, Split, Consume, LengthOf, AllForeign, AllValid, Hold;
      ret, got' := Turn(bytes, length, sdus, nr, status, got);
    }

    /** The loop of rle_decapsulate, from the byte after the label. Each turn skips at least two bytes. */
    method ParseFrame(fpdu: seq<byte>, from: nat, sdus: seq<SduBuf>) returns (status: DecapStatus, sdusNr: nat)
      requires Valid() && AllForeign(sdus) && AllValid(sdus) && from <= |fpdu|
      modifies this`freeCtx, seqInit, Repr()
      modifies sdus, Buffers(sdus)
      ensures Finished(Consume(conf, old(States()), Split(fpdu[from..]), |sdus|, DecapOk), sdus, status, sdusNr)
    {
      hide Repr, Buffers, Valid, States, Split, Consume, LengthOf, AllForeign, AllValid, Hold, Ahead, Finished;
      var offset, padding := from, false;
      ghost var got: seq<Sdu> := [];
      ghost var all := Consume(conf, States(), Split(fpdu[from..]), |sdus|, DecapOk);
      status, sdusNr := DecapOk, 0;
      Begins(fpdu[offset..], sdus);
      while offset + 1 < |fpdu| && !padding
        invariant from <= offset <= |fpdu|
        invariant Ahead(all, fpdu[offset..], sdus, sdusNr, status, got)
        invariant padding ==> offset + 1 < |fpdu| && fpdu[offset] == 0 == fpdu[offset + 1]
        decreases |fpdu| - offset, !padding
      {
        Ends(all, fpdu[offset..], sdus, sdusNr, status, got);
        if fpdu[offset] == 0 && fpdu[offset + 1] == 0 {
          padding := true;
          continue;
        }
        var length := LengthOf(fpdu[offset..]);
        if length > |fpdu| - offset {
          return DecapErr, sdusNr;
        }
        if sdusNr == |sdus| {
          return DecapSomeDrop, sdusNr;
        }
        var ret;
        ret, got := Advance(all, fpdu[offset..], length, sdus, sdusNr, status, got);
        assert fpdu[offset..][length..] == fpdu[offset + length..];
        offset := offset + length;
        if ret == AssertFailed {
          return DecapAborted, sdusNr;
        }
        if ret == Error {
          status := DecapErr;
        } else if ret == ReassemblyOk {
          sdusNr := sdusNr + 1;
        }
      }
      Ends(all, fpdu[offset..], sdus, sdusNr, status, got);
    }

    /** rle_decapsulate: the loop over the frame does what Fpdu.Decapsulate says, whatever the bytes. The frame itself
        is only read. */
    method Decapsulate(fpdu: array<byte>, sdus: seq<SduBuf>, payloadLabel: array<byte>)
      returns (status: DecapStatus, sdusNr: nat)
      requires Valid() && AllForeign(sdus) && AllValid(sdus)
      requires fpdu != payloadLabel && Outside(payloadLabel, sdus)
      modifies this`freeCtx, seqInit, Repr()
      modifies sdus, Buffers(sdus), payloadLabel
      ensures Finished(Fpdu.Decapsulate(conf, old(States()), old(fpdu[..]), payloadLabel.Length, |sdus|), sdus, status,
                       sdusNr)
      ensures status !in {DecapErrInvFpdu, DecapErrInvSdus, DecapErrInvPl} ==>
        payloadLabel[..] == old(fpdu[..])[..payloadLabel.Length]
    {
      hide Valid, States, CtxOk, Split, Consume;
      sdusNr := 0;
      if fpdu.Length == 0 || fpdu.Length < payloadLabel.Length {
        return DecapErrInvFpdu, 0;
      }
      if |sdus| == 0 {
        return DecapErrInvSdus, 0;
      }
      if payloadLabel.Length != 0 && payloadLabel.Length != 3 && payloadLabel.Length != 6 {
        return DecapErrInvPl, 0;
      }
      forall i | 0 <= i < payloadLabel.Length {
        payloadLabel[i] := fpdu[i];
      }
      assert Valid() && States() == old(States());
      assert fpdu[..] == old(fpdu[..]);
      status, sdusNr := ParseFrame(fpdu[..], payloadLabel.Length, sdus);
    }

    /** An array of the caller's that the receiver does not hold. */
    ghost predicate Outside(a: array<byte>, sdus: seq<SduBuf>) {
      && a as object != seqInit
      && (forall c | c in ctxs :: a != c.buff.buffer)
      && (forall s | s in sdus :: a != s.buffer)
    }
  }
}
