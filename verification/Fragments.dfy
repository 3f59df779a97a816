/** What the PPDUs of one SDU look like on the line, whatever the burst sizes were. */
module Fragments {
  import opened Bytes
  import opened Conf
  import opened ProtoType
  import opened AlpduCodec
  import opened PpduHeader
  import opened Trailer
  import opened Crc
  import opened Ctx
  import opened Transmit

  /** CONT* END: no CONT is empty, and the END holds the whole trailer. */
  predicate IsTail(conf: Config, id: FragId, ps: seq<Ppdu>) {
    && |ps| > 0
    && var p := ps[0];
       if |ps| == 1 then
         && 2 + conf.TrailerLen() <= |p| <= MAX_PPDU_SIZE
         && p[..2] == ContEndHeader(true, |p| - 2, id)
       else
         && 2 < |p| <= MAX_PPDU_SIZE
         && p[..2] == ContEndHeader(false, |p| - 2, id)
         && IsTail(conf, id, ps[1..])
  }

  /** The payloads of CONT and END PPDUs, joined. */
  function TailBytes(ps: seq<Ppdu>): seq<byte> {
    if ps == [] then [] else (if |ps[0]| < 2 then [] else ps[0][2..]) + TailBytes(ps[1..])
  }

  /** Everything a fragmented ALPDU puts on the line: header, body, trailer. */
  function Line(conf: Config, sdu: Sdu, s: byte): seq<byte> {
    Encode(conf, sdu).Bytes() + Protection(conf, sdu, s)
  }

  predicate SentWhole(conf: Config, sdu: Sdu, ps: seq<Ppdu>) {
    var a := Encode(conf, sdu);
    && |a.Bytes()| <= MAX_PPDU_PL_SIZE
    && ps == [CompHeader(|a.Bytes()|, LabelType(conf, sdu.ptype, a.Suppressed()), a.Suppressed()) + a.Bytes()]
  }

  /** A START holds the whole ALPDU header and at least one SDU byte, no byte of the trailer, and announces the
      length of the whole line. */
  predicate IsStart(conf: Config, id: FragId, sdu: Sdu, s: byte, p: Ppdu) {
    var a, all := Encode(conf, sdu), Line(conf, sdu, s);
    && 4 + |a.hdr| + 1 <= |p| <= MAX_PPDU_SIZE
    && |p| - 4 <= |a.Bytes()|
    && p == StartHeader(|p| - 2, id, conf.UseCrc(), |all|, LabelType(conf, sdu.ptype, a.Suppressed()), a.Suppressed())
            + all[..|p| - 4]
  }

  /** START CONT* END with the payloads a partition of the line bytes. */
  predicate SentInFragments(conf: Config, id: FragId, sdu: Sdu, s: byte, ps: seq<Ppdu>) {
    && |ps| >= 2
    && IsStart(conf, id, sdu, s, ps[0])
    && IsTail(conf, id, ps[1..])
    && TailBytes(ps[1..]) == Line(conf, sdu, s)[|ps[0]| - 4..]
  }

  /** One SDU as sent with sequence number `s`. */
  predicate SentAs(conf: Config, id: FragId, sdu: Sdu, s: byte, ps: seq<Ppdu>) {
    SentWhole(conf, sdu, ps) || SentInFragments(conf, id, sdu, s, ps)
  }

  datatype Drained = Drained(ppdus: seq<Ppdu>, job: TxJob, seqNb: byte)

  /** Calls of rle_fragment with the given burst sizes, until the job is done or the sizes run out. */
  function Drain(conf: Config, id: FragId, job: TxJob, seqNb: byte, bursts: seq<nat>): Drained
    requires JobOk(conf, job)
    decreases |bursts|
  {
    if bursts == [] || job == Idle then Drained([], job, seqNb)
    else
      CutOneKeepsJobOk(conf, id, job, seqNb, bursts[0]);
      match CutOne(conf, id, job, seqNb, bursts[0])
      case None => Drain(conf, id, job, seqNb, bursts[1..])
      case Some(s) =>
        var rest := Drain(conf, id, s.job, s.seqNb, bursts[1..]);
        Drained([s.ppdu] + rest.ppdus, rest.job, rest.seqNb)
  }

  /** One PPDU of a fragmented ALPDU: the END with all that was left, or a CONT with the next bytes. */
  lemma NextCut(conf: Config, id: FragId, unsent: seq<byte>, seqNb: byte, burst: nat)
    requires JobOk(conf, Rest(unsent)) && CutOne(conf, id, Rest(unsent), seqNb, burst).Some?
    ensures var s := CutOne(conf, id, Rest(unsent), seqNb, burst).value;
      && s.seqNb == seqNb && 2 < |s.ppdu| <= MAX_PPDU_SIZE
      && (if s.job == Idle then
            && s.ppdu[..2] == ContEndHeader(true, |s.ppdu| - 2, id) && s.ppdu[2..] == unsent
            && |unsent| >= conf.TrailerLen()
          else
            && s.job.Rest? && JobOk(conf, s.job)
            && s.ppdu[..2] == ContEndHeader(false, |s.ppdu| - 2, id) && s.ppdu[2..] + s.job.unsent == unsent)
  {
    hide ContEndHeader;
  }

  /** From a fragmented ALPDU on, any burst sizes that empty the queue give CONT* END with exactly the unsent
      bytes, and no sequence number is used. */
  lemma {:induction false} DrainRest(conf: Config, id: FragId, unsent: seq<byte>, seqNb: byte, bursts: seq<nat>)
    requires JobOk(conf, Rest(unsent))
    requires Drain(conf, id, Rest(unsent), seqNb, bursts).job == Idle
    ensures var d := Drain(conf, id, Rest(unsent), seqNb, bursts);
      IsTail(conf, id, d.ppdus) && TailBytes(d.ppdus) == unsent && d.seqNb == seqNb
    decreases |bursts|
  {
    hide ContEndHeader, CutOne, JobOk;
    var d := Drain(conf, id, Rest(unsent), seqNb, bursts);
    match CutOne(conf, id, Rest(unsent), seqNb, bursts[0])
    case None => DrainRest(conf, id, unsent, seqNb, bursts[1..]);
    case Some(s) =>
      NextCut(conf, id, unsent, seqNb, bursts[0]);
      if s.job == Idle {
        assert d.ppdus == [s.ppdu];
      } else {
        DrainRest(conf, id, s.job.unsent, seqNb, bursts[1..]);
        assert d.ppdus[1..] == Drain(conf, id, s.job, seqNb, bursts[1..]).ppdus;
      }
  }

  /** The first PPDU of an SDU is its COMP, or a START that leaves the rest of the line. */
  lemma FirstCut(conf: Config, id: FragId, sdu: Sdu, seqNb: byte, burst: nat)
    requires 1 <= |sdu.data| <= MAX_PDU_SIZE && CutOne(conf, id, NewJob(conf, sdu), seqNb, burst).Some?
    ensures JobOk(conf, CutOne(conf, id, NewJob(conf, sdu), seqNb, burst).value.job)
    ensures var r := CutOne(conf, id, NewJob(conf, sdu), seqNb, burst).value;
      if r.job == Idle then SentWhole(conf, sdu, [r.ppdu]) && r.seqNb == seqNb
      else
        && r.job.Rest? && IsStart(conf, id, sdu, seqNb, r.ppdu)
        && r.job.unsent == Line(conf, sdu, seqNb)[|r.ppdu| - 4..]
        && r.seqNb == (if conf.UseCrc() then seqNb else NextSeq(seqNb))
  {
    hide CompHeader, StartHeader, ContEndHeader, Encode, SduCrc, CrcBytes, LabelType, NextSeq;
  }

  /** The language of PPDUs of one SDU: whatever burst sizes empty the queue, refused ones included, the SDU goes
      out whole in one COMP, or in START CONT* END whose payloads are a partition of header, body and trailer;
      the sequence number is used up exactly when a START was sent in sequence-number mode. */
  lemma {:induction false} DrainWhole(conf: Config, id: FragId, sdu: Sdu, seqNb: byte, bursts: seq<nat>)
    requires 1 <= |sdu.data| <= MAX_PDU_SIZE
    requires Drain(conf, id, NewJob(conf, sdu), seqNb, bursts).job == Idle
    ensures var d := Drain(conf, id, NewJob(conf, sdu), seqNb, bursts);
      && SentAs(conf, id, sdu, seqNb, d.ppdus)
      && d.seqNb == (if SentInFragments(conf, id, sdu, seqNb, d.ppdus) && !conf.UseCrc() then NextSeq(seqNb) else seqNb)
    decreases |bursts|
  {
    hide CutOne, NewJob, JobOk, IsStart, IsTail, SentWhole, Line, NextSeq;
    var job := NewJob(conf, sdu);
    var d := Drain(conf, id, job, seqNb, bursts);
    match CutOne(conf, id, job, seqNb, bursts[0])
    case None => DrainWhole(conf, id, sdu, seqNb, bursts[1..]);
    case Some(s) =>
      FirstCut(conf, id, sdu, seqNb, bursts[0]);
      var rest := Drain(conf, id, s.job, s.seqNb, bursts[1..]);
      if s.job == Idle {
        assert d.ppdus == [s.ppdu];
      } else {
        DrainRest(conf, id, s.job.unsent, s.seqNb, bursts[1..]);
        assert d.ppdus[1..] == rest.ppdus;
        assert |d.ppdus| >= 2 by {
          AtLeastOne(conf, id, rest.ppdus);
        }
      }
  }

  lemma AtLeastOne(conf: Config, id: FragId, ps: seq<Ppdu>)
    requires IsTail(conf, id, ps)
    ensures |ps| >= 1
  {
  }
}
