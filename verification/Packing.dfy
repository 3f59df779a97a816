/** Building a frame (src/pack.c): the label once, PPDUs one after the other while they fit, padding. */
module Packing {
  import opened Bytes
  import opened PpduHeader
  import opened Fpdu

  datatype PackStatus = PackOk | PackErr | PackErrFpduTooSmall | PackErrInvalidPpdu | PackErrInvalidLabel

  /** The used bytes of a frame and the room left. */
  datatype Packed = Packed(status: PackStatus, used: seq<byte>, room: nat)

  /** rle_pack_init. */
  function InitFrame(frameLabel: seq<byte>, used: seq<byte>, room: nat): Packed {
    if !LabelSizeOk(|frameLabel|) then Packed(PackErrInvalidLabel, used, room)
    else if used != [] then Packed(PackErr, used, room)
    else if room < |frameLabel| then Packed(PackErrFpduTooSmall, used, room)
    else Packed(PackOk, frameLabel, room - |frameLabel|)
  }

  /** rle_pack. */
  function AddPpdu(frameLabel: seq<byte>, used: seq<byte>, room: nat, p: seq<byte>): Packed {
    var front := if used == [] then frameLabel else [];
    if p == [] then Packed(PackErrInvalidPpdu, used, room)
    else if !LabelSizeOk(|frameLabel|) then Packed(PackErrInvalidLabel, used, room)
    else if room < |front| + |p| then Packed(PackErrFpduTooSmall, used, room)
    else Packed(PackOk, used + front + p, room - |front| - |p|)
  }

  // ---- the methods ----

  /** memcpy into the frame. */
  method Copy(fpdu: array<byte>, at: nat, bytes: seq<byte>)
    requires at + |bytes| <= fpdu.Length
    modifies fpdu
    ensures fpdu[..at + |bytes|] == old(fpdu[..at]) + bytes
    ensures forall i :: at + |bytes| <= i < fpdu.Length ==> fpdu[i] == old(fpdu[i])
  {
    forall i | 0 <= i < |bytes| {
      fpdu[at + i] := bytes[i];
    }
  }

  /** rle_pack_init; the position and the room are in-out parameters of the source. */
  method PackInit(frameLabel: seq<byte>, fpdu: array<byte>, pos: nat, room: nat)
    returns (status: PackStatus, pos': nat, room': nat)
    requires pos + room <= fpdu.Length
    modifies fpdu
    ensures pos' + room' == pos + room
    ensures Packed(status, fpdu[..pos'], room') == InitFrame(frameLabel, old(fpdu[..pos]), room)
    ensures forall i :: pos' <= i < fpdu.Length ==> fpdu[i] == old(fpdu[i])
  {
    status, pos', room' := PackOk, pos, room;
    if |frameLabel| != 0 && |frameLabel| != 3 && |frameLabel| != 6 {
      status := PackErrInvalidLabel;
    } else if pos != 0 {
      status := PackErr;
    } else if room < |frameLabel| {
      status := PackErrFpduTooSmall;
    } else {
      Copy(fpdu, 0, frameLabel);
      pos', room' := pos + |frameLabel|, room - |frameLabel|;
    }
  }

  /** rle_pack. */
  method Pack(p: seq<byte>, frameLabel: seq<byte>, fpdu: array<byte>, pos: nat, room: nat)
    returns (status: PackStatus, pos': nat, room': nat)
    requires pos + room <= fpdu.Length
    modifies fpdu
    ensures pos' + room' == pos + room
    ensures Packed(status, fpdu[..pos'], room') == AddPpdu(frameLabel, old(fpdu[..pos]), room, p)
    ensures forall i :: pos' <= i < fpdu.Length ==> fpdu[i] == old(fpdu[i])
  {
    status, pos', room' := PackOk, pos, room;
    if |p| == 0 {
      status := PackErrInvalidPpdu;
    } else if |frameLabel| != 0 && |frameLabel| != 3 && |frameLabel| != 6 {
      status := PackErrInvalidLabel;
    } else if (pos == 0 && room < |frameLabel| + |p|) || (pos != 0 && room < |p|) {
      status := PackErrFpduTooSmall;
    } else {
      if pos == 0 && |frameLabel| > 0 {
        Copy(fpdu, 0, frameLabel);
        pos', room' := |frameLabel|, room - |frameLabel|;
      }
      ghost var before := fpdu[..pos'];
      Copy(fpdu, pos', p);
      pos', room' := pos' + |p|, room' - |p|;
      assert before == old(fpdu[..pos]) + if pos == 0 then frameLabel else [];
    }
  }

  /** rle_pad. */
  method Pad(fpdu: array<byte>, pos: nat, room: nat)
    requires pos + room <= fpdu.Length
    modifies fpdu
    ensures fpdu[..pos + room] == old(fpdu[..pos]) + Zeros(room)
    ensures forall i :: pos + room <= i < fpdu.Length ==> fpdu[i] == old(fpdu[i])
  {
    Copy(fpdu, pos, Zeros(room));
  }

  // ---- whole frames ----

  datatype PackOp = Init | Put(ppdu: Ppdu)

  datatype PackRun = PackRun(used: seq<byte>, room: nat, taken: seq<Ppdu>)

  /** Any sequence of calls with one label; the PPDUs that were taken are those whose call succeeded. */
  function RunPack(frameLabel: seq<byte>, used: seq<byte>, room: nat, ops: seq<PackOp>): PackRun
    decreases |ops|
  {
    if ops == [] then PackRun(used, room, [])
    else match ops[0]
      case Init =>
        var r := InitFrame(frameLabel, used, room);
        RunPack(frameLabel, r.used, r.room, ops[1..])
      case Put(p) =>
        var r := AddPpdu(frameLabel, used, room, p);
        var rest := RunPack(frameLabel, r.used, r.room, ops[1..]);
        if r.status == PackOk then rest.(taken := [p] + rest.taken) else rest
  }

  /** A frame under construction: nothing yet, or its label and the PPDUs taken so far. */
  predicate Built(frameLabel: seq<byte>, used: seq<byte>, taken: seq<Ppdu>) {
    used == frameLabel + Flatten(taken) || (used == [] && taken == [])
  }

  lemma InitOne(frameLabel: seq<byte>, used: seq<byte>, room: nat, taken: seq<Ppdu>)
    requires Built(frameLabel, used, taken)
    ensures var r := InitFrame(frameLabel, used, room);
      Built(frameLabel, r.used, taken) && |r.used| + r.room == |used| + room
  {
    assert frameLabel + [] == frameLabel;
  }

  lemma FlattenOneMore(taken: seq<Ppdu>, p: Ppdu)
    ensures Flatten(taken + [p]) == Flatten(taken) + p
  {
    FlattenConcat(taken, [p]);
    assert [p][1..] == [] && Flatten([p]) == p + [];
  }

  lemma Glue(frameLabel: seq<byte>, f: seq<byte>, used: seq<byte>, p: seq<byte>)
    requires used == frameLabel + f || (used == [] && f == [])
    ensures used + (if used == [] then frameLabel else []) + p == frameLabel + (f + p)
  {
    if used == [] {
      assert |f| == 0;
    }
  }

  lemma AddOne(frameLabel: seq<byte>, used: seq<byte>, room: nat, taken: seq<Ppdu>, p: Ppdu)
    requires Built(frameLabel, used, taken)
    ensures var r := AddPpdu(frameLabel, used, room, p);
      && |r.used| + r.room == |used| + room
      && Built(frameLabel, r.used, if r.status == PackOk then taken + [p] else taken)
  {
    FlattenOneMore(taken, p);
    var f := Flatten(taken);
    assert taken == [] ==> f == [];
    hide Flatten;
    Glue(frameLabel, f, used, p);
  }

  lemma {:induction false} FrameIsBuilt(frameLabel: seq<byte>, used: seq<byte>, room: nat, taken: seq<Ppdu>,
                                        ops: seq<PackOp>)
    requires Built(frameLabel, used, taken)
    ensures var r := RunPack(frameLabel, used, room, ops);
      Built(frameLabel, r.used, taken + r.taken) && |r.used| + r.room == |used| + room
    decreases |ops|
  {
    hide InitFrame, AddPpdu, Built;
    if ops == [] {
      assert taken + [] == taken;
    } else {
      match ops[0]
      case Init =>
        var r := InitFrame(frameLabel, used, room);
        InitOne(frameLabel, used, room, taken);
        FrameIsBuilt(frameLabel, r.used, r.room, taken, ops[1..]);
      case Put(p) =>
        var r := AddPpdu(frameLabel, used, room, p);
        AddOne(frameLabel, used, room, taken, p);
        var rest := RunPack(frameLabel, r.used, r.room, ops[1..]).taken;
        FrameIsBuilt(frameLabel, r.used, r.room, if r.status == PackOk then taken + [p] else taken, ops[1..]);
        assert (taken + [p]) + rest == taken + ([p] + rest);
    }
  }

  lemma {:induction false} UsedMeansLabelled(frameLabel: seq<byte>, used: seq<byte>, room: nat, ops: seq<PackOp>)
    requires used != [] ==> LabelSizeOk(|frameLabel|)
    ensures RunPack(frameLabel, used, room, ops).used != [] ==> LabelSizeOk(|frameLabel|)
    decreases |ops|
  {
    hide LabelSizeOk;
    if ops != [] {
      match ops[0]
      case Init =>
        var r := InitFrame(frameLabel, used, room);
        UsedMeansLabelled(frameLabel, r.used, r.room, ops[1..]);
      case Put(p) =>
        var r := AddPpdu(frameLabel, used, room, p);
        UsedMeansLabelled(frameLabel, r.used, r.room, ops[1..]);
    }
  }

  /** Packing and parsing are inverses: whatever calls built the frame, in whatever room, refused or not, its length
      never changes, and after padding the receiver's loop finds exactly the PPDUs that were taken, in order. */
  lemma PackedFrameParses(frameLabel: seq<byte>, room: nat, ops: seq<PackOp>)
    requires forall p | p in RunPack(frameLabel, [], room, ops).taken :: Parsable(p)
    ensures var r := RunPack(frameLabel, [], room, ops);
      && |r.used| + r.room == room
      && (r.used != [] || frameLabel == [] ==>
            && |frameLabel| in {0, 3, 6}
            && frameLabel <= r.used + Zeros(r.room)
            && |r.used + Zeros(r.room)| == room
            && Split((r.used + Zeros(r.room))[|frameLabel|..]) == Parse(r.taken, true))
  {
    var r := RunPack(frameLabel, [], room, ops);
    FrameIsBuilt(frameLabel, [], room, [], ops);
    UsedMeansLabelled(frameLabel, [], room, ops);
    hide RunPack, Split, Parsable;
    assert [] + r.taken == r.taken;
    if r.used != [] || frameLabel == [] {
      assert r.used == frameLabel + Flatten(r.taken);
      assert (r.used + Zeros(r.room))[|frameLabel|..] == Flatten(r.taken) + Zeros(r.room);
      SplitPacked(r.taken, r.room);
    }
  }

  // ---- what is refused ----

  /** Which status each call reports, and when: for rle_pack the PPDU, then the label, then the room; for rle_pack_init
      the label, then a frame already begun, then the room. A refused call changes nothing. */
  lemma PackReports(frameLabel: seq<byte>, used: seq<byte>, room: nat, p: seq<byte>)
    ensures var init, put := InitFrame(frameLabel, used, room), AddPpdu(frameLabel, used, room, p);
      && (init.status == PackErrInvalidLabel <==> |frameLabel| !in {0, 3, 6})
      && (init.status == PackErr <==> |frameLabel| in {0, 3, 6} && used != [])
      && (init.status == PackErrFpduTooSmall <==> |frameLabel| in {0, 3, 6} && used == [] && |frameLabel| > room)
      && (put.status == PackErrInvalidPpdu <==> p == [])
      && (put.status == PackErrInvalidLabel <==> p != [] && |frameLabel| !in {0, 3, 6})
      && (put.status == PackErrFpduTooSmall <==>
            p != [] && |frameLabel| in {0, 3, 6} && (if used == [] then |frameLabel| else 0) + |p| > room)
      && init.status != PackErrInvalidPpdu && put.status != PackErr
      && (init.status != PackOk ==> init.used == used && init.room == room)
      && (put.status != PackOk ==> put.used == used && put.room == room)
  {
  }

  lemma {:induction false} RunPackSnoc(frameLabel: seq<byte>, used: seq<byte>, room: nat, ops: seq<PackOp>, p: Ppdu)
    ensures var r := RunPack(frameLabel, used, room, ops);
      var one := AddPpdu(frameLabel, r.used, r.room, p);
      RunPack(frameLabel, used, room, ops + [Put(p)]) ==
        PackRun(one.used, one.room, r.taken + if one.status == PackOk then [p] else [])
    decreases |ops|
  {
    hide AddPpdu, InitFrame;
    var all := ops + [Put(p)];
    if ops == [] {
      assert all == [Put(p)] && all[1..] == [];
    } else {
      assert all[0] == ops[0] && all[1..] == ops[1..] + [Put(p)];
      match ops[0]
      case Init =>
        var one := InitFrame(frameLabel, used, room);
        RunPackSnoc(frameLabel, one.used, one.room, ops[1..], p);
      case Put(q) =>
        var one := AddPpdu(frameLabel, used, room, q);
        RunPackSnoc(frameLabel, one.used, one.room, ops[1..], p);
        var rest := RunPack(frameLabel, one.used, one.room, ops[1..]).taken;
        assert forall t: seq<Ppdu> :: [q] + (rest + t) == ([q] + rest) + t;
    }
  }

  /** After any calls, the next PPDU is taken if and only if it is not empty, the label has a valid size, and the frame
      with label, everything taken before and this PPDU is not longer than its size. */
  lemma TakenIfItFits(frameLabel: seq<byte>, size: nat, ops: seq<PackOp>, p: Ppdu)
    ensures var taken := RunPack(frameLabel, [], size, ops).taken;
      RunPack(frameLabel, [], size, ops + [Put(p)]).taken == taken +
        if p != [] && |frameLabel| in {0, 3, 6} && |frameLabel| + |Flatten(taken)| + |p| <= size then [p] else []
  {
    var r := RunPack(frameLabel, [], size, ops);
    RunPackSnoc(frameLabel, [], size, ops, p);
    FrameIsBuilt(frameLabel, [], size, [], ops);
    assert [] + r.taken == r.taken;
    hide RunPack;
    assert r.taken == [] ==> Flatten(r.taken) == [];
  }

  function Puts(ps: seq<Ppdu>): seq<PackOp> {
    seq(|ps|, i requires 0 <= i < |ps| => Put(ps[i]))
  }

  lemma PutsSnoc(ps: seq<Ppdu>, p: Ppdu)
    ensures Puts(ps + [p]) == Puts(ps) + [Put(p)]
  {
  }

  /** A frame takes all of a list of PPDUs if and only if label and PPDUs together are not longer than the frame. */
  lemma {:induction false} TakesAllThatFits(frameLabel: seq<byte>, size: nat, ps: seq<Ppdu>)
    requires |frameLabel| in {0, 3, 6} && ps != [] && forall p | p in ps :: p != []
    ensures RunPack(frameLabel, [], size, Puts(ps)).taken == ps <==> |frameLabel| + |Flatten(ps)| <= size
    decreases |ps|
  {
    var before, p := ps[..|ps| - 1], ps[|ps| - 1];
    assert ps == before + [p] && p in ps && forall q | q in before :: q in ps;
    PutsSnoc(before, p);
    TakenIfItFits(frameLabel, size, Puts(before), p);
    FlattenOneMore(before, p);
    hide RunPack, Flatten, Puts;
    var taken := RunPack(frameLabel, [], size, Puts(before)).taken;
    if before == [] {
      NothingTaken(frameLabel, size);
    } else {
      TakesAllThatFits(frameLabel, size, before);
    }
    TakenAreOffered(frameLabel, [], size, Puts(before));
    assert |Puts(before)| == |before| by {
      OnePutEach(before);
    }
    if taken + [p] == before + [p] {
      assert taken == (taken + [p])[..|taken|] == (before + [p])[..|before|] == before;
    }
  }

  lemma OnePutEach(ps: seq<Ppdu>)
    ensures |Puts(ps)| == |ps|
  {
  }

  lemma {:induction false} TakenAreOffered(frameLabel: seq<byte>, used: seq<byte>, room: nat, ops: seq<PackOp>)
    ensures |RunPack(frameLabel, used, room, ops).taken| <= |ops|
    decreases |ops|
  {
    hide InitFrame, AddPpdu;
    if ops != [] {
      var one := match ops[0] case Init => InitFrame(frameLabel, used, room)
                              case Put(p) => AddPpdu(frameLabel, used, room, p);
      TakenAreOffered(frameLabel, one.used, one.room, ops[1..]);
    }
  }

  lemma NothingTaken(frameLabel: seq<byte>, size: nat)
    ensures RunPack(frameLabel, [], size, Puts([])).taken == []
  {
  }
}
