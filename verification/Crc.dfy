/** The CRC-32 of the ALPDU trailer (src/crc.c, src/trailer.c): the table-driven loop is the bit-by-bit division
    by the generator polynomial, and a corruption confined to four consecutive bytes always changes the result. */
module Crc {
  import opened Bits
  import opened Bytes
  import opened CrcTable

  const CRC_INIT: bv32 := 0xffff_ffff

  function Top(b: byte): bv32 {
    TopOf(ToBits(b))
  }

  function Up(c: bv32): bv32 {
    c << 8
  }

  function Down(c: bv32): bv32 {
    c >> 8
  }

  /** The index of the table: the high byte of the state, mixed with the input byte. */
  function Index(c: bv32, b: bv8): bv8 {
    ((c >> 24) as bv8) ^ b
  }

  function LowPart(c: bv32): bv32 {
    c & 0x00ff_ffff
  }

  function ByteStep(c: bv32, b: byte): bv32 {
    EightSteps(Xor(c, Top(b)))
  }

  /** The remainder of the division after all bytes of `data`, from the remainder `c`. */
  function Divide(c: bv32, data: seq<byte>): bv32
    decreases |data|
  {
    if data == [] then c else Divide(ByteStep(c, data[0]), data[1..])
  }

  /** The type in host order, then the SDU. */
  function SduCrc(sdu: Sdu): bv32 {
    Divide(CRC_INIT, HostOrder(sdu.ptype) + sdu.data)
  }

  function Low8(c: bv32): bv8 {
    (c & 0xff) as bv8
  }

  function LowByteOf(c: bv32): byte {
    FromBits(Low8(c))
  }

  /** The four bytes of the trailer, in host order. */
  function CrcBytes(c: bv32): (s: seq<byte>)
    ensures |s| == 4
  {
    [LowByteOf(c), LowByteOf(c >> 8), LowByteOf(c >> 16), LowByteOf(c >> 24)]
  }

  // ---- the algebra of the division ----

  lemma XorCommutes(a: bv32, b: bv32)
    ensures Xor(a, b) == Xor(b, a)
  {
  }

  lemma XorAssociates(a: bv32, b: bv32, c: bv32)
    ensures Xor(a, Xor(b, c)) == Xor(Xor(a, b), c)
  {
  }

  lemma XorCancels(a: bv32, b: bv32)
    ensures Xor(Xor(a, b), b) == a && Xor(a, Xor(a, b)) == b
  {
  }

  lemma DoubleXor(a: bv32, b: bv32)
    ensures Double(Xor(a, b)) == Xor(Double(a), Double(b))
  {
  }

  lemma CarryXor(a: bv32, b: bv32)
    ensures Carry(Xor(a, b)) == Xor(Carry(a), Carry(b))
  {
    assert a ^ b < 0x8000_0000 <==> (a < 0x8000_0000 <==> b < 0x8000_0000);
  }

  /** The division is linear. */
  lemma BitStepXor(a: bv32, b: bv32)
    ensures BitStep(Xor(a, b)) == Xor(BitStep(a), BitStep(b))
  {
    hide Xor, Double, Carry;
    var da, db, ca, cb := Double(a), Double(b), Carry(a), Carry(b);
    DoubleXor(a, b);
    CarryXor(a, b);
    XorAssociates(Xor(da, db), ca, cb);
    XorAssociates(da, db, ca);
    XorCommutes(db, ca);
    XorAssociates(da, ca, db);
    XorAssociates(Xor(da, ca), db, cb);
  }

  lemma EightStepsXor(a: bv32, b: bv32)
    ensures EightSteps(Xor(a, b)) == Xor(EightSteps(a), EightSteps(b))
  {
    hide BitStep, Xor;
    var a1, b1 := BitStep(a), BitStep(b);
    var a2, b2 := BitStep(a1), BitStep(b1);
    var a3, b3 := BitStep(a2), BitStep(b2);
    var a4, b4 := BitStep(a3), BitStep(b3);
    var a5, b5 := BitStep(a4), BitStep(b4);
    var a6, b6 := BitStep(a5), BitStep(b5);
    var a7, b7 := BitStep(a6), BitStep(b6);
    BitStepXor(a, b);
    BitStepXor(a1, b1);
    BitStepXor(a2, b2);
    BitStepXor(a3, b3);
    BitStepXor(a4, b4);
    BitStepXor(a5, b5);
    BitStepXor(a6, b6);
    BitStepXor(a7, b7);
  }

  /** The low bit of the result tells whether the polynomial was added; the rest gives the state back. */
  lemma UndoPlainStep(c: bv32)
    requires c < 0x8000_0000
    ensures BitStep(c) & 1 == 0 && BitStep(c) >> 1 == c
  {
    hide Xor;
    assert Xor(c << 1, 0) == c << 1 by {
      XorZero(c << 1);
    }
  }

  lemma XorZero(c: bv32)
    ensures Xor(c, 0) == c
  {
  }

  lemma UndoReducedStep(c: bv32)
    requires c >= 0x8000_0000
    ensures BitStep(c) & 1 == 1 && ((BitStep(c) ^ 0x04c1_1db7) >> 1) | 0x8000_0000 == c
  {
    ReducedStep(c);
  }

  lemma ReducedStep(c: bv32)
    requires c >= 0x8000_0000
    ensures BitStep(c) == (c << 1) ^ 0x04c1_1db7
    ensures ((c << 1) ^ 0x04c1_1db7) & 1 == 1 && ((((c << 1) ^ 0x04c1_1db7) ^ 0x04c1_1db7) >> 1) | 0x8000_0000 == c
  {
  }

  lemma BitStepInjective(a: bv32, b: bv32)
    requires BitStep(a) == BitStep(b)
    ensures a == b
  {
    hide BitStep;
    if a < 0x8000_0000 { UndoPlainStep(a); } else { UndoReducedStep(a); }
    if b < 0x8000_0000 { UndoPlainStep(b); } else { UndoReducedStep(b); }
  }

  /** The division loses no information about the state. */
  lemma EightStepsInjective(a: bv32, b: bv32)
    requires EightSteps(a) == EightSteps(b)
    ensures a == b
  {
    hide BitStep;
    var a1, b1 := BitStep(a), BitStep(b);
    var a2, b2 := BitStep(a1), BitStep(b1);
    var a3, b3 := BitStep(a2), BitStep(b2);
    var a4, b4 := BitStep(a3), BitStep(b3);
    var a5, b5 := BitStep(a4), BitStep(b4);
    var a6, b6 := BitStep(a5), BitStep(b5);
    var a7, b7 := BitStep(a6), BitStep(b6);
    BitStepInjective(a7, b7);
    BitStepInjective(a6, b6);
    BitStepInjective(a5, b5);
    BitStepInjective(a4, b4);
    BitStepInjective(a3, b3);
    BitStepInjective(a2, b2);
    BitStepInjective(a1, b1);
    BitStepInjective(a, b);
  }

  lemma PlainStep(c: bv32, limit: bv32)
    requires c < limit <= 0x8000_0000
    ensures BitStep(c) == Double(c)
  {
    hide Xor;
    XorZero(Double(c));
  }

  lemma DoubleBound(c: bv32, limit: bv32)
    requires c < limit <= 0x4000_0000
    ensures Double(c) < limit << 1
  {
  }

  function EightDoubles(c: bv32): bv32 {
    Double(Double(Double(Double(Double(Double(Double(Double(c))))))))
  }

  lemma DoubleIsShift(c: bv32)
    ensures Double(c) == c << 1
    ensures Double(c << 1) == c << 2
    ensures Double(c << 2) == c << 3
    ensures Double(c << 3) == c << 4
    ensures Double(c << 4) == c << 5
    ensures Double(c << 5) == c << 6
    ensures Double(c << 6) == c << 7
    ensures Double(c << 7) == c << 8
  {
  }

  lemma UpIsEightDoubles(c: bv32)
    ensures EightDoubles(c) == Up(c)
  {
    hide Double;
    DoubleIsShift(c);
  }

  /** A state with a zero high byte is only shifted. */
  lemma EightStepsLow(c: bv32)
    requires c & 0xff00_0000 == 0
    ensures EightSteps(c) == Up(c)
  {
    UpIsEightDoubles(c);
    assert c < 0x0100_0000;
    hide BitStep, Up, Double;
    var c1 := Double(c);
    var c2 := Double(c1);
    var c3 := Double(c2);
    var c4 := Double(c3);
    var c5 := Double(c4);
    var c6 := Double(c5);
    var c7 := Double(c6);
    DoubleBound(c, 0x0100_0000);
    DoubleBound(c1, 0x0200_0000);
    DoubleBound(c2, 0x0400_0000);
    DoubleBound(c3, 0x0800_0000);
    DoubleBound(c4, 0x1000_0000);
    DoubleBound(c5, 0x2000_0000);
    DoubleBound(c6, 0x4000_0000);
    PlainStep(c, 0x0100_0000);
    PlainStep(c1, 0x0200_0000);
    PlainStep(c2, 0x0400_0000);
    PlainStep(c3, 0x0800_0000);
    PlainStep(c4, 0x1000_0000);
    PlainStep(c5, 0x2000_0000);
    PlainStep(c6, 0x4000_0000);
    PlainStep(c7, 0x8000_0000);
  }

  // ---- the loop ----

  /** One turn of the source's loop is eight steps of the division. */
  lemma TableStep(c: bv32, b: byte)
    ensures Xor(Up(c), Table(Index(c, ToBits(b)))) == ByteStep(c, b)
  {
    hide EightSteps, Table, Xor, Up, LowPart, Index, TopOf;
    var i := Index(c, ToBits(b));
    SplitState(c, ToBits(b));
    EightStepsXor(TopOf(i), LowPart(c));
    LowPartShifts(c);
    XorCommutes(Up(c), Table(i));
  }

  lemma SplitState(c: bv32, b: bv8)
    ensures Xor(TopOf(Index(c, b)), LowPart(c)) == Xor(c, TopOf(b))
  {
    assert (((((c >> 24) as bv8) ^ b) as bv32) << 24) ^ (c & 0x00ff_ffff) == c ^ ((b as bv32) << 24);
  }

  lemma LowPartShifts(c: bv32)
    ensures EightSteps(LowPart(c)) == Up(c)
  {
    hide EightSteps;
    assert (c & 0x00ff_ffff) & 0xff00_0000 == 0 && (c & 0x00ff_ffff) << 8 == c << 8;
    EightStepsLow(LowPart(c));
  }

  /** compute_crc: the loop over the table computes the remainder of the bit-by-bit division. */
  method ComputeCrc(data: seq<byte>, init: bv32) returns (crc: bv32)
    ensures crc == Divide(init, data)
  {
    hide ByteStep, Table, Xor, Up, Index;
    crc := init;
    for i := 0 to |data|
      invariant Divide(crc, data[i..]) == Divide(init, data)
    {
      TableStep(crc, data[i]);
      assert data[i..][1..] == data[i + 1..];
      crc := Xor(Up(crc), Table(Index(crc, ToBits(data[i]))));
    }
  }

  /** compute_crc32: the two calls of the source are one division over the type and the SDU together. */
  method ComputeCrc32(sdu: Sdu) returns (crc: bv32)
    ensures crc == SduCrc(sdu)
  {
    crc := ComputeCrc(HostOrder(sdu.ptype), CRC_INIT);
    crc := ComputeCrc(sdu.data, crc);
    DivideConcat(CRC_INIT, HostOrder(sdu.ptype), sdu.data);
  }

  lemma {:induction false} DivideConcat(c: bv32, a: seq<byte>, b: seq<byte>)
    ensures Divide(c, a + b) == Divide(Divide(c, a), b)
    decreases |a|
  {
    hide ByteStep;
    if a == [] {
      assert a + b == b;
    } else {
      assert (a + b)[1..] == a[1..] + b;
      DivideConcat(ByteStep(c, a[0]), a[1..], b);
    }
  }

  // ---- error detection ----

  lemma ByteStepInjective(c: bv32, d: bv32, b: byte)
    requires ByteStep(c, b) == ByteStep(d, b)
    ensures c == d
  {
    hide EightSteps, Xor, Top;
    EightStepsInjective(Xor(c, Top(b)), Xor(d, Top(b)));
    XorCancels(c, Top(b));
    XorCancels(d, Top(b));
  }

  lemma {:induction false} DivideInjective(c: bv32, d: bv32, data: seq<byte>)
    requires Divide(c, data) == Divide(d, data)
    ensures c == d
    decreases |data|
  {
    hide ByteStep;
    if data != [] {
      DivideInjective(ByteStep(c, data[0]), ByteStep(d, data[0]), data[1..]);
      ByteStepInjective(c, d, data[0]);
    }
  }

  function Repeat(n: nat, c: bv32): bv32 {
    if n == 0 then c else Repeat(n - 1, EightSteps(c))
  }

  lemma {:induction false} RepeatInjective(n: nat, a: bv32, b: bv32)
    requires Repeat(n, a) == Repeat(n, b)
    ensures a == b
  {
    hide EightSteps;
    if n > 0 {
      RepeatInjective(n - 1, EightSteps(a), EightSteps(b));
      EightStepsInjective(a, b);
    }
  }

  function Join(p: bv8, q: bv8, r: bv8, s: bv8): bv32 {
    ((p as bv32) << 24) ^ ((q as bv32) << 16) ^ ((r as bv32) << 8) ^ (s as bv32)
  }

  /** Up to four bytes as one left-aligned word. */
  function Window(w: seq<byte>): bv32 {
    Join(Nth(w, 0), Nth(w, 1), Nth(w, 2), Nth(w, 3))
  }

  function Nth(w: seq<byte>, i: nat): bv8 {
    if i < |w| then ToBits(w[i]) else 0
  }

  lemma JoinTail(b: bv8, x: bv8, y: bv8, z: bv8)
    ensures Join(b, x, y, z) == Xor(TopOf(b), Down(Join(x, y, z, 0)))
  {
    hide TopOf;
    JoinTailBits(b as bv32, x as bv32, y as bv32, z as bv32);
    assert TopOf(b) == (b as bv32) << 24 by {
      TopOfBits(b);
    }
  }

  lemma TopOfBits(b: bv8)
    ensures TopOf(b) == (b as bv32) << 24
  {
  }

  lemma JoinTailBits(b: bv32, x: bv32, y: bv32, z: bv32)
    requires x < 256 && y < 256 && z < 256
    ensures (b << 24) ^ (x << 16) ^ (y << 8) ^ z == (b << 24) ^ (((x << 24) ^ (y << 16) ^ (z << 8)) >> 8)
  {
  }

  lemma JoinLow(x: bv8, y: bv8, z: bv8)
    ensures Up(Down(Join(x, y, z, 0))) == Join(x, y, z, 0)
    ensures Down(Join(x, y, z, 0)) & 0xff00_0000 == 0
  {
  }

  lemma WindowTail(b: byte, rest: seq<byte>)
    requires |rest| <= 3
    ensures Window([b] + rest) == Xor(Top(b), Down(Window(rest)))
    ensures EightSteps(Down(Window(rest))) == Window(rest)
  {
    hide EightSteps, Xor, Down, Up, Join, TopOf;
    var w := [b] + rest;
    assert Nth(w, 0) == ToBits(b) && Nth(w, 1) == Nth(rest, 0);
    assert Nth(w, 2) == Nth(rest, 1) && Nth(w, 3) == Nth(rest, 2);
    JoinTail(ToBits(b), Nth(rest, 0), Nth(rest, 1), Nth(rest, 2));
    JoinLow(Nth(rest, 0), Nth(rest, 1), Nth(rest, 2));
    EightStepsLow(Down(Window(rest)));
  }

  /** Dividing a window of at most four bytes is dividing its word, added to the state at once. */
  lemma {:induction false} DivideWindow(c: bv32, w: seq<byte>)
    requires |w| <= 4
    ensures Divide(c, w) == Repeat(|w|, Xor(c, Window(w)))
    decreases |w|
  {
    hide EightSteps, Window, Top, Xor, Up, Down;
    if w != [] {
      assert w == [w[0]] + w[1..];
      var s, r := Xor(c, Top(w[0])), Window(w[1..]);
      WindowTail(w[0], w[1..]);
      DivideWindow(EightSteps(s), w[1..]);
      EightStepsXor(s, Down(r));
      XorAssociates(c, Top(w[0]), Down(r));
    } else {
      EmptyWindow(c);
    }
  }

  lemma EmptyWindow(c: bv32)
    ensures Xor(c, Window([])) == c
  {
    hide Xor;
    XorZero(c);
  }

  lemma JoinBytes(p: bv8, q: bv8, r: bv8, s: bv8)
    ensures var w := Join(p, q, r, s);
      (w >> 24) as bv8 == p && ((w >> 16) & 0xff) as bv8 == q && ((w >> 8) & 0xff) as bv8 == r && (w & 0xff) as bv8 == s
  {
  }

  lemma WindowInjective(v: seq<byte>, w: seq<byte>)
    requires |v| == |w| <= 4 && Window(v) == Window(w)
    ensures v == w
  {
    hide Join;
    JoinBytes(Nth(v, 0), Nth(v, 1), Nth(v, 2), Nth(v, 3));
    JoinBytes(Nth(w, 0), Nth(w, 1), Nth(w, 2), Nth(w, 3));
    forall i | 0 <= i < |v| ensures v[i] == w[i] {
      assert Nth(v, i) == Nth(w, i);
      FromToBits(v[i]);
      FromToBits(w[i]);
    }
  }

  /** Error detection: two byte strings of any length that differ only inside one window of four consecutive
      bytes, however they differ there, have different CRCs from any starting state. */
  lemma WindowCorruptionDetected(c: bv32, before: seq<byte>, v: seq<byte>, w: seq<byte>, after: seq<byte>)
    requires |v| == |w| <= 4 && v != w
    ensures Divide(c, before + v + after) != Divide(c, before + w + after)
  {
    hide Divide, Window, Xor;
    DivideConcat(c, before + v, after);
    DivideConcat(c, before + w, after);
    DivideConcat(c, before, v);
    DivideConcat(c, before, w);
    var s := Divide(c, before);
    if Divide(c, before + v + after) == Divide(c, before + w + after) {
      DivideInjective(Divide(s, v), Divide(s, w), after);
      DivideWindow(s, v);
      DivideWindow(s, w);
      RepeatInjective(|v|, Xor(s, Window(v)), Xor(s, Window(w)));
      XorCancels(s, Window(v));
      XorCancels(s, Window(w));
      WindowInjective(v, w);
    }
  }

  /** An SDU corrupted inside one window of four consecutive bytes has another CRC. */
  lemma SduCorruptionDetected(ptype: u16, before: seq<byte>, v: seq<byte>, w: seq<byte>, after: seq<byte>)
    requires |v| == |w| <= 4 && v != w
    ensures SduCrc(Sdu(ptype, before + v + after)) != SduCrc(Sdu(ptype, before + w + after))
  {
    hide Divide;
    var h := HostOrder(ptype);
    assert h + (before + v + after) == (h + before) + v + after;
    assert h + (before + w + after) == (h + before) + w + after;
    WindowCorruptionDetected(CRC_INIT, h + before, v, w, after);
  }

  lemma JoinBack(c: bv32)
    ensures c == Join(Low8(c >> 24), Low8(c >> 16), Low8(c >> 8), Low8(c))
  {
  }

  lemma FourLowBytes(c: bv32, d: bv32)
    requires LowByteOf(c) == LowByteOf(d) && LowByteOf(c >> 8) == LowByteOf(d >> 8)
    requires LowByteOf(c >> 16) == LowByteOf(d >> 16) && LowByteOf(c >> 24) == LowByteOf(d >> 24)
    ensures c == d
  {
    hide Low8, Join, FromBits;
    FromBitsInjective(Low8(c), Low8(d));
    FromBitsInjective(Low8(c >> 8), Low8(d >> 8));
    FromBitsInjective(Low8(c >> 16), Low8(d >> 16));
    FromBitsInjective(Low8(c >> 24), Low8(d >> 24));
    JoinBack(c);
    JoinBack(d);
  }

  /** Comparing the stored bytes is comparing the CRCs. */
  lemma CrcBytesInjective(c: bv32, d: bv32)
    ensures CrcBytes(c) == CrcBytes(d) <==> c == d
  {
    hide LowByteOf;
    if CrcBytes(c) == CrcBytes(d) {
      var s, t := CrcBytes(c), CrcBytes(d);
      assert s[0] == t[0] && s[1] == t[1] && s[2] == t[2] && s[3] == t[3];
      FourLowBytes(c, d);
    }
  }

  // ---- the check value ----

  /** One turn of the loop, table entry included, from state `c` on input byte `b`. */
  predicate Turns(c: bv32, b: byte, r: bv32) {
    Xor(Up(c), Table(Index(c, ToBits(b)))) == r
  }

  lemma Turns1To3()
    ensures Turns(0xffff_ffff, 0x31, 0x9efb_cf93)
    ensures Turns(0x9efb_cf93, 0x32, 0x3fec_5e6a)
    ensures Turns(0x3fec_5e6a, 0x33, 0xd952_f164)
  {
  }

  lemma Turns4To6()
    ensures Turns(0xd952_f164, 0x34, 0xa695_c4aa)
    ensures Turns(0xa695_c4aa, 0x35, 0xbd9a_b747)
    ensures Turns(0xbd9a_b747, 0x36, 0xd8f0_6c8f)
  {
  }

  lemma Turns7To9()
    ensures Turns(0xd8f0_6c8f, 0x37, 0x0d8a_14c4)
    ensures Turns(0x0d8a_14c4, 0x38, 0x49e3_c2fb)
    ensures Turns(0x49e3_c2fb, 0x39, 0x0376_e6e7)
  {
  }

  lemma Turn(c: bv32, b: byte, r: bv32, s: seq<byte>, k: nat)
    requires k < |s| && s[k] == b && Turns(c, b, r)
    ensures Divide(c, s[k..]) == Divide(r, s[k + 1..])
  {
    hide Xor, Up, Table, Index, ByteStep, ToBits;
    TableStep(c, b);
    assert s[k..][1..] == s[k + 1..];
  }

  lemma NineDigits(s: seq<byte>)
    requires |s| == 9 && forall i | 0 <= i < 9 :: s[i] == 0x31 + i
    ensures Divide(0xffff_ffff, s) == 0x0376_e6e7
  {
    hide Divide, Turns;
    Turns1To3();
    Turns4To6();
    Turns7To9();
    Turn(0xffff_ffff, 0x31, 0x9efb_cf93, s, 0);
    Turn(0x9efb_cf93, 0x32, 0x3fec_5e6a, s, 1);
    Turn(0x3fec_5e6a, 0x33, 0xd952_f164, s, 2);
    Turn(0xd952_f164, 0x34, 0xa695_c4aa, s, 3);
    Turn(0xa695_c4aa, 0x35, 0xbd9a_b747, s, 4);
    Turn(0xbd9a_b747, 0x36, 0xd8f0_6c8f, s, 5);
    Turn(0xd8f0_6c8f, 0x37, 0x0d8a_14c4, s, 6);
    Turn(0x0d8a_14c4, 0x38, 0x49e3_c2fb, s, 7);
    Turn(0x49e3_c2fb, 0x39, 0x0376_e6e7, s, 8);
    DivideNothing(0x0376_e6e7);
    assert s[0..] == s && s[9..] == [];
  }

  /** The published check value of this CRC (all-ones initial value, nothing reflected, no final inversion) over the
      nine digits, here as an SDU whose type in host order is the first two of them. */
  lemma CheckValue()
    ensures SduCrc(Sdu(0x3231, [0x33, 0x34, 0x35, 0x36, 0x37, 0x38, 0x39])) == 0x0376_e6e7
  {
    hide Divide;
    NineDigits(HostOrder(0x3231) + [0x33, 0x34, 0x35, 0x36, 0x37, 0x38, 0x39]);
  }

  lemma DivideNothing(c: bv32)
    ensures Divide(c, []) == c
  {
  }

  lemma CheckBits()
    ensures var c: bv32 := 0x0376_e6e7;
      Low8(c) == 0xe7 && Low8(c >> 8) == 0xe6 && Low8(c >> 16) == 0x76 && Low8(c >> 24) == 0x03
  {
  }

  lemma CheckNumbers()
    ensures FromBits(0xe7) == 0xe7 && FromBits(0xe6) == 0xe6 && FromBits(0x76) == 0x76 && FromBits(0x03) == 0x03
  {
  }

  /** The trailer of that SDU: low byte first. */
  lemma CheckTrailerBytes()
    ensures CrcBytes(0x0376_e6e7) == [0xe7, 0xe6, 0x76, 0x03]
  {
    hide Low8, FromBits;
    CheckBits();
    CheckNumbers();
  }
}
