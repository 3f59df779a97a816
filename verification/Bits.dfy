/** Bytes as numbers and as bit patterns: the protocol layer computes with numbers, the CRC with bits. */
module Bits {
  import opened Bytes

  function Pick(b: bool, x: bv8): bv8 {
    if b then x else 0
  }

  function Weigh(b: bool, n: nat): nat {
    if b then n else 0
  }

  function Pack(b7: bool, b6: bool, b5: bool, b4: bool, b3: bool, b2: bool, b1: bool, b0: bool): bv8 {
    Pick(b7, 128) | Pick(b6, 64) | Pick(b5, 32) | Pick(b4, 16) | Pick(b3, 8) | Pick(b2, 4) | Pick(b1, 2) | Pick(b0, 1)
  }

  function Sum(b7: bool, b6: bool, b5: bool, b4: bool, b3: bool, b2: bool, b1: bool, b0: bool): byte {
    Weigh(b7, 128) + Weigh(b6, 64) + Weigh(b5, 32) + Weigh(b4, 16) + Weigh(b3, 8) + Weigh(b2, 4) + Weigh(b1, 2)
    + Weigh(b0, 1)
  }

  function Rest(r: nat, w: nat): nat {
    if r >= w then r - w else r
  }

  /** The bits of a number, each weight subtracted in turn. */
  function ToBits(b: byte): bv8 {
    var r6 := Rest(b, 128);
    var r5 := Rest(r6, 64);
    var r4 := Rest(r5, 32);
    var r3 := Rest(r4, 16);
    var r2 := Rest(r3, 8);
    var r1 := Rest(r2, 4);
    var r0 := Rest(r1, 2);
    Pack(b >= 128, r6 >= 64, r5 >= 32, r4 >= 16, r3 >= 8, r2 >= 4, r1 >= 2, r0 >= 1)
  }

  predicate Has(x: bv8, k: bv8) {
    x & k != 0
  }

  function FromBits(x: bv8): byte {
    Sum(Has(x, 128), Has(x, 64), Has(x, 32), Has(x, 16), Has(x, 8), Has(x, 4), Has(x, 2), Has(x, 1))
  }

  lemma PackHas(b7: bool, b6: bool, b5: bool, b4: bool, b3: bool, b2: bool, b1: bool, b0: bool)
    ensures var x := Pack(b7, b6, b5, b4, b3, b2, b1, b0);
      && Has(x, 128) == b7 && Has(x, 64) == b6 && Has(x, 32) == b5 && Has(x, 16) == b4
      && Has(x, 8) == b3 && Has(x, 4) == b2 && Has(x, 2) == b1 && Has(x, 1) == b0
  {
  }

  lemma HasPack(x: bv8)
    ensures Pack(Has(x, 128), Has(x, 64), Has(x, 32), Has(x, 16), Has(x, 8), Has(x, 4), Has(x, 2), Has(x, 1)) == x
  {
  }

  lemma WeighStep(r: nat, w: nat)
    requires r < 2 * w
    ensures r == Weigh(r >= w, w) + Rest(r, w) && Rest(r, w) < w
  {
  }

  /** Number to bits and back. */
  lemma FromToBits(b: byte)
    ensures FromBits(ToBits(b)) == b
  {
    hide Pack, Has, Rest, Weigh;
    var r6 := Rest(b, 128);
    var r5 := Rest(r6, 64);
    var r4 := Rest(r5, 32);
    var r3 := Rest(r4, 16);
    var r2 := Rest(r3, 8);
    var r1 := Rest(r2, 4);
    var r0 := Rest(r1, 2);
    WeighStep(b, 128);
    WeighStep(r6, 64);
    WeighStep(r5, 32);
    WeighStep(r4, 16);
    WeighStep(r3, 8);
    WeighStep(r2, 4);
    WeighStep(r1, 2);
    WeighStep(r0, 1);
    PackHas(b >= 128, r6 >= 64, r5 >= 32, r4 >= 16, r3 >= 8, r2 >= 4, r1 >= 2, r0 >= 1);
  }

  lemma SumInjective(a7: bool, a6: bool, a5: bool, a4: bool, a3: bool, a2: bool, a1: bool, a0: bool,
                     b7: bool, b6: bool, b5: bool, b4: bool, b3: bool, b2: bool, b1: bool, b0: bool)
    requires Sum(a7, a6, a5, a4, a3, a2, a1, a0) == Sum(b7, b6, b5, b4, b3, b2, b1, b0)
    ensures a7 == b7 && a6 == b6 && a5 == b5 && a4 == b4 && a3 == b3 && a2 == b2 && a1 == b1 && a0 == b0
  {
  }

  /** Distinct bit patterns are distinct numbers. */
  lemma FromBitsInjective(x: bv8, y: bv8)
    requires FromBits(x) == FromBits(y)
    ensures x == y
  {
    SumInjective(Has(x, 128), Has(x, 64), Has(x, 32), Has(x, 16), Has(x, 8), Has(x, 4), Has(x, 2), Has(x, 1),
                 Has(y, 128), Has(y, 64), Has(y, 32), Has(y, 16), Has(y, 8), Has(y, 4), Has(y, 2), Has(y, 1));
    HasPack(x);
    HasPack(y);
    hide Pack, Has;
  }
}
