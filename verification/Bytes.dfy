/** Bytes, 16-bit words, SDUs and the few facts about byte strings that the rest of the model shares. */
module Bytes {
  type byte = b: int | 0 <= b < 0x100
  type u16 = n: int | 0 <= n < 0x1_0000

  datatype Option<+T> = None | Some(value: T)

  /** A Service Data Unit: its uncompressed protocol type and its bytes. */
  datatype Sdu = Sdu(ptype: u16, data: seq<byte>)

  function Min(a: nat, b: nat): nat {
    if a < b then a else b
  }

  function Zeros(n: nat): seq<byte> {
    seq(n, i => 0)
  }

  function Flatten<T>(pieces: seq<seq<T>>): seq<T> {
    if pieces == [] then [] else pieces[0] + Flatten(pieces[1..])
  }

  lemma {:induction false} FlattenConcat<T>(a: seq<seq<T>>, b: seq<seq<T>>)
    ensures Flatten(a + b) == Flatten(a) + Flatten(b)
  {
    if a == [] {
      assert a + b == b;
    } else {
      assert (a + b)[1..] == a[1..] + b && (a + b)[0] == a[0];
      FlattenConcat(a[1..], b);
      assert a[0] + (Flatten(a[1..]) + Flatten(b)) == (a[0] + Flatten(a[1..])) + Flatten(b);
    }
  }

  /** Network order of a 16-bit word: high byte first. */
  function BigEndian(n: u16): seq<byte> {
    [n / 0x100, n % 0x100]
  }

  /** Host order of a 16-bit word on the little-endian layout that the model follows. */
  function HostOrder(n: u16): seq<byte> {
    [n % 0x100, n / 0x100]
  }

  function ReadBigEndian(hi: byte, lo: byte): u16 {
    hi * 0x100 + lo
  }
}
