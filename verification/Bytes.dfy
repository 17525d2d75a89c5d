/** Bytes, fixed-width unsigned integers and their big-endian wire form. */
module Bytes {

  type byte = b: int | 0 <= b < 0x100
  type uint16 = x: int | 0 <= x < 0x1_0000
  type uint24 = x: int | 0 <= x < 0x100_0000

  /** SSL3_RT_MAX_PLAIN_LENGTH */
  const MAX_PLAIN: nat := 16384

  datatype Option<+T> = None | Some(value: T)

  function PutU16(x: uint16): (r: seq<byte>)
    ensures |r| == 2
  {
    [x / 0x100, x % 0x100]
  }

  function PutU24(x: uint24): (r: seq<byte>)
    ensures |r| == 3
  {
    [x / 0x1_0000] + PutU16(x % 0x1_0000)
  }

  function GetU16(hi: byte, lo: byte): (x: uint16)
    ensures PutU16(x) == [hi, lo]
  {
    hi * 0x100 + lo
  }

  function GetU24(hi: byte, mid: byte, lo: byte): (x: uint24)
    ensures PutU24(x) == [hi, mid, lo]
  {
    var low: int := GetU16(mid, lo);
    var x: int := hi * 0x1_0000 + low;
    assert x / 0x1_0000 == hi && x % 0x1_0000 == low;
    x
  }

  lemma GetPutU16(x: uint16)
    ensures GetU16(PutU16(x)[0], PutU16(x)[1]) == x
  {
  }

  lemma GetPutU24(x: uint24)
    ensures GetU24(PutU24(x)[0], PutU24(x)[1], PutU24(x)[2]) == x
  {
  }

  function BigEndian(s: seq<byte>): nat {
    if s == [] then 0 else BigEndian(s[..|s| - 1]) * 0x100 + s[|s| - 1]
  }

  function Pow256(n: nat): (p: nat)
    ensures p > 0
  {
    if n == 0 then 1 else Pow256(n - 1) * 0x100
  }

  lemma {:induction false} BigEndianBound(s: seq<byte>)
    ensures BigEndian(s) < Pow256(|s|)
  {
    if s != [] {
      BigEndianBound(s[..|s| - 1]);
    }
  }

  lemma {:induction false} Pow256Large(n: nat)
    ensures n > 0 ==> Pow256(n) >= 0x100
  {
    if n > 1 {
      Pow256Large(n - 1);
    }
  }

  function Pow2(n: nat): (p: nat)
    ensures p > 0
  {
    if n == 0 then 1 else 2 * Pow2(n - 1)
  }
}
