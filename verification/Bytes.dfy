/** Bytes and the big-endian (network order) fields that the headers are made of. */
module Bytes {

  type byte = x: int | 0 <= x < 0x100
  type uint16 = x: int | 0 <= x < 0x1_0000
  type uint32 = x: int | 0 <= x < 0x1_0000_0000

  function Get16(b: seq<byte>, i: nat): (v: uint16)
    requires i + 2 <= |b|
  {
    b[i] as int * 0x100 + b[i + 1] as int
  }

  function Get32(b: seq<byte>, i: nat): (v: uint32)
    requires i + 4 <= |b|
  {
    Get16(b, i) * 0x1_0000 + Get16(b, i + 2)
  }

  function Put16(b: seq<byte>, i: nat, v: uint16): (r: seq<byte>)
    requires i + 2 <= |b|
    ensures |r| == |b|
    ensures forall k | 0 <= k < |b| && k != i && k != i + 1 :: r[k] == b[k]
    ensures Get16(r, i) == v
  {
    b[i := v / 0x100][i + 1 := v % 0x100]
  }

  function Put32(b: seq<byte>, i: nat, v: uint32): (r: seq<byte>)
    requires i + 4 <= |b|
    ensures |r| == |b|
    ensures forall k | 0 <= k < |b| && !(i <= k < i + 4) :: r[k] == b[k]
    ensures Get32(r, i) == v
  {
    Put16(Put16(b, i, v / 0x1_0000), i + 2, v % 0x1_0000)
  }

  /** The two bytes of a 16-bit field determine it and are determined by it. */
  lemma Get16Injective(a: seq<byte>, b: seq<byte>, i: nat)
    requires i + 2 <= |a| && i + 2 <= |b|
    requires Get16(a, i) == Get16(b, i)
    ensures a[i] == b[i] && a[i + 1] == b[i + 1]
  {
  }

  lemma Get32Injective(a: seq<byte>, b: seq<byte>, i: nat)
    requires i + 4 <= |a| && i + 4 <= |b|
    requires Get32(a, i) == Get32(b, i)
    ensures forall k | i <= k < i + 4 :: a[k] == b[k]
  {
    assert Get16(a, i) == Get16(b, i) && Get16(a, i + 2) == Get16(b, i + 2);
  }

  lemma Get32Halves(b: seq<byte>, i: nat, j: nat)
    requires i + 4 <= |b| && j + 4 <= |b|
    ensures Get32(b, i) == Get32(b, j) <==> Get16(b, i) == Get16(b, j) && Get16(b, i + 2) == Get16(b, j + 2)
  {
  }
}
