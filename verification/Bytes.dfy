/** Bytes, and the little-endian integers the file formats are made of. */
module Bytes {

  type byte = x: int | 0 <= x < 256
  type bytes = seq<byte>

  datatype Option<+T> = None | Some(value: T)

  function Pow256(w: nat): (p: nat)
    ensures p > 0
  {
    if w == 0 then 1 else 256 * Pow256(w - 1)
  }

  /** writeUInt16LE, writeUInt32LE and the bit pattern of writeBigInt64LE. */
  function LE(n: nat, w: nat): (s: bytes)
    ensures |s| == w
  {
    if w == 0 then [] else [n % 256] + LE(n / 256, w - 1)
  }

  /** readUInt16LE and its wider siblings. */
  function FromLE(s: bytes): nat {
    if s == [] then 0 else s[0] + 256 * FromLE(s[1..])
  }

  lemma {:induction false} FromLEOfLE(n: nat, w: nat)
    requires n < Pow256(w)
    ensures FromLE(LE(n, w)) == n
  {
    if w == 0 {
    } else {
      FromLEOfLE(n / 256, w - 1);
      assert LE(n, w)[1..] == LE(n / 256, w - 1);
    }
  }

  lemma PowerValues()
    ensures Pow256(2) == 0x1_0000 && Pow256(4) == 0x1_0000_0000 && Pow256(8) == 0x1_0000_0000_0000_0000
  {
    assert Pow256(1) == 256;
    assert Pow256(3) == 0x100_0000;
    assert Pow256(5) == 0x100_0000_0000;
    assert Pow256(7) == 0x100_0000_0000_0000;
  }

  /** Two's complement: the unsigned pattern of an int64. */
  predicate IsInt64(x: int) { -0x8000_0000_0000_0000 <= x < 0x8000_0000_0000_0000 }

  function ToPattern64(x: int): nat
    requires IsInt64(x)
  {
    if x < 0 then x + 0x1_0000_0000_0000_0000 else x
  }

  function FromPattern64(n: nat): int {
    if n < 0x8000_0000_0000_0000 then n else n - 0x1_0000_0000_0000_0000
  }

  // Numbers: what is left of an integer as a double.

  /** The distance of neighbouring doubles around `a`, as far as it is at least one. */
  function Spacing(a: nat): (u: nat)
    ensures u > 0
  {
    if a < 0x20_0000_0000_0000 then 1 else 2 * Spacing(a / 2)
  }

  /** To the nearest multiple of `u`, in the middle to the even one. */
  function Rounded(a: nat, u: nat): nat
    requires u > 0
  {
    if 2 * (a % u) < u || (2 * (a % u) == u && a / u % 2 == 0) then a / u * u else (a / u + 1) * u
  }

  /** Number(x) of a BigInt. */
  function ToNumber(x: int): int { if x < 0 then 0 - Rounded(-x, Spacing(-x)) as int else Rounded(x, Spacing(x)) }

  /** A JavaScript number that is an integer. */
  predicate IsNumber(x: int) { ToNumber(x) == x }

  lemma SafeIsNumber(x: int)
    requires -0x20_0000_0000_0000 < x < 0x20_0000_0000_0000
    ensures IsNumber(x)
  {
  }

  /** All the pieces of a list of byte strings, one after the other. */
  function Flat(parts: seq<bytes>): bytes {
    if parts == [] then [] else parts[0] + Flat(parts[1..])
  }

  lemma {:induction false} FlatAppend(a: seq<bytes>, b: seq<bytes>)
    ensures Flat(a + b) == Flat(a) + Flat(b)
  {
    if a == [] {
      assert a + b == b;
    } else {
      assert (a + b)[1..] == a[1..] + b;
      FlatAppend(a[1..], b);
      assert a[0] + (Flat(a[1..]) + Flat(b)) == (a[0] + Flat(a[1..])) + Flat(b);
    }
  }
}
