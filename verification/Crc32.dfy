/** The checksum of crc32.ts: a table of 256 precomputed byte steps, proved to compute the
    bit-by-bit CRC-32 (IEEE 802.3, reflected polynomial) it stands for.

    An unsigned 32-bit number is the list of its bits, least significant first. */
module Crc32 {
  import opened Bytes

  type Word = w: seq<bool> | |w| == 32 witness ToBits(0, 32)

  function Zeros(n: nat): seq<bool> { seq(n, _ => false) }

  function ToBits(n: nat, w: nat): (s: seq<bool>)
    ensures |s| == w
  {
    if w == 0 then [] else [n % 2 == 1] + ToBits(n / 2, w - 1)
  }

  function FromBits(s: seq<bool>): nat {
    if s == [] then 0 else (if s[0] then 1 else 0) + 2 * FromBits(s[1..])
  }

  /** 0xEDB88320 */
  function POLY(): Word { ToBits(0xEDB8_8320, 32) }
  function Not(a: Word): Word { seq(32, i requires 0 <= i < 32 => !a[i]) }

  function Xor(a: Word, b: Word): Word { seq(32, i requires 0 <= i < 32 => a[i] != b[i]) }

  function ShiftRight(a: Word, n: nat): Word
    requires n <= 32
  {
    a[n..] + Zeros(n)
  }

  function LowByte(a: Word): Word { a[..8] + Zeros(24) }

  function ByteWord(b: byte): Word { ToBits(b, 8) + Zeros(24) }

  /** Divide one bit: shift right, and add the polynomial when a one falls out. */
  function BitStep(c: Word): Word {
    if c[0] then Xor(POLY(), ShiftRight(c, 1)) else ShiftRight(c, 1)
  }

  function BitSteps(c: Word, n: nat): Word
    decreases n, c
  {
    if n == 0 then c else BitSteps(BitStep(c), n - 1)
  }

  /** The definition of the checksum: every byte is eight bit divisions of the register. */
  function Register(c: Word, s: bytes): Word
    decreases |s|
  {
    if s == [] then c else Register(BitSteps(Xor(c, ByteWord(s[0])), 8), s[1..])
  }

  /** The CRC of `s`, continuing an earlier CRC `prev` (zero to start). */
  function Continue(prev: Word, s: bytes): Word {
    Not(Register(Not(prev), s))
  }

  function Crc(s: bytes): Word { Continue(Zeros(32), s) }

  /** The number stored in a frame's trailer. */
  function CrcValue(s: bytes): (n: nat)
    ensures n < Pow256(4)
  {
    FromBitsBound(Crc(s));
    PowerValues();
    FromBits(Crc(s))
  }

  // ---- Numbers and bits --------------------------------------------------------------------

  function Pow2(n: nat): nat { if n == 0 then 1 else 2 * Pow2(n - 1) }

  lemma {:induction false} FromBitsBelow(s: seq<bool>)
    ensures FromBits(s) < Pow2(|s|)
  {
    if s != [] { FromBitsBelow(s[1..]); }
  }

  lemma FromBitsBound(w: Word)
    ensures FromBits(w) < 0x1_0000_0000
  {
    FromBitsBelow(w);
    Pow2Sum(16, 16);
    Pow2Sum(8, 8);
    assert Pow2(8) == 0x100;
  }

  lemma {:induction false} Pow2Sum(a: nat, b: nat)
    ensures Pow2(a + b) == Pow2(a) * Pow2(b)
  {
    if a != 0 { Pow2Sum(a - 1, b); }
  }

  lemma {:induction false} ToBitsOfFromBits(s: seq<bool>)
    ensures ToBits(FromBits(s), |s|) == s
  {
    if s != [] {
      ToBitsOfFromBits(s[1..]);
      assert FromBits(s) / 2 == FromBits(s[1..]);
      assert s == [s[0]] + s[1..];
    }
  }

  // ---- The table step is the bit-by-bit step -----------------------------------------------

  /** Division is linear: this is why one table indexed by a byte is enough. */
  lemma BitStepLinear(x: Word, y: Word)
    ensures BitStep(Xor(x, y)) == Xor(BitStep(x), BitStep(y))
  {
    var l, r := BitStep(Xor(x, y)), Xor(BitStep(x), BitStep(y));
    forall i | 0 <= i < 32 ensures l[i] == r[i] {}
  }

  lemma {:induction false} BitStepsLinear(x: Word, y: Word, n: nat)
    ensures BitSteps(Xor(x, y), n) == Xor(BitSteps(x, n), BitSteps(y, n))
    decreases n
  {
    if n != 0 {
      BitStepLinear(x, y);
      BitStepsLinear(BitStep(x), BitStep(y), n - 1);
    }
  }

  /** While no one falls out, bit division only shifts. */
  lemma {:induction false} BitStepsOfHighBits(x: Word, n: nat)
    requires n <= 32 && x[..n] == Zeros(n)
    ensures BitSteps(x, n) == ShiftRight(x, n)
    decreases n
  {
    if n != 0 {
      assert !x[..n][0];
      assert BitStep(x) == ShiftRight(x, 1);
      var low := BitStep(x)[..n - 1];
      forall i | 0 <= i < n - 1 ensures !low[i] { assert x[..n][i + 1] == x[i + 1]; }
      assert low == Zeros(n - 1);
      BitStepsOfHighBits(BitStep(x), n - 1);
      assert ShiftRight(ShiftRight(x, 1), n - 1) == ShiftRight(x, n);
    }
  }

  /** Eight bit divisions of any register are one table lookup and one shift. */
  lemma TableStep(x: Word)
    ensures BitSteps(x, 8) == Xor(BitSteps(LowByte(x), 8), ShiftRight(x, 8))
  {
    var hi: Word := Zeros(8) + x[8..];
    assert Xor(LowByte(x), hi) == x;
    BitStepsLinear(LowByte(x), hi, 8);
    assert hi[..8] == Zeros(8);
    BitStepsOfHighBits(hi, 8);
    assert ShiftRight(hi, 8) == ShiftRight(x, 8);
  }

  // ---- crc32.ts ----------------------------------------------------------------------------

  predicate IsTable(t: seq<Word>) {
    |t| == 256 && forall n :: 0 <= n < 256 ==> t[n] == BitSteps(ByteWord(n), 8)
  }

  lemma BitStepsLast(c: Word, k: nat)
    ensures BitSteps(c, k + 1) == BitStep(BitSteps(c, k))
    decreases k
  {
    if k != 0 { BitStepsLast(BitStep(c), k - 1); }
  }

  method TableEntry(n: byte, steps: nat) returns (c: Word)
    ensures c == BitSteps(ByteWord(n), steps)
  {
    c := ByteWord(n);
    for k := 0 to steps
      invariant c == BitSteps(ByteWord(n), k)
    {
      BitStepsLast(ByteWord(n), k);
      c := BitStep(c);
    }
  }

  method BuildTable() returns (table: array<Word>)
    ensures fresh(table) && IsTable(table[..])
  {
    table := new Word[256](_ => Zeros(32));
    for n := 0 to 256
      invariant forall m :: 0 <= m < n ==> table[m] == BitSteps(ByteWord(m), 8)
    {
      var entry := TableEntry(n, 8);
      table[n] := entry;
    }
  }

  lemma TableIndex(c: Word, b: byte)
    ensures FromBits(Xor(c, ByteWord(b))[..8]) < 256
    ensures ByteWord(FromBits(Xor(c, ByteWord(b))[..8])) == LowByte(Xor(c, ByteWord(b)))
    ensures ShiftRight(Xor(c, ByteWord(b)), 8) == ShiftRight(c, 8)
  {
    var x := Xor(c, ByteWord(b));
    FromBitsBelow(x[..8]);
    assert Pow2(8) == 256;
    ToBitsOfFromBits(x[..8]);
    assert ShiftRight(x, 8) == ShiftRight(c, 8);
  }

  /** One table lookup, one xor and one shift per byte. */
  method Compute(table: array<Word>, s: bytes, prev: Word) returns (crc: Word)
    requires IsTable(table[..])
    ensures crc == Continue(prev, s)
  {
    var c := Not(prev);
    for i := 0 to |s|
      invariant Register(c, s[i..]) == Register(Not(prev), s)
    {
      var x := Xor(c, ByteWord(s[i]));
      TableIndex(c, s[i]);
      TableStep(x);
      assert s[i..][1..] == s[i + 1..];
      assert table[..][FromBits(x[..8])] == table[FromBits(x[..8])];
      c := Xor(table[FromBits(x[..8])], ShiftRight(c, 8));
    }
    assert s[|s|..] == [];
    crc := Not(c);
  }

  // ---- Streaming ---------------------------------------------------------------------------

  lemma {:induction false} RegisterAppend(c: Word, a: bytes, b: bytes)
    ensures Register(c, a + b) == Register(Register(c, a), b)
    decreases |a|
  {
    if a == [] {
      assert a + b == b;
    } else {
      assert (a + b)[1..] == a[1..] + b;
      RegisterAppend(BitSteps(Xor(c, ByteWord(a[0])), 8), a[1..], b);
    }
  }

  /** The incremental law: continuing the CRC of a prefix gives the CRC of the whole. */
  lemma ContinueAppend(prev: Word, a: bytes, b: bytes)
    ensures Continue(Continue(prev, a), b) == Continue(prev, a + b)
  {
    var r := Register(Not(prev), a);
    assert Not(Not(r)) == r;
    RegisterAppend(Not(prev), a, b);
  }

  lemma ContinueNothing(prev: Word)
    ensures Continue(prev, []) == prev
  {
    assert Not(Not(prev)) == prev;
  }
}
