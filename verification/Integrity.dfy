/** What the checksums are for: damage of up to four neighbouring bytes never goes unseen (crc32.ts,
    codec.ts, text-postings.ts), and where each field of a frame lies. */
module Integrity {
  import opened Bytes
  import opened Crc32
  import opened Codec
  import P = Postings

  // ---- The register forgets nothing --------------------------------------------------------

  lemma {:induction false} TopBit(n: nat, w: nat)
    requires w > 0 && n < Pow2(w)
    ensures ToBits(n, w)[w - 1] <==> n >= Pow2(w - 1)
  {
    if w > 1 { TopBit(n / 2, w - 1); }
  }

  lemma {:induction false} FromBitsOfToBits(n: nat, w: nat)
    requires n < Pow2(w)
    ensures FromBits(ToBits(n, w)) == n
  {
    if w > 0 { FromBitsOfToBits(n / 2, w - 1); }
  }

  lemma Power31()
    ensures Pow2(31) == 0x8000_0000
  {
    Pow2Sum(16, 15);
    Pow2Sum(8, 8);
    Pow2Sum(8, 7);
    assert Pow2(7) == 128;
  }

  /** The polynomial has its highest bit: what falls out at one end is seen at the other. */
  lemma TopOfPoly()
    ensures POLY()[31]
  {
    Power31();
    TopBit(0xEDB8_8320, 32);
  }

  lemma BitStepForgetsNothing(c: Word, d: Word)
    ensures BitStep(c) == BitStep(d) ==> c == d
  {
    TopOfPoly();
    hide POLY;
    assert BitStep(c)[31] == c[0] && BitStep(d)[31] == d[0];
    if BitStep(c) == BitStep(d) {
      forall i | 0 <= i < 32 ensures c[i] == d[i] {
        if i > 0 { assert BitStep(c)[i - 1] == BitStep(d)[i - 1]; }
      }
    }
  }

  lemma {:induction false} BitStepsForgetNothing(c: Word, d: Word, n: nat)
    requires BitSteps(c, n) == BitSteps(d, n)
    ensures c == d
    decreases n
  {
    if n > 0 {
      BitStepsForgetNothing(BitStep(c), BitStep(d), n - 1);
      BitStepForgetsNothing(c, d);
    }
  }

  lemma XorForgetsNothing(c: Word, d: Word, w: Word)
    ensures Xor(c, w) == Xor(d, w) ==> c == d
    ensures Xor(w, c) == Xor(w, d) ==> c == d
  {
    if Xor(c, w) == Xor(d, w) {
      forall i | 0 <= i < 32 ensures c[i] == d[i] { assert Xor(c, w)[i] == Xor(d, w)[i]; }
    }
    if Xor(w, c) == Xor(w, d) {
      forall i | 0 <= i < 32 ensures c[i] == d[i] { assert Xor(w, c)[i] == Xor(w, d)[i]; }
    }
  }

  lemma {:induction false} RegisterForgetsNothing(c: Word, d: Word, s: bytes)
    requires Register(c, s) == Register(d, s)
    ensures c == d
    decreases |s|
  {
    hide Xor, BitSteps, ByteWord;
    if s != [] {
      var w := ByteWord(s[0]);
      RegisterForgetsNothing(BitSteps(Xor(c, w), 8), BitSteps(Xor(d, w), 8), s[1..]);
      BitStepsForgetNothing(Xor(c, w), Xor(d, w), 8);
      XorForgetsNothing(c, d, w);
    }
  }

  // ---- Four bytes at once ------------------------------------------------------------------

  /** The bits of up to four bytes, in the order in which the register takes them. */
  function BitsOf(s: bytes): (b: seq<bool>)
    ensures |b| == 8 * |s|
  {
    if s == [] then [] else ToBits(s[0], 8) + BitsOf(s[1..])
  }

  function WordOf(s: bytes): Word
    requires |s| <= 4
  {
    BitsOf(s) + Zeros(32 - 8 * |s|)
  }

  lemma {:induction false} BitsForgetNothing(s: bytes, t: bytes)
    requires |s| == |t| && BitsOf(s) == BitsOf(t)
    ensures s == t
  {
    if s != [] {
      assert BitsOf(s)[..8] == ToBits(s[0], 8) && BitsOf(t)[..8] == ToBits(t[0], 8);
      assert BitsOf(s)[8..] == BitsOf(s[1..]) && BitsOf(t)[8..] == BitsOf(t[1..]);
      assert Pow2(8) == 256;
      FromBitsOfToBits(s[0], 8);
      FromBitsOfToBits(t[0], 8);
      BitsForgetNothing(s[1..], t[1..]);
      assert s == [s[0]] + s[1..] && t == [t[0]] + t[1..];
    }
  }

  /** The register takes up to four bytes as if they were one word. */
  lemma {:induction false} RegisterOfWord(c: Word, s: bytes)
    requires |s| <= 4
    ensures Register(c, s) == BitSteps(Xor(c, WordOf(s)), 8 * |s|)
    decreases |s|
  {
    hide Xor, ByteWord, BitSteps, WordOf, Later;
    if s == [] {
      NoBytes(c);
    } else {
      var first, rest := ByteWord(s[0]), s[1..];
      RegisterOfWord(BitSteps(Xor(c, first), 8), rest);
      LaterReads(s);
      BitStepsLinear(Xor(c, first), Later(s), 8);
      XorParts(c, s);
      BitStepsAdd(Xor(c, WordOf(s)), 8, 8 * |rest|);
    }
  }

  lemma NoBytes(c: Word)
    ensures BitSteps(Xor(c, WordOf([])), 0) == c
  {
    assert Xor(c, WordOf([])) == c;
  }

  /** The bytes behind the first, where they stand in the word. */
  function Later(s: bytes): Word
    requires 0 < |s| <= 4
  {
    Zeros(8) + BitsOf(s[1..]) + Zeros(32 - 8 * |s|)
  }

  lemma LaterReads(s: bytes)
    requires 0 < |s| <= 4
    ensures BitSteps(Later(s), 8) == WordOf(s[1..])
  {
    assert Later(s)[..8] == Zeros(8);
    BitStepsOfHighBits(Later(s), 8);
    assert ShiftRight(Later(s), 8) == WordOf(s[1..]);
  }

  lemma XorParts(c: Word, s: bytes)
    requires 0 < |s| <= 4
    ensures Xor(Xor(c, ByteWord(s[0])), Later(s)) == Xor(c, WordOf(s))
  {
    var first, l, r := ByteWord(s[0]), Xor(Xor(c, ByteWord(s[0])), Later(s)), Xor(c, WordOf(s));
    forall i | 0 <= i < 32 ensures l[i] == r[i] {
      if i < 8 {
        assert first[i] == ToBits(s[0], 8)[i] && !Later(s)[i] && WordOf(s)[i] == ToBits(s[0], 8)[i];
      } else {
        assert !first[i] && Later(s)[i] == WordOf(s)[i];
      }
    }
  }

  lemma {:induction false} BitStepsAdd(c: Word, n: nat, m: nat)
    ensures BitSteps(BitSteps(c, n), m) == BitSteps(c, n + m)
    decreases n
  {
    if n > 0 { BitStepsAdd(BitStep(c), n - 1, m); }
  }

  /** Two byte strings that differ in up to four neighbouring bytes have different checksums. */
  lemma ChecksumSeesBurst(a: bytes, x: bytes, y: bytes, b: bytes)
    requires |x| == |y| <= 4 && x != y
    ensures CrcValue(a + x + b) != CrcValue(a + y + b)
  {
    hide Register, Xor, BitSteps, ToBits;
    var start := Not(Zeros(32));
    RegisterAppend(start, a + x, b);
    RegisterAppend(start, a + y, b);
    RegisterAppend(start, a, x);
    RegisterAppend(start, a, y);
    var c := Register(start, a);
    if Register(start, a + x + b) == Register(start, a + y + b) {
      RegisterForgetsNothing(Register(c, x), Register(c, y), b);
      RegisterOfWord(c, x);
      RegisterOfWord(c, y);
      BitStepsForgetNothing(Xor(c, WordOf(x)), Xor(c, WordOf(y)), 8 * |x|);
      XorForgetsNothing(WordOf(x), WordOf(y), c);
      assert WordOf(x)[..8 * |x|] == BitsOf(x) && WordOf(y)[..8 * |x|] == BitsOf(y);
      BitsForgetNothing(x, y);
      assert false;
    }
    DifferentRegisters(Register(start, a + x + b), Register(start, a + y + b));
  }

  lemma DifferentRegisters(c: Word, d: Word)
    requires c != d
    ensures FromBits(Not(c)) != FromBits(Not(d))
  {
    ToBitsOfFromBits(Not(c));
    ToBitsOfFromBits(Not(d));
    assert Not(Not(c)) == c && Not(Not(d)) == d;
  }

  // ---- Damaged frames ----------------------------------------------------------------------

  /** `s` with other bytes at `i`. */
  function Damaged(s: bytes, i: nat, y: bytes): (t: bytes)
    requires i + |y| <= |s|
    ensures |t| == |s|
  {
    s[..i] + y + s[i + |y|..]
  }

  /** The bytes from `i` on lie in the magic, in type and flags, in time of expiry and body, or in the
      checksum; not in the three lengths. */
  predicate InOnePart(i: nat, n: nat, len: nat) {
    i + n <= 2 || (2 <= i && i + n <= 4) || (14 <= i && i + n <= len - CRC_SIZE) || len - CRC_SIZE <= i
  }

  lemma ChecksumSeesDamage(s: bytes, i: nat, y: bytes)
    requires |y| <= 4 && i + |y| <= |s| && y != s[i..i + |y|]
    ensures CrcValue(Damaged(s, i, y)) != CrcValue(s)
  {
    hide CrcValue;
    ChecksumSeesBurst(s[..i], s[i..i + |y|], y, s[i + |y|..]);
    assert s[..i] + s[i..i + |y|] + s[i + |y|..] == s;
  }

  lemma {:induction false} FromLEForgetsNothing(s: bytes, t: bytes)
    requires |s| == |t| && FromLE(s) == FromLE(t)
    ensures s == t
  {
    if s != [] {
      FromLEForgetsNothing(s[1..], t[1..]);
      assert s == [s[0]] + s[1..] && t == [t[0]] + t[1..];
    }
  }

  lemma SliceOutside(s: bytes, i: nat, y: bytes, rest: bytes, a: nat, b: nat)
    requires i + |y| <= |s| && a <= b <= |s| && (b <= i || i + |y| <= a)
    ensures (Damaged(s, i, y) + rest)[a..b] == s[a..b]
  {
    var l := (Damaged(s, i, y) + rest)[a..b];
    assert forall k :: 0 <= k < b - a ==> l[k] == s[a..b][k];
    assert l == s[a..b];
  }

  /** A slice of damaged bytes is the damaged slice. */
  lemma SliceAround(s: bytes, i: nat, y: bytes, rest: bytes, a: nat, b: nat)
    requires a <= i && i + |y| <= b <= |s|
    ensures (Damaged(s, i, y) + rest)[a..b] == Damaged(s[a..b], i - a, y)
    ensures s[a..b][i - a..i - a + |y|] == s[i..i + |y|]
  {
    var l, r := (Damaged(s, i, y) + rest)[a..b], Damaged(s[a..b], i - a, y);
    assert forall k :: 0 <= k < b - a ==> l[k] == r[k];
    assert l == r;
    SliceOfSlice(s, a, b, i - a, i - a + |y|);
  }

  /** Bytes `a` to `b` are checked by those up to `len`: damage in the checked bytes ... */
  lemma CheckedBreaks(s: bytes, i: nat, y: bytes, rest: bytes, a: nat, b: nat, len: nat)
    requires a <= i && i + |y| <= b <= len <= |s| && |y| <= 4 && y != s[i..i + |y|]
    requires FromLE(s[b..len]) == CrcValue(s[a..b])
    ensures var t := Damaged(s, i, y) + rest; FromLE(t[b..len]) != CrcValue(t[a..b])
  {
    hide FromLE, CrcValue, Damaged;
    SliceAround(s, i, y, rest, a, b);
    SliceOutside(s, i, y, rest, b, len);
    ChecksumSeesDamage(s[a..b], i - a, y);
  }

  /** ... or in the checksum makes it unfit. */
  lemma ChecksumBreaks(s: bytes, i: nat, y: bytes, rest: bytes, a: nat, b: nat, len: nat)
    requires a <= b <= i && i + |y| <= len <= |s| && y != s[i..i + |y|]
    requires FromLE(s[b..len]) == CrcValue(s[a..b])
    ensures var t := Damaged(s, i, y) + rest; FromLE(t[b..len]) != CrcValue(t[a..b])
  {
    hide FromLE, CrcValue;
    SliceAround(s, i, y, rest, b, len);
    SliceOutside(s, i, y, rest, a, b);
    DifferentNumbers(s[b..len], i - b, y);
  }

  lemma DifferentNumbers(x: bytes, i: nat, y: bytes)
    requires i + |y| <= |x| && y != x[i..i + |y|]
    ensures FromLE(Damaged(x, i, y)) != FromLE(x)
  {
    assert Damaged(x, i, y)[i..i + |y|] == y;
    if FromLE(Damaged(x, i, y)) == FromLE(x) { FromLEForgetsNothing(Damaged(x, i, y), x); }
  }

  /** The lengths are untouched, so the frame ends where it did. */
  lemma LengthsStay(r: Record, i: nat, y: bytes, rest: bytes)
    requires Encodable(r) && i + |y| <= |Encoded(r)| && InOnePart(i, |y|, |Encoded(r)|) && i + |y| > 2
    ensures var s := Damaged(Encoded(r), i, y) + rest;
            && |s[4..22]| == 18 && HEADER_SIZE + BodyLen(s[4..22]) + CRC_SIZE == |Encoded(r)|
            && s[0] == MAGIC[0] && s[1] == MAGIC[1]
  {
    var e, s := Encoded(r), Damaged(Encoded(r), i, y) + rest;
    EncodedSlices(r, []);
    assert e + [] == e;
    hide Encoded;
    SliceOutside(e, i, y, rest, 4, 14);
    SliceOutside(e, i, y, rest, 0, 2);
    assert s[0..2] == e[0..2] && s[4..14] == e[4..14];
    var h, g := s[4..22], e[4..22];
    assert h[..10] == s[4..14] && g[..10] == e[4..14];
    assert h[..2] == h[..10][..2] && h[2..6] == h[..10][2..6] && h[6..10] == h[..10][6..10];
    assert g[..2] == g[..10][..2] && g[2..6] == g[..10][2..6] && g[6..10] == g[..10][6..10];
    assert g == Sizes(r);
    SizesRoundTrip(r);
    assert s[0] == s[0..2][0] && s[1] == s[0..2][1] && e[0] == e[0..2][0] && e[1] == e[0..2][1];
  }

  /** Whatever happens to up to four neighbouring bytes of a frame, outside its lengths, the frame is not
      taken for a frame any more. */
  lemma FrameDamageIsSeen(r: Record, i: nat, y: bytes, rest: bytes)
    requires Encodable(r) && |y| <= 4 && i + |y| <= |Encoded(r)| && InOnePart(i, |y|, |Encoded(r)|)
    requires y != Encoded(r)[i..i + |y|]
    ensures ReadFrame(Damaged(Encoded(r), i, y) + rest).None?
  {
    if i + |y| <= 2 {
      MagicDamage(r, i, y, rest);
    } else {
      PartDamage(r, i, y, rest);
    }
  }

  lemma PartDamage(r: Record, i: nat, y: bytes, rest: bytes)
    requires Encodable(r) && |y| <= 4 && i + |y| <= |Encoded(r)| && InOnePart(i, |y|, |Encoded(r)|)
    requires y != Encoded(r)[i..i + |y|] && i + |y| > 2
    ensures ReadFrame(Damaged(Encoded(r), i, y) + rest).None?
  {
    hide Encoded, Checked, ReadFrame, LE, FromLE, CrcValue, Damaged, BodyLen;
    EncodedSlices(r, []);
    Whole(Encoded(r), 0);
    FromLEOfLE(CrcValue(Checked(r)), 4);
    LengthsStay(r, i, y, rest);
    var e, end, len := Encoded(r), |Encoded(r)| - CRC_SIZE, |Encoded(r)|;
    var s := Damaged(e, i, y) + rest;
    ReadFrameFrom(s, s[4..22], len, s[2..end], s[HEADER_SIZE..end], s[end..len]);
    if end <= i {
      ChecksumBreaks(e, i, y, rest, 2, end, len);
    } else {
      CheckedBreaks(e, i, y, rest, 2, end, len);
    }
  }

  lemma MagicDamage(r: Record, i: nat, y: bytes, rest: bytes)
    requires Encodable(r) && i + |y| <= 2 && y != Encoded(r)[i..i + |y|]
    ensures ReadFrame(Damaged(Encoded(r), i, y) + rest).None?
  {
    hide Encoded, ReadFrame, Damaged;
    var e, s := Encoded(r), Damaged(Encoded(r), i, y) + rest;
    EncodedSlices(r, []);
    Whole(e, 0);
    SliceAround(e, i, y, rest, 0, 2);
    DamageChanges(e[0..2], i, y);
    assert e[0..2] == [MAGIC[0], MAGIC[1]] && s[0..2] == [s[0], s[1]];
    BadMagic(s);
  }

  lemma DamageChanges(s: bytes, i: nat, y: bytes)
    requires i + |y| <= |s| && y != s[i..i + |y|]
    ensures Damaged(s, i, y) != s
  {
    assert Damaged(s, i, y)[i..i + |y|] == y;
  }

  lemma BadMagic(s: bytes)
    requires |s| >= 2
    ensures s[0] != MAGIC[0] || s[1] != MAGIC[1] ==> ReadFrame(s).None?
  {
  }

  // ---- Damaged postings --------------------------------------------------------------------

  /** The same for a postings record, wherever in its body or in its checksum the bytes lie. */
  lemma RecordDamageIsSeen(e: P.Entry, i: nat, y: bytes)
    requires P.Fits(e) && |y| <= 4 && i + |y| <= |P.EntryBytes(e)| && y != P.EntryBytes(e)[i..i + |y|]
    requires i + |y| <= |P.EntryBytes(e)| - CRC_SIZE || |P.EntryBytes(e)| - CRC_SIZE <= i
    ensures P.ReadEntry(Damaged(P.EntryBytes(e), i, y)).None?
  {
    hide P.EntryBytes, P.EntryBody, P.ReadEntry, LE, FromLE, CrcValue, Damaged;
    P.EntrySlices(e);
    P.CrcRoundTrip(P.EntryBody(e));
    var s, t, end := P.EntryBytes(e), Damaged(P.EntryBytes(e), i, y), |P.EntryBytes(e)| - CRC_SIZE;
    Whole(s, end);
    Whole(t, end);
    if end <= i {
      ChecksumBreaks(s, i, y, [], 0, end, |s|);
    } else {
      CheckedBreaks(s, i, y, [], 0, end, |s|);
    }
    BadChecksum(t);
  }

  lemma Whole(s: bytes, end: nat)
    requires end <= |s|
    ensures s + [] == s && s[0..end] == s[..end] && s[end..|s|] == s[end..]
  {
  }

  lemma BadChecksum(s: bytes)
    requires |s| >= CRC_SIZE && FromLE(s[|s| - CRC_SIZE..]) != CrcValue(s[..|s| - CRC_SIZE])
    ensures P.ReadEntry(s).None?
  {
  }

  // ---- Where everything lies ---------------------------------------------------------------

  /** Little-endian numbers of two and four bytes. */
  function Number2(a: int, b: int): int { a + 0x100 * b }

  function Number4(a: int, b: int, c: int, d: int): int { a + 0x100 * b + 0x1_0000 * c + 0x100_0000 * d }

  lemma TwoBytes(s: bytes)
    requires |s| == 2
    ensures FromLE(s) == Number2(s[0], s[1])
  {
    assert s[1..][1..] == [];
    assert FromLE([]) == 0;
  }

  lemma FourBytes(s: bytes)
    requires |s| == 4
    ensures FromLE(s) == Number4(s[0], s[1], s[2], s[3])
  {
    TwoBytes(s[2..]);
    assert s[1..][1..] == s[2..];
  }

  /** The layout of a frame: two bytes of magic, type, flags, the lengths of key (2 bytes), value and
      metadata (4 each), the time of expiry (8), key, value, metadata, and the checksum (4) of all but
      the magic; numbers with the lowest byte first, a negative one as its two's complement. */
  lemma FrameLayout(r: Record)
    requires Encodable(r)
    ensures var e, k, v, m := Encoded(r), |r.key|, |r.value|, |MetaBytes(r.meta)|;
            && |e| == 22 + k + v + m + 4
            && e[0] == 0x4D && e[1] == 0x44 && e[2] == r.typ && e[3] == 0
            && k == Number2(e[4], e[5])
            && v == Number4(e[6], e[7], e[8], e[9])
            && m == Number4(e[10], e[11], e[12], e[13])
            && FromLE(e[14..22]) == (if r.expireAt < 0 then r.expireAt + 0x1_0000_0000_0000_0000 else r.expireAt)
            && e[22..22 + k] == r.key && e[22 + k..22 + k + v] == r.value
            && e[22 + k + v..22 + k + v + m] == MetaBytes(r.meta)
            && FromLE(e[|e| - 4..]) == CrcValue(e[2..|e| - 4])
  {
    hide Encoded, Sizes, Checked, Body, MetaBytes, Number2, Number4, LE, FromLE, CrcValue, Pow256;
    var e, k, v, m := Encoded(r), |r.key|, |r.value|, |MetaBytes(r.meta)|;
    EncodedSlices(r, []);
    BodyLayout(r);
    Whole(e, |e| - 4);
    SizesLayout(r, e);
    FlagsAreZero(r);
    FromLEOfLE(CrcValue(Checked(r)), 4);
    SliceOfSlice(e, 22, |e| - 4, 0, k);
    SliceOfSlice(e, 22, |e| - 4, k, k + v);
    SliceOfSlice(e, 22, |e| - 4, k + v, k + v + m);
  }

  lemma BodyLayout(r: Record)
    ensures var b, k, v := Body(r), |r.key|, |r.value|;
            && |b| == k + v + |MetaBytes(r.meta)|
            && b[0..k] == r.key && b[k..k + v] == r.value && b[k + v..|b|] == MetaBytes(r.meta)
  {
  }

  lemma FlagsAreZero(r: Record)
    requires Encodable(r)
    ensures Encoded(r)[3] == 0
  {
    assert Checked(r)[1] == 0;
    assert Encoded(r)[3] == (MAGIC + Checked(r))[3];
  }

  lemma FourParts(a: bytes, b: bytes, c: bytes, d: bytes)
    ensures var s, i, j := a + b + c + d, |a| + |b|, |a| + |b| + |c|;
            s[..|a|] == a && s[|a|..i] == b && s[i..j] == c && s[j..j + |d|] == d
  {
  }

  lemma SizesLayout(r: Record, e: bytes)
    requires Encodable(r) && |e| >= 22 && e[4..22] == Sizes(r)
    ensures |r.key| == Number2(e[4], e[5])
    ensures |r.value| == Number4(e[6], e[7], e[8], e[9])
    ensures |MetaBytes(r.meta)| == Number4(e[10], e[11], e[12], e[13])
    ensures FromLE(e[14..22]) == if r.expireAt < 0 then r.expireAt + 0x1_0000_0000_0000_0000 else r.expireAt
  {
    hide LE, FromLE;
    PowerValues();
    var h := e[4..22];
    FourParts(LE(|r.key|, 2), LE(|r.value|, 4), LE(|MetaBytes(r.meta)|, 4), LE(ToPattern64(r.expireAt), 8));
    assert h[..2] == LE(|r.key|, 2) && h[2..6] == LE(|r.value|, 4);
    assert h[6..10] == LE(|MetaBytes(r.meta)|, 4) && h[10..18] == LE(ToPattern64(r.expireAt), 8);
    SliceOfSlice(e, 4, 22, 0, 2);
    SliceOfSlice(e, 4, 22, 2, 6);
    SliceOfSlice(e, 4, 22, 6, 10);
    SliceOfSlice(e, 4, 22, 10, 18);
    assert h[0..2] == h[..2];
    FromLEOfLE(|r.key|, 2);
    FromLEOfLE(|r.value|, 4);
    FromLEOfLE(|MetaBytes(r.meta)|, 4);
    FromLEOfLE(ToPattern64(r.expireAt), 8);
    TwoBytes(e[4..6]);
    FourBytes(e[6..10]);
    FourBytes(e[10..14]);
  }
}
