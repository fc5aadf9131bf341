/** UTF-8 as the file layer checks and decodes it (kaos local.ts and internal.ts). */
module Utf8 {
  import opened Bytes

  /** A Unicode scalar value. */
  type Scalar = x: int | 0 <= x < 0xD800 || 0xE000 <= x < 0x11_0000

  // ---- Section 4 of RFC 3629 ---------------------------------------------------------------------

  predicate IsTail(b: byte) { 0x80 <= b <= 0xBF }

  /** The length of the character at the front, zero if there is none. */
  function CharLen(s: bytes): (n: nat)
    ensures n <= |s| && n <= 4
  {
    if s == [] then 0
    else if s[0] <= 0x7F then 1
    else if |s| >= 2 && 0xC2 <= s[0] <= 0xDF && IsTail(s[1]) then 2
    else if |s| >= 3 && IsTail(s[2])
            && (|| (s[0] == 0xE0 && 0xA0 <= s[1] <= 0xBF)
                || (0xE1 <= s[0] <= 0xEC && IsTail(s[1]))
                || (s[0] == 0xED && 0x80 <= s[1] <= 0x9F)
                || (0xEE <= s[0] <= 0xEF && IsTail(s[1]))) then 3
    else if |s| >= 4 && IsTail(s[2]) && IsTail(s[3])
            && (|| (s[0] == 0xF0 && 0x90 <= s[1] <= 0xBF)
                || (0xF1 <= s[0] <= 0xF3 && IsTail(s[1]))
                || (s[0] == 0xF4 && 0x80 <= s[1] <= 0x8F)) then 4
    else 0
  }

  predicate IsUtf8(s: bytes) { s == [] || (CharLen(s) > 0 && IsUtf8(s[CharLen(s)..])) }

  // ---- The incremental validator -----------------------------------------------------------------

  /** Continuation bytes still needed, and the bounds of the next one. */
  datatype State = State(needed: nat, lower: byte, upper: byte)

  const Ready := State(0, 0x80, 0xBF)

  function Step(st: State, b: byte): Option<State> {
    if st.needed == 0 then
      if b <= 0x7F then Some(st)
      else if 0xC2 <= b <= 0xDF then Some(st.(needed := 1))
      else if b == 0xE0 then Some(st.(needed := 2, lower := 0xA0))
      else if 0xE1 <= b <= 0xEC then Some(st.(needed := 2))
      else if b == 0xED then Some(st.(needed := 2, upper := 0x9F))
      else if 0xEE <= b <= 0xEF then Some(st.(needed := 2))
      else if b == 0xF0 then Some(st.(needed := 3, lower := 0x90))
      else if 0xF1 <= b <= 0xF3 then Some(st.(needed := 3))
      else if b == 0xF4 then Some(st.(needed := 3, upper := 0x8F))
      else None
    else if b < st.lower || b > st.upper then None
    else Some(State(st.needed - 1, 0x80, 0xBF))
  }

  function Written(st: State, s: bytes): Option<State>
    decreases s
  {
    if s == [] then Some(st)
    else match Step(st, s[0]) case None => None case Some(next) => Written(next, s[1..])
  }

  class Validator {
    var needed: nat
    var lower: byte
    var upper: byte

    ghost function Now(): State
      reads this
    {
      State(needed, lower, upper)
    }

    constructor ()
      ensures Now() == Ready
    {
      needed, lower, upper := 0, 0x80, 0xBF;
    }

    /** Not ok: the source throws, and the validator is not used again. */
    method Write(chunk: bytes) returns (ok: bool)
      modifies this
      ensures ok <==> Written(old(Now()), chunk).Some?
      ensures ok ==> Some(Now()) == Written(old(Now()), chunk)
    {
      assert chunk[0..] == chunk;
      for i := 0 to |chunk|
        invariant Written(old(Now()), chunk) == Written(Now(), chunk[i..])
      {
        var b := chunk[i];
        assert chunk[i..][1..] == chunk[i + 1..];
        if needed == 0 {
          if b <= 0x7F { continue; }
          if b >= 0xC2 && b <= 0xDF {
            needed := 1;
          } else if b == 0xE0 {
            needed, lower := 2, 0xA0;
          } else if b >= 0xE1 && b <= 0xEC {
            needed := 2;
          } else if b == 0xED {
            needed, upper := 2, 0x9F;
          } else if b >= 0xEE && b <= 0xEF {
            needed := 2;
          } else if b == 0xF0 {
            needed, lower := 3, 0x90;
          } else if b >= 0xF1 && b <= 0xF3 {
            needed := 3;
          } else if b == 0xF4 {
            needed, upper := 3, 0x8F;
          } else {
            return false;
          }
        } else {
          if b < lower || b > upper { return false; }
          needed, lower, upper := needed - 1, 0x80, 0xBF;
        }
      }
      ok := true;
    }

    method End() returns (ok: bool)
      ensures ok <==> Now().needed == 0
    {
      ok := needed == 0;
    }
  }

  /** The whole of a file, in whatever chunks it comes. */
  method Validate(chunks: seq<bytes>) returns (ok: bool)
    ensures ok <==> IsUtf8(Flat(chunks))
  {
    hide Written, IsUtf8, Flat;
    var v := new Validator();
    ValidIffAccepted(Flat(chunks));
    NothingWritten(Ready);
    assert chunks[..0] == [];
    for i := 0 to |chunks|
      invariant Written(Ready, Flat(chunks[..i])) == Some(v.Now())
    {
      assert chunks[..i + 1] == chunks[..i] + [chunks[i]];
      FlatOne(chunks[..i], chunks[i]);
      WrittenAppend(Ready, Flat(chunks[..i]), chunks[i]);
      ok := v.Write(chunks[i]);
      if !ok {
        assert chunks == chunks[..i + 1] + chunks[i + 1..];
        FlatAppend(chunks[..i + 1], chunks[i + 1..]);
        WrittenAppend(Ready, Flat(chunks[..i + 1]), Flat(chunks[i + 1..]));
        return false;
      }
    }
    assert chunks[..|chunks|] == chunks;
    ok := v.End();
  }

  lemma FlatOne(parts: seq<bytes>, part: bytes)
    ensures Flat(parts + [part]) == Flat(parts) + part
  {
    FlatAppend(parts, [part]);
    assert [part][1..] == [] && Flat([part]) == part + [];
  }

  lemma NothingWritten(st: State)
    ensures Written(st, Flat([])) == Some(st)
  {
  }

  lemma {:induction false} WrittenAppend(st: State, a: bytes, b: bytes)
    ensures Written(st, a + b) == match Written(st, a) case None => None case Some(t) => Written(t, b)
    decreases a
  {
    hide Step;
    if a == [] {
      assert a + b == b;
    } else {
      assert (a + b)[1..] == a[1..] + b && (a + b)[0] == a[0];
      if Step(st, a[0]).Some? { WrittenAppend(Step(st, a[0]).value, a[1..], b); }
    }
  }

  predicate Accepted(st: State, s: bytes) { Written(st, s).Some? && Written(st, s).value.needed == 0 }

  lemma AcceptedStep(st: State, s: bytes)
    requires s != []
    ensures Accepted(st, s) <==> Step(st, s[0]).Some? && Accepted(Step(st, s[0]).value, s[1..])
  {
    hide Step;
  }

  /** In the middle of a character only its continuation bytes are accepted. */
  lemma {:induction false} TailsAccepted(st: State, s: bytes)
    requires st.needed > 0
    ensures Accepted(st, s) <==>
      && |s| >= st.needed && st.lower <= s[0] <= st.upper
      && (forall i :: 1 <= i < st.needed ==> IsTail(s[i]))
      && Accepted(Ready, s[st.needed..])
    decreases st.needed
  {
    hide Written;
    if s == [] {
      NothingAccepted(st);
    } else {
      AcceptedStep(st, s);
      if st.lower <= s[0] <= st.upper {
        var next := State(st.needed - 1, 0x80, 0xBF);
        if st.needed > 1 {
          TailsAccepted(next, s[1..]);
          if |s| >= st.needed {
            assert s[1..][next.needed..] == s[st.needed..];
            assert forall i :: 0 <= i < next.needed ==> s[1..][i] == s[i + 1];
            assert (forall i :: 1 <= i < st.needed ==> IsTail(s[i])) <==>
              (forall i :: 0 <= i < next.needed ==> IsTail(s[1..][i])) by {
              if forall i :: 0 <= i < next.needed ==> IsTail(s[1..][i]) {
                forall i | 1 <= i < st.needed ensures IsTail(s[i]) { assert s[i] == s[1..][i - 1]; }
              }
            }
          }
        }
      }
    }
  }

  lemma NothingAccepted(st: State)
    ensures Accepted(st, []) <==> st.needed == 0
  {
  }

  /** The validator accepts exactly the byte strings of the grammar. */
  lemma {:induction false} ValidIffAccepted(s: bytes)
    ensures Accepted(Ready, s) <==> IsUtf8(s)
    decreases |s|
  {
    hide Written;
    NothingAccepted(Ready);
    if s != [] {
      AcceptedStep(Ready, s);
      var next := Step(Ready, s[0]);
      if next.Some? && next.value.needed > 0 { TailsAccepted(next.value, s[1..]); }
      CharOfStep(s);
      if CharLen(s) > 0 { ValidIffAccepted(s[CharLen(s)..]); }
    }
  }

  /** A first byte announces as many continuation bytes as the grammar wants. */
  lemma CharOfStep(s: bytes)
    requires s != []
    ensures s[0] <= 0x7F ==> CharLen(s) == 1 && Step(Ready, s[0]) == Some(Ready)
    ensures s[0] > 0x7F && Step(Ready, s[0]).None? ==> CharLen(s) == 0
    ensures s[0] > 0x7F && Step(Ready, s[0]).Some? ==>
      var st := Step(Ready, s[0]).value;
      && 1 <= st.needed <= 3
      && (CharLen(s) > 0 <==>
            |s| > st.needed && st.lower <= s[1] <= st.upper && forall i :: 1 <= i < st.needed ==> IsTail(s[1..][i]))
      && (CharLen(s) > 0 ==> CharLen(s) == 1 + st.needed && s[1..][st.needed..] == s[CharLen(s)..])
  {
    if s[0] > 0x7F && Step(Ready, s[0]).Some? {
      var st := Step(Ready, s[0]).value;
      if |s| > st.needed {
        if st.needed >= 2 { assert s[1..][1] == s[2]; }
        if st.needed >= 3 { assert s[1..][2] == s[3]; }
      }
    }
  }

  // ---- Decoding ----------------------------------------------------------------------------------

  // The bit fields of a character: `& 0x1f` is `% 32`, and joining disjoint fields is adding them.

  function Two(b0: int, b1: int): int { b0 % 32 * 64 + b1 % 64 }
  function Three(b0: int, b1: int, b2: int): int { b0 % 16 * 4096 + b1 % 64 * 64 + b2 % 64 }
  function Four(b0: int, b1: int, b2: int, b3: int): int { b0 % 8 * 262144 + b1 % 64 * 4096 + b2 % 64 * 64 + b3 % 64 }

  lemma FieldsOf(b0: byte, b1: byte, b2: byte, b3: byte)
    requires IsTail(b1) && IsTail(b2) && IsTail(b3)
    ensures 0xC0 <= b0 <= 0xDF ==> Two(b0, b1) == (b0 - 0xC0) * 64 + (b1 - 0x80)
    ensures 0xE0 <= b0 <= 0xEF ==> Three(b0, b1, b2) == (b0 - 0xE0) * 4096 + (b1 - 0x80) * 64 + (b2 - 0x80)
    ensures 0xF0 <= b0 <= 0xF7 ==>
      Four(b0, b1, b2, b3) == (b0 - 0xF0) * 262144 + (b1 - 0x80) * 4096 + (b2 - 0x80) * 64 + (b3 - 0x80)
  {
    assert b1 % 64 == b1 - 0x80 && b2 % 64 == b2 - 0x80 && b3 % 64 == b3 - 0x80;
    if 0xC0 <= b0 <= 0xDF { assert b0 % 32 == b0 - 0xC0; }
    if 0xE0 <= b0 <= 0xEF { assert b0 % 16 == b0 - 0xE0; }
    if 0xF0 <= b0 <= 0xF7 { assert b0 % 8 == b0 - 0xF0; }
  }

  /** The scalar value at the front. */
  function CharAt(s: bytes): (c: Scalar)
    requires CharLen(s) > 0
  {
    var n := CharLen(s);
    if n == 1 then s[0]
    else if n == 2 then FieldsOf(s[0], s[1], 0x80, 0x80); Two(s[0], s[1])
    else if n == 3 then FieldsOf(s[0], s[1], s[2], 0x80); Three(s[0], s[1], s[2])
    else FieldsOf(s[0], s[1], s[2], s[3]); Four(s[0], s[1], s[2], s[3])
  }

  /** Bytes that start no character are skipped one by one. */
  function Decoded(s: bytes): seq<Scalar> {
    if s == [] then []
    else if CharLen(s) > 0 then [CharAt(s)] + Decoded(s[CharLen(s)..])
    else Decoded(s[1..])
  }

  /** decodeUtf8Ignore. */
  method DecodeUtf8Ignore(data: bytes) returns (output: seq<Scalar>)
    ensures output == Decoded(data)
  {
    hide Decoded;
    output := [];
    var i := 0;
    assert data[0..] == data;
    while i < |data|
      invariant 0 <= i <= |data| && Decoded(data) == output + Decoded(data[i..])
    {
      ghost var rest := data[i..];
      DecodedStep(rest);
      var b0 := data[i];
      if b0 <= 0x7F {
        output, i := Push(data, output, i, 1, b0);
        continue;
      }
      if b0 >= 0xC2 && b0 <= 0xDF {
        if i + 1 < |data| && IsTail(data[i + 1]) {
          output, i := Push(data, output, i, 2, Two(b0, data[i + 1]));
          continue;
        }
        assert CharLen(rest) == 0 && rest[1..] == data[i + 1..];
        i := i + 1;
        continue;
      }
      if b0 >= 0xE0 && b0 <= 0xEF {
        var validSecond := i + 1 < |data| &&
          (|| (b0 == 0xE0 && data[i + 1] >= 0xA0 && data[i + 1] <= 0xBF)
           || (b0 >= 0xE1 && b0 <= 0xEC && IsTail(data[i + 1]))
           || (b0 == 0xED && data[i + 1] >= 0x80 && data[i + 1] <= 0x9F)
           || (b0 >= 0xEE && b0 <= 0xEF && IsTail(data[i + 1])));
        if validSecond && i + 2 < |data| && IsTail(data[i + 2]) {
          output, i := Push(data, output, i, 3, Three(b0, data[i + 1], data[i + 2]));
          continue;
        }
        assert CharLen(rest) == 0 && rest[1..] == data[i + 1..];
        i := i + 1;
        continue;
      }
      if b0 >= 0xF0 && b0 <= 0xF4 {
        var validSecond := i + 1 < |data| &&
          (|| (b0 == 0xF0 && data[i + 1] >= 0x90 && data[i + 1] <= 0xBF)
           || (b0 >= 0xF1 && b0 <= 0xF3 && IsTail(data[i + 1]))
           || (b0 == 0xF4 && data[i + 1] >= 0x80 && data[i + 1] <= 0x8F));
        if validSecond && i + 3 < |data| && IsTail(data[i + 2]) && IsTail(data[i + 3]) {
          output, i := Push(data, output, i, 4, Four(b0, data[i + 1], data[i + 2], data[i + 3]));
          continue;
        }
        assert CharLen(rest) == 0 && rest[1..] == data[i + 1..];
        i := i + 1;
        continue;
      }
      assert CharLen(rest) == 0 && rest[1..] == data[i + 1..];
      i := i + 1;
    }
    assert data[i..] == [];
    NothingDecoded();
    assert output + [] == output;
  }

  lemma DecodedStep(s: bytes)
    requires s != []
    ensures Decoded(s) == if CharLen(s) > 0 then [CharAt(s)] + Decoded(s[CharLen(s)..]) else Decoded(s[1..])
  {
    hide CharLen, CharAt;
  }

  lemma NothingDecoded()
    ensures Decoded([]) == []
  {
  }

  /** `output += String.fromCodePoint(c); i += n`. */
  method Push(data: bytes, output: seq<Scalar>, i: nat, n: nat, c: int) returns (more: seq<Scalar>, next: nat)
    requires i < |data| && n == CharLen(data[i..]) > 0 && c == CharAt(data[i..])
    ensures more == output + [c] && next == i + n <= |data|
    ensures output + Decoded(data[i..]) == more + Decoded(data[next..])
  {
    hide CharLen, CharAt, Decoded;
    DecodedStep(data[i..]);
    more, next := output + [c], i + n;
    assert data[i..][n..] == data[next..];
    assert output + ([c] + Decoded(data[next..])) == (output + [c]) + Decoded(data[next..]);
  }

  // ---- Encoding ----------------------------------------------------------------------------------

  /** Section 3 of RFC 3629. */
  function Encoded(c: Scalar): bytes {
    if c <= 0x7F then [c]
    else if c <= 0x7FF then [0xC0 + c / 64, 0x80 + c % 64]
    else if c <= 0xFFFF then [0xE0 + c / 4096, 0x80 + c / 64 % 64, 0x80 + c % 64]
    else [0xF0 + c / 262144, 0x80 + c / 4096 % 64, 0x80 + c / 64 % 64, 0x80 + c % 64]
  }

  function EncodedAll(cs: seq<Scalar>): bytes { if cs == [] then [] else Encoded(cs[0]) + EncodedAll(cs[1..]) }

  lemma Digits(c: nat, q: nat, r: nat)
    requires c == 64 * q + r && r < 64
    ensures c / 64 == q && c % 64 == r
  {
  }

  /** The base-64 digits of a number. */
  lemma Digits4(d3: nat, d2: nat, d1: nat, d0: nat, c: nat)
    requires d2 < 64 && d1 < 64 && d0 < 64 && c == d3 * 262144 + d2 * 4096 + d1 * 64 + d0
    ensures c / 262144 == d3 && c / 4096 % 64 == d2 && c / 64 % 64 == d1 && c % 64 == d0 && c / 4096 == 64 * d3 + d2
      && c / 64 == 4096 * d3 + 64 * d2 + d1
  {
    Digits(c, 4096 * d3 + 64 * d2 + d1, d0);
    Digits(4096 * d3 + 64 * d2 + d1, 64 * d3 + d2, d1);
    Digits(64 * d3 + d2, d3, d2);
  }

  lemma DigitsOf(c: nat) returns (d3: nat, d2: nat, d1: nat, d0: nat)
    ensures d2 < 64 && d1 < 64 && d0 < 64 && c == d3 * 262144 + d2 * 4096 + d1 * 64 + d0
  {
    var high := c / 64;
    d0 := c % 64;
    var higher := high / 64;
    d1 := high % 64;
    d3, d2 := higher / 64, higher % 64;
  }

  /** A character is read back from its encoding, whatever follows. */
  lemma EncodedReadsBack(c: Scalar, rest: bytes)
    ensures CharLen(Encoded(c) + rest) == |Encoded(c)| > 0 && CharAt(Encoded(c) + rest) == c
  {
    hide Two, Three, Four;
    var d3, d2, d1, d0 := DigitsOf(c);
    Digits4(d3, d2, d1, d0, c);
    if c > 0xFFFF {
      FieldsOf(0xF0 + d3, 0x80 + d2, 0x80 + d1, 0x80 + d0);
      assert Encoded(c) == [0xF0 + d3, 0x80 + d2, 0x80 + d1, 0x80 + d0];
    } else if c > 0x7FF {
      FieldsOf(0xE0 + d2, 0x80 + d1, 0x80 + d0, 0x80);
      assert Encoded(c) == [0xE0 + d2, 0x80 + d1, 0x80 + d0];
    } else if c > 0x7F {
      FieldsOf(0xC0 + 64 * d2 + d1, 0x80 + d0, 0x80, 0x80);
      assert Encoded(c) == [0xC0 + 64 * d2 + d1, 0x80 + d0];
    }
  }

  /** And a character in a byte string is the encoding of what is read. */
  lemma CharIsEncoded(s: bytes)
    requires CharLen(s) > 0
    ensures Encoded(CharAt(s)) == s[..CharLen(s)]
  {
    hide Two, Three, Four;
    var n, c := CharLen(s), CharAt(s);
    if n == 2 {
      FieldsOf(s[0], s[1], 0x80, 0x80);
      Digits(c, s[0] - 0xC0, s[1] - 0x80);
    } else if n == 3 {
      FieldsOf(s[0], s[1], s[2], 0x80);
      Digits4(0, s[0] - 0xE0, s[1] - 0x80, s[2] - 0x80, c);
    } else if n == 4 {
      FieldsOf(s[0], s[1], s[2], s[3]);
      Digits4(s[0] - 0xF0, s[1] - 0x80, s[2] - 0x80, s[3] - 0x80, c);
    }
  }

  /** Decoding undoes encoding, for every sequence of scalar values ... */
  lemma {:induction false} DecodeUndoesEncode(cs: seq<Scalar>)
    ensures Decoded(EncodedAll(cs)) == cs && IsUtf8(EncodedAll(cs))
  {
    hide CharLen, CharAt, Encoded;
    if cs != [] {
      var rest := EncodedAll(cs[1..]);
      EncodedReadsBack(cs[0], rest);
      DecodeUndoesEncode(cs[1..]);
      assert (Encoded(cs[0]) + rest)[|Encoded(cs[0])|..] == rest;
      assert cs == [cs[0]] + cs[1..];
    }
  }

  /** ... encoding undoes decoding for exactly the valid byte strings ... */
  lemma {:induction false} EncodeUndoesDecodeIff(s: bytes)
    ensures EncodedAll(Decoded(s)) == s <==> IsUtf8(s)
    ensures |EncodedAll(Decoded(s))| <= |s|
    decreases |s|
  {
    hide CharLen, CharAt, Encoded;
    if s != [] {
      var n := CharLen(s);
      if n > 0 {
        CharIsEncoded(s);
        EncodeUndoesDecodeIff(s[n..]);
        var c, rest := CharAt(s), Decoded(s[n..]);
        assert ([c] + rest)[1..] == rest && ([c] + rest)[0] == c;
        assert s == s[..n] + s[n..];
        if EncodedAll(Decoded(s)) == s { assert EncodedAll(rest) == EncodedAll(Decoded(s))[n..] == s[n..]; }
      } else {
        EncodeUndoesDecodeIff(s[1..]);
      }
    }
  }

  /** ... and what is valid in front is decoded as if nothing followed. */
  lemma {:induction false} DecodedAppend(a: bytes, b: bytes)
    requires IsUtf8(a)
    ensures Decoded(a + b) == Decoded(a) + Decoded(b)
    decreases |a|
  {
    hide CharAt, CharLen, Decoded;
    NothingDecoded();
    if a == [] {
      assert a + b == b && [] + Decoded(b) == Decoded(b);
    } else {
      var n := CharLen(a);
      CharOfLonger(a, b);
      DecodedStep(a);
      DecodedStep(a + b);
      assert (a + b)[n..] == a[n..] + b;
      DecodedAppend(a[n..], b);
      Regroup([CharAt(a)], Decoded(a[n..]), Decoded(b));
    }
  }

  /** A byte that starts no character is dropped, and nothing else is: decoding goes on right behind it. */
  lemma BadByteIsDropped(a: bytes, b: bytes)
    requires IsUtf8(a) && b != [] && forall n :: 0 < n <= |b| ==> !IsUtf8(b[..n])
    ensures Decoded(a + b) == Decoded(a) + Decoded(b[1..])
  {
    hide CharAt;
    DecodedAppend(a, b);
    var n := CharLen(b);
    if n > 0 {
      CharOfFront(b);
      assert IsUtf8(b[..n]);
    }
  }

  lemma CharOfFront(s: bytes)
    requires CharLen(s) > 0
    ensures CharLen(s[..CharLen(s)]) == CharLen(s) && IsUtf8(s[..CharLen(s)])
  {
    hide CharAt;
    var front := s[..CharLen(s)];
    assert CharLen(front) == |front|;
    assert front[|front|..] == [];
  }

  lemma Regroup<T>(a: seq<T>, b: seq<T>, c: seq<T>)
    ensures a + (b + c) == (a + b) + c
  {
  }

  lemma CharOfLonger(a: bytes, b: bytes)
    requires CharLen(a) > 0
    ensures CharLen(a + b) == CharLen(a) && CharAt(a + b) == CharAt(a)
  {
  }
}
