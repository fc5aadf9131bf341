/** How the bytes of a log relate to its frames: offsets, whole frames, torn tails. */
module LogFacts {
  import opened Bytes
  import opened Framing
  import opened Codec
  import opened BatchCodec
  import opened Replay
  import opened Commands
  import opened Durability

  /** A frame a writer can have made: it encodes, reads back unchanged, and sets entries that can be
      written out again. */
  predicate FrameOk(r: Record) { Encodable(r) && Normal(r) == r && OpsFit(FrameOps(r)) }

  /** Every command makes such a frame, and its values lie where their pointers are predicted. */
  lemma CommandIsGood(cmd: Cmd)
    requires Writable(cmd)
    ensures FrameOk(FrameOf(cmd))
    ensures ValuesAt(Enc(FrameOf(cmd)), CmdOps(cmd), ValueOffs(cmd))
  {
    FrameIsEncodable(cmd);
    FrameMeansOps(cmd);
    PreparedOpsFit(CmdOps(cmd));
    FrameHoldsValues(cmd);
  }

  predicate FramesOk(rs: seq<Record>)
    decreases rs
  {
    rs == [] || (FrameOk(rs[0]) && FramesOk(rs[1..]))
  }

  lemma {:induction false} FramesOkAppend(a: seq<Record>, b: seq<Record>)
    ensures FramesOk(a + b) <==> FramesOk(a) && FramesOk(b)
    decreases a
  {
    if a == [] {
      assert a + b == b;
    } else {
      assert (a + b)[1..] == a[1..] + b;
      FramesOkAppend(a[1..], b);
    }
  }

  lemma FramesOkOneMore(rs: seq<Record>, r: Record)
    requires FramesOk(rs) && FrameOk(r)
    ensures FramesOk(rs + [r])
  {
    FramesOkAppend(rs, [r]);
    assert [r][1..] == [];
  }

  lemma FramesOkSlice(rs: seq<Record>, i: nat, j: nat)
    requires FramesOk(rs) && i <= j <= |rs|
    ensures FramesOk(rs[i..j])
  {
    hide FramesOk;
    FramesOkAppend(rs[..i], rs[i..j]);
    FramesOkAppend(rs[..i] + rs[i..j], rs[j..]);
    assert rs[..i] + rs[i..j] + rs[j..] == rs;
  }

  /** Good frames are read back as they were written. */
  lemma {:induction false} NormalFrames(rs: seq<Record>)
    requires FramesOk(rs)
    ensures NormalAll(RecordFormat(), rs) == rs
  {
    if rs != [] { NormalFrames(rs[1..]); }
  }

  lemma {:induction false} GoodFrames(rs: seq<Record>)
    requires FramesOk(rs)
    ensures AllEncodable(rs) && AllOk(RecordFormat(), rs)
  {
    if rs != [] {
      GoodFrames(rs[1..]);
      forall i | 0 <= i < |rs| ensures Encodable(rs[i]) { if i > 0 { assert Encodable(rs[1..][i - 1]); } }
    }
  }

  lemma {:induction false} GoodFramesFit(rs: seq<Record>)
    requires FramesOk(rs)
    ensures OpsFit(OpsOfFrames(rs))
  {
    if rs != [] {
      GoodFramesFit(rs[1..]);
      OpsFitAppend(FrameOps(rs[0]), OpsOfFrames(rs[1..]));
    }
  }

  lemma Split(rs: seq<Record>, start: nat, i: nat)
    requires start <= i <= |rs|
    ensures rs[start..] == rs[start..i] + rs[i..]
  {
  }

  /** The log from `start` is the bytes up to frame `i`, then the log from `i`. */
  lemma LogSplitAt(hist: seq<Record>, start: nat, i: nat)
    requires start <= i <= |hist|
    ensures EncAll(hist[start..]) == EncAll(hist[start..i]) + EncAll(hist[i..])
  {
    Split(hist, start, i);
    EncAllAppend(hist[start..i], hist[i..]);
  }

  /** Appending a frame leaves the bytes in front of it. */
  lemma LogGrows(hist: seq<Record>, start: nat, r: Record)
    requires start <= |hist|
    ensures EncAll((hist + [r])[start..]) == EncAll(hist[start..]) + Enc(r)
    ensures OffsetOf(hist + [r], start, |hist|) == |EncAll(hist[start..])|
    ensures OffsetOf(hist + [r], start, |hist| + 1) == |EncAll(hist[start..])| + |Enc(r)|
  {
    assert (hist + [r])[start..] == hist[start..] + [r];
    assert (hist + [r])[start..|hist|] == hist[start..];
    assert (hist + [r])[start..|hist| + 1] == hist[start..] + [r];
    EncAllAppend(hist[start..], [r]);
    assert [r][1..] == [];
    assert Enc(r) + [] == Enc(r);
  }

  lemma OffsetStable(hist: seq<Record>, more: seq<Record>, start: nat, i: nat)
    requires start <= i <= |hist|
    ensures OffsetOf(hist + more, start, i) == OffsetOf(hist, start, i)
  {
    assert (hist + more)[start..i] == hist[start..i];
  }

  lemma OffsetEnds(hist: seq<Record>, start: nat)
    requires start <= |hist|
    ensures OffsetOf(hist, start, |hist|) == |EncAll(hist[start..])|
    ensures OffsetOf(hist, start, start) == 0
  {
    assert hist[start..|hist|] == hist[start..];
    assert hist[start..start] == [];
  }

  /** Offsets grow by whole parts: from `start` to `j` is from `start` to `i`, then from `i` to `j`. */
  lemma OffsetSum(hist: seq<Record>, start: nat, i: nat, j: nat)
    requires start <= i <= j <= |hist|
    ensures OffsetOf(hist, start, j) == OffsetOf(hist, start, i) + OffsetOf(hist, i, j)
  {
    assert hist[start..j] == hist[start..i] + hist[i..j];
    EncAllAppend(hist[start..i], hist[i..j]);
  }

  lemma OffsetBound(hist: seq<Record>, start: nat, i: nat)
    requires start <= i <= |hist|
    ensures OffsetOf(hist, start, i) <= |EncAll(hist[start..])|
  {
    OffsetSum(hist, start, i, |hist|);
    OffsetEnds(hist, start);
  }

  // ---- Whole frames ------------------------------------------------------------------------

  /** The first `n` bytes of a log are its whole frames and the front of the next one. */
  lemma {:induction false} WholeThenTorn(rs: seq<Record>, n: nat) returns (torn: bytes)
    requires n <= |EncAll(rs)| && AllEncodable(rs)
    ensures EncAll(rs)[..n] == EncAll(rs[..Whole(rs, n)]) + torn
    ensures torn == [] || Torn(RecordFormat(), torn)
    ensures |EncAll(rs[..Whole(rs, n)])| <= n
    ensures torn != [] ==> var w := Whole(rs, n); w < |rs| && |torn| < |Enc(rs[w])| && torn == Enc(rs[w])[..|torn|]
    decreases rs
  {
    hide Enc, Torn, RecordFormat;
    if rs == [] {
      torn := [];
    } else if n < |Enc(rs[0])| {
      torn := Enc(rs[0])[..n];
      TornFront(rs[0], n);
      FrontOfSum(Enc(rs[0]), EncAll(rs[1..]), n);
      assert rs[..0] == [];
    } else {
      torn := WholeThenTorn(rs[1..], n - |Enc(rs[0])|);
      var w := Whole(rs[1..], n - |Enc(rs[0])|);
      FrontOfSum(Enc(rs[0]), EncAll(rs[1..]), n);
      assert rs[..w + 1][1..] == rs[1..][..w];
      Regroup([], Enc(rs[0]), EncAll(rs[1..][..w]), torn);
      assert [] + (Enc(rs[0]) + EncAll(rs[1..][..w])) == Enc(rs[0]) + EncAll(rs[1..][..w]);
      assert [] + Enc(rs[0]) == Enc(rs[0]);
    }
  }

  lemma FrontOfSum(a: bytes, b: bytes, n: nat)
    requires n <= |a| + |b|
    ensures (a + b)[..n] == if n <= |a| then a[..n] else a + b[..n - |a|]
  {
  }

  lemma TornFront(r: Record, n: nat)
    requires Encodable(r) && n < |Enc(r)|
    ensures Torn(RecordFormat(), Enc(r)[..n])
  {
    var f := RecordFormat();
    assert f.ok(r) && f.enc(r) == Enc(r) && n < |f.enc(r)|;
  }

  lemma {:induction false} WholeOfAll(rs: seq<Record>)
    ensures Whole(rs, |EncAll(rs)|) == |rs|
    decreases rs
  {
    if rs != [] { WholeOfAll(rs[1..]); }
  }

  lemma {:induction false} WholeMonotone(rs: seq<Record>, n: nat, m: nat)
    requires n <= m
    ensures Whole(rs, n) <= Whole(rs, m)
    decreases rs
  {
    if rs != [] && n >= |Enc(rs[0])| { WholeMonotone(rs[1..], n - |Enc(rs[0])|, m - |Enc(rs[0])|); }
  }

  /** Frames appended behind the landed bytes do not change what is whole. */
  lemma {:induction false} WholeOfLonger(rs: seq<Record>, r: Record, n: nat)
    requires n <= |EncAll(rs)| && Encodable(r)
    ensures Whole(rs + [r], n) == Whole(rs, n)
    decreases rs
  {
    hide Enc;
    if rs == [] {
      assert rs + [r] == [r];
      EncIsNotEmpty(r);
    } else {
      assert (rs + [r])[1..] == rs[1..] + [r];
      if n >= |Enc(rs[0])| { WholeOfLonger(rs[1..], r, n - |Enc(rs[0])|); }
    }
  }

  lemma EncIsNotEmpty(r: Record)
    requires Encodable(r)
    ensures Enc(r) != []
  {
    hide Encoded;
  }

  lemma {:induction false} WholeOfPrefix(rs: seq<Record>, i: nat, n: nat)
    requires i <= |rs| && n >= |EncAll(rs[..i])|
    ensures Whole(rs, n) >= i
    decreases rs
  {
    hide Enc;
    if i > 0 {
      assert rs[..i][1..] == rs[1..][..i - 1];
      WholeOfPrefix(rs[1..], i - 1, n - |Enc(rs[0])|);
    }
  }

  // ---- Reading -----------------------------------------------------------------------------

  lemma HoldsLonger(a: bytes, b: bytes, value: bytes, off: nat)
    requires HoldsAt(a, value, off)
    ensures HoldsAt(a + b, value, off)
  {
    ReadAtLonger(a, b, off, |value|);
  }

  lemma HoldsShorter(b: bytes, n: nat, value: bytes, off: nat)
    requires HoldsAt(b, value, off) && off + |value| < n <= |b|
    ensures HoldsAt(b[..n], value, off)
  {
    assert b[..n][off..off + |value|] == b[off..off + |value|];
  }

  lemma HoldsBehind(a: bytes, b: bytes, value: bytes, off: nat)
    requires HoldsAt(b, value, off)
    ensures HoldsAt(a + b, value, |a| + off)
  {
    ReadAtBehind(a, b, off, |value|);
  }

  lemma HoldsInTail(a: bytes, b: bytes, value: bytes, off: nat)
    requires HoldsAt(a + b, value, off) && off >= |a|
    ensures HoldsAt(b, value, off - |a|)
  {
    ReadAtBehind(a, b, off - |a|, |value|);
  }
}
