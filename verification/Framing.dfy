/** Logs of self-delimiting frames: what a scan of an append-only file gives back. */
module Framing {
  import opened Bytes
  import opened Scanner

  datatype Item<+R> = Item(record: R, len: nat)

  /** How one kind of record is laid out: which records can be written, their bytes, what is at the
      front of a buffer, and what a record becomes when read back. */
  datatype Format<!R> = Format(ok: R -> bool, enc: R -> bytes, dec: bytes -> Option<Item<R>>, norm: R -> R)

  datatype Law = Shape | RoundTrip | Prefix

  /** Shape: a frame lies inside the buffer. RoundTrip: a written record reads back whatever follows
      it. Prefix: cutting a buffer loses exactly the frames that no longer fit. */
  ghost predicate Holds<R(!new)>(f: Format<R>, law: Law) {
    match law
    case Shape => forall s :: f.dec(s).Some? ==> 0 < f.dec(s).value.len <= |s|
    case RoundTrip => forall r, rest {:trigger f.dec(f.enc(r) + rest)} :: f.ok(r) ==>
      f.dec(f.enc(r) + rest) == Some(Item(f.norm(r), |f.enc(r)|))
    case Prefix => forall s: bytes, n: nat {:trigger f.dec(s[..n])} :: n <= |s| ==>
      f.dec(s[..n]) == if f.dec(s).Some? && f.dec(s).value.len <= n then f.dec(s) else None
  }

  /** The laws are used one at a time, by naming them. */
  ghost predicate Lawful<R(!new)>(f: Format<R>) { forall law :: Holds(f, law) }

  ghost predicate AllOk<R>(f: Format<R>, rs: seq<R>) { forall i :: 0 <= i < |rs| ==> f.ok(rs[i]) }

  function EncodeAll<R>(f: Format<R>, rs: seq<R>): bytes {
    if rs == [] then [] else f.enc(rs[0]) + EncodeAll(f, rs[1..])
  }

  function NormalAll<R>(f: Format<R>, rs: seq<R>): seq<R> {
    if rs == [] then [] else [f.norm(rs[0])] + NormalAll(f, rs[1..])
  }

  /** Where the frames of a log sit when its first byte is at `off`. */
  function Layout<R>(f: Format<R>, off: nat, rs: seq<R>): seq<(nat, nat)>
    decreases rs
  {
    if rs == [] then [] else
      var end := off + |f.enc(rs[0])|;
      [(off, end)] + Layout(f, end, rs[1..])
  }

  // ---- Scanning a buffer -------------------------------------------------------------------

  /** The length of the valid frame that starts at `p`, zero if there is none. */
  function FrameLen<R>(f: Format<R>, s: bytes, p: nat): nat
    requires p <= |s|
  {
    match f.dec(s[p..]) case None => 0 case Some(d) => d.len
  }

  function LenAt<R>(f: Format<R>, s: bytes): seq<nat> {
    seq(|s|, p requires 0 <= p < |s| => FrameLen(f, s, p))
  }

  function ScanFrames<R>(f: Format<R>, s: bytes, pos: nat, strict: bool): Scan { ScanFrom(LenAt(f, s), pos, strict) }

  /** The records a scan reports: each found range read back. */
  function RecordsAt<R>(f: Format<R>, s: bytes, found: seq<(nat, nat)>): seq<R> {
    if found == [] then []
    else
      var rest := RecordsAt(f, s, found[1..]);
      var at := found[0].0;
      if at <= |s| && f.dec(s[at..]).Some? then [f.dec(s[at..]).value.record] + rest else rest
  }

  /** Recovery's view of a file: the records from `pos` on. */
  function Records<R>(f: Format<R>, s: bytes, pos: nat, strict: bool): seq<R> {
    RecordsAt(f, s, ScanFrames(f, s, pos, strict).found)
  }

  lemma FrameLenFits<R(!new)>(f: Format<R>, s: bytes)
    requires Lawful(f)
    ensures Fits(LenAt(f, s))
  {
    assert Holds(f, Shape);
    forall p: nat | p < |s| && LenAt(f, s)[p] > 0 ensures p + LenAt(f, s)[p] <= |s| { assert f.dec(s[p..]).Some?; }
  }

  lemma FrameLenOfPrefix<R(!new)>(f: Format<R>, s: bytes, n: nat)
    requires Lawful(f) && n <= |s|
    ensures Truncated(LenAt(f, s), LenAt(f, s[..n]))
  {
    assert Holds(f, Prefix) && Holds(f, Shape);
    forall p: nat | p < n
      ensures LenAt(f, s[..n])[p] == if p + LenAt(f, s)[p] <= n then LenAt(f, s)[p] else 0
    {
      assert s[..n][p..] == s[p..][..n - p];
    }
  }

  /** For arbitrary bytes: frames and corrupt ranges tile the input, so lost bytes and frame bytes
      add up to its size, and no valid frame starts inside a corrupt range. */
  lemma ScanIsExact<R(!new)>(f: Format<R>, s: bytes, p: nat)
    requires Lawful(f) && p < |s|
    ensures var r := ScanFrames(f, s, 0, false);
            && Cover(r.found, p) + Cover(r.corrupt, p) == 1
            && Size(r.found) + Size(r.corrupt) == |s|
            && (Cover(r.corrupt, p) > 0 ==> f.dec(s[p..]).None?)
  {
    FrameLenFits(f, s);
    ScanTiles(LenAt(f, s), 0, false, p);
    var r := ScanFrames(f, s, 0, false);
    if Cover(r.corrupt, p) > 0 {
      var i := CoveringRange(r.corrupt, p);
      NoneInCorruptRange(LenAt(f, s), 0, i, p);
      assert LenAt(f, s)[p] == FrameLen(f, s, p) == 0;
      assert Holds(f, Shape);
    }
  }

  /** Truncating the bad tail that recovery found and scanning again gives the same frames. */
  lemma TruncateThenRescan<R(!new)>(f: Format<R>, s: bytes, strict: bool)
    requires Lawful(f)
    ensures var r := ScanFrames(f, s, 0, strict);
            r.eof <= |s| && ScanFrames(f, s[..r.eof], 0, strict) == WithoutBadTail(|s|, r)
  {
    FrameLenFits(f, s);
    EofIsBadTail(LenAt(f, s), 0, strict);
    FrameLenOfPrefix(f, s, ScanFrames(f, s, 0, strict).eof);
    RescanAfterTruncate(LenAt(f, s), 0, strict, LenAt(f, s[..ScanFrames(f, s, 0, strict).eof]));
  }

  // ---- Scanning a log ----------------------------------------------------------------------

  lemma FirstFrameOfLog<R(!new)>(f: Format<R>, pre: bytes, rs: seq<R>, tail: bytes)
    requires Lawful(f) && AllOk(f, rs) && rs != []
    ensures var s := pre + EncodeAll(f, rs) + tail;
            && s == (pre + f.enc(rs[0])) + EncodeAll(f, rs[1..]) + tail
            && f.dec(s[|pre|..]) == Some(Item(f.norm(rs[0]), |f.enc(rs[0])|))
            && |f.enc(rs[0])| > 0 && |pre| < |s| && LenAt(f, s)[|pre|] == |f.enc(rs[0])|
  {
    LogSplit(f, pre, rs, tail);
    assert Holds(f, RoundTrip) && Holds(f, Shape);
    var s := pre + EncodeAll(f, rs) + tail;
    var first := f.enc(rs[0]) + (EncodeAll(f, rs[1..]) + tail);
    assert f.dec(first) == Some(Item(f.norm(rs[0]), |f.enc(rs[0])|));
    assert LenAt(f, s)[|pre|] == FrameLen(f, s, |pre|);
  }

  lemma LogSplit<R>(f: Format<R>, pre: bytes, rs: seq<R>, tail: bytes)
    requires rs != []
    ensures var s := pre + EncodeAll(f, rs) + tail;
            && s == (pre + f.enc(rs[0])) + EncodeAll(f, rs[1..]) + tail
            && s[|pre|..] == f.enc(rs[0]) + (EncodeAll(f, rs[1..]) + tail)
  {
    Regroup(pre, f.enc(rs[0]), EncodeAll(f, rs[1..]), tail);
  }

  lemma Regroup(a: bytes, b: bytes, c: bytes, d: bytes)
    ensures a + (b + c) + d == (a + b) + c + d
    ensures (a + (b + c) + d)[|a|..] == b + (c + d)
  {
  }

  /** The frames of a log sit where they were written, one after the other. */
  lemma {:induction false} LogIsPlaced<R(!new)>(f: Format<R>, pre: bytes, rs: seq<R>, tail: bytes)
    requires Lawful(f) && AllOk(f, rs)
    ensures Placed(LenAt(f, pre + EncodeAll(f, rs) + tail), |pre|, Layout(f, |pre|, rs), |pre| + |EncodeAll(f, rs)|)
    decreases rs
  {
    if rs != [] {
      FirstFrameOfLog(f, pre, rs, tail);
      LogIsPlaced(f, pre + f.enc(rs[0]), rs[1..], tail);
    }
  }

  /** ... and reading there gives the records back. */
  lemma {:induction false} RecordsOfLog<R(!new)>(f: Format<R>, pre: bytes, rs: seq<R>, tail: bytes)
    requires Lawful(f) && AllOk(f, rs)
    ensures RecordsAt(f, pre + EncodeAll(f, rs) + tail, Layout(f, |pre|, rs)) == NormalAll(f, rs)
    decreases rs
  {
    if rs != [] {
      FirstFrameOfLog(f, pre, rs, tail);
      RecordsOfLog(f, pre + f.enc(rs[0]), rs[1..], tail);
    }
  }

  /** Bytes a crash can leave behind a log: the front of a frame whose end never landed. */
  ghost predicate Torn<R(!new)>(f: Format<R>, tail: bytes) {
    exists r: R, n: nat :: f.ok(r) && n < |f.enc(r)| && tail == f.enc(r)[..n]
  }

  lemma TornIsNoFrame<R(!new)>(f: Format<R>, tail: bytes)
    requires Lawful(f) && Torn(f, tail)
    ensures f.dec(tail).None?
  {
    var r: R, n: nat :| f.ok(r) && n < |f.enc(r)| && tail == f.enc(r)[..n];
    assert f.enc(r) + [] == f.enc(r);
    assert Holds(f, RoundTrip) && Holds(f, Prefix);
    assert f.dec(f.enc(r) + []) == Some(Item(f.norm(r), |f.enc(r)|));
  }

  lemma LensOfTail<R(!new)>(f: Format<R>, pre: bytes, tail: bytes)
    requires Lawful(f)
    ensures forall p: nat :: p < |tail| ==> (LenAt(f, pre + tail)[|pre| + p] == 0 <==> f.dec(tail[p..]).None?)
    ensures tail != [] ==> (LenAt(f, pre + tail)[|pre|] == 0 <==> f.dec(tail).None?)
  {
    var s := pre + tail;
    assert Holds(f, Shape);
    forall p: nat | p < |tail| ensures LenAt(f, s)[|pre| + p] == 0 <==> f.dec(tail[p..]).None? {
      assert s[|pre| + p..] == tail[p..];
    }
    assert tail[0..] == tail;
    if tail != [] { assert LenAt(f, s)[|pre| + 0] == 0 <==> f.dec(tail[0..]).None?; }
  }

  /** A strict scan of a log with a torn tail returns exactly the whole frames, and stops at the
      end of the last one. */
  lemma StrictScanOfLog<R(!new)>(f: Format<R>, pre: bytes, rs: seq<R>, tail: bytes)
    requires Lawful(f) && AllOk(f, rs) && (tail == [] || Torn(f, tail))
    ensures var log := pre + EncodeAll(f, rs);
            ScanFrames(f, log + tail, |pre|, true)
              == Scan(Layout(f, |pre|, rs), if tail == [] then [] else [(|log|, |log + tail|)], |log|)
  {
    var log := pre + EncodeAll(f, rs);
    var len, layout := LenAt(f, log + tail), Layout(f, |pre|, rs);
    assert Placed(len, |pre|, layout, |log|) by { LogIsPlaced(f, pre, rs, tail); }
    assert |len| == |log + tail| && (tail != [] ==> len[|log|] == 0) by { TornHasNoLen(f, log, tail); }
    ScanPlacedThenTail(len, |pre|, layout, |log|);
  }

  lemma StrictRecordsOfLog<R(!new)>(f: Format<R>, pre: bytes, rs: seq<R>, tail: bytes)
    requires Lawful(f) && AllOk(f, rs) && (tail == [] || Torn(f, tail))
    ensures Records(f, pre + EncodeAll(f, rs) + tail, |pre|, true) == NormalAll(f, rs)
  {
    StrictScanOfLog(f, pre, rs, tail);
    RecordsOfLog(f, pre, rs, tail);
  }

  lemma TornHasNoLen<R(!new)>(f: Format<R>, log: bytes, tail: bytes)
    requires Lawful(f) && (tail == [] || Torn(f, tail))
    ensures |LenAt(f, log + tail)| == |log| + |tail|
    ensures tail != [] ==> LenAt(f, log + tail)[|log|] == 0
  {
    LensOfTail(f, log, tail);
    if tail != [] { TornIsNoFrame(f, tail); }
  }

  /** No valid frame hides anywhere in the tail. */
  ghost predicate Barren<R>(f: Format<R>, tail: bytes) { forall p: nat :: p < |tail| ==> f.dec(tail[p..]).None? }

  lemma BarrenLens<R(!new)>(f: Format<R>, log: bytes, tail: bytes)
    requires Lawful(f)
    ensures Barren(f, tail) == NoneFrom(LenAt(f, log + tail), |log|)
  {
    var len := LenAt(f, log + tail);
    LensOfTail(f, log, tail);
    if Barren(f, tail) {
      forall p: nat | |log| <= p < |log + tail| ensures len[p] == 0 {
        assert f.dec(tail[p - |log|..]).None?;
        assert len[|log| + (p - |log|)] == 0;
      }
    } else {
      var p: nat :| p < |tail| && f.dec(tail[p..]).Some?;
      assert len[|log| + p] != 0;
    }
  }

  lemma ResyncFoundOfLog<R(!new)>(f: Format<R>, pre: bytes, rs: seq<R>, tail: bytes)
    requires Lawful(f) && AllOk(f, rs) && (tail == [] || Torn(f, tail))
    ensures var log := pre + EncodeAll(f, rs);
            var len := LenAt(f, log + tail);
            (ScanFrom(len, |pre|, false).found == Layout(f, |pre|, rs)) == NoneFrom(len, |log|)
  {
    var log := pre + EncodeAll(f, rs);
    var len, layout := LenAt(f, log + tail), Layout(f, |pre|, rs);
    assert Placed(len, |pre|, layout, |log|) by { LogIsPlaced(f, pre, rs, tail); }
    assert |len| == |log + tail| && (tail != [] ==> len[|log|] == 0) by { TornHasNoLen(f, log, tail); }
    ScanPlacedThenTail(len, |pre|, layout, |log|);
  }

  /** The default resynchronising scan returns exactly the whole frames if and only if no frame is
      embedded in what landed of the last one. */
  lemma ResyncScanOfLog<R(!new)>(f: Format<R>, pre: bytes, rs: seq<R>, tail: bytes)
    requires Lawful(f) && AllOk(f, rs) && (tail == [] || Torn(f, tail))
    ensures (ScanFrames(f, pre + EncodeAll(f, rs) + tail, |pre|, false).found == Layout(f, |pre|, rs))
      == Barren(f, tail)
  {
    ResyncFoundOfLog(f, pre, rs, tail);
    BarrenLens(f, pre + EncodeAll(f, rs), tail);
  }

  lemma ResyncRecordsOfLog<R(!new)>(f: Format<R>, pre: bytes, rs: seq<R>, tail: bytes)
    requires Lawful(f) && AllOk(f, rs) && (tail == [] || (Torn(f, tail) && Barren(f, tail)))
    ensures Records(f, pre + EncodeAll(f, rs) + tail, |pre|, false) == NormalAll(f, rs)
  {
    ResyncScanOfLog(f, pre, rs, tail);
    RecordsOfLog(f, pre, rs, tail);
  }
}
