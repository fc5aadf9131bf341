/** A read-only replica that follows the log of a live writer (recovery.ts, index.ts). */
module Replicas {
  import opened Bytes
  import opened Scanner
  import opened Framing
  import opened Codec
  import opened CodecIO
  import opened Replay
  import opened Commands
  import opened Durability
  import opened LogFacts

  datatype Found = Found(frames: seq<Record>, offset: nat)

  /** What one poll finds in a file from an offset on; None asks for a full reopen. */
  function CatchUp(data: bytes, offset: int): Option<Found> {
    if offset < 0 || offset > |data| then None
    else
      var r := ScanFrames(RecordFormat(), data, offset, true);
      var n := if |data| - offset < |MAGIC| then |data| - offset else |MAGIC|;
      if r.found == [] && r.eof < |data| then
        if data[offset..offset + n] == MAGIC[..n] then Some(Found([], offset)) else None
      else Some(Found(RecordsAt(RecordFormat(), data, r.found), r.eof))
  }

  // ---- What readers can tell ---------------------------------------------------------------------

  ghost predicate SameViews(m: Content, n: Content, now: int) { forall k :: SameView(m, n, k, now) }

  lemma SameLater(m: Content, n: Content, a: int, b: int)
    requires SameViews(m, n, a) && a <= b
    ensures SameViews(m, n, b)
  {
    forall k ensures SameView(m, n, k, b) {
      assert SameView(m, n, k, a);
    }
  }

  lemma SameTrans(m: Content, n: Content, o: Content, now: int)
    requires SameViews(m, n, now) && SameViews(n, o, now)
    ensures SameViews(m, o, now)
  {
    hide View;
    forall k ensures SameView(m, o, k, now) {
      assert SameView(m, n, k, now) && SameView(n, o, k, now);
    }
  }

  /** The same op keeps two states alike, even if one of them takes it as expired by then. */
  lemma SameAfterOp(m: Content, n: Content, op: Op, t: int, now: int)
    requires SameViews(m, n, now) && t <= now
    ensures SameViews(Apply(m, Replayed(op, t)), Apply(n, op), now)
  {
    forall k ensures SameView(Apply(m, Replayed(op, t)), Apply(n, op), k, now) {
      assert SameView(m, n, k, now);
      forall u | u >= now ensures View(Apply(m, Replayed(op, t)), k, u) == View(Apply(n, op), k, u) {
        assert View(m, k, u) == View(n, k, u);
      }
    }
  }

  lemma {:induction false} SameAfterOps(m: Content, n: Content, ops: seq<Op>, now: int)
    requires SameViews(m, n, now)
    ensures SameViews(ApplyOps(m, ops), ApplyOps(n, ops), now)
    decreases ops
  {
    hide SameViews, Apply;
    if ops != [] {
      SameAfterOwnOp(m, n, ops[0], now);
      SameAfterOps(Apply(m, ops[0]), Apply(n, ops[0]), ops[1..], now);
    }
  }

  lemma SameAfterOwnOp(m: Content, n: Content, op: Op, now: int)
    requires SameViews(m, n, now)
    ensures SameViews(Apply(m, op), Apply(n, op), now)
  {
    forall k ensures SameView(Apply(m, op), Apply(n, op), k, now) {
      assert SameView(m, n, k, now);
      forall u | u >= now ensures View(Apply(m, op), k, u) == View(Apply(n, op), k, u) {
        assert View(m, k, u) == View(n, k, u);
      }
    }
  }

  lemma SameAfterFrames(m: Content, n: Content, frames: seq<Record>, now: int)
    requires SameViews(m, n, now)
    ensures SameViews(ApplyFrames(m, frames), ApplyFrames(n, frames), now)
  {
    hide SameViews;
    ApplyFramesIsOps(m, frames);
    ApplyFramesIsOps(n, frames);
    SameAfterOps(m, n, OpsOfFrames(frames), now);
  }

  /** Store.get drops a record that it finds expired. */
  function Reaped(m: Content, k: Key, t: int): Content { if k in m && !m[k].LiveAt(t) then m - {k} else m }

  lemma ReapIsInvisible(m: Content, k: Key, t: int)
    ensures SameViews(Reaped(m, k, t), m, t)
  {
    forall j ensures SameView(Reaped(m, k, t), m, j, t) {}
  }

  // ---- The replica -------------------------------------------------------------------------------

  /** A file on disk: its inode and its bytes. */
  datatype WalFile = WalFile(ino: nat, data: bytes)

  class Replica {
    var content: Content
    /** The continuation: the inode that was scanned, and up to where. */
    var ino: nat
    var size: nat

    constructor (content: Content, ino: nat, walScanEnd: nat)
      ensures this.content == content && this.ino == ino && this.size == walScanEnd
    {
      this.content, this.ino, this.size := content, ino, walScanEnd;
    }

    /** applyRecoveredOp; the clock moves on while it runs, and with derived indexes it also reads. */
    method ApplyRecoveredOp(op: Op, indexed: bool, started: int) returns (now: int)
      modifies `content
      ensures now >= started && SameViews(content, Apply(old(content), op), now)
    {
      hide SameViews, Apply, Replayed, Reaped;
      now :| now >= started;
      var replayed := Replayed(op, now);
      ghost var was, read := content, content;
      if indexed {
        var t :| t >= now;
        ReapIsInvisible(content, op.key, t);
        content := Reaped(content, op.key, t);
        read := content;
        ghost var first := now;
        now := t;
        SameAfterOp(read, was, op, first, now);
      } else {
        SameAsItself(was, now);
        SameAfterOp(read, was, op, now, now);
      }
      content := Apply(content, replayed);
      if replayed.Set? {
        var t :| t >= now;
        ghost var written := content;
        SameLater(written, Apply(was, op), now, t);
        ReapIsInvisible(written, op.key, t);
        content := Reaped(content, op.key, t);
        now := t;
        SameTrans(content, written, Apply(was, op), now);
      }
    }

    method ApplyRecoveredFrame(frame: Record, indexed: bool, started: int) returns (now: int)
      modifies `content
      ensures now >= started && SameViews(content, ApplyOps(old(content), FrameOps(frame)), now)
    {
      hide SameViews, Apply, FrameOps;
      var ops := FrameOps(frame);
      ghost var was := content;
      now := started;
      SameAsItself(was, now);
      assert ops[..0] == [];
      for i := 0 to |ops|
        invariant now >= started && SameViews(content, ApplyOps(was, ops[..i]), now)
      {
        ghost var before, mid := now, content;
        now := ApplyRecoveredOp(ops[i], indexed, now);
        SameLater(mid, ApplyOps(was, ops[..i]), before, now);
        SameAfterOwnOp(mid, ApplyOps(was, ops[..i]), ops[i], now);
        OneMoreOp(was, ops, i);
        SameTrans(content, Apply(mid, ops[i]), ApplyOps(was, ops[..i + 1]), now);
      }
      assert ops[..|ops|] == ops;
    }

    /** catchUpFromWal. `wal` is the file as this poll finds it, if there is one. */
    method CatchUpFromWal(offset: int, wal: Option<WalFile>, indexed: bool, started: int)
        returns (r: Option<(nat, nat)>, now: int)
      modifies this
      ensures now >= started && ino == old(ino)
      ensures r.None? <==>
        offset != old(size) || wal.None? || wal.value.ino != ino || CatchUp(wal.value.data, offset).None?
      ensures r.None? ==> content == old(content) && size == old(size)
      ensures r.Some? ==>
        var found := CatchUp(wal.value.data, offset).value;
        && r.value == (found.offset, |found.frames|) && size == found.offset
        && SameViews(content, ApplyFrames(old(content), found.frames), now)
    {
      hide SameViews, ScanFrames, RecordsAt, ApplyFrames, RecordFormat;
      now := started;
      if offset != size || wal.None? || wal.value.ino != ino || offset > |wal.value.data| { return None, now; }
      var data := wal.value.data;
      ghost var scan := ScanFrames(RecordFormat(), data, offset, true);
      var refs, _, eof := ScanFrameRefs(data, offset, true, 0x1_0000, 0x1_0000);
      if |refs| == 0 && eof < |data| {
        var n := if |data| - offset < |MAGIC| then |data| - offset else |MAGIC|;
        SameAsItself(content, now);
        NoFrames(content);
        if data[offset..offset + n] != MAGIC[..n] { return None, now; }
        return Some((offset, 0)), now;
      }
      now := ApplyRefs(data, refs, scan.found, indexed, now);
      RefsAreRecords(data, refs, scan.found);
      size := eof;
      r := Some((eof, |refs|));
    }

    method ApplyRefs(data: bytes, refs: seq<CodecIO.Ref>, ghost found: seq<(nat, nat)>, indexed: bool, started: int)
        returns (now: int)
      requires Reported(data, refs, found)
      modifies `content
      ensures now >= started
      ensures SameViews(content, ApplyFrames(old(content), RecordsAt(RecordFormat(), data, found)), now)
    {
      hide SameViews, ApplyFrames, RecordsAt, RecordFormat, Reported, FrameOps;
      ghost var was, all := content, RecordsAt(RecordFormat(), data, found);
      RefsAreRecords(data, refs, found);
      now := started;
      SameAsItself(was, now);
      NoFrames(was);
      assert all[..0] == [];
      for i := 0 to |refs|
        invariant now >= started && SameViews(content, ApplyFrames(was, all[..i]), now)
      {
        ghost var before, mid := now, content;
        now := ApplyRecoveredFrame(refs[i].frame.record, indexed, now);
        SameLater(mid, ApplyFrames(was, all[..i]), before, now);
        SameAfterOps(mid, ApplyFrames(was, all[..i]), FrameOps(all[i]), now);
        OneMoreFrame(was, all, i);
        SameTrans(content, ApplyOps(mid, FrameOps(all[i])), ApplyFrames(was, all[..i + 1]), now);
      }
      assert all[..|all|] == all;
    }
  }

  lemma SameAsItself(m: Content, now: int)
    ensures SameViews(m, m, now)
  {
  }

  lemma NoFrames(m: Content)
    ensures ApplyFrames(m, []) == m
  {
  }

  lemma OneMoreOp(m: Content, ops: seq<Op>, i: nat)
    requires i < |ops|
    ensures ApplyOps(m, ops[..i + 1]) == Apply(ApplyOps(m, ops[..i]), ops[i])
  {
    hide Apply;
    assert ops[..i + 1] == ops[..i] + [ops[i]];
    ApplyOpsAppend(m, ops[..i], [ops[i]]);
    assert [ops[i]][1..] == [];
  }

  lemma OneMoreFrame(m: Content, frames: seq<Record>, i: nat)
    requires i < |frames|
    ensures ApplyFrames(m, frames[..i + 1]) == ApplyOps(ApplyFrames(m, frames[..i]), FrameOps(frames[i]))
  {
    hide ApplyOps, FrameOps;
    assert frames[..i + 1] == frames[..i] + [frames[i]];
    ApplyFramesAppend(m, frames[..i], [frames[i]]);
    assert [frames[i]][1..] == [];
  }

  /** The refs a scan reports are its records. */
  lemma {:induction false} RefsAreRecords(data: bytes, refs: seq<CodecIO.Ref>, found: seq<(nat, nat)>)
    requires Reported(data, refs, found)
    ensures var all := RecordsAt(RecordFormat(), data, found);
            |all| == |refs| && forall i :: 0 <= i < |refs| ==> all[i] == refs[i].frame.record
    decreases refs
  {
    hide ReadFrame;
    if refs != [] {
      assert Reported(data, refs[1..], found[1..]);
      RefsAreRecords(data, refs[1..], found[1..]);
    }
  }

  /** A poll asks for a reopen exactly when its offset is no place in the file, or the bytes there neither
      are a frame nor begin like one. */
  lemma ReopensExactlyWhen(data: bytes, offset: int)
    ensures CatchUp(data, offset).None? <==>
            || offset < 0 || offset > |data|
            || (offset < |data| && ReadFrame(data[offset..]).None?
                && (data[offset] != MAGIC[0] || (offset + 1 < |data| && data[offset + 1] != MAGIC[1])))
  {
    hide ReadFrame, RecordFormat, RecordsAt;
    if 0 <= offset <= |data| {
      FirstOfScan(data, offset);
      var n := if |data| - offset < |MAGIC| then |data| - offset else |MAGIC|;
      if offset < |data| {
        assert data[offset..offset + n][0] == data[offset];
        if n == 2 {
          assert data[offset..offset + n] == [data[offset], data[offset + 1]] && MAGIC[..n] == MAGIC;
        } else {
          assert data[offset..offset + n] == [data[offset]] && MAGIC[..n] == [MAGIC[0]];
        }
      }
    }
  }

  /** The strict scan finds a frame where one starts, and nothing otherwise. */
  lemma FirstOfScan(data: bytes, offset: nat)
    requires offset <= |data|
    ensures var r := ScanFrames(RecordFormat(), data, offset, true);
            if offset < |data| && ReadFrame(data[offset..]).Some? then r.found != []
            else r.found == [] && r.eof == offset
  {
    hide ReadFrame, RecordFormat, ScanFrom;
    CodecIsLawful();
    assert Holds(RecordFormat(), Shape);
    if offset < |data| {
      DecOfFormat(data[offset..]);
      assert LenAt(RecordFormat(), data)[offset] == FrameLen(RecordFormat(), data, offset);
    }
    ScanStarts(LenAt(RecordFormat(), data), offset);
  }

  lemma ScanStarts(len: seq<nat>, pos: nat)
    requires pos <= |len|
    ensures var r := ScanFrom(len, pos, true);
            if pos < |len| && len[pos] > 0 then r.found != [] else r.found == [] && r.eof == pos
  {
  }

  // ---- Polling a growing log ---------------------------------------------------------------------

  lemma {:induction false} LayoutCount(off: nat, rs: seq<Record>)
    ensures |Layout(RecordFormat(), off, rs)| == |rs|
    decreases rs
  {
    hide RecordFormat;
    if rs != [] { LayoutCount(off + |RecordFormat().enc(rs[0])|, rs[1..]); }
  }

  lemma ScanOfGoodLog(pre: bytes, rs: seq<Record>, torn: bytes)
    requires FramesOk(rs) && (torn == [] || Torn(RecordFormat(), torn))
    ensures var data := pre + EncAll(rs) + torn;
            var r := ScanFrames(RecordFormat(), data, |pre|, true);
            r.eof == |pre + EncAll(rs)| && |r.found| == |rs| && RecordsAt(RecordFormat(), data, r.found) == rs
  {
    hide EncAll, FramesOk, Torn, ScanFrames, RecordsAt, RecordFormat, Layout, EncodeAll, NormalAll, Lawful;
    CodecIsLawful();
    GoodFrames(rs);
    EncAllIsEncodeAll(rs);
    StrictScanOfLog(RecordFormat(), pre, rs, torn);
    RecordsOfLog(RecordFormat(), pre, rs, torn);
    LayoutCount(|pre|, rs);
    NormalFrames(rs);
  }

  /** A torn frame starts like every frame. */
  lemma TornStartsWithMagic(torn: bytes)
    requires Torn(RecordFormat(), torn)
    ensures var n := if |torn| < |MAGIC| then |torn| else |MAGIC|; torn[..n] == MAGIC[..n]
  {
    hide Checked;
    var f := RecordFormat();
    var r: Record, n: nat :| f.ok(r) && n < |f.enc(r)| && torn == f.enc(r)[..n];
    assert f.enc(r) == Encoded(r) && Encoded(r)[..2] == MAGIC;
  }

  /** However many bytes of an append-only log have landed when a poll reads it, from any frame boundary
      on, it asks for no reopen, yields exactly the whole frames, and stops at the next boundary. */
  lemma PollOfLog(hist: seq<Record>, i: nat, landed: nat)
    requires FramesOk(hist) && i <= |hist| && |EncAll(hist[..i])| <= landed <= |EncAll(hist)|
    ensures var w := Whole(hist, landed);
            && i <= w && |EncAll(hist[..w])| <= landed
            && CatchUp(EncAll(hist)[..landed], |EncAll(hist[..i])|) == Some(Found(hist[i..w], |EncAll(hist[..w])|))
  {
    hide EncAll, Enc, FramesOk, Torn, ScanFrames, RecordsAt, RecordFormat, Whole;
    GoodFrames(hist);
    var w := Whole(hist, landed);
    var torn := WholeThenTorn(hist, landed);
    WholeOfPrefix(hist, i, landed);
    assert hist[..w] == hist[..i] + hist[i..w];
    EncAllAppend(hist[..i], hist[i..w]);
    FramesOkSlice(hist, i, w);
    var pre, data := EncAll(hist[..i]), EncAll(hist)[..landed];
    ScanOfGoodLog(pre, hist[i..w], torn);
    if i == w && torn != [] {
      NothingEncoded(hist, i);
      TornStartsWithMagic(torn);
      assert data[|pre|..] == torn;
      var n := if |torn| < |MAGIC| then |torn| else |MAGIC|;
      assert data[|pre|..|pre| + n] == torn[..n];
    }
  }

  lemma NothingEncoded(hist: seq<Record>, i: nat)
    requires i <= |hist|
    ensures EncAll(hist[i..i]) == []
  {
  }

  /** What a replica holds between two polls. */
  datatype State = State(content: Content, offset: nat, now: int)

  /** One poll as CatchUpFromWal does it, from its own continuation. */
  ghost predicate Poll(s: State, data: bytes, s': State) {
    match CatchUp(data, s.offset)
    case None => s'.content == s.content && s'.offset == s.offset && s'.now >= s.now
    case Some(found) =>
      && s'.now >= s.now && s'.offset == found.offset
      && SameViews(s'.content, ApplyFrames(s.content, found.frames), s'.now)
  }

  /** One full replay of the whole frames of a file over a snapshot's content. */
  function FullReplay(base: Content, data: bytes): Content { ApplyFrames(base, Records(RecordFormat(), data, 0, true)) }

  lemma FullReplayOfLog(base: Content, hist: seq<Record>, landed: nat)
    requires FramesOk(hist) && landed <= |EncAll(hist)|
    ensures FullReplay(base, EncAll(hist)[..landed]) == ApplyFrames(base, hist[..Whole(hist, landed)])
  {
    hide EncAll, Enc, FramesOk, Torn, ScanFrames, RecordsAt, RecordFormat, Whole, ApplyFrames;
    GoodFrames(hist);
    var w := Whole(hist, landed);
    var torn := WholeThenTorn(hist, landed);
    FramesOkSlice(hist, 0, w);
    assert hist[0..w] == hist[..w] && [] + EncAll(hist[..w]) == EncAll(hist[..w]);
    ScanOfGoodLog([], hist[..w], torn);
  }

  /** A poll at one moment keeps the replica in step. */
  lemma PollFollows(base: Content, hist: seq<Record>, i: nat, s: State, landed: nat, s': State)
    requires FramesOk(hist) && i <= |hist| && s.offset == |EncAll(hist[..i])| <= landed <= |EncAll(hist)|
    requires SameViews(s.content, ApplyFrames(base, hist[..i]), s.now)
    requires Poll(s, EncAll(hist)[..landed], s')
    ensures CatchUp(EncAll(hist)[..landed], s.offset).Some?
    ensures s'.offset == |EncAll(hist[..Whole(hist, landed)])| <= landed
    ensures SameViews(s'.content, ApplyFrames(base, hist[..Whole(hist, landed)]), s'.now)
  {
    hide EncAll, FramesOk, Whole, SameViews, CatchUp, ApplyFrames;
    PollOfLog(hist, i, landed);
    var w := Whole(hist, landed);
    SameLater(s.content, ApplyFrames(base, hist[..i]), s.now, s'.now);
    SameAfterFrames(s.content, ApplyFrames(base, hist[..i]), hist[i..w], s'.now);
    ApplyFramesAppend(base, hist[..i], hist[i..w]);
    assert hist[..w] == hist[..i] + hist[i..w];
    SameTrans(s'.content, ApplyFrames(s.content, hist[i..w]), ApplyFrames(base, hist[..w]), s'.now);
  }

  ghost predicate IsRun(hist: seq<Record>, states: seq<State>, landed: seq<nat>) {
    && |states| == |landed| + 1
    && (forall j :: 0 <= j < |landed| ==>
      landed[j] <= |EncAll(hist)| && Poll(states[j], EncAll(hist)[..landed[j]], states[j + 1]))
    && forall j, k :: 0 <= j < k < |landed| ==> landed[j] <= landed[k]
  }

  ghost predicate InStep(base: Content, data: bytes, s: State) { SameViews(s.content, FullReplay(base, data), s.now) }

  /** Polled at any sequence of moments while the log grows by any number of bytes, a replica that starts
      at a frame boundary never asks for a reopen, and after each poll readers see in it what one full
      replay of the file of that moment shows them. */
  lemma {:induction false} PollsFollow(base: Content, hist: seq<Record>, i: nat, states: seq<State>, landed: seq<nat>,
      j: nat)
    requires FramesOk(hist) && i <= |hist| && IsRun(hist, states, landed) && j < |landed|
    requires states[0].offset == |EncAll(hist[..i])| <= landed[0]
    requires SameViews(states[0].content, ApplyFrames(base, hist[..i]), states[0].now)
    ensures landed[j] <= |EncAll(hist)|
    ensures CatchUp(EncAll(hist)[..landed[j]], states[j].offset).Some?
    ensures InStep(base, EncAll(hist)[..landed[j]], states[j + 1])
    decreases |landed|
  {
    hide EncAll, FramesOk, Whole, SameViews, CatchUp, ApplyFrames, Poll, FullReplay;
    PollFollows(base, hist, i, states[0], landed[0], states[1]);
    if j > 0 {
      assert IsRun(hist, states[1..], landed[1..]);
      PollsFollow(base, hist, Whole(hist, landed[0]), states[1..], landed[1..], j - 1);
    } else {
      FullReplayOfLog(base, hist, landed[0]);
    }
  }
}
