/** Group commit (wal.ts): frames are queued, written in batches that may land in pieces, and sit in
    the file exactly where `appendLoc` predicted. */
module Wal {
  import opened Bytes

  /** A file on disk. */
  class File {
    var data: bytes

    constructor (data: bytes)
      ensures this.data == data
    {
      this.data := data;
    }
  }

  /** What is left to write of `bufs`, of whose first buffer `off` bytes are written. */
  function Rest(bufs: seq<bytes>, off: nat): bytes {
    if bufs == [] || off > |bufs[0]| then [] else bufs[0][off..] + Flat(bufs[1..])
  }

  lemma RestOfAll(bufs: seq<bytes>)
    ensures Rest(bufs, 0) == Flat(bufs)
  {
    if bufs != [] { assert bufs[0][0..] == bufs[0]; }
  }

  lemma WriteSome(bufs: seq<bytes>, off: nat, n: nat, total: bytes, at: nat)
    requires bufs != [] && off + n <= |bufs[0]| && at <= |total| && Rest(bufs, off) == total[at..]
    ensures at + n <= |total| && Rest(bufs, off + n) == total[at + n..]
  {
    assert Rest(bufs, off + n) == Rest(bufs, off)[n..];
  }

  lemma ShiftOut(bufs: seq<bytes>, off: nat, total: bytes, at: nat)
    requires bufs != [] && off <= |bufs[0]| && at <= |total| && Rest(bufs, off) == total[at..]
    ensures at + |bufs[0]| - off <= |total| && Rest(bufs[1..], 0) == total[at + (|bufs[0]| - off)..]
  {
    RestOfAll(bufs[1..]);
    var n := |bufs[0]| - off;
    assert Rest(bufs[1..], 0) == Rest(bufs, off)[n..];
  }

  lemma LastIsNotEmpty(bufs: seq<bytes>, off: nat)
    requires Rest(bufs, off) != []
    ensures |bufs| == 1 ==> bufs[0] != []
  {
  }

  lemma NothingLeft(bufs: seq<bytes>, off: nat, total: bytes, at: nat)
    requires at <= |total| && Rest(bufs, off) == total[at..]
    ensures bufs == [] ==> at == |total|
  {
  }

  lemma {:induction false} EmptyRest(bufs: seq<bytes>, off: nat)
    requires bufs != [] && off <= |bufs[0]| && (off == 0 || off < |bufs[0]|) && Rest(bufs, off) == []
    ensures bufs[|bufs| - 1] == []
    decreases bufs
  {
    assert |bufs[0][off..]| == 0;
    if |bufs| > 1 {
      RestOfAll(bufs[1..]);
      EmptyRest(bufs[1..], 0);
    }
  }

  lemma FlatOneMore(a: seq<bytes>, x: bytes)
    ensures Flat(a + [x]) == Flat(a) + x
  {
    FlatAppend(a, [x]);
    assert Flat([x]) == x + Flat([]);
    assert x + Flat([]) == x;
  }

  lemma FlatSplit(a: seq<bytes>, i: nat)
    requires i <= |a|
    ensures Flat(a) == Flat(a[..i]) + Flat(a[i..])
  {
    FlatAppend(a[..i], a[i..]);
    assert a[..i] + a[i..] == a;
  }

  lemma Behind(data: bytes, before: bytes, a: bytes, b: bytes)
    requires data + [] == before + a
    ensures data + b == before + (a + b)
  {
    assert data + [] == data;
    assert (before + a) + b == before + (a + b);
  }

  class WAL {
    const fh: File
    var size: nat
    var nextOffset: nat
    var queue: seq<bytes>
    var queuedBytes: nat
    var flushing: bool
    var sealed: bool
    var closed: bool

    // The batch in flight: its frames, the buffers not yet written, and how much of the first one is.
    var batch: seq<bytes>
    var bufs: seq<bytes>
    var off: nat

    /** The file when the WAL was opened, the frames accepted since, and how many are settled. */
    ghost var before: bytes
    ghost var accepted: seq<bytes>
    ghost var settled: nat

    ghost predicate Valid()
      reads this, fh
    {
      && size == |fh.data|
      && queuedBytes == |Flat(queue)|
      && nextOffset == |before| + |Flat(accepted)|
      && settled <= |accepted| && accepted[settled..] == batch + queue
      && (if flushing then batch != [] else batch == [] && bufs == [])
      && BatchOk()
      && fh.data + Rest(bufs, off) == before + Flat(accepted[..|accepted| - |queue|])
    }

    /** The buffers still to be written are the end of the batch. */
    ghost predicate BatchOk()
      reads this
    {
      && |bufs| <= |batch| && bufs == batch[|batch| - |bufs|..]
      && (if bufs == [] then off == 0 else off == 0 || off < |bufs[0]|)
      && (bufs == [] && batch != [] ==> batch[|batch| - 1] != [])
    }

    ghost predicate Quiet()
      reads this
    {
      queue == [] && !flushing
    }

    constructor (fh: File)
      ensures Valid() && this.fh == fh && before == fh.data && accepted == [] && Quiet() && !sealed && !closed
    {
      this.fh := fh;
      size, nextOffset, queue, queuedBytes := |fh.data|, |fh.data|, [], 0;
      flushing, sealed, closed, batch, bufs, off := false, false, false, [], [], 0;
      before, accepted, settled := fh.data, [], 0;
    }

    method Seal()
      requires Valid()
      modifies `sealed
      ensures Valid() && sealed
    {
      sealed := true;
    }

    /** Accept a frame and predict where it will lie; a closed or sealed WAL rejects it. */
    method AppendLoc(frame: bytes) returns (offset: int)
      requires Valid()
      modifies `nextOffset, `queue, `queuedBytes, `accepted
      ensures Valid()
      ensures if closed || sealed then offset == -1 && accepted == old(accepted) && queue == old(queue)
              else
                && offset == |before| + |Flat(old(accepted))|
                && accepted == old(accepted) + [frame] && queue == old(queue) + [frame]
    {
      hide Flat, Rest;
      if closed || sealed { return -1; }
      offset := nextOffset;
      nextOffset := nextOffset + |frame|;
      queue := queue + [frame];
      queuedBytes := queuedBytes + |frame|;
      FlatOneMore(accepted, frame);
      FlatOneMore(old(queue), frame);
      accepted := accepted + [frame];
      assert accepted[..|accepted| - |queue|] == old(accepted[..|accepted| - |queue|]);
      assert accepted[settled..] == old(accepted[settled..]) + [frame];
    }

    /** Take the whole queue as the next batch. */
    method StartBatch()
      requires Valid() && !flushing && queue != []
      modifies `flushing, `queue, `queuedBytes, `batch, `bufs, `off
      ensures Valid() && flushing && queue == [] && batch == old(queue)
    {
      flushing := true;
      batch := queue;
      queue := [];
      queuedBytes := 0;
      bufs := batch;
      off := 0;
      RestOfAll(bufs);
      FlatSplit(accepted, settled);
      assert old(batch + queue) == old(queue);
      assert accepted[..|accepted|] == accepted;
      Behind(fh.data, before, Flat(accepted[..settled]), Flat(batch));
    }

    /** One writev, of which any number of bytes may land, then the bookkeeping of what is left. No
        byte lands when there is none to write. */
    method Writev() returns (progress: bool)
      requires Valid() && bufs != []
      modifies fh, `size, `bufs, `off
      ensures Valid() && old(fh.data) <= fh.data && |bufs| <= |old(bufs)|
      ensures progress ==> |Rest(bufs, off)| < |Rest(old(bufs), old(off))|
      ensures !progress ==> Rest(old(bufs), old(off)) == [] && bufs == old(bufs) && off == old(off)
    {
      hide Rest, Flat;
      var n := AnyLanding(bufs, off);
      if n == 0 { return false; }
      ghost var total := Rest(bufs, off);
      fh.data := fh.data + Rest(bufs, off)[..n];
      size := size + n;
      Advance(n);
      Landed(old(fh.data), total, n);
      progress := true;
    }

    static lemma Landed(data: bytes, total: bytes, n: nat)
      requires n <= |total|
      ensures (data + total[..n]) + total[n..] == data + total
    {
    }

    /** Drop the first `n` bytes of what is left to write. */
    method Advance(n: nat)
      requires BatchOk() && n <= |Rest(bufs, off)|
      modifies `bufs, `off
      ensures BatchOk() && |bufs| <= |old(bufs)| && Rest(bufs, off) == old(Rest(bufs, off))[n..]
    {
      hide Rest, Flat;
      ghost var total := Rest(bufs, off);
      assert total[0..] == total;
      var rem: nat := n;
      while rem > 0 && bufs != []
        invariant rem <= n && BatchOk() && |bufs| <= |old(bufs)|
        invariant Rest(bufs, off) == total[n - rem..]
        decreases |bufs|, rem
      {
        var left := |bufs[0]| - off;
        if rem < left {
          WriteSome(bufs, off, rem, total, n - rem);
          off := off + rem;
          rem := 0;
        } else {
          ShiftOut(bufs, off, total, n - rem);
          LastIsNotEmpty(bufs, off);
          rem := rem - left;
          bufs := bufs[1..];
          off := 0;
        }
      }
      NothingLeft(bufs, off, total, n - rem);
    }

    /** How many bytes a writev lands: anything from one byte to all of them. */
    static method AnyLanding(bufs: seq<bytes>, off: nat) returns (n: nat)
      requires bufs != [] && off <= |bufs[0]|
      ensures n <= |Rest(bufs, off)| && (n == 0 <==> Rest(bufs, off) == [])
    {
      var total := |Rest(bufs, off)|;
      if total == 0 { return 0; }
      n := *;
      if n == 0 || n > total { n := total; }
    }

    /** The frames of the batch are settled: resolved, or rejected because a writev made no progress. */
    method FinishBatch()
      requires Valid() && flushing && Rest(bufs, off) == []
      modifies `flushing, `batch, `bufs, `off, `settled
      ensures Valid() && !flushing && settled == old(settled) + |old(batch)|
    {
      assert accepted[settled + |batch|..] == queue by { assert accepted[settled..][|batch|..] == queue; }
      settled := settled + |batch|;
      batch, bufs, off, flushing := [], [], 0, false;
    }

    /** What the other tasks do while this one waits: append frames. */
    method OtherTasks(budget: nat) returns (left: nat)
      requires Valid()
      modifies `nextOffset, `queue, `queuedBytes, `accepted
      ensures Valid() && left <= budget
      ensures old(accepted) <= accepted
      ensures sealed || closed || left == budget ==> accepted == old(accepted) && queue == old(queue)
    {
      hide Valid, Flat, Rest;
      left := budget;
      while left > 0
        invariant Valid() && left <= budget && old(accepted) <= accepted
        invariant sealed || closed || left == budget ==> accepted == old(accepted) && queue == old(queue)
      {
        if * { break; }
        var frame: bytes := *;
        var _ := AppendLoc(frame);
        left := left - 1;
      }
    }

    /** Write the batch in flight to its end, while other tasks append. It is resolved exactly when its
        last frame is not empty: an empty last buffer is never shifted out, and the writev for it makes
        no progress. */
    method RunBatch(budget: nat) returns (ok: bool, left: nat)
      requires Valid() && flushing && batch != []
      modifies this`nextOffset, this`queue, this`queuedBytes, this`accepted
      modifies fh, this`size, this`bufs, this`off, this`flushing, this`batch, this`settled
      ensures Valid() && !flushing && left <= budget
      ensures old(accepted) <= accepted
        && (sealed || closed || left == budget ==> accepted == old(accepted) && queue == old(queue))
      ensures settled == old(settled) + |old(batch)| && old(fh.data) <= fh.data
      ensures ok <==> old(batch[|batch| - 1]) != []
    {
      hide Valid, Flat, Rest;
      BatchNotEmpty();
      left := budget;
      ok := true;
      while bufs != [] && ok
        invariant Valid() && flushing && batch == old(batch) && left <= budget && settled == old(settled)
        invariant old(accepted) <= accepted && old(fh.data) <= fh.data
        invariant sealed || closed || left == budget ==> accepted == old(accepted) && queue == old(queue)
        invariant !ok ==> bufs != [] && Rest(bufs, off) == []
        decreases |Rest(bufs, off)|, ok
      {
        left := OtherTasks(left);
        ok := Writev();
      }
      BatchEnds();
      FinishBatch();
    }

    lemma BatchNotEmpty()
      requires Valid() && flushing
      ensures batch != []
    {
    }

    /** When nothing is left to write, either every buffer was shifted out or the last one is empty. */
    lemma BatchEnds()
      requires Valid() && flushing && (bufs != [] ==> Rest(bufs, off) == [])
      ensures Rest(bufs, off) == [] && batch != [] && (bufs == [] <==> batch[|batch| - 1] != [])
    {
      if bufs != [] {
        EmptyRest(bufs, off);
        assert bufs[|bufs| - 1] == batch[|batch| - 1];
      }
    }

    /** Flush until nothing is queued or in flight. It ends if the others append only finitely much,
        and at once in a sealed WAL. */
    method Flush(budget: nat) returns (left: nat)
      requires Valid()
      modifies this`nextOffset, this`queue, this`queuedBytes, this`accepted
      modifies fh, this`size, this`bufs, this`off, this`flushing, this`batch, this`settled
      ensures Valid() && Quiet() && left <= budget
      ensures fh.data == before + Flat(accepted) && settled == |accepted| && size == nextOffset == |fh.data|
      ensures old(accepted) <= accepted && old(fh.data) <= fh.data
      ensures sealed || closed ==> accepted == old(accepted)
      ensures sealed && old(Quiet()) ==> fh.data == old(fh.data)
    {
      hide Valid, Flat, Rest;
      left := budget;
      while queue != [] || flushing
        invariant Valid() && left <= budget
        invariant old(accepted) <= accepted && old(fh.data) <= fh.data
        invariant sealed || closed ==> accepted == old(accepted)
        invariant old(Quiet()) && sealed ==> Quiet() && fh.data == old(fh.data)
        decreases left, |queue|, flushing
      {
        if !flushing { StartBatch(); }
        BatchNotEmpty();
        var ok;
        ok, left := RunBatch(left);
      }
      QuietFile();
    }

    lemma QuietFile()
      requires Valid() && Quiet()
      ensures fh.data == before + Flat(accepted) && settled == |accepted| && size == nextOffset == |fh.data|
    {
      assert accepted[..|accepted|] == accepted;
      assert fh.data + [] == fh.data;
    }

    /** The next offset counts what is on disk, in flight and queued. */
    lemma NextOffsetCounts()
      requires Valid()
      ensures nextOffset == size + |Rest(bufs, off)| + queuedBytes
    {
      var n := |accepted| - |queue|;
      FlatSplit(accepted, n);
      assert accepted[n..] == queue by { assert accepted[settled..][n - settled..] == queue; }
      assert |fh.data + Rest(bufs, off)| == |before + Flat(accepted[..n])|;
    }

    /** The offset predicted for frame `i`. */
    ghost function Predicted(i: nat): nat
      reads this
      requires i <= |accepted|
    {
      |before| + |Flat(accepted[..i])|
    }

    /** A settled frame sits exactly at its predicted offset, and frames lie in append order. */
    lemma FrameSits(i: nat)
      requires Valid() && i < settled
      ensures Predicted(i + 1) == Predicted(i) + |accepted[i]| <= |fh.data|
      ensures fh.data[Predicted(i)..Predicted(i + 1)] == accepted[i]
    {
      SettledLanded();
      FlatSplit(accepted[..settled], i + 1);
      assert accepted[..settled][..i + 1] == accepted[..i + 1] == accepted[..i] + [accepted[i]];
      FlatOneMore(accepted[..i], accepted[i]);
      var rest := Flat(accepted[..settled][i + 1..]);
      Middle(fh.data, before, Flat(accepted[..i]), accepted[i], rest);
    }

    static lemma Middle(data: bytes, a: bytes, b: bytes, x: bytes, c: bytes)
      requires a + ((b + x) + c) <= data
      ensures |a| + |b| + |x| <= |data| && data[|a| + |b|..|a| + |b| + |x|] == x
    {
      var all := a + ((b + x) + c);
      assert all[|a| + |b|..|a| + |b| + |x|] == x;
      assert data[|a| + |b|..|a| + |b| + |x|] == all[|a| + |b|..|a| + |b| + |x|];
    }

    lemma SettledLanded()
      requires Valid()
      ensures before + Flat(accepted[..settled]) <= fh.data
    {
      LandedPrefix(fh.data, before, accepted, settled, batch, queue, bufs, off);
    }

    static lemma LandedPrefix(data: bytes, before: bytes, all: seq<bytes>, i: nat, batch: seq<bytes>, queue: seq<bytes>,
                              bufs: seq<bytes>, off: nat)
      requires i <= |all| && all[i..] == batch + queue && |bufs| <= |batch| && bufs == batch[|batch| - |bufs|..]
      requires data + Rest(bufs, off) == before + Flat(all[..|all| - |queue|])
      ensures before + Flat(all[..i]) <= data
    {
      hide Flat, Rest;
      Parts(all, i, batch, queue);
      FlatAppend(all[..i], batch);
      FlatSplit(batch, |batch| - |bufs|);
      RestIsEnd(bufs, off);
      PrefixOf(data, Rest(bufs, off), before, Flat(all[..i]), Flat(batch));
    }

    static lemma Parts(all: seq<bytes>, i: nat, batch: seq<bytes>, queue: seq<bytes>)
      requires i <= |all| && all[i..] == batch + queue
      ensures all[..|all| - |queue|] == all[..i] + batch
    {
      assert all == all[..i] + (batch + queue);
    }

    static lemma RestIsEnd(bufs: seq<bytes>, off: nat)
      ensures |Rest(bufs, off)| <= |Flat(bufs)|
    {
    }

    static lemma PrefixOf(data: bytes, rest: bytes, a: bytes, b: bytes, c: bytes)
      requires data + rest == a + (b + c) && |rest| <= |c|
      ensures a + b <= data
    {
      assert (data + rest)[..|a + b|] == a + b;
      assert data[..|a + b|] == (data + rest)[..|a + b|];
    }

    /** Recovery truncates a torn tail behind the WAL's back; then the bookkeeping starts afresh. */
    method RefreshSize(n: nat)
      requires Valid() && Quiet() && n <= |fh.data|
      modifies this`size, this`nextOffset, this`before, this`accepted, this`settled, fh
      ensures Valid() && Quiet() && fh.data == old(fh.data)[..n] && before == fh.data && accepted == []
    {
      fh.data := fh.data[..n];
      size := |fh.data|;
      nextOffset := |fh.data|;
      before, accepted, settled := fh.data, [], 0;
    }

    /** Flush, then take no more frames. */
    method Close(budget: nat)
      requires Valid()
      modifies this`nextOffset, this`queue, this`queuedBytes, this`accepted, this`closed
      modifies fh, this`size, this`bufs, this`off, this`flushing, this`batch, this`settled
      ensures Valid() && Quiet() && closed && fh.data == before + Flat(accepted)
      ensures accepted == old(accepted)
    {
      closed := true;
      assert Valid();
      hide Valid;
      var _ := Flush(budget);
    }
  }
}
