/** The tail copy of a compaction (compaction.ts): chunked copies with short reads and writes, the
    bounded pre-copy beside running writers, and the drain of a sealed WAL. */
module Rotation {
  import opened Bytes
  import opened Wal

  const COPY_CHUNK := 0x10_0000
  const SMALL_DELTA := 0x1_0000
  const MAX_PRECOPY_PASSES := 5

  function Min(a: nat, b: nat): nat { if a <= b then a else b }

  /** The bytes of a file from `start` to `end`, as far as there are any. */
  function Range(data: bytes, start: nat, end: nat): bytes {
    if start <= Min(end, |data|) then data[start..Min(end, |data|)] else []
  }

  lemma RangeSplit(data: bytes, a: nat, b: nat, c: nat)
    requires a <= b <= c && b <= |data|
    ensures Range(data, a, b) + Range(data, b, c) == Range(data, a, c)
  {
  }

  lemma RangeOfLonger(data: bytes, longer: bytes, a: nat, b: nat)
    requires data <= longer && b <= |data|
    ensures Range(longer, a, b) == Range(data, a, b)
  {
  }

  lemma RangeOfRange(data: bytes, start: nat, end: nat, pos: nat, n: nat)
    requires start <= pos && pos + n <= Min(end, |data|)
    ensures Range(data, start, pos) + data[pos..pos + n] == Range(data, start, pos + n)
  {
  }

  /** read: some of the bytes asked for, and none only at the end of the file. */
  method ReadSome(src: File, pos: nat, len: nat) returns (chunk: bytes)
    ensures chunk == Range(src.data, pos, pos + |chunk|) && |chunk| <= len
    ensures chunk == [] <==> len == 0 || pos >= |src.data|
  {
    if len == 0 || pos >= |src.data| { return []; }
    var n: int := *;
    if n <= 0 || n > Min(len, |src.data| - pos) { n := Min(len, |src.data| - pos); }
    chunk := src.data[pos..pos + n];
  }

  /** write: some of the bytes given; zero means that it made no progress. */
  method WriteSome(dst: File, chunk: bytes) returns (n: nat)
    requires chunk != []
    modifies dst
    ensures n <= |chunk| && dst.data == old(dst.data) + chunk[..n]
  {
    var landed: int := *;
    n := if 0 <= landed <= |chunk| then landed else |chunk|;
    dst.data := dst.data + chunk[..n];
  }

  method WriteAll(dst: File, chunk: bytes) returns (ok: bool)
    modifies dst
    ensures old(dst.data) <= dst.data
    ensures ok ==> dst.data == old(dst.data) + chunk
  {
    var written := 0;
    while written < |chunk|
      invariant 0 <= written <= |chunk| && dst.data == old(dst.data) + chunk[..written]
    {
      var n := WriteSome(dst, chunk[written..]);
      assert old(dst.data) + chunk[..written] + chunk[written..][..n] == old(dst.data) + chunk[..written + n];
      if n == 0 { return false; }
      written := written + n;
    }
    ok := true;
  }

  /** Whatever pieces are read and written, a copy that does not fail appends exactly the range. */
  method CopyFileRange(src: File, dst: File, start: nat, end: nat, append: bool) returns (ok: bool)
    requires src != dst
    modifies dst
    ensures end < start ==> !ok && dst.data == old(dst.data)
    ensures ok ==> dst.data == (if append then old(dst.data) else []) + Range(src.data, start, end)
  {
    hide Range;
    if end < start { return false; }
    if !append { dst.data := []; }
    ghost var base := dst.data;
    NothingYet(base, src.data, start);
    var pos := start;
    while pos < end
      invariant start <= pos <= end && (pos == start || pos <= |src.data|)
      invariant dst.data == base + Range(src.data, start, pos)
    {
      var chunk := ReadSome(src, pos, Min(COPY_CHUNK, end - pos));
      if chunk == [] { break; }
      ok := WriteAll(dst, chunk);
      if !ok { return false; }
      CopiedMore(base, src.data, start, end, pos, chunk);
      pos := pos + |chunk|;
    }
    AtEnd(src.data, start, end, pos);
    ok := true;
  }

  lemma CopiedMore(base: bytes, data: bytes, start: nat, end: nat, pos: nat, chunk: bytes)
    requires start <= pos < |data| && chunk == Range(data, pos, pos + |chunk|) && pos + |chunk| <= end
    ensures pos + |chunk| <= |data|
    ensures base + Range(data, start, pos) + chunk == base + Range(data, start, pos + |chunk|)
  {
    RangeOfRange(data, start, end, pos, |chunk|);
    assert base + Range(data, start, pos) + chunk == base + (Range(data, start, pos) + chunk);
  }

  lemma NothingYet(base: bytes, data: bytes, start: nat)
    ensures base + Range(data, start, start) == base
  {
  }

  lemma AtEnd(data: bytes, start: nat, end: nat, pos: nat)
    requires start <= pos <= end && (pos == end || pos >= |data|)
    ensures Range(data, start, pos) == Range(data, start, end)
  {
  }

  /** What a tail copy has reached. */
  ghost predicate Copied(tail: bytes, data: bytes, base: nat, upTo: nat, appended: bool) {
    && base <= upTo <= |data|
    && if appended then tail == Range(data, base, upTo) else upTo == base
  }

  lemma CopiedGrows(tail: bytes, data: bytes, longer: bytes, base: nat, upTo: nat, appended: bool)
    requires Copied(tail, data, base, upTo, appended) && data <= longer
    ensures Copied(tail, longer, base, upTo, appended)
  {
    RangeOfLonger(data, longer, base, upTo);
  }

  /** One pass of either loop. */
  method CopyDelta(wal: File, walTmp: File, base: nat, upTo: nat, appended: bool) returns (ok: bool)
    requires wal != walTmp && Copied(walTmp.data, wal.data, base, upTo, appended)
    modifies walTmp
    ensures ok ==> Copied(walTmp.data, wal.data, base, |wal.data|, true)
  {
    ok := CopyFileRange(wal, walTmp, upTo, |wal.data|, appended);
    RangeSplit(wal.data, base, upTo, |wal.data|);
    assert [] + Range(wal.data, upTo, |wal.data|) == Range(wal.data, upTo, |wal.data|);
  }

  /** Drain what landed since the fence while writers go on. Each pass after the first must have shrunk
      the gap to seven tenths; at most five passes are made. */
  method PreCopy(wal: WAL, walTmp: File, base: nat, budget: nat) returns (ok: bool, upTo: nat, appended: bool,
      left: nat)
    requires wal.Valid() && wal.fh != walTmp && base <= |wal.fh.data|
    modifies wal`nextOffset, wal`queue, wal`queuedBytes, wal`accepted
    modifies wal.fh, wal`size, wal`bufs, wal`off, wal`flushing, wal`batch, wal`settled
    modifies walTmp
    ensures wal.Valid() && left <= budget
    ensures old(wal.fh.data) <= wal.fh.data && old(wal.accepted) <= wal.accepted
    ensures ok ==> Copied(walTmp.data, wal.fh.data, base, upTo, appended)
  {
    hide Flat, Rest, WAL.Valid;
    upTo, appended, left, ok := base, false, budget, true;
    var prevGap := 0;
    var pass := 0;
    while pass < MAX_PRECOPY_PASSES
      invariant wal.Valid() && left <= budget && ok
      invariant old(wal.fh.data) <= wal.fh.data && old(wal.accepted) <= wal.accepted
      invariant Copied(walTmp.data, wal.fh.data, base, upTo, appended)
    {
      ghost var before := wal.fh.data;
      left := wal.Flush(left);
      CopiedGrows(walTmp.data, before, wal.fh.data, base, upTo, appended);
      var head := wal.size;
      var gap := head - upTo;
      if gap <= SMALL_DELTA { break; }
      if pass > 0 && gap * 10 > prevGap * 7 { break; }
      ok := CopyDelta(wal.fh, walTmp, base, upTo, appended);
      if !ok { return; }
      upTo, appended, prevGap := head, true, gap;
      pass := pass + 1;
    }
  }

  /** Drain the sealed WAL. Its head no longer moves after the first flush, so at most two turns are
      made, and the new file ends up with every byte behind the fence. */
  method Drain(wal: WAL, walTmp: File, base: nat, from: nat, copied: bool, budget: nat) returns (ok: bool)
    requires wal.Valid() && wal.sealed && wal.fh != walTmp && Copied(walTmp.data, wal.fh.data, base, from, copied)
    modifies wal`nextOffset, wal`queue, wal`queuedBytes, wal`accepted
    modifies wal.fh, wal`size, wal`bufs, wal`off, wal`flushing, wal`batch, wal`settled
    modifies walTmp
    ensures wal.Valid() && old(wal.fh.data) <= wal.fh.data && wal.accepted == old(wal.accepted)
    ensures ok ==> wal.Quiet() && wal.fh.data == wal.before + Flat(wal.accepted)
    ensures ok ==> walTmp.data == wal.fh.data[base..]
  {
    hide Flat, Rest, WAL.Valid;
    var upTo, appended := from, copied;
    ghost var turns := 0;
    while true
      invariant wal.Valid() && turns <= 1 && wal.accepted == old(wal.accepted) && old(wal.fh.data) <= wal.fh.data
      invariant Copied(walTmp.data, wal.fh.data, base, upTo, appended)
      invariant turns == 1 ==> wal.Quiet() && appended && upTo == |wal.fh.data|
      decreases 1 - turns
    {
      ghost var before := wal.fh.data;
      var _ := wal.Flush(budget);
      CopiedGrows(walTmp.data, before, wal.fh.data, base, upTo, appended);
      var end := wal.size;
      if end == upTo && appended { return true; }
      ok := CopyDelta(wal.fh, walTmp, base, upTo, appended);
      if !ok { return; }
      upTo, appended := end, true;
      turns := turns + 1;
    }
  }

  /** The whole tail copy: pre-copy, seal, drain, close. Nothing can land in the old WAL afterwards, so
      the new WAL file has every frame behind the fence that was ever accepted. */
  method CopyTail(wal: WAL, walTmp: File, base: nat, budget: nat) returns (ok: bool)
    requires wal.Valid() && wal.fh != walTmp && base <= |wal.fh.data|
    modifies wal, wal.fh, walTmp
    ensures wal.Valid() && old(wal.fh.data) <= wal.fh.data
    ensures ok ==> wal.sealed && wal.closed && wal.Quiet() && wal.fh.data == wal.before + Flat(wal.accepted)
    ensures ok ==> walTmp.data == wal.fh.data[base..]
  {
    hide Flat;
    var upTo, appended, left;
    ok, upTo, appended, left := PreCopy(wal, walTmp, base, budget);
    if !ok { return; }
    wal.Seal();
    ok := Drain(wal, walTmp, base, upTo, appended, left);
    if !ok { return; }
    wal.Close(left);
  }
}
