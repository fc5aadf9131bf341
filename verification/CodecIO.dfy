/** The loops of codec.ts: writing a frame through a moving offset, and scanning a file in chunks,
    each proved to compute what the byte layout says. */
module CodecIO {
  import opened Bytes
  import opened Scanner
  import opened Framing
  import opened Codec
  import Crc32

  /** Copy `s` into `a` at `o`; the result is the offset behind it. */
  method Put(a: array<byte>, o: nat, s: bytes) returns (end: nat)
    requires o + |s| <= a.Length
    modifies a
    ensures end == o + |s|
    ensures a[..end] == old(a[..o]) + s
  {
    forall i | 0 <= i < |s| { a[o + i] := s[i]; }
    end := o + |s|;
  }

  method PutHeader(a: array<byte>, r: Record) returns (o: nat)
    requires Encodable(r) && a.Length >= HEADER_SIZE
    modifies a
    ensures o == HEADER_SIZE && a[..o] == MAGIC + [r.typ, 0] + Sizes(r)
  {
    o := Put(a, 0, MAGIC);
    o := Put(a, o, [r.typ]);
    o := Put(a, o, [0]);
    assert a[..o] == MAGIC + [r.typ, 0];
    ghost var sizes := LE(|r.key|, 2) + LE(|r.value|, 4);
    o := Put(a, o, LE(|r.key|, 2));
    o := Put(a, o, LE(|r.value|, 4));
    assert a[..o] == MAGIC + [r.typ, 0] + sizes;
    o := Put(a, o, LE(|MetaBytes(r.meta)|, 4));
    o := Put(a, o, LE(ToPattern64(r.expireAt), 8));
    assert a[..o] == MAGIC + [r.typ, 0] + (sizes + LE(|MetaBytes(r.meta)|, 4) + LE(ToPattern64(r.expireAt), 8));
  }

  method PutBody(a: array<byte>, start: nat, r: Record) returns (o: nat)
    requires a.Length >= start + |Body(r)|
    modifies a
    ensures o == start + |Body(r)| && a[..o] == old(a[..start]) + Body(r)
  {
    ghost var head := a[..start];
    o := Put(a, start, r.key);
    o := Put(a, o, r.value);
    o := Put(a, o, MetaBytes(r.meta));
    assert a[..o] == head + (r.key + r.value + MetaBytes(r.meta));
  }

  /** encodeFrame: one buffer, written front to back; none past the limits of the format. */
  method EncodeFrame(r: Record) returns (frame: Option<array<byte>>)
    ensures frame.Some? <==> Encodable(r)
    ensures frame.Some? ==> fresh(frame.value) && frame.value[..] == Encoded(r)
  {
    if |r.key| > MAX_KEY_LEN { return None; }
    if |r.value| > MAX_VAL_LEN || |MetaBytes(r.meta)| > MAX_VAL_LEN { return None; }
    if !IsInt64(r.expireAt) { return None; }
    var a := new byte[HEADER_SIZE + |r.key| + |r.value| + |MetaBytes(r.meta)| + CRC_SIZE];
    var o := PutHeader(a, r);
    o := PutBody(a, o, r);
    ghost var written := a[..o];
    assert written == MAGIC + Checked(r);
    assert a[2..o] == written[2..] == Checked(r);
    o := Put(a, o, LE(Crc32.CrcValue(a[2..o]), 4));
    assert a[..] == a[..o];
    frame := Some(a);
  }

  // ---- Chunked reading ---------------------------------------------------------------------

  lemma CrcOfLonger(data: bytes, from: nat, pos: nat, end: nat)
    requires from <= pos <= end <= |data|
    ensures Crc32.Continue(Crc32.Crc(data[from..pos]), data[pos..end]) == Crc32.Crc(data[from..end])
  {
    Crc32.ContinueAppend(Crc32.Zeros(32), data[from..pos], data[pos..end]);
    assert data[from..pos] + data[pos..end] == data[from..end];
  }

  /** The checksum of data[from..end], read `chunk` bytes at a time. */
  method ChunkedCrc(data: bytes, from: nat, end: nat, chunk: nat) returns (crc: Crc32.Word)
    requires from <= end <= |data| && chunk > 0
    ensures crc == Crc32.Crc(data[from..end])
  {
    crc := Crc32.Zeros(32);
    var pos := from;
    assert crc == Crc32.Crc(data[from..pos]) by {
      assert data[from..from] == [];
      Crc32.ContinueNothing(crc);
    }
    while pos < end
      invariant from <= pos <= end
      invariant crc == Crc32.Crc(data[from..pos])
    {
      var next := if chunk < end - pos then pos + chunk else end;
      CrcOfLonger(data, from, pos, next);
      crc := Crc32.Continue(crc, data[pos..next]);
      pos := next;
    }
  }

  lemma ReadFrameAtFrom(data: bytes, pos: nat, h: bytes, len: nat)
    requires pos + HEADER_SIZE <= |data| && data[pos] == MAGIC[0] && data[pos + 1] == MAGIC[1]
    requires |h| == 18 && h == data[pos + 4..pos + 22]
    requires len == HEADER_SIZE + BodyLen(h) + CRC_SIZE
    ensures ReadFrame(data[pos..]) ==
                if pos + len > |data| then None
                else if FromLE(data[pos + len - CRC_SIZE..pos + len]) != Crc32.CrcValue(data[pos + 2..pos
                  + len - CRC_SIZE]) then None
                else Some(Decoded(ReadBody(data[pos + 2], h, data[pos + HEADER_SIZE..pos + len - CRC_SIZE]), len,
                  HEADER_SIZE + KeyLen(h)))
  {
    var s := data[pos..];
    SliceOfDrop(data, pos, 4, 22);
    if pos + len <= |data| {
      SliceOfDrop(data, pos, 2, len - CRC_SIZE);
      SliceOfDrop(data, pos, HEADER_SIZE, len - CRC_SIZE);
      SliceOfDrop(data, pos, len - CRC_SIZE, len);
      ReadFrameFrom(s, h, len, data[pos + 2..pos + len - CRC_SIZE], data[pos + HEADER_SIZE..pos + len - CRC_SIZE],
                    data[pos + len - CRC_SIZE..pos + len]);
    }
  }

  lemma NoHeaderNoFrame(data: bytes, pos: nat)
    requires pos <= |data|
    requires |data| - pos < HEADER_SIZE || data[pos] != MAGIC[0] || data[pos + 1] != MAGIC[1]
    ensures ReadFrame(data[pos..]).None?
  {
  }

  /** readFrameRefAt: the header first, then the checksum chunk by chunk, then the payload. */
  method ReadFrameRefAt(data: bytes, pos: nat, chunk: nat) returns (r: Option<Decoded>)
    requires pos <= |data| && chunk > 0
    ensures r == ReadFrame(data[pos..])
  {
    if |data| - pos < HEADER_SIZE || data[pos] != MAGIC[0] || data[pos + 1] != MAGIC[1] {
      NoHeaderNoFrame(data, pos);
      return None;
    }
    r := ReadRestAt(data, pos, data[pos + 4..pos + 22], chunk);
  }

  /** The checksum of a whole frame at `pos`, computed chunk by chunk. */
  method ChecksumMatches(data: bytes, pos: nat, len: nat, chunk: nat) returns (good: bool)
    requires HEADER_SIZE + CRC_SIZE <= len && pos + len <= |data| && chunk > 0
    ensures good <==>
      FromLE(data[pos + len - CRC_SIZE..pos + len]) == Crc32.CrcValue(data[pos + 2..pos + len - CRC_SIZE])
  {
    hide FromLE, Crc32.FromBits, Crc32.Crc, Crc32.Continue;
    var crc := ChunkedCrc(data, pos + 2, pos + len - CRC_SIZE, chunk);
    good := FromLE(data[pos + len - CRC_SIZE..pos + len]) == Crc32.FromBits(crc);
  }

  method ReadRestAt(data: bytes, pos: nat, h: bytes, chunk: nat) returns (r: Option<Decoded>)
    requires pos + HEADER_SIZE <= |data| && data[pos] == MAGIC[0] && data[pos + 1] == MAGIC[1] && chunk > 0
    requires |h| == 18 && h == data[pos + 4..pos + 22]
    ensures r == ReadFrame(data[pos..])
  {
    hide ReadFrame, ReadBody, FromLE, KeyLen, ValLen, MetaLen, Crc32.CrcValue;
    var len := HEADER_SIZE + BodyLen(h) + CRC_SIZE;
    ReadFrameAtFrom(data, pos, h, len);
    if |data| - pos < len { return None; }
    var good := ChecksumMatches(data, pos, len, chunk);
    if !good { return None; }
    var record := ReadBody(data[pos + 2], h, data[pos + HEADER_SIZE..pos + len - CRC_SIZE]);
    r := Some(Decoded(record, len, HEADER_SIZE + KeyLen(h)));
  }

  predicate MagicAt(s: bytes, p: int) { 0 <= p < |s| - 1 && s[p] == MAGIC[0] && s[p + 1] == MAGIC[1] }

  /** Buffer.indexOf(MAGIC). */
  function IndexOfMagic(s: bytes, from: nat): (p: int)
    ensures p >= 0 ==> p >= from && MagicAt(s, p) && forall q :: from <= q < p ==> !MagicAt(s, q)
    ensures p < 0 ==> p == -1 && forall q :: from <= q ==> !MagicAt(s, q)
    decreases |s| - from
  {
    if from + 1 >= |s| then -1 else if MagicAt(s, from) then from else IndexOfMagic(s, from + 1)
  }

  /** findMagicSync: chunks overlap by one byte, so a marker across a chunk border is not missed. */
  method FindMagic(data: bytes, start: nat, chunk: nat) returns (p: int)
    requires chunk >= 2
    ensures p >= 0 ==> p >= start && MagicAt(data, p) && forall q :: start <= q < p ==> !MagicAt(data, q)
    ensures p < 0 ==> p == -1 && forall q :: start <= q ==> !MagicAt(data, q)
  {
    var pos := start;
    while pos < |data|
      invariant start <= pos
      invariant forall q :: start <= q < pos ==> !MagicAt(data, q)
      decreases |data| - pos
    {
      var n := if chunk < |data| - pos then chunk else |data| - pos;
      var buf := data[pos..pos + n];
      forall q | pos <= q < pos + n - 1 ensures MagicAt(data, q) == MagicAt(buf, q - pos) {}
      var idx := IndexOfMagic(buf, 0);
      if idx >= 0 { return pos + idx; }
      forall q | pos <= q < pos + n - 1 ensures !MagicAt(data, q) { assert !MagicAt(buf, q - pos); }
      if n < |MAGIC| { break; }
      pos := pos + n - (|MAGIC| - 1);
    }
    p := -1;
  }

  datatype Ref = Ref(off: nat, frame: Decoded)

  ghost predicate LenIsRight(data: bytes, len: seq<nat>, p: nat)
    requires p < |data| == |len|
  {
    && (len[p] > 0 <==> ReadFrame(data[p..]).Some?)
    && (len[p] > 0 ==> MagicAt(data, p) && len[p] == ReadFrame(data[p..]).value.len)
  }

  ghost predicate LensAreRight(data: bytes, len: seq<nat>) {
    |len| == |data| && forall p: nat {:trigger LenIsRight(data, len, p)} :: p < |data| ==> LenIsRight(data, len, p)
  }

  lemma RecordLens(data: bytes)
    ensures LensAreRight(data, LenAt(RecordFormat(), data))
  {
    forall p: nat | p < |data| ensures LenIsRight(data, LenAt(RecordFormat(), data), p) {
      if ReadFrame(data[p..]).Some? { ReadFrameShape(data[p..]); }
    }
  }

  /** The first valid frame at or after `from`, or -1: jump from marker to marker. */
  method Resync(data: bytes, ghost len: seq<nat>, from: nat, crcChunk: nat, scanChunk: nat) returns (resume: int)
    requires LensAreRight(data, len)
    requires crcChunk > 0 && scanChunk >= 2 && from <= |data|
    ensures var next := NextValid(len, from); resume == if next == |data| then -1 else next
  {
    hide ReadFrame;
    var scan: int := from;
    while scan < |data| - 1
      invariant from <= scan
      invariant forall q :: from <= q < scan && q < |data| ==> len[q] == 0
      decreases |data| - scan
    {
      var found := FindMagic(data, scan, scanChunk);
      forall q: nat | scan <= q < |data| && (found < 0 || q < found) ensures len[q] == 0 {
        assert LenIsRight(data, len, q);
      }
      if found == -1 { return -1; }
      scan := found;
      assert LenIsRight(data, len, scan);
      var r := ReadFrameRefAt(data, scan, crcChunk);
      if r.Some? { return scan; }
      scan := scan + 1;
    }
    if from < |data| { assert LenIsRight(data, len, |data| - 1); }
    resume := -1;
  }

  /** The refs are the found ranges, each with the frame that is there. */
  ghost predicate Reported(data: bytes, refs: seq<Ref>, found: seq<(nat, nat)>) {
    && |refs| == |found|
    && forall i :: 0 <= i < |refs| ==>
         refs[i].off == found[i].0 <= |data| && ReadFrame(data[refs[i].off..]) == Some(refs[i].frame)
  }

  lemma ReportOne(data: bytes, refs: seq<Ref>, found: seq<(nat, nat)>, pos: nat, frame: Decoded)
    requires Reported(data, refs, found) && pos <= |data| && ReadFrame(data[pos..]) == Some(frame)
    ensures Reported(data, refs + [Ref(pos, frame)], found + [(pos, pos + frame.len)])
  {
  }

  lemma NothingReported(data: bytes)
    ensures Reported(data, [], [])
  {
  }

  method ScanLoop(data: bytes, ghost len: seq<nat>, start: nat, strict: bool, crcChunk: nat, scanChunk: nat)
      returns (refs: seq<Ref>, corrupt: seq<(nat, nat)>, eof: nat)
    requires LensAreRight(data, len)
    requires crcChunk > 0 && scanChunk >= 2
    ensures var r := ScanFrom(len, start, strict);
            Reported(data, refs, r.found) && corrupt == r.corrupt && eof == r.eof
  {
    hide ScanFrom, Continues, Reported, ReadFrame;
    ghost var all := ScanFrom(len, start, strict);
    ghost var found: seq<(nat, nat)> := [];
    var pos := start;
    refs, corrupt := [], [];
    ContinueStart(len, strict, start);
    NothingReported(data);
    while pos < |data|
      invariant Reported(data, refs, found)
      invariant Continues(len, strict, all, found, corrupt, pos)
      decreases |data| - pos
    {
      var r := ReadFrameRefAt(data, pos, crcChunk);
      assert LenIsRight(data, len, pos);
      if r.Some? {
        ContinueItem(len, strict, all, found, corrupt, pos);
        ReportOne(data, refs, found, pos, r.value);
        refs := refs + [Ref(pos, r.value)];
        found := found + [(pos, pos + r.value.len)];
        pos := pos + r.value.len;
      } else if strict {
        ContinueBadTail(len, strict, all, found, corrupt, pos);
        corrupt := corrupt + [(pos, |data|)];
        return refs, corrupt, pos;
      } else {
        var resume := Resync(data, len, pos + 1, crcChunk, scanChunk);
        if resume == -1 {
          ContinueBadTail(len, strict, all, found, corrupt, pos);
          corrupt := corrupt + [(pos, |data|)];
          return refs, corrupt, pos;
        }
        ContinueGap(len, all, found, corrupt, pos);
        corrupt := corrupt + [(pos, resume)];
        pos := resume;
      }
    }
    ContinueEnd(len, strict, all, found, corrupt, pos);
    eof := pos;
  }

  /** scanFrameRefsFd: equal to the scan of the whole buffer, for any chunk sizes. */
  method ScanFrameRefs(data: bytes, start: nat, strict: bool, crcChunk: nat, scanChunk: nat)
      returns (refs: seq<Ref>, corrupt: seq<(nat, nat)>, eof: nat)
    requires crcChunk > 0 && scanChunk >= 2
    ensures var r := ScanFrames(RecordFormat(), data, start, strict);
            Reported(data, refs, r.found) && corrupt == r.corrupt && eof == r.eof
  {
    RecordLens(data);
    refs, corrupt, eof := ScanLoop(data, LenAt(RecordFormat(), data), start, strict, crcChunk, scanChunk);
  }
}
