/** What recovery loads (recovery.ts): the fold over the frames it finds means the replay of their ops, and
    every pointer it makes finds the value of its record. */
module Loading {
  import opened Bytes
  import opened Scanner
  import opened Framing
  import opened Codec
  import opened BatchCodec
  import opened CodecIO
  import opened Replay
  import opened Commands
  import opened Durability
  import opened LogFacts
  import opened StoreFacts

  // ---- The ops that are loaded -------------------------------------------------------------------

  function OpsOf(ps: seq<Placed>): seq<Op> { if ps == [] then [] else [ps[0].op] + OpsOf(ps[1..]) }

  lemma {:induction false} OpsOfAppend(a: seq<Placed>, b: seq<Placed>)
    ensures OpsOf(a + b) == OpsOf(a) + OpsOf(b) && |OpsOf(a)| == |a|
  {
    if a == [] {
      assert a + b == b && [] + OpsOf(b) == OpsOf(b);
    } else {
      assert (a + b)[1..] == a[1..] + b;
      OpsOfAppend(a[1..], b);
      Join([a[0].op], OpsOf(a[1..]), OpsOf(b));
    }
  }

  lemma Join<T>(a: seq<T>, b: seq<T>, c: seq<T>)
    ensures a + (b + c) == (a + b) + c
  {
  }

  lemma PlacedRecordOps(r: Record, off: nat, src: Source, born: int)
    ensures OpsOf(PlacedRecord(r, off, src, born)) == OpsOfRecord(r)
  {
    var ps := PlacedRecord(r, off, src, born);
    if ps != [] { assert ps[1..] == []; }
  }

  lemma {:induction false} PlacedRecordsOps(rs: seq<Record>, o: nat, src: Source, born: int)
    ensures OpsOf(PlacedRecords(rs, PlaceOps(rs, o), src, born)) == OpsOfBatch(rs)
    decreases rs
  {
    hide PlacedRecord, OpsOfRecord, OpLen;
    if rs != [] {
      var rest := PlacedRecords(rs[1..], PlaceOps(rs[1..], o + OpLen(rs[0])), src, born);
      assert PlaceOps(rs, o)[1..] == PlaceOps(rs[1..], o + OpLen(rs[0]));
      PlacedRecordOps(rs[0], PlaceOps(rs, o)[0], src, born);
      PlacedRecordsOps(rs[1..], o + OpLen(rs[0]), src, born);
      OpsOfAppend(PlacedRecord(rs[0], PlaceOps(rs, o)[0], src, born), rest);
    }
  }

  lemma PlacedFrameOps(d: Decoded, at: nat, src: Source, born: int)
    ensures OpsOf(PlacedFrame(d, at, src, born)) == FrameOps(d.record)
  {
    hide PlacedRecord, OpsOfRecord, PlacedRecords, OpsOfBatch, PlaceOps, DecodeBatch;
    if d.record.typ == TYPE_BATCH {
      match DecodeBatch(d.record.value)
      case None =>
      case Some(rs) => PlacedRecordsOps(rs, at + d.valueOff + 2, src, born);
    } else {
      PlacedRecordOps(d.record, at + d.valueOff, src, born);
    }
  }

  /** The ops recovery loads from a file are those of the records that a scan of the file reports. */
  lemma {:induction false} PlacedAtOps(data: bytes, found: seq<(nat, nat)>, src: Source, born: int)
    ensures OpsOf(PlacedAt(data, found, src, born)) == OpsOfFrames(RecordsAt(RecordFormat(), data, found))
    decreases found
  {
    hide PlacedFrame, FrameOps, RecordFormat, ReadFrame;
    if found != [] {
      var at := found[0].0;
      PlacedAtOps(data, found[1..], src, if src.inSnap then born else born + 1);
      PlacedAtOps(data, found[1..], src, born);
      if at <= |data| {
        DecOfFormat(data[at..]);
        if ReadFrame(data[at..]).Some? {
          var d, rest := ReadFrame(data[at..]).value,
            PlacedAt(data, found[1..], src, if src.inSnap then born else born + 1);
          PlacedFrameOps(d, at, src, born);
          OpsOfAppend(PlacedFrame(d, at, src, born), rest);
          assert ([d.record] + RecordsAt(RecordFormat(), data, found[1..]))[1..]
            == RecordsAt(RecordFormat(), data, found[1..]);
        }
      }
    }
  }

  lemma PlacedOpsAre(snapshot: bytes, wal: bytes, strict: bool, disk: bool, start: nat)
    ensures OpsOf(PlacedOps(snapshot, wal, strict, disk, start)) == RecoveredOps(snapshot, wal, strict)
    ensures |PlacedOps(snapshot, wal, strict, disk, start)| == |RecoveredOps(snapshot, wal, strict)|
  {
    hide ScanFrames, RecordFormat, PlacedAt, OpsOf, OpsOfFrames, RecordsAt;
    PlacedAtOps(snapshot, ScanFrames(RecordFormat(), snapshot, 0, strict).found, Source(true, disk), -1);
    PlacedAtOps(wal, ScanFrames(RecordFormat(), wal, 0, strict).found, Source(false, disk), start);
    var a, b := PlacedIn(snapshot, strict, Source(true, disk), -1), PlacedIn(wal, strict, Source(false, disk), start);
    OpsOfAppend(a, b);
    OpsOfAppend(a + b, []);
  }

  // ---- Loading is replaying ----------------------------------------------------------------------

  lemma LoadOpIsApply(m: Mem, p: Placed, now: int)
    ensures Entries(LoadOp(m, p, now).store) == Apply(Entries(m.store), Replayed(p.op, now))
  {
  }

  lemma {:induction false} LoadIsReplay(m: Mem, ps: seq<Placed>, clock: seq<int>)
    requires |clock| == |ps| == |OpsOf(ps)|
    ensures Entries(LoadOps(m, ps, clock).store) == ReplayOps(Entries(m.store), OpsOf(ps), clock)
    decreases ps
  {
    hide LoadOp, Apply, Replayed, Entries;
    if ps != [] {
      LoadOpIsApply(m, ps[0], clock[0]);
      OpsOfAppend(ps[1..], []);
      assert OpsOf(ps)[1..] == OpsOf(ps[1..]) && OpsOf(ps)[0] == ps[0].op;
      LoadIsReplay(LoadOp(m, ps[0], clock[0]), ps[1..], clock[1..]);
    }
  }

  /** The store recovery loads has exactly the entries that replaying gives. */
  lemma LoadedEntries(s: Db, strict: bool, disk: bool, clock: seq<int>)
    requires s.start <= |s.hist| && |clock| == |RecoveredOps(EncAll(s.diskSnap), DiskWal(s), strict)|
    ensures Entries(Loaded(s, strict, disk, clock).store) == Recover(EncAll(s.diskSnap), DiskWal(s), strict, clock)
  {
    hide EncAll, DiskWal, PlacedOps, RecoveredOps, LoadOps, ReplayOps, OpsOf, StartAfter;
    PlacedOpsAre(EncAll(s.diskSnap), DiskWal(s), strict, disk, StartAfter(s));
    LoadIsReplay(Mem(map[], {}, 0), PlacedOps(EncAll(s.diskSnap), DiskWal(s), strict, disk, StartAfter(s)), clock);
    NoEntries();
  }

  lemma NoEntries()
    ensures Entries(map[]) == map[]
  {
  }

  // ---- Every value lies where its pointer says ---------------------------------------------------

  /** The frame a record is said to come from; what a snapshot holds comes from none. */
  function Born(src: Source, i: nat): int { if src.inSnap then -1 else i }

  /** The op was placed by frame `i` of a log, and its value lies inside that frame. */
  ghost predicate PlacedBy(p: Placed, src: Source, hist: seq<Record>, start: nat, i: nat) {
    && start <= i < |hist| && p.born == Born(src, i)
    && (p.op.Set? ==>
          if src.disk then
            p.ref.Disk? && p.ref.loc.inSnap == src.inSnap && p.ref.loc.len == |p.op.entry.value|
            && InFrame(p.op.entry.value, p.ref.loc.off, i, hist, start)
          else p.ref == Memory)
  }

  /** The same within the bytes `e` of one frame at `at`. */
  ghost predicate InBytes(p: Placed, src: Source, e: bytes, at: nat, born: int) {
    && p.born == born
    && (p.op.Set? ==>
          if src.disk then
            p.ref.Disk? && p.ref.loc.inSnap == src.inSnap && p.ref.loc.len == |p.op.entry.value|
            && p.ref.loc.off >= at && HoldsAt(e, p.op.entry.value, p.ref.loc.off - at)
          else p.ref == Memory)
  }

  ghost predicate AllInBytes(ps: seq<Placed>, src: Source, e: bytes, at: nat, born: int) {
    forall p :: p in ps ==> InBytes(p, src, e, at, born)
  }

  /** A decoded batch op: its length, and where in it its value lies. */
  lemma DecodedOpShape(s: bytes)
    requires DecodeOp(s).Some?
    ensures var (r, end) := DecodeOp(s).value;
            && end == OpLen(r) <= |s| && SUB_HEADER + |r.key| + |r.value| <= end
            && s[SUB_HEADER + |r.key|..SUB_HEADER + |r.key| + |r.value|] == r.value
  {
    hide FromLE, FromPattern64, Body, ReadBody, KeyLen, ValLen, MetaLen;
    var h := s[1..SUB_HEADER];
    var body := s[SUB_HEADER..SUB_HEADER + BodyLen(h)];
    ReadBodyLens(s[0], h, body);
    ReadBodyValue(s[0], h, body);
    SliceOfSlice(s, SUB_HEADER, SUB_HEADER + BodyLen(h), KeyLen(h), KeyLen(h) + ValLen(h));
  }

  lemma ReadBodyValue(typ: byte, h: bytes, s: bytes)
    requires |h| == 18 && |s| == BodyLen(h)
    ensures ReadBody(typ, h, s).value == s[KeyLen(h)..KeyLen(h) + ValLen(h)]
    ensures KeyLen(h) + ValLen(h) <= BodyLen(h)
  {
    hide FromLE;
  }

  /** The values of decoded batch ops lie where the lengths before them put them, for arbitrary bytes. */
  lemma {:induction false} BatchOpsPlaced(head: bytes, s: bytes, tail: bytes, n: nat, at: nat, src: Source, born: int)
    requires DecodeOps(s, n).Some? && tail != []
    ensures AllInBytes(PlacedRecords(DecodeOps(s, n).value, PlaceOps(DecodeOps(s, n).value, at + |head|), src, born),
      src,
                       head + (s + tail), at, born)
    decreases n
  {
    hide DecodeOp, HoldsAt, OpLen, PlacedRecord;
    if n > 0 {
      var (r, end) := DecodeOp(s).value;
      DecodedOpShape(s);
      var first, rest := s[..end], s[end..];
      assert s == first + rest;
      Shift(head, first, rest, tail);
      BatchOpsPlaced(head + first, rest, tail, n - 1, at, src, born);
      var rs := DecodeOps(s, n).value;
      assert rs[1..] == DecodeOps(rest, n - 1).value;
      assert PlaceOps(rs, at + |head|)[1..] == PlaceOps(rs[1..], at + |head| + OpLen(r));
      OnePlaced(head, s, tail, r, at, src, born);
    }
  }

  lemma OnePlaced(head: bytes, s: bytes, tail: bytes, r: Record, at: nat, src: Source, born: int)
    requires SUB_HEADER + |r.key| + |r.value| <= |s| && tail != []
    requires s[SUB_HEADER + |r.key|..SUB_HEADER + |r.key| + |r.value|] == r.value
    ensures AllInBytes(PlacedRecord(r, at + |head| + SUB_HEADER + |r.key|, src, born), src, head + (s + tail), at, born)
  {
    var o := SUB_HEADER + |r.key|;
    ReadAtLonger(s, tail, o, |r.value|);
    ReadAtBehind(head, s + tail, o, |r.value|);
    assert HoldsAt(head + (s + tail), r.value, |head| + o);
  }

  /** A frame as it is read back, at `at`: every pointer made of it finds its value in the frame. */
  lemma FramePlaced(r: Record, at: nat, src: Source, born: int)
    requires FrameOk(r)
    ensures AllInBytes(PlacedFrame(Decoded(r, |Enc(r)|, HEADER_SIZE + |r.key|), at, src, born), src, Enc(r), at, born)
  {
    hide Body, HeadOf, PlacedRecord, PlacedRecords, DecodeOps, PlaceOps, HoldsAt, InBytes, Checked, Encoded;
    var crc := HeadThenBody(r);
    var head := HeadOf(r);
    if r.typ == TYPE_BATCH {
      if DecodeBatch(r.value).Some? { BatchFramePlaced(r, head, crc, at, src, born); }
    } else {
      OneHoldsValue(head, r, crc);
      RecordInBytes(r, Enc(r), at, HEADER_SIZE + |r.key|, src, born);
    }
  }

  lemma RecordInBytes(r: Record, e: bytes, at: nat, o: nat, src: Source, born: int)
    requires HoldsAt(e, r.value, o)
    ensures AllInBytes(PlacedRecord(r, at + o, src, born), src, e, at, born)
  {
    hide HoldsAt;
  }

  lemma BatchFramePlaced(r: Record, head: bytes, crc: bytes, at: nat, src: Source, born: int)
    requires |head| == HEADER_SIZE && crc != [] && DecodeBatch(r.value).Some?
    ensures var rs := DecodeBatch(r.value).value;
            AllInBytes(PlacedRecords(rs, PlaceOps(rs, at + HEADER_SIZE + |r.key| + 2), src, born), src,
              head + (Body(r) + crc), at, born)
  {
    hide DecodeOps, PlaceOps, PlacedRecords, InBytes;
    if |r.value| < 2 {
      NonePlaced(at + HEADER_SIZE + |r.key| + 2, src, head + (Body(r) + crc), at, born);
    } else {
      var count, ops, tail := r.value[..2], r.value[2..], MetaBytes(r.meta) + crc;
      assert r.value == count + ops;
      BodyParts(head, r, count, ops, crc);
      BatchOpsPlaced(head + r.key + count, ops, tail, FromLE(count), at, src, born);
    }
  }

  lemma NonePlaced(o: nat, src: Source, e: bytes, at: nat, born: int)
    ensures AllInBytes(PlacedRecords([], PlaceOps([], o), src, born), src, e, at, born)
  {
  }

  lemma BodyParts(head: bytes, r: Record, count: bytes, ops: bytes, crc: bytes)
    requires r.value == count + ops
    ensures head + (Body(r) + crc) == (head + r.key + count) + (ops + (MetaBytes(r.meta) + crc))
  {
    var l, m := head + (r.key + (count + ops) + MetaBytes(r.meta) + crc), MetaBytes(r.meta);
    assert Body(r) == r.key + (count + ops) + m;
    assert l == (head + r.key + count) + (ops + (m + crc));
  }

  /** A value inside a frame lies inside the log. */
  lemma FrameHolds(hist: seq<Record>, start: nat, i: nat, value: bytes, o: nat)
    requires start <= i < |hist| && HoldsAt(Enc(hist[i]), value, o)
    ensures InFrame(value, OffsetOf(hist, start, i) + o, i, hist, start)
  {
    hide Enc, EncAll, ReadAt;
    assert hist[start..i + 1] == hist[start..i] + [hist[i]];
    EncAllAppend(hist[start..i], [hist[i]]);
    OneEncoded(hist[i]);
    LogSplitAt(hist, start, i + 1);
    HoldsBehind(EncAll(hist[start..i]), Enc(hist[i]), value, o);
    HoldsLonger(EncAll(hist[start..i + 1]), EncAll(hist[i + 1..]), value, OffsetOf(hist, start, i) + o);
  }

  lemma OneEncoded(r: Record)
    ensures EncAll([r]) == Enc(r)
  {
    assert [r][1..] == [] && Enc(r) + [] == Enc(r);
  }

  lemma FrameReadsBack(r: Record, rest: bytes)
    requires FrameOk(r)
    ensures ReadFrame(Enc(r) + rest) == Some(Decoded(r, |Enc(r)|, HEADER_SIZE + |r.key|))
  {
    hide ReadFrame, Encoded;
    FrameRoundTrip(r, rest);
  }

  ghost predicate AllPlaced(ps: seq<Placed>, src: Source, hist: seq<Record>, start: nat) {
    forall p :: p in ps ==> exists i: nat :: PlacedBy(p, src, hist, start, i)
  }

  /** Loading a log from frame `i` on, where it sits in the file. */
  lemma {:induction false} LogPlaced(hist: seq<Record>, start: nat, i: nat, torn: bytes, src: Source)
    requires FramesOk(hist) && start <= i <= |hist|
    ensures AllPlaced(PlacedAt(EncAll(hist[start..]) + torn,
      Layout(RecordFormat(), OffsetOf(hist, start, i), hist[i..]), src,
                               Born(src, i)), src, hist, start)
    decreases |hist| - i
  {
    hide EncAll, Enc, FramesOk, FrameOk, PlacedFrame, ReadFrame, RecordFormat, HoldsAt, OffsetOf;
    var data, at := EncAll(hist[start..]) + torn, OffsetOf(hist, start, i);
    var born := Born(src, i);
    if i < |hist| {
      LogFrameAt(hist, start, i, torn);
      var d := Decoded(hist[i], |Enc(hist[i])|, HEADER_SIZE + |hist[i].key|);
      FramePlaced(hist[i], at, src, born);
      InLog(PlacedFrame(d, at, src, born), src, hist, start, i);
      LogPlaced(hist, start, i + 1, torn, src);
      var layout := Layout(RecordFormat(), at, hist[i..]);
      assert layout[1..] == Layout(RecordFormat(), OffsetOf(hist, start, i + 1), hist[i + 1..]);
      AllPlacedBoth(PlacedFrame(d, at, src, born), PlacedAt(data, layout[1..], src, Born(src, i + 1)), src, hist,
        start);
    }
  }

  lemma AllPlacedBoth(a: seq<Placed>, b: seq<Placed>, src: Source, hist: seq<Record>, start: nat)
    requires AllPlaced(a, src, hist, start) && AllPlaced(b, src, hist, start)
    ensures AllPlaced(a + b, src, hist, start)
  {
  }

  lemma InLog(ps: seq<Placed>, src: Source, hist: seq<Record>, start: nat, i: nat)
    requires start <= i < |hist| && AllInBytes(ps, src, Enc(hist[i]), OffsetOf(hist, start, i), Born(src, i))
    ensures AllPlaced(ps, src, hist, start)
  {
    hide Enc, EncAll, HoldsAt, OffsetOf, InFrame;
    forall p | p in ps ensures PlacedBy(p, src, hist, start, i) {
      assert InBytes(p, src, Enc(hist[i]), OffsetOf(hist, start, i), Born(src, i));
      if p.op.Set? && src.disk {
        FrameHolds(hist, start, i, p.op.entry.value, p.ref.loc.off - OffsetOf(hist, start, i));
      }
    }
  }

  /** What a reader finds at the place of frame `i`. */
  lemma LogFrameAt(hist: seq<Record>, start: nat, i: nat, torn: bytes)
    requires FramesOk(hist) && start <= i < |hist|
    ensures var data, at := EncAll(hist[start..]) + torn, OffsetOf(hist, start, i);
            && at <= |data| && FrameOk(hist[i])
            && ReadFrame(data[at..]) == Some(Decoded(hist[i], |Enc(hist[i])|, HEADER_SIZE + |hist[i].key|))
            && hist[i..][1..] == hist[i + 1..] && hist[i..][0] == hist[i]
            && OffsetOf(hist, start, i + 1) == at + |Enc(hist[i])| && |RecordFormat().enc(hist[i])| == |Enc(hist[i])|
  {
    hide EncAll, Enc, FramesOk, FrameOk, ReadFrame;
    assert FrameOk(hist[i]) by { FramesOkAt(hist, i); }
    LogSplitAt(hist, start, i);
    LogSplitAt(hist, i, i + 1);
    assert hist[i..i + 1] == [hist[i]];
    OneEncoded(hist[i]);
    assert hist[start..i + 1] == hist[start..i] + [hist[i]];
    EncAllAppend(hist[start..i], [hist[i]]);
    var pre, e, rest := EncAll(hist[start..i]), Enc(hist[i]), EncAll(hist[i + 1..]);
    DropFront(pre, e, rest, torn);
    FrameReadsBack(hist[i], rest + torn);
    EncOfFormat(hist[i]);
  }

  lemma EncOfFormat(r: Record)
    ensures RecordFormat().enc(r) == Enc(r)
  {
  }

  lemma DropFront(a: bytes, b: bytes, c: bytes, d: bytes)
    ensures ((a + (b + c)) + d)[|a|..] == b + (c + d)
  {
  }

  lemma FramesOkAt(hist: seq<Record>, i: nat)
    requires FramesOk(hist) && i < |hist|
    ensures FrameOk(hist[i])
  {
    hide FrameOk;
    FramesOkSlice(hist, i, i + 1);
    assert hist[i..i + 1] == [hist[i]];
  }

  /** Every pointer recovery makes of a log finds its value. */
  lemma LogLoaded(hist: seq<Record>, start: nat, torn: bytes, strict: bool, src: Source)
    requires FramesOk(hist) && start <= |hist|
    requires torn == [] || (Torn(RecordFormat(), torn) && (strict || Barren(RecordFormat(), torn)))
    ensures AllPlaced(PlacedIn(EncAll(hist[start..]) + torn, strict, src, Born(src, start)), src, hist, start)
  {
    hide EncAll, FramesOk, Torn, Barren, RecordFormat, PlacedAt, ScanFrames, Layout, EncodeAll, AllPlaced, Lawful;
    var f, rs := RecordFormat(), hist[start..];
    FramesOkSlice(hist, start, |hist|);
    assert hist[start..|hist|] == rs;
    GoodFrames(rs);
    CodecIsLawful();
    EncAllIsEncodeAll(rs);
    assert [] + EncodeAll(f, rs) == EncAll(rs);
    if strict { StrictScanOfLog(f, [], rs, torn); } else { ResyncScanOfLog(f, [], rs, torn); BarrenNothing(torn); }
    LogPlaced(hist, start, start, torn, src);
    OffsetEnds(hist, start);
  }

  lemma BarrenNothing(torn: bytes)
    ensures torn == [] ==> Barren(RecordFormat(), torn)
  {
  }

  // ---- The loaded store --------------------------------------------------------------------------

  ghost predicate GoodPlace(p: Placed, snap: bytes, hist: seq<Record>, start: nat) {
    p.op.Set? ==> LoadedRight(Rec(p.op.entry, p.ref, 0, p.born), snap, hist, start)
  }

  ghost predicate StoreLoaded(m: Mem, snap: bytes, hist: seq<Record>, start: nat) {
    forall k :: k in m.store ==> m.store[k].stamp < m.nextStamp && LoadedRight(m.store[k], snap, hist, start)
  }

  lemma {:induction false} LoadKeepsPlaces(m: Mem, ps: seq<Placed>, clock: seq<int>, snap: bytes, hist: seq<Record>,
      start: nat)
    requires StoreLoaded(m, snap, hist, start) && forall p :: p in ps ==> GoodPlace(p, snap, hist, start)
    ensures StoreLoaded(LoadOps(m, ps, clock), snap, hist, start)
    decreases ps
  {
    hide HoldsAt, InFrame;
    if ps != [] && clock != [] {
      assert GoodPlace(ps[0], snap, hist, start);
      LoadKeepsPlaces(LoadOp(m, ps[0], clock[0]), ps[1..], clock[1..], snap, hist, start);
    }
  }

  lemma SnapshotPlaces(snap: seq<Record>, hist: seq<Record>, start: nat, strict: bool, disk: bool)
    requires FramesOk(snap)
    ensures forall p :: p in PlacedIn(EncAll(snap), strict, Source(true, disk), -1) ==>
      GoodPlace(p, EncAll(snap), hist, start)
  {
    hide EncAll, FramesOk, PlacedIn, HoldsAt, OffsetOf;
    LogLoaded(snap, 0, [], strict, Source(true, disk));
    assert snap[0..] == snap && EncAll(snap) + [] == EncAll(snap);
  }

  lemma WalPlaces(snap: bytes, hist: seq<Record>, start: nat, torn: bytes, strict: bool, disk: bool)
    requires FramesOk(hist) && start <= |hist|
    requires torn == [] || (Torn(RecordFormat(), torn) && (strict || Barren(RecordFormat(), torn)))
    ensures forall p :: p in PlacedIn(EncAll(hist[start..]) + torn, strict, Source(false, disk), start) ==>
      GoodPlace(p, snap, hist, start)
  {
    hide EncAll, FramesOk, PlacedIn, HoldsAt, OffsetOf, InFrame, Torn, Barren, RecordFormat;
    LogLoaded(hist, start, torn, strict, Source(false, disk));
  }

  // ---- The loops of recovery ---------------------------------------------------------------------

  lemma {:induction false} LoadAppend(m: Mem, a: seq<Placed>, b: seq<Placed>, c: seq<int>, d: seq<int>)
    requires |c| == |a|
    ensures LoadOps(m, a + b, c + d) == LoadOps(LoadOps(m, a, c), b, d)
    decreases a
  {
    hide LoadOp;
    if a == [] {
      assert a + b == b && c + d == d;
    } else {
      assert (a + b)[1..] == a[1..] + b && (c + d)[1..] == c[1..] + d;
      LoadAppend(LoadOp(m, a[0], c[0]), a[1..], b, c[1..], d);
    }
  }

  /** The moments at which ops were loaded: one for each, none before `started` or after `now`. */
  ghost predicate Moments(clock: seq<int>, n: nat, started: int, now: int) {
    started <= now && |clock| == n && forall i :: 0 <= i < |clock| ==> started <= clock[i] <= now
  }

  lemma MomentsJoin(a: seq<int>, m: nat, b: seq<int>, n: nat, started: int, mid: int, now: int)
    requires Moments(a, m, started, mid) && Moments(b, n, mid, now)
    ensures Moments(a + b, m + n, started, now)
  {
  }

  /** store.setRef or store.del, unless the record has expired by now. */
  method LoadRecord(m: Mem, r: Record, off: nat, src: Source, born: int, started: int)
      returns (out: Mem, now: int, ghost clock: seq<int>)
    ensures Moments(clock, |PlacedRecord(r, off, src, born)|, started, now)
    ensures out == LoadOps(m, PlacedRecord(r, off, src, born), clock)
  {
    out, now, clock := m, started, [];
    if r.typ == TYPE_SET {
      now :| now >= started;
      clock := [now];
      var entry := Entry(r.value, r.meta, r.expireAt);
      if r.expireAt != 0 && r.expireAt <= now {
        out := m.(store := m.store - {r.key});
      } else {
        var ref := if src.disk then Disk(Loc(src.inSnap, off, |r.value|)) else Memory;
        out := m.(store := m.store[r.key := Rec(entry, ref, m.nextStamp, born)], nextStamp := m.nextStamp + 1);
      }
    } else if r.typ == TYPE_DEL {
      clock := [now];
      out := m.(store := m.store - {r.key});
    }
    OneLoaded(m, PlacedRecord(r, off, src, born), clock);
  }

  lemma OneLoaded(m: Mem, ps: seq<Placed>, clock: seq<int>)
    requires |ps| == |clock| <= 1
    ensures LoadOps(m, ps, clock) == if ps == [] then m else LoadOp(m, ps[0], clock[0])
  {
    if ps != [] { assert ps[1..] == []; }
  }

  lemma {:induction false} PlacedSnoc(rs: seq<Record>, offs: seq<nat>, i: nat, src: Source, born: int)
    requires i < |rs| == |offs|
    ensures PlacedRecords(rs[..i + 1], offs[..i + 1], src, born)
            == PlacedRecords(rs[..i], offs[..i], src, born) + PlacedRecord(rs[i], offs[i], src, born)
    decreases i
  {
    hide PlacedRecord;
    if i == 0 {
      assert rs[..1][1..] == [] && rs[..1][0] == rs[0] && offs[..1][0] == offs[0];
    } else {
      assert rs[..i + 1][1..] == rs[1..][..i] && offs[..i + 1][1..] == offs[1..][..i];
      assert rs[..i][1..] == rs[1..][..i - 1] && offs[..i][1..] == offs[1..][..i - 1];
      PlacedSnoc(rs[1..], offs[1..], i - 1, src, born);
      Join(PlacedRecord(rs[0], offs[0], src, born), PlacedRecords(rs[1..][..i - 1], offs[1..][..i - 1], src, born),
           PlacedRecord(rs[i], offs[i], src, born));
    }
  }

  /** The ops of a batch, each with the place scanBatchOpRefs gives its value. */
  method LoadBatch(m: Mem, body: bytes, bodyOff: nat, src: Source, born: int, started: int)
      returns (out: Mem, now: int, ghost clock: seq<int>)
    ensures var ps := match DecodeBatch(body) case None => []
                      case Some(rs) => PlacedRecords(rs, PlaceOps(rs, bodyOff + 2), src, born);
            Moments(clock, |ps|, started, now) && out == LoadOps(m, ps, clock)
  {
    hide DecodeOps, PlacedRecord, LoadOps, PlaceOps;
    out, now, clock := m, started, [];
    NothingLoaded(m);
    var refs := ScanBatchOpRefs(body, bodyOff);
    if refs.None? { return; }
    ghost var rs := DecodeBatch(body).value;
    ghost var offs := PlaceOps(rs, bodyOff + 2);
    NonePlacedYet(rs, offs, src, born);
    for i := 0 to |refs.value|
      invariant Moments(clock, |PlacedRecords(rs[..i], offs[..i], src, born)|, started, now)
      invariant out == LoadOps(m, PlacedRecords(rs[..i], offs[..i], src, born), clock)
    {
      var ref := refs.value[i];
      assert RefTo(ref, rs[i], body, bodyOff);
      var at := ref.valueOff - bodyOff;
      var r := Record(ref.typ, ref.key, body[at..at + ref.valLen], ref.meta, ref.expireAt);
      ghost var ps, mid, before := PlacedRecords(rs[..i], offs[..i], src, born), out, now;
      ghost var more;
      out, now, more := LoadRecord(out, r, ref.valueOff, src, born, now);
      PlacedSnoc(rs, offs, i, src, born);
      LoadAppend(m, ps, PlacedRecord(r, ref.valueOff, src, born), clock, more);
      MomentsJoin(clock, |ps|, more, |PlacedRecord(r, ref.valueOff, src, born)|, started, before, now);
      clock := clock + more;
    }
    assert rs[..|rs|] == rs && offs[..|rs|] == offs;
  }

  lemma NothingLoaded(m: Mem)
    ensures LoadOps(m, [], []) == m
  {
  }

  lemma NonePlacedYet(rs: seq<Record>, offs: seq<nat>, src: Source, born: int)
    ensures PlacedRecords(rs[..0], offs[..0], src, born) == []
  {
  }

  /** applyFrames over the frames that a scan of the file finds. */
  method LoadFile(m: Mem, data: bytes, strict: bool, src: Source, born: int, started: int)
      returns (out: Mem, now: int, ghost clock: seq<int>)
    ensures Moments(clock, |PlacedIn(data, strict, src, born)|, started, now)
    ensures out == LoadOps(m, PlacedIn(data, strict, src, born), clock)
  {
    hide ScanFrames, RecordFormat, PlacedFrame, LoadOps, Reported, ReadFrame;
    var refs, _, _ := ScanFrameRefs(data, 0, strict, 0x1_0000, 0x1_0000);
    ghost var found := ScanFrames(RecordFormat(), data, 0, strict).found;
    out, now, clock := m, started, [];
    NothingLoaded(m);
    ghost var all := PlacedAt(data, found, src, born);
    ghost var done: seq<Placed> := [];
    var frame := born;
    ReportedCount(data, refs, found);
    assert found[0..] == found && [] + all == all;
    for i := 0 to |refs|
      invariant all == done + PlacedAt(data, found[i..], src, frame)
      invariant Moments(clock, |done|, started, now) && out == LoadOps(m, done, clock)
    {
      var d, at := refs[i].frame, refs[i].off;
      ReportedAt(data, refs, found, i);
      ghost var ps, before := PlacedFrame(d, at, src, frame), now;
      assert found[i..][1..] == found[i + 1..];
      Join(done, ps, PlacedAt(data, found[i + 1..], src, if src.inSnap then frame else frame + 1));
      ghost var more;
      out, now, more := LoadFrame(out, d, at, src, frame, now);
      LoadAppend(m, done, ps, clock, more);
      MomentsJoin(clock, |done|, more, |ps|, started, before, now);
      done, clock := done + ps, clock + more;
      frame := if src.inSnap then frame else frame + 1;
    }
    assert done + [] == done;
  }

  lemma ReportedCount(data: bytes, refs: seq<CodecIO.Ref>, found: seq<(nat, nat)>)
    requires Reported(data, refs, found)
    ensures |refs| == |found|
  {
    hide ReadFrame;
  }

  lemma ReportedAt(data: bytes, refs: seq<CodecIO.Ref>, found: seq<(nat, nat)>, i: nat)
    requires Reported(data, refs, found) && i < |refs|
    ensures i < |found| && refs[i].off == found[i].0 <= |data| && ReadFrame(data[refs[i].off..]) == Some(refs[i].frame)
  {
    hide ReadFrame;
  }

  /** frameToOps and what is done with its ops. */
  method LoadFrame(m: Mem, d: Decoded, at: nat, src: Source, born: int, started: int)
      returns (out: Mem, now: int, ghost clock: seq<int>)
    ensures Moments(clock, |PlacedFrame(d, at, src, born)|, started, now)
    ensures out == LoadOps(m, PlacedFrame(d, at, src, born), clock)
  {
    hide LoadOps, PlacedRecord, PlacedRecords, DecodeBatch, Moments;
    if d.record.typ == TYPE_BATCH {
      out, now, clock := LoadBatch(m, d.record.value, at + d.valueOff, src, born, started);
    } else {
      out, now, clock := LoadRecord(m, d.record, at + d.valueOff, src, born, started);
    }
  }

  /** recover: the snapshot first, then the WAL. Whatever the clock shows on the way, the result is the store
      that the durability machine recovers. */
  method RecoverStore(ghost s: Db, snapshot: bytes, wal: bytes, strict: bool, disk: bool, start: nat, started: int)
      returns (out: Mem, now: int, ghost clock: seq<int>)
    requires s.start <= |s.hist| && snapshot == EncAll(s.diskSnap) && wal == DiskWal(s) && start == StartAfter(s)
    ensures Moments(clock, |RecoveredOps(snapshot, wal, strict)|, started, now)
    ensures out == Loaded(s, strict, disk, clock)
  {
    hide PlacedIn, LoadOps, Moments, EncAll, DiskWal, StartAfter, RecoveredOps;
    var first, mid, c := LoadFile(Mem(map[], {}, 0), snapshot, strict, Source(true, disk), -1, started);
    var second, end, d := LoadFile(first, wal, strict, Source(false, disk), start, mid);
    out, now, clock := second, end, c + d;
    ghost var a, b := PlacedIn(snapshot, strict, Source(true, disk), -1),
      PlacedIn(wal, strict, Source(false, disk), start);
    MomentsCount(c, |a|, started, mid);
    LoadAppend(Mem(map[], {}, 0), a, b, c, d);
    MomentsJoin(c, |a|, d, |b|, started, mid, end);
    PlacedOpsAre(snapshot, wal, strict, disk, start);
  }

  lemma MomentsCount(clock: seq<int>, n: nat, started: int, now: int)
    requires Moments(clock, n, started, now)
    ensures |clock| == n
  {
  }
}
