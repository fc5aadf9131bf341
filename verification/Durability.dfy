/** The durability machine: writers, the append-only log, non-blocking compaction, crashes and
    recovery (compaction.ts, snapshot.ts, recovery.ts, wal.ts, and the commit bodies of index.ts),
    as a transition system over files of bytes. Nothing is proved here; see Crash.dfy. */
module Durability {
  import opened Bytes
  import opened Framing
  import opened Codec
  import opened BatchCodec
  import opened Replay
  import opened Commands

  // ---- State -------------------------------------------------------------------------------

  /** A place in the snapshot or in the WAL. */
  datatype Loc = Loc(inSnap: bool, off: nat, len: nat)

  datatype Ref = Memory | Disk(loc: Loc)

  /** A live record. `entry.value` is its value; `ref` is where the value is held. `stamp` is the
      store's version number, `born` the history index of the frame that wrote it (-1: the record was
      moved into a snapshot). */
  datatype Rec = Rec(entry: Entry, ref: Ref, stamp: nat, born: int)

  type Table = map<Key, Rec>

  /** A pointer a writer will publish once its frame has landed. */
  datatype Pub = Pub(key: Key, stamp: nat, gen: nat, off: nat, len: nat, frame: nat)

  datatype Phase = Idle | Fenced | Snapshotting | Copying | Rotating | SnapRenamed | WalRenamed

  /** `base`: the fence, as a history index. `todo`: the keys the snapshot iterator has not reached.
      `copied`: how far the tail copy got. `appended`: whether the new WAL file exists yet. */
  datatype Compaction = Compaction(
    phase: Phase, base: nat, snapNow: int, todo: set<Key>, snapTmp: seq<Record>, locs: map<Key, Loc>,
    walTmp: bytes, copied: nat, appended: bool)

  /** `hist`: every frame ever appended (after a crash: every frame that survived). The current WAL
      holds the frames from `start` on, of which the first `landed` bytes are in the file. `gen`
      tells one WAL object from the next. `snap` is the snapshot the readers have open, `diskSnap`
      the one at the path. Records expired at `deadline` may have been dropped by a snapshot. */
  datatype Db = Db(
    now: int, store: Table, nextStamp: nat, hist: seq<Record>, start: nat, landed: nat, gen: nat, sealed: bool,
    pubs: set<Pub>, snap: seq<Record>, diskSnap: seq<Record>, deadline: int, c: Compaction)

  function Entries(store: Table): Content { map k | k in store :: store[k].entry }

  function Log(s: Db): bytes
    requires s.start <= |s.hist|
  {
    EncAll(s.hist[s.start..])
  }

  /** Where frame `i` of the history starts in a WAL that begins with frame `start`. */
  function OffsetOf(hist: seq<Record>, start: nat, i: nat): nat
    requires start <= i <= |hist|
  {
    |EncAll(hist[start..i])|
  }

  /** How many frames lie completely within the first `n` bytes. */
  function Whole(rs: seq<Record>, n: nat): (w: nat)
    ensures w <= |rs|
    decreases rs
  {
    if rs == [] || n < |Enc(rs[0])| then 0 else 1 + Whole(rs[1..], n - |Enc(rs[0])|)
  }

  /** The history index up to which everything is in the file. */
  function Flushed(s: Db): (n: nat)
    requires s.start <= |s.hist|
    ensures s.start <= n <= |s.hist|
  {
    s.start + Whole(s.hist[s.start..], s.landed)
  }

  function Front(b: bytes, n: nat): bytes { if n <= |b| then b[..n] else b }

  function Slice(b: bytes, i: nat, j: nat): bytes { if i <= j <= |b| then b[i..j] else [] }

  /** What a crash would leave at the WAL's path. */
  function DiskWal(s: Db): bytes
    requires s.start <= |s.hist|
  {
    if s.c.phase.WalRenamed? then s.c.walTmp else Front(Log(s), s.landed)
  }

  /** Store.materialize: the value of a record, read from wherever it is held. */
  function Materialize(s: Db, rec: Rec): bytes
    requires s.start <= |s.hist|
  {
    match rec.ref
    case Memory => rec.entry.value
    case Disk(loc) =>
      ReadAt(if loc.inSnap then EncAll(s.snap) else Front(Log(s), s.landed), loc.off, loc.len)
  }

  // ---- Applying a command to the store -----------------------------------------------------

  datatype Mem = Mem(store: Table, todo: set<Key>, nextStamp: nat)

  function Remove(m: Mem, k: Key): Mem { m.(store := m.store - {k}, todo := m.todo - {k}) }

  /** Lazy expiration: a read of an expired record removes it. */
  function Reap(m: Mem, k: Key, now: int): Mem {
    if k in m.store && !m.store[k].entry.LiveAt(now) then Remove(m, k) else m
  }

  /** applyOp on one SET or DEL. While a snapshot iterates (`iterating`), a key new to the map joins
      the end of the iteration; an overwritten key keeps its place. */
  function PutOp(m: Mem, r: Record, now: int, born: int, iterating: bool): Mem {
    var m1 := Reap(m, r.key, now);
    if r.typ == TYPE_SET then
      Mem(m1.store[r.key := Rec(Entry(r.value, r.meta, r.expireAt), Memory, m1.nextStamp, born)],
          if iterating && r.key !in m1.store then m1.todo + {r.key} else m1.todo,
          m1.nextStamp + 1)
    else Remove(m1, r.key)
  }

  function PutOps(m: Mem, ops: seq<Record>, now: int, born: int, iterating: bool): Mem
    decreases ops
  {
    if ops == [] then m else PutOps(PutOp(m, ops[0], now, born, iterating), ops[1..], now, born, iterating)
  }

  /** Per key, the offset and length of the last value set by the command. */
  function LastSets(acc: map<Key, (nat, nat)>, ops: seq<Record>, offs: seq<nat>): map<Key, (nat, nat)>
    decreases ops
  {
    if ops == [] || offs == [] then acc
    else LastSets(if ops[0].typ == TYPE_SET then acc[ops[0].key := (offs[0], |ops[0].value|)]
      else acc, ops[1..], offs[1..])
  }

  /** One pointer per key the command leaves set; `at` is the predicted offset of the frame. */
  function NewPubs(store: Table, sets: map<Key, (nat, nat)>, gen: nat, at: nat, frame: nat): set<Pub> {
    set k | k in sets && k in store :: Pub(k, store[k].stamp, gen, at + sets[k].0, sets[k].1, frame)
  }

  // ---- Steps -------------------------------------------------------------------------------

  datatype Action =
    | Tick(t: int)
    | Write(cmd: Cmd)
    | Land(n: nat)
    | Expire(k: Key)
    | Publish(p: Pub)
    | TakeFence
    | BeginSnapshot
    | Visit(k: Key)
    | EndSnapshot
    | PreCopy
    | Seal
    | Drain
    | RenameSnapshot
    | RenameWal
    | Swap
    | CrashAndRecover(strict: bool, disk: bool, clock: seq<int>, t: int)

  /** Append and apply are one synchronous step; a sealed WAL rejects the append. */
  function DoWrite(s: Db, cmd: Cmd): Db
    requires s.start <= |s.hist| && Writable(cmd)
  {
    var m := PutOps(Mem(s.store, s.c.todo, s.nextStamp), CmdOps(cmd), s.now, |s.hist|, s.c.phase.Snapshotting?);
    s.(store := m.store,
       nextStamp := m.nextStamp,
       hist := s.hist + [FrameOf(cmd)],
       pubs := s.pubs + NewPubs(m.store, LastSets(map[], CmdOps(cmd), ValueOffs(cmd)), s.gen, |Log(s)|, |s.hist|),
       c := s.c.(todo := m.todo))
  }

  /** publishWalRef: only for the same WAL object and an unchanged record. */
  function DoPublish(s: Db, p: Pub): Db {
    if s.gen == p.gen && p.key in s.store && s.store[p.key].stamp == p.stamp then
      s.(store := s.store[p.key := s.store[p.key].(ref := Disk(Loc(false, p.off, p.len)), stamp := s.nextStamp)],
         nextStamp := s.nextStamp + 1)
    else s
  }

  function DoFence(s: Db): Db
    requires s.start <= |s.hist|
  {
    s.(c := Compaction(Fenced, Flushed(s), s.now, {}, [], map[], [], s.landed, false))
  }

  /** One turn of the snapshot loop: materialise the record, append a SET frame, note where the value
      lies. Records expired when the iteration began are skipped. */
  function DoVisit(s: Db, k: Key): Db
    requires s.start <= |s.hist| && k in s.store
  {
    var c := s.c.(todo := s.c.todo - {k});
    var rec := s.store[k];
    if !rec.entry.LiveAt(s.c.snapNow) then s.(c := c)
    else
      var value := Materialize(s, rec);
      var r := Record(TYPE_SET, k, value, rec.entry.meta, rec.entry.expireAt);
      var off := |EncAll(s.c.snapTmp)| + HEADER_SIZE + |k|;
      s.(c := c.(snapTmp := s.c.snapTmp + [r], locs := s.c.locs[k := Loc(true, off, |value|)]))
  }

  /** copyFileRange from where the last pass stopped to the end of the file; the first pass creates
      the destination. */
  function DoCopy(s: Db): Db
    requires s.start <= |s.hist|
  {
    s.(c := s.c.(walTmp := (if s.c.appended then s.c.walTmp else []) + Slice(Log(s), s.c.copied, s.landed),
                 copied := s.landed,
                 appended := true))
  }

  /** remapLocs on one record: a WAL pointer behind the fence moves with the tail, any other disk
      pointer becomes the snapshot's, if the snapshot has the key. */
  function Remap(k: Key, rec: Rec, baseOff: nat, locs: map<Key, Loc>): Rec {
    match rec.ref
    case Memory => rec
    case Disk(loc) =>
      if !loc.inSnap && loc.off >= baseOff then rec.(ref := Disk(Loc(false, loc.off - baseOff, loc.len)))
      else if k in locs then rec.(ref := Disk(locs[k]), born := -1)
      else rec
  }

  function DoSwap(s: Db): Db
    requires s.start <= s.c.base <= |s.hist|
  {
    var baseOff := OffsetOf(s.hist, s.start, s.c.base);
    s.(store := map k | k in s.store :: Remap(k, s.store[k], baseOff, s.c.locs),
       start := s.c.base,
       landed := |s.c.walTmp|,
       gen := s.gen + 1,
       sealed := false,
       snap := s.c.snapTmp,
       deadline := s.c.snapNow,
       c := s.c.(phase := Idle))
  }

  // ---- Crash and recovery ------------------------------------------------------------------

  /** All the ops recovery reads, snapshot first. */
  function RecoveredOps(snapshot: bytes, wal: bytes, strict: bool): seq<Op> {
    OpsOfFrames(Records(RecordFormat(), snapshot, 0, strict)) + OpsOfFrames(Records(RecordFormat(), wal, 0, strict))
  }

  /** recover: replay the snapshot, then the WAL, each op against the clock of its moment. */
  function Recover(snapshot: bytes, wal: bytes, strict: bool, clock: seq<int>): Content
    requires |clock| == |RecoveredOps(snapshot, wal, strict)|
  {
    ReplayOps(map[], RecoveredOps(snapshot, wal, strict), clock)
  }

  /** The bytes behind the last whole frame. */
  function TornTail(s: Db): bytes
    requires s.start <= |s.hist|
  {
    if s.c.phase.WalRenamed? then []
    else Slice(Log(s), OffsetOf(s.hist, s.start, Flushed(s)), s.landed)
  }

  /** Recovery either stops at the torn tail or resynchronises over it; the second is sound only when
      no frame is embedded in the tail. */
  ghost predicate CanRecover(s: Db, strict: bool, clock: seq<int>)
    requires s.start <= |s.hist|
  {
    && (strict || Barren(RecordFormat(), TornTail(s)))
    && |clock| == |RecoveredOps(EncAll(s.diskSnap), DiskWal(s), strict)|
  }

  function StartAfter(s: Db): nat { if s.c.phase.WalRenamed? then s.c.base else s.start }

  /** An op as recovery loads it: with the place of its value and the history index of its frame. */
  datatype Placed = Placed(op: Op, ref: Ref, born: int)

  /** The file that is read, and whether values stay in it (disk mode) or are held in memory. */
  datatype Source = Source(inSnap: bool, disk: bool)

  /** setRefToOps for a value at `off` in the file, and the DEL case. */
  function PlacedRecord(r: Record, off: nat, src: Source, born: int): seq<Placed> {
    if r.typ == TYPE_SET then
      [Placed(Set(r.key, Entry(r.value, r.meta, r.expireAt)),
              if src.disk then Disk(Loc(src.inSnap, off, |r.value|)) else Memory, born)]
    else if r.typ == TYPE_DEL then [Placed(Del(r.key), Memory, born)]
    else []
  }

  function PlacedRecords(rs: seq<Record>, offs: seq<nat>, src: Source, born: int): seq<Placed>
    decreases rs
  {
    if rs == [] || offs == [] then []
    else PlacedRecord(rs[0], offs[0], src, born) + PlacedRecords(rs[1..], offs[1..], src, born)
  }

  /** frameToOps for a frame found at `at`: its own value's offset, or the places that scanBatchOpRefs
      gives the values of its ops. */
  function PlacedFrame(d: Decoded, at: nat, src: Source, born: int): seq<Placed> {
    if d.record.typ == TYPE_BATCH then
      match DecodeBatch(d.record.value)
      case None => []
      case Some(rs) => PlacedRecords(rs, PlaceOps(rs, at + d.valueOff + 2), src, born)
    else PlacedRecord(d.record, at + d.valueOff, src, born)
  }

  /** The frames a scan found, from number `born` of the history on; the snapshot's are in none. */
  function PlacedAt(data: bytes, found: seq<(nat, nat)>, src: Source, born: int): seq<Placed>
    decreases found
  {
    if found == [] then []
    else
      var at := found[0].0;
      if at <= |data| && ReadFrame(data[at..]).Some? then
        PlacedFrame(ReadFrame(data[at..]).value, at, src, born)
          + PlacedAt(data, found[1..], src, if src.inSnap then born else born + 1)
      else PlacedAt(data, found[1..], src, born)
  }

  function PlacedIn(data: bytes, strict: bool, src: Source, born: int): seq<Placed> {
    PlacedAt(data, ScanFrames(RecordFormat(), data, 0, strict).found, src, born)
  }

  /** What recovery reads: the snapshot, then the WAL, which begins with frame `start`. */
  function PlacedOps(snapshot: bytes, wal: bytes, strict: bool, disk: bool, start: nat): seq<Placed> {
    PlacedIn(snapshot, strict, Source(true, disk), -1) + PlacedIn(wal, strict, Source(false, disk), start)
  }

  function LoadOp(m: Mem, p: Placed, now: int): Mem {
    match Replayed(p.op, now)
    case Set(k, e) => m.(store := m.store[k := Rec(e, p.ref, m.nextStamp, p.born)], nextStamp := m.nextStamp + 1)
    case Del(k) => m.(store := m.store - {k})
  }

  /** applyFrames. */
  function LoadOps(m: Mem, ps: seq<Placed>, clock: seq<int>): Mem
    decreases ps
  {
    if ps == [] || clock == [] then m else LoadOps(LoadOp(m, ps[0], clock[0]), ps[1..], clock[1..])
  }

  /** The store that recovery makes of what is on disk. */
  function Loaded(s: Db, strict: bool, disk: bool, clock: seq<int>): Mem
    requires s.start <= |s.hist|
  {
    LoadOps(Mem(map[], {}, 0), PlacedOps(EncAll(s.diskSnap), DiskWal(s), strict, disk, StartAfter(s)), clock)
  }

  /** A record in memory, or a pointer to its bytes in the snapshot or in the frame it came from. */
  predicate LoadedRight(rec: Rec, snapshot: bytes, hist: seq<Record>, start: nat) {
    match rec.ref
    case Memory => -1 <= rec.born < |hist|
    case Disk(loc) =>
      && loc.len == |rec.entry.value|
      && if loc.inSnap then rec.born == -1 && HoldsAt(snapshot, rec.entry.value, loc.off)
         else InFrame(rec.entry.value, loc.off, rec.born, hist, start)
  }

  /** `value` lies at `off` in the log, inside frame `i`. */
  predicate InFrame(value: bytes, off: nat, i: int, hist: seq<Record>, start: nat) {
    && start <= i < |hist|
    && OffsetOf(hist, start, i) <= off && off + |value| < OffsetOf(hist, start, i + 1)
    && HoldsAt(EncAll(hist[start..]), value, off)
  }

  /** The history a crash leaves: every frame that had completely reached the file. */
  function Survived(s: Db): seq<Record>
    requires s.start <= |s.hist|
  {
    s.hist[..if s.c.phase.WalRenamed? then |s.hist| else Flushed(s)]
  }

  function DoCrash(s: Db, t: int, loaded: Mem): Db
    requires s.start <= |s.hist| && StartAfter(s) <= |s.hist|
  {
    var hist := Survived(s);
    s.(now := t,
       store := loaded.store,
       nextStamp := loaded.nextStamp,
       hist := hist,
       start := StartAfter(s),
       landed := if StartAfter(s) <= |hist| then |EncAll(hist[StartAfter(s)..])| else 0,
       gen := s.gen + 1,
       sealed := false,
       pubs := {},
       snap := s.diskSnap,
       c := s.c.(phase := Idle, todo := {}, base := 0))
  }

  ghost predicate Enabled(s: Db, a: Action) {
    && s.start <= |s.hist| && s.c.base <= |s.hist|
    && match a
       case Tick(t) => t >= s.now
       case Write(cmd) => !s.sealed && Writable(cmd)
       case Land(n) => s.landed + n <= |Log(s)|
       case Expire(k) => k in s.store && !s.store[k].entry.LiveAt(s.now)
       case Publish(p) => p in s.pubs && (p.gen == s.gen && s.start <= p.frame < |s.hist| ==>
                            OffsetOf(s.hist, s.start, p.frame + 1) <= s.landed)
       case TakeFence => s.c.phase.Idle? && s.landed == OffsetOf(s.hist, s.start, Flushed(s))
       case BeginSnapshot => s.c.phase.Fenced?
       case Visit(k) => s.c.phase.Snapshotting? && k in s.c.todo && k in s.store
       case EndSnapshot => s.c.phase.Snapshotting? && s.c.todo == {}
       case PreCopy => s.c.phase.Copying?
       case Seal => s.c.phase.Copying?
       case Drain => s.c.phase.Rotating? && s.landed == |Log(s)|
       case RenameSnapshot => s.c.phase.Rotating? && s.landed == |Log(s)| && s.c.copied == s.landed && s.c.appended
       case RenameWal => s.c.phase.SnapRenamed?
       case Swap => s.c.phase.WalRenamed? && s.start <= s.c.base
       case CrashAndRecover(strict, disk, clock, t) =>
         && t >= s.now && (forall i :: 0 <= i < |clock| ==> clock[i] <= t)
         && CanRecover(s, strict, clock)
         && StartAfter(s) <= |s.hist|
  }

  function Step(s: Db, a: Action): Db
    requires Enabled(s, a)
  {
    match a
    case Tick(t) => s.(now := t)
    case Write(cmd) => DoWrite(s, cmd)
    case Land(n) => s.(landed := s.landed + n)
    case Expire(k) => s.(store := s.store - {k}, c := s.c.(todo := s.c.todo - {k}))
    case Publish(p) => DoPublish(s, p)
    case TakeFence => DoFence(s)
    case BeginSnapshot =>
      s.(c := s.c.(phase := Snapshotting, snapNow := s.now, todo := s.store.Keys, snapTmp := [], locs := map[]))
    case Visit(k) => DoVisit(s, k)
    case EndSnapshot => s.(c := s.c.(phase := Copying))
    case PreCopy => DoCopy(s)
    case Seal => s.(sealed := true, c := s.c.(phase := Rotating))
    case Drain => DoCopy(s)
    case RenameSnapshot => s.(diskSnap := s.c.snapTmp, c := s.c.(phase := SnapRenamed))
    case RenameWal => s.(c := s.c.(phase := WalRenamed))
    case Swap => DoSwap(s)
    case CrashAndRecover(strict, disk, clock, t) => DoCrash(s, t, Loaded(s, strict, disk, clock))
  }

  /** An empty database. */
  predicate Init(s: Db) {
    && s.store == map[] && s.hist == [] && s.start == 0 && s.landed == 0 && !s.sealed
    && s.pubs == {} && s.snap == [] && s.diskSnap == [] && s.deadline <= s.now
    && s.c.phase.Idle? && s.c.todo == {} && s.c.base == 0
  }

  /** The states of a run: each step is enabled where it is taken. */
  ghost predicate IsRun(states: seq<Db>, actions: seq<Action>) {
    && |states| == |actions| + 1
    && Init(states[0])
    && forall i :: 0 <= i < |actions| ==> Enabled(states[i], actions[i]) && states[i + 1] == Step(states[i], actions[i])
  }
}
