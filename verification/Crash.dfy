/** Rotation, crash and recovery keep the invariant too; so in every run every crash recovers what
    was flushed, and every disk pointer reads the value of its record. */
module Crash {
  import opened Bytes
  import opened Framing
  import opened Codec
  import opened Replay
  import opened Commands
  import opened Durability
  import opened LogFacts
  import opened StoreFacts
  import opened Loading
  import opened Invariant

  // ---- Copying the tail --------------------------------------------------------------------

  lemma SliceGrows(b: bytes, i: nat, j: nat, k: nat)
    requires i <= j <= k <= |b|
    ensures Slice(b, i, j) + Slice(b, j, k) == Slice(b, i, k)
  {
  }

  lemma CopyKeeps(s: Db)
    requires Inv(s) && (s.c.phase.Copying? || (s.c.phase.Rotating? && s.landed == |Log(s)|))
    ensures Inv(DoCopy(s))
  {
    hide Enc, EncAll, FrameOps, ApplyFrames, FramesOk, StoreOk, PointersOk, DiskOk, Taking, Taken, AllMovable, Whole;
    var s' := DoCopy(s);
    OnlyCompaction(s, s'.c);
    assert CopyOk(s') by {
      var baseOff := OffsetOf(s.hist, s.start, s.c.base);
      SliceGrows(Log(s), baseOff, s.c.copied, s.landed);
      assert [] + Slice(Log(s), s.c.copied, s.landed) == Slice(Log(s), s.c.copied, s.landed);
    }
  }

  lemma SealKeeps(s: Db)
    requires Inv(s) && Enabled(s, Seal)
    ensures Inv(Step(s, Seal))
  {
    hide Enc, EncAll, FrameOps, ApplyFrames, FramesOk, Whole, Taken, Taking, AllMovable, Shows, StampsBelow, EntriesFit,
      AllPointRight, PubsRight, OffsetOf, Slice;
  }

  // ---- Rotation ----------------------------------------------------------------------------

  lemma AllFlushed(s: Db)
    requires LogOk(s) && s.landed == |Log(s)|
    ensures Flushed(s) == |s.hist|
  {
    WholeOfAll(s.hist[s.start..]);
  }

  lemma RenameSnapshotKeeps(s: Db)
    requires Inv(s) && Enabled(s, RenameSnapshot)
    ensures Inv(Step(s, RenameSnapshot))
  {
    hide Enc, EncAll, FrameOps, ApplyFrames, FramesOk, Whole, Taken, Taking, AllMovable, Shows, StampsBelow, EntriesFit,
      AllPointRight, PubsRight, OffsetOf, Slice;
    AllFlushed(s);
  }

  lemma RenameWalKeeps(s: Db)
    requires Inv(s) && Enabled(s, RenameWal)
    ensures Inv(Step(s, RenameWal))
  {
    hide Enc, EncAll, FrameOps, ApplyFrames, FramesOk, Whole, Taken, Taking, AllMovable, Shows, StampsBelow, EntriesFit,
      AllPointRight, PubsRight, OffsetOf, Slice;
  }

  /** When everything has landed and been copied, the new WAL holds exactly the frames behind the fence. */
  lemma NewWal(s: Db)
    requires LogOk(s) && s.c.base <= |s.hist| && CopyOk(s) && s.c.appended && s.c.copied == s.landed == |Log(s)|
    ensures s.c.walTmp == EncAll(s.hist[s.c.base..])
  {
    hide Enc, EncAll, FramesOk;
    LogSplitAt(s.hist, s.start, s.c.base);
    SliceOfSum(EncAll(s.hist[s.start..s.c.base]), EncAll(s.hist[s.c.base..]));
  }

  lemma SliceOfSum(a: bytes, b: bytes)
    ensures Slice(a + b, |a|, |a + b|) == b
  {
  }

  /** A WAL pointer behind the fence points into the tail, and moves with it. */
  lemma TailPointerMoves(value: bytes, off: nat, born: int, hist: seq<Record>, start: nat, base: nat)
    requires InFrame(value, off, born, hist, start) && start <= base <= |hist| && off >= OffsetOf(hist, start, base)
    ensures InFrame(value, off - OffsetOf(hist, start, base), born, hist, base)
    ensures OffsetOf(hist, base, born + 1) <= |EncAll(hist[base..])|
  {
    hide Enc, EncAll;
    if born < base {
      OffsetSum(hist, start, born + 1, base);
    } else {
      OffsetSum(hist, start, base, born);
      OffsetSum(hist, start, base, born + 1);
      OffsetBound(hist, base, born + 1);
      LogSplitAt(hist, start, base);
      HoldsInTail(EncAll(hist[start..base]), EncAll(hist[base..]), value, off);
    }
  }

  /** A WAL pointer in front of the fence belongs to a frame in front of the fence. */
  lemma HeadPointerIsOld(value: bytes, off: nat, born: int, hist: seq<Record>, start: nat, base: nat)
    requires InFrame(value, off, born, hist, start) && start <= base <= |hist| && off < OffsetOf(hist, start, base)
    ensures born < base
  {
    hide Enc, EncAll;
    if born >= base { OffsetSum(hist, start, base, born); }
  }

  /** The remap leaves every record with a pointer to the same value. */
  lemma RemapRight(k: Key, rec: Rec, snap: bytes, locs: map<Key, Loc>, snapTmp: bytes, hist: seq<Record>, start: nat,
                   landed: nat, base: nat, deadline: int, snapNow: int)
    requires PointsRight(rec, snap, hist, start, landed, deadline) && deadline <= snapNow && start <= base <= |hist|
    requires Movable(k, rec, {}, locs, snapTmp, base, snapNow)
    ensures PointsRight(Remap(k, rec, OffsetOf(hist, start, base), locs), snapTmp, hist, base, |EncAll(hist[base..])|,
      snapNow)
  {
    hide Enc, EncAll, OffsetOf, InFrame;
    if rec.entry.LiveAt(snapNow) && rec.ref.Disk? && !rec.ref.loc.inSnap {
      var off, baseOff := rec.ref.loc.off, OffsetOf(hist, start, base);
      if off >= baseOff {
        TailPointerMoves(rec.entry.value, off, rec.born, hist, start, base);
      } else {
        HeadPointerIsOld(rec.entry.value, off, rec.born, hist, start, base);
      }
    }
  }

  lemma SwapPointers(s: Db)
    requires Inv(s) && Enabled(s, Swap)
    ensures PointersOk(DoSwap(s))
  {
    hide Enc, EncAll, FramesOk, OffsetOf, ApplyFrames, FrameOps, PointsRight, Movable, Remap, Slice;
    var s' := DoSwap(s);
    NewWal(s);
    forall k | k in s'.store
      ensures PointsRight(s'.store[k], EncAll(s'.snap), s'.hist, s'.start, s'.landed, s'.deadline) {
      assert Movable(k, s.store[k], s.c.todo, s.c.locs, EncAll(s.c.snapTmp), s.c.base, s.c.snapNow);
      RemapRight(k, s.store[k], EncAll(s.snap), s.c.locs, EncAll(s.c.snapTmp), s.hist, s.start, s.landed, s.c.base,
                 s.deadline, s.c.snapNow);
    }
    forall p | p in s'.pubs ensures PubRight(p, s'.store, s'.hist, s'.start, s'.gen, s'.nextStamp) {
      assert PubRight(p, s.store, s.hist, s.start, s.gen, s.nextStamp);
    }
  }

  lemma RemapKeepsEntry(k: Key, rec: Rec, baseOff: nat, locs: map<Key, Loc>)
    ensures var r := Remap(k, rec, baseOff, locs);
            r.entry == rec.entry && r.stamp == rec.stamp && (r.born == rec.born || r.born == -1)
  {
  }

  lemma SwapStore(s: Db)
    requires Inv(s) && Enabled(s, Swap)
    ensures StoreOk(DoSwap(s))
  {
    hide Enc, EncAll, FramesOk, OffsetOf, ApplyFrames, FrameOps, Remap, Slice;
    var s' := DoSwap(s);
    var baseOff := OffsetOf(s.hist, s.start, s.c.base);
    forall k | k in s.store
      ensures var r := s'.store[k]; r.entry == s.store[k].entry && r.stamp == s.store[k].stamp && r.born < |s.hist|
    {
      RemapKeepsEntry(k, s.store[k], baseOff, s.c.locs);
    }
    assert Entries(s'.store) == Entries(s.store);
  }

  lemma SwapKeeps(s: Db)
    requires Inv(s) && Enabled(s, Swap)
    ensures Inv(DoSwap(s))
  {
    hide Enc, EncAll, FramesOk, OffsetOf, ApplyFrames, FrameOps, Remap, Slice, Whole;
    var s' := DoSwap(s);
    NewWal(s);
    AllFlushed(s);
    assert LogOk(s');
    AllFlushed(s');
    assert PointersOk(s') by { SwapPointers(s); }
    assert StoreOk(s') by { SwapStore(s); }
    assert DiskOk(s');
    assert CompactionOk(s');
  }

  // ---- Crash and recovery ------------------------------------------------------------------

  lemma SurvivedShape(s: Db)
    requires Inv(s)
    ensures StartAfter(s) <= |Survived(s)| && FramesOk(Survived(s))
    ensures |Survived(s)| == Flushed(s)
  {
    hide Enc, EncAll, ApplyFrames, FrameOps, Whole, FramesOk;
    if s.c.phase.WalRenamed? { AllFlushed(s); }
    FramesOkSlice(s.hist, 0, Flushed(s));
    assert s.hist[0..Flushed(s)] == s.hist[..Flushed(s)];
  }

  /** What is at the WAL's path: the surviving frames from its start, then a torn tail. */
  lemma DiskWalShape(s: Db)
    requires Inv(s) && StartAfter(s) <= |Survived(s)|
    ensures DiskWal(s) == EncAll(Survived(s)[StartAfter(s)..]) + TornTail(s)
    ensures TornTail(s) == [] || Torn(RecordFormat(), TornTail(s))
  {
    hide Enc, EncAll, ApplyFrames, FrameOps, Whole, Torn, RecordFormat, FramesOk;
    if s.c.phase.WalRenamed? {
      NewWal(s);
      assert s.hist[..|s.hist|] == s.hist;
      assert EncAll(s.hist[s.c.base..]) + [] == EncAll(s.hist[s.c.base..]);
    } else {
      var rs, w := s.hist[s.start..], Flushed(s) - s.start;
      FramesOkSlice(s.hist, s.start, |s.hist|);
      assert s.hist[s.start..|s.hist|] == rs;
      GoodFrames(rs);
      var torn := WholeThenTorn(rs, s.landed);
      assert rs[..w] == s.hist[s.start..Flushed(s)] == s.hist[..Flushed(s)][s.start..];
      TailOfFront(Log(s), s.landed, EncAll(rs[..w]), torn);
    }
  }

  lemma TailOfFront(b: bytes, n: nat, a: bytes, torn: bytes)
    requires n <= |b| && b[..n] == a + torn
    ensures Slice(b, |a|, n) == torn
  {
    assert b[|a|..n] == b[..n][|a|..];
  }

  /** Recovery reads the frames back. */
  lemma RecoveredFrames(frames: seq<Record>, torn: bytes, strict: bool)
    requires FramesOk(frames)
    requires torn == [] || (Torn(RecordFormat(), torn) && (strict || Barren(RecordFormat(), torn)))
    ensures Records(RecordFormat(), EncAll(frames) + torn, 0, strict) == frames
  {
    hide Enc, FrameOps, RecordFormat;
    var f := RecordFormat();
    CodecIsLawful();
    GoodFrames(frames);
    NormalFrames(frames);
    EncAllIsEncodeAll(frames);
    assert [] + EncodeAll(f, frames) + torn == EncAll(frames) + torn;
    if strict { StrictRecordsOfLog(f, [], frames, torn); } else { ResyncRecordsOfLog(f, [], frames, torn); }
  }

  lemma OpsRecovered(s: Db, strict: bool, clock: seq<int>)
    requires Inv(s) && StartAfter(s) <= |Survived(s)| && CanRecover(s, strict, clock)
    ensures RecoveredOps(EncAll(s.diskSnap), DiskWal(s), strict)
            == OpsOfFrames(s.diskSnap) + OpsOfFrames(Survived(s)[StartAfter(s)..])
  {
    hide Enc, EncAll, ApplyFrames, FrameOps, Whole, Torn, RecordFormat, FramesOk, Records, OpsOfFrames, Barren;
    SurvivedShape(s);
    DiskWalShape(s);
    var live := Survived(s);
    FramesOkSlice(live, StartAfter(s), |live|);
    assert live[StartAfter(s)..|live|] == live[StartAfter(s)..];
    RecoveredFrames(live[StartAfter(s)..], TornTail(s), strict);
    RecoveredFrames(s.diskSnap, [], strict);
    assert EncAll(s.diskSnap) + [] == EncAll(s.diskSnap);
  }

  /** The snapshot at the path was taken from surviving frames, none before the WAL that follows it. */
  lemma DiskSnapTaken(s: Db)
    requires Inv(s) && StartAfter(s) <= |Survived(s)|
    ensures Taken(s.diskSnap, Survived(s), StartAfter(s), |Survived(s)|, s.now)
  {
    hide Enc, EncAll, ApplyFrames, FrameOps, Whole, FramesOk, TakenAt;
    SurvivedShape(s);
    TakenOfPrefix(s.diskSnap, s.hist, Lo(s), Flushed(s), Flushed(s), s.now, s.now);
    if s.c.phase.WalRenamed? { assert s.hist[..|s.hist|] == s.hist[..Flushed(s)]; }
    TakenFrom(s.diskSnap, Survived(s), Lo(s), StartAfter(s), Flushed(s), s.now);
  }

  /** Crash at any point, recover at time `t`: the result shows from then on exactly what replaying
      every surviving frame, last writer wins, shows. */
  lemma RecoverIsRight(s: Db, strict: bool, clock: seq<int>, t: int)
    requires Inv(s) && CanRecover(s, strict, clock) && t >= s.now && forall i :: 0 <= i < |clock| ==> clock[i] <= t
    ensures forall k ::
      SameView(Recover(EncAll(s.diskSnap), DiskWal(s), strict, clock), ApplyFrames(map[], Survived(s)), k, t)
  {
    hide Enc, EncAll, FrameOps, Whole, FramesOk, RecoveredOps, DiskWal;
    SurvivedShape(s);
    OpsRecovered(s, strict, clock);
    DiskSnapTaken(s);
    RepairedAndReplayed(s.diskSnap, Survived(s), StartAfter(s), clock, s.now, t);
  }

  lemma RepairedAndReplayed(snap: seq<Record>, hist: seq<Record>, from: nat, clock: seq<int>, now: int, t: int)
    requires from <= |hist| && Taken(snap, hist, from, |hist|, now) && now <= t
    requires |clock| == |OpsOfFrames(snap) + OpsOfFrames(hist[from..])| && forall i :: 0 <= i < |clock| ==>
      clock[i] <= t
    ensures forall k ::
      SameView(ReplayOps(map[], OpsOfFrames(snap) + OpsOfFrames(hist[from..]), clock), ApplyFrames(map[], hist), k, t)
  {
    hide FrameOps;
    var ops := OpsOfFrames(snap) + OpsOfFrames(hist[from..]);
    var content := ApplyFrames(map[], snap);
    assert ApplyOps(map[], ops) == ApplyFrames(content, hist[from..]) by {
      ApplyOpsAppend(map[], OpsOfFrames(snap), OpsOfFrames(hist[from..]));
      ApplyFramesIsOps(map[], snap);
      ApplyFramesIsOps(content, hist[from..]);
    }
    ExpiryAtReplayInvisible(map[], map[], ops, clock, t);
    forall k ensures SameView(ReplayOps(map[], ops, clock), ApplyFrames(map[], hist), k, t) {
      assert TakenAt(content, k, hist, from, |hist|, now);
      FuzzySnapshotRepaired(content, k, hist, from, from, |hist|, now);
      SameViewTrans(ReplayOps(map[], ops, clock), ApplyOps(map[], ops), ApplyFrames(map[], hist), k, now, t);
    }
  }

  lemma SameViewTrans(a: Content, b: Content, c: Content, k: Key, now: int, t: int)
    requires now <= t && SameView(a, b, k, t) && SameView(b, c, k, now)
    ensures SameView(a, c, k, t)
  {
    forall x | x >= t ensures View(a, k, x) == View(c, k, x) { assert View(a, k, x) == View(b, k, x); }
  }

  lemma RecoveredFits(s: Db, strict: bool, clock: seq<int>)
    requires Inv(s) && CanRecover(s, strict, clock)
    ensures EntriesFit(Recover(EncAll(s.diskSnap), DiskWal(s), strict, clock))
  {
    hide Enc, EncAll, FrameOps, Whole, RecoveredOps, DiskWal, FramesOk, OpsFit, ReplayOps;
    SurvivedShape(s);
    OpsRecovered(s, strict, clock);
    var live, from := Survived(s), StartAfter(s);
    FramesOkSlice(live, from, |live|);
    assert live[from..|live|] == live[from..];
    GoodFramesFit(s.diskSnap);
    GoodFramesFit(live[from..]);
    OpsFitAppend(OpsOfFrames(s.diskSnap), OpsOfFrames(live[from..]));
    ReplayFits(map[], RecoveredOps(EncAll(s.diskSnap), DiskWal(s), strict), clock);
  }

  lemma LoadedPointsRight(rec: Rec, snap: bytes, hist: seq<Record>, start: nat, deadline: int)
    requires start <= |hist| && LoadedRight(rec, snap, hist, start)
    ensures PointsRight(rec, snap, hist, start, |EncAll(hist[start..])|, deadline) && rec.born < |hist|
  {
    hide Enc, EncAll;
    if rec.ref.Disk? && !rec.ref.loc.inSnap { OffsetBound(hist, start, rec.born + 1); }
  }

  /** Every pointer that recovery computes from the bytes on disk reads the value of its record: a frame's
      own value where the scan says it is, a batch op's where scanBatchOpRefs places it. */
  lemma LoadedPlaces(s: Db, strict: bool, disk: bool, clock: seq<int>)
    requires Inv(s) && CanRecover(s, strict, clock)
    ensures StartAfter(s) <= |Survived(s)|
    ensures StoreLoaded(Loaded(s, strict, disk, clock), EncAll(s.diskSnap), Survived(s), StartAfter(s))
  {
    hide Enc, EncAll, FrameOps, Whole, DiskWal, FramesOk, ApplyFrames, PlacedIn, LoadOps, GoodPlace, Torn, Barren,
      RecordFormat,
      LoadedRight, TornTail, Survived;
    SurvivedShape(s);
    DiskWalShape(s);
    var hist, start := Survived(s), StartAfter(s);
    SnapshotPlaces(s.diskSnap, hist, start, strict, disk);
    WalPlaces(EncAll(s.diskSnap), hist, start, TornTail(s), strict, disk);
    var ps := PlacedOps(EncAll(s.diskSnap), DiskWal(s), strict, disk, start);
    LoadKeepsPlaces(Mem(map[], {}, 0), ps, clock, EncAll(s.diskSnap), hist, start);
  }

  lemma CrashStore(s: Db, strict: bool, disk: bool, clock: seq<int>, t: int)
    requires Inv(s) && Enabled(s, CrashAndRecover(strict, disk, clock, t))
    ensures StoreOk(DoCrash(s, t, Loaded(s, strict, disk, clock)))
    ensures PointersOk(DoCrash(s, t, Loaded(s, strict, disk, clock)))
  {
    hide Enc, EncAll, FrameOps, Whole, RecoveredOps, DiskWal, FramesOk, Recover, ApplyFrames, PointsRight, LoadedRight,
      OffsetOf,
      TornTail, Barren, Loaded, Survived, CompactionOk, SnapshotOk, DiskOk, SameView;
    var loaded := Loaded(s, strict, disk, clock);
    var s' := DoCrash(s, t, loaded);
    SurvivedShape(s);
    RecoverIsRight(s, strict, clock, t);
    RecoveredFits(s, strict, clock);
    LoadedEntries(s, strict, disk, clock);
    LoadedPlaces(s, strict, disk, clock);
    assert Shows(loaded.store, ApplyFrames(map[], s'.hist), t);
    forall k | k in loaded.store
      ensures PointsRight(loaded.store[k], EncAll(s'.snap), s'.hist, s'.start, s'.landed, s'.deadline)
      ensures loaded.store[k].born < |s'.hist|
    {
      LoadedPointsRight(loaded.store[k], EncAll(s.diskSnap), s'.hist, s'.start, s'.deadline);
    }
  }

  lemma CrashDisk(s: Db, t: int, loaded: Mem)
    requires Inv(s) && t >= s.now
    requires StartAfter(s) <= |Survived(s)|
    ensures var s' := DoCrash(s, t, loaded); LogOk(s') && DiskOk(s')
  {
    hide Enc, EncAll, FrameOps, Whole, FramesOk, ApplyFrames, StoreOk, PointersOk, Taken;
    var s' := DoCrash(s, t, loaded);
    SurvivedShape(s);
    assert s'.hist == Survived(s);
    assert LogOk(s');
    AllFlushed(s');
    DiskSnapTaken(s);
    TakenLater(s.diskSnap, s'.hist, s'.start, |s'.hist|, |s'.hist|, s.now, t);
  }

  lemma CrashKeeps(s: Db, strict: bool, disk: bool, clock: seq<int>, t: int)
    requires Inv(s) && Enabled(s, CrashAndRecover(strict, disk, clock, t))
    ensures Inv(DoCrash(s, t, Loaded(s, strict, disk, clock)))
  {
    hide Enc, EncAll, FrameOps, FramesOk, ApplyFrames, StoreOk, PointersOk, LogOk, DiskOk, CompactionOk, SnapshotOk,
      Loaded, DoCrash,
      Survived;
    CrashStore(s, strict, disk, clock, t);
    SurvivedShape(s);
    CrashDisk(s, t, Loaded(s, strict, disk, clock));
    CrashIdle(s, t, Loaded(s, strict, disk, clock));
  }

  lemma CrashIdle(s: Db, t: int, loaded: Mem)
    requires s.start <= |s.hist| && StartAfter(s) <= |s.hist|
    ensures CompactionOk(DoCrash(s, t, loaded)) && SnapshotOk(DoCrash(s, t, loaded))
    ensures DoCrash(s, t, loaded).start <= |s.hist|
  {
    hide EncAll, Whole, Taking, Taken, AllMovable, CopyOk, FramesOk;
  }

  // ---- Runs --------------------------------------------------------------------------------

  lemma InitInv(s: Db)
    requires Init(s)
    ensures Inv(s)
  {
    assert s.hist[s.start..] == [];
    forall k ensures TakenAt(ApplyFrames(map[], s.diskSnap), k, s.hist, 0, 0, s.now) {
      assert s.hist[..0] == [];
      assert SameView(ApplyFrames(map[], []), ApplyFrames(map[], s.hist[..0]), k, s.now);
    }
  }

  lemma StepKeeps(s: Db, a: Action)
    requires Inv(s) && Enabled(s, a)
    ensures Inv(Step(s, a))
  {
    hide Inv, Loaded, DoCrash, DoWrite, DoPublish, DoFence, DoCopy, DoSwap, DoVisit, CanRecover, Log, OffsetOf, Flushed;
    match a
    case Tick(t) => TickKeeps(s, t);
    case Write(cmd) => WriteKeeps(s, cmd);
    case Land(n) => LandKeeps(s, n);
    case Expire(k) => ExpireKeeps(s, k);
    case Publish(p) => PublishKeeps(s, p);
    case TakeFence => FenceKeeps(s);
    case BeginSnapshot => BeginKeeps(s);
    case Visit(k) => VisitKeeps(s, k);
    case EndSnapshot => EndKeeps(s);
    case PreCopy => CopyKeeps(s);
    case Seal => SealKeeps(s);
    case Drain => CopyKeeps(s);
    case RenameSnapshot => RenameSnapshotKeeps(s);
    case RenameWal => RenameWalKeeps(s);
    case Swap => SwapKeeps(s);
    case CrashAndRecover(strict, disk, clock, t) => CrashKeeps(s, strict, disk, clock, t);
  }

  lemma {:induction false} EveryStateInv(states: seq<Db>, actions: seq<Action>, i: nat)
    requires IsRun(states, actions) && i <= |actions|
    ensures Inv(states[i])
  {
    hide Inv, Step, Enabled, Init;
    if i == 0 {
      InitInv(states[0]);
    } else {
      EveryStateInv(states, actions, i - 1);
      assert states[i - 1 + 1] == Step(states[i - 1], actions[i - 1]);
      StepKeeps(states[i - 1], actions[i - 1]);
    }
  }

  /** Durability. In every run of writers, landing bytes, expiry, compaction steps, crashes and
      recoveries, a crash in any state recovers, at any later time, the view of replaying every
      flushed frame. */
  lemma DurableAtEveryCrashPoint(states: seq<Db>, actions: seq<Action>, i: nat, strict: bool, clock: seq<int>, t: int)
    requires IsRun(states, actions) && i <= |actions| && states[i].start <= |states[i].hist|
    requires CanRecover(states[i], strict, clock) && t >= states[i].now && forall j :: 0 <= j < |clock| ==>
      clock[j] <= t
    ensures var s := states[i];
            forall k ::
              SameView(Recover(EncAll(s.diskSnap), DiskWal(s), strict, clock),
              ApplyFrames(map[], s.hist[..Flushed(s)]), k, t)
  {
    hide Inv, CanRecover, Recover, DiskWal;
    EveryStateInv(states, actions, i);
    SurvivedIsFlushed(states[i]);
    RecoverIsRight(states[i], strict, clock, t);
  }

  // ---- ... and by default, if no frame is embedded in a frame --------------------------------------

  /** However much of the frame lands, no frame can be read out of its front. */
  ghost predicate IsClean(r: Record) {
    forall n: nat {:trigger Enc(r)[..n]} :: n < |Enc(r)| ==> Barren(RecordFormat(), Enc(r)[..n])
  }

  ghost predicate AllClean(rs: seq<Record>) { forall i :: 0 <= i < |rs| ==> IsClean(rs[i]) }

  /** It is enough that the magic bytes are nowhere in the frame but at its front. */
  lemma MagicOnlyInFront(r: Record)
    requires Encodable(r)
    requires forall p :: 0 < p < |Enc(r)| - 1 ==> Enc(r)[p] != MAGIC[0] || Enc(r)[p + 1] != MAGIC[1]
    ensures IsClean(r)
  {
    hide ReadFrame, Encoded, RecordFormat;
    forall n: nat, p: nat | n < |Enc(r)| && p < n ensures RecordFormat().dec(Enc(r)[..n][p..]).None? {
      var tail := Enc(r)[..n][p..];
      DecOfFormat(tail);
      if p == 0 {
        CodecIsLawful();
        TornFront(r, n);
        TornIsNoFrame(RecordFormat(), Enc(r)[..n]);
        assert tail == Enc(r)[..n];
      } else {
        if |tail| >= 2 { assert tail[0] == Enc(r)[p] && tail[1] == Enc(r)[p + 1]; }
        NoMagicNoFrame(tail);
      }
    }
  }

  lemma NoMagicNoFrame(s: bytes)
    requires |s| < 2 || s[0] != MAGIC[0] || s[1] != MAGIC[1]
    ensures ReadFrame(s).None?
  {
  }

  /** The bytes behind the last whole frame are the front of the next one. */
  lemma TailIsBarren(s: Db)
    requires Inv(s) && AllClean(s.hist)
    ensures Barren(RecordFormat(), TornTail(s))
  {
    hide Enc, EncAll, ApplyFrames, FrameOps, Whole, Torn, RecordFormat, FramesOk, Barren, DiskOk, StoreOk, PointersOk,
      SnapshotOk;
    BarrenNothing(TornTail(s));
    if !s.c.phase.WalRenamed? {
      var rs, w := s.hist[s.start..], Flushed(s) - s.start;
      FramesOkSlice(s.hist, s.start, |s.hist|);
      assert s.hist[s.start..|s.hist|] == rs;
      GoodFrames(rs);
      var torn := WholeThenTorn(rs, s.landed);
      assert rs[..w] == s.hist[s.start..Flushed(s)];
      TailOfFront(Log(s), s.landed, EncAll(rs[..w]), torn);
      if torn != [] {
        assert rs[w] == s.hist[s.start + w] && IsClean(s.hist[s.start + w]);
        assert Barren(RecordFormat(), Enc(rs[w])[..|torn|]);
      }
    }
  }

  /** Every frame that a writer appends in a run is clean. */
  ghost predicate WritesClean(actions: seq<Action>) {
    forall j :: 0 <= j < |actions| && actions[j].Write? && Writable(actions[j].cmd) ==> IsClean(FrameOf(actions[j].cmd))
  }

  lemma StepStaysClean(s: Db, a: Action)
    requires Enabled(s, a) && AllClean(s.hist) && (a.Write? ==> IsClean(FrameOf(a.cmd)))
    ensures AllClean(Step(s, a).hist)
  {
    hide IsClean, Loaded, CanRecover, Log, Whole, EncAll;
  }

  lemma {:induction false} EveryFrameClean(states: seq<Db>, actions: seq<Action>, i: nat)
    requires IsRun(states, actions) && i <= |actions| && WritesClean(actions)
    ensures AllClean(states[i].hist)
  {
    hide IsClean, Step;
    if i > 0 {
      EveryFrameClean(states, actions, i - 1);
      assert states[i - 1 + 1] == Step(states[i - 1], actions[i - 1]);
      StepStaysClean(states[i - 1], actions[i - 1]);
    }
  }

  /** In the default mode, which resynchronises over bad bytes, the same holds of every run whose writers append
      clean frames only. */
  lemma DurableByDefault(states: seq<Db>, actions: seq<Action>, i: nat, clock: seq<int>, t: int)
    requires IsRun(states, actions) && i <= |actions| && states[i].start <= |states[i].hist| && WritesClean(actions)
    requires |clock| == |RecoveredOps(EncAll(states[i].diskSnap), DiskWal(states[i]), false)|
    requires t >= states[i].now && forall j :: 0 <= j < |clock| ==> clock[j] <= t
    ensures var s := states[i];
            forall k ::
              SameView(Recover(EncAll(s.diskSnap), DiskWal(s), false, clock), ApplyFrames(map[], s.hist[..Flushed(s)]),
              k, t)
  {
    hide Inv, Recover, DiskWal, WritesClean, AllClean, RecoveredOps, Barren;
    EveryStateInv(states, actions, i);
    EveryFrameClean(states, actions, i);
    TailIsBarren(states[i]);
    SurvivedIsFlushed(states[i]);
    RecoverIsRight(states[i], false, clock, t);
  }

  lemma SurvivedIsFlushed(s: Db)
    requires Inv(s)
    ensures Survived(s) == s.hist[..Flushed(s)]
  {
    SurvivedShape(s);
  }

  /** In every run, a live record that points to a file reads back exactly the bytes of its latest
      set, before, during and after the rotation. */
  lemma PointersReadBack(states: seq<Db>, actions: seq<Action>, i: nat, k: Key)
    requires IsRun(states, actions) && i <= |actions| && states[i].start <= |states[i].hist|
    requires k in states[i].store && states[i].store[k].entry.LiveAt(states[i].now)
    ensures Materialize(states[i], states[i].store[k]) == states[i].store[k].entry.value
    ensures View(ApplyFrames(map[], states[i].hist), k, states[i].now) == Some(states[i].store[k].entry)
  {
    EveryStateInv(states, actions, i);
    var s := states[i];
    LiveReadsBack(s, k);
  }

  lemma LiveReadsBack(s: Db, k: Key)
    requires Inv(s) && k in s.store && s.store[k].entry.LiveAt(s.now)
    ensures Materialize(s, s.store[k]) == s.store[k].entry.value
    ensures View(ApplyFrames(map[], s.hist), k, s.now) == Some(s.store[k].entry)
  {
    hide Enc, EncAll, FrameOps, Whole, FramesOk, ApplyFrames;
    MaterializeRight(s, s.store[k]);
    assert SameView(Entries(s.store), ApplyFrames(map[], s.hist), k, s.now);
    assert View(Entries(s.store), k, s.now) == View(ApplyFrames(map[], s.hist), k, s.now);
  }
}
