/** What the durability machine keeps true, and that the steps up to the end of the snapshot keep it. */
module Invariant {
  import opened Bytes
  import opened Framing
  import opened Codec
  import opened Replay
  import opened Commands
  import opened Durability
  import opened LogFacts
  import opened StoreFacts

  // ---- The invariant -----------------------------------------------------------------------

  /** Every key of a snapshot was taken at some moment between two frames. */
  ghost predicate Taken(snap: seq<Record>, hist: seq<Record>, lo: nat, hi: nat, now: int) {
    forall k :: TakenAt(ApplyFrames(map[], snap), k, hist, lo, hi, now)
  }

  /** While the snapshot iterates: a key is taken, or still to be visited, or absent. */
  ghost predicate Taking(snap: seq<Record>, todo: set<Key>, store: Table, hist: seq<Record>, lo: nat, now: int) {
    forall k :: TakingKey(ApplyFrames(map[], snap), k, todo, store, hist, lo, now)
  }

  ghost predicate TakingKey(snap: Content, k: Key, todo: set<Key>, store: Table, hist: seq<Record>, lo: nat, now: int) {
    TakenAt(snap, k, hist, lo, |hist|, now) || (k !in snap && (k in todo || k !in store))
  }

  /** A record alive at `deadline` reads back its value from wherever it points. */
  ghost predicate PointsRight(rec: Rec, snap: bytes, hist: seq<Record>, start: nat, landed: nat, deadline: int) {
    rec.entry.LiveAt(deadline) ==>
      match rec.ref
      case Memory => true
      case Disk(loc) =>
        && loc.len == |rec.entry.value|
        && if loc.inSnap then rec.born == -1 && HoldsAt(snap, rec.entry.value, loc.off)
           else
             && InFrame(rec.entry.value, loc.off, rec.born, hist, start)
             && OffsetOf(hist, start, rec.born + 1) <= landed
  }

  ghost predicate AllPointRight(store: Table, snap: bytes, hist: seq<Record>, start: nat, landed: nat, deadline: int) {
    forall k :: k in store ==> PointsRight(store[k], snap, hist, start, landed, deadline)
  }

  /** A pending pointer of the current WAL finds the value of its record, if that is still current. */
  ghost predicate PubRight(p: Pub, store: Table, hist: seq<Record>, start: nat, gen: nat, nextStamp: nat) {
    && p.gen <= gen && p.stamp < nextStamp
    && (p.gen == gen ==>
          && start <= p.frame < |hist|
          && (p.key in store && store[p.key].stamp == p.stamp ==>
                && store[p.key].born == p.frame && p.len == |store[p.key].entry.value|
                && InFrame(store[p.key].entry.value, p.off, p.frame, hist, start)))
  }

  ghost predicate PubsRight(pubs: set<Pub>, store: Table, hist: seq<Record>, start: nat, gen: nat, nextStamp: nat) {
    forall p :: p in pubs ==> PubRight(p, store, hist, start, gen, nextStamp)
  }

  /** A record written before the fence is still to be visited, or its value is in the snapshot. */
  ghost predicate Movable(k: Key, rec: Rec, todo: set<Key>, locs: map<Key, Loc>, snapTmp: bytes, base: nat,
      snapNow: int) {
    rec.born < base && rec.entry.LiveAt(snapNow) ==>
      k in todo
        || (k in locs && locs[k].inSnap && locs[k].len == |rec.entry.value|
        && HoldsAt(snapTmp, rec.entry.value, locs[k].off))
  }

  ghost predicate AllMovable(store: Table, todo: set<Key>, locs: map<Key, Loc>, snapTmp: bytes, base: nat,
      snapNow: int) {
    forall k :: k in store ==> Movable(k, store[k], todo, locs, snapTmp, base, snapNow)
  }

  predicate Renamed(p: Phase) { p.SnapRenamed? || p.WalRenamed? }

  predicate Iterated(p: Phase) { p.Copying? || p.Rotating? || p.SnapRenamed? || p.WalRenamed? }

  ghost predicate LogOk(s: Db) {
    && s.start <= |s.hist| && s.landed <= |Log(s)|
    && FramesOk(s.hist) && FramesOk(s.snap) && FramesOk(s.diskSnap)
    && s.deadline <= s.now
  }

  ghost predicate CompactionOk(s: Db)
    requires s.start <= |s.hist|
  {
    && s.c.base <= |s.hist|
    && s.c.todo <= s.store.Keys
    && (!s.c.phase.Snapshotting? ==> s.c.todo == {})
    && (s.sealed <==> s.c.phase.Rotating? || Renamed(s.c.phase))
    && (!s.c.phase.Idle? ==> CopyOk(s) && s.deadline <= s.c.snapNow <= s.now && FramesOk(s.c.snapTmp))
    && (Renamed(s.c.phase) ==> s.landed == |Log(s)| && s.c.appended && s.c.copied == s.landed)
    && (Renamed(s.c.phase) ==> s.diskSnap == s.c.snapTmp)
    && (!Renamed(s.c.phase) ==> s.diskSnap == s.snap)
  }

  /** The new WAL file holds the tail from the fence to `copied`. */
  ghost predicate CopyOk(s: Db)
    requires s.start <= |s.hist|
  {
    && s.start <= s.c.base <= |s.hist|
    && var baseOff := OffsetOf(s.hist, s.start, s.c.base);
       && baseOff <= s.c.copied <= s.landed
       && (if s.c.appended then s.c.walTmp == Slice(Log(s), baseOff, s.c.copied) else s.c.copied == baseOff)
  }

  ghost predicate SnapshotOk(s: Db) {
    && (s.c.phase.Snapshotting? ==> Taking(s.c.snapTmp, s.c.todo, s.store, s.hist, s.c.base, s.now))
    && (Iterated(s.c.phase) ==> Taken(s.c.snapTmp, s.hist, s.c.base, |s.hist|, s.now))
    && (s.c.phase.Snapshotting? || Iterated(s.c.phase) ==>
          AllMovable(s.store, s.c.todo, s.c.locs, EncAll(s.c.snapTmp), s.c.base, s.c.snapNow))
  }

  /** The snapshot at the path reaches back no further than the WAL that will be replayed over it. */
  ghost predicate DiskOk(s: Db)
    requires s.start <= |s.hist|
  {
    Taken(s.diskSnap, s.hist, if Renamed(s.c.phase) then s.c.base else s.start, Flushed(s), s.now)
  }

  ghost predicate StoreOk(s: Db) {
    && Shows(s.store, ApplyFrames(map[], s.hist), s.now)
    && StampsBelow(s.store, s.nextStamp)
    && EntriesFit(Entries(s.store))
    && forall k :: k in s.store ==> s.store[k].born < |s.hist|
  }

  ghost predicate PointersOk(s: Db)
    requires s.start <= |s.hist|
  {
    && AllPointRight(s.store, EncAll(s.snap), s.hist, s.start, s.landed, s.deadline)
    && PubsRight(s.pubs, s.store, s.hist, s.start, s.gen, s.nextStamp)
  }

  ghost predicate Inv(s: Db) {
    LogOk(s) && CompactionOk(s) && SnapshotOk(s) && DiskOk(s) && StoreOk(s) && PointersOk(s)
  }

  // ---- Growing histories -------------------------------------------------------------------

  lemma TakenAtGrows(s: Content, k: Key, hist: seq<Record>, more: seq<Record>, lo: nat, hi: nat, hi': nat, now: int,
      now': int)
    requires TakenAt(s, k, hist, lo, hi, now) && hi <= hi' <= |hist| + |more| && now <= now'
    ensures TakenAt(s, k, hist + more, lo, hi', now')
  {
    var n :| lo <= n <= hi <= |hist| && SameView(s, ApplyFrames(map[], hist[..n]), k, now);
    assert (hist + more)[..n] == hist[..n];
    assert SameView(s, ApplyFrames(map[], (hist + more)[..n]), k, now');
  }

  lemma TakenGrows(snap: seq<Record>, hist: seq<Record>, more: seq<Record>, lo: nat, hi: nat, hi': nat, now: int,
      now': int)
    requires Taken(snap, hist, lo, hi, now) && hi <= hi' <= |hist| + |more| && now <= now'
    ensures Taken(snap, hist + more, lo, hi', now')
  {
    var s := ApplyFrames(map[], snap);
    forall k ensures TakenAt(s, k, hist + more, lo, hi', now') {
      assert TakenAt(s, k, hist, lo, hi, now);
      TakenAtGrows(s, k, hist, more, lo, hi, hi', now, now');
    }
  }

  lemma TakenLater(snap: seq<Record>, hist: seq<Record>, lo: nat, hi: nat, hi': nat, now: int, now': int)
    requires Taken(snap, hist, lo, hi, now) && hi <= hi' <= |hist| && now <= now'
    ensures Taken(snap, hist, lo, hi', now')
  {
    TakenGrows(snap, hist, [], lo, hi, hi', now, now');
    assert hist + [] == hist;
  }

  lemma TakenOfPrefix(snap: seq<Record>, hist: seq<Record>, lo: nat, hi: nat, n: nat, now: int, now': int)
    requires Taken(snap, hist, lo, hi, now) && hi <= n <= |hist| && now <= now'
    ensures Taken(snap, hist[..n], lo, hi, now')
  {
    var s := ApplyFrames(map[], snap);
    forall k ensures TakenAt(s, k, hist[..n], lo, hi, now') {
      assert TakenAt(s, k, hist, lo, hi, now);
      var m :| lo <= m <= hi <= |hist| && SameView(s, ApplyFrames(map[], hist[..m]), k, now);
      assert hist[..n][..m] == hist[..m];
      assert SameView(s, ApplyFrames(map[], hist[..n][..m]), k, now');
    }
  }

  lemma TakenFrom(snap: seq<Record>, hist: seq<Record>, lo: nat, lo': nat, hi: nat, now: int)
    requires Taken(snap, hist, lo, hi, now) && lo' <= lo
    ensures Taken(snap, hist, lo', hi, now)
  {
    var s := ApplyFrames(map[], snap);
    forall k ensures TakenAt(s, k, hist, lo', hi, now) {
      assert TakenAt(s, k, hist, lo, hi, now);
    }
  }

  lemma InFrameGrows(value: bytes, off: nat, i: int, hist: seq<Record>, start: nat, r: Record)
    requires InFrame(value, off, i, hist, start)
    ensures InFrame(value, off, i, hist + [r], start)
    ensures OffsetOf(hist + [r], start, i + 1) == OffsetOf(hist, start, i + 1)
  {
    OffsetStable(hist, [r], start, i);
    OffsetStable(hist, [r], start, i + 1);
    LogGrows(hist, start, r);
    HoldsLonger(EncAll(hist[start..]), Enc(r), value, off);
  }

  // ---- Time, landing bytes, expiry ---------------------------------------------------------

  lemma ShowsLater(store: Table, content: Content, now: int, now': int)
    requires Shows(store, content, now) && now <= now'
    ensures Shows(store, content, now')
  {
    forall k ensures SameView(Entries(store), content, k, now') { assert SameView(Entries(store), content, k, now); }
  }

  lemma TakingLater(snap: seq<Record>, todo: set<Key>, store: Table, hist: seq<Record>, lo: nat, now: int, now': int)
    requires Taking(snap, todo, store, hist, lo, now) && now <= now'
    ensures Taking(snap, todo, store, hist, lo, now')
  {
    var s := ApplyFrames(map[], snap);
    forall k ensures TakingKey(s, k, todo, store, hist, lo, now') {
      assert TakingKey(s, k, todo, store, hist, lo, now);
      if TakenAt(s, k, hist, lo, |hist|, now) {
        TakenAtGrows(s, k, hist, [], lo, |hist|, |hist|, now, now');
        assert hist + [] == hist;
      }
    }
  }

  function Lo(s: Db): nat { if Renamed(s.c.phase) then s.c.base else s.start }

  lemma TickKeeps(s: Db, t: int)
    requires Inv(s) && t >= s.now
    ensures Inv(s.(now := t))
  {
    hide Enc, EncAll, FrameOps, ApplyFrames, FramesOk;
    var s' := s.(now := t);
    assert DiskOk(s') by { TakenLater(s.diskSnap, s.hist, Lo(s), Flushed(s), Flushed(s), s.now, t); }
    assert StoreOk(s') by { ShowsLater(s.store, ApplyFrames(map[], s.hist), s.now, t); }
    assert SnapshotOk(s') by {
      if Iterated(s.c.phase) { TakenLater(s.c.snapTmp, s.hist, s.c.base, |s.hist|, |s.hist|, s.now, t); }
      if s.c.phase.Snapshotting? { TakingLater(s.c.snapTmp, s.c.todo, s.store, s.hist, s.c.base, s.now, t); }
    }
  }

  lemma LandedMore(store: Table, snap: bytes, hist: seq<Record>, start: nat, n: nat, m: nat, deadline: int)
    requires n <= m && AllPointRight(store, snap, hist, start, n, deadline)
    ensures AllPointRight(store, snap, hist, start, m, deadline)
  {
    forall k | k in store ensures PointsRight(store[k], snap, hist, start, m, deadline) {
      assert PointsRight(store[k], snap, hist, start, n, deadline);
    }
  }

  lemma LandKeeps(s: Db, n: nat)
    requires Inv(s) && s.landed + n <= |Log(s)|
    ensures Inv(s.(landed := s.landed + n))
  {
    var s' := s.(landed := s.landed + n);
    WholeMonotone(s.hist[s.start..], s.landed, s'.landed);
    TakenLater(s.diskSnap, s.hist, Lo(s), Flushed(s), Flushed(s'), s.now, s.now);
    LandedMore(s.store, EncAll(s.snap), s.hist, s.start, s.landed, s'.landed, s.deadline);
  }

  /** Removing a key from the store and from the iteration. */
  lemma DropPointers(s: Db, k: Key)
    requires LogOk(s) && PointersOk(s)
    ensures PointersOk(s.(store := s.store - {k}))
  {
    var store := s.store - {k};
    forall p | p in s.pubs ensures PubRight(p, store, s.hist, s.start, s.gen, s.nextStamp) {
      assert PubRight(p, s.store, s.hist, s.start, s.gen, s.nextStamp);
    }
    forall x | x in store ensures PointsRight(store[x], EncAll(s.snap), s.hist, s.start, s.landed, s.deadline) {
      assert PointsRight(s.store[x], EncAll(s.snap), s.hist, s.start, s.landed, s.deadline);
    }
  }

  lemma DropMovable(store: Table, k: Key, todo: set<Key>, locs: map<Key, Loc>, snapTmp: bytes, base: nat, snapNow: int)
    requires AllMovable(store, todo, locs, snapTmp, base, snapNow)
    ensures AllMovable(store - {k}, todo - {k}, locs, snapTmp, base, snapNow)
  {
    forall x | x in store - {k} ensures Movable(x, (store - {k})[x], todo - {k}, locs, snapTmp, base, snapNow) {
      assert Movable(x, store[x], todo, locs, snapTmp, base, snapNow);
    }
  }

  lemma DropTaking(snap: seq<Record>, todo: set<Key>, store: Table, k: Key, hist: seq<Record>, lo: nat, now: int)
    requires Taking(snap, todo, store, hist, lo, now)
    ensures Taking(snap, todo - {k}, store - {k}, hist, lo, now)
  {
    var s := ApplyFrames(map[], snap);
    forall x ensures TakingKey(s, x, todo - {k}, store - {k}, hist, lo, now) {
      assert TakingKey(s, x, todo, store, hist, lo, now);
    }
  }

  lemma ExpireStore(s: Db, k: Key)
    requires StoreOk(s) && k in s.store && !s.store[k].entry.LiveAt(s.now)
    ensures StoreOk(s.(store := s.store - {k}))
  {
    var store := s.store - {k};
    RemoveDead(Mem(s.store, {}, 0), k, s.now, ApplyFrames(map[], s.hist));
    assert Reap(Mem(s.store, {}, 0), k, s.now).store == store;
    forall x | x in Entries(store) ensures FitsAt(Entries(store), x) { assert FitsAt(Entries(s.store), x); }
  }

  lemma ExpireKeeps(s: Db, k: Key)
    requires Inv(s) && k in s.store && !s.store[k].entry.LiveAt(s.now)
    ensures Inv(s.(store := s.store - {k}, c := s.c.(todo := s.c.todo - {k})))
  {
    hide Enc, EncAll, FrameOps, ApplyFrames, FramesOk;
    var s' := s.(store := s.store - {k}, c := s.c.(todo := s.c.todo - {k}));
    assert StoreOk(s') by { ExpireStore(s, k); }
    assert CompactionOk(s');
    assert SnapshotOk(s') by {
      if s.c.phase.Snapshotting? { DropTaking(s.c.snapTmp, s.c.todo, s.store, k, s.hist, s.c.base, s.now); }
      if s.c.phase.Snapshotting? || Iterated(s.c.phase) {
        DropMovable(s.store, k, s.c.todo, s.c.locs, EncAll(s.c.snapTmp), s.c.base, s.c.snapNow);
      }
    }
    assert PointersOk(s') by { DropPointers(s, k); }
  }

  // ---- Writes ------------------------------------------------------------------------------

  function After(s: Db, cmd: Cmd): Mem {
    PutOps(Mem(s.store, s.c.todo, s.nextStamp), CmdOps(cmd), s.now, |s.hist|, s.c.phase.Snapshotting?)
  }

  lemma WriteStore(s: Db, cmd: Cmd)
    requires StoreOk(s) && s.start <= |s.hist| && Writable(cmd)
    ensures StoreOk(DoWrite(s, cmd))
  {
    var m, it := Mem(s.store, s.c.todo, s.nextStamp), s.c.phase.Snapshotting?;
    var ops, now, born := CmdOps(cmd), s.now, |s.hist|;
    var content := ApplyFrames(map[], s.hist);
    PutOpsShow(m, ops, now, born, it, content);
    FrameMeansOps(cmd);
    ApplyFramesAppend(map[], s.hist, [FrameOf(cmd)]);
    assert [FrameOf(cmd)][1..] == [];
    assert ApplyFrames(content, [FrameOf(cmd)]) == ApplyOps(content, OpsOfBatch(ops));
    PutOpsEffect(m, ops, now, born, it);
    PutOpsFit(m, ops, now, born, it);
  }

  lemma WriteTaking(snap: seq<Record>, m: Mem, m': Mem, hist: seq<Record>, r: Record, lo: nat, now: int)
    requires Taking(snap, m.todo, m.store, hist, lo, now) && TodoKept(m, m', true)
    ensures Taking(snap, m'.todo, m'.store, hist + [r], lo, now)
  {
    var s := ApplyFrames(map[], snap);
    forall k ensures TakingKey(s, k, m'.todo, m'.store, hist + [r], lo, now) {
      assert TakingKey(s, k, m.todo, m.store, hist, lo, now);
      if TakenAt(s, k, hist, lo, |hist|, now) { TakenAtGrows(s, k, hist, [r], lo, |hist|, |hist| + 1, now, now); }
    }
  }

  lemma WriteMovable(m: Mem, m': Mem, born: nat, locs: map<Key, Loc>, snapTmp: bytes, base: nat, snapNow: int)
    requires AllMovable(m.store, m.todo, locs, snapTmp, base, snapNow) && Effect(m, m', born) && base <= born
    ensures AllMovable(m'.store, m'.todo, locs, snapTmp, base, snapNow)
  {
    forall k | k in m'.store ensures Movable(k, m'.store[k], m'.todo, locs, snapTmp, base, snapNow) {
      if k in m.store && m'.store[k] == m.store[k] {
        assert Movable(k, m.store[k], m.todo, locs, snapTmp, base, snapNow);
      }
    }
  }

  lemma WriteSnapshot(s: Db, cmd: Cmd)
    requires Inv(s) && Writable(cmd)
    ensures SnapshotOk(DoWrite(s, cmd))
  {
    var m, it := Mem(s.store, s.c.todo, s.nextStamp), s.c.phase.Snapshotting?;
    var m', hist' := After(s, cmd), s.hist + [FrameOf(cmd)];
    assert it ==> Taking(s.c.snapTmp, m'.todo, m'.store, hist', s.c.base, s.now) by {
      PutOpsTodo(m, CmdOps(cmd), s.now, |s.hist|, it);
      if it { WriteTaking(s.c.snapTmp, m, m', s.hist, FrameOf(cmd), s.c.base, s.now); }
    }
    assert Iterated(s.c.phase) ==> Taken(s.c.snapTmp, hist', s.c.base, |hist'|, s.now) by {
      if Iterated(s.c.phase) {
        TakenGrows(s.c.snapTmp, s.hist, [FrameOf(cmd)], s.c.base, |s.hist|, |s.hist| + 1, s.now, s.now);
      }
    }
    if it || Iterated(s.c.phase) {
      PutOpsEffect(m, CmdOps(cmd), s.now, |s.hist|, it);
      WriteMovable(m, m', |s.hist|, s.c.locs, EncAll(s.c.snapTmp), s.c.base, s.c.snapNow);
    }
  }

  lemma WritePointsRight(s: Db, cmd: Cmd)
    requires Inv(s) && Writable(cmd)
    ensures var s' := DoWrite(s, cmd);
            AllPointRight(s'.store, EncAll(s'.snap), s'.hist, s'.start, s'.landed, s'.deadline)
  {
    var s' := DoWrite(s, cmd);
    PutOpsEffect(Mem(s.store, s.c.todo, s.nextStamp), CmdOps(cmd), s.now, |s.hist|, s.c.phase.Snapshotting?);
    forall k | k in s'.store ensures PointsRight(s'.store[k], EncAll(s.snap), s'.hist, s.start, s.landed, s.deadline) {
      if k in s.store && s'.store[k] == s.store[k] {
        RecGrows(s.store[k], EncAll(s.snap), s.hist, s.start, s.landed, s.deadline, FrameOf(cmd));
      }
    }
  }

  lemma RecGrows(rec: Rec, snap: bytes, hist: seq<Record>, start: nat, landed: nat, deadline: int, r: Record)
    requires PointsRight(rec, snap, hist, start, landed, deadline)
    ensures PointsRight(rec, snap, hist + [r], start, landed, deadline)
  {
    hide EncAll, InFrame, OffsetOf, HoldsAt;
    if rec.entry.LiveAt(deadline) && rec.ref.Disk? && !rec.ref.loc.inSnap {
      InFrameGrows(rec.entry.value, rec.ref.loc.off, rec.born, hist, start, r);
    }
  }

  lemma OldPubGrows(p: Pub, m: Mem, m': Mem, hist: seq<Record>, start: nat, gen: nat, r: Record)
    requires PubRight(p, m.store, hist, start, gen, m.nextStamp) && Effect(m, m', |hist|)
    ensures PubRight(p, m'.store, hist + [r], start, gen, m'.nextStamp)
  {
    hide EncAll, InFrame, OffsetOf, HoldsAt;
    if p.gen == gen && p.key in m'.store && m'.store[p.key].stamp == p.stamp {
      assert m'.store[p.key] == m.store[p.key];
      InFrameGrows(m.store[p.key].entry.value, p.off, p.frame, hist, start, r);
    }
  }

  /** The value of a new record, found where its pointer was predicted. */
  lemma NewFrameHolds(value: bytes, off: nat, hist: seq<Record>, start: nat, r: Record)
    requires start <= |hist| && HoldsAt(Enc(r), value, off)
    ensures InFrame(value, |EncAll(hist[start..])| + off, |hist|, hist + [r], start)
  {
    LogGrows(hist, start, r);
    HoldsBehind(EncAll(hist[start..]), Enc(r), value, off);
  }

  lemma NewPubRight(p: Pub, store: Table, sets: map<Key, (nat, nat)>, hist: seq<Record>, start: nat, gen: nat,
                    nextStamp: nat, r: Record)
    requires start <= |hist| && SetsPlaced(store, sets, Enc(r), |hist|) && StampsBelow(store, nextStamp)
    requires p in NewPubs(store, sets, gen, |EncAll(hist[start..])|, |hist|)
    ensures PubRight(p, store, hist + [r], start, gen, nextStamp)
  {
    var k := p.key;
    assert k in sets && k in store
      && p == Pub(k, store[k].stamp, gen, |EncAll(hist[start..])| + sets[k].0, sets[k].1, |hist|);
    NewFrameHolds(store[k].entry.value, sets[k].0, hist, start, r);
  }

  lemma WritePubs(s: Db, cmd: Cmd)
    requires Inv(s) && Writable(cmd)
    ensures var s' := DoWrite(s, cmd); PubsRight(s'.pubs, s'.store, s'.hist, s'.start, s'.gen, s'.nextStamp)
  {
    var s' := DoWrite(s, cmd);
    var m, m', it, r := Mem(s.store, s.c.todo, s.nextStamp), After(s, cmd), s.c.phase.Snapshotting?, FrameOf(cmd);
    var sets := LastSets(map[], CmdOps(cmd), ValueOffs(cmd));
    CommandIsGood(cmd);
    assert SetsPlaced(m'.store, sets, Enc(r), |s.hist|) by {
      PutOpsPlaced(m, CmdOps(cmd), ValueOffs(cmd), map[], Enc(r), s.now, |s.hist|, it);
    }
    PutOpsEffect(m, CmdOps(cmd), s.now, |s.hist|, it);
    forall p | p in s'.pubs ensures PubRight(p, s'.store, s'.hist, s.start, s.gen, s'.nextStamp) {
      if p in s.pubs {
        OldPubGrows(p, m, m', s.hist, s.start, s.gen, r);
      } else {
        NewPubRight(p, m'.store, sets, s.hist, s.start, s.gen, m'.nextStamp, r);
      }
    }
  }

  lemma CopyGrows(s: Db, r: Record)
    requires LogOk(s) && s.c.base <= |s.hist| && CopyOk(s)
    ensures CopyOk(s.(hist := s.hist + [r]))
  {
    hide Enc, EncAll, FramesOk;
    LogGrows(s.hist, s.start, r);
    OffsetStable(s.hist, [r], s.start, s.c.base);
  }

  lemma WriteLog(s: Db, cmd: Cmd)
    requires Inv(s) && Enabled(s, Write(cmd))
    ensures LogOk(DoWrite(s, cmd)) && CompactionOk(DoWrite(s, cmd))
  {
    hide Enc, EncAll, FrameOps, ApplyFrames;
    CommandIsGood(cmd);
    LogGrows(s.hist, s.start, FrameOf(cmd));
    FramesOkOneMore(s.hist, FrameOf(cmd));
    if !s.c.phase.Idle? { CopyGrows(s, FrameOf(cmd)); }
    PutOpsTodo(Mem(s.store, s.c.todo, s.nextStamp), CmdOps(cmd), s.now, |s.hist|, s.c.phase.Snapshotting?);
  }

  lemma WriteKeeps(s: Db, cmd: Cmd)
    requires Inv(s) && Enabled(s, Write(cmd))
    ensures Inv(DoWrite(s, cmd))
  {
    var s', r := DoWrite(s, cmd), FrameOf(cmd);
    WriteLog(s, cmd);
    hide Enc, EncAll, FrameOps, ApplyFrames, FramesOk, PutOps;
    assert DiskOk(s') by {
      assert (s.hist + [r])[s.start..] == s.hist[s.start..] + [r];
      CommandIsGood(cmd);
      WholeOfLonger(s.hist[s.start..], r, s.landed);
      TakenGrows(s.diskSnap, s.hist, [r], Lo(s), Flushed(s), Flushed(s'), s.now, s.now);
    }
    assert StoreOk(s') by { WriteStore(s, cmd); }
    assert SnapshotOk(s') by { WriteSnapshot(s, cmd); }
    WritePointsRight(s, cmd);
    WritePubs(s, cmd);
  }

  // ---- Publishing a pointer ----------------------------------------------------------------

  lemma PubOutlives(q: Pub, k: Key, rec: Rec, store: Table, hist: seq<Record>, start: nat, gen: nat, nextStamp: nat)
    requires PubRight(q, store, hist, start, gen, nextStamp) && rec.stamp == nextStamp
    ensures PubRight(q, store[k := rec], hist, start, gen, nextStamp + 1)
  {
    hide InFrame;
  }

  /** A pointer whose frame has landed reads the value of the record it is published for. */
  lemma PublishedReads(p: Pub, rec: Rec, store: Table, snap: bytes, hist: seq<Record>, start: nat, gen: nat,
                       nextStamp: nat, landed: nat, deadline: int)
    requires PubRight(p, store, hist, start, gen, nextStamp) && p.gen == gen
    requires p.key in store && store[p.key].stamp == p.stamp && OffsetOf(hist, start, p.frame + 1) <= landed
    requires rec.entry == store[p.key].entry && rec.born == store[p.key].born
      && rec.ref == Disk(Loc(false, p.off, p.len))
    ensures PointsRight(rec, snap, hist, start, landed, deadline)
  {
    hide InFrame, OffsetOf;
  }

  lemma PublishPointers(s: Db, p: Pub)
    requires LogOk(s) && PointersOk(s) && p in s.pubs
    requires p.gen == s.gen ==> s.start <= p.frame < |s.hist| && OffsetOf(s.hist, s.start, p.frame + 1) <= s.landed
    ensures PointersOk(DoPublish(s, p))
  {
    hide PubRight, PointsRight, OffsetOf, EncAll, FramesOk;
    var s' := DoPublish(s, p);
    if s' != s {
      var rec := s'.store[p.key];
      forall q | q in s.pubs ensures PubRight(q, s'.store, s.hist, s.start, s.gen, s'.nextStamp) {
        PubOutlives(q, p.key, rec, s.store, s.hist, s.start, s.gen, s.nextStamp);
      }
      forall k | k in s'.store ensures PointsRight(s'.store[k], EncAll(s.snap), s.hist, s.start, s.landed, s.deadline) {
        if k == p.key {
          PublishedReads(p, rec, s.store, EncAll(s.snap), s.hist, s.start, s.gen, s.nextStamp, s.landed, s.deadline);
        } else {
          assert PointsRight(s.store[k], EncAll(s.snap), s.hist, s.start, s.landed, s.deadline);
        }
      }
    }
  }

  lemma PublishSnapshot(s: Db, p: Pub)
    requires LogOk(s) && SnapshotOk(s)
    ensures SnapshotOk(DoPublish(s, p))
  {
    var s' := DoPublish(s, p);
    assert s'.store.Keys == s.store.Keys;
    if s.c.phase.Snapshotting? {
      var snap := ApplyFrames(map[], s.c.snapTmp);
      forall k ensures TakingKey(snap, k, s.c.todo, s'.store, s.hist, s.c.base, s.now) {
        assert TakingKey(snap, k, s.c.todo, s.store, s.hist, s.c.base, s.now);
      }
    }
    if s.c.phase.Snapshotting? || Iterated(s.c.phase) {
      forall k | k in s'.store
        ensures Movable(k, s'.store[k], s.c.todo, s.c.locs, EncAll(s.c.snapTmp), s.c.base, s.c.snapNow)
      {
        assert Movable(k, s.store[k], s.c.todo, s.c.locs, EncAll(s.c.snapTmp), s.c.base, s.c.snapNow);
      }
    }
  }

  /** Publishing changes no entry and no key. */
  lemma PublishStore(s: Db, p: Pub)
    requires StoreOk(s)
    ensures StoreOk(DoPublish(s, p)) && DoPublish(s, p).store.Keys == s.store.Keys
  {
    hide SameView, EntriesFit, ApplyFrames;
    assert Entries(DoPublish(s, p).store) == Entries(s.store);
  }

  lemma PublishRest(s: Db, p: Pub)
    requires LogOk(s) && CompactionOk(s) && DiskOk(s) && DoPublish(s, p).store.Keys == s.store.Keys
    ensures var s' := DoPublish(s, p); LogOk(s') && CompactionOk(s') && DiskOk(s')
  {
    hide EncAll, FramesOk, Whole, Taken, OffsetOf;
  }

  lemma PublishKeeps(s: Db, p: Pub)
    requires Inv(s) && Enabled(s, Publish(p))
    ensures Inv(DoPublish(s, p))
  {
    hide StoreOk, CompactionOk, DiskOk, SnapshotOk, LogOk, DoPublish, EncAll, OffsetOf;
    PubInRange(s, p);
    PublishPointers(s, p);
    PublishSnapshot(s, p);
    PublishStore(s, p);
    PublishRest(s, p);
  }

  lemma PubInRange(s: Db, p: Pub)
    requires s.start <= |s.hist| && PointersOk(s) && p in s.pubs
    ensures p.gen == s.gen ==> s.start <= p.frame < |s.hist|
  {
    hide InFrame, PointsRight;
    assert PubRight(p, s.store, s.hist, s.start, s.gen, s.nextStamp);
  }

  // ---- The snapshot ------------------------------------------------------------------------

  /** A step of the compaction alone leaves the log, the disk, the store and the pointers right. */
  lemma OnlyCompaction(s: Db, c: Compaction)
    requires Inv(s) && Renamed(c.phase) == Renamed(s.c.phase) && (Renamed(c.phase) ==> c.base == s.c.base)
    ensures var s' := s.(c := c); LogOk(s') && DiskOk(s') && StoreOk(s') && PointersOk(s')
  {
    hide CompactionOk, SnapshotOk, Shows, StampsBelow, EntriesFit, AllPointRight, PubsRight, Taken, Whole, EncAll,
      FramesOk;
  }

  lemma FenceKeeps(s: Db)
    requires Inv(s) && Enabled(s, TakeFence)
    ensures Inv(DoFence(s))
  {
    hide Enc, EncAll, FrameOps, ApplyFrames, FramesOk, Whole, TakenAt, StoreOk, PointersOk, DiskOk, SnapshotOk;
    OnlyCompaction(s, DoFence(s).c);
    FenceSnapshot(s);
    EmptySnapshot();
  }

  lemma FenceSnapshot(s: Db)
    requires s.start <= |s.hist|
    ensures SnapshotOk(DoFence(s))
  {
    hide EncAll, Taking, Taken, AllMovable;
  }

  lemma EmptySnapshot()
    ensures FramesOk([]) && ApplyFrames(map[], []) == map[]
  {
  }

  lemma BeginKeeps(s: Db)
    requires Inv(s) && Enabled(s, BeginSnapshot)
    ensures Inv(Step(s, BeginSnapshot))
  {
    hide Enc, EncAll, FrameOps, ApplyFrames, FramesOk, SnapshotOk, LogOk, StoreOk, PointersOk, DiskOk, Whole, OffsetOf;
    EmptySnapshot();
    BeginSnapshotOk(s);
    OnlyCompaction(s, Step(s, BeginSnapshot).c);
    BeginLog(s);
  }

  lemma BeginLog(s: Db)
    requires Inv(s)
    ensures s.deadline <= s.now
  {
    hide CompactionOk, SnapshotOk, StoreOk, PointersOk, DiskOk;
  }

  lemma BeginSnapshotOk(s: Db)
    requires Inv(s) && Enabled(s, BeginSnapshot)
    ensures SnapshotOk(Step(s, BeginSnapshot))
  {
    hide Enc, EncAll, FrameOps, ApplyFrames, FramesOk, LogOk, DiskOk, PointersOk, CopyOk, SameView;
    EmptySnapshot();
    var s' := Step(s, BeginSnapshot);
    forall k ensures TakingKey(ApplyFrames(map[], []), k, s'.c.todo, s'.store, s'.hist, s'.c.base, s'.now) {}
    assert Taking(s'.c.snapTmp, s'.c.todo, s'.store, s'.hist, s'.c.base, s'.now);
    assert AllMovable(s'.store, s'.c.todo, s'.c.locs, EncAll(s'.c.snapTmp), s'.c.base, s'.c.snapNow);
  }

  /** Reading a record that a snapshot may emit gives its value. */
  lemma MaterializeRight(s: Db, rec: Rec)
    requires LogOk(s) && PointsRight(rec, EncAll(s.snap), s.hist, s.start, s.landed, s.deadline)
    requires rec.entry.LiveAt(s.deadline)
    ensures Materialize(s, rec) == rec.entry.value
  {
    hide Enc, EncAll, FramesOk;
    if rec.ref.Disk? && !rec.ref.loc.inSnap {
      FrontHolds(Log(s), s.landed, rec.entry.value, rec.ref.loc.off);
    }
  }

  lemma FrontHolds(b: bytes, n: nat, value: bytes, off: nat)
    requires HoldsAt(b, value, off) && off + |value| < n <= |b|
    ensures ReadAt(Front(b, n), off, |value|) == value
  {
    HoldsShorter(b, n, value, off);
  }

  /** The snapshot's frame of a record, and where its value lies. */
  lemma SetFrame(k: Key, e: Entry)
    requires Prepared(SetRecord(k, e))
    ensures FrameOk(SetRecord(k, e))
    ensures HoldsAt(Enc(SetRecord(k, e)), e.value, HEADER_SIZE + |k|)
    ensures FrameOps(SetRecord(k, e)) == [Set(k, e)]
  {
    var cmd := One(SetRecord(k, e));
    assert Writable(cmd);
    CommandIsGood(cmd);
  }

  lemma SnapshotContent(snap: seq<Record>, k: Key, e: Entry)
    ensures ApplyFrames(map[], snap + [SetRecord(k, e)]) == ApplyFrames(map[], snap)[k := e]
  {
    var r := SetRecord(k, e);
    ApplyFramesAppend(map[], snap, [r]);
    assert [r][1..] == [];
    assert FrameOps(r) == [Set(k, e)];
    assert [Set(k, e)][1..] == [];
    assert ApplyOps(ApplyFrames(map[], snap), [Set(k, e)]) == Apply(ApplyFrames(map[], snap), Set(k, e));
  }

  /** What the store shows now is what the history shows at its end. */
  lemma TakenNow(snap: Content, k: Key, store: Table, hist: seq<Record>, lo: nat, now: int)
    requires lo <= |hist| && Shows(store, ApplyFrames(map[], hist), now)
    requires SameView(snap, Entries(store), k, now)
    ensures TakenAt(snap, k, hist, lo, |hist|, now)
  {
    assert hist[..|hist|] == hist;
    assert SameView(Entries(store), ApplyFrames(map[], hist), k, now);
    var all := ApplyFrames(map[], hist[..|hist|]);
    forall t | t >= now ensures View(snap, k, t) == View(all, k, t) {
      assert View(snap, k, t) == View(Entries(store), k, t) == View(ApplyFrames(map[], hist), k, t);
    }
    assert SameView(snap, ApplyFrames(map[], hist[..|hist|]), k, now);
  }

  /** Visiting a live record takes it at this moment. */
  lemma VisitTaking(snap: seq<Record>, todo: set<Key>, store: Table, k: Key, hist: seq<Record>, lo: nat, now: int)
    requires Taking(snap, todo, store, hist, lo, now) && k in store && lo <= |hist|
    requires Shows(store, ApplyFrames(map[], hist), now)
    ensures Taking(snap + [SetRecord(k, store[k].entry)], todo - {k}, store, hist, lo, now)
  {
    var s, s' := ApplyFrames(map[], snap), ApplyFrames(map[], snap + [SetRecord(k, store[k].entry)]);
    SnapshotContent(snap, k, store[k].entry);
    forall x ensures TakingKey(s', x, todo - {k}, store, hist, lo, now) {
      if x == k {
        TakenNow(s', k, store, hist, lo, now);
      } else {
        assert TakingKey(s, x, todo, store, hist, lo, now);
        if TakenAt(s, x, hist, lo, |hist|, now) { TakenSameKey(s, s', x, hist, lo, |hist|, now); }
      }
    }
  }

  lemma TakenSameKey(s: Content, s': Content, k: Key, hist: seq<Record>, lo: nat, hi: nat, now: int)
    requires TakenAt(s, k, hist, lo, hi, now) && Lookup(s, k) == Lookup(s', k)
    ensures TakenAt(s', k, hist, lo, hi, now)
  {
    var n :| lo <= n <= hi <= |hist| && SameView(s, ApplyFrames(map[], hist[..n]), k, now);
    var at := ApplyFrames(map[], hist[..n]);
    forall t | t >= now ensures View(s', k, t) == View(at, k, t) { assert View(s, k, t) == View(at, k, t); }
    assert SameView(s', ApplyFrames(map[], hist[..n]), k, now);
  }

  /** Skipping a record that was expired when the iteration began loses nothing. */
  lemma SkipTaking(snap: seq<Record>, todo: set<Key>, store: Table, k: Key, hist: seq<Record>, lo: nat, now: int,
      snapNow: int)
    requires Taking(snap, todo, store, hist, lo, now) && k in store && lo <= |hist|
    requires Shows(store, ApplyFrames(map[], hist), now) && snapNow <= now && !store[k].entry.LiveAt(snapNow)
    ensures Taking(snap, todo - {k}, store, hist, lo, now)
  {
    var s := ApplyFrames(map[], snap);
    forall x ensures TakingKey(s, x, todo - {k}, store, hist, lo, now) {
      assert TakingKey(s, x, todo, store, hist, lo, now);
      if x == k && k !in s { TakenNow(s, k, store, hist, lo, now); }
    }
  }

  lemma EncodeOneMore(rs: seq<Record>, r: Record)
    ensures EncAll(rs + [r]) == EncAll(rs) + Enc(r)
  {
    EncAllAppend(rs, [r]);
    assert [r][1..] == [];
    assert Enc(r) + [] == Enc(r);
  }

  lemma VisitMovable(store: Table, k: Key, todo: set<Key>, locs: map<Key, Loc>, snap: seq<Record>, base: nat,
      snapNow: int)
    requires k in store && Prepared(SetRecord(k, store[k].entry))
    requires AllMovable(store, todo, locs, EncAll(snap), base, snapNow)
    ensures var r := SetRecord(k, store[k].entry);
            var loc := Loc(true, |EncAll(snap)| + HEADER_SIZE + |k|, |store[k].entry.value|);
            AllMovable(store, todo - {k}, locs[k := loc], EncAll(snap + [r]), base, snapNow)
  {
    hide Enc, EncAll, FrameOk, FrameOps;
    var e := store[k].entry;
    var r := SetRecord(k, e);
    SetFrame(k, e);
    EncodeOneMore(snap, r);
    HoldsBehind(EncAll(snap), Enc(r), e.value, HEADER_SIZE + |k|);
    var loc := Loc(true, |EncAll(snap)| + HEADER_SIZE + |k|, |e.value|);
    forall x | x in store ensures Movable(x, store[x], todo - {k}, locs[k := loc], EncAll(snap + [r]), base, snapNow) {
      if x != k {
        assert Movable(x, store[x], todo, locs, EncAll(snap), base, snapNow);
        MovableGrows(x, store[x], todo, locs, EncAll(snap), Enc(r), base, snapNow, k, loc);
      }
    }
  }

  lemma MovableGrows(x: Key, rec: Rec, todo: set<Key>, locs: map<Key, Loc>, a: bytes, b: bytes, base: nat,
      snapNow: int, k: Key, loc: Loc)
    requires x != k && Movable(x, rec, todo, locs, a, base, snapNow)
    ensures Movable(x, rec, todo - {k}, locs[k := loc], a + b, base, snapNow)
  {
    if x in locs && HoldsAt(a, rec.entry.value, locs[x].off) { HoldsLonger(a, b, rec.entry.value, locs[x].off); }
  }

  lemma SkipMovable(store: Table, k: Key, todo: set<Key>, locs: map<Key, Loc>, snapTmp: bytes, base: nat, snapNow: int)
    requires k in store && !store[k].entry.LiveAt(snapNow) && AllMovable(store, todo, locs, snapTmp, base, snapNow)
    ensures AllMovable(store, todo - {k}, locs, snapTmp, base, snapNow)
  {
    forall x | x in store ensures Movable(x, store[x], todo - {k}, locs, snapTmp, base, snapNow) {
      assert Movable(x, store[x], todo, locs, snapTmp, base, snapNow);
    }
  }

  /** An iteration step that turns `todo` and what the snapshot holds into good ones keeps the rest. */
  lemma IterationKeeps(s: Db, todo: set<Key>, snapTmp: seq<Record>, locs: map<Key, Loc>)
    requires Inv(s) && s.c.phase.Snapshotting? && todo <= s.c.todo && FramesOk(snapTmp)
    requires Taking(snapTmp, todo, s.store, s.hist, s.c.base, s.now)
    requires AllMovable(s.store, todo, locs, EncAll(snapTmp), s.c.base, s.c.snapNow)
    ensures Inv(s.(c := s.c.(todo := todo, snapTmp := snapTmp, locs := locs)))
  {
    hide Enc, EncAll, FrameOps, FramesOk, LogOk, StoreOk, PointersOk, DiskOk, Taking, Taken, AllMovable, Whole,
      OffsetOf;
    OnlyCompaction(s, s.c.(todo := todo, snapTmp := snapTmp, locs := locs));
  }

  lemma VisitKeeps(s: Db, k: Key)
    requires Inv(s) && Enabled(s, Visit(k))
    ensures Inv(DoVisit(s, k))
  {
    var rec, todo := s.store[k], s.c.todo - {k};
    if !rec.entry.LiveAt(s.c.snapNow) {
      SkipTaking(s.c.snapTmp, s.c.todo, s.store, k, s.hist, s.c.base, s.now, s.c.snapNow);
      SkipMovable(s.store, k, s.c.todo, s.c.locs, EncAll(s.c.snapTmp), s.c.base, s.c.snapNow);
      IterationKeeps(s, todo, s.c.snapTmp, s.c.locs);
    } else {
      VisitLiveKeeps(s, k);
    }
  }

  /** What the snapshot holds after a live record has been visited. */
  lemma VisitLive(s: Db, k: Key)
    requires Inv(s) && Enabled(s, Visit(k)) && s.store[k].entry.LiveAt(s.c.snapNow)
    ensures var c := DoVisit(s, k).c;
            && FramesOk(c.snapTmp) && Taking(c.snapTmp, c.todo, s.store, s.hist, s.c.base, s.now)
            && AllMovable(s.store, c.todo, c.locs, EncAll(c.snapTmp), s.c.base, s.c.snapNow)
  {
    hide Enc, EncAll, FrameOps, ApplyFrames, FramesOk, Movable, TakingKey, OffsetOf, DiskOk, CopyOk, Whole, Shows,
      PointersOk, SameView,
      AllMovable, Taking, Materialize, FitsAt;
    VisitReads(s, k);
    var rec := s.store[k];
    assert FitsAt(Entries(s.store), k);
    FitsOne(Entries(s.store), k);
    SetFrame(k, rec.entry);
    FramesOkOneMore(s.c.snapTmp, SetRecord(k, rec.entry));
    VisitTaking(s.c.snapTmp, s.c.todo, s.store, k, s.hist, s.c.base, s.now);
    VisitMovable(s.store, k, s.c.todo, s.c.locs, s.c.snapTmp, s.c.base, s.c.snapNow);
  }

  lemma FitsOne(content: Content, k: Key)
    requires k in content && FitsAt(content, k)
    ensures Prepared(SetRecord(k, content[k]))
  {
  }

  lemma VisitReads(s: Db, k: Key)
    requires Inv(s) && Enabled(s, Visit(k)) && s.store[k].entry.LiveAt(s.c.snapNow)
    ensures Materialize(s, s.store[k]) == s.store[k].entry.value
  {
    hide Enc, EncAll, FramesOk, OffsetOf, DiskOk, CopyOk, Whole, StoreOk, SnapshotOk, PubsRight, Materialize;
    MaterializeRight(s, s.store[k]);
  }

  lemma VisitLiveKeeps(s: Db, k: Key)
    requires Inv(s) && Enabled(s, Visit(k)) && s.store[k].entry.LiveAt(s.c.snapNow)
    ensures Inv(DoVisit(s, k))
  {
    hide Inv, FramesOk, Taking, AllMovable, EncAll, Materialize;
    VisitLive(s, k);
    var c := DoVisit(s, k).c;
    IterationKeeps(s, c.todo, c.snapTmp, c.locs);
  }

  lemma EndKeeps(s: Db)
    requires Inv(s) && Enabled(s, EndSnapshot)
    ensures Inv(Step(s, EndSnapshot))
  {
    hide Enc, EncAll, FrameOps, ApplyFrames, FramesOk, PointersOk, DiskOk, Whole, OffsetOf, Taking, Taken, AllMovable;
    OnlyCompaction(s, Step(s, EndSnapshot).c);
    AllVisited(s.c.snapTmp, s.store, s.hist, s.c.base, s.now);
    var s' := Step(s, EndSnapshot);
    assert SnapshotOk(s');
    assert CompactionOk(s');
  }

  /** When the iteration has reached every key, the whole snapshot is taken. */
  lemma AllVisited(snap: seq<Record>, store: Table, hist: seq<Record>, lo: nat, now: int)
    requires Taking(snap, {}, store, hist, lo, now) && lo <= |hist| && Shows(store, ApplyFrames(map[], hist), now)
    ensures Taken(snap, hist, lo, |hist|, now)
  {
    var s := ApplyFrames(map[], snap);
    forall k ensures TakenAt(s, k, hist, lo, |hist|, now) {
      assert TakingKey(s, k, {}, store, hist, lo, now);
      if k !in s && k !in store { TakenNow(s, k, store, hist, lo, now); }
    }
  }
}
