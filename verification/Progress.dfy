/** What the steps of the durability machine get done: bytes that land make commits durable, a pointer
    that is published moves a value out of memory, and a compaction that nobody disturbs runs to its
    end and leaves an empty log behind one snapshot frame per live record. */
module Progress {
  import opened Bytes
  import opened Codec
  import opened Replay
  import opened Commands
  import opened Durability
  import opened LogFacts
  import opened StoreFacts
  import opened Invariant
  import opened Crash
  import opened Effects

  // ---- Landing -----------------------------------------------------------------------------

  /** Everything that was appended reaches the file. */
  function AllLanded(s: Db): Db
    requires s.start <= |s.hist|
  {
    s.(landed := |Log(s)|)
  }

  /** The rest of the log can always land, and then no crash takes a commit back. */
  lemma LandedIsKept(s: Db, cmds: seq<Cmd>)
    requires Inv(s) && Frames(s.hist, cmds)
    ensures s.landed <= |Log(s)| && Enabled(s, Land(|Log(s)| - s.landed))
    ensures Step(s, Land(|Log(s)| - s.landed)) == AllLanded(s) && Inv(AllLanded(s))
    ensures Flushed(AllLanded(s)) == |s.hist| && Kept(AllLanded(s), cmds) == cmds
  {
    hide Enc, EncAll, FrameOps, ApplyFrames, FramesOk, SnapshotOk, StoreOk, PointersOk, DiskOk, FrameOf;
    LandKeeps(s, |Log(s)| - s.landed);
    AllFlushed(AllLanded(s));
    assert cmds[..|cmds|] == cmds;
  }

  // ---- Publishing --------------------------------------------------------------------------

  lemma {:induction false} LastSetIsPlaced(acc: map<Key, (nat, nat)>, ops: seq<Record>, offs: seq<nat>, k: Key, i: int)
    requires |offs| == |ops| && IsLastOn(ops, i, k) && ops[i].typ == TYPE_SET
    ensures k in LastSets(acc, ops, offs)
    decreases ops
  {
    var acc1 := if ops[0].typ == TYPE_SET then acc[ops[0].key := (offs[0], |ops[0].value|)] else acc;
    LastOfTail(ops, i, k);
    if i > 0 {
      LastSetIsPlaced(acc1, ops[1..], offs[1..], k, i - 1);
    } else {
      PlacedStays(acc1, ops[1..], offs[1..], k);
    }
  }

  lemma {:induction false} PlacedStays(acc: map<Key, (nat, nat)>, ops: seq<Record>, offs: seq<nat>, k: Key)
    requires k in acc
    ensures k in LastSets(acc, ops, offs)
    decreases ops
  {
    if ops != [] && offs != [] {
      PlacedStays(if ops[0].typ == TYPE_SET then acc[ops[0].key := (offs[0], |ops[0].value|)] else acc,
                  ops[1..], offs[1..], k);
    }
  }

  lemma {:induction false} OneOffEach(b: bytes, ops: seq<Record>, offs: seq<nat>)
    requires ValuesAt(b, ops, offs)
    ensures |offs| == |ops|
    decreases ops
  {
    if ops != [] { OneOffEach(b, ops[1..], offs[1..]); }
  }

  /** The pointer of a key that a commit has set last. */
  lemma PointerIsPending(s: Db, cmd: Cmd, k: Key, i: int) returns (p: Pub)
    requires Inv(s) && Enabled(s, Write(cmd)) && IsLastOn(CmdOps(cmd), i, k) && CmdOps(cmd)[i].typ == TYPE_SET
    ensures var s' := Step(s, Write(cmd));
            && p in s'.pubs && p.key == k && p.gen == s'.gen && p.frame == |s.hist|
            && k in s'.store && s'.store[k].stamp == p.stamp
            && IsLeftBy(Lookup(Entries(s'.store), k), CmdOps(cmd)[i])
  {
    hide Inv, Log, EncAll, FrameOf, Encodable, Encoded, PutOps, LastSets, ValueOffs, ValuesAt;
    CommitTakesEffect(s, cmd, k);
    CommandIsGood(cmd);
    OneOffEach(Enc(FrameOf(cmd)), CmdOps(cmd), ValueOffs(cmd));
    LastSetIsPlaced(map[], CmdOps(cmd), ValueOffs(cmd), k, i);
    var s', sets := Step(s, Write(cmd)), LastSets(map[], CmdOps(cmd), ValueOffs(cmd));
    assert IsLeftBy(Lookup(Entries(s'.store), k), CmdOps(cmd)[i]);
    p := Pub(k, s'.store[k].stamp, s.gen, |Log(s)| + sets[k].0, sets[k].1, |s.hist|);
    assert p in NewPubs(s'.store, sets, s.gen, |Log(s)|, |s.hist|);
  }

  /** A value that was set goes to the file: once its frame has landed its pointer can be published, the
      record then holds the pointer, and reading it gives the value. */
  lemma WrittenGoesToDisk(s: Db, cmd: Cmd, k: Key, i: int) returns (p: Pub, s1: Db, s2: Db)
    requires Inv(s) && Enabled(s, Write(cmd)) && IsLastOn(CmdOps(cmd), i, k) && CmdOps(cmd)[i].typ == TYPE_SET
    ensures Inv(Step(s, Write(cmd))) && s1 == AllLanded(Step(s, Write(cmd))) && Inv(s1)
    ensures Enabled(s1, Publish(p)) && s2 == Step(s1, Publish(p)) && Inv(s2)
    ensures k in s1.store && k in s2.store && s2.store[k].ref.Disk? && s2.store[k].entry == s1.store[k].entry
    ensures s2.store[k].entry.LiveAt(s.now) ==> Materialize(s2, s2.store[k]) == CmdOps(cmd)[i].value
  {
    hide Inv, Log, EncAll, FrameOf, Encodable, DoWrite, OffsetOf;
    p := PointerIsPending(s, cmd, k, i);
    StepKeeps(s, Write(cmd));
    var written := Step(s, Write(cmd));
    PublishLanded(written, p);
    s1 := AllLanded(written);
    assert written.now == s.now by { assert DoWrite(s, cmd).now == s.now by { NowStays(s, cmd); } }
    s2 := Step(s1, Publish(p));
    if s2.store[k].entry.LiveAt(s.now) { LiveReadsBack(s2, k); }
  }

  lemma NowStays(s: Db, cmd: Cmd)
    requires s.start <= |s.hist| && Writable(cmd)
    ensures DoWrite(s, cmd).now == s.now && DoWrite(s, cmd).start == s.start
  {
    hide EncAll, PutOps, FrameOf;
  }

  lemma PublishLanded(s: Db, p: Pub)
    requires Inv(s) && p in s.pubs && p.gen == s.gen && p.key in s.store && s.store[p.key].stamp == p.stamp
    ensures var s1 := AllLanded(s);
            && Inv(s1) && Enabled(s1, Publish(p)) && Inv(Step(s1, Publish(p)))
            && var s2 := Step(s1, Publish(p));
               && s2.now == s.now && p.key in s2.store && s2.store[p.key].ref.Disk?
               && s2.store[p.key].entry == s.store[p.key].entry
  {
    hide Enc, EncAll, FrameOps, ApplyFrames, FramesOk, SnapshotOk, StoreOk, DiskOk, OffsetOf, InFrame, Whole;
    LandKeeps(s, |Log(s)| - s.landed);
    var s1 := AllLanded(s);
    assert PubRight(p, s.store, s.hist, s.start, s.gen, s.nextStamp);
    OffsetBound(s.hist, s.start, p.frame + 1);
    assert Enabled(s1, Publish(p));
    StepKeeps(s1, Publish(p));
  }

  // ---- A compaction ------------------------------------------------------------------------

  datatype Trace = Trace(states: seq<Db>, actions: seq<Action>)

  ghost predicate Goes(r: Trace) {
    && |r.states| == |r.actions| + 1
    && forall i :: 0 <= i < |r.actions| ==>
         Enabled(r.states[i], r.actions[i]) && r.states[i + 1] == Step(r.states[i], r.actions[i])
  }

  ghost function End(r: Trace): Db
    requires Goes(r)
  {
    r.states[|r.actions|]
  }

  lemma Then(r: Trace, a: Action) returns (r': Trace)
    requires Goes(r) && Inv(End(r)) && Enabled(End(r), a)
    ensures Goes(r') && r'.states[0] == r.states[0] && End(r') == Step(End(r), a) && Inv(End(r'))
  {
    hide Inv, Enabled, Step, Goes, End;
    StepKeeps(End(r), a);
    r' := OneMore(r, a);
  }

  lemma OneMore(r: Trace, a: Action) returns (r': Trace)
    requires Goes(r) && Enabled(End(r), a)
    ensures Goes(r') && r'.states[0] == r.states[0] && End(r') == Step(End(r), a)
  {
    hide Enabled, Step;
    r' := Trace(r.states + [Step(End(r), a)], r.actions + [a]);
  }

  /** The snapshot has one SET frame for each live record that has been visited, and no other frame. */
  ghost predicate Listed(snap: seq<Record>, store: Table, todo: set<Key>, at: int) {
    && (forall i :: 0 <= i < |snap| ==>
          && snap[i].key in store && snap[i].key !in todo && store[snap[i].key].entry.LiveAt(at)
          && snap[i] == SetRecord(snap[i].key, store[snap[i].key].entry))
    && (forall i, j :: 0 <= i < j < |snap| ==> snap[i].key != snap[j].key)
    && forall k :: k in store && k !in todo && store[k].entry.LiveAt(at) ==>
         exists i :: 0 <= i < |snap| && snap[i].key == k
  }

  lemma ListOne(snap: seq<Record>, store: Table, todo: set<Key>, at: int, k: Key)
    requires Listed(snap, store, todo, at) && k in todo && k in store
    ensures if store[k].entry.LiveAt(at) then Listed(snap + [SetRecord(k, store[k].entry)], store, todo - {k}, at)
            else Listed(snap, store, todo - {k}, at)
  {
    var snap' := if store[k].entry.LiveAt(at) then snap + [SetRecord(k, store[k].entry)] else snap;
    forall x | x in store && x !in todo - {k} && store[x].entry.LiveAt(at)
      ensures exists i :: 0 <= i < |snap'| && snap'[i].key == x
    {
      if x == k {
        assert snap'[|snap|].key == k;
      } else {
        var i :| 0 <= i < |snap| && snap[i].key == x;
        assert snap'[i] == snap[i];
      }
    }
  }

  lemma VisitLists(s: Db, k: Key)
    requires Inv(s) && Enabled(s, Visit(k)) && Listed(s.c.snapTmp, s.store, s.c.todo, s.c.snapNow)
    ensures var s' := Step(s, Visit(k));
            && s' == s.(c := s'.c) && s'.c.phase == s.c.phase && s'.c.base == s.c.base && s'.c.snapNow == s.c.snapNow
            && s'.c.todo == s.c.todo - {k} && Listed(s'.c.snapTmp, s'.store, s'.c.todo, s'.c.snapNow)
  {
    hide Enc, EncAll, FrameOps, ApplyFrames, FramesOk, SnapshotOk, StoreOk, DiskOk, Whole, Materialize, Listed,
      OffsetOf, InFrame;
    ListOne(s.c.snapTmp, s.store, s.c.todo, s.c.snapNow, k);
    if s.store[k].entry.LiveAt(s.c.snapNow) { MaterializeRight(s, s.store[k]); }
  }

  lemma {:induction false} VisitAll(r: Trace) returns (r': Trace)
    requires Goes(r) && Inv(End(r)) && End(r).c.phase.Snapshotting?
    requires var s := End(r); Listed(s.c.snapTmp, s.store, s.c.todo, s.c.snapNow)
    ensures Goes(r') && Inv(End(r')) && r'.states[0] == r.states[0]
    ensures var s, s' := End(r), End(r');
            && s' == s.(c := s'.c) && s'.c.phase == s.c.phase && s'.c.base == s.c.base && s'.c.snapNow == s.c.snapNow
            && s'.c.todo == {} && Listed(s'.c.snapTmp, s'.store, {}, s'.c.snapNow)
    decreases |End(r).c.todo|
  {
    hide Goes, End, Listed, Step, LogOk, SnapshotOk, StoreOk, PointersOk, DiskOk, EncAll;
    r' := r;
    if End(r).c.todo != {} {
      var k :| k in End(r).c.todo;
      VisitLists(End(r), k);
      r' := Then(r, Visit(k));
      r' := VisitAll(r');
    }
  }

  /** From any reachable state between compactions whose log has landed, a compaction that is left alone
      reaches its end: every record is as it was, the snapshot has exactly the live records, one frame
      each, and the log is empty. */
  lemma CompactionEmptiesTheLog(s: Db) returns (r: Trace)
    requires Inv(s) && s.c.phase.Idle? && s.landed == |Log(s)|
    ensures Goes(r) && r.states[0] == s && Inv(End(r))
    ensures var s' := End(r);
            && s'.c.phase.Idle? && !s'.sealed && s'.now == s.now && s'.hist == s.hist
            && Entries(s'.store) == Entries(s.store)
            && s'.start == |s'.hist| && Log(s') == [] && s'.landed == 0
            && s'.snap == s'.diskSnap && Listed(s'.snap, s.store, {}, s.now)
  {
    r := Trace([s], []);
    r := ReachSnapshot(r);
    r := VisitAll(r);
    r := Rotate(r);
  }

  lemma ReachSnapshot(r: Trace) returns (r': Trace)
    requires Goes(r) && Inv(End(r)) && End(r).c.phase.Idle? && End(r).landed == |Log(End(r))|
    ensures Goes(r') && Inv(End(r')) && r'.states[0] == r.states[0]
    ensures var s, s' := End(r), End(r');
            && s' == s.(c := s'.c) && s'.c.phase.Snapshotting? && s'.c.base == |s.hist| && s'.c.snapNow == s.now
            && Listed(s'.c.snapTmp, s'.store, s'.c.todo, s'.c.snapNow)
  {
    hide Goes, End, LogOk, SnapshotOk, StoreOk, PointersOk, DiskOk, EncAll, Whole;
    FenceReady(End(r));
    r' := Then(r, TakeFence);
    r' := Then(r', BeginSnapshot);
  }

  lemma FenceReady(s: Db)
    requires Inv(s) && s.c.phase.Idle? && s.landed == |Log(s)|
    ensures Enabled(s, TakeFence) && Flushed(s) == |s.hist|
  {
    hide Enc, EncAll, FrameOps, ApplyFrames, FramesOk, SnapshotOk, StoreOk, PointersOk, DiskOk, Whole;
    AllFlushed(s);
    OffsetEnds(s.hist, s.start);
  }

  lemma Rotate(r: Trace) returns (r': Trace)
    requires Goes(r) && Inv(End(r))
    requires var s := End(r);
             s.c.phase.Snapshotting? && s.c.todo == {} && s.c.base == |s.hist| && s.landed == |Log(s)|
    ensures Goes(r') && Inv(End(r')) && r'.states[0] == r.states[0]
    ensures var s, s' := End(r), End(r');
            && s'.c.phase.Idle? && !s'.sealed && s'.now == s.now && s'.hist == s.hist
            && Entries(s'.store) == Entries(s.store)
            && s'.start == |s'.hist| && Log(s') == [] && s'.landed == 0
            && s'.snap == s'.diskSnap == s.c.snapTmp
  {
    hide Goes, End, LogOk, SnapshotOk, StoreOk, PointersOk, DiskOk, EncAll, Whole, OffsetOf, Slice, Remap;
    r' := Rename(r);
    var s := End(r');
    LogEnds(s);
    r' := Then(r', Swap);
    RemapKeepsEntries(s);
  }

  lemma Rename(r: Trace) returns (r': Trace)
    requires Goes(r) && Inv(End(r))
    requires var s := End(r); s.c.phase.Snapshotting? && s.c.todo == {} && s.landed == |Log(s)|
    ensures Goes(r') && Inv(End(r')) && r'.states[0] == r.states[0]
    ensures var s, s' := End(r), End(r');
            && s'.c.phase.WalRenamed? && s'.c.base == s.c.base && s'.c.snapTmp == s'.diskSnap == s.c.snapTmp
            && s' == s.(sealed := true, diskSnap := s'.diskSnap, c := s'.c)
  {
    hide Inv, Goes, End, EncAll, Whole, OffsetOf, Slice;
    LogStands(End(r));
    r' := SealAll(r);
    r' := Then(r', RenameSnapshot);
    r' := Then(r', RenameWal);
  }

  lemma SealAll(r: Trace) returns (r': Trace)
    requires Goes(r) && Inv(End(r))
    requires var s := End(r); s.c.phase.Snapshotting? && s.c.todo == {} && s.landed == |Log(s)|
    ensures Goes(r') && Inv(End(r')) && r'.states[0] == r.states[0]
    ensures var s, s' := End(r), End(r');
            && s'.c.phase.Rotating? && s'.landed == |Log(s')| && s'.c.copied == s'.landed && s'.c.appended
            && s'.c.base == s.c.base && s'.c.snapTmp == s.c.snapTmp
            && s' == s.(sealed := true, c := s'.c)
  {
    hide Inv, Goes, End, EncAll, Whole, OffsetOf, Slice;
    LogStands(End(r));
    r' := Then(r, EndSnapshot);
    r' := Then(r', Seal);
    r' := Then(r', Drain);
  }

  lemma LogStands(s: Db)
    requires Inv(s)
    ensures s.start <= |s.hist| && s.c.base <= |s.hist|
  {
  }

  lemma LogEnds(s: Db)
    requires Inv(s) && s.c.phase.WalRenamed? && s.c.base == |s.hist|
    ensures s.c.walTmp == [] && EncAll(s.hist[|s.hist|..]) == []
  {
    hide Enc, FrameOps, ApplyFrames, FramesOk, SnapshotOk, StoreOk, PointersOk, DiskOk, Whole, OffsetOf, Slice;
    NewWal(s);
    assert s.hist[|s.hist|..] == [];
  }

  lemma RemapKeepsEntries(s: Db)
    requires Inv(s) && Enabled(s, Swap)
    ensures Entries(DoSwap(s).store) == Entries(s.store)
  {
    hide Inv, EncAll, OffsetOf, Remap;
    var baseOff := OffsetOf(s.hist, s.start, s.c.base);
    forall k | k in s.store ensures DoSwap(s).store[k].entry == s.store[k].entry {
      RemapKeepsEntry(k, s.store[k], baseOff, s.c.locs);
    }
  }
}
