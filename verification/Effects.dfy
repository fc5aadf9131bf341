/** What commands do, told by the fields of their ops alone: a SET is seen until it expires, a DEL
    removes, and nothing else changes a key. This ties the store, the history and every recovery to
    the ops that were committed. */
module Effects {
  import opened Bytes
  import opened Framing
  import opened Codec
  import opened Replay
  import opened Commands
  import opened Durability
  import opened LogFacts
  import opened StoreFacts
  import opened Loading
  import opened Invariant
  import opened Crash

  // ---- The last op on a key ----------------------------------------------------------------

  predicate Names(ops: seq<Record>, k: Key) { exists i :: 0 <= i < |ops| && ops[i].key == k }

  /** Op `i` is the last one on `k`. */
  predicate IsLastOn(ops: seq<Record>, i: int, k: Key) {
    0 <= i < |ops| && ops[i].key == k && forall j :: i < j < |ops| ==> ops[j].key != k
  }

  predicate AllPlain(ops: seq<Record>) {
    forall i :: 0 <= i < |ops| ==> ops[i].typ == TYPE_SET || ops[i].typ == TYPE_DEL
  }

  /** `v` is what op `i` leaves under its key. */
  predicate IsLeftBy(v: Option<Entry>, op: Record) {
    if op.typ == TYPE_DEL then v == None else v == Some(Entry(op.value, op.meta, op.expireAt))
  }

  /** `v` is what a reader sees at time `t` of what op `i` left: nothing behind a DEL, nor once the
      expiry has come. */
  predicate IsSeenOf(v: Option<Entry>, op: Record, t: int) {
    if op.typ == TYPE_DEL || (op.expireAt != 0 && op.expireAt <= t) then v == None
    else v == Some(Entry(op.value, op.meta, op.expireAt))
  }

  lemma TailNames(ops: seq<Record>, k: Key)
    requires ops != []
    ensures Names(ops, k) <==> ops[0].key == k || Names(ops[1..], k)
  {
    if Names(ops[1..], k) {
      var i :| 0 <= i < |ops[1..]| && ops[1..][i].key == k;
      assert ops[i + 1].key == k;
    }
    if Names(ops, k) && ops[0].key != k {
      var i :| 0 <= i < |ops| && ops[i].key == k;
      assert ops[1..][i - 1].key == k;
    }
  }

  lemma {:induction false} LastExists(ops: seq<Record>, k: Key) returns (i: int)
    requires Names(ops, k)
    ensures IsLastOn(ops, i, k)
  {
    TailNames(ops, k);
    if Names(ops[1..], k) {
      var j := LastExists(ops[1..], k);
      i := j + 1;
      forall x | i < x < |ops| ensures ops[x].key != k { assert ops[1..][x - 1].key != k; }
    } else {
      i := 0;
      forall x | 0 < x < |ops| ensures ops[x].key != k { assert ops[1..][x - 1] == ops[x]; }
    }
  }

  lemma LastOfTail(ops: seq<Record>, i: int, k: Key)
    requires IsLastOn(ops, i, k)
    ensures i == 0 ==> !Names(ops[1..], k)
    ensures i > 0 ==> IsLastOn(ops[1..], i - 1, k)
  {
  }

  // ---- One commit --------------------------------------------------------------------------

  lemma {:induction false} PutOpsLeave(m: Mem, ops: seq<Record>, now: int, born: int, it: bool, k: Key)
    requires AllPlain(ops)
    ensures var m' := PutOps(m, ops, now, born, it);
            && (!Names(ops, k) ==> (k in m'.store <==> k in m.store) && (k in m.store ==> m'.store[k] == m.store[k]))
            && forall i ::
                 IsLastOn(ops, i, k) ==> IsLeftBy(Lookup(Entries(m'.store), k), ops[i])
    decreases ops
  {
    if ops != [] {
      var m1 := PutOp(m, ops[0], now, born, it);
      PutOpsLeave(m1, ops[1..], now, born, it, k);
      TailNames(ops, k);
      forall i | IsLastOn(ops, i, k) ensures IsLeftBy(Lookup(Entries(PutOps(m, ops, now, born, it).store), k), ops[i]) {
        LastOfTail(ops, i, k);
        if i == 0 { assert IsLeftBy(Lookup(Entries(m1.store), k), ops[0]); }
      }
    }
  }

  /** A commit at once: a key whose last op is a DEL is gone; one whose last op is a SET holds that
      value, metadata and expiry; any other key keeps its record. */
  lemma CommitTakesEffect(s: Db, cmd: Cmd, k: Key)
    requires Enabled(s, Write(cmd))
    ensures var s', ops := Step(s, Write(cmd)), CmdOps(cmd);
            && (!Names(ops, k) ==> (k in s'.store <==> k in s.store) && (k in s.store ==> s'.store[k] == s.store[k]))
            && forall i ::
                 IsLastOn(ops, i, k) ==> IsLeftBy(Lookup(Entries(s'.store), k), ops[i])
  {
    hide Log, EncAll, FrameOf, Encodable;
    PutOpsLeave(Mem(s.store, s.c.todo, s.nextStamp), CmdOps(cmd), s.now, |s.hist|, s.c.phase.Snapshotting?, k);
  }

  // ---- Every run ---------------------------------------------------------------------------

  /** The commands whose frames are in the history: each commit adds its own, and a crash keeps those
      whose frames had landed as a whole. */
  ghost function Committed(states: seq<Db>, actions: seq<Action>, i: nat): seq<Cmd>
    requires |states| == |actions| + 1 && i <= |actions|
  {
    if i == 0 then []
    else
      var before := Committed(states, actions, i - 1);
      match actions[i - 1]
      case Write(cmd) => before + [cmd]
      case CrashAndRecover(strict, disk, clock, t) => Kept(states[i - 1], before)
      case _ => before
  }

  /** The commands in front of the first one whose frame is not in the file as a whole. */
  ghost function Kept(s: Db, cmds: seq<Cmd>): seq<Cmd> {
    if s.start <= |s.hist| && Flushed(s) <= |cmds| then cmds[..Flushed(s)] else cmds
  }

  function OpsOf(cmds: seq<Cmd>): seq<Record> {
    if cmds == [] then [] else CmdOps(cmds[0]) + OpsOf(cmds[1..])
  }

  /** The history holds one frame per command. */
  predicate Frames(hist: seq<Record>, cmds: seq<Cmd>) {
    |hist| == |cmds| && forall i :: 0 <= i < |cmds| ==> Writable(cmds[i]) && hist[i] == FrameOf(cmds[i])
  }

  lemma {:induction false} OpsOfBatchAppend(a: seq<Record>, b: seq<Record>)
    ensures OpsOfBatch(a + b) == OpsOfBatch(a) + OpsOfBatch(b)
  {
    if a == [] {
      assert a + b == b;
    } else {
      assert (a + b)[1..] == a[1..] + b;
      OpsOfBatchAppend(a[1..], b);
    }
  }

  lemma {:induction false} HistoryMeansOps(hist: seq<Record>, cmds: seq<Cmd>)
    requires Frames(hist, cmds)
    ensures OpsOfFrames(hist) == OpsOfBatch(OpsOf(cmds)) && AllPlain(OpsOf(cmds))
    decreases cmds
  {
    hide FrameOf, FrameOps;
    if cmds != [] {
      assert Writable(cmds[0]) && hist[0] == FrameOf(cmds[0]);
      forall i | 0 <= i < |cmds[1..]| ensures hist[1..][i] == FrameOf(cmds[1..][i]) {
        assert cmds[1..][i] == cmds[i + 1];
      }
      HistoryMeansOps(hist[1..], cmds[1..]);
      FrameMeansOps(cmds[0]);
      OpsOfBatchAppend(CmdOps(cmds[0]), OpsOf(cmds[1..]));
    }
  }

  lemma {:induction false} ReplayLeaves(m: Content, ops: seq<Record>, k: Key)
    requires AllPlain(ops)
    ensures var v := Lookup(ApplyOps(m, OpsOfBatch(ops)), k);
            && (!Names(ops, k) ==> v == Lookup(m, k))
            && forall i :: IsLastOn(ops, i, k) ==> IsLeftBy(v, ops[i])
    decreases ops
  {
    if ops != [] {
      var first := OpsOfRecord(ops[0]);
      var m1 := ApplyOps(m, first);
      ApplyOpsAppend(m, first, OpsOfBatch(ops[1..]));
      assert first[1..] == [];
      ReplayLeaves(m1, ops[1..], k);
      TailNames(ops, k);
      forall i | IsLastOn(ops, i, k) ensures IsLeftBy(Lookup(ApplyOps(m, OpsOfBatch(ops)), k), ops[i]) {
        LastOfTail(ops, i, k);
        if i == 0 { assert IsLeftBy(Lookup(m1, k), ops[0]); }
      }
    }
  }

  /** What a reader sees under `k` at time `t` is what the last of `ops` on `k` left there, or
      nothing. */
  ghost predicate SeesLast(v: Option<Entry>, ops: seq<Record>, k: Key, t: int) {
    && (!Names(ops, k) ==> v == None)
    && forall i :: IsLastOn(ops, i, k) ==> IsSeenOf(v, ops[i], t)
  }

  lemma HistorySeesLast(hist: seq<Record>, cmds: seq<Cmd>, k: Key, t: int)
    requires Frames(hist, cmds)
    ensures SeesLast(View(ApplyFrames(map[], hist), k, t), OpsOf(cmds), k, t)
  {
    hide OpsOfFrames, OpsOfBatch, Frames;
    HistoryMeansOps(hist, cmds);
    ApplyFramesIsOps(map[], hist);
    ReplayLeaves(map[], OpsOf(cmds), k);
    var ops, v := OpsOf(cmds), Lookup(ApplyFrames(map[], hist), k);
    forall i | IsLastOn(ops, i, k) ensures IsSeenOf(View(ApplyFrames(map[], hist), k, t), ops[i], t) {
      assert IsLeftBy(v, ops[i]);
    }
  }

  lemma StepKeepsFrames(s: Db, a: Action, cmds: seq<Cmd>)
    requires Inv(s) && Enabled(s, a) && Frames(s.hist, cmds)
    ensures Frames(Step(s, a).hist, match a
              case Write(cmd) => cmds + [cmd]
              case CrashAndRecover(strict, disk, clock, t) => Kept(s, cmds)
              case _ => cmds)
  {
    hide Inv, FrameOf, Loaded, CanRecover, Log, Whole, EncAll, Survived;
    if a.CrashAndRecover? { SurvivedIsFlushed(s); }
  }

  lemma {:induction false} EveryHistory(states: seq<Db>, actions: seq<Action>, i: nat)
    requires IsRun(states, actions) && i <= |actions|
    ensures Inv(states[i]) && Frames(states[i].hist, Committed(states, actions, i))
  {
    hide Inv, Step, Frames, Kept;
    if i == 0 {
      EveryStateInv(states, actions, i);
      assert Frames([], []) by { NoFrames(); }
    } else {
      EveryHistory(states, actions, i - 1);
      EveryStateInv(states, actions, i);
      assert states[i - 1 + 1] == Step(states[i - 1], actions[i - 1]);
      StepKeepsFrames(states[i - 1], actions[i - 1], Committed(states, actions, i - 1));
    }
  }

  lemma NoFrames()
    ensures Frames([], [])
  {
  }

  /** In every state of every run, crashes and recoveries included, a key shows exactly what the last
      committed op on it left: its value, metadata and expiry behind a SET, nothing behind a DEL. */
  lemma StoreShowsLastOps(states: seq<Db>, actions: seq<Action>, i: nat, k: Key, t: int)
    requires IsRun(states, actions) && i <= |actions| && t >= states[i].now
    ensures SeesLast(View(Entries(states[i].store), k, t), OpsOf(Committed(states, actions, i)), k, t)
  {
    hide Committed, Frames, SeesLast, Step, Enabled, LogOk, CompactionOk, SnapshotOk, DiskOk, PointersOk;
    EveryHistory(states, actions, i);
    var s := states[i];
    HistorySeesLast(s.hist, Committed(states, actions, i), k, t);
    assert SameView(Entries(s.store), ApplyFrames(map[], s.hist), k, s.now);
    assert View(Entries(s.store), k, t) == View(ApplyFrames(map[], s.hist), k, t);
  }

  lemma FramesOfKept(s: Db, cmds: seq<Cmd>)
    requires s.start <= |s.hist| && Frames(s.hist, cmds)
    ensures Frames(s.hist[..Flushed(s)], Kept(s, cmds))
  {
    hide Whole, EncAll, FrameOf;
  }

  /** ... and what a crash in that state would recover is what the last op left among the commands
      that had landed. */
  lemma RecoveryShowsLastOps(
      states: seq<Db>, actions: seq<Action>, i: nat, strict: bool, clock: seq<int>, k: Key, t: int, now: int)
    requires IsRun(states, actions) && i <= |actions| && states[i].start <= |states[i].hist|
    requires CanRecover(states[i], strict, clock) && states[i].now <= now <= t
    requires forall j :: 0 <= j < |clock| ==> clock[j] <= now
    ensures var s := states[i];
            SeesLast(View(Recover(EncAll(s.diskSnap), DiskWal(s), strict, clock), k, t),
                     OpsOf(Kept(s, Committed(states, actions, i))), k, t)
  {
    hide Inv, Frames, SeesLast, Kept, Committed, RecoveredOps, Recover, DiskWal, Step, Enabled, ApplyFrames, EncAll,
      Whole, View, OpsOf, Barren;
    var s := states[i];
    EveryHistory(states, actions, i);
    DurableAtEveryCrashPoint(states, actions, i, strict, clock, now);
    KeptSeesLast(s, Committed(states, actions, i), Recover(EncAll(s.diskSnap), DiskWal(s), strict, clock), k, now, t);
  }

  lemma KeptSeesLast(s: Db, cmds: seq<Cmd>, back: Content, k: Key, now: int, t: int)
    requires s.start <= |s.hist| && Frames(s.hist, cmds) && now <= t
    requires forall x :: SameView(back, ApplyFrames(map[], s.hist[..Flushed(s)]), x, now)
    ensures SeesLast(View(back, k, t), OpsOf(Kept(s, cmds)), k, t)
  {
    hide Frames, SeesLast, Kept, ApplyFrames, Whole, EncAll, View, OpsOf;
    var live := s.hist[..Flushed(s)];
    FramesOfKept(s, cmds);
    HistorySeesLast(live, Kept(s, cmds), k, t);
    assert SameView(back, ApplyFrames(map[], live), k, now);
    assert View(back, k, t) == View(ApplyFrames(map[], live), k, t);
  }
}
