/** What recovery makes of a log (recovery.ts): frames become primitive ops, ops are applied
    last-writer-wins, and a SET whose TTL has run out by replay time becomes a DEL. */
module Replay {
  import opened Bytes
  import opened Codec
  import opened BatchCodec

  type Key = bytes

  datatype Entry = Entry(value: bytes, meta: Option<bytes>, expireAt: int) {
    /** Zero means no expiry. */
    predicate LiveAt(t: int) { expireAt == 0 || expireAt > t }
  }

  datatype Op = Set(key: Key, entry: Entry) | Del(key: Key)

  type Content = map<Key, Entry>

  // ---- Frames as ops -----------------------------------------------------------------------

  /** A SET or DEL op; any other type inside a batch yields nothing. */
  function OpsOfRecord(r: Record): seq<Op> {
    if r.typ == TYPE_SET then [Set(r.key, Entry(r.value, r.meta, r.expireAt))]
    else if r.typ == TYPE_DEL then [Del(r.key)]
    else []
  }

  function OpsOfBatch(rs: seq<Record>): seq<Op> {
    if rs == [] then [] else OpsOfRecord(rs[0]) + OpsOfBatch(rs[1..])
  }

  /** frameToOps: a batch whose body does not decode is skipped as a whole. */
  function FrameOps(r: Record): seq<Op> {
    if r.typ == TYPE_BATCH then
      match DecodeBatch(r.value) case None => [] case Some(rs) => OpsOfBatch(rs)
    else OpsOfRecord(r)
  }

  // ---- Applying ops ------------------------------------------------------------------------

  function Apply(m: Content, op: Op): Content {
    match op case Set(k, e) => m[k := e] case Del(k) => m - {k}
  }

  function ApplyOps(m: Content, ops: seq<Op>): Content
    decreases ops
  {
    if ops == [] then m else ApplyOps(Apply(m, ops[0]), ops[1..])
  }

  function ApplyFrames(m: Content, frames: seq<Record>): Content
    decreases frames
  {
    if frames == [] then m else ApplyFrames(ApplyOps(m, FrameOps(frames[0])), frames[1..])
  }

  function Lookup(m: Content, k: Key): Option<Entry> { if k in m then Some(m[k]) else None }

  /** What a reader sees under `k` at time `t`. */
  function View(m: Content, k: Key, t: int): Option<Entry> {
    match Lookup(m, k) case None => None case Some(e) => if e.LiveAt(t) then Some(e) else None
  }

  // ---- Last writer wins --------------------------------------------------------------------

  predicate Touches(ops: seq<Op>, k: Key) { exists i :: 0 <= i < |ops| && ops[i].key == k }

  /** What the last op on `k` leaves there. */
  function Last(ops: seq<Op>, k: Key): Option<Entry>
    requires Touches(ops, k)
  {
    var op := ops[|ops| - 1];
    if op.key == k then (if op.Set? then Some(op.entry) else None) else Last(ops[..|ops| - 1], k)
  }

  lemma {:induction false} ApplyOpsAppend(m: Content, a: seq<Op>, b: seq<Op>)
    ensures ApplyOps(m, a + b) == ApplyOps(ApplyOps(m, a), b)
    decreases a
  {
    if a == [] {
      assert a + b == b;
    } else {
      assert (a + b)[1..] == a[1..] + b;
      ApplyOpsAppend(Apply(m, a[0]), a[1..], b);
    }
  }

  /** The state of a key depends on its last op alone, or not on the ops at all. */
  lemma {:induction false} LastWriterWins(m: Content, ops: seq<Op>, k: Key)
    ensures Lookup(ApplyOps(m, ops), k) == if Touches(ops, k) then Last(ops, k) else Lookup(m, k)
    decreases ops
  {
    if ops != [] {
      var init, last := ops[..|ops| - 1], ops[|ops| - 1];
      assert init + [last] == ops;
      ApplyOpsAppend(m, init, [last]);
      assert ApplyOps(ApplyOps(m, init), [last]) == Apply(ApplyOps(m, init), last);
      LastWriterWins(m, init, k);
      assert Touches(ops, k) <==> last.key == k || Touches(init, k) by {
        if Touches(init, k) { var i :| 0 <= i < |init| && init[i].key == k; assert ops[i].key == k; }
      }
    }
  }

  // ---- Frames ------------------------------------------------------------------------------

  function OpsOfFrames(frames: seq<Record>): seq<Op> {
    if frames == [] then [] else FrameOps(frames[0]) + OpsOfFrames(frames[1..])
  }

  lemma {:induction false} ApplyFramesIsOps(m: Content, frames: seq<Record>)
    ensures ApplyFrames(m, frames) == ApplyOps(m, OpsOfFrames(frames))
    decreases frames
  {
    if frames != [] {
      ApplyOpsAppend(m, FrameOps(frames[0]), OpsOfFrames(frames[1..]));
      ApplyFramesIsOps(ApplyOps(m, FrameOps(frames[0])), frames[1..]);
    }
  }

  lemma {:induction false} ApplyFramesAppend(m: Content, a: seq<Record>, b: seq<Record>)
    ensures ApplyFrames(m, a + b) == ApplyFrames(ApplyFrames(m, a), b)
    decreases a
  {
    if a == [] {
      assert a + b == b;
    } else {
      assert (a + b)[1..] == a[1..] + b;
      ApplyFramesAppend(ApplyOps(m, FrameOps(a[0])), a[1..], b);
    }
  }

  /** Either the frames decide what is under `k`, whatever they are applied to, or they leave it. */
  lemma FramesDecide(m: Content, n: Content, frames: seq<Record>, k: Key)
    ensures Lookup(ApplyFrames(m, frames), k) == Lookup(ApplyFrames(n, frames), k)
            || (Lookup(ApplyFrames(m, frames), k) == Lookup(m, k) && Lookup(ApplyFrames(n, frames), k) == Lookup(n, k))
    ensures Touches(OpsOfFrames(frames), k) ==> Lookup(ApplyFrames(m, frames), k) == Lookup(ApplyFrames(n, frames), k)
    ensures !Touches(OpsOfFrames(frames), k) ==> Lookup(ApplyFrames(m, frames), k) == Lookup(m, k)
  {
    ApplyFramesIsOps(m, frames);
    ApplyFramesIsOps(n, frames);
    LastWriterWins(m, OpsOfFrames(frames), k);
    LastWriterWins(n, OpsOfFrames(frames), k);
  }

  lemma {:induction false} OpsOfFramesAppend(a: seq<Record>, b: seq<Record>)
    ensures OpsOfFrames(a + b) == OpsOfFrames(a) + OpsOfFrames(b)
    decreases a
  {
    if a == [] {
      assert a + b == b;
    } else {
      assert (a + b)[1..] == a[1..] + b;
      OpsOfFramesAppend(a[1..], b);
      assert FrameOps(a[0]) + (OpsOfFrames(a[1..]) + OpsOfFrames(b))
        == FrameOps(a[0]) + OpsOfFrames(a[1..]) + OpsOfFrames(b);
    }
  }

  // ---- The fuzzy snapshot ------------------------------------------------------------------

  /** `s` holds under `k` what the history had there at some moment between `lo` and `hi`, as far
      as any reader from time `now` on can tell. */
  ghost predicate TakenAt(s: Content, k: Key, hist: seq<Record>, lo: nat, hi: nat, now: int) {
    exists n :: lo <= n <= hi <= |hist| && SameView(s, ApplyFrames(map[], hist[..n]), k, now)
  }

  ghost predicate SameView(m: Content, n: Content, k: Key, now: int) {
    forall t :: t >= now ==> View(m, k, t) == View(n, k, t)
  }

  /** The core of non-blocking compaction. A snapshot whose keys are each taken at a moment of their
      own, none before frame `lo`, followed by the log from any frame `from` at or before `lo`,
      shows every reader what the whole history shows. */
  lemma FuzzySnapshotRepaired(s: Content, k: Key, hist: seq<Record>, from: nat, lo: nat, hi: nat, now: int)
    requires from <= lo && TakenAt(s, k, hist, lo, hi, now)
    ensures SameView(ApplyFrames(s, hist[from..]), ApplyFrames(map[], hist), k, now)
  {
    var n :| lo <= n <= hi <= |hist| && SameView(s, ApplyFrames(map[], hist[..n]), k, now);
    if Touches(OpsOfFrames(hist[from..]), k) {
      TouchedSinceIsFinal(s, k, hist, from);
    } else {
      UntouchedSinceIsFinal(k, hist, from, n);
      FramesDecide(s, s, hist[from..], k);
      var taken, end, all := ApplyFrames(map[], hist[..n]), ApplyFrames(s, hist[from..]), ApplyFrames(map[], hist);
      forall t | t >= now ensures View(end, k, t) == View(all, k, t) { assert View(s, k, t) == View(taken, k, t); }
    }
  }

  lemma TouchedSinceIsFinal(s: Content, k: Key, hist: seq<Record>, from: nat)
    requires from <= |hist| && Touches(OpsOfFrames(hist[from..]), k)
    ensures Lookup(ApplyFrames(s, hist[from..]), k) == Lookup(ApplyFrames(map[], hist), k)
  {
    assert hist[..from] + hist[from..] == hist;
    ApplyFramesAppend(map[], hist[..from], hist[from..]);
    FramesDecide(s, ApplyFrames(map[], hist[..from]), hist[from..], k);
  }

  lemma UntouchedSinceIsFinal(k: Key, hist: seq<Record>, from: nat, n: nat)
    requires from <= n <= |hist| && !Touches(OpsOfFrames(hist[from..]), k)
    ensures Lookup(ApplyFrames(map[], hist[..n]), k) == Lookup(ApplyFrames(map[], hist), k)
  {
    assert hist[from..n] + hist[n..] == hist[from..];
    UntouchedLater(k, hist[from..n], hist[n..]);
    assert hist[..n] + hist[n..] == hist;
    UntouchedTail(k, hist[..n], hist[n..]);
  }

  lemma UntouchedTail(k: Key, a: seq<Record>, b: seq<Record>)
    requires !Touches(OpsOfFrames(b), k)
    ensures Lookup(ApplyFrames(map[], a), k) == Lookup(ApplyFrames(map[], a + b), k)
  {
    ApplyFramesAppend(map[], a, b);
    var m := ApplyFrames(map[], a);
    FramesDecide(m, m, b, k);
  }

  lemma UntouchedLater(k: Key, a: seq<Record>, b: seq<Record>)
    ensures Touches(OpsOfFrames(b), k) ==> Touches(OpsOfFrames(a + b), k)
  {
    OpsOfFramesAppend(a, b);
    TouchesLater(OpsOfFrames(a), OpsOfFrames(b), k);
  }

  lemma TouchesLater(a: seq<Op>, b: seq<Op>, k: Key)
    ensures Touches(b, k) ==> Touches(a + b, k)
  {
    if Touches(b, k) {
      var x :| 0 <= x < |b| && b[x].key == k;
      assert (a + b)[|a| + x].key == k;
    }
  }

  // ---- Expiry at replay time ---------------------------------------------------------------

  /** setRefToOps: an op as replayed when the clock shows `now`. */
  function Replayed(op: Op, now: int): Op {
    if op.Set? && op.entry.expireAt != 0 && op.entry.expireAt <= now then Del(op.key) else op
  }

  function ReplayOps(m: Content, ops: seq<Op>, clock: seq<int>): Content
    requires |clock| == |ops|
    decreases ops
  {
    if ops == [] then m else ReplayOps(Apply(m, Replayed(ops[0], clock[0])), ops[1..], clock[1..])
  }

  /** Turning an expired SET into a DEL, each at its own replay time, never changes what is visible
      at that time or later: in particular it does not bring an older value back. */
  lemma {:induction false} ExpiryAtReplayInvisible(m: Content, n: Content, ops: seq<Op>, clock: seq<int>, now: int)
    requires |clock| == |ops| && forall i :: 0 <= i < |clock| ==> clock[i] <= now
    requires forall k :: SameView(m, n, k, now)
    ensures forall k :: SameView(ReplayOps(m, ops, clock), ApplyOps(n, ops), k, now)
    decreases ops
  {
    if ops != [] {
      var m', n' := Apply(m, Replayed(ops[0], clock[0])), Apply(n, ops[0]);
      forall k ensures SameView(m', n', k, now) {
        assert SameView(m, n, k, now);
        assert clock[0] <= now;
        forall t | t >= now ensures View(m', k, t) == View(n', k, t) {
          assert View(m, k, t) == View(n, k, t);
        }
      }
      ExpiryAtReplayInvisible(m', n', ops[1..], clock[1..], now);
    }
  }
}
