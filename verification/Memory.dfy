/** The memory limit (index.ts): projecting what a write would hold, and evicting least recently used
    keys until it fits. Values are held in memory, and nothing else writes meanwhile. */
module Memory {
  import opened Bytes
  import opened Heap
  import opened KeyStore

  datatype WriteOp = Put(key: string, value: bytes, expireAt: int, dt: Option<bytes>) | Drop(key: string)

  datatype Policy = NoEviction | EvictLru

  function RecOf(op: WriteOp, stamp: nat): Rec
    requires op.Put?
  {
    Rec(Inline(op.value), op.expireAt, stamp, op.dt)
  }

  /** The records after a batch of writes; the stamps do not matter here. */
  function After(m: Records, ops: seq<WriteOp>): Records
    decreases ops
  {
    if ops == [] then m else After(AfterOne(m, ops[0]), ops[1..])
  }

  function AfterOne(m: Records, op: WriteOp): Records {
    if op.Put? then m[op.key := RecOf(op, 0)] else m - {op.key}
  }

  lemma {:induction false} AfterOneMore(m: Records, ops: seq<WriteOp>, op: WriteOp)
    ensures After(m, ops + [op]) == AfterOne(After(m, ops), op)
    decreases ops
  {
    if ops == [] {
      assert [] + [op] == [op];
      assert After(AfterOne(m, op), [op][1..]) == AfterOne(m, op);
    } else {
      assert (ops + [op])[1..] == ops[1..] + [op];
      AfterOneMore(AfterOne(m, ops[0]), ops[1..], op);
    }
  }

  function SizeIn(m: Records, k: string): nat { if k in m then SizeOf(k, m[k]) else 0 }

  lemma TotalAfterOne(m: Records, op: WriteOp)
    ensures Total(AfterOne(m, op)) == Total(m) - SizeIn(m, op.key) + SizeIn(AfterOne(m, op), op.key)
  {
    hide Total, SizeOf;
    if op.Put? {
      TotalWith(m, op.key, RecOf(op, 0));
    } else if op.key in m {
      TotalWithout(m, op.key);
    } else {
      assert m - {op.key} == m;
    }
  }

  lemma {:induction false} AfterUntouched(m: Records, ops: seq<WriteOp>, k: string)
    requires forall i :: 0 <= i < |ops| ==> ops[i].key != k
    ensures (k in After(m, ops) <==> k in m) && (k in m ==> After(m, ops)[k] == m[k])
    decreases ops
  {
    if ops != [] {
      assert ops[0].key != k;
      assert forall i :: 0 <= i < |ops[1..]| ==> ops[1..][i] == ops[i + 1];
      AfterUntouched(AfterOne(m, ops[0]), ops[1..], k);
    }
  }

  /** Removing a key that the batch does not touch takes exactly its size from the projection. */
  lemma {:induction false} AfterWithout(m: Records, ops: seq<WriteOp>, k: string)
    requires k in m && forall i :: 0 <= i < |ops| ==> ops[i].key != k
    ensures After(m - {k}, ops) == After(m, ops) - {k}
    decreases ops
  {
    if ops != [] {
      assert ops[0].key != k;
      assert forall i :: 0 <= i < |ops[1..]| ==> ops[1..][i] == ops[i + 1];
      assert AfterOne(m - {k}, ops[0]) == AfterOne(m, ops[0]) - {k};
      AfterWithout(AfterOne(m, ops[0]), ops[1..], k);
    }
  }

  lemma EvictionShrinks(m: Records, ops: seq<WriteOp>, k: string)
    requires k in m && forall i :: 0 <= i < |ops| ==> ops[i].key != k
    ensures Total(After(m - {k}, ops)) == Total(After(m, ops)) - SizeOf(k, m[k])
  {
    hide Total, SizeOf;
    AfterWithout(m, ops, k);
    AfterUntouched(m, ops, k);
    TotalWithout(After(m, ops), k);
  }

  /** What a batch leaves, told by the fields of the last op on a key: a record that was put, nothing
      that was dropped, and the rest as it was. */
  lemma {:induction false} AfterTakesLast(m: Records, ops: seq<WriteOp>, i: nat)
    requires i < |ops| && forall j :: i < j < |ops| ==> ops[j].key != ops[i].key
    ensures var op, m' := ops[i], After(m, ops);
            match op
            case Put(k, v, t, dt) => k in m' && m'[k].(stamp := 0) == Rec(Inline(v), t, 0, dt)
            case Drop(k) => k !in m'
  {
    assert ops[..i] + [ops[i]] + ops[i + 1..] == ops;
    AfterAppend(m, ops[..i] + [ops[i]], ops[i + 1..]);
    AfterOneMore(m, ops[..i], ops[i]);
    AfterUntouched(After(m, ops[..i] + [ops[i]]), ops[i + 1..], ops[i].key);
  }

  lemma {:induction false} AfterAppend(m: Records, a: seq<WriteOp>, b: seq<WriteOp>)
    ensures After(m, a + b) == After(After(m, a), b)
    decreases a
  {
    if a == [] {
      assert a + b == b;
    } else {
      assert (a + b)[1..] == a[1..] + b;
      AfterAppend(AfterOne(m, a[0]), a[1..], b);
    }
  }

  // ---- Who goes ----------------------------------------------------------------------------

  function KeysOf(ops: seq<WriteOp>): set<string> { set i | 0 <= i < |ops| :: ops[i].key }

  function Live(m: Records, now: int): Records { map k | k in m && !Expired(m[k], now) :: m[k] }

  /** The keys that stay, in order. */
  function Without(s: seq<string>, gone: set<string>): seq<string> {
    if s == [] then [] else (if s[0] in gone then [] else [s[0]]) + Without(s[1..], gone)
  }

  predicate NotAfter(v: string, s: seq<string>, i: int) { exists j :: 0 <= j <= i && j < |s| && s[j] == v }

  /** `v` may go, and no key that may go was touched longer ago: `access` lists keys by last touch. */
  ghost predicate IsVictim(v: string, may: set<string>, access: seq<string>) {
    v in may && forall i :: 0 <= i < |access| && access[i] in may ==> NotAfter(v, access, i)
  }

  /** Each key went while the batch did not fit yet, when it was its turn. */
  ghost predicate WentInTurn(
      m: Records, access: seq<string>, ops: seq<WriteOp>, limit: nat, victims: seq<string>) {
    forall i :: 0 <= i < |victims| ==> WentAt(m - ToSet(victims[..i]), access, ops, limit, victims[i])
  }

  ghost predicate WentAt(left: Records, access: seq<string>, ops: seq<WriteOp>, limit: nat, v: string) {
    Total(After(left, ops)) > limit && IsVictim(v, left.Keys - KeysOf(ops), access)
  }

  function ToSet(s: seq<string>): set<string> { set k | k in s }

  lemma OneMoreGone(victims: seq<string>, v: string)
    ensures ToSet(victims + [v]) == ToSet(victims) + {v}
    ensures forall i :: 0 <= i <= |victims| ==> (victims + [v])[..i] == victims[..i]
  {
  }

  lemma {:induction false} WithoutMore(s: seq<string>, a: set<string>, b: set<string>)
    ensures Without(Without(s, a), b) == Without(s, a + b)
  {
    if s != [] {
      var h, t := s[0], s[1..];
      WithoutMore(t, a, b);
      if h in a {
        assert h in a + b && Without(s, a) == Without(t, a);
      } else {
        assert Without(s, a) == [h] + Without(t, a);
        assert ([h] + Without(t, a))[1..] == Without(t, a);
        assert h in b <==> h in a + b;
      }
    }
  }

  lemma {:induction false} WithoutNone(s: seq<string>)
    ensures Without(s, {}) == s
  {
    if s != [] { WithoutNone(s[1..]); }
  }

  /** Keys that are gone do not change whose turn it is. */
  lemma {:induction false} TurnAmongAll(v: string, may: set<string>, access: seq<string>, gone: set<string>)
    requires IsVictim(v, may, Without(access, gone)) && gone !! may
    ensures IsVictim(v, may, access)
  {
    if access != [] {
      var h, t := access[0], access[1..];
      var rest := Without(t, gone);
      assert Without(access, gone) == if h in gone then rest else [h] + rest;
      if h in gone || v != h {
        if h !in gone { TurnOfTail(v, may, h, rest); }
        TurnAmongAll(v, may, t, gone);
        TurnBehind(v, may, h, t);
        assert access == [h] + t;
      } else {
        assert access[0] == v;
      }
    }
  }

  lemma TurnOfTail(v: string, may: set<string>, h: string, t: seq<string>)
    requires IsVictim(v, may, [h] + t) && v != h
    ensures IsVictim(v, may, t) && h !in may
  {
    var s := [h] + t;
    assert s[0] == h;
    forall i | 0 <= i < |t| && t[i] in may ensures NotAfter(v, t, i) {
      assert s[i + 1] == t[i];
      var j :| 0 <= j <= i + 1 && j < |s| && s[j] == v;
      assert t[j - 1] == v;
    }
  }

  lemma TurnBehind(v: string, may: set<string>, h: string, t: seq<string>)
    requires IsVictim(v, may, t) && h !in may
    ensures IsVictim(v, may, [h] + t)
  {
    var s := [h] + t;
    forall i | 0 <= i < |s| && s[i] in may ensures NotAfter(v, s, i) {
      assert s[i] == t[i - 1];
      var j :| 0 <= j <= i - 1 && j < |t| && t[j] == v;
      assert s[j + 1] == v;
    }
  }

  // ---- The order of touches ----------------------------------------------------------------

  /** The access list after the keys were touched in this order. */
  function Touched(ts: seq<string>): seq<string> {
    if ts == [] then [] else Without(Touched(ts[..|ts| - 1]), {ts[|ts| - 1]}) + [ts[|ts| - 1]]
  }

  /** When a key was last touched. */
  function LastTouch(ts: seq<string>, k: string): (i: int)
    ensures -1 <= i < |ts| && (i >= 0 ==> ts[i] == k) && forall j :: i < j < |ts| ==> ts[j] != k
  {
    if ts == [] then -1
    else if ts[|ts| - 1] == k then |ts| - 1
    else LastTouch(ts[..|ts| - 1], k)
  }

  ghost predicate ByLastTouch(access: seq<string>, ts: seq<string>) {
    forall i, j :: 0 <= i < j < |access| ==> LastTouch(ts, access[i]) < LastTouch(ts, access[j])
  }

  lemma {:induction false} WithoutKeeps(s: seq<string>, gone: set<string>)
    ensures forall k :: k in Without(s, gone) <==> k in s && k !in gone
  {
    if s != [] { WithoutKeeps(s[1..], gone); }
  }

  lemma {:induction false} WithoutKeepsOrder(s: seq<string>, gone: set<string>, ts: seq<string>)
    requires ByLastTouch(s, ts)
    ensures ByLastTouch(Without(s, gone), ts)
  {
    if s != [] {
      var h, t := s[0], s[1..];
      assert forall i :: 0 <= i < |t| ==> t[i] == s[i + 1];
      WithoutKeepsOrder(t, gone, ts);
      WithoutKeeps(t, gone);
      forall x | x in t ensures LastTouch(ts, h) < LastTouch(ts, x) {
        var i :| 0 <= i < |t| && t[i] == x;
        assert s[i + 1] == x;
      }
    }
  }

  /** The access list holds every key that was touched, once, in the order of its last touch. */
  lemma {:induction false} TouchedByLastTouch(ts: seq<string>)
    ensures forall k :: k in Touched(ts) <==> k in ts
    ensures ByLastTouch(Touched(ts), ts)
  {
    if ts != [] {
      var init, t := ts[..|ts| - 1], ts[|ts| - 1];
      assert ts == init + [t];
      var kept := Without(Touched(init), {t});
      TouchedByLastTouch(init);
      WithoutKeeps(Touched(init), {t});
      WithoutKeepsOrder(Touched(init), {t}, init);
      forall i, j | 0 <= i < j < |Touched(ts)| ensures LastTouch(ts, Touched(ts)[i]) < LastTouch(ts, Touched(ts)[j]) {
        assert kept[i] in kept;
        if j < |kept| { assert kept[j] in kept; }
      }
    }
  }

  class Guard {
    const store: Store
    const policy: Policy
    const limit: nat

    /** Keys by last touch, least recent first. */
    var access: seq<string>

    constructor (store: Store, policy: Policy, limit: nat)
      ensures this.store == store && this.policy == policy && this.limit == limit && access == []
    {
      this.store, this.policy, this.limit, access := store, policy, limit, [];
    }

    /** A touched key moves to the most recently used end. */
    method Touch(k: string)
      modifies `access
      ensures access == Without(old(access), {k}) + [k]
      ensures forall ts :: old(access) == Touched(ts) ==> access == Touched(ts + [k])
    {
      access := Without(access, {k}) + [k];
      assert forall ts: seq<string> :: (ts + [k])[..|ts + [k]| - 1] == ts;
    }

    /** The bytes the store would hold after the batch, each key's earlier size in it replaced. */
    method Projected(ops: seq<WriteOp>) returns (n: int)
      requires store.Valid()
      ensures n == Total(After(store.records, ops))
    {
      hide Total, SizeOf, After;
      var considered: map<string, nat> := map[];
      n := store.bytes;
      NothingWritten(store.records);
      assert ops[..0] == [];
      for i := 0 to |ops|
        invariant n == Total(After(store.records, ops[..i]))
        invariant forall k ::
          (if k in considered then considered[k] else SizeIn(store.records, k)) ==
          SizeIn(After(store.records, ops[..i]), k)
      {
        var op := ops[i];
        ghost var m := After(store.records, ops[..i]);
        assert ops[..i + 1] == ops[..i] + [op];
        AfterOneMore(store.records, ops[..i], op);
        TotalAfterOne(m, op);
        var cur: nat;
        if op.key in considered { cur := considered[op.key]; } else { cur := store.RecordBytes(op.key); }
        var next := if op.Put? then SizeOf(op.key, RecOf(op, 0)) else 0;
        n := n - cur + next;
        considered := considered[op.key := next];
      }
      assert ops[..|ops|] == ops;
    }

    static lemma NothingWritten(m: Records)
      ensures After(m, []) == m
    {
    }

    /** The least recently touched key that may go; a key never touched only if there is no other. */
    method PickVictim(spared: set<string>) returns (v: Option<string>)
      ensures v.Some? ==> IsVictim(v.value, store.records.Keys - spared, access)
      ensures v.None? <==> store.records.Keys <= spared
    {
      var i := 0;
      while i < |access|
        invariant 0 <= i <= |access|
        invariant forall j :: 0 <= j < i ==> access[j] !in store.records.Keys - spared
      {
        if access[i] in store.records && access[i] !in spared { return Some(access[i]); }
        i := i + 1;
      }
      var rest := store.records.Keys - spared;
      assert forall k :: k in store.records.Keys ==> k in rest || k in spared;
      if rest == {} { return None; }
      var k :| k in rest;
      v := Some(k);
    }

    /** Make room for a batch: drop what has expired, then, only if the batch does not fit and the policy
        allows it, evict keys the batch does not touch, one by one in the order of last touch, until it
        fits. If it does not fit in the end, no key may go any more, or it was the turn of the empty key,
        which the loop takes for none. */
    method EnsureMemoryFor(ops: seq<WriteOp>, now: int) returns (ok: bool, ghost victims: seq<string>)
      requires store.Valid()
      modifies this`access, store, store.order, store.order.nodes
      ensures store.Valid() && store.records == Live(old(store.records), now) - ToSet(victims)
      ensures policy == NoEviction || Total(After(Live(old(store.records), now), ops)) <= limit ==> victims == []
      ensures WentInTurn(Live(old(store.records), now), old(access), ops, limit, victims)
      ensures access == Without(old(access), ToSet(victims))
      ensures ok <==> Total(After(store.records, ops)) <= limit
      ensures !ok && policy == EvictLru ==>
                store.records.Keys <= KeysOf(ops) || IsVictim("", store.records.Keys - KeysOf(ops), access)
      ensures forall n :: n in store.order.nodes ==> n in old(store.order.nodes)
    {
      hide Total, SizeOf, After, IsHeap, Scheduled, Store.Core, IsVictim, Without, WentInTurn, ToSet;
      store.ReapExpired(now);
      ghost var start := store.records;
      victims := [];
      WithoutNone(access);
      NobodyWent(start, access, ops, limit);
      var projected := Projected(ops);
      if projected <= limit { return true, []; }
      if policy == EvictLru {
        var spared := KeysOf(ops);
        var done := false;
        while projected > limit && !done
          invariant store.Valid() && projected == Total(After(store.records, ops))
          invariant store.records == start - ToSet(victims)
          invariant access == Without(old(access), ToSet(victims))
          invariant WentInTurn(start, old(access), ops, limit, victims)
          invariant forall n :: n in store.order.nodes ==> n in old(store.order.nodes)
          invariant done ==> store.records.Keys <= spared || IsVictim("", store.records.Keys - spared, access)
          decreases |store.records|, !done
        {
          var v := PickVictim(spared);
          if v.None? || v.value == "" {
            done := true;
          } else {
            assert forall p :: 0 <= p < |store.order.nodes| ==> store.order.nodes[p] in old(store.order.nodes);
            OneMoreWent(start, old(access), ops, limit, victims, v.value);
            victims := victims + [v.value];
            projected := Evict(v.value, ops, projected);
          }
        }
      }
      ok := projected <= limit;
    }

    static lemma NobodyWent(m: Records, access: seq<string>, ops: seq<WriteOp>, limit: nat)
      ensures WentInTurn(m, access, ops, limit, []) && ToSet([]) == {} && m - ToSet([]) == m
    {
    }

    static lemma OneMoreWent(
        m: Records, access: seq<string>, ops: seq<WriteOp>, limit: nat, victims: seq<string>, v: string)
      requires WentInTurn(m, access, ops, limit, victims)
      requires var gone := ToSet(victims);
               && Total(After(m - gone, ops)) > limit
               && IsVictim(v, (m - gone).Keys - KeysOf(ops), Without(access, gone))
      ensures WentInTurn(m, access, ops, limit, victims + [v])
      ensures v in m - ToSet(victims) && forall i :: 0 <= i < |ops| ==> ops[i].key != v
      ensures m - ToSet(victims + [v]) == m - ToSet(victims) - {v}
      ensures Without(access, ToSet(victims + [v]))
              == Without(Without(access, ToSet(victims)), {v})
    {
      hide Total, After, Without;
      var gone, more := ToSet(victims), victims + [v];
      OneMoreGone(victims, v);
      WithoutMore(access, gone, {v});
      TurnAmongAll(v, (m - gone).Keys - KeysOf(ops), access, gone);
      assert forall i :: 0 <= i < |ops| ==> ops[i].key in KeysOf(ops);
      forall i | 0 <= i < |more| ensures WentAt(m - ToSet(more[..i]), access, ops, limit, more[i]) {
        assert more[..i] == victims[..i];
        if i == |victims| { assert victims[..i] == victims; }
      }
    }

    /** evictKey: delete the victim, and take its bytes from the projection. */
    method Evict(k: string, ops: seq<WriteOp>, projected: int) returns (left: int)
      requires store.Valid() && k in store.records && forall i :: 0 <= i < |ops| ==> ops[i].key != k
      requires projected == Total(After(store.records, ops))
      modifies this`access, store, store.order, store.order.nodes
      ensures store.Valid() && store.records == old(store.records) - {k} && |store.records| == |old(store.records)| - 1
      ensures left == Total(After(store.records, ops)) && access == Without(old(access), {k})
      ensures forall n :: n in store.order.nodes ==> n in old(store.order.nodes)
    {
      hide Total, SizeOf, After, IsHeap;
      EvictionShrinks(store.records, ops, k);
      Smaller(store.records, k);
      StillDue(store.heap.a, store.records, k);
      var size := store.RecordBytes(k);
      left := projected - size;
      var _ := store.Remove(k);
      access := Without(access, {k});
    }

    static lemma StillDue(a: seq<Expiry>, m: Records, k: string)
      requires Scheduled(a, m)
      ensures Scheduled(a, m - {k})
    {
    }
  }

  /** Apply a batch to the store. */
  method ApplyAll(store: Store, ops: seq<WriteOp>)
    requires store.Valid()
    modifies store, store.order, store.order.nodes, store.heap
    ensures store.Valid() && store.bytes == Total(After(old(store.records), ops))
    ensures SameButStamps(store.records, After(old(store.records), ops))
  {
    hide Total, SizeOf, Store.Core, IsHeap, Scheduled;
    ghost var was := store.records;
    assert ops[..0] == [];
    for i := 0 to |ops|
      invariant store.Valid() && SameButStamps(store.records, After(was, ops[..i]))
      invariant forall n :: n in store.order.nodes ==> n in old(store.order.nodes) || fresh(n)
    {
      assert ops[..i + 1] == ops[..i] + [ops[i]];
      AfterOneMore(was, ops[..i], ops[i]);
      assert forall p :: 0 <= p < |store.order.nodes| ==>
        store.order.nodes[p] in old(store.order.nodes) || fresh(store.order.nodes[p]);
      match ops[i]
      case Put(k, v, t, dt) => store.SetRef(k, Inline(v), t, dt);
      case Drop(k) =>
        StillDueIn(store.heap.a, store.records, k);
        var _ := store.Remove(k);
    }
    assert ops[..|ops|] == ops;
    SameTotals(store.records, After(was, ops));
    store.BytesAreTotal();
  }

  lemma StillDueIn(a: seq<Expiry>, m: Records, k: string)
    requires Scheduled(a, m)
    ensures Scheduled(a, m - {k})
  {
  }

  /** Two maps that differ in stamps at most. */
  ghost predicate SameButStamps(a: Records, b: Records) {
    a.Keys == b.Keys && forall k :: k in a ==> a[k].(stamp := 0) == b[k].(stamp := 0)
  }

  lemma {:induction false} SameTotals(a: Records, b: Records)
    requires SameButStamps(a, b)
    ensures Total(a) == Total(b)
    decreases |a|
  {
    if a == map[] {
      assert b == map[];
    } else {
      var k := Pick(a);
      Smaller(a, k);
      TotalWithout(a, k);
      TotalWithout(b, k);
      SameTotals(a - {k}, b - {k});
    }
  }

  /** A write that fits, when room has been made in that way, is applied as a whole and stays within the
      limit; one that does not is refused as a whole. */
  method Commit(g: Guard, ops: seq<WriteOp>, now: int) returns (ok: bool, ghost victims: seq<string>)
    requires g.store.Valid()
    modifies g`access, g.store, g.store.order, g.store.order.nodes, g.store.heap
    ensures g.store.Valid() && (ok ==> g.store.bytes <= g.limit)
    ensures WentInTurn(Live(old(g.store.records), now), old(g.access), ops, g.limit, victims)
    ensures g.policy == NoEviction || Total(After(Live(old(g.store.records), now), ops)) <= g.limit ==> victims == []
    ensures var left := Live(old(g.store.records), now) - ToSet(victims);
            && (ok <==> Total(After(left, ops)) <= g.limit)
            && if ok then SameButStamps(g.store.records, After(left, ops)) else g.store.records == left
  {
    hide Total, After, WentInTurn, Live, ToSet;
    ok, victims := g.EnsureMemoryFor(ops, now);
    assert forall p :: 0 <= p < |g.store.order.nodes| ==> g.store.order.nodes[p] in old(g.store.order.nodes);
    if ok { ApplyAll(g.store, ops); }
  }
}
