/** The in-memory store (store.ts): records with TTLs, an ordered key list, an expiry heap, and exact
    accounting of bytes. */
module KeyStore {
  import opened Bytes
  import opened Sorted
  import opened SkipLists
  import opened Heap

  const DISK_REF_BYTES := 64

  datatype Ref = Inline(value: bytes) | OnDisk(off: nat, len: nat)

  /** `expireAt` zero means no expiry; `dt` is the serialised metadata. */
  datatype Rec = Rec(ref: Ref, expireAt: int, stamp: nat, dt: Option<bytes>)

  type Records = map<string, Rec>

  // ---- Accounting, on the values ---------------------------------------------------------------

  function RefBytes(ref: Ref): nat { if ref.Inline? then |ref.value| else DISK_REF_BYTES }

  function MetaBytes(dt: Option<bytes>): nat { if dt.None? then 0 else |dt.value| }

  function SizeOf(k: string, r: Rec): nat { |k| + RefBytes(r.ref) + MetaBytes(r.dt) }

  ghost function Pick(m: Records): string
    requires m != map[]
    ensures Pick(m) in m
  {
    SomeKey(m);
    var k :| k in m.Keys;
    k
  }

  lemma SomeKey(m: Records)
    ensures m.Keys == {} <==> m == map[]
  {
    if m.Keys == {} { assert m == map[]; }
  }

  /** The bytes of all the records. */
  ghost function Total(m: Records): nat
    decreases |m|
  {
    if m == map[] then 0
    else
      var k := Pick(m);
      Smaller(m, k);
      SizeOf(k, m[k]) + Total(m - {k})
  }

  lemma Smaller(m: Records, k: string)
    requires k in m
    ensures |m - {k}| == |m| - 1
  {
    assert m.Keys == (m - {k}).Keys + {k};
    assert |m.Keys| == |(m - {k}).Keys| + 1;
  }

  lemma {:induction false} TotalWithout(m: Records, k: string)
    requires k in m
    ensures Total(m) == SizeOf(k, m[k]) + Total(m - {k})
    decreases |m|
  {
    hide SizeOf;
    var p := Pick(m);
    if p != k {
      Smaller(m, p);
      TotalWithout(m - {p}, k);
      TotalWithout2(m, p, k);
    }
  }

  lemma TotalWithout2(m: Records, p: string, k: string)
    requires k in m && p in m && p != k
    ensures Total(m - {p} - {k}) + SizeOf(p, m[p]) == Total(m - {k})
    decreases |m|, 0
  {
    hide SizeOf;
    Smaller(m, k);
    TotalWithout(m - {k}, p);
    assert m - {p} - {k} == m - {k} - {p};
  }

  lemma TotalWith(m: Records, k: string, r: Rec)
    ensures Total(m[k := r]) == Total(m) - (if k in m then SizeOf(k, m[k]) else 0) + SizeOf(k, r)
  {
    hide SizeOf;
    TotalWithout(m[k := r], k);
    if k in m {
      TotalWithout(m, k);
      assert m[k := r] - {k} == m - {k};
    } else {
      assert m[k := r] - {k} == m;
    }
  }

  /** The keys with an expiry. */
  ghost function Expiring(m: Records): set<string> { set k | k in m && m[k].expireAt != 0 }

  lemma ExpiringWithout(m: Records, k: string)
    requires k in m
    ensures |Expiring(m)| == |Expiring(m - {k})| + if m[k].expireAt != 0 then 1 else 0
  {
    assert Expiring(m) == if m[k].expireAt != 0 then Expiring(m - {k}) + {k} else Expiring(m - {k});
  }

  lemma ExpiringWith(m: Records, k: string, r: Rec)
    ensures |Expiring(m[k := r])|
            == |Expiring(m)| - (if k in m && m[k].expireAt != 0 then 1 else 0) + if r.expireAt != 0 then 1 else 0
  {
    ExpiringWithout(m[k := r], k);
    if k in m {
      ExpiringWithout(m, k);
      assert m[k := r] - {k} == m - {k};
    } else {
      assert m[k := r] - {k} == m;
    }
  }

  predicate Expired(r: Rec, now: int) { r.expireAt != 0 && r.expireAt <= now }

  function KeyEntry(k: string): Entry { Entry(Str(k), k) }

  /** The ordered list has every key of the map once, and nothing else. */
  ghost predicate Ordered(es: seq<Entry>, m: Records) { forall e :: OrderedAt(es, m, e) }

  ghost predicate OrderedAt(es: seq<Entry>, m: Records, e: Entry) {
    multiset(es)[e] == if e == KeyEntry(e.val) && e.val in m then 1 else 0
  }

  lemma OrderedWith(es: seq<Entry>, m: Records, k: string, r: Rec)
    requires Ordered(es, m) && IsSorted(es)
    ensures if k in m then Ordered(es, m[k := r]) else Ordered(Inserted(es, KeyEntry(k)), m[k := r])
  {
    hide IsSorted, Inserted;
    InsertedIsSorted(es, KeyEntry(k));
    var m', es' := m[k := r], if k in m then es else Inserted(es, KeyEntry(k));
    forall e ensures OrderedAt(es', m', e) { assert OrderedAt(es, m, e); }
  }

  lemma OrderedWithout(es: seq<Entry>, m: Records, k: string)
    requires Ordered(es, m) && IsSorted(es) && k in m
    ensures Ordered(Removed(es, KeyEntry(k)), m - {k})
  {
    hide IsSorted, Removed;
    RemovedIsSorted(es, KeyEntry(k));
    assert OrderedAt(es, m, KeyEntry(k));
    var m', es' := m - {k}, Removed(es, KeyEntry(k));
    forall e ensures OrderedAt(es', m', e) { assert OrderedAt(es, m, e); }
  }

  /** The entry belongs to the version of the record that is stored. */
  predicate Current(e: Expiry, m: Records) {
    e.k in m && m[e.k].expireAt == e.t && m[e.k].stamp == e.stamp && e.t != 0
  }

  /** Every record with an expiry is in the heap under its current version. */
  ghost predicate Scheduled(a: seq<Expiry>, m: Records) {
    forall k :: k in m && m[k].expireAt != 0 ==> Expiry(m[k].expireAt, k, m[k].stamp) in a
  }

  // ---- The store -------------------------------------------------------------------------------

  class Store {
    var records: Records
    const order: SkipList
    const heap: MinHeap
    var stamp: nat
    var bytes: nat
    var expiring: nat

    ghost predicate Valid()
      reads this, order, order.nodes, heap
    {
      Core() && heap.Valid() && Scheduled(heap.a, records)
    }

    lemma BytesAreTotal()
      requires Valid()
      ensures bytes == Total(records)
    {
    }

    /** Everything but the heap. */
    ghost predicate Core()
      reads this, order, order.nodes
    {
      && order.Valid()
      && bytes == Total(records)
      && expiring == |Expiring(records)|
      && Ordered(order.Entries(), records)
    }

    constructor ()
      ensures Valid() && records == map[] && fresh(order) && fresh(order.nodes) && fresh(heap)
    {
      order := new SkipList();
      heap := new MinHeap();
      records, stamp, bytes, expiring := map[], 0, 0, 0;
    }

    method RecordBytes(k: string) returns (n: nat)
      ensures n == if k in records then SizeOf(k, records[k]) else 0
    {
      n := if k in records then SizeOf(k, records[k]) else 0;
    }

    /** The number of records that have not expired; the map's size when no record has a TTL. */
    method Size(now: int) returns (n: nat)
      requires Valid()
      ensures n == |set k | k in records && !Expired(records[k], now)|
    {
      if expiring == 0 {
        assert Expiring(records) == {};
        assert (set k | k in records && !Expired(records[k], now)) == records.Keys by {
          forall k | k in records ensures records[k].expireAt == 0 { assert k !in Expiring(records); }
        }
        return |records|;
      }
      n := 0;
      var todo := records.Keys;
      while todo != {}
        invariant todo <= records.Keys && n == |set k | k in records && k !in todo && !Expired(records[k], now)|
        decreases |todo|
      {
        var k :| k in todo;
        ghost var seen := set x | x in records && x !in todo && !Expired(records[x], now);
        ghost var seen' := set x | x in records && x !in todo - {k} && !Expired(records[x], now);
        assert seen' == if Expired(records[k], now) then seen else seen + {k};
        if !Expired(records[k], now) { n := n + 1; }
        todo := todo - {k};
      }
      assert (set k | k in records && k !in todo && !Expired(records[k], now)) == set k | k in records
        && !Expired(records[k], now);
    }

    /** Delete a record, its bytes, its place in the order, and its TTL count. */
    method Remove(k: string) returns (ok: bool)
      requires Core()
      modifies this, order, order.nodes
      ensures Core() && ok == (k in old(records)) && records == old(records) - {k}
      ensures forall n :: n in order.nodes ==> n in old(order.nodes)
    {
      hide Total, Expiring, Ordered, SizeOf, Inserted, Removed;
      ok := k in records;
      if ok {
        TotalWithout(records, k);
        ExpiringWithout(records, k);
        OrderedWithout(order.Entries(), records, k);
        bytes := bytes - SizeOf(k, records[k]);
        if records[k].expireAt != 0 { expiring := expiring - 1; }
        records := records - {k};
        var _ := order.Delete(Str(k), k);
      }
    }

    /** Store a record under a new version; an overwritten key keeps its place in the order. */
    method SetRef(k: string, ref: Ref, expireAt: int, dt: Option<bytes>)
      requires Valid()
      modifies this, order, order.nodes, heap
      ensures Valid() && stamp == old(stamp) + 1
      ensures records == old(records)[k := Rec(ref, expireAt, stamp, dt)]
      ensures forall n :: n in order.nodes ==> n in old(order.nodes) || fresh(n)
    {
      hide Total, Expiring, Ordered, SizeOf, Inserted, IsHeap, Scheduled;
      var had := k in records;
      var r := Rec(ref, expireAt, stamp + 1, dt);
      OrderedWith(order.Entries(), records, k, r);
      Account(k, r);
      if !had { order.Insert(Str(k), k); }
      if expireAt != 0 { Schedule(k, old(records)); } else { NothingToSchedule(heap.a, old(records), k, r); }
    }

    /** Replace a record and keep the books. */
    method Account(k: string, r: Rec)
      requires bytes == Total(records) && expiring == |Expiring(records)| && r.stamp == stamp + 1
      modifies `records, `stamp, `bytes, `expiring
      ensures bytes == Total(records) && expiring == |Expiring(records)|
      ensures records == old(records)[k := r] && stamp == r.stamp
    {
      hide Total, Expiring, SizeOf;
      TotalWith(records, k, r);
      ExpiringWith(records, k, r);
      if k in records {
        TotalWithout(records, k);
        ExpiringWithout(records, k);
        if records[k].expireAt != 0 { expiring := expiring - 1; }
        bytes := bytes - SizeOf(k, records[k]);
      }
      stamp := stamp + 1;
      records := records[k := r];
      bytes := bytes + SizeOf(k, r);
      if r.expireAt != 0 { expiring := expiring + 1; }
    }

    static lemma NothingToSchedule(a: seq<Expiry>, m: Records, k: string, r: Rec)
      requires Scheduled(a, m) && r.expireAt == 0
      ensures Scheduled(a, m[k := r])
    {
    }

    /** Put a new TTL record into the heap; rebuild the heap when stale entries dominate it. */
    method Schedule(k: string, ghost was: Records)
      requires heap.Valid() && k in records && records[k].expireAt != 0
      requires Scheduled(heap.a, was) && records == was[k := records[k]]
      modifies heap
      ensures heap.Valid() && Scheduled(heap.a, records)
    {
      ghost var a := heap.a;
      heap.Push(Expiry(records[k].expireAt, k, records[k].stamp));
      StillIn(a, heap.a, Expiry(records[k].expireAt, k, records[k].stamp));
      if |heap.a| > 2 * |records| + 64 { RebuildHeap(); }
    }

    static lemma StillIn(a: seq<Expiry>, b: seq<Expiry>, x: Expiry)
      requires multiset(b) == multiset(a) + multiset{x}
      ensures x in b && forall y :: y in a ==> y in b
    {
      assert x in multiset(b);
      forall y | y in a ensures y in b { assert y in multiset(b); }
    }

    /** Drop the stale entries: the heap is rebuilt from the records. */
    method RebuildHeap()
      modifies heap
      ensures heap.Valid() && Scheduled(heap.a, records)
    {
      heap.Clear();
      var todo := records.Keys;
      while todo != {}
        invariant todo <= records.Keys && heap.Valid()
        invariant forall k :: k in records && k !in todo && records[k].expireAt != 0 ==>
          Expiry(records[k].expireAt, k, records[k].stamp) in heap.a
        decreases |todo|
      {
        var k :| k in todo;
        if records[k].expireAt != 0 {
          ghost var was := heap.a;
          heap.Push(Expiry(records[k].expireAt, k, records[k].stamp));
          StillIn(was, heap.a, Expiry(records[k].expireAt, k, records[k].stamp));
        }
        todo := todo - {k};
      }
    }

    // ---- Expiry ------------------------------------------------------------------------------

    /** Lazy expiration: a read of an expired record removes it. */
    method GetRecord(k: string, now: int) returns (r: Option<Rec>, expired: bool)
      requires Valid()
      modifies this, order, order.nodes
      ensures Valid()
      ensures expired == (k in old(records) && old(records)[k].expireAt != 0 && old(records)[k].expireAt <= now)
      ensures records == if expired then old(records) - {k} else old(records)
      ensures r == if k in records then Some(records[k]) else None
      ensures forall n :: n in order.nodes ==> n in old(order.nodes)
    {
      hide Total, Expiring, Ordered, IsHeap;
      expired := false;
      if k !in records { return None, false; }
      r := Some(records[k]);
      if Expired(records[k], now) {
        var _ := Remove(k);
        return None, true;
      }
    }

    /** Whether an unfinished pass stops here: past the quota, at every sixteenth entry, if the time is up. */
    static method OutOfBudget(n: nat, quota: nat) returns (stop: bool)
      ensures stop ==> n >= quota && n % 16 == 0
    {
      stop := *;
      stop := stop && n >= quota && n % 16 == 0;
    }

    /** One tick of active expiration. It removes only expired records; all of them, if the budget lets it
        finish; and if not, it has worked off its quota of due entries, each with its record unless the
        entry was stale. The owner is told of each record. */
    method ActiveExpire(now: int, quota: nat) returns (reaped: set<string>, finished: bool)
      requires Valid()
      modifies this, order, order.nodes, heap
      ensures Valid() && records == old(records) - reaped
      ensures forall k :: k in reaped ==> k in old(records) && Expired(old(records)[k], now)
      ensures finished ==> forall k :: k in records ==> !Expired(records[k], now)
      ensures !finished ==> |heap.a| + quota <= |old(heap.a)|
      ensures forall e :: e in old(heap.a) && e !in heap.a ==> e.t <= now && !Current(e, records)
      ensures forall n :: n in order.nodes ==> n in old(order.nodes)
    {
      hide Core, IsHeap, Scheduled, Expired, Current;
      reaped := {};
      var n: nat := 0;
      while heap.a != [] && heap.a[0].t <= now
        invariant Valid() && records == old(records) - reaped
        invariant forall k :: k in reaped ==> k in old(records) && Expired(old(records)[k], now)
        invariant |heap.a| + n == |old(heap.a)|
        invariant forall e :: e in old(heap.a) && e !in heap.a ==> e.t <= now && !Current(e, records)
        invariant forall n :: n in order.nodes ==> n in old(order.nodes)
        decreases |heap.a|
      {
        var stop := OutOfBudget(n, quota);
        if stop { return reaped, false; }
        assert forall p :: 0 <= p < |order.nodes| ==> order.nodes[p] in old(order.nodes);
        var k := ExpireNext(now);
        if k.Some? { reaped := reaped + {k.value}; }
        n := n + 1;
      }
      NoneLeft(heap.a, records, now);
      finished := true;
    }

    /** Take the next due entry out of the heap, and its record too if the entry is current. */
    method ExpireNext(now: int) returns (reaped: Option<string>)
      requires Valid() && heap.a != [] && heap.a[0].t <= now
      modifies this, order, order.nodes, heap
      ensures Valid() && |heap.a| == |old(heap.a)| - 1
      ensures forall e :: e in old(heap.a) && e !in heap.a ==> e.t <= now && !Current(e, records)
      ensures forall e :: Current(e, records) ==> Current(e, old(records))
      ensures reaped.Some? ==> reaped.value in old(records) && Expired(old(records)[reaped.value], now)
      ensures records == if reaped.Some? then old(records) - {reaped.value} else old(records)
      ensures forall n :: n in order.nodes ==> n in old(order.nodes)
    {
      hide Core, IsHeap, Scheduled;
      ghost var a := heap.a;
      var e := heap.Pop();
      Popped(a, heap.a, e, records, now);
      reaped := None;
      if e.k in records && records[e.k].stamp == e.stamp && Expired(records[e.k], now) {
        var _ := Remove(e.k);
        reaped := Some(e.k);
      }
    }

    /** An entry that is taken out was stale, or its record has expired and goes too. */
    static lemma Popped(a: seq<Expiry>, b: seq<Expiry>, e: Expiry, m: Records, now: int)
      requires Scheduled(a, m) && multiset(b) + multiset{e} == multiset(a) && e.t <= now
      ensures if e.k in m && m[e.k].stamp == e.stamp
        && Expired(m[e.k], now) then Scheduled(b, m - {e.k}) else Scheduled(b, m)
      ensures forall x :: x in a && x !in b ==> x == e
    {
      forall x | x in a && x != e ensures x in b { assert x in multiset(a); assert x in multiset(b); }
    }

    /** When the least entry lies in the future, no record has expired. */
    static lemma NoneLeft(a: seq<Expiry>, m: Records, now: int)
      requires Scheduled(a, m) && IsHeap(a) && (a == [] || a[0].t > now)
      ensures forall k :: k in m ==> !Expired(m[k], now)
    {
      forall k | k in m ensures !Expired(m[k], now) {
        if Expired(m[k], now) {
          var i :| 0 <= i < |a| && a[i] == Expiry(m[k].expireAt, k, m[k].stamp);
          RootIsLeast(a, i);
        }
      }
    }

    static lemma StillScheduled(a: seq<Expiry>, m: Records, k: string)
      requires Scheduled(a, m)
      ensures Scheduled(a, m - {k})
    {
    }

    /** Remove every expired record at once. */
    method ReapExpired(now: int)
      requires Valid()
      modifies this, order, order.nodes
      ensures Valid() && records == map k | k in old(records) && !Expired(old(records)[k], now) :: old(records)[k]
      ensures forall n :: n in order.nodes ==> n in old(order.nodes)
    {
      hide Core, IsHeap, Scheduled;
      var todo := records.Keys;
      while todo != {}
        invariant todo <= old(records).Keys && Core() && heap.Valid() && Scheduled(heap.a, records)
        invariant records == map k | k in old(records)
          && (k in todo || !Expired(old(records)[k], now)) :: old(records)[k]
        invariant forall n :: n in order.nodes ==> n in old(order.nodes)
        decreases |todo|
      {
        var k :| k in todo;
        assert forall p :: 0 <= p < |order.nodes| ==> order.nodes[p] in old(order.nodes);
        if Expired(records[k], now) {
          StillScheduled(heap.a, records, k);
          var _ := Remove(k);
        }
        todo := todo - {k};
      }
    }
  }
}
