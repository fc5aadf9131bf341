/** What a writer's commit does to the store, the iteration and the pending pointers. */
module StoreFacts {
  import opened Bytes
  import opened Codec
  import opened Replay
  import opened Commands
  import opened Durability

  ghost predicate StampsBelow(store: Table, n: nat) { forall k :: k in store ==> store[k].stamp < n }

  /** The store shows every reader from `now` on what the content shows. */
  ghost predicate Shows(store: Table, content: Content, now: int) {
    forall k :: SameView(Entries(store), content, k, now)
  }

  lemma RemoveDead(m: Mem, k: Key, now: int, content: Content)
    requires Shows(m.store, content, now)
    ensures Shows(Reap(m, k, now).store, content, now)
  {
    var m1 := Reap(m, k, now);
    forall x ensures SameView(Entries(m1.store), content, x, now) {
      assert SameView(Entries(m.store), content, x, now);
      forall t | t >= now ensures View(Entries(m1.store), x, t) == View(content, x, t) {
        assert View(Entries(m.store), x, t) == View(content, x, t);
      }
    }
  }

  lemma PutOpShows(m: Mem, r: Record, now: int, born: int, it: bool, content: Content)
    requires Shows(m.store, content, now) && (r.typ == TYPE_SET || r.typ == TYPE_DEL)
    ensures Shows(PutOp(m, r, now, born, it).store, ApplyOps(content, OpsOfRecord(r)), now)
  {
    RemoveDead(m, r.key, now, content);
    var m1 := Reap(m, r.key, now);
    var m2 := PutOp(m, r, now, born, it);
    var op := OpsOfRecord(r)[0];
    assert OpsOfRecord(r)[1..] == [];
    assert ApplyOps(content, OpsOfRecord(r)) == Apply(content, op);
    forall x ensures SameView(Entries(m2.store), Apply(content, op), x, now) {
      assert SameView(Entries(m1.store), content, x, now);
      forall t | t >= now ensures View(Entries(m2.store), x, t) == View(Apply(content, op), x, t) {
        assert View(Entries(m1.store), x, t) == View(content, x, t);
      }
    }
  }

  /** After a commit the store shows what the log with the new frame shows. */
  lemma {:induction false} PutOpsShow(m: Mem, ops: seq<Record>, now: int, born: int, it: bool, content: Content)
    requires Shows(m.store, content, now)
    requires forall i :: 0 <= i < |ops| ==> ops[i].typ == TYPE_SET || ops[i].typ == TYPE_DEL
    ensures Shows(PutOps(m, ops, now, born, it).store, ApplyOps(content, OpsOfBatch(ops)), now)
    decreases ops
  {
    if ops != [] {
      PutOpShows(m, ops[0], now, born, it, content);
      PutOpsShow(PutOp(m, ops[0], now, born, it), ops[1..], now, born, it, ApplyOps(content, OpsOfRecord(ops[0])));
      ApplyOpsAppend(content, OpsOfRecord(ops[0]), OpsOfBatch(ops[1..]));
    }
  }

  /** A commit leaves a record as it is, or writes it anew in memory under a new stamp. A record it
      leaves keeps its place in the iteration. */
  ghost predicate Effect(m: Mem, m': Mem, born: int) {
    && m.nextStamp <= m'.nextStamp
    && forall k :: k in m'.store ==>
         || (k in m.store && m'.store[k] == m.store[k] && (k in m.todo <==> k in m'.todo))
         || (m'.store[k].ref == Memory && m'.store[k].born == born && m.nextStamp <= m'.store[k].stamp < m'.nextStamp)
  }

  lemma {:induction false} PutOpsEffect(m: Mem, ops: seq<Record>, now: int, born: int, it: bool)
    requires StampsBelow(m.store, m.nextStamp)
    ensures Effect(m, PutOps(m, ops, now, born, it), born)
    ensures StampsBelow(PutOps(m, ops, now, born, it).store, PutOps(m, ops, now, born, it).nextStamp)
    decreases ops
  {
    if ops != [] {
      var m1 := PutOp(m, ops[0], now, born, it);
      assert Effect(m, m1, born);
      PutOpsEffect(m1, ops[1..], now, born, it);
    }
  }

  /** Every key is still to be visited, or absent, or was already covered. */
  ghost predicate TodoKept(m: Mem, m': Mem, it: bool) {
    && (m.todo <= m.store.Keys ==> m'.todo <= m'.store.Keys)
    && (!it ==> m'.todo <= m.todo)
    && (it ==> forall k :: k in m.todo || k !in m.store ==> k in m'.todo || k !in m'.store)
  }

  lemma {:induction false} PutOpsTodo(m: Mem, ops: seq<Record>, now: int, born: int, it: bool)
    ensures TodoKept(m, PutOps(m, ops, now, born, it), it)
    decreases ops
  {
    if ops != [] {
      var m1 := PutOp(m, ops[0], now, born, it);
      assert TodoKept(m, m1, it);
      PutOpsTodo(m1, ops[1..], now, born, it);
    }
  }

  /** Each pointer a commit wants to publish finds the record's value in the frame's bytes. */
  ghost predicate SetsPlaced(store: Table, sets: map<Key, (nat, nat)>, e: bytes, born: int) {
    forall k :: k in sets && k in store ==>
      store[k].born == born && sets[k].1 == |store[k].entry.value| && HoldsAt(e, store[k].entry.value, sets[k].0)
  }

  lemma {:induction false} PutOpsPlaced(
      m: Mem, ops: seq<Record>, offs: seq<nat>, acc: map<Key, (nat, nat)>, e: bytes, now: int, born: int, it: bool)
    requires ValuesAt(e, ops, offs) && SetsPlaced(m.store, acc, e, born)
    requires forall i :: 0 <= i < |ops| ==> ops[i].typ == TYPE_SET || ops[i].typ == TYPE_DEL
    ensures SetsPlaced(PutOps(m, ops, now, born, it).store, LastSets(acc, ops, offs), e, born)
    decreases ops
  {
    if ops != [] {
      var m1 := PutOp(m, ops[0], now, born, it);
      var acc1 := if ops[0].typ == TYPE_SET then acc[ops[0].key := (offs[0], |ops[0].value|)] else acc;
      assert SetsPlaced(m1.store, acc1, e, born);
      PutOpsPlaced(m1, ops[1..], offs[1..], acc1, e, now, born, it);
    }
  }

  /** Every entry can be written out as a SET frame. */
  ghost predicate EntriesFit(content: Content) {
    forall k {:trigger FitsAt(content, k)} :: k in content ==> FitsAt(content, k)
  }

  ghost predicate FitsAt(content: Content, k: Key)
    requires k in content
  {
    Prepared(SetRecord(k, content[k]))
  }

  lemma {:induction false} PutOpsFit(m: Mem, ops: seq<Record>, now: int, born: int, it: bool)
    requires EntriesFit(Entries(m.store))
    requires forall i :: 0 <= i < |ops| ==> Prepared(ops[i])
    ensures EntriesFit(Entries(PutOps(m, ops, now, born, it).store))
    decreases ops
  {
    if ops != [] {
      var m1 := PutOp(m, ops[0], now, born, it);
      assert Prepared(ops[0]);
      forall k | k in Entries(m1.store) ensures FitsAt(Entries(m1.store), k) {
        if k != ops[0].key { assert FitsAt(Entries(m.store), k); }
      }
      PutOpsFit(m1, ops[1..], now, born, it);
    }
  }

  lemma {:induction false} ReplayFits(m: Content, ops: seq<Op>, clock: seq<int>)
    requires |clock| == |ops| && EntriesFit(m) && OpsFit(ops)
    ensures EntriesFit(ReplayOps(m, ops, clock))
    decreases ops
  {
    if ops != [] {
      var m1 := Apply(m, Replayed(ops[0], clock[0]));
      forall k | k in m1 ensures FitsAt(m1, k) {
        if k != ops[0].key { assert FitsAt(m, k); }
      }
      ReplayFits(m1, ops[1..], clock[1..]);
    }
  }
}
