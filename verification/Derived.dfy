/** The commit body of a write (index.ts): the store and every derived index move together, through
    sets, deletes, expiry and the rollback of a write whose log append failed. */
module Derived {
  import opened Bytes
  import D = DtIndexes
  import C = CompoundIndexes
  import I = Indexes
  import S = Sorted
  import opened SkipLists

  type Pk = string

  /** What the indexes see of a record: its fields, its datetime columns, its place in a group. */
  datatype Doc = Doc(fields: I.Doc, dt: Option<D.Dt>, place: Option<C.Place>, expireAt: int)

  datatype Rec = Rec(doc: Doc, stamp: nat)

  type Records = map<Pk, Rec>

  datatype Op = Set(pk: Pk, doc: Doc) | Del(pk: Pk)

  predicate Expired(doc: Doc, now: int) { doc.expireAt != 0 && doc.expireAt <= now }

  function ColumnsOf(doc: Doc): D.Dt { if doc.dt.None? then map[] else doc.dt.value }

  // ---- What a rebuild would make of the records --------------------------------------------------

  function DtView(m: Records): map<Pk, D.Dt> { map k | k in m && ColumnsOf(m[k].doc) != map[] :: ColumnsOf(m[k].doc) }

  function PlaceView(m: Records): map<Pk, C.Place> { map k | k in m && m[k].doc.place.Some? :: m[k].doc.place.value }

  function FieldView(m: Records): map<Pk, I.Field> {
    map k | k in m && m[k].doc.fields.Object? :: m[k].doc.fields.field
  }

  lemma ViewsWithout(m: Records, k: Pk)
    ensures DtView(m - {k}) == DtView(m) - {k}
    ensures PlaceView(m - {k}) == PlaceView(m) - {k}
    ensures FieldView(m - {k}) == FieldView(m) - {k}
    ensures k !in m ==> m - {k} == m
  {
    hide ColumnsOf;
  }

  lemma ViewsWith(m: Records, k: Pk, r: Rec)
    ensures DtView(m[k := r]) == D.Recorded(DtView(m), k, ColumnsOf(r.doc))
    ensures PlaceView(m[k := r]) == if r.doc.place.None? then PlaceView(m) - {k}
      else PlaceView(m)[k := r.doc.place.value]
    ensures FieldView(m[k := r]) == if r.doc.fields.Plain? then FieldView(m) - {k}
      else (FieldView(m) - {k})[k := r.doc.fields.field]
  {
    hide DtView, PlaceView, FieldView;
    DtViewWith(m, k, r);
    PlaceViewWith(m, k, r);
    FieldViewWith(m, k, r);
  }

  lemma DtViewWith(m: Records, k: Pk, r: Rec)
    ensures DtView(m[k := r]) == D.Recorded(DtView(m), k, ColumnsOf(r.doc))
  {
    hide ColumnsOf;
  }

  lemma PlaceViewWith(m: Records, k: Pk, r: Rec)
    ensures PlaceView(m[k := r]) == if r.doc.place.None? then PlaceView(m) - {k}
      else PlaceView(m)[k := r.doc.place.value]
  {
  }

  lemma FieldViewWith(m: Records, k: Pk, r: Rec)
    ensures FieldView(m[k := r]) == if r.doc.fields.Plain? then FieldView(m) - {k}
      else (FieldView(m) - {k})[k := r.doc.fields.field]
  {
  }

  class Database {
    var records: Records
    var stamp: nat
    const dt: D.DtIndex
    const compound: C.CompoundIndex
    const index: I.Index

    ghost predicate Valid()
      reads this, dt, compound, index, index.list, index.list.nodes
    {
      Sound() && dt.byKey == DtView(records) && compound.byPk == PlaceView(records) && index.docs == FieldView(records)
    }

    ghost predicate Sound()
      reads dt, compound, index, index.list, index.list.nodes
    {
      dt.Valid() && compound.Valid() && index.Valid()
    }

    constructor (kind: I.Kind, unique: bool, sparse: bool)
      ensures Valid() && records == map[] && stamp == 0
    {
      hide I.Index.Valid, D.DtIndex.Valid, C.CompoundIndex.Valid;
      records, stamp := map[], 0;
      dt := new D.DtIndex();
      compound := new C.CompoundIndex();
      index := new I.Index(kind, unique, sparse);
    }

    /** Drop a key from every derived index. */
    method Forget(pk: Pk)
      requires Sound()
      modifies dt, compound, index, index.list, index.list.nodes
      ensures Sound() && dt.byKey == old(dt.byKey) - {pk} && compound.byPk == old(compound.byPk) - {pk}
      ensures index.docs == old(index.docs) - {pk} && index.list == old(index.list)
      ensures forall n :: n in index.list.nodes ==> n in old(index.list.nodes)
    {
      hide I.Index.Valid, D.DtIndex.Valid, C.CompoundIndex.Valid;
      dt.Del(pk);
      compound.Remove(pk);
      index.Remove(pk);
    }

    /** Enter a document that no index has any more. */
    method Learn(pk: Pk, doc: Doc)
      requires Sound() && pk !in index.docs
      modifies dt, compound, index, index.list, index.list.nodes
      ensures Sound() && dt.byKey == D.Recorded(old(dt.byKey), pk, ColumnsOf(doc))
      ensures compound.byPk == if doc.place.None? then old(compound.byPk) - {pk}
        else old(compound.byPk)[pk := doc.place.value]
      ensures index.docs == if doc.fields.Plain? then old(index.docs) else old(index.docs)[pk := doc.fields.field]
      ensures index.list == old(index.list)
      ensures forall n :: n in index.list.nodes ==> n in old(index.list.nodes) || fresh(n)
    {
      hide I.Index.Valid, D.DtIndex.Valid, C.CompoundIndex.Valid;
      dt.Set(pk, doc.dt);
      compound.Add(pk, doc.place);
      if doc.fields.Object? { index.Add(pk, doc.fields.field); }
    }

    /** A read finds the record expired: the store drops it and tells the indexes. */
    method Reap(pk: Pk, now: int)
      requires Valid()
      modifies this, dt, compound, index, index.list, index.list.nodes
      ensures Valid() && stamp == old(stamp)
      ensures records == if pk in old(records)
        && Expired(old(records)[pk].doc, now) then old(records) - {pk} else old(records)
      ensures index.list == old(index.list) && forall n :: n in index.list.nodes ==> n in old(index.list.nodes)
    {
      hide Sound, DtView, PlaceView, FieldView;
      if pk in records && Expired(records[pk].doc, now) {
        ViewsWithout(records, pk);
        Forget(pk);
        records := records - {pk};
      }
    }

    /** applyOp: returns the record that was there, for a rollback. */
    method Apply(op: Op, now: int) returns (prev: Option<Rec>)
      requires Valid()
      modifies this, dt, compound, index, index.list, index.list.nodes
      ensures Valid()
      ensures prev == if op.pk in old(records)
        && !Expired(old(records)[op.pk].doc, now) then Some(old(records)[op.pk]) else None
      ensures records == if op.Set? then old(records)[op.pk := Rec(op.doc, stamp)] else old(records) - {op.pk}
      ensures op.Set? ==> stamp == old(stamp) + 1
      ensures index.list == old(index.list) && forall n :: n in index.list.nodes ==>
        n in old(index.list.nodes) || fresh(n)
    {
      hide Sound, DtView, PlaceView, FieldView;
      Reap(op.pk, now);
      assert forall p :: 0 <= p < |index.list.nodes| ==> index.list.nodes[p] in old(index.list.nodes);
      prev := if op.pk in records then Some(records[op.pk]) else None;
      match op
      case Set(pk, doc) => Overwrite(pk, doc);
      case Del(pk) =>
        ViewsWithout(records, pk);
        if pk in records { Forget(pk); }
        records := records - {pk};
    }

    /** The indexes drop what the old document had, then take the new one. */
    method Overwrite(pk: Pk, doc: Doc)
      requires Valid()
      modifies this, dt, compound, index, index.list, index.list.nodes
      ensures Valid() && stamp == old(stamp) + 1 && records == old(records)[pk := Rec(doc, stamp)]
      ensures index.list == old(index.list) && forall n :: n in index.list.nodes ==>
        n in old(index.list.nodes) || fresh(n)
    {
      hide DtView, PlaceView, FieldView, I.Index.Valid, D.DtIndex.Valid, C.CompoundIndex.Valid;
      ViewsWith(records, pk, Rec(doc, stamp + 1));
      if pk in records && records[pk].doc.fields.Object? {
        index.Remove(pk);
      } else {
        NotIndexed(pk);
      }
      assert forall p :: 0 <= p < |index.list.nodes| ==> index.list.nodes[p] in old(index.list.nodes);
      Learn(pk, doc);
      stamp := stamp + 1;
      records := records[pk := Rec(doc, stamp)];
    }

    lemma NotIndexed(pk: Pk)
      requires index.docs == FieldView(records) && !(pk in records && records[pk].doc.fields.Object?)
      ensures pk !in index.docs && index.docs - {pk} == index.docs
    {
    }

    /** restoreKey: put back what was there before a write that failed, unless the key has changed since
        (`applied` is the stamp the write left, None if it left no record). When the old record's own
        TTL has passed meanwhile, reading it back removes it, and its columns are entered after that. */
    method Restore(pk: Pk, prev: Option<Rec>, applied: Option<nat>, now: int)
      requires Valid()
      modifies this, dt, compound, index, index.list, index.list.nodes
      ensures Sound()
      ensures Valid() <==> !(StillThere(old(records), pk, applied) && prev.Some? && Expired(prev.value.doc, now)
                             && ColumnsOf(prev.value.doc) != map[])
      ensures if !StillThere(old(records), pk, applied) then records == old(records)
              else if prev.Some? && !Expired(prev.value.doc, now) then
                pk in records && records[pk].doc == prev.value.doc && records - {pk} == old(records) - {pk}
              else records == old(records) - {pk}
      ensures index.list == old(index.list) && forall n :: n in index.list.nodes ==>
        n in old(index.list.nodes) || fresh(n)
    {
      hide DtView, PlaceView, FieldView, I.Index.Valid, D.DtIndex.Valid, C.CompoundIndex.Valid;
      if !StillThere(records, pk, applied) { return; }
      ViewsWithout(records, pk);
      Forget(pk);
      assert forall p :: 0 <= p < |index.list.nodes| ==> index.list.nodes[p] in old(index.list.nodes);
      if prev.None? {
        records := records - {pk};
        return;
      }
      stamp := stamp + 1;
      if Expired(prev.value.doc, now) {
        records := records - {pk};
        dt.Set(pk, prev.value.doc.dt);
        OnlyColumnsLeft(records, pk, ColumnsOf(prev.value.doc));
      } else {
        ViewsWith(records - {pk}, pk, Rec(prev.value.doc, stamp));
        assert (records - {pk})[pk := Rec(prev.value.doc, stamp)] == records[pk := Rec(prev.value.doc, stamp)];
        records := records[pk := Rec(prev.value.doc, stamp)];
        AfterForget(old(records), pk);
        Learn(pk, prev.value.doc);
        assert records - {pk} == old(records) - {pk};
      }
    }

    static lemma AfterForget(m: Records, pk: Pk)
      ensures pk !in FieldView(m) - {pk} && FieldView(m) - {pk} - {pk} == FieldView(m) - {pk}
    {
    }

    static lemma OnlyColumnsLeft(m: Records, pk: Pk, columns: D.Dt)
      requires pk !in m
      ensures D.Recorded(DtView(m), pk, columns) == DtView(m) <==> columns == map[]
      ensures DtView(m) - {pk} == DtView(m)
    {
      assert pk !in DtView(m);
    }

    predicate StillThere(m: Records, pk: Pk, applied: Option<nat>) {
      if applied.None? then pk !in m else pk in m && m[pk].stamp == applied.value
    }

    /** A write whose log append fails: applied, then rolled back. No document has changed but one that
        had expired, and every index is exact again, unless the old record expired between the two. */
    method FailedWrite(op: Op, now: int, later: int)
      requires Valid()
      requires op.pk in records && !Expired(records[op.pk].doc, now) ==> !Expired(records[op.pk].doc, later)
      modifies this, dt, compound, index, index.list, index.list.nodes
      ensures Valid()
      ensures Docs(records) == if op.pk in old(records)
        && Expired(old(records)[op.pk].doc, now) then Docs(old(records)) - {op.pk}
                               else Docs(old(records))
    {
      hide Sound, DtView, PlaceView, FieldView;
      var prev := Apply(op, now);
      var applied := if op.pk in records then Some(records[op.pk].stamp) else None;
      assert forall p :: 0 <= p < |index.list.nodes| ==>
        index.list.nodes[p] in old(index.list.nodes) || fresh(index.list.nodes[p]);
      FailedRestore(op.pk, prev, applied, later);
    }

    method FailedRestore(pk: Pk, prev: Option<Rec>, applied: Option<nat>, later: int)
      requires Valid() && StillThere(records, pk, applied) && (prev.Some? ==> !Expired(prev.value.doc, later))
      modifies this, dt, compound, index, index.list, index.list.nodes
      ensures Valid() && Docs(records) == if prev.None? then Docs(old(records)) - {pk}
        else Docs(old(records))[pk := prev.value.doc]
      ensures records - {pk} == old(records) - {pk}
      ensures index.list == old(index.list) && forall n :: n in index.list.nodes ==>
        n in old(index.list.nodes) || fresh(n)
    {
      hide Sound, DtView, PlaceView, FieldView;
      Restore(pk, prev, applied, later);
      DocsWithout(old(records), pk);
      if prev.Some? { DocsWith(records, old(records), pk); }
    }

    static function KeysIn(ops: seq<Op>): set<Pk> { set i | 0 <= i < |ops| :: ops[i].pk }

    /** Outside `keys` the two are the same. */
    static ghost predicate SameOutside(a: Records, b: Records, keys: set<Pk>) {
      forall k :: k !in keys ==> (k in a <==> k in b) && (k in a ==> a[k] == b[k])
    }

    /** The live record of each key before the batch. */
    static ghost predicate ArePrevs(was: Records, prevs: map<Pk, Option<Rec>>, first: int) {
      forall k :: k in prevs ==> prevs[k] == if k in was && !Expired(was[k].doc, first) then Some(was[k]) else None
    }

    /** No record of the batch expires between its first op and the rollback. */
    static ghost predicate NoneExpires(m: Records, keys: set<Pk>, first: int, later: int) {
      forall k :: k in keys && k in m ==> Expired(m[k].doc, first) || !Expired(m[k].doc, later)
    }

    /** The ops of a batch, one after the other; the clock moves on while they are applied. */
    method ApplyBatch(ops: seq<Op>, first: int, later: int) returns (prevs: map<Pk, Option<Rec>>)
      requires Valid() && first <= later && NoneExpires(records, KeysIn(ops), first, later)
      modifies this, dt, compound, index, index.list, index.list.nodes
      ensures Valid() && prevs.Keys == KeysIn(ops)
      ensures ArePrevs(old(records), prevs, first) && SameOutside(records, old(records), KeysIn(ops))
      ensures Docs(records) == DocsAfter(Docs(old(records)), ops)
      ensures index.list == old(index.list) && forall n :: n in index.list.nodes ==>
        n in old(index.list.nodes) || fresh(n)
    {
      hide Sound, DtView, PlaceView, FieldView, KeysIn, SameOutside, ArePrevs, Docs, DocsAfter, Expired, NoneExpires;
      prevs := map[];
      var now := first;
      BatchStarts(records, ops, first);
      for i := 0 to |ops|
        invariant Valid() && first <= now <= later && prevs.Keys == KeysIn(ops[..i])
        invariant ArePrevs(old(records), prevs, first) && SameOutside(records, old(records), KeysIn(ops[..i]))
        invariant Docs(records) == DocsAfter(Docs(old(records)), ops[..i])
        invariant index.list == old(index.list) && forall n :: n in index.list.nodes ==>
          n in old(index.list.nodes) || fresh(n)
      {
        assert forall p :: 0 <= p < |index.list.nodes| ==>
          index.list.nodes[p] in old(index.list.nodes) || fresh(index.list.nodes[p]);
        now :| now >= first && now <= later;
        ghost var was := records;
        var prev := Apply(ops[i], now);
        BatchStep(old(records), was, records, prevs, prev, ops, i, first, now, later);
        if ops[i].pk !in prevs { prevs := prevs[ops[i].pk := prev]; }
      }
      assert ops[..|ops|] == ops;
    }

    static lemma BatchStarts(m: Records, ops: seq<Op>, first: int)
      ensures KeysIn(ops[..0]) == {} && ArePrevs(m, map[], first) && SameOutside(m, m, {})
      ensures DocsAfter(Docs(m), ops[..0]) == Docs(m)
    {
    }

    /** One op of a batch more: the first previous record of a key stays the one that counts. */
    static lemma BatchStep(start: Records, was: Records, m: Records, prevs: map<Pk, Option<Rec>>, prev: Option<Rec>,
        ops: seq<Op>, i: nat, first: int, now: int, later: int)
      requires i < |ops| && first <= now <= later && NoneExpires(start, KeysIn(ops), first, later)
      requires prevs.Keys == KeysIn(ops[..i]) && ArePrevs(start, prevs, first)
      requires SameOutside(was, start, KeysIn(ops[..i])) && Docs(was) == DocsAfter(Docs(start), ops[..i])
      requires prev == if ops[i].pk in was && !Expired(was[ops[i].pk].doc, now) then Some(was[ops[i].pk]) else None
      requires if ops[i].Set? then ops[i].pk in m && m[ops[i].pk].doc == ops[i].doc
                 && m == was[ops[i].pk := m[ops[i].pk]]
               else m == was - {ops[i].pk}
      ensures KeysIn(ops[..i + 1]) == KeysIn(ops[..i]) + {ops[i].pk}
      ensures ArePrevs(start, if ops[i].pk in prevs then prevs else prevs[ops[i].pk := prev], first)
      ensures SameOutside(m, start, KeysIn(ops[..i + 1])) && Docs(m) == DocsAfter(Docs(start), ops[..i + 1])
    {
      hide KeysIn, Docs;
      OneMoreKey(ops, i);
      assert ops[..i + 1][..i] == ops[..i];
      DocsOneMore(was, m, ops[i]);
    }

    /** The documents after a batch, op by op. */
    static function DocsAfter(docs: map<Pk, Doc>, ops: seq<Op>): map<Pk, Doc> {
      if ops == [] then docs
      else
        var before := DocsAfter(docs, ops[..|ops| - 1]);
        match ops[|ops| - 1] case Set(pk, doc) => before[pk := doc] case Del(pk) => before - {pk}
    }

    static lemma DocsOneMore(was: Records, m: Records, op: Op)
      requires if op.Set? then op.pk in m && m == was[op.pk := m[op.pk]] && m[op.pk].doc == op.doc
               else m == was - {op.pk}
      ensures Docs(m) == match op case Set(pk, doc) => Docs(was)[pk := doc] case Del(pk) => Docs(was) - {pk}
    {
    }

    static lemma OneMoreKey(ops: seq<Op>, i: nat)
      requires i < |ops|
      ensures KeysIn(ops[..i + 1]) == KeysIn(ops[..i]) + {ops[i].pk} && ops[i].pk in KeysIn(ops)
    {
      assert ops[..i + 1] == ops[..i] + [ops[i]];
      forall k | k in KeysIn(ops[..i]) + {ops[i].pk} ensures k in KeysIn(ops[..i + 1]) {
        if k in KeysIn(ops[..i]) {
          var j :| 0 <= j < i && ops[..i][j].pk == k;
          assert ops[..i + 1][j].pk == k;
        } else {
          assert ops[..i + 1][i].pk == k;
        }
      }
    }

    static function StampOf(m: Records, k: Pk): Option<nat> { if k in m then Some(m[k].stamp) else None }

    /** A document or its absence, as it was before. */
    static ghost predicate BackAt(m: Records, prevs: map<Pk, Option<Rec>>, k: Pk)
      requires k in prevs
    {
      if prevs[k].None? then k !in m else k in m && m[k].doc == prevs[k].value.doc
    }

    /** Put back what every key of a batch had. */
    method RestoreAll(prevs: map<Pk, Option<Rec>>, later: int)
      requires Valid() && forall k :: k in prevs && prevs[k].Some? ==> !Expired(prevs[k].value.doc, later)
      modifies this, dt, compound, index, index.list, index.list.nodes
      ensures Valid() && SameOutside(records, old(records), prevs.Keys) && forall k :: k in prevs ==>
        BackAt(records, prevs, k)
    {
      hide Sound, DtView, PlaceView, FieldView;
      var stamps := map k | k in prevs :: StampOf(records, k);
      var todo := prevs.Keys;
      while todo != {}
        invariant todo <= prevs.Keys && Valid() && SameOutside(records, old(records), prevs.Keys - todo)
        invariant forall k :: k in prevs && k !in todo ==> BackAt(records, prevs, k)
        invariant index.list == old(index.list) && forall n :: n in index.list.nodes ==>
          n in old(index.list.nodes) || fresh(n)
        decreases |todo|
      {
        var pk :| pk in todo;
        assert forall p :: 0 <= p < |index.list.nodes| ==>
          index.list.nodes[p] in old(index.list.nodes) || fresh(index.list.nodes[p]);
        assert pk !in prevs.Keys - todo;
        ghost var was := records;
        FailedRestore(pk, prevs[pk], stamps[pk], later);
        OnlyOneChanged(records, was, pk);
        DocAt(records, was, pk, prevs[pk]);
        todo := todo - {pk};
      }
    }

    static lemma OnlyOneChanged(a: Records, b: Records, pk: Pk)
      requires a - {pk} == b - {pk}
      ensures SameOutside(a, b, {pk})
    {
      forall k | k != pk ensures (k in a <==> k in b) && (k in a ==> a[k] == b[k]) {
        assert (k in a <==> k in a - {pk}) && (k in b <==> k in b - {pk});
      }
    }

    static lemma DocAt(m: Records, was: Records, pk: Pk, prev: Option<Rec>)
      requires Docs(m) == if prev.None? then Docs(was) - {pk} else Docs(was)[pk := prev.value.doc]
      ensures if prev.None? then pk !in m else pk in m && m[pk].doc == prev.value.doc
    {
      assert pk in m <==> pk in Docs(m);
    }

    /** A batch whose log append fails: every op applied, then every key put back to its first previous record
        under its last stamp. Only documents that had expired before are gone, and every index is exact. */
    method FailedBatch(ops: seq<Op>, first: int, later: int)
      requires Valid() && first <= later && NoneExpires(records, KeysIn(ops), first, later)
      modifies this, dt, compound, index, index.list, index.list.nodes
      ensures Valid()
      ensures forall k :: k in Docs(records) <==>
                k in Docs(old(records)) && !(k in KeysIn(ops) && Expired(Docs(old(records))[k], first))
      ensures forall k :: k in Docs(records) ==> Docs(records)[k] == Docs(old(records))[k]
    {
      hide Sound, DtView, PlaceView, FieldView, KeysIn;
      var prevs := ApplyBatch(ops, first, later);
      assert forall p :: 0 <= p < |index.list.nodes| ==>
        index.list.nodes[p] in old(index.list.nodes) || fresh(index.list.nodes[p]);
      RestoreAll(prevs, later);
      forall k | k in prevs ensures BackAt(records, prevs, k) {}
    }

    static lemma DocsWith(m: Records, was: Records, pk: Pk)
      requires pk in m && m - {pk} == was - {pk}
      ensures Docs(m) == Docs(was)[pk := m[pk].doc]
    {
      forall k | k != pk ensures (k in m <==> k in was) && (k in m ==> m[k] == was[k]) {
        assert (k in m <==> k in m - {pk}) && (k in was <==> k in was - {pk});
      }
    }

    static function Docs(m: Records): map<Pk, Doc> { map k | k in m :: m[k].doc }

    static lemma DocsWithout(m: Records, pk: Pk)
      ensures Docs(m - {pk}) == Docs(m) - {pk}
    {
    }
  }

  /** Every index shows a record exactly when the store has it: in a datetime column at its value there,
      in its group at its place, under its keys in the secondary index. */
  lemma IndexesShowRecords(db: Database, k: Pk, c: string, n: real, g: C.Group, order: S.Scalar, v: I.Value)
    requires db.Valid()
    ensures c in db.dt.cols && D.At(n, k) in db.dt.cols[c].list
            <==> k in db.records && c in ColumnsOf(db.records[k].doc) && ColumnsOf(db.records[k].doc)[c] == D.Ms(n)
    ensures S.Entry(order, k) in C.ListOf(db.compound.groups, g)
            <==> k in db.records && db.records[k].doc.place == Some(C.Place(g, order))
    ensures I.Owns(I.OwnersOf(db.index.byPk), v, k)
            <==> k in db.records && db.records[k].doc.fields.Object?
                 && I.HasKey(db.index.kind, db.index.sparse, db.records[k].doc.fields.field, v)
  {
    hide D.ColsOk, I.HasKey, I.KeysOf, S.IsSorted, S.Less, SkipList.Valid;
    D.ColumnsShowRecords(db.dt.cols, db.dt.byKey, c, k, n);
    C.GroupsShowPlaces(db.compound.groups, db.compound.byPk, g, k, order);
    I.OwnsDoc(db.index.docs, db.index.kind, db.index.sparse, v, k);
    if k in db.index.docs { I.KeysAre(db.index.kind, db.index.sparse, db.index.docs[k], v); }
  }

  /** After any such history the columns, the lists of every group, and the equality and range indexes
      are those of any other database with the same documents: in particular of one rebuilt from them. */
  lemma SameAsRebuilt(a: Database, b: Database, g: C.Group)
    requires a.Valid() && b.Valid() && a.index.kind == b.index.kind && a.index.sparse == b.index.sparse
    requires Database.Docs(a.records) == Database.Docs(b.records)
    ensures a.dt.cols == b.dt.cols && a.dt.byKey == b.dt.byKey
    ensures C.ListOf(a.compound.groups, g) == C.ListOf(b.compound.groups, g)
    ensures a.index.byPk == b.index.byPk
    ensures a.index.kind == I.Equality ==> a.index.values == b.index.values
    ensures a.index.kind == I.Range ==> a.index.list.Entries() == b.index.list.Entries()
  {
    ViewsOfDocs(a.records, b.records);
    hide DtView, PlaceView, FieldView, Database.Docs;
    D.ColsAreUnique(a.dt.cols, b.dt.cols, a.dt.byKey);
    C.SameLists(a.compound.groups, b.compound.groups, a.compound.byPk, g);
    I.SameAsRebuilt(a.index, b.index);
  }

  lemma ViewsOfDocs(a: Records, b: Records)
    requires Database.Docs(a) == Database.Docs(b)
    ensures DtView(a) == DtView(b) && PlaceView(a) == PlaceView(b) && FieldView(a) == FieldView(b)
  {
    hide ColumnsOf;
    forall k ensures (k in a <==> k in b) && (k in a ==> a[k].doc == b[k].doc) {
      assert (k in a <==> k in Database.Docs(a)) && (k in b <==> k in Database.Docs(b));
      if k in a { assert Database.Docs(a)[k] == a[k].doc && Database.Docs(b)[k] == b[k].doc; }
    }
  }
}
