/** Ordered datetime columns (dt-index.ts): for each column, the keys that have it in order of its value. */
module DtIndexes {
  import opened Bytes
  import opened Sorted

  type Key = string

  /** A column's value; one that is not a finite number is kept but not ordered. */
  datatype Stamp = Ms(n: real) | NotFinite

  type Dt = map<string, Stamp>

  /** A column: its entries in order, and each key's value. */
  datatype Column = Column(list: seq<Entry>, byKey: map<Key, real>)

  function At(n: real, k: Key): Entry { Entry(Num(n), k) }

  ghost predicate ColumnOk(c: Column) { IsSorted(c.list) && forall e :: EntryOk(c, e) }

  ghost predicate EntryOk(c: Column, e: Entry) {
    multiset(c.list)[e] == if e.key.Num? && e.val in c.byKey && c.byKey[e.val] == e.key.n then 1 else 0
  }

  /** The value of a key in a column, if it is ordered there. */
  function ValueOf(byKey: map<Key, Dt>, c: string, k: Key): Option<real> {
    if k in byKey && c in byKey[k] && byKey[k][c].Ms? then Some(byKey[k][c].n) else None
  }

  function Held(cols: map<string, Column>, c: string, k: Key): Option<real> {
    if c in cols && k in cols[c].byKey then Some(cols[c].byKey[k]) else None
  }

  /** The columns hold exactly the ordered values, and no column is empty. */
  ghost predicate ColsOk(cols: map<string, Column>, byKey: map<Key, Dt>) {
    && (forall c :: c in cols ==> ColumnOk(cols[c]) && cols[c].byKey != map[])
    && forall c, k :: HeldOk(cols, byKey, c, k)
  }

  ghost predicate HeldOk(cols: map<string, Column>, byKey: map<Key, Dt>, c: string, k: Key) {
    Held(cols, c, k) == ValueOf(byKey, c, k)
  }

  // ---- One key in one column -------------------------------------------------------------------

  function Without(c: Column, k: Key): Column {
    if k in c.byKey then Column(Removed(c.list, At(c.byKey[k], k)), c.byKey - {k}) else c
  }

  function With(c: Column, k: Key, n: real): Column { Column(Inserted(c.list, At(n, k)), c.byKey[k := n]) }

  lemma WithoutOk(c: Column, k: Key)
    requires ColumnOk(c)
    ensures ColumnOk(Without(c, k))
  {
    hide IsSorted, Removed;
    if k in c.byKey {
      var x := At(c.byKey[k], k);
      RemovedIsSorted(c.list, x);
      assert EntryOk(c, x);
      forall e ensures EntryOk(Without(c, k), e) { assert EntryOk(c, e); }
    }
  }

  lemma WithOk(c: Column, k: Key, n: real)
    requires ColumnOk(c) && k !in c.byKey
    ensures ColumnOk(With(c, k, n))
  {
    hide IsSorted, Inserted;
    InsertedIsSorted(c.list, At(n, k));
    forall e ensures EntryOk(With(c, k, n), e) { assert EntryOk(c, e); }
  }

  /** The key leaves a column; a column that nobody is in any more goes. */
  function Dropped(cols: map<string, Column>, c: string, k: Key): map<string, Column> {
    if c !in cols then cols
    else if Without(cols[c], k).byKey == map[] then cols - {c}
    else cols[c := Without(cols[c], k)]
  }

  function Placed(cols: map<string, Column>, c: string, k: Key, n: real): map<string, Column> {
    cols[c := With(if c in cols then cols[c] else Column([], map[]), k, n)]
  }

  lemma DroppedOk(cols: map<string, Column>, byKey: map<Key, Dt>, c: string, k: Key, dt: Dt)
    requires ColsOk(cols, byKey[k := dt])
    ensures ColsOk(Dropped(cols, c, k), byKey[k := dt - {c}])
  {
    hide ColumnOk;
    if c in cols { WithoutOk(cols[c], k); }
    var cols', byKey' := Dropped(cols, c, k), byKey[k := dt - {c}];
    forall c', k' ensures HeldOk(cols', byKey', c', k') {
      assert HeldOk(cols, byKey[k := dt], c', k');
      if c' == c && c in cols && k' != k {
        assert Held(cols', c, k')
        == Held(cols, c, k') by { assert k' in cols[c].byKey ==> k' in Without(cols[c], k).byKey; }
      }
    }
  }

  lemma PlacedOk(cols: map<string, Column>, byKey: map<Key, Dt>, c: string, k: Key, dt: Dt, n: real)
    requires ColsOk(cols, byKey[k := dt]) && (c in dt ==> !dt[c].Ms?)
    ensures ColsOk(Placed(cols, c, k, n), byKey[k := dt[c := Ms(n)]])
  {
    EmptyColumn();
    hide ColumnOk;
    assert HeldOk(cols, byKey[k := dt], c, k);
    WithOk(if c in cols then cols[c] else Column([], map[]), k, n);
    var cols', byKey' := Placed(cols, c, k, n), byKey[k := dt[c := Ms(n)]];
    forall c', k' ensures HeldOk(cols', byKey', c', k') { assert HeldOk(cols, byKey[k := dt], c', k'); }
  }

  lemma EmptyColumn()
    ensures ColumnOk(Column([], map[]))
  {
  }

  /** Only the ordered values matter. */
  lemma SameValues(cols: map<string, Column>, a: map<Key, Dt>, b: map<Key, Dt>)
    requires ColsOk(cols, a) && forall c, k :: ValueOf(a, c, k) == ValueOf(b, c, k)
    ensures ColsOk(cols, b)
  {
    hide ColumnOk, ValueOf;
    forall c, k ensures HeldOk(cols, b, c, k) { assert HeldOk(cols, a, c, k); }
  }

  /** A key stands in a column at a number exactly when its record has that number there. */
  lemma ColumnsShowRecords(cols: map<string, Column>, byKey: map<Key, Dt>, c: string, k: Key, n: real)
    requires ColsOk(cols, byKey)
    ensures c in cols && At(n, k) in cols[c].list <==> k in byKey && c in byKey[k] && byKey[k][c] == Ms(n)
    ensures c in cols ==> IsSorted(cols[c].list) && multiset(cols[c].list)[At(n, k)] <= 1
  {
    hide IsSorted;
    assert HeldOk(cols, byKey, c, k);
    if c in cols {
      assert ColumnOk(cols[c]) && EntryOk(cols[c], At(n, k));
      assert At(n, k) in cols[c].list <==> multiset(cols[c].list)[At(n, k)] > 0;
    }
  }

  /** There is one state for one set of records: the one a rebuild makes. */
  lemma ColsAreUnique(a: map<string, Column>, b: map<string, Column>, byKey: map<Key, Dt>)
    requires ColsOk(a, byKey) && ColsOk(b, byKey)
    ensures a == b
  {
    forall c ensures (c in a <==> c in b) && (c in a && c in b ==> a[c] == b[c]) {
      forall k ensures Held(a, c, k) == Held(b, c, k) { assert HeldOk(a, byKey, c, k) && HeldOk(b, byKey, c, k); }
      SameColumn(a, b, c);
    }
  }

  lemma SameColumn(a: map<string, Column>, b: map<string, Column>, c: string)
    requires forall k :: Held(a, c, k) == Held(b, c, k)
    requires c in a ==> ColumnOk(a[c]) && a[c].byKey != map[]
    requires c in b ==> ColumnOk(b[c]) && b[c].byKey != map[]
    ensures (c in a <==> c in b) && (c in a && c in b ==> a[c] == b[c])
  {
    hide IsSorted;
    if c in a {
      KeyOf(a[c].byKey);
      var k :| k in a[c].byKey;
      assert Held(a, c, k) == Held(b, c, k);
    }
    if c in b {
      KeyOf(b[c].byKey);
      var k :| k in b[c].byKey;
      assert Held(a, c, k) == Held(b, c, k);
    }
    if c in a && c in b {
      assert a[c].byKey == b[c].byKey by {
        forall k ensures (k in a[c].byKey <==> k in b[c].byKey)
          && (k in a[c].byKey && k in b[c].byKey ==> a[c].byKey[k] == b[c].byKey[k]) {
          assert Held(a, c, k) == Held(b, c, k);
        }
      }
      forall e ensures multiset(a[c].list)[e] == multiset(b[c].list)[e] { assert EntryOk(a[c], e) && EntryOk(b[c], e); }
      SortedIsUnique(a[c].list, b[c].list);
    }
  }

  lemma KeyOf(m: map<Key, real>)
    requires m != map[]
    ensures exists k :: k in m
  {
    assert m.Keys != {};
  }

  class DtIndex {
    var cols: map<string, Column>
    var byKey: map<Key, Dt>

    ghost predicate Valid()
      reads this
    {
      ColsOk(cols, byKey) && forall k :: k in byKey ==> byKey[k] != map[]
    }

    constructor ()
      ensures Valid() && byKey == map[]
    {
      cols, byKey := map[], map[];
      new;
      forall c, k ensures HeldOk(map[], map[], c, k) {}
    }

    /** Replace a key's columns. Columns whose value stays are left alone. */
    method Set(key: Key, dt: Option<Dt>)
      requires Valid()
      modifies this
      ensures Valid() && byKey == Recorded(old(byKey), key, if dt.None? then map[] else dt.value)
    {
      hide ColsOk, ValueOf;
      var had: Dt := if key in byKey then byKey[key] else map[];
      var next: Dt := if dt.None? then map[] else dt.value;
      Start(cols, byKey, key);
      LeaveOld(key, had, next);
      EnterNew(key, had, next);
      Finish(cols, byKey, key, Entered(had, next), next);
      byKey := if next != map[] then byKey[key := next] else byKey - {key};
    }

    /** Leave the columns that are gone or changed. */
    method LeaveOld(key: Key, had: Dt, next: Dt)
      requires ColsOk(cols, byKey[key := had])
      modifies `cols
      ensures ColsOk(cols, byKey[key := Kept(had, next)])
    {
      hide ColsOk;
      var todo := had.Keys;
      ghost var cur := had;
      while todo != {}
        invariant todo <= had.Keys && ColsOk(cols, byKey[key := cur])
        invariant cur == map c | c in had && (c in todo || (c in next && had[c] == next[c])) :: had[c]
        decreases |todo|
      {
        var c :| c in todo;
        if c !in next || had[c] != next[c] {
          DroppedOk(cols, byKey, c, key, cur);
          cols := Dropped(cols, c, key);
          cur := cur - {c};
        }
        todo := todo - {c};
      }
      assert cur == Kept(had, next);
    }

    /** Enter the columns that are new or changed. */
    method EnterNew(key: Key, had: Dt, next: Dt)
      requires ColsOk(cols, byKey[key := Kept(had, next)])
      modifies `cols
      ensures ColsOk(cols, byKey[key := Entered(had, next)])
    {
      hide ColsOk, SoFar, Placed;
      var todo := next.Keys;
      AllSoFar(had, next);
      while todo != {}
        invariant todo <= next.Keys && ColsOk(cols, byKey[key := SoFar(had, next, todo)])
        decreases |todo|
      {
        var c :| c in todo;
        OneMoreEntered(had, next, todo, c);
        if next[c].Ms? && !(c in had && had[c] == next[c]) {
          PlacedOk(cols, byKey, c, key, SoFar(had, next, todo), next[c].n);
          cols := Placed(cols, c, key, next[c].n);
        }
        todo := todo - {c};
      }
    }

    /** The columns a key is in while those of `todo` are not entered yet. */
    static function SoFar(had: Dt, next: Dt, todo: set<string>): Dt {
      map c | c in next && ((c in had && had[c] == next[c]) || (c !in todo && next[c].Ms?)) :: next[c]
    }

    static lemma AllSoFar(had: Dt, next: Dt)
      ensures SoFar(had, next, next.Keys) == Kept(had, next) && SoFar(had, next, {}) == Entered(had, next)
    {
    }

    static lemma OneMoreEntered(had: Dt, next: Dt, todo: set<string>, c: string)
      requires c in todo && c in next
      ensures SoFar(had, next, todo - {c}) == if next[c].Ms? && !(c in had && had[c] == next[c])
              then SoFar(had, next, todo)[c := Ms(next[c].n)] else SoFar(had, next, todo)
      ensures next[c].Ms? && !(c in had && had[c] == next[c]) ==> c !in SoFar(had, next, todo)
    {
    }

    /** The columns that stay, and all that are ordered in the end. */
    static function Kept(had: Dt, next: Dt): Dt { map c | c in had && c in next && had[c] == next[c] :: had[c] }

    static function Entered(had: Dt, next: Dt): Dt {
      map c | c in next && ((c in had && had[c] == next[c]) || next[c].Ms?) :: next[c]
    }

    static lemma Start(cols: map<string, Column>, byKey: map<Key, Dt>, key: Key)
      requires ColsOk(cols, byKey)
      ensures ColsOk(cols, byKey[key := if key in byKey then byKey[key] else map[]])
    {
      SameValues(cols, byKey, byKey[key := if key in byKey then byKey[key] else map[]]);
    }

    static lemma Finish(cols: map<string, Column>, byKey: map<Key, Dt>, key: Key, cur: Dt, next: Dt)
      requires ColsOk(cols, byKey[key := cur])
      requires forall c :: c in cur ==> c in next && cur[c] == next[c]
      requires forall c :: c in next && next[c].Ms? ==> c in cur
      ensures ColsOk(cols, Recorded(byKey, key, next))
    {
      SameValues(cols, byKey[key := cur], Recorded(byKey, key, next));
    }

    method Del(key: Key)
      requires Valid()
      modifies this
      ensures Valid() && byKey == old(byKey) - {key}
    {
      Set(key, None);
    }

    /** Start over from the records. */
    method Rebuild(entries: seq<(Key, Option<Dt>)>)
      requires forall i, j :: 0 <= i < j < |entries| ==> entries[i].0 != entries[j].0
      modifies this
      ensures Valid() && byKey == RecordsOf(entries)
    {
      hide ColsOk;
      cols, byKey := map[], map[];
      Nothing();
      assert entries[..0] == [];
      for i := 0 to |entries|
        invariant Valid() && byKey == RecordsOf(entries[..i])
      {
        assert entries[..i + 1][..i] == entries[..i];
        if entries[i].1.Some? { Set(entries[i].0, entries[i].1); }
      }
      assert entries[..|entries|] == entries;
    }

    static lemma Nothing()
      ensures ColsOk(map[], map[])
    {
      forall c, k ensures HeldOk(map[], map[], c, k) {}
    }

    /** A range over a column: the slice of its ordered entries. */
    method Range(c: string, q: Query) returns (hits: seq<Entry>)
      requires Valid()
      ensures hits == if c in cols then RangeOf(cols[c].list, q) else []
    {
      hits := if c in cols then RangeOf(cols[c].list, q) else [];
    }
  }

  /** A record without columns is not kept. */
  function Recorded(byKey: map<Key, Dt>, key: Key, dt: Dt): map<Key, Dt> {
    if dt == map[] then byKey - {key} else byKey[key := dt]
  }

  function RecordsOf(entries: seq<(Key, Option<Dt>)>): map<Key, Dt> {
    if entries == [] then map[]
    else
      var init, last := RecordsOf(entries[..|entries| - 1]), entries[|entries| - 1];
      if last.1.None? then init else Recorded(init, last.0, last.1.value)
  }
}
