/** Secondary indexes (index-manager.ts): one equality or range index over one field, kept up to date
    write by write, and the uniqueness checks before a write. */
module Indexes {
  import S = Sorted
  import opened SkipLists

  type Pk = string

  /** A field value as an index tells values apart: `Json` is any other value in canonical form. */
  datatype Value = Undef | Null | Bool(b: bool) | Num(n: real) | Str(s: string) | Json(text: string)

  /** What a document has in the field. */
  datatype Field = Missing | One(v: Value) | Many(vs: seq<Value>)

  /** Values that are not objects are never added to an index; they have no fields. */
  datatype Doc = Object(field: Field) | Plain

  function FieldOf(doc: Doc): Field { if doc.Object? then doc.field else Missing }

  datatype Kind = Equality | Range

  // ---- What is indexed -------------------------------------------------------------------------

  function Flatten(field: Field): seq<Value> {
    match field case Missing => [Undef] case One(v) => [v] case Many(vs) => vs
  }

  /** Distinct numbers, in order of first occurrence. */
  function Numbers(vs: seq<Value>): seq<Value> {
    if vs == [] then []
    else
      var init := Numbers(vs[..|vs| - 1]);
      var last := vs[|vs| - 1];
      if last.Num? && last !in init then init + [last] else init
  }

  lemma {:induction false} NumbersAre(vs: seq<Value>)
    ensures forall v :: v in Numbers(vs) <==> v in vs && v.Num?
    ensures forall i, j :: 0 <= i < j < |Numbers(vs)| ==> Numbers(vs)[i] != Numbers(vs)[j]
  {
    if vs != [] {
      NumbersAre(vs[..|vs| - 1]);
      assert vs == vs[..|vs| - 1] + [vs[|vs| - 1]];
    }
  }

  /** The keys under which a document is indexed; None when it is not. */
  function KeysOf(kind: Kind, sparse: bool, field: Field): (ks: seq<Value>) {
    if field.Missing? && sparse then []
    else if kind == Range then Numbers(Flatten(field))
    else Flatten(field)
  }

  predicate IsIndexed(kind: Kind, sparse: bool, field: Field) {
    !(field.Missing? && sparse) && (kind == Range ==> Numbers(Flatten(field)) != [])
  }

  /** The keys, told by the field: its value, or every element of a list; in a range index only numbers;
      of a missing field the undefined value, unless the index is sparse. */
  predicate HasKey(kind: Kind, sparse: bool, field: Field, v: Value) {
    && (kind == Range ==> v.Num?)
    && match field
       case Missing => !sparse && v == Undef
       case One(w) => v == w
       case Many(vs) => v in vs
  }

  lemma KeysAre(kind: Kind, sparse: bool, field: Field, v: Value)
    ensures v in KeysOf(kind, sparse, field) <==> HasKey(kind, sparse, field, v)
    ensures v in KeysOf(kind, sparse, field) ==> IsIndexed(kind, sparse, field)
  {
    NumbersAre(Flatten(field));
  }

  /** byPk: every indexed document under its keys. */
  function ByPk(kind: Kind, sparse: bool, docs: map<Pk, Field>): map<Pk, seq<Value>> {
    map pk | pk in docs && IsIndexed(kind, sparse, docs[pk]) :: KeysOf(kind, sparse, docs[pk])
  }

  /** Who has which keys. */
  type Owners = map<Pk, set<Value>>

  function OwnersOf(byPk: map<Pk, seq<Value>>): Owners { map pk | pk in byPk :: set v | v in byPk[pk] }

  predicate Owns(o: Owners, v: Value, pk: Pk) { pk in o && v in o[pk] }

  /** The equality map: for each key that somebody has, everybody who has it. */
  ghost predicate MapOk(m: map<Value, set<Pk>>, o: Owners) {
    && (forall v :: v in m ==> m[v] != {})
    && forall v, pk :: MapAt(m, o, v, pk)
  }

  ghost predicate MapAt(m: map<Value, set<Pk>>, o: Owners, v: Value, pk: Pk) {
    (v in m && pk in m[v]) <==> Owns(o, v, pk)
  }

  function RangeEntry(v: Value, pk: Pk): S.Entry
    requires v.Num?
  {
    S.Entry(S.Num(v.n), pk)
  }

  /** The ordered list: each pair of a key and its owner once, in order. */
  ghost predicate ListOk(es: seq<S.Entry>, o: Owners) { S.IsSorted(es) && forall e :: ListAt(es, o, e) }

  ghost predicate ListAt(es: seq<S.Entry>, o: Owners, e: S.Entry) {
    multiset(es)[e] == if e.key.Num? && Owns(o, Num(e.key.n), e.val) then 1 else 0
  }

  /** One state for one set of documents: in particular the one a rebuild makes. */
  lemma MapIsUnique(m: map<Value, set<Pk>>, m': map<Value, set<Pk>>, o: Owners)
    requires MapOk(m, o) && MapOk(m', o)
    ensures m == m'
  {
    forall v | v in m ensures v in m' && m'[v] == m[v] {
      forall pk ensures pk in m[v] <==> v in m' && pk in m'[v] { assert MapAt(m, o, v, pk) && MapAt(m', o, v, pk); }
      var pk :| pk in m[v];
    }
    forall v | v in m' ensures v in m {
      var pk :| pk in m'[v];
      assert MapAt(m, o, v, pk) && MapAt(m', o, v, pk);
    }
  }

  lemma ListIsUnique(es: seq<S.Entry>, es': seq<S.Entry>, o: Owners)
    requires ListOk(es, o) && ListOk(es', o)
    ensures es == es'
  {
    forall e ensures multiset(es)[e] == multiset(es')[e] { assert ListAt(es, o, e) && ListAt(es', o, e); }
    S.SortedIsUnique(es, es');
  }

  // ---- One key more or less ----------------------------------------------------------------------

  function KeysAt(o: Owners, pk: Pk): set<Value> { if pk in o then o[pk] else {} }

  lemma MapGains(m: map<Value, set<Pk>>, o: Owners, v: Value, pk: Pk)
    requires MapOk(m, o)
    ensures MapOk(m[v := (if v in m then m[v] else {}) + {pk}], o[pk := KeysAt(o, pk) + {v}])
  {
    var m', o' := m[v := (if v in m then m[v] else {}) + {pk}], o[pk := KeysAt(o, pk) + {v}];
    forall x, p ensures MapAt(m', o', x, p) { assert MapAt(m, o, x, p); }
  }

  lemma MapLoses(m: map<Value, set<Pk>>, o: Owners, v: Value, pk: Pk)
    requires MapOk(m, o) && pk in o
    ensures var o' := o[pk := o[pk] - {v}];
            if v !in m then MapOk(m, o')
              else MapOk(if m[v] == {pk} || m[v] == {} then m - {v} else m[v := m[v] - {pk}], o')
  {
    var o' := o[pk := o[pk] - {v}];
    var m' := if v !in m then m else if m[v] == {pk} || m[v] == {} then m - {v} else m[v := m[v] - {pk}];
    forall x, p ensures MapAt(m', o', x, p) { assert MapAt(m, o, x, p); }
    if v in m && m[v] - {pk} == {} { assert m[v] <= {pk}; }
  }

  lemma ListGains(es: seq<S.Entry>, o: Owners, v: Value, pk: Pk)
    requires ListOk(es, o) && v.Num? && !Owns(o, v, pk)
    ensures ListOk(S.Inserted(es, RangeEntry(v, pk)), o[pk := KeysAt(o, pk) + {v}])
  {
    hide S.IsSorted, S.Inserted;
    S.InsertedIsSorted(es, RangeEntry(v, pk));
    var es', o' := S.Inserted(es, RangeEntry(v, pk)), o[pk := KeysAt(o, pk) + {v}];
    forall e ensures ListAt(es', o', e) { assert ListAt(es, o, e); }
  }

  lemma ListLoses(es: seq<S.Entry>, o: Owners, v: Value, pk: Pk)
    requires ListOk(es, o) && v.Num? && pk in o && v in o[pk]
    ensures ListOk(S.Removed(es, RangeEntry(v, pk)), o[pk := o[pk] - {v}])
  {
    hide S.IsSorted, S.Removed;
    S.RemovedIsSorted(es, RangeEntry(v, pk));
    assert ListAt(es, o, RangeEntry(v, pk));
    var es', o' := S.Removed(es, RangeEntry(v, pk)), o[pk := o[pk] - {v}];
    forall e ensures ListAt(es', o', e) { assert ListAt(es, o, e); }
  }

  /** A key with nothing is as good as no key. */
  lemma NoKeysNoMatter(m: map<Value, set<Pk>>, es: seq<S.Entry>, o: Owners, pk: Pk)
    requires KeysAt(o, pk) == {}
    ensures MapOk(m, o) ==> MapOk(m, o - {pk}) && MapOk(m, o[pk := {}])
    ensures ListOk(es, o) ==> ListOk(es, o - {pk}) && ListOk(es, o[pk := {}])
  {
    hide S.IsSorted;
    var o1, o2 := o - {pk}, o[pk := {}];
    forall x, p ensures MapAt(m, o, x, p) == MapAt(m, o1, x, p) {}
    forall x, p ensures MapAt(m, o, x, p) == MapAt(m, o2, x, p) {}
    forall e ensures ListAt(es, o, e) == ListAt(es, o1, e) {}
    forall e ensures ListAt(es, o, e) == ListAt(es, o2, e) {}
  }

  /** The first `i` keys of a document. */
  function FirstKeys(ks: seq<Value>, i: nat): set<Value> {
    if i == 0 || i > |ks| then {} else FirstKeys(ks, i - 1) + {ks[i - 1]}
  }

  lemma {:induction false} FirstKeysAre(ks: seq<Value>, i: nat)
    requires i <= |ks|
    ensures forall v :: v in FirstKeys(ks, i) <==> exists j :: 0 <= j < i && ks[j] == v
  {
    if i > 0 { FirstKeysAre(ks, i - 1); }
  }

  lemma AllKeys(ks: seq<Value>)
    ensures FirstKeys(ks, |ks|) == set v | v in ks
  {
    FirstKeysAre(ks, |ks|);
  }

  lemma OneMoreKey(o: Owners, pk: Pk, ks: seq<Value>, i: nat)
    requires i < |ks|
    ensures var o' := o[pk := FirstKeys(ks, i)];
            && o'[pk := KeysAt(o', pk) + {ks[i]}] == o[pk := FirstKeys(ks, i + 1)]
            && ((forall j :: 0 <= j < i ==> ks[j] != ks[i]) ==> !Owns(o', ks[i], pk))
  {
    FirstKeysAre(ks, i);
  }

  lemma AllLeft(o: Owners, pk: Pk, ks: seq<Value>)
    requires pk in o && o[pk] == set v | v in ks
    ensures o == o[pk := (set v | v in ks) - FirstKeys(ks, 0)]
  {
    assert (set v | v in ks) - FirstKeys(ks, 0) == o[pk];
  }

  lemma OneKeyLess(o: Owners, pk: Pk, ks: seq<Value>, i: nat)
    requires i < |ks|
    ensures var o' := o[pk := (set v | v in ks) - FirstKeys(ks, i)];
            && pk in o' && o'[pk := o'[pk] - {ks[i]}] == o[pk := (set v | v in ks) - FirstKeys(ks, i + 1)]
            && ((forall j :: 0 <= j < i ==> ks[j] != ks[i]) ==> ks[i] in o'[pk])
  {
    FirstKeysAre(ks, i);
    assert (set v | v in ks) - FirstKeys(ks, i) - {ks[i]} == (set v | v in ks) - FirstKeys(ks, i + 1);
  }

  lemma ByPkWith(kind: Kind, sparse: bool, docs: map<Pk, Field>, pk: Pk, field: Field)
    requires pk !in docs
    ensures pk !in ByPk(kind, sparse, docs)
    ensures ByPk(kind, sparse, docs[pk := field])
            == if IsIndexed(kind, sparse, field) then ByPk(kind, sparse, docs)[pk := KeysOf(kind, sparse, field)]
               else ByPk(kind, sparse, docs)
  {
    hide IsIndexed, KeysOf;
  }

  lemma ByPkWithout(kind: Kind, sparse: bool, docs: map<Pk, Field>, pk: Pk)
    ensures ByPk(kind, sparse, docs - {pk}) == ByPk(kind, sparse, docs) - {pk}
    ensures pk in ByPk(kind, sparse, docs) ==>
      pk in docs && ByPk(kind, sparse, docs)[pk] == KeysOf(kind, sparse, docs[pk])
    ensures pk !in ByPk(kind, sparse, docs) ==> ByPk(kind, sparse, docs) - {pk} == ByPk(kind, sparse, docs)
  {
    hide IsIndexed, KeysOf;
  }

  /** A range index lists each number of a document once. */
  lemma DistinctNumbers(kind: Kind, sparse: bool, field: Field)
    ensures kind == Range ==> forall i :: 0 <= i < |KeysOf(kind, sparse, field)| ==> KeysOf(kind, sparse, field)[i].Num?
    ensures kind == Range ==> forall i, j :: 0 <= i < j < |KeysOf(kind, sparse, field)| ==>
      KeysOf(kind, sparse, field)[i] != KeysOf(kind, sparse, field)[j]
  {
    NumbersAre(Flatten(field));
  }

  /** The documents of a stream that can be indexed. */
  function DocsOf(entries: seq<(Pk, Doc)>): map<Pk, Field> {
    if entries == [] then map[]
    else
      var init, last := DocsOf(entries[..|entries| - 1]), entries[|entries| - 1];
      if last.1.Object? then init[last.0 := last.1.field] else init
  }

  lemma {:induction false} NotInDocs(entries: seq<(Pk, Doc)>, pk: Pk)
    requires forall i :: 0 <= i < |entries| ==> entries[i].0 != pk
    ensures pk !in DocsOf(entries)
  {
    if entries != [] { NotInDocs(entries[..|entries| - 1], pk); }
  }

  lemma OneMoreDoc(entries: seq<(Pk, Doc)>, i: nat)
    requires i < |entries| && forall i, j :: 0 <= i < j < |entries| ==> entries[i].0 != entries[j].0
    ensures entries[i].0 !in DocsOf(entries[..i])
    ensures DocsOf(entries[..i + 1])
            == if entries[i].1.Object? then DocsOf(entries[..i])[entries[i].0 := entries[i].1.field]
              else DocsOf(entries[..i])
  {
    assert entries[..i + 1][..i] == entries[..i];
    NotInDocs(entries[..i], entries[i].0);
  }

  /** The entries at one number are its owners'. */
  lemma HitsOwn(es: seq<S.Entry>, o: Owners, v: Value)
    requires ListOk(es, o) && v.Num?
    ensures var hits := S.RangeOf(es, S.Query(S.Inclusive(S.Num(v.n)), S.Inclusive(S.Num(v.n)), 0, S.All, false));
            forall pk :: (exists e :: e in hits && e.val == pk) <==> Owns(o, v, pk)
  {
    hide S.IsSorted;
    var at := S.Inclusive(S.Num(v.n));
    var hits := S.Filter(es, at, at);
    assert S.RangeOf(es, S.Query(at, at, 0, S.All, false)) == hits;
    forall pk ensures (exists e :: e in hits && e.val == pk) <==> Owns(o, v, pk) {
      assert ListAt(es, o, RangeEntry(v, pk));
      FilterHas(es, v, RangeEntry(v, pk));
      if e :| e in hits && e.val == pk { FilterHas(es, v, e); }
    }
  }

  lemma {:induction false} FilterHas(es: seq<S.Entry>, v: Value, e: S.Entry)
    requires v.Num?
    ensures e in S.Filter(es, S.Inclusive(S.Num(v.n)), S.Inclusive(S.Num(v.n))) <==> e in es && e.key == S.Num(v.n)
  {
    if es != [] {
      FilterHas(es[1..], v, e);
      assert es == [es[0]] + es[1..];
      S.KeyLessTotal(es[0].key, S.Num(v.n));
    }
  }

  /** The list has a number with a document exactly when the document has it in the field. */
  lemma ListShowsKey(es: seq<S.Entry>, docs: map<Pk, Field>, sparse: bool, n: real, pk: Pk)
    requires ListOk(es, OwnersOf(ByPk(Range, sparse, docs)))
    ensures multiset(es)[S.Entry(S.Num(n), pk)] ==
      if pk in docs && HasKey(Range, sparse, docs[pk], Num(n)) then 1 else 0
  {
    hide S.IsSorted, KeysOf, IsIndexed, HasKey;
    assert ListAt(es, OwnersOf(ByPk(Range, sparse, docs)), S.Entry(S.Num(n), pk));
    if pk in docs { KeysAre(Range, sparse, docs[pk], Num(n)); }
  }

  // ---- Uniqueness, on the values -------------------------------------------------------------------

  datatype Op = Put(doc: Doc) | Del

  /** No key belongs to two documents. */
  ghost predicate Unique(o: Owners) { forall v, p, q :: Owns(o, v, p) && Owns(o, v, q) ==> p == q }

  function LastOps(ops: seq<(Pk, Op)>): map<Pk, Op> {
    if ops == [] then map[] else LastOps(ops[..|ops| - 1])[ops[|ops| - 1].0 := ops[|ops| - 1].1]
  }

  /** The keys a document of the batch would have: none if it is deleted. */
  function NewKeys(last: map<Pk, Op>, pk: Pk, kind: Kind, sparse: bool): set<Value>
    requires pk in last
  {
    if last[pk].Put? then set v | v in KeysOf(kind, sparse, FieldOf(last[pk].doc)) else {}
  }

  /** Who would have which keys after the batch. */
  function AfterOwners(o: Owners, last: map<Pk, Op>, kind: Kind, sparse: bool): Owners {
    map p | p in o.Keys + last.Keys :: if p in last then NewKeys(last, p, kind, sparse) else o[p]
  }

  lemma SharedWithOther(o: Owners, last: map<Pk, Op>, kind: Kind, sparse: bool, pk: Pk, q: Pk, v: Value)
    requires pk in last && v in NewKeys(last, pk, kind, sparse) && q !in last && Owns(o, v, q)
    ensures !Unique(AfterOwners(o, last, kind, sparse))
  {
    hide KeysOf;
    var o' := AfterOwners(o, last, kind, sparse);
    assert Owns(o', v, pk) && Owns(o', v, q);
  }

  lemma OneWriteIsUnique(o: Owners, pk: Pk, field: Field, kind: Kind, sparse: bool)
    requires Unique(o) && forall v, q :: v in KeysOf(kind, sparse, field) && Owns(o, v, q) ==> q == pk
    ensures Unique(AfterOwners(o, map[pk := Put(Object(field))], kind, sparse))
  {
    var last := map[pk := Put(Object(field))];
    var o' := AfterOwners(o, last, kind, sparse);
    assert NewKeys(last, pk, kind, sparse) == set v | v in KeysOf(kind, sparse, field);
    hide KeysOf;
    forall v, p, q | Owns(o', v, p) && Owns(o', v, q) ensures p == q {
      assert p != pk ==> Owns(o, v, p);
      assert q != pk ==> Owns(o, v, q);
    }
  }

  /** The documents in `done` have claimed their keys, and share them with nobody outside the batch. */
  ghost predicate ClaimsOk(o: Owners, last: map<Pk, Op>, kind: Kind, sparse: bool, done: set<Pk>, claimed: map<Value,
      Pk>) {
    && (forall p, v :: p in done && p in last && v in NewKeys(last, p, kind, sparse) ==>
      v in claimed && claimed[v] == p)
    && (forall v :: v in claimed ==>
      claimed[v] in done && claimed[v] in last && v in NewKeys(last, claimed[v], kind, sparse))
    && (forall v, q :: v in claimed && Owns(o, v, q) ==> q in last)
  }

  /** ... and `pk` has claimed some of its keys. */
  ghost predicate Claims(o: Owners, last: map<Pk, Op>, kind: Kind, sparse: bool, done: set<Pk>, claimed: map<Value, Pk>,
                         pk: Pk, some: set<Value>)
    requires pk in last
  {
    && some <= NewKeys(last, pk, kind, sparse)
    && (forall v :: v in some ==> v in claimed && claimed[v] == pk)
    && (forall p, v :: p in done && p in last && v in NewKeys(last, p, kind, sparse) ==>
      v in claimed && claimed[v] == p)
    && (forall v :: v in claimed ==>
          if claimed[v] == pk then v in some
          else claimed[v] in done && claimed[v] in last && v in NewKeys(last, claimed[v], kind, sparse))
    && (forall v, q :: v in claimed && Owns(o, v, q) ==> q in last)
  }

  lemma NothingClaimedYet(o: Owners, last: map<Pk, Op>, kind: Kind, sparse: bool, done: set<Pk>, claimed: map<Value,
      Pk>,
                          pk: Pk, ks: seq<Value>)
    requires pk in last && pk !in done && ClaimsOk(o, last, kind, sparse, done, claimed)
    requires last[pk].Put? && ks == KeysOf(kind, sparse, FieldOf(last[pk].doc))
    ensures Claims(o, last, kind, sparse, done, claimed, pk, FirstKeys(ks, 0))
  {
    hide KeysOf;
  }

  lemma KeyOf(ks: seq<Value>, i: nat)
    requires i < |ks|
    ensures FirstKeys(ks, i + 1) == FirstKeys(ks, i) + {ks[i]}
  {
  }

  lemma ClaimOne(o: Owners, last: map<Pk, Op>, kind: Kind, sparse: bool, done: set<Pk>, claimed: map<Value, Pk>,
                 pk: Pk, some: set<Value>, v: Value, holders: set<Pk>)
    requires pk in last && pk !in done && Claims(o, last, kind, sparse, done, claimed, pk, some)
    requires v in NewKeys(last, pk, kind, sparse) && (v in claimed ==> claimed[v] == pk)
    requires (forall q :: q in holders <==> Owns(o, v, q)) && holders - last.Keys - {pk} == {}
    ensures Claims(o, last, kind, sparse, done, claimed[v := pk], pk, some + {v})
  {
    hide NewKeys;
    forall q | Owns(o, v, q) ensures q in last { assert q in holders && q !in holders - last.Keys - {pk}; }
  }

  lemma SharedInBatch(o: Owners, last: map<Pk, Op>, kind: Kind, sparse: bool, done: set<Pk>, claimed: map<Value, Pk>,
                      pk: Pk, some: set<Value>, v: Value)
    requires pk in last && Claims(o, last, kind, sparse, done, claimed, pk, some)
    requires v in NewKeys(last, pk, kind, sparse) && v in claimed && claimed[v] != pk
    ensures !Unique(AfterOwners(o, last, kind, sparse))
  {
    hide NewKeys;
    var o' := AfterOwners(o, last, kind, sparse);
    assert Owns(o', v, pk) && Owns(o', v, claimed[v]);
  }

  lemma ClaimsGrow(o: Owners, last: map<Pk, Op>, kind: Kind, sparse: bool, done: set<Pk>, claimed: map<Value, Pk>,
      pk: Pk)
    requires pk in last
    requires if last[pk].Put? then Claims(o, last, kind, sparse, done, claimed, pk, NewKeys(last, pk, kind, sparse))
             else ClaimsOk(o, last, kind, sparse, done, claimed)
    ensures ClaimsOk(o, last, kind, sparse, done + {pk}, claimed)
  {
    hide KeysOf;
  }

  lemma ClaimsAreUnique(o: Owners, last: map<Pk, Op>, kind: Kind, sparse: bool, claimed: map<Value, Pk>)
    requires Unique(o) && ClaimsOk(o, last, kind, sparse, last.Keys, claimed)
    ensures Unique(AfterOwners(o, last, kind, sparse))
  {
    hide NewKeys;
    var o' := AfterOwners(o, last, kind, sparse);
    forall v, p, q | Owns(o', v, p) && Owns(o', v, q) ensures p == q {
      assert if p in last then v in NewKeys(last, p, kind, sparse) else Owns(o, v, p);
      assert if q in last then v in NewKeys(last, q, kind, sparse) else Owns(o, v, q);
      assert p in last ==> v in claimed && claimed[v] == p;
      assert q in last ==> v in claimed && claimed[v] == q;
      assert p !in last || q !in last ==> p !in last && q !in last;
    }
  }

  /** The documents in the index after the batch: values that are not objects are not indexed. */
  function AfterDocs(docs: map<Pk, Field>, last: map<Pk, Op>): map<Pk, Field> {
    map p | p in docs.Keys + last.Keys && (p in last ==> last[p].Put? && last[p].doc.Object?)
      :: if p in last then FieldOf(last[p].doc) else docs[p]
  }

  /** A batch writes a value that is not an object, and some other document has no field either: a
      non-sparse equality index has them clash although the first is never added to it. */
  ghost predicate PlainClash(o: Owners, last: map<Pk, Op>, kind: Kind, sparse: bool) {
    && kind == Equality && !sparse
    && exists p, q :: p != q && p in last && last[p] == Put(Plain) && Owns(AfterOwners(o, last, kind, sparse), Undef, q)
  }

  lemma OwnsAfter(docs: map<Pk, Field>, last: map<Pk, Op>, kind: Kind, sparse: bool, v: Value, p: Pk)
    ensures var o := OwnersOf(ByPk(kind, sparse, docs));
            Owns(OwnersOf(ByPk(kind, sparse, AfterDocs(docs, last))), v, p)
            <==> Owns(AfterOwners(o, last, kind, sparse), v, p) && !(p in last && last[p] == Put(Plain))
  {
    hide KeysOf, ByPk, OwnersOf;
    OwnsDoc(docs, kind, sparse, v, p);
    OwnsDoc(AfterDocs(docs, last), kind, sparse, v, p);
    assert p in OwnersOf(ByPk(kind, sparse, docs)) ==> p in docs by { OwnerIsDoc(docs, kind, sparse, p); }
  }

  lemma OwnerIsDoc(docs: map<Pk, Field>, kind: Kind, sparse: bool, p: Pk)
    ensures p in OwnersOf(ByPk(kind, sparse, docs)) ==> p in docs
  {
  }

  lemma OwnsDoc(docs: map<Pk, Field>, kind: Kind, sparse: bool, v: Value, p: Pk)
    ensures Owns(OwnersOf(ByPk(kind, sparse, docs)), v, p) <==> p in docs && v in KeysOf(kind, sparse, docs[p])
  {
    if p in docs { NoKeysUnlessIndexed(kind, sparse, docs[p]); }
    hide KeysOf, IsIndexed;
  }

  lemma NoKeysUnlessIndexed(kind: Kind, sparse: bool, field: Field)
    ensures !IsIndexed(kind, sparse, field) ==> KeysOf(kind, sparse, field) == []
  {
  }

  lemma PlainKeys(kind: Kind, sparse: bool)
    ensures KeysOf(kind, sparse, Missing) == if kind == Equality && !sparse then [Undef] else []
  {
    assert [Undef][..0] == [];
    assert Numbers([Undef]) == [];
  }

  /** What the batch check computes is unique exactly when the index after the batch is, unless a
      value that is not an object clashes. */
  lemma AcceptsExactlyWhen(docs: map<Pk, Field>, last: map<Pk, Op>, kind: Kind, sparse: bool)
    ensures var o := OwnersOf(ByPk(kind, sparse, docs));
            Unique(AfterOwners(o, last, kind, sparse))
            <==> Unique(OwnersOf(ByPk(kind, sparse, AfterDocs(docs, last)))) && !PlainClash(o, last, kind, sparse)
  {
    hide ByPk, OwnersOf, AfterDocs, KeysOf;
    var o := OwnersOf(ByPk(kind, sparse, docs));
    var asIf, kept := AfterOwners(o, last, kind, sparse), OwnersOf(ByPk(kind, sparse, AfterDocs(docs, last)));
    PlainKeys(kind, sparse);
    forall v, p ensures Owns(kept, v, p) <==> Owns(asIf, v, p) && !(p in last && last[p] == Put(Plain)) {
      OwnsAfter(docs, last, kind, sparse, v, p);
    }
    forall v, p | p in last && last[p] == Put(Plain) && Owns(asIf, v, p) ensures v == Undef && kind == Equality
      && !sparse {
      assert v in NewKeys(last, p, kind, sparse);
    }
    if PlainClash(o, last, kind, sparse) {
      var p, q :| p != q && p in last && last[p] == Put(Plain) && Owns(asIf, Undef, q);
      assert Undef in NewKeys(last, p, kind, sparse);
      assert Owns(asIf, Undef, p);
    } else if Unique(kept) {
      forall v, p, q | Owns(asIf, v, p) && Owns(asIf, v, q) ensures p == q {
        if Owns(kept, v, p) && Owns(kept, v, q) { assert p == q; }
      }
    } else {
      var v, p, q :| Owns(kept, v, p) && Owns(kept, v, q) && p != q;
      assert Owns(asIf, v, p) && Owns(asIf, v, q);
    }
  }

  /** One such batch: with a document that has no field in a non-sparse index, writing a value that is not an
      object is rejected, although no key would be shared afterwards. */
  lemma PlainIsRejected(p: Pk, q: Pk)
    requires p != q
    ensures var docs, last := map[q := Missing], map[p := Put(Plain)];
            var o := OwnersOf(ByPk(Equality, false, docs));
            && Unique(o) && Unique(OwnersOf(ByPk(Equality, false, AfterDocs(docs, last))))
            && !Unique(AfterOwners(o, last, Equality, false))
  {
    hide ByPk, OwnersOf, KeysOf;
    var docs, last := map[q := Missing], map[p := Put(Plain)];
    var o := OwnersOf(ByPk(Equality, false, docs));
    PlainKeys(Equality, false);
    OnlyOne(docs, q);
    OwnsDoc(docs, Equality, false, Undef, q);
    assert AfterDocs(docs, last) == docs;
    assert Undef in NewKeys(last, p, Equality, false);
    assert Owns(AfterOwners(o, last, Equality, false), Undef, p)
      && Owns(AfterOwners(o, last, Equality, false), Undef, q);
  }

  lemma OnlyOne(docs: map<Pk, Field>, q: Pk)
    requires docs.Keys == {q}
    ensures Unique(OwnersOf(ByPk(Equality, false, docs)))
  {
    hide ByPk, OwnersOf, KeysOf;
    forall v, a, b | Owns(OwnersOf(ByPk(Equality, false, docs)), v, a)
      && Owns(OwnersOf(ByPk(Equality, false, docs)), v, b)
      ensures a == b
    {
      OwnsDoc(docs, Equality, false, v, a);
      OwnsDoc(docs, Equality, false, v, b);
    }
  }

  // ---- A batch, op by op -------------------------------------------------------------------------

  /** Applying one op to the documents: a value that is not an object leaves none. */
  function Applied(docs: map<Pk, Field>, pk: Pk, op: Op): map<Pk, Field> {
    match op
    case Del => docs - {pk}
    case Put(Plain) => docs - {pk}
    case Put(Object(field)) => docs[pk := field]
  }

  function AppliedAll(docs: map<Pk, Field>, ops: seq<(Pk, Op)>): map<Pk, Field>
    decreases ops
  {
    if ops == [] then docs else AppliedAll(Applied(docs, ops[0].0, ops[0].1), ops[1..])
  }

  lemma {:induction false} AppliedOneMore(docs: map<Pk, Field>, ops: seq<(Pk, Op)>, pk: Pk, op: Op)
    ensures AppliedAll(docs, ops + [(pk, op)]) == Applied(AppliedAll(docs, ops), pk, op)
    decreases ops
  {
    if ops == [] {
      assert (ops + [(pk, op)])[1..] == [];
    } else {
      assert (ops + [(pk, op)])[1..] == ops[1..] + [(pk, op)];
      AppliedOneMore(Applied(docs, ops[0].0, ops[0].1), ops[1..], pk, op);
    }
  }

  /** What the check foresees from the last op of each document is what applying the batch op by op
      leaves. */
  lemma {:induction false} BatchLeaves(docs: map<Pk, Field>, ops: seq<(Pk, Op)>)
    ensures AfterDocs(docs, LastOps(ops)) == AppliedAll(docs, ops)
  {
    hide LastOps, AppliedAll, AfterDocs, Applied;
    if ops == [] {
      NoOps(docs);
    } else {
      var init, last := ops[..|ops| - 1], ops[|ops| - 1];
      assert init + [last] == ops;
      BatchLeaves(docs, init);
      AppliedOneMore(docs, init, last.0, last.1);
      LastOpsOneMore(ops);
      AfterOneMore(docs, LastOps(init), last.0, last.1);
    }
  }

  lemma NoOps(docs: map<Pk, Field>)
    ensures AfterDocs(docs, LastOps([])) == docs == AppliedAll(docs, [])
  {
  }

  lemma LastOpsOneMore(ops: seq<(Pk, Op)>)
    requires ops != []
    ensures LastOps(ops) == LastOps(ops[..|ops| - 1])[ops[|ops| - 1].0 := ops[|ops| - 1].1]
  {
  }

  lemma AfterOneMore(docs: map<Pk, Field>, last: map<Pk, Op>, pk: Pk, op: Op)
    ensures AfterDocs(docs, last[pk := op]) == Applied(AfterDocs(docs, last), pk, op)
  {
  }

  /** Two documents share a key. */
  ghost predicate Shared(docs: map<Pk, Field>, kind: Kind, sparse: bool) {
    exists v, p, q :: p in docs && q in docs && p != q && HasKey(kind, sparse, docs[p], v)
                      && HasKey(kind, sparse, docs[q], v)
  }

  lemma UniqueUnlessShared(docs: map<Pk, Field>, kind: Kind, sparse: bool)
    ensures Unique(OwnersOf(ByPk(kind, sparse, docs))) <==> !Shared(docs, kind, sparse)
  {
    hide ByPk, OwnersOf, KeysOf, HasKey, Owns;
    var o := OwnersOf(ByPk(kind, sparse, docs));
    forall v, p ensures Owns(o, v, p) <==> p in docs && HasKey(kind, sparse, docs[p], v) {
      OwnsDoc(docs, kind, sparse, v, p);
      if p in docs { KeysAre(kind, sparse, docs[p], v); }
    }
    if !Unique(o) {
      var v, p, q :| Owns(o, v, p) && Owns(o, v, q) && p != q;
      assert HasKey(kind, sparse, docs[p], v) && HasKey(kind, sparse, docs[q], v);
    }
    if Shared(docs, kind, sparse) {
      var v, p, q :| p in docs && q in docs && p != q && HasKey(kind, sparse, docs[p], v)
                     && HasKey(kind, sparse, docs[q], v);
      assert Owns(o, v, p) && Owns(o, v, q);
    }
  }

  /** So the batch check, told by the documents: it accepts exactly the batches after which, applied op by
      op, no two documents share a key, but for a value that is not an object. */
  lemma BatchCheckMeans(docs: map<Pk, Field>, ops: seq<(Pk, Op)>, kind: Kind, sparse: bool)
    ensures var o := OwnersOf(ByPk(kind, sparse, docs));
            Unique(AfterOwners(o, LastOps(ops), kind, sparse))
            <==> !Shared(AppliedAll(docs, ops), kind, sparse) && !PlainClash(o, LastOps(ops), kind, sparse)
  {
    hide ByPk, OwnersOf, KeysOf, HasKey, Unique, AfterOwners, AfterDocs, PlainClash, Shared;
    BatchLeaves(docs, ops);
    AcceptsExactlyWhen(docs, LastOps(ops), kind, sparse);
    UniqueUnlessShared(AppliedAll(docs, ops), kind, sparse);
  }

  // ---- Runs of checked batches -------------------------------------------------------------------

  /** Each batch passed the check and was applied. */
  ghost predicate CheckedRun(states: seq<map<Pk, Field>>, batches: seq<map<Pk, Op>>, kind: Kind, sparse: bool) {
    && |states| == |batches| + 1
    && forall i :: 0 <= i < |batches| ==>
         && states[i + 1] == AfterDocs(states[i], batches[i])
         && Unique(AfterOwners(OwnersOf(ByPk(kind, sparse, states[i])), batches[i], kind, sparse))
  }

  /** Uniqueness is kept over every run of checked writes. */
  lemma {:induction false} UniqueOverRuns(states: seq<map<Pk, Field>>, batches: seq<map<Pk, Op>>, kind: Kind,
      sparse: bool, i: nat)
    requires CheckedRun(states, batches, kind, sparse) && i <= |batches|
    requires Unique(OwnersOf(ByPk(kind, sparse, states[0])))
    ensures Unique(OwnersOf(ByPk(kind, sparse, states[i])))
  {
    hide Unique, ByPk, OwnersOf, AfterOwners, AfterDocs;
    if i > 0 {
      UniqueOverRuns(states, batches, kind, sparse, i - 1);
      assert states[i - 1 + 1] == AfterDocs(states[i - 1], batches[i - 1]);
      AcceptsExactlyWhen(states[i - 1], batches[i - 1], kind, sparse);
    }
  }

  // ---- An index --------------------------------------------------------------------------------

  class Index {
    const kind: Kind
    const unique: bool
    const sparse: bool
    var values: map<Value, set<Pk>>
    var list: SkipList
    var byPk: map<Pk, seq<Value>>

    /** The documents it is an index of. */
    ghost var docs: map<Pk, Field>

    ghost predicate Valid()
      reads this, list, list.nodes
    {
      list.Valid() && byPk == ByPk(kind, sparse, docs) && Holds(OwnersOf(byPk))
    }

    /** The index holds exactly what its owners have. */
    ghost predicate Holds(o: Owners)
      reads `values, `list, list, list.nodes
      requires list.Valid()
    {
      if kind == Equality then MapOk(values, o) else ListOk(list.Entries(), o)
    }

    constructor (kind: Kind, unique: bool, sparse: bool)
      ensures Valid() && docs == map[] && fresh(list) && fresh(list.nodes)
      ensures this.kind == kind && this.unique == unique && this.sparse == sparse
    {
      this.kind, this.unique, this.sparse := kind, unique, sparse;
      values, byPk, docs := map[], map[], map[];
      list := new SkipList();
      new;
      Nothing();
    }

    lemma Nothing()
      requires list.Valid() && values == map[] && list.Entries() == [] && byPk == map[] && docs == map[]
      ensures Valid()
    {
      forall v, pk ensures MapAt(values, map[], v, pk) {}
      forall e ensures ListAt([], map[], e) {}
    }

    /** Put one key of a document in. */
    method Gain(v: Value, pk: Pk, ghost o: Owners)
      requires list.Valid() && Holds(o) && (kind == Range ==> v.Num? && !Owns(o, v, pk))
      modifies this`values, list, list.nodes
      ensures list.Valid() && Holds(o[pk := KeysAt(o, pk) + {v}])
      ensures forall n :: n in list.nodes ==> n in old(list.nodes) || fresh(n)
    {
      hide MapOk, ListOk, S.Inserted;
      if kind == Range {
        ListGains(list.Entries(), o, v, pk);
        list.Insert(S.Num(v.n), pk);
      } else {
        MapGains(values, o, v, pk);
        values := values[v := (if v in values then values[v] else {}) + {pk}];
      }
    }

    /** Take one key of a document out; a key that nobody has any more goes. */
    method Lose(v: Value, pk: Pk, ghost o: Owners)
      requires list.Valid() && Holds(o) && pk in o && (kind == Range ==> v.Num? && v in o[pk])
      modifies this`values, list, list.nodes
      ensures list.Valid() && Holds(o[pk := o[pk] - {v}])
      ensures forall n :: n in list.nodes ==> n in old(list.nodes)
    {
      hide MapOk, ListOk, S.Removed;
      if kind == Range {
        ListLoses(list.Entries(), o, v, pk);
        var _ := list.Delete(S.Num(v.n), pk);
      } else if v in values {
        MapLoses(values, o, v, pk);
        values := if values[v] == {pk} || values[v] == {} then values - {v} else values[v := values[v] - {pk}];
      } else {
        MapLoses(values, o, v, pk);
      }
    }

    // ---- Writes ------------------------------------------------------------------------------

    /** Index a document that is not indexed yet, under each of its keys. */
    method Add(pk: Pk, field: Field)
      requires Valid() && pk !in docs
      modifies this, list, list.nodes
      ensures Valid() && docs == old(docs)[pk := field] && list == old(list)
      ensures forall n :: n in list.nodes ==> n in old(list.nodes) || fresh(n)
    {
      hide Holds, ByPk, IsIndexed, KeysOf, SkipList.Valid;
      ByPkWith(kind, sparse, docs, pk, field);
      if IsIndexed(kind, sparse, field) {
        var ks := KeysOf(kind, sparse, field);
        DistinctNumbers(kind, sparse, field);
        GainAll(ks, pk, OwnersOf(byPk));
        assert OwnersOf(byPk[pk := ks]) == OwnersOf(byPk)[pk := set v | v in ks];
        byPk := byPk[pk := ks];
      }
      docs := docs[pk := field];
    }

    method GainAll(ks: seq<Value>, pk: Pk, ghost o: Owners)
      requires list.Valid() && Holds(o) && pk !in o
      requires kind == Range ==> (forall i :: 0 <= i < |ks| ==> ks[i].Num?) && forall i, j :: 0 <= i < j < |ks| ==>
        ks[i] != ks[j]
      modifies this`values, list, list.nodes
      ensures list.Valid() && Holds(o[pk := set v | v in ks])
      ensures forall n :: n in list.nodes ==> n in old(list.nodes) || fresh(n)
    {
      hide Holds, FirstKeys, SkipList.Valid;
      StartsEmpty(o, pk, ks);
      for i := 0 to |ks|
        invariant list.Valid() && Holds(o[pk := FirstKeys(ks, i)])
        invariant forall n :: n in list.nodes ==> n in old(list.nodes) || fresh(n)
      {
        OneMoreKey(o, pk, ks, i);
        assert forall p :: 0 <= p < |list.nodes| ==> list.nodes[p] in old(list.nodes) || fresh(list.nodes[p]);
        Gain(ks[i], pk, o[pk := FirstKeys(ks, i)]);
      }
      AllKeys(ks);
    }

    lemma StartsEmpty(o: Owners, pk: Pk, ks: seq<Value>)
      requires list.Valid() && Holds(o) && pk !in o
      ensures Holds(o[pk := FirstKeys(ks, 0)])
    {
      NoKeysNoMatter(values, list.Entries(), o, pk);
    }

    /** Drop a document from under every key it was indexed with. */
    method Remove(pk: Pk)
      requires Valid()
      modifies this, list, list.nodes
      ensures Valid() && docs == old(docs) - {pk} && list == old(list)
      ensures forall n :: n in list.nodes ==> n in old(list.nodes)
    {
      hide Holds, ByPk, IsIndexed, KeysOf, SkipList.Valid;
      ByPkWithout(kind, sparse, docs, pk);
      if pk in byPk {
        DistinctNumbers(kind, sparse, docs[pk]);
        LoseAll(byPk[pk], pk, OwnersOf(byPk));
        assert OwnersOf(byPk - {pk}) == OwnersOf(byPk) - {pk};
        byPk := byPk - {pk};
      }
      docs := docs - {pk};
    }

    method LoseAll(ks: seq<Value>, pk: Pk, ghost o: Owners)
      requires list.Valid() && Holds(o) && pk in o && o[pk] == set v | v in ks
      requires kind == Range ==> (forall i :: 0 <= i < |ks| ==> ks[i].Num?) && forall i, j :: 0 <= i < j < |ks| ==>
        ks[i] != ks[j]
      modifies this`values, list, list.nodes
      ensures list.Valid() && Holds(o - {pk})
      ensures forall n :: n in list.nodes ==> n in old(list.nodes)
    {
      hide Holds, FirstKeys, SkipList.Valid;
      AllLeft(o, pk, ks);
      for i := 0 to |ks|
        invariant list.Valid() && Holds(o[pk := (set v | v in ks) - FirstKeys(ks, i)])
        invariant forall n :: n in list.nodes ==> n in old(list.nodes)
      {
        OneKeyLess(o, pk, ks, i);
        assert forall p :: 0 <= p < |list.nodes| ==> list.nodes[p] in old(list.nodes);
        Lose(ks[i], pk, o[pk := (set v | v in ks) - FirstKeys(ks, i)]);
      }
      EndsEmpty(o, pk, ks);
    }

    lemma EndsEmpty(o: Owners, pk: Pk, ks: seq<Value>)
      requires list.Valid() && Holds(o[pk := (set v | v in ks) - FirstKeys(ks, |ks|)])
      ensures Holds(o - {pk})
    {
      hide MapOk, ListOk;
      AllKeys(ks);
      var o' := o[pk := (set v | v in ks) - FirstKeys(ks, |ks|)];
      assert o'[pk] == {};
      NoKeysNoMatter(values, list.Entries(), o', pk);
      assert o' - {pk} == o - {pk};
    }

    /** Start over from a stream of documents. What results depends on the documents alone. */
    method Rebuild(entries: seq<(Pk, Doc)>)
      requires forall i, j :: 0 <= i < j < |entries| ==> entries[i].0 != entries[j].0
      modifies this
      ensures Valid() && docs == DocsOf(entries)
      ensures fresh(list) && fresh(list.nodes)
    {
      hide SkipList.Valid, Holds, ByPk;
      values, byPk, docs := map[], map[], map[];
      list := new SkipList();
      Nothing();
      assert entries[..0] == [];
      for i := 0 to |entries|
        invariant Valid() && docs == DocsOf(entries[..i]) && fresh(list)
        invariant forall p :: 0 <= p < |list.nodes| ==> fresh(list.nodes[p])
      {
        OneMoreDoc(entries, i);
        ghost var nodes := list.nodes;
        if entries[i].1.Object? { Add(entries[i].0, entries[i].1.field); }
        assert forall p :: 0 <= p < |list.nodes| ==> list.nodes[p] in nodes || fresh(list.nodes[p]);
      }
      assert entries[..|entries|] == entries;
    }

    // ---- Lookups -----------------------------------------------------------------------------

    /** Everybody who has a key. */
    method Holders(v: Value) returns (pks: set<Pk>)
      requires Valid() && (kind == Range ==> v.Num?)
      ensures forall pk :: pk in pks <==> Owns(OwnersOf(byPk), v, pk)
    {
      hide SkipList.Valid, ByPk;
      ghost var o := OwnersOf(byPk);
      if kind == Equality {
        pks := if v in values then values[v] else {};
        forall pk ensures pk in pks <==> Owns(o, v, pk) { assert MapAt(values, o, v, pk); }
      } else {
        var hits := list.Range(S.Query(S.Inclusive(S.Num(v.n)), S.Inclusive(S.Num(v.n)), 0, S.All, false));
        HitsOwn(list.Entries(), o, v);
        pks := set e | e in hits :: e.val;
      }
    }

    /** findEq. */
    method FindEq(v: Value) returns (pks: set<Pk>)
      requires Valid() && kind == Equality
      ensures pks == set pk | pk in docs && HasKey(Equality, sparse, docs[pk], v)
    {
      hide SkipList.Valid, Holds, KeysOf, IsIndexed, HasKey;
      pks := Holders(v);
      forall pk | pk in docs
        ensures v in KeysOf(kind, sparse, docs[pk]) && IsIndexed(kind, sparse, docs[pk])
                <==> HasKey(Equality, sparse, docs[pk], v)
      {
        KeysAre(kind, sparse, docs[pk], v);
      }
    }

    method HasEq(v: Value, pk: Pk) returns (r: bool)
      requires Valid() && kind == Equality
      ensures r <==> pk in docs && HasKey(Equality, sparse, docs[pk], v)
    {
      hide SkipList.Valid, KeysOf, IsIndexed, HasKey;
      if pk in docs { KeysAre(kind, sparse, docs[pk], v); }
      r := v in values && pk in values[v];
      assert MapAt(values, OwnersOf(byPk), v, pk);
    }

    /** findRange: the pairs of a number and its owner within the bounds, in order. */
    method FindRange(q: S.Query) returns (hits: seq<S.Entry>)
      requires Valid() && kind == Range
      ensures hits == S.RangeOf(list.Entries(), q) && S.IsSorted(list.Entries())
      ensures forall n, pk :: multiset(list.Entries())[S.Entry(S.Num(n), pk)]
                              == if pk in docs && HasKey(Range, sparse, docs[pk], Num(n)) then 1 else 0
    {
      hide SkipList.Valid, KeysOf, IsIndexed, HasKey, S.RangeOf, S.IsSorted;
      hits := list.Range(q);
      forall n, pk ensures multiset(list.Entries())[S.Entry(S.Num(n), pk)]
                           == if pk in docs && HasKey(Range, sparse, docs[pk], Num(n)) then 1 else 0
      {
        ListShowsKey(list.Entries(), docs, sparse, n, pk);
      }
    }

    // ---- Uniqueness --------------------------------------------------------------------------

    /** Before one write: no other document has a key of the new one. */
    method CheckUnique(pk: Pk, field: Field) returns (ok: bool)
      requires Valid() && Unique(OwnersOf(byPk))
      ensures ok <==> Unique(AfterOwners(OwnersOf(byPk), map[pk := Put(Object(field))], kind, sparse))
    {
      hide SkipList.Valid, ByPk, Holds, KeysOf;
      ghost var o := OwnersOf(byPk);
      var ks := KeysOf(kind, sparse, field);
      DistinctNumbers(kind, sparse, field);
      for i := 0 to |ks|
        invariant forall j, q :: 0 <= j < i && Owns(o, ks[j], q) ==> q == pk
      {
        var holders := Holders(ks[i]);
        if holders - {pk} != {} {
          var q :| q in holders - {pk};
          SharedWithOther(o, map[pk := Put(Object(field))], kind, sparse, pk, q, ks[i]);
          return false;
        }
        assert forall q :: Owns(o, ks[i], q) ==> q in holders && q !in holders - {pk};
      }
      assert forall v :: v in ks ==> exists j :: 0 <= j < |ks| && ks[j] == v;
      OneWriteIsUnique(o, pk, field, kind, sparse);
      ok := true;
    }

    /** Before a batch: compute what each key would belong to after it, last op per document. */
    method CheckUniqueBatch(ops: seq<(Pk, Op)>) returns (ok: bool)
      requires Valid() && Unique(OwnersOf(byPk))
      ensures ok <==> Unique(AfterOwners(OwnersOf(byPk), LastOps(ops), kind, sparse))
    {
      hide SkipList.Valid, ByPk, Holds, KeysOf;
      ghost var o := OwnersOf(byPk);
      var last := CollectLast(ops);
      var claimed: map<Value, Pk> := map[];
      var todo := last.Keys;
      while todo != {}
        invariant todo <= last.Keys && ClaimsOk(o, last, kind, sparse, last.Keys - todo, claimed)
        decreases |todo|
      {
        var pk :| pk in todo;
        if last[pk].Put? {
          ok, claimed := Claim(pk, last, claimed, last.Keys - todo);
          if !ok { return; }
        }
        ClaimsGrow(o, last, kind, sparse, last.Keys - todo, claimed, pk);
        assert last.Keys - (todo - {pk}) == last.Keys - todo + {pk};
        todo := todo - {pk};
      }
      assert last.Keys - todo == last.Keys;
      ClaimsAreUnique(o, last, kind, sparse, claimed);
      ok := true;
    }

    /** The last op of each document wins. */
    static method CollectLast(ops: seq<(Pk, Op)>) returns (last: map<Pk, Op>)
      ensures last == LastOps(ops)
    {
      last := map[];
      assert ops[..0] == [];
      for i := 0 to |ops|
        invariant last == LastOps(ops[..i])
      {
        assert ops[..i + 1][..i] == ops[..i];
        last := last[ops[i].0 := ops[i].1];
      }
      assert ops[..|ops|] == ops;
    }

    /** Claim the keys of one document of the batch; fail if a document outside the batch has one, or
        another of the batch claimed it. */
    method Claim(pk: Pk, last: map<Pk, Op>, claimed: map<Value, Pk>, ghost done: set<Pk>)
      returns (ok: bool, claimed': map<Value, Pk>)
      requires Valid() && pk in last && last[pk].Put? && pk !in done && done <= last.Keys
      requires ClaimsOk(OwnersOf(byPk), last, kind, sparse, done, claimed)
      ensures !ok ==> !Unique(AfterOwners(OwnersOf(byPk), last, kind, sparse))
      ensures ok ==> Claims(OwnersOf(byPk), last, kind, sparse, done, claimed', pk, NewKeys(last, pk, kind, sparse))
    {
      hide SkipList.Valid, ByPk, Holds, KeysOf, FirstKeys, AfterOwners, Unique;
      ghost var o := OwnersOf(byPk);
      claimed' := claimed;
      var ks := KeysOf(kind, sparse, FieldOf(last[pk].doc));
      DistinctNumbers(kind, sparse, FieldOf(last[pk].doc));
      NothingClaimedYet(o, last, kind, sparse, done, claimed, pk, ks);
      for i := 0 to |ks|
        invariant Claims(o, last, kind, sparse, done, claimed', pk, FirstKeys(ks, i))
      {
        KeyOf(ks, i);
        var holders := Holders(ks[i]);
        if holders - last.Keys - {pk} != {} {
          var q :| q in holders - last.Keys - {pk};
          SharedWithOther(o, last, kind, sparse, pk, q, ks[i]);
          return false, claimed';
        }
        if ks[i] in claimed' && claimed'[ks[i]] != pk {
          SharedInBatch(o, last, kind, sparse, done, claimed', pk, FirstKeys(ks, i), ks[i]);
          return false, claimed';
        }
        ClaimOne(o, last, kind, sparse, done, claimed', pk, FirstKeys(ks, i), ks[i], holders);
        claimed' := claimed'[ks[i] := pk];
      }
      AllKeys(ks);
      ok := true;
    }
  }

  /** An index kept up to date write by write is the same as one built from its documents. */
  lemma SameAsRebuilt(a: Index, b: Index)
    requires a.Valid() && b.Valid() && a.kind == b.kind && a.sparse == b.sparse && a.docs == b.docs
    ensures a.byPk == b.byPk
    ensures a.kind == Equality ==> a.values == b.values
    ensures a.kind == Range ==> a.list.Entries() == b.list.Entries()
  {
    hide SkipList.Valid, ByPk;
    if a.kind == Equality {
      MapIsUnique(a.values, b.values, OwnersOf(a.byPk));
    } else {
      ListIsUnique(a.list.Entries(), b.list.Entries(), OwnersOf(a.byPk));
    }
  }
}
