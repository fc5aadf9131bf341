/** The full-text index (text-index.ts): base postings on disk or in memory, a write buffer,
    tombstones, a cache, and builds that run beside the writers. */
module TextIndexes {
  import opened Bytes
  import opened Postings

  type Key = bytes
  type Term = bytes

  /** A document, as the terms its tokenizer gives. */
  type Doc = seq<Term>

  /** docID to frequency. */
  type Posts = map<nat, nat>

  datatype BuildOp = AddOp(key: Key, doc: Doc) | RemoveOp(key: Key)

  function Get(m: map<Term, Posts>, t: Term): Posts { if t in m then m[t] else map[] }

  function Freq(doc: Doc, t: Term): nat { multiset(doc)[t] }

  /** The frequency of a term in the document that an id stands for; zero when it stands for none. */
  function FreqAt(keys: seq<Option<Key>>, docs: map<Key, Doc>, id: nat, t: Term): nat {
    if id < |keys| && keys[id].Some? && keys[id].value in docs then Freq(docs[keys[id].value], t) else 0
  }

  /** One id in one term's postings: `b` is the base, `d` the write buffer, and the ids below `bound`
      were handed out. */
  predicate PostOk(b: Posts, d: Posts, removed: set<nat>, freq: nat, id: nat, bound: nat) {
    && (freq > 0 <==> (id in b && id !in removed) || id in d)
    && (id in b && id !in removed ==> b[id] == freq)
    && (id in d ==> d[id] == freq && id !in removed)
    && (id in b || id in removed ==> id < bound)
  }

  /** Ids and keys name each other, one live id a key. */
  ghost predicate IdsOk(keys: seq<Option<Key>>, keyToId: map<Key, nat>, docLen: Posts, docs: map<Key, Doc>) {
    && keyToId.Keys == docs.Keys
    && (forall k :: k in keyToId ==> keyToId[k] < |keys| && keys[keyToId[k]] == Some(k))
    && (forall id :: 0 <= id < |keys| && keys[id].Some? ==> keys[id].value in keyToId && keyToId[keys[id].value] == id)
    && (forall id :: id in docLen <==> 0 <= id < |keys| && keys[id].Some?)
    && (forall k :: k in keyToId ==> docLen[keyToId[k]] == |docs[k]|)
  }

  ghost function PairsOf(m: map<Term, Posts>): set<(Term, nat)> { set t, id | t in m && id in m[t] :: (t, id) }

  function ToMap(list: seq<Posting>): Posts {
    if list == [] then map[] else ToMap(list[..|list| - 1])[list[|list| - 1].docId := list[|list| - 1].freq]
  }

  // ---- What a search should find -------------------------------------------------------------

  datatype Mode = And | Or

  /** The naive search: look at every document. No query terms, no hits. */
  predicate Matches(doc: Doc, terms: seq<Term>, mode: Mode) {
    && terms != []
    && match mode
       case And => forall t :: t in terms ==> t in doc
       case Or => exists t :: t in terms && t in doc
  }

  function NaiveHits(docs: map<Key, Doc>, terms: seq<Term>, mode: Mode): set<Key> {
    set k | k in docs && Matches(docs[k], terms, mode)
  }

  /** What the two modes find: with one term the documents that contain it, with more what `AND` has in
      common and `OR` has together. */
  lemma HitsMean(docs: map<Key, Doc>, t: Term, ts: seq<Term>, us: seq<Term>, mode: Mode)
    requires ts != [] && us != []
    ensures NaiveHits(docs, [t], mode) == set k | k in docs && t in docs[k]
    ensures NaiveHits(docs, ts + us, And) == NaiveHits(docs, ts, And) * NaiveHits(docs, us, And)
    ensures NaiveHits(docs, ts + us, Or) == NaiveHits(docs, ts, Or) + NaiveHits(docs, us, Or)
    ensures NaiveHits(docs, [], mode) == {}
  {
    forall k | k in docs
      ensures Matches(docs[k], [t], mode) <==> t in docs[k]
      ensures Matches(docs[k], ts + us, And) <==> Matches(docs[k], ts, And) && Matches(docs[k], us, And)
      ensures Matches(docs[k], ts + us, Or) <==> Matches(docs[k], ts, Or) || Matches(docs[k], us, Or)
    {
      assert t in [t];
      assert forall x :: x in ts + us <==> x in ts || x in us;
    }
  }

  function Written(docs: map<Key, Doc>, op: BuildOp): map<Key, Doc> {
    match op case AddOp(k, d) => docs[k := d] case RemoveOp(k) => docs - {k}
  }

  /** The documents after a stream of writes. */
  function Applied(docs: map<Key, Doc>, ops: seq<BuildOp>): map<Key, Doc>
    decreases ops
  {
    if ops == [] then docs
    else Applied(Written(docs, ops[0]), ops[1..])
  }

  function Queued(queue: Option<seq<BuildOp>>, op: BuildOp): Option<seq<BuildOp>> {
    if queue.None? then None else Some(queue.value + [op])
  }

  predicate Touches(ops: seq<BuildOp>, k: Key) { exists i :: 0 <= i < |ops| && ops[i].key == k }

  lemma {:induction false} AppliedAppend(docs: map<Key, Doc>, ops: seq<BuildOp>, op: BuildOp)
    ensures Applied(docs, ops + [op]) == Applied(Applied(docs, ops), [op])
    decreases ops
  {
    if ops == [] {
      assert [] + [op] == [op];
    } else {
      assert (ops + [op])[1..] == ops[1..] + [op];
      AppliedAppend(Written(docs, ops[0]), ops[1..], op);
    }
  }

  /** Two states that agree on every key the stream does not touch agree after it. */
  lemma {:induction false} AppliedAgrees(a: map<Key, Doc>, b: map<Key, Doc>, ops: seq<BuildOp>)
    requires forall k :: Touches(ops, k) || ((k in a <==> k in b) && (k in a ==> a[k] == b[k]))
    ensures Applied(a, ops) == Applied(b, ops)
    decreases ops
  {
    if ops == [] {
      assert forall k :: !Touches(ops, k);
      assert a == b;
    } else {
      var a', b' := Written(a, ops[0]), Written(b, ops[0]);
      forall k ensures Touches(ops[1..], k) || ((k in a' <==> k in b') && (k in a' ==> a'[k] == b'[k])) {
        if Touches(ops, k) && k != ops[0].key {
          var i :| 0 <= i < |ops| && ops[i].key == k;
          assert ops[1..][i - 1].key == k;
        }
      }
      AppliedAgrees(a', b', ops[1..]);
    }
  }

  // ---- The cache ---------------------------------------------------------------------------------

  function Without(s: seq<Term>, t: Term): seq<Term> {
    if s == [] then [] else (if s[0] == t then [] else [s[0]]) + Without(s[1..], t)
  }

  lemma {:induction false} WithoutIs(s: seq<Term>, t: Term)
    requires forall i, j :: 0 <= i < j < |s| ==> s[i] != s[j]
    ensures forall x :: x in Without(s, t) <==> x in s && x != t
    ensures forall i, j :: 0 <= i < j < |Without(s, t)| ==> Without(s, t)[i] != Without(s, t)[j]
    ensures |Without(s, t)| == if t in s then |s| - 1 else |s|
  {
    if s != [] {
      WithoutIs(s[1..], t);
      var w := Without(s[1..], t);
      if s[0] != t {
        var r: seq<Term> := [s[0]] + w;
        forall i, j | 0 <= i < j < |r| ensures r[i] != r[j] {
          if i == 0 { assert w[j - 1] in s[1..]; }
        }
      }
    }
  }

  lemma {:induction false} WithoutAbsent(s: seq<Term>, t: Term)
    requires t !in s
    ensures Without(s, t) == s
  {
    if s != [] { WithoutAbsent(s[1..], t); }
  }

  /** The terms by last use after one more: it comes last, and the one used longest ago makes room. */
  function LastUsed(s: seq<Term>, t: Term, room: nat): seq<Term> {
    var r := Without(s, t) + [t];
    if |r| > room then r[1..] else r
  }

  lemma TailIs(s: seq<Term>)
    requires s != [] && forall i, j :: 0 <= i < j < |s| ==> s[i] != s[j]
    ensures forall x :: x in s[1..] <==> x in s && x != s[0]
  {
  }

  /** Moving a term to the end of the list of recently used ones. */
  lemma MovesToEnd(s: seq<Term>, t: Term)
    requires t in s && forall i, j :: 0 <= i < j < |s| ==> s[i] != s[j]
    ensures var r := Without(s, t) + [t];
            && |r| == |s| && (forall x :: x in r <==> x in s)
            && forall i, j :: 0 <= i < j < |r| ==> r[i] != r[j]
  {
    WithoutIs(s, t);
  }

  // ---- One write, on the values ----------------------------------------------------------------

  lemma IdOfKey(keys: seq<Option<Key>>, keyToId: map<Key, nat>, docLen: Posts, docs: map<Key, Doc>, key: Key)
    requires IdsOk(keys, keyToId, docLen, docs)
    ensures key in keyToId <==> key in docs
    ensures key in keyToId ==> keyToId[key] < |keys|
    ensures key !in keyToId ==> docs - {key} == docs
  {
  }

  lemma IdsWithout(keys: seq<Option<Key>>, keyToId: map<Key, nat>, docLen: Posts, docs: map<Key, Doc>, key: Key)
    requires IdsOk(keys, keyToId, docLen, docs) && key in keyToId
    ensures keyToId[key] < |keys| && key in docs
    ensures IdsOk(keys[keyToId[key] := None], keyToId - {key}, docLen - {keyToId[key]}, docs - {key})
  {
    hide Freq;
    var id := keyToId[key];
    var docLen' := docLen - {id};
    assert forall k :: k in keyToId && k != key ==> keyToId[k] != id;
    assert forall i :: i in docLen' <==> i in docLen && i != id;
  }

  lemma CountWithout<K, V>(m: map<K, V>, key: K)
    requires key in m
    ensures |m| > 0 && |m - {key}| == |m| - 1
  {
    assert m.Keys == (m - {key}).Keys + {key};
    assert |m.Keys| == |(m - {key}).Keys| + 1;
  }

  lemma FreqWithout(keys: seq<Option<Key>>, keyToId: map<Key, nat>, docLen: Posts, docs: map<Key, Doc>, key: Key,
      i: nat, t: Term)
    requires IdsOk(keys, keyToId, docLen, docs) && key in keyToId
    ensures keyToId[key] < |keys|
    ensures FreqAt(keys[keyToId[key] := None], docs - {key}, i, t) == if i == keyToId[key] then 0
      else FreqAt(keys, docs, i, t)
  {
  }

  lemma PostWithout(b: Posts, d: Posts, removed: set<nat>, freq: nat, i: nat, id: nat, bound: nat)
    requires PostOk(b, d, removed, freq, i, bound) && id < bound
    ensures PostOk(b, d - {id}, removed + {id}, if i == id then 0 else freq, i, bound)
  {
  }

  lemma NoFreqBeyond(keys: seq<Option<Key>>, docs: map<Key, Doc>, id: nat, t: Term)
    requires id >= |keys|
    ensures FreqAt(keys, docs, id, t) == 0
  {
  }

  lemma PostNowhere(b: Posts, d: Posts, removed: set<nat>, id: nat, bound: nat)
    requires PostOk(b, d, removed, 0, id, bound) && id >= bound
    ensures id !in d && id !in b && id !in removed
  {
  }

  lemma IdsWith(keys: seq<Option<Key>>, keyToId: map<Key, nat>, docLen: Posts, docs: map<Key, Doc>, key: Key, doc: Doc)
    requires IdsOk(keys, keyToId, docLen, docs) && key !in docs
    ensures IdsOk(keys + [Some(key)], keyToId[key := |keys|], docLen[|keys| := |doc|], docs[key := doc])
    ensures |docs[key := doc]| == |docs| + 1
  {
  }

  lemma FreqWith(keys: seq<Option<Key>>, keyToId: map<Key, nat>, docLen: Posts, docs: map<Key, Doc>, key: Key,
      doc: Doc, i: nat, t: Term)
    requires IdsOk(keys, keyToId, docLen, docs) && key !in docs
    ensures FreqAt(keys + [Some(key)], docs[key := doc], i, t) == if i == |keys| then Freq(doc, t)
      else FreqAt(keys, docs, i, t)
  {
  }

  lemma PostWith(b: Posts, d: Posts, removed: set<nat>, freq: nat, i: nat, id: nat, doc: Doc, t: Term)
    requires PostOk(b, d, removed, freq, i, id) && id !in removed && id !in b && id !in d
    ensures PostOk(b, if t in doc then d[id := Freq(doc, t)] else d, removed, if i == id then Freq(doc, t)
      else freq, i, id + 1)
  {
  }

  /** The staged postings are those of the staged documents, with no write buffer and no tombstone. */
  ghost predicate StagedPosts(agg: map<Term, Posts>, keys: seq<Option<Key>>, docs: map<Key, Doc>) {
    forall t, id :: StagedAt(agg, keys, docs, t, id)
  }

  ghost predicate StagedAt(agg: map<Term, Posts>, keys: seq<Option<Key>>, docs: map<Key, Doc>, t: Term, id: nat) {
    PostOk(Get(agg, t), map[], {}, FreqAt(keys, docs, id, t), id, |keys|)
  }

  lemma NothingStaged(docs: map<Key, Doc>)
    ensures IdsOk([], map[], map[], map[]) && StagedPosts(map[], [], map[]) && Applied(docs, []) == docs
  {
  }

  lemma NothingAnywhere(id: nat)
    ensures PostOk(map[], map[], {}, 0, id, 0)
  {
  }

  lemma NotYetStaged(agg: map<Term, Posts>, keys: seq<Option<Key>>, docs: map<Key, Doc>)
    requires StagedPosts(agg, keys, docs)
    ensures forall t :: |keys| !in Get(agg, t)
  {
    forall t ensures |keys| !in Get(agg, t) {
      assert StagedAt(agg, keys, docs, t, |keys|);
      NoFreqBeyond(keys, docs, |keys|, t);
    }
  }

  lemma VisitExact(agg: map<Term, Posts>, agg': map<Term, Posts>, keys: seq<Option<Key>>, keyToId: map<Key, nat>,
      docLen: Posts,
                   docs: map<Key, Doc>, key: Key, doc: Doc)
    requires StagedPosts(agg, keys, docs) && IdsOk(keys, keyToId, docLen, docs) && key !in docs
    requires forall t :: Get(agg', t) == if t in doc then Get(agg, t)[|keys| := Freq(doc, t)] else Get(agg, t)
    ensures StagedPosts(agg', keys + [Some(key)], docs[key := doc])
  {
    hide IdsOk, PostOk, FreqAt, Get, Freq;
    NotYetStaged(agg, keys, docs);
    var keys', docs' := keys + [Some(key)], docs[key := doc];
    forall t, i: nat ensures StagedAt(agg', keys', docs', t, i) {
      assert StagedAt(agg, keys, docs, t, i);
      StagedWith(Get(agg, t), FreqAt(keys, docs, i, t), i, |keys|, doc, t);
      FreqWith(keys, keyToId, docLen, docs, key, doc, i, t);
    }
  }

  lemma StagedWith(b: Posts, freq: nat, i: nat, id: nat, doc: Doc, t: Term)
    requires PostOk(b, map[], {}, freq, i, id) && id !in b
    ensures PostOk(if t in doc then b[id := Freq(doc, t)] else b, map[], {}, if i == id then Freq(doc, t)
      else freq, i, id + 1)
  {
  }

  lemma AppliedNothing(docs: map<Key, Doc>)
    ensures Applied(docs, []) == docs
  {
  }

  lemma AppliedOne(docs: map<Key, Doc>, ops: seq<BuildOp>, i: nat)
    requires i < |ops|
    ensures Applied(docs, ops[..i + 1]) == Written(Applied(docs, ops[..i]), ops[i])
  {
    assert ops[..i + 1] == ops[..i] + [ops[i]];
    AppliedAppend(docs, ops[..i], ops[i]);
    assert Applied(Applied(docs, ops[..i]), [ops[i]]) == Applied(Written(Applied(docs, ops[..i]), ops[i]), []);
  }

  lemma {:induction false} UntouchedStays(docs: map<Key, Doc>, ops: seq<BuildOp>, k: Key)
    requires !Touches(ops, k)
    ensures (k in Applied(docs, ops) <==> k in docs) && (k in docs ==> Applied(docs, ops)[k] == docs[k])
    decreases ops
  {
    if ops != [] {
      assert ops[0].key != k;
      assert forall i :: 0 <= i < |ops[1..]| ==> ops[1..][i] == ops[i + 1];
      UntouchedStays(Written(docs, ops[0]), ops[1..], k);
    }
  }

  lemma {:induction false} AppliedAgreesAt(a: map<Key, Doc>, b: map<Key, Doc>, ops: seq<BuildOp>, k: Key)
    requires (k in a <==> k in b) && (k in a ==> a[k] == b[k])
    ensures var x, y := Applied(a, ops), Applied(b, ops); (k in x <==> k in y) && (k in x ==> x[k] == y[k])
    decreases ops
  {
    if ops != [] { AppliedAgreesAt(Written(a, ops[0]), Written(b, ops[0]), ops[1..], k); }
  }

  /** The current documents that a build neither staged nor saw written. */
  ghost function MissedBy(staged: map<Key, Doc>, docs: map<Key, Doc>, queue: seq<BuildOp>): set<Key> {
    set k | k in docs && k !in staged && !Touches(queue, k)
  }

  /** Replaying the writes of a build over what it staged gives the current documents, less those it missed:
      what it staged too early was written since. */
  lemma ReplayIsCurrent(start: map<Key, Doc>, staged: map<Key, Doc>, docs: map<Key, Doc>, queue: seq<BuildOp>)
    requires docs == Applied(start, queue)
    requires forall k :: k in staged && !Touches(queue, k) ==> k in docs && docs[k] == staged[k]
    ensures Applied(staged, queue) == docs - MissedBy(staged, docs, queue)
  {
    hide Applied, Touches;
    var missed := MissedBy(staged, docs, queue);
    var less := start - missed;
    forall k | !Touches(queue, k) ensures (k in less <==> k in staged) && (k in less ==> less[k] == staged[k]) {
      UntouchedStays(start, queue, k);
    }
    AppliedAgrees(less, staged, queue);
    var result := Applied(less, queue);
    forall k ensures (k in result <==> k in docs - missed) && (k in result ==> result[k] == docs[k]) {
      if k in missed {
        UntouchedStays(less, queue, k);
      } else {
        AppliedAgreesAt(less, start, queue, k);
      }
    }
  }

  // ---- Postings as lists -----------------------------------------------------------------------

  /** The postings below id `n`, in order: the order in which a build inserted them. */
  function Ascending(posts: Posts, n: nat): seq<Posting> {
    if n == 0 then []
    else Ascending(posts, n - 1) + if n - 1 in posts then [Posting(n - 1, posts[n - 1])] else []
  }

  lemma {:induction false} EncodableAppend(ps: seq<Posting>, prev: nat, p: Posting)
    requires Encodable(ps, prev) && prev <= p.docId < TWO_32 && p.freq < TWO_32
    requires forall i :: 0 <= i < |ps| ==> ps[i].docId <= p.docId
    ensures Encodable(ps + [p], prev)
    decreases ps
  {
    if ps == [] {
      assert ps + [p] == [p];
    } else {
      assert (ps + [p])[1..] == ps[1..] + [p];
      EncodableAppend(ps[1..], ps[0].docId, p);
    }
  }

  lemma {:induction false} AscendingIsOrdered(posts: Posts, n: nat)
    requires n < TWO_32 && forall id :: id in posts ==> posts[id] < TWO_32
    ensures var list := Ascending(posts, n);
            Encodable(list, 0) && |list| <= n && forall i :: 0 <= i < |list| ==> list[i].docId < n
  {
    if n > 0 {
      AscendingIsOrdered(posts, n - 1);
      if n - 1 in posts {
        EncodableAppend(Ascending(posts, n - 1), 0, Posting(n - 1, posts[n - 1]));
      } else {
        assert Ascending(posts, n - 1) + [] == Ascending(posts, n - 1);
      }
    }
  }

  lemma {:induction false} AscendingIsExact(posts: Posts, n: nat)
    ensures var m := ToMap(Ascending(posts, n));
            && (forall id :: id in m <==> id in posts && id < n)
            && forall id :: id in m ==> m[id] == posts[id]
  {
    if n > 0 {
      AscendingIsExact(posts, n - 1);
      var list := Ascending(posts, n - 1);
      if n - 1 in posts {
        assert (list + [Posting(n - 1, posts[n - 1])])[..|list|] == list;
      } else {
        assert list + [] == list;
      }
    }
  }

  lemma {:induction false} FreqFits(doc: Doc, t: Term)
    ensures Freq(doc, t) <= |doc|
  {
    if doc != [] {
      FreqFits(doc[1..], t);
      assert doc == [doc[0]] + doc[1..];
    }
  }

  /** Every id and frequency staged. */
  ghost predicate Small(agg: map<Term, Posts>, bound: nat) {
    bound < TWO_32 && forall t, id :: t in agg && id in agg[t] ==> id < bound && agg[t][id] < TWO_32
  }

  lemma StagedIsSmall(agg: map<Term, Posts>, keys: seq<Option<Key>>, keyToId: map<Key, nat>, docLen: Posts,
      docs: map<Key, Doc>)
    requires StagedPosts(agg, keys, docs) && IdsOk(keys, keyToId, docLen, docs) && |keys| < TWO_32
    requires forall k :: k in docs ==> |docs[k]| < TWO_32
    ensures Small(agg, |keys|)
  {
    forall t, id | t in agg && id in agg[t] ensures id < |keys| && agg[t][id] < TWO_32 {
      assert StagedAt(agg, keys, docs, t, id);
      FreqFits(docs[keys[id].value], t);
    }
  }

  /** One item for each staged term. */
  ghost predicate Itemized(agg: map<Term, Posts>, bound: nat, terms: set<Term>, items: seq<Item>) {
    && (forall i :: 0 <= i < |items| ==> items[i].term in terms && items[i].term in agg
                                         && items[i].list == Ascending(agg[items[i].term], bound)
                                         && Ordered(items[i]) && ToMap(items[i].list) == agg[items[i].term])
    && (forall i, j :: 0 <= i < j < |items| ==> items[i].term != items[j].term)
    && (forall t :: t in terms ==> exists i :: 0 <= i < |items| && items[i].term == t)
  }

  lemma OneMoreItem(agg: map<Term, Posts>, terms: set<Term>, items: seq<Item>, t: Term, bound: nat)
    requires Itemized(agg, bound, terms, items) && Small(agg, bound) && t in agg && t !in terms
    ensures Itemized(agg, bound, terms + {t}, items + [Item(t, Ascending(agg[t], bound))])
  {
    hide Encodable, ToMap, Ascending;
    AscendingIsOrdered(agg[t], bound);
    AscendingIsExact(agg[t], bound);
    assert ToMap(Ascending(agg[t], bound)) == agg[t];
    var items' := items + [Item(t, Ascending(agg[t], bound))];
    assert items'[|items|].term == t;
    forall x | x in terms + {t} ensures exists i :: 0 <= i < |items'| && items'[i].term == x {
      if x in terms {
        var i :| 0 <= i < |items| && items[i].term == x;
        assert items'[i].term == x;
      }
    }
  }

  method ItemsOf(agg: map<Term, Posts>, bound: nat) returns (items: seq<Item>)
    requires Small(agg, bound)
    ensures Itemized(agg, bound, agg.Keys, items)
  {
    hide Itemized, Small;
    items := [];
    var todo := agg.Keys;
    NoItems(agg, bound);
    assert agg.Keys - todo == {};
    while todo != {}
      invariant todo <= agg.Keys && Itemized(agg, bound, agg.Keys - todo, items)
      decreases |todo|
    {
      var t :| t in todo;
      OneMoreItem(agg, agg.Keys - todo, items, t, bound);
      assert agg.Keys - (todo - {t}) == agg.Keys - todo + {t};
      items := items + [Item(t, Ascending(agg[t], bound))];
      todo := todo - {t};
    }
    assert agg.Keys - todo == agg.Keys;
  }

  /** Every term and every list of a build fits the length fields of a postings record. */
  ghost predicate FitsFile(agg: map<Term, Posts>, bound: nat) {
    forall t :: t in agg && agg[t] != map[] ==>
      var item := Item(t, Ascending(agg[t], bound)); Ordered(item) && Storable(item)
  }

  lemma ItemizedParts(agg: map<Term, Posts>, bound: nat, items: seq<Item>)
    requires Itemized(agg, bound, agg.Keys, items)
    ensures forall i :: 0 <= i < |items| ==> Ordered(items[i])
    ensures forall i, j :: 0 <= i < j < |items| ==> items[i].term != items[j].term
    ensures (forall i :: 0 <= i < |items| && items[i].list != [] ==> Storable(items[i])) <==> FitsFile(agg, bound)
  {
    hide ListBytes, Encodable, Ascending;
    forall i | 0 <= i < |items| ensures items[i].list != [] <==> agg[items[i].term] != map[] {
      NoneListed(items[i].list);
    }
    if forall i :: 0 <= i < |items| && items[i].list != [] ==> Storable(items[i]) {
      forall t | t in agg && agg[t] != map[]
        ensures var item := Item(t, Ascending(agg[t], bound)); Ordered(item) && Storable(item)
      {
        var i :| 0 <= i < |items| && items[i].term == t;
        assert items[i] == Item(t, Ascending(agg[t], bound));
      }
    }
  }

  lemma NoneListed(list: seq<Posting>)
    ensures ToMap(list) == map[] <==> list == []
  {
    if list != [] { assert list[|list| - 1].docId in ToMap(list); }
  }

  lemma NoItems(agg: map<Term, Posts>, bound: nat)
    ensures Itemized(agg, bound, {}, [])
  {
  }

  /** The rewritten file holds exactly what was staged for a term. */
  lemma DictFinds(agg: map<Term, Posts>, bound: nat, items: seq<Item>, file: bytes, dict: map<bytes, Pointer>, t: Term)
    requires Itemized(agg, bound, agg.Keys, items) && Indexed(items, |items|, file, dict)
    ensures Get(agg, t) == if t !in dict then map[]
                           else match ReadPostings(file, dict[t]) case None => map[] case Some(list) => ToMap(list)
  {
    hide ReadPostings, Encodable;
    if t in agg {
      var i :| 0 <= i < |items| && items[i].term == t;
      if items[i].list == [] { assert agg[t] == map[]; }
    }
  }

  lemma DictReadable(items: seq<Item>, file: bytes, dict: map<bytes, Pointer>)
    requires Indexed(items, |items|, file, dict)
    ensures forall t :: t in dict ==> ReadPostings(file, dict[t]).Some?
  {
    hide ReadPostings;
    forall t | t in dict ensures ReadPostings(file, dict[t]).Some? {
      var i :| 0 <= i < |items| && items[i].term == t && items[i].list != [];
    }
  }

  // ---- Hits, on the values ---------------------------------------------------------------------

  predicate FoundById(keys: seq<Option<Key>>, docs: map<Key, Doc>, id: nat, terms: seq<Term>, mode: Mode) {
    match mode
    case Or => exists j :: 0 <= j < |terms| && FreqAt(keys, docs, id, terms[j]) > 0
    case And => forall j :: 0 <= j < |terms| ==> FreqAt(keys, docs, id, terms[j]) > 0
  }

  predicate NoneTwice(s: seq<Key>) { forall i, j :: 0 <= i < j < |s| ==> s[i] != s[j] }

  /** Ids that stand for documents, no two for the same. */
  ghost predicate AllLive(keys: seq<Option<Key>>, ids: set<nat>) {
    && (forall id :: id in ids ==> id < |keys| && keys[id].Some?)
    && forall i, j :: i in ids && j in ids && keys[i] == keys[j] ==> i == j
  }

  ghost function KeysOf(keys: seq<Option<Key>>, ids: set<nat>): set<Key>
    requires AllLive(keys, ids)
  {
    set id | id in ids :: keys[id].value
  }

  lemma LiveSubset(keys: seq<Option<Key>>, ids: set<nat>, some: set<nat>)
    requires AllLive(keys, ids) && some <= ids
    ensures AllLive(keys, some) && (some == {} ==> KeysOf(keys, some) == {})
  {
  }

  lemma OneMoreKey(keys: seq<Option<Key>>, ids: set<nat>, some: set<nat>, id: nat)
    requires AllLive(keys, ids) && some <= ids && id in ids && id !in some
    ensures AllLive(keys, some) && AllLive(keys, some + {id}) && id < |keys| && keys[id].Some?
    ensures keys[id].value !in KeysOf(keys, some)
    ensures KeysOf(keys, some + {id}) == KeysOf(keys, some) + {keys[id].value}
  {
  }

  lemma NothingAsked(docs: map<Key, Doc>, mode: Mode)
    ensures NaiveHits(docs, [], mode) == {}
  {
  }

  lemma MatchesById(keys: seq<Option<Key>>, keyToId: map<Key, nat>, docLen: Posts, docs: map<Key, Doc>,
                    id: nat, terms: seq<Term>, mode: Mode)
    requires IdsOk(keys, keyToId, docLen, docs) && terms != []
    ensures FoundById(keys, docs, id, terms, mode)
            <==> id < |keys| && keys[id].Some? && keys[id].value in docs && Matches(docs[keys[id].value], terms, mode)
  {
    if id < |keys| && keys[id].Some? {
      var doc := docs[keys[id].value];
      forall j | 0 <= j < |terms| ensures FreqAt(keys, docs, id, terms[j]) > 0 <==> terms[j] in doc {
        assert FreqAt(keys, docs, id, terms[j]) == Freq(doc, terms[j]);
      }
    } else {
      assert FreqAt(keys, docs, id, terms[0]) == 0;
    }
  }

  /** The keys of the ids found are the naive hits. */
  lemma FoundKeys(keys: seq<Option<Key>>, keyToId: map<Key, nat>, docLen: Posts, docs: map<Key, Doc>,
                  ids: set<nat>, terms: seq<Term>, mode: Mode)
    requires IdsOk(keys, keyToId, docLen, docs) && terms != []
    requires forall id: nat :: id in ids <==> FoundById(keys, docs, id, terms, mode)
    ensures AllLive(keys, ids) && KeysOf(keys, ids) == NaiveHits(docs, terms, mode)
  {
    hide FoundById, Matches;
    forall id: nat
      ensures id in ids <==>
        id < |keys| && keys[id].Some? && keys[id].value in docs && Matches(docs[keys[id].value], terms, mode)
    {
      MatchesById(keys, keyToId, docLen, docs, id, terms, mode);
    }
    forall k ensures k in KeysOf(keys, ids) <==> k in NaiveHits(docs, terms, mode) {
      if k in NaiveHits(docs, terms, mode) { assert keyToId[k] in ids; }
    }
  }

  // ---- The index -----------------------------------------------------------------------------

  class TextIndex {
    const onDisk: bool
    const cacheTerms: nat

    var keys: seq<Option<Key>>
    var keyToId: map<Key, nat>
    var docLen: Posts
    var delta: map<Term, Posts>
    var deltaCount: nat
    var removed: set<nat>
    var N: nat

    // The base: in memory, or a dictionary over a postings file, with a cache of decoded lists
    // (least recently used first).
    var memBase: map<Term, Posts>
    var postings: map<Term, Pointer>
    var pf: Option<bytes>
    var cache: map<Term, Posts>
    var recent: seq<Term>

    // A build in flight: the writes since it began, and what it has staged.
    var buildQueue: Option<seq<BuildOp>>
    var agg: map<Term, Posts>
    var newKeys: seq<Option<Key>>
    var newKeyToId: map<Key, nat>
    var newDocLen: Posts

    /** The current documents, those when the build began, and those it has staged. */
    ghost var docs: map<Key, Doc>
    ghost var startDocs: map<Key, Doc>
    ghost var stagedDocs: map<Key, Doc>

    /** A term's base postings, wherever they are. */
    ghost function BaseOf(t: Term): Posts
      reads `memBase, `postings, `pf
    {
      if !onDisk then Get(memBase, t)
      else if pf.None? || t !in postings then map[]
      else match ReadPostings(pf.value, postings[t]) case None => map[] case Some(list) => ToMap(list)
    }

    ghost predicate Readable()
      reads `postings, `pf
    {
      onDisk && pf.Some? ==> forall t :: t in postings ==> ReadPostings(pf.value, postings[t]).Some?
    }

    ghost predicate PostsOk()
      reads `memBase, `postings, `pf, `delta, `removed, `keys, `docs
    {
      forall t, id :: At(t, id)
    }

    ghost predicate At(t: Term, id: nat)
      reads `memBase, `postings, `pf, `delta, `removed, `keys, `docs
    {
      PostOk(BaseOf(t), Get(delta, t), removed, FreqAt(keys, docs, id, t), id, |keys|)
    }

    ghost predicate CacheOk()
      reads `memBase, `postings, `pf, `cache, `recent
    {
      && (forall t :: t in cache ==> cache[t] == BaseOf(t))
      && (forall t :: t in cache <==> t in recent)
      && (forall i, j :: 0 <= i < j < |recent| ==> recent[i] != recent[j])
      && |recent| <= cacheTerms
    }

    ghost predicate LiveOk()
      reads `keys, `keyToId, `docLen, `delta, `deltaCount, `removed, `N, `docs
      reads `memBase, `postings, `pf, `cache, `recent
    {
      && IdsOk(keys, keyToId, docLen, docs) && N == |docs|
      && PostsOk() && Readable() && CacheOk()
      && deltaCount == |PairsOf(delta)|
    }

    /** What is staged is exact for the documents visited so far. */
    ghost predicate StagedOk()
      reads `docs, `buildQueue, `agg, `newKeys, `newKeyToId, `newDocLen, `startDocs, `stagedDocs
      requires buildQueue.Some?
    {
      && IdsOk(newKeys, newKeyToId, newDocLen, stagedDocs)
      && (forall id :: 0 <= id < |newKeys| ==> newKeys[id].Some?)
      && StagedPosts(agg, newKeys, stagedDocs)
      && StagedDocsRight(stagedDocs) && |newKeys| == |stagedDocs| < TWO_32
    }

    ghost predicate Valid()
      reads this
    {
      LiveOk() && (buildQueue.Some? ==> StagedOk())
    }

    constructor (onDisk: bool, cacheTerms: nat)
      ensures Valid() && docs == map[] && buildQueue == None
    {
      hide LiveOk;
      this.onDisk, this.cacheTerms := onDisk, cacheTerms;
      keys, keyToId, docLen, delta, deltaCount, removed, N := [], map[], map[], map[], 0, {}, 0;
      memBase, postings, pf, cache, recent := map[], map[], None, map[], [];
      buildQueue, agg, newKeys, newKeyToId, newDocLen := None, map[], [], map[], map[];
      docs, startDocs, stagedDocs := map[], map[], map[];
      new;
      EmptyIsLive();
    }

    lemma EmptyIsLive()
      requires keys == [] && keyToId == map[] && docLen == map[] && docs == map[] && N == 0 && removed == {}
        && pf == None
      requires delta == map[] && deltaCount == 0 && memBase == map[] && postings == map[] && cache == map[]
        && recent == []
      ensures LiveOk()
    {
      hide PostOk;
      assert PairsOf(delta) == {};
      forall t, id: nat ensures At(t, id) { NothingAnywhere(id); }
    }

    // ---- Writes ------------------------------------------------------------------------------

    /** Put a new document's terms into the write buffer. */
    method Buffer(id: nat, doc: Doc)
      requires deltaCount == |PairsOf(delta)| && forall t :: id !in Get(delta, t)
      modifies `delta, `deltaCount
      ensures deltaCount == |PairsOf(delta)|
      ensures forall t :: Get(delta, t) == if t in doc then Get(old(delta), t)[id := Freq(doc, t)]
        else Get(old(delta), t)
    {
      var added;
      delta, added := WithDoc(delta, id, doc);
      deltaCount := deltaCount + added;
    }

    /** Add a document's terms to a map of postings. */
    static method WithDoc(m: map<Term, Posts>, id: nat, doc: Doc) returns (r: map<Term, Posts>, added: nat)
      requires forall t :: id !in Get(m, t)
      ensures |PairsOf(r)| == |PairsOf(m)| + added
      ensures forall t :: Get(r, t) == if t in doc then Get(m, t)[id := Freq(doc, t)] else Get(m, t)
    {
      hide PairsOf, Get;
      var counts := CountTerms(doc);
      r, added := m, 0;
      var todo := counts.Keys;
      while todo != {}
        invariant todo <= counts.Keys && |PairsOf(r)| == |PairsOf(m)| + added
        invariant forall t :: Get(r, t) == if t in counts && t !in todo then Get(m, t)[id := counts[t]] else Get(m, t)
        decreases |todo|
      {
        var t :| t in todo;
        PairAdded(r, t, id, counts[t]);
        GetUpdated(r, t, Get(r, t)[id := counts[t]]);
        r := r[t := Get(r, t)[id := counts[t]]];
        added := added + 1;
        todo := todo - {t};
      }
    }

    static lemma GetUpdated(m: map<Term, Posts>, t: Term, posts: Posts)
      ensures forall u :: Get(m[t := posts], u) == if u == t then posts else Get(m, u)
    {
      forall u ensures Get(m[t := posts], u) == if u == t then posts else Get(m, u) {
        assert u in m[t := posts] <==> u == t || u in m;
      }
    }

    static lemma PairAdded(m: map<Term, Posts>, t: Term, id: nat, f: nat)
      requires id !in Get(m, t)
      ensures |PairsOf(m[t := Get(m, t)[id := f]])| == |PairsOf(m)| + 1
    {
      hide PairsOf;
      var a, b := PairsOf(m[t := Get(m, t)[id := f]]), PairsOf(m);
      forall p ensures p in a <==> p in b + {(t, id)} { PairIn(m[t := Get(m, t)[id := f]], p); PairIn(m, p); }
      PairIn(m, (t, id));
      assert a == b + {(t, id)};
    }

    static lemma PairIn(m: map<Term, Posts>, p: (Term, nat))
      ensures p in PairsOf(m) <==> p.1 in Get(m, p.0)
    {
    }

    /** Take an id out of the write buffer. */
    method Unbuffer(id: nat)
      requires deltaCount == |PairsOf(delta)|
      modifies `delta, `deltaCount
      ensures deltaCount == |PairsOf(delta)|
      ensures forall t :: Get(delta, t) == Get(old(delta), t) - {id}
    {
      hide PairsOf;
      var todo := delta.Keys;
      while todo != {}
        invariant todo <= delta.Keys == old(delta.Keys) && deltaCount == |PairsOf(delta)|
        invariant forall t :: Get(delta, t) == if t in todo then Get(old(delta), t) else Get(old(delta), t) - {id}
        decreases |todo|
      {
        var t :| t in todo;
        if id in delta[t] {
          PairRemoved(delta, t, id);
          delta := delta[t := delta[t] - {id}];
          deltaCount := deltaCount - 1;
        }
        assert Get(delta, t) == Get(old(delta), t) - {id};
        todo := todo - {t};
      }
    }

    static lemma PairRemoved(m: map<Term, Posts>, t: Term, id: nat)
      requires t in m && id in m[t]
      ensures |PairsOf(m)| > 0 && |PairsOf(m[t := m[t] - {id}])| == |PairsOf(m)| - 1
    {
      hide PairsOf;
      var a, b := PairsOf(m[t := m[t] - {id}]), PairsOf(m);
      forall p ensures p in a <==> p in b - {(t, id)} { PairIn(m[t := m[t] - {id}], p); PairIn(m, p); }
      PairIn(m, (t, id));
      assert a == b - {(t, id)};
    }

    /** How often each term occurs. */
    static method CountTerms(doc: Doc) returns (counts: map<Term, nat>)
      ensures forall t :: t in counts <==> t in doc
      ensures forall t :: t in counts ==> counts[t] == Freq(doc, t)
    {
      counts := map[];
      for i := 0 to |doc|
        invariant forall t :: t in counts <==> t in doc[..i]
        invariant forall t :: t in counts ==> counts[t] == Freq(doc[..i], t)
      {
        var t := doc[i];
        assert doc[..i + 1] == doc[..i] + [t];
        counts := counts[t := (if t in counts then counts[t] else 0) + 1];
      }
      assert doc[..|doc|] == doc;
    }

    method DropId(key: Key, id: nat)
      requires key in keyToId && id == keyToId[key] < |keys| && N > 0
      modifies `keys, `keyToId, `docLen, `removed, `N, `docs
      ensures keys == old(keys)[id := None] && keyToId == old(keyToId) - {key} && docLen == old(docLen) - {id}
      ensures removed == old(removed) + {id} && N == old(N) - 1 && docs == old(docs) - {key}
    {
      removed := removed + {id};
      keyToId := keyToId - {key};
      keys := keys[id := None];
      docLen := docLen - {id};
      N := N - 1;
      docs := docs - {key};
    }

    method TakeId(key: Key, doc: Doc)
      modifies `keys, `keyToId, `docLen, `N, `docs
      ensures keys == old(keys) + [Some(key)] && keyToId == old(keyToId)[key := |old(keys)|]
      ensures docLen == old(docLen)[|old(keys)| := |doc|] && N == old(N) + 1 && docs == old(docs)[key := doc]
    {
      var id := |keys|;
      keys := keys + [Some(key)];
      keyToId := keyToId[key := id];
      docLen := docLen[id := |doc|];
      N := N + 1;
      docs := docs[key := doc];
    }

    /** Tombstone a document: its id goes out of the write buffer, and is skipped in the base. */
    method RemoveInner(key: Key)
      requires LiveOk()
      modifies `keys, `keyToId, `docLen, `delta, `deltaCount, `removed, `N, `docs
      ensures LiveOk() && docs == old(docs) - {key} && |keys| == |old(keys)|
    {
      hide IdsOk, FreqAt, PostOk, BaseOf, Get, PairsOf, Readable, CacheOk;
      IdOfKey(keys, keyToId, docLen, docs, key);
      if key !in keyToId { return; }
      var id := keyToId[key];
      IdsWithout(keys, keyToId, docLen, docs, key);
      CountWithout(docs, key);
      DropId(key, id);
      Unbuffer(id);
      forall t, i: nat ensures At(t, i) {
        assert old(At(t, i));
        PostWithout(BaseOf(t), Get(old(delta), t), old(removed), old(FreqAt(keys, docs, i, t)), i, id, |keys|);
        FreqWithout(old(keys), old(keyToId), old(docLen), old(docs), key, i, t);
      }
    }

    /** Add or replace a document under a new id. */
    method AddInner(key: Key, doc: Doc)
      requires LiveOk()
      modifies `keys, `keyToId, `docLen, `delta, `deltaCount, `removed, `N, `docs
      ensures LiveOk() && docs == old(docs)[key := doc]
    {
      hide IdsOk, FreqAt, PostOk, BaseOf, Get, PairsOf, Readable, CacheOk, Freq;
      if key in keyToId { RemoveInner(key); }
      assert old(docs) - {key} == docs by { IdOfKey(old(keys), old(keyToId), old(docLen), old(docs), key); }
      AddNew(key, doc);
    }

    method AddNew(key: Key, doc: Doc)
      requires LiveOk() && key !in docs
      modifies `keys, `keyToId, `docLen, `delta, `deltaCount, `N, `docs
      ensures LiveOk() && docs == old(docs)[key := doc]
    {
      hide IdsOk, FreqAt, PostOk, BaseOf, Get, PairsOf, Readable, CacheOk, Freq;
      var id := |keys|;
      forall t ensures id !in Get(delta, t) && id !in BaseOf(t) && id !in removed {
        assert At(t, id);
        NoFreqBeyond(keys, docs, id, t);
        PostNowhere(BaseOf(t), Get(delta, t), removed, id, id);
      }
      IdsWith(keys, keyToId, docLen, docs, key, doc);
      TakeId(key, doc);
      Buffer(id, doc);
      forall t, i: nat ensures At(t, i) {
        assert old(At(t, i));
        PostWith(BaseOf(t), Get(old(delta), t), removed, old(FreqAt(keys, docs, i, t)), i, id, doc, t);
        FreqWith(old(keys), old(keyToId), old(docLen), old(docs), key, doc, i, t);
      }
    }

    /** Add or replace a document. During a build the write is queued as well: the overwrite's own
        tombstone is not. */
    method Add(key: Key, doc: Doc)
      requires Valid()
      modifies this
      ensures Valid() && docs == old(docs)[key := doc]
      ensures buildQueue == Queued(old(buildQueue), AddOp(key, doc))
      ensures startDocs == old(startDocs) && stagedDocs == old(stagedDocs)
    {
      hide LiveOk, IdsOk, PostOk, FreqAt;
      if buildQueue.Some? {
        QueueGrows(startDocs, stagedDocs, docs, buildQueue.value, AddOp(key, doc));
        buildQueue := Some(buildQueue.value + [AddOp(key, doc)]);
      }
      AddInner(key, doc);
    }

    method Remove(key: Key)
      requires Valid()
      modifies this
      ensures Valid() && docs == old(docs) - {key}
      ensures buildQueue == Queued(old(buildQueue), RemoveOp(key))
      ensures startDocs == old(startDocs) && stagedDocs == old(stagedDocs)
    {
      hide LiveOk, IdsOk, PostOk, FreqAt;
      if buildQueue.Some? {
        QueueGrows(startDocs, stagedDocs, docs, buildQueue.value, RemoveOp(key));
        buildQueue := Some(buildQueue.value + [RemoveOp(key)]);
      }
      RemoveInner(key);
    }

    static lemma TouchedLonger(queue: seq<BuildOp>, op: BuildOp, k: Key)
      ensures Touches(queue, k) || op.key == k ==> Touches(queue + [op], k)
    {
      assert (queue + [op])[|queue|] == op;
      if Touches(queue, k) {
        var i :| 0 <= i < |queue| && queue[i].key == k;
        assert (queue + [op])[i].key == k;
      }
    }

    /** A queued write keeps the staged documents right for the keys no write has touched. */
    static lemma QueueGrows(start: map<Key, Doc>, staged: map<Key, Doc>, docs: map<Key, Doc>, queue: seq<BuildOp>,
        op: BuildOp)
      requires docs == Applied(start, queue)
      requires forall k :: k in staged && !Touches(queue, k) ==> k in docs && docs[k] == staged[k]
      ensures var docs' := Applied(docs, [op]);
              && docs' == Written(docs, op)
              && docs' == Applied(start, queue + [op])
              && forall k :: k in staged && !Touches(queue + [op], k) ==> k in docs' && docs'[k] == staged[k]
    {
      AppliedAppend(start, queue, op);
      forall k | k in staged && !Touches(queue + [op], k) ensures !Touches(queue, k) && k != op.key {
        TouchedLonger(queue, op, k);
      }
    }

    // ---- Reads -------------------------------------------------------------------------------

    /** A term's base postings, through the cache of recently used lists. */
    method ReadBase(t: Term) returns (m: Posts)
      requires CacheOk() && Readable()
      modifies `cache, `recent
      ensures CacheOk() && m == BaseOf(t)
      ensures recent == if onDisk && cacheTerms > 0 then LastUsed(old(recent), t, cacheTerms) else old(recent)
    {
      hide CacheOk, Readable, Without;
      CacheHolds(t);
      if !onDisk { return Get(memBase, t); }
      if t in cache {
        m := cache[t];
        Touch(t);
      } else {
        m := Load(t);
        if cacheTerms > 0 { Remember(t, m); }
      }
    }

    lemma CacheHolds(t: Term)
      requires CacheOk()
      ensures t in cache ==> cache[t] == BaseOf(t) && |recent| <= cacheTerms
      ensures t in cache <==> t in recent
    {
    }

    /** Move a term to the most recently used. */
    method Touch(t: Term)
      requires CacheOk() && t in cache
      modifies `recent
      ensures CacheOk() && recent == LastUsed(old(recent), t, cacheTerms)
    {
      hide BaseOf, Without;
      MovesToEnd(recent, t);
      recent := Without(recent, t) + [t];
    }

    method Load(t: Term) returns (m: Posts)
      requires Readable() && onDisk
      ensures m == BaseOf(t)
    {
      m := map[];
      if t in postings && pf.Some? { m := DecodeMap(ReadPostings(pf.value, postings[t]).value); }
    }

    /** Cache a list, and drop the least recently used one when there are too many. */
    method Remember(t: Term, m: Posts)
      requires CacheOk() && t !in cache && m == BaseOf(t) && cacheTerms > 0
      modifies `cache, `recent
      ensures CacheOk() && recent == LastUsed(old(recent), t, cacheTerms)
    {
      hide BaseOf, Without;
      WithoutAbsent(recent, t);
      cache := cache[t := m];
      recent := recent + [t];
      if |recent| > cacheTerms {
        TailIs(recent);
        cache := cache - {recent[0]};
        recent := recent[1..];
      }
    }

    static method DecodeMap(list: seq<Posting>) returns (m: Posts)
      ensures m == ToMap(list)
    {
      m := map[];
      for i := 0 to |list|
        invariant m == ToMap(list[..i])
      {
        assert list[..i + 1][..i] == list[..i];
        m := m[list[i].docId := list[i].freq];
      }
      assert list[..|list|] == list;
    }

    /** A term's live postings: base and write buffer, less the tombstones. */
    method LivePostings(t: Term) returns (m: Posts)
      requires LiveOk()
      modifies `cache, `recent
      ensures LiveOk() && forall id: nat :: id in m <==> FreqAt(keys, docs, id, t) > 0
      ensures forall id: nat :: id in m ==> m[id] == FreqAt(keys, docs, id, t)
    {
      hide IdsOk, FreqAt, BaseOf, PairsOf, Readable;
      var base := ReadBase(t);
      forall id: nat ensures PostOk(base, Get(delta, t), removed, FreqAt(keys, docs, id, t), id, |keys|) {
        assert At(t, id);
      }
      if removed == {} && t !in delta { return base; }
      m := Keep(base, removed, map[]);
      if t in delta { m := Keep(delta[t], removed, m); }
    }

    static method Keep(from: Posts, removed: set<nat>, into: Posts) returns (m: Posts)
      ensures m.Keys == into.Keys + (from.Keys - removed)
      ensures forall id :: id in m ==> m[id] == if id in from && id !in removed then from[id] else into[id]
    {
      m := into;
      var todo := from.Keys;
      while todo != {}
        invariant todo <= from.Keys && m.Keys == into.Keys + (from.Keys - todo - removed)
        invariant forall id :: id in m ==>
          m[id] == if id in from && id !in todo && id !in removed then from[id] else into[id]
        decreases |todo|
      {
        var id :| id in todo;
        if id !in removed { m := m[id := from[id]]; }
        todo := todo - {id};
      }
    }

    // ---- Searching ---------------------------------------------------------------------------

    /** The ids of the documents that match: the union of the terms' postings, or their intersection. */
    method Candidates(terms: seq<Term>, mode: Mode) returns (ids: set<nat>)
      requires LiveOk() && terms != []
      modifies `cache, `recent
      ensures LiveOk() && forall id: nat :: id in ids <==> FoundById(keys, docs, id, terms, mode)
    {
      hide LiveOk, FreqAt;
      var first := LivePostings(terms[0]);
      ids := first.Keys;
      for i := 1 to |terms|
        invariant LiveOk()
        invariant mode == Or ==> forall id: nat :: id in ids <==>
          exists j :: 0 <= j < i && FreqAt(keys, docs, id, terms[j]) > 0
        invariant mode == And ==> forall id: nat :: id in ids <==>
          forall j :: 0 <= j < i ==> FreqAt(keys, docs, id, terms[j]) > 0
      {
        var m := LivePostings(terms[i]);
        ids := if mode == Or then ids + m.Keys else ids * m.Keys;
      }
    }

    /** The search finds exactly the documents that the naive search finds, each once, and returns at
        most `limit` of them. A hit's score is a sum of positive parts, one for each query term in its
        document, so the test that the score is positive drops nothing; the order is not modelled. */
    method Search(terms: seq<Term>, mode: Mode, limit: nat) returns (hits: seq<Key>)
      requires Valid()
      modifies `cache, `recent
      ensures Valid() && NoneTwice(hits) && forall k :: k in hits ==> k in NaiveHits(docs, terms, mode)
      ensures |hits| == if |NaiveHits(docs, terms, mode)| <= limit then |NaiveHits(docs, terms, mode)| else limit
      ensures |NaiveHits(docs, terms, mode)| <= limit ==> forall k :: k in NaiveHits(docs, terms, mode) ==> k in hits
    {
      hide NaiveHits, FoundById, IdsOk, KeysOf;
      if terms == [] {
        NothingAsked(docs, mode);
        return [];
      }
      var ids := Candidates(terms, mode);
      FoundKeys(keys, keyToId, docLen, docs, ids, terms, mode);
      hits := Collect(ids);
      if |hits| > limit { hits := hits[..limit]; }
    }

    /** The keys of live ids, in any order. */
    method Collect(ids: set<nat>) returns (out: seq<Key>)
      requires AllLive(keys, ids)
      ensures NoneTwice(out) && (forall k :: k in out <==> k in KeysOf(keys, ids)) && |out| == |KeysOf(keys, ids)|
    {
      hide KeysOf, AllLive;
      out := [];
      var todo := ids;
      LiveSubset(keys, ids, {});
      assert ids - todo == {};
      while todo != {}
        invariant todo <= ids && AllLive(keys, ids - todo) && NoneTwice(out)
        invariant (forall k :: k in out <==> k in KeysOf(keys, ids - todo)) && |out| == |KeysOf(keys, ids - todo)|
        decreases |todo|
      {
        var id :| id in todo;
        OneMoreKey(keys, ids, ids - todo, id);
        assert ids - (todo - {id}) == (ids - todo) + {id};
        out := out + [keys[id].value];
        todo := todo - {id};
      }
      assert ids - todo == ids;
    }

    // ---- Builds ------------------------------------------------------------------------------

    /** Begin a build; only one may be in flight. */
    method BeginBuild() returns (ok: bool)
      requires Valid()
      modifies `buildQueue, `agg, `newKeys, `newKeyToId, `newDocLen, `startDocs, `stagedDocs
      ensures Valid() && ok == old(buildQueue).None?
      ensures ok ==> buildQueue == Some([]) && stagedDocs == map[] && startDocs == docs
      ensures !ok ==> buildQueue == old(buildQueue) && stagedDocs == old(stagedDocs)
    {
      hide LiveOk, IdsOk, StagedPosts, Applied;
      if buildQueue.Some? { return false; }
      NothingStaged(docs);
      StageNothing();
      ok := true;
    }

    method StageNothing()
      modifies `buildQueue, `agg, `newKeys, `newKeyToId, `newDocLen, `startDocs, `stagedDocs
      ensures buildQueue == Some([]) && agg == map[] && newKeys == [] && newKeyToId == map[] && newDocLen == map[]
      ensures startDocs == docs && stagedDocs == map[]
    {
      buildQueue, agg, newKeys, newKeyToId, newDocLen := Some([]), map[], [], map[], map[];
      startDocs, stagedDocs := docs, map[];
    }

    /** The stream yields a current document: the build stages it under the next id. Each key is
        visited at most once. */
    method Visit(key: Key, doc: Doc)
      requires Valid() && buildQueue.Some? && key in docs && docs[key] == doc && key !in stagedDocs
      requires |newKeys| + 1 < TWO_32 && |doc| < TWO_32
      modifies `agg, `newKeys, `newKeyToId, `newDocLen, `stagedDocs
      ensures Valid() && stagedDocs == old(stagedDocs)[key := doc]
    {
      hide LiveOk, StagedOk, IdsOk, StagedPosts, Get, Applied, Touches;
      StagedParts();
      NotYetStaged(agg, newKeys, stagedDocs);
      IdsWith(newKeys, newKeyToId, newDocLen, stagedDocs, key, doc);
      var agg', _ := WithDoc(agg, |newKeys|, doc);
      VisitExact(agg, agg', newKeys, newKeyToId, newDocLen, stagedDocs, key, doc);
      assert StagedDocsRight(stagedDocs[key := doc]) by { StagedOneMore(key, doc); }
      Stage(key, doc, agg');
      StagedFromParts();
    }

    /** What the build has visited and no write has touched since is current. */
    ghost predicate StagedDocsRight(staged: map<Key, Doc>)
      reads `docs, `buildQueue, `startDocs
      requires buildQueue.Some?
    {
      && docs == Applied(startDocs, buildQueue.value)
      && (forall k :: k in staged && !Touches(buildQueue.value, k) ==> k in docs && docs[k] == staged[k])
      && forall k :: k in staged ==> |staged[k]| < TWO_32
    }

    lemma StagedOneMore(key: Key, doc: Doc)
      requires buildQueue.Some? && StagedOk() && key in docs && docs[key] == doc && |doc| < TWO_32
      ensures StagedDocsRight(stagedDocs[key := doc])
    {
      hide IdsOk, StagedPosts, Applied, Touches;
    }

    lemma StagedFromParts()
      requires buildQueue.Some? && IdsOk(newKeys, newKeyToId, newDocLen, stagedDocs)
        && StagedPosts(agg, newKeys, stagedDocs)
      requires StagedDocsRight(stagedDocs) && |newKeys| == |stagedDocs| < TWO_32
      requires forall id :: 0 <= id < |newKeys| ==> newKeys[id].Some?
      ensures StagedOk()
    {
    }

    method Stage(key: Key, doc: Doc, agg': map<Term, Posts>)
      modifies `agg, `newKeys, `newKeyToId, `newDocLen, `stagedDocs
      ensures agg == agg' && newKeys == old(newKeys) + [Some(key)]
        && newKeyToId == old(newKeyToId)[key := |old(newKeys)|]
      ensures newDocLen == old(newDocLen)[|old(newKeys)| := |doc|] && stagedDocs == old(stagedDocs)[key := doc]
    {
      var id := |newKeys|;
      newKeys := newKeys + [Some(key)];
      newKeyToId := newKeyToId[key := id];
      agg := agg';
      newDocLen := newDocLen[id := |doc|];
      stagedDocs := stagedDocs[key := doc];
    }

    /** A build that fails leaves the index that was there, with every write since. */
    method FailBuild()
      requires Valid()
      modifies `buildQueue
      ensures Valid() && buildQueue == None
    {
      hide LiveOk;
      buildQueue := None;
    }

    /** The current documents that the stream did not yield and no write has touched since the build began.
        The stream leaves out records whose TTL had passed when it began; the index may still hold them. */
    ghost function Missed(): set<Key>
      reads `docs, `buildQueue, `stagedDocs
      requires buildQueue.Some?
    {
      MissedBy(stagedDocs, docs, buildQueue.value)
    }

    method SwapFields()
      modifies this
      ensures keys == old(newKeys) && keyToId == old(newKeyToId) && docLen == old(newDocLen) && N == |keys|
        && docs == old(stagedDocs)
      ensures memBase == old(memBase) && postings == old(postings) && pf == old(pf)
      ensures delta == map[] && deltaCount == 0 && removed == {} && cache == map[] && recent == [] && buildQueue == None
    {
      TakeStagedIds();
      DropWriteBuffer();
      buildQueue := None;
    }

    method TakeStagedIds()
      modifies `keys, `keyToId, `docLen, `N, `docs
      ensures keys == newKeys && keyToId == newKeyToId && docLen == newDocLen && N == |newKeys| && docs == stagedDocs
    {
      keys, keyToId, docLen := newKeys, newKeyToId, newDocLen;
      N := |newKeys|;
      docs := stagedDocs;
    }

    method DropWriteBuffer()
      modifies `delta, `deltaCount, `removed, `cache, `recent
      ensures delta == map[] && deltaCount == 0 && removed == {} && cache == map[] && recent == []
    {
      delta, deltaCount, removed, cache, recent := map[], 0, {}, map[], [];
    }

    lemma StagedParts()
      requires buildQueue.Some? && StagedOk()
      ensures IdsOk(newKeys, newKeyToId, newDocLen, stagedDocs) && StagedPosts(agg, newKeys, stagedDocs)
      ensures |newKeys| == |stagedDocs| < TWO_32 && forall k :: k in stagedDocs ==> |stagedDocs[k]| < TWO_32
      ensures forall id :: 0 <= id < |newKeys| ==> newKeys[id].Some?
    {
    }

    /** With the new base in place, install the staged ids and drop the write buffer: the index is now
        that of the staged documents. */
    method Install()
      requires buildQueue.Some? && StagedOk() && Readable() && forall t :: BaseOf(t) == Get(agg, t)
      modifies this
      ensures LiveOk() && docs == old(stagedDocs) && buildQueue == None
    {
      hide LiveOk, StagedOk, StagedPosts, At, IdsOk, BaseOf, Get, Readable;
      StagedParts();
      SwapFields();
      forall t, id: nat ensures At(t, id) { InstalledAt(old(agg), t, id); }
      LiveFromParts();
    }

    lemma LiveFromParts()
      requires IdsOk(keys, keyToId, docLen, docs) && N == |docs| && (forall t, id :: At(t, id))
      requires Readable() && cache == map[] && recent == [] && delta == map[] && deltaCount == 0
      ensures LiveOk()
    {
      assert PairsOf(delta) == {};
    }

    lemma InstalledAt(agg: map<Term, Posts>, t: Term, id: nat)
      requires StagedPosts(agg, keys, docs) && removed == {} && delta == map[] && BaseOf(t) == Get(agg, t)
      ensures At(t, id)
    {
      assert StagedAt(agg, keys, docs, t, id);
    }

    /** Replay the writes that came in during the build. */
    method ReplayQueue(queue: seq<BuildOp>)
      requires LiveOk() && buildQueue == None
      modifies this
      ensures Valid() && buildQueue == None && docs == Applied(old(docs), queue)
    {
      hide LiveOk, Applied;
      AppliedNothing(docs);
      assert queue[..0] == [];
      for i := 0 to |queue|
        invariant Valid() && buildQueue == None && docs == Applied(old(docs), queue[..i])
      {
        AppliedOne(old(docs), queue, i);
        match queue[i]
        case AddOp(k, d) => Add(k, d);
        case RemoveOp(k) => Remove(k);
      }
      assert queue[..|queue|] == queue;
    }

    /** Put what is staged in place of the base: in memory, or by writing a new postings file. */
    method SwitchBase() returns (ok: bool)
      requires buildQueue.Some? && StagedOk()
      modifies `memBase, `postings, `pf
      ensures ok ==> Readable() && forall t :: BaseOf(t) == Get(agg, t)
      ensures ok <==> !onDisk || FitsFile(agg, |newKeys|)
      ensures !ok ==> memBase == old(memBase) && postings == old(postings) && pf == old(pf)
    {
      hide StagedOk, IdsOk, ReadPostings, ToMap, StagedPosts, Small, Itemized, Indexed, Get, FitsFile;
      StagedParts();
      if !onDisk {
        memBase := agg;
        return true;
      }
      StagedIsSmall(agg, newKeys, newKeyToId, newDocLen, stagedDocs);
      var items := ItemsOf(agg, |newKeys|);
      ItemizedParts(agg, |newKeys|, items);
      var file, dict;
      ok, file, dict := Rebuild(items);
      if !ok { return; }
      pf := Some(file);
      postings := dict;
      forall t ensures BaseOf(t) == Get(agg, t) { DictFinds(agg, |newKeys|, items, file, dict, t); }
      DictReadable(items, file, dict);
    }

    /** End a build: write the postings (on disk), swap, replay. The result is exact for the current
        documents less those the stream left out, as if every write of the meantime had come after the build;
        so if it left out expired records only, exactly those that nothing wrote since are gone. When the
        postings do not fit the file format, the old index stays. */
    method Swap() returns (ok: bool)
      requires Valid() && buildQueue.Some?
      modifies this
      ensures Valid() && buildQueue == None && docs == if ok then old(docs) - old(Missed()) else old(docs)
      ensures ok <==> !onDisk || FitsFile(old(agg), |old(newKeys)|)
    {
      hide LiveOk, IdsOk, Applied, FitsFile;
      var queue := buildQueue.value;
      ReplayIsCurrent(startDocs, stagedDocs, docs, queue);
      ok := SwitchBase();
      if !ok {
        FailBuild();
        return;
      }
      Install();
      ReplayQueue(queue);
    }

    // ---- When a rebuild would change nothing -------------------------------------------------

    method NeedsRebuild() returns (r: bool)
      requires Valid()
      ensures r == (buildQueue == None && (deltaCount > 0 || removed != {}))
    {
      r := buildQueue == None && (deltaCount > 0 || removed != {});
    }

    /** Outside a build, an index that needs no rebuild is exact in its base alone. */
    lemma FreshIsExact(t: Term, id: nat)
      requires Valid() && deltaCount == 0 && removed == {}
      ensures id in BaseOf(t) <==> FreqAt(keys, docs, id, t) > 0
      ensures id in BaseOf(t) ==> BaseOf(t)[id] == FreqAt(keys, docs, id, t)
    {
      assert At(t, id);
      assert PairsOf(delta) == {};
      PairIn(delta, (t, id));
    }
  }
}
