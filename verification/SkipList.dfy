/** The skip list (skiplist.ts): linked towers with spans, refining a sorted sequence whatever heights
    are drawn. */
module SkipLists {
  import opened Sorted
  import opened Towers

  const MAX_LEVEL := 32

  class Node {
    const entry: Entry
    const height: nat
    var forward: seq<Node?>
    var span: seq<nat>
    var backward: Node?

    constructor (entry: Entry, height: nat)
      ensures this.entry == entry && this.height == height && Shaped()
      ensures forall i :: 0 <= i < height ==> forward[i] == null && span[i] == 0
      ensures backward == null
    {
      this.entry, this.height := entry, height;
      forward, span, backward := seq(height, _ => null), seq(height, _ => 0), null;
    }

    /** Set one level's link and span. */
    method Point(i: nat, to: Node?, distance: nat)
      requires Shaped() && i < height
      modifies `forward, `span
      ensures forward == old(forward)[i := to] && span == old(span)[i := distance]
    {
      forward := forward[i := to];
      span := span[i := distance];
    }

    ghost predicate Shaped()
      reads this`forward, this`span
    {
      |forward| == height && |span| == height
    }
  }

  ghost function Heights(nodes: seq<Node>): (hs: seq<nat>)
    ensures |hs| == |nodes| && forall p :: 0 <= p < |nodes| ==> hs[p] == nodes[p].height
  {
    seq(|nodes|, p requires 0 <= p < |nodes| => nodes[p].height)
  }

  ghost function NodeAt(nodes: seq<Node>, q: nat): Node? { if q < |nodes| then nodes[q] else null }

  /** The node that the one at `p` must point to on level `i`, and how far away it must be. */
  ghost function Succ(nodes: seq<Node>, p: nat, i: nat): Node?
    requires p < |nodes|
  {
    NodeAt(nodes, Next(Heights(nodes), p, i))
  }

  ghost function Dist(nodes: seq<Node>, p: nat, i: nat): nat
    requires p < |nodes|
  {
    Gap(Heights(nodes), p, i)
  }

  ghost predicate LinkOk(nodes: seq<Node>, p: nat, i: nat)
    reads nodes`forward, nodes`span
    requires p < |nodes|
  {
    && nodes[p].Shaped() && i < nodes[p].height
    && nodes[p].forward[i] == Succ(nodes, p, i)
    && nodes[p].span[i] == Dist(nodes, p, i)
  }

  /** Level `i` links exactly the nodes that reach it, in order, with exact spans. */
  ghost predicate LevelOk(nodes: seq<Node>, i: nat)
    reads nodes`forward, nodes`span
  {
    forall p :: 0 <= p < |nodes| && i < nodes[p].height ==> LinkOk(nodes, p, i)
  }

  ghost predicate AllShaped(nodes: seq<Node>)
    reads nodes`forward, nodes`span
  {
    forall p :: 0 <= p < |nodes| ==> nodes[p].Shaped()
  }

  ghost predicate Distinct(nodes: seq<Node>) { forall p, q :: 0 <= p < q < |nodes| ==> Differ(nodes, p, q) }

  ghost predicate Differ(nodes: seq<Node>, p: nat, q: nat)
    requires p < |nodes| && q < |nodes|
  {
    nodes[p] != nodes[q]
  }

  lemma DistinctAt(nodes: seq<Node>, p: nat, q: nat)
    requires Distinct(nodes) && p < |nodes| && q < |nodes| && p != q
    ensures nodes[p] != nodes[q]
  {
    assert Differ(nodes, if p < q then p else q, if p < q then q else p);
  }

  lemma JoinedDistinct(nodes: seq<Node>, k: nat, x: Node)
    requires Distinct(nodes) && k < |nodes| && x !in nodes
    ensures Distinct(Joined(nodes, k, x))
  {
    var all := Joined(nodes, k, x);
    forall p, q | 0 <= p < q < |all| ensures Differ(all, p, q) {
      var p', q' := if p <= k then p else p - 1, if q <= k then q else q - 1;
      if p != k + 1 && q != k + 1 { DistinctAt(nodes, p', q'); }
    }
  }

  ghost function Joined(nodes: seq<Node>, k: nat, x: Node): seq<Node>
    requires k < |nodes|
  {
    nodes[..k + 1] + [x] + nodes[k + 1..]
  }

  /** The node that looks past place `k` on level `i`. */
  ghost function Pred(nodes: seq<Node>, k: nat, i: nat): (r: nat)
    requires k < |nodes| && nodes[0].height > i
    ensures r <= k && nodes[r].height > i
  {
    Prev(Heights(nodes), k, i)
  }

  lemma JoinedFrom(nodes: seq<Node>, k: nat, x: Node)
    requires k < |nodes|
    ensures forall n :: n in Joined(nodes, k, x) <==> n in nodes || n == x
  {
    var all := Joined(nodes, k, x);
    forall n | n in nodes ensures n in all {
      var p :| 0 <= p < |nodes| && nodes[p] == n;
      assert all[if p <= k then p else p + 1] == n;
    }
    assert all[k + 1] == x;
  }

  lemma JoinedPlaces(nodes: seq<Node>, k: nat, x: Node, p: nat)
    requires k < |nodes| && p <= |nodes|
    ensures |Joined(nodes, k, x)| == |nodes| + 1
    ensures Joined(nodes, k, x)[p] == if p <= k then nodes[p] else if p == k + 1 then x else nodes[p - 1]
  {
  }

  lemma JoinedShape(nodes: seq<Node>, k: nat, x: Node)
    requires k < |nodes|
    ensures Heights(Joined(nodes, k, x)) == Grown(Heights(nodes), k, x.height)
    ensures |Joined(nodes, k, x)| == |nodes| + 1
    ensures NodeAt(Joined(nodes, k, x), k + 1) == x
  {
  }

  lemma JoinedNodeAt(nodes: seq<Node>, k: nat, x: Node, q: nat)
    requires k < |nodes|
    ensures NodeAt(Joined(nodes, k, x), if q <= k then q else q + 1) == NodeAt(nodes, q)
  {
  }

  /** How a node joined behind place `k` changes what must be linked on a level. */
  lemma JoinedLinks(nodes: seq<Node>, k: nat, x: Node, i: nat, p: nat)
    requires k < |nodes| && nodes[0].height > i && p < |nodes| && nodes[p].height > i
    ensures |Joined(nodes, k, x)| == |nodes| + 1
    ensures var all, r := Joined(nodes, k, x), Pred(nodes, k, i);
            && (p <= k && p != r ==> Succ(all, p, i) == Succ(nodes, p, i) && Dist(all, p, i) == Dist(nodes, p, i))
            && (p > k ==> Succ(all, p + 1, i) == Succ(nodes, p, i) && Dist(all, p + 1, i) == Dist(nodes, p, i))
  {
    hide Next, Prev, Heights, Joined, NodeAt, Grown;
    var hs := Heights(nodes);
    JoinedShape(nodes, k, x);
    JoinedNodeAt(nodes, k, x, Next(hs, p, i));
    if p <= k {
      NextInFront(hs, k, x.height, p, i);
      LooksPast(hs, k, p, i);
    } else {
      NextBehind(hs, k, x.height, p, i);
    }
  }

  lemma JoinedAtPlace(nodes: seq<Node>, k: nat, x: Node, i: nat)
    requires k < |nodes| && nodes[0].height > i
    ensures |Joined(nodes, k, x)| == |nodes| + 1
    ensures var all, r := Joined(nodes, k, x), Pred(nodes, k, i);
            && Dist(nodes, r, i) >= k - r
            && (if x.height > i then Succ(all, r, i) == x && Dist(all, r, i) == k - r + 1
                else Succ(all, r, i) == Succ(nodes, r, i) && Dist(all, r, i) == Dist(nodes, r, i) + 1)
            && Succ(all, k + 1, i) == Succ(nodes, r, i) && Dist(all, k + 1, i) == Dist(nodes, r, i) - (k - r)
  {
    hide Next, Prev, Heights, Joined, NodeAt, Grown;
    var hs, r := Heights(nodes), Pred(nodes, k, i);
    JoinedShape(nodes, k, x);
    JoinedNodeAt(nodes, k, x, Next(hs, k, i));
    NextInFront(hs, k, x.height, r, i);
    LooksPast(hs, k, r, i);
    NextOfPrev(hs, k, i);
    NextBehind(hs, k, x.height, k, i);
  }

  // ---- One level at a time -------------------------------------------------------------------

  /** Link a new node into one level behind the node that looks past its place. */
  method SpliceLevel(u: Node, x: Node, i: nat, d: nat, ghost nodes: seq<Node>, ghost k: nat, ghost all: seq<Node>)
    requires k < |nodes| && Distinct(nodes) && x !in nodes && AllShaped(nodes) && x.Shaped()
    requires all == Joined(nodes, k, x) && LevelOk(nodes, i) && nodes[0].height > i && x.height > i
    requires u == nodes[Pred(nodes, k, i)] && d == k - Pred(nodes, k, i)
    modifies u`forward, u`span, x`forward, x`span
    ensures AllShaped(nodes) && x.Shaped()
    ensures LevelOk(all, i)
    ensures forall j :: j != i && old(LevelOk(nodes, j)) ==> LevelOk(nodes, j)
    ensures forall j :: j != i && old(LevelOk(all, j)) ==> LevelOk(all, j)
    ensures forall j :: 0 <= j < u.height && j != i ==> u.forward[j] == old(u.forward[j])
  {
    hide Succ, Dist, Pred, Distinct, Joined;
    ghost var r := Pred(nodes, k, i);
    assert LinkOk(nodes, r, i);
    JoinedAtPlace(nodes, k, x, i);
    JoinedFrom(nodes, k, x);
    x.Point(i, u.forward[i], u.span[i] - d);
    u.Point(i, x, d + 1);
    forall p: nat | p < |all| && i < all[p].height ensures LinkOk(all, p, i) {
      JoinedPlaces(nodes, k, x, p);
      if p != r && p != k + 1 { DistinctAt(nodes, r, if p <= k then p else p - 1); }
      if p <= k {
        JoinedLinks(nodes, k, x, i, p);
      } else if p > k + 1 {
        JoinedLinks(nodes, k, x, i, p - 1);
      }
    }
  }

  /** A level that the new node does not reach only gets a longer span over its place. */
  method BumpLevel(u: Node, x: Node, i: nat, ghost nodes: seq<Node>, ghost k: nat)
    requires k < |nodes| && Distinct(nodes) && x !in nodes && AllShaped(nodes) && x.Shaped()
    requires LevelOk(nodes, i) && nodes[0].height > i && x.height <= i
    requires u == nodes[Pred(nodes, k, i)]
    modifies u`span
    ensures AllShaped(nodes) && x.Shaped()
    ensures LevelOk(Joined(nodes, k, x), i)
    ensures forall j :: j != i && old(LevelOk(nodes, j)) ==> LevelOk(nodes, j)
    ensures forall j :: j != i && old(LevelOk(Joined(nodes, k, x), j)) ==> LevelOk(Joined(nodes, k, x), j)
  {
    hide Succ, Dist, Pred;
    ghost var all, r := Joined(nodes, k, x), Pred(nodes, k, i);
    assert LinkOk(nodes, r, i);
    JoinedAtPlace(nodes, k, x, i);
    u.span := u.span[i := u.span[i] + 1];
    forall p: nat | p < |all| && i < all[p].height ensures LinkOk(all, p, i) {
      if p != r && p != k + 1 { DistinctAt(nodes, r, if p <= k then p else p - 1); }
      if p <= k {
        JoinedLinks(nodes, k, x, i, p);
      } else {
        JoinedLinks(nodes, k, x, i, p - 1);
      }
    }
  }

  lemma ElsewhereInRest(nodes: seq<Node>, k: nat, x: Node, i: nat)
    requires k < |nodes| && nodes[0].height > i && x !in nodes
    ensures Succ(nodes, Pred(nodes, k, i), i) != x
  {
  }

  /** Take a node out of one level: unlink it if it is there, else shorten the span over its place. */
  method UnspliceLevel(u: Node, x: Node, i: nat, ghost nodes: seq<Node>, ghost k: nat)
    requires k < |nodes| && Distinct(nodes) && x !in nodes && AllShaped(nodes) && x.Shaped()
    requires LevelOk(Joined(nodes, k, x), i) && nodes[0].height > i
    requires u == nodes[Pred(nodes, k, i)]
    modifies u`forward, u`span
    ensures AllShaped(nodes) && x.Shaped()
    ensures LevelOk(nodes, i)
    ensures forall j :: j != i && old(LevelOk(nodes, j)) ==> LevelOk(nodes, j)
    ensures forall j :: j != i && old(LevelOk(Joined(nodes, k, x), j)) ==> LevelOk(Joined(nodes, k, x), j)
    ensures forall j :: 0 <= j < u.height && j != i ==> u.forward[j] == old(u.forward[j])
  {
    hide Succ, Dist, Pred;
    ghost var all, r := Joined(nodes, k, x), Pred(nodes, k, i);
    assert all[r] == u && all[k + 1] == x;
    assert LinkOk(all, r, i);
    if x.height > i { assert LinkOk(all, k + 1, i); }
    JoinedAtPlace(nodes, k, x, i);
    ElsewhereInRest(nodes, k, x, i);
    if u.forward[i] == x {
      u.Point(i, x.forward[i], u.span[i] + x.span[i] - 1);
    } else {
      u.span := u.span[i := u.span[i] - 1];
    }
    forall p: nat | p < |nodes| && i < nodes[p].height ensures LinkOk(nodes, p, i) {
      JoinedLinks(nodes, k, x, i, p);
      if p != r { DistinctAt(nodes, r, p); }
      if p != r { assert old(LinkOk(all, if p <= k then p else p + 1, i)); }
    }
  }

  // ---- The list ------------------------------------------------------------------------------

  /** Each node but the first points back to the one in front of it. */
  ghost predicate BackOk(nodes: seq<Node>)
    reads nodes`backward
  {
    forall p :: 1 <= p < |nodes| ==> nodes[p].backward == if p == 1 then null else nodes[p - 1]
  }

  ghost function EntriesOf(nodes: seq<Node>): (es: seq<Entry>)
    requires nodes != []
    ensures |es| == |nodes| - 1 && forall p :: 1 <= p < |nodes| ==> es[p - 1] == nodes[p].entry
  {
    seq(|nodes| - 1, p requires 0 <= p < |nodes| - 1 => nodes[p + 1].entry)
  }

  /** The header first, no node twice, none taller than the levels in use. */
  ghost predicate RowsOk(nodes: seq<Node>, header: Node, level: nat) {
    && nodes != [] && nodes[0] == header && Distinct(nodes) && 1 <= level <= MAX_LEVEL == header.height
    && forall p :: 1 <= p < |nodes| ==> 1 <= nodes[p].height <= level
  }

  /** Every level in use is linked with exact spans, and the header points nowhere above them. */
  ghost predicate LevelsOk(nodes: seq<Node>, level: nat)
    reads nodes`forward, nodes`span
  {
    && AllShaped(nodes)
    && (forall i :: 0 <= i < level ==> LevelOk(nodes, i))
    && (nodes != [] ==> forall i :: level <= i < nodes[0].height ==> nodes[0].forward[i] == null)
  }

  /** Some node needs all the levels in use. */
  ghost predicate Tight(nodes: seq<Node>, level: nat) {
    level == 1 || exists p :: 1 <= p < |nodes| && nodes[p].height == level
  }

  ghost function LastOf(nodes: seq<Node>): Node? { if |nodes| <= 1 then null else nodes[|nodes| - 1] }

  // ---- Joining a node, as a whole --------------------------------------------------------------

  lemma JoinedRows(nodes: seq<Node>, header: Node, level: nat, k: nat, x: Node)
    requires RowsOk(nodes, header, level) && k < |nodes| && x !in nodes && 1 <= x.height <= level
    ensures RowsOk(Joined(nodes, k, x), header, level)
    ensures Tight(nodes, level) || x.height == level ==> Tight(Joined(nodes, k, x), level)
    ensures EntriesOf(Joined(nodes, k, x)) == InsertAt(EntriesOf(nodes), k, x.entry)
  {
    JoinedDistinct(nodes, k, x);
    var all := Joined(nodes, k, x);
    assert forall p :: 0 <= p < |all| ==> all[p] == if p <= k then nodes[p] else if p == k + 1 then x else nodes[p - 1];
    if x.height == level {
      assert all[k + 1].height == level;
    } else if level > 1 && Tight(nodes, level) {
      var p :| 1 <= p < |nodes| && nodes[p].height == level;
      assert all[if p <= k then p else p + 1] == nodes[p];
    }
  }

  /** Where the nodes of the joined row come from. */
  lemma JoinedAt(nodes: seq<Node>, k: nat, x: Node, p: nat)
    requires nodes != [] && Distinct(nodes) && x !in nodes && k < |nodes| && 1 <= p <= |nodes|
    ensures var all := Joined(nodes, k, x);
            && |all| == |nodes| + 1 && all[k] == nodes[k] && all[k + 1] == x
            && (p <= k ==> all[p] == nodes[p] && all[p - 1] == nodes[p - 1])
            && (p > k + 1 ==> all[p] == nodes[p - 1] && all[p] != x)
            && (p > k + 2 ==> all[p - 1] == nodes[p - 2])
            && (k + 2 < |all| && p != k + 2 ==> all[p] != nodes[k + 1])
            && (p <= k ==> all[p] != x)
  {
    if k + 1 < |nodes| && p != k + 2 && p != k + 1 { DistinctAt(nodes, k + 1, if p <= k then p else p - 1); }
  }

  lemma RowsFacts(nodes: seq<Node>, header: Node, level: nat)
    requires RowsOk(nodes, header, level)
    ensures nodes != [] && nodes[0] == header && Distinct(nodes) && 1 <= level <= header.height == MAX_LEVEL
  {
  }

  lemma BottomLink(nodes: seq<Node>, header: Node, level: nat, p: nat)
    requires RowsOk(nodes, header, level) && LevelsOk(nodes, level) && p < |nodes|
    ensures |nodes[p].forward| > 0 && nodes[p].forward[0] == NodeAt(nodes, p + 1)
  {
    assert LevelOk(nodes, 0);
    assert LinkOk(nodes, p, 0);
    NextIs(Heights(nodes), p, 0, p + 1);
  }

  lemma PredAtBottom(nodes: seq<Node>, header: Node, level: nat, k: nat)
    requires RowsOk(nodes, header, level) && k < |nodes|
    ensures Pred(nodes, k, 0) == k
  {
  }

  lemma PredAboveAll(nodes: seq<Node>, header: Node, level: nat, k: nat, i: nat)
    requires RowsOk(nodes, header, level) && k < |nodes| && level <= i < MAX_LEVEL
    ensures Pred(nodes, k, i) == 0
  {
  }

  class SkipList {
    const header: Node
    var tail: Node?
    var length: nat
    var level: nat

    /** The header, then the nodes in order. */
    ghost var nodes: seq<Node>

    ghost predicate Valid()
      reads this, nodes
    {
      Linked() && Backed() && Tight(nodes, level) && IsSorted(Entries())
    }

    ghost predicate Linked()
      reads this, nodes`forward, nodes`span
    {
      RowsOk(nodes, header, level) && LevelsOk(nodes, level) && |nodes| == length + 1
    }

    ghost predicate Backed()
      reads this, nodes`backward
    {
      BackOk(nodes) && tail == LastOf(nodes)
    }

    /** The sequence that the list stands for. */
    ghost function Entries(): seq<Entry>
      reads this
      requires nodes != []
    {
      EntriesOf(nodes)
    }

    constructor ()
      ensures Valid() && Entries() == [] && fresh(nodes)
    {
      header := new Node(Entry(Num(0.0), ""), MAX_LEVEL);
      tail, length, level := null, 0, 1;
      nodes := [header];
      new;
      assert LevelOk(nodes, 0) by { assert LinkOk(nodes, 0, 0); }
    }

    // ---- Searching ---------------------------------------------------------------------------

    lemma InIsInFront(cut: Cut, p: nat)
      requires Valid() && 1 <= p < |nodes|
      ensures In(cut, nodes[p].entry) <==> p <= Count(cut, Entries())
    {
      CountSplits(cut, Entries(), p - 1);
    }

    /** What a node sees on a level in use: the next node that reaches it, at its span's distance. */
    lemma SeesNext(i: nat, r: nat)
      requires Linked() && i < level && r < |nodes| && nodes[r].height > i
      ensures i < |nodes[r].forward| && i < |nodes[r].span|
      ensures var q := Next(Heights(nodes), r, i);
              && nodes[r].forward[i] == NodeAt(nodes, q) && r < q <= |nodes|
              && (q < |nodes| ==> nodes[r].span[i] == q - r && nodes[q].height > i)
              && forall k :: r <= k < |nodes| ==> (q > k <==> r == Pred(nodes, k, i))
    {
      assert LevelOk(nodes, i);
      assert LinkOk(nodes, r, i);
      forall k | r <= k < |nodes| ensures Next(Heights(nodes), r, i) > k <==> r == Pred(nodes, k, i) {
        LooksPast(Heights(nodes), k, r, i);
      }
    }

    lemma Shape(cut: Cut)
      requires Valid()
      ensures Count(cut, Entries()) < |nodes| && header == nodes[0] && 1 <= level <= MAX_LEVEL == header.height
      ensures Linked() && length == |Entries()| == |nodes| - 1
    {
    }

    /** Walk along one level as long as the next node lies in front of the cut. */
    method Walk(cut: Cut, i: nat, from: Node, start: nat) returns (x: Node, rank: nat)
      requires Valid() && i < level && start <= Count(cut, Entries())
      requires from == nodes[start] && from.height > i
      ensures rank <= Count(cut, Entries()) && rank == Pred(nodes, Count(cut, Entries()), i) && x == nodes[rank]
    {
      hide Valid, Linked, In, Count, Next, Heights, Pred;
      Shape(cut);
      ghost var k := Count(cut, Entries());
      x, rank := from, start;
      SeesNext(i, rank);
      while x.forward[i] != null && In(cut, x.forward[i].entry)
        invariant rank <= k && x == nodes[rank] && x.height > i && i < |x.forward| && i < |x.span|
        decreases |nodes| - rank
      {
        SeesNext(i, rank);
        InIsInFront(cut, Next(Heights(nodes), rank, i));
        rank := rank + x.span[i];
        x := x.forward[i];
        SeesNext(i, rank);
      }
      SeesNext(i, rank);
      if x.forward[i] != null { InIsInFront(cut, Next(Heights(nodes), rank, i)); }
    }

    /** On every level in use, the node that looks past place `k`, and its rank. */
    ghost predicate PathOk(update: seq<Node>, rank: seq<nat>, k: nat)
      reads this
      requires k < |nodes| && nodes[0].height >= level
    {
      && |update| == |rank| == level
      && forall i :: 0 <= i < level ==> rank[i] == Pred(nodes, k, i) && update[i] == nodes[rank[i]]
    }

    /** The descent of a search, remembering where it left each level. */
    method FindPath(cut: Cut) returns (update: seq<Node>, rank: seq<nat>)
      requires Valid()
      ensures Count(cut, Entries()) < |nodes| && nodes[0].height >= level
      ensures PathOk(update, rank, Count(cut, Entries()))
    {
      hide Valid, Linked, In, Count, Pred;
      Shape(cut);
      update, rank := seq(level, _ => header), seq(level, _ => 0);
      var x, r: nat, i := header, 0, level;
      while i > 0
        invariant 0 <= i <= level && |update| == |rank| == level
        invariant r <= Count(cut, Entries()) && x == nodes[r] && x.height >= i
        invariant forall j :: i <= j < level ==>
          rank[j] == Pred(nodes, Count(cut, Entries()), j) && update[j] == nodes[rank[j]]
      {
        i := i - 1;
        x, r := Walk(cut, i, x, r);
        update, rank := update[i := x], rank[i := r];
      }
    }

    // ---- Inserting ---------------------------------------------------------------------------

    /** A level that comes into use: the header spans the whole list there. */
    method OpenLevel(i: nat)
      requires nodes != [] && nodes[0] == header && Distinct(nodes) && AllShaped(nodes) && |nodes| == length + 1
      requires i < header.height && header.forward[i] == null && forall p :: 1 <= p < |nodes| ==> nodes[p].height <= i
      modifies header`span
      ensures AllShaped(nodes) && LevelOk(nodes, i)
      ensures forall j :: j != i && old(LevelOk(nodes, j)) ==> LevelOk(nodes, j)
    {
      header.span := header.span[i := length];
      forall p: nat | p < |nodes| && i < nodes[p].height ensures LinkOk(nodes, p, i) {
        NextIs(Heights(nodes), 0, i, |nodes|);
      }
    }

    /** Bring levels into use up to `lvl`, and the path with them. */
    method Grow(lvl: nat, update: seq<Node>, rank: seq<nat>, ghost k: nat) returns (update': seq<Node>, rank': seq<nat>)
      requires Linked() && level <= lvl <= MAX_LEVEL && k < |nodes| && PathOk(update, rank, k)
      modifies `level, header`span
      ensures Linked() && level == lvl && PathOk(update', rank', k)
    {
      hide LevelOk, Pred;
      update', rank' := update, rank;
      for i := level to lvl
        invariant AllShaped(nodes) && level == old(level) && |update'| == |rank'| == i
        invariant forall j :: 0 <= j < i ==> LevelOk(nodes, j)
        invariant forall j :: 0 <= j < i ==> rank'[j] == Pred(nodes, k, j) && update'[j] == nodes[rank'[j]]
      {
        PredAboveAll(nodes, header, level, k, i);
        OpenLevel(i);
        update', rank' := update' + [header], rank' + [0];
      }
      level := lvl;
    }

    /** Link a new node in behind place `k`, level by level, along the path of the search. */
    method LinkIn(x: Node, update: seq<Node>, rank: seq<nat>, ghost k: nat)
      requires Linked() && k < |nodes| && x !in nodes && x.Shaped() && 1 <= x.height <= level && PathOk(update, rank, k)
      modifies nodes`forward, nodes`span, x`forward, x`span
      ensures LevelsOk(Joined(nodes, k, x), level)
    {
      hide LevelOk, Pred;
      PredAtBottom(nodes, header, level, k);
      for i := 0 to x.height
        invariant AllShaped(nodes) && x.Shaped()
        invariant forall j :: 0 <= j < i ==> LevelOk(Joined(nodes, k, x), j)
        invariant forall j :: i <= j < level ==> LevelOk(nodes, j)
        invariant forall j :: level <= j < MAX_LEVEL ==> header.forward[j] == null
      {
        SpliceLevel(update[i], x, i, rank[0] - rank[i], nodes, k, Joined(nodes, k, x));
      }
      for i := x.height to level
        invariant AllShaped(nodes) && x.Shaped()
        invariant forall j :: 0 <= j < i ==> LevelOk(Joined(nodes, k, x), j)
        invariant forall j :: i <= j < level ==> LevelOk(nodes, j)
        invariant forall j :: level <= j < MAX_LEVEL ==> header.forward[j] == null
      {
        BumpLevel(update[i], x, i, nodes, k);
      }
    }

    /** Hook the new node into the backward chain. */
    method LinkBack(x: Node, first: bool, u: Node, ghost k: nat)
      requires Backed() && Distinct(nodes) && k < |nodes| && x !in nodes
      requires x.forward != [] && x.forward[0] == NodeAt(Joined(nodes, k, x), k + 2)
      requires u == nodes[k] && first == (k == 0)
      modifies nodes`backward, x`backward, `tail
      ensures BackOk(Joined(nodes, k, x)) && tail == LastOf(Joined(nodes, k, x))
    {
      ghost var all := Joined(nodes, k, x);
      JoinedAt(nodes, k, x, |nodes|);
      if k + 2 < |all| { JoinedAt(nodes, k, x, k + 2); }
      x.backward := if first then null else u;
      if x.forward[0] != null {
        x.forward[0].backward := x;
      } else {
        tail := x;
      }
      forall p | 1 <= p < |all| ensures all[p].backward == if p == 1 then null else all[p - 1] {
        JoinedAt(nodes, k, x, p);
      }
      assert forall p :: 1 <= p < |all| ==> all[p].backward == if p == 1 then null else all[p - 1];
      assert BackOk(all);
    }

    /** Link a new node in behind place `k`. */
    method Place(x: Node, update: seq<Node>, rank: seq<nat>, ghost k: nat)
      requires Linked() && Backed() && k < |nodes| && x !in nodes && x.Shaped() && 1 <= x.height <= level
      requires PathOk(update, rank, k)
      modifies this`tail, this`length, this`nodes, nodes, x
      ensures Linked() && Backed() && nodes == Joined(old(nodes), k, x)
    {
      hide RowsOk, LevelsOk, Joined, Pred, BackOk, LastOf;
      RowsFacts(nodes, header, level);
      ghost var all := Joined(nodes, k, x);
      PredAtBottom(nodes, header, level, k);
      JoinedRows(nodes, header, level, k, x);
      JoinedAt(nodes, k, x, |nodes|);
      LinkIn(x, update, rank, k);
      BottomLink(all, header, level, k + 1);
      if k > 0 { DistinctAt(nodes, 0, k); }
      assert LevelsOk(all, level);
      LinkBack(x, update[0] == header, update[0], k);
      assert LevelsOk(all, level);
      length := length + 1;
      nodes := all;
      assert LevelsOk(nodes, level);
    }

    /** Any height from one to the limit. */
    method RandomLevel() returns (lvl: nat)
      ensures 1 <= lvl <= MAX_LEVEL
    {
      lvl := 1;
      while lvl < MAX_LEVEL
        invariant 1 <= lvl <= MAX_LEVEL
      {
        if * { break; }
        lvl := lvl + 1;
      }
    }

    /** Insert an entry into its place, under a node of any height. */
    method Insert(key: Scalar, val: string)
      requires Valid()
      modifies this, nodes
      ensures Valid() && Entries() == Inserted(old(Entries()), Entry(key, val))
      ensures forall n :: n in nodes ==> n in old(nodes) || fresh(n)
    {
      hide RowsOk, LevelsOk, BackOk, Pred, Joined, LastOf, IsSorted, Count, PathOk;
      RowsFacts(nodes, header, level);
      var e := Entry(key, val);
      ghost var k, es := Count(Before(e), Entries()), Entries();
      InsertedIsSorted(es, e);
      var update, rank := FindPath(Before(e));
      var lvl := RandomLevel();
      if lvl > level { update, rank := Grow(lvl, update, rank, k); }
      var x := new Node(e, lvl);
      JoinedRows(nodes, header, level, k, x);
      ghost var before := nodes;
      Place(x, update, rank, k);
      assert forall n :: n in nodes ==> n in before || n == x by { JoinedFrom(before, k, x); }
    }

    // ---- Removing ----------------------------------------------------------------------------

    /** Take a node out of every level, along the path of the search. */
    method LinkOut(x: Node, update: seq<Node>, ghost rest: seq<Node>, ghost k: nat)
      requires Linked() && k < |rest| && x !in rest && nodes == Joined(rest, k, x) && RowsOk(rest, header, level)
      requires |update| == level && forall i :: 0 <= i < level ==> update[i] == rest[Pred(rest, k, i)]
      modifies nodes`forward, nodes`span
      ensures LevelsOk(rest, level) && x.Shaped() && x.forward == old(x.forward)
    {
      hide LevelOk, Pred, Distinct;
      JoinedFrom(rest, k, x);
      assert nodes[k + 1] == x;
      assert forall p :: 0 <= p < |rest| ==> rest[p] == nodes[if p <= k then p else p + 1];
      for i := 0 to level
        invariant AllShaped(rest) && x.Shaped() && x.forward == old(x.forward)
        invariant forall j :: 0 <= j < i ==> LevelOk(rest, j)
        invariant forall j :: i <= j < level ==> LevelOk(Joined(rest, k, x), j)
        invariant forall j :: level <= j < MAX_LEVEL ==> header.forward[j] == null
      {
        assert update[i] in rest;
        UnspliceLevel(update[i], x, i, rest, k);
      }
    }

    /** Take a node out of the backward chain. */
    method UnlinkBack(x: Node, ghost rest: seq<Node>, ghost k: nat)
      requires Backed() && Distinct(rest) && k < |rest| && x !in rest && nodes == Joined(rest, k, x)
      requires x.forward != [] && x.forward[0] == NodeAt(rest, k + 1)
      modifies nodes`backward, `tail
      ensures BackOk(rest) && tail == LastOf(rest)
    {
      JoinedAt(rest, k, x, |rest|);
      JoinedAt(rest, k, x, k + 1);
      assert x == nodes[k + 1];
      JoinedFrom(rest, k, x);
      if k + 1 < |rest| { assert x.forward[0] == rest[k + 1] && rest[k + 1] in nodes; }
      if x.forward[0] != null {
        x.forward[0].backward := x.backward;
      } else {
        tail := x.backward;
      }
      forall p | 1 <= p < |rest| ensures rest[p].backward == if p == 1 then null else rest[p - 1] {
        if p != k + 1 && k + 1 < |rest| { DistinctAt(rest, p, k + 1); }
        JoinedAt(rest, k, x, if p <= k then p else p + 1);
      }
      assert forall p :: 1 <= p < |rest| ==> rest[p].backward == if p == 1 then null else rest[p - 1];
      assert BackOk(rest);
    }

    static lemma RestShape(rest: seq<Node>, k: nat, x: Node)
      requires k < |rest|
      ensures var all := Joined(rest, k, x);
              && |all| == |rest| + 1 && all[k + 1] == x
              && forall p :: 0 <= p < |rest| ==> rest[p] == all[if p <= k then p else p + 1]
    {
    }

    static lemma RestDistinct(rest: seq<Node>, k: nat, x: Node)
      requires k < |rest| && Distinct(Joined(rest, k, x))
      ensures Distinct(rest) && x !in rest
    {
      hide Joined;
      RestShape(rest, k, x);
      var all := Joined(rest, k, x);
      forall p, q | 0 <= p < q < |rest| ensures Differ(rest, p, q) {
        DistinctAt(all, if p <= k then p else p + 1, if q <= k then q else q + 1);
      }
      forall p | 0 <= p < |rest| ensures rest[p] != x { DistinctAt(all, if p <= k then p else p + 1, k + 1); }
    }

    static lemma RestEntries(rest: seq<Node>, k: nat, x: Node)
      requires k < |rest|
      ensures EntriesOf(rest) == RemoveAt(EntriesOf(Joined(rest, k, x)), k)
    {
      hide Joined;
      RestShape(rest, k, x);
    }

    static lemma RestRows(rest: seq<Node>, header: Node, level: nat, k: nat, x: Node)
      requires k < |rest| && RowsOk(Joined(rest, k, x), header, level)
      ensures RowsOk(rest, header, level) && x !in rest
      ensures forall p :: 0 <= p <= k ==> rest[p] == Joined(rest, k, x)[p]
      ensures forall i :: 0 <= i < level ==> Pred(rest, k, i) == Pred(Joined(rest, k, x), k, i)
    {
      hide Joined, Distinct;
      RestShape(rest, k, x);
      RestDistinct(rest, k, x);
      forall i | 0 <= i < level ensures Pred(rest, k, i) == Pred(Joined(rest, k, x), k, i) {
        SamePrev(Heights(rest), Heights(Joined(rest, k, x)), k, i);
      }
    }

    static lemma RestNext(rest: seq<Node>, k: nat, x: Node)
      requires k < |rest|
      ensures |Joined(rest, k, x)| == |rest| + 1 && Joined(rest, k, x)[k + 1] == x
      ensures NodeAt(Joined(rest, k, x), k + 2) == NodeAt(rest, k + 1)
    {
    }

    lemma NobodyUp(i: nat)
      requires RowsOk(nodes, header, level) && LevelsOk(nodes, level) && i < level
      ensures |header.forward| == MAX_LEVEL
      ensures header.forward[i] == null ==> forall p :: 1 <= p < |nodes| ==> nodes[p].height <= i
      ensures header.forward[i] != null && i + 1 == level ==> Tight(nodes, level)
    {
      assert LevelOk(nodes, i);
      assert LinkOk(nodes, 0, i);
    }

    /** deleteNode: unlink, then give up levels that only the header reaches. */
    method DeleteNode(x: Node, update: seq<Node>, ghost rest: seq<Node>, ghost k: nat)
      requires Linked() && Backed() && k < |rest| && nodes == Joined(rest, k, x)
      requires |update| == level && forall i :: 0 <= i < level ==> update[i] == nodes[Pred(nodes, k, i)]
      modifies this, nodes
      ensures Linked() && Backed() && Tight(nodes, level) && nodes == rest
    {
      hide LevelsOk, RowsOk, Joined, Pred, BackOk, LastOf;
      RestRows(rest, header, level, k, x);
      JoinedFrom(rest, k, x);
      RowsFacts(rest, header, level);
      RestNext(rest, k, x);
      BottomLink(nodes, header, level, k + 1);
      LinkOut(x, update, rest, k);
      UnlinkBack(x, rest, k);
      assert LevelsOk(rest, level);
      nodes := rest;
      Shrink();
      length := length - 1;
    }

    method Shrink()
      requires RowsOk(nodes, header, level) && LevelsOk(nodes, level)
      modifies `level
      ensures RowsOk(nodes, header, level) && LevelsOk(nodes, level) && Tight(nodes, level)
    {
      hide AllShaped, LevelOk;
      NobodyUp(level - 1);
      while level > 1 && header.forward[level - 1] == null
        invariant RowsOk(nodes, header, level) && LevelsOk(nodes, level)
        decreases level
      {
        NobodyUp(level - 1);
        level := level - 1;
      }
      NobodyUp(level - 1);
    }

    /** Remove an entry if it is there, and say whether it was. */
    method Delete(key: Scalar, val: string) returns (found: bool)
      requires Valid()
      modifies this, nodes
      ensures Valid() && Entries() == Removed(old(Entries()), Entry(key, val))
      ensures found <==> Entry(key, val) in old(Entries())
      ensures forall n :: n in nodes ==> n in old(nodes)
    {
      hide RowsOk, LevelsOk, BackOk, Pred, Joined, LastOf, IsSorted, Count;
      RowsFacts(nodes, header, level);
      var e := Entry(key, val);
      ghost var k, es := Count(Before(e), Entries()), Entries();
      RemovedIsSorted(es, e);
      FoundAtCount(es, e);
      var update, rank := FindPath(Before(e));
      PredAtBottom(nodes, header, level, k);
      BottomLink(nodes, header, level, k);
      var last := update[0].forward[0];
      if last == null || last.entry != e { return false; }
      ghost var rest := nodes[..k + 1] + nodes[k + 2..];
      RestJoins(k);
      RestEntries(rest, k, last);
      JoinedFrom(rest, k, last);
      DeleteNode(last, update, rest, k);
      found := true;
    }

    lemma RestJoins(k: nat)
      requires k + 1 < |nodes|
      ensures Joined(nodes[..k + 1] + nodes[k + 2..], k, nodes[k + 1]) == nodes
    {
    }

    // ---- Reading -----------------------------------------------------------------------------

    lemma NodesAreEntries(p: nat)
      requires Valid() && 1 <= p < |nodes|
      ensures nodes[p].entry == Entries()[p - 1] && nodes[p] != header
    {
      DistinctAt(nodes, 0, p);
    }

    /** The last node in front of a cut, and its rank. */
    method Descend(cut: Cut) returns (x: Node, rank: nat)
      requires Valid()
      ensures rank == Count(cut, Entries()) < |nodes| && x == nodes[rank]
    {
      hide LevelsOk, Count, Pred;
      var update, ranks := FindPath(cut);
      PredAtBottom(nodes, header, level, Count(cut, Entries()));
      x, rank := update[0], ranks[0];
    }

    /** The first node behind a cut. */
    method LowerBound(cut: Cut) returns (x: Node?)
      requires Valid()
      ensures x == NodeAt(nodes, Count(cut, Entries()) + 1)
    {
      hide Count;
      var last, k := Descend(cut);
      BottomLink(nodes, header, level, k);
      x := last.forward[0];
    }

    /** The rank of an entry, or -1. */
    method GetRank(key: Scalar, val: string) returns (r: int)
      requires Valid()
      ensures r == RankOf(Entries(), Entry(key, val))
    {
      hide LevelsOk, BackOk, Count, IsSorted;
      var e := Entry(key, val);
      var x, rank := Descend(UpTo(e));
      if rank > 0 { NodesAreEntries(rank); }
      if e in Entries() { LastCopy(Entries(), e); }
      r := if x != header && x.entry == e then rank - 1 else -1;
    }

    static lemma LastCopy(es: seq<Entry>, e: Entry)
      requires IsSorted(es) && e in es
      ensures Count(UpTo(e), es) > 0 && es[Count(UpTo(e), es) - 1] == e
    {
      AtRank(es, e);
    }

    lemma RankFits(i: nat, r: nat, target: nat)
      requires Linked() && i < level && r <= target < |nodes| && nodes[r].height > i
      ensures i < |nodes[r].forward| && i < |nodes[r].span|
      ensures var f := nodes[r].forward[i];
              if f != null && r + nodes[r].span[i] <= target then
                r < r + nodes[r].span[i] < |nodes| && f == nodes[r + nodes[r].span[i]] && f.height > i
              else r == Pred(nodes, target, i)
    {
      SeesNext(i, r);
    }

    /** The entry at a rank, found by adding up spans. */
    method GetByRank(rank: int) returns (e: Entry, found: bool)
      requires Valid()
      ensures found <==> 0 <= rank < |Entries()|
      ensures found ==> e == Entries()[rank]
    {
      hide LevelsOk, RowsOk, BackOk, Pred, IsSorted;
      RowsFacts(nodes, header, level);
      e := header.entry;
      if rank < 0 || rank >= length { return e, false; }
      var target := rank + 1;
      var x, traversed: nat, i := header, 0, level;
      while i > 0
        invariant 0 <= i <= level && traversed <= target && x == nodes[traversed] && x.height >= i
        invariant i < level ==> traversed == Pred(nodes, target, i) && traversed != target
      {
        i := i - 1;
        RankFits(i, traversed, target);
        while x.forward[i] != null && traversed + x.span[i] <= target
          invariant traversed <= target && x == nodes[traversed] && x.height > i && i < |x.forward| && i < |x.span|
          decreases target - traversed
        {
          RankFits(i, traversed, target);
          traversed := traversed + x.span[i];
          x := x.forward[i];
          RankFits(i, traversed, target);
        }
        RankFits(i, traversed, target);
        if traversed == target {
          NodesAreEntries(target);
          return x.entry, true;
        }
      }
      PredAtBottom(nodes, header, level, target);
      assert false;
    }

    // ---- Ranges ------------------------------------------------------------------------------

    lemma NextNode(p: nat)
      requires Valid() && p < |nodes|
      ensures nodes[p].forward != [] && nodes[p].forward[0] == NodeAt(nodes, p + 1)
      ensures p > 0 ==> nodes[p].backward == if p == 1 then null else nodes[p - 1]
    {
      BottomLink(nodes, header, level, p);
    }

    /** The first entry within the lower bound. */
    method StartForward(lower: Bound) returns (x: Node?)
      requires Valid()
      ensures x == NodeAt(nodes, First(Entries(), lower) + 1)
    {
      match lower
      case Unbounded =>
        NextNode(0);
        x := header.forward[0];
      case Inclusive(k) => x := LowerBound(BeforeKey(k));
      case Exclusive(k) => x := LowerBound(UpToKey(k));
    }

    /** The last entry within the upper bound. */
    method StartBackward(upper: Bound) returns (x: Node?)
      requires Valid()
      ensures var b := After(Entries(), upper); b < |nodes| && x == if b == 0 then null else nodes[b]
    {
      hide LevelsOk, BackOk, IsSorted, Count;
      var after: Node? := null;
      match upper {
        case Unbounded =>
        case Inclusive(k) => after := LowerBound(UpToKey(k));
        case Exclusive(k) => after := LowerBound(BeforeKey(k));
      }
      if after == null {
        x := tail;
      } else {
        NextNode(After(Entries(), upper) + 1);
        x := after.backward;
      }
    }

    /** What a forward scan at node `p` still has in front of it. */
    ghost function Ahead(upper: Bound, p: nat): seq<Entry>
      reads this
      requires nodes != [] && p > 0
    {
      var b := After(Entries(), upper);
      if p - 1 <= b <= |Entries()| then Entries()[p - 1..b] else []
    }

    lemma AheadStep(upper: Bound, p: nat)
      requires Valid() && 1 <= p < |nodes|
      ensures if BelowUpper(upper, nodes[p].entry)
              then Ahead(upper, p) != [] && Ahead(upper, p)[0] == nodes[p].entry
                && Ahead(upper, p)[1..] == Ahead(upper, p + 1)
              else Ahead(upper, p) == []
    {
      BoundsCut(Entries(), Unbounded, upper, p - 1);
    }

    method RangeForward(q: Query) returns (out: seq<Entry>)
      requires Valid() && !q.reverse
      ensures out == RangeOf(Entries(), q)
    {
      hide Valid, RangeOf, EntriesOf, Take, Drop, First, BelowUpper, Ahead;
      Shape(BeforeKey(Num(0.0)));
      StartsForward(q);
      var x := StartForward(q.lower);
      var offset, count := q.offset, q.count;
      out := [];
      ghost var p := First(Entries(), q.lower) + 1;
      while x != null
        invariant 1 <= p && x == NodeAt(nodes, p)
        invariant out + Take(Drop(Ahead(q.upper, p), offset), count) == RangeOf(Entries(), q)
        decreases |nodes| - p
      {
        AheadStep(q.upper, p);
        ScanEnd(offset, count);
        if !BelowUpper(q.upper, x.entry) { return; }
        ScanStep(Ahead(q.upper, p), offset, count);
        if offset > 0 {
          offset := offset - 1;
        } else if count == All || count.n > 0 {
          out := out + [x.entry];
          count := if count == All then All else Limit(count.n - 1);
        } else {
          return;
        }
        NextNode(p);
        x := x.forward[0];
        p := p + 1;
      }
      ScanEnd(offset, count);
      NothingAhead(q.upper, p);
    }

    lemma StartsForward(q: Query)
      requires Valid() && !q.reverse
      ensures RangeOf(Entries(), q) == Take(Drop(Ahead(q.upper, First(Entries(), q.lower) + 1), q.offset), q.count)
    {
      FilterIsSlice(Entries(), q.lower, q.upper);
    }

    lemma NothingAhead(upper: Bound, p: nat)
      requires Valid() && p >= |nodes|
      ensures Ahead(upper, p) == []
    {
    }

    /** What a backward scan at node `p` still has in front of it. */
    ghost function Behind(lower: Bound, p: nat): seq<Entry>
      reads this
      requires nodes != []
    {
      var a := First(Entries(), lower);
      if a <= p <= |Entries()| then Reverse(Entries()[a..p]) else []
    }

    lemma BehindStep(lower: Bound, p: nat)
      requires Valid() && 1 <= p < |nodes|
      ensures if AboveLower(lower, nodes[p].entry)
              then Behind(lower, p) != [] && Behind(lower, p)[0] == nodes[p].entry
                && Behind(lower, p)[1..] == Behind(lower, p - 1)
              else Behind(lower, p) == []
    {
      hide LevelsOk, BackOk, IsSorted, Count, AboveLower;
      BoundsCut(Entries(), lower, Unbounded, p - 1);
      var a := First(Entries(), lower);
      if a <= p - 1 {
        ReverseStep(Entries()[a..p]);
        assert Entries()[a..p][..p - a - 1] == Entries()[a..p - 1];
      }
    }

    lemma StartsBackward(q: Query)
      requires Valid() && q.reverse
      ensures RangeOf(Entries(), q) == Take(Drop(Behind(q.lower, After(Entries(), q.upper)), q.offset), q.count)
    {
      FilterIsSlice(Entries(), q.lower, q.upper);
    }

    lemma NothingBehind(lower: Bound)
      requires Valid()
      ensures Behind(lower, 0) == []
    {
    }

    method RangeBackward(q: Query) returns (out: seq<Entry>)
      requires Valid() && q.reverse
      ensures out == RangeOf(Entries(), q)
    {
      hide Valid, RangeOf, EntriesOf, Take, Drop, After, AboveLower, Behind;
      StartsBackward(q);
      var x := StartBackward(q.upper);
      var offset, count := q.offset, q.count;
      out := [];
      ghost var p: nat := After(Entries(), q.upper);
      while x != null
        invariant p < |nodes| && x == if p == 0 then null else nodes[p]
        invariant out + Take(Drop(Behind(q.lower, p), offset), count) == RangeOf(Entries(), q)
        decreases p
      {
        BehindStep(q.lower, p);
        ScanEnd(offset, count);
        if !AboveLower(q.lower, x.entry) { return; }
        ScanStep(Behind(q.lower, p), offset, count);
        if offset > 0 {
          offset := offset - 1;
        } else if count == All || count.n > 0 {
          out := out + [x.entry];
          count := if count == All then All else Limit(count.n - 1);
        } else {
          return;
        }
        NextNode(p);
        x := x.backward;
        p := p - 1;
      }
      ScanEnd(offset, count);
      NothingBehind(q.lower);
    }

    /** A range query returns exactly the slice of the filtered sequence, forward or reversed. */
    method Range(q: Query) returns (out: seq<Entry>)
      requires Valid()
      ensures out == RangeOf(Entries(), q)
    {
      if q.reverse { out := RangeBackward(q); } else { out := RangeForward(q); }
    }
  }
}