/** The expiry heap of store.ts: a binary min-heap in an array. */
module Heap {

  /** Key `k` of version `stamp` runs out at `t`. */
  datatype Expiry = Expiry(t: int, k: string, stamp: nat)

  predicate InOrder(a: seq<Expiry>, i: nat)
    requires 0 < i < |a|
  {
    a[(i - 1) / 2].t <= a[i].t
  }

  predicate IsHeap(a: seq<Expiry>) { forall i :: 0 < i < |a| ==> InOrder(a, i) }

  /** In order everywhere but between `hole` and its parent, whose children are already below that parent. */
  predicate HeapButUp(a: seq<Expiry>, hole: nat) {
    && (forall i :: 0 < i < |a| && i != hole ==> InOrder(a, i))
    && forall i :: 0 < i < |a| && (i - 1) / 2 == hole && hole > 0 ==> a[(hole - 1) / 2].t <= a[i].t
  }

  /** In order everywhere but between `hole` and its children, which are already below its parent. */
  predicate HeapButDown(a: seq<Expiry>, hole: nat) {
    && (forall i :: 0 < i < |a| && (i - 1) / 2 != hole ==> InOrder(a, i))
    && forall i :: 0 < i < |a| && (i - 1) / 2 == hole && hole > 0 ==> a[(hole - 1) / 2].t <= a[i].t
  }

  lemma {:induction false} RootIsLeast(a: seq<Expiry>, i: nat)
    requires IsHeap(a) && i < |a|
    ensures a[0].t <= a[i].t
  {
    if i > 0 {
      assert InOrder(a, i);
      RootIsLeast(a, (i - 1) / 2);
    }
  }

  function Swapped(a: seq<Expiry>, i: nat, j: nat): seq<Expiry>
    requires i < |a| && j < |a|
  {
    a[i := a[j]][j := a[i]]
  }

  lemma SwapKeepsAll(a: seq<Expiry>, i: nat, j: nat)
    requires i < |a| && j < |a|
    ensures multiset(Swapped(a, i, j)) == multiset(a)
  {
  }

  lemma SiftUpStep(a: seq<Expiry>, i: nat)
    requires HeapButUp(a, i) && 0 < i < |a|
    ensures a[(i - 1) / 2].t <= a[i].t ==> IsHeap(a)
    ensures a[(i - 1) / 2].t > a[i].t ==> HeapButUp(Swapped(a, (i - 1) / 2, i), (i - 1) / 2)
  {
    var p := (i - 1) / 2;
    if a[p].t <= a[i].t {
      assert InOrder(a, i);
    } else {
      var b := Swapped(a, p, i);
      forall j | 0 < j < |b| && j != p ensures InOrder(b, j) {
        if j != i { assert InOrder(a, j); }
      }
      forall j | 0 < j < |b| && (j - 1) / 2 == p && p > 0 ensures b[(p - 1) / 2].t <= b[j].t {
        assert InOrder(a, p);
        if j != i { assert InOrder(a, j); }
      }
    }
  }

  /** The least of a node and its children. */
  function Least(a: seq<Expiry>, i: nat): (s: nat)
    requires i < |a|
    ensures s < |a|
  {
    var s := if 2 * i + 1 < |a| && a[2 * i + 1].t < a[i].t then 2 * i + 1 else i;
    if 2 * i + 2 < |a| && a[2 * i + 2].t < a[s].t then 2 * i + 2 else s
  }

  lemma SiftDownStep(a: seq<Expiry>, i: nat)
    requires HeapButDown(a, i) && i < |a|
    ensures Least(a, i) == i ==> IsHeap(a)
    ensures Least(a, i) != i ==> HeapButDown(Swapped(a, Least(a, i), i), Least(a, i))
  {
    var s := Least(a, i);
    if s == i {
      forall j | 0 < j < |a| ensures InOrder(a, j) {}
    } else {
      var b := Swapped(a, s, i);
      forall j | 0 < j < |b| && (j - 1) / 2 != s ensures InOrder(b, j) {
        if (j - 1) / 2 != i { assert InOrder(a, j); }
      }
      forall j | 0 < j < |b| && (j - 1) / 2 == s && s > 0 ensures b[(s - 1) / 2].t <= b[j].t {
        assert InOrder(a, j);
      }
    }
  }

  class MinHeap {
    var a: seq<Expiry>

    ghost predicate Valid()
      reads this
    {
      IsHeap(a)
    }

    constructor ()
      ensures Valid() && a == []
    {
      a := [];
    }

    method Clear()
      modifies this
      ensures Valid() && a == []
    {
      a := [];
    }

    method Push(item: Expiry)
      requires Valid()
      modifies this
      ensures Valid() && multiset(a) == multiset(old(a)) + multiset{item}
    {
      hide InOrder;
      PushedAtEnd(a, item);
      a := a + [item];
      var i := |a| - 1;
      while i > 0
        invariant 0 <= i < |a| && multiset(a) == multiset(old(a)) + multiset{item}
        invariant HeapButUp(a, i)
      {
        var p := (i - 1) / 2;
        SiftUpStep(a, i);
        if a[p].t <= a[i].t { return; }
        SwapKeepsAll(a, p, i);
        a := Swapped(a, p, i);
        i := p;
      }
    }

    static lemma PushedAtEnd(a: seq<Expiry>, item: Expiry)
      requires IsHeap(a)
      ensures HeapButUp(a + [item], |a|)
    {
      forall j | 0 < j < |a| ensures InOrder(a + [item], j) { assert InOrder(a, j); }
    }

    /** Take out an entry that no other runs out before. */
    method Pop() returns (top: Expiry)
      requires Valid() && a != []
      modifies this
      ensures Valid() && multiset(a) + multiset{top} == multiset(old(a)) && top == old(a[0]) && |a| == |old(a)| - 1
      ensures forall x :: x in old(a) ==> top.t <= x.t
    {
      hide InOrder;
      top := a[0];
      forall x | x in a ensures top.t <= x.t {
        var i :| 0 <= i < |a| && a[i] == x;
        RootIsLeast(a, i);
      }
      var last := a[|a| - 1];
      TakeRoot(a);
      a := a[..|a| - 1];
      if a != [] {
        a := a[0 := last];
        SiftDown();
      }
    }

    /** Let the root sink until it is no greater than its children. */
    method SiftDown()
      requires a != [] && HeapButDown(a, 0)
      modifies this
      ensures Valid() && multiset(a) == multiset(old(a)) && |a| == |old(a)|
    {
      hide InOrder, IsHeap, HeapButDown;
      var i := 0;
      while true
        invariant 0 <= i < |a| == |old(a)| && multiset(a) == multiset(old(a)) && HeapButDown(a, i)
        decreases |a| - i
      {
        var s := Least(a, i);
        SiftDownStep(a, i);
        if s == i { return; }
        SwapKeepsAll(a, s, i);
        a := Swapped(a, s, i);
        i := s;
      }
    }

    static lemma TakeRoot(a: seq<Expiry>)
      requires IsHeap(a) && a != []
      ensures var rest := a[..|a| - 1];
              if rest == [] then a == [a[0]] && IsHeap(rest)
              else
                && multiset(rest[0 := a[|a| - 1]]) + multiset{a[0]} == multiset(a)
                && HeapButDown(rest[0 := a[|a| - 1]], 0)
    {
      var rest := a[..|a| - 1];
      assert a == rest + [a[|a| - 1]];
      if rest != [] {
        var b := rest[0 := a[|a| - 1]];
        forall j | 0 < j < |b| && (j - 1) / 2 != 0 ensures InOrder(b, j) { assert InOrder(a, j); }
      }
    }
  }
}
