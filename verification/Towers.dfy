/** The shape of a skip list: towers of given heights in a row, the header first. */
module Towers {

  /** The next tower behind `p` that reaches level `i`; past the end if there is none. */
  function Next(hs: seq<nat>, p: nat, i: nat): (q: nat)
    requires p < |hs|
    ensures p < q <= |hs|
    ensures q < |hs| ==> hs[q] > i
    ensures forall r :: p < r < q ==> hs[r] <= i
    decreases |hs| - p
  {
    if p + 1 == |hs| || hs[p + 1] > i then p + 1 else Next(hs, p + 1, i)
  }

  /** The last tower at or in front of `k` that reaches level `i`. */
  function Prev(hs: seq<nat>, k: nat, i: nat): (p: nat)
    requires k < |hs| && hs[0] > i
    ensures p <= k && hs[p] > i
    ensures forall r :: p < r <= k ==> hs[r] <= i
  {
    if hs[k] > i then k else Prev(hs, k - 1, i)
  }

  /** What a span must be: the distance to the next tower, or to the end. */
  function Gap(hs: seq<nat>, p: nat, i: nat): nat
    requires p < |hs|
  {
    if Next(hs, p, i) < |hs| then Next(hs, p, i) - p else |hs| - 1 - p
  }

  lemma NextIs(hs: seq<nat>, p: nat, i: nat, q: nat)
    requires p < q <= |hs| && (q < |hs| ==> hs[q] > i) && forall r :: p < r < q ==> hs[r] <= i
    ensures Next(hs, p, i) == q
  {
  }

  function Grown(hs: seq<nat>, k: nat, h: nat): seq<nat>
    requires k < |hs|
  {
    hs[..k + 1] + [h] + hs[k + 1..]
  }

  /** Behind the new tower everything moves by one. */
  lemma NextBehind(hs: seq<nat>, k: nat, h: nat, p: nat, i: nat)
    requires k <= p < |hs|
    ensures Next(Grown(hs, k, h), p + 1, i) == Next(hs, p, i) + 1
  {
    NextIs(Grown(hs, k, h), p + 1, i, Next(hs, p, i) + 1);
  }

  /** A tower in front of the new one sees it only if nothing in between reaches the level. */
  lemma NextInFront(hs: seq<nat>, k: nat, h: nat, p: nat, i: nat)
    requires p <= k < |hs|
    ensures Next(Grown(hs, k, h), p, i)
            == if Next(hs, p, i) <= k then Next(hs, p, i) else if h > i then k + 1 else Next(hs, p, i) + 1
  {
    var q := Next(hs, p, i);
    NextIs(Grown(hs, k, h), p, i, if q <= k then q else if h > i then k + 1 else q + 1);
  }

  /** Only the last tower in front of `k` that reaches the level looks past `k`. */
  lemma LooksPast(hs: seq<nat>, k: nat, p: nat, i: nat)
    requires p <= k < |hs| && hs[0] > i && hs[p] > i
    ensures Next(hs, p, i) > k <==> p == Prev(hs, k, i)
  {
  }

  lemma NextOfPrev(hs: seq<nat>, k: nat, i: nat)
    requires k < |hs| && hs[0] > i
    ensures Next(hs, Prev(hs, k, i), i) == Next(hs, k, i)
  {
    NextIs(hs, Prev(hs, k, i), i, Next(hs, k, i));
  }

  lemma {:induction false} SamePrev(a: seq<nat>, b: seq<nat>, k: nat, i: nat)
    requires k < |a| && k < |b| && a[0] > i && forall p :: 0 <= p <= k ==> a[p] == b[p]
    ensures Prev(a, k, i) == Prev(b, k, i)
  {
    if a[k] <= i { SamePrev(a, b, k - 1, i); }
  }
}
