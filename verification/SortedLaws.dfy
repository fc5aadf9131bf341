/** What the order of an ordered index and its range queries mean, told by comparisons of numbers and
    of characters and by positions. */
module SortedLaws {
  import opened Sorted

  // ---- The order ---------------------------------------------------------------------------

  /** `a` and `b` first differ at `p`, where `a` ends or has the smaller character. */
  predicate SmallerAt(a: string, b: string, p: int) {
    0 <= p <= |a| && p < |b| && a[..p] == b[..p] && (p == |a| || a[p] < b[p])
  }

  /** Strings are ordered by their first difference, a prefix before what extends it. */
  lemma {:induction false} StringLessMeans(a: string, b: string)
    ensures StringLess(a, b) <==> exists p :: SmallerAt(a, b, p)
  {
    if a != [] && b != [] && a[0] == b[0] {
      StringLessMeans(a[1..], b[1..]);
      if p :| SmallerAt(a[1..], b[1..], p) {
        assert a[..p + 1] == [a[0]] + a[1..][..p] && b[..p + 1] == [b[0]] + b[1..][..p];
        assert SmallerAt(a, b, p + 1);
      }
      if p :| SmallerAt(a, b, p) {
        assert a[1..][..p - 1] == a[..p][1..] && b[1..][..p - 1] == b[..p][1..];
        assert SmallerAt(a[1..], b[1..], p - 1);
      }
    } else {
      if StringLess(a, b) { assert SmallerAt(a, b, 0); }
      if p :| SmallerAt(a, b, p) {
        if p > 0 { assert a[..p][0] == b[..p][0]; }
      }
    }
  }

  /** In a sorted sequence numbers ascend, strings ascend, and equal keys ascend by value. */
  lemma SortedAscends(es: seq<Entry>, i: nat, j: nat)
    requires IsSorted(es) && i < j < |es|
    ensures es[i].key.Num? && es[j].key.Num? ==> es[i].key.n <= es[j].key.n
    ensures es[i].key.Str? && es[j].key.Str? ==> es[i].key == es[j].key || StringLess(es[i].key.s, es[j].key.s)
    ensures es[i].key == es[j].key ==> es[i].val == es[j].val || StringLess(es[i].val, es[j].val)
  {
    assert !Less(es[j], es[i]);
    LessTotal(es[i], es[j]);
  }

  // ---- Bounds ------------------------------------------------------------------------------

  predicate IsNumber(b: Bound) { b.Unbounded? || b.key.Num? }

  /** On numbers bounds are `>=`, `>`, `<=` and `<`. */
  lemma WithinMeans(lower: Bound, upper: Bound, e: Entry)
    requires e.key.Num? && IsNumber(lower) && IsNumber(upper)
    ensures Within(lower, upper, e) <==>
            && (lower.Inclusive? ==> e.key.n >= lower.key.n)
            && (lower.Exclusive? ==> e.key.n > lower.key.n)
            && (upper.Inclusive? ==> e.key.n <= upper.key.n)
            && (upper.Exclusive? ==> e.key.n < upper.key.n)
  {
  }

  /** On strings the same, by the order of strings. */
  lemma WithinMeansStrings(lower: Bound, upper: Bound, e: Entry)
    requires e.key.Str? && (!lower.Unbounded? ==> lower.key.Str?) && (!upper.Unbounded? ==> upper.key.Str?)
    ensures Within(lower, upper, e) <==>
            && (lower.Inclusive? ==> e.key.s == lower.key.s || StringLess(lower.key.s, e.key.s))
            && (lower.Exclusive? ==> StringLess(lower.key.s, e.key.s))
            && (upper.Inclusive? ==> e.key.s == upper.key.s || StringLess(e.key.s, upper.key.s))
            && (upper.Exclusive? ==> StringLess(e.key.s, upper.key.s))
  {
    if !lower.Unbounded? { StringLessTotal(e.key.s, lower.key.s); }
    if !upper.Unbounded? { StringLessTotal(e.key.s, upper.key.s); }
  }

  // ---- Range queries by position -----------------------------------------------------------

  lemma {:induction false} ReverseAt(es: seq<Entry>, i: nat)
    requires i < |es|
    ensures Reverse(es)[i] == es[|es| - 1 - i]
  {
    if i < |es| - 1 { ReverseAt(es[1..], i); }
  }

  /** The entries within the bounds from position `a` to `b`, in order or backwards, less the first
      `offset`, and at most `count`. */
  lemma RangeByPosition(es: seq<Entry>, q: Query)
    requires IsSorted(es)
    ensures var a, b, out := First(es, q.lower), After(es, q.upper), RangeOf(es, q);
            var n: nat := if a + q.offset <= b then b - a - q.offset else 0;
            && |out| == (if q.count.Limit? && q.count.n < n then q.count.n else n)
            && forall i :: 0 <= i < |out| ==>
                 if q.reverse then 0 <= b - 1 - q.offset - i < |es| && out[i] == es[b - 1 - q.offset - i]
                 else a + q.offset + i < |es| && out[i] == es[a + q.offset + i]
    ensures forall i :: 0 <= i < |es| ==>
      (Within(q.lower, q.upper, es[i]) <==> First(es, q.lower) <= i < After(es, q.upper))
  {
    hide IsSorted, Within, First, After, Filter, Reverse, RangeOf;
    var a, b := First(es, q.lower), After(es, q.upper);
    FilterIsSlice(es, q.lower, q.upper);
    HitsByPosition(es, q);
    var hits := Filter(es, q.lower, q.upper);
    assert forall i :: 0 <= i < |hits| ==> hits[i] == es[a + i];
    forall i | 0 <= i < |es| ensures Within(q.lower, q.upper, es[i]) <==> a <= i < b {
      BoundsCut(es, q.lower, q.upper, i);
      WithinBoth(q.lower, q.upper, es[i]);
    }
  }

  lemma HitsByPosition(es: seq<Entry>, q: Query)
    ensures var hits, out := Filter(es, q.lower, q.upper), RangeOf(es, q);
            var n: nat := if q.offset <= |hits| then |hits| - q.offset else 0;
            && |out| == (if q.count.Limit? && q.count.n < n then q.count.n else n)
            && forall i :: 0 <= i < |out| ==>
                 out[i] == if q.reverse then hits[|hits| - 1 - q.offset - i] else hits[q.offset + i]
  {
    hide Filter, Reverse;
    var hits, out := Filter(es, q.lower, q.upper), RangeOf(es, q);
    forall i | 0 <= i < |out|
      ensures out[i] == if q.reverse then hits[|hits| - 1 - q.offset - i] else hits[q.offset + i]
    {
      if q.reverse { ReverseAt(hits, q.offset + i); }
    }
  }

  lemma WithinBoth(lower: Bound, upper: Bound, e: Entry)
    ensures Within(lower, upper, e) <==> AboveLower(lower, e) && BelowUpper(upper, e)
  {
  }
}
