/** What an ordered index is meant to be: a sorted sequence of entries (skiplist.ts, without the list). */
module Sorted {

  /** A sort key: every list is ordered either by numbers or by strings. */
  datatype Scalar = Num(n: real) | Str(s: string)

  /** Ordered by `key`, ties broken by `val`. */
  datatype Entry = Entry(key: Scalar, val: string)

  // ---- The order ---------------------------------------------------------------------------

  predicate StringLess(a: string, b: string) {
    if b == [] then false
    else if a == [] then true
    else if a[0] != b[0] then a[0] < b[0]
    else StringLess(a[1..], b[1..])
  }

  lemma {:induction false} StringLessTotal(a: string, b: string)
    ensures a == b || StringLess(a, b) || StringLess(b, a)
    ensures !(StringLess(a, b) && StringLess(b, a)) && !StringLess(a, a)
    decreases a
  {
    if a != [] && b != [] {
      StringLessTotal(a[1..], b[1..]);
      StringLessTotal(a[1..], a[1..]);
      if a[0] == b[0] && a[1..] == b[1..] { assert a == [a[0]] + a[1..] == b; }
    } else if a != [] {
      StringLessTotal(a[1..], a[1..]);
    }
  }

  lemma {:induction false} StringLessTrans(a: string, b: string, c: string)
    requires StringLess(a, b) && StringLess(b, c)
    ensures StringLess(a, c)
    decreases a
  {
    if a != [] && a[0] == b[0] && b[0] == c[0] { StringLessTrans(a[1..], b[1..], c[1..]); }
  }

  predicate KeyLess(a: Scalar, b: Scalar) {
    match (a, b)
    case (Num(x), Num(y)) => x < y
    case (Str(x), Str(y)) => StringLess(x, y)
    case (Num(_), Str(_)) => true
    case (Str(_), Num(_)) => false
  }

  lemma KeyLessTotal(a: Scalar, b: Scalar)
    ensures a == b || KeyLess(a, b) || KeyLess(b, a)
    ensures !(KeyLess(a, b) && KeyLess(b, a)) && !KeyLess(a, a)
  {
    if a.Str? { StringLessTotal(a.s, a.s); }
    if a.Str? && b.Str? { StringLessTotal(a.s, b.s); }
  }

  lemma KeyLessTrans(a: Scalar, b: Scalar, c: Scalar)
    requires KeyLess(a, b) && KeyLess(b, c)
    ensures KeyLess(a, c)
  {
    if a.Str? && b.Str? && c.Str? { StringLessTrans(a.s, b.s, c.s); }
  }

  predicate Less(a: Entry, b: Entry) { KeyLess(a.key, b.key) || (a.key == b.key && StringLess(a.val, b.val)) }

  lemma LessTotal(a: Entry, b: Entry)
    ensures a == b || Less(a, b) || Less(b, a)
    ensures !(Less(a, b) && Less(b, a)) && !Less(a, a)
  {
    KeyLessTotal(a.key, b.key);
    KeyLessTotal(a.key, a.key);
    StringLessTotal(a.val, b.val);
    StringLessTotal(a.val, a.val);
  }

  lemma LessTrans(a: Entry, b: Entry, c: Entry)
    requires Less(a, b) && Less(b, c)
    ensures Less(a, c)
  {
    KeyLessTotal(a.key, b.key);
    if KeyLess(a.key, b.key) && KeyLess(b.key, c.key) { KeyLessTrans(a.key, b.key, c.key); }
    if a.key == b.key && b.key == c.key { StringLessTrans(a.val, b.val, c.val); }
  }

  predicate IsSorted(es: seq<Entry>) { forall i, j :: 0 <= i < j < |es| ==> !Less(es[j], es[i]) }

  // ---- Cuts: the conditions a search descends by --------------------------------------------

  /** The entries in front of a place: less than an entry, up to it, with a key less than a bound, or
      up to the bound. */
  datatype Cut = Before(entry: Entry) | UpTo(entry: Entry) | BeforeKey(bound: Scalar) | UpToKey(bound: Scalar)

  predicate In(cut: Cut, e: Entry) {
    match cut
    case Before(x) => Less(e, x)
    case UpTo(x) => Less(e, x) || e == x
    case BeforeKey(b) => KeyLess(e.key, b)
    case UpToKey(b) => KeyLess(e.key, b) || e.key == b
  }

  lemma CutIsDownward(cut: Cut, a: Entry, b: Entry)
    requires In(cut, b) && !Less(b, a)
    ensures In(cut, a)
  {
    LessTotal(a, b);
    if a != b {
      KeyLessTotal(a.key, b.key);
      match cut
      case Before(x) => LessTrans(a, b, x);
      case UpTo(x) => if b != x { LessTrans(a, b, x); }
      case BeforeKey(x) => if a.key != b.key { KeyLessTrans(a.key, b.key, x); }
      case UpToKey(x) => if a.key != b.key && b.key != x { KeyLessTrans(a.key, b.key, x); }
    }
  }

  /** How many entries lie in front of a cut. */
  function Count(cut: Cut, es: seq<Entry>): (n: nat)
    ensures n <= |es|
  {
    if es == [] || !In(cut, es[0]) then 0 else 1 + Count(cut, es[1..])
  }

  lemma {:induction false} CountSplits(cut: Cut, es: seq<Entry>, i: nat)
    requires IsSorted(es) && i < |es|
    ensures In(cut, es[i]) <==> i < Count(cut, es)
  {
    if In(cut, es[0]) {
      if i > 0 {
        assert IsSorted(es[1..]);
        CountSplits(cut, es[1..], i - 1);
      }
    } else if In(cut, es[i]) {
      if i > 0 { assert !Less(es[i], es[0]); }
      CutIsDownward(cut, es[0], es[i]);
    }
  }

  // ---- Inserting and removing ----------------------------------------------------------------

  function InsertAt(es: seq<Entry>, k: nat, e: Entry): seq<Entry>
    requires k <= |es|
  {
    es[..k] + [e] + es[k..]
  }

  function RemoveAt(es: seq<Entry>, k: nat): seq<Entry>
    requires k < |es|
  {
    es[..k] + es[k + 1..]
  }

  function Inserted(es: seq<Entry>, e: Entry): seq<Entry> { InsertAt(es, Count(Before(e), es), e) }

  function Removed(es: seq<Entry>, e: Entry): seq<Entry> {
    var k := Count(Before(e), es);
    if k < |es| && es[k] == e then RemoveAt(es, k) else es
  }

  /** Inserting keeps the order and adds exactly the entry. */
  lemma InsertedIsSorted(es: seq<Entry>, e: Entry)
    requires IsSorted(es)
    ensures IsSorted(Inserted(es, e))
    ensures multiset(Inserted(es, e)) == multiset(es) + multiset{e}
  {
    hide Less, Count;
    var k := Count(Before(e), es);
    var s := Inserted(es, e);
    forall i, j | 0 <= i < j < |s| ensures !Less(s[j], s[i]) {
      if i == k {
        CountSplits(Before(e), es, j - 1);
        assert In(Before(e), es[j - 1]) == Less(es[j - 1], e);
      } else if j == k {
        CountSplits(Before(e), es, i);
        LessTotal(e, es[i]);
      }
    }
    assert es == es[..k] + es[k..];
  }

  lemma RemoveAtKeepsOrder(es: seq<Entry>, k: nat)
    requires IsSorted(es) && k < |es|
    ensures IsSorted(RemoveAt(es, k))
    ensures multiset(RemoveAt(es, k)) + multiset{es[k]} == multiset(es)
  {
    hide Less;
    var s := RemoveAt(es, k);
    forall i, j | 0 <= i < j < |s| ensures !Less(s[j], s[i]) {
      assert s[i] == es[if i < k then i else i + 1] && s[j] == es[if j < k then j else j + 1];
    }
    assert es == es[..k] + [es[k]] + es[k + 1..];
  }

  /** An entry is found where the entries less than it end, or nowhere. */
  lemma FoundAtCount(es: seq<Entry>, e: Entry)
    requires IsSorted(es)
    ensures e in es <==> Count(Before(e), es) < |es| && es[Count(Before(e), es)] == e
  {
    var k := Count(Before(e), es);
    if e in es {
      var i :| 0 <= i < |es| && es[i] == e;
      LessTotal(e, e);
      CountSplits(Before(e), es, i);
      CountSplits(Before(e), es, k);
      LessTotal(es[k], e);
      hide Less;
      if k < i { assert !Less(es[i], es[k]); }
    }
  }

  /** Removing an entry that is there takes out exactly one copy; otherwise nothing changes. */
  lemma RemovedIsSorted(es: seq<Entry>, e: Entry)
    requires IsSorted(es)
    ensures IsSorted(Removed(es, e))
    ensures if e in es then multiset(Removed(es, e)) + multiset{e} == multiset(es) else Removed(es, e) == es
  {
    FoundAtCount(es, e);
    if e in es { RemoveAtKeepsOrder(es, Count(Before(e), es)); }
  }

  /** Removing undoes inserting. */
  lemma RemoveUndoesInsert(es: seq<Entry>, e: Entry)
    requires IsSorted(es)
    ensures Removed(Inserted(es, e), e) == es
  {
    hide Less, Count;
    var k, s := Count(Before(e), es), Inserted(es, e);
    InsertedIsSorted(es, e);
    LessTotal(e, e);
    CountSplits(Before(e), s, k);
    if k > 0 {
      CountSplits(Before(e), es, k - 1);
      CountSplits(Before(e), s, k - 1);
    }
    assert Count(Before(e), s) == k;
    assert es == es[..k] + es[k..];
  }

  lemma HeadIsLeast(a: seq<Entry>, x: Entry)
    requires IsSorted(a) && x in a
    ensures !Less(x, a[0])
  {
    var i :| 0 <= i < |a| && a[i] == x;
    LessTotal(x, x);
    if i > 0 { assert !Less(a[i], a[0]); }
  }

  lemma TailOf(a: seq<Entry>)
    requires a != []
    ensures multiset(a) == multiset{a[0]} + multiset(a[1..]) && a == [a[0]] + a[1..]
  {
    assert a == [a[0]] + a[1..];
  }

  lemma SortedTail(a: seq<Entry>)
    requires IsSorted(a) && a != []
    ensures IsSorted(a[1..])
  {
  }

  /** There is one sorted sequence of a collection of entries. */
  lemma {:induction false} SortedIsUnique(a: seq<Entry>, b: seq<Entry>)
    requires IsSorted(a) && IsSorted(b) && multiset(a) == multiset(b)
    ensures a == b
    decreases |a|
  {
    hide IsSorted, Less;
    assert |multiset(a)| == |a| && |multiset(b)| == |b|;
    if a != [] {
      assert a[0] in multiset(b) && b[0] in multiset(a);
      HeadIsLeast(a, b[0]);
      HeadIsLeast(b, a[0]);
      LessTotal(a[0], b[0]);
      TailOf(a);
      TailOf(b);
      SortedTail(a);
      SortedTail(b);
      assert multiset(a[1..]) == multiset(b[1..]) by {
        assert multiset(a[1..]) == multiset(a) - multiset{a[0]};
        assert multiset(b[1..]) == multiset(b) - multiset{b[0]};
      }
      SortedIsUnique(a[1..], b[1..]);
    }
  }

  // ---- Ranges --------------------------------------------------------------------------------

  datatype Bound = Unbounded | Inclusive(key: Scalar) | Exclusive(key: Scalar)

  datatype Query = Query(lower: Bound, upper: Bound, offset: nat, count: Limit, reverse: bool)

  datatype Limit = All | Limit(n: nat)

  predicate Within(lower: Bound, upper: Bound, e: Entry) { AboveLower(lower, e) && BelowUpper(upper, e) }

  predicate AboveLower(lower: Bound, e: Entry) {
    match lower
    case Unbounded => true
    case Inclusive(k) => !KeyLess(e.key, k)
    case Exclusive(k) => !KeyLess(e.key, k) && e.key != k
  }

  predicate BelowUpper(upper: Bound, e: Entry) {
    match upper
    case Unbounded => true
    case Inclusive(k) => KeyLess(e.key, k) || e.key == k
    case Exclusive(k) => KeyLess(e.key, k)
  }

  /** The entries within the bounds, one by one. */
  function Filter(es: seq<Entry>, lower: Bound, upper: Bound): seq<Entry> {
    if es == [] then []
    else (if Within(lower, upper, es[0]) then [es[0]] else []) + Filter(es[1..], lower, upper)
  }

  function Reverse(es: seq<Entry>): (r: seq<Entry>)
    ensures |r| == |es|
  {
    if es == [] then [] else Reverse(es[1..]) + [es[0]]
  }

  function Drop(es: seq<Entry>, n: nat): seq<Entry> { if n <= |es| then es[n..] else [] }

  function Take(es: seq<Entry>, count: Limit): seq<Entry> {
    if count.Limit? && count.n <= |es| then es[..count.n] else es
  }

  /** A range query: filter, maybe reverse, drop the offset, take the count. */
  function RangeOf(es: seq<Entry>, q: Query): seq<Entry> {
    var hits := Filter(es, q.lower, q.upper);
    Take(Drop(if q.reverse then Reverse(hits) else hits, q.offset), q.count)
  }

  /** Where the entries above a lower bound begin, and where those below an upper bound end. */
  function First(es: seq<Entry>, lower: Bound): nat {
    match lower
    case Unbounded => 0
    case Inclusive(k) => Count(BeforeKey(k), es)
    case Exclusive(k) => Count(UpToKey(k), es)
  }

  function After(es: seq<Entry>, upper: Bound): nat {
    match upper
    case Unbounded => |es|
    case Inclusive(k) => Count(UpToKey(k), es)
    case Exclusive(k) => Count(BeforeKey(k), es)
  }

  lemma BoundsCut(es: seq<Entry>, lower: Bound, upper: Bound, i: nat)
    requires IsSorted(es) && i < |es|
    ensures AboveLower(lower, es[i]) <==> First(es, lower) <= i
    ensures BelowUpper(upper, es[i]) <==> i < After(es, upper)
  {
    if !lower.Unbounded? {
      CountSplits(BeforeKey(lower.key), es, i);
      CountSplits(UpToKey(lower.key), es, i);
    }
    if !upper.Unbounded? {
      CountSplits(BeforeKey(upper.key), es, i);
      CountSplits(UpToKey(upper.key), es, i);
    }
  }

  /** In a sorted sequence the entries within two bounds are one slice. */
  lemma FilterIsSlice(es: seq<Entry>, lower: Bound, upper: Bound)
    requires IsSorted(es)
    ensures var a, b := First(es, lower), After(es, upper);
            a <= |es| && b <= |es| && Filter(es, lower, upper) == if a <= b then es[a..b] else []
  {
    var a, b := First(es, lower), After(es, upper);
    forall i | 0 <= i < |es| ensures Within(lower, upper, es[i]) <==> a <= i < b { BoundsCut(es, lower, upper, i); }
    FilterOfInterval(es, lower, upper, a, b);
  }

  lemma {:induction false} FilterOfInterval(es: seq<Entry>, lower: Bound, upper: Bound, a: nat, b: nat)
    requires a <= |es| && b <= |es| && forall i :: 0 <= i < |es| ==> (Within(lower, upper, es[i]) <==> a <= i < b)
    ensures Filter(es, lower, upper) == if a <= b then es[a..b] else []
    decreases es
  {
    hide Within;
    if es != [] {
      var t := es[1..];
      var a', b' := if a > 0 then a - 1 else 0, if b > 0 then b - 1 else 0;
      forall i | 0 <= i < |t| ensures Within(lower, upper, t[i]) <==> a' <= i < b' {
        assert t[i] == es[i + 1];
      }
      FilterOfInterval(t, lower, upper, a', b');
      if a == 0 && b > 0 {
        assert es[a..b] == [es[0]] + t[a'..b'];
      } else if a <= b {
        assert es[a..b] == if a > 0 then t[a'..b'] else [];
      }
    }
  }

  /** One turn of a scan: skip an entry while the offset lasts, then collect while the count lasts. */
  lemma ScanStep(rem: seq<Entry>, offset: nat, count: Limit)
    requires rem != []
    ensures offset > 0 ==> Take(Drop(rem, offset), count) == Take(Drop(rem[1..], offset - 1), count)
    ensures offset == 0 && count == All ==> Take(Drop(rem, offset), All) == [rem[0]] + Take(Drop(rem[1..], 0), All)
    ensures offset == 0 && count.Limit? && count.n > 0 ==>
      Take(Drop(rem, offset), count) == [rem[0]] + Take(Drop(rem[1..], 0), Limit(count.n - 1))
    ensures offset == 0 && count == Limit(0) ==> Take(Drop(rem, offset), count) == []
  {
  }

  lemma ScanEnd(offset: nat, count: Limit)
    ensures Take(Drop([], offset), count) == []
  {
  }

  lemma {:induction false} ReverseStep(es: seq<Entry>)
    requires es != []
    ensures Reverse(es) == [es[|es| - 1]] + Reverse(es[..|es| - 1])
  {
    if |es| > 1 {
      var init := es[..|es| - 1];
      ReverseStep(es[1..]);
      assert es[1..][..|es| - 2] == init[1..];
      assert [es[|es| - 1]] + Reverse(init[1..]) + [es[0]] == [es[|es| - 1]] + (Reverse(init[1..]) + [es[0]]);
    }
  }

  // ---- Ranks ---------------------------------------------------------------------------------

  /** The 0-based rank of an entry: of its last copy, if it is there twice. */
  function RankOf(es: seq<Entry>, e: Entry): int { if e in es then Count(UpTo(e), es) - 1 else -1 }

  /** The entry at the rank of an entry is that entry ... */
  lemma AtRank(es: seq<Entry>, e: Entry)
    requires IsSorted(es) && e in es
    ensures 0 <= RankOf(es, e) < |es| && es[RankOf(es, e)] == e
  {
    var i :| 0 <= i < |es| && es[i] == e;
    var k := Count(UpTo(e), es);
    CountSplits(UpTo(e), es, i);
    CountSplits(UpTo(e), es, k - 1);
    if i < k - 1 { assert !Less(es[k - 1], es[i]); }
    LessTotal(es[k - 1], e);
  }

  /** ... and where no entry is there twice, the rank of the entry at a rank is that rank. */
  lemma RankAt(es: seq<Entry>, r: nat)
    requires IsSorted(es) && r < |es| && forall i, j :: 0 <= i < j < |es| ==> es[i] != es[j]
    ensures RankOf(es, es[r]) == r
  {
    AtRank(es, es[r]);
  }
}
