/** The resynchronising scan of codec.ts, over any list that says how long the valid item is that
    starts at each position (zero: none). */
module Scanner {

  /** Ranges [from, to) of valid items and of corrupt bytes, and where the scan stopped. */
  datatype Scan = Scan(found: seq<(nat, nat)>, corrupt: seq<(nat, nat)>, eof: nat)

  ghost predicate Fits(len: seq<nat>) {
    forall p: nat :: p < |len| && len[p] > 0 ==> p + len[p] <= |len|
  }

  /** The first position from `from` on where a valid item starts, or the end. */
  function NextValid(len: seq<nat>, from: nat): (p: nat)
    requires from <= |len|
    ensures from <= p <= |len|
    ensures p < |len| ==> len[p] > 0
    ensures forall q :: from <= q < p ==> len[q] == 0
    decreases |len| - from
  {
    if from == |len| || len[from] > 0 then from else NextValid(len, from + 1)
  }

  /** Strict mode gives up at the first bad byte; the default mode jumps to the next valid item. */
  function ScanFrom(len: seq<nat>, pos: nat, strict: bool): Scan
    decreases |len| - pos
  {
    if pos >= |len| then Scan([], [], pos)
    else if len[pos] > 0 then
      var rest := ScanFrom(len, pos + len[pos], strict);
      rest.(found := [(pos, pos + len[pos])] + rest.found)
    else
      var next := if strict then |len| else NextValid(len, pos + 1);
      if next == |len| then Scan([], [(pos, |len|)], pos)
      else
        var rest := ScanFrom(len, next, strict);
        rest.(corrupt := [(pos, next)] + rest.corrupt)
  }

  /** Where a scan at `pos` goes on. */
  function Next(len: seq<nat>, pos: nat, strict: bool): (next: nat)
    requires pos < |len|
    ensures pos < next
  {
    if len[pos] > 0 then pos + len[pos] else if strict then |len| else NextValid(len, pos + 1)
  }

  function Cover(ranges: seq<(nat, nat)>, p: nat): nat {
    if ranges == [] then 0 else (if ranges[0].0 <= p < ranges[0].1 then 1 else 0) + Cover(ranges[1..], p)
  }

  lemma {:induction false} CoveringRange(ranges: seq<(nat, nat)>, p: nat) returns (i: nat)
    requires Cover(ranges, p) > 0
    ensures i < |ranges| && ranges[i].0 <= p < ranges[i].1
  {
    if ranges[0].0 <= p < ranges[0].1 {
      i := 0;
    } else {
      i := CoveringRange(ranges[1..], p);
      i := i + 1;
    }
  }

  function Size(ranges: seq<(nat, nat)>): int {
    if ranges == [] then 0 else ranges[0].1 - ranges[0].0 + Size(ranges[1..])
  }

  /** Tiling: from `pos` on, every byte lies in exactly one item or corrupt range, and nothing
      before `pos` is touched; so lost bytes and item bytes add up to the size. */
  lemma {:induction false} ScanTiles(len: seq<nat>, pos: nat, strict: bool, p: nat)
    requires Fits(len) && pos <= |len|
    ensures var r := ScanFrom(len, pos, strict);
            && Cover(r.found, p) + Cover(r.corrupt, p) == (if pos <= p < |len| then 1 else 0)
            && Size(r.found) + Size(r.corrupt) == |len| - pos
    decreases |len| - pos
  {
    if pos < |len| {
      var r := ScanFrom(len, pos, strict);
      var next := Next(len, pos, strict);
      if next < |len| || len[pos] > 0 {
        ScanTiles(len, next, strict, p);
        var rest := ScanFrom(len, next, strict);
        if len[pos] > 0 { assert r.found[1..] == rest.found; } else { assert r.corrupt[1..] == rest.corrupt; }
      }
    }
  }

  /** The items reported are exactly the valid ones the scan walked over, in order. */
  lemma {:induction false} FoundValid(len: seq<nat>, pos: nat, strict: bool, i: nat)
    requires i < |ScanFrom(len, pos, strict).found|
    ensures var f := ScanFrom(len, pos, strict).found[i]; pos <= f.0 < |len| && len[f.0] > 0 && f.1 == f.0 + len[f.0]
    decreases |len| - pos
  {
    if len[pos] == 0 {
      FoundValid(len, Next(len, pos, strict), strict, i);
    } else if i > 0 {
      FoundValid(len, Next(len, pos, strict), strict, i - 1);
    }
  }

  /** Resynchronising loses nothing: no valid item starts inside a corrupt range. */
  lemma {:induction false} NoneInCorruptRange(len: seq<nat>, pos: nat, i: nat, p: nat)
    requires i < |ScanFrom(len, pos, false).corrupt|
    requires ScanFrom(len, pos, false).corrupt[i].0 <= p < ScanFrom(len, pos, false).corrupt[i].1
    ensures pos <= p < |len| && len[p] == 0
    decreases |len| - pos
  {
    if len[pos] > 0 {
      NoneInCorruptRange(len, pos + len[pos], i, p);
    } else if i > 0 {
      NoneInCorruptRange(len, NextValid(len, pos + 1), i - 1, p);
    }
  }

  /** The scan stops before the end exactly when the last corrupt range reaches the end. */
  lemma {:induction false} EofIsBadTail(len: seq<nat>, pos: nat, strict: bool)
    requires Fits(len) && pos <= |len|
    ensures var r := ScanFrom(len, pos, strict);
            && pos <= r.eof <= |len|
            && (pos < |len| && len[pos] > 0 ==> pos + len[pos] <= r.eof)
            && (r.eof < |len| <==> r.corrupt != [] && r.corrupt[|r.corrupt| - 1].1 == |len|)
            && (r.eof < |len| ==> r.corrupt[|r.corrupt| - 1] == (r.eof, |len|))
    decreases |len| - pos
  {
    if pos < |len| {
      var next := Next(len, pos, strict);
      if next < |len| || len[pos] > 0 { EofIsBadTail(len, next, strict); }
    }
  }

  function WithoutBadTail(n: nat, r: Scan): Scan {
    if r.eof < n && r.corrupt != [] then r.(corrupt := r.corrupt[..|r.corrupt| - 1]) else r
  }

  /** The rule for a buffer cut to a prefix: an item stays exactly when it still fits. */
  ghost predicate Truncated(len: seq<nat>, cut: seq<nat>) {
    |cut| <= |len| && forall p: nat :: p < |cut| ==> cut[p] == if p + len[p] <= |cut| then len[p] else 0
  }

  lemma {:induction false} NextValidTruncated(len: seq<nat>, cut: seq<nat>, from: nat)
    requires Truncated(len, cut) && from <= |cut| && NextValid(len, from) < |cut|
    requires NextValid(len, from) + len[NextValid(len, from)] <= |cut|
    ensures NextValid(cut, from) == NextValid(len, from)
    decreases |len| - from
  {
    if NextValid(len, from) != from { NextValidTruncated(len, cut, from + 1); }
  }

  /** Truncating the bad tail and scanning again finds the same items, and no bad tail. */
  lemma {:induction false} RescanAfterTruncate(len: seq<nat>, pos: nat, strict: bool, cut: seq<nat>)
    requires Fits(len) && pos <= |len| && Truncated(len, cut) && |cut| == ScanFrom(len, pos, strict).eof
    ensures var r := ScanFrom(len, pos, strict);
            var t := ScanFrom(cut, pos, strict);
            t == WithoutBadTail(|len|, r)
    decreases |len| - pos
  {
    EofIsBadTail(len, pos, strict);
    if pos < |len| {
      var next := Next(len, pos, strict);
      if len[pos] > 0 {
        EofIsBadTail(len, next, strict);
        RescanAfterTruncate(len, next, strict, cut);
      } else if next < |len| {
        RescanAfterTruncate(len, next, strict, cut);
        var rest := ScanFrom(len, next, false);
        EofIsBadTail(len, next, false);
        NextValidTruncated(len, cut, pos + 1);
        ScanAtGap(len, pos);
        ScanAtGap(cut, pos);
        DropAfterCons((pos, next), rest.corrupt);
      }
    }
  }

  lemma DropAfterCons(c: (nat, nat), cs: seq<(nat, nat)>)
    ensures cs != [] ==> ([c] + cs)[..|cs|] == [c] + cs[..|cs| - 1]
  {
  }

  lemma ScanAtGap(len: seq<nat>, pos: nat)
    requires pos < |len| && len[pos] == 0 && NextValid(len, pos + 1) < |len|
    ensures var rest := ScanFrom(len, NextValid(len, pos + 1), false);
            ScanFrom(len, pos, false) == rest.(corrupt := [(pos, NextValid(len, pos + 1))] + rest.corrupt)
  {
  }

  lemma ScanAtItem(len: seq<nat>, pos: nat, strict: bool)
    requires pos < |len| && len[pos] > 0
    ensures var rest := ScanFrom(len, pos + len[pos], strict);
            ScanFrom(len, pos, strict) == rest.(found := [(pos, pos + len[pos])] + rest.found)
  {
  }

  /** No valid item starts at `from` or later. */
  ghost predicate NoneFrom(len: seq<nat>, from: nat) { forall p: nat :: from <= p < |len| ==> len[p] == 0 }

  /** From `pos` to `end` the items follow each other without a gap. */
  ghost predicate Placed(len: seq<nat>, pos: nat, layout: seq<(nat, nat)>, end: nat)
    decreases layout
  {
    if layout == [] then pos == end
    else
      && layout[0].0 == pos < |len| && len[pos] > 0 && layout[0].1 == pos + len[pos]
      && Placed(len, layout[0].1, layout[1..], end)
  }

  lemma {:induction false} ScanPlaced(len: seq<nat>, pos: nat, layout: seq<(nat, nat)>, end: nat, strict: bool)
    requires Placed(len, pos, layout, end)
    ensures var rest := ScanFrom(len, end, strict); ScanFrom(len, pos, strict) == rest.(found := layout + rest.found)
    decreases layout
  {
    if layout != [] {
      ScanAtItem(len, pos, strict);
      ScanPlaced(len, layout[0].1, layout[1..], end, strict);
      var rest := ScanFrom(len, end, strict);
      assert [layout[0]] + (layout[1..] + rest.found) == layout + rest.found;
    }
  }

  lemma ScanOfTail(len: seq<nat>, pos: nat)
    requires pos <= |len| && (pos < |len| ==> len[pos] == 0)
    ensures ScanFrom(len, pos, true) == Scan([], if pos == |len| then [] else [(pos, |len|)], pos)
    ensures ScanFrom(len, pos, false).found == [] <==> NoneFrom(len, pos)
  {
    if pos < |len| {
      var next := NextValid(len, pos + 1);
      if next < |len| { ScanAtItem(len, next, false); }
    }
  }

  /** Items without a gap, then a bad byte or the end: strict mode finds exactly the items, and the
      default mode finds more if and only if a valid item starts somewhere later. */
  lemma ScanPlacedThenTail(len: seq<nat>, pos: nat, layout: seq<(nat, nat)>, end: nat)
    requires Placed(len, pos, layout, end) && end <= |len| && (end < |len| ==> len[end] == 0)
    ensures ScanFrom(len, pos, true) == Scan(layout, if end == |len| then [] else [(end, |len|)], end)
    ensures ScanFrom(len, pos, false).found == layout <==> NoneFrom(len, end)
  {
    ScanPlaced(len, pos, layout, end, true);
    ScanPlaced(len, pos, layout, end, false);
    ScanOfTail(len, end);
    assert layout + [] == layout;
    var found := ScanFrom(len, end, false).found;
    assert |layout + found| == |layout| + |found|;
  }

  // ---- One step of a scanning loop ---------------------------------------------------------

  /** What a loop has collected, followed by the scan of the rest, is the whole scan. */
  ghost predicate Continues(len: seq<nat>, strict: bool, all: Scan, found: seq<(nat, nat)>, corrupt: seq<(nat, nat)>,
      pos: nat) {
    var rest := ScanFrom(len, pos, strict);
    all == Scan(found + rest.found, corrupt + rest.corrupt, rest.eof)
  }

  lemma ContinueItem(len: seq<nat>, strict: bool, all: Scan, found: seq<(nat, nat)>, corrupt: seq<(nat, nat)>, pos: nat)
    requires pos < |len| && len[pos] > 0 && Continues(len, strict, all, found, corrupt, pos)
    ensures Continues(len, strict, all, found + [(pos, pos + len[pos])], corrupt, pos + len[pos])
  {
    ScanAtItem(len, pos, strict);
    var rest := ScanFrom(len, pos + len[pos], strict);
    assert found + ([(pos, pos + len[pos])] + rest.found) == found + [(pos, pos + len[pos])] + rest.found;
  }

  lemma ContinueGap(len: seq<nat>, all: Scan, found: seq<(nat, nat)>, corrupt: seq<(nat, nat)>, pos: nat)
    requires pos < |len| && len[pos] == 0 && NextValid(len, pos + 1) < |len|
    requires Continues(len, false, all, found, corrupt, pos)
    ensures Continues(len, false, all, found, corrupt + [(pos, NextValid(len, pos + 1))], NextValid(len, pos + 1))
  {
    ScanAtGap(len, pos);
    var next := NextValid(len, pos + 1);
    var rest := ScanFrom(len, next, false);
    assert corrupt + ([(pos, next)] + rest.corrupt) == corrupt + [(pos, next)] + rest.corrupt;
  }

  lemma ContinueBadTail(len: seq<nat>, strict: bool, all: Scan, found: seq<(nat, nat)>, corrupt: seq<(nat, nat)>,
      pos: nat)
    requires pos < |len| && len[pos] == 0 && (strict || NextValid(len, pos + 1) == |len|)
    requires Continues(len, strict, all, found, corrupt, pos)
    ensures all == Scan(found, corrupt + [(pos, |len|)], pos)
  {
    assert found + [] == found;
  }

  lemma ContinueEnd(len: seq<nat>, strict: bool, all: Scan, found: seq<(nat, nat)>, corrupt: seq<(nat, nat)>, pos: nat)
    requires pos >= |len| && Continues(len, strict, all, found, corrupt, pos)
    ensures all == Scan(found, corrupt, pos)
  {
    assert found + [] == found && corrupt + [] == corrupt;
  }

  lemma ContinueStart(len: seq<nat>, strict: bool, pos: nat)
    ensures Continues(len, strict, ScanFrom(len, pos, strict), [], [], pos)
  {
    var rest := ScanFrom(len, pos, strict);
    assert [] + rest.found == rest.found && [] + rest.corrupt == rest.corrupt;
  }
}
