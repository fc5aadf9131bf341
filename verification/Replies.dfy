/** What a streamed reply is, told by its parts: which header makes which call, what its arguments say,
    where blocks begin, which calls are reported on the way, and the streams without indices. */
module Replies {
  import opened Bytes
  import opened JsStrings
  import opened Assembly

  // ---- Calls by their headers --------------------------------------------------------------

  lemma {:induction false} HeadersAppend(a: seq<Part>, b: seq<Part>, p: Part)
    ensures Headers(a + b) == Headers(a) + Headers(b)
    ensures Headers([p]) == if p.Call? then [p] else []
  {
    assert [p][..0] == [];
    if b == [] {
      assert a + b == a;
    } else {
      assert (a + b)[..|a + b| - 1] == a + b[..|b| - 1];
      HeadersAppend(a, b[..|b| - 1], p);
    }
  }

  lemma {:induction false} PiecesAppend(a: seq<Part>, b: seq<Part>, index: CallIndex)
    ensures Pieces(a + b, index) == Pieces(a, index) + Pieces(b, index)
  {
    if b == [] {
      assert a + b == a;
    } else {
      var init, last := b[..|b| - 1], b[|b| - 1];
      assert a + b == (a + init) + [last];
      Snoc(a + init, last);
      PiecesAppend(a, init, index);
    }
  }

  lemma PiecesOfOne(p: Part, index: CallIndex)
    ensures Pieces([p], index) == if p.Delta? && p.index == Some(index) && p.piece.Some? then [p.piece.value] else []
  {
    assert [p][..0] == [];
  }

  function Flat(pieces: seq<string>): string { if pieces == [] then "" else pieces[0] + Flat(pieces[1..]) }

  lemma {:induction false} FlatLast(pieces: seq<string>)
    requires pieces != []
    ensures Flat(pieces) == Flat(pieces[..|pieces| - 1]) + pieces[|pieces| - 1]
  {
    if |pieces| == 1 {
      assert pieces[..0] == [] && Flat(pieces[1..]) == "";
    } else {
      FlatLast(pieces[1..]);
      assert pieces[1..][..|pieces| - 2] == pieces[..|pieces| - 1][1..];
    }
  }

  function TextOf(args: Option<string>): string { if args.Some? then args.value else "" }

  lemma {:induction false} JoinedIsFlat(args: Option<string>, pieces: seq<string>)
    ensures Joined(args, pieces) == if args.None? && pieces == [] then None else Some(TextOf(args) + Flat(pieces))
  {
    if pieces == [] {
      assert args.Some? ==> args.value + "" == args.value;
    } else {
      var init, last := pieces[..|pieces| - 1], pieces[|pieces| - 1];
      JoinedIsFlat(args, init);
      FlatLast(pieces);
      assert TextOf(args) + Flat(pieces) == (TextOf(args) + Flat(init)) + last;
      if args.None? && init == [] { assert (TextOf(args) + Flat(init)) + last == last; }
    }
  }

  /** Call `j` of the reply is header `j`: with its id, name and extras, and its arguments spelled out:
      the header's own, then every piece of its index, one behind the other. */
  lemma CallsCarryTheirHeaders(parts: seq<Part>, j: nat)
    requires WellRouted(parts) && j < |Headers(parts)|
    ensures var h, reply := Headers(parts)[j], Finished(Run(parts)).calls;
            && |reply| == |Headers(parts)| && h.index.Some?
            && var pieces := Pieces(parts, h.index.value);
               && reply[j].id == h.id && reply[j].name == h.name && reply[j].extras == h.extras
               && reply[j].args == if h.args.None? && pieces == [] then None else Some(TextOf(h.args) + Flat(pieces))
  {
    hide Run, Finished, Blocks, WellRouted, Pieces, Joined;
    ReplyIsAssembled(parts);
    HeadersHaveIndices(parts);
    var h := Headers(parts)[j];
    JoinedIsFlat(h.args, Pieces(parts, h.index.value));
  }

  // ---- Blocks ------------------------------------------------------------------------------

  /** A header ends the block before it: the blocks of a stream are those in front of the header, then
      those behind it. */
  lemma {:induction false} HeaderSplitsBlocks(a: seq<Part>, h: Part, b: seq<Part>)
    requires h.Call?
    ensures Blocks(a + [h] + b) == Blocks(a) + Blocks(b)
    ensures b != [] ==> IsOpen(a + [h] + b) == IsOpen(b)
  {
    hide Merge, Blocks, IsOpen, Grown;
    var all := a + [h] + b;
    NoBlocks();
    OneMoreBlock(a, h);
    NotGrown(Blocks(a), IsOpen(a), h);
    if b == [] {
      assert all == a + [h] && Blocks(a) + [] == Blocks(a);
    } else {
      var init, last := b[..|b| - 1], b[|b| - 1];
      assert all == (a + [h] + init) + [last] && b == init + [last];
      assert init == [] ==> a + [h] + init == a + [h];
      HeaderSplitsBlocks(a, h, init);
      OneMoreBlock(a + [h] + init, last);
      OneMoreBlock(init, last);
      OpenHasBlock(init);
      GrownBehind(Blocks(a), Blocks(init), IsOpen(init), last);
    }
  }

  /** The blocks with one part more. */
  function Grown(blocks: seq<Part>, open: bool, p: Part): seq<Part> {
    if !IsContent(p) then blocks
    else if blocks != [] && open && Merge(blocks[|blocks| - 1], p).Some? then
      blocks[..|blocks| - 1] + [Merge(blocks[|blocks| - 1], p).value]
    else blocks + [p]
  }

  lemma NoBlocks()
    ensures Blocks([]) == [] && !IsOpen([])
  {
  }

  lemma NotGrown(blocks: seq<Part>, open: bool, p: Part)
    requires !IsContent(p)
    ensures Grown(blocks, open, p) == blocks
  {
  }

  lemma OneMoreBlock(parts: seq<Part>, p: Part)
    ensures IsOpen(parts + [p]) <==> IsContent(p) || (p.Delta? && IsOpen(parts))
    ensures Blocks(parts + [p]) == Grown(Blocks(parts), IsOpen(parts), p)
  {
    hide Merge;
    Snoc(parts, p);
  }

  lemma GrownBehind(front: seq<Part>, back: seq<Part>, open: bool, p: Part)
    requires open ==> back != []
    ensures Grown(front + back, open, p) == front + Grown(back, open, p)
  {
    hide Merge;
    if back != [] {
      assert (front + back)[|front + back| - 1] == back[|back| - 1];
      assert (front + back)[..|front + back| - 1] == front + back[..|back| - 1];
    }
    assert (front + back) + [p] == front + (back + [p]);
  }

  lemma {:induction false} OpenHasBlock(parts: seq<Part>)
    ensures IsOpen(parts) ==> Blocks(parts) != []
  {
    if parts != [] { OpenHasBlock(parts[..|parts| - 1]); }
  }

  /** Two blocks of the same kind that could be one. */
  predicate CouldBeOne(p: Part, q: Part) { (p.Text? && q.Text?) || (p.Think? && q.Think? && p.encrypted.None?) }

  /** Without a header, neighbouring blocks never could be one. */
  lemma {:induction false} BlocksAreMerged(parts: seq<Part>)
    requires forall i :: 0 <= i < |parts| ==> !parts[i].Call?
    ensures forall i :: 0 <= i < |Blocks(parts)| - 1 ==> !CouldBeOne(Blocks(parts)[i], Blocks(parts)[i + 1])
    ensures parts != [] && !parts[0].Delta? ==> IsOpen(parts)
  {
    if parts != [] {
      var init, last := parts[..|parts| - 1], parts[|parts| - 1];
      assert forall i :: 0 <= i < |init| ==> init[i] == parts[i];
      BlocksAreMerged(init);
      OpenIfBlocks(init);
    }
  }

  lemma {:induction false} OpenIfBlocks(parts: seq<Part>)
    requires forall i :: 0 <= i < |parts| ==> !parts[i].Call?
    ensures Blocks(parts) != [] ==> IsOpen(parts)
  {
    if parts != [] { OpenIfBlocks(parts[..|parts| - 1]); }
  }

  // ---- Calls reported on the way -----------------------------------------------------------

  /** The last header is still open: nothing but deltas behind it. */
  predicate CallOpen(parts: seq<Part>) {
    parts != [] && (parts[|parts| - 1].Call? || (parts[|parts| - 1].Delta? && CallOpen(parts[..|parts| - 1])))
  }

  /** The calls reported are the calls stored, with the arguments they had then. */
  ghost predicate StoredIsReported(s: State) {
    && |s.ready| == |s.calls|
    && forall j :: 0 <= j < |s.calls| ==>
         s.ready[j].id == s.calls[j].id && s.ready[j].name == s.calls[j].name && s.ready[j].extras == s.calls[j].extras
  }

  lemma {:induction false} RunReports(parts: seq<Part>)
    ensures StoredIsReported(Run(parts))
  {
    if parts != [] { RunReports(parts[..|parts| - 1]); }
  }

  lemma {:induction false} PendingIffOpen(parts: seq<Part>)
    requires WellRouted(parts)
    ensures HasPendingCall(Run(parts)) <==> CallOpen(parts)
  {
    hide Blocks, Calls, IsOpen;
    if parts != [] {
      var init, last := parts[..|parts| - 1], parts[|parts| - 1];
      PendingIffOpen(init);
      RunKept(init);
      HeadersHaveIndices(init);
      if last.Delta? {
        var k :| 0 <= k < |Indices(init)| && Indices(init)[k] == last.index.value;
        DeltaStep(Run(init), Indices(init), last, k);
      }
    }
  }

  /** Every call whose block has ended has been reported as ready, once, in the order of the headers. */
  lemma EveryCallIsReported(parts: seq<Part>)
    requires WellRouted(parts)
    ensures var ready, headers := Run(parts).ready, Headers(parts);
            && |ready| == |headers| - (if CallOpen(parts) then 1 else 0)
            && forall j :: 0 <= j < |ready| ==>
                 && ready[j].id == headers[j].id && ready[j].name == headers[j].name
                 && ready[j].extras == headers[j].extras
  {
    hide Run, Blocks, Headers, Indices, IsOpen, Placed;
    RunReports(parts);
    PendingIffOpen(parts);
    RunKept(parts);
    HeadersHaveIndices(parts);
    var s := Run(parts);
    assert forall j :: 0 <= j < |s.calls| ==> s.calls[j] == AllCalls(s)[j] == Calls(parts)[j];
  }

  // ---- Streams without indices -------------------------------------------------------------

  /** Every delta comes without an index, while a header is open. */
  predicate InSequence(parts: seq<Part>) {
    parts == [] ||
      (var init, last := parts[..|parts| - 1], parts[|parts| - 1];
       InSequence(init) && (last.Delta? ==> last.index.None? && CallOpen(init)))
  }

  /** Each header with the deltas that follow it. */
  function CallsInSequence(parts: seq<Part>): seq<ToolCall> {
    if parts == [] then []
    else
      var init, last := CallsInSequence(parts[..|parts| - 1]), parts[|parts| - 1];
      if last.Call? then init + [Stored(last)]
      else if last.Delta? && init != [] then
        init[..|init| - 1] + [init[|init| - 1].(args := Append(init[|init| - 1].args, last.piece))]
      else init
  }

  ghost predicate KeptInSequence(s: State, parts: seq<Part>) {
    && AllCalls(s) == CallsInSequence(parts)
    && (HasPendingCall(s) <==> CallOpen(parts))
    && (s.pending.None? ==> parts == [])
    && (s.pending.Some? ==> !s.pending.value.Delta?)
    && Blocks(parts) == s.content + (if s.pending.Some? && IsContent(s.pending.value) then [s.pending.value] else [])
    && (IsOpen(parts) <==> s.pending.Some? && IsContent(s.pending.value))
  }

  lemma SequenceStep(s: State, parts: seq<Part>, p: Part)
    requires KeptInSequence(s, parts) && (p.Delta? ==> p.index.None? && CallOpen(parts))
    ensures KeptInSequence(Step(s, p), parts + [p])
  {
    hide Blocks, IsOpen;
    Snoc(parts, p);
    if s.pending.None? { NoBlocks(); }
    if IsContent(p) {
      ContentBlocks(s, parts, p);
      ContentInSequence(s, p);
    } else {
      BlocksOfOther(parts, p);
    }
  }

  lemma ContentInSequence(s: State, p: Part)
    requires IsContent(p)
    ensures AllCalls(Step(s, p)) == AllCalls(s) && !HasPendingCall(Step(s, p))
  {
  }

  lemma {:induction false} RunInSequence(parts: seq<Part>)
    requires InSequence(parts)
    ensures KeptInSequence(Run(parts), parts)
  {
    hide Step, Blocks, IsOpen, CallsInSequence;
    if parts == [] {
      NoBlocks();
      NothingInSequence();
    } else {
      var init, last := parts[..|parts| - 1], parts[|parts| - 1];
      RunInSequence(init);
      assert init + [last] == parts;
      SequenceStep(Run(init), init, last);
    }
  }

  lemma NothingInSequence()
    ensures CallsInSequence([]) == [] && !IsOpen([])
  {
  }

  /** A stream without indices: every call is its header with the deltas that follow it, and content is
      that of the content parts, as with indices. */
  lemma ReplyInSequence(parts: seq<Part>)
    requires InSequence(parts)
    ensures Finished(Run(parts)).calls == CallsInSequence(parts)
    ensures Finished(Run(parts)).content == Blocks(parts)
  {
    hide Run, Blocks, IsOpen, CallsInSequence;
    RunInSequence(parts);
  }

  /** A header and the deltas behind it make one call, whose arguments are spelled out; content between
      calls changes none. */
  lemma {:induction false} DeltasExtendTheirCall(front: seq<Part>, h: Part, deltas: seq<Part>, p: Part)
    requires h.Call? && IsContent(p) && forall i :: 0 <= i < |deltas| ==> deltas[i].Delta?
    ensures CallsInSequence(front + [h] + deltas)
            == CallsInSequence(front) + [Stored(h).(args := Joined(h.args, PiecesOf(deltas)))]
    ensures CallsInSequence(front + [p]) == CallsInSequence(front)
  {
    Snoc(front, p);
    if deltas == [] {
      assert front + [h] + deltas == front + [h];
      Snoc(front, h);
    } else {
      var init, last := deltas[..|deltas| - 1], deltas[|deltas| - 1];
      assert front + [h] + deltas == (front + [h] + init) + [last];
      Snoc(front + [h] + init, last);
      DeltasExtendTheirCall(front, h, init, p);
      var before, pieces := CallsInSequence(front + [h] + init), PiecesOf(init);
      assert before[..|before| - 1] == CallsInSequence(front);
      if last.piece.Some? { assert (pieces + [last.piece.value])[..|pieces|] == pieces; }
    }
  }

  /** What the deltas say, in order. */
  function PiecesOf(deltas: seq<Part>): seq<string> {
    if deltas == [] then []
    else
      var init, last := PiecesOf(deltas[..|deltas| - 1]), deltas[|deltas| - 1];
      if last.Delta? && last.piece.Some? then init + [last.piece.value] else init
  }
}
