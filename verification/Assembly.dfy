/** How a streamed reply is put together (kosong generate.ts and message.ts). */
module Assembly {
  import opened Bytes
  import opened JsStrings

  datatype CallIndex = Number(n: int) | Name(s: string)

  /** A streamed part. `Call` is the header of a tool call, `Delta` a piece of its arguments. */
  datatype Part =
    | Text(text: string)
    | Think(think: string, encrypted: Option<string>)
    | Media(kind: string, url: string)
    | Call(index: Option<CallIndex>, id: string, name: string, args: Option<string>, extras: string)
    | Delta(index: Option<CallIndex>, piece: Option<string>)

  predicate IsContent(p: Part) { p.Text? || p.Think? || p.Media? }

  /** A tool call as it is stored: without its streaming index. */
  datatype ToolCall = ToolCall(id: string, name: string, args: Option<string>, extras: string)

  function Stored(p: Part): ToolCall
    requires p.Call?
  {
    ToolCall(p.id, p.name, p.args, p.extras)
  }

  function Append(args: Option<string>, piece: Option<string>): Option<string> {
    if piece.None? then args else if args.None? then piece else Some(args.value + piece.value)
  }

  /** mergeInPlace: the merged target, or None when the two do not merge. */
  function Merge(target: Part, source: Part): Option<Part> {
    if target.Text? && source.Text? then Some(Text(target.text + source.text))
    else if target.Think? && source.Think? && target.encrypted.None? then
      Some(Think(target.think + source.think, source.encrypted))
    else if target.Call? && source.Delta? then Some(target.(args := Append(target.args, source.piece)))
    else None
  }

  // ---- The loop ----------------------------------------------------------------------------------

  /** The state of the loop: the message so far, where each index is stored, the pending part, and the
      calls reported through onToolCallReady. */
  datatype State = State(content: seq<Part>, calls: seq<ToolCall>, places: map<CallIndex, nat>, pending: Option<Part>,
    ready: seq<ToolCall>)

  const Start := State([], [], map[], None, [])

  predicate IsPendingAt(s: State, index: CallIndex) {
    s.pending.Some? && s.pending.value.Call? && s.pending.value.index == Some(index)
  }

  /** flushPart. */
  function Flushed(s: State, p: Part): State {
    if IsContent(p) then s.(content := s.content + [p])
    else if p.Call? then
      s.(calls := s.calls + [Stored(p)], places := if p.index.Some? then s.places[p.index.value := |s.calls|]
        else s.places)
    else s
  }

  /** A delta for a stored call. */
  predicate IsRouted(s: State, p: Part) {
    p.Delta? && p.index.Some? && !IsPendingAt(s, p.index.value) && p.index.value in s.places
  }

  function Step(s: State, p: Part): State {
    if IsRouted(s, p) then
      var at := s.places[p.index.value];
      if at < |s.calls| then s.(calls := s.calls[at := s.calls[at].(args := Append(s.calls[at].args, p.piece))]) else s
    else if s.pending.None? then s.(pending := Some(p))
    else
      match Merge(s.pending.value, p)
      case Some(merged) => s.(pending := Some(merged))
      case None =>
        var t := Flushed(s, s.pending.value);
        t.(pending := Some(p), ready := if s.pending.value.Call? then s.ready + [Stored(s.pending.value)] else s.ready)
  }

  function Run(parts: seq<Part>): State {
    if parts == [] then Start else Step(Run(parts[..|parts| - 1]), parts[|parts| - 1])
  }

  function Finished(s: State): State { if s.pending.Some? then Flushed(s, s.pending.value) else s }

  datatype Outcome = Reply(content: seq<Part>, calls: seq<ToolCall>) | Empty | OnlyThinking

  function OutcomeOf(s: State): Outcome {
    if s.content == [] && s.calls == [] then Empty
    else if (exists i :: 0 <= i < |s.content| && s.content[i].Think?) && s.calls == []
            && !(exists i :: 0 <= i < |s.content| && s.content[i].Text? && !IsBlank(s.content[i].text)) then
              OnlyThinking
    else Reply(s.content, s.calls)
  }

  class Assembler {
    var content: seq<Part>
    var calls: seq<ToolCall>
    var places: map<CallIndex, nat>
    var pending: Option<Part>
    var ready: seq<ToolCall>

    ghost function Now(): State
      reads this
    {
      State(content, calls, places, pending, ready)
    }

    constructor ()
      ensures Now() == Start
    {
      content, calls, places, pending, ready := [], [], map[], None, [];
    }

    method FlushPart(part: Part)
      modifies `content, `calls, `places
      ensures Now() == Flushed(old(Now()), part)
    {
      if IsContent(part) {
        content := content + [part];
        return;
      }
      if part.Call? {
        var ordinal := |calls|;
        calls := calls + [Stored(part)];
        if part.index.Some? { places := places[part.index.value := ordinal]; }
      }
    }

    method MergeInPlace(part: Part) returns (merged: bool)
      requires pending.Some?
      modifies `pending
      ensures merged <==> Merge(old(pending).value, part).Some?
      ensures pending == if merged then Merge(old(pending).value, part) else old(pending)
    {
      var target := pending.value;
      if target.Text? && part.Text? {
        pending := Some(target.(text := target.text + part.text));
        return true;
      }
      if target.Think? && part.Think? {
        if target.encrypted.Some? { return false; }
        pending := Some(target.(think := target.think + part.think));
        if part.encrypted.Some? { pending := Some(pending.value.(encrypted := part.encrypted)); }
        return true;
      }
      if target.Call? && part.Delta? {
        if part.piece.Some? {
          pending := Some(target.(args := if target.args.None? then part.piece
            else Some(target.args.value + part.piece.value)));
        }
        return true;
      }
      merged := false;
    }

    /** One turn of the loop. */
    method Receive(part: Part)
      modifies this
      ensures Now() == Step(old(Now()), part)
    {
      if part.Delta? && part.index.Some?
        && !(pending.Some? && pending.value.Call? && pending.value.index == part.index) {
        if part.index.value in places {
          var at := places[part.index.value];
          if at < |calls| && part.piece.Some? {
            var target := calls[at];
            calls := calls[at := target.(args := if target.args.None? then part.piece
              else Some(target.args.value + part.piece.value))];
          }
          return;
        }
      }
      if pending.None? {
        pending := Some(part);
        return;
      }
      var merged := MergeInPlace(part);
      if !merged {
        FlushPart(pending.value);
        if pending.value.Call? { ready := ready + [Stored(pending.value)]; }
        pending := Some(part);
      }
    }

    method Finish() returns (r: Outcome)
      modifies this
      ensures Now() == Finished(old(Now())) && r == OutcomeOf(Now())
    {
      if pending.Some? { FlushPart(pending.value); }
      if |content| == 0 && |calls| == 0 { return Empty; }
      var hasThink := exists i :: 0 <= i < |content| && content[i].Think?;
      var hasText := exists i :: 0 <= i < |content| && content[i].Text? && !IsBlank(content[i].text);
      if hasThink && !hasText && |calls| == 0 { return OnlyThinking; }
      r := Reply(content, calls);
    }
  }

  /** generate: the reply for a stream of parts, or why there is none: nothing at all came, or thinking
      came and neither a call nor a letter of text that is not a space. */
  method Generate(parts: seq<Part>) returns (r: Outcome)
    ensures r == OutcomeOf(Finished(Run(parts)))
    ensures WellRouted(parts) ==> IsOutcome(r, parts)
  {
    hide Step, IsOutcome, WellRouted, Finished, OutcomeOf;
    if WellRouted(parts) { OutcomeIsRight(parts); }
    var a := new Assembler();
    assert parts[..0] == [];
    for i := 0 to |parts|
      invariant a.Now() == Run(parts[..i])
    {
      assert parts[..i + 1][..i] == parts[..i];
      a.Receive(parts[i]);
    }
    assert parts[..|parts|] == parts;
    r := a.Finish();
  }

  // ---- What a reply should be --------------------------------------------------------------------

  /** Every header has an index of its own, and every delta names the index of an earlier header. */
  predicate WellRouted(parts: seq<Part>) {
    parts == [] ||
      (var init, last := parts[..|parts| - 1], parts[|parts| - 1];
       && WellRouted(init)
       && (last.Call? ==> last.index.Some? && last.index.value !in Indices(init))
       && (last.Delta? ==> last.index.Some? && last.index.value in Indices(init)))
  }

  /** The indices of the headers, in order. */
  function Indices(parts: seq<Part>): seq<CallIndex> {
    if parts == [] then []
    else
      var init, last := Indices(parts[..|parts| - 1]), parts[|parts| - 1];
      if last.Call? && last.index.Some? then init + [last.index.value] else init
  }

  function Headers(parts: seq<Part>): (headers: seq<Part>)
    ensures forall j :: 0 <= j < |headers| ==> headers[j].Call?
  {
    if parts == [] then []
    else
      var init, last := Headers(parts[..|parts| - 1]), parts[|parts| - 1];
      if last.Call? then init + [last] else init
  }

  /** The pieces for one index, in order. */
  function Pieces(parts: seq<Part>, index: CallIndex): seq<string> {
    if parts == [] then []
    else
      var init, last := Pieces(parts[..|parts| - 1], index), parts[|parts| - 1];
      if last.Delta? && last.index == Some(index) && last.piece.Some? then init + [last.piece.value] else init
  }

  function Joined(args: Option<string>, pieces: seq<string>): Option<string> {
    if pieces == [] then args else Append(Joined(args, pieces[..|pieces| - 1]), Some(pieces[|pieces| - 1]))
  }

  /** A header with all its own pieces behind its arguments. */
  function Complete(header: Part, parts: seq<Part>): ToolCall
    requires header.Call?
  {
    ToolCall(header.id, header.name,
             if header.index.Some? then Joined(header.args, Pieces(parts, header.index.value))
               else header.args, header.extras)
  }

  /** The calls in header order, each with its header's arguments and then its own pieces. */
  function Calls(parts: seq<Part>): seq<ToolCall> {
    seq(|Headers(parts)|, j requires 0 <= j < |Headers(parts)| => Complete(Headers(parts)[j], parts))
  }

  /** The content parts, neighbours merged: a header between two keeps them apart, a delta does not. */
  function Blocks(parts: seq<Part>): seq<Part> {
    if parts == [] then []
    else
      var init, last := parts[..|parts| - 1], parts[|parts| - 1];
      var blocks := Blocks(init);
      if !IsContent(last) then blocks
      else if blocks != [] && IsOpen(init) && Merge(blocks[|blocks| - 1], last).Some? then
        blocks[..|blocks| - 1] + [Merge(blocks[|blocks| - 1], last).value]
      else blocks + [last]
  }

  predicate IsOpen(parts: seq<Part>) {
    parts != [] && (IsContent(parts[|parts| - 1]) || (parts[|parts| - 1].Delta? && IsOpen(parts[..|parts| - 1])))
  }

  // ---- One part more -----------------------------------------------------------------------------

  lemma Snoc(parts: seq<Part>, p: Part)
    ensures (parts + [p])[..|parts|] == parts && (parts + [p])[|parts|] == p
  {
  }

  /** Headers and indices go together, and no index is there twice. */
  lemma {:induction false} HeadersHaveIndices(parts: seq<Part>)
    requires WellRouted(parts)
    ensures |Headers(parts)| == |Indices(parts)| == |Calls(parts)|
    ensures forall j :: 0 <= j < |Headers(parts)| ==> Headers(parts)[j].index == Some(Indices(parts)[j])
    ensures forall j, k :: 0 <= j < k < |Indices(parts)| ==> Indices(parts)[j] != Indices(parts)[k]
  {
    if parts != [] { HeadersHaveIndices(parts[..|parts| - 1]); }
  }

  lemma {:induction false} NoEarlyPieces(parts: seq<Part>, index: CallIndex)
    requires WellRouted(parts) && index !in Indices(parts)
    ensures Pieces(parts, index) == []
  {
    if parts != [] { NoEarlyPieces(parts[..|parts| - 1], index); }
  }

  lemma CompleteStep(header: Part, parts: seq<Part>, p: Part)
    requires header.Call? && header.index.Some?
    ensures Complete(header, parts + [p]) ==
            if p.Delta? && p.index == header.index then
              Complete(header, parts).(args := Append(Complete(header, parts).args, p.piece))
            else Complete(header, parts)
  {
    Snoc(parts, p);
    var index := header.index.value;
    if p.Delta? && p.index == header.index && p.piece.Some? {
      var pieces := Pieces(parts, index) + [p.piece.value];
      assert pieces[..|pieces| - 1] == Pieces(parts, index);
    }
  }

  lemma IndicesOfOther(parts: seq<Part>, p: Part)
    requires !p.Call?
    ensures Indices(parts + [p]) == Indices(parts) && Headers(parts + [p]) == Headers(parts)
  {
    Snoc(parts, p);
  }

  lemma IndicesOfHeader(parts: seq<Part>, p: Part)
    requires p.Call? && p.index.Some?
    ensures Indices(parts + [p]) == Indices(parts) + [p.index.value] && Headers(parts + [p]) == Headers(parts) + [p]
  {
    Snoc(parts, p);
  }

  lemma CallsOfContent(parts: seq<Part>, p: Part)
    requires WellRouted(parts) && IsContent(p)
    ensures Calls(parts + [p]) == Calls(parts)
  {
    hide Complete, Headers;
    IndicesOfOther(parts, p);
    HeadersHaveIndices(parts);
    forall j | 0 <= j < |Headers(parts)|
      ensures Complete(Headers(parts)[j], parts + [p]) == Complete(Headers(parts)[j], parts) {
      CompleteStep(Headers(parts)[j], parts, p);
    }
  }

  lemma CallsOfHeader(parts: seq<Part>, p: Part)
    requires WellRouted(parts) && p.Call? && p.index.Some? && p.index.value !in Indices(parts)
    ensures Calls(parts + [p]) == Calls(parts) + [Stored(p)]
  {
    hide Complete, Headers, Indices;
    IndicesOfHeader(parts, p);
    HeadersHaveIndices(parts);
    NoEarlyPieces(parts, p.index.value);
    FreshComplete(parts, p);
    forall j | 0 <= j < |Headers(parts)|
      ensures Complete(Headers(parts)[j], parts + [p]) == Complete(Headers(parts)[j], parts) {
      CompleteStep(Headers(parts)[j], parts, p);
    }
  }

  lemma FreshComplete(parts: seq<Part>, p: Part)
    requires p.Call? && p.index.Some? && Pieces(parts, p.index.value) == []
    ensures Complete(p, parts + [p]) == Stored(p)
  {
    Snoc(parts, p);
  }

  function Extended(calls: seq<ToolCall>, k: nat, piece: Option<string>): seq<ToolCall>
    requires k < |calls|
  {
    calls[k := calls[k].(args := Append(calls[k].args, piece))]
  }

  lemma CallsOfDelta(parts: seq<Part>, p: Part, k: nat)
    requires WellRouted(parts) && p.Delta? && k < |Indices(parts)| == |Calls(parts)|
      && p.index == Some(Indices(parts)[k])
    ensures Calls(parts + [p]) == Extended(Calls(parts), k, p.piece)
  {
    hide Complete, Headers, Indices;
    IndicesOfOther(parts, p);
    HeadersHaveIndices(parts);
    forall j | 0 <= j < |Headers(parts)| ensures Complete(Headers(parts)[j], parts + [p]) ==
      if j == k then
        Complete(Headers(parts)[j], parts).(args := Append(Complete(Headers(parts)[j], parts).args, p.piece))
      else Complete(Headers(parts)[j], parts)
    {
      CompleteStep(Headers(parts)[j], parts, p);
    }
  }

  // ---- What the loop keeps -----------------------------------------------------------------------

  predicate HasPendingCall(s: State) { s.pending.Some? && s.pending.value.Call? }

  function AllCalls(s: State): seq<ToolCall> { s.calls + if HasPendingCall(s) then [Stored(s.pending.value)] else [] }

  /** The first `n` indices lead to the calls with their numbers, and no other index leads anywhere. */
  ghost predicate Placed(places: map<CallIndex, nat>, n: nat, indices: seq<CallIndex>) {
    && n <= |indices|
    && (forall j :: 0 <= j < n ==> indices[j] in places && places[indices[j]] == j)
    && (forall i :: i in places ==> places[i] < n && indices[places[i]] == i)
  }

  ghost predicate PlacesKept(s: State, indices: seq<CallIndex>) {
    && |AllCalls(s)| == |indices|
    && Placed(s.places, |s.calls|, indices)
    && (HasPendingCall(s) ==> s.pending.value.index == Some(indices[|s.calls|]))
  }

  ghost predicate ContentKept(s: State, parts: seq<Part>) {
    && (s.pending.None? ==> parts == [])
    && (s.pending.Some? ==> !s.pending.value.Delta?)
    && (IsOpen(parts) <==> s.pending.Some? && IsContent(s.pending.value))
    && Blocks(parts) == s.content + if IsOpen(parts) then [s.pending.value] else []
  }

  /** The stored calls, then the pending one, are the headers so far, each with its pieces so far; each
      stored call is found under its index; and the content is the merged content so far. */
  ghost predicate Kept(s: State, parts: seq<Part>) {
    AllCalls(s) == Calls(parts) && PlacesKept(s, Indices(parts)) && ContentKept(s, parts)
  }

  lemma StartKept()
    ensures Kept(Start, [])
  {
  }

  lemma PlaceOne(places: map<CallIndex, nat>, n: nat, indices: seq<CallIndex>)
    requires Placed(places, n, indices) && n < |indices|
    requires forall j, k :: 0 <= j < k < |indices| ==> indices[j] != indices[k]
    ensures Placed(places[indices[n] := n], n + 1, indices)
  {
  }

  lemma PlaceMore(places: map<CallIndex, nat>, n: nat, indices: seq<CallIndex>, index: CallIndex)
    requires Placed(places, n, indices)
    ensures Placed(places, n, indices + [index])
  {
  }

  /** A new content part or header leaves the calls as they are and places a call that was pending. */
  lemma FlushKept(s: State, indices: seq<CallIndex>, p: Part)
    requires PlacesKept(s, indices) && !p.Delta?
    requires forall j, k :: 0 <= j < k < |indices| ==> indices[j] != indices[k]
    ensures var t := Step(s, p);
            && AllCalls(t) == AllCalls(s) + (if p.Call? then [Stored(p)] else [])
            && Placed(t.places, |t.calls|, indices)
            && (HasPendingCall(t) <==> p.Call?)
            && (p.Call? ==> t.pending == Some(p) && |t.calls| == |indices|)
  {
    hide Placed;
    if HasPendingCall(s) { PlaceOne(s.places, |s.calls|, indices); }
  }

  lemma ContentPartKept(s: State, parts: seq<Part>, p: Part)
    requires Kept(s, parts) && WellRouted(parts) && IsContent(p)
    ensures Kept(Step(s, p), parts + [p])
  {
    hide Calls, Blocks, Indices, Headers, IsOpen, Step, Placed;
    HeadersHaveIndices(parts);
    IndicesOfOther(parts, p);
    CallsOfContent(parts, p);
    FlushKept(s, Indices(parts), p);
    ContentBlocks(s, parts, p);
  }

  lemma ContentBlocks(s: State, parts: seq<Part>, p: Part)
    requires ContentKept(s, parts) && IsContent(p)
    ensures ContentKept(Step(s, p), parts + [p])
  {
    Snoc(parts, p);
    if s.pending.None? { NoBlocks(); }
    if IsOpen(parts) {
      var blocks := Blocks(parts);
      assert blocks[|blocks| - 1] == s.pending.value && blocks[..|blocks| - 1] == s.content;
    }
  }

  lemma NoBlocks()
    ensures Blocks([]) == []
  {
  }

  lemma BlocksOfOther(parts: seq<Part>, p: Part)
    requires !IsContent(p)
    ensures Blocks(parts + [p]) == Blocks(parts)
    ensures IsOpen(parts + [p]) == (p.Delta? && IsOpen(parts))
  {
    Snoc(parts, p);
  }

  lemma HeaderKept(s: State, parts: seq<Part>, p: Part)
    requires Kept(s, parts) && WellRouted(parts) && p.Call? && p.index.Some? && p.index.value !in Indices(parts)
    ensures Kept(Step(s, p), parts + [p])
  {
    hide Calls, Blocks, Indices, Headers, IsOpen, Step, Placed;
    HeadersHaveIndices(parts);
    IndicesOfHeader(parts, p);
    CallsOfHeader(parts, p);
    FlushKept(s, Indices(parts), p);
    PlaceMore(Step(s, p).places, |Step(s, p).calls|, Indices(parts), p.index.value);
    HeaderContent(s, parts, p);
  }

  lemma HeaderContent(s: State, parts: seq<Part>, p: Part)
    requires ContentKept(s, parts) && p.Call?
    ensures ContentKept(Step(s, p), parts + [p])
  {
    hide Blocks, IsOpen;
    BlocksOfOther(parts, p);
    if s.pending.None? { NoBlocks(); }
  }

  /** A delta goes to the call of its index, stored or pending. */
  lemma DeltaStep(s: State, indices: seq<CallIndex>, p: Part, k: nat)
    requires PlacesKept(s, indices) && p.Delta? && k < |indices| && p.index == Some(indices[k])
    requires forall j, l :: 0 <= j < l < |indices| ==> indices[j] != indices[l]
    ensures var t := Step(s, p);
            && AllCalls(t) == Extended(AllCalls(s), k, p.piece)
            && t.places == s.places && |t.calls| == |s.calls| && t.content == s.content
            && (if HasPendingCall(s) then HasPendingCall(t)
              && t.pending.value.index == s.pending.value.index else t.pending == s.pending)
  {
    if k < |s.calls| { assert indices[k] in s.places; }
  }

  lemma NoIndices()
    ensures Indices([]) == []
  {
  }

  lemma DeltaKept(s: State, parts: seq<Part>, p: Part)
    requires Kept(s, parts) && WellRouted(parts) && p.Delta? && p.index.Some? && p.index.value in Indices(parts)
    ensures Kept(Step(s, p), parts + [p])
  {
    hide Calls, Blocks, Indices, Headers, IsOpen, Step, Placed, Extended;
    HeadersHaveIndices(parts);
    IndicesOfOther(parts, p);
    BlocksOfOther(parts, p);
    NoIndices();
    var k :| 0 <= k < |Indices(parts)| && Indices(parts)[k] == p.index.value;
    CallsOfDelta(parts, p, k);
    DeltaStep(s, Indices(parts), p, k);
  }

  lemma {:induction false} RunKept(parts: seq<Part>)
    requires WellRouted(parts)
    ensures Kept(Run(parts), parts)
  {
    hide Kept, Step;
    if parts == [] {
      StartKept();
    } else {
      var init, last := parts[..|parts| - 1], parts[|parts| - 1];
      RunKept(init);
      assert init + [last] == parts;
      match last
      case Delta(_, _) => DeltaKept(Run(init), init, last);
      case Call(_, _, _, _, _) => HeaderKept(Run(init), init, last);
      case _ => ContentPartKept(Run(init), init, last);
    }
  }

  // ---- The reply does not depend on the interleaving ---------------------------------------------

  /** Whatever the order of the parts, every call ends with its header's arguments followed by its own
      deltas in order, the calls keep header order, and the content is that of the content parts. */
  lemma ReplyIsAssembled(parts: seq<Part>)
    requires WellRouted(parts)
    ensures Finished(Run(parts)).calls == Calls(parts)
    ensures Finished(Run(parts)).content == Blocks(parts)
  {
    hide Complete, Blocks, Run;
    RunKept(parts);
  }

  function WithoutDeltas(parts: seq<Part>): seq<Part> {
    if parts == [] then []
    else
      var init, last := WithoutDeltas(parts[..|parts| - 1]), parts[|parts| - 1];
      if last.Delta? then init else init + [last]
  }

  lemma {:induction false} DeltasAreElsewhere(parts: seq<Part>)
    ensures Blocks(WithoutDeltas(parts)) == Blocks(parts)
    ensures IsOpen(WithoutDeltas(parts)) == IsOpen(parts)
    ensures Headers(WithoutDeltas(parts)) == Headers(parts)
  {
    if parts != [] {
      var init, last := parts[..|parts| - 1], parts[|parts| - 1];
      DeltasAreElsewhere(init);
      if !last.Delta? {
        assert WithoutDeltas(parts) == WithoutDeltas(init) + [last];
        Snoc(WithoutDeltas(init), last);
      }
    }
  }

  /** Two streams with the same headers and content in the same order, and for each index the same deltas
      in the same order, give the same reply, however the deltas are interleaved. */
  lemma InterleavingDoesNotMatter(a: seq<Part>, b: seq<Part>)
    requires WellRouted(a) && WellRouted(b) && WithoutDeltas(a) == WithoutDeltas(b)
    requires forall index :: Pieces(a, index) == Pieces(b, index)
    ensures OutcomeOf(Finished(Run(a))) == OutcomeOf(Finished(Run(b)))
  {
    hide Run, Finished, Headers, Blocks, Pieces, WithoutDeltas, WellRouted;
    ReplyIsAssembled(a);
    ReplyIsAssembled(b);
    DeltasAreElsewhere(a);
    DeltasAreElsewhere(b);
    assert Calls(a) == Calls(b);
  }

  // ---- Content is conserved ----------------------------------------------------------------------

  /** What readers get to see, letter by letter. */
  datatype Token = Letter(c: char) | Thought(c: char) | Signature(s: string) | Attachment(kind: string, url: string)

  function Letters(s: string): seq<Token> { if s == [] then [] else [Letter(s[0])] + Letters(s[1..]) }

  function Thoughts(s: string): seq<Token> { if s == [] then [] else [Thought(s[0])] + Thoughts(s[1..]) }

  function Spelled(p: Part): seq<Token> {
    match p
    case Text(t) => Letters(t)
    case Think(t, e) => Thoughts(t) + if e.Some? then [Signature(e.value)] else []
    case Media(kind, url) => [Attachment(kind, url)]
    case _ => []
  }

  function SpelledAll(parts: seq<Part>): seq<Token> {
    if parts == [] then [] else SpelledAll(parts[..|parts| - 1]) + Spelled(parts[|parts| - 1])
  }

  lemma {:induction false} LettersAppend(a: string, b: string)
    ensures Letters(a + b) == Letters(a) + Letters(b)
  {
    if a == [] {
      assert a + b == b && [] + Letters(b) == Letters(b);
    } else {
      assert (a + b)[1..] == a[1..] + b;
      LettersAppend(a[1..], b);
      assert [Letter(a[0])] + (Letters(a[1..]) + Letters(b)) == ([Letter(a[0])] + Letters(a[1..])) + Letters(b);
    }
  }

  lemma {:induction false} ThoughtsAppend(a: string, b: string)
    ensures Thoughts(a + b) == Thoughts(a) + Thoughts(b)
  {
    if a == [] {
      assert a + b == b && [] + Thoughts(b) == Thoughts(b);
    } else {
      assert (a + b)[1..] == a[1..] + b;
      ThoughtsAppend(a[1..], b);
      assert [Thought(a[0])] + (Thoughts(a[1..]) + Thoughts(b)) == ([Thought(a[0])] + Thoughts(a[1..])) + Thoughts(b);
    }
  }

  lemma MergeSpells(target: Part, source: Part)
    requires IsContent(source) && Merge(target, source).Some?
    ensures Spelled(Merge(target, source).value) == Spelled(target) + Spelled(source)
  {
    hide Letters, Thoughts;
    if target.Text? { LettersAppend(target.text, source.text); }
    if target.Think? {
      ThoughtsAppend(target.think, source.think);
      var a, b := Thoughts(target.think), Thoughts(source.think);
      var c := if source.encrypted.Some? then [Signature(source.encrypted.value)] else [];
      assert (a + []) + (b + c) == (a + b) + c;
    }
  }

  /** Merging neither loses nor reorders a letter of text, a letter of thought, a signature or an attachment. */
  lemma {:induction false} ContentIsConserved(parts: seq<Part>)
    ensures SpelledAll(Blocks(parts)) == SpelledAll(parts)
  {
    hide Spelled, Merge;
    if parts != [] {
      var init, last := parts[..|parts| - 1], parts[|parts| - 1];
      ContentIsConserved(init);
      var blocks := Blocks(init);
      if !IsContent(last) {
        NothingSpelled(last);
      } else if blocks != [] && IsOpen(init) && Merge(blocks[|blocks| - 1], last).Some? {
        MergeSpells(blocks[|blocks| - 1], last);
        Snoc(blocks[..|blocks| - 1], Merge(blocks[|blocks| - 1], last).value);
        var a, b, c := SpelledAll(blocks[..|blocks| - 1]), Spelled(blocks[|blocks| - 1]), Spelled(last);
        assert a + (b + c) == (a + b) + c;
      } else {
        Snoc(blocks, last);
      }
    }
  }

  lemma NothingSpelled(p: Part)
    requires !IsContent(p)
    ensures Spelled(p) == []
  {
  }

  // ---- When there is a reply ---------------------------------------------------------------------

  ghost predicate HasHeader(parts: seq<Part>) { exists i :: 0 <= i < |parts| && parts[i].Call? }

  ghost predicate HasContent(parts: seq<Part>) { exists i :: 0 <= i < |parts| && IsContent(parts[i]) }

  ghost predicate HasThought(parts: seq<Part>) { exists i :: 0 <= i < |parts| && parts[i].Think? }

  /** A letter of text came that is not a space. */
  ghost predicate Says(parts: seq<Part>) { exists c :: Letter(c) in SpelledAll(parts) && !IsSpace(c) }

  ghost predicate IsOutcome(r: Outcome, parts: seq<Part>) {
    if !HasContent(parts) && !HasHeader(parts) then r == Empty
    else if !HasHeader(parts) && HasThought(parts) && !Says(parts) then r == OnlyThinking
    else r == Reply(Blocks(parts), Calls(parts))
  }

  lemma {:induction false} LettersHave(s: string, c: char)
    ensures Letter(c) in Letters(s) <==> c in s
  {
    if s != [] {
      LettersHave(s[1..], c);
      assert s == [s[0]] + s[1..];
    }
  }

  lemma {:induction false} ThoughtsHaveNone(s: string, c: char)
    ensures Letter(c) !in Thoughts(s)
  {
    if s != [] { ThoughtsHaveNone(s[1..], c); }
  }

  lemma SpelledHas(p: Part, c: char)
    ensures Letter(c) in Spelled(p) <==> p.Text? && c in p.text
  {
    hide Letters, Thoughts;
    if p.Text? { LettersHave(p.text, c); }
    if p.Think? { ThoughtsHaveNone(p.think, c); }
  }

  lemma {:induction false} SpelledAllHas(parts: seq<Part>, c: char)
    ensures Letter(c) in SpelledAll(parts) <==> exists i :: 0 <= i < |parts| && parts[i].Text? && c in parts[i].text
  {
    hide Spelled;
    if parts != [] {
      var init, last := parts[..|parts| - 1], parts[|parts| - 1];
      SpelledAllHas(init, c);
      SpelledHas(last, c);
      assert forall i :: 0 <= i < |init| ==> init[i] == parts[i];
    }
  }

  /** Text that is not blank is text that says something. */
  lemma SaysIfText(parts: seq<Part>)
    ensures Says(parts) <==> exists i :: 0 <= i < |parts| && parts[i].Text? && !IsBlank(parts[i].text)
  {
    hide SpelledAll;
    if Says(parts) {
      var c :| Letter(c) in SpelledAll(parts) && !IsSpace(c);
      SpelledAllHas(parts, c);
      var i :| 0 <= i < |parts| && parts[i].Text? && c in parts[i].text;
      assert !IsBlank(parts[i].text);
    }
    if i :| 0 <= i < |parts| && parts[i].Text? && !IsBlank(parts[i].text) {
      var j :| 0 <= j < |parts[i].text| && !IsSpace(parts[i].text[j]);
      SpelledAllHas(parts, parts[i].text[j]);
    }
  }

  /** Merging neither makes nor loses a kind of content. */
  lemma {:induction false} BlocksHave(parts: seq<Part>)
    ensures Blocks(parts) != [] <==> HasContent(parts)
    ensures HasThought(Blocks(parts)) <==> HasThought(parts)
  {
    if parts != [] {
      var init, last := parts[..|parts| - 1], parts[|parts| - 1];
      BlocksHave(init);
      assert forall i :: 0 <= i < |init| ==> init[i] == parts[i];
      assert IsContent(last) ==> HasContent(parts);
      assert last.Think? ==> HasThought(parts);
      assert HasContent(parts) <==> HasContent(init) || IsContent(last);
      assert HasThought(parts) <==> HasThought(init) || last.Think?;
      LastBlock(Blocks(init), Blocks(parts), last, IsContent(last));
    }
  }

  lemma LastBlock(before: seq<Part>, after: seq<Part>, last: Part, content: bool)
    requires if !content then after == before && !IsContent(last)
             else if before != [] && Merge(before[|before| - 1], last).Some?
               && after == before[..|before| - 1] + [Merge(before[|before| - 1], last).value] then IsContent(last)
             else after == before + [last] && IsContent(last)
    ensures after != [] <==> before != [] || IsContent(last)
    ensures HasThought(after) <==> HasThought(before) || last.Think?
  {
    var n := |before|;
    if after == before + [last] {
      assert after[n] == last;
      assert forall i :: 0 <= i < n ==> after[i] == before[i];
    } else if content {
      assert forall i :: 0 <= i < n - 1 ==> after[i] == before[i];
      assert after[n - 1].Think? <==> before[n - 1].Think?;
      assert last.Think? ==> before[n - 1].Think?;
    }
  }

  lemma {:induction false} HeadersHave(parts: seq<Part>)
    ensures Headers(parts) != [] <==> HasHeader(parts)
  {
    if parts != [] {
      var init, last := parts[..|parts| - 1], parts[|parts| - 1];
      HeadersHave(init);
      assert forall i :: 0 <= i < |init| ==> init[i] == parts[i];
      assert last.Call? ==> HasHeader(parts);
    }
  }

  lemma OutcomeIsRight(parts: seq<Part>)
    requires WellRouted(parts)
    ensures IsOutcome(OutcomeOf(Finished(Run(parts))), parts)
  {
    hide Run, Finished, Headers, Blocks, WellRouted, SpelledAll, IsBlank;
    ReplyIsAssembled(parts);
    HeadersHave(parts);
    BlocksHave(parts);
    SaysIfText(Blocks(parts));
    ContentIsConserved(parts);
  }

  // ---- Calls reported early ----------------------------------------------------------------------

  lemma {:induction false} JoinedAppend(args: Option<string>, a: seq<string>, b: seq<string>)
    ensures Joined(args, a + b) == Joined(Joined(args, a), b)
  {
    if b == [] {
      assert a + b == a;
    } else {
      assert (a + b)[..|a + b| - 1] == a + b[..|b| - 1];
      JoinedAppend(args, a, b[..|b| - 1]);
    }
  }

  function Size(args: Option<string>): nat { if args.Some? then |args.value| else 0 }

  lemma {:induction false} JoinedGrows(args: Option<string>, pieces: seq<string>)
    ensures Size(Joined(args, pieces)) >= Size(args) && (args.Some? ==> Joined(args, pieces).Some?)
    ensures Joined(args, pieces) == args <==>
      (forall i :: 0 <= i < |pieces| ==> pieces[i] == "") && (pieces == [] || args.Some?)
  {
    if pieces != [] {
      var init, last := pieces[..|pieces| - 1], pieces[|pieces| - 1];
      JoinedGrows(args, init);
      if Joined(args, pieces) == args {
        assert Size(Joined(args, pieces)) == Size(Joined(args, init)) + |last|;
        assert last == "" && Joined(args, init).value + last == Joined(args, init).value;
      }
      if args.Some? { assert args.value + "" == args.value; }
    }
  }

  lemma {:induction false} PiecesSoFar(parts: seq<Part>, n: nat, index: CallIndex)
    requires n <= |parts|
    ensures Pieces(parts[..n], index) <= Pieces(parts, index)
  {
    if n < |parts| {
      assert parts[..|parts| - 1][..n] == parts[..n];
      PiecesSoFar(parts[..|parts| - 1], n, index);
    } else {
      assert parts[..n] == parts;
    }
  }

  /** What a call has when its block ends is what it has at the end if and only if no later delta for its
      index says anything. */
  lemma EarlyIsFinalIff(header: Part, parts: seq<Part>, n: nat)
    requires header.Call? && header.index.Some? && n <= |parts|
    ensures var index := header.index.value;
            var early, all := Pieces(parts[..n], index), Pieces(parts, index);
            && |early| <= |all|
            && (Complete(header, parts[..n]) == Complete(header, parts) <==>
                  (forall i :: |early| <= i < |all| ==> all[i] == "")
                    && (|early| == |all| || Complete(header, parts[..n]).args.Some?))
  {
    hide Pieces, Joined;
    var index := header.index.value;
    var early, all := Pieces(parts[..n], index), Pieces(parts, index);
    PiecesSoFar(parts, n, index);
    var late := all[|early|..];
    assert all == early + late;
    JoinedAppend(header.args, early, late);
    JoinedGrows(Joined(header.args, early), late);
    assert forall i :: |early| <= i < |all| ==> all[i] == late[i - |early|];
  }

  /** What onToolCallReady reports when a part ends the block of a pending call: the call with the deltas
      that came so far. */
  lemma ReadyIsCompleteSoFar(parts: seq<Part>, n: nat)
    requires WellRouted(parts) && n < |parts| && |Run(parts[..n + 1]).ready| > |Run(parts[..n]).ready|
    ensures WellRouted(parts[..n])
    ensures var headers := Headers(parts[..n]);
            && headers != [] && headers[|headers| - 1].Call?
            && Run(parts[..n + 1]).ready == Run(parts[..n]).ready + [Complete(headers[|headers| - 1], parts[..n])]
  {
    hide Complete, Blocks, Headers, Indices, Placed, IsOpen, WellRouted;
    RoutedSoFar(parts, n);
    var so := parts[..n];
    RunKept(so);
    assert parts[..n + 1][..n] == so;
    HeadersHaveIndices(so);
    var s := Run(so);
    assert HasPendingCall(s) && AllCalls(s)[|s.calls|] == Stored(s.pending.value);
  }

  lemma {:induction false} RoutedSoFar(parts: seq<Part>, n: nat)
    requires WellRouted(parts) && n <= |parts|
    ensures WellRouted(parts[..n])
  {
    if n < |parts| {
      assert parts[..|parts| - 1][..n] == parts[..n];
      RoutedSoFar(parts[..|parts| - 1], n);
    } else {
      assert parts[..n] == parts;
    }
  }
}
