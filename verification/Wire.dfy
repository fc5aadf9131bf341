/** What the normalisation of a history does, told by its messages: what legal means position by
    position, which results stay, what is made up, what is reported (kosong normalize.ts). */
module Wire {
  import opened Bytes
  import opened JsStrings
  import opened Json
  import opened JsonTexts
  import opened Assembly
  import opened Normalize

  // ---- Arguments ---------------------------------------------------------------------------

  /** Arguments that were cut come back, if what the cut took makes them a JSON object. */
  lemma CutArgumentsComeBack(s: string, t: string, c: string)
    requires Completes(s, t, c) && IsJsonObject(t) && !IsJson(s)
    ensures RepairedArgs(Some(s)) == Some(t)
  {
    hide Completes, IsJson, IsBlank, Closed;
    CutTextComesBack(s, t, c);
    CutIsNotBlank(s, t, c);
  }

  lemma CutIsNotBlank(s: string, t: string, c: string)
    requires Completes(s, t, c)
    ensures !IsBlank(s)
  {
    BlankIsTrimmedEmpty(s);
  }

  /** A text that lacks brackets is none itself. */
  lemma LackingBracketsIsNoJson(s: string, c: string)
    requires IsJson(s + c) && AllClosers(c) && c != []
    ensures !IsJson(s)
  {
    hide IsJson, Scanned, StaysUp;
    if IsJson(s) {
      JsonIsBalanced(s);
      JsonIsBalanced(s + c);
      ScanSplit(Outside, s, c);
      FallsBelow(c);
    }
  }

  lemma FallsBelow(c: string)
    requires AllClosers(c) && c != []
    ensures Scanned(Outside, c) != Outside
  {
    DepthFalls(Outside, c);
  }

  /** All other arguments: good ones stay, and what is JSON but no object is replaced. */
  lemma OtherArguments(args: Option<string>)
    ensures args.None? || IsBlank(args.value) || IsJsonObject(args.value) ==> RepairedArgs(args) == args
    ensures args.Some? && !IsBlank(args.value) && IsJson(args.value) && !IsJsonObject(args.value) ==>
      RepairedArgs(args) == Some("{}")
  {
    hide IsBlank, IsJson, Closed;
  }

  /** A repaired call has its arguments repaired, its name unless that was blank, and all else as it was. */
  lemma {:induction false} OneCallRepaired(calls: seq<ToolCall>, used: set<string>, i: nat)
    requires i < |calls|
    ensures |RepairedCalls(calls, used)| == |calls|
    ensures var c := RepairedCalls(calls, used)[i];
            && c.id == calls[i].id && c.extras == calls[i].extras && c.args == RepairedArgs(calls[i].args)
            && (!IsBlank(calls[i].name) ==> c.name == calls[i].name)
    decreases i
  {
    hide ArgsOk, IsBlank, RepairedArgs, Placeholder;
    RepairedCallsAreGood(calls, used);
    if i > 0 { OneCallRepaired(calls[1..], used + {RepairedName(calls[0].name, used)}, i - 1); }
  }

  // ---- Legal, position by position ---------------------------------------------------------

  /** The results that follow message `i` at once. */
  function BlockAt(ms: seq<Message>, i: nat): seq<Message>
    requires i < |ms|
  {
    ms[i + 1..][..ToolRun(ms[i + 1..])]
  }

  /** A message with calls: each call has a name with a letter in it and arguments that are absent, blank or
      a JSON object; and each id is answered as often as it is called. */
  ghost predicate AnsweredAt(ms: seq<Message>, i: nat)
    requires i < |ms|
  {
    IsOpener(ms[i]) ==>
      && (forall j :: 0 <= j < |ms[i].toolCalls| ==> GoodCall(ms[i].toolCalls[j]))
      && forall id :: Answers(BlockAt(ms, i), id) == Called(ms[i].toolCalls, id)
  }

  ghost predicate GoodCall(c: ToolCall) {
    && (exists k :: 0 <= k < |c.name| && !IsSpace(c.name[k]))
    && (c.args.Some? && (exists k :: 0 <= k < |c.args.value| && !IsSpace(c.args.value[k])) ==>
          IsJsonObject(c.args.value))
  }

  /** How often an id is answered, and how often it is called. */
  function Answers(ms: seq<Message>, id: Option<string>): nat {
    if ms == [] then 0 else (if ms[0].toolCallId == id then 1 else 0) + Answers(ms[1..], id)
  }

  function Called(calls: seq<ToolCall>, id: Option<string>): nat {
    if calls == [] then 0 else (if Some(calls[0].id) == id then 1 else 0) + Called(calls[1..], id)
  }

  /** A result stands behind a message with calls, with nothing but results between. */
  ghost predicate OwnedAt(ms: seq<Message>, i: nat)
    requires i < |ms|
  {
    IsTool(ms[i]) ==> exists j :: OwnerAt(ms, i, j)
  }

  ghost predicate OwnerAt(ms: seq<Message>, i: nat, j: int)
    requires i < |ms|
  {
    0 <= j < i && IsOpener(ms[j]) && forall k :: j < k < i ==> IsTool(ms[k])
  }

  lemma {:induction false} AnswersCount(ms: seq<Message>, id: Option<string>)
    ensures multiset(AnswerIds(ms))[id] == Answers(ms, id)
  {
    if ms != [] {
      AnswersCount(ms[1..], id);
      assert AnswerIds(ms) == [ms[0].toolCallId] + AnswerIds(ms[1..]);
    }
  }

  lemma {:induction false} CalledCount(calls: seq<ToolCall>, id: Option<string>)
    ensures multiset(CallIds(calls))[id] == Called(calls, id)
  {
    if calls != [] {
      CalledCount(calls[1..], id);
      assert CallIds(calls) == [Some(calls[0].id)] + CallIds(calls[1..]);
    }
  }

  lemma AnsweredMeans(ms: seq<Message>, i: nat)
    requires i < |ms|
    ensures AnsweredAt(ms, i) <==>
            (IsOpener(ms[i]) ==>
              && CallsOk(ms[i].toolCalls)
              && multiset(AnswerIds(BlockAt(ms, i))) == multiset(CallIds(ms[i].toolCalls)))
  {
    hide BlockAt, AnswerIds, CallIds, Answers, Called, ArgsOk, GoodCall, IsBlank;
    var block, calls := BlockAt(ms, i), ms[i].toolCalls;
    forall id ensures multiset(AnswerIds(block))[id] == Answers(block, id)
                      && multiset(CallIds(calls))[id] == Called(calls, id) {
      AnswersCount(block, id);
      CalledCount(calls, id);
    }
    forall j | 0 <= j < |calls| ensures GoodCall(calls[j]) <==> !IsBlank(calls[j].name) && ArgsOk(calls[j].args) {
      GoodCallMeans(calls[j]);
    }
    if forall id :: Answers(block, id) == Called(calls, id) {
      forall id ensures multiset(AnswerIds(block))[id] == multiset(CallIds(calls))[id] {
        assert Answers(block, id) == Called(calls, id);
      }
      assert multiset(AnswerIds(block)) == multiset(CallIds(calls));
    }
  }

  lemma GoodCallMeans(c: ToolCall)
    ensures GoodCall(c) <==> !IsBlank(c.name) && ArgsOk(c.args)
  {
    hide IsJsonObject;
  }

  ghost predicate AllRight(ms: seq<Message>) { forall i :: 0 <= i < |ms| ==> AnsweredAt(ms, i) && OwnedAt(ms, i) }

  lemma ShiftAnswered(ms: seq<Message>, n: nat, i: nat)
    requires n + i < |ms|
    ensures AnsweredAt(ms, n + i) == AnsweredAt(ms[n..], i)
  {
    assert ms[n + i + 1..] == ms[n..][i + 1..];
  }

  /** Behind a message that is no result, owners lie in the rest. */
  lemma ShiftOwned(ms: seq<Message>, n: nat, i: nat)
    requires 0 < n && n + i < |ms| && !IsTool(ms[n])
    ensures OwnedAt(ms, n + i) == OwnedAt(ms[n..], i)
  {
    var at, rest := n + i, ms[n..];
    if IsTool(ms[at]) {
      if j :| OwnerAt(ms, at, j) {
        assert j >= n;
        assert OwnerAt(rest, i, j - n);
      }
      if j :| OwnerAt(rest, i, j) {
        forall k | n + j < k < at ensures IsTool(ms[k]) { assert ms[k] == rest[k - n]; }
        assert OwnerAt(ms, at, n + j);
      }
    }
  }

  /** A history is legal exactly when every message with calls is answered and every result is owned. */
  lemma {:induction false} LegalByPosition(ms: seq<Message>)
    ensures Legal(ms) <==> AllRight(ms)
    decreases |ms|
  {
    hide AnsweredAt, OwnedAt, CallsOk, BlockAt, AnswerIds, CallIds;
    if ms != [] {
      if IsTool(ms[0]) {
        NoOwnerInFront(ms);
      } else {
        AnsweredMeans(ms, 0);
        BlockOfFirst(ms);
        var n := 1 + if IsOpener(ms[0]) then ToolRun(ms[1..]) else 0;
        assert IsOpener(ms[0]) ==> ms[1..][ToolRun(ms[1..])..] == ms[n..];
        LegalByPosition(ms[n..]);
        NotOwned(ms);
        RestIsRight(ms, n);
      }
    }
  }

  lemma BlockOfFirst(ms: seq<Message>)
    requires ms != []
    ensures BlockAt(ms, 0) == ms[1..][..ToolRun(ms[1..])]
  {
  }

  lemma NoOwnerInFront(ms: seq<Message>)
    requires ms != [] && IsTool(ms[0])
    ensures !OwnedAt(ms, 0)
  {
  }

  lemma NotOwned(ms: seq<Message>)
    requires ms != [] && !IsTool(ms[0])
    ensures OwnedAt(ms, 0)
    ensures |ms| > 1 && IsTool(ms[1]) && !IsOpener(ms[0]) ==> !OwnedAt(ms, 1)
  {
  }

  /** Behind the first message and its results, the rest is right on its own. */
  lemma RestIsRight(ms: seq<Message>, n: nat)
    requires ms != [] && !IsTool(ms[0]) && n == 1 + (if IsOpener(ms[0]) then ToolRun(ms[1..]) else 0)
    ensures AllRight(ms) <==> AnsweredAt(ms, 0) && AllRight(ms[n..])
  {
    hide AnsweredAt, BlockAt;
    NotOwned(ms);
    NoResultBehind(ms, n);
    forall i | 1 <= i < n ensures AnsweredAt(ms, i) && OwnedAt(ms, i) {
      assert IsTool(ms[i]) by { assert ms[i] == ms[1..][i - 1]; }
      ToolNeedsNoAnswer(ms, i);
      forall k | 0 < k < i ensures IsTool(ms[k]) { assert ms[k] == ms[1..][k - 1]; }
      assert OwnerAt(ms, i, 0);
    }
    if n < |ms| {
      if IsTool(ms[n]) {
        NoOwnerInFront(ms[n..]);
      } else {
        forall i: nat | n + i < |ms|
          ensures AnsweredAt(ms, n + i) == AnsweredAt(ms[n..], i) && OwnedAt(ms, n + i) == OwnedAt(ms[n..], i)
        {
          ShiftAnswered(ms, n, i);
          ShiftOwned(ms, n, i);
        }
        if AllRight(ms[n..]) && AnsweredAt(ms, 0) {
          forall i | 0 <= i < |ms| ensures AnsweredAt(ms, i) && OwnedAt(ms, i) {
            if i >= n { assert AnsweredAt(ms[n..], i - n) && OwnedAt(ms[n..], i - n); }
          }
        }
        if AllRight(ms) {
          forall i | 0 <= i < |ms[n..]| ensures AnsweredAt(ms[n..], i) && OwnedAt(ms[n..], i) {
            assert AnsweredAt(ms, n + i) && OwnedAt(ms, n + i);
          }
        }
      }
    }
  }

  lemma NoResultBehind(ms: seq<Message>, n: nat)
    requires ms != [] && n == 1 + (if IsOpener(ms[0]) then ToolRun(ms[1..]) else 0)
    ensures n <= |ms| && (IsOpener(ms[0]) && n < |ms| ==> !IsTool(ms[n]))
  {
    if IsOpener(ms[0]) && n < |ms| { assert ms[n] == ms[1..][n - 1]; }
  }

  lemma ToolNeedsNoAnswer(ms: seq<Message>, i: nat)
    requires i < |ms| && IsTool(ms[i])
    ensures AnsweredAt(ms, i)
  {
  }

  // ---- Which results stay ------------------------------------------------------------------

  /** The results that answer something open, in order. */
  function Kept(tools: seq<Message>, open: multiset<Option<string>>): seq<Message> {
    if tools == [] then []
    else if tools[0].toolCallId in open then [tools[0]] + Kept(tools[1..], open - multiset{tools[0].toolCallId})
    else Kept(tools[1..], open)
  }

  /** A result stays exactly when fewer results with its id came before it than there are calls. */
  lemma {:induction false} KeptIff(tools: seq<Message>, t: Message, open: multiset<Option<string>>)
    ensures Kept(tools + [t], open)
            == Kept(tools, open) + if Answers(tools, t.toolCallId) < open[t.toolCallId] then [t] else []
    decreases tools
  {
    if tools == [] {
      assert tools + [t] == [t] && [t][1..] == [];
    } else {
      var rest, id := tools[1..], tools[0].toolCallId;
      assert (tools + [t])[1..] == rest + [t];
      KeptIff(rest, t, if id in open then open - multiset{id} else open);
    }
  }

  lemma {:induction false} RunIsKept(tools: seq<Message>, rest: seq<Message>, p: Pending) returns (p': Pending)
    requires Distinct(p) && forall i :: 0 <= i < |tools| ==> IsTool(tools[i])
    ensures Distinct(p') && Repaired(tools + rest, p) == Kept(tools, Bag(p)) + Repaired(rest, p')
    ensures Bag(p') + multiset(AnswerIds(Kept(tools, Bag(p)))) == Bag(p)
    decreases tools
  {
    hide Bag, Distinct, IsAnswer, Answered, RepairedMessage, Fillers, Awaiting, Repaired, Reports, Kept, AnswerIds;
    KeptFirst(tools, Bag(p));
    if tools == [] {
      p' := p;
      assert tools + rest == rest && [] + Repaired(rest, p) == Repaired(rest, p);
    } else {
      var t := tools[0];
      assert (tools + rest)[0] == t && (tools + rest)[1..] == tools[1..] + rest;
      AnswerTakesOne(t, p);
      NextMessage(tools + rest, p);
      if IsAnswer(t, p) {
        p' := RunIsKept(tools[1..], rest, Answered(t, p));
        var more := Kept(tools[1..], Bag(Answered(t, p)));
        Normalize.Regroup([t], more, Repaired(rest, p'));
        OneLess(Bag(p'), AnswerIds(more), t.toolCallId, Bag(p));
      } else {
        p' := RunIsKept(tools[1..], rest, p);
      }
    }
  }

  lemma OneLess(left: multiset<Option<string>>, ids: seq<Option<string>>, id: Option<string>,
      open: multiset<Option<string>>)
    requires id in open && left + multiset(ids) == open - multiset{id}
    ensures left + multiset([id] + ids) == open
  {
    assert multiset([id] + ids) == multiset{id} + multiset(ids);
    assert open == (open - multiset{id}) + multiset{id};
  }

  lemma KeptFirst(tools: seq<Message>, open: multiset<Option<string>>)
    ensures tools == [] ==> Kept(tools, open) == [] && open + multiset(AnswerIds(Kept(tools, open))) == open
    ensures tools != [] ==>
      var id := tools[0].toolCallId;
      if id in open then
        && Kept(tools, open) == [tools[0]] + Kept(tools[1..], open - multiset{id})
        && AnswerIds(Kept(tools, open)) == [id] + AnswerIds(Kept(tools[1..], open - multiset{id}))
      else Kept(tools, open) == Kept(tools[1..], open)
  {
    if tools == [] {
      assert AnswerIds([]) == [];
    } else {
      var more := Kept(tools[1..], open - multiset{tools[0].toolCallId});
      assert ([tools[0]] + more)[1..] == more;
    }
  }

  lemma {:induction false} FillersAnswer(p: Pending)
    requires Distinct(p)
    ensures multiset(AnswerIds(Fillers(p))) == Bag(p)
    ensures forall i :: 0 <= i < |Fillers(p)| ==>
      Fillers(p)[i].toolCallId.Some? && Fillers(p)[i] == Synthetic(Fillers(p)[i].toolCallId.value)
  {
    hide Synthetic, Bag, AnswerIds, Copies;
    BagFirst(p);
    if p == [] {
      NoAnswers();
    } else {
      var (id, n) := p[0];
      FillersAnswer(p[1..]);
      CopiesAnswer(id, n);
      SyntheticAnswers(id);
      var copies := Copies(Synthetic(id), n);
      AnswerIdsAppend(copies, Fillers(p[1..]));
      forall j ensures multiset(AnswerIds(Fillers(p)))[j] == Bag(p)[j] {
        MultisetAppend(AnswerIds(copies), AnswerIds(Fillers(p[1..])), j);
      }
    }
  }

  lemma NoAnswers()
    ensures AnswerIds([]) == []
  {
  }

  lemma BagFirst(p: Pending)
    ensures p == [] ==> Bag(p) == multiset{}
    ensures p != [] ==> forall j :: Bag(p)[j] == Bag(p[1..])[j] + if j == Some(p[0].0) then p[0].1 else 0
  {
  }

  lemma {:induction false} CopiesAnswer(id: string, n: nat)
    ensures forall j :: multiset(AnswerIds(Copies(Synthetic(id), n)))[j] == if j == Some(id) then n else 0
    ensures forall i :: 0 <= i < |Copies(Synthetic(id), n)| ==> Copies(Synthetic(id), n)[i] == Synthetic(id)
  {
    SyntheticAnswers(id);
    hide Synthetic;
    if n > 0 {
      CopiesAnswer(id, n - 1);
      var c := Copies(Synthetic(id), n);
      assert c[1..] == Copies(Synthetic(id), n - 1);
      assert AnswerIds(c) == [Some(id)] + AnswerIds(c[1..]);
    }
  }

  lemma {:induction false} AnswerIdsAppend(a: seq<Message>, b: seq<Message>)
    ensures AnswerIds(a + b) == AnswerIds(a) + AnswerIds(b)
  {
    if a == [] {
      assert a + b == b && [] + AnswerIds(b) == AnswerIds(b);
    } else {
      assert (a + b)[1..] == a[1..] + b;
      AnswerIdsAppend(a[1..], b);
      Normalize.Regroup([a[0].toolCallId], AnswerIds(a[1..]), AnswerIds(b));
    }
  }

  /** Nothing open: the rest begins without placeholders. */
  lemma FlushesFirst(rest: seq<Message>, p: Pending)
    requires rest == [] || !IsTool(rest[0])
    ensures Repaired(rest, p) == Fillers(p) + Repaired(rest, [])
  {
    hide RepairedMessage, Awaiting;
    if rest == [] {
      assert Fillers([]) == [] && Fillers(p) + [] == Fillers(p);
    } else {
      var next := [RepairedMessage(rest[0])] + Repaired(rest[1..], Awaiting(rest[0]));
      assert Fillers([]) == [] && [] + next == next;
    }
  }

  /** What becomes of a message with calls and the results that follow it: the message with its calls
      repaired; the results that answer a call, in order, and no other; then placeholders, which answer
      exactly the calls that have no result. Then comes what becomes of the rest. */
  lemma BlockIsRepaired(m: Message, tools: seq<Message>, rest: seq<Message>) returns (made: seq<Message>)
    requires IsOpener(m) && (forall i :: 0 <= i < |tools| ==> IsTool(tools[i])) && (rest == [] || !IsTool(rest[0]))
    ensures var kept := Kept(tools, multiset(CallIds(m.toolCalls)));
            && Repaired([m] + tools + rest, []) == [RepairedMessage(m)] + kept + made + Repaired(rest, [])
            && multiset(AnswerIds(kept)) + multiset(AnswerIds(made)) == multiset(CallIds(m.toolCalls))
    ensures forall i :: 0 <= i < |made| ==>
      made[i].toolCallId.Some? && made[i] == Synthetic(made[i].toolCallId.value)
  {
    hide RepairedMessage, Bag, Distinct, Kept, OpenedFor, CallIds, Fillers, Synthetic, AnswerIds;
    var ms := [m] + tools + rest;
    assert ms[0] == m && ms[1..] == tools + rest;
    OpenedForBag(m.toolCalls);
    var p := OpenedFor(m.toolCalls);
    var p' := RunIsKept(tools, rest, p);
    FlushesFirst(rest, p');
    FillersAnswer(p');
    made := Fillers(p');
    RepairedFirst(m, tools + rest);
    assert Repaired(ms, []) == [RepairedMessage(m)] + (Kept(tools, Bag(p)) + (made + Repaired(rest, [])));
  }

  lemma RepairedFirst(m: Message, ms: seq<Message>)
    requires IsOpener(m)
    ensures Repaired([m] + ms, []) == [RepairedMessage(m)] + Repaired(ms, OpenedFor(m.toolCalls))
  {
    hide RepairedMessage, OpenedFor;
    assert ([m] + ms)[1..] == ms;
    assert Fillers([]) == [];
    NextMessage([m] + ms, []);
    var next := [RepairedMessage(m)] + Repaired(ms, OpenedFor(m.toolCalls));
    assert [] + next == next;
  }

  // ---- What is reported --------------------------------------------------------------------

  function IdOf(m: Message): string { if m.toolCallId.Some? then m.toolCallId.value else "" }

  /** The results with an id, an absent one counting as the empty one. */
  function Results(ms: seq<Message>, id: string): nat {
    if ms == [] then 0 else (if IsTool(ms[0]) && IdOf(ms[0]) == id then 1 else 0) + Results(ms[1..], id)
  }

  function BlankNames(calls: seq<ToolCall>, id: string): nat {
    if calls == [] then 0
    else (if calls[0].id == id && IsBlank(calls[0].name) then 1 else 0) + BlankNames(calls[1..], id)
  }

  function BadArguments(calls: seq<ToolCall>, id: string): nat {
    if calls == [] then 0
    else (if calls[0].id == id && !ArgsOk(calls[0].args) then 1 else 0) + BadArguments(calls[1..], id)
  }

  function AllCallsOf(ms: seq<Message>): seq<ToolCall> {
    if ms == [] then [] else (if IsOpener(ms[0]) then ms[0].toolCalls else []) + AllCallsOf(ms[1..])
  }

  lemma {:induction false} ResultsAppend(a: seq<Message>, b: seq<Message>, id: string)
    ensures Results(a + b, id) == Results(a, id) + Results(b, id)
  {
    if a == [] {
      assert a + b == b;
    } else {
      assert (a + b)[1..] == a[1..] + b;
      ResultsAppend(a[1..], b, id);
    }
  }

  lemma {:induction false} FillersReported(p: Pending, id: string)
    ensures multiset(FillerReports(p))[MissingToolResultSynthesized(id)] == Results(Fillers(p), id)
    ensures forall r :: r in FillerReports(p) ==> r.MissingToolResultSynthesized?
  {
    hide Synthetic;
    if p != [] {
      var (x, n) := p[0];
      FillersReported(p[1..], id);
      CopiesReported(x, n, id);
      ResultsAppend(Copies(Synthetic(x), n), Fillers(p[1..]), id);
      MultisetAppend(Copies(MissingToolResultSynthesized(x), n), FillerReports(p[1..]),
                     MissingToolResultSynthesized(id));
    }
  }

  lemma MultisetAppend<T>(a: seq<T>, b: seq<T>, x: T)
    ensures multiset(a + b)[x] == multiset(a)[x] + multiset(b)[x]
  {
    assert multiset(a + b) == multiset(a) + multiset(b);
  }

  lemma {:induction false} CopiesReported(x: string, n: nat, id: string)
    ensures multiset(Copies(MissingToolResultSynthesized(x), n))[MissingToolResultSynthesized(id)]
            == Results(Copies(Synthetic(x), n), id)
    ensures forall r :: r in Copies(MissingToolResultSynthesized(x), n) ==> r == MissingToolResultSynthesized(x)
  {
    if n > 0 {
      CopiesReported(x, n - 1, id);
      var r, s := Copies(MissingToolResultSynthesized(x), n), Copies(Synthetic(x), n);
      assert r == [MissingToolResultSynthesized(x)] + r[1..];
      assert r[1..] == Copies(MissingToolResultSynthesized(x), n - 1);
      assert s[1..] == Copies(Synthetic(x), n - 1);
    }
  }

  lemma {:induction false} CallsReported(calls: seq<ToolCall>, id: string)
    ensures multiset(CallsReports(calls))[EmptyToolName(id)] == BlankNames(calls, id)
    ensures var b := multiset(CallsReports(calls));
            b[ArgumentsClosed(id)] + b[ArgumentsFallbackEmpty(id)] + b[ArgumentsFallbackNonObject(id)]
            == BadArguments(calls, id)
    ensures forall r :: r in CallsReports(calls) ==>
      !r.MissingToolResultSynthesized? && !r.OrphanToolResultDropped?
  {
    hide IsBlank, ArgsOk, Closed, IsJson;
    if calls != [] {
      CallsReported(calls[1..], id);
      OneCallReported(calls[0], id);
      var a, b := CallReports(calls[0]), CallsReports(calls[1..]);
      MultisetAppend(a, b, EmptyToolName(id));
      MultisetAppend(a, b, ArgumentsClosed(id));
      MultisetAppend(a, b, ArgumentsFallbackEmpty(id));
      MultisetAppend(a, b, ArgumentsFallbackNonObject(id));
    }
  }

  lemma OneCallReported(c: ToolCall, id: string)
    ensures var b := multiset(CallReports(c));
            && b[EmptyToolName(id)] == (if c.id == id && IsBlank(c.name) then 1 else 0)
            && b[ArgumentsClosed(id)] + b[ArgumentsFallbackEmpty(id)] + b[ArgumentsFallbackNonObject(id)]
               == if c.id == id && !ArgsOk(c.args) then 1 else 0
    ensures forall r :: r in CallReports(c) ==> !r.MissingToolResultSynthesized? && !r.OrphanToolResultDropped?
  {
    hide IsBlank, ArgsOk, Closed, IsJson, ArgsReports;
    ArgumentsReported(c, id);
    var name := if IsBlank(c.name) then [EmptyToolName(c.id)] else [];
    MultisetAppend(name, ArgsReports(c), EmptyToolName(id));
    MultisetAppend(name, ArgsReports(c), ArgumentsClosed(id));
    MultisetAppend(name, ArgsReports(c), ArgumentsFallbackEmpty(id));
    MultisetAppend(name, ArgsReports(c), ArgumentsFallbackNonObject(id));
  }

  lemma ArgumentsReported(c: ToolCall, id: string)
    ensures var b := multiset(ArgsReports(c));
            && b[EmptyToolName(id)] == 0
            && b[ArgumentsClosed(id)] + b[ArgumentsFallbackEmpty(id)] + b[ArgumentsFallbackNonObject(id)]
               == if c.id == id && !ArgsOk(c.args) then 1 else 0
    ensures forall r :: r in ArgsReports(c) ==> !r.MissingToolResultSynthesized? && !r.OrphanToolResultDropped?
  {
    hide IsBlank, ArgsOk, Closed, IsJson;
  }

  lemma NotThere<T>(s: seq<T>, x: T)
    requires x !in s
    ensures multiset(s)[x] == 0
  {
  }

  /** The books balance: results in front of the repair plus those made up are results behind it plus
      those dropped; and each blank name and each bad argument is reported once. */
  ghost predicate Balanced(ms: seq<Message>, out: seq<Message>, reports: seq<Report>, id: string) {
    var b := multiset(reports);
    && Results(ms, id) + b[MissingToolResultSynthesized(id)] == Results(out, id) + b[OrphanToolResultDropped(id)]
    && b[EmptyToolName(id)] == BlankNames(AllCallsOf(ms), id)
    && b[ArgumentsClosed(id)] + b[ArgumentsFallbackEmpty(id)] + b[ArgumentsFallbackNonObject(id)]
       == BadArguments(AllCallsOf(ms), id)
  }

  lemma {:induction false} BlankNamesAppend(a: seq<ToolCall>, b: seq<ToolCall>, id: string)
    ensures BlankNames(a + b, id) == BlankNames(a, id) + BlankNames(b, id)
    ensures BadArguments(a + b, id) == BadArguments(a, id) + BadArguments(b, id)
  {
    hide IsBlank, ArgsOk;
    if a == [] {
      assert a + b == b;
    } else {
      assert (a + b)[1..] == a[1..] + b;
      BlankNamesAppend(a[1..], b, id);
    }
  }

  lemma {:induction false} RepairsAreReported(ms: seq<Message>, p: Pending, id: string)
    ensures Balanced(ms, Repaired(ms, p), Reports(ms, p), id)
    decreases |ms|
  {
    hide RepairedMessage, CallsReports, Fillers, FillerReports, OpenedFor, IsAnswer, Answered, Awaiting, Balanced,
      IsBlank, ArgsOk;
    if ms == [] {
      FillersReported(p, id);
      NoMessages(p);
      FlushBalances(p, id);
    } else {
      NextMessage(ms, p);
      if IsTool(ms[0]) {
        if IsAnswer(ms[0], p) {
          RepairsAreReported(ms[1..], Answered(ms[0], p), id);
          KeptBalances(ms, Repaired(ms[1..], Answered(ms[0], p)), Reports(ms[1..], Answered(ms[0], p)), id);
        } else {
          RepairsAreReported(ms[1..], p, id);
          DroppedBalances(ms, Repaired(ms[1..], p), Reports(ms[1..], p), id);
        }
      } else {
        RepairsAreReported(ms[1..], Awaiting(ms[0]), id);
        MessageBalances(ms, p, Repaired(ms[1..], Awaiting(ms[0])), Reports(ms[1..], Awaiting(ms[0])), id);
      }
    }
  }

  lemma FillersReportNothingElse(p: Pending, id: string)
    ensures var b := multiset(FillerReports(p));
            && b[MissingToolResultSynthesized(id)] == Results(Fillers(p), id)
            && b[OrphanToolResultDropped(id)] == b[EmptyToolName(id)] == 0
            && b[ArgumentsClosed(id)] == b[ArgumentsFallbackEmpty(id)] == b[ArgumentsFallbackNonObject(id)] == 0
  {
    hide Fillers, FillerReports;
    FillersReported(p, id);
    NotThere(FillerReports(p), OrphanToolResultDropped(id));
    NotThere(FillerReports(p), EmptyToolName(id));
    NotThere(FillerReports(p), ArgumentsClosed(id));
    NotThere(FillerReports(p), ArgumentsFallbackEmpty(id));
    NotThere(FillerReports(p), ArgumentsFallbackNonObject(id));
  }

  lemma FlushBalances(p: Pending, id: string)
    ensures Balanced([], Fillers(p), FillerReports(p), id)
  {
    hide Fillers, FillerReports;
    FillersReportNothingElse(p, id);
  }

  lemma KeptBalances(ms: seq<Message>, out: seq<Message>, reports: seq<Report>, id: string)
    requires ms != [] && IsTool(ms[0]) && Balanced(ms[1..], out, reports, id)
    ensures Balanced(ms, [ms[0]] + out, reports, id)
  {
    assert ([ms[0]] + out)[1..] == out;
    assert [] + AllCallsOf(ms[1..]) == AllCallsOf(ms[1..]);
  }

  lemma DroppedBalances(ms: seq<Message>, out: seq<Message>, reports: seq<Report>, id: string)
    requires ms != [] && IsTool(ms[0]) && Balanced(ms[1..], out, reports, id)
    ensures Balanced(ms, out, [OrphanToolResultDropped(IdOf(ms[0]))] + reports, id)
  {
    var r := OrphanToolResultDropped(IdOf(ms[0]));
    assert multiset([r] + reports) == multiset{r} + multiset(reports);
    assert [] + AllCallsOf(ms[1..]) == AllCallsOf(ms[1..]);
  }

  lemma MessageBalances(ms: seq<Message>, p: Pending, out: seq<Message>, reports: seq<Report>, id: string)
    requires ms != [] && !IsTool(ms[0]) && Balanced(ms[1..], out, reports, id)
    ensures var calls := if IsOpener(ms[0]) then CallsReports(ms[0].toolCalls) else [];
            Balanced(ms, Fillers(p) + ([RepairedMessage(ms[0])] + out), FillerReports(p) + (calls + reports), id)
  {
    hide RepairedMessage, CallsReports, Fillers, FillerReports, IsBlank, ArgsOk, Results, BlankNames, BadArguments;
    var m, told := ms[0], if IsOpener(ms[0]) then CallsReports(ms[0].toolCalls) else [];
    ResultsOfMessage(ms, p, out, id);
    FillersReportNothingElse(p, id);
    MessageReports(m, id);
    BlankNamesAppend(if IsOpener(m) then m.toolCalls else [], AllCallsOf(ms[1..]), id);
    assert multiset(FillerReports(p) + (told + reports))
      == multiset(FillerReports(p)) + (multiset(told) + multiset(reports));
  }

  lemma ResultsOfMessage(ms: seq<Message>, p: Pending, out: seq<Message>, id: string)
    requires ms != [] && !IsTool(ms[0])
    ensures Results(ms, id) == Results(ms[1..], id)
    ensures Results(Fillers(p) + ([RepairedMessage(ms[0])] + out), id) == Results(Fillers(p), id) + Results(out, id)
  {
    hide RepairedMessage, Fillers;
    RepairedMessageKeeps(ms[0]);
    ResultsAppend(Fillers(p), [RepairedMessage(ms[0])] + out, id);
    assert ([RepairedMessage(ms[0])] + out)[1..] == out;
  }

  lemma MessageReports(m: Message, id: string)
    ensures var calls := if IsOpener(m) then m.toolCalls else [];
            var b := multiset(if IsOpener(m) then CallsReports(m.toolCalls) else []);
            && b[MissingToolResultSynthesized(id)] == b[OrphanToolResultDropped(id)] == 0
            && b[EmptyToolName(id)] == BlankNames(calls, id)
            && b[ArgumentsClosed(id)] + b[ArgumentsFallbackEmpty(id)] + b[ArgumentsFallbackNonObject(id)]
               == BadArguments(calls, id)
  {
    hide CallsReports, IsBlank, ArgsOk;
    if IsOpener(m) {
      CallsReported(m.toolCalls, id);
      NotThere(CallsReports(m.toolCalls), MissingToolResultSynthesized(id));
      NotThere(CallsReports(m.toolCalls), OrphanToolResultDropped(id));
    }
  }

  /** Which report a bad argument gets: that it was closed exactly if what was sent on is not the empty
      object, that it was no object exactly if it was JSON, and that it was lost otherwise. */
  lemma ReportNamesTheRepair(calls: seq<ToolCall>, used: set<string>, i: nat)
    requires i < |calls| && !ArgsOk(calls[i].args)
    ensures |RepairedCalls(calls, used)| == |calls|
    ensures var c, sent, told := calls[i], RepairedCalls(calls, used)[i].args, CallReports(calls[i]);
            && (ArgumentsClosed(c.id) in told <==> sent != Some("{}"))
            && (ArgumentsFallbackNonObject(c.id) in told <==> IsJson(c.args.value))
            && (ArgumentsFallbackEmpty(c.id) in told <==> sent == Some("{}") && !IsJson(c.args.value))
  {
    hide IsJson, IsBlank, Closed, RepairedCalls;
    OneCallRepaired(calls, used, i);
  }
}
