/** The last check of a history before it goes to a provider, and its repair (kosong normalize.ts). */
module Normalize {
  import opened Bytes
  import opened JsStrings
  import opened Json
  import opened Assembly

  datatype Role = System | User | Assistant | Tool

  datatype Message = Message(role: Role, content: seq<Part>, toolCalls: seq<ToolCall>, toolCallId: Option<string>,
    name: string)

  predicate IsTool(m: Message) { m.role.Tool? }

  /** A message that must be followed by the results of its calls. */
  predicate IsOpener(m: Message) { m.role.Assistant? && m.toolCalls != [] }

  // ---- What is legal -----------------------------------------------------------------------------

  /** Absent, blank, or a JSON object. */
  predicate ArgsOk(args: Option<string>) { args.None? || IsBlank(args.value) || IsJsonObject(args.value) }

  predicate CallsOk(calls: seq<ToolCall>) {
    forall i :: 0 <= i < |calls| ==> !IsBlank(calls[i].name) && ArgsOk(calls[i].args)
  }

  function CallIds(calls: seq<ToolCall>): seq<Option<string>> {
    if calls == [] then [] else [Some(calls[0].id)] + CallIds(calls[1..])
  }

  function AnswerIds(ms: seq<Message>): seq<Option<string>> {
    if ms == [] then [] else [ms[0].toolCallId] + AnswerIds(ms[1..])
  }

  /** The tool messages at the front. */
  function ToolRun(ms: seq<Message>): (n: nat)
    ensures n <= |ms| && (n < |ms| ==> !IsTool(ms[n])) && forall i :: 0 <= i < n ==> IsTool(ms[i])
  {
    if ms != [] && IsTool(ms[0]) then 1 + ToolRun(ms[1..]) else 0
  }

  /** Behind every message with calls comes a block of results that answers exactly its calls, counted
      with their multiplicity; there are no other results, and every call is well formed. */
  ghost predicate Legal(ms: seq<Message>)
    decreases |ms|
  {
    ms == [] ||
      (if IsTool(ms[0]) then false
       else if IsOpener(ms[0]) then
         var n := ToolRun(ms[1..]);
         && CallsOk(ms[0].toolCalls)
         && multiset(AnswerIds(ms[1..][..n])) == multiset(CallIds(ms[0].toolCalls))
         && Legal(ms[1..][n..])
       else Legal(ms[1..]))
  }

  // ---- The fast path -----------------------------------------------------------------------------

  /** The same, one message at a time: `open` are the calls not answered yet. */
  ghost predicate LegalFrom(ms: seq<Message>, open: multiset<Option<string>>)
    decreases |ms|
  {
    if ms == [] then open == multiset{}
    else if IsTool(ms[0]) then ms[0].toolCallId in open && LegalFrom(ms[1..], open - multiset{ms[0].toolCallId})
    else
      && open == multiset{}
      && (IsOpener(ms[0]) ==> CallsOk(ms[0].toolCalls))
      && LegalFrom(ms[1..], OpenedBy(ms[0]))
  }

  function OpenedBy(m: Message): multiset<Option<string>> {
    if IsOpener(m) then multiset(CallIds(m.toolCalls)) else multiset{}
  }

  lemma {:induction false} LegalFromIsLegal(ms: seq<Message>, open: multiset<Option<string>>)
    ensures LegalFrom(ms, open) <==>
            multiset(AnswerIds(ms[..ToolRun(ms)])) == open && Legal(ms[ToolRun(ms)..])
    decreases |ms|
  {
    hide CallsOk, CallIds;
    var n := ToolRun(ms);
    if ms == [] {
    } else if IsTool(ms[0]) {
      var id := ms[0].toolCallId;
      var rest := ms[1..][..n - 1];
      assert ms[..n][1..] == rest && ms[n..] == ms[1..][n - 1..];
      assert AnswerIds(ms[..n]) == [id] + AnswerIds(rest);
      LegalFromIsLegal(ms[1..], open - multiset{id});
      OneAnswer(id, AnswerIds(rest), open);
    } else {
      LegalFromIsLegal(ms[1..], OpenedBy(ms[0]));
      if !IsOpener(ms[0]) { PlainStart(ms[1..]); }
    }
  }

  lemma OneAnswer(id: Option<string>, ids: seq<Option<string>>, open: multiset<Option<string>>)
    ensures multiset([id] + ids) == open <==> id in open && multiset(ids) == open - multiset{id}
  {
    assert multiset([id] + ids) == multiset{id} + multiset(ids);
    if id in open { assert open == multiset{id} + (open - multiset{id}); }
    if multiset([id] + ids) == open { assert open - multiset{id} == multiset(ids); }
  }

  /** With nothing open, no result may follow. */
  lemma PlainStart(ms: seq<Message>)
    ensures multiset(AnswerIds(ms[..ToolRun(ms)])) == multiset{} && Legal(ms[ToolRun(ms)..]) <==> Legal(ms)
  {
    var n := ToolRun(ms);
    if n == 0 {
      assert ms[0..] == ms;
    } else {
      assert ms[0].toolCallId in AnswerIds(ms[..n]);
      assert ms[0].toolCallId in multiset(AnswerIds(ms[..n]));
    }
  }

  lemma LegalIsLegalFrom(ms: seq<Message>)
    ensures Legal(ms) <==> LegalFrom(ms, multiset{})
  {
    hide Legal;
    LegalFromIsLegal(ms, multiset{});
    PlainStart(ms);
  }

  /** isValidOrEmptyJsonObject: the scan first, the parse only if it passes. */
  method IsValidOrEmptyJsonObject(text: Option<string>) returns (ok: bool)
    ensures ok <==> ArgsOk(text)
  {
    hide IsJson, IsBalanced, Scanned;
    if text.None? { return true; }
    BlankIsTrimmedEmpty(text.value);
    if |Trim(text.value)| == 0 { return true; }
    if IsJson(text.value) { JsonIsBalanced(text.value); }
    var balanced := IsBalancedJsonCandidate(text.value);
    if !balanced { return false; }
    ok := IsJsonObject(text.value);
  }

  method HasGoodCalls(calls: seq<ToolCall>) returns (ok: bool)
    ensures ok <==> CallsOk(calls)
  {
    hide ArgsOk;
    for i := 0 to |calls|
      invariant forall j :: 0 <= j < i ==> !IsBlank(calls[j].name) && ArgsOk(calls[j].args)
    {
      BlankIsTrimmedEmpty(calls[i].name);
      if |Trim(calls[i].name)| == 0 { return false; }
      var valid := IsValidOrEmptyJsonObject(calls[i].args);
      if !valid { return false; }
    }
    ok := true;
  }

  // ---- Unanswered calls --------------------------------------------------------------------------

  /** A map from ids to counts that remembers the order in which the ids came. */
  type Pending = seq<(string, nat)>

  function CountOf(p: Pending, id: string): nat {
    if p == [] then 0 else if p[0].0 == id then p[0].1 else CountOf(p[1..], id)
  }

  function WithCount(p: Pending, id: string, n: nat): Pending {
    if p == [] then [(id, n)] else if p[0].0 == id then [(id, n)] + p[1..] else [p[0]] + WithCount(p[1..], id, n)
  }

  predicate Mentions(p: Pending, id: string) { p != [] && (p[0].0 == id || Mentions(p[1..], id)) }

  predicate Distinct(p: Pending) { p == [] || (!Mentions(p[1..], p[0].0) && Distinct(p[1..])) }

  /** The calls not answered yet. */
  function Bag(p: Pending): multiset<Option<string>> {
    if p == [] then multiset{} else Bag(p[1..])[Some(p[0].0) := Bag(p[1..])[Some(p[0].0)] + p[0].1]
  }

  lemma {:induction false} BagCounts(p: Pending, id: string)
    requires Distinct(p)
    ensures Bag(p)[Some(id)] == CountOf(p, id) && None !in Bag(p)
    ensures !Mentions(p, id) ==> CountOf(p, id) == 0
  {
    if p != [] { BagCounts(p[1..], id); }
  }

  lemma {:induction false} WithCountKeeps(p: Pending, id: string, n: nat, j: string)
    requires Distinct(p)
    ensures Distinct(WithCount(p, id, n))
    ensures Mentions(WithCount(p, id, n), j) <==> j == id || Mentions(p, j)
    ensures CountOf(WithCount(p, id, n), j) == if j == id then n else CountOf(p, j)
  {
    if p != [] {
      var q := WithCount(p, id, n);
      assert q[1..] == if p[0].0 == id then p[1..] else WithCount(p[1..], id, n);
      WithCountKeeps(p[1..], id, n, j);
      WithCountKeeps(p[1..], id, n, p[0].0);
    } else {
      assert [(id, n)][1..] == [];
    }
  }

  /** Two bags are equal if they count every id alike. */
  lemma BagOfWithCount(p: Pending, id: string, n: nat)
    requires Distinct(p)
    ensures Bag(WithCount(p, id, n)) == Bag(p)[Some(id) := n] && Distinct(WithCount(p, id, n))
  {
    hide Bag, CountOf, WithCount, Distinct, Mentions;
    var q := WithCount(p, id, n);
    WithCountKeeps(p, id, n, id);
    forall j ensures Bag(q)[j] == Bag(p)[Some(id) := n][j] {
      WithCountKeeps(p, id, n, if j.Some? then j.value else id);
      BagCounts(p, if j.Some? then j.value else id);
      BagCounts(q, if j.Some? then j.value else id);
    }
  }

  function OpenedFor(calls: seq<ToolCall>): Pending {
    if calls == [] then []
    else
      var p, last := OpenedFor(calls[..|calls| - 1]), calls[|calls| - 1];
      WithCount(p, last.id, CountOf(p, last.id) + 1)
  }

  lemma {:induction false} CallIdsAppend(calls: seq<ToolCall>, c: ToolCall)
    ensures CallIds(calls + [c]) == CallIds(calls) + [Some(c.id)]
  {
    if calls != [] {
      assert (calls + [c])[1..] == calls[1..] + [c];
      CallIdsAppend(calls[1..], c);
    }
  }

  lemma {:induction false} OpenedForBag(calls: seq<ToolCall>)
    ensures Distinct(OpenedFor(calls)) && Bag(OpenedFor(calls)) == multiset(CallIds(calls))
  {
    hide Bag, WithCount, CountOf, CallIds, Distinct;
    if calls == [] {
      EmptyBag();
    } else {
      var init, last := calls[..|calls| - 1], calls[|calls| - 1];
      OpenedForBag(init);
      var p := OpenedFor(init);
      BagCounts(p, last.id);
      BagOfWithCount(p, last.id, CountOf(p, last.id) + 1);
      assert init + [last] == calls;
      CallIdsAppend(init, last);
      assert multiset(CallIds(calls)) == multiset(CallIds(init)) + multiset{Some(last.id)};
    }
  }

  lemma EmptyBag()
    ensures Distinct([]) && Bag([]) == multiset{} == multiset(CallIds([]))
  {
  }

  /** Counting the calls of a message. */
  method Count(calls: seq<ToolCall>) returns (pending: Pending)
    ensures pending == OpenedFor(calls)
  {
    pending := [];
    assert calls[..0] == [];
    for i := 0 to |calls|
      invariant pending == OpenedFor(calls[..i])
    {
      assert calls[..i + 1][..i] == calls[..i];
      pending := WithCount(pending, calls[i].id, CountOf(pending, calls[i].id) + 1);
    }
    assert calls[..|calls|] == calls;
  }

  function PendingCount(p: Pending): nat { if p == [] then 0 else p[0].1 + PendingCount(p[1..]) }

  lemma {:induction false} NonePending(p: Pending)
    ensures PendingCount(p) == 0 <==> Bag(p) == multiset{}
  {
    if p != [] {
      NonePending(p[1..]);
      var id := Some(p[0].0);
      if Bag(p) == multiset{} {
        assert Bag(p)[id] == 0;
        forall j ensures Bag(p[1..])[j] == 0 { assert Bag(p)[j] == 0; }
        assert Bag(p[1..]) == multiset{};
      }
    }
  }

  /** tryNormalizeFastPath. */
  method IsHealthy(messages: seq<Message>) returns (healthy: bool)
    ensures healthy <==> Legal(messages)
  {
    hide Legal, CallsOk, Bag, CountOf, WithCount, Distinct, OpenedFor, PendingCount;
    var pending: Pending := [];
    LegalIsLegalFrom(messages);
    NothingPending();
    assert messages[0..] == messages;
    for i := 0 to |messages|
      invariant Distinct(pending)
      invariant Legal(messages) <==> LegalFrom(messages[i..], Bag(pending))
    {
      var message := messages[i];
      assert messages[i..][1..] == messages[i + 1..];
      if IsTool(message) {
        var id := message.toolCallId;
        BagCounts(pending, if id.Some? then id.value else "");
        if id.None? || CountOf(pending, id.value) == 0 { return false; }
        var left := CountOf(pending, id.value) - 1;
        BagOfWithCount(pending, id.value, left);
        assert Bag(pending)[id := left] == Bag(pending) - multiset{id};
        pending := WithCount(pending, id.value, left);
        continue;
      }
      NonePending(pending);
      if PendingCount(pending) > 0 { return false; }
      pending := [];
      if IsOpener(message) {
        var good := HasGoodCalls(message.toolCalls);
        if !good { return false; }
        pending := Count(message.toolCalls);
        OpenedForBag(message.toolCalls);
      }
    }
    NonePending(pending);
    healthy := PendingCount(pending) == 0;
  }

  lemma NothingPending()
    ensures Distinct([]) && Bag([]) == multiset{}
  {
  }

  // ---- Repairing one message ---------------------------------------------------------------------

  const UNKNOWN_TOOL_NAME := "unknown_tool"

  function Digit(d: nat): (c: char)
    requires d < 10
    ensures c as int == 48 + d
  {
    (48 + d) as char
  }

  function Decimal(n: nat): string { if n < 10 then [Digit(n)] else Decimal(n / 10) + [Digit(n % 10)] }

  function FromDecimal(s: string): int {
    if s == [] then 0 else 10 * FromDecimal(s[..|s| - 1]) + (s[|s| - 1] as int - 48)
  }

  lemma {:induction false} DecimalReadsBack(n: nat)
    ensures FromDecimal(Decimal(n)) == n
  {
    if n < 10 {
      assert [Digit(n)][..0] == [];
    } else {
      DecimalReadsBack(n / 10);
      FromDecimalAppend(Decimal(n / 10), Digit(n % 10));
    }
  }

  lemma FromDecimalAppend(s: string, c: char)
    ensures FromDecimal(s + [c]) == 10 * FromDecimal(s) + (c as int - 48)
  {
    assert (s + [c])[..|s|] == s;
  }

  function Candidate(i: nat): string { UNKNOWN_TOOL_NAME + "_" + Decimal(i) }

  lemma CandidatesDiffer(i: nat, j: nat)
    requires i != j
    ensures Candidate(i) != Candidate(j)
  {
    DecimalReadsBack(i);
    DecimalReadsBack(j);
    assert Candidate(i)[|UNKNOWN_TOOL_NAME + "_"|..] == Decimal(i);
    assert Candidate(j)[|UNKNOWN_TOOL_NAME + "_"|..] == Decimal(j);
  }

  /** Only so many candidates can be taken. */
  lemma {:induction false} TakenAtMost(used: set<string>, i: nat)
    requires i >= 2 && forall j :: 2 <= j < i ==> Candidate(j) in used
    ensures i - 2 <= |used|
  {
    if i > 2 {
      var name := Candidate(i - 1);
      forall j | 2 <= j < i - 1 ensures Candidate(j) in used - {name} { CandidatesDiffer(j, i - 1); }
      TakenAtMost(used - {name}, i - 1);
    }
  }

  ghost predicate IsFirstFree(used: set<string>, name: string) {
    && name !in used
    && (name == UNKNOWN_TOOL_NAME
        || (UNKNOWN_TOOL_NAME in used && exists i :: i >= 2 && name == Candidate(i) && forall j :: 2 <= j < i ==>
          Candidate(j) in used))
  }

  lemma FirstFreeIsUnique(used: set<string>, a: string, b: string)
    requires IsFirstFree(used, a) && IsFirstFree(used, b)
    ensures a == b
  {
    if a != UNKNOWN_TOOL_NAME {
      var i :| i >= 2 && a == Candidate(i) && forall j :: 2 <= j < i ==> Candidate(j) in used;
      var k :| k >= 2 && b == Candidate(k) && forall j :: 2 <= j < k ==> Candidate(j) in used;
      assert i <= k && k <= i;
    }
  }

  /** placeholderToolName: the search ends, and finds the first name that is free. */
  method PlaceholderToolName(used: set<string>) returns (name: string)
    ensures IsFirstFree(used, name)
  {
    if UNKNOWN_TOOL_NAME !in used { return UNKNOWN_TOOL_NAME; }
    var i := 2;
    while true
      invariant i >= 2 && forall j :: 2 <= j < i ==> Candidate(j) in used
      decreases |used| + 2 - i
    {
      var candidate := Candidate(i);
      if candidate !in used { return candidate; }
      TakenAtMost(used, i + 1);
      i := i + 1;
    }
  }

  lemma {:induction false} FirstFreeFrom(used: set<string>, i: nat) returns (name: string)
    requires UNKNOWN_TOOL_NAME in used && i >= 2 && forall j :: 2 <= j < i ==> Candidate(j) in used
    ensures IsFirstFree(used, name)
    decreases |used| + 2 - i
  {
    name := Candidate(i);
    if name in used {
      TakenAtMost(used, i + 1);
      name := FirstFreeFrom(used, i + 1);
    }
  }

  lemma FirstFreeExists(used: set<string>)
    ensures exists name :: IsFirstFree(used, name)
  {
    if UNKNOWN_TOOL_NAME in used {
      var name := FirstFreeFrom(used, 2);
    } else {
      assert IsFirstFree(used, UNKNOWN_TOOL_NAME);
    }
  }

  ghost function Placeholder(used: set<string>): (name: string)
    ensures IsFirstFree(used, name)
  {
    FirstFreeExists(used);
    var name :| IsFirstFree(used, name);
    name
  }

  lemma PlaceholderIsNoBlank(used: set<string>)
    ensures !IsBlank(Placeholder(used))
  {
    var name := Placeholder(used);
    assert UNKNOWN_TOOL_NAME[0] == 'u';
    assert name[0] == 'u' && !IsSpace('u');
  }

  /** What the arguments of a call become. */
  function RepairedArgs(args: Option<string>): Option<string> {
    if ArgsOk(args) then args
    else if !IsJson(args.value) && Closed(args.value) != "{}"
      && IsJsonObject(Closed(args.value)) then Some(Closed(args.value))
    else Some("{}")
  }

  lemma RepairedArgsOk(args: Option<string>)
    ensures ArgsOk(RepairedArgs(args))
  {
    hide IsBlank, IsJson, Closed;
    EmptyObject();
  }

  ghost function RepairedName(name: string, used: set<string>): string {
    if IsBlank(name) then Placeholder(used) else name
  }

  /** The calls of a message: names that are blank get names that no call has. */
  ghost function RepairedCalls(calls: seq<ToolCall>, used: set<string>): seq<ToolCall> {
    if calls == [] then []
    else
      var name := RepairedName(calls[0].name, used);
      [calls[0].(name := name, args := RepairedArgs(calls[0].args))] + RepairedCalls(calls[1..], used + {name})
  }

  function NamesOf(calls: seq<ToolCall>): set<string> { set i | 0 <= i < |calls| :: calls[i].name }

  ghost function RepairedMessage(m: Message): Message {
    if IsOpener(m) then m.(toolCalls := RepairedCalls(m.toolCalls, NamesOf(m.toolCalls))) else m
  }

  /** Repaired calls are well formed and have the ids they had; good calls stay as they are. */
  lemma {:induction false} RepairedCallsAreGood(calls: seq<ToolCall>, used: set<string>)
    ensures CallsOk(RepairedCalls(calls, used)) && |RepairedCalls(calls, used)| == |calls|
    ensures CallIds(RepairedCalls(calls, used)) == CallIds(calls)
    ensures CallsOk(calls) ==> RepairedCalls(calls, used) == calls
  {
    hide ArgsOk, IsBlank, RepairedArgs, Placeholder;
    if calls != [] {
      var name := RepairedName(calls[0].name, used);
      RepairedCallsAreGood(calls[1..], used + {name});
      PlaceholderIsNoBlank(used);
      RepairedArgsOk(calls[0].args);
      if CallsOk(calls) {
        assert forall i :: 0 <= i < |calls[1..]| ==> calls[1..][i] == calls[i + 1];
        GoodArgsStay(calls[0].args);
        assert calls == [calls[0]] + calls[1..];
      }
      assert RepairedCalls(calls, used)[1..] == RepairedCalls(calls[1..], used + {name});
    }
  }

  lemma GoodArgsStay(args: Option<string>)
    ensures ArgsOk(args) ==> RepairedArgs(args) == args
  {
  }

  /** No two calls get the same placeholder, and no call gets a name that another call already had. */
  lemma {:induction false} PlaceholdersAreFresh(calls: seq<ToolCall>, used: set<string>, i: nat, j: nat)
    requires NamesOf(calls) <= used && i < |calls| && j < |calls| && i != j && IsBlank(calls[i].name)
    ensures |RepairedCalls(calls, used)| == |calls|
    ensures RepairedCalls(calls, used)[i].name != RepairedCalls(calls, used)[j].name
    ensures RepairedCalls(calls, used)[i].name !in used
    decreases calls
  {
    hide ArgsOk, IsBlank, RepairedArgs, Placeholder;
    RepairedCallsAreGood(calls, used);
    var name := RepairedName(calls[0].name, used);
    var more, rest := used + {name}, RepairedCalls(calls[1..], used + {name});
    RepairedCallsAreGood(calls[1..], more);
    assert NamesOf(calls[1..]) <= more by {
      forall k | 0 <= k < |calls[1..]| ensures calls[1..][k].name in used {
        assert calls[k + 1].name in NamesOf(calls);
      }
    }
    if i > 0 && j > 0 {
      PlaceholdersAreFresh(calls[1..], more, i - 1, j - 1);
    } else if i > 0 {
      PlaceholderMeetsNone(calls[1..], more, i - 1);
    } else {
      NamesStayOut(calls[1..], more, name, j - 1);
    }
  }

  lemma {:induction false} PlaceholderMeetsNone(calls: seq<ToolCall>, used: set<string>, i: nat)
    requires i < |calls| && IsBlank(calls[i].name)
    ensures |RepairedCalls(calls, used)| == |calls| && RepairedCalls(calls, used)[i].name !in used
    decreases calls
  {
    hide ArgsOk, IsBlank, RepairedArgs, Placeholder;
    RepairedCallsAreGood(calls, used);
    var name := RepairedName(calls[0].name, used);
    if i > 0 { PlaceholderMeetsNone(calls[1..], used + {name}, i - 1); }
  }

  /** A name that was a placeholder is not given again. */
  lemma {:induction false} NamesStayOut(calls: seq<ToolCall>, used: set<string>, name: string, j: nat)
    requires j < |calls| && name in used && forall k :: 0 <= k < |calls| ==> calls[k].name != name
    ensures |RepairedCalls(calls, used)| == |calls| && RepairedCalls(calls, used)[j].name != name
    decreases calls
  {
    hide ArgsOk, IsBlank, RepairedArgs, Placeholder;
    RepairedCallsAreGood(calls, used);
    var first := RepairedName(calls[0].name, used);
    if j > 0 {
      assert forall k :: 0 <= k < |calls[1..]| ==> calls[1..][k] == calls[k + 1];
      NamesStayOut(calls[1..], used + {first}, name, j - 1);
    }
  }

  // ---- Repairing a history -----------------------------------------------------------------------

  /** What onRepair is told, with the id of the call. */
  datatype Report =
    | ArgumentsClosed(id: string)
    | ArgumentsFallbackEmpty(id: string)
    | ArgumentsFallbackNonObject(id: string)
    | EmptyToolName(id: string)
    | OrphanToolResultDropped(id: string)
    | MissingToolResultSynthesized(id: string)

  function ArgsReports(c: ToolCall): seq<Report> {
    if ArgsOk(c.args) then []
    else if IsJson(c.args.value) then [ArgumentsFallbackNonObject(c.id)]
    else if Closed(c.args.value) != "{}" && IsJsonObject(Closed(c.args.value)) then [ArgumentsClosed(c.id)]
    else [ArgumentsFallbackEmpty(c.id)]
  }

  function CallReports(c: ToolCall): seq<Report> {
    (if IsBlank(c.name) then [EmptyToolName(c.id)] else []) + ArgsReports(c)
  }

  function CallsReports(calls: seq<ToolCall>): seq<Report> {
    if calls == [] then [] else CallReports(calls[0]) + CallsReports(calls[1..])
  }

  const SYNTHETIC_TOOL_RESULT_TEXT :=
    "Tool result is not available in the current context. Do not assume the tool completed successfully."

  /** createToolMessage. */
  function Synthetic(id: string): Message { Message(Tool, [Text(SYNTHETIC_TOOL_RESULT_TEXT)], [], Some(id), "") }

  function Copies<T>(x: T, n: nat): seq<T> { if n == 0 then [] else [x] + Copies(x, n - 1) }

  /** A placeholder for each unanswered call. */
  function Fillers(p: Pending): seq<Message> {
    if p == [] then [] else Copies(Synthetic(p[0].0), p[0].1) + Fillers(p[1..])
  }

  function FillerReports(p: Pending): seq<Report> {
    if p == [] then [] else Copies(MissingToolResultSynthesized(p[0].0), p[0].1) + FillerReports(p[1..])
  }

  predicate IsAnswer(m: Message, p: Pending) { m.toolCallId.Some? && CountOf(p, m.toolCallId.value) > 0 }

  function Answered(m: Message, p: Pending): Pending
    requires IsAnswer(m, p)
  {
    WithCount(p, m.toolCallId.value, CountOf(p, m.toolCallId.value) - 1)
  }

  function Awaiting(m: Message): Pending { if IsOpener(m) then OpenedFor(m.toolCalls) else [] }

  /** What the rest of a history becomes while the calls `p` are not answered yet. */
  ghost function Repaired(ms: seq<Message>, p: Pending): seq<Message>
    decreases |ms|
  {
    if ms == [] then Fillers(p)
    else if IsTool(ms[0]) then
      if IsAnswer(ms[0], p) then [ms[0]] + Repaired(ms[1..], Answered(ms[0], p)) else Repaired(ms[1..], p)
    else Fillers(p) + ([RepairedMessage(ms[0])] + Repaired(ms[1..], Awaiting(ms[0])))
  }

  function Reports(ms: seq<Message>, p: Pending): seq<Report>
    decreases |ms|
  {
    if ms == [] then FillerReports(p)
    else if IsTool(ms[0]) then
      if IsAnswer(ms[0], p) then Reports(ms[1..], Answered(ms[0], p))
      else
        [OrphanToolResultDropped(if ms[0].toolCallId.Some? then ms[0].toolCallId.value else "")]
        + Reports(ms[1..], p)
    else
      FillerReports(p)
        + ((if IsOpener(ms[0]) then CallsReports(ms[0].toolCalls) else []) + Reports(ms[1..], Awaiting(ms[0])))
  }

  method RepairArguments(call: ToolCall) returns (args: Option<string>, reports: seq<Report>)
    ensures args == RepairedArgs(call.args) && reports == ArgsReports(call)
  {
    hide IsBlank, Closed, IsJson;
    args, reports := call.args, [];
    if args.Some? {
      BlankIsTrimmedEmpty(args.value);
      if |Trim(args.value)| > 0 && !IsJsonObject(args.value) {
        if IsJson(args.value) { return Some("{}"), [ArgumentsFallbackNonObject(call.id)]; }
        var closed := CloseTruncatedJson(args.value);
        if closed != "{}" && IsJsonObject(closed) { return Some(closed), [ArgumentsClosed(call.id)]; }
        return Some("{}"), [ArgumentsFallbackEmpty(call.id)];
      }
    }
  }

  /** repairToolCalls: the message itself while nothing needs a repair, then a copy of the calls. */
  method RepairToolCalls(message: Message) returns (out: Message, reports: seq<Report>)
    requires IsOpener(message)
    ensures out == RepairedMessage(message) && reports == CallsReports(message.toolCalls)
  {
    hide ArgsOk, IsBlank, RepairedArgs, ArgsReports, Placeholder, IsFirstFree, RepairedCalls, CallsReports, CallsLeft;
    var calls := message.toolCalls;
    var repaired: Option<seq<ToolCall>> := None;
    var usedNames := NamesOf(calls);
    reports := [];
    ghost var all, told, done := RepairedCalls(calls, usedNames), CallsReports(calls), [];
    assert calls[0..] == calls;
    AllCallsLeft(calls, usedNames);
    for i := 0 to |calls|
      invariant done == if repaired.Some? then repaired.value else calls[..i]
      invariant CallsLeft(all, told, done, reports, calls[i..], usedNames)
      invariant forall j :: i <= j < |calls| ==> calls[j].name in usedNames
    {
      var call := calls[i];
      assert calls[i..][1..] == calls[i + 1..];
      var name := call.name;
      var more := [];
      BlankIsTrimmedEmpty(call.name);
      if |Trim(call.name)| == 0 {
        name := PlaceholderToolName(usedNames);
        FirstFreeIsUnique(usedNames, name, Placeholder(usedNames));
        more := [EmptyToolName(call.id)];
      }
      var args, about := RepairArguments(call);
      var next := call.(name := name, args := args);
      more := more + about;
      OneCallMore(all, told, done, reports, calls[i..], usedNames);
      usedNames := usedNames + {name};
      reports := reports + more;
      done := done + [next];
      if next != call {
        repaired := Some((if repaired.Some? then repaired.value else calls[..i]) + [next]);
      } else if repaired.Some? {
        repaired := Some(repaired.value + [call]);
      }
    }
    assert calls[|calls|..] == [] && calls[..|calls|] == calls;
    NoCallsLeft(all, told, done, reports, usedNames);
    out := if repaired.None? then message else message.(toolCalls := repaired.value);
  }

  /** What the loop has done and what is left make up the whole. */
  ghost predicate CallsLeft(all: seq<ToolCall>, told: seq<Report>, done: seq<ToolCall>, reports: seq<Report>,
      calls: seq<ToolCall>, used: set<string>) {
    all == done + RepairedCalls(calls, used) && told == reports + CallsReports(calls)
  }

  lemma AllCallsLeft(calls: seq<ToolCall>, used: set<string>)
    ensures CallsLeft(RepairedCalls(calls, used), CallsReports(calls), [], [], calls, used)
  {
    hide RepairedCalls, CallsReports;
  }

  lemma NoCallsLeft(all: seq<ToolCall>, told: seq<Report>, done: seq<ToolCall>, reports: seq<Report>, used: set<string>)
    requires CallsLeft(all, told, done, reports, [], used)
    ensures all == done && told == reports
  {
    NoCalls(used);
  }

  lemma OneCallMore(all: seq<ToolCall>, told: seq<Report>, done: seq<ToolCall>, reports: seq<Report>,
      calls: seq<ToolCall>, used: set<string>)
    requires CallsLeft(all, told, done, reports, calls, used) && calls != []
    ensures var next := calls[0].(name := RepairedName(calls[0].name, used), args := RepairedArgs(calls[0].args));
            CallsLeft(all, told, done + [next], reports + CallReports(calls[0]), calls[1..], used + {next.name})
  {
    hide RepairedCalls, CallsReports, CallReports, RepairedArgs, RepairedName;
    var next := calls[0].(name := RepairedName(calls[0].name, used), args := RepairedArgs(calls[0].args));
    NextCall(calls, used);
    Regroup(done, [next], RepairedCalls(calls[1..], used + {next.name}));
    Regroup(reports, CallReports(calls[0]), CallsReports(calls[1..]));
  }

  lemma NextCall(calls: seq<ToolCall>, used: set<string>)
    requires calls != []
    ensures var next := calls[0].(name := RepairedName(calls[0].name, used), args := RepairedArgs(calls[0].args));
            RepairedCalls(calls, used) == [next] + RepairedCalls(calls[1..], used + {next.name})
    ensures CallsReports(calls) == CallReports(calls[0]) + CallsReports(calls[1..])
  {
    hide CallReports, RepairedArgs, RepairedName;
  }

  lemma NoCalls(used: set<string>)
    ensures RepairedCalls([], used) == [] && CallsReports([]) == []
  {
  }

  /** flushPending: results for the calls that have none. */
  method FlushPending(pending: Pending, messages: seq<Message>, reports: seq<Report>)
      returns (out: seq<Message>, told: seq<Report>)
    ensures out == messages + Fillers(pending) && told == reports + FillerReports(pending)
  {
    hide Synthetic;
    out, told := messages, reports;
    assert pending[0..] == pending;
    for i := 0 to |pending|
      invariant messages + Fillers(pending) == out + Fillers(pending[i..])
      invariant reports + FillerReports(pending) == told + FillerReports(pending[i..])
    {
      var (id, count) := pending[i];
      assert pending[i..][1..] == pending[i + 1..];
      var more, rest := Copies(Synthetic(id), count), Fillers(pending[i + 1..]);
      var said, left := Copies(MissingToolResultSynthesized(id), count), FillerReports(pending[i + 1..]);
      assert out + (more + rest) == (out + more) + rest && told + (said + left) == (told + said) + left;
      out, told := out + more, told + said;
    }
    assert out + [] == out && told + [] == told;
  }

  /** repairMessages. */
  method RepairMessages(messages: seq<Message>) returns (out: seq<Message>, reports: seq<Report>)
    ensures out == Repaired(messages, []) && reports == Reports(messages, [])
  {
    hide RepairedMessage, CallsReports, Fillers, FillerReports, OpenedFor, CountOf, WithCount, Repaired, Reports;
    var pending: Pending := [];
    out, reports := [], [];
    ghost var all, told := Repaired(messages, []), Reports(messages, []);
    assert messages[0..] == messages && [] + all == all && [] + told == told;
    for i := 0 to |messages|
      invariant all == out + Repaired(messages[i..], pending)
      invariant told == reports + Reports(messages[i..], pending)
    {
      var message := messages[i];
      NextMessage(messages[i..], pending);
      assert messages[i..][1..] == messages[i + 1..];
      ghost var rest := messages[i + 1..];
      if IsTool(message) {
        if !IsAnswer(message, pending) {
          var dropped := [OrphanToolResultDropped(if message.toolCallId.Some? then message.toolCallId.value else "")];
          Regroup(reports, dropped, Reports(rest, pending));
          reports := reports + dropped;
          continue;
        }
        pending := Answered(message, pending);
        Regroup(out, [message], Repaired(rest, pending));
        out := out + [message];
        continue;
      }
      ghost var flushed, said := Fillers(pending), FillerReports(pending);
      ghost var now := if IsOpener(message) then CallsReports(message.toolCalls) else [];
      Regroup(out, flushed, [RepairedMessage(message)] + Repaired(rest, Awaiting(message)));
      Regroup(reports, said, now + Reports(rest, Awaiting(message)));
      out, reports := FlushPending(pending, out, reports);
      Regroup(out, [RepairedMessage(message)], Repaired(rest, Awaiting(message)));
      Regroup(reports, now, Reports(rest, Awaiting(message)));
      pending := [];
      if IsOpener(message) {
        var repaired, more := RepairToolCalls(message);
        out, reports := out + [repaired], reports + more;
        SameIdsSameCounts(message);
        pending := Count(repaired.toolCalls);
        continue;
      }
      PlainMessageStays(message);
      assert reports + [] == reports;
      out := out + [message];
    }
    assert messages[|messages|..] == [];
    NoMessages(pending);
    out, reports := FlushPending(pending, out, reports);
  }

  lemma Regroup<T>(a: seq<T>, b: seq<T>, c: seq<T>)
    ensures a + (b + c) == (a + b) + c
  {
  }

  lemma NoMessages(p: Pending)
    ensures Repaired([], p) == Fillers(p) && Reports([], p) == FillerReports(p)
  {
  }

  lemma PlainMessageStays(m: Message)
    requires !IsOpener(m)
    ensures RepairedMessage(m) == m
  {
  }

  lemma NextMessage(ms: seq<Message>, p: Pending)
    requires ms != []
    ensures IsTool(ms[0]) && IsAnswer(ms[0], p) ==>
      Repaired(ms, p) == [ms[0]] + Repaired(ms[1..], Answered(ms[0], p))
        && Reports(ms, p) == Reports(ms[1..], Answered(ms[0], p))
    ensures IsTool(ms[0]) && !IsAnswer(ms[0], p) ==>
      && Repaired(ms, p) == Repaired(ms[1..], p)
      && Reports(ms, p) == [OrphanToolResultDropped(if ms[0].toolCallId.Some? then ms[0].toolCallId.value else "")]
        + Reports(ms[1..], p)
    ensures !IsTool(ms[0]) ==>
      && Repaired(ms, p) == Fillers(p) + ([RepairedMessage(ms[0])] + Repaired(ms[1..], Awaiting(ms[0])))
      && Reports(ms, p)
        == FillerReports(p)
        + ((if IsOpener(ms[0]) then CallsReports(ms[0].toolCalls) else []) + Reports(ms[1..], Awaiting(ms[0])))
  {
    hide RepairedMessage, CallsReports, Fillers, FillerReports, OpenedFor;
  }

  /** Repairing changes no id, so it does not matter that the calls are counted afterwards. */
  lemma SameIdsSameCounts(m: Message)
    requires IsOpener(m)
    ensures OpenedFor(RepairedMessage(m).toolCalls) == OpenedFor(m.toolCalls)
  {
    hide RepairedCalls, OpenedFor;
    RepairedCallsAreGood(m.toolCalls, NamesOf(m.toolCalls));
    OpenedByIds(m.toolCalls, RepairedMessage(m).toolCalls);
  }

  lemma {:induction false} CallIdAt(calls: seq<ToolCall>, i: nat)
    requires i < |calls|
    ensures |CallIds(calls)| == |calls| && CallIds(calls)[i] == Some(calls[i].id)
  {
    if |calls| > 1 { CallIdAt(calls[1..], if i > 0 then i - 1 else 0); } else { assert calls[1..] == []; }
  }

  lemma {:induction false} OpenedByIds(a: seq<ToolCall>, b: seq<ToolCall>)
    requires CallIds(a) == CallIds(b) && |a| == |b|
    ensures OpenedFor(a) == OpenedFor(b)
  {
    hide WithCount, CountOf, CallIds;
    if a != [] {
      var n := |a| - 1;
      CallIdAt(a, n);
      CallIdAt(b, n);
      assert a == a[..n] + [a[n]] && b == b[..n] + [b[n]];
      CallIdsAppend(a[..n], a[n]);
      CallIdsAppend(b[..n], b[n]);
      assert CallIds(a)[..|CallIds(a)| - 1] == CallIds(a[..n]) && CallIds(b)[..|CallIds(b)| - 1] == CallIds(b[..n]);
      OpenedByIds(a[..n], b[..n]);
    }
  }

  ghost function Normalized(ms: seq<Message>): seq<Message> { if Legal(ms) then ms else Repaired(ms, []) }

  method NormalizeMessagesForWire(messages: seq<Message>) returns (out: seq<Message>, reports: seq<Report>)
    ensures out == Normalized(messages)
    ensures reports == if Legal(messages) then [] else Reports(messages, [])
  {
    hide Legal, Repaired, Reports;
    var healthy := IsHealthy(messages);
    if healthy { return messages, []; }
    out, reports := RepairMessages(messages);
  }

  // ---- A legal fixed point -----------------------------------------------------------------------

  lemma {:induction false} CopiesFill(id: string, n: nat, rest: seq<Message>, open: multiset<Option<string>>)
    requires open[Some(id)] >= n
    ensures LegalFrom(Copies(Synthetic(id), n) + rest, open) <==> LegalFrom(rest, open[Some(id) := open[Some(id)] - n])
    decreases n
  {
    hide Synthetic, LegalFrom;
    SyntheticAnswers(id);
    FewerOpen(open, Some(id), n);
    if n == 0 {
      assert Copies(Synthetic(id), n) + rest == rest;
    } else {
      var fewer := Copies(Synthetic(id), n - 1);
      Regroup([Synthetic(id)], fewer, rest);
      LegalTool(Synthetic(id), fewer + rest, open);
      CopiesFill(id, n - 1, rest, open - multiset{Some(id)});
    }
  }

  lemma LegalTool(m: Message, rest: seq<Message>, open: multiset<Option<string>>)
    requires IsTool(m)
    ensures LegalFrom([m] + rest, open) <==> m.toolCallId in open && LegalFrom(rest, open - multiset{m.toolCallId})
  {
    assert ([m] + rest)[1..] == rest;
  }

  lemma SyntheticAnswers(id: string)
    ensures IsTool(Synthetic(id)) && Synthetic(id).toolCallId == Some(id)
  {
  }

  lemma FewerOpen(open: multiset<Option<string>>, id: Option<string>, n: nat)
    requires open[id] >= n
    ensures n == 0 ==> open[id := open[id]] == open
    ensures n > 0 ==> (open - multiset{id})[id] >= n - 1
    ensures n > 0 ==> (open - multiset{id})[id := (open - multiset{id})[id] - (n - 1)] == open[id := open[id] - n]
  {
  }

  /** Placeholders answer exactly what is open. */
  lemma {:induction false} FillersFill(p: Pending, rest: seq<Message>)
    requires Distinct(p)
    ensures LegalFrom(Fillers(p) + rest, Bag(p)) <==> LegalFrom(rest, multiset{})
  {
    hide LegalFrom, Copies, Synthetic;
    if p == [] {
      assert Fillers(p) + rest == rest;
    } else {
      FillersFill(p[1..], rest);
      var (id, n) := p[0];
      Regroup(Copies(Synthetic(id), n), Fillers(p[1..]), rest);
      CopiesFill(id, n, Fillers(p[1..]) + rest, Bag(p));
      assert Bag(p)[Some(id) := Bag(p)[Some(id)] - n] == Bag(p[1..]);
    }
  }

  lemma AnswerTakesOne(m: Message, p: Pending)
    requires Distinct(p)
    ensures IsAnswer(m, p) <==> m.toolCallId in Bag(p)
    ensures IsAnswer(m, p) ==> Distinct(Answered(m, p)) && Bag(Answered(m, p)) == Bag(p) - multiset{m.toolCallId}
  {
    hide Bag, CountOf, WithCount, Distinct;
    BagCounts(p, if m.toolCallId.Some? then m.toolCallId.value else "");
    if IsAnswer(m, p) {
      var id, n := m.toolCallId, CountOf(p, m.toolCallId.value) - 1;
      BagOfWithCount(p, id.value, n);
      assert Bag(p)[id := n] == Bag(p) - multiset{id};
    }
  }

  lemma OpenedIsOpenedBy(m: Message)
    ensures Distinct(Awaiting(m)) && Bag(Awaiting(m)) == OpenedBy(m)
  {
    OpenedForBag(m.toolCalls);
  }

  lemma RepairedMessageKeeps(m: Message)
    ensures IsTool(RepairedMessage(m)) == IsTool(m) && IsOpener(RepairedMessage(m)) == IsOpener(m)
    ensures IsOpener(m) ==> CallsOk(RepairedMessage(m).toolCalls)
    ensures OpenedBy(RepairedMessage(m)) == OpenedBy(m)
    ensures (IsOpener(m) ==> CallsOk(m.toolCalls)) ==> RepairedMessage(m) == m
  {
    hide CallsOk, RepairedCalls;
    RepairedCallsAreGood(m.toolCalls, NamesOf(m.toolCalls));
  }

  lemma {:induction false} RepairedIsLegal(ms: seq<Message>, p: Pending)
    requires Distinct(p)
    ensures LegalFrom(Repaired(ms, p), Bag(p))
    decreases |ms|
  {
    hide CallsOk, RepairedMessage, Bag, Answered, IsAnswer, Fillers, Awaiting, OpenedBy, Distinct;
    if ms == [] {
      FillersFill(p, []);
      assert Fillers(p) + [] == Fillers(p);
    } else if IsTool(ms[0]) {
      AnswerTakesOne(ms[0], p);
      if IsAnswer(ms[0], p) {
        RepairedIsLegal(ms[1..], Answered(ms[0], p));
        assert ([ms[0]] + Repaired(ms[1..], Answered(ms[0], p)))[1..] == Repaired(ms[1..], Answered(ms[0], p));
      } else {
        RepairedIsLegal(ms[1..], p);
      }
    } else {
      OpenedIsOpenedBy(ms[0]);
      RepairedMessageKeeps(ms[0]);
      RepairedIsLegal(ms[1..], Awaiting(ms[0]));
      var rest := [RepairedMessage(ms[0])] + Repaired(ms[1..], Awaiting(ms[0]));
      assert rest[1..] == Repaired(ms[1..], Awaiting(ms[0]));
      FillersFill(p, rest);
    }
  }

  lemma {:induction false} NoFillers(p: Pending)
    requires Distinct(p)
    ensures Bag(p) == multiset{} ==> Fillers(p) == []
    ensures FillerReports(p) == [] <==> Bag(p) == multiset{}
  {
    hide Synthetic;
    if p != [] {
      NoFillers(p[1..]);
      NonePending(p);
      NonePending(p[1..]);
    }
  }

  lemma {:induction false} QuietCalls(calls: seq<ToolCall>)
    ensures CallsReports(calls) == [] <==> CallsOk(calls)
  {
    hide ArgsOk, IsBlank, CallsOk;
    if calls == [] {
      assert CallsReports(calls) == [];
      NoBadCalls();
    } else {
      QuietCalls(calls[1..]);
      CallsOkCons(calls);
      assert CallReports(calls[0]) == [] <==> !IsBlank(calls[0].name) && ArgsOk(calls[0].args);
    }
  }

  lemma NoBadCalls()
    ensures CallsOk([])
  {
  }

  lemma CallsOkCons(calls: seq<ToolCall>)
    requires calls != []
    ensures CallsOk(calls) <==> !IsBlank(calls[0].name) && ArgsOk(calls[0].args) && CallsOk(calls[1..])
  {
    hide ArgsOk, IsBlank;
    if CallsOk(calls) {
      assert forall i :: 0 <= i < |calls[1..]| ==> calls[1..][i] == calls[i + 1];
    } else if CallsOk(calls[1..]) {
      assert forall i :: 0 < i < |calls| ==> calls[i] == calls[1..][i - 1];
    }
  }

  /** A legal history passes the repair unchanged, and the repair has nothing to report exactly then. */
  lemma {:induction false} QuietIffLegal(ms: seq<Message>, p: Pending)
    requires Distinct(p)
    ensures Reports(ms, p) == [] <==> LegalFrom(ms, Bag(p))
    ensures LegalFrom(ms, Bag(p)) ==> Repaired(ms, p) == ms
    decreases |ms|
  {
    hide CallsOk, RepairedMessage, Bag, Answered, IsAnswer, Fillers, FillerReports, CallsReports, Awaiting, OpenedBy,
      Distinct;
    NoFillers(p);
    if ms != [] {
      assert ms == [ms[0]] + ms[1..];
      if IsTool(ms[0]) {
        AnswerTakesOne(ms[0], p);
        if IsAnswer(ms[0], p) { QuietIffLegal(ms[1..], Answered(ms[0], p)); }
      } else {
        OpenedIsOpenedBy(ms[0]);
        RepairedMessageKeeps(ms[0]);
        QuietCalls(ms[0].toolCalls);
        QuietIffLegal(ms[1..], Awaiting(ms[0]));
      }
    }
  }

  /** Whatever the history, what goes to the wire is legal ... */
  lemma NormalizedIsLegal(ms: seq<Message>)
    ensures Legal(Normalized(ms))
  {
    hide Legal, LegalFrom, Repaired;
    NothingPending();
    RepairedIsLegal(ms, []);
    LegalIsLegalFrom(Repaired(ms, []));
  }

  /** ... normalising it again changes nothing ... */
  lemma NormalizedIsFixed(ms: seq<Message>)
    ensures Normalized(Normalized(ms)) == Normalized(ms)
  {
    hide Legal, Repaired;
    NormalizedIsLegal(ms);
  }

  /** ... and a repair is reported if and only if the history was not legal. */
  lemma ReportedIffNotLegal(ms: seq<Message>)
    ensures Reports(ms, []) == [] <==> Legal(ms)
    ensures Legal(ms) ==> Repaired(ms, []) == ms
  {
    hide Legal, LegalFrom, Repaired, Reports;
    NothingPending();
    QuietIffLegal(ms, []);
    LegalIsLegalFrom(ms);
  }

  // ---- Nothing but tool results comes or goes ----------------------------------------------------

  function NonTools(ms: seq<Message>): seq<Message> {
    if ms == [] then [] else (if IsTool(ms[0]) then [] else [ms[0]]) + NonTools(ms[1..])
  }

  ghost function RepairedEach(ms: seq<Message>): seq<Message> {
    if ms == [] then [] else [RepairedMessage(ms[0])] + RepairedEach(ms[1..])
  }

  lemma {:induction false} NonToolsAppend(a: seq<Message>, b: seq<Message>)
    ensures NonTools(a + b) == NonTools(a) + NonTools(b)
  {
    if a == [] {
      assert a + b == b;
    } else {
      assert (a + b)[1..] == a[1..] + b;
      NonToolsAppend(a[1..], b);
      Regroup(if IsTool(a[0]) then [] else [a[0]], NonTools(a[1..]), NonTools(b));
    }
  }

  lemma {:induction false} CopiesAreTools(id: string, n: nat)
    ensures NonTools(Copies(Synthetic(id), n)) == []
  {
    if n > 0 {
      CopiesAreTools(id, n - 1);
      assert Copies(Synthetic(id), n)[1..] == Copies(Synthetic(id), n - 1);
    }
  }

  lemma {:induction false} FillersAreTools(p: Pending)
    ensures NonTools(Fillers(p)) == []
  {
    hide Synthetic, Copies, NonTools;
    if p == [] {
      NoMessagesLeft();
    } else {
      CopiesAreTools(p[0].0, p[0].1);
      FillersAreTools(p[1..]);
      NonToolsAppend(Copies(Synthetic(p[0].0), p[0].1), Fillers(p[1..]));
    }
  }

  lemma NoMessagesLeft()
    ensures NonTools([]) == []
  {
  }

  /** Every message that is no tool result is kept, in order; only the calls of openers are repaired. */
  lemma {:induction false} OthersAreKept(ms: seq<Message>, p: Pending)
    ensures NonTools(Repaired(ms, p)) == RepairedEach(NonTools(ms))
    decreases |ms|
  {
    hide RepairedMessage, Answered, IsAnswer, Fillers, Awaiting;
    if ms == [] {
      FillersAreTools(p);
    } else if IsTool(ms[0]) {
      if IsAnswer(ms[0], p) {
        OthersAreKept(ms[1..], Answered(ms[0], p));
        assert ([ms[0]] + Repaired(ms[1..], Answered(ms[0], p)))[1..] == Repaired(ms[1..], Answered(ms[0], p));
        assert [] + NonTools(Repaired(ms[1..], Answered(ms[0], p))) == NonTools(Repaired(ms[1..], Answered(ms[0], p)));
      } else {
        OthersAreKept(ms[1..], p);
      }
      assert [] + NonTools(ms[1..]) == NonTools(ms[1..]);
    } else {
      RepairedMessageKeeps(ms[0]);
      OthersAreKept(ms[1..], Awaiting(ms[0]));
      FillersAreTools(p);
      var rest := [RepairedMessage(ms[0])] + Repaired(ms[1..], Awaiting(ms[0]));
      assert rest[1..] == Repaired(ms[1..], Awaiting(ms[0]));
      NonToolsAppend(Fillers(p), rest);
      assert NonTools(ms) == [ms[0]] + NonTools(ms[1..]) && ([ms[0]] + NonTools(ms[1..]))[1..] == NonTools(ms[1..]);
    }
  }
}
