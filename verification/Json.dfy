/** JSON texts (RFC 8259, section 2), the scan that looks for truncated ones, and the closing of those
    (kosong normalize.ts). */
module Json {
  import opened Bytes
  import opened JsStrings

  // ---- The grammar -------------------------------------------------------------------------------

  predicate IsWs(c: char) { c == ' ' || c == '\t' || c == '\n' || c == '\r' }

  predicate IsDigit(c: char) { '0' <= c <= '9' }

  predicate IsHex(c: char) { IsDigit(c) || 'a' <= c <= 'f' || 'A' <= c <= 'F' }

  predicate IsEscape(c: char) {
    c == '"' || c == '\\' || c == '/' || c == 'b' || c == 'f' || c == 'n' || c == 'r' || c == 't'
  }

  function SkipWs(s: string): (rest: string)
    ensures |rest| <= |s|
  {
    if s != [] && IsWs(s[0]) then SkipWs(s[1..]) else s
  }

  predicate Starts(s: string, c: char) { s != [] && s[0] == c }

  /** What follows a string whose opening quote has been read. */
  function StringEnd(s: string): (rest: Option<string>)
    ensures rest.Some? ==> |rest.value| < |s|
  {
    if s == [] then None
    else if s[0] == '"' then Some(s[1..])
    else if s[0] == '\\' then
      if |s| >= 2 && IsEscape(s[1]) then StringEnd(s[2..])
      else if |s| >= 6 && s[1] == 'u' && IsHex(s[2]) && IsHex(s[3]) && IsHex(s[4]) && IsHex(s[5]) then StringEnd(s[6..])
      else None
    else if s[0] < ' ' then None
    else StringEnd(s[1..])
  }

  function SkipDigits(s: string): (rest: string)
    ensures |rest| <= |s|
  {
    if s != [] && IsDigit(s[0]) then SkipDigits(s[1..]) else s
  }

  function SkipFraction(s: string): (rest: string)
    ensures |rest| <= |s|
  {
    if |s| >= 2 && s[0] == '.' && IsDigit(s[1]) then SkipDigits(s[1..]) else s
  }

  function SkipExponent(s: string): (rest: string)
    ensures |rest| <= |s|
  {
    if |s| >= 2 && (s[0] == 'e' || s[0] == 'E') && IsDigit(s[1]) then SkipDigits(s[1..])
    else if |s| >= 3 && (s[0] == 'e' || s[0] == 'E') && (s[1] == '+' || s[1] == '-')
      && IsDigit(s[2]) then SkipDigits(s[2..])
    else s
  }

  function NumberEnd(s: string): (rest: Option<string>)
    ensures rest.Some? ==> |rest.value| < |s|
  {
    var u := if Starts(s, '-') then s[1..] else s;
    if u == [] || !IsDigit(u[0]) then None
    else Some(SkipExponent(SkipFraction(if u[0] == '0' then u[1..] else SkipDigits(u[1..]))))
  }

  /** What follows a value at the front of `s`. */
  function ValueEnd(s: string): (rest: Option<string>)
    ensures rest.Some? ==> |rest.value| < |s|
    decreases |s|, 0
  {
    if Starts(s, '{') then
      var t := SkipWs(s[1..]);
      if Starts(t, '}') then Some(t[1..]) else MembersEnd(t)
    else if Starts(s, '[') then
      var t := SkipWs(s[1..]);
      if Starts(t, ']') then Some(t[1..]) else ElementsEnd(t)
    else if Starts(s, '"') then StringEnd(s[1..])
    else if "true" <= s || "null" <= s then Some(s[4..])
    else if "false" <= s then Some(s[5..])
    else NumberEnd(s)
  }

  /** What follows the members of an object and its closing brace. */
  function MembersEnd(s: string): (rest: Option<string>)
    ensures rest.Some? ==> |rest.value| < |s|
    decreases |s|, 1
  {
    if !Starts(s, '"') then None
    else
      match StringEnd(s[1..])
      case None => None
      case Some(afterKey) =>
        var colon := SkipWs(afterKey);
        if !Starts(colon, ':') then None
        else
          match ValueEnd(SkipWs(colon[1..]))
          case None => None
          case Some(afterValue) =>
            var t := SkipWs(afterValue);
            if Starts(t, '}') then Some(t[1..])
            else if Starts(t, ',') then MembersEnd(SkipWs(t[1..]))
            else None
  }

  function ElementsEnd(s: string): (rest: Option<string>)
    ensures rest.Some? ==> |rest.value| < |s|
    decreases |s|, 1
  {
    match ValueEnd(s)
    case None => None
    case Some(afterValue) =>
      var t := SkipWs(afterValue);
      if Starts(t, ']') then Some(t[1..])
      else if Starts(t, ',') then ElementsEnd(SkipWs(t[1..]))
      else None
  }

  /** JSON.parse does not throw. */
  predicate IsJson(s: string) { ValueEnd(SkipWs(s)).Some? && SkipWs(ValueEnd(SkipWs(s)).value) == [] }

  /** ... and yields an object. */
  predicate IsJsonObject(s: string) { IsJson(s) && Starts(SkipWs(s), '{') }

  // ---- The scan ----------------------------------------------------------------------------------

  /** What both scans keep: the balance scan reads `depth`, the closing one `stack`. */
  datatype Scan = Scan(inString: bool, escaped: bool, depth: int, stack: string)

  const Outside := Scan(false, false, 0, [])

  function Popped(stack: string, c: char): string {
    if stack != [] && stack[|stack| - 1] == c then stack[..|stack| - 1] else stack
  }

  function Next(st: Scan, c: char): Scan {
    if st.inString then
      if st.escaped then st.(escaped := false)
      else if c == '\\' then st.(escaped := true)
      else if c == '"' then st.(inString := false)
      else st
    else if c == '"' then st.(inString := true)
    else if c == '{' || c == '[' then st.(depth := st.depth + 1, stack := st.stack + [c])
    else if c == '}' then st.(depth := st.depth - 1, stack := Popped(st.stack, '{'))
    else if c == ']' then st.(depth := st.depth - 1, stack := Popped(st.stack, '['))
    else st
  }

  function Scanned(st: Scan, s: string): Scan
    decreases s
  {
    if s == [] then st else Scanned(Next(st, s[0]), s[1..])
  }

  /** The depth never drops below zero. */
  predicate StaysUp(st: Scan, s: string)
    decreases s
  {
    s == [] || (Next(st, s[0]).depth >= 0 && StaysUp(Next(st, s[0]), s[1..]))
  }

  /** What the pre-scan asks for: outside a string at the end, every bracket closed, none too many. */
  predicate IsBalanced(s: string) {
    StaysUp(Outside, s) && !Scanned(Outside, s).inString && Scanned(Outside, s).depth == 0
  }

  lemma {:induction false} ScanMore(st: Scan, s: string, i: nat)
    requires i < |s|
    ensures Scanned(st, s[..i + 1]) == Next(Scanned(st, s[..i]), s[i])
    ensures StaysUp(st, s[..i + 1]) <==> StaysUp(st, s[..i]) && Next(Scanned(st, s[..i]), s[i]).depth >= 0
    decreases s
  {
    hide Next;
    if i == 0 {
      assert s[..1][1..] == [];
    } else {
      assert s[..i + 1][1..] == s[1..][..i] && s[..i][1..] == s[1..][..i - 1];
      ScanMore(Next(st, s[0]), s[1..], i - 1);
    }
  }

  lemma {:induction false} UpPrefix(st: Scan, s: string, i: nat)
    requires i <= |s| && StaysUp(st, s)
    ensures StaysUp(st, s[..i])
    decreases s
  {
    hide Next;
    if i > 0 {
      assert s[..i][1..] == s[1..][..i - 1];
      UpPrefix(Next(st, s[0]), s[1..], i - 1);
    }
  }

  /** isBalancedJsonCandidate. */
  method IsBalancedJsonCandidate(text: string) returns (balanced: bool)
    ensures balanced <==> IsBalanced(text)
  {
    hide StaysUp, Scanned;
    var inString, escaped, depth := false, false, 0;
    ScanNothing(Outside);
    assert text[..0] == [];
    for i := 0 to |text|
      invariant StaysUp(Outside, text[..i]) && depth >= 0
      invariant var st := Scanned(Outside, text[..i]);
                st.inString == inString && st.escaped == escaped && st.depth == depth
    {
      var ch := text[i];
      ScanMore(Outside, text, i);
      if inString {
        if escaped {
          escaped := false;
        } else if ch == '\\' {
          escaped := true;
        } else if ch == '"' {
          inString := false;
        }
        continue;
      }
      if ch == '"' {
        inString := true;
      } else if ch == '{' || ch == '[' {
        depth := depth + 1;
      } else if ch == '}' || ch == ']' {
        depth := depth - 1;
        if depth < 0 {
          if StaysUp(Outside, text) { UpPrefix(Outside, text, i + 1); }
          return false;
        }
      }
    }
    assert text[..|text|] == text;
    balanced := !inString && depth == 0;
  }

  lemma ScanNothing(st: Scan)
    ensures Scanned(st, []) == st && StaysUp(st, [])
  {
  }

  // ---- The scan accepts every JSON text ----------------------------------------------------------

  predicate IsOutside(st: Scan) { !st.inString && !st.escaped && st.depth >= 0 }

  /** Reading `s` up to `rest` takes the scan from one state to another without dropping below zero. */
  predicate Reads(st: Scan, s: string, end: Scan, rest: string) {
    Scanned(st, s) == Scanned(end, rest) && (StaysUp(st, s) <==> StaysUp(end, rest))
  }

  lemma ReadOne(st: Scan, s: string)
    requires s != [] && Next(st, s[0]).depth >= 0
    ensures Reads(st, s, Next(st, s[0]), s[1..])
  {
  }

  /** Characters that mean nothing to the scan. */
  predicate IsPlain(c: char) { c != '"' && c != '{' && c != '[' && c != '}' && c != ']' }

  lemma ReadPlain(st: Scan, s: string, n: nat)
    requires IsOutside(st) && n <= |s| && forall i :: 0 <= i < n ==> IsPlain(s[i])
    ensures Reads(st, s, st, s[n..])
    decreases n
  {
    if n > 0 {
      ReadOne(st, s);
      ReadPlain(st, s[1..], n - 1);
      assert s[1..][n - 1..] == s[n..];
    } else {
      assert s[0..] == s;
    }
  }

  lemma {:induction false} ReadWs(st: Scan, s: string)
    requires IsOutside(st)
    ensures Reads(st, s, st, SkipWs(s))
  {
    hide Scanned, StaysUp;
    if s != [] && IsWs(s[0]) {
      ReadOne(st, s);
      ReadWs(st, s[1..]);
    }
  }

  lemma {:induction false} ReadDigits(st: Scan, s: string)
    requires IsOutside(st)
    ensures Reads(st, s, st, SkipDigits(s))
  {
    hide Scanned, StaysUp;
    if s != [] && IsDigit(s[0]) {
      ReadOne(st, s);
      ReadDigits(st, s[1..]);
    }
  }

  lemma {:induction false} ReadString(st: Scan, s: string)
    requires st.inString && !st.escaped && st.depth >= 0 && StringEnd(s).Some?
    ensures Reads(st, s, st.(inString := false), StringEnd(s).value)
  {
    hide Scanned, StaysUp;
    ReadOne(st, s);
    if s[0] == '"' {
    } else if s[0] == '\\' {
      ReadOne(Next(st, s[0]), s[1..]);
      assert s[1..][1..] == s[2..];
      if IsEscape(s[1]) {
        ReadString(st, s[2..]);
      } else {
        ReadHex(st, s[2..]);
        assert s[2..][4..] == s[6..];
        ReadString(st, s[6..]);
      }
    } else {
      ReadString(st, s[1..]);
    }
  }

  lemma ReadHex(st: Scan, s: string)
    requires st.inString && !st.escaped && st.depth >= 0
    requires |s| >= 4 && IsHex(s[0]) && IsHex(s[1]) && IsHex(s[2]) && IsHex(s[3])
    ensures Reads(st, s, st, s[4..])
  {
    hide Scanned, StaysUp;
    ReadOne(st, s);
    ReadOne(st, s[1..]);
    ReadOne(st, s[2..]);
    ReadOne(st, s[3..]);
    assert s[1..][1..] == s[2..] && s[2..][1..] == s[3..] && s[3..][1..] == s[4..];
  }

  lemma ReadNumber(st: Scan, s: string)
    requires IsOutside(st) && NumberEnd(s).Some?
    ensures Reads(st, s, st, NumberEnd(s).value)
  {
    hide Scanned, StaysUp, SkipDigits;
    var u := if Starts(s, '-') then s[1..] else s;
    if Starts(s, '-') { ReadOne(st, s); }
    ReadOne(st, u);
    var v := if u[0] == '0' then u[1..] else SkipDigits(u[1..]);
    ReadDigits(st, u[1..]);
    ReadFraction(st, v);
    ReadExponent(st, SkipFraction(v));
  }

  lemma ReadFraction(st: Scan, s: string)
    requires IsOutside(st)
    ensures Reads(st, s, st, SkipFraction(s))
  {
    hide Scanned, StaysUp, SkipDigits;
    if s != [] && s[0] == '.' {
      ReadOne(st, s);
      ReadDigits(st, s[1..]);
    }
  }

  lemma ReadExponent(st: Scan, s: string)
    requires IsOutside(st)
    ensures Reads(st, s, st, SkipExponent(s))
  {
    hide Scanned, StaysUp, SkipDigits;
    if |s| >= 2 && (s[0] == 'e' || s[0] == 'E') {
      ReadOne(st, s);
      ReadDigits(st, s[1..]);
      if s[1] == '+' || s[1] == '-' {
        ReadOne(st, s[1..]);
        assert s[1..][1..] == s[2..];
        ReadDigits(st, s[2..]);
      }
    }
  }

  function Opened(st: Scan, c: char): Scan { st.(depth := st.depth + 1, stack := st.stack + [c]) }

  /** A whole value leaves the scan where it was. */
  lemma {:induction false} ReadValue(st: Scan, s: string)
    requires IsOutside(st) && ValueEnd(s).Some?
    ensures Reads(st, s, st, ValueEnd(s).value)
    decreases |s|, 0
  {
    hide Scanned, StaysUp, StringEnd, NumberEnd, SkipWs, MembersEnd, ElementsEnd;
    if Starts(s, '{') || Starts(s, '[') {
      var inner := Opened(st, s[0]);
      ReadOne(st, s);
      ReadWs(inner, s[1..]);
      var t := SkipWs(s[1..]);
      if Starts(t, if s[0] == '{' then '}' else ']') {
        CloseReads(st, s[0], t);
      } else if s[0] == '{' {
        ReadMembers(st, t);
      } else {
        ReadElements(st, t);
      }
    } else if Starts(s, '"') {
      ReadOne(st, s);
      ReadString(st.(inString := true), s[1..]);
    } else if "true" <= s || "null" <= s {
      ReadPlain(st, s, 4);
    } else if "false" <= s {
      ReadPlain(st, s, 5);
    } else {
      ReadNumber(st, s);
    }
  }

  lemma CloseReads(st: Scan, open: char, t: string)
    requires IsOutside(st) && (open == '{' || open == '[') && Starts(t, if open == '{' then '}' else ']')
    ensures Reads(Opened(st, open), t, st, t[1..])
  {
    hide Scanned, StaysUp;
    ReadOne(Opened(st, open), t);
    assert (st.stack + [open])[..|st.stack|] == st.stack;
  }

  lemma {:induction false} ReadMembers(st: Scan, s: string)
    requires IsOutside(st) && MembersEnd(s).Some?
    ensures Reads(Opened(st, '{'), s, st, MembersEnd(s).value)
    decreases |s|, 1
  {
    hide Scanned, StaysUp, StringEnd, SkipWs, ValueEnd;
    var inner := Opened(st, '{');
    ReadOne(inner, s);
    ReadString(inner.(inString := true), s[1..]);
    var afterKey := StringEnd(s[1..]).value;
    ReadWs(inner, afterKey);
    var colon := SkipWs(afterKey);
    ReadOne(inner, colon);
    ReadWs(inner, colon[1..]);
    ReadValue(inner, SkipWs(colon[1..]));
    var afterValue := ValueEnd(SkipWs(colon[1..])).value;
    ReadWs(inner, afterValue);
    var t := SkipWs(afterValue);
    if Starts(t, '}') {
      CloseReads(st, '{', t);
    } else {
      ReadOne(inner, t);
      ReadWs(inner, t[1..]);
      ReadMembers(st, SkipWs(t[1..]));
    }
  }

  lemma {:induction false} ReadElements(st: Scan, s: string)
    requires IsOutside(st) && ElementsEnd(s).Some?
    ensures Reads(Opened(st, '['), s, st, ElementsEnd(s).value)
    decreases |s|, 1
  {
    hide Scanned, StaysUp, SkipWs, ValueEnd;
    var inner := Opened(st, '[');
    ReadValue(inner, s);
    var afterValue := ValueEnd(s).value;
    ReadWs(inner, afterValue);
    var t := SkipWs(afterValue);
    if Starts(t, ']') {
      CloseReads(st, '[', t);
    } else {
      ReadOne(inner, t);
      ReadWs(inner, t[1..]);
      ReadElements(st, SkipWs(t[1..]));
    }
  }

  /** The pre-scan never rejects a JSON text. */
  lemma JsonIsBalanced(s: string)
    requires IsJson(s)
    ensures IsBalanced(s) && Scanned(Outside, s) == Outside
  {
    hide Scanned, StaysUp, SkipWs, ValueEnd;
    ReadWs(Outside, s);
    ReadValue(Outside, SkipWs(s));
    ReadWs(Outside, ValueEnd(SkipWs(s)).value);
    ScanNothing(Outside);
  }

  // ---- Closing a truncated text ------------------------------------------------------------------

  function Closer(open: char): char { if open == '{' then '}' else ']' }

  /** The brackets that close the open ones, innermost first. */
  function Closers(stack: string): string {
    if stack == [] then [] else [Closer(stack[|stack| - 1])] + Closers(stack[..|stack| - 1])
  }

  predicate Ends(s: string, c: char) { s != [] && s[|s| - 1] == c }

  /** Trailing commas go, a trailing colon gets a null. */
  function Tidied(s: string): string {
    var t := TrimEnd(s);
    if Ends(t, ',') then Tidied(t[..|t| - 1]) else if Ends(t, ':') then t + "null" else t
  }

  /** A cut string ends where it was cut, without half an escape. */
  function Body(s: string): string
    requires s != []
  {
    var st := Scanned(Outside, s);
    var kept := if st.escaped then s[..|s| - 1] else s;
    if st.inString then kept + "\"" else Tidied(kept)
  }

  function Closed(raw: string): string {
    var s := Trim(raw);
    if s == [] then "{}"
    else
      var whole := Body(s) + Closers(Scanned(Outside, s).stack);
      if IsJson(whole) then whole else "{}"
  }

  /** closeTruncatedJson. */
  method CloseTruncatedJson(raw: string) returns (closed: string)
    ensures closed == Closed(raw)
  {
    hide Scanned, IsJson, Closers, Tidied;
    var trimmed := Trim(raw);
    if |trimmed| == 0 { return "{}"; }
    var inString, escaped, stack := ScanBrackets(trimmed);
    var body := trimmed;
    if escaped { body := body[..|body| - 1]; }
    if inString {
      body := body + "\"";
    } else {
      body := TidyEnd(body);
    }
    ghost var whole := body + Closers(stack);
    var i := |stack|;
    assert stack[..i] == stack;
    while i > 0
      invariant 0 <= i <= |stack| && whole == body + Closers(stack[..i])
    {
      CloseOne(body, stack[..i]);
      assert stack[..i][..i - 1] == stack[..i - 1];
      i := i - 1;
      body := body + if stack[i] == '{' then "}" else "]";
    }
    NoClosers(body);
    closed := if IsJson(body) then body else "{}";
  }

  lemma CloseOne(body: string, stack: string)
    requires stack != []
    ensures body + Closers(stack) == body + [Closer(stack[|stack| - 1])] + Closers(stack[..|stack| - 1])
  {
    hide Closers, Closer;
    NextCloser(stack);
    Regroup(body, [Closer(stack[|stack| - 1])], Closers(stack[..|stack| - 1]));
  }

  lemma NextCloser(stack: string)
    requires stack != []
    ensures Closers(stack) == [Closer(stack[|stack| - 1])] + Closers(stack[..|stack| - 1])
  {
  }

  lemma Regroup(a: string, b: string, c: string)
    ensures a + (b + c) == a + b + c
  {
  }

  lemma NoClosers(body: string)
    ensures body + Closers([]) == body
  {
  }

  method ScanBrackets(s: string) returns (inString: bool, escaped: bool, stack: string)
    ensures var st := Scanned(Outside, s); inString == st.inString && escaped == st.escaped && stack == st.stack
  {
    hide Scanned, StaysUp;
    inString, escaped, stack := false, false, [];
    ScanNothing(Outside);
    assert s[..0] == [];
    for i := 0 to |s|
      invariant var st := Scanned(Outside, s[..i]);
                inString == st.inString && escaped == st.escaped && stack == st.stack
    {
      var ch := s[i];
      ScanMore(Outside, s, i);
      if inString {
        if escaped {
          escaped := false;
        } else if ch == '\\' {
          escaped := true;
        } else if ch == '"' {
          inString := false;
        }
        continue;
      }
      if ch == '"' {
        inString := true;
      } else if ch == '{' || ch == '[' {
        stack := stack + [ch];
      } else if ch == '}' {
        if stack != [] && stack[|stack| - 1] == '{' { stack := stack[..|stack| - 1]; }
      } else if ch == ']' {
        if stack != [] && stack[|stack| - 1] == '[' { stack := stack[..|stack| - 1]; }
      }
    }
    assert s[..|s|] == s;
  }

  method TidyEnd(s: string) returns (body: string)
    ensures body == Tidied(s)
  {
    body := s;
    ghost var filled := false;
    while true
      invariant Tidied(body) == Tidied(s)
      invariant filled ==> !Ends(TrimEnd(body), ',') && !Ends(TrimEnd(body), ':')
      decreases !filled, |body|
    {
      body := TrimEnd(body);
      if Ends(body, ',') {
        body := body[..|body| - 1];
        continue;
      }
      if Ends(body, ':') {
        body := body + "null";
        assert TrimEnd(body) == body;
        filled := true;
        continue;
      }
      break;
    }
  }

  lemma {:induction false} ScanSplit(st: Scan, a: string, b: string)
    ensures Scanned(st, a + b) == Scanned(Scanned(st, a), b)
    decreases a
  {
    hide Next;
    if a == [] {
      assert a + b == b;
    } else {
      assert (a + b)[1..] == a[1..] + b;
      ScanSplit(Next(st, a[0]), a[1..], b);
    }
  }

  lemma LastOne(st: Scan, s: string)
    requires s != []
    ensures Scanned(st, s) == Next(Scanned(st, s[..|s| - 1]), s[|s| - 1])
  {
    hide StaysUp, Next;
    ScanMore(st, s, |s| - 1);
    assert s[..|s|] == s;
  }

  /** A plain last character outside a string leaves no trace. */
  lemma DropPlain(s: string)
    requires s != [] && IsPlain(s[|s| - 1]) && !Scanned(Outside, s).inString
    ensures Scanned(Outside, s[..|s| - 1]) == Scanned(Outside, s)
  {
    hide Scanned;
    LastOne(Outside, s);
  }

  lemma {:induction false} TrimEndScans(s: string)
    requires !Scanned(Outside, s).inString
    ensures Scanned(Outside, TrimEnd(s)) == Scanned(Outside, s)
  {
    hide Scanned;
    if s != [] && IsSpace(s[|s| - 1]) {
      DropPlain(s);
      TrimEndScans(s[..|s| - 1]);
    }
  }

  lemma {:induction false} TidiedScans(s: string)
    requires !Scanned(Outside, s).inString && !Scanned(Outside, s).escaped
    ensures Scanned(Outside, Tidied(s)) == Scanned(Outside, s)
    decreases |s|
  {
    hide Scanned;
    TrimEndScans(s);
    var t := TrimEnd(s);
    if Ends(t, ',') {
      DropPlain(t);
      TidiedScans(t[..|t| - 1]);
    } else if Ends(t, ':') {
      ScanSplit(Outside, t, "null");
      NullScans(Scanned(Outside, t));
    }
  }

  lemma NullScans(st: Scan)
    requires !st.inString && !st.escaped
    ensures Scanned(st, "null") == st
  {
    hide Scanned;
    var n := "null";
    ScanMore(st, n, 0);
    ScanMore(st, n, 1);
    ScanMore(st, n, 2);
    ScanMore(st, n, 3);
    ScanNothing(st);
    assert n[..0] == [] && n[..4] == n;
  }

  lemma {:induction false} EscapedIsInside(s: string)
    ensures Scanned(Outside, s).escaped ==> Scanned(Outside, s).inString && s != [] && s[|s| - 1] == '\\'
    decreases |s|
  {
    hide Scanned;
    if s != [] {
      LastOne(Outside, s);
      EscapedIsInside(s[..|s| - 1]);
    } else {
      ScanNothing(Outside);
    }
  }

  /** The body is outside every string and has the brackets open that the text has. */
  lemma BodyScans(s: string)
    requires s != []
    ensures var st, end := Scanned(Outside, s), Scanned(Outside, Body(s));
            !end.inString && !end.escaped && end.stack == st.stack && end.depth == st.depth
  {
    hide Scanned, Tidied;
    EscapedIsInside(s);
    LastOne(Outside, s);
    var st := Scanned(Outside, s);
    if st.inString {
      var kept := if st.escaped then s[..|s| - 1] else s;
      var quoted := kept + "\"";
      LastOne(Outside, quoted);
      assert quoted[..|quoted| - 1] == kept;
    } else {
      TidiedScans(s);
    }
  }

  predicate AllClosers(c: string) { forall i :: 0 <= i < |c| ==> c[i] == '}' || c[i] == ']' }

  /** Closing brackets that bring the scan to no open bracket are exactly the closers of the open ones. */
  lemma {:induction false} OnlyClosersFit(st: Scan, c: string)
    requires IsOutside(st) && AllClosers(c) && |st.stack| >= st.depth && IsOpeners(st.stack)
    requires Scanned(st, c).depth == 0 && Scanned(st, c).stack == []
    ensures c == Closers(st.stack)
    decreases |c|
  {
    DepthFalls(st, c);
    if c != [] {
      StackFalls(Next(st, c[0]), c[1..]);
      assert Next(st, c[0]).stack == st.stack[..|st.stack| - 1];
      OnlyClosersFit(Next(st, c[0]), c[1..]);
    }
  }

  predicate IsOpeners(stack: string) { forall i :: 0 <= i < |stack| ==> stack[i] == '{' || stack[i] == '[' }

  lemma {:induction false} DepthFalls(st: Scan, c: string)
    requires !st.inString && AllClosers(c)
    ensures Scanned(st, c).depth == st.depth - |c|
    decreases |c|
  {
    if c != [] { DepthFalls(Next(st, c[0]), c[1..]); }
  }

  lemma {:induction false} StackFalls(st: Scan, c: string)
    requires !st.inString && AllClosers(c)
    ensures |Scanned(st, c).stack| >= |st.stack| - |c|
    decreases |c|
  {
    if c != [] { StackFalls(Next(st, c[0]), c[1..]); }
  }

  lemma {:induction false} StackIsDeep(s: string)
    ensures |Scanned(Outside, s).stack| >= Scanned(Outside, s).depth && IsOpeners(Scanned(Outside, s).stack)
    decreases |s|
  {
    hide Scanned;
    if s != [] {
      LastOne(Outside, s);
      StackIsDeep(s[..|s| - 1]);
    } else {
      ScanNothing(Outside);
    }
  }

  /** If any closing brackets complete the body, closing finds them; otherwise the result is `{}`. */
  lemma CloseFindsCompletion(raw: string, c: string)
    requires Trim(raw) != [] && AllClosers(c) && IsJson(Body(Trim(raw)) + c)
    ensures Closed(raw) == Body(Trim(raw)) + c
  {
    hide Scanned, StaysUp, Body, IsJson;
    var s := Trim(raw);
    var body := Body(s);
    BodyScans(s);
    StackIsDeep(s);
    JsonIsBalanced(body + c);
    ScanSplit(Outside, body, c);
    BalancedPrefix(body, c);
    OnlyClosersFit(Scanned(Outside, body), c);
  }

  lemma BalancedPrefix(a: string, b: string)
    requires IsBalanced(a + b)
    ensures Scanned(Outside, a).depth >= 0
  {
    hide Next;
    UpPrefix(Outside, a + b, |a|);
    assert (a + b)[..|a|] == a;
    UpAtEnd(Outside, a);
  }

  lemma {:induction false} UpAtEnd(st: Scan, s: string)
    requires StaysUp(st, s) && st.depth >= 0
    ensures Scanned(st, s).depth >= 0
    decreases s
  {
    hide Next;
    if s != [] { UpAtEnd(Next(st, s[0]), s[1..]); }
  }

  /** A text that lost only closing brackets gets exactly those back. */
  lemma LostBracketsComeBack(s: string, c: string)
    requires IsJson(s + c) && AllClosers(c) && s != [] && Trim(s) == s
    requires !Scanned(Outside, s).inString && !Ends(s, ',') && !Ends(s, ':')
    ensures Closed(s) == s + c
  {
    hide Scanned, IsJson;
    EscapedIsInside(s);
    TrimmedEnd(s);
    CloseFindsCompletion(s, c);
  }

  lemma TrimmedEnd(s: string)
    requires Trim(s) == s
    ensures TrimEnd(s) == s
  {
    assert |TrimEnd(TrimStart(s))| <= |TrimStart(s)| <= |s|;
    assert TrimStart(s) == s[|s| - |TrimStart(s)|..] == s;
  }

  /** A `{}` or a JSON text: never anything else. */
  lemma ClosedIsJson(raw: string)
    ensures IsJson(Closed(raw))
  {
    hide Scanned;
    EmptyObject();
  }

  lemma EmptyObject()
    ensures IsJsonObject("{}")
  {
    var s := "{}";
    assert SkipWs(s) == s;
    assert SkipWs(s[1..]) == s[1..];
    assert ValueEnd(s) == Some([]);
  }
}
