/** The text of every JSON value is a JSON text (RFC 8259, sections 2 to 7), whatever white space stands
    between its tokens; and what becomes of such texts that were cut (kosong normalize.ts). */
module JsonTexts {
  import opened Bytes
  import opened JsStrings
  import opened Json

  /** A value. A number is written by its digits: an optional minus, a whole part without a leading
      zero, maybe a fraction, maybe an exponent with its sign. */
  datatype Value =
    | Null
    | Bool(b: bool)
    | Number(minus: bool, whole: string, fraction: string, sign: string, exponent: string)
    | Text(s: string)
    | List(items: seq<Value>)
    | Object(members: seq<Member>)

  datatype Member = Member(name: string, value: Value)

  predicate AllDigits(s: string) { forall i :: 0 <= i < |s| ==> IsDigit(s[i]) }

  predicate IsWellFormed(v: Value)
    decreases v
  {
    match v
    case Number(_, whole, fraction, sign, exponent) =>
      && whole != [] && AllDigits(whole) && (whole[0] == '0' ==> |whole| == 1)
      && AllDigits(fraction) && AllDigits(exponent) && (sign == "" || sign == "+" || sign == "-")
    case List(items) => forall i :: 0 <= i < |items| ==> IsWellFormed(items[i])
    case Object(members) => forall i :: 0 <= i < |members| ==> IsWellFormed(members[i].value)
    case _ => true
  }

  // ---- Printing ----------------------------------------------------------------------------

  function HexDigit(d: nat): char
    requires d < 16
  {
    if d < 10 then (48 + d) as char else (87 + d) as char
  }

  /** A character as it stands in a string: quotes and backslashes escaped, control characters by
      number. */
  function Escaped(c: char): string {
    if c == '"' then ['\\', '"']
    else if c == '\\' then ['\\', '\\']
    else if c < ' ' then ['\\', 'u', '0', '0', HexDigit(c as nat / 16), HexDigit(c as nat % 16)]
    else [c]
  }

  function EscapedAll(s: string): string { if s == [] then [] else Escaped(s[0]) + EscapedAll(s[1..]) }

  function Quoted(s: string): string { ['"'] + (EscapedAll(s) + ['"']) }

  function Minus(minus: bool): string { if minus then ['-'] else [] }

  function Fraction(v: Value): string
    requires v.Number?
  {
    if v.fraction == [] then [] else ['.'] + v.fraction
  }

  function Exponent(v: Value): string
    requires v.Number?
  {
    if v.exponent == [] then [] else ['e'] + v.sign + v.exponent
  }

  function PrintNumber(v: Value): string
    requires v.Number?
  {
    Minus(v.minus) + (v.whole + (Fraction(v) + Exponent(v)))
  }

  /** The text of a value, with the white space `ws` wherever it may stand. */
  function Print(v: Value, ws: string): string
    decreases v, 0
  {
    match v
    case Null => "null"
    case Bool(b) => if b then "true" else "false"
    case Number(_, _, _, _, _) => PrintNumber(v)
    case Text(s) => Quoted(s)
    case List(items) => ['['] + (ws + (if items == [] then [']'] else PrintItems(items, ws)))
    case Object(members) => ['{'] + (ws + (if members == [] then ['}'] else PrintMembers(members, ws)))
  }

  function PrintItems(items: seq<Value>, ws: string): string
    requires items != []
    decreases items, 1
  {
    Print(items[0], ws) + (ws + (if |items| == 1 then [']'] else [','] + (ws + PrintItems(items[1..], ws))))
  }

  function PrintMembers(members: seq<Member>, ws: string): string
    requires members != []
    decreases members, 1
  {
    Quoted(members[0].name) + (ws + ([':'] + (ws + (Print(members[0].value, ws) + (ws + (
      if |members| == 1 then ['}'] else [','] + (ws + PrintMembers(members[1..], ws))))))))
  }

  // ---- Reading it back ---------------------------------------------------------------------

  predicate AllWs(ws: string) { forall i :: 0 <= i < |ws| ==> IsWs(ws[i]) }

  lemma {:induction false} SkipsWs(ws: string, rest: string)
    requires AllWs(ws) && (rest == [] || !IsWs(rest[0]))
    ensures SkipWs(ws + rest) == rest
  {
    if ws == [] {
      assert ws + rest == rest;
    } else {
      assert (ws + rest)[1..] == ws[1..] + rest;
      SkipsWs(ws[1..], rest);
    }
  }

  lemma {:induction false} SkipsDigits(d: string, rest: string)
    requires AllDigits(d) && (rest == [] || !IsDigit(rest[0]))
    ensures SkipDigits(d + rest) == rest
  {
    if d == [] {
      assert d + rest == rest;
    } else {
      assert (d + rest)[1..] == d[1..] + rest;
      SkipsDigits(d[1..], rest);
    }
  }

  /** What may follow a number: nothing that could belong to it. */
  predicate EndsNumber(rest: string) {
    rest == [] || (!IsDigit(rest[0]) && rest[0] != '.' && rest[0] != 'e' && rest[0] != 'E')
  }

  lemma ExponentReads(v: Value, rest: string)
    requires v.Number? && IsWellFormed(v) && EndsNumber(rest)
    ensures SkipExponent(Exponent(v) + rest) == rest
  {
    if v.exponent == [] {
      assert [] + rest == rest;
    } else {
      var s := (['e'] + v.sign + v.exponent) + rest;
      assert s == ['e'] + v.sign + (v.exponent + rest);
      assert s[1 + |v.sign|..] == v.exponent + rest && s[1 + |v.sign|] == v.exponent[0];
      if v.sign != [] { assert s[1] == v.sign[0]; }
      SkipsDigits(v.exponent, rest);
    }
  }

  lemma FractionReads(v: Value, tail: string)
    requires v.Number? && IsWellFormed(v) && (tail == [] || (!IsDigit(tail[0]) && tail[0] != '.'))
    ensures SkipFraction(Fraction(v) + tail) == tail
  {
    if v.fraction == [] {
      assert [] + tail == tail;
    } else {
      var s := (['.'] + v.fraction) + tail;
      assert s[1..] == v.fraction + tail && s[1] == v.fraction[0];
      SkipsDigits(v.fraction, tail);
    }
  }

  lemma NumberReads(v: Value, rest: string)
    requires v.Number? && IsWellFormed(v) && EndsNumber(rest)
    ensures NumberEnd(PrintNumber(v) + rest) == Some(rest)
    ensures var c := (PrintNumber(v) + rest)[0]; IsDigit(c) || c == '-'
  {
    hide SkipDigits, SkipFraction, SkipExponent, NumberEnd, Fraction, Exponent, Minus;
    var tail := Exponent(v) + rest;
    Regroup4(Minus(v.minus), v.whole, Fraction(v), Exponent(v), rest);
    TailStarts(v, rest);
    WholeReads(v, Fraction(v) + tail);
    FractionReads(v, tail);
    ExponentReads(v, rest);
    NumberParts(v.minus, v.whole + (Fraction(v) + tail));
  }

  lemma Regroup4(a: string, b: string, c: string, d: string, e: string)
    ensures a + (b + (c + d)) + e == a + (b + (c + (d + e)))
  {
  }

  lemma TailStarts(v: Value, rest: string)
    requires v.Number? && EndsNumber(rest)
    ensures var tail := Exponent(v) + rest;
            && (tail == [] || (!IsDigit(tail[0]) && tail[0] != '.'))
            && (Fraction(v) + tail == [] || !IsDigit((Fraction(v) + tail)[0]))
  {
  }

  lemma WholeReads(v: Value, tail: string)
    requires v.Number? && IsWellFormed(v) && (tail == [] || !IsDigit(tail[0]))
    ensures var u := v.whole + tail;
            u != [] && IsDigit(u[0]) && tail == if u[0] == '0' then u[1..] else SkipDigits(u[1..])
  {
    var u := v.whole + tail;
    assert u[1..] == v.whole[1..] + tail && u[0] == v.whole[0];
    if v.whole[0] == '0' { assert v.whole[1..] == []; } else { SkipsDigits(v.whole[1..], tail); }
  }

  lemma NumberParts(minus: bool, u: string)
    requires u != [] && IsDigit(u[0])
    ensures var s := Minus(minus) + u;
            && NumberEnd(s) == Some(SkipExponent(SkipFraction(if u[0] == '0' then u[1..] else SkipDigits(u[1..]))))
            && (IsDigit(s[0]) || s[0] == '-')
  {
    hide SkipDigits, SkipFraction, SkipExponent;
    var s := Minus(minus) + u;
    if minus { assert s[1..] == u; } else { assert s == u; }
  }

  lemma {:induction false} StringReads(s: string, rest: string)
    ensures StringEnd(EscapedAll(s) + (['"'] + rest)) == Some(rest)
  {
    hide StringEnd, Escaped;
    var tail := ['"'] + rest;
    if s == [] {
      assert EscapedAll(s) + tail == tail;
      QuoteEnds(rest);
    } else {
      StringReads(s[1..], rest);
      var more := EscapedAll(s[1..]) + tail;
      assert EscapedAll(s) + tail == Escaped(s[0]) + more;
      EscapeReads(s[0], more);
    }
  }

  lemma QuoteEnds(rest: string)
    ensures StringEnd(['"'] + rest) == Some(rest)
  {
    assert (['"'] + rest)[1..] == rest;
  }

  lemma EscapeReads(c: char, more: string)
    ensures StringEnd(Escaped(c) + more) == StringEnd(more)
  {
    var s := Escaped(c) + more;
    assert s[|Escaped(c)|..] == more;
    assert forall i :: 0 <= i < |Escaped(c)| ==> s[i] == Escaped(c)[i];
    if c != '"' && c != '\\' && c < ' ' {
      HexIsHex(c as nat / 16);
      HexIsHex(c as nat % 16);
    }
  }

  lemma HexIsHex(d: nat)
    requires d < 16
    ensures IsHex(HexDigit(d))
  {
  }

  lemma QuotedReads(s: string, rest: string)
    ensures var t := Quoted(s) + rest; Starts(t, '"') && StringEnd(t[1..]) == Some(rest)
  {
    var t := Quoted(s) + rest;
    assert t[1..] == EscapedAll(s) + (['"'] + rest);
    StringReads(s, rest);
  }

  predicate Delimits(rest: string) { rest == [] || IsWs(rest[0]) || rest[0] == ',' || rest[0] == ']' || rest[0] == '}' }

  /** A printed value starts with no white space. */
  lemma StartsSolid(v: Value, ws: string, rest: string)
    requires IsWellFormed(v)
    ensures var t := Print(v, ws) + rest; t != [] && !IsWs(t[0]) && t[0] != ']' && t[0] != '}'
  {
    if v.Number? {
      assert PrintNumber(v) != [];
      assert (Print(v, ws) + rest)[0] == if v.minus then '-' else v.whole[0];
    }
  }

  lemma {:induction false} ValueReads(v: Value, ws: string, rest: string)
    requires IsWellFormed(v) && AllWs(ws) && Delimits(rest)
    ensures ValueEnd(Print(v, ws) + rest) == Some(rest)
    decreases v, 0
  {
    hide StringEnd, NumberEnd, SkipWs, MembersEnd, ElementsEnd, PrintItems, PrintMembers, PrintNumber, Quoted;
    var t := Print(v, ws) + rest;
    match v
    case Null => assert t[4..] == rest && t[..4] == "null";
    case Bool(b) => WordReads(b, rest);
    case Number(_, _, _, _, _) =>
      NumberReads(v, rest);
      NotAWord(t);
    case Text(s) => QuotedReads(s, rest);
    case List(items) =>
      var inner := if items == [] then [']'] else PrintItems(items, ws);
      assert t[1..] == ws + (inner + rest);
      if items == [] {
        SkipsWs(ws, inner + rest);
        assert (inner + rest)[1..] == rest;
      } else {
        ItemsStart(items, ws, rest);
        SkipsWs(ws, inner + rest);
        ItemsRead(items, ws, rest);
      }
    case Object(members) =>
      var inner := if members == [] then ['}'] else PrintMembers(members, ws);
      assert t[1..] == ws + (inner + rest);
      if members == [] {
        SkipsWs(ws, inner + rest);
        assert (inner + rest)[1..] == rest;
      } else {
        MembersStart(members, ws, rest);
        SkipsWs(ws, inner + rest);
        MembersRead(members, ws, rest);
      }
  }

  lemma WordReads(b: bool, rest: string)
    ensures ValueEnd((if b then "true" else "false") + rest) == Some(rest)
  {
    var t := (if b then "true" else "false") + rest;
    if b { assert t[4..] == rest && t[..4] == "true"; } else { assert t[5..] == rest && t[..5] == "false"; }
  }

  lemma NotAWord(t: string)
    requires t != [] && (IsDigit(t[0]) || t[0] == '-')
    ensures ValueEnd(t) == NumberEnd(t)
  {
    hide StringEnd, NumberEnd, SkipWs, MembersEnd, ElementsEnd;
    NoPrefix("true", t);
    NoPrefix("null", t);
    NoPrefix("false", t);
  }

  lemma NoPrefix(w: string, t: string)
    requires w != [] && t != [] && w[0] != t[0]
    ensures !(w <= t)
  {
  }

  lemma ItemsStart(items: seq<Value>, ws: string, rest: string)
    requires items != [] && IsWellFormed(items[0])
    ensures var t := PrintItems(items, ws) + rest; t != [] && !IsWs(t[0]) && t[0] != ']'
  {
    StartsSolid(items[0], ws, []);
    assert Print(items[0], ws) + [] == Print(items[0], ws);
  }

  lemma MembersStart(members: seq<Member>, ws: string, rest: string)
    requires members != []
    ensures var t := PrintMembers(members, ws) + rest; t != [] && t[0] == '"'
  {
  }

  lemma {:induction false} ItemsRead(items: seq<Value>, ws: string, rest: string)
    requires items != [] && (forall i :: 0 <= i < |items| ==> IsWellFormed(items[i])) && AllWs(ws)
    ensures ElementsEnd(PrintItems(items, ws) + rest) == Some(rest)
    decreases items, 1
  {
    hide ValueEnd, SkipWs, Print, IsWellFormed;
    var close := if |items| == 1 then [']'] else [','] + (ws + PrintItems(items[1..], ws));
    var after := ws + (close + rest);
    assert PrintItems(items, ws) + rest == Print(items[0], ws) + after;
    WsDelimits(ws, close + rest);
    ValueReads(items[0], ws, after);
    SkipsWs(ws, close + rest);
    if |items| == 1 {
      assert (close + rest)[1..] == rest;
    } else {
      var more := PrintItems(items[1..], ws) + rest;
      assert (close + rest)[1..] == ws + more;
      ItemsStart(items[1..], ws, rest);
      SkipsWs(ws, more);
      ItemsRead(items[1..], ws, rest);
    }
  }

  lemma WsDelimits(ws: string, rest: string)
    requires AllWs(ws) && Delimits(rest)
    ensures Delimits(ws + rest)
  {
  }

  lemma {:induction false} MembersRead(members: seq<Member>, ws: string, rest: string)
    requires members != [] && (forall i :: 0 <= i < |members| ==> IsWellFormed(members[i].value)) && AllWs(ws)
    ensures MembersEnd(PrintMembers(members, ws) + rest) == Some(rest)
    decreases members, 1
  {
    hide ValueEnd, SkipWs, Print, IsWellFormed, Quoted, StringEnd;
    var close := if |members| == 1 then ['}'] else [','] + (ws + PrintMembers(members[1..], ws));
    var after := ws + (close + rest);
    var value := Print(members[0].value, ws) + after;
    var colon := [':'] + (ws + value);
    assert PrintMembers(members, ws) + rest == Quoted(members[0].name) + (ws + colon);
    QuotedReads(members[0].name, ws + colon);
    SkipsWs(ws, colon);
    assert colon[1..] == ws + value;
    StartsSolid(members[0].value, ws, after);
    SkipsWs(ws, value);
    WsDelimits(ws, close + rest);
    ValueReads(members[0].value, ws, after);
    SkipsWs(ws, close + rest);
    if |members| == 1 {
      assert (close + rest)[1..] == rest;
    } else {
      var more := PrintMembers(members[1..], ws) + rest;
      assert (close + rest)[1..] == ws + more;
      MembersStart(members[1..], ws, rest);
      SkipsWs(ws, more);
      MembersRead(members[1..], ws, rest);
    }
  }

  /** Every value, however it is spaced out, has a text that parses, to an object exactly if it is one. */
  lemma PrintedIsJson(v: Value, ws: string)
    requires IsWellFormed(v) && AllWs(ws)
    ensures IsJson(ws + Print(v, ws) + ws) && (IsJsonObject(ws + Print(v, ws) + ws) <==> v.Object?)
  {
    hide ValueEnd, SkipWs, IsWellFormed;
    var t := Print(v, ws) + ws;
    assert ws + Print(v, ws) + ws == ws + t;
    StartsSolid(v, ws, ws);
    SkipsWs(ws, t);
    WsDelimits(ws, []);
    assert ws + [] == ws;
    ValueReads(v, ws, ws);
    SkipsWs(ws, []);
    FirstOfObject(v, ws, ws);
  }

  lemma FirstOfObject(v: Value, ws: string, rest: string)
    requires IsWellFormed(v)
    ensures Starts(Print(v, ws) + rest, '{') <==> v.Object?
  {
    if v.Number? { assert (Print(v, ws) + rest)[0] == if v.minus then '-' else v.whole[0]; }
  }

  // ---- Texts that were cut -----------------------------------------------------------------

  /** `t` is `s` with what a cut took: closing brackets only, before them the end of a string (a half
      escape given up), a null behind a colon, or nothing in place of a comma. */
  ghost predicate Completes(s: string, t: string, c: string) {
    && s != [] && Trim(s) == s && AllClosers(c)
    && var st := Scanned(Outside, s);
       if st.escaped then t == s[..|s| - 1] + "\"" + c
       else if st.inString then t == s + "\"" + c
       else if Ends(s, ':') then t == s + "null" + c
       else if Ends(s, ',') then
         var u := s[..|s| - 1];
         TrimEnd(u) == u && !Ends(u, ',') && !Ends(u, ':') && t == u + c
       else t == s + c
  }

  /** A text that was cut gets exactly that back, if it makes a JSON text. */
  lemma CutTextComesBack(s: string, t: string, c: string)
    requires Completes(s, t, c) && IsJson(t)
    ensures Closed(s) == t
  {
    hide Scanned, IsJson;
    EscapedIsInside(s);
    TrimmedEnd(s);
    BodyOfCut(s, t, c);
    CloseFindsCompletion(s, c);
  }

  lemma BodyOfCut(s: string, t: string, c: string)
    requires Completes(s, t, c) && TrimEnd(s) == s
    requires Scanned(Outside, s).escaped ==> Scanned(Outside, s).inString
    ensures t == Body(s) + c
  {
    hide Scanned, TrimEnd, Tidied, Trim;
    TidiedEnd(s);
    if !Scanned(Outside, s).inString && Ends(s, ',') { TidiedEnd(s[..|s| - 1]); }
  }

  lemma TidiedEnd(s: string)
    requires TrimEnd(s) == s
    ensures Tidied(s) == if Ends(s, ',') then Tidied(s[..|s| - 1]) else if Ends(s, ':') then s + "null" else s
  {
  }
}
