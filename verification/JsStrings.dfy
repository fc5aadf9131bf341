/** The little of JavaScript's strings that the message layer uses. */
module JsStrings {

  /** What trim() removes. */
  predicate IsSpace(c: char) {
    var n := c as int;
    || 9 <= n <= 13 || n == 0x20 || n == 0xA0 || n == 0x1680 || 0x2000 <= n <= 0x200A || n == 0x2028 || n == 0x2029
    || n == 0x202F || n == 0x205F || n == 0x3000 || n == 0xFEFF
  }

  function TrimEnd(s: string): (t: string)
    ensures |t| <= |s| && s[..|t|] == t && (t != [] ==> !IsSpace(t[|t| - 1]))
    ensures forall i :: |t| <= i < |s| ==> IsSpace(s[i])
  {
    if s != [] && IsSpace(s[|s| - 1]) then TrimEnd(s[..|s| - 1]) else s
  }

  function TrimStart(s: string): (t: string)
    ensures |t| <= |s| && s[|s| - |t|..] == t && (t != [] ==> !IsSpace(t[0]))
  {
    if s != [] && IsSpace(s[0]) then TrimStart(s[1..]) else s
  }

  function Trim(s: string): string { TrimEnd(TrimStart(s)) }

  predicate IsBlank(s: string) { forall i :: 0 <= i < |s| ==> IsSpace(s[i]) }

  /** `trim().length === 0`. */
  lemma {:induction false} BlankIsTrimmedEmpty(s: string)
    ensures Trim(s) == [] <==> IsBlank(s)
  {
    if IsBlank(s) {
      BlankTrimStart(s);
    } else {
      var i :| 0 <= i < |s| && !IsSpace(s[i]);
      KeptByTrimStart(s, i);
    }
  }

  lemma {:induction false} BlankTrimStart(s: string)
    requires IsBlank(s)
    ensures TrimStart(s) == []
  {
    if s != [] { BlankTrimStart(s[1..]); }
  }

  lemma {:induction false} KeptByTrimStart(s: string, i: nat)
    requires i < |s| && !IsSpace(s[i])
    ensures TrimStart(s) != []
  {
    if IsSpace(s[0]) { KeptByTrimStart(s[1..], i - 1); }
  }
}
