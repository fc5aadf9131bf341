/** Reading lines from a file in blocks, forwards and backwards (kaos local.ts). */
module Lines {
  import opened Bytes

  const LF: byte := 0x0A

  /** How many newlines there are. */
  function Lfs(s: bytes): nat { if s == [] then 0 else (if s[0] == LF then 1 else 0) + Lfs(s[1..]) }

  /** The length of the first line, its newline included. */
  function LineLen(s: bytes): (n: nat)
    ensures n <= |s| && (s != [] ==> n > 0)
    ensures forall i :: 0 <= i < n - 1 ==> s[i] != LF
    ensures 0 < n < |s| ==> s[n - 1] == LF
  {
    if s == [] then 0 else if s[0] == LF then 1 else 1 + LineLen(s[1..])
  }

  /** The lines of a text, each with its newline; the last one may have none. */
  function LinesOf(s: bytes): seq<bytes> { if s == [] then [] else [s[..LineLen(s)]] + LinesOf(s[LineLen(s)..]) }

  predicate EndsLine(s: bytes) { s == [] || s[|s| - 1] == LF }

  // ---- Facts about lines -------------------------------------------------------------------------

  lemma {:induction false} LfsAppend(a: bytes, b: bytes)
    ensures Lfs(a + b) == Lfs(a) + Lfs(b)
  {
    if a == [] {
      assert a + b == b;
    } else {
      assert (a + b)[1..] == a[1..] + b;
      LfsAppend(a[1..], b);
    }
  }

  lemma {:induction false} NoLfs(s: bytes)
    ensures Lfs(s) == 0 <==> forall i :: 0 <= i < |s| ==> s[i] != LF
  {
    if s != [] {
      NoLfs(s[1..]);
      if forall i :: 0 <= i < |s[1..]| ==> s[1..][i] != LF {
        forall i | 1 <= i < |s| ensures s[i] != LF { assert s[i] == s[1..][i - 1]; }
      }
      if forall i :: 0 <= i < |s| ==> s[i] != LF { assert forall i :: 0 <= i < |s[1..]| ==> s[1..][i] == s[i + 1]; }
    }
  }

  /** The first line ends at the first newline. */
  lemma {:induction false} LineLenAt(s: bytes, n: nat)
    requires n < |s| && s[n] == LF && forall i :: 0 <= i < n ==> s[i] != LF
    ensures LineLen(s) == n + 1
  {
    if n > 0 {
      assert forall i :: 0 <= i < n - 1 ==> s[1..][i] == s[i + 1];
      LineLenAt(s[1..], n - 1);
    }
  }

  lemma {:induction false} LineLenAll(s: bytes)
    requires forall i :: 0 <= i < |s| ==> s[i] != LF
    ensures LineLen(s) == |s|
  {
    if s != [] {
      assert forall i :: 0 <= i < |s[1..]| ==> s[1..][i] == s[i + 1];
      LineLenAll(s[1..]);
    }
  }

  /** Text that ends with a newline does not run into what follows. */
  lemma {:induction false} LinesAppend(a: bytes, b: bytes)
    requires EndsLine(a)
    ensures LinesOf(a + b) == LinesOf(a) + LinesOf(b)
    decreases |a|
  {
    hide LineLen, LinesOf;
    NothingThere();
    if a == [] {
      assert a + b == b && [] + LinesOf(b) == LinesOf(b);
    } else {
      var n := LineLen(a);
      assert a[n - 1] == LF;
      assert forall i :: 0 <= i < n - 1 ==> (a + b)[i] == a[i];
      LineLenAt(a + b, n - 1);
      assert (a + b)[..n] == a[..n] && (a + b)[n..] == a[n..] + b;
      FirstLine(a);
      FirstLine(a + b);
      LinesAppend(a[n..], b);
      Regroup([a[..n]], LinesOf(a[n..]), LinesOf(b));
    }
  }

  lemma FirstLine(s: bytes)
    requires s != []
    ensures LinesOf(s) == [s[..LineLen(s)]] + LinesOf(s[LineLen(s)..])
  {
    hide LineLen;
  }

  lemma Regroup<T>(a: seq<T>, b: seq<T>, c: seq<T>)
    ensures a + (b + c) == (a + b) + c
  {
  }

  /** As many lines as newlines, and one more for an unfinished one. */
  lemma {:induction false} LineCount(s: bytes)
    ensures |LinesOf(s)| == Lfs(s) + if EndsLine(s) then 0 else 1
    decreases |s|
  {
    hide LineLen;
    if s != [] {
      var n := LineLen(s);
      var init, last := s[..n - 1], s[n - 1..n];
      assert s == init + (last + s[n..]) && last == [s[n - 1]];
      LfsAppend(init, last + s[n..]);
      LfsAppend(last, s[n..]);
      NoLfs(init);
      assert Lfs(last) == (if s[n - 1] == LF then 1 else 0) by { assert last[1..] == []; }
      LineCount(s[n..]);
    }
  }

  function LastOf<T>(s: seq<T>, n: nat): seq<T> { if n < |s| then s[|s| - n..] else s }

  // ---- The last lines ----------------------------------------------------------------------------

  /** Where the text behind the `need`-th newline from the end begins. */
  ghost predicate IsTailStart(data: bytes, need: nat, start: nat) {
    start <= |data| &&
      if Lfs(data) < need then start == 0 else start > 0 && data[start - 1] == LF && Lfs(data[start - 1..]) == need
  }

  lemma TailHasLastLines(data: bytes, count: nat, start: nat)
    requires count > 0 && data != []
    requires IsTailStart(data, if data[|data| - 1] == LF then count + 1 else count, start)
    ensures LinesOf(data[start..]) == LastOf(LinesOf(data), count)
  {
    hide LinesOf, EndsLine, Lfs;
    LineCount(data);
    EndOf(data);
    if start == 0 {
      assert data[0..] == data;
    } else {
      var head, tail := data[..start], data[start..];
      assert data == head + tail;
      assert tail != [] ==> tail[|tail| - 1] == data[|data| - 1];
      EndOf(head);
      EndOf(tail);
      LinesAppend(head, tail);
      LineCount(tail);
      LfsStep(data, start - 1);
      assert |LinesOf(tail)| == count;
    }
  }

  lemma EndOf(s: bytes)
    ensures EndsLine(s) <==> s == [] || s[|s| - 1] == LF
  {
  }

  /** splitLinesKeepingTerminator. */
  method SplitLines(text: bytes) returns (lines: seq<bytes>)
    ensures lines == LinesOf(text)
  {
    hide LinesOf, LineLen;
    lines := [];
    var start := 0;
    assert text[0..] == text;
    for i := 0 to |text|
      invariant 0 <= start <= i && LinesOf(text) == lines + LinesOf(text[start..])
      invariant forall j :: start <= j < i ==> text[j] != LF
    {
      if text[i] == LF {
        TakeLine(text, start, i);
        Regroup(lines, [text[start..i + 1]], LinesOf(text[i + 1..]));
        lines := lines + [text[start..i + 1]];
        start := i + 1;
      }
    }
    LastLine(text[start..]);
    if start < |text| {
      lines := lines + [text[start..]];
    } else {
      assert lines + [] == lines;
    }
  }

  lemma TakeLine(text: bytes, start: nat, i: nat)
    requires start <= i < |text| && text[i] == LF && forall j :: start <= j < i ==> text[j] != LF
    ensures LinesOf(text[start..]) == [text[start..i + 1]] + LinesOf(text[i + 1..])
  {
    hide LineLen, LinesOf;
    var rest := text[start..];
    LineLenAt(rest, i - start);
    FirstLine(rest);
    assert rest[..i - start + 1] == text[start..i + 1] && rest[i - start + 1..] == text[i + 1..];
  }

  lemma LastLine(s: bytes)
    requires forall j :: 0 <= j < |s| ==> s[j] != LF
    ensures LinesOf(s) == if s == [] then [] else [s]
  {
    hide LineLen;
    LineLenAll(s);
    if s != [] { assert s[..|s|] == s && s[|s|..] == []; }
  }

  lemma LfsStep(data: bytes, i: nat)
    requires i < |data|
    ensures Lfs(data[i..]) == (if data[i] == LF then 1 else 0) + Lfs(data[i + 1..])
  {
    assert data[i..][1..] == data[i + 1..];
  }

  /** One block, read backwards. */
  method ScanBlock(data: bytes, pos: nat, readSize: nat, needLf: nat, found: nat) returns (foundLf: nat,
      startOffset: nat)
    requires pos + readSize <= |data| && found == Lfs(data[pos + readSize..]) < needLf
    ensures foundLf <= needLf
    ensures foundLf < needLf ==> foundLf == Lfs(data[pos..])
    ensures foundLf == needLf ==>
      pos < startOffset <= |data| && data[startOffset - 1] == LF && Lfs(data[startOffset - 1..]) == needLf
  {
    hide Lfs;
    var buf := data[pos..pos + readSize];
    foundLf, startOffset := found, 0;
    var i := readSize;
    while i > 0
      invariant 0 <= i <= readSize && foundLf == Lfs(data[pos + i..]) < needLf
    {
      i := i - 1;
      LfsStep(data, pos + i);
      if buf[i] != LF { continue; }
      foundLf := foundLf + 1;
      if foundLf == needLf {
        startOffset := pos + i + 1;
        return;
      }
    }
  }

  /** readTailLines: exactly the last lines, for any block size. */
  method ReadTailLines(data: bytes, tailCount: int, blockSize: nat) returns (lines: seq<bytes>)
    requires blockSize > 0
    ensures lines == if tailCount <= 0 then [] else LastOf(LinesOf(data), tailCount)
  {
    hide LinesOf, Lfs;
    if tailCount <= 0 { return []; }
    NothingThere();
    if |data| == 0 { return []; }
    var pos, foundLf, startOffset, needLf, sawTailBlock := |data|, 0, 0, tailCount, false;
    ghost var need: nat := if data[|data| - 1] == LF then tailCount + 1 else tailCount;
    assert data[pos..] == [];
    while pos > 0 && foundLf < needLf
      invariant 0 <= pos <= |data| && 0 <= foundLf <= needLf
      invariant if sawTailBlock then needLf == need else pos == |data| && needLf == tailCount && foundLf == 0
      invariant foundLf < needLf ==> foundLf == Lfs(data[pos..])
      invariant foundLf == needLf ==>
        0 < startOffset <= |data| && data[startOffset - 1] == LF && Lfs(data[startOffset - 1..]) == needLf
      decreases pos
    {
      var readSize := if blockSize < pos then blockSize else pos;
      pos := pos - readSize;
      var buf := data[pos..pos + readSize];
      if !sawTailBlock {
        sawTailBlock := true;
        var endsWithNewline := buf[readSize - 1] == LF;
        needLf := if endsWithNewline then tailCount + 1 else tailCount;
      }
      foundLf, startOffset := ScanBlock(data, pos, readSize, needLf, foundLf);
    }
    if foundLf < needLf { startOffset := 0; }
    assert pos == 0 ==> data[pos..] == data;
    if foundLf == needLf { EnoughLfs(data, startOffset - 1); }
    TailHasLastLines(data, tailCount, startOffset);
    lines := SplitLines(data[startOffset..]);
  }

  lemma NothingThere()
    ensures LinesOf([]) == [] && Lfs([]) == 0
  {
  }

  lemma EnoughLfs(data: bytes, p: nat)
    requires p < |data|
    ensures Lfs(data) >= Lfs(data[p..])
  {
    LfsAppend(data[..p], data[p..]);
    assert data[..p] + data[p..] == data;
  }

  // ---- Lines from the front ----------------------------------------------------------------------

  /** The lines from number `first` on, at most `max`, each with whether it is not the first of the file. */
  function Window(lines: seq<bytes>, first: nat, max: nat): seq<(bytes, bool)> {
    if first >= |lines| then []
    else seq(if |lines| - first < max then |lines| - first else max,
             i requires 0 <= i < |lines| - first => (lines[first + i], first + i > 0))
  }

  lemma WindowMore(lines: seq<bytes>, line: bytes, first: nat, max: nat)
    ensures |Window(lines, first, max)| < max && first <= |lines| ==>
      Window(lines + [line], first, max) == Window(lines, first, max) + [(line, |lines| > 0)]
    ensures first > |lines| ==> Window(lines + [line], first, max) == Window(lines, first, max) == []
  {
  }

  lemma WindowFull(lines: seq<bytes>, more: seq<bytes>, first: nat, max: nat)
    requires |Window(lines, first, max)| >= max
    ensures Window(lines + more, first, max) == Window(lines, first, max)
  {
    var a, b := Window(lines, first, max), Window(lines + more, first, max);
    assert |a| == |b| == max;
    assert a == b;
  }

  /** Where the reader stands: the lines done make up the data before `start`, and no newline has been seen
      since. */
  ghost predicate Standing(data: bytes, done: seq<bytes>, start: nat, pos: nat) {
    && start <= pos <= |data|
    && LinesOf(data) == done + LinesOf(data[start..])
    && (start > 0 <==> done != [])
    && forall j :: start <= j < pos ==> data[j] != LF
  }

  lemma StandsAtFront(data: bytes)
    ensures Standing(data, [], 0, 0)
  {
    assert data[0..] == data && [] + LinesOf(data) == LinesOf(data);
  }

  lemma StandsBehindLine(data: bytes, done: seq<bytes>, start: nat, pos: nat)
    requires Standing(data, done, start, pos) && pos < |data| && data[pos] == LF
    ensures Standing(data, done + [data[start..pos + 1]], pos + 1, pos + 1)
  {
    hide LinesOf;
    TakeLine(data, start, pos);
    Regroup(done, [data[start..pos + 1]], LinesOf(data[pos + 1..]));
  }

  lemma StandsAtEnd(data: bytes, done: seq<bytes>, start: nat)
    requires Standing(data, done, start, |data|)
    ensures LinesOf(data) == done + if start < |data| then [data[start..]] else []
  {
    hide LinesOf;
    LastLine(data[start..]);
  }

  /** The lines of one chunk: what _readUtf8Lines does with a read. `pending` holds the pieces of a line
      begun in earlier chunks. */
  class LineReader {
    var pending: seq<bytes>
    var pendingOffset: nat
    var fileOffset: nat
    var lineNo: nat
    var out: seq<(bytes, bool)>

    ghost predicate Valid(data: bytes, done: seq<bytes>, start: nat, first: nat, max: nat)
      reads this
    {
      && max > 0
      && Standing(data, done, start, fileOffset)
      && lineNo == |done| + 1
      && Flat(pending) == data[start..fileOffset]
      && (pending == [] <==> start == fileOffset)
      && (pending != [] ==> pendingOffset == start)
      && out == Window(done, first, max)
    }

    constructor (ghost data: bytes, ghost first: nat, ghost max: nat)
      requires max > 0
      ensures Valid(data, [], 0, first, max) && fileOffset == 0 && out == []
    {
      pending, pendingOffset, fileOffset, lineNo, out := [], 0, 0, 1, [];
      new;
      StandsAtFront(data);
    }

    /** One line is complete at `i`. */
    method Yield(line: bytes, lineOffset: nat, startLine: int, limit: nat, ghost done: seq<bytes>, ghost first: nat,
        ghost max: nat)
        returns (full: bool)
      requires lineNo == |done| + 1 && out == Window(done, first, max) && |out| < max
        && (lineOffset > 0 <==> done != [])
      requires first == (if startLine < 1 then 0 else startLine - 1) && max == (if limit == 0 then 1 else limit)
      modifies `out
      ensures out == Window(done + [line], first, max) && (full <==> |out| >= max)
    {
      WindowMore(done, line, first, max);
      full := false;
      if lineNo >= startLine {
        out := out + [(line, lineOffset != 0)];
        full := |out| >= limit;
      }
    }

    /** A newline ends the pending pieces and this one. */
    method EndLine(piece: bytes, at: nat, startLine: int, limit: nat, ghost data: bytes, ghost done: seq<bytes>,
        ghost start: nat, ghost pos: nat, ghost first: nat, ghost max: nat)
        returns (full: bool, ghost line: bytes)
      requires Standing(data, done, start, pos) && pos < |data| && data[pos] == LF
        && Flat(pending) + piece == data[start..pos + 1]
      requires if pending == [] then start == at else start == pendingOffset
      requires lineNo == |done| + 1 && out == Window(done, first, max) && |out| < max
      requires first == (if startLine < 1 then 0 else startLine - 1) && max == (if limit == 0 then 1 else limit)
      modifies `out, `pending, `lineNo
      ensures pending == [] && lineNo == |done| + 2 && Standing(data, done + [line], pos + 1, pos + 1)
      ensures out == Window(done + [line], first, max) && (full <==> |out| >= max)
      ensures full ==> out == Window(LinesOf(data), first, max)
    {
      hide LinesOf, Standing, Window, Flat;
      var lineOffset := if |pending| == 0 then at else pendingOffset;
      var text := if |pending| == 0 then piece else Flat(pending) + piece;
      NoPieces();
      assert [] + piece == piece;
      line := text;
      StandingFacts(data, done, start, pos);
      StandsBehindLine(data, done, start, pos);
      full := Yield(text, lineOffset, startLine, limit, done, first, max);
      StandingFacts(data, done + [line], pos + 1, pos + 1);
      if full { WindowFull(done + [line], LinesOf(data[pos + 1..]), first, max); }
      pending := [];
      lineNo := lineNo + 1;
    }

    /** The rest of a chunk waits for its newline. */
    method Keep(tail: bytes, at: nat)
      modifies `pending, `pendingOffset
      ensures Flat(pending) == Flat(old(pending)) + tail
      ensures pending == [] <==> old(pending) == [] && tail == []
      ensures pending != [] ==> pendingOffset == if old(pending) == [] then at else old(pendingOffset)
    {
      hide Flat;
      FlatOneMore(pending, tail);
      assert Flat(pending) + [] == Flat(pending);
      if |tail| > 0 {
        if |pending| == 0 { pendingOffset := at; }
        pending := pending + [tail];
      }
    }

    method Feed(chunk: bytes, startLine: int, limit: nat, ghost data: bytes, ghost done: seq<bytes>, ghost start: nat,
        ghost first: nat, ghost max: nat)
        returns (full: bool, ghost done': seq<bytes>, ghost start': nat)
      requires Valid(data, done, start, first, max) && |out| < max
      requires fileOffset + |chunk| <= |data| && chunk == data[fileOffset..fileOffset + |chunk|]
      requires first == (if startLine < 1 then 0 else startLine - 1) && max == (if limit == 0 then 1 else limit)
      modifies this
      ensures !full ==> Valid(data, done', start', first, max) && |out| < max && fileOffset == old(fileOffset) + |chunk|
      ensures full ==> out == Window(LinesOf(data), first, max)
    {
      hide LinesOf, Standing, Window, Flat;
      var lineStart, base := 0, fileOffset;
      done', start', full := done, start, false;
      StandingFacts(data, done, start, base);
      for i := 0 to |chunk|
        invariant fileOffset == base && lineNo == |done'| + 1 && out == Window(done', first, max) && |out| < max
        invariant Standing(data, done', start', base + i) && start' <= base + i <= |data|
        invariant 0 <= lineStart <= i && Flat(pending) + chunk[lineStart..i] == data[start'..base + i]
        invariant if pending == [] then start' == base + lineStart else lineStart == 0 && pendingOffset == start' < base
      {
        MoreOfLine(data, start', base, chunk, lineStart, i, Flat(pending));
        if chunk[i] != LF {
          StandsFurther(data, done', start', base + i);
          continue;
        }
        ghost var line;
        full, line := EndLine(chunk[lineStart..i + 1], base + lineStart, startLine, limit, data, done', start',
          base + i, first, max);
        if full { return; }
        done', start', lineStart := done' + [line], base + i + 1, i + 1;
        NoPieces();
        NoLine(data, start', chunk, lineStart);
      }
      assert chunk[lineStart..|chunk|] == chunk[lineStart..];
      EndChunk(chunk[lineStart..], base + lineStart, |chunk|, data, done', start', first, max);
    }

    method EndChunk(tail: bytes, at: nat, length: nat, ghost data: bytes, ghost done: seq<bytes>, ghost start: nat,
        ghost first: nat, ghost max: nat)
      requires Standing(data, done, start, fileOffset + length) && start <= fileOffset + length <= |data|
      requires lineNo == |done| + 1 && out == Window(done, first, max) && max > 0
      requires Flat(pending) + tail == data[start..fileOffset + length] && |tail| <= length
      requires at == fileOffset + length - |tail|
      requires if pending == [] then start == at else pendingOffset == start < fileOffset
      modifies `pending, `pendingOffset, `fileOffset
      ensures Valid(data, done, start, first, max) && fileOffset == old(fileOffset) + length
    {
      hide Standing, Window, Flat;
      Keep(tail, at);
      fileOffset := fileOffset + length;
    }

    /** What is pending at the end of the file is the last line. */
    method Finish(startLine: int, ghost data: bytes, ghost done: seq<bytes>, ghost start: nat, ghost first: nat,
        ghost max: nat)
      requires Valid(data, done, start, first, max) && |out| < max && fileOffset == |data|
      requires first == (if startLine < 1 then 0 else startLine - 1)
      modifies `out
      ensures out == Window(LinesOf(data), first, max)
    {
      hide LinesOf, Flat, Window;
      StandsAtEnd(data, done, start);
      NoPieces();
      assert data[start..|data|] == data[start..];
      if |pending| > 0 {
        var line := Flat(pending);
        WindowMore(done, line, first, max);
        if lineNo >= startLine { out := out + [(line, pendingOffset != 0)]; }
      } else {
        assert done + [] == done;
      }
    }
  }

  lemma NoPieces()
    ensures Flat([]) == []
  {
  }

  lemma FlatOneMore(parts: seq<bytes>, part: bytes)
    ensures Flat(parts + [part]) == Flat(parts) + part
  {
    FlatAppend(parts, [part]);
    OnePiece(part);
  }

  lemma StandingFacts(data: bytes, done: seq<bytes>, start: nat, pos: nat)
    requires Standing(data, done, start, pos)
    ensures start <= pos <= |data| && (start > 0 <==> done != []) && LinesOf(data) == done + LinesOf(data[start..])
  {
  }

  lemma StandsFurther(data: bytes, done: seq<bytes>, start: nat, pos: nat)
    requires Standing(data, done, start, pos) && pos < |data| && data[pos] != LF
    ensures Standing(data, done, start, pos + 1)
  {
  }

  lemma MoreOfLine(data: bytes, start: nat, base: nat, chunk: bytes, lineStart: nat, i: nat, pending: bytes)
    requires start <= base + i < |data| && lineStart <= i < |chunk| && base + |chunk| <= |data|
      && chunk == data[base..base + |chunk|]
    requires pending + chunk[lineStart..i] == data[start..base + i]
    ensures chunk[i] == data[base + i] && pending + chunk[lineStart..i + 1] == data[start..base + i + 1]
  {
    assert pending + chunk[lineStart..i + 1] == (pending + chunk[lineStart..i]) + [chunk[i]];
  }

  lemma NoLine(data: bytes, start: nat, chunk: bytes, i: nat)
    requires start <= |data| && i <= |chunk|
    ensures data[start..start] == [] == chunk[i..i]
  {
  }

  /** _readUtf8Lines: for any way the reads cut the file, the wanted lines, each with its place. A limit of
      zero yields what a limit of one does. */
  method ReadLines(data: bytes, cuts: seq<nat>, startLine: int, limit: nat) returns (lines: seq<(bytes, bool)>)
    ensures lines == Window(LinesOf(data), if startLine < 1 then 0 else startLine - 1, if limit == 0 then 1 else limit)
  {
    hide LinesOf, Window, Standing, Flat;
    ghost var first, max := if startLine < 1 then 0 else startLine - 1, if limit == 0 then 1 else limit;
    var r := new LineReader(data, first, max);
    ghost var done, start := [], 0;
    var k := 0;
    while r.fileOffset < |data|
      invariant r.Valid(data, done, start, first, max) && |r.out| < max && r.fileOffset <= |data| && fresh(r)
      decreases |data| - r.fileOffset
    {
      var left := |data| - r.fileOffset;
      var bytesRead := if k < |cuts| && 0 < cuts[k] < left then cuts[k] else left;
      var full;
      full, done,
        start := r.Feed(data[r.fileOffset..r.fileOffset + bytesRead], startLine, limit, data, done, start, first, max);
      if full { return r.out; }
      k := k + 1;
    }
    r.Finish(startLine, data, done, start, first, max);
    lines := r.out;
  }

  // ---- What lines are ----------------------------------------------------------------------------

  /** None is empty, and a newline stands at the end of each but perhaps the last, and nowhere else. */
  ghost predicate AreLines(lines: seq<bytes>) {
    && (forall i :: 0 <= i < |lines| ==> lines[i] != [] && Lfs(lines[i][..|lines[i]| - 1]) == 0)
    && (forall i :: 0 <= i < |lines| - 1 ==> lines[i][|lines[i]| - 1] == LF)
  }

  lemma LineInFront(line: bytes, lines: seq<bytes>)
    requires AreLines(lines) && line != [] && Lfs(line[..|line| - 1]) == 0
    requires lines == [] || line[|line| - 1] == LF
    ensures AreLines([line] + lines)
  {
    hide Lfs;
    var all := [line] + lines;
    forall i | 0 <= i < |all| ensures all[i] != [] && Lfs(all[i][..|all[i]| - 1]) == 0 {
      assert i > 0 ==> all[i] == lines[i - 1];
    }
    forall i | 0 <= i < |all| - 1 ensures all[i][|all[i]| - 1] == LF { assert i > 0 ==> all[i] == lines[i - 1]; }
  }

  /** What the lines are: put together they are the text, none is empty, and a newline stands at the end of
      each but perhaps the last, and nowhere else. */
  lemma {:induction false} LinesAre(s: bytes)
    ensures Flat(LinesOf(s)) == s && AreLines(LinesOf(s))
  {
    hide LineLen, LinesOf, AreLines, Lfs;
    NothingThere();
    NoPieces();
    if s == [] {
      assert AreLines([]) by { NoLines(); }
    } else {
      var n := LineLen(s);
      FirstLine(s);
      LinesAre(s[n..]);
      NoLfs(s[..n - 1]);
      assert s[..n][..n - 1] == s[..n - 1] && s == s[..n] + s[n..];
      assert n == |s| ==> s[n..] == [];
      LineInFront(s[..n], LinesOf(s[n..]));
      FlatAppend([s[..n]], LinesOf(s[n..]));
      OnePiece(s[..n]);
    }
  }

  lemma NoLines()
    ensures AreLines([])
  {
  }

  lemma OnePiece(part: bytes)
    ensures Flat([part]) == part
  {
    assert [part][1..] == [] && Flat([part]) == part + [];
  }
}
