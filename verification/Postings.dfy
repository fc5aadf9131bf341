/** On-disk postings (text-postings.ts): varints, delta-coded posting lists, checksummed records, and
    the file that holds one record per term. */
module Postings {
  import opened Bytes
  import Crc32

  const TWO_32 := 0x1_0000_0000
  const HEADER_LEN := 10
  const CRC_LEN := 4

  // ---- Varints -------------------------------------------------------------------------------

  function Varint(n: nat): (s: bytes)
    ensures s != []
    decreases n
  {
    if n < 128 then [n] else [n % 128 + 128] + Varint(n / 128)
  }

  /** encodeVarintInto. */
  method EncodeVarint(n: nat, out: bytes) returns (out': bytes)
    requires n < TWO_32
    ensures out' == out + Varint(n)
  {
    out' := out;
    var rest := n;
    while rest >= 128
      invariant out' + Varint(rest) == out + Varint(n)
    {
      assert out' + ([rest % 128 + 128] + Varint(rest / 128)) == out' + [rest % 128 + 128] + Varint(rest / 128);
      out' := out' + [rest % 128 + 128];
      rest := rest / 128;
    }
    out' := out' + [rest];
  }

  datatype Num = Num(value: nat, len: nat)

  /** The number at the front of a buffer and its length: None when it is cut off, or has more than
      five bytes. */
  function ReadVarint(s: bytes, more: nat): Option<Num>
    decreases more
  {
    if s == [] || more == 0 then None
    else if s[0] < 128 then Some(Num(s[0], 1))
    else
      match ReadVarint(s[1..], more - 1)
      case None => None
      case Some(r) => Some(Num(s[0] - 128 + 128 * r.value, r.len + 1))
  }

  lemma {:induction false} ReadVarintFits(s: bytes, more: nat)
    ensures ReadVarint(s, more).Some? ==> 1 <= ReadVarint(s, more).value.len <= |s|
    decreases more
  {
    if s != [] && more > 0 { ReadVarintFits(s[1..], more - 1); }
  }

  function Pow128(k: nat): (p: nat)
    ensures p > 0
    decreases k, 0
  {
    if k == 0 then 1 else 128 * Pow128(k - 1)
  }

  /** A number below 128 to the k reads back from its k bytes at most, whatever follows. */
  lemma {:induction false} VarintRoundTrip(n: nat, rest: bytes, k: nat)
    requires n < Pow128(k) && k > 0
    ensures ReadVarint(Varint(n) + rest, k) == Some(Num(n, |Varint(n)|))
    decreases k
  {
    var s := Varint(n) + rest;
    if n >= 128 {
      assert Pow128(k) == 128 * Pow128(k - 1);
      VarintRoundTrip(n / 128, rest, k - 1);
      assert s[1..] == Varint(n / 128) + rest;
    }
  }

  const VARINT_BYTES := 5

  lemma FiveBytesAreEnough()
    ensures Pow128(VARINT_BYTES) >= TWO_32
  {
    assert Pow128(1) == 128;
    assert Pow128(2) == 0x4000;
    assert Pow128(3) == 0x20_0000;
    assert Pow128(4) == 0x1000_0000;
  }

  /** The unsigned 32-bit number at the front of a buffer. */
  function ReadUint(s: bytes): (r: Option<Num>)
    ensures r.Some? ==> 1 <= r.value.len <= |s|
  {
    ReadVarintFits(s, VARINT_BYTES);
    match ReadVarint(s, VARINT_BYTES)
    case None => None
    case Some(r) => Some(Num(r.value % TWO_32, r.len))
  }

  /** Every unsigned 32-bit number. */
  lemma Uint32RoundTrip(n: nat, rest: bytes)
    requires n < TWO_32
    ensures ReadUint(Varint(n) + rest) == Some(Num(n, |Varint(n)|))
  {
    FiveBytesAreEnough();
    VarintRoundTrip(n, rest, VARINT_BYTES);
  }

  function WithDigit(value: nat, unit: nat, digit: nat): nat { value + unit * digit }

  /** decodeVarint: seven bits a turn, from the least significant. */
  method DecodeVarint(s: bytes, at: nat) returns (r: Option<Num>)
    requires at <= |s|
    ensures r == ReadUint(s[at..])
  {
    hide Continued, ReadVarint, WithDigit;
    var value: nat, unit: nat, i := 0, 1, at;
    ContinueNone(ReadVarint(s[at..], VARINT_BYTES));
    while i < |s| && i - at < VARINT_BYTES
      invariant at <= i <= |s| && i - at <= VARINT_BYTES
      invariant ReadVarint(s[at..], VARINT_BYTES)
        == Continued(value, unit, i - at, ReadVarint(s[i..], VARINT_BYTES - (i - at)))
    {
      var b: nat := s[i];
      ContinueOne(value, unit, i - at, s[i..], VARINT_BYTES - (i - at));
      assert s[i..][1..] == s[i + 1..];
      if b < 128 { return Some(Num(WithDigit(value, unit, b) % TWO_32, i + 1 - at)); }
      value := WithDigit(value, unit, b - 128);
      unit := unit * 128;
      i := i + 1;
    }
    ReadNothing(value, unit, i - at, s[i..], VARINT_BYTES - (i - at));
    r := None;
  }

  /** The number whose low digits were already read. */
  function Continued(value: nat, unit: nat, len: nat, rest: Option<Num>): Option<Num> {
    match rest case None => None case Some(r) => Some(Num(value + unit * r.value, len + r.len))
  }

  lemma ContinueNone(r: Option<Num>)
    ensures Continued(0, 1, 0, r) == r
  {
  }

  lemma ReadNothing(value: nat, unit: nat, len: nat, s: bytes, more: nat)
    requires s == [] || more == 0
    ensures Continued(value, unit, len, ReadVarint(s, more)) == None
  {
  }

  lemma ContinueOne(value: nat, unit: nat, len: nat, s: bytes, more: nat)
    requires s != [] && more > 0
    ensures s[0] < 128 ==>
      Continued(value, unit, len, ReadVarint(s, more)) == Some(Num(WithDigit(value, unit, s[0]), len + 1))
    ensures s[0] >= 128 ==>
      Continued(value, unit, len, ReadVarint(s, more))
      == Continued(WithDigit(value, unit, s[0] - 128), unit * 128, len + 1, ReadVarint(s[1..], more - 1))
  {
    if s[0] >= 128 && ReadVarint(s[1..], more - 1).Some? {
      Spread(unit, s[0] - 128, ReadVarint(s[1..], more - 1).value.value);
    }
  }

  lemma Spread(unit: nat, low: nat, high: nat)
    ensures unit * (low + 128 * high) == unit * low + (unit * 128) * high
  {
    assert unit * (128 * high) == (unit * 128) * high;
  }

  // ---- Posting lists -------------------------------------------------------------------------

  datatype Posting = Posting(docId: nat, freq: nat)

  /** Ascending ids from `prev` on, every number within 32 bits. */
  predicate Encodable(ps: seq<Posting>, prev: nat)
    decreases ps
  {
    ps == [] || (prev <= ps[0].docId < TWO_32 && ps[0].freq < TWO_32 && Encodable(ps[1..], ps[0].docId))
  }

  function Pairs(ps: seq<Posting>, prev: nat): bytes
    requires Encodable(ps, prev)
    decreases ps
  {
    if ps == [] then [] else Varint(ps[0].docId - prev) + Varint(ps[0].freq) + Pairs(ps[1..], ps[0].docId)
  }

  function ListBytes(ps: seq<Posting>): bytes
    requires Encodable(ps, 0)
  {
    Varint(|ps|) + Pairs(ps, 0)
  }

  /** encodePostingList. */
  method EncodeList(ps: seq<Posting>) returns (out: bytes)
    requires Encodable(ps, 0) && |ps| < TWO_32
    ensures out == ListBytes(ps)
  {
    hide Varint;
    out := EncodeVarint(|ps|, []);
    assert ps[0..] == ps;
    var prev, k := 0, 0;
    while k < |ps|
      invariant 0 <= k <= |ps| && prev >= 0 && Encodable(ps[k..], prev)
      invariant out + Pairs(ps[k..], prev) == ListBytes(ps)
    {
      assert ps[k..][1..] == ps[k + 1..];
      ghost var had := out;
      out := EncodeVarint(ps[k].docId - prev, out);
      out := EncodeVarint(ps[k].freq, out);
      Regroup(had, Varint(ps[k].docId - prev), Varint(ps[k].freq), Pairs(ps[k + 1..], ps[k].docId));
      prev := ps[k].docId;
      k := k + 1;
    }
    assert out + [] == out;
  }

  lemma Regroup(a: bytes, b: bytes, c: bytes, d: bytes)
    ensures a + (b + c + d) == a + b + c + d
  {
  }

  /** `count` pairs at the front of a buffer; None if one is cut off. */
  function ReadPairs(s: bytes, count: nat, prev: nat): Option<seq<Posting>>
    decreases count
  {
    if count == 0 then Some([])
    else
      match ReadUint(s)
      case None => None
      case Some(d) =>
        match ReadUint(s[d.len..])
        case None => None
        case Some(f) =>
          match ReadPairs(s[d.len..][f.len..], count - 1, prev + d.value)
          case None => None
          case Some(ps) => Some([Posting(prev + d.value, f.value)] + ps)
  }

  /** decodePostingList. */
  function ReadList(s: bytes): Option<seq<Posting>> {
    match ReadUint(s)
    case None => None
    case Some(n) => ReadPairs(s[n.len..], n.value, 0)
  }

  lemma ReadPairsStep(d: bytes, f: bytes, rest: bytes, delta: nat, freq: nat, count: nat, prev: nat)
    requires d != [] && f != [] && count > 0
    requires ReadUint(d + (f + rest)) == Some(Num(delta, |d|)) && ReadUint(f + rest) == Some(Num(freq, |f|))
    ensures ReadPairs(d + f + rest, count, prev)
            == match ReadPairs(rest, count - 1,
              prev + delta) case None => None case Some(ps) => Some([Posting(prev + delta, freq)] + ps)
  {
    hide ReadUint;
    assert d + f + rest == d + (f + rest);
    assert (d + (f + rest))[|d|..] == f + rest;
    assert (f + rest)[|f|..] == rest;
  }

  lemma {:induction false} PairsRoundTrip(ps: seq<Posting>, prev: nat)
    requires Encodable(ps, prev)
    ensures ReadPairs(Pairs(ps, prev), |ps|, prev) == Some(ps)
    decreases ps
  {
    hide ReadUint, Varint;
    if ps != [] {
      var d, f, rest := Varint(ps[0].docId - prev), Varint(ps[0].freq), Pairs(ps[1..], ps[0].docId);
      Uint32RoundTrip(ps[0].docId - prev, f + rest);
      Uint32RoundTrip(ps[0].freq, rest);
      PairsRoundTrip(ps[1..], ps[0].docId);
      ReadPairsStep(d, f, rest, ps[0].docId - prev, ps[0].freq, |ps|, prev);
      assert [ps[0]] + ps[1..] == ps;
    }
  }

  /** A posting list reads back as it was written. */
  lemma ListRoundTrip(ps: seq<Posting>)
    requires Encodable(ps, 0) && |ps| < TWO_32
    ensures ReadList(ListBytes(ps)) == Some(ps)
  {
    hide ReadUint, Varint, Pairs;
    Uint32RoundTrip(|ps|, Pairs(ps, 0));
    assert ListBytes(ps)[|Varint(|ps|)|..] == Pairs(ps, 0);
    PairsRoundTrip(ps, 0);
  }

  // ---- Records -------------------------------------------------------------------------------

  datatype Entry = Entry(term: bytes, df: nat, payload: bytes)

  predicate Fits(e: Entry) { |e.term| <= 0xFFFF && e.df < TWO_32 && |e.payload| < TWO_32 }

  function EntryBody(e: Entry): bytes
    requires Fits(e)
  {
    LE(|e.term|, 2) + e.term + LE(e.df, 4) + LE(|e.payload|, 4) + e.payload
  }

  function EntryBytes(e: Entry): bytes
    requires Fits(e)
  {
    EntryBody(e) + LE(Crc32.CrcValue(EntryBody(e)), 4)
  }

  /** decodeRecord: too short, a bad checksum, or lengths out of bounds are errors. */
  function ReadEntry(s: bytes): Option<Entry> {
    if |s| < HEADER_LEN + CRC_LEN then None
    else
      var end := |s| - CRC_LEN;
      if FromLE(s[end..]) != Crc32.CrcValue(s[..end]) then None
      else
        var termEnd := 2 + FromLE(s[..2]);
        if termEnd + 8 > end then None
        else
          var payloadLen := FromLE(s[termEnd + 4..termEnd + 8]);
          if termEnd + 8 + payloadLen > end then None
          else Some(Entry(s[2..termEnd], FromLE(s[termEnd..termEnd + 4]), s[termEnd + 8..termEnd + 8 + payloadLen]))
  }

  lemma EntrySlices(e: Entry)
    requires Fits(e)
    ensures var s, t := EntryBytes(e), 2 + |e.term|;
            && |s| == t + 8 + |e.payload| + CRC_LEN
            && s[..2] == LE(|e.term|, 2) && s[2..t] == e.term
            && s[t..t + 4] == LE(e.df, 4) && s[t + 4..t + 8] == LE(|e.payload|, 4)
            && s[t + 8..t + 8 + |e.payload|] == e.payload
            && s[..|s| - CRC_LEN] == EntryBody(e) && s[|s| - CRC_LEN..] == LE(Crc32.CrcValue(EntryBody(e)), 4)
  {
  }

  lemma SizesRoundTrip(n: nat)
    ensures n <= 0xFFFF ==> FromLE(LE(n, 2)) == n
    ensures n < TWO_32 ==> FromLE(LE(n, 4)) == n
  {
    PowerValues();
    if n <= 0xFFFF { FromLEOfLE(n, 2); }
    if n < TWO_32 { FromLEOfLE(n, 4); }
  }

  /** A record reads back as it was written. */
  lemma EntryRoundTrip(e: Entry)
    requires Fits(e)
    ensures ReadEntry(EntryBytes(e)) == Some(e)
  {
    hide EntryBody, EntryBytes, LE, FromLE, Pow256;
    EntrySlices(e);
    SizesRoundTrip(|e.term|);
    SizesRoundTrip(e.df);
    SizesRoundTrip(|e.payload|);
    CrcRoundTrip(EntryBody(e));
  }

  lemma CrcRoundTrip(s: bytes)
    ensures FromLE(LE(Crc32.CrcValue(s), 4)) == Crc32.CrcValue(s)
  {
    FromLEOfLE(Crc32.CrcValue(s), 4);
  }

  // ---- The file ------------------------------------------------------------------------------

  const FLUSH_BYTES := 0x10_0000

  datatype Pointer = Pointer(off: nat, len: nat, df: nat)

  datatype Item = Item(term: bytes, list: seq<Posting>)

  /** One term's postings through its pointer; None for a short read or a bad record. */
  function ReadPostings(file: bytes, at: Pointer): Option<seq<Posting>> {
    if at.off + at.len > |file| then None
    else match ReadEntry(file[at.off..at.off + at.len]) case None => None case Some(e) => ReadList(e.payload)
  }

  /** What the caller of a rebuild hands over: ids in order. */
  predicate Ordered(item: Item) { Encodable(item.list, 0) && |item.list| < TWO_32 }

  /** A term or a list too long for its length field cannot be written. */
  predicate Storable(item: Item)
    requires Ordered(item)
  {
    |item.term| <= 0xFFFF && |ListBytes(item.list)| < TWO_32
  }

  function EntryOf(item: Item): Entry
    requires Ordered(item)
  {
    Entry(item.term, |item.list|, ListBytes(item.list))
  }

  /** The pointer finds the postings of the item. */
  predicate Finds(file: bytes, at: Pointer, item: Item) {
    ReadPostings(file, at) == Some(item.list) && at.df == |item.list|
  }

  lemma FoundWhereAppended(file: bytes, item: Item)
    requires Ordered(item) && Storable(item)
    ensures var rec := EntryBytes(EntryOf(item)); Finds(file + rec, Pointer(|file|, |rec|, |item.list|), item)
  {
    hide EntryBytes, ReadEntry, ReadList, ListBytes;
    var rec := EntryBytes(EntryOf(item));
    assert (file + rec)[|file|..|file| + |rec|] == rec;
    EntryRoundTrip(EntryOf(item));
    ListRoundTrip(item.list);
  }

  lemma FoundInLonger(file: bytes, more: bytes, at: Pointer, item: Item)
    requires Finds(file, at, item)
    ensures Finds(file + more, at, item)
  {
    hide ReadEntry, ReadList;
    assert at.off + at.len <= |file| ==> (file + more)[at.off..at.off + at.len] == file[at.off..at.off + at.len];
  }

  /** The dictionary points at every item so far that has postings, and at nothing else. */
  ghost predicate Indexed(items: seq<Item>, n: nat, file: bytes, dict: map<bytes, Pointer>)
    requires n <= |items|
  {
    && (forall i :: 0 <= i < n && items[i].list != [] ==>
      items[i].term in dict && Finds(file, dict[items[i].term], items[i]))
    && (forall t :: t in dict ==> exists i :: 0 <= i < n && items[i].term == t && items[i].list != [])
  }

  lemma IndexedGrows(items: seq<Item>, n: nat, file: bytes, dict: map<bytes, Pointer>)
    requires n < |items| && Ordered(items[n]) && Indexed(items, n, file, dict)
    requires forall i, j :: 0 <= i < j < |items| ==> items[i].term != items[j].term
    ensures items[n].list == [] ==> Indexed(items, n + 1, file, dict)
    ensures Storable(items[n]) ==>
      var rec := EntryBytes(EntryOf(items[n]));
      items[n].list != [] ==>
        Indexed(items, n + 1, file + rec, dict[items[n].term := Pointer(|file|, |rec|, |items[n].list|)])
  {
    hide EntryBytes, ReadPostings, Finds, ListBytes;
    if items[n].list != [] && Storable(items[n]) {
      var rec := EntryBytes(EntryOf(items[n]));
      FoundWhereAppended(file, items[n]);
      forall i | 0 <= i < n && items[i].list != [] ensures Finds(file + rec, dict[items[i].term], items[i]) {
        FoundInLonger(file, rec, dict[items[i].term], items[i]);
      }
    }
  }

  /** Write one record per term with postings, in batches; every term then reads back its list. It
      fails exactly when some record does not fit its length fields. */
  method Rebuild(items: seq<Item>) returns (ok: bool, file: bytes, dict: map<bytes, Pointer>)
    requires forall i :: 0 <= i < |items| ==> Ordered(items[i])
    requires forall i, j :: 0 <= i < j < |items| ==> items[i].term != items[j].term
    ensures ok <==> forall i :: 0 <= i < |items| && items[i].list != [] ==> Storable(items[i])
    ensures ok ==> Indexed(items, |items|, file, dict)
  {
    hide Finds, EntryBytes, ListBytes, Encodable;
    file, dict := [], map[];
    var batch: bytes := [];
    var off, n := 0, 0;
    while n < |items|
      invariant 0 <= n <= |items| && off == |file + batch|
      invariant Indexed(items, n, file + batch, dict)
      invariant forall i :: 0 <= i < n && items[i].list != [] ==> Storable(items[i])
    {
      IndexedGrows(items, n, file + batch, dict);
      if items[n].list != [] {
        var payload := EncodeList(items[n].list);
        if |items[n].term| > 0xFFFF || |payload| >= TWO_32 { return false, file, dict; }
        var rec := EntryBytes(Entry(items[n].term, |items[n].list|, payload));
        dict := dict[items[n].term := Pointer(off, |rec|, |items[n].list|)];
        Associate(file, batch, rec);
        batch := batch + rec;
        off := off + |rec|;
        if |batch| >= FLUSH_BYTES {
          Associate(file + batch, [], []);
          file, batch := file + batch, [];
        }
      }
      n := n + 1;
    }
    file := file + batch;
    ok := true;
  }

  lemma Associate(a: bytes, b: bytes, c: bytes)
    ensures a + (b + c) == (a + b) + c && a + [] == a
  {
  }
}
