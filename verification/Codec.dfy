/** The record format shared by the WAL and the snapshot (codec.ts). */
module Codec {
  import opened Bytes
  import Crc32
  import opened Scanner
  import opened Framing

  const MAGIC: bytes := [0x4D, 0x44]
  const TYPE_SET: byte := 1
  const TYPE_DEL: byte := 2
  const TYPE_BATCH: byte := 3
  const HEADER_SIZE := 22
  const CRC_SIZE := 4
  const SUB_HEADER := 19
  const MAX_KEY_LEN := 0xFFFF
  const MAX_VAL_LEN := 0xFFFF_FFFF

  /** One frame, or one op of a batch body. */
  datatype Record = Record(typ: byte, key: bytes, value: bytes, meta: Option<bytes>, expireAt: int)

  /** A frame found in a buffer: its content, its total length, and where its value starts. */
  datatype Decoded = Decoded(record: Record, len: nat, valueOff: nat)

  function MetaBytes(meta: Option<bytes>): bytes {
    match meta case None => [] case Some(m) => m
  }

  /** What reading gives back: an empty metadata blob is the same as none, and the time of expiry is a
      double, so a bigint beyond 2^53 may come back rounded. */
  function Normal(r: Record): Record {
    r.(meta := if r.meta == Some([]) then None else r.meta, expireAt := ToNumber(r.expireAt))
  }

  /** The limits past which the encoder throws instead of writing. */
  predicate Encodable(r: Record) {
    && |r.key| <= MAX_KEY_LEN
    && |r.value| <= MAX_VAL_LEN
    && |MetaBytes(r.meta)| <= MAX_VAL_LEN
    && IsInt64(r.expireAt)
  }

  // ---- Byte layout -------------------------------------------------------------------------

  /** keyLen, valLen, metaLen and expireAt. */
  function Sizes(r: Record): (s: bytes)
    requires Encodable(r)
    ensures |s| == 18
  {
    LE(|r.key|, 2) + LE(|r.value|, 4) + LE(|MetaBytes(r.meta)|, 4) + LE(ToPattern64(r.expireAt), 8)
  }

  function Body(r: Record): bytes { r.key + r.value + MetaBytes(r.meta) }

  /** Everything the checksum covers: type, flags, sizes and body. */
  function Checked(r: Record): bytes
    requires Encodable(r)
  {
    [r.typ, 0] + Sizes(r) + Body(r)
  }

  function Encoded(r: Record): (s: bytes)
    requires Encodable(r)
    ensures |s| == HEADER_SIZE + |Body(r)| + CRC_SIZE
  {
    MAGIC + Checked(r) + LE(Crc32.CrcValue(Checked(r)), 4)
  }

  // The numbers of an 18-byte header, read back.

  function KeyLen(h: bytes): nat requires |h| == 18 { FromLE(h[..2]) }
  function ValLen(h: bytes): nat requires |h| == 18 { FromLE(h[2..6]) }
  function MetaLen(h: bytes): nat requires |h| == 18 { FromLE(h[6..10]) }
  function ExpireAt(h: bytes): int requires |h| == 18 { ToNumber(FromPattern64(FromLE(h[10..18]))) }
  function BodyLen(h: bytes): nat requires |h| == 18 { KeyLen(h) + ValLen(h) + MetaLen(h) }

  function ReadBody(typ: byte, h: bytes, s: bytes): Record
    requires |h| == 18 && |s| == BodyLen(h)
  {
    var metaOff := KeyLen(h) + ValLen(h);
    Record(typ, s[..KeyLen(h)], s[KeyLen(h)..metaOff], if MetaLen(h) == 0 then None
      else Some(s[metaOff..]), ExpireAt(h))
  }

  /** The frame at the front of `s`; None for no magic, an incomplete frame or a bad checksum. */
  function ReadFrame(s: bytes): Option<Decoded> {
    if |s| < HEADER_SIZE || s[0] != MAGIC[0] || s[1] != MAGIC[1] then None
    else
      var h := s[4..22];
      var len := HEADER_SIZE + BodyLen(h) + CRC_SIZE;
      if |s| < len then None
      else if FromLE(s[len - CRC_SIZE..len]) != Crc32.CrcValue(s[2..len - CRC_SIZE]) then None
      else Some(Decoded(ReadBody(s[2], h, s[HEADER_SIZE..len - CRC_SIZE]), len, HEADER_SIZE + KeyLen(h)))
  }

  /** Reading a frame whose header is known, from the slices it is made of. */
  lemma ReadFrameFrom(s: bytes, h: bytes, len: nat, checked: bytes, body: bytes, crc: bytes)
    requires |s| >= HEADER_SIZE && s[0] == MAGIC[0] && s[1] == MAGIC[1]
    requires h == s[4..22] && len == HEADER_SIZE + BodyLen(h) + CRC_SIZE <= |s|
    requires checked == s[2..len - CRC_SIZE] && body == s[HEADER_SIZE..len - CRC_SIZE] && crc == s[len - CRC_SIZE..len]
    ensures ReadFrame(s) == if FromLE(crc) != Crc32.CrcValue(checked) then None
                            else Some(Decoded(ReadBody(s[2], h, body), len, HEADER_SIZE + KeyLen(h)))
  {
    hide FromLE, ToNumber, FromPattern64, ReadBody, Crc32.CrcValue;
  }

  lemma SliceOfDrop<T>(s: seq<T>, pos: nat, a: nat, b: nat)
    requires pos <= |s| && a <= b <= |s| - pos
    ensures s[pos..][a..b] == s[pos + a..pos + b]
  {
  }

  /** A frame lies inside the buffer, and its value where it says. */
  lemma ReadFrameShape(s: bytes)
    requires ReadFrame(s).Some?
    ensures var d := ReadFrame(s).value;
            && HEADER_SIZE + CRC_SIZE <= d.len <= |s|
            && d.valueOff + |d.record.value| <= d.len
            && s[d.valueOff..d.valueOff + |d.record.value|] == d.record.value
  {
    hide FromLE, ToNumber, FromPattern64, Crc32.CrcValue;
    var h := s[4..22];
    var body := s[HEADER_SIZE..HEADER_SIZE + BodyLen(h)];
    var d := ReadFrame(s).value;
    assert d == Decoded(ReadBody(s[2], h, body), HEADER_SIZE + BodyLen(h) + CRC_SIZE, HEADER_SIZE + KeyLen(h));
    assert |body| == BodyLen(h);
    assert d.record.value == body[KeyLen(h)..KeyLen(h) + ValLen(h)];
    SliceOfSlice(s, HEADER_SIZE, HEADER_SIZE + BodyLen(h), KeyLen(h), KeyLen(h) + ValLen(h));
  }

  lemma SliceOfSlice<T>(s: seq<T>, a: nat, b: nat, c: nat, d: nat)
    requires a <= b <= |s| && c <= d <= b - a
    ensures s[a..b][c..d] == s[a + c..a + d]
  {
    var l, r := s[a..b][c..d], s[a + c..a + d];
    forall i | 0 <= i < d - c ensures l[i] == r[i] { assert s[a..b][c + i] == s[a + c + i]; }
    assert l == r;
  }

  lemma SliceOfPrefix(s: bytes, t: bytes, len: nat, a: nat, b: nat)
    requires a <= b <= len <= |s| && len <= |t| && s[..len] == t[..len]
    ensures s[a..b] == t[a..b]
  {
    assert s[a..b] == s[..len][a..b];
    assert t[a..b] == t[..len][a..b];
  }

  /** Reading looks at the bytes of the frame and at nothing behind them. */
  lemma ReadFrameLocal(s: bytes, t: bytes)
    requires ReadFrame(s).Some? && ReadFrame(s).value.len <= |s| && ReadFrame(s).value.len <= |t|
    requires t[..ReadFrame(s).value.len] == s[..ReadFrame(s).value.len]
    ensures ReadFrame(t) == ReadFrame(s)
  {
    hide FromLE, ToNumber, FromPattern64, ReadBody, Crc32.CrcValue;
    ReadFrameShape(s);
    var len := ReadFrame(s).value.len;
    forall i | 0 <= i < 3 ensures t[i] == s[i] { assert s[i] == s[..len][i] && t[i] == t[..len][i]; }
    SliceOfPrefix(s, t, len, 4, 22);
    var h := s[4..22];
    assert len == HEADER_SIZE + BodyLen(h) + CRC_SIZE;
    SliceOfPrefix(s, t, len, len - CRC_SIZE, len);
    SliceOfPrefix(s, t, len, 2, len - CRC_SIZE);
    SliceOfPrefix(s, t, len, HEADER_SIZE, len - CRC_SIZE);
  }

  /** Cutting bytes off the end never creates a frame. */
  lemma ReadFrameOfPrefix(s: bytes, n: nat)
    requires n <= |s|
    ensures ReadFrame(s[..n]).Some? ==> ReadFrame(s) == ReadFrame(s[..n])
    ensures ReadFrame(s).Some? && ReadFrame(s).value.len <= n ==> ReadFrame(s[..n]) == ReadFrame(s)
  {
    if ReadFrame(s[..n]).Some? {
      ReadFrameShape(s[..n]);
      var len := ReadFrame(s[..n]).value.len;
      assert s[..n][..len] == s[..len];
      ReadFrameLocal(s[..n], s);
    }
    if ReadFrame(s).Some? && ReadFrame(s).value.len <= n {
      ReadFrameShape(s);
      var len := ReadFrame(s).value.len;
      assert s[..n][..len] == s[..len];
      ReadFrameLocal(s, s[..n]);
    }
  }

  // ---- Encoding then reading ---------------------------------------------------------------

  lemma SizesRoundTrip(r: Record)
    requires Encodable(r)
    ensures var h := Sizes(r);
            KeyLen(h) == |r.key| && ValLen(h) == |r.value| && MetaLen(h) == |MetaBytes(r.meta)|
              && ExpireAt(h) == ToNumber(r.expireAt)
  {
    PowerValues();
    var a, b, c, d := LE(|r.key|, 2), LE(|r.value|, 4), LE(|MetaBytes(r.meta)|, 4), LE(ToPattern64(r.expireAt), 8);
    var s := Sizes(r);
    assert s[..2] == a && s[2..6] == b && s[6..10] == c && s[10..18] == d;
    FromLEOfLE(|r.key|, 2);
    FromLEOfLE(|r.value|, 4);
    FromLEOfLE(|MetaBytes(r.meta)|, 4);
    FromLEOfLE(ToPattern64(r.expireAt), 8);
  }

  lemma BodyRoundTrip(r: Record)
    requires Encodable(r)
    ensures BodyLen(Sizes(r)) == |Body(r)|
    ensures ReadBody(r.typ, Sizes(r), Body(r)) == Normal(r)
  {
    SizesRoundTrip(r);
    var s := Body(r);
    var metaOff := |r.key| + |r.value|;
    assert s[..|r.key|] == r.key && s[|r.key|..metaOff] == r.value && s[metaOff..] == MetaBytes(r.meta);
  }

  /** An encoded frame is read back, whatever follows it. */
  lemma FrameRoundTrip(r: Record, rest: bytes)
    requires Encodable(r)
    ensures ReadFrame(Encoded(r) + rest) == Some(Decoded(Normal(r), |Encoded(r)|, HEADER_SIZE + |r.key|))
  {
    var s := Encoded(r) + rest;
    EncodedSlices(r, rest);
    FromLEOfLE(Crc32.CrcValue(Checked(r)), 4);
    SizesRoundTrip(r);
    BodyRoundTrip(r);
  }

  /** It is the same record if and only if its metadata is not an empty blob and its time of expiry is a
      double, as every time in milliseconds below 2^53 is. */
  lemma ReadsBackUnchangedIff(r: Record, rest: bytes)
    requires Encodable(r)
    ensures ReadFrame(Encoded(r) + rest).Some?
    ensures ReadFrame(Encoded(r) + rest).value.record == r <==> r.meta != Some([]) && IsNumber(r.expireAt)
    ensures -0x20_0000_0000_0000 < r.expireAt < 0x20_0000_0000_0000 ==> IsNumber(r.expireAt)
  {
    hide ReadFrame, Encoded, ToNumber;
    FrameRoundTrip(r, rest);
    if -0x20_0000_0000_0000 < r.expireAt < 0x20_0000_0000_0000 { SafeIsNumber(r.expireAt); }
  }

  lemma EncodedSlices(r: Record, rest: bytes)
    requires Encodable(r)
    ensures var s := Encoded(r) + rest;
            var len := |Encoded(r)|;
            && s[0] == MAGIC[0] && s[1] == MAGIC[1] && s[2] == r.typ
            && s[4..22] == Sizes(r)
            && s[HEADER_SIZE..len - CRC_SIZE] == Body(r)
            && s[2..len - CRC_SIZE] == Checked(r)
            && s[len - CRC_SIZE..len] == LE(Crc32.CrcValue(Checked(r)), 4)
  {
    var crc := LE(Crc32.CrcValue(Checked(r)), 4);
    var tail := crc + rest;
    assert Encoded(r) + rest == MAGIC + Checked(r) + tail;
    assert Checked(r)[2..20] == Sizes(r);
    assert Checked(r)[20..] == Body(r);
  }

  // ---- As a framing ------------------------------------------------------------------------

  function RecordFormat(): Format<Record> {
    Format(
      r => Encodable(r),
      r => if Encodable(r) then Encoded(r) else [],
      s => match ReadFrame(s) case None => None case Some(d) => Some(Item(d.record, d.len)),
      r => Normal(r))
  }

  lemma DecOfFormat(s: bytes)
    ensures RecordFormat().dec(s) == match ReadFrame(s) case None => None case Some(d) => Some(Item(d.record, d.len))
  {
  }

  /** The record format frames its own length and can be cut and continued. */
  lemma CodecIsLawful()
    ensures Lawful(RecordFormat())
  {
    var f := RecordFormat();
    assert Holds(f, Shape) by {
      forall s | f.dec(s).Some? ensures 0 < f.dec(s).value.len <= |s| { ReadFrameShape(s); }
    }
    assert Holds(f, RoundTrip) by {
      forall r, rest | f.ok(r) ensures f.dec(f.enc(r) + rest) == Some(Item(f.norm(r), |f.enc(r)|)) {
        FrameRoundTrip(r, rest);
      }
    }
    assert Holds(f, Prefix) by {
      forall s: bytes, n: nat | n <= |s|
        ensures f.dec(s[..n]) == if f.dec(s).Some? && f.dec(s).value.len <= n then f.dec(s) else None
      {
        ReadFrameOfPrefix(s, n);
        if ReadFrame(s[..n]).Some? { ReadFrameShape(s[..n]); }
      }
    }
  }

  /** A frame whose value holds a frame: cut off right after the value, the inner frame is replayed
      although no frame of the log landed. */
  lemma EmbeddedFrameResurfaces(inner: Record, key: bytes)
    requires Encodable(inner) && |key| <= MAX_KEY_LEN && |Encoded(inner)| <= MAX_VAL_LEN
    ensures var outer := Record(TYPE_SET, key, Encoded(inner), None, 0);
            var landed := Encoded(outer)[..HEADER_SIZE + |key| + |Encoded(inner)|];
            && Torn(RecordFormat(), landed)
            && ScanFrames(RecordFormat(), landed, 0, false).found != []
  {
    var outer := Record(TYPE_SET, key, Encoded(inner), None, 0);
    var n := HEADER_SIZE + |key| + |Encoded(inner)|;
    var landed := Encoded(outer)[..n];
    var f := RecordFormat();
    assert Torn(f, landed) by { assert f.ok(outer) && f.enc(outer) == Encoded(outer) && n < |f.enc(outer)|; }
    InnerFrame(inner, key);
    CodecIsLawful();
    ResurfacesAt(f, landed, HEADER_SIZE + |key|, inner);
  }

  lemma ResurfacesAt(f: Format<Record>, landed: bytes, at: nat, inner: Record)
    requires Lawful(f) && Torn(f, landed) && f.ok(inner) && at < |landed| && landed[at..] == f.enc(inner)
    ensures ScanFrames(f, landed, 0, false).found != []
  {
    assert f.enc(inner) + [] == f.enc(inner);
    assert Holds(f, RoundTrip);
    assert f.dec(f.enc(inner) + []).Some?;
    assert !Barren(f, landed);
    assert [] + EncodeAll(f, []) + landed == landed;
    ResyncScanOfLog(f, [], [], landed);
  }

  lemma InnerFrame(inner: Record, key: bytes)
    requires Encodable(inner) && |key| <= MAX_KEY_LEN && |Encoded(inner)| <= MAX_VAL_LEN
    ensures var outer := Record(TYPE_SET, key, Encoded(inner), None, 0);
            Encoded(outer)[..HEADER_SIZE + |key| + |Encoded(inner)|][HEADER_SIZE + |key|..] == Encoded(inner)
  {
    var outer := Record(TYPE_SET, key, Encoded(inner), None, 0);
    var e, at, n := Encoded(outer), HEADER_SIZE + |key|, HEADER_SIZE + |key| + |Encoded(inner)|;
    EncodedSlices(outer, []);
    assert e + [] == e;
    assert e[HEADER_SIZE..|e| - CRC_SIZE] == key + Encoded(inner);
    SliceOfSlice(e, HEADER_SIZE, |e| - CRC_SIZE, |key|, |key| + |Encoded(inner)|);
    assert e[..n][at..] == e[at..n];
  }
}
