/** The body of a BATCH frame: a counted list of ops (codec.ts). */
module BatchCodec {
  import opened Bytes
  import opened Codec

  const MAX_OPS := 0xFFFF

  function EncodedOp(r: Record): (s: bytes)
    requires Encodable(r)
    ensures |s| == SUB_HEADER + |Body(r)|
  {
    [r.typ] + Sizes(r) + Body(r)
  }

  ghost predicate AllEncodable(ops: seq<Record>) { forall i :: 0 <= i < |ops| ==> Encodable(ops[i]) }

  function EncodedOps(ops: seq<Record>): bytes
    requires AllEncodable(ops)
  {
    if ops == [] then [] else EncodedOp(ops[0]) + EncodedOps(ops[1..])
  }

  function EncodedBatch(ops: seq<Record>): bytes
    requires AllEncodable(ops) && |ops| <= MAX_OPS
  {
    LE(|ops|, 2) + EncodedOps(ops)
  }

  /** One op at the front of `s`, and where the next one starts; None when it is cut short. */
  function DecodeOp(s: bytes): Option<(Record, nat)> {
    if |s| < SUB_HEADER then None
    else
      var h := s[1..SUB_HEADER];
      var end := SUB_HEADER + BodyLen(h);
      if |s| < end then None else Some((ReadBody(s[0], h, s[SUB_HEADER..end]), end))
  }

  /** `n` ops; None as soon as one of them is cut short, so a batch is never half decoded. */
  function DecodeOps(s: bytes, n: nat): Option<seq<Record>> {
    if n == 0 then Some([])
    else match DecodeOp(s)
      case None => None
      case Some((r, end)) =>
        if end > |s| then None
        else match DecodeOps(s[end..], n - 1)
          case None => None
          case Some(rest) => Some([r] + rest)
  }

  function DecodeBatch(body: bytes): Option<seq<Record>> {
    if |body| < 2 then Some([]) else DecodeOps(body[2..], FromLE(body[..2]))
  }

  function NormalOps(ops: seq<Record>): seq<Record> {
    if ops == [] then [] else [Normal(ops[0])] + NormalOps(ops[1..])
  }

  lemma OpSlices(r: Record, rest: bytes)
    requires Encodable(r)
    ensures var s := EncodedOp(r) + rest;
            && s[0] == r.typ
            && s[1..SUB_HEADER] == Sizes(r)
            && s[SUB_HEADER..SUB_HEADER + |Body(r)|] == Body(r)
            && s[|EncodedOp(r)|..] == rest
  {
    var a, b := Sizes(r), Body(r);
    var s := EncodedOp(r) + rest;
    assert s == [r.typ] + a + b + rest;
  }

  lemma OpRoundTrip(r: Record, rest: bytes)
    requires Encodable(r)
    ensures DecodeOp(EncodedOp(r) + rest) == Some((Normal(r), |EncodedOp(r)|))
  {
    OpSlices(r, rest);
    SizesRoundTrip(r);
    BodyRoundTrip(r);
  }

  lemma {:induction false} OpsRoundTrip(ops: seq<Record>, rest: bytes)
    requires AllEncodable(ops)
    ensures DecodeOps(EncodedOps(ops) + rest, |ops|) == Some(NormalOps(ops))
    decreases ops
  {
    if ops != [] {
      var tail := EncodedOps(ops[1..]) + rest;
      assert EncodedOps(ops) + rest == EncodedOp(ops[0]) + tail;
      OpRoundTrip(ops[0], tail);
      OpSlices(ops[0], tail);
      OpsRoundTrip(ops[1..], rest);
    }
  }

  /** An encoded batch reads back as its ops, whatever trails it. */
  lemma BatchRoundTrip(ops: seq<Record>, rest: bytes)
    requires AllEncodable(ops) && |ops| <= MAX_OPS
    ensures DecodeBatch(EncodedBatch(ops) + rest) == Some(NormalOps(ops))
  {
    CountThenOps(LE(|ops|, 2), EncodedOps(ops), rest);
    PowerValues();
    FromLEOfLE(|ops|, 2);
    OpsRoundTrip(ops, rest);
  }

  lemma CountThenOps(count: bytes, ops: bytes, rest: bytes)
    requires |count| == 2
    ensures var s := count + ops + rest; s[..2] == count && s[2..] == ops + rest
  {
  }

  lemma TruncatedOp(r: Record, n: nat)
    requires Encodable(r) && n < |EncodedOp(r)|
    ensures DecodeOp(EncodedOp(r)[..n]).None?
  {
    var s := EncodedOp(r);
    OpSlices(r, []);
    assert s + [] == s;
    SizesRoundTrip(r);
    if n >= SUB_HEADER {
      assert s[..n][1..SUB_HEADER] == s[1..SUB_HEADER];
    }
  }

  lemma {:induction false} TruncatedOps(ops: seq<Record>, n: nat)
    requires AllEncodable(ops) && n < |EncodedOps(ops)|
    ensures DecodeOps(EncodedOps(ops)[..n], |ops|).None?
    decreases ops
  {
    var first := EncodedOp(ops[0]);
    var tail := EncodedOps(ops[1..]);
    if n < |first| {
      assert (first + tail)[..n] == first[..n];
      TruncatedOp(ops[0], n);
    } else {
      assert (first + tail)[..n] == first + tail[..n - |first|];
      OpRoundTrip(ops[0], tail[..n - |first|]);
      OpSlices(ops[0], tail[..n - |first|]);
      TruncatedOps(ops[1..], n - |first|);
    }
  }

  /** A batch body cut anywhere behind its count is rejected as a whole: nothing of it applies. */
  lemma TruncatedBatch(ops: seq<Record>, n: nat)
    requires AllEncodable(ops) && |ops| <= MAX_OPS && 2 <= n < |EncodedBatch(ops)|
    ensures DecodeBatch(EncodedBatch(ops)[..n]).None?
  {
    PowerValues();
    FromLEOfLE(|ops|, 2);
    var s := EncodedBatch(ops);
    assert s[..n][..2] == LE(|ops|, 2);
    assert s[..n][2..] == EncodedOps(ops)[..n - 2];
    TruncatedOps(ops, n - 2);
  }

  /** One op of a batch in disk mode: its value is a place in the file, not bytes. */
  datatype OpRef = OpRef(typ: byte, key: bytes, meta: Option<bytes>, expireAt: int, valueOff: nat, valLen: nat)

  /** Where the values of ops lie whose first byte is at `o`. */
  function PlaceOps(ops: seq<Record>, o: nat): seq<nat>
    decreases ops
  {
    if ops == [] then [] else [o + SUB_HEADER + |ops[0].key|] + PlaceOps(ops[1..], o + OpLen(ops[0]))
  }

  function OpLen(r: Record): nat { SUB_HEADER + |Body(r)| }

  function OpsLen(ops: seq<Record>): nat { if ops == [] then 0 else OpLen(ops[0]) + OpsLen(ops[1..]) }

  lemma {:induction false} PlaceOpsAppend(ops: seq<Record>, r: Record, o: nat)
    ensures |PlaceOps(ops, o)| == |ops| && OpsLen(ops + [r]) == OpsLen(ops) + OpLen(r)
    ensures PlaceOps(ops + [r], o) == PlaceOps(ops, o) + [o + OpsLen(ops) + SUB_HEADER + |r.key|]
    decreases ops
  {
    hide OpLen;
    if ops == [] {
      assert ops + [r] == [r] && [r][1..] == [];
    } else {
      assert (ops + [r])[1..] == ops[1..] + [r];
      PlaceOpsAppend(ops[1..], r, o + OpLen(ops[0]));
    }
  }

  ghost predicate RefTo(ref: OpRef, r: Record, body: bytes, bodyOff: nat) {
    && ref.typ == r.typ && ref.key == r.key && ref.meta == r.meta && ref.expireAt == r.expireAt
    && bodyOff <= ref.valueOff && ref.valueOff - bodyOff + ref.valLen <= |body|
    && body[ref.valueOff - bodyOff..ref.valueOff - bodyOff + ref.valLen] == r.value
  }

  lemma DecodeOpAt(body: bytes, o: nat, h: bytes)
    requires o + SUB_HEADER <= |body| && h == body[o + 1..o + SUB_HEADER]
    ensures DecodeOp(body[o..]) ==
              if o + SUB_HEADER + BodyLen(h) > |body| then None
              else Some((ReadBody(body[o], h, body[o + SUB_HEADER..o + SUB_HEADER + BodyLen(h)]),
                SUB_HEADER + BodyLen(h)))
  {
    SliceOfDrop(body, o, 1, SUB_HEADER);
    if o + SUB_HEADER + BodyLen(h) <= |body| { SliceOfDrop(body, o, SUB_HEADER, SUB_HEADER + BodyLen(h)); }
  }

  lemma RefToOp(body: bytes, bodyOff: nat, o: nat, h: bytes)
    requires |h| == 18 && o + SUB_HEADER + BodyLen(h) <= |body|
    ensures var p := o + SUB_HEADER;
            var r := ReadBody(body[o], h, body[p..p + BodyLen(h)]);
            var ref := OpRef(body[o], body[p..p + KeyLen(h)],
                             if MetaLen(h) == 0 then None else Some(body[p + KeyLen(h) + ValLen(h)..p + BodyLen(h)]),
                             ExpireAt(h), bodyOff + p + KeyLen(h), ValLen(h));
            RefTo(ref, r, body, bodyOff)
  {
    var p := o + SUB_HEADER;
    SliceOfSlice(body, p, p + BodyLen(h), 0, KeyLen(h));
    SliceOfSlice(body, p, p + BodyLen(h), KeyLen(h), KeyLen(h) + ValLen(h));
    SliceOfSlice(body, p, p + BodyLen(h), KeyLen(h) + ValLen(h), BodyLen(h));
  }

  /** Each op with the place of its value: where its bytes are, and where the lengths before it put it. */
  ghost predicate RefsTo(refs: seq<OpRef>, rs: seq<Record>, body: bytes, bodyOff: nat) {
    && |refs| == |rs| == |PlaceOps(rs, bodyOff + 2)|
    && forall i :: 0 <= i < |refs| ==>
         RefTo(refs[i], rs[i], body, bodyOff) && refs[i].valueOff == PlaceOps(rs, bodyOff + 2)[i]
           && refs[i].valLen == |rs[i].value|
  }

  lemma NoRefs(body: bytes, bodyOff: nat)
    ensures RefsTo([], [], body, bodyOff)
  {
  }

  /** Decoding the whole body is what is done so far, followed by the `n` ops at `o`. */
  ghost predicate Remaining(all: Option<seq<Record>>, body: bytes, o: nat, n: nat, done: seq<Record>)
    requires o <= |body|
  {
    var rest := DecodeOps(body[o..], n);
    all == if rest.None? then None else Some(done + rest.value)
  }

  lemma RemainingStart(body: bytes)
    requires |body| >= 2
    ensures Remaining(DecodeBatch(body), body, 2, FromLE(body[..2]), [])
  {
    var rest := DecodeOps(body[2..], FromLE(body[..2]));
    if rest.Some? { assert [] + rest.value == rest.value; }
  }

  lemma RemainingStep(all: Option<seq<Record>>, body: bytes, o: nat, n: nat, done: seq<Record>, r: Record, len: nat)
    requires n > 0 && o <= |body| && DecodeOp(body[o..]) == Some((r, len)) && o + len <= |body|
    requires Remaining(all, body, o, n, done)
    ensures Remaining(all, body, o + len, n - 1, done + [r])
  {
    assert body[o..][len..] == body[o + len..];
    var rest := DecodeOps(body[o + len..], n - 1);
    if rest.Some? { assert done + ([r] + rest.value) == done + [r] + rest.value; }
  }

  lemma RemainingStuck(all: Option<seq<Record>>, body: bytes, o: nat, n: nat, done: seq<Record>)
    requires n > 0 && o <= |body| && DecodeOp(body[o..]).None? && Remaining(all, body, o, n, done)
    ensures all.None?
  {
  }

  lemma RemainingEnd(all: Option<seq<Record>>, body: bytes, o: nat, done: seq<Record>)
    requires o <= |body| && Remaining(all, body, o, 0, done)
    ensures all == Some(done)
  {
    assert done + [] == done;
  }

  lemma RefsToOneMore(refs: seq<OpRef>, rs: seq<Record>, body: bytes, bodyOff: nat, ref: OpRef, r: Record)
    requires RefsTo(refs, rs, body, bodyOff) && RefTo(ref, r, body, bodyOff)
    requires ref.valueOff == bodyOff + 2 + OpsLen(rs) + SUB_HEADER + |r.key| && ref.valLen == |r.value|
    ensures RefsTo(refs + [ref], rs + [r], body, bodyOff)
  {
    hide RefTo, PlaceOps, OpsLen;
    PlaceOpsAppend(rs, r, bodyOff + 2);
  }

  lemma OpCutShort(body: bytes, o: nat)
    requires o <= |body|
    ensures o + SUB_HEADER > |body| ==> DecodeOp(body[o..]).None?
  {
  }

  lemma ReadBodyLens(typ: byte, h: bytes, s: bytes)
    requires |h| == 18 && |s| == BodyLen(h)
    ensures var r := ReadBody(typ, h, s); |r.key| == KeyLen(h) && |r.value| == ValLen(h) && |Body(r)| == BodyLen(h)
  {
  }

  /** One turn of the loop: the op at `o` and the offset behind it. */
  method ScanOpRef(body: bytes, bodyOff: nat, o: nat) returns (ref: Option<OpRef>, ghost op: Record, next: nat)
    requires o <= |body|
    ensures ref.None? ==> DecodeOp(body[o..]).None?
    ensures ref.Some? ==> o < next <= |body| && DecodeOp(body[o..]) == Some((op, next - o))
    ensures ref.Some? ==> RefTo(ref.value, op, body, bodyOff)
    ensures ref.Some? ==> next == o + OpLen(op)
    ensures ref.Some? ==> ref.value.valueOff == bodyOff + o + SUB_HEADER + |op.key| && ref.value.valLen == |op.value|
  {
    hide RefTo, ReadBody, DecodeOp, KeyLen, ValLen, MetaLen, ExpireAt, Body, FromLE;
    OpCutShort(body, o);
    op, next := Record(TYPE_SET, [], [], None, 0), o;
    if o + SUB_HEADER > |body| { return None, op, next; }
    var h := body[o + 1..o + SUB_HEADER];
    DecodeOpAt(body, o, h);
    var p := o + SUB_HEADER;
    if p + BodyLen(h) > |body| { return None, op, next; }
    RefToOp(body, bodyOff, o, h);
    op := ReadBody(body[o], h, body[p..p + BodyLen(h)]);
    var meta := if MetaLen(h) == 0 then None else Some(body[p + KeyLen(h) + ValLen(h)..p + BodyLen(h)]);
    ref := Some(OpRef(body[o], body[p..p + KeyLen(h)], meta, ExpireAt(h), bodyOff + p + KeyLen(h), ValLen(h)));
    next := p + BodyLen(h);
    ReadBodyLens(op.typ, h, body[p..next]);
  }

  method ScanOps(body: bytes, bodyOff: nat, count: nat,
      ghost all: Option<seq<Record>>) returns (refs: Option<seq<OpRef>>)
    requires |body| >= 2 && Remaining(all, body, 2, count, [])
    ensures refs.None? <==> all.None?
    ensures refs.Some? ==> RefsTo(refs.value, all.value, body, bodyOff)
  {
    hide RefsTo, RefTo, Remaining, DecodeOps, DecodeOp;
    var o, out: seq<OpRef> := 2, [];
    ghost var done: seq<Record> := [];
    NoRefs(body, bodyOff);
    for i := 0 to count
      invariant 2 <= o <= |body| && o == 2 + OpsLen(done)
      invariant RefsTo(out, done, body, bodyOff)
      invariant Remaining(all, body, o, count - i, done)
    {
      var ref, op, next := ScanOpRef(body, bodyOff, o);
      if ref.None? {
        RemainingStuck(all, body, o, count - i, done);
        return None;
      }
      RemainingStep(all, body, o, count - i, done, op, next - o);
      RefsToOneMore(out, done, body, bodyOff, ref.value, op);
      PlaceOpsAppend(done, op, 0);
      out, done, o := out + [ref.value], done + [op], next;
    }
    RemainingEnd(all, body, o, done);
    refs := Some(out);
  }

  /** scanBatchOpRefs: the ops that decoding gives, each with the place of its value. */
  method ScanBatchOpRefs(body: bytes, bodyOff: nat) returns (refs: Option<seq<OpRef>>)
    ensures refs.None? <==> DecodeBatch(body).None?
    ensures refs.Some? ==> RefsTo(refs.value, DecodeBatch(body).value, body, bodyOff)
  {
    if |body| < 2 {
      NoRefs(body, bodyOff);
      return Some([]);
    }
    RemainingStart(body);
    refs := ScanOps(body, bodyOff, FromLE(body[..2]), DecodeBatch(body));
  }
}
