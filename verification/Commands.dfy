/** What a writer appends (index.ts): one SET or DEL frame, or a whole batch in one frame; and
    where in the frame each value lies, which is where its disk pointer will point. */
module Commands {
  import opened Bytes
  import opened Framing
  import Crc32
  import opened Codec
  import opened BatchCodec
  import opened Replay

  datatype Cmd = One(op: Record) | Batch(ops: seq<Record>)

  /** prepareSet and prepareDel only make SET and DEL records, with metadata null or non-empty. */
  predicate Prepared(r: Record) {
    (r.typ == TYPE_SET || r.typ == TYPE_DEL) && Encodable(r) && Normal(r) == r
  }

  /** The SET record of an entry; a snapshot writes exactly these. */
  function SetRecord(k: Key, e: Entry): Record { Record(TYPE_SET, k, e.value, e.meta, e.expireAt) }

  /** The entries that ops set can be written out again. */
  predicate OpsFit(ops: seq<Op>) {
    ops == [] || ((ops[0].Set? ==> Prepared(SetRecord(ops[0].key, ops[0].entry))) && OpsFit(ops[1..]))
  }

  lemma {:induction false} OpsFitAppend(a: seq<Op>, b: seq<Op>)
    requires OpsFit(a) && OpsFit(b)
    ensures OpsFit(a + b)
  {
    if a == [] {
      assert a + b == b;
    } else {
      assert (a + b)[1..] == a[1..] + b;
      OpsFitAppend(a[1..], b);
    }
  }

  lemma {:induction false} PreparedOpsFit(ops: seq<Record>)
    requires forall i :: 0 <= i < |ops| ==> Prepared(ops[i])
    ensures OpsFit(OpsOfBatch(ops))
  {
    if ops != [] {
      PreparedOpsFit(ops[1..]);
      assert Prepared(ops[0]);
      assert OpsOfRecord(ops[0])[1..] == [];
      OpsFitAppend(OpsOfRecord(ops[0]), OpsOfBatch(ops[1..]));
    }
  }

  function CmdOps(cmd: Cmd): seq<Record> {
    match cmd case One(op) => [op] case Batch(ops) => ops
  }

  /** Within the limits of the format. */
  predicate Writable(cmd: Cmd) {
    && (forall i :: 0 <= i < |CmdOps(cmd)| ==> Prepared(CmdOps(cmd)[i]))
    && |CmdOps(cmd)| <= MAX_OPS
    && (cmd.Batch? ==> |EncodedBatch(cmd.ops)| <= MAX_VAL_LEN)
  }

  function FrameOf(cmd: Cmd): Record
    requires Writable(cmd)
  {
    match cmd
    case One(op) => op
    case Batch(ops) => Record(TYPE_BATCH, [], EncodedBatch(ops), None, 0)
  }

  lemma {:induction false} PreparedOpsAreNormal(ops: seq<Record>)
    requires forall i :: 0 <= i < |ops| ==> Prepared(ops[i])
    ensures NormalOps(ops) == ops
  {
    if ops != [] { PreparedOpsAreNormal(ops[1..]); }
  }

  /** The frame on disk means the ops the writer applied to its store. */
  lemma FrameMeansOps(cmd: Cmd)
    requires Writable(cmd)
    ensures FrameOps(FrameOf(cmd)) == OpsOfBatch(CmdOps(cmd))
  {
    match cmd
    case One(op) =>
      assert [op][1..] == [];
      assert OpsOfRecord(op) + [] == OpsOfRecord(op);
    case Batch(ops) =>
      PreparedOpsAreNormal(ops);
      BatchRoundTrip(ops, []);
      assert EncodedBatch(ops) + [] == EncodedBatch(ops);
  }

  // ---- A log as bytes ----------------------------------------------------------------------

  function Enc(r: Record): bytes { if Encodable(r) then Encoded(r) else [] }

  function EncAll(rs: seq<Record>): bytes { if rs == [] then [] else Enc(rs[0]) + EncAll(rs[1..]) }

  lemma {:induction false} EncAllAppend(a: seq<Record>, b: seq<Record>)
    ensures EncAll(a + b) == EncAll(a) + EncAll(b)
  {
    if a == [] {
      assert a + b == b;
    } else {
      assert (a + b)[1..] == a[1..] + b;
      EncAllAppend(a[1..], b);
    }
  }

  lemma {:induction false} EncAllIsEncodeAll(rs: seq<Record>)
    ensures EncodeAll(RecordFormat(), rs) == EncAll(rs)
  {
    if rs != [] { EncAllIsEncodeAll(rs[1..]); }
  }

  // ---- Where the values lie ----------------------------------------------------------------

  /** A positioned read; empty past the end. */
  function ReadAt(b: bytes, off: nat, len: nat): bytes {
    if off + len <= |b| then b[off..off + len] else []
  }

  lemma ReadAtLonger(a: bytes, b: bytes, off: nat, len: nat)
    requires off + len <= |a|
    ensures ReadAt(a + b, off, len) == ReadAt(a, off, len)
  {
  }

  lemma ReadAtBehind(a: bytes, b: bytes, off: nat, len: nat)
    requires off + len <= |b|
    ensures ReadAt(a + b, |a| + off, len) == ReadAt(b, off, len)
  {
  }

  /** The offset of each op's value within the frame. */
  function ValueOffs(cmd: Cmd): seq<nat> {
    match cmd
    case One(op) => [HEADER_SIZE + |op.key|]
    case Batch(ops) => PlaceOps(ops, HEADER_SIZE + 2)
  }

  /** `b` holds the value of every op at its offset. */
  ghost predicate ValuesAt(b: bytes, ops: seq<Record>, offs: seq<nat>)
    decreases ops
  {
    if ops == [] then offs == []
    else offs != [] && HoldsAt(b, ops[0].value, offs[0]) && ValuesAt(b, ops[1..], offs[1..])
  }

  /** `b` holds `value` at `off`, and does not end with it: a checksum always follows. */
  predicate HoldsAt(b: bytes, value: bytes, off: nat) { off + |value| < |b| && ReadAt(b, off, |value|) == value }

  lemma FirstValueOfOps(pre: bytes, op: Record, rest: bytes)
    requires Encodable(op) && rest != []
    ensures HoldsAt(pre + (EncodedOp(op) + rest), op.value, |pre| + SUB_HEADER + |op.key|)
  {
    var head := [op.typ] + Sizes(op) + op.key;
    assert EncodedOp(op) == head + (op.value + MetaBytes(op.meta));
    var tail := MetaBytes(op.meta) + rest;
    assert pre + (EncodedOp(op) + rest) == (pre + head) + (op.value + tail);
    ReadAtBehind(pre + head, op.value + tail, 0, |op.value|);
  }

  lemma {:induction false} OpsValuesAt(pre: bytes, ops: seq<Record>, rest: bytes)
    requires AllEncodable(ops) && rest != []
    ensures ValuesAt(pre + (EncodedOps(ops) + rest), ops, PlaceOps(ops, |pre|))
    decreases ops
  {
    hide HoldsAt, EncodedOp, Body;
    if ops != [] {
      var e, t := EncodedOp(ops[0]), EncodedOps(ops[1..]);
      Shift(pre, e, t, rest);
      FirstValueOfOps(pre, ops[0], t + rest);
      OpsValuesAt(pre + e, ops[1..], rest);
      assert PlaceOps(ops, |pre|)[1..] == PlaceOps(ops[1..], |pre + e|);
    }
  }

  lemma Shift(a: bytes, b: bytes, c: bytes, d: bytes)
    ensures a + ((b + c) + d) == (a + b) + (c + d) == a + (b + (c + d))
  {
  }

  lemma FrameIsEncodable(cmd: Cmd)
    requires Writable(cmd)
    ensures Encodable(FrameOf(cmd)) && Normal(FrameOf(cmd)) == FrameOf(cmd)
    ensures AllEncodable(CmdOps(cmd))
  {
    if cmd.One? { assert Prepared(CmdOps(cmd)[0]); }
  }

  function HeadOf(r: Record): (s: bytes)
    requires Encodable(r)
    ensures |s| == HEADER_SIZE
  {
    MAGIC + [r.typ, 0] + Sizes(r)
  }

  lemma HeadThenBody(r: Record) returns (crc: bytes)
    requires Encodable(r)
    ensures Encoded(r) == HeadOf(r) + (Body(r) + crc) && crc != []
  {
    crc := LE(Crc32.CrcValue(Checked(r)), 4);
    assert MAGIC + ([r.typ, 0] + Sizes(r) + Body(r)) + crc == (MAGIC + [r.typ, 0] + Sizes(r)) + (Body(r) + crc);
  }

  lemma OneHoldsValue(head: bytes, op: Record, crc: bytes)
    requires crc != []
    ensures HoldsAt(head + (Body(op) + crc), op.value, |head| + |op.key|)
  {
    var tail := MetaBytes(op.meta) + crc;
    assert head + (Body(op) + crc) == (head + op.key) + (op.value + tail);
    ReadAtBehind(head + op.key, op.value + tail, 0, |op.value|);
  }

  lemma BatchHoldsValues(head: bytes, ops: seq<Record>, crc: bytes)
    requires AllEncodable(ops) && |ops| <= MAX_OPS && crc != []
    ensures ValuesAt(head + (EncodedBatch(ops) + crc), ops, PlaceOps(ops, |head| + 2))
  {
    var count := LE(|ops|, 2);
    Shift(head, count, EncodedOps(ops), crc);
    OpsValuesAt(head + count, ops, crc);
  }

  /** Every value of a command lies in its frame exactly where its disk pointer is computed. */
  lemma FrameHoldsValues(cmd: Cmd)
    requires Writable(cmd)
    ensures Encodable(FrameOf(cmd)) && ValuesAt(Encoded(FrameOf(cmd)), CmdOps(cmd), ValueOffs(cmd))
  {
    FrameIsEncodable(cmd);
    var r := FrameOf(cmd);
    var crc := HeadThenBody(r);
    match cmd
    case One(op) =>
      OneHoldsValue(HeadOf(r), op, crc);
      assert [op][1..] == [] && ValueOffs(cmd)[1..] == [];
    case Batch(ops) =>
      BodyOfBatch(ops);
      BatchHoldsValues(HeadOf(r), ops, crc);
  }

  lemma BodyOfBatch(ops: seq<Record>)
    requires AllEncodable(ops) && |ops| <= MAX_OPS
    ensures Body(Record(TYPE_BATCH, [], EncodedBatch(ops), None, 0)) == EncodedBatch(ops)
  {
  }
}
