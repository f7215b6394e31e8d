/**
 The byte-level layer under the nine wipc messages: base-128 varints, tags, and the flat
 records an UnknownFieldSet keeps.  Sequences of bytes stand for the window between the read
 position of a CodedInputStream and its innermost limit.
 */
module WireFormat {
  type byte = b: int | 0 <= b < 256
  type bytes = seq<byte>

  const TWO_31: int := 0x8000_0000
  const TWO_32: int := 0x1_0000_0000
  const TWO_64: int := 0x1_0000_0000_0000_0000

  // kMaxVarintBytes
  const MAX_VARINT_BYTES: nat := 10

  const VARINT: nat := 0
  const FIXED64: nat := 1
  const LENGTH_DELIMITED: nat := 2
  const START_GROUP: nat := 3
  const END_GROUP: nat := 4
  const FIXED32: nat := 5

  /* ---------- varints ---------- */

  datatype VarintRead = Got(value: nat, rest: bytes) | Truncated | Overlong

  /** Reads at most `left` groups of seven bits, least significant group first. */
  function ReadGroups(bs: bytes, left: nat): (r: VarintRead)
    ensures r.Got? ==> |r.rest| < |bs|
    decreases bs
  {
    if left == 0 then Overlong
    else if bs == [] then Truncated
    else if bs[0] < 128 then Got(bs[0], bs[1..])
    else
      match ReadGroups(bs[1..], left - 1)
      case Got(v, rest) => Got(bs[0] - 128 + 128 * v, rest)
      case r => r
  }

  /** ReadVarint64: bits above the 64th are shifted out. */
  function ReadVarint64(bs: bytes): (r: VarintRead)
    ensures r.Got? ==> |r.rest| < |bs| && r.value < TWO_64
  {
    match ReadGroups(bs, MAX_VARINT_BYTES)
    case Got(v, rest) => Got(v % TWO_64, rest)
    case r => r
  }

  /** ReadVarint32: reads the same bytes as ReadVarint64 and keeps the low 32 bits. */
  function ReadVarint32(bs: bytes): (r: VarintRead)
    ensures r.Got? ==> |r.rest| < |bs| && r.value < TWO_32
  {
    match ReadVarint64(bs)
    case Got(v, rest) => Got(v % TWO_32, rest)
    case r => r
  }

  function EncodeVarint(v: nat): (bs: bytes)
    ensures bs != []
  {
    if v < 128 then [v] else [v % 128 + 128] + EncodeVarint(v / 128)
  }

  /** VarintSize32 / VarintSize64, by thresholds. */
  function VarintSize(v: nat): nat
  {
    if v < 0x80 then 1
    else if v < 0x4000 then 2
    else if v < 0x20_0000 then 3
    else if v < 0x1000_0000 then 4
    else if v < 0x8_0000_0000 then 5
    else if v < 0x400_0000_0000 then 6
    else if v < 0x2_0000_0000_0000 then 7
    else if v < 0x100_0000_0000_0000 then 8
    else if v < 0x8000_0000_0000_0000 then 9
    else 10
  }

  lemma {:induction false} VarintSizeIsLength(v: nat)
    requires v < TWO_64
    ensures |EncodeVarint(v)| == VarintSize(v) <= MAX_VARINT_BYTES
    decreases v
  {
    if v >= 128 {
      VarintSizeIsLength(v / 128);
    }
  }

  /** The number that groups of seven bits stand for, the lowest first. */
  function GroupsValue(bs: bytes): nat
  {
    if bs == [] then 0 else bs[0] % 128 + 128 * GroupsValue(bs[1..])
  }

  /** A varint is groups of seven bits, all but the last with bit 7 set, and without superfluous groups. */
  lemma {:induction false} VarintIsGroups(v: nat)
    ensures var bs := EncodeVarint(v);
            && GroupsValue(bs) == v && bs[|bs| - 1] < 128 && (|bs| > 1 ==> bs[|bs| - 1] != 0)
            && forall k :: 0 <= k < |bs| - 1 ==> bs[k] >= 128
    decreases v
  {
    if v >= 128 {
      VarintIsGroups(v / 128);
      var bs := EncodeVarint(v);
      assert bs[1..] == EncodeVarint(v / 128);
      assert forall k :: 0 <= k < |bs| - 1 ==> bs[k + 1] == bs[1..][k];
    }
  }

  /** The first byte below 128 is byte k. */
  predicate EndsAt(bs: bytes, k: nat)
  {
    k < |bs| && bs[k] < 128 && forall j :: 0 <= j < k ==> bs[j] >= 128
  }

  lemma {:induction false} GroupsRead(bs: bytes, left: nat, k: nat)
    requires k < left && EndsAt(bs, k)
    ensures ReadGroups(bs, left) == Got(GroupsValue(bs[..k + 1]), bs[k + 1..])
    decreases k
  {
    var part := bs[..k + 1];
    assert part[0] == bs[0] && part[1..] == bs[1..][..k];
    if k == 0 {
      assert GroupsValue(part[1..]) == 0;
    } else {
      assert forall j :: 0 <= j < k ==> bs[1..][j] == bs[j + 1];
      GroupsRead(bs[1..], left - 1, k - 1);
    }
  }

  lemma {:induction false} GroupsUnread(bs: bytes, left: nat)
    requires forall j :: 0 <= j < |bs| && j < left ==> bs[j] >= 128
    ensures ReadGroups(bs, left) == if |bs| < left then Truncated else Overlong
    decreases left
  {
    if left > 0 && bs != [] {
      assert forall j :: 0 <= j < |bs| - 1 ==> bs[1..][j] == bs[j + 1];
      GroupsUnread(bs[1..], left - 1);
    }
  }

  lemma {:induction false} FirstEnd(bs: bytes, n: nat) returns (k: nat)
    requires exists j :: 0 <= j < |bs| && j < n && bs[j] < 128
    ensures k < n && EndsAt(bs, k)
  {
    k := 0;
    while bs[k] >= 128
      invariant k < |bs| && k < n && forall j :: 0 <= j < k ==> bs[j] >= 128
      decreases |bs| - k
    {
      k := k + 1;
    }
  }

  /** A varint is read exactly if one of the first ten bytes is below 128: the number of its groups, cut to 64 bits. */
  lemma VarintReadIff(bs: bytes)
    ensures ReadVarint64(bs).Got? <==> exists k :: 0 <= k < 10 && EndsAt(bs, k)
    ensures forall k :: 0 <= k < 10 && EndsAt(bs, k) ==>
              ReadVarint64(bs) == Got(GroupsValue(bs[..k + 1]) % 0x1_0000_0000_0000_0000, bs[k + 1..])
    ensures !ReadVarint64(bs).Got? ==> (ReadVarint64(bs).Truncated? <==> |bs| < 10)
  {
    hide ReadGroups, GroupsValue;
    forall k | 0 <= k < 10 && EndsAt(bs, k)
      ensures ReadGroups(bs, 10) == Got(GroupsValue(bs[..k + 1]), bs[k + 1..])
    {
      GroupsRead(bs, 10, k);
    }
    if j :| 0 <= j < |bs| && j < 10 && bs[j] < 128 {
      var k := FirstEnd(bs, 10);
    } else {
      GroupsUnread(bs, 10);
    }
  }

  lemma GroupsStep(bs: bytes, left: nat)
    requires left > 0 && bs != []
    ensures var r := ReadGroups(bs[1..], left - 1);
            ReadGroups(bs, left) ==
              if bs[0] < 128 then Got(bs[0], bs[1..])
              else if r.Got? then Got(bs[0] - 128 + 128 * r.value, r.rest)
              else r
  {
  }

  lemma {:induction false} GroupsRoundTrip(v: nat, tail: bytes, left: nat)
    requires |EncodeVarint(v)| <= left
    ensures ReadGroups(EncodeVarint(v) + tail, left) == Got(v, tail)
    decreases v
  {
    var bs := EncodeVarint(v) + tail;
    if v < 128 {
      assert bs[1..] == tail;
    } else {
      GroupsRoundTrip(v / 128, tail, left - 1);
      assert bs[1..] == EncodeVarint(v / 128) + tail;
    }
  }

  lemma GroupsAreVarint(bs: bytes, v: nat, rest: bytes)
    requires ReadGroups(bs, MAX_VARINT_BYTES) == Got(v, rest) && v < TWO_64
    ensures ReadVarint64(bs) == Got(v, rest)
  {
  }

  /** Base 128 varints survive encoding and decoding, whatever follows them. */
  lemma VarintRoundTrip(v: nat, tail: bytes)
    requires v < TWO_64
    ensures ReadVarint64(EncodeVarint(v) + tail) == Got(v, tail)
    ensures v < TWO_32 ==> ReadVarint32(EncodeVarint(v) + tail) == Got(v, tail)
  {
    hide EncodeVarint, ReadGroups;
    VarintSizeIsLength(v);
    GroupsRoundTrip(v, tail, MAX_VARINT_BYTES);
    var bs := EncodeVarint(v) + tail;
    GroupsAreVarint(bs, v, tail);
  }

  lemma {:induction false} GroupsAppend(a: bytes, b: bytes, left: nat)
    requires ReadGroups(a, left).Got?
    ensures ReadGroups(a + b, left) == Got(ReadGroups(a, left).value, ReadGroups(a, left).rest + b)
    decreases left
  {
    assert (a + b)[1..] == a[1..] + b;
    if a[0] >= 128 {
      GroupsAppend(a[1..], b, left - 1);
    }
  }

  lemma VarintAppend(a: bytes, b: bytes)
    requires ReadVarint64(a).Got?
    ensures ReadVarint64(a + b) == Got(ReadVarint64(a).value, ReadVarint64(a).rest + b)
  {
    GroupsAppend(a, b, MAX_VARINT_BYTES);
  }

  /* ---------- tags ---------- */

  function MakeTag(num: nat, wireType: nat): nat
  {
    8 * num + wireType
  }

  datatype TagRead =
    | Tag(num: nat, wireType: nat, rest: bytes)
    | AtLimit
    | NoTag(rest: bytes)     // ReadTag answered 0 away from the limit: a zero or unreadable tag

  /** ReadTag: 0 is also the answer at the end of the window and for an unreadable varint. */
  function ReadTag(bs: bytes): (r: TagRead)
    ensures r.AtLimit? <==> bs == []
    ensures r.Tag? ==> |r.rest| < |bs| && r.wireType < 8 && r.num < TWO_32 / 8 && MakeTag(r.num, r.wireType) > 0
    ensures r.NoTag? ==> |r.rest| <= |bs|
  {
    if bs == [] then AtLimit
    else
      match ReadVarint32(bs)
      case Got(0, rest) => NoTag(rest)
      case Got(v, rest) => Tag(v / 8, v % 8, rest)
      case Truncated => NoTag([])
      case Overlong => NoTag(bs)
  }

  lemma TagRoundTrip(num: nat, wireType: nat, tail: bytes)
    requires num < TWO_32 / 8 && wireType < 8 && MakeTag(num, wireType) > 0
    ensures ReadTag(EncodeVarint(MakeTag(num, wireType)) + tail) == Tag(num, wireType, tail)
  {
    VarintRoundTrip(MakeTag(num, wireType), tail);
  }

  lemma TagAppend(a: bytes, b: bytes)
    requires ReadTag(a).Tag?
    ensures ReadTag(a + b) == ReadTag(a).(rest := ReadTag(a).rest + b)
  {
    VarintAppend(a, b);
  }

  /* ---------- records ---------- */

  /** One field on the wire; also one entry of an UnknownFieldSet. */
  datatype Record =
    | Varint(num: nat, value: nat)
    | Fixed64(num: nat, raw: bytes)
    | Delimited(num: nat, raw: bytes)
    | Group(num: nat, items: seq<Record>)
    | Fixed32(num: nat, raw: bytes)

  function WireTypeOf(r: Record): nat
  {
    match r
    case Varint(_, _) => VARINT
    case Fixed64(_, _) => FIXED64
    case Delimited(_, _) => LENGTH_DELIMITED
    case Group(_, _) => START_GROUP
    case Fixed32(_, _) => FIXED32
  }

  /** What fits the C++ types of an UnknownField and has a tag different from 0. */
  predicate WellFormed(r: Record)
  {
    && r.num < TWO_32 / 8
    && match r
       case Varint(n, v) => n > 0 && v < TWO_64
       case Fixed64(_, raw) => |raw| == 8
       case Delimited(_, raw) => |raw| < TWO_32
       case Group(_, items) => AllWellFormed(items)
       case Fixed32(_, raw) => |raw| == 4
  }

  predicate AllWellFormed(rs: seq<Record>)
  {
    forall r | r in rs :: WellFormed(r)
  }

  function Payload(r: Record): bytes
    decreases r, 0
  {
    match r
    case Varint(_, v) => EncodeVarint(v)
    case Fixed64(_, raw) => raw
    case Delimited(_, raw) => EncodeVarint(|raw|) + raw
    case Group(n, items) => EncodeAll(items) + EncodeVarint(MakeTag(n, END_GROUP))
    case Fixed32(_, raw) => raw
  }

  function Encode(r: Record): (bs: bytes)
    ensures bs != []
    decreases r, 1
  {
    EncodeVarint(MakeTag(r.num, WireTypeOf(r))) + Payload(r)
  }

  function EncodeAll(rs: seq<Record>): bytes
    decreases rs, 2
  {
    if rs == [] then [] else Encode(rs[0]) + EncodeAll(rs[1..])
  }

  /** The five kinds of record and the wire types they have on the wire. */
  lemma EncodedAs(r: Record)
    ensures match r
            case Varint(n, v) => Encode(r) == EncodeVarint(8 * n) + EncodeVarint(v)
            case Fixed64(n, raw) => Encode(r) == EncodeVarint(8 * n + 1) + raw
            case Delimited(n, raw) => Encode(r) == EncodeVarint(8 * n + 2) + (EncodeVarint(|raw|) + raw)
            case Group(n, items) =>
              Encode(r) == EncodeVarint(8 * n + 3) + (EncodeAll(items) + EncodeVarint(8 * n + 4))
            case Fixed32(n, raw) => Encode(r) == EncodeVarint(8 * n + 5) + raw
  {
    hide EncodeVarint;
  }

  lemma ConcatAssoc<T>(a: seq<T>, b: seq<T>, c: seq<T>)
    ensures (a + b) + c == a + (b + c)
  {
  }

  lemma {:induction false} EncodeAllAppend(a: seq<Record>, b: seq<Record>)
    ensures EncodeAll(a + b) == EncodeAll(a) + EncodeAll(b)
    decreases a
  {
    hide Encode;
    if a == [] {
      assert a + b == b;
    } else {
      EncodeAllAppend(a[1..], b);
      assert (a + b)[0] == a[0] && (a + b)[1..] == a[1..] + b;
      ConcatAssoc(Encode(a[0]), EncodeAll(a[1..]), EncodeAll(b));
    }
  }

  datatype Stop =
    | AtEnd                  // the window ended between two records
    | ZeroTag                // ReadTag answered 0 before the end
    | EndGroup(num: nat)     // an END_GROUP tag
    | Broken                 // a payload could not be read

  datatype Scan = Scan(recs: seq<Record>, stop: Stop, rest: bytes)

  datatype PayloadRead = Field(r: Record, rest: bytes) | NoField

  function Prepend(rs: seq<Record>, s: Scan): (r: Scan)
    ensures r.stop == s.stop && r.rest == s.rest
  {
    Scan(rs + s.recs, s.stop, s.rest)
  }

  /**
   The records of a window up to the first thing that is not one.  A length that overruns the
   window is an error, except for the numbers in `lax`: those are read as sub-messages, whose
   PushLimit is silently cut down to the enclosing limit.
   */
  function ScanRecords(bs: bytes, lax: set<nat>): (s: Scan)
    ensures |s.rest| <= |bs|
    ensures s.stop.AtEnd? ==> s.rest == []
    ensures s.stop.EndGroup? ==> |s.rest| < |bs|
    decreases |bs|, 0
  {
    match ReadTag(bs)
    case AtLimit => Scan([], AtEnd, [])
    case NoTag(rest) => Scan([], ZeroTag, rest)
    case Tag(num, wireType, rest) =>
      if wireType == END_GROUP then Scan([], EndGroup(num), rest)
      else
        match ReadPayload(num, wireType, rest, lax)
        case NoField => Scan([], Broken, [])
        case Field(r, after) => Prepend([r], ScanRecords(after, lax))
  }

  /** SkipField: the payload that follows a tag. */
  function ReadPayload(num: nat, wireType: nat, bs: bytes, lax: set<nat>): (p: PayloadRead)
    ensures p.Field? ==> |p.rest| < |bs| && p.r.num == num && WireTypeOf(p.r) == wireType
    decreases |bs|, 1
  {
    if wireType == VARINT then
      match ReadVarint64(bs)
      case Got(v, rest) => Field(Varint(num, v), rest)
      case _ => NoField
    else if wireType == FIXED64 then
      if |bs| >= 8 then Field(Fixed64(num, bs[..8]), bs[8..]) else NoField
    else if wireType == LENGTH_DELIMITED then
      match ReadVarint32(bs)
      case Got(n, rest) =>
        if n <= |rest| then Field(Delimited(num, rest[..n]), rest[n..])
        else if num in lax then Field(Delimited(num, rest), [])
        else NoField
      case _ => NoField
    else if wireType == START_GROUP then
      var s := ScanRecords(bs, {});
      if s.stop == EndGroup(num) then Field(Group(num, s.recs), s.rest) else NoField
    else if wireType == FIXED32 then
      if |bs| >= 4 then Field(Fixed32(num, bs[..4]), bs[4..]) else NoField
    else NoField
  }

  lemma PrependTwice(a: seq<Record>, b: seq<Record>, s: Scan)
    ensures Prepend(a, Prepend(b, s)) == Prepend(a + b, s)
  {
    ConcatAssoc(a, b, s.recs);
  }

  lemma ScanStops(bs: bytes, lax: set<nat>)
    ensures var tag := ReadTag(bs);
            ScanRecords(bs, lax) ==
              if tag.AtLimit? then Scan([], AtEnd, [])
              else if tag.NoTag? then Scan([], ZeroTag, tag.rest)
              else if tag.wireType == END_GROUP then Scan([], EndGroup(tag.num), tag.rest)
              else if ReadPayload(tag.num, tag.wireType, tag.rest, lax).NoField? then Scan([], Broken, [])
              else ScanRecords(bs, lax)
  {
  }

  lemma ScanStep(bs: bytes, lax: set<nat>, num: nat, wireType: nat, rest: bytes, r: Record, after: bytes)
    requires ReadTag(bs) == Tag(num, wireType, rest) && wireType != END_GROUP
    requires ReadPayload(num, wireType, rest, lax) == Field(r, after)
    ensures ScanRecords(bs, lax) == Prepend([r], ScanRecords(after, lax))
  {
  }

  lemma {:induction false} PayloadWellFormed(num: nat, wireType: nat, bs: bytes, lax: set<nat>)
    requires num < TWO_32 / 8 && MakeTag(num, wireType) > 0
    requires |bs| < TWO_32
    ensures var p := ReadPayload(num, wireType, bs, lax); p.Field? ==> WellFormed(p.r)
    decreases |bs|, 1
  {
    if wireType == START_GROUP {
      ScanWellFormed(bs, {});
    }
  }

  /** Every record a scan returns fits an UnknownFieldSet. */
  lemma {:induction false} ScanWellFormed(bs: bytes, lax: set<nat>)
    requires |bs| < TWO_32
    ensures AllWellFormed(ScanRecords(bs, lax).recs)
    decreases |bs|, 0
  {
    var tag := ReadTag(bs);
    if tag.Tag? && tag.wireType != END_GROUP {
      PayloadWellFormed(tag.num, tag.wireType, tag.rest, lax);
      var p := ReadPayload(tag.num, tag.wireType, tag.rest, lax);
      if p.Field? {
        ScanWellFormed(p.rest, lax);
      }
    }
  }

  lemma DelimitedRoundTrip(num: nat, raw: bytes, tail: bytes, lax: set<nat>)
    requires |raw| < TWO_32
    ensures ReadPayload(num, LENGTH_DELIMITED, EncodeVarint(|raw|) + raw + tail, lax) == Field(Delimited(num, raw), tail)
  {
    VarintRoundTrip(|raw|, raw + tail);
    ConcatAssoc(EncodeVarint(|raw|), raw, tail);
    assert (raw + tail)[..|raw|] == raw && (raw + tail)[|raw|..] == tail;
  }

  lemma GroupRoundTrip(num: nat, items: seq<Record>, tail: bytes, lax: set<nat>)
    requires num < TWO_32 / 8
    requires var end := EncodeVarint(MakeTag(num, END_GROUP));
             ScanRecords(EncodeAll(items) + (end + tail), {}) == Prepend(items, ScanRecords(end + tail, {}))
    ensures ReadPayload(num, START_GROUP, Payload(Group(num, items)) + tail, lax) == Field(Group(num, items), tail)
  {
    var end := EncodeVarint(MakeTag(num, END_GROUP));
    ConcatAssoc(EncodeAll(items), end, tail);
    TagRoundTrip(num, END_GROUP, tail);
    assert ScanRecords(end + tail, {}) == Scan([], EndGroup(num), tail);
  }

  lemma {:induction false} PayloadRoundTrip(r: Record, tail: bytes, lax: set<nat>)
    requires WellFormed(r)
    ensures ReadPayload(r.num, WireTypeOf(r), Payload(r) + tail, lax) == Field(r, tail)
    decreases r, 0
  {
    match r
    case Varint(_, v) =>
      VarintRoundTrip(v, tail);
    case Fixed64(_, raw) =>
      assert (raw + tail)[..8] == raw && (raw + tail)[8..] == tail;
    case Delimited(n, raw) =>
      DelimitedRoundTrip(n, raw, tail, lax);
    case Group(n, items) =>
      ScanEncode(items, EncodeVarint(MakeTag(n, END_GROUP)) + tail, {});
      GroupRoundTrip(n, items, tail, lax);
    case Fixed32(_, raw) =>
      assert (raw + tail)[..4] == raw && (raw + tail)[4..] == tail;
  }

  /** Writing records and scanning them again gives the same records, groups included. */
  lemma {:induction false} ScanEncode(rs: seq<Record>, tail: bytes, lax: set<nat>)
    requires AllWellFormed(rs)
    ensures ScanRecords(EncodeAll(rs) + tail, lax) == Prepend(rs, ScanRecords(tail, lax))
    decreases rs, 1
  {
    hide Payload, ReadPayload, ReadTag, EncodeVarint;
    if rs == [] {
      assert EncodeAll(rs) + tail == tail;
    } else {
      var r, after := rs[0], EncodeAll(rs[1..]) + tail;
      var tag := EncodeVarint(MakeTag(r.num, WireTypeOf(r)));
      PayloadRoundTrip(r, after, lax);
      TagRoundTrip(r.num, WireTypeOf(r), Payload(r) + after);
      ConcatAssoc(Encode(r), EncodeAll(rs[1..]), tail);
      ConcatAssoc(tag, Payload(r), after);
      ScanStep(EncodeAll(rs) + tail, lax, r.num, WireTypeOf(r), Payload(r) + after, r, after);
      ScanEncode(rs[1..], tail, lax);
      PrependTwice([r], rs[1..], ScanRecords(tail, lax));
      assert [r] + rs[1..] == rs;
    }
  }

  /** A group is only closed by an end of its own number, and the wire types 6 and 7 stand for nothing. */
  lemma ForeignEnd(num: nat, items: seq<Record>, other: nat, tail: bytes, lax: set<nat>)
    requires 0 < num < TWO_32 / 8 && other < TWO_32 / 8 && other != num && AllWellFormed(items)
    ensures ScanRecords(EncodeVarint(8 * num + 3) + (EncodeAll(items) + (EncodeVarint(8 * other + 4) + tail)), lax).stop
         == Broken
    ensures ReadPayload(num, 6, tail, lax) == ReadPayload(num, 7, tail, lax) == NoField
  {
    hide EncodeVarint, EncodeAll, WellFormed, ReadTag;
    var end := EncodeVarint(8 * other + 4) + tail;
    var payload := EncodeAll(items) + end;
    TagRoundTrip(num, START_GROUP, payload);
    TagRoundTrip(other, END_GROUP, tail);
    ScanEncode(items, end, {});
    ScanStops(end, {});
    assert ReadPayload(num, START_GROUP, payload, lax) == NoField;
    ScanStops(EncodeVarint(8 * num + 3) + payload, lax);
  }

  lemma {:induction false} PayloadAppend(num: nat, wireType: nat, a: bytes, b: bytes, lax: set<nat>)
    requires ReadPayload(num, wireType, a, {}).Field?
    ensures var p := ReadPayload(num, wireType, a, {});
            ReadPayload(num, wireType, a + b, lax) == Field(p.r, p.rest + b)
    decreases |a|, 1
  {
    if wireType == VARINT || wireType == LENGTH_DELIMITED {
      VarintAppend(a, b);
      if wireType == LENGTH_DELIMITED {
        var v := ReadVarint32(a);
        assert (v.rest + b)[..v.value] == v.rest[..v.value];
        assert (v.rest + b)[v.value..] == v.rest[v.value..] + b;
      }
    } else if wireType == FIXED64 {
      assert (a + b)[..8] == a[..8] && (a + b)[8..] == a[8..] + b;
    } else if wireType == FIXED32 {
      assert (a + b)[..4] == a[..4] && (a + b)[4..] == a[4..] + b;
    } else {
      ScanAppend(a, b, {});
    }
  }

  /** A window that the guide's strict reading accepts keeps its records when bytes are appended. */
  lemma {:induction false} ScanAppend(a: bytes, b: bytes, lax: set<nat>)
    ensures var s := ScanRecords(a, {});
            && (s.stop.AtEnd? ==> ScanRecords(a + b, lax) == Prepend(s.recs, ScanRecords(b, lax)))
            && (s.stop.EndGroup? ==> ScanRecords(a + b, lax) == s.(rest := s.rest + b))
    decreases |a|, 0
  {
    var tag := ReadTag(a);
    if a == [] {
      assert a + b == b;
    } else if tag.Tag? {
      TagAppend(a, b);
      if tag.wireType != END_GROUP {
        var p := ReadPayload(tag.num, tag.wireType, tag.rest, {});
        if p.Field? {
          PayloadAppend(tag.num, tag.wireType, tag.rest, b, lax);
          ScanAppend(p.rest, b, lax);
          ScanStep(a + b, lax, tag.num, tag.wireType, tag.rest + b, p.r, p.rest + b);
          ScanStep(a, {}, tag.num, tag.wireType, tag.rest, p.r, p.rest);
          PrependTwice([p.r], ScanRecords(p.rest, {}).recs, ScanRecords(b, lax));
        }
      }
    }
  }

  /* ---------- sizes ---------- */

  /** ComputeUnknownFieldsSize */
  function UnknownSize(rs: seq<Record>): nat
    decreases rs, 1
  {
    if rs == [] then 0 else RecordSize(rs[0]) + UnknownSize(rs[1..])
  }

  function RecordSize(r: Record): nat
    decreases r, 0
  {
    VarintSize(MakeTag(r.num, WireTypeOf(r))) +
    match r
    case Varint(_, v) => VarintSize(v)
    case Fixed64(_, _) => 8
    case Delimited(_, raw) => VarintSize(|raw|) + |raw|
    case Group(n, items) => UnknownSize(items) + VarintSize(MakeTag(n, END_GROUP))
    case Fixed32(_, _) => 4
  }

  lemma {:induction false} UnknownSizeIsLength(rs: seq<Record>)
    requires AllWellFormed(rs)
    ensures UnknownSize(rs) == |EncodeAll(rs)|
    decreases rs, 1
  {
    if rs != [] {
      RecordSizeIsLength(rs[0]);
      UnknownSizeIsLength(rs[1..]);
    }
  }

  lemma {:induction false} RecordSizeIsLength(r: Record)
    requires WellFormed(r)
    ensures RecordSize(r) == |Encode(r)|
    decreases r, 0
  {
    VarintSizeIsLength(MakeTag(r.num, WireTypeOf(r)));
    match r
    case Varint(_, v) => VarintSizeIsLength(v);
    case Delimited(_, raw) => VarintSizeIsLength(|raw|);
    case Group(n, items) =>
      UnknownSizeIsLength(items);
      VarintSizeIsLength(MakeTag(n, END_GROUP));
    case _ =>
  }
}
