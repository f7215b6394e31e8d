/**
 CodedInputStream: a position in the bytes the socket will deliver, the innermost limit, and
 how much of what lies ahead is already buffered.  Where a refill stops is left open: any
 buffer boundary between the position and the end of the window may be chosen.  Nothing behind
 the first TOTAL_BYTES_LIMIT bytes of a stream is ever read.
 */
module CodedStreams {
  import opened WireFormat

  const INT_MAX: int := 0x7fff_ffff

  /** kDefaultTotalBytesLimit: 64 MiB over the whole life of a stream. */
  const TOTAL_BYTES_LIMIT: int := 0x400_0000

  function Min(a: int, b: int): int
  {
    if a < b then a else b
  }

  class CodedInputStream {
    const data: bytes
    var pos: nat
    var limit: int              // current_limit_, INT_MAX when none is pushed
    var buffered: nat           // end of the buffered bytes that lie before the limit
    var legitimateEnd: bool     // legitimate_message_end_
    var lastTag: nat            // last_tag_

    /** Where reading stops: the innermost limit, the end of the data or the total limit, whichever comes first. */
    function End(): int
      reads this
    {
      Min(Min(limit, |data|), TOTAL_BYTES_LIMIT)
    }

    /** Reading stops at the total limit, before the innermost limit and with data left or none to come. */
    ghost predicate Cut()
      reads this
    {
      limit > TOTAL_BYTES_LIMIT && |data| >= TOTAL_BYTES_LIMIT
    }

    ghost predicate Valid()
      reads this
    {
      && pos <= buffered <= End()
      && pos <= limit <= INT_MAX
    }

    /** The bytes that can still be read. */
    ghost function Window(): bytes
      requires Valid()
      reads this
    {
      data[pos..End()]
    }

    constructor (data: bytes)
      ensures Valid() && this.data == data && pos == 0 && limit == INT_MAX && !legitimateEnd
      ensures Window() == data[..Min(|data|, TOTAL_BYTES_LIMIT)]
    {
      this.data := data;
      pos, limit, buffered, legitimateEnd, lastTag := 0, INT_MAX, 0, false, 0;
    }

    /** Refresh: some further bytes may become available. */
    method Refill()
      requires Valid()
      modifies this`buffered
      ensures Valid()
    {
      var b: nat :| pos <= b <= End();
      buffered := b;
    }

    method Advance(n: nat)
      requires Valid() && pos + n <= End()
      modifies this`pos, this`buffered
      ensures Valid() && pos == old(pos) + n && Window() == old(Window())[n..]
    {
      pos := pos + n;
      if buffered < pos {
        buffered := pos;
      }
      Refill();
    }

    method PushLimit(byteLimit: nat) returns (oldLimit: int)
      requires Valid() && byteLimit < TWO_32
      modifies this`limit, this`buffered
      ensures Valid() && oldLimit == old(limit)
      ensures Window() == old(Window())[..Min(byteLimit, |old(Window())|)]
      ensures byteLimit <= |old(Window())| ==> limit == pos + byteLimit
      ensures limit <= oldLimit && End() == old(pos) + Min(byteLimit, old(End()) - old(pos))
    {
      oldLimit := limit;
      // a value of 2^31 or more is a negative int in the source and takes the same branch
      limit := if byteLimit <= INT_MAX - pos then pos + byteLimit else INT_MAX;
      limit := Min(limit, oldLimit);
      buffered := Min(buffered, limit);
      assert data[pos..old(End())][..End() - pos] == data[pos..End()];
    }

    method PopLimit(oldLimit: int)
      requires Valid() && limit <= oldLimit <= INT_MAX
      modifies this`limit, this`buffered, this`legitimateEnd
      ensures Valid() && limit == oldLimit && !legitimateEnd
    {
      limit := oldLimit;
      legitimateEnd := false;
      Refill();
    }

    /** ReadVarint64Slow: byte by byte, giving up after kMaxVarintBytes. */
    method ReadVarint64() returns (ok: bool, value: nat)
      requires Valid()
      modifies this`pos, this`buffered
      ensures Valid()
      ensures ok <==> WireFormat.ReadVarint64(old(Window())).Got?
      ensures ok ==> WireFormat.ReadVarint64(old(Window())) == Got(value, Window())
    {
      hide ReadGroups, Combine;
      ghost var all := Window();
      var count: nat, result: nat, scale: nat := 0, 0, 1;
      ghost var now := ReadGroups(all, MAX_VARINT_BYTES);
      ghost var whole := now;
      CombineNothing(if now.Got? then now.value else 0);
      while true
        invariant Valid() && count <= MAX_VARINT_BYTES
        invariant now == ReadGroups(Window(), MAX_VARINT_BYTES - count)
        invariant now.Got? == whole.Got?
        invariant now.Got? ==> whole == Got(Combine(result, scale, now.value), now.rest)
        decreases MAX_VARINT_BYTES - count
      {
        if count == MAX_VARINT_BYTES {
          NothingRead(Window());
          return false, 0;
        }
        if pos == End() {
          NothingRead(Window());
          return false, 0;
        }
        var b: nat := data[pos];
        ghost var before := Window();
        GroupsStep(before, MAX_VARINT_BYTES - count);
        Advance(1);
        assert before[0] == b && before[1..] == Window();
        if b < 128 {
          CombineIs(result, scale, b);
          ok, value := true, (result + scale * b) % TWO_64;
          return;
        }
        now := ReadGroups(Window(), MAX_VARINT_BYTES - count - 1);
        CombineStep(result, scale, b - 128, if now.Got? then now.value else 0);
        result, scale, count := result + scale * (b - 128), scale * 128, count + 1;
      }
    }

    static lemma NothingRead(bs: bytes)
      ensures ReadGroups(bs, 0).Overlong? && forall left: nat :: !ReadGroups([], left).Got?
    {
    }

    static ghost function Combine(result: nat, scale: nat, v: nat): nat
    {
      result + scale * v
    }

    static lemma CombineNothing(v: nat)
      ensures Combine(0, 1, v) == v
    {
    }

    static lemma CombineIs(result: nat, scale: nat, v: nat)
      ensures Combine(result, scale, v) == result + scale * v
    {
    }

    static lemma CombineStep(result: nat, scale: nat, low: nat, v: nat)
      ensures Combine(result, scale, low + 128 * v) == Combine(result + scale * low, scale * 128, v)
    {
      assert scale * (low + 128 * v) == scale * low + scale * (128 * v);
      assert scale * (128 * v) == (scale * 128) * v;
    }

    method ReadVarint32() returns (ok: bool, value: nat)
      requires Valid()
      modifies this`pos, this`buffered
      ensures Valid()
      ensures ok <==> WireFormat.ReadVarint32(old(Window())).Got?
      ensures ok ==> WireFormat.ReadVarint32(old(Window())) == Got(value, Window())
      ensures value < TWO_32
    {
      ok, value := ReadVarint64();
      value := value % TWO_32;
    }

    /** ReadRaw and ReadString: exactly n bytes or failure. */
    method ReadBytes(n: nat) returns (ok: bool, raw: bytes)
      requires Valid()
      modifies this`pos, this`buffered
      ensures Valid()
      ensures ok <==> n <= |old(Window())|
      ensures ok ==> raw == old(Window())[..n] && Window() == old(Window())[n..]
    {
      if n > End() - pos {
        return false, [];
      }
      ok, raw := true, data[pos..pos + n];
      assert raw == Window()[..n];
      Advance(n);
    }

    /**
     ReadTag: 0 at the limit, for a zero tag and for an unreadable one. The total limit is not a
     place where a message may end.
     */
    method ReadTag() returns (tag: nat)
      requires Valid()
      modifies this
      ensures Valid() && limit == old(limit) && lastTag == tag
      ensures match WireFormat.ReadTag(old(Window()))
              case AtLimit => tag == 0 && legitimateEnd == !Cut() && Window() == []
              case NoTag(rest) => tag == 0 && legitimateEnd == old(legitimateEnd) && Window() == rest
              case Tag(num, wireType, rest) =>
                tag == MakeTag(num, wireType) && legitimateEnd == old(legitimateEnd) && Window() == rest
    {
      ghost var all := Window();
      if pos == End() {
        tag, lastTag := 0, 0;
        legitimateEnd := pos < TOTAL_BYTES_LIMIT || limit == TOTAL_BYTES_LIMIT;
        return;
      }
      var start := pos;
      var ok, v := ReadVarint32();
      if ok {
        tag := v;
      } else {
        tag := 0;
        // an unterminated varint is consumed to the window's end; one of more than ten bytes
        // is rejected from the buffer without moving
        if ReadGroups(data[start..End()], MAX_VARINT_BYTES).Truncated? {
          pos, buffered := End(), End();
        } else {
          pos, buffered := start, start;
          Refill();
        }
        assert Window() == if WireFormat.ReadVarint32(all).Truncated? then [] else all;
      }
      lastTag := tag;
    }

    /** ExpectTag: true only when the one-byte tag is next and already buffered. */
    method ExpectTag(tag: nat) returns (found: bool)
      requires Valid() && 0 < tag < 128
      modifies this`pos, this`buffered
      ensures Valid()
      ensures found ==> WireFormat.ReadTag(old(Window())) == Tag(tag / 8, tag % 8, Window())
      ensures !found ==> Window() == old(Window())
    {
      found := pos < buffered && data[pos] == tag;
      if found {
        ghost var all := Window();
        Advance(1);
        assert all[0] == tag && all[1..] == Window();
        assert ReadGroups(all, MAX_VARINT_BYTES) == Got(tag, Window());
      }
    }

    /** ExpectAtEnd: true only at a limit; at the total limit only when bytes behind it are buffered. */
    method ExpectAtEnd() returns (atEnd: bool)
      requires Valid()
      modifies this`lastTag, this`legitimateEnd
      ensures Valid()
      ensures atEnd ==> Window() == [] && legitimateEnd
      ensures !atEnd ==> legitimateEnd == old(legitimateEnd)
    {
      var behind: bool := *;
      atEnd := pos == buffered
        && (pos == limit || (pos == TOTAL_BYTES_LIMIT && TOTAL_BYTES_LIMIT < |data| && behind));
      if atEnd {
        lastTag, legitimateEnd := 0, true;
      }
    }
  }

  /** SkipMessage: the fields of a group, up to an END_GROUP tag or a 0 from ReadTag. */
  method SkipMessage(input: CodedInputStream) returns (ok: bool, items: seq<Record>)
    requires input.Valid() && !input.legitimateEnd
    modifies input
    ensures input.Valid() && input.limit == old(input.limit)
    ensures var s := ScanRecords(old(input.Window()), {});
            && ok == !s.stop.Broken?
            && (ok ==>
                  && items == s.recs && input.Window() == s.rest
                  && input.legitimateEnd == (s.stop.AtEnd? && !input.Cut())
                  && input.lastTag == if s.stop.EndGroup? then MakeTag(s.stop.num, END_GROUP) else 0)
    decreases |input.Window()|, 0
  {
    hide ReadPayload, ReadTag, ScanRecords;
    ghost var all := ScanRecords(input.Window(), {});
    items := [];
    while true
      invariant input.Valid() && input.limit == old(input.limit) && !input.legitimateEnd
      invariant |input.Window()| <= |old(input.Window())|
      invariant all == Prepend(items, ScanRecords(input.Window(), {}))
      decreases |input.Window()|
    {
      ghost var before := input.Window();
      ScanStops(before, {});
      var tag := input.ReadTag();
      if tag == 0 || tag % 8 == END_GROUP {
        return true, items;
      }
      ghost var rest := input.Window();
      var r;
      ok, r := SkipField(tag / 8, tag % 8, input);
      if !ok {
        return;
      }
      ScanStep(before, {}, tag / 8, tag % 8, rest, r, input.Window());
      PrependTwice(items, [r], ScanRecords(input.Window(), {}));
      items := items + [r];
    }
  }

  /** SkipField: reads the payload of an unknown field into a record. */
  method SkipField(num: nat, wireType: nat, input: CodedInputStream) returns (ok: bool, r: Record)
    requires input.Valid() && !input.legitimateEnd
    modifies input
    ensures input.Valid() && input.limit == old(input.limit)
    ensures ok <==> ReadPayload(num, wireType, old(input.Window()), {}).Field?
    ensures ok ==> !input.legitimateEnd
    ensures ok ==> ReadPayload(num, wireType, old(input.Window()), {}) == Field(r, input.Window())
    decreases |input.Window()|, 1
  {
    hide ReadGroups, ScanRecords;
    r := Varint(num, 0);
    if wireType == VARINT {
      var v;
      ok, v := input.ReadVarint64();
      r := Varint(num, v);
    } else if wireType == FIXED64 {
      var raw;
      ok, raw := input.ReadBytes(8);
      r := Fixed64(num, raw);
    } else if wireType == LENGTH_DELIMITED {
      var size, raw;
      ok, size := input.ReadVarint32();
      if ok {
        ok, raw := input.ReadBytes(size);
        r := Delimited(num, raw);
      }
    } else if wireType == START_GROUP {
      var items;
      ok, items := SkipMessage(input);
      r := Group(num, items);
      ok := ok && input.lastTag == MakeTag(num, END_GROUP);
    } else if wireType == FIXED32 {
      var raw;
      ok, raw := input.ReadBytes(4);
      r := Fixed32(num, raw);
    } else {
      ok := false;
    }
  }

  /** What a CodedOutputStream over a fixed buffer has taken, and whether it ran out of room. */
  datatype Sink = Sink(written: bytes, hadError: bool)

  /** Further bytes: a prefix that fills the buffer and an error when they do not fit. */
  function Push(capacity: nat, s: Sink, bs: bytes): (s': Sink)
    requires |s.written| <= capacity
    ensures |s'.written| <= capacity
  {
    if |s.written| + |bs| <= capacity then Sink(s.written + bs, s.hadError)
    else Sink((s.written + bs)[..capacity], true)
  }

  lemma PushTwice(capacity: nat, s: Sink, a: bytes, b: bytes)
    requires |s.written| <= capacity
    ensures Push(capacity, Push(capacity, s, a), b) == Push(capacity, s, a + b)
  {
    ConcatAssoc(s.written, a, b);
    if |s.written| + |a| > capacity {
      var full := (s.written + a)[..capacity];
      assert (full + b)[..capacity] == full == (s.written + (a + b))[..capacity];
      assert b == [] ==> full + b == full;
    }
  }

  /** CodedOutputStream over an ArrayOutputStream: a fixed buffer filled from the front. */
  class CodedOutputStream {
    const buffer: array<byte>
    var used: nat
    var hadError: bool

    ghost predicate Valid()
      reads this
    {
      used <= buffer.Length
    }

    ghost function State(): (s: Sink)
      requires Valid()
      reads this, buffer
      ensures |s.written| <= buffer.Length
    {
      Sink(buffer[..used], hadError)
    }

    constructor (buffer: array<byte>)
      ensures Valid() && this.buffer == buffer && State() == Sink([], false)
    {
      this.buffer := buffer;
      used, hadError := 0, false;
    }

    method WriteRaw(bs: bytes)
      requires Valid()
      modifies this`used, this`hadError, buffer
      ensures Valid() && State() == Push(buffer.Length, old(State()), bs)
    {
      var n := Min(|bs|, buffer.Length - used);
      forall i | 0 <= i < n {
        buffer[used + i] := bs[i];
      }
      used := used + n;
      if n < |bs| {
        hadError := true;
      }
      assert buffer[..used] == old(buffer[..used]) + bs[..n];
      assert n == |bs| ==> bs[..n] == bs;
      assert n < |bs| ==> old(buffer[..used]) + bs[..n] == (old(buffer[..used]) + bs)[..buffer.Length];
    }
  }

  /** A buffer after bs was written at position `at`. */
  function Patched(before: bytes, at: nat, bs: bytes): bytes
    requires at + |bs| <= |before|
  {
    before[..at] + bs + before[at + |bs|..]
  }

  lemma PatchTwice(before: bytes, at: nat, a: bytes, b: bytes)
    requires at + |a| + |b| <= |before|
    ensures |Patched(before, at, a)| == |before|
    ensures Patched(Patched(before, at, a), at + |a|, b) == Patched(before, at, a + b)
  {
    var mid := Patched(before, at, a);
    assert mid[..at + |a|] == before[..at] + a;
    assert mid[at + |a| + |b|..] == before[at + |a| + |b|..];
  }

  /** Writes into a raw buffer and returns the position after the last byte written. */
  method WriteToArray(bs: bytes, target: array<byte>, at: nat) returns (end: nat)
    requires at + |bs| <= target.Length
    modifies target
    ensures end == at + |bs| && target[..] == Patched(old(target[..]), at, bs)
  {
    end := at + |bs|;
    forall i | 0 <= i < |bs| {
      target[at + i] := bs[i];
    }
    assert target[..] == target[..at] + target[at..end] + target[end..];
    assert target[..at] == old(target[..])[..at] && target[at..end] == bs && target[end..] == old(target[..])[end..];
  }
}
