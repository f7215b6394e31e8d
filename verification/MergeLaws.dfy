/**
 Parsing as merging: a window parsed into a message is the message merged with the window
 parsed on its own, and so concatenating encodings merges messages.
 */
module MergeLaws {
  import opened Wrappers
  import opened WireFormat
  import opened Schema
  import opened Messages

  function MergeOption(a: Msg, b: Option<Msg>): Option<Msg>
  {
    if b.None? then None else Some(Merge(a, b.value))
  }

  lemma {:induction false} SlotIdentity(s: Slot)
    ensures MergeSlot(s, CLEAR) == s && MergeSlot(CLEAR, s) == s
    decreases s
  {
    hide Merge;
    if s.sub.Some? {
      MergeIdentity(s.sub.value);
    }
    assert s.items + [] == s.items == [] + s.items;
  }

  lemma {:induction false} MergeIdentity(m: Msg)
    ensures Merge(m, EMPTY) == m && Merge(EMPTY, m) == m
    decreases m
  {
    hide MergeSlot;
    SlotIdentity(m.f1);
    SlotIdentity(m.f2);
    SlotIdentity(m.f3);
    SlotIdentity(m.f4);
    SlotIdentity(m.f5);
    SlotIdentity(m.f6);
    assert m.unknown + [] == m.unknown == [] + m.unknown;
  }

  lemma {:induction false} SlotAssociative(a: Slot, b: Slot, c: Slot)
    ensures MergeSlot(MergeSlot(a, b), c) == MergeSlot(a, MergeSlot(b, c))
    decreases c
  {
    hide Merge;
    if c.sub.Some? {
      MergeAssociative(Target(a), Target(b), c.sub.value);
      MergeIdentity(c.sub.value);
      MergeIdentity(Target(a));
    }
    ConcatAssoc(a.items, b.items, c.items);
  }

  /** MergeFrom is associative: merging in two steps or merging the merged source is the same. */
  lemma {:induction false} MergeAssociative(a: Msg, b: Msg, c: Msg)
    ensures Merge(Merge(a, b), c) == Merge(a, Merge(b, c))
    decreases c
  {
    hide MergeSlot;
    SlotAssociative(a.f1, b.f1, c.f1);
    SlotAssociative(a.f2, b.f2, c.f2);
    SlotAssociative(a.f3, b.f3, c.f3);
    SlotAssociative(a.f4, b.f4, c.f4);
    SlotAssociative(a.f5, b.f5, c.f5);
    SlotAssociative(a.f6, b.f6, c.f6);
    ConcatAssoc(a.unknown, b.unknown, c.unknown);
  }

  /** Merging a message that has only field n touches only field n. */
  lemma MergePut(m: Msg, n: nat, s: Slot)
    ensures Merge(m, Put(EMPTY, n, s)) == Put(m, n, MergeSlot(Get(m, n), s))
  {
    hide MergeSlot;
    MergeIdentity(m);
  }

  lemma MergeUnknown(m: Msg, r: Record)
    ensures Merge(m, AddUnknown(EMPTY, r)) == AddUnknown(m, r)
  {
    hide MergeSlot;
    MergeIdentity(m);
  }

  lemma MergeScalar(m: Msg, n: nat, v: Scalar)
    ensures Merge(m, SetScalar(EMPTY, n, v)) == SetScalar(m, n, v)
  {
    hide Merge;
    MergePut(m, n, CLEAR.(scalar := Some(v)));
    assert Get(m, n).items + [] == Get(m, n).items;
  }

  lemma MergeSub(m: Msg, n: nat, sub: Msg)
    ensures Merge(m, SetSub(EMPTY, n, sub)) == SetSub(m, n, Merge(Target(Get(m, n)), sub))
  {
    hide Merge;
    MergePut(m, n, CLEAR.(sub := Some(sub)));
    assert Get(m, n).items + [] == Get(m, n).items;
  }

  lemma MergeItem(m: Msg, n: nat, item: Msg)
    ensures Merge(m, AddItem(EMPTY, n, item)) == AddItem(m, n, item)
  {
    hide Merge;
    MergePut(m, n, CLEAR.(items := [item]));
    assert [] + [item] == [item];
  }

  lemma AbsorbNumberIsMerge(t: MessageType, m: Msg, r: Record)
    requires Known(t, r) && r.Varint?
    ensures Absorb(t, m, r) == MergeOption(m, Absorb(t, EMPTY, r))
  {
    hide Fields, Merge, SetScalar, AddUnknown;
    match KindOf(t, r.num).value
    case EnumField(lo, hi, _) =>
      var n := EnumNumber(r.value);
      if 0 <= lo <= n <= hi {
        MergeScalar(m, r.num, Num(n));
      } else {
        MergeUnknown(m, Varint(r.num, ToUInt64(n)));
      }
    case UInt32Field => MergeScalar(m, r.num, Num(r.value % TWO_32));
    case BoolField => MergeScalar(m, r.num, Num(if r.value != 0 then 1 else 0));
  }

  lemma {:induction false} AbsorbAllIsMerge(t: MessageType, m: Msg, rs: seq<Record>)
    ensures AbsorbAll(t, m, rs) == MergeOption(m, AbsorbAll(t, EMPTY, rs))
    decreases Rank(t), 1, |rs|
  {
    hide Absorb, Merge;
    MergeIdentity(m);
    if rs != [] {
      AbsorbIsMerge(t, m, rs[0]);
      var d := Absorb(t, EMPTY, rs[0]);
      if d.Some? {
        AbsorbAllIsMerge(t, Merge(m, d.value), rs[1..]);
        AbsorbAllIsMerge(t, d.value, rs[1..]);
        var e := AbsorbAll(t, EMPTY, rs[1..]);
        if e.Some? {
          MergeAssociative(m, d.value, e.value);
        }
      }
    }
  }

  /** Parsing into a message is merging with a fresh parse ("Last One Wins"). */
  lemma {:induction false} WindowIsMerge(t: MessageType, m: Msg, bs: bytes)
    ensures ParseWindow(t, m, bs) == MergeOption(m, Parse(t, bs))
    decreases Rank(t), 2
  {
    AbsorbAllIsMerge(t, m, ScanRecords(bs, SubMessageNumbers(t)).recs);
  }

  /** The change one record makes does not depend on the message it arrives at. */
  lemma {:induction false} AbsorbIsMerge(t: MessageType, m: Msg, r: Record)
    ensures Absorb(t, m, r) == MergeOption(m, Absorb(t, EMPTY, r))
    decreases Rank(t), 0
  {
    hide Fields, Merge, SetScalar, SetSub, AddItem, AddUnknown, ParseWindow;
    if !Known(t, r) {
      MergeUnknown(m, r);
    } else if r.Varint? {
      AbsorbNumberIsMerge(t, m, r);
    } else {
      match KindOf(t, r.num).value
      case StringField => MergeScalar(m, r.num, Text(r.raw));
      case MessageField(c) =>
        WindowIsMerge(c, Target(Get(m, r.num)), r.raw);
        if Parse(c, r.raw).Some? {
          MergeSub(m, r.num, Parse(c, r.raw).value);
        }
      case RepeatedField(c) =>
        if Parse(c, r.raw).Some? {
          MergeItem(m, r.num, Parse(c, r.raw).value);
        }
    }
  }

  lemma {:induction false} AbsorbAllAppend(t: MessageType, m: Msg, a: seq<Record>, b: seq<Record>)
    ensures AbsorbAll(t, m, a + b) ==
            if AbsorbAll(t, m, a).Some? then AbsorbAll(t, AbsorbAll(t, m, a).value, b) else None
    decreases |a|
  {
    hide Absorb;
    if a == [] {
      assert a + b == b;
    } else {
      assert (a + b)[0] == a[0] && (a + b)[1..] == a[1..] + b;
      var d := Absorb(t, m, a[0]);
      if d.Some? {
        AbsorbAllAppend(t, d.value, a[1..], b);
      }
    }
  }

  /** Every announced length fits, so that the window is a complete encoding in the guide's sense. */
  predicate Complete(bs: bytes)
  {
    ScanRecords(bs, {}).stop.AtEnd?
  }

  lemma CompleteScan(a: bytes, lax: set<nat>)
    requires Complete(a)
    ensures ScanRecords(a, lax) == ScanRecords(a, {})
  {
    ScanAppend(a, [], lax);
    assert a + [] == a;
    assert ScanRecords([], lax) == Scan([], AtEnd, []);
  }

  /** Concatenating a complete encoding with any window parses to the merge of the two parses. */
  lemma ConcatIsMerge(t: MessageType, a: bytes, b: bytes)
    requires Complete(a)
    ensures Parse(t, a + b) ==
            if Parse(t, a).Some? then MergeOption(Parse(t, a).value, Parse(t, b)) else None
  {
    hide AbsorbAll;
    var lax := SubMessageNumbers(t);
    ScanAppend(a, b, lax);
    CompleteScan(a, lax);
    var ra, rb := ScanRecords(a, {}).recs, ScanRecords(b, lax).recs;
    AbsorbAllAppend(t, EMPTY, ra, rb);
    if Parse(t, a).Some? {
      AbsorbAllIsMerge(t, Parse(t, a).value, rb);
    }
  }

  /* Field 15, which no wipc message declares, holding 1. */
  const PROBE: bytes := [0x78, 0x01]

  lemma ProbeParses(t: MessageType)
    ensures Parse(t, PROBE) == Some(AddUnknown(EMPTY, Varint(15, 1)))
  {
    hide Fields;
    var r := Varint(15, 1);
    VarintRoundTrip(0x78, [0x01]);
    VarintRoundTrip(0x01, []);
    assert PROBE == EncodeVarint(0x78) + [0x01] && [0x01] == EncodeVarint(0x01) + [];
    ScanStep(PROBE, SubMessageNumbers(t), 15, VARINT, [0x01], r, []);
    assert ScanRecords(PROBE, SubMessageNumbers(t)) == Scan([r], AtEnd, []);
    assert Absorb(t, EMPTY, r) == Some(AddUnknown(EMPTY, r));
    assert AbsorbAll(t, AddUnknown(EMPTY, r), []) == Some(AddUnknown(EMPTY, r));
  }

  lemma {:induction false} PayloadStrict(num: nat, wireType: nat, bs: bytes, lax: set<nat>)
    requires ReadPayload(num, wireType, bs, {}).Field?
    ensures ReadPayload(num, wireType, bs, lax) == ReadPayload(num, wireType, bs, {})
  {
  }

  /** A sub-message cut off by the end of the window swallows what is appended. */
  lemma CutPayload(num: nat, rest: bytes, lax: set<nat>)
    requires ReadPayload(num, LENGTH_DELIMITED, rest, {}).NoField?
    requires ReadPayload(num, LENGTH_DELIMITED, rest, lax).Field?
    ensures num in lax
    ensures var p := ReadPayload(num, LENGTH_DELIMITED, rest, lax);
            var q := ReadPayload(num, LENGTH_DELIMITED, rest + PROBE, lax);
            && p.rest == [] && p.r.Delimited? && q.Field?
            && (q == Field(Delimited(num, p.r.raw + PROBE), []) || q.rest == [0x01])
  {
    VarintAppend(rest, PROBE);
    var v := ReadVarint32(rest);
    var all := v.rest + PROBE;
    if v.value == |v.rest| + 1 {
      assert all[v.value..] == [0x01];
    } else {
      assert v.value >= |all|;
      assert v.value == |all| ==> all[..v.value] == all && all[v.value..] == [];
    }
  }

  lemma OneByteIsBroken(lax: set<nat>)
    ensures ScanRecords([0x01], lax).stop == Broken
  {
    VarintRoundTrip(0x01, []);
    assert [0x01] == EncodeVarint(0x01) + [];
    assert ReadTag([0x01]) == Tag(0, 1, []);
  }

  /** In a window that is not complete the last record is a cut-off sub-message. */
  lemma {:induction false} CutScan(a: bytes, lax: set<nat>) returns (pre: seq<Record>, num: nat, raw: bytes)
    requires ScanRecords(a, lax).stop.AtEnd? && !Complete(a)
    ensures num in lax
    ensures ScanRecords(a, lax).recs == pre + [Delimited(num, raw)]
    ensures var s := ScanRecords(a + PROBE, lax);
            s.stop.AtEnd? ==> s.recs == pre + [Delimited(num, raw + PROBE)]
    decreases |a|
  {
    var tag := ReadTag(a);
    var n, w, rest := tag.num, tag.wireType, tag.rest;
    TagAppend(a, PROBE);
    var p := ReadPayload(n, w, rest, lax);
    ScanStep(a, lax, n, w, rest, p.r, p.rest);
    if ReadPayload(n, w, rest, {}).Field? {
      PayloadStrict(n, w, rest, lax);
      PayloadAppend(n, w, rest, PROBE, lax);
      ScanStep(a, {}, n, w, rest, p.r, p.rest);
      ScanStep(a + PROBE, lax, n, w, rest + PROBE, p.r, p.rest + PROBE);
      var pre';
      pre', num, raw := CutScan(p.rest, lax);
      pre := [p.r] + pre';
      ConcatAssoc([p.r], pre', [Delimited(num, raw)]);
      ConcatAssoc([p.r], pre', [Delimited(num, raw + PROBE)]);
    } else {
      CutPayload(n, rest, lax);
      pre, num, raw := [], n, p.r.raw;
      var q := ReadPayload(n, w, rest + PROBE, lax);
      ScanStep(a + PROBE, lax, n, w, rest + PROBE, q.r, q.rest);
      OneByteIsBroken(lax);
      assert ScanRecords([], lax) == Scan([], AtEnd, []);
    }
  }

  lemma SubMessageKeepsUnknown(t: MessageType, m: Msg, num: nat, raw: bytes)
    requires num in SubMessageNumbers(t)
    ensures var r := Absorb(t, m, Delimited(num, raw)); r.Some? ==> r.value.unknown == m.unknown
  {
    hide Fields;
  }

  lemma CutParse(t: MessageType, a: bytes)
    requires Parse(t, a).Some? && !Complete(a)
    ensures Parse(t, a + PROBE) != Some(AddUnknown(Parse(t, a).value, Varint(15, 1)))
  {
    hide Absorb, Merge;
    var lax := SubMessageNumbers(t);
    var pre, num, raw := CutScan(a, lax);
    AbsorbAllAppend(t, EMPTY, pre, [Delimited(num, raw)]);
    AbsorbAllAppend(t, EMPTY, pre, [Delimited(num, raw + PROBE)]);
    var m := AbsorbAll(t, EMPTY, pre).value;
    SubMessageKeepsUnknown(t, m, num, raw);
    SubMessageKeepsUnknown(t, m, num, raw + PROBE);
    assert |AddUnknown(Parse(t, a).value, Varint(15, 1)).unknown| == |m.unknown| + 1;
  }

  /** The tag of a sub-message field and the length 1, with nothing behind them. */
  function CutShort(n: nat): bytes
    requires 1 <= n <= 6
  {
    [8 * n + 2, 0x01]
  }

  lemma CutShortReads(n: nat)
    requires 1 <= n <= 6
    ensures ReadTag(CutShort(n)) == Tag(n, LENGTH_DELIMITED, [0x01]) && ReadVarint32([0x01]) == Got(1, [])
    ensures !Complete(CutShort(n))
  {
    VarintRoundTrip(8 * n + 2, [0x01]);
    VarintRoundTrip(0x01, []);
    assert CutShort(n) == EncodeVarint(8 * n + 2) + [0x01] && [0x01] == EncodeVarint(0x01) + [];
    assert ReadPayload(n, LENGTH_DELIMITED, [0x01], {}).NoField?;
    ScanStops(CutShort(n), {});
  }

  lemma EmptyWindow(t: MessageType)
    ensures ParseWindow(t, EMPTY, []) == Some(EMPTY)
  {
    assert ScanRecords([], SubMessageNumbers(t)) == Scan([], AtEnd, []);
  }

  lemma OneRecordAbsorbed(t: MessageType, r: Record)
    ensures AbsorbAll(t, EMPTY, [r]) == Absorb(t, EMPTY, r)
  {
    hide Absorb;
    assert [r][1..] == [];
  }

  /** It is accepted, as an empty sub-message. */
  lemma CutShortIsAccepted(t: MessageType, n: nat)
    requires IsSubMessage(t, n)
    ensures 1 <= n <= 6 && !Complete(CutShort(n))
    ensures Parse(t, CutShort(n))
         == Some(if KindOf(t, n).value.MessageField? then SetSub(EMPTY, n, EMPTY) else AddItem(EMPTY, n, EMPTY))
  {
    CutShortReads(n);
    var lax, r := SubMessageNumbers(t), Delimited(n, []);
    assert n in lax;
    assert ReadPayload(n, LENGTH_DELIMITED, [0x01], lax) == Field(r, []);
    ScanStep(CutShort(n), lax, n, LENGTH_DELIMITED, [0x01], r, []);
    assert ScanRecords(CutShort(n), lax) == Scan([r], AtEnd, []);
    hide Fields;
    EmptyWindow(KindOf(t, n).value.of);
    OneRecordAbsorbed(t, r);
  }

  /** Encodings that are accepted without being complete exist for exactly the messages with sub-messages. */
  lemma TruncationAcceptedIff(t: MessageType)
    ensures (exists a: bytes :: Parse(t, a).Some? && !Complete(a)) <==> SubMessageNumbers(t) != {}
  {
    if SubMessageNumbers(t) != {} {
      var n :| n in SubMessageNumbers(t);
      CutShortIsAccepted(t, n);
      assert Parse(t, CutShort(n)).Some?;
    }
  }

  /**
   When concatenation is merging: exactly when no announced length of the first part overruns it.
   The parser accepts windows that are not complete, because PushLimit cuts the limit of a
   sub-message down to the enclosing one.
   */
  lemma ConcatIsMergeIffComplete(t: MessageType, a: bytes)
    requires Parse(t, a).Some?
    ensures Complete(a) <==>
            forall b: bytes :: Parse(t, b).Some? ==>
              Parse(t, a + b) == Some(Merge(Parse(t, a).value, Parse(t, b).value))
  {
    if Complete(a) {
      forall b: bytes | Parse(t, b).Some?
        ensures Parse(t, a + b) == Some(Merge(Parse(t, a).value, Parse(t, b).value))
      {
        ConcatIsMerge(t, a, b);
      }
    } else {
      ProbeParses(t);
      CutParse(t, a);
      MergeUnknown(Parse(t, a).value, Varint(15, 1));
    }
  }
}
