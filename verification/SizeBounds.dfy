/**
 How much longer than its input a parsed message can serialise: an enum number that is out of
 range and negative is written back in ten bytes, and lengths around it grow.  Twice the input
 is always enough, so the sizes of everything parsed from a stream fit the C++ int.
 */
module SizeBounds {
  import opened Wrappers
  import opened WireFormat
  import opened Schema
  import opened Messages
  import opened NormalForm
  import opened Storage

  /* ---------- lengths of varints ---------- */

  lemma {:induction false} LongerVarint(a: nat, b: nat)
    requires a <= b
    ensures |EncodeVarint(a)| <= |EncodeVarint(b)|
    decreases b
  {
    if a >= 128 {
      LongerVarint(a / 128, b / 128);
    }
  }

  lemma DoubledVarint(a: nat)
    ensures |EncodeVarint(2 * a)| <= |EncodeVarint(a)| + 1
  {
    if a > 0 {
      LongerVarint(2 * a, 128 * a);
      assert (128 * a) / 128 == a;
    }
  }

  lemma SummedVarint(a: nat, b: nat)
    ensures |EncodeVarint(a + b)| <= |EncodeVarint(a)| + |EncodeVarint(b)|
  {
    if a < b {
      LongerVarint(a + b, 2 * b);
      DoubledVarint(b);
    } else {
      LongerVarint(a + b, 2 * a);
      DoubledVarint(a);
    }
  }

  /* ---------- records are not longer than the bytes they were read from ---------- */

  lemma {:induction false} GroupsCost(bs: bytes, left: nat)
    ensures var r := ReadGroups(bs, left);
            r.Got? ==> |EncodeVarint(r.value)| + |r.rest| <= |bs|
    decreases left
  {
    if left > 0 && bs != [] && bs[0] >= 128 {
      GroupsCost(bs[1..], left - 1);
      var r := ReadGroups(bs, left);
      if r.Got? {
        assert r.value / 128 == ReadGroups(bs[1..], left - 1).value;
      }
    }
  }

  lemma VarintCost(bs: bytes)
    ensures var r := ReadVarint64(bs); r.Got? ==> |EncodeVarint(r.value)| + |r.rest| <= |bs|
    ensures var r := ReadVarint32(bs); r.Got? ==> |EncodeVarint(r.value)| + |r.rest| <= |bs|
  {
    hide EncodeVarint, ReadGroups;
    GroupsCost(bs, MAX_VARINT_BYTES);
    var g := ReadGroups(bs, MAX_VARINT_BYTES);
    if g.Got? {
      LongerVarint(g.value % TWO_64, g.value);
      LongerVarint(g.value % TWO_64 % TWO_32, g.value % TWO_64);
    }
  }

  lemma TagCost(bs: bytes)
    ensures var tag := ReadTag(bs);
            tag.Tag? ==> |EncodeVarint(MakeTag(tag.num, tag.wireType))| + |tag.rest| <= |bs|
  {
    hide EncodeVarint, ReadVarint64;
    VarintCost(bs);
  }

  lemma {:induction false} ScanCost(bs: bytes, lax: set<nat>)
    ensures var s := ScanRecords(bs, lax);
            |EncodeAll(s.recs)| + |s.rest| +
              (if s.stop.EndGroup? then |EncodeVarint(MakeTag(s.stop.num, END_GROUP))| else 0) <= |bs|
    decreases |bs|, 0
  {
    hide EncodeVarint, ReadTag, ReadPayload;
    TagCost(bs);
    ScanStops(bs, lax);
    var tag := ReadTag(bs);
    if tag.Tag? && tag.wireType != END_GROUP {
      PayloadCost(tag.num, tag.wireType, tag.rest, lax);
      var p := ReadPayload(tag.num, tag.wireType, tag.rest, lax);
      if p.Field? {
        ScanCost(p.rest, lax);
        ScanStep(bs, lax, tag.num, tag.wireType, tag.rest, p.r, p.rest);
        var s := ScanRecords(p.rest, lax);
        assert ([p.r] + s.recs)[1..] == s.recs;
        assert EncodeAll([p.r] + s.recs) == Encode(p.r) + EncodeAll(s.recs);
      }
    }
  }

  lemma {:induction false} PayloadCost(num: nat, wireType: nat, bs: bytes, lax: set<nat>)
    ensures var p := ReadPayload(num, wireType, bs, lax);
            p.Field? ==> |Payload(p.r)| + |p.rest| <= |bs|
    decreases |bs|, 1
  {
    hide EncodeVarint, ReadVarint64;
    VarintCost(bs);
    if wireType == START_GROUP {
      ScanCost(bs, {});
    } else if wireType == LENGTH_DELIMITED {
      var v := ReadVarint32(bs);
      if v.Got? && v.value > |v.rest| {
        LongerVarint(|v.rest|, v.value);
      }
    }
  }

  /* ---------- one record adds at most twice its length ---------- */

  function Weight(t: MessageType, m: Msg): nat
  {
    |Serialize(t, m)|
  }

  /** The bytes of one field as a function of its slot. */
  function SlotBytes(t: MessageType, n: nat, s: Slot): bytes
  {
    FieldBytes(t, Put(EMPTY, n, s), n)
  }

  lemma FieldBytesIsSlotBytes(t: MessageType, m: Msg, n: nat)
    requires 1 <= n <= 6
    ensures FieldBytes(t, m, n) == SlotBytes(t, n, Get(m, n))
  {
    hide Fields, EncodeAll, Serialize;
  }

  lemma WeightIsSum(t: MessageType, m: Msg)
    ensures Weight(t, m) ==
            |SlotBytes(t, 1, m.f1)| + |SlotBytes(t, 2, m.f2)| + |SlotBytes(t, 3, m.f3)| +
            |SlotBytes(t, 4, m.f4)| + |SlotBytes(t, 5, m.f5)| + |SlotBytes(t, 6, m.f6)| + |EncodeAll(m.unknown)|
  {
    hide SlotBytes, FieldBytes, Serialize, EncodeAll;
    SizeIsSum(t, m);
    FieldBytesIsSlotBytes(t, m, 1);
    FieldBytesIsSlotBytes(t, m, 2);
    FieldBytesIsSlotBytes(t, m, 3);
    FieldBytesIsSlotBytes(t, m, 4);
    FieldBytesIsSlotBytes(t, m, 5);
    FieldBytesIsSlotBytes(t, m, 6);
  }

  lemma WeightPut(t: MessageType, m: Msg, n: nat, s: Slot)
    requires 1 <= n <= 6
    ensures Weight(t, Put(m, n, s)) + |SlotBytes(t, n, Get(m, n))| == Weight(t, m) + |SlotBytes(t, n, s)|
  {
    hide SlotBytes, Weight, EncodeAll;
    WeightIsSum(t, m);
    WeightIsSum(t, Put(m, n, s));
  }

  lemma WeightAddUnknown(t: MessageType, m: Msg, r: Record)
    ensures Weight(t, AddUnknown(m, r)) == Weight(t, m) + |Encode(r)|
  {
    hide SlotBytes, Weight, Encode;
    WeightIsSum(t, m);
    WeightIsSum(t, AddUnknown(m, r));
    EncodeAllAppend(m.unknown, [r]);
    OneRecord(r);
  }

  lemma ClearBytes(t: MessageType, n: nat)
    requires 1 <= n <= 6
    ensures SlotBytes(t, n, CLEAR) == []
  {
    hide Fields, Serialize;
  }

  lemma WeightEmpty(t: MessageType)
    ensures Weight(t, EMPTY) == 0
  {
    hide SlotBytes, Weight;
    WeightIsSum(t, EMPTY);
    ClearBytes(t, 1);
    ClearBytes(t, 2);
    ClearBytes(t, 3);
    ClearBytes(t, 4);
    ClearBytes(t, 5);
    ClearBytes(t, 6);
  }

  lemma ScalarBytes(t: MessageType, n: nat, s: Slot)
    requires 1 <= n <= 6 && KindOf(t, n).Some? && !IsSubMessage(t, n) && s.scalar.Some?
    ensures SlotBytes(t, n, s) == Encode(ScalarRecord(n, s.scalar.value))
  {
    hide Fields, Encode, Serialize;
    OneRecord(ScalarRecord(n, s.scalar.value));
  }

  /** Tag, length prefix and a body of w bytes. */
  function SubWeight(w: nat): nat
  {
    1 + |EncodeVarint(w)| + w
  }

  lemma DelimitedLength(n: nat, raw: bytes)
    requires 1 <= n <= 6
    ensures |Encode(Delimited(n, raw))| == SubWeight(|raw|)
  {
    TagSize(n, LENGTH_DELIMITED);
  }

  lemma SubBytes(t: MessageType, n: nat, s: Slot, c: MessageType)
    requires 1 <= n <= 6 && KindOf(t, n) == Some(MessageField(c))
    ensures |SlotBytes(t, n, s)| == if s.sub.Some? then SubWeight(Weight(c, s.sub.value)) else 0
  {
    hide Fields, Encode, Serialize;
    if s.sub.Some? {
      OneRecord(SubRecord(n, c, s.sub.value));
      DelimitedLength(n, Serialize(c, s.sub.value));
    }
  }

  lemma ItemBytes(t: MessageType, n: nat, s: Slot, c: MessageType, item: Msg)
    requires 1 <= n <= 6 && KindOf(t, n) == Some(RepeatedField(c))
    ensures |SlotBytes(t, n, s.(items := s.items + [item]))| == |SlotBytes(t, n, s)| + SubWeight(Weight(c, item))
  {
    hide Fields, Encode, Serialize;
    ItemRecordsSnoc(n, c, s.items, item);
    DelimitedLength(n, Serialize(c, item));
  }

  lemma SubWeightGrows(w: nat, w': nat, raw: nat)
    requires w' <= w + 2 * raw
    ensures SubWeight(w') <= SubWeight(w) + 2 * SubWeight(raw)
    ensures w == 0 ==> SubWeight(w') <= 2 * SubWeight(raw)
  {
    hide EncodeVarint;
    LongerVarint(w', w + 2 * raw);
    SummedVarint(w, 2 * raw);
    DoubledVarint(raw);
  }

  lemma EnumWeight(value: nat)
    requires value < TWO_64
    ensures |EncodeVarint(ToUInt64(EnumNumber(value)))| <= 2 * |EncodeVarint(value)|
  {
    hide EncodeVarint;
    var n := EnumNumber(value);
    if n >= 0 {
      LongerVarint(n, value);
    } else {
      VarintSizeIsLength(ToUInt64(n));
      LongerVarint(TWO_31, value);
      VarintSizeIsLength(TWO_31);
    }
  }

  lemma EnumBelow(value: nat)
    ensures EnumNumber(value) <= value
  {
  }

  lemma NumberWeight(t: MessageType, m: Msg, r: Record)
    requires Known(t, r) && r.Varint? && WellFormed(r)
    ensures Absorb(t, m, r).Some? && Weight(t, Absorb(t, m, r).value) <= Weight(t, m) + 2 * |Encode(r)|
  {
    hide Fields, EncodeVarint, Weight, SlotBytes, EnumNumber, Put, Get;
    var n, k := r.num, KindOf(t, r.num).value;
    var s := Get(m, n);
    EnumWeight(r.value);
    if k.EnumField? && !(0 <= k.lo <= EnumNumber(r.value) <= k.hi) {
      WeightAddUnknown(t, m, Varint(n, ToUInt64(EnumNumber(r.value))));
    } else {
      var v := if k.EnumField? then EnumNumber(r.value) else if k.UInt32Field? then r.value % TWO_32
               else if r.value != 0 then 1 else 0;
      EnumBelow(r.value);
      LongerVarint(v, r.value);
      ScalarBytes(t, n, s.(scalar := Some(Num(v))));
      WeightPut(t, m, n, s.(scalar := Some(Num(v))));
    }
  }

  lemma {:induction false} AbsorbAllWeight(t: MessageType, m: Msg, rs: seq<Record>)
    requires AllWellFormed(rs)
    ensures var res := AbsorbAll(t, m, rs); res.Some? ==> Weight(t, res.value) <= Weight(t, m) + 2 * |EncodeAll(rs)|
    decreases Rank(t), 1, |rs|
  {
    hide Absorb, Weight, Encode, WellFormed;
    if rs != [] {
      AbsorbWeight(t, m, rs[0]);
      var d := Absorb(t, m, rs[0]);
      if d.Some? {
        AbsorbAllWeight(t, d.value, rs[1..]);
      }
    }
  }

  lemma {:induction false} WindowWeight(t: MessageType, m: Msg, bs: bytes)
    requires |bs| < TWO_32
    ensures var res := ParseWindow(t, m, bs); res.Some? ==> Weight(t, res.value) <= Weight(t, m) + 2 * |bs|
    decreases Rank(t), 2
  {
    hide Weight, EncodeAll;
    ScanWellFormed(bs, SubMessageNumbers(t));
    ScanCost(bs, SubMessageNumbers(t));
    AbsorbAllWeight(t, m, ScanRecords(bs, SubMessageNumbers(t)).recs);
  }

  lemma {:induction false} AbsorbWeight(t: MessageType, m: Msg, r: Record)
    requires WellFormed(r)
    ensures var res := Absorb(t, m, r); res.Some? ==> Weight(t, res.value) <= Weight(t, m) + 2 * |Encode(r)|
    decreases Rank(t), 0
  {
    hide Fields, EncodeVarint, Weight, SlotBytes, EnumNumber, Put, Get, ParseWindow, Encode, SubWeight;
    if !Known(t, r) {
      WeightAddUnknown(t, m, r);
    } else if r.Varint? {
      NumberWeight(t, m, r);
    } else if Absorb(t, m, r).Some? {
      var n := r.num;
      var s := Get(m, n);
      var k := KindOf(t, n).value;
      DelimitedLength(n, r.raw);
      if k.StringField? {
        ScalarBytes(t, n, s.(scalar := Some(Text(r.raw))));
        WeightPut(t, m, n, s.(scalar := Some(Text(r.raw))));
      } else if k.MessageField? {
        var sub := ParseWindow(k.of, Target(s), r.raw).value;
        WindowWeight(k.of, Target(s), r.raw);
        WeightEmpty(k.of);
        SubBytes(t, n, s, k.of);
        SubBytes(t, n, s.(sub := Some(sub)), k.of);
        WeightPut(t, m, n, s.(sub := Some(sub)));
        SubWeightGrows(Weight(k.of, Target(s)), Weight(k.of, sub), |r.raw|);
      } else {
        var item := ParseWindow(k.of, EMPTY, r.raw).value;
        WindowWeight(k.of, EMPTY, r.raw);
        WeightEmpty(k.of);
        ItemBytes(t, n, s, k.of, item);
        WeightPut(t, m, n, s.(items := s.items + [item]));
        SubWeightGrows(0, Weight(k.of, item), |r.raw|);
      }
    }
  }

  /** Everything parsed from less than a gibibyte has sizes that fit an int. */
  lemma ParsedFits(t: MessageType, bs: bytes)
    requires |bs| < TWO_31 / 2 && Parse(t, bs).Some?
    ensures Fits(t, Parse(t, bs).value)
  {
    WeightEmpty(t);
    WindowWeight(t, EMPTY, bs);
  }

  /**
   Serialising is a normal form: whatever was parsed, unknown fields, out-of-range enum numbers
   and overlong varints included, serialises to bytes that parse to the same message.
   A CodedInputStream reads at most 64 MiB, well below the bound.
   */
  lemma SerializeIsNormalForm(t: MessageType, bs: bytes)
    requires |bs| < TWO_31 / 2 && Parse(t, bs).Some?
    ensures Parse(t, Serialize(t, Parse(t, bs).value)) == Parse(t, bs)
  {
    NormalEmpty(t);
    WindowNormal(t, EMPTY, bs);
    ParsedFits(t, bs);
    ReadBack(t, Parse(t, bs).value);
  }
}
