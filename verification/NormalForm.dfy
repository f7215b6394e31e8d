/**
 Serialising as a normal form: what parsing produces, its serialisation parses to again.
 */
module NormalForm {
  import opened Wrappers
  import opened WireFormat
  import opened Schema
  import opened Messages
  import opened MergeLaws

  /** A record the parser of t sends to the unknown set and would write there unchanged. */
  predicate StaysUnknown(t: MessageType, r: Record)
  {
    && WellFormed(r)
    && (Known(t, r) ==>
          var k := KindOf(t, r.num).value;
          && k.EnumField?
          && !(k.lo <= EnumNumber(r.value) <= k.hi)
          && r.value == ToUInt64(EnumNumber(r.value)))
  }

  predicate NormalSlot(t: MessageType, n: nat, s: Slot)
    decreases Rank(t), 0
  {
    match KindOf(t, n)
    case None => s == CLEAR
    case Some(MessageField(c)) =>
      s.scalar.None? && s.items == [] && (s.sub.Some? ==> Normal(c, s.sub.value))
    case Some(RepeatedField(c)) =>
      s.scalar.None? && s.sub.None? && forall x | x in s.items :: Normal(c, x)
    case Some(k) =>
      s.sub.None? && s.items == [] && (s.scalar.Some? ==> NormalScalar(k, s.scalar.value))
  }

  /** What the parser of t can produce. */
  predicate Normal(t: MessageType, m: Msg)
    decreases Rank(t), 1
  {
    && NormalSlot(t, 1, m.f1) && NormalSlot(t, 2, m.f2) && NormalSlot(t, 3, m.f3)
    && NormalSlot(t, 4, m.f4) && NormalSlot(t, 5, m.f5) && NormalSlot(t, 6, m.f6)
    && forall r | r in m.unknown :: StaysUnknown(t, r)
  }

  /* ---------- parsing gives normal messages ---------- */

  lemma NormalClear(t: MessageType, n: nat)
    ensures NormalSlot(t, n, CLEAR)
  {
    hide Fields;
  }

  lemma NormalAt(t: MessageType, m: Msg, n: nat)
    requires Normal(t, m)
    ensures NormalSlot(t, n, Get(m, n))
  {
    hide NormalSlot;
    if !(1 <= n <= 6) {
      assert KindOf(t, n).None?;
      NormalClear(t, n);
    }
  }

  lemma NormalEmpty(t: MessageType)
    ensures Normal(t, EMPTY)
  {
    hide NormalSlot;
    NormalClear(t, 1);
    NormalClear(t, 2);
    NormalClear(t, 3);
    NormalClear(t, 4);
    NormalClear(t, 5);
    NormalClear(t, 6);
  }

  lemma NormalPut(t: MessageType, m: Msg, n: nat, s: Slot)
    requires Normal(t, m) && NormalSlot(t, n, s)
    ensures Normal(t, Put(m, n, s))
  {
    hide NormalSlot;
  }

  lemma NormalAddUnknown(t: MessageType, m: Msg, r: Record)
    requires Normal(t, m) && StaysUnknown(t, r)
    ensures Normal(t, AddUnknown(m, r))
  {
    hide NormalSlot, StaysUnknown;
  }

  lemma EnumNumberOfUInt64(n: int)
    requires -TWO_31 <= n < TWO_31
    ensures EnumNumber(ToUInt64(n)) == n
  {
    if n < 0 {
      assert n + TWO_64 == (n + TWO_32) + TWO_32 * (TWO_32 - 1);
      assert (n + TWO_64) % TWO_32 == n + TWO_32;
    }
  }

  lemma AbsorbNumberNormal(t: MessageType, m: Msg, r: Record)
    requires Normal(t, m) && Known(t, r) && r.Varint? && WellFormed(r)
    ensures var res := Absorb(t, m, r); res.Some? ==> Normal(t, res.value)
  {
    hide Fields, Normal, Put, Get;
    NormalAt(t, m, r.num);
    var s := Get(m, r.num);
    match KindOf(t, r.num).value
    case EnumField(lo, hi, _) =>
      var n := EnumNumber(r.value);
      if 0 <= lo <= n <= hi {
        NormalPut(t, m, r.num, s.(scalar := Some(Num(n))));
      } else {
        EnumNumberOfUInt64(n);
        NormalAddUnknown(t, m, Varint(r.num, ToUInt64(n)));
      }
    case UInt32Field => NormalPut(t, m, r.num, s.(scalar := Some(Num(r.value % TWO_32))));
    case BoolField => NormalPut(t, m, r.num, s.(scalar := Some(Num(if r.value != 0 then 1 else 0))));
  }

  lemma {:induction false} AbsorbAllNormal(t: MessageType, m: Msg, rs: seq<Record>)
    requires Normal(t, m) && AllWellFormed(rs)
    ensures var res := AbsorbAll(t, m, rs); res.Some? ==> Normal(t, res.value)
    decreases Rank(t), 1, |rs|
  {
    hide Absorb, Normal, WellFormed;
    if rs != [] {
      AbsorbNormal(t, m, rs[0]);
      var d := Absorb(t, m, rs[0]);
      if d.Some? {
        AbsorbAllNormal(t, d.value, rs[1..]);
      }
    }
  }

  /** The unknown set only ever holds records the parser would route there again. */
  lemma {:induction false} WindowNormal(t: MessageType, m: Msg, bs: bytes)
    requires Normal(t, m) && |bs| < TWO_32
    ensures var res := ParseWindow(t, m, bs); res.Some? ==> Normal(t, res.value)
    decreases Rank(t), 2
  {
    hide Normal;
    ScanWellFormed(bs, SubMessageNumbers(t));
    AbsorbAllNormal(t, m, ScanRecords(bs, SubMessageNumbers(t)).recs);
  }

  lemma {:induction false} AbsorbNormal(t: MessageType, m: Msg, r: Record)
    requires Normal(t, m) && WellFormed(r)
    ensures var res := Absorb(t, m, r); res.Some? ==> Normal(t, res.value)
    decreases Rank(t), 0
  {
    hide Fields, Normal, Put, Get, ParseWindow;
    NormalAt(t, m, r.num);
    if !Known(t, r) {
      NormalAddUnknown(t, m, r);
    } else if r.Varint? {
      AbsorbNumberNormal(t, m, r);
    } else if Absorb(t, m, r).Some? {
      var s := Get(m, r.num);
      match KindOf(t, r.num).value
      case StringField => NormalPut(t, m, r.num, s.(scalar := Some(Text(r.raw))));
      case MessageField(c) =>
        NormalEmpty(c);
        WindowNormal(c, Target(s), r.raw);
        NormalPut(t, m, r.num, s.(sub := ParseWindow(c, Target(s), r.raw)));
      case RepeatedField(c) =>
        NormalEmpty(c);
        WindowNormal(c, EMPTY, r.raw);
        NormalPut(t, m, r.num, s.(items := s.items + [ParseWindow(c, EMPTY, r.raw).value]));
    }
  }

  /* ---------- the records of a normal message are read back ---------- */

  lemma {:induction false} RecordFits(rs: seq<Record>, i: nat)
    requires i < |rs|
    ensures |Encode(rs[i])| <= |EncodeAll(rs)|
    decreases i
  {
    hide Encode;
    if i > 0 {
      RecordFits(rs[1..], i - 1);
    }
  }

  /** Fields below n of a message, the rest clear. */
  function Upto(m: Msg, n: nat): Msg
  {
    Msg(
      if n > 1 then m.f1 else CLEAR, if n > 2 then m.f2 else CLEAR, if n > 3 then m.f3 else CLEAR,
      if n > 4 then m.f4 else CLEAR, if n > 5 then m.f5 else CLEAR, if n > 6 then m.f6 else CLEAR, [])
  }

  lemma UptoStep(m: Msg, n: nat)
    requires 1 <= n <= 6
    ensures Get(Upto(m, n), n) == CLEAR
    ensures Upto(m, n + 1) == Put(Upto(m, n), n, Get(m, n))
  {
  }

  lemma PutTwice(m: Msg, n: nat, s: Slot, s': Slot)
    requires 1 <= n <= 6
    ensures Get(Put(m, n, s), n) == s && Put(Put(m, n, s), n, s') == Put(m, n, s')
  {
  }

  /** Small enough for the int sizes of the generated code, at every level. */
  predicate Fits(t: MessageType, m: Msg)
  {
    |Serialize(t, m)| < TWO_31
  }

  function SubRecord(n: nat, c: MessageType, sub: Msg): Record
  {
    Delimited(n, Serialize(c, sub))
  }

  lemma AbsorbOne(t: MessageType, m: Msg, r: Record)
    ensures AbsorbAll(t, m, [r]) == Absorb(t, m, r)
  {
    hide Absorb;
    if Absorb(t, m, r).Some? {
      assert AbsorbAll(t, Absorb(t, m, r).value, [r][1..]) == Absorb(t, m, r);
    }
  }

  lemma SmallEnumNumber(v: nat)
    ensures v < TWO_31 ==> EnumNumber(v) == v
  {
  }

  lemma AbsorbScalar(t: MessageType, base: Msg, n: nat, v: Scalar)
    requires KindOf(t, n).Some? && NormalScalar(KindOf(t, n).value, v)
    ensures Absorb(t, base, ScalarRecord(n, v)) == Some(SetScalar(base, n, v))
  {
    hide Fields, SetScalar, EnumNumber;
    if v.Num? {
      SmallEnumNumber(v.n);
    }
  }

  lemma PutSame(m: Msg, n: nat)
    ensures Put(m, n, Get(m, n)) == m
  {
  }

  lemma {:induction false} AbsorbItems(t: MessageType, c: MessageType, base: Msg, n: nat, items: seq<Msg>)
    requires 1 <= n <= 6 && KindOf(t, n) == Some(RepeatedField(c))
    requires forall x | x in items :: Parse(c, Serialize(c, x)) == Some(x)
    ensures AbsorbAll(t, base, ItemRecords(n, c, items))
         == Some(Put(base, n, Get(base, n).(items := Get(base, n).items + items)))
    decreases |items|
  {
    hide Fields, Put, Get, ParseWindow, Serialize;
    var s := Get(base, n);
    var rs := ItemRecords(n, c, items);
    if items == [] {
      assert rs == [];
      assert s.items + items == s.items;
      PutSame(base, n);
    } else {
      var base' := AddItem(base, n, items[0]);
      assert Absorb(t, base, rs[0]) == Some(base');
      AbsorbItems(t, c, base', n, items[1..]);
      assert rs[1..] == ItemRecords(n, c, items[1..]);
      PutTwice(base, n, s.(items := s.items + [items[0]]), s.(items := s.items + items));
      ConcatAssoc(s.items, [items[0]], items[1..]);
      assert [items[0]] + items[1..] == items;
    }
  }

  lemma EncodeLonger(r: Record)
    requires r.Delimited?
    ensures |Encode(r)| > |r.raw|
  {
  }

  lemma UptoEnd(t: MessageType, m: Msg, n: nat)
    requires Normal(t, m) && n == |Fields(t)| + 1
    ensures Upto(m, n) == Upto(m, 7)
  {
    NormalAt(t, m, 2);
    NormalAt(t, m, 3);
    NormalAt(t, m, 4);
    NormalAt(t, m, 5);
    NormalAt(t, m, 6);
  }

  lemma {:induction false} AbsorbFields(t: MessageType, m: Msg, n: nat)
    requires 1 <= n <= |Fields(t)| + 1 && Normal(t, m)
    requires forall r | r in FieldRecords(t, m, n) :: |Encode(r)| < TWO_31
    ensures AbsorbAll(t, Upto(m, n), FieldRecords(t, m, n)) == Some(Upto(m, 7))
    decreases Rank(t), 1, 7 - n
  {
    hide Fields, Normal, Upto, NumberRecords, Encode;
    if n == |Fields(t)| + 1 {
      UptoEnd(t, m, n);
    } else {
      var a, b := NumberRecords(t, m, n), FieldRecords(t, m, n + 1);
      assert FieldRecords(t, m, n) == a + b;
      AbsorbNumber(t, m, n);
      AbsorbFields(t, m, n + 1);
      AbsorbAllAppend(t, Upto(m, n), a, b);
    }
  }

  lemma {:induction false} AbsorbUnknowns(t: MessageType, m: Msg, u: seq<Record>)
    requires forall r | r in u :: StaysUnknown(t, r)
    ensures AbsorbAll(t, m, u) == Some(m.(unknown := m.unknown + u))
    decreases |u|
  {
    hide Fields;
    if u == [] {
      assert m.unknown + u == m.unknown;
    } else {
      assert StaysUnknown(t, u[0]);
      assert Absorb(t, m, u[0]) == Some(AddUnknown(m, u[0]));
      AbsorbUnknowns(t, AddUnknown(m, u[0]), u[1..]);
      ConcatAssoc(m.unknown, [u[0]], u[1..]);
      assert [u[0]] + u[1..] == u;
    }
  }

  lemma RecordsFit(t: MessageType, m: Msg)
    requires Fits(t, m)
    ensures forall r | r in Records(t, m) :: |Encode(r)| < TWO_31
  {
    hide Fields, Encode;
    var rs := Records(t, m);
    forall r | r in rs
      ensures |Encode(r)| < TWO_31
    {
      var i :| 0 <= i < |rs| && rs[i] == r;
      RecordFits(rs, i);
    }
  }

  lemma NumberRecordsWellFormed(t: MessageType, m: Msg, n: nat)
    requires 1 <= n <= |Fields(t)| && NormalSlot(t, n, Get(m, n))
    requires forall r | r in NumberRecords(t, m, n) :: |Encode(r)| < TWO_31
    ensures AllWellFormed(NumberRecords(t, m, n))
  {
    hide Fields, Normal, Serialize, Encode, Get;
    forall r | r in NumberRecords(t, m, n)
      ensures WellFormed(r)
    {
      if r.Delimited? {
        EncodeLonger(r);
      }
    }
  }

  lemma {:induction false} FieldRecordsWellFormed(t: MessageType, m: Msg, n: nat)
    requires 1 <= n <= |Fields(t)| + 1 && Normal(t, m)
    requires forall r | r in FieldRecords(t, m, n) :: |Encode(r)| < TWO_31
    ensures AllWellFormed(FieldRecords(t, m, n))
    decreases 7 - n
  {
    hide Fields, Normal, NormalSlot, NumberRecords, Encode, WellFormed;
    if n <= |Fields(t)| {
      var a, b := NumberRecords(t, m, n), FieldRecords(t, m, n + 1);
      assert FieldRecords(t, m, n) == a + b;
      FieldRecordsWellFormed(t, m, n + 1);
      NormalAt(t, m, n);
      NumberRecordsWellFormed(t, m, n);
    }
  }

  lemma UptoEnds(m: Msg)
    ensures Upto(m, 1) == EMPTY && Upto(m, 7) == m.(unknown := [])
  {
  }

  lemma NormalUnknown(t: MessageType, m: Msg)
    requires Normal(t, m)
    ensures forall r | r in m.unknown :: StaysUnknown(t, r) && WellFormed(r)
  {
  }

  /** A normal message survives serialising and parsing. */
  lemma {:induction false} ReadBack(t: MessageType, m: Msg)
    requires Normal(t, m) && Fits(t, m)
    ensures Parse(t, Serialize(t, m)) == Some(m)
    decreases Rank(t), 2
  {
    hide Fields, FieldRecords, Normal, Upto, Encode, Absorb;
    var known := FieldRecords(t, m, 1);
    RecordsFit(t, m);
    FieldRecordsWellFormed(t, m, 1);
    assert Records(t, m) == known + m.unknown;
    NormalUnknown(t, m);
    ScanEncode(Records(t, m), [], SubMessageNumbers(t));
    assert Serialize(t, m) + [] == Serialize(t, m);
    assert Records(t, m) + [] == Records(t, m);
    AbsorbFields(t, m, 1);
    UptoEnds(m);
    AbsorbAllAppend(t, EMPTY, known, m.unknown);
    AbsorbUnknowns(t, Upto(m, 7), m.unknown);
    assert [] + m.unknown == m.unknown;
  }

  lemma {:induction false} ItemsReadBack(c: MessageType, n: nat, items: seq<Msg>)
    requires forall x | x in items :: Normal(c, x)
    requires forall r | r in ItemRecords(n, c, items) :: |Encode(r)| < TWO_31
    ensures forall x | x in items :: Parse(c, Serialize(c, x)) == Some(x)
    decreases Rank(c), 3
  {
    hide Normal, Serialize, Encode, Parse;
    forall x | x in items
      ensures Parse(c, Serialize(c, x)) == Some(x)
    {
      var j :| 0 <= j < |items| && items[j] == x;
      assert ItemRecords(n, c, items)[j] == Delimited(n, Serialize(c, x));
      EncodeLonger(Delimited(n, Serialize(c, x)));
      ReadBack(c, x);
    }
  }

  lemma AbsorbSub(t: MessageType, c: MessageType, base: Msg, n: nat, sub: Msg)
    requires KindOf(t, n) == Some(MessageField(c)) && Get(base, n) == CLEAR
    requires Parse(c, Serialize(c, sub)) == Some(sub)
    ensures Absorb(t, base, Delimited(n, Serialize(c, sub))) == Some(Put(base, n, CLEAR.(sub := Some(sub))))
  {
    hide Fields, ParseWindow, Serialize, Put;
  }

  /** Reading back the records of one field number restores that field. */
  lemma {:induction false} AbsorbNumber(t: MessageType, m: Msg, n: nat)
    requires 1 <= n <= |Fields(t)| && Normal(t, m)
    requires forall r | r in NumberRecords(t, m, n) :: |Encode(r)| < TWO_31
    ensures AbsorbAll(t, Upto(m, n), NumberRecords(t, m, n)) == Some(Upto(m, n + 1))
    decreases Rank(t), 0
  {
    hide Fields, Normal, Upto, Serialize, Encode, Absorb;
    var s := Get(m, n);
    var base := Upto(m, n);
    NormalAt(t, m, n);
    UptoStep(m, n);
    match KindOf(t, n).value
    case MessageField(c) =>
      if s.sub.Some? {
        var r := Delimited(n, Serialize(c, s.sub.value));
        assert NumberRecords(t, m, n) == [r];
        EncodeLonger(r);
        ReadBack(c, s.sub.value);
        AbsorbSub(t, c, base, n, s.sub.value);
        AbsorbOne(t, base, r);
      } else {
        PutSame(base, n);
      }
    case RepeatedField(c) =>
      ItemsReadBack(c, n, s.items);
      AbsorbItems(t, c, base, n, s.items);
      assert [] + s.items == s.items;
    case k =>
      if s.scalar.Some? {
        AbsorbScalar(t, base, n, s.scalar.value);
        AbsorbOne(t, base, ScalarRecord(n, s.scalar.value));
      } else {
        PutSame(base, n);
      }
  }

  /** Exactly the normal messages are read back. */
  lemma ReadBackIffNormal(t: MessageType, m: Msg)
    requires Fits(t, m)
    ensures Parse(t, Serialize(t, m)) == Some(m) <==> Normal(t, m)
  {
    if Normal(t, m) {
      ReadBack(t, m);
    } else {
      NormalEmpty(t);
      WindowNormal(t, EMPTY, Serialize(t, m));
    }
  }
}
