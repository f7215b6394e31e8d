/**
 Messages as values: how one record changes a message, what parsing a window means, merging,
 and the bytes a message serialises to.  The objects of MessageObjects.dfy are proved against
 these functions.
 */
module Messages {
  import opened Wrappers
  import opened WireFormat
  import opened Schema

  datatype Scalar =
    | Num(n: nat)              // enum, uint32; 0 or 1 for bool
    | Text(s: bytes)

  /** The values a setter of this kind of field accepts. */
  predicate NormalScalar(k: Kind, v: Scalar)
  {
    match k
    case EnumField(lo, hi, _) => v.Num? && lo <= v.n <= hi
    case UInt32Field => v.Num? && v.n < TWO_32
    case BoolField => v.Num? && v.n <= 1
    case StringField => v.Text? && |v.s| < TWO_32
    case _ => false
  }

  /** What is present, for field numbers 1 to 6, and the unknown set in arrival order. */
  datatype Msg = Msg(f1: Slot, f2: Slot, f3: Slot, f4: Slot, f5: Slot, f6: Slot, unknown: seq<Record>)

  /** The storage of one field number: at most one part is used, the one its kind calls for. */
  datatype Slot = Slot(scalar: Option<Scalar>, sub: Option<Msg>, items: seq<Msg>)

  const CLEAR := Slot(None, None, [])

  /** A freshly constructed message, of any type. */
  const EMPTY := Msg(CLEAR, CLEAR, CLEAR, CLEAR, CLEAR, CLEAR, [])

  function Get(m: Msg, n: nat): Slot
  {
    if n == 1 then m.f1 else if n == 2 then m.f2 else if n == 3 then m.f3
    else if n == 4 then m.f4 else if n == 5 then m.f5 else if n == 6 then m.f6
    else CLEAR
  }

  function Put(m: Msg, n: nat, s: Slot): Msg
  {
    if n == 1 then m.(f1 := s) else if n == 2 then m.(f2 := s) else if n == 3 then m.(f3 := s)
    else if n == 4 then m.(f4 := s) else if n == 5 then m.(f5 := s) else if n == 6 then m.(f6 := s)
    else m
  }

  /** The sub-message a MessageField record is parsed into. */
  function Target(s: Slot): Msg
  {
    if s.sub.Some? then s.sub.value else EMPTY
  }

  /* ---------- parsing ---------- */

  /** static_cast<int>(uint32) */
  function ToInt32(u: nat): (n: int)
    requires u < TWO_32
    ensures -TWO_31 <= n < TWO_31
  {
    if u < TWO_31 then u else u - TWO_32
  }

  /** static_cast<uint64>(int): sign extension */
  function ToUInt64(n: int): (u: nat)
    requires -TWO_31 <= n < TWO_31
    ensures u < TWO_64
  {
    if n < 0 then n + TWO_64 else n
  }

  /** The int an enum field's varint is read as. */
  function EnumNumber(value: nat): (n: int)
    ensures -TWO_31 <= n < TWO_31
  {
    ToInt32(value % TWO_32)
  }

  function AddUnknown(m: Msg, r: Record): Msg
  {
    m.(unknown := m.unknown + [r])
  }

  function SetScalar(m: Msg, n: nat, v: Scalar): Msg
  {
    Put(m, n, Get(m, n).(scalar := Some(v)))
  }

  function SetSub(m: Msg, n: nat, sub: Msg): Msg
  {
    Put(m, n, Get(m, n).(sub := Some(sub)))
  }

  function AddItem(m: Msg, n: nat, item: Msg): Msg
  {
    Put(m, n, Get(m, n).(items := Get(m, n).items + [item]))
  }

  /** Does the parser of t look at this record in one of its cases? */
  predicate Known(t: MessageType, r: Record)
  {
    var k := KindOf(t, r.num);
    k.Some? && WireTypeOf(r) == WireTypeFor(k.value)
  }

  function AbsorbAll(t: MessageType, m: Msg, rs: seq<Record>): Option<Msg>
    decreases Rank(t), 1, |rs|
  {
    if rs == [] then Some(m)
    else
      match Absorb(t, m, rs[0])
      case Some(m') => AbsorbAll(t, m', rs[1..])
      case None => None
  }

  /** Merges a whole window into m, as ReadMessageNoVirtual does: it must be consumed to its end. */
  function ParseWindow(t: MessageType, m: Msg, bs: bytes): Option<Msg>
    decreases Rank(t), 2
  {
    var s := ScanRecords(bs, SubMessageNumbers(t));
    if s.stop.AtEnd? then AbsorbAll(t, m, s.recs) else None
  }

  /** One record arriving at message m; None when a sub-message does not parse. */
  function Absorb(t: MessageType, m: Msg, r: Record): Option<Msg>
    decreases Rank(t), 0
  {
    if !Known(t, r) then Some(AddUnknown(m, r))
    else
      match KindOf(t, r.num).value
      case EnumField(lo, hi, _) =>
        var n := EnumNumber(r.value);
        if 0 <= lo <= n <= hi then Some(SetScalar(m, r.num, Num(n)))
        else Some(AddUnknown(m, Varint(r.num, ToUInt64(n))))
      case UInt32Field => Some(SetScalar(m, r.num, Num(r.value % TWO_32)))
      case BoolField => Some(SetScalar(m, r.num, Num(if r.value != 0 then 1 else 0)))
      case StringField => Some(SetScalar(m, r.num, Text(r.raw)))
      case MessageField(c) =>
        (match ParseWindow(c, Target(Get(m, r.num)), r.raw)
         case Some(sub) => Some(SetSub(m, r.num, sub))
         case None => None)
      case RepeatedField(c) =>
        (match ParseWindow(c, EMPTY, r.raw)
         case Some(sub) => Some(AddItem(m, r.num, sub))
         case None => None)
  }

  function Parse(t: MessageType, bs: bytes): Option<Msg>
  {
    ParseWindow(t, EMPTY, bs)
  }

  /* ---------- merging ---------- */

  /** MergeFrom, one field: scalars and strings are replaced, sub-messages merged, repeated appended. */
  function MergeSlot(a: Slot, b: Slot): Slot
    decreases b
  {
    Slot(
      if b.scalar.Some? then b.scalar else a.scalar,
      if b.sub.Some? then Some(Merge(Target(a), b.sub.value)) else a.sub,
      a.items + b.items)
  }

  function Merge(a: Msg, b: Msg): Msg
    decreases b
  {
    Msg(
      MergeSlot(a.f1, b.f1), MergeSlot(a.f2, b.f2), MergeSlot(a.f3, b.f3),
      MergeSlot(a.f4, b.f4), MergeSlot(a.f5, b.f5), MergeSlot(a.f6, b.f6),
      a.unknown + b.unknown)
  }

  /* ---------- serialising ---------- */

  function ItemRecords(n: nat, c: MessageType, items: seq<Msg>): (rs: seq<Record>)
    ensures |rs| == |items|
    decreases Rank(c), 3
  {
    seq(|items|, j requires 0 <= j < |items| => Delimited(n, Serialize(c, items[j])))
  }

  function ScalarRecord(n: nat, v: Scalar): Record
  {
    match v
    case Num(x) => Varint(n, x)
    case Text(s) => Delimited(n, s)
  }

  function NumberRecords(t: MessageType, m: Msg, n: nat): seq<Record>
    requires 1 <= n <= |Fields(t)|
    decreases Rank(t), 0
  {
    var s := Get(m, n);
    match KindOf(t, n).value
    case MessageField(c) => if s.sub.Some? then [Delimited(n, Serialize(c, s.sub.value))] else []
    case RepeatedField(c) => ItemRecords(n, c, s.items)
    case _ => if s.scalar.Some? then [ScalarRecord(n, s.scalar.value)] else []
  }

  /** The records of fields n, n + 1, ... */
  function FieldRecords(t: MessageType, m: Msg, n: nat): seq<Record>
    requires 1 <= n <= |Fields(t)| + 1
    decreases Rank(t), 1, |Fields(t)| + 1 - n
  {
    if n > |Fields(t)| then []
    else NumberRecords(t, m, n) + FieldRecords(t, m, n + 1)
  }

  /** Known fields in number order, then the unknown set in arrival order. */
  function Records(t: MessageType, m: Msg): seq<Record>
    decreases Rank(t), 1, |Fields(t)| + 1
  {
    FieldRecords(t, m, 1) + m.unknown
  }

  function Serialize(t: MessageType, m: Msg): bytes
    decreases Rank(t), 2
  {
    EncodeAll(Records(t, m))
  }
}
