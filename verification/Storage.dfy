/**
 The data members of the generated classes: per field a has-bit, the member itself and, for
 messages, a pointer that Clear leaves in place.
 */
module Storage {
  import opened Wrappers
  import opened WireFormat
  import opened Schema
  import opened Messages

  datatype Store = Store(
    c1: Cell, c2: Cell, c3: Cell, c4: Cell, c5: Cell, c6: Cell,
    unknown: seq<Record>, cachedSize: nat)

  datatype Cell = Cell(has: bool, scalar: Scalar, sub: Option<Store>, items: seq<Store>)

  function GetCell(s: Store, n: nat): Cell
  {
    if n == 1 then s.c1 else if n == 2 then s.c2 else if n == 3 then s.c3
    else if n == 4 then s.c4 else if n == 5 then s.c5 else s.c6
  }

  function PutCell(s: Store, n: nat, c: Cell): Store
  {
    if n == 1 then s.(c1 := c) else if n == 2 then s.(c2 := c) else if n == 3 then s.(c3 := c)
    else if n == 4 then s.(c4 := c) else if n == 5 then s.(c5 := c) else s.(c6 := c)
  }

  /** The value a member holds while its has-bit is off. */
  function Default(t: MessageType, n: nat): Scalar
  {
    match KindOf(t, n)
    case Some(EnumField(_, _, d)) => Num(d)
    case Some(StringField) => Text([])
    case _ => Num(0)
  }

  function BlankCell(t: MessageType, n: nat): Cell
  {
    Cell(false, Default(t, n), None, [])
  }

  /** SharedCtor */
  function Blank(t: MessageType): Store
  {
    Store(BlankCell(t, 1), BlankCell(t, 2), BlankCell(t, 3),
          BlankCell(t, 4), BlankCell(t, 5), BlankCell(t, 6), [], 0)
  }

  function Values(t: MessageType, ss: seq<Store>): (ms: seq<Msg>)
    ensures |ms| == |ss|
    decreases Rank(t), 2
  {
    seq(|ss|, j requires 0 <= j < |ss| => Value(t, ss[j]))
  }

  function SlotOf(t: MessageType, n: nat, c: Cell): Slot
    decreases Rank(t), 0
  {
    match KindOf(t, n)
    case None => CLEAR
    case Some(MessageField(child)) =>
      if c.has && c.sub.Some? then CLEAR.(sub := Some(Value(child, c.sub.value))) else CLEAR
    case Some(RepeatedField(child)) => CLEAR.(items := Values(child, c.items))
    case _ => if c.has then CLEAR.(scalar := Some(c.scalar)) else CLEAR
  }

  /** The message the members stand for. */
  function Value(t: MessageType, s: Store): Msg
    decreases Rank(t), 1
  {
    Msg(SlotOf(t, 1, s.c1), SlotOf(t, 2, s.c2), SlotOf(t, 3, s.c3),
        SlotOf(t, 4, s.c4), SlotOf(t, 5, s.c5), SlotOf(t, 6, s.c6), s.unknown)
  }

  predicate SoundCell(t: MessageType, n: nat, c: Cell)
    decreases Rank(t), 0
  {
    match KindOf(t, n)
    case None => c == BlankCell(t, n)
    case Some(MessageField(child)) =>
      && c.scalar == Default(t, n) && c.items == []
      && (c.sub.None? ==> !c.has)
      && (c.sub.Some? ==> Sound(child, c.sub.value) && (!c.has ==> Value(child, c.sub.value) == EMPTY))
    case Some(RepeatedField(child)) =>
      && !c.has && c.scalar == Default(t, n) && c.sub.None?
      && forall x | x in c.items :: Sound(child, x)
    case Some(k) =>
      && c.sub.None? && c.items == [] && NormalScalar(k, c.scalar)
      && (!c.has ==> c.scalar == Default(t, n))
  }

  /** The invariant: a member whose has-bit is off holds its default. */
  predicate Sound(t: MessageType, s: Store)
    decreases Rank(t), 1
  {
    && SoundCell(t, 1, s.c1) && SoundCell(t, 2, s.c2) && SoundCell(t, 3, s.c3)
    && SoundCell(t, 4, s.c4) && SoundCell(t, 5, s.c5) && SoundCell(t, 6, s.c6)
    && AllWellFormed(s.unknown)
  }

  lemma SoundAt(t: MessageType, s: Store, n: nat)
    requires Sound(t, s) && 1 <= n <= 6
    ensures SoundCell(t, n, GetCell(s, n))
    ensures Get(Value(t, s), n) == SlotOf(t, n, GetCell(s, n))
  {
    hide SoundCell, SlotOf;
  }

  lemma SoundPut(t: MessageType, s: Store, n: nat, c: Cell)
    requires Sound(t, s) && 1 <= n <= 6 && SoundCell(t, n, c)
    ensures Sound(t, PutCell(s, n, c))
    ensures Value(t, PutCell(s, n, c)) == Put(Value(t, s), n, SlotOf(t, n, c))
  {
    hide SoundCell, SlotOf;
  }

  lemma BlankCellSound(t: MessageType, n: nat)
    ensures SoundCell(t, n, BlankCell(t, n)) && SlotOf(t, n, BlankCell(t, n)) == CLEAR
  {
    hide Fields;
    match KindOf(t, n)
    case Some(RepeatedField(child)) => assert Values(child, []) == [];
    case _ =>
  }

  lemma BlankSound(t: MessageType)
    ensures Sound(t, Blank(t)) && Value(t, Blank(t)) == EMPTY
  {
    hide SoundCell, SlotOf, BlankCell;
    BlankCellSound(t, 1);
    BlankCellSound(t, 2);
    BlankCellSound(t, 3);
    BlankCellSound(t, 4);
    BlankCellSound(t, 5);
    BlankCellSound(t, 6);
  }

  /** The accessors ignore the has-bit, and yet an absent field reads as its default. */
  lemma AbsentReadsDefault(t: MessageType, s: Store, n: nat)
    requires Sound(t, s) && 1 <= n <= |Fields(t)| && !GetCell(s, n).has
    ensures match KindOf(t, n).value
            case MessageField(child) => GetCell(s, n).sub.Some? ==> Value(child, GetCell(s, n).sub.value) == EMPTY
            case RepeatedField(_) => true
            case _ => GetCell(s, n).scalar == Default(t, n)
  {
    hide Fields;
    SoundAt(t, s, n);
  }

  /* ---------- required fields ---------- */

  predicate InitializedSlot(t: MessageType, n: nat, s: Slot)
    decreases Rank(t), 0
  {
    match KindOf(t, n)
    case None => true
    case Some(MessageField(child)) => s.sub.Some? ==> Initialized(child, s.sub.value)
    case Some(RepeatedField(child)) => forall x | x in s.items :: Initialized(child, x)
    case _ => Fields(t)[n - 1].required ==> s.scalar.Some?
  }

  /** IsInitialized on the message: required fields present, at every level. */
  predicate Initialized(t: MessageType, m: Msg)
    decreases Rank(t), 1
  {
    && InitializedSlot(t, 1, m.f1) && InitializedSlot(t, 2, m.f2) && InitializedSlot(t, 3, m.f3)
    && InitializedSlot(t, 4, m.f4) && InitializedSlot(t, 5, m.f5) && InitializedSlot(t, 6, m.f6)
  }

  /* ---------- cached sizes ---------- */

  predicate CachedCell(t: MessageType, n: nat, c: Cell)
    decreases Rank(t), 3
  {
    match KindOf(t, n)
    case Some(MessageField(child)) => c.has && c.sub.Some? ==> Cached(child, c.sub.value)
    case Some(RepeatedField(child)) => forall x | x in c.items :: Cached(child, x)
    case _ => true
  }

  /** After ByteSize: every present message, at every level, remembers its serialised size. */
  predicate Cached(t: MessageType, s: Store)
    decreases Rank(t), 4
  {
    && s.cachedSize == |Serialize(t, Value(t, s))|
    && CachedCell(t, 1, s.c1) && CachedCell(t, 2, s.c2) && CachedCell(t, 3, s.c3)
    && CachedCell(t, 4, s.c4) && CachedCell(t, 5, s.c5) && CachedCell(t, 6, s.c6)
  }

  /** The bytes of one field number. */
  function FieldBytes(t: MessageType, m: Msg, n: nat): bytes
  {
    if KindOf(t, n).Some? then EncodeAll(NumberRecords(t, m, n)) else []
  }

  lemma {:induction false} FieldRecordsBytes(t: MessageType, m: Msg, n: nat)
    requires 1 <= n <= |Fields(t)|
    ensures EncodeAll(FieldRecords(t, m, n)) == FieldBytes(t, m, n) + EncodeAll(FieldRecords(t, m, n + 1))
  {
    hide Fields, NumberRecords, Encode;
    EncodeAllAppend(NumberRecords(t, m, n), FieldRecords(t, m, n + 1));
  }

  lemma FieldRecordsEnd(t: MessageType, m: Msg)
    ensures FieldRecords(t, m, |Fields(t)| + 1) == [] && EncodeAll([]) == []
  {
    hide Fields;
  }

  /** Serialize from field n on. */
  function BytesFrom(t: MessageType, m: Msg, n: nat): bytes
    requires 1 <= n <= 7
    decreases 7 - n
  {
    if n == 7 then EncodeAll(m.unknown) else FieldBytes(t, m, n) + BytesFrom(t, m, n + 1)
  }

  lemma NoFieldBytes(t: MessageType, m: Msg, n: nat)
    requires n > |Fields(t)|
    ensures FieldBytes(t, m, n) == []
  {
    hide Fields;
  }

  lemma {:induction false} BytesFromIsFieldRecords(t: MessageType, m: Msg, n: nat)
    requires 1 <= n <= 7
    ensures BytesFrom(t, m, n) ==
            if n <= |Fields(t)| then EncodeAll(FieldRecords(t, m, n)) + EncodeAll(m.unknown) else EncodeAll(m.unknown)
    decreases 7 - n
  {
    hide Fields, FieldRecords, FieldBytes, EncodeAll, KindOf;
    if n < 7 {
      BytesFromIsFieldRecords(t, m, n + 1);
      if n <= |Fields(t)| {
        FieldRecordsBytes(t, m, n);
        ConcatAssoc(FieldBytes(t, m, n), EncodeAll(FieldRecords(t, m, n + 1)), EncodeAll(m.unknown));
        if n == |Fields(t)| {
          FieldRecordsEnd(t, m);
          assert EncodeAll(FieldRecords(t, m, n + 1)) + EncodeAll(m.unknown) == EncodeAll(m.unknown);
        }
      } else {
        NoFieldBytes(t, m, n);
        assert [] + EncodeAll(m.unknown) == EncodeAll(m.unknown);
      }
    }
  }

  lemma SerializeIsBytesFrom(t: MessageType, m: Msg)
    ensures Serialize(t, m) == BytesFrom(t, m, 1)
  {
    hide Fields, FieldRecords, EncodeAll;
    BytesFromIsFieldRecords(t, m, 1);
    EncodeAllAppend(FieldRecords(t, m, 1), m.unknown);
  }

  lemma SizeIsSum(t: MessageType, m: Msg)
    ensures |Serialize(t, m)| ==
            |FieldBytes(t, m, 1)| + |FieldBytes(t, m, 2)| + |FieldBytes(t, m, 3)| +
            |FieldBytes(t, m, 4)| + |FieldBytes(t, m, 5)| + |FieldBytes(t, m, 6)| + |EncodeAll(m.unknown)|
  {
    hide FieldBytes, Serialize, EncodeAll;
    SerializeIsBytesFrom(t, m);
    assert BytesFrom(t, m, 5) == FieldBytes(t, m, 5) + (FieldBytes(t, m, 6) + BytesFrom(t, m, 7));
    assert BytesFrom(t, m, 3) == FieldBytes(t, m, 3) + (FieldBytes(t, m, 4) + BytesFrom(t, m, 5));
    assert BytesFrom(t, m, 1) == FieldBytes(t, m, 1) + (FieldBytes(t, m, 2) + BytesFrom(t, m, 3));
  }

  lemma TagSize(n: nat, wireType: nat)
    requires 1 <= n <= 6 && wireType < 8
    ensures |EncodeVarint(MakeTag(n, wireType))| == 1
  {
  }

  lemma OneRecord(r: Record)
    ensures EncodeAll([r]) == Encode(r)
  {
    hide Encode;
    assert EncodeAll([r][1..]) == [];
  }

  lemma ItemRecordsSnoc(n: nat, c: MessageType, items: seq<Msg>, item: Msg)
    ensures EncodeAll(ItemRecords(n, c, items + [item])) ==
            EncodeAll(ItemRecords(n, c, items)) + Encode(Delimited(n, Serialize(c, item)))
  {
    hide Encode, Serialize;
    var r := Delimited(n, Serialize(c, item));
    assert ItemRecords(n, c, items + [item]) == ItemRecords(n, c, items) + [r];
    EncodeAllAppend(ItemRecords(n, c, items), [r]);
    OneRecord(r);
  }
}
