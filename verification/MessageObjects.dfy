/**
 A generated message class: its members are updated in place, field by field, and sub-messages
 are reached through the objects that own them.
 */
module MessageObjects {
  import opened Wrappers
  import opened WireFormat
  import opened Schema
  import opened Messages
  import opened MergeLaws
  import opened NormalForm
  import opened Storage
  import opened PlainLoop
  import opened CodedStreams

  /** Clear looks at the has-bits first, except where it zeroes the members unconditionally. */
  predicate ClearIsGuarded(t: MessageType)
  {
    !(t.Resolution? || t.Frequency? || t.ImageDiff? || t.Button?)
  }

  predicate AnyHas(s: Store)
  {
    s.c1.has || s.c2.has || s.c3.has || s.c4.has || s.c5.has || s.c6.has
  }

  function TagOf(t: MessageType, n: nat): (tag: nat)
    requires 1 <= n <= |Fields(t)|
    ensures 0 < tag < 128 && tag / 8 == n && tag % 8 == WireTypeFor(KindOf(t, n).value)
  {
    MakeTag(n, WireTypeFor(KindOf(t, n).value))
  }

  /** 1 + LengthDelimitedSize(size) */
  lemma DelimitedSize(n: nat, raw: bytes)
    requires 1 <= n <= 6 && |raw| < TWO_31
    ensures |Encode(Delimited(n, raw))| == 1 + VarintSize(|raw|) + |raw|
  {
    TagSize(n, LENGTH_DELIMITED);
    VarintSizeIsLength(|raw|);
  }

  lemma ScalarSize(n: nat, v: Scalar)
    requires 1 <= n <= 6 && (v.Num? ==> v.n < TWO_32) && (v.Text? ==> |v.s| < TWO_31)
    ensures |Encode(ScalarRecord(n, v))| ==
            1 + if v.Num? then VarintSize(v.n) else VarintSize(|v.s|) + |v.s|
  {
    match v
    case Num(x) =>
      TagSize(n, VARINT);
      VarintSizeIsLength(x);
    case Text(raw) => DelimitedSize(n, raw);
  }

  lemma {:induction false} NumberInRecords(t: MessageType, m: Msg, n: nat, k: nat)
    requires 1 <= k <= n <= |Fields(t)|
    ensures forall r | r in NumberRecords(t, m, n) :: r in FieldRecords(t, m, k)
    decreases n - k
  {
    hide Fields, NumberRecords;
    assert FieldRecords(t, m, k) == NumberRecords(t, m, k) + FieldRecords(t, m, k + 1);
    if k < n {
      NumberInRecords(t, m, n, k + 1);
    }
  }

  /** Sub-messages of a message that fits an int fit one too. */
  lemma NumberFits(t: MessageType, m: Msg, n: nat)
    requires Fits(t, m) && KindOf(t, n).Some?
    ensures forall r | r in NumberRecords(t, m, n) :: |Encode(r)| < TWO_31
  {
    hide Fields, Encode, NumberRecords;
    RecordsFit(t, m);
    NumberInRecords(t, m, n, 1);
  }

  /** No part of the field is as long as a length prefix cannot say. */
  predicate SlotFits(t: MessageType, n: nat, s: Slot)
  {
    match KindOf(t, n)
    case Some(MessageField(c)) => s.sub.Some? ==> Fits(c, s.sub.value)
    case Some(RepeatedField(c)) => forall x | x in s.items :: Fits(c, x)
    case Some(StringField) => s.scalar.Some? && s.scalar.value.Text? ==> |s.scalar.value.s| < TWO_31
    case _ => true
  }

  lemma SubFits(t: MessageType, m: Msg, n: nat)
    requires Fits(t, m) && KindOf(t, n).Some?
    ensures SlotFits(t, n, Get(m, n))
  {
    hide Fields, Encode, Serialize;
    NumberFits(t, m, n);
    var s := Get(m, n);
    var k := KindOf(t, n).value;
    if k.MessageField? && s.sub.Some? {
      EncodeLonger(Delimited(n, Serialize(k.of, s.sub.value)));
      assert Delimited(n, Serialize(k.of, s.sub.value)) in NumberRecords(t, m, n);
    } else if k.RepeatedField? {
      forall x | x in s.items
        ensures Fits(k.of, x)
      {
        var j :| 0 <= j < |s.items| && s.items[j] == x;
        assert NumberRecords(t, m, n)[j] == Delimited(n, Serialize(k.of, x));
        EncodeLonger(Delimited(n, Serialize(k.of, x)));
      }
    } else if k.StringField? && s.scalar.Some? && s.scalar.value.Text? {
      EncodeLonger(Delimited(n, s.scalar.value.s));
      assert Delimited(n, s.scalar.value.s) in NumberRecords(t, m, n);
    }
  }

  lemma InitializedAt(t: MessageType, m: Msg, n: nat)
    requires 1 <= n <= 6
    ensures Initialized(t, m) ==> InitializedSlot(t, n, Get(m, n))
  {
    hide InitializedSlot;
  }

  lemma InitializedAll(t: MessageType, m: Msg)
    requires forall k | 1 <= k < 7 :: InitializedSlot(t, k, Get(m, k))
    ensures Initialized(t, m)
  {
    hide InitializedSlot;
    assert InitializedSlot(t, 1, Get(m, 1)) && InitializedSlot(t, 2, Get(m, 2)) && InitializedSlot(t, 3, Get(m, 3));
    assert InitializedSlot(t, 4, Get(m, 4)) && InitializedSlot(t, 5, Get(m, 5)) && InitializedSlot(t, 6, Get(m, 6));
  }

  class MessageObject {
    const t: MessageType
    var mem: Store

    ghost predicate Valid()
      reads this
    {
      Sound(t, mem)
    }

    ghost function Val(): Msg
      reads this
    {
      Value(t, mem)
    }

    constructor (t: MessageType)
      ensures this.t == t && Valid() && Val() == EMPTY
    {
      this.t := t;
      mem := Blank(t);
      BlankSound(t);
    }

    /** The object behind an owned pointer. */
    constructor Of(t: MessageType, s: Store)
      ensures this.t == t && mem == s
    {
      this.t := t;
      mem := s;
    }

    /* ---------- accessors ---------- */

    method SetScalar(n: nat, v: Scalar)
      requires Valid() && 1 <= n <= |Fields(t)| && NormalScalar(KindOf(t, n).value, v)
      modifies this`mem
      ensures Valid() && Val() == Messages.SetScalar(old(Val()), n, v)
    {
      hide Fields, Sound, Value;
      SoundAt(t, mem, n);
      var c := GetCell(mem, n).(has := true, scalar := v);
      SoundPut(t, mem, n, c);
      mem := PutCell(mem, n, c);
    }

    /** clear_x: the member goes back to its default, a sub-message is emptied where it is. */
    method ClearField(n: nat)
      requires Valid() && 1 <= n <= |Fields(t)|
      modifies this`mem
      ensures Valid() && Val() == Put(old(Val()), n, CLEAR)
      decreases Rank(t), 0
    {
      hide Fields, Sound, Value;
      SoundAt(t, mem, n);
      var c := GetCell(mem, n);
      var k := KindOf(t, n).value;
      if k.MessageField? {
        if c.sub.Some? {
          var o := new MessageObject.Of(k.of, c.sub.value);
          o.Clear();
          c := c.(sub := Some(o.mem));
        }
        c := c.(has := false);
      } else if k.RepeatedField? {
        c := c.(items := []);
        assert Values(k.of, []) == [];
      } else {
        c := c.(has := false, scalar := Default(t, n));
      }
      SoundPut(t, mem, n, c);
      mem := PutCell(mem, n, c);
    }

    /** release_x: the pointer is handed out and the field becomes absent. */
    method ReleaseSub(n: nat) returns (released: Option<Store>)
      requires Valid() && 1 <= n <= |Fields(t)| && KindOf(t, n).value.MessageField?
      modifies this`mem
      ensures Valid() && Val() == Put(old(Val()), n, CLEAR)
      ensures var child := KindOf(t, n).value.of;
              && (released.Some? ==> Sound(child, released.value))
              && (if released.Some? then Value(child, released.value) else EMPTY) == Target(Get(old(Val()), n))
    {
      hide Fields, Sound, Value;
      SoundAt(t, mem, n);
      var c := GetCell(mem, n);
      released := c.sub;
      c := c.(has := false, sub := None);
      SoundPut(t, mem, n, c);
      mem := PutCell(mem, n, c);
    }

    /** set_allocated_x: null makes the field absent. */
    method SetAllocatedSub(n: nat, s: Option<Store>)
      requires Valid() && 1 <= n <= |Fields(t)| && KindOf(t, n).value.MessageField?
      requires s.Some? ==> Sound(KindOf(t, n).value.of, s.value)
      modifies this`mem
      ensures Valid()
      ensures Val() == Put(old(Val()), n,
                if s.Some? then CLEAR.(sub := Some(Value(KindOf(t, n).value.of, s.value))) else CLEAR)
    {
      hide Fields, Sound, Value;
      SoundAt(t, mem, n);
      var c := GetCell(mem, n).(has := s.Some?, sub := s);
      SoundPut(t, mem, n, c);
      mem := PutCell(mem, n, c);
    }

    /** mutable_x: sets the has-bit; a pointer left behind by Clear is used again. */
    method MutableSub(n: nat) returns (s: Store)
      requires Valid() && 1 <= n <= |Fields(t)| && KindOf(t, n).value.MessageField?
      modifies this`mem
      ensures var child := KindOf(t, n).value.of;
              && Sound(child, s) && Value(child, s) == Target(Get(old(Val()), n))
      ensures Valid() && Val() == SetSub(old(Val()), n, Target(Get(old(Val()), n)))
      ensures GetCell(mem, n) == GetCell(old(mem), n).(has := true, sub := Some(s))
    {
      hide Fields, Sound, Value;
      var child := KindOf(t, n).value.of;
      SoundAt(t, mem, n);
      BlankSound(child);
      var c := GetCell(mem, n).(has := true);
      if c.sub.None? {
        c := c.(sub := Some(Blank(child)));
      }
      s := c.sub.value;
      SoundPut(t, mem, n, c);
      mem := PutCell(mem, n, c);
    }

    /** Writes back a sub-message that was changed through its pointer. */
    method StoreSub(n: nat, s: Store)
      requires Valid() && 1 <= n <= |Fields(t)| && KindOf(t, n).value.MessageField?
      requires Sound(KindOf(t, n).value.of, s)
      requires GetCell(mem, n).has
      modifies this`mem
      ensures Valid() && Val() == SetSub(old(Val()), n, Value(KindOf(t, n).value.of, s))
    {
      hide Fields, Sound, Value;
      SoundAt(t, mem, n);
      var c := GetCell(mem, n).(sub := Some(s));
      SoundPut(t, mem, n, c);
      mem := PutCell(mem, n, c);
    }

    /** add_touch */
    method AddItem(n: nat, s: Store)
      requires Valid() && 1 <= n <= |Fields(t)| && KindOf(t, n).value.RepeatedField?
      requires Sound(KindOf(t, n).value.of, s)
      modifies this`mem
      ensures Valid() && Val() == Messages.AddItem(old(Val()), n, Value(KindOf(t, n).value.of, s))
    {
      hide Fields, Sound, Value;
      var child := KindOf(t, n).value.of;
      SoundAt(t, mem, n);
      var c := GetCell(mem, n);
      c := c.(items := c.items + [s]);
      assert Values(child, c.items) == Values(child, GetCell(mem, n).items) + [Value(child, s)];
      SoundPut(t, mem, n, c);
      mem := PutCell(mem, n, c);
    }

    /* ---------- Clear ---------- */

    /** One member of Clear: a sub-message is visited only when its has-bit is on. */
    method ClearedCell(n: nat, c: Cell) returns (c': Cell)
      requires SoundCell(t, n, c) && 1 <= n <= 6
      ensures SoundCell(t, n, c') && SlotOf(t, n, c') == CLEAR && !c'.has
      decreases Rank(t), 0
    {
      hide Fields, Sound, Value;
      var k := KindOf(t, n);
      c' := c;
      if k.None? {
        assert !c.has;
      } else if k.value.MessageField? {
        if c.has && c.sub.Some? {
          var o := new MessageObject.Of(k.value.of, c.sub.value);
          o.Clear();
          c' := c.(sub := Some(o.mem));
        }
      } else if k.value.RepeatedField? {
        c' := c.(items := []);
        assert Values(k.value.of, []) == [];
      } else if k.value.StringField? {
        if c.has {
          c' := c.(scalar := Text([]));
        }
      } else {
        c' := c.(scalar := Default(t, n));
      }
      c' := c'.(has := false);
    }

    method ClearMember(n: nat)
      requires Valid() && 1 <= n <= 6
      modifies this`mem
      ensures Valid() && Val() == Put(old(Val()), n, CLEAR)
      ensures forall k :: 1 <= k <= 6 && k != n ==> GetCell(mem, k) == GetCell(old(mem), k)
      ensures !GetCell(mem, n).has
      decreases Rank(t), 1
    {
      hide Fields, Sound, Value, SoundCell, SlotOf, Put;
      SoundAt(t, mem, n);
      var c := ClearedCell(n, GetCell(mem, n));
      SoundPut(t, mem, n, c);
      mem := PutCell(mem, n, c);
    }

    /** touch_.Clear(): repeated fields are emptied whether or not a has-bit is on. */
    method ClearLists()
      requires Valid() && !AnyHas(mem)
      modifies this`mem
      ensures Valid() && !AnyHas(mem) && Val() == EMPTY.(unknown := old(Val()).unknown)
      decreases Rank(t), 2
    {
      if t.Message? {
        ClearMember(2);
      }
      AbsentIsClear();
    }

    lemma AbsentIsClear()
      requires Valid() && !AnyHas(mem) && (t.Message? ==> mem.c2.items == [] || Val().f2 == CLEAR)
      ensures Val() == EMPTY.(unknown := Val().unknown)
    {
      hide Value, Sound;
      SoundAt(t, mem, 1);
      SoundAt(t, mem, 2);
      SoundAt(t, mem, 3);
      SoundAt(t, mem, 4);
      SoundAt(t, mem, 5);
      SoundAt(t, mem, 6);
      if t.Message? && mem.c2.items == [] {
        assert Values(Touch, []) == [];
      }
    }

    method Clear()
      requires Valid()
      modifies this`mem
      ensures Valid() && Val() == EMPTY
      decreases Rank(t), 3
    {
      hide Fields, Sound, Value;
      if !ClearIsGuarded(t) || AnyHas(mem) {
        ClearMember(1);
        ClearMember(2);
        ClearMember(3);
        ClearMember(4);
        ClearMember(5);
        ClearMember(6);
      }
      ClearLists();
      ghost var before := mem;
      mem := mem.(unknown := []);
      UnknownReplaced(before);
    }

    /* ---------- MergePartialFromCodedStream ---------- */

    /**
     The effect of parsing field n's payload, as one record arriving. In a window cut by the
     total limit a sub-message may be rejected although its bytes can be parsed.
     */
    ghost predicate Absorbed(n: nat, window: bytes, m: Msg, ok: bool, m': Msg, window': bytes, cut: bool)
      requires 1 <= n <= |Fields(t)|
    {
      var p := ReadPayload(n, WireTypeFor(KindOf(t, n).value), window, SubMessageNumbers(t));
      if p.NoField? then !ok
      else
        var res := Absorb(t, m, p.r);
        && (ok ==> res == Some(m') && window' == p.rest)
        && (!ok && !cut ==> res.None?)
    }

    method ParseNumber(n: nat, input: CodedInputStream) returns (ok: bool)
      requires Valid() && input.Valid() && !input.legitimateEnd
      requires 1 <= n <= |Fields(t)| && WireTypeFor(KindOf(t, n).value) == VARINT
      modifies this`mem, input
      ensures Valid() && input.Valid()
      ensures input.limit == old(input.limit) && !input.legitimateEnd
      ensures Absorbed(n, old(input.Window()), old(Val()), ok, Val(), input.Window(), old(input.Cut()))
    {
      hide Fields, Sound, Value, ReadGroups;
      var k := KindOf(t, n).value;
      var v;
      if k.BoolField? {
        ok, v := input.ReadVarint64();
        if ok {
          SetScalar(n, Num(if v != 0 then 1 else 0));
        }
      } else {
        ok, v := input.ReadVarint32();
        if ok {
          if k.UInt32Field? {
            SetScalar(n, Num(v));
          } else {
            var number := ToInt32(v);
            if 0 <= k.lo <= number <= k.hi {
              SetScalar(n, Num(number));
            } else {
              UnknownIsKept();
              mem := mem.(unknown := mem.unknown + [Varint(n, ToUInt64(number))]);
              UnknownReplaced(old(mem));
            }
          }
        }
      }
    }

    lemma UnknownReplaced(before: Store)
      requires Sound(t, before) && mem == before.(unknown := mem.unknown) && AllWellFormed(mem.unknown)
      ensures Valid() && Val() == Value(t, before).(unknown := mem.unknown)
    {
      hide SoundCell, SlotOf;
    }

    lemma UnknownIsKept()
      ensures Val().unknown == mem.unknown && (Valid() ==> AllWellFormed(mem.unknown))
    {
      hide SoundCell, SlotOf;
    }

    method ParseString(n: nat, input: CodedInputStream) returns (ok: bool)
      requires Valid() && input.Valid() && !input.legitimateEnd
      requires 1 <= n <= |Fields(t)| && KindOf(t, n) == Some(StringField)
      modifies this`mem, input
      ensures Valid() && input.Valid()
      ensures input.limit == old(input.limit) && !input.legitimateEnd
      ensures Absorbed(n, old(input.Window()), old(Val()), ok, Val(), input.Window(), old(input.Cut()))
    {
      hide Fields, Sound, Value, ReadVarint64;
      var size, raw;
      ok, size := input.ReadVarint32();
      if !ok {
        return;
      }
      ok, raw := input.ReadBytes(size);
      if ok {
        SetScalar(n, Text(raw));
      }
      assert n !in SubMessageNumbers(t);
    }

    /** ReadMessageNoVirtual: a length, a pushed limit, and a parse that must reach that limit. */
    static method ReadMessage(child: MessageType, base: Store, input: CodedInputStream) returns (ok: bool, s: Store)
      requires Sound(child, base) && input.Valid() && !input.legitimateEnd
      modifies input
      ensures Sound(child, s) && input.Valid()
      ensures ok ==> input.limit == old(input.limit) && !input.legitimateEnd
      ensures match ReadVarint32(old(input.Window()))
              case Got(size, rest) =>
                var n := Min(size, |rest|);
                var res := ParseWindow(child, Value(child, base), rest[..n]);
                && (ok ==> res == Some(Value(child, s)) && input.Window() == rest[n..])
                && (!ok && !old(input.Cut()) ==> res.None?)
              case _ => !ok
      decreases Rank(child), 3
    {
      hide Sound, Value, ReadVarint64, Loop, ParseWindow;
      s := base;
      var size;
      ok, size := input.ReadVarint32();
      if !ok {
        return;
      }
      ghost var rest, start := input.Window(), input.pos;
      var oldLimit := input.PushLimit(size);
      var o := new MessageObject.Of(child, base);
      WindowIsLoop(child, Value(child, base), input.Window());
      ok := o.MergePartialFromCodedStream(input);
      s := o.mem;
      if !ok || !input.legitimateEnd {
        ok := false;
        return;
      }
      input.PopLimit(oldLimit);
      assert input.Window() == rest[Min(size, |rest|)..];
    }

    method ParseSub(n: nat, input: CodedInputStream) returns (ok: bool)
      requires Valid() && input.Valid() && !input.legitimateEnd
      requires 1 <= n <= |Fields(t)| && IsSubMessage(t, n)
      modifies this`mem, input
      ensures Valid() && input.Valid()
      ensures ok ==> input.limit == old(input.limit) && !input.legitimateEnd
      ensures Absorbed(n, old(input.Window()), old(Val()), ok, Val(), input.Window(), old(input.Cut()))
      decreases Rank(t), 0
    {
      hide Fields, Sound, Value, ReadVarint64, ParseWindow;
      var k := KindOf(t, n).value;
      var s;
      assert n in SubMessageNumbers(t);
      ghost var size := ReadVarint32(input.Window());
      assert size.Got? ==> size.rest[..|size.rest|] == size.rest;
      if k.MessageField? {
        s := MutableSub(n);
        ok, s := ReadMessage(k.of, s, input);
        if ok {
          StoreSub(n, s);
        }
      } else {
        BlankSound(k.of);
        ok, s := ReadMessage(k.of, Blank(k.of), input);
        if ok {
          AddItem(n, s);
        }
      }
    }

    method ParseField(n: nat, input: CodedInputStream) returns (ok: bool)
      requires Valid() && input.Valid() && !input.legitimateEnd
      requires 1 <= n <= |Fields(t)|
      modifies this`mem, input
      ensures Valid() && input.Valid()
      ensures ok ==> input.limit == old(input.limit) && !input.legitimateEnd
      ensures Absorbed(n, old(input.Window()), old(Val()), ok, Val(), input.Window(), old(input.Cut()))
      decreases Rank(t), 1
    {
      hide Fields, Absorbed;
      var k := KindOf(t, n).value;
      if IsSubMessage(t, n) {
        ok := ParseSub(n, input);
      } else if k.StringField? {
        ok := ParseString(n, input);
      } else {
        ok := ParseNumber(n, input);
      }
    }

    /** The ExpectTag tests after field n: the label to jump to, 0 for the top of the loop. */
    method NextLabel(n: nat, input: CodedInputStream) returns (next: nat, atEnd: bool)
      requires input.Valid() && !input.legitimateEnd && 1 <= n <= |Fields(t)|
      modifies input
      ensures input.Valid() && input.limit == old(input.limit)
      ensures next <= |Fields(t)|
      ensures next > 0 ==>
                && !atEnd && !input.legitimateEnd
                && ReadTag(old(input.Window())) == Tag(next, WireTypeFor(KindOf(t, next).value), input.Window())
      ensures next == 0 ==>
                && input.Window() == old(input.Window())
                && input.legitimateEnd == atEnd && (atEnd ==> input.Window() == [])
    {
      hide Fields;
      next, atEnd := 0, false;
      var found := false;
      if KindOf(t, n).value.RepeatedField? {
        found := input.ExpectTag(TagOf(t, n));
        if found {
          return n, false;
        }
      }
      if n < |Fields(t)| {
        found := input.ExpectTag(TagOf(t, n + 1));
        if found {
          return n + 1, false;
        }
      } else {
        atEnd := input.ExpectAtEnd();
      }
    }

    /** What a call of MergePartialFromCodedStream leaves behind when its outcome is o. */
    twostate predicate Ended(o: Outcome, ok: bool, input: CodedInputStream)
      requires input.Valid()
      reads this, input
    {
      && (ok ==>
            && o.Done? && Val() == o.m && input.Window() == o.rest
            && input.limit == old(input.limit) && (input.legitimateEnd ==> o.stop.AtEnd?))
      && (!old(input.Cut()) ==> ok == o.Done? && (ok ==> input.legitimateEnd == o.stop.AtEnd?))
    }

    /** handle_unusual as a step of the loop. */
    method SkipUnusual(num: nat, wireType: nat, input: CodedInputStream) returns (ok: bool)
      requires Valid() && input.Valid() && !input.legitimateEnd
      requires num < TWO_32 / 8 && MakeTag(num, wireType) > 0 && wireType != END_GROUP
      requires KindOf(t, num).None? || wireType != WireTypeFor(KindOf(t, num).value)
      modifies this`mem, input
      ensures Valid() && input.Valid() && input.limit == old(input.limit)
      ensures var o := AfterTag(t, old(Val()), num, wireType, old(input.Window()));
              if ok then
                && !input.legitimateEnd && o == Loop(t, Val(), input.Window())
                && |input.Window()| <= |old(input.Window())|
              else o == Failed
    {
      hide Fields, Sound, Value, Absorb, ReadPayload, ReadTag, Loop, AfterTag, KindOf, SubMessageNumbers;
      AfterTagStep(t, Val(), num, wireType, input.Window());
      ok := Unusual(num, wireType, input);
    }

    /**
     The top of the loop: a tag is read and dispatched on. The field to parse is n; it is 0 after
     handle_unusual has dealt with the field.
     */
    method TopOfLoop(input: CodedInputStream) returns (stopped: bool, ok: bool, n: nat)
      requires Valid() && input.Valid() && !input.legitimateEnd
      modifies this`mem, input
      ensures Valid() && input.Valid() && n <= |Fields(t)|
      ensures var o := Loop(t, old(Val()), old(input.Window()));
              if stopped then Ended(o, ok, input)
              else
                && input.limit == old(input.limit) && !input.legitimateEnd
                && |input.Window()| < |old(input.Window())|
                && o == if n == 0 then Loop(t, Val(), input.Window())
                        else AfterTag(t, Val(), n, WireTypeFor(KindOf(t, n).value), input.Window())
    {
      hide Fields, Sound, Value, Absorb, ReadPayload, ReadTag, Loop, AfterTag;
      stopped, ok, n := true, true, 0;
      LoopStep(t, Val(), input.Window());
      var tag := input.ReadTag();
      if tag == 0 || tag % 8 == END_GROUP {
        return;
      }
      n := tag / 8;
      stopped := false;
      if !(1 <= n <= |Fields(t)| && tag == TagOf(t, n)) {
        // handle_unusual
        ok := SkipUnusual(n, tag % 8, input);
        stopped, n := !ok, 0;
      }
    }

    /**
     MergePartialFromCodedStream.  After each field the next tag in order is tried first
     (ExpectTag and a goto); `next` is where that goto went, 0 for the top of the loop.
     */
    method MergePartialFromCodedStream(input: CodedInputStream) returns (ok: bool)
      requires Valid() && input.Valid() && !input.legitimateEnd
      modifies this`mem, input
      ensures Valid() && input.Valid()
      ensures Ended(Loop(t, old(Val()), old(input.Window())), ok, input)
      decreases Rank(t), 2
    {
      hide Fields, Sound, Value, Absorb, ReadPayload, ReadTag, Loop, AfterTag;
      ghost var o := Loop(t, Val(), input.Window());
      var next: nat := 0;
      while true
        invariant Valid() && input.Valid() && input.limit == old(input.limit) && !input.legitimateEnd
        invariant next <= |Fields(t)|
        invariant o == if next == 0 then Loop(t, Val(), input.Window())
                       else AfterTag(t, Val(), next, WireTypeFor(KindOf(t, next).value), input.Window())
        decreases |input.Window()|
      {
        var n: nat := next;
        if next == 0 {
          var stopped;
          stopped, ok, n := TopOfLoop(input);
          if stopped {
            return;
          }
          if n == 0 {
            continue;
          }
        }
        AfterTagStep(t, Val(), n, WireTypeFor(KindOf(t, n).value), input.Window());
        ok := ParseField(n, input);
        if !ok {
          return;
        }
        LoopStep(t, Val(), input.Window());
        var atEnd;
        next, atEnd := NextLabel(n, input);
        if atEnd {
          return;
        }
      }
    }

    /** A field no case of the parser takes goes to the unknown set. */
    method Unusual(num: nat, wireType: nat, input: CodedInputStream) returns (ok: bool)
      requires Valid() && input.Valid() && !input.legitimateEnd
      requires num < TWO_32 / 8 && MakeTag(num, wireType) > 0
      requires KindOf(t, num).None? || wireType != WireTypeFor(KindOf(t, num).value)
      modifies this`mem, input
      ensures Valid() && input.Valid() && input.limit == old(input.limit)
      ensures ok ==> !input.legitimateEnd
      ensures var p := ReadPayload(num, wireType, old(input.Window()), SubMessageNumbers(t));
              && ok == p.Field?
              && (ok ==> Absorb(t, old(Val()), p.r) == Some(Val()) && input.Window() == p.rest)
    {
      hide Fields, Sound, Value, ReadVarint64, ScanRecords;
      var r;
      ghost var window := input.Window();
      ok, r := SkipField(num, wireType, input);
      assert ReadPayload(num, wireType, window, {}) == ReadPayload(num, wireType, window, SubMessageNumbers(t)) by {
        if wireType == LENGTH_DELIMITED {
          assert num !in SubMessageNumbers(t);
        }
      }
      if ok {
        UnknownIsKept();
        PayloadWellFormed(num, wireType, window, {});
        mem := mem.(unknown := mem.unknown + [r]);
        UnknownReplaced(old(mem));
      }
    }

    /* ---------- ByteSize ---------- */

    /** MessageSizeNoVirtual of every element, elements updated with their cached sizes. */
    static method ItemsSize(n: nat, child: MessageType, items: seq<Store>) returns (size: nat, items': seq<Store>)
      requires 1 <= n <= 6
      requires forall x | x in items :: Sound(child, x)
      requires forall x | x in Values(child, items) :: Fits(child, x)
      ensures |items'| == |items| && Values(child, items') == Values(child, items)
      ensures forall x | x in items' :: Sound(child, x) && Cached(child, x)
      ensures size == |EncodeAll(ItemRecords(n, child, Values(child, items)))|
      decreases Rank(child), 3
    {
      hide Sound, Value, Cached, Encode, Serialize;
      size, items' := |items|, [];
      ghost var done: seq<Msg> := [];
      ghost var all := Values(child, items);
      assert ItemRecords(n, child, []) == [];
      var i := 0;
      while i < |items|
        invariant 0 <= i <= |items| && |items'| == i
        invariant done == all[..i] == Values(child, items')
        invariant forall x | x in items' :: Sound(child, x) && Cached(child, x)
        invariant size == |items| - i + |EncodeAll(ItemRecords(n, child, done))|
      {
        var o := new MessageObject.Of(child, items[i]);
        assert Value(child, items[i]) == all[i];
        var s := o.ByteSize();
        size := size + VarintSize(s) + s;
        DelimitedSize(n, Serialize(child, all[i]));
        ItemRecordsSnoc(n, child, done, all[i]);
        assert Values(child, items' + [o.mem]) == Values(child, items') + [Value(child, o.mem)];
        done := done + [all[i]];
        items' := items' + [o.mem];
        i := i + 1;
      }
      assert all[..i] == all;
    }

    static method SubSize(n: nat, child: MessageType, sub: Store) returns (size: nat, sub': Store)
      requires 1 <= n <= 6 && Sound(child, sub) && Fits(child, Value(child, sub))
      ensures Sound(child, sub') && Cached(child, sub') && Value(child, sub') == Value(child, sub)
      ensures size == |EncodeAll([Delimited(n, Serialize(child, Value(child, sub)))])|
      decreases Rank(child), 3
    {
      hide Sound, Value, Cached, Encode, Serialize;
      var o := new MessageObject.Of(child, sub);
      var s := o.ByteSize();
      DelimitedSize(n, Serialize(child, o.Val()));
      OneRecord(Delimited(n, Serialize(child, o.Val())));
      size, sub' := 1 + VarintSize(s) + s, o.mem;
    }

    /** What ByteSize adds for one member; nested messages update their cached sizes. */
    method CellSize(n: nat, c: Cell) returns (size: nat, c': Cell)
      requires SoundCell(t, n, c) && 1 <= n <= 6 && SlotFits(t, n, SlotOf(t, n, c))
      ensures SoundCell(t, n, c') && SlotOf(t, n, c') == SlotOf(t, n, c) && CachedCell(t, n, c')
      ensures forall m | Get(m, n) == SlotOf(t, n, c) :: size == |FieldBytes(t, m, n)|
      decreases Rank(t), 0
    {
      hide Fields, Sound, Value, Cached, Encode, Serialize, Fits;
      c', size := c, 0;
      var k := KindOf(t, n);
      if k.None? {
        return;
      }
      if k.value.MessageField? {
        if c.has {
          var s;
          size, s := SubSize(n, k.value.of, c.sub.value);
          c' := c.(sub := Some(s));
        }
      } else if k.value.RepeatedField? {
        var items;
        size, items := ItemsSize(n, k.value.of, c.items);
        c' := c.(items := items);
      } else if c.has {
        size := if c.scalar.Num? then 1 + VarintSize(c.scalar.n) else 1 + VarintSize(|c.scalar.s|) + |c.scalar.s|;
        ScalarSize(n, c.scalar);
        OneRecord(ScalarRecord(n, c.scalar));
      }
    }

    method FieldSize(n: nat) returns (size: nat)
      requires Valid() && Fits(t, Val()) && 1 <= n <= 6
      modifies this`mem
      ensures Valid() && Val() == old(Val())
      ensures size == |FieldBytes(t, Val(), n)| && CachedCell(t, n, GetCell(mem, n))
      ensures forall k :: 1 <= k <= 6 && k != n ==> GetCell(mem, k) == GetCell(old(mem), k)
      decreases Rank(t), 1
    {
      hide Fields, Sound, Value, SoundCell, SlotOf, FieldBytes, Fits, CachedCell;
      SoundAt(t, mem, n);
      if KindOf(t, n).Some? {
        SubFits(t, Val(), n);
      }
      var c;
      size, c := CellSize(n, GetCell(mem, n));
      SoundPut(t, mem, n, c);
      PutSame(Val(), n);
      mem := PutCell(mem, n, c);
    }

    method ByteSize() returns (size: nat)
      requires Valid() && Fits(t, Val())
      modifies this`mem
      ensures Valid() && Val() == old(Val())
      ensures size == |Serialize(t, Val())| && Cached(t, mem)
      decreases Rank(t), 2
    {
      hide Fields, Sound, Value, Serialize, CachedCell, FieldBytes, Fits, EncodeAll, UnknownSize;
      var s1 := FieldSize(1);
      var s2 := FieldSize(2);
      var s3 := FieldSize(3);
      var s4 := FieldSize(4);
      var s5 := FieldSize(5);
      var s6 := FieldSize(6);
      UnknownIsKept();
      UnknownSizeIsLength(mem.unknown);
      var u := UnknownSize(mem.unknown);
      size := s1 + s2 + s3 + s4 + s5 + s6 + u;
      ghost var before := mem;
      mem := mem.(cachedSize := size);
      CachedSizeIgnored(before);
      SizeIsSum(t, Val());
    }

    lemma CachedSizeIgnored(before: Store)
      requires mem == before.(cachedSize := mem.cachedSize)
      ensures Val() == Value(t, before) && Val().unknown == mem.unknown && (Sound(t, before) ==> Valid())
    {
      hide SoundCell, SlotOf;
    }

    /* ---------- SerializeWithCachedSizesToArray ---------- */

    /** WriteMessageNoVirtualToArray: tag, cached size, then the sub-message itself. */
    static method MessageToArray(n: nat, child: MessageType, sub: Store, target: array<byte>, at: nat)
      returns (end: nat)
      requires 1 <= n <= 6 && Sound(child, sub) && Cached(child, sub) && Fits(child, Value(child, sub))
      requires at + |Encode(SubRecord(n, child, Value(child, sub)))| <= target.Length
      modifies target
      ensures end == at + |Encode(SubRecord(n, child, Value(child, sub)))|
      ensures target[..] == Patched(old(target[..]), at, Encode(SubRecord(n, child, Value(child, sub))))
      decreases Rank(child), 2
    {
      hide Sound, Value, Serialize, EncodeVarint, Encode, Cached, Patched;
      var head := EncodeVarint(MakeTag(n, LENGTH_DELIMITED)) + EncodeVarint(sub.cachedSize);
      ghost var body := Serialize(child, Value(child, sub));
      SubBytes(n, child, sub);
      PatchTwice(target[..], at, head, body);
      end := WriteToArray(head, target, at);
      var o := new MessageObject.Of(child, sub);
      end := o.SerializeWithCachedSizesToArray(target, end);
    }

    /** Tag and cached size, then the sub-message. */
    static lemma SubBytes(n: nat, child: MessageType, sub: Store)
      requires 1 <= n <= 6 && Cached(child, sub)
      ensures sub.cachedSize == |Serialize(child, Value(child, sub))|
      ensures Encode(SubRecord(n, child, Value(child, sub)))
           == (EncodeVarint(MakeTag(n, LENGTH_DELIMITED)) + EncodeVarint(sub.cachedSize))
              + Serialize(child, Value(child, sub))
    {
      hide Value, Serialize, EncodeVarint;
      CachedIsSize(child, sub);
      var body := Serialize(child, Value(child, sub));
      ConcatAssoc(EncodeVarint(MakeTag(n, LENGTH_DELIMITED)), EncodeVarint(|body|), body);
    }

    static lemma CachedIsSize(t: MessageType, s: Store)
      requires Cached(t, s)
      ensures s.cachedSize == |Serialize(t, Value(t, s))|
    {
    }

    static method ItemsToArray(n: nat, child: MessageType, items: seq<Store>, target: array<byte>, at: nat)
      returns (end: nat)
      requires 1 <= n <= 6
      requires forall x | x in items :: Sound(child, x) && Cached(child, x)
      requires forall x | x in Values(child, items) :: Fits(child, x)
      requires at + |EncodeAll(ItemRecords(n, child, Values(child, items)))| <= target.Length
      modifies target
      ensures end == at + |EncodeAll(ItemRecords(n, child, Values(child, items)))|
      ensures target[..] == Patched(old(target[..]), at, EncodeAll(ItemRecords(n, child, Values(child, items))))
      decreases Rank(child), 3, |items|
    {
      hide Sound, Value, Cached, Encode, Serialize, Fits, Patched;
      if items == [] {
        end := at;
        assert ItemRecords(n, child, Values(child, items)) == [];
        PatchNothing(target[..], at);
      } else {
        var all := Values(child, items);
        var first := Encode(SubRecord(n, child, all[0]));
        var rest := EncodeAll(ItemRecords(n, child, all[1..]));
        assert Values(child, items[1..]) == all[1..];
        assert ItemRecords(n, child, all)[1..] == ItemRecords(n, child, all[1..]);
        assert EncodeAll(ItemRecords(n, child, all)) == first + rest;
        PatchTwice(target[..], at, first, rest);
        assert all[0] in all;
        end := MessageToArray(n, child, items[0], target, at);
        end := ItemsToArray(n, child, items[1..], target, end);
      }
    }

    static lemma PatchNothing(before: bytes, at: nat)
      requires at <= |before|
      ensures Patched(before, at, []) == before
    {
    }

    method FieldToArray(n: nat, target: array<byte>, at: nat) returns (end: nat)
      requires Valid() && Cached(t, mem) && Fits(t, Val()) && 1 <= n <= 6
      requires at + |FieldBytes(t, Val(), n)| <= target.Length
      modifies target
      ensures end == at + |FieldBytes(t, Val(), n)|
      ensures target[..] == Patched(old(target[..]), at, FieldBytes(t, Val(), n))
      decreases Rank(t), 0
    {
      hide Fields, Sound, Value, Encode, Serialize, Fits, Patched;
      var k := KindOf(t, n);
      SoundAt(t, mem, n);
      end := at;
      PatchNothing(target[..], at);
      if k.Some? {
        SubFits(t, Val(), n);
        var c := GetCell(mem, n);
        if k.value.MessageField? {
          if c.has {
            OneRecord(SubRecord(n, k.value.of, Value(k.value.of, c.sub.value)));
            end := MessageToArray(n, k.value.of, c.sub.value, target, at);
          }
        } else if k.value.RepeatedField? {
          end := ItemsToArray(n, k.value.of, c.items, target, at);
        } else if c.has {
          OneRecord(ScalarRecord(n, c.scalar));
          end := WriteToArray(Encode(ScalarRecord(n, c.scalar)), target, at);
        }
      }
    }

    method SerializeWithCachedSizesToArray(target: array<byte>, at: nat) returns (end: nat)
      requires Valid() && Cached(t, mem) && Fits(t, Val())
      requires at + |Serialize(t, Val())| <= target.Length
      modifies target
      ensures end == at + |Serialize(t, Val())|
      ensures target[..] == Patched(old(target[..]), at, Serialize(t, Val()))
      decreases Rank(t), 1
    {
      hide Fields, Sound, Value, Serialize, Cached, FieldBytes, Fits, EncodeAll, Patched;
      ghost var m, before := Val(), target[..];
      SerializeIsBytesFrom(t, m);
      UnknownIsKept();
      end := at;
      ghost var done: bytes := [];
      PatchNothing(before, at);
      var n := 1;
      while n <= 6
        invariant 1 <= n <= 7 && Val() == m && end == at + |done|
        invariant done + BytesFrom(t, m, n) == Serialize(t, m)
        invariant target[..] == Patched(before, at, done)
      {
        ghost var field := FieldBytes(t, m, n);
        ConcatAssoc(done, field, BytesFrom(t, m, n + 1));
        PatchTwice(before, at, done, field);
        end := FieldToArray(n, target, end);
        done := done + field;
        n := n + 1;
      }
      PatchTwice(before, at, done, EncodeAll(mem.unknown));
      end := WriteToArray(EncodeAll(mem.unknown), target, end);
    }

    /* ---------- SerializeWithCachedSizes ---------- */

    /** WriteMessageMaybeToArray: straight into the buffer when there is room for all of it. */
    static method WriteMessage(n: nat, child: MessageType, sub: Store, out: CodedOutputStream)
      requires 1 <= n <= 6 && Sound(child, sub) && Cached(child, sub) && Fits(child, Value(child, sub))
      requires out.Valid()
      modifies out`used, out`hadError, out.buffer
      ensures out.Valid()
      ensures out.State() == Push(out.buffer.Length, old(out.State()), Encode(SubRecord(n, child, Value(child, sub))))
      decreases Rank(child), 2
    {
      hide Sound, Value, Serialize, EncodeVarint, Encode, Cached, Patched, Push;
      var head := EncodeVarint(MakeTag(n, LENGTH_DELIMITED)) + EncodeVarint(sub.cachedSize);
      ghost var body := Serialize(child, Value(child, sub));
      SubBytes(n, child, sub);
      PushTwice(out.buffer.Length, out.State(), head, body);
      out.WriteRaw(head);
      var o := new MessageObject.Of(child, sub);
      if out.used + sub.cachedSize <= out.buffer.Length {
        ghost var before := out.buffer[..];
        var end := o.SerializeWithCachedSizesToArray(out.buffer, out.used);
        PatchedPrefix(before, out.used, body);
        PushFits(out.buffer.Length, before[..out.used], out.hadError, body);
        out.used := end;
      } else {
        o.SerializeWithCachedSizes(out);
      }
    }

    static lemma PushFits(capacity: nat, written: bytes, hadError: bool, bs: bytes)
      requires |written| + |bs| <= capacity
      ensures Push(capacity, Sink(written, hadError), bs) == Sink(written + bs, hadError)
    {
    }

    static lemma PatchedPrefix(before: bytes, at: nat, bs: bytes)
      requires at + |bs| <= |before|
      ensures Patched(before, at, bs)[..at + |bs|] == before[..at] + bs
    {
    }

    static method WriteItems(n: nat, child: MessageType, items: seq<Store>, out: CodedOutputStream)
      requires 1 <= n <= 6 && out.Valid()
      requires forall x | x in items :: Sound(child, x) && Cached(child, x)
      requires forall x | x in Values(child, items) :: Fits(child, x)
      modifies out`used, out`hadError, out.buffer
      ensures out.Valid()
      ensures out.State()
           == Push(out.buffer.Length, old(out.State()), EncodeAll(ItemRecords(n, child, Values(child, items))))
      decreases Rank(child), 3, |items|
    {
      hide Sound, Value, Cached, Encode, Serialize, Fits, Push;
      if items == [] {
        assert ItemRecords(n, child, Values(child, items)) == [];
        PushNothing(out.buffer.Length, out.State());
      } else {
        var all := Values(child, items);
        ghost var first := Encode(SubRecord(n, child, all[0]));
        ghost var rest := EncodeAll(ItemRecords(n, child, all[1..]));
        assert Values(child, items[1..]) == all[1..];
        assert ItemRecords(n, child, all)[1..] == ItemRecords(n, child, all[1..]);
        assert EncodeAll(ItemRecords(n, child, all)) == first + rest;
        PushTwice(out.buffer.Length, out.State(), first, rest);
        assert all[0] in all;
        WriteMessage(n, child, items[0], out);
        WriteItems(n, child, items[1..], out);
      }
    }

    static lemma PushNothing(capacity: nat, s: Sink)
      requires |s.written| <= capacity
      ensures Push(capacity, s, []) == s
    {
      assert s.written + [] == s.written;
    }

    method WriteField(n: nat, out: CodedOutputStream)
      requires Valid() && Cached(t, mem) && Fits(t, Val()) && 1 <= n <= 6 && out.Valid()
      modifies out`used, out`hadError, out.buffer
      ensures out.Valid() && out.State() == Push(out.buffer.Length, old(out.State()), FieldBytes(t, Val(), n))
      decreases Rank(t), 0
    {
      hide Fields, Sound, Value, Encode, Serialize, Fits, Push;
      var k := KindOf(t, n);
      SoundAt(t, mem, n);
      PushNothing(out.buffer.Length, out.State());
      if k.Some? {
        SubFits(t, Val(), n);
        var c := GetCell(mem, n);
        if k.value.MessageField? {
          if c.has {
            OneRecord(SubRecord(n, k.value.of, Value(k.value.of, c.sub.value)));
            WriteMessage(n, k.value.of, c.sub.value, out);
          }
        } else if k.value.RepeatedField? {
          WriteItems(n, k.value.of, c.items, out);
        } else if c.has {
          OneRecord(ScalarRecord(n, c.scalar));
          out.WriteRaw(Encode(ScalarRecord(n, c.scalar)));
        }
      }
    }

    method SerializeWithCachedSizes(out: CodedOutputStream)
      requires Valid() && Cached(t, mem) && Fits(t, Val()) && out.Valid()
      modifies out`used, out`hadError, out.buffer
      ensures out.Valid() && out.State() == Push(out.buffer.Length, old(out.State()), Serialize(t, Val()))
      decreases Rank(t), 1
    {
      hide Fields, Sound, Value, Serialize, Cached, FieldBytes, Fits, EncodeAll, Push;
      ghost var m, before := Val(), out.State();
      SerializeIsBytesFrom(t, m);
      UnknownIsKept();
      ghost var done: bytes := [];
      PushNothing(out.buffer.Length, before);
      var n := 1;
      while n <= 6
        invariant 1 <= n <= 7 && Val() == m && out.Valid()
        invariant done + BytesFrom(t, m, n) == Serialize(t, m)
        invariant out.State() == Push(out.buffer.Length, before, done)
      {
        ghost var field := FieldBytes(t, m, n);
        ConcatAssoc(done, field, BytesFrom(t, m, n + 1));
        PushTwice(out.buffer.Length, before, done, field);
        WriteField(n, out);
        done := done + field;
        n := n + 1;
      }
      PushTwice(out.buffer.Length, before, done, EncodeAll(mem.unknown));
      out.WriteRaw(EncodeAll(mem.unknown));
    }

    /** SerializeToCodedStream: sizes first, then either serialiser. */
    method SerializeToCodedStream(out: CodedOutputStream)
      requires Valid() && Fits(t, Val()) && out.Valid()
      modifies this`mem, out`used, out`hadError, out.buffer
      ensures Valid() && Val() == old(Val()) && out.Valid()
      ensures out.State() == Push(out.buffer.Length, old(out.State()), Serialize(t, Val()))
    {
      hide Fields, Sound, Value, Serialize, Cached;
      var size := ByteSize();
      if out.used + size <= out.buffer.Length {
        ghost var before := out.buffer[..];
        var end := SerializeWithCachedSizesToArray(out.buffer, out.used);
        PatchedPrefix(before, out.used, Serialize(t, Val()));
        out.used := end;
      } else {
        SerializeWithCachedSizes(out);
      }
    }

    /* ---------- MergeFrom, Swap ---------- */

    /** RepeatedPtrField::MergeFrom: every source element is merged into a new one. */
    static method CopyItems(child: MessageType, items: seq<Store>) returns (copies: seq<Store>)
      requires forall x | x in items :: Sound(child, x)
      ensures forall x | x in copies :: Sound(child, x)
      ensures Values(child, copies) == Values(child, items)
      decreases Rank(child), 2
    {
      hide Sound, Value, Merge;
      copies := [];
      var i := 0;
      while i < |items|
        invariant 0 <= i <= |items|
        invariant forall x | x in copies :: Sound(child, x)
        invariant Values(child, copies) == Values(child, items)[..i]
      {
        var o := new MessageObject(child);
        var source := new MessageObject.Of(child, items[i]);
        o.MergeFrom(source);
        MergeIdentity(Value(child, items[i]));
        assert Values(child, copies + [o.mem]) == Values(child, copies) + [Value(child, items[i])];
        assert Values(child, items)[..i + 1] == Values(child, items)[..i] + [Value(child, items[i])];
        copies := copies + [o.mem];
        i := i + 1;
      }
    }

    method MergeField(n: nat, from: Store)
      requires Valid() && Sound(t, from) && 1 <= n <= 6
      modifies this`mem
      ensures Valid()
      ensures Val() == Put(old(Val()), n, MergeSlot(Get(old(Val()), n), Get(Value(t, from), n)))
      decreases Rank(t), 0
    {
      hide Fields, Sound, Value, Merge;
      var k := KindOf(t, n);
      SoundAt(t, mem, n);
      SoundAt(t, from, n);
      SlotIdentity(Get(Val(), n));
      PutSame(Val(), n);
      if k.None? {
        return;
      }
      var c := GetCell(from, n);
      if k.value.MessageField? {
        if c.has {
          ghost var slot := Get(Val(), n);
          var s := MutableSub(n);
          var o := new MessageObject.Of(k.value.of, s);
          var source := new MessageObject.Of(k.value.of, c.sub.value);
          o.MergeFrom(source);
          StoreSub(n, o.mem);
          assert slot.items == [] && slot.items + [] == [];
        }
      } else if k.value.RepeatedField? {
        var copies := CopyItems(k.value.of, c.items);
        var mine := GetCell(mem, n);
        mine := mine.(items := mine.items + copies);
        assert Values(k.value.of, mine.items) ==
               Values(k.value.of, GetCell(mem, n).items) + Values(k.value.of, copies);
        SoundPut(t, mem, n, mine);
        mem := PutCell(mem, n, mine);
      } else if c.has {
        ghost var slot := Get(Val(), n);
        SetScalar(n, c.scalar);
        assert slot.items == [] && slot.items + [] == [];
      }
    }

    method MergeFrom(from: MessageObject)
      requires from != this && from.t == t && Valid() && from.Valid()
      modifies this`mem
      ensures Valid() && Val() == Merge(old(Val()), from.Val())
      decreases Rank(t), 1
    {
      hide Fields, Sound, Value, MergeSlot;
      ghost var a, b := Val(), from.Val();
      if t.Message? {
        MergeField(2, from.mem);
      }
      if AnyHas(from.mem) {
        MergeField(1, from.mem);
        if !t.Message? {
          MergeField(2, from.mem);
        }
        MergeField(3, from.mem);
        MergeField(4, from.mem);
        MergeField(5, from.mem);
        MergeField(6, from.mem);
      } else {
        AbsentSlots(from, a);
      }
      UnknownIsKept();
      from.UnknownIsKept();
      ghost var before := mem;
      mem := mem.(unknown := mem.unknown + from.mem.unknown);
      UnknownReplaced(before);
    }

    /** With no has-bit on, only the repeated field can hold something. */
    lemma AbsentSlots(from: MessageObject, a: Msg)
      requires from.t == t && from.Valid() && !AnyHas(from.mem)
      ensures var b := from.Val();
              && MergeSlot(a.f1, b.f1) == a.f1 && MergeSlot(a.f3, b.f3) == a.f3 && MergeSlot(a.f4, b.f4) == a.f4
              && MergeSlot(a.f5, b.f5) == a.f5 && MergeSlot(a.f6, b.f6) == a.f6
              && (!t.Message? ==> MergeSlot(a.f2, b.f2) == a.f2)
    {
      hide Value, Sound, MergeSlot;
      AbsentSlot(from.mem, 1);
      AbsentSlot(from.mem, 2);
      AbsentSlot(from.mem, 3);
      AbsentSlot(from.mem, 4);
      AbsentSlot(from.mem, 5);
      AbsentSlot(from.mem, 6);
      SlotIdentity(a.f1);
      SlotIdentity(a.f2);
      SlotIdentity(a.f3);
      SlotIdentity(a.f4);
      SlotIdentity(a.f5);
      SlotIdentity(a.f6);
    }

    lemma AbsentSlot(s: Store, n: nat)
      requires Sound(t, s) && 1 <= n <= 6 && !GetCell(s, n).has
      ensures n != 2 || !t.Message? ==> Get(Value(t, s), n) == CLEAR
    {
      hide Value, Sound;
      SoundAt(t, s, n);
    }

    /** One std::swap of a data member, or touch_.Swap; has-bits are exchanged at the end. */
    method SwapMember(n: nat, other: MessageObject)
      requires other != this && 1 <= n <= 6
      modifies this`mem, other`mem
      ensures mem == PutCell(old(mem), n, old(GetCell(other.mem, n)).(has := old(GetCell(mem, n)).has))
      ensures other.mem == PutCell(old(other.mem), n, old(GetCell(mem, n)).(has := old(GetCell(other.mem, n)).has))
    {
      var c, d := GetCell(mem, n), GetCell(other.mem, n);
      mem := PutCell(mem, n, d.(has := c.has));
      other.mem := PutCell(other.mem, n, c.(has := d.has));
    }

    /** std::swap(_has_bits_[0], ...) */
    method SwapHasBits(other: MessageObject)
      requires other != this
      modifies this`mem, other`mem
      ensures mem == WithHas(old(mem), old(other.mem)) && other.mem == WithHas(old(other.mem), old(mem))
    {
      var a, b := mem, other.mem;
      mem := WithHas(a, b);
      other.mem := WithHas(b, a);
    }

    /** a with the has-bits of b. */
    static function WithHas(a: Store, b: Store): Store
    {
      a.(c1 := a.c1.(has := b.c1.has), c2 := a.c2.(has := b.c2.has), c3 := a.c3.(has := b.c3.has),
         c4 := a.c4.(has := b.c4.has), c5 := a.c5.(has := b.c5.has), c6 := a.c6.(has := b.c6.has))
    }

    method Swap(other: MessageObject)
      requires Valid() && other.t == t && other.Valid()
      modifies this`mem, other`mem
      ensures Valid() && Val() == old(other.Val())
      ensures other.Valid() && other.Val() == old(Val())
      ensures mem == old(other.mem) && other.mem == old(mem)
    {
      hide Sound, Value;
      if other != this {
        SwapMember(1, other);
        SwapMember(2, other);
        SwapMember(3, other);
        SwapMember(4, other);
        SwapMember(5, other);
        SwapMember(6, other);
        SwapHasBits(other);
        var unknown, cachedSize := mem.unknown, mem.cachedSize;
        mem := mem.(unknown := other.mem.unknown, cachedSize := other.mem.cachedSize);
        other.mem := other.mem.(unknown := unknown, cachedSize := cachedSize);
      }
    }

    /* ---------- IsInitialized, ParseFromCodedStream ---------- */

    method FieldInitialized(n: nat) returns (ok: bool)
      requires Valid() && 1 <= n <= 6
      ensures ok == InitializedSlot(t, n, Get(Val(), n))
      decreases Rank(t), 0
    {
      hide Fields, Sound, Value;
      var k := KindOf(t, n);
      if k.None? {
        return true;
      }
      SoundAt(t, mem, n);
      var c := GetCell(mem, n);
      if k.value.MessageField? {
        if c.has {
          var o := new MessageObject.Of(k.value.of, c.sub.value);
          ok := o.IsInitialized();
        } else {
          ok := true;
        }
      } else if k.value.RepeatedField? {
        ok := AllInitialized(k.value.of, c.items);
      } else {
        ok := Fields(t)[n - 1].required ==> c.has;
      }
    }

    static method AllInitialized(child: MessageType, items: seq<Store>) returns (ok: bool)
      requires forall x | x in items :: Sound(child, x)
      ensures ok == forall m | m in Values(child, items) :: Initialized(child, m)
      decreases Rank(child), 2
    {
      hide Sound, Value, Initialized;
      var i := 0;
      while i < |items|
        invariant 0 <= i <= |items|
        invariant forall j | 0 <= j < i :: Initialized(child, Values(child, items)[j])
      {
        var o := new MessageObject.Of(child, items[i]);
        ok := o.IsInitialized();
        if !ok {
          assert Values(child, items)[i] == o.Val();
          return;
        }
        i := i + 1;
      }
      ok := true;
    }

    method IsInitialized() returns (ok: bool)
      requires Valid()
      ensures ok == Initialized(t, Val())
      decreases Rank(t), 1
    {
      hide Fields, Sound, Value, InitializedSlot;
      var n := 1;
      while n <= 6
        invariant 1 <= n <= 7
        invariant forall k | 1 <= k < n :: InitializedSlot(t, k, Get(Val(), k))
      {
        ok := FieldInitialized(n);
        if !ok {
          InitializedAt(t, Val(), n);
          return;
        }
        n := n + 1;
      }
      InitializedAll(t, Val());
      ok := true;
    }

    /** The message is cleared first, so nothing of an earlier parse is left in it. */
    method ParseFromCodedStream(input: CodedInputStream) returns (ok: bool)
      requires Valid() && input.Valid() && !input.legitimateEnd
      modifies this`mem, input
      ensures Valid() && input.Valid()
      ensures var o := Loop(t, EMPTY, old(input.Window()));
              && (ok ==>
                    && o.Done? && Initialized(t, o.m)
                    && Val() == o.m && input.Window() == o.rest && input.limit == old(input.limit))
              && (!ok && !old(input.Cut()) ==> !(o.Done? && Initialized(t, o.m)))
    {
      hide Fields, Sound, Value, Loop, Initialized;
      Clear();
      ok := MergePartialFromCodedStream(input);
      if ok {
        ok := IsInitialized();
      }
    }
  }
}
