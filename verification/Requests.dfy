/**
 What the bytes of a client make the backend do, stated on the numbers of wipc.proto as they stand
 on the wire: a frame is written field by field, each as its tag and its value, in the order of the
 field numbers, and any field may be missing.
 */
module Requests {
  import opened Wrappers
  import opened WireFormat
  import opened Schema
  import opened Messages
  import opened MergeLaws
  import opened NormalForm
  import opened Storage
  import opened CodedStreams
  import opened Receiver
  import Auth
  import ScreenCapture
  import TouchInjection

  /* ---------- the bytes ---------- */

  function NumberField(num: nat, v: Option<nat>): bytes
  {
    if v.Some? then EncodeVarint(8 * num) + EncodeVarint(v.value) else []
  }

  function BytesField(num: nat, raw: Option<bytes>): bytes
  {
    if raw.Some? then EncodeVarint(8 * num + 2) + (EncodeVarint(|raw.value|) + raw.value) else []
  }

  datatype TouchFields = TouchFields(
    kind: Option<nat>, x: Option<nat>, y: Option<nat>, mirror: Option<nat>, flip: Option<nat>)

  /** A Key, a Button, a Resolution: two fields of which the second holds a number. */
  datatype PairFields = PairFields(first: Option<nat>, second: Option<nat>)

  /** A Key or a Command. */
  datatype TextFields = TextFields(kind: Option<nat>, text: Option<bytes>)

  datatype ScreenFields = ScreenFields(
    kind: Option<nat>, resolution: Option<PairFields>, frequency: Option<Option<nat>>, diff: Option<Option<nat>>)

  datatype MessageFields = MessageFields(
    kind: Option<nat>, touches: seq<TouchFields>, screen: Option<ScreenFields>, key: Option<TextFields>,
    button: Option<PairFields>, command: Option<TextFields>)

  function TouchBytes(f: TouchFields): bytes
  {
    NumberField(1, f.kind) + NumberField(2, f.x) + NumberField(3, f.y) + NumberField(4, f.mirror) + NumberField(5, f.flip)
  }

  function PairBytes(f: PairFields): bytes
  {
    NumberField(1, f.first) + NumberField(2, f.second)
  }

  function TextBytes(f: TextFields): bytes
  {
    NumberField(1, f.kind) + BytesField(2, f.text)
  }

  function ScreenBytes(f: ScreenFields): bytes
  {
    NumberField(1, f.kind)
    + BytesField(2, if f.resolution.Some? then Some(PairBytes(f.resolution.value)) else None)
    + BytesField(3, if f.frequency.Some? then Some(NumberField(1, f.frequency.value)) else None)
    + BytesField(4, if f.diff.Some? then Some(NumberField(1, f.diff.value)) else None)
  }

  function TouchesBytes(touches: seq<TouchFields>): bytes
  {
    if touches == [] then [] else BytesField(2, Some(TouchBytes(touches[0]))) + TouchesBytes(touches[1..])
  }

  function ScreenRaw(f: MessageFields): Option<bytes>
  {
    if f.screen.Some? then Some(ScreenBytes(f.screen.value)) else None
  }

  function KeyRaw(f: MessageFields): Option<bytes>
  {
    if f.key.Some? then Some(TextBytes(f.key.value)) else None
  }

  function ButtonRaw(f: MessageFields): Option<bytes>
  {
    if f.button.Some? then Some(PairBytes(f.button.value)) else None
  }

  function CommandRaw(f: MessageFields): Option<bytes>
  {
    if f.command.Some? then Some(TextBytes(f.command.value)) else None
  }

  /** The body of a frame. */
  function MessageBytes(f: MessageFields): bytes
  {
    NumberField(1, f.kind) + TouchesBytes(f.touches) + BytesField(3, ScreenRaw(f)) + BytesField(4, KeyRaw(f))
    + BytesField(5, ButtonRaw(f)) + BytesField(6, CommandRaw(f))
  }

  /** A 64-bit number, if there is one. */
  predicate Wide(v: Option<nat>)
  {
    v.Some? ==> v.value < TWO_64
  }

  predicate WideTouch(f: TouchFields)
  {
    Wide(f.kind) && Wide(f.x) && Wide(f.y) && Wide(f.mirror) && Wide(f.flip)
  }

  predicate WidePair(f: PairFields)
  {
    Wide(f.first) && Wide(f.second)
  }

  predicate WideScreen(f: ScreenFields)
  {
    && Wide(f.kind)
    && (f.resolution.Some? ==> WidePair(f.resolution.value))
    && (f.frequency.Some? ==> Wide(f.frequency.value))
    && (f.diff.Some? ==> Wide(f.diff.value))
  }

  /** All numbers fit a varint of 64 bits, the frame fits its length prefix. */
  predicate Writable(f: MessageFields)
  {
    && Wide(f.kind) && (forall t <- f.touches :: WideTouch(t))
    && (f.screen.Some? ==> WideScreen(f.screen.value))
    && (f.key.Some? ==> Wide(f.key.value.kind))
    && (f.button.Some? ==> WidePair(f.button.value))
    && (f.command.Some? ==> Wide(f.command.value.kind))
    && |MessageBytes(f)| < TWO_32
  }

  /* ---------- what they mean ---------- */

  /** The low 32 bits of a number, 0 for a missing one. */
  function Low(v: Option<nat>): nat
  {
    if v.Some? then v.value % TWO_32 else 0
  }

  function Truth(v: Option<nat>): bool
  {
    v.Some? && v.value != 0
  }

  /** One of the numbers lo..hi an enum lists. */
  predicate Listed(v: Option<nat>, lo: nat, hi: nat)
  {
    v.Some? && lo <= v.value % TWO_32 <= hi
  }

  predicate TouchIsComplete(f: TouchFields)
  {
    Listed(f.kind, 0, 2) && f.x.Some? && f.y.Some? && f.mirror.Some? && f.flip.Some?
  }

  predicate ScreenIsComplete(f: ScreenFields)
  {
    && Listed(f.kind, 1, 3)
    && (f.resolution.Some? ==> f.resolution.value.first.Some? && f.resolution.value.second.Some?)
    && (f.frequency.Some? ==> f.frequency.value.Some?)
    && (f.diff.Some? ==> f.diff.value.Some?)
  }

  /** Every enum number is a listed one and nothing required is missing, at any level. */
  predicate IsComplete(f: MessageFields)
  {
    && Listed(f.kind, 1, 5)
    && (forall t <- f.touches :: TouchIsComplete(t))
    && (f.screen.Some? ==> ScreenIsComplete(f.screen.value))
    && (f.key.Some? ==> Listed(f.key.value.kind, 0, 1))
    && (f.button.Some? ==> Listed(f.button.value.first, 0, 2) && f.button.value.second.Some?)
    && (f.command.Some? ==> Listed(f.command.value.kind, 0, 2))
  }

  /** The arguments of touch_inject. */
  function InputFrom(f: TouchFields): TouchInjection.Input
  {
    TouchInjection.Input(Low(f.x), Low(f.y), Low(f.kind), Truth(f.mirror), Truth(f.flip))
  }

  function InputsFrom(touches: seq<TouchFields>): seq<TouchInjection.Input>
  {
    seq(|touches|, k requires 0 <= k < |touches| => InputFrom(touches[k]))
  }

  /** What set_metrics is asked for: 1 a resolution, 2 a frequency, 3 image differences. */
  predicate Asks(request: ScreenCapture.Event, f: Option<ScreenFields>)
  {
    if f.None? || Low(f.value.kind) == 1 then
      request == if f.Some? && f.value.resolution.Some? then
                   var r := f.value.resolution.value;
                   ScreenCapture.Resolution(Low(r.first), Low(r.second))
                 else ScreenCapture.Resolution(0, 0)
    else if Low(f.value.kind) == 2 then
      request == ScreenCapture.Frequency(if f.value.frequency.Some? then Low(f.value.frequency.value) else 0)
    else
      request == ScreenCapture.ImageDiff(f.value.diff.Some? && Truth(f.value.diff.value))
  }

  /** The event does what the frame asks for: 1 a screen request, 2 touches, 3 a key, 4 a button, 5 the end. */
  predicate Does(e: Event, f: MessageFields)
  {
    match Low(f.kind)
    case 1 => e.Metrics? && Asks(ScreenCapture.RequestOf(e.screen), f.screen)
    case 2 => e.Touches? && TouchInjection.Inputs(e.touches) == InputsFrom(f.touches)
    case 3 =>
      if f.key.None? then e == EnableKeyboard(Text([]))
      else if Low(f.key.value.kind) == 0 then
        e == EnableKeyboard(Text(if f.key.value.text.Some? then f.key.value.text.value else []))
      else e == DisableKeyboard
    case 4 =>
      if f.button.None? then e == InjectButton(Num(0), Num(0))
      else e == InjectButton(Num(Low(f.button.value.first)), Num(Low(f.button.value.second)))
    case _ => e == Halt
  }

  /* ---------- single fields ---------- */

  function NumberRecord(num: nat, v: Option<nat>): seq<Record>
  {
    if v.Some? then [Varint(num, v.value)] else []
  }

  function BytesRecord(num: nat, raw: Option<bytes>): seq<Record>
  {
    if raw.Some? then [Delimited(num, raw.value)] else []
  }

  lemma OneEncoded(r: Record)
    ensures EncodeAll([r]) == Encode(r)
  {
    hide Encode;
    assert [r][1..] == [];
    assert EncodeAll([]) == [];
  }

  lemma NumberEncoded(num: nat, v: Option<nat>)
    ensures EncodeAll(NumberRecord(num, v)) == NumberField(num, v)
  {
    hide EncodeVarint;
    if v.Some? {
      OneEncoded(Varint(num, v.value));
    }
  }

  lemma BytesEncoded(num: nat, raw: Option<bytes>)
    ensures EncodeAll(BytesRecord(num, raw)) == BytesField(num, raw)
  {
    hide EncodeVarint;
    if raw.Some? {
      OneEncoded(Delimited(num, raw.value));
    }
  }

  lemma BytesAreShorter(num: nat, raw: Option<bytes>)
    ensures raw.Some? ==> |raw.value| < |BytesField(num, raw)|
  {
    hide EncodeVarint;
  }

  /** What was written is read back record by record. */
  lemma ParsesRecords(t: MessageType, rs: seq<Record>)
    requires AllWellFormed(rs)
    ensures Parse(t, EncodeAll(rs)) == AbsorbAll(t, EMPTY, rs)
  {
    hide EncodeAll, WellFormed, SubMessageNumbers;
    var lax := SubMessageNumbers(t);
    ScanEncode(rs, [], lax);
    assert EncodeAll(rs) + [] == EncodeAll(rs);
    assert ScanRecords([], lax) == Scan([], AtEnd, []);
    assert rs + [] == rs;
  }

  lemma NumberIsWellFormed(num: nat, v: Option<nat>)
    requires 1 <= num <= 6 && Wide(v)
    ensures AllWellFormed(NumberRecord(num, v))
  {
  }

  lemma BytesAreWellFormed(num: nat, raw: Option<bytes>)
    requires 1 <= num <= 6 && (raw.Some? ==> |raw.value| < TWO_32)
    ensures AllWellFormed(BytesRecord(num, raw))
  {
  }

  lemma BothWellFormed(a: seq<Record>, b: seq<Record>)
    requires AllWellFormed(a) && AllWellFormed(b)
    ensures AllWellFormed(a + b)
  {
    hide WellFormed;
  }

  /** Records that read as bs and take a message of type t from m to m'. */
  ghost predicate Takes(t: MessageType, m: Msg, rs: seq<Record>, bs: bytes, m': Msg)
  {
    AllWellFormed(rs) && EncodeAll(rs) == bs && AbsorbAll(t, m, rs) == Some(m')
  }

  lemma TakesBoth(t: MessageType, m: Msg, a: seq<Record>, x: bytes, m1: Msg, b: seq<Record>, y: bytes, m2: Msg)
    requires Takes(t, m, a, x, m1) && Takes(t, m1, b, y, m2)
    ensures Takes(t, m, a + b, x + y, m2)
  {
    hide AllWellFormed, EncodeAll, AbsorbAll;
    BothWellFormed(a, b);
    EncodeAllAppend(a, b);
    AbsorbAllAppend(t, m, a, b);
  }

  lemma TakenIsParsed(t: MessageType, rs: seq<Record>, bs: bytes, m: Msg)
    requires Takes(t, EMPTY, rs, bs, m)
    ensures Parse(t, bs) == Some(m)
  {
    hide AllWellFormed, EncodeAll, AbsorbAll, ParseWindow;
    ParsesRecords(t, rs);
  }

  function WithEnum(m: Msg, n: nat, lo: nat, hi: nat, v: Option<nat>): Msg
  {
    if v.None? then m
    else if Listed(v, lo, hi) then SetScalar(m, n, Num(Low(v)))
    else AddUnknown(m, Varint(n, ToUInt64(EnumNumber(v.value))))
  }

  function WithNumber(m: Msg, n: nat, v: Option<nat>): Msg
  {
    if v.None? then m else SetScalar(m, n, Num(Low(v)))
  }

  function WithBool(m: Msg, n: nat, v: Option<nat>): Msg
  {
    if v.None? then m else SetScalar(m, n, Num(if Truth(v) then 1 else 0))
  }

  function WithText(m: Msg, n: nat, v: Option<bytes>): Msg
  {
    if v.None? then m else SetScalar(m, n, Text(v.value))
  }

  function WithSub(m: Msg, n: nat, v: Option<Msg>): Msg
  {
    if v.None? then m else SetSub(m, n, v.value)
  }

  lemma EnumTaken(t: MessageType, m: Msg, n: nat, lo: nat, hi: nat, d: nat, v: Option<nat>)
    requires 1 <= n <= 6 && KindOf(t, n) == Some(EnumField(lo, hi, d)) && Wide(v) && hi < TWO_31
    ensures Takes(t, m, NumberRecord(n, v), NumberField(n, v), WithEnum(m, n, lo, hi, v))
  {
    hide Fields, SetScalar, AllWellFormed, EncodeAll, NumberField;
    NumberIsWellFormed(n, v);
    NumberEncoded(n, v);
    if v.Some? {
      AbsorbOne(t, m, Varint(n, v.value));
    }
  }

  lemma NumberTaken(t: MessageType, m: Msg, n: nat, v: Option<nat>)
    requires 1 <= n <= 6 && KindOf(t, n) == Some(UInt32Field) && Wide(v)
    ensures Takes(t, m, NumberRecord(n, v), NumberField(n, v), WithNumber(m, n, v))
  {
    hide Fields, SetScalar, AllWellFormed, EncodeAll, NumberField;
    NumberIsWellFormed(n, v);
    NumberEncoded(n, v);
    if v.Some? {
      AbsorbOne(t, m, Varint(n, v.value));
    }
  }

  lemma BoolTaken(t: MessageType, m: Msg, n: nat, v: Option<nat>)
    requires 1 <= n <= 6 && KindOf(t, n) == Some(BoolField) && Wide(v)
    ensures Takes(t, m, NumberRecord(n, v), NumberField(n, v), WithBool(m, n, v))
  {
    hide Fields, SetScalar, AllWellFormed, EncodeAll, NumberField;
    NumberIsWellFormed(n, v);
    NumberEncoded(n, v);
    if v.Some? {
      AbsorbOne(t, m, Varint(n, v.value));
    }
  }

  lemma TextTaken(t: MessageType, m: Msg, n: nat, v: Option<bytes>)
    requires 1 <= n <= 6 && KindOf(t, n) == Some(StringField) && (v.Some? ==> |v.value| < TWO_32)
    ensures Takes(t, m, BytesRecord(n, v), BytesField(n, v), WithText(m, n, v))
  {
    hide Fields, SetScalar, AllWellFormed, EncodeAll, BytesField;
    BytesAreWellFormed(n, v);
    BytesEncoded(n, v);
    if v.Some? {
      AbsorbOne(t, m, Delimited(n, v.value));
    }
  }

  /** A sub-message field that is not there yet. */
  lemma SubTaken(t: MessageType, m: Msg, n: nat, c: MessageType, v: Option<bytes>, sub: Option<Msg>)
    requires 1 <= n <= 6 && KindOf(t, n) == Some(MessageField(c)) && (v.Some? ==> |v.value| < TWO_32)
    requires Get(m, n) == CLEAR && v.Some? == sub.Some? && (v.Some? ==> Parse(c, v.value) == sub)
    ensures Takes(t, m, BytesRecord(n, v), BytesField(n, v), WithSub(m, n, sub))
  {
    hide Fields, SetSub, Get, ParseWindow, AllWellFormed, EncodeAll, BytesField;
    BytesAreWellFormed(n, v);
    BytesEncoded(n, v);
    if v.Some? {
      AbsorbOne(t, m, Delimited(n, v.value));
    }
  }

  lemma ItemTaken(t: MessageType, m: Msg, n: nat, c: MessageType, raw: bytes, item: Msg)
    requires 1 <= n <= 6 && KindOf(t, n) == Some(RepeatedField(c)) && |raw| < TWO_32 && Parse(c, raw) == Some(item)
    ensures Takes(t, m, BytesRecord(n, Some(raw)), BytesField(n, Some(raw)), AddItem(m, n, item))
  {
    hide Fields, AddItem, ParseWindow, AllWellFormed, EncodeAll, BytesField;
    BytesAreWellFormed(n, Some(raw));
    BytesEncoded(n, Some(raw));
    AbsorbOne(t, m, Delimited(n, raw));
  }

  /* ---------- the messages ---------- */

  lemma TouchKinds()
    ensures KindOf(Touch, 1) == Some(EnumField(0, 2, 2)) && KindOf(Touch, 2) == Some(UInt32Field)
    ensures KindOf(Touch, 3) == Some(UInt32Field) && KindOf(Touch, 4) == Some(BoolField)
    ensures KindOf(Touch, 5) == Some(BoolField)
  {
  }

  function TouchMsg(f: TouchFields): Msg
  {
    WithBool(WithBool(WithNumber(WithNumber(WithEnum(EMPTY, 1, 0, 2, f.kind), 2, f.x), 3, f.y), 4, f.mirror), 5, f.flip)
  }

  lemma TouchIsRead(f: TouchFields)
    requires WideTouch(f)
    ensures Parse(Touch, TouchBytes(f)) == Some(TouchMsg(f))
  {
    hide Fields, KindOf, Takes, NumberField, NumberRecord, WithEnum, WithNumber, WithBool, ParseWindow;
    TouchKinds();
    var r1, r2, r3 := NumberRecord(1, f.kind), NumberRecord(2, f.x), NumberRecord(3, f.y);
    var r4, r5 := NumberRecord(4, f.mirror), NumberRecord(5, f.flip);
    var b1, b2, b3 := NumberField(1, f.kind), NumberField(2, f.x), NumberField(3, f.y);
    var b4, b5 := NumberField(4, f.mirror), NumberField(5, f.flip);
    var m1 := WithEnum(EMPTY, 1, 0, 2, f.kind);
    var m2 := WithNumber(m1, 2, f.x);
    var m3 := WithNumber(m2, 3, f.y);
    var m4 := WithBool(m3, 4, f.mirror);
    EnumTaken(Touch, EMPTY, 1, 0, 2, 2, f.kind);
    NumberTaken(Touch, m1, 2, f.x);
    NumberTaken(Touch, m2, 3, f.y);
    BoolTaken(Touch, m3, 4, f.mirror);
    BoolTaken(Touch, m4, 5, f.flip);
    TakesBoth(Touch, EMPTY, r1, b1, m1, r2, b2, m2);
    TakesBoth(Touch, EMPTY, r1 + r2, b1 + b2, m2, r3, b3, m3);
    TakesBoth(Touch, EMPTY, r1 + r2 + r3, b1 + b2 + b3, m3, r4, b4, m4);
    TakesBoth(Touch, EMPTY, r1 + r2 + r3 + r4, b1 + b2 + b3 + b4, m4, r5, b5, TouchMsg(f));
    TakenIsParsed(Touch, r1 + r2 + r3 + r4 + r5, TouchBytes(f), TouchMsg(f));
  }

  lemma TouchRequires(m: Msg)
    ensures Initialized(Touch, m) <==>
              m.f1.scalar.Some? && m.f2.scalar.Some? && m.f3.scalar.Some? && m.f4.scalar.Some? && m.f5.scalar.Some?
  {
  }

  /** A touch is complete as touch_inject needs it, and then these are its arguments. */
  lemma TouchMeans(f: TouchFields)
    ensures Initialized(Touch, TouchMsg(f)) <==> TouchIsComplete(f)
    ensures TouchIsComplete(f) ==> TouchInjection.InputOf(TouchMsg(f)) == InputFrom(f)
  {
    hide Fields, KindOf, Initialized;
    TouchRequires(TouchMsg(f));
  }

  lemma PairKinds()
    ensures KindOf(Schema.Resolution, 1) == Some(UInt32Field) && KindOf(Schema.Resolution, 2) == Some(UInt32Field)
    ensures KindOf(Button, 1) == Some(EnumField(0, 2, 0)) && KindOf(Button, 2) == Some(UInt32Field)
    ensures KindOf(Key, 1) == Some(EnumField(0, 1, 0)) && KindOf(Key, 2) == Some(StringField)
    ensures KindOf(Command, 1) == Some(EnumField(0, 2, 0)) && KindOf(Command, 2) == Some(StringField)
    ensures KindOf(Schema.Frequency, 1) == Some(UInt32Field) && KindOf(Schema.ImageDiff, 1) == Some(BoolField)
  {
  }

  function ResolutionMsg(f: PairFields): Msg
  {
    WithNumber(WithNumber(EMPTY, 1, f.first), 2, f.second)
  }

  function ButtonMsg(f: PairFields): Msg
  {
    WithNumber(WithEnum(EMPTY, 1, 0, 2, f.first), 2, f.second)
  }

  /** The last kind listed for Key is 1, that for Command is 2. */
  function TextMsg(f: TextFields, last: nat): Msg
  {
    WithText(WithEnum(EMPTY, 1, 0, last, f.kind), 2, f.text)
  }

  lemma ResolutionIsRead(f: PairFields)
    requires WidePair(f)
    ensures Parse(Schema.Resolution, PairBytes(f)) == Some(ResolutionMsg(f))
  {
    hide Fields, KindOf, Takes, NumberField, NumberRecord, WithNumber, ParseWindow;
    PairKinds();
    var t, m1 := Schema.Resolution, WithNumber(EMPTY, 1, f.first);
    NumberTaken(t, EMPTY, 1, f.first);
    NumberTaken(t, m1, 2, f.second);
    TakesBoth(t, EMPTY, NumberRecord(1, f.first), NumberField(1, f.first), m1,
              NumberRecord(2, f.second), NumberField(2, f.second), ResolutionMsg(f));
    TakenIsParsed(t, NumberRecord(1, f.first) + NumberRecord(2, f.second), PairBytes(f), ResolutionMsg(f));
  }

  lemma ButtonIsRead(f: PairFields)
    requires WidePair(f)
    ensures Parse(Button, PairBytes(f)) == Some(ButtonMsg(f))
  {
    hide Fields, KindOf, Takes, NumberField, NumberRecord, WithNumber, WithEnum, ParseWindow;
    PairKinds();
    var m1 := WithEnum(EMPTY, 1, 0, 2, f.first);
    EnumTaken(Button, EMPTY, 1, 0, 2, 0, f.first);
    NumberTaken(Button, m1, 2, f.second);
    TakesBoth(Button, EMPTY, NumberRecord(1, f.first), NumberField(1, f.first), m1,
              NumberRecord(2, f.second), NumberField(2, f.second), ButtonMsg(f));
    TakenIsParsed(Button, NumberRecord(1, f.first) + NumberRecord(2, f.second), PairBytes(f), ButtonMsg(f));
  }

  lemma TextIsRead(t: MessageType, f: TextFields, last: nat)
    requires (t == Key && last == 1) || (t == Command && last == 2)
    requires Wide(f.kind) && |TextBytes(f)| < TWO_32
    ensures Parse(t, TextBytes(f)) == Some(TextMsg(f, last))
  {
    hide Fields, KindOf, Takes, NumberField, NumberRecord, BytesField, BytesRecord, WithText, WithEnum, ParseWindow;
    PairKinds();
    BytesAreShorter(2, f.text);
    var m1 := WithEnum(EMPTY, 1, 0, last, f.kind);
    EnumTaken(t, EMPTY, 1, 0, last, 0, f.kind);
    TextTaken(t, m1, 2, f.text);
    TakesBoth(t, EMPTY, NumberRecord(1, f.kind), NumberField(1, f.kind), m1,
              BytesRecord(2, f.text), BytesField(2, f.text), TextMsg(f, last));
    TakenIsParsed(t, NumberRecord(1, f.kind) + BytesRecord(2, f.text), TextBytes(f), TextMsg(f, last));
  }

  lemma FrequencyIsRead(v: Option<nat>)
    requires Wide(v)
    ensures Parse(Schema.Frequency, NumberField(1, v)) == Some(WithNumber(EMPTY, 1, v))
  {
    hide Fields, KindOf, Takes, NumberField, NumberRecord, WithNumber, ParseWindow;
    PairKinds();
    NumberTaken(Schema.Frequency, EMPTY, 1, v);
    TakenIsParsed(Schema.Frequency, NumberRecord(1, v), NumberField(1, v), WithNumber(EMPTY, 1, v));
  }

  lemma DiffIsRead(v: Option<nat>)
    requires Wide(v)
    ensures Parse(Schema.ImageDiff, NumberField(1, v)) == Some(WithBool(EMPTY, 1, v))
  {
    hide Fields, KindOf, Takes, NumberField, NumberRecord, WithBool, ParseWindow;
    PairKinds();
    BoolTaken(Schema.ImageDiff, EMPTY, 1, v);
    TakenIsParsed(Schema.ImageDiff, NumberRecord(1, v), NumberField(1, v), WithBool(EMPTY, 1, v));
  }

  lemma PairsRequire(m: Msg)
    ensures Initialized(Button, m) <==> m.f1.scalar.Some? && m.f2.scalar.Some?
    ensures Initialized(Key, m) <==> m.f1.scalar.Some?
    ensures Initialized(Command, m) <==> m.f1.scalar.Some?
  {
  }

  lemma SettingsRequire(m: Msg)
    ensures Initialized(Schema.Resolution, m) <==> m.f1.scalar.Some? && m.f2.scalar.Some?
    ensures Initialized(Schema.Frequency, m) <==> m.f1.scalar.Some?
    ensures Initialized(Schema.ImageDiff, m) <==> m.f1.scalar.Some?
  {
  }

  /* ---------- screen requests ---------- */

  lemma ScreenKinds()
    ensures KindOf(Schema.Screen, 1) == Some(EnumField(1, 3, 1))
    ensures KindOf(Schema.Screen, 2) == Some(MessageField(Schema.Resolution))
    ensures KindOf(Schema.Screen, 3) == Some(MessageField(Schema.Frequency))
    ensures KindOf(Schema.Screen, 4) == Some(MessageField(Schema.ImageDiff))
    ensures KindOf(Schema.Screen, 5) == None && KindOf(Schema.Screen, 6) == None
  {
  }

  function ResolutionOf(f: ScreenFields): Option<Msg>
  {
    if f.resolution.Some? then Some(ResolutionMsg(f.resolution.value)) else None
  }

  function FrequencyOf(f: ScreenFields): Option<Msg>
  {
    if f.frequency.Some? then Some(WithNumber(EMPTY, 1, f.frequency.value)) else None
  }

  function DiffOf(f: ScreenFields): Option<Msg>
  {
    if f.diff.Some? then Some(WithBool(EMPTY, 1, f.diff.value)) else None
  }

  function ScreenMsg(f: ScreenFields): Msg
  {
    WithSub(WithSub(WithSub(WithEnum(EMPTY, 1, 1, 3, f.kind), 2, ResolutionOf(f)), 3, FrequencyOf(f)), 4, DiffOf(f))
  }

  lemma EnumStaysClear(n: nat, lo: nat, hi: nat, v: Option<nat>)
    requires 2 <= n <= 6
    ensures Get(WithEnum(EMPTY, 1, lo, hi, v), n) == CLEAR
  {
  }

  lemma SubStaysClear(m: Msg, k: nat, sub: Option<Msg>, n: nat)
    requires 1 <= k <= 6 && 1 <= n <= 6 && k != n
    ensures Get(WithSub(m, k, sub), n) == Get(m, n)
  {
  }

  lemma ScreenIsRead(f: ScreenFields)
    requires WideScreen(f) && |ScreenBytes(f)| < TWO_32
    ensures Parse(Schema.Screen, ScreenBytes(f)) == Some(ScreenMsg(f))
  {
    hide Fields, KindOf, Takes, NumberField, NumberRecord, BytesField, BytesRecord, WithEnum, WithSub, WithNumber;
    hide WithBool, ResolutionMsg, PairBytes, ParseWindow, Get;
    ScreenKinds();
    var t := Schema.Screen;
    var resolution := if f.resolution.Some? then Some(PairBytes(f.resolution.value)) else None;
    var frequency := if f.frequency.Some? then Some(NumberField(1, f.frequency.value)) else None;
    var diff := if f.diff.Some? then Some(NumberField(1, f.diff.value)) else None;
    var r1, r2 := NumberRecord(1, f.kind), BytesRecord(2, resolution);
    var r3, r4 := BytesRecord(3, frequency), BytesRecord(4, diff);
    var b1, b2 := NumberField(1, f.kind), BytesField(2, resolution);
    var b3, b4 := BytesField(3, frequency), BytesField(4, diff);
    BytesAreShorter(2, resolution);
    BytesAreShorter(3, frequency);
    BytesAreShorter(4, diff);
    var m1 := WithEnum(EMPTY, 1, 1, 3, f.kind);
    var m2 := WithSub(m1, 2, ResolutionOf(f));
    var m3 := WithSub(m2, 3, FrequencyOf(f));
    EnumTaken(t, EMPTY, 1, 1, 3, 1, f.kind);
    if f.resolution.Some? {
      ResolutionIsRead(f.resolution.value);
    }
    if f.frequency.Some? {
      FrequencyIsRead(f.frequency.value);
    }
    if f.diff.Some? {
      DiffIsRead(f.diff.value);
    }
    EnumStaysClear(2, 1, 3, f.kind);
    SubTaken(t, m1, 2, Schema.Resolution, resolution, ResolutionOf(f));
    EnumStaysClear(3, 1, 3, f.kind);
    SubStaysClear(m1, 2, ResolutionOf(f), 3);
    SubTaken(t, m2, 3, Schema.Frequency, frequency, FrequencyOf(f));
    EnumStaysClear(4, 1, 3, f.kind);
    SubStaysClear(m1, 2, ResolutionOf(f), 4);
    SubStaysClear(m2, 3, FrequencyOf(f), 4);
    SubTaken(t, m3, 4, Schema.ImageDiff, diff, DiffOf(f));
    TakesBoth(t, EMPTY, r1, b1, m1, r2, b2, m2);
    TakesBoth(t, EMPTY, r1 + r2, b1 + b2, m2, r3, b3, m3);
    TakesBoth(t, EMPTY, r1 + r2 + r3, b1 + b2 + b3, m3, r4, b4, ScreenMsg(f));
    TakenIsParsed(t, r1 + r2 + r3 + r4, ScreenBytes(f), ScreenMsg(f));
  }

  lemma ScreenRequires(m: Msg)
    ensures Initialized(Schema.Screen, m) <==>
              && m.f1.scalar.Some?
              && (m.f2.sub.Some? ==> Initialized(Schema.Resolution, m.f2.sub.value))
              && (m.f3.sub.Some? ==> Initialized(Schema.Frequency, m.f3.sub.value))
              && (m.f4.sub.Some? ==> Initialized(Schema.ImageDiff, m.f4.sub.value))
  {
  }

  lemma ScreenComplete(f: ScreenFields)
    ensures Initialized(Schema.Screen, ScreenMsg(f)) <==> ScreenIsComplete(f)
  {
    hide Fields, KindOf, Initialized;
    ScreenRequires(ScreenMsg(f));
    if f.resolution.Some? {
      SettingsRequire(ResolutionMsg(f.resolution.value));
    }
    if f.frequency.Some? {
      SettingsRequire(WithNumber(EMPTY, 1, f.frequency.value));
    }
    if f.diff.Some? {
      SettingsRequire(WithBool(EMPTY, 1, f.diff.value));
    }
  }

  lemma NothingStored(t: MessageType, n: nat)
    requires t == Schema.Resolution || t == Schema.Frequency || t == Schema.ImageDiff
    ensures NumberOr(t, EMPTY, n) == 0
  {
  }

  lemma NumberStored(t: MessageType, m: Msg, n: nat, v: nat)
    requires Get(m, n).scalar == Some(Num(v))
    ensures NumberOr(t, m, n) == v
  {
  }

  /** A request is complete as set_metrics needs it, and then this is what it asks for. */
  lemma ScreenMeans(f: ScreenFields)
    requires ScreenIsComplete(f)
    ensures Asks(ScreenCapture.RequestOf(ScreenMsg(f)), Some(f))
  {
    hide Fields, KindOf, NumberOr;
    var t := Schema.Resolution;
    NothingStored(t, 1);
    NothingStored(t, 2);
    NothingStored(Schema.Frequency, 1);
    NothingStored(Schema.ImageDiff, 1);
    NumberStored(Schema.Screen, ScreenMsg(f), 1, Low(f.kind));
    if f.resolution.Some? {
      var p := f.resolution.value;
      NumberStored(t, ResolutionMsg(p), 1, Low(p.first));
      NumberStored(t, ResolutionMsg(p), 2, Low(p.second));
    }
    if f.frequency.Some? {
      NumberStored(Schema.Frequency, WithNumber(EMPTY, 1, f.frequency.value), 1, Low(f.frequency.value));
    }
    if f.diff.Some? {
      NumberStored(Schema.ImageDiff, WithBool(EMPTY, 1, f.diff.value), 1, if Truth(f.diff.value) then 1 else 0);
    }
  }

  /* ---------- whole frames ---------- */

  function TouchMsgs(touches: seq<TouchFields>): (ms: seq<Msg>)
    ensures |ms| == |touches|
  {
    seq(|touches|, k requires 0 <= k < |touches| => TouchMsg(touches[k]))
  }

  function WithItems(m: Msg, n: nat, items: seq<Msg>): Msg
  {
    Put(m, n, Get(m, n).(items := Get(m, n).items + items))
  }

  function TouchRecords(touches: seq<TouchFields>): seq<Record>
  {
    if touches == [] then [] else BytesRecord(2, Some(TouchBytes(touches[0]))) + TouchRecords(touches[1..])
  }

  lemma ItemsStep(m: Msg, item: Msg, items: seq<Msg>)
    ensures WithItems(AddItem(m, 2, item), 2, items) == WithItems(m, 2, [item] + items)
    ensures WithItems(m, 2, []) == m
  {
    assert m.f2.items + [item] + items == m.f2.items + ([item] + items);
    assert m.f2.items + [] == m.f2.items;
  }

  lemma NothingTaken(m: Msg)
    ensures Takes(Message, m, [], [], m)
  {
  }

  lemma {:induction false} TouchesTaken(m: Msg, touches: seq<TouchFields>)
    requires (forall t <- touches :: WideTouch(t)) && |TouchesBytes(touches)| < TWO_32
    ensures Takes(Message, m, TouchRecords(touches), TouchesBytes(touches), WithItems(m, 2, TouchMsgs(touches)))
    decreases |touches|
  {
    hide Fields, Takes, TouchBytes, TouchMsg, BytesField, BytesRecord, WithItems, AddItem, ParseWindow, WideTouch;
    if touches == [] {
      assert Takes(Message, m, [], [], m) by {
        NothingTaken(m);
      }
      ItemsStep(m, EMPTY, []);
      assert TouchMsgs(touches) == [];
    } else {
      var raw, m1 := TouchBytes(touches[0]), AddItem(m, 2, TouchMsg(touches[0]));
      BytesAreShorter(2, Some(raw));
      MessageKinds();
      TouchIsRead(touches[0]);
      ItemTaken(Message, m, 2, Touch, raw, TouchMsg(touches[0]));
      TouchesTaken(m1, touches[1..]);
      ItemsStep(m, TouchMsg(touches[0]), TouchMsgs(touches[1..]));
      assert TouchMsgs(touches) == [TouchMsg(touches[0])] + TouchMsgs(touches[1..]);
      TakesBoth(Message, m, BytesRecord(2, Some(raw)), BytesField(2, Some(raw)), m1,
                TouchRecords(touches[1..]), TouchesBytes(touches[1..]), WithItems(m, 2, TouchMsgs(touches)));
    }
  }

  function ScreenOf(f: MessageFields): Option<Msg>
  {
    if f.screen.Some? then Some(ScreenMsg(f.screen.value)) else None
  }

  function KeyOf(f: MessageFields): Option<Msg>
  {
    if f.key.Some? then Some(TextMsg(f.key.value, 1)) else None
  }

  function ButtonOf(f: MessageFields): Option<Msg>
  {
    if f.button.Some? then Some(ButtonMsg(f.button.value)) else None
  }

  function CommandOf(f: MessageFields): Option<Msg>
  {
    if f.command.Some? then Some(TextMsg(f.command.value, 2)) else None
  }

  /** The message without its sub-messages. */
  function HeadMsg(f: MessageFields): Msg
  {
    WithItems(WithEnum(EMPTY, 1, 1, 5, f.kind), 2, TouchMsgs(f.touches))
  }

  function MessageMsg(f: MessageFields): Msg
  {
    WithSub(WithSub(WithSub(WithSub(HeadMsg(f), 3, ScreenOf(f)), 4, KeyOf(f)), 5, ButtonOf(f)), 6, CommandOf(f))
  }

  lemma HeadStaysClear(f: MessageFields, n: nat)
    requires 3 <= n <= 6
    ensures Get(HeadMsg(f), n) == CLEAR
  {
  }

  lemma HeadIsTaken(f: MessageFields)
    requires Wide(f.kind) && (forall t <- f.touches :: WideTouch(t)) && |TouchesBytes(f.touches)| < TWO_32
    ensures Takes(Message, EMPTY, NumberRecord(1, f.kind) + TouchRecords(f.touches),
                  NumberField(1, f.kind) + TouchesBytes(f.touches), HeadMsg(f))
  {
    hide Fields, Takes, NumberField, NumberRecord, TouchesBytes, TouchRecords, WithEnum, WithItems, TouchMsgs, WideTouch;
    MessageKinds();
    var m1 := WithEnum(EMPTY, 1, 1, 5, f.kind);
    EnumTaken(Message, EMPTY, 1, 1, 5, 1, f.kind);
    TouchesTaken(m1, f.touches);
    TakesBoth(Message, EMPTY, NumberRecord(1, f.kind), NumberField(1, f.kind), m1,
              TouchRecords(f.touches), TouchesBytes(f.touches), HeadMsg(f));
  }

  /** The sub-messages of a frame that fits its length prefix, each read on its own. */
  lemma SubsAreRead(f: MessageFields)
    requires Writable(f)
    ensures |TouchesBytes(f.touches)| < TWO_32
    ensures f.screen.Some? ==>
              |ScreenRaw(f).value| < TWO_32 && Parse(Schema.Screen, ScreenRaw(f).value) == ScreenOf(f)
    ensures f.key.Some? ==> |KeyRaw(f).value| < TWO_32 && Parse(Key, KeyRaw(f).value) == KeyOf(f)
    ensures f.button.Some? ==> |ButtonRaw(f).value| < TWO_32 && Parse(Button, ButtonRaw(f).value) == ButtonOf(f)
    ensures f.command.Some? ==> |CommandRaw(f).value| < TWO_32 && Parse(Command, CommandRaw(f).value) == CommandOf(f)
  {
    hide NumberField, BytesField, TouchesBytes, ScreenMsg, TextMsg, ButtonMsg, ParseWindow;
    hide ScreenBytes, TextBytes, PairBytes, WideTouch, WideScreen;
    BytesAreShorter(3, ScreenRaw(f));
    BytesAreShorter(4, KeyRaw(f));
    BytesAreShorter(5, ButtonRaw(f));
    BytesAreShorter(6, CommandRaw(f));
    if f.screen.Some? {
      ScreenIsRead(f.screen.value);
    }
    if f.key.Some? {
      TextIsRead(Key, f.key.value, 1);
    }
    if f.button.Some? {
      ButtonIsRead(f.button.value);
    }
    if f.command.Some? {
      TextIsRead(Command, f.command.value, 2);
    }
  }

  lemma RawsMatch(f: MessageFields)
    ensures ScreenRaw(f).Some? == ScreenOf(f).Some? == f.screen.Some?
    ensures KeyRaw(f).Some? == KeyOf(f).Some? == f.key.Some?
    ensures ButtonRaw(f).Some? == ButtonOf(f).Some? == f.button.Some?
    ensures CommandRaw(f).Some? == CommandOf(f).Some? == f.command.Some?
  {
  }

  /** Each sub-message field is clear when its turn comes. */
  lemma FieldsAreClear(f: MessageFields)
    ensures var m3 := WithSub(HeadMsg(f), 3, ScreenOf(f));
            var m4 := WithSub(m3, 4, KeyOf(f));
            && Get(HeadMsg(f), 3) == CLEAR && Get(m3, 4) == CLEAR && Get(m4, 5) == CLEAR
            && Get(WithSub(m4, 5, ButtonOf(f)), 6) == CLEAR
  {
    hide Get, WithSub, HeadMsg;
    var m3 := WithSub(HeadMsg(f), 3, ScreenOf(f));
    var m4 := WithSub(m3, 4, KeyOf(f));
    HeadStaysClear(f, 3);
    HeadStaysClear(f, 4);
    HeadStaysClear(f, 5);
    HeadStaysClear(f, 6);
    SubStaysClear(HeadMsg(f), 3, ScreenOf(f), 4);
    SubStaysClear(HeadMsg(f), 3, ScreenOf(f), 5);
    SubStaysClear(HeadMsg(f), 3, ScreenOf(f), 6);
    SubStaysClear(m3, 4, KeyOf(f), 5);
    SubStaysClear(m3, 4, KeyOf(f), 6);
    SubStaysClear(m4, 5, ButtonOf(f), 6);
  }

  lemma MessageIsRead(f: MessageFields)
    requires Writable(f)
    ensures Parse(Message, MessageBytes(f)) == Some(MessageMsg(f))
  {
    SubsAreRead(f);
    HeadIsTaken(f);
    hide Fields, Takes, NumberField, NumberRecord, BytesField, BytesRecord, TouchesBytes, TouchRecords, WithSub;
    hide HeadMsg, ParseWindow, Get, ScreenRaw, KeyRaw, ButtonRaw, CommandRaw, ScreenOf, KeyOf, ButtonOf, CommandOf;
    MessageKinds();
    RawsMatch(f);
    var r2, b2 := NumberRecord(1, f.kind) + TouchRecords(f.touches), NumberField(1, f.kind) + TouchesBytes(f.touches);
    var r3, r4 := BytesRecord(3, ScreenRaw(f)), BytesRecord(4, KeyRaw(f));
    var r5, r6 := BytesRecord(5, ButtonRaw(f)), BytesRecord(6, CommandRaw(f));
    var b3, b4 := BytesField(3, ScreenRaw(f)), BytesField(4, KeyRaw(f));
    var b5, b6 := BytesField(5, ButtonRaw(f)), BytesField(6, CommandRaw(f));
    var m2 := HeadMsg(f);
    var m3 := WithSub(m2, 3, ScreenOf(f));
    var m4 := WithSub(m3, 4, KeyOf(f));
    var m5 := WithSub(m4, 5, ButtonOf(f));
    FieldsAreClear(f);
    SubTaken(Message, m2, 3, Schema.Screen, ScreenRaw(f), ScreenOf(f));
    SubTaken(Message, m3, 4, Key, KeyRaw(f), KeyOf(f));
    SubTaken(Message, m4, 5, Button, ButtonRaw(f), ButtonOf(f));
    SubTaken(Message, m5, 6, Command, CommandRaw(f), CommandOf(f));
    TakesBoth(Message, EMPTY, r2, b2, m2, r3, b3, m3);
    TakesBoth(Message, EMPTY, r2 + r3, b2 + b3, m3, r4, b4, m4);
    TakesBoth(Message, EMPTY, r2 + r3 + r4, b2 + b3 + b4, m4, r5, b5, m5);
    TakesBoth(Message, EMPTY, r2 + r3 + r4 + r5, b2 + b3 + b4 + b5, m5, r6, b6, MessageMsg(f));
    TakenIsParsed(Message, r2 + r3 + r4 + r5 + r6, MessageBytes(f), MessageMsg(f));
  }

  lemma MessageRequires(m: Msg)
    ensures Initialized(Message, m) <==>
              && m.f1.scalar.Some? && (forall x | x in m.f2.items :: Initialized(Touch, x))
              && (m.f3.sub.Some? ==> Initialized(Schema.Screen, m.f3.sub.value))
              && (m.f4.sub.Some? ==> Initialized(Key, m.f4.sub.value))
              && (m.f5.sub.Some? ==> Initialized(Button, m.f5.sub.value))
              && (m.f6.sub.Some? ==> Initialized(Command, m.f6.sub.value))
  {
  }

  lemma HeadShape(f: MessageFields)
    ensures var m := HeadMsg(f);
            && m.f1.scalar == (if Listed(f.kind, 1, 5) then Some(Num(Low(f.kind))) else None)
            && m.f2.items == TouchMsgs(f.touches)
  {
    hide TouchMsgs;
    assert [] + TouchMsgs(f.touches) == TouchMsgs(f.touches);
  }

  lemma MessageShape(f: MessageFields)
    ensures var m := MessageMsg(f);
            && m.f1.scalar == (if Listed(f.kind, 1, 5) then Some(Num(Low(f.kind))) else None)
            && m.f2.items == TouchMsgs(f.touches)
            && m.f3.sub == ScreenOf(f) && m.f4.sub == KeyOf(f) && m.f5.sub == ButtonOf(f) && m.f6.sub == CommandOf(f)
  {
    hide TouchMsgs, ScreenMsg, TextMsg, ButtonMsg, HeadMsg;
    HeadShape(f);
    FieldsAreClear(f);
  }

  lemma TouchesComplete(touches: seq<TouchFields>)
    ensures (forall x | x in TouchMsgs(touches) :: Initialized(Touch, x)) <==> forall t <- touches :: TouchIsComplete(t)
  {
    hide Initialized, TouchIsComplete, TouchMsg;
    var ms := TouchMsgs(touches);
    forall k | 0 <= k < |touches|
      ensures Initialized(Touch, ms[k]) <==> TouchIsComplete(touches[k])
      ensures ms[k] in ms && touches[k] in touches
    {
      TouchMeans(touches[k]);
    }
  }

  lemma MessageComplete(f: MessageFields)
    ensures Initialized(Message, MessageMsg(f)) <==> IsComplete(f)
  {
    hide Fields, KindOf, Initialized, MessageMsg, TouchMsgs, ScreenMsg, TouchIsComplete, ScreenIsComplete;
    MessageShape(f);
    MessageRequires(MessageMsg(f));
    TouchesComplete(f.touches);
    if f.screen.Some? {
      ScreenComplete(f.screen.value);
    }
    if f.key.Some? {
      PairsRequire(TextMsg(f.key.value, 1));
    }
    if f.button.Some? {
      PairsRequire(ButtonMsg(f.button.value));
    }
    if f.command.Some? {
      PairsRequire(TextMsg(f.command.value, 2));
    }
  }

  lemma NothingAsked()
    ensures ScreenCapture.RequestOf(EMPTY) == ScreenCapture.Resolution(0, 0)
  {
  }

  lemma PairDefaults()
    ensures FieldOr(Key, EMPTY, 1) == Num(0) && FieldOr(Key, EMPTY, 2) == Text([])
    ensures FieldOr(Button, EMPTY, 1) == Num(0) && FieldOr(Button, EMPTY, 2) == Num(0)
    ensures Default(Key, 2) == Text([])
  {
  }

  lemma KeyMeans(f: MessageFields)
    requires f.key.Some? ==> Listed(f.key.value.kind, 0, 1)
    ensures var key := Target(MessageMsg(f).f4);
            && (FieldOr(Key, key, 1) == Num(0) <==> f.key.None? || Low(f.key.value.kind) == 0)
            && FieldOr(Key, key, 2) == Text(if f.key.Some? && f.key.value.text.Some? then f.key.value.text.value else [])
  {
    hide Fields, KindOf, Default, MessageMsg;
    MessageShape(f);
    PairDefaults();
  }

  lemma ButtonMeans(f: MessageFields)
    requires f.button.Some? ==> Listed(f.button.value.first, 0, 2) && f.button.value.second.Some?
    ensures var button := Target(MessageMsg(f).f5);
            && FieldOr(Button, button, 1) == Num(if f.button.Some? then Low(f.button.value.first) else 0)
            && FieldOr(Button, button, 2) == Num(if f.button.Some? then Low(f.button.value.second) else 0)
  {
    hide Fields, KindOf, Default, MessageMsg;
    MessageShape(f);
    PairDefaults();
  }

  lemma AsksNothing()
    ensures Asks(ScreenCapture.Resolution(0, 0), None)
  {
  }

  lemma TouchesMean(touches: seq<TouchFields>)
    requires forall t <- touches :: TouchIsComplete(t)
    ensures TouchInjection.Inputs(TouchMsgs(touches)) == InputsFrom(touches)
  {
    hide TouchMsg, InputFrom, TouchIsComplete, TouchInjection.InputOf;
    forall k | 0 <= k < |touches|
      ensures TouchInjection.Inputs(TouchMsgs(touches))[k] == InputFrom(touches[k])
    {
      TouchMeans(touches[k]);
    }
  }

  lemma MessageDoes(f: MessageFields)
    requires IsComplete(f)
    ensures Does(EventOf(MessageMsg(f)), f)
  {
    hide Fields, KindOf, Default, MessageMsg, TouchMsgs, ScreenMsg, TouchMsg, InputFrom, Asks, ScreenIsComplete;
    MessageShape(f);
    KeyMeans(f);
    ButtonMeans(f);
    if f.screen.Some? {
      ScreenMeans(f.screen.value);
    } else {
      NothingAsked();
      AsksNothing();
    }
    TouchesMean(f.touches);
  }

  /**
   A frame is accepted if and only if every enum number is a listed one and nothing required is
   missing, and then it does what its numbers say.
   */
  lemma FrameMeans(f: MessageFields)
    requires Writable(f)
    ensures Readable(MessageBytes(f)) <==> IsComplete(f)
    ensures IsComplete(f) ==> Does(BodyEvent(MessageBytes(f)), f)
  {
    hide Initialized, ParseWindow, MessageBytes, MessageMsg, IsComplete, Does, EventOf;
    MessageIsRead(f);
    MessageComplete(f);
    if IsComplete(f) {
      MessageDoes(f);
    }
  }

  /* ---------- fields that come more than once ---------- */

  /** A sub-message field that is there already. */
  lemma SubTakenAgain(t: MessageType, m: Msg, n: nat, c: MessageType, raw: bytes, before: Msg, after: Msg)
    requires 1 <= n <= 6 && KindOf(t, n) == Some(MessageField(c)) && |raw| < TWO_32
    requires Get(m, n).sub == Some(before) && ParseWindow(c, before, raw) == Some(after)
    ensures Takes(t, m, BytesRecord(n, Some(raw)), BytesField(n, Some(raw)), SetSub(m, n, after))
  {
    hide Fields, SetSub, Get, ParseWindow, AllWellFormed, EncodeAll, BytesField;
    BytesAreWellFormed(n, Some(raw));
    BytesEncoded(n, Some(raw));
    AbsorbOne(t, m, Delimited(n, raw));
  }

  lemma SubSetTwice(n: nat, x: Msg, z: Msg)
    requires 1 <= n <= 6
    ensures Get(EMPTY, n) == CLEAR && Get(SetSub(EMPTY, n, x), n).sub == Some(x)
    ensures SetSub(SetSub(EMPTY, n, x), n, z) == SetSub(EMPTY, n, z)
  {
  }

  /** The two halves of a sub-message, sent as two fields, are read as the whole sent as one. */
  lemma HalvesAreMerged(t: MessageType, n: nat, c: MessageType, a: bytes, b: bytes)
    requires 1 <= n <= 6 && KindOf(t, n) == Some(MessageField(c)) && Complete(a) && |a| + |b| < TWO_32
    requires Parse(c, a).Some? && Parse(c, b).Some?
    ensures Parse(t, BytesField(n, Some(a)) + BytesField(n, Some(b))) == Parse(t, BytesField(n, Some(a + b)))
  {
    hide Fields, KindOf, Takes, SetSub, Get, ParseWindow, Merge, BytesField, BytesRecord;
    var x := Parse(c, a).value;
    WindowIsMerge(c, x, b);
    ConcatIsMerge(c, a, b);
    var z := Parse(c, a + b).value;
    var m := SetSub(EMPTY, n, x);
    SubSetTwice(n, x, z);
    SubTaken(t, EMPTY, n, c, Some(a), Some(x));
    SubTakenAgain(t, m, n, c, b, x, z);
    TakesBoth(t, EMPTY, BytesRecord(n, Some(a)), BytesField(n, Some(a)), m,
              BytesRecord(n, Some(b)), BytesField(n, Some(b)), SetSub(EMPTY, n, z));
    TakenIsParsed(t, BytesRecord(n, Some(a)) + BytesRecord(n, Some(b)),
                  BytesField(n, Some(a)) + BytesField(n, Some(b)), SetSub(EMPTY, n, z));
    SubTaken(t, EMPTY, n, c, Some(a + b), Some(z));
    TakenIsParsed(t, BytesRecord(n, Some(a + b)), BytesField(n, Some(a + b)), SetSub(EMPTY, n, z));
  }

  lemma ScalarSetTwice(n: nat, x: Scalar, z: Scalar)
    requires 1 <= n <= 6
    ensures SetScalar(SetScalar(EMPTY, n, x), n, z) == SetScalar(EMPTY, n, z)
  {
  }

  /** Of two numbers sent for one field the last one counts. */
  lemma LastNumberCounts(t: MessageType, n: nat, v: nat, w: nat)
    requires 1 <= n <= 6 && v < TWO_64 && w < TWO_64
    requires KindOf(t, n) == Some(UInt32Field) || KindOf(t, n) == Some(BoolField)
    ensures Parse(t, NumberField(n, Some(v)) + NumberField(n, Some(w))) == Parse(t, NumberField(n, Some(w)))
  {
    hide Fields, Takes, SetScalar, ParseWindow, NumberField, NumberRecord;
    var flag := KindOf(t, n) == Some(BoolField);
    var x := Num(if !flag then v % TWO_32 else if v != 0 then 1 else 0);
    var z := Num(if !flag then w % TWO_32 else if w != 0 then 1 else 0);
    var m, m2 := SetScalar(EMPTY, n, x), SetScalar(EMPTY, n, z);
    ScalarSetTwice(n, x, z);
    if flag {
      BoolTaken(t, EMPTY, n, Some(v));
      BoolTaken(t, m, n, Some(w));
      BoolTaken(t, EMPTY, n, Some(w));
    } else {
      NumberTaken(t, EMPTY, n, Some(v));
      NumberTaken(t, m, n, Some(w));
      NumberTaken(t, EMPTY, n, Some(w));
    }
    TakesBoth(t, EMPTY, NumberRecord(n, Some(v)), NumberField(n, Some(v)), m,
              NumberRecord(n, Some(w)), NumberField(n, Some(w)), m2);
    TakenIsParsed(t, NumberRecord(n, Some(v)) + NumberRecord(n, Some(w)),
                  NumberField(n, Some(v)) + NumberField(n, Some(w)), m2);
    TakenIsParsed(t, NumberRecord(n, Some(w)), NumberField(n, Some(w)), m2);
  }

  /* ---------- sessions ---------- */

  function BodiesOf(fs: seq<MessageFields>): seq<bytes>
  {
    seq(|fs|, k requires 0 <= k < |fs| => MessageBytes(fs[k]))
  }

  /** The frames up to and including the first of type 5. */
  function UptoEndOf(fs: seq<MessageFields>): (r: seq<MessageFields>)
    ensures r <= fs
  {
    if fs == [] then []
    else if Low(fs[0].kind) == 5 then [fs[0]]
    else
      assert fs == [fs[0]] + fs[1..];
      [fs[0]] + UptoEndOf(fs[1..])
  }

  /** One event for each frame, in order. */
  predicate AllDone(events: seq<Event>, fs: seq<MessageFields>)
  {
    |events| == |fs| && forall k :: 0 <= k < |fs| ==> Does(events[k], fs[k])
  }

  lemma OnlyTheEndHalts(e: Event, f: MessageFields)
    requires IsComplete(f) && Does(e, f)
    ensures e == Halt <==> Low(f.kind) == 5
  {
  }

  lemma DoneFirst(e: Event, f: MessageFields, events: seq<Event>, fs: seq<MessageFields>)
    requires Does(e, f) && AllDone(events, fs)
    ensures AllDone([e] + events, [f] + fs)
  {
    hide Does;
  }

  lemma NoBodies()
    ensures BodiesOf([]) == [] && Deliver([], []) == []
  {
  }

  lemma NothingDone()
    ensures AllDone([], [])
  {
  }

  /** The body of one more frame in front. */
  lemma BodiesStep(fs: seq<MessageFields>)
    requires fs != []
    ensures BodiesOf(fs) == [MessageBytes(fs[0])] + BodiesOf(fs[1..])
    ensures Deliver(BodiesOf(fs), [])
         == if BodyEvent(MessageBytes(fs[0])) == Halt then [Halt]
            else [BodyEvent(MessageBytes(fs[0]))] + Deliver(BodiesOf(fs[1..]), [])
  {
    hide MessageBytes, BodyEvent;
    assert BodiesOf(fs) == [MessageBytes(fs[0])] + BodiesOf(fs[1..]);
  }

  lemma {:induction false} BodiesAreDone(fs: seq<MessageFields>)
    requires forall f <- fs :: Writable(f) && IsComplete(f)
    ensures forall b <- BodiesOf(fs) :: Readable(b)
    ensures AllDone(Deliver(BodiesOf(fs), []), UptoEndOf(fs))
    ensures Halt in Deliver(BodiesOf(fs), []) <==> exists f <- fs :: Low(f.kind) == 5
    decreases |fs|
  {
    hide MessageBytes, Writable, IsComplete, Does, Readable, BodyEvent, AllDone, Deliver, BodiesOf;
    NothingDone();
    if fs == [] {
      NoBodies();
    } else {
      FrameMeans(fs[0]);
      var e := BodyEvent(MessageBytes(fs[0]));
      OnlyTheEndHalts(e, fs[0]);
      BodiesAreDone(fs[1..]);
      assert fs == [fs[0]] + fs[1..];
      BodiesStep(fs);
      if e == Halt {
        DoneFirst(e, fs[0], [], []);
        assert [e] + [] == [e] && [fs[0]] + [] == [fs[0]];
      } else {
        DoneFirst(e, fs[0], Deliver(BodiesOf(fs[1..]), []), UptoEndOf(fs[1..]));
      }
    }
  }

  /**
   A session: the frames a client writes within the first 64 MiB, each complete, are carried out one
   by one and in order up to the first of type 5; after that one, or when nothing follows the frames,
   nothing else is.
   */
  lemma SessionIsDone(fs: seq<MessageFields>, tail: bytes, events: seq<Event>)
    requires forall f <- fs :: Writable(f) && IsComplete(f)
    requires |AllFramed(BodiesOf(fs))| <= 64 * 1024 * 1024
    requires var data := AllFramed(BodiesOf(fs)) + tail;
             Dispatched(data[..Min(|data|, TOTAL_BYTES_LIMIT)], events)
    ensures var done := UptoEndOf(fs);
            && |done| <= |events| && AllDone(events[..|done|], done)
            && ((exists f <- fs :: Low(f.kind) == 5) || tail == [] ==> |events| == |done|)
  {
    hide Dispatched, AllFramed, Deliver, BodiesOf, UptoEndOf, Readable, Writable, IsComplete, Does;
    BodiesAreDone(fs);
    FramesBelowTheLimit(BodiesOf(fs), tail, events);
  }

  lemma IncompleteIsRejected(f: MessageFields, tail: bytes)
    requires Writable(f) && !IsComplete(f)
    ensures var bs := Framed(MessageBytes(f)) + tail; Within(bs) == [] && Events(bs) == []
  {
    hide Framed, MessageBytes, MessageMsg, Initialized, ParseWindow, IsComplete, ReadFrame;
    MessageIsRead(f);
    MessageComplete(f);
    ReadUnready(MessageBytes(f), tail);
  }

  lemma DispatchedExactly(window: bytes, events: seq<Event>)
    requires Dispatched(window, events) && Within(window) == Events(window)
    ensures events == Events(window)
  {
    hide Within, Events;
  }

  /** The first frame that is not complete ends the session: it and what follows it are not carried out. */
  lemma SessionEndsAt(fs: seq<MessageFields>, f: MessageFields, tail: bytes, events: seq<Event>)
    requires (forall g <- fs :: Writable(g) && IsComplete(g)) && Writable(f) && !IsComplete(f)
    requires |AllFramed(BodiesOf(fs))| + |Framed(MessageBytes(f))| <= 64 * 1024 * 1024
    requires var data := AllFramed(BodiesOf(fs)) + (Framed(MessageBytes(f)) + tail);
             Dispatched(data[..Min(|data|, TOTAL_BYTES_LIMIT)], events)
    ensures AllDone(events, UptoEndOf(fs))
  {
    hide Dispatched, AllFramed, Framed, Deliver, BodiesOf, UptoEndOf, Readable, Writable, IsComplete, Does, ReadFrame;
    hide MessageBytes;
    BodiesAreDone(fs);
    var frame := Framed(MessageBytes(f));
    var data := AllFramed(BodiesOf(fs)) + (frame + tail);
    var n := Min(|data|, TOTAL_BYTES_LIMIT);
    var seen := frame + tail[..n - |AllFramed(BodiesOf(fs))| - |frame|];
    assert data[..n] == AllFramed(BodiesOf(fs)) + seen;
    IncompleteIsRejected(f, tail[..n - |AllFramed(BodiesOf(fs))| - |frame|]);
    FramesAreWithin(BodiesOf(fs), seen);
    FramesAreDelivered(BodiesOf(fs), seen);
    DispatchedExactly(data[..n], events);
  }

  /* ---------- what the generated code writes ---------- */

  /** A number that a setter of a 32-bit field takes. */
  predicate Narrow(v: Option<nat>, last: nat)
  {
    v.Some? ==> v.value <= last
  }

  const LAST: nat := TWO_32 - 1

  predicate SettableTouch(f: TouchFields)
  {
    Narrow(f.kind, 2) && Narrow(f.x, LAST) && Narrow(f.y, LAST) && Narrow(f.mirror, 1) && Narrow(f.flip, 1)
  }

  predicate SettableScreen(f: ScreenFields)
  {
    && Narrow(f.kind, 3) && (f.kind.Some? ==> f.kind.value > 0)
    && (f.resolution.Some? ==> Narrow(f.resolution.value.first, LAST) && Narrow(f.resolution.value.second, LAST))
    && (f.frequency.Some? ==> Narrow(f.frequency.value, LAST))
    && (f.diff.Some? ==> Narrow(f.diff.value, 1))
  }

  /** Numbers as the setters take them: enums listed, flags 0 or 1, the rest below 2^32. */
  predicate Settable(f: MessageFields)
  {
    && Narrow(f.kind, 5) && Listed(f.kind, 1, 5)
    && (forall t <- f.touches :: SettableTouch(t))
    && (f.screen.Some? ==> SettableScreen(f.screen.value))
    && (f.key.Some? ==> Narrow(f.key.value.kind, 1))
    && (f.button.Some? ==> Narrow(f.button.value.first, 2) && Narrow(f.button.value.second, LAST))
    && (f.command.Some? ==> Narrow(f.command.value.kind, 2))
  }

  lemma SixFields(t: MessageType, m: Msg)
    requires m.unknown == []
    ensures Serialize(t, m) == FieldBytes(t, m, 1) + FieldBytes(t, m, 2) + FieldBytes(t, m, 3)
                               + FieldBytes(t, m, 4) + FieldBytes(t, m, 5) + FieldBytes(t, m, 6)
  {
    hide FieldBytes, Serialize, EncodeAll;
    SerializeIsBytesFrom(t, m);
    assert EncodeAll([]) == [] by {
      FieldRecordsEnd(t, m);
    }
    assert BytesFrom(t, m, 7) == [];
    assert BytesFrom(t, m, 6) == FieldBytes(t, m, 6);
    assert BytesFrom(t, m, 5) == FieldBytes(t, m, 5) + FieldBytes(t, m, 6);
    assert BytesFrom(t, m, 4) == FieldBytes(t, m, 4) + (FieldBytes(t, m, 5) + FieldBytes(t, m, 6));
    assert BytesFrom(t, m, 3) == FieldBytes(t, m, 3) + BytesFrom(t, m, 4);
    assert BytesFrom(t, m, 2) == FieldBytes(t, m, 2) + BytesFrom(t, m, 3);
  }

  lemma NumberWritten(t: MessageType, m: Msg, n: nat, v: Option<nat>)
    requires 1 <= n <= |Fields(t)| && WireTypeFor(KindOf(t, n).value) == 0
    requires Get(m, n).scalar == if v.Some? then Some(Num(v.value)) else None
    ensures FieldBytes(t, m, n) == NumberField(n, v)
  {
    hide Fields, EncodeAll, NumberField, Get;
    NumberEncoded(n, v);
  }

  lemma TextWritten(t: MessageType, m: Msg, n: nat, v: Option<bytes>)
    requires 1 <= n <= |Fields(t)| && KindOf(t, n) == Some(StringField)
    requires Get(m, n).scalar == if v.Some? then Some(Text(v.value)) else None
    ensures FieldBytes(t, m, n) == BytesField(n, v)
  {
    hide Fields, EncodeAll, BytesField, Get;
    BytesEncoded(n, v);
  }

  lemma SubWritten(t: MessageType, m: Msg, n: nat, c: MessageType, raw: Option<bytes>)
    requires 1 <= n <= |Fields(t)| && KindOf(t, n) == Some(MessageField(c))
    requires Get(m, n).sub.Some? == raw.Some? && (raw.Some? ==> Serialize(c, Get(m, n).sub.value) == raw.value)
    ensures FieldBytes(t, m, n) == BytesField(n, raw)
  {
    hide Fields, EncodeAll, Serialize, BytesField, Get;
    BytesEncoded(n, raw);
  }

  lemma NothingWritten(t: MessageType, m: Msg, from: nat)
    requires |Fields(t)| < from
    ensures forall n :: from <= n <= 6 ==> FieldBytes(t, m, n) == []
  {
  }

  lemma FieldCounts()
    ensures |Fields(Message)| == 6 && |Fields(Touch)| == 5 && |Fields(Schema.Screen)| == 4
    ensures |Fields(Key)| == |Fields(Button)| == |Fields(Command)| == |Fields(Schema.Resolution)| == 2
    ensures |Fields(Schema.Frequency)| == |Fields(Schema.ImageDiff)| == 1
  {
  }

  lemma TouchIsWritten(f: TouchFields)
    requires SettableTouch(f)
    ensures Serialize(Touch, TouchMsg(f)) == TouchBytes(f)
  {
    hide Fields, KindOf, Serialize, FieldBytes, NumberField;
    var m := TouchMsg(f);
    TouchKinds();
    FieldCounts();
    NumberWritten(Touch, m, 1, f.kind);
    NumberWritten(Touch, m, 2, f.x);
    NumberWritten(Touch, m, 3, f.y);
    NumberWritten(Touch, m, 4, f.mirror);
    NumberWritten(Touch, m, 5, f.flip);
    NothingWritten(Touch, m, 6);
    SixFields(Touch, m);
  }

  function Held(v: Option<nat>): Option<Scalar>
  {
    if v.Some? then Some(Num(v.value)) else None
  }

  lemma PairIsWritten(t: MessageType, m: Msg, f: PairFields)
    requires t == Schema.Resolution || t == Button
    requires m.unknown == [] && m.f1.scalar == Held(f.first) && m.f2.scalar == Held(f.second)
    ensures Serialize(t, m) == PairBytes(f)
  {
    hide Fields, KindOf, Serialize, FieldBytes, NumberField;
    PairKinds();
    FieldCounts();
    NumberWritten(t, m, 1, f.first);
    NumberWritten(t, m, 2, f.second);
    NothingWritten(t, m, 3);
    SixFields(t, m);
  }

  lemma SettingIsWritten(t: MessageType, m: Msg, v: Option<nat>)
    requires t == Schema.Frequency || t == Schema.ImageDiff
    requires m.unknown == [] && m.f1.scalar == Held(v)
    ensures Serialize(t, m) == NumberField(1, v)
  {
    hide Fields, KindOf, Serialize, FieldBytes, NumberField;
    PairKinds();
    FieldCounts();
    NumberWritten(t, m, 1, v);
    NothingWritten(t, m, 2);
    SixFields(t, m);
  }

  lemma TextIsWritten(t: MessageType, f: TextFields, last: nat)
    requires (t == Key && last == 1) || (t == Command && last == 2)
    requires Narrow(f.kind, last)
    ensures Serialize(t, TextMsg(f, last)) == TextBytes(f)
  {
    hide Fields, KindOf, Serialize, FieldBytes, NumberField, BytesField;
    var m := TextMsg(f, last);
    PairKinds();
    FieldCounts();
    NumberWritten(t, m, 1, f.kind);
    TextWritten(t, m, 2, f.text);
    NothingWritten(t, m, 3);
    SixFields(t, m);
  }

  lemma ScreenShape(f: ScreenFields)
    requires SettableScreen(f)
    ensures var m := ScreenMsg(f);
            && m.unknown == [] && m.f1.scalar == Held(f.kind)
            && m.f2.sub == ResolutionOf(f) && m.f3.sub == FrequencyOf(f) && m.f4.sub == DiffOf(f)
  {
    hide ResolutionMsg, WithNumber, WithBool;
  }

  lemma ScreenIsWritten(f: ScreenFields)
    requires SettableScreen(f)
    ensures Serialize(Schema.Screen, ScreenMsg(f)) == ScreenBytes(f)
  {
    hide Fields, KindOf, Serialize, FieldBytes, NumberField, BytesField, PairBytes, ScreenMsg;
    var t, m := Schema.Screen, ScreenMsg(f);
    ScreenKinds();
    FieldCounts();
    ScreenShape(f);
    if f.resolution.Some? {
      PairIsWritten(Schema.Resolution, ResolutionMsg(f.resolution.value), f.resolution.value);
    }
    if f.frequency.Some? {
      SettingIsWritten(Schema.Frequency, WithNumber(EMPTY, 1, f.frequency.value), f.frequency.value);
    }
    if f.diff.Some? {
      SettingIsWritten(Schema.ImageDiff, WithBool(EMPTY, 1, f.diff.value), f.diff.value);
    }
    NumberWritten(t, m, 1, f.kind);
    SubWritten(t, m, 2, Schema.Resolution, if f.resolution.Some? then Some(PairBytes(f.resolution.value)) else None);
    SubWritten(t, m, 3, Schema.Frequency, if f.frequency.Some? then Some(NumberField(1, f.frequency.value)) else None);
    SubWritten(t, m, 4, Schema.ImageDiff, if f.diff.Some? then Some(NumberField(1, f.diff.value)) else None);
    NothingWritten(t, m, 5);
    SixFields(t, m);
  }

  lemma {:induction false} TouchesWritten(touches: seq<TouchFields>)
    requires forall f <- touches :: SettableTouch(f)
    ensures EncodeAll(ItemRecords(2, Touch, TouchMsgs(touches))) == TouchesBytes(touches)
    decreases |touches|
  {
    hide Fields, TouchMsg, TouchBytes, Serialize, Encode, BytesField, SettableTouch;
    var rs := ItemRecords(2, Touch, TouchMsgs(touches));
    if touches == [] {
      assert rs == [];
    } else {
      var raw := TouchBytes(touches[0]);
      TouchIsWritten(touches[0]);
      TouchesWritten(touches[1..]);
      BytesEncoded(2, Some(raw));
      OneEncoded(Delimited(2, raw));
      assert rs == [Delimited(2, raw)] + ItemRecords(2, Touch, TouchMsgs(touches[1..]));
    }
  }

  lemma NothingUnknown(f: MessageFields)
    requires Listed(f.kind, 1, 5)
    ensures MessageMsg(f).unknown == []
  {
    hide TouchMsgs, ScreenMsg, TextMsg, ButtonMsg;
  }

  lemma TouchFieldWritten(f: MessageFields)
    requires forall t <- f.touches :: SettableTouch(t)
    ensures FieldBytes(Message, MessageMsg(f), 2) == TouchesBytes(f.touches)
  {
    hide EncodeAll, MessageMsg, TouchMsgs, TouchesBytes, SettableTouch, ItemRecords;
    MessageKinds();
    MessageShape(f);
    TouchesWritten(f.touches);
  }

  lemma SubsAreWritten(f: MessageFields)
    requires Settable(f)
    ensures f.screen.Some? ==> Serialize(Schema.Screen, ScreenOf(f).value) == ScreenRaw(f).value
    ensures f.key.Some? ==> Serialize(Key, KeyOf(f).value) == KeyRaw(f).value
    ensures f.button.Some? ==> Serialize(Button, ButtonOf(f).value) == ButtonRaw(f).value
    ensures f.command.Some? ==> Serialize(Command, CommandOf(f).value) == CommandRaw(f).value
  {
    hide Fields, Serialize, ScreenBytes, TextBytes, PairBytes, ScreenMsg, TextMsg, SettableTouch, SettableScreen;
    if f.screen.Some? {
      ScreenIsWritten(f.screen.value);
    }
    if f.key.Some? {
      TextIsWritten(Key, f.key.value, 1);
    }
    if f.button.Some? {
      PairIsWritten(Button, ButtonMsg(f.button.value), f.button.value);
    }
    if f.command.Some? {
      TextIsWritten(Command, f.command.value, 2);
    }
  }

  /**
   The generated code writes a message of settable fields as exactly these bytes: every field under
   the number and with the wire type that wipc.proto gives it, in the order of the numbers.
   */
  lemma MessageIsWritten(f: MessageFields)
    requires Settable(f)
    ensures Serialize(Message, MessageMsg(f)) == MessageBytes(f)
  {
    hide Fields, KindOf, Serialize, FieldBytes, NumberField, BytesField, TouchesBytes, MessageMsg, TouchMsgs;
    hide ScreenBytes, TextBytes, PairBytes, ScreenMsg, TextMsg, ButtonMsg, SettableTouch, SettableScreen;
    var m := MessageMsg(f);
    MessageKinds();
    FieldCounts();
    MessageShape(f);
    NothingUnknown(f);
    SubsAreWritten(f);
    NumberWritten(Message, m, 1, f.kind);
    TouchFieldWritten(f);
    SubWritten(Message, m, 3, Schema.Screen, ScreenRaw(f));
    SubWritten(Message, m, 4, Key, KeyRaw(f));
    SubWritten(Message, m, 5, Button, ButtonRaw(f));
    SubWritten(Message, m, 6, Command, CommandRaw(f));
    SixFields(Message, m);
  }

  /* ---------- the handshake ---------- */

  /** The message that carries a key: type 5, in field 6 a command of type 1 and, in its field 2, the key. */
  function KeyFields(key: bytes): MessageFields
  {
    MessageFields(Some(5), [], None, None, None, Some(TextFields(Some(1), Some(key))))
  }

  /** What send_auth_key writes behind the length prefix. */
  lemma KeyIsWritten(key: bytes)
    ensures Serialize(Message, Auth.KeyMessage(key)) == MessageBytes(KeyFields(key))
  {
    hide Serialize, MessageBytes;
    var f := KeyFields(key);
    assert TouchMsgs([]) == [];
    assert MessageMsg(f) == Auth.KeyMessage(key);
    MessageIsWritten(f);
  }

  lemma CommandText(f: MessageFields)
    ensures Get(Target(MessageMsg(f).f6), 2).scalar
         == if f.command.Some? && f.command.value.text.Some? then Some(Text(f.command.value.text.value)) else None
  {
    hide MessageMsg;
    MessageShape(f);
  }

  /**
   What a peer may send instead: a frame is accepted exactly if it is complete, of type 5, and has a
   command with the expected key.
   */
  lemma AcceptedIff(f: MessageFields, tail: bytes, expected: bytes)
    requires Writable(f) && |Framed(MessageBytes(f))| <= 64 * 1024 * 1024
    ensures Auth.ReadAndCheckAuth(Framed(MessageBytes(f)) + tail, expected) <==>
              IsComplete(f) && Low(f.kind) == 5 && f.command.Some? && f.command.value.text == Some(expected)
  {
    hide Fields, ReadFrame, Framed, MessageBytes, MessageMsg, Initialized, ParseWindow, TextMsg;
    var frame := Framed(MessageBytes(f));
    var n := Min(|frame + tail|, TOTAL_BYTES_LIMIT);
    assert (frame + tail)[..n] == frame + tail[..n - |frame|];
    MessageIsRead(f);
    MessageComplete(f);
    MessageShape(f);
    if IsComplete(f) {
      ReadOneFrame(MessageBytes(f), tail[..n - |frame|]);
      CommandText(f);
    } else {
      ReadUnready(MessageBytes(f), tail[..n - |frame|]);
    }
  }
}
