/** The two-way handshake: the key sent as one delimited frame, and the key checked on receipt. */
module Auth {
  import opened Wrappers
  import opened WireFormat
  import opened Schema
  import opened Messages
  import opened NormalForm
  import opened Storage
  import opened CodedStreams
  import opened MessageObjects
  import opened Receiver

  const INIT_KEY := 1

  function KeyCommand(key: bytes): Msg
  {
    SetScalar(SetScalar(EMPTY, 1, Num(INIT_KEY)), 2, Text(key))
  }

  /** The CMD message that carries a key. */
  function KeyMessage(key: bytes): Msg
  {
    SetSub(SetScalar(EMPTY, 1, Num(CMD)), 6, KeyCommand(key))
  }

  /** check_auth: a CMD whose command has a key, and that key is the expected one. */
  predicate CheckAuth(m: Msg, key: bytes)
  {
    && FieldOr(Message, m, 1) == Num(CMD)
    && Get(Target(m.f6), 2).scalar.Some?
    && Get(Target(m.f6), 2).scalar.value == Text(key)
  }

  /** read_and_check_auth on what the peer sent, for a frame that ends within the stream's total limit. */
  predicate ReadAndCheckAuth(bs: bytes, key: bytes)
  {
    var f := ReadFrame(bs[..Min(|bs|, TOTAL_BYTES_LIMIT)]);
    f.Frame? && CheckAuth(f.m, key)
  }

  lemma CommandKinds()
    ensures KindOf(Command, 1) == Some(EnumField(0, 2, 0)) && KindOf(Command, 2) == Some(StringField)
    ensures forall n :: n == 0 || n > 2 ==> KindOf(Command, n).None?
  {
  }

  lemma InitializedParts(t: MessageType, m: Msg)
    ensures Initialized(t, m) <==>
              && InitializedSlot(t, 1, m.f1) && InitializedSlot(t, 2, m.f2) && InitializedSlot(t, 3, m.f3)
              && InitializedSlot(t, 4, m.f4) && InitializedSlot(t, 5, m.f5) && InitializedSlot(t, 6, m.f6)
  {
    hide InitializedSlot;
  }

  lemma KeyCommandIsInitialized(key: bytes)
    ensures Initialized(Command, KeyCommand(key))
  {
  }

  lemma KeyMessageIsInitialized(key: bytes)
    ensures Initialized(Message, KeyMessage(key))
  {
    hide Initialized;
    KeyCommandIsInitialized(key);
    InitializedParts(Message, KeyMessage(key));
    MessageKinds();
  }

  lemma KeyMessageIsNormal(key: bytes)
    requires |key| < TWO_32
    ensures Normal(Message, KeyMessage(key)) && Initialized(Message, KeyMessage(key))
  {
    hide Fields, Normal, Initialized;
    MessageKinds();
    CommandKinds();
    NormalEmpty(Command);
    NormalEmpty(Message);
    var c1 := SetScalar(EMPTY, 1, Num(INIT_KEY));
    NormalPut(Command, EMPTY, 1, CLEAR.(scalar := Some(Num(INIT_KEY))));
    NormalPut(Command, c1, 2, CLEAR.(scalar := Some(Text(key))));
    var command := SetScalar(c1, 2, Text(key));
    var m1 := SetScalar(EMPTY, 1, Num(CMD));
    NormalPut(Message, EMPTY, 1, CLEAR.(scalar := Some(Num(CMD))));
    NormalPut(Message, m1, 6, CLEAR.(sub := Some(command)));
    KeyMessageIsInitialized(key);
  }

  method BuildCommand(s: Store, key: bytes) returns (command: Store)
    requires Sound(Command, s) && Value(Command, s) == EMPTY && |key| < TWO_31
    ensures Sound(Command, command) && Value(Command, command) == KeyCommand(key)
  {
    hide Fields, Sound, Value, Put;
    CommandKinds();
    var o := new MessageObject.Of(Command, s);
    o.SetScalar(1, Num(INIT_KEY));
    o.SetScalar(2, Text(key));
    command := o.mem;
  }

  lemma KeyMessageShape()
    ensures var m := SetScalar(EMPTY, 1, Num(CMD));
            Get(m, 6) == CLEAR && Get(SetSub(m, 6, EMPTY), 6) == CLEAR.(sub := Some(EMPTY))
  {
  }

  method BuildKeyMessage(key: bytes) returns (message: MessageObject)
    requires |key| < TWO_31
    ensures fresh(message) && message.t == Message && message.Valid() && message.Val() == KeyMessage(key)
  {
    hide Fields, Sound, Value, Put, Get, KeyCommand;
    MessageKinds();
    message := new MessageObject(Message);
    message.SetScalar(1, Num(CMD));
    KeyMessageShape();
    var s := message.MutableSub(6);
    var command := BuildCommand(s, key);
    message.StoreSub(6, command);
    PutTwice(SetScalar(EMPTY, 1, Num(CMD)), 6, CLEAR.(sub := Some(EMPTY)), CLEAR.(sub := Some(KeyCommand(key))));
  }

  /** The length prefix and the message, after ByteSize. */
  method WriteFrame(message: MessageObject, out: CodedOutputStream)
    requires message.t == Message && message.Valid() && Fits(Message, message.Val()) && out.Valid()
    modifies message`mem, out`used, out`hadError, out.buffer
    ensures out.Valid()
    ensures out.State() == Push(out.buffer.Length, old(out.State()), Framed(Serialize(Message, old(message.Val()))))
  {
    hide Sound, Value, Serialize, EncodeVarint, Push;
    ghost var body := Serialize(Message, message.Val());
    PushTwice(out.buffer.Length, out.State(), EncodeVarint(|body|), body);
    var size := message.ByteSize();
    out.WriteRaw(EncodeVarint(size));
    message.SerializeToCodedStream(out);
  }

  lemma PushAll(bs: bytes)
    ensures Push(|bs|, Sink([], false), bs) == Sink(bs, false)
  {
    assert [] + bs == bs;
  }

  lemma KeyFits(key: bytes)
    requires Fits(Message, KeyMessage(key))
    ensures |key| < TWO_31
  {
    hide Fields, Serialize;
    MessageKinds();
    CommandKinds();
    SubFits(Message, KeyMessage(key), 6);
    SubFits(Command, Target(KeyMessage(key).f6), 2);
  }

  /** send_auth_key: the buffer is sized from ByteSize and filled exactly. */
  method SendAuthKey(key: bytes) returns (buffer: array<byte>)
    requires Fits(Message, KeyMessage(key))
    ensures fresh(buffer) && buffer[..] == Framed(Serialize(Message, KeyMessage(key)))
  {
    hide Sound, Value, Serialize, EncodeVarint, KeyMessage, Push;
    KeyFits(key);
    var message := BuildKeyMessage(key);
    ghost var body := Serialize(Message, KeyMessage(key));
    VarintSizeIsLength(|body|);
    var size := message.ByteSize();
    var varintSize := VarintSize(size);
    size := message.ByteSize();
    buffer := new byte[size + varintSize](_ => 0);
    var out := new CodedOutputStream(buffer);
    WriteFrame(message, out);
    PushAll(Framed(body));
    assert buffer[..out.used] == buffer[..];
  }

  /** A peer that sent a key is accepted exactly when it is the expected one. */
  lemma HandshakeAcceptsIffSameKey(key: bytes, tail: bytes, expected: bytes)
    requires Fits(Message, KeyMessage(key))
    requires |Framed(Serialize(Message, KeyMessage(key)))| <= TOTAL_BYTES_LIMIT
    ensures ReadAndCheckAuth(Framed(Serialize(Message, KeyMessage(key))) + tail, expected) <==> key == expected
  {
    hide Fields, Serialize, ReadFrame, Normal, Initialized, Framed;
    KeyFits(key);
    KeyMessageIsNormal(key);
    ReadBack(Message, KeyMessage(key));
    var frame := Framed(Serialize(Message, KeyMessage(key)));
    var n := Min(|frame + tail|, TOTAL_BYTES_LIMIT);
    assert (frame + tail)[..n] == frame + tail[..n - |frame|];
    ReadOneFrame(Serialize(Message, KeyMessage(key)), tail[..n - |frame|]);
  }
}
