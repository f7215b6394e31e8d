/**
 The receiver thread: length-delimited frames read into one reused Message and dispatched by
 type until a CMD arrives or a frame cannot be read.
 */
module Receiver {
  import opened Wrappers
  import opened WireFormat
  import opened Schema
  import opened Messages
  import opened MergeLaws
  import opened NormalForm
  import opened PlainLoop
  import opened Storage
  import opened CodedStreams
  import opened MessageObjects

  const SCREEN := 1
  const TOUCH := 2
  const KEY := 3
  const BUTTON := 4
  const CMD := 5

  /** What a message makes the backend do. */
  datatype Event =
    | Metrics(screen: Msg)
    | Touches(touches: seq<Msg>)
    | EnableKeyboard(method_: Scalar)
    | DisableKeyboard
    | InjectButton(kind: Scalar, buttonid: Scalar)
    | Halt

  /** An accessor's answer: the field, or its default when it is absent. */
  function FieldOr(t: MessageType, m: Msg, n: nat): Scalar
  {
    if Get(m, n).scalar.Some? then Get(m, n).scalar.value else Default(t, n)
  }

  /** The same for the fields that hold a number. */
  function NumberOr(t: MessageType, m: Msg, n: nat): nat
  {
    var v := FieldOr(t, m, n);
    if v.Num? then v.n else 0
  }

  function EventOf(m: Msg): Event
  {
    var kind := FieldOr(Message, m, 1);
    if kind == Num(SCREEN) then Metrics(Target(m.f3))
    else if kind == Num(TOUCH) then Touches(m.f2.items)
    else if kind == Num(KEY) then
      var key := Target(m.f4);
      if FieldOr(Key, key, 1) == Num(0) then EnableKeyboard(FieldOr(Key, key, 2)) else DisableKeyboard
    else if kind == Num(BUTTON) then
      InjectButton(FieldOr(Button, Target(m.f5), 1), FieldOr(Button, Target(m.f5), 2))
    else Halt
  }

  datatype Frame = NoFrame | Frame(m: Msg, rest: bytes)

  lemma LoopShrinks(t: MessageType, m: Msg, bs: bytes)
    ensures var o := Loop(t, m, bs); o.Done? ==> |o.rest| <= |bs|
  {
    LoopIsScan(t, m, bs);
  }

  /** read_message: the frame's limit need not be reached, the next read starts where parsing stopped. */
  function ReadFrame(bs: bytes): (f: Frame)
    ensures f.Frame? ==> |f.rest| < |bs|
  {
    match ReadVarint32(bs)
    case Got(size, rest) =>
      var n := Min(size, |rest|);
      var o := Loop(Message, EMPTY, rest[..n]);
      LoopShrinks(Message, EMPTY, rest[..n]);
      if o.Done? && Initialized(Message, o.m) then Frame(o.m, o.rest + rest[n..]) else NoFrame
    case _ => NoFrame
  }

  /** The events a byte stream causes. */
  function Events(bs: bytes): seq<Event>
    decreases |bs|
  {
    var f := ReadFrame(bs);
    if f.NoFrame? then []
    else if EventOf(f.m) == Halt then [Halt]
    else [EventOf(f.m)] + Events(f.rest)
  }

  /** The frame at the head of bs, if its length can be read, does not run past the end of bs. */
  predicate HeadIsWhole(bs: bytes)
  {
    var size := ReadVarint32(bs);
    size.Got? ==> size.value <= |size.rest|
  }

  /** The events of the frames that lie whole in bs. */
  function Within(bs: bytes): seq<Event>
    decreases |bs|
  {
    var f := ReadFrame(bs);
    if f.NoFrame? || !HeadIsWhole(bs) then []
    else if EventOf(f.m) == Halt then [Halt]
    else [EventOf(f.m)] + Within(f.rest)
  }

  lemma {:induction false} WithinIsPrefix(bs: bytes)
    ensures Within(bs) <= Events(bs)
    decreases |bs|
  {
    hide EventOf, HeadIsWhole, ReadFrame;
    var f := ReadFrame(bs);
    if f.Frame? {
      WithinIsPrefix(f.rest);
    }
  }

  /**
   What may be dispatched of a window: every frame that lies whole in it, and behind these at
   most what the frame that runs past its end leads to.
   */
  predicate Dispatched(window: bytes, events: seq<Event>)
  {
    Within(window) <= events <= Events(window)
  }

  /* ---------- the loop over one reused object ---------- */

  lemma MessageKinds()
    ensures KindOf(Message, 1) == Some(EnumField(1, 5, 1)) && KindOf(Message, 2) == Some(RepeatedField(Touch))
    ensures KindOf(Message, 3) == Some(MessageField(Screen)) && KindOf(Message, 4) == Some(MessageField(Key))
    ensures KindOf(Message, 5) == Some(MessageField(Button)) && KindOf(Message, 6) == Some(MessageField(Command))
  {
  }

  /** x(): the object behind the pointer, or the default instance when there is none. */
  function ReadSub(child: MessageType, c: Cell): Msg
  {
    if c.sub.Some? then Value(child, c.sub.value) else EMPTY
  }

  /** Fields 1 and 2 of a Key or Button read through their accessors. */
  method ReadPair(child: MessageType, c: Cell) returns (first: Scalar, second: Scalar)
    requires child.Key? || child.Button? || child.Command?
    requires c.sub.Some? ==> Sound(child, c.sub.value)
    ensures first == FieldOr(child, ReadSub(child, c), 1) && second == FieldOr(child, ReadSub(child, c), 2)
  {
    hide Sound, Value;
    var s := if c.sub.Some? then c.sub.value else Blank(child);
    BlankSound(child);
    SoundAt(child, s, 1);
    SoundAt(child, s, 2);
    first, second := s.c1.scalar, s.c2.scalar;
  }

  /** What the accessors of a Message object answer, whatever its has-bits say. */
  method Dispatch(message: MessageObject) returns (e: Event)
    requires message.t == Message && message.Valid()
    ensures e == EventOf(message.Val())
  {
    hide Fields, Sound, Value;
    SoundAt(Message, message.mem, 1);
    SoundAt(Message, message.mem, 2);
    SoundAt(Message, message.mem, 3);
    SoundAt(Message, message.mem, 4);
    SoundAt(Message, message.mem, 5);
    MessageKinds();
    var kind := message.mem.c1.scalar;
    if kind == Num(SCREEN) {
      e := Metrics(ReadSub(Screen, message.mem.c3));
    } else if kind == Num(TOUCH) {
      e := Touches(Values(Touch, message.mem.c2.items));
    } else if kind == Num(KEY) {
      var k, id := ReadPair(Key, message.mem.c4);
      e := if k == Num(0) then EnableKeyboard(id) else DisableKeyboard;
    } else if kind == Num(BUTTON) {
      var k, id := ReadPair(Button, message.mem.c5);
      e := InjectButton(k, id);
    } else {
      e := Halt;
    }
  }

  method ReadMessage(message: MessageObject, input: CodedInputStream) returns (ok: bool)
    requires message.t == Message && message.Valid() && input.Valid()
    requires input.limit == INT_MAX && !input.legitimateEnd
    modifies message`mem, input
    ensures message.Valid() && input.Valid()
    ensures var f := ReadFrame(old(input.Window()));
            && (ok ==>
                  && f.Frame? && message.Val() == f.m && input.Window() == f.rest
                  && input.limit == INT_MAX && !input.legitimateEnd)
            && (!ok && (HeadIsWhole(old(input.Window())) || !old(input.Cut())) ==> f.NoFrame?)
  {
    hide Fields, Sound, Value, Loop, Initialized, ReadVarint64;
    var size;
    ok, size := input.ReadVarint32();
    if !ok {
      return;
    }
    ghost var rest := input.Window();
    ghost var n := Min(size, |rest|);
    var limit := input.PushLimit(size);
    assert size <= |rest| ==> !input.Cut();
    LoopShrinks(Message, EMPTY, rest[..n]);
    ghost var end := input.End();
    ok := message.ParseFromCodedStream(input);
    ghost var left := input.Window();
    input.PopLimit(limit);
    if ok {
      assert input.data[input.pos..input.End()] == input.data[input.pos..end] + input.data[end..input.End()];
      assert input.data[end..input.End()] == rest[n..];
    }
  }

  class ReceiverThread {
    var dispatched: seq<Event>
    var halt: bool

    constructor ()
      ensures dispatched == [] && !halt
    {
      dispatched, halt := [], false;
    }

    /** The loop of receiver; the stream may hold more than it ever reads. */
    method Run(input: CodedInputStream)
      requires input.Valid() && input.limit == INT_MAX && !input.legitimateEnd
      modifies this, input
      ensures old(dispatched) <= dispatched
      ensures var events := dispatched[|old(dispatched)|..];
              && Dispatched(old(input.Window()), events)
              && (|input.data| < TOTAL_BYTES_LIMIT ==> events == Events(old(input.Window())))
              && halt == (old(halt) || Halt in events)
    {
      hide EventOf, ReadFrame, Sound, Value, HeadIsWhole;
      ghost var all := input.Window();
      WithinIsPrefix(all);
      ghost var whole := true;
      ghost var events: seq<Event> := [];
      var message := new MessageObject(Message);
      var running := true;
      while running
        invariant message.t == Message && message.Valid() && fresh(message)
        invariant input.Valid() && input.limit == INT_MAX && !input.legitimateEnd
        invariant dispatched == old(dispatched) + events && halt == (old(halt) || Halt in events)
        invariant Events(all) == events + if running then Events(input.Window()) else []
        invariant if whole then Within(all) == events + (if running then Within(input.Window()) else [])
                  else Within(all) <= events
        decreases running, |input.Window()|
      {
        ghost var window := input.Window();
        whole := whole && HeadIsWhole(window);
        assert !HeadIsWhole(window) ==> Within(window) == [];
        var ok := ReadMessage(message, input);
        if !ok {
          assert ReadFrame(window).NoFrame? ==> Events(window) == [] && Within(window) == [];
          break;
        }
        var e := Dispatch(message);
        ConcatAssoc(events, [e], Events(input.Window()));
        ConcatAssoc(events, [e], Within(input.Window()));
        dispatched := dispatched + [e];
        events := events + [e];
        if e == Halt {
          running, halt := false, true;
        }
      }
      assert dispatched[|old(dispatched)|..] == events;
    }
  }

  /* ---------- well-formed frames ---------- */

  /** A delimited frame. */
  function Framed(body: bytes): bytes
  {
    EncodeVarint(|body|) + body
  }

  function AllFramed(bodies: seq<bytes>): bytes
  {
    if bodies == [] then [] else Framed(bodies[0]) + AllFramed(bodies[1..])
  }

  /** A body that parses completely into a message with all required fields. */
  predicate Readable(body: bytes)
  {
    && |body| < TWO_32
    && var m := Parse(Message, body);
       m.Some? && Initialized(Message, m.value)
  }

  /** The event of one frame parsed into a fresh object. */
  function BodyEvent(body: bytes): Event
  {
    var m := Parse(Message, body);
    if m.Some? then EventOf(m.value) else Halt
  }

  /** One event per frame, up to and including the first Halt; `after` is what follows the frames. */
  function Deliver(bodies: seq<bytes>, after: seq<Event>): seq<Event>
  {
    if bodies == [] then after
    else if BodyEvent(bodies[0]) == Halt then [Halt]
    else [BodyEvent(bodies[0])] + Deliver(bodies[1..], after)
  }

  lemma ReadOneFrame(body: bytes, tail: bytes)
    requires Readable(body)
    ensures ReadFrame(Framed(body) + tail) == Frame(Parse(Message, body).value, tail)
    ensures BodyEvent(body) == EventOf(Parse(Message, body).value)
  {
    hide Loop, Initialized, ParseWindow, EncodeVarint, ReadVarint64;
    ConcatAssoc(EncodeVarint(|body|), body, tail);
    VarintRoundTrip(|body|, body + tail);
    assert (body + tail)[..|body|] == body && (body + tail)[|body|..] == tail;
    WindowIsLoop(Message, EMPTY, body);
    assert [] + tail == tail;
  }

  /** The next frame is looked for where this one was announced to end exactly if its fields reach that far. */
  lemma InStepIff(body: bytes, tail: bytes)
    requires |body| < TWO_32 && ReadFrame(Framed(body) + tail).Frame?
    ensures ReadFrame(Framed(body) + tail).rest == tail <==> ScanRecords(body, SubMessageNumbers(Message)).rest == []
  {
    hide Loop, Initialized, AbsorbAll, ScanRecords, EncodeVarint, ReadVarint64;
    ConcatAssoc(EncodeVarint(|body|), body, tail);
    VarintRoundTrip(|body|, body + tail);
    assert (body + tail)[..|body|] == body && (body + tail)[|body|..] == tail;
    LoopIsScan(Message, EMPTY, body);
    var left := ScanRecords(body, SubMessageNumbers(Message)).rest;
    assert |left + tail| == |left| + |tail|;
    assert [] + tail == tail;
  }

  lemma ZeroStops(junk: bytes, lax: set<nat>)
    ensures ScanRecords([0] + junk, lax) == Scan([], ZeroTag, junk)
  {
    VarintRoundTrip(0, junk);
    assert EncodeVarint(0) == [0];
    ScanStops([0] + junk, lax);
  }

  /**
   A zero byte behind a field ends a frame before its announced end: what follows it in the frame is
   taken for the next frame.
   */
  lemma ZeroEndsFrame(body: bytes, junk: bytes, tail: bytes)
    requires Readable(body) && Complete(body) && |body| + 1 + |junk| < TWO_32
    ensures ReadFrame(Framed(body + ([0] + junk)) + tail) == Frame(Parse(Message, body).value, junk + tail)
  {
    hide Loop, Initialized, AbsorbAll, ScanRecords, EncodeVarint, ReadVarint64;
    var window := body + ([0] + junk);
    ConcatAssoc(EncodeVarint(|window|), window, tail);
    VarintRoundTrip(|window|, window + tail);
    assert (window + tail)[..|window|] == window && (window + tail)[|window|..] == tail;
    var lax := SubMessageNumbers(Message);
    CompleteScan(body, lax);
    ScanAppend(body, [0] + junk, lax);
    ZeroStops(junk, lax);
    LoopIsScan(Message, EMPTY, window);
    var recs := ScanRecords(body, {}).recs;
    assert recs + [] == recs;
  }

  /** A body that parses but lacks something required ends the reading. */
  lemma ReadUnready(body: bytes, tail: bytes)
    requires |body| < TWO_32 && Parse(Message, body).Some? && !Initialized(Message, Parse(Message, body).value)
    ensures ReadFrame(Framed(body) + tail).NoFrame?
  {
    hide Loop, Initialized, ParseWindow, EncodeVarint, ReadVarint64;
    ConcatAssoc(EncodeVarint(|body|), body, tail);
    VarintRoundTrip(|body|, body + tail);
    assert (body + tail)[..|body|] == body;
    WindowIsLoop(Message, EMPTY, body);
  }

  /**
   A stream of readable frames is delivered frame by frame, each as if parsed into a fresh
   object, up to the first CMD; nothing behind that CMD is looked at.
   */
  lemma {:induction false} FramesAreDelivered(bodies: seq<bytes>, tail: bytes)
    requires forall b | b in bodies :: Readable(b)
    ensures Events(AllFramed(bodies) + tail) == Deliver(bodies, Events(tail))
    decreases |bodies|
  {
    hide EventOf, ReadFrame, Readable, Parse, Framed, BodyEvent;
    if bodies == [] {
      assert AllFramed(bodies) + tail == tail;
    } else {
      var rest := AllFramed(bodies[1..]) + tail;
      ConcatAssoc(Framed(bodies[0]), AllFramed(bodies[1..]), tail);
      ReadOneFrame(bodies[0], rest);
      FramesAreDelivered(bodies[1..], tail);
    }
  }

  lemma FramedIsWhole(body: bytes, tail: bytes)
    requires Readable(body)
    ensures HeadIsWhole(Framed(body) + tail)
  {
    hide Parse, Initialized, EncodeVarint, ReadVarint64;
    ConcatAssoc(EncodeVarint(|body|), body, tail);
    VarintRoundTrip(|body|, body + tail);
  }

  /** The same for the frames that lie whole in a window. */
  lemma {:induction false} FramesAreWithin(bodies: seq<bytes>, tail: bytes)
    requires forall b | b in bodies :: Readable(b)
    ensures Within(AllFramed(bodies) + tail) == Deliver(bodies, Within(tail))
    decreases |bodies|
  {
    hide EventOf, ReadFrame, Readable, Parse, Framed, BodyEvent, HeadIsWhole;
    if bodies == [] {
      assert AllFramed(bodies) + tail == tail;
    } else {
      var rest := AllFramed(bodies[1..]) + tail;
      ConcatAssoc(Framed(bodies[0]), AllFramed(bodies[1..]), tail);
      ReadOneFrame(bodies[0], rest);
      FramedIsWhole(bodies[0], rest);
      FramesAreWithin(bodies[1..], tail);
    }
  }

  lemma {:induction false} DeliverFirst(bodies: seq<bytes>, after: seq<Event>)
    ensures Deliver(bodies, []) <= Deliver(bodies, after)
    ensures Halt in Deliver(bodies, []) ==> Deliver(bodies, after) == Deliver(bodies, [])
    decreases |bodies|
  {
    hide BodyEvent;
    if bodies != [] {
      DeliverFirst(bodies[1..], after);
    }
  }

  lemma NothingFollows()
    ensures Events([]) == []
  {
    assert ReadVarint32([]).Truncated?;
  }

  /**
   Whatever a stream holds, the frames that end within its first 64 MiB are dispatched like
   this; a CMD among them is the last event, and behind them nothing is dispatched when nothing
   follows.
   */
  lemma FramesBelowTheLimit(bodies: seq<bytes>, tail: bytes, events: seq<Event>)
    requires (forall b | b in bodies :: Readable(b)) && |AllFramed(bodies)| <= TOTAL_BYTES_LIMIT
    requires var data := AllFramed(bodies) + tail;
             Dispatched(data[..Min(|data|, TOTAL_BYTES_LIMIT)], events)
    ensures Deliver(bodies, []) <= events
    ensures Halt in Deliver(bodies, []) || tail == [] ==> events == Deliver(bodies, [])
  {
    hide Within, Events, Deliver, AllFramed, Readable;
    var data := AllFramed(bodies) + tail;
    var n := Min(|data|, TOTAL_BYTES_LIMIT);
    var seen := tail[..n - |AllFramed(bodies)|];
    assert data[..n] == AllFramed(bodies) + seen;
    FramesAreWithin(bodies, seen);
    FramesAreDelivered(bodies, seen);
    DeliverFirst(bodies, Within(seen));
    DeliverFirst(bodies, Events(seen));
    if tail == [] {
      NothingFollows();
    }
  }

  function Bodies(ms: seq<Msg>): seq<bytes>
  {
    seq(|ms|, j requires 0 <= j < |ms| => Serialize(Message, ms[j]))
  }

  /** The events of a list of messages, up to and including the first Halt. */
  function EventsOf(ms: seq<Msg>): seq<Event>
  {
    if ms == [] then []
    else if EventOf(ms[0]) == Halt then [Halt]
    else [EventOf(ms[0])] + EventsOf(ms[1..])
  }

  lemma {:induction false} SentIsReadable(ms: seq<Msg>)
    requires forall m | m in ms :: Normal(Message, m) && Fits(Message, m) && Initialized(Message, m)
    ensures forall b | b in Bodies(ms) :: Readable(b)
    ensures Deliver(Bodies(ms), []) == EventsOf(ms)
    decreases |ms|
  {
    hide EventOf, Normal, Serialize, Initialized, ParseWindow;
    if ms == [] {
      assert Bodies(ms) == [];
    } else {
      ReadBack(Message, ms[0]);
      SentIsReadable(ms[1..]);
      assert Bodies(ms) == [Serialize(Message, ms[0])] + Bodies(ms[1..]);
    }
  }

  /** What a client sends is what is dispatched, as far as it stays within the total limit. */
  lemma {:induction false} SentIsDispatched(ms: seq<Msg>, tail: bytes, events: seq<Event>)
    requires forall m | m in ms :: Normal(Message, m) && Fits(Message, m) && Initialized(Message, m)
    requires |AllFramed(Bodies(ms))| <= TOTAL_BYTES_LIMIT
    requires var data := AllFramed(Bodies(ms)) + tail;
             Dispatched(data[..Min(|data|, TOTAL_BYTES_LIMIT)], events)
    ensures EventsOf(ms) <= events
    ensures Halt in EventsOf(ms) || tail == [] ==> events == EventsOf(ms)
  {
    hide Within, Events, Deliver, AllFramed, Readable;
    SentIsReadable(ms);
    FramesBelowTheLimit(Bodies(ms), tail, events);
  }
}
