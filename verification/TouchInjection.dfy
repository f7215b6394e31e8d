/**
 touch_inject: a small machine with two globals that turns touch messages into input events,
 and what every stream it can emit looks like.
 */
module TouchInjection {
  import opened Wrappers
  import Schema
  import Messages
  import Receiver
  import opened TouchScaling

  const TOUCH_UP := 0
  const TOUCH_DOWN := 1
  const TOUCH_MOVE := 2

  datatype Axis = AxisX | AxisY | AxisPressure

  /** The input_event values written to the device. */
  datatype InputEvent =
    | TrackingId(id: int)             // EV_ABS, ABS_MT_TRACKING_ID
    | BtnTouch(down: bool)            // EV_KEY, BTN_TOUCH
    | Position(axis: Axis, value: int)
    | SynReport                       // EV_SYN, SYN_REPORT

  datatype TouchInfo = TouchInfo(xmin: int32, xmax: int32, ymin: int32, ymax: int32, multi: bool, altered: bool)

  datatype Input = Input(x: nat, y: nat, kind: nat, mirror: bool, flip: bool)

  const OWN_DEVICE := TouchInfo(-2047, 2048, -2047, 2048, false, false)

  /** The orientation choice of read_dev_info. */
  function Detected(xmin: int32, xmax: int32, ymin: int32, ymax: int32, multi: bool): TouchInfo
  {
    TouchInfo(xmin, xmax, ymin, ymax, multi, xmax - xmin > ymax - ymin)
  }

  function Clamp(v: nat): coordinate
  {
    if v > SPAN then SPAN else v
  }

  /** The screen coordinates of an input, cut to the screen and mirrored if asked for. */
  function Mirrored(i: Input): (coordinate, coordinate)
  {
    if i.mirror then (SPAN - Clamp(i.x), SPAN - Clamp(i.y)) else (Clamp(i.x), Clamp(i.y))
  }

  /** The device coordinates of an input. */
  function Scaled(info: TouchInfo, i: Input): (int32, int32)
  {
    var (x, y) := Mirrored(i);
    if info.altered || i.flip then (ScaleDown(y, info.xmin, info.xmax), ScaleUp(x, info.ymin, info.ymax))
    else (ScaleUp(x, info.xmin, info.xmax), ScaleUp(y, info.ymin, info.ymax))
  }

  /** Axes short enough for the 32-bit products, see ScaleUpExactIff and ScaleDownExactIff. */
  predicate Exact(info: TouchInfo, flip: bool)
  {
    && 0 <= info.xmax - info.xmin <= (if info.altered || flip then 32768 else 65537)
    && 0 <= info.ymax - info.ymin <= 65537
  }

  /** Ranges an int32 can hold. */
  predicate Ranges(info: TouchInfo)
  {
    0 <= info.xmax - info.xmin < TWO_31 && 0 <= info.ymax - info.ymin < TWO_31
  }

  predicate OnDevice(info: TouchInfo, at: (int32, int32))
  {
    info.xmin <= at.0 <= info.xmax && info.ymin <= at.1 <= info.ymax
  }

  /**
   A touch lands on the device whatever coordinates and mirroring a client asks for, also where the
   arithmetic is not exact; only the flipped axis must be a fitting one.
   */
  lemma ScaledOnDevice(info: TouchInfo, i: Input)
    requires Ranges(info) && (info.altered || i.flip ==> Fitting(info.xmax - info.xmin))
    ensures OnDevice(info, Scaled(info, i))
  {
    hide ScaleUp, ScaleDown;
    var (x, y) := Mirrored(i);
    if info.altered || i.flip {
      ScaleDownLands(y, info.xmin, info.xmax);
    }
    ScaleUpLands(x, info.ymin, info.ymax);
    ScaleUpLands(x, info.xmin, info.xmax);
    ScaleUpLands(y, info.ymin, info.ymax);
  }

  /** All touches land on the device if and only if its axis is not flipped or of a fitting length. */
  lemma AllLandIff(info: TouchInfo, flip: bool)
    requires Ranges(info)
    ensures (info.altered || flip ==> Fitting(info.xmax - info.xmin))
       <==> forall i: Input | i.flip == flip :: OnDevice(info, Scaled(info, i))
  {
    hide ScaleUp, ScaleDown;
    if info.altered || flip ==> Fitting(info.xmax - info.xmin) {
      forall i: Input | i.flip == flip
        ensures OnDevice(info, Scaled(info, i))
      {
        ScaledOnDevice(info, i);
      }
    } else {
      ScaleDownMisses(info.xmin, info.xmax);
      var i := Input(0, Misfit(info.xmax - info.xmin), TOUCH_MOVE, false, flip);
      assert !OnDevice(info, Scaled(info, i));
    }
  }

  /** On the own device every touch lands, flipped or not. */
  lemma OwnDeviceIsExact(i: Input)
    ensures var (xx, yy) := Scaled(OWN_DEVICE, i); -2047 <= xx <= 2048 && -2047 <= yy <= 2048
  {
    ScaledOnDevice(OWN_DEVICE, i);
  }

  /** The corners of the screen reach the corners of the device, turned a quarter when the axes are exchanged. */
  lemma CornersReachCorners(info: TouchInfo, i: Input)
    requires Exact(info, i.flip) && !i.mirror
    ensures info.altered || i.flip ==>
              && (i.x == 0 ==> Scaled(info, i).1 == info.ymin) && (i.x >= SPAN ==> Scaled(info, i).1 == info.ymax)
              && (i.y == 0 ==> Scaled(info, i).0 == info.xmax) && (i.y >= SPAN ==> Scaled(info, i).0 == info.xmin)
    ensures !info.altered && !i.flip ==>
              && (i.x == 0 ==> Scaled(info, i).0 == info.xmin) && (i.x >= SPAN ==> Scaled(info, i).0 == info.xmax)
              && (i.y == 0 ==> Scaled(info, i).1 == info.ymin) && (i.y >= SPAN ==> Scaled(info, i).1 == info.ymax)
  {
    if info.altered || i.flip {
      ScaleDownProperties(Clamp(i.y), Clamp(i.y), info.xmin, info.xmax);
    }
    ScaleUpProperties(Clamp(i.x), Clamp(i.x), info.ymin, info.ymax);
    ScaleUpProperties(Clamp(i.x), Clamp(i.x), info.xmin, info.xmax);
    ScaleUpProperties(Clamp(i.y), Clamp(i.y), info.ymin, info.ymax);
  }

  /** A mirrored touch lands at the point reflected on both axes, within one unit. */
  lemma MirroredIsReflected(info: TouchInfo, i: Input)
    requires Exact(info, i.flip) && !i.mirror
    ensures var at, mirrored := Scaled(info, i), Scaled(info, i.(mirror := true));
            && -1 <= info.xmin + info.xmax - at.0 - mirrored.0 <= 1
            && -1 <= info.ymin + info.ymax - at.1 - mirrored.1 <= 1
    ensures Scaled(info, i.(mirror := true))
         == Scaled(info, Input(if i.x < SPAN then SPAN - i.x else 0, if i.y < SPAN then SPAN - i.y else 0,
                               i.kind, false, i.flip))
  {
    hide ScaleUp, ScaleDown;
    var x, y := Clamp(i.x), Clamp(i.y);
    if info.altered || i.flip {
      ScaleDownProperties(y, y, info.xmin, info.xmax);
    }
    ScaleUpProperties(x, x, info.ymin, info.ymax);
    ScaleUpProperties(x, x, info.xmin, info.xmax);
    ScaleUpProperties(y, y, info.ymin, info.ymax);
  }

  /**
   The coordinates on a device as it was read: turned by a quarter if it is wider than high, upright
   if not, for every input that does not ask for a flip.
   */
  lemma DetectedTurns(xmin: int32, xmax: int32, ymin: int32, ymax: int32, multi: bool, i: Input)
    requires 0 <= xmax - xmin <= 32768 && 0 <= ymax - ymin <= 65537 && !i.flip
    ensures var (x, y) := Mirrored(i);
            var at := Scaled(Detected(xmin, xmax, ymin, ymax, multi), i);
            if xmax - xmin > ymax - ymin then
              at == (xmax - Offset(y, xmax - xmin), ymin + Offset(x, ymax - ymin))
            else
              at == (xmin + Offset(x, xmax - xmin), ymin + Offset(y, ymax - ymin))
  {
    hide ScaleUp, ScaleDown, Offset;
    var (x, y) := Mirrored(i);
    ScaleDownExact(y, xmin, xmax);
    ScaleUpExact(x, xmin, xmax);
    ScaleUpExact(x, ymin, ymax);
    ScaleUpExact(y, ymin, ymax);
  }

  /* ---------- reports ---------- */

  /** One input report. */
  datatype Report = Up | Down(id: int, at: (int32, int32)) | Move(at: (int32, int32))

  function Coordinates(multi: bool, at: (int32, int32)): seq<InputEvent>
  {
    [Position(AxisX, at.0), Position(AxisY, at.1)] + if multi then [Position(AxisPressure, 100)] else []
  }

  function Render(multi: bool, r: Report): seq<InputEvent>
  {
    match r
    case Up => (if multi then [TrackingId(-1)] else []) + [BtnTouch(false), SynReport]
    case Down(id, at) =>
      (if multi then [TrackingId(id)] else []) + [BtnTouch(true)] + Coordinates(multi, at) + [SynReport]
    case Move(at) => Coordinates(multi, at) + [SynReport]
  }

  function RenderAll(multi: bool, rs: seq<Report>): seq<InputEvent>
  {
    if rs == [] then [] else RenderAll(multi, rs[..|rs| - 1]) + Render(multi, rs[|rs| - 1])
  }

  datatype State = State(released: bool, tid: int, reports: seq<Report>)

  const START := State(true, 0, [])

  /** One call without the guard against a double DOWN. */
  function ReportOne(info: TouchInfo, s: State, i: Input): State
  {
    if i.kind == TOUCH_UP then State(true, s.tid, s.reports + [Up])
    else if i.kind == TOUCH_DOWN then
      State(false, if info.multi then s.tid + 1 else s.tid, s.reports + [Down(s.tid, Scaled(info, i))])
    else s.(reports := s.reports + [Move(Scaled(info, i))])
  }

  /** touch_inject: a DOWN while the previous one is still held is preceded by an UP. */
  function Step(info: TouchInfo, s: State, i: Input): State
  {
    if i.kind == TOUCH_DOWN && !s.released then
      ReportOne(info, ReportOne(info, s, i.(kind := TOUCH_UP)), i)
    else ReportOne(info, s, i)
  }

  function Run(info: TouchInfo, s: State, inputs: seq<Input>): State
    decreases |inputs|
  {
    if inputs == [] then s else Run(info, Step(info, s, inputs[0]), inputs[1..])
  }

  /* ---------- the code ---------- */

  function TouchNumber(m: Messages.Msg, n: nat): nat
  {
    Receiver.NumberOr(Schema.Touch, m, n)
  }

  /** The accessors of a Touch message, with their defaults. */
  function InputOf(m: Messages.Msg): Input
  {
    Input(TouchNumber(m, 2), TouchNumber(m, 3), TouchNumber(m, 1), TouchNumber(m, 4) != 0, TouchNumber(m, 5) != 0)
  }

  function Inputs(touches: seq<Messages.Msg>): seq<Input>
  {
    seq(|touches|, j requires 0 <= j < |touches| => InputOf(touches[j]))
  }

  class TouchInjector {
    const info: TouchInfo
    var touchReleased: bool
    var tid: int
    var events: seq<InputEvent>          // what write_event has written
    ghost var reports: seq<Report>

    ghost predicate Valid()
      reads this
    {
      events == RenderAll(info.multi, reports)
    }

    ghost function Abs(): State
      reads this
    {
      State(touchReleased, tid, reports)
    }

    constructor (info: TouchInfo)
      ensures Valid() && this.info == info && Abs() == START && events == []
    {
      this.info := info;
      touchReleased, tid, events, reports := true, 0, [], [];
    }

    method WriteEvent(e: InputEvent)
      modifies this`events
      ensures events == old(events) + [e]
    {
      events := events + [e];
    }

    /** The arithmetic between the two guards and the writes. */
    method Place(x: nat, y: nat, mirror: bool, flip: bool, ghost kind: nat) returns (xx: int32, yy: int32)
      ensures (xx, yy) == Scaled(info, Input(x, y, kind, mirror, flip))
    {
      hide ScaleUp, ScaleDown;
      var xc: coordinate := if x > SPAN then SPAN else x;
      var yc: coordinate := if y > SPAN then SPAN else y;
      if mirror {
        xc, yc := SPAN - xc, SPAN - yc;
      }
      if info.altered || flip {
        yy := ScaleUp(xc, info.ymin, info.ymax);
        xx := ScaleDown(yc, info.xmin, info.xmax);
      } else {
        xx := ScaleUp(xc, info.xmin, info.xmax);
        yy := ScaleUp(yc, info.ymin, info.ymax);
      }
    }

    /** The writes of an UP. */
    method WriteUp()
      requires Valid()
      modifies this`events, this`reports
      ensures Valid() && reports == old(reports) + [Up]
    {
      hide RenderAll;
      ghost var before := events;
      if info.multi {
        WriteEvent(TrackingId(-1));
      }
      WriteEvent(BtnTouch(false));
      WriteEvent(SynReport);
      assert events == before + Render(info.multi, Up);
      Emitted(before, Up);
    }

    /** The writes of a position and the end of the report. */
    method WritePosition(xx: int32, yy: int32)
      modifies this`events
      ensures events == old(events) + (Coordinates(info.multi, (xx, yy)) + [SynReport])
    {
      WriteEvent(Position(AxisX, xx));
      WriteEvent(Position(AxisY, yy));
      if info.multi {
        WriteEvent(Position(AxisPressure, 100));
      }
      WriteEvent(SynReport);
    }

    /** The writes of a DOWN, or of anything else that is not an UP. */
    method WriteTouch(kind: nat, xx: int32, yy: int32)
      requires Valid()
      modifies this`events, this`reports, this`tid
      ensures Valid()
      ensures tid == old(tid) + if kind == TOUCH_DOWN && info.multi then 1 else 0
      ensures reports == old(reports) + [if kind == TOUCH_DOWN then Down(old(tid), (xx, yy)) else Move((xx, yy))]
    {
      hide RenderAll, Coordinates;
      ghost var before := events;
      ghost var report := if kind == TOUCH_DOWN then Down(tid, (xx, yy)) else Move((xx, yy));
      if kind == TOUCH_DOWN {
        if info.multi {
          WriteEvent(TrackingId(tid));
          tid := tid + 1;
        }
        WriteEvent(BtnTouch(true));
      }
      WritePosition(xx, yy);
      assert events == before + Render(info.multi, report);
      Emitted(before, report);
    }

    method TouchInject(x: nat, y: nat, kind: nat, mirror: bool, flip: bool)
      requires Valid()
      modifies this
      ensures Valid()
      ensures Abs() == Step(info, old(Abs()), Input(x, y, kind, mirror, flip))
      decreases kind == TOUCH_DOWN && !touchReleased
    {
      hide RenderAll, Render, Coordinates, Scaled;
      if kind == TOUCH_DOWN && !touchReleased {
        TouchInject(x, y, TOUCH_UP, mirror, flip);
      }
      if kind == TOUCH_UP {
        touchReleased := true;
      }
      if kind == TOUCH_DOWN {
        touchReleased := false;
      }
      var xx, yy := Place(x, y, mirror, flip, kind);
      if kind == TOUCH_UP {
        WriteUp();
        return;
      }
      WriteTouch(kind, xx, yy);
    }

    /** Records that the events since `before` are one report. */
    ghost method Emitted(before: seq<InputEvent>, r: Report)
      requires before == RenderAll(info.multi, reports) && events == before + Render(info.multi, r)
      modifies this`reports
      ensures Valid() && reports == old(reports) + [r]
    {
      reports := reports + [r];
      assert reports[..|reports| - 1] == old(reports);
    }

    /** touches_inject: the touches of one message, in order. */
    method TouchesInject(touches: seq<Messages.Msg>)
      requires Valid()
      modifies this
      ensures Valid() && Abs() == Run(info, old(Abs()), Inputs(touches))
    {
      var i := 0;
      ghost var start := Abs();
      while i < |touches|
        invariant 0 <= i <= |touches|
        invariant Valid() && Run(info, Abs(), Inputs(touches)[i..]) == Run(info, start, Inputs(touches))
      {
        var input := InputOf(touches[i]);
        assert Inputs(touches)[i..][1..] == Inputs(touches)[i + 1..];
        TouchInject(input.x, input.y, input.kind, input.mirror, input.flip);
        i := i + 1;
      }
    }
  }

  /* ---------- every stream it emits ---------- */

  /** The BTN_TOUCH values of a stream, in order. */
  function Buttons(es: seq<InputEvent>): seq<bool>
  {
    if es == [] then []
    else
      var last := es[|es| - 1];
      Buttons(es[..|es| - 1]) + if last.BtnTouch? then [last.down] else []
  }

  /** The tracking ids given to new contacts. */
  function ContactIds(es: seq<InputEvent>): seq<int>
  {
    if es == [] then []
    else
      var last := es[|es| - 1];
      ContactIds(es[..|es| - 1]) + if last.TrackingId? && last.id != -1 then [last.id] else []
  }

  /** Complete reports only: nothing before the first, nothing after the last SYN_REPORT, none empty. */
  predicate ClosedReports(es: seq<InputEvent>)
  {
    && (es != [] ==> es[0] != SynReport && es[|es| - 1] == SynReport)
    && forall k :: 0 <= k < |es| - 1 ==> !(es[k] == SynReport && es[k + 1] == SynReport)
  }

  predicate NoDoubleDown(bs: seq<bool>)
  {
    forall k :: 0 <= k < |bs| - 1 ==> !(bs[k] && bs[k + 1])
  }

  lemma {:induction false} ButtonsAppend(a: seq<InputEvent>, b: seq<InputEvent>)
    ensures Buttons(a + b) == Buttons(a) + Buttons(b)
    ensures ContactIds(a + b) == ContactIds(a) + ContactIds(b)
    decreases |b|
  {
    if b == [] {
      assert a + b == a;
    } else {
      assert (a + b)[..|a + b| - 1] == a + b[..|b| - 1];
      ButtonsAppend(a, b[..|b| - 1]);
    }
  }

  function ReportButtons(r: Report): seq<bool>
  {
    match r
    case Up => [false]
    case Down(_, _) => [true]
    case Move(_) => []
  }

  lemma EventButtons(e: InputEvent)
    ensures Buttons([e]) == if e.BtnTouch? then [e.down] else []
    ensures ContactIds([e]) == if e.TrackingId? && e.id != -1 then [e.id] else []
  {
    assert [e][..0] == [];
  }

  lemma CoordinateButtons(multi: bool, at: (int32, int32))
    ensures Buttons(Coordinates(multi, at)) == [] && ContactIds(Coordinates(multi, at)) == []
  {
    hide Buttons, ContactIds;
    var x, y, p := Position(AxisX, at.0), Position(AxisY, at.1), Position(AxisPressure, 100);
    EventButtons(x);
    EventButtons(y);
    EventButtons(p);
    ButtonsAppend([x], [y]);
    assert [x] + [y] == [x, y];
    ButtonsAppend([x, y], [p]);
    assert Coordinates(multi, at) == if multi then [x, y] + [p] else [x, y];
  }

  lemma NoButtons()
    ensures Buttons([]) == [] && ContactIds([]) == []
  {
  }

  lemma UpButtons(multi: bool)
    ensures Buttons(Render(multi, Up)) == [false] && ContactIds(Render(multi, Up)) == []
  {
    hide Buttons, ContactIds;
    var head := if multi then [TrackingId(-1)] else [];
    EventButtons(SynReport);
    EventButtons(TrackingId(-1));
    EventButtons(BtnTouch(false));
    NoButtons();
    ButtonsAppend([BtnTouch(false)], [SynReport]);
    assert [BtnTouch(false)] + [SynReport] == [BtnTouch(false), SynReport];
    ButtonsAppend(head, [BtnTouch(false), SynReport]);
  }

  lemma DownButtons(multi: bool, id: nat, at: (int32, int32))
    ensures Buttons(Render(multi, Down(id, at))) == [true]
    ensures ContactIds(Render(multi, Down(id, at))) == if multi then [id] else []
  {
    hide Buttons, ContactIds, Coordinates;
    var head := if multi then [TrackingId(id)] else [];
    EventButtons(SynReport);
    EventButtons(TrackingId(id));
    EventButtons(BtnTouch(true));
    NoButtons();
    CoordinateButtons(multi, at);
    ButtonsAppend(head, [BtnTouch(true)]);
    ButtonsAppend(head + [BtnTouch(true)], Coordinates(multi, at));
    ButtonsAppend(head + [BtnTouch(true)] + Coordinates(multi, at), [SynReport]);
  }

  lemma RenderButtons(multi: bool, r: Report)
    requires r.Down? ==> r.id >= 0
    ensures Buttons(Render(multi, r)) == ReportButtons(r)
    ensures ContactIds(Render(multi, r)) == if multi && r.Down? then [r.id] else []
  {
    hide Buttons, ContactIds, Coordinates;
    match r
    case Up => UpButtons(multi);
    case Down(id, at) => DownButtons(multi, id, at);
    case Move(at) =>
      EventButtons(SynReport);
      CoordinateButtons(multi, at);
      ButtonsAppend(Coordinates(multi, at), [SynReport]);
  }

  lemma RenderClosed(multi: bool, r: Report)
    ensures var es := Render(multi, r);
            && |es| >= 2 && es[|es| - 1] == SynReport && forall k :: 0 <= k < |es| - 1 ==> es[k] != SynReport
  {
  }

  /** The invariant of every run. */
  predicate Good(info: TouchInfo, s: State)
  {
    var es := RenderAll(info.multi, s.reports);
    var bs := Buttons(es);
    && ClosedReports(es)
    && NoDoubleDown(bs)
    && (s.released <==> bs == [] || !bs[|bs| - 1])
    && s.tid >= 0
    && ContactIds(es) == (if info.multi then seq(s.tid, k => k) else [])
  }

  lemma RenderSnoc(multi: bool, rs: seq<Report>, r: Report)
    ensures RenderAll(multi, rs + [r]) == RenderAll(multi, rs) + Render(multi, r)
  {
    assert (rs + [r])[..|rs + [r]| - 1] == rs;
  }

  lemma ClosedAppend(a: seq<InputEvent>, multi: bool, r: Report)
    requires ClosedReports(a)
    ensures ClosedReports(a + Render(multi, r))
  {
    hide Render;
    RenderClosed(multi, r);
    var es := Render(multi, r);
    forall k | 0 <= k < |a + es| - 1
      ensures !((a + es)[k] == SynReport && (a + es)[k + 1] == SynReport)
    {
      if k >= |a| {
        assert (a + es)[k] == es[k - |a|] && (a + es)[k + 1] == es[k + 1 - |a|];
      } else if k < |a| - 1 {
        assert (a + es)[k] == a[k] && (a + es)[k + 1] == a[k + 1];
      }
    }
  }

  lemma ReportOneKeepsGood(info: TouchInfo, s: State, i: Input)
    requires Good(info, s) && (i.kind == TOUCH_DOWN ==> s.released)
    ensures Good(info, ReportOne(info, s, i))
  {
    hide Render, RenderAll, Buttons, ContactIds, Scaled, ClosedReports;
    var s' := ReportOne(info, s, i);
    var r := s'.reports[|s'.reports| - 1];
    var es := RenderAll(info.multi, s.reports);
    RenderSnoc(info.multi, s.reports, r);
    RenderButtons(info.multi, r);
    ClosedAppend(es, info.multi, r);
    ButtonsAppend(es, Render(info.multi, r));
    assert info.multi && r.Down? ==> seq(s.tid + 1, k => k) == seq(s.tid, k => k) + [s.tid];
  }

  lemma StepKeepsGood(info: TouchInfo, s: State, i: Input)
    requires Good(info, s)
    ensures Good(info, Step(info, s, i))
  {
    hide Good;
    if i.kind == TOUCH_DOWN && !s.released {
      ReportOneKeepsGood(info, s, i.(kind := TOUCH_UP));
      ReportOneKeepsGood(info, ReportOne(info, s, i.(kind := TOUCH_UP)), i);
    } else {
      ReportOneKeepsGood(info, s, i);
    }
  }

  lemma StartGood(info: TouchInfo)
    ensures Good(info, START)
  {
  }

  lemma {:induction false} RunKeepsGood(info: TouchInfo, s: State, inputs: seq<Input>)
    requires Good(info, s)
    ensures Good(info, Run(info, s, inputs))
    decreases |inputs|
  {
    hide Good, Step;
    if inputs != [] {
      StepKeepsGood(info, s, inputs[0]);
      RunKeepsGood(info, Step(info, s, inputs[0]), inputs[1..]);
    }
  }

  /**
   For every sequence of inputs: the stream splits into non-empty reports each closed by one
   SYN_REPORT; between two presses there is a release; touch_released tells whether the last
   BTN_TOUCH was a release; tracking ids are 0, 1, 2, ...
   */
  lemma EveryStream(info: TouchInfo, inputs: seq<Input>)
    ensures var s := Run(info, START, inputs);
            var es := RenderAll(info.multi, s.reports);
            var bs := Buttons(es);
            && ClosedReports(es)
            && NoDoubleDown(bs)
            && (s.released <==> bs == [] || !bs[|bs| - 1])
            && s.tid >= 0
            && ContactIds(es) == (if info.multi then seq(s.tid, k => k) else [])
  {
    hide Run, Buttons, ContactIds, RenderAll, ClosedReports, NoDoubleDown;
    StartGood(info);
    RunKeepsGood(info, START, inputs);
  }

  /* ---------- what each input writes besides positions ---------- */

  /** The events of a stream that are not positions. */
  function Signals(es: seq<InputEvent>): seq<InputEvent>
  {
    if es == [] then []
    else
      var last := es[|es| - 1];
      Signals(es[..|es| - 1]) + if last.Position? then [] else [last]
  }

  /** An UP: the contact's end on a multi-touch device, the release, the end of the report. */
  function LiftSignals(multi: bool): seq<InputEvent>
  {
    if multi then [TrackingId(-1), BtnTouch(false), SynReport] else [BtnTouch(false), SynReport]
  }

  /** What the inputs write: 0 an UP, 1 a DOWN, behind an UP if the last DOWN is still held, else a report alone. */
  function SignalsOf(multi: bool, inputs: seq<Input>, released: bool, tid: int): seq<InputEvent>
    decreases |inputs|
  {
    if inputs == [] then []
    else if inputs[0].kind == 0 then LiftSignals(multi) + SignalsOf(multi, inputs[1..], true, tid)
    else if inputs[0].kind == 1 then
      (if released then [] else LiftSignals(multi))
      + (if multi then [TrackingId(tid), BtnTouch(true), SynReport] else [BtnTouch(true), SynReport])
      + SignalsOf(multi, inputs[1..], false, if multi then tid + 1 else tid)
    else [SynReport] + SignalsOf(multi, inputs[1..], released, tid)
  }

  lemma {:induction false} SignalsAppend(a: seq<InputEvent>, b: seq<InputEvent>)
    ensures Signals(a + b) == Signals(a) + Signals(b)
    decreases |b|
  {
    if b == [] {
      assert a + b == a;
    } else {
      assert (a + b)[..|a + b| - 1] == a + b[..|b| - 1];
      SignalsAppend(a, b[..|b| - 1]);
    }
  }

  lemma {:induction false} OnlySignals(es: seq<InputEvent>)
    requires forall e <- es :: !e.Position?
    ensures Signals(es) == es
    decreases |es|
  {
    if es != [] {
      OnlySignals(es[..|es| - 1]);
      assert es == es[..|es| - 1] + [es[|es| - 1]];
    }
  }

  lemma {:induction false} NoSignals(es: seq<InputEvent>)
    requires forall e <- es :: e.Position?
    ensures Signals(es) == []
    decreases |es|
  {
    if es != [] {
      NoSignals(es[..|es| - 1]);
    }
  }

  function ReportSignals(multi: bool, r: Report): seq<InputEvent>
  {
    match r
    case Up => LiftSignals(multi)
    case Down(id, _) => if multi then [TrackingId(id), BtnTouch(true), SynReport] else [BtnTouch(true), SynReport]
    case Move(_) => [SynReport]
  }

  lemma CoordinatesOnly(multi: bool, at: (int32, int32))
    ensures forall e <- Coordinates(multi, at) :: e.Position?
  {
  }

  lemma RenderSignals(multi: bool, r: Report)
    ensures Signals(Render(multi, r)) == ReportSignals(multi, r)
  {
    hide Signals, Coordinates;
    OnlySignals([SynReport]);
    match r
    case Up =>
      OnlySignals(Render(multi, r));
    case Down(id, at) =>
      var head := (if multi then [TrackingId(id)] else []) + [BtnTouch(true)];
      OnlySignals(head);
      CoordinatesOnly(multi, at);
      NoSignals(Coordinates(multi, at));
      SignalsAppend(head, Coordinates(multi, at));
      SignalsAppend(head + Coordinates(multi, at), [SynReport]);
    case Move(at) =>
      CoordinatesOnly(multi, at);
      NoSignals(Coordinates(multi, at));
      SignalsAppend(Coordinates(multi, at), [SynReport]);
  }

  function SignalsSoFar(info: TouchInfo, s: State): seq<InputEvent>
  {
    Signals(RenderAll(info.multi, s.reports))
  }

  lemma ReportOneSignals(info: TouchInfo, s: State, i: Input)
    ensures var t := ReportOne(info, s, i);
            && t.reports != []
            && SignalsSoFar(info, t) == SignalsSoFar(info, s) + ReportSignals(info.multi, t.reports[|t.reports| - 1])
  {
    hide Signals, Render, RenderAll, Scaled, ReportSignals;
    var t := ReportOne(info, s, i);
    var r := t.reports[|t.reports| - 1];
    RenderSnoc(info.multi, s.reports, r);
    RenderSignals(info.multi, r);
    SignalsAppend(RenderAll(info.multi, s.reports), Render(info.multi, r));
  }

  lemma StepSignals(info: TouchInfo, s: State, i: Input)
    ensures SignalsSoFar(info, Step(info, s, i)) == SignalsSoFar(info, s) + SignalsOf(info.multi, [i], s.released, s.tid)
    ensures Step(info, s, i).released == (if i.kind == 0 then true else if i.kind == 1 then false else s.released)
    ensures Step(info, s, i).tid == if i.kind == 1 && info.multi then s.tid + 1 else s.tid
  {
    hide SignalsSoFar, Scaled;
    assert [i][1..] == [] && SignalsOf(info.multi, [], true, s.tid) == [];
    if i.kind == TOUCH_DOWN && !s.released {
      var lifted := ReportOne(info, s, i.(kind := TOUCH_UP));
      ReportOneSignals(info, s, i.(kind := TOUCH_UP));
      ReportOneSignals(info, lifted, i);
    } else {
      ReportOneSignals(info, s, i);
    }
  }

  lemma SignalsFirst(multi: bool, inputs: seq<Input>, released: bool, tid: int)
    requires inputs != []
    ensures var i := inputs[0];
            SignalsOf(multi, inputs, released, tid)
              == SignalsOf(multi, [i], released, tid)
                 + SignalsOf(multi, inputs[1..], if i.kind == 0 then true else if i.kind == 1 then false else released,
                             if i.kind == 1 && multi then tid + 1 else tid)
  {
    assert [inputs[0]][1..] == [];
  }

  lemma NothingSignalled(multi: bool, released: bool, tid: int)
    ensures SignalsOf(multi, [], released, tid) == []
  {
  }

  /**
   Each input writes its own report and no other, a DOWN while another is held an UP before it: these
   are the presses, releases, contact ids and ends of reports of every run.
   */
  lemma {:induction false} EveryInputReports(info: TouchInfo, s: State, inputs: seq<Input>)
    ensures SignalsSoFar(info, Run(info, s, inputs))
         == SignalsSoFar(info, s) + SignalsOf(info.multi, inputs, s.released, s.tid)
    decreases |inputs|
  {
    hide SignalsSoFar, Step, SignalsOf;
    if inputs == [] {
      assert SignalsOf(info.multi, [], s.released, s.tid) == [] by {
        NothingSignalled(info.multi, s.released, s.tid);
      }
      assert SignalsSoFar(info, s) + [] == SignalsSoFar(info, s);
    } else {
      StepSignals(info, s, inputs[0]);
      SignalsFirst(info.multi, inputs, s.released, s.tid);
      EveryInputReports(info, Step(info, s, inputs[0]), inputs[1..]);
    }
  }

  /* ---------- where the touches land ---------- */

  /** The values written for one axis, in order. */
  function Values(es: seq<InputEvent>, axis: Axis): seq<int>
  {
    if es == [] then []
    else
      var last := es[|es| - 1];
      Values(es[..|es| - 1], axis) + if last.Position? && last.axis == axis then [last.value] else []
  }

  lemma {:induction false} ValuesAppend(a: seq<InputEvent>, b: seq<InputEvent>, axis: Axis)
    ensures Values(a + b, axis) == Values(a, axis) + Values(b, axis)
    decreases |b|
  {
    if b == [] {
      assert a + b == a;
    } else {
      assert (a + b)[..|a + b| - 1] == a + b[..|b| - 1];
      ValuesAppend(a, b[..|b| - 1], axis);
    }
  }

  lemma ValuesOne(e: InputEvent, axis: Axis)
    ensures Values([e], axis) == if e.Position? && e.axis == axis then [e.value] else []
  {
    assert [e][..0] == [];
  }

  lemma ValuesNoPosition(es: seq<InputEvent>, axis: Axis)
    requires forall e <- es :: !e.Position?
    ensures Values(es, axis) == []
  {
  }

  /** What a position writes for an axis; a multi-touch device gets a fixed pressure. */
  function Coordinate(multi: bool, at: (int32, int32), axis: Axis): seq<int>
  {
    if axis == AxisX then [at.0] else if axis == AxisY then [at.1] else if multi then [100] else []
  }

  lemma CoordinateValues(multi: bool, at: (int32, int32), axis: Axis)
    ensures Values(Coordinates(multi, at), axis) == Coordinate(multi, at, axis)
  {
    hide Values;
    var x, y, p := Position(AxisX, at.0), Position(AxisY, at.1), Position(AxisPressure, 100);
    ValuesOne(x, axis);
    ValuesOne(y, axis);
    ValuesOne(p, axis);
    ValuesAppend([x], [y], axis);
    assert [x] + [y] == [x, y];
    ValuesAppend([x, y], [p], axis);
    assert Coordinates(multi, at) == if multi then [x, y] + [p] else [x, y];
  }

  lemma RenderValues(multi: bool, r: Report, axis: Axis)
    ensures Values(Render(multi, r), axis) == if r.Up? then [] else Coordinate(multi, r.at, axis)
  {
    hide Values, Coordinates, Coordinate;
    ValuesNoPosition([SynReport], axis);
    match r
    case Up => ValuesNoPosition(Render(multi, r), axis);
    case Down(id, at) =>
      var head := (if multi then [TrackingId(id)] else []) + [BtnTouch(true)];
      ValuesNoPosition(head, axis);
      CoordinateValues(multi, at, axis);
      ValuesAppend(head, Coordinates(multi, at), axis);
      ValuesAppend(head + Coordinates(multi, at), [SynReport], axis);
    case Move(at) =>
      CoordinateValues(multi, at, axis);
      ValuesAppend(Coordinates(multi, at), [SynReport], axis);
  }

  /** The coordinates of the DOWN and MOVE inputs on one axis. */
  function Landings(info: TouchInfo, inputs: seq<Input>, axis: Axis): seq<int>
    decreases |inputs|
  {
    if inputs == [] then []
    else
      (if inputs[0].kind == TOUCH_UP then [] else Coordinate(info.multi, Scaled(info, inputs[0]), axis))
      + Landings(info, inputs[1..], axis)
  }

  function AxisOf(info: TouchInfo, s: State, axis: Axis): seq<int>
  {
    Values(RenderAll(info.multi, s.reports), axis)
  }

  lemma ReportOneLands(info: TouchInfo, s: State, i: Input, axis: Axis)
    ensures AxisOf(info, ReportOne(info, s, i), axis)
         == AxisOf(info, s, axis) + if i.kind == TOUCH_UP then [] else Coordinate(info.multi, Scaled(info, i), axis)
  {
    hide Values, Render, RenderAll, Scaled, Coordinate;
    var s' := ReportOne(info, s, i);
    var r := s'.reports[|s'.reports| - 1];
    RenderSnoc(info.multi, s.reports, r);
    RenderValues(info.multi, r, axis);
    ValuesAppend(RenderAll(info.multi, s.reports), Render(info.multi, r), axis);
  }

  lemma StepLands(info: TouchInfo, s: State, i: Input, axis: Axis)
    ensures AxisOf(info, Step(info, s, i), axis)
         == AxisOf(info, s, axis) + if i.kind == TOUCH_UP then [] else Coordinate(info.multi, Scaled(info, i), axis)
  {
    hide AxisOf, ReportOne, Scaled, Coordinate;
    if i.kind == TOUCH_DOWN && !s.released {
      ReportOneLands(info, s, i.(kind := TOUCH_UP), axis);
      ReportOneLands(info, ReportOne(info, s, i.(kind := TOUCH_UP)), i, axis);
    } else {
      ReportOneLands(info, s, i, axis);
    }
  }

  /**
   Every DOWN and MOVE is written once, at its own device coordinates and in input order;
   the UP that the guard inserts adds no position.
   */
  lemma {:induction false} EveryTouchLands(info: TouchInfo, s: State, inputs: seq<Input>, axis: Axis)
    ensures AxisOf(info, Run(info, s, inputs), axis) == AxisOf(info, s, axis) + Landings(info, inputs, axis)
    decreases |inputs|
  {
    hide AxisOf, Step, Scaled, Coordinate;
    if inputs != [] {
      StepLands(info, s, inputs[0], axis);
      EveryTouchLands(info, Step(info, s, inputs[0]), inputs[1..], axis);
    }
  }
}
