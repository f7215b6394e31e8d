/**
 The frame stream: the settings a client may change at any time, the capture loop with its
 cache of sampled words, and the frames it sends.
 */
module ScreenCapture {
  import Messages
  import Receiver
  import Schema

  /** Every OFFSET-th word of a frame is compared. */
  const OFFSET := 25

  const WORD := 4

  // Screen::Type
  const RESOLUTION := 1
  const FREQUENCY := 2

  /** What one screenshot gives; Blank is a screenshot without pixels. */
  datatype Shot = Failed | Blank | Pixels(words: seq<int>)

  /** The fields of screen_info that a client's requests change. */
  datatype Screen = Screen(width: nat, height: nat, frequency: nat,
                           updatedResolution: bool, updatedFrequency: bool, checkDiff: bool)

  /** The local variables of the capture loop, and the frames it has sent with their frequency. */
  datatype Capture = Capture(width: nat, height: nat, sendFrequency: nat, lastpic: seq<int>, changed: bool,
                             running: bool, sent: seq<(seq<int>, nat)>)

  datatype State = State(screen: Screen, capture: Capture)

  datatype Device = Device(width: nat, height: nat, bytesPerPixel: nat)
  {
    predicate Landscape()
    {
      width > height
    }
  }

  function SampleCount(width: nat, height: nat, bytesPerPixel: nat): nat
  {
    width * height * bytesPerPixel / WORD / OFFSET
  }

  /** The sampled words of a frame. */
  function Samples(words: seq<int>, n: nat): (r: seq<int>)
    ensures |r| == n
  {
    seq(n, i => if 0 <= i * OFFSET < |words| then words[i * OFFSET] else 0)
  }

  /** A frame holds height rows of stride >= width pixels. */
  ghost predicate FrameOf(words: seq<int>, width: nat, height: nat, bytesPerPixel: nat)
  {
    exists stride: nat | width <= stride :: |words| == stride * height * bytesPerPixel / WORD
  }

  lemma ProductMonotone(width: nat, stride: nat, height: nat, bytesPerPixel: nat)
    requires width <= stride
    ensures width * height * bytesPerPixel <= stride * height * bytesPerPixel
  {
    assert width * height <= stride * height;
  }

  /** Every sampled index lies inside the frame. */
  lemma SampleInFrame(words: seq<int>, width: nat, height: nat, bytesPerPixel: nat, i: nat)
    requires FrameOf(words, width, height, bytesPerPixel) && i < SampleCount(width, height, bytesPerPixel)
    ensures i * OFFSET < |words|
  {
    var stride: nat :| width <= stride && |words| == stride * height * bytesPerPixel / WORD;
    ProductMonotone(width, stride, height, bytesPerPixel);
    var used := width * height * bytesPerPixel / WORD;
    assert used <= |words|;
    assert (i + 1) * OFFSET <= used;
  }

  /** Below the last sample every OFFSET consecutive words hold one, and less than OFFSET words are left. */
  lemma SamplesAreDense(width: nat, height: nat, bytesPerPixel: nat, j: nat) returns (i: nat)
    ensures var n, used := SampleCount(width, height, bytesPerPixel), width * height * bytesPerPixel / WORD;
            && n * OFFSET <= used < n * OFFSET + OFFSET
            && (j + OFFSET <= n * OFFSET ==> i < n && j <= i * OFFSET < j + OFFSET)
  {
    i := (j + OFFSET - 1) / OFFSET;
  }

  /* ---------- one step of the whole system ---------- */

  datatype Event =
    | Shoot(shot: Shot, writable: bool, garbage: seq<int>) // one iteration of the loop
    | Resolution(width: nat, height: nat)
    | Frequency(frequency: nat)
    | ImageDiff(diff: bool)
    | Stop
    | Start

  /** set_resolution: the request is stored in the orientation of the device, when it is narrow enough. */
  function StoreResolution(device: Device, s: Screen, width: nat, height: nat): Screen
  {
    if width == 0 || height == 0 then s
    else if (width > height) == device.Landscape() then
      if width <= device.width then s.(width := width, height := height, updatedResolution := true)
      else s.(updatedResolution := true)
    else if height <= device.width then s.(width := height, height := width, updatedResolution := true)
    else s.(updatedResolution := true)
  }

  /** n words of memory nobody has written. */
  function Uninitialized(garbage: seq<int>, n: nat): (r: seq<int>)
    ensures |r| == n
  {
    seq(n, i => if 0 <= i < |garbage| then garbage[i] else 0)
  }

  /** The part of an iteration under the lock; garbage is what a new cache happens to hold. */
  function Refresh(device: Device, s: State, garbage: seq<int>): State
  {
    var c, v := s.capture, s.screen;
    var c1 := if v.updatedResolution then
                c.(width := v.width, height := v.height,
                   lastpic := Uninitialized(garbage, SampleCount(v.width, v.height, device.bytesPerPixel)))
              else c;
    var c2 := if v.updatedFrequency then c1.(sendFrequency := v.frequency) else c1;
    State(v.(updatedResolution := false, updatedFrequency := false,
             checkDiff := v.checkDiff && !v.updatedResolution), c2)
  }

  /** Comparing a frame with the cache. */
  function Compared(s: State, shot: Shot): Capture
  {
    if shot.Pixels? && s.screen.checkDiff then
      var now := Samples(shot.words, |s.capture.lastpic|);
      s.capture.(lastpic := now, changed := now != s.capture.lastpic)
    else s.capture
  }

  function Deliver(c: Capture, shot: Shot, writable: bool): Capture
  {
    if shot.Pixels? && writable then c.(sent := c.sent + [(shot.words, c.sendFrequency)])
    else c.(running := false)
  }

  function Iterate(device: Device, s: State, shot: Shot, writable: bool, garbage: seq<int>): State
  {
    if !s.capture.running then s
    else
      var r := Refresh(device, s, garbage);
      if shot.Failed? then r
      else
        var c := Compared(r, shot);
        r.(capture := if c.changed || !r.screen.checkDiff then Deliver(c, shot, writable) else c)
  }

  function Step(device: Device, s: State, e: Event): State
  {
    match e
    case Shoot(shot, writable, garbage) => Iterate(device, s, shot, writable, garbage)
    case Resolution(width, height) => s.(screen := StoreResolution(device, s.screen, width, height))
    case Frequency(frequency) => s.(screen := s.screen.(frequency := frequency, updatedFrequency := true))
    case ImageDiff(diff) => s.(screen := s.screen.(checkDiff := diff))
    case Stop => s.(capture := s.capture.(running := false))
    case Start =>
      State(s.screen.(checkDiff := false, updatedResolution := true, updatedFrequency := true),
            Capture(0, 0, 0, [], false, true, s.capture.sent))
  }

  function Run(device: Device, s: State, events: seq<Event>): State
    decreases |events|
  {
    if events == [] then s
    else Step(device, Run(device, s, events[..|events| - 1]), events[|events| - 1])
  }

  /** screencap_init; the loop starts with start_streamer. */
  function Initial(device: Device): State
  {
    State(Screen(device.width, device.height, 500, true, true, false), Capture(0, 0, 0, [], false, false, []))
  }

  /* ---------- the code ---------- */

  /** The cache has the size of the current resolution, or is about to be replaced. */
  predicate InStep(device: Device, s: State)
  {
    s.screen.updatedResolution ||
    (&& s.capture.width == s.screen.width && s.capture.height == s.screen.height
     && |s.capture.lastpic| == SampleCount(s.screen.width, s.screen.height, device.bytesPerPixel))
  }

  /** The request a Screen message stands for, read through its accessors; its type is always one of the three. */
  function RequestOf(m: Messages.Msg): Event
  {
    var kind := Receiver.NumberOr(Schema.Screen, m, 1);
    if kind == RESOLUTION then
      var r := Messages.Target(m.f2);
      Resolution(Receiver.NumberOr(Schema.Resolution, r, 1), Receiver.NumberOr(Schema.Resolution, r, 2))
    else if kind == FREQUENCY then Frequency(Receiver.NumberOr(Schema.Frequency, Messages.Target(m.f3), 1))
    else ImageDiff(Receiver.NumberOr(Schema.ImageDiff, Messages.Target(m.f4), 1) != 0)
  }

  lemma StartIs(device: Device, s: State)
    ensures Step(device, s, Start)
         == State(s.screen.(checkDiff := false, updatedResolution := true, updatedFrequency := true),
                  Capture(0, 0, 0, [], false, true, s.capture.sent))
  {
  }

  class ScreenCapture {
    const device: Device
    const landscape: bool
    // screen_info
    var width: nat
    var height: nat
    var frequency: nat
    var updatedResolution: bool
    var updatedFrequency: bool
    var checkDiff: bool
    // the capture loop
    var captureWidth: nat
    var captureHeight: nat
    var sendFrequency: nat
    var lastpic: array?<int>
    var changed: bool
    var running: bool
    var sent: seq<(seq<int>, nat)>

    ghost function Abs(): State
      reads this, lastpic
    {
      State(Screen(width, height, frequency, updatedResolution, updatedFrequency, checkDiff),
            Capture(captureWidth, captureHeight, sendFrequency, if lastpic == null then [] else lastpic[..],
                    changed, running, sent))
    }

    ghost predicate Valid()
      reads this, lastpic
    {
      && landscape == device.Landscape()
      && (updatedResolution || lastpic != null)
      && InStep(device, Abs())
    }

    constructor (device: Device)
      ensures Valid() && this.device == device && Abs() == Initial(device) && lastpic == null
    {
      this.device := device;
      landscape := device.width > device.height;
      width, height, frequency := device.width, device.height, 500;
      updatedResolution, updatedFrequency, checkDiff := true, true, false;
      captureWidth, captureHeight, sendFrequency, lastpic, changed, running, sent := 0, 0, 0, null, false, false, [];
    }

    method SetResolution(w: nat, h: nat)
      requires Valid()
      modifies this
      ensures Valid() && Abs() == Step(device, old(Abs()), Resolution(w, h)) && lastpic == old(lastpic)
    {
      if w == 0 || h == 0 {
        return;
      }
      if (w > h) == landscape {
        if w <= device.width {
          width := w;
          height := h;
        }
      } else {
        if h <= device.width {
          width := h;
          height := w;
        }
      }
      updatedResolution := true;
    }

    method StartStreamer()
      requires Valid()
      modifies this
      ensures Valid() && Abs() == Step(device, old(Abs()), Start)
    {
      hide Step, SampleCount;
      StartIs(device, Abs());
      checkDiff := false;
      updatedResolution := true;
      updatedFrequency := true;
      captureWidth, captureHeight, sendFrequency := 0, 0, 0;
      lastpic := null;
      changed := false;
      running := true;
    }

    /** Reads the changed settings. */
    method ReadSettings() returns (ghost garbage: seq<int>)
      requires Valid()
      modifies this
      ensures lastpic != null && (lastpic == old(lastpic) || fresh(lastpic))
      ensures lastpic.Length == SampleCount(captureWidth, captureHeight, device.bytesPerPixel)
      ensures Valid() && !updatedResolution && Abs() == Refresh(device, old(Abs()), garbage)
    {
      garbage := [];
      if updatedResolution {
        captureWidth := width;
        captureHeight := height;
        var n := captureWidth * captureHeight * device.bytesPerPixel / WORD / OFFSET;
        lastpic := new int[n];
        garbage := lastpic[..];
        assert Uninitialized(garbage, n) == lastpic[..];
        checkDiff := false;
        updatedResolution := false;
      }
      if updatedFrequency {
        sendFrequency := frequency;
        updatedFrequency := false;
      }
    }

    /** The comparison loop: the cache ends as the samples of the frame. */
    method Compare(base: seq<int>)
      requires lastpic != null && FrameOf(base, captureWidth, captureHeight, device.bytesPerPixel)
      requires lastpic.Length == SampleCount(captureWidth, captureHeight, device.bytesPerPixel)
      modifies this`changed, lastpic
      ensures lastpic[..] == Samples(base, lastpic.Length)
      ensures changed <==> old(lastpic[..]) != Samples(base, lastpic.Length)
    {
      changed := false;
      var i := 0;
      while i < lastpic.Length
        invariant 0 <= i <= lastpic.Length
        invariant lastpic[..i] == Samples(base, lastpic.Length)[..i]
        invariant lastpic[i..] == old(lastpic[..])[i..]
        invariant changed <==> old(lastpic[..])[..i] != Samples(base, lastpic.Length)[..i]
        modifies this`changed, lastpic
      {
        SampleInFrame(base, captureWidth, captureHeight, device.bytesPerPixel, i);
        ghost var now, was := Samples(base, lastpic.Length), old(lastpic[..]);
        assert lastpic[i] == was[i] by {
          assert lastpic[i] == lastpic[i..][0];
        }
        assert now[..i + 1] == now[..i] + [base[i * OFFSET]] && was[..i + 1] == was[..i] + [was[i]];
        if lastpic[i] != base[i * OFFSET] {
          lastpic[i] := base[i * OFFSET];
          changed := true;
        }
        assert lastpic[..i + 1] == lastpic[..i] + [base[i * OFFSET]];
        i := i + 1;
      }
      assert lastpic[..] == lastpic[..i];
      assert old(lastpic[..])[..i] == old(lastpic[..]);
    }

    /** One iteration of the loop, the body under `while(running)`. */
    method CaptureOnce(shot: Shot, writable: bool) returns (ghost garbage: seq<int>)
      requires Valid() && running
      requires shot.Pixels? ==> FrameOf(shot.words, Refreshed().width, Refreshed().height, device.bytesPerPixel)
      modifies this, lastpic
      ensures Valid() && Abs() == Step(device, old(Abs()), Shoot(shot, writable, garbage))
    {
      garbage := ReadSettings();
      if shot.Failed? {
        return;
      }
      if shot.Pixels? && checkDiff {
        Compare(shot.words);
      }
      if changed || !checkDiff {
        if shot.Pixels? {
          if writable {
            sent := sent + [(shot.words, sendFrequency)];
          } else {
            running := false;
          }
        } else {
          running := false;
        }
      }
    }

    /** The settings the next iteration works with. */
    ghost function Refreshed(): Capture
      reads this, lastpic
    {
      Refresh(device, Abs(), []).capture
    }

    /** set_metrics, for the three kinds of request a client sends. */
    method SetMetrics(message: Messages.Msg)
      requires Valid()
      modifies this
      ensures Valid() && Abs() == Step(device, old(Abs()), RequestOf(message))
    {
      var kind := Receiver.NumberOr(Schema.Screen, message, 1);
      if kind == RESOLUTION {
        var r := Messages.Target(message.f2);
        var w := Receiver.NumberOr(Schema.Resolution, r, 1);
        var h := Receiver.NumberOr(Schema.Resolution, r, 2);
        SetResolution(w, h);
      } else if kind == FREQUENCY {
        frequency := Receiver.NumberOr(Schema.Frequency, Messages.Target(message.f3), 1);
        updatedFrequency := true;
      } else {
        checkDiff := Receiver.NumberOr(Schema.ImageDiff, Messages.Target(message.f4), 1) != 0;
      }
    }
  }

  /* ---------- what every run keeps ---------- */

  /** The stored resolution is no wider than the device and is not turned against it. */
  predicate Oriented(device: Device, s: State)
  {
    && s.screen.width <= device.width
    && (if device.Landscape() then s.screen.width >= s.screen.height else s.screen.width <= s.screen.height)
  }

  /** The frequency the loop works with is the one asked for, or is about to be read. */
  predicate FrequencyInStep(s: State)
  {
    s.screen.updatedFrequency || s.capture.sendFrequency == s.screen.frequency
  }

  lemma StepKeeps(device: Device, s: State, e: Event)
    requires InStep(device, s) && Oriented(device, s) && FrequencyInStep(s)
    ensures InStep(device, Step(device, s, e)) && Oriented(device, Step(device, s, e))
    ensures FrequencyInStep(Step(device, s, e))
  {
  }

  lemma InitialKeeps(device: Device)
    ensures InStep(device, Initial(device)) && Oriented(device, Initial(device)) && FrequencyInStep(Initial(device))
  {
  }

  /** Every reachable state, whatever the order of requests and iterations. */
  lemma {:induction false} RunKeeps(device: Device, events: seq<Event>)
    ensures InStep(device, Run(device, Initial(device), events))
    ensures Oriented(device, Run(device, Initial(device), events))
    ensures FrequencyInStep(Run(device, Initial(device), events))
    decreases |events|
  {
    hide InStep, Oriented, FrequencyInStep, Step;
    if events == [] {
      InitialKeeps(device);
    } else {
      RunKeeps(device, events[..|events| - 1]);
      StepKeeps(device, Run(device, Initial(device), events[..|events| - 1]), events[|events| - 1]);
    }
  }

  /** Outside diff mode every frame is sent, the cache stays as it was made, and a missing one ends the stream. */
  lemma FrameInPlainMode(device: Device, s: State, shot: Shot, writable: bool, garbage: seq<int>)
    requires s.capture.running && !shot.Failed? && (s.screen.updatedResolution || !s.screen.checkDiff)
    ensures var r, c' := Refresh(device, s, garbage), Iterate(device, s, shot, writable, garbage).capture;
            && c'.lastpic == r.capture.lastpic
            && (c'.running <==> shot.Pixels? && writable)
            && c'.sent
            == s.capture.sent + if shot.Pixels? && writable then [(shot.words, r.capture.sendFrequency)] else []
  {
  }

  /** Requests and iterations that neither turn diff mode on nor end the stream. */
  predicate Plain(events: seq<Event>)
  {
    forall k :: 0 <= k < |events| ==>
      match events[k]
      case Shoot(shot, writable, _) => shot.Failed? || (shot.Pixels? && writable)
      case ImageDiff(diff) => !diff
      case Resolution(_, _) => true
      case Frequency(_) => true
      case _ => false
  }

  /** The frames among the events. */
  function FramesOf(events: seq<Event>): seq<seq<int>>
  {
    if events == [] then []
    else
      var e := events[|events| - 1];
      FramesOf(events[..|events| - 1]) + if e.Shoot? && e.shot.Pixels? then [e.shot.words] else []
  }

  /** The frames sent, without their frequencies. */
  function Words(sent: seq<(seq<int>, nat)>): (r: seq<seq<int>>)
    ensures |r| == |sent|
  {
    seq(|sent|, k requires 0 <= k < |sent| => sent[k].0)
  }

  lemma WordsSnoc(sent: seq<(seq<int>, nat)>, words: seq<int>, frequency: nat)
    ensures Words(sent + [(words, frequency)]) == Words(sent) + [words]
  {
  }

  /** As long as diff mode is off every frame is sent, once and in order, whatever is requested meanwhile. */
  lemma {:induction false} PlainRunSendsAll(device: Device, s: State, events: seq<Event>)
    requires s.capture.running && !s.screen.checkDiff && Plain(events)
    ensures var t := Run(device, s, events);
            && t.capture.running && !t.screen.checkDiff
            && Words(t.capture.sent) == Words(s.capture.sent) + FramesOf(events)
    decreases |events|
  {
    hide Words;
    if events != [] {
      var before, e := events[..|events| - 1], events[|events| - 1];
      PlainRunSendsAll(device, s, before);
      var t := Run(device, s, before);
      if e.Shoot? && !e.shot.Failed? {
        var c := Refresh(device, t, e.garbage).capture;
        FrameInPlainMode(device, t, e.shot, e.writable, e.garbage);
        WordsSnoc(t.capture.sent, e.shot.words, c.sendFrequency);
      }
    }
  }

  /** Every frame goes out with the frequency asked for last. */
  lemma {:induction false} SentFrequency(device: Device, events: seq<Event>, shot: Shot, writable: bool,
                                         garbage: seq<int>)
    ensures var s := Run(device, Initial(device), events);
            var t := Iterate(device, s, shot, writable, garbage);
            && |s.capture.sent| <= |t.capture.sent|
            && forall k :: |s.capture.sent| <= k < |t.capture.sent| ==> t.capture.sent[k].1 == s.screen.frequency
  {
    RunKeeps(device, events);
  }

  /** A request is only checked against the device's width, so its height may be anything. */
  lemma StoredHeightFitsIff(device: Device, s: Screen, width: nat, height: nat)
    requires 0 < width && 0 < height
    requires (if (width > height) == device.Landscape() then width else height) <= device.width
    ensures StoreResolution(device, s, width, height).height <= device.height
       <==> (if (width > height) == device.Landscape() then height else width) <= device.height
  {
  }

  /** A reachable resolution five times as high as the device. */
  lemma TallerThanDevice(bytesPerPixel: nat)
    ensures var device := Device(100, 200, bytesPerPixel);
            var s := Run(device, Initial(device), [Resolution(50, 1000)]);
            s.screen.width == 50 && s.screen.height == 1000
  {
    var device := Device(100, 200, bytesPerPixel);
    assert [Resolution(50, 1000)][..0] == [];
    assert Run(device, Initial(device), []) == Initial(device);
  }

  /** A request of equal sides on a landscape device is stored as asked although it counts as portrait. */
  lemma StoredTurnedIff(device: Device, s: Screen, width: nat, height: nat)
    requires 0 < width && 0 < height
    requires (if (width > height) == device.Landscape() then width else height) <= device.width
    ensures var r := StoreResolution(device, s, width, height);
            && ((r.width > r.height) == device.Landscape() <==> !(device.Landscape() && width == height))
            && ((r.width, r.height) == (width, height)
                <==> (width > height) == device.Landscape() || width == height)
  {
  }

  /** What a request stores: the two sides asked for, in one order or the other, or nothing. */
  lemma StoredSides(device: Device, s: Screen, width: nat, height: nat)
    ensures var r := StoreResolution(device, s, width, height);
            var turned := (width > height) != (device.width > device.height);
            && (if 0 < width && 0 < height && (if turned then height else width) <= device.width then
                  (r.width, r.height) == if turned then (height, width) else (width, height)
                else (r.width, r.height) == (s.width, s.height))
            && r.frequency == s.frequency && r.checkDiff == s.checkDiff
  {
  }

  lemma IdleIsIdle(device: Device, s: State, e: Event)
    requires !s.capture.running && e != Start
    ensures !Step(device, s, e).capture.running && Step(device, s, e).capture.sent == s.capture.sent
  {
  }

  /** A stopped stream sends nothing until a new one starts. */
  lemma {:induction false} StoppedSendsNothing(device: Device, s: State, events: seq<Event>)
    requires Start !in events
    ensures var t := Run(device, s, [Stop] + events); !t.capture.running && t.capture.sent == s.capture.sent
    decreases |events|
  {
    hide Iterate;
    if events == [] {
      assert [Stop] + events == [Stop] && [Stop][..0] == [];
    } else {
      var before := events[..|events| - 1];
      assert ([Stop] + events)[..|events|] == [Stop] + before;
      StoppedSendsNothing(device, s, before);
      var t := Run(device, s, [Stop] + before);
      IdleIsIdle(device, t, events[|events| - 1]);
    }
  }

  /**
   After any history an iteration takes over what was asked for: it works with the stored resolution and
   frequency, with a cache of that size, and diff mode is on exactly if it was asked for after the last
   request for a resolution.
   */
  lemma SettingsTakeEffect(device: Device, events: seq<Event>, shot: Shot, writable: bool, garbage: seq<int>)
    requires Run(device, Initial(device), events).capture.running
    ensures var s := Run(device, Initial(device), events);
            var t := Step(device, s, Shoot(shot, writable, garbage));
            && (t.capture.width, t.capture.height) == (s.screen.width, s.screen.height)
            && t.capture.sendFrequency == s.screen.frequency
            && |t.capture.lastpic| == t.capture.width * t.capture.height * device.bytesPerPixel / 4 / 25
            && t.screen == s.screen.(updatedResolution := false, updatedFrequency := false,
                                     checkDiff := s.screen.checkDiff && !s.screen.updatedResolution)
  {
    RunKeeps(device, events);
  }

  /* ---------- an uninterrupted stretch of diff mode ---------- */

  predicate Diffing(device: Device, s: State)
  {
    s.screen.checkDiff && !s.screen.updatedResolution
  }

  /** Nothing that ends the stretch: iterations and changes of the frequency. */
  predicate Uninterrupted(events: seq<Event>)
  {
    forall k :: 0 <= k < |events| ==> events[k].Shoot? || events[k].Frequency?
  }

  function LastSent(c: Capture): seq<int>
    requires c.sent != []
  {
    c.sent[|c.sent| - 1].0
  }

  /** The cache holds the samples of the frame sent last. */
  predicate Agreed(c: Capture)
  {
    c.sent != [] && c.lastpic == Samples(LastSent(c), |c.lastpic|)
  }

  /** One frame in diff mode: it is sent exactly when a sampled word differs from the cache. */
  lemma FrameInDiffMode(device: Device, s: State, words: seq<int>, writable: bool, garbage: seq<int>)
    requires Diffing(device, s) && s.capture.running
    ensures var c, c' := s.capture, Iterate(device, s, Pixels(words), writable, garbage).capture;
            var differs := exists k :: 0 <= k < |c.lastpic| && c.lastpic[k] != Samples(words, |c.lastpic|)[k];
            && c'.lastpic == Samples(words, |c.lastpic|)
            && (c'.running <==> differs ==> writable)
            && (differs && writable ==>
                  |c'.sent| == |c.sent| + 1 && c'.sent[..|c.sent|] == c.sent && LastSent(c') == words)
            && (!(differs && writable) ==> c'.sent == c.sent)
  {
    var c := s.capture;
    var now := Samples(words, |c.lastpic|);
    if c.lastpic != now {
      assert exists k :: 0 <= k < |c.lastpic| && c.lastpic[k] != now[k];
    }
  }

  lemma StretchStep(device: Device, s: State, e: Event, sentBefore: nat)
    requires Diffing(device, s) && (e.Shoot? || e.Frequency?)
    requires sentBefore <= |s.capture.sent| && (|s.capture.sent| > sentBefore && s.capture.running ==> Agreed(s.capture))
    ensures var s' := Step(device, s, e);
            && Diffing(device, s') && |s'.capture.sent| >= |s.capture.sent|
            && |s'.capture.lastpic| == |s.capture.lastpic|
            && (|s'.capture.sent| > sentBefore && s'.capture.running ==> Agreed(s'.capture))
            && (s'.capture.running && e.Shoot? && e.shot.Pixels? ==>
                  s'.capture.lastpic == Samples(e.shot.words, |s.capture.lastpic|))
  {
    hide Samples;
    if e.Shoot? && s.capture.running && e.shot.Pixels? {
      FrameInDiffMode(device, s, e.shot.words, e.writable, e.garbage);
    }
  }

  lemma {:induction false} StretchInduction(device: Device, s: State, events: seq<Event>)
    requires Diffing(device, s) && Uninterrupted(events)
    ensures var s' := Run(device, s, events);
            && Diffing(device, s') && |s'.capture.sent| >= |s.capture.sent|
            && |s'.capture.lastpic| == |s.capture.lastpic|
            && (|s'.capture.sent| > |s.capture.sent| && s'.capture.running ==> Agreed(s'.capture))
    decreases |events|
  {
    hide Step, Agreed, Diffing;
    if events != [] {
      var before := events[..|events| - 1];
      StretchInduction(device, s, before);
      StretchStep(device, Run(device, s, before), events[|events| - 1], |s.capture.sent|);
    }
  }

  /**
   From the first frame transmitted in the stretch on, the frame transmitted last agrees with
   the current one at every sampled position. Applied to each prefix it holds at all times.
   */
  lemma StretchTheorem(device: Device, s: State, events: seq<Event>, words: seq<int>, writable: bool, garbage: seq<int>)
    requires Diffing(device, s) && Uninterrupted(events)
    ensures var s' := Step(device, Run(device, s, events), Shoot(Pixels(words), writable, garbage));
            s'.capture.running && |s'.capture.sent| > |s.capture.sent| ==>
              && s'.capture.sent != []
              && Samples(LastSent(s'.capture), |s.capture.lastpic|) == Samples(words, |s.capture.lastpic|)
  {
    hide Step, Samples, Diffing;
    StretchInduction(device, s, events);
    StretchStep(device, Run(device, s, events), Shoot(Pixels(words), writable, garbage), |s.capture.sent|);
  }

  /** A frame with the given samples. */
  function Stretched(samples: seq<int>): (words: seq<int>)
    ensures Samples(words, |samples|) == samples
  {
    var words := seq(|samples| * OFFSET, i requires 0 <= i < |samples| * OFFSET => samples[i / OFFSET]);
    assert forall i :: 0 <= i < |samples| ==> (i * OFFSET) / OFFSET == i;
    words
  }

  /** One more frame in diff mode leaves an agreeing frame as the one sent last, or ends the stream. */
  predicate NextAgrees(device: Device, s: State, words: seq<int>, writable: bool)
  {
    var c := Step(device, s, Shoot(Pixels(words), writable, [])).capture;
    c.running ==> c.sent != [] && Samples(LastSent(c), |c.lastpic|) == Samples(words, |c.lastpic|)
  }

  /**
   When the frame sent last is sure to agree with the next one after its iteration, at every
   sampled position: exactly when the cache holds the samples of the frame sent last.
   */
  lemma NextAgreesIff(device: Device, s: State)
    requires Diffing(device, s) && s.capture.running
    ensures Agreed(s.capture) <==> forall words, writable :: NextAgrees(device, s, words, writable)
  {
    var c := s.capture;
    forall words, writable
      ensures Agreed(c) ==> NextAgrees(device, s, words, writable)
    {
      FrameInDiffMode(device, s, words, writable, []);
    }
    var words := Stretched(c.lastpic);
    FrameInDiffMode(device, s, words, true, []);
    assert NextAgrees(device, s, words, true) ==> Agreed(c);
  }

  lemma RunThree(device: Device, s: State, a: Event, b: Event, c: Event)
    ensures Run(device, s, [a, b, c]) == Step(device, Step(device, Step(device, s, a), b), c)
  {
    hide Step;
    assert [a, b, c][..2] == [a, b] && [a, b][..1] == [a] && [a][..0] == [];
    assert Run(device, s, [a]) == Step(device, s, a);
    assert Run(device, s, [a, b]) == Step(device, Step(device, s, a), b);
  }

  /**
   The condition can fail: frames sent before diff mode leave no trace in the cache, and memory
   nobody wrote may hold the samples of the next frame, which is then not sent.
   */
  lemma StaleFrameStays(device: Device, first: seq<int>, next: seq<int>)
    requires var n := SampleCount(device.width, device.height, device.bytesPerPixel);
             Samples(first, n) != Samples(next, n)
    ensures var n := SampleCount(device.width, device.height, device.bytesPerPixel);
            var events := [Start, Shoot(Pixels(first), true, Samples(next, n)), ImageDiff(true)];
            var s := Run(device, Initial(device), events);
            && Diffing(device, s) && s.capture.running && !Agreed(s.capture)
            && Step(device, s, Shoot(Pixels(next), true, [])).capture.sent == [(first, 500)]
  {
    hide SampleCount, Samples;
    var n := SampleCount(device.width, device.height, device.bytesPerPixel);
    var shoot := Shoot(Pixels(first), true, Samples(next, n));
    var s0 := Initial(device);
    RunThree(device, s0, Start, shoot, ImageDiff(true));
    assert Uninitialized(Samples(next, n), n) == Samples(next, n);
    var s := Step(device, Step(device, Step(device, s0, Start), shoot), ImageDiff(true));
    assert s.capture.sent == [(first, 500)] && s.capture.lastpic == Samples(next, n);
    FrameInDiffMode(device, s, next, true, []);
  }

  /** The cache after a stretch: the samples of its last frame. */
  function CacheAfter(cache: seq<int>, events: seq<Event>): (r: seq<int>)
    ensures |r| == |cache|
  {
    if events == [] then cache
    else
      var e := events[|events| - 1];
      if e.Shoot? && e.shot.Pixels? then Samples(e.shot.words, |cache|)
      else CacheAfter(cache, events[..|events| - 1])
  }

  /** The frames of a stretch that differ at a sampled position from the frame before them. */
  function ChangedFrames(cache: seq<int>, events: seq<Event>): seq<seq<int>>
  {
    if events == [] then []
    else
      var before, e := events[..|events| - 1], events[|events| - 1];
      ChangedFrames(cache, before)
      + if e.Shoot? && e.shot.Pixels? && Samples(e.shot.words, |cache|) != CacheAfter(cache, before)
        then [e.shot.words] else []
  }

  /** Every iteration of the stretch gives a frame that can be sent, or fails. */
  predicate AllWritable(events: seq<Event>)
  {
    forall k :: 0 <= k < |events| && events[k].Shoot? ==>
      events[k].shot.Failed? || (events[k].shot.Pixels? && events[k].writable)
  }

  /** In diff mode exactly the frames that differ from the one before them are sent, in order. */
  lemma {:induction false} DiffRunSendsChanges(device: Device, s: State, events: seq<Event>)
    requires Diffing(device, s) && s.capture.running && Uninterrupted(events) && AllWritable(events)
    ensures var t := Run(device, s, events);
            && Diffing(device, t) && t.capture.running
            && t.capture.lastpic == CacheAfter(s.capture.lastpic, events)
            && Words(t.capture.sent) == Words(s.capture.sent) + ChangedFrames(s.capture.lastpic, events)
    decreases |events|
  {
    hide Words, Samples;
    if events != [] {
      var before, e := events[..|events| - 1], events[|events| - 1];
      DiffRunSendsChanges(device, s, before);
      var t := Run(device, s, before);
      if e.Shoot? && e.shot.Pixels? {
        FrameInDiffMode(device, t, e.shot.words, e.writable, e.garbage);
        WordsSnoc(t.capture.sent, e.shot.words, Refresh(device, t, e.garbage).capture.sendFrequency);
      }
    }
  }

  /** A frame that changes only between the sampled words is not sent, however much it changes. */
  lemma UnsampledChangeIsMissed(device: Device, s: State, words: seq<int>, changed: seq<int>)
    requires Diffing(device, s) && s.capture.running && |words| == |changed|
    requires forall k :: 0 <= k < |words| && k % OFFSET == 0 ==> words[k] == changed[k]
    ensures var first := Step(device, s, Shoot(Pixels(words), true, []));
            Step(device, first, Shoot(Pixels(changed), true, [])).capture.sent == first.capture.sent
  {
    var n := |s.capture.lastpic|;
    FrameInDiffMode(device, s, words, true, []);
    assert Samples(words, n) == Samples(changed, n);
    FrameInDiffMode(device, Step(device, s, Shoot(Pixels(words), true, [])), changed, true, []);
  }

  /* ---------- write_n_bytes ---------- */

  /** The bytes that reach the socket when its writes take the given counts: the pointer never advances. */
  function Written(data: seq<int>, counts: seq<nat>): seq<int>
  {
    if counts == [] then []
    else (if counts[0] <= |data| then data[..counts[0]] else data) + Written(data, counts[1..])
  }

  function Total(counts: seq<nat>): nat
  {
    if counts == [] then 0 else counts[0] + Total(counts[1..])
  }

  /** What the writes take until the data are gone or one of them fails; results are what write() returns. */
  function Taken(length: nat, results: seq<int>): (counts: seq<nat>)
    ensures forall k <- counts :: k > 0
    ensures Total(counts) <= length
    decreases |results|
  {
    if length == 0 || results == [] || results[0] <= 0 then []
    else
      var n := if results[0] <= length then results[0] else length;
      var rest := Taken(length - n, results[1..]);
      assert ([n] + rest)[1..] == rest;
      [n] + rest
  }

  lemma NothingTaken(data: seq<int>, len: nat, results: seq<int>)
    ensures len == 0 || results == [] || results[0] <= 0 ==>
              Written(data, Taken(len, results)) == [] && Total(Taken(len, results)) == 0
    ensures results[0..] == results
  {
  }

  lemma OneTaken(data: seq<int>, len: nat, results: seq<int>)
    requires 0 < len <= |data|
    ensures results != [] && results[0] > 0 ==>
              var n := if results[0] <= len then results[0] else len;
              && Written(data, Taken(len, results)) == data[..n] + Written(data, Taken(len - n, results[1..]))
              && Total(Taken(len, results)) == n + Total(Taken(len - n, results[1..]))
  {
    if results != [] && results[0] > 0 {
      var n := if results[0] <= len then results[0] else len;
      var rest := Taken(len - n, results[1..]);
      assert ([n] + rest)[1..] == rest;
    }
  }

  /** write_n_bytes: the bytes that reach the socket, and whether it reports success. */
  method WriteNBytes(data: seq<int>, results: seq<int>) returns (ok: bool, wire: seq<int>)
    ensures wire == Written(data, Taken(|data|, results))
    ensures ok <==> Total(Taken(|data|, results)) == |data|
  {
    hide Written, Taken, Total;
    var len, i := |data|, 0;
    wire := [];
    NothingTaken(data, len, results);
    while len > 0
      invariant 0 <= i <= |results| && 0 <= len <= |data|
      invariant Written(data, Taken(|data|, results)) == wire + Written(data, Taken(len, results[i..]))
      invariant Total(Taken(|data|, results)) == |data| - len + Total(Taken(len, results[i..]))
      decreases |results| - i
    {
      OneTaken(data, len, results[i..]);
      NothingTaken(data, len, results[i..]);
      assert wire + [] == wire;
      if i == |results| || results[i] <= 0 {
        return false, wire;
      }
      assert results[i..][1..] == results[i + 1..];
      var out := if results[i] <= len then results[i] else len;
      wire := wire + data[..out];
      len := len - out;
      i := i + 1;
    }
    NothingTaken(data, len, results[i..]);
    assert wire + [] == wire;
    ok := true;
  }

  /** One write that takes everything delivers the data. */
  lemma OneWrite(data: seq<int>, count: nat)
    requires count == |data|
    ensures Written(data, [count]) == data
  {
    assert [count][1..] == [];
    assert Written(data, []) == [];
  }

  /** A second write starts over with the first byte. */
  lemma SecondWrite(data: seq<int>, counts: seq<nat>)
    requires |counts| >= 2 && 0 < counts[0] < |data| && counts[1] > 0
    ensures |Written(data, counts)| > counts[0] && Written(data, counts)[counts[0]] == data[0]
  {
    var rest := counts[1..];
    assert rest != [] && rest[0] == counts[1];
    assert Written(data, rest) == (if rest[0] <= |data| then data[..rest[0]] else data) + Written(data, rest[1..]);
  }

  lemma TotalAtLeast(counts: seq<nat>)
    requires |counts| >= 2 && counts[1] > 0
    ensures Total(counts) > counts[0]
  {
    assert counts[1..][0] == counts[1];
  }

  /** The socket receives the data, whatever they are, exactly when one write takes them whole. */
  lemma WrittenWholeIff(length: nat, counts: seq<nat>)
    requires length > 0 && Total(counts) == length && forall k <- counts :: k > 0
    ensures |counts| == 1 <==> forall data: seq<int> | |data| == length :: Written(data, counts) == data
  {
    hide Written;
    if |counts| == 1 {
      assert counts == [counts[0]] && counts[1..] == [];
      forall data: seq<int> | |data| == length
        ensures Written(data, counts) == data
      {
        OneWrite(data, counts[0]);
      }
    } else {
      assert counts[0] in counts && counts[1] in counts;
      TotalAtLeast(counts);
      var data := seq(length, i => i);
      SecondWrite(data, counts);
      assert Written(data, counts) != data;
    }
  }

  /**
   When write_n_bytes reports success: the data have arrived, whatever they are, iff the first write
   took them whole.
   */
  lemma DeliveredIffAtOnce(length: nat, results: seq<int>)
    requires length > 0 && Total(Taken(length, results)) == length
    ensures results != [] && (results[0] >= length
              <==> forall data: seq<int> | |data| == length :: Written(data, Taken(length, results)) == data)
  {
    hide Written;
    var counts := Taken(length, results);
    WrittenWholeIff(length, counts);
    var n := if results[0] <= length then results[0] else length;
    var rest := Taken(length - n, results[1..]);
    assert counts == [n] + rest && counts[1..] == rest;
    assert rest == [] <==> n == length;
  }
}
