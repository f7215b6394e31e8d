/**
 jQuery.Callbacks as a state machine. While the list is firing, every call a callback makes only
 edits the list or queues a pass, so a re-entrant run is a sequence of events: calls, and returns
 of the callback that is running.
 */
module CallbackList {
  import opened Wrappers

  type Fn = nat
  type Data = nat

  /** A place in the list; the serial tells apart two places that hold the same function. */
  datatype Entry = Entry(fn: Fn, serial: nat)

  datatype Options = Options(once: bool, memory: bool, unique: bool, stopOnFalse: bool)

  /**
   One invocation: the number of its pass, the number of the last fireWith that began a pass, the
   data passed, the entry.
   */
  datatype Call = Call(pass: nat, round: nat, data: Data, entry: Entry)

  /** What has happened so far; the code does not keep it. */
  datatype History = History(
    nextSerial: nat,
    passes: nat,           // passes begun
    from: nat,             // the first serial the current pass covers
    data: Data,            // what the current pass passes to the callbacks
    calm: bool,            // empty() was not called in the current pass
    log: seq<Call>,
    accepted: seq<Data>,   // the data of the fireWith calls that took effect, in order
    started: seq<Data>,    // those whose pass has begun
    roundPass: nat)        // the pass the last of these began

  /** list, stack and memory are None when they are undefined or false. */
  datatype State = State(
    list: Option<seq<Entry>>,
    stack: Option<seq<Data>>,
    memory: Option<Data>,
    firing: bool,
    fired: bool,
    firingLength: int,
    firingIndex: int,
    firingStart: nat,
    h: History)

  const NO_HISTORY := History(0, 0, 0, 0, true, [], [], [], 0)

  function Initial(o: Options): State
  {
    State(Some([]), if o.once then None else Some([]), None, false, false, 0, 0, 0, NO_HISTORY)
  }

  /* ---------- the operations ---------- */

  predicate HasFn(list: seq<Entry>, fn: Fn)
  {
    exists k :: 0 <= k < |list| && list[k].fn == fn
  }

  function Push(o: Options, s: State, fn: Fn): State
    requires s.list.Some?
  {
    if o.unique && HasFn(s.list.value, fn) then s
    else s.(list := Some(s.list.value + [Entry(fn, s.h.nextSerial)]), h := s.h.(nextSerial := s.h.nextSerial + 1))
  }

  function PushAll(o: Options, s: State, fns: seq<Fn>): (r: State)
    requires s.list.Some?
    ensures r.list.Some?
    decreases |fns|
  {
    if fns == [] then s else PushAll(o, Push(o, s, fns[0]), fns[1..])
  }

  function Disable(s: State): State
  {
    s.(list := None, stack := None, memory := None)
  }

  /** The start of fire(data); from is the first serial that takes part. */
  function Begin(o: Options, s: State, data: Data, from: nat): State
    requires s.list.Some?
  {
    s.(memory := if o.memory then Some(data) else None, fired := true, firing := true,
       firingIndex := s.firingStart, firingStart := 0, firingLength := |s.list.value|,
       h := s.h.(passes := s.h.passes + 1, from := from, data := data, calm := true))
  }

  function StackSize(s: State): nat
  {
    if s.stack.Some? then |s.stack.value| else 0
  }

  predicate Invokes(s: State)
  {
    s.list.Some? && 0 <= s.firingIndex < s.firingLength && s.firingIndex < |s.list.value|
  }

  function Invoke(s: State): State
    requires Invokes(s)
  {
    s.(h := s.h.(log := s.h.log + [Call(s.h.passes, |s.h.started|, s.h.data, s.list.value[s.firingIndex])]))
  }

  predicate Queued(s: State)
  {
    s.list.Some? && s.stack.Some? && s.stack.value != []
  }

  /** The next pass is that of a fireWith. */
  function Started(h: History, data: Data): History
  {
    h.(started := h.started + [data], roundPass := h.passes + 1)
  }

  function Shift(s: State): State
    requires Queued(s)
  {
    s.(stack := Some(s.stack.value[1..]), h := Started(s.h, s.stack.value[0]))
  }

  /** After the loop: the next queued pass, or the list is kept, emptied or disabled. */
  function End(o: Options, s: State): State
    decreases StackSize(s), 0
  {
    var quiet := s.(firing := false);
    if Queued(s) then Proceed(o, Begin(o, Shift(quiet), s.stack.value[0], 0))
    else if s.list.None? || s.stack.Some? then quiet
    else if s.memory.Some? then quiet.(list := Some([]))
    else Disable(quiet)
  }

  /** The test of the loop in fire: either the next callback is invoked or the pass ends. */
  function Proceed(o: Options, s: State): State
    decreases StackSize(s), 1
  {
    if Invokes(s) then Invoke(s) else End(o, s)
  }

  /** The running callback returns. */
  function Return(o: Options, s: State, wasFalse: bool): State
  {
    if !s.firing then s
    else if wasFalse && o.stopOnFalse then End(o, s.(memory := None))
    else Proceed(o, s.(firingIndex := s.firingIndex + 1))
  }

  function Add(o: Options, s: State, fns: seq<Fn>): State
  {
    if s.list.None? then s
    else
      var pushed := PushAll(o, s, fns);
      if s.firing then pushed.(firingLength := |pushed.list.value|)
      else if s.memory.Some? then
        Proceed(o, Begin(o, pushed.(firingStart := |s.list.value|), s.memory.value, s.h.nextSerial))
      else pushed
  }

  function IndexOf(list: seq<Entry>, fn: Fn): (k: nat)
    ensures k <= |list| && (forall j :: 0 <= j < k ==> list[j].fn != fn) && (k < |list| ==> list[k].fn == fn)
  {
    if list == [] || list[0].fn == fn then 0
    else
      var k := IndexOf(list[1..], fn);
      assert forall j :: 0 <= j < |list| - 1 ==> list[1..][j] == list[j + 1];
      k + 1
  }

  /** One splice of remove, with the firing indexes. */
  function RemoveAt(s: State, k: nat): State
    requires s.list.Some? && k < |s.list.value|
  {
    s.(list := Some(s.list.value[..k] + s.list.value[k + 1..]),
       firingLength := if s.firing && k <= s.firingLength then s.firingLength - 1 else s.firingLength,
       firingIndex := if s.firing && k <= s.firingIndex then s.firingIndex - 1 else s.firingIndex)
  }

  function RemoveFn(s: State, fn: Fn): (r: State)
    requires s.list.Some?
    ensures r.list.Some?
    decreases |s.list.value|
  {
    var k := IndexOf(s.list.value, fn);
    if k == |s.list.value| then s else RemoveFn(RemoveAt(s, k), fn)
  }

  function Remove(s: State, fns: seq<Fn>): State
    decreases |fns|
  {
    if s.list.None? || fns == [] then s else Remove(RemoveFn(s, fns[0]), fns[1..])
  }

  function Empty(s: State): State
  {
    s.(list := Some([]), firingLength := 0, h := s.h.(calm := s.h.calm && !s.firing))
  }

  function Lock(s: State): State
  {
    if s.memory.Some? then s.(stack := None) else Disable(s)
  }

  function FireWith(o: Options, s: State, data: Data): State
  {
    if s.list.None? || (s.fired && s.stack.None?) then s
    else
      var accepted := s.(h := s.h.(accepted := s.h.accepted + [data]));
      if s.firing && s.stack.Some? then accepted.(stack := Some(s.stack.value + [data]))
      else Proceed(o, Begin(o, accepted.(h := Started(accepted.h, data)), data, 0))
  }

  datatype Event =
    | EvAdd(fns: seq<Fn>) | EvRemove(fns: seq<Fn>) | EvFireWith(data: Data)
    | EvEmpty | EvDisable | EvLock | EvReturn(wasFalse: bool)

  function Step(o: Options, s: State, e: Event): State
  {
    match e
    case EvAdd(fns) => Add(o, s, fns)
    case EvRemove(fns) => Remove(s, fns)
    case EvFireWith(data) => FireWith(o, s, data)
    case EvEmpty => Empty(s)
    case EvDisable => Disable(s)
    case EvLock => Lock(s)
    case EvReturn(wasFalse) => Return(o, s, wasFalse)
  }

  function Run(o: Options, s: State, events: seq<Event>): State
    decreases |events|
  {
    if events == [] then s else Run(o, Step(o, s, events[0]), events[1..])
  }

  /* ---------- the invariant ---------- */

  /** Places are in the order of their serials. */
  predicate Ordered(list: seq<Entry>, next: nat)
  {
    && (forall k :: 0 <= k < |list| ==> list[k].serial < next)
    && (forall j, k :: 0 <= j < k < |list| ==> list[j].serial < list[k].serial)
  }

  /** Passes do not interleave, and within a pass every place is called at most once, in order. */
  predicate PassesInOrder(log: seq<Call>, passes: nat, next: nat)
  {
    && (forall k :: 0 <= k < |log| ==> log[k].pass <= passes && log[k].entry.serial < next)
    && (forall j, k :: 0 <= j < k < |log| ==>
          log[j].pass < log[k].pass || (log[j].pass == log[k].pass && log[j].entry.serial < log[k].entry.serial))
  }

  /** Every call passes the data of the last fireWith that began a pass, and these advance in order. */
  predicate DataInOrder(log: seq<Call>, started: seq<Data>)
  {
    && (forall k :: 0 <= k < |log| ==> 1 <= log[k].round <= |started| && log[k].data == started[log[k].round - 1])
    && (forall j, k :: 0 <= j < k < |log| ==> log[j].round <= log[k].round)
  }

  /** Every pass is that of one fireWith. */
  predicate RoundIsPass(log: seq<Call>)
  {
    forall k :: 0 <= k < |log| ==> log[k].round == log[k].pass
  }

  /** fireWith calls begin their passes in the order they were accepted. */
  predicate Fifo(s: State)
  {
    if s.stack.Some? then s.h.started + s.stack.value == s.h.accepted else s.h.started <= s.h.accepted
  }

  predicate Called(s: State, e: Entry)
  {
    exists j :: 0 <= j < |s.h.log| && s.h.log[j].pass == s.h.passes && s.h.log[j].entry == e
  }

  /** The places from p on are still to come in this pass. */
  predicate StillToCome(s: State, p: int)
    requires s.list.Some?
  {
    forall k :: 0 <= k < |s.list.value| && p <= k ==>
      && s.h.from <= s.list.value[k].serial
      && forall j :: 0 <= j < |s.h.log| && s.h.log[j].pass == s.h.passes
           ==> s.h.log[j].entry.serial < s.list.value[k].serial
  }

  /** The places before p that this pass covers have been called. */
  predicate Passed(s: State, p: int)
    requires s.list.Some?
  {
    forall k :: 0 <= k < |s.list.value| && k < p && s.h.from <= s.list.value[k].serial ==> Called(s, s.list.value[k])
  }

  predicate Base(o: Options, s: State)
  {
    && (s.list.Some? ==> Ordered(s.list.value, s.h.nextSerial))
    && PassesInOrder(s.h.log, s.h.passes, s.h.nextSerial)
    && s.h.from <= s.h.nextSerial
    && (s.stack.Some? ==> s.list.Some?)
    && Fifo(s)
    && DataInOrder(s.h.log, s.h.started)
    && (!o.memory ==> s.memory.None? && RoundIsPass(s.h.log))
  }

  /** The data of the last fireWith that began a pass. */
  predicate IsLatest(h: History, data: Data)
  {
    h.started != [] && h.started[|h.started| - 1] == data
  }

  /**
   The pass of a fireWith covers the whole list; what is remembered or being passed on are the
   data of the last fireWith; without memory every pass comes from one fireWith.
   */
  predicate Counts(o: Options, s: State)
  {
    && s.h.roundPass <= s.h.passes
    && (s.h.passes == s.h.roundPass ==> s.h.from == 0)
    && (s.memory.Some? ==> IsLatest(s.h, s.memory.value))
    && (s.firing ==> IsLatest(s.h, s.h.data))
    && (!o.memory ==> s.h.passes == |s.h.started| && s.h.from == 0)
  }

  /** p places of the list are behind the running pass. */
  predicate FiringAt(s: State, p: int)
  {
    && s.fired && 0 <= p
    && (s.list.Some? ==>
          && s.firingLength == |s.list.value| && StillToCome(s, p)
          && (s.h.calm ==> p <= |s.list.value| && Passed(s, p)))
  }

  /** The invariant of every event; firing implies firingLength == list.length. */
  predicate Inv(o: Options, s: State)
  {
    && Base(o, s) && Counts(o, s)
    && s.firingStart == 0
    && (!s.fired ==> s.h.accepted == [])
    && (s.firing ==> FiringAt(s, s.firingIndex + 1))
    && (!s.firing && s.stack.Some? ==> s.stack.value == [])
  }

  /** The call made next belongs at the end of the log. */
  lemma InvokeInOrder(o: Options, s: State)
    requires Base(o, s) && Counts(o, s) && s.firing && FiringAt(s, s.firingIndex) && Invokes(s)
    ensures var log := Invoke(s).h.log;
            && PassesInOrder(log, s.h.passes, s.h.nextSerial) && DataInOrder(log, s.h.started)
            && (!o.memory ==> RoundIsPass(log))
  {
    hide Passed, Fifo;
    assert s.list.value[s.firingIndex].serial < s.h.nextSerial;
  }

  /** The place called is behind the pass, the places after it are still to come. */
  lemma InvokePasses(s: State)
    requires s.firing && FiringAt(s, s.firingIndex) && Invokes(s)
    requires Ordered(s.list.value, s.h.nextSerial)
    ensures FiringAt(Invoke(s), s.firingIndex + 1)
  {
    var s' := Invoke(s);
    assert s'.h.log[|s.h.log|].entry == s.list.value[s.firingIndex];
    forall k | 0 <= k < |s.list.value| && k < s.firingIndex + 1 && s.h.from <= s.list.value[k].serial && s.h.calm
      ensures Called(s', s.list.value[k])
    {
      if k < s.firingIndex {
        assert Called(s, s.list.value[k]);
        var j :| 0 <= j < |s.h.log| && s.h.log[j].pass == s.h.passes && s.h.log[j].entry == s.list.value[k];
        assert s'.h.log[j] == s.h.log[j];
      }
    }
  }

  lemma InvokeKeeps(o: Options, s: State)
    requires Base(o, s) && Counts(o, s) && s.firing && s.firingStart == 0
    requires FiringAt(s, s.firingIndex) && Invokes(s)
    ensures Inv(o, Invoke(s))
  {
    InvokeInOrder(o, s);
    InvokePasses(s);
    hide PassesInOrder, DataInOrder, RoundIsPass, StillToCome, Passed, Ordered;
  }

  /** A new pass starts before the first place it covers. */
  lemma BeginKeeps(o: Options, s: State, data: Data, from: nat)
    requires Base(o, s) && s.list.Some? && from <= s.h.nextSerial
    requires s.firingStart <= |s.list.value|
    requires forall k :: 0 <= k < |s.list.value| ==> (s.firingStart <= k <==> from <= s.list.value[k].serial)
    requires IsLatest(s.h, data) && s.h.roundPass <= s.h.passes + 1
    requires s.h.roundPass == s.h.passes + 1 ==> from == 0
    requires !o.memory ==> from == 0 && |s.h.started| == s.h.passes + 1
    ensures var s' := Begin(o, s, data, from);
            Base(o, s') && Counts(o, s') && s'.firing && s'.firingStart == 0 && FiringAt(s', s'.firingIndex)
  {
  }

  lemma ShiftKeeps(o: Options, s: State)
    requires Base(o, s) && Queued(s)
    ensures Base(o, Shift(s))
  {
    var d, rest := s.stack.value[0], s.stack.value[1..];
    assert s.h.started + s.stack.value == s.h.started + [d] + rest;
    assert forall k :: 0 <= k < |s.h.started| ==> (s.h.started + [d])[k] == s.h.started[k];
  }

  lemma EndKeeps(o: Options, s: State)
    requires Base(o, s) && Counts(o, s) && s.firingStart == 0 && s.fired
    ensures Inv(o, End(o, s))
    decreases StackSize(s), 0
  {
    hide PassesInOrder, DataInOrder, FiringAt;
    var quiet := s.(firing := false);
    assert Base(o, quiet);
    if Queued(s) {
      ShiftKeeps(o, quiet);
      hide Base, Counts;
      BeginKeeps(o, Shift(quiet), s.stack.value[0], 0);
      ProceedKeeps(o, Begin(o, Shift(quiet), s.stack.value[0], 0));
    }
  }

  lemma ProceedKeeps(o: Options, s: State)
    requires Base(o, s) && Counts(o, s) && s.firing && s.firingStart == 0 && FiringAt(s, s.firingIndex)
    ensures Inv(o, Proceed(o, s))
    decreases StackSize(s), 1
  {
    hide Base, Counts, StillToCome, Passed;
    if Invokes(s) {
      InvokeKeeps(o, s);
    } else {
      EndKeeps(o, s);
    }
  }

  /* ---------- every event keeps it ---------- */

  /** The end of add during a pass. */
  function Extended(s: State): State
    requires s.list.Some?
  {
    if s.firing then s.(firingLength := |s.list.value|) else s
  }

  lemma PushKeeps(o: Options, s: State, fn: Fn)
    requires s.list.Some? && Inv(o, Extended(s))
    ensures Inv(o, Extended(Push(o, s, fn)))
  {
    hide HasFn, DataInOrder;
    var s' := Push(o, s, fn);
    if s.firing && s.h.calm && s' != s {
      var p := s.firingIndex + 1;
      forall k | 0 <= k < |s'.list.value| && k < p && s.h.from <= s'.list.value[k].serial
        ensures Called(s', s'.list.value[k])
      {
        assert s'.list.value[k] == s.list.value[k] && Called(Extended(s), s.list.value[k]);
      }
    }
  }

  lemma {:induction false} PushAllKeeps(o: Options, s: State, fns: seq<Fn>)
    requires s.list.Some? && Inv(o, Extended(s))
    ensures var r := PushAll(o, s, fns);
            && Inv(o, Extended(r))
            && |s.list.value| <= |r.list.value| && r.list.value[..|s.list.value|] == s.list.value
            && s.h.nextSerial <= r.h.nextSerial
            && (forall k :: |s.list.value| <= k < |r.list.value| ==> s.h.nextSerial <= r.list.value[k].serial)
            && r == s.(list := r.list, h := s.h.(nextSerial := r.h.nextSerial))
    decreases |fns|
  {
    hide Inv, HasFn;
    if fns != [] {
      PushKeeps(o, s, fns[0]);
      PushAllKeeps(o, Push(o, s, fns[0]), fns[1..]);
    }
  }

  lemma AddKeeps(o: Options, s: State, fns: seq<Fn>)
    requires Inv(o, s)
    ensures Inv(o, Add(o, s, fns))
  {
    if s.list.Some? {
      hide PassesInOrder, DataInOrder, StillToCome, Passed, Fifo;
      assert Extended(s) == s;
      PushAllKeeps(o, s, fns);
      var r := PushAll(o, s, fns);
      if !s.firing && s.memory.Some? {
        var r1 := r.(firingStart := |s.list.value|);
        assert Base(o, r1);
        hide Base, Counts, FiringAt;
        BeginKeeps(o, r1, s.memory.value, s.h.nextSerial);
        ProceedKeeps(o, Begin(o, r1, s.memory.value, s.h.nextSerial));
      }
    }
  }

  /** The place that stands at k after position r was spliced out. */
  function Source(r: nat, k: nat): nat
  {
    if k < r then k else k + 1
  }

  lemma RemoveAtPasses(s: State, r: nat)
    requires s.list.Some? && r < |s.list.value| && s.firing
    requires StillToCome(s, s.firingIndex + 1)
    ensures var s' := RemoveAt(s, r);
            && StillToCome(s', s'.firingIndex + 1)
            && (Passed(s, s.firingIndex + 1) ==> Passed(s', s'.firingIndex + 1))
  {
    var s' := RemoveAt(s, r);
    var list, list' := s.list.value, s'.list.value;
    forall k | 0 <= k < |list'|
      ensures list'[k] == list[Source(r, k)] && Called(s', list'[k]) == Called(s, list[Source(r, k)])
    {
    }
  }

  lemma RemoveAtKeeps(o: Options, s: State, r: nat)
    requires Inv(o, s) && s.list.Some? && r < |s.list.value|
    ensures Inv(o, RemoveAt(s, r))
  {
    hide PassesInOrder, DataInOrder, StillToCome, Passed, Called;
    var s' := RemoveAt(s, r);
    var list, list' := s.list.value, s'.list.value;
    forall k | 0 <= k < |list'|
      ensures list'[k] == list[Source(r, k)]
    {
    }
    assert Base(o, s');
    if s.firing {
      var p, p' := s.firingIndex + 1, s'.firingIndex + 1;
      assert forall k :: 0 <= k < |list'| ==> (p' <= k <==> p <= Source(r, k));
      RemoveAtPasses(s, r);
    }
  }

  lemma {:induction false} RemoveFnKeeps(o: Options, s: State, fn: Fn)
    requires Inv(o, s) && s.list.Some?
    ensures Inv(o, RemoveFn(s, fn)) && !HasFn(RemoveFn(s, fn).list.value, fn)
    decreases |s.list.value|
  {
    hide Inv;
    var k := IndexOf(s.list.value, fn);
    if k < |s.list.value| {
      RemoveAtKeeps(o, s, k);
      RemoveFnKeeps(o, RemoveAt(s, k), fn);
    }
  }

  lemma {:induction false} RemoveKeeps(o: Options, s: State, fns: seq<Fn>)
    requires Inv(o, s)
    ensures Inv(o, Remove(s, fns))
    decreases |fns|
  {
    hide Inv;
    if s.list.Some? && fns != [] {
      RemoveFnKeeps(o, s, fns[0]);
      RemoveKeeps(o, RemoveFn(s, fns[0]), fns[1..]);
    }
  }

  lemma EmptyKeeps(o: Options, s: State)
    requires Inv(o, s)
    ensures Inv(o, Empty(s))
  {
    hide PassesInOrder, DataInOrder, Called;
  }

  lemma DropKeeps(o: Options, s: State)
    requires Inv(o, s)
    ensures Inv(o, Disable(s)) && Inv(o, Lock(s))
  {
    hide PassesInOrder, DataInOrder, Ordered;
  }

  lemma QueueKeeps(o: Options, s: State, data: Data)
    requires Inv(o, s) && s.firing && s.stack.Some?
    ensures Inv(o, FireWith(o, s, data))
  {
    hide PassesInOrder, Ordered;
    assert s.h.started + (s.stack.value + [data]) == (s.h.started + s.stack.value) + [data];
  }

  lemma FireWithKeeps(o: Options, s: State, data: Data)
    requires Inv(o, s)
    ensures Inv(o, FireWith(o, s, data))
  {
    hide PassesInOrder, Ordered, Called;
    if s.list.Some? && !(s.fired && s.stack.None?) {
      if s.firing {
        QueueKeeps(o, s, data);
      } else {
        var s1 := s.(h := Started(s.h.(accepted := s.h.accepted + [data]), data));
        assert s.stack.Some? ==> s.stack.value == [] && s.h.started + [] == s.h.started;
        assert s.h.started == s.h.accepted;
        assert Base(o, s1);
        hide Base, Counts, FiringAt;
        BeginKeeps(o, s1, data, 0);
        ProceedKeeps(o, Begin(o, s1, data, 0));
      }
    }
  }

  lemma ReturnKeeps(o: Options, s: State, wasFalse: bool)
    requires Inv(o, s)
    ensures Inv(o, Return(o, s, wasFalse))
  {
    hide PassesInOrder, DataInOrder, Ordered;
    if s.firing {
      if wasFalse && o.stopOnFalse {
        EndKeeps(o, s.(memory := None));
      } else {
        ProceedKeeps(o, s.(firingIndex := s.firingIndex + 1));
      }
    }
  }

  lemma StepKeeps(o: Options, s: State, e: Event)
    requires Inv(o, s)
    ensures Inv(o, Step(o, s, e))
  {
    hide Inv;
    match e
    case EvAdd(fns) => AddKeeps(o, s, fns);
    case EvRemove(fns) => RemoveKeeps(o, s, fns);
    case EvFireWith(data) => FireWithKeeps(o, s, data);
    case EvEmpty => EmptyKeeps(o, s);
    case EvDisable => DropKeeps(o, s);
    case EvLock => DropKeeps(o, s);
    case EvReturn(wasFalse) => ReturnKeeps(o, s, wasFalse);
  }

  lemma {:induction false} RunKeeps(o: Options, s: State, events: seq<Event>)
    requires Inv(o, s)
    ensures Inv(o, Run(o, s, events))
    decreases |events|
  {
    hide Inv, Step;
    if events != [] {
      StepKeeps(o, s, events[0]);
      RunKeeps(o, Step(o, s, events[0]), events[1..]);
    }
  }

  lemma InitialKeeps(o: Options)
    ensures Inv(o, Initial(o))
  {
  }

  /**
   Every run of every list: calls of different passes do not interleave, within a pass no place is
   called twice and the order is that of the list; fireWith calls begin their passes first in,
   first out, and every call passes the data of the last one that did; the pass of a fireWith covers
   the whole list. Without memory there are no other passes.
   */
  lemma EveryRun(o: Options, events: seq<Event>)
    ensures var s := Run(o, Initial(o), events);
            && PassesInOrder(s.h.log, s.h.passes, s.h.nextSerial)
            && s.h.started <= s.h.accepted
            && (s.stack.Some? ==> s.h.started + s.stack.value == s.h.accepted)
            && DataInOrder(s.h.log, s.h.accepted)
            && (s.memory.Some? ==> IsLatest(s.h, s.memory.value))
            && (s.h.passes == s.h.roundPass ==> s.h.from == 0)
            && (!o.memory ==> RoundIsPass(s.h.log) && s.h.from == 0)
  {
    hide Run, PassesInOrder;
    InitialKeeps(o);
    RunKeeps(o, Initial(o), events);
  }

  /** A pass that runs off the end of its list has called every place it covers. */
  lemma PassIsComplete(o: Options, s: State, k: nat)
    requires Inv(o, s) && s.firing && s.list.Some? && s.h.calm
    requires s.firingIndex + 1 == s.firingLength
    requires k < |s.list.value| && s.h.from <= s.list.value[k].serial
    ensures Called(s, s.list.value[k])
  {
  }

  /** The j-th call is that of place k in the current pass. */
  predicate CallOf(s: State, j: nat, k: nat)
    requires s.list.Some? && k < |s.list.value| && j < |s.h.log|
  {
    s.h.log[j].pass == s.h.passes && s.h.log[j].entry == s.list.value[k]
  }

  /**
   At the end of a pass, after any history: every place in the list that the pass covers, whether it
   was there from the start or added during the pass, was called in this pass exactly once. The
   pass of a fireWith covers every place.
   */
  lemma WholePass(o: Options, events: seq<Event>, k: nat)
    requires var s := Run(o, Initial(o), events);
             && s.firing && s.list.Some? && s.h.calm && s.firingIndex + 1 == s.firingLength && k < |s.list.value|
             && (s.h.passes == s.h.roundPass || s.h.from <= s.list.value[k].serial)
    ensures var s := Run(o, Initial(o), events);
            exists j :: 0 <= j < |s.h.log| && CallOf(s, j, k)
              && forall i :: 0 <= i < |s.h.log| && CallOf(s, i, k) ==> i == j
  {
    hide Run;
    InitialKeeps(o);
    RunKeeps(o, Initial(o), events);
    var s := Run(o, Initial(o), events);
    PassIsComplete(o, s, k);
    var j :| 0 <= j < |s.h.log| && s.h.log[j].pass == s.h.passes && s.h.log[j].entry == s.list.value[k];
    assert CallOf(s, j, k);
  }

  /** The place that is being called and those that are still to come in the pass. */
  function RestOfPass(s: State): seq<Entry>
  {
    if s.firing && s.list.Some? && 0 <= s.firingIndex <= |s.list.value| then s.list.value[s.firingIndex..] else []
  }

  /** What add leaves in the list: every function given is there, and the rest of the list is as it was. */
  lemma {:induction false} PushAllHas(o: Options, s: State, fns: seq<Fn>)
    requires s.list.Some?
    ensures var list, longer := s.list.value, PushAll(o, s, fns).list.value;
            && |list| <= |longer| && longer[..|list|] == list
            && (forall f <- fns :: HasFn(longer, f))
            && (forall k :: |list| <= k < |longer| ==> longer[k].fn in fns)
            && (list == [] && fns != [] ==> longer != [])
    decreases |fns|
  {
    if fns != [] {
      var s1 := Push(o, s, fns[0]);
      var list, list1 := s.list.value, s1.list.value;
      assert s1 != s ==> list1[|list|].fn == fns[0];
      assert HasFn(list1, fns[0]);
      PushAllHas(o, s1, fns[1..]);
      var longer := PushAll(o, s, fns).list.value;
      assert longer[..|list|] == longer[..|list1|][..|list|];
      var k :| 0 <= k < |list1| && list1[k].fn == fns[0];
      assert longer[k] == longer[..|list1|][k];
      forall j | |list| <= j < |longer|
        ensures longer[j].fn in fns
      {
        if j < |list1| {
          assert longer[j] == longer[..|list1|][j];
        }
      }
    }
  }

  /** The places add puts at the end of the list. */
  function AddedPlaces(o: Options, s: State, fns: seq<Fn>): seq<Entry>
    requires s.list.Some?
  {
    var n, longer := |s.list.value|, PushAll(o, s, fns).list.value;
    if n <= |longer| then longer[n..] else []
  }

  /** In a list with memory, add calls the new places at once, with the data remembered, and only these. */
  lemma AddWithMemory(o: Options, s: State, fns: seq<Fn>)
    requires Inv(o, s) && s.list.Some? && !s.firing && s.memory.Some?
    ensures var t, added := Add(o, s, fns), AddedPlaces(o, s, fns);
            if added == [] then !t.firing && t.h.log == s.h.log
            else
              && RestOfPass(t) == added && t.h.data == s.memory.value && t.h.from == s.h.nextSerial
              && t.h.log == s.h.log + [Call(s.h.passes + 1, |s.h.started|, s.memory.value, added[0])]
  {
    hide PassesInOrder, DataInOrder, Ordered;
    assert Extended(s) == s;
    PushAllKeeps(o, s, fns);
    var pushed := PushAll(o, s, fns);
    var begun := Begin(o, pushed.(firingStart := |s.list.value|), s.memory.value, s.h.nextSerial);
    if !Invokes(begun) {
      assert AddedPlaces(o, s, fns) == [];
      assert Proceed(o, begun) == End(o, begun);
    }
  }

  /** The end of a pass calls nothing more in that pass. */
  lemma {:induction false} EndPasses(o: Options, s: State)
    ensures var t := End(o, s);
            t.h.passes >= s.h.passes && (t.firing ==> t.h.passes > s.h.passes)
    decreases StackSize(s)
  {
    if Queued(s) {
      var s1 := Begin(o, Shift(s.(firing := false)), s.stack.value[0], 0);
      if !Invokes(s1) {
        EndPasses(o, s1);
      }
    }
  }

  /** With stopOnFalse, a callback that returns false is the last of its pass. */
  lemma StopOnFalseEnds(o: Options, s: State)
    requires o.stopOnFalse && s.firing
    ensures var t := Return(o, s, true); t.firing ==> t.h.passes > s.h.passes
  {
    EndPasses(o, s.(memory := None));
  }

  lemma {:induction false} PushAllLeaves(o: Options, s: State, fns: seq<Fn>)
    requires s.list.Some?
    ensures var r := PushAll(o, s, fns);
            && r == s.(list := r.list, h := s.h.(nextSerial := r.h.nextSerial))
    decreases |fns|
  {
    if fns != [] {
      PushAllLeaves(o, Push(o, s, fns[0]), fns[1..]);
    }
  }

  /** It also makes the list forget: while no fireWith is waiting, what is added then is not called. */
  lemma FalseForgets(o: Options, s: State, fns: seq<Fn>)
    requires Inv(o, s) && o.stopOnFalse && s.firing && !Queued(s)
    ensures var t := Return(o, s, true);
            && !t.firing && t.memory.None? && t.h.log == s.h.log
            && !Add(o, t, fns).firing && Add(o, t, fns).h.log == s.h.log
  {
    hide PushAll, Inv;
    var t := Return(o, s, true);
    if t.list.Some? {
      PushAllLeaves(o, t, fns);
    }
  }

  /* ---------- a place that left the list ---------- */

  predicate Gone(s: State, e: Entry)
  {
    e.serial < s.h.nextSerial && (s.list.Some? ==> e !in s.list.value)
  }

  /** From s to t nobody called e. */
  predicate NotCalledBetween(s: State, t: State, e: Entry)
  {
    && |s.h.log| <= |t.h.log|
    && t.h.log[..|s.h.log|] == s.h.log
    && forall k :: |s.h.log| <= k < |t.h.log| ==> t.h.log[k].entry != e
  }

  lemma EndGone(o: Options, s: State, e: Entry)
    requires Gone(s, e)
    ensures Gone(End(o, s), e) && NotCalledBetween(s, End(o, s), e)
    decreases StackSize(s), 0
  {
    if Queued(s) {
      ProceedGone(o, Begin(o, Shift(s.(firing := false)), s.stack.value[0], 0), e);
    }
  }

  lemma ProceedGone(o: Options, s: State, e: Entry)
    requires Gone(s, e)
    ensures Gone(Proceed(o, s), e) && NotCalledBetween(s, Proceed(o, s), e)
    decreases StackSize(s), 1
  {
    if !Invokes(s) {
      EndGone(o, s, e);
    }
  }

  lemma {:induction false} PushAllGone(o: Options, s: State, fns: seq<Fn>, e: Entry)
    requires s.list.Some? && Gone(s, e)
    ensures Gone(PushAll(o, s, fns), e) && PushAll(o, s, fns).h.log == s.h.log
    decreases |fns|
  {
    if fns != [] {
      PushAllGone(o, Push(o, s, fns[0]), fns[1..], e);
    }
  }

  lemma {:induction false} RemoveFnGone(s: State, fn: Fn, e: Entry)
    requires s.list.Some? && Gone(s, e)
    ensures Gone(RemoveFn(s, fn), e) && RemoveFn(s, fn).h == s.h
    decreases |s.list.value|
  {
    var k := IndexOf(s.list.value, fn);
    if k < |s.list.value| {
      RemoveFnGone(RemoveAt(s, k), fn, e);
    }
  }

  lemma {:induction false} RemoveGone(s: State, fns: seq<Fn>, e: Entry)
    requires Gone(s, e)
    ensures Gone(Remove(s, fns), e) && Remove(s, fns).h == s.h
    decreases |fns|
  {
    hide RemoveFn;
    if s.list.Some? && fns != [] {
      RemoveFnGone(s, fns[0], e);
      RemoveGone(RemoveFn(s, fns[0]), fns[1..], e);
    }
  }

  lemma StepGone(o: Options, s: State, e: Entry, event: Event)
    requires Gone(s, e)
    ensures Gone(Step(o, s, event), e) && NotCalledBetween(s, Step(o, s, event), e)
  {
    hide Proceed, End, PushAll;
    match event
    case EvAdd(fns) =>
      if s.list.Some? {
        PushAllGone(o, s, fns, e);
        var pushed := PushAll(o, s, fns);
        if !s.firing && s.memory.Some? {
          ProceedGone(o, Begin(o, pushed.(firingStart := |s.list.value|), s.memory.value, s.h.nextSerial), e);
        }
      }
    case EvRemove(fns) => RemoveGone(s, fns, e);
    case EvFireWith(data) =>
      if s.list.Some? && !(s.fired && s.stack.None?) && !(s.firing && s.stack.Some?) {
        var s1 := s.(h := Started(s.h.(accepted := s.h.accepted + [data]), data));
        ProceedGone(o, Begin(o, s1, data, 0), e);
      }
    case EvReturn(wasFalse) =>
      if s.firing {
        EndGone(o, s.(memory := None), e);
        ProceedGone(o, s.(firingIndex := s.firingIndex + 1), e);
      }
    case _ =>
  }

  /** A place removed before its turn is never called, in this pass or a later one. */
  lemma {:induction false} RemovedIsNeverCalled(o: Options, s: State, e: Entry, events: seq<Event>)
    requires Gone(s, e)
    ensures Gone(Run(o, s, events), e) && NotCalledBetween(s, Run(o, s, events), e)
    decreases |events|
  {
    hide Gone, Step;
    if events != [] {
      var s1 := Step(o, s, events[0]);
      StepGone(o, s, e, events[0]);
      RemovedIsNeverCalled(o, s1, e, events[1..]);
      var s2 := Run(o, s1, events[1..]);
      assert s2.h.log[..|s.h.log|] == s2.h.log[..|s1.h.log|][..|s.h.log|];
      forall k | |s.h.log| <= k < |s2.h.log|
        ensures s2.h.log[k].entry != e
      {
        if k < |s1.h.log| {
          assert s2.h.log[k] == s2.h.log[..|s1.h.log|][k];
        }
      }
    }
  }

  lemma {:induction false} RemoveFnSerial(s: State, fn: Fn)
    requires s.list.Some?
    ensures RemoveFn(s, fn).h == s.h
    decreases |s.list.value|
  {
    var k := IndexOf(s.list.value, fn);
    if k < |s.list.value| {
      RemoveFnSerial(RemoveAt(s, k), fn);
    }
  }

  /** remove takes every place of the function out of the list. */
  lemma RemoveTakesOut(o: Options, s: State, fn: Fn, e: Entry)
    requires Inv(o, s) && s.list.Some? && e in s.list.value && e.fn == fn
    ensures Gone(RemoveFn(s, fn), e)
  {
    var k :| 0 <= k < |s.list.value| && s.list.value[k] == e;
    RemoveFnKeeps(o, s, fn);
    RemoveFnSerial(s, fn);
    assert !HasFn(RemoveFn(s, fn).list.value, fn);
  }

  /* ---------- empty() during a pass ---------- */

  lemma {:induction false} PushAllPlain(o: Options, s: State, fns: seq<Fn>)
    requires s.list.Some? && !o.unique
    ensures var r, n := PushAll(o, s, fns), |s.list.value|;
            && |r.list.value| == n + |fns| && r.list.value[..n] == s.list.value
            && (forall k :: 0 <= k < |fns| ==> r.list.value[n + k] == Entry(fns[k], s.h.nextSerial + k))
            && r == s.(list := r.list, h := s.h.(nextSerial := s.h.nextSerial + |fns|))
    decreases |fns|
  {
    if fns != [] {
      var s1 := Push(o, s, fns[0]);
      PushAllPlain(o, s1, fns[1..]);
      var r, n := PushAll(o, s, fns), |s.list.value|;
      assert r.list.value[..n] == r.list.value[..n + 1][..n];
      assert r.list.value[n] == r.list.value[..n + 1][n];
      forall k | 0 <= k < |fns|
        ensures r.list.value[n + k] == Entry(fns[k], s.h.nextSerial + k)
      {
        if k > 0 {
          assert r.list.value[n + 1 + (k - 1)] == Entry(fns[1..][k - 1], s1.h.nextSerial + (k - 1));
        }
      }
    }
  }

  /**
   After empty() all functions added next are the rest of the running pass exactly when firingIndex
   is -1, that is when the running callback took itself and all before it out of the list first.
   */
  lemma EmptyIsSafeIff(o: Options, s: State, fns: seq<Fn>)
    requires Inv(o, s) && s.firing && fns != []
    ensures var a := Add(o, Empty(s), fns);
            var t := Return(o, a, false);
            && a.list.Some? && a.list.value != [] && (forall f <- fns :: HasFn(a.list.value, f))
            && ((t.h.passes == s.h.passes && RestOfPass(t) == a.list.value) <==> s.firingIndex == -1)
  {
    hide PassesInOrder, Passed, StillToCome, Ordered, DataInOrder, Fifo, HasFn;
    EmptyKeeps(o, s);
    assert Extended(Empty(s)) == Empty(s);
    PushAllKeeps(o, Empty(s), fns);
    PushAllHas(o, Empty(s), fns);
    var a := Add(o, Empty(s), fns);
    var t1 := a.(firingIndex := a.firingIndex + 1);
    assert Return(o, a, false) == Proceed(o, t1);
    if !Invokes(t1) {
      EndPasses(o, t1);
    } else {
      assert |RestOfPass(Invoke(t1))| == |a.list.value| - t1.firingIndex;
    }
  }

  lemma RunOne(o: Options, s: State, e: Event, rest: seq<Event>)
    ensures Run(o, s, [e] + rest) == Run(o, Step(o, s, e), rest)
  {
    hide Step;
    assert ([e] + rest)[1..] == rest;
  }

  lemma RunFive(o: Options, s: State, e1: Event, e2: Event, e3: Event, e4: Event, e5: Event)
    ensures Run(o, s, [e1, e2, e3, e4, e5]) == Step(o, Step(o, Step(o, Step(o, Step(o, s, e1), e2), e3), e4), e5)
  {
    hide Step;
    var s1 := Step(o, s, e1);
    var s2 := Step(o, s1, e2);
    var s3 := Step(o, s2, e3);
    var s4 := Step(o, s3, e4);
    RunOne(o, s, e1, [e2, e3, e4, e5]);
    RunOne(o, s1, e2, [e3, e4, e5]);
    RunOne(o, s2, e3, [e4, e5]);
    RunOne(o, s3, e4, [e5]);
    RunOne(o, s4, e5, []);
    assert [e4] + [e5] == [e4, e5];
    assert [e3] + [e4, e5] == [e3, e4, e5];
    assert [e2] + [e3, e4, e5] == [e2, e3, e4, e5];
    assert [e1] + [e2, e3, e4, e5] == [e1, e2, e3, e4, e5];
    assert [e5] + [] == [e5];
  }

  /** a and b are in the list; a empties the list and adds c: c is not called in that pass. */
  lemma EmptyTrap(a: Fn, b: Fn, c: Fn, data: Data)
    ensures var o := Options(false, false, false, false);
            var s := Run(o, Initial(o), [EvAdd([a, b]), EvFireWith(data), EvEmpty, EvAdd([c]), EvReturn(false)]);
            !s.firing && s.list == Some([Entry(c, 2)]) && s.h.log == [Call(1, 1, data, Entry(a, 0))]
  {
    var o := Options(false, false, false, false);
    var s0 := Initial(o);
    PushAllPlain(o, s0, [a, b]);
    var s1 := Add(o, s0, [a, b]);
    assert s1.list.value[0 + 0] == Entry(a, 0) && s1.list.value[0 + 1] == Entry(b, 1);
    assert s1.list.value == [Entry(a, 0), Entry(b, 1)];
    assert s1 == s0.(list := Some([Entry(a, 0), Entry(b, 1)]), h := s0.h.(nextSerial := 2));
    var s2 := FireWith(o, s1, data);
    assert s2.h.log == [Call(1, 1, data, Entry(a, 0))];
    var s3 := Empty(s2);
    PushAllPlain(o, s3, [c]);
    var s4 := Add(o, s3, [c]);
    assert s4.list.value[0 + 0] == Entry(c, 2);
    assert s4.list.value == [Entry(c, 2)];
    assert Return(o, s4, false) == End(o, s4.(firingIndex := 1));
    RunFive(o, s0, EvAdd([a, b]), EvFireWith(data), EvEmpty, EvAdd([c]), EvReturn(false));
  }

  /* ---------- lock() and disable() ---------- */

  /** Nothing changed in what was accepted and called. */
  predicate Silent(s: State, t: State)
  {
    t.h.accepted == s.h.accepted && t.h.log == s.h.log
  }

  lemma {:induction false} RemoveFnLeaves(s: State, fn: Fn)
    requires s.list.Some?
    ensures var r := RemoveFn(s, fn);
            && r.h == s.h && r.stack == s.stack && r.memory == s.memory && r.firing == s.firing && r.fired == s.fired
    decreases |s.list.value|
  {
    var k := IndexOf(s.list.value, fn);
    if k < |s.list.value| {
      RemoveFnLeaves(RemoveAt(s, k), fn);
    }
  }

  lemma {:induction false} RemoveLeaves(s: State, fns: seq<Fn>)
    ensures var r := Remove(s, fns);
            && r.h == s.h && r.list.Some? == s.list.Some? && r.stack == s.stack && r.memory == s.memory
            && r.firing == s.firing && r.fired == s.fired
    decreases |fns|
  {
    hide RemoveFn;
    if s.list.Some? && fns != [] {
      RemoveFnLeaves(s, fns[0]);
      RemoveLeaves(RemoveFn(s, fns[0]), fns[1..]);
    }
  }

  /** Beginning and ending passes takes no new fireWith. */
  lemma {:induction false} ProceedAccepts(o: Options, s: State)
    ensures Proceed(o, s).h.accepted == s.h.accepted && End(o, s).h.accepted == s.h.accepted
    decreases StackSize(s)
  {
    if Queued(s) {
      ProceedAccepts(o, Begin(o, Shift(s.(firing := false)), s.stack.value[0], 0));
    }
  }

  /** Where disable() leaves a list that is quiet: it remembers nothing, and takes no fireWith. */
  predicate Dead(s: State)
  {
    !s.firing && s.stack.None? && s.memory.None? && (s.list.None? || s.fired)
  }

  lemma DeadStep(o: Options, s: State, e: Event)
    requires Dead(s) && (s.fired || !e.EvEmpty?)
    ensures Dead(Step(o, s, e)) && Silent(s, Step(o, s, e)) && Step(o, s, e).fired == s.fired
  {
    hide RemoveFn, PushAll;
    match e
    case EvAdd(fns) =>
      if s.list.Some? {
        PushAllLeaves(o, s, fns);
      }
    case EvRemove(fns) => RemoveLeaves(s, fns);
    case _ =>
  }

  lemma {:induction false} DeadStays(o: Options, s: State, events: seq<Event>)
    requires Dead(s) && (s.fired || EvEmpty !in events)
    ensures Dead(Run(o, s, events)) && Silent(s, Run(o, s, events))
    decreases |events|
  {
    hide Step;
    if events != [] {
      DeadStep(o, s, events[0]);
      DeadStays(o, Step(o, s, events[0]), events[1..]);
    }
  }

  lemma RevivedTakes(o: Options, s: State, data: Data)
    requires s.list.Some? && !s.fired && !s.firing
    ensures FireWith(o, s, data).h.accepted == s.h.accepted + [data]
  {
    var s1 := s.(h := s.h.(accepted := s.h.accepted + [data]));
    ProceedAccepts(o, Begin(o, s1.(h := Started(s1.h, data)), data, 0));
  }

  lemma RunNone(o: Options, s: State)
    ensures Run(o, s, []) == s
  {
  }

  /**
   A quiet list that is disabled takes no fireWith and calls nothing any more, whatever happens to it,
   if and only if it has fired before; otherwise empty() brings it back.
   */
  lemma DisableIsFinalIff(o: Options, s: State)
    requires Inv(o, s) && !s.firing
    ensures s.fired <==> forall events :: Silent(s, Run(o, s, [EvDisable] + events))
  {
    hide Run, FireWith;
    forall events
      ensures s.fired ==> Silent(s, Run(o, s, [EvDisable] + events))
    {
      RunOne(o, s, EvDisable, events);
      if s.fired {
        DeadStays(o, Disable(s), events);
      }
    }
    if !s.fired {
      var t := Disable(s);
      var events := [EvEmpty, EvFireWith(0)];
      RevivedTakes(o, Empty(t), 0);
      RunOne(o, s, EvDisable, events);
      RunOne(o, t, EvEmpty, [EvFireWith(0)]);
      RunOne(o, Empty(t), EvFireWith(0), []);
      assert [EvEmpty] + [EvFireWith(0)] == events && [EvFireWith(0)] + [] == [EvFireWith(0)];
      assert Run(o, FireWith(o, Empty(t), 0), []) == FireWith(o, Empty(t), 0) by {
        RunNone(o, FireWith(o, Empty(t), 0));
      }
      assert !Silent(s, Run(o, s, [EvDisable] + events));
    }
  }

  /** Without empty() disable() is final for every quiet list. */
  lemma DisabledWithoutEmpty(o: Options, s: State, events: seq<Event>)
    requires Inv(o, s) && !s.firing && EvEmpty !in events
    ensures Silent(s, Run(o, s, [EvDisable] + events))
  {
    hide Run;
    RunOne(o, s, EvDisable, events);
    DeadStays(o, Disable(s), events);
  }

  /** Where lock() and disable() leave a list that has fired: it takes no fireWith. */
  predicate Locked(o: Options, s: State)
  {
    s.fired && s.stack.None? && (s.memory.Some? ==> o.memory)
  }

  /** From s to t no fireWith was taken or began a pass, and every call has the data of the last before. */
  predicate OnlyRemembered(s: State, t: State)
  {
    && t.h.accepted == s.h.accepted && t.h.started == s.h.started && s.h.log <= t.h.log
    && forall k :: |s.h.log| <= k < |t.h.log| ==> t.h.log[k].round == |s.h.started|
  }

  lemma LockedProceeds(o: Options, s: State)
    requires s.stack.None?
    ensures OnlyRemembered(s, Proceed(o, s)) && OnlyRemembered(s, End(o, s))
    ensures Proceed(o, s).stack.None? && End(o, s).stack.None? && Proceed(o, s).fired == End(o, s).fired == s.fired
    ensures s.memory.Some? && s.list.Some? ==>
              && Proceed(o, s).memory == End(o, s).memory == s.memory
              && Proceed(o, s).list.Some? && End(o, s).list.Some?
    ensures Proceed(o, s).memory.Some? || End(o, s).memory.Some? ==> s.memory.Some?
  {
  }

  /** Events after which a locked list still remembers. */
  predicate Remembering(o: Options, e: Event)
  {
    !e.EvDisable? && !(o.stopOnFalse && e == EvReturn(true))
  }

  lemma LockedStep(o: Options, s: State, e: Event)
    requires Locked(o, s)
    ensures var t := Step(o, s, e);
            && Locked(o, t) && OnlyRemembered(s, t)
            && (s.memory.Some? && s.list.Some? && Remembering(o, e) ==> t.memory == s.memory && t.list.Some?)
  {
    hide RemoveFn, PushAll, Proceed, End;
    assert s.h.log + [] == s.h.log;
    match e
    case EvAdd(fns) =>
      if s.list.Some? {
        PushAllLeaves(o, s, fns);
        var pushed := PushAll(o, s, fns);
        if !s.firing && s.memory.Some? {
          LockedProceeds(o, Begin(o, pushed.(firingStart := |s.list.value|), s.memory.value, s.h.nextSerial));
        }
      }
    case EvRemove(fns) => RemoveLeaves(s, fns);
    case EvReturn(wasFalse) =>
      LockedProceeds(o, s.(memory := None));
      LockedProceeds(o, s.(firingIndex := s.firingIndex + 1));
    case _ =>
  }

  lemma RememberedTwice(s: State, t: State, u: State)
    requires OnlyRemembered(s, t) && OnlyRemembered(t, u)
    ensures OnlyRemembered(s, u)
  {
    assert forall k :: 0 <= k < |t.h.log| ==> u.h.log[k] == t.h.log[k];
  }

  lemma {:induction false} LockedStays(o: Options, s: State, events: seq<Event>)
    requires Locked(o, s)
    ensures var t := Run(o, s, events);
            && Locked(o, t) && OnlyRemembered(s, t)
            && (s.memory.Some? && s.list.Some? && (forall e <- events :: Remembering(o, e)) ==>
                  t.memory == s.memory && t.list.Some?)
    decreases |events|
  {
    hide Step, Locked, Remembering;
    if events == [] {
      assert s.h.log <= s.h.log;
    } else {
      var s1 := Step(o, s, events[0]);
      LockedStep(o, s, events[0]);
      LockedStays(o, s1, events[1..]);
      RememberedTwice(s, s1, Run(o, s1, events[1..]));
    }
  }

  /**
   A list that has fired takes no fireWith after lock() or disable(), whatever happens to it, not even
   those waiting; every call still made passes the data remembered.
   */
  lemma LockIsFinal(o: Options, s: State, e: Event, events: seq<Event>)
    requires Inv(o, s) && s.fired && (e == EvLock || e == EvDisable)
    ensures var t := Run(o, s, [e] + events);
            && OnlyRemembered(s, t)
            && (forall k :: |s.h.log| <= k < |t.h.log| ==> IsLatest(s.h, t.h.log[k].data))
            && (s.memory.Some? ==> IsLatest(s.h, s.memory.value))
            && (!s.firing && (s.memory.None? || e == EvDisable) ==> t.h.log == s.h.log)
  {
    hide Run, PassesInOrder, StillToCome, Passed, Ordered;
    var s1 := Step(o, s, e);
    RunOne(o, s, e, events);
    RunKeeps(o, s, [e] + events);
    assert s.h.log + [] == s.h.log && OnlyRemembered(s, s1);
    LockedStays(o, s1, events);
    RememberedTwice(s, s1, Run(o, s1, events));
    if !s.firing && (s.memory.None? || e == EvDisable) {
      DeadStays(o, s1, events);
    }
  }

  /** Locking a list that never fired is disabling it. */
  lemma LockIsDisable(o: Options, s: State, events: seq<Event>)
    requires Inv(o, s) && !s.fired
    ensures Run(o, s, [EvLock] + events) == Run(o, s, [EvDisable] + events)
  {
    hide Run;
    RunOne(o, s, EvLock, events);
    RunOne(o, s, EvDisable, events);
  }

  /** A locked list with memory goes on calling what is added to it, with the data remembered. */
  lemma LockedStillCalls(o: Options, s: State, events: seq<Event>, fns: seq<Fn>)
    requires Inv(o, s) && s.memory.Some? && s.list.Some? && (forall e <- events :: Remembering(o, e))
    requires !Run(o, s, [EvLock] + events).firing
    ensures var t := Run(o, s, [EvLock] + events);
            && t.list.Some?
            && var u, added := Add(o, t, fns), AddedPlaces(o, t, fns);
               if added == [] then u.h.log == t.h.log
               else
                 && RestOfPass(u) == added && u.h.data == s.memory.value
                 && u.h.log == t.h.log + [Call(t.h.passes + 1, |t.h.started|, s.memory.value, added[0])]
  {
    hide Run, Add, AddedPlaces, RestOfPass, PassesInOrder, StillToCome, Passed, Ordered;
    RunOne(o, s, EvLock, events);
    RunKeeps(o, s, [EvLock] + events);
    LockedStays(o, Lock(s), events);
    AddWithMemory(o, Run(o, s, [EvLock] + events), fns);
  }

  /* ---------- one whole pass, once and unique ---------- */

  function Returns(answers: seq<bool>): (events: seq<Event>)
    ensures |events| == |answers|
  {
    seq(|answers|, k requires 0 <= k < |answers| => EvReturn(answers[k]))
  }

  /** The calls of a pass over the places of the list from i on. */
  function CallsFrom(s: State, i: nat): seq<Call>
    requires s.list.Some? && i <= |s.list.value|
  {
    seq(|s.list.value| - i,
        k requires 0 <= k < |s.list.value| - i => Call(s.h.passes, |s.h.started|, s.h.data, s.list.value[i + k]))
  }

  /** What becomes of the list when a pass has ended and none is waiting. */
  function ListAfter(s: State): Option<seq<Entry>>
  {
    if s.stack.Some? then s.list else if s.memory.Some? then Some([]) else None
  }

  lemma EndsQuiet(o: Options, s: State)
    requires s.list.Some? && !Queued(s)
    ensures var t := End(o, s); t.h == s.h && !t.firing && t.list == ListAfter(s)
  {
  }

  /** A running pass whose callbacks return, calling nothing themselves, runs to the end of the list. */
  lemma {:induction false} PassGoesOn(o: Options, s: State, answers: seq<bool>)
    requires s.firing && s.list.Some? && 0 <= s.firingIndex < |s.list.value| == s.firingLength
    requires s.stack.None? || s.stack == Some([])
    requires |answers| == |s.list.value| - s.firingIndex && (o.stopOnFalse ==> true !in answers)
    ensures var t := Run(o, s, Returns(answers));
            && t.h.log == s.h.log + CallsFrom(s, s.firingIndex + 1)
            && !t.firing && t.list == ListAfter(s)
    decreases |answers|
  {
    var s1 := Return(o, s, answers[0]);
    assert Returns(answers) == [EvReturn(answers[0])] + Returns(answers[1..]);
    RunOne(o, s, EvReturn(answers[0]), Returns(answers[1..]));
    var next := s.(firingIndex := s.firingIndex + 1);
    assert answers[0] in answers && s1 == Proceed(o, next);
    if Invokes(next) {
      PassGoesOn(o, s1, answers[1..]);
      assert CallsFrom(s, s.firingIndex + 1) == [s1.h.log[|s.h.log|]] + CallsFrom(s1, s1.firingIndex + 1);
    } else {
      assert answers[1..] == [] && Returns(answers[1..]) == [];
      RunNone(o, s1);
      assert s1 == End(o, next);
      EndsQuiet(o, next);
      assert CallsFrom(s, s.firingIndex + 1) == [];
      assert s.h.log + [] == s.h.log;
    }
  }

  /**
   fireWith on a quiet list calls every place once, in order, with its data, when the callbacks only
   return; the list is kept for more, kept empty for its memory, or given up.
   */
  lemma FireCallsAll(o: Options, s: State, data: Data, answers: seq<bool>)
    requires Inv(o, s) && !s.firing && s.list.Some? && !(s.fired && s.stack.None?)
    requires |answers| == |s.list.value| && (o.stopOnFalse ==> true !in answers)
    ensures var t := Run(o, s, [EvFireWith(data)] + Returns(answers));
            && |t.h.log| == |s.h.log| + |s.list.value| && s.h.log <= t.h.log
            && (forall k :: 0 <= k < |s.list.value| ==>
                  t.h.log[|s.h.log| + k] == Call(s.h.passes + 1, |s.h.started| + 1, data, s.list.value[k]))
            && !t.firing
            && t.list == if s.stack.Some? then s.list else if o.memory then Some([]) else None
  {
    hide Run, PassesInOrder, DataInOrder, Ordered;
    RunOne(o, s, EvFireWith(data), Returns(answers));
    var s1 := s.(h := Started(s.h.(accepted := s.h.accepted + [data]), data));
    var begun := Begin(o, s1, data, 0);
    if Invokes(begun) {
      PassGoesOn(o, Invoke(begun), answers);
    } else {
      assert Returns(answers) == [];
      RunNone(o, End(o, begun));
    }
  }

  predicate NoTwice(list: seq<Entry>)
  {
    forall j, k :: 0 <= j < k < |list| ==> list[j].fn != list[k].fn
  }

  lemma {:induction false} ProceedKeepsPlaces(o: Options, s: State)
    ensures Proceed(o, s).list.Some? ==> Proceed(o, s).list == s.list || Proceed(o, s).list == Some([])
    ensures End(o, s).list.Some? ==> End(o, s).list == s.list || End(o, s).list == Some([])
    decreases StackSize(s)
  {
    if Queued(s) {
      ProceedKeepsPlaces(o, Begin(o, Shift(s.(firing := false)), s.stack.value[0], 0));
    }
  }

  lemma {:induction false} PushAllOnce(o: Options, s: State, fns: seq<Fn>)
    requires o.unique && s.list.Some? && NoTwice(s.list.value)
    ensures NoTwice(PushAll(o, s, fns).list.value)
    decreases |fns|
  {
    if fns != [] {
      PushAllOnce(o, Push(o, s, fns[0]), fns[1..]);
    }
  }

  /** The places of other functions. */
  function Without(list: seq<Entry>, fn: Fn): (r: seq<Entry>)
    ensures forall e :: e in r <==> e in list && e.fn != fn
  {
    if list == [] then []
    else
      assert forall e :: e in list <==> e == list[0] || e in list[1..];
      (if list[0].fn == fn then [] else [list[0]]) + Without(list[1..], fn)
  }

  lemma {:induction false} WithoutAt(list: seq<Entry>, fn: Fn, k: nat)
    requires k < |list| && list[k].fn == fn && forall j :: 0 <= j < k ==> list[j].fn != fn
    ensures Without(list, fn) == Without(list[..k] + list[k + 1..], fn)
    decreases k
  {
    var rest := list[..k] + list[k + 1..];
    if k == 0 {
      assert rest == list[1..];
    } else {
      WithoutAt(list[1..], fn, k - 1);
      assert rest[0] == list[0] && rest[1..] == list[1..][..k - 1] + list[1..][k..];
    }
  }

  lemma {:induction false} WithoutNone(list: seq<Entry>, fn: Fn)
    requires forall j :: 0 <= j < |list| ==> list[j].fn != fn
    ensures Without(list, fn) == list
  {
    if list != [] {
      WithoutNone(list[1..], fn);
      assert list == [list[0]] + list[1..];
    }
  }

  /** remove leaves all places of other functions in the list, in their order. */
  lemma {:induction false} RemoveIsFilter(s: State, fn: Fn)
    requires s.list.Some?
    ensures RemoveFn(s, fn).list.value == Without(s.list.value, fn)
    decreases |s.list.value|
  {
    var k := IndexOf(s.list.value, fn);
    if k < |s.list.value| {
      WithoutAt(s.list.value, fn, k);
      RemoveIsFilter(RemoveAt(s, k), fn);
    } else {
      WithoutNone(s.list.value, fn);
    }
  }

  lemma {:induction false} RemoveFnOnce(s: State, fn: Fn)
    requires s.list.Some? && NoTwice(s.list.value)
    ensures NoTwice(RemoveFn(s, fn).list.value)
    decreases |s.list.value|
  {
    var k := IndexOf(s.list.value, fn);
    if k < |s.list.value| {
      RemoveFnOnce(RemoveAt(s, k), fn);
    }
  }

  lemma {:induction false} RemoveOnce(s: State, fns: seq<Fn>)
    requires s.list.Some? ==> NoTwice(s.list.value)
    ensures Remove(s, fns).list.Some? ==> NoTwice(Remove(s, fns).list.value)
    decreases |fns|
  {
    hide RemoveFn, NoTwice;
    if s.list.Some? && fns != [] {
      RemoveFnOnce(s, fns[0]);
      RemoveOnce(RemoveFn(s, fns[0]), fns[1..]);
    }
  }

  lemma NothingTwice()
    ensures NoTwice([])
  {
  }

  lemma UniqueStep(o: Options, s: State, e: Event)
    requires o.unique && (s.list.Some? ==> NoTwice(s.list.value))
    ensures Step(o, s, e).list.Some? ==> NoTwice(Step(o, s, e).list.value)
  {
    hide RemoveFn, PushAll, Proceed, End, NoTwice;
    assert NoTwice([]) by {
      NothingTwice();
    }
    match e
    case EvAdd(fns) =>
      if s.list.Some? {
        PushAllOnce(o, s, fns);
        var pushed := PushAll(o, s, fns);
        if !s.firing && s.memory.Some? {
          ProceedKeepsPlaces(o, Begin(o, pushed.(firingStart := |s.list.value|), s.memory.value, s.h.nextSerial));
        }
      }
    case EvRemove(fns) => RemoveOnce(s, fns);
    case EvFireWith(data) =>
      if s.list.Some? {
        var s1 := s.(h := Started(s.h.(accepted := s.h.accepted + [data]), data));
        ProceedKeepsPlaces(o, Begin(o, s1, data, 0));
      }
    case EvReturn(wasFalse) =>
      ProceedKeepsPlaces(o, s.(memory := None));
      ProceedKeepsPlaces(o, s.(firingIndex := s.firingIndex + 1));
    case _ =>
  }

  /** A unique list never holds a function twice. */
  lemma {:induction false} UniqueNeverTwice(o: Options, s: State, events: seq<Event>)
    requires o.unique && (s.list.Some? ==> NoTwice(s.list.value))
    ensures Run(o, s, events).list.Some? ==> NoTwice(Run(o, s, events).list.value)
    decreases |events|
  {
    hide Step, NoTwice;
    if events != [] {
      UniqueStep(o, s, events[0]);
      UniqueNeverTwice(o, Step(o, s, events[0]), events[1..]);
    }
  }

  /** A once list has no queue and takes one fireWith. */
  predicate AtMostOnce(s: State)
  {
    s.stack.None? && |s.h.accepted| <= 1 && (s.h.accepted != [] ==> s.fired)
  }

  lemma OnceStep(o: Options, s: State, e: Event)
    requires AtMostOnce(s)
    ensures AtMostOnce(Step(o, s, e))
  {
    hide RemoveFn, PushAll, Proceed, End;
    match e
    case EvAdd(fns) =>
      if s.list.Some? {
        PushAllLeaves(o, s, fns);
        var pushed := PushAll(o, s, fns);
        if !s.firing && s.memory.Some? {
          LockedProceeds(o, Begin(o, pushed.(firingStart := |s.list.value|), s.memory.value, s.h.nextSerial));
        }
      }
    case EvRemove(fns) => RemoveLeaves(s, fns);
    case EvFireWith(data) =>
      if s.list.Some? {
        var s1 := s.(h := Started(s.h.(accepted := s.h.accepted + [data]), data));
        LockedProceeds(o, Begin(o, s1, data, 0));
      }
    case EvReturn(wasFalse) =>
      LockedProceeds(o, s.(memory := None));
      LockedProceeds(o, s.(firingIndex := s.firingIndex + 1));
    case _ =>
  }

  lemma {:induction false} OnceRun(o: Options, s: State, events: seq<Event>)
    requires AtMostOnce(s)
    ensures AtMostOnce(Run(o, s, events))
    decreases |events|
  {
    hide Step, AtMostOnce;
    if events != [] {
      OnceStep(o, s, events[0]);
      OnceRun(o, Step(o, s, events[0]), events[1..]);
    }
  }

  lemma InitialOnce(o: Options)
    requires o.once
    ensures AtMostOnce(Initial(o))
  {
  }

  /** In every run a once list takes at most one fireWith, and so begins at most one pass of one. */
  lemma OnceBeginsOnePass(o: Options, events: seq<Event>)
    requires o.once
    ensures var h := Run(o, Initial(o), events).h; |h.started| <= |h.accepted| <= 1
  {
    hide Run, Initial;
    EveryRun(o, events);
    assert AtMostOnce(Initial(o)) by {
      InitialOnce(o);
    }
    OnceRun(o, Initial(o), events);
  }
}
