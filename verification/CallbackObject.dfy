/**
 The code of jQuery.Callbacks: the closure's variables are fields, and the loop of fire calls the
 callbacks. What they do is scripted, one reaction per invocation; when the script ends the run is
 cut off, so every script is a finite piece of a run.
 */
module CallbackObject {
  import opened Wrappers
  import opened CallbackList

  /** A call of one of the list's methods. */
  type MethodCall = e: Event | !e.EvReturn? witness EvEmpty

  /** What one invocation does to this list, and whether it returns false. */
  datatype Reaction = Reaction(calls: seq<MethodCall>, wasFalse: bool)

  /** Runs the callbacks of the list until it falls quiet or the script ends. */
  function Drive(o: Options, s: State, script: seq<Reaction>): (State, seq<Reaction>)
    decreases |script|
  {
    if !s.firing || script == [] then (s, script)
    else Drive(o, Return(o, Run(o, s, script[0].calls), script[0].wasFalse), script[1..])
  }

  /** One call from outside drives the list; one made by a callback does not. */
  function Outcome(o: Options, s: State, e: Event, script: seq<Reaction>): (State, seq<Reaction>)
  {
    if s.firing then (Step(o, s, e), script) else Drive(o, Step(o, s, e), script)
  }

  lemma StepIs(o: Options, s: State, e: MethodCall)
    ensures e.EvAdd? ==> Step(o, s, e) == CallbackList.Add(o, s, e.fns)
  {
  }

  lemma {:induction false} PushAllFiring(o: Options, s: State, fns: seq<Fn>)
    requires s.list.Some?
    ensures PushAll(o, s, fns).firing == s.firing
    decreases |fns|
  {
    if fns != [] {
      PushAllFiring(o, Push(o, s, fns[0]), fns[1..]);
    }
  }

  lemma {:induction false} RemoveFnFiring(s: State, fn: Fn)
    requires s.list.Some?
    ensures RemoveFn(s, fn).firing == s.firing
    decreases |s.list.value|
  {
    var k := IndexOf(s.list.value, fn);
    if k < |s.list.value| {
      RemoveFnFiring(RemoveAt(s, k), fn);
    }
  }

  lemma {:induction false} RemoveFiring(s: State, fns: seq<Fn>)
    ensures CallbackList.Remove(s, fns).firing == s.firing
    decreases |fns|
  {
    hide RemoveFn;
    if s.list.Some? && fns != [] {
      RemoveFnFiring(s, fns[0]);
      RemoveFiring(RemoveFn(s, fns[0]), fns[1..]);
    }
  }

  lemma FiringGoesOn(o: Options, s: State, e: MethodCall)
    requires Inv(o, s) && s.firing
    ensures Step(o, s, e).firing
  {
    hide Base, Counts, StillToCome, Passed;
    if e.EvAdd? && s.list.Some? {
      PushAllFiring(o, s, e.fns);
    } else if e.EvRemove? {
      RemoveFiring(s, e.fns);
    } else if e.EvFireWith? {
      assert s.fired;
    }
  }

  lemma DriveQuiet(o: Options, s: State, script: seq<Reaction>)
    ensures !s.firing ==> Drive(o, s, script) == (s, script)
  {
  }

  lemma AddBegins(o: Options, s: State, fns: seq<Fn>)
    requires Inv(o, s) && s.list.Some?
    ensures var r := PushAll(o, s, fns);
            && r == s.(list := r.list, h := s.h.(nextSerial := r.h.nextSerial))
            && (!s.firing && s.memory.Some? ==>
                  var r1 := r.(firingStart := |s.list.value|);
                  && Base(o, r1) && IsLatest(r1.h, s.memory.value) && r1.h.roundPass <= r1.h.passes
                  && |s.list.value| <= |r.list.value| && s.h.nextSerial <= r.h.nextSerial && o.memory
                  && forall k :: 0 <= k < |r.list.value| ==>
                       (|s.list.value| <= k <==> s.h.nextSerial <= r.list.value[k].serial))
  {
    hide PassesInOrder, DataInOrder, StillToCome, Passed;
    assert Extended(s) == s;
    PushAllKeeps(o, s, fns);
    var list, longer := s.list.value, PushAll(o, s, fns).list.value;
    forall k | 0 <= k < |list|
      ensures longer[k] == list[k]
    {
      assert longer[k] == longer[..|list|][k];
    }
  }

  lemma FireWithBegins(o: Options, s: State, data: Data)
    requires Inv(o, s) && !s.firing && s.list.Some? && (!s.fired || s.stack.Some?)
    ensures var s1 := s.(h := Started(s.h.(accepted := s.h.accepted + [data]), data));
            && Base(o, s1) && s1.firingStart == 0
            && IsLatest(s1.h, data) && s1.h.roundPass == s1.h.passes + 1
            && (!o.memory ==> |s1.h.started| == s1.h.passes + 1)
  {
    assert s.stack.Some? ==> s.h.started + [] == s.h.started;
    assert s.h.started == s.h.accepted;
  }

  lemma DriveEnds(o: Options, s: State, script: seq<Reaction>)
    requires !s.firing || script == []
    ensures Drive(o, s, script) == (s, script)
  {
  }

  lemma DriveOnce(o: Options, s: State, script: seq<Reaction>)
    requires s.firing && script != []
    ensures Drive(o, s, script)
         == Drive(o, Return(o, Run(o, s, script[0].calls), script[0].wasFalse), script[1..])
  {
  }

  lemma ProceedInvokes(o: Options, s: State)
    requires s.firing && s.list.Some? && FiringAt(s, s.firingIndex) && s.firingIndex < s.firingLength
    ensures Invokes(s) && Proceed(o, s) == Invoke(s)
  {
  }

  lemma ProceedEnds(o: Options, s: State)
    requires !(s.list.Some? && s.firingIndex < s.firingLength)
    ensures Proceed(o, s) == End(o, s)
  {
  }

  /** What the loop goes on with after a callback returned. */
  lemma ReturnsTo(o: Options, s: State, wasFalse: bool)
    requires Inv(o, s) && s.firing
    ensures var s' := if wasFalse && o.stopOnFalse then s.(memory := None) else s.(firingIndex := s.firingIndex + 1);
            && Base(o, s') && Counts(o, s') && s'.firing && s'.firingStart == 0 && s'.fired
            && (if wasFalse && o.stopOnFalse then Return(o, s, wasFalse) == End(o, s')
                else FiringAt(s', s'.firingIndex) && Return(o, s, wasFalse) == Proceed(o, s'))
  {
    hide PassesInOrder, DataInOrder, Ordered, End, Proceed;
  }

  lemma BeforeShift(o: Options, s: State)
    requires Base(o, s) && Counts(o, s) && s.firingStart == 0 && Queued(s)
    ensures var s' := Shift(s.(firing := false));
            && Base(o, s') && s'.firingStart == 0 && s'.list.Some?
            && IsLatest(s'.h, s.stack.value[0]) && s'.h.roundPass == s'.h.passes + 1
            && (!o.memory ==> |s'.h.started| == s'.h.passes + 1)
            && End(o, s) == Proceed(o, Begin(o, s', s.stack.value[0], 0))
  {
    ShiftKeeps(o, s);
  }

  class Callbacks {
    const options: Options
    var list: Option<seq<Entry>>
    var stack: Option<seq<Data>>
    var memory: Option<Data>
    var firing: bool
    var fired: bool
    var firingLength: int
    var firingIndex: int
    var firingStart: nat
    var h: History
    var script: seq<Reaction>

    ghost function Abs(): State
      reads this
    {
      State(list, stack, memory, firing, fired, firingLength, firingIndex, firingStart, h)
    }

    ghost predicate Valid()
      reads this
    {
      Inv(options, Abs())
    }

    constructor (options: Options, script: seq<Reaction>)
      ensures Valid() && Abs() == Initial(options) && this.options == options && this.script == script
    {
      this.options := options;
      list, memory := Some([]), None;
      stack := if options.once then None else Some([]);
      firing, fired, firingLength, firingIndex, firingStart := false, false, 0, 0, 0;
      h := NO_HISTORY;
      this.script := script;
      new;
      InitialKeeps(options);
    }

    /** The loop of fire has come to its test; target is where the whole call leads. */
    ghost predicate AtTest(target: (State, seq<Reaction>))
      reads this
    {
      && Base(options, Abs()) && Counts(options, Abs()) && firing && firingStart == 0
      && FiringAt(Abs(), firingIndex)
      && Drive(options, Proceed(options, Abs()), script) == target
    }

    /** The loop is over. */
    ghost predicate AtEnd(target: (State, seq<Reaction>))
      reads this
    {
      && Base(options, Abs()) && Counts(options, Abs()) && firing && firingStart == 0 && fired
      && Drive(options, End(options, Abs()), script) == target
    }

    /** The assignments at the top of fire; from is bookkeeping. */
    method Fire(data: Data, from: nat)
      requires list.Some? && Base(options, Abs()) && firingStart <= |list.value| && from <= h.nextSerial
      requires forall k :: 0 <= k < |list.value| ==> (firingStart <= k <==> from <= list.value[k].serial)
      requires IsLatest(h, data) && h.roundPass <= h.passes + 1 && (h.roundPass == h.passes + 1 ==> from == 0)
      requires !options.memory ==> from == 0 && |h.started| == h.passes + 1
      modifies this
      ensures Valid()
      ensures (Abs(), script) == Drive(options, Proceed(options, Begin(options, old(Abs()), data, from)), old(script))
      decreases |script|, 1 + StackSize(Abs()), 3
    {
      hide Drive, Proceed, Base, Counts, FiringAt;
      BeginKeeps(options, Abs(), data, from);
      ghost var begun := Begin(options, Abs(), data, from);
      memory := if options.memory then Some(data) else None;
      fired := true;
      firingIndex := firingStart;
      firingStart := 0;
      firingLength := |list.value|;
      firing := true;
      h := h.(passes := h.passes + 1, from := from, data := data, calm := true);
      assert Abs() == begun;
      FireLoop(Drive(options, Proceed(options, begun), script));
    }

    method FireLoop(ghost target: (State, seq<Reaction>))
      requires AtTest(target)
      modifies this
      ensures Valid() && (Abs(), script) == target
      decreases |script|, 1 + StackSize(Abs()), 2
    {
      hide Drive, Proceed, Base, Counts, StillToCome, Passed, End, Inv;
      var broke := false;
      while list.Some? && firingIndex < firingLength && !broke
        invariant |script| <= |old(script)|
        invariant |script| < |old(script)| || StackSize(Abs()) == StackSize(old(Abs()))
        invariant if broke then AtEnd(target) else AtTest(target)
        decreases |script|, !broke
      {
        var entry := list.value[firingIndex];
        ghost var before := Abs();
        h := h.(log := h.log + [Call(h.passes, |h.started|, h.data, entry)]);
        assert Abs() == Invoke(before);
        InvokeKeeps(options, before);
        ProceedInvokes(options, before);
        if script == [] {
          DriveEnds(options, Abs(), script);
          return;
        }
        DriveOnce(options, Abs(), script);
        var reaction := script[0];
        script := script[1..];
        React(reaction.calls);
        ReturnsTo(options, Abs(), reaction.wasFalse);
        if reaction.wasFalse && options.stopOnFalse {
          memory := None;
          broke := true;
        } else {
          firingIndex := firingIndex + 1;
        }
      }
      if !broke {
        ProceedEnds(options, Abs());
      }
      Finish(target);
    }

    /** The lines after the loop. */
    method Finish(ghost target: (State, seq<Reaction>))
      requires AtEnd(target)
      modifies this
      ensures Valid() && (Abs(), script) == target
      decreases |script|, 1 + StackSize(Abs()), 1
    {
      hide Drive, Proceed, Base, Counts, FiringAt, Inv;
      ghost var before := Abs();
      EndKeeps(options, before);
      firing := false;
      if list.Some? {
        if stack.Some? {
          if stack.value != [] {
            var data := stack.value[0];
            BeforeShift(options, before);
            stack := Some(stack.value[1..]);
            h := Started(h, data);
            assert Abs() == Shift(before.(firing := false));
            Fire(data, 0);
            return;
          }
        } else if memory.Some? {
          list := Some([]);
        } else {
          list, stack, memory := None, None, None;
        }
      }
      assert Abs() == End(options, before);
      DriveEnds(options, Abs(), script);
    }

    /** Calls made by a callback go no further than one step. */
    ghost function Rank(): nat
      reads this
    {
      if firing then 0 else 1 + StackSize(Abs())
    }

    /** The running callback calls methods of the list. */
    method React(calls: seq<MethodCall>)
      requires Valid() && firing
      modifies this
      ensures Valid() && firing && script == old(script) && Abs() == Run(options, old(Abs()), calls)
      decreases |script|, Rank(), 6
    {
      hide Inv, Step;
      ghost var start := Abs();
      var i := 0;
      while i < |calls|
        invariant 0 <= i <= |calls|
        invariant Valid() && firing && script == old(script)
        invariant Run(options, Abs(), calls[i..]) == Run(options, start, calls)
      {
        assert calls[i..][1..] == calls[i + 1..] && calls[i..][0] == calls[i];
        FiringGoesOn(options, Abs(), calls[i]);
        Perform(calls[i]);
        i := i + 1;
      }
      assert calls[i..] == [];
    }

    /** One method call. */
    method Perform(e: MethodCall)
      requires Valid()
      modifies this
      ensures Valid() && (Abs(), script) == Outcome(options, old(Abs()), e, old(script))
      decreases |script|, Rank(), 5
    {
      hide Inv, Step, Drive, Run;
      StepIs(options, Abs(), e);
      if e.EvAdd? {
        Add(e.fns);
      } else if e.EvRemove? {
        Remove(e.fns);
      } else if e.EvFireWith? {
        FireWith(e.data);
      } else if e.EvEmpty? {
        Empty();
      } else if e.EvDisable? {
        Disable();
      } else {
        Lock();
      }
    }

    method Add(fns: seq<Fn>)
      requires Valid()
      modifies this
      ensures Valid() && (Abs(), script) == Outcome(options, old(Abs()), EvAdd(fns), old(script))
      decreases |script|, Rank(), 4
    {
      hide Drive, Proceed, Base, Counts, FiringAt, HasFn, PushAll, Push;
      ghost var before := Abs();
      AddKeeps(options, before, fns);
      if list.Some? {
        var start, covers := |list.value|, h.nextSerial;
        PushArguments(fns);
        AddBegins(options, before, fns);
        if firing {
          firingLength := |list.value|;
        } else if memory.Some? {
          firingStart := start;
          assert Abs() == PushAll(options, before, fns).(firingStart := start);
          Fire(memory.value, covers);
          return;
        }
      }
      assert Abs() == CallbackList.Add(options, before, fns);
      DriveQuiet(options, Abs(), script);
    }

    /** The each loop of add. */
    method PushArguments(fns: seq<Fn>)
      requires list.Some?
      modifies this`list, this`h
      ensures Abs() == PushAll(options, old(Abs()), fns)
    {
      hide HasFn;
      ghost var start := Abs();
      var i := 0;
      while i < |fns|
        invariant 0 <= i <= |fns| && list.Some?
        invariant PushAll(options, Abs(), fns[i..]) == PushAll(options, start, fns)
      {
        assert fns[i..][1..] == fns[i + 1..] && fns[i..][0] == fns[i];
        if !options.unique || !Has(fns[i]) {
          list := Some(list.value + [Entry(fns[i], h.nextSerial)]);
          h := h.(nextSerial := h.nextSerial + 1);
        }
        i := i + 1;
      }
      assert fns[i..] == [];
    }

    function Has(fn: Fn): (r: bool)
      requires list.Some?
      reads this
      ensures r <==> HasFn(list.value, fn)
    {
      var k := IndexOf(list.value, fn);
      assert k < |list.value| ==> list.value[k].fn == fn;
      k < |list.value|
    }

    method Remove(fns: seq<Fn>)
      requires Valid()
      modifies this
      ensures Valid() && (Abs(), script) == Outcome(options, old(Abs()), EvRemove(fns), old(script))
    {
      hide Inv, Drive;
      ghost var before := Abs();
      RemoveKeeps(options, before, fns);
      RemoveFiring(before, fns);
      DriveQuiet(options, CallbackList.Remove(before, fns), script);
      if list.Some? {
        var i := 0;
        while i < |fns|
          invariant 0 <= i <= |fns| && list.Some? && script == old(script)
          invariant CallbackList.Remove(Abs(), fns[i..]) == CallbackList.Remove(before, fns)
        {
          assert fns[i..][1..] == fns[i + 1..] && fns[i..][0] == fns[i];
          RemoveOne(fns[i]);
          i := i + 1;
        }
        assert fns[i..] == [];
      }
    }

    /** The inArray loop of remove for one function: it goes on searching where it spliced. */
    method RemoveOne(fn: Fn)
      requires list.Some?
      modifies this`list, this`firingLength, this`firingIndex
      ensures list.Some? && Abs() == RemoveFn(old(Abs()), fn)
    {
      hide IndexOf;
      ghost var start := Abs();
      var index := NextIndex(fn, 0);
      while index < |list.value|
        invariant list.Some? && index <= |list.value| && index == IndexOf(list.value, fn)
        invariant RemoveFn(Abs(), fn) == RemoveFn(start, fn)
        decreases |list.value|
      {
        ghost var before := Abs();
        list := Some(list.value[..index] + list.value[index + 1..]);
        if firing {
          if index <= firingLength {
            firingLength := firingLength - 1;
          }
          if index <= firingIndex {
            firingIndex := firingIndex - 1;
          }
        }
        assert Abs() == RemoveAt(before, index);
        index := NextIndex(fn, index);
      }
    }

    /** inArray(fn, list, start) when fn is not before start. */
    method NextIndex(fn: Fn, start: nat) returns (k: nat)
      requires list.Some? && start <= |list.value|
      requires forall j :: 0 <= j < start ==> list.value[j].fn != fn
      ensures k == IndexOf(list.value, fn)
    {
      k := start;
      while k < |list.value| && list.value[k].fn != fn
        invariant start <= k <= |list.value|
        invariant forall j :: 0 <= j < k ==> list.value[j].fn != fn
      {
        k := k + 1;
      }
    }

    method FireWith(data: Data)
      requires Valid()
      modifies this
      ensures Valid() && (Abs(), script) == Outcome(options, old(Abs()), EvFireWith(data), old(script))
      decreases |script|, Rank(), 4
    {
      hide Drive, Proceed, Base, Counts, StillToCome, Passed;
      ghost var before := Abs();
      FireWithKeeps(options, before, data);
      if list.Some? && (!fired || stack.Some?) {
        h := h.(accepted := h.accepted + [data]);
        if firing {
          stack := Some(stack.value + [data]);
        } else {
          FireWithBegins(options, before, data);
          h := Started(h, data);
          Fire(data, 0);
          return;
        }
      }
      assert Abs() == CallbackList.FireWith(options, before, data);
      DriveQuiet(options, Abs(), script);
    }

    method Empty()
      requires Valid()
      modifies this
      ensures Valid() && (Abs(), script) == Outcome(options, old(Abs()), EvEmpty, old(script))
    {
      EmptyKeeps(options, Abs());
      list := Some([]);
      firingLength := 0;
      h := h.(calm := h.calm && !firing);
    }

    method Disable()
      requires Valid()
      modifies this
      ensures Valid() && (Abs(), script) == Outcome(options, old(Abs()), EvDisable, old(script))
    {
      DropKeeps(options, Abs());
      list, stack, memory := None, None, None;
    }

    method Lock()
      requires Valid()
      modifies this
      ensures Valid() && (Abs(), script) == Outcome(options, old(Abs()), EvLock, old(script))
    {
      DropKeeps(options, Abs());
      stack := None;
      if memory.None? {
        Disable();
      }
    }
  }

  lemma {:induction false} RunAppend(o: Options, s: State, a: seq<Event>, b: seq<Event>)
    ensures Run(o, s, a + b) == Run(o, Run(o, s, a), b)
    decreases |a|
  {
    hide Step;
    if a == [] {
      assert a + b == b;
    } else {
      assert (a + b)[1..] == a[1..] + b;
      RunAppend(o, Step(o, s, a[0]), a[1..], b);
    }
  }

  lemma ReturnStep(o: Options, s: State, wasFalse: bool)
    ensures Step(o, s, EvReturn(wasFalse)) == Return(o, s, wasFalse)
  {
  }

  /** A scripted run is a run, so what EveryRun and RemovedIsNeverCalled say holds of the object too. */
  lemma {:induction false} DriveIsRun(o: Options, s: State, script: seq<Reaction>) returns (events: seq<Event>)
    ensures Drive(o, s, script).0 == Run(o, s, events)
    decreases |script|
  {
    hide Step;
    if !s.firing || script == [] {
      events := [];
    } else {
      var calls: seq<Event> := script[0].calls;
      var s1 := Run(o, s, calls);
      var last := EvReturn(script[0].wasFalse);
      var rest := DriveIsRun(o, Return(o, s1, script[0].wasFalse), script[1..]);
      events := calls + ([last] + rest);
      RunAppend(o, s, calls, [last] + rest);
      RunOne(o, s1, last, rest);
      assert Step(o, s1, last) == Return(o, s1, script[0].wasFalse) by {
        ReturnStep(o, s1, script[0].wasFalse);
      }
    }
  }
}
