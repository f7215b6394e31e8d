/**
 jQuery.Deferred: two "once memory" lists whose first three callbacks set the state, disable the
 other list and lock the list for progress, a "memory" one.
 */
module Deferred {
  import opened Wrappers
  import opened CallbackList

  const ONCE_MEMORY := Options(true, true, false, false)
  const MEMORY := Options(false, true, false, false)

  datatype Status = Pending | Resolved | Rejected

  datatype Deferred = Deferred(state: Status, done: State, fail: State, progress: State)

  // The callbacks the constructor adds; a caller's function f is the callback f + 3.
  const SET_STATE: Fn := 0
  const DISABLE_OTHER: Fn := 1
  const LOCK_PROGRESS: Fn := 2
  const OWN: seq<Fn> := [SET_STATE, DISABLE_OTHER, LOCK_PROGRESS]

  function Users(fns: seq<nat>): seq<Fn>
  {
    seq(|fns|, k requires 0 <= k < |fns| => fns[k] + 3)
  }

  function Create(): Deferred
  {
    var list := Add(ONCE_MEMORY, Initial(ONCE_MEMORY), OWN);
    Deferred(Pending, list, list, Initial(MEMORY))
  }

  /** The function of the callback that is running. */
  function Running(s: State): Option<Fn>
  {
    if s.firing && s.h.log != [] then Some(s.h.log[|s.h.log| - 1].entry.fn) else None
  }

  function ListOf(d: Deferred, done: bool): State
  {
    if done then d.done else d.fail
  }

  function WithList(d: Deferred, done: bool, s: State): Deferred
  {
    if done then d.(done := s) else d.(fail := s)
  }

  /** What one of the constructor's callbacks does. */
  function Effect(d: Deferred, done: bool, fn: Fn): Deferred
  {
    if fn == SET_STATE then d.(state := if done then Resolved else Rejected)
    else if fn == DISABLE_OTHER then WithList(d, !done, Disable(ListOf(d, !done)))
    else d.(progress := Lock(d.progress))
  }

  /** Runs up to `left` of the constructor's callbacks, as long as one is running. */
  function RunOwn(d: Deferred, done: bool, left: nat): Deferred
    decreases left
  {
    var r := Running(ListOf(d, done));
    if left == 0 || r.None? || r.value >= 3 then d
    else
      var e := Effect(d, done, r.value);
      RunOwn(WithList(e, done, Return(ONCE_MEMORY, ListOf(e, done), false)), done, left - 1)
  }

  datatype Event =
    | OnDone(fns: seq<nat>) | OnFail(fns: seq<nat>)   // done(...) and fail(...)
    | Resolve(value: Data) | Reject(value: Data)
    | OnProgress(fns: seq<nat>) | Notify(value: Data)
    | ReturnDone | ReturnFail | ReturnProgress         // the running caller's callback returns

  function Step(d: Deferred, e: Event): Deferred
  {
    match e
    case OnDone(fns) => d.(done := Add(ONCE_MEMORY, d.done, Users(fns)))
    case OnFail(fns) => d.(fail := Add(ONCE_MEMORY, d.fail, Users(fns)))
    case Resolve(value) => RunOwn(d.(done := FireWith(ONCE_MEMORY, d.done, value)), true, 3)
    case Reject(value) => RunOwn(d.(fail := FireWith(ONCE_MEMORY, d.fail, value)), false, 3)
    case ReturnDone => d.(done := Return(ONCE_MEMORY, d.done, false))
    case ReturnFail => d.(fail := Return(ONCE_MEMORY, d.fail, false))
    case OnProgress(fns) => d.(progress := Add(MEMORY, d.progress, fns))
    case Notify(value) => d.(progress := FireWith(MEMORY, d.progress, value))
    case ReturnProgress => d.(progress := Return(MEMORY, d.progress, false))
  }

  function Run(events: seq<Event>): Deferred
  {
    if events == [] then Create() else Step(Run(events[..|events| - 1]), events[|events| - 1])
  }

  /* ---------- one list ---------- */

  function Fns(list: seq<Entry>): seq<Fn>
  {
    seq(|list|, k requires 0 <= k < |list| => list[k].fn)
  }

  function LogFns(log: seq<Call>): seq<Fn>
  {
    seq(|log|, k requires 0 <= k < |log| => log[k].entry.fn)
  }

  predicate AllWith(log: seq<Call>, value: Data)
  {
    forall k :: 0 <= k < |log| ==> log[k].data == value
  }

  /** Nothing fired yet: the list holds what was registered. */
  predicate Fresh(s: State, registered: seq<Fn>)
  {
    && !s.fired && !s.firing && s.list.Some? && s.memory.None? && s.stack.None? && s.firingStart == 0
    && Fns(s.list.value) == registered && s.h.log == []
  }

  /** In its only pass: what was called and what is still to come make up what was registered. */
  predicate Firing(s: State, registered: seq<Fn>, value: Data)
  {
    && s.fired && s.firing && s.list.Some? && s.memory == Some(value) && s.stack.None? && s.firingStart == 0
    && s.firingLength == |s.list.value| && 0 <= s.firingIndex < |s.list.value| && s.h.log != []
    && LogFns(s.h.log) + Fns(s.list.value[s.firingIndex + 1..]) == registered && AllWith(s.h.log, value)
    && s.h.data == value
  }

  /** All that was registered has been called. */
  predicate Over(s: State, registered: seq<Fn>, value: Data)
  {
    && s.fired && !s.firing && s.list == Some([]) && s.memory == Some(value) && s.stack.None? && s.firingStart == 0
    && LogFns(s.h.log) == registered && AllWith(s.h.log, value)
  }

  predicate Fired(s: State, registered: seq<Fn>, value: Data)
  {
    Firing(s, registered, value) || Over(s, registered, value)
  }

  predicate Dead(s: State)
  {
    s.list.None? && !s.fired && !s.firing && s.h.log == []
  }

  lemma FnsAppend(a: seq<Entry>, b: seq<Entry>)
    ensures Fns(a + b) == Fns(a) + Fns(b)
  {
  }

  /** At the test of the loop. */
  predicate AtTest(s: State, registered: seq<Fn>, value: Data)
  {
    && s.fired && s.firing && s.list.Some? && s.memory == Some(value) && s.stack.None? && s.firingStart == 0
    && s.firingLength == |s.list.value| && 0 <= s.firingIndex <= |s.list.value|
    && LogFns(s.h.log) + Fns(s.list.value[s.firingIndex..]) == registered && AllWith(s.h.log, value)
    && s.h.data == value
  }

  lemma ProceedFires(s: State, registered: seq<Fn>, value: Data)
    requires AtTest(s, registered, value)
    ensures Fired(Proceed(ONCE_MEMORY, s), registered, value)
  {
    var list, i := s.list.value, s.firingIndex;
    if i < |list| {
      var t := Invoke(s);
      assert list[i..] == [list[i]] + list[i + 1..];
      FnsAppend([list[i]], list[i + 1..]);
      assert LogFns(t.h.log) == LogFns(s.h.log) + [list[i].fn];
    } else {
      assert Fns(list[i..]) == [];
    }
  }

  lemma ReturnFires(s: State, registered: seq<Fn>, value: Data)
    requires Fired(s, registered, value)
    ensures Fired(Return(ONCE_MEMORY, s, false), registered, value)
  {
    if s.firing {
      ProceedFires(s.(firingIndex := s.firingIndex + 1), registered, value);
    }
  }

  /** add pushes its functions in order. */
  lemma {:induction false} PushAllFns(s: State, fns: seq<Fn>)
    requires s.list.Some?
    ensures var r := PushAll(ONCE_MEMORY, s, fns);
            && r == s.(list := r.list, h := s.h.(nextSerial := r.h.nextSerial))
            && |r.list.value| == |s.list.value| + |fns|
            && r.list.value[..|s.list.value|] == s.list.value && Fns(r.list.value[|s.list.value|..]) == fns
  {
    PushAllPlain(ONCE_MEMORY, s, fns);
  }

  lemma AddFresh(s: State, registered: seq<Fn>, fns: seq<Fn>)
    requires Fresh(s, registered)
    ensures Fresh(Add(ONCE_MEMORY, s, fns), registered + fns)
  {
    PushAllFns(s, fns);
    var r, n := PushAll(ONCE_MEMORY, s, fns).list.value, |s.list.value|;
    assert r == r[..n] + r[n..];
    FnsAppend(r[..n], r[n..]);
  }

  lemma AddFired(s: State, registered: seq<Fn>, value: Data, fns: seq<Fn>)
    requires Fired(s, registered, value)
    ensures Fired(Add(ONCE_MEMORY, s, fns), registered + fns, value)
  {
    hide PushAll, Proceed;
    PushAllFns(s, fns);
    var pushed := PushAll(ONCE_MEMORY, s, fns);
    var r, n := pushed.list.value, |s.list.value|;
    if s.firing {
      var i := s.firingIndex + 1;
      assert r[i..] == s.list.value[i..] + r[n..] by {
        assert r == r[..n] + r[n..];
      }
      FnsAppend(s.list.value[i..], r[n..]);
    } else {
      var begun := Begin(ONCE_MEMORY, pushed.(firingStart := n), value, s.h.nextSerial);
      assert r[0..] == r[n..];
      assert LogFns(begun.h.log) + Fns(r[0..]) == registered + fns;
      ProceedFires(begun, registered + fns, value);
    }
  }

  lemma FireFresh(s: State, registered: seq<Fn>, value: Data)
    requires Fresh(s, registered)
    ensures Fired(FireWith(ONCE_MEMORY, s, value), registered, value)
    ensures registered != [] ==>
              FireWith(ONCE_MEMORY, s, value).firing && |FireWith(ONCE_MEMORY, s, value).h.log| == 1
  {
    var s1 := s.(h := Started(s.h.(accepted := s.h.accepted + [value]), value));
    var begun := Begin(ONCE_MEMORY, s1, value, 0);
    assert begun.list.value[0..] == begun.list.value;
    assert LogFns(begun.h.log) + Fns(begun.list.value) == registered;
    ProceedFires(begun, registered, value);
  }

  lemma ProceedEnds(s: State)
    requires !Invokes(s) && s.list.Some? && s.stack.None? && s.memory.Some?
    ensures Proceed(ONCE_MEMORY, s) == s.(firing := false, list := Some([]))
  {
    assert Proceed(ONCE_MEMORY, s) == End(ONCE_MEMORY, s);
  }

  /** Each return leads to the next registered function. */
  lemma ReturnAdvances(s: State, registered: seq<Fn>, value: Data)
    requires Firing(s, registered, value)
    ensures |s.h.log| <= |registered| && Running(s) == Some(registered[|s.h.log| - 1])
    ensures var t := Return(ONCE_MEMORY, s, false);
            && Fired(t, registered, value)
            && (if |s.h.log| < |registered| then Firing(t, registered, value) && |t.h.log| == |s.h.log| + 1
                else Over(t, registered, value))
  {
    var k := |s.h.log|;
    var rest := Fns(s.list.value[s.firingIndex + 1..]);
    assert |registered| == k + |rest|;
    assert registered[k - 1] == LogFns(s.h.log)[k - 1];
    var t := s.(firingIndex := s.firingIndex + 1);
    assert Return(ONCE_MEMORY, s, false) == Proceed(ONCE_MEMORY, t);
    ReturnFires(s, registered, value);
    if k < |registered| {
      assert Proceed(ONCE_MEMORY, t) == Invoke(t);
    } else {
      assert !Invokes(t);
      ProceedEnds(t);
    }
  }

  /* ---------- both lists ---------- */

  predicate StartsWithOwn(registered: seq<Fn>)
  {
    |registered| >= 3 && registered[..3] == OWN && forall k :: 3 <= k < |registered| ==> registered[k] >= 3
  }

  /** Fired, and past the constructor's callbacks. */
  predicate Settled(s: State, registered: seq<Fn>, value: Data)
  {
    Fired(s, registered, value) && (s.firing ==> |s.h.log| > 3)
  }

  /** settled is the first settling call with its value. */
  predicate Consistent(d: Deferred, done: seq<Fn>, fail: seq<Fn>, settled: Option<(bool, Data)>)
  {
    && StartsWithOwn(done) && StartsWithOwn(fail)
    && match settled
       case None => d.state == Pending && Fresh(d.done, done) && Fresh(d.fail, fail)
       case Some((true, value)) => d.state == Resolved && Settled(d.done, done, value) && Dead(d.fail)
       case Some((false, value)) => d.state == Rejected && Settled(d.fail, fail, value) && Dead(d.done)
  }

  /** The constructor's three callbacks, then the first of the caller's, if any. */
  lemma RunOwnSettles(d: Deferred, done: bool, mine: seq<Fn>, other: seq<Fn>, value: Data)
    requires StartsWithOwn(mine) && Firing(ListOf(d, done), mine, value) && |ListOf(d, done).h.log| == 1
    requires Fresh(ListOf(d, !done), other)
    ensures var r := RunOwn(d, done, 3);
            && r.state == (if done then Resolved else Rejected)
            && Settled(ListOf(r, done), mine, value) && Dead(ListOf(r, !done))
            && r.progress == Lock(d.progress)
  {
    hide Fired, Firing, Over, Return;
    assert mine[0] == mine[..3][0] && mine[1] == mine[..3][1] && mine[2] == mine[..3][2];
    ReturnAdvances(ListOf(d, done), mine, value);
    var d1 := d.(state := if done then Resolved else Rejected);
    var d2 := WithList(d1, done, Return(ONCE_MEMORY, ListOf(d, done), false));
    assert RunOwn(d, done, 3) == RunOwn(d2, done, 2);
    ReturnAdvances(ListOf(d2, done), mine, value);
    var d3 := WithList(d2, !done, Disable(ListOf(d2, !done)));
    var d4 := WithList(d3, done, Return(ONCE_MEMORY, ListOf(d2, done), false));
    assert RunOwn(d2, done, 2) == RunOwn(d4, done, 1);
    ReturnAdvances(ListOf(d4, done), mine, value);
    var d5 := WithList(d4, done, Return(ONCE_MEMORY, ListOf(d4, done), false));
    assert RunOwn(d4, done, 1) == d5.(progress := Lock(d5.progress));
  }

  lemma DeadStays(s: State, fns: seq<Fn>, value: Data)
    requires Dead(s)
    ensures Add(ONCE_MEMORY, s, fns) == s && FireWith(ONCE_MEMORY, s, value) == s
    ensures Return(ONCE_MEMORY, s, false) == s && Running(s) == None
  {
  }

  lemma SettledIgnores(s: State, registered: seq<Fn>, value: Data, again: Data)
    requires StartsWithOwn(registered) && Settled(s, registered, value)
    ensures FireWith(ONCE_MEMORY, s, again) == s && (Running(s).Some? ==> Running(s).value >= 3)
  {
    if s.firing {
      ReturnAdvances(s, registered, value);
    }
  }

  /** A pass begun by add makes one call at once. */
  lemma AddLog(s: State, fns: seq<Fn>)
    requires s.list.Some? && s.stack.None? && s.firingStart == 0
    ensures var t := Add(ONCE_MEMORY, s, fns);
            |t.h.log| == |s.h.log| + if t.firing && !s.firing then 1 else 0
  {
    hide PushAll;
    PushAllFns(s, fns);
    var pushed := PushAll(ONCE_MEMORY, s, fns);
    if !s.firing && s.memory.Some? {
      var begun := Begin(ONCE_MEMORY, pushed.(firingStart := |s.list.value|), s.memory.value, s.h.nextSerial);
      if !Invokes(begun) {
        ProceedEnds(begun);
      }
    }
  }

  lemma SettledGoesOn(s: State, registered: seq<Fn>, value: Data, fns: seq<Fn>)
    requires StartsWithOwn(registered) && Settled(s, registered, value)
    ensures Settled(Add(ONCE_MEMORY, s, fns), registered + fns, value)
    ensures Settled(Return(ONCE_MEMORY, s, false), registered, value)
  {
    assert |registered| >= 3 && (!s.firing ==> |s.h.log| == |registered|);
    hide StartsWithOwn;
    AddFired(s, registered, value, fns);
    AddLog(s, fns);
    if s.firing {
      ReturnAdvances(s, registered, value);
    }
  }

  function RegisteredDone(events: seq<Event>): seq<Fn>
  {
    if events == [] then OWN
    else
      var e := events[|events| - 1];
      RegisteredDone(events[..|events| - 1]) + if e.OnDone? then Users(e.fns) else []
  }

  function RegisteredFail(events: seq<Event>): seq<Fn>
  {
    if events == [] then OWN
    else
      var e := events[|events| - 1];
      RegisteredFail(events[..|events| - 1]) + if e.OnFail? then Users(e.fns) else []
  }

  /** The first resolve or reject. */
  function SettledBy(events: seq<Event>): Option<(bool, Data)>
  {
    if events == [] then None
    else
      var before := SettledBy(events[..|events| - 1]);
      var e := events[|events| - 1];
      if before.Some? then before
      else if e.Resolve? then Some((true, e.value))
      else if e.Reject? then Some((false, e.value))
      else None
  }

  lemma OnDoneConsistent(d: Deferred, done: seq<Fn>, fail: seq<Fn>, settled: Option<(bool, Data)>, fns: seq<nat>)
    requires Consistent(d, done, fail, settled)
    ensures Consistent(Step(d, OnDone(fns)), done + Users(fns), fail, settled)
    ensures Consistent(Step(d, OnFail(fns)), done, fail + Users(fns), settled)
  {
    hide Settled, Fresh, Dead, Add;
    assert (done + Users(fns))[..3] == done[..3] && (fail + Users(fns))[..3] == fail[..3];
    match settled
    case None =>
      AddFresh(d.done, done, Users(fns));
      AddFresh(d.fail, fail, Users(fns));
    case Some((true, value)) =>
      SettledGoesOn(d.done, done, value, Users(fns));
      DeadStays(d.fail, Users(fns), value);
    case Some((false, value)) =>
      SettledGoesOn(d.fail, fail, value, Users(fns));
      DeadStays(d.done, Users(fns), value);
  }

  lemma FiringOrOver(s: State, registered: seq<Fn>, value: Data)
    requires Fired(s, registered, value) && s.firing
    ensures Firing(s, registered, value)
  {
  }

  /** A settling call while pending. */
  lemma FirstSettles(d: Deferred, done: seq<Fn>, fail: seq<Fn>, value: Data)
    requires Consistent(d, done, fail, None)
    ensures Consistent(Step(d, Resolve(value)), done, fail, Some((true, value)))
    ensures Consistent(Step(d, Reject(value)), done, fail, Some((false, value)))
  {
    hide Fresh, Over, Firing, FireWith, RunOwn;
    FireFresh(d.done, done, value);
    FiringOrOver(FireWith(ONCE_MEMORY, d.done, value), done, value);
    RunOwnSettles(d.(done := FireWith(ONCE_MEMORY, d.done, value)), true, done, fail, value);
    FireFresh(d.fail, fail, value);
    FiringOrOver(FireWith(ONCE_MEMORY, d.fail, value), fail, value);
    RunOwnSettles(d.(fail := FireWith(ONCE_MEMORY, d.fail, value)), false, fail, done, value);
  }

  /** A settling call after the first changes nothing. */
  lemma LaterSettlesNothing(d: Deferred, done: seq<Fn>, fail: seq<Fn>, settled: (bool, Data), value: Data)
    requires Consistent(d, done, fail, Some(settled))
    ensures Step(d, Resolve(value)) == d && Step(d, Reject(value)) == d
  {
    hide Settled, Dead, FireWith;
    if settled.0 {
      SettledIgnores(d.done, done, settled.1, value);
      DeadStays(d.fail, [], value);
    } else {
      SettledIgnores(d.fail, fail, settled.1, value);
      DeadStays(d.done, [], value);
    }
  }

  lemma PendingReturn(s: State, t: State)
    ensures !s.firing ==> Return(ONCE_MEMORY, s, false) == s
    ensures !t.firing ==> Return(ONCE_MEMORY, t, false) == t
  {
  }

  lemma ReturnConsistent(d: Deferred, done: seq<Fn>, fail: seq<Fn>, settled: Option<(bool, Data)>)
    requires Consistent(d, done, fail, settled)
    ensures Consistent(Step(d, ReturnDone), done, fail, settled)
    ensures Consistent(Step(d, ReturnFail), done, fail, settled)
  {
    hide Settled, Dead, Return;
    match settled
    case None => PendingReturn(d.done, d.fail);
    case Some((true, value)) =>
      SettledGoesOn(d.done, done, value, []);
      DeadStays(d.fail, [], value);
    case Some((false, value)) =>
      SettledGoesOn(d.fail, fail, value, []);
      DeadStays(d.done, [], value);
  }

  lemma ProgressConsistent(d: Deferred, done: seq<Fn>, fail: seq<Fn>, settled: Option<(bool, Data)>, e: Event)
    requires Consistent(d, done, fail, settled) && (e.OnProgress? || e.Notify? || e.ReturnProgress?)
    ensures Consistent(Step(d, e), done, fail, settled)
  {
    hide Settled, Fresh, Dead, Add, FireWith, Return;
  }

  lemma CreateConsistent()
    ensures Consistent(Create(), OWN, OWN, None)
  {
    var s := Initial(ONCE_MEMORY);
    assert Fresh(s, []);
    AddFresh(s, [], OWN);
    assert [] + OWN == OWN;
  }

  lemma StepConsistent(d: Deferred, done: seq<Fn>, fail: seq<Fn>, settled: Option<(bool, Data)>, e: Event)
    requires Consistent(d, done, fail, settled)
    ensures Consistent(Step(d, e),
                       done + if e.OnDone? then Users(e.fns) else [], fail + if e.OnFail? then Users(e.fns) else [],
                       if settled.Some? then settled else if e.Resolve? then Some((true, e.value))
                       else if e.Reject? then Some((false, e.value)) else None)
  {
    hide Consistent, Step;
    assert done + [] == done && fail + [] == fail;
    match e
    case OnDone(fns) => OnDoneConsistent(d, done, fail, settled, fns);
    case OnFail(fns) => OnDoneConsistent(d, done, fail, settled, fns);
    case ReturnDone => ReturnConsistent(d, done, fail, settled);
    case ReturnFail => ReturnConsistent(d, done, fail, settled);
    case OnProgress(_) => ProgressConsistent(d, done, fail, settled, e);
    case Notify(_) => ProgressConsistent(d, done, fail, settled, e);
    case ReturnProgress => ProgressConsistent(d, done, fail, settled, e);
    case Resolve(value) =>
      if settled.Some? {
        LaterSettlesNothing(d, done, fail, settled.value, value);
      } else {
        FirstSettles(d, done, fail, value);
      }
    case Reject(value) =>
      if settled.Some? {
        LaterSettlesNothing(d, done, fail, settled.value, value);
      } else {
        FirstSettles(d, done, fail, value);
      }
  }

  lemma {:induction false} RunConsistent(events: seq<Event>)
    ensures Consistent(Run(events), RegisteredDone(events), RegisteredFail(events), SettledBy(events))
  {
    hide Consistent, Step, Create;
    if events == [] {
      CreateConsistent();
    } else {
      var before, e := events[..|events| - 1], events[|events| - 1];
      RunConsistent(before);
      StepConsistent(Run(before), RegisteredDone(before), RegisteredFail(before), SettledBy(before), e);
    }
  }

  /* ---------- what callers see ---------- */

  /**
   Whatever is called when, also from callbacks: the first settling call decides the state, the
   callbacks of the other list never run, and once nothing is running every callback registered,
   before or after, has run exactly once, in the order of registration and with the settling value.
   */
  lemma CallbacksRunOnce(events: seq<Event>)
    ensures var d := Run(events);
            && (SettledBy(events) == None ==> d.state == Pending && d.done.h.log == [] && d.fail.h.log == [])
            && forall done, value :: SettledBy(events) == Some((done, value)) ==>
                 && d.state == (if done then Resolved else Rejected)
                 && ListOf(d, !done).h.log == [] && AllWith(ListOf(d, done).h.log, value)
                 && LogFns(ListOf(d, done).h.log) <= (if done then RegisteredDone(events) else RegisteredFail(events))
                 && (!ListOf(d, done).firing ==>
                       LogFns(ListOf(d, done).h.log)
                       == if done then RegisteredDone(events) else RegisteredFail(events))
  {
    hide Run, RegisteredDone, RegisteredFail, SettledBy;
    RunConsistent(events);
  }

  /** The state leaves pending at most once. */
  lemma StateIsFinal(events: seq<Event>, e: Event)
    requires Run(events).state != Pending
    ensures Run(events + [e]).state == Run(events).state
  {
    hide Run, RegisteredDone, RegisteredFail;
    RunConsistent(events);
    RunConsistent(events + [e]);
    assert (events + [e])[..|events + [e]| - 1] == events;
  }

  /* ---------- progress ---------- */

  /** The values of the notifications made while nothing has settled. */
  function Notified(events: seq<Event>): seq<Data>
  {
    if events == [] then []
    else
      var before, e := events[..|events| - 1], events[|events| - 1];
      Notified(before) + if e.Notify? && SettledBy(before).None? then [e.value] else []
  }

  /** The list for progress while nothing has settled: it takes every fireWith. */
  predicate Open(s: State)
  {
    s.list.Some? && s.stack.Some? && (s.fired <==> s.memory.Some?) && (s.firing ==> s.fired)
  }

  /** The same list behind lock(). */
  predicate Closed(s: State)
  {
    CallbackList.Dead(s) || Locked(MEMORY, s)
  }

  lemma {:induction false} OpenProceeds(s: State)
    requires s.list.Some? && s.stack.Some? && s.memory.Some? && s.fired
    ensures Open(Proceed(MEMORY, s)) && Proceed(MEMORY, s).h.accepted == s.h.accepted
    ensures Open(End(MEMORY, s)) && End(MEMORY, s).h.accepted == s.h.accepted
    decreases StackSize(s)
  {
    if Queued(s) {
      OpenProceeds(Begin(MEMORY, Shift(s.(firing := false)), s.stack.value[0], 0));
    }
  }

  lemma OpenAdds(s: State, fns: seq<nat>)
    requires Open(s)
    ensures Open(Add(MEMORY, s, fns)) && Add(MEMORY, s, fns).h.accepted == s.h.accepted
  {
    hide PushAll, Proceed, End;
    PushAllLeaves(MEMORY, s, fns);
    var pushed := PushAll(MEMORY, s, fns);
    if !s.firing && s.memory.Some? {
      OpenProceeds(Begin(MEMORY, pushed.(firingStart := |s.list.value|), s.memory.value, s.h.nextSerial));
    }
  }

  lemma OpenFires(s: State, value: Data)
    requires Open(s)
    ensures Open(FireWith(MEMORY, s, value)) && FireWith(MEMORY, s, value).h.accepted == s.h.accepted + [value]
  {
    hide Proceed, End;
    if !s.firing {
      var s1 := s.(h := s.h.(accepted := s.h.accepted + [value]));
      OpenProceeds(Begin(MEMORY, s1.(h := Started(s1.h, value)), value, 0));
    }
  }

  lemma OpenReturns(s: State)
    requires Open(s)
    ensures Open(Return(MEMORY, s, false)) && Return(MEMORY, s, false).h.accepted == s.h.accepted
    ensures Closed(Lock(s)) && Lock(s).h.accepted == s.h.accepted
  {
    hide Proceed, End;
    if s.firing {
      OpenProceeds(s.(firingIndex := s.firingIndex + 1));
    }
  }

  lemma ClosedStep(s: State, e: CallbackList.Event)
    requires Closed(s) && !e.EvEmpty?
    ensures Closed(CallbackList.Step(MEMORY, s, e)) && CallbackList.Step(MEMORY, s, e).h.accepted == s.h.accepted
  {
    hide CallbackList.Dead, Locked, CallbackList.Step;
    if CallbackList.Dead(s) {
      DeadStep(MEMORY, s, e);
    } else {
      LockedStep(MEMORY, s, e);
    }
  }

  /** What a step does to the list for progress. */
  lemma ProgressStep(events: seq<Event>, e: Event)
    ensures var p, settled := Run(events).progress, SettledBy(events);
            Step(Run(events), e).progress ==
              match e
              case OnProgress(fns) => Add(MEMORY, p, fns)
              case Notify(value) => FireWith(MEMORY, p, value)
              case ReturnProgress => Return(MEMORY, p, false)
              case Resolve(_) => if settled.None? then Lock(p) else p
              case Reject(_) => if settled.None? then Lock(p) else p
              case _ => p
  {
    hide Run, RegisteredDone, RegisteredFail, SettledBy, Fresh, Over, Firing, FireWith, RunOwn, Add, Return, Lock;
    RunConsistent(events);
    var d, done, fail := Run(events), RegisteredDone(events), RegisteredFail(events);
    if e.Resolve? || e.Reject? {
      if SettledBy(events).Some? {
        LaterSettlesNothing(d, done, fail, SettledBy(events).value, e.value);
      } else if e.Resolve? {
        FireFresh(d.done, done, e.value);
        FiringOrOver(FireWith(ONCE_MEMORY, d.done, e.value), done, e.value);
        RunOwnSettles(d.(done := FireWith(ONCE_MEMORY, d.done, e.value)), true, done, fail, e.value);
      } else {
        FireFresh(d.fail, fail, e.value);
        FiringOrOver(FireWith(ONCE_MEMORY, d.fail, e.value), fail, e.value);
        RunOwnSettles(d.(fail := FireWith(ONCE_MEMORY, d.fail, e.value)), false, fail, done, e.value);
      }
    }
  }

  lemma CreateOpen()
    ensures Open(Create().progress) && Create().progress.h.accepted == []
  {
  }

  /** Notifications take effect exactly until the first settling call. */
  lemma {:induction false} NotifiedUntilSettled(events: seq<Event>)
    ensures var p := Run(events).progress;
            && p.h.accepted == Notified(events)
            && (if SettledBy(events).None? then Open(p) else Closed(p))
    decreases |events|
  {
    hide Step, Open, Closed, Add, FireWith, Return, Lock, Create;
    if events == [] {
      CreateOpen();
    } else {
      var before, e := events[..|events| - 1], events[|events| - 1];
      NotifiedUntilSettled(before);
      ProgressStep(before, e);
      var p := Run(before).progress;
      if SettledBy(before).None? {
        OpenAdds(p, if e.OnProgress? then e.fns else []);
        OpenFires(p, if e.Notify? then e.value else 0);
        OpenReturns(p);
      } else {
        ClosedStep(p, EvAdd(if e.OnProgress? then e.fns else []));
        ClosedStep(p, EvFireWith(if e.Notify? then e.value else 0));
        ClosedStep(p, EvReturn(false));
      }
    }
  }

  lemma CreateProgress()
    ensures Create().progress == Initial(MEMORY)
  {
  }

  lemma {:induction false} ProgressKeeps(events: seq<Event>)
    ensures Inv(MEMORY, Run(events).progress)
    decreases |events|
  {
    hide Step, Inv, Add, FireWith, Return, Lock, Create;
    if events == [] {
      InitialKeeps(MEMORY);
      assert Create().progress == Initial(MEMORY) by {
        CreateProgress();
      }
    } else {
      var before, e := events[..|events| - 1], events[|events| - 1];
      var p := Run(before).progress;
      ProgressKeeps(before);
      ProgressStep(before, e);
      match e
      case OnProgress(fns) => AddKeeps(MEMORY, p, fns);
      case Notify(value) => FireWithKeeps(MEMORY, p, value);
      case ReturnProgress => ReturnKeeps(MEMORY, p, false);
      case _ => DropKeeps(MEMORY, p);
    }
  }

  /** The progress callbacks get the notified values, in order, each a value notified before anything settled. */
  lemma ProgressInOrder(events: seq<Event>)
    ensures DataInOrder(Run(events).progress.h.log, Notified(events))
  {
    hide Run, Notified, SettledBy, Open, Closed, PassesInOrder;
    ProgressKeeps(events);
    NotifiedUntilSettled(events);
  }
}
