/**
 jQuery.when: the master's counter of unresolved subordinates. A subordinate settles at most once
 (Deferred.StateIsFinal); one that has settled before calls its listener during registration.
 */
module When {
  import opened Wrappers

  datatype Sub = Plain(value: nat) | Waiting | Resolved(value: nat) | Rejected(reason: nat)

  /** An element of resolveValues: until it is replaced, a promise stands for itself. */
  datatype Slot = Value(value: nat) | ThePromise

  datatype Outcome = ResolvedWith(values: seq<Slot>) | RejectedWith(reason: nat)

  predicate Finished(s: Sub)
  {
    s.Plain? || s.Resolved?
  }

  function SlotOf(s: Sub): Slot
  {
    if Finished(s) then Value(s.value) else ThePromise
  }

  function Slots(subs: seq<Sub>): seq<Slot>
  {
    seq(|subs|, k requires 0 <= k < |subs| => SlotOf(subs[k]))
  }

  /** The subordinates that keep the master waiting. */
  function Unresolved(subs: seq<Sub>): nat
  {
    if subs == [] then 0 else (if Finished(subs[0]) then 0 else 1) + Unresolved(subs[1..])
  }

  lemma {:induction false} UnresolvedNone(subs: seq<Sub>)
    ensures Unresolved(subs) <= |subs|
    ensures Unresolved(subs) == 0 <==> forall k :: 0 <= k < |subs| ==> Finished(subs[k])
  {
    if subs != [] {
      UnresolvedNone(subs[1..]);
      assert forall k :: 0 <= k < |subs| - 1 ==> subs[1..][k] == subs[k + 1];
    }
  }

  lemma {:induction false} UnresolvedUpdate(subs: seq<Sub>, i: nat, s: Sub)
    requires i < |subs|
    ensures Unresolved(subs[i := s]) + (if Finished(subs[i]) then 0 else 1)
         == Unresolved(subs) + (if Finished(s) then 0 else 1)
  {
    if i > 0 {
      assert subs[i := s][1..] == subs[1..][i - 1 := s];
      UnresolvedUpdate(subs[1..], i - 1, s);
    } else {
      assert subs[i := s][1..] == subs[1..];
    }
  }

  lemma {:induction false} UnresolvedSnoc(subs: seq<Sub>, s: Sub)
    ensures Unresolved(subs + [s]) == Unresolved(subs) + if Finished(s) then 0 else 1
  {
    if subs != [] {
      assert (subs + [s])[1..] == subs[1..] + [s];
      UnresolvedSnoc(subs[1..], s);
    } else {
      assert ([] + [s])[1..] == [];
    }
  }

  /** Whether one of the subordinates was rejected. */
  predicate AnyRejected(subs: seq<Sub>)
  {
    exists k :: 0 <= k < |subs| && subs[k].Rejected?
  }

  lemma AnyRejectedSnoc(subs: seq<Sub>, s: Sub)
    ensures AnyRejected(subs + [s]) == (AnyRejected(subs) || s.Rejected?)
  {
    if AnyRejected(subs) {
      var k :| 0 <= k < |subs| && subs[k].Rejected?;
      assert (subs + [s])[k].Rejected?;
    }
    if s.Rejected? {
      assert (subs + [s])[|subs|].Rejected?;
    }
  }

  lemma RejectedIsUnresolved(subs: seq<Sub>)
    requires AnyRejected(subs)
    ensures Unresolved(subs) > 0
  {
    UnresolvedNone(subs);
    var k :| 0 <= k < |subs| && subs[k].Rejected?;
    assert !Finished(subs[k]);
  }

  /** The outcome the documentation promises; reason is that of the rejection that came first. */
  function Promised(subs: seq<Sub>, reason: nat): Option<Outcome>
  {
    if AnyRejected(subs) then Some(RejectedWith(reason))
    else if forall k :: 0 <= k < |subs| ==> Finished(subs[k]) then Some(ResolvedWith(Slots(subs)))
    else None
  }

  lemma PromisedIs(subs: seq<Sub>, reason: nat)
    ensures Promised(subs, reason) == if AnyRejected(subs) then Some(RejectedWith(reason))
                                      else if Unresolved(subs) == 0 then Some(ResolvedWith(Slots(subs)))
                                      else None
  {
    UnresolvedNone(subs);
  }

  /** What a waiting subordinate leaves as it was, and what it changes. */
  lemma SubChanged(subs: seq<Sub>, i: nat, s: Sub, reason: nat)
    requires i < |subs| && subs[i].Waiting? && (s.Resolved? || s.Rejected?)
    ensures var later := subs[i := s];
            && AnyRejected(later) == (AnyRejected(subs) || s.Rejected?)
            && (Rejected(reason) in subs ==> Rejected(reason) in later)
            && Unresolved(later) == Unresolved(subs) - (if s.Resolved? then 1 else 0)
            && Unresolved(subs) > 0
            && Promised(subs, reason) == (if AnyRejected(subs) then Some(RejectedWith(reason)) else None)
            && (Unresolved(later) == 0 <==> forall k :: 0 <= k < |later| ==> Finished(later[k]))
            && (AnyRejected(later) ==> Unresolved(later) > 0)
  {
    var later := subs[i := s];
    UnresolvedUpdate(subs, i, s);
    UnresolvedNone(subs);
    UnresolvedNone(later);
    assert !Finished(subs[i]);
    if AnyRejected(subs) {
      var k :| 0 <= k < |subs| && subs[k].Rejected?;
      assert later[k].Rejected?;
    }
    if AnyRejected(later) {
      RejectedIsUnresolved(later);
      var k :| 0 <= k < |later| && later[k].Rejected?;
      assert k != i ==> subs[k].Rejected?;
    }
    if Rejected(reason) in subs {
      var k :| 0 <= k < |subs| && subs[k] == Rejected(reason);
      assert later[k] == Rejected(reason);
    }
    assert s.Rejected? ==> later[i].Rejected?;
  }

  /** when resolves exactly when all subordinates have, with their values in position. */
  lemma ResolvedIffAll(subs: seq<Sub>, reason: nat)
    ensures Unresolved(subs) == 0 <==> Promised(subs, reason).Some? && Promised(subs, reason).value.ResolvedWith?
    ensures forall k :: 0 <= k < |subs| && Unresolved(subs) == 0 ==>
              Promised(subs, reason).value.values[k] == Value(subs[k].value)
  {
    UnresolvedNone(subs);
    if AnyRejected(subs) {
      RejectedIsUnresolved(subs);
    }
  }

  class Master {
    const single: bool              // one promise: the master is that promise
    var remaining: nat
    var resolveValues: seq<Slot>
    var outcome: Option<Outcome>
    ghost var subs: seq<Sub>
    ghost var reason: nat           // of the first rejection

    ghost predicate Valid()
      reads this
    {
      && (single <==> |subs| == 1 && !subs[0].Plain?)
      && (!single ==> resolveValues == Slots(subs) && remaining == Unresolved(subs))
      && (AnyRejected(subs) ==> Rejected(reason) in subs)
      && outcome == Promised(subs, reason)
    }

    constructor (args: seq<Sub>)
      ensures Valid() && subs == args
    {
      single := |args| == 1 && !args[0].Plain?;
      remaining := if |args| != 1 || !args[0].Plain? then |args| else 0;
      resolveValues := seq(|args|, k requires 0 <= k < |args| =>
                             if args[k].Plain? then Value(args[k].value) else ThePromise);
      outcome := None;
      subs, reason := args, 0;
      new;
      if single {
        assert args == [args[0]];
        Follow(args[0]);
      } else {
        Register(args);
      }
    }

    /** Adds the listeners, and settles the master when nothing is left to wait for. */
    method Register(args: seq<Sub>)
      requires !single && subs == args && !(|args| == 1 && !args[0].Plain?) && outcome == None
      requires |resolveValues| == |args|
      requires forall k :: 0 <= k < |args| ==>
                 resolveValues[k] == if args[k].Plain? then SlotOf(args[k]) else ThePromise
      requires remaining == if |args| != 1 then |args| else 0
      modifies this
      ensures Valid() && subs == args
    {
      hide Promised;
      var i := 0;
      ghost var rejected := false;
      if |args| > 1 {
        while i < |args|
          invariant 0 <= i <= |args| && subs == args && |resolveValues| == |args|
          invariant remaining == Unresolved(args[..i]) + (|args| - i)
          invariant forall k :: 0 <= k < |args| ==>
                      resolveValues[k] == if k < i || args[k].Plain? then SlotOf(args[k]) else ThePromise
          invariant rejected == AnyRejected(args[..i]) && (rejected ==> Rejected(reason) in args)
          invariant if rejected then outcome == Some(RejectedWith(reason))
                    else outcome == None || (remaining == 0 && outcome == Some(ResolvedWith(resolveValues)))
        {
          assert args[..i + 1] == args[..i] + [args[i]];
          UnresolvedSnoc(args[..i], args[i]);
          AnyRejectedSnoc(args[..i], args[i]);
          if rejected {
            RejectedIsUnresolved(args[..i]);
          }
          if args[i].Plain? {
            remaining := remaining - 1;
          } else if args[i].Resolved? {
            Update(i, args[i].value);
          } else if args[i].Rejected? {
            RejectMaster(args[i].reason);
            rejected := true;
          }
          i := i + 1;
        }
        assert args[..i] == args;
      }
      UnresolvedNone(args);
      if AnyRejected(args) {
        RejectedIsUnresolved(args);
      }
      assert resolveValues == Slots(args);
      assert |args| <= 1 ==> !AnyRejected(args) && Unresolved(args) == 0;
      if remaining == 0 {
        ResolveMaster();
      }
      assert outcome == Promised(args, reason) by {
        PromisedIs(args, reason);
      }
    }

    /** The master that is the subordinate itself has its state. */
    method Follow(s: Sub)
      modifies this`outcome, this`reason
      ensures outcome == Promised([s], reason) && (s.Rejected? ==> reason == s.reason)
    {
      reason := if s.Rejected? then s.reason else 0;
      outcome := if s.Rejected? then Some(RejectedWith(s.reason))
                 else if s.Waiting? then None else Some(ResolvedWith([Value(s.value)]));
      assert s.Rejected? ==> [s][0].Rejected?;
      assert Slots([s]) == [SlotOf(s)];
      assert s.Waiting? ==> !Finished([s][0]);
    }

    /** deferred.resolveWith: the first settling call counts. */
    method ResolveMaster()
      modifies this`outcome
      ensures outcome == if old(outcome).None? then Some(ResolvedWith(resolveValues)) else old(outcome)
    {
      if outcome.None? {
        outcome := Some(ResolvedWith(resolveValues));
      }
    }

    method RejectMaster(value: nat)
      modifies this`outcome, this`reason
      ensures if old(outcome).None? then outcome == Some(RejectedWith(value)) && reason == value
              else outcome == old(outcome) && reason == old(reason)
    {
      if outcome.None? {
        outcome, reason := Some(RejectedWith(value)), value;
      }
    }

    /** updateFunc(i, ...) for resolveValues. */
    method Update(i: nat, value: nat)
      requires i < |resolveValues| && remaining > 0
      modifies this`remaining, this`resolveValues, this`outcome
      ensures remaining == old(remaining) - 1 && resolveValues == old(resolveValues)[i := Value(value)]
      ensures outcome == if remaining == 0 && old(outcome).None? then Some(ResolvedWith(resolveValues)) else old(outcome)
    {
      resolveValues := resolveValues[i := Value(value)];
      remaining := remaining - 1;
      if remaining == 0 {
        ResolveMaster();
      }
    }

    /** A waiting subordinate resolves. */
    method OnDone(i: nat, value: nat)
      requires Valid() && i < |subs| && subs[i].Waiting?
      modifies this
      ensures Valid() && subs == old(subs)[i := Resolved(value)]
      ensures AnyRejected(old(subs)) ==> reason == old(reason)
    {
      ghost var before := subs;
      subs := subs[i := Resolved(value)];
      SubChanged(before, i, Resolved(value), reason);
      if single {
        Follow(Resolved(value));
        assert subs == [Resolved(value)];
      } else {
        Update(i, value);
        assert resolveValues == Slots(subs);
      }
    }

    /** A waiting subordinate is rejected. */
    method OnFail(i: nat, value: nat)
      requires Valid() && i < |subs| && subs[i].Waiting?
      modifies this
      ensures Valid() && subs == old(subs)[i := Rejected(value)]
      ensures reason == if AnyRejected(old(subs)) then old(reason) else value
    {
      ghost var before := subs;
      subs := subs[i := Rejected(value)];
      SubChanged(before, i, Rejected(value), reason);
      assert subs[i] == Rejected(value);
      if single {
        Follow(Rejected(value));
        assert subs == [Rejected(value)];
      } else {
        RejectMaster(value);
        assert resolveValues == Slots(subs);
      }
    }

    /** At any time the master has resolved exactly if all subordinates have, with their values in position. */
    lemma HasResolvedIffAll()
      requires Valid()
      ensures (forall s <- subs :: Finished(s)) <==> outcome.Some? && outcome.value.ResolvedWith?
      ensures outcome.Some? && outcome.value.ResolvedWith? ==>
                && |outcome.value.values| == |subs|
                && forall k :: 0 <= k < |subs| ==> Finished(subs[k]) && outcome.value.values[k] == Value(subs[k].value)
      ensures (exists s <- subs :: s.Rejected?) <==> outcome.Some? && outcome.value.RejectedWith?
      ensures outcome.Some? && outcome.value.RejectedWith? ==> Rejected(outcome.value.reason) in subs
    {
      ResolvedIffAll(subs, reason);
      UnresolvedNone(subs);
      if AnyRejected(subs) {
        RejectedIsUnresolved(subs);
      }
      assert (forall s <- subs :: Finished(s)) <==> forall k :: 0 <= k < |subs| ==> Finished(subs[k]);
      assert (exists s <- subs :: s.Rejected?) <==> AnyRejected(subs);
    }
  }
}
