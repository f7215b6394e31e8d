/**
 mox: the queue of expected calls, how recording builds it and how replay consumes it. Methods
 stand for a method with its parameters; equality of methods is taken as plain equality.
 */
module MoxReplay {
  import opened Wrappers

  type Method = nat

  /** The recorded methods hash by identity, so a group keeps an equal method recorded twice as two. */
  datatype Item =
    | Plain(m: Method)
    | Unordered(name: string, methods: seq<Method>)
    | Multiple(name: string, methods: seq<Method>, called: seq<Method>)
  {
    function Members(): seq<Method>
    {
      if this.Plain? then [m] else methods
    }

    /** MultipleTimesGroup.IsSatisfied: every method was called as often as it was recorded, at least. */
    ghost predicate Satisfied()
      requires Multiple?
    {
      multiset(methods) <= multiset(called)
    }
  }

  type Queue = seq<Item>

  /** A queue in replay: only the group at the head may be partly consumed. */
  predicate WellFormed(q: Queue)
  {
    && (forall k :: 0 <= k < |q| ==> q[k].Members() != [])
    && (forall k :: 0 < k < |q| && q[k].Multiple? ==> q[k].called == [])
  }

  function RemoveFirst(ms: seq<Method>, m: Method): (r: seq<Method>)
    requires m in ms
    ensures multiset(r) == multiset(ms) - multiset{m} && |r| == |ms| - 1
  {
    assert ms == [ms[0]] + ms[1..];
    if ms[0] == m then ms[1..] else [ms[0]] + RemoveFirst(ms[1..], m)
  }

  /** One call in replay: the new queue, or None for UnexpectedMethodCallError. */
  ghost function Call(q: Queue, m: Method): (r: Option<Queue>)
    decreases |q|
  {
    if q == [] then None
    else
      var head, rest := q[0], q[1..];
      match head
      case Plain(p) => if p == m then Some(rest) else None
      case Unordered(name, ms) =>
        if m !in ms then None
        else
          var left := RemoveFirst(ms, m);
          Some(if left == [] then rest else [Unordered(name, left)] + rest)
      case Multiple(name, ms, called) =>
        if m in ms then Some([Multiple(name, ms, called + [m])] + rest)
        else if head.Satisfied() then Call(rest, m)
        else None
  }

  /** _Verify: nothing is left but possibly a last satisfied MultipleTimesGroup. */
  ghost predicate Passes(q: Queue)
  {
    q == [] || (|q| == 1 && q[0].Multiple? && q[0].Satisfied())
  }

  /** The trace runs through without an error, and Verify passes at the end. */
  ghost predicate Accepts(q: Queue, trace: seq<Method>)
    decreases |trace|
  {
    if trace == [] then Passes(q)
    else
      var next := Call(q, trace[0]);
      next.Some? && Accepts(next.value, trace[1..])
  }

  /* ---------- the language of a queue ---------- */

  /** What an item stands for: its call, a permutation, or any sequence of its methods that covers them. */
  ghost predicate Word(item: Item, w: seq<Method>)
  {
    match item
    case Plain(m) => w == [m]
    case Unordered(_, ms) => multiset(w) == multiset(ms)
    case Multiple(_, ms, called) => (forall x <- w :: x in ms) && multiset(ms) <= multiset(called) + multiset(w)
  }

  /** Concatenations of words of the items. */
  ghost predicate Language(q: Queue, w: seq<Method>)
  {
    if q == [] then w == []
    else exists i :: 0 <= i <= |w| && Word(q[0], w[..i]) && Language(q[1..], w[i..])
  }

  /** The same, each MultipleTimesGroup taking all it can. */
  ghost predicate Greedy(q: Queue, w: seq<Method>)
  {
    if q == [] then w == []
    else exists i :: GreedyAt(q, w, i)
  }

  ghost predicate GreedyAt(q: Queue, w: seq<Method>, i: int)
    requires q != []
    decreases q, w, 0
  {
    && 0 <= i <= |w| && Word(q[0], w[..i]) && Greedy(q[1..], w[i..])
    && (q[0].Multiple? && i < |w| ==> w[i] !in q[0].methods)
  }

  /* ---------- replay accepts exactly the greedy language ---------- */

  lemma {:induction false} CallWellFormed(q: Queue, m: Method)
    requires WellFormed(q)
    ensures Call(q, m).Some? ==> WellFormed(Call(q, m).value)
    decreases |q|
  {
    if q != [] {
      CallWellFormed(q[1..], m);
    }
  }

  lemma EmptyWord(item: Item)
    requires item.Members() != []
    ensures Word(item, []) <==> item.Multiple? && item.Satisfied()
    ensures item.Multiple? && item.called == [] ==> !item.Satisfied()
  {
    var ms := item.Members();
    assert ms[0] in multiset(ms);
    if item.Multiple? && item.called == [] {
      assert multiset(item.called)[ms[0]] == 0;
    }
  }

  /** Without its last call no item that is not begun is complete. */
  lemma {:induction false} NothingLeft(q: Queue)
    requires WellFormed(q)
    ensures Greedy(q, []) <==> Passes(q)
    decreases |q|
  {
    if q != [] {
      NothingLeft(q[1..]);
      EmptyWord(q[0]);
      if q[1..] != [] {
        EmptyWord(q[1]);
      }
      var none: seq<Method> := [];
      assert none[..0] == [] && none[0..] == [];
      assert Greedy(q, none) <==> GreedyAt(q, none, 0);
    }
  }

  /** A word of an item that starts with m is m and a word of what the item becomes. */
  lemma PlainWord(p: Method, m: Method, w: seq<Method>)
    ensures Word(Plain(p), [m] + w) <==> m == p && w == []
  {
    assert ([m] + w)[0] == m && ([m] + w)[1..] == w;
  }

  lemma UnorderedWord(name: string, ms: seq<Method>, m: Method, w: seq<Method>)
    ensures Word(Unordered(name, ms), [m] + w) <==> m in ms && Word(Unordered(name, RemoveFirst(ms, m)), w)
  {
    assert multiset([m] + w) == multiset{m} + multiset(w);
    if m in ms {
      assert multiset(ms) == multiset(RemoveFirst(ms, m)) + multiset{m};
    } else {
      assert m in multiset([m] + w) && m !in multiset(ms);
    }
  }

  lemma MultipleWord(name: string, ms: seq<Method>, called: seq<Method>, m: Method, w: seq<Method>)
    ensures Word(Multiple(name, ms, called), [m] + w) <==> m in ms && Word(Multiple(name, ms, called + [m]), w)
  {
    assert multiset([m] + w) == multiset{m} + multiset(w);
    assert multiset(called + [m]) + multiset(w) == multiset(called) + multiset([m] + w);
    assert ([m] + w)[0] == m;
    assert forall x :: x in [m] + w <==> x == m || x in w;
  }

  /** The split point of [m] + w behind at least m, and that of w. */
  lemma ShiftSplit(m: Method, w: seq<Method>, i: nat)
    requires i <= |w|
    ensures ([m] + w)[..i + 1] == [m] + w[..i] && ([m] + w)[i + 1..] == w[i..]
    ensures i < |w| ==> ([m] + w)[i + 1] == w[i]
  {
  }

  lemma NoCut(w: seq<Method>)
    ensures w[..0] == [] && w[0..] == w
  {
  }

  /** A split of a trace of head and rest. */
  ghost predicate Split(head: Item, rest: Queue, v: seq<Method>, i: nat)
  {
    && i <= |v| && Word(head, v[..i]) && Greedy(rest, v[i..])
    && (head.Multiple? && i < |v| ==> v[i] !in head.methods)
  }

  lemma SplitGreedy(head: Item, rest: Queue, v: seq<Method>, i: nat)
    requires Split(head, rest, v, i)
    ensures Greedy([head] + rest, v)
  {
    hide Word;
    var q := [head] + rest;
    assert q[0] == head && q[1..] == rest;
    assert GreedyAt(q, v, i);
  }

  lemma GreedySplit(head: Item, rest: Queue, v: seq<Method>) returns (i: nat)
    requires Greedy([head] + rest, v)
    ensures Split(head, rest, v, i)
  {
    hide Word;
    var q := [head] + rest;
    assert q[0] == head && q[1..] == rest;
    i :| GreedyAt(q, v, i);
  }

  lemma PlainIsGreedy(p: Method, rest: Queue, m: Method, w: seq<Method>)
    ensures Greedy([Plain(p)] + rest, [m] + w) <==> m == p && Greedy(rest, w)
  {
    hide Word, Greedy;
    var v := [m] + w;
    NoCut(v);
    NoCut(w);
    EmptyWord(Plain(p));
    if m == p && Greedy(rest, w) {
      ShiftSplit(m, w, 0);
      PlainWord(p, m, w[..0]);
      SplitGreedy(Plain(p), rest, v, 1);
    }
    if Greedy([Plain(p)] + rest, v) {
      var i := GreedySplit(Plain(p), rest, v);
      ShiftSplit(m, w, i - 1);
      PlainWord(p, m, w[..i - 1]);
    }
  }

  lemma NothingUnordered(name: string, w: seq<Method>)
    ensures Word(Unordered(name, []), w) <==> w == []
  {
    if w != [] {
      assert w[0] in multiset(w);
    }
  }

  lemma UnorderedIsGreedy(name: string, ms: seq<Method>, rest: Queue, m: Method, w: seq<Method>)
    requires ms != [] && m in ms
    ensures var left := RemoveFirst(ms, m);
            Greedy([Unordered(name, ms)] + rest, [m] + w)
            <==> if left == [] then Greedy(rest, w) else Greedy([Unordered(name, left)] + rest, w)
  {
    hide Word, Greedy;
    var head, left, v := Unordered(name, ms), RemoveFirst(ms, m), [m] + w;
    var next := Unordered(name, left);
    NoCut(v);
    NoCut(w);
    EmptyWord(head);
    if left == [] && Greedy(rest, w) {
      ShiftSplit(m, w, 0);
      UnorderedWord(name, ms, m, w[..0]);
      NothingUnordered(name, w[..0]);
      SplitGreedy(head, rest, v, 1);
    }
    if left != [] && Greedy([next] + rest, w) {
      var i := GreedySplit(next, rest, w);
      ShiftSplit(m, w, i);
      UnorderedWord(name, ms, m, w[..i]);
      SplitGreedy(head, rest, v, i + 1);
    }
    if Greedy([head] + rest, v) {
      var i := GreedySplit(head, rest, v);
      ShiftSplit(m, w, i - 1);
      UnorderedWord(name, ms, m, w[..i - 1]);
      NothingUnordered(name, w[..i - 1]);
      if left != [] {
        SplitGreedy(next, rest, w, i - 1);
      }
    }
  }

  lemma StrangerToUnordered(name: string, ms: seq<Method>, rest: Queue, m: Method, w: seq<Method>)
    requires ms != [] && m !in ms
    ensures !Greedy([Unordered(name, ms)] + rest, [m] + w)
  {
    hide Word, Greedy;
    var head, v := Unordered(name, ms), [m] + w;
    if Greedy([head] + rest, v) {
      var i := GreedySplit(head, rest, v);
      NoCut(v);
      EmptyWord(head);
      if i > 0 {
        ShiftSplit(m, w, i - 1);
        UnorderedWord(name, ms, m, w[..i - 1]);
      }
    }
  }

  /** A method of the group stays in the group. */
  lemma MultipleIsGreedy(name: string, ms: seq<Method>, called: seq<Method>, rest: Queue, m: Method, w: seq<Method>)
    requires m in ms
    ensures Greedy([Multiple(name, ms, called)] + rest, [m] + w)
       <==> Greedy([Multiple(name, ms, called + [m])] + rest, w)
  {
    hide Word, Greedy;
    var head, next, v := Multiple(name, ms, called), Multiple(name, ms, called + [m]), [m] + w;
    NoCut(v);
    if Greedy([next] + rest, w) {
      var i := GreedySplit(next, rest, w);
      ShiftSplit(m, w, i);
      MultipleWord(name, ms, called, m, w[..i]);
      SplitGreedy(head, rest, v, i + 1);
    }
    if Greedy([head] + rest, v) {
      var i := GreedySplit(head, rest, v);
      ShiftSplit(m, w, i - 1);
      MultipleWord(name, ms, called, m, w[..i - 1]);
      SplitGreedy(next, rest, w, i - 1);
    }
  }

  /** Any other method is for what comes behind the group, if the group is satisfied. */
  lemma StrangerToMultiple(name: string, ms: seq<Method>, called: seq<Method>, rest: Queue, m: Method, w: seq<Method>)
    requires ms != [] && m !in ms
    ensures Greedy([Multiple(name, ms, called)] + rest, [m] + w)
       <==> Multiple(name, ms, called).Satisfied() && Greedy(rest, [m] + w)
  {
    hide Word, Greedy;
    var head, v := Multiple(name, ms, called), [m] + w;
    NoCut(v);
    EmptyWord(head);
    if head.Satisfied() && Greedy(rest, v) {
      SplitGreedy(head, rest, v, 0);
    }
    if Greedy([head] + rest, v) {
      var i := GreedySplit(head, rest, v);
      if i > 0 {
        ShiftSplit(m, w, i - 1);
        MultipleWord(name, ms, called, m, w[..i - 1]);
      }
    }
  }

  lemma GreedyNone(m: Method, w: seq<Method>)
    ensures !Greedy([], [m] + w)
  {
  }

  lemma {:induction false} CallIsGreedy(q: Queue, m: Method, w: seq<Method>)
    requires WellFormed(q)
    ensures Greedy(q, [m] + w) <==> Call(q, m).Some? && Greedy(Call(q, m).value, w)
    decreases |q|
  {
    hide Greedy;
    if q == [] {
      GreedyNone(m, w);
    } else {
      var rest := q[1..];
      assert q == [q[0]] + rest;
      assert q[0].Members() != [];
      match q[0]
      case Plain(p) => PlainIsGreedy(p, rest, m, w);
      case Unordered(name, ms) =>
        if m in ms {
          UnorderedIsGreedy(name, ms, rest, m, w);
        } else {
          StrangerToUnordered(name, ms, rest, m, w);
        }
      case Multiple(name, ms, called) =>
        if m in ms {
          MultipleIsGreedy(name, ms, called, rest, m, w);
        } else {
          StrangerToMultiple(name, ms, called, rest, m, w);
          CallIsGreedy(rest, m, w);
        }
    }
  }

  /** Replay and Verify accept a trace iff it is a concatenation of words, each group taking all it can. */
  lemma {:induction false} AcceptsGreedy(q: Queue, trace: seq<Method>)
    requires WellFormed(q)
    ensures Accepts(q, trace) <==> Greedy(q, trace)
    decreases |trace|
  {
    hide Greedy, Call, Passes;
    if trace == [] {
      NothingLeft(q);
    } else {
      var m, w := trace[0], trace[1..];
      assert trace == [m] + w;
      CallIsGreedy(q, m, w);
      CallWellFormed(q, m);
      if Call(q, m).Some? {
        AcceptsGreedy(Call(q, m).value, w);
      }
    }
  }

  /* ---------- when that is the whole language ---------- */

  /** A queue as recording leaves it: no group has been called yet. */
  predicate Fresh(q: Queue)
  {
    forall k :: 0 <= k < |q| ==> q[k].Members() != [] && (q[k].Multiple? ==> q[k].called == [])
  }

  predicate Shares(a: Item, b: Item)
  {
    exists x <- a.Members() :: x in b.Members()
  }

  /** No MultipleTimesGroup shares a method with the item behind it. */
  predicate Disjoint(q: Queue)
  {
    forall k :: 0 <= k < |q| - 1 && q[k].Multiple? ==> !Shares(q[k], q[k + 1])
  }

  lemma {:induction false} GreedyIsLanguage(q: Queue, w: seq<Method>)
    requires Greedy(q, w)
    ensures Language(q, w)
    decreases |q|
  {
    hide Word;
    if q != [] {
      var i :| GreedyAt(q, w, i);
      GreedyIsLanguage(q[1..], w[i..]);
    }
  }

  /** A word of a fresh item is at least as long as the item, and all its methods are the item's. */
  lemma WordBounds(item: Item, w: seq<Method>)
    requires Word(item, w) && (item.Multiple? ==> item.called == [])
    ensures |w| >= |item.Members()| && forall x <- w :: x in item.Members()
  {
    var ms := item.Members();
    match item
    case Plain(_) =>
    case Unordered(_, _) =>
      assert |multiset(w)| == |multiset(ms)|;
      forall x | x in w
        ensures x in ms
      {
        assert x in multiset(w);
      }
    case Multiple(_, _, called) =>
      assert multiset(called) + multiset(w) == multiset(w);
      assert multiset(w) == multiset(ms) + (multiset(w) - multiset(ms));
      assert |multiset(w)| == |multiset(ms)| + |multiset(w) - multiset(ms)|;
  }

  /** A trace that is not empty starts with a method of the first item. */
  lemma FirstMethod(q: Queue, w: seq<Method>)
    requires Fresh(q) && Language(q, w) && w != []
    ensures q != [] && w[0] in q[0].Members()
  {
    hide Word;
    var i :| 0 <= i <= |w| && Word(q[0], w[..i]) && Language(q[1..], w[i..]);
    WordBounds(q[0], w[..i]);
    assert w[0] == w[..i][0];
  }

  lemma {:induction false} DisjointIsGreedy(q: Queue, w: seq<Method>)
    requires Fresh(q) && Disjoint(q) && Language(q, w)
    ensures Greedy(q, w)
    decreases |q|
  {
    hide Word;
    if q != [] {
      var i :| 0 <= i <= |w| && Word(q[0], w[..i]) && Language(q[1..], w[i..]);
      DisjointIsGreedy(q[1..], w[i..]);
      if q[0].Multiple? && i < |w| {
        FirstMethod(q[1..], w[i..]);
        assert w[i] == w[i..][0];
        assert q[1..][0] == q[1];
        assert !Shares(q[0], q[1]);
      }
      assert GreedyAt(q, w, i);
    }
  }

  /** The methods of all items in the order of recording; no word of the queue is shorter. */
  function Shortest(q: Queue): seq<Method>
  {
    if q == [] then [] else q[0].Members() + Shortest(q[1..])
  }

  lemma {:induction false} ShortestBounds(q: Queue, w: seq<Method>)
    requires Fresh(q) && Greedy(q, w)
    ensures |w| >= |Shortest(q)|
    decreases |q|
  {
    hide Word;
    if q != [] {
      var i :| GreedyAt(q, w, i);
      WordBounds(q[0], w[..i]);
      ShortestBounds(q[1..], w[i..]);
    }
  }

  lemma MembersWord(item: Item)
    requires item.Multiple? ==> item.called == []
    ensures Word(item, item.Members())
  {
  }

  lemma LanguageJoin(q: Queue, v: seq<Method>, w: seq<Method>)
    requires q != [] && Word(q[0], v) && Language(q[1..], w)
    ensures Language(q, v + w)
  {
    hide Word;
    assert (v + w)[..|v|] == v && (v + w)[|v|..] == w;
  }

  lemma {:induction false} ShortestInLanguage(q: Queue)
    requires Fresh(q)
    ensures Language(q, Shortest(q))
    decreases |q|
  {
    hide Word;
    if q != [] {
      ShortestInLanguage(q[1..]);
      MembersWord(q[0]);
      LanguageJoin(q, q[0].Members(), Shortest(q[1..]));
    }
  }

  /** A shortest word in which the part of item k + 1 starts with x. */
  function Trap(q: Queue, k: nat, x: Method): seq<Method>
    requires k + 1 < |q| && x in q[k + 1].Members()
  {
    if k == 0 then q[0].Members() + (([x] + RemoveFirst(q[1].Members(), x)) + Shortest(q[1..][1..]))
    else q[0].Members() + Trap(q[1..], k - 1, x)
  }

  lemma Rotated(item: Item, x: Method)
    requires x in item.Members() && (item.Multiple? ==> item.called == [])
    ensures Word(item, [x] + RemoveFirst(item.Members(), x))
  {
    var ms, rest := item.Members(), RemoveFirst(item.Members(), x);
    assert multiset([x] + rest) == multiset{x} + multiset(rest) == multiset(ms);
    if item.Multiple? {
      forall y | y in [x] + rest
        ensures y in ms
      {
        assert y in multiset([x] + rest);
      }
    } else if item.Plain? {
      assert rest == [];
    }
  }

  lemma {:induction false} TrapLength(q: Queue, k: nat, x: Method)
    requires k + 1 < |q| && x in q[k + 1].Members()
    ensures |Trap(q, k, x)| == |Shortest(q)|
    decreases k
  {
    assert q[1..][0] == q[1];
    if k > 0 {
      TrapLength(q[1..], k - 1, x);
    }
  }

  lemma TrapHere(q: Queue, x: Method)
    requires Fresh(q) && 1 < |q| && x in q[1].Members()
    ensures Language(q[1..], ([x] + RemoveFirst(q[1].Members(), x)) + Shortest(q[1..][1..]))
  {
    hide Word, Language, Shortest, RemoveFirst;
    var rest := q[1..];
    assert rest[0] == q[1];
    Rotated(q[1], x);
    ShortestInLanguage(rest[1..]);
    LanguageJoin(rest, [x] + RemoveFirst(q[1].Members(), x), Shortest(rest[1..]));
  }

  lemma {:induction false} TrapInLanguage(q: Queue, k: nat, x: Method)
    requires Fresh(q) && k + 1 < |q| && x in q[k + 1].Members()
    ensures Language(q, Trap(q, k, x))
    decreases k
  {
    hide Word, Language, Shortest, RemoveFirst;
    MembersWord(q[0]);
    if k == 0 {
      TrapHere(q, x);
      LanguageJoin(q, q[0].Members(), ([x] + RemoveFirst(q[1].Members(), x)) + Shortest(q[1..][1..]));
    } else {
      TrapInLanguage(q[1..], k - 1, x);
      LanguageJoin(q, q[0].Members(), Trap(q[1..], k - 1, x));
    }
  }

  /** The group at k takes x although it needs no more, and then there is one call too few. */
  lemma {:induction false} TrapIsRejected(q: Queue, k: nat, x: Method)
    requires Fresh(q) && k + 1 < |q| && q[k].Multiple? && x in q[k].Members() && x in q[k + 1].Members()
    ensures !Greedy(q, Trap(q, k, x))
    decreases k
  {
    hide Word, Greedy;
    var w, n := Trap(q, k, x), |q[0].Members()|;
    var tail := w[n..];
    TrapLength(q, k, x);
    assert k == 0 ==> w[n] == x;
    if Greedy(q, w) {
      assert q == [q[0]] + q[1..];
      var i := GreedySplit(q[0], q[1..], w);
      WordBounds(q[0], w[..i]);
      ShortestBounds(q[1..], w[i..]);
      assert i == n;
      if k > 0 {
        assert tail == Trap(q[1..], k - 1, x);
        TrapIsRejected(q[1..], k - 1, x);
      }
    }
  }

  /**
   Replay and Verify accept exactly the concatenations of words of the recorded items if and only
   if no MultipleTimesGroup shares a method with the item recorded behind it.
   */
  lemma AcceptsLanguageIffDisjoint(q: Queue)
    requires Fresh(q)
    ensures Disjoint(q) <==> forall trace :: Accepts(q, trace) <==> Language(q, trace)
  {
    hide Greedy, Language, Accepts;
    forall trace
      ensures Accepts(q, trace) ==> Language(q, trace)
      ensures Disjoint(q) && Language(q, trace) ==> Accepts(q, trace)
    {
      AcceptsGreedy(q, trace);
      if Greedy(q, trace) {
        GreedyIsLanguage(q, trace);
      }
      if Disjoint(q) && Language(q, trace) {
        DisjointIsGreedy(q, trace);
      }
    }
    if !Disjoint(q) {
      var k :| 0 <= k < |q| - 1 && q[k].Multiple? && Shares(q[k], q[k + 1]);
      var x :| x in q[k].Members() && x in q[k + 1].Members();
      TrapInLanguage(q, k, x);
      TrapIsRejected(q, k, x);
      AcceptsGreedy(q, Trap(q, k, x));
      assert !Accepts(q, Trap(q, k, x)) && Language(q, Trap(q, k, x));
    }
  }

  /* ---------- recording ---------- */

  /** How a recorded call is marked: not at all, InAnyOrder(name) or MultipleTimes(name). */
  datatype Style = InOrder | InAnyOrder(name: string) | MultipleTimes(name: string)

  datatype Recording = Recording(m: Method, style: Style)

  /** Whether the item is a group of that class and name. */
  predicate Joins(item: Item, style: Style)
  {
    (style.InAnyOrder? && item.Unordered? && item.name == style.name)
    || (style.MultipleTimes? && item.Multiple? && item.name == style.name)
  }

  function WithMethod(item: Item, m: Method): Item
    requires !item.Plain?
  {
    item.(methods := item.methods + [m])
  }

  function NewItem(m: Method, style: Style): Item
  {
    match style
    case InOrder => Plain(m)
    case InAnyOrder(name) => Unordered(name, [m])
    case MultipleTimes(name) => Multiple(name, [m], [])
  }

  function Recorded(q: Queue, r: Recording): Queue
  {
    if q != [] && Joins(q[|q| - 1], r.style) then q[..|q| - 1] + [WithMethod(q[|q| - 1], r.m)]
    else q + [NewItem(r.m, r.style)]
  }

  function RecordAll(rs: seq<Recording>): Queue
  {
    if rs == [] then [] else Recorded(RecordAll(rs[..|rs| - 1]), rs[|rs| - 1])
  }

  function MethodsOf(rs: seq<Recording>): seq<Method>
  {
    seq(|rs|, k requires 0 <= k < |rs| => rs[k].m)
  }

  /** Groups of one class and name recorded in a row are one group. */
  predicate Merged(q: Queue)
  {
    forall k :: 0 <= k < |q| - 1 ==>
      && !(q[k].Unordered? && q[k + 1].Unordered? && q[k].name == q[k + 1].name)
      && !(q[k].Multiple? && q[k + 1].Multiple? && q[k].name == q[k + 1].name)
  }

  lemma {:induction false} ShortestSnoc(q: Queue, item: Item)
    ensures Shortest(q + [item]) == Shortest(q) + item.Members()
    decreases |q|
  {
    if q != [] {
      assert (q + [item])[1..] == q[1..] + [item];
      ShortestSnoc(q[1..], item);
    } else {
      assert ([] + [item])[1..] == [];
    }
  }

  lemma RecordedShortest(q: Queue, r: Recording)
    ensures Shortest(Recorded(q, r)) == Shortest(q) + [r.m]
  {
    hide Shortest;
    if q != [] && Joins(q[|q| - 1], r.style) {
      var front, last := q[..|q| - 1], q[|q| - 1];
      assert q == front + [last];
      ShortestSnoc(front, last);
      ShortestSnoc(front, WithMethod(last, r.m));
      assert Shortest(front) + (last.Members() + [r.m]) == (Shortest(front) + last.Members()) + [r.m];
    } else {
      ShortestSnoc(q, NewItem(r.m, r.style));
    }
  }

  lemma RecordedKeeps(q: Queue, r: Recording)
    requires Fresh(q) && Merged(q)
    ensures Fresh(Recorded(q, r)) && Merged(Recorded(q, r))
  {
  }

  lemma NothingRecorded()
    ensures Fresh([]) && Merged([]) && Shortest([]) == [] && MethodsOf([]) == []
  {
  }

  /** Every recorded call is in the queue, in order, in a fresh item. */
  lemma {:induction false} RecordAllKeeps(rs: seq<Recording>)
    ensures Fresh(RecordAll(rs)) && Merged(RecordAll(rs)) && Shortest(RecordAll(rs)) == MethodsOf(rs)
    decreases |rs|
  {
    hide Fresh, Merged, Recorded, Shortest;
    if rs == [] {
      NothingRecorded();
    } else {
      var before, r := rs[..|rs| - 1], rs[|rs| - 1];
      RecordAllKeeps(before);
      RecordedKeeps(RecordAll(before), r);
      RecordedShortest(RecordAll(before), r);
      assert MethodsOf(rs) == MethodsOf(before) + [r.m];
    }
  }

  /* ---------- what a recording accepts ---------- */

  function Concat<T>(parts: seq<seq<T>>): seq<T>
  {
    if parts == [] then [] else parts[0] + Concat(parts[1..])
  }

  /** Two neighbours marked with the same class and name of group. */
  predicate SameMark(a: Recording, b: Recording)
  {
    !a.style.InOrder? && a.style == b.style
  }

  predicate Filled<T(==)>(parts: seq<seq<T>>)
  {
    forall k :: 0 <= k < |parts| ==> parts[k] != []
  }

  predicate OneMark(run: seq<Recording>)
  {
    forall k :: 0 < k < |run| ==> SameMark(run[0], run[k])
  }

  /** The recordings cut into the longest runs of one mark; a call without a mark is a run of its own. */
  predicate IsCut(rs: seq<Recording>, runs: seq<seq<Recording>>)
  {
    && Concat(runs) == rs && Filled(runs)
    && (forall k :: 0 <= k < |runs| ==> OneMark(runs[k]))
    && (forall k :: 0 <= k < |runs| - 1 ==> !SameMark(runs[k][0], runs[k + 1][0]))
  }

  /** The calls a run asks for: the one call, all in any order, or each at least as often as recorded. */
  ghost predicate RunWord(run: seq<Recording>, w: seq<Method>)
    requires run != []
  {
    match run[0].style
    case InOrder => w == [run[0].m]
    case InAnyOrder(_) => multiset(w) == multiset(MethodsOf(run))
    case MultipleTimes(_) => (forall x <- w :: x in MethodsOf(run)) && multiset(MethodsOf(run)) <= multiset(w)
  }

  /** Run by run, in the order of recording. */
  ghost predicate RunsWord(runs: seq<seq<Recording>>, w: seq<Method>)
    requires Filled(runs)
  {
    if runs == [] then w == []
    else exists i :: 0 <= i <= |w| && RunWord(runs[0], w[..i]) && RunsWord(runs[1..], w[i..])
  }

  predicate Overlap(a: seq<Recording>, b: seq<Recording>)
  {
    exists j, k :: 0 <= j < |a| && 0 <= k < |b| && a[j].m == b[k].m
  }

  /** No MultipleTimes run shares a method with the run behind it. */
  predicate DisjointRuns(runs: seq<seq<Recording>>)
    requires Filled(runs)
  {
    forall k :: 0 <= k < |runs| - 1 && runs[k][0].style.MultipleTimes? ==> !Overlap(runs[k], runs[k + 1])
  }

  function ItemOf(run: seq<Recording>): Item
    requires run != []
  {
    match run[0].style
    case InOrder => Plain(run[0].m)
    case InAnyOrder(name) => Unordered(name, MethodsOf(run))
    case MultipleTimes(name) => Multiple(name, MethodsOf(run), [])
  }

  function Items(runs: seq<seq<Recording>>): (q: Queue)
    requires Filled(runs)
    ensures |q| == |runs|
  {
    seq(|runs|, k requires 0 <= k < |runs| => ItemOf(runs[k]))
  }

  lemma {:induction false} ConcatSnoc<T>(parts: seq<seq<T>>, last: seq<T>)
    ensures Concat(parts + [last]) == Concat(parts) + last
  {
    if parts == [] {
      assert ([] + [last])[1..] == [];
      assert Concat([last]) == last + [];
    } else {
      ConcatSnoc(parts[1..], last);
      assert (parts + [last])[1..] == parts[1..] + [last];
    }
  }

  /** Without its last recording a cut is still one. */
  lemma CutFront(rs: seq<Recording>, runs: seq<seq<Recording>>)
    requires IsCut(rs, runs) && runs != []
    ensures var front, run := runs[..|runs| - 1], runs[|runs| - 1];
            && rs != [] && rs[|rs| - 1] == run[|run| - 1]
            && IsCut(rs[..|rs| - 1], if |run| == 1 then front else front + [run[..|run| - 1]])
  {
    var front, run := runs[..|runs| - 1], runs[|runs| - 1];
    assert runs == front + [run];
    ConcatSnoc(front, run);
    assert rs[..|rs| - 1] == Concat(front) + run[..|run| - 1];
    if |run| == 1 {
      assert Concat(front) + [] == Concat(front);
    } else {
      ConcatSnoc(front, run[..|run| - 1]);
    }
  }

  lemma MethodsSnoc(run: seq<Recording>)
    requires |run| > 1
    ensures MethodsOf(run) == MethodsOf(run[..|run| - 1]) + [run[|run| - 1].m]
  {
  }

  lemma ItemsSnoc(front: seq<seq<Recording>>, run: seq<Recording>)
    requires Filled(front) && run != []
    ensures Items(front + [run]) == Items(front) + [ItemOf(run)]
  {
    hide ItemOf;
  }

  /** The last recording of a longer run joins the group of the run. */
  lemma RunGrows(q: Queue, run: seq<Recording>)
    requires |run| > 1 && OneMark(run)
    ensures var r := run[|run| - 1];
            Recorded(q + [ItemOf(run[..|run| - 1])], r) == q + [ItemOf(run)]
  {
    MethodsSnoc(run);
    assert SameMark(run[0], run[|run| - 1]);
    var longer := q + [ItemOf(run[..|run| - 1])];
    assert longer[..|longer| - 1] == q;
  }

  /** The first recording of a run does not join the run before. */
  lemma RunBegins(front: seq<seq<Recording>>, r: Recording)
    requires Filled(front) && (front != [] ==> !SameMark(front[|front| - 1][0], r))
    ensures Recorded(Items(front), r) == Items(front) + [ItemOf([r])]
  {
    assert MethodsOf([r]) == [r.m];
  }

  /** Each run becomes one item of the queue. */
  lemma {:induction false} RecordedAsItems(rs: seq<Recording>, runs: seq<seq<Recording>>)
    requires IsCut(rs, runs)
    ensures RecordAll(rs) == Items(runs)
    decreases |rs|
  {
    hide Recorded, ItemOf, SameMark;
    if runs == [] {
      assert rs == [];
    } else {
      CutFront(rs, runs);
      var front, run := runs[..|runs| - 1], runs[|runs| - 1];
      assert runs == front + [run];
      ItemsSnoc(front, run);
      if |run| == 1 {
        RecordedAsItems(rs[..|rs| - 1], front);
        assert run == [run[0]];
        assert front != [] ==> front[|front| - 1] == runs[|runs| - 2];
        RunBegins(front, run[0]);
      } else {
        var part := run[..|run| - 1];
        RecordedAsItems(rs[..|rs| - 1], front + [part]);
        ItemsSnoc(front, part);
        RunGrows(Items(front), run);
      }
    }
  }

  lemma RunIsItem(run: seq<Recording>, w: seq<Method>)
    requires run != []
    ensures Word(ItemOf(run), w) <==> RunWord(run, w)
    ensures ItemOf(run).Members() == if run[0].style.InOrder? then [run[0].m] else MethodsOf(run)
  {
    assert multiset([]) + multiset(w) == multiset(w);
  }

  lemma {:induction false} RunsAreLanguage(runs: seq<seq<Recording>>, w: seq<Method>)
    requires Filled(runs)
    ensures Language(Items(runs), w) <==> RunsWord(runs, w)
    decreases |runs|
  {
    hide Word, RunWord, ItemOf;
    if runs != [] {
      assert Items(runs)[1..] == Items(runs[1..]);
      forall i | 0 <= i <= |w|
        ensures Word(Items(runs)[0], w[..i]) <==> RunWord(runs[0], w[..i])
        ensures Language(Items(runs)[1..], w[i..]) <==> RunsWord(runs[1..], w[i..])
      {
        RunIsItem(runs[0], w[..i]);
        RunsAreLanguage(runs[1..], w[i..]);
      }
    }
  }

  lemma MembersOfRun(run: seq<Recording>)
    requires run != [] && OneMark(run)
    ensures ItemOf(run).Members() == MethodsOf(run) && (ItemOf(run).Multiple? <==> run[0].style.MultipleTimes?)
  {
    if run[0].style.InOrder? {
      assert |run| > 1 ==> SameMark(run[0], run[1]);
      assert MethodsOf(run) == [run[0].m];
    }
  }

  lemma SharesIsOverlap(a: seq<Recording>, b: seq<Recording>)
    requires a != [] && b != [] && OneMark(a) && OneMark(b)
    ensures Shares(ItemOf(a), ItemOf(b)) <==> Overlap(a, b)
  {
    hide ItemOf;
    MembersOfRun(a);
    MembersOfRun(b);
    if Shares(ItemOf(a), ItemOf(b)) {
      var x :| x in MethodsOf(a) && x in MethodsOf(b);
      var j :| 0 <= j < |a| && MethodsOf(a)[j] == x;
      var k :| 0 <= k < |b| && MethodsOf(b)[k] == x;
      assert a[j].m == b[k].m;
    }
    if j, k :| 0 <= j < |a| && 0 <= k < |b| && a[j].m == b[k].m {
      assert MethodsOf(a)[j] in MethodsOf(a) && MethodsOf(b)[k] in MethodsOf(b);
    }
  }

  lemma DisjointIsDisjoint(rs: seq<Recording>, runs: seq<seq<Recording>>)
    requires IsCut(rs, runs)
    ensures Disjoint(Items(runs)) <==> DisjointRuns(runs)
  {
    hide Concat, ItemOf, Shares, Overlap, OneMark;
    var q := Items(runs);
    forall k | 0 <= k < |runs| - 1
      ensures q[k].Multiple? && Shares(q[k], q[k + 1]) <==>
                runs[k][0].style.MultipleTimes? && Overlap(runs[k], runs[k + 1])
    {
      MembersOfRun(runs[k]);
      SharesIsOverlap(runs[k], runs[k + 1]);
    }
    if !DisjointRuns(runs) {
      var k :| 0 <= k < |runs| - 1 && runs[k][0].style.MultipleTimes? && Overlap(runs[k], runs[k + 1]);
      assert q[k].Multiple? && Shares(q[k], q[k + 1]);
    }
  }

  /**
   What a recording accepts, in terms of the calls recorded: the traces that ask for the runs one after
   the other are exactly the accepted ones, if and only if no MultipleTimes run shares a method with
   the run behind it.
   */
  lemma RecordingAcceptsIff(rs: seq<Recording>, runs: seq<seq<Recording>>)
    requires IsCut(rs, runs)
    ensures DisjointRuns(runs) <==> forall trace :: Accepts(RecordAll(rs), trace) <==> RunsWord(runs, trace)
  {
    hide Accepts, Language, RunsWord;
    RecordAllKeeps(rs);
    RecordedAsItems(rs, runs);
    AcceptsLanguageIffDisjoint(Items(runs));
    forall trace
      ensures Language(Items(runs), trace) <==> RunsWord(runs, trace)
    {
      RunsAreLanguage(runs, trace);
    }
    DisjointIsDisjoint(rs, runs);
  }

  /** There is such a cut of every recording. */
  lemma {:induction false} CutExists(rs: seq<Recording>) returns (runs: seq<seq<Recording>>)
    ensures IsCut(rs, runs)
    decreases |rs|
  {
    if rs == [] {
      runs := [];
    } else {
      var before := CutExists(rs[..|rs| - 1]);
      var r := rs[|rs| - 1];
      assert rs == rs[..|rs| - 1] + [r];
      if before != [] && SameMark(before[|before| - 1][0], r) {
        var front, run := before[..|before| - 1], before[|before| - 1];
        assert before == front + [run];
        runs := front + [run + [r]];
        ConcatSnoc(front, run);
        ConcatSnoc(front, run + [r]);
      } else {
        runs := before + [[r]];
        ConcatSnoc(before, [r]);
      }
    }
  }

  /* ---------- the code ---------- */

  lemma Strike(tmp: seq<Method>, a: multiset<Method>, b: multiset<Method>, c: Method)
    requires multiset(tmp) == a - b
    ensures c in tmp ==> multiset(RemoveFirst(tmp, c)) == a - (b + multiset{c})
    ensures c !in tmp ==> multiset(tmp) == a - (b + multiset{c})
    ensures c in tmp && RemoveFirst(tmp, c) == [] ==> a <= b + multiset{c}
  {
    assert (a - b) - multiset{c} == a - (b + multiset{c});
    if c in tmp && RemoveFirst(tmp, c) == [] {
      assert a - (b + multiset{c}) == multiset{};
      forall x
        ensures a[x] <= (b + multiset{c})[x]
      {
        assert (a - (b + multiset{c}))[x] == 0;
      }
    }
  }

  lemma CalledSoFar(called: seq<Method>, i: nat)
    requires i < |called|
    ensures multiset(called[..i + 1]) == multiset(called[..i]) + multiset{called[i]}
    ensures multiset(called[..i]) + multiset{called[i]} <= multiset(called)
  {
    assert called[..i + 1] == called[..i] + [called[i]];
    assert called == called[..i + 1] + called[i + 1..];
  }

  /** MultipleTimesGroup.IsSatisfied: strikes out one expected method for each call. */
  method IsSatisfied(methods: seq<Method>, called: seq<Method>) returns (r: bool)
    requires methods != []
    ensures r <==> multiset(methods) <= multiset(called)
  {
    var tmp := methods;
    var i := 0;
    ghost var struck := multiset{};
    while i < |called|
      invariant 0 <= i <= |called| && tmp != []
      invariant struck == multiset(called[..i]) && multiset(tmp) == multiset(methods) - struck
    {
      var c := called[i];
      Strike(tmp, multiset(methods), struck, c);
      CalledSoFar(called, i);
      struck := struck + multiset{c};
      if c in tmp {
        tmp := RemoveFirst(tmp, c);
        if tmp == [] {
          CalledSoFar(called, i);
          return true;
        }
      }
      i := i + 1;
    }
    assert called[..i] == called;
    assert tmp[0] in multiset(tmp);
    return false;
  }

  class MockAnything {
    var queue: Queue      // _expected_calls_queue

    constructor ()
      ensures queue == []
    {
      queue := [];
    }

    /** A call in record mode, then InAnyOrder or MultipleTimes on it. */
    method Record(m: Method, style: Style)
      modifies this
      ensures queue == Recorded(old(queue), Recording(m, style))
    {
      queue := queue + [Plain(m)];
      if !style.InOrder? {
        CheckAndCreateNewGroup(m, style);
      }
    }

    /** _CheckAndCreateNewGroup: the call leaves the tail of the queue for a group. */
    method CheckAndCreateNewGroup(m: Method, style: Style)
      requires queue != [] && queue[|queue| - 1] == Plain(m) && !style.InOrder?
      modifies this
      ensures queue == Recorded(old(queue)[..|old(queue)| - 1], Recording(m, style))
    {
      queue := queue[..|queue| - 1];
      if queue != [] {
        var group := queue[|queue| - 1];
        if Joins(group, style) {
          queue := queue[..|queue| - 1] + [WithMethod(group, m)];
          return;
        }
      }
      queue := queue + [NewItem(m, style)];
    }

    /** _VerifyMethodCall; false stands for UnexpectedMethodCallError. */
    method VerifyMethodCall(m: Method) returns (ok: bool)
      requires WellFormed(queue)
      modifies this
      ensures ok <==> Call(old(queue), m).Some?
      ensures ok ==> Some(queue) == Call(old(queue), m) && WellFormed(queue)
    {
      CallWellFormed(queue, m);
      if queue == [] {
        return false;
      }
      var expected := queue[0];
      queue := queue[1..];
      assert [expected] + queue == old(queue);
      while !expected.Plain?
        invariant WellFormed([expected] + queue) && Call([expected] + queue, m) == Call(old(queue), m)
        decreases |queue|
      {
        ghost var q := [expected] + queue;
        assert q[0] == expected && q[1..] == queue && q[0].Members() != [];
        if expected.Unordered? {
          if m !in expected.methods {
            return false;
          }
          var left := RemoveFirst(expected.methods, m);
          if left != [] {
            queue := [Unordered(expected.name, left)] + queue;
          }
          return true;
        }
        if m in expected.methods {
          queue := [Multiple(expected.name, expected.methods, expected.called + [m])] + queue;
          return true;
        }
        var satisfied := IsSatisfied(expected.methods, expected.called);
        if !satisfied || queue == [] {
          return false;
        }
        assert forall k :: 0 <= k < |queue| ==> queue[k] == q[k + 1];
        expected := queue[0];
        queue := queue[1..];
        assert [expected] + queue == q[1..];
      }
      assert ([expected] + queue)[1..] == queue;
      return expected.m == m;
    }

    /** MockAnything._Verify */
    method Verify() returns (ok: bool)
      requires WellFormed(queue)
      ensures ok <==> Passes(queue)
    {
      if queue != [] {
        assert queue[0].Members() != [];
        if |queue| == 1 && queue[0].Multiple? {
          ok := IsSatisfied(queue[0].methods, queue[0].called);
          return;
        }
        return false;
      }
      return true;
    }

    /** A whole test: the trace, then Verify. */
    method ReplayAndVerify(trace: seq<Method>) returns (ok: bool)
      requires WellFormed(queue)
      modifies this
      ensures ok <==> Accepts(old(queue), trace)
    {
      for i := 0 to |trace|
        invariant WellFormed(queue) && Accepts(queue, trace[i..]) == Accepts(old(queue), trace)
      {
        assert trace[i..][0] == trace[i] && trace[i..][1..] == trace[i + 1..];
        ok := VerifyMethodCall(trace[i]);
        if !ok {
          return;
        }
      }
      assert trace[|trace|..] == [];
      ok := Verify();
    }
  }
}
