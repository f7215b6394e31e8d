/**
 Sizzle's :nth-child and :nth-last-child with their caches: one index on the parent, and one
 position on each element met from the end.
 */
module NthChild {
  import opened Wrappers

  datatype Child = Child(element: bool, name: nat)

  /** Which children are counted: the elements, or those with the name of the tested one. */
  datatype Counted = Elements | Named(name: nat)
  {
    predicate Has(c: Child)
    {
      if this.Elements? then c.element else c.name == name
    }
  }

  function Count(children: seq<Child>, what: Counted): nat
  {
    if children == [] then 0
    else Count(children[..|children| - 1], what) + if what.Has(children[|children| - 1]) then 1 else 0
  }

  lemma CountStep(children: seq<Child>, what: Counted, i: nat)
    requires i < |children|
    ensures Count(children[..i + 1], what) == Count(children[..i], what) + if what.Has(children[i]) then 1 else 0
  {
    assert children[..i + 1][..i] == children[..i];
  }

  /** The children from the last one on. */
  function Reversed(children: seq<Child>): (r: seq<Child>)
    ensures |r| == |children| && forall i :: 0 <= i < |r| ==> r[i] == children[|children| - 1 - i]
  {
    seq(|children|, i requires 0 <= i < |children| => children[|children| - 1 - i])
  }

  /** The 1-based position of child e among the counted ones, from the start or from the end. */
  function Position(children: seq<Child>, what: Counted, e: nat, forward: bool): nat
    requires e < |children|
  {
    if forward then Count(children[..e + 1], what)
    else Count(Reversed(children)[..|children| - e], what)
  }

  /** The counted children that the search meets before child e. */
  function Before(children: seq<Child>, what: Counted, e: nat, forward: bool): nat
    requires e < |children|
  {
    if forward then Count(children[..e], what) else Count(Reversed(children)[..|children| - 1 - e], what)
  }

  /** The counted children from position lo up to hi. */
  ghost function CountedIn(children: seq<Child>, what: Counted, lo: nat, hi: nat): set<nat>
    requires hi <= |children|
  {
    match what
    case Elements => set i: nat | lo <= i < hi && children[i].element
    case Named(name) => set i: nat | lo <= i < hi && children[i].name == name
  }

  lemma {:induction false} CountIsCardinality(children: seq<Child>, what: Counted, n: nat)
    requires n <= |children|
    ensures Count(children[..n], what) == |CountedIn(children, what, 0, n)|
    decreases n
  {
    if n > 0 {
      CountStep(children, what, n - 1);
      CountIsCardinality(children, what, n - 1);
      assert CountedIn(children, what, 0, n)
          == CountedIn(children, what, 0, n - 1) + if what.Has(children[n - 1]) then {n - 1} else {};
    } else {
      assert CountedIn(children, what, 0, 0) == {};
    }
  }

  lemma {:induction false} ReversedCardinality(children: seq<Child>, what: Counted, n: nat)
    requires n <= |children|
    ensures Count(Reversed(children)[..n], what) == |CountedIn(children, what, |children| - n, |children|)|
    decreases n
  {
    var m := |children|;
    if n > 0 {
      CountStep(Reversed(children), what, n - 1);
      ReversedCardinality(children, what, n - 1);
      assert CountedIn(children, what, m - n, m)
          == CountedIn(children, what, m - n + 1, m) + if what.Has(children[m - n]) then {m - n} else {};
    } else {
      assert CountedIn(children, what, m, m) == {};
    }
  }

  /** The position of a child is the number of children that count up to it, itself included. */
  lemma PositionIsCardinality(children: seq<Child>, what: Counted, e: nat)
    requires e < |children|
    ensures Position(children, what, e, true) == |CountedIn(children, what, 0, e + 1)|
    ensures Position(children, what, e, false) == |CountedIn(children, what, e, |children|)|
  {
    CountIsCardinality(children, what, e + 1);
    ReversedCardinality(children, what, |children| - e);
  }

  /* ---------- the cycle test ---------- */

  /** The remainder of JavaScript, which has the sign of the dividend. */
  function JsRemainder(x: int, y: int): int
    requires y != 0
  {
    if x >= 0 then x % y else -((-x) % y)
  }

  /**
   The test the filter ends with; first is a, diff is the position less b. A remainder by 0 is NaN,
   which equals nothing.
   */
  predicate CycleTest(diff: int, first: int)
  {
    diff == first || (first != 0 && JsRemainder(diff, first) == 0 && (diff == 0 || (diff > 0) == (first > 0)))
  }

  /** Section 6.6.5.2 of Selectors Level 3: an + b for some n >= 0. */
  ghost predicate InCycle(position: int, a: int, b: int)
  {
    exists n: nat :: position == a * n + b
  }

  lemma SameSign(a: int, q: int)
    requires a != 0
    ensures q < 0 ==> (a > 0 ==> a * q < 0) && (a < 0 ==> a * q > 0)
  {
    if q < 0 && a < 0 {
      assert a * q == (-a) * (-q);
    }
  }

  lemma QuotientSign(diff: int, a: int, q: int) returns (n: nat)
    requires diff == a * q && a != 0 && (diff == 0 || (diff > 0) == (a > 0))
    ensures diff == a * n
  {
    SameSign(a, q);
    n := q;
  }

  lemma Quotient(diff: int, a: int) returns (n: nat)
    requires a != 0 && JsRemainder(diff, a) == 0 && (diff == 0 || (diff > 0) == (a > 0))
    ensures diff == a * n
  {
    if diff >= 0 {
      assert diff == a * (diff / a) + diff % a;
      n := QuotientSign(diff, a, diff / a);
    } else {
      assert -diff == a * ((-diff) / a) + (-diff) % a;
      n := QuotientSign(diff, a, -((-diff) / a));
    }
  }

  lemma AtLeast(a: int, d: int)
    requires a > 0
    ensures d >= 1 ==> a * d >= a
    ensures d <= -1 ==> a * d <= -a
  {
  }

  lemma Between(a: int, d: int, r: int)
    requires a > 0 && a * d == r && 0 <= r < a
    ensures r == 0
  {
    AtLeast(a, d);
  }

  lemma MultipleOf(a: int, n: nat)
    requires a > 0
    ensures (a * n) % a == 0
  {
    var q, r := (a * n) / a, (a * n) % a;
    assert a * n == a * q + r;
    assert a * (n - q) == r;
    Between(a, n - q, r);
  }

  lemma MultiplePasses(a: int, n: nat)
    ensures CycleTest(a * n, a)
  {
    if a != 0 && n > 0 {
      if a > 0 {
        assert a * n > 0;
        MultipleOf(a, n);
      } else {
        assert a * n < 0;
        assert -(a * n) == (-a) * n;
        MultipleOf(-a, n);
        assert (-(a * n)) % a == (-(a * n)) % (-a);
      }
    } else {
      assert a * n == 0;
    }
  }

  lemma CycleTestIsCycle(position: int, a: int, b: int)
    ensures CycleTest(position - b, a) <==> InCycle(position, a, b)
  {
    var diff := position - b;
    if CycleTest(diff, a) {
      if diff == a {
        assert position == a * 1 + b;
      } else {
        var n := Quotient(diff, a);
        assert position == a * n + b;
      }
    }
    if n: nat :| position == a * n + b {
      MultiplePasses(a, n);
    }
  }

  /** Counting one more node in the direction of the search. */
  lemma StepTo(children: seq<Child>, what: Counted, node: nat, forward: bool)
    requires node < |children|
    ensures Position(children, what, node, forward)
         == Before(children, what, node, forward) + if what.Has(children[node]) then 1 else 0
    ensures forward && node + 1 < |children| ==>
              Before(children, what, node + 1, forward) == Position(children, what, node, forward)
    ensures !forward && node > 0 ==>
              Before(children, what, node - 1, forward) == Position(children, what, node, forward)
  {
    if forward {
      CountStep(children, what, node);
    } else {
      CountStep(Reversed(children), what, |children| - 1 - node);
    }
  }

  lemma FirstStep(children: seq<Child>, what: Counted, forward: bool)
    requires children != []
    ensures Before(children, what, if forward then 0 else |children| - 1, forward) == 0
  {
  }

  lemma PositionPositive(children: seq<Child>, what: Counted, e: nat, forward: bool)
    requires e < |children| && what.Has(children[e])
    ensures Position(children, what, e, forward) >= 1
  {
    StepTo(children, what, e, forward);
  }

  /** The shortcut :nth-*(n). */
  lemma Always(position: nat)
    ensures InCycle(position, 1, 0)
  {
    assert position == 1 * position + 0;
  }

  /* ---------- the code ---------- */

  /** The children of one node, with the caches in the expando objects. */
  class Family {
    var children: seq<Child>
    var parentCache: Option<(nat, nat, nat)>   // [ dirruns, nodeIndex, diff ] under "nth"
    var childCaches: map<nat, (nat, nat)>      // [ dirruns, diff ] under "nth-last", per child

    ghost predicate Valid(dirruns: nat)
      reads this
    {
      && (parentCache.Some? && parentCache.value.0 == dirruns ==>
            && parentCache.value.1 < |children|
            && parentCache.value.2 == Position(children, Elements, parentCache.value.1, true))
      && (forall e <- childCaches :: childCaches[e].0 == dirruns ==>
            e < |children| && childCaches[e].1 == Position(children, Elements, e, false))
    }

    constructor (children: seq<Child>)
      ensures this.children == children && forall dirruns :: Valid(dirruns)
    {
      this.children := children;
      parentCache, childCaches := None, map[];
    }

    /** Between runs the document may change; what earlier runs cached stays. */
    method Change(children: seq<Child>, ghost dirruns: nat)
      requires parentCache.Some? ==> parentCache.value.0 < dirruns
      requires forall e <- childCaches :: childCaches[e].0 < dirruns
      modifies this
      ensures this.children == children && Valid(dirruns)
    {
      this.children := children;
    }

    /** :nth-child, which seeks from the index cached on the parent and falls back to the start. */
    method SeekForward(e: nat, dirruns: nat) returns (diff: nat)
      requires Valid(dirruns) && e < |children| && children[e].element
      modifies this
      ensures Valid(dirruns) && children == old(children) && childCaches == old(childCaches)
      ensures diff == Position(children, Elements, e, true)
    {
      var cached := parentCache.Some? && parentCache.value.0 == dirruns;
      var nodeIndex: nat := if cached then parentCache.value.1 else 0;
      diff := if cached then parentCache.value.2 else 0;
      var node: Option<nat> := if cached && nodeIndex != 0 then Some(nodeIndex) else None;
      var startLeft := true;
      while true
        invariant node.Some? ==> node.value < |children| && nodeIndex == node.value
        invariant node.Some? ==> diff == Position(children, Elements, node.value, true)
        invariant !startLeft ==> node.Some? && node.value < e
        invariant children == old(children) && childCaches == old(childCaches) && parentCache == old(parentCache)
        decreases startLeft, if node.Some? then |children| - node.value else |children| + 1
      {
        nodeIndex := nodeIndex + 1;
        if node.Some? && node.value + 1 < |children| {
          CountStep(children, Elements, nodeIndex);
          node := Some(node.value + 1);
        } else {
          diff, nodeIndex := 0, 0;
          CountStep(children, Elements, 0);
          node, startLeft := Some(0), false;   // start is popped once only, see the invariant
        }
        if children[node.value].element {
          diff := diff + 1;
          if node.value == e {
            parentCache := Some((dirruns, nodeIndex, diff));
            return;
          }
        }
      }
    }

    /** :nth-last-child in an HTML document, which remembers the position of every element it meets. */
    method SeekBackward(e: nat, dirruns: nat) returns (diff: nat)
      requires Valid(dirruns) && e < |children| && children[e].element
      modifies this
      ensures Valid(dirruns) && children == old(children) && parentCache == old(parentCache)
      ensures diff == Position(children, Elements, e, false)
    {
      if e in childCaches && childCaches[e].0 == dirruns {
        return childCaches[e].1;
      }
      diff := SeekFromStart(e, dirruns, Elements, false, true);
    }

    /** The loop without a starting index: XML documents, :nth-of-type and the backward search. */
    method SeekFromStart(e: nat, dirruns: nat, what: Counted, forward: bool, useCache: bool) returns (diff: nat)
      requires Valid(dirruns) && e < |children| && what.Has(children[e])
      requires useCache ==> !forward && what.Elements?
      modifies this
      ensures Valid(dirruns) && children == old(children) && parentCache == old(parentCache)
      ensures diff == Position(children, what, e, forward)
    {
      hide Position, Before, Count, Reversed;
      var node := if forward then 0 else |children| - 1;
      diff := 0;
      FirstStep(children, what, forward);
      while true
        invariant 0 <= node < |children| && (if forward then node <= e else e <= node)
        invariant diff == Before(children, what, node, forward)
        invariant Valid(dirruns) && children == old(children) && parentCache == old(parentCache)
        decreases if forward then e - node else node - e
      {
        StepTo(children, what, node, forward);
        if what.Has(children[node]) {
          diff := diff + 1;
          if useCache {
            childCaches := childCaches[node := (dirruns, diff)];
          }
          if node == e {
            return;
          }
        }
        node := if forward then node + 1 else node - 1;
      }
    }

    /** The filter for type "nth" or "nth-last" with an + b. */
    method Matches(e: nat, a: int, b: int, forward: bool, ofType: bool, xml: bool, dirruns: nat) returns (r: bool)
      requires Valid(dirruns) && e < |children| && children[e].element
      modifies this
      ensures Valid(dirruns) && children == old(children)
      ensures r <==> InCycle(Position(children, if ofType then Named(children[e].name) else Elements, e, forward), a, b)
    {
      var what := if ofType then Named(children[e].name) else Elements;
      PositionPositive(children, what, e, forward);
      if a == 1 && b == 0 {
        Always(Position(children, what, e, forward));
        return true;
      }
      var diff;
      if forward && !xml && !ofType {
        diff := SeekForward(e, dirruns);
      } else if !xml && !ofType {
        diff := SeekBackward(e, dirruns);
      } else {
        diff := SeekFromStart(e, dirruns, what, forward, false);
      }
      CycleTestIsCycle(diff, a, b);
      return CycleTest(diff - b, a);
    }
  }
}
