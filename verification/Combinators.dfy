/**
 Sizzle's addCombinator: ancestor and preceding-sibling searches that share one cache cell among
 all nodes of a call and fill it in later, also when searches are nested in one another.
 */
module Combinators {
  import opened Wrappers

  datatype Dir = ParentNode | PreviousSibling

  /** Nodes are numbered in document order, so parents and preceding siblings have smaller numbers. */
  datatype Node = Node(parent: Option<nat>, previous: Option<nat>, element: bool)

  type Tree = seq<Node>

  predicate WellFormed(tree: Tree)
  {
    forall n :: 0 <= n < |tree| ==>
      && (tree[n].parent.Some? ==> tree[n].parent.value < n)
      && (tree[n].previous.Some? ==> tree[n].previous.value < n)
  }

  function Next(tree: Tree, dir: Dir, n: nat): (m: Option<nat>)
    requires WellFormed(tree) && n < |tree|
    ensures m.Some? ==> m.value < n
  {
    if dir.ParentNode? then tree[n].parent else tree[n].previous
  }

  /**
   One compound of a selector and the combinator to its right; test holds the nodes that match the
   compound itself. The matcher of compound k is the compound and, to its left, combinator k - 1.
   */
  datatype Compound = Compound(dir: Dir, first: bool, checkNonElements: bool, test: set<nat>)

  /** A document, a selector, and the names the combinators got. */
  datatype Problem = Problem(tree: Tree, compounds: seq<Compound>, names: seq<nat>)
  {
    ghost predicate Valid()
    {
      && WellFormed(tree) && |names| == |compounds|
      && forall j, k :: 0 <= j < k < |names| ==> names[j] != names[k]
    }
  }

  /* ---------- what a search means ---------- */

  predicate Eligible(p: Problem, k: nat, n: nat)
    requires k < |p.compounds| && n < |p.tree|
  {
    p.tree[n].element || p.compounds[k].checkNonElements
  }

  /** Combinator k applied to n, without any memory. */
  predicate Found(p: Problem, k: nat, n: nat)
    requires p.Valid() && k < |p.compounds| && n < |p.tree|
    decreases k, n, 2
  {
    var m := Next(p.tree, p.compounds[k].dir, n);
    m.Some? && FoundFrom(p, k, m.value)
  }

  /** The matcher of compound k. */
  predicate Matches(p: Problem, k: nat, n: nat)
    requires p.Valid() && k < |p.compounds| && n < |p.tree|
    decreases k, n, 0
  {
    n in p.compounds[k].test && (k == 0 || Found(p, k - 1, n))
  }

  /** The search of combinator k from n on, n included. */
  predicate FoundFrom(p: Problem, k: nat, n: nat)
    requires p.Valid() && k < |p.compounds| && n < |p.tree|
    decreases k, n, 1
  {
    var m := Next(p.tree, p.compounds[k].dir, n);
    if Eligible(p, k, n) then Matches(p, k, n) || (!p.compounds[k].first && m.Some? && FoundFrom(p, k, m.value))
    else m.Some? && FoundFrom(p, k, m.value)
  }

  /** The nodes along a direction, nearest first. */
  function Along(tree: Tree, dir: Dir, n: nat): (path: seq<nat>)
    requires WellFormed(tree) && n < |tree|
    ensures forall m <- path :: m < n
  {
    var m := Next(tree, dir, n);
    if m.None? then [] else [m.value] + Along(tree, dir, m.value)
  }

  predicate Answers(p: Problem, k: nat, n: nat)
    requires p.Valid() && k < |p.compounds| && n < |p.tree|
  {
    Eligible(p, k, n) && Matches(p, k, n)
  }

  /** The nodes along the direction of combinator k. */
  function Path(p: Problem, k: nat, n: nat): (path: seq<nat>)
    requires p.Valid() && k < |p.compounds| && n < |p.tree|
    ensures forall m <- path :: m < n
  {
    Along(p.tree, p.compounds[k].dir, n)
  }

  lemma PathStep(p: Problem, k: nat, n: nat)
    requires p.Valid() && k < |p.compounds| && n < |p.tree|
    ensures var m := Next(p.tree, p.compounds[k].dir, n);
            if m.None? then Path(p, k, n) == [] && !Found(p, k, n)
            else forall x :: x in Path(p, k, n) <==> x == m.value || x in Path(p, k, m.value)
  {
  }

  /** A search over all nodes holds iff some node along its direction satisfies the matcher. */
  lemma {:induction false} FoundIsExists(p: Problem, k: nat, n: nat)
    requires p.Valid() && k < |p.compounds| && n < |p.tree| && !p.compounds[k].first
    ensures Found(p, k, n) <==> exists x :: x in Path(p, k, n) && Answers(p, k, x)
    decreases n
  {
    hide Matches, Eligible, Path;
    PathStep(p, k, n);
    var m := Next(p.tree, p.compounds[k].dir, n);
    if m.Some? {
      FoundIsExists(p, k, m.value);
      assert Found(p, k, n) == FoundFrom(p, k, m.value) == (Answers(p, k, m.value) || Found(p, k, m.value));
    }
  }

  predicate NoneNearer(p: Problem, k: nat, n: nat, x: nat)
    requires p.Valid() && k < |p.compounds| && n < |p.tree|
  {
    forall y <- Path(p, k, n) :: y > x ==> !Eligible(p, k, y)
  }

  /**
   A `first` search holds iff the nearest eligible node, the one with the largest number, exists and
   satisfies the matcher.
   */
  lemma {:induction false} FoundIsNearest(p: Problem, k: nat, n: nat)
    requires p.Valid() && k < |p.compounds| && n < |p.tree| && p.compounds[k].first
    ensures Found(p, k, n) <==> exists x :: x in Path(p, k, n) && Answers(p, k, x) && NoneNearer(p, k, n, x)
    decreases n
  {
    hide Matches, Eligible, Path;
    PathStep(p, k, n);
    var m := Next(p.tree, p.compounds[k].dir, n);
    if m.Some? {
      FoundIsNearest(p, k, m.value);
      assert Found(p, k, n) == FoundFrom(p, k, m.value)
          == if Eligible(p, k, m.value) then Answers(p, k, m.value) else Found(p, k, m.value);
      assert m.value in Path(p, k, n);
    }
  }

  /* ---------- what a selector means ---------- */

  /** Each node's parent, or previous sibling, is the next one. */
  ghost predicate Linked(tree: Tree, dir: Dir, xs: seq<nat>)
  {
    && (forall i :: 0 <= i < |xs| ==> xs[i] < |tree|)
    && match dir
       case ParentNode => forall i :: 0 <= i < |xs| - 1 ==> tree[xs[i]].parent == Some(xs[i + 1])
       case PreviousSibling => forall i :: 0 <= i < |xs| - 1 ==> tree[xs[i]].previous == Some(xs[i + 1])
  }

  ghost predicate HopVia(p: Problem, k: nat, n: nat, m: nat, xs: seq<nat>)
    requires k < |p.compounds|
  {
    && |xs| >= 2 && Linked(p.tree, p.compounds[k].dir, xs) && xs[0] == n && xs[|xs| - 1] == m
    && (p.tree[m].element || p.compounds[k].checkNonElements)
    && (p.compounds[k].first ==>
          forall i :: 0 < i < |xs| - 1 ==> !(p.tree[xs[i]].element || p.compounds[k].checkNonElements))
  }

  /**
   Combinator k leads from n to m, over one or more links: m is an element, unless the matcher asks for
   all nodes, and with `first` none of the nodes between is.
   */
  ghost predicate Hop(p: Problem, k: nat, n: nat, m: nat)
    requires k < |p.compounds|
  {
    exists xs :: HopVia(p, k, n, m, xs)
  }

  lemma HopStep(p: Problem, k: nat, n: nat, m1: nat, m: nat)
    requires p.Valid() && k < |p.compounds| && n < |p.tree| && Next(p.tree, p.compounds[k].dir, n) == Some(m1)
    requires m1 < |p.tree| && Hop(p, k, m1, m) && (p.compounds[k].first ==> !Eligible(p, k, m1))
    ensures Hop(p, k, n, m)
  {
    var xs :| HopVia(p, k, m1, m, xs);
    var ys := [n] + xs;
    forall i | 0 < i < |ys| - 1
      ensures p.compounds[k].first ==> !Eligible(p, k, ys[i])
    {
      assert ys[i] == xs[i - 1];
    }
    assert HopVia(p, k, n, m, ys);
  }

  /** A hop ends at the first node or goes on from it. */
  lemma HopFirst(p: Problem, k: nat, n: nat, m: nat) returns (m1: nat)
    requires p.Valid() && k < |p.compounds| && n < |p.tree| && Hop(p, k, n, m)
    ensures m1 < |p.tree| && Next(p.tree, p.compounds[k].dir, n) == Some(m1)
    ensures m < |p.tree| && Eligible(p, k, m)
    ensures m == m1 || (Hop(p, k, m1, m) && (p.compounds[k].first ==> !Eligible(p, k, m1)))
  {
    var xs :| HopVia(p, k, n, m, xs);
    m1 := xs[1];
    var ys := xs[1..];
    assert forall i :: 0 <= i < |ys| ==> ys[i] == xs[i + 1];
    if |xs| > 2 {
      assert HopVia(p, k, m1, m, ys);
    }
  }

  lemma HopHere(p: Problem, k: nat, n: nat, m: nat)
    requires p.Valid() && k < |p.compounds| && n < |p.tree| && Next(p.tree, p.compounds[k].dir, n) == Some(m)
    requires m < |p.tree| && Eligible(p, k, m)
    ensures Hop(p, k, n, m)
  {
    assert HopVia(p, k, n, m, [n, m]);
  }

  /** A search holds iff the combinator leads to a node that satisfies the matcher. */
  lemma {:induction false} FoundIsHop(p: Problem, k: nat, n: nat)
    requires p.Valid() && k < |p.compounds| && n < |p.tree|
    ensures Found(p, k, n) <==> exists m: nat :: m < |p.tree| && Hop(p, k, n, m) && Matches(p, k, m)
    decreases n
  {
    hide Matches, Hop;
    var next := Next(p.tree, p.compounds[k].dir, n);
    if next.Some? {
      var m1 := next.value;
      FoundIsHop(p, k, m1);
      assert Found(p, k, n) == FoundFrom(p, k, m1)
          == if Eligible(p, k, m1) then Matches(p, k, m1) || (!p.compounds[k].first && Found(p, k, m1))
             else Found(p, k, m1);
      if Found(p, k, n) {
        if Eligible(p, k, m1) && Matches(p, k, m1) {
          HopHere(p, k, n, m1);
        } else {
          var m: nat :| m < |p.tree| && Hop(p, k, m1, m) && Matches(p, k, m);
          HopStep(p, k, n, m1, m);
        }
      }
    }
    if m: nat :| m < |p.tree| && Hop(p, k, n, m) && Matches(p, k, m) {
      var m1 := HopFirst(p, k, n, m);
    }
  }

  /** One node for each compound up to k, the last of them n: each matches its compound and leads to the one before. */
  ghost predicate Selects(p: Problem, k: nat, n: nat, xs: seq<nat>)
    requires k < |p.compounds|
  {
    && |xs| == k + 1 && xs[k] == n
    && (forall j :: 0 <= j <= k ==> xs[j] < |p.tree| && xs[j] in p.compounds[j].test)
    && (forall j :: 0 <= j < k ==> Hop(p, j, xs[j + 1], xs[j]))
  }

  /** A node matches iff there are nodes for all compounds to the left, linked as the combinators say. */
  lemma {:induction false} MatchesIffSelected(p: Problem, k: nat, n: nat)
    requires p.Valid() && k < |p.compounds| && n < |p.tree|
    ensures Matches(p, k, n) <==> exists xs :: Selects(p, k, n, xs)
    decreases k
  {
    hide Hop, Found;
    if k == 0 {
      if Matches(p, k, n) {
        assert Selects(p, k, n, [n]);
      }
    } else {
      FoundIsHop(p, k - 1, n);
      if Matches(p, k, n) {
        var m: nat :| m < |p.tree| && Hop(p, k - 1, n, m) && Matches(p, k - 1, m);
        MatchesIffSelected(p, k - 1, m);
        var xs :| Selects(p, k - 1, m, xs);
        assert Selects(p, k, n, xs + [n]);
      }
      if xs :| Selects(p, k, n, xs) {
        var m := xs[k - 1];
        MatchesIffSelected(p, k - 1, m);
        assert Selects(p, k - 1, m, xs[..k]);
      }
    }
  }

  /* ---------- the code ---------- */

  /** [ dirruns, doneName, result ]; cells are shared, so slots hold their number. */
  datatype Cell = Cell(run: nat, name: nat, result: Option<bool>)

  /** What the current run may read in a slot of node n: the answer of an unmemoised search from n on. */
  ghost predicate CellRight(p: Problem, run: nat, cell: Cell, dir: Dir, n: nat)
    requires p.Valid()
  {
    forall k :: 0 <= k < |p.names| && cell.run == run && cell.name == p.names[k] ==>
      && p.compounds[k].dir == dir && !p.compounds[k].first && n < |p.tree| && Eligible(p, k, n)
      && cell.result == Some(FoundFrom(p, k, n))
  }

  /** What is left of a search that has come to m. */
  ghost predicate Rest(p: Problem, k: nat, m: Option<nat>)
    requires p.Valid() && k < |p.compounds| && (m.Some? ==> m.value < |p.tree|)
  {
    m.Some? && FoundFrom(p, k, m.value)
  }

  /** The nodes a call has put its cell on so far: nothing was found there, so their answer is what is left. */
  ghost predicate Visited(p: Problem, slots: map<(Dir, nat), nat>, cell: nat, k: nat, m: Option<nat>)
    requires p.Valid() && k < |p.compounds| && (m.Some? ==> m.value < |p.tree|)
  {
    forall s <- slots :: slots[s] == cell ==>
      && s.0 == p.compounds[k].dir && s.1 < |p.tree| && Eligible(p, k, s.1)
      && (m.Some? ==> m.value < s.1)
      && FoundFrom(p, k, s.1) == Rest(p, k, m)
  }

  /** The nodes that share the cell have the answer. */
  ghost predicate Answered(p: Problem, slots: map<(Dir, nat), nat>, cell: nat, k: nat, answer: bool)
    requires p.Valid() && k < |p.compounds|
  {
    forall s <- slots :: slots[s] == cell ==>
      s.0 == p.compounds[k].dir && s.1 < |p.tree| && Eligible(p, k, s.1) && FoundFrom(p, k, s.1) == answer
  }

  lemma NotVisited(p: Problem, slots: map<(Dir, nat), nat>, cell: nat, k: nat, m: Option<nat>)
    requires p.Valid() && k < |p.compounds| && (m.Some? ==> m.value < |p.tree|)
    requires forall s <- slots :: slots[s] != cell
    ensures Visited(p, slots, cell, k, m)
  {
  }

  lemma VisitedAnswered(p: Problem, slots: map<(Dir, nat), nat>, cell: nat, k: nat, elem: nat)
    requires p.Valid() && k < |p.compounds| && elem < |p.tree| && Visited(p, slots, cell, k, Some(elem))
    ensures Answered(p, slots, cell, k, FoundFrom(p, k, elem))
  {
    hide FoundFrom, Eligible;
  }

  lemma VisitedAll(p: Problem, slots: map<(Dir, nat), nat>, cell: nat, k: nat)
    requires p.Valid() && k < |p.compounds| && Visited(p, slots, cell, k, None)
    ensures Answered(p, slots, cell, k, false)
  {
    hide FoundFrom, Eligible;
  }

  /** A node that is not eligible is passed over. */
  lemma Skipped(p: Problem, slots: map<(Dir, nat), nat>, cell: nat, k: nat, elem: nat)
    requires p.Valid() && k < |p.compounds| && elem < |p.tree| && !Eligible(p, k, elem)
    requires Visited(p, slots, cell, k, Some(elem))
    ensures var next := Next(p.tree, p.compounds[k].dir, elem);
            Rest(p, k, Some(elem)) == Rest(p, k, next) && Visited(p, slots, cell, k, next)
  {
    hide Matches;
    assert FoundFrom(p, k, elem) == Rest(p, k, Next(p.tree, p.compounds[k].dir, elem));
    hide FoundFrom;
  }

  lemma ReadSlot(p: Problem, run: nat, cell: Cell, dir: Dir, n: nat, k: nat)
    requires p.Valid() && k < |p.compounds| && n < |p.tree|
    requires CellRight(p, run, cell, dir, n) && cell.run == run && cell.name == p.names[k]
    ensures cell.result == Some(FoundFrom(p, k, n))
  {
  }

  /** Once the shared cell holds the answer, all slots that share it are right. */
  lemma FillIn(p: Problem, run: nat, cell: Cell, slots: map<(Dir, nat), nat>, c: nat, k: nat, answer: bool)
    requires p.Valid() && k < |p.compounds| && !p.compounds[k].first && cell.name == p.names[k]
    requires Answered(p, slots, c, k, answer)
    requires forall s <- slots :: slots[s] == c ==> cell.result == Some(answer)
    ensures forall s <- slots :: slots[s] == c ==> CellRight(p, run, cell, s.0, s.1)
  {
    hide FoundFrom, Eligible;
    forall j | 0 <= j < |p.names| && cell.name == p.names[j]
      ensures j == k
    {
    }
  }

  /** The matcher has looked at elem, the node put in last. */
  lemma VisitedOne(p: Problem, before: map<(Dir, nat), nat>, slots: map<(Dir, nat), nat>, c: nat, k: nat,
                   elem: nat, r: bool)
    requires p.Valid() && k < |p.compounds| && !p.compounds[k].first && elem < |p.tree| && Eligible(p, k, elem)
    requires r == Matches(p, k, elem)
    requires forall s <- slots :: slots[s] == c ==> s in before && before[s] == c
    requires Visited(p, before - {(p.compounds[k].dir, elem)}, c, k, Some(elem))
    ensures FoundFrom(p, k, elem) == (r || Rest(p, k, Next(p.tree, p.compounds[k].dir, elem)))
    ensures !r ==> Visited(p, slots, c, k, Next(p.tree, p.compounds[k].dir, elem))
    ensures r ==> Answered(p, slots, c, k, true)
  {
    hide Matches;
    var here := (p.compounds[k].dir, elem);
    assert FoundFrom(p, k, elem) == (r || Rest(p, k, Next(p.tree, p.compounds[k].dir, elem)));
    hide FoundFrom, Eligible;
    forall s <- slots | slots[s] == c
      ensures s == here || s in before - {here}
    {
    }
  }

  class Sizzle {
    var problem: Problem
    var dirruns: nat
    var cells: seq<Cell>
    var slots: map<(Dir, nat), nat>      // outerCache[ dir ] of a node

    /** Every slot outside the calls in progress, whose cells are `busy`, is right. */
    ghost predicate Valid(busy: set<nat>)
      reads this
    {
      && problem.Valid()
      && (forall i :: 0 <= i < |cells| ==> cells[i].run <= dirruns)
      && (forall s <- slots :: slots[s] < |cells|)
      && (forall s <- slots :: slots[s] !in busy ==> CellRight(problem, dirruns, cells[slots[s]], s.0, s.1))
    }

    constructor (problem: Problem)
      requires problem.Valid()
      ensures Valid({}) && this.problem == problem
    {
      this.problem := problem;
      dirruns, cells, slots := 0, [], map[];
    }

    /** A new outermost run: document and selector may have changed, the caches stay where they are. */
    method NewRun(problem: Problem)
      requires problem.Valid() && Valid({})
      modifies this
      ensures Valid({}) && this.problem == problem && cells == old(cells) && slots == old(slots)
    {
      this.problem := problem;
      dirruns := dirruns + 1;
    }

    /** What a search leaves alone: cells and slots of the calls around it. */
    twostate predicate Apart()
      reads this
    {
      && problem == old(problem) && dirruns == old(dirruns)
      && |old(cells)| <= |cells| && (forall i :: 0 <= i < |old(cells)| ==> cells[i] == old(cells)[i])
      && (forall s <- slots :: slots[s] >= |old(cells)| || (s in old(slots) && old(slots)[s] == slots[s]))
    }

    /** The calls in progress are of combinators to the right of the first k. */
    ghost predicate Above(busy: set<nat>, k: nat)
      reads this
    {
      && (forall b <- busy :: b < |cells|)
      && (forall b <- busy :: forall j :: 0 <= j < k && j < |problem.names| ==> cells[b].name != problem.names[j])
    }

    /** The matcher that addCombinator was given for compound k. */
    method Match(k: nat, n: nat, xml: bool, ghost busy: set<nat>) returns (r: bool)
      requires Valid(busy) && k < |problem.compounds| && n < |problem.tree|
      requires Above(busy, k)
      modifies this
      ensures Valid(busy) && Apart() && r == Matches(problem, k, n)
      decreases k, n, 0
    {
      hide CellRight, Found;
      r := n in problem.compounds[k].test;
      if r && k > 0 {
        r := Search(k - 1, n, xml, busy);
      }
    }

    /** The function addCombinator returns for combinator k. */
    method Search(k: nat, n: nat, xml: bool, ghost busy: set<nat>) returns (r: bool)
      requires Valid(busy) && k < |problem.compounds| && n < |problem.tree|
      requires Above(busy, k + 1)
      modifies this
      ensures Valid(busy) && Apart() && r == Found(problem, k, n)
      decreases k, n, 2
    {
      hide CellRight, Found;
      if problem.compounds[k].first || xml {
        r := SearchPlain(k, n, xml, busy);
      } else {
        r := SearchCached(k, n, busy);
      }
    }

    /** The closest node only, or an XML document, where nothing can be cached. */
    method SearchPlain(k: nat, n: nat, xml: bool, ghost busy: set<nat>) returns (r: bool)
      requires Valid(busy) && k < |problem.compounds| && n < |problem.tree|
      requires Above(busy, k + 1)
      modifies this
      ensures Valid(busy) && Apart() && r == Found(problem, k, n)
      decreases k, n, 1
    {
      hide CellRight, Matches;
      var c := problem.compounds[k];
      var m: Option<nat> := Next(problem.tree, c.dir, n);
      while m.Some?
        invariant Valid(busy) && Apart() && Above(busy, k + 1) && k < |problem.compounds|
        invariant m.Some? ==> m.value < n && n < |problem.tree|
        invariant Found(problem, k, n) == (m.Some? && FoundFrom(problem, k, m.value))
        decreases if m.Some? then m.value + 1 else 0
      {
        var elem := m.value;
        if problem.tree[elem].element || c.checkNonElements {
          label before:
          r := Match(k, elem, xml, busy);
          if r || c.first {
            return;
          }
        }
        m := Next(problem.tree, c.dir, elem);
      }
      r := false;
    }

    /** The cell of the call in progress. */
    ghost predicate CellOf(c: nat, k: nat)
      requires k < |problem.names|
      reads this
    {
      c < |cells| && cells[c].run == dirruns && cells[c].name == problem.names[k]
    }

    /** Between two nodes of a call: all changes since the last one are its own or newer. */
    twostate predicate ApartFrom(c: nat)
      reads this
    {
      && problem == old(problem) && dirruns == old(dirruns)
      && |old(cells)| <= |cells| && (forall i :: 0 <= i < |old(cells)| && i != c ==> cells[i] == old(cells)[i])
      && (forall s <- slots ::
            slots[s] >= |old(cells)| || slots[s] == c || (s in old(slots) && old(slots)[s] == slots[s]))
    }

    /** The node has an answer of this combinator from this run: it becomes the answer of the call. */
    method Recall(k: nat, elem: nat, newCache: nat, ghost busy: set<nat>) returns (r: bool)
      requires problem.Valid() && k < |problem.compounds|
      requires Valid(busy + {newCache}) && Above(busy, k + 1) && CellOf(newCache, k)
      requires elem < |problem.tree| && Visited(problem, slots, newCache, k, Some(elem))
      requires HasAnswer(k, elem)
      modifies this
      ensures Valid(busy + {newCache}) && ApartFrom(newCache) && CellOf(newCache, k)
      ensures r == FoundFrom(problem, k, elem) && cells[newCache].result == Some(r)
      ensures Answered(problem, slots, newCache, k, r)
    {
      hide CellRight, FoundFrom, Eligible, Answered, Rest;
      var dir := problem.compounds[k].dir;
      var oldCache := cells[slots[(dir, elem)]].result;
      ReadSlot(problem, dirruns, cells[slots[(dir, elem)]], dir, elem, k);
      r := oldCache.Some? && oldCache.value;
      cells := cells[newCache := cells[newCache].(result := oldCache)];
      VisitedAnswered(problem, slots, newCache, k, elem);
    }

    predicate HasAnswer(k: nat, elem: nat)
      requires k < |problem.compounds| && k < |problem.names|
      reads this
    {
      var slot := (problem.compounds[k].dir, elem);
      && slot in slots && slots[slot] < |cells|
      && cells[slots[slot]].run == dirruns && cells[slots[slot]].name == problem.names[k]
    }

    /** The node gets the cell of the call and is looked at. */
    method Examine(k: nat, elem: nat, newCache: nat, ghost busy: set<nat>) returns (r: bool)
      requires problem.Valid() && k < |problem.compounds| && !problem.compounds[k].first
      requires Valid(busy + {newCache}) && Above(busy, k + 1) && newCache !in busy && CellOf(newCache, k)
      requires elem < |problem.tree| && Eligible(problem, k, elem)
      requires Visited(problem, slots, newCache, k, Some(elem))
      modifies this
      ensures Valid(busy + {newCache}) && ApartFrom(newCache) && CellOf(newCache, k)
      ensures cells[newCache].result == Some(r)
      ensures var next := Next(problem.tree, problem.compounds[k].dir, elem);
              && FoundFrom(problem, k, elem) == (r || Rest(problem, k, next))
              && (if r then Answered(problem, slots, newCache, k, true) else Visited(problem, slots, newCache, k, next))
      decreases k, elem, 3
    {
      hide CellRight, Matches, FoundFrom, Eligible, Rest, Answered;
      slots := slots[(problem.compounds[k].dir, elem) := newCache];
      label matching:
      r := Match(k, elem, false, busy + {newCache});
      cells := cells[newCache := cells[newCache].(result := Some(r))];
      VisitedOne(problem, old@matching(slots), slots, newCache, k, elem, r);
    }

    /** One eligible node on the way. */
    method Visit(k: nat, elem: nat, newCache: nat, ghost busy: set<nat>) returns (done: bool, r: bool)
      requires problem.Valid() && k < |problem.compounds| && !problem.compounds[k].first
      requires Valid(busy + {newCache}) && Above(busy, k + 1) && newCache !in busy && CellOf(newCache, k)
      requires elem < |problem.tree| && Eligible(problem, k, elem)
      requires Visited(problem, slots, newCache, k, Some(elem))
      modifies this
      ensures Valid(busy + {newCache}) && ApartFrom(newCache) && CellOf(newCache, k)
      ensures cells[newCache].result == Some(r)
      ensures if done then r == FoundFrom(problem, k, elem) && Answered(problem, slots, newCache, k, r)
              else
                var next := Next(problem.tree, problem.compounds[k].dir, elem);
                && !r && FoundFrom(problem, k, elem) == Rest(problem, k, next)
                && Visited(problem, slots, newCache, k, next)
      decreases k, elem, 4
    {
      hide CellRight, Matches, FoundFrom, Eligible, Rest, Answered, Visited;
      if HasAnswer(k, elem) {
        r := Recall(k, elem, newCache, busy);
        done := true;
      } else {
        r := Examine(k, elem, newCache, busy);
        done := r;
      }
    }

    /** All other searches: every node on the way shares the cell of this call. */
    method SearchCached(k: nat, n: nat, ghost busy: set<nat>) returns (r: bool)
      requires Valid(busy) && k < |problem.compounds| && n < |problem.tree| && !problem.compounds[k].first
      requires Above(busy, k + 1)
      modifies this
      ensures Valid(busy) && Apart() && r == Found(problem, k, n)
      decreases k, n, 1
    {
      hide CellRight, Matches, FoundFrom, Visited, Answered;
      var dir := problem.compounds[k].dir;
      var newCache := |cells|;
      cells := cells + [Cell(dirruns, problem.names[k], None)];
      NotVisited(problem, slots, newCache, k, Next(problem.tree, dir, n));
      var m: Option<nat> := Next(problem.tree, dir, n);
      r := false;
      var done := false;
      while m.Some? && !done
        invariant Valid(busy + {newCache}) && Apart() && Above(busy, k + 1) && CellOf(newCache, k)
        invariant m.Some? ==> m.value < n < |problem.tree|
        invariant if done then r == Found(problem, k, n) && Answered(problem, slots, newCache, k, r)
                  else !r && Found(problem, k, n) == Rest(problem, k, m) && Visited(problem, slots, newCache, k, m)
        invariant forall s <- slots :: slots[s] == newCache ==> cells[newCache].result == Some(r)
        decreases !done, if m.Some? then m.value + 1 else 0
      {
        var elem := m.value;
        m := Next(problem.tree, dir, elem);
        if problem.tree[elem].element || problem.compounds[k].checkNonElements {
          done, r := Visit(k, elem, newCache, busy);
        } else {
          Skipped(problem, slots, newCache, k, elem);
        }
      }
      if !done {
        VisitedAll(problem, slots, newCache, k);
      }
      FillIn(problem, dirruns, cells[newCache], slots, newCache, k, r);
    }
  }
}
