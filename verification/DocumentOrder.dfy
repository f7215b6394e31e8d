/**
 Sizzle's comparator for browsers without compareDocumentPosition, and uniqueSort. A node of the
 document is named by its path: the positions of its ancestors and itself among their siblings.
 */
module DocumentOrder {
  import opened Wrappers

  type Path = seq<nat>

  function Parent(p: Path): Path
    requires p != []
  {
    p[..|p| - 1]
  }

  function Child(p: Path, i: nat): Path
  {
    p + [i]
  }

  /** kids gives every node of the document the number of its children; [] is the document. */
  datatype Document = Document(kids: map<Path, nat>)
  {
    ghost predicate Valid()
    {
      && [] in kids
      && (forall p: Path {:trigger Parent(p)} ::
            p in kids && p != [] ==> Parent(p) in kids && p[|p| - 1] < kids[Parent(p)])
      && (forall p: Path, i: nat {:trigger Child(p, i)} :: p in kids && i < kids[p] ==> Child(p, i) in kids)
    }
  }

  function NextSibling(doc: Document, p: Path): Option<Path>
    requires doc.Valid() && p in doc.kids
  {
    if p != [] && p[|p| - 1] + 1 < doc.kids[Parent(p)] then Some(Parent(p) + [p[|p| - 1] + 1]) else None
  }

  /** The order of the paths: at the first difference, or the shorter one first. */
  predicate Before(a: Path, b: Path)
  {
    b != [] && (a == [] || a[0] < b[0] || (a[0] == b[0] && Before(a[1..], b[1..])))
  }

  /* ---------- it is the tree order, and total ---------- */

  predicate Within(ancestor: Path, p: Path)
  {
    ancestor <= p
  }

  /** a and b lie in the subtrees of two children of c, a's child first. */
  predicate Branches(a: Path, b: Path, c: Path, i: nat, j: nat)
  {
    i < j && Within(c + [i], a) && Within(c + [j], b)
  }

  /** Paths with the same first step. */
  lemma WithinTail(a: Path, b: Path)
    requires a != [] && b != [] && a[0] == b[0]
    ensures Within(a[1..], b[1..]) <==> Within(a, b)
    ensures a[1..] == b[1..] <==> a == b
  {
    assert a == [a[0]] + a[1..] && b == [b[0]] + b[1..];
  }

  lemma PrefixCons(x: nat, p: Path, q: Path)
    ensures p <= q ==> [x] + p <= [x] + q
  {
  }

  lemma {:induction false} BeforeBranches(a: Path, b: Path) returns (c: Path, i: nat, j: nat)
    requires Before(a, b) && !Within(a, b)
    ensures Branches(a, b, c, i, j)
    decreases |a|
  {
    if a[0] < b[0] {
      c, i, j := [], a[0], b[0];
      assert c + [i] == a[..1] && c + [j] == b[..1];
    } else {
      WithinTail(a, b);
      c, i, j := BeforeBranches(a[1..], b[1..]);
      var d := [a[0]] + c;
      assert d + [i] == [a[0]] + (c + [i]) && d + [j] == [b[0]] + (c + [j]);
      assert a == [a[0]] + a[1..] && b == [b[0]] + b[1..];
      PrefixCons(a[0], c + [i], a[1..]);
      PrefixCons(b[0], c + [j], b[1..]);
      c := d;
    }
  }

  lemma {:induction false} BranchesBefore(a: Path, b: Path, c: Path, i: nat, j: nat)
    requires Branches(a, b, c, i, j)
    ensures Before(a, b)
    decreases |c|
  {
    var p, q := c + [i], c + [j];
    assert p <= a && q <= b;
    if c != [] {
      assert a[0] == p[0] == q[0] == b[0];
      assert c[1..] + [i] == p[1..] && c[1..] + [j] == q[1..];
      assert p[1..] <= a[1..] && q[1..] <= b[1..];
      BranchesBefore(a[1..], b[1..], c[1..], i, j);
    } else {
      assert a[0] == p[0] == i && b[0] == q[0] == j;
    }
  }

  lemma {:induction false} AncestorBefore(a: Path, b: Path)
    requires Within(a, b) && a != b
    ensures Before(a, b)
    decreases |a|
  {
    if a != [] {
      WithinTail(a, b);
      AncestorBefore(a[1..], b[1..]);
    }
  }

  lemma {:induction false} BeforeIrreflexive(a: Path)
    ensures !Before(a, a)
    decreases |a|
  {
    if a != [] {
      BeforeIrreflexive(a[1..]);
    }
  }

  /** Pre-order: an ancestor precedes its descendants, and subtrees keep the order of siblings. */
  lemma BeforeIsTreeOrder(a: Path, b: Path)
    ensures Before(a, b) <==> a != b && (Within(a, b) || exists c, i, j :: Branches(a, b, c, i, j))
  {
    BeforeIrreflexive(a);
    if Before(a, b) && !Within(a, b) {
      var c, i, j := BeforeBranches(a, b);
    }
    if a != b && Within(a, b) {
      AncestorBefore(a, b);
    }
    if c, i, j :| Branches(a, b, c, i, j) {
      BranchesBefore(a, b, c, i, j);
    }
  }

  lemma {:induction false} BeforeTransitive(a: Path, b: Path, c: Path)
    requires Before(a, b) && Before(b, c)
    ensures Before(a, c)
    decreases |a|
  {
    if a != [] && a[0] == b[0] == c[0] {
      BeforeTransitive(a[1..], b[1..], c[1..]);
    }
  }

  lemma {:induction false} BeforeTotal(a: Path, b: Path)
    ensures a != b ==> (Before(a, b) <==> !Before(b, a))
    decreases |a|
  {
    if a != [] && b != [] {
      BeforeTotal(a[1..], b[1..]);
      assert a == [a[0]] + a[1..] && b == [b[0]] + b[1..];
    }
  }

  /* ---------- siblingCheck and sortOrder ---------- */

  lemma NextSiblingOf(doc: Document, parent: Path, x: nat)
    requires doc.Valid() && parent + [x] in doc.kids
    ensures parent in doc.kids && x < doc.kids[parent]
    ensures NextSibling(doc, parent + [x]) == if x + 1 < doc.kids[parent] then Some(parent + [x + 1]) else None
    ensures x + 1 < doc.kids[parent] ==> parent + [x + 1] in doc.kids
  {
    assert Parent(parent + [x]) == parent;
    assert x + 1 < doc.kids[parent] ==> Child(parent, x + 1) in doc.kids;
  }

  lemma ChildrenDiffer(parent: Path, x: nat, y: nat)
    ensures parent + [x] == parent + [y] <==> x == y
  {
    assert (parent + [x])[|parent|] == x && (parent + [y])[|parent|] == y;
  }

  /** The nextSibling loop: whether child y of the parent comes after child x. */
  method FollowedBy(doc: Document, a: Path, b: Path, ghost parent: Path, ghost x: nat, ghost y: nat) returns (r: bool)
    requires doc.Valid() && a in doc.kids && b in doc.kids && a == parent + [x] && b == parent + [y]
    ensures r <==> x < y
  {
    hide NextSibling, Document.Valid;
    NextSiblingOf(doc, parent, x);
    NextSiblingOf(doc, parent, y);
    var cur := NextSibling(doc, a);
    ghost var z := x;
    while cur.Some?
      invariant x <= z < doc.kids[parent] && (y > x ==> z < y)
      invariant cur == if z + 1 < doc.kids[parent] then Some(parent + [z + 1]) else None
      invariant cur.Some? ==> cur.value in doc.kids
      decreases doc.kids[parent] - z
    {
      ChildrenDiffer(parent, z + 1, y);
      if cur.value == b {
        return true;
      }
      z := z + 1;
      NextSiblingOf(doc, parent, z);
      cur := NextSibling(doc, cur.value);
    }
    return false;
  }

  predicate ChildOf(a: Path, parent: Path)
  {
    |a| == |parent| + 1 && parent <= a
  }

  /** Two different children of one node, or nodes where one list of ancestors has ended. */
  method SiblingCheck(doc: Document, a: Option<Path>, b: Option<Path>, ghost parent: Path) returns (r: int)
    requires doc.Valid() && (a.Some? ==> a.value in doc.kids) && (b.Some? ==> b.value in doc.kids)
    requires a.Some? && b.Some? ==> a.value != b.value && ChildOf(a.value, parent) && ChildOf(b.value, parent)
    ensures r == (if a.Some? && b.Some? then if a.value[|parent|] < b.value[|parent|] then -1 else 1
                  else if a.Some? then 1 else -1)
  {
    if a.Some? && b.Some? {
      ghost var x, y := a.value[|parent|], b.value[|parent|];
      assert a.value == parent + [x] && b.value == parent + [y];
      var follows := FollowedBy(doc, a.value, b.value, parent, x, y);
      if follows {
        return -1;
      }
    }
    return if a.Some? then 1 else -1;
  }

  /** The prefixes of a from the one of length k on. */
  function Prefixes(a: Path, k: nat): (r: seq<Path>)
    requires k <= |a|
    ensures |r| == |a| - k + 1
  {
    seq(|a| - k + 1, i requires 0 <= i < |a| - k + 1 => a[..k + i])
  }

  lemma PrefixesStep(a: Path, k: nat)
    requires k < |a|
    ensures Prefixes(a, k) == [a[..k]] + Prefixes(a, k + 1)
  {
  }

  lemma {:induction false} PrefixesIn(doc: Document, a: Path, k: nat)
    requires doc.Valid() && a in doc.kids && k <= |a|
    ensures a[..k] in doc.kids
    decreases |a| - k
  {
    if k < |a| {
      PrefixesIn(doc, a, k + 1);
      assert Parent(a[..k + 1]) == a[..k];
    } else {
      assert a[..k] == a;
    }
  }

  lemma LastPrefix(a: Path)
    ensures Prefixes(a, |a|) == [a] && a[..|a|] == a
  {
  }

  /** The ancestors of a node from the document down, the node last. */
  method Ancestors(doc: Document, a: Path) returns (ap: seq<Path>)
    requires doc.Valid() && a in doc.kids
    ensures ap == Prefixes(a, 0)
  {
    hide Prefixes, Document.Valid;
    ap := [a];
    var cur := a;
    LastPrefix(a);
    while cur != []
      invariant |cur| <= |a| && cur == a[..|cur|] && ap == Prefixes(a, |cur|)
      decreases |cur|
    {
      PrefixesStep(a, |cur| - 1);
      cur := Parent(cur);
      ap := [cur] + ap;
    }
  }

  /** The first index where the lists of ancestors differ. */
  function FirstDifference(a: Path, b: Path): (i: nat)
    ensures i <= |a| && i <= |b| && a[..i] == b[..i]
    ensures i < |a| && i < |b| ==> a[i] != b[i]
  {
    if a == [] || b == [] || a[0] != b[0] then 0
    else
      var i := FirstDifference(a[1..], b[1..]);
      assert a[..i + 1] == [a[0]] + a[1..][..i] && b[..i + 1] == [b[0]] + b[1..][..i];
      i + 1
  }

  /** The order is decided there. */
  lemma {:induction false} BeforeAt(a: Path, b: Path, i: nat)
    requires i <= |a| && i <= |b| && a[..i] == b[..i] && (i < |a| && i < |b| ==> a[i] != b[i])
    ensures Before(a, b) <==> i < |b| && (i == |a| || a[i] < b[i])
    decreases i
  {
    if i > 0 {
      assert a[0] == a[..i][0] && b[0] == b[..i][0];
      assert a[1..][..i - 1] == a[..i][1..] && b[1..][..i - 1] == b[..i][1..];
      BeforeAt(a[1..], b[1..], i - 1);
    }
  }

  lemma AncestorAt(doc: Document, a: Path, i: nat)
    requires doc.Valid() && a in doc.kids && i > 0
    ensures |Prefixes(a, 0)| == |a| + 1
    ensures i <= |a| ==> Prefixes(a, 0)[i] == a[..i] && a[..i] in doc.kids
  {
    if i <= |a| {
      PrefixesIn(doc, a, i);
    }
  }

  lemma ParentDifference(a: Path, b: Path)
    requires a != [] && b != [] && a != b && Parent(a) == Parent(b)
    ensures ChildOf(a, Parent(a)) && ChildOf(b, Parent(a))
    ensures Before(a, b) <==> a[|Parent(a)|] < b[|Parent(a)|]
  {
    var n := |a| - 1;
    assert a == Parent(a) + [a[n]] && b == Parent(b) + [b[n]];
    BeforeAt(a, b, n);
  }

  /** An element, or undefined. */
  function At(s: seq<Path>, i: nat): Option<Path>
  {
    if i < |s| then Some(s[i]) else None
  }

  lemma PrefixesAt(a: Path)
    ensures forall i :: 0 <= i <= |a| ==> Prefixes(a, 0)[i] == a[..i]
  {
  }

  lemma Discrepancy(a: Path, b: Path, i: nat)
    requires i > 0 && i <= |a| && i <= |b| && a[..i - 1] == b[..i - 1] && a[..i] != b[..i]
    ensures a[i - 1] != b[i - 1]
  {
    assert a[..i] == a[..i - 1] + [a[i - 1]] && b[..i] == b[..i - 1] + [b[i - 1]];
  }

  /** Down both lists of ancestors to the first discrepancy, which lies below the document. */
  method WalkDown(a: Path, b: Path, ap: seq<Path>, bp: seq<Path>) returns (i: nat)
    requires ap == Prefixes(a, 0) && bp == Prefixes(b, 0) && a != b
    ensures 0 < i <= |a| + 1 && i <= |b| + 1 && a[..i - 1] == b[..i - 1]
    ensures i - 1 < |a| && i - 1 < |b| ==> a[i - 1] != b[i - 1]
    ensures i - 1 < |a| || i - 1 < |b|
  {
    PrefixesAt(a);
    PrefixesAt(b);
    hide Prefixes;
    assert a[..|a|] == a && b[..|b|] == b;
    i := 0;
    while At(ap, i) == At(bp, i)
      invariant i <= |ap| && i <= |bp| && (i < |ap| || i < |bp|)
      invariant i > 0 ==> a[..i - 1] == b[..i - 1]
      decreases |ap| - i
    {
      assert a[..i] == ap[i] == bp[i] == b[..i];
      i := i + 1;
    }
    assert At(ap, 0) == Some([]) && At(bp, 0) == Some([]);
    if i <= |a| && i <= |b| {
      Discrepancy(a, b, i);
    }
  }

  /* ---------- uniqueSort ---------- */

  /** In document order, equal nodes next to each other. */
  predicate Ordered(s: seq<Path>)
  {
    forall j, k :: 0 <= j < k < |s| ==> s[j] == s[k] || Before(s[j], s[k])
  }

  predicate StrictlyOrdered(s: seq<Path>)
  {
    forall j, k :: 0 <= j < k < |s| ==> Before(s[j], s[k])
  }

  /** The elements of s from k on that differ from the one before them. */
  function KeptFrom<T(==)>(s: seq<T>, k: nat): (r: seq<T>)
    decreases |s| - k
  {
    if k >= |s| then []
    else (if k > 0 && s[k] == s[k - 1] then [] else [s[k]]) + KeptFrom(s, k + 1)
  }

  lemma KeptTakes<T>(s: seq<T>, k: nat)
    requires k < |s| && (k == 0 || s[k] != s[k - 1])
    ensures KeptFrom(s, k) == [s[k]] + KeptFrom(s, k + 1)
  {
  }

  lemma ConsConcat<T>(x: T, b: seq<T>, c: seq<T>)
    ensures [x] + b + c == [x] + (b + c)
  {
  }

  /** Where no element repeats the one before it, all are kept. */
  lemma {:induction false} KeptStretch<T>(s: seq<T>, k: nat, n: nat)
    requires k <= n <= |s| && forall m :: k <= m < n && m > 0 ==> s[m] != s[m - 1]
    ensures KeptFrom(s, k) == s[k..n] + KeptFrom(s, n)
    decreases n - k
  {
    if k < n {
      KeptStretch(s, k + 1, n);
      KeptTakes(s, k);
      hide KeptFrom;
      assert s[k..n] == [s[k]] + s[k + 1..n];
      ConsConcat(s[k], s[k + 1..n], KeptFrom(s, n));
    } else {
      assert s[k..n] == [];
    }
  }

  /** Every element is kept once, where it first appears. */
  lemma {:induction false} KeptCovers<T>(s: seq<T>, k: nat, m: nat)
    requires k <= m < |s|
    ensures s[m] in KeptFrom(s, k) || (0 < k && s[m] == s[k - 1])
    decreases |s| - k
  {
    if k < m {
      KeptCovers(s, k + 1, m);
    }
  }

  lemma {:induction false} KeptIn<T>(s: seq<T>, k: nat, x: T)
    requires x in KeptFrom(s, k)
    ensures x in s
    decreases |s| - k
  {
    if k < |s| && x in KeptFrom(s, k + 1) {
      KeptIn(s, k + 1, x);
    }
  }

  /** Equal elements of an ordered list have only equal ones between them. */
  lemma BeforeBetween(s: seq<Path>, j: nat, k: nat)
    requires Ordered(s) && j < k < |s| && s[j] == s[k]
    ensures s[k - 1] == s[k]
  {
    if s[k - 1] != s[k] {
      BeforeTotal(s[k - 1], s[k]);
    }
  }

  /** What is kept from k on lies behind everything before k. */
  lemma {:induction false} KeptAfter(s: seq<Path>, k: nat, j: nat, x: Path)
    requires Ordered(s) && j < k && j < |s| && x in KeptFrom(s, k)
    ensures Before(s[j], x)
    decreases |s| - k
  {
    hide Before;
    if k < |s| {
      if x in KeptFrom(s, k + 1) {
        KeptAfter(s, k + 1, j, x);
      } else if s[j] == s[k] {
        BeforeBetween(s, j, k);
      }
    }
  }

  lemma {:induction false} KeptStrictly(s: seq<Path>, k: nat)
    requires Ordered(s)
    ensures StrictlyOrdered(KeptFrom(s, k))
    decreases |s| - k
  {
    hide Before;
    if k < |s| {
      KeptStrictly(s, k + 1);
      forall x | x in KeptFrom(s, k + 1)
        ensures Before(s[k], x)
      {
        KeptAfter(s, k + 1, k, x);
      }
    }
  }

  lemma StrictlyDiffers(s: seq<Path>)
    requires StrictlyOrdered(s)
    ensures forall k :: 0 < k < |s| ==> s[k] != s[k - 1]
  {
    hide Before;
    forall k | 0 < k < |s|
      ensures s[k] != s[k - 1]
    {
      BeforeIrreflexive(s[k]);
    }
  }

  lemma NoNeighboursEqual(s: seq<Path>)
    requires Ordered(s) && forall k :: 0 < k < |s| ==> s[k] != s[k - 1]
    ensures StrictlyOrdered(s)
  {
    hide Before;
    forall j, k | 0 <= j < k < |s|
      ensures Before(s[j], s[k])
    {
      if s[j] == s[k] {
        BeforeBetween(s, j, k);
      }
    }
  }

  lemma NoMembers<T>(a: seq<T>, b: seq<T>)
    requires forall x :: x in a <==> x in b
    ensures |a| == 0 <==> |b| == 0
  {
    if |a| > 0 {
      assert a[0] in b;
    }
    if |b| > 0 {
      assert b[0] in a;
    }
  }

  lemma FirstIsLeast(a: seq<Path>, b: seq<Path>)
    requires StrictlyOrdered(a) && a != [] && b != [] && b[0] in a
    ensures b[0] == a[0] || Before(a[0], b[0])
  {
    hide Before;
    var k :| 0 <= k < |a| && a[k] == b[0];
  }

  /** The result is determined: two lists in strict order with the same nodes are the same list. */
  lemma {:induction false} StrictOrderUnique(a: seq<Path>, b: seq<Path>)
    requires StrictlyOrdered(a) && StrictlyOrdered(b) && forall x :: x in a <==> x in b
    ensures a == b
    decreases |a|
  {
    hide Before;
    if a == [] || b == [] {
      NoMembers(a, b);
    } else {
      assert a[0] in b && b[0] in a;
      FirstIsLeast(a, b);
      FirstIsLeast(b, a);
      BeforeTotal(a[0], b[0]);
      forall x
        ensures x in a[1..] <==> x in b[1..]
      {
        BeforeIrreflexive(a[0]);
        assert x in a <==> x == a[0] || x in a[1..];
        assert x in b <==> x == b[0] || x in b[1..];
      }
      StrictOrderUnique(a[1..], b[1..]);
      assert a == [a[0]] + a[1..] && b == [b[0]] + b[1..];
    }
  }

  lemma SameElements<T>(a: seq<T>, b: seq<T>)
    requires multiset(a) == multiset(b)
    ensures forall x :: x in a <==> x in b
  {
    forall x
      ensures x in a <==> x in b
    {
      assert x in a <==> x in multiset(a);
      assert x in b <==> x in multiset(b);
    }
  }

  lemma InsertedElements<T>(s: seq<T>, x: T, j: nat)
    requires j <= |s|
    ensures multiset(s[..j] + [x] + s[j..]) == multiset(s) + multiset{x}
  {
    assert s == s[..j] + s[j..];
  }

  lemma InsertedOrdered(s: seq<Path>, x: Path, j: nat)
    requires Ordered(s) && j <= |s| && (forall k :: j <= k < |s| ==> Before(x, s[k]))
    requires j > 0 ==> s[j - 1] == x || Before(s[j - 1], x)
    ensures Ordered(s[..j] + [x] + s[j..]) && (x in s <==> j > 0 && s[j - 1] == x)
  {
    hide Before;
    forall k | 0 <= k < j
      ensures s[k] == x || Before(s[k], x)
    {
      if k < j - 1 && s[k] != s[j - 1] && s[j - 1] != x {
        BeforeTransitive(s[k], s[j - 1], x);
      }
    }
    forall k | 0 <= k < |s| && s[k] == x
      ensures j > 0 && s[j - 1] == x
    {
      BeforeIrreflexive(x);
      if s[j - 1] != x {
        BeforeTotal(s[j - 1], x);
      }
    }
  }

  lemma RepeatCounts<T>(r: seq<T>, j: nat, k: nat)
    requires j < k < |r| && r[j] == r[k]
    ensures multiset(r)[r[j]] >= 2
  {
    assert r == r[..j] + [r[j]] + r[j + 1..k] + [r[k]] + r[k + 1..];
  }

  lemma {:induction false} StrictIsDistinct(s: seq<Path>)
    requires StrictlyOrdered(s)
    ensures forall x :: multiset(s)[x] <= 1
    decreases |s|
  {
    hide Before;
    if s != [] {
      var rest := s[1..];
      StrictIsDistinct(rest);
      assert s == [s[0]] + rest;
      BeforeIrreflexive(s[0]);
      assert s[0] !in rest;
    }
  }

  lemma StillStrict(s: seq<Path>, x: Path, r: seq<Path>)
    requires StrictlyOrdered(s) && Ordered(r) && x !in s && multiset(r) == multiset(s) + multiset{x}
    ensures StrictlyOrdered(r)
  {
    hide Before;
    StrictIsDistinct(s);
    forall j, k | 0 <= j < k < |r|
      ensures r[j] != r[k]
    {
      if r[j] == r[k] {
        RepeatCounts(r, j, k);
      }
    }
  }

  /** Increasing, and exactly the indices below n whose element repeats the one before. */
  ghost predicate Repeats<T(!new)>(s: seq<T>, duplicates: seq<nat>, n: nat)
  {
    && (forall m :: 0 <= m < |duplicates| ==> 0 < duplicates[m] < |s| && duplicates[m] < n)
    && (forall l, m :: 0 <= l < m < |duplicates| ==> duplicates[l] < duplicates[m])
    && (forall m :: 0 < m < |s| && m < n ==> (s[m] == s[m - 1] <==> m in duplicates))
  }

  /** The first loop of uniqueSort. */
  method CollectDuplicates<T(==, !new)>(s: seq<T>) returns (duplicates: seq<nat>)
    ensures Repeats(s, duplicates, |s|)
  {
    duplicates := [];
    var i := 0;
    while i < |s|
      invariant 0 <= i <= |s| && Repeats(s, duplicates, i + 1)
    {
      i := i + 1;
      if i < |s| && s[i - 1] == s[i] {
        duplicates := duplicates + [i];
      }
    }
  }

  /** What lies before the duplicates j, j + 1, ... */
  function StartOf<T>(s: seq<T>, duplicates: seq<nat>, j: nat): nat
  {
    if j < |duplicates| then duplicates[j] else |s|
  }

  lemma KeptSkips<T>(s: seq<T>, d: nat)
    requires 0 < d < |s| && s[d] == s[d - 1]
    ensures KeptFrom(s, d) == KeptFrom(s, d + 1)
  {
    assert [] + KeptFrom(s, d + 1) == KeptFrom(s, d + 1);
  }

  lemma WithoutOne<T>(a: seq<T>, x: T, b: seq<T>, c: seq<T>)
    ensures (a + [x] + b + c)[..|a|] == a && (a + [x] + b + c)[|a| + 1..] == b + c
  {
  }

  lemma SplicedOut<T>(s: seq<T>, d: nat, from: nat)
    requires 0 < d < from <= |s| && s[d] == s[d - 1]
    requires forall m :: d < m < from ==> s[m] != s[m - 1]
    ensures var r := s[..from] + KeptFrom(s, from);
            r[..d] + r[d + 1..] == s[..d] + KeptFrom(s, d)
  {
    hide KeptFrom;
    KeptStretch(s, d + 1, from);
    KeptSkips(s, d);
    assert s[..from] == s[..d] + [s[d]] + s[d + 1..from];
    WithoutOne(s[..d], s[d], s[d + 1..from], KeptFrom(s, from));
  }

  lemma NoneBetween<T(!new)>(s: seq<T>, duplicates: seq<nat>, j: nat, from: nat)
    requires j < |duplicates| && from == if j + 1 < |duplicates| then duplicates[j + 1] else |s|
    requires Repeats(s, duplicates, |s|)
    ensures 0 < duplicates[j] < from <= |s| && s[duplicates[j]] == s[duplicates[j] - 1]
    ensures forall m :: duplicates[j] < m < from ==> s[m] != s[m - 1]
  {
    forall l | 0 <= l < |duplicates|
      ensures duplicates[l] <= duplicates[j] || duplicates[l] >= from
    {
      assert l <= j || l >= j + 1;
    }
  }

  lemma NoneFirst<T(!new)>(s: seq<T>, duplicates: seq<nat>, from: nat)
    requires from == if duplicates != [] then duplicates[0] else |s|
    requires Repeats(s, duplicates, |s|)
    ensures from <= |s| && forall m :: 0 < m < from ==> s[m] != s[m - 1]
  {
  }

  /** The second loop: splices the duplicates out, from the last on. */
  method RemoveDuplicates<T(==, !new)>(s: seq<T>) returns (r: seq<T>)
    ensures r == KeptFrom(s, 0)
  {
    hide Repeats;
    var duplicates := CollectDuplicates(s);
    var j := |duplicates|;
    r := s;
    while j > 0
      invariant 0 <= j <= |duplicates| && StartOf(s, duplicates, j) <= |s|
      invariant r == s[..StartOf(s, duplicates, j)] + KeptFrom(s, StartOf(s, duplicates, j))
    {
      ghost var from := StartOf(s, duplicates, j);
      j := j - 1;
      NoneBetween(s, duplicates, j, from);
      SplicedOut(s, duplicates[j], from);
      r := r[..duplicates[j]] + r[duplicates[j] + 1..];
    }
    NoneFirst(s, duplicates, StartOf(s, duplicates, 0));
    KeptStretch(s, 0, StartOf(s, duplicates, 0));
  }

  /* ---------- the code ---------- */

  class Sorter {
    const doc: Document
    var hasDuplicate: bool

    constructor (doc: Document)
      requires doc.Valid()
      ensures this.doc == doc && !hasDuplicate
    {
      this.doc := doc;
      hasDuplicate := false;
    }

    /** sortOrder on two nodes of the document. */
    method SortOrder(a: Path, b: Path) returns (r: int)
      requires doc.Valid() && a in doc.kids && b in doc.kids
      modifies this`hasDuplicate
      ensures r < 0 <==> Before(a, b)
      ensures r > 0 <==> Before(b, a)
      ensures r == 0 <==> a == b
      ensures hasDuplicate == (old(hasDuplicate) || a == b)
    {
      hide Document.Valid, Prefixes;
      BeforeTotal(a, b);
      BeforeIrreflexive(a);
      if a == b {
        hasDuplicate := true;
        return 0;
      }
      if a == [] || b == [] {
        return if a == [] then -1 else 1;
      }
      if Parent(a) == Parent(b) {
        ParentDifference(a, b);
        r := SiblingCheck(doc, Some(a), Some(b), Parent(a));
        return;
      }
      var ap := Ancestors(doc, a);
      var bp := Ancestors(doc, b);
      var i := WalkDown(a, b, ap, bp);
      AncestorAt(doc, a, i);
      AncestorAt(doc, b, i);
      BeforeAt(a, b, i - 1);
      var next := if i < |ap| then Some(ap[i]) else None;
      r := SiblingCheck(doc, next, if i < |bp| then Some(bp[i]) else None, a[..i - 1]);
    }

    /** The insertion step of the array sort: x moves down past everything that sorts after it. */
    method Insert(s: seq<Path>, x: Path) returns (r: seq<Path>)
      requires doc.Valid() && x in doc.kids && (forall y <- s :: y in doc.kids) && Ordered(s)
      modifies this`hasDuplicate
      ensures Ordered(r) && multiset(r) == multiset(s) + multiset{x}
      ensures hasDuplicate == (old(hasDuplicate) || x in s)
    {
      hide Before, Document.Valid, Ordered;
      var j := |s|;
      while j > 0
        invariant 0 <= j <= |s|
        invariant forall k :: j <= k < |s| ==> Before(x, s[k])
        invariant hasDuplicate == old(hasDuplicate)
      {
        var order := SortOrder(s[j - 1], x);
        if order <= 0 {
          break;
        }
        j := j - 1;
      }
      r := s[..j] + [x] + s[j..];
      InsertedElements(s, x, j);
      InsertedOrdered(s, x, j);
    }

    /** results.sort(sortOrder); in the end every element has met its neighbours. */
    method Sort(s: seq<Path>) returns (r: seq<Path>)
      requires doc.Valid() && forall y <- s :: y in doc.kids
      modifies this`hasDuplicate
      ensures Ordered(r) && multiset(r) == multiset(s)
      ensures old(hasDuplicate) ==> hasDuplicate
      ensures !hasDuplicate ==> StrictlyOrdered(r)
    {
      hide Before, Document.Valid;
      r := [];
      for i := 0 to |s|
        invariant Ordered(r) && multiset(r) == multiset(s[..i])
        invariant old(hasDuplicate) ==> hasDuplicate
        invariant !hasDuplicate ==> StrictlyOrdered(r)
      {
        assert s[..i + 1] == s[..i] + [s[i]];
        forall y | y in r
          ensures y in s
        {
          assert y in multiset(r);
          assert y in s[..i];
        }
        ghost var before := r;
        r := Insert(r, s[i]);
        if !hasDuplicate {
          StillStrict(before, s[i], r);
        }
      }
      assert s[..|s|] == s;
    }

    /**
     What follows the array sort, whatever sort it was: any ordered permutation, provided the
     comparator has been given two equal nodes whenever two equal ones stand side by side, as every
     sort must that compares each element with its neighbours.
     */
    method DropDuplicates(sorted: seq<Path>) returns (r: seq<Path>)
      requires Ordered(sorted)
      requires !hasDuplicate ==> forall k :: 0 < k < |sorted| ==> sorted[k] != sorted[k - 1]
      ensures StrictlyOrdered(r) && forall x :: x in r <==> x in sorted
    {
      hide Before;
      r := sorted;
      if !hasDuplicate {
        NoNeighboursEqual(sorted);
      }
      if hasDuplicate {
        r := RemoveDuplicates(sorted);
        KeptStrictly(sorted, 0);
        forall x
          ensures x in r <==> x in sorted
        {
          if x in r {
            KeptIn(sorted, 0, x);
          }
          if x in sorted {
            var m :| 0 <= m < |sorted| && sorted[m] == x;
            KeptCovers(sorted, 0, m);
          }
        }
      }
    }

    /** Sizzle.uniqueSort: each distinct node once, in document order. */
    method UniqueSort(results: seq<Path>, detectDuplicates: bool) returns (r: seq<Path>)
      requires doc.Valid() && forall y <- results :: y in doc.kids
      modifies this`hasDuplicate
      ensures StrictlyOrdered(r) && forall x :: x in r <==> x in results
    {
      hide Before, Document.Valid;
      hasDuplicate := !detectDuplicates;
      var sorted := Sort(results);
      SameElements(sorted, results);
      if !hasDuplicate {
        StrictlyDiffers(sorted);
      }
      r := DropDuplicates(sorted);
    }
  }
}
