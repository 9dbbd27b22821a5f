/** The package tree that `_add_child_packages` builds, and the title
    order in which `_add_child_bullets` visits each level of it. */
module Tree {
  import opened Host
  import opened Titles

  /** A package dict after `_add_child_packages`: every node has its
      `children` list. */
  datatype Tree = Node(pkg: Package, children: seq<Tree>)

  function Title(t: Tree): string {
    t.pkg.title
  }

  predicate SortedByTitle(s: seq<Tree>) {
    forall i, j :: 0 <= i < j < |s| ==> Le(Title(s[i]), Title(s[j]))
  }

  /** The trees of `s` whose title is `title`, in order. */
  function WithTitle(s: seq<Tree>, title: string): (r: seq<Tree>)
    ensures |r| <= |s|
  {
    if s == [] then []
    else if Title(s[0]) == title then [s[0]] + WithTitle(s[1..], title)
    else WithTitle(s[1..], title)
  }

  /** Puts `x` before the first tree whose title is not smaller than its
      own, so that `x` stays ahead of the trees with an equal title. */
  function Insert(x: Tree, s: seq<Tree>): (r: seq<Tree>)
    ensures multiset(r) == multiset(s) + multiset{x}
  {
    if s == [] then [x]
    else if Le(Title(x), Title(s[0])) then [x] + s
    else
      assert s == [s[0]] + s[1..];
      [s[0]] + Insert(x, s[1..])
  }

  /** `sorted(s, key=lambda child: child['title'])`: a stable sort. */
  function SortByTitle(s: seq<Tree>): (r: seq<Tree>)
    ensures multiset(r) == multiset(s)
  {
    if s == [] then []
    else
      assert s == [s[0]] + s[1..];
      Insert(s[0], SortByTitle(s[1..]))
  }

  /** The sorted children are the children: same length, same members. */
  lemma SortByTitleMembers(s: seq<Tree>)
    ensures |SortByTitle(s)| == |s|
    ensures forall x :: x in SortByTitle(s) <==> x in s
  {
    var r := SortByTitle(s);
    assert |multiset(r)| == |multiset(s)|;
    forall x ensures x in r <==> x in s {
      assert x in r <==> x in multiset(r);
      assert x in s <==> x in multiset(s);
    }
  }

  lemma InsertMembers(x: Tree, s: seq<Tree>)
    ensures forall y :: y in Insert(x, s) <==> y == x || y in s
  {
    var r := Insert(x, s);
    forall y ensures y in r <==> y == x || y in s {
      assert y in r <==> y in multiset(r);
      assert y in s <==> y in multiset(s);
    }
  }

  lemma {:induction false} InsertSorted(x: Tree, s: seq<Tree>)
    requires SortedByTitle(s)
    ensures SortedByTitle(Insert(x, s))
    decreases |s|
  {
    if s == [] {
    } else if Le(Title(x), Title(s[0])) {
      InsertFrontSorted(x, s);
    } else {
      InsertSorted(x, s[1..]);
      LeTotal(Title(x), Title(s[0]));
      InsertMembers(x, s[1..]);
      ConsSorted(s[0], Insert(x, s[1..]));
    }
  }

  lemma InsertFrontSorted(x: Tree, s: seq<Tree>)
    requires SortedByTitle(s) && s != [] && Le(Title(x), Title(s[0]))
    ensures SortedByTitle([x] + s)
  {
    var r := [x] + s;
    forall i, j | 0 <= i < j < |r| ensures Le(Title(r[i]), Title(r[j])) {
      if i == 0 && j > 1 {
        LeTransitive(Title(x), Title(s[0]), Title(s[j - 1]));
      }
    }
  }

  /** A tree whose title is at most every title of a sorted sequence can
      go in front of it. */
  lemma ConsSorted(y: Tree, rest: seq<Tree>)
    requires SortedByTitle(rest)
    requires forall z :: z in rest ==> Le(Title(y), Title(z))
    ensures SortedByTitle([y] + rest)
  {
    var r := [y] + rest;
    forall i, j | 0 <= i < j < |r| ensures Le(Title(r[i]), Title(r[j])) {
      assert r[j] == rest[j - 1];
      if i > 0 {
        assert r[i] == rest[i - 1];
      }
    }
  }

  /** Every level of the rendered list is in non-decreasing title order. */
  lemma {:induction false} SortByTitleSorted(s: seq<Tree>)
    ensures SortedByTitle(SortByTitle(s))
    decreases |s|
  {
    if s != [] {
      SortByTitleSorted(s[1..]);
      InsertSorted(s[0], SortByTitle(s[1..]));
    }
  }

  lemma {:induction false} InsertWithTitle(x: Tree, s: seq<Tree>, title: string)
    requires SortedByTitle(s)
    ensures WithTitle(Insert(x, s), title)
         == if Title(x) == title then [x] + WithTitle(s, title) else WithTitle(s, title)
    decreases |s|
  {
    if s != [] && !Le(Title(x), Title(s[0])) {
      InsertWithTitle(x, s[1..], title);
      if Title(x) == title {
        // the trees that x is moved past have titles below its own
        LeReflexive(title);
        assert Title(s[0]) != title;
      }
      assert ([s[0]] + Insert(x, s[1..]))[1..] == Insert(x, s[1..]);
    }
  }

  /** The sort is stable: the trees sharing a title keep their input order. */
  lemma {:induction false} SortByTitleStable(s: seq<Tree>, title: string)
    ensures WithTitle(SortByTitle(s), title) == WithTitle(s, title)
    decreases |s|
  {
    if s != [] {
      SortByTitleStable(s[1..], title);
      SortByTitleSorted(s[1..]);
      InsertWithTitle(s[0], SortByTitle(s[1..]), title);
    }
  }

  /** How a tree gets the children of a package: a call that lists them
      (get_child_packages) or raises. */
  type Lister = string -> Result<seq<Package>>

  /** Python's default recursion limit, counted here in nested
      `_add_child_packages` calls. */
  const RecursionLimit: nat := 1000

  /** `_add_child_packages(pkg)`: the package with its children attached,
      each with its own children, recursively. A child listing that raises
      aborts the whole build, and so does a descent deeper than `budget`
      (the RecursionError a cycle of child links ends in). */
  function ChildTree(list: Lister, p: Package, budget: nat): Result<Tree>
    decreases budget, 0, 0
  {
    if budget == 0 then Raised(RecursionError)
    else match list(p.id)
      case Raised(e) => Raised(e)
      case Ok(kids) =>
        match Forest(list, kids, budget - 1)
        case Raised(e) => Raised(e)
        case Ok(ts) => Ok(Node(p, ts))
  }

  /** The `for child in pkg['children']` loop: the children built in order;
      the first one that raises aborts the rest. */
  function Forest(list: Lister, ps: seq<Package>, budget: nat): Result<seq<Tree>>
    decreases budget, 1, |ps|
  {
    if ps == [] then Ok([])
    else match Forest(list, ps[..|ps| - 1], budget)
      case Raised(e) => Raised(e)
      case Ok(ts) =>
        match ChildTree(list, ps[|ps| - 1], budget)
        case Raised(e) => Raised(e)
        case Ok(t) => Ok(ts + [t])
  }

  function Packages(ts: seq<Tree>): (ps: seq<Package>)
    ensures |ps| == |ts|
    ensures forall i :: 0 <= i < |ts| ==> ps[i] == ts[i].pkg
  {
    if ts == [] then [] else Packages(ts[..|ts| - 1]) + [ts[|ts| - 1].pkg]
  }

  function Height(t: Tree): nat
    decreases t, 1, 0
  {
    1 + HeightAll(t.children, t)
  }

  function HeightAll(ts: seq<Tree>, parent: Tree): nat
    requires forall c :: c in ts ==> c in parent.children
    decreases parent, 0, |ts|
  {
    if ts == [] then 0
    else
      var last := ts[|ts| - 1];
      assert last in parent.children;
      var h := Height(last);
      var rest := HeightAll(ts[..|ts| - 1], parent);
      if h < rest then rest else h
  }

  /** Every node's children are exactly what the lister gave for it. */
  ghost predicate Built(list: Lister, t: Tree) {
    && list(t.pkg.id) == Ok(Packages(t.children))
    && forall i :: 0 <= i < |t.children| ==> Built(list, t.children[i])
  }

  /** The children a build returns are the listed packages, in order. */
  lemma {:induction false} ForestPackages(list: Lister, ps: seq<Package>, budget: nat)
    requires Forest(list, ps, budget).Ok?
    ensures Packages(Forest(list, ps, budget).value) == ps
    decreases |ps|
  {
    if ps != [] {
      var n := |ps| - 1;
      ForestPackages(list, ps[..n], budget);
      assert ps == ps[..n] + [ps[n]];
    }
  }

  /** A tree that _add_child_packages returns is rooted at the package it
      was given and lists at every node exactly that node's children. */
  lemma {:induction false} ChildTreeIsBuilt(list: Lister, p: Package, budget: nat)
    requires ChildTree(list, p, budget).Ok?
    ensures ChildTree(list, p, budget).value.pkg == p
    ensures Built(list, ChildTree(list, p, budget).value)
    decreases budget, 0, 0
  {
    var kids := list(p.id).value;
    ForestPackages(list, kids, budget - 1);
    ForestIsBuilt(list, kids, budget - 1);
  }

  lemma {:induction false} ForestIsBuilt(list: Lister, ps: seq<Package>, budget: nat)
    requires Forest(list, ps, budget).Ok?
    ensures forall i :: 0 <= i < |Forest(list, ps, budget).value| ==>
      Built(list, Forest(list, ps, budget).value[i])
    decreases budget, 1, |ps|
  {
    if ps != [] {
      var n := |ps| - 1;
      var pre := Forest(list, ps[..n], budget).value;
      var ts := pre + [ChildTree(list, ps[n], budget).value];
      ForestIsBuilt(list, ps[..n], budget);
      ChildTreeIsBuilt(list, ps[n], budget);
      assert Forest(list, ps, budget) == Ok(ts);
      forall i | 0 <= i < |pre| ensures Built(list, ts[i]) {
        assert ts[i] == pre[i];
      }
    }
  }

  /** ... and is no deeper than the recursion budget. */
  lemma {:induction false} ChildTreeHeight(list: Lister, p: Package, budget: nat)
    requires ChildTree(list, p, budget).Ok?
    ensures Height(ChildTree(list, p, budget).value) <= budget
    decreases budget, 0, 0
  {
    var t := ChildTree(list, p, budget).value;
    ForestHeight(list, list(p.id).value, budget - 1);
    HeightAllBound(t.children, t, budget - 1);
  }

  lemma {:induction false} ForestHeight(list: Lister, ps: seq<Package>, budget: nat)
    requires Forest(list, ps, budget).Ok?
    ensures forall i :: 0 <= i < |Forest(list, ps, budget).value| ==>
      Height(Forest(list, ps, budget).value[i]) <= budget
    decreases budget, 1, |ps|
  {
    if ps != [] {
      var n := |ps| - 1;
      var pre := Forest(list, ps[..n], budget).value;
      var ts := pre + [ChildTree(list, ps[n], budget).value];
      ForestHeight(list, ps[..n], budget);
      ChildTreeHeight(list, ps[n], budget);
      assert Forest(list, ps, budget) == Ok(ts);
      forall i | 0 <= i < |pre| ensures Height(ts[i]) <= budget {
        assert ts[i] == pre[i];
      }
    }
  }

  lemma {:induction false} HeightAllBound(ts: seq<Tree>, parent: Tree, bound: nat)
    requires forall c :: c in ts ==> c in parent.children
    requires forall i :: 0 <= i < |ts| ==> Height(ts[i]) <= bound
    ensures HeightAll(ts, parent) <= bound
    decreases |ts|
  {
    if ts != [] {
      HeightAllBound(ts[..|ts| - 1], parent, bound);
    }
  }

  /** A larger recursion budget never changes a tree that was built: the
      limit only decides whether the build raises. */
  lemma {:induction false} ChildTreeBudgetMonotone(list: Lister, p: Package, budget: nat)
    requires ChildTree(list, p, budget).Ok?
    ensures ChildTree(list, p, budget + 1) == ChildTree(list, p, budget)
    decreases budget, 0, 0
  {
    ForestBudgetMonotone(list, list(p.id).value, budget - 1);
  }

  lemma {:induction false} ForestBudgetMonotone(list: Lister, ps: seq<Package>, budget: nat)
    requires Forest(list, ps, budget).Ok?
    ensures Forest(list, ps, budget + 1) == Forest(list, ps, budget)
    decreases budget, 1, |ps|
  {
    if ps != [] {
      ForestBudgetMonotone(list, ps[..|ps| - 1], budget);
      ChildTreeBudgetMonotone(list, ps[|ps| - 1], budget);
    }
  }

  /** Extending the children built so far by one more child (the loop
      step of the methods that build trees). */
  lemma ForestStep(list: Lister, ps: seq<Package>, i: nat, budget: nat)
    requires i < |ps|
    ensures Forest(list, ps[..i + 1], budget) ==
      match Forest(list, ps[..i], budget)
      case Raised(e) => Raised(e)
      case Ok(ts) =>
        match ChildTree(list, ps[i], budget)
        case Raised(e) => Raised(e)
        case Ok(t) => Ok(ts + [t])
  {
    assert ps[..i + 1][..i] == ps[..i];
  }

  /** Once a prefix of the children raises, so do all the children. */
  lemma {:induction false} ForestRaisesFromPrefix(list: Lister, ps: seq<Package>, i: nat, budget: nat)
    requires i <= |ps|
    requires Forest(list, ps[..i], budget).Raised?
    ensures Forest(list, ps, budget) == Forest(list, ps[..i], budget)
    decreases |ps| - i
  {
    if i < |ps| {
      ForestStep(list, ps, i, budget);
      ForestRaisesFromPrefix(list, ps, i + 1, budget);
    } else {
      assert ps[..i] == ps;
    }
  }

  /** The three ways a build with budget left ends, as the methods that
      build trees take them. */
  lemma ChildTreeCases(list: Lister, p: Package, budget: nat)
    requires budget > 0
    ensures list(p.id).Raised? ==> ChildTree(list, p, budget) == Raised(list(p.id).error)
    ensures list(p.id).Ok? && Forest(list, list(p.id).value, budget - 1).Raised? ==>
      ChildTree(list, p, budget) == Raised(Forest(list, list(p.id).value, budget - 1).error)
    ensures list(p.id).Ok? && Forest(list, list(p.id).value, budget - 1).Ok? ==>
      ChildTree(list, p, budget) == Ok(Node(p, Forest(list, list(p.id).value, budget - 1).value))
  {
  }

  /** A loop pass whose child builds: one more subtree. */
  lemma ForestExtend(list: Lister, ps: seq<Package>, i: nat, budget: nat, built: seq<Tree>, t: Tree)
    requires i < |ps|
    requires Forest(list, ps[..i], budget) == Ok(built)
    requires ChildTree(list, ps[i], budget) == Ok(t)
    ensures Forest(list, ps[..i + 1], budget) == Ok(built + [t])
  {
    ForestStep(list, ps, i, budget);
  }

  /** A loop pass whose child raises: the whole loop raises that error. */
  lemma ForestAbort(list: Lister, ps: seq<Package>, i: nat, budget: nat, built: seq<Tree>)
    requires i < |ps|
    requires Forest(list, ps[..i], budget) == Ok(built)
    requires ChildTree(list, ps[i], budget).Raised?
    ensures Forest(list, ps, budget) == Raised(ChildTree(list, ps[i], budget).error)
  {
    ForestStep(list, ps, i, budget);
    ForestRaisesFromPrefix(list, ps, i + 1, budget);
  }
}
