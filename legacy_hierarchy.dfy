/** ckanext/ord-hierarchy/plugins.py, the earlier version of the helpers:
    children come from the search index, a package has a single parent (the
    first listed one), and the walk to the top follows that parent. Its
    cache is the same hierarchy_cache table. */
module LegacyHierarchy {
  import opened Host
  import opened Tree
  import opened Render
  import opened Ancestry
  import opened CacheDb

  /** The `rows` of the child search. */
  const SearchRows := 1000

  /** The packages the search index returns for a list of ids: those that
      exist and that the user may see; no id raises. */
  function Indexed(cat: Catalog, ids: seq<string>): (r: seq<Package>)
    ensures |r| <= |ids|
    ensures forall p :: p in r <==>
      exists c :: c in ids && c in cat.packages && c in cat.readable && cat.packages[c] == p
  {
    if ids == [] then []
    else
      var c := ids[|ids| - 1];
      assert ids == ids[..|ids| - 1] + [c];
      var before := Indexed(cat, ids[..|ids| - 1]);
      if c in cat.packages && c in cat.readable then before + [cat.packages[c]] else before
  }

  /** get_child_packages: `package_search` for `child_of:id`, at most
      SearchRows results. */
  function SearchChildren(cat: Catalog, rels: seq<Relationship>, id: string): (r: seq<Package>)
    ensures |r| <= SearchRows
    ensures forall p :: p in r ==>
      exists c :: c in ChildIds(rels, id) && c in cat.packages && c in cat.readable && cat.packages[c] == p
    ensures |ChildIds(rels, id)| <= SearchRows ==> forall p :: p in r <==>
      exists c :: c in ChildIds(rels, id) && c in cat.packages && c in cat.readable && cat.packages[c] == p
  {
    var hits := Indexed(cat, ChildIds(rels, id));
    if |hits| <= SearchRows then hits
    else
      assert forall p :: p in hits[..SearchRows] ==> p in hits;
      hits[..SearchRows]
  }

  /** get_parent_package: the package named by the first child_of
      relationship of `id`. A relationship query that raises, and a package
      without parents, give `{}` (here `None`); showing the parent is not
      guarded, so its NotFound or NotAuthorized reaches the caller. */
  function FirstParent(cat: Catalog, rels: seq<Relationship>, id: string): (r: Result<Option<Package>>)
    ensures r == Ok(None) <==> id !in cat.packages || id !in cat.readable || ParentIds(rels, id) == []
    ensures r.Ok? && r.value.Some? ==>
      var q := ParentIds(rels, id)[0];
      q in cat.packages && q in cat.readable && r.value.value == cat.packages[q]
    ensures r.Raised? ==>
      ParentIds(rels, id) != [] && (ParentIds(rels, id)[0] !in cat.packages || ParentIds(rels, id)[0] !in cat.readable)
  {
    match RelationshipsList(cat, rels, id, ChildOfView)
    case Raised(_) => Ok(None)
    case Ok(ids) =>
      if ids == [] then Ok(None)
      else match Show(cat, ids[0])
        case Raised(e) => Raised(e)
        case Ok(p) => Ok(Some(p))
  }

  /** One step of the walk: up to the first parent. */
  function LegacyStep(cat: Catalog, rels: seq<Relationship>): Stepper {
    id => match FirstParent(cat, rels, id)
      case Raised(e) => Fail(e)
      case Ok(None) => Top
      case Ok(Some(p)) => Up(p)
  }

  /** The children lookup of `_add_child_packages`: the search never raises. */
  function SearchLister(cat: Catalog, rels: seq<Relationship>): Lister {
    id => Ok(SearchChildren(cat, rels, id))
  }

  /** `_add_child_packages(pkg)` over the search results. */
  method AddChildPackages(cat: Catalog, rels: seq<Relationship>, pkg: Package, budget: nat) returns (r: Result<Tree>)
    ensures r == ChildTree(SearchLister(cat, rels), pkg, budget)
    decreases budget, 0
  {
    if budget == 0 {
      return Raised(RecursionError);
    }
    var kids := SearchChildren(cat, rels, pkg.id);
    assert SearchLister(cat, rels)(pkg.id) == Ok(kids);
    ChildTreeCases(SearchLister(cat, rels), pkg, budget);
    var built := AddChildTrees(cat, rels, kids, budget - 1);
    if built.Raised? {
      return Raised(built.error);
    }
    r := Ok(Node(pkg, built.value));
  }

  /** The `for child in pkg['children']` loop of `_add_child_packages`:
      each child gets its own children, in order; the first child whose
      build raises aborts the loop. */
  method AddChildTrees(cat: Catalog, rels: seq<Relationship>, ps: seq<Package>, budget: nat) returns (r: Result<seq<Tree>>)
    ensures r == Forest(SearchLister(cat, rels), ps, budget)
    decreases budget, 1
  {
    var list := SearchLister(cat, rels);
    var built: seq<Tree> := [];
    for i := 0 to |ps|
      invariant Forest(list, ps[..i], budget) == Ok(built)
    {
      var child := AddChildPackages(cat, rels, ps[i], budget);
      if child.Raised? {
        ForestAbort(list, ps, i, budget, built);
        return Raised(child.error);
      }
      ForestExtend(list, ps, i, budget, built, child.value);
      built := built + [child.value];
    }
    assert ps[..|ps|] == ps;
    r := Ok(built);
  }

  /** get_package_tree: the cached list when there is one, otherwise the
      list rendered now and stored when non-empty; a cache write that
      raises makes the helper return ''. */
  method GetPackageTree(db: Database, cat: Catalog, link: string, pkg: Package) returns (html: string)
    requires db.Valid()
    modifies db`cache, db`cachedTables, db`reflected
    ensures db.Valid()
    ensures old(db.HtmlTreeOf(pkg.id)) != "" ==>
      html == old(db.HtmlTreeOf(pkg.id)) && db.cache == old(db.cache)
    ensures old(db.HtmlTreeOf(pkg.id)) == "" ==>
      var rendered := RenderTree(SearchLister(cat, db.relationships), link, pkg);
      && html == (if db.online then rendered else "")
      && db.cache == (if db.online && rendered != "" then Upsert(old(db.cache), pkg.id, TreeHtml, rendered) else old(db.cache))
    ensures html != "" ==> db.HtmlTreeOf(pkg.id) == html
  {
    var cached := db.GetHtmlTree(pkg.id);
    if cached != "" {
      return cached;
    }
    var built := AddChildPackages(cat, db.relationships, pkg, RecursionLimit);
    if built.Raised? {
      return "";
    }
    var tree := built.value;
    html := "";
    if tree.children != [] {
      html := AddChildBullets(html, link, tree);
    }
    if html != "" {
      var written := db.CacheHtmlTree(pkg.id, html);
      if !written {
        return "";
      }
    }
  }

  /** get_top_level_package: `None` for a package without a parent; on a
      cache hit the cached package, without walking; on a miss the walk up
      first parents, whose end is cached for `id` alone. A failing step of
      the walk, a failing cached show and a failing cache write all give
      `None`. The walk terminates only when the first-parent chain does. */
  method GetTopLevelPackage(db: Database, cat: Catalog, id: string) returns (r: Result<Option<Package>>)
    requires db.Valid() && WellKeyed(cat)
    requires LegacyStep(cat, db.relationships)(id).Up? && db.TopPkgOf(id) == "" ==>
      exists n: nat :: Stops(LegacyStep(cat, db.relationships), id, n)
    modifies db`cache, db`cachedTables, db`reflected
    ensures db.Valid()
    ensures FirstParent(cat, db.relationships, id).Raised? ==>
      r == Raised(FirstParent(cat, db.relationships, id).error) && db.cache == old(db.cache)
    ensures FirstParent(cat, db.relationships, id) == Ok(None) ==> r == Ok(None) && db.cache == old(db.cache)
    ensures FirstParent(cat, db.relationships, id).Ok? && FirstParent(cat, db.relationships, id).value.Some? ==>
      if old(db.TopPkgOf(id)) != "" then
        db.cache == old(db.cache) &&
        r == (if Show(cat, old(db.TopPkgOf(id))).Ok? then Ok(Some(cat.packages[old(db.TopPkgOf(id))])) else Ok(None))
      else match TopAbove(LegacyStep(cat, db.relationships), id)
        case Raised(_) => r == Ok(None) && db.cache == old(db.cache)
        case Ok(top) =>
          if db.online then r == Ok(Some(top)) && db.cache == Upsert(old(db.cache), id, TopPkgId, top.id)
          else r == Ok(None) && db.cache == old(db.cache)
    ensures r.Ok? && r.value.Some? && r.value.value.id != "" ==>
      db.TopPkgOf(id) == r.value.value.id && Show(cat, r.value.value.id) == Ok(r.value.value)
  {
    var rels := db.relationships;
    ghost var step := LegacyStep(cat, rels);
    LegacyStepShown(cat, rels);
    var parent := FirstParent(cat, rels, id);
    if parent.Raised? {
      return Raised(parent.error);
    }
    if parent.value.None? {
      return Ok(None);
    }
    var top := db.GetTopPkg(id);
    if top != "" {
      var shown := Show(cat, top);
      return if shown.Ok? then Ok(Some(shown.value)) else Ok(None);
    }
    assert step(id) == Up(parent.value.value);
    ghost var n: nat :| Stops(step, id, n);
    TopAboveAt(step, id, n);
    var walked := ClimbParents(cat, rels, parent.value.value, n - 1);
    ClimbShown(cat, step, parent.value.value, n - 1);
    if walked.Raised? {
      return Ok(None);
    }
    var ok := db.CacheTopPkg(id, walked.value.id);
    if !ok {
      return Ok(None);
    }
    r := Ok(Some(walked.value));
  }

  /** The `while True` loop: from `start`, move to the first parent until a
      package has none. */
  method ClimbParents(cat: Catalog, rels: seq<Relationship>, start: Package, ghost n: nat) returns (r: Result<Package>)
    requires Stops(LegacyStep(cat, rels), start.id, n)
    ensures r == Climb(LegacyStep(cat, rels), start, n)
  {
    ghost var step := LegacyStep(cat, rels);
    var current := start;
    ghost var k := n;
    while true
      invariant Stops(step, current.id, k)
      invariant Climb(step, current, k) == Climb(step, start, n)
      decreases k
    {
      var parent := FirstParent(cat, rels, current.id);
      if parent.Raised? {
        return Raised(parent.error);
      }
      if parent.value.None? {
        return Ok(current);
      }
      StopsUp(step, current.id, k);
      current := parent.value.value;
      k := k - 1;
    }
  }

  /** Where the walk ends, it ends at a package without a first parent that
      is reached from `id` by first-parent steps. */
  lemma LegacyTopIsAncestor(cat: Catalog, rels: seq<Relationship>, id: string)
    requires LegacyStep(cat, rels)(id).Up?
    requires exists n: nat :: Stops(LegacyStep(cat, rels), id, n)
    requires TopAbove(LegacyStep(cat, rels), id).Ok?
    ensures FirstParent(cat, rels, TopAbove(LegacyStep(cat, rels), id).value.id) == Ok(None)
    ensures IsAncestor(LegacyStep(cat, rels), id, TopAbove(LegacyStep(cat, rels), id).value)
  {
    TopAboveIsAncestor(LegacyStep(cat, rels), id);
  }

  /** In a well-keyed catalog, a first parent is a package that
      package_show returns for its id. */
  lemma LegacyStepShown(cat: Catalog, rels: seq<Relationship>)
    requires WellKeyed(cat)
    ensures forall id :: LegacyStep(cat, rels)(id).Up? ==>
      Show(cat, LegacyStep(cat, rels)(id).parent.id) == Ok(LegacyStep(cat, rels)(id).parent)
  {
    forall id | LegacyStep(cat, rels)(id).Up?
      ensures Show(cat, LegacyStep(cat, rels)(id).parent.id) == Ok(LegacyStep(cat, rels)(id).parent)
    {
      var q := ParentIds(rels, id)[0];
      assert cat.packages[q].id == q;
    }
  }

  /** Packages a and b, each the first parent of the other: the walk up
      from a never reaches a package without a parent, so the `while True`
      loop never ends and ClimbParents cannot be called. */
  lemma FirstParentCycleNeverStops(n: nat)
    ensures var cat := Catalog(map["a" := Package("a", "a", "A", 1), "b" := Package("b", "b", "B", 1)], {"a", "b"});
      var rels := [Relationship("a", "b", ChildOf, Active), Relationship("b", "a", ChildOf, Active)];
      && LegacyStep(cat, rels)("a") == Up(Package("b", "b", "B", 1))
      && !Stops(LegacyStep(cat, rels), "a", n)
  {
    var a := Package("a", "a", "A", 1);
    var b := Package("b", "b", "B", 1);
    var cat := Catalog(map["a" := a, "b" := b], {"a", "b"});
    var rels := [Relationship("a", "b", ChildOf, Active), Relationship("b", "a", ChildOf, Active)];
    var step := LegacyStep(cat, rels);
    assert rels[..1] == [Relationship("a", "b", ChildOf, Active)];
    assert rels[..1][..0] == [];
    assert Links(rels[0]) && Links(rels[1]);
    assert ParentIds(rels[..1], "a") == ["b"];
    assert ParentIds(rels[..1], "b") == [];
    assert ParentIds(rels, "a") == ["b"];
    assert ParentIds(rels, "b") == ["a"];
    assert step("a") == Up(b);
    assert step("b") == Up(a);
    CycleNeverStops(step, [a, b], n);
  }

  /** The walk of get_top_level_package with a guard against cycles: it
      remembers the ids it has visited and gives `None` when a first parent
      repeats one. It ends on every catalog; it gives `None` exactly when
      the unguarded walk would not end, and otherwise what that walk
      gives. */
  method ClimbParentsGuarded(cat: Catalog, rels: seq<Relationship>, start: Package) returns (r: Result<Option<Package>>)
    requires WellKeyed(cat) && start.id in cat.packages
    ensures r == Ok(None) ==> forall n: nat :: !Stops(LegacyStep(cat, rels), start.id, n)
    ensures r != Ok(None) ==> exists n: nat :: Stops(LegacyStep(cat, rels), start.id, n)
    ensures forall n: nat :: Stops(LegacyStep(cat, rels), start.id, n) ==>
      r == match Climb(LegacyStep(cat, rels), start, n)
        case Ok(t) => Ok(Some(t))
        case Raised(e) => Raised(e)
  {
    ghost var step := LegacyStep(cat, rels);
    var current := start;
    var visited := {start.id};
    ghost var path := [start];
    while true
      invariant |path| > 0 && path[0] == start && path[|path| - 1] == current && Linked(step, path)
      invariant forall v :: v in visited <==> exists i :: 0 <= i < |path| && path[i].id == v
      invariant visited <= cat.packages.Keys
      decreases cat.packages.Keys - visited
    {
      var parent := FirstParent(cat, rels, current.id);
      if parent.Raised? || parent.value.None? {
        WalkEnds(step, path);
        if parent.Raised? {
          return Raised(parent.error);
        }
        return Ok(Some(current));
      }
      var next := parent.value.value;
      assert step(current.id) == Up(next);
      assert next.id in cat.packages by {
        assert cat.packages[ParentIds(rels, current.id)[0]].id == ParentIds(rels, current.id)[0];
      }
      if next.id in visited {
        ghost var j :| 0 <= j < |path| && path[j].id == next.id;
        PathCycleNeverStops(step, path, j, next);
        return Ok(None);
      }
      LinkedSnoc(step, path, next);
      assert forall i :: 0 <= i < |path| ==> (path + [next])[i] == path[i];
      path := path + [next];
      visited := visited + {next.id};
      current := next;
    }
  }

  /** get_top_level_package with the guarded walk, which ends on every
      catalog. Where the first-parent chain from `id` ends it behaves as
      GetTopLevelPackage does; on a cycle of first parents it gives `None`
      and caches nothing. */
  method GetTopLevelPackageGuarded(db: Database, cat: Catalog, id: string) returns (r: Result<Option<Package>>)
    requires db.Valid() && WellKeyed(cat)
    modifies db`cache, db`cachedTables, db`reflected
    ensures db.Valid()
    ensures FirstParent(cat, db.relationships, id).Raised? ==>
      r == Raised(FirstParent(cat, db.relationships, id).error) && db.cache == old(db.cache)
    ensures FirstParent(cat, db.relationships, id) == Ok(None) ==> r == Ok(None) && db.cache == old(db.cache)
    ensures FirstParent(cat, db.relationships, id).Ok? && FirstParent(cat, db.relationships, id).value.Some? ==>
      if old(db.TopPkgOf(id)) != "" then
        db.cache == old(db.cache) &&
        r == (if Show(cat, old(db.TopPkgOf(id))).Ok? then Ok(Some(cat.packages[old(db.TopPkgOf(id))])) else Ok(None))
      else if exists n: nat :: Stops(LegacyStep(cat, db.relationships), id, n) then
        match TopAbove(LegacyStep(cat, db.relationships), id)
        case Raised(_) => r == Ok(None) && db.cache == old(db.cache)
        case Ok(top) =>
          if db.online then r == Ok(Some(top)) && db.cache == Upsert(old(db.cache), id, TopPkgId, top.id)
          else r == Ok(None) && db.cache == old(db.cache)
      else r == Ok(None) && db.cache == old(db.cache)
    ensures r.Ok? && r.value.Some? && r.value.value.id != "" ==>
      db.TopPkgOf(id) == r.value.value.id && Show(cat, r.value.value.id) == Ok(r.value.value)
  {
    var rels := db.relationships;
    ghost var step := LegacyStep(cat, rels);
    LegacyStepShown(cat, rels);
    var parent := FirstParent(cat, rels, id);
    if parent.Raised? {
      return Raised(parent.error);
    }
    if parent.value.None? {
      return Ok(None);
    }
    var top := db.GetTopPkg(id);
    if top != "" {
      var shown := Show(cat, top);
      return if shown.Ok? then Ok(Some(shown.value)) else Ok(None);
    }
    var start := parent.value.value;
    assert step(id) == Up(start);
    var walked := ClimbParentsGuarded(cat, rels, start);
    GuardedWalkIsTop(cat, rels, id, walked);
    if walked.Raised? || walked.value.None? {
      return Ok(None);
    }
    var ok := db.CacheTopPkg(id, walked.value.value.id);
    if !ok {
      return Ok(None);
    }
    r := Ok(Some(walked.value.value));
  }

  /** What the guarded walk from the first parent of `id` gives, in terms of
      the top above `id`. */
  lemma GuardedWalkIsTop(cat: Catalog, rels: seq<Relationship>, id: string, walked: Result<Option<Package>>)
    requires WellKeyed(cat) && LegacyStep(cat, rels)(id).Up?
    requires walked == Ok(None) ==> forall n: nat :: !Stops(LegacyStep(cat, rels), LegacyStep(cat, rels)(id).parent.id, n)
    requires walked != Ok(None) ==> exists n: nat :: Stops(LegacyStep(cat, rels), LegacyStep(cat, rels)(id).parent.id, n)
    requires forall n: nat :: Stops(LegacyStep(cat, rels), LegacyStep(cat, rels)(id).parent.id, n) ==>
      walked == match Climb(LegacyStep(cat, rels), LegacyStep(cat, rels)(id).parent, n)
        case Ok(t) => Ok(Some(t))
        case Raised(e) => Raised(e)
    ensures walked == Ok(None) ==> forall n: nat :: !Stops(LegacyStep(cat, rels), id, n)
    ensures walked != Ok(None) ==> exists n: nat :: Stops(LegacyStep(cat, rels), id, n)
    ensures walked != Ok(None) ==>
      walked == match TopAbove(LegacyStep(cat, rels), id)
        case Ok(t) => Ok(Some(t))
        case Raised(e) => Raised(e)
    ensures walked.Ok? && walked.value.Some? ==>
      Show(cat, walked.value.value.id) == Ok(walked.value.value)
  {
    var step := LegacyStep(cat, rels);
    var p := step(id).parent;
    if walked != Ok(None) {
      var m: nat :| Stops(step, p.id, m);
      assert Stops(step, id, m + 1);
      TopAboveAt(step, id, m + 1);
      LegacyStepShown(cat, rels);
      ClimbShown(cat, step, p, m);
    } else {
      forall n: nat
        ensures !Stops(step, id, n)
      {
        if Stops(step, id, n) {
          StopsUp(step, id, n);
        }
      }
    }
  }
}
