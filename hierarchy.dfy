/** ckanext/ord_hierarchy/plugin.py: the template helpers that list a
    package's children and parents, find the top of its hierarchy and
    render the tree below it, each behind the hierarchy_cache table. */
module Hierarchy {
  import opened Host
  import opened Tree
  import opened Render
  import opened Ancestry
  import opened CacheDb

  /** The module flag `include_empty_packages`. */
  const IncludeEmptyPackages := true

  /** The loop of get_child_packages / get_parent_packages over the listed
      ids: readable packages are shown, unreadable ones skipped (the caught
      NotAuthorized), resource-less ones dropped unless `includeEmpty`; an
      unknown id raises NotFound, which is not caught. */
  function Visible(cat: Catalog, ids: seq<string>, includeEmpty: bool): (r: Result<seq<Package>>)
    ensures r.Raised? <==> exists o :: o in ids && o !in cat.packages
    ensures r.Raised? ==> r.error == NotFound
    ensures r.Ok? ==> |r.value| <= |ids|
    ensures r.Ok? ==> forall p :: p in r.value <==>
      exists o :: o in ids && o in cat.packages && o in cat.readable && cat.packages[o] == p
        && (includeEmpty || p.resources > 0)
  {
    if ids == [] then Ok([])
    else
      var o := ids[|ids| - 1];
      assert ids == ids[..|ids| - 1] + [o];
      match Visible(cat, ids[..|ids| - 1], includeEmpty)
      case Raised(e) => Raised(e)
      case Ok(ps) =>
        if o !in cat.packages then Raised(NotFound)
        else if o !in cat.readable then Ok(ps)
        else if !includeEmpty && cat.packages[o].resources == 0 then Ok(ps)
        else Ok(ps + [cat.packages[o]])
  }

  /** Once the ids seen so far have raised, the whole loop has. */
  lemma {:induction false} VisibleRaisesFromPrefix(cat: Catalog, ids: seq<string>, i: nat, includeEmpty: bool)
    requires i <= |ids|
    requires Visible(cat, ids[..i], includeEmpty).Raised?
    ensures Visible(cat, ids, includeEmpty) == Visible(cat, ids[..i], includeEmpty)
    decreases |ids| - i
  {
    if i < |ids| {
      assert ids[..i + 1][..i] == ids[..i];
      VisibleRaisesFromPrefix(cat, ids, i + 1, includeEmpty);
    } else {
      assert ids[..i] == ids;
    }
  }

  /** The `for rel in relationships` loop, appending to the result list. */
  method ShowListed(cat: Catalog, ids: seq<string>, includeEmpty: bool) returns (r: Result<seq<Package>>)
    ensures r == Visible(cat, ids, includeEmpty)
  {
    var found: seq<Package> := [];
    for i := 0 to |ids|
      invariant Visible(cat, ids[..i], includeEmpty) == Ok(found)
    {
      assert ids[..i + 1][..i] == ids[..i];
      var shown := Show(cat, ids[i]);
      if shown.Raised? && shown.error != NotAuthorized {
        VisibleRaisesFromPrefix(cat, ids, i + 1, includeEmpty);
        return Raised(shown.error);
      }
      if shown.Ok? {
        var pkg := shown.value;
        if !includeEmpty && pkg.resources == 0 {
        } else {
          found := found + [pkg];
        }
      }
    }
    assert ids[..|ids|] == ids;
    r := Ok(found);
  }

  /** get_child_packages: the packages listed as children of `id`. A
      relationship query that raises (unknown or unreadable `id`) gives an
      empty result. */
  function ChildPackages(cat: Catalog, rels: seq<Relationship>, id: string, includeEmpty: bool): (r: Result<seq<Package>>)
    ensures id !in cat.packages || id !in cat.readable ==> r == Ok([])
    ensures r.Raised? <==> (id in cat.packages && id in cat.readable &&
      exists c :: c in ChildIds(rels, id) && c !in cat.packages)
    ensures r.Ok? && id in cat.packages && id in cat.readable ==> forall p :: p in r.value <==>
      exists c :: c in ChildIds(rels, id) && c in cat.packages && c in cat.readable && cat.packages[c] == p
        && (includeEmpty || p.resources > 0)
  {
    match RelationshipsList(cat, rels, id, ParentOfView)
    case Raised(_) => Ok([])
    case Ok(ids) => Visible(cat, ids, includeEmpty)
  }

  /** get_parent_packages: the packages listed as parents of `id`, empty
      ones included. */
  function ParentPackages(cat: Catalog, rels: seq<Relationship>, id: string): (r: Result<seq<Package>>)
    ensures id !in cat.packages || id !in cat.readable ==> r == Ok([])
    ensures r.Raised? <==> (id in cat.packages && id in cat.readable &&
      exists q :: q in ParentIds(rels, id) && q !in cat.packages)
    ensures r.Ok? && id in cat.packages && id in cat.readable ==> forall p :: p in r.value <==>
      exists q :: q in ParentIds(rels, id) && q in cat.packages && q in cat.readable && cat.packages[q] == p
  {
    match RelationshipsList(cat, rels, id, ChildOfView)
    case Raised(_) => Ok([])
    case Ok(ids) => Visible(cat, ids, true)
  }

  method GetChildPackages(cat: Catalog, rels: seq<Relationship>, id: string, includeEmpty: bool) returns (r: Result<seq<Package>>)
    ensures r == ChildPackages(cat, rels, id, includeEmpty)
  {
    var listed := RelationshipsList(cat, rels, id, ParentOfView);
    if listed.Raised? {
      return Ok([]);
    }
    r := ShowListed(cat, listed.value, includeEmpty);
  }

  method GetParentPackages(cat: Catalog, rels: seq<Relationship>, id: string) returns (r: Result<seq<Package>>)
    ensures r == ParentPackages(cat, rels, id)
  {
    var listed := RelationshipsList(cat, rels, id, ChildOfView);
    if listed.Raised? {
      return Ok([]);
    }
    r := ShowListed(cat, listed.value, true);
  }

  /** The children lookup `_add_child_packages` uses. */
  function ChildLister(cat: Catalog, rels: seq<Relationship>): Lister {
    id => ChildPackages(cat, rels, id, IncludeEmptyPackages)
  }

  /** `_add_child_packages(pkg)`, with `budget` the Python stack frames
      still available. */
  method AddChildPackages(cat: Catalog, rels: seq<Relationship>, pkg: Package, budget: nat) returns (r: Result<Tree>)
    ensures r == ChildTree(ChildLister(cat, rels), pkg, budget)
    decreases budget, 0
  {
    if budget == 0 {
      return Raised(RecursionError);
    }
    var kids := GetChildPackages(cat, rels, pkg.id, IncludeEmptyPackages);
    assert ChildLister(cat, rels)(pkg.id) == kids;
    ChildTreeCases(ChildLister(cat, rels), pkg, budget);
    if kids.Raised? {
      return Raised(kids.error);
    }
    var built := AddChildTrees(cat, rels, kids.value, budget - 1);
    if built.Raised? {
      return Raised(built.error);
    }
    r := Ok(Node(pkg, built.value));
  }

  /** The `for child in pkg['children']` loop of `_add_child_packages`:
      each child gets its own children, in order; the first child whose
      build raises aborts the loop. */
  method AddChildTrees(cat: Catalog, rels: seq<Relationship>, ps: seq<Package>, budget: nat) returns (r: Result<seq<Tree>>)
    ensures r == Forest(ChildLister(cat, rels), ps, budget)
    decreases budget, 1
  {
    var list := ChildLister(cat, rels);
    var built: seq<Tree> := [];
    for i := 0 to |ps|
      invariant Forest(list, ps[..i], budget) == Ok(built)
    {
      var child := AddChildPackages(cat, rels, ps[i], budget);
      if child.Raised? {
        ForestAbort(list, ps, i, budget, built);
        return Raised(child.error);
      }
      ForestExtend(list, ps, i, budget, built, child.value);
      built := built + [child.value];
    }
    assert ps[..|ps|] == ps;
    r := Ok(built);
  }

  /** get_package_tree: the cached list for `pkg` when there is one;
      otherwise the list rendered now, stored only when non-empty. An
      unreachable database makes the table set-up or the cache write raise,
      and the helper then returns ''. */
  method GetPackageTree(db: Database, cat: Catalog, link: string, pkg: Package) returns (html: string)
    requires db.Valid()
    modifies db`cache, db`cachedTables, db`reflected
    ensures db.Valid()
    ensures old(db.HtmlTreeOf(pkg.id)) != "" ==>
      html == old(db.HtmlTreeOf(pkg.id)) && db.cache == old(db.cache)
    ensures old(db.HtmlTreeOf(pkg.id)) == "" ==>
      var rendered := RenderTree(ChildLister(cat, db.relationships), link, pkg);
      && html == (if db.online then rendered else "")
      && db.cache == (if db.online && rendered != "" then Upsert(old(db.cache), pkg.id, TreeHtml, rendered) else old(db.cache))
    ensures html != "" ==> db.HtmlTreeOf(pkg.id) == html
  {
    if db.cachedTables == map[] {
      var ok := db.InitTables();
      if !ok {
        return "";
      }
    }
    var cached := db.GetHtmlTree(pkg.id);
    if cached != "" {
      return cached;
    }
    var built := AddChildPackages(cat, db.relationships, pkg, RecursionLimit);
    if built.Raised? {
      return "";
    }
    var tree := built.value;
    html := "";
    if tree.children != [] {
      html := AddChildBullets(html, link, tree);
    }
    if html != "" {
      var written := db.CacheHtmlTree(pkg.id, html);
      if !written {
        return "";
      }
    }
  }

  /** get_top_level_package as written. On a cache miss the walk reads
      `current_parent['id']` where `current_parent` is the list of parents:
      the TypeError is caught and the helper returns `{}` (here `None`)
      without caching anything. */
  method GetTopLevelPackage(db: Database, cat: Catalog, id: string) returns (r: Result<Option<Package>>)
    requires db.Valid() && WellKeyed(cat)
    ensures ParentPackages(cat, db.relationships, id).Raised? ==>
      r == Raised(ParentPackages(cat, db.relationships, id).error)
    ensures ParentPackages(cat, db.relationships, id) == Ok([]) ==> r == Ok(None)
    ensures ParentPackages(cat, db.relationships, id).Ok? && ParentPackages(cat, db.relationships, id).value != [] ==>
      if db.cachedTables == map[] && !db.online then r == Raised(DatabaseError)
      else if db.TopPkgOf(id) == "" then r == Ok(None)
      else if Show(cat, db.TopPkgOf(id)).Ok? then r == Ok(Some(cat.packages[db.TopPkgOf(id)]))
      else r == Ok(None)
    ensures r.Ok? && r.value.Some? && r.value.value.id != "" ==>
      db.TopPkgOf(id) == r.value.value.id && Show(cat, r.value.value.id) == Ok(r.value.value)
  {
    var parents := GetParentPackages(cat, db.relationships, id);
    if parents.Raised? {
      return Raised(parents.error);
    }
    if parents.value == [] {
      return Ok(None);
    }
    if db.cachedTables == map[] {
      var ok := db.InitTables();
      if !ok {
        return Raised(DatabaseError);
      }
    }
    var top := db.GetTopPkg(id);
    if top != "" {
      var shown := Show(cat, top);
      return if shown.Ok? then Ok(Some(shown.value)) else Ok(None);
    }
    // `current_parent['id']` on a list raises TypeError, caught below.
    r := Ok(None);
  }

  /** The walk the helper evidently intends: a package's parent is the first
      package get_parent_packages lists for it. */
  function FirstListedStep(cat: Catalog, rels: seq<Relationship>): Stepper {
    id => match ParentPackages(cat, rels, id)
      case Raised(e) => Fail(e)
      case Ok(ps) => if ps == [] then Top else Up(ps[0])
  }

  /** In a well-keyed catalog, a first listed parent is a package that
      package_show returns for its id. */
  lemma FirstListedStepShown(cat: Catalog, rels: seq<Relationship>)
    requires WellKeyed(cat)
    ensures forall id :: FirstListedStep(cat, rels)(id).Up? ==>
      Show(cat, FirstListedStep(cat, rels)(id).parent.id) == Ok(FirstListedStep(cat, rels)(id).parent)
  {
    forall id | FirstListedStep(cat, rels)(id).Up?
      ensures Show(cat, FirstListedStep(cat, rels)(id).parent.id) == Ok(FirstListedStep(cat, rels)(id).parent)
    {
      var ps := ParentPackages(cat, rels, id).value;
      assert ps[0] in ps;
      var q :| q in ParentIds(rels, id) && q in cat.packages && q in cat.readable && cat.packages[q] == ps[0];
      assert cat.packages[q].id == q;
    }
  }

  /** get_top_level_package with the walk following the first listed
      parent. On a miss it climbs to a package without parents and caches
      its id for `id`; a failing step gives `None` and caches nothing. The
      walk terminates only when the first-parent chain does, which a cycle
      of parent links prevents. */
  method GetTopLevelPackageFirstParent(db: Database, cat: Catalog, id: string) returns (r: Result<Option<Package>>)
    requires db.Valid() && WellKeyed(cat)
    requires FirstListedStep(cat, db.relationships)(id).Up? && db.TopPkgOf(id) == "" ==>
      exists n: nat :: Stops(FirstListedStep(cat, db.relationships), id, n)
    modifies db`cache, db`cachedTables, db`reflected
    ensures db.Valid()
    ensures ParentPackages(cat, db.relationships, id).Raised? ==>
      r == Raised(ParentPackages(cat, db.relationships, id).error) && db.cache == old(db.cache)
    ensures ParentPackages(cat, db.relationships, id) == Ok([]) ==> r == Ok(None) && db.cache == old(db.cache)
    ensures ParentPackages(cat, db.relationships, id).Ok? && ParentPackages(cat, db.relationships, id).value != [] ==>
      if old(db.cachedTables) == map[] && !db.online then r == Raised(DatabaseError) && db.cache == old(db.cache)
      else if old(db.TopPkgOf(id)) != "" then
        db.cache == old(db.cache) &&
        r == (if Show(cat, old(db.TopPkgOf(id))).Ok? then Ok(Some(cat.packages[old(db.TopPkgOf(id))])) else Ok(None))
      else match TopAbove(FirstListedStep(cat, db.relationships), id)
        case Raised(_) => r == Ok(None) && db.cache == old(db.cache)
        case Ok(top) =>
          if db.online then r == Ok(Some(top)) && db.cache == Upsert(old(db.cache), id, TopPkgId, top.id)
          else r == Ok(None) && db.cache == old(db.cache)
    ensures r.Ok? && r.value.Some? && r.value.value.id != "" ==>
      db.TopPkgOf(id) == r.value.value.id && Show(cat, r.value.value.id) == Ok(r.value.value)
  {
    var rels := db.relationships;
    ghost var step := FirstListedStep(cat, rels);
    FirstListedStepShown(cat, rels);
    var parents := GetParentPackages(cat, rels, id);
    if parents.Raised? {
      return Raised(parents.error);
    }
    if parents.value == [] {
      return Ok(None);
    }
    if db.cachedTables == map[] {
      var ok := db.InitTables();
      if !ok {
        return Raised(DatabaseError);
      }
    }
    var top := db.GetTopPkg(id);
    if top != "" {
      var shown := Show(cat, top);
      return if shown.Ok? then Ok(Some(shown.value)) else Ok(None);
    }
    assert step(id) == Up(parents.value[0]);
    ghost var n: nat :| Stops(step, id, n);
    TopAboveAt(step, id, n);
    var walked := ClimbFirstParents(cat, rels, parents.value[0], n - 1);
    ClimbShown(cat, step, parents.value[0], n - 1);
    if walked.Raised? {
      return Ok(None);
    }
    var ok := db.CacheTopPkg(id, walked.value.id);
    if !ok {
      return Ok(None);
    }
    r := Ok(Some(walked.value));
  }

  /** The `while True` loop of the corrected walk: from `start`, move to the
      first listed parent until a package has none. */
  method ClimbFirstParents(cat: Catalog, rels: seq<Relationship>, start: Package, ghost n: nat) returns (r: Result<Package>)
    requires Stops(FirstListedStep(cat, rels), start.id, n)
    ensures r == Climb(FirstListedStep(cat, rels), start, n)
  {
    ghost var step := FirstListedStep(cat, rels);
    var current := start;
    ghost var k := n;
    while true
      invariant Stops(step, current.id, k)
      invariant Climb(step, current, k) == Climb(step, start, n)
      decreases k
    {
      var above := GetParentPackages(cat, rels, current.id);
      if above.Raised? {
        return Raised(above.error);
      }
      if above.value == [] {
        return Ok(current);
      }
      StopsUp(step, current.id, k);
      current := above.value[0];
      k := k - 1;
    }
  }

  /** Where the corrected walk ends, it ends at a package without listed
      parents that is an ancestor of `id`. */
  lemma FirstParentTopIsAncestor(cat: Catalog, rels: seq<Relationship>, id: string)
    requires FirstListedStep(cat, rels)(id).Up?
    requires exists n: nat :: Stops(FirstListedStep(cat, rels), id, n)
    requires TopAbove(FirstListedStep(cat, rels), id).Ok?
    ensures ParentPackages(cat, rels, TopAbove(FirstListedStep(cat, rels), id).value.id) == Ok([])
    ensures IsAncestor(FirstListedStep(cat, rels), id, TopAbove(FirstListedStep(cat, rels), id).value)
  {
    TopAboveIsAncestor(FirstListedStep(cat, rels), id);
  }

  /** Package b is a child of a. The current helper, on a cache miss for
      b, lists a as b's parent and then returns `None`; the walk it intends
      ends at a, which has no parents. */
  lemma CurrentWalkMissesTop()
    ensures var a := Package("a", "a", "A", 1);
      var cat := Catalog(map["a" := a, "b" := Package("b", "b", "B", 1)], {"a", "b"});
      var rels := [Relationship("b", "a", ChildOf, Active)];
      && ParentPackages(cat, rels, "b") == Ok([a])
      && Stops(FirstListedStep(cat, rels), "b", 2)
      && TopAbove(FirstListedStep(cat, rels), "b") == Ok(a)
  {
    var a := Package("a", "a", "A", 1);
    var cat := Catalog(map["a" := a, "b" := Package("b", "b", "B", 1)], {"a", "b"});
    var rels := [Relationship("b", "a", ChildOf, Active)];
    var step := FirstListedStep(cat, rels);
    assert ParentIds(rels, "b") == ["a"];
    assert ["a"][..0] == [];
    assert Visible(cat, [], true) == Ok([]);
    assert [] + [a] == [a];
    assert Visible(cat, ["a"], true) == Ok([a]);
    assert ParentIds(rels, "a") == [];
    assert step("a") == Top;
    assert step("b") == Up(a);
    assert Stops(step, "a", 1);
    TopAboveAt(step, "b", 2);
  }

  /** The plugin object: `package_link`, the prefix of every tree link. */
  class Plugin {
    var packageLink: string

    constructor ()
      ensures packageLink == "/dataset/"
    {
      packageLink := "/dataset/";
    }

    /** configure: with `ckan.site_url` set, links become absolute. */
    method Configure(siteUrl: Option<string>)
      modifies this
      ensures packageLink == if siteUrl.Some? then siteUrl.value + "/dataset/" else old(packageLink)
    {
      if siteUrl.Some? {
        packageLink := siteUrl.value + "/dataset/";
      }
    }
  }
}
