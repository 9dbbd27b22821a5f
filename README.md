# ckanext-ord-hierarchy, modelled in Dafny

ckanext-ord-hierarchy is a CKAN extension that arranges datasets (packages)
into a parent/child hierarchy. A parent link is a `child_of` package
relationship. Its template helpers do three things:

- list a package's children and parents;
- find the top of the hierarchy a package belongs to;
- render the tree below a package as nested
  `<ul class='package-hierarchy'>` lists.

The top package and the rendered tree are memoised per package id in the
`hierarchy_cache` table. The model covers the current plugin
(`ckanext/ord_hierarchy/plugin.py`), the database helpers it uses
(`ckanext/ord_hierarchy/dbutil.py`) and the earlier version of the plugin
(`ckanext/ord-hierarchy/plugins.py`).

Modules:

- `Host` (host.dfy): the parts of CKAN the helpers call, as values.
  - The catalog maps package ids to packages and holds the set of ids the
    current user may read. These stand in for `package_show` and
    `check_access`.
  - The `package_relationship` rows are a sequence, read by
    `package_relationships_list`.
  - Exceptions are a `Result` with an `Error`.
- `Titles` (titles.dfy): Python's string order, used as the sort key, and
  the label `re.sub(r'.*/', '', title)`. The label is modelled line by
  line, because `.` does not match a newline.
- `Tree` (tree.dfy):
  - the stable insertion sort by title;
  - `_add_child_packages` as a function `ChildTree` over a children lookup.
    Python's recursion limit is a budget of nested calls, so a cycle of
    child links ends in `RecursionError`, as it does in the source.
- `Render` (render.dfy): `_add_child_bullets` as a method that grows the
  HTML string, proved equal to the text of a token stream. It also holds the
  properties of that stream: one balanced block, title order, and a nested
  list after every entry. `RenderTree` is the build-then-render step of
  `get_package_tree`.
- `Ancestry` (ancestry.dfy): the upward walk of `get_top_level_package`,
  generic in how one step up is taken.
- `CacheDb` (cache_db.dfy): `dbutil.py`. The class `Database` has the cache
  table (a map from id to a row with two nullable columns), the relationship
  rows, the `cached_tables` memo and a flag `online` for a database that
  does not answer.
- `Hierarchy` (hierarchy.dfy): `plugin.py`, including the as-written and the
  corrected top-package walk (see Findings).
- `LegacyHierarchy` (legacy_hierarchy.dfy): `plugins.py`, including the as-written walk to the top and one guarded against cycles (see Findings).

Children are sorted by their full title, so a child titled "C" comes
before one titled "x/B". Every `<li>` line is followed by the child's own
list, which is `"<ul class='package-hierarchy'>\n</ul>\n"` for a leaf.
`Render.TwoChildExample` shows both. The legacy
`_add_child_bullets` (`ckanext/ord-hierarchy/plugins.py`, lines 127-139) is
the same code as the current one, so `Render.AddChildBullets` models both.

## Model

| member | source | states |
|---|---|---|
| Host.ParentIds | ckanext/ord_hierarchy/plugin.py:66-67 | the parents listed for `id` are exactly the objects of the active child_of rows whose subject is `id` |
| Host.ChildIds | ckanext/ord_hierarchy/plugin.py:37-38 | the children listed for `id` (the parent_of view) are exactly the subjects of the active child_of rows whose object is `id` |
| Host.RelationshipsList | ckanext/ord_hierarchy/plugin.py:36-41 | the relationship listing raises exactly for an unknown or unreadable package; otherwise it lists the parents or the children |
| Host.Show | ckanext/ord_hierarchy/plugin.py:48-50 | showing a package succeeds exactly when its id is known and readable, and then returns that package |
| Titles.Le | ckanext/ord_hierarchy/plugin.py:172 | definition: Python's `<=` on titles, code point by code point with a prefix first; `LeTotal`, `LeReflexive`, `LeTransitive` and `LeAntisymmetric` make it a total order |
| Titles.LeTotal | ckanext/ord_hierarchy/plugin.py:172 | any two titles are comparable under Python's string order |
| Titles.LeReflexive | ckanext/ord_hierarchy/plugin.py:172 | every title is ordered with itself |
| Titles.LeTransitive | ckanext/ord_hierarchy/plugin.py:172 | the title order is transitive |
| Titles.LeAntisymmetric | ckanext/ord_hierarchy/plugin.py:172 | two titles ordered both ways are equal |
| Titles.Label | ckanext/ord_hierarchy/plugin.py:175 | a label contains no '/' and is no longer than its title |
| Titles.DropLineIsEmpty | ckanext/ord_hierarchy/plugin.py:175 | on a single line, all text before the last '/' is removed |
| Titles.LabelOfLine | ckanext/ord_hierarchy/plugin.py:175 | for a title without newlines, the label is the suffix after the last '/'; a '/' precedes it unless it is the whole title |
| Titles.LabelOfPlainTitle | ckanext/ord_hierarchy/plugin.py:175 | a title without '/' or newline is its own label |
| Titles.LabelExample | ckanext/ord_hierarchy/plugin.py:175 | "a/b/c" is labelled "c" |
| Tree.Insert | ckanext/ord_hierarchy/plugin.py:172 | inserting a tree adds exactly that tree to the multiset of trees |
| Tree.InsertMembers | ckanext/ord_hierarchy/plugin.py:172 | after an insertion, the members are the inserted tree and the old members |
| Tree.SortByTitle | ckanext/ord_hierarchy/plugin.py:172 | the sorted children are a permutation of the children |
| Tree.SortByTitleMembers | ckanext/ord_hierarchy/plugin.py:172 | the sorted children have the same length and the same members as the children |
| Tree.InsertSorted | ckanext/ord_hierarchy/plugin.py:172 | inserting into a title-ordered sequence keeps it title-ordered |
| Tree.SortByTitleSorted | ckanext/ord_hierarchy/plugin.py:172 | the sorted children are in non-decreasing title order |
| Tree.InsertWithTitle | ckanext/ord_hierarchy/plugin.py:172 | an insertion keeps the relative order of the trees with any given title |
| Tree.SortByTitleStable | ckanext/ord_hierarchy/plugin.py:172 | children with equal titles keep their input order, because the sort is stable |
| Tree.ChildTree | ckanext/ord_hierarchy/plugin.py:161-167 | definition: the tree `_add_child_packages(pkg)` builds from a children lookup with a budget of stack frames, or the first error raised; its properties are `ChildTreeIsBuilt`, `ChildTreeHeight` and `ChildTreeBudgetMonotone` |
| Tree.Forest | ckanext/ord_hierarchy/plugin.py:164-165 | definition: the subtrees the `for child in pkg['children']` loop builds, in order, or the first child's error; its properties are `ForestPackages`, `ForestIsBuilt`, `ForestHeight`, `ForestRaisesFromPrefix` and `ForestBudgetMonotone` |
| Tree.ForestPackages | ckanext/ord_hierarchy/plugin.py:163-165 | the subtrees attached to a package are built from exactly the listed children, in order |
| Tree.ChildTreeIsBuilt | ckanext/ord_hierarchy/plugin.py:161-167 | a finished build is rooted at the given package, and every node's children are exactly what the lookup lists for that node |
| Tree.ForestIsBuilt | ckanext/ord_hierarchy/plugin.py:164-165 | every subtree built by the children loop satisfies the same property |
| Tree.ChildTreeHeight | ckanext/ord_hierarchy/plugin.py:161-167 | a finished build is no deeper than the recursion budget |
| Tree.ForestHeight | ckanext/ord_hierarchy/plugin.py:164-165 | every subtree built by the children loop is no deeper than the budget |
| Tree.HeightAllBound | ckanext/ord_hierarchy/plugin.py:164-165 | proof step: the deepest of several subtrees is bounded when each one is |
| Tree.ChildTreeBudgetMonotone | ckanext/ord_hierarchy/plugin.py:161-167 | with more stack, a build that finished gives the same tree |
| Tree.ForestBudgetMonotone | ckanext/ord_hierarchy/plugin.py:164-165 | with more stack, a children loop that finished gives the same subtrees |
| Tree.ForestStep | ckanext/ord_hierarchy/plugin.py:164-165 | proof step: unfolds `Forest` by one pass of the children loop |
| Tree.ForestRaisesFromPrefix | ckanext/ord_hierarchy/plugin.py:164-165 | once a child's build raises, the whole loop raises the same error |
| Tree.ForestExtend | ckanext/ord_hierarchy/plugin.py:164-165 | a loop pass whose child builds adds exactly that subtree |
| Tree.ForestAbort | ckanext/ord_hierarchy/plugin.py:164-165 | a loop pass whose child raises makes the whole loop raise that error |
| Tree.ChildTreeCases | ckanext/ord_hierarchy/plugin.py:161-167 | proof step: unfolds `ChildTree` with budget left into its three outcomes |
| Render.EntryFor | ckanext/ord_hierarchy/plugin.py:175-176 | definition: the `<li>` line of a child, linking `package_link + name` with the label of its title; `Titles.LabelOfLine` and `Render.TwoChildExample` state what it shows |
| Render.Tokens | ckanext/ord_hierarchy/plugin.py:169-181 | definition: the token list of one `_add_child_bullets` call: open tag, the entries of the title-sorted children, close tag; `AddChildBullets`, `TokensBlock`, `TokensNested` and `TokensNestedWithin` state its properties |
| Render.Entries | ckanext/ord_hierarchy/plugin.py:172-179 | definition: the tokens of the loop body for each sorted child, its `<li>` line followed by its own list; `EntriesStepText`, `EntriesBalanced` and `EntriesNestedWithin` state its properties |
| Render.FlattenConcat | ckanext/ord_hierarchy/plugin.py:169-181 | the text of concatenated token lists is the concatenation of their texts |
| Render.AddChildBullets | ckanext/ord_hierarchy/plugin.py:169-181 | `_add_child_bullets(html, pkg)` returns `html` followed by exactly the text of the tree's token list |
| Render.EntriesStepText | ckanext/ord_hierarchy/plugin.py:172-178 | one loop pass appends the child's `<li>` line and then the child's own list |
| Render.BulletStep | ckanext/ord_hierarchy/plugin.py:176-178 | after one loop pass, the accumulated HTML is the text of the lists emitted so far |
| Render.DepthConcat | ckanext/ord_hierarchy/plugin.py:171-180 | the open-list depth of concatenated token lists is the sum of their depths |
| Render.BalancedConcat | ckanext/ord_hierarchy/plugin.py:171-180 | concatenating two balanced token lists gives a balanced list |
| Render.Wrap | ckanext/ord_hierarchy/plugin.py:171-180 | wrapping a balanced list in open and close tags gives a single block |
| Render.EntryBalanced | ckanext/ord_hierarchy/plugin.py:176 | proof step: an `<li>` line opens and closes nothing |
| Render.TokensBlock | ckanext/ord_hierarchy/plugin.py:169-181 | the output is one block: it opens a list first, closes it last, is balanced, and never closes more lists than it has opened |
| Render.EntriesBalanced | ckanext/ord_hierarchy/plugin.py:172-179 | the entries of a list are balanced |
| Render.NestedConcat | ckanext/ord_hierarchy/plugin.py:177-178 | "every entry is followed by a list" survives concatenation when the join point respects it |
| Render.TokensNested | ckanext/ord_hierarchy/plugin.py:177-178 | every `<li>` line is followed directly by the opening of the child's own list |
| Render.TokensNestedWithin | ckanext/ord_hierarchy/plugin.py:177-178 | a list starts with its open tag, ends with its close tag, and every entry inside it is followed by a nested list |
| Render.EntriesNestedWithin | ckanext/ord_hierarchy/plugin.py:177-178 | the same holds for the entries of a list, which end with a close tag when non-empty |
| Render.LeafList | ckanext/ord_hierarchy/plugin.py:177-178 | a leaf renders as `"<ul class='package-hierarchy'>\n</ul>\n"` |
| Render.TokensText | ckanext/ord_hierarchy/plugin.py:171 | the rendering of any tree starts with the list tag, so it is never empty |
| Render.RenderTree | ckanext/ord_hierarchy/plugin.py:141-151 | definition: the HTML of a cache miss: '' when the build raises or finds no children, otherwise the rendered list; `RenderTreeEmpty` and `Hierarchy.GetPackageTree` state its properties |
| Render.RenderTreeEmpty | ckanext/ord_hierarchy/plugin.py:141-151 | the rendered tree is '' exactly when the build raised or the package has no children; otherwise it starts with the list tag |
| Render.TwoChildExample | ckanext/ord_hierarchy/plugin.py:169-181 | children titled "x/B" and "C" render as C then B, each followed by an empty nested list |
| Ancestry.Climb | ckanext/ord-hierarchy/plugins.py:68-73 | definition: where the upward walk from a package ends, or the error of its first failing step; `ClimbReachesTop`, `ClimbAnyBound` and `ClimbShown` state its properties |
| Ancestry.ClimbReachesTop | ckanext/ord-hierarchy/plugins.py:68-73 | a walk that finishes ends at a package without a parent, which is the start or one of its ancestors |
| Ancestry.ClimbAnyBound | ckanext/ord-hierarchy/plugins.py:68-73 | the end of the walk does not depend on the bound it was proved to stop within |
| Ancestry.StopsUp | ckanext/ord-hierarchy/plugins.py:68-73 | proof step: unfolds `Stops` by one step up |
| Ancestry.TopAboveAt | ckanext/ord-hierarchy/plugins.py:68-73 | any stopping bound gives the same top above `id` |
| Ancestry.TopAboveIsAncestor | ckanext/ord-hierarchy/plugins.py:68-77 | the top found above `id` has no parent and is an ancestor of `id` |
| Ancestry.ClimbShown | ckanext/ord-hierarchy/plugins.py:68-77 | when every step up lands on a package that `package_show` returns for its id, the end of the walk is such a package too |
| Ancestry.StopsAlong | ckanext/ord-hierarchy/plugins.py:68-73 | proof step: a walk that stops from the head of a linked path passes each of its packages with steps to spare |
| Ancestry.StopsBack | ckanext/ord-hierarchy/plugins.py:68-73 | proof step: a walk that stops from the end of a linked path stops from each package before it |
| Ancestry.CycleNeverStops | ckanext/ord-hierarchy/plugins.py:68-73 | a walk whose steps up return to its start never stops |
| Ancestry.LinkedSnoc | ckanext/ord-hierarchy/plugins.py:68-73 | proof step: a linked path grows by the step up from its last package |
| Ancestry.PathCycleNeverStops | ckanext/ord-hierarchy/plugins.py:68-73 | when the last step of a linked path returns to one of its packages, no walk from its head stops |
| Ancestry.ClimbAlong | ckanext/ord-hierarchy/plugins.py:68-73 | a finishing walk from the head of a linked path passes each of its packages and ends where the walk from that package ends |
| Ancestry.WalkEnds | ckanext/ord-hierarchy/plugins.py:68-73 | a linked path that reaches a package without a parent, or a failing step, stops from its head, and every finishing walk from the head ends that way |
| CacheDb.WithCell | ckanext/ord_hierarchy/dbutil.py:85-87 | setting one column of a row leaves the other column unchanged |
| CacheDb.Read | ckanext/ord_hierarchy/dbutil.py:45 | a non-empty read is the stored value; a missing row, a NULL and an empty value all read as '' |
| CacheDb.Upsert | ckanext/ord_hierarchy/dbutil.py:75-91 | the write adds the id, sets the column, keeps the other column of an existing row or leaves it NULL in a new row, and changes no other row |
| CacheDb.ReadAfterUpsert | ckanext/ord_hierarchy/dbutil.py:66-91 | after a non-empty value is written, reading it back returns it |
| CacheDb.UpsertFrame | ckanext/ord_hierarchy/dbutil.py:84-87 | a write leaves the other column and every other row reading as before |
| CacheDb.UpsertIdempotent | ckanext/ord_hierarchy/dbutil.py:79-91 | writing the same value twice is the same as writing it once |
| CacheDb.ReadAfterFlush | ckanext/ord_hierarchy/dbutil.py:23-26 | proof step: every read of the empty table is a miss |
| CacheDb.MarkDeleted | ckanext/ord_hierarchy/dbutil.py:100-104 | the soft delete keeps every row; rows with the given subject and object get state deleted, and other rows are unchanged |
| CacheDb.DeletedLinkIsGone | ckanext/ord_hierarchy/dbutil.py:100-104 | after the delete, the child is no longer listed under the parent, nor the parent above the child |
| CacheDb.DeleteKeepsOtherLinks | ckanext/ord_hierarchy/dbutil.py:100-104 | the delete leaves the listings of every other package unchanged |
| CacheDb.Database.constructor | ckanext/ord_hierarchy/dbutil.py:12 | the reflected-table memo starts empty |
| CacheDb.Database.TopPkgOf | ckanext/ord_hierarchy/dbutil.py:38-49 | definition: what get_top_pkg returns for an id: the stored top id, or '' on a miss, a NULL or an unreachable database; `GetTopPkg` and `CacheTopPkg` state its properties |
| CacheDb.Database.HtmlTreeOf | ckanext/ord_hierarchy/dbutil.py:52-63 | definition: what get_html_tree returns for an id, in the same way; `GetHtmlTree` and `CacheHtmlTree` state its properties |
| CacheDb.Database.GetTopPkg | ckanext/ord_hierarchy/dbutil.py:38-49 | returns the cached top id, or '' on a miss or an unreachable database |
| CacheDb.Database.GetHtmlTree | ckanext/ord_hierarchy/dbutil.py:52-63 | returns the cached tree HTML, or '' on a miss or an unreachable database |
| CacheDb.Database.GetTable | ckanext/ord_hierarchy/dbutil.py:29-35 | a name is reflected at most once and then answered from the memo; reflection errors (no database, unknown table) raise and leave the memo unchanged |
| CacheDb.Database.UpdateCache | ckanext/ord_hierarchy/dbutil.py:75-94 | succeeds exactly when the database answers, and then the cache is the upsert of the old cache; the table is memoised |
| CacheDb.Database.CacheTopPkg | ckanext/ord_hierarchy/dbutil.py:66-67 | after a successful write of a non-empty id, get_top_pkg returns it |
| CacheDb.Database.CacheHtmlTree | ckanext/ord_hierarchy/dbutil.py:70-71 | after a successful write of non-empty HTML, get_html_tree returns it |
| CacheDb.Database.InitTables | ckanext/ord_hierarchy/dbutil.py:14-21 | stand-in: `create_all` is taken to change nothing, so only its failure on an unreachable database is stated |
| CacheDb.Database.FlushCache | ckanext/ord_hierarchy/dbutil.py:23-26 | on success the table is empty and every read is a miss |
| CacheDb.Database.DeleteRelationship | ckanext/ord_hierarchy/dbutil.py:96-108 | on success the relationship rows are marked deleted as `MarkDeleted` states; the cache is not touched |
| Hierarchy.Visible | ckanext/ord_hierarchy/plugin.py:43-58 | the loop raises exactly when a listed id is unknown. Otherwise the result holds exactly the readable listed packages, without resource-less ones unless empty packages are included |
| Hierarchy.VisibleRaisesFromPrefix | ckanext/ord_hierarchy/plugin.py:45-56 | once an unknown id has raised, the whole loop has raised |
| Hierarchy.ShowListed | ckanext/ord_hierarchy/plugin.py:45-58 | the appending loop computes `Visible` |
| Hierarchy.ChildPackages | ckanext/ord_hierarchy/plugin.py:28-58 | empty for an unknown or unreadable package; raises exactly when a listed child is unknown; otherwise holds exactly the readable children, filtered by resources when asked |
| Hierarchy.ParentPackages | ckanext/ord_hierarchy/plugin.py:61-82 | empty for an unknown or unreadable package; raises exactly when a listed parent is unknown; otherwise holds exactly the readable parents |
| Hierarchy.GetChildPackages | ckanext/ord_hierarchy/plugin.py:28-58 | get_child_packages computes `ChildPackages` |
| Hierarchy.GetParentPackages | ckanext/ord_hierarchy/plugin.py:61-82 | get_parent_packages computes `ParentPackages` |
| Hierarchy.ChildLister | ckanext/ord_hierarchy/plugin.py:163 | definition: the children lookup of `_add_child_packages` is get_child_packages with `include_empty_packages`; `Hierarchy.AddChildPackages` builds `ChildTree` over it |
| Hierarchy.AddChildPackages | ckanext/ord_hierarchy/plugin.py:161-167 | `_add_child_packages` builds `ChildTree` over get_child_packages, so the `Tree` lemmas apply to it |
| Hierarchy.AddChildTrees | ckanext/ord_hierarchy/plugin.py:164-165 | the children loop builds the subtrees `Forest` describes, or raises the first child's error |
| Hierarchy.GetPackageTree | ckanext/ord_hierarchy/plugin.py:127-158 | a cache hit is returned with the cache unchanged. A miss returns the rendered tree, or '' when the database does not answer. The cache is written only with non-empty HTML, after which a read returns it |
| Hierarchy.GetTopLevelPackage | ckanext/ord_hierarchy/plugin.py:85-123 | as written: the parents lookup's error escapes; no parents gives None; set-up on an unreachable database raises; a hit gives the cached package (None if it cannot be shown), which is the package cached for `id` and shown by its own id; a miss gives None |
| Hierarchy.FirstListedStep | ckanext/ord_hierarchy/plugin.py:107-112 | definition: one step of the corrected walk goes to the first package get_parent_packages lists, stops at none, and fails with its error; `FirstListedStepShown` and `FirstParentTopIsAncestor` state its properties |
| Hierarchy.FirstListedStepShown | ckanext/ord_hierarchy/plugin.py:76-79 | in a well-keyed catalog, each first listed parent is the package `package_show` returns for its id |
| Hierarchy.ClimbFirstParents | ckanext/ord_hierarchy/plugin.py:107-113 | the corrected loop computes `Climb` over first listed parents |
| Hierarchy.GetTopLevelPackageFirstParent | ckanext/ord_hierarchy/plugin.py:85-123 | corrected: on a miss it returns the top above `id` and caches its id for `id` alone. A failing step or an unreachable database gives None and leaves the cache unchanged; the other cases are as written. A returned top is the one cached for `id`, and `package_show` of its id returns it |
| Hierarchy.FirstParentTopIsAncestor | ckanext/ord_hierarchy/plugin.py:107-116 | the corrected walk ends at an ancestor of `id` that has no listed parents |
| Hierarchy.CurrentWalkMissesTop | ckanext/ord_hierarchy/plugin.py:107-120 | with b a child of a, b's parents are [a] and the intended walk ends at a, but the as-written helper returns None on a miss |
| Hierarchy.Plugin.constructor | ckanext/ord_hierarchy/plugin.py:193 | links start with the prefix '/dataset/' |
| Hierarchy.Plugin.Configure | ckanext/ord_hierarchy/plugin.py:195-200 | a configured site URL makes the prefix `site_url + '/dataset/'`; otherwise it is unchanged |
| LegacyHierarchy.Indexed | ckanext/ord-hierarchy/plugins.py:28 | the indexed results are exactly the existing, readable packages among the ids, with no error |
| LegacyHierarchy.SearchChildren | ckanext/ord-hierarchy/plugins.py:23-28 | at most 1000 results, each an existing readable child; with at most 1000 children, every such child is found |
| LegacyHierarchy.FirstParent | ckanext/ord-hierarchy/plugins.py:31-47 | None exactly when the lookup raises or lists no parent; otherwise the package of the first child_of row, or that package's show error |
| LegacyHierarchy.SearchLister | ckanext/ord-hierarchy/plugins.py:121 | definition: the children lookup of the legacy `_add_child_packages` is the search, which never raises; `LegacyHierarchy.AddChildPackages` builds `ChildTree` over it |
| LegacyHierarchy.LegacyStep | ckanext/ord-hierarchy/plugins.py:69-71 | definition: one step of the legacy walk goes to the first parent, stops at `{}`, and fails with package_show's error; `LegacyStepShown` and `LegacyTopIsAncestor` state its properties |
| LegacyHierarchy.LegacyStepShown | ckanext/ord-hierarchy/plugins.py:43-45 | in a well-keyed catalog, each first parent is the package `package_show` returns for its id |
| LegacyHierarchy.AddChildPackages | ckanext/ord-hierarchy/plugins.py:119-125 | `_add_child_packages` builds `ChildTree` over the search results |
| LegacyHierarchy.AddChildTrees | ckanext/ord-hierarchy/plugins.py:122-123 | the children loop builds the subtrees `Forest` describes over the search results |
| LegacyHierarchy.GetPackageTree | ckanext/ord-hierarchy/plugins.py:88-116 | same hit, miss and write-if-non-empty rules as the current version, over the search results |
| LegacyHierarchy.GetTopLevelPackage | ckanext/ord-hierarchy/plugins.py:49-84 | a first parent's error escapes; no parent gives None; a hit gives the cached package without walking. A miss returns the top above `id` and caches it for `id` alone, or gives None with the cache unchanged. A returned top is the one cached for `id`, and `package_show` of its id returns it, so the next call finds it without walking |
| LegacyHierarchy.ClimbParents | ckanext/ord-hierarchy/plugins.py:68-73 | the `while True` loop computes `Climb` over first parents |
| LegacyHierarchy.LegacyTopIsAncestor | ckanext/ord-hierarchy/plugins.py:68-77 | the walk ends at an ancestor of `id` that has no first parent |
| LegacyHierarchy.FirstParentCycleNeverStops | ckanext/ord-hierarchy/plugins.py:68-73 | with packages a and b each the first parent of the other, the walk up from a never stops, so the `while True` loop never ends |
| LegacyHierarchy.ClimbParentsGuarded | ckanext/ord-hierarchy/plugins.py:68-73 | corrected walk: it ends on every catalog; it gives None exactly when the unguarded walk never stops, and otherwise what that walk gives |
| LegacyHierarchy.GuardedWalkIsTop | ckanext/ord-hierarchy/plugins.py:68-77 | the guarded walk from the first parent gives the top above `id` exactly when the walk from `id` stops, and the top it gives is shown by its own id |
| LegacyHierarchy.GetTopLevelPackageGuarded | ckanext/ord-hierarchy/plugins.py:49-84 | corrected helper: as GetTopLevelPackage where the first-parent chain ends; on a cycle it gives None and caches nothing; a returned top is cached for `id` and shown by its own id |

## Left out

- `title_ordered_groups` in both plugins: it passes `group_list` through and has no logic of its own.
- The Flask blueprint, `OrdHierarchyController`, `before_map`/`after_map`, `update_config`, `get_helpers`, `p.implements` and `add_resource`: these only register the plugin with CKAN and Flask.
- The legacy `configure` refers to an undefined name (`ORD_hierarchy`), so it raises NameError whenever a site URL is set. It is not modelled; the legacy renderer takes the link prefix as a parameter.
- The legacy `get_child_packages` queries the Solr index. It is modelled as the existing, readable children in table order. Search failures, a stale index and Solr's own ordering are not modelled.
- The legacy plugin imports a `dbutil` module that is not part of this model. Its cache helpers are taken to be those of `ckanext/ord_hierarchy/dbutil.py`.
- SQLAlchemy sessions and connections, `model.Session.commit()` in the `finally` blocks, and logging are not modelled.
- `online` covers only the queries of the `dbutil.py` helpers. CKAN's own actions (`package_relationships_list`, `package_show`, `check_access`) are taken to answer whatever `online` is.
- A full database outage, in which CKAN's own actions fail as well, is not modelled. There the source's relationship lookups raise, are caught, and the helpers return `{}` before any cache query.
- CacheDb.Database.UpdateCache: errors inside its `try` are swallowed by the source and are not modelled; with the database answering, the write succeeds.
- CacheDb.Database.InitTables: the table is taken to exist already, so the DDL of `init_tables` changes nothing; only its failure on an unreachable database is modelled.
- `check_access` is reduced to a set of readable ids.
- The top-package helpers require the catalog to be well keyed (`Host.WellKeyed`): the package stored under an id has that id, as `package_show` returns the package whose id it was given.
- `_add_child_packages` writes `children` into the caller's dict in place. The model returns the tree as a value, so that side effect on the caller's dict is not captured.
- Tree.ChildTree: Python's recursion limit is a budget of 1000 nested `_add_child_packages` calls. The real limit also counts the caller's frames. A RecursionError inside `_add_child_bullets`, on a tree nearly that deep, is not modelled.
- The current helpers return `{}` where the relationship query fails and `[]` otherwise; both are the empty sequence here.
- Titles are not HTML-escaped by the source. Balance is therefore stated on the token stream rather than on the raw string.
- LegacyHierarchy.GetTopLevelPackage: requires the first-parent chain from `id` to end on a cache miss, because a cycle of first parents makes the source loop forever (see Findings). `LegacyHierarchy.GetTopLevelPackageGuarded` has no such requirement.
- Hierarchy.GetTopLevelPackageFirstParent: requires the same of its first-listed-parent chain, for the same reason.
- Concurrent requests and the staleness of cached trees after relationships change are not modelled. `DeleteRelationship` leaves the cache as it was, as the source does.

## Findings

| source | as written | input that shows it | evidently intended | confidence | as-written member | corrected member |
|---|---|---|---|---|---|---|
| ckanext/ord_hierarchy/plugin.py:107-116 | `current_parent` holds the list get_parent_packages returns, so `current_parent['id']` raises TypeError. It is caught, and the helper returns `{}` and caches nothing | package b with one child_of link to a, both readable, no cached top for b | climb to a, the package without parents, cache b -> a, and return a | not executed | Hierarchy.GetTopLevelPackage, with Hierarchy.CurrentWalkMissesTop | Hierarchy.GetTopLevelPackageFirstParent |
| ckanext/ord-hierarchy/plugins.py:68-73 | the `while True` loop follows first parents until a package has none; with a cycle of first parents there is none, and the loop never ends | packages a and b, each with a child_of link to the other, both readable, no cached top for a | end the walk on every catalog: give `{}` when a first parent repeats a package already visited | not executed | LegacyHierarchy.GetTopLevelPackage, with LegacyHierarchy.FirstParentCycleNeverStops | LegacyHierarchy.GetTopLevelPackageGuarded |
