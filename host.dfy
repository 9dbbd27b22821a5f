/** The parts of CKAN the hierarchy plugin calls into, as values: the
    packages `package_show` can return, the packages the current user may
    read (`check_access`), and the rows of the `package_relationship` table
    that `package_relationships_list` consults. */
module Host {

  datatype Option<T> = None | Some(value: T)

  /** The exceptions that can reach one of the plugin's `except` clauses. */
  datatype Error =
    | NotFound          // package_show / check_access on an unknown id
    | NotAuthorized     // check_access or package_show refused
    | TypeError         // a list indexed with a string key
    | RecursionError    // Python's recursion limit reached
    | DatabaseError     // the database did not answer
    | KeyError          // a table name that reflection did not find

  /** A call that either returns a value or raises. */
  datatype Result<T> = Ok(value: T) | Raised(error: Error)

  /** A package dict, reduced to the keys the plugin reads. */
  datatype Package = Package(id: string, name: string, title: string, resources: nat)

  /** The packages by id, and the ids the current user may read. */
  datatype Catalog = Catalog(packages: map<string, Package>, readable: set<string>)

  /** Every package is stored under its own id: package_show for an id
      returns the package that has that id. */
  predicate WellKeyed(cat: Catalog) {
    forall k :: k in cat.packages ==> cat.packages[k].id == k
  }

  /** A row of CKAN's package_relationship table. A parent link is stored as
      `subject child_of object`; `parent_of` is the reverse view of that row. */
  datatype Relationship = Relationship(subject: string, obj: string, kind: string, state: string)

  const ChildOf := "child_of"
  const Active := "active"
  const Deleted := "deleted"

  /** The `rel` argument of package_relationships_list. */
  datatype View = ChildOfView | ParentOfView

  /** A live parent link: only active child_of rows are listed. */
  predicate Links(r: Relationship) {
    r.kind == ChildOf && r.state == Active
  }

  /** The parents of `id`, in table order. */
  function ParentIds(rels: seq<Relationship>, id: string): (ps: seq<string>)
    ensures forall p :: p in ps <==>
      exists i :: 0 <= i < |rels| && Links(rels[i]) && rels[i].subject == id && rels[i].obj == p
  {
    if rels == [] then []
    else
      var r := rels[|rels| - 1];
      var before := ParentIds(rels[..|rels| - 1], id);
      assert forall i :: 0 <= i < |rels| - 1 ==> rels[..|rels| - 1][i] == rels[i];
      if Links(r) && r.subject == id then before + [r.obj] else before
  }

  /** The children of `id`, in table order. */
  function ChildIds(rels: seq<Relationship>, id: string): (cs: seq<string>)
    ensures forall c :: c in cs <==>
      exists i :: 0 <= i < |rels| && Links(rels[i]) && rels[i].obj == id && rels[i].subject == c
  {
    if rels == [] then []
    else
      var r := rels[|rels| - 1];
      var before := ChildIds(rels[..|rels| - 1], id);
      assert forall i :: 0 <= i < |rels| - 1 ==> rels[..|rels| - 1][i] == rels[i];
      if Links(r) && r.obj == id then before + [r.subject] else before
  }

  /** package_relationships_list: the ids at the other end of each listed
      relationship (the `object` key of each returned dict). The action
      raises for an unknown or unreadable package. */
  function RelationshipsList(cat: Catalog, rels: seq<Relationship>, id: string, view: View): (r: Result<seq<string>>)
    ensures r.Raised? <==> id !in cat.packages || id !in cat.readable
    ensures r.Ok? && view == ChildOfView ==> r.value == ParentIds(rels, id)
    ensures r.Ok? && view == ParentOfView ==> r.value == ChildIds(rels, id)
  {
    if id !in cat.packages then Raised(NotFound)
    else if id !in cat.readable then Raised(NotAuthorized)
    else Ok(if view == ChildOfView then ParentIds(rels, id) else ChildIds(rels, id))
  }

  /** package_show: the package dict, or NotFound / NotAuthorized. */
  function Show(cat: Catalog, id: string): (r: Result<Package>)
    ensures r.Ok? <==> id in cat.packages && id in cat.readable
    ensures r.Ok? ==> r.value == cat.packages[id]
  {
    if id !in cat.packages then Raised(NotFound)
    else if id !in cat.readable then Raised(NotAuthorized)
    else Ok(cat.packages[id])
  }
}
