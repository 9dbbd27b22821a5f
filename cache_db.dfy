/** dbutil.py: the `hierarchy_cache` table (one row per package id, with two
    nullable columns), the memo of reflected tables, and the soft delete of
    package relationships. The database is an object whose tables are
    fields; `online` says whether the queries of these helpers reach it.
    CKAN's own actions are not routed through it. */
module CacheDb {
  import opened Host

  const CacheTable := "hierarchy_cache"

  /** The two value columns of hierarchy_cache. */
  datatype Column = TopPkgId | TreeHtml

  /** A hierarchy_cache row; `None` is SQL NULL. */
  datatype CacheRow = CacheRow(topPkgId: Option<string>, treeHtml: Option<string>)

  /** What reflection yields for a table: its name and column names. */
  datatype TableMeta = TableMeta(name: string, columns: seq<string>)

  function Other(col: Column): Column {
    if col == TopPkgId then TreeHtml else TopPkgId
  }

  function Cell(row: CacheRow, col: Column): Option<string> {
    if col == TopPkgId then row.topPkgId else row.treeHtml
  }

  function WithCell(row: CacheRow, col: Column, v: Option<string>): (r: CacheRow)
    ensures Cell(r, col) == v
    ensures Cell(r, Other(col)) == Cell(row, Other(col))
  {
    if col == TopPkgId then row.(topPkgId := v) else row.(treeHtml := v)
  }

  /** `row and row[0] or ""`: the column's value, or '' for a missing row,
      a NULL and an empty value alike. */
  function Read(rows: map<string, CacheRow>, id: string, col: Column): (v: string)
    ensures v != "" ==> id in rows && Cell(rows[id], col) == Some(v)
    ensures v == "" ==> id !in rows || Cell(rows[id], col) == None || Cell(rows[id], col) == Some("")
  {
    if id in rows && Cell(rows[id], col).Some? then Cell(rows[id], col).value else ""
  }

  /** `_update_cache(id, col, data)`: set the column of the existing row,
      or add a row holding only that column. */
  function Upsert(rows: map<string, CacheRow>, id: string, col: Column, data: string): (r: map<string, CacheRow>)
    ensures r.Keys == rows.Keys + {id}
    ensures Cell(r[id], col) == Some(data)
    ensures Cell(r[id], Other(col)) == if id in rows then Cell(rows[id], Other(col)) else None
    ensures forall k :: k in rows && k != id ==> r[k] == rows[k]
  {
    var row := if id in rows then rows[id] else CacheRow(None, None);
    rows[id := WithCell(row, col, Some(data))]
  }

  /** Reading back a non-empty value just written returns it. */
  lemma ReadAfterUpsert(rows: map<string, CacheRow>, id: string, col: Column, data: string)
    requires data != ""
    ensures Read(Upsert(rows, id, col, data), id, col) == data
  {
  }

  /** A write leaves the other column of the row, and every other row, as
      they read before. */
  lemma UpsertFrame(rows: map<string, CacheRow>, id: string, col: Column, data: string, k: string, c: Column)
    requires k != id || c != col
    ensures Read(Upsert(rows, id, col, data), k, c) == Read(rows, k, c)
  {
    if k == id {
      assert c == Other(col);
    }
  }

  /** Writing the same value twice is writing it once. */
  lemma UpsertIdempotent(rows: map<string, CacheRow>, id: string, col: Column, data: string)
    ensures Upsert(Upsert(rows, id, col, data), id, col, data) == Upsert(rows, id, col, data)
  {
  }

  /** After flush_cache every read is a miss. */
  lemma ReadAfterFlush(id: string, col: Column)
    ensures Read(map[], id, col) == ""
  {
  }

  predicate Matches(r: Relationship, subject: string, obj: string) {
    r.subject == subject && r.obj == obj
  }

  /** `UPDATE package_relationship SET state = 'deleted' WHERE subject = .. AND
      object = ..`: every matching row, whatever its type, is marked deleted
      in place; no row is removed. */
  function MarkDeleted(rels: seq<Relationship>, subject: string, obj: string): (r: seq<Relationship>)
    ensures |r| == |rels|
    ensures forall i :: 0 <= i < |rels| && Matches(rels[i], subject, obj) ==> r[i] == rels[i].(state := Deleted)
    ensures forall i :: 0 <= i < |rels| && !Matches(rels[i], subject, obj) ==> r[i] == rels[i]
  {
    if rels == [] then []
    else
      var last := rels[|rels| - 1];
      MarkDeleted(rels[..|rels| - 1], subject, obj) + [if Matches(last, subject, obj) then last.(state := Deleted) else last]
  }

  /** Once the link between a child and its parent is deleted, the child
      is no longer listed under the parent, nor the parent above the child. */
  lemma DeletedLinkIsGone(rels: seq<Relationship>, child: string, parent: string)
    ensures child !in ChildIds(MarkDeleted(rels, child, parent), parent)
    ensures parent !in ParentIds(MarkDeleted(rels, child, parent), child)
  {
    var r := MarkDeleted(rels, child, parent);
    forall i | 0 <= i < |r| && r[i].subject == child && r[i].obj == parent
      ensures !Links(r[i])
    {
      assert Matches(rels[i], child, parent);
    }
  }

  /** Deleting one link leaves every other pair's listing as it was. */
  lemma DeleteKeepsOtherLinks(rels: seq<Relationship>, subject: string, obj: string, id: string)
    ensures id != obj ==> ChildIds(MarkDeleted(rels, subject, obj), id) == ChildIds(rels, id)
    ensures id != subject ==> ParentIds(MarkDeleted(rels, subject, obj), id) == ParentIds(rels, id)
    decreases |rels|
  {
    if rels != [] {
      var n := |rels| - 1;
      DeleteKeepsOtherLinks(rels[..n], subject, obj, id);
      assert MarkDeleted(rels, subject, obj)[..n] == MarkDeleted(rels[..n], subject, obj);
    }
  }

  class Database {
    /** hierarchy_cache, keyed by its primary key `id`. */
    var cache: map<string, CacheRow>
    /** package_relationship, in table order. */
    var relationships: seq<Relationship>
    /** The tables the database has, with their columns. */
    const schema: map<string, seq<string>>
    /** Whether the queries of the dbutil helpers reach the database. */
    const online: bool
    /** The module-level `cached_tables` memo of get_table. */
    var cachedTables: map<string, TableMeta>
    /** The names reflected so far, in order. */
    ghost var reflected: seq<string>

    ghost predicate Valid()
      reads this
    {
      && CacheTable in schema
      && (forall n :: n in cachedTables <==> n in reflected)
      && (forall i, j :: 0 <= i < j < |reflected| ==> reflected[i] != reflected[j])
    }

    constructor (schema: map<string, seq<string>>, relationships: seq<Relationship>, online: bool)
      requires CacheTable in schema
      ensures Valid()
      ensures this.schema == schema && this.relationships == relationships && this.online == online
      ensures cache == map[] && cachedTables == map[]
    {
      this.schema := schema;
      this.relationships := relationships;
      this.online := online;
      cache := map[];
      cachedTables := map[];
      reflected := [];
    }

    /** What get_top_pkg returns for `id`. */
    function TopPkgOf(id: string): string
      reads this
    {
      if online then Read(cache, id, TopPkgId) else ""
    }

    /** What get_html_tree returns for `id`. */
    function HtmlTreeOf(id: string): string
      reads this
    {
      if online then Read(cache, id, TreeHtml) else ""
    }

    /** get_top_pkg: the cached top package id, '' on a miss or a query error. */
    method GetTopPkg(id: string) returns (v: string)
      ensures v == TopPkgOf(id)
      ensures v != "" ==> online && id in cache && cache[id].topPkgId == Some(v)
    {
      if !online {
        return "";
      }
      var row := if id in cache then Some(cache[id]) else None;
      v := if row.Some? && row.value.topPkgId.Some? then row.value.topPkgId.value else "";
    }

    /** get_html_tree: the cached list, '' on a miss or a query error. */
    method GetHtmlTree(id: string) returns (v: string)
      ensures v == HtmlTreeOf(id)
      ensures v != "" ==> online && id in cache && cache[id].treeHtml == Some(v)
    {
      if !online {
        return "";
      }
      var row := if id in cache then Some(cache[id]) else None;
      v := if row.Some? && row.value.treeHtml.Some? then row.value.treeHtml.value else "";
    }

    /** get_table: reflect a table the first time its name is asked for, and
        answer from the memo afterwards. A name is reflected at most once. */
    method GetTable(name: string) returns (r: Result<TableMeta>)
      requires Valid()
      modifies this`cachedTables, this`reflected
      ensures Valid()
      ensures name in old(cachedTables) ==>
        r == Ok(old(cachedTables)[name]) && cachedTables == old(cachedTables) && reflected == old(reflected)
      ensures name !in old(cachedTables) && online && name in schema ==>
        && r == Ok(TableMeta(name, schema[name]))
        && cachedTables == old(cachedTables)[name := r.value]
        && reflected == old(reflected) + [name]
      ensures name !in old(cachedTables) && !online ==>
        r == Raised(DatabaseError) && cachedTables == old(cachedTables) && reflected == old(reflected)
      ensures name !in old(cachedTables) && online && name !in schema ==>
        r == Raised(KeyError) && cachedTables == old(cachedTables) && reflected == old(reflected)
    {
      if name !in cachedTables {
        if !online {
          return Raised(DatabaseError);
        }
        if name !in schema {
          return Raised(KeyError);
        }
        var table := TableMeta(name, schema[name]);
        cachedTables := cachedTables[name := table];
        reflected := reflected + [name];
      }
      r := Ok(cachedTables[name]);
    }

    /** `_update_cache`: count the rows with this id, then update that row's
        column or insert a row with only this column. Taking a connection
        is outside the `try`, so an unreachable database raises to the
        caller (`ok` false) and nothing changes. */
    method UpdateCache(id: string, col: Column, data: string) returns (ok: bool)
      requires Valid()
      modifies this`cache, this`cachedTables, this`reflected
      ensures Valid()
      ensures ok == online
      ensures cache == if ok then Upsert(old(cache), id, col, data) else old(cache)
      ensures cachedTables ==
        if online && CacheTable !in old(cachedTables)
        then old(cachedTables)[CacheTable := TableMeta(CacheTable, schema[CacheTable])]
        else old(cachedTables)
    {
      if !online {
        return false;
      }
      var table := GetTable(CacheTable);
      var count := if id in cache then 1 else 0;
      if count > 0 {
        cache := cache[id := WithCell(cache[id], col, Some(data))];
      } else {
        cache := cache[id := WithCell(CacheRow(None, None), col, Some(data))];
      }
      ok := true;
    }

    /** cache_top_pkg */
    method CacheTopPkg(id: string, top: string) returns (ok: bool)
      requires Valid()
      modifies this`cache, this`cachedTables, this`reflected
      ensures Valid()
      ensures ok == online
      ensures cache == if ok then Upsert(old(cache), id, TopPkgId, top) else old(cache)
      ensures CacheTable in old(cachedTables) ==> cachedTables == old(cachedTables)
      ensures online && top != "" ==> TopPkgOf(id) == top
    {
      ok := UpdateCache(id, TopPkgId, top);
    }

    /** cache_html_tree */
    method CacheHtmlTree(id: string, html: string) returns (ok: bool)
      requires Valid()
      modifies this`cache, this`cachedTables, this`reflected
      ensures Valid()
      ensures ok == online
      ensures cache == if ok then Upsert(old(cache), id, TreeHtml, html) else old(cache)
      ensures CacheTable in old(cachedTables) ==> cachedTables == old(cachedTables)
      ensures online && html != "" ==> HtmlTreeOf(id) == html
    {
      ok := UpdateCache(id, TreeHtml, html);
    }

    /** init_tables: `create_all` for hierarchy_cache. The table is in the
        schema already, so nothing changes; an unreachable database makes
        it raise. */
    method InitTables() returns (ok: bool)
      requires Valid()
      ensures ok == online
    {
      ok := online;
    }

    /** flush_cache: `DELETE FROM hierarchy_cache`, outside any `try`. */
    method FlushCache() returns (ok: bool)
      modifies this`cache
      ensures ok == online
      ensures cache == if ok then map[] else old(cache)
      ensures ok ==> forall id :: TopPkgOf(id) == "" && HtmlTreeOf(id) == ""
    {
      if !online {
        return false;
      }
      cache := map[];
      ok := true;
    }

    /** delete_relationship: soft-delete every relationship row between the
        two packages. Taking the connection is outside the `try`. */
    method DeleteRelationship(subject: string, obj: string) returns (ok: bool)
      modifies this`relationships
      ensures ok == online
      ensures relationships == if ok then MarkDeleted(old(relationships), subject, obj) else old(relationships)
    {
      if !online {
        return false;
      }
      relationships := MarkDeleted(relationships, subject, obj);
      ok := true;
    }
  }
}
