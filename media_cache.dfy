/**
 * The metadata cache: the SQLite table `media_metadata`, keyed by the unique
 * `file_path` column, as a map from path to the rest of the row. The value
 * of `CURRENT_TIMESTAMP` is an input of each update.
 */
module Cache {
  import opened Optional

  /** The columns of a row besides `file_path` (the `id` column is not modelled). */
  datatype CacheRecord = CacheRecord(fileType: string, metadata: string, tags: string, lastModified: string)

  type Table = map<string, CacheRecord>

  /** The tuple `SELECT file_type, metadata, tags` fetches. */
  datatype Row = Row(fileType: string, metadata: string, tags: string)

  /**
   * `INSERT ... ON CONFLICT(file_path) DO UPDATE`: a new path gets a fresh
   * row; an existing row takes the new metadata, tags and timestamp but
   * keeps the file type it was first inserted with.
   */
  function Upsert(table: Table, filePath: string, fileType: string, metadata: string, tags: string, now: string): (t: Table)
    ensures t.Keys == table.Keys + {filePath}
    ensures t[filePath].metadata == metadata && t[filePath].tags == tags && t[filePath].lastModified == now
    ensures t[filePath].fileType == if filePath in table then table[filePath].fileType else fileType
    ensures forall p :: p in table && p != filePath ==> t[p] == table[p]
  {
    var inserted := CacheRecord(fileType, metadata, tags, now);
    var kept := if filePath in table then inserted.(fileType := table[filePath].fileType) else inserted;
    table[filePath := kept]
  }

  /** `fetchone()` of the `SELECT` by path: the row's three columns, or `None` when no row has that path. */
  function Lookup(table: Table, filePath: string): (r: Option<Row>)
    ensures r.None? <==> filePath !in table
    ensures r.Some? ==>
              && r.value.fileType == table[filePath].fileType
              && r.value.metadata == table[filePath].metadata
              && r.value.tags == table[filePath].tags
  {
    if filePath in table then
      var record := table[filePath];
      Some(Row(record.fileType, record.metadata, record.tags))
    else None
  }

  /**
   * Reading a path back after updating it gives the metadata and tags just
   * written, with the file type of the first insert of that path.
   */
  lemma LookupAfterUpsert(table: Table, filePath: string, fileType: string, metadata: string, tags: string, now: string)
    ensures Lookup(Upsert(table, filePath, fileType, metadata, tags, now), filePath)
         == Some(Row(if filePath in table then table[filePath].fileType else fileType, metadata, tags))
  {
  }

  /** An update touches only its own path: every other lookup is unchanged. */
  lemma UpsertLeavesOthers(table: Table, filePath: string, fileType: string, metadata: string, tags: string, now: string, other: string)
    requires other != filePath
    ensures Lookup(Upsert(table, filePath, fileType, metadata, tags, now), other) == Lookup(table, other)
  {
  }

  /**
   * The table holds at most one row per path: an update adds a row only for
   * a new path.
   */
  lemma UpsertSize(table: Table, filePath: string, fileType: string, metadata: string, tags: string, now: string)
    ensures |Upsert(table, filePath, fileType, metadata, tags, now)| == |table| + (if filePath in table then 0 else 1)
  {
    var t := Upsert(table, filePath, fileType, metadata, tags, now);
    if filePath in table {
      assert t.Keys == table.Keys;
    } else {
      assert t.Keys == table.Keys + {filePath};
      assert |t.Keys| == |table.Keys| + 1;
    }
  }

  /**
   * Repeating an update with the same metadata, tags and time changes
   * nothing, whatever file type the repeat names.
   */
  lemma UpsertIdempotent(table: Table, filePath: string, fileType: string, otherType: string,
                         metadata: string, tags: string, now: string)
    ensures var once := Upsert(table, filePath, fileType, metadata, tags, now);
            Upsert(once, filePath, otherType, metadata, tags, now) == once
  {
  }

  /**
   * Once a path is in the table its file type is fixed: any sequence of later
   * updates of that path leaves it as it was.
   */
  lemma {:induction false} FileTypeFixed(table: Table, filePath: string, updates: seq<(string, string, string, string)>)
    requires filePath in table
    ensures filePath in UpsertAll(table, filePath, updates)
    ensures UpsertAll(table, filePath, updates)[filePath].fileType == table[filePath].fileType
    decreases |updates|
  {
    if updates != [] {
      var u := updates[0];
      FileTypeFixed(Upsert(table, filePath, u.0, u.1, u.2, u.3), filePath, updates[1..]);
    }
  }

  /** Successive updates of one path, each given as (file type, metadata, tags, time). */
  function UpsertAll(table: Table, filePath: string, updates: seq<(string, string, string, string)>): Table
    decreases |updates|
  {
    if updates == [] then table
    else
      var u := updates[0];
      UpsertAll(Upsert(table, filePath, u.0, u.1, u.2, u.3), filePath, updates[1..])
  }

  class MediaCache {
    /** The rows of `media_metadata`, by `file_path`. */
    var table: Table

    /**
     * `MediaCache(db_path)`: `CREATE TABLE IF NOT EXISTS` keeps the rows an
     * existing database file already holds (`existing`, empty for a new file).
     */
    constructor (existing: Table)
      ensures table == existing
    {
      table := existing;
    }

    /** `update_metadata`: the upsert, stamped with `now`. */
    method UpdateMetadata(filePath: string, fileType: string, metadata: string, tags: string, now: string)
      modifies this
      ensures table == Upsert(old(table), filePath, fileType, metadata, tags, now)
    {
      table := Upsert(table, filePath, fileType, metadata, tags, now);
    }

    /** `get_metadata`: the stored row of `filePath`, or `None`. */
    function GetMetadata(filePath: string): Option<Row>
      reads this
    {
      Lookup(table, filePath)
    }
  }
}
