/** The schema set-up of database/models.py: init_db creates the four tables
    when they are missing and then adds the columns later versions need,
    through check_and_add_column.

    The schema is a map from table names to their columns in order. SQL
    text, SQLite itself and its errors are not modelled: which statement
    raises is a parameter. Python's sqlite3 module opens no transaction
    before CREATE TABLE or ALTER TABLE, so the statements that ran before
    the one that raised stay in effect; the rollback has nothing to undo. */
module Models {
  import opened Strings

  /** A column: its name and its type declaration. */
  datatype Column = Column(name: string, decl: string)

  type Schema = map<string, seq<Column>>

  /** The column names, as PRAGMA table_info lists them (col[1]). */
  function Names(cols: seq<Column>): (names: seq<string>)
    ensures |names| == |cols| && forall i :: 0 <= i < |cols| ==> names[i] == cols[i].name
  {
    seq(|cols|, i requires 0 <= i < |cols| => cols[i].name)
  }

  /** check_and_add_column on a schema: None when ALTER TABLE raises (the
      table does not exist, so PRAGMA lists no column); otherwise the schema
      afterwards and whether the column was added. */
  function CheckAndAdd(s: Schema, table: string, column: string, decl: string): (r: Option<(Schema, bool)>)
    ensures r.None? <==> table !in s
    ensures r.Some? ==> (r.value.1 <==> column !in Names(s[table]))
    ensures r.Some? && !r.value.1 ==> r.value.0 == s
    ensures r.Some? && r.value.1 ==> r.value.0 == s[table := s[table] + [Column(column, decl)]]
  {
    if table !in s then None
    else if column in Names(s[table]) then Some((s, false))
    else Some((s[table := s[table] + [Column(column, decl)]], true))
  }

  /** Afterwards the column is there, the table's earlier columns are kept,
      and a second call adds nothing and answers False. */
  lemma CheckAndAddTwice(s: Schema, table: string, column: string, decl: string)
    requires table in s
    ensures var r := CheckAndAdd(s, table, column, decl).value.0;
            table in r && column in Names(r[table]) && r[table][..|s[table]|] == s[table] &&
            CheckAndAdd(r, table, column, decl) == Some((r, false))
  {
    var r := CheckAndAdd(s, table, column, decl).value.0;
    if column !in Names(s[table]) {
      assert Names(r[table])[|s[table]|] == column;
    }
  }

  /** CREATE TABLE IF NOT EXISTS: an existing table is kept as it is. */
  function CreateIfMissing(s: Schema, table: string, columns: seq<Column>): (r: Schema)
    ensures table in r && r.Keys == s.Keys + {table}
    ensures table in s ==> r == s
    ensures table !in s ==> r[table] == columns && forall t :: t in s ==> r[t] == s[t]
  {
    if table in s then s else s[table := columns]
  }

  const AnimeColumns: seq<Column> := [
    Column("id", "INTEGER PRIMARY KEY AUTOINCREMENT"), Column("site_id", "TEXT NOT NULL"),
    Column("title", "TEXT NOT NULL"), Column("description", "TEXT"), Column("cover_url", "TEXT"),
    Column("total_episodes", "INTEGER DEFAULT 0"), Column("created_at", "INTEGER NOT NULL"),
    Column("updated_at", "INTEGER NOT NULL")]

  const EpisodeColumns: seq<Column> := [
    Column("id", "INTEGER PRIMARY KEY AUTOINCREMENT"), Column("anime_id", "INTEGER NOT NULL"),
    Column("episode_number", "INTEGER NOT NULL"), Column("title", "TEXT"), Column("video_url", "TEXT"),
    Column("created_at", "INTEGER NOT NULL"), Column("updated_at", "INTEGER NOT NULL")]

  const TaskColumns: seq<Column> := [
    Column("id", "INTEGER PRIMARY KEY AUTOINCREMENT"), Column("anime_id", "TEXT NOT NULL"),
    Column("start_episode", "INTEGER NOT NULL"), Column("end_episode", "INTEGER"),
    Column("status", "TEXT DEFAULT 'pending'"), Column("is_periodic", "BOOLEAN DEFAULT 0"),
    Column("daily_update_time", "INTEGER DEFAULT 0"), Column("next_run", "INTEGER"),
    Column("created_at", "INTEGER NOT NULL"), Column("updated_at", "INTEGER NOT NULL")]

  const ResultColumns: seq<Column> := [
    Column("id", "INTEGER PRIMARY KEY AUTOINCREMENT"), Column("task_id", "INTEGER NOT NULL"),
    Column("episode_number", "INTEGER NOT NULL"), Column("status", "TEXT DEFAULT 'pending'"),
    Column("cache_url", "TEXT"), Column("error_message", "TEXT"),
    Column("download_progress", "INTEGER DEFAULT 0"), Column("file_size", "INTEGER DEFAULT 0"),
    Column("file_path", "TEXT"), Column("created_at", "INTEGER NOT NULL"),
    Column("updated_at", "INTEGER NOT NULL")]

  /** One statement of init_db. */
  datatype Statement = Create(table: string, columns: seq<Column>)
                     | AddColumn(table: string, column: string, decl: string)

  /** init_db's statements in order: the four tables, then the four columns
      of task_results and the last_run column of tasks. */
  function InitStatement(k: nat): Statement
    requires k < 9
  {
    match k
    case 0 => Create("animes", AnimeColumns)
    case 1 => Create("episodes", EpisodeColumns)
    case 2 => Create("tasks", TaskColumns)
    case 3 => Create("task_results", ResultColumns)
    case 4 => AddColumn("task_results", "download_progress", "INTEGER DEFAULT 0")
    case 5 => AddColumn("task_results", "file_size", "INTEGER DEFAULT 0")
    case 6 => AddColumn("task_results", "file_path", "TEXT")
    case 7 => AddColumn("task_results", "cache_url", "TEXT")
    case _ => AddColumn("tasks", "last_run", "INTEGER")
  }

  /** One statement's effect, None when it raises: statement failAt raises
      whatever it is, and an added column on a missing table raises. */
  function Execute(s: Schema, st: Statement, k: nat, failAt: Option<nat>): Option<Schema> {
    if failAt == Some(k) then None
    else match st
      case Create(table, columns) => Some(CreateIfMissing(s, table, columns))
      case AddColumn(table, column, decl) =>
        match CheckAndAdd(s, table, column, decl)
        case None => None
        case Some(r) => Some(r.0)
  }

  /** The schema after statements k.. of init_db, and whether they all ran
      (so whether init_db commits). */
  function Run(s: Schema, k: nat, failAt: Option<nat>): (Schema, bool)
    requires k <= 9
    decreases 9 - k
  {
    if k == 9 then (s, true)
    else match Execute(s, InitStatement(k), k, failAt)
      case None => (s, false)
      case Some(s') => Run(s', k + 1, failAt)
  }

  /** The tables init_db creates. */
  predicate HasTables(s: Schema) {
    "animes" in s && "episodes" in s && "tasks" in s && "task_results" in s
  }

  /** The columns check_and_add_column guarantees. */
  predicate HasNewColumns(s: Schema) {
    "task_results" in s && "tasks" in s &&
    "download_progress" in Names(s["task_results"]) && "file_size" in Names(s["task_results"]) &&
    "file_path" in Names(s["task_results"]) && "cache_url" in Names(s["task_results"]) &&
    "last_run" in Names(s["tasks"])
  }

  /** Every table of s is in r with its columns as a prefix. */
  predicate Keeps(s: Schema, r: Schema) {
    forall t :: t in s ==> t in r && |s[t]| <= |r[t]| && r[t][..|s[t]|] == s[t]
  }

  lemma KeepsTransitive(a: Schema, b: Schema, c: Schema)
    requires Keeps(a, b) && Keeps(b, c)
    ensures Keeps(a, c)
  {
    forall t | t in a
      ensures t in c && |a[t]| <= |c[t]| && c[t][..|a[t]|] == a[t]
    {
      assert c[t][..|b[t]|][..|a[t]|] == c[t][..|a[t]|];
    }
  }

  /** What statements ..k - 1 guarantee: their tables exist and their
      columns are present. */
  predicate Reached(s: Schema, k: nat) {
    (k > 0 ==> "animes" in s) && (k > 1 ==> "episodes" in s) && (k > 2 ==> "tasks" in s) &&
    (k > 3 ==> "task_results" in s) &&
    (k > 4 ==> "download_progress" in Names(s["task_results"])) &&
    (k > 5 ==> "file_size" in Names(s["task_results"])) &&
    (k > 6 ==> "file_path" in Names(s["task_results"])) &&
    (k > 7 ==> "cache_url" in Names(s["task_results"])) &&
    (k > 8 ==> "last_run" in Names(s["tasks"]))
  }

  /** Without an error, each statement runs, keeps what was there and
      guarantees its own table or column. */
  lemma ExecuteKeeps(s: Schema, k: nat)
    requires k < 9 && Reached(s, k)
    ensures Execute(s, InitStatement(k), k, None).Some?
    ensures Keeps(s, Execute(s, InitStatement(k), k, None).value)
    ensures Reached(Execute(s, InitStatement(k), k, None).value, k + 1)
  {
    var r := Execute(s, InitStatement(k), k, None).value;
    forall t | t in s
      ensures t in r && |s[t]| <= |r[t]| && r[t][..|s[t]|] == s[t]
    {
      assert r[t][..|s[t]|] == s[t];
    }
    if k >= 4 {
      var st := InitStatement(k);
      CheckAndAddTwice(s, st.table, st.column, st.decl);
      PrefixNames(s, r, "task_results");
    }
  }

  lemma KeepsReflexive(s: Schema)
    ensures Keeps(s, s)
  {
    forall t | t in s
      ensures s[t][..|s[t]|] == s[t]
    {
    }
  }

  /** Without an error, init_db commits, keeps every existing table with
      its columns (new ones only appended), and leaves all four tables and
      the five later columns in place, whatever the schema was before. */
  lemma {:induction false} InitDbComplete(s: Schema, k: nat)
    requires k <= 9 && Reached(s, k)
    ensures Run(s, k, None).1
    ensures Keeps(s, Run(s, k, None).0)
    ensures HasTables(Run(s, k, None).0) && HasNewColumns(Run(s, k, None).0)
    decreases 9 - k
  {
    if k == 9 {
      KeepsReflexive(s);
    } else {
      ExecuteKeeps(s, k);
      var s' := Execute(s, InitStatement(k), k, None).value;
      InitDbComplete(s', k + 1);
      KeepsTransitive(s, s', Run(s', k + 1, None).0);
    }
  }

  /** Names already in a kept table stay. */
  lemma PrefixNames(s: Schema, r: Schema, t: string)
    requires t in s && Keeps(s, r)
    ensures forall n :: n in Names(s[t]) ==> n in Names(r[t])
  {
    forall n | n in Names(s[t])
      ensures n in Names(r[t])
    {
      var i :| 0 <= i < |s[t]| && Names(s[t])[i] == n;
      assert r[t][..|s[t]|][i] == r[t][i];
    }
  }

  /** init_db on a schema it has already set up changes nothing. */
  lemma {:induction false} InitDbIdempotent(s: Schema, k: nat)
    requires k <= 9
    requires HasTables(s) && HasNewColumns(s)
    ensures Run(s, k, None) == (s, true)
    decreases 9 - k
  {
    if k < 9 {
      assert Execute(s, InitStatement(k), k, None) == Some(s);
      InitDbIdempotent(s, k + 1);
    }
  }

  /** The database behind the connection that init_db opens. */
  class Store {
    var schema: Schema

    constructor (schema: Schema)
      ensures this.schema == schema
    {
      this.schema := schema;
    }

    /** check_and_add_column: True with the column appended iff the table
        lacks it; raised (and nothing changed) when the table is missing. */
    method CheckAndAddColumn(table: string, column: string, decl: string)
      returns (added: bool, raised: bool)
      modifies this
      ensures raised <==> table !in old(schema)
      ensures raised ==> !added && schema == old(schema)
      ensures !raised ==> CheckAndAdd(old(schema), table, column, decl) == Some((schema, added))
    {
      if table !in schema {
        return false, true;
      }
      var columns := Names(schema[table]);
      if column !in columns {
        schema := schema[table := schema[table] + [Column(column, decl)]];
        return true, false;
      }
      return false, false;
    }

    /** CREATE TABLE IF NOT EXISTS; raises when it is statement failAt. */
    method CreateTable(table: string, columns: seq<Column>, k: nat, failAt: Option<nat>) returns (raised: bool)
      modifies this
      ensures raised <==> failAt == Some(k)
      ensures raised ==> schema == old(schema)
      ensures !raised ==> schema == CreateIfMissing(old(schema), table, columns)
    {
      if failAt == Some(k) {
        return true;
      }
      if table !in schema {
        schema := schema[table := columns];
      }
      return false;
    }

    /** A check_and_add_column call of init_db; raises when it is statement
        failAt. */
    method AddColumnStep(table: string, column: string, decl: string, k: nat, failAt: Option<nat>)
      returns (raised: bool)
      modifies this
      ensures raised ==> schema == old(schema)
      ensures Execute(old(schema), AddColumn(table, column, decl), k, failAt) ==
              if raised then None else Some(schema)
    {
      if failAt == Some(k) {
        return true;
      }
      var added;
      added, raised := CheckAndAddColumn(table, column, decl);
    }

    /** init_db: the statements in order; the first that raises stops the
        rest and the connection is rolled back instead of committed. */
    method InitDb(failAt: Option<nat>) returns (committed: bool)
      modifies this
      ensures (schema, committed) == Run(old(schema), 0, failAt)
    {
      var raised := CreateTables(failAt);
      if raised { return false; }
      raised := AddColumns(failAt);
      return !raised;
    }

    /** The four CREATE TABLE statements of init_db (statements 0 to 3). */
    method CreateTables(failAt: Option<nat>) returns (raised: bool)
      modifies this
      ensures Run(old(schema), 0, failAt) == if raised then (schema, false) else Run(schema, 4, failAt)
    {
      ghost var goal := Run(schema, 0, failAt);
      raised := CreateTable("animes", AnimeColumns, 0, failAt);
      if raised { return; }
      assert goal == Run(schema, 1, failAt);
      raised := CreateTable("episodes", EpisodeColumns, 1, failAt);
      if raised { return; }
      assert goal == Run(schema, 2, failAt);
      raised := CreateTable("tasks", TaskColumns, 2, failAt);
      if raised { return; }
      assert goal == Run(schema, 3, failAt);
      raised := CreateTable("task_results", ResultColumns, 3, failAt);
    }

    /** The five check_and_add_column calls of init_db (statements 4 to 8). */
    method AddColumns(failAt: Option<nat>) returns (raised: bool)
      modifies this
      ensures Run(old(schema), 4, failAt) == (schema, !raised)
    {
      ghost var goal := Run(schema, 4, failAt);
      raised := AddColumnStep("task_results", "download_progress", "INTEGER DEFAULT 0", 4, failAt);
      if raised { return; }
      assert goal == Run(schema, 5, failAt);
      raised := AddColumnStep("task_results", "file_size", "INTEGER DEFAULT 0", 5, failAt);
      if raised { return; }
      assert goal == Run(schema, 6, failAt);
      raised := AddColumnStep("task_results", "file_path", "TEXT", 6, failAt);
      if raised { return; }
      assert goal == Run(schema, 7, failAt);
      raised := AddColumnStep("task_results", "cache_url", "TEXT", 7, failAt);
      if raised { return; }
      assert goal == Run(schema, 8, failAt);
      raised := AddColumnStep("tasks", "last_run", "INTEGER", 8, failAt);
    }
  }
}
