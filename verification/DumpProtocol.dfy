/**
 The session that mysqldump runs against a server while other sessions keep committing.

 The client's statements form a list that depends only on the accepted options and on the
 databases to dump. The server is reduced to what the client relies on: a binary log of
 committed transactions, the files the log is cut into, the global read lock, table locks
 and the read view of the client's transaction. Every interleaving of client statements,
 commits, changes of definition and log rotations is a run.
 */
module DumpProtocol {
  import opened DumpOptions
  import opened Helpers

  type Table = string
  type Rows = seq<string>

  /** A committed transaction: the new contents of the tables it wrote. */
  type Transaction = map<Table, Rows>

  /** Committed contents after a log prefix: the last write wins, an unwritten table is empty. */
  function ContentsAt(log: seq<Transaction>, t: Table): Rows {
    if log == [] then []
    else if t in log[|log| - 1] then log[|log| - 1][t]
    else ContentsAt(log[..|log| - 1], t)
  }

  // ---------- The client's statements ----------

  datatype Statement =
    | FlushTables
    | FlushTablesWithReadLock
    | RefreshLog
    | GetLogName
    | StartSnapshot
    | ShowMasterStatus
    | UnlockTables
    | LockTables(tables: set<Table>)
    | ReadTable(table: Table)
    | ReadDefinition          // SHOW CREATE and the like: no lock, no row data
    | StopSlave
    | ShowSlaveStatus
    | StartSlave
    | PurgeLogs

  /** A virtual database is the information or the performance schema, in which nothing can be locked. */
  datatype Database = Database(tables: seq<Table>, views: seq<Table>, virtual: bool)

  /** What is dumped, and which optional passes over it are made: whole databases, or the tables named of one. */
  datatype Target =
    | Databases(databases: seq<Database>, events: bool, routines: bool)
    | Selected(database: Database, events: bool, routines: bool)

  function OnlyIf(c: bool, xs: seq<Statement>): seq<Statement> {
    if c then xs else []
  }

  /** main flushes logs itself, and then clears the flag, under these options. */
  predicate FlushesLogsUpFront(o: Options) {
    o.lockAllTables || o.masterData != 0 || (o.singleTransaction && o.flushLogs) || o.deleteMasterLogs
  }

  predicate Refreshes(o: Options) {
    FlushesLogsUpFront(o) && (o.flushLogs || o.deleteMasterLogs)
  }

  predicate TakesGlobalLock(o: Options) {
    o.lockAllTables || o.masterData != 0 || (o.singleTransaction && o.flushLogs)
  }

  /** The first half of main's setup: the global lock and the log file. */
  function Locking(o: Options): seq<Statement> {
    OnlyIf(o.slaveData != 0, [StopSlave])
    + OnlyIf(TakesGlobalLock(o), [FlushTables, FlushTablesWithReadLock])
    + OnlyIf(Refreshes(o), [RefreshLog])
    + OnlyIf(o.deleteMasterLogs, [GetLogName])
  }

  /** The second half: the read view and the coordinate. */
  function Viewing(o: Options): seq<Statement> {
    OnlyIf(o.singleTransaction, [StartSnapshot])
    + OnlyIf(o.masterData != 0, [ShowMasterStatus])
    + OnlyIf(o.slaveData != 0, [ShowSlaveStatus])
    + OnlyIf(o.singleTransaction, [UnlockTables])
  }

  function Setup(o: Options): seq<Statement> {
    Locking(o) + Viewing(o)
  }

  /** --flush-logs as the dump phase sees it. */
  predicate FlushesLogsPerDatabase(o: Options) {
    o.flushLogs && !FlushesLogsUpFront(o)
  }

  function Reads(tables: seq<Table>): seq<Statement> {
    seq(|tables|, i requires 0 <= i < |tables| => ReadTable(tables[i]))
  }

  function TableSet(tables: seq<Table>): set<Table> {
    set t | t in tables
  }

  function SystemTablePass(o: Options, wanted: bool, table: Table): seq<Statement> {
    OnlyIf(wanted,
           OnlyIf(o.lockTables, [LockTables({table})]) + [ReadDefinition] + OnlyIf(o.lockTables, [UnlockTables]))
  }

  /** What is sent before the rows of a database. */
  function Opening(o: Options, d: Database, lock: bool): seq<Statement> {
    OnlyIf(lock, [LockTables(TableSet(d.tables + d.views))]) + OnlyIf(FlushesLogsPerDatabase(o), [RefreshLog])
  }

  /** What is sent after the rows of a database. */
  function Closing(o: Options, definitions: nat, events: bool, routines: bool): seq<Statement> {
    seq(definitions, i => ReadDefinition) + SystemTablePass(o, events, "mysql.event")
    + SystemTablePass(o, routines, "mysql.proc") + OnlyIf(o.lockTables, [UnlockTables])
  }

  /** dump_all_tables_in_db; getTableName yields the views too. */
  function DumpTables(o: Options, d: Database, events: bool, routines: bool): seq<Statement> {
    Opening(o, d, o.lockTables && d.tables + d.views != []) + Reads(d.tables) + Closing(o, 0, events, routines)
  }

  /** dump_all_views_in_db */
  function DumpViews(o: Options, d: Database): seq<Statement> {
    Opening(o, d, o.lockTables && d.tables + d.views != []) + Closing(o, |d.tables + d.views|, false, false)
  }

  function DumpAllTables(o: Options, databases: seq<Database>, events: bool, routines: bool): seq<Statement> {
    if databases == [] then []
    else DumpTables(o, databases[0], events, routines) + DumpAllTables(o, databases[1..], events, routines)
  }

  function DumpAllViews(o: Options, databases: seq<Database>): seq<Statement> {
    if databases == [] then [] else DumpViews(o, databases[0]) + DumpAllViews(o, databases[1..])
  }

  /** Whether some database holds a view, which is what sends main over the databases again. */
  predicate SeenViews(databases: seq<Database>) {
    exists i :: 0 <= i < |databases| && databases[i].views != []
  }

  /** dump_selected_tables: the views are in the same pass. */
  function DumpSelected(o: Options, d: Database, events: bool, routines: bool): seq<Statement> {
    Opening(o, d, o.lockTables && !d.virtual) + Reads(d.tables) + Closing(o, ViewPass(d), events, routines)
  }

  function ViewPass(d: Database): nat {
    if d.views != [] then |d.tables + d.views| else 0
  }

  /** The dump phase, by the three ways main has into it. */
  function Body(o: Options, t: Target): seq<Statement> {
    match t
    case Databases(databases, events, routines) =>
      DumpAllTables(o, databases, events, routines) + OnlyIf(SeenViews(databases), DumpAllViews(o, databases))
    case Selected(d, events, routines) => DumpSelected(o, d, events, routines)
  }

  function Ending(o: Options): seq<Statement> {
    OnlyIf(o.slaveData != 0, [StartSlave]) + OnlyIf(o.deleteMasterLogs, [PurgeLogs])
  }

  function Script(o: Options, t: Target): seq<Statement> {
    Setup(o) + (Body(o, t) + Ending(o))
  }

  function AllTables(databases: seq<Database>): seq<Table> {
    if databases == [] then [] else databases[0].tables + AllTables(databases[1..])
  }

  /** All tables to dump, in order. */
  function Wanted(t: Target): seq<Table> {
    match t
    case Databases(databases, _, _) => AllTables(databases)
    case Selected(d, _, _) => d.tables
  }

  // ---------- The server and the session ----------

  /** A binary log coordinate: a file, by number, and how many transactions precede it there. */
  datatype Coordinate = Coordinate(file: nat, position: nat)

  datatype State = State(
    log: seq<Transaction>,
    fileStarts: seq<nat>,        // how many transactions precede each log file
    firstFile: nat,              // lower-numbered files have been purged
    globalLock: bool,
    tableLocks: set<Table>,
    snapshot: Option<nat>,       // the log prefix the session's transaction reads
    altered: set<Table>,         // tables whose definition changed since, which the read view does not isolate
    logName: Option<nat>,
    printed: Option<Coordinate>,
    output: seq<(Table, Rows)>,
    todo: seq<Statement>)

  ghost predicate Wellformed(s: State) {
    && s.fileStarts != []
    && s.fileStarts[|s.fileStarts| - 1] <= |s.log|
    && s.firstFile < |s.fileStarts|
    && (s.printed.Some? ==> OnLog(s, s.printed.value))
    && (s.snapshot.Some? ==> s.snapshot.value <= |s.log|)
  }

  /** The coordinate lies in a file the server created and on the log. */
  predicate OnLog(s: State, c: Coordinate) {
    c.file < |s.fileStarts| && s.fileStarts[c.file] + c.position <= |s.log|
  }

  /** The number of transactions that precede a coordinate. */
  function Prefix(s: State, c: Coordinate): nat
    requires OnLog(s, c)
  {
    s.fileStarts[c.file] + c.position
  }

  ghost predicate Initial(s: State, o: Options, t: Target) {
    && Wellformed(s)
    && !s.globalLock && s.tableLocks == {} && s.snapshot.None? && s.logName.None? && s.printed.None?
    && s.altered == {} && s.output == []
    && s.todo == Script(o, t)
  }

  /** Which tables are read through the session's read view. */
  type Engines = Table -> bool

  function ReadPoint(mv: Engines, s: State, t: Table): nat
    requires Wellformed(s)
  {
    if s.snapshot.Some? && mv(t) && t !in s.altered then s.snapshot.value else |s.log|
  }

  function Execute(mv: Engines, s: State, st: Statement): (r: State)
    requires Wellformed(s)
    ensures Wellformed(r) && r.log == s.log && r.todo == s.todo
  {
    match st
    case FlushTables => s
    case FlushTablesWithReadLock => s.(globalLock := true, snapshot := None)
    case RefreshLog => s.(fileStarts := s.fileStarts + [|s.log|], snapshot := None)
    case GetLogName => s.(logName := Some(|s.fileStarts| - 1))
    case StartSnapshot => s.(snapshot := Some(|s.log|), altered := {}, tableLocks := {})
    case ShowMasterStatus =>
      var file := |s.fileStarts| - 1;
      s.(printed := Some(Coordinate(file, |s.log| - s.fileStarts[file])))
    case UnlockTables =>
      // Unlocking commits only when table locks were held.
      s.(globalLock := false, tableLocks := {}, snapshot := if s.tableLocks == {} then s.snapshot else None)
    case LockTables(tables) => s.(tableLocks := tables, snapshot := None)
    case ReadTable(t) => s.(output := s.output + [(t, ContentsAt(s.log[..ReadPoint(mv, s, t)], t))])
    case ReadDefinition => s
    case ShowSlaveStatus => s
    case StopSlave => s.(snapshot := None)     // may commit
    case StartSlave => s.(snapshot := None)
    case PurgeLogs =>
      if s.logName.Some? && s.firstFile < s.logName.value < |s.fileStarts| then s.(firstFile := s.logName.value) else s
  }

  /**
   One step of a run: a client statement, another session's commit, another session's ALTER, DROP,
   RENAME or TRUNCATE TABLE, or a log rotation.
   */
  datatype Event = Client | Commit(writes: Transaction) | Alter(writes: Transaction) | Rotate

  predicate Enabled(s: State, e: Event) {
    match e
    case Client => s.todo != []
    case Commit(writes) => !s.globalLock && writes.Keys !! s.tableLocks
    case Alter(writes) => !s.globalLock && writes.Keys !! s.tableLocks
    case Rotate => true
  }

  function Step(mv: Engines, s: State, e: Event): (r: State)
    requires Wellformed(s) && Enabled(s, e)
    ensures Wellformed(r) && r.todo == (if e.Client? then s.todo[1..] else s.todo)
    ensures e.Client? ==> r.log == s.log
  {
    match e
    case Client => Execute(mv, s, s.todo[0]).(todo := s.todo[1..])
    case Commit(writes) => s.(log := s.log + [writes])
    case Alter(writes) => s.(log := s.log + [writes], altered := s.altered + writes.Keys)
    case Rotate => s.(fileStarts := s.fileStarts + [|s.log|])
  }

  ghost predicate Reaches(mv: Engines, s: State, run: seq<Event>, r: State)
    requires Wellformed(s)
    decreases |run|
  {
    if run == [] then r == s
    else Enabled(s, run[0]) && Reaches(mv, Step(mv, s, run[0]), run[1..], r)
  }

  /** Every dumped table shows the contents that the first k transactions produced. */
  ghost predicate DumpedAt(s: State, k: nat) {
    && k <= |s.log|
    && forall i :: 0 <= i < |s.output| ==> s.output[i].1 == ContentsAt(s.log[..k], s.output[i].0)
  }

  /** Every dumped table matches the printed coordinate. */
  ghost predicate MatchesCoordinate(s: State)
    requires Wellformed(s)
  {
    s.output != [] ==> s.printed.Some? && DumpedAt(s, Prefix(s, s.printed.value))
  }

  // ---------- A discipline on statement lists ----------

  /**
   What is known about the session at a point of the script, relative to one anchor, the log
   prefix that the whole dump is going to show.
   */
  datatype Facts = Facts(
    anchored: bool,     // the anchor has been chosen
    held: bool,         // the global lock has been held since
    free: bool,         // the global lock is not held by this session
    pinned: bool,       // the read view is the anchor
    noSnapshot: bool,
    printed: bool,
    refreshed: bool,    // the client has started a new log file
    named: bool,        // the log name was taken after that and before the coordinate was printed
    purged: bool,       // files before the named one are gone
    wanted: bool,       // no row may be read before the coordinate is printed
    calm: set<Table>)   // no other session changes the definition of these

  function NothingKnown(o: Options, calm: set<Table>): Facts {
    Facts(false, false, true, false, true, false, false, false, false, o.masterData != 0, calm)
  }

  ghost predicate Allowed(mv: Engines, f: Facts, st: Statement) {
    match st
    case FlushTablesWithReadLock => !f.anchored
    case GetLogName => f.refreshed && !f.printed
    case StartSnapshot => f.anchored ==> f.held
    case ShowMasterStatus => f.held && !f.printed
    case LockTables(_) => false
    case ReadTable(t) =>
      && (f.wanted ==> f.printed)
      && ((f.pinned && mv(t) && t in f.calm) || (f.held && (f.noSnapshot || f.pinned || !mv(t))))
    case PurgeLogs => f.named && f.printed
    case _ => true
  }

  function After(f: Facts, st: Statement): (r: Facts)
    ensures r.wanted == f.wanted && r.calm == f.calm
  {
    match st
    case FlushTablesWithReadLock =>
      f.(anchored := true, held := true, free := false, pinned := false, noSnapshot := true)
    case RefreshLog => f.(pinned := false, noSnapshot := true, refreshed := true)
    case GetLogName => f.(named := true)
    case StartSnapshot => f.(anchored := true, pinned := true, noSnapshot := false)
    case ShowMasterStatus => f.(printed := true)
    case UnlockTables => f.(held := false, free := true)
    case StopSlave => f.(pinned := false, noSnapshot := true)
    case StartSlave => f.(pinned := false, noSnapshot := true)
    case PurgeLogs => f.(purged := true)
    case _ => f
  }

  function AfterAll(f: Facts, xs: seq<Statement>): Facts
    decreases |xs|
  {
    if xs == [] then f else AfterAll(After(f, xs[0]), xs[1..])
  }

  ghost predicate Disciplined(mv: Engines, f: Facts, xs: seq<Statement>)
    decreases |xs|
  {
    xs == [] || (Allowed(mv, f, xs[0]) && Disciplined(mv, After(f, xs[0]), xs[1..]))
  }

  lemma {:induction false} DisciplinedConcat(mv: Engines, f: Facts, xs: seq<Statement>, ys: seq<Statement>)
    requires Disciplined(mv, f, xs) && Disciplined(mv, AfterAll(f, xs), ys)
    ensures Disciplined(mv, f, xs + ys)
    decreases |xs|
  {
    if xs == [] {
      assert xs + ys == ys;
    } else {
      assert (xs + ys)[1..] == xs[1..] + ys;
      DisciplinedConcat(mv, After(f, xs[0]), xs[1..], ys);
    }
  }

  // ---------- The discipline is sound under every interleaving ----------

  /** The facts hold of a state, for the anchor k, when the session began with n log files. */
  ghost predicate Holds(f: Facts, s: State, k: nat, n: nat)
    requires Wellformed(s)
  {
    && s.tableLocks == {}
    && s.altered !! f.calm
    && k <= |s.log|
    && (s.output != [] ==> f.anchored && (f.wanted ==> f.printed))
    && (f.held ==> f.anchored && s.globalLock && k == |s.log|)
    && (f.free ==> !s.globalLock)
    && (f.pinned ==> f.anchored && s.snapshot == Some(k))
    && (f.noSnapshot ==> s.snapshot.None?)
    && (s.printed.Some? <==> f.printed)
    && (f.printed ==> f.anchored && Prefix(s, s.printed.value) == k && s.firstFile <= s.printed.value.file)
    && (if f.refreshed then n < |s.fileStarts| else n <= |s.fileStarts|)
    && (f.purged ==> n <= s.firstFile)
    && (f.named ==> s.logName.Some? && n <= s.logName.value < |s.fileStarts|
                    && (f.printed ==> s.logName.value <= s.printed.value.file))
    && DumpedAt(s, k)
  }

  /** The event changes no definition of these tables. */
  predicate Spares(e: Event, tables: set<Table>) {
    e.Alter? ==> e.writes.Keys !! tables
  }

  ghost predicate Calm(run: seq<Event>, tables: set<Table>) {
    forall i :: 0 <= i < |run| ==> Spares(run[i], tables)
  }

  /** Commits, changes of other tables' definitions and rotations by others keep what is known. */
  lemma OthersKeepFacts(mv: Engines, f: Facts, s: State, k: nat, n: nat, e: Event)
    requires Wellformed(s) && Holds(f, s, k, n) && Enabled(s, e) && !e.Client? && Spares(e, f.calm)
    ensures Holds(f, Step(mv, s, e), k, n)
  {
    if !e.Rotate? {
      var r := Step(mv, s, e);
      assert r.log[..k] == s.log[..k];
      if f.printed {
        assert Prefix(r, r.printed.value) == k;
      }
    }
  }

  /** Taking the global lock or the read view, choosing the anchor where it is not chosen yet. */
  lemma AnchorKeepsFacts(mv: Engines, f: Facts, s: State, k: nat, n: nat, st: Statement) returns (k': nat)
    requires Wellformed(s) && Holds(f, s, k, n) && Allowed(mv, f, st)
    requires st.FlushTablesWithReadLock? || st.StartSnapshot?
    ensures Holds(After(f, st), Execute(mv, s, st), k', n)
  {
    k' := if st.FlushTablesWithReadLock? || !f.anchored then |s.log| else k;
  }

  lemma RefreshKeepsFacts(mv: Engines, f: Facts, s: State, k: nat, n: nat, st: Statement)
    requires Wellformed(s) && Holds(f, s, k, n) && st.RefreshLog?
    ensures Holds(After(f, st), Execute(mv, s, st), k, n)
  {
    if f.printed {
      assert Prefix(Execute(mv, s, st), s.printed.value) == k;
    }
  }

  lemma NameKeepsFacts(mv: Engines, f: Facts, s: State, k: nat, n: nat, st: Statement)
    requires Wellformed(s) && Holds(f, s, k, n) && Allowed(mv, f, st) && st.GetLogName?
    ensures Holds(After(f, st), Execute(mv, s, st), k, n)
  {
  }

  lemma ShowKeepsFacts(mv: Engines, f: Facts, s: State, k: nat, n: nat, st: Statement)
    requires Wellformed(s) && Holds(f, s, k, n) && Allowed(mv, f, st) && st.ShowMasterStatus?
    ensures Holds(After(f, st), Execute(mv, s, st), k, n)
  {
  }

  lemma ReadKeepsFacts(mv: Engines, f: Facts, s: State, k: nat, n: nat, st: Statement)
    requires Wellformed(s) && Holds(f, s, k, n) && Allowed(mv, f, st) && st.ReadTable?
    ensures Holds(After(f, st), Execute(mv, s, st), k, n)
  {
    assert ReadPoint(mv, s, st.table) == k;
  }

  lemma PurgeKeepsFacts(mv: Engines, f: Facts, s: State, k: nat, n: nat, st: Statement)
    requires Wellformed(s) && Holds(f, s, k, n) && Allowed(mv, f, st) && st.PurgeLogs?
    ensures Holds(After(f, st), Execute(mv, s, st), k, n)
  {
  }

  lemma PassiveKeepsFacts(mv: Engines, f: Facts, s: State, k: nat, n: nat, st: Statement)
    requires Wellformed(s) && Holds(f, s, k, n) && (st.FlushTables? || st.ReadDefinition? || st.ShowSlaveStatus?)
    ensures Holds(After(f, st), Execute(mv, s, st), k, n)
  {
    assert Execute(mv, s, st) == s && After(f, st) == f;
  }

  lemma WithoutLock(f: Facts, s: State, k: nat, n: nat)
    requires Wellformed(s) && Holds(f, s, k, n)
    ensures Wellformed(s.(globalLock := false))
    ensures Holds(f.(held := false, free := true), s.(globalLock := false), k, n)
  {
  }

  lemma UnlockKeepsFacts(mv: Engines, f: Facts, s: State, k: nat, n: nat, st: Statement)
    requires Wellformed(s) && Holds(f, s, k, n) && st.UnlockTables?
    ensures Holds(After(f, st), Execute(mv, s, st), k, n)
  {
    WithoutLock(f, s, k, n);
    assert Execute(mv, s, st) == s.(globalLock := false);
  }

  lemma WithoutView(f: Facts, s: State, k: nat, n: nat)
    requires Wellformed(s) && Holds(f, s, k, n)
    ensures Wellformed(s.(snapshot := None))
    ensures Holds(f.(pinned := false, noSnapshot := true), s.(snapshot := None), k, n)
  {
  }

  lemma SlaveKeepsFacts(mv: Engines, f: Facts, s: State, k: nat, n: nat, st: Statement)
    requires Wellformed(s) && Holds(f, s, k, n) && (st.StopSlave? || st.StartSlave?)
    ensures Holds(After(f, st), Execute(mv, s, st), k, n)
  {
    WithoutView(f, s, k, n);
  }

  /** An allowed statement keeps the discipline, for the same anchor or for the one it chooses. */
  lemma StatementKeepsFacts(mv: Engines, f: Facts, s: State, k: nat, n: nat, st: Statement) returns (k': nat)
    requires Wellformed(s) && Holds(f, s, k, n) && Allowed(mv, f, st)
    ensures Holds(After(f, st), Execute(mv, s, st), k', n)
  {
    k' := k;
    if st.FlushTables? || st.ReadDefinition? || st.ShowSlaveStatus? {
      PassiveKeepsFacts(mv, f, s, k, n, st);
    } else if st.UnlockTables? {
      UnlockKeepsFacts(mv, f, s, k, n, st);
    } else if st.StopSlave? || st.StartSlave? {
      SlaveKeepsFacts(mv, f, s, k, n, st);
    } else if st.FlushTablesWithReadLock? || st.StartSnapshot? {
      k' := AnchorKeepsFacts(mv, f, s, k, n, st);
    } else if st.RefreshLog? {
      RefreshKeepsFacts(mv, f, s, k, n, st);
    } else if st.GetLogName? {
      NameKeepsFacts(mv, f, s, k, n, st);
    } else if st.ShowMasterStatus? {
      ShowKeepsFacts(mv, f, s, k, n, st);
    } else if st.ReadTable? {
      ReadKeepsFacts(mv, f, s, k, n, st);
    } else {
      PurgeKeepsFacts(mv, f, s, k, n, st);
    }
  }

  lemma HoldsWithoutTodo(f: Facts, s: State, k: nat, n: nat, xs: seq<Statement>)
    requires Wellformed(s) && Holds(f, s, k, n)
    ensures Wellformed(s.(todo := xs)) && Holds(f, s.(todo := xs), k, n)
  {
  }

  lemma ClientKeepsFacts(mv: Engines, f: Facts, s: State, k: nat, n: nat) returns (k': nat)
    requires Wellformed(s) && Holds(f, s, k, n) && s.todo != [] && Allowed(mv, f, s.todo[0])
    ensures Holds(After(f, s.todo[0]), Step(mv, s, Client), k', n)
  {
    k' := StatementKeepsFacts(mv, f, s, k, n, s.todo[0]);
    HoldsWithoutTodo(After(f, s.todo[0]), Execute(mv, s, s.todo[0]), k', n, s.todo[1..]);
  }

  /** The facts after a run: those of the client statements in it. */
  function FactsAfter(f: Facts, todo: seq<Statement>, run: seq<Event>): (r: Facts)
    ensures r.wanted == f.wanted && r.calm == f.calm
    decreases |run|
  {
    if run == [] then f
    else if run[0].Client? && todo != [] then FactsAfter(After(f, todo[0]), todo[1..], run[1..])
    else FactsAfter(f, todo, run[1..])
  }

  lemma {:induction false} RunKeepsFacts(
    mv: Engines, f: Facts, s: State, k: nat, n: nat, run: seq<Event>, r: State)
    returns (k': nat)
    requires Wellformed(s) && Holds(f, s, k, n) && Disciplined(mv, f, s.todo)
    requires Reaches(mv, s, run, r) && Calm(run, f.calm)
    ensures Wellformed(r) && Holds(FactsAfter(f, s.todo, run), r, k', n)
    decreases |run|
  {
    if run == [] {
      k' := k;
    } else if run[0].Client? {
      k' := ClientKeepsFacts(mv, f, s, k, n);
      k' := RunKeepsFacts(mv, After(f, s.todo[0]), Step(mv, s, Client), k', n, run[1..], r);
    } else {
      OthersKeepFacts(mv, f, s, k, n, run[0]);
      k' := RunKeepsFacts(mv, f, Step(mv, s, run[0]), k, n, run[1..], r);
    }
  }

  lemma {:induction false} RunWellformed(mv: Engines, s: State, run: seq<Event>, r: State)
    requires Wellformed(s) && Reaches(mv, s, run, r)
    ensures Wellformed(r)
    decreases |run|
  {
    if run == [] {
    } else {
      RunWellformed(mv, Step(mv, s, run[0]), run[1..], r);
    }
  }

  function Remaining(todo: seq<Statement>, run: seq<Event>): seq<Statement>
    decreases |run|
  {
    if run == [] then todo
    else Remaining(if run[0].Client? && todo != [] then todo[1..] else todo, run[1..])
  }

  lemma {:induction false} RunConsumesScript(mv: Engines, s: State, run: seq<Event>, r: State)
    requires Wellformed(s) && Reaches(mv, s, run, r)
    ensures r.todo == Remaining(s.todo, run)
    decreases |run|
  {
    if run == [] {
    } else {
      RunConsumesScript(mv, Step(mv, s, run[0]), run[1..], r);
    }
  }

  lemma {:induction false} FactsOfRun(f: Facts, todo: seq<Statement>, run: seq<Event>)
    ensures AfterAll(FactsAfter(f, todo, run), Remaining(todo, run)) == AfterAll(f, todo)
    decreases |run|
  {
    if run == [] {
    } else if run[0].Client? && todo != [] {
      FactsOfRun(After(f, todo[0]), todo[1..], run[1..]);
    } else {
      FactsOfRun(f, todo, run[1..]);
    }
  }

  // ---------- mysqldump's script follows the discipline ----------

  /** The tables whose rows a statement list reads, in order. */
  function TablesRead(xs: seq<Statement>): seq<Table> {
    if xs == [] then []
    else if xs[0].ReadTable? then [xs[0].table] + TablesRead(xs[1..])
    else TablesRead(xs[1..])
  }

  predicate OnlyReads(xs: seq<Statement>) {
    forall i :: 0 <= i < |xs| ==> xs[i].ReadTable? || xs[i].ReadDefinition?
  }

  lemma {:induction false} TablesReadConcat(xs: seq<Statement>, ys: seq<Statement>)
    ensures TablesRead(xs + ys) == TablesRead(xs) + TablesRead(ys)
  {
    if xs == [] {
      assert xs + ys == ys;
    } else {
      assert (xs + ys)[1..] == xs[1..] + ys;
      TablesReadConcat(xs[1..], ys);
    }
  }

  lemma {:induction false} TablesReadReads(tables: seq<Table>)
    ensures TablesRead(Reads(tables)) == tables
  {
    if tables == [] {
    } else {
      assert Reads(tables)[1..] == Reads(tables[1..]);
      TablesReadReads(tables[1..]);
    }
  }

  predicate NoReads(xs: seq<Statement>) {
    forall i :: 0 <= i < |xs| ==> !xs[i].ReadTable?
  }

  lemma NoReadsConcat(xs: seq<Statement>, ys: seq<Statement>)
    requires NoReads(xs) && NoReads(ys)
    ensures NoReads(xs + ys)
  {
  }

  lemma {:induction false} TablesReadNone(xs: seq<Statement>)
    requires NoReads(xs)
    ensures TablesRead(xs) == []
  {
    if xs == [] {
    } else {
      TablesReadNone(xs[1..]);
    }
  }

  /** Options under which the whole dump is meant to show one point of the log. */
  predicate OnePoint(o: Options) {
    Accepted(o) && (o.singleTransaction || o.lockAllTables)
  }

  lemma OnlyReadsConcat(xs: seq<Statement>, ys: seq<Statement>)
    requires OnlyReads(xs) && OnlyReads(ys)
    ensures OnlyReads(xs + ys)
  {
  }

  /** Because lock_tables and flush_logs are both off by then, a database's part only reads. */
  lemma OpeningIsEmpty(o: Options, d: Database)
    requires OnePoint(o)
    ensures !o.lockTables && Opening(o, d, false) == []
  {
  }

  lemma ClosingOnlyReads(o: Options, definitions: nat, events: bool, routines: bool)
    requires OnePoint(o)
    ensures OnlyReads(Closing(o, definitions, events, routines))
  {
    var first := seq(definitions, i => ReadDefinition);
    OnlyReadsConcat(first, SystemTablePass(o, events, "mysql.event"));
    OnlyReadsConcat(first + SystemTablePass(o, events, "mysql.event"), SystemTablePass(o, routines, "mysql.proc"));
  }

  lemma PartOnlyReads(o: Options, d: Database, tables: seq<Table>, closing: seq<Statement>)
    requires OnePoint(o) && OnlyReads(closing)
    ensures OnlyReads(Opening(o, d, false) + Reads(tables) + closing) && OnlyReads(Opening(o, d, false) + closing)
  {
    OpeningIsEmpty(o, d);
    OnlyReadsConcat(Reads(tables), closing);
    assert Opening(o, d, false) + Reads(tables) + closing == Reads(tables) + closing;
    assert Opening(o, d, false) + closing == closing;
  }

  lemma {:induction false} DumpPhaseOnlyReads(o: Options, databases: seq<Database>, events: bool, routines: bool)
    requires OnePoint(o)
    ensures OnlyReads(DumpAllTables(o, databases, events, routines))
    decreases |databases|
  {
    if databases == [] {
    } else {
      ClosingOnlyReads(o, 0, events, routines);
      PartOnlyReads(o, databases[0], databases[0].tables, Closing(o, 0, events, routines));
      DumpPhaseOnlyReads(o, databases[1..], events, routines);
      OnlyReadsConcat(DumpTables(o, databases[0], events, routines),
                      DumpAllTables(o, databases[1..], events, routines));
    }
  }

  lemma {:induction false} ViewPhaseOnlyReads(o: Options, databases: seq<Database>)
    requires OnePoint(o)
    ensures OnlyReads(DumpAllViews(o, databases))
    decreases |databases|
  {
    if databases == [] {
    } else {
      var d := databases[0];
      ClosingOnlyReads(o, |d.tables + d.views|, false, false);
      PartOnlyReads(o, d, [], Closing(o, |d.tables + d.views|, false, false));
      ViewPhaseOnlyReads(o, databases[1..]);
      OnlyReadsConcat(DumpViews(o, d), DumpAllViews(o, databases[1..]));
    }
  }

  lemma SelectedOnlyReads(o: Options, d: Database, events: bool, routines: bool)
    requires OnePoint(o)
    ensures OnlyReads(DumpSelected(o, d, events, routines))
  {
    ClosingOnlyReads(o, ViewPass(d), events, routines);
    PartOnlyReads(o, d, d.tables, Closing(o, ViewPass(d), events, routines));
  }

  lemma BodyOnlyReads(o: Options, t: Target)
    requires OnePoint(o)
    ensures OnlyReads(Body(o, t))
  {
    match t
    case Databases(databases, events, routines) =>
      DumpPhaseOnlyReads(o, databases, events, routines);
      ViewPhaseOnlyReads(o, databases);
      OnlyReadsConcat(DumpAllTables(o, databases, events, routines),
                      OnlyIf(SeenViews(databases), DumpAllViews(o, databases)));
    case Selected(d, events, routines) =>
      SelectedOnlyReads(o, d, events, routines);
  }

  // ---------- What a script reads, under any options ----------

  lemma ReadsAmong(before: seq<Statement>, tables: seq<Table>, after: seq<Statement>)
    requires NoReads(before) && NoReads(after)
    ensures TablesRead(before + Reads(tables) + after) == tables
  {
    TablesReadConcat(before + Reads(tables), after);
    TablesReadConcat(before, Reads(tables));
    TablesReadNone(before);
    TablesReadNone(after);
    TablesReadReads(tables);
    assert [] + tables + [] == tables;
  }

  lemma ClosingReadsNothing(o: Options, definitions: nat, events: bool, routines: bool)
    ensures NoReads(Closing(o, definitions, events, routines))
  {
    var first := seq(definitions, i => ReadDefinition);
    NoReadsConcat(first, SystemTablePass(o, events, "mysql.event"));
    NoReadsConcat(first + SystemTablePass(o, events, "mysql.event"), SystemTablePass(o, routines, "mysql.proc"));
  }

  lemma {:induction false} TablePhaseReads(o: Options, databases: seq<Database>, events: bool, routines: bool)
    ensures TablesRead(DumpAllTables(o, databases, events, routines)) == AllTables(databases)
    decreases |databases|
  {
    if databases == [] {
    } else {
      var d := databases[0];
      ClosingReadsNothing(o, 0, events, routines);
      ReadsAmong(Opening(o, d, o.lockTables && d.tables + d.views != []), d.tables, Closing(o, 0, events, routines));
      TablePhaseReads(o, databases[1..], events, routines);
      TablesReadConcat(DumpTables(o, d, events, routines), DumpAllTables(o, databases[1..], events, routines));
    }
  }

  lemma {:induction false} ViewPhaseReads(o: Options, databases: seq<Database>)
    ensures TablesRead(DumpAllViews(o, databases)) == []
    decreases |databases|
  {
    if databases == [] {
    } else {
      ClosingReadsNothing(o, |databases[0].tables + databases[0].views|, false, false);
      TablesReadNone(DumpViews(o, databases[0]));
      ViewPhaseReads(o, databases[1..]);
      TablesReadConcat(DumpViews(o, databases[0]), DumpAllViews(o, databases[1..]));
    }
  }

  lemma BodyReads(o: Options, t: Target)
    ensures TablesRead(Body(o, t)) == Wanted(t)
  {
    match t
    case Databases(databases, events, routines) =>
      TablePhaseReads(o, databases, events, routines);
      ViewPhaseReads(o, databases);
      TablesReadConcat(DumpAllTables(o, databases, events, routines),
                       OnlyIf(SeenViews(databases), DumpAllViews(o, databases)));
    case Selected(d, events, routines) =>
      ClosingReadsNothing(o, ViewPass(d), events, routines);
      ReadsAmong(Opening(o, d, o.lockTables && !d.virtual), d.tables, Closing(o, ViewPass(d), events, routines));
  }

  /** What is known once the setup is over. */
  function SetupFacts(o: Options, calm: set<Table>): Facts {
    Facts(true, o.lockAllTables, o.singleTransaction, o.singleTransaction, !o.singleTransaction, o.masterData != 0,
          Refreshes(o), o.deleteMasterLogs, false, o.masterData != 0, calm)
  }

  lemma AfterAllConcat(f: Facts, xs: seq<Statement>, ys: seq<Statement>)
    ensures AfterAll(f, xs + ys) == AfterAll(AfterAll(f, xs), ys)
    decreases |xs|
  {
    if xs == [] {
      assert xs + ys == ys;
    } else {
      assert (xs + ys)[1..] == xs[1..] + ys;
      AfterAllConcat(After(f, xs[0]), xs[1..], ys);
    }
  }

  /** The first half of the setup: what is known before the read view is taken. */
  function LockedFacts(o: Options, calm: set<Table>): Facts {
    NothingKnown(o, calm).(anchored := TakesGlobalLock(o), held := TakesGlobalLock(o), free := !TakesGlobalLock(o),
                     refreshed := Refreshes(o), named := o.deleteMasterLogs)
  }

  lemma LockingDisciplined(mv: Engines, o: Options, calm: set<Table>)
    requires OnePoint(o)
    ensures Disciplined(mv, NothingKnown(o, calm), Locking(o))
    ensures AfterAll(NothingKnown(o, calm), Locking(o)) == LockedFacts(o, calm)
  {
    var stop := OnlyIf(o.slaveData != 0, [StopSlave]);
    var lock := OnlyIf(TakesGlobalLock(o), [FlushTables, FlushTablesWithReadLock]);
    var refresh := OnlyIf(Refreshes(o), [RefreshLog]);
    var name := OnlyIf(o.deleteMasterLogs, [GetLogName]);
    var f0 := NothingKnown(o, calm);
    var f1 := if TakesGlobalLock(o) then f0.(anchored := true, held := true, free := false) else f0;
    var f2 := f1.(refreshed := Refreshes(o));
    OneDisciplined(mv, f0, o.slaveData != 0, StopSlave);
    LockDisciplined(mv, f0, TakesGlobalLock(o));
    OneDisciplined(mv, f1, Refreshes(o), RefreshLog);
    OneDisciplined(mv, f2, o.deleteMasterLogs, GetLogName);
    Append(mv, f0, stop, lock);
    Append(mv, f0, stop + lock, refresh);
    Append(mv, f0, stop + lock + refresh, name);
  }

  lemma ViewingDisciplined(mv: Engines, o: Options, calm: set<Table>)
    requires OnePoint(o)
    ensures Disciplined(mv, LockedFacts(o, calm), Viewing(o))
    ensures AfterAll(LockedFacts(o, calm), Viewing(o)) == SetupFacts(o, calm)
  {
    var start := OnlyIf(o.singleTransaction, [StartSnapshot]);
    var show := OnlyIf(o.masterData != 0, [ShowMasterStatus]);
    var slave := OnlyIf(o.slaveData != 0, [ShowSlaveStatus]);
    var unlock := OnlyIf(o.singleTransaction, [UnlockTables]);
    var f2 := LockedFacts(o, calm);
    var f3 := if o.singleTransaction then f2.(anchored := true, pinned := true, noSnapshot := false) else f2;
    var f4 := f3.(printed := o.masterData != 0);
    OneDisciplined(mv, f2, o.singleTransaction, StartSnapshot);
    OneDisciplined(mv, f3, o.masterData != 0, ShowMasterStatus);
    OneDisciplined(mv, f4, o.slaveData != 0, ShowSlaveStatus);
    OneDisciplined(mv, f4, o.singleTransaction, UnlockTables);
    Append(mv, f2, start, show);
    Append(mv, f2, start + show, slave);
    Append(mv, f2, start + show + slave, unlock);
  }

  lemma OneDisciplined(mv: Engines, f: Facts, c: bool, st: Statement)
    requires c ==> Allowed(mv, f, st)
    ensures Disciplined(mv, f, OnlyIf(c, [st])) && AfterAll(f, OnlyIf(c, [st])) == if c then After(f, st) else f
  {
    if c {
      assert [st][1..] == [];
    }
  }

  lemma LockDisciplined(mv: Engines, f: Facts, c: bool)
    requires !f.anchored
    ensures var xs := OnlyIf(c, [FlushTables, FlushTablesWithReadLock]);
            Disciplined(mv, f, xs) && AfterAll(f, xs) == if c then After(f, FlushTablesWithReadLock) else f
  {
    if c {
      var xs := [FlushTables, FlushTablesWithReadLock];
      assert xs[1..] == [FlushTablesWithReadLock] && xs[1..][1..] == [];
    }
  }

  /** main's setup respects the discipline under every accepted option set, and leaves known facts. */
  lemma SetupDisciplined(mv: Engines, o: Options, calm: set<Table>)
    requires OnePoint(o)
    ensures Disciplined(mv, NothingKnown(o, calm), Setup(o))
    ensures AfterAll(NothingKnown(o, calm), Setup(o)) == SetupFacts(o, calm)
  {
    LockingDisciplined(mv, o, calm);
    ViewingDisciplined(mv, o, calm);
    Append(mv, NothingKnown(o, calm), Locking(o), Viewing(o));
  }

  lemma Append(mv: Engines, f: Facts, xs: seq<Statement>, ys: seq<Statement>)
    requires Disciplined(mv, f, xs) && Disciplined(mv, AfterAll(f, xs), ys)
    ensures Disciplined(mv, f, xs + ys) && AfterAll(f, xs + ys) == AfterAll(AfterAll(f, xs), ys)
  {
    DisciplinedConcat(mv, f, xs, ys);
    AfterAllConcat(f, xs, ys);
  }

  lemma {:induction false} ReadsDisciplined(mv: Engines, f: Facts, xs: seq<Statement>)
    requires OnlyReads(xs)
    requires forall t :: t in TablesRead(xs) ==> Allowed(mv, f, ReadTable(t))
    ensures Disciplined(mv, f, xs) && AfterAll(f, xs) == f
    decreases |xs|
  {
    if xs == [] {
    } else {
      ReadsDisciplined(mv, f, xs[1..]);
    }
  }

  /** Tables that a --single-transaction dump may only read through a read view. */
  ghost predicate Supported(mv: Engines, o: Options, t: Target) {
    o.singleTransaction ==> forall table :: table in Wanted(t) ==> mv(table)
  }

  /** The tables whose definitions a --single-transaction dump needs left alone. */
  function Exposed(o: Options, t: Target): set<Table> {
    if o.singleTransaction then TableSet(Wanted(t)) else {}
  }

  lemma WantedAllowed(mv: Engines, o: Options, t: Target, calm: set<Table>)
    requires OnePoint(o) && Supported(mv, o, t) && calm == Exposed(o, t)
    ensures forall table :: table in Wanted(t) ==> Allowed(mv, SetupFacts(o, calm), ReadTable(table))
  {
  }

  lemma BodyDisciplined(mv: Engines, o: Options, t: Target, calm: set<Table>)
    requires OnePoint(o) && Supported(mv, o, t) && calm == Exposed(o, t)
    ensures Disciplined(mv, SetupFacts(o, calm), Body(o, t))
    ensures AfterAll(SetupFacts(o, calm), Body(o, t)) == SetupFacts(o, calm)
  {
    BodyOnlyReads(o, t);
    BodyReads(o, t);
    WantedAllowed(mv, o, t, calm);
    ReadsDisciplined(mv, SetupFacts(o, calm), Body(o, t));
  }

  lemma EndingDisciplined(mv: Engines, o: Options, calm: set<Table>)
    requires OnePoint(o)
    ensures Disciplined(mv, SetupFacts(o, calm), Ending(o))
    ensures AfterAll(SetupFacts(o, calm), Ending(o)).purged == o.deleteMasterLogs
  {
    var f := SetupFacts(o, calm);
    OneDisciplined(mv, f, o.slaveData != 0, StartSlave);
    OneDisciplined(mv, if o.slaveData != 0 then After(f, StartSlave) else f, o.deleteMasterLogs, PurgeLogs);
    Append(mv, f, OnlyIf(o.slaveData != 0, [StartSlave]), OnlyIf(o.deleteMasterLogs, [PurgeLogs]));
  }

  lemma ScriptDisciplined(mv: Engines, o: Options, t: Target, calm: set<Table>)
    requires OnePoint(o) && Supported(mv, o, t) && calm == Exposed(o, t)
    ensures Disciplined(mv, NothingKnown(o, calm), Script(o, t))
    ensures AfterAll(NothingKnown(o, calm), Script(o, t)).purged == o.deleteMasterLogs
  {
    SetupDisciplined(mv, o, calm);
    var f := SetupFacts(o, calm);
    BodyDisciplined(mv, o, t, calm);
    EndingDisciplined(mv, o, calm);
    Append(mv, f, Body(o, t), Ending(o));
    Append(mv, NothingKnown(o, calm), Setup(o), Body(o, t) + Ending(o));
  }

  // ---------- Main results ----------

  function TablesOf(output: seq<(Table, Rows)>): seq<Table> {
    seq(|output|, i requires 0 <= i < |output| => output[i].0)
  }

  lemma StepReadsInOrder(mv: Engines, s: State, e: Event)
    requires Wellformed(s) && Enabled(s, e)
    ensures var r := Step(mv, s, e);
            TablesOf(r.output) + TablesRead(r.todo) == TablesOf(s.output) + TablesRead(s.todo)
  {
    var r := Step(mv, s, e);
    if e.Client? && s.todo[0].ReadTable? {
      assert TablesOf(r.output) == TablesOf(s.output) + [s.todo[0].table];
      assert TablesRead(s.todo) == [s.todo[0].table] + TablesRead(r.todo);
    } else {
      assert r.output == s.output && TablesRead(r.todo) == TablesRead(s.todo);
    }
  }

  lemma {:induction false} RunReadsInOrder(mv: Engines, s: State, run: seq<Event>, r: State)
    requires Wellformed(s) && Reaches(mv, s, run, r)
    ensures TablesOf(r.output) + TablesRead(r.todo) == TablesOf(s.output) + TablesRead(s.todo)
    decreases |run|
  {
    if run == [] {
    } else {
      StepReadsInOrder(mv, s, run[0]);
      RunReadsInOrder(mv, Step(mv, s, run[0]), run[1..], r);
    }
  }

  lemma LockingReadsNothing(o: Options)
    ensures NoReads(Locking(o))
  {
    var stop := OnlyIf(o.slaveData != 0, [StopSlave]);
    var lock := OnlyIf(TakesGlobalLock(o), [FlushTables, FlushTablesWithReadLock]);
    var refresh := OnlyIf(Refreshes(o), [RefreshLog]);
    NoReadsConcat(stop, lock);
    NoReadsConcat(stop + lock, refresh);
    NoReadsConcat(stop + lock + refresh, OnlyIf(o.deleteMasterLogs, [GetLogName]));
  }

  lemma ViewingReadsNothing(o: Options)
    ensures NoReads(Viewing(o))
  {
    var start := OnlyIf(o.singleTransaction, [StartSnapshot]);
    var show := OnlyIf(o.masterData != 0, [ShowMasterStatus]);
    var slave := OnlyIf(o.slaveData != 0, [ShowSlaveStatus]);
    NoReadsConcat(start, show);
    NoReadsConcat(start + show, slave);
    NoReadsConcat(start + show + slave, OnlyIf(o.singleTransaction, [UnlockTables]));
  }

  lemma SetupReadsNothing(o: Options)
    ensures TablesRead(Setup(o)) == []
  {
    LockingReadsNothing(o);
    ViewingReadsNothing(o);
    NoReadsConcat(Locking(o), Viewing(o));
    TablesReadNone(Setup(o));
  }

  lemma EndingReadsNothing(o: Options)
    ensures TablesRead(Ending(o)) == []
  {
    TablesReadNone(Ending(o));
  }

  lemma ReadsInTheMiddle(xs: seq<Statement>, ys: seq<Statement>, zs: seq<Statement>)
    requires TablesRead(xs) == [] && TablesRead(zs) == []
    ensures TablesRead(xs + (ys + zs)) == TablesRead(ys)
  {
    TablesReadConcat(ys, zs);
    TablesReadConcat(xs, ys + zs);
  }

  lemma ScriptReads(o: Options, t: Target)
    ensures TablesRead(Script(o, t)) == Wanted(t)
  {
    BodyReads(o, t);
    SetupReadsNothing(o);
    EndingReadsNothing(o);
    ReadsInTheMiddle(Setup(o), Body(o, t), Ending(o));
  }

  /** What every run from the start keeps. */
  lemma RunFromStart(mv: Engines, o: Options, t: Target, s: State, run: seq<Event>, r: State)
    returns (f: Facts, k: nat)
    requires OnePoint(o) && Supported(mv, o, t)
    requires Initial(s, o, t) && Reaches(mv, s, run, r) && Calm(run, Exposed(o, t))
    ensures Wellformed(r) && Holds(f, r, k, |s.fileStarts|)
    ensures f.wanted == (o.masterData != 0)
    ensures r.todo == [] ==> f.purged == o.deleteMasterLogs
  {
    var start := NothingKnown(o, Exposed(o, t));
    ScriptDisciplined(mv, o, t, Exposed(o, t));
    f := FactsAfter(start, s.todo, run);
    k := RunKeepsFacts(mv, start, s, 0, |s.fileStarts|, run, r);
    FactsOfRun(start, s.todo, run);
    RunConsumesScript(mv, s, run, r);
  }

  lemma DumpsInOrder(mv: Engines, s: State, run: seq<Event>, r: State, tables: seq<Table>)
    requires Wellformed(s) && s.output == [] && TablesRead(s.todo) == tables && Reaches(mv, s, run, r)
    ensures TablesOf(r.output) <= tables && (r.todo == [] ==> TablesOf(r.output) == tables)
  {
    RunReadsInOrder(mv, s, run, r);
    assert TablesOf(s.output) + tables == tables;
    assert TablesOf(r.output) + TablesRead(r.todo) == tables;
    if r.todo == [] {
      assert TablesOf(r.output) + TablesRead(r.todo) == TablesOf(r.output);
    }
  }

  /** Under any options, what has been dumped is the first tables of the target, in the end all of them. */
  lemma DumpsWantedInOrder(mv: Engines, o: Options, t: Target, s: State, run: seq<Event>, r: State)
    requires Initial(s, o, t) && Reaches(mv, s, run, r)
    ensures TablesOf(r.output) <= Wanted(t) && (r.todo == [] ==> TablesOf(r.output) == Wanted(t))
  {
    ScriptReads(o, t);
    DumpsInOrder(mv, s, run, r, Wanted(t));
  }

  /**
   In every interleaving, every table dumped so far shows one and the same log prefix, and the
   printed coordinate, if there is one, is that prefix. A finished dump holds every table of the
   target, in order. Under --single-transaction the other sessions must leave the definitions of
   the dumped tables alone.
   */
  lemma DumpShowsOnePoint(mv: Engines, o: Options, t: Target, s: State, run: seq<Event>, r: State) returns (k: nat)
    requires OnePoint(o) && Supported(mv, o, t)
    requires Initial(s, o, t) && Reaches(mv, s, run, r) && Calm(run, Exposed(o, t))
    ensures Wellformed(r) && DumpedAt(r, k)
    ensures r.printed.Some? ==> Prefix(r, r.printed.value) == k
    ensures o.masterData != 0 ==> MatchesCoordinate(r)
    ensures r.todo == [] ==> TablesOf(r.output) == Wanted(t)
  {
    var f;
    f, k := RunFromStart(mv, o, t, s, run, r);
    DumpsWantedInOrder(mv, o, t, s, run, r);
  }

  // ---------- Purging depends on no row ----------

  /** The same session but for the rows dumped and for which tables the read view covers. */
  ghost predicate SameButRows(s: State, r: State) {
    r == s.(output := r.output, altered := r.altered)
  }

  /** The event with a change of definition taken for a plain commit. */
  function Plain(e: Event): Event {
    if e.Alter? then Commit(e.writes) else e
  }

  lemma ExecuteBlind(mv: Engines, mv': Engines, s: State, s': State, st: Statement)
    requires Wellformed(s) && Wellformed(s') && SameButRows(s, s')
    ensures SameButRows(Execute(mv, s, st), Execute(mv', s', st))
  {
    match st
    case ReadTable(_) =>
    case _ =>
  }

  lemma StepBlind(mv: Engines, mv': Engines, s: State, s': State, e: Event)
    requires Wellformed(s) && Wellformed(s') && SameButRows(s, s') && Enabled(s, e)
    ensures Enabled(s', Plain(e)) && SameButRows(Step(mv, s, e), Step(mv', s', Plain(e)))
  {
    if e.Client? {
      ExecuteBlind(mv, mv', s, s', s.todo[0]);
    }
  }

  lemma ReachesCons(mv: Engines, s: State, e: Event, run: seq<Event>, r: State)
    requires Wellformed(s) && Enabled(s, e) && Reaches(mv, Step(mv, s, e), run, r)
    ensures Reaches(mv, s, [e] + run, r)
  {
    assert ([e] + run)[1..] == run;
  }

  predicate NoAlter(run: seq<Event>) {
    forall i :: 0 <= i < |run| ==> !run[i].Alter?
  }

  /** Every run has a counterpart, over any storage engines, that changes no definitions and dumps other rows. */
  lemma {:induction false} RowsDoNotMatter(
    mv: Engines, mv': Engines, s: State, s': State, run: seq<Event>, r: State)
    returns (run': seq<Event>, r': State)
    requires Wellformed(s) && Wellformed(s') && SameButRows(s, s') && Reaches(mv, s, run, r)
    ensures Reaches(mv', s', run', r') && SameButRows(r, r')
    ensures NoAlter(run')
    decreases |run|
  {
    if run == [] {
      run', r' := [], s';
    } else {
      StepBlind(mv, mv', s, s', run[0]);
      run', r' := RowsDoNotMatter(mv, mv', Step(mv, s, run[0]), Step(mv', s', Plain(run[0])), run[1..], r);
      ReachesCons(mv', s', Plain(run[0]), run', r');
      run' := [Plain(run[0])] + run';
    }
  }

  ghost predicate AllThroughView(mv: Engines) {
    forall t: Table :: mv(t)
  }

  /** The files that a run which changes no definitions has purged, when all tables are read through the view. */
  lemma PlainRunPurges(mv: Engines, o: Options, t: Target, s: State, run: seq<Event>, r: State)
    requires OnePoint(o) && AllThroughView(mv)
    requires Initial(s, o, t) && Reaches(mv, s, run, r) && NoAlter(run)
    ensures Wellformed(r) && (r.printed.Some? ==> r.firstFile <= r.printed.value.file)
    ensures o.deleteMasterLogs && r.todo == [] ==> |s.fileStarts| <= r.firstFile
  {
    var f, k := RunFromStart(mv, o, t, s, run, r);
  }

  /**
   --delete-master-logs: whatever the tables are stored in, and even when other sessions rotate
   the log in between, the file of the printed coordinate is never purged, and a finished run has
   purged every file that existed when the dump began.
   */
  lemma PurgeKeepsCoordinate(mv: Engines, o: Options, t: Target, s: State, run: seq<Event>, r: State)
    requires OnePoint(o) && Initial(s, o, t) && Reaches(mv, s, run, r)
    ensures Wellformed(r) && (r.printed.Some? ==> r.firstFile <= r.printed.value.file)
    ensures o.deleteMasterLogs && r.todo == [] ==> |s.fileStarts| <= r.firstFile
  {
    var all: Engines := x => true;
    var run', r' := RowsDoNotMatter(mv, all, s, s, run, r);
    assert AllThroughView(all);
    PlainRunPurges(all, o, t, s, run', r');
    RunWellformed(mv, s, run, r);
  }
}
