/**
 What --lock-tables, the default, gives: the tables of one database show one and the same log
 prefix in every interleaving, although different databases may show different ones.
 */
module DumpLocks {
  import opened DumpOptions
  import opened Helpers
  import opened DumpProtocol
  import opened DumpLimits

  /** The entries from n up to m of the output show what the first k transactions produced. */
  ghost predicate Shows(s: State, n: nat, m: nat, k: nat) {
    && k <= |s.log| && m <= |s.output|
    && forall i :: n <= i < m ==> s.output[i].1 == ContentsAt(s.log[..k], s.output[i].0)
  }

  /** No step takes back what was committed or dumped. */
  lemma StepGrows(mv: Engines, s: State, e: Event)
    requires Wellformed(s) && Enabled(s, e)
    ensures s.log <= Step(mv, s, e).log && s.output <= Step(mv, s, e).output
  {
    if e.Client? && s.todo[0].ReadTable? {
      assert s.output <= Step(mv, s, e).output;
    } else {
      assert s.output == Step(mv, s, e).output;
    }
  }

  lemma StepKeepsShown(s: State, r: State, n: nat, m: nat, k: nat)
    requires s.log <= r.log && s.output <= r.output && Shows(s, n, m, k)
    ensures Shows(r, n, m, k)
  {
    assert r.log[..k] == s.log[..k];
  }

  lemma {:induction false} RunKeepsShown(
    mv: Engines, s: State, run: seq<Event>, r: State, n: nat, m: nat, k: nat)
    requires Wellformed(s) && Reaches(mv, s, run, r) && Shows(s, n, m, k)
    ensures Shows(r, n, m, k)
    decreases |run|
  {
    if run == [] {
    } else {
      StepGrows(mv, s, run[0]);
      StepKeepsShown(s, Step(mv, s, run[0]), n, m, k);
      RunKeepsShown(mv, Step(mv, s, run[0]), run[1..], r, n, m, k);
    }
  }

  /** r has dumped more than s, and nothing was committed in between. */
  ghost predicate Extends(s: State, r: State) {
    r.log == s.log && s.output <= r.output
  }

  lemma ExtendsOn(s: State, m: State, r: State)
    requires Extends(s, m) && Extends(m, r)
    ensures Extends(s, r)
  {
  }

  lemma StepDumps(mv: Engines, s: State)
    requires Wellformed(s) && s.todo != []
    ensures Extends(s, Step(mv, s, Client))
    ensures |Step(mv, s, Client).output| == |s.output| + if s.todo[0].ReadTable? then 1 else 0
  {
    StepGrows(mv, s, Client);
  }

  lemma StepAdvances(mv: Engines, s: State, first: seq<Statement>, rest: seq<Statement>)
    requires Wellformed(s) && s.todo == first + rest && first != []
    ensures s.todo[0] == first[0] && Step(mv, s, Client).todo == first[1..] + rest
    ensures |Step(mv, s, Client).output| + |TablesRead(first[1..])| == |s.output| + |TablesRead(first)|
  {
    StepDumps(mv, s);
  }

  // ---------- While a database's tables are locked ----------

  /** The tables are locked and as the first k transactions left them, and so is what was dumped since n. */
  ghost predicate Guarded(s: State, tables: set<Table>, n: nat, k: nat) {
    && Shows(s, n, |s.output|, k)
    && s.snapshot.None? && tables <= s.tableLocks
    && forall t :: t in tables ==> ContentsAt(s.log, t) == ContentsAt(s.log[..k], t)
  }

  /** Reads one of the tables, or cuts the log. */
  predicate InBlock(st: Statement, tables: set<Table>) {
    st.RefreshLog? || (st.ReadTable? && st.table in tables)
  }

  predicate Block(xs: seq<Statement>, tables: set<Table>) {
    forall i :: 0 <= i < |xs| ==> InBlock(xs[i], tables)
  }

  lemma ClientKeepsGuard(mv: Engines, s: State, tables: set<Table>, n: nat, k: nat)
    requires Wellformed(s) && s.todo != [] && InBlock(s.todo[0], tables) && Guarded(s, tables, n, k)
    ensures Guarded(Step(mv, s, Client), tables, n, k)
  {
    assert s.log[..|s.log|] == s.log;
  }

  /** The locks keep other sessions' changes away from the tables. */
  lemma OthersKeepGuard(mv: Engines, s: State, e: Event, tables: set<Table>, n: nat, k: nat)
    requires Wellformed(s) && Enabled(s, e) && !e.Client? && Guarded(s, tables, n, k)
    ensures Guarded(Step(mv, s, e), tables, n, k)
  {
    var r := Step(mv, s, e);
    assert r.log[..k] == s.log[..k];
    if !e.Rotate? {
      assert r.log[..|r.log| - 1] == s.log;
    }
  }

  /** From the lock on: what the block reads shows the prefix at which the lock was taken. */
  lemma {:induction false} BlockShown(
    mv: Engines, s: State, run: seq<Event>, r: State, tables: set<Table>, block: seq<Statement>,
    after: seq<Statement>, n: nat, k: nat)
    requires Wellformed(s) && Reaches(mv, s, run, r) && |r.todo| <= |after|
    requires s.todo == block + after && Block(block, tables) && Guarded(s, tables, n, k)
    ensures Shows(r, n, |s.output| + |TablesRead(block)|, k)
    decreases |run|
  {
    if block == [] {
      RunKeepsShown(mv, s, run, r, n, |s.output|, k);
    } else {
      assert run != [];
      if run[0].Client? {
        StepAdvances(mv, s, block, after);
        ClientKeepsGuard(mv, s, tables, n, k);
        BlockShown(mv, Step(mv, s, Client), run[1..], r, tables, block[1..], after, n, k);
      } else {
        OthersKeepGuard(mv, s, run[0], tables, n, k);
        BlockShown(mv, Step(mv, s, run[0]), run[1..], r, tables, block, after, n, k);
      }
    }
  }

  lemma LockGuards(mv: Engines, s: State, tables: set<Table>)
    requires Wellformed(s) && s.todo != [] && s.todo[0] == LockTables(tables)
    ensures Guarded(Step(mv, s, Client), tables, |s.output|, |s.log|) && Step(mv, s, Client).output == s.output
  {
    assert s.log[..|s.log|] == s.log;
  }

  /** The statements for one database, from LOCK TABLES on. */
  function Locked(tables: set<Table>, block: seq<Statement>, after: seq<Statement>): seq<Statement> {
    [LockTables(tables)] + (block + after)
  }

  lemma {:induction false} LockShown(
    mv: Engines, s: State, run: seq<Event>, r: State, tables: set<Table>, block: seq<Statement>,
    after: seq<Statement>) returns (k: nat)
    requires Wellformed(s) && Reaches(mv, s, run, r) && |r.todo| <= |after|
    requires s.todo == Locked(tables, block, after) && Block(block, tables)
    ensures Shows(r, |s.output|, |s.output| + |TablesRead(block)|, k)
    decreases |run|
  {
    assert run != [];
    if run[0].Client? {
      k := |s.log|;
      LockGuards(mv, s, tables);
      assert s.todo[1..] == block + after;
      BlockShown(mv, Step(mv, s, Client), run[1..], r, tables, block, after, |s.output|, k);
    } else {
      k := LockShown(mv, Step(mv, s, run[0]), run[1..], r, tables, block, after);
    }
  }

  /** The same from any earlier point of the script, once the client is past the block. */
  lemma {:induction false} LaterBlockShown(
    mv: Engines, s: State, run: seq<Event>, r: State, before: seq<Statement>, tables: set<Table>,
    block: seq<Statement>, after: seq<Statement>) returns (k: nat)
    requires Wellformed(s) && Reaches(mv, s, run, r) && |r.todo| <= |after|
    requires s.todo == before + Locked(tables, block, after) && Block(block, tables)
    ensures var n := |s.output| + |TablesRead(before)|; Shows(r, n, n + |TablesRead(block)|, k)
    decreases |run|
  {
    if before == [] {
      assert s.todo == Locked(tables, block, after);
      k := LockShown(mv, s, run, r, tables, block, after);
    } else {
      assert run != [];
      if run[0].Client? {
        StepAdvances(mv, s, before, Locked(tables, block, after));
        k := LaterBlockShown(mv, Step(mv, s, Client), run[1..], r, before[1..], tables, block, after);
      } else {
        k := LaterBlockShown(mv, Step(mv, s, run[0]), run[1..], r, before, tables, block, after);
      }
    }
  }

  // ---------- Runs that stop anywhere ----------

  /** The statements end by releasing every lock. */
  predicate EndsUnlocked(xs: seq<Statement>) {
    xs != [] && xs[|xs| - 1].UnlockTables?
  }

  /** The client alone commits nothing. */
  lemma {:induction false} AloneExtends(mv: Engines, s: State, n: nat)
    requires Wellformed(s) && n <= |s.todo|
    ensures Extends(s, Alone(mv, s, n))
    decreases n
  {
    if n == 0 {
    } else {
      StepDumps(mv, s);
      AloneExtends(mv, Step(mv, s, Client), n - 1);
      ExtendsOn(s, Step(mv, s, Client), Alone(mv, s, n));
    }
  }

  lemma {:induction false} AloneUnlocks(mv: Engines, s: State, n: nat)
    requires Wellformed(s) && n <= |s.todo| && EndsUnlocked(s.todo[..n])
    ensures !Alone(mv, s, n).globalLock && Alone(mv, s, n).tableLocks == {}
    decreases n
  {
    if n == 1 {
      assert Alone(mv, Step(mv, s, Client), 0) == Step(mv, s, Client);
    } else {
      assert s.todo[1..][..n - 1] == s.todo[..n][1..];
      AloneUnlocks(mv, Step(mv, s, Client), n - 1);
    }
  }

  /** What has been dumped of the entries from n up to m shows what the first k transactions produced. */
  ghost predicate ShowsSoFar(s: State, n: nat, m: nat, k: nat) {
    && k <= |s.log|
    && forall i :: n <= i < m && i < |s.output| ==> s.output[i].1 == ContentsAt(s.log[..k], s.output[i].0)
  }

  lemma BlockShowsOnePoint(
    mv: Engines, s: State, run: seq<Event>, r: State, before: seq<Statement>, tables: set<Table>,
    block: seq<Statement>, after: seq<Statement>) returns (k: nat)
    requires Wellformed(s) && Reaches(mv, s, run, r)
    requires s.todo == before + Locked(tables, block, after) && Block(block, tables)
    ensures var n := |s.output| + |TablesRead(before)|; ShowsSoFar(r, n, n + |TablesRead(block)|, k)
  {
    RunWellformed(mv, s, run, r);
    var end := Alone(mv, r, |r.todo|);
    AloneReaches(mv, r, |r.todo|);
    AloneExtends(mv, r, |r.todo|);
    ReachesConcat(mv, s, run, r, Clients(|r.todo|), end);
    k := LaterBlockShown(mv, s, run + Clients(|r.todo|), end, before, tables, block, after);
    assert forall i :: 0 <= i < |r.output| ==> r.output[i] == end.output[i];
  }

  lemma ShowsAll(s: State, tables: seq<Table>, k: nat)
    requires TablesOf(s.output) <= tables && ShowsSoFar(s, 0, |tables|, k)
    ensures DumpedAt(s, k)
  {
    assert |s.output| == |TablesOf(s.output)| <= |tables|;
  }

  // ---------- The place of one database in the script ----------

  lemma {:induction false} TablePhaseSplits(
    o: Options, databases: seq<Database>, events: bool, routines: bool, i: nat)
    requires i <= |databases|
    ensures DumpAllTables(o, databases, events, routines) ==
            DumpAllTables(o, databases[..i], events, routines) + DumpAllTables(o, databases[i..], events, routines)
    decreases i
  {
    if i == 0 {
      assert databases[..0] == [] && databases[0..] == databases;
    } else {
      TablePhaseSplits(o, databases[1..], events, routines, i - 1);
      assert databases[..i][1..] == databases[1..][..i - 1] && databases[1..][i - 1..] == databases[i..];
      Reassociate(DumpTables(o, databases[0], events, routines),
                  DumpAllTables(o, databases[1..][..i - 1], events, routines),
                  DumpAllTables(o, databases[i..], events, routines));
    }
  }

  lemma {:induction false} AllTablesSplit(databases: seq<Database>, i: nat)
    requires i < |databases|
    ensures AllTables(databases[..i + 1]) == AllTables(databases[..i]) + databases[i].tables
    decreases i
  {
    if i == 0 {
      assert databases[..1] == [databases[0]] && databases[..1][1..] == [] && databases[..0] == [];
    } else {
      AllTablesSplit(databases[1..], i - 1);
      assert databases[..i + 1][1..] == databases[1..][..i] && databases[..i][1..] == databases[1..][..i - 1];
      Reassociate(databases[0].tables, AllTables(databases[1..][..i - 1]), databases[i].tables);
    }
  }

  /** What is read under one database's lock. */
  function Reading(o: Options, d: Database): seq<Statement> {
    OnlyIf(FlushesLogsPerDatabase(o), [RefreshLog]) + Reads(d.tables)
  }

  lemma ReadingIsBlock(o: Options, d: Database)
    ensures Block(Reading(o, d), TableSet(d.tables + d.views)) && TablesRead(Reading(o, d)) == d.tables
  {
    var flush := OnlyIf(FlushesLogsPerDatabase(o), [RefreshLog]);
    ReadsAmong(flush, d.tables, []);
    assert flush + Reads(d.tables) + [] == Reading(o, d);
  }

  lemma {:induction false} TablePhaseUnlocks(o: Options, databases: seq<Database>, events: bool, routines: bool)
    requires o.lockTables && databases != []
    ensures EndsUnlocked(DumpAllTables(o, databases, events, routines))
    decreases |databases|
  {
    var now := DumpTables(o, databases[0], events, routines);
    assert EndsUnlocked(now);
    if databases[1..] == [] {
      assert DumpAllTables(o, databases, events, routines) == now;
    } else {
      TablePhaseUnlocks(o, databases[1..], events, routines);
    }
  }

  lemma OpeningLocks(o: Options, d: Database, closing: seq<Statement>, rest: seq<Statement>)
    ensures Opening(o, d, true) + Reads(d.tables) + closing + rest ==
            Locked(TableSet(d.tables + d.views), Reading(o, d), closing + rest)
  {
  }

  lemma Regroup(
    setup: seq<Statement>, earlier: seq<Statement>, now: seq<Statement>, later: seq<Statement>,
    views: seq<Statement>, ending: seq<Statement>)
    ensures setup + (earlier + (now + later) + views + ending) ==
            setup + earlier + (now + (later + (views + ending)))
  {
  }

  /** What comes before a database in the script. */
  function Before(o: Options, databases: seq<Database>, events: bool, routines: bool): seq<Statement> {
    Setup(o) + DumpAllTables(o, databases, events, routines)
  }

  lemma BeforeReads(o: Options, databases: seq<Database>, events: bool, routines: bool)
    ensures TablesRead(Before(o, databases, events, routines)) == AllTables(databases)
    ensures o.lockTables && databases != [] ==> EndsUnlocked(Before(o, databases, events, routines))
  {
    SetupReadsNothing(o);
    TablePhaseReads(o, databases, events, routines);
    TablesReadConcat(Setup(o), DumpAllTables(o, databases, events, routines));
    if o.lockTables && databases != [] {
      TablePhaseUnlocks(o, databases, events, routines);
    }
  }

  /** Where database i stands in the script. */
  lemma ScriptAt(o: Options, databases: seq<Database>, events: bool, routines: bool, i: nat)
    returns (rest: seq<Statement>)
    requires i < |databases|
    ensures Script(o, Databases(databases, events, routines)) ==
            Before(o, databases[..i], events, routines) + (DumpTables(o, databases[i], events, routines) + rest)
  {
    var later := DumpAllTables(o, databases[i + 1..], events, routines);
    var views := OnlyIf(SeenViews(databases), DumpAllViews(o, databases));
    rest := later + (views + Ending(o));
    TablePhaseSplits(o, databases, events, routines, i);
    assert databases[i..][1..] == databases[i + 1..];
    Regroup(Setup(o), DumpAllTables(o, databases[..i], events, routines), DumpTables(o, databases[i], events, routines),
            later, views, Ending(o));
  }

  /** The script from LOCK TABLES for a database on. */
  function FromLock(o: Options, d: Database, after: seq<Statement>): seq<Statement> {
    Locked(TableSet(d.tables + d.views), Reading(o, d), after)
  }

  lemma ScriptLocks(o: Options, databases: seq<Database>, events: bool, routines: bool, i: nat)
    returns (after: seq<Statement>)
    requires o.lockTables && i < |databases| && databases[i].tables != []
    ensures Script(o, Databases(databases, events, routines)) ==
            Before(o, databases[..i], events, routines) + FromLock(o, databases[i], after)
  {
    var rest := ScriptAt(o, databases, events, routines, i);
    after := Closing(o, 0, events, routines) + rest;
    OpeningLocks(o, databases[i], Closing(o, 0, events, routines), rest);
  }

  /** What one database's part of a script dumps. */
  lemma PartShowsOnePoint(
    mv: Engines, o: Options, s: State, run: seq<Event>, r: State, before: seq<Statement>, d: Database,
    after: seq<Statement>) returns (k: nat)
    requires Wellformed(s) && s.output == [] && Reaches(mv, s, run, r)
    requires s.todo == before + FromLock(o, d, after)
    ensures ShowsSoFar(r, |TablesRead(before)|, |TablesRead(before)| + |d.tables|, k)
  {
    ReadingIsBlock(o, d);
    k := BlockShowsOnePoint(mv, s, run, r, before, TableSet(d.tables + d.views), Reading(o, d), after);
  }

  lemma ScriptLocksSelected(o: Options, d: Database, events: bool, routines: bool) returns (after: seq<Statement>)
    requires o.lockTables && !d.virtual
    ensures Script(o, Selected(d, events, routines)) == Setup(o) + FromLock(o, d, after)
  {
    var closing := Closing(o, ViewPass(d), events, routines);
    after := closing + Ending(o);
    OpeningLocks(o, d, closing, Ending(o));
  }

  // ---------- Main results ----------

  /**
   --lock-tables: in every interleaving, what has been dumped of one database is the first of its
   tables, in order, and all of them show one and the same log prefix.
   */
  lemma LockedDatabaseShowsOnePoint(
    mv: Engines, o: Options, t: Target, s: State, run: seq<Event>, r: State, i: nat) returns (k: nat)
    requires o.lockTables && t.Databases? && i < |t.databases|
    requires Initial(s, o, t) && Reaches(mv, s, run, r)
    ensures k <= |r.log| && TablesOf(r.output) <= Wanted(t)
    ensures ShowsSoFar(r, |AllTables(t.databases[..i])|, |AllTables(t.databases[..i + 1])|, k)
  {
    DumpsWantedInOrder(mv, o, t, s, run, r);
    AllTablesSplit(t.databases, i);
    if t.databases[i].tables == [] {
      k := 0;
    } else {
      var after := ScriptLocks(o, t.databases, t.events, t.routines, i);
      BeforeReads(o, t.databases[..i], t.events, t.routines);
      var before := Before(o, t.databases[..i], t.events, t.routines);
      k := PartShowsOnePoint(mv, o, s, run, r, before, t.databases[i], after);
    }
  }

  /** The same for tables named on the command line that can be locked: the whole dump shows one log prefix. */
  lemma LockedSelectionShowsOnePoint(mv: Engines, o: Options, t: Target, s: State, run: seq<Event>, r: State)
    returns (k: nat)
    requires o.lockTables && t.Selected? && !t.database.virtual
    requires Initial(s, o, t) && Reaches(mv, s, run, r)
    ensures DumpedAt(r, k) && TablesOf(r.output) <= Wanted(t)
  {
    DumpsWantedInOrder(mv, o, t, s, run, r);
    var after := ScriptLocksSelected(o, t.database, t.events, t.routines);
    SetupReadsNothing(o);
    k := PartShowsOnePoint(mv, o, s, run, r, Setup(o), t.database, after);
    ShowsAll(r, t.database.tables, k);
  }

  // ---------- One prefix for each database, and no more ----------

  /** Rows that the table has never held along the log. */
  function NeverHeld(log: seq<Transaction>, t: Table): Rows {
    if log == [] then ["a row"] else NeverHeld(log[..|log| - 1], t) + ContentsAt(log, t) + ["a row"]
  }

  lemma {:induction false} NeverHeldIsLonger(log: seq<Transaction>, t: Table, k: nat)
    requires k <= |log|
    ensures |ContentsAt(log[..k], t)| < |NeverHeld(log, t)|
    decreases |log|
  {
    if k == |log| {
      assert log[..k] == log;
    } else {
      NeverHeldIsLonger(log[..|log| - 1], t, k);
      assert log[..|log| - 1][..k] == log[..k];
    }
  }

  /** A commit that leaves no prefix at which a holds x and b what b holds after it. */
  function Torn(log: seq<Transaction>, a: Table, x: Rows, b: Table): (w: Transaction) {
    map[a := x + ["another row"]][b := x + NeverHeld(log, b)]
  }

  lemma TornApart(log: seq<Transaction>, a: Table, x: Rows, b: Table, k: nat)
    requires k <= |log| + 1
    ensures var after := log + [Torn(log, a, x, b)];
            !(ContentsAt(after[..k], a) == x && ContentsAt(after[..k], b) == ContentsAt(after, b))
  {
    var after := log + [Torn(log, a, x, b)];
    NeverHeldIsLonger(log, b, |log|);
    if k == |after| {
      assert after[..k] == after;
    } else {
      NeverHeldIsLonger(log, b, k);
      assert after[..k] == log[..k];
    }
  }

  /** Two dumped tables that no prefix explains. */
  lemma NoPrefix(s: State, i: nat, j: nat, log: seq<Transaction>)
    requires i < |s.output| && j < |s.output|
    requires s.log == log + [Torn(log, s.output[i].0, s.output[i].1, s.output[j].0)]
    requires s.output[j].1 == ContentsAt(s.log, s.output[j].0)
    ensures forall k :: !DumpedAt(s, k)
  {
    forall k: nat
      ensures !DumpedAt(s, k)
    {
      if k <= |s.log| {
        TornApart(log, s.output[i].0, s.output[i].1, s.output[j].0, k);
      }
    }
  }

  /** The client alone takes the lock and reads: the rows are as the lock found them. */
  lemma LockedAlone(mv: Engines, s: State, tables: set<Table>, block: seq<Statement>, after: seq<Statement>)
    requires Wellformed(s) && s.todo == Locked(tables, block, after) && Block(block, tables)
    ensures Shows(Alone(mv, s, |block| + 1), |s.output|, |s.output| + |TablesRead(block)|, |s.log|)
  {
    LockGuards(mv, s, tables);
    var m := Step(mv, s, Client);
    assert s.todo[1..] == block + after;
    AloneReaches(mv, m, |block|);
    BlockShown(mv, m, Clients(|block|), Alone(mv, m, |block|), tables, block, after, |s.output|, |s.log|);
  }

  lemma LockedReads(tables: set<Table>, block: seq<Statement>, after: seq<Statement>)
    ensures TablesRead(Locked(tables, block, after)) == TablesRead(block) + TablesRead(after)
  {
    TablesReadConcat(block, after);
    assert Locked(tables, block, after)[1..] == block + after;
  }

  /** The first entry that the block adds. */
  lemma FirstOfBlock(mv: Engines, s: State, run: seq<Event>, r: State, tables: set<Table>, block: seq<Statement>,
                     after: seq<Statement>)
    requires Wellformed(s) && Reaches(mv, s, run, r) && s.todo == Locked(tables, block, after)
    requires TablesRead(block) != [] && |s.output| < |r.output|
    ensures r.output[|s.output|].0 == TablesRead(block)[0]
  {
    RunReadsInOrder(mv, s, run, r);
    LockedReads(tables, block, after);
    assert (TablesOf(r.output) + TablesRead(r.todo))[|s.output|] == r.output[|s.output|].0;
  }

  /** A commit between two databases reaches the second only. */
  lemma CommitBetween(mv: Engines, m: State, tables: set<Table>, block: seq<Statement>, after: seq<Statement>)
    returns (run: seq<Event>, r: State)
    requires Wellformed(m) && !m.globalLock && m.tableLocks == {} && m.output != []
    requires m.todo == Locked(tables, block, after) && Block(block, tables) && TablesRead(block) != []
    ensures Reaches(mv, m, run, r) && forall k :: !DumpedAt(r, k)
  {
    var commit := Commit(Torn(m.log, m.output[0].0, m.output[0].1, TablesRead(block)[0]));
    var m' := Step(mv, m, commit);
    r := Alone(mv, m', |block| + 1);
    LockedAlone(mv, m', tables, block, after);
    AloneReaches(mv, m', |block| + 1);
    AloneExtends(mv, m', |block| + 1);
    FirstOfBlock(mv, m', Clients(|block| + 1), r, tables, block, after);
    assert r.log[..|m'.log|] == r.log && r.output[0] == m.output[0];
    NoPrefix(r, 0, |m.output|, m.log);
    ReachesCons(mv, m, commit, Clients(|block| + 1), r);
    run := [commit] + Clients(|block| + 1);
  }

  lemma {:induction false} SomeTables(databases: seq<Database>, i: nat)
    requires i < |databases| && databases[i].tables != []
    ensures AllTables(databases) != []
    decreases i
  {
    if i == 0 {
    } else {
      SomeTables(databases[1..], i - 1);
    }
  }

  /** The client alone gets to a lock that follows a dumped database. */
  lemma ToLock(mv: Engines, s: State, before: seq<Statement>, rest: seq<Statement>) returns (m: State)
    requires Wellformed(s) && s.output == [] && s.todo == before + rest
    requires TablesRead(before) != [] && EndsUnlocked(before)
    ensures Wellformed(m) && Reaches(mv, s, Clients(|before|), m)
    ensures !m.globalLock && m.tableLocks == {} && m.output != [] && m.todo == rest
  {
    assert s.todo[..|before|] == before;
    m := Alone(mv, s, |before|);
    AloneReaches(mv, s, |before|);
    AloneUnlocks(mv, s, |before|);
    RunReadsInOrder(mv, s, Clients(|before|), m);
    TablesReadConcat(before, rest);
    assert |TablesOf(m.output)| == |TablesRead(before)|;
  }

  /** With tables in two databases, some run dumps them as they never were at one time. */
  lemma TwoDatabasesCanDisagree(mv: Engines, o: Options, t: Target, s: State, i: nat, j: nat)
    returns (run: seq<Event>, r: State)
    requires o.lockTables && t.Databases? && Initial(s, o, t) && i < j < |t.databases|
    requires t.databases[i].tables != [] && t.databases[j].tables != []
    ensures Reaches(mv, s, run, r) && forall k :: !DumpedAt(r, k)
  {
    var d := t.databases[j];
    var before := Before(o, t.databases[..j], t.events, t.routines);
    SomeTables(t.databases[..j], i);
    BeforeReads(o, t.databases[..j], t.events, t.routines);
    var after := ScriptLocks(o, t.databases, t.events, t.routines, j);
    var m := ToLock(mv, s, before, FromLock(o, d, after));
    ReadingIsBlock(o, d);
    run, r := CommitBetween(mv, m, TableSet(d.tables + d.views), Reading(o, d), after);
    ReachesConcat(mv, s, Clients(|before|), m, run, r);
    run := Clients(|before|) + run;
  }

  predicate OneWithTables(databases: seq<Database>) {
    forall i, j :: 0 <= i < j < |databases| ==> databases[i].tables == [] || databases[j].tables == []
  }

  lemma {:induction false} NoTables(databases: seq<Database>)
    requires forall i :: 0 <= i < |databases| ==> databases[i].tables == []
    ensures AllTables(databases) == []
    decreases |databases|
  {
    if databases == [] {
    } else {
      NoTables(databases[1..]);
    }
  }

  /** All the tables are those of one of the databases. */
  lemma {:induction false} TheOne(databases: seq<Database>) returns (i: nat)
    requires OneWithTables(databases) && databases != []
    ensures i < |databases| && AllTables(databases[..i]) == [] && AllTables(databases[..i + 1]) == AllTables(databases)
    decreases |databases|
  {
    if databases[0].tables != [] || |databases| == 1 {
      i := 0;
      NoTables(databases[1..]);
      assert databases[..1][1..] == [];
    } else {
      i := TheOne(databases[1..]);
      assert databases[..i + 1][1..] == databases[1..][..i] && databases[..i + 2][1..] == databases[1..][..i + 1];
      i := i + 1;
    }
  }

  /** If the run leads to r, what r has dumped shows one log prefix. */
  ghost predicate OneMoment(mv: Engines, s: State, run: seq<Event>, r: State)
    requires Wellformed(s)
  {
    Reaches(mv, s, run, r) ==> exists k :: DumpedAt(r, k)
  }

  lemma OneDatabaseAgrees(mv: Engines, o: Options, t: Target, s: State, run: seq<Event>, r: State)
    requires o.lockTables && t.Databases? && Initial(s, o, t) && OneWithTables(t.databases)
    ensures OneMoment(mv, s, run, r)
  {
    if Reaches(mv, s, run, r) {
      DumpsWantedInOrder(mv, o, t, s, run, r);
      if t.databases == [] {
        ShowsAll(r, [], 0);
      } else {
        var i := TheOne(t.databases);
        var k := LockedDatabaseShowsOnePoint(mv, o, t, s, run, r, i);
        ShowsAll(r, AllTables(t.databases), k);
      }
    }
  }

  /**
   --lock-tables makes the whole dump show one log prefix, in every interleaving, exactly when at
   most one of the databases has tables to dump.
   */
  lemma OneMomentExactlyForOneDatabase(mv: Engines, o: Options, t: Target, s: State)
    requires o.lockTables && t.Databases? && Initial(s, o, t)
    ensures OneWithTables(t.databases) <==> forall run, r :: OneMoment(mv, s, run, r)
  {
    if OneWithTables(t.databases) {
      forall run, r
        ensures OneMoment(mv, s, run, r)
      {
        OneDatabaseAgrees(mv, o, t, s, run, r);
      }
    } else {
      var i: nat, j: nat :| i < j < |t.databases| && t.databases[i].tables != [] && t.databases[j].tables != [];
      var run, r := TwoDatabasesCanDisagree(mv, o, t, s, i, j);
      assert !OneMoment(mv, s, run, r);
    }
  }
}
