/**
 The other half of the dump guarantee: a --single-transaction dump of a table that is not read
 through a read view, or whose definition another session changes meanwhile, can disagree with the
 coordinate it prints, and these are the only ways.
 */
module DumpLimits {
  import opened DumpOptions
  import opened Helpers
  import opened DumpProtocol

  function Clients(n: nat): seq<Event> {
    seq(n, i => Client)
  }

  lemma HeadFirst(first: seq<Event>, second: seq<Event>)
    requires first != []
    ensures [first[0]] + (first[1..] + second) == first + second
  {
  }

  lemma {:induction false} ReachesConcat(
    mv: Engines, s: State, first: seq<Event>, m: State, second: seq<Event>, r: State)
    requires Wellformed(s) && Reaches(mv, s, first, m) && Wellformed(m) && Reaches(mv, m, second, r)
    ensures Reaches(mv, s, first + second, r)
    decreases |first|
  {
    if first == [] {
      assert first + second == second;
    } else {
      ReachesConcat(mv, Step(mv, s, first[0]), first[1..], m, second, r);
      ReachesCons(mv, s, first[0], first[1..] + second, r);
      HeadFirst(first, second);
    }
  }

  lemma ClientsCons(n: nat)
    requires n > 0
    ensures [Client] + Clients(n - 1) == Clients(n)
  {
  }

  /** The client alone executes its next n statements. */
  ghost function Alone(mv: Engines, s: State, n: nat): (r: State)
    requires Wellformed(s) && n <= |s.todo|
    ensures Wellformed(r) && r.todo == s.todo[n..]
    decreases n
  {
    if n == 0 then s else Alone(mv, Step(mv, s, Client), n - 1)
  }

  lemma {:induction false} AloneReaches(mv: Engines, s: State, n: nat)
    requires Wellformed(s) && n <= |s.todo|
    ensures Reaches(mv, s, Clients(n), Alone(mv, s, n))
    decreases n
  {
    if n == 0 {
    } else {
      var next := Step(mv, s, Client);
      AloneReaches(mv, next, n - 1);
      ReachesCons(mv, s, Client, Clients(n - 1), Alone(mv, next, n - 1));
      ClientsCons(n);
    }
  }

  /** The client alone executes statements that respect the discipline. */
  lemma {:induction false} AloneKeepsFacts(mv: Engines, f: Facts, s: State, k: nat, n: nat, xs: seq<Statement>)
    returns (k': nat)
    requires Wellformed(s) && Holds(f, s, k, n) && Disciplined(mv, f, xs) && xs <= s.todo
    ensures Holds(AfterAll(f, xs), Alone(mv, s, |xs|), k', n)
    decreases |xs|
  {
    if xs == [] {
      k' := k;
    } else {
      assert s.todo[0] == xs[0] && xs[1..] <= s.todo[1..];
      k' := ClientKeepsFacts(mv, f, s, k, n);
      k' := AloneKeepsFacts(mv, After(f, xs[0]), Step(mv, s, Client), k', n, xs[1..]);
    }
  }

  lemma InitialHolds(o: Options, t: Target, s: State)
    requires Initial(s, o, t)
    ensures Holds(NothingKnown(o, {}), s, 0, |s.fileStarts|)
  {
  }

  /** The client alone gets through the setup, and is then at the dump phase with nothing locked. */
  lemma SetupAlone(mv: Engines, o: Options, t: Target, s: State) returns (k: nat, ready: State)
    requires Accepted(o) && o.masterData != 0 && o.singleTransaction && Initial(s, o, t)
    ensures Wellformed(ready) && Reaches(mv, s, Clients(|Setup(o)|), ready)
    ensures !ready.globalLock && ready.tableLocks == {} && ready.todo == Body(o, t) + Ending(o)
    ensures ready.printed.Some? && Prefix(ready, ready.printed.value) == k <= |ready.log|
  {
    SetupDisciplined(mv, o, {});
    InitialHolds(o, t, s);
    k := AloneKeepsFacts(mv, NothingKnown(o, {}), s, 0, |s.fileStarts|, Setup(o));
    ready := Alone(mv, s, |Setup(o)|);
    AloneReaches(mv, s, |Setup(o)|);
  }

  /** What has been dumped since there were n entries, of tables outside the read view, is current. */
  ghost predicate Current(mv: Engines, s: State, n: nat) {
    forall i :: n <= i < |s.output| && Outside(mv, s, s.output[i].0) ==>
      s.output[i].1 == ContentsAt(s.log, s.output[i].0)
  }

  predicate Outside(mv: Engines, s: State, t: Table) {
    !mv(t) || t in s.altered
  }

  /** r has dumped these tables since s, and nothing else happened. */
  ghost predicate Dumped(mv: Engines, s: State, r: State, n: nat, tables: seq<Table>) {
    && r.log == s.log && r.printed == s.printed && r.fileStarts == s.fileStarts && r.altered == s.altered
    && Current(mv, r, n)
    && TablesOf(r.output) == TablesOf(s.output) + tables
  }

  lemma DumpedOn(mv: Engines, s: State, m: State, r: State, n: nat, first: seq<Table>, second: seq<Table>)
    requires Dumped(mv, s, m, n, first) && Dumped(mv, m, r, n, second)
    ensures Dumped(mv, s, r, n, first + second)
  {
    Reassociate(TablesOf(s.output), first, second);
  }

  /** Reading changes nothing but the output. */
  lemma ReadOne(mv: Engines, s: State, n: nat, xs: seq<Statement>)
    requires Wellformed(s) && xs != [] && xs <= s.todo && OnlyReads(xs) && Current(mv, s, n)
    ensures Dumped(mv, s, Step(mv, s, Client), n, TablesRead([xs[0]]))
  {
    assert [xs[0]][1..] == [] && s.todo[0] == xs[0];
    assert s.log[..|s.log|] == s.log;
  }

  lemma FirstRead(xs: seq<Statement>)
    requires xs != []
    ensures TablesRead(xs) == TablesRead([xs[0]]) + TablesRead(xs[1..])
  {
    assert xs == [xs[0]] + xs[1..];
    TablesReadConcat([xs[0]], xs[1..]);
  }

  lemma DumpedNothing(mv: Engines, s: State, n: nat)
    requires Current(mv, s, n)
    ensures Dumped(mv, s, s, n, [])
  {
    assert TablesOf(s.output) + [] == TablesOf(s.output);
  }

  lemma ReadOn(mv: Engines, s: State, m: State, r: State, n: nat, xs: seq<Statement>)
    requires xs != [] && Dumped(mv, s, m, n, TablesRead([xs[0]])) && Dumped(mv, m, r, n, TablesRead(xs[1..]))
    ensures Dumped(mv, s, r, n, TablesRead(xs))
  {
    FirstRead(xs);
    DumpedOn(mv, s, m, r, n, TablesRead([xs[0]]), TablesRead(xs[1..]));
  }

  /** The client alone reads on: a table outside the read view is dumped as it is when it is read. */
  lemma {:induction false} ReadsAlone(mv: Engines, s: State, n: nat, xs: seq<Statement>)
    requires Wellformed(s) && xs <= s.todo && OnlyReads(xs) && Current(mv, s, n)
    ensures Dumped(mv, s, Alone(mv, s, |xs|), n, TablesRead(xs))
    decreases |xs|
  {
    if xs == [] {
      DumpedNothing(mv, s, n);
    } else {
      var next := Step(mv, s, Client);
      ReadOne(mv, s, n, xs);
      assert xs[1..] <= s.todo[1..];
      ReadsAlone(mv, next, n, xs[1..]);
      ReadOn(mv, s, next, Alone(mv, s, |xs|), n, xs);
    }
  }

  lemma NewEntry(before: seq<(Table, Rows)>, output: seq<(Table, Rows)>, tables: seq<Table>, t: Table) returns (i: nat)
    requires TablesOf(output) == TablesOf(before) + tables && t in tables
    ensures |before| <= i < |output| && output[i].0 == t
  {
    var j :| 0 <= j < |tables| && tables[j] == t;
    i := |before| + j;
    assert TablesOf(output)[i] == t;
  }

  lemma SetupThen(mv: Engines, s: State, n: nat, ready: State, run: seq<Event>, r: State) returns (whole: seq<Event>)
    requires Wellformed(s) && Reaches(mv, s, Clients(n), ready) && Wellformed(ready) && Reaches(mv, ready, run, r)
    ensures Reaches(mv, s, whole, r) && (NoAlter(run) ==> NoAlter(whole))
  {
    ReachesConcat(mv, s, Clients(n), ready, run, r);
    whole := Clients(n) + run;
  }

  /** A change after the setup reaches the dump of a table that is, or comes to be, outside the read view. */
  lemma ChangeSpoilsDump(mv: Engines, s: State, k: nat, body: seq<Statement>, table: Table, alter: bool)
    returns (run: seq<Event>, r: State)
    requires Wellformed(s) && !s.globalLock && s.tableLocks == {}
    requires s.printed.Some? && Prefix(s, s.printed.value) == k <= |s.log|
    requires body <= s.todo && OnlyReads(body) && table in TablesRead(body) && (alter || !mv(table))
    ensures Reaches(mv, s, run, r) && Wellformed(r) && !MatchesCoordinate(r)
    ensures !alter ==> NoAlter(run)
  {
    var rows := ContentsAt(s.log[..k], table) + ["another row"];
    var change := if alter then Alter(map[table := rows]) else Commit(map[table := rows]);
    var s' := Step(mv, s, change);
    r := Alone(mv, s', |body|);
    ReadsAlone(mv, s', |s'.output|, body);
    AloneReaches(mv, s', |body|);
    var i := NewEntry(s'.output, r.output, TablesRead(body), table);
    run := [change] + Clients(|body|);
    ReachesCons(mv, s, change, Clients(|body|), r);
    assert r.log[..k] == s.log[..k];
    assert Outside(mv, r, r.output[i].0);
    assert r.output[i].1 == rows != ContentsAt(r.log[..k], table);
    assert Prefix(r, r.printed.value) == k;
  }

  /** From every server state there is a run whose output disagrees with its coordinate. */
  lemma DumpCanDisagree(mv: Engines, o: Options, t: Target, s: State, table: Table, alter: bool)
    returns (run: seq<Event>, r: State)
    requires Accepted(o) && o.masterData != 0 && o.singleTransaction && Initial(s, o, t)
    requires table in Wanted(t) && (alter || !mv(table))
    ensures Reaches(mv, s, run, r) && Wellformed(r) && !MatchesCoordinate(r)
    ensures !alter ==> NoAlter(run)
  {
    BodyOnlyReads(o, t);
    BodyReads(o, t);
    var k, ready := SetupAlone(mv, o, t, s);
    run, r := ChangeSpoilsDump(mv, ready, k, Body(o, t), table, alter);
    run := SetupThen(mv, s, |Setup(o)|, ready, run, r);
  }

  /** If the run leads to r, what r has dumped agrees with what it has printed. */
  ghost predicate Agrees(mv: Engines, s: State, run: seq<Event>, r: State)
    requires Wellformed(s)
  {
    Reaches(mv, s, run, r) ==> Wellformed(r) && MatchesCoordinate(r)
  }

  lemma SupportedAgrees(mv: Engines, o: Options, t: Target, s: State, run: seq<Event>, r: State)
    requires Accepted(o) && o.masterData != 0 && Initial(s, o, t) && Supported(mv, o, t)
    requires Calm(run, Exposed(o, t))
    ensures Agrees(mv, s, run, r)
  {
    if Reaches(mv, s, run, r) {
      var k := DumpShowsOnePoint(mv, o, t, s, run, r);
    }
  }

  /**
   With --master-data accepted by option checking, and the definitions of the tables of a
   --single-transaction dump left alone, the dump agrees with the printed coordinate in every
   interleaving exactly when --single-transaction is off or covers only tables that are read
   through a read view.
   */
  lemma ConsistentExactlyWhenSupported(mv: Engines, o: Options, t: Target, s: State)
    requires Accepted(o) && o.masterData != 0 && Initial(s, o, t)
    ensures Supported(mv, o, t) <==> forall run, r :: Calm(run, Exposed(o, t)) ==> Agrees(mv, s, run, r)
  {
    if Supported(mv, o, t) {
      forall run, r | Calm(run, Exposed(o, t))
        ensures Agrees(mv, s, run, r)
      {
        SupportedAgrees(mv, o, t, s, run, r);
      }
    } else {
      var table :| table in Wanted(t) && !mv(table);
      var run, r := DumpCanDisagree(mv, o, t, s, table, false);
      assert Calm(run, Exposed(o, t)) && !Agrees(mv, s, run, r);
    }
  }

  /**
   When other sessions may also change definitions, the dump agrees with the printed coordinate in
   every interleaving exactly when --single-transaction is off or there is no table to dump: the
   global lock keeps such changes out, the read view of no storage engine does.
   */
  lemma ConsistentUnderAlterations(mv: Engines, o: Options, t: Target, s: State)
    requires Accepted(o) && o.masterData != 0 && Initial(s, o, t)
    ensures !o.singleTransaction || Wanted(t) == [] <==> forall run, r :: Agrees(mv, s, run, r)
  {
    if !o.singleTransaction || Wanted(t) == [] {
      forall run, r
        ensures Agrees(mv, s, run, r)
      {
        SupportedAgrees(mv, o, t, s, run, r);
      }
    } else {
      var run, r := DumpCanDisagree(mv, o, t, s, Wanted(t)[0], true);
      assert !Agrees(mv, s, run, r);
    }
  }
}
