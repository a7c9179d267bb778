/**
 What one load-emulation thread of mysqlslap sends to the server, and how the schema is created:
 statement lists that are gone through again and again until a number of queries is reached.
 */
module SlapTask {
  import opened Helpers

  datatype Action =
    | Connect
    | Reconnect
    | Close
    | AutocommitOff
    | Query(text: string)
    | Commit

  /** limit 0: the list once; commitRate 0: no transactions; detachRate 0: one connection. */
  datatype Config = Config(
    statements: seq<string>,
    needsKey: nat -> bool,       // whether the statement at this place of the list is to be completed by a key
    drawnKey: nat -> string,     // the primary key drawn at random for this query
    limit: nat,
    commitRate: nat,
    detachRate: nat,
    onlyPrint: bool)

  /** A statement list ends at its first empty statement. */
  function Effective(statements: seq<string>): (n: nat)
    ensures n <= |statements|
    ensures forall i :: 0 <= i < n ==> statements[i] != ""
    ensures n < |statements| ==> statements[n] == ""
  {
    if statements == [] || statements[0] == "" then 0 else 1 + Effective(statements[1..])
  }

  // ---------- The schedule ----------

  function Total(c: Config): nat {
    if c.limit > 0 then c.limit else Effective(c.statements)
  }

  /** Where the list is empty the thread with a limit never ends. */
  predicate Terminates(c: Config) {
    c.limit > 0 ==> Effective(c.statements) > 0
  }

  /** Statement k modulo the list, completed by the key of query k where it needs one. */
  function QueryText(c: Config, k: nat): string
    requires Effective(c.statements) > 0
  {
    var place := k % Effective(c.statements);
    if c.needsKey(place) then WithKey(c.statements[place], c.drawnKey(k)) else c.statements[place]
  }

  function WithKey(text: string, key: string): string {
    text + " '" + key + "'"
  }

  /** The connection is renewed before query k; the places start anew with each pass through the list. */
  predicate Detaches(c: Config, k: nat)
    requires Effective(c.statements) > 0
  {
    !c.onlyPrint && c.detachRate > 0 && k % Effective(c.statements) % c.detachRate == 0
  }

  /** A commit follows query k; these are counted through all passes. */
  predicate Commits(c: Config, k: nat) {
    c.commitRate > 0 && (k + 1) % c.commitRate == 0
  }

  function QueryActions(c: Config, k: nat): seq<Action>
    requires Effective(c.statements) > 0
  {
    (if Detaches(c, k) then [Reconnect] else []) + [Query(QueryText(c, k))] + (if Commits(c, k) then [Commit] else [])
  }

  /** The actions for the first k queries. */
  function Actions(c: Config, k: nat): seq<Action>
    requires k > 0 ==> Effective(c.statements) > 0
  {
    if k == 0 then [] else Actions(c, k - 1) + QueryActions(c, k - 1)
  }

  function Opening(c: Config): seq<Action> {
    (if c.onlyPrint then [] else [Connect]) + (if c.commitRate > 0 then [AutocommitOff] else [])
  }

  function Closing(c: Config): seq<Action> {
    (if c.commitRate > 0 then [Commit] else []) + (if c.onlyPrint then [] else [Close])
  }

  lemma MultiplesApart(n: nat, a: int, b: int)
    requires a < b
    ensures n * a + n <= n * b
  {
    var k := b - a - 1;
    assert n * b == n * a + n + n * k;
    assert n * k >= 0;
  }

  lemma SameRemainder(n: nat, a: int, r: nat, b: int, s: nat)
    requires r < n && s < n && n * a + r == n * b + s
    ensures r == s
  {
    if a < b {
      MultiplesApart(n, a, b);
      assert false;
    } else if b < a {
      MultiplesApart(n, b, a);
      assert false;
    }
  }

  lemma NextPlace(q: nat, n: nat)
    requires n > 0
    ensures (q + 1) % n == if q % n + 1 == n then 0 else q % n + 1
  {
    var d, e := q / n, (q + 1) / n;
    assert n * e + (q + 1) % n == n * d + q % n + 1;
    if q % n + 1 == n {
      assert n * d + n == n * (d + 1);
      SameRemainder(n, e, (q + 1) % n, d + 1, 0);
    } else {
      SameRemainder(n, e, (q + 1) % n, d, q % n + 1);
    }
  }

  // ---------- The thread ----------

  /** The thread follows the schedule: exactly the limit's queries, taken from the list in turn. */
  method RunTask(c: Config) returns (trace: seq<Action>)
    requires Terminates(c)
    ensures trace == Opening(c) + Actions(c, Total(c)) + Closing(c)
  {
    ghost var n := Effective(c.statements);
    trace := if c.onlyPrint then [] else [Connect];
    if c.commitRate > 0 {
      trace := trace + [AutocommitOff];
    }
    var queries, commitCounter, done := 0, 0, false;
    while !done
      invariant queries <= Total(c) && (queries > 0 ==> n > 0)
      invariant trace == Opening(c) + Actions(c, queries)
      invariant c.commitRate > 0 ==> commitCounter == queries % c.commitRate
      invariant if done then queries == Total(c) else Starting(c, queries)
      decreases Total(c) - queries, !done
    {
      trace, queries, commitCounter, done := RunList(c, trace, queries, commitCounter);
      if !done && !(c.limit > 0 && queries < c.limit) {
        done := true;
      }
    }
    if c.commitRate > 0 {
      trace := trace + [Commit];
    }
    if !c.onlyPrint {
      trace := trace + [Close];
    }
  }

  /** A pass through the list starts after this many queries. */
  ghost predicate Starting(c: Config, queries: nat) {
    var n := Effective(c.statements);
    if queries == 0 then true else n > 0 && c.limit > 0 && queries % n == 0 && queries < c.limit
  }

  /** One pass through the list, or less of it if the limit is reached. */
  method RunList(c: Config, before: seq<Action>, start: nat, count: nat)
    returns (trace: seq<Action>, queries: nat, commitCounter: nat, done: bool)
    requires Terminates(c) && Starting(c, start)
    requires before == Opening(c) + Actions(c, start)
    requires c.commitRate > 0 ==> count == start % c.commitRate
    ensures queries > 0 ==> Effective(c.statements) > 0
    ensures trace == Opening(c) + Actions(c, queries)
    ensures c.commitRate > 0 ==> commitCounter == queries % c.commitRate
    ensures start <= queries <= Total(c) && (Effective(c.statements) > 0 ==> start < queries)
    ensures if done || c.limit == 0 then queries == Total(c) else Starting(c, queries) && queries < c.limit
  {
    ghost var n := Effective(c.statements);
    trace, queries, commitCounter, done := before, start, count, false;
    var place := 0;
    while place < |c.statements| && c.statements[place] != "" && !done
      invariant place <= n && queries == start + place && queries <= Total(c)
      invariant n > 0 && !done ==> queries % n == (if place == n then 0 else place)
      invariant trace == Opening(c) + Actions(c, queries)
      invariant c.commitRate > 0 ==> commitCounter == queries % c.commitRate
      invariant done <==> c.limit > 0 && queries == c.limit
    {
      assert place < n;
      trace, commitCounter := RunQuery(c, trace, queries, commitCounter, place);
      NextPlace(queries, n);
      queries := queries + 1;
      if c.limit > 0 && queries == c.limit {
        done := true;
      }
      place := place + 1;
    }
  }

  method RunQuery(c: Config, before: seq<Action>, queries: nat, count: nat, place: nat)
    returns (trace: seq<Action>, commitCounter: nat)
    requires place < Effective(c.statements) && queries % Effective(c.statements) == place
    requires before == Opening(c) + Actions(c, queries)
    requires c.commitRate > 0 ==> count == queries % c.commitRate
    ensures trace == Opening(c) + Actions(c, queries + 1)
    ensures c.commitRate > 0 ==> commitCounter == (queries + 1) % c.commitRate
  {
    commitCounter := count;
    var more := [];
    if !c.onlyPrint && c.detachRate > 0 && place % c.detachRate == 0 {
      more := [Reconnect];
    }
    if c.needsKey(place) {
      more := more + [Query(WithKey(c.statements[place], c.drawnKey(queries)))];
    } else {
      more := more + [Query(c.statements[place])];
    }
    if c.commitRate > 0 {
      NextPlace(queries, c.commitRate);
      commitCounter := commitCounter + 1;
      if commitCounter == c.commitRate {
        commitCounter := 0;
        more := more + [Commit];
      }
    }
    assert more == QueryActions(c, queries);
    trace := before + more;
  }

  function QueriesIn(actions: seq<Action>): seq<string> {
    if actions == [] then []
    else (if actions[0].Query? then [actions[0].text] else []) + QueriesIn(actions[1..])
  }

  lemma {:induction false} QueriesInConcat(a: seq<Action>, b: seq<Action>)
    ensures QueriesIn(a + b) == QueriesIn(a) + QueriesIn(b)
  {
    if a == [] {
      assert a + b == b;
    } else {
      assert (a + b)[1..] == a[1..] + b;
      QueriesInConcat(a[1..], b);
    }
  }

  lemma QueriesInOne(c: Config, k: nat)
    requires Effective(c.statements) > 0
    ensures QueriesIn(QueryActions(c, k)) == [QueryText(c, k)]
  {
    var first := if Detaches(c, k) then [Reconnect] else [];
    var query := [Query(QueryText(c, k))];
    var last := if Commits(c, k) then [Commit] else [];
    assert first != [] ==> first[1..] == [];
    assert query[1..] == [];
    assert last != [] ==> last[1..] == [];
    QueriesInConcat(first, query);
    QueriesInConcat(first + query, last);
  }

  lemma {:induction false} QueriesInActions(c: Config, k: nat)
    requires k > 0 ==> Effective(c.statements) > 0
    ensures QueriesIn(Actions(c, k)) == Texts(c, k)
  {
    if k == 0 {
    } else {
      QueriesInActions(c, k - 1);
      QueriesInOne(c, k - 1);
      QueriesInConcat(Actions(c, k - 1), QueryActions(c, k - 1));
    }
  }

  /** Exactly the limit's queries, the k-th being statement k modulo the list. */
  lemma QueriesSent(c: Config)
    requires Terminates(c)
    ensures QueriesIn(Opening(c) + Actions(c, Total(c)) + Closing(c)) == Texts(c, Total(c))
  {
    QueriesInActions(c, Total(c));
    OnlyMiddle(Opening(c), Actions(c, Total(c)), Closing(c));
  }

  lemma OnlyMiddle(a: seq<Action>, b: seq<Action>, c: seq<Action>)
    requires forall i :: 0 <= i < |a| ==> !a[i].Query?
    requires forall i :: 0 <= i < |c| ==> !c[i].Query?
    ensures QueriesIn(a + b + c) == QueriesIn(b)
  {
    NoQueries(a);
    NoQueries(c);
    QueriesInConcat(a, b);
    QueriesInConcat(a + b, c);
  }

  lemma {:induction false} NoQueries(actions: seq<Action>)
    requires forall i :: 0 <= i < |actions| ==> !actions[i].Query?
    ensures QueriesIn(actions) == []
  {
    if actions == [] {
    } else {
      NoQueries(actions[1..]);
    }
  }

  // ---------- What the server makes of it ----------

  datatype Session = Session(autocommit: bool, pending: seq<string>, committed: seq<string>)

  /** A closed connection takes its uncommitted work and its settings with it. */
  function Serve(s: Session, a: Action): Session {
    match a
    case Query(text) =>
      if s.autocommit then s.(committed := s.committed + [text]) else s.(pending := s.pending + [text])
    case Commit => s.(pending := [], committed := s.committed + s.pending)
    case AutocommitOff => s.(autocommit := false)
    case _ => Session(true, [], s.committed)
  }

  function ServeAll(s: Session, actions: seq<Action>): Session
    decreases |actions|
  {
    if actions == [] then s else ServeAll(Serve(s, actions[0]), actions[1..])
  }

  lemma {:induction false} ServeConcat(s: Session, a: seq<Action>, b: seq<Action>)
    ensures ServeAll(s, a + b) == ServeAll(ServeAll(s, a), b)
    decreases |a|
  {
    if a == [] {
      assert a + b == b;
    } else {
      assert (a + b)[1..] == a[1..] + b;
      ServeConcat(Serve(s, a[0]), a[1..], b);
    }
  }

  function Texts(c: Config, k: nat): (r: seq<string>)
    requires k > 0 ==> Effective(c.statements) > 0
    ensures |r| == k
    ensures forall i :: 0 <= i < k ==> r[i] == QueryText(c, i)
  {
    if k == 0 then [] else Texts(c, k - 1) + [QueryText(c, k - 1)]
  }

  /** Queries share transactions. */
  predicate Batched(c: Config) {
    c.commitRate > 0 && c.detachRate == 0
  }

  /** How many of the first k queries are committed before the thread ends. */
  function Durable(c: Config, k: nat): (m: nat)
    ensures m <= k
  {
    if Batched(c) then k - k % c.commitRate else k
  }

  function Reached(c: Config, k: nat): Session
    requires k > 0 ==> Effective(c.statements) > 0
  {
    Session(!(c.commitRate > 0 && (k == 0 || c.detachRate == 0)),
            Texts(c, k)[Durable(c, k)..], Texts(c, k)[..Durable(c, k)])
  }

  const START := Session(true, [], [])

  lemma ServeOne(s: Session, a: Action)
    ensures ServeAll(s, [a]) == Serve(s, a)
  {
    assert ServeAll(s, [a]) == ServeAll(Serve(s, a), [a][1..]);
  }

  lemma ServeOpening(c: Config)
    requires !c.onlyPrint
    ensures ServeAll(START, Opening(c)) == Reached(c, 0)
  {
    if c.commitRate > 0 {
      assert Opening(c) == [Connect] + [AutocommitOff];
      ServeConcat(START, [Connect], [AutocommitOff]);
      ServeOne(START, Connect);
      ServeOne(START, AutocommitOff);
    } else {
      assert Opening(c) == [Connect];
      ServeOne(START, Connect);
    }
  }

  lemma ServeDetach(c: Config, k: nat)
    requires Effective(c.statements) > 0 && Detaches(c, k)
    ensures ServeAll(Reached(c, k), [Reconnect]) == Session(true, [], Texts(c, k))
  {
    ServeOne(Reached(c, k), Reconnect);
    assert !Batched(c) && Texts(c, k)[..k] == Texts(c, k);
  }

  /** The session just before query k. */
  lemma BeforeQuery(c: Config, k: nat, s: Session)
    requires Effective(c.statements) > 0 && !c.onlyPrint
    requires s == ServeAll(Reached(c, k), if Detaches(c, k) then [Reconnect] else [])
    ensures s.autocommit == !Batched(c)
    ensures s.committed == Texts(c, k)[..Durable(c, k)] && s.pending == Texts(c, k)[Durable(c, k)..]
  {
    if Detaches(c, k) {
      ServeDetach(c, k);
      assert Texts(c, k)[..k] == Texts(c, k) && Texts(c, k)[k..] == [];
    } else if k == 0 {
      ZeroPlace(c);
    }
  }

  lemma ZeroPlace(c: Config)
    requires Effective(c.statements) > 0 && !c.onlyPrint && !Detaches(c, 0)
    ensures c.detachRate == 0
  {
  }

  lemma ServeQuery(c: Config, k: nat)
    requires Effective(c.statements) > 0 && !c.onlyPrint
    ensures ServeAll(Reached(c, k), QueryActions(c, k)) == Reached(c, k + 1)
  {
    var first := if Detaches(c, k) then [Reconnect] else [];
    var last := if Commits(c, k) then [Commit] else [];
    var query := [Query(QueryText(c, k))];
    var s := ServeAll(Reached(c, k), first);
    BeforeQuery(c, k, s);
    ServeConcat(Reached(c, k), first, query + last);
    ServeConcat(s, query, last);
    ServeOne(s, query[0]);
    assert QueryActions(c, k) == first + (query + last);
    AfterQuery(c, k, s);
  }

  lemma AfterQuery(c: Config, k: nat, s: Session)
    requires Effective(c.statements) > 0 && s.autocommit == !Batched(c)
    requires s.committed == Texts(c, k)[..Durable(c, k)] && s.pending == Texts(c, k)[Durable(c, k)..]
    ensures ServeAll(Serve(s, Query(QueryText(c, k))), if Commits(c, k) then [Commit] else []) == Reached(c, k + 1)
  {
    var t := Serve(s, Query(QueryText(c, k)));
    ServeOne(t, Commit);
    DurableNext(c, k);
    if Batched(c) {
      AfterBatched(c, k, s);
    } else {
      AfterSingle(c, k, s);
    }
  }

  lemma AfterBatched(c: Config, k: nat, s: Session)
    requires Effective(c.statements) > 0 && Batched(c)
    requires s == Session(false, Texts(c, k)[Durable(c, k)..], Texts(c, k)[..Durable(c, k)])
    ensures var t := Serve(s, Query(QueryText(c, k)));
            (if Commits(c, k) then Serve(t, Commit) else t) == Reached(c, k + 1)
  {
    DurableNext(c, k);
    CutAt(c, k, Durable(c, k), Commits(c, k));
  }

  /** A query in a transaction, with or without a commit, moves the mark between committed and pending. */
  lemma CutAt(c: Config, k: nat, m: nat, commit: bool)
    requires Effective(c.statements) > 0 && m <= k
    ensures var s := Session(false, Texts(c, k)[m..], Texts(c, k)[..m]);
            var t := Serve(s, Query(QueryText(c, k)));
            var m' := if commit then k + 1 else m;
            (if commit then Serve(t, Commit) else t) == Session(false, Texts(c, k + 1)[m'..], Texts(c, k + 1)[..m'])
  {
    TextsSplit(c, k, m);
    TextsAll(c, k + 1);
  }

  lemma AfterSingle(c: Config, k: nat, s: Session)
    requires Effective(c.statements) > 0 && !Batched(c) && s == Session(true, Texts(c, k)[k..], Texts(c, k)[..k])
    ensures var t := Serve(s, Query(QueryText(c, k))); t == Serve(t, Commit) == Reached(c, k + 1)
  {
    TextsAll(c, k);
    TextsAll(c, k + 1);
    assert Texts(c, k + 1) + [] == Texts(c, k + 1);
  }

  lemma TextsAll(c: Config, k: nat)
    requires Effective(c.statements) > 0
    ensures Texts(c, k)[..k] == Texts(c, k) && Texts(c, k)[k..] == []
  {
  }

  lemma DurableNext(c: Config, k: nat)
    ensures Durable(c, k + 1) == if Batched(c) && !Commits(c, k) then Durable(c, k) else k + 1
  {
    if Batched(c) {
      NextPlace(k, c.commitRate);
    }
  }

  lemma TextsSplit(c: Config, k: nat, m: nat)
    requires Effective(c.statements) > 0 && m <= k
    ensures Texts(c, k + 1)[..m] == Texts(c, k)[..m]
    ensures Texts(c, k + 1)[m..] == Texts(c, k)[m..] + [QueryText(c, k)]
    ensures Texts(c, k)[..m] + (Texts(c, k)[m..] + [QueryText(c, k)]) == Texts(c, k + 1)
  {
    SplitOneMore(Texts(c, k), QueryText(c, k), m);
  }

  lemma SplitOneMore(xs: seq<string>, x: string, m: nat)
    requires m <= |xs|
    ensures (xs + [x])[..m] == xs[..m]
    ensures (xs + [x])[m..] == xs[m..] + [x]
    ensures xs[..m] + (xs[m..] + [x]) == xs + [x]
  {
  }

  /** In mid-run the server has committed whole batches, or with a detach rate every query by itself. */
  lemma {:induction false} CommittedSoFar(c: Config, k: nat)
    requires !c.onlyPrint && (k > 0 ==> Effective(c.statements) > 0)
    ensures ServeAll(START, Opening(c) + Actions(c, k)) == Reached(c, k)
  {
    if k == 0 {
      ServeOpening(c);
      assert Opening(c) + Actions(c, 0) == Opening(c);
    } else {
      CommittedSoFar(c, k - 1);
      var before := Opening(c) + Actions(c, k - 1);
      ServeConcat(START, before, QueryActions(c, k - 1));
      Reassociate(Opening(c), Actions(c, k - 1), QueryActions(c, k - 1));
      ServeQuery(c, k - 1);
    }
  }

  /**
   Queries share a transaction if and only if there is a commit rate and no detach rate: the server
   as it is just before query k of a run.
   */
  lemma SharedTransactions(c: Config, k: nat)
    requires !c.onlyPrint && Effective(c.statements) > 0
    ensures var s := ServeAll(START, Opening(c) + Actions(c, k) + (if Detaches(c, k) then [Reconnect] else []));
            s.autocommit == !Batched(c) && s.committed == Texts(c, k)[..Durable(c, k)]
  {
    var detach := if Detaches(c, k) then [Reconnect] else [];
    CommittedSoFar(c, k);
    ServeConcat(START, Opening(c) + Actions(c, k), detach);
    BeforeQuery(c, k, ServeAll(Reached(c, k), detach));
  }

  /** Nothing is lost: when the thread has ended, all its queries are committed, in order. */
  lemma NothingLost(c: Config)
    requires Terminates(c) && !c.onlyPrint
    ensures ServeAll(START, Opening(c) + Actions(c, Total(c)) + Closing(c)) == Session(true, [], Texts(c, Total(c)))
  {
    var k := Total(c);
    var s := Reached(c, k);
    CommittedSoFar(c, k);
    ServeConcat(START, Opening(c) + Actions(c, k), Closing(c));
    ServeClosing(c, k);
  }

  lemma ServeClosing(c: Config, k: nat)
    requires !c.onlyPrint && (k > 0 ==> Effective(c.statements) > 0)
    ensures ServeAll(Reached(c, k), Closing(c)) == Session(true, [], Texts(c, k))
  {
    var s := Reached(c, k);
    assert s.committed + s.pending == Texts(c, k);
    if c.commitRate > 0 {
      assert Closing(c) == [Commit] + [Close];
      ServeConcat(s, [Commit], [Close]);
      ServeOne(s, Commit);
      ServeOne(Serve(s, Commit), Close);
    } else {
      assert Closing(c) == [Close] && s.committed == Texts(c, k);
      ServeOne(s, Close);
    }
  }

  // ---------- Creating the schema ----------

  /** The list's place for the k-th statement run: later passes leave out the first statement. */
  function SchemaPlace(n: nat, k: nat): (place: nat)
    requires n > 1 || k < n
    ensures place < n
    ensures place == 0 <==> k == 0
    ensures k < n ==> place == k
  {
    if k < n then k else 1 + (k - 1) % (n - 1)
  }

  function SchemaTexts(statements: seq<string>, k: nat): (r: seq<string>)
    requires var n := Effective(statements); n > 1 || k <= n
    ensures |r| == k
    ensures forall i :: 0 <= i < k ==> r[i] == statements[SchemaPlace(Effective(statements), i)]
  {
    if k == 0 then [] else SchemaTexts(statements, k - 1) + [statements[SchemaPlace(Effective(statements), k - 1)]]
  }

  /** A pass through the list ends after k statements. */
  predicate PassesEnd(n: nat, k: nat) {
    n > 1 && k >= n && (k - 1) % (n - 1) == 0
  }

  /** With generated SQL: as many statements as asked for, the first (which creates the table) only once. */
  method CreateSchema(statements: seq<string>, generated: bool, number: nat) returns (run: seq<string>)
    requires generated ==> Effective(statements) > 1 || number <= Effective(statements)
    ensures run == SchemaTexts(statements, if generated then number else Effective(statements))
  {
    ghost var n := Effective(statements);
    run := [];
    var afterCreate, count, again := 0, 0, true;
    while again
      invariant !generated ==> (if again then count == 0 else count == n)
      invariant generated ==> count <= number && (!again ==> count == number)
      invariant again ==> if count == 0 then afterCreate == 0 else afterCreate == 1 && PassesEnd(n, count)
      invariant run == SchemaTexts(statements, count)
      decreases (if generated then number else n) - count, again
    {
      run, count := SchemaPass(statements, generated, number, run, count, afterCreate);
      again := generated && number > count;
      afterCreate := 1;
    }
  }

  method SchemaPass(statements: seq<string>, generated: bool, number: nat, before: seq<string>, start: nat, from: nat)
    returns (run: seq<string>, count: nat)
    requires generated ==> Effective(statements) > 1 || number <= Effective(statements)
    requires !generated ==> start == 0
    requires generated ==> start <= number
    requires if start == 0 then from == 0 else from == 1 && PassesEnd(Effective(statements), start)
    requires before == SchemaTexts(statements, start)
    ensures !generated ==> count == Effective(statements)
    ensures generated ==> start <= count <= number
    ensures generated && count < number ==> start < count && PassesEnd(Effective(statements), count)
    ensures run == SchemaTexts(statements, count)
  {
    ghost var n := Effective(statements);
    run, count := before, start;
    var ptr := from;
    while ptr < |statements| && statements[ptr] != ""
      invariant ptr <= n && count == start + ptr - from
      invariant generated ==> count <= number
      invariant run == SchemaTexts(statements, count)
      invariant start > 0 ==> ptr >= 1 && (count - 1) % (n - 1) == (if ptr == n then 0 else ptr - 1)
    {
      assert ptr < n;
      if generated && number == count {
        return;
      }
      assert SchemaPlace(n, count) == ptr;
      run := run + [statements[ptr]];
      if start > 0 {
        NextPlace(count - 1, n - 1);
      }
      ptr := ptr + 1;
      count := count + 1;
    }
    if start == 0 && n > 1 {
      OnePass(n - 1);
    }
  }

  lemma OnePass(m: nat)
    requires m > 0
    ensures m % m == 0
  {
  }
}
