/**
 Which events mysqlbinlog prints: the --offset, --start-datetime, --stop-datetime, --stop-position
 and --server-id filters, which change their own settings while the logs are read.
 */
module BinlogFilter {
  import opened Helpers

  const CYCLE: nat := 0x1_0000_0000_0000_0000

  datatype Kind = Format | Rotate | Other

  datatype Event = Event(kind: Kind, when: nat, serverId: nat, pos: nat)

  /** The command-line settings; server id 0 stands for all servers. */
  datatype Options = Options(offset: nat, startTime: nat, stopTime: nat, stopPos: nat, serverId: nat)

  datatype Verdict = Skip | Print | Stop

  /** Where the last log starts. */
  function LastStart(logs: seq<seq<Event>>): nat {
    if logs == [] then 0 else |Flatten(logs[..|logs| - 1])|
  }

  // ---------- What the options ask for ----------

  /** Event i is one from which printing may start. */
  predicate Opens(o: Options, events: seq<Event>, i: nat)
    requires i < |events|
  {
    events[i].kind != Format && i % CYCLE >= o.offset && events[i].when >= o.startTime
  }

  predicate Opened(o: Options, events: seq<Event>, i: nat) {
    exists f :: 0 <= f < |events| && f <= i && Opens(o, events, f)
  }

  /** The server-id filter lets the event through. */
  predicate Passes(o: Options, e: Event) {
    e.kind == Rotate || o.serverId == 0 || e.serverId == o.serverId
  }

  /** Format events are always wanted; the others from the first opening event on, from the chosen server. */
  predicate Wanted(o: Options, events: seq<Event>, i: nat)
    requires i < |events|
  {
    events[i].kind == Format || (Opened(o, events, i) && Passes(o, events[i]))
  }

  /** The stop position that applies to event i: --stop-position is for the last log only. */
  function StopPos(o: Options, lastStart: nat, i: nat): nat {
    if i < lastStart then CYCLE - 1 else o.stopPos
  }

  predicate PastEnd(o: Options, events: seq<Event>, lastStart: nat, i: nat)
    requires i < |events|
  {
    events[i].when >= o.stopTime || events[i].pos >= StopPos(o, lastStart, i)
  }

  /** Event i ends the program. */
  predicate Ends(o: Options, events: seq<Event>, lastStart: nat, i: nat)
    requires i < |events|
  {
    Wanted(o, events, i) && PastEnd(o, events, lastStart, i)
  }

  predicate Ended(o: Options, events: seq<Event>, lastStart: nat, n: nat)
    requires n <= |events|
  {
    exists k :: 0 <= k < n && Ends(o, events, lastStart, k)
  }

  predicate Selected(o: Options, events: seq<Event>, lastStart: nat, i: nat)
    requires i < |events|
  {
    Wanted(o, events, i) && !Ended(o, events, lastStart, i + 1)
  }

  /** The selected events among the first n, in order. */
  function Selection(o: Options, events: seq<Event>, lastStart: nat, n: nat): seq<nat>
    requires n <= |events|
  {
    if n == 0 then []
    else Selection(o, events, lastStart, n - 1) + (if Selected(o, events, lastStart, n - 1) then [n - 1] else [])
  }

  // ---------- How the program decides ----------

  class Filter {
    var recCount: nat
    var offset: nat
    var startTime: nat
    var stopPos: nat
    const options: Options

    constructor (o: Options)
      ensures options == o && recCount == 0 && offset == o.offset && startTime == o.startTime
    {
      options := o;
      recCount := 0;
      offset := o.offset;
      startTime := o.startTime;
      stopPos := o.stopPos;
    }

    /** The settings are those after the first n events. */
    ghost predicate Valid(events: seq<Event>, n: nat)
      reads this
    {
      && n <= |events|
      && recCount == n % CYCLE
      && (if n > 0 && Opened(options, events, n - 1) then offset == 0 && startTime == 0
          else offset == options.offset && startTime == options.startTime)
    }

    /** The event's number is known only from the counter, which cycles. */
    method Process(e: Event, ghost events: seq<Event>, ghost lastStart: nat, ghost n: nat) returns (verdict: Verdict)
      requires n < |events| && e == events[n] && Valid(events, n) && stopPos == StopPos(options, lastStart, n)
      modifies this`recCount, this`offset, this`startTime
      ensures Valid(events, n + 1)
      ensures verdict.Skip? <==> !Wanted(options, events, n)
      ensures verdict.Stop? <==> Ends(options, events, lastStart, n)
    {
      OpenedStep(options, events, n);
      verdict := Skip;
      if (recCount >= offset && e.when >= startTime) || e.kind == Format {
        var foreign := false;
        if e.kind != Format {
          startTime := 0;
          offset := 0;
          foreign := e.kind != Rotate && options.serverId != 0 && options.serverId != e.serverId;
        }
        if !foreign {
          verdict := if e.when >= options.stopTime || e.pos >= stopPos then Stop else Print;
        }
      }
      NextCount(n);
      recCount := (recCount + 1) % CYCLE;
    }

    /** Goes through one log, which is part of all events from number `from` on. */
    method DumpLog(log: seq<Event>, before: seq<nat>, ghost events: seq<Event>, ghost lastStart: nat, from: nat)
      returns (printed: seq<nat>, stopped: bool)
      requires from + |log| <= |events| && log == events[from..from + |log|]
      requires Valid(events, from) && !Ended(options, events, lastStart, from)
      requires before == Selection(options, events, lastStart, from)
      requires lastStart <= from || from + |log| <= lastStart
      requires stopPos == StopPos(options, lastStart, from) || log == []
      modifies this`recCount, this`offset, this`startTime
      ensures stopped == Ended(options, events, lastStart, from + |log|)
      ensures printed == Selection(options, events, lastStart, from + |log|)
      ensures !stopped ==> Valid(events, from + |log|)
    {
      printed, stopped := before, false;
      var n := from;
      while n < from + |log| && !stopped
        invariant from <= n <= from + |log|
        invariant Valid(events, n)
        invariant printed == Selection(options, events, lastStart, n)
        invariant stopped == Ended(options, events, lastStart, n)
      {
        var verdict := Process(log[n - from], events, lastStart, n);
        if verdict == Print {
          printed := printed + [n];
        }
        stopped := verdict == Stop;
        n := n + 1;
      }
      NothingAfterEnd(options, events, lastStart, n, from + |log|);
    }

    /** For the last log --stop-position is put back. */
    method DumpNext(log: seq<Event>, last: bool, before: seq<nat>,
                    ghost events: seq<Event>, ghost lastStart: nat, from: nat)
      returns (printed: seq<nat>, stopped: bool)
      requires from + |log| <= |events| && log == events[from..from + |log|]
      requires Valid(events, from) && !Ended(options, events, lastStart, from) && stopPos == CYCLE - 1
      requires before == Selection(options, events, lastStart, from)
      requires if last then from == lastStart else from + |log| <= lastStart
      modifies this
      ensures stopped == Ended(options, events, lastStart, from + |log|)
      ensures printed == Selection(options, events, lastStart, from + |log|)
      ensures !stopped ==> Valid(events, from + |log|)
      ensures !last ==> stopPos == CYCLE - 1
    {
      if last {
        stopPos := options.stopPos;
      }
      printed, stopped := DumpLog(log, before, events, lastStart, from);
    }

    /** A run over the logs prints the selected events, in order, and stops early only at an ending one. */
    method Dump(logs: seq<seq<Event>>) returns (printed: seq<nat>, stopped: bool)
      requires Valid(Flatten(logs), 0)
      modifies this
      ensures printed == Selection(options, Flatten(logs), LastStart(logs), |Flatten(logs)|)
      ensures stopped == Ended(options, Flatten(logs), LastStart(logs), |Flatten(logs)|)
    {
      ghost var events := Flatten(logs);
      ghost var lastStart := LastStart(logs);
      printed, stopped := [], false;
      stopPos := CYCLE - 1;
      var i, n := 0, 0;
      while i < |logs| && !stopped
        invariant i <= |logs| && n == |Flatten(logs[..i])| <= |events|
        invariant printed == Selection(options, events, lastStart, n)
        invariant stopped == Ended(options, events, lastStart, n)
        invariant !stopped ==> Valid(events, n)
        invariant i < |logs| ==> stopPos == CYCLE - 1
      {
        LogInPlace(logs, i);
        printed, stopped := DumpNext(logs[i], i == |logs| - 1, printed, events, lastStart, n);
        n := n + |logs[i]|;
        i := i + 1;
      }
      assert logs[..|logs|] == logs;
      NothingAfterEnd(options, events, lastStart, n, |events|);
    }
  }

  lemma {:induction false} FlattenPrefix(logs: seq<seq<Event>>, i: nat)
    requires i <= |logs|
    ensures Flatten(logs[..i]) <= Flatten(logs)
    decreases |logs|
  {
    if i == |logs| {
      assert logs[..i] == logs;
    } else {
      FlattenPrefix(logs[..|logs| - 1], i);
      assert logs[..|logs| - 1][..i] == logs[..i];
    }
  }

  /** Log i among all events: before the last log, or the last log itself. */
  lemma LogInPlace(logs: seq<seq<Event>>, i: nat)
    requires i < |logs|
    ensures var from, end := |Flatten(logs[..i])|, |Flatten(logs[..i + 1])|;
            && end == from + |logs[i]| <= |Flatten(logs)| && Flatten(logs)[from..end] == logs[i]
            && (if i == |logs| - 1 then from == LastStart(logs) else end <= LastStart(logs))
  {
    FlattenPrefix(logs, i + 1);
    assert logs[..i + 1][..i] == logs[..i];
    if i < |logs| - 1 {
      FlattenPrefix(logs[..|logs| - 1], i + 1);
      assert logs[..|logs| - 1][..i + 1] == logs[..i + 1];
    }
  }

  lemma OpenedStep(o: Options, events: seq<Event>, n: nat)
    requires n < |events|
    ensures Opened(o, events, n) <==> (n > 0 && Opened(o, events, n - 1)) || Opens(o, events, n)
  {
    if Opened(o, events, n) && !Opens(o, events, n) {
      var f :| 0 <= f < |events| && f <= n && Opens(o, events, f);
      assert f <= n - 1;
    }
  }

  lemma NextCount(n: nat)
    ensures (n % CYCLE + 1) % CYCLE == (n + 1) % CYCLE
  {
  }

  lemma {:induction false} NothingAfterEnd(o: Options, events: seq<Event>, lastStart: nat, n: nat, m: nat)
    requires n <= m <= |events| && (n < m ==> Ended(o, events, lastStart, n))
    ensures Selection(o, events, lastStart, m) == Selection(o, events, lastStart, n)
    ensures Ended(o, events, lastStart, m) == Ended(o, events, lastStart, n)
    decreases m - n
  {
    if n < m {
      var k :| 0 <= k < n && Ends(o, events, lastStart, k);
      assert Ended(o, events, lastStart, n + 1);
      NothingAfterEnd(o, events, lastStart, n + 1, m);
    }
  }

  // ---------- What that means ----------

  predicate Ascending(s: seq<nat>) {
    forall a, b :: 0 <= a < b < |s| ==> s[a] < s[b]
  }

  /** The selection lists exactly the selected events, each once and in order. */
  lemma {:induction false} SelectionIsExact(o: Options, events: seq<Event>, lastStart: nat, n: nat)
    requires n <= |events|
    ensures forall i :: 0 <= i < n ==> (i in Selection(o, events, lastStart, n) <==> Selected(o, events, lastStart, i))
    ensures forall i :: i in Selection(o, events, lastStart, n) ==> i < n
    ensures Ascending(Selection(o, events, lastStart, n))
  {
    if n == 0 {
    } else {
      SelectionIsExact(o, events, lastStart, n - 1);
      var s := Selection(o, events, lastStart, n - 1);
      assert forall a :: 0 <= a < |s| ==> s[a] in s;
    }
  }

  /** The range starts at the first opening event, if there is one. */
  predicate First(o: Options, events: seq<Event>, first: nat) {
    && first <= |events|
    && (forall k :: 0 <= k < first ==> !Opens(o, events, k))
    && (first < |events| ==> Opens(o, events, first))
  }

  /** A format event, or one from the start of the range on that the server-id filter lets through. */
  predicate InRange(o: Options, events: seq<Event>, first: nat, k: nat)
    requires k < |events|
  {
    events[k].kind == Format || (first <= k && Passes(o, events[k]))
  }

  /** The range stops at its first event past the end; events of other servers cannot stop it. */
  predicate Last(o: Options, events: seq<Event>, lastStart: nat, first: nat, last: nat) {
    && last <= |events|
    && (forall k :: 0 <= k < last && InRange(o, events, first, k) ==> !PastEnd(o, events, lastStart, k))
    && (last < |events| ==> InRange(o, events, first, last) && PastEnd(o, events, lastStart, last))
  }

  /**
   One range of the logs, and the format events before it: whatever the times of later events, and
   however often the counter cycles, nothing in it is left out but by server id.
   */
  lemma OneRange(o: Options, events: seq<Event>, lastStart: nat, first: nat, last: nat)
    requires First(o, events, first) && Last(o, events, lastStart, first, last)
    ensures forall i :: 0 <= i < |events| ==>
              (Selected(o, events, lastStart, i) <==> i < last && InRange(o, events, first, i))
  {
    assert forall i :: 0 <= i < |events| ==> (Opened(o, events, i) <==> first <= i);
    assert last < |events| ==> Ends(o, events, lastStart, last);
  }

  /** Such a range always exists, and is determined. */
  lemma RangeExists(o: Options, events: seq<Event>, lastStart: nat) returns (first: nat, last: nat)
    ensures First(o, events, first) && Last(o, events, lastStart, first, last)
    ensures forall f: nat, l: nat :: First(o, events, f) && Last(o, events, lastStart, f, l) ==> f == first && l == last
  {
    first := 0;
    while first < |events| && !Opens(o, events, first)
      invariant first <= |events| && forall k :: 0 <= k < first ==> !Opens(o, events, k)
    {
      first := first + 1;
    }
    last := 0;
    while last < |events| && !(InRange(o, events, first, last) && PastEnd(o, events, lastStart, last))
      invariant last <= |events|
      invariant forall k :: 0 <= k < last && InRange(o, events, first, k) ==> !PastEnd(o, events, lastStart, k)
    {
      last := last + 1;
    }
    forall f: nat, l: nat | First(o, events, f) && Last(o, events, lastStart, f, l)
      ensures f == first && l == last
    {
      assert f < |events| ==> Opens(o, events, f);
    }
  }
}
