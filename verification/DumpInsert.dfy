/**
 Extended inserts in mysqldump: rows are gathered into INSERT statements of many rows each, kept
 shorter than the network buffer.
 */
module DumpInsert {
  import opened Helpers

  type Row = string

  // ---------- Groups of rows ----------

  function Join(rows: seq<Row>): string {
    if rows == [] then ""
    else if |rows| == 1 then rows[0]
    else Join(rows[..|rows| - 1]) + "," + rows[|rows| - 1]
  }

  /** One statement; `pat` is its text up to the first row. */
  function Statement(pat: string, rows: seq<Row>): string {
    pat + Join(rows) + ";\n"
  }

  function Script(pat: string, groups: seq<seq<Row>>): string {
    if groups == [] then "" else Script(pat, groups[..|groups| - 1]) + Statement(pat, groups[|groups| - 1])
  }

  /** The length a statement is counted as: a little more than its real one. */
  function Size(pat: string, rows: seq<Row>): nat {
    if rows == [] then |pat| + 4 else Size(pat, rows[..|rows| - 1]) + 2 + |rows[|rows| - 1]|
  }

  /** A statement counted as shorter than the buffer is shorter by its number of rows and three. */
  lemma {:induction false} JoinLength(pat: string, rows: seq<Row>)
    requires rows != []
    ensures |Statement(pat, rows)| + 3 + |rows| == Size(pat, rows)
  {
    if |rows| > 1 {
      JoinLength(pat, rows[..|rows| - 1]);
    } else {
      assert rows[..0] == [];
    }
  }

  /** Statements are not empty, and only those of a single row may reach the buffer length. */
  predicate Bounded(pat: string, net: nat, groups: seq<seq<Row>>) {
    forall g :: 0 <= g < |groups| ==> groups[g] != [] && (|groups[g]| > 1 ==> Size(pat, groups[g]) < net)
  }

  /** No statement could have taken the first row of the next one. */
  predicate Full(pat: string, net: nat, groups: seq<seq<Row>>) {
    forall g :: 0 < g < |groups| ==> groups[g] != [] && Size(pat, groups[g - 1]) + 2 + |groups[g][0]| >= net
  }

  predicate Grouping(pat: string, net: nat, groups: seq<seq<Row>>, rows: seq<Row>) {
    Flatten(groups) == rows && Bounded(pat, net, groups) && Full(pat, net, groups)
  }

  lemma StatementsFit(pat: string, net: nat, groups: seq<seq<Row>>, g: nat)
    requires Bounded(pat, net, groups) && g < |groups| && |groups[g]| > 1
    ensures |Statement(pat, groups[g])| + 3 + |groups[g]| < net
  {
    JoinLength(pat, groups[g]);
  }

  /** The grouping with one more row. */
  function Extended(pat: string, net: nat, groups: seq<seq<Row>>, row: Row): seq<seq<Row>> {
    if groups == [] then [[row]]
    else
      var last := |groups| - 1;
      if Size(pat, groups[last]) + 2 + |row| < net then groups[..last] + [groups[last] + [row]] else groups + [[row]]
  }

  lemma ExtendedFlatten(pat: string, net: nat, groups: seq<seq<Row>>, row: Row)
    ensures Flatten(Extended(pat, net, groups, row)) == Flatten(groups) + [row]
  {
    var r := Extended(pat, net, groups, row);
    if groups == [] {
      assert r[..0] == [];
    } else {
      var last := |groups| - 1;
      if Size(pat, groups[last]) + 2 + |row| < net {
        assert r[..last] == groups[..last];
        Reassociate(Flatten(groups[..last]), groups[last], [row]);
      } else {
        assert r[..|groups|] == groups;
      }
    }
  }

  lemma ExtendedBounded(pat: string, net: nat, groups: seq<seq<Row>>, row: Row)
    requires Bounded(pat, net, groups) && Full(pat, net, groups)
    ensures Bounded(pat, net, Extended(pat, net, groups, row)) && Full(pat, net, Extended(pat, net, groups, row))
  {
    var r := Extended(pat, net, groups, row);
    if groups != [] {
      var last := |groups| - 1;
      assert (groups[last] + [row])[..|groups[last]|] == groups[last];
      assert forall g :: 0 <= g < last ==> r[g] == groups[g];
    }
  }

  lemma ExtendedGrouping(pat: string, net: nat, groups: seq<seq<Row>>, rows: seq<Row>, row: Row)
    requires Grouping(pat, net, groups, rows)
    ensures Grouping(pat, net, Extended(pat, net, groups, row), rows + [row])
  {
    ExtendedFlatten(pat, net, groups, row);
    ExtendedBounded(pat, net, groups, row);
  }

  /** The rows grouped one after the other. */
  function Groups(pat: string, net: nat, rows: seq<Row>): (groups: seq<seq<Row>>)
    ensures groups == [] <==> rows == []
  {
    if rows == [] then [] else Extended(pat, net, Groups(pat, net, rows[..|rows| - 1]), rows[|rows| - 1])
  }

  lemma NextGroups(pat: string, net: nat, rows: seq<Row>, i: nat)
    requires i < |rows|
    ensures Groups(pat, net, rows[..i + 1]) == Extended(pat, net, Groups(pat, net, rows[..i]), rows[i])
  {
    assert rows[..i + 1][..i] == rows[..i];
  }

  lemma {:induction false} GroupsGrouping(pat: string, net: nat, rows: seq<Row>)
    ensures Grouping(pat, net, Groups(pat, net, rows), rows)
  {
    if rows == [] {
    } else {
      var init, last := rows[..|rows| - 1], rows[|rows| - 1];
      GroupsGrouping(pat, net, init);
      ExtendedGrouping(pat, net, Groups(pat, net, init), init, last);
      assert init + [last] == rows;
    }
  }

  // ---------- The grouping is determined ----------

  /** The groups without the last row. */
  function Shortened(groups: seq<seq<Row>>): seq<seq<Row>>
    requires groups != [] && groups[|groups| - 1] != []
  {
    var last := |groups| - 1;
    var rows := groups[last];
    if |rows| == 1 then groups[..last] else groups[..last] + [rows[..|rows| - 1]]
  }

  lemma ShortenedFlatten(groups: seq<seq<Row>>, rows: seq<Row>)
    requires groups != [] && groups[|groups| - 1] != [] && Flatten(groups) == rows
    ensures rows != [] && Flatten(Shortened(groups)) == rows[..|rows| - 1]
    ensures var final := groups[|groups| - 1]; rows[|rows| - 1] == final[|final| - 1]
  {
    var last := |groups| - 1;
    var r := Shortened(groups);
    if |groups[last]| > 1 {
      assert r[..last] == groups[..last];
    }
  }

  lemma ShortenedBounded(pat: string, net: nat, groups: seq<seq<Row>>)
    requires groups != [] && Bounded(pat, net, groups) && Full(pat, net, groups)
    ensures Bounded(pat, net, Shortened(groups)) && Full(pat, net, Shortened(groups))
  {
    var last := |groups| - 1;
    var rows := groups[last];
    var r := Shortened(groups);
    assert forall g :: 0 <= g < last ==> r[g] == groups[g];
    if |rows| > 1 {
      assert r[last] == rows[..|rows| - 1] && r[last][0] == rows[0];
    }
  }

  lemma ShortenedExtends(pat: string, net: nat, groups: seq<seq<Row>>)
    requires groups != [] && Bounded(pat, net, groups) && Full(pat, net, groups)
    ensures Extended(pat, net, Shortened(groups), groups[|groups| - 1][|groups[|groups| - 1]| - 1]) == groups
  {
    var last := |groups| - 1;
    var rows := groups[last];
    var r := Shortened(groups);
    assert groups == groups[..last] + [rows];
    if |rows| == 1 {
      assert [rows[0]] == rows;
      if last > 0 {
        assert r[last - 1] == groups[last - 1];
      }
    } else {
      var init := rows[..|rows| - 1];
      assert init + [rows[|rows| - 1]] == rows;
      assert r[..last] == groups[..last] && r[last] == init;
      assert Size(pat, rows) < net;
    }
  }

  /** The conditions leave no choice: there is only one way to group the rows. */
  lemma {:induction false} OneGrouping(pat: string, net: nat, a: seq<seq<Row>>, b: seq<seq<Row>>, rows: seq<Row>)
    requires Grouping(pat, net, a, rows) && Grouping(pat, net, b, rows)
    ensures a == b
    decreases |rows|
  {
    if a != [] {
      ShortenedFlatten(a, rows);
    }
    if b != [] {
      ShortenedFlatten(b, rows);
    }
    if rows != [] {
      ShortenedBounded(pat, net, a);
      ShortenedExtends(pat, net, a);
      ShortenedBounded(pat, net, b);
      ShortenedExtends(pat, net, b);
      OneGrouping(pat, net, Shortened(a), Shortened(b), rows[..|rows| - 1]);
    }
  }

  // ---------- Printing ----------

  /** The script without the end of its last statement. */
  function Unfinished(pat: string, groups: seq<seq<Row>>): string {
    if groups == [] then "" else Script(pat, groups[..|groups| - 1]) + pat + Join(groups[|groups| - 1])
  }

  lemma Finished(pat: string, groups: seq<seq<Row>>)
    requires groups != []
    ensures Script(pat, groups) == Unfinished(pat, groups) + ";\n"
  {
    ReassociateFour(Script(pat, groups[..|groups| - 1]), pat, Join(groups[|groups| - 1]), ";\n");
  }

  lemma JoinOne(rows: seq<Row>, row: Row)
    requires rows != []
    ensures Join(rows + [row]) == Join(rows) + "," + row
  {
    assert (rows + [row])[..|rows|] == rows;
  }

  /** A row more in the last statement. */
  lemma UnfinishedRow(pat: string, groups: seq<seq<Row>>, row: Row)
    requires groups != [] && groups[|groups| - 1] != []
    ensures var last := |groups| - 1;
            Unfinished(pat, groups[..last] + [groups[last] + [row]]) == Unfinished(pat, groups) + "," + row
  {
    var last := |groups| - 1;
    var r := groups[..last] + [groups[last] + [row]];
    assert r[..last] == groups[..last];
    JoinOne(groups[last], row);
    assert Unfinished(pat, r) == Script(pat, groups[..last]) + pat + (Join(groups[last]) + "," + row);
  }

  /** A row in a new statement. */
  lemma UnfinishedStatement(pat: string, groups: seq<seq<Row>>, row: Row)
    ensures Unfinished(pat, groups + [[row]]) == Script(pat, groups) + pat + row
  {
    var r := groups + [[row]];
    assert r[..|groups|] == groups;
  }

  lemma ExtendedSize(pat: string, net: nat, groups: seq<seq<Row>>, row: Row)
    ensures var r := Extended(pat, net, groups, row);
            r != [] && Size(pat, r[|r| - 1]) ==
            if groups != [] && Size(pat, groups[|groups| - 1]) + 2 + |row| < net
            then Size(pat, groups[|groups| - 1]) + 2 + |row| else |pat| + 4 + 2 + |row|
  {
    assert [row][..0] == [];
    if groups != [] {
      var g := groups[|groups| - 1];
      assert (g + [row])[..|g|] == g;
    }
  }

  /** What is counted for the statement being printed; a full buffer before the first. */
  function Counted(pat: string, net: nat, groups: seq<seq<Row>>): nat {
    if groups == [] then net else Size(pat, groups[|groups| - 1])
  }

  method PrintRow(pat: string, row: Row, net: nat, before: string, totalLength: nat, rowBreak: bool,
                  ghost groups: seq<seq<Row>>)
    returns (out: string, newLength: nat)
    requires Bounded(pat, net, groups) && rowBreak == (groups != [])
    requires before == Unfinished(pat, groups) && totalLength == Counted(pat, net, groups)
    ensures out == Unfinished(pat, Extended(pat, net, groups, row))
    ensures newLength == Counted(pat, net, Extended(pat, net, groups, row))
  {
    var rowLength := 2 + |row|;
    ExtendedSize(pat, net, groups, row);
    out := before;
    if totalLength + rowLength < net {
      newLength := totalLength + rowLength;
      out := out + "," + row;
      UnfinishedRow(pat, groups, row);
    } else {
      if rowBreak {
        out := out + ";\n";
        Finished(pat, groups);
      }
      out := out + pat + row;
      UnfinishedStatement(pat, groups, row);
      assert groups == [] ==> groups + [[row]] == [[row]];
      newLength := rowLength + (|pat| + 4);
    }
  }

  lemma GroupsSoFar(pat: string, net: nat, rows: seq<Row>)
    ensures Bounded(pat, net, Groups(pat, net, rows)) && (Groups(pat, net, rows) == [] <==> rows == [])
  {
    GroupsGrouping(pat, net, rows);
  }

  /** All rows once, in order, in terminated statements, grouped in the one way that is as full as allowed. */
  method PrintRows(pat: string, rows: seq<Row>, net: nat) returns (out: string)
    ensures out == Script(pat, Groups(pat, net, rows))
    ensures Grouping(pat, net, Groups(pat, net, rows), rows)
  {
    out := "";
    var totalLength := net;
    var rowBreak := false;
    var i := 0;
    while i < |rows|
      invariant i <= |rows| && rowBreak == (i > 0)
      invariant out == Unfinished(pat, Groups(pat, net, rows[..i]))
      invariant totalLength == Counted(pat, net, Groups(pat, net, rows[..i]))
    {
      GroupsSoFar(pat, net, rows[..i]);
      NextGroups(pat, net, rows, i);
      out, totalLength := PrintRow(pat, rows[i], net, out, totalLength, rowBreak, Groups(pat, net, rows[..i]));
      rowBreak := true;
      i := i + 1;
    }
    assert rows[..i] == rows;
    GroupsGrouping(pat, net, rows);
    GroupsSoFar(pat, net, rows);
    if rowBreak {
      out := out + ";\n";
      Finished(pat, Groups(pat, net, rows));
    }
  }
}
