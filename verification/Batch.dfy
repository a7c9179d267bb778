/**
 Batch mode from file to statements: the loop that reads lines, lets the splitter edit them in the
 reader's own buffer, and executes what the splitter finds.
 */
module Batch {
  import opened LineReader
  import opened SplitterSpec
  import Splitter

  /** A line as the reader returns it: whole, or a piece cut off at the buffer limit. */
  datatype Piece = Piece(text: string, truncated: bool)

  predicate NoNuls(pieces: seq<Piece>) {
    forall i :: 0 <= i < |pieces| ==> '\0' !in pieces[i].text
  }

  /** Drops a UTF-8 byte order mark. */
  function SkipMark(text: string): string {
    if |text| >= 3 && text[0] == '\U{EF}' && text[1] == '\U{BB}' && text[2] == '\U{BF}' then text[3..] else text
  }

  predicate IsCommandLine(env: Env, t: Session, line: string) {
    (env.namedCommands || t.buffer == []) && !t.mlComment && t.inString == '\0' && env.isNamedCommand(line, t.delimiter)
  }

  /** What one line does to the session, and whether it quits. */
  ghost function RunLine(env: Env, t: Session, line: string, truncated: bool): (r: (Session, bool))
    requires Sound(env) && Consistent(t) && '\0' !in line
    ensures Consistent(r.0)
  {
    if IsCommandLine(env, t, line) then
      var call := NamedCommand(line, t.buffer);
      var response := env.respond(t.log, call);
      (t.(buffer := response.buffer, delimiter := response.delimiter, log := t.log + [call]), response.quit)
    else AddLine(env, t, line, truncated)
  }

  /** What a list of lines does, up to the one that quits. The first may carry a byte order mark. */
  ghost function RunPieces(env: Env, t: Session, pieces: seq<Piece>, first: bool): (r: (Session, bool))
    requires Sound(env) && Consistent(t) && NoNuls(pieces)
    ensures Consistent(r.0)
    decreases |pieces|
  {
    if pieces == [] then (t, false)
    else
      var line := if first then SkipMark(pieces[0].text) else pieces[0].text;
      var (t', quit) := RunLine(env, t, line, pieces[0].truncated);
      if quit then (t', true) else RunPieces(env, t', pieces[1..], false)
  }

  lemma {:induction false} RunPiecesConcat(env: Env, t: Session, xs: seq<Piece>, ys: seq<Piece>, first: bool)
    requires Sound(env) && Consistent(t)
    requires NoNuls(xs) && NoNuls(ys)
    ensures NoNuls(xs + ys)
    ensures var r := RunPieces(env, t, xs, first);
            RunPieces(env, t, xs + ys, first) == if r.1 then r else RunPieces(env, r.0, ys, first && xs == [])
    decreases |xs|
  {
    if xs == [] {
      assert xs + ys == ys;
    } else {
      assert (xs + ys)[1..] == xs[1..] + ys;
      var line := if first then SkipMark(xs[0].text) else xs[0].text;
      var (t', quit) := RunLine(env, t, line, xs[0].truncated);
      if !quit {
        RunPiecesConcat(env, t', xs[1..], ys, false);
      }
    }
  }

  function WholeLines(lines: seq<string>): seq<Piece> {
    seq(|lines|, i requires 0 <= i < |lines| => Piece(lines[i], false))
  }

  function PiecesOf(segments: seq<Segment>): seq<Piece> {
    seq(|segments|, i requires 0 <= i < |segments| => Piece(StripEol(segments[i].raw), segments[i].truncated))
  }

  /** The line at `at`, run through the splitter in the reader's buffer. */
  method RunLineInPlace(env: Env, t: Session, lb: LineBuffer, at: nat, length: nat, ghost line: string)
    returns (t': Session, quit: bool)
    requires Sound(env) && Consistent(t) && lb.Valid() && '\0' !in line
    requires lb.startOfLine <= at && |line| == length && at + length < lb.buffer.Length
    requires lb.buffer[at..at + length] == line && lb.buffer[at + length] == '\0'
    requires if lb.truncated then at + length == lb.endOfLine == lb.end else at + length < lb.endOfLine
    modifies lb.buffer
    ensures lb.Valid() && lb.Pending() == old(lb.Pending())
    ensures (t', quit) == RunLine(env, t, line, lb.truncated)
  {
    var text := lb.buffer[at..at + length];
    if (env.namedCommands || t.buffer == []) && !t.mlComment && t.inString == '\0'
       && env.isNamedCommand(text, t.delimiter)
    {
      var call := NamedCommand(text, t.buffer);
      var response := env.respond(t.log, call);
      t' := t.(buffer := response.buffer, delimiter := response.delimiter, log := t.log + [call]);
      quit := response.quit;
    } else {
      ghost var before := lb.buffer[..];
      t', quit := Splitter.AddLineInPlace(env, t, lb.buffer, at, lb.truncated, line);
      Behind(lb.buffer, at, if lb.truncated then length else length + 1, before, lb.endOfLine, lb.end);
    }
  }

  /** What lies behind an edited line is as it was. */
  lemma Behind(a: array<char>, start: nat, length: nat, before: seq<char>, i: nat, j: nat)
    requires Splitter.Untouched(a, start, length, before) && start + length <= i <= j < a.Length
    ensures a[i..j] == before[i..j] && a[j] == before[j]
  {
  }

  function Line(text: string, first: bool): string {
    if first then SkipMark(text) else text
  }

  /** The line starts at `at` in the reader's buffer and may be edited there. */
  ghost predicate Editable(lb: LineBuffer, at: nat, line: string)
    reads lb, lb.buffer
  {
    && lb.startOfLine <= at && at + |line| < lb.buffer.Length
    && lb.buffer[at..at + |line|] == line && lb.buffer[at + |line|] == '\0'
    && (if lb.truncated then at + |line| == lb.endOfLine == lb.end else at + |line| < lb.endOfLine)
  }

  method SkipMarkInPlace(lb: LineBuffer, at: nat, length: nat, ghost text: string) returns (at': nat, length': nat)
    requires Editable(lb, at, text) && length == |text|
    ensures Editable(lb, at', SkipMark(text)) && length' == |SkipMark(text)|
  {
    at', length' := at, length;
    if length >= 3 && lb.buffer[at] == '\U{EF}' && lb.buffer[at + 1] == '\U{BB}' && lb.buffer[at + 2] == '\U{BF}' {
      at', length' := at + 3, length - 3;
      assert lb.buffer[at'..at' + length'] == lb.buffer[at..at + length][3..];
    }
    assert forall i :: 0 <= i < |text| ==> text[i] == lb.buffer[at..at + length][i];
  }

  /** The segment is the first of the stream, and is broken off only where the buffer cannot grow. */
  ghost predicate FirstOf(stream: string, g: Segment, rest: string, maxSize: nat) {
    && stream == g.raw + rest && LegalSegment(g, rest)
    && (g.truncated ==> 2 * (|g.raw| + IO_SIZE) > maxSize)
  }

  lemma CutIsEditable(lb: LineBuffer, raw: string, rest: string, length: nat)
    requires lb.Cut(raw, rest, length) && '\0' !in raw
    ensures Editable(lb, lb.startOfLine, StripEol(raw)) && length == |StripEol(raw)| && lb.Pending() == rest
  {
  }

  /** Reads a line, past the byte order mark of the first. */
  method ReadText(lb: LineBuffer, first: bool) returns (found: bool, at: nat, length: nat, ghost g: Segment)
    requires lb.Valid() && !lb.error && '\0' !in lb.Pending()
    modifies lb, lb.buffer, lb.file
    ensures lb.buffer == old(lb.buffer) || fresh(lb.buffer)
    ensures !lb.error ==> lb.Valid()
    ensures !found && !lb.error ==> old(lb.Pending()) == [] == lb.Pending()
    ensures found ==> !lb.error && FirstOf(old(lb.Pending()), g, lb.Pending(), lb.maxSize)
    ensures found ==> g.truncated == lb.truncated && length == |Line(StripEol(g.raw), first)|
                      && Editable(lb, at, Line(StripEol(g.raw), first))
  {
    ghost var raw, rest;
    at, g := 0, Segment([], false);
    found, length, raw, rest := lb.BatchReadline();
    if found {
      PartOfStream(raw, rest, first);
      CutIsEditable(lb, raw, rest, length);
      g := Segment(raw, lb.truncated);
      at := lb.startOfLine;
      if first {
        at, length := SkipMarkInPlace(lb, at, length, StripEol(raw));
      }
    }
  }

  /** Reads a line and runs it. */
  method ReadOne(env: Env, t: Session, lb: LineBuffer, first: bool)
    returns (found: bool, t': Session, quit: bool, ghost g: Segment)
    requires Sound(env) && Consistent(t) && lb.Valid() && !lb.error && '\0' !in lb.Pending()
    modifies lb, lb.buffer, lb.file
    ensures lb.buffer == old(lb.buffer) || fresh(lb.buffer)
    ensures !lb.error ==> lb.Valid()
    ensures !found && !lb.error ==> old(lb.Pending()) == [] == lb.Pending()
    ensures found ==> !lb.error && FirstOf(old(lb.Pending()), g, lb.Pending(), lb.maxSize)
    ensures found ==> '\0' !in Line(StripEol(g.raw), first)
    ensures found ==> (t', quit) == RunLine(env, t, Line(StripEol(g.raw), first), g.truncated)
  {
    t', quit := t, false;
    var at, length;
    found, at, length, g := ReadText(lb, first);
    if found {
      PartOfStream(g.raw, lb.Pending(), first);
      t', quit := RunLineInPlace(env, t, lb, at, length, Line(StripEol(g.raw), first));
    }
  }

  lemma PartOfStream(raw: string, rest: string, first: bool)
    requires '\0' !in raw + rest
    ensures '\0' !in raw && '\0' !in rest && '\0' !in StripEol(raw) && '\0' !in Line(StripEol(raw), first)
  {
    assert forall i :: 0 <= i < |raw| ==> raw[i] == (raw + rest)[i];
    assert forall i :: 0 <= i < |rest| ==> rest[i] == (raw + rest)[|raw| + i];
  }

  /** The segments read so far, and what running them has led to. */
  ghost predicate Progress(env: Env, t0: Session, stream: string, maxSize: nat,
                           segments: seq<Segment>, rest: string, t: Session, quit: bool)
    requires Sound(env) && Consistent(t0)
  {
    && Segmented(stream, segments, rest)
    && BreaksOnlyLong(segments, maxSize)
    && NoNuls(PiecesOf(segments))
    && (t, quit) == RunPieces(env, t0, PiecesOf(segments), true)
  }

  lemma MoreProgress(env: Env, t0: Session, stream: string, maxSize: nat, segments: seq<Segment>,
                     g: Segment, pending: string, rest: string, t: Session, t': Session, quit: bool)
    requires Sound(env) && Consistent(t0) && Progress(env, t0, stream, maxSize, segments, pending, t, false)
    requires FirstOf(pending, g, rest, maxSize)
    requires '\0' !in StripEol(g.raw) && '\0' !in Line(StripEol(g.raw), segments == [])
    requires (t', quit) == RunLine(env, t, Line(StripEol(g.raw), segments == []), g.truncated)
    ensures Progress(env, t0, stream, maxSize, segments + [g], rest, t', quit)
  {
    SegmentedAppend(stream, segments, g, rest);
    var xs, y := PiecesOf(segments), Piece(StripEol(g.raw), g.truncated);
    assert PiecesOf(segments + [g]) == xs + [y];
    RunPiecesConcat(env, t0, xs, [y], true);
    assert [y][1..] == [];
    assert RunPieces(env, t, [y], xs == []) == (t', quit);
  }

  /**
   Runs a file. Whatever the reads return, the statements executed and the session left are those
   of the pieces of the file, in order, up to the one that quits, the end, or a read that fails.
   */
  method ReadAndExecute(env: Env, t0: Session, lb: LineBuffer)
    returns (t: Session, quit: bool, ghost segments: seq<Segment>, ghost rest: string)
    requires Sound(env) && Consistent(t0) && lb.Valid() && !lb.error && '\0' !in lb.Pending()
    modifies lb, lb.buffer, lb.file
    ensures Progress(env, t0, old(lb.Pending()), lb.maxSize, segments, rest, t, quit)
    ensures lb.error ==> !quit
    ensures !lb.error ==> lb.Valid() && rest == lb.Pending() && (quit || rest == [])
  {
    t, quit, segments, rest := t0, false, [], lb.Pending();
    ghost var stream := rest;
    var first := true;
    while true
      invariant !lb.error && lb.Valid() && (lb.buffer == old(lb.buffer) || fresh(lb.buffer))
      invariant '\0' !in lb.Pending() && Consistent(t) && !quit && first == (segments == [])
      invariant rest == lb.Pending() && Progress(env, t0, stream, lb.maxSize, segments, rest, t, false)
      decreases |lb.Pending()|
    {
      var found, t';
      ghost var g;
      found, t', quit, g := ReadOne(env, t, lb, first);
      if !found {
        quit := false;
        return;
      }
      PartOfStream(g.raw, lb.Pending(), first);
      MoreProgress(env, t0, stream, lb.maxSize, segments, g, rest, lb.Pending(), t, t', quit);
      first, t, segments, rest := false, t', segments + [g], lb.Pending();
      if quit {
        return;
      }
    }
  }

  /** When no line was cut at the buffer limit, these are the effects of the lines of the file. */
  lemma UntruncatedProgress(env: Env, t0: Session, stream: string, maxSize: nat,
                            segments: seq<Segment>, rest: string, t: Session, quit: bool)
    requires Sound(env) && Consistent(t0) && '\0' !in stream && (quit || rest == [])
    requires Progress(env, t0, stream, maxSize, segments, rest, t, quit)
    requires forall i :: 0 <= i < |segments| ==> !segments[i].truncated
    ensures NoNuls(WholeLines(SplitLines(stream)))
    ensures (t, quit) == RunPieces(env, t0, WholeLines(SplitLines(stream)), true)
  {
    UntruncatedPieces(stream, segments, rest);
    RestNotRun(env, t0, PiecesOf(segments), WholeLines(SplitLines(rest)), quit);
  }

  /** After a line that quits nothing more is run; otherwise there is nothing more. */
  lemma RestNotRun(env: Env, t0: Session, xs: seq<Piece>, ys: seq<Piece>, quit: bool)
    requires Sound(env) && Consistent(t0) && NoNuls(xs) && NoNuls(ys)
    requires RunPieces(env, t0, xs, true).1 == quit && (quit || ys == [])
    ensures NoNuls(xs + ys) && RunPieces(env, t0, xs + ys, true) == RunPieces(env, t0, xs, true)
  {
    if ys == [] {
      assert xs + ys == xs;
    } else {
      RunPiecesConcat(env, t0, xs, ys, true);
    }
  }

  /** A file whose lines all fit the buffer executes exactly its newline-split lines, whatever the reads return. */
  lemma ShortLinesProgress(env: Env, t0: Session, stream: string, maxSize: nat,
                           segments: seq<Segment>, rest: string, t: Session, quit: bool)
    requires Sound(env) && Consistent(t0) && '\0' !in stream && (quit || rest == [])
    requires Progress(env, t0, stream, maxSize, segments, rest, t, quit) && ShortLines(stream, maxSize)
    ensures NoNuls(WholeLines(SplitLines(stream)))
    ensures (t, quit) == RunPieces(env, t0, WholeLines(SplitLines(stream)), true)
  {
    ShortLinesUntruncated(stream, segments, rest, maxSize);
    UntruncatedProgress(env, t0, stream, maxSize, segments, rest, t, quit);
  }

  lemma UntruncatedPieces(stream: string, segments: seq<Segment>, rest: string)
    requires Segmented(stream, segments, rest) && '\0' !in stream
    requires forall i :: 0 <= i < |segments| ==> !segments[i].truncated
    ensures WholeLines(SplitLines(stream)) == PiecesOf(segments) + WholeLines(SplitLines(rest))
    ensures NoNuls(PiecesOf(segments)) && NoNuls(WholeLines(SplitLines(rest))) && NoNuls(WholeLines(SplitLines(stream)))
  {
    LinesHaveNoNul(stream);
    UntruncatedLines(stream, segments, rest);
    LinesOfPieces(segments);
    WholeLinesConcat(LinesOf(segments), SplitLines(rest));
    NoNulsParts(PiecesOf(segments), WholeLines(SplitLines(rest)));
  }

  lemma NoNulsParts(xs: seq<Piece>, ys: seq<Piece>)
    requires NoNuls(xs + ys)
    ensures NoNuls(xs) && NoNuls(ys)
  {
    assert forall i :: 0 <= i < |xs| ==> xs[i] == (xs + ys)[i];
    assert forall i :: 0 <= i < |ys| ==> ys[i] == (xs + ys)[|xs| + i];
  }

  lemma WholeLinesConcat(xs: seq<string>, ys: seq<string>)
    ensures WholeLines(xs + ys) == WholeLines(xs) + WholeLines(ys)
  {
  }

  lemma {:induction false} LinesOfPieces(segments: seq<Segment>)
    requires forall i :: 0 <= i < |segments| ==> !segments[i].truncated
    ensures WholeLines(LinesOf(segments)) == PiecesOf(segments)
  {
    if segments == [] {
    } else {
      LinesOfPieces(segments[1..]);
      assert PiecesOf(segments) == PiecesOf(segments[..1]) + PiecesOf(segments[1..]);
    }
  }

  lemma {:induction false} LinesHaveNoNul(s: string)
    requires '\0' !in s
    ensures forall i :: 0 <= i < |SplitLines(s)| ==> '\0' !in SplitLines(s)[i]
  {
    if s != [] && FirstNewline(s) < |s| {
      var n := FirstNewline(s) + 1;
      assert s == s[..n] + s[n..];
      PartOfStream(s[..n], s[n..], false);
      LinesHaveNoNul(s[n..]);
    }
  }

  // ---------- The last statement ----------

  /** The text up to its last visible character. */
  function TrimEnd(env: Env, s: string): (r: string)
    ensures r <= s && (r != [] ==> env.isGraph(r[|r| - 1]))
    ensures forall i :: |r| <= i < |s| ==> !env.isGraph(s[i])
  {
    if s != [] && !env.isGraph(s[|s| - 1]) then TrimEnd(env, s[..|s| - 1]) else s
  }

  /** After the end of the file or a clean quit, what is left is sent although no delimiter ends it. */
  function Complete(env: Env, t: Session, quit: bool): (Session, bool) {
    var text := TrimEnd(env, t.buffer);
    if quit && !env.quitsCleanly(t.log) then (t, false)
    else if text == [] then (t.(buffer := []), true)
    else
      var response := env.respond(t.log, Statement(text));
      (t.(buffer := response.buffer, delimiter := response.delimiter, log := t.log + [Statement(text)]), !response.quit)
  }

  ghost predicate Trimming(env: Env, s: string, n: nat) {
    n <= |s| && TrimEnd(env, s) == TrimEnd(env, s[..n])
  }

  lemma TrimOne(env: Env, s: string, n: nat)
    requires 0 < n <= |s| && !env.isGraph(s[n - 1]) && Trimming(env, s, n)
    ensures Trimming(env, s, n - 1)
  {
    assert s[..n][..n - 1] == s[..n - 1];
  }

  lemma TrimAll(env: Env, s: string, n: nat)
    requires Trimming(env, s, n) && (n > 0 ==> env.isGraph(s[n - 1]))
    ensures TrimEnd(env, s) == s[..n]
  {
  }

  method RemoveControl(env: Env, buffer: string) returns (r: string)
    ensures r == TrimEnd(env, buffer)
  {
    var end := |buffer|;
    assert buffer[..end] == buffer;
    while 0 < end && !env.isGraph(buffer[end - 1])
      invariant 0 <= end <= |buffer| && Trimming(env, buffer, end)
    {
      TrimOne(env, buffer, end);
      end := end - 1;
    }
    TrimAll(env, buffer, end);
    return buffer[..end];
  }

  /** A whole run of the client on a file, with its exit status. After a read error nothing more is sent. */
  method RunFile(env: Env, t0: Session, lb: LineBuffer)
    returns (t: Session, success: bool, ghost last: Session, ghost quit: bool,
             ghost segments: seq<Segment>, ghost rest: string)
    requires Sound(env) && Consistent(t0) && lb.Valid() && !lb.error && '\0' !in lb.Pending()
    modifies lb, lb.buffer, lb.file
    ensures Progress(env, t0, old(lb.Pending()), lb.maxSize, segments, rest, last, quit)
    ensures !lb.error ==> quit || rest == []
    ensures (t, success) == if lb.error then (last, false) else Complete(env, last, quit)
  {
    var stopped;
    t, stopped, segments, rest := ReadAndExecute(env, t0, lb);
    last, quit, success := t, stopped, !lb.error && (!stopped || env.quitsCleanly(t.log));
    if success {
      var text := RemoveControl(env, t.buffer);
      t := t.(buffer := text);
      if text != [] {
        var response := env.respond(t.log, Statement(text));
        t := t.(buffer := response.buffer, delimiter := response.delimiter, log := t.log + [Statement(text)]);
        success := !response.quit;
      }
    }
  }
}
