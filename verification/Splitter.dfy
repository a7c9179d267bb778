/**
 `add_line` as the program runs it: one buffer, read at `pos` and overwritten at `out`, that also
 belongs to the line reader. Every branch is proved to do what the scan with separate input and
 output does, and to leave the rest of the buffer alone.
 */
module Splitter {
  import opened Helpers
  import opened SplitterSpec

  /** The variables of the scan. The accepted characters are the first `out` bytes of the line itself. */
  datatype Cursor = Cursor(
    pos: nat,
    out: nat,
    buffer: string,
    delimiter: string,
    inString: char,
    mlComment: bool,
    ssComment: bool,
    needSpace: bool,
    log: seq<Call>)

  /** The variables agree with the scan, the accepted characters apart. */
  predicate Agrees(c: Cursor, s: Scan) {
    && c == Cursor(s.pos, |s.out|, s.buffer, s.delimiter, s.inString, s.mlComment, s.ssComment, s.needSpace, s.log)
  }

  /**
   The line at `start` holds the accepted characters, then bytes that no longer matter, then the
   unread rest of the input and its NUL.
   */
  ghost predicate Holds(a: array<char>, start: nat, input: string, out: string, pos: nat)
    reads a
  {
    && start + |input| < a.Length
    && |out| <= pos <= |input|
    && (forall i :: 0 <= i < |out| ==> a[start + i] == out[i])
    && (forall i :: pos <= i < |input| ==> a[start + i] == input[i])
    && a[start + |input|] == '\0'
  }

  /** Nothing but the line's own bytes, up to its NUL, differs from the buffer as it was. */
  ghost predicate Untouched(a: array<char>, start: nat, length: nat, before: seq<char>)
    reads a
  {
    && a.Length == |before|
    && forall i :: 0 <= i < a.Length && !(start <= i < start + length) ==> a[i] == before[i]
  }

  ghost predicate Tracks(a: array<char>, start: nat, input: string, c: Cursor, s: Scan)
    reads a
  {
    Wellformed(input, s) && Agrees(c, s) && Holds(a, start, input, s.out, s.pos)
  }

  /** The byte at the read cursor is that of the input, or the NUL. */
  lemma NextByte(a: array<char>, start: nat, input: string, out: string, pos: nat)
    requires Holds(a, start, input, out, pos)
    ensures a[start + pos] == At(input, pos)
  {
  }

  /** *out++= c, once the read cursor is past the byte written. */
  method Put(a: array<char>, start: nat, ghost input: string, ghost out: string, n: nat, pos: nat, c: char)
    requires Holds(a, start, input, out, pos) && n == |out| < pos
    modifies a
    ensures Holds(a, start, input, out + [c], pos)
    ensures forall i :: 0 <= i < a.Length && i != start + n ==> a[i] == old(a[i])
  {
    a[start + n] := c;
  }

  method Accept(env: Env, a: array<char>, start: nat, ghost input: string, c: Cursor, ghost s: Scan, ch: char)
    returns (c': Cursor)
    requires Holds(a, start, input, s.out, s.pos) && Agrees(c, s)
    requires |s.out| < s.pos && (s.needSpace ==> |s.out| + 1 < s.pos)
    modifies a
    ensures Agrees(c', Accepted(env, s, ch)) && Holds(a, start, input, Accepted(env, s, ch).out, s.pos)
    ensures Untouched(a, start, |input|, old(a[..]))
  {
    var n := c.out;
    ghost var text := s.out;
    if c.needSpace && !env.isSpace(ch) {
      Put(a, start, input, text, n, c.pos, ' ');
      n, text := n + 1, text + " ";
    }
    Put(a, start, input, text, n, c.pos, ch);
    c' := c.(out := n + 1, needSpace := false);
    assert text + [ch] == Accepted(env, s, ch).out;
  }

  method SetModes(a: array<char>, start: nat, ghost input: string, c: Cursor, ghost s: Scan) returns (c': Cursor)
    requires Tracks(a, start, input, c, s) && s.pos < |input|
    ensures Agrees(c', Moded(input, s))
  {
    c' := c;
    var p := start + c.pos;
    var ch := a[p];
    if c.inString == '\0' && ch == '/' && a[p + 1] == '*' && a[p + 2] == '!' {
      c' := c'.(ssComment := true);
    } else if c.inString == '\0' && c.ssComment && ch == '*' && a[p + 1] == '/' {
      c' := c'.(ssComment := false);
    }
    if ch == c.inString {
      c' := c'.(inString := '\0');
    } else if !c.mlComment && c.inString == '\0' && (ch == '\'' || ch == '"' || ch == '`') {
      c' := c'.(inString := ch);
    }
  }

  method AddPlain(env: Env, a: array<char>, start: nat, ghost input: string, c: Cursor, ghost s: Scan)
    returns (c': Cursor)
    requires Tracks(a, start, input, c, s) && s.pos < |input|
    modifies a
    ensures Tracks(a, start, input, c', StepPlain(env, input, s).s)
    ensures Untouched(a, start, |input|, old(a[..]))
  {
    var ch := a[start + c.pos];
    c' := SetModes(a, start, input, c, s);
    c' := c'.(pos := c.pos + 1);
    ghost var moved := Moded(input, s).(pos := s.pos + 1);
    if !c.mlComment || env.preserveComments {
      c' := Accept(env, a, start, input, c', moved, ch);
    }
  }

  // ---------- Reading ahead ----------

  /** is_prefix(pos, d). */
  method HasPrefix(a: array<char>, start: nat, ghost input: string, ghost out: string, ghost pos: nat,
                   i: nat, d: string)
    returns (b: bool)
    requires Holds(a, start, input, out, pos) && pos <= i <= |input| && '\0' !in d
    ensures b == StartsAt(input, i, d)
  {
    var k := 0;
    while k < |d|
      invariant k <= |d| && i + k <= |input|
      invariant forall x :: 0 <= x < k ==> d[x] == input[i + x]
    {
      if a[start + i + k] != d[k] {
        assert k < |d| && (i + k == |input| || input[i + k] != d[k]);
        PrefixEnds(input, i, d, k);
        return false;
      }
      assert i + k < |input|;
      k := k + 1;
    }
    assert input[i..i + |d|] == d;
    b := true;
  }

  lemma PrefixEnds(input: string, i: nat, d: string, k: nat)
    requires i + k <= |input| && k < |d| && (i + k == |input| || input[i + k] != d[k])
    ensures !StartsAt(input, i, d)
  {
    if i + |d| <= |input| {
      assert input[i..i + |d|][k] == input[i + k];
    }
  }

  /** The line from position i to its NUL. */
  method Rest(a: array<char>, start: nat, ghost input: string, ghost out: string, ghost pos: nat, i: nat)
    returns (text: string)
    requires Holds(a, start, input, out, pos) && pos <= i <= |input| && '\0' !in input
    ensures text == input[i..]
  {
    var j := i;
    while a[start + j] != '\0'
      invariant i <= j <= |input| && a[start + j] == At(input, j)
      decreases |input| - j
    {
      j := j + 1;
    }
    text := a[start + i..start + j];
  }

  method SkipToClose(a: array<char>, start: nat, ghost input: string, ghost out: string, ghost pos: nat, i: nat)
    returns (j: nat)
    requires Holds(a, start, input, out, pos) && pos <= i <= |input| && '\0' !in input
    ensures j == FindClose(input, i)
  {
    j := i;
    while a[start + j] != '\0' && (a[start + j] != '*' || a[start + j + 1] != '/')
      invariant i <= j <= |input| && FindClose(input, i) == FindClose(input, j)
      decreases |input| - j
    {
      j := j + 1;
    }
  }

  /** Skips parameters up to the delimiter and over it, or to the end of the line. */
  method SkipPastDelimiter(
    a: array<char>, start: nat, ghost input: string, ghost out: string, ghost pos: nat, i: nat, d: string)
    returns (j: nat)
    requires Holds(a, start, input, out, pos) && pos <= i <= |input| && '\0' !in input && Delimiter(d)
    ensures var p := FindDelimiter(input, i, d); j == if p == |input| then p else p + |d|
  {
    j := i;
    while a[start + j] != '\0'
      invariant i <= j <= |input| && a[start + j] == At(input, j)
      invariant FindDelimiter(input, i, d) == FindDelimiter(input, j, d)
      decreases |input| - j
    {
      var here := HasPrefix(a, start, input, out, pos, j, d);
      if here {
        return j + |d|;
      }
      j := j + 1;
    }
  }

  // ---------- Branches ----------

  method FlushOut(a: array<char>, start: nat, ghost input: string, c: Cursor, ghost s: Scan) returns (c': Cursor)
    requires Tracks(a, start, input, c, s)
    ensures Tracks(a, start, input, c', Flush(s))
  {
    c' := c;
    if c.out != 0 {
      assert a[start..start + c.out] == s.out;
      c' := c.(buffer := c.buffer + a[start..start + c.out], out := 0);
    }
    assert s.buffer + [] == s.buffer;
  }

  /** Copies the two bytes at the read cursor and passes them. */
  method CopyTwo(a: array<char>, start: nat, ghost input: string, c: Cursor, ghost s: Scan, x: char, y: char)
    returns (c': Cursor)
    requires Tracks(a, start, input, c, s) && s.pos + 2 <= |input|
    modifies a
    ensures Tracks(a, start, input, c', s.(out := s.out + [x, y], pos := s.pos + 2))
    ensures Untouched(a, start, |input|, old(a[..]))
  {
    Put(a, start, input, s.out, c.out, c.pos + 2, x);
    Put(a, start, input, s.out + [x], c.out + 1, c.pos + 2, y);
    assert s.out + [x] + [y] == s.out + [x, y];
    c' := c.(out := c.out + 2, pos := c.pos + 2);
  }

  method MarkComment(env: Env, a: array<char>, start: nat, ghost input: string, c: Cursor, ghost s: Scan,
                     mark: string, opens: bool) returns (c': Cursor)
    requires Tracks(a, start, input, c, s) && |mark| == 2 && StartsAt(input, s.pos, mark) && s.inString == '\0'
    modifies a
    ensures Tracks(a, start, input, c', StepCommentMark(env, input, s, mark, opens).s)
    ensures Untouched(a, start, |input|, old(a[..]))
  {
    ghost var t := s.(pos := s.pos + 2);
    c' := c.(pos := c.pos + 2);
    if env.preserveComments {
      c' := CopyTwo(a, start, input, c, s, mark[0], mark[1]);
      t := t.(out := s.out + mark);
      assert [mark[0], mark[1]] == mark;
    }
    c' := FlushOut(a, start, input, c', t);
    c' := c'.(mlComment := opens, needSpace := c.needSpace || !opens);
  }

  /** What a branch leaves: the variables, and whether the loop goes on, ends, or the program quits. */
  datatype Signal = GoOn | Stop | Leave

  predicate Signals(signal: Signal, r: Outcome) {
    match signal
    case GoOn => r.Next?
    case Stop => r.Break?
    case Leave => r.Quit?
  }

  method EndAtComment(env: Env, a: array<char>, start: nat, ghost input: string, c: Cursor, ghost s: Scan)
    returns (c': Cursor, signal: Signal)
    requires Sound(env) && Tracks(a, start, input, c, s) && s.pos < |input|
    ensures var r := StepLineComment(env, input, s); Tracks(a, start, input, c', r.s) && Signals(signal, r)
  {
    c' := FlushOut(a, start, input, c, s);
    signal := Stop;
    if env.preserveComments {
      var startedWithNothing := c'.buffer == [];
      var text := Rest(a, start, input, [], c.pos, c.pos);
      c' := c'.(buffer := c'.buffer + text);
      if startedWithNothing {
        var quit;
        c', quit := Execute(env, c', Flush(s).(buffer := c'.buffer));
        if quit {
          signal := Leave;
        }
      }
    }
  }

  lemma OneMore(input: string, i: nat, j: nat, out: string)
    requires i <= j < |input|
    ensures (out + input[i..j]) + [input[j]] == out + input[i..j + 1]
  {
    assert input[i..j + 1] == input[i..j] + [input[j]];
  }

  /** Copies spaces from the read position to the write position. */
  method MoveSpaces(env: Env, a: array<char>, start: nat, ghost input: string, ghost out: string, from: nat, n: nat)
    returns (pos: nat)
    requires Sound(env) && Holds(a, start, input, out, from) && n == |out|
    modifies a
    ensures pos == SkipSpaces(env, input, from) && Holds(a, start, input, out + input[from..pos], pos)
    ensures Untouched(a, start, |input|, old(a[..]))
  {
    pos := from;
    assert out + input[from..from] == out;
    NextByte(a, start, input, out, from);
    while env.isSpace(a[start + pos])
      invariant from <= pos <= |input| && Holds(a, start, input, out + input[from..pos], pos)
      invariant a[start + pos] == At(input, pos)
      invariant SkipSpaces(env, input, from) == SkipSpaces(env, input, pos)
      invariant Untouched(a, start, |input|, old(a[..]))
      decreases |input| - pos
    {
      var ch := a[start + pos];
      Put(a, start, input, out + input[from..pos], n + (pos - from), pos + 1, ch);
      OneMore(input, from, pos, out);
      pos := pos + 1;
      NextByte(a, start, input, out + input[from..pos], pos);
    }
  }

  /** Copies the spaces behind a delimiter. */
  method CopySpaces(env: Env, a: array<char>, start: nat, ghost input: string, c: Cursor, ghost s: Scan)
    returns (c': Cursor)
    requires Sound(env) && Tracks(a, start, input, c, s)
    modifies a
    ensures var q := SkipSpaces(env, input, s.pos);
            Tracks(a, start, input, c', s.(out := s.out + input[s.pos..q], pos := q))
    ensures Untouched(a, start, |input|, old(a[..]))
  {
    var pos := MoveSpaces(env, a, start, input, s.out, c.pos, c.out);
    c' := c.(pos := pos, out := c.out + (pos - c.pos));
  }

  /** Asks for the statement in the buffer to be executed, and starts a new one. */
  method Execute(env: Env, c: Cursor, ghost s: Scan) returns (c': Cursor, quit: bool)
    requires Agrees(c, s)
    ensures var (response, asked) := Ask(env, s, Statement(s.buffer));
            && quit == response.quit
            && Agrees(c', asked.(buffer := if quit then response.buffer else [], delimiter := response.delimiter))
  {
    var call := Statement(c.buffer);
    var response := env.respond(c.log, call);
    quit := response.quit;
    c' := c.(buffer := if quit then response.buffer else [], delimiter := response.delimiter, log := c.log + [call]);
  }

  /** The delimiter has been passed, and the spaces behind it if comments are kept. */
  method PassDelimiter(env: Env, a: array<char>, start: nat, ghost input: string, c: Cursor, ghost s: Scan)
    returns (c': Cursor)
    requires Sound(env) && Tracks(a, start, input, c, s) && StartsAt(input, s.pos, s.delimiter)
    modifies a
    ensures Tracks(a, start, input, c', AfterDelimiter(env, input, s))
    ensures Untouched(a, start, |input|, old(a[..]))
  {
    c' := c.(pos := c.pos + |c.delimiter|);
    ghost var t := s.(pos := s.pos + |s.delimiter|);
    if env.preserveComments {
      c' := CopySpaces(env, a, start, input, c', t);
      t := t.(out := s.out + input[t.pos..c'.pos], pos := c'.pos);
    } else {
      assert s.out + input[t.pos..t.pos] == s.out;
    }
    c' := FlushOut(a, start, input, c', t);
    if env.preserveComments {
      c' := TakeTrailingComment(env, a, start, input, c', Flush(t));
    }
  }

  /** Adds a single-line comment behind the delimiter to the statement. */
  method TakeTrailingComment(env: Env, a: array<char>, start: nat, ghost input: string, c: Cursor, ghost s: Scan)
    returns (c': Cursor)
    requires Tracks(a, start, input, c, s) && s.out == []
    ensures Tracks(a, start, input, c', if TrailingComment(env, input, s.pos)
                                        then s.(buffer := s.buffer + input[s.pos..], pos := |input|) else s)
  {
    c' := c;
    var p := start + c.pos;
    if a[p] == '#' || (a[p] == '-' && a[p + 1] == '-' && env.isSpace(a[p + 2])) {
      var text := Rest(a, start, input, [], c.pos, c.pos);
      c' := c.(buffer := c.buffer + text, pos := c.pos + |text|);
    }
  }

  method EndStatement(env: Env, a: array<char>, start: nat, ghost input: string, c: Cursor, ghost s: Scan)
    returns (c': Cursor, signal: Signal)
    requires Sound(env) && Tracks(a, start, input, c, s) && s.pos < |input| && StartsAt(input, s.pos, s.delimiter)
    modifies a
    ensures var r := StepDelimiter(env, input, s); Tracks(a, start, input, c', r.s) && Signals(signal, r)
    ensures Untouched(a, start, |input|, old(a[..]))
  {
    c' := PassDelimiter(env, a, start, input, c, s);
    var quit;
    c', quit := Execute(env, c', AfterDelimiter(env, input, s));
    signal := if quit then Leave else GoOn;
  }

  method DoCommand(env: Env, a: array<char>, start: nat, ghost input: string, c: Cursor, ghost s: Scan,
                   takesParams: bool)
    returns (c': Cursor, signal: Signal)
    requires Sound(env) && Tracks(a, start, input, c, s) && s.pos + 1 < |input|
    ensures var r := StepCommand(env, input, s, takesParams); Tracks(a, start, input, c', r.s) && Signals(signal, r)
  {
    var quit;
    c', quit := AskCommand(env, a, start, input, c, s);
    if quit {
      return c'.(pos := c.pos + 1), Leave;
    }
    var p := SkipParameters(a, start, input, c.pos, c.pos + 2, takesParams, c.ssComment, c'.delimiter);
    c', signal := c'.(pos := p), GoOn;
  }

  /** Hands the statement so far and the rest of the line to a command. */
  method AskCommand(env: Env, a: array<char>, start: nat, ghost input: string, c: Cursor, ghost s: Scan)
    returns (c': Cursor, quit: bool)
    requires Sound(env) && Tracks(a, start, input, c, s) && s.pos + 1 < |input|
    ensures var (response, asked) := Ask(env, Flush(s), Command(input[s.pos + 1], Flush(s).buffer, input[s.pos..]));
            quit == response.quit && Agrees(c', asked.(buffer := response.buffer, delimiter := response.delimiter))
  {
    c' := FlushOut(a, start, input, c, s);
    var rest := Rest(a, start, input, [], c.pos, c.pos);
    var call := Command(a[start + c.pos + 1], c'.buffer, rest);
    var response := env.respond(c'.log, call);
    c', quit := c'.(buffer := response.buffer, delimiter := response.delimiter, log := c'.log + [call]), response.quit;
  }

  method SkipParameters(a: array<char>, start: nat, ghost input: string, ghost pos: nat, i: nat,
                        takesParams: bool, ssComment: bool, d: string) returns (j: nat)
    requires Holds(a, start, input, [], pos) && pos <= i <= |input| && '\0' !in input && Delimiter(d)
    ensures j == AfterParameters(input, i, takesParams, ssComment, d)
  {
    j := i;
    if takesParams {
      if ssComment {
        j := SkipToClose(a, start, input, [], pos, i);
      } else {
        j := SkipPastDelimiter(a, start, input, [], pos, i, d);
      }
    }
  }

  method DoBackslash(env: Env, a: array<char>, start: nat, ghost input: string, c: Cursor, ghost s: Scan)
    returns (c': Cursor, signal: Signal)
    requires Sound(env) && Tracks(a, start, input, c, s) && s.pos < |input|
    modifies a
    ensures var r := StepBackslash(env, input, s); Tracks(a, start, input, c', r.s) && Signals(signal, r)
    ensures Untouched(a, start, |input|, old(a[..]))
  {
    var letter := a[start + c.pos + 1];
    assert letter == At(input, s.pos + 1);
    c', signal := c, GoOn;
    if letter == '\0' {
      c', signal := c.(pos := c.pos + 1), Stop;
    } else if c.inString != '\0' || letter == 'N' {
      c' := CopyTwo(a, start, input, c, s, '\\', letter);
    } else {
      match FindCommand(letter)
      case None =>
        var call := UnknownCommand(letter);
        c' := c.(log := c.log + [call]);
        if env.respond(c.log, call).quit {
          return c'.(pos := c.pos + 1), Leave;
        }
        c' := CopyTwo(a, start, input, c', s.(log := c'.log), '\\', letter);
      case Some(takesParams) =>
        c', signal := DoCommand(env, a, start, input, c, s, takesParams);
    }
  }

  // ---------- The whole line ----------

  /** Which branch of the loop is taken. */
  method Look(env: Env, a: array<char>, start: nat, ghost input: string, c: Cursor, ghost s: Scan)
    returns (token: Token)
    requires Tracks(a, start, input, c, s) && s.pos < |input|
    ensures token == Classify(env, input, s)
  {
    var p := start + c.pos;
    var ch := a[p];
    assert ch == input[s.pos] && a[p + 1] == At(input, s.pos + 1);
    assert a[p + 1] != '\0' ==> a[p + 2] == At(input, s.pos + 2);
    var delimited := HasPrefix(a, start, input, s.out, s.pos, c.pos, c.delimiter);
    if !env.preserveComments && env.isSpace(ch) && c.out == 0 && c.buffer == [] {
      token := LeadingSpace;
    } else if !c.mlComment && ch == '\\' && !(c.inString != '\0' && env.noBackslashEscapes(c.log)) {
      token := Backslash;
    } else if !c.mlComment && c.inString == '\0' && delimited {
      token := EndOfStatement;
    } else if !c.mlComment && c.inString == '\0' && (ch == '#' || (ch == '-' && a[p + 1] == '-'
                                                                  && (env.isSpace(a[p + 2]) || a[p + 2] == '\0'))) {
      token := LineComment;
    } else if c.inString == '\0' && ch == '/' && a[p + 1] == '*' && a[p + 2] != '!' {
      token := CommentOpen;
    } else if c.mlComment && !c.ssComment && ch == '*' && a[p + 1] == '/' {
      token := CommentClose;
    } else {
      token := Plain;
    }
  }

  /** One iteration of the scan. */
  method DoStep(env: Env, a: array<char>, start: nat, ghost input: string, c: Cursor, ghost s: Scan)
    returns (c': Cursor, signal: Signal)
    requires Sound(env) && Tracks(a, start, input, c, s) && s.pos < |input|
    modifies a
    ensures var r := Step(env, input, s); Tracks(a, start, input, c', r.s) && Signals(signal, r)
    ensures Untouched(a, start, |input|, old(a[..]))
  {
    var token := Look(env, a, start, input, c, s);
    signal := GoOn;
    match token
    case LeadingSpace => c' := c.(pos := c.pos + 1);
    case Backslash => c', signal := DoBackslash(env, a, start, input, c, s);
    case EndOfStatement => c', signal := EndStatement(env, a, start, input, c, s);
    case LineComment => c', signal := EndAtComment(env, a, start, input, c, s);
    case CommentOpen => c' := MarkComment(env, a, start, input, c, s, "/*", true);
    case CommentClose => c' := MarkComment(env, a, start, input, c, s, "*/", false);
    case Plain => c' := AddPlain(env, a, start, input, c, s);
  }

  /** The byte at the read cursor. */
  method Peek(a: array<char>, start: nat, ghost input: string, c: Cursor, ghost s: Scan) returns (ch: char)
    requires Tracks(a, start, input, c, s)
    ensures ch == At(input, s.pos)
  {
    NextByte(a, start, input, s.out, s.pos);
    ch := a[start + c.pos];
  }

  /** An iteration, seen from the scan of the whole line. */
  method Iterate(env: Env, a: array<char>, start: nat, ghost input: string, c: Cursor, ghost s: Scan)
    returns (c': Cursor, signal: Signal, ghost s': Scan)
    requires Sound(env) && Tracks(a, start, input, c, s) && s.pos < |input|
    modifies a
    ensures Tracks(a, start, input, c', s') && Untouched(a, start, |input|, old(a[..]))
    ensures signal == GoOn ==> s.pos < s'.pos && Run(env, input, s) == Run(env, input, s')
    ensures signal != GoOn ==> Signals(signal, Run(env, input, s)) && Run(env, input, s).s == s'
  {
    s' := Step(env, input, s).s;
    c', signal := DoStep(env, a, start, input, c, s);
  }

  /** The scan of the whole line. */
  method DoRun(env: Env, t: Session, a: array<char>, start: nat, ghost input: string)
    returns (c: Cursor, signal: Signal, ghost s: Scan)
    requires Sound(env) && Consistent(t) && '\0' !in input && Holds(a, start, input, [], 0)
    modifies a
    ensures Run(env, input, Start(t)).s == s && Tracks(a, start, input, c, s)
    ensures Signals(signal, Run(env, input, Start(t)))
    ensures Untouched(a, start, |input|, old(a[..]))
  {
    c := Cursor(0, 0, t.buffer, t.delimiter, t.inString, t.mlComment, false, false, t.log);
    s := Start(t);
    signal := GoOn;
    var ch := Peek(a, start, input, c, s);
    while ch != '\0'
      invariant signal == GoOn && Tracks(a, start, input, c, s) && ch == At(input, s.pos)
      invariant Run(env, input, Start(t)) == Run(env, input, s)
      invariant Untouched(a, start, |input|, old(a[..]))
      decreases |input| - s.pos
    {
      c, signal, s := Iterate(env, a, start, input, c, s);
      if signal != GoOn {
        return;
      }
      ch := Peek(a, start, input, c, s);
    }
    signal := Stop;
  }

  /** Keeps the rest of the line for the statement in progress, with a newline behind it. */
  method KeepRest(env: Env, a: array<char>, start: nat, ghost input: string, c: Cursor, ghost s: Scan, truncated: bool)
    returns (buffer: string)
    requires Tracks(a, start, input, c, s)
    modifies a
    ensures buffer == Finish(env, s, truncated).buffer
    ensures Untouched(a, start, if truncated then |input| else |input| + 1, old(a[..]))
  {
    buffer := c.buffer;
    if c.out == 0 && c.buffer == [] {
      return;
    }
    var length := c.out;
    assert a[start..start + length] == s.out;
    assert 9 <= length ==> a[start..start + 9] == s.out[..9];
    if !truncated && (length < 9 || !env.isDelimiterWord(a[start..start + 9])) {
      a[start + length] := '\n';
      length := length + 1;
      assert a[start..start + length] == s.out + "\n";
    }
    if !c.mlComment || env.preserveComments {
      buffer := buffer + a[start..start + length];
    }
  }

  /**
   One line, edited in place. The outcome is that of the scan with separate input and output, and
   no byte outside the line changes: not past its NUL, and not the NUL itself when the line was
   truncated and the NUL is the reader's sentinel.
   */
  method AddLineInPlace(env: Env, t: Session, a: array<char>, start: nat, truncated: bool, ghost input: string)
    returns (t': Session, quit: bool)
    requires Sound(env) && Consistent(t)
    requires '\0' !in input && start + |input| < a.Length
    requires a[start..start + |input|] == input && a[start + |input|] == '\0'
    modifies a
    ensures (t', quit) == AddLine(env, t, input, truncated)
    ensures Untouched(a, start, if truncated then |input| else |input| + 1, old(a[..]))
  {
    forall i | 0 <= i < |input|
      ensures a[start + i] == input[i]
    {
      assert a[start + i] == a[start..start + |input|][i];
    }
    if a[start] == '\0' && t.buffer == [] {
      assert input == [];
      return t, false;
    }
    var c, signal;
    ghost var s;
    c, signal, s := DoRun(env, t, a, start, input);
    if signal == Leave {
      return Session(c.buffer, c.delimiter, c.inString, c.mlComment, c.log), true;
    }
    var buffer := KeepRest(env, a, start, input, c, s, truncated);
    t', quit := Session(buffer, c.delimiter, c.inString, c.mlComment, c.log), false;
  }
}
