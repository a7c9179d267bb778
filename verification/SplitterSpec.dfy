/**
 What `add_line` does to one line of input, stated as a scan with separate input and output:
 the line is only read, and accepted characters are collected in a text of their own.
 */
module SplitterSpec {
  import opened Helpers

  /** What the splitter asks its surroundings to do. */
  datatype Call =
    | Statement(text: string)                              // a complete statement or named command
    | Command(letter: char, buffer: string, rest: string)  // a backslash command and the line from its backslash on
    | UnknownCommand(letter: char)
    | NamedCommand(line: string, buffer: string)           // a line that is a command by itself

  /** The effect of a call: whether to quit, and the statement buffer and delimiter it leaves. */
  datatype Response = Response(quit: bool, buffer: string, delimiter: string)

  /** The surroundings: settings, and responses that may depend on everything asked before. */
  datatype Env = Env(
    preserveComments: bool,
    namedCommands: bool,
    isSpace: char -> bool,
    isGraph: char -> bool,
    isDelimiterWord: string -> bool,
    isNamedCommand: (string, string) -> bool,
    noBackslashEscapes: seq<Call> -> bool,
    quitsCleanly: seq<Call> -> bool,
    respond: (seq<Call>, Call) -> Response)

  predicate Delimiter(d: string) {
    d != [] && '\0' !in d
  }

  ghost predicate Sound(env: Env) {
    && !env.isSpace('\0')
    && forall log, call :: Delimiter(env.respond(log, call).delimiter)
  }

  /** The one-letter commands, and whether they take parameters. */
  function FindCommand(letter: char): Option<bool> {
    if letter in "?rdhPR.!TuC" then Some(true)
    else if letter in "ceGqgntp#sWw" then Some(false)
    else None
  }

  /** The state of a scan. The mode and the buffer outlive the line; inString is NUL outside strings. */
  datatype Scan = Scan(
    pos: nat,
    out: string,
    buffer: string,
    delimiter: string,
    inString: char,
    mlComment: bool,
    ssComment: bool,
    needSpace: bool,
    log: seq<Call>)

  datatype Outcome = Next(s: Scan) | Break(s: Scan) | Quit(s: Scan)

  function At(line: string, i: nat): char {
    if i < |line| then line[i] else '\0'
  }

  predicate StartsAt(line: string, i: nat, d: string) {
    i + |d| <= |line| && line[i..i + |d|] == d
  }

  /** What has been collected always fits before the read position, with room for a pending space. */
  predicate Fits(s: Scan) {
    |s.out| + (if s.needSpace then 1 else 0) <= s.pos
  }

  predicate Wellformed(line: string, s: Scan) {
    && '\0' !in line
    && s.pos <= |line|
    && Fits(s)
    && Delimiter(s.delimiter)
    && (s.inString != '\0' ==> !s.mlComment)
  }

  function Flush(s: Scan): Scan {
    s.(buffer := s.buffer + s.out, out := [])
  }

  function SkipSpaces(env: Env, line: string, i: nat): (j: nat)
    requires i <= |line|
    ensures i <= j <= |line|
    decreases |line| - i
  {
    if i < |line| && env.isSpace(line[i]) then SkipSpaces(env, line, i + 1) else i
  }

  /** The end of a server-side comment, or of the line. */
  function FindClose(line: string, i: nat): (j: nat)
    requires i <= |line|
    ensures i <= j <= |line|
    decreases |line| - i
  {
    if i == |line| || (line[i] == '*' && At(line, i + 1) == '/') then i else FindClose(line, i + 1)
  }

  /** The next delimiter, or the end of the line. */
  function FindDelimiter(line: string, i: nat, d: string): (j: nat)
    requires i <= |line|
    ensures i <= j <= |line| && (j < |line| ==> StartsAt(line, j, d))
    decreases |line| - i
  {
    if i == |line| || StartsAt(line, i, d) then i else FindDelimiter(line, i + 1, d)
  }

  function Ask(env: Env, s: Scan, call: Call): (Response, Scan) {
    (env.respond(s.log, call), s.(log := s.log + [call]))
  }

  /** A one-letter command. Its parameters are skipped up to the end of the statement or comment. */
  ghost function StepCommand(env: Env, line: string, s: Scan, takesParams: bool): (r: Outcome)
    requires Sound(env) && Wellformed(line, s) && s.pos + 1 < |line|
    ensures Wellformed(line, r.s) && (r.Next? ==> s.pos < r.s.pos)
  {
    var flushed := Flush(s);
    var (response, asked) := Ask(env, flushed, Command(line[s.pos + 1], flushed.buffer, line[s.pos..]));
    var done := asked.(buffer := response.buffer, delimiter := response.delimiter);
    if response.quit then Quit(done.(pos := s.pos + 1))
    else Next(done.(pos := AfterParameters(line, s.pos + 2, takesParams, s.ssComment, response.delimiter)))
  }

  function AfterParameters(line: string, i: nat, takesParams: bool, ssComment: bool, d: string): (j: nat)
    requires i <= |line|
    ensures i <= j <= |line|
  {
    if !takesParams then i
    else if ssComment then FindClose(line, i)
    else
      var p := FindDelimiter(line, i, d);
      if p == |line| then p else p + |d|
  }

  /** A backslash outside comments, or in a string when it escapes. */
  ghost function StepBackslash(env: Env, line: string, s: Scan): (r: Outcome)
    requires Sound(env) && Wellformed(line, s) && s.pos < |line|
    ensures Wellformed(line, r.s) && (r.Next? ==> s.pos < r.s.pos)
  {
    var letter := At(line, s.pos + 1);
    var copied := s.(out := s.out + ['\\', letter], pos := s.pos + 2);
    if letter == '\0' then Break(s.(pos := s.pos + 1))
    else if s.inString != '\0' || letter == 'N' then Next(copied)
    else match FindCommand(letter)
      case None =>
        var (response, asked) := Ask(env, s, UnknownCommand(letter));
        if response.quit then Quit(asked.(pos := s.pos + 1)) else Next(copied.(log := asked.log))
      case Some(takesParams) => StepCommand(env, line, s, takesParams)
  }

  predicate TrailingComment(env: Env, line: string, p: nat) {
    At(line, p) == '#' || (At(line, p) == '-' && At(line, p + 1) == '-' && env.isSpace(At(line, p + 2)))
  }

  /** The statement is in the buffer, with the spaces and the line comment behind it if comments are kept. */
  function AfterDelimiter(env: Env, line: string, s: Scan): (r: Scan)
    requires Wellformed(line, s) && StartsAt(line, s.pos, s.delimiter)
    ensures Wellformed(line, r) && s.pos < r.pos
  {
    var p := s.pos + |s.delimiter|;
    var q := if env.preserveComments then SkipSpaces(env, line, p) else p;
    var flushed := Flush(s.(out := s.out + line[p..q], pos := q));
    if env.preserveComments && TrailingComment(env, line, q)
    then flushed.(buffer := flushed.buffer + line[q..], pos := |line|) else flushed
  }

  /** The delimiter outside strings and comments: a statement is complete. */
  ghost function StepDelimiter(env: Env, line: string, s: Scan): (r: Outcome)
    requires Sound(env) && Wellformed(line, s) && s.pos < |line| && StartsAt(line, s.pos, s.delimiter)
    ensures Wellformed(line, r.s) && (r.Next? ==> s.pos < r.s.pos)
  {
    var full := AfterDelimiter(env, line, s);
    var (response, asked) := Ask(env, full, Statement(full.buffer));
    if response.quit then Quit(asked.(buffer := response.buffer, delimiter := response.delimiter))
    else Next(asked.(buffer := [], delimiter := response.delimiter))
  }

  predicate StartsLineComment(env: Env, line: string, i: nat) {
    At(line, i) == '#'
    || (At(line, i) == '-' && At(line, i + 1) == '-' && (env.isSpace(At(line, i + 2)) || At(line, i + 2) == '\0'))
  }

  /** A comment to the end of the line. */
  ghost function StepLineComment(env: Env, line: string, s: Scan): (r: Outcome)
    requires Sound(env) && Wellformed(line, s) && s.pos < |line|
    ensures Wellformed(line, r.s) && !r.Next?
  {
    var flushed := Flush(s);
    if !env.preserveComments then Break(flushed)
    else
      var full := flushed.(buffer := flushed.buffer + line[s.pos..]);
      if flushed.buffer != [] then Break(full)
      else
        var (response, asked) := Ask(env, full, Statement(full.buffer));
        if response.quit then Quit(asked.(buffer := response.buffer, delimiter := response.delimiter))
        else Break(asked.(buffer := [], delimiter := response.delimiter))
  }

  /** The start or end of an ordinary comment. */
  ghost function StepCommentMark(env: Env, line: string, s: Scan, mark: string, opens: bool): (r: Outcome)
    requires Wellformed(line, s) && StartsAt(line, s.pos, mark) && |mark| == 2 && s.inString == '\0'
    ensures Wellformed(line, r.s) && r.Next? && s.pos < r.s.pos
  {
    var marked := if env.preserveComments then s.(out := s.out + mark) else s;
    Next(Flush(marked).(pos := s.pos + 2, mlComment := opens, needSpace := s.needSpace || !opens))
  }

  predicate OpensServerComment(line: string, s: Scan) {
    s.inString == '\0' && At(line, s.pos) == '/' && At(line, s.pos + 1) == '*' && At(line, s.pos + 2) == '!'
  }

  predicate ClosesServerComment(line: string, s: Scan) {
    s.inString == '\0' && s.ssComment && At(line, s.pos) == '*' && At(line, s.pos + 1) == '/'
  }

  predicate Quote(c: char) {
    c == '\'' || c == '"' || c == '`'
  }

  /** How a character changes the string and server-side comment modes. */
  function Moded(line: string, s: Scan): Scan
    requires s.pos < |line|
  {
    var c := line[s.pos];
    var ss := if OpensServerComment(line, s) then true else if ClosesServerComment(line, s) then false else s.ssComment;
    var str := if c == s.inString then '\0'
               else if !s.mlComment && s.inString == '\0' && Quote(c) then c else s.inString;
    s.(ssComment := ss, inString := str)
  }

  /** Collects a character, after the space that replaces a comment. */
  function Accepted(env: Env, s: Scan, c: char): Scan {
    s.(out := s.out + (if s.needSpace && !env.isSpace(c) then " " else "") + [c], needSpace := false)
  }

  /** Any other character. */
  ghost function StepPlain(env: Env, line: string, s: Scan): (r: Outcome)
    requires Wellformed(line, s) && s.pos < |line|
    ensures Wellformed(line, r.s) && r.Next? && s.pos < r.s.pos
  {
    var moved := Moded(line, s).(pos := s.pos + 1);
    if s.mlComment && !env.preserveComments then Next(moved) else Next(Accepted(env, moved, line[s.pos]))
  }

  predicate SkipsLeadingSpace(env: Env, line: string, s: Scan)
    requires s.pos < |line|
  {
    !env.preserveComments && env.isSpace(line[s.pos]) && s.out == [] && s.buffer == []
  }

  predicate AtBackslash(env: Env, line: string, s: Scan)
    requires s.pos < |line|
  {
    !s.mlComment && line[s.pos] == '\\' && !(s.inString != '\0' && env.noBackslashEscapes(s.log))
  }

  predicate Idle(s: Scan) {
    !s.mlComment && s.inString == '\0'
  }

  predicate OpensComment(line: string, s: Scan) {
    s.inString == '\0' && At(line, s.pos) == '/' && At(line, s.pos + 1) == '*' && At(line, s.pos + 2) != '!'
  }

  predicate ClosesComment(line: string, s: Scan) {
    s.mlComment && !s.ssComment && At(line, s.pos) == '*' && At(line, s.pos + 1) == '/'
  }

  /** What the scan has in front of it. */
  datatype Token = LeadingSpace | Backslash | EndOfStatement | LineComment | CommentOpen | CommentClose | Plain

  function Classify(env: Env, line: string, s: Scan): Token
    requires s.pos < |line|
  {
    if SkipsLeadingSpace(env, line, s) then LeadingSpace
    else if AtBackslash(env, line, s) then Backslash
    else if Idle(s) && StartsAt(line, s.pos, s.delimiter) then EndOfStatement
    else if Idle(s) && StartsLineComment(env, line, s.pos) then LineComment
    else if OpensComment(line, s) then CommentOpen
    else if ClosesComment(line, s) then CommentClose
    else Plain
  }

  /** One iteration of the scan. */
  ghost function Step(env: Env, line: string, s: Scan): (r: Outcome)
    requires Sound(env) && Wellformed(line, s) && s.pos < |line|
    ensures Wellformed(line, r.s) && (r.Next? ==> s.pos < r.s.pos)
  {
    match Classify(env, line, s)
    case LeadingSpace => Next(s.(pos := s.pos + 1))
    case Backslash => StepBackslash(env, line, s)
    case EndOfStatement => StepDelimiter(env, line, s)
    case LineComment => StepLineComment(env, line, s)
    case CommentOpen => StepCommentMark(env, line, s, "/*", true)
    case CommentClose => StepCommentMark(env, line, s, "*/", false)
    case Plain => StepPlain(env, line, s)
  }

  /** The scan of a whole line. */
  ghost function Run(env: Env, line: string, s: Scan): (r: Outcome)
    requires Sound(env) && Wellformed(line, s)
    ensures Wellformed(line, r.s) && !r.Next?
    decreases |line| - s.pos
  {
    if s.pos == |line| then Break(s)
    else match Step(env, line, s)
      case Next(s') => Run(env, line, s')
      case r => r
  }

  /** What is kept of the line for the statement in progress. */
  function Remainder(env: Env, s: Scan, truncated: bool): string {
    if !truncated && (|s.out| < 9 || !env.isDelimiterWord(s.out[..9])) then s.out + "\n" else s.out
  }

  function Finish(env: Env, s: Scan, truncated: bool): Scan {
    if s.out == [] && s.buffer == [] then s
    else if s.mlComment && !env.preserveComments then s
    else s.(buffer := s.buffer + Remainder(env, s, truncated))
  }

  /** What outlives a line. */
  datatype Session = Session(buffer: string, delimiter: string, inString: char, mlComment: bool, log: seq<Call>)

  predicate Consistent(t: Session) {
    Delimiter(t.delimiter) && (t.inString != '\0' ==> !t.mlComment)
  }

  function Start(t: Session): Scan {
    Scan(0, [], t.buffer, t.delimiter, t.inString, t.mlComment, false, false, t.log)
  }

  function Ended(s: Scan): Session {
    Session(s.buffer, s.delimiter, s.inString, s.mlComment, s.log)
  }

  /** One line: the session it leaves, and whether it quits. */
  ghost function AddLine(env: Env, t: Session, line: string, truncated: bool): (r: (Session, bool))
    requires Sound(env) && Consistent(t) && '\0' !in line
    ensures Consistent(r.0)
  {
    if line == [] && t.buffer == [] then (t, false)
    else match Run(env, line, Start(t))
      case Quit(s) => (Ended(s), true)
      case r => (Ended(Finish(env, r.s, truncated)), false)
  }
}
