/**
 What a line means, independently of how it is scanned: a list of words, quoted strings, comments
 and delimiters. Delimiters split the line; quoted strings are kept whatever is in them; comments
 become a space where one is needed, and a comment to the end of the line becomes nothing. A line
 may start inside a string or a comment, and may leave one open for the next line.
 */
module SplitterMeaning {
  import opened Helpers
  import opened SplitterSpec

  /** What a place in a line is inside of. */
  datatype Mode = Between | InString(quote: char) | InComment

  /** The parts of a line; a string or a comment is an opening mark and the text up to its end, or to the line's. */
  datatype Kind =
    | Word | End | ToLineEnd
    | OpenQuote | StringText(closed: bool)
    | OpenComment | CommentText(closed: bool)

  datatype Token = Token(kind: Kind, text: string)

  /** Surroundings that execute statements, keep the delimiter and the escape mode, and drop comments. */
  ghost predicate Steady(env: Env, d: string) {
    && Sound(env) && !env.preserveComments && PlainDelimiter(env, d)
    && (forall c :: env.isSpace(c) ==> c !in "'\"`/*#-\\")
    && (forall log :: env.noBackslashEscapes(log) == !Escapes(env))
    && forall log, text ::
         !env.respond(log, Statement(text)).quit && env.respond(log, Statement(text)).delimiter == d
  }

  /** A delimiter that does not start with a blank or a backslash, which are looked at before it. */
  predicate PlainDelimiter(env: Env, d: string) {
    Delimiter(d) && d[0] != '\\' && !env.isSpace(d[0])
  }

  predicate Escapes(env: Env) {
    !env.noBackslashEscapes([])
  }

  // ---------- How a line falls into tokens ----------

  /** The character at i opens nothing: no string, escape, command, comment or delimiter. */
  predicate PlainAt(env: Env, line: string, i: nat, d: string)
    requires i < |line|
  {
    && !Quote(line[i]) && line[i] != '\\' && !StartsAt(line, i, d) && !StartsLineComment(env, line, i)
    && !(line[i] == '/' && At(line, i + 1) == '*')
  }

  /** A string whose text goes on at i ends with the quote at j; escapes come in pairs. */
  predicate ClosesAt(env: Env, line: string, i: nat, j: nat, quote: char)
    requires i <= j < |line|
    decreases j - i
  {
    if i == j then line[j] == quote
    else if line[i] == '\\' && Escapes(env) then i + 2 <= j && ClosesAt(env, line, i + 2, j, quote)
    else line[i] != quote && ClosesAt(env, line, i + 1, j, quote)
  }

  /** A string with this text to come on the line does not end on it. */
  predicate StaysOpen(env: Env, text: string, quote: char)
    decreases |text|
  {
    if text == [] then true
    else if text[0] == '\\' && Escapes(env) then |text| == 1 || StaysOpen(env, text[2..], quote)
    else text[0] != quote && StaysOpen(env, text[1..], quote)
  }

  predicate Mark(line: string, i: nat, mark: string)
    requires |mark| == 2
  {
    At(line, i) == mark[0] && At(line, i + 1) == mark[1]
  }

  predicate ServerMark(line: string, i: nat) {
    Mark(line, i, "/*") && At(line, i + 2) == '!'
  }

  /** A comment whose text goes on at i ends with the mark at j; marks that open comments have no effect. */
  predicate CommentClosesAt(line: string, i: nat, j: nat)
    requires i <= j
    decreases j - i
  {
    if i == j then Mark(line, j, "*/")
    else if Mark(line, i, "/*") then !ServerMark(line, i) && i + 2 <= j && CommentClosesAt(line, i + 2, j)
    else !Mark(line, i, "*/") && CommentClosesAt(line, i + 1, j)
  }

  /** A comment whose text goes on at i does not end on the line. */
  predicate CommentStaysOpen(line: string, i: nat)
    requires i <= |line|
    decreases |line| - i
  {
    if i == |line| then true
    else if Mark(line, i, "/*") then !ServerMark(line, i) && i + 2 <= |line| && CommentStaysOpen(line, i + 2)
    else !Mark(line, i, "*/") && CommentStaysOpen(line, i + 1)
  }

  /** The bytes from i to j of the line, of which i is in this mode, are a token of this kind. */
  predicate IsToken(env: Env, line: string, i: nat, j: nat, mode: Mode, kind: Kind, d: string)
    requires i <= j <= |line|
  {
    match kind
    case Word => mode.Between? && forall k :: i <= k < j ==> PlainAt(env, line, k, d)
    case End => mode.Between? && j == i + |d| && StartsAt(line, i, d)
    case ToLineEnd => mode.Between? && !StartsAt(line, i, d) && j == |line| && StartsLineComment(env, line, i)
    case OpenQuote => mode.Between? && !StartsAt(line, i, d) && j == i + 1 && Quote(line[i])
    case OpenComment =>
      mode.Between? && !StartsAt(line, i, d) && j == i + 2 && Mark(line, i, "/*") && !ServerMark(line, i)
    case StringText(closed) =>
      && mode.InString?
      && if closed then i < j && ClosesAt(env, line, i, j - 1, mode.quote)
         else j == |line| && StaysOpen(env, line[i..], mode.quote)
    case CommentText(closed) =>
      && mode.InComment?
      && if closed then i + 2 <= j && CommentClosesAt(line, i, j - 2) else j == |line| && CommentStaysOpen(line, i)
  }

  /** The mode behind a token. */
  function NextMode(mode: Mode, t: Token): Mode {
    match t.kind
    case OpenQuote => if t.text == [] then mode else InString(t.text[0])
    case OpenComment => InComment
    case StringText(closed) => if closed then Between else mode
    case CommentText(closed) => if closed then Between else mode
    case _ => mode
  }

  /** From i on in this mode, and up to j in that one, the line falls into these tokens. */
  predicate Lexes(env: Env, line: string, i: nat, mode: Mode, tokens: seq<Token>, j: nat, last: Mode, d: string)
    requires i <= |line|
    decreases |tokens|
  {
    if tokens == [] then i == j && mode == last
    else
      var k := i + |tokens[0].text|;
      && StartsAt(line, i, tokens[0].text) && IsToken(env, line, i, k, mode, tokens[0].kind, d)
      && Lexes(env, line, k, NextMode(mode, tokens[0]), tokens[1..], j, last, d)
  }

  // ---------- Which lines fall into tokens ----------

  /** At j, in this mode, comes what has no token: a backslash outside strings, or a server-side comment. */
  predicate Beyond(line: string, j: nat, mode: Mode, d: string)
    requires j <= |line|
  {
    match mode
    case Between => !StartsAt(line, j, d) && (At(line, j) == '\\' || ServerMark(line, j))
    case InComment => exists k :: j <= k < |line| && ServerMark(line, k)
    case InString(_) => false
  }

  lemma {:induction false} StringEnds(env: Env, line: string, i: nat, quote: char) returns (closed: bool, j: nat)
    requires i <= |line|
    ensures if closed then i <= j < |line| && ClosesAt(env, line, i, j, quote) else StaysOpen(env, line[i..], quote)
    decreases |line| - i
  {
    var text := line[i..];
    if i == |line| || (i + 1 == |line| && line[i] == '\\' && Escapes(env)) {
      closed, j := false, i;
    } else if line[i] == '\\' && Escapes(env) {
      assert text[2..] == line[i + 2..];
      closed, j := StringEnds(env, line, i + 2, quote);
    } else if line[i] == quote {
      closed, j := true, i;
    } else {
      assert text[1..] == line[i + 1..];
      closed, j := StringEnds(env, line, i + 1, quote);
    }
  }

  datatype CommentFate = Closed | Open | Beaten

  lemma {:induction false} CommentEnds(line: string, i: nat) returns (fate: CommentFate, j: nat)
    requires i <= |line| && '\0' !in line
    ensures fate.Closed? ==> i <= j && j + 2 <= |line| && CommentClosesAt(line, i, j)
    ensures fate.Open? ==> CommentStaysOpen(line, i)
    ensures fate.Beaten? ==> exists k :: i <= k < |line| && ServerMark(line, k)
    decreases |line| - i
  {
    if i == |line| {
      fate, j := Open, i;
    } else if ServerMark(line, i) {
      fate, j := Beaten, i;
    } else if Mark(line, i, "/*") {
      fate, j := CommentEnds(line, i + 2);
    } else if Mark(line, i, "*/") {
      fate, j := Closed, i;
    } else {
      fate, j := CommentEnds(line, i + 1);
    }
  }

  /** The next token of a line. */
  lemma NextToken(env: Env, line: string, i: nat, mode: Mode, d: string) returns (t: Token)
    requires i < |line| && '\0' !in line && Delimiter(d) && !Beyond(line, i, mode, d)
    ensures t.text != [] && StartsAt(line, i, t.text) && IsToken(env, line, i, i + |t.text|, mode, t.kind, d)
  {
    match mode
    case Between =>
      t := if StartsAt(line, i, d) then Token(End, d)
           else if StartsLineComment(env, line, i) then Token(ToLineEnd, line[i..])
           else if Quote(line[i]) then Token(OpenQuote, line[i..i + 1])
           else if Mark(line, i, "/*") then Token(OpenComment, line[i..i + 2])
           else Token(Word, line[i..i + 1]);
    case InString(quote) =>
      var closed, j := StringEnds(env, line, i, quote);
      t := Token(StringText(closed), if closed then line[i..j + 1] else line[i..]);
    case InComment =>
      var fate, j := CommentEnds(line, i);
      t := Token(CommentText(fate.Closed?), if fate.Closed? then line[i..j + 2] else line[i..]);
  }

  /** Every line falls into tokens, in any mode, up to its end or to what has no token. */
  lemma {:induction false} FallsIntoTokens(env: Env, line: string, i: nat, mode: Mode, d: string)
    returns (tokens: seq<Token>, j: nat, last: Mode)
    requires i <= |line| && '\0' !in line && Delimiter(d)
    ensures i <= j <= |line| && Lexes(env, line, i, mode, tokens, j, last, d)
    ensures j == |line| || Beyond(line, j, last, d)
    decreases |line| - i
  {
    if i == |line| || Beyond(line, i, mode, d) {
      tokens, j, last := [], i, mode;
    } else {
      var t := NextToken(env, line, i, mode, d);
      var rest;
      rest, j, last := FallsIntoTokens(env, line, i + |t.text|, NextMode(mode, t), d);
      tokens := [t] + rest;
      assert tokens[1..] == rest;
    }
  }

  // ---------- The meaning of tokens ----------

  /**
   The statement in progress, the part of it since the last delimiter or comment, whether a comment
   before the next character needs a space, and the calls made.
   */
  datatype Meaning = Meaning(text: string, tail: string, space: bool, log: seq<Call>)

  function Feed(env: Env, m: Meaning, c: char): Meaning {
    if env.isSpace(c) && m.text == [] then m
    else
      var added := (if m.space && !env.isSpace(c) then " " else "") + [c];
      m.(text := m.text + added, tail := m.tail + added, space := false)
  }

  function FeedAll(env: Env, m: Meaning, s: string): Meaning
    decreases |s|
  {
    if s == [] then m else FeedAll(env, Feed(env, m, s[0]), s[1..])
  }

  /** What is kept of the text of a string that stays open: a backslash at the very end is dropped. */
  function KeptOpen(env: Env, text: string): string
    decreases |text|
  {
    if text == [] then []
    else if text[0] != '\\' || !Escapes(env) then [text[0]] + KeptOpen(env, text[1..])
    else if |text| == 1 then []
    else [text[0]] + ([text[1]] + KeptOpen(env, text[2..]))
  }

  function Mean(env: Env, m: Meaning, t: Token): Meaning {
    match t.kind
    case Word => FeedAll(env, m, t.text)
    case End => m.(text := [], tail := [], log := m.log + [Statement(m.text)])
    case ToLineEnd => m.(tail := [])
    case OpenQuote => FeedAll(env, m, t.text)
    case StringText(closed) => FeedAll(env, m, if closed then t.text else KeptOpen(env, t.text))
    case OpenComment => m.(tail := [])
    case CommentText(closed) => if closed then m.(space := true) else m
  }

  function MeanAll(env: Env, m: Meaning, tokens: seq<Token>): Meaning
    decreases |tokens|
  {
    if tokens == [] then m else MeanAll(env, Mean(env, m, tokens[0]), tokens[1..])
  }

  /**
   What is left of a line for the next one: a newline is added unless it is a DELIMITER command,
   was cut or ends in a comment.
   */
  function Kept(env: Env, m: Meaning, last: Mode, truncated: bool): string {
    if m.text == [] || last.InComment? || truncated || (|m.tail| >= 9 && env.isDelimiterWord(m.tail[..9]))
    then m.text else m.text + "\n"
  }

  // ---------- The scan computes it ----------

  function Seen(s: Scan): Meaning {
    Meaning(s.buffer + s.out, s.out, s.needSpace, s.log)
  }

  /** Between tokens. */
  predicate Ready(line: string, s: Scan, d: string) {
    Wellformed(line, s) && Idle(s) && !s.ssComment && s.delimiter == d
  }

  /** Inside a string. */
  predicate Inside(line: string, s: Scan, d: string, quote: char) {
    && Wellformed(line, s) && s.inString == quote && Quote(quote) && !s.ssComment && s.delimiter == d
    && !s.needSpace
  }

  /** Inside an ordinary comment, with nothing collected from it. */
  predicate Commenting(line: string, s: Scan, d: string) {
    Wellformed(line, s) && s.mlComment && !s.ssComment && s.delimiter == d && s.out == []
  }

  predicate Within(line: string, s: Scan, mode: Mode, d: string) {
    match mode
    case Between => Ready(line, s, d)
    case InString(quote) => Inside(line, s, d, quote)
    case InComment => Commenting(line, s, d)
  }

  lemma FeedFirst(env: Env, m: Meaning, line: string, i: nat, j: nat)
    requires i < j <= |line|
    ensures FeedAll(env, m, line[i..j]) == FeedAll(env, Feed(env, m, line[i]), line[i + 1..j])
  {
    assert line[i..j][1..] == line[i + 1..j];
  }

  /** `run` gives the same outcome before and after a step that goes on. */
  ghost predicate Follows(env: Env, line: string, run: Scan -> Outcome)
    requires Sound(env)
  {
    forall s {:trigger Step(env, line, s)} ::
      Wellformed(line, s) && s.pos < |line| && Step(env, line, s).Next? ==> run(s) == run(Step(env, line, s).s)
  }

  lemma AddCharacter(env: Env, line: string, run: Scan -> Outcome, s: Scan)
    requires Sound(env) && Follows(env, line, run)
    requires !env.preserveComments && Wellformed(line, s) && s.pos < |line| && !s.mlComment
    requires Classify(env, line, s).LeadingSpace? || Classify(env, line, s).Plain?
    ensures run(s) == run(Step(env, line, s).s)
    ensures Seen(Step(env, line, s).s) == Feed(env, Seen(s), line[s.pos])
  {
    if Classify(env, line, s).Plain? {
      var added := (if s.needSpace && !env.isSpace(line[s.pos]) then " " else "") + [line[s.pos]];
      assert Step(env, line, s).s.out == s.out + added;
      Reassociate(s.buffer, s.out, added);
    }
  }

  lemma WordCharacter(env: Env, line: string, run: Scan -> Outcome, s: Scan, d: string) returns (s': Scan)
    requires Steady(env, d) && Follows(env, line, run)
    requires Ready(line, s, d) && s.pos < |line| && PlainAt(env, line, s.pos, d)
    ensures Ready(line, s', d) && s'.pos == s.pos + 1
    ensures run(s) == run(s') && Seen(s') == Feed(env, Seen(s), line[s.pos])
  {
    AddCharacter(env, line, run, s);
    s' := Step(env, line, s).s;
  }

  lemma {:induction false} ScanWord(env: Env, line: string, run: Scan -> Outcome, s: Scan, d: string, j: nat)
    returns (s': Scan)
    requires Steady(env, d) && Follows(env, line, run) && Ready(line, s, d) && s.pos <= j <= |line|
    requires forall k :: s.pos <= k < j ==> PlainAt(env, line, k, d)
    ensures Ready(line, s', d) && s'.pos == j
    ensures run(s) == run(s') && Seen(s') == FeedAll(env, Seen(s), line[s.pos..j])
    decreases j - s.pos
  {
    if s.pos == j {
      s' := s;
    } else {
      FeedFirst(env, Seen(s), line, s.pos, j);
      s' := WordCharacter(env, line, run, s, d);
      s' := ScanWord(env, line, run, s', d, j);
    }
  }

  lemma ScanOpenQuote(env: Env, line: string, run: Scan -> Outcome, s: Scan, d: string) returns (s': Scan)
    requires Steady(env, d) && Follows(env, line, run)
    requires Ready(line, s, d) && s.pos < |line| && Quote(line[s.pos]) && !StartsAt(line, s.pos, d)
    ensures Inside(line, s', d, line[s.pos]) && s'.pos == s.pos + 1
    ensures run(s) == run(s') && Seen(s') == Feed(env, Seen(s), line[s.pos])
  {
    AddCharacter(env, line, run, s);
    s' := Step(env, line, s).s;
  }

  lemma QuotedCharacter(env: Env, line: string, run: Scan -> Outcome, s: Scan, d: string, quote: char)
    returns (s': Scan)
    requires Steady(env, d) && Follows(env, line, run)
    requires Inside(line, s, d, quote) && s.pos < |line| && !(line[s.pos] == '\\' && Escapes(env))
    ensures if line[s.pos] == quote then Ready(line, s', d) else Inside(line, s', d, quote)
    ensures s'.pos == s.pos + 1
    ensures run(s) == run(s') && Seen(s') == Feed(env, Seen(s), line[s.pos])
  {
    AddCharacter(env, line, run, s);
    s' := Step(env, line, s).s;
  }

  /** A backslash and the character behind it. */
  lemma QuotedPair(env: Env, line: string, run: Scan -> Outcome, s: Scan, d: string, quote: char) returns (s': Scan)
    requires Steady(env, d) && Follows(env, line, run)
    requires Inside(line, s, d, quote) && s.pos + 1 < |line| && line[s.pos] == '\\' && Escapes(env)
    ensures Inside(line, s', d, quote) && s'.pos == s.pos + 2
    ensures run(s) == run(s')
    ensures Seen(s') == Feed(env, Feed(env, Seen(s), line[s.pos]), line[s.pos + 1])
  {
    assert Classify(env, line, s).Backslash?;
    s' := Step(env, line, s).s;
    assert line[s.pos] in "'\"`/*#-\\";
    var a, b := [line[s.pos]], [line[s.pos + 1]];
    assert s'.out == s.out + (a + b);
    FeedPair(env, Seen(s), line[s.pos], line[s.pos + 1]);
    Reassociate(s.buffer, s.out, a + b);
  }

  lemma FeedPair(env: Env, m: Meaning, c: char, c': char)
    requires !m.space && !env.isSpace(c)
    ensures Feed(env, Feed(env, m, c), c') == m.(text := m.text + ([c] + [c']), tail := m.tail + ([c] + [c']))
  {
    Reassociate(m.text, [c], [c']);
    Reassociate(m.tail, [c], [c']);
  }

  lemma {:induction false} ScanQuoted(
    env: Env, line: string, run: Scan -> Outcome, s: Scan, d: string, quote: char, j: nat)
    returns (s': Scan)
    requires Steady(env, d) && Follows(env, line, run)
    requires Inside(line, s, d, quote) && s.pos <= j < |line| && ClosesAt(env, line, s.pos, j, quote)
    ensures Ready(line, s', d) && s'.pos == j + 1
    ensures run(s) == run(s') && Seen(s') == FeedAll(env, Seen(s), line[s.pos..j + 1])
    decreases j - s.pos
  {
    FeedFirst(env, Seen(s), line, s.pos, j + 1);
    if s.pos == j {
      s' := QuotedCharacter(env, line, run, s, d, quote);
    } else if line[s.pos] == '\\' && Escapes(env) {
      FeedFirst(env, Feed(env, Seen(s), line[s.pos]), line, s.pos + 1, j + 1);
      s' := QuotedPair(env, line, run, s, d, quote);
      s' := ScanQuoted(env, line, run, s', d, quote, j);
    } else {
      s' := QuotedCharacter(env, line, run, s, d, quote);
      s' := ScanQuoted(env, line, run, s', d, quote, j);
    }
  }

  /** Behind this character no string ends and no statement: the scan stops, dropping it. */
  predicate LoneBackslash(env: Env, line: string, i: nat) {
    i + 1 == |line| && line[i] == '\\' && Escapes(env)
  }

  lemma {:induction false} ScanOpenString(
    env: Env, line: string, run: Scan -> Outcome, s: Scan, d: string, quote: char)
    returns (s': Scan)
    requires Steady(env, d) && Follows(env, line, run)
    requires Inside(line, s, d, quote) && StaysOpen(env, line[s.pos..], quote)
    ensures Inside(line, s', d, quote) && (s'.pos == |line| || LoneBackslash(env, line, s'.pos))
    ensures run(s) == run(s') && Seen(s') == FeedAll(env, Seen(s), KeptOpen(env, line[s.pos..]))
    decreases |line| - s.pos
  {
    var text := line[s.pos..];
    if s.pos == |line| || LoneBackslash(env, line, s.pos) {
      s' := s;
    } else if line[s.pos] == '\\' && Escapes(env) {
      assert text[2..] == line[s.pos + 2..];
      FeedTwo(env, Seen(s), text[0], text[1], KeptOpen(env, text[2..]));
      s' := QuotedPair(env, line, run, s, d, quote);
      s' := ScanOpenString(env, line, run, s', d, quote);
    } else {
      assert text[1..] == line[s.pos + 1..];
      FeedOne(env, Seen(s), text[0], KeptOpen(env, text[1..]));
      s' := QuotedCharacter(env, line, run, s, d, quote);
      s' := ScanOpenString(env, line, run, s', d, quote);
    }
  }

  lemma FeedOne(env: Env, m: Meaning, c: char, rest: string)
    ensures FeedAll(env, m, [c] + rest) == FeedAll(env, Feed(env, m, c), rest)
  {
    assert ([c] + rest)[1..] == rest;
  }

  lemma FeedTwo(env: Env, m: Meaning, c: char, c': char, rest: string)
    ensures FeedAll(env, m, [c] + ([c'] + rest)) == FeedAll(env, Feed(env, Feed(env, m, c), c'), rest)
  {
    FeedOne(env, m, c, [c'] + rest);
    FeedOne(env, Feed(env, m, c), c', rest);
  }

  lemma CommentCharacter(env: Env, line: string, run: Scan -> Outcome, s: Scan, d: string)
    requires Steady(env, d) && Follows(env, line, run) && Commenting(line, s, d) && s.pos < |line|
    requires !Mark(line, s.pos, "*/") && !Mark(line, s.pos, "/*")
    ensures var s' := s.(pos := s.pos + 1);
            run(s) == run(s') && Commenting(line, s', d)
  {
    var token := Classify(env, line, s);
    assert token.LeadingSpace? || token.Plain?;
    assert Step(env, line, s) == Next(s.(pos := s.pos + 1));
  }

  /** An opening mark, in a comment or before it. */
  lemma ScanCommentOpen(env: Env, line: string, run: Scan -> Outcome, s: Scan, d: string) returns (s': Scan)
    requires Steady(env, d) && Follows(env, line, run)
    requires Commenting(line, s, d) || (Ready(line, s, d) && !StartsAt(line, s.pos, d))
    requires Mark(line, s.pos, "/*") && !ServerMark(line, s.pos)
    ensures Commenting(line, s', d) && s'.pos == s.pos + 2
    ensures run(s) == run(s') && Seen(s') == Seen(s).(tail := [])
  {
    assert line[s.pos] in "'\"`/*#-\\";
    assert line[s.pos..s.pos + 2] == "/*";
    assert Classify(env, line, s).CommentOpen?;
    s' := Step(env, line, s).s;
    assert (s.buffer + s.out) + [] == s.buffer + s.out;
  }

  lemma ScanCommentClose(env: Env, line: string, run: Scan -> Outcome, s: Scan, d: string) returns (s': Scan)
    requires Steady(env, d) && Follows(env, line, run) && Commenting(line, s, d) && Mark(line, s.pos, "*/")
    ensures Ready(line, s', d) && s'.pos == s.pos + 2
    ensures run(s) == run(s') && Seen(s') == Seen(s).(space := true)
  {
    assert line[s.pos] in "'\"`/*#-\\";
    assert line[s.pos..s.pos + 2] == "*/";
    assert Classify(env, line, s).CommentClose?;
    s' := Step(env, line, s).s;
    assert (s.buffer + s.out) + [] == s.buffer + s.out;
  }

  lemma {:induction false} ScanComment(env: Env, line: string, run: Scan -> Outcome, s: Scan, d: string, j: nat)
    returns (s': Scan)
    requires Steady(env, d) && Follows(env, line, run)
    requires Commenting(line, s, d) && s.pos <= j && j + 2 <= |line| && CommentClosesAt(line, s.pos, j)
    ensures Ready(line, s', d) && s'.pos == j + 2
    ensures run(s) == run(s') && Seen(s') == Seen(s).(space := true)
    decreases j - s.pos
  {
    if s.pos == j {
      s' := ScanCommentClose(env, line, run, s, d);
    } else if Mark(line, s.pos, "/*") {
      s' := ScanCommentOpen(env, line, run, s, d);
      s' := ScanComment(env, line, run, s', d, j);
    } else {
      CommentCharacter(env, line, run, s, d);
      s' := ScanComment(env, line, run, s.(pos := s.pos + 1), d, j);
    }
  }

  lemma {:induction false} ScanOpenComment(env: Env, line: string, run: Scan -> Outcome, s: Scan, d: string)
    returns (s': Scan)
    requires Steady(env, d) && Follows(env, line, run) && Commenting(line, s, d) && CommentStaysOpen(line, s.pos)
    ensures Commenting(line, s', d) && s'.pos == |line|
    ensures run(s) == run(s') && Seen(s') == Seen(s)
    decreases |line| - s.pos
  {
    if s.pos == |line| {
      s' := s;
    } else if Mark(line, s.pos, "/*") {
      s' := ScanCommentOpen(env, line, run, s, d);
      s' := ScanOpenComment(env, line, run, s', d);
    } else {
      CommentCharacter(env, line, run, s, d);
      s' := ScanOpenComment(env, line, run, s.(pos := s.pos + 1), d);
    }
  }

  lemma ScanEnd(env: Env, line: string, run: Scan -> Outcome, s: Scan, d: string) returns (s': Scan)
    requires Steady(env, d) && Follows(env, line, run) && Ready(line, s, d) && StartsAt(line, s.pos, d)
    ensures Ready(line, s', d) && s'.pos == s.pos + |d|
    ensures run(s) == run(s') && Seen(s') == Mean(env, Seen(s), Token(End, d))
  {
    assert line[s.pos] == line[s.pos..s.pos + |d|][0] == d[0];
    s' := Step(env, line, s).s;
    assert s.out + line[s.pos + |d|..s.pos + |d|] == s.out;
  }

  /** Scanning a token takes the meaning of the line so far to its meaning with the token. */
  lemma ScanToken(env: Env, line: string, run: Scan -> Outcome, s: Scan, mode: Mode, d: string, t: Token)
    returns (s': Scan)
    requires Steady(env, d) && Follows(env, line, run)
    requires Within(line, s, mode, d) && StartsAt(line, s.pos, t.text)
    requires IsToken(env, line, s.pos, s.pos + |t.text|, mode, t.kind, d)
    requires t.kind != ToLineEnd && t.kind != StringText(false)
    ensures Within(line, s', NextMode(mode, t), d) && s'.pos == s.pos + |t.text|
    ensures run(s) == run(s') && Seen(s') == Mean(env, Seen(s), t)
  {
    var j := s.pos + |t.text|;
    match t.kind
    case Word => s' := ScanWord(env, line, run, s, d, j);
    case End => s' := ScanEnd(env, line, run, s, d);
    case OpenQuote =>
      FeedFirst(env, Seen(s), line, s.pos, j);
      s' := ScanOpenQuote(env, line, run, s, d);
    case StringText(_) => s' := ScanQuoted(env, line, run, s, d, mode.quote, j - 1);
    case OpenComment => s' := ScanCommentOpen(env, line, run, s, d);
    case CommentText(closed) =>
      if closed {
        s' := ScanComment(env, line, run, s, d, j - 2);
      } else {
        s' := ScanOpenComment(env, line, run, s, d);
      }
  }

  /** The scan is over: at the end of the line, at a comment that goes up to it, or at a dropped backslash. */
  predicate Over(env: Env, line: string, s: Scan, mode: Mode, d: string) {
    && Within(line, s, mode, d)
    && (|| s.pos == |line|
        || (mode.Between? && StartsLineComment(env, line, s.pos) && !StartsAt(line, s.pos, d))
        || (mode.InString? && LoneBackslash(env, line, s.pos)))
  }

  /** What the scan has seen when it is over; a comment up to the end of the line flushes what was collected. */
  function SeenOver(line: string, s: Scan, mode: Mode): Meaning {
    if s.pos < |line| && mode.Between? then Seen(s).(tail := []) else Seen(s)
  }

  lemma {:induction false} ScanTokens(
    env: Env, line: string, run: Scan -> Outcome, s: Scan, mode: Mode, d: string, tokens: seq<Token>, last: Mode)
    returns (e: Scan)
    requires Steady(env, d) && Follows(env, line, run)
    requires Within(line, s, mode, d) && Lexes(env, line, s.pos, mode, tokens, |line|, last, d)
    ensures run(s) == run(e) && Over(env, line, e, last, d)
    ensures SeenOver(line, e, last) == MeanAll(env, Seen(s), tokens)
    decreases |tokens|
  {
    if tokens == [] {
      e := s;
    } else if tokens[0].kind == ToLineEnd {
      e := s;
      EmptyTokens(env, line, mode, tokens[1..], last, Mean(env, Seen(s), tokens[0]), d);
    } else if tokens[0].kind == StringText(false) {
      assert tokens[0].text == line[s.pos..];
      e := ScanOpenString(env, line, run, s, d, mode.quote);
      EmptyTokens(env, line, mode, tokens[1..], last, Mean(env, Seen(s), tokens[0]), d);
    } else {
      e := ScanToken(env, line, run, s, mode, d, tokens[0]);
      e := ScanTokens(env, line, run, e, NextMode(mode, tokens[0]), d, tokens[1..], last);
    }
  }

  ghost function TheRun(env: Env, line: string): Scan -> Outcome
    requires Sound(env)
  {
    s => if Wellformed(line, s) then Run(env, line, s) else Break(s)
  }

  lemma TheRunFollows(env: Env, line: string)
    requires Sound(env)
    ensures Follows(env, line, TheRun(env, line))
  {
    forall s | Wellformed(line, s) && s.pos < |line| && Step(env, line, s).Next?
      ensures TheRun(env, line)(s) == TheRun(env, line)(Step(env, line, s).s)
    {
      RunStep(env, line, s);
    }
  }

  lemma RunStep(env: Env, line: string, s: Scan)
    requires Sound(env) && Wellformed(line, s) && s.pos < |line| && Step(env, line, s).Next?
    ensures Run(env, line, s) == Run(env, line, Step(env, line, s).s)
  {
  }

  lemma RunOver(env: Env, line: string, s: Scan, mode: Mode, d: string)
    requires Steady(env, d) && Over(env, line, s, mode, d)
    ensures var r := Run(env, line, s);
            r.Break? && Within(line, r.s, mode, d) && Seen(r.s) == SeenOver(line, s, mode)
  {
    if s.pos < |line| {
      if mode.Between? {
        assert Classify(env, line, s).LineComment?;
        assert (s.buffer + s.out) + [] == s.buffer + s.out;
      } else {
        assert line[s.pos] in "'\"`/*#-\\";
        assert Classify(env, line, s).Backslash?;
      }
    }
  }

  /**
   Every line that falls into tokens executes exactly the statements these mean, and leaves exactly
   the unfinished statement they mean, in the mode they lead to.
   */
  lemma RunMeans(env: Env, line: string, s: Scan, mode: Mode, d: string, tokens: seq<Token>, last: Mode)
    requires Steady(env, d) && Within(line, s, mode, d) && Lexes(env, line, s.pos, mode, tokens, |line|, last, d)
    ensures var r := Run(env, line, s);
            r.Break? && Within(line, r.s, last, d) && Seen(r.s) == MeanAll(env, Seen(s), tokens)
  {
    TheRunFollows(env, line);
    var e := ScanTokens(env, line, TheRun(env, line), s, mode, d, tokens, last);
    RunOver(env, line, e, last, d);
  }

  /** At the end of the line there can only be tokens without a text. */
  lemma {:induction false} EmptyTokens(
    env: Env, line: string, mode: Mode, tokens: seq<Token>, last: Mode, m: Meaning, d: string)
    requires Lexes(env, line, |line|, mode, tokens, |line|, last, d) && Delimiter(d)
    ensures MeanAll(env, m, tokens) == m && last == mode
    decreases |tokens|
  {
    if tokens == [] {
    } else {
      assert tokens[0].text == [];
      assert NextMode(mode, tokens[0]) == mode && Mean(env, m, tokens[0]) == m;
      EmptyTokens(env, line, mode, tokens[1..], last, m, d);
    }
  }

  /** A session in this mode. */
  function In(mode: Mode, buffer: string, d: string, log: seq<Call>): Session {
    Session(buffer, d, if mode.InString? then mode.quote else '\0', mode.InComment?, log)
  }

  predicate RealMode(mode: Mode) {
    mode.InString? ==> Quote(mode.quote)
  }

  /** The same for `add_line`: from a session in any mode, such a line does exactly what it means. */
  lemma AddLineMeans(
    env: Env, t: Session, mode: Mode, d: string, line: string, tokens: seq<Token>, last: Mode, truncated: bool)
    requires Steady(env, d) && RealMode(mode) && t == In(mode, t.buffer, d, t.log)
    requires '\0' !in line && Lexes(env, line, 0, mode, tokens, |line|, last, d)
    ensures var m := MeanAll(env, Meaning(t.buffer, [], false, t.log), tokens);
            AddLine(env, t, line, truncated) == (In(last, Kept(env, m, last, truncated), d, m.log), false)
  {
    if line == [] && t.buffer == [] {
      EmptyTokens(env, line, mode, tokens, last, Meaning(t.buffer, [], false, t.log), d);
    } else {
      var s := Start(t);
      assert s.buffer + s.out == t.buffer;
      RunMeans(env, line, s, mode, d, tokens, last);
      KeptIsFinished(env, line, Run(env, line, s).s, last, d, truncated);
    }
  }

  lemma KeptIsFinished(env: Env, line: string, s: Scan, mode: Mode, d: string, truncated: bool)
    requires !env.preserveComments && Within(line, s, mode, d)
    ensures Ended(Finish(env, s, truncated)) == In(mode, Kept(env, Seen(s), mode, truncated), d, s.log)
  {
    if mode.InComment? {
      assert s.buffer + s.out == s.buffer;
    } else {
      Reassociate(s.buffer, s.out, "\n");
    }
  }
}
