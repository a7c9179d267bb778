/**
 Text that the clients put into SQL statements: LIKE patterns of table names (mysqldump), and the
 field and line terminators given by the user (mysqldump and mysqlimport).
 */
module SqlQuoting {
  import opened Helpers

  // ---------- How the server reads a string literal ----------

  datatype Literal = Literal(value: string, rest: string)

  /** What a backslash and a character stand for in a literal; wildcards keep their backslash. */
  function Unescape(c: char): string {
    match c
    case 'n' => "\n"
    case 't' => "\t"
    case 'r' => "\r"
    case 'b' => "\U{0008}"
    case '0' => "\0"
    case 'Z' => "\U{001A}"
    case '_' => "\\_"
    case '%' => "\\%"
    case _ => [c]
  }

  function Prepend(s: string, l: Option<Literal>): Option<Literal> {
    if l.None? then None else Some(Literal(s + l.value.value, l.value.rest))
  }

  lemma PrependTwice(s: string, t: string, l: Option<Literal>)
    ensures Prepend(s, Prepend(t, l)) == Prepend(s + t, l)
  {
    if l.Some? {
      assert s + (t + l.value.value) == (s + t) + l.value.value;
    }
  }

  /** The literal that follows an opening quote, and the text after its closing quote. */
  function ReadLiteral(s: string): Option<Literal> {
    if s == "" then None
    else if s[0] == '\\' then
      if |s| == 1 then None else Prepend(Unescape(s[1]), ReadLiteral(s[2..]))
    else if s[0] == '\'' then
      if |s| > 1 && s[1] == '\'' then Prepend("'", ReadLiteral(s[2..])) else Some(Literal("", s[1..]))
    else Prepend([s[0]], ReadLiteral(s[1..]))
  }

  lemma ReadPlain(c: char, s: string)
    requires c != '\\' && c != '\''
    ensures ReadLiteral([c] + s) == Prepend([c], ReadLiteral(s))
  {
    assert ([c] + s)[1..] == s;
  }

  lemma ReadEscape(c: char, s: string)
    ensures ReadLiteral(['\\', c] + s) == Prepend(Unescape(c), ReadLiteral(s))
  {
    assert (['\\', c] + s)[2..] == s;
  }

  lemma ReadDouble(s: string)
    ensures ReadLiteral("''" + s) == Prepend("'", ReadLiteral(s))
  {
    assert ("''" + s)[2..] == s;
  }

  lemma ReadClose(rest: string)
    requires Separate(rest)
    ensures ReadLiteral("'" + rest) == Some(Literal("", rest))
  {
    assert ("'" + rest)[1..] == rest;
  }

  /** What may follow a closing quote without being read as part of the literal. */
  predicate Separate(rest: string) {
    rest == "" || rest[0] != '\''
  }

  // ---------- LIKE ----------

  predicate Like(pattern: string, s: string)
    decreases |pattern| + |s|
  {
    if pattern == "" then s == ""
    else if pattern[0] == '\\' && |pattern| > 1 then
      s != "" && s[0] == pattern[1] && Like(pattern[2..], s[1..])
    else if pattern[0] == '_' then s != "" && Like(pattern[1..], s[1..])
    else if pattern[0] == '%' then Like(pattern[1..], s) || (s != "" && Like(pattern, s[1..]))
    else s != "" && s[0] == pattern[0] && Like(pattern[1..], s[1..])
  }

  /** The pattern that spells out a name. */
  function Exactly(name: string): string {
    if name == "" then ""
    else
      (if name[0] == '\\' || name[0] == '_' || name[0] == '%' then ['\\', name[0]] else [name[0]])
      + Exactly(name[1..])
  }

  lemma {:induction false} ExactlyMatches(name: string, s: string)
    ensures Like(Exactly(name), s) <==> s == name
  {
    if name != "" {
      var p := Exactly(name);
      var k := if name[0] == '\\' || name[0] == '_' || name[0] == '%' then 2 else 1;
      assert p[k..] == Exactly(name[1..]);
      if s != "" {
        ExactlyMatches(name[1..], s[1..]);
        assert s == [s[0]] + s[1..] && name == [name[0]] + name[1..];
      }
    }
  }

  function LikeChar(c: char): string {
    if c == '\\' then "\\\\\\\\" else if c == '\'' || c == '_' || c == '%' then ['\\', c] else [c]
  }

  function LikeText(name: string): string {
    if name == "" then "" else LikeChar(name[0]) + LikeText(name[1..])
  }

  lemma {:induction false} LikeTextRead(name: string, rest: string)
    requires Separate(rest)
    ensures ReadLiteral(LikeText(name) + "'" + rest) == Some(Literal(Exactly(name), rest))
  {
    if name == "" {
      assert LikeText(name) + "'" + rest == "'" + rest;
    } else {
      LikeTextRead(name[1..], rest);
      LikeCharRead(name[0], LikeText(name[1..]) + "'" + rest);
      ReassociateFour(LikeChar(name[0]), LikeText(name[1..]), "'", rest);
    }
  }

  lemma LikeCharRead(c: char, s: string)
    ensures ReadLiteral(LikeChar(c) + s) ==
            Prepend(if c == '\\' || c == '_' || c == '%' then ['\\', c] else [c], ReadLiteral(s))
  {
    if c == '\\' {
      var t := "\\\\" + s;
      assert LikeChar(c) + s == "\\\\" + t && ("\\\\" + t)[2..] == t && t[2..] == s;
      assert ReadLiteral("\\\\" + t) == Prepend("\\", ReadLiteral(t));
      assert ReadLiteral(t) == Prepend("\\", ReadLiteral(s));
      PrependTwice("\\", "\\", ReadLiteral(s));
      assert ['\\', c] == "\\" + "\\";
    } else if c == '\'' || c == '_' || c == '%' {
      assert (LikeChar(c) + s)[2..] == s;
    } else {
      assert (LikeChar(c) + s)[1..] == s;
    }
  }

  method QuoteCharForLike(done: string, c: char) returns (r: string)
    ensures r == done + LikeChar(c)
  {
    r := done;
    if c == '\\' {
      r := r + "\\" + "\\" + "\\";
    } else if c == '\'' || c == '_' || c == '%' {
      r := r + "\\";
    }
    r := r + [c];
  }

  /**
   The server reads the quoted name as one literal, whatever comes after it in the statement, and as
   a LIKE pattern that literal matches the table of that name and no other.
   */
  method QuoteForLike(name: string) returns (quoted: string)
    ensures |quoted| >= 2 && quoted[0] == '\''
    ensures forall rest :: Separate(rest) ==> ReadLiteral(quoted[1..] + rest) == Some(Literal(Exactly(name), rest))
    ensures forall s :: Like(Exactly(name), s) <==> s == name
  {
    quoted := "'";
    var i := 0;
    while i < |name|
      invariant i <= |name| && |quoted| >= 1
      invariant quoted + LikeText(name[i..]) == "'" + LikeText(name)
    {
      LikeTextStep(quoted, name, i);
      quoted := QuoteCharForLike(quoted, name[i]);
      i := i + 1;
    }
    assert quoted == "'" + LikeText(name);
    quoted := quoted + "'";
    LikeTextReads(name, quoted);
    forall s ensures Like(Exactly(name), s) <==> s == name { ExactlyMatches(name, s); }
  }

  lemma LikeTextStep(done: string, name: string, i: nat)
    requires i < |name|
    ensures done + LikeText(name[i..]) == (done + LikeChar(name[i])) + LikeText(name[i + 1..])
  {
    assert name[i..][1..] == name[i + 1..];
  }

  lemma LikeTextReads(name: string, quoted: string)
    requires quoted == "'" + LikeText(name) + "'"
    ensures forall rest :: Separate(rest) ==> ReadLiteral(quoted[1..] + rest) == Some(Literal(Exactly(name), rest))
  {
    forall rest | Separate(rest)
      ensures ReadLiteral(quoted[1..] + rest) == Some(Literal(Exactly(name), rest))
    {
      LikeTextRead(name, rest);
      assert quoted[1..] + rest == LikeText(name) + "'" + rest;
    }
  }

  // ---------- Terminators given by the user ----------

  /** What the user means: escapes as in a literal, quotes as themselves, a last lone backslash as itself. */
  function Meaning(from: string): string {
    if from == "" then ""
    else if from[0] == '\\' then
      if |from| == 1 then "\\" else Unescape(from[1]) + Meaning(from[2..])
    else [from[0]] + Meaning(from[1..])
  }

  /** The escaped text, after an odd or even number of backslashes. */
  function Escaped(from: string, odd: bool): string {
    if from == "" then if odd then "\\" else ""
    else if from[0] == '\\' then [from[0]] + Escaped(from[1..], !odd)
    else [from[0]] + (if from[0] == '\'' && !odd then "'" else "") + Escaped(from[1..], false)
  }

  /** The escaped text stays inside its quotes and is read as what the user means. */
  lemma {:induction false} EscapedReads(from: string, rest: string)
    requires Separate(rest)
    ensures ReadLiteral(Escaped(from, false) + "'" + rest) == Some(Literal(Meaning(from), rest))
    decreases |from|
  {
    if from == "" {
      ReadClose(rest);
      assert Escaped(from, false) + "'" + rest == "'" + rest;
    } else if from[0] != '\\' {
      EscapedReads(from[1..], rest);
      EscapedPlain(from, rest);
    } else if |from| == 1 {
      EscapedLone(from, rest);
    } else {
      EscapedReads(from[2..], rest);
      EscapedPair(from, rest);
    }
  }

  lemma EscapedPlain(from: string, rest: string)
    requires from != "" && from[0] != '\\'
    ensures ReadLiteral(Escaped(from, false) + "'" + rest) ==
            Prepend([from[0]], ReadLiteral(Escaped(from[1..], false) + "'" + rest))
  {
    var tail := Escaped(from[1..], false) + "'" + rest;
    if from[0] == '\'' {
      ReadDouble(tail);
      assert Escaped(from, false) == "''" + Escaped(from[1..], false);
      ReassociateFour("''", Escaped(from[1..], false), "'", rest);
    } else {
      ReadPlain(from[0], tail);
      assert Escaped(from, false) == [from[0]] + Escaped(from[1..], false);
      ReassociateFour([from[0]], Escaped(from[1..], false), "'", rest);
    }
  }

  lemma EscapedPair(from: string, rest: string)
    requires |from| > 1 && from[0] == '\\'
    ensures ReadLiteral(Escaped(from, false) + "'" + rest) ==
            Prepend(Unescape(from[1]), ReadLiteral(Escaped(from[2..], false) + "'" + rest))
  {
    var tail := Escaped(from[2..], false) + "'" + rest;
    assert from[1..][1..] == from[2..];
    assert Escaped(from[1..], true) == [from[1]] + Escaped(from[2..], false);
    assert Escaped(from, false) == ['\\', from[1]] + Escaped(from[2..], false);
    ReadEscape(from[1], tail);
    ReassociateFour(['\\', from[1]], Escaped(from[2..], false), "'", rest);
  }

  lemma EscapedLone(from: string, rest: string)
    requires from == "\\" && Separate(rest)
    ensures ReadLiteral(Escaped(from, false) + "'" + rest) == Some(Literal(Meaning(from), rest))
  {
    assert from[1..] == "" && Escaped(from, false) == "\\\\";
    ReadClose(rest);
    ReadEscape('\\', "'" + rest);
    assert Escaped(from, false) + "'" + rest == ['\\', '\\'] + ("'" + rest);
    assert Unescape('\\') + "" == "\\";
  }

  /** mysqldump's form, with the quotes. */
  method FieldEscapeDump(from: string) returns (quoted: string)
    ensures quoted == "'" + Escaped(from, false) + "'"
    ensures forall rest :: Separate(rest) ==> ReadLiteral(quoted[1..] + rest) == Some(Literal(Meaning(from), rest))
  {
    quoted := "'";
    var odd := false;
    var i := 0;
    while i < |from|
      invariant i <= |from| && |quoted| >= 1
      invariant quoted + Escaped(from[i..], odd) == "'" + Escaped(from, false)
    {
      EscapedStep(quoted, from, i, odd);
      quoted := quoted + [from[i]];
      if from[i] == '\\' {
        odd := !odd;
      } else {
        if from[i] == '\'' && !odd {
          quoted := quoted + "'";
        }
        odd := false;
      }
      i := i + 1;
    }
    if odd {
      quoted := quoted + "\\";
    }
    assert quoted == "'" + Escaped(from, false);
    quoted := quoted + "'";
    EscapedTextReads(from, quoted);
  }

  /** mysqlimport's form, into a buffer between quotes of its own. */
  method FieldEscapeImport(from: string) returns (to: string)
    ensures to == Escaped(from, false)
    ensures forall rest :: Separate(rest) ==> ReadLiteral(to + "'" + rest) == Some(Literal(Meaning(from), rest))
  {
    to := "";
    var odd := false;
    var i := 0;
    while i != |from|
      invariant i <= |from|
      invariant to + Escaped(from[i..], odd) == Escaped(from, false)
    {
      EscapedStep(to, from, i, odd);
      to := to + [from[i]];
      if from[i] == '\\' {
        odd := !odd;
      } else {
        if from[i] == '\'' && !odd {
          to := to + [from[i]];
        }
        odd := false;
      }
      i := i + 1;
    }
    if odd {
      to := to + "\\";
    }
    assert to == Escaped(from, false);
    forall rest | Separate(rest)
      ensures ReadLiteral(to + "'" + rest) == Some(Literal(Meaning(from), rest))
    {
      EscapedReads(from, rest);
    }
  }

  lemma EscapedStep(done: string, from: string, i: nat, odd: bool)
    requires i < |from|
    ensures done + Escaped(from[i..], odd) ==
            if from[i] == '\\' then done + [from[i]] + Escaped(from[i + 1..], !odd)
            else if from[i] == '\'' && !odd then done + [from[i]] + "'" + Escaped(from[i + 1..], false)
            else done + [from[i]] + Escaped(from[i + 1..], false)
  {
    assert from[i..][1..] == from[i + 1..];
  }

  lemma EscapedTextReads(from: string, quoted: string)
    requires quoted == "'" + Escaped(from, false) + "'"
    ensures forall rest :: Separate(rest) ==> ReadLiteral(quoted[1..] + rest) == Some(Literal(Meaning(from), rest))
  {
    forall rest | Separate(rest)
      ensures ReadLiteral(quoted[1..] + rest) == Some(Literal(Meaning(from), rest))
    {
      EscapedReads(from, rest);
      assert quoted[1..] == Escaped(from, false) + "'";
    }
  }
}
