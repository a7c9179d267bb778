/**
 The CDATA sections in which mysqldump prints text, against a reader of character data
 (sections 2.4 and 2.7 of the W3C Recommendation Extensible Markup Language (XML) 1.0).
 */
module DumpXml {
  import opened Helpers

  const OPENING: string := "<![CDATA["
  const CLOSING: string := "]]>"
  const SPLIT: string := "]]]]><![CDATA[>"

  /** A closing mark comes next. */
  predicate Closes(s: string) {
    |s| >= 3 && s[0] == ']' && s[1] == ']' && s[2] == '>'
  }

  predicate OpensSection(s: string) {
    && |s| >= 9 && s[0] == '<' && s[1] == '!' && s[2] == '[' && s[3] == 'C' && s[4] == 'D'
    && s[5] == 'A' && s[6] == 'T' && s[7] == 'A' && s[8] == '['
  }

  function Cons(c: char, text: Option<string>): Option<string> {
    if text.None? then None else Some([c] + text.value)
  }

  /** The character data of a document fragment; none where it is not well-formed as such. */
  function Text(s: string, inside: bool): Option<string> {
    if inside then
      if s == "" then None
      else if Closes(s) then Text(s[3..], false)
      else Cons(s[0], Text(s[1..], true))
    else
      if s == "" then Some("")
      else if OpensSection(s) then Text(s[9..], true)
      else if Closes(s) || s[0] == '<' || s[0] == '&' then None
      else Cons(s[0], Text(s[1..], false))
  }

  /** What is printed for the text inside the section. */
  function Body(s: string): string {
    if s == "" then ""
    else if Closes(s) then SPLIT + Body(s[3..])
    else [s[0]] + Body(s[1..])
  }

  lemma ReadPlain(c: char, s: string, inside: bool)
    requires !(Closes([c] + s)) && (inside || (c != '<' && c != '&'))
    ensures Text([c] + s, inside) == Cons(c, Text(s, inside))
  {
    assert ([c] + s)[1..] == s;
  }

  lemma ReadClosing(s: string)
    ensures Text(CLOSING + s, true) == Text(s, false)
  {
    assert (CLOSING + s)[3..] == s;
  }

  lemma ReadOpening(s: string)
    ensures Text(OPENING + s, false) == Text(s, true)
  {
    assert (OPENING + s)[9..] == s;
  }

  lemma SplitParts(s: string)
    ensures SPLIT + s == "]" + ("]" + (CLOSING + (OPENING + (">" + s))))
  {
  }

  /** Splitting the section puts the closing mark into the text. */
  lemma ReadSplit(s: string)
    ensures Text(SPLIT + s, true) == Cons(']', Cons(']', Cons('>', Text(s, true))))
  {
    SplitParts(s);
    ReadReopened(">" + s);
    ReadPlain('>', s, true);
    ReadBrackets(CLOSING + (OPENING + (">" + s)));
  }

  lemma ReadReopened(s: string)
    ensures Text(CLOSING + (OPENING + s), true) == Text(s, true)
  {
    ReadClosing(OPENING + s);
    ReadOpening(s);
  }

  lemma ReadBrackets(s: string)
    requires |s| >= 2 && s[0] == ']' && s[1] == ']'
    ensures Text("]" + ("]" + s), true) == Cons(']', Cons(']', Text(s, true)))
  {
    ReadPlain(']', s, true);
    ReadPlain(']', "]" + s, true);
  }

  lemma ReadEnd()
    ensures Text("\n]]>\n", true) == Some("\n\n")
  {
    var close := CLOSING + "\n";
    ReadPlain('\n', "", false);
    ReadClosing("\n");
    ReadPlain('\n', close, true);
    assert "\n" + close == "\n]]>\n" && "\n" + "" == "\n" && "\n" + "\n" == "\n\n";
  }

  /** Printing never makes a closing mark where the text has none. */
  lemma NoNewClosing(s: string, tail: string)
    requires s != "" && !(Closes(s)) && tail != "" && tail[0] != '>' && tail[0] != ']'
    ensures !(Closes(Body(s) + tail))
  {
    if s[0] == ']' && |s| > 1 && s[1] == ']' {
      assert Body(s) == [']'] + Body(s[1..]);
      if !(Closes(s[1..])) {
        assert Body(s[1..]) == [']'] + Body(s[1..][1..]);
        var t := s[1..][1..];
        assert t == "" || t[0] != '>';
        assert Body(t) == "" || Body(t)[0] != '>';
        assert (Body(s) + tail)[2] == (Body(t) + tail)[0];
      }
    } else if s[0] == ']' {
      var t := s[1..];
      assert Body(t) == "" || Body(t)[0] != ']';
      assert (Body(s) + tail)[1] == (Body(t) + tail)[0];
    }
  }

  lemma BodyParts(s: string, tail: string)
    requires s != ""
    ensures Body(s) + tail == if Closes(s) then SPLIT + (Body(s[3..]) + tail) else [s[0]] + (Body(s[1..]) + tail)
  {
    if Closes(s) {
      Reassociate(SPLIT, Body(s[3..]), tail);
    } else {
      Reassociate([s[0]], Body(s[1..]), tail);
    }
  }

  lemma TextParts(s: string, end: string)
    requires s != ""
    ensures s + end == if Closes(s) then "]" + ("]" + (">" + (s[3..] + end))) else [s[0]] + (s[1..] + end)
  {
  }

  /** The text of the body followed by `tail`, given that of the shorter body. */
  lemma BodyReadsOne(s: string, tail: string)
    requires s != "" && tail != "" && tail[0] != '>' && tail[0] != ']'
    ensures Closes(s) ==> Text(Body(s) + tail, true) == Cons(']', Cons(']', Cons('>', Text(Body(s[3..]) + tail, true))))
    ensures !Closes(s) ==> Text(Body(s) + tail, true) == Cons(s[0], Text(Body(s[1..]) + tail, true))
  {
    BodyParts(s, tail);
    if Closes(s) {
      ReadSplit(Body(s[3..]) + tail);
    } else {
      NoNewClosing(s, tail);
      ReadPlain(s[0], Body(s[1..]) + tail, true);
    }
  }

  lemma {:induction false} BodyReads(s: string, tail: string, end: string)
    requires tail != "" && tail[0] != '>' && tail[0] != ']' && Text(tail, true) == Some(end)
    ensures Text(Body(s) + tail, true) == Some(s + end)
  {
    if s == "" {
      assert Body(s) + tail == tail && s + end == end;
    } else {
      BodyReadsOne(s, tail);
      TextParts(s, end);
      BodyReads(if Closes(s) then s[3..] else s[1..], tail, end);
    }
  }

  /** The byte at i; the buffer is followed by a terminator. */
  function At(s: string, i: nat): char {
    if i < |s| then s[i] else '\0'
  }

  /** A reader gets the text back, between the newlines that the printer adds. */
  method PrintCdata(s: string) returns (out: string)
    ensures Text(out, false) == Some("\n" + s + "\n\n")
  {
    out := "<![CDATA[\n";
    var i := 0;
    while i != |s|
      invariant i <= |s|
      invariant out + Body(s[i..]) == "<![CDATA[\n" + Body(s)
    {
      BodyStep(out, s, i);
      if s[i] == ']' && At(s, i + 1) == ']' && At(s, i + 2) == '>' {
        out := out + SPLIT;
        i := i + 2;
      } else {
        out := out + [s[i]];
      }
      i := i + 1;
    }
    out := out + "\n]]>\n";
    WholeReads(s, out);
  }

  lemma BodyStep(out: string, s: string, i: nat)
    requires i < |s|
    ensures if s[i] == ']' && At(s, i + 1) == ']' && At(s, i + 2) == '>'
            then i + 3 <= |s| && out + Body(s[i..]) == out + SPLIT + Body(s[i + 3..])
            else out + Body(s[i..]) == out + [s[i]] + Body(s[i + 1..])
  {
    assert Closes(s[i..]) <==> s[i] == ']' && At(s, i + 1) == ']' && At(s, i + 2) == '>';
    if Closes(s[i..]) {
      assert s[i..][3..] == s[i + 3..];
    } else {
      assert s[i..][1..] == s[i + 1..];
    }
  }

  lemma WholeParts(body: string)
    ensures "<![CDATA[\n" + body + "\n]]>\n" == OPENING + ("\n" + (body + "\n]]>\n"))
  {
    assert "<![CDATA[\n" == OPENING + "\n";
    Reassociate(OPENING, "\n", body);
    Reassociate(OPENING, "\n" + body, "\n]]>\n");
    Reassociate("\n", body, "\n]]>\n");
  }

  lemma WholeReads(s: string, out: string)
    requires out == "<![CDATA[\n" + Body(s) + "\n]]>\n"
    ensures Text(out, false) == Some("\n" + s + "\n\n")
  {
    var inner := Body(s) + "\n]]>\n";
    ReadEnd();
    BodyReads(s, "\n]]>\n", "\n\n");
    ReadPlain('\n', inner, true);
    ReadOpening("\n" + inner);
    WholeParts(Body(s));
    Reassociate("\n", s, "\n\n");
  }
}
