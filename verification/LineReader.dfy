/**
 The batch line reader: a buffer that grows, shifts and is terminated by a sentinel, filled by
 reads that may return fewer bytes than asked for.
 */
module LineReader {
  import opened Helpers

  const IO_SIZE: nat := 4096

  /** The file behind the reader. A read returns any non-empty part of what is left, or fails. */
  class Input {
    var rest: string

    constructor (content: string)
      ensures rest == content
    {
      rest := content;
    }

    method Read(count: nat) returns (ok: bool, chunk: string)
      requires count > 0
      modifies this
      ensures ok ==> chunk + rest == old(rest) && |chunk| <= count && (chunk == [] <==> old(rest) == [])
      ensures !ok ==> rest == old(rest)
    {
      ok := *;
      chunk := [];
      if ok && rest != [] {
        var n :| 1 <= n <= count && n <= |rest|;
        chunk, rest := rest[..n], rest[n..];
      }
    }
  }

  // ---------- What the reader is meant to compute ----------

  predicate Terminator(c: char) {
    c == '\n' || c == '\0'
  }

  predicate NoTerminator(s: string) {
    forall i :: 0 <= i < |s| ==> !Terminator(s[i])
  }

  /** A newline or NUL ends the segment, and no other occurs in it. */
  predicate EndsLine(s: string) {
    s != [] && Terminator(s[|s| - 1]) && NoTerminator(s[..|s| - 1])
  }

  predicate EndsInNul(s: string) {
    s != [] && s[|s| - 1] == '\0'
  }

  /** How many bytes end the line: a newline, and a carriage return only right before it. */
  function EolLength(s: string): (n: nat)
    ensures n <= |s|
  {
    if s == [] || s[|s| - 1] != '\n' then 0
    else if |s| >= 2 && s[|s| - 2] == '\r' then 2
    else 1
  }

  function StripEol(s: string): string {
    s[..|s| - EolLength(s)]
  }

  /** A segment of the stream as the reader returns it. */
  datatype Segment = Segment(raw: string, truncated: bool)

  /** A segment is a whole line, an unterminated end of the stream, or a truncated piece of a line. */
  predicate LegalSegment(g: Segment, rest: string) {
    && g.raw != []
    && (if g.truncated then NoTerminator(g.raw) else EndsLine(g.raw) || (rest == [] && NoTerminator(g.raw)))
  }

  /** The segments are legal, and together with the rest they concatenate to the stream. */
  ghost predicate Segmented(stream: string, segments: seq<Segment>, rest: string)
    decreases |segments|
  {
    if segments == [] then stream == rest
    else
      && segments[0].raw <= stream
      && LegalSegment(segments[0], stream[|segments[0].raw|..])
      && Segmented(stream[|segments[0].raw|..], segments[1..], rest)
  }

  lemma {:induction false} SegmentedAppend(stream: string, segments: seq<Segment>, g: Segment, rest: string)
    requires Segmented(stream, segments, g.raw + rest) && LegalSegment(g, rest)
    ensures Segmented(stream, segments + [g], rest)
    decreases |segments|
  {
    if segments == [] {
      assert (g.raw + rest)[|g.raw|..] == rest;
      assert (segments + [g])[1..] == [];
    } else {
      assert (segments + [g])[1..] == segments[1..] + [g];
      SegmentedAppend(stream[|segments[0].raw|..], segments[1..], g, rest);
    }
  }

  // ---------- The buffer ----------

  class LineBuffer {
    var buffer: array<char>
    var end: nat
    var startOfLine: nat
    var endOfLine: nat
    var bufread: nat
    var eof: bool
    var truncated: bool
    var error: bool
    const maxSize: nat
    const file: Input

    /** The buffer holds bufread bytes and the sentinel that follows the bytes read. */
    ghost predicate Shape()
      reads this, buffer
    {
      && IO_SIZE <= bufread
      && buffer.Length == bufread + 1
      && end <= bufread
      && buffer[end] == '\0'
    }

    ghost predicate Valid()
      reads this, buffer, file
    {
      && Shape()
      && endOfLine <= end
      && (eof ==> endOfLine == end && file.rest == [])
    }

    /** What has not been returned yet. */
    ghost function Pending(): string
      reads this, buffer, file
      requires Valid()
    {
      buffer[endOfLine..end] + file.rest
    }

    constructor (file: Input, maxSize: nat)
      ensures Valid() && fresh(buffer) && Pending() == file.rest
      ensures this.file == file && this.maxSize == maxSize && !error
    {
      this.file, this.maxSize := file, maxSize;
      bufread := IO_SIZE;
      buffer := new char[IO_SIZE + 1];
      end, startOfLine, endOfLine := 0, 0, 0;
      eof, truncated, error := false, false, false;
      new;
      buffer[0] := '\0';
    }

    /** Doubles the buffer, keeping the bytes read so far and the sentinel. */
    method Grow()
      requires Shape() && startOfLine <= end
      modifies this`buffer, this`bufread
      ensures Shape() && fresh(buffer) && bufread == 2 * old(bufread)
      ensures buffer[..end + 1] == old(buffer[..end + 1])
    {
      var bigger := new char[2 * bufread + 1];
      forall i | 0 <= i <= end {
        bigger[i] := buffer[i];
      }
      bufread := 2 * bufread;
      buffer := bigger;
    }

    /** Grows the buffer until a block fits behind the unfinished line, unless the limit forbids it. */
    method MakeRoom() returns (room: nat)
      requires Shape() && startOfLine <= end
      modifies this`buffer, this`bufread
      ensures Shape() && (buffer == old(buffer) || fresh(buffer)) && buffer[..end + 1] == old(buffer[..end + 1])
      ensures room <= bufread - (end - startOfLine)
      ensures room == 0 ==> unchanged(this) && bufread - (end - startOfLine) < IO_SIZE && 2 * bufread > maxSize
    {
      var bufbytes := end - startOfLine;
      room := (bufread - bufbytes) / IO_SIZE * IO_SIZE;
      while room == 0
        invariant Shape() && (buffer == old(buffer) || fresh(buffer)) && buffer[..end + 1] == old(buffer[..end + 1])
        invariant room == (bufread - bufbytes) / IO_SIZE * IO_SIZE
        invariant room == 0 ==> unchanged(this)
        decreases room == 0
      {
        if bufread * 2 > maxSize {
          return 0;
        }
        Grow();
        room := (bufread - bufbytes) / IO_SIZE * IO_SIZE;
      }
    }

    /** Moves the unfinished line to the start of the buffer. */
    method ShiftDown()
      requires Shape() && startOfLine <= end
      modifies this`end, buffer
      ensures end == old(end) - startOfLine
      ensures buffer[..end] == old(buffer[startOfLine..end])
    {
      var bufbytes := end - startOfLine;
      if startOfLine != 0 {
        forall i | 0 <= i < bufbytes {
          buffer[i] := buffer[startOfLine + i];
        }
        end := bufbytes;
      }
    }

    /** Places bytes that were read behind the unfinished line. */
    method Place(chunk: string)
      requires buffer.Length == bufread + 1 && end + |chunk| <= bufread
      modifies buffer
      ensures buffer[..end] == old(buffer[..end]) && buffer[end..end + |chunk|] == chunk
    {
      forall i | 0 <= i < |chunk| {
        buffer[end + i] := chunk[i];
      }
    }

    /** Takes in what was read; an empty read is the end of the file. */
    method Finish(chunk: string) returns (count: nat)
      requires buffer.Length == bufread + 1 && IO_SIZE <= bufread && !eof && end < bufread && end + |chunk| <= bufread
      modifies this`end, this`startOfLine, this`endOfLine, this`eof, buffer
      ensures Shape() && startOfLine == 0 && endOfLine == old(end) && end == old(end) + count
      ensures buffer[..old(end)] == old(buffer[..end])
      ensures !eof ==> chunk != [] && buffer[old(end)..end] == chunk
      ensures eof ==> chunk == [] && NewlineAdded(old(end), count)
    {
      var bufbytes := end;
      Place(chunk);
      count := |chunk|;
      if count == 0 {
        eof := true;
        if bufbytes > 0 && buffer[end - 1] != '\n' {
          count := 1;
          buffer[end] := '\n';
        }
      }
      startOfLine := 0;
      endOfLine := bufbytes;
      end := end + count;
      buffer[end] := '\0';
    }

    /**
     Makes room behind an unfinished line and reads more. Returns the number of bytes added, 0
     when there is no more (eof) or no room (not eof), or -1 on a read error.
     */
    method FillBuffer() returns (count: int)
      requires Shape() && startOfLine <= end && (eof ==> file.rest == [])
      modifies this`buffer, this`end, this`startOfLine, this`endOfLine, this`bufread, this`eof, this`error, buffer, file
      ensures buffer == old(buffer) || fresh(buffer)
      ensures count >= -1 && (error <==> old(error) || count == -1)
      // nothing left, or no room
      ensures old(eof) || (count == 0 && !eof) ==>
                count == 0 && unchanged(this) && unchanged(buffer) && unchanged(file)
      ensures count == 0 && !eof ==> bufread - (end - startOfLine) < IO_SIZE && 2 * bufread > maxSize
      // the unfinished line is now at the start, followed by what was read
      ensures count >= 0 && !old(eof) && (count > 0 || eof) ==>
                Filled(old(buffer[startOfLine..end]), count, old(file.rest))
    {
      if eof {
        return 0;
      }
      ghost var unfinished := buffer[startOfLine..end];
      var room := MakeRoom();
      if room == 0 {
        return 0;
      }
      assert buffer[startOfLine..end] == unfinished by {
        assert old(buffer[..end + 1])[startOfLine..end] == unfinished;
      }
      count := ReadBehind(room);
    }

    /** The unfinished line of n bytes is at the start of the buffer, followed by the bytes read. */
    ghost predicate Filled(unfinished: string, count: int, rest: string)
      reads this, buffer, file
    {
      var n := |unfinished|;
      && Shape() && startOfLine == 0 && endOfLine == n && count >= 0 && end == n + count
      && buffer[..n] == unfinished
      && (!eof ==> count > 0 && buffer[n..end] + file.rest == rest)
      && (eof ==> file.rest == [] == rest && NewlineAdded(n, count))
    }

    /** Reads behind the unfinished line, once there is room. */
    method ReadBehind(room: nat) returns (count: int)
      requires Shape() && startOfLine <= end && !eof && 0 < room <= bufread - (end - startOfLine)
      modifies this`end, this`startOfLine, this`endOfLine, this`eof, this`error, buffer, file
      ensures count >= -1 && (error <==> old(error) || count == -1)
      ensures count >= 0 ==> Filled(old(buffer[startOfLine..end]), count, old(file.rest))
    {
      ShiftDown();
      var ok, chunk := file.Read(room);
      if !ok {
        error := true;
        return -1;
      }
      count := Finish(chunk);
    }

    /** At end of file a non-empty unfinished line of n bytes gets a newline, and nothing else does. */
    ghost predicate NewlineAdded(n: nat, count: int)
      reads this, buffer
      requires n < buffer.Length
    {
      if n > 0 && buffer[n - 1] != '\n' then count == 1 && buffer[n] == '\n' else count == 0
    }

    /** The first newline, NUL or sentinel at or after the unscanned part of the line. */
    method Scan() returns (pos: nat)
      requires Shape() && startOfLine <= endOfLine <= end && NoTerminator(buffer[startOfLine..endOfLine])
      ensures endOfLine <= pos <= end && Terminator(buffer[pos]) && NoTerminator(buffer[startOfLine..pos])
    {
      pos := endOfLine;
      while buffer[pos] != '\n' && buffer[pos] != '\0'
        invariant endOfLine <= pos <= end && NoTerminator(buffer[startOfLine..pos])
        decreases end - pos
      {
        pos := pos + 1;
      }
    }

    /** While a line is looked for, the bytes from its start on, apart from an added newline, are the stream. */
    ghost predicate Reading(stream: string)
      reads this, buffer, file
    {
      && Shape() && startOfLine <= endOfLine <= end && NoTerminator(buffer[startOfLine..endOfLine])
      && (!eof ==> buffer[startOfLine..end] + file.rest == stream)
      && (eof ==> file.rest == [] && buffer[startOfLine..endOfLine] == stream
                  && (if stream == [] then endOfLine == end else end == endOfLine + 1 && buffer[endOfLine] == '\n'))
    }

    /** The line found, as the caller sees it through startOfLine and the length returned. */
    ghost function Found(length: nat): Segment
      reads this, buffer
      requires startOfLine + length <= buffer.Length
    {
      Segment(buffer[startOfLine..startOfLine + length], truncated)
    }

    /** Fills the buffer when the line has not ended in it. */
    method Refill(ghost stream: string) returns (count: int)
      requires Reading(stream) && NoTerminator(buffer[startOfLine..end]) && !error
      modifies this`buffer, this`end, this`startOfLine, this`endOfLine, this`bufread, this`eof, this`error, buffer, file
      ensures buffer == old(buffer) || fresh(buffer)
      ensures count >= -1 && (error <==> count == -1)
      ensures count > 0 ==> Reading(stream) && !old(eof) && (eof ==> |file.rest| == |old(file.rest)|)
                            && (!eof ==> |file.rest| < |old(file.rest)|)
      ensures count == 0 && eof ==> Valid() && stream == [] == Pending()
      ensures count == 0 && !eof ==> Reading(stream) && NoTerminator(buffer[startOfLine..end])
                                     && bufread - (end - startOfLine) < IO_SIZE && 2 * bufread > maxSize
    {
      ghost var unfinished, rest := buffer[startOfLine..end], file.rest;
      assert eof ==> stream == [];
      count := FillBuffer();
      if count == 0 && !eof {
        assert buffer[startOfLine..end] == unfinished;
      } else if count >= 0 && !old(eof) {
        if eof {
          FilledAtEnd(unfinished, count, rest);
        } else {
          FilledMore(unfinished, count, rest);
        }
      }
    }

    lemma FilledMore(unfinished: string, count: int, rest: string)
      requires Filled(unfinished, count, rest) && !eof && NoTerminator(unfinished)
      ensures Reading(unfinished + rest) && |file.rest| < |rest|
    {
      var n := |unfinished|;
      assert buffer[..end] == unfinished + buffer[n..end];
      Reassociate(unfinished, buffer[n..end], file.rest);
    }

    lemma FilledAtEnd(unfinished: string, count: int, rest: string)
      requires Filled(unfinished, count, rest) && eof && NoTerminator(unfinished)
      ensures unfinished + rest == unfinished
      ensures if count > 0 then Reading(unfinished) else Valid() && unfinished == [] == Pending()
    {
      assert unfinished != [] ==> unfinished[|unfinished| - 1] == buffer[|unfinished| - 1];
    }

    /**
     A segment of the stream has been returned: it is legal, the stream is the segment and what is
     pending, and only a full buffer at its size limit breaks a line. The byte behind a segment
     that does not end in a terminator has been consumed too, unless it is the sentinel.
     */
    ghost predicate Returned(stream: string, length: nat)
      reads this, buffer, file
    {
      && Valid()
      && startOfLine + length <= endOfLine
      && stream == Found(length).raw + Pending()
      && LegalSegment(Found(length), Pending())
      && (truncated ==> startOfLine + length == endOfLine == end && 2 * bufread > maxSize && length + IO_SIZE > bufread)
      && (!truncated && NoTerminator(Found(length).raw) ==> startOfLine + length < endOfLine)
      && (EndsInNul(Found(length).raw) ==> startOfLine + length == endOfLine)
    }

    lemma LineInFile(stream: string, pos: nat)
      requires Shape() && startOfLine <= pos < end && endOfLine == pos + 1 && !truncated && !eof
      requires buffer[startOfLine..end] + file.rest == stream
      requires Terminator(buffer[pos]) && NoTerminator(buffer[startOfLine..pos])
      ensures Returned(stream, pos + 1 - startOfLine)
    {
      var raw := Found(pos + 1 - startOfLine).raw;
      assert raw[..|raw| - 1] == buffer[startOfLine..pos];
      assert buffer[startOfLine..end] == raw + buffer[pos + 1..end];
    }

    lemma LineAtEnd(stream: string, pos: nat)
      requires Shape() && startOfLine <= pos && end == endOfLine == pos + 1 && !truncated && eof
      requires file.rest == [] && buffer[startOfLine..pos] == stream != [] && NoTerminator(stream)
      ensures Returned(stream, pos - startOfLine)
    {
      assert Found(pos - startOfLine).raw == stream && Pending() == [];
    }

    /** Returns the line that ends at pos. */
    method EndLine(ghost stream: string, pos: nat) returns (length: nat)
      requires Reading(stream) && endOfLine <= pos < end
      requires Terminator(buffer[pos]) && NoTerminator(buffer[startOfLine..pos])
      modifies this`truncated, this`endOfLine
      ensures Returned(stream, length)
    {
      truncated := false;
      endOfLine := pos + 1;
      length := pos + 1 - (if eof then 1 else 0) - startOfLine;
      if eof {
        LineAtEnd(stream, pos);
      } else {
        LineInFile(stream, pos);
      }
    }

    /** Breaks the line at the end of a buffer that cannot grow. */
    method BreakLine(ghost stream: string) returns (length: nat)
      requires Reading(stream) && !eof && NoTerminator(buffer[startOfLine..end])
      requires bufread - (end - startOfLine) < IO_SIZE && 2 * bufread > maxSize
      modifies this`truncated, this`endOfLine
      ensures Returned(stream, length)
    {
      truncated := true;
      endOfLine := end;
      length := end - startOfLine;
      assert Found(length).raw == buffer[startOfLine..end] && buffer[endOfLine..end] == [];
    }

    /**
     Reads one segment. Called until the end of file, it takes the stream apart without losing or
     inventing a byte, whatever the reads return.
     */
    method InternReadLine() returns (found: bool, length: nat)
      requires Valid() && !error
      modifies this, buffer, file
      ensures buffer == old(buffer) || fresh(buffer)
      ensures error ==> !found
      ensures found ==> Returned(old(Pending()), length)
      ensures !error && !found ==> Valid() && old(Pending()) == [] == Pending()
    {
      ghost var stream := Pending();
      startOfLine := endOfLine;
      var done := false;
      found, length := false, 0;
      while !done
        invariant !done ==> Reading(stream) && !error && !found
        invariant error ==> done && !found
        invariant found ==> Returned(stream, length)
        invariant done && !found && !error ==> Valid() && stream == [] == Pending()
        invariant buffer == old(buffer) || fresh(buffer)
        decreases !done, |file.rest|, !eof
      {
        done, found, length := Attempt(stream);
      }
    }

    /** Looks for the end of the line in the buffer, and if it is not there fills the buffer. */
    method Attempt(ghost stream: string) returns (done: bool, found: bool, length: nat)
      requires Reading(stream) && !error
      modifies this, buffer, file
      ensures buffer == old(buffer) || fresh(buffer)
      ensures error ==> done && !found
      ensures found ==> done && Returned(stream, length)
      ensures done && !found && !error ==> Valid() && stream == [] == Pending()
      ensures !done ==> Reading(stream) && !found
      ensures !done ==> |file.rest| < |old(file.rest)| || (|file.rest| == |old(file.rest)| && eof && !old(eof))
    {
      done, found, length := true, true, 0;
      var pos := Scan();
      if pos != end {
        length := EndLine(stream, pos);
      } else {
        var count := Refill(stream);
        if count == 0 && !eof {
          length := BreakLine(stream);
        } else {
          done, found := count <= 0, false;
        }
      }
    }

    /** The line returned: NUL-terminated inside the consumed bytes, or by the sentinel when truncated. */
    ghost predicate LineAt(length: nat)
      reads this, buffer
    {
      && startOfLine + length < buffer.Length
      && buffer[startOfLine + length] == '\0'
      && (if truncated then startOfLine + length == endOfLine == end else startOfLine + length < endOfLine)
    }

    /**
     The line has been terminated in place. That changes no byte still pending, unless the line was
     ended by a NUL and the next byte is in the buffer already: that byte is lost.
     */
    ghost predicate Cut(raw: string, rest: string, n: nat)
      reads this, buffer, file
    {
      && Valid() && startOfLine + n < buffer.Length && buffer[startOfLine + n] == '\0'
      && buffer[startOfLine..startOfLine + n] == StripEol(raw)
      && (!EndsInNul(raw) ==> LineAt(n))
      && Pending() == if EndsInNul(raw) && endOfLine < end && rest != [] then ['\0'] + rest[1..] else rest
    }

    /** Reads one line, which with the rest makes up the stream, and terminates it in place. */
    method BatchReadline() returns (found: bool, length: nat, ghost raw: string, ghost rest: string)
      requires Valid() && !error
      modifies this, buffer, file
      ensures buffer == old(buffer) || fresh(buffer)
      ensures error ==> !found
      ensures !error && !found ==> Valid() && old(Pending()) == [] == Pending()
      ensures found ==> old(Pending()) == raw + rest && LegalSegment(Segment(raw, truncated), rest)
      ensures found && truncated ==> 2 * (|raw| + IO_SIZE) > maxSize
      ensures found ==> Cut(raw, rest, length)
    {
      raw, rest := [], [];
      found, length := InternReadLine();
      if found {
        raw, rest := Found(length).raw, Pending();
        length := CutLine(old(Pending()), length);
      }
    }

    method CutLine(ghost stream: string, length: nat) returns (n: nat)
      requires Returned(stream, length)
      modifies buffer
      ensures Cut(old(Found(length).raw), old(Pending()), n)
    {
      n := TrimEol(length);
      NulFallsInConsumedBytes(stream, length, n);
      Terminate(n);
    }

    method TrimEol(length: nat) returns (n: nat)
      requires startOfLine + length <= buffer.Length
      ensures n == length - EolLength(Found(length).raw)
      ensures buffer[startOfLine..startOfLine + n] == StripEol(Found(length).raw)
    {
      n := length;
      ghost var raw := Found(length).raw;
      assert forall i :: 0 <= i < length ==> raw[i] == buffer[startOfLine + i];
      if n > 0 && buffer[startOfLine + n - 1] == '\n' {
        n := n - 1;
        if n > 0 && buffer[startOfLine + n - 1] == '\r' {
          n := n - 1;
        }
      }
      assert raw[..n] == buffer[startOfLine..startOfLine + n];
    }

    lemma NulFallsInConsumedBytes(stream: string, length: nat, n: nat)
      requires Returned(stream, length) && n == length - EolLength(Found(length).raw)
      ensures if truncated then startOfLine + n == endOfLine == end
              else if EndsInNul(Found(length).raw) then startOfLine + n == endOfLine
              else startOfLine + n < endOfLine
    {
    }

    /** pos[out_length]= 0. */
    method Terminate(length: nat)
      requires Valid() && startOfLine + length <= endOfLine
      modifies buffer
      ensures Valid()
      ensures buffer[startOfLine + length] == '\0'
      ensures buffer[startOfLine..startOfLine + length] == old(buffer[startOfLine..startOfLine + length])
      ensures Pending() == if startOfLine + length == endOfLine < end then ['\0'] + old(Pending())[1..]
                           else old(Pending())
    {
      buffer[startOfLine + length] := '\0';
    }
  }

  /** Terminating a line in place leaves what is pending as it was, except for a byte behind a NUL. */
  lemma CutKeepsExactly(lines: LineBuffer, raw: string, rest: string, n: nat)
    requires lines.Cut(raw, rest, n)
    ensures lines.Pending() == rest <==>
            !(EndsInNul(raw) && lines.endOfLine < lines.end && rest != [] && rest[0] != '\0')
  {
    if EndsInNul(raw) && lines.endOfLine < lines.end && rest != [] {
      assert lines.Pending()[0] == '\0' && rest == [rest[0]] + rest[1..];
    }
  }

  /** A buffer that has read this much of a short file, and returned nothing yet. */
  method Loaded(content: string) returns (lines: LineBuffer)
    requires |content| < IO_SIZE
    ensures fresh(lines) && fresh(lines.buffer) && lines.Reading(content) && 2 * lines.bufread <= lines.maxSize
    ensures lines.startOfLine == lines.endOfLine == 0 && lines.end == |content| && lines.buffer[..lines.end] == content
  {
    var file := new Input([]);
    lines := new LineBuffer(file, 2 * IO_SIZE);
    lines.startOfLine, lines.endOfLine, lines.end, lines.eof := 0, 0, 0, false;
    lines.buffer, lines.bufread := new char[IO_SIZE + 1], IO_SIZE;
    lines.Place(content);
    lines.end := |content|;
    lines.buffer[|content|] := '\0';
    assert lines.buffer[..|content|] == content && content + [] == content;
  }

  /** The line `a` ended by a NUL has been found, with a `b` behind it in the buffer. */
  method NulEndsLine() returns (lines: LineBuffer, length: nat)
    ensures fresh(lines) && fresh(lines.buffer) && lines.Returned("a\0b", length) && lines.endOfLine < lines.end
    ensures lines.Found(length).raw == "a\0" && lines.Pending() == "b"
  {
    var content := "a\0b";
    lines := Loaded(content);
    assert forall i :: 0 <= i < 3 ==> lines.buffer[i] == content[i];
    var pos := lines.Scan();
    assert lines.buffer[lines.startOfLine..pos] == content[..pos];
    NotBehindTerminator(content, 1, pos);
    length := lines.EndLine(content, pos);
    FirstSegment(lines.Found(length), lines.Pending());
  }

  /** An input on which a byte is lost. */
  method NulLosesNextByte() returns (lines: LineBuffer, length: nat)
    ensures fresh(lines) && lines.Cut("a\0", "b", length) && lines.Pending() == "\0"
  {
    lines, length := NulEndsLine();
    length := lines.CutLine("a\0b", length);
    assert "b"[1..] == [];
  }

  lemma NotBehindTerminator(s: string, i: nat, pos: nat)
    requires i < |s| && Terminator(s[i]) && pos <= |s| && NoTerminator(s[..pos])
    ensures pos <= i
  {
    assert forall k :: 0 <= k < pos ==> s[..pos][k] == s[k];
  }

  lemma FirstSegment(g: Segment, rest: string)
    requires g.raw + rest == "a\0b" && LegalSegment(g, rest) && !g.truncated
    ensures g.raw == "a\0" && rest == "b"
  {
    var stream := "a\0b";
    assert stream[0] == 'a' && stream[1] == '\0' && stream[2] == 'b';
    assert forall i :: 0 <= i < |g.raw| ==> g.raw[i] == stream[i];
    assert forall i :: 0 <= i < |rest| ==> rest[i] == stream[|g.raw| + i];
    assert |g.raw| + |rest| == 3;
  }

  // ---------- From segments to lines ----------

  function FirstNewline(s: string): (n: nat)
    ensures n <= |s| && (n < |s| ==> s[n] == '\n') && forall i :: 0 <= i < n ==> s[i] != '\n'
  {
    if s == [] || s[0] == '\n' then 0 else 1 + FirstNewline(s[1..])
  }

  /** The lines of a text: newline-split, with a non-empty unterminated last line kept. */
  function SplitLines(s: string): seq<string> {
    if s == [] then []
    else if FirstNewline(s) == |s| then [s]
    else [StripEol(s[..FirstNewline(s) + 1])] + SplitLines(s[FirstNewline(s) + 1..])
  }

  /** The lines a caller gets by gluing truncated pieces to what follows them. */
  function Rejoin(carry: string, segments: seq<Segment>): seq<string>
    decreases |segments|
  {
    if segments == [] then (if carry == [] then [] else [carry])
    else if segments[0].truncated then Rejoin(carry + segments[0].raw, segments[1..])
    else [carry + StripEol(segments[0].raw)] + Rejoin([], segments[1..])
  }

  /** A line break between a carriage return and its newline. */
  predicate SplitsCrLf(segments: seq<Segment>) {
    exists i :: 0 <= i < |segments| - 1 && CrLfAt(segments, i)
  }

  predicate CrLfAt(segments: seq<Segment>, i: nat)
    requires i < |segments| - 1
  {
    segments[i].truncated && segments[i].raw != [] && segments[i].raw[|segments[i].raw| - 1] == '\r'
    && !segments[i + 1].truncated && segments[i + 1].raw == "\n"
  }

  /** The first segment is the newline of a carriage return that ended the carry. */
  predicate HeadBreak(carry: string, segments: seq<Segment>) {
    carry != [] && carry[|carry| - 1] == '\r' && segments != [] && segments[0] == Segment("\n", false)
  }

  lemma SplitsCrLfHead(segments: seq<Segment>)
    requires segments != [] && segments[0].raw != []
    ensures SplitsCrLf(segments) <==>
            (segments[0].truncated && HeadBreak(segments[0].raw, segments[1..])) || SplitsCrLf(segments[1..])
  {
    if i :| 0 <= i < |segments| - 1 && CrLfAt(segments, i) {
      assert i == 0 || CrLfAt(segments[1..], i - 1);
    }
    if segments[0].truncated && HeadBreak(segments[0].raw, segments[1..]) {
      assert CrLfAt(segments, 0);
    }
    if i :| 0 <= i < |segments[1..]| - 1 && CrLfAt(segments[1..], i) {
      assert CrLfAt(segments, i + 1);
    }
  }

  lemma {:induction false} FirstNewlineSkips(a: string, b: string)
    requires NoTerminator(a)
    ensures FirstNewline(a + b) == |a| + FirstNewline(b)
  {
    if a == [] {
      assert a + b == b;
    } else {
      assert (a + b)[1..] == a[1..] + b;
      assert !Terminator(a[0]);
      FirstNewlineSkips(a[1..], b);
    }
  }

  lemma FirstLineEnds(body: string, rest: string)
    requires NoTerminator(body)
    ensures SplitLines(body + ['\n'] + rest) == [StripEol(body + ['\n'])] + SplitLines(rest)
  {
    var text := body + ['\n'] + rest;
    assert text == body + (['\n'] + rest);
    FirstNewlineSkips(body, ['\n'] + rest);
    assert FirstNewline(text) == |body|;
    assert text[..|body| + 1] == body + ['\n'] && text[|body| + 1..] == rest;
  }

  lemma StripWhole(carry: string, raw: string)
    requires EndsLine(raw) && raw[|raw| - 1] == '\n'
    ensures StripEol(carry + raw) == carry + StripEol(raw) <==> !HeadBreak(carry, [Segment(raw, false)])
  {
    if |raw| >= 2 {
      assert StripEol(carry + raw) == carry + StripEol(raw);
    } else {
      assert raw == "\n" && StripEol(raw) == [];
    }
  }

  /** A whole line, with what was carried over, is the first line of the text. */
  lemma WholeLine(carry: string, raw: string, rest: string)
    requires NoTerminator(carry) && EndsLine(raw) && raw[|raw| - 1] == '\n'
    ensures SplitLines(carry + raw + rest) == [StripEol(carry + raw)] + SplitLines(rest)
    ensures StripEol(carry + raw) == carry + StripEol(raw) <==> !HeadBreak(carry, [Segment(raw, false)])
  {
    var body := carry + raw[..|raw| - 1];
    assert body + ['\n'] == carry + raw;
    FirstLineEnds(body, rest);
    StripWhole(carry, raw);
  }

  lemma UnterminatedText(s: string)
    requires NoTerminator(s)
    ensures SplitLines(s) == if s == [] then [] else [s]
  {
    FirstNewlineSkips(s, []);
    assert s + [] == s;
  }

  /** Gluing gives the lines of the text exactly when no carriage return was cut from its newline. */
  ghost predicate RejoinsExactly(carry: string, stream: string, segments: seq<Segment>) {
    Rejoin(carry, segments) == SplitLines(carry + stream) <==> !HeadBreak(carry, segments) && !SplitsCrLf(segments)
  }

  lemma RejoinPiece(carry: string, stream: string, segments: seq<Segment>)
    requires segments != [] && segments[0].raw != [] && segments[0].truncated && segments[0].raw <= stream
    requires RejoinsExactly(carry + segments[0].raw, stream[|segments[0].raw|..], segments[1..])
    ensures RejoinsExactly(carry, stream, segments)
  {
    var raw := segments[0].raw;
    SplitsCrLfHead(segments);
    assert carry + stream == (carry + raw) + stream[|raw|..];
    assert HeadBreak(carry + raw, segments[1..]) <==> HeadBreak(raw, segments[1..]);
  }

  lemma RejoinLine(carry: string, stream: string, segments: seq<Segment>)
    requires segments != [] && EndsLine(segments[0].raw) && !segments[0].truncated && segments[0].raw <= stream
    requires NoTerminator(carry) && segments[0].raw[|segments[0].raw| - 1] == '\n'
    requires RejoinsExactly([], stream[|segments[0].raw|..], segments[1..])
    ensures RejoinsExactly(carry, stream, segments)
  {
    var raw, rest := segments[0].raw, stream[|segments[0].raw|..];
    SplitsCrLfHead(segments);
    assert carry + stream == carry + raw + rest;
    WholeLine(carry, raw, rest);
    assert [] + rest == rest;
    ConsEqual(carry + StripEol(raw), Rejoin([], segments[1..]), StripEol(carry + raw), SplitLines(rest));
    assert HeadBreak(carry, segments) <==> HeadBreak(carry, [Segment(raw, false)]);
    assert !HeadBreak([], segments[1..]);
  }

  lemma ConsEqual(a: string, xs: seq<string>, b: string, ys: seq<string>)
    ensures [a] + xs == [b] + ys <==> a == b && xs == ys
  {
    if [a] + xs == [b] + ys {
      assert ([a] + xs)[0] == ([b] + ys)[0];
      assert xs == ([a] + xs)[1..] && ys == ([b] + ys)[1..];
    }
  }

  lemma RejoinEnd(carry: string, stream: string, segments: seq<Segment>)
    requires segments != [] && NoTerminator(carry) && NoTerminator(stream) && stream != []
    requires segments == [Segment(stream, false)]
    ensures RejoinsExactly(carry, stream, segments)
  {
    UnterminatedText(carry + stream);
    assert StripEol(stream) == stream;
    assert segments[1..] == [] && Rejoin([], segments[1..]) == [];
    assert !SplitsCrLf(segments);
  }

  /**
   Gluing truncated pieces to what follows gives back exactly the lines of the text, unless the
   buffer limit fell between a carriage return and its newline.
   */
  lemma {:induction false} RejoinedLines(carry: string, stream: string, segments: seq<Segment>)
    requires Segmented(stream, segments, []) && '\0' !in stream && NoTerminator(carry)
    ensures RejoinsExactly(carry, stream, segments)
    decreases |segments|
  {
    if segments == [] {
      assert carry + stream == carry;
      UnterminatedText(carry);
    } else {
      var raw, rest := segments[0].raw, stream[|segments[0].raw|..];
      if segments[0].truncated {
        RejoinedLines(carry + raw, rest, segments[1..]);
        RejoinPiece(carry, stream, segments);
      } else if EndsLine(raw) {
        assert raw[|raw| - 1] == stream[|raw| - 1];
        RejoinedLines([], rest, segments[1..]);
        RejoinLine(carry, stream, segments);
      } else {
        assert stream == raw && segments[1..] == [];
        RejoinEnd(carry, stream, segments);
      }
    }
  }

  /** The lines returned for a list of segments. */
  function LinesOf(segments: seq<Segment>): seq<string> {
    if segments == [] then [] else [StripEol(segments[0].raw)] + LinesOf(segments[1..])
  }

  /** When nothing was truncated, the lines returned are the first lines of the text. */
  lemma {:induction false} UntruncatedLines(stream: string, segments: seq<Segment>, rest: string)
    requires Segmented(stream, segments, rest) && '\0' !in stream
    requires forall i :: 0 <= i < |segments| ==> !segments[i].truncated
    ensures SplitLines(stream) == LinesOf(segments) + SplitLines(rest)
    decreases |segments|
  {
    if segments == [] {
      assert LinesOf(segments) + SplitLines(rest) == SplitLines(rest);
    } else {
      var raw, tail := segments[0].raw, stream[|segments[0].raw|..];
      UntruncatedLines(tail, segments[1..], rest);
      Reassociate([StripEol(raw)], LinesOf(segments[1..]), SplitLines(rest));
      FirstLine(stream, raw, tail);
    }
  }

  lemma FirstLine(stream: string, raw: string, tail: string)
    requires stream == raw + tail && '\0' !in stream && LegalSegment(Segment(raw, false), tail)
    ensures SplitLines(stream) == [StripEol(raw)] + SplitLines(tail)
  {
    if EndsLine(raw) {
      assert raw[|raw| - 1] == stream[|raw| - 1];
      WholeLine([], raw, tail);
      assert [] + raw == raw;
    } else {
      assert stream == raw && StripEol(raw) == raw;
      UnterminatedText(raw);
    }
  }

  /** No stretch of the text without a newline is so long that the reader would break it. */
  ghost predicate ShortLines(stream: string, maxSize: nat) {
    forall i, j :: 0 <= i <= j <= |stream| && NoTerminator(stream[i..j]) ==> 2 * (j - i + IO_SIZE) <= maxSize
  }

  /** Only long pieces were broken off. */
  predicate BreaksOnlyLong(segments: seq<Segment>, maxSize: nat) {
    forall i :: 0 <= i < |segments| && segments[i].truncated ==> 2 * (|segments[i].raw| + IO_SIZE) > maxSize
  }

  /** A text of short lines is never broken. */
  lemma {:induction false} ShortLinesUntruncated(stream: string, segments: seq<Segment>, rest: string, maxSize: nat)
    requires Segmented(stream, segments, rest) && ShortLines(stream, maxSize) && BreaksOnlyLong(segments, maxSize)
    ensures forall i :: 0 <= i < |segments| ==> !segments[i].truncated
    decreases |segments|
  {
    if segments == [] {
    } else {
      var raw := segments[0].raw;
      assert stream[0..|raw|] == raw;
      ShortLinesTail(stream, |raw|, maxSize);
      ShortLinesUntruncated(stream[|raw|..], segments[1..], rest, maxSize);
    }
  }

  lemma ShortLinesTail(stream: string, n: nat, maxSize: nat)
    requires n <= |stream| && ShortLines(stream, maxSize)
    ensures ShortLines(stream[n..], maxSize)
  {
    forall i, j | 0 <= i <= j <= |stream| - n && NoTerminator(stream[n..][i..j])
      ensures 2 * (j - i + IO_SIZE) <= maxSize
    {
      assert stream[n..][i..j] == stream[n + i..n + j];
    }
  }

  /** A text whose lines come back changed: the limit falls between a carriage return and its newline. */
  lemma CutCrLfIsKept()
    ensures var segments := [Segment("a\r", true), Segment("\n", false)];
            && Segmented("a\r\n", segments, []) && SplitsCrLf(segments)
            && Rejoin([], segments) != SplitLines("a\r\n")
  {
    var stream, first, second := "a\r\n", Segment("a\r", true), Segment("\n", false);
    var segments := [first, second];
    assert stream[2..] == "\n" && stream[2..][1..] == [];
    assert segments[1..] == [second] && segments[1..][1..] == [];
    assert CrLfAt(segments, 0);
    RejoinedLines([], stream, segments);
    assert [] + stream == stream;
  }
}
