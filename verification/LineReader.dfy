/** Reading lines off the control connection by peeking first and consuming afterwards (netstr.c). */
module LineReader {

  /** Index of the first terminator in s, or |s|. */
  function FirstTerm(s: string, term: char): (k: nat)
    ensures k <= |s| && FreeTo(s, term, k)
    ensures k < |s| ==> s[k] == term
  {
    if s == "" || s[0] == term then 0 else FirstTerm(s[1..], term) + 1
  }

  /** No terminator among the first k bytes. */
  predicate FreeTo(s: string, term: char, k: nat)
    requires k <= |s|
  {
    forall i | 0 <= i < k :: s[i] != term
  }

  lemma FirstTermAt(s: string, term: char, k: nat)
    requires k <= |s| && FreeTo(s, term, k) && (k < |s| ==> s[k] == term)
    ensures FirstTerm(s, term) == k
  {
  }

  /** What one call makes of the bytes still to come. */
  datatype Next =
    | Line(text: string, rest: string)
    | TooLong(rest: string)
    | Eof

  /** "Split at the first terminator", with at most maxlen bytes a line, terminator included. */
  function NextLine(stream: string, term: char, maxlen: nat): Next {
    var k := FirstTerm(stream, term);
    if k >= maxlen then TooLong(stream[maxlen..])
    else if k == |stream| then Eof
    else Line(stream[..k], stream[k + 1..])
  }

  /** The control connection: rest is what has not been consumed; failed remembers an error or a short read. */
  class Connection {
    var rest: string
    var failed: bool

    /** recv(MSG_PEEK): an error, end of file, or any non-empty front of at most n bytes, left in place. */
    method Peek(buf: array<char>, at: nat, n: nat) returns (ret: int)
      requires at + n <= buf.Length && n > 0
      modifies buf, `failed
      ensures -1 <= ret <= n
      ensures failed == (old(failed) || ret < 0)
      ensures ret == 0 ==> rest == ""
      ensures ret > 0 ==> ret <= |rest| && buf[at..at + ret] == rest[..ret]
      ensures forall i | 0 <= i < at :: buf[i] == old(buf[i])
    {
      var fails: bool := *;
      if fails {
        failed := true;
        return -1;
      }
      if rest == "" {
        return 0;
      }
      var k: nat :| 0 < k <= n && k <= |rest|;
      forall i | 0 <= i < k { buf[at + i] := rest[i]; }
      ret := k;
    }

    /** vsf_sysutil_read_loop of bytes just peeked at. */
    method Read(buf: array<char>, at: nat, n: nat) returns (ret: int)
      requires at + n <= buf.Length && n <= |rest|
      modifies buf, `failed, `rest
      ensures failed == (old(failed) || ret != n)
      ensures ret == n ==> buf[at..at + n] == old(rest)[..n] && rest == old(rest)[n..]
      ensures forall i | 0 <= i < at :: buf[i] == old(buf[i])
    {
      var fails: bool := *;
      if fails {
        failed := true;
        return -1;
      }
      forall i | 0 <= i < n { buf[at + i] := rest[i]; }
      rest := rest[n..];
      ret := n;
    }
  }

  datatype Outcome = Returned(retval: int) | Died | Bug

  /** The result and the bytes left over are those of the call's meaning. */
  predicate Delivers(next: Next, str: string, retval: int, left: string) {
    match next
    case Line(text, rest) => 1 <= retval <= |text| + 1 && str == text && left == rest
    case TooLong(rest) => retval == -1 && str == "" && left == rest
    case Eof => retval == 0 && str == "" && left == ""
  }

  /** str_alloc_alt_term: the text in front of the first terminator in the buffer. */
  method AllocAltTerm(buf: array<char>, term: char, ghost bound: nat) returns (str: string)
    requires bound < buf.Length && buf[bound] == term
    ensures FirstTerm(buf[..bound + 1], term) == |str| <= bound && str == buf[..|str|]
  {
    var len := 0;
    while buf[len] != term
      invariant len <= bound && FreeTo(buf[..bound + 1], term, len)
      decreases bound - len
    {
      len := len + 1;
    }
    str := buf[..len];
    FirstTermAt(buf[..bound + 1], term, len);
  }

  /**
   * str_netfd_alloc. Whatever the sizes of the peeks, the line and what is consumed are those of NextLine; the
   * count returned covers the last chunk only. The buffer accounting check cannot fail.
   */
  method StrNetfdAlloc(conn: Connection, term: char, readBuf: array<char>, maxlen: nat)
    returns (str: string, out: Outcome)
    requires maxlen <= readBuf.Length && !conn.failed
    modifies conn, readBuf
    ensures out != Bug
    ensures out == Died <==> conn.failed
    ensures out.Returned? ==>
      Delivers(NextLine(old(conn.rest), term, maxlen), str, out.retval, conn.rest)
  {
    ghost var stream := conn.rest;
    var readPos, left := 0, maxlen;
    str := "";
    while true
      invariant readPos + left == maxlen && 0 <= readPos <= |stream| && left >= 0
      invariant conn.rest == stream[readPos..] && !conn.failed
      invariant forall j | 0 <= j < readPos :: readBuf[j] == stream[j]
      invariant FreeTo(stream, term, readPos)
      decreases left
    {
      if readPos + left != maxlen {
        return "", Bug;
      }
      if left == 0 {
        assert FirstTerm(stream, term) >= maxlen;
        return "", Returned(-1);
      }
      var retval := conn.Peek(readBuf, readPos, left);
      if retval < 0 {
        return "", Died;
      } else if retval == 0 {
        FirstTermAt(stream, term, readPos);
        return "", Returned(0);
      }
      var bytesRead := retval;
      SameChunk(readBuf, stream, readPos, bytesRead);
      var i := 0;
      while i < bytesRead
        invariant i <= bytesRead && FreeTo(stream, term, readPos + i)
      {
        if readBuf[readPos + i] == term {
          str, out := TakeLine(conn, term, readBuf, readPos, i + 1, maxlen, stream);
          return;
        }
        i := i + 1;
      }
      if bytesRead > left {
        return "", Bug;
      }
      left := left - bytesRead;
      retval := conn.Read(readBuf, readPos, bytesRead);
      if retval < 0 || retval != bytesRead {
        return "", Died;
      }
      SameChunk(readBuf, stream, readPos, bytesRead);
      readPos := readPos + bytesRead;
    }
  }

  /** The terminator is the i-th byte of the chunk: consume through it. */
  method TakeLine(conn: Connection, term: char, readBuf: array<char>, readPos: nat, i: nat, ghost maxlen: nat,
                  ghost stream: string)
    returns (str: string, out: Outcome)
    requires 0 < i && readPos + i <= maxlen <= readBuf.Length && readPos + i <= |stream| && !conn.failed
    requires conn.rest == stream[readPos..] && forall j | 0 <= j < readPos :: readBuf[j] == stream[j]
    requires FreeTo(stream, term, readPos + i - 1) && stream[readPos + i - 1] == term
    modifies conn, readBuf
    ensures out != Bug
    ensures out == Died <==> conn.failed
    ensures out.Returned? ==> Delivers(NextLine(stream, term, maxlen), str, out.retval, conn.rest)
  {
    FirstTermAt(stream, term, readPos + i - 1);
    var retval := conn.Read(readBuf, readPos, i);
    if retval < 0 || retval != i {
      return "", Died;
    }
    SameChunk(readBuf, stream, readPos, i);
    if readBuf[readPos + i - 1] != term {
      return "", Bug;
    }
    str := AllocAltTerm(readBuf, term, readPos + i - 1);
    assert readBuf[..readPos + i] == stream[..readPos + i];
    FirstTermAt(stream[..readPos + i], term, readPos + i - 1);
    return str, Returned(i);
  }

  /** A chunk taken from the stream at the read position agrees with it byte for byte. */
  lemma SameChunk(buf: array<char>, stream: string, at: nat, n: nat)
    requires at + n <= buf.Length && at + n <= |stream|
    requires buf[at..at + n] == stream[at..][..n]
    ensures forall j | at <= j < at + n :: buf[j] == stream[j]
  {
    forall j | at <= j < at + n
      ensures buf[j] == stream[j]
    {
      assert buf[at..at + n][j - at] == buf[j];
    }
  }

  // ---------------------------------------------------------------- repeated calls

  /** The lines a session gets before something other than a line ends it. */
  function Lines(stream: string, term: char, maxlen: nat): seq<string>
    decreases |stream|
  {
    match NextLine(stream, term, maxlen)
    case Line(text, rest) => [text] + Lines(rest, term, maxlen)
    case _ => []
  }

  /** What is left of the stream when the lines have been read. */
  function Remainder(stream: string, term: char, maxlen: nat): string
    decreases |stream|
  {
    match NextLine(stream, term, maxlen)
    case Line(text, rest) => Remainder(rest, term, maxlen)
    case _ => stream
  }

  function Join(lines: seq<string>, term: char): string {
    if lines == [] then "" else lines[0] + [term] + Join(lines[1..], term)
  }

  predicate IsLine(line: string, term: char, maxlen: nat) { FreeTo(line, term, |line|) && |line| < maxlen }

  lemma NextLineFacts(stream: string, term: char, maxlen: nat)
    requires NextLine(stream, term, maxlen).Line?
    ensures var n := NextLine(stream, term, maxlen);
      stream == n.text + [term] + n.rest && IsLine(n.text, term, maxlen)
  {
  }

  lemma NextLineOf(line: string, rest: string, term: char, maxlen: nat)
    requires IsLine(line, term, maxlen)
    ensures NextLine(line + [term] + rest, term, maxlen) == Line(line, rest)
  {
    var stream := line + [term] + rest;
    FirstTermAt(stream, term, |line|);
    assert stream[..|line|] == line && stream[|line| + 1..] == rest;
  }

  lemma JoinFirst(line: string, more: seq<string>, term: char, tail: string)
    ensures Join([line] + more, term) + tail == line + [term] + (Join(more, term) + tail)
  {
    assert ([line] + more)[1..] == more;
    var j := Join(more, term);
    assert Join([line] + more, term) == line + [term] + j;
    hide Join;
    assert (line + [term] + j) + tail == line + [term] + (j + tail);
  }

  /** Reading loses and invents nothing: the lines with their terminators and the remainder are the stream. */
  lemma {:induction false} LinesRejoin(stream: string, term: char, maxlen: nat)
    ensures Join(Lines(stream, term, maxlen), term) + Remainder(stream, term, maxlen) == stream
    ensures forall line | line in Lines(stream, term, maxlen) :: IsLine(line, term, maxlen)
    decreases |stream|
  {
    hide NextLine, Join, IsLine;
    var n := NextLine(stream, term, maxlen);
    if n.Line? {
      NextLineFacts(stream, term, maxlen);
      LinesRejoin(n.rest, term, maxlen);
      JoinFirst(n.text, Lines(n.rest, term, maxlen), term, Remainder(n.rest, term, maxlen));
    } else {
      assert Join([], term) + stream == stream by { JoinNothing(term, stream); }
    }
  }

  lemma JoinNothing(term: char, tail: string)
    ensures Join([], term) + tail == tail
  {
  }

  /** And conversely: whatever lines a client sends are the lines the session gets. */
  lemma {:induction false} LinesOfJoin(lines: seq<string>, tail: string, term: char, maxlen: nat)
    requires forall line | line in lines :: IsLine(line, term, maxlen)
    requires IsLine(tail, term, maxlen)
    ensures Lines(Join(lines, term) + tail, term, maxlen) == lines
    ensures Remainder(Join(lines, term) + tail, term, maxlen) == tail
    decreases |lines|
  {
    if lines == [] {
      JoinNothing(term, tail);
      FirstTermAt(tail, term, |tail|);
    } else {
      hide NextLine, Join;
      var line, more := lines[0], lines[1..];
      assert lines == [line] + more;
      LinesOfJoin(more, tail, term, maxlen);
      JoinFirst(line, more, term, tail);
      NextLineOf(line, Join(more, term) + tail, term, maxlen);
    }
  }
}
