/** The agent's side of the relay upgrade: it strips an HTTP response head from a byte stream through
    a buffered reader, then reads payload through `bufferedConn`. A byte is the char of its code. */
module Upgrade {
  import opened Wrappers

  type Bytes = seq<char>

  /** The buffer size of `bufio.NewReader`. */
  const BUFFER_SIZE: nat := 4096

  /** A non-empty run of bytes whose only newline is its last byte. */
  predicate IsLine(s: Bytes) {
    s != [] && s[|s| - 1] == '\n' && '\n' !in s[..|s| - 1]
  }

  /** The bytes up to and including the first newline, and the rest. */
  function NextLine(s: Bytes): (r: Option<(Bytes, Bytes)>)
    ensures r.Some? ==> IsLine(r.value.0) && s == r.value.0 + r.value.1
    ensures r.None? <==> '\n' !in s
  {
    if s == [] then None
    else if s[0] == '\n' then Some((s[..1], s[1..]))
    else
      var rest := NextLine(s[1..]);
      if rest.None? then None else Some(([s[0]] + rest.value.0, rest.value.1))
  }

  /** `strings.Contains(line, "101")`. */
  predicate Mentions101(line: Bytes) {
    exists i :: 0 <= i < |line| && Has101At(line, i)
  }

  predicate Has101At(line: Bytes, i: nat) {
    i + 2 < |line| && line[i] == '1' && line[i + 1] == '0' && line[i + 2] == '1'
  }

  datatype Outcome = Upgraded(payload: Bytes) | Refused(status: Bytes) | Truncated

  function SkipHeaders(s: Bytes): Outcome
    decreases |s|
  {
    match NextLine(s)
    case None => Truncated
    case Some((line, rest)) => if line == CRLF then Upgraded(rest) else SkipHeaders(rest)
  }

  /** What `dialRelayUpgrade` makes of everything the server will ever send on the connection. */
  function Dial(s: Bytes): Outcome {
    match NextLine(s)
    case None => Truncated
    case Some((status, rest)) => if !Mentions101(status) then Refused(status) else SkipHeaders(rest)
  }

  // ---------------------------------------------------------------- the head, declaratively

  /** The digits occur somewhere in the line. */
  ghost predicate Says101(line: Bytes) {
    exists a: Bytes, b: Bytes :: line == a + "101" + b
  }

  /** The scan finds the digits exactly where they occur. */
  lemma MentionsExactly(line: Bytes)
    ensures Mentions101(line) <==> Says101(line)
  {
    if Mentions101(line) {
      var i :| 0 <= i < |line| && Has101At(line, i);
      assert line == line[..i] + "101" + line[i + 3..];
    }
    forall a: Bytes, b: Bytes | line == a + "101" + b ensures Mentions101(line) {
      assert Has101At(line, |a|);
    }
  }

  /** Header lines: anything but the empty line. */
  predicate IsHeader(line: Bytes) {
    IsLine(line) && line != ['\r', '\n']
  }

  predicate AllHeaders(lines: seq<Bytes>) {
    forall i :: 0 <= i < |lines| ==> IsHeader(lines[i])
  }

  /** A response head the agent accepts. */
  ghost predicate IsHead(status: Bytes, headers: seq<Bytes>) {
    IsLine(status) && Says101(status) && AllHeaders(headers)
  }

  /** The lines one after another, and then the tail. */
  function Lines(lines: seq<Bytes>, tail: Bytes): Bytes {
    if lines == [] then tail else lines[0] + Lines(lines[1..], tail)
  }

  /** The empty line that ends a head. */
  const CRLF: Bytes := "\r\n"

  /** A server stream: status line, header lines, empty line (section 2.1 of RFC 9112), payload. */
  function Response(status: Bytes, headers: seq<Bytes>, payload: Bytes): Bytes {
    status + Lines(headers, CRLF + payload)
  }

  lemma NewlineEndsLine(line: Bytes)
    requires IsLine(line) && line[0] == '\n'
    ensures line == ['\n']
  {
  }

  lemma {:induction false} NextLineOf(line: Bytes, rest: Bytes)
    requires IsLine(line)
    ensures NextLine(line + rest) == Some((line, rest))
  {
    var s := line + rest;
    if line[0] == '\n' {
      NewlineEndsLine(line);
      assert s[..1] == line && s[1..] == rest;
    } else {
      var more := line[1..];
      assert more[..|more| - 1] == line[..|line| - 1][1..];
      NextLineOf(more, rest);
      assert s[1..] == more + rest && [s[0]] + more == line;
    }
  }

  lemma {:induction false} SkipHeadersOf(headers: seq<Bytes>, payload: Bytes)
    requires AllHeaders(headers)
    ensures SkipHeaders(Lines(headers, CRLF + payload)) == Upgraded(payload)
  {
    if headers == [] {
      NextLineOf(CRLF, payload);
    } else {
      SkipHeadersOf(headers[1..], payload);
      NextLineOf(headers[0], Lines(headers[1..], CRLF + payload));
    }
  }

  lemma {:induction false} SkippedHeaders(s: Bytes) returns (headers: seq<Bytes>)
    requires SkipHeaders(s).Upgraded?
    ensures AllHeaders(headers) && s == Lines(headers, CRLF + SkipHeaders(s).payload)
    decreases |s|
  {
    var (line, rest) := NextLine(s).value;
    if line == CRLF {
      headers := [];
    } else {
      var more := SkippedHeaders(rest);
      headers := [line] + more;
      assert headers[1..] == more;
    }
  }

  /** Exactly which server streams upgrade, and to which payload: those with an acceptable head, and the
      payload is all that follows it, whatever bytes it has. */
  lemma UpgradesExactly(s: Bytes, payload: Bytes)
    ensures Dial(s) == Upgraded(payload) <==>
            exists status, headers :: IsHead(status, headers) && s == Response(status, headers, payload)
  {
    if Dial(s) == Upgraded(payload) {
      var (status, rest) := NextLine(s).value;
      var headers := SkippedHeaders(rest);
      MentionsExactly(status);
      assert IsHead(status, headers) && s == Response(status, headers, payload);
    }
    forall status, headers | IsHead(status, headers) && s == Response(status, headers, payload)
      ensures Dial(s) == Upgraded(payload)
    {
      SkipHeadersOf(headers, payload);
      NextLineOf(status, Lines(headers, CRLF + payload));
      MentionsExactly(status);
    }
  }

  // ---------------------------------------------------------------- which streams do not upgrade

  /** The stream begins with this line. */
  ghost predicate BeginsWith(s: Bytes, line: Bytes) {
    IsLine(line) && exists rest: Bytes :: s == line + rest
  }

  /** Exactly which streams are refused: those whose first line does not hold the three digits. */
  lemma RefusesExactly(s: Bytes, status: Bytes)
    ensures Dial(s) == Refused(status) <==> BeginsWith(s, status) && !Says101(status)
  {
    MentionsExactly(status);
    forall rest: Bytes | IsLine(status) && s == status + rest ensures NextLine(s) == Some((status, rest)) {
      NextLineOf(status, rest);
    }
    if NextLine(s).Some? {
      SkipNeverRefuses(NextLine(s).value.1);
    }
    if Dial(s) == Refused(status) {
      assert s == status + NextLine(s).value.1;
    }
  }

  lemma {:induction false} SkipNeverRefuses(s: Bytes)
    ensures !SkipHeaders(s).Refused?
    decreases |s|
  {
    var next := NextLine(s);
    if next.Some? && next.value.0 != CRLF {
      SkipNeverRefuses(next.value.1);
    }
  }

  /** The stream ends inside a head: in its first line, or after a status line with the digits and some header
      lines, in the middle of a line. */
  ghost predicate EndsInHead(s: Bytes) {
    '\n' !in s || exists status, headers, tail :: CutHead(s, status, headers, tail)
  }

  ghost predicate CutHead(s: Bytes, status: Bytes, headers: seq<Bytes>, tail: Bytes) {
    IsHead(status, headers) && '\n' !in tail && s == status + Lines(headers, tail)
  }

  lemma {:induction false} CutHeaders(s: Bytes) returns (headers: seq<Bytes>, tail: Bytes)
    requires SkipHeaders(s).Truncated?
    ensures AllHeaders(headers) && '\n' !in tail && s == Lines(headers, tail)
    decreases |s|
  {
    if NextLine(s).None? {
      headers, tail := [], s;
    } else {
      var (line, rest) := NextLine(s).value;
      var more;
      more, tail := CutHeaders(rest);
      headers := [line] + more;
      assert headers[1..] == more;
    }
  }

  lemma {:induction false} CutHeadersOf(headers: seq<Bytes>, tail: Bytes)
    requires AllHeaders(headers) && '\n' !in tail
    ensures SkipHeaders(Lines(headers, tail)).Truncated?
  {
    if headers != [] {
      CutHeadersOf(headers[1..], tail);
      NextLineOf(headers[0], Lines(headers[1..], tail));
    }
  }

  lemma TruncatesExactly(s: Bytes)
    ensures Dial(s).Truncated? <==> EndsInHead(s)
  {
    if Dial(s).Truncated? && '\n' in s {
      var (status, rest) := NextLine(s).value;
      var headers, tail := CutHeaders(rest);
      MentionsExactly(status);
      assert CutHead(s, status, headers, tail);
    }
    forall status, headers, tail | CutHead(s, status, headers, tail) ensures Dial(s).Truncated? {
      CutHeadersOf(headers, tail);
      NextLineOf(status, Lines(headers, tail));
      MentionsExactly(status);
    }
  }

  /** What a refused validation answers. */
  const NOT_FOUND: Bytes := "HTTP/1.1 404 Not Found\r\n"

  /** The agent does not take it for an upgrade, whatever follows. */
  lemma NotFoundIsRefused(rest: Bytes)
    ensures Dial(NOT_FOUND + (CRLF + rest)) == Refused(NOT_FOUND)
  {
    forall i | 0 <= i < |NOT_FOUND| ensures !Has101At(NOT_FOUND, i) {}
    NextLineOf(NOT_FOUND, CRLF + rest);
  }

  /** A refusal whose reason phrase holds the three digits. */
  const REFUSAL: Bytes := "HTTP/1.1 403 rule 101\r\n"

  /** The agent takes it for an upgrade, and whatever follows it for payload. */
  lemma RefusalTakenForUpgrade(rest: Bytes)
    ensures Dial(REFUSAL + (CRLF + rest)) == Upgraded(rest)
  {
    assert Has101At(REFUSAL, 18);
    MentionsExactly(REFUSAL);
    assert IsHead(REFUSAL, []);
    assert Response(REFUSAL, [], rest) == REFUSAL + (CRLF + rest);
    UpgradesExactly(REFUSAL + (CRLF + rest), rest);
  }

  lemma {:induction false} LinesThenMore(lines: seq<Bytes>, tail: Bytes, more: Bytes)
    ensures Lines(lines, tail + more) == Lines(lines, tail) + more
  {
    if lines != [] {
      LinesThenMore(lines[1..], tail, more);
      assert lines[0] + (Lines(lines[1..], tail) + more) == (lines[0] + Lines(lines[1..], tail)) + more;
    }
  }

  /** Bytes that arrive after the head has ended belong to the payload. */
  lemma MoreBytes(s: Bytes, more: Bytes)
    requires Dial(s).Upgraded?
    ensures Dial(s + more) == Upgraded(Dial(s).payload + more)
  {
    var payload := Dial(s).payload;
    UpgradesExactly(s, payload);
    var status, headers :| IsHead(status, headers) && s == Response(status, headers, payload);
    ResponseThenMore(status, headers, payload, more);
    UpgradesExactly(s + more, payload + more);
  }

  lemma ResponseThenMore(status: Bytes, headers: seq<Bytes>, payload: Bytes, more: Bytes)
    ensures Response(status, headers, payload + more) == Response(status, headers, payload) + more
  {
    LinesThenMore(headers, CRLF + payload, more);
    assert CRLF + (payload + more) == CRLF + payload + more;
    var lines := Lines(headers, CRLF + payload);
    assert status + (lines + more) == (status + lines) + more;
  }

  lemma Regroup(a: Bytes, b: Bytes, c: Bytes)
    ensures (a + b) + c == a + (b + c)
  {
  }

  /** A line found after skipping newline-free bytes. */
  lemma LineAcross(skipped: Bytes, head: Bytes, rest: Bytes)
    requires '\n' !in skipped && IsLine(head)
    ensures NextLine(skipped + (head + rest)) == Some((skipped + head, rest))
  {
    var line := skipped + head;
    assert line[..|line| - 1] == skipped + head[..|head| - 1];
    assert skipped + (head + rest) == line + rest;
    NextLineOf(line, rest);
  }

  // ---------------------------------------------------------------- sockets and readers

  /** One end of a TCP connection: `incoming` is what the peer has still to deliver, `closed` whether
      this end was closed. The network chooses how many bytes each read yields. */
  class Conn {
    var incoming: Bytes
    var closed: bool

    constructor (incoming: Bytes)
      ensures this.incoming == incoming && !closed
    {
      this.incoming, closed := incoming, false;
    }

    method Close()
      modifies this
      ensures closed && incoming == old(incoming)
    {
      closed := true;
    }

    /** At least one byte unless the stream has ended or none was asked for. */
    method Read(max: nat) returns (data: Bytes, eof: bool)
      modifies `incoming
      ensures data + incoming == old(incoming) && |data| <= max
      ensures eof <==> max > 0 && old(incoming) == []
      ensures max > 0 && !eof ==> data != []
    {
      if max == 0 || incoming == [] {
        return [], max > 0;
      }
      var n: nat :| 0 < n <= max && n <= |incoming|;
      data, eof, incoming := incoming[..n], false, incoming[n..];
    }
  }

  /** `bufio.Reader` over a connection. */
  class BufReader {
    const conn: Conn
    var buffer: Bytes

    constructor (conn: Conn)
      ensures this.conn == conn && buffer == []
    {
      this.conn := conn;
      buffer := [];
    }

    /** Every byte still to come out of this reader. */
    ghost function Remaining(): Bytes
      reads this, conn
    {
      buffer + conn.incoming
    }

    /** `ReadString('\n')`: refills the buffer as often as it takes. */
    method ReadLine() returns (line: Bytes, err: bool)
      modifies this, conn`incoming
      ensures err <==> NextLine(old(Remaining())).None?
      ensures !err ==> NextLine(old(Remaining())) == Some((line, Remaining()))
    {
      line, err := [], false;
      ghost var stream := Remaining();
      while true
        invariant line + Remaining() == stream
        invariant '\n' !in line
        decreases |conn.incoming|
      {
        var found := NextLine(buffer);
        if found.Some? {
          var (head, rest) := found.value;
          Regroup(head, rest, conn.incoming);
          LineAcross(line, head, rest + conn.incoming);
          line, buffer := line + head, rest;
          return;
        }
        Regroup(line, buffer, conn.incoming);
        line, buffer := line + buffer, [];
        var data, eof := conn.Read(BUFFER_SIZE);
        if eof {
          assert line == stream;
          return line, true;
        }
        buffer := data;
      }
    }
  }

  /** `bufferedConn`: the buffer first, then the raw connection. */
  class BufferedConn {
    const conn: Conn
    const reader: BufReader

    ghost predicate Valid() {
      reader.conn == conn
    }

    ghost function Remaining(): Bytes
      reads reader, reader.conn
    {
      reader.Remaining()
    }

    constructor (conn: Conn, reader: BufReader)
      requires reader.conn == conn
      ensures Valid() && this.conn == conn && this.reader == reader
    {
      this.conn, this.reader := conn, reader;
    }

    method Read(max: nat) returns (data: Bytes, eof: bool)
      requires Valid()
      modifies reader, conn`incoming
      ensures data + Remaining() == old(Remaining()) && |data| <= max
      ensures max > 0 ==> (eof <==> old(Remaining()) == []) && (!eof ==> data != [])
    {
      if |reader.buffer| > 0 {
        var n := if max < |reader.buffer| then max else |reader.buffer|;
        data, eof := reader.buffer[..n], false;
        reader.buffer := reader.buffer[n..];
      } else {
        data, eof := conn.Read(max);
      }
    }

    /** Any sequence of reads, of any sizes, under any chunking. */
    method ReadAll(sizes: seq<nat>) returns (out: Bytes)
      requires Valid()
      modifies reader, conn`incoming
      ensures out + Remaining() == old(Remaining())
    {
      out := [];
      for i := 0 to |sizes|
        invariant out + Remaining() == old(Remaining())
      {
        var data, _ := Read(sizes[i]);
        out := out + data;
      }
    }
  }

  /** `dialRelayUpgrade` after the request has been written. */
  method DialRelayUpgrade(conn: Conn) returns (result: Result<BufferedConn, Outcome>)
    modifies conn
    ensures result.Success? <==> Dial(old(conn.incoming)).Upgraded?
    ensures result.Success? ==> fresh(result.value) && fresh(result.value.reader)
    ensures result.Success? ==> result.value.conn == conn && result.value.Valid() && conn.closed == old(conn.closed)
    ensures result.Success? ==> result.value.Remaining() == Dial(old(conn.incoming)).payload
    ensures result.Failure? ==> conn.closed && result.error == Dial(old(conn.incoming))
  {
    ghost var stream := conn.incoming;
    var reader := new BufReader(conn);
    assert reader.Remaining() == stream;
    var statusLine, err := reader.ReadLine();
    if err {
      conn.Close();
      return Failure(Truncated);
    }
    if !Mentions101(statusLine) {
      conn.Close();
      return Failure(Refused(statusLine));
    }
    while true
      invariant SkipHeaders(reader.Remaining()) == Dial(old(conn.incoming))
      invariant conn.closed == old(conn.closed) && fresh(reader)
      decreases |reader.Remaining()|
    {
      var line;
      line, err := reader.ReadLine();
      if err {
        conn.Close();
        return Failure(Truncated);
      }
      if line == CRLF {
        break;
      }
    }
    var upgraded := new BufferedConn(conn, reader);
    return Success(upgraded);
  }

  /** Exact head stripping, end to end: whatever head the server sent and however the network cut it,
      what the caller reads is a prefix of the payload and the rest is still to be read. */
  method ReadThroughUpgrade(status: Bytes, headers: seq<Bytes>, payload: Bytes, sizes: seq<nat>)
    returns (out: Bytes, relay: BufferedConn)
    requires IsHead(status, headers)
    ensures out + relay.Remaining() == payload
  {
    var conn := new Conn(Response(status, headers, payload));
    UpgradesExactly(Response(status, headers, payload), payload);
    var result := DialRelayUpgrade(conn);
    relay := result.value;
    out := relay.ReadAll(sizes);
  }
}
