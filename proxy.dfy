/**
 `doit` (proxy.c:66-144): one client connection. The request line is read and
 split, the target parsed, the method checked, the cache probed; on a miss the
 origin is contacted, the request and headers forwarded, the response headers
 and body relayed to the client, and the body cached when it is small enough.

 Sockets and the cache are not modelled: what `doit` does to them is a trace
 of events. The client's header lines, the origin's reply and whether the
 origin can be reached are inputs, and so is the set of paths `find_cache`
 currently finds.
 */
module Proxy {
  import opened CString
  import opened Uri
  import opened Headers
  import opened ErrorPage

  /** The descriptors `doit` writes to: the client, the origin, and the
      negative value `Open_clientfd` returned when the origin could not be
      reached. */
  datatype Fd = ClientFd | ServerFd | FailedFd

  datatype Event =
    | Write(fd: Fd, data: string)            // Rio_writen
    | Connect(hostname: string, port: string) // Open_clientfd
    | CacheSend(path: string)                 // send_cache of the object found
    | CacheTouch(path: string)                // read_cache: marked most recently used
    | CacheWrite(path: string, body: string)  // write_cache of a new object
    | FreeBody                                // free of the uncached body
    | CloseServer                             // Close(serverfd)

  const NotImplementedMsg: string := "Tiny does not implement this method"
  /** The 502 long message; its first four characters are the UTF-8 bytes of
      the pin emoji that begins it in the source. */
  const BadGatewayMsg: string :=
    "\U{F0}\U{9F}\U{93}\U{8D} Failed to establish connection with the end server"

  /** `is_local_test` (proxy.c:13): connect to the host named in the request
      rather than to "localhost". */
  const IsLocalTest: bool := true

  /** The host `Open_clientfd` is called with. */
  function OriginHost(hostname: string): string {
    if IsLocalTest then hostname else "localhost"
  }

  /** The request line sent to the origin; the origin's `%s %s` reads the
      method and the path back from it. */
  function RequestLine(verb: string, path: string): (line: string)
    ensures verb != [] && NoSpace(verb) && path != [] && NoSpace(path) ==>
      ScanTwo(line) == Some((verb, path))
  {
    var line := verb + " " + path + " HTTP/1.0\r\n";
    if verb != [] && NoSpace(verb) && path != [] && NoSpace(path) then
      ScanTwoOf(verb, path, " HTTP/1.0\r\n");
      line
    else
      line
  }

  /** The method gate: `strcasecmp` against "GET" and "HEAD". */
  predicate IsGetOrHead(verb: string) {
    EqualsIgnoreCase(verb, "GET") || EqualsIgnoreCase(verb, "HEAD")
  }

  /** The gate lets a method through exactly when, in lower case, it is `get`
      or `head`: `GET`, `get` and `Head` pass, `POST` does not. */
  lemma MethodGateIgnoresCase(verb: string)
    ensures IsGetOrHead(verb) <==> Lower(verb) == "get" || Lower(verb) == "head"
  {
    EqualsIgnoreCaseLower(verb, "GET");
    EqualsIgnoreCaseLower(verb, "HEAD");
    assert Lower("GET") == "get";
    assert Lower("HEAD") == "head";
  }

  function WritesTo(fd: Fd, data: seq<string>): (t: seq<Event>)
    ensures |t| == |data|
    ensures forall i :: 0 <= i < |data| ==> t[i] == Write(fd, data[i])
  {
    seq(|data|, i requires 0 <= i < |data| => Write(fd, data[i]))
  }

  /** A request line `doit` can handle: `%s %s` fills both words, and the
      target has a `/` after its host. The target is parsed with the
      corrected `parse_uri`, which agrees with the code as written wherever
      that is defined (`PartsOfAsWritten`). */
  predicate RequestWellFormed(requestLine: string) {
    ScanTwo(requestLine).Some? && ParseUriFixed(ScanTwo(requestLine).value.1).Some?
  }

  function MethodOf(requestLine: string): string
    requires RequestWellFormed(requestLine)
  {
    ScanTwo(requestLine).value.0
  }

  function PartsOf(requestLine: string): UriParts
    requires RequestWellFormed(requestLine)
  {
    ParseUriFixed(ScanTwo(requestLine).value.1).value
  }

  /** Where `parse_uri` as written is defined, `doit` parses the target as it
      does. */
  lemma PartsOfAsWritten(requestLine: string)
    requires RequestWellFormed(requestLine) && UriWellFormed(ScanTwo(requestLine).value.1)
    ensures PartsOf(requestLine) == ParseUri(ScanTwo(requestLine).value.1)
  {
    ParseUriFixedAgrees(ScanTwo(requestLine).value.1);
  }

  /** The request goes past the gate and the cache probe and the origin answers. */
  predicate ReachesRelay(requestLine: string, cached: set<string>, connected: bool) {
    RequestWellFormed(requestLine) && IsGetOrHead(MethodOf(requestLine)) &&
    PartsOf(requestLine).path !in cached && connected
  }

  const ContentLengthName: string := "Content-length"

  /** The header lines `strchr(.., ':')` is applied to hold a `:`. */
  predicate LengthLinesHaveColon(lines: seq<string>) {
    forall i :: 0 <= i < |lines| && Contains(lines[i], ContentLengthName) ==> ':' in lines[i]
  }

  /** The position of the last line naming `pat`. */
  function LastWith(lines: seq<string>, pat: string): (r: Option<nat>)
    ensures r.Some? ==> r.value < |lines| && Contains(lines[r.value], pat)
    ensures r.Some? ==> forall j :: r.value < j < |lines| ==> !Contains(lines[j], pat)
    ensures r.None? ==> forall j :: 0 <= j < |lines| ==> !Contains(lines[j], pat)
  {
    if lines == [] then None
    else if Contains(lines[|lines| - 1], pat) then Some(|lines| - 1)
    else
      var r := LastWith(lines[..|lines| - 1], pat);
      assert forall j :: 0 <= j < |lines| - 1 ==> lines[..|lines| - 1][j] == lines[j];
      r
  }

  /** `content_length` after the header loop: the number after the `:` of the
      last line naming "Content-length" (case-sensitive), or 0 when there is
      none (the source leaves the variable unset then). */
  function ContentLength(lines: seq<string>): int
    requires LengthLinesHaveColon(lines)
  {
    match LastWith(lines, ContentLengthName)
    case Some(k) => ValueAfterColon(lines[k])
    case None => 0
  }

  /** The response header lines the loop reads: up to and including the
      first blank one, or all of them when the origin closes without one. */
  function ReplyHead(reply: seq<string>): seq<string> {
    if HasBlank(reply) then reply[..FirstBlank(reply) + 1] else reply
  }

  /** A reply `doit` can relay: every "Content-length" line holds a `:`, and
      the length announced is not negative. */
  predicate ReplyWellFormed(reply: seq<string>) {
    LengthLinesHaveColon(ReplyHead(reply)) && 0 <= ContentLength(ReplyHead(reply))
  }

  /** The body `Rio_readnb` reads when `n` bytes are announced: the first `n`
      bytes the origin sends, or all of them when it closes sooner, as it
      does after a HEAD request. */
  function Received(replyBody: string, n: nat): (b: string)
    ensures |b| <= n && b <= replyBody
    ensures |b| == n || b == replyBody
  {
    if n <= |replyBody| then replyBody[..n] else replyBody
  }

  /** proxy.c:127-138 as written: `Rio_writen` sends, and `write_cache` keeps,
      all `n` bytes of the `malloc` block, of which only those `Rio_readnb`
      read come from the origin; the rest are whatever the heap held, given
      here as `heap`. */
  function BodyAsWritten(replyBody: string, n: nat, heap: string): (b: string)
    requires |heap| == n
    ensures |b| == n && Received(replyBody, n) <= b
  {
    var got := Received(replyBody, n);
    got + heap[|got|..]
  }

  /** As written, the body sent and cached is the one read exactly when the
      origin sends all `n` bytes announced; when it sends fewer, the unread
      heap bytes follow them to the client and into the cache. */
  lemma ShortBodyLeaksHeap(replyBody: string, n: nat, heap: string)
    requires |heap| == n
    ensures BodyAsWritten(replyBody, n, heap) == Received(replyBody, n) <==> n <= |replyBody|
    ensures |replyBody| < n ==>
      BodyAsWritten(replyBody, n, heap) == replyBody + heap[|replyBody|..]
  {
    if n <= |replyBody| {
      assert heap[n..] == [];
    } else {
      assert |Received(replyBody, n)| < |BodyAsWritten(replyBody, n, heap)|;
    }
  }

  /** Everything `doit` does, in order, as a function of its inputs. */
  function Handle(requestLine: string, clientLines: seq<string>, cached: set<string>, connected: bool,
                  reply: seq<string>, replyBody: string, maxObjectSize: int): (t: seq<Event>)
    requires RequestWellFormed(requestLine)
    requires ReachesRelay(requestLine, cached, connected) ==> ReplyWellFormed(reply)
    ensures t != []
    ensures t[0].Connect? <==> IsGetOrHead(MethodOf(requestLine)) && PartsOf(requestLine).path !in cached
  {
    var verb := MethodOf(requestLine);
    var parts := PartsOf(requestLine);
    if !IsGetOrHead(verb) then
      WritesTo(ClientFd, ErrorResponse(verb, "501", "Not implemented", NotImplementedMsg))
    else if parts.path in cached then
      [CacheSend(parts.path), CacheTouch(parts.path)]
    else if !connected then
      [Connect(OriginHost(parts.hostname), parts.port)] +
      WritesTo(FailedFd, ErrorResponse(verb, "502", "Bad Gateway", BadGatewayMsg))
    else
      var n := ContentLength(ReplyHead(reply));
      Relay(verb, parts, Forwarded(clientLines, parts.hostname, parts.port),
            ReplyHead(reply), Received(replyBody, n), n <= maxObjectSize)
  }

  /** What `doit` does once the origin is reached: the request line and the
      rewritten headers go to the origin, the response header lines and the
      body to the client, and the body into the cache or back to the
      allocator. */
  function Relay(verb: string, parts: UriParts, forwarded: seq<string>,
                 head: seq<string>, body: string, cacheable: bool): seq<Event>
  {
    [Connect(OriginHost(parts.hostname), parts.port)] + [Write(ServerFd, RequestLine(verb, parts.path))] +
    WritesTo(ServerFd, forwarded) +
    WritesTo(ClientFd, head) +
    [Write(ClientFd, body)] +
    (if cacheable then [CacheWrite(parts.path, body)] else [FreeBody]) +
    [CloseServer]
  }

  /** `doit`. `response_buf` starts as an empty line and `content_length` as 0
      where the source leaves them unset. The body sent and cached is the one
      read (see `ShortBodyLeaksHeap` for the code as written). */
  method Doit(requestLine: string, clientLines: seq<string>, cached: set<string>, connected: bool,
              reply: seq<string>, replyBody: string, maxObjectSize: int)
    returns (trace: seq<Event>)
    requires RequestWellFormed(requestLine)
    requires ReachesRelay(requestLine, cached, connected) ==> ReplyWellFormed(reply)
    ensures trace == Handle(requestLine, clientLines, cached, connected, reply, replyBody, maxObjectSize)
  {
    var words := ScanTwo(requestLine).value;
    var verb, uri := words.0, words.1;
    var parts := ParseUriFixed(uri).value;
    var requestBuf := RequestLine(verb, parts.path);
    assert verb == MethodOf(requestLine) && parts == PartsOf(requestLine);

    if !IsGetOrHead(verb) {
      trace := WritesTo(ClientFd, ErrorResponse(verb, "501", "Not implemented", NotImplementedMsg));
      return;
    }

    if parts.path in cached {
      trace := [CacheSend(parts.path), CacheTouch(parts.path)];
      return;
    }

    trace := [Connect(OriginHost(parts.hostname), parts.port)];
    if !connected {
      trace := trace + WritesTo(FailedFd, ErrorResponse(verb, "502", "Bad Gateway", BadGatewayMsg));
      return;
    }
    assert ReachesRelay(requestLine, cached, connected);
    trace := trace + [Write(ServerFd, requestBuf)];

    var sent := RelayRequestHeaders(clientLines, parts.hostname, parts.port);
    trace := trace + WritesTo(ServerFd, sent);

    var relayed, contentLength := RelayResponseHeaders(reply);
    trace := trace + relayed;

    var body := Received(replyBody, contentLength);
    trace := trace + [Write(ClientFd, body)];
    if contentLength <= maxObjectSize {
      trace := trace + [CacheWrite(parts.path, body)];
    } else {
      trace := trace + [FreeBody];
    }
    trace := trace + [CloseServer];
  }

  /** The response loop of `doit`, leaving the loop at end of stream as well
      as after the blank line (see `ResponseLoopNeverEnds` for the loop as
      written): each line read from the origin is written to the client, and
      `content_length` takes the value of each "Content-length" line in turn.
      `response_buf` starts as an empty line and `content_length` as 0 where
      the source leaves them unset. */
  method RelayResponseHeaders(reply: seq<string>) returns (written: seq<Event>, contentLength: int)
    requires LengthLinesHaveColon(ReplyHead(reply))
    ensures written == WritesTo(ClientFd, ReplyHead(reply))
    ensures contentLength == ContentLength(ReplyHead(reply))
  {
    written := [];
    var responseBuf := "";
    contentLength := 0;
    var i := 0;
    while responseBuf != Blank && i < |reply|
      invariant i <= |ReplyHead(reply)|
      invariant i == 0 ==> responseBuf == ""
      invariant 0 < i ==> responseBuf == reply[i - 1]
      invariant LengthLinesHaveColon(reply[..i])
      invariant contentLength == ContentLength(reply[..i])
      invariant written == WritesTo(ClientFd, reply[..i])
      decreases |reply| - i
    {
      StillInHead(reply, i, responseBuf);
      responseBuf := reply[i];
      ReadOneMore(reply, i);
      if Contains(responseBuf, ContentLengthName) {
        contentLength := ValueAfterColon(responseBuf);
      }
      written := written + [Write(ClientFd, responseBuf)];
      i := i + 1;
    }
    HeadReadWhole(reply, i, responseBuf);
  }

  /** While the buffer is not blank and the stream has not ended, the next
      line still belongs to the head. */
  lemma StillInHead(reply: seq<string>, i: nat, buf: string)
    requires i < |reply| && i <= |ReplyHead(reply)| && buf != Blank
    requires 0 < i ==> buf == reply[i - 1]
    ensures i < |ReplyHead(reply)|
  {
  }

  /** The loop stops after the first blank line or at end of stream, so what
      it has read is the head. */
  lemma HeadReadWhole(reply: seq<string>, i: nat, buf: string)
    requires i <= |ReplyHead(reply)|
    requires i == 0 ==> buf == ""
    requires 0 < i ==> buf == reply[i - 1]
    requires buf == Blank || i == |reply|
    ensures reply[..i] == ReplyHead(reply)
  {
    if buf == Blank {
      assert reply[i - 1] in reply;
    }
  }

  /** proxy.c:117-124 as written: `k` passes through the response loop, each
      reading a line and writing the buffer to the client; the passes stop
      early once the buffer holds the blank line. The buffer starts as an
      empty line. */
  function ResponseLoopAsWritten(reply: seq<string>, k: nat): LoopState {
    if k == 0 then LoopState("", 0, [])
    else
      var s := ResponseLoopAsWritten(reply, k - 1);
      if s.buf == Blank then s
      else
        var r := ReadLine(reply, s.pos, s.buf);
        LoopState(r.0, r.1, s.written + [r.0])
  }

  /** An origin that closes its stream without sending the blank line keeps
      the response loop as written running: after any number `k` of passes
      the buffer is still not blank, `k` lines have gone to the client, and
      once the stream has ended every pass sends the last line again. */
  lemma {:induction false} ResponseLoopNeverEnds(reply: seq<string>, k: nat)
    requires !HasBlank(reply)
    ensures var s := ResponseLoopAsWritten(reply, k);
      && s.buf == (if k == 0 then "" else Held(reply, "", k - 1)) && s.buf != Blank
      && s.pos == (if k < |reply| then k else |reply|)
      && |s.written| == k
      && forall j :: 0 <= j < k ==> s.written[j] == Held(reply, "", j)
  {
    if k > 0 {
      ResponseLoopNeverEnds(reply, k - 1);
    }
  }

  /** When the origin does send the blank line, the response loop as written
      stops right after it: after `j` passes (up to that line) the written
      lines are the first `j` reply lines, so it relays `ReplyHead`. */
  lemma {:induction false} ResponseLoopEndsAtBlank(reply: seq<string>, j: nat)
    requires HasBlank(reply) && j <= FirstBlank(reply) + 1
    ensures var s := ResponseLoopAsWritten(reply, j);
      && s.buf == (if j == 0 then "" else reply[j - 1]) && s.pos == j
      && s.written == reply[..j]
    ensures j == FirstBlank(reply) + 1 ==>
      ResponseLoopAsWritten(reply, j).written == ReplyHead(reply) &&
      ResponseLoopAsWritten(reply, j + 1) == ResponseLoopAsWritten(reply, j)
  {
    if j > 0 {
      ResponseLoopEndsAtBlank(reply, j - 1);
      if j > 1 {
        assert reply[j - 2] in reply[..FirstBlank(reply)];
      }
      assert reply[..j] == reply[..j - 1] + [reply[j - 1]];
    }
  }

  lemma WritesToSnoc(fd: Fd, lines: seq<string>, line: string)
    ensures WritesTo(fd, lines + [line]) == WritesTo(fd, lines) + [Write(fd, line)]
  {
  }

  lemma LastWithSnoc(lines: seq<string>, line: string, pat: string)
    ensures LastWith(lines + [line], pat) ==
      if Contains(line, pat) then Some(|lines|) else LastWith(lines, pat)
  {
    assert (lines + [line])[..|lines|] == lines;
  }

  lemma ColonPrefix(lines: seq<string>, i: nat)
    requires i <= |lines| && LengthLinesHaveColon(lines)
    ensures LengthLinesHaveColon(lines[..i])
  {
    assert forall j :: 0 <= j < i ==> lines[..i][j] == lines[j];
  }

  /** One more response line read: the trace, the colon property and
      `content_length` all extend by that line. */
  lemma ReadOneMore(reply: seq<string>, i: nat)
    requires i < |ReplyHead(reply)|
    requires LengthLinesHaveColon(ReplyHead(reply))
    ensures reply[..i + 1] == reply[..i] + [reply[i]]
    ensures Contains(reply[i], ContentLengthName) ==> ':' in reply[i]
    ensures LengthLinesHaveColon(reply[..i + 1])
    ensures ContentLength(reply[..i + 1]) ==
      if Contains(reply[i], ContentLengthName) then ValueAfterColon(reply[i]) else ContentLength(reply[..i])
    ensures WritesTo(ClientFd, reply[..i + 1]) == WritesTo(ClientFd, reply[..i]) + [Write(ClientFd, reply[i])]
  {
    var head := ReplyHead(reply);
    assert reply[..i + 1] == head[..i + 1];
    ColonPrefix(head, i + 1);
    assert reply[..i + 1] == reply[..i] + [reply[i]];
    LastWithSnoc(reply[..i], reply[i], ContentLengthName);
    WritesToSnoc(ClientFd, reply[..i], reply[i]);
  }

  // What a trace shows to each party.

  /** The lines written to `fd`, in order. */
  function DataTo(t: seq<Event>, fd: Fd): seq<string> {
    if t == [] then []
    else (if t[0].Write? && t[0].fd == fd then [t[0].data] else []) + DataTo(t[1..], fd)
  }

  predicate IsConnect(e: Event) {
    e.Connect?
  }

  /** `send_cache` or `read_cache`: a use of an object found in the cache. */
  predicate IsLookup(e: Event) {
    e.CacheSend? || e.CacheTouch?
  }

  /** The number of events of the kind `p`. */
  function Count(t: seq<Event>, p: Event -> bool): nat {
    if t == [] then 0 else (if p(t[0]) then 1 else 0) + Count(t[1..], p)
  }

  lemma {:induction false} DataToAppend(a: seq<Event>, b: seq<Event>, fd: Fd)
    ensures DataTo(a + b, fd) == DataTo(a, fd) + DataTo(b, fd)
  {
    if a != [] {
      assert (a + b)[1..] == a[1..] + b;
      DataToAppend(a[1..], b, fd);
    } else {
      assert a + b == b;
    }
  }

  lemma {:induction false} CountAppend(a: seq<Event>, b: seq<Event>, p: Event -> bool)
    ensures Count(a + b, p) == Count(a, p) + Count(b, p)
  {
    if a != [] {
      assert (a + b)[1..] == a[1..] + b;
      CountAppend(a[1..], b, p);
    } else {
      assert a + b == b;
    }
  }

  lemma WritesToTail(fd: Fd, lines: seq<string>)
    requires lines != []
    ensures WritesTo(fd, lines)[0] == Write(fd, lines[0])
    ensures WritesTo(fd, lines)[1..] == WritesTo(fd, lines[1..])
  {
    var rest, tail := WritesTo(fd, lines)[1..], WritesTo(fd, lines[1..]);
    assert forall i :: 0 <= i < |rest| ==> rest[i] == tail[i];
  }

  /** Writing lines to `fd` shows exactly those lines on `fd` and nothing elsewhere. */
  lemma {:induction false} WritesToData(fd: Fd, lines: seq<string>, other: Fd)
    ensures DataTo(WritesTo(fd, lines), other) == if fd == other then lines else []
  {
    if lines != [] {
      var t := WritesTo(fd, lines);
      WritesToTail(fd, lines);
      assert DataTo(t, other) == (if fd == other then [lines[0]] else []) + DataTo(t[1..], other);
      WritesToData(fd, lines[1..], other);
      assert [lines[0]] + lines[1..] == lines;
    }
  }

  /** Writes are neither connections nor uses of the cache. */
  lemma {:induction false} WritesToCount(fd: Fd, lines: seq<string>, p: Event -> bool)
    requires p == IsConnect || p == IsLookup
    ensures Count(WritesTo(fd, lines), p) == 0
  {
    if lines != [] {
      WritesToTail(fd, lines);
      WritesToCount(fd, lines[1..], p);
    }
  }

  lemma WritesToHoldsOnlyWrites(fd: Fd, lines: seq<string>, e: Event)
    requires !e.Write?
    ensures e !in WritesTo(fd, lines)
  {
  }

  lemma DataToSingle(e: Event, fd: Fd, p: Event -> bool)
    ensures DataTo([e], fd) == if e.Write? && e.fd == fd then [e.data] else []
    ensures Count([e], p) == if p(e) then 1 else 0
  {
    assert [e][1..] == [];
  }

  /** What the origin, the client and the failed descriptor see of the branch
      that relays: the request line and forwarded headers go to the origin;
      the response header lines and the body go to the client. */
  lemma RelayData(verb: string, parts: UriParts, forwarded: seq<string>,
                  head: seq<string>, body: string, cacheable: bool, fd: Fd)
    ensures DataTo(Relay(verb, parts, forwarded, head, body, cacheable), fd) ==
      match fd
      case ServerFd => [RequestLine(verb, parts.path)] + forwarded
      case ClientFd => head + [body]
      case FailedFd => []
  {
    var a1 := [Connect(OriginHost(parts.hostname), parts.port)];
    var a2 := [Write(ServerFd, RequestLine(verb, parts.path))];
    var b := WritesTo(ServerFd, forwarded);
    var c := WritesTo(ClientFd, head);
    var d := [Write(ClientFd, body)];
    var e := if cacheable then [CacheWrite(parts.path, body)] else [FreeBody];
    var f := [CloseServer];
    var t1 := a1 + a2;
    var t2 := t1 + b;
    var t3 := t2 + c;
    var t4 := t3 + d;
    var t5 := t4 + e;
    var t6 := t5 + f;
    assert Relay(verb, parts, forwarded, head, body, cacheable) == t6;
    var toServer := fd == ServerFd;
    var toClient := fd == ClientFd;
    assert DataTo(t1, fd) == if toServer then [RequestLine(verb, parts.path)] else [] by {
      DataToAppend(a1, a2, fd);
      DataToSingle(a1[0], fd, IsConnect);
      DataToSingle(a2[0], fd, IsConnect);
    }
    assert DataTo(t2, fd) == DataTo(t1, fd) + (if toServer then forwarded else []) by {
      DataToAppend(t1, b, fd);
      WritesToData(ServerFd, forwarded, fd);
    }
    assert DataTo(t3, fd) == DataTo(t2, fd) + (if toClient then head else []) by {
      DataToAppend(t2, c, fd);
      WritesToData(ClientFd, head, fd);
    }
    assert DataTo(t4, fd) == DataTo(t3, fd) + (if toClient then [body] else []) by {
      DataToAppend(t3, d, fd);
      DataToSingle(d[0], fd, IsConnect);
    }
    assert DataTo(t5, fd) == DataTo(t4, fd) by {
      DataToAppend(t4, e, fd);
      DataToSingle(e[0], fd, IsConnect);
    }
    assert DataTo(t6, fd) == DataTo(t5, fd) by {
      DataToAppend(t5, f, fd);
      DataToSingle(f[0], fd, IsConnect);
    }
  }

  /** The branch that relays opens exactly one connection, first of all, to
      the origin named in the request, and closes it last; it neither sends
      from nor touches the cache. */
  lemma RelayConnects(verb: string, parts: UriParts, forwarded: seq<string>,
                      head: seq<string>, body: string, cacheable: bool)
    ensures var t := Relay(verb, parts, forwarded, head, body, cacheable);
      && t[0] == Connect(OriginHost(parts.hostname), parts.port)
      && Count(t, IsConnect) == 1
      && Count(t, IsLookup) == 0
      && t[|t| - 1] == CloseServer
  {
    var a1 := [Connect(OriginHost(parts.hostname), parts.port)];
    var a2 := [Write(ServerFd, RequestLine(verb, parts.path))];
    var b := WritesTo(ServerFd, forwarded);
    var c := WritesTo(ClientFd, head);
    var d := [Write(ClientFd, body)];
    var e := if cacheable then [CacheWrite(parts.path, body)] else [FreeBody];
    var f := [CloseServer];
    var t1 := a1 + a2;
    var t2 := t1 + b;
    var t3 := t2 + c;
    var t4 := t3 + d;
    var t5 := t4 + e;
    var t6 := t5 + f;
    assert Relay(verb, parts, forwarded, head, body, cacheable) == t6;
    forall p: Event -> bool | p == IsConnect || p == IsLookup
      ensures Count(t6, p) == (if p == IsConnect then 1 else 0)
    {
      var connect := p == IsConnect;
      assert Count(t1, p) == (if connect then 1 else 0) by {
        CountAppend(a1, a2, p);
        DataToSingle(a1[0], ClientFd, p);
        DataToSingle(a2[0], ClientFd, p);
      }
      assert Count(t2, p) == Count(t1, p) by {
        CountAppend(t1, b, p);
        WritesToCount(ServerFd, forwarded, p);
      }
      assert Count(t3, p) == Count(t2, p) by {
        CountAppend(t2, c, p);
        WritesToCount(ClientFd, head, p);
      }
      assert Count(t4, p) == Count(t3, p) by {
        CountAppend(t3, d, p);
        DataToSingle(d[0], ClientFd, p);
      }
      assert Count(t5, p) == Count(t4, p) by {
        CountAppend(t4, e, p);
        DataToSingle(e[0], ClientFd, p);
      }
      assert Count(t6, p) == Count(t5, p) by {
        CountAppend(t5, f, p);
        DataToSingle(f[0], ClientFd, p);
      }
    }
  }

  /** The size gate of the branch that relays: the body goes into the cache
      exactly when it may be cached and is freed exactly otherwise. */
  lemma RelayCaches(verb: string, parts: UriParts, forwarded: seq<string>,
                    head: seq<string>, body: string, cacheable: bool)
    ensures var t := Relay(verb, parts, forwarded, head, body, cacheable);
      && (CacheWrite(parts.path, body) in t <==> cacheable)
      && (FreeBody in t <==> !cacheable)
  {
    WritesToHoldsOnlyWrites(ServerFd, forwarded, CacheWrite(parts.path, body));
    WritesToHoldsOnlyWrites(ServerFd, forwarded, FreeBody);
    WritesToHoldsOnlyWrites(ClientFd, head, CacheWrite(parts.path, body));
    WritesToHoldsOnlyWrites(ClientFd, head, FreeBody);
  }

  // Properties of `doit`, stated on the trace of `Handle`.

  /** A method other than GET or HEAD (in any case) is answered with the 501
      page and nothing else happens: only writes to the client, nothing to
      the origin. */
  lemma MethodRejected(requestLine: string, clientLines: seq<string>, cached: set<string>, connected: bool,
                       reply: seq<string>, replyBody: string, maxObjectSize: int)
    requires RequestWellFormed(requestLine) && !IsGetOrHead(MethodOf(requestLine))
    ensures var t := Handle(requestLine, clientLines, cached, connected, reply, replyBody, maxObjectSize);
      && DataTo(t, ClientFd) == ErrorResponse(MethodOf(requestLine), "501", "Not implemented", NotImplementedMsg)
      && DataTo(t, ServerFd) == []
      && Count(t, IsConnect) == 0 && Count(t, IsLookup) == 0
      && forall i :: 0 <= i < |t| ==> t[i].Write?
  {
    var page := ErrorResponse(MethodOf(requestLine), "501", "Not implemented", NotImplementedMsg);
    assert Handle(requestLine, clientLines, cached, connected, reply, replyBody, maxObjectSize) ==
      WritesTo(ClientFd, page);
    PageToClientOnly(page);
  }

  /** A trace of writes to the client only. */
  lemma PageToClientOnly(page: seq<string>)
    ensures var t := WritesTo(ClientFd, page);
      && DataTo(t, ClientFd) == page && DataTo(t, ServerFd) == []
      && Count(t, IsConnect) == 0 && Count(t, IsLookup) == 0
      && forall i :: 0 <= i < |t| ==> t[i].Write?
  {
    WritesToCount(ClientFd, page, IsConnect);
    WritesToCount(ClientFd, page, IsLookup);
    WritesToData(ClientFd, page, ClientFd);
    WritesToData(ClientFd, page, ServerFd);
  }

  /** The method gate: a request is rejected exactly when the trace neither
      connects to an origin nor uses the cache. */
  lemma MethodGate(requestLine: string, clientLines: seq<string>, cached: set<string>, connected: bool,
                   reply: seq<string>, replyBody: string, maxObjectSize: int)
    requires RequestWellFormed(requestLine)
    requires ReachesRelay(requestLine, cached, connected) ==> ReplyWellFormed(reply)
    ensures var t := Handle(requestLine, clientLines, cached, connected, reply, replyBody, maxObjectSize);
      !IsGetOrHead(MethodOf(requestLine)) <==> Count(t, IsConnect) == 0 && Count(t, IsLookup) == 0
  {
    if !IsGetOrHead(MethodOf(requestLine)) {
      MethodRejected(requestLine, clientLines, cached, connected, reply, replyBody, maxObjectSize);
    } else {
      CacheProbe(requestLine, clientLines, cached, connected, reply, replyBody, maxObjectSize);
    }
  }

  /** The cache probe, for a method that passes the gate: a path the cache
      holds is sent from the cache and marked used, with no connection and
      nothing written by `doit` itself; any other path leads to exactly one
      connection attempt, to the host and port of the request, before
      anything else, and never to a use of a cached object. */
  lemma CacheProbe(requestLine: string, clientLines: seq<string>, cached: set<string>, connected: bool,
                   reply: seq<string>, replyBody: string, maxObjectSize: int)
    requires RequestWellFormed(requestLine) && IsGetOrHead(MethodOf(requestLine))
    requires ReachesRelay(requestLine, cached, connected) ==> ReplyWellFormed(reply)
    ensures var t := Handle(requestLine, clientLines, cached, connected, reply, replyBody, maxObjectSize);
      var parts := PartsOf(requestLine);
      && (parts.path in cached <==> Count(t, IsConnect) == 0)
      && (parts.path in cached ==>
            t[0] == CacheSend(parts.path) && t[1] == CacheTouch(parts.path) && Count(t, IsLookup) == 2 &&
            DataTo(t, ClientFd) == [] && DataTo(t, ServerFd) == [])
      && (parts.path !in cached ==>
            t[0] == Connect(OriginHost(parts.hostname), parts.port) &&
            Count(t, IsConnect) == 1 && Count(t, IsLookup) == 0)
  {
    var verb := MethodOf(requestLine);
    var parts := PartsOf(requestLine);
    if parts.path in cached {
      CacheHit(parts.path);
    } else if !connected {
      ConnectAttempt(OriginHost(parts.hostname), parts.port, ErrorResponse(verb, "502", "Bad Gateway", BadGatewayMsg));
    } else {
      var n := ContentLength(ReplyHead(reply));
      RelayConnects(verb, parts, Forwarded(clientLines, parts.hostname, parts.port),
                    ReplyHead(reply), Received(replyBody, n), n <= maxObjectSize);
    }
  }

  /** The trace of a cache hit: two uses of the cache, no connection, no write. */
  lemma CacheHit(path: string)
    ensures var t := [CacheSend(path), CacheTouch(path)];
      && Count(t, IsConnect) == 0 && Count(t, IsLookup) == 2
      && DataTo(t, ClientFd) == [] && DataTo(t, ServerFd) == []
  {
    var a := [CacheSend(path)];
    var b := [CacheTouch(path)];
    assert [CacheSend(path), CacheTouch(path)] == a + b;
    forall p: Event -> bool | p == IsConnect || p == IsLookup
      ensures Count(a + b, p) == if p == IsConnect then 0 else 2
    {
      CountAppend(a, b, p);
      DataToSingle(a[0], ClientFd, p);
      DataToSingle(b[0], ClientFd, p);
    }
    forall fd: Fd
      ensures DataTo(a + b, fd) == []
    {
      DataToAppend(a, b, fd);
      DataToSingle(a[0], fd, IsConnect);
      DataToSingle(b[0], fd, IsConnect);
    }
  }

  /** The trace of a connection attempt that fails: one connection, no use
      of the cache, and the page written to the failed descriptor only. */
  lemma ConnectAttempt(hostname: string, port: string, page: seq<string>)
    ensures var t := [Connect(hostname, port)] + WritesTo(FailedFd, page);
      && Count(t, IsConnect) == 1 && Count(t, IsLookup) == 0
      && DataTo(t, ClientFd) == [] && DataTo(t, ServerFd) == [] && DataTo(t, FailedFd) == page
  {
    var a := [Connect(hostname, port)];
    forall p: Event -> bool | p == IsConnect || p == IsLookup
      ensures Count(a + WritesTo(FailedFd, page), p) == if p == IsConnect then 1 else 0
    {
      CountAppend(a, WritesTo(FailedFd, page), p);
      DataToSingle(a[0], ClientFd, p);
      WritesToCount(FailedFd, page, p);
    }
    forall fd: Fd
      ensures DataTo(a + WritesTo(FailedFd, page), fd) == if fd == FailedFd then page else []
    {
      DataToAppend(a, WritesTo(FailedFd, page), fd);
      DataToSingle(a[0], fd, IsConnect);
      WritesToData(FailedFd, page, fd);
    }
  }

  /** When the origin cannot be reached, the 502 page goes to the failed
      descriptor, as the source writes it, so the client is sent nothing. */
  lemma ConnectFailure(requestLine: string, clientLines: seq<string>, cached: set<string>,
                       reply: seq<string>, replyBody: string, maxObjectSize: int)
    requires RequestWellFormed(requestLine) && IsGetOrHead(MethodOf(requestLine))
    requires PartsOf(requestLine).path !in cached
    ensures var t := Handle(requestLine, clientLines, cached, false, reply, replyBody, maxObjectSize);
      && DataTo(t, ClientFd) == []
      && DataTo(t, ServerFd) == []
      && DataTo(t, FailedFd) == ErrorResponse(MethodOf(requestLine), "502", "Bad Gateway", BadGatewayMsg)
  {
    var parts := PartsOf(requestLine);
    ConnectAttempt(OriginHost(parts.hostname), parts.port,
                   ErrorResponse(MethodOf(requestLine), "502", "Bad Gateway", BadGatewayMsg));
  }

  lemma NoSpaceSuffix(s: string, k: nat)
    requires NoSpace(s) && k <= |s|
    ensures NoSpace(s[k..])
  {
    assert forall i :: 0 <= i < |s| - k ==> s[k..][i] == s[k + i];
  }

  /** A path as parsed is a piece of the URI, so it has no white space when
      the URI has none. */
  lemma PathHasNoSpace(uri: string)
    requires NoSpace(uri) && ParseUriFixed(uri).Some?
    ensures NoSpace(ParseUriFixed(uri).value.path)
  {
    var rest := Rest(uri);
    NoSpaceSuffix(uri, HostStart(uri));
    NoSpaceSuffix(rest, IndexOf(rest, '/').value);
  }

  /** What the origin receives: the rewritten request line, which `%s %s`
      reads back as the method and the path, then the rewritten headers. */
  lemma RequestForwarded(requestLine: string, clientLines: seq<string>, cached: set<string>,
                         reply: seq<string>, replyBody: string, maxObjectSize: int)
    requires ReachesRelay(requestLine, cached, true)
    requires ReplyWellFormed(reply)
    ensures var t := Handle(requestLine, clientLines, cached, true, reply, replyBody, maxObjectSize);
      var parts := PartsOf(requestLine);
      DataTo(t, ServerFd) ==
        [RequestLine(MethodOf(requestLine), parts.path)] + Forwarded(clientLines, parts.hostname, parts.port)
    ensures ScanTwo(RequestLine(MethodOf(requestLine), PartsOf(requestLine).path)) ==
      Some((MethodOf(requestLine), PartsOf(requestLine).path))
  {
    var verb := MethodOf(requestLine);
    var parts := PartsOf(requestLine);
    var n := ContentLength(ReplyHead(reply));
    RelayData(verb, parts, Forwarded(clientLines, parts.hostname, parts.port),
              ReplyHead(reply), Received(replyBody, n), n <= maxObjectSize, ServerFd);
    PathHasNoSpace(ScanTwo(requestLine).value.1);
    ScanTwoOf(verb, parts.path, " HTTP/1.0\r\n");
  }

  /** What the client receives: every response header line up to and
      including the first blank one (all of them when the origin sends none),
      in order, then `content_length` bytes of body. */
  lemma ResponseRelayed(requestLine: string, clientLines: seq<string>, cached: set<string>,
                        reply: seq<string>, replyBody: string, maxObjectSize: int)
    requires ReachesRelay(requestLine, cached, true)
    requires ReplyWellFormed(reply)
    ensures var t := Handle(requestLine, clientLines, cached, true, reply, replyBody, maxObjectSize);
      var n := ContentLength(ReplyHead(reply));
      && DataTo(t, ClientFd) == ReplyHead(reply) + [Received(replyBody, n)]
      && (n <= |replyBody| ==> Received(replyBody, n) == replyBody[..n])
      && (|replyBody| < n ==> Received(replyBody, n) == replyBody)
      && (HasBlank(reply) ==> Blank !in ReplyHead(reply)[..|ReplyHead(reply)| - 1])
      && (HasBlank(reply) ==> ReplyHead(reply)[|ReplyHead(reply)| - 1] == Blank)
      && (!HasBlank(reply) ==> ReplyHead(reply) == reply)
  {
    var verb := MethodOf(requestLine);
    var parts := PartsOf(requestLine);
    var n := ContentLength(ReplyHead(reply));
    RelayData(verb, parts, Forwarded(clientLines, parts.hostname, parts.port),
              ReplyHead(reply), Received(replyBody, n), n <= maxObjectSize, ClientFd);
    ReplyHeadEndsAtBlank(reply);
  }

  /** The head relayed is the reply up to its first blank line, included, or
      the whole reply when it holds none. */
  lemma ReplyHeadEndsAtBlank(reply: seq<string>)
    ensures HasBlank(reply) ==> Blank !in ReplyHead(reply)[..|ReplyHead(reply)| - 1]
    ensures HasBlank(reply) ==> ReplyHead(reply)[|ReplyHead(reply)| - 1] == Blank
    ensures !HasBlank(reply) ==> ReplyHead(reply) == reply
  {
    if HasBlank(reply) {
      var k := FirstBlank(reply);
      assert ReplyHead(reply)[..k] == reply[..k];
    }
  }

  /** The size gate: the body is handed to the cache exactly when
      `content_length <= MAX_OBJECT_SIZE` and freed exactly otherwise, and the
      connection to the origin is closed last. */
  lemma SizeGate(requestLine: string, clientLines: seq<string>, cached: set<string>,
                 reply: seq<string>, replyBody: string, maxObjectSize: int)
    requires ReachesRelay(requestLine, cached, true)
    requires ReplyWellFormed(reply)
    ensures var t := Handle(requestLine, clientLines, cached, true, reply, replyBody, maxObjectSize);
      var n := ContentLength(ReplyHead(reply));
      var path := PartsOf(requestLine).path;
      && (CacheWrite(path, Received(replyBody, n)) in t <==> n <= maxObjectSize)
      && (FreeBody in t <==> maxObjectSize < n)
      && t[|t| - 1] == CloseServer
  {
    var verb := MethodOf(requestLine);
    var parts := PartsOf(requestLine);
    var n := ContentLength(ReplyHead(reply));
    RelayCaches(verb, parts, Forwarded(clientLines, parts.hostname, parts.port),
                ReplyHead(reply), Received(replyBody, n), n <= maxObjectSize);
    RelayConnects(verb, parts, Forwarded(clientLines, parts.hostname, parts.port),
                  ReplyHead(reply), Received(replyBody, n), n <= maxObjectSize);
  }

  // `content_length`.

  /** The last "Content-length" line wins. */
  lemma ContentLengthLastWins(lines: seq<string>, k: nat)
    requires LengthLinesHaveColon(lines)
    requires k < |lines| && Contains(lines[k], ContentLengthName)
    requires forall j :: k < j < |lines| ==> !Contains(lines[j], ContentLengthName)
    ensures ContentLength(lines) == ValueAfterColon(lines[k])
  {
    var r := LastWith(lines, ContentLengthName);
    if r.value != k {
      assert false;
    }
  }

  /** With no "Content-length" line, `content_length` keeps its initial 0. */
  lemma ContentLengthAbsent(lines: seq<string>)
    requires forall j :: 0 <= j < |lines| ==> !Contains(lines[j], ContentLengthName)
    ensures LengthLinesHaveColon(lines) && ContentLength(lines) == 0
  {
  }

  /** A "Content-length" header line announcing `n` bytes. */
  function LengthLine(n: nat): string {
    ContentLengthName + ": " + Decimal(n) + "\r\n"
  }

  lemma LengthLineValue(n: nat)
    ensures ':' in LengthLine(n) && ValueAfterColon(LengthLine(n)) == n
  {
    var tail := " " + Decimal(n) + "\r\n";
    assert LengthLine(n) == ContentLengthName + [':'] + tail;
    IndexOfAfter(ContentLengthName, ':', tail);
    assert LengthLine(n)[|ContentLengthName| + 1..] == tail;
    AtoiOfDecimal(n, "\r\n");
  }

  lemma LengthLineNamed(n: nat)
    ensures Contains(LengthLine(n), ContentLengthName)
  {
    assert LengthLine(n)[..|ContentLengthName|] == ContentLengthName;
    assert MatchAt(LengthLine(n), ContentLengthName, 0);
  }

  /** A header `Content-length: N` followed by the blank line is read back as N. */
  lemma ContentLengthOfHeader(n: nat)
    ensures LengthLinesHaveColon([LengthLine(n), Blank])
    ensures ContentLength([LengthLine(n), Blank]) == n
  {
    LengthLineNamed(n);
    LengthLineValue(n);
    AbsentCharNotContained(Blank, ContentLengthName, 'C');
    ContentLengthLastWins([LengthLine(n), Blank], 0);
  }

  // A whole request, end to end.

  /** `GET http://<host><path> HTTP/1.0`, as a browser configured to use the
      proxy sends it. */
  function GetRequest(host: string, path: string): string {
    "GET " + "http://" + host + path + " HTTP/1.0\r\n"
  }

  /** A host name and a path a GET request can carry. */
  predicate HostAndPath(host: string, path: string) {
    '/' !in host && ':' !in host && NoSpace(host) &&
    path != [] && path[0] == '/' && NoSpace(path)
  }

  lemma NoSpaceConcat(a: string, b: string)
    requires NoSpace(a) && NoSpace(b)
    ensures NoSpace(a + b)
  {
    assert forall i :: 0 <= i < |b| ==> (a + b)[|a| + i] == b[i];
  }

  /** Such a request is read as the method GET and the URI, passes the gate,
      and names the host and path it was built from, port 80. */
  lemma GetRequestAccepted(host: string, path: string, cached: set<string>)
    requires HostAndPath(host, path) && path !in cached
    ensures RequestWellFormed(GetRequest(host, path))
    ensures MethodOf(GetRequest(host, path)) == "GET" && IsGetOrHead("GET")
    ensures PartsOf(GetRequest(host, path)) == UriParts(host, DefaultPort, path)
    ensures ReachesRelay(GetRequest(host, path), cached, true)
    ensures ScanTwo(GetRequest(host, path)).value.1 == "http://" + host + path
    ensures ':' !in path <==> UriWellFormed("http://" + host + path)
  {
    var uri := "http://" + host + path;
    if ':' in path {
      ColonInPathUnhandled(host, path);
    }
    assert NoSpace("GET");
    assert NoSpace("http://");
    NoSpaceConcat("http://", host);
    NoSpaceConcat("http://" + host, path);
    assert GetRequest(host, path) == "GET" + " " + uri + " HTTP/1.0\r\n";
    ScanTwoOf("GET", uri, " HTTP/1.0\r\n");
    ParseUriDefaultPort(host, path);
  }

  /** A reply made of `Content-length: n` and the blank line is one the relay
      can handle, and its whole header block is relayed. */
  lemma LengthReplyWellFormed(n: nat)
    ensures HasBlank([LengthLine(n), Blank])
    ensures ReplyHead([LengthLine(n), Blank]) == [LengthLine(n), Blank]
    ensures ReplyWellFormed([LengthLine(n), Blank])
    ensures ContentLength(ReplyHead([LengthLine(n), Blank])) == n
  {
    ContentLengthOfHeader(n);
    LengthLineNamed(n);
    assert LengthLine(n) != Blank by {
      AbsentCharNotContained(Blank, ContentLengthName, 'C');
    }
    assert FirstBlank([LengthLine(n), Blank]) == 1;
  }

  /** A GET request from a client that sends no headers, for a path not in
      the cache: the origin receives `GET <path> HTTP/1.0`, the four required
      headers and the blank line. */
  lemma GetRequestForwarded(host: string, path: string, cached: set<string>,
                            n: nat, body: string, maxObjectSize: int)
    requires HostAndPath(host, path) && path !in cached
    ensures ReachesRelay(GetRequest(host, path), cached, true) && ReplyWellFormed([LengthLine(n), Blank])
    ensures DataTo(Handle(GetRequest(host, path), [Blank], cached, true, [LengthLine(n), Blank], body, maxObjectSize), ServerFd) ==
      [RequestLine("GET", path)] +
      [ProxyConnectionClose, ConnectionClose, HostHeader(host, DefaultPort), UserAgentHeader, Blank]
  {
    var request := GetRequest(host, path);
    GetRequestAccepted(host, path, cached);
    LengthReplyWellFormed(n);
    ForwardedNoHeaders(host, DefaultPort);
    RequestForwarded(request, [Blank], cached, [LengthLine(n), Blank], body, maxObjectSize);
    var t := Handle(request, [Blank], cached, true, [LengthLine(n), Blank], body, maxObjectSize);
    var first := RequestLine(MethodOf(request), PartsOf(request).path);
    var rest := Forwarded([Blank], PartsOf(request).hostname, PartsOf(request).port);
    assert DataTo(t, ServerFd) == [first] + rest;
    assert first == RequestLine("GET", path);
    assert rest == [ProxyConnectionClose, ConnectionClose, HostHeader(host, DefaultPort), UserAgentHeader, Blank];
  }

  /** The same request, answered with `Content-length: n`, the blank line and
      a body: the client receives the two header lines and the first `n`
      bytes of the body, which are cached exactly when `n` is within the size
      limit. */
  lemma GetRequestAnswered(host: string, path: string, cached: set<string>,
                           n: nat, body: string, maxObjectSize: int)
    requires HostAndPath(host, path) && path !in cached && n <= |body|
    ensures ReachesRelay(GetRequest(host, path), cached, true) && ReplyWellFormed([LengthLine(n), Blank])
    ensures var t := Handle(GetRequest(host, path), [Blank], cached, true, [LengthLine(n), Blank], body, maxObjectSize);
      && DataTo(t, ClientFd) == [LengthLine(n), Blank] + [body[..n]]
      && (CacheWrite(path, body[..n]) in t <==> n <= maxObjectSize)
  {
    var request := GetRequest(host, path);
    var reply := [LengthLine(n), Blank];
    GetRequestAccepted(host, path, cached);
    LengthReplyWellFormed(n);
    ResponseRelayed(request, [Blank], cached, reply, body, maxObjectSize);
    SizeGate(request, [Blank], cached, reply, body, maxObjectSize);
    var t := Handle(request, [Blank], cached, true, reply, body, maxObjectSize);
    var m := ContentLength(ReplyHead(reply));
    assert m == n;
    assert DataTo(t, ClientFd) == ReplyHead(reply) + [body[..m]];
    assert CacheWrite(PartsOf(request).path, body[..m]) in t <==> m <= maxObjectSize;
  }

  /** An origin that closes right after the header block, as it does to
      answer a HEAD request: the client receives the header lines and an
      empty body, and the empty body is what is cached when the length
      announced is within the size limit. */
  lemma EmptyBodyRelayed(requestLine: string, clientLines: seq<string>, cached: set<string>,
                         reply: seq<string>, maxObjectSize: int)
    requires ReachesRelay(requestLine, cached, true) && ReplyWellFormed(reply)
    ensures var t := Handle(requestLine, clientLines, cached, true, reply, "", maxObjectSize);
      var n := ContentLength(ReplyHead(reply));
      && DataTo(t, ClientFd) == ReplyHead(reply) + [""]
      && (CacheWrite(PartsOf(requestLine).path, "") in t <==> n <= maxObjectSize)
      && (FreeBody in t <==> maxObjectSize < n)
  {
    ResponseRelayed(requestLine, clientLines, cached, reply, "", maxObjectSize);
    SizeGate(requestLine, clientLines, cached, reply, "", maxObjectSize);
    assert Received("", ContentLength(ReplyHead(reply))) == "";
  }

}
