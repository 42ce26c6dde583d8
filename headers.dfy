/**
 `read_requesthdrs` (proxy.c:201-262): copies the client's request headers to
 the origin up to the blank line, replacing the connection and user-agent
 headers by the proxy's own, then adds whichever required header the client
 did not send, and the blank line that ends the block.
 */
module Headers {
  import opened CString

  const ProxyConnectionClose: string := "Proxy-Connection: close\r\n"
  const ConnectionClose: string := "Connection: close\r\n"
  /** `user_agent_hdr` (proxy.c:14-16). */
  const UserAgentHeader: string :=
    "User-Agent: " + "Mozilla/5.0 " + "(X11; Linux " + "x86_64; " + "rv:10.0.3) " +
    "Gecko/20120305 " + "Firefox/10.0.3\r\n"
  /** The line that ends a header block. */
  const Blank: string := "\r\n"

  /** `Host: <hostname>:<port>`, sent when the client sent no `Host` line. */
  function HostHeader(hostname: string, port: string): string {
    "Host: " + hostname + ":" + port + "\r\n"
  }

  /** Which branch of the loop a header line takes: the tests are made in this
      order, and "Proxy-Connection" comes before "Connection", which it contains. */
  datatype Kind = ProxyConnection | Connection | UserAgent | Host | Other

  function Classify(line: string): Kind {
    if Contains(line, "Proxy-Connection") then ProxyConnection
    else if Contains(line, "Connection") then Connection
    else if Contains(line, "User-Agent") then UserAgent
    else if Contains(line, "Host") then Host
    else Other
  }

  /** The line sent to the origin in place of a client line. */
  function Rewrite(line: string): string {
    match Classify(line)
    case ProxyConnection => ProxyConnectionClose
    case Connection => ConnectionClose
    case UserAgent => UserAgentHeader
    case _ => line
  }

  function RewriteAll(lines: seq<string>): (out: seq<string>)
    ensures |out| == |lines|
  {
    seq(|lines|, i requires 0 <= i < |lines| => Rewrite(lines[i]))
  }

  /** Some line of `lines` takes the branch of `k`: the flag the loop sets. */
  predicate Seen(lines: seq<string>, k: Kind) {
    exists i :: 0 <= i < |lines| && Classify(lines[i]) == k
  }

  /** The stream holds a blank line, so the loop as written ends. */
  predicate HasBlank(lines: seq<string>) {
    Blank in lines
  }

  /** The position of the first blank line. */
  function FirstBlank(lines: seq<string>): (k: nat)
    requires HasBlank(lines)
    ensures k < |lines| && lines[k] == Blank && Blank !in lines[..k]
  {
    if lines[0] == Blank then 0
    else
      assert Blank in lines[1..];
      var k := FirstBlank(lines[1..]) + 1;
      assert lines[..k] == [lines[0]] + lines[1..][..k - 1];
      k
  }

  /** How many client lines the header block holds: up to the first blank
      line, or the whole stream when the client closes without sending one. */
  function HeadLength(lines: seq<string>): (k: nat)
    ensures k <= |lines| && Blank !in lines[..k]
    ensures k < |lines| ==> lines[k] == Blank
    ensures HasBlank(lines) ==> k == FirstBlank(lines)
  {
    if HasBlank(lines) then FirstBlank(lines)
    else
      assert lines[..|lines|] == lines;
      |lines|
  }

  /** The headers appended after the loop, one per required header not seen,
      in the order Proxy-Connection, Connection, Host, User-Agent. */
  function Missing(lines: seq<string>, hostname: string, port: string): (r: seq<string>)
    ensures |r| <= 4
    ensures ProxyConnectionClose in r <==> !Seen(lines, ProxyConnection)
    ensures ConnectionClose in r <==> !Seen(lines, Connection)
    ensures HostHeader(hostname, port) in r <==> !Seen(lines, Host)
    ensures UserAgentHeader in r <==> !Seen(lines, UserAgent)
  {
    var host := HostHeader(hostname, port);
    assert host[0] == 'H' && ProxyConnectionClose[0] == 'P';
    assert ConnectionClose[0] == 'C' && UserAgentHeader[0] == 'U';
    MissingFor(Seen(lines, ProxyConnection), Seen(lines, Connection), Seen(lines, Host), Seen(lines, UserAgent),
               hostname, port)
  }

  /** The headers appended for the four flags of the loop. */
  function MissingFor(proxyConnection: bool, connection: bool, host: bool, userAgent: bool,
                      hostname: string, port: string): seq<string> {
    (if proxyConnection then [] else [ProxyConnectionClose]) +
    (if connection then [] else [ConnectionClose]) +
    (if host then [] else [HostHeader(hostname, port)]) +
    (if userAgent then [] else [UserAgentHeader])
  }

  /** Everything `read_requesthdrs` writes to the origin for the client stream `lines`. */
  function Forwarded(lines: seq<string>, hostname: string, port: string): seq<string>
  {
    var head := lines[..HeadLength(lines)];
    RewriteAll(head) + Missing(head, hostname, port) + [Blank]
  }

  /** `read_requesthdrs`, leaving the loop at end of stream as well as at the
      blank line (see `HeaderLoopNeverEnds` for the loop as written). The four
      flags start false (the source leaves them uninitialised), and what is
      written to the origin is returned. */
  method RelayRequestHeaders(lines: seq<string>, hostname: string, port: string)
    returns (written: seq<string>)
    ensures written == Forwarded(lines, hostname, port)
  {
    var isHostExist, isConnectionExist, isProxyConnectionExist, isUserAgentExist := false, false, false, false;
    var i := 0;
    written := [];
    while i < |lines| && lines[i] != Blank
      invariant i <= HeadLength(lines)
      invariant written == RewriteAll(lines[..i])
      invariant isProxyConnectionExist == Seen(lines[..i], ProxyConnection)
      invariant isConnectionExist == Seen(lines[..i], Connection)
      invariant isUserAgentExist == Seen(lines[..i], UserAgent)
      invariant isHostExist == Seen(lines[..i], Host)
      decreases HeadLength(lines) - i
    {
      var line := lines[i];
      if Contains(line, "Proxy-Connection") {
        line := ProxyConnectionClose;
        isProxyConnectionExist := true;
      } else if Contains(line, "Connection") {
        line := ConnectionClose;
        isConnectionExist := true;
      } else if Contains(line, "User-Agent") {
        line := UserAgentHeader;
        isUserAgentExist := true;
      } else if Contains(line, "Host") {
        isHostExist := true;
      }
      SeenStep(lines, i);
      written := written + [line];
      i := i + 1;
    }
    assert i == HeadLength(lines);
    written := AppendMissing(written, isProxyConnectionExist, isConnectionExist, isHostExist, isUserAgentExist,
                             hostname, port);
  }

  /** proxy.c:236-260: after the loop, a header for each flag still unset,
      then the blank line. */
  method AppendMissing(written: seq<string>, isProxyConnectionExist: bool, isConnectionExist: bool,
                       isHostExist: bool, isUserAgentExist: bool, hostname: string, port: string)
    returns (out: seq<string>)
    ensures out == written +
      MissingFor(isProxyConnectionExist, isConnectionExist, isHostExist, isUserAgentExist, hostname, port) + [Blank]
  {
    out := written;
    if !isProxyConnectionExist {
      out := out + [ProxyConnectionClose];
    }
    ghost var m := MissingFor(isProxyConnectionExist, true, true, true, hostname, port);
    assert out == written + m;
    if !isConnectionExist {
      out := out + [ConnectionClose];
    }
    m := MissingFor(isProxyConnectionExist, isConnectionExist, true, true, hostname, port);
    assert out == written + m;
    if !isHostExist {
      out := out + [HostHeader(hostname, port)];
    }
    m := MissingFor(isProxyConnectionExist, isConnectionExist, isHostExist, true, hostname, port);
    assert out == written + m;
    if !isUserAgentExist {
      out := out + [UserAgentHeader];
    }
    m := MissingFor(isProxyConnectionExist, isConnectionExist, isHostExist, isUserAgentExist, hostname, port);
    assert out == written + m;
    out := out + [Blank];
  }

  /** Reading one more line sets exactly the flag of that line's branch. */
  lemma SeenStep(lines: seq<string>, i: nat)
    requires i < |lines|
    ensures forall k :: Seen(lines[..i + 1], k) <==> Seen(lines[..i], k) || Classify(lines[i]) == k
    ensures RewriteAll(lines[..i + 1]) == RewriteAll(lines[..i]) + [Rewrite(lines[i])]
  {
    assert lines[..i + 1] == lines[..i] + [lines[i]];
    forall k | Seen(lines[..i + 1], k) ensures Seen(lines[..i], k) || Classify(lines[i]) == k {
      var j :| 0 <= j < i + 1 && Classify(lines[..i + 1][j]) == k;
      if j < i { assert lines[..i][j] == lines[..i + 1][j]; }
    }
    forall k | Seen(lines[..i], k) ensures Seen(lines[..i + 1], k) {
      var j :| 0 <= j < i && Classify(lines[..i][j]) == k;
      assert lines[..i + 1][j] == lines[..i][j];
    }
    assert lines[..i + 1][i] == lines[i];
  }

  // The loop as written, which tests only for the blank line.

  /** `Rio_readlineb` on a stream of lines: the next line and the position
      after it or, at end of stream, the buffer as it was and the same
      position (`rio_readlineb` returns 0 then without writing the buffer). */
  function ReadLine(lines: seq<string>, pos: nat, buf: string): (string, nat) {
    if pos < |lines| then (lines[pos], pos + 1) else (buf, pos)
  }

  /** The buffer, the stream position and the lines written to the origin. */
  datatype LoopState = LoopState(buf: string, pos: nat, written: seq<string>)

  /** A read-then-loop over a stream as written: the first read, then `k`
      passes, each putting `send` of the buffer back into the buffer, writing
      it, and reading the next line over it; the passes stop early once the
      buffer holds the blank line. `buf0` is what the buffer held before the
      first read. */
  function LoopAsWritten(lines: seq<string>, buf0: string, k: nat, send: string -> string): LoopState {
    if k == 0 then
      var r := ReadLine(lines, 0, buf0);
      LoopState(r.0, r.1, [])
    else
      var s := LoopAsWritten(lines, buf0, k - 1, send);
      if s.buf == Blank then s
      else
        var line := send(s.buf);
        var r := ReadLine(lines, s.pos, line);
        LoopState(r.0, r.1, s.written + [line])
  }

  /** proxy.c:208-233 as written: the loop body's `sprintf` puts `Rewrite` of
      the buffer into the buffer, which is then sent. `buf0` is what the
      buffer held before the first read: the request line sent to the origin. */
  function HeaderLoopAsWritten(lines: seq<string>, buf0: string, k: nat): LoopState {
    LoopAsWritten(lines, buf0, k, Rewrite)
  }

  /** The buffer after `j + 1` reads of a stream: its line `j`, or once the
      stream has ended its last line (the old buffer if it held none). */
  function Held(lines: seq<string>, buf0: string, j: nat): string {
    if j < |lines| then lines[j] else if lines == [] then buf0 else lines[|lines| - 1]
  }

  /** On a stream without a blank line, the buffer of a loop as written
      whose `send` is idempotent and never blank is never blank: after `k`
      passes it holds the line `Held` gives, or `send` of it once the stream
      has ended, and pass `j` has sent `send` of the line held before it. */
  lemma {:induction false} LoopStillRunning(lines: seq<string>, buf0: string, k: nat, send: string -> string)
    requires !HasBlank(lines) && buf0 != Blank
    requires forall x :: x != Blank ==> send(x) != Blank
    requires forall x :: send(send(x)) == send(x)
    ensures var s := LoopAsWritten(lines, buf0, k, send);
      && s.buf == (if k < |lines| || k == 0 then Held(lines, buf0, k) else send(Held(lines, buf0, k)))
      && s.buf != Blank
      && s.pos == (if k < |lines| then k + 1 else |lines|)
      && |s.written| == k
      && forall j :: 0 <= j < k ==> s.written[j] == send(Held(lines, buf0, j))
  {
    if k == 0 {
      assert 0 < |lines| ==> lines[0] in lines;
    } else {
      LoopStillRunning(lines, buf0, k - 1, send);
      assert k < |lines| ==> lines[k] in lines;
      assert k - 1 < |lines| ==> lines[k - 1] in lines;
    }
  }

  /** A client that closes its stream without sending the blank line keeps
      the loop as written running: after any number `k` of passes the buffer
      is still not blank, `k` lines have been written, and once the stream
      has ended the buffer holds the last line rewritten, which every pass
      sends again. */
  lemma HeaderLoopNeverEnds(lines: seq<string>, buf0: string, k: nat)
    requires !HasBlank(lines) && buf0 != Blank
    ensures var s := HeaderLoopAsWritten(lines, buf0, k);
      && s.buf == (if k < |lines| || k == 0 then Held(lines, buf0, k) else Rewrite(Held(lines, buf0, k)))
      && s.buf != Blank
      && |s.written| == k
      && forall j :: 0 <= j < k ==> s.written[j] == Rewrite(Held(lines, buf0, j))
  {
    forall x | x != Blank
      ensures Rewrite(x) != Blank
    {
      RewriteIdempotent(x);
    }
    forall x
      ensures Rewrite(Rewrite(x)) == Rewrite(x)
    {
      RewriteIdempotent(x);
    }
    LoopStillRunning(lines, buf0, k, Rewrite);
  }

  /** Lines shaped like the proxy's own take the branch they stand for:
      the first test that matches is the one for their header name. */
  lemma ProxyConnectionKind(line: string)
    requires |line| >= 16 && line[..16] == "Proxy-Connection"
    ensures Classify(line) == ProxyConnection
  {
    ContainsPrefix(line, "Proxy-Connection");
  }

  lemma ConnectionKind(line: string)
    requires |line| >= 10 && line[..10] == "Connection" && 'P' !in line
    ensures Classify(line) == Connection
  {
    AbsentCharNotContained(line, "Proxy-Connection", 'P');
    ContainsPrefix(line, "Connection");
  }

  lemma UserAgentKind(line: string)
    requires |line| >= 10 && line[..10] == "User-Agent" && 'P' !in line && 'C' !in line
    ensures Classify(line) == UserAgent
  {
    AbsentCharNotContained(line, "Proxy-Connection", 'P');
    AbsentCharNotContained(line, "Connection", 'C');
    ContainsPrefix(line, "User-Agent");
  }

  /** The proxy's `User-Agent` line holds neither a `P` nor a `C`. */
  lemma UserAgentHeaderShape()
    ensures |UserAgentHeader| >= 10 && UserAgentHeader[..10] == "User-Agent"
    ensures 'P' !in UserAgentHeader && 'C' !in UserAgentHeader
  {
    assert UserAgentHeader[..10] == "User-Agent: "[..10];
  }

  /** Rewriting a rewritten line changes nothing, and no other line is
      rewritten to the blank line. */
  lemma RewriteIdempotent(line: string)
    ensures Rewrite(Rewrite(line)) == Rewrite(line)
    ensures line != Blank ==> Rewrite(line) != Blank
  {
    var r := Rewrite(line);
    match Classify(line)
    case ProxyConnection =>
      assert r == ProxyConnectionClose;
      ProxyConnectionKind(r);
    case Connection =>
      assert r == ConnectionClose;
      ConnectionKind(r);
    case UserAgent =>
      assert r == UserAgentHeader;
      UserAgentHeaderShape();
      UserAgentKind(r);
    case _ =>
  }

  /** On a stream with a blank line, a loop as written stops there: after the
      first read and `j` passes (up to the blank line) the buffer holds line
      `j` and pass `i` has sent `send` of line `i`. */
  lemma {:induction false} LoopEndsAtBlank(lines: seq<string>, buf0: string, j: nat, send: string -> string)
    requires HasBlank(lines) && j <= FirstBlank(lines)
    ensures var s := LoopAsWritten(lines, buf0, j, send);
      && s.buf == lines[j] && s.pos == j + 1 && |s.written| == j
      && forall i :: 0 <= i < j ==> s.written[i] == send(lines[i])
    ensures j == FirstBlank(lines) ==>
      LoopAsWritten(lines, buf0, j + 1, send) == LoopAsWritten(lines, buf0, j, send)
  {
    if j > 0 {
      LoopEndsAtBlank(lines, buf0, j - 1, send);
      assert lines[j - 1] in lines[..FirstBlank(lines)];
    }
  }

  /** When the client does send the blank line, the loop as written stops
      there, having written the rewritten client lines before it, as in
      `Forwarded`. */
  lemma HeaderLoopEndsAtBlank(lines: seq<string>, buf0: string)
    requires HasBlank(lines)
    ensures var s := HeaderLoopAsWritten(lines, buf0, FirstBlank(lines));
      && s.buf == Blank
      && s.written == RewriteAll(lines[..FirstBlank(lines)])
      && HeaderLoopAsWritten(lines, buf0, FirstBlank(lines) + 1) == s
  {
    var n := FirstBlank(lines);
    LoopEndsAtBlank(lines, buf0, n, Rewrite);
    var s := HeaderLoopAsWritten(lines, buf0, n);
    assert forall i :: 0 <= i < n ==> s.written[i] == RewriteAll(lines[..n])[i];
  }

  /** How many of the four required headers the client lines do not hold. */
  function MissingCount(head: seq<string>): nat {
    (if Seen(head, ProxyConnection) then 0 else 1) + (if Seen(head, Connection) then 0 else 1) +
    (if Seen(head, Host) then 0 else 1) + (if Seen(head, UserAgent) then 0 else 1)
  }

  /** Where the parts of the block lie: the rewritten client lines, then the
      missing headers, then the blank line. */
  lemma ForwardedLayout(lines: seq<string>, hostname: string, port: string)
    ensures var n := HeadLength(lines);
      var missing := Missing(lines[..n], hostname, port);
      var out := Forwarded(lines, hostname, port);
      && |out| == n + |missing| + 1
      && (forall i :: 0 <= i < n ==> out[i] == Rewrite(lines[i]))
      && (forall j :: 0 <= j < |missing| ==> out[n + j] == missing[j])
      && out[|out| - 1] == Blank
  {
    var n := HeadLength(lines);
    var out := Forwarded(lines, hostname, port);
    forall i | 0 <= i < n ensures out[i] == Rewrite(lines[i]) {
      assert out[i] == RewriteAll(lines[..n])[i];
      assert lines[..n][i] == lines[i];
    }
  }

  /** Each client line before the blank one gives exactly one line, in the same
      place; then come the missing headers and one blank line. */
  lemma ForwardedOnePerLine(lines: seq<string>, hostname: string, port: string)
    ensures var out := Forwarded(lines, hostname, port);
      |out| == HeadLength(lines) + MissingCount(lines[..HeadLength(lines)]) + 1 &&
      (forall i :: 0 <= i < HeadLength(lines) ==> out[i] == Rewrite(lines[i]))
  {
    ForwardedLayout(lines, hostname, port);
  }

  /** The branch rules for one line: a line naming "Proxy-Connection" becomes
      `Proxy-Connection: close` even though it also names "Connection"; other
      lines naming "Connection" become `Connection: close`; then "User-Agent"
      lines become the proxy's own; everything else, `Host` lines included,
      passes unchanged. */
  lemma RewriteRules(line: string)
    ensures Contains(line, "Proxy-Connection") ==> Rewrite(line) == ProxyConnectionClose
    ensures !Contains(line, "Proxy-Connection") && Contains(line, "Connection") ==>
      Rewrite(line) == ConnectionClose
    ensures (!Contains(line, "Proxy-Connection") && !Contains(line, "Connection") &&
      Contains(line, "User-Agent")) ==> Rewrite(line) == UserAgentHeader
    ensures !Contains(line, "Connection") && !Contains(line, "User-Agent") ==> Rewrite(line) == line
  {
    if Contains(line, "Proxy-Connection") {
      var k := Find(line, "Proxy-Connection").value;
      assert line[k + 6..k + 16] == "Connection";
      ContainsAt(line, "Connection", k + 6);
    }
  }

  /** `s` begins with `pat`, so `strstr` finds it. */
  lemma ContainsPrefix(s: string, pat: string)
    requires |pat| <= |s| && s[..|pat|] == pat
    ensures Contains(s, pat)
  {
    assert MatchAt(s, pat, 0);
  }

  /** The proxy's own line for a header kind it replaces. */
  function Replacement(k: Kind): string
    requires k == ProxyConnection || k == Connection || k == UserAgent
  {
    match k
    case ProxyConnection => ProxyConnectionClose
    case Connection => ConnectionClose
    case _ => UserAgentHeader
  }

  /** The proxy's line for a replaced header kind is sent either way: in place
      of a client line of that kind, or among the missing headers. */
  lemma SentEitherWay(lines: seq<string>, hostname: string, port: string, k: Kind)
    requires k == ProxyConnection || k == Connection || k == UserAgent
    ensures Replacement(k) in Forwarded(lines, hostname, port)
  {
    var head := lines[..HeadLength(lines)];
    if Seen(head, k) {
      var i :| 0 <= i < |head| && Classify(head[i]) == k;
      SentInPlace(lines, hostname, port, k, i);
    } else {
      SentAsMissing(lines, hostname, port, k);
    }
  }

  lemma SentInPlace(lines: seq<string>, hostname: string, port: string, k: Kind, i: nat)
    requires k == ProxyConnection || k == Connection || k == UserAgent
    requires i < HeadLength(lines) && Classify(lines[..HeadLength(lines)][i]) == k
    ensures Replacement(k) in Forwarded(lines, hostname, port)
  {
    ForwardedLayout(lines, hostname, port);
    assert lines[..HeadLength(lines)][i] == lines[i];
    assert Forwarded(lines, hostname, port)[i] == Replacement(k);
  }

  lemma SentAsMissing(lines: seq<string>, hostname: string, port: string, k: Kind)
    requires k == ProxyConnection || k == Connection || k == UserAgent
    requires !Seen(lines[..HeadLength(lines)], k)
    ensures Replacement(k) in Forwarded(lines, hostname, port)
  {
    var n := HeadLength(lines);
    var missing := Missing(lines[..n], hostname, port);
    ForwardedLayout(lines, hostname, port);
    var j :| 0 <= j < |missing| && missing[j] == Replacement(k);
    assert Forwarded(lines, hostname, port)[n + j] == Replacement(k);
  }

  /** A line naming "Host" is always sent: the client's, or the synthesized one. */
  lemma ForwardedHasHost(lines: seq<string>, hostname: string, port: string)
    ensures var out := Forwarded(lines, hostname, port);
      exists j :: 0 <= j < |out| && Contains(out[j], "Host")
  {
    var n := HeadLength(lines);
    var head := lines[..n];
    var out := Forwarded(lines, hostname, port);
    if Seen(head, Host) {
      var i :| 0 <= i < n && Classify(head[i]) == Host;
      assert out[i] == RewriteAll(head)[i] == head[i];
    } else {
      var h := HostHeader(hostname, port);
      ContainsPrefix(h, "Host");
      var before := (if Seen(head, ProxyConnection) then [] else [ProxyConnectionClose]) +
        (if Seen(head, Connection) then [] else [ConnectionClose]);
      var after := if Seen(head, UserAgent) then [] else [UserAgentHeader];
      assert Missing(head, hostname, port) == before + [h] + after;
      assert out[n + |before|] == h;
    }
  }

  /** Whatever the client sent, the block written to the origin holds
      `Proxy-Connection: close`, `Connection: close`, the proxy's `User-Agent`
      line and a line naming "Host". */
  lemma ForwardedHasRequiredHeaders(lines: seq<string>, hostname: string, port: string)
    ensures var out := Forwarded(lines, hostname, port);
      ProxyConnectionClose in out && ConnectionClose in out && UserAgentHeader in out &&
      exists j :: 0 <= j < |out| && Contains(out[j], "Host")
  {
    SentEitherWay(lines, hostname, port, ProxyConnection);
    SentEitherWay(lines, hostname, port, Connection);
    SentEitherWay(lines, hostname, port, UserAgent);
    ForwardedHasHost(lines, hostname, port);
  }

  /** The block ends in exactly one blank line: no line before the last is blank. */
  lemma ForwardedSingleBlank(lines: seq<string>, hostname: string, port: string)
    ensures var out := Forwarded(lines, hostname, port);
      out[|out| - 1] == Blank && Blank !in out[..|out| - 1]
  {
    var n := HeadLength(lines);
    var out := Forwarded(lines, hostname, port);
    ForwardedOnePerLine(lines, hostname, port);
    forall j | 0 <= j < |out| - 1 ensures out[j] != Blank {
      if j < n {
        assert lines[..n][j] == lines[j];
        assert out[j] == Rewrite(lines[j]);
      } else {
        assert out[j] in Missing(lines[..n], hostname, port);
        assert |HostHeader(hostname, port)| > 2;
      }
    }
  }

  /** No client value of a connection or user-agent header reaches the origin:
      every forwarded client line that names "Connection" or "User-Agent" is
      one of the proxy's three fixed lines. */
  lemma ForwardedReplacesClientValues(lines: seq<string>, hostname: string, port: string)
    ensures var out := Forwarded(lines, hostname, port);
      forall i :: (0 <= i < HeadLength(lines) &&
        (Contains(out[i], "Connection") || Contains(out[i], "User-Agent"))) ==>
        out[i] == ProxyConnectionClose || out[i] == ConnectionClose || out[i] == UserAgentHeader
  {
    ForwardedOnePerLine(lines, hostname, port);
    forall i | 0 <= i < HeadLength(lines) ensures
      var out := Forwarded(lines, hostname, port);
      (Contains(out[i], "Connection") || Contains(out[i], "User-Agent")) ==>
        out[i] == ProxyConnectionClose || out[i] == ConnectionClose || out[i] == UserAgentHeader
    {
      RewriteRules(lines[i]);
    }
  }

  /** A client that sends no header lines gets all four required headers
      added, in order, then the blank line. */
  lemma ForwardedNoHeaders(hostname: string, port: string)
    ensures Forwarded([Blank], hostname, port) ==
      [ProxyConnectionClose, ConnectionClose, HostHeader(hostname, port), UserAgentHeader, Blank]
  {
    assert HeadLength([Blank]) == 0;
    assert [Blank][..0] == [];
    assert RewriteAll([]) == [];
  }
}
