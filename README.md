# A model of the webproxy-lab HTTP/1.0 caching proxy

`proxy.c` is a small multi-threaded HTTP/1.0 forwarding proxy. For each
client connection, `doit` does the following:

- reads the request line and splits it with `sscanf("%s %s")`;
- cuts the absolute URI into host name, port and path (`parse_uri`);
- rejects every method but GET and HEAD with a 501 page (`clienterror`);
- serves a path found in the object cache straight from the cache.

Otherwise `doit` contacts the origin server, sends it the request line
`METHOD path HTTP/1.0`, and relays the client's headers. While relaying, it
replaces the connection and user-agent headers by its own and adds the
required headers the client left out (`read_requesthdrs`). It then copies the
origin's response headers back to the client, reading the `Content-length`
header on the way, and sends `content_length` bytes of body. Finally it hands
the body to the cache when it is no larger than `MAX_OBJECT_SIZE`.

This project models that per-request logic in Dafny and proves what the code
promises about it.

- `cstring.dfy` (module `CString`) holds the C library routines the code
  relies on: `strstr` (`Find`), `strchr` (`IndexOf`), `isspace`,
  `strcasecmp`, `atoi`, `%d` and the `%s %s` conversion of `sscanf`
  (`ScanTwo`).
  - Strings are `seq<char>` with one character per byte. Lines are taken
    to hold no NUL byte, so `strlen(s)` is `|s|` and `strstr`, `strcmp` and
    `strlen` see the whole line (see "## Left out").
- `uri.dfy` (module `Uri`) is `parse_uri`, both as written (`ParseUri`) and
  corrected (`ParseUriFixed`); see "## Findings".
- `headers.dfy` (module `Headers`) is `read_requesthdrs`.
  - It is a method with the source's loop and four flags (`RelayRequestHeaders`).
    The loop also stops at end of stream; see "## Findings".
  - It is proved against the function `Forwarded`, which gives the lines
    written to the origin.
  - The loop as written, which stops only at the blank line, is the function
    `HeaderLoopAsWritten`.
- `error_page.dfy` (module `ErrorPage`) is `clienterror`. The four buffers it
  writes are given as a function.
- `proxy.dfy` (module `Proxy`) is `doit`.
  - Socket and cache calls become events of a trace: writes to a descriptor,
    the connection attempt, the cache calls, `free` and `Close`.
  - The method `Doit` follows the source statement by statement, except that
    it uses the corrected `parse_uri`, the corrected header loops and the
    corrected body relay, which sends only the bytes read (see "## Left out"
    and "## Findings"). Its response loop is
    `RelayResponseHeaders`; the loop as written is `ResponseLoopAsWritten`.
  - `Doit` is proved equal to the function `Handle`. The properties are lemmas
    about `Handle`'s trace: what each party sees (`DataTo`) and how many
    connections and cache uses occur (`Count`).

## Model

| member | source | states |
|---|---|---|
| CString.Find | proxy.c:179 | `strstr`: the index returned is an occurrence and no occurrence lies before it; `None` only when the pattern occurs nowhere |
| CString.IndexOf | proxy.c:180-181 | `strchr`: the index returned holds the character and no earlier position does; `None` only when the character is absent |
| CString.TakeToken | proxy.c:80 | the `%s` conversion: the token and the remainder re-join to the input, the token has no white space, and the remainder is empty or starts with white space |
| CString.ScanTwo | proxy.c:80 | `sscanf("%s %s")` filling both buffers gives two non-empty words free of white space; which words, and when, is stated by `ScanTwoWords` and `ScanTwoFillsBoth` |
| CString.ScanTwoWords | proxy.c:80 | any leading white space, a word, a non-empty run of white space, a second word and a tail that is empty or starts with white space read back as exactly those two words |
| CString.ScanTwoFillsBoth | proxy.c:80 | both buffers are filled exactly when the line holds two words (a non-space character, later a white space, later again a non-space character); otherwise the result is `None` |
| CString.ScanTwoOf | proxy.c:80 | two space-separated words followed by white space are read back as exactly those words |
| CString.DecimalRoundTrip | proxy.c:167 | the digits `%d` prints for `n` denote `n` |
| CString.AtoiOfDecimal | proxy.c:122 | `Atoi`: `atoi` of a space, a `%d`-printed number and a non-digit tail is that number |
| CString.EqualsIgnoreCaseLower | proxy.c:87 | `EqualsIgnoreCase`: `strcasecmp(a, b) == 0` exactly when `a` and `b` are equal after `tolower` on every character |
| Uri.HostStart | proxy.c:179 | the host starts right after the first `//`: no `//` lies before it, and the result is 0 exactly when the URI holds no `//` |
| Uri.SplitTarget | proxy.c:180-196 | after the host start, as written: the path starts at the first `/`; with a `:`, host name `:` port path re-join to the text; without one, the port is "80" and host name and path re-join to it |
| Uri.ParseUri | proxy.c:176-197 | `parse_uri` as written, on the URIs it handles: the path begins with `/`, the host name has no `/` or `:`, and the parts re-join to the text after `//` (port "80" when none is given) |
| Uri.SplitTargetFixed | proxy.c:180-196 | corrected splitting: a parse error exactly when there is no `/`; the port is looked for only before the path, and the parts re-join as above |
| Uri.ParseUriFixed | proxy.c:176-197 | corrected `parse_uri`: an error exactly when no `/` follows the host start; otherwise the path starts with `/` and the host name holds no `/` or `:` |
| Uri.SplitTargetFixedAgrees | proxy.c:180-196 | wherever the code as written is defined, the corrected splitting gives the same parts |
| Uri.ParseUriFixedAgrees | proxy.c:176-197 | wherever `parse_uri` as written is defined, the corrected one gives the same parts |
| Uri.HostStartAfterScheme | proxy.c:179 | for `http://x` the host starts at index 7 and the rest is `x` |
| Uri.SplitTargetRoundTrip | proxy.c:184-188 | `host:port/path` splits back into exactly `host`, `port` and `/path` |
| Uri.ParseUriRoundTrip | proxy.c:184-188 | `http://host:port/path` parses back into exactly its host, port and path, as written and corrected |
| Uri.SplitTargetDefaultPort | proxy.c:189-196 | `host/path` with no `:` splits into `host`, port "80" and `/path` |
| Uri.ParseUriDefaultPort | proxy.c:189-196 | `http://host/path` parses (corrected) to `host`, port "80", `/path`; as written too when the path has no `:` |
| Uri.ColonInPathUnhandled | proxy.c:180-186 | a URI with no port and a `:` in its path is outside what the code as written handles, while the corrected parse gives host, port "80" and the whole path |
| Uri.ParseUriExampleWithPort | proxy.c:184-188 | `http://example.com:8080/a/b` gives `example.com`, `8080`, `/a/b` |
| Uri.ParseUriExampleDefaultPort | proxy.c:189-196 | `http://example.com/a` gives `example.com`, `80`, `/a` |
| Uri.ParseUriExampleColonInPath | proxy.c:180-186 | `http://example.com/a:b` is outside what the code as written handles; corrected it gives `example.com`, `80`, `/a:b` |
| Headers.FirstBlank | proxy.c:208-209 | the position of the blank line that ends a header block: a blank line, with none before it |
| Headers.HeadLength | proxy.c:208-233 | the number of client lines the header loop handles: none of them blank, and followed by the blank line unless the stream ends there |
| Headers.RelayRequestHeaders | proxy.c:201-262 | the loop with four flags starting false writes to the origin exactly `Forwarded`: each client line rewritten, then the missing required headers, then one blank line; it also stops at end of stream |
| Headers.HeaderLoopNeverEnds | proxy.c:208-233 | the loop as written, on a client stream without a blank line, still runs after any number of passes; once the stream has ended the buffer holds the last line as the `sprintf` rewrote it, and each pass re-sends that line |
| Headers.RewriteIdempotent | proxy.c:211-232 | rewriting a line the loop has already rewritten into the buffer gives the same line, and no line but the blank one is rewritten to the blank line |
| Headers.HeaderLoopEndsAtBlank | proxy.c:208-233 | on a client stream with a blank line, the loop as written stops at it, having written exactly the rewritten lines before it, as `Forwarded` does |
| Headers.ForwardedOnePerLine | proxy.c:208-233 | in `Forwarded`, each client line before the blank one gives exactly one line in the same place, and the block has as many lines as the client's plus the missing headers plus one |
| Headers.RewriteRules | proxy.c:211-229 | `Rewrite` of one line: a line naming "Proxy-Connection" becomes `Proxy-Connection: close` even though it also names "Connection"; other "Connection" lines become `Connection: close`; "User-Agent" lines become the proxy's own; all other lines, `Host` included, pass unchanged |
| Headers.ForwardedHasHost | proxy.c:226-252 | a line naming "Host" always reaches the origin: the client's, or `Host: <hostname>:<port>` |
| Headers.ForwardedHasRequiredHeaders | proxy.c:236-257 | whatever the client sent, the origin receives `Proxy-Connection: close`, `Connection: close`, the proxy's User-Agent line and a Host line |
| Headers.ForwardedSingleBlank | proxy.c:259-260 | the block ends in the blank line and holds no other blank line |
| Headers.ForwardedReplacesClientValues | proxy.c:211-225 | every forwarded client line that names "Connection" or "User-Agent" is one of the proxy's three fixed lines |
| Headers.Missing | proxy.c:234-257 | at most four lines are added; `Proxy-Connection: close`, `Connection: close`, `Host: <hostname>:<port>` and the User-Agent line are each added exactly when no client line took that branch |
| Headers.ForwardedNoHeaders | proxy.c:236-260 | a client that sends only the blank line has the origin receive, in order, `Proxy-Connection: close`, `Connection: close`, `Host: <hostname>:<port>`, the proxy's User-Agent line and the blank line |
| ErrorPage.ErrorLengthMatchesBody | proxy.c:153-171 | the `Content-length` header of the error page, read with `atoi` after its `:`, equals the length of the body written after it |
| ErrorPage.ErrorStatusParses | proxy.c:163 | the status line reads back with `%s %s` as `HTTP/1.0` and the status code |
| ErrorPage.ErrorPageNamesCause | proxy.c:148-172 | `ErrorResponse`, the whole of `clienterror`, writes four buffers: status line, content type, length header and body; the body names the status code with its short message and the long message with its cause |
| Proxy.Doit | proxy.c:66-144 | `doit` statement by statement produces exactly the trace `Handle` gives for the same request, client stream, cache contents, origin reachability and reply |
| Proxy.Handle | proxy.c:66-144 | every request produces some event, and the first is a connection attempt exactly when the method is GET or HEAD and the path is not cached |
| Proxy.PartsOfAsWritten | proxy.c:80-81 | wherever `parse_uri` as written is defined, the host, port and path `doit` works with are the ones it produces |
| Proxy.RequestLine | proxy.c:84 | the line `METHOD path HTTP/1.0` sent to the origin reads back with `%s %s` as the method and the path |
| Proxy.MethodGateIgnoresCase | proxy.c:87 | `IsGetOrHead`: a method passes the gate exactly when its lower-case form is `get` or `head` |
| Proxy.RelayResponseHeaders | proxy.c:117-124 | the response loop writes the origin's header lines, up to and including the first blank one (all of them if the origin closes first), to the client in order, and leaves `content_length` at the value of the last "Content-length" line (0 if none) |
| Proxy.ResponseLoopNeverEnds | proxy.c:117-124 | the response loop as written, on an origin stream without a blank line, still runs after any number of passes, and once the stream has ended each pass re-sends the last line to the client |
| Proxy.ResponseLoopEndsAtBlank | proxy.c:117-124 | on an origin stream with a blank line, the response loop as written stops right after it, having relayed exactly `ReplyHead` |
| Proxy.ReplyHeadEndsAtBlank | proxy.c:117-124 | the head relayed ends in the first blank line and holds no other, or is the whole reply when it holds no blank line |
| Proxy.LastWith | proxy.c:118-122 | the line found names the pattern and no later line does; `None` when no line names it |
| Proxy.ContentLengthLastWins | proxy.c:118-122 | `ContentLength`: `content_length` is the number after the `:` of the last line naming "Content-length" |
| Proxy.ContentLengthOfHeader | proxy.c:121-122 | a `Content-length: N` header followed by the blank line gives `content_length` N |
| Proxy.ContentLengthAbsent | proxy.c:116-122 | with no "Content-length" line among the response headers, `content_length` is 0 |
| Proxy.LengthLineValue | proxy.c:121-122 | `ValueAfterColon`, that is `atoi(strchr(line, ':') + 1)`, of `Content-length: N` is N |
| Proxy.MethodRejected | proxy.c:87-91 | a method other than GET or HEAD, in any case, gets the 501 page on the client and nothing else: no connection, no cache use, nothing to the origin |
| Proxy.MethodGate | proxy.c:87-91 | a request is rejected exactly when its trace neither connects to an origin nor uses the cache |
| Proxy.CacheProbe | proxy.c:94-111 | a cached path is sent from the cache and marked used, with no connection and no write by `doit`; any other path gives exactly one connection attempt, first of all, to the request's host and port, and no use of a cached object |
| Proxy.ConnectFailure | proxy.c:105-110 | when the origin is unreachable the 502 page goes to the failed descriptor, so neither the client nor an origin receives anything |
| Proxy.RequestForwarded | proxy.c:84-114 | the origin receives `METHOD path HTTP/1.0` (which `%s %s` reads back as the method and the path) and then the rewritten header block |
| Proxy.PathHasNoSpace | proxy.c:80-81 | the path parsed from a `%s` token has no white space |
| Proxy.ResponseRelayed | proxy.c:118-129 | the client receives every response header line up to and including the first blank one (all of them when there is none), in order, then the body read: the first `content_length` bytes the origin sent, or all of them when it sent fewer |
| Proxy.Received | proxy.c:127-128 | the body `Rio_readnb` reads for `content_length` n: a prefix of what the origin sends, of n bytes or else all of it |
| Proxy.BodyAsWritten | proxy.c:127-138 | as written, the buffer sent and cached holds exactly n bytes, and begins with the bytes read |
| Proxy.ShortBodyLeaksHeap | proxy.c:127-138 | as written, what is sent and cached is the body read exactly when the origin sent all n bytes; when it sent fewer, the unread part of the `malloc` block follows it |
| Proxy.EmptyBodyRelayed | proxy.c:116-143 | an origin that closes after the header block, as for a HEAD request, has the client receive the head and an empty body, and the empty body is cached exactly when `content_length <= MAX_OBJECT_SIZE` |
| Proxy.SizeGate | proxy.c:131-143 | the body is handed to the cache exactly when `content_length <= MAX_OBJECT_SIZE` and freed exactly otherwise; the origin connection is closed last |
| Proxy.RelayData | proxy.c:111-129 | in the relaying branch the origin sees the request line and forwarded headers, the client the response head and body, and the failed descriptor nothing |
| Proxy.RelayConnects | proxy.c:105-143 | the relaying branch connects once, first, to the request's host and port, never uses a cached object, and ends with `Close` |
| Proxy.RelayCaches | proxy.c:131-141 | in the relaying branch, `write_cache` happens exactly when the body may be cached and `free` exactly otherwise |
| Proxy.GetRequestAccepted | proxy.c:76-101 | `GET http://<host><path> HTTP/1.0`, for a host without `/`, `:` or white space and a path starting with `/` and free of white space, is read as method GET and that URI, then as host, port 80 and path; it passes the method gate and, when the path is not cached, goes on to connect; the URI is one `parse_uri` as written handles exactly when the path holds no `:` |
| Proxy.GetRequestForwarded | proxy.c:76-114 | for that request and a client sending no headers, the origin receives `GET <path> HTTP/1.0` and then exactly the four required headers and the blank line |
| Proxy.GetRequestAnswered | proxy.c:116-143 | when the origin answers that request with `Content-length: n`, the blank line and a body, the client receives those two lines and the first `n` bytes of the body, and these bytes are cached exactly when `n <= MAX_OBJECT_SIZE` |

## Left out

- `main` and `thread` are not part of this model. They hold the accept loop, thread creation and `SIGPIPE` handling: I/O and concurrency.
- `printf` logging is left out, in `main` and in `doit` (the request line at proxy.c:77): it writes only to the proxy's own terminal.
- NUL bytes in the client's header lines and in the origin's reply lines are not modelled: every line is taken to hold none. C's `strstr` (proxy.c:121, 211-226), `strcmp` (proxy.c:118, 209) and `strlen` (proxy.c:123, 231) stop at the first NUL, so for a line holding one the source tests and forwards only the part before it, while the model (`Classify`, `Rewrite`, `Forwarded`, `ReplyHead`, `Doit`) tests and forwards the whole line.
- The object cache is not modelled (its `find_cache`, `send_cache`, `read_cache` and `write_cache` live in `cache.c`, which is not part of this model). It is a set of cached paths (`cached`), and the calls appear only as trace events. Its LRU order, eviction, size accounting and locking are not modelled.
- Sockets and Rio buffered I/O are left out.
  - The client's header lines, the origin's reply lines and body, and whether `Open_clientfd` succeeds are inputs.
  - Each `Rio_writen` is a `Write` event.
  - `MAXLINE` truncation of long lines is not modelled.
- `MAX_OBJECT_SIZE` is defined in `cache.h`, which is not part of this model, so it is the parameter `maxObjectSize`.
- Proxy.Doit requires that:
  - the request line has two words (otherwise `sscanf` leaves a buffer unset);
  - a `/` follows the host (otherwise `strcpy(path, NULL)`);
  - every "Content-length" line holds a `:` (otherwise `strchr` returns NULL);
  - the announced length is not negative. The source passes it to `malloc` unchecked.
- Proxy.Doit: the target is parsed with the corrected `ParseUriFixed`, which equals `parse_uri` as written wherever the latter is defined (`PartsOfAsWritten`). For a target whose first `:` lies in the path, such as `http://example.com/a:b`, the code as written passes a negative length to `strncpy` at proxy.c:186 before the method gate runs. There the model gives the corrected trace instead: a normal relay, or the 501 page for another method.
- Proxy.Doit: both loops over header lines are the corrected ones, which also stop at end of stream (see "## Findings"). Where the source's loops never end, on a stream that closes before its blank line, the model gives the corrected trace.
- Proxy.Doit: the body sent to the client and cached is the one read (`Received`). When the origin sends fewer bytes than `content_length` announces, as it does for every HEAD request with a non-zero length, the code as written sends and caches the unread rest of the `malloc` block too (see "## Findings").
- `Rio_readlineb` is `ReadLine`. Its end-of-stream behaviour (it returns 0 and leaves the buffer as it was) is that of `rio_readlineb` in `csapp.c`, which is not part of this model.
- CString.Atoi: `int` overflow of `atoi` on long digit strings is not modelled; the value is unbounded.
- Proxy.RelayResponseHeaders: the source reads `response_buf` and `content_length` before assigning them. The model starts the loop with an empty line, so it reads at least one line, and starts `content_length` at 0, which is the value kept when the origin sends no "Content-length" line.
- Headers.RelayRequestHeaders: the four flags, which the source leaves uninitialised, start false.
- The "Content-length" test is case-sensitive `strstr`, as the code does it. A header spelled `Content-Length` is not recognised. A case-insensitive scan would be the general HTTP reading.
- Proxy.ConnectFailure: the 502 page is written to the negative descriptor `Open_clientfd` returned (proxy.c:108), as the code does. The client is sent nothing. A page to the client would be the evident intent, but the model keeps the code's behaviour.
- `is_local_test` is 1 (proxy.c:13), so the model fixes it to true. This covers the default port "80", the host connected to and the host named in the added `Host` header. The `localhost` connection target appears only as the other branch of `OriginHost`. The `8000` default port and the `localhost` Host header of the other setting are not modelled.
- The pin emoji at the start of the 502 message is written as its four UTF-8 bytes.
- `malloc`, `calloc`, `free` and `strncpy` termination are left out. `free` and the cache write appear only as events. The heap bytes a `malloc` block holds before it is written appear only as the `heap` input of `BodyAsWritten`.

## Findings

| source | as written | input that shows it | evidently intended | confidence | as-written member | corrected member |
|---|---|---|---|---|---|---|
| proxy.c:180-186 | `parse_uri` looks for the port's `:` anywhere after the host start, so a `:` in the path is taken for a port separator placed after the path's `/`, and `strncpy` gets the negative length `path_ptr - port_ptr - 1` | `http://example.com/a:b` | look for the `:` only between the host start and the path's `/`; here host `example.com`, port `80`, path `/a:b` | not executed | Uri.ColonInPathUnhandled | Uri.ParseUriFixed |
| proxy.c:208-233 | the header loop tests only for the blank line; at end of stream `Rio_readlineb` leaves the buffer as it was, so the last line is rewritten and sent to the origin again on every pass, forever | a client that sends `GET http://example.com/ HTTP/1.0`, then `Accept: */*`, then closes without the blank line | leave the loop at end of stream too, then add the missing headers and the blank line | not executed | Headers.HeaderLoopNeverEnds | Headers.RelayRequestHeaders |
| proxy.c:117-124 | the response loop tests only for the blank line; at end of stream the buffer is left as it was, so the last line is sent to the client again on every pass, forever | an origin that answers `HTTP/1.0 200 OK` and closes without the blank line | leave the loop at end of stream too | not executed | Proxy.ResponseLoopNeverEnds | Proxy.RelayResponseHeaders |
| proxy.c:127-138 | `Rio_writen` sends, and `write_cache` keeps, all `content_length` bytes of the `malloc` block, whatever `Rio_readnb` read into it; when the origin sends fewer bytes, the rest is uninitialised heap | a HEAD request, answered with `Content-length: 100`, the blank line and no body | send and cache only the bytes read | not executed | Proxy.ShortBodyLeaksHeap | Proxy.Received |
