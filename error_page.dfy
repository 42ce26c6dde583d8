/**
 `clienterror` (proxy.c:148-172): the minimal HTML error response the proxy
 sends, as the four buffers it writes in order.
 */
module ErrorPage {
  import opened CString

  /** The HTML body, built by the five `sprintf` appends. */
  function ErrorBody(cause: string, errnum: string, shortmsg: string, longmsg: string): string {
    "<html><title>Tiny Error</title>" +
    "<body bgcolor=ffffff>\r\n" +
    errnum + ": " + shortmsg + "\r\n" +
    "<p>" + longmsg + ": " + cause + "\r\n" +
    "<hr><em>The Tiny Web server</em>\r\n"
  }

  function StatusLine(errnum: string, shortmsg: string): string {
    "HTTP/1.0 " + errnum + " " + shortmsg + "\r\n"
  }

  const ContentTypeHtml: string := "Content-type: text/html\r\n"

  /** The length header, which also carries the blank line ending the headers. */
  function LengthHeader(n: nat): string {
    "Content-length: " + Decimal(n) + "\r\n\r\n"
  }

  /** The four buffers `clienterror` writes: status line, content type,
      length header, body. */
  function ErrorResponse(cause: string, errnum: string, shortmsg: string, longmsg: string): seq<string> {
    var body := ErrorBody(cause, errnum, shortmsg, longmsg);
    [StatusLine(errnum, shortmsg), ContentTypeHtml, LengthHeader(|body|), body]
  }

  /** The page is the four buffers in order, and its body names the status
      code with its short message and the long message with its cause. */
  lemma ErrorPageNamesCause(cause: string, errnum: string, shortmsg: string, longmsg: string)
    ensures var w := ErrorResponse(cause, errnum, shortmsg, longmsg);
      && |w| == 4
      && w[0] == StatusLine(errnum, shortmsg) && w[1] == ContentTypeHtml
      && w[3] == ErrorBody(cause, errnum, shortmsg, longmsg)
      && Contains(w[3], errnum + ": " + shortmsg + "\r\n")
      && Contains(w[3], "<p>" + longmsg + ": " + cause + "\r\n")
  {
    var body := ErrorBody(cause, errnum, shortmsg, longmsg);
    var head := "<html><title>Tiny Error</title>" + "<body bgcolor=ffffff>\r\n";
    var status := errnum + ": " + shortmsg + "\r\n";
    var detail := "<p>" + longmsg + ": " + cause + "\r\n";
    var tail := "<hr><em>The Tiny Web server</em>\r\n";
    assert body == head + status + detail + tail;
    var i := |head|;
    var j := i + |status|;
    assert body[i..j] == status;
    assert body[j..j + |detail|] == detail;
    ContainsAt(body, status, i);
    ContainsAt(body, detail, j);
  }

  /** The length header read the way the proxy reads response headers
      (`atoi` after the first `:`) gives the length of the body sent after it. */
  lemma ErrorLengthMatchesBody(cause: string, errnum: string, shortmsg: string, longmsg: string)
    ensures var w := ErrorResponse(cause, errnum, shortmsg, longmsg);
      ':' in w[2] && ValueAfterColon(w[2]) == |w[3]|
  {
    var w := ErrorResponse(cause, errnum, shortmsg, longmsg);
    var n := |w[3]|;
    var d := Decimal(n);
    var name := "Content-length";
    assert w[2] == name + [':'] + (" " + d + "\r\n\r\n");
    assert ':' !in name;
    assert w[2][..|name|] == name;
    IndexOfIs(w[2], ':', |name|);
    assert w[2][|name| + 1..] == " " + d + "\r\n\r\n";
    AtoiOfDecimal(n, "\r\n\r\n");
  }

  /** The status line reads back, with `%s %s`, as the protocol version and the
      status code. */
  lemma ErrorStatusParses(errnum: string, shortmsg: string)
    requires errnum != [] && NoSpace(errnum)
    ensures ScanTwo(StatusLine(errnum, shortmsg)) == Some(("HTTP/1.0", errnum))
  {
    var version := "HTTP/1.0";
    assert NoSpace(version);
    assert StatusLine(errnum, shortmsg) == version + " " + errnum + (" " + shortmsg + "\r\n");
    ScanTwoOf(version, errnum, " " + shortmsg + "\r\n");
  }
}
