/**
 `parse_uri` (proxy.c:176-197): cuts an absolute-form request target
 `http://host[:port]/path` into host name, port and path by locating the first
 `//`, the first `:` and the first `/` after it.
 */
module Uri {
  import opened CString

  /** The three buffers `parse_uri` fills in. */
  datatype UriParts = UriParts(hostname: string, port: string, path: string)

  /** The port used when the URI names none: "80", since `is_local_test` is 1. */
  const DefaultPort: string := "80"

  /** Where the host name begins: just after the first `//`, or at the start
      of the URI when there is none. */
  function HostStart(uri: string): (h: nat)
    ensures h <= |uri|
    ensures h == 0 <==> forall j :: !MatchAt(uri, "//", j)
    ensures h != 0 ==> 2 <= h && MatchAt(uri, "//", h - 2) && uri[h - 2..h] == "//"
    ensures h != 0 ==> forall j :: 0 <= j < h - 2 ==> !MatchAt(uri, "//", j)
  {
    match Find(uri, "//")
    case Some(i) => i + 2
    case None => 0
  }

  /** What follows the host start: `[host][:port]/path`. */
  function Rest(uri: string): string {
    uri[HostStart(uri)..]
  }

  /** The targets the code as written handles: a `/` (otherwise
      `strcpy(path, NULL)`), and no `:` unless the first one comes before that
      `/` (otherwise the port length `path_ptr - port_ptr - 1` is negative). */
  predicate TargetWellFormed(rest: string) {
    IndexOf(rest, '/').Some? &&
    (IndexOf(rest, ':').Some? ==> IndexOf(rest, ':').value < IndexOf(rest, '/').value)
  }

  predicate UriWellFormed(uri: string) {
    TargetWellFormed(Rest(uri))
  }

  /** The splitting `parse_uri` does after the host start, as written. The path
      is everything from the first `/`; with a `:` the host name and port are
      what lies around it, so that re-joining them with `:` gives back `rest`;
      without one the port is the default and host name and path re-join to
      `rest`. */
  function SplitTarget(rest: string): (p: UriParts)
    requires TargetWellFormed(rest)
    ensures p.path != [] && p.path[0] == '/'
    ensures '/' !in p.hostname && ':' !in p.hostname && '/' !in p.port
    ensures ':' in rest ==> p.hostname + ":" + p.port + p.path == rest
    ensures ':' !in rest ==> p.port == DefaultPort && p.hostname + p.path == rest
  {
    var slash := IndexOf(rest, '/').value;
    match IndexOf(rest, ':')
    case Some(colon) =>
      SplitAround(rest, colon, slash);
      UriParts(rest[..colon], rest[colon + 1..slash], rest[slash..])
    case None =>
      assert rest[..slash] + rest[slash..] == rest;
      UriParts(rest[..slash], DefaultPort, rest[slash..])
  }

  /** `parse_uri` as written. */
  function ParseUri(uri: string): (p: UriParts)
    requires UriWellFormed(uri)
    ensures p.path != [] && p.path[0] == '/'
    ensures '/' !in p.hostname && ':' !in p.hostname && '/' !in p.port
    ensures ':' in Rest(uri) ==> p.hostname + ":" + p.port + p.path == Rest(uri)
    ensures ':' !in Rest(uri) ==> p.port == DefaultPort && p.hostname + p.path == Rest(uri)
  {
    SplitTarget(Rest(uri))
  }

  /** Cutting `rest` at a `:` before its first `/`: the pieces hold no `/`,
      the first holds no `:`, and they re-join to `rest`. */
  lemma SplitAround(rest: string, colon: nat, slash: nat)
    requires colon < slash < |rest|
    requires rest[slash] == '/' && '/' !in rest[..slash]
    requires rest[colon] == ':' && ':' !in rest[..colon]
    ensures rest[..colon] + ":" + rest[colon + 1..slash] + rest[slash..] == rest
    ensures '/' !in rest[..colon] && '/' !in rest[colon + 1..slash]
  {
    assert rest[..colon] == rest[..slash][..colon];
    assert rest[colon + 1..slash] == rest[..slash][colon + 1..];
  }

  /** The splitting with the port searched for only before the first `/`, so
      that a `:` inside the path is left to the path. A target with no `/` is
      a parse error. */
  function SplitTargetFixed(rest: string): (r: Option<UriParts>)
    ensures r.None? <==> '/' !in rest
    ensures r.Some? ==> r.value.path != [] && r.value.path[0] == '/'
    ensures r.Some? ==> '/' !in r.value.hostname && ':' !in r.value.hostname && '/' !in r.value.port
    ensures r.Some? ==> r.value.path == rest[IndexOf(rest, '/').value..]
    ensures r.Some? && ':' in rest[..IndexOf(rest, '/').value] ==>
      r.value.hostname + ":" + r.value.port + r.value.path == rest
    ensures r.Some? && ':' !in rest[..IndexOf(rest, '/').value] ==>
      r.value.port == DefaultPort && r.value.hostname + r.value.path == rest
  {
    match IndexOf(rest, '/')
    case None => None
    case Some(slash) => Some(SplitAuthority(rest, slash))
  }

  /** The corrected splitting once the path's `/` is found at `slash`: the
      port is looked for only in the authority before it. */
  function SplitAuthority(rest: string, slash: nat): (p: UriParts)
    requires slash < |rest| && rest[slash] == '/' && '/' !in rest[..slash]
    ensures p.path == rest[slash..]
    ensures '/' !in p.hostname && ':' !in p.hostname && '/' !in p.port
    ensures ':' in rest[..slash] ==> p.hostname + ":" + p.port + p.path == rest
    ensures ':' !in rest[..slash] ==> p.port == DefaultPort && p.hostname + p.path == rest
  {
    var authority := rest[..slash];
    match IndexOf(authority, ':')
    case Some(colon) =>
      assert authority[..colon] == rest[..colon];
      SplitAround(rest, colon, slash);
      UriParts(rest[..colon], rest[colon + 1..slash], rest[slash..])
    case None =>
      assert authority + rest[slash..] == rest;
      UriParts(authority, DefaultPort, rest[slash..])
  }

  /** `parse_uri` with the correction: the port is looked for only in the
      authority, and a URI with no `/` after the host start is a parse error. */
  function ParseUriFixed(uri: string): (r: Option<UriParts>)
    ensures r.None? <==> '/' !in Rest(uri)
    ensures r.Some? ==> r.value.path != [] && r.value.path[0] == '/'
    ensures r.Some? ==> '/' !in r.value.hostname && ':' !in r.value.hostname && '/' !in r.value.port
  {
    SplitTargetFixed(Rest(uri))
  }

  /** Wherever the code as written is defined, the corrected splitting agrees with it. */
  lemma SplitTargetFixedAgrees(rest: string)
    requires TargetWellFormed(rest)
    ensures SplitTargetFixed(rest) == Some(SplitTarget(rest))
  {
    var slash := IndexOf(rest, '/').value;
    if ':' in rest {
      var c := IndexOf(rest, ':').value;
      assert rest[..slash][c] == ':';
      assert rest[..slash][..c] == rest[..c];
      IndexOfIs(rest[..slash], ':', c);
    } else {
      assert ':' !in rest[..slash] by {
        forall j | 0 <= j < slash ensures rest[..slash][j] != ':' {
          assert rest[j] in rest;
        }
      }
    }
  }

  lemma ParseUriFixedAgrees(uri: string)
    requires UriWellFormed(uri)
    ensures ParseUriFixed(uri) == Some(ParseUri(uri))
  {
    SplitTargetFixedAgrees(Rest(uri));
  }

  /** The scheme prefix ends in the first `//`, so the host starts right after it. */
  lemma HostStartAfterScheme(x: string)
    ensures HostStart("http://" + x) == 7 && Rest("http://" + x) == x
  {
    var u := "http://" + x;
    assert u[5..7] == "//";
    forall j | 0 <= j < 5 ensures !MatchAt(u, "//", j) {
      assert u[j + 1] != '/' || u[j] != '/';
    }
    FindIs(u, "//", 5);
  }

  /** The first position of `c` in `a + [c] + b` when `a` holds no `c`. */
  lemma IndexOfAfter(a: string, c: char, b: string)
    requires c !in a
    ensures IndexOf(a + [c] + b, c) == Some(|a|)
  {
    var s := a + [c] + b;
    assert s[..|a|] == a;
    IndexOfIs(s, c, |a|);
  }

  /** A target re-joined from host name, explicit port and path splits back
      into them, as written and corrected. */
  lemma SplitTargetRoundTrip(host: string, port: string, path: string)
    requires '/' !in host && ':' !in host && '/' !in port
    requires path != [] && path[0] == '/'
    ensures TargetWellFormed(host + ":" + port + path)
    ensures SplitTarget(host + ":" + port + path) == UriParts(host, port, path)
    ensures SplitTargetFixed(host + ":" + port + path) == Some(UriParts(host, port, path))
  {
    var rest := host + ":" + port + path;
    IndexOfAfter(host, ':', port + path);
    assert host + [':'] + (port + path) == rest;
    var pre := host + ":" + port;
    assert '/' !in pre by {
      forall j | 0 <= j < |pre| ensures pre[j] != '/' {
        if j < |host| { assert pre[j] == host[j]; }
        else if j > |host| { assert pre[j] == port[j - |host| - 1]; }
      }
    }
    IndexOfAfter(pre, '/', path[1..]);
    assert pre + ['/'] + path[1..] == rest;
    var slash := |host| + 1 + |port|;
    assert rest[..|host|] == host;
    assert rest[|host| + 1..slash] == port;
    assert rest[slash..] == path;
    SplitTargetFixedAgrees(rest);
  }

  /** Re-joining the three parts (with an explicit port) into an absolute URI
      and parsing it gives the parts back, as written and corrected. */
  lemma ParseUriRoundTrip(host: string, port: string, path: string)
    requires '/' !in host && ':' !in host && '/' !in port
    requires path != [] && path[0] == '/'
    ensures UriWellFormed("http://" + host + ":" + port + path)
    ensures ParseUri("http://" + host + ":" + port + path) == UriParts(host, port, path)
    ensures ParseUriFixed("http://" + host + ":" + port + path) == Some(UriParts(host, port, path))
  {
    var rest := host + ":" + port + path;
    assert "http://" + host + ":" + port + path == "http://" + rest;
    HostStartAfterScheme(rest);
    SplitTargetRoundTrip(host, port, path);
  }

  /** Without a port the corrected splitting returns the host name, the
      default port and the path, whatever the path holds. */
  lemma SplitTargetFixedDefaultPort(host: string, path: string)
    requires '/' !in host && ':' !in host
    requires path != [] && path[0] == '/'
    ensures SplitTargetFixed(host + path) == Some(UriParts(host, DefaultPort, path))
  {
    var rest := host + path;
    IndexOfAfter(host, '/', path[1..]);
    assert host + ['/'] + path[1..] == rest;
    assert rest[..|host|] == host;
    assert rest[|host|..] == path;
  }

  /** Without a port and with no `:` in the path, the code as written splits
      a target into host name, default port and path. */
  lemma SplitTargetDefaultPort(host: string, path: string)
    requires '/' !in host && ':' !in host
    requires path != [] && path[0] == '/' && ':' !in path
    ensures TargetWellFormed(host + path)
    ensures SplitTarget(host + path) == UriParts(host, DefaultPort, path)
  {
    var rest := host + path;
    assert ':' !in rest by {
      forall j | 0 <= j < |rest| ensures rest[j] != ':' {
        if j < |host| { assert rest[j] == host[j]; } else { assert rest[j] == path[j - |host|]; }
      }
    }
    IndexOfAfter(host, '/', path[1..]);
    assert host + ['/'] + path[1..] == rest;
    SplitTargetFixedDefaultPort(host, path);
    SplitTargetFixedAgrees(rest);
  }

  /** Without a port, absolute URIs parse to host name, default port and path:
      always with the correction, and as written when the path holds no `:`. */
  lemma ParseUriDefaultPort(host: string, path: string)
    requires '/' !in host && ':' !in host
    requires path != [] && path[0] == '/'
    ensures ParseUriFixed("http://" + host + path) == Some(UriParts(host, DefaultPort, path))
    ensures ':' !in path ==> UriWellFormed("http://" + host + path)
    ensures ':' !in path ==> ParseUri("http://" + host + path) == UriParts(host, DefaultPort, path)
  {
    var rest := host + path;
    assert "http://" + host + path == "http://" + rest;
    HostStartAfterScheme(rest);
    SplitTargetFixedDefaultPort(host, path);
    if ':' !in path {
      SplitTargetDefaultPort(host, path);
    }
  }

  /** A `:` in the path of a target without a port: its first `:` follows the
      first `/`, so the code as written does not handle it. */
  lemma ColonInPathTarget(host: string, path: string)
    requires '/' !in host && ':' !in host
    requires path != [] && path[0] == '/' && ':' in path
    ensures !TargetWellFormed(host + path)
  {
    var rest := host + path;
    IndexOfAfter(host, '/', path[1..]);
    assert host + ['/'] + path[1..] == rest;
    var k :| 0 <= k < |path| && path[k] == ':';
    assert rest[|host| + k] == ':';
    assert rest[|host|] == '/';
  }

  /** A `:` in the path of a URI without a port puts the URI outside what the
      code as written handles, although the corrected parser reads it as
      intended. */
  lemma ColonInPathUnhandled(host: string, path: string)
    requires '/' !in host && ':' !in host
    requires path != [] && path[0] == '/' && ':' in path
    ensures !UriWellFormed("http://" + host + path)
    ensures ParseUriFixed("http://" + host + path) == Some(UriParts(host, DefaultPort, path))
  {
    var rest := host + path;
    assert "http://" + host + path == "http://" + rest;
    HostStartAfterScheme(rest);
    ColonInPathTarget(host, path);
    SplitTargetFixedDefaultPort(host, path);
  }

  /** An absolute URI with an explicit port parses to its three parts. */
  lemma ParseUriExampleWithPort()
    ensures ParseUriFixed("http://example.com:8080/a/b") == Some(UriParts("example.com", "8080", "/a/b"))
  {
    var host := "example.com";
    assert '/' !in host && ':' !in host;
    assert "http://example.com:8080/a/b" == "http://" + host + ":" + "8080" + "/a/b";
    ParseUriRoundTrip(host, "8080", "/a/b");
  }

  /** An absolute URI without a port gets the default port. */
  lemma ParseUriExampleDefaultPort()
    ensures ParseUriFixed("http://example.com/a") == Some(UriParts("example.com", DefaultPort, "/a"))
  {
    var host := "example.com";
    assert '/' !in host && ':' !in host;
    assert "http://example.com/a" == "http://" + host + "/a";
    ParseUriDefaultPort(host, "/a");
  }

  /** A URI the code as written cannot handle. */
  lemma ParseUriExampleColonInPath()
    ensures !UriWellFormed("http://example.com/a:b")
    ensures ParseUriFixed("http://example.com/a:b") == Some(UriParts("example.com", DefaultPort, "/a:b"))
  {
    var host := "example.com";
    assert '/' !in host && ':' !in host;
    assert "http://example.com/a:b" == "http://" + host + "/a:b";
    assert "/a:b"[2] == ':';
    ColonInPathUnhandled(host, "/a:b");
  }
}
