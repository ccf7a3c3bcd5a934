/**
 * The target URL that the forwarding handler builds from the path parameters
 * of `/proxy/{target_host}:{target_port}/{path}` and the inbound query string.
 *
 * The query string is taken as the framework hands it over, already
 * serialised; the empty string stands for "the request has no query
 * parameters". `ParseTargetUrl` is an independent reading of such a URL,
 * used to state that the construction loses nothing.
 */
module ProxyUrl {
  import opened Text

  /** The handler always forwards over plain HTTP. */
  const Scheme := "http://"

  datatype Target = Target(host: string, port: int, path: string, query: string)

  /** `http://host:port/path`: exactly one slash separates the port from the path. */
  function BaseUrl(host: string, port: int, path: string): (url: string)
    ensures Scheme <= url
    ensures |url| > |Scheme| + |host| && url[|Scheme|..|Scheme| + |host|] == host && url[|Scheme| + |host|] == ':'
    ensures |url| > |path| && url[|url| - |path| - 1] == '/' && url[|url| - |path|..] == path
  {
    Scheme + host + ":" + FormatInt(port) + "/" + path
  }

  /**
   * The URL the inbound request is forwarded to: the base URL, followed by
   * `?` and the query string, verbatim, when there are query parameters.
   */
  function TargetUrl(host: string, port: int, path: string, query: string): (url: string)
    ensures BaseUrl(host, port, path) <= url
    ensures query == "" ==> url == BaseUrl(host, port, path)
    ensures query != "" ==> url[|BaseUrl(host, port, path)|..] == "?" + query
  {
    var base := BaseUrl(host, port, path);
    if query != "" then base + "?" + query else base
  }

  /** Splits `host:port` at its last `:`; the port must read back as an integer. */
  function SplitAuthority(authority: string): Option<(string, int)> {
    match LastIndexOf(authority, ':')
    case None => None
    case Some(colon) =>
      match ParseInt(authority[colon + 1..])
      case None => None
      case Some(port) => Some((authority[..colon], port))
  }

  /** Splits `path?query` at its first `?`; without one the query is empty. */
  function SplitQuery(tail: string): (string, string) {
    match IndexOf(tail, '?')
    case None => (tail, "")
    case Some(mark) => (tail[..mark], tail[mark + 1..])
  }

  /**
   * Reads a URL of the shape `http://authority/rest`: the authority ends at
   * the first `/`, the port follows the last `:` of the authority, and the
   * query follows the first `?` of the rest (none means an empty query).
   */
  function ParseTargetUrl(url: string): Option<Target> {
    if !(Scheme <= url) then None
    else
      var rest := url[|Scheme|..];
      match IndexOf(rest, '/')
      case None => None
      case Some(slash) =>
        match SplitAuthority(rest[..slash])
        case None => None
        case Some(hostPort) =>
          var (path, query) := SplitQuery(rest[slash + 1..]);
          Some(Target(hostPort.0, hostPort.1, path, query))
  }

  lemma SplitAuthorityRoundTrip(host: string, port: int)
    ensures SplitAuthority(host + ":" + FormatInt(port)) == Some((host, port))
  {
    var digits := FormatInt(port);
    var authority := host + ":" + digits;
    assert ':' !in digits by {
      assert forall i :: 0 <= i < |digits| ==> digits[i] != ':';
    }
    LastIndexOfBefore(host, ':', digits);
    assert authority[|host| + 1..] == digits;
    assert authority[..|host|] == host;
    ParseFormatInt(port);
  }

  lemma SplitQueryRoundTrip(path: string, query: string)
    requires '?' !in path
    ensures SplitQuery(if query == "" then path else path + "?" + query) == (path, query)
  {
    if query != "" {
      var tail := path + "?" + query;
      IndexOfAfter(path, '?', query);
      assert tail[..|path|] == path;
      assert tail[|path| + 1..] == query;
    }
  }

  lemma ParseTargetUrlSplits(authority: string, tail: string)
    requires '/' !in authority
    ensures ParseTargetUrl(Scheme + authority + "/" + tail) ==
      match SplitAuthority(authority)
      case None => None
      case Some(hostPort) => Some(Target(hostPort.0, hostPort.1, SplitQuery(tail).0, SplitQuery(tail).1))
  {
    var rest := authority + "/" + tail;
    assert (Scheme + authority + "/" + tail)[|Scheme|..] == rest;
    IndexOfAfter(authority, '/', tail);
    assert rest[..|authority|] == authority;
    assert rest[|authority| + 1..] == tail;
  }

  /**
   * Host, port, path and query can all be read back from the target URL, as
   * long as the host holds no `/` and the path no `?` (see
   * `QuestionMarkInPathIsAmbiguous` for why the latter is needed).
   */
  lemma TargetUrlRoundTrip(host: string, port: int, path: string, query: string)
    requires '/' !in host && '?' !in path
    ensures ParseTargetUrl(TargetUrl(host, port, path, query)) == Some(Target(host, port, path, query))
  {
    var digits := FormatInt(port);
    var authority := host + ":" + digits;
    var tail := if query == "" then path else path + "?" + query;
    assert TargetUrl(host, port, path, query) == Scheme + authority + "/" + tail;
    assert '/' !in authority by {
      assert forall i :: 0 <= i < |digits| ==> digits[i] != '/';
    }
    ParseTargetUrlSplits(authority, tail);
    SplitAuthorityRoundTrip(host, port);
    SplitQueryRoundTrip(path, query);
  }

  /**
   * When neither host nor path holds a `?`, the target URL holds one exactly
   * when the inbound request has query parameters.
   */
  lemma QueryMarkIffQuery(host: string, port: int, path: string, query: string)
    requires '?' !in host && '?' !in path
    ensures '?' in TargetUrl(host, port, path, query) <==> query != ""
  {
  }

  /** With a `?` in the path, two different targets share one URL. */
  lemma QuestionMarkInPathIsAmbiguous()
    ensures TargetUrl("h", 80, "a?b", "") == TargetUrl("h", 80, "a", "b")
  {
  }

  /** A GET with a query string, as forwarded in tests/test_proxy.py. */
  lemma TargetUrlWithQueryExample()
    ensures TargetUrl("example.com", 80, "api/health", "param=value")
      == "http://example.com:80/api/health?param=value"
  {
    var digits := FormatInt(80);
    assert digits == "80";
    var base := Scheme + "example.com" + ":" + digits + "/" + "api/health";
    assert base == "http://example.com:80/api/health";
    assert TargetUrl("example.com", 80, "api/health", "param=value") == base + "?" + "param=value";
  }

  /** A request without query parameters gains no `?`. */
  lemma TargetUrlWithoutQueryExample()
    ensures TargetUrl("example.com", 80, "api/users", "") == "http://example.com:80/api/users"
  {
    assert FormatInt(80) == "80";
  }
}
