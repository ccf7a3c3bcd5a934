/**
 * One run of the forwarding handler: the request sent upstream is built from
 * the inbound request and the path parameters, and the outcome of the
 * upstream exchange becomes the reply to the caller.
 *
 * The exchange itself (an HTTP client call over the network) is not modelled;
 * it is a parameter `upstream` that turns the outbound request into an
 * `Outcome`: a response, a transport error of the client library, or any
 * other `Exception`.
 */
module Forwarding {
  import opened Text
  import opened ProxyUrl
  import opened HeaderFilter

  type Bytes = seq<bv8>

  /** What the handler reads from the framework's request object. */
  datatype InboundRequest = InboundRequest(
    verb: string,         // the HTTP method
    query: string,        // serialised query parameters, "" when there are none
    headers: seq<Header>,
    body: Bytes)

  /** The arguments of the upstream call. */
  datatype OutboundRequest = OutboundRequest(
    verb: string,         // the HTTP method
    url: string,
    headers: seq<Header>,
    body: Bytes)

  /** How the upstream exchange ended. */
  datatype Outcome =
    | Ok(status: int, headers: seq<Header>, body: Bytes)
    | RequestError(msg: string)   // the client library's transport error (connect, DNS, timeout, ...)
    | OtherError(msg: string)     // any other `Exception` raised while forwarding

  /** What the caller receives. */
  datatype Reply =
    | Relayed(status: int, headers: seq<Header>, body: Bytes)   // the upstream response, passed on
    | Raised(status: int, detail: string)                       // an HTTP error raised by the handler

  const UpstreamErrorPrefix := "Error forwarding request to target server: "
  const InternalErrorPrefix := "Internal server error: "

  /**
   * The request handed to the upstream call: same method and body, sent to
   * `http://host:port/path` (plus the query), with a header dict that has no
   * hop-by-hop name and no name twice.
   */
  function BuildOutbound(req: InboundRequest, host: string, port: int, path: string): (out: OutboundRequest)
    ensures out.verb == req.verb && out.body == req.body
    ensures BaseUrl(host, port, path) <= out.url
    ensures UniqueNames(out.headers)
    ensures forall h :: h in out.headers ==> !IsHopByHop(h.0)
  {
    ForwardedHeadersSound(req.headers);
    OutboundRequest(req.verb, TargetUrl(host, port, path, req.query), ForwardedHeaders(req.headers), req.body)
  }

  /**
   * The outbound request rewrites nothing but the target and the headers:
   * method and body go out byte for byte, and the headers are the inbound
   * ones without the hop-by-hop names. When the host holds no `/` and the
   * path no `?`, the URL also reads back as the path parameters and the
   * query string.
   */
  lemma BuildOutboundFaithful(req: InboundRequest, host: string, port: int, path: string)
    ensures BuildOutbound(req, host, port, path).verb == req.verb
    ensures BuildOutbound(req, host, port, path).body == req.body
    ensures '/' !in host && '?' !in path ==>
      ParseTargetUrl(BuildOutbound(req, host, port, path).url) == Some(Target(host, port, path, req.query))
    ensures forall name ::
      (Lookup(BuildOutbound(req, host, port, path).headers, name)
       == if IsHopByHop(name) then None else LastValue(req.headers, name))
  {
    if '/' !in host && '?' !in path {
      TargetUrlRoundTrip(host, port, path, req.query);
    }
    forall name
      ensures Lookup(BuildOutbound(req, host, port, path).headers, name)
        == if IsHopByHop(name) then None else LastValue(req.headers, name)
    {
      ForwardedHeadersLookup(req.headers, name);
    }
  }

  /**
   * The reply for each outcome: a response is passed on unchanged, a
   * transport error becomes a raised 502 and any other `Exception` a raised
   * 500, each with its message after a fixed prefix.
   */
  function MapOutcome(outcome: Outcome): (reply: Reply)
    ensures outcome.Ok? <==> reply.Relayed?
    ensures outcome.Ok? ==> reply.status == outcome.status && reply.headers == outcome.headers && reply.body == outcome.body
    ensures outcome.RequestError? <==> reply.Raised? && reply.status == 502
    ensures outcome.OtherError? <==> reply.Raised? && reply.status == 500
    ensures outcome.RequestError? ==> reply.detail == UpstreamErrorPrefix + outcome.msg
    ensures outcome.OtherError? ==> reply.detail == InternalErrorPrefix + outcome.msg
  {
    match outcome
    case Ok(status, headers, body) => Relayed(status, headers, body)
    case RequestError(msg) => Raised(502, UpstreamErrorPrefix + msg)
    case OtherError(msg) => Raised(500, InternalErrorPrefix + msg)
  }

  /** Reads the outcome back from a reply: the inverse of `MapOutcome`. */
  function RecoverOutcome(reply: Reply): Option<Outcome> {
    match reply
    case Relayed(status, headers, body) => Some(Ok(status, headers, body))
    case Raised(status, detail) =>
      if status == 502 && UpstreamErrorPrefix <= detail then
        Some(RequestError(detail[|UpstreamErrorPrefix|..]))
      else if status == 500 && InternalErrorPrefix <= detail then
        Some(OtherError(detail[|InternalErrorPrefix|..]))
      else None
  }

  /** No outcome is lost or confused with another: every message survives behind its prefix. */
  lemma MapOutcomeInvertible(outcome: Outcome)
    ensures RecoverOutcome(MapOutcome(outcome)) == Some(outcome)
  {
  }

  /** Two outcomes that give the same reply are the same outcome. */
  lemma MapOutcomeInjective(a: Outcome, b: Outcome)
    requires MapOutcome(a) == MapOutcome(b)
    ensures a == b
  {
    MapOutcomeInvertible(a);
    MapOutcomeInvertible(b);
  }

  /** The handler end to end, with the upstream exchange as a parameter. */
  function ProxyRequest(req: InboundRequest, host: string, port: int, path: string,
                        upstream: OutboundRequest -> Outcome): (reply: Reply)
    ensures reply.Relayed? <==> upstream(BuildOutbound(req, host, port, path)).Ok?
    ensures reply.Raised? ==> reply.status == 502 || reply.status == 500
  {
    MapOutcome(upstream(BuildOutbound(req, host, port, path)))
  }

  /**
   * Against an upstream that answers every request with its own body, the
   * caller gets back the body it sent, byte for byte.
   */
  lemma EchoRoundTrip(req: InboundRequest, host: string, port: int, path: string,
                      upstream: OutboundRequest -> Outcome)
    requires forall out :: upstream(out).Ok? && upstream(out).body == out.body
    ensures ProxyRequest(req, host, port, path, upstream).Relayed?
    ensures ProxyRequest(req, host, port, path, upstream).body == req.body
  {
  }

  /** The reply depends on the upstream only through the one request sent to it. */
  lemma ProxyRequestDependsOnOneRequest(req: InboundRequest, host: string, port: int, path: string,
                                 u: OutboundRequest -> Outcome, v: OutboundRequest -> Outcome)
    requires u(BuildOutbound(req, host, port, path)) == v(BuildOutbound(req, host, port, path))
    ensures ProxyRequest(req, host, port, path, u) == ProxyRequest(req, host, port, path, v)
  {
  }

  /**
   * The GET scenario of tests/test_proxy.py, with its header list simplified
   * to the framework's own `host` header and the test's custom header (the
   * test client sends a few more): a GET with a query string, answered 200
   * by the upstream. `host` is dropped; the custom header goes through.
   */
  lemma ForwardGetExample(upstreamBody: Bytes)
    ensures var req := InboundRequest("GET", "param=value",
                                      [("host", "testserver"), ("x-custom-header", "test")], []);
            var out := BuildOutbound(req, "example.com", 80, "api/health");
            && out.verb == "GET"
            && out.url == "http://example.com:80/api/health?param=value"
            && out.headers == [("x-custom-header", "test")]
            && MapOutcome(Ok(200, [("content-type", "application/json")], upstreamBody))
               == Relayed(200, [("content-type", "application/json")], upstreamBody)
  {
    var headers := [("host", "testserver"), ("x-custom-header", "test")];
    TargetUrlWithQueryExample();
    assert AsciiLower("host") == "host";
    assert AsciiLower("x-custom-header") == "x-custom-header";
    assert FilterHopByHop(headers) == [("x-custom-header", "test")] by {
      assert headers[1..] == [("x-custom-header", "test")];
      assert FilterHopByHop(headers[1..]) == [("x-custom-header", "test")] + FilterHopByHop([]);
      assert FilterHopByHop(headers) == [] + FilterHopByHop(headers[1..]);
    }
    DictOfDistinct([("x-custom-header", "test")]);
  }

  /** An unreachable upstream gives 502 with the message after "Error forwarding request". */
  lemma UnreachableExample(msg: string)
    ensures MapOutcome(RequestError(msg)).status == 502
    ensures "Error forwarding request" <= MapOutcome(RequestError(msg)).detail
  {
  }
}
