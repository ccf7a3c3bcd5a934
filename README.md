# httpkit proxy: request rewriting, modelled in Dafny

httpkit's HTTP proxy serves `/proxy/{target_host}:{target_port}/{path}`.
For each inbound request, the handler `proxy_request` does three things:

1. It builds the target URL `http://host:port/path`. When the request has
   query parameters, it appends `?` and the query string.
2. It copies the inbound headers into a dict, minus the nine hop-by-hop
   names (`connection`, `keep-alive`, `proxy-authenticate`,
   `proxy-authorization`, `te`, `trailers`, `transfer-encoding`, `upgrade`,
   `host`). Names are compared after lower-casing.
3. It sends the method, headers and body to the target. It then turns the
   outcome into the reply:
   - a response is passed on unchanged;
   - a transport error of the HTTP client becomes 502 with
     `Error forwarding request to target server: <cause>`;
   - any other `Exception` becomes 500 with `Internal server error: <cause>`.

This project models these three steps as pure functions and proves their
properties as lemmas.

- `text.dfy`, module `Text`: ASCII lower-casing, how an f-string renders an
  integer (with a parser that reads it back), and character search.
- `proxy_url.dfy`, module `ProxyUrl`: the target URL. `ParseTargetUrl` is an
  independent reading of such a URL. It is used to show that the host, port,
  path and query can all be recovered from the URL.
- `header_filter.dfy`, module `HeaderFilter`: the hop-by-hop filter and the
  dict the comprehension builds. In that dict, a later value for a name
  overwrites an earlier one, and the name keeps the position of its first
  occurrence. A dict is modelled as the sequence of its entries in insertion
  order.
- `forwarding.dfy`, module `Forwarding`: the outbound request, the
  `Outcome` of the upstream exchange, and the reply. The exchange itself is
  a function parameter `upstream`, not I/O.

tests/test_optimized_proxy.py expects more than the handler does: startup
and shutdown events that create a shared client and a request semaphore of
value 100, and a 400 with "Invalid scheme" for an `ftp://` target.
httpkit/tools/proxy.py has none of these (it imports `StreamingResponse` at
line 8 but never uses it). The model follows the code: it always uses
`http`, opens a fresh client for each request, and passes the upstream
response through whole.

## Model

| member | source | states |
|---|---|---|
| `Text.AsciiLower` | httpkit/tools/proxy.py:65 | the lower-cased name has the same length, and each character is the ASCII lower-case form of the one at its position |
| `Text.AsciiLowerIdempotent` | httpkit/tools/proxy.py:65 | lower-casing a header name twice gives the same result as lower-casing it once |
| `Text.Decimal` | httpkit/tools/proxy.py:57 | the port's digits are non-empty and all decimal, with no leading zero unless the value is 0 |
| `Text.FormatInt` | httpkit/tools/proxy.py:57 | the port as the f-string renders it is never empty and holds only digits and a minus sign |
| `Text.ParseFormatInt` | httpkit/tools/proxy.py:57 | reading back the port as the f-string renders it gives the same integer, whatever its sign |
| `Text.FormatIntInjective` | httpkit/tools/proxy.py:57 | different ports give different text in the URL |
| `ProxyUrl.BaseUrl` | httpkit/tools/proxy.py:57 | the URL starts with `http://`, then the host and a `:`; it ends with a `/` followed by the path |
| `ProxyUrl.TargetUrl` | httpkit/tools/proxy.py:57-60 | the URL starts with `http://host:port/path`; with no query it is exactly that; otherwise the rest is `?` followed by the query string unchanged |
| `ProxyUrl.TargetUrlRoundTrip` | httpkit/tools/proxy.py:57-60 | when the host has no `/` and the path has no `?`, host, port, path and query are read back exactly from the URL (so exactly one `/` separates port and path) |
| `ProxyUrl.QueryMarkIffQuery` | httpkit/tools/proxy.py:58-60 | when host and path have no `?`, the URL contains `?` if and only if there are query parameters |
| `ProxyUrl.QuestionMarkInPathIsAmbiguous` | httpkit/tools/proxy.py:57-60 | a `?` in the path makes two different targets share one URL, which is why the round trip excludes it |
| `ProxyUrl.TargetUrlWithQueryExample` | tests/test_proxy.py:39-50 | host `example.com`, port 80, path `api/health` and query `param=value` give `http://example.com:80/api/health?param=value` |
| `ProxyUrl.TargetUrlWithoutQueryExample` | tests/test_proxy.py:73-87 | a request without query parameters is sent to `http://example.com:80/api/users`, with no `?` |
| `HeaderFilter.HopByHopHeadersAreLowerCase` | httpkit/tools/proxy.py:21-31 | the hop-by-hop list has nine distinct names, each already in lower case and each dropped by the filter |
| `HeaderFilter.IsHopByHop` | httpkit/tools/proxy.py:21-66 | a dropped name is one of the nine after lower-casing, so it is 2 to 19 characters long and holds only letters and hyphens |
| `HeaderFilter.IsHopByHopIgnoresCase` | httpkit/tools/proxy.py:63-66 | a header name and its lower-case form are either both dropped or both kept |
| `HeaderFilter.IsHopByHopExamples` | httpkit/tools/proxy.py:21-31 | `Connection`, `HOST` and `Transfer-Encoding` are dropped; `X-Custom-Header` and `Content-Type` are kept |
| `HeaderFilter.FilterHopByHop` | httpkit/tools/proxy.py:63-66 | a header is in the output if and only if it is in the input and its lower-cased name is not hop-by-hop; the output is never longer than the input |
| `HeaderFilter.FilterIsSubsequence` | httpkit/tools/proxy.py:63-66 | the kept headers are a subsequence of the input, in the input's order |
| `HeaderFilter.FilterKeepsEveryCopy` | httpkit/tools/proxy.py:63-66 | each non-hop-by-hop header appears as often in the output as in the input, and each hop-by-hop header appears zero times |
| `HeaderFilter.FilterAppend` | httpkit/tools/proxy.py:63-66 | filtering two lists joined together gives the same result as filtering each and joining the results |
| `HeaderFilter.FilterKeepsClean` | httpkit/tools/proxy.py:63-66 | headers with no hop-by-hop name pass through unchanged |
| `HeaderFilter.FilterIdempotent` | httpkit/tools/proxy.py:63-66 | filtering twice gives the same result as filtering once |
| `HeaderFilter.Lookup` | httpkit/tools/proxy.py:63-66 | a dict has a value for a name if and only if one of its entries has that name |
| `HeaderFilter.Assign` | httpkit/tools/proxy.py:63 | after `d[name] = value`, looking up `name` gives `value` |
| `HeaderFilter.AssignNew` | httpkit/tools/proxy.py:63 | assigning a name the dict does not have appends the entry at the end |
| `HeaderFilter.AssignNames` | httpkit/tools/proxy.py:63 | assigning keeps the order of existing names and adds a new name last |
| `HeaderFilter.AssignKeepsOthers` | httpkit/tools/proxy.py:63 | assigning one name leaves the values of all other names unchanged |
| `HeaderFilter.AssignKeepsUnique` | httpkit/tools/proxy.py:63 | assigning keeps the names of a dict distinct |
| `HeaderFilter.DictOf` | httpkit/tools/proxy.py:63-66 | the dict built by the comprehension never has two entries with the same name |
| `HeaderFilter.DictOfLookup` | httpkit/tools/proxy.py:63-66 | the dict maps each name to the value of the last pair with that name |
| `HeaderFilter.DictOfNames` | httpkit/tools/proxy.py:63-66 | the dict has exactly the names of the pairs it was built from |
| `HeaderFilter.FirstOccurrences` | httpkit/tools/proxy.py:63-66 | the first-occurrence order of a list of names holds each name of the list exactly once, and no other |
| `HeaderFilter.FirstOccurrencesPrefix` | httpkit/tools/proxy.py:63-66 | names first met earlier in the list come earlier in the first-occurrence order, whatever follows them |
| `HeaderFilter.DictOfOrder` | httpkit/tools/proxy.py:63-66 | the dict lists its names in the order in which they first occur among the pairs |
| `HeaderFilter.DictOfExample` | httpkit/tools/proxy.py:63-66 | `a: 1, b: 2, a: 3` gives the dict `a: 3, b: 2`: a repeated name takes its last value and keeps its first position |
| `HeaderFilter.DictOfDistinct` | httpkit/tools/proxy.py:63-66 | pairs whose names are all distinct become the dict unchanged, in the same order |
| `HeaderFilter.ForwardedHeaders` | httpkit/tools/proxy.py:63-66 | the forwarded header dict never has two entries with the same name |
| `HeaderFilter.ForwardedHeadersLookup` | httpkit/tools/proxy.py:63-66 | soundness and completeness together: a hop-by-hop name is never forwarded, and every other inbound name is forwarded with its last value |
| `HeaderFilter.ForwardedHeadersSound` | httpkit/tools/proxy.py:63-66 | no forwarded entry has a hop-by-hop name |
| `HeaderFilter.ForwardedHeadersIdempotent` | httpkit/tools/proxy.py:63-66 | forwarding an already forwarded header dict gives the same dict |
| `HeaderFilter.FilterKeepsUniqueNames` | httpkit/tools/proxy.py:63-66 | when the input names are distinct, the filtered names are distinct too |
| `HeaderFilter.ForwardedHeadersOfDistinct` | httpkit/tools/proxy.py:63-66 | when the inbound names are distinct, the forwarded dict is exactly the filtered headers, in their original order |
| `Forwarding.BuildOutbound` | httpkit/tools/proxy.py:57-79 | the upstream gets the inbound method and body unchanged, a URL that starts with `http://host:port/path`, and a header dict with no hop-by-hop name and no name twice |
| `Forwarding.BuildOutboundFaithful` | httpkit/tools/proxy.py:57-79 | for any inbound request: method and body are unchanged, every non-hop-by-hop header is forwarded with its last value and every hop-by-hop one is absent; when the host has no `/` and the path no `?`, host, port, path and query read back from the URL |
| `Forwarding.MapOutcome` | httpkit/tools/proxy.py:71-97 | a response is relayed with its status, headers and body; a raised 502 if and only if the client reported a transport error; a raised 500 if and only if any other `Exception` occurred; each error detail is its prefix followed by the cause |
| `Forwarding.MapOutcomeInvertible` | httpkit/tools/proxy.py:83-97 | the outcome can be read back from the reply value, so exactly one of pass-through, raised 502 and raised 500 applies, and no cause is lost |
| `Forwarding.MapOutcomeInjective` | httpkit/tools/proxy.py:83-97 | different outcomes never give the same reply value (a relayed response and a raised 502/500 are distinct replies) |
| `Forwarding.ProxyRequest` | httpkit/tools/proxy.py:69-97 | the handler relays a response exactly when the upstream exchange produced one; otherwise it raises 502 or 500 |
| `Forwarding.EchoRoundTrip` | httpkit/tools/proxy.py:69-87 | against an upstream that echoes the body, the caller gets back exactly the bytes it sent |
| `Forwarding.ProxyRequestDependsOnOneRequest` | httpkit/tools/proxy.py:73-87 | the reply depends on the upstream only through the single request sent to it |
| `Forwarding.ForwardGetExample` | tests/test_proxy.py:24-55 | for the GET in the test, the method is `GET`, the URL is the one the test expects, `host` is dropped, `x-custom-header: test` is forwarded, and a 200 response is relayed unchanged |
| `Forwarding.UnreachableExample` | tests/test_proxy.py:98-111 | a transport error gives 502, and the detail starts with `Error forwarding request` |

## Left out

- httpkit/tools/reverse_shell.py as a whole: it only does socket, subprocess and thread I/O, with no data logic to state.
- The upstream call: building the HTTP client, its 30-second timeout, and the request over the network (httpkit/tools/proxy.py:72-80). The model replaces it with the parameter `upstream` and the three-way `Outcome`.
- Which exceptions count as transport errors is decided by the HTTP client library. The model takes that classification as given by the `Outcome` constructor.
- Reading the inbound body (httpkit/tools/proxy.py:69) is I/O. The body is a value in the model. The read happens before the `try`, so a failure there is not mapped to 500 by the handler. The model does not cover that path.
- Route registration and path-parameter parsing are framework glue (httpkit/tools/proxy.py:14-18, 34-43). This includes the conversion of `target_port` to `int` and the list of six accepted methods. The model takes host, port, path and method as given. The port may be any integer and is rendered as an f-string would render it.
- The welcome endpoint `root` and `main`/`uvicorn.run` (httpkit/tools/proxy.py:100-115) are glue.
- How the framework serialises query parameters is library behaviour. The query string is taken as given, and the empty string means "no query parameters". If parameters existed but serialised to an empty string, the model would add no `?` where the handler would.
- How the framework normalises header names and decodes header bytes is library behaviour. Headers are (name, value) pairs in the order the framework lists them.
- `HeaderFilter.IsHopByHop`: names are lower-cased in ASCII only. Python's `str.lower` also lower-cases non-ASCII letters. One of them, KELVIN SIGN (U+212A), becomes `k`. Python would therefore drop `keep-alive` written with that sign in place of its `k`, and the model keeps it.
- How the response object is built from the upstream response is library behaviour: copying the headers with `dict(...)` and any framing headers the framework adds. A relayed reply carries the upstream headers as they are given in `Ok`.
- How the framework turns an `HTTPException` into a JSON body `{"detail": ...}`. The model stops at the status and the detail string.
- `Forwarding.MapOutcomeInvertible` and `Forwarding.MapOutcomeInjective` hold for the `Reply` value, not for the rendered HTTP response. An upstream `Ok` with status 502 is relayed with status 502, and its body may be the same JSON that a raised 502 renders to, so on the wire the two can coincide.
- Exceptions that are not `Exception`s, such as `asyncio.CancelledError` and `KeyboardInterrupt`, escape both `except` clauses (httpkit/tools/proxy.py:88-97) and propagate out of the handler unmapped. The three-way `Outcome` has no case for them.
- `ProxyUrl.TargetUrlRoundTrip` requires no `/` in the host and no `?` in the path. The host condition always holds for a routed request, because the route segment `{target_host}` (httpkit/tools/proxy.py:35) cannot match a `/`. The path condition does exclude real inputs: a `%3F` in the request path is decoded into a `?` in `path`, and then the URL is ambiguous, as `ProxyUrl.QuestionMarkInPathIsAmbiguous` shows.
- Features that tests/test_optimized_proxy.py expects but the handler lacks are not modelled: the `startup_event` and `shutdown_event` handlers, the shared `http_client`, a `request_semaphore` of value 100, and scheme validation answering 400 "Invalid scheme". None of them is in httpkit/tools/proxy.py.
