/** The streaming proxy handler, in its two deployments: the Vercel function
    (`api/proxy.js`) and the Netlify function (`netlify/functions/proxy.js`).
    The upstream fetch is a parameter: it receives the target and the
    request headers and yields either an answer or a transport failure. */
module StreamingProxy {
  import opened Wrappers
  import opened Text
  import opened Platform
  import opened PercentEncoding
  import opened ProxyInput
  import opened ProxyPolicy
  import opened Manifest

  /** An incoming request; header names are lower case. On Netlify query
      parameters are single strings. */
  datatype ProxyRequest = ProxyRequest(httpMethod: string, url: Param, referer: Param, headers: map<string, string>)

  /** What the upstream fetch produced: an answer with any status (axios
      rejects those of 500 and above, keeping the answer on the error), or a
      failure without an answer (network error, timeout). */
  datatype Upstream = Answered(status: nat, headers: map<string, string>, data: seq<Byte>) | Unreachable(message: string)

  /** A response body: none, a JSON `{ error }` object, text, raw bytes
      (Vercel) or base64 text flagged as such (Netlify). */
  datatype Body = Empty | JsonError(error: string) | Text(text: string) | Raw(bytes: seq<Byte>) | Base64(encoded: string)

  datatype Response = Response(status: nat, headers: map<string, string>, body: Body)

  /** `${forwardedProto || 'https'}://${host}`: the Vercel handler prints a
      missing host as `undefined`, the Netlify one falls back to
      `localhost`. */
  function ProxyBase(d: Deployment, headers: map<string, string>): string
  {
    var proto := Lookup(headers, "x-forwarded-proto");
    var host := Lookup(headers, "host");
    var hostText :=
      if d == Vercel then (if host.Some? then host.value else "undefined")
      else (if Present(host) then host.value else "localhost");
    (if Present(proto) then proto.value else "https") + "://" + hostText
  }

  /** Whether the request gets past the checks made before decoding. */
  predicate Admitted(d: Deployment, req: ProxyRequest) {
    req.httpMethod != "OPTIONS" && Truthy(req.url)
  }

  /** The caller's referer after decoding and sanitising. */
  function RefererRaw(web: Web, req: ProxyRequest): Option<string> {
    Sanitize(DecodeTimes(web, NormalizeInput(req.referer), 3))
  }

  /** The handler. */
  method Serve(d: Deployment, web: Web, buffers: Buffers, fetch: (string, map<string, string>) -> Upstream, req: ProxyRequest)
    returns (resp: Response)
    requires d == Netlify ==> !req.url.Many? && !req.referer.Many?
    // checks made before anything is decoded; Vercel answers a missing url
    // without CORS headers, Netlify answers OPTIONS first
    ensures d == Vercel && !Truthy(req.url) ==> resp == Response(400, map[], JsonError("URL is required"))
    ensures d == Vercel && Truthy(req.url) && req.httpMethod == "OPTIONS" ==> resp == Response(200, Cors, Empty)
    ensures d == Netlify && req.httpMethod == "OPTIONS" ==> resp == Response(200, Cors, Text(""))
    ensures d == Netlify && req.httpMethod != "OPTIONS" && !Truthy(req.url) ==> resp == Response(400, Cors, JsonError("URL is required"))
    // target validation
    ensures Admitted(d, req) && ValidateTarget(web, NormalizeInput(req.url)).Err? ==>
      resp == Response(400, Cors, JsonError(RejectionMessage(ValidateTarget(web, NormalizeInput(req.url)).error)))
    // the fetch and what is made of its outcome
    ensures Admitted(d, req) && ValidateTarget(web, NormalizeInput(req.url)).Ok? ==>
      var target := ValidateTarget(web, NormalizeInput(req.url)).value.0;
      var parsed := ValidateTarget(web, NormalizeInput(req.url)).value.1;
      var sent := UpstreamHeaderMap(web, parsed, RefererRaw(web, req), Lookup(req.headers, "range"));
      match fetch(target, sent)
      case Unreachable(message) =>
        resp == Response(500, Cors, Text("Proxy error: " + message))
      case Answered(status, upstream, data) =>
        if status >= 500 then
          resp == Response(status, Cors, Text("Upstream error: " + NatToString(status)))
        else if IsManifest(ContentType(upstream), target) then
          var ctx := Context(web, target, EffectiveReferer(parsed, RefererRaw(web, req)), ProxyBase(d, req.headers));
          resp == Response(status, OutHeaderMap(target, upstream), Text(RewriteManifest(ctx, buffers.utf8Text(data))))
        else
          resp == Response(RelayStatus(status, upstream), OutHeaderMap(target, upstream),
                           if d == Vercel then Raw(data) else Base64(buffers.base64Text(data)))
  {
    if d == Vercel && !Truthy(req.url) {
      return Response(400, map[], JsonError("URL is required"));
    }
    if req.httpMethod == "OPTIONS" {
      return Response(200, Cors, if d == Vercel then Empty else Text(""));
    }
    if !Truthy(req.url) {
      return Response(400, Cors, JsonError("URL is required"));
    }
    var decodedUrlRaw := DecodeRepeatedly(web, NormalizeInput(req.url));
    var decodedUrl := Sanitize(decodedUrlRaw);
    var rawReferer := DecodeRepeatedly(web, NormalizeInput(req.referer));
    var decodedRefererRaw := Sanitize(rawReferer);
    if Present(decodedUrl) && StartsWith(decodedUrl.value, "//") {
      decodedUrl := Some("https:" + decodedUrl.value);
    }
    if !Present(decodedUrl) {
      return Response(400, Cors, JsonError("URL is required"));
    }
    var parsedUrl: Url;
    match web.parse(decodedUrl.value) {
      case None =>
        return Response(400, Cors, JsonError("Invalid URL"));
      case Some(u) =>
        parsedUrl := u;
    }
    var target := decodedUrl.value;
    var headers, decodedReferer := UpstreamHeaders(web, parsedUrl, decodedRefererRaw, Lookup(req.headers, "range"));
    var answer := fetch(target, headers);
    match answer {
      case Unreachable(message) =>
        return Response(500, Cors, Text("Proxy error: " + message));
      case Answered(status, upstream, data) =>
        if status >= 500 {
          return Response(status, Cors, Text("Upstream error: " + NatToString(status)));
        }
        var outHeaders := OutHeaders(target, upstream);
        var contentType := ContentType(upstream);
        if Contains(contentType, "mpegurl") || EndsWith(target, ".m3u8") {
          var content := buffers.utf8Text(data);
          var ctx := Context(web, target, decodedReferer, ProxyBase(d, req.headers));
          return Response(status, outHeaders, Text(RewriteManifest(ctx, content)));
        }
        var statusCode := if status == 206 || Present(Lookup(upstream, "content-range")) then 206 else status;
        return Response(statusCode, outHeaders, if d == Vercel then Raw(data) else Base64(buffers.base64Text(data)));
    }
  }

  /** A value the proxy put into a link with `encodeURIComponent` comes back
      intact from the next request's decoding and sanitising, provided that
      decoding inverts the encoding, the value itself is stable under
      decoding and has no stray quotes or blanks at its ends. */
  lemma EncodedParamRoundTrip(web: Web, x: string)
    requires web.decodeComponent(Encode(x)) == Some(x)
    requires SafeDecode(web, Some(x)) == Some(x)
    requires Settled(x)
    ensures Sanitize(DecodeTimes(web, Some(Encode(x)), 3)) == Some(x)
  {
    assert EncodeIter(x, 0) == x;
    assert EncodeIter(x, 1) == Encode(x);
    DecodeEncoded(web, x, 1, 3);
  }

  /** Chained requests: a playlist entry rewritten into a proxy link for the
      absolute URL `u` makes the proxy, when the player follows the link,
      fetch exactly `u` with the same referer. */
  lemma ProxiedLinkRoundTrip(web: Web, u: string, referer: string)
    requires IsHttp(u)
    requires web.decodeComponent(Encode(u)) == Some(u) && SafeDecode(web, Some(u)) == Some(u) && Settled(u)
    requires web.decodeComponent(Encode(referer)) == Some(referer)
    requires SafeDecode(web, Some(referer)) == Some(referer) && Settled(referer)
    ensures DecodedTarget(web, Some(Encode(u))) == Some(u)
    ensures Sanitize(DecodeTimes(web, Some(Encode(referer)), 3)) == Some(referer)
  {
    EncodedParamRoundTrip(web, u);
    EncodedParamRoundTrip(web, referer);
    HttpNotProtocolRelative(u);
  }

  lemma HttpNotProtocolRelative(u: string)
    requires IsHttp(u)
    ensures PromoteProtocolRelative(Some(u)) == Some(u)
  {
    assert u[0] == 'h';
  }
}
