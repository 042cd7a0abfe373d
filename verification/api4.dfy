/** The movie endpoint `/api4`, in its two copies (`api/api4/index.js` on
    Vercel, `netlify/functions/api4.js`): looks the TMDB id up in the
    catalog, resolves the Filemoon link of the record and answers with the
    stream URL and a link through the streaming proxy. */
module Api4 {
  import opened Wrappers
  import opened Text
  import opened Platform
  import opened PercentEncoding
  import opened ProxyInput
  import opened ProxyPolicy
  import opened Manifest
  import opened Catalog
  import opened StreamingProxy
  import Filemoon

  /** An incoming request: method, the `id` query parameter and the
      request headers (lower-case names). */
  datatype Api4Request = Api4Request(httpMethod: string, id: Param, headers: map<string, string>)

  /** The JSON body: none, `{ status: 'error', message }`, or the success
      object. */
  datatype Api4Body =
    | NoBody
    | Failure(message: string)
    | Found(tmdbId: Param, title: Option<string>, streamUrl: string, proxyUrl: string,
            streamHeaders: map<string, string>, originalUrl: string)

  datatype Api4Reply = Api4Reply(status: nat, body: Api4Body)

  const MethodNotAllowed: string := "Method not allowed. Use GET."
  const MissingId: string := "Missing required parameter: id (TMDB ID)"
  const NotInCatalog: string := "Movie not found in database"
  const NoProviderUrl: string := "Movie entry missing provider URL"
  const ExtractionFailed: string := "Failed to extract stream from provider"
  const InternalError: string := "Internal server error"

  /** What the Filemoon extractor sees of the outside world. */
  datatype Provider = Provider(web: Web, buffers: Buffers, crypto: Filemoon.Crypto,
                               get: (string, map<string, string>) -> Option<Filemoon.ApiData>)

  function Extract(p: Provider, url: string): Option<Filemoon.Stream> {
    Filemoon.ExtractFromFilemoon(p.web, p.buffers, p.crypto, p.get, url)
  }

  /** `result.headers?.Referer || movie.url` */
  function StreamReferer(stream: Filemoon.Stream, movieUrl: string): string {
    var r := Lookup(stream.headers, "Referer");
    if Present(r) then r.value else movieUrl
  }

  /** The handler. `catalog` is the directory listing with every file read
      and parsed (`None` where listing the directory throws); `provider` is
      what the Filemoon extractor works with. */
  method Handle(d: Deployment, catalog: Option<seq<Entry>>, provider: Provider, req: Api4Request)
    returns (reply: Api4Reply)
    requires d == Netlify ==> !req.id.Many?
    ensures req.httpMethod == "OPTIONS" ==> reply == Api4Reply(200, NoBody)
    ensures req.httpMethod != "OPTIONS" && req.httpMethod != "GET" ==> reply == Api4Reply(405, Failure(MethodNotAllowed))
    ensures req.httpMethod == "GET" && !Truthy(req.id) ==> reply == Api4Reply(400, Failure(MissingId))
    ensures req.httpMethod == "GET" && Truthy(req.id) && catalog.None? ==> reply == Api4Reply(500, Failure(InternalError))
    // the outcome once the catalog has been searched
    ensures req.httpMethod == "GET" && Truthy(req.id) && catalog.Some? ==>
      var movie := FirstMatch(JsonEntries(catalog.value), ParamText(req.id), 0);
      (reply.status == 404 <==> movie.None?)
      && (movie.None? ==> reply == Api4Reply(404, Failure(NotInCatalog)))
      && (movie.Some? && !Present(movie.value.url) ==> reply == Api4Reply(500, Failure(NoProviderUrl)))
      && (movie.Some? && Present(movie.value.url) ==>
            var result := Extract(provider, movie.value.url.value);
            if result.None? || result.value.streamUrl == "" then reply == Api4Reply(502, Failure(ExtractionFailed))
            else reply.status == 200 && reply.body.Found?)
    // a success answers with a catalogue record for the id, the stream the
    // extractor found behind its provider URL, and a proxy link for that
    // stream whose referer is the embed page's own host
    ensures reply.status == 200 && reply.body.Found? ==>
      var b := reply.body;
      catalog.Some? && Truthy(req.id) && b.tmdbId == req.id
      && FirstMatch(JsonEntries(catalog.value), ParamText(req.id), 0) == Some(Movie(ParamText(req.id), Some(b.originalUrl), b.title))
      && Extract(provider, b.originalUrl) == Some(Filemoon.Stream(b.streamUrl, b.streamHeaders)) && b.streamUrl != ""
      && provider.web.parse(b.originalUrl).Some?
      && b.proxyUrl == ProxyLink(ProxyBase(d, req.headers), b.streamUrl, "https://" + provider.web.parse(b.originalUrl).value.host + "/")
  {
    if req.httpMethod == "OPTIONS" {
      return Api4Reply(200, NoBody);
    }
    if req.httpMethod != "GET" {
      return Api4Reply(405, Failure(MethodNotAllowed));
    }
    if !Truthy(req.id) {
      return Api4Reply(400, Failure(MissingId));
    }
    if catalog.None? {
      return Api4Reply(500, Failure(InternalError));
    }
    var movie := FindMovieById(catalog.value, ParamText(req.id));
    FirstMatchSpec(JsonEntries(catalog.value), ParamText(req.id), 0);
    if movie.None? {
      return Api4Reply(404, Failure(NotInCatalog));
    }
    if !Present(movie.value.url) {
      return Api4Reply(500, Failure(NoProviderUrl));
    }
    var providerUrl := movie.value.url.value;
    var result := Extract(provider, providerUrl);
    if result.None? || result.value.streamUrl == "" {
      return Api4Reply(502, Failure(ExtractionFailed));
    }
    FilemoonRefererUsed(provider, providerUrl);
    var referer := StreamReferer(result.value, providerUrl);
    var proxyUrl := ProxyLink(ProxyBase(d, req.headers), result.value.streamUrl, referer);
    reply := Api4Reply(200, Found(req.id, movie.value.title, result.value.streamUrl, proxyUrl, result.value.headers, providerUrl));
  }

  /** The proxy link of an answer is a `/api/proxy` query of exactly two
      parameters, `url` and `referer`, carrying the encoded stream URL and
      referer, with no `&` or `=` inside either value. */
  lemma AnswerLinkQuery(d: Deployment, headers: map<string, string>, streamUrl: string, referer: string)
    ensures var q := "url=" + Encode(streamUrl) + "&referer=" + Encode(referer);
      ProxyLink(ProxyBase(d, headers), streamUrl, referer) == ProxyBase(d, headers) + "/api/proxy?" + q
      && Split(q, '&') == ["url=" + Encode(streamUrl), "referer=" + Encode(referer)]
  {
    ProxyLinkQuery(ProxyBase(d, headers), streamUrl, referer);
  }

  /** The referer handed to the proxy is the extractor's (`https://<host>/`
      of the embed URL) whenever the extractor gives one. */
  lemma FilemoonRefererUsed(provider: Provider, url: string)
    ensures Extract(provider, url).Some? ==>
              provider.web.parse(url).Some?
              && StreamReferer(Extract(provider, url).value, url) == "https://" + provider.web.parse(url).value.host + "/"
  {
  }
}
