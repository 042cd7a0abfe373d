/** The headers the streaming proxy sends upstream, and the headers and
    status it answers with. */
module ProxyPolicy {
  import opened Wrappers
  import opened Text
  import opened Platform
  import opened ProxyInput

  const BrowserAgent: string :=
    "Mozilla/5.0 (Windows NT 10.0; Win64; x64) AppleWebKit/537.36 (KHTML, like Gecko) Chrome/120.0.0.0 Safari/537.36"
  /** The one upstream that must see a fixed referer and no `Origin`. */
  const PinnedHost: string := "play.zephyrflick.top"
  const PinnedReferer: string := "https://play.zephyrflick.top/"

  const ImmutableCache: string := "public, max-age=31536000, immutable"
  const DefaultContentType: string := "application/vnd.apple.mpegurl"

  /** The CORS headers every proxy answer after the first check carries. */
  const Cors: map<string, string> := map[
    "Access-Control-Allow-Origin" := "*",
    "Access-Control-Allow-Methods" := "GET, OPTIONS",
    "Access-Control-Allow-Headers" := "Range, Content-Type, Accept, Accept-Encoding",
    "Access-Control-Expose-Headers" := "Content-Length, Content-Range, Accept-Ranges, Cache-Control"]

  /** `headers[name]` of a header dictionary, `undefined` when missing. */
  function Lookup(h: map<string, string>, name: string): Option<string> {
    if name in h then Some(h[name]) else None
  }

  predicate Pinned(target: Url) {
    EndsWith(target.hostname, PinnedHost)
  }

  /** `decodedReferer` as it stands after the pinned-host check: the caller's
      referer, else the target origin with a slash, and always the fixed
      referer for the pinned host. */
  function EffectiveReferer(target: Url, refererRaw: Option<string>): string {
    if Pinned(target) then PinnedReferer
    else if Present(refererRaw) then refererRaw.value
    else target.origin + "/"
  }

  /** The origin of the caller's referer (or of the target's origin when
      that referer does not parse). */
  function DerivedOrigin(web: Web, target: Url, refererRaw: Option<string>): string {
    var referer := if Present(refererRaw) then refererRaw.value else target.origin + "/";
    match web.parse(referer)
    case Some(u) => u.origin
    case None => target.origin
  }

  /** The request headers for the upstream fetch: a browser User-Agent, the
      effective referer, an `Accept` of any type, an `Origin` for every host except
      the pinned one, and the client's `Range` when it sent one. */
  function UpstreamHeaderMap(web: Web, target: Url, refererRaw: Option<string>, range: Option<string>)
    : (h: map<string, string>)
    ensures h.Keys == {"User-Agent", "Referer", "Accept"}
      + (if Pinned(target) then {} else {"Origin"})
      + (if Present(range) then {"Range"} else {})
    ensures h["User-Agent"] == BrowserAgent && h["Accept"] == "*/*"
    ensures h["Referer"] == EffectiveReferer(target, refererRaw)
    ensures Pinned(target) ==> h["Referer"] == PinnedReferer
    ensures !Pinned(target) ==> h["Origin"] == DerivedOrigin(web, target, refererRaw)
    ensures Present(range) ==> h["Range"] == range.value
  {
    var base := map["User-Agent" := BrowserAgent, "Referer" := EffectiveReferer(target, refererRaw), "Accept" := "*/*"];
    var withOrigin := if Pinned(target) then base else base["Origin" := DerivedOrigin(web, target, refererRaw)];
    if Present(range) then withOrigin["Range" := range.value] else withOrigin
  }

  /** Lines 65-86 of the handler: the header object is built and then
      adjusted in place; `decodedReferer` is reassigned for the pinned host. */
  method UpstreamHeaders(web: Web, target: Url, refererRaw: Option<string>, range: Option<string>)
    returns (headers: map<string, string>, referer: string)
    ensures headers == UpstreamHeaderMap(web, target, refererRaw, range)
    ensures referer == EffectiveReferer(target, refererRaw)
  {
    referer := if Present(refererRaw) then refererRaw.value else target.origin + "/";
    var derivedOrigin := target.origin;
    match web.parse(referer) {
      case Some(u) => derivedOrigin := u.origin;
      case None =>
    }
    headers := map["User-Agent" := BrowserAgent, "Referer" := referer, "Accept" := "*/*"];
    if EndsWith(target.hostname, PinnedHost) {
      referer := PinnedReferer;
      headers := headers["Referer" := referer];
    } else {
      headers := headers["Origin" := derivedOrigin];
    }
    if Present(range) {
      headers := headers["Range" := range.value];
    }
  }

  /** For the pinned host the caller's referer has no influence at all on
      what is sent upstream. */
  lemma PinnedIgnoresCallerReferer(web: Web, target: Url, r1: Option<string>, r2: Option<string>, range: Option<string>)
    requires Pinned(target)
    ensures UpstreamHeaderMap(web, target, r1, range) == UpstreamHeaderMap(web, target, r2, range)
    ensures EffectiveReferer(target, r1) == EffectiveReferer(target, r2) == PinnedReferer
  {
  }

  /** For every other host the `Origin` sent is the origin of the `Referer`
      sent, whenever that referer parses. */
  lemma OriginMatchesReferer(web: Web, target: Url, refererRaw: Option<string>, range: Option<string>)
    requires !Pinned(target)
    requires web.parse(EffectiveReferer(target, refererRaw)).Some?
    ensures UpstreamHeaderMap(web, target, refererRaw, range)["Origin"]
         == web.parse(UpstreamHeaderMap(web, target, refererRaw, range)["Referer"]).value.origin
  {
  }

  /** The `Cache-Control` chosen from the target's extension: segments are
      immutable, playlists are never cached, anything else gets none. */
  function CacheControl(target: string): (c: Option<string>)
    ensures c == Some(ImmutableCache) <==> EndsWith(target, ".ts") || EndsWith(target, ".m4s")
    ensures c == Some("no-cache") <==> !EndsWith(target, ".ts") && !EndsWith(target, ".m4s") && EndsWith(target, ".m3u8")
    ensures c.None? <==> !EndsWith(target, ".ts") && !EndsWith(target, ".m4s") && !EndsWith(target, ".m3u8")
  {
    if EndsWith(target, ".ts") || EndsWith(target, ".m4s") then Some(ImmutableCache)
    else if EndsWith(target, ".m3u8") then Some("no-cache")
    else None
  }

  /** The content type the proxy reports: the upstream one, or the HLS
      playlist type when the upstream sent none. */
  function ContentType(upstream: map<string, string>): string {
    var t := Lookup(upstream, "content-type");
    if Present(t) then t.value else DefaultContentType
  }

  /** The answer is treated as a playlist when its type mentions `mpegurl`
      or the target names an `.m3u8` file. */
  predicate IsManifest(contentType: string, target: string) {
    Contains(contentType, "mpegurl") || EndsWith(target, ".m3u8")
  }

  /** The answer headers: the CORS set, the content type, the length and
      range when the upstream sent them, `Accept-Ranges` (defaulting to
      `bytes`) and the cache policy of the target. */
  function OutHeaderMap(target: string, upstream: map<string, string>): (h: map<string, string>)
    ensures forall k | k in Cors :: Lookup(h, k) == Some(Cors[k])
    ensures Lookup(h, "Content-Type") == Some(ContentType(upstream))
    ensures Lookup(h, "Content-Length") == if Present(Lookup(upstream, "content-length")) then Lookup(upstream, "content-length") else None
    ensures Lookup(h, "Content-Range") == if Present(Lookup(upstream, "content-range")) then Lookup(upstream, "content-range") else None
    ensures Lookup(h, "Accept-Ranges") == Some(if Present(Lookup(upstream, "accept-ranges")) then upstream["accept-ranges"] else "bytes")
    ensures Lookup(h, "Cache-Control") == CacheControl(target)
    ensures h.Keys <= Cors.Keys + {"Content-Type", "Content-Length", "Content-Range", "Accept-Ranges", "Cache-Control"}
  {
    var length := Lookup(upstream, "content-length");
    var range := Lookup(upstream, "content-range");
    var accept := Lookup(upstream, "accept-ranges");
    var h0 := Cors["Content-Type" := ContentType(upstream)];
    var h1 := if Present(length) then h0["Content-Length" := length.value] else h0;
    var h2 := if Present(range) then h1["Content-Range" := range.value] else h1;
    var h3 := h2["Accept-Ranges" := if Present(accept) then accept.value else "bytes"];
    match CacheControl(target)
    case Some(c) => h3["Cache-Control" := c]
    case None => h3
  }

  /** Lines 97-119 of the handler: the answer headers are set one by one. */
  method OutHeaders(target: string, upstream: map<string, string>) returns (out: map<string, string>)
    ensures out == OutHeaderMap(target, upstream)
  {
    var contentType := ContentType(upstream);
    out := Cors["Content-Type" := contentType];
    var length := Lookup(upstream, "content-length");
    if Present(length) {
      out := out["Content-Length" := length.value];
    }
    var range := Lookup(upstream, "content-range");
    if Present(range) {
      out := out["Content-Range" := range.value];
    }
    var acceptRanges := Lookup(upstream, "accept-ranges");
    if Present(acceptRanges) {
      out := out["Accept-Ranges" := acceptRanges.value];
    } else {
      out := out["Accept-Ranges" := "bytes"];
    }
    if EndsWith(target, ".ts") || EndsWith(target, ".m4s") {
      out := out["Cache-Control" := ImmutableCache];
    } else if EndsWith(target, ".m3u8") {
      out := out["Cache-Control" := "no-cache"];
    }
  }

  /** The status of a relayed media body: 206 when the upstream answered 206
      or sent a `Content-Range`, otherwise the upstream status. */
  function RelayStatus(status: int, upstream: map<string, string>): (r: int)
    ensures r == 206 <==> status == 206 || Present(Lookup(upstream, "content-range"))
    ensures r != 206 ==> r == status
  {
    if status == 206 || Present(Lookup(upstream, "content-range")) then 206 else status
  }

  /** A partial answer is always relayed with the headers a range client
      needs: `Content-Range` and `Accept-Ranges`. */
  lemma PartialAnswerHeaders(target: string, status: int, upstream: map<string, string>)
    requires Present(Lookup(upstream, "content-range"))
    ensures RelayStatus(status, upstream) == 206
    ensures Lookup(OutHeaderMap(target, upstream), "Content-Range") == Some(upstream["content-range"])
    ensures Lookup(OutHeaderMap(target, upstream), "Accept-Ranges").Some?
  {
  }
}
