/** The anime endpoint `/api5` (`api/api5.js`): builds the toonstream page
    URL of a movie or an episode, finds the rubystm embed link on that
    page, resolves it with the rubystm extractor and answers with the
    stream and a link through the streaming proxy. */
module Api5 {
  import opened Wrappers
  import opened Text
  import opened Platform
  import opened PercentEncoding
  import opened ProxyInput
  import opened ProxyPolicy
  import opened Manifest
  import opened M3u8Scan
  import opened EmbedId
  import Rubystm

  // ---------------------------------------------------------------------
  // The page URL
  // ---------------------------------------------------------------------

  const ToonstreamEpisodes: string := "https://toonstream.world/episode/"
  const ToonstreamMovies: string := "https://toonstream.world/movies/"

  /** `buildToonstreamUrl`: a TV request names an episode page, anything
      else a movie page. */
  function BuildToonstreamUrl(id: string, kind: string, season: string, episode: string): string
  {
    if kind == "tv" then ToonstreamEpisodes + id + "-" + season + "x" + episode + "/"
    else ToonstreamMovies + id + "/"
  }

  /** Movie pages and episode pages never share a URL, and a movie page URL
      determines its id. */
  lemma ToonstreamUrlsDistinct(id: string, id2: string, kind: string, season: string, episode: string)
    ensures kind != "tv" ==>
              BuildToonstreamUrl(id, "tv", season, episode) != BuildToonstreamUrl(id2, kind, season, episode)
    ensures kind != "tv" && BuildToonstreamUrl(id, kind, season, episode) == BuildToonstreamUrl(id2, kind, season, episode)
            ==> id == id2
  {
    var e := BuildToonstreamUrl(id, "tv", season, episode);
    var m := BuildToonstreamUrl(id2, kind, season, episode);
    if kind != "tv" {
      assert e[25] == 'e' && m[25] == 'm';
      var m1 := BuildToonstreamUrl(id, kind, season, episode);
      if m1 == m {
        assert |id| == |id2|;
        assert id == m1[|ToonstreamMovies|..|m1| - 1] == m[|ToonstreamMovies|..|m| - 1] == id2;
      }
    }
  }

  // ---------------------------------------------------------------------
  // Unescaping the page, as written and as intended
  // ---------------------------------------------------------------------

  /** `normalizeHtml` as this file writes it: the first and last patterns
      are regular-expression literals in which `\u002F` and `\u0026`
      stand for `/` and `&` themselves, so those two steps replace a character by
      itself. */
  function NormalizeHtmlAsWritten(html: string): string {
    ReplaceAll(ReplaceAll(ReplaceAll(ReplaceAll(html, "/", "/"), "\\/", "/"), "&amp;", "&"), "&", "&")
  }

  /** What the as-written unescaping does: only `\/` and `&amp;` are
      undone. */
  lemma NormalizeHtmlAsWrittenSteps(html: string)
    ensures NormalizeHtmlAsWritten(html) == ReplaceAll(ReplaceAll(html, "\\/", "/"), "&amp;", "&")
  {
    ReplaceAllSame(html, "/");
    ReplaceAllSame(ReplaceAll(ReplaceAll(html, "\\/", "/"), "&amp;", "&"), "&");
  }

  /** A JSON string's other escaping of `/`: every slash as `\u002F`. */
  function UnicodeEscapeSlashes(x: string): string {
    if |x| == 0 then "" else (if x[0] == '/' then "\\u002F" else [x[0]]) + UnicodeEscapeSlashes(x[1..])
  }

  /** The escaped text has no `/` left, and no `&` it did not have. */
  lemma {:induction false} UnicodeEscapedChars(x: string)
    ensures '/' !in UnicodeEscapeSlashes(x)
    ensures '&' !in x ==> '&' !in UnicodeEscapeSlashes(x)
  {
    if |x| > 0 {
      UnicodeEscapedChars(x[1..]);
      assert x[0] in x;
      assert '&' !in x ==> '&' !in x[1..];
    }
  }

  /** A pattern one of whose characters the text lacks does not occur in it. */
  lemma AbsentPattern(s: string, pat: string, j: nat)
    requires j < |pat| && pat[j] !in s
    ensures !Contains(s, pat)
  {
    forall i | 0 <= i <= |s| - |pat| ensures !OccursAt(s, pat, i) {
      assert s[i + j] in s;
    }
  }

  lemma {:induction false} UnescapeUnicodeSlashes(x: string)
    requires '\\' !in x
    ensures ReplaceAll(UnicodeEscapeSlashes(x), "\\u002F", "/") == x
  {
    if |x| > 0 {
      assert '\\' !in x[1..] by { assert forall c | c in x[1..] :: c in x; }
      UnescapeUnicodeSlashes(x[1..]);
      var e := UnicodeEscapeSlashes(x);
      var rest := UnicodeEscapeSlashes(x[1..]);
      if x[0] == '/' {
        assert e == "\\u002F" + rest;
        assert e[..6] == "\\u002F" && e[6..] == rest;
      } else {
        assert x[0] in x;
        assert e == [x[0]] + rest && e[0] == x[0];
        if |e| >= 6 {
          assert e[1..] == rest;
        }
      }
    }
  }

  /** The intended unescaping, which the rubystm extractor's copy performs:
      slashes written as `\u002F` come back, for any text without
      backslashes or ampersands. */
  lemma NormalizeUndoesUnicodeSlashes(x: string)
    requires '\\' !in x && '&' !in x
    ensures NormalizeHtml(UnicodeEscapeSlashes(x)) == x
  {
    UnescapeUnicodeSlashes(x);
    AbsentPattern(x, "\\/", 0);
    ReplaceAllAbsent(x, "\\/", "/");
    AbsentPattern(x, "&amp;", 0);
    ReplaceAllAbsent(x, "&amp;", "&");
    AbsentPattern(x, "\\u0026", 0);
    ReplaceAllAbsent(x, "\\u0026", "&");
  }

  /** The as-written unescaping leaves text escaped that way as it is. */
  lemma AsWrittenLeavesEscaped(x: string)
    requires '&' !in x
    ensures NormalizeHtmlAsWritten(UnicodeEscapeSlashes(x)) == UnicodeEscapeSlashes(x)
    ensures '/' !in UnicodeEscapeSlashes(x)
  {
    var e := UnicodeEscapeSlashes(x);
    UnicodeEscapedChars(x);
    NormalizeHtmlAsWrittenSteps(e);
    AbsentPattern(e, "\\/", 1);
    ReplaceAllAbsent(e, "\\/", "/");
    AbsentPattern(e, "&amp;", 0);
    ReplaceAllAbsent(e, "&amp;", "&");
  }

  /** The discrepancy: the as-written unescaping leaves slashes written as
      `\u002F` alone, so a page in which they are so written does not come
      back (`x == "/"`, whose escaped form is the six characters
      `\u002F`, is the smallest such page). */
  lemma AsWrittenKeepsUnicodeSlashes(x: string)
    requires '&' !in x && '/' in x
    ensures NormalizeHtmlAsWritten(UnicodeEscapeSlashes(x)) == UnicodeEscapeSlashes(x)
    ensures NormalizeHtmlAsWritten(UnicodeEscapeSlashes(x)) != x
  {
    AsWrittenLeavesEscaped(x);
  }

  // ---------------------------------------------------------------------
  // Finding the rubystm link
  // ---------------------------------------------------------------------

  const RubystmHost: string := "rubystm.com"
  const RubystmPrefix: string := "https://" + RubystmHost

  /** The marker alternatives of the page pattern, in pattern order. */
  const PageLinkMarkers: seq<string> := ["e", "embed", "d", "v"]

  /** The match of `https://rubystm.com/(e|embed|d|v)/[a-zA-Z0-9]+[^\s"'<>]*`
      starting at `i`, if any: the alphanumeric id and the characters that
      may follow it together form the longest run of URL characters. */
  function LinkAt(s: string, i: nat): Option<string>
  {
    if OccursAt(s, RubystmPrefix, i) then
      match MarkerMatch(s, i + |RubystmPrefix|, PageLinkMarkers)
      case None => None
      case Some(p) => Some(s[i .. p + Run(s, p, IsUrlChar)])
    else None
  }

  /** The leftmost match at or after `i`. */
  function FindLinkFrom(s: string, i: nat): Option<string>
    requires i <= |s|
    decreases |s| - i
  {
    if i == |s| then None
    else if LinkAt(s, i).Some? then LinkAt(s, i)
    else FindLinkFrom(s, i + 1)
  }

  /** No match starts in `[i, j)`. */
  predicate NoLinkBetween(s: string, i: nat, j: nat) {
    forall k | i <= k < j :: LinkAt(s, k).None?
  }

  /** The search finds the match at the leftmost position that has one,
      and nothing exactly when no position from `i` on has one. */
  lemma {:induction false} FindLinkFromSpec(s: string, i: nat)
    requires i <= |s|
    ensures FindLinkFrom(s, i).None? <==> NoLinkBetween(s, i, |s|)
    ensures FindLinkFrom(s, i).Some? ==>
              exists j | i <= j < |s| :: NoLinkBetween(s, i, j) && LinkAt(s, j) == FindLinkFrom(s, i)
    decreases |s| - i
  {
    if i < |s| {
      if LinkAt(s, i).Some? {
        assert NoLinkBetween(s, i, i);
      } else {
        FindLinkFromSpec(s, i + 1);
        assert forall j | i + 1 <= j :: NoLinkBetween(s, i + 1, j) ==> NoLinkBetween(s, i, j);
      }
    }
  }

  /** `findRubystmUrl` as evidently intended, with the page unescaped as
      the rubystm extractor does it (see `AsWrittenMissesEscapedLinks`).
      The handler uses the as-written search below. */
  function FindRubystmUrl(html: string): Option<string> {
    FindLinkFrom(NormalizeHtml(html), 0)
  }

  /** `findRubystmUrl` as written, over the as-written unescaping. */
  function FindRubystmUrlAsWritten(html: string): Option<string> {
    FindLinkFrom(NormalizeHtmlAsWritten(html), 0)
  }

  /** On a page whose slashes are all written `\u002F`, the as-written
      search finds no link at all, while the intended one finds the link of
      the unescaped page. */
  lemma AsWrittenMissesEscapedLinks(x: string)
    requires '\\' !in x && '&' !in x
    ensures FindRubystmUrlAsWritten(UnicodeEscapeSlashes(x)).None?
    ensures FindRubystmUrl(UnicodeEscapeSlashes(x)) == FindLinkFrom(x, 0)
  {
    NormalizeUndoesUnicodeSlashes(x);
    AsWrittenLeavesEscaped(x);
    NoSlashNoLink(UnicodeEscapeSlashes(x));
  }

  /** Text without `/` holds no link. */
  lemma NoSlashNoLink(e: string)
    requires '/' !in e
    ensures FindLinkFrom(e, 0).None?
  {
    forall j | 0 <= j < |e| ensures LinkAt(e, j).None? {
      if j + |RubystmPrefix| <= |e| {
        assert e[j + 6] in e;
      }
    }
    assert NoLinkBetween(e, 0, |e|);
    FindLinkFromSpec(e, 0);
  }

  /** An alphanumeric run is part of the run of URL characters at the same
      place. */
  lemma AlnumWithinUrlRun(s: string, p: nat)
    requires p <= |s|
    ensures AlnumRun(s, p) <= Run(s, p, IsUrlChar)
  {
    var a := AlnumRun(s, p);
    var n := Run(s, p, IsUrlChar);
    assert p + n < p + a ==> IsAlnum(s[p + n]);
  }

  /** The marker lists of the page pattern and of the rubystm extractor
      hold the same markers. */
  lemma SameMarkers(m: string)
    requires m in PageLinkMarkers
    ensures m in RubystmMarkers
  {
  }

  lemma RubystmMarkersGood()
    ensures GoodMarkers(RubystmMarkers)
  {
    assert forall k | 0 <= k < |RubystmMarkers| :: RubystmMarkers[k] in {"e", "d", "v", "embed"};
  }

  /** The marker and the extent of a link found at `i`. */
  lemma LinkExtent(s: string, i: nat) returns (m: string)
    requires LinkAt(s, i).Some?
    ensures m in PageLinkMarkers && OccursAt(s, RubystmPrefix, i) && MarkerAt(s, i + |RubystmPrefix|, m)
    ensures var p := i + |RubystmPrefix| + |m| + 2;
            p < |s| && LinkAt(s, i).value == s[i .. p + Run(s, p, IsUrlChar)]
  {
    var q := i + |RubystmPrefix|;
    assert OccursAt(s, RubystmPrefix, i) && MarkerMatch(s, q, PageLinkMarkers).Some?;
    m := MarkerWitness(s, q);
  }

  /** A link splits into the prefix, a marker, the file code and what
      follows the code. */
  lemma LinkShape(s: string, i: nat, m: string) returns (code: string, rest: string)
    requires i + |RubystmPrefix| + |m| + 2 < |s|
    requires s[i .. i + |RubystmPrefix|] == RubystmPrefix
    requires s[i + |RubystmPrefix| .. i + |RubystmPrefix| + |m| + 2] == "/" + m + "/"
    requires IsAlnum(s[i + |RubystmPrefix| + |m| + 2])
    ensures IsCode(code) && (|rest| == 0 || !IsAlnum(rest[0]))
    ensures var p := i + |RubystmPrefix| + |m| + 2;
            s[i .. p + Run(s, p, IsUrlChar)] == RubystmPrefix + "/" + m + "/" + code + rest
  {
    var q := i + |RubystmPrefix|;
    var p := q + |m| + 2;
    var n := Run(s, p, IsUrlChar);
    var a := AlnumRun(s, p);
    AlnumWithinUrlRun(s, p);
    code := s[p .. p + a];
    rest := s[p + a .. p + n];
    CodeAt(s, p);
    Assemble(s, i, q, p, p + a, p + n, m);
  }

  /** The marker a match at `q` used. */
  lemma MarkerWitness(s: string, q: nat) returns (m: string)
    requires MarkerMatch(s, q, PageLinkMarkers).Some?
    ensures m in PageLinkMarkers && MarkerAt(s, q, m)
    ensures MarkerMatch(s, q, PageLinkMarkers).value == q + |m| + 2
  {
    MarkerMatchSpec(s, q, PageLinkMarkers);
    var k :| 0 <= k < |PageLinkMarkers| && MarkerAt(s, q, PageLinkMarkers[k])
             && MarkerMatch(s, q, PageLinkMarkers).value == q + |PageLinkMarkers[k]| + 2;
    m := PageLinkMarkers[k];
  }

  /** The alphanumeric run at an alphanumeric character is a file code,
      and what follows it does not continue it. */
  lemma CodeAt(s: string, p: nat)
    requires p < |s| && IsAlnum(s[p])
    ensures IsCode(s[p .. p + AlnumRun(s, p)])
    ensures p + AlnumRun(s, p) < |s| ==> !IsAlnum(s[p + AlnumRun(s, p)])
  {
  }

  /** A link is its prefix, its marker, its code and what follows. */
  lemma Assemble(s: string, i: nat, q: nat, p: nat, c: nat, n: nat, m: string)
    requires i <= q <= p <= c <= n <= |s|
    requires s[i .. q] == RubystmPrefix && s[q .. p] == "/" + m + "/"
    ensures s[i .. n] == RubystmPrefix + "/" + m + "/" + s[p .. c] + s[c .. n]
  {
    assert s[i .. p] == s[i .. q] + s[q .. p];
    assert s[i .. c] == s[i .. p] + s[p .. c];
    assert s[i .. n] == s[i .. c] + s[c .. n];
  }

  /** A link found on the page starts with `https://rubystm.com/`. */
  lemma LinkPrefix(s: string, i: nat)
    requires LinkAt(s, i).Some?
    ensures StartsWith(LinkAt(s, i).value, RubystmPrefix + "/")
  {
    var m := LinkExtent(s, i);
    var u := LinkAt(s, i).value;
    var q := i + |RubystmPrefix|;
    assert s[q] == ("/" + m + "/")[0];
    assert u[..|RubystmPrefix|] == s[i .. q];
    assert u[..|RubystmPrefix| + 1] == u[..|RubystmPrefix|] + [s[q]];
  }

  /** A link found on the page is a rubystm embed URL from which the
      rubystm extractor recovers the file code it carries. */
  lemma LinkAtIsEmbed(s: string, i: nat)
    requires LinkAt(s, i).Some?
    ensures StartsWith(LinkAt(s, i).value, RubystmPrefix + "/")
    ensures FindId(LinkAt(s, i).value, RubystmMarkers).Some?
  {
    var m := LinkExtent(s, i);
    var code, rest := LinkShape(s, i, m);
    SameMarkers(m);
    RubystmMarkersGood();
    EmbedLinkId(RubystmHost, m, code, rest, RubystmMarkers);
    LinkPrefix(s, i);
  }

  /** The leftmost link found on a page has the properties of every link
      found: see `LinkAtIsEmbed`. */
  lemma FoundLinkIsEmbed(s: string)
    requires FindLinkFrom(s, 0).Some?
    ensures StartsWith(FindLinkFrom(s, 0).value, RubystmPrefix + "/")
    ensures FindId(FindLinkFrom(s, 0).value, RubystmMarkers).Some?
  {
    FindLinkFromSpec(s, 0);
    var j :| 0 <= j < |s| && NoLinkBetween(s, 0, j) && LinkAt(s, j) == FindLinkFrom(s, 0);
    LinkAtIsEmbed(s, j);
  }

  // ---------------------------------------------------------------------
  // The handler
  // ---------------------------------------------------------------------

  /** An incoming request: method, the query parameters `id`, `type`,
      `season`, `episode`, and the request headers (lower-case names). */
  datatype Api5Request = Api5Request(httpMethod: string, id: Param, kind: Param, season: Param, episode: Param,
                                     headers: map<string, string>)

  datatype Api5Body =
    | NoBody
    | Problem(message: string)
    | Found(toonUrl: string, original: string, hls: string, proxied: string, streamHeaders: map<string, string>)

  datatype Api5Reply = Api5Reply(status: nat, body: Api5Body)

  /** What the handler works with: the toonstream page fetch (its text, or
      the message of the error it throws), the rubystm extractor's URL
      parser and network, and the user agent the extractor picks. */
  datatype Site = Site(fetch: string -> Result<string, string>, web: Web, net: Rubystm.Network, choice: nat)

  const MethodNotAllowed: string := "Method not allowed. Use GET."
  const MissingParameters: string := "Missing required parameters"
  const BadType: string := "Type must be 'tv' or 'movie'"
  const NeedsEpisode: string := "TV episodes require season and episode parameters"
  const NoSource: string := "No rubystream source found on the page"
  const ExtractionFailed: string := "Failed to extract HLS stream from rubystream source"
  const InternalError: string := "Internal server error"

  /** `${x-forwarded-proto || 'https'}://${x-forwarded-host || host || 'localhost'}` */
  function Api5Base(headers: map<string, string>): (r: string)
    ensures StartsWith(r, (if Present(Lookup(headers, "x-forwarded-proto")) then Lookup(headers, "x-forwarded-proto").value
                           else "https") + "://")
    ensures Present(Lookup(headers, "x-forwarded-host")) ==>
              EndsWith(r, "://" + Lookup(headers, "x-forwarded-host").value)
    ensures !Present(Lookup(headers, "x-forwarded-host")) && Present(Lookup(headers, "host")) ==>
              EndsWith(r, "://" + Lookup(headers, "host").value)
    ensures !Present(Lookup(headers, "x-forwarded-host")) && !Present(Lookup(headers, "host")) ==>
              EndsWith(r, "://localhost")
  {
    var proto := Lookup(headers, "x-forwarded-proto");
    var fwd := Lookup(headers, "x-forwarded-host");
    var host := Lookup(headers, "host");
    var hostText := if Present(fwd) then fwd.value else if Present(host) then host.value else "localhost";
    var scheme := if Present(proto) then proto.value else "https";
    var r := scheme + "://" + hostText;
    assert StartsWith(r, scheme + "://") && EndsWith(r, "://" + hostText) by {
      BaseParts(scheme, hostText);
    }
    r
  }

  lemma BaseParts(scheme: string, host: string)
    ensures StartsWith(scheme + "://" + host, scheme + "://")
    ensures EndsWith(scheme + "://" + host, "://" + host)
  {
    var r := scheme + "://" + host;
    assert r[..|scheme + "://"|] == scheme + "://";
    assert r[|r| - |"://" + host|..] == "://" + host;
  }

  /** The query passes the parameter checks. */
  predicate Valid(req: Api5Request) {
    Truthy(req.id) && Truthy(req.kind) && (req.kind == One("tv") || req.kind == One("movie"))
    && (req.kind == One("tv") ==> Truthy(req.season) && Truthy(req.episode))
  }

  function PageUrl(req: Api5Request): string {
    BuildToonstreamUrl(ParamText(req.id), ParamText(req.kind), ParamText(req.season), ParamText(req.episode))
  }

  /** The handler. */
  method Handle(site: Site, req: Api5Request) returns (reply: Api5Reply)
    requires site.choice < |Rubystm.UserAgents|
    ensures req.httpMethod == "OPTIONS" ==> reply == Api5Reply(200, NoBody)
    ensures req.httpMethod != "OPTIONS" && req.httpMethod != "GET" ==> reply == Api5Reply(405, Problem(MethodNotAllowed))
    ensures req.httpMethod == "GET" && !(Truthy(req.id) && Truthy(req.kind)) ==>
              reply == Api5Reply(400, Problem(MissingParameters))
    ensures req.httpMethod == "GET" && Truthy(req.id) && Truthy(req.kind)
            && req.kind != One("tv") && req.kind != One("movie") ==>
              reply == Api5Reply(400, Problem(BadType))
    ensures req.httpMethod == "GET" && Truthy(req.id) && req.kind == One("tv")
            && !(Truthy(req.season) && Truthy(req.episode)) ==>
              reply == Api5Reply(400, Problem(NeedsEpisode))
    // a valid query: fetch the page, find the link, extract the stream
    ensures req.httpMethod == "GET" && Valid(req) ==>
      match site.fetch(PageUrl(req))
      case Err(e) => reply == Api5Reply(500, Problem(if e != "" then e else InternalError))
      case Ok(html) =>
        (FindRubystmUrlAsWritten(html).None? ==> reply == Api5Reply(404, Problem(NoSource)))
        && (FindRubystmUrlAsWritten(html).Some? ==>
              var u := FindRubystmUrlAsWritten(html).value;
              var st := Rubystm.ExtractFromRubystm(site.web, site.net, site.choice, u);
              (st.None? ==> reply == Api5Reply(500, Problem(ExtractionFailed)))
              && (st.Some? ==> reply.status == 200 && reply.body.Found?))
    // a success answers with the page URL, the link found on it, and the
    // stream the extractor found behind that link, proxied with the
    // extractor's referer (the stream origin followed by `/`)
    ensures reply.status == 200 && reply.body.Found? ==>
      var b := reply.body;
      Valid(req) && b.toonUrl == PageUrl(req)
      && site.fetch(b.toonUrl).Ok? && FindRubystmUrlAsWritten(site.fetch(b.toonUrl).value) == Some(b.original)
      && StartsWith(b.original, RubystmPrefix + "/") && FindId(b.original, RubystmMarkers).Some?
      && Rubystm.ExtractFromRubystm(site.web, site.net, site.choice, b.original) == Some(Rubystm.Stream(b.hls, b.streamHeaders))
      && b.hls != "" && "Referer" in b.streamHeaders && EndsWith(b.streamHeaders["Referer"], "/")
      && b.proxied == ProxyLink(Api5Base(req.headers), b.hls, b.streamHeaders["Referer"])
  {
    if req.httpMethod == "OPTIONS" {
      return Api5Reply(200, NoBody);
    }
    if req.httpMethod != "GET" {
      return Api5Reply(405, Problem(MethodNotAllowed));
    }
    if !Truthy(req.id) || !Truthy(req.kind) {
      return Api5Reply(400, Problem(MissingParameters));
    }
    if req.kind != One("tv") && req.kind != One("movie") {
      return Api5Reply(400, Problem(BadType));
    }
    if req.kind == One("tv") && (!Truthy(req.season) || !Truthy(req.episode)) {
      return Api5Reply(400, Problem(NeedsEpisode));
    }
    var toonUrl := PageUrl(req);
    var page := site.fetch(toonUrl);
    if page.Err? {
      return Api5Reply(500, Problem(if page.error != "" then page.error else InternalError));
    }
    var rubystmUrl := FindRubystmUrlAsWritten(page.value);
    if rubystmUrl.None? {
      return Api5Reply(404, Problem(NoSource));
    }
    FoundLinkIsEmbed(NormalizeHtmlAsWritten(page.value));
    var data := Rubystm.ExtractFromRubystm(site.web, site.net, site.choice, rubystmUrl.value);
    if data.None? {
      return Api5Reply(500, Problem(ExtractionFailed));
    }
    var st := data.value;
    var referer := Lookup(st.headers, "Referer");
    var fallback := rubystmUrl.value;
    var proxied := ProxyLink(Api5Base(req.headers), st.streamUrl,
                             if Present(referer) then referer.value else fallback);
    reply := Api5Reply(200, Found(toonUrl, rubystmUrl.value, st.streamUrl, proxied, st.headers));
  }
}
