/** `extractFromRubystm`: from a rubystream player URL to an HLS stream
    URL and the headers to fetch it with, trying the player page, then the
    `/dl` answer for the embed code, then that answer's packed script. */
module Rubystm {
  import opened Wrappers
  import opened Text
  import opened Platform
  import opened M3u8Scan
  import opened Packer
  import opened EmbedId

  /** The browser identities the extractor picks from at random. */
  const UserAgents: seq<string> := [
    "Mozilla/5.0 (Windows NT 10.0; Win64; x64) AppleWebKit/537.36 (KHTML, like Gecko) Chrome/120.0.0.0 Safari/537.36",
    "Mozilla/5.0 (Macintosh; Intel Mac OS X 10_15_7) AppleWebKit/537.36 (KHTML, like Gecko) Chrome/120.0.0.0 Safari/537.36"
  ]

  /** A fetched page: its body and the URL the redirects ended at
      (`response.request.res.responseUrl`), when known. */
  datatype Page = Page(html: string, responseUrl: Option<string>)

  /** The two requests the extractor makes; `None` where axios throws
      (network failure, timeout, error status). */
  datatype Network = Network(
    /** `axios.get(url, { headers })` */
    get: (string, map<string, string>) -> Option<Page>,
    /** `axios.post(url, body, { headers })`, the body of the answer as text */
    post: (string, string, map<string, string>) -> Option<string>)

  /** What the extractor resolves to. */
  datatype Stream = Stream(streamUrl: string, headers: map<string, string>)

  /** `getOrigin`: the origin of a URL that parses. */
  function GetOrigin(web: Web, url: string): Option<string> {
    match web.parse(url)
    case Some(u) => Some(u.origin)
    case None => None
  }

  /** `responseUrl || playerUrl` */
  function FinalUrl(playerUrl: string, page: Page): string {
    if page.responseUrl.Some? && page.responseUrl.value != "" then page.responseUrl.value else playerUrl
  }

  /** `getOrigin(finalUrl) || getOrigin(playerUrl)`, nothing when both are
      missing or empty. */
  function PageOrigin(web: Web, playerUrl: string, finalUrl: string): (r: Option<string>)
    ensures r.Some? ==> r.value != ""
    ensures r.Some? ==> r == GetOrigin(web, finalUrl) || r == GetOrigin(web, playerUrl)
    ensures r.None? <==> GetOrigin(web, finalUrl).GetOr("") == "" && GetOrigin(web, playerUrl).GetOr("") == ""
  {
    var o := GetOrigin(web, finalUrl);
    if o.Some? && o.value != "" then o
    else
      var o2 := GetOrigin(web, playerUrl);
      if o2.Some? && o2.value != "" then o2 else None
  }

  function PageHeaders(ua: string, playerUrl: string): map<string, string> {
    map["User-Agent" := ua, "Referer" := playerUrl]
  }

  /** `new URLSearchParams({op, file_code, auto, referer}).toString()`; an
      alphanumeric code needs no form encoding. */
  function DlBody(code: string): string {
    "op=embed&file_code=" + code + "&auto=1&referer="
  }

  function DlHeaders(ua: string, playerUrl: string, origin: string): map<string, string> {
    map["User-Agent" := ua, "Referer" := playerUrl,
        "Content-Type" := "application/x-www-form-urlencoded", "Origin" := origin]
  }

  /** The headers handed back with a stream. */
  function StreamHeaders(ua: string, origin: string): map<string, string> {
    map["User-Agent" := ua, "Referer" := origin + "/", "Origin" := origin]
  }

  /** The first candidate, if any. */
  function First(ua: string, origin: string, urls: seq<string>): Option<Stream> {
    if |urls| > 0 then Some(Stream(urls[0], StreamHeaders(ua, origin))) else None
  }

  /** The `/dl` fallback for a page whose own HTML has no candidate. */
  function DlStage(web: Web, net: Network, ua: string, playerUrl: string, origin: string, finalUrl: string): Option<Stream> {
    match FindId(finalUrl, RubystmMarkers)
    case None => None
    case Some(code) =>
      match net.post(origin + "/dl", DlBody(code), DlHeaders(ua, playerUrl, origin))
      case None => None
      case Some(dl) =>
        var dlCandidates := Candidates(web, dl, origin);
        if |dlCandidates| > 0 then First(ua, origin, dlCandidates)
        else
          var unpacked := UnpackedScript(dl);
          if unpacked.Some? && unpacked.value != "" then First(ua, origin, Candidates(web, unpacked.value, origin))
          else None
  }

  /** `extractFromRubystm(playerUrl)`, with `choice` the random pick of a
      user agent. A result carries a non-empty stream URL and exactly the
      headers User-Agent (one of the two), Referer and Origin, the referer
      being the origin followed by `/`; nothing comes back when the player
      page cannot be fetched or yields no origin. */
  function ExtractFromRubystm(web: Web, net: Network, choice: nat, playerUrl: string): (r: Option<Stream>)
    requires choice < |UserAgents|
    ensures r.Some? ==> r.value.streamUrl != ""
    ensures r.Some? ==> (r.value.headers.Keys == {"User-Agent", "Referer", "Origin"}
      && r.value.headers["User-Agent"] in UserAgents
      && r.value.headers["Referer"] == r.value.headers["Origin"] + "/")
    ensures net.get(playerUrl, PageHeaders(UserAgents[choice], playerUrl)).None? ==> r.None?
    ensures var page := net.get(playerUrl, PageHeaders(UserAgents[choice], playerUrl));
      page.Some? && PageOrigin(web, playerUrl, FinalUrl(playerUrl, page.value)).None? ==> r.None?
  {
    var ua := UserAgents[choice];
    match net.get(playerUrl, PageHeaders(ua, playerUrl))
    case None => None
    case Some(page) =>
      var finalUrl := FinalUrl(playerUrl, page);
      match PageOrigin(web, playerUrl, finalUrl)
      case None => None
      case Some(origin) =>
        var direct := Candidates(web, page.html, origin);
        var r := if |direct| > 0 then First(ua, origin, direct) else DlStage(web, net, ua, playerUrl, origin, finalUrl);
        assert r.Some? ==> r.value.streamUrl != "" by {
          if r.Some? {
            StreamFromCandidates(web, net, ua, playerUrl, origin, finalUrl, page.html);
          }
        }
        r
  }

  /** Whatever stage answers, its stream URL is a candidate, and so not
      empty, and it comes with the stream headers for the origin; a page
      with candidates of its own answers with the first of them. */
  lemma StreamFromCandidates(web: Web, net: Network, ua: string, playerUrl: string, origin: string, finalUrl: string, html: string)
    ensures var direct := Candidates(web, html, origin);
      var r := if |direct| > 0 then First(ua, origin, direct) else DlStage(web, net, ua, playerUrl, origin, finalUrl);
      (r.Some? ==> r.value.streamUrl != "" && r.value.headers == StreamHeaders(ua, origin))
      && (|direct| > 0 ==> r == Some(Stream(direct[0], StreamHeaders(ua, origin))))
  {
    CandidatesAreResolvedCaptures(web, html, origin);
    match FindId(finalUrl, RubystmMarkers)
    case None =>
    case Some(code) =>
      match net.post(origin + "/dl", DlBody(code), DlHeaders(ua, playerUrl, origin))
      case None =>
      case Some(dl) =>
        CandidatesAreResolvedCaptures(web, dl, origin);
        var unpacked := UnpackedScript(dl);
        if unpacked.Some? {
          CandidatesAreResolvedCaptures(web, unpacked.value, origin);
        }
  }

  /** A player page with a candidate of its own settles the answer: the
      `/dl` request is never consulted, and the answer is the page's first
      candidate with the stream headers for the page's origin. */
  lemma DirectCandidateWins(web: Web, net1: Network, net2: Network, choice: nat, playerUrl: string)
    requires choice < |UserAgents| && net1.get == net2.get
    requires var page := net1.get(playerUrl, PageHeaders(UserAgents[choice], playerUrl));
      page.Some? && PageOrigin(web, playerUrl, FinalUrl(playerUrl, page.value)).Some?
      && |Candidates(web, page.value.html, PageOrigin(web, playerUrl, FinalUrl(playerUrl, page.value)).value)| > 0
    ensures ExtractFromRubystm(web, net1, choice, playerUrl) == ExtractFromRubystm(web, net2, choice, playerUrl)
    ensures var page := net1.get(playerUrl, PageHeaders(UserAgents[choice], playerUrl)).value;
      var origin := PageOrigin(web, playerUrl, FinalUrl(playerUrl, page)).value;
      ExtractFromRubystm(web, net1, choice, playerUrl)
        == Some(Stream(Candidates(web, page.html, origin)[0], StreamHeaders(UserAgents[choice], origin)))
  {
  }

  /** Without an embed code in the final URL, only the player page itself
      can give a stream. */
  lemma NoCodeNoFallback(web: Web, net: Network, choice: nat, playerUrl: string)
    requires choice < |UserAgents|
    requires var page := net.get(playerUrl, PageHeaders(UserAgents[choice], playerUrl));
      page.Some? && FindId(FinalUrl(playerUrl, page.value), RubystmMarkers).None?
    ensures var page := net.get(playerUrl, PageHeaders(UserAgents[choice], playerUrl)).value;
      var r := ExtractFromRubystm(web, net, choice, playerUrl);
      r.Some? ==> var origin := PageOrigin(web, playerUrl, FinalUrl(playerUrl, page)).value;
        r.value.streamUrl in Candidates(web, page.html, origin)
  {
  }

  /** The stream found in the unpacked `/dl` script: when the page and the
      `/dl` answer have no candidate of their own, the answer is the first
      candidate of the unpacked script. */
  lemma UnpackedFallback(web: Web, net: Network, choice: nat, playerUrl: string, code: string, dl: string)
    requires choice < |UserAgents|
    requires var page := net.get(playerUrl, PageHeaders(UserAgents[choice], playerUrl));
      page.Some? && PageOrigin(web, playerUrl, FinalUrl(playerUrl, page.value)).Some?
      && |Candidates(web, page.value.html, PageOrigin(web, playerUrl, FinalUrl(playerUrl, page.value)).value)| == 0
      && FindId(FinalUrl(playerUrl, page.value), RubystmMarkers) == Some(code)
    requires var page := net.get(playerUrl, PageHeaders(UserAgents[choice], playerUrl)).value;
      var origin := PageOrigin(web, playerUrl, FinalUrl(playerUrl, page)).value;
      net.post(origin + "/dl", DlBody(code), DlHeaders(UserAgents[choice], playerUrl, origin)) == Some(dl)
      && |Candidates(web, dl, origin)| == 0
    ensures var page := net.get(playerUrl, PageHeaders(UserAgents[choice], playerUrl)).value;
      var origin := PageOrigin(web, playerUrl, FinalUrl(playerUrl, page)).value;
      var unpacked := UnpackedScript(dl);
      ExtractFromRubystm(web, net, choice, playerUrl)
        == if unpacked.Some? && unpacked.value != "" then First(UserAgents[choice], origin, Candidates(web, unpacked.value, origin)) else None
  {
  }

  /** With no candidate on the player page, an embed code in the final URL
      and a `/dl` answer that has candidates, the answer is the first
      candidate of the `/dl` answer; the unpacked script is not consulted. */
  lemma DlCandidateWins(web: Web, net: Network, choice: nat, playerUrl: string, code: string, dl: string)
    requires choice < |UserAgents|
    requires var page := net.get(playerUrl, PageHeaders(UserAgents[choice], playerUrl));
      page.Some? && PageOrigin(web, playerUrl, FinalUrl(playerUrl, page.value)).Some?
      && |Candidates(web, page.value.html, PageOrigin(web, playerUrl, FinalUrl(playerUrl, page.value)).value)| == 0
      && FindId(FinalUrl(playerUrl, page.value), RubystmMarkers) == Some(code)
    requires var page := net.get(playerUrl, PageHeaders(UserAgents[choice], playerUrl)).value;
      var origin := PageOrigin(web, playerUrl, FinalUrl(playerUrl, page)).value;
      net.post(origin + "/dl", DlBody(code), DlHeaders(UserAgents[choice], playerUrl, origin)) == Some(dl)
      && |Candidates(web, dl, origin)| > 0
    ensures var page := net.get(playerUrl, PageHeaders(UserAgents[choice], playerUrl)).value;
      var origin := PageOrigin(web, playerUrl, FinalUrl(playerUrl, page)).value;
      ExtractFromRubystm(web, net, choice, playerUrl)
        == Some(Stream(Candidates(web, dl, origin)[0], StreamHeaders(UserAgents[choice], origin)))
  {
  }

  /** With no candidate on the player page, a `/dl` request that fails
      leaves nothing to answer with. */
  lemma DlFailureGivesNothing(web: Web, net: Network, choice: nat, playerUrl: string, code: string)
    requires choice < |UserAgents|
    requires var page := net.get(playerUrl, PageHeaders(UserAgents[choice], playerUrl));
      page.Some? && PageOrigin(web, playerUrl, FinalUrl(playerUrl, page.value)).Some?
      && |Candidates(web, page.value.html, PageOrigin(web, playerUrl, FinalUrl(playerUrl, page.value)).value)| == 0
      && FindId(FinalUrl(playerUrl, page.value), RubystmMarkers) == Some(code)
    requires var page := net.get(playerUrl, PageHeaders(UserAgents[choice], playerUrl)).value;
      var origin := PageOrigin(web, playerUrl, FinalUrl(playerUrl, page)).value;
      net.post(origin + "/dl", DlBody(code), DlHeaders(UserAgents[choice], playerUrl, origin)).None?
    ensures ExtractFromRubystm(web, net, choice, playerUrl).None?
  {
  }
}
