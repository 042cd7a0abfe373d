/** `extractFromFilemoon` and its helpers `ft` and `xn`, in the two copies
    (the Vercel extractor and the Netlify function): from a Filemoon embed
    URL to the stream URL of its playback API. */
module Filemoon {
  import opened Wrappers
  import opened Text
  import opened Platform
  import opened EmbedId

  // ---------------------------------------------------------------------
  // Base64 (RFC 4648): the standard alphabet with `=` padding (section 4)
  // and the URL-safe alphabet without padding (section 5).

  /** `[A-Za-z0-9+/]` */
  predicate IsStdChar(c: char) {
    'A' <= c <= 'Z' || 'a' <= c <= 'z' || '0' <= c <= '9' || c == '+' || c == '/'
  }

  /** The character of a six-bit value in the standard alphabet. */
  function Sextet(v: nat): (c: char)
    requires v < 64
    ensures IsStdChar(c)
  {
    if v < 26 then ('A' as int + v) as char
    else if v < 52 then ('a' as int + v - 26) as char
    else if v < 62 then ('0' as int + v - 52) as char
    else if v == 62 then '+' else '/'
  }

  /** One group of one to three bytes, without padding: two to four
      characters. */
  function EncodeGroup(b: seq<Byte>): (r: string)
    requires 1 <= |b| <= 3
    ensures |r| == |b| + 1
    ensures forall i | 0 <= i < |r| :: IsStdChar(r[i])
  {
    var b1: int := if |b| > 1 then b[1] else 0;
    var b2: int := if |b| > 2 then b[2] else 0;
    var n: int := b[0] as int * 65536 + b1 * 256 + b2;
    var all := [Sextet(n / 262144), Sextet((n / 4096) % 64), Sextet((n / 64) % 64), Sextet(n % 64)];
    all[..|b| + 1]
  }

  /** The encoding without padding. */
  function Base64Body(b: seq<Byte>): (r: string)
    ensures forall i | 0 <= i < |r| :: IsStdChar(r[i])
    ensures |r| % 4 == (if |b| % 3 == 0 then 0 else |b| % 3 + 1)
    decreases |b|
  {
    if |b| == 0 then ""
    else if |b| <= 3 then EncodeGroup(b)
    else
      var head := EncodeGroup(b[..3]);
      var tail := Base64Body(b[3..]);
      assert forall i | 4 <= i < 4 + |tail| :: (head + tail)[i] == tail[i - 4];
      ShiftMod(|b| - 3, |tail|);
      head + tail
  }

  lemma ShiftMod(m: nat, k: nat)
    ensures (m + 3) % 3 == m % 3 && (k + 4) % 4 == k % 4
  {
  }

  /** `n` copies of `c`. */
  function Repeat(c: char, n: nat): (r: string)
    ensures |r| == n && forall i | 0 <= i < n :: r[i] == c
  {
    if n == 0 then "" else [c] + Repeat(c, n - 1)
  }

  /** Standard base64 with `=` padding to a multiple of four. */
  function Base64(b: seq<Byte>): string {
    Base64Body(b) + Repeat('=', if |b| % 3 == 0 then 0 else 3 - |b| % 3)
  }

  function ToUrlSafeChar(c: char): char {
    if c == '+' then '-' else if c == '/' then '_' else c
  }

  function FromUrlSafeChar(c: char): char {
    if c == '-' then '+' else if c == '_' then '/' else c
  }

  /** `s.replace(/-/g, "+").replace(/_/g, "/")` */
  function FromUrlSafe(s: string): (r: string)
    ensures |r| == |s| && forall i | 0 <= i < |s| :: r[i] == FromUrlSafeChar(s[i])
  {
    seq(|s|, i requires 0 <= i < |s| => FromUrlSafeChar(s[i]))
  }

  function ToUrlSafe(s: string): (r: string)
    ensures |r| == |s| && forall i | 0 <= i < |s| :: r[i] == ToUrlSafeChar(s[i])
  {
    seq(|s|, i requires 0 <= i < |s| => ToUrlSafeChar(s[i]))
  }

  /** Unpadded base64url, as the playback API sends it. */
  function Base64Url(b: seq<Byte>): string {
    ToUrlSafe(Base64Body(b))
  }

  /** `ft(e)` before the decoding: the standard alphabet restored and `=`
      appended up to the next multiple of four. The result keeps the
      translated text, adds at most three characters, all `=`, and none
      when the length is already a multiple of four. */
  function Ft(e: string): (r: string)
    ensures |r| % 4 == 0 && |e| <= |r| < |e| + 4
    ensures r[..|e|] == FromUrlSafe(e)
    ensures forall i | |e| <= i < |r| :: r[i] == '='
    ensures |e| % 4 == 0 ==> r == FromUrlSafe(e)
  {
    var t := FromUrlSafe(e);
    var pad := if |t| % 4 == 0 then 0 else 4 - |t| % 4;
    var r := t + Repeat('=', pad);
    assert r[..|e|] == t;
    r
  }

  /** Padding restoration undoes what base64url leaves out: the padded
      unpadded URL-safe encoding of any bytes is their standard encoding. */
  lemma FtRestoresPadding(b: seq<Byte>)
    ensures Ft(Base64Url(b)) == Base64(b)
  {
    var body := Base64Body(b);
    assert FromUrlSafe(ToUrlSafe(body)) == body by {
      forall i | 0 <= i < |body| ensures FromUrlSafe(ToUrlSafe(body))[i] == body[i] {
        assert IsStdChar(body[i]);
      }
    }
  }

  /** `xn(parts)` after the decoding: each part decoded on its own, the
      bytes concatenated in order. */
  function Xn(buffers: Buffers, parts: seq<string>): seq<Byte>
    decreases |parts|
  {
    if |parts| == 0 then [] else buffers.fromBase64(Ft(parts[0])) + Xn(buffers, parts[1..])
  }

  /** The key of a list of parts is the keys of its pieces, side by side. */
  lemma {:induction false} XnAppend(buffers: Buffers, a: seq<string>, b: seq<string>)
    ensures Xn(buffers, a + b) == Xn(buffers, a) + Xn(buffers, b)
    decreases |a|
  {
    if |a| > 0 {
      assert (a + b)[0] == a[0] && (a + b)[1..] == a[1..] + b;
      XnAppend(buffers, a[1..], b);
    } else {
      assert a + b == b;
    }
  }

  /** The key length is the sum of the decoded part lengths. */
  function DecodedLength(buffers: Buffers, parts: seq<string>): nat
    decreases |parts|
  {
    if |parts| == 0 then 0 else |buffers.fromBase64(Ft(parts[0]))| + DecodedLength(buffers, parts[1..])
  }

  lemma {:induction false} XnLength(buffers: Buffers, parts: seq<string>)
    ensures |Xn(buffers, parts)| == DecodedLength(buffers, parts)
    decreases |parts|
  {
    if |parts| > 0 {
      XnLength(buffers, parts[1..]);
    }
  }

  // ---------------------------------------------------------------------
  // The encrypted envelope.

  /** The index `buf.subarray` uses for an argument `x` on a buffer of
      length `len`: counted from the end when negative, clamped to the
      buffer. */
  function RelativeIndex(x: int, len: nat): (k: nat)
    ensures k <= len
  {
    if x < 0 then (if len + x < 0 then 0 else len + x) else if x > len then len else x
  }

  const TagLength: nat := 16

  /** `payload.subarray(0, length - 16)` and `payload.subarray(length - 16)`:
      the two pieces always make up the payload, and the tag is the last
      16 bytes when there are that many. */
  function SplitEnvelope(payload: seq<Byte>): (r: (seq<Byte>, seq<Byte>))
    ensures r.0 + r.1 == payload
    ensures |payload| >= TagLength ==> |r.1| == TagLength
  {
    var len := |payload|;
    var cut := RelativeIndex(len - TagLength, len);
    var tail := RelativeIndex(len - TagLength, len);
    assert payload[..cut] + payload[tail..] == payload;
    (payload[..cut], payload[tail..])
  }

  // ---------------------------------------------------------------------
  // The playback API answer.

  /** A source entry: its `file` and `url` fields where they are strings. */
  datatype Source = Source(file: Option<string>, url: Option<string>)

  /** The encrypted `playback` field. */
  datatype Playback = Playback(iv: string, keyParts: seq<string>, payload: string)

  /** The fields of the API answer that the extractor reads; `sources` is
      an array when present. */
  datatype ApiData = ApiData(sources: Option<seq<Source>>, playback: Option<Playback>)

  /** The decryption (AES-256-GCM) and the parse of the decrypted JSON,
      which are not modelled. */
  datatype Crypto = Crypto(
    /** `update(ciphertext)` and `final()` with the key, IV and tag; `None`
        where either throws, as on a tag mismatch. */
    open: (seq<Byte>, seq<Byte>, seq<Byte>, seq<Byte>) -> Option<seq<Byte>>,
    /** `JSON.parse(text).sources` on the decrypted bytes as UTF-8; `None`
        where the parse throws or there is no `sources` array. */
    sources: seq<Byte> -> Option<seq<Source>>)

  /** The sources of the encrypted envelope, or nothing if any step fails. */
  function Decrypted(buffers: Buffers, crypto: Crypto, pd: Playback): Option<seq<Source>> {
    var iv := buffers.fromBase64(Ft(pd.iv));
    var key := Xn(buffers, pd.keyParts);
    var payload := buffers.fromBase64(Ft(pd.payload));
    var parts := SplitEnvelope(payload);
    match crypto.open(key, iv, parts.0, parts.1)
    case None => None
    case Some(plain) => crypto.sources(plain)
  }

  /** Plain sources take precedence; the envelope is opened only when
      there are none. */
  function SourcesOf(buffers: Buffers, crypto: Crypto, data: ApiData): (r: Option<seq<Source>>)
    ensures data.sources.Some? ==> r == data.sources
    ensures data.sources.None? && data.playback.None? ==> r.None?
    ensures data.sources.None? && data.playback.Some? ==> r == Decrypted(buffers, crypto, data.playback.value)
  {
    if data.sources.Some? then data.sources
    else if data.playback.Some? then Decrypted(buffers, crypto, data.playback.value)
    else None
  }

  /** The steps that fill `sources`: plain first, then the envelope. */
  method ResolveSources(buffers: Buffers, crypto: Crypto, data: ApiData) returns (sources: Option<seq<Source>>)
    ensures sources == SourcesOf(buffers, crypto, data)
  {
    sources := None;
    if data.sources.Some? {
      sources := data.sources;
    }
    if sources.None? && data.playback.Some? {
      var pd := data.playback.value;
      var iv := buffers.fromBase64(Ft(pd.iv));
      var key := Xn(buffers, pd.keyParts);
      var payload := buffers.fromBase64(Ft(pd.payload));
      var parts := SplitEnvelope(payload);
      var decrypted := crypto.open(key, iv, parts.0, parts.1);
      if decrypted.Some? {
        sources := crypto.sources(decrypted.value);
      }
    }
  }

  /** `s.file || s.url` */
  function Link(s: Source): (r: Option<string>)
    ensures r.Some? ==> r.value != ""
    ensures s.file.Some? && s.file.value != "" ==> r == s.file
    ensures r.None? <==> s.file.GetOr("") == "" && s.url.GetOr("") == ""
  {
    if s.file.Some? && s.file.value != "" then s.file
    else if s.url.Some? && s.url.value != "" then s.url
    else None
  }

  /** A source whose link mentions `.m3u8`. */
  predicate IsHls(s: Source) {
    Link(s).Some? && Contains(Link(s).value, ".m3u8")
  }

  /** `sources.find(isHls) || sources[0]`, as an index: the first HLS
      source, or the first source when none is. */
  function Select(sources: seq<Source>): (k: nat)
    requires |sources| > 0
    ensures k < |sources|
    ensures forall i | 0 <= i < k :: !IsHls(sources[i])
    ensures IsHls(sources[k]) || (k == 0 && forall i | 0 <= i < |sources| :: !IsHls(sources[i]))
  {
    var k := FirstHls(sources, 0);
    if k < |sources| then k else 0
  }

  function FirstHls(sources: seq<Source>, i: nat): (k: nat)
    requires i <= |sources|
    requires forall j | 0 <= j < i :: !IsHls(sources[j])
    ensures i <= k <= |sources|
    ensures forall j | 0 <= j < k :: !IsHls(sources[j])
    ensures k < |sources| ==> IsHls(sources[k])
    decreases |sources| - i
  {
    if i == |sources| || IsHls(sources[i]) then i else FirstHls(sources, i + 1)
  }

  /** The identity the playback API is called with. */
  const BrowserAgent: string := "Mozilla/5.0 (Windows NT 10.0; Win64; x64) AppleWebKit/537.36 (KHTML, like Gecko) Chrome/124.0.0.0 Safari/537.36"

  function ApiUrl(host: string, mediaId: string): string {
    "https://" + host + "/api/videos/" + mediaId + "/embed/playback"
  }

  function ApiHeaders(url: string): map<string, string> {
    map["User-Agent" := BrowserAgent, "Referer" := url, "X-Requested-With" := "XMLHttpRequest"]
  }

  /** A resolved stream and the headers to fetch it with. */
  datatype Stream = Stream(streamUrl: string, headers: map<string, string>)

  /** `extractFromFilemoon(url)`, with `get` the playback API request
      (`None` where it throws). A result carries a non-empty stream URL
      taken from a source, and only a User-Agent and the Referer
      `https://<host>/` of the embed URL; there is none without a media id
      or a parsable URL. */
  function ExtractFromFilemoon(web: Web, buffers: Buffers, crypto: Crypto,
                               get: (string, map<string, string>) -> Option<ApiData>, url: string): (r: Option<Stream>)
    ensures FindId(url, FilemoonMarkers).None? || web.parse(url).None? ==> r.None?
    ensures r.Some? ==> r.value.streamUrl != ""
    ensures r.Some? ==> r.value.headers == map["User-Agent" := BrowserAgent, "Referer" := "https://" + web.parse(url).value.host + "/"]
  {
    match FindId(url, FilemoonMarkers)
    case None => None
    case Some(mediaId) =>
      match web.parse(url)
      case None => None
      case Some(parsed) =>
        var host := parsed.host;
        match get(ApiUrl(host, mediaId), ApiHeaders(url))
        case None => None
        case Some(data) =>
          var sources := SourcesOf(buffers, crypto, data);
          if sources.None? || |sources.value| == 0 then None
          else
            match Link(sources.value[Select(sources.value)])
            case None => None
            case Some(fileUrl) =>
              Some(Stream(fileUrl, map["User-Agent" := BrowserAgent, "Referer" := "https://" + host + "/"]))
  }

  /** The stream URL is the link of the selected source: the first HLS
      source if any, the first source otherwise. */
  lemma StreamIsSelectedLink(web: Web, buffers: Buffers, crypto: Crypto,
                             get: (string, map<string, string>) -> Option<ApiData>, url: string)
    requires ExtractFromFilemoon(web, buffers, crypto, get, url).Some?
    ensures var host := web.parse(url).value.host;
      var data := get(ApiUrl(host, FindId(url, FilemoonMarkers).value), ApiHeaders(url));
      data.Some? && SourcesOf(buffers, crypto, data.value).Some?
      && var sources := SourcesOf(buffers, crypto, data.value).value;
        |sources| > 0
        && Some(ExtractFromFilemoon(web, buffers, crypto, get, url).value.streamUrl) == Link(sources[Select(sources)])
        && ((exists i | 0 <= i < |sources| :: IsHls(sources[i])) ==> Contains(ExtractFromFilemoon(web, buffers, crypto, get, url).value.streamUrl, ".m3u8"))
  {
  }

  /** An embed link `https://<host>/e/<code>` (or `/d/`) is answered from
      the playback API of that host for that code. */
  lemma EmbedLinkApi(web: Web, buffers: Buffers, crypto: Crypto,
                     get: (string, map<string, string>) -> Option<ApiData>, host: string, m: string, code: string, rest: string)
    requires m in FilemoonMarkers && '/' !in host && host !in FilemoonMarkers
    requires IsCode(code) && (|rest| == 0 || !IsAlnum(rest[0]))
    requires var url := "https://" + host + "/" + m + "/" + code + rest;
      web.parse(url).Some? && web.parse(url).value.host == host
    ensures var url := "https://" + host + "/" + m + "/" + code + rest;
      ExtractFromFilemoon(web, buffers, crypto, get, url).Some? ==> get(ApiUrl(host, code), ApiHeaders(url)).Some?
  {
    EmbedLinkId(host, m, code, rest, FilemoonMarkers);
  }

  /** A present `sources` array, even an empty one, keeps the envelope
      closed: the answer does not depend on the decryption. */
  lemma PlainSourcesWin(buffers: Buffers, crypto1: Crypto, crypto2: Crypto, data: ApiData)
    requires data.sources.Some?
    ensures SourcesOf(buffers, crypto1, data) == SourcesOf(buffers, crypto2, data) == data.sources
  {
  }
}
