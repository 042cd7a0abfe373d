# Streaming endpoints of animehindimovieapi, modelled in Dafny

The repository serves three HTTP endpoints, deployed both as Vercel functions
and as Netlify functions, plus a small local development server:

- `/api/proxy` is a streaming proxy for HLS video.
  - It decodes and sanitises the `url` and `referer` query parameters and validates the target.
  - It builds browser-like upstream headers, with a pinned referer for one host.
  - It relays media bytes with CORS, range and cache headers.
  - It rewrites `.m3u8` playlists so that every segment and every `URI=` attribute points back through the proxy.
- `/api4` looks a TMDB id up in a catalog of JSON files. It resolves the record's Filemoon embed link through the Filemoon playback API, including the AES-GCM envelope, and answers with the stream URL and a proxy link.
- `/api5` builds a toonstream page URL and finds the rubystm embed link on that page.
  - The rubystm extractor first scans the player page for `.m3u8` URLs.
  - If the page has none, it asks the `/dl` endpoint.
  - As a last resort, it unpacks a `p,a,c,k,e,d`-packed script.
  - The handler answers with the stream and a proxy link.
- `local-dev.js` turns URL search parameters into a query object and routes the three paths.

The model states each of these as Dafny functions and methods over strings, maps and sequences.
- **Regular expressions** become left-to-right scanners, with the leftmost-match and greedy or lazy semantics of JavaScript. The outer searches (`EmbedId.FindIdFrom`, `Api5.FindLinkFrom`, `M3u8Scan.Exec`, `Packer.MatchSignature`, `Packer.DictEnd`) are specified as "nothing exactly when no match starts from the position, otherwise the leftmost match". The matchers at a fixed position carry contracts on the shape of what they match.
- **`encodeURIComponent`** is modelled concretely.
- **Network, parsing and crypto:** the network, `new URL`, `decodeURIComponent`, base64 and UTF-8 byte decoding, AES-GCM and `JSON.parse` are inputs. They are function-valued fields of datatypes (`Platform.Web`, `Platform.Buffers`, `Filemoon.Crypto`, `Rubystm.Network`, `Api5.Site`).
- **The two deployments of a handler** are one Dafny member with a `Deployment` parameter wherever they differ.

Modules:
- `Wrappers`, `Text`, `Platform`, `PercentEncoding` hold the runtime.
- `ProxyInput`, `ProxyPolicy`, `Manifest`, `StreamingProxy` model the proxy.
- `M3u8Scan`, `Packer`, `EmbedId`, `Rubystm` model the rubystm extractor.
- `Filemoon` and `Catalog` support the `/api4` handler in `Api4`.
- `Api5` holds the `/api5` handler.
- `LocalDev` holds the development server.

## Model

| member | source | states |
|---|---|---|
| Text.Trim | api/proxy.js:150 | `trim` removes whitespace from the two ends only: the result is a contiguous slice of the input with only whitespace outside it, never begins or ends with whitespace, is blank exactly for all-whitespace text, and trimmed text is left alone |
| Text.EndsStrippedTrans | api/proxy.js:28-31 | stripping a character class from both ends twice is stripping it once |
| Text.Split | api/proxy.js:148 | `split('\n')` gives at least one piece and no piece holds the separator |
| Text.JoinSplit | api/proxy.js:173 | joining the pieces of a split with the separator gives the original text back |
| Text.SplitJoin | netlify/functions/proxy.js:140-165 | splitting a join of separator-free pieces gives the pieces back |
| Text.LastIndexOf | api/proxy.js:123 | `lastIndexOf('/')` is -1 or the index of a `/` with none after it |
| Text.ReplaceAllSame | api/api5.js:14 | a global replace of a pattern by itself changes nothing |
| Text.DecimalRoundTrip | api/proxy.js:189 | the decimal status printed in `Upstream error: <status>` reads back as the status |
| PercentEncoding.Encode | api/proxy.js:143-144 | `encodeURIComponent` output holds only unreserved characters and `%`, is empty exactly for empty input and is never shorter than it |
| PercentEncoding.EncodeFixedIff | api/proxy.js:143 | encoding leaves text unchanged exactly when every character is unreserved |
| PercentEncoding.EncodedHasNo | api/proxy.js:145 | no character outside the encoded set (`&`, `=`, line feed, quotes, blanks) appears in an encoded value |
| ProxyInput.ParamText | api/api4/index.js:22 | `String(id)`: a string is itself, an array is its items joined by commas |
| ProxyInput.NormalizeInput | api/proxy.js:32-37 | an array parameter contributes its first element, an empty array nothing, a string itself |
| ProxyInput.SafeDecode | api/proxy.js:20-27 | one decoding step; an empty or missing value or one on which decoding throws is returned unchanged, any change is the decoder's result |
| ProxyInput.DecodeRepeatedly | api/proxy.js:38-48 | the loop computes the three-round decoding `DecodeTimes(web, value, 3)` |
| ProxyInput.DecodeAtMost | netlify/functions/proxy.js:34-44 | the decoded value is that of between one and `n` plain decoding steps |
| ProxyInput.DecodeStable | api/proxy.js:42-44 | a value decoding leaves unchanged comes back as it is |
| ProxyInput.DecodeEncoded | api/proxy.js:49-51 | a target percent-encoded `k` times, `k` at most the number of rounds, decodes back to the target |
| ProxyInput.MultiplyEncodedSameTarget | netlify/functions/proxy.js:46 | single-, double- and triple-encoded targets resolve to the same target |
| ProxyInput.StripRun | api/proxy.js:30 | the global replace of a leading or trailing run of `c` removes those runs only: the result is a contiguous slice of the input with only `c` outside it and no `c` at either end, and settled text is kept |
| ProxyInput.Sanitize | api/proxy.js:28-31 | trim then strip backticks, double and single quotes at the ends: the result is a contiguous slice of the input with only whitespace, backticks and quotes outside it; missing stays missing, no single quote at either end, settled values kept |
| ProxyInput.PromoteProtocolRelative | api/proxy.js:53-55 | a `//host` target gets `https:`, anything else is unchanged, and the result never starts with `//` |
| ProxyInput.ValidateTarget | api/proxy.js:49-64 | 400 `URL is required` exactly for an empty decoded target, `Invalid URL` exactly for one that does not parse, otherwise the decoded target and its parse |
| ProxyPolicy.UpstreamHeaderMap | api/proxy.js:65-86 | the header keys are User-Agent, Referer, Accept, Origin unless pinned and Range when sent; the pinned host gets the fixed referer, others the derived origin |
| ProxyPolicy.UpstreamHeaders | netlify/functions/proxy.js:62-82 | the in-place header building yields `UpstreamHeaderMap` and the reassigned `decodedReferer` |
| ProxyPolicy.PinnedIgnoresCallerReferer | api/proxy.js:77-79 | for the pinned host the caller's referer has no effect on the upstream headers |
| ProxyPolicy.OriginMatchesReferer | api/proxy.js:67-71 | for other hosts the `Origin` sent is the origin of the `Referer` sent whenever it parses |
| ProxyPolicy.CacheControl | api/proxy.js:115-119 | segments (`.ts`, `.m4s`) are immutable, playlists `no-cache`, anything else none, each case exactly |
| ProxyPolicy.OutHeaderMap | api/proxy.js:97-119 | the answer headers: CORS, content type with the HLS default, length and range when sent, `Accept-Ranges` defaulting to `bytes`, cache policy, and no other key |
| ProxyPolicy.OutHeaders | netlify/functions/proxy.js:94-110 | the step-by-step header object equals `OutHeaderMap` |
| ProxyPolicy.RelayStatus | api/proxy.js:177-181 | 206 exactly when the upstream answered 206 or sent `Content-Range`, otherwise the upstream status |
| ProxyPolicy.PartialAnswerHeaders | netlify/functions/proxy.js:100-104 | when the upstream sends `Content-Range`, the answer is 206 and carries that `Content-Range` and an `Accept-Ranges` (an upstream 206 without `Content-Range` is relayed without one) |
| Manifest.BasePath | api/proxy.js:123 | the playlist URL up to and including its last `/`, a prefix with no `/` after it |
| Manifest.ToProxyUrl | api/proxy.js:138-146 | an http(s) resolution becomes the proxy link for it and the referer; anything else is kept verbatim |
| Manifest.ProxyLinkQuery | api/proxy.js:145 | a proxy link's query splits on `&` into exactly the `url` and `referer` parameters, neither value holding `&` or `=` |
| Manifest.QuotedEnd | api/proxy.js:154 | `URI="..."` with at least one character: the closing quote, no quote inside; otherwise none starts there |
| Manifest.ValueRun | api/proxy.js:158 | the longest run of `[^",\s]` characters |
| Manifest.QuotedAttr | api/proxy.js:154-157 | for any replacement callback `link` (in a directive, `toProxyUrl`), a quoted attribute `URI="v"` becomes `URI="` + `link(v)` + `"`, and the pass goes on after the closing quote |
| Manifest.UnquotedSkipsQuote | api/proxy.js:158-161 | for any callback, the unquoted pass leaves the `URI="` head as it is and goes on with the text after it |
| Manifest.UnquotedAttr | api/proxy.js:158-161 | for any callback `link`, an unquoted attribute `URI=v`, `v` the longest run of `[^",\s]`, becomes `URI=` + `link(v)` and the pass goes on after `v` |
| Manifest.QuotedUnchanged | api/proxy.js:154-157 | for any callback, the quoted pass leaves a directive without `URI=` unchanged |
| Manifest.UnquotedUnchanged | api/proxy.js:158-161 | for any callback, the unquoted pass leaves a directive without `URI=` unchanged |
| Manifest.DirectiveWithoutUri | netlify/functions/proxy.js:144-154 | a directive without `URI=` is passed through trimmed |
| Manifest.DirectiveStaysDirective | api/proxy.js:153-162 | a rewritten directive still starts with `#` |
| Manifest.BlankIffBlank | api/proxy.js:150-152 | a rewritten line is blank exactly when the input line is |
| Manifest.ToProxyUrlNoBreak | api/proxy.js:143-145 | proxy links hold no line feed |
| Manifest.RewriteLineNoBreak | api/proxy.js:149-171 | a rewritten line holds no line feed |
| Manifest.ManifestLines | api/proxy.js:148-173 | the rewritten playlist has as many lines as the original, line `i` being the rewrite of line `i` |
| StreamingProxy.Serve | api/proxy.js:3-194 | both handlers: the early 400/OPTIONS answers in each deployment's order, validation errors, `Proxy error` 500, `Upstream error` for status 500 and above, rewritten playlists with the upstream status, relayed bytes (raw or base64) with `RelayStatus` |
| StreamingProxy.EncodedParamRoundTrip | api/proxy.js:49-52 | a value the proxy encoded into a link comes back intact from the next request's decoding and sanitising |
| StreamingProxy.ProxiedLinkRoundTrip | netlify/functions/proxy.js:130-138 | following a rewritten link makes the proxy fetch exactly the resolved URL with the same referer |
| EmbedId.AlnumRun | api/api5/extractors/rubystm.js:95 | the greedy `[a-zA-Z0-9]+` run at a position |
| EmbedId.MarkerMatch | api/api5/extractors/rubystm.js:94-97 | a match of one of the markers `/e/`, `/d/`, `/v/`, `/embed/` at a position puts the id start after it, on an alphanumeric character |
| EmbedId.MarkerMatchSpec | api/api4/extractors/filemoon.js:18 | a match at a position exists exactly when some alternative matches there, and uses the first alternative that does |
| EmbedId.FindIdFromSpec | netlify/functions/api4.js:20 | the search finds nothing exactly when no match starts from the position, otherwise the id of the leftmost match |
| EmbedId.FindId | api/api4/extractors/filemoon.js:18-23 | `url.match(...)[1]`: none exactly when no marker is followed by an alphanumeric, otherwise a non-empty alphanumeric id |
| EmbedId.EmbedLinkId | api/api5/extractors/rubystm.js:138 | the id of `https://<host>/<m>/<code><rest>` is `code` |
| Packer.ToRadix | api/api5/extractors/rubystm.js:76 | `i.toString(a)` is a non-empty string of base-`a` digits |
| Packer.RadixRoundTrip | api/api5/extractors/rubystm.js:74-76 | reading a token back in base `a` gives its number |
| Packer.TokensDistinct | api/api5/extractors/rubystm.js:74-79 | distinct indices have distinct tokens |
| Packer.TokenIsWord | api/api5/extractors/rubystm.js:76 | tokens are words, so `\b` delimits them |
| Packer.UnpackPacker | api/api5/extractors/rubystm.js:71-81 | the loop over `i = c-1 … 0` computes `UnpackSteps` |
| Packer.UnpackRoundTrip | api/api5/extractors/rubystm.js:72-80 | unpacking a payload whose words were replaced by dictionary tokens gives back the words |
| Packer.StepOnRender | api/api5/extractors/rubystm.js:77 | one step replaces exactly the whole-word references to one index by its entry |
| Packer.RenderSame | api/api5/extractors/rubystm.js:75 | an index without a dictionary entry is skipped |
| Packer.WordMatchIsWhole | api/api5/extractors/rubystm.js:76 | a whole-word match at the start of a word is that word |
| Packer.ArgsAt | api/api5/extractors/rubystm.js:84 | `',\s*(\d+),\s*(\d+),\s*'` gives two numerals and the dictionary start |
| Packer.DictEnd | api/api5/extractors/rubystm.js:84 | the lazy dictionary ends at the first closing `.split` call at or after its start; none exactly when no such call follows |
| Packer.SignatureAt | api/api5/extractors/rubystm.js:84 | a match of the pattern at a position begins with its head and has numeric base and count |
| Packer.MatchSignatureSpec | api/api5/extractors/rubystm.js:84-85 | `html.match` finds nothing exactly when the pattern matches at no start, otherwise the match at the leftmost start |
| Packer.SignatureFound | api/api5/extractors/rubystm.js:84-85 | a page where the pattern matches anywhere has a signature |
| Packer.UnpackedScript | api/api5/extractors/rubystm.js:83-92 | nothing without a signature, with a zero base or count, an empty dictionary or over 5000 tokens; otherwise the unescaped payload unpacked with the base, the unescaped dictionary split on vertical bars and the count |
| Packer.UnpackedScriptRoundTrip | api/api5/extractors/rubystm.js:83-92 | a page whose packed script holds a tokenised payload and its dictionary yields the script with every word put back |
| Packer.UnpackPackedScript | api/api5/extractors/rubystm.js:86-91 | the method computes `UnpackedScript` |
| M3u8Scan.NormalizeUnescapesSlashes | api/api5/extractors/rubystm.js:12-19 | normalising undoes JSON `\/` escaping of a URL |
| M3u8Scan.UnescapeSlashes | api/api5/extractors/rubystm.js:16 | replacing `\/` by `/` inverts escaping every `/` |
| M3u8Scan.ResolveStreamUrl | api/api5/extractors/rubystm.js:21-34 | empty gives nothing, `//` gets `https:`, absolute URLs are kept; anything else is the `href` of its resolution against the base, or nothing when `new URL` throws |
| M3u8Scan.Run | api/api5/extractors/rubystm.js:39 | the greedy run of allowed characters |
| M3u8Scan.KeyAt | api/api5/extractors/rubystm.js:41 | the quoted key alternative that occurs at a position |
| M3u8Scan.ColonQuote | api/api5/extractors/rubystm.js:42 | `\s*:\s*` and the opening quote end after the quote |
| M3u8Scan.ClosedValue | api/api5/extractors/rubystm.js:41-42 | a captured quoted value mentions `.m3u8` and is closed by a non-value character |
| M3u8Scan.OpenUrl | api/api5/extractors/rubystm.js:39-40 | an unquoted URL match is the prefix and the URL-character run, mentioning `.m3u8` |
| M3u8Scan.PlayerValueStart | api/api5/extractors/rubystm.js:43 | `player.src(` with its optional parts ends after the opening quote |
| M3u8Scan.MatchAt | api/api5/extractors/rubystm.js:39-43 | a pass's match at a position has a non-empty capture; the absolute pass captures an http(s) URL |
| M3u8Scan.ExecSpec | api/api5/extractors/rubystm.js:47 | `exec` from `lastIndex` finds nothing exactly when no match starts at or after it, otherwise the match that starts leftmost |
| M3u8Scan.HitFound | api/api5/extractors/rubystm.js:45-50 | a match at or after `lastIndex` is not missed: `exec` returns a match, and its capture is collected |
| M3u8Scan.CollectMatches | api/api5/extractors/rubystm.js:45-51 | the `exec` loop adds the resolutions of all captures of one pass |
| M3u8Scan.ExtractM3u8Urls | api/api5/extractors/rubystm.js:36-69 | the five passes in order compute `Candidates` |
| M3u8Scan.AddAllConcat | api/api5/extractors/rubystm.js:53-66 | adding two capture lists is adding one then the other |
| M3u8Scan.AddAllFacts | api/api5/extractors/rubystm.js:38 | the insertion-ordered set holds each URL once, only resolutions, every resolution, and only grows |
| M3u8Scan.AddAllFirst | api/api5/extractors/rubystm.js:68 | the first element is the first capture that resolves |
| M3u8Scan.CandidatesAreResolvedCaptures | api/api5/extractors/rubystm.js:53-66 | the candidates are distinct, exactly the resolutions of the captures of the five passes, non-empty exactly when one resolves, and start with the first |
| M3u8Scan.AbsoluteUrlWins | api/api5/extractors/rubystm.js:54-57 | a page with an absolute `.m3u8` URL yields the first one, as written, first |
| M3u8Scan.AddAllNoEmpty | api/api5/extractors/rubystm.js:49 | no candidate is empty |
| Rubystm.PageOrigin | api/api5/extractors/rubystm.js:122-124 | the origin of the final URL, else of the player URL, never empty; none exactly when both are missing or empty |
| Rubystm.ExtractFromRubystm | api/api5/extractors/rubystm.js:107-190 | a result has a non-empty stream URL and exactly User-Agent (one of the two), Referer `<origin>/` and Origin; no result when the player page fails or yields no origin |
| Rubystm.StreamFromCandidates | api/api5/extractors/rubystm.js:126-183 | whatever stage answers, its stream URL is non-empty and comes with the stream headers of the origin; a page with candidates answers with the first of them |
| Rubystm.DirectCandidateWins | api/api5/extractors/rubystm.js:126-136 | a page with its own candidate answers without consulting `/dl`, with its first candidate |
| Rubystm.NoCodeNoFallback | api/api5/extractors/rubystm.js:138-186 | without an embed code in the final URL there is no fallback |
| Rubystm.DlCandidateWins | api/api5/extractors/rubystm.js:138-168 | with no page candidate and a `/dl` answer that has candidates, the answer is the first `/dl` candidate with the stream headers |
| Rubystm.DlFailureGivesNothing | api/api5/extractors/rubystm.js:146-155 | with no page candidate, a failing `/dl` request gives no answer |
| Rubystm.UnpackedFallback | api/api5/extractors/rubystm.js:170-183 | with no direct or `/dl` candidate, the answer is the first candidate of the unpacked script |
| Filemoon.FromUrlSafe | api/api4/extractors/filemoon.js:5 | `-` becomes `+` and `_` becomes `/`, character by character |
| Filemoon.Ft | api/api4/extractors/filemoon.js:4-9 | the translated text padded with at most three `=` to a multiple of four |
| Filemoon.FtRestoresPadding | netlify/functions/api4.js:6-11 | padding the URL-safe unpadded encoding of any bytes gives their standard encoding |
| Filemoon.XnAppend | api/api4/extractors/filemoon.js:11-14 | the key of concatenated part lists is the concatenation of their keys |
| Filemoon.XnLength | netlify/functions/api4.js:13-16 | the key length is the sum of the decoded part lengths |
| Filemoon.RelativeIndex | api/api4/extractors/filemoon.js:51-52 | `subarray` indices counted from the end when negative and clamped |
| Filemoon.SplitEnvelope | netlify/functions/api4.js:52-54 | ciphertext and tag always make up the payload; the tag is the last 16 bytes when there are that many |
| Filemoon.SourcesOf | api/api4/extractors/filemoon.js:37-62 | plain sources win, otherwise the decrypted ones, otherwise none |
| Filemoon.ResolveSources | netlify/functions/api4.js:39-64 | the assignments to `sources` compute `SourcesOf` |
| Filemoon.PlainSourcesWin | api/api4/extractors/filemoon.js:39-45 | a present `sources` array, even an empty one, keeps the envelope closed |
| Filemoon.Link | api/api4/extractors/filemoon.js:66 | the `file` field or else the `url` field: the file when non-empty, none exactly when both are empty |
| Filemoon.Select | api/api4/extractors/filemoon.js:65 | the first HLS source, or the first source when none is HLS |
| Filemoon.ExtractFromFilemoon | api/api4/extractors/filemoon.js:16-85 | none without a media id or a parsable URL; a result has a non-empty stream URL and exactly User-Agent and Referer `https://<host>/` |
| Filemoon.StreamIsSelectedLink | netlify/functions/api4.js:66-80 | the stream URL is the link of the selected source |
| Filemoon.EmbedLinkApi | netlify/functions/api4.js:20-36 | an embed link `https://<host>/e/<code>` is answered from that host's playback API for that code |
| Catalog.JsonEntries | api/api4/index.js:12 | exactly the entries whose name ends with `.json` |
| Catalog.JsonEntriesAppend | api/api4/index.js:12 | the filter keeps the listing's order: filtering two pieces and joining them is filtering the joined listing |
| Catalog.JsonEntriesSingle | api/api4/index.js:12 | a single entry is kept exactly when its name ends with `.json` |
| Catalog.FindIndex | api/api4/index.js:22 | the first record with the id, or none |
| Catalog.FirstMatchSpec | api/api4/index.js:14-31 | nothing exactly when no file holds the id; otherwise a record with the id from the first file holding one |
| Catalog.FindMovieById | netlify/functions/api4.js:89-112 | the loop over the files computes `FirstMatch` |
| Api4.Handle | api/api4/index.js:34-111 | 200/405/400/500/404/500/502 exactly as the source orders them, 404 being the not-in-catalog error; a success answers the requested id, the first catalog record, the extractor's stream and the proxy link with the Filemoon referer |
| Api4.AnswerLinkQuery | netlify/functions/api4.js:170-174 | the answer's proxy link is a two-parameter `/api/proxy` query |
| Api4.FilemoonRefererUsed | api/api4/index.js:90 | the referer handed to the proxy is the extractor's `https://<host>/` |
| Api5.ToonstreamUrlsDistinct | api/api5.js:4-9 | movie and episode pages never share a URL, and a movie URL determines its id |
| Api5.NormalizeHtmlAsWrittenSteps | api/api5.js:11-18 | the unescaping as written only undoes `\/` and `&amp;` |
| Api5.AsWrittenKeepsUnicodeSlashes | api/api5.js:14 | text with slashes written `\u002F` stays escaped (see Findings) |
| Api5.AsWrittenMissesEscapedLinks | api/api5.js:20-25 | on such a page the search as written finds no link, the intended one finds the unescaped page's link |
| Api5.NormalizeUndoesUnicodeSlashes | api/api5.js:13-17 | the intended unescaping restores slashes written `\u002F` |
| Api5.FindLinkFromSpec | api/api5.js:22-24 | the link search finds nothing exactly when no match starts, otherwise the leftmost match |
| Api5.NoSlashNoLink | api/api5.js:22 | text without `/` holds no link |
| Api5.LinkAtIsEmbed | api/api5.js:22 | every match starts with `https://rubystm.com/` and carries an id the extractor's pattern recovers |
| Api5.FoundLinkIsEmbed | api/api5.js:89 | the leftmost link found in any text is such an embed link |
| Api5.Api5Base | api/api5.js:108-110 | the base starts with the forwarded protocol (`https` by default) and `://`, and ends with the forwarded host, else the `Host` header, else `localhost` |
| Api5.Handle | api/api5.js:27-132 | 200/405/400×3 in order; for a valid query: fetch error 500 with its message, 404 without a link, 500 when the extractor fails, otherwise the page URL, the leftmost link in the page as `normalizeHtml` of `api/api5.js` leaves it (its `\u002F`/`\u0026` escapes not undone), the extractor's stream and its proxy link |
| LocalDev.Store | local-dev.js:7-15 | a truthy current value becomes an array, anything else is replaced by the value |
| LocalDev.KeySlotSnoc | local-dev.js:8-12 | one more value for a key is one more step of the loop body |
| LocalDev.ParseQuery | local-dev.js:4-18 | a key is present exactly when it occurs, and holds `Expected` of its values |
| LocalDev.OwnKeysOnly | local-dev.js:5 | for keys the object does not inherit, the result depends on the key's own values only |
| LocalDev.KeySlotSpec | local-dev.js:6-16 | a key holds its last value while all earlier ones are empty, otherwise the array from the first non-empty value on |
| LocalDev.SingleValue | local-dev.js:13-15 | a key given once holds its value |
| LocalDev.RepeatedValues | local-dev.js:8-12 | a repeated key with a non-empty first value holds all its values in order |
| LocalDev.EmptyOverwritten | local-dev.js:7 | an empty first value is overwritten by the next |
| LocalDev.InheritedKeyAsWritten | local-dev.js:7 | a key naming an inherited member becomes an array holding that member (see Findings) |
| LocalDev.AsParam | local-dev.js:52 | a key is missing from the handlers' view exactly when it is missing from the query |
| LocalDev.TruthyParam | local-dev.js:50-52 | a parsed parameter is truthy exactly when one of its values is non-empty |
| LocalDev.Dispatch | local-dev.js:55-70 | `/api4`, `/api5` and `/api/proxy` each reach their handler exactly, anything else the 404 |

## Left out

- Network I/O: every upstream answer, the page fetch and the playback API are inputs of the model; timeouts and redirects are what those inputs return.
- `new URL`, URL resolution, `decodeURIComponent`, base64 and UTF-8 byte decoding, AES-256-GCM decryption and `JSON.parse` are parameters (`Platform.Web`, `Platform.Buffers`, `Filemoon.Crypto`); they are foreign code.
- `Math.random` in the user-agent choice is the `choice` parameter.
- `res.setHeader` plumbing: the CORS and cache headers of `/api4` and `/api5`, and the extra JSON fields (`tmdb_id` on errors, `provider_url`, `source`, `details`, `required`, `examples`), are not part of the reply datatypes.
- Packer.UnpackPacker: the `$` substitution patterns of `String.prototype.replace` in dictionary words are not modelled; the words are inserted literally.
- LocalDev.ParseQuery: a `__proto__` key, which assigns the prototype instead of a property, is not modelled.
- `enhanceResponse`, the server start-up and the `PORT` environment variable of `local-dev.js` are I/O.
- `api/api5/index.js`, which `local-dev.js` loads for `/api5`, is not part of this model; `LocalDev.Dispatch` names the route only.
- Api4.Handle: a failing dynamic `import` of the extractor, and throwing `readdir` other than as a missing catalog, are not modelled; a throwing file read or parse is the `Unreadable` document.
- Api4.Handle and StreamingProxy.Serve require that Netlify query parameters are single strings, which is what Netlify delivers.
- Catalog.FindIndex: an array element that is `null` or `undefined`, on which reading `tmdb_id` throws so that the rest of that file is skipped, is not modelled; records are always objects.
- Rubystm.ExtractFromRubystm: the fetched `response.data` is taken to be text; a JSON-parsed body is not modelled.
- Api5.Handle: the fetched page is taken to be text. A truthy `response.data` that is not a string makes the `.replace` calls of `normalizeHtml` throw, which leads to the 500 answer; that path is not modelled.
- Packer.BodyFrom and Packer.PayloadFrom: the lazy searches inside the signature are stated only by their numeric-fields contract. Which end they pick is fixed by their definitions, but there is no separate lemma for it.
- Filemoon.ExtractFromFilemoon: source entries that are not objects and `sources` values that are truthy but not arrays are not modelled. Nor is a truthy `file` or `url` field that is not a string: `.includes` throws on it, so the extractor returns null. The model treats such a field as absent and falls back to `url`.
- Cookies, `Accept-Encoding` negotiation and response streaming are not modelled.

## Findings

| source | as written | input that shows it | evidently intended | confidence | as-written member | corrected member |
|---|---|---|---|---|---|---|
| api/api5.js:14-17 | the regular-expression literals `/\u002F/g` and `/\u0026/g` match the characters `/` and `&` themselves, so those steps replace a character by itself and the six-character escapes `\u002F` and `\u0026` stay in the page | a page whose link is written `https:\u002F\u002Frubystm.com\u002Fe\u002Fabc` (smallest case: the six characters `\u002F` for `/`) | unescape `\u002F` to `/` and `\u0026` to `&`, as `normalizeHtml` in the rubystm extractor does | not executed | Api5.AsWrittenMissesEscapedLinks | Api5.NormalizeUndoesUnicodeSlashes |
| local-dev.js:7 | `query[key]` on a plain object is truthy for inherited members such as `toString` and `constructor`, so the first value of such a key is stored as an array holding the inherited function and the value | `?toString=x` gives `[Function toString, 'x']` instead of `'x'` | test own properties only (for example with `Object.hasOwn` or a prototype-less object) | not executed | LocalDev.InheritedKeyAsWritten | LocalDev.KeySlotSpec |

`Api5.Handle` searches the page as `api/api5.js` writes it (`FindRubystmUrlAsWritten`), so the first finding is part of what the handler does. The corrected search, `FindRubystmUrl`, is stated only beside it.
