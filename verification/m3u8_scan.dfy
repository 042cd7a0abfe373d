/** The stream-URL scanner of the RubyStream extractor: unescaping of the
    page text, five regular-expression passes over it, resolution of what
    they capture, and collection into an insertion-ordered set. */
module M3u8Scan {
  import opened Wrappers
  import opened Text
  import opened Platform

  /** `normalizeHtml`: the six characters `\u002F` and the two characters
      `\/` become `/`, then `&amp;` and the six characters `\u0026` become
      `&`. */
  function NormalizeHtml(html: string): string {
    ReplaceAll(ReplaceAll(ReplaceAll(ReplaceAll(html, "\\u002F", "/"), "\\/", "/"), "&amp;", "&"), "\\u0026", "&")
  }

  /** JSON's optional escaping of every `/` as `\/`. */
  function EscapeSlashes(x: string): string {
    if |x| == 0 then "" else (if x[0] == '/' then "\\/" else [x[0]]) + EscapeSlashes(x[1..])
  }

  lemma {:induction false} EscapedBackslashes(x: string)
    requires '\\' !in x
    ensures forall i | 0 <= i < |EscapeSlashes(x)| && EscapeSlashes(x)[i] == '\\' ::
      i + 1 < |EscapeSlashes(x)| && EscapeSlashes(x)[i + 1] == '/'
  {
    if |x| > 0 {
      EscapedBackslashes(x[1..]);
      var head := if x[0] == '/' then "\\/" else [x[0]];
      var rest := EscapeSlashes(x[1..]);
      var e := head + rest;
      assert EscapeSlashes(x) == e;
      assert x[0] in x;
      forall i | 0 <= i < |e| && e[i] == '\\' ensures i + 1 < |e| && e[i + 1] == '/' {
        if i >= |head| {
          var k := i - |head|;
          assert rest[k] == e[i];
          assert e[i + 1] == rest[k + 1];
        }
      }
    }
  }

  lemma {:induction false} UnescapeSlashes(x: string)
    requires '\\' !in x
    ensures ReplaceAll(EscapeSlashes(x), "\\/", "/") == x
  {
    if |x| > 0 {
      var rest := EscapeSlashes(x[1..]);
      UnescapeSlashes(x[1..]);
      if x[0] == '/' {
        assert EscapeSlashes(x) == "\\/" + rest;
        assert (EscapeSlashes(x))[2..] == rest;
      } else {
        var e := [x[0]] + rest;
        assert EscapeSlashes(x) == e;
        if |e| >= 2 {
          assert e[1..] == rest;
        }
      }
    }
  }

  lemma NoUnicodeEscapeInEscaped(x: string)
    requires '\\' !in x
    ensures !Contains(EscapeSlashes(x), "\\u002F")
  {
    var e := EscapeSlashes(x);
    EscapedBackslashes(x);
    forall i | 0 <= i <= |e| - 6 ensures !OccursAt(e, "\\u002F", i) {
      assert e[i..i + 6][0] == e[i] && e[i..i + 6][1] == e[i + 1];
    }
  }

  lemma NoBackslashNoEscape(x: string, p: string)
    requires '\\' !in x && |p| > 0 && p[0] == '\\'
    ensures !Contains(x, p)
  {
    forall i | 0 <= i <= |x| - |p| ensures !OccursAt(x, p, i) {
      assert x[i] in x;
      assert x[i..i + |p|][0] == x[i];
    }
  }

  /** Normalising undoes JSON slash escaping: a URL written into a script
      as `https:\/\/host\/x.m3u8` reads back as the URL. */
  lemma NormalizeUnescapesSlashes(x: string)
    requires '\\' !in x && !Contains(x, "&amp;")
    ensures NormalizeHtml(EscapeSlashes(x)) == x
  {
    var e := EscapeSlashes(x);
    NoUnicodeEscapeInEscaped(x);
    ReplaceAllAbsent(e, "\\u002F", "/");
    UnescapeSlashes(x);
    ReplaceAllAbsent(x, "&amp;", "&");
    NoBackslashNoEscape(x, "\\u0026");
    ReplaceAllAbsent(x, "\\u0026", "&");
  }

  /** `resolveStreamUrl`: protocol-relative candidates get `https:`,
      absolute ones are kept, others are resolved against the page origin;
      nothing comes of an empty candidate or one that does not resolve. */
  function ResolveStreamUrl(web: Web, candidate: string, base: string): (r: Option<string>)
    ensures candidate == "" ==> r.None?
    ensures StartsWith(candidate, "//") ==> r == Some("https:" + candidate) && IsHttp(r.value)
    ensures IsHttp(candidate) ==> r == Some(candidate)
    ensures candidate != "" && !StartsWith(candidate, "//") && !IsHttp(candidate) ==>
      (web.resolve(candidate, base).Some? ==> r == Some(web.resolve(candidate, base).value.href))
      && (web.resolve(candidate, base).None? ==> r.None?)
  {
    if candidate == "" then None
    else if StartsWith(candidate, "//") then
      assert candidate[0] == '/' && !IsHttp(candidate);
      assert ("https:" + candidate)[..8] == "https:" + candidate[..2];
      Some("https:" + candidate)
    else if IsHttp(candidate) then Some(candidate)
    else
      assert !IsHttp(candidate);
      match web.resolve(candidate, base)
      case Some(u) => Some(u.href)
      case None => None
  }

  /** Length of the longest run of `allowed` characters starting at `i`. */
  function Run(s: string, i: nat, allowed: char -> bool): (n: nat)
    requires i <= |s|
    ensures i + n <= |s|
    ensures forall k | i <= k < i + n :: allowed(s[k])
    ensures i + n < |s| ==> !allowed(s[i + n])
    decreases |s| - i
  {
    if i < |s| && allowed(s[i]) then 1 + Run(s, i + 1, allowed) else 0
  }

  /** `[^\s"'<>]` */
  predicate IsUrlChar(c: char) {
    !IsJsSpace(c) && c != '"' && c != '\'' && c != '<' && c != '>'
  }

  predicate NotDoubleQuote(c: char) { c != '"' }

  predicate NotSingleQuote(c: char) { c != '\'' }

  /** `[^"']` */
  predicate NotQuote(c: char) { c != '"' && c != '\'' }

  /** The captured run of `X+\.m3u8X*`: since `.m3u8` is made of
      characters of `X`, the greedy match takes the whole run and succeeds
      when `.m3u8` occurs in it after at least one character. */
  predicate MentionsM3u8(run: string) {
    |run| >= 1 && Contains(run[1..], ".m3u8")
  }

  /** One match: the text of capture group 1 and where the match ends. */
  datatype Hit = Hit(capture: string, end: nat)

  /** The five passes, in the order they run. */
  datatype Layer = Absolute | ProtocolRelative | QuotedKey | SingleQuotedKey | PlayerSrc

  const Layers: seq<Layer> := [Absolute, ProtocolRelative, QuotedKey, SingleQuotedKey, PlayerSrc]

  const Keys: seq<string> := ["file", "source", "src", "url"]

  /** The first of `keys` that, wrapped in `quote`, occurs at `i`; at most
      one can, so the alternation's backtracking has no other choice. */
  function KeyAt(s: string, i: nat, keys: seq<string>, quote: string): (r: Option<string>)
    ensures r.Some? ==> r.value in keys && OccursAt(s, quote + r.value + quote, i)
  {
    if |keys| == 0 then None
    else if OccursAt(s, quote + keys[0] + quote, i) then Some(keys[0])
    else
      var r := KeyAt(s, i, keys[1..], quote);
      assert r.Some? ==> r.value in keys;
      r
  }

  /** `\s*:\s*` followed by the opening quote `q`, from `p`: the index after
      that quote. */
  function ColonQuote(s: string, p: nat, q: char): (r: Option<nat>)
    requires p <= |s|
    ensures r.Some? ==> p < r.value <= |s| && s[r.value - 1] == q
  {
    var a := p + Run(s, p, IsJsSpace);
    if a < |s| && s[a] == ':' then
      var b := a + 1 + Run(s, a + 1, IsJsSpace);
      if b < |s| && s[b] == q then Some(b + 1) else None
    else None
  }

  /** A quoted value from `v`: the run of `allowed` characters must be
      closed by a following character (necessarily a quote) and mention
      `.m3u8`. */
  function ClosedValue(s: string, v: nat, allowed: char -> bool): (r: Option<Hit>)
    requires v <= |s|
    ensures r.Some? ==> v < r.value.end <= |s| && MentionsM3u8(r.value.capture)
    ensures r.Some? ==> r.value.capture == s[v..r.value.end - 1] && !allowed(s[r.value.end - 1])
  {
    var n := Run(s, v, allowed);
    if v + n < |s| && MentionsM3u8(s[v..v + n]) then Some(Hit(s[v..v + n], v + n + 1)) else None
  }

  /** An unquoted URL whose fixed prefix occupies `width` characters at `i`:
      the whole prefix and the following run of URL characters. */
  function OpenUrl(s: string, i: nat, width: nat): (r: Option<Hit>)
    requires i + width <= |s|
    ensures r.Some? ==>
      (i + width < r.value.end <= |s|
       && r.value.capture == s[i..r.value.end]
       && MentionsM3u8(s[i + width..r.value.end]))
  {
    var j := i + width;
    var n := Run(s, j, IsUrlChar);
    if MentionsM3u8(s[j..j + n]) then Some(Hit(s[i..j + n], j + n)) else None
  }

  /** `player\.src\(\s*[{[]?\s*(?:src\s*:\s*)?["']` at `i`: the index after
      the opening quote. Each optional part is taken when present, which is
      the only way the rest can match. */
  function PlayerValueStart(s: string, i: nat): (r: Option<nat>)
    requires i <= |s|
    ensures r.Some? ==> i < r.value <= |s|
  {
    if !OccursAt(s, "player.src(", i) then None
    else
      var p1 := i + 11 + Run(s, i + 11, IsJsSpace);
      var p2 := if p1 < |s| && (s[p1] == '{' || s[p1] == '[') then p1 + 1 else p1;
      var p3 := p2 + Run(s, p2, IsJsSpace);
      var p4 :=
        if OccursAt(s, "src", p3) then
          var a := p3 + 3 + Run(s, p3 + 3, IsJsSpace);
          if a < |s| && s[a] == ':' then a + 1 + Run(s, a + 1, IsJsSpace) else p3
        else p3;
      if p4 < |s| && (s[p4] == '"' || s[p4] == '\'') then Some(p4 + 1) else None
  }

  /** The match of a pass that starts exactly at `i`, if any. */
  function MatchAt(layer: Layer, s: string, i: nat): (r: Option<Hit>)
    requires i <= |s|
    ensures r.Some? ==> i < r.value.end <= |s| && |r.value.capture| > 0
    ensures r.Some? && layer == Absolute ==> IsHttp(r.value.capture)
  {
    match layer
    case Absolute =>
      if OccursAt(s, "https://", i) then
        var r := OpenUrl(s, i, 8);
        assert r.Some? ==> r.value.capture[..8] == s[i..i + 8];
        r
      else if OccursAt(s, "http://", i) then
        var r := OpenUrl(s, i, 7);
        assert r.Some? ==> r.value.capture[..7] == s[i..i + 7];
        r
      else None
    case ProtocolRelative =>
      if OccursAt(s, "//", i) then OpenUrl(s, i, 2) else None
    case QuotedKey =>
      (match KeyAt(s, i, Keys, "\"")
       case None => None
       case Some(k) =>
         (match ColonQuote(s, i + |k| + 2, '"')
          case None => None
          case Some(v) => ClosedValue(s, v, NotDoubleQuote)))
    case SingleQuotedKey =>
      (match KeyAt(s, i, Keys, "")
       case None => None
       case Some(k) =>
         (match ColonQuote(s, i + |k|, '\'')
          case None => None
          case Some(v) => ClosedValue(s, v, NotSingleQuote)))
    case PlayerSrc =>
      (match PlayerValueStart(s, i)
       case None => None
       case Some(v) => ClosedValue(s, v, NotQuote))
  }

  /** `regex.exec(s)` with `lastIndex == from`: the leftmost match at or
      after `from`. */
  function Exec(layer: Layer, s: string, from: nat): (r: Option<Hit>)
    requires from <= |s|
    ensures r.Some? ==> from < r.value.end <= |s| && |r.value.capture| > 0
    ensures r.Some? && layer == Absolute ==> IsHttp(r.value.capture)
    decreases |s| - from
  {
    if from == |s| then None
    else match MatchAt(layer, s, from)
      case Some(h) => Some(h)
      case None => Exec(layer, s, from + 1)
  }

  /** No match of the pass starts in `[a, b)`. */
  predicate NoHitBetween(layer: Layer, s: string, a: nat, b: nat)
    requires b <= |s|
  {
    forall k | a <= k < b :: MatchAt(layer, s, k).None?
  }

  /** `exec` finds nothing exactly when no match starts at or after
      `lastIndex`, and otherwise the match that starts leftmost. */
  lemma {:induction false} ExecSpec(layer: Layer, s: string, from: nat)
    requires from <= |s|
    ensures Exec(layer, s, from).None? <==> NoHitBetween(layer, s, from, |s|)
    ensures Exec(layer, s, from).Some? ==> exists k | from <= k < |s| ::
      NoHitBetween(layer, s, from, k) && Exec(layer, s, from) == MatchAt(layer, s, k)
    decreases |s| - from
  {
    if from < |s| {
      if MatchAt(layer, s, from).Some? {
        assert NoHitBetween(layer, s, from, from);
      } else {
        ExecSpec(layer, s, from + 1);
        assert forall k | from + 1 <= k <= |s| :: NoHitBetween(layer, s, from + 1, k) ==> NoHitBetween(layer, s, from, k);
      }
    }
  }

  /** A match that starts at or after `lastIndex` is not missed: `exec`
      returns one whose capture is among the pass's captures. */
  lemma HitFound(layer: Layer, s: string, from: nat, k: nat)
    requires from <= k <= |s| && MatchAt(layer, s, k).Some?
    ensures Exec(layer, s, from).Some?
    ensures Exec(layer, s, from).value.capture in Captures(layer, s, from)
  {
    ExecSpec(layer, s, from);
  }

  /** The captures of successive `exec` calls, from `lastIndex == from`
      until there is no further match. */
  function Captures(layer: Layer, s: string, from: nat): seq<string>
    requires from <= |s|
    decreases |s| - from
  {
    match Exec(layer, s, from)
    case None => []
    case Some(h) => [h.capture] + Captures(layer, s, h.end)
  }

  /** The captures of the first `n` passes, in pass order. */
  function LayerCaptures(s: string, n: nat): seq<string>
    requires n <= |Layers|
  {
    if n == 0 then [] else LayerCaptures(s, n - 1) + Captures(Layers[n - 1], s, 0)
  }

  /** `if (resolved) urls.add(resolved)` on an insertion-ordered set. */
  function Add(urls: seq<string>, resolved: Option<string>): seq<string> {
    if resolved.Some? && resolved.value != "" && resolved.value !in urls then urls + [resolved.value] else urls
  }

  /** Adding the resolutions of `caps`, in order. */
  function AddAll(web: Web, urls: seq<string>, caps: seq<string>, base: string): seq<string>
    decreases |caps|
  {
    if |caps| == 0 then urls else AddAll(web, Add(urls, ResolveStreamUrl(web, caps[0], base)), caps[1..], base)
  }

  /** What `extractM3u8Urls` returns. */
  function Candidates(web: Web, html: string, base: string): seq<string> {
    AddAll(web, [], LayerCaptures(NormalizeHtml(html), |Layers|), base)
  }

  /** `collectMatches`: the `exec` loop of one pass. */
  method CollectMatches(web: Web, layer: Layer, s: string, base: string, urls0: seq<string>)
    returns (urls: seq<string>)
    ensures urls == AddAll(web, urls0, Captures(layer, s, 0), base)
  {
    urls := urls0;
    var lastIndex := 0;
    while true
      invariant lastIndex <= |s|
      invariant AddAll(web, urls, Captures(layer, s, lastIndex), base) == AddAll(web, urls0, Captures(layer, s, 0), base)
      decreases |s| - lastIndex
    {
      var m := Exec(layer, s, lastIndex);
      if m.None? {
        return;
      }
      var resolved := ResolveStreamUrl(web, m.value.capture, base);
      if resolved.Some? && resolved.value != "" {
        urls := Add(urls, resolved);
      }
      lastIndex := m.value.end;
    }
  }

  lemma {:induction false} AddAllConcat(web: Web, urls: seq<string>, xs: seq<string>, ys: seq<string>, base: string)
    ensures AddAll(web, urls, xs + ys, base) == AddAll(web, AddAll(web, urls, xs, base), ys, base)
    decreases |xs|
  {
    if |xs| > 0 {
      assert (xs + ys)[0] == xs[0] && (xs + ys)[1..] == xs[1..] + ys;
      AddAllConcat(web, Add(urls, ResolveStreamUrl(web, xs[0], base)), xs[1..], ys, base);
    } else {
      assert xs + ys == ys;
    }
  }

  /** `extractM3u8Urls`: the five passes in order, into one set. */
  method ExtractM3u8Urls(web: Web, html: string, base: string) returns (urls: seq<string>)
    ensures urls == Candidates(web, html, base)
  {
    var normalized := NormalizeHtml(html);
    urls := [];
    for n := 0 to |Layers|
      invariant urls == AddAll(web, [], LayerCaptures(normalized, n), base)
    {
      AddAllConcat(web, [], LayerCaptures(normalized, n), Captures(Layers[n], normalized, 0), base);
      urls := CollectMatches(web, Layers[n], normalized, base, urls);
    }
  }

  /** No duplicates. */
  predicate Distinct(xs: seq<string>) {
    forall i, j | 0 <= i < j < |xs| :: xs[i] != xs[j]
  }

  /** The first capture that resolves to a URL. */
  function FirstResolved(web: Web, caps: seq<string>, base: string): Option<string>
    decreases |caps|
  {
    if |caps| == 0 then None
    else
      var r := ResolveStreamUrl(web, caps[0], base);
      if r.Some? && r.value != "" then r else FirstResolved(web, caps[1..], base)
  }

  /** The set behaves as a set: each URL once, each one the resolution of a
      capture, every resolution present, and the list only grows. */
  lemma {:induction false} AddAllFacts(web: Web, urls: seq<string>, caps: seq<string>, base: string)
    requires Distinct(urls)
    ensures var r := AddAll(web, urls, caps, base);
      Distinct(r) && |r| >= |urls| && r[..|urls|] == urls
      && (forall i | 0 <= i < |caps| :: ResolveStreamUrl(web, caps[i], base).Some? && ResolveStreamUrl(web, caps[i], base).value != ""
            ==> ResolveStreamUrl(web, caps[i], base).value in r)
      && (forall x | x in r && x !in urls :: exists i | 0 <= i < |caps| :: ResolveStreamUrl(web, caps[i], base) == Some(x))
    decreases |caps|
  {
    if |caps| > 0 {
      var res := ResolveStreamUrl(web, caps[0], base);
      var next := Add(urls, res);
      assert Distinct(next);
      AddAllFacts(web, next, caps[1..], base);
      var r := AddAll(web, next, caps[1..], base);
      assert r[..|urls|] == urls by {
        assert r[..|next|] == next;
        assert next[..|urls|] == urls;
      }
      forall i | 0 <= i < |caps| && ResolveStreamUrl(web, caps[i], base).Some? && ResolveStreamUrl(web, caps[i], base).value != ""
        ensures ResolveStreamUrl(web, caps[i], base).value in r
      {
        if i == 0 {
          assert res.value in next;
          assert next == r[..|next|];
        } else {
          assert caps[1..][i - 1] == caps[i];
        }
      }
      forall x | x in r && x !in urls
        ensures exists i | 0 <= i < |caps| :: ResolveStreamUrl(web, caps[i], base) == Some(x)
      {
        if x in next {
          assert ResolveStreamUrl(web, caps[0], base) == Some(x);
        } else {
          var i :| 0 <= i < |caps[1..]| && ResolveStreamUrl(web, caps[1..][i], base) == Some(x);
          assert caps[i + 1] == caps[1..][i];
        }
      }
    }
  }

  /** Starting from an empty set, the first element is the first capture
      that resolves. */
  lemma {:induction false} AddAllFirst(web: Web, caps: seq<string>, base: string)
    ensures var r := AddAll(web, [], caps, base);
      (|r| > 0 <==> FirstResolved(web, caps, base).Some?)
      && (|r| > 0 ==> r[0] == FirstResolved(web, caps, base).value)
    decreases |caps|
  {
    if |caps| > 0 {
      var res := ResolveStreamUrl(web, caps[0], base);
      if res.Some? && res.value != "" {
        assert Add([], res) == [res.value];
        AddAllFacts(web, [res.value], caps[1..], base);
        var r := AddAll(web, [res.value], caps[1..], base);
        assert r[..1] == [res.value];
        assert r[0] == r[..1][0];
      } else {
        assert Add([], res) == [];
        AddAllFirst(web, caps[1..], base);
      }
    }
  }

  /** Everything the five passes capture on the normalised page, in order. */
  function PageCaptures(html: string): seq<string> {
    LayerCaptures(NormalizeHtml(html), |Layers|)
  }

  /** The candidate list holds no URL twice, exactly the resolutions of the
      captures of the five passes, and starts with the first of them. */
  lemma CandidatesAreResolvedCaptures(web: Web, html: string, base: string)
    ensures Distinct(Candidates(web, html, base))
    ensures forall x :: x in Candidates(web, html, base) <==>
      x != "" && exists i | 0 <= i < |PageCaptures(html)| :: ResolveStreamUrl(web, PageCaptures(html)[i], base) == Some(x)
    ensures |Candidates(web, html, base)| > 0 <==> FirstResolved(web, PageCaptures(html), base).Some?
    ensures |Candidates(web, html, base)| > 0 ==>
      Candidates(web, html, base)[0] == FirstResolved(web, PageCaptures(html), base).value
  {
    var caps := PageCaptures(html);
    var r := AddAll(web, [], caps, base);
    assert r == Candidates(web, html, base);
    AddAllFacts(web, [], caps, base);
    AddAllFirst(web, caps, base);
    AddAllNoEmpty(web, [], caps, base);
    forall x ensures x in r <==> x != "" && exists i | 0 <= i < |caps| :: ResolveStreamUrl(web, caps[i], base) == Some(x) {
      if x != "" && exists i | 0 <= i < |caps| :: ResolveStreamUrl(web, caps[i], base) == Some(x) {
        var i :| 0 <= i < |caps| && ResolveStreamUrl(web, caps[i], base) == Some(x);
        assert ResolveStreamUrl(web, caps[i], base).value in r;
      }
    }
  }

  lemma {:induction false} LayerCapturesHead(s: string, n: nat)
    requires 1 <= n <= |Layers|
    requires |Captures(Absolute, s, 0)| > 0
    ensures |LayerCaptures(s, n)| > 0 && LayerCaptures(s, n)[0] == Captures(Absolute, s, 0)[0]
  {
    if n > 1 {
      LayerCapturesHead(s, n - 1);
    }
  }

  /** A page with an absolute `http(s)` URL mentioning `.m3u8` yields the
      first such URL, exactly as written, as its first candidate. */
  lemma AbsoluteUrlWins(web: Web, html: string, base: string)
    requires |Captures(Absolute, NormalizeHtml(html), 0)| > 0
    ensures var first := Captures(Absolute, NormalizeHtml(html), 0)[0];
      |Candidates(web, html, base)| > 0 && Candidates(web, html, base)[0] == first && IsHttp(first)
  {
    var s := NormalizeHtml(html);
    var h := Exec(Absolute, s, 0).value;
    assert Captures(Absolute, s, 0)[0] == h.capture;
    LayerCapturesHead(s, |Layers|);
    var caps := PageCaptures(html);
    assert caps[0] == h.capture;
    assert ResolveStreamUrl(web, h.capture, base) == Some(h.capture);
    assert FirstResolved(web, caps, base) == Some(h.capture);
    CandidatesAreResolvedCaptures(web, html, base);
  }

  lemma {:induction false} AddAllNoEmpty(web: Web, urls: seq<string>, caps: seq<string>, base: string)
    requires "" !in urls
    ensures "" !in AddAll(web, urls, caps, base)
    decreases |caps|
  {
    if |caps| > 0 {
      AddAllNoEmpty(web, Add(urls, ResolveStreamUrl(web, caps[0], base)), caps[1..], base);
    }
  }
}
