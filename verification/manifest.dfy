/** The HLS playlist rewriter of the streaming proxy: every segment line and
    every `URI=` attribute of a directive is replaced by a link back through
    the proxy, so that the player fetches everything with the proxy's
    headers. */
module Manifest {
  import opened Wrappers
  import opened Text
  import opened Platform
  import opened PercentEncoding

  /** What the rewriter closes over: the URL parser, the playlist's own URL
      (`decodedUrl`), the referer to forward (`decodedReferer`) and the
      proxy's public base `<proto>://<host>`. */
  datatype Context = Context(web: Web, target: string, referer: string, proxyBase: string)

  /** The directory part of the playlist URL, up to and including its last
      slash (empty when it has none). */
  function BasePath(target: string): (b: string)
    ensures |b| <= |target| && b == target[..|b|]
    ensures b == [] || b[|b| - 1] == '/'
    ensures '/' !in target[|b|..]
  {
    target[..LastIndexOf(target, '/') + 1]
  }

  /** `resolveUrl`: an http(s) reference resolved against the playlist URL;
      empty input, an unresolvable one or another scheme comes back as it
      was. */
  function ResolveUrl(ctx: Context, input: string): string {
    if input == "" then input
    else match ctx.web.resolve(input, ctx.target)
      case None => input
      case Some(u) => if u.protocol != "http:" && u.protocol != "https:" then input else u.href
  }

  /** The link through the proxy for an absolute URL. */
  function ProxyLink(proxyBase: string, url: string, referer: string): string {
    proxyBase + "/api/proxy?url=" + Encode(url) + "&referer=" + Encode(referer)
  }

  /** `toProxyUrl`: an http(s) URL (after resolution) becomes a proxy link
      carrying it and the referer; anything else is kept. */
  function ToProxyUrl(ctx: Context, input: string): (r: string)
    ensures IsHttp(ResolveUrl(ctx, input)) ==> r == ProxyLink(ctx.proxyBase, ResolveUrl(ctx, input), ctx.referer)
    ensures !IsHttp(ResolveUrl(ctx, input)) ==> r == input
  {
    var resolved := ResolveUrl(ctx, input);
    if resolved == "" || !IsHttp(resolved) then input
    else ProxyLink(ctx.proxyBase, resolved, ctx.referer)
  }

  /** The query string of a proxy link splits on `&` into exactly the `url`
      and `referer` parameters, and neither encoded value contains `=` or
      `&`, so both are recovered intact by a query parser. */
  lemma ProxyLinkQuery(proxyBase: string, url: string, referer: string)
    ensures var q := "url=" + Encode(url) + "&referer=" + Encode(referer);
      ProxyLink(proxyBase, url, referer) == proxyBase + "/api/proxy?" + q
      && Split(q, '&') == ["url=" + Encode(url), "referer=" + Encode(referer)]
    ensures '=' !in Encode(url) && '&' !in Encode(url)
    ensures '=' !in Encode(referer) && '&' !in Encode(referer)
  {
    var eu := Encode(url);
    var er := Encode(referer);
    EncodedHasNo(url, '&');
    EncodedHasNo(referer, '&');
    EncodedHasNo(url, '=');
    EncodedHasNo(referer, '=');
    QueryPieces(eu, er);
    LinkShape(proxyBase, eu, er);
  }

  lemma LinkShape(proxyBase: string, eu: string, er: string)
    ensures proxyBase + "/api/proxy?url=" + eu + "&referer=" + er
         == proxyBase + "/api/proxy?" + ("url=" + eu + "&referer=" + er)
  {
    assert "/api/proxy?url=" == "/api/proxy?" + "url=";
  }

  lemma QueryPieces(eu: string, er: string)
    requires '&' !in eu && '&' !in er
    ensures var pieces := ["url=" + eu, "referer=" + er];
      Join(pieces, '&') == "url=" + eu + "&referer=" + er
      && Split(Join(pieces, '&'), '&') == pieces
  {
    var pieces := ["url=" + eu, "referer=" + er];
    assert Join(pieces[1..], '&') == pieces[1];
    assert '&' !in pieces[0] && '&' !in pieces[1];
    SplitJoin(pieces, '&');
  }

  /** Index of the closing quote of a `URI="..."` attribute that starts at
      the beginning of `s` and holds at least one character; -1 when none
      starts there. */
  function QuotedEnd(s: string): (e: int)
    ensures -1 <= e < |s|
    ensures e >= 0 ==> StartsWith(s, "URI=\"") && e >= 6 && s[e] == '"' && '"' !in s[5..e]
    ensures e < 0 ==> !StartsWith(s, "URI=\"") || (5 < |s| && s[5] == '"') || '"' !in s[5..]
  {
    if StartsWith(s, "URI=\"") then
      var q := IndexOf(s[5..], '"');
      assert q >= 0 ==> s[5..][..q] == s[5..5 + q];
      if q >= 1 then 5 + q else -1
    else -1
  }

  /** `line.replace(/URI="([^"]+)"/g, ...)`: each quoted attribute value,
      leftmost first and without overlap, is passed through `ToProxyUrl`. */
  function RewriteQuoted(link: string -> string, s: string): string
    decreases |s|
  {
    if |s| == 0 then ""
    else
      var e := QuotedEnd(s);
      if e > 0 then "URI=\"" + link(s[5..e]) + "\"" + RewriteQuoted(link, s[e + 1..])
      else [s[0]] + RewriteQuoted(link, s[1..])
  }

  /** The characters of `[^",\s]`. */
  predicate IsValueChar(c: char) {
    c != '"' && c != ',' && !IsJsSpace(c)
  }

  /** Length of the longest prefix of `s` made of value characters. */
  function ValueRun(s: string): (n: nat)
    ensures n <= |s|
    ensures forall i | 0 <= i < n :: IsValueChar(s[i])
    ensures n < |s| ==> !IsValueChar(s[n])
  {
    if |s| > 0 && IsValueChar(s[0]) then 1 + ValueRun(s[1..]) else 0
  }

  /** `replacedQuoted.replace(/URI=([^",\s]+)/g, ...)`: each unquoted
      attribute value, taken as long as possible, is passed through
      `ToProxyUrl`. */
  function RewriteUnquoted(link: string -> string, s: string): string
    decreases |s|
  {
    if |s| == 0 then ""
    else if StartsWith(s, "URI=") && ValueRun(s[4..]) > 0 then
      var n := ValueRun(s[4..]);
      "URI=" + link(s[4..4 + n]) + RewriteUnquoted(link, s[4 + n..])
    else [s[0]] + RewriteUnquoted(link, s[1..])
  }

  /** The replacement callback of both passes: `toProxyUrl` in the
      playlist's context. */
  function ProxyOf(ctx: Context): string -> string {
    v => ToProxyUrl(ctx, v)
  }

  /** A directive: the quoted pass, then the unquoted pass. */
  function RewriteDirective(ctx: Context, line: string): string {
    RewriteUnquoted(ProxyOf(ctx), RewriteQuoted(ProxyOf(ctx), line))
  }

  /** The callback of `lines.map`: blank lines stay blank, directives have
      their `URI=` values proxied, any other line is a segment or variant
      reference, made absolute against the playlist's directory unless it
      starts with `http`, and proxied. */
  function RewriteLine(ctx: Context, raw: string): string {
    var line := Trim(raw);
    if line == "" then line
    else if StartsWith(line, "#") then RewriteDirective(ctx, line)
    else ToProxyUrl(ctx, if StartsWith(line, "http") then line else BasePath(ctx.target) + line)
  }

  /** The rewritten playlist: split on line feeds, each line rewritten,
      joined with line feeds. */
  function RewriteManifest(ctx: Context, content: string): string {
    var lines := Split(content, '\n');
    Join(seq(|lines|, i requires 0 <= i < |lines| => RewriteLine(ctx, lines[i])), '\n')
  }

  lemma {:induction false} QuotedUnchanged(link: string -> string, s: string)
    requires !Contains(s, "URI=")
    ensures RewriteQuoted(link, s) == s
    decreases |s|
  {
    if |s| > 0 {
      assert !OccursAt(s, "URI=", 0);
      assert QuotedEnd(s) < 0;
      ContainsTail(s, "URI=");
      QuotedUnchanged(link, s[1..]);
    }
  }

  lemma {:induction false} UnquotedUnchanged(link: string -> string, s: string)
    requires !Contains(s, "URI=")
    ensures RewriteUnquoted(link, s) == s
    decreases |s|
  {
    if |s| > 0 {
      assert !OccursAt(s, "URI=", 0);
      ContainsTail(s, "URI=");
      UnquotedUnchanged(link, s[1..]);
    }
  }

  /** A directive without any `URI=` attribute passes through untouched. */
  lemma DirectiveWithoutUri(ctx: Context, raw: string)
    requires StartsWith(Trim(raw), "#") && !Contains(Trim(raw), "URI=")
    ensures RewriteLine(ctx, raw) == Trim(raw)
  {
    QuotedUnchanged(ProxyOf(ctx), Trim(raw));
    UnquotedUnchanged(ProxyOf(ctx), Trim(raw));
  }

  /** Text that does not start an attribute keeps its first character
      through the quoted pass. */
  lemma QuotedKeepsHead(link: string -> string, s: string)
    requires |s| > 0 && s[0] != 'U'
    ensures |RewriteQuoted(link, s)| > 0 && RewriteQuoted(link, s)[0] == s[0]
  {
    assert QuotedEnd(s) < 0;
  }

  lemma UnquotedKeepsHead(link: string -> string, s: string)
    requires |s| > 0 && s[0] != 'U'
    ensures |RewriteUnquoted(link, s)| > 0 && RewriteUnquoted(link, s)[0] == s[0]
  {
    UnquotedStep(link, s);
  }

  /** A quoted attribute is rewritten as a whole: its value goes through
      `ToProxyUrl`, and the pass goes on right after its closing quote. */
  lemma QuotedAttr(link: string -> string, v: string, q: string)
    requires |v| > 0 && '"' !in v
    ensures RewriteQuoted(link, "URI=\"" + v + "\"" + q) == "URI=\"" + link(v) + "\"" + RewriteQuoted(link, q)
  {
    var s := "URI=\"" + v + "\"" + q;
    var e := 5 + |v|;
    assert s[..5] == "URI=\"";
    assert s[e] == '"';
    assert s[5..e] == v;
    assert s[e + 1..] == q;
    assert '"' in s[5..] by { assert s[5..][|v|] == '"'; }
    assert forall k | 5 <= k < e :: s[k] == v[k - 5];
    var found := QuotedEnd(s);
    assert found == e;
  }

  /** The unquoted pass leaves a quoted attribute's `URI="` as it is. */
  lemma UnquotedSkipsQuote(link: string -> string, w: string)
    ensures RewriteUnquoted(link, "URI=\"" + w) == "URI=\"" + RewriteUnquoted(link, w)
  {
    QuotePieces(w);
    UnquotedStep(link, "URI=\"" + w);
    UnquotedCopies(link, "RI=\"", w);
  }

  lemma QuotePieces(w: string)
    ensures var s := "URI=\"" + w;
      |s| >= 5 && s[0] == 'U' && ValueRun(s[4..]) == 0 && s[1..] == "RI=\"" + w && 'U' !in "RI=\""
  {
    var s := "URI=\"" + w;
    assert s[4..][0] == '"';
    assert s[1..] == "RI=\"" + w;
  }

  /** Where no unquoted attribute starts, the first character is copied. */
  lemma UnquotedStep(link: string -> string, s: string)
    requires |s| > 0 && (s[0] != 'U' || (|s| >= 4 && ValueRun(s[4..]) == 0))
    ensures RewriteUnquoted(link, s) == [s[0]] + RewriteUnquoted(link, s[1..])
  {
    assert s[0] != 'U' ==> !StartsWith(s, "URI=");
  }

  /** Text without a `U` is copied by the unquoted pass. */
  lemma {:induction false} UnquotedCopies(link: string -> string, p: string, w: string)
    requires 'U' !in p
    ensures RewriteUnquoted(link, p + w) == p + RewriteUnquoted(link, w)
    decreases |p|
  {
    if |p| > 0 {
      ConsPieces(p, w);
      UnquotedStep(link, p + w);
      UnquotedCopies(link, p[1..], w);
    } else {
      assert p + w == w;
    }
  }

  lemma ConsPieces(p: string, w: string)
    requires |p| > 0 && 'U' !in p
    ensures (p + w)[0] == p[0] != 'U' && (p + w)[1..] == p[1..] + w
    ensures p == [p[0]] + p[1..] && 'U' !in p[1..]
  {
    assert forall x | x in p[1..] :: x in p;
  }

  /** An unquoted attribute is rewritten up to the first character that
      cannot belong to its value. */
  lemma UnquotedAttr(link: string -> string, v: string, q: string)
    requires |v| > 0 && forall i | 0 <= i < |v| :: IsValueChar(v[i])
    requires |q| == 0 || !IsValueChar(q[0])
    ensures RewriteUnquoted(link, "URI=" + v + q) == "URI=" + link(v) + RewriteUnquoted(link, q)
  {
    AttrPieces(v, q);
  }

  lemma AttrPieces(v: string, q: string)
    requires |v| > 0 && forall i | 0 <= i < |v| :: IsValueChar(v[i])
    requires |q| == 0 || !IsValueChar(q[0])
    ensures var s := "URI=" + v + q;
      StartsWith(s, "URI=") && ValueRun(s[4..]) == |v| && s[4..4 + |v|] == v && s[4 + |v|..] == q
  {
    var s := "URI=" + v + q;
    assert s[..4] == "URI=";
    assert s[4..] == v + q;
    assert forall k | 0 <= k < |v| :: (v + q)[k] == v[k];
    assert |q| > 0 ==> (v + q)[|v|] == q[0];
    assert ValueRun(v + q) == |v|;
    assert s[4..4 + |v|] == v;
    assert s[4 + |v|..] == q;
  }

  /** Both passes keep a leading `#`, so a directive stays a directive. */
  lemma DirectiveStaysDirective(ctx: Context, raw: string)
    requires StartsWith(Trim(raw), "#")
    ensures StartsWith(RewriteLine(ctx, raw), "#")
  {
    var line := Trim(raw);
    QuotedKeepsHead(ProxyOf(ctx), line);
    UnquotedKeepsHead(ProxyOf(ctx), RewriteQuoted(ProxyOf(ctx), line));
  }

  /** A line is blank after rewriting exactly when it was blank before. */
  lemma BlankIffBlank(ctx: Context, raw: string)
    ensures RewriteLine(ctx, raw) == "" <==> Trim(raw) == ""
  {
    var line := Trim(raw);
    if line != "" {
      if StartsWith(line, "#") {
        DirectiveStaysDirective(ctx, raw);
      } else {
        var t := if StartsWith(line, "http") then line else BasePath(ctx.target) + line;
        assert |t| > 0;
        var resolved := ResolveUrl(ctx, t);
        if IsHttp(resolved) {
          assert |ProxyLink(ctx.proxyBase, resolved, ctx.referer)| > 0;
        }
      }
    }
  }

  /** No line feed anywhere in `s`. */
  predicate NoBreak(s: string) {
    forall i | 0 <= i < |s| :: s[i] != '\n'
  }

  /** Proxy links are free of line feeds when the proxy base is. */
  lemma ToProxyUrlNoBreak(ctx: Context, input: string)
    requires NoBreak(ctx.proxyBase) && NoBreak(input)
    ensures NoBreak(ToProxyUrl(ctx, input))
  {
    var resolved := ResolveUrl(ctx, input);
    if IsHttp(resolved) {
      EncodedHasNo(resolved, '\n');
      EncodedHasNo(ctx.referer, '\n');
      LinkNoBreak(ctx.proxyBase, Encode(resolved), Encode(ctx.referer));
    }
  }

  lemma LinkNoBreak(proxyBase: string, eu: string, er: string)
    requires NoBreak(proxyBase) && '\n' !in eu && '\n' !in er
    ensures NoBreak(proxyBase + "/api/proxy?url=" + eu + "&referer=" + er)
  {
  }

  /** Where the quoted pass resumes after the first position of `s`. */
  function QuotedRest(s: string): (t: string)
    requires |s| > 0
    ensures |t| < |s|
    ensures forall i | 0 <= i < |t| :: t[i] == s[i + |s| - |t|]
  {
    if QuotedEnd(s) > 0 then s[QuotedEnd(s) + 1..] else s[1..]
  }

  /** `link` keeps text free of line feeds. */
  ghost predicate KeepsNoBreak(link: string -> string) {
    forall v :: NoBreak(v) ==> NoBreak(link(v))
  }

  lemma {:induction false} QuotedNoBreak(link: string -> string, s: string)
    requires KeepsNoBreak(link) && NoBreak(s)
    ensures NoBreak(RewriteQuoted(link, s))
    decreases |s|
  {
    if |s| > 0 {
      QuotedNoBreak(link, QuotedRest(s));
      if QuotedEnd(s) > 0 {
        QuotedMatchNoBreak(link, s);
      } else {
        QuotedSkipNoBreak(link, s);
      }
    }
  }

  lemma QuotedMatchNoBreak(link: string -> string, s: string)
    requires KeepsNoBreak(link) && NoBreak(s) && QuotedEnd(s) > 0
    requires NoBreak(RewriteQuoted(link, s[QuotedEnd(s) + 1..]))
    ensures NoBreak(RewriteQuoted(link, s))
  {
    var e := QuotedEnd(s);
    var v := s[5..e];
    SliceNoBreak(s, 5, e);
    var rest := RewriteQuoted(link, s[e + 1..]);
    assert RewriteQuoted(link, s) == "URI=\"" + link(v) + "\"" + rest;
    ConcatNoBreak("URI=\"", link(v));
    ConcatNoBreak("URI=\"" + link(v), "\"");
    ConcatNoBreak("URI=\"" + link(v) + "\"", rest);
  }

  lemma QuotedSkipNoBreak(link: string -> string, s: string)
    requires NoBreak(s) && |s| > 0 && QuotedEnd(s) <= 0
    requires NoBreak(RewriteQuoted(link, s[1..]))
    ensures NoBreak(RewriteQuoted(link, s))
  {
    ConcatNoBreak([s[0]], RewriteQuoted(link, s[1..]));
  }

  lemma ConcatNoBreak(a: string, b: string)
    requires NoBreak(a) && NoBreak(b)
    ensures NoBreak(a + b)
  {
  }

  lemma SliceNoBreak(s: string, i: nat, j: nat)
    requires NoBreak(s) && i <= j <= |s|
    ensures NoBreak(s[i..j])
  {
    forall k | 0 <= k < j - i ensures s[i..j][k] != '\n' {
      assert s[i..j][k] == s[i + k];
    }
  }

  lemma {:induction false} UnquotedNoBreak(link: string -> string, s: string)
    requires KeepsNoBreak(link) && NoBreak(s)
    ensures NoBreak(RewriteUnquoted(link, s))
    decreases |s|, 1
  {
    if |s| > 0 {
      if StartsWith(s, "URI=") && ValueRun(s[4..]) > 0 {
        UnquotedMatchNoBreak(link, s);
      } else {
        SliceNoBreak(s, 1, |s|);
        UnquotedNoBreak(link, s[1..]);
        ConcatNoBreak([s[0]], RewriteUnquoted(link, s[1..]));
      }
    }
  }

  lemma {:induction false} UnquotedMatchNoBreak(link: string -> string, s: string)
    requires KeepsNoBreak(link) && NoBreak(s)
    requires StartsWith(s, "URI=") && ValueRun(s[4..]) > 0
    ensures NoBreak(RewriteUnquoted(link, s))
    decreases |s|, 0
  {
    var n := ValueRun(s[4..]);
    SliceNoBreak(s, 4, 4 + n);
    SliceNoBreak(s, 4 + n, |s|);
    UnquotedNoBreak(link, s[4 + n..]);
    var rest := RewriteUnquoted(link, s[4 + n..]);
    assert RewriteUnquoted(link, s) == "URI=" + link(s[4..4 + n]) + rest;
    ConcatNoBreak("URI=", link(s[4..4 + n]));
    ConcatNoBreak("URI=" + link(s[4..4 + n]), rest);
  }

  /** Trimming keeps a text free of line feeds. */
  lemma TrimNoBreak(raw: string)
    requires NoBreak(raw)
    ensures NoBreak(Trim(raw))
  {
    var line := Trim(raw);
    forall i | 0 <= i < |line| ensures line[i] != '\n' {
      assert line[i] in raw;
    }
  }

  lemma RewriteLineNoBreak(ctx: Context, raw: string)
    requires NoBreak(ctx.proxyBase) && NoBreak(ctx.target) && NoBreak(raw)
    ensures NoBreak(RewriteLine(ctx, raw))
  {
    var line := Trim(raw);
    TrimNoBreak(raw);
    if line != "" {
      if StartsWith(line, "#") {
        DirectiveNoBreak(ctx, line);
      } else {
        var t := if StartsWith(line, "http") then line else BasePath(ctx.target) + line;
        assert NoBreak(t) by { TargetLineNoBreak(ctx.target, line); }
        ToProxyUrlNoBreak(ctx, t);
      }
    }
  }

  lemma TargetLineNoBreak(target: string, line: string)
    requires NoBreak(target) && NoBreak(line)
    ensures NoBreak(BasePath(target) + line)
  {
    SliceNoBreak(target, 0, |BasePath(target)|);
    ConcatNoBreak(BasePath(target), line);
  }

  lemma DirectiveNoBreak(ctx: Context, line: string)
    requires NoBreak(ctx.proxyBase) && NoBreak(line)
    ensures NoBreak(RewriteDirective(ctx, line))
  {
    var link := ProxyOf(ctx);
    forall v | NoBreak(v) ensures NoBreak(link(v)) {
      ToProxyUrlNoBreak(ctx, v);
    }
    QuotedNoBreak(link, line);
    UnquotedNoBreak(link, RewriteQuoted(link, line));
  }

  /** The rewritten playlist has exactly as many lines as the original, in
      the same order, line `i` being the rewrite of line `i`. */
  lemma ManifestLines(ctx: Context, content: string)
    requires NoBreak(ctx.proxyBase) && NoBreak(ctx.target)
    ensures var lines := Split(content, '\n');
      var out := Split(RewriteManifest(ctx, content), '\n');
      |out| == |lines| && forall i | 0 <= i < |lines| :: out[i] == RewriteLine(ctx, lines[i])
  {
    var lines := Split(content, '\n');
    var mapped := seq(|lines|, i requires 0 <= i < |lines| => RewriteLine(ctx, lines[i]));
    forall i | 0 <= i < |mapped| ensures '\n' !in mapped[i] {
      RewriteLineNoBreak(ctx, lines[i]);
    }
    SplitJoin(mapped, '\n');
  }
}
