/** How the streaming proxy turns its `url` and `referer` query parameters
    into a target: percent-decoding repeated at most three times, stripping
    of stray quotes, promotion of `//host/...` to `https:` and validation. */
module ProxyInput {
  import opened Wrappers
  import opened Text
  import opened Platform
  import opened PercentEncoding

  /** A query parameter as the front end delivers it: missing, one string,
      or (for a repeated key) an array of strings. */
  datatype Param = Absent | One(text: string) | Many(items: seq<string>)

  /** JavaScript truthiness of a parameter; an array is truthy even when empty. */
  predicate Truthy(p: Param) {
    match p
    case Absent => false
    case One(s) => s != ""
    case Many(_) => true
  }

  /** `String(p)` or `${p}`: an array prints as its items joined by commas. */
  function ParamText(p: Param): (r: string)
    ensures p.One? ==> r == p.text
    ensures p.Many? ==> r == Join(p.items, ',')
  {
    match p
    case Absent => "undefined"
    case One(s) => s
    case Many(xs) => Join(xs, ',')
  }

  /** JavaScript truthiness of a string that may be `undefined`. */
  predicate Present(v: Option<string>) {
    v.Some? && v.value != ""
  }

  /** `normalizeInput`: an array-valued parameter contributes only its first
      element (`undefined` for an empty array). */
  function NormalizeInput(p: Param): (r: Option<string>)
    ensures p.One? ==> r == Some(p.text)
    ensures p.Many? ==> r == if |p.items| > 0 then Some(p.items[0]) else None
    ensures p.Absent? ==> r.None?
  {
    match p
    case Absent => None
    case One(s) => Some(s)
    case Many(xs) => if |xs| > 0 then Some(xs[0]) else None
  }

  /** `safeDecode`: one `decodeURIComponent` step. An empty or missing value,
      or one on which decoding throws, comes back unchanged. */
  function SafeDecode(web: Web, v: Option<string>): (r: Option<string>)
    ensures !Present(v) || web.decodeComponent(v.value).None? ==> r == v
    ensures r != v ==> Present(v) && r == web.decodeComponent(v.value)
  {
    if !Present(v) then v
    else match web.decodeComponent(v.value)
      case Some(d) => Some(d)
      case None => v
  }

  /** `SafeDecode` applied `k` times without stopping. */
  function SafeDecodeIter(web: Web, v: Option<string>, k: nat): Option<string>
  {
    if k == 0 then v else SafeDecode(web, SafeDecodeIter(web, v, k - 1))
  }

  /** What `decodeRepeatedly` computes with `n` steps left: decode once; stop
      with that value when it is empty or missing or did not change,
      otherwise continue. */
  function DecodeTimes(web: Web, v: Option<string>, n: nat): Option<string>
    decreases n
  {
    if n == 0 then v
    else
      var d := SafeDecode(web, v);
      if !Present(d) || d == v then d else DecodeTimes(web, d, n - 1)
  }

  /** `decodeRepeatedly`: the loop over a mutable `current`, at most three rounds. */
  method DecodeRepeatedly(web: Web, value: Option<string>) returns (r: Option<string>)
    ensures r == DecodeTimes(web, value, 3)
  {
    var current := value;
    for i := 0 to 3
      invariant DecodeTimes(web, current, 3 - i) == DecodeTimes(web, value, 3)
    {
      var decoded := SafeDecode(web, current);
      if !Present(decoded) || decoded == current {
        return decoded;
      }
      current := decoded;
    }
    return current;
  }

  /** Decoding never runs more than `n` rounds: the result is the value after
      some number of plain decoding steps between one and `n`. */
  lemma {:induction false} DecodeAtMost(web: Web, v: Option<string>, n: nat)
    requires n >= 1
    ensures exists k | 1 <= k <= n :: DecodeTimes(web, v, n) == SafeDecodeIter(web, v, k)
    decreases n
  {
    var d := SafeDecode(web, v);
    assert SafeDecodeIter(web, v, 1) == d;
    if !(!Present(d) || d == v) {
      if n == 1 {
        assert DecodeTimes(web, v, n) == d;
      } else {
        DecodeAtMost(web, d, n - 1);
        var k :| 1 <= k <= n - 1 && DecodeTimes(web, d, n - 1) == SafeDecodeIter(web, d, k);
        IterShift(web, v, k);
        assert DecodeTimes(web, v, n) == SafeDecodeIter(web, v, k + 1);
      }
    }
  }

  lemma {:induction false} IterShift(web: Web, v: Option<string>, k: nat)
    ensures SafeDecodeIter(web, SafeDecode(web, v), k) == SafeDecodeIter(web, v, k + 1)
  {
    if k > 0 {
      IterShift(web, v, k - 1);
    }
  }

  /** A value that decoding leaves unchanged is returned as it is. */
  lemma DecodeStable(web: Web, v: Option<string>, n: nat)
    requires SafeDecode(web, v) == v
    ensures DecodeTimes(web, v, n) == v
  {
  }

  lemma {:induction false} EncodeIterEmpty(t: string, k: nat)
    requires EncodeIter(t, k) == []
    ensures t == []
  {
    if k > 0 {
      EncodeIterEmpty(t, k - 1);
    }
  }

  /** One round on a non-empty encoded value whose decoding is known. */
  lemma DecodeRound(web: Web, y: string, n: nat)
    requires web.decodeComponent(Encode(y)) == Some(y)
    requires y != [] && n >= 1
    ensures Encode(y) == y ==> DecodeTimes(web, Some(Encode(y)), n) == Some(y)
    ensures Encode(y) != y ==> DecodeTimes(web, Some(Encode(y)), n) == DecodeTimes(web, Some(y), n - 1)
  {
    assert SafeDecode(web, Some(Encode(y))) == Some(y);
  }

  /** Peeling one encoding off the chain of `k` encodings. */
  lemma DecodeEncodedStep(web: Web, t: string, k: nat, n: nat)
    requires 0 < k <= n
    requires web.decodeComponent(Encode(EncodeIter(t, k - 1))) == Some(EncodeIter(t, k - 1))
    requires DecodeTimes(web, Some(EncodeIter(t, k - 1)), n - 1) == Some(t)
    ensures DecodeTimes(web, Some(EncodeIter(t, k)), n) == Some(t)
  {
    var y := EncodeIter(t, k - 1);
    assert EncodeIter(t, k) == Encode(y);
    if y == [] {
      EncodeIterEmpty(t, k - 1);
      DecodeStable(web, Some(Encode(y)), n);
    } else {
      DecodeRound(web, y, n);
      if Encode(y) == y {
        EncodeIterCollapse(t, k - 1);
      }
    }
  }

  /** Chained proxy calls: a target percent-encoded `k` times, `k` at most the
      number of rounds, decodes back to the target, provided that
      `decodeURIComponent` inverts `encodeURIComponent` on the intermediate
      encodings and that the target itself does not decode to something else. */
  lemma {:induction false} DecodeEncoded(web: Web, t: string, k: nat, n: nat)
    requires forall j | 0 <= j < k :: web.decodeComponent(Encode(EncodeIter(t, j))) == Some(EncodeIter(t, j))
    requires SafeDecode(web, Some(t)) == Some(t)
    requires k <= n
    ensures DecodeTimes(web, Some(EncodeIter(t, k)), n) == Some(t)
    decreases k
  {
    if k == 0 {
      DecodeStable(web, Some(t), n);
    } else {
      DecodeEncoded(web, t, k - 1, n - 1);
      DecodeEncodedStep(web, t, k, n);
    }
  }

  /** The three-round bound makes a triple-encoded target, a double-encoded
      one and a single-encoded one resolve to the same value. */
  lemma MultiplyEncodedSameTarget(web: Web, t: string, k: nat)
    requires forall x :: web.decodeComponent(Encode(x)) == Some(x)
    requires SafeDecode(web, Some(t)) == Some(t)
    requires 1 <= k <= 3
    ensures DecodeTimes(web, Some(EncodeIter(t, k)), 3) == DecodeTimes(web, Some(Encode(t)), 3) == Some(t)
  {
    DecodeEncoded(web, t, k, 3);
    DecodeEncoded(web, t, 1, 3);
  }

  /** `value.replace(/^c+/, '')` */
  function DropLeading(s: string, c: char): (r: string)
    ensures |r| <= |s| && r == s[|s| - |r|..]
    ensures r == [] || r[0] != c
    ensures forall i | 0 <= i < |s| - |r| :: s[i] == c
  {
    if |s| > 0 && s[0] == c then DropLeading(s[1..], c) else s
  }

  /** `value.replace(/c+$/, '')` */
  function DropTrailing(s: string, c: char): (r: string)
    ensures |r| <= |s| && r == s[..|r|]
    ensures r == [] || r[|r| - 1] != c
    ensures forall i | |r| <= i < |s| :: s[i] == c
  {
    if |s| > 0 && s[|s| - 1] == c then DropTrailing(s[..|s| - 1], c) else s
  }

  /** `value.replace(/^c+|c+$/g, '')`: the runs of `c` at both ends go, and
      only those characters. */
  function StripRun(s: string, c: char): (r: string)
    ensures r == [] || (r[0] != c && r[|r| - 1] != c)
    ensures forall x | x in r :: x in s
    ensures |s| > 0 && s[0] != c && s[|s| - 1] != c ==> r == s
    ensures EndsStripped(s, r, x => x == c)
  {
    var t := DropLeading(s, c);
    var r := DropTrailing(t, c);
    assert r != [] ==> r[0] == t[0];
    StripRunChars(s, c);
    StripRunInfix(s, c);
    r
  }

  lemma StripRunInfix(s: string, c: char)
    ensures EndsStripped(s, DropTrailing(DropLeading(s, c), c), x => x == c)
  {
    var t := DropLeading(s, c);
    var r := DropTrailing(t, c);
    EndsStrippedAt(s, t, x => x == c, |s| - |t|, |s|);
    EndsStrippedAt(t, r, x => x == c, 0, |r|);
    EndsStrippedTrans(s, t, r, x => x == c);
  }

  lemma StripRunChars(s: string, c: char)
    ensures forall x | x in DropTrailing(DropLeading(s, c), c) :: x in s
  {
    var t := DropLeading(s, c);
    var r := DropTrailing(t, c);
    forall x | x in r ensures x in s {
      var k :| 0 <= k < |r| && r[k] == x;
      assert s[|s| - |t| + k] == x;
    }
  }

  /** No whitespace, backtick or quote at either end. */
  predicate Settled(s: string) {
    |s| > 0
    && !IsJsSpace(s[0]) && s[0] != '`' && s[0] != '"' && s[0] != '\''
    && !IsJsSpace(s[|s| - 1]) && s[|s| - 1] != '`' && s[|s| - 1] != '"' && s[|s| - 1] != '\''
  }

  /** The text pipeline of `sanitize` on a non-empty string. */
  function SanitizeText(s: string): (r: string)
    ensures r == [] || (r[0] != '\'' && r[|r| - 1] != '\'')
  {
    var trimmed := Trim(s);
    var noTicks := StripRun(trimmed, '`');
    var noDouble := StripRun(noTicks, '"');
    StripRun(noDouble, '\'')
  }

  lemma SanitizeTextChars(s: string)
    ensures forall x | x in SanitizeText(s) :: x in s
  {
    var a := Trim(s);
    var b := StripRun(a, '`');
    var c := StripRun(b, '"');
    forall x | x in SanitizeText(s) ensures x in s {
      assert x in c;
      assert x in b;
      assert x in a;
    }
  }

  lemma SanitizeTextSettled(s: string)
    requires Settled(s)
    ensures SanitizeText(s) == s
  {
    assert Trim(s) == s;
    assert StripRun(s, '`') == s;
    assert StripRun(s, '"') == s;
    assert StripRun(s, '\'') == s;
  }

  /** The characters `sanitize` may take off the two ends. */
  predicate Strippable(x: char) {
    IsJsSpace(x) || x == '`' || x == '"' || x == '\''
  }

  lemma SanitizeTextInfix(s: string)
    ensures EndsStripped(s, SanitizeText(s), Strippable)
  {
    var a := Trim(s);
    var b := StripRun(a, '`');
    var c := StripRun(b, '"');
    var d := StripRun(c, '\'');
    EndsStrippedWiden(s, a, IsJsSpace, Strippable);
    EndsStrippedWiden(a, b, x => x == '`', Strippable);
    EndsStrippedWiden(b, c, x => x == '"', Strippable);
    EndsStrippedWiden(c, d, x => x == '\'', Strippable);
    EndsStrippedTrans(s, a, b, Strippable);
    EndsStrippedTrans(s, b, c, Strippable);
    EndsStrippedTrans(s, c, d, Strippable);
  }

  /** `sanitize`: trim, then strip the runs of backticks, then of double
      quotes, then of single quotes at both ends. The result never begins or
      ends with a single quote, holds only characters of the input, and an
      already settled value is kept. */
  function Sanitize(v: Option<string>): (r: Option<string>)
    ensures !Present(v) ==> r == v
    ensures r.None? <==> v.None?
    ensures r.Some? && r.value != [] ==> r.value[0] != '\'' && r.value[|r.value| - 1] != '\''
    ensures r.Some? ==> forall x | x in r.value :: x in v.value
    ensures v.Some? && Settled(v.value) ==> r == v
    ensures r.Some? ==> EndsStripped(v.value, r.value, Strippable)
  {
    if !Present(v) then
      if v.Some? then assert v.value == v.value[0..0]; EndsStrippedAt(v.value, v.value, Strippable, 0, 0); v else v
    else
      SanitizeTextInfix(v.value);
      SanitizeTextChars(v.value);
      if Settled(v.value) then SanitizeTextSettled(v.value); Some(SanitizeText(v.value))
      else Some(SanitizeText(v.value))
  }

  /** Why a request is refused with 400 before anything is fetched. */
  datatype Rejection = UrlRequired | InvalidUrl

  function RejectionMessage(r: Rejection): string {
    match r
    case UrlRequired => "URL is required"
    case InvalidUrl => "Invalid URL"
  }

  /** `if (decodedUrl && decodedUrl.startsWith('//')) decodedUrl = 'https:' + decodedUrl` */
  function PromoteProtocolRelative(v: Option<string>): (r: Option<string>)
    ensures Present(v) && StartsWith(v.value, "//") ==> r == Some("https:" + v.value)
    ensures !(Present(v) && StartsWith(v.value, "//")) ==> r == v
    ensures Present(r) ==> !StartsWith(r.value, "//")
  {
    if Present(v) && StartsWith(v.value, "//") then
      assert ("https:" + v.value)[0] == 'h';
      Some("https:" + v.value)
    else v
  }

  /** The target the proxy fetches, before validation. */
  function DecodedTarget(web: Web, raw: Option<string>): Option<string> {
    PromoteProtocolRelative(Sanitize(DecodeTimes(web, raw, 3)))
  }

  /** Target validation: an empty or missing target is "URL is required", one
      that does not parse is "Invalid URL"; otherwise the decoded target and
      its parsed URL, the target never starting with `//`. */
  function ValidateTarget(web: Web, raw: Option<string>): (r: Result<(string, Url), Rejection>)
    ensures r == Err(UrlRequired) <==> !Present(DecodedTarget(web, raw))
    ensures r == Err(InvalidUrl) <==>
      Present(DecodedTarget(web, raw)) && web.parse(DecodedTarget(web, raw).value).None?
    ensures r.Ok? ==>
      (Some(r.value.0) == DecodedTarget(web, raw)
       && web.parse(r.value.0) == Some(r.value.1)
       && r.value.0 != "" && !StartsWith(r.value.0, "//"))
  {
    var target := DecodedTarget(web, raw);
    if !Present(target) then Err(UrlRequired)
    else match web.parse(target.value)
      case None => Err(InvalidUrl)
      case Some(u) => Ok((target.value, u))
  }
}
