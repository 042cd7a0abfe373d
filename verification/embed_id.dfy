/** The embed-id patterns of the extractors, `/\/(?:e|d|v|embed)\/([a-zA-Z0-9]+)/`
    and `/\/(?:e|d)\/([0-9a-zA-Z]+)/`: the id is the alphanumeric run after
    the leftmost `/<marker>/` that is followed by one. */
module EmbedId {
  import opened Wrappers
  import opened Text

  /** `[a-zA-Z0-9]` */
  predicate IsAlnum(c: char) {
    'a' <= c <= 'z' || 'A' <= c <= 'Z' || '0' <= c <= '9'
  }

  /** A non-empty alphanumeric run. */
  predicate IsCode(s: string) {
    |s| > 0 && forall k | 0 <= k < |s| :: IsAlnum(s[k])
  }

  /** The marker alternatives of the rubystm pattern, in pattern order. */
  const RubystmMarkers: seq<string> := ["e", "d", "v", "embed"]

  /** The marker alternatives of the Filemoon pattern. */
  const FilemoonMarkers: seq<string> := ["e", "d"]

  /** Markers are non-empty and contain no `/`. */
  predicate GoodMarkers(markers: seq<string>) {
    forall k | 0 <= k < |markers| :: |markers[k]| > 0 && forall c | 0 <= c < |markers[k]| :: markers[k][c] != '/'
  }

  /** Length of the alphanumeric run at `i` (greedy `[a-zA-Z0-9]+`). */
  function AlnumRun(s: string, i: nat): (n: nat)
    requires i <= |s|
    ensures i + n <= |s|
    ensures forall k | i <= k < i + n :: IsAlnum(s[k])
    ensures i + n < |s| ==> !IsAlnum(s[i + n])
    decreases |s| - i
  {
    if i < |s| && IsAlnum(s[i]) then 1 + AlnumRun(s, i + 1) else 0
  }

  /** `/<m>/` at `i`, followed by an alphanumeric character. */
  predicate MarkerAt(s: string, i: nat, m: string) {
    OccursAt(s, "/" + m + "/", i) && i + |m| + 2 < |s| && IsAlnum(s[i + |m| + 2])
  }

  /** The first alternative, in pattern order, that completes a match at
      `i`: where its id starts. */
  function MarkerMatch(s: string, i: nat, markers: seq<string>): (r: Option<nat>)
    ensures r.Some? ==> i + 2 <= r.value < |s| && IsAlnum(s[r.value])
    decreases |markers|
  {
    if |markers| == 0 then None
    else if MarkerAt(s, i, markers[0]) then Some(i + |markers[0]| + 2)
    else MarkerMatch(s, i, markers[1..])
  }

  /** A match at `i` exists exactly when some alternative matches there,
      and the id starts after the first alternative that does. */
  lemma {:induction false} MarkerMatchSpec(s: string, i: nat, markers: seq<string>)
    ensures MarkerMatch(s, i, markers).None? <==> forall k | 0 <= k < |markers| :: !MarkerAt(s, i, markers[k])
    ensures MarkerMatch(s, i, markers).Some? ==> exists k | 0 <= k < |markers| ::
      MarkerAt(s, i, markers[k]) && (forall k' | 0 <= k' < k :: !MarkerAt(s, i, markers[k']))
      && MarkerMatch(s, i, markers).value == i + |markers[k]| + 2
    decreases |markers|
  {
    if |markers| > 0 && !MarkerAt(s, i, markers[0]) {
      MarkerMatchSpec(s, i, markers[1..]);
      assert forall k | 1 <= k < |markers| :: markers[k] == markers[1..][k - 1];
      if MarkerMatch(s, i, markers).Some? {
        var k :| 0 <= k < |markers[1..]| && MarkerAt(s, i, markers[1..][k])
          && (forall k' | 0 <= k' < k :: !MarkerAt(s, i, markers[1..][k']))
          && MarkerMatch(s, i, markers).value == i + |markers[1..][k]| + 2;
        assert MarkerAt(s, i, markers[k + 1]);
      }
    }
  }

  /** No match starts in `[i, k)`. */
  predicate NoMatchBetween(s: string, markers: seq<string>, i: nat, k: nat) {
    forall j | i <= j < k :: MarkerMatch(s, j, markers).None?
  }

  /** The greedy id starting at `p`. */
  function IdAt(s: string, p: nat): (id: string)
    requires p < |s| && IsAlnum(s[p])
    ensures IsCode(id)
  {
    var n := AlnumRun(s, p);
    var id := s[p..p + n];
    assert forall k | 0 <= k < |id| :: id[k] == s[p + k];
    id
  }

  /** The leftmost match at or after `i`. */
  function FindIdFrom(s: string, markers: seq<string>, i: nat): (r: Option<string>)
    requires i <= |s|
    ensures r.Some? ==> IsCode(r.value)
    decreases |s| - i
  {
    if i == |s| then None
    else match MarkerMatch(s, i, markers)
      case Some(p) => Some(IdAt(s, p))
      case None => FindIdFrom(s, markers, i + 1)
  }

  /** The search finds nothing exactly when no match starts at or after
      `i`, and otherwise the id of the leftmost match. */
  lemma {:induction false} FindIdFromSpec(s: string, markers: seq<string>, i: nat)
    requires i <= |s|
    ensures FindIdFrom(s, markers, i).None? <==> NoMatchBetween(s, markers, i, |s|)
    ensures FindIdFrom(s, markers, i).Some? ==> exists j | i <= j < |s| ::
      NoMatchBetween(s, markers, i, j) && MarkerMatch(s, j, markers).Some?
      && FindIdFrom(s, markers, i).value == IdAt(s, MarkerMatch(s, j, markers).value)
    decreases |s| - i
  {
    if i < |s| {
      if MarkerMatch(s, i, markers).Some? {
        assert NoMatchBetween(s, markers, i, i);
      } else {
        FindIdFromSpec(s, markers, i + 1);
        assert forall j | i + 1 <= j :: NoMatchBetween(s, markers, i + 1, j) ==> NoMatchBetween(s, markers, i, j);
      }
    }
  }

  /** `url.match(pattern)` with the id group taken: the id after the
      leftmost marker, the whole alphanumeric run, or nothing when no
      marker is followed by an alphanumeric character. */
  function FindId(s: string, markers: seq<string>): (r: Option<string>)
    ensures r.None? <==> NoMatchBetween(s, markers, 0, |s|)
    ensures r.Some? ==> IsCode(r.value)
  {
    FindIdFromSpec(s, markers, 0);
    FindIdFrom(s, markers, 0)
  }

  /** Positions without a match can be skipped. */
  lemma {:induction false} SkipTo(s: string, markers: seq<string>, i: nat, k: nat)
    requires i <= k <= |s| && NoMatchBetween(s, markers, i, k)
    ensures FindIdFrom(s, markers, i) == FindIdFrom(s, markers, k)
    decreases k - i
  {
    if i < k {
      assert MarkerMatch(s, i, markers).None?;
      assert FindIdFrom(s, markers, i) == FindIdFrom(s, markers, i + 1);
      assert NoMatchBetween(s, markers, i + 1, k);
      SkipTo(s, markers, i + 1, k);
    }
  }

  /** Where no `/` is, no match starts. */
  lemma NoSlashNoMatch(s: string, j: nat, markers: seq<string>)
    requires j < |s| && s[j] != '/'
    ensures MarkerMatch(s, j, markers).None?
  {
    forall k | 0 <= k < |markers| ensures !MarkerAt(s, j, markers[k]) {
      var p := "/" + markers[k] + "/";
      assert p[0] == '/';
    }
    MarkerMatchSpec(s, j, markers);
  }

  /** `/a/` and `/b/` at the same place, with no `/` inside, are the same. */
  lemma Delimited(s: string, i: nat, a: string, b: string)
    requires forall c | 0 <= c < |a| :: a[c] != '/'
    requires forall c | 0 <= c < |b| :: b[c] != '/'
    ensures OccursAt(s, "/" + a + "/", i) && OccursAt(s, "/" + b + "/", i) ==> a == b
  {
    if OccursAt(s, "/" + a + "/", i) && OccursAt(s, "/" + b + "/", i) {
      assert forall c | 0 <= c < |a| :: s[i + 1 + c] == a[c];
      assert forall c | 0 <= c < |b| :: s[i + 1 + c] == b[c];
      assert s[i + 1 + |a|] == '/' && s[i + 1 + |b|] == '/';
      assert |a| == |b|;
      assert a == s[i + 1..i + 1 + |a|] == b;
    }
  }

  /** The id of an embed link `https://<host>/<m>/<code><rest>`: the code,
      when the host is not itself a marker and the code is followed by a
      non-alphanumeric character or nothing. */
  lemma EmbedLinkId(host: string, m: string, code: string, rest: string, markers: seq<string>)
    requires GoodMarkers(markers) && m in markers
    requires '/' !in host && host !in markers
    requires IsCode(code) && (|rest| == 0 || !IsAlnum(rest[0]))
    ensures FindId("https://" + host + "/" + m + "/" + code + rest, markers) == Some(code)
  {
    var p := "https://" + host;
    var tail := "/" + m + "/" + code + rest;
    var s := "https://" + host + "/" + m + "/" + code + rest;
    assert s == p + tail;
    OriginNoMatch(host, tail, markers);
    SkipTo(s, markers, 0, |p|);
    assert s[|p|..] == tail;
    MatchHere(s, |p|, m, code, rest, markers);
  }

  /** A link whose `/<m>/<code>` starts at `q` gives the code there. */
  lemma MatchHere(s: string, q: nat, m: string, code: string, rest: string, markers: seq<string>)
    requires GoodMarkers(markers) && m in markers
    requires IsCode(code) && (|rest| == 0 || !IsAlnum(rest[0]))
    requires q <= |s| && s[q..] == "/" + m + "/" + code + rest
    ensures FindIdFrom(s, markers, q) == Some(code)
  {
    var start := q + |m| + 2;
    LinkPieces(s, q, m, code, rest);
    FirstMarkerIs(s, q, m, markers);
    CodeRun(s, start, code, rest);
    assert IdAt(s, start) == code;
  }

  lemma LinkPieces(s: string, q: nat, m: string, code: string, rest: string)
    requires IsCode(code)
    requires q <= |s| && s[q..] == "/" + m + "/" + code + rest
    ensures MarkerAt(s, q, m)
    ensures q + |m| + 2 + |code| <= |s| && s[q + |m| + 2..] == code + rest
  {
    var t := "/" + m + "/" + code + rest;
    assert t == ("/" + m + "/") + (code + rest);
    assert s[q..q + |m| + 2] == t[..|m| + 2] == "/" + m + "/";
  }

  /** No match starts inside `https://<host>` when `/` follows it. */
  lemma OriginNoMatch(host: string, tail: string, markers: seq<string>)
    requires GoodMarkers(markers) && '/' !in host && host !in markers
    requires |tail| > 0 && tail[0] == '/'
    ensures NoMatchBetween("https://" + host + tail, markers, 0, 8 + |host|)
  {
    var p := "https://" + host;
    var s := p + tail;
    assert OccursAt(s, "/" + host + "/", 7) by {
      assert s[7..|p| + 1] == "/" + host + "/";
    }
    forall j | 0 <= j < |p| ensures MarkerMatch(s, j, markers).None? {
      if j == 6 {
        SlashSlashNoMatch(s, markers);
      } else if j == 7 {
        HostNoMatch(s, host, markers);
      } else {
        assert s[j] == p[j];
        assert j >= 8 ==> p[j] == host[j - 8];
        NoSlashNoMatch(s, j, markers);
      }
    }
  }

  lemma SlashSlashNoMatch(s: string, markers: seq<string>)
    requires GoodMarkers(markers) && StartsWith(s, "https://")
    ensures MarkerMatch(s, 6, markers).None?
  {
    assert s[7] == '/';
    forall k | 0 <= k < |markers| ensures !MarkerAt(s, 6, markers[k]) {
      var p := "/" + markers[k] + "/";
      assert p[1] == markers[k][0] != '/';
    }
    MarkerMatchSpec(s, 6, markers);
  }

  /** `/<host>/` matches no marker when the host is none of them. */
  lemma HostNoMatch(s: string, host: string, markers: seq<string>)
    requires GoodMarkers(markers) && '/' !in host && host !in markers
    requires OccursAt(s, "/" + host + "/", 7)
    ensures MarkerMatch(s, 7, markers).None?
  {
    assert forall c | 0 <= c < |host| :: host[c] != '/';
    forall k | 0 <= k < |markers| ensures !MarkerAt(s, 7, markers[k]) {
      Delimited(s, 7, markers[k], host);
    }
    MarkerMatchSpec(s, 7, markers);
  }

  lemma {:induction false} FirstMarkerIs(s: string, q: nat, m: string, markers: seq<string>)
    requires GoodMarkers(markers) && m in markers && MarkerAt(s, q, m)
    ensures MarkerMatch(s, q, markers) == Some(q + |m| + 2)
    decreases |markers|
  {
    Delimited(s, q, markers[0], m);
    if !MarkerAt(s, q, markers[0]) {
      assert GoodMarkers(markers[1..]) by {
        assert forall k | 0 <= k < |markers[1..]| :: markers[1..][k] == markers[k + 1];
      }
      FirstMarkerIs(s, q, m, markers[1..]);
    }
  }

  lemma {:induction false} CodeRun(s: string, start: nat, code: string, rest: string)
    requires IsCode(code) && (|rest| == 0 || !IsAlnum(rest[0]))
    requires start + |code| <= |s| && s[start..] == code + rest
    ensures AlnumRun(s, start) == |code|
    ensures s[start..start + AlnumRun(s, start)] == code
    decreases |code|
  {
    assert s[start] == code[0];
    if |code| > 1 {
      assert s[start + 1..] == code[1..] + rest;
      CodeRun(s, start + 1, code[1..], rest);
    } else if start + 1 < |s| {
      assert s[start + 1] == rest[0];
    }
  }
}
