/** The string operations of the JavaScript runtime that the handlers use
    (`startsWith`, `endsWith`, `includes`, `trim`, `split`, `join`,
    `lastIndexOf`, literal global `replace`, number formatting). */
module Text {

  /** `s.startsWith(p)` */
  predicate StartsWith(s: string, p: string) {
    |p| <= |s| && s[..|p|] == p
  }

  /** `s.endsWith(p)` */
  predicate EndsWith(s: string, p: string) {
    |p| <= |s| && s[|s| - |p|..] == p
  }

  /** `p` occurs in `s` starting at index `i`. */
  predicate OccursAt(s: string, p: string, i: int) {
    0 <= i && i + |p| <= |s| && s[i..i + |p|] == p
  }

  /** An absolute `http:` or `https:` URL. */
  predicate IsHttp(s: string) {
    StartsWith(s, "http://") || StartsWith(s, "https://")
  }

  /** `s.includes(p)` */
  predicate Contains(s: string, p: string) {
    exists i | 0 <= i <= |s| - |p| :: OccursAt(s, p, i)
  }

  /** The characters that `String.prototype.trim` removes and that the
      regular-expression class `\s` matches: the ECMAScript WhiteSpace and
      LineTerminator code points. */
  predicate IsJsSpace(c: char) {
    c == ' ' || c == '\t' || c == '\n' || c == '\r' || c == '\U{000B}' || c == '\U{000C}'
    || c == '\U{00A0}' || c == '\U{FEFF}' || c == '\U{1680}' || ('\U{2000}' <= c <= '\U{200A}')
    || c == '\U{2028}' || c == '\U{2029}' || c == '\U{202F}' || c == '\U{205F}' || c == '\U{3000}'
  }

  /** Every character of `t` satisfies `strip`. */
  predicate AllStrip(t: string, strip: char -> bool) {
    forall k | 0 <= k < |t| :: strip(t[k])
  }

  /** `r` is `s` with characters satisfying `strip` removed from its two
      ends and nothing else changed: a contiguous slice of `s` outside
      which every character satisfies `strip`. */
  predicate EndsStripped(s: string, r: string, strip: char -> bool) {
    exists i, j | 0 <= i <= j <= |s| :: r == s[i..j] && AllStrip(s[..i], strip) && AllStrip(s[j..], strip)
  }

  lemma EndsStrippedAt(s: string, r: string, strip: char -> bool, i: nat, j: nat)
    requires i <= j <= |s| && r == s[i..j]
    requires forall k | 0 <= k < i :: strip(s[k])
    requires forall k | j <= k < |s| :: strip(s[k])
    ensures EndsStripped(s, r, strip)
  {
    assert AllStrip(s[..i], strip);
    assert AllStrip(s[j..], strip) by {
      forall k | 0 <= k < |s| - j ensures strip(s[j..][k]) {
        assert s[j..][k] == s[j + k];
      }
    }
  }

  /** Stripping twice with the same characters is stripping once. */
  lemma EndsStrippedTrans(s: string, t: string, r: string, strip: char -> bool)
    requires EndsStripped(s, t, strip) && EndsStripped(t, r, strip)
    ensures EndsStripped(s, r, strip)
  {
    var i, j :| 0 <= i <= j <= |s| && t == s[i..j] && AllStrip(s[..i], strip) && AllStrip(s[j..], strip);
    var i2, j2 :| 0 <= i2 <= j2 <= |t| && r == t[i2..j2] && AllStrip(t[..i2], strip) && AllStrip(t[j2..], strip);
    SliceOfSlice(s, i, j, i2, j2);
    SliceJoins(s, i, j, i2, j2);
    AllStripConcat(s[..i], t[..i2], strip);
    AllStripConcat(t[j2..], s[j..], strip);
    assert r == s[i + i2..i + j2] && AllStrip(s[..i + i2], strip) && AllStrip(s[i + j2..], strip);
  }

  lemma SliceJoins(s: string, i: nat, j: nat, i2: nat, j2: nat)
    requires i <= j <= |s| && i2 <= j2 <= j - i
    ensures s[..i + i2] == s[..i] + s[i..j][..i2]
    ensures s[i + j2..] == s[i..j][j2..] + s[j..]
  {
    var t := s[i..j];
    assert s[..i + i2] == s[..i] + t[..i2] by {
      forall k | 0 <= k < i + i2 ensures s[..i + i2][k] == (s[..i] + t[..i2])[k] {
        if k >= i { assert t[..i2][k - i] == s[k]; }
      }
    }
    assert s[i + j2..] == t[j2..] + s[j..] by {
      forall k | 0 <= k < |s| - i - j2 ensures s[i + j2..][k] == (t[j2..] + s[j..])[k] {
        if k >= j - i - j2 { assert s[j..][k - (j - i - j2)] == s[i + j2 + k]; }
        else { assert t[j2..][k] == s[i + j2 + k]; }
      }
    }
  }

  lemma AllStripConcat(a: string, b: string, strip: char -> bool)
    requires AllStrip(a, strip) && AllStrip(b, strip)
    ensures AllStrip(a + b, strip)
  {
    forall k | 0 <= k < |a + b| ensures strip((a + b)[k]) {
      if k >= |a| { assert (a + b)[k] == b[k - |a|]; }
    }
  }

  lemma SliceOfSlice(s: string, i: nat, j: nat, i2: nat, j2: nat)
    requires i <= j <= |s| && i2 <= j2 <= j - i
    ensures s[i..j][i2..j2] == s[i + i2..i + j2]
  {
    forall k | 0 <= k < j2 - i2 ensures s[i..j][i2..j2][k] == s[i + i2..i + j2][k] {
      assert s[i..j][i2..j2][k] == s[i..j][i2 + k] == s[i + i2 + k];
    }
  }

  /** A wider stripping class still describes the same stripping. */
  lemma EndsStrippedWiden(s: string, r: string, p: char -> bool, q: char -> bool)
    requires EndsStripped(s, r, p)
    requires forall k | 0 <= k < |s| :: p(s[k]) ==> q(s[k])
    ensures EndsStripped(s, r, q)
  {
    var i, j :| 0 <= i <= j <= |s| && r == s[i..j] && AllStrip(s[..i], p) && AllStrip(s[j..], p);
    forall k | 0 <= k < i ensures q(s[k]) { assert s[k] == s[..i][k]; }
    forall k | j <= k < |s| ensures q(s[k]) { assert s[k] == s[j..][k - j]; }
    EndsStrippedAt(s, r, q, i, j);
  }

  /** Drops the leading whitespace of `s`. */
  function TrimStart(s: string): (r: string)
    ensures |r| <= |s| && r == s[|s| - |r|..]
    ensures r == [] || !IsJsSpace(r[0])
    ensures forall i | 0 <= i < |s| - |r| :: IsJsSpace(s[i])
  {
    if |s| > 0 && IsJsSpace(s[0]) then TrimStart(s[1..]) else s
  }

  /** Drops the trailing whitespace of `s`. */
  function TrimEnd(s: string): (r: string)
    ensures |r| <= |s| && r == s[..|r|]
    ensures r == [] || !IsJsSpace(r[|r| - 1])
    ensures forall i | |r| <= i < |s| :: IsJsSpace(s[i])
  {
    if |s| > 0 && IsJsSpace(s[|s| - 1]) then TrimEnd(s[..|s| - 1]) else s
  }

  /** `s.trim()`: the result is blank exactly when `s` is all whitespace, it
      neither begins nor ends with whitespace, it only holds characters of
      `s`, and a string already without surrounding whitespace is kept. */
  function Trim(s: string): (r: string)
    ensures r == [] || (!IsJsSpace(r[0]) && !IsJsSpace(r[|r| - 1]))
    ensures r == [] <==> forall i | 0 <= i < |s| :: IsJsSpace(s[i])
    ensures forall c | c in r :: c in s
    ensures |s| > 0 && !IsJsSpace(s[0]) && !IsJsSpace(s[|s| - 1]) ==> r == s
    ensures EndsStripped(s, r, IsJsSpace)
  {
    TrimInfix(s);
    TrimBlank(s);
    TrimChars(s);
    TrimKeeps(s);
    TrimEdges(s);
    TrimEnd(TrimStart(s))
  }

  lemma TrimBlank(s: string)
    ensures TrimEnd(TrimStart(s)) == [] <==> forall i | 0 <= i < |s| :: IsJsSpace(s[i])
  {
    var t := TrimStart(s);
    if TrimEnd(t) == [] {
      assert t == [];
    }
    if forall i | 0 <= i < |s| :: IsJsSpace(s[i]) {
      assert t == [];
    }
  }

  /** Only the whitespace at the two ends goes. */
  lemma TrimInfix(s: string)
    ensures EndsStripped(s, TrimEnd(TrimStart(s)), IsJsSpace)
  {
    var t := TrimStart(s);
    var r := TrimEnd(t);
    EndsStrippedAt(s, t, IsJsSpace, |s| - |t|, |s|);
    EndsStrippedAt(t, r, IsJsSpace, 0, |r|);
    EndsStrippedTrans(s, t, r, IsJsSpace);
  }

  lemma TrimChars(s: string)
    ensures forall c | c in TrimEnd(TrimStart(s)) :: c in s
  {
    var r := TrimEnd(TrimStart(s));
    TrimInfix(s);
    var i, j :| 0 <= i <= j <= |s| && r == s[i..j];
    SliceChars(s, i, j);
  }

  lemma SliceChars(s: string, i: nat, j: nat)
    requires i <= j <= |s|
    ensures forall c | c in s[i..j] :: c in s
  {
    forall c | c in s[i..j] ensures c in s {
      var k :| 0 <= k < j - i && s[i..j][k] == c;
      assert s[i + k] == c;
    }
  }

  lemma TrimKeeps(s: string)
    ensures |s| > 0 && !IsJsSpace(s[0]) && !IsJsSpace(s[|s| - 1]) ==> TrimEnd(TrimStart(s)) == s
  {
    if |s| > 0 && !IsJsSpace(s[0]) && !IsJsSpace(s[|s| - 1]) {
      TrimStartKeeps(s);
      TrimEndKeeps(s);
    }
  }

  lemma TrimEdges(s: string)
    ensures var r := TrimEnd(TrimStart(s)); r == [] || (!IsJsSpace(r[0]) && !IsJsSpace(r[|r| - 1]))
  {
    var t := TrimStart(s);
    var r := TrimEnd(t);
    if r != [] {
      assert r[0] == t[0];
    }
  }

  lemma TrimStartKeeps(s: string)
    requires |s| > 0 && !IsJsSpace(s[0])
    ensures TrimStart(s) == s
  {
  }

  lemma TrimEndKeeps(s: string)
    requires |s| > 0 && !IsJsSpace(s[|s| - 1])
    ensures TrimEnd(s) == s
  {
  }

  /** `s.split(sep)` for a one-character separator: the pieces between the
      separators, always at least one. */
  function Split(s: string, sep: char): (r: seq<string>)
    ensures |r| >= 1
    ensures forall i | 0 <= i < |r| :: sep !in r[i]
    decreases |s|
  {
    if |s| == 0 then [""]
    else
      var rest := Split(s[1..], sep);
      if s[0] == sep then [""] + rest else [[s[0]] + rest[0]] + rest[1..]
  }

  /** `xs.join(sep)` for a one-character separator. */
  function Join(xs: seq<string>, sep: char): string
  {
    if |xs| == 0 then "" else if |xs| == 1 then xs[0] else xs[0] + [sep] + Join(xs[1..], sep)
  }

  /** Joining the pieces of a split gives back the text. */
  lemma {:induction false} JoinSplit(s: string, sep: char)
    ensures Join(Split(s, sep), sep) == s
    decreases |s|
  {
    if |s| > 0 {
      var rest := Split(s[1..], sep);
      JoinSplit(s[1..], sep);
      if s[0] == sep {
        assert Split(s, sep) == [""] + rest;
      } else {
        var r := [[s[0]] + rest[0]] + rest[1..];
        assert Split(s, sep) == r;
        if |rest| == 1 {
          assert Join(rest, sep) == rest[0];
        } else {
          assert Join(rest, sep) == rest[0] + [sep] + Join(rest[1..], sep);
          assert r[1..] == rest[1..];
        }
      }
    }
  }

  /** Splitting `a + t`, where `a` has no separator, glues `a` onto the first
      piece of `t`. */
  lemma {:induction false} SplitPrefix(a: string, t: string, sep: char)
    requires sep !in a
    ensures Split(a + t, sep) == [a + Split(t, sep)[0]] + Split(t, sep)[1..]
    decreases |a|
  {
    if |a| > 0 {
      SplitPrefix(a[1..], t, sep);
      assert (a + t)[1..] == a[1..] + t;
      assert (a + t)[0] == a[0];
      assert [a[0]] + (a[1..] + Split(t, sep)[0]) == a + Split(t, sep)[0];
    } else {
      assert a + t == t;
      var sp := Split(t, sep);
      assert sp == [sp[0]] + sp[1..];
      assert a + sp[0] == sp[0];
    }
  }

  /** Splitting a join of separator-free pieces gives back the pieces. */
  lemma {:induction false} SplitJoin(xs: seq<string>, sep: char)
    requires |xs| >= 1
    requires forall i | 0 <= i < |xs| :: sep !in xs[i]
    ensures Split(Join(xs, sep), sep) == xs
    decreases |xs|
  {
    if |xs| == 1 {
      SplitPrefix(xs[0], "", sep);
      assert xs[0] + "" == xs[0];
    } else {
      var tail := Join(xs[1..], sep);
      SplitJoin(xs[1..], sep);
      assert Join(xs, sep) == xs[0] + ([sep] + tail);
      SplitPrefix(xs[0], [sep] + tail, sep);
      assert ([sep] + tail)[1..] == tail;
      assert Split([sep] + tail, sep) == [""] + xs[1..];
      assert xs[0] + "" == xs[0];
      assert xs == [xs[0]] + xs[1..];
    }
  }

  /** `s.indexOf(c)`: -1 when `c` does not occur. */
  function IndexOf(s: string, c: char): (r: int)
    ensures -1 <= r < |s|
    ensures r >= 0 ==> s[r] == c && c !in s[..r]
    ensures r < 0 ==> c !in s
  {
    if |s| == 0 then -1
    else if s[0] == c then 0
    else
      var r := IndexOf(s[1..], c);
      assert r >= 0 ==> s[..r + 1] == [s[0]] + s[1..][..r];
      if r < 0 then -1 else r + 1
  }

  /** A pattern absent from `s` is absent from its tail. */
  lemma ContainsTail(s: string, p: string)
    requires |s| > 0 && !Contains(s, p)
    ensures !Contains(s[1..], p)
  {
    forall i | 0 <= i <= |s[1..]| - |p| ensures !OccursAt(s[1..], p, i) {
      NotOccursAt(s, p, i + 1);
      assert s[1..][i..i + |p|] == s[i + 1..i + 1 + |p|];
    }
  }

  lemma NotOccursAt(s: string, p: string, j: int)
    requires !Contains(s, p) && 0 <= j <= |s| - |p|
    ensures !OccursAt(s, p, j)
  {
  }

  /** `s.lastIndexOf(c)`: -1 when `c` does not occur. */
  function LastIndexOf(s: string, c: char): (r: int)
    ensures -1 <= r < |s|
    ensures r >= 0 ==> s[r] == c
    ensures forall i | r < i < |s| :: s[i] != c
  {
    if |s| == 0 then -1
    else if s[|s| - 1] == c then |s| - 1
    else LastIndexOf(s[..|s| - 1], c)
  }

  /** `s.replace(/pat/g, rep)` for a pattern without metacharacters: every
      occurrence, scanning left to right without overlaps, is replaced. */
  function ReplaceAll(s: string, pat: string, rep: string): string
    requires |pat| > 0
    decreases |s|
  {
    if |s| < |pat| then s
    else if s[..|pat|] == pat then rep + ReplaceAll(s[|pat|..], pat, rep)
    else [s[0]] + ReplaceAll(s[1..], pat, rep)
  }

  /** Text without an occurrence of the pattern is left alone. */
  lemma {:induction false} ReplaceAllAbsent(s: string, pat: string, rep: string)
    requires |pat| > 0
    requires !Contains(s, pat)
    ensures ReplaceAll(s, pat, rep) == s
    decreases |s|
  {
    if |s| >= |pat| {
      assert !OccursAt(s, pat, 0);
      assert !Contains(s[1..], pat) by {
        forall i | 0 <= i <= |s[1..]| - |pat| ensures !OccursAt(s[1..], pat, i) {
          assert s[1..][i..i + |pat|] == s[i + 1..i + 1 + |pat|];
          assert !OccursAt(s, pat, i + 1);
        }
      }
      ReplaceAllAbsent(s[1..], pat, rep);
    }
  }

  /** Replacing a pattern by itself changes nothing. */
  lemma {:induction false} ReplaceAllSame(s: string, pat: string)
    requires |pat| > 0
    ensures ReplaceAll(s, pat, pat) == s
    decreases |s|
  {
    if |s| >= |pat| {
      if s[..|pat|] == pat {
        ReplaceAllSame(s[|pat|..], pat);
        assert s == s[..|pat|] + s[|pat|..];
      } else {
        ReplaceAllSame(s[1..], pat);
        assert s == [s[0]] + s[1..];
      }
    }
  }

  /** Decimal digits of a natural number, as `String(n)` prints it. */
  function NatToString(n: nat): (r: string)
    ensures |r| >= 1
    ensures forall i | 0 <= i < |r| :: '0' <= r[i] <= '9'
  {
    if n < 10 then ["0123456789"[n]] else NatToString(n / 10) + ["0123456789"[n % 10]]
  }

  /** The value of a string of decimal digits, as `parseInt(s, 10)` reads it. */
  function DecimalValue(s: string): (n: nat)
    requires forall i | 0 <= i < |s| :: '0' <= s[i] <= '9'
  {
    if |s| == 0 then 0 else 10 * DecimalValue(s[..|s| - 1]) + (s[|s| - 1] as int - '0' as int)
  }

  /** Printing a number and reading it back gives the number. */
  lemma {:induction false} DecimalRoundTrip(n: nat)
    ensures DecimalValue(NatToString(n)) == n
  {
    if n >= 10 {
      var s := NatToString(n);
      DecimalRoundTrip(n / 10);
      assert s[..|s| - 1] == NatToString(n / 10);
    }
  }
}
