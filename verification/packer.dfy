/** The unpacker for scripts compressed with the `eval(function(p,a,c,k,e,d)`
    packer: every whole-word token, a number written in base `a`, is
    replaced by its entry in the `|`-separated dictionary. */
module Packer {
  import opened Wrappers
  import opened Text

  /** The digit character for `d` in `Number.prototype.toString(radix)`:
      `0`-`9`, then `a`-`z`. */
  function DigitChar(d: nat): (c: char)
    requires d < 36
  {
    if d < 10 then ('0' as int + d) as char else ('a' as int + d - 10) as char
  }

  /** A digit of base `a`. */
  predicate IsDigitOf(c: char, a: nat) {
    ('0' <= c <= '9' && (c as int - '0' as int) < a)
    || ('a' <= c <= 'z' && (c as int - 'a' as int) + 10 < a)
  }

  /** The value of a digit character. */
  function DigitValue(c: char, a: nat): (v: nat)
    requires IsDigitOf(c, a)
    ensures v < a && v < 36 && DigitChar(v) == c
  {
    if '0' <= c <= '9' then c as int - '0' as int else c as int - 'a' as int + 10
  }

  /** `n.toString(a)` */
  function ToRadix(n: nat, a: nat): (r: string)
    requires 2 <= a <= 36
    ensures |r| >= 1
    ensures forall i | 0 <= i < |r| :: IsDigitOf(r[i], a)
    decreases n
  {
    if n < a then
      DigitOf(n, a);
      [DigitChar(n)]
    else
      DivMod(n, a);
      DigitOf(n % a, a);
      ToRadix(n / a, a) + [DigitChar(n % a)]
  }

  lemma DivMod(n: nat, a: nat)
    requires 2 <= a <= n
    ensures 0 <= n % a < a && 1 <= n / a < n
    ensures n == a * (n / a) + n % a
  {
  }

  lemma DigitOf(d: nat, a: nat)
    requires d < a <= 36
    ensures IsDigitOf(DigitChar(d), a) && DigitValue(DigitChar(d), a) == d
  {
  }

  /** `parseInt(s, a)` on a string of digits of base `a`. */
  function FromRadix(s: string, a: nat): nat
    requires 2 <= a <= 36
    requires forall i | 0 <= i < |s| :: IsDigitOf(s[i], a)
  {
    if |s| == 0 then 0 else a * FromRadix(s[..|s| - 1], a) + DigitValue(s[|s| - 1], a)
  }

  /** Reading a token back gives its number. */
  lemma {:induction false} RadixRoundTrip(n: nat, a: nat)
    requires 2 <= a <= 36
    ensures FromRadix(ToRadix(n, a), a) == n
    decreases n
  {
    if n >= a {
      DivMod(n, a);
      DigitOf(n % a, a);
      RadixRoundTrip(n / a, a);
      FromRadixSnoc(ToRadix(n / a, a), DigitChar(n % a), a);
    } else {
      DigitOf(n, a);
    }
  }

  /** One more digit multiplies by the base and adds the digit. */
  lemma FromRadixSnoc(t: string, c: char, a: nat)
    requires 2 <= a <= 36
    requires forall i | 0 <= i < |t| :: IsDigitOf(t[i], a)
    requires IsDigitOf(c, a)
    ensures FromRadix(t + [c], a) == a * FromRadix(t, a) + DigitValue(c, a)
  {
    assert (t + [c])[..|t|] == t;
  }

  /** Distinct numbers have distinct tokens. */
  lemma TokensDistinct(m: nat, n: nat, a: nat)
    requires 2 <= a <= 36 && m != n
    ensures ToRadix(m, a) != ToRadix(n, a)
  {
    RadixRoundTrip(m, a);
    RadixRoundTrip(n, a);
  }

  /** `[A-Za-z0-9_]`, the characters `\b` looks at. */
  predicate IsWordChar(c: char) {
    'a' <= c <= 'z' || 'A' <= c <= 'Z' || '0' <= c <= '9' || c == '_'
  }

  /** A non-empty run of word characters. */
  predicate IsWord(w: string) {
    |w| > 0 && forall i | 0 <= i < |w| :: IsWordChar(w[i])
  }

  lemma TokenIsWord(n: nat, a: nat)
    requires 2 <= a <= 36
    ensures IsWord(ToRadix(n, a))
  {
  }

  /** `s.replace(new RegExp('\\b' + w + '\\b', 'g'), rep)` for a word `w`,
      `rep` taken literally: scanning left to right, an occurrence of `w`
      is replaced when the character before it (`afterWord` tells whether
      it is a word character) and the one after it are not word characters. */
  function ReplaceWord(s: string, w: string, rep: string, afterWord: bool): string
    requires IsWord(w)
    decreases |s|
  {
    if |s| == 0 then ""
    else if !afterWord && StartsWith(s, w) && (|s| == |w| || !IsWordChar(s[|w|])) then
      rep + ReplaceWord(s[|w|..], w, rep, true)
    else [s[0]] + ReplaceWord(s[1..], w, rep, IsWordChar(s[0]))
  }

  /** The steps of the unpacking loop for `i = n - 1` down to `0`; `None`
      when `i.toString(a)` throws because `a` is not a radix. */
  function UnpackSteps(text: string, a: nat, dict: seq<string>, n: nat): Option<string>
    decreases n
  {
    if n == 0 then Some(text)
    else
      var i := n - 1;
      if i < |dict| && dict[i] != "" then
        if 2 <= a <= 36 then UnpackSteps(ReplaceWord(text, ToRadix(i, a), dict[i], false), a, dict, i)
        else None
      else UnpackSteps(text, a, dict, i)
  }

  /** `unpackPacker(p, a, c, k)`. */
  method UnpackPacker(p: string, a: nat, c: nat, k: string) returns (r: Option<string>)
    ensures r == UnpackSteps(p, a, Split(k, '|'), c)
  {
    var result := p;
    var kArr := Split(k, '|');
    var i: int := c - 1;
    while i >= 0
      invariant -1 <= i < c || (c == 0 && i == -1)
      invariant UnpackSteps(result, a, kArr, i + 1) == UnpackSteps(p, a, kArr, c)
    {
      if i < |kArr| && kArr[i] != "" {
        if !(2 <= a <= 36) {
          return None;
        }
        result := ReplaceWord(result, ToRadix(i, a), kArr[i], false);
      }
      i := i - 1;
    }
    return Some(result);
  }

  /** A packed payload, seen as words (dictionary indices) and the non-word
      text between them. */
  datatype Piece = Ref(index: nat) | Gap(text: string)

  /** Every index below `c`, every gap non-empty and free of word
      characters, and no two references side by side. */
  predicate WellFormed(ps: seq<Piece>, c: nat) {
    (forall k | 0 <= k < |ps| :: ps[k].Ref? ==> ps[k].index < c)
    && (forall k | 0 <= k < |ps| :: ps[k].Gap? ==>
          |ps[k].text| > 0 && forall m | 0 <= m < |ps[k].text| :: !IsWordChar(ps[k].text[m]))
    && (forall k | 0 <= k < |ps| - 1 :: !(ps[k].Ref? && ps[k + 1].Ref?))
  }

  /** The dictionary entry for `j`; `undefined` past the end reads as empty. */
  function Entry(dict: seq<string>, j: nat): string {
    if j < |dict| then dict[j] else ""
  }

  /** How reference `j` reads once the indices from `m` up are unpacked:
      its entry, or its own token when the entry is empty; below `m`, the
      token. */
  function Shown(j: nat, a: nat, dict: seq<string>, m: nat): string
    requires 2 <= a <= 36
  {
    if j >= m && Entry(dict, j) != "" then Entry(dict, j) else ToRadix(j, a)
  }

  function Render(ps: seq<Piece>, a: nat, dict: seq<string>, m: nat): string
    requires 2 <= a <= 36
  {
    if |ps| == 0 then ""
    else (match ps[0] case Ref(j) => Shown(j, a, dict, m) case Gap(t) => t) + Render(ps[1..], a, dict, m)
  }

  /** Dictionary entries are words, and none equals the token of a
      smaller index (which a later step would replace again). */
  predicate GoodDictionary(a: nat, dict: seq<string>, c: nat)
    requires 2 <= a <= 36
  {
    (forall j | 0 <= j < |dict| :: dict[j] == "" || IsWord(dict[j]))
    && (forall i, j | 0 <= i < j < c && j < |dict| && dict[j] != "" :: dict[j] != ToRadix(i, a))
  }

  lemma {:induction false} CopyWordChars(s: string, rest: string, w: string, rep: string)
    requires IsWord(w)
    requires forall i | 0 <= i < |s| :: IsWordChar(s[i])
    ensures ReplaceWord(s + rest, w, rep, true) == s + ReplaceWord(rest, w, rep, true)
    decreases |s|
  {
    if |s| > 0 {
      assert (s + rest)[0] == s[0] && (s + rest)[1..] == s[1..] + rest;
      CopyWordChars(s[1..], rest, w, rep);
    } else {
      assert s + rest == rest;
    }
  }

  lemma {:induction false} CopyGap(g: string, rest: string, w: string, rep: string, afterWord: bool)
    requires IsWord(w) && |g| > 0
    requires forall i | 0 <= i < |g| :: !IsWordChar(g[i])
    ensures ReplaceWord(g + rest, w, rep, afterWord) == g + ReplaceWord(rest, w, rep, false)
    decreases |g|
  {
    var s := g + rest;
    assert s[0] == g[0] && s[1..] == g[1..] + rest;
    assert !StartsWith(s, w) by {
      assert IsWordChar(w[0]);
    }
    if |g| > 1 {
      CopyGap(g[1..], rest, w, rep, false);
    } else {
      assert g[1..] + rest == rest;
    }
  }

  lemma ReplaceWholeWord(u: string, rest: string, w: string, rep: string)
    requires IsWord(w) && IsWord(u)
    requires |rest| == 0 || !IsWordChar(rest[0])
    ensures ReplaceWord(u + rest, w, rep, false)
         == (if u == w then rep else u) + ReplaceWord(rest, w, rep, true)
  {
    var s := u + rest;
    if u == w {
      assert StartsWith(s, w);
      assert s[|w|..] == rest;
    } else {
      if StartsWith(s, w) && (|s| == |w| || !IsWordChar(s[|w|])) {
        WordMatchIsWhole(u, rest, w);
      }
      assert s[0] == u[0] && s[1..] == u[1..] + rest;
      CopyWordChars(u[1..], rest, w, rep);
      assert [u[0]] + u[1..] == u;
    }
  }

  /** A whole-word occurrence at the start of a word is that word. */
  lemma WordMatchIsWhole(u: string, rest: string, w: string)
    requires IsWord(u) && IsWord(w) && (|rest| == 0 || !IsWordChar(rest[0]))
    requires StartsWith(u + rest, w) && (|u + rest| == |w| || !IsWordChar((u + rest)[|w|]))
    ensures w == u
  {
    var s := u + rest;
    assert forall k | 0 <= k < |w| :: s[k] == w[k];
    assert forall k | 0 <= k < |u| :: s[k] == u[k];
    assert |s| > |u| ==> s[|u|] == rest[0];
    assert |w| == |u|;
    assert w == s[..|u|] == u;
  }

  /** One unpacking step on a rendered payload: replacing the token of
      `m - 1` turns exactly the references to `m - 1` into their entry. */
  lemma {:induction false} StepOnRender(ps: seq<Piece>, a: nat, dict: seq<string>, c: nat, m: nat, afterWord: bool)
    requires 2 <= a <= 36 && 1 <= m <= c
    requires WellFormed(ps, c) && GoodDictionary(a, dict, c)
    requires Entry(dict, m - 1) != ""
    requires |ps| > 0 && ps[0].Ref? ==> !afterWord
    ensures ReplaceWord(Render(ps, a, dict, m), ToRadix(m - 1, a), Entry(dict, m - 1), afterWord)
         == Render(ps, a, dict, m - 1)
    decreases |ps|
  {
    var w := ToRadix(m - 1, a);
    var rep := Entry(dict, m - 1);
    TokenIsWord(m - 1, a);
    if |ps| > 0 {
      var tail := ps[1..];
      assert WellFormed(tail, c);
      var restOld := Render(tail, a, dict, m);
      match ps[0]
      case Gap(t) =>
        CopyGap(t, restOld, w, rep, afterWord);
        StepOnRender(tail, a, dict, c, m, false);
      case Ref(j) =>
        var u := Shown(j, a, dict, m);
        ShownIsWord(j, a, dict, c, m);
        assert |restOld| == 0 || !IsWordChar(restOld[0]) by {
          if |tail| > 0 {
            RenderGapHead(tail, a, dict, c, m);
          }
        }
        ReplaceWholeWord(u, restOld, w, rep);
        ShownStep(j, a, dict, c, m);
        if |tail| > 0 {
          StepOnRender(tail, a, dict, c, m, true);
        }
    }
  }

  lemma ShownIsWord(j: nat, a: nat, dict: seq<string>, c: nat, m: nat)
    requires 2 <= a <= 36 && GoodDictionary(a, dict, c)
    ensures IsWord(Shown(j, a, dict, m))
  {
    TokenIsWord(j, a);
  }

  /** What a reference becomes in one step. */
  lemma ShownStep(j: nat, a: nat, dict: seq<string>, c: nat, m: nat)
    requires 2 <= a <= 36 && 1 <= m <= c && j < c
    requires GoodDictionary(a, dict, c) && Entry(dict, m - 1) != ""
    ensures (if Shown(j, a, dict, m) == ToRadix(m - 1, a) then Entry(dict, m - 1) else Shown(j, a, dict, m))
         == Shown(j, a, dict, m - 1)
  {
    if j < m - 1 {
      TokensDistinct(j, m - 1, a);
    } else if j > m - 1 {
      if Entry(dict, j) == "" {
        TokensDistinct(j, m - 1, a);
      }
    }
  }

  lemma RenderGapHead(ps: seq<Piece>, a: nat, dict: seq<string>, c: nat, m: nat)
    requires 2 <= a <= 36 && WellFormed(ps, c) && |ps| > 0 && ps[0].Gap?
    ensures |Render(ps, a, dict, m)| > 0 && !IsWordChar(Render(ps, a, dict, m)[0])
  {
    assert Render(ps, a, dict, m) == ps[0].text + Render(ps[1..], a, dict, m);
  }

  /** Unpacking inverts packing: a payload whose words were replaced by the
      tokens of their dictionary indices unpacks to the words, as long as
      no dictionary word equals the token of a smaller index. */
  lemma {:induction false} UnpackRoundTrip(ps: seq<Piece>, a: nat, dict: seq<string>, c: nat, m: nat)
    requires 2 <= a <= 36 && m <= c
    requires WellFormed(ps, c) && GoodDictionary(a, dict, c)
    ensures UnpackSteps(Render(ps, a, dict, m), a, dict, m) == Some(Render(ps, a, dict, 0))
    decreases m
  {
    if m > 0 {
      if m - 1 < |dict| && dict[m - 1] != "" {
        StepOnRender(ps, a, dict, c, m, false);
      } else {
        RenderSame(ps, a, dict, m);
      }
      UnpackRoundTrip(ps, a, dict, c, m - 1);
    }
  }

  /** An index without entry reads the same before and after its step. */
  lemma {:induction false} RenderSame(ps: seq<Piece>, a: nat, dict: seq<string>, m: nat)
    requires 2 <= a <= 36 && m >= 1 && Entry(dict, m - 1) == ""
    ensures Render(ps, a, dict, m) == Render(ps, a, dict, m - 1)
    decreases |ps|
  {
    if |ps| > 0 {
      RenderSame(ps[1..], a, dict, m);
    }
  }

  /** The signature of a packed script, found by `html.match(...)`. */
  datatype Packed = Packed(payload: string, base: string, count: string, dict: string)

  const Head: string := "eval(function(p,a,c,k,e,d){"
  const Tail: string := "'.split('|')))"

  predicate IsDigit(c: char) { '0' <= c <= '9' }

  /** `\d+` */
  predicate Numeral(s: string) {
    |s| > 0 && forall i | 0 <= i < |s| :: IsDigit(s[i])
  }

  /** `',\s*(\d+),\s*(\d+),\s*'` after the payload's closing quote at `q`:
      both numbers and the index where the dictionary starts. */
  function ArgsAt(s: string, q: nat): (r: Option<(string, string, nat)>)
    requires q <= |s|
    ensures r.Some? ==> q < r.value.2 <= |s|
    ensures r.Some? ==> Numeral(r.value.0) && Numeral(r.value.1)
  {
    if !OccursAt(s, "',", q) then None
    else
      var p1 := q + 2 + Digits(s, q + 2, false);
      var n1 := Digits(s, p1, true);
      if n1 == 0 || p1 + n1 >= |s| || s[p1 + n1] != ',' then None
      else
        var p2 := p1 + n1 + 1 + Digits(s, p1 + n1 + 1, false);
        var n2 := Digits(s, p2, true);
        if n2 == 0 || p2 + n2 >= |s| || s[p2 + n2] != ',' then None
        else
          var p3 := p2 + n2 + 1 + Digits(s, p2 + n2 + 1, false);
          if p3 < |s| && s[p3] == '\'' then Some((s[p1..p1 + n1], s[p2..p2 + n2], p3 + 1)) else None
  }

  /** Length of the run of digits (`digits`) or of whitespace (`!digits`)
      starting at `i`. */
  function Digits(s: string, i: nat, digits: bool): (n: nat)
    requires i <= |s|
    ensures i + n <= |s|
    ensures forall k | i <= k < i + n :: if digits then IsDigit(s[k]) else IsJsSpace(s[k])
    decreases |s| - i
  {
    if i < |s| && (if digits then IsDigit(s[i]) else IsJsSpace(s[i])) then 1 + Digits(s, i + 1, digits) else 0
  }

  /** The lazy `([\s\S]*?)'\.split...`: the first closing sequence at or
      after `v`. */
  function DictEnd(s: string, v: nat): (r: Option<nat>)
    requires v <= |s|
    ensures r.Some? ==> v <= r.value <= |s| && OccursAt(s, Tail, r.value)
    ensures r.Some? ==> forall k | v <= k < r.value :: !OccursAt(s, Tail, k)
    ensures r.None? ==> forall k | v <= k <= |s| :: !OccursAt(s, Tail, k)
    decreases |s| - v
  {
    if OccursAt(s, Tail, v) then Some(v)
    else if v == |s| then None
    else DictEnd(s, v + 1)
  }

  /** The lazy payload starting at `p`, tried with every end `j` from the
      shortest on, with the rest of the pattern matched after it. */
  function PayloadFrom(s: string, p: nat, j: nat): (r: Option<Packed>)
    ensures r.Some? ==> Numeral(r.value.base) && Numeral(r.value.count)
    requires p <= j <= |s|
    decreases |s| - j
  {
    var rest :=
      match ArgsAt(s, j)
      case None => None
      case Some(args) =>
        (match DictEnd(s, args.2)
         case None => None
         case Some(e) => Some(Packed(s[p..j], args.0, args.1, s[args.2..e])));
    if rest.Some? then rest
    else if j == |s| then None
    else PayloadFrom(s, p, j + 1)
  }

  /** The lazy function body from `b`, tried with every end `j`. */
  function BodyFrom(s: string, j: nat): (r: Option<Packed>)
    ensures r.Some? ==> Numeral(r.value.base) && Numeral(r.value.count)
    requires j <= |s|
    decreases |s| - j
  {
    var rest := if OccursAt(s, "}('", j) then PayloadFrom(s, j + 3, j + 3) else None;
    if rest.Some? then rest
    else if j == |s| then None
    else BodyFrom(s, j + 1)
  }

  /** The match of the whole pattern that starts exactly at `i`, if any. */
  function SignatureAt(s: string, i: nat): (r: Option<Packed>)
    requires i <= |s|
    ensures r.Some? ==> OccursAt(s, Head, i) && Numeral(r.value.base) && Numeral(r.value.count)
  {
    if OccursAt(s, Head, i) then BodyFrom(s, i + |Head|) else None
  }

  /** `html.match(...)`: the leftmost start that completes the pattern. */
  function MatchSignature(s: string, i: nat): (r: Option<Packed>)
    ensures r.Some? ==> Numeral(r.value.base) && Numeral(r.value.count)
    requires i <= |s|
    decreases |s| - i
  {
    var here := SignatureAt(s, i);
    if here.Some? then here
    else if i == |s| then None
    else MatchSignature(s, i + 1)
  }

  /** No match of the pattern starts in `[a, b)`. */
  predicate NoSignatureBetween(s: string, a: nat, b: nat)
  {
    forall k | a <= k < b && k <= |s| :: SignatureAt(s, k).None?
  }

  /** The search finds nothing exactly when the pattern matches at no
      start from `i` on, and otherwise the match at the leftmost start. */
  lemma {:induction false} MatchSignatureSpec(s: string, i: nat)
    requires i <= |s|
    ensures MatchSignature(s, i).None? <==> NoSignatureBetween(s, i, |s| + 1)
    ensures MatchSignature(s, i).Some? ==> exists k | i <= k <= |s| ::
      NoSignatureBetween(s, i, k) && MatchSignature(s, i) == SignatureAt(s, k)
    decreases |s| - i
  {
    if SignatureAt(s, i).Some? {
      assert NoSignatureBetween(s, i, i);
    } else if i < |s| {
      MatchSignatureSpec(s, i + 1);
      assert forall k | i + 1 <= k <= |s| + 1 :: NoSignatureBetween(s, i + 1, k) ==> NoSignatureBetween(s, i, k);
    }
  }

  /** A page where the pattern matches somewhere has a signature. */
  lemma SignatureFound(s: string, k: nat)
    requires k <= |s| && SignatureAt(s, k).Some?
    ensures MatchSignature(s, 0).Some?
  {
    MatchSignatureSpec(s, 0);
  }

  /** The string-literal unescaping of payload and dictionary: `\'` then
      `\\`. */
  function Unescape(s: string): string {
    ReplaceAll(ReplaceAll(s, "\\'", "'"), "\\\\", "\\")
  }

  /** The most tokens the extractor agrees to unpack. */
  const MaxCount: nat := 5000

  /** What `unpackPackedScript` returns: nothing without a signature, with
      a zero base or count, an empty dictionary or more than 5000 tokens;
      otherwise the unpacked payload (nothing either when the base is not
      a radix, where the call throws). */
  function UnpackedScript(html: string): (r: Option<string>)
    ensures MatchSignature(html, 0).None? ==> r.None?
    ensures MatchSignature(html, 0).Some? ==>
      var m := MatchSignature(html, 0).value;
      r.Some? ==> 1 <= DecimalValue(m.count) <= MaxCount && DecimalValue(m.base) > 0 && Unescape(m.dict) != ""
    ensures MatchSignature(html, 0).Some? ==>
      var m := MatchSignature(html, 0).value;
      1 <= DecimalValue(m.count) <= MaxCount && DecimalValue(m.base) > 0 && Unescape(m.dict) != "" ==>
        r == UnpackSteps(Unescape(m.payload), DecimalValue(m.base), Split(Unescape(m.dict), '|'), DecimalValue(m.count))
  {
    match MatchSignature(html, 0)
    case None => None
    case Some(m) =>
      var payload := Unescape(m.payload);
      var base := DecimalValue(m.base);
      var count := DecimalValue(m.count);
      var dict := Unescape(m.dict);
      if base == 0 || count == 0 || dict == "" || count > MaxCount then None
      else UnpackSteps(payload, base, Split(dict, '|'), count)
  }

  /** A page carrying a packed script — a payload of tokens for `c` words
      in radix `a` and its `|`-separated dictionary — yields the script
      with every word put back. */
  lemma UnpackedScriptRoundTrip(html: string, ps: seq<Piece>, a: nat, dict: seq<string>, c: nat)
    requires 2 <= a <= 36 && 1 <= c <= MaxCount
    requires WellFormed(ps, c) && GoodDictionary(a, dict, c)
    requires MatchSignature(html, 0).Some?
    requires var m := MatchSignature(html, 0).value;
      Unescape(m.payload) == Render(ps, a, dict, c) && DecimalValue(m.base) == a && DecimalValue(m.count) == c
      && Unescape(m.dict) != "" && Split(Unescape(m.dict), '|') == dict
    ensures UnpackedScript(html) == Some(Render(ps, a, dict, 0))
  {
    UnpackRoundTrip(ps, a, dict, c, c);
  }

  /** `unpackPackedScript`. */
  method UnpackPackedScript(html: string) returns (r: Option<string>)
    ensures r == UnpackedScript(html)
  {
    var m := MatchSignature(html, 0);
    if m.None? {
      return None;
    }
    var payload := Unescape(m.value.payload);
    var base := DecimalValue(m.value.base);
    var count := DecimalValue(m.value.count);
    var dict := Unescape(m.value.dict);
    if base == 0 || count == 0 || dict == "" || count > MaxCount {
      return None;
    }
    r := UnpackPacker(payload, base, count, dict);
  }
}
