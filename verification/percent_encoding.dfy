/** `encodeURIComponent`: every character outside the unreserved set is
    written as the percent-escaped bytes of its UTF-8 encoding. Dafny's
    `char` is a Unicode scalar value, so the lone surrogates on which the
    JavaScript function throws cannot occur. */
module PercentEncoding {

  /** The characters `encodeURIComponent` leaves as they are. */
  predicate IsUnreserved(c: char) {
    ('A' <= c <= 'Z') || ('a' <= c <= 'z') || ('0' <= c <= '9')
    || c == '-' || c == '_' || c == '.' || c == '!' || c == '~' || c == '*'
    || c == '\'' || c == '(' || c == ')'
  }

  /** What `encodeURIComponent` output is made of. */
  predicate IsEncodedChar(c: char) {
    IsUnreserved(c) || c == '%'
  }

  /** The UTF-8 bytes of a Unicode scalar value. */
  function Utf8(c: char): (bytes: seq<int>)
    ensures 1 <= |bytes| <= 4
    ensures forall i | 0 <= i < |bytes| :: 0 <= bytes[i] < 256
    ensures |bytes| == 1 <==> c as int < 0x80
  {
    var n := c as int;
    if n < 0x80 then [n]
    else if n < 0x800 then [0xC0 + n / 64, 0x80 + n % 64]
    else if n < 0x10000 then [0xE0 + n / 4096, 0x80 + (n / 64) % 64, 0x80 + n % 64]
    else [0xF0 + n / 262144, 0x80 + (n / 4096) % 64, 0x80 + (n / 64) % 64, 0x80 + n % 64]
  }

  function HexDigit(d: int): (c: char)
    requires 0 <= d < 16
    ensures IsUnreserved(c)
  {
    "0123456789ABCDEF"[d]
  }

  /** `%XY` for every byte, with upper-case hexadecimal digits. */
  function PercentBytes(bytes: seq<int>): (r: string)
    requires forall i | 0 <= i < |bytes| :: 0 <= bytes[i] < 256
    ensures |r| == 3 * |bytes|
    ensures |bytes| > 0 ==> r[0] == '%'
    ensures forall i | 0 <= i < |r| :: IsEncodedChar(r[i])
  {
    if |bytes| == 0 then ""
    else ['%', HexDigit(bytes[0] / 16), HexDigit(bytes[0] % 16)] + PercentBytes(bytes[1..])
  }

  function EncodeChar(c: char): (r: string)
    ensures IsUnreserved(c) ==> r == [c]
    ensures !IsUnreserved(c) ==> |r| >= 3 && r[0] == '%'
    ensures forall i | 0 <= i < |r| :: IsEncodedChar(r[i])
  {
    if IsUnreserved(c) then [c] else PercentBytes(Utf8(c))
  }

  /** `encodeURIComponent(s)`: the result is made of unreserved characters
      and `%` only, is empty only for the empty string, and is never shorter
      than `s`. */
  function Encode(s: string): (r: string)
    ensures forall i | 0 <= i < |r| :: IsEncodedChar(r[i])
    ensures |r| >= |s|
    ensures r == [] <==> s == []
  {
    if s == [] then [] else EncodeChar(s[0]) + Encode(s[1..])
  }

  /** `Encode` applied `k` times. */
  function EncodeIter(s: string, k: nat): string
  {
    if k == 0 then s else Encode(EncodeIter(s, k - 1))
  }

  /** Text made only of unreserved characters is its own encoding, and only
      such text is. */
  lemma {:induction false} EncodeFixedIff(s: string)
    ensures Encode(s) == s <==> forall i | 0 <= i < |s| :: IsUnreserved(s[i])
  {
    if s != [] {
      EncodeFixedIff(s[1..]);
      if Encode(s) == s {
        assert |EncodeChar(s[0])| + |Encode(s[1..])| == |s|;
        assert IsUnreserved(s[0]);
        assert Encode(s[1..]) == s[1..];
        forall i | 0 <= i < |s| ensures IsUnreserved(s[i]) {
          if i > 0 { assert s[i] == s[1..][i - 1]; }
        }
      }
    }
  }

  /** An encoding without escapes comes only from text without characters
      that need escaping. */
  lemma {:induction false} UnescapedEncoding(s: string)
    requires forall i | 0 <= i < |Encode(s)| :: IsUnreserved(Encode(s)[i])
    ensures forall i | 0 <= i < |s| :: IsUnreserved(s[i])
  {
    if s != [] {
      var head := EncodeChar(s[0]);
      var e := Encode(s);
      assert e == head + Encode(s[1..]);
      assert IsUnreserved(e[0]) && e[0] == head[0];
      assert head == [s[0]];
      forall i | 0 <= i < |Encode(s[1..])| ensures IsUnreserved(Encode(s[1..])[i]) {
        assert Encode(s[1..])[i] == e[i + 1];
      }
      UnescapedEncoding(s[1..]);
      forall i | 0 <= i < |s| ensures IsUnreserved(s[i]) {
        if i > 0 { assert s[i] == s[1..][i - 1]; }
      }
    }
  }

  /** Once encoding changes nothing it never changed anything:
      if the `k`-th encoding is a fixed point of `Encode`, it is the text itself. */
  lemma {:induction false} EncodeIterCollapse(t: string, k: nat)
    requires Encode(EncodeIter(t, k)) == EncodeIter(t, k)
    ensures EncodeIter(t, k) == t
  {
    if k > 0 {
      var z := EncodeIter(t, k - 1);
      EncodeFixedIff(Encode(z));
      UnescapedEncoding(z);
      EncodeFixedIff(z);
      EncodeIterCollapse(t, k - 1);
    }
  }

  /** Characters that never appear in `encodeURIComponent` output; the proxy
      URLs the handlers build rely on this to keep `&`, `=` and line breaks
      unambiguous. */
  lemma EncodedHasNo(s: string, c: char)
    requires !IsEncodedChar(c)
    ensures c !in Encode(s)
  {
  }
}
