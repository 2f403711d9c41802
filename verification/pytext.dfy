/** The few pieces of Python's `str` behaviour the request handlers rely on:
    `str.isspace`/`str.strip`, `str(n)` for a non-negative integer, the slice
    `s[:n]` and `sep.join(parts)`. A Python `str` is a sequence of code
    points; a Dafny `char` is a Unicode scalar value, which is every code
    point except the surrogates U+D800 to U+DFFF. On text without lone
    surrogates the two agree on lengths, indices and slices. */
module PyText {

  /** The characters `str.isspace` accepts, which are the ones `str.strip()`
      removes when it is called without arguments. */
  predicate IsSpace(c: char) {
    || c == ' '
    || ('\t' <= c <= '\r')                 // \t \n \v \f \r
    || ('\U{1c}' <= c <= '\U{1f}')         // file, group, record, unit separators
    || c == '\U{85}' || c == '\U{a0}' || c == '\U{1680}'
    || ('\U{2000}' <= c <= '\U{200a}')
    || c == '\U{2028}' || c == '\U{2029}' || c == '\U{202f}' || c == '\U{205f}'
    || c == '\U{3000}'
  }

  predicate AllSpace(s: string) {
    forall i :: 0 <= i < |s| ==> IsSpace(s[i])
  }

  /** `s.lstrip()`: the longest suffix of `s` that does not start with whitespace. */
  function LStrip(s: string): (r: string)
    ensures |r| <= |s| && r == s[|s| - |r|..]
    ensures r != "" ==> !IsSpace(r[0])
    ensures forall i :: 0 <= i < |s| - |r| ==> IsSpace(s[i])
  {
    if s != "" && IsSpace(s[0]) then LStrip(s[1..]) else s
  }

  /** `s.rstrip()`: the longest prefix of `s` that does not end with whitespace. */
  function RStrip(s: string): (r: string)
    ensures |r| <= |s| && r == s[..|r|]
    ensures r != "" ==> !IsSpace(r[|r| - 1])
    ensures forall i :: |r| <= i < |s| ==> IsSpace(s[i])
  {
    if s != "" && IsSpace(s[|s| - 1]) then RStrip(s[..|s| - 1]) else s
  }

  /** `s.strip()`. */
  function Strip(s: string): string {
    RStrip(LStrip(s))
  }

  /** `not s.strip()` holds exactly when `s` is empty or made only of whitespace. */
  lemma StripEmptyIff(s: string)
    ensures Strip(s) == "" <==> AllSpace(s)
  {
    var l := LStrip(s);
    if l != "" {
      assert s[|s| - |l|] == l[0];
    }
  }

  /** The decimal digit `d` as a character. */
  function DigitChar(d: nat): (c: char)
    requires d < 10
    ensures '0' <= c <= '9' && c as int - '0' as int == d
  {
    ('0' as int + d) as char
  }

  predicate AllDigits(s: string) {
    forall i :: 0 <= i < |s| ==> '0' <= s[i] <= '9'
  }

  /** `str(n)` for a non-negative integer: its decimal digits, most
      significant first, with no leading zero. */
  function DecimalString(n: nat): (r: string)
    ensures r != "" && AllDigits(r)
    ensures r[0] == '0' ==> n == 0
  {
    if n < 10 then [DigitChar(n)] else DecimalString(n / 10) + [DigitChar(n % 10)]
  }

  /** The value a string of decimal digits denotes (Python's `int(s)`). */
  function DecimalValue(s: string): nat
    requires AllDigits(s)
  {
    if s == "" then 0
    else 10 * DecimalValue(s[..|s| - 1]) + (s[|s| - 1] as int - '0' as int)
  }

  /** Reading back the digits `str(n)` prints gives `n`: the page numbers
      written into the page markers are unambiguous. */
  lemma {:induction false} DecimalRoundTrip(n: nat)
    ensures DecimalValue(DecimalString(n)) == n
  {
    var r := DecimalString(n);
    if n >= 10 {
      DecimalRoundTrip(n / 10);
      assert r[..|r| - 1] == DecimalString(n / 10);
    }
  }

  /** `s[:n]` for a non-negative `n`: Python clamps the end to the length. */
  function Prefix(s: string, n: nat): (r: string)
    ensures |r| == if n < |s| then n else |s|
    ensures r <= s
  {
    if n < |s| then s[..n] else s
  }

  /** The sum of the lengths of `parts`. */
  function TotalLength(parts: seq<string>): nat {
    if parts == [] then 0 else |parts[0]| + TotalLength(parts[1..])
  }

  /** `sep.join(parts)`. */
  function Join(sep: string, parts: seq<string>): string {
    if parts == [] then ""
    else if |parts| == 1 then parts[0]
    else parts[0] + sep + Join(sep, parts[1..])
  }

  /** The joined string holds every part and one separator between each
      two neighbours, and nothing else. */
  lemma {:induction false} JoinLength(sep: string, parts: seq<string>)
    ensures |Join(sep, parts)| == TotalLength(parts) + (if parts == [] then 0 else (|parts| - 1) * |sep|)
  {
    if |parts| > 1 {
      JoinLength(sep, parts[1..]);
      assert (|parts| - 1) * |sep| == |sep| + (|parts| - 2) * |sep|;
    }
  }

  /** Where `parts[k]` starts inside `sep.join(parts)`: after the parts
      before it and one separator behind each of them. */
  function JoinOffset(sep: string, parts: seq<string>, k: nat): nat
    requires k <= |parts|
  {
    if k == 0 then 0 else |parts[0]| + |sep| + JoinOffset(sep, parts[1..], k - 1)
  }

  /** Each part appears verbatim, in order, at its offset in the joined
      string, and each part but the last is followed by the separator. */
  lemma {:induction false} JoinPartAt(sep: string, parts: seq<string>, k: nat)
    requires k < |parts|
    ensures JoinOffset(sep, parts, k) + |parts[k]| <= |Join(sep, parts)|
    ensures Join(sep, parts)[JoinOffset(sep, parts, k)..JoinOffset(sep, parts, k) + |parts[k]|] == parts[k]
    ensures k + 1 < |parts| ==>
      var e := JoinOffset(sep, parts, k) + |parts[k]|;
      e + |sep| <= |Join(sep, parts)| && Join(sep, parts)[e..e + |sep|] == sep
  {
    var j := Join(sep, parts);
    if k == 0 {
      if |parts| > 1 {
        var rest := sep + Join(sep, parts[1..]);
        assert j == parts[0] + rest;
        SliceOfConcat(parts[0], rest, |parts[0]|, |parts[0]| + |sep|);
      }
    } else {
      var tail := parts[1..];
      var jt := Join(sep, tail);
      JoinPartAt(sep, tail, k - 1);
      var head := parts[0] + sep;
      var o := JoinOffset(sep, parts, k);
      assert j == head + jt;
      SliceOfConcat(head, jt, o, o + |parts[k]|);
      if k + 1 < |parts| {
        var e := o + |parts[k]|;
        SliceOfConcat(head, jt, e, e + |sep|);
      }
    }
  }

  /** A slice lying in the second half of a concatenation. */
  lemma SliceOfConcat(a: string, b: string, i: nat, j: nat)
    requires |a| <= i <= j <= |a| + |b|
    ensures (a + b)[i..j] == b[i - |a|..j - |a|]
  {
  }
}
