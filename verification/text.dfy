/** String helpers with JavaScript's meaning: `\s` and `String.prototype.trim` share one set of
    white-space characters. Each `char` is one Unicode code point; below U+10000 that is also the
    UTF-16 code unit JavaScript's `length`, `slice` and `substring` count, and text above U+FFFF
    is not modelled. */
module Text {

  /** ECMAScript WhiteSpace and LineTerminator outside the U+2000..U+200A block. */
  const SpaceChars: set<char> := {
    '\t', '\n', '\U{B}', '\U{C}', '\r', ' ', '\U{A0}', '\U{1680}',
    '\U{2028}', '\U{2029}', '\U{202F}', '\U{205F}', '\U{3000}', '\U{FEFF}'}

  /** ECMAScript WhiteSpace and LineTerminator: the characters `\s` matches and `trim` removes. */
  predicate IsSpace(c: char) {
    c in SpaceChars || ('\U{2000}' <= c <= '\U{200A}')
  }

  predicate AllSpace(s: string) {
    forall k :: 0 <= k < |s| ==> IsSpace(s[k])
  }

  /** Neither the first nor the last character is white space. */
  predicate NoEdgeSpace(s: string) {
    s == [] || (!IsSpace(s[0]) && !IsSpace(s[|s| - 1]))
  }

  /** `String.prototype.startsWith`. */
  predicate StartsWith(s: string, prefix: string) {
    |prefix| <= |s| && s[..|prefix|] == prefix
  }

  /** Drops the leading white space: what is dropped is all white space and what is kept does
      not start with it. */
  function TrimStart(s: string): (r: string)
    ensures |r| <= |s| && r == s[|s| - |r|..]
    ensures AllSpace(s[..|s| - |r|])
    ensures r != [] ==> !IsSpace(r[0])
  {
    if s != [] && IsSpace(s[0]) then
      var t := s[1..];
      var r := TrimStart(t);
      var n := |s| - |r|;
      assert t[n - 1..] == s[n..];
      assert AllSpace(s[..n]) by {
        forall k | 0 <= k < n ensures IsSpace(s[..n][k]) {
          if k > 0 {
            assert s[..n][k] == t[..n - 1][k - 1];
          }
        }
      }
      r
    else s
  }

  /** Drops the trailing white space. */
  function TrimEnd(s: string): (r: string)
    ensures |r| <= |s| && r == s[..|r|]
    ensures AllSpace(s[|r|..])
    ensures r != [] ==> !IsSpace(r[|r| - 1])
  {
    if s != [] && IsSpace(s[|s| - 1]) then TrimEnd(s[..|s| - 1]) else s
  }

  /** `String.prototype.trim`: no white space is left at either edge. */
  function Trim(s: string): (r: string)
    ensures NoEdgeSpace(r)
    ensures |r| <= |s|
  {
    var t := TrimStart(s);
    var r := TrimEnd(t);
    assert r != [] ==> r[0] == t[0];
    r
  }

  /** What `Trim` keeps is one contiguous slice of its input, and everything outside that slice
      is white space. */
  lemma TrimIsSlice(s: string)
    ensures var i := LeadingSpace(s);
      && i + |Trim(s)| <= |s| && Trim(s) == s[i..i + |Trim(s)|]
      && AllSpace(s[..i]) && AllSpace(s[i + |Trim(s)|..])
  {
    var t := TrimStart(s);
    var r := TrimEnd(t);
    assert Trim(s) == r && LeadingSpace(s) == |s| - |t|;
    SuffixSlices(s, t, r);
  }

  /** A prefix `r` of a suffix `t` of `s` is a slice of `s`, and what `t` has after `r` is what
      `s` has after that slice. */
  lemma SuffixSlices(s: string, t: string, r: string)
    requires |t| <= |s| && t == s[|s| - |t|..] && |r| <= |t| && r == t[..|r|]
    requires AllSpace(t[|r|..])
    ensures var i := |s| - |t|; r == s[i..i + |r|] && AllSpace(s[i + |r|..])
  {
    assert t[|r|..] == s[|s| - |t| + |r|..];
  }

  /** A string is the concatenation of its three slices at `i` and `j`. */
  lemma SplitThree(s: string, i: nat, j: nat)
    requires i <= j <= |s|
    ensures s == s[..i] + s[i..j] + s[j..]
  {
  }

  /** How many characters `TrimStart` drops. */
  function LeadingSpace(s: string): nat {
    |s| - |TrimStart(s)|
  }

  /** A string that starts with a non-space prefix whose last character is not white space loses
      only trailing white space to `Trim`, so it keeps that prefix. */
  lemma {:induction false} TrimKeepsPrefix(s: string, prefix: string)
    requires StartsWith(s, prefix) && prefix != []
    requires !IsSpace(prefix[0]) && !IsSpace(prefix[|prefix| - 1])
    ensures Trim(s) == TrimEnd(s)
    ensures StartsWith(Trim(s), prefix)
  {
    assert s[0] == prefix[0];
    assert TrimStart(s) == s;
    var r := TrimEnd(s);
    assert r[..|prefix|] == s[..|prefix|];
  }

  function Digit(d: nat): (c: char)
    requires d < 10
    ensures '0' <= c <= '9' && c as int - '0' as int == d
  {
    (d + '0' as int) as char
  }

  /** The decimal text of a natural number, as `String(n)` writes it. */
  function Decimal(n: nat): (r: string)
    ensures r != []
    ensures forall k :: 0 <= k < |r| ==> '0' <= r[k] <= '9'
  {
    if n < 10 then [Digit(n)] else Decimal(n / 10) + [Digit(n % 10)]
  }

  /** The number a string of decimal digits denotes. */
  function DecimalValue(s: string): nat
    requires forall k :: 0 <= k < |s| ==> '0' <= s[k] <= '9'
  {
    if s == [] then 0 else DecimalValue(s[..|s| - 1]) * 10 + (s[|s| - 1] as int - '0' as int)
  }

  /** Reading the decimal text back gives the number: the text names `n` and no other. */
  lemma {:induction false} DecimalRoundTrip(n: nat)
    ensures DecimalValue(Decimal(n)) == n
    ensures Decimal(n)[0] == '0' ==> n == 0
  {
    if n >= 10 {
      var d := Decimal(n);
      DecimalRoundTrip(n / 10);
      assert d[..|d| - 1] == Decimal(n / 10);
    }
  }

  /** The decimal text of an integer, `${i}`: a minus sign when negative, then the decimal
      text of its magnitude. */
  function IntText(i: int): (r: string)
    ensures r != [] && (r[0] == '-' <==> i < 0)
  {
    if i < 0 then "-" + Decimal(-i) else Decimal(i)
  }

  /** After the optional minus sign, the text of an integer is non-empty decimal digits that
      read back as its magnitude and start with `0` only for zero. */
  lemma IntTextDigits(i: int)
    ensures var r := IntText(i); var digits := if i < 0 then r[1..] else r;
      && digits != []
      && (forall k :: 0 <= k < |digits| ==> '0' <= digits[k] <= '9')
      && DecimalValue(digits) == (if i < 0 then -i else i)
      && (digits[0] == '0' ==> i == 0)
  {
    var magnitude := if i < 0 then -i else i;
    DecimalRoundTrip(magnitude);
    if i < 0 {
      assert IntText(i)[1..] == Decimal(magnitude);
    }
  }
}
