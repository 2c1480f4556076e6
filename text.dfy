/** The pieces of JavaScript string behaviour the wizard relies on:
    the whitespace set shared by `String.prototype.trim` and the regular
    expression class `\s` (so `\S` is its complement), `trim` itself,
    `Array.prototype.join` with the default separator, and the decimal
    rendering of an integer used by `String(n)` and template literals. */
module JsStrings {

  /** ECMAScript WhiteSpace and LineTerminator code points. */
  predicate IsSpace(c: char)
  {
    || c == '\t' || c == '\n' || c == '\U{B}' || c == '\U{C}' || c == '\r'
    || c == ' ' || c == '\U{A0}' || c == '\U{1680}'
    || ('\U{2000}' <= c <= '\U{200A}')
    || c == '\U{2028}' || c == '\U{2029}' || c == '\U{202F}' || c == '\U{205F}'
    || c == '\U{3000}' || c == '\U{FEFF}'
  }

  /** Every character of `s` is whitespace (vacuously true of ""). */
  predicate AllSpace(s: string)
  {
    forall i :: 0 <= i < |s| ==> IsSpace(s[i])
  }

  /** `s` holds no whitespace at all: what the regular expression `\S+` accepts when non-empty. */
  predicate NoSpace(s: string)
  {
    forall i :: 0 <= i < |s| ==> !IsSpace(s[i])
  }

  /** Index of the first non-space character of `s` (|s| when there is none). */
  function TrimStartIndex(s: string): (a: nat)
    ensures a <= |s| && AllSpace(s[..a])
    ensures a < |s| ==> !IsSpace(s[a])
  {
    if |s| > 0 && IsSpace(s[0]) then
      var a := 1 + TrimStartIndex(s[1..]);
      assert s[..a] == [s[0]] + s[1..][..a - 1];
      a
    else 0
  }

  /** One past the index of the last non-space character of `s` (0 when there is none). */
  function TrimEndIndex(s: string): (b: nat)
    ensures b <= |s| && AllSpace(s[b..])
    ensures b > 0 ==> !IsSpace(s[b - 1])
  {
    if |s| > 0 && IsSpace(s[|s| - 1]) then
      var b := TrimEndIndex(s[..|s| - 1]);
      assert s[b..] == s[..|s| - 1][b..] + [s[|s| - 1]];
      b
    else |s|
  }

  /** A non-space character lies before the end index: trimming the end stops at it. */
  lemma {:induction false} NonSpaceBeforeTrimEnd(s: string, i: nat)
    requires i < |s| && !IsSpace(s[i])
    ensures i < TrimEndIndex(s)
    decreases |s|
  {
    if IsSpace(s[|s| - 1]) {
      NonSpaceBeforeTrimEnd(s[..|s| - 1], i);
    }
  }

  /** Unless `s` is all whitespace, the start index lies before the end index. */
  lemma TrimIndicesOrdered(s: string)
    ensures TrimStartIndex(s) < |s| ==> TrimStartIndex(s) < TrimEndIndex(s)
  {
    var a := TrimStartIndex(s);
    if a < |s| {
      NonSpaceBeforeTrimEnd(s, a);
    }
  }

  /** `r` occurs in `s` at offset `i`. */
  predicate SliceAt(s: string, r: string, i: int)
  {
    0 <= i && i + |r| <= |s| && r == s[i..i + |r|]
  }

  /** `String.prototype.trim`: the slice of `s` that neither starts nor ends with whitespace,
      with only whitespace cut away around it; it is empty exactly when `s` is all whitespace. */
  function Trim(s: string): (r: string)
    ensures r == [] <==> AllSpace(s)
    ensures r != [] ==> !IsSpace(r[0]) && !IsSpace(r[|r| - 1])
    ensures exists i :: SliceAt(s, r, i) && AllSpace(s[..i]) && AllSpace(s[i + |r|..])
  {
    var a, b := TrimStartIndex(s), TrimEndIndex(s);
    TrimIndicesOrdered(s);
    if a < b then
      assert SliceAt(s, s[a..b], a);
      s[a..b]
    else
      assert a == |s|;
      assert s[..a] == s;
      assert SliceAt(s, [], |s|);
      []
  }

  /** Trimming a string without whitespace gives it back. */
  lemma TrimNoSpace(s: string)
    requires NoSpace(s)
    ensures Trim(s) == s
  {
    if s != [] {
      assert TrimStartIndex(s) == 0;
      assert TrimEndIndex(s) == |s|;
    }
  }

  /** `s.length`: JavaScript counts UTF-16 code units, so a character above U+FFFF (an emoji,
      say) counts twice and every other character once. */
  function Utf16Length(s: string): (n: nat)
    ensures |s| <= n <= 2 * |s|
    ensures |s| == 1 ==> n == (if s[0] as int > 0xFFFF then 2 else 1)
  {
    if s == [] then 0 else (if s[0] as int > 0xFFFF then 2 else 1) + Utf16Length(s[1..])
  }

  /** The count of a concatenation is the sum of the counts; with the one-character case
      above, this fixes the count of every string. */
  lemma {:induction false} Utf16LengthAppend(a: string, b: string)
    ensures Utf16Length(a + b) == Utf16Length(a) + Utf16Length(b)
    decreases |a|
  {
    if a != [] {
      assert (a + b)[0] == a[0] && (a + b)[1..] == a[1..] + b;
      Utf16LengthAppend(a[1..], b);
    } else {
      assert a + b == b;
    }
  }

  /** On text without characters above U+FFFF the two ways of counting agree. */
  lemma {:induction false} Utf16LengthBmp(s: string)
    requires forall i :: 0 <= i < |s| ==> s[i] as int <= 0xFFFF
    ensures Utf16Length(s) == |s|
  {
    if s != [] {
      assert forall i :: 0 <= i < |s[1..]| ==> s[1..][i] == s[i + 1];
      Utf16LengthBmp(s[1..]);
    }
  }

  /** `xs.join(",")`, which is also what `String(xs)` gives for an array of strings. */
  function Join(xs: seq<string>): (r: string)
    ensures |xs| >= 2 ==> ',' in r
    ensures |xs| <= 1 ==> r == (if xs == [] then "" else xs[0])
  {
    if xs == [] then ""
    else if |xs| == 1 then xs[0]
    else xs[0] + "," + Join(xs[1..])
  }

  /** Joining two non-empty lists one after the other puts a single comma between the two
      joined halves; with the cases of at most one element this fixes `Join` on every list. */
  lemma {:induction false} JoinAppend(xs: seq<string>, ys: seq<string>)
    requires xs != [] && ys != []
    ensures Join(xs + ys) == Join(xs) + "," + Join(ys)
    decreases |xs|
  {
    if |xs| == 1 {
      assert xs + ys == [xs[0]] + ys;
    } else {
      assert (xs + ys)[1..] == xs[1..] + ys;
      JoinAppend(xs[1..], ys);
    }
  }

  /** Character for one decimal digit. */
  function DigitChar(d: nat): (c: char)
    requires d < 10
    ensures '0' <= c <= '9' && c as int - '0' as int == d
  {
    ('0' as int + d) as char
  }

  /** The decimal digits of `n`, most significant first, without leading zeros. */
  function Digits(n: nat): (r: string)
    ensures |r| > 0
    ensures forall i :: 0 <= i < |r| ==> '0' <= r[i] <= '9'
    ensures |r| > 1 ==> r[0] != '0'
    decreases n
  {
    if n < 10 then [DigitChar(n)] else Digits(n / 10) + [DigitChar(n % 10)]
  }

  /** `String(n)` for an integer that a JavaScript number holds exactly and prints without an
      exponent (magnitude below 10^21 and 2^53): an optional minus sign, then the digits. The
      model's integers are unbounded; larger numbers are not rendered as JavaScript does. */
  function Decimal(n: int): (r: string)
    ensures r != [] && NoSpace(r)
  {
    if n < 0 then "-" + Digits(-n) else Digits(n)
  }

  /** Reads back what `Digits` writes. */
  function DigitsValue(s: string): int
  {
    if s == [] then 0 else DigitsValue(s[..|s| - 1]) * 10 + (s[|s| - 1] as int - '0' as int)
  }

  lemma {:induction false} DigitsRoundTrip(n: nat)
    ensures DigitsValue(Digits(n)) == n
    decreases n
  {
    var r := Digits(n);
    if n >= 10 {
      var init, last := Digits(n / 10), DigitChar(n % 10);
      assert r == init + [last];
      assert r[..|r| - 1] == init && r[|r| - 1] == last;
      DigitsRoundTrip(n / 10);
    } else {
      assert r == [DigitChar(n)];
      assert r[..0] == [];
    }
  }

  /** Reads back what `Decimal` writes. */
  function DecimalValue(s: string): int
  {
    if s != [] && s[0] == '-' then -DigitsValue(s[1..]) else DigitsValue(s)
  }

  lemma DecimalRoundTrip(n: int)
    ensures DecimalValue(Decimal(n)) == n
  {
    if n < 0 {
      NegativeRoundTrip(n);
    } else {
      var d := Digits(n);
      assert Decimal(n) == d;
      assert '0' <= d[0] <= '9';
      DigitsRoundTrip(n);
    }
  }

  lemma NegativeRoundTrip(n: int)
    requires n < 0
    ensures DecimalValue(Decimal(n)) == n
  {
    var d := Digits(-n);
    var s := "-" + d;
    assert Decimal(n) == s;
    assert s[0] == '-' && s[1..] == d;
    assert DecimalValue(s) == -DigitsValue(d);
    DigitsRoundTrip(-n);
  }

  /** Distinct integers print differently, so a message that embeds a number names it unambiguously. */
  lemma DecimalInjective(m: int, n: int)
    requires Decimal(m) == Decimal(n)
    ensures m == n
  {
    DecimalRoundTrip(m);
    DecimalRoundTrip(n);
  }
}
