/** String predicates shared by the whole model. A JavaScript string is a
    sequence of UTF-16 code units; here a string is a sequence of Unicode
    scalar values, and `Utf16Length` recovers the code-unit length that
    `.length` (and so every length check of the source) reports. */
module Text {

  /** The characters JavaScript's `String.prototype.trim` strips and the
      regular-expression class `\s` matches: WhiteSpace (tab, vertical tab,
      form feed, no-break space, byte-order mark and every space separator)
      and LineTerminator (line feed, carriage return, U+2028, U+2029). */
  predicate IsWhitespace(c: char)
  {
    || c == ' ' || c == '\t' || c == '\n' || c == '\r'
    || c == '\U{000B}' || c == '\U{000C}' || c == '\U{00A0}' || c == '\U{1680}'
    || ('\U{2000}' <= c <= '\U{200A}')
    || c == '\U{2028}' || c == '\U{2029}' || c == '\U{202F}' || c == '\U{205F}'
    || c == '\U{3000}' || c == '\U{FEFF}'
  }

  /** The characters a regular expression's `.` does not match. */
  predicate IsLineTerminator(c: char)
  {
    c == '\n' || c == '\r' || c == '\U{2028}' || c == '\U{2029}'
  }

  predicate AllWhitespace(s: string)
  {
    forall i :: 0 <= i < |s| ==> IsWhitespace(s[i])
  }

  /** `s.trimStart()`: the suffix left after the maximal whitespace prefix. */
  function TrimStart(s: string): (r: string)
    ensures |r| <= |s| && r == s[|s| - |r|..]
    ensures AllWhitespace(s[..|s| - |r|])
    ensures r == [] || !IsWhitespace(r[0])
    decreases |s|
  {
    if |s| > 0 && IsWhitespace(s[0]) then TrimStart(s[1..]) else s
  }

  /** `s.trimEnd()`: the prefix left after the maximal whitespace suffix. */
  function TrimEnd(s: string): (r: string)
    ensures |r| <= |s| && r == s[..|r|]
    ensures AllWhitespace(s[|r|..])
    ensures r == [] || !IsWhitespace(r[|r| - 1])
    decreases |s|
  {
    if |s| > 0 && IsWhitespace(s[|s| - 1]) then TrimEnd(s[..|s| - 1]) else s
  }

  /** `s.trim()`: whitespace cut from both ends; the result neither starts
      nor ends with whitespace, and is empty exactly for a blank string.
      `TrimOfPadded` shows these facts determine it. */
  function Trim(s: string): (r: string)
    ensures r == [] || (!IsWhitespace(r[0]) && !IsWhitespace(r[|r| - 1]))
    ensures r == [] <==> AllWhitespace(s)
  {
    var t := TrimStart(s);
    var r := TrimEnd(t);
    TrimBlankIff(s, t, r);
    r
  }

  lemma TrimBlankIff(s: string, t: string, r: string)
    requires t == TrimStart(s) && r == TrimEnd(t)
    ensures r == [] || (!IsWhitespace(r[0]) && !IsWhitespace(r[|r| - 1]))
    ensures r == [] <==> AllWhitespace(s)
  {
    var i := |s| - |t|;
    if r == [] {
      // TrimEnd stripped all of t, so TrimStart had already left nothing
      assert t[|r|..] == t;
      assert |t| == 0;
      forall j | 0 <= j < |s| ensures IsWhitespace(s[j]) {
        assert s[j] == s[..i][j];
      }
    } else {
      assert r[0] == t[0] == s[i];
    }
  }

  lemma {:induction false} TrimStartSkipsBlanks(w: string, x: string)
    requires AllWhitespace(w)
    ensures TrimStart(w + x) == TrimStart(x)
    decreases |w|
  {
    if w != [] {
      assert (w + x)[1..] == w[1..] + x;
      TrimStartSkipsBlanks(w[1..], x);
    } else {
      assert w + x == x;
    }
  }

  lemma {:induction false} TrimEndSkipsBlanks(x: string, w: string)
    requires AllWhitespace(w)
    ensures TrimEnd(x + w) == TrimEnd(x)
    decreases |w|
  {
    if w != [] {
      assert (x + w)[..|x + w| - 1] == x + w[..|w| - 1];
      TrimEndSkipsBlanks(x, w[..|w| - 1]);
    } else {
      assert x + w == x;
    }
  }

  /** Any whitespace padding around a string with non-blank ends trims back
      to that string: `Trim` is fully determined by its contract. */
  lemma TrimOfPadded(w1: string, r: string, w2: string)
    requires AllWhitespace(w1) && AllWhitespace(w2)
    requires r == [] || (!IsWhitespace(r[0]) && !IsWhitespace(r[|r| - 1]))
    ensures Trim(w1 + r + w2) == r
  {
    var s := w1 + r + w2;
    if r == [] {
      assert AllWhitespace(s);
    } else {
      assert s == w1 + (r + w2);
      TrimStartSkipsBlanks(w1, r + w2);
      assert TrimStart(s) == r + w2;
      TrimEndSkipsBlanks(r, w2);
    }
  }

  /** Trimming is idempotent: a trimmed string is its own trim. */
  lemma TrimIdempotent(s: string)
    ensures Trim(Trim(s)) == Trim(s)
  {
    var r := Trim(s);
    assert [] + r + [] == r;
    TrimOfPadded([], r, []);
  }

  /** ASCII case mapping of `toLowerCase`. */
  function LowerChar(c: char): char
  {
    if 'A' <= c <= 'Z' then (c as int + 32) as char else c
  }

  function ToLower(s: string): (r: string)
    ensures |r| == |s|
    ensures forall i :: 0 <= i < |s| ==> r[i] == LowerChar(s[i])
  {
    seq(|s|, i requires 0 <= i < |s| => LowerChar(s[i]))
  }

  /** The length JavaScript reports: characters beyond the Basic
      Multilingual Plane take two UTF-16 code units. */
  function Utf16Length(s: string): (n: nat)
    ensures |s| <= n <= 2 * |s|
    ensures (forall i :: 0 <= i < |s| ==> s[i] as int < 0x1_0000) ==> n == |s|
  {
    if s == [] then 0
    else (if s[0] as int < 0x1_0000 then 1 else 2) + Utf16Length(s[1..])
  }

  lemma {:induction false} Utf16LengthAppend(a: string, b: string)
    ensures Utf16Length(a + b) == Utf16Length(a) + Utf16Length(b)
    decreases |a|
  {
    if a != [] {
      assert (a + b)[1..] == a[1..] + b;
      Utf16LengthAppend(a[1..], b);
    } else {
      assert a + b == b;
    }
  }

  predicate OccursAt(s: string, pat: string, i: int)
  {
    0 <= i <= |s| - |pat| && s[i..i + |pat|] == pat
  }

  /** `s.indexOf(pat)`: the first position where `pat` occurs, or -1. */
  function IndexOf(s: string, pat: string): (k: int)
    ensures -1 <= k
    ensures k >= 0 ==> OccursAt(s, pat, k)
    ensures forall j :: 0 <= j && (k < 0 || j < k) ==> !OccursAt(s, pat, j)
    decreases |s|
  {
    if |s| < |pat| then -1
    else if s[..|pat|] == pat then 0
    else
      var k := IndexOf(s[1..], pat);
      assert forall j :: 1 <= j && OccursAt(s, pat, j) ==> OccursAt(s[1..], pat, j - 1) by {
        forall j | 1 <= j && OccursAt(s, pat, j) ensures OccursAt(s[1..], pat, j - 1) {
          assert s[1..][j - 1..j - 1 + |pat|] == s[j..j + |pat|];
        }
      }
      if k < 0 then -1
      else
        assert s[1..][k..k + |pat|] == s[k + 1..k + 1 + |pat|];
        k + 1
  }

  /** `s.replace(pat, with)` for a string pattern: only the FIRST occurrence
      is replaced, wherever it starts. */
  function ReplaceFirst(s: string, pat: string, with: string): string
  {
    var k := IndexOf(s, pat);
    if k < 0 then s else s[..k] + with + s[k + |pat|..]
  }

  /** Decimal rendering of a natural number, as template literals print it. */
  function Decimal(n: nat): (r: string)
    ensures r != [] && forall i :: 0 <= i < |r| ==> '0' <= r[i] <= '9'
    ensures r[0] == '0' ==> n == 0
  {
    if n < 10 then [DigitChar(n)] else Decimal(n / 10) + [DigitChar(n % 10)]
  }

  function DigitChar(d: nat): (c: char)
    requires d < 10
    ensures '0' <= c <= '9' && c as int - '0' as int == d
  {
    ('0' as int + d) as char
  }

  /** The value a string of decimal digits denotes; the partner of `Decimal`. */
  function DecimalValue(s: string): nat
    requires forall i :: 0 <= i < |s| ==> '0' <= s[i] <= '9'
  {
    if s == [] then 0
    else 10 * DecimalValue(s[..|s| - 1]) + (s[|s| - 1] as int - '0' as int)
  }

  lemma {:induction false} DecimalRoundTrip(n: nat)
    ensures DecimalValue(Decimal(n)) == n
  {
    if n >= 10 {
      var r := Decimal(n);
      assert r[..|r| - 1] == Decimal(n / 10);
      DecimalRoundTrip(n / 10);
    }
  }
}
