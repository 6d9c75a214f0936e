/** String operations the system relies on: JavaScript `trim`/Python `strip`,
    `split(',')`, and the decimal rendering and parsing of integers
    (`Number.prototype.toString`, Python `str(int)` and `int(str)`). */
module Text {
  import opened Wrappers

  /** The two runtimes whose trimming the system uses: the ingestion script
      (Python `str.strip`) and the client (JavaScript `String.prototype.trim`). */
  datatype Runtime = Python | JavaScript

  /** The whitespace each runtime's trim removes. Both remove the ASCII
      controls TAB through CR, the space separators of category Zs and the
      line and paragraph separators; Python also removes the information
      separators U+001C..U+001F and NEL (U+0085), JavaScript the byte order
      mark (U+FEFF). */
  predicate IsSpace(rt: Runtime, c: char) {
    || ('\t' <= c <= '\r')
    || c == ' ' || c == '\U{00A0}' || c == '\U{1680}'
    || ('\U{2000}' <= c <= '\U{200A}')
    || c == '\U{2028}' || c == '\U{2029}' || c == '\U{202F}' || c == '\U{205F}' || c == '\U{3000}'
    || (rt == Python && (('\U{001C}' <= c <= '\U{001F}') || c == '\U{0085}'))
    || (rt == JavaScript && c == '\U{FEFF}')
  }

  predicate AllSpace(rt: Runtime, s: string) {
    forall i :: 0 <= i < |s| ==> IsSpace(rt, s[i])
  }

  /** Drops leading whitespace. */
  function TrimStart(rt: Runtime, s: string): string
  {
    if s != [] && IsSpace(rt, s[0]) then TrimStart(rt, s[1..]) else s
  }

  /** Drops trailing whitespace. */
  function TrimEnd(rt: Runtime, s: string): string
  {
    if s != [] && IsSpace(rt, s[|s| - 1]) then TrimEnd(rt, s[..|s| - 1]) else s
  }

  /** `TrimStart` keeps the suffix that starts at the first non-space. */
  lemma {:induction false} TrimStartSuffix(rt: Runtime, s: string)
    ensures var r := TrimStart(rt, s);
            && |r| <= |s| && r == s[|s| - |r|..]
            && AllSpace(rt, s[..|s| - |r|])
            && (r == [] || !IsSpace(rt, r[0]))
  {
    if s != [] && IsSpace(rt, s[0]) {
      TrimStartSuffix(rt, s[1..]);
      var r := TrimStart(rt, s);
      assert s[1..][|s| - 1 - |r|..] == s[|s| - |r|..];
    }
  }

  /** `TrimEnd` keeps the prefix that ends at the last non-space. */
  lemma {:induction false} TrimEndPrefix(rt: Runtime, s: string)
    ensures var r := TrimEnd(rt, s);
            && |r| <= |s| && r == s[..|r|]
            && AllSpace(rt, s[|r|..])
            && (r == [] || !IsSpace(rt, r[|r| - 1]))
  {
    if s != [] && IsSpace(rt, s[|s| - 1]) {
      var front := s[..|s| - 1];
      TrimEndPrefix(rt, front);
      var r := TrimEnd(rt, s);
      assert r == TrimEnd(rt, front);
      assert front[..|r|] == s[..|r|];
      assert s[|r|..] == front[|r|..] + [s[|s| - 1]] by {
        assert |s[|r|..]| == |front[|r|..]| + 1;
        forall k | 0 <= k < |s| - |r|
          ensures s[|r|..][k] == (front[|r|..] + [s[|s| - 1]])[k]
        {
        }
      }
    }
  }

  /** `s.trim()` in JavaScript, `s.strip()` in Python. */
  function Trim(rt: Runtime, s: string): (r: string)
    ensures r == [] || (!IsSpace(rt, r[0]) && !IsSpace(rt, r[|r| - 1]))
  {
    TrimStartSuffix(rt, s);
    TrimEndPrefix(rt, TrimStart(rt, s));
    TrimEnd(rt, TrimStart(rt, s))
  }

  /** A string with no whitespace at either end is its own trim. */
  lemma TrimUnspaced(rt: Runtime, s: string)
    requires s != [] && !IsSpace(rt, s[0]) && !IsSpace(rt, s[|s| - 1])
    ensures Trim(rt, s) == s
  {
  }

  /** Trimming removes only whitespace around a slice of the input. */
  lemma TrimIsSlice(rt: Runtime, s: string)
    ensures exists i, j :: 0 <= i <= j <= |s| && Trim(rt, s) == s[i..j] && AllSpace(rt, s[..i]) && AllSpace(rt, s[j..])
  {
    var t := TrimStart(rt, s);
    TrimStartSuffix(rt, s);
    TrimEndPrefix(rt, t);
    var i := |s| - |t|;
    var j := i + |TrimEnd(rt, t)|;
    assert t == s[i..];
    assert TrimEnd(rt, t) == t[..j - i] == s[i..j];
    assert t[j - i..] == s[j..];
  }

  /** A string trims to the empty string exactly when it is all whitespace;
      this is the `.strip() or None` test of the ingestion script. */
  lemma TrimEmptyIffAllSpace(rt: Runtime, s: string)
    ensures Trim(rt, s) == [] <==> AllSpace(rt, s)
  {
    var t := TrimStart(rt, s);
    TrimStartSuffix(rt, s);
    TrimEndPrefix(rt, t);
    if Trim(rt, s) == [] {
      assert s[..|s|] == s;
    }
  }

  /** Number of occurrences of `c` in `s`. */
  function Count(s: string, c: char): (n: nat)
    ensures n <= |s|
  {
    if s == [] then 0 else (if s[0] == c then 1 else 0) + Count(s[1..], c)
  }

  /** `s.split(sep)` for a one-character separator: never empty, and empty
      segments between adjacent separators are kept. */
  function Split(s: string, sep: char): (parts: seq<string>)
    ensures |parts| >= 1
    ensures forall k :: 0 <= k < |parts| ==> sep !in parts[k]
  {
    if s == [] then [""]
    else
      var rest := Split(s[1..], sep);
      if s[0] == sep then [""] + rest
      else [[s[0]] + rest[0]] + rest[1..]
  }

  /** One step of `Split` on a separator character. */
  lemma SplitAtSeparator(s: string, sep: char)
    ensures Split([sep] + s, sep) == [""] + Split(s, sep)
  {
    assert ([sep] + s)[1..] == s;
  }

  /** One step of `Split` on any other character: it joins the first part. */
  lemma SplitAtOther(c: char, s: string, sep: char)
    requires c != sep
    ensures Split([c] + s, sep) == [[c] + Split(s, sep)[0]] + Split(s, sep)[1..]
  {
    assert ([c] + s)[1..] == s;
  }

  /** A one-character part followed by a separator starts the split. */
  lemma SplitSingleCharPart(c: char, s: string, sep: char)
    requires c != sep
    ensures Split([c, sep] + s, sep) == [[c]] + Split(s, sep)
  {
    assert [c, sep] + s == [c] + ([sep] + s);
    SplitAtOther(c, [sep] + s, sep);
    SplitAtSeparator(s, sep);
    assert [c] + "" == [c];
  }

  /** `parts.join(sep)`. */
  function Join(parts: seq<string>, sep: char): string
    requires |parts| >= 1
  {
    if |parts| == 1 then parts[0] else parts[0] + [sep] + Join(parts[1..], sep)
  }

  /** Splitting yields one more part than there are separators. */
  lemma {:induction false} SplitCount(s: string, sep: char)
    ensures |Split(s, sep)| == Count(s, sep) + 1
  {
    if s != [] {
      SplitCount(s[1..], sep);
    }
  }

  /** Joining the parts with the separator gives back the original string. */
  lemma {:induction false} SplitJoin(s: string, sep: char)
    ensures Join(Split(s, sep), sep) == s
  {
    if s != [] {
      var rest := Split(s[1..], sep);
      SplitJoin(s[1..], sep);
      if s[0] == sep {
        assert Split(s, sep)[1..] == rest;
      } else {
        var parts := Split(s, sep);
        if |rest| == 1 {
          assert parts == [[s[0]] + rest[0]];
        } else {
          assert parts[1..] == rest[1..];
          assert Join(rest, sep) == rest[0] + [sep] + Join(rest[1..], sep);
        }
      }
    }
  }

  predicate IsDigit(c: char) {
    '0' <= c <= '9'
  }

  function DigitChar(d: nat): (c: char)
    requires d < 10
    ensures IsDigit(c)
  {
    (('0' as int) + d) as char
  }

  function DigitValue(c: char): (d: nat)
    requires IsDigit(c)
    ensures d < 10 && DigitChar(d) == c
  {
    (c as int) - ('0' as int)
  }

  /** Decimal digits of a natural number, without leading zeros. */
  function NatToString(n: nat): (s: string)
    ensures |s| >= 1 && forall k :: 0 <= k < |s| ==> IsDigit(s[k])
    ensures |s| > 1 ==> s[0] != '0'
  {
    if n < 10 then [DigitChar(n)] else NatToString(n / 10) + [DigitChar(n % 10)]
  }

  /** `n.toString()` in JavaScript and `str(n)` in Python, for integers: a
      minus sign exactly for a negative number, then the decimal digits of its
      magnitude with no leading zero. */
  function IntToString(i: int): (s: string)
    ensures |s| >= 1 && (s[0] == '-' <==> i < 0)
    ensures var digits := if i < 0 then s[1..] else s;
            && AllDigits(digits)
            && (|digits| > 1 ==> digits[0] != '0')
            && DigitsValue(digits) == if i < 0 then -i else i
  {
    if i < 0 then
      DigitsOfNat(-i);
      var s := "-" + NatToString(-i);
      assert s[1..] == NatToString(-i);
      s
    else
      DigitsOfNat(i);
      NatToString(i)
  }

  /** The value of a non-empty run of decimal digits (leading zeros allowed). */
  function DigitsValue(s: string): nat
    requires |s| >= 1 && forall k :: 0 <= k < |s| ==> IsDigit(s[k])
  {
    if |s| == 1 then DigitValue(s[0])
    else 10 * DigitsValue(s[..|s| - 1]) + DigitValue(s[|s| - 1])
  }

  predicate AllDigits(s: string) {
    |s| >= 1 && forall k :: 0 <= k < |s| ==> IsDigit(s[k])
  }

  /** Python `int(s)` on an already stripped string: an optional sign followed
      by one or more decimal digits; anything else is a `ValueError` (None). */
  function ParseInt(s: string): (r: Option<int>)
    ensures r.Some? <==> AllDigits(s) || (|s| >= 2 && (s[0] == '-' || s[0] == '+') && AllDigits(s[1..]))
  {
    if AllDigits(s) then Some(DigitsValue(s))
    else if |s| >= 2 && s[0] == '-' && AllDigits(s[1..]) then var v: int := DigitsValue(s[1..]); Some(-v)
    else if |s| >= 2 && s[0] == '+' && AllDigits(s[1..]) then Some(DigitsValue(s[1..]))
    else None
  }

  lemma {:induction false} DigitsOfNat(n: nat)
    ensures AllDigits(NatToString(n)) && DigitsValue(NatToString(n)) == n
  {
    if n >= 10 {
      DigitsOfNat(n / 10);
      var s := NatToString(n);
      assert s[..|s| - 1] == NatToString(n / 10);
    }
  }

  /** Parsing the decimal rendering of an integer gives the integer back. */
  lemma IntToStringRoundTrip(i: int)
    ensures ParseInt(IntToString(i)) == Some(i)
  {
  }

  /** Distinct integers have distinct renderings. */
  lemma IntToStringInjective(a: int, b: int)
    requires IntToString(a) == IntToString(b)
    ensures a == b
  {
    IntToStringRoundTrip(a);
    IntToStringRoundTrip(b);
  }
}
