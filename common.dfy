/** Option, the one wrapper the model needs. */
module Wrappers {
  datatype Option<+T> = None | Some(value: T)
}

/**
 * Text helpers shared by the modules: decimal rendering and parsing of
 * integers (Python's str(int) and int(str)), ASCII whitespace stripping and
 * lower-casing, substring search and splitting on a separator.
 */
module Text {
  import opened Wrappers

  predicate IsDigit(c: char) { '0' <= c <= '9' }

  predicate AllDigits(s: string) { forall i :: 0 <= i < |s| ==> IsDigit(s[i]) }

  function DigitChar(d: nat): (c: char)
    requires d < 10
    ensures IsDigit(c) && c as int - '0' as int == d
  {
    ['0', '1', '2', '3', '4', '5', '6', '7', '8', '9'][d]
  }

  /** Decimal rendering of a natural number, without leading zeros. */
  function NatToString(n: nat): (s: string)
    ensures s != [] && AllDigits(s)
    ensures n > 0 ==> s[0] != '0'
  {
    if n < 10 then [DigitChar(n)] else NatToString(n / 10) + [DigitChar(n % 10)]
  }

  /** Python's str(i) for an integer. */
  function IntToString(i: int): string {
    if i < 0 then "-" + NatToString(-i) else NatToString(i)
  }

  /** The value of a string of decimal digits (most significant first). */
  function DigitsValue(s: string): nat
    requires AllDigits(s)
  {
    if s == [] then 0
    else DigitsValue(s[..|s| - 1]) * 10 + (s[|s| - 1] as int - '0' as int)
  }

  /** Python's int(s) on a string: an optional sign and at least one digit. */
  function ParseInt(s: string): Option<int> {
    if s == [] then None
    else if s[0] == '-' || s[0] == '+' then
      var body := s[1..];
      if body != [] && AllDigits(body) then
        var v: int := DigitsValue(body);
        Some(if s[0] == '-' then 0 - v else v)
      else None
    else if AllDigits(s) then Some(DigitsValue(s))
    else None
  }

  lemma {:induction false} DigitsOfNat(n: nat)
    ensures DigitsValue(NatToString(n)) == n
  {
    if n >= 10 {
      var s := NatToString(n);
      DigitsOfNat(n / 10);
      assert s[..|s| - 1] == NatToString(n / 10);
    }
  }

  /** Rendering then parsing an integer gives it back. */
  lemma ParseIntOfIntToString(i: int)
    ensures ParseInt(IntToString(i)) == Some(i)
  {
    var s := IntToString(i);
    if i < 0 {
      var body := NatToString(-i);
      DigitsOfNat(-i);
      assert s == "-" + body;
      assert s[0] == '-' && s[1..] == body;
    } else {
      DigitsOfNat(i);
      assert s == NatToString(i);
      assert IsDigit(s[0]);
    }
  }

  /** Distinct integers render to distinct strings (so str(pk) keys never collide). */
  lemma IntToStringInjective(i: int, j: int)
    ensures IntToString(i) == IntToString(j) ==> i == j
  {
    ParseIntOfIntToString(i);
    ParseIntOfIntToString(j);
  }

  /** The longest prefix of decimal digits. */
  function LeadingDigits(s: string): (d: string)
    ensures AllDigits(d) && |d| <= |s| && d == s[..|d|]
    ensures |d| == |s| || !IsDigit(s[|d|])
  {
    if s != [] && IsDigit(s[0]) then [s[0]] + LeadingDigits(s[1..]) else []
  }

  /**
   * parseInt(s) in base 10: leading white space is skipped, then an
   * optional sign and the longest run of digits; None (NaN) when there are
   * no digits. Trailing text is ignored.
   */
  function JsParseInt(s: string): Option<int> {
    var t := TrimStart(s);
    var signed := t != [] && (t[0] == '-' || t[0] == '+');
    var d := LeadingDigits(if signed then t[1..] else t);
    if d == [] then None
    else if signed && t[0] == '-' then Some(0 - DigitsValue(d))
    else Some(DigitsValue(d))
  }

  lemma {:induction false} LeadingDigitsAll(s: string)
    requires AllDigits(s)
    ensures LeadingDigits(s) == s
  {
    if s != [] {
      LeadingDigitsAll(s[1..]);
      assert [s[0]] + s[1..] == s;
    }
  }

  /** parseInt reads back what String(n) writes. */
  lemma JsParseIntOfIntToString(n: int)
    ensures JsParseInt(IntToString(n)) == Some(n)
  {
    if n < 0 {
      JsParseIntOfNegative(-n);
      assert IntToString(n) == "-" + NatToString(-n);
    } else {
      JsParseIntOfNat(n);
    }
  }

  lemma JsParseIntOfNat(n: nat)
    ensures JsParseInt(NatToString(n)) == Some(n)
  {
    var s := NatToString(n);
    assert TrimStart(s) == s;
    LeadingDigitsAll(s);
    DigitsOfNat(n);
  }

  lemma JsParseIntOfNegative(m: nat)
    requires m > 0
    ensures JsParseInt("-" + NatToString(m)) == Some(-(m as int))
  {
    var body := NatToString(m);
    var s := "-" + body;
    assert s[0] == '-' && s[1..] == body;
    assert TrimStart(s) == s;
    LeadingDigitsAll(body);
    DigitsOfNat(m);
  }

  predicate IsSpace(c: char) {
    c == ' ' || c == '\t' || c == '\n' || c == '\r' || c == '\U{000B}' || c == '\U{000C}'
  }

  function TrimStart(s: string): (r: string)
    ensures r == [] || !IsSpace(r[0])
  {
    if s != [] && IsSpace(s[0]) then TrimStart(s[1..]) else s
  }

  function TrimEnd(s: string): (r: string)
    ensures r == [] || !IsSpace(r[|r| - 1])
    ensures |r| <= |s| && r == s[..|r|]
  {
    if s != [] && IsSpace(s[|s| - 1]) then TrimEnd(s[..|s| - 1]) else s
  }

  /** str.strip() / String.prototype.trim() over ASCII whitespace. */
  function Strip(s: string): (r: string)
    ensures r == [] || (!IsSpace(r[0]) && !IsSpace(r[|r| - 1]))
  {
    TrimEnd(TrimStart(s))
  }

  function LowerChar(c: char): char {
    if 'A' <= c <= 'Z' then (c as int + 32) as char else c
  }

  function UpperChar(c: char): char {
    if 'a' <= c <= 'z' then (c as int - 32) as char else c
  }

  /** str.lower() / toLowerCase() over ASCII letters. */
  function Lower(s: string): (r: string)
    ensures |r| == |s| && forall i :: 0 <= i < |s| ==> r[i] == LowerChar(s[i])
  {
    if s == [] then [] else [LowerChar(s[0])] + Lower(s[1..])
  }

  predicate AllSpace(s: string) {
    forall i :: 0 <= i < |s| ==> IsSpace(s[i])
  }

  /** White space in front of a string is trimmed away. */
  lemma TrimStartPadded(w: string, x: string)
    requires AllSpace(w)
    ensures TrimStart(w + x) == TrimStart(x)
  {
    if w == [] {
      assert w + x == x;
    } else {
      assert (w + x)[1..] == w[1..] + x;
      TrimStartPadded(w[1..], x);
    }
  }

  /** White space after a string is trimmed away. */
  lemma TrimEndPadded(x: string, w: string)
    requires AllSpace(w)
    ensures TrimEnd(x + w) == TrimEnd(x)
  {
    if w == [] {
      assert x + w == x;
    } else {
      assert (x + w)[..|x + w| - 1] == x + w[..|w| - 1];
      TrimEndPadded(x, w[..|w| - 1]);
    }
  }

  /** Trimming the front of a concatenation: the second part survives whole once the first has a non-space. */
  lemma TrimStartAppend(s: string, w: string)
    ensures TrimStart(s + w) == if TrimStart(s) == [] then TrimStart(w) else TrimStart(s) + w
  {
    if s == [] {
      assert s + w == w;
    } else if IsSpace(s[0]) {
      assert (s + w)[1..] == s[1..] + w;
      TrimStartAppend(s[1..], w);
    }
  }

  /** Surrounding white space does not change what strip() leaves. */
  lemma StripPadded(before: string, s: string, after: string)
    requires AllSpace(before) && AllSpace(after)
    ensures Strip(before + s + after) == Strip(s)
  {
    assert before + s + after == before + (s + after);
    TrimStartPadded(before, s + after);
    TrimStartAppend(s, after);
    if TrimStart(s) == [] {
      TrimStartPadded(after, []);
      assert after + [] == after;
    } else {
      TrimEndPadded(TrimStart(s), after);
    }
  }

  lemma LowerSlice(s: string)
    requires s != []
    ensures Lower(s)[1..] == Lower(s[1..]) && Lower(s)[..|s| - 1] == Lower(s[..|s| - 1])
  {
  }

  /** Lower-casing and trimming the front commute. */
  lemma LowerTrimStart(s: string)
    ensures TrimStart(Lower(s)) == Lower(TrimStart(s))
  {
    if s != [] {
      LowerSlice(s);
      if IsSpace(s[0]) {
        LowerTrimStart(s[1..]);
      }
    }
  }

  /** Lower-casing and trimming the end commute. */
  lemma LowerTrimEnd(s: string)
    ensures TrimEnd(Lower(s)) == Lower(TrimEnd(s))
  {
    if s != [] {
      LowerSlice(s);
      if IsSpace(s[|s| - 1]) {
        LowerTrimEnd(s[..|s| - 1]);
      }
    }
  }

  /**
   * Stripping then lower-casing is a normal form: it commutes, so only the
   * lower-cased text matters, and applying it again changes nothing.
   */
  lemma LowerStripNormal(s: string)
    ensures Strip(Lower(s)) == Lower(Strip(s))
    ensures Lower(Strip(Lower(Strip(s)))) == Lower(Strip(s))
  {
    LowerTrimStart(s);
    LowerTrimEnd(TrimStart(s));
    var t := Lower(Strip(s));
    LowerTrimStart(Strip(s));
    LowerTrimEnd(TrimStart(Strip(s)));
    assert TrimStart(Strip(s)) == Strip(s);
    assert TrimEnd(Strip(s)) == Strip(s);
    assert Lower(t) == t;
  }

  predicate OccursAt(s: string, pat: string, i: nat) {
    i + |pat| <= |s| && s[i..i + |pat|] == pat
  }

  /** The first position at or after `from` where `pat` occurs. */
  function FindFrom(s: string, pat: string, from: nat): (r: Option<nat>)
    requires pat != []
    decreases |s| - from
    ensures r.Some? ==> from <= r.value && OccursAt(s, pat, r.value)
    ensures r.Some? ==> forall j :: from <= j < r.value ==> !OccursAt(s, pat, j)
    ensures r.None? ==> forall j :: from <= j ==> !OccursAt(s, pat, j)
  {
    if from + |pat| > |s| then None
    else if s[from..from + |pat|] == pat then Some(from)
    else FindFrom(s, pat, from + 1)
  }

  predicate Contains(s: string, pat: string)
    requires pat != []
  {
    FindFrom(s, pat, 0).Some?
  }

  /** str.split(sep) for a one-character separator. */
  function SplitOn(s: string, sep: char): (parts: seq<string>)
    ensures |parts| >= 1
    ensures forall k :: 0 <= k < |parts| ==> sep !in parts[k]
  {
    if sep !in s then [s]
    else
      var i := IndexOfChar(s, sep);
      [s[..i]] + SplitOn(s[i + 1..], sep)
  }

  function IndexOfChar(s: string, c: char): (i: nat)
    requires c in s
    ensures i < |s| && s[i] == c && c !in s[..i]
  {
    if s[0] == c then 0 else 1 + IndexOfChar(s[1..], c)
  }

  /** ", ".join(parts) and the like. */
  function Join(parts: seq<string>, sep: string): string {
    if parts == [] then ""
    else if |parts| == 1 then parts[0]
    else parts[0] + sep + Join(parts[1..], sep)
  }

  function Count<T(==)>(s: seq<T>, x: T): nat {
    if s == [] then 0 else (if s[0] == x then 1 else 0) + Count(s[1..], x)
  }

  lemma CountAppend<T>(s: seq<T>, t: seq<T>, x: T)
    ensures Count(s + t, x) == Count(s, x) + Count(t, x)
  {
    if s == [] {
      assert s + t == t;
    } else {
      assert (s + t)[1..] == s[1..] + t;
      CountAppend(s[1..], t, x);
    }
  }

  lemma CountZero<T>(s: seq<T>, x: T)
    ensures x !in s <==> Count(s, x) == 0
  {
    if s != [] { CountZero(s[1..], x); }
  }
}
