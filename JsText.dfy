/**
 * The JavaScript string primitives that the submission runner and the API
 * handlers rely on: `trim`, `trimEnd`, `endsWith`, `length` (UTF-16 code
 * units) and the decimal rendering of a non-negative integer in a template
 * literal.
 */
module JsText {

  /** ECMAScript WhiteSpace and LineTerminator code points, the set `trim` and `trimEnd` strip. */
  const JsWhitespace: set<char> := {
    '\t', '\n', '\U{B}', '\U{C}', '\r', ' ', '\U{A0}', '\U{1680}',
    '\U{2000}', '\U{2001}', '\U{2002}', '\U{2003}', '\U{2004}', '\U{2005}',
    '\U{2006}', '\U{2007}', '\U{2008}', '\U{2009}', '\U{200A}',
    '\U{2028}', '\U{2029}', '\U{202F}', '\U{205F}', '\U{3000}', '\U{FEFF}'
  }

  predicate IsJsWhitespace(c: char) {
    c in JsWhitespace
  }

  predicate AllWhitespace(s: string) {
    forall i :: 0 <= i < |s| ==> IsJsWhitespace(s[i])
  }

  /** `s.trimEnd()`: `s` without its trailing whitespace. */
  function TrimEnd(s: string): string {
    if s == [] then []
    else if IsJsWhitespace(s[|s| - 1]) then TrimEnd(s[..|s| - 1])
    else s
  }

  /** TrimEnd keeps the longest prefix of `s` that does not end in whitespace. */
  lemma {:induction false} TrimEndSpec(s: string)
    ensures TrimEnd(s) <= s
    ensures TrimEnd(s) == [] || !IsJsWhitespace(TrimEnd(s)[|TrimEnd(s)| - 1])
    ensures AllWhitespace(s[|TrimEnd(s)|..])
  {
    if s != [] && IsJsWhitespace(s[|s| - 1]) {
      var s' := s[..|s| - 1];
      TrimEndSpec(s');
      assert s[|TrimEnd(s)|..] == s'[|TrimEnd(s')|..] + [s[|s| - 1]];
    }
  }

  /** `s.trimStart()`: `s` without its leading whitespace. */
  function TrimStart(s: string): string {
    if s == [] then []
    else if IsJsWhitespace(s[0]) then TrimStart(s[1..])
    else s
  }

  /** TrimStart keeps the longest suffix of `s` that does not start with whitespace. */
  lemma {:induction false} TrimStartSpec(s: string)
    ensures |TrimStart(s)| <= |s| && TrimStart(s) == s[|s| - |TrimStart(s)|..]
    ensures TrimStart(s) == [] || !IsJsWhitespace(TrimStart(s)[0])
    ensures AllWhitespace(s[..|s| - |TrimStart(s)|])
  {
    if s != [] && IsJsWhitespace(s[0]) {
      var s' := s[1..];
      TrimStartSpec(s');
      assert s[..|s| - |TrimStart(s)|] == [s[0]] + s'[..|s'| - |TrimStart(s')|];
    }
  }

  /** `s.trim()`: `s` without leading and trailing whitespace. */
  function Trim(s: string): string {
    TrimStart(TrimEnd(s))
  }

  /** What `trim` keeps neither starts nor ends with whitespace, and is empty exactly for whitespace-only text. */
  lemma TrimSpec(s: string)
    ensures Trim(s) == [] || (!IsJsWhitespace(Trim(s)[0]) && !IsJsWhitespace(Trim(s)[|Trim(s)| - 1]))
    ensures Trim(s) == [] <==> AllWhitespace(s)
  {
    TrimEndSpec(s);
    TrimStartSpec(TrimEnd(s));
    TrimEndEmptyIffWhitespace(s);
    var e := TrimEnd(s);
    if e != [] {
      TrimStartNonEmpty(e);
    }
  }

  /** Trimming the front of a text that does not end in whitespace keeps its last character. */
  lemma {:induction false} TrimStartNonEmpty(e: string)
    requires e != [] && !IsJsWhitespace(e[|e| - 1])
    ensures TrimStart(e) != [] && TrimStart(e)[|TrimStart(e)| - 1] == e[|e| - 1]
  {
    if IsJsWhitespace(e[0]) {
      TrimStartNonEmpty(e[1..]);
    }
  }

  lemma TrimEndEmptyIffWhitespace(s: string)
    ensures TrimEnd(s) == [] <==> AllWhitespace(s)
  {
    TrimEndSpec(s);
    var r := TrimEnd(s);
    if r != [] {
      assert !IsJsWhitespace(s[|r| - 1]);
    }
  }

  /**
   * TrimEnd is characterised by its three postconditions: any prefix `p` of
   * `s` that does not end in whitespace and leaves only whitespace behind it
   * is `TrimEnd(s)`.
   */
  lemma {:induction false} TrimEndUnique(s: string, p: string)
    requires p <= s
    requires p == [] || !IsJsWhitespace(p[|p| - 1])
    requires AllWhitespace(s[|p|..])
    ensures TrimEnd(s) == p
    decreases |s|
  {
    if |s| > |p| {
      var s' := s[..|s| - 1];
      assert IsJsWhitespace(s[|p|..][|s| - 1 - |p|]);
      assert s'[|p|..] == s[|p|..][..|s| - 1 - |p|];
      TrimEndUnique(s', p);
    } else {
      assert s == p;
    }
  }

  /** Appending whitespace does not change what `trimEnd` keeps. */
  lemma TrimEndAppendWhitespace(s: string, w: string)
    requires AllWhitespace(w)
    ensures TrimEnd(s + w) == TrimEnd(s)
  {
    TrimEndSpec(s);
    var p := TrimEnd(s);
    assert p <= s + w by {
      assert s <= s + w;
    }
    forall i | 0 <= i < |(s + w)[|p|..]|
      ensures IsJsWhitespace((s + w)[|p|..][i])
    {
      if |p| + i < |s| {
        assert (s + w)[|p|..][i] == s[|p|..][i];
      } else {
        assert (s + w)[|p|..][i] == w[|p| + i - |s|];
      }
    }
    TrimEndUnique(s + w, p);
  }

  /** Leading whitespace does not change what `trimStart` keeps. */
  lemma {:induction false} TrimStartPrependWhitespace(w: string, x: string)
    requires AllWhitespace(w)
    ensures TrimStart(w + x) == TrimStart(x)
    decreases |w|
  {
    if w != [] {
      assert IsJsWhitespace((w + x)[0]) by { assert (w + x)[0] == w[0]; }
      assert (w + x)[1..] == w[1..] + x;
      assert AllWhitespace(w[1..]) by {
        forall i | 0 <= i < |w[1..]| ensures IsJsWhitespace(w[1..][i]) { assert w[1..][i] == w[i + 1]; }
      }
      TrimStartPrependWhitespace(w[1..], x);
      assert TrimStart(w + x) == TrimStart(w[1..] + x);
    } else {
      assert w + x == x;
    }
  }

  /** `trimEnd` of `w + u` keeps `w` whole unless `u` and `w` are both whitespace only. */
  lemma TrimEndPrepend(w: string, u: string)
    requires AllWhitespace(w)
    ensures TrimEnd(w + u) == if TrimEnd(u) == [] then [] else w + TrimEnd(u)
  {
    TrimEndSpec(u);
    TrimEndEmptyIffWhitespace(u);
    var t := TrimEnd(u);
    var s := w + u;
    if t == [] {
      assert AllWhitespace(s) by {
        forall i | 0 <= i < |s| ensures IsJsWhitespace(s[i]) {
          if i >= |w| { assert s[i] == u[i - |w|]; }
        }
      }
      TrimEndUnique(s, []);
    } else {
      var p := w + t;
      assert p <= s;
      assert s[|p|..] == u[|t|..];
      TrimEndUnique(s, p);
    }
  }

  /** `trim` ignores whitespace added at either end. */
  lemma TrimPadded(w1: string, u: string, w2: string)
    requires AllWhitespace(w1) && AllWhitespace(w2)
    ensures Trim(w1 + u + w2) == Trim(u)
  {
    TrimEndAppendWhitespace(w1 + u, w2);
    TrimEndPrepend(w1, u);
    if TrimEnd(u) != [] {
      TrimStartPrependWhitespace(w1, TrimEnd(u));
    }
  }

  /** `s.length`: the number of UTF-16 code units of `s`. */
  function JsLength(s: string): (n: nat)
    ensures n >= |s|
    ensures n <= 2 * |s|
  {
    if s == [] then 0
    else JsLength(s[..|s| - 1]) + (if s[|s| - 1] as int > 0xFFFF then 2 else 1)
  }

  /** `s.endsWith(suffix)`. */
  predicate EndsWith(s: string, suffix: string) {
    |suffix| <= |s| && s[|s| - |suffix|..] == suffix
  }

  predicate IsDigit(c: char) {
    '0' <= c <= '9'
  }

  function DigitChar(d: nat): (c: char)
    requires d < 10
    ensures IsDigit(c)
  {
    "0123456789"[d]
  }

  /** The decimal rendering of `n`, as `${n}` produces it for a non-negative integer. */
  function NatToString(n: nat): (s: string)
    ensures |s| >= 1
    ensures n >= 10 ==> |s| >= 2
    ensures forall i :: 0 <= i < |s| ==> IsDigit(s[i])
  {
    if n < 10 then [DigitChar(n)] else NatToString(n / 10) + [DigitChar(n % 10)]
  }

  /** Distinct numbers render as distinct strings. */
  lemma {:induction false} NatToStringInjective(a: nat, b: nat)
    requires NatToString(a) == NatToString(b)
    ensures a == b
  {
    if a >= 10 && b >= 10 {
      var sa, sb := NatToString(a), NatToString(b);
      assert sa[..|sa| - 1] == NatToString(a / 10);
      assert sb[..|sb| - 1] == NatToString(b / 10);
      NatToStringInjective(a / 10, b / 10);
      assert DigitChar(a % 10) == DigitChar(b % 10);
    } else if a < 10 && b < 10 {
      assert DigitChar(a) == DigitChar(b);
    }
  }
}
