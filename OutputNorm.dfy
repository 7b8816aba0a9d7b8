/**
 * The output normaliser of the submission runner, `norm(s)`: every `\r\n` becomes `\n`
 * (a global, left-to-right, non-overlapping replace), then trailing
 * whitespace is trimmed. The program output and the expected output are
 * compared after this normalisation.
 */
module OutputNorm {
  import opened JsText
  import opened Collections

  /** `s.replace(/\r\n/g, "\n")`: scanning left to right, each `\r\n` not already consumed becomes `\n`. */
  function ReplaceCrlf(s: string): (r: string)
    ensures |r| <= |s|
    decreases |s|
  {
    if s == [] then []
    else
      var pair := |s| >= 2 && s[0] == '\r' && s[1] == '\n';
      [if pair then '\n' else s[0]] + ReplaceCrlf(s[if pair then 2 else 1..])
  }

  /** `norm(s)` for a string `s`. */
  function Norm(s: string): string {
    TrimEnd(ReplaceCrlf(s))
  }

  /** The normal form is no longer than the text and does not end in whitespace. */
  lemma NormNoTrailingWhitespace(s: string)
    ensures |Norm(s)| <= |s|
    ensures Norm(s) == [] || !IsJsWhitespace(Norm(s)[|Norm(s)| - 1])
  {
    TrimEndSpec(ReplaceCrlf(s));
  }

  predicate NoCr(s: string) {
    forall i :: 0 <= i < |s| ==> s[i] != '\r'
  }

  /** Every `\r` of `s` is the first half of a `\r\n`. */
  predicate NoStrayCr(s: string) {
    forall i :: 0 <= i < |s| && s[i] == '\r' ==> i + 1 < |s| && s[i + 1] == '\n'
  }

  /** `s` with every `\r` removed. */
  function DropCr(s: string): (r: string)
    ensures NoCr(r)
    ensures |r| <= |s|
  {
    if s == [] then []
    else if s[0] == '\r' then DropCr(s[1..])
    else [s[0]] + DropCr(s[1..])
  }

  /** Text without `\r` is left alone by the replace. */
  lemma {:induction false} ReplaceCrlfNoCr(s: string)
    requires NoCr(s)
    ensures ReplaceCrlf(s) == s
    decreases |s|
  {
    if s != [] {
      assert NoCr(s[1..]) by {
        forall i | 0 <= i < |s[1..]| ensures s[1..][i] != '\r' { assert s[1..][i] == s[i + 1]; }
      }
      ReplaceCrlfNoCr(s[1..]);
    }
  }

  /** When every `\r` starts a `\r\n`, the replace removes exactly the `\r`s. */
  lemma {:induction false} ReplaceCrlfDropsCr(s: string)
    requires NoStrayCr(s)
    ensures ReplaceCrlf(s) == DropCr(s)
    decreases |s|
  {
    if s == [] {
    } else if s[0] == '\r' {
      assert s[1] == '\n';
      var t := s[2..];
      assert NoStrayCr(t) by {
        forall i | 0 <= i < |t| && t[i] == '\r' ensures i + 1 < |t| && t[i + 1] == '\n' {
          assert s[i + 2] == '\r';
        }
      }
      ReplaceCrlfDropsCr(t);
      assert s[1..][0] == '\n' && s[1..][1..] == t;
      assert DropCr(s) == DropCr(s[1..]) == "\n" + DropCr(t);
    } else {
      var t := s[1..];
      assert NoStrayCr(t) by {
        forall i | 0 <= i < |t| && t[i] == '\r' ensures i + 1 < |t| && t[i + 1] == '\n' {
          assert s[i + 1] == '\r';
        }
      }
      ReplaceCrlfDropsCr(t);
    }
  }

  /** A leading `\r\n` becomes `\n`. */
  lemma ReplaceCrlfPair(t: string)
    ensures ReplaceCrlf("\r\n" + t) == "\n" + ReplaceCrlf(t)
  {
    var s := "\r\n" + t;
    assert s[0] == '\r' && s[1] == '\n' && s[2..] == t;
  }

  /** A leading character that does not start a `\r\n` is kept. */
  lemma ReplaceCrlfChar(c: char, t: string)
    requires c != '\r' || t == [] || t[0] != '\n'
    ensures ReplaceCrlf([c] + t) == [c] + ReplaceCrlf(t)
  {
    var s := [c] + t;
    assert s[0] == c && s[1..] == t;
    assert |s| >= 2 ==> s[1] == t[0];
  }

  /** The replace splits at a boundary that does not cut a `\r\n` in two. */
  lemma {:induction false} ReplaceCrlfAppend(x: string, y: string)
    requires x == [] || y == [] || x[|x| - 1] != '\r' || y[0] != '\n'
    ensures ReplaceCrlf(x + y) == ReplaceCrlf(x) + ReplaceCrlf(y)
    decreases |x|, 1
  {
    if x == [] {
      assert x + y == y;
    } else if |x| >= 2 && x[0] == '\r' && x[1] == '\n' {
      assert x == "\r\n" + x[2..];
      ReplaceCrlfAppendPair(x[2..], y);
    } else {
      assert x == [x[0]] + x[1..];
      ReplaceCrlfAppendChar(x[0], x[1..], y);
    }
  }

  lemma {:induction false} ReplaceCrlfAppendPair(x: string, y: string)
    requires x == [] || y == [] || x[|x| - 1] != '\r' || y[0] != '\n'
    ensures ReplaceCrlf(("\r\n" + x) + y) == ReplaceCrlf("\r\n" + x) + ReplaceCrlf(y)
    decreases |x| + 2, 0
  {
    AppendAssoc("\r\n", x, y);
    ReplaceCrlfPair(x);
    ReplaceCrlfPair(x + y);
    ReplaceCrlfAppend(x, y);
    var rx, ry := ReplaceCrlf(x), ReplaceCrlf(y);
    AppendAssoc("\n", rx, ry);
  }

  lemma {:induction false} ReplaceCrlfAppendChar(c: char, x: string, y: string)
    requires c != '\r' || x == [] || x[0] != '\n'
    requires x == [] || y == [] || x[|x| - 1] != '\r' || y[0] != '\n'
    requires x == [] ==> y == [] || c != '\r' || y[0] != '\n'
    ensures ReplaceCrlf(([c] + x) + y) == ReplaceCrlf([c] + x) + ReplaceCrlf(y)
    decreases |x| + 1, 0
  {
    AppendAssoc([c], x, y);
    if x != [] {
      assert (x + y)[0] == x[0];
    } else {
      assert x + y == y;
    }
    ReplaceCrlfChar(c, x);
    ReplaceCrlfChar(c, x + y);
    ReplaceCrlfAppend(x, y);
    var rx, ry := ReplaceCrlf(x), ReplaceCrlf(y);
    AppendAssoc([c], rx, ry);
  }

  /** The replace keeps whitespace-only text whitespace-only. */
  lemma {:induction false} ReplaceCrlfWhitespace(w: string)
    requires AllWhitespace(w)
    ensures AllWhitespace(ReplaceCrlf(w))
    decreases |w|
  {
    if |w| >= 2 && w[0] == '\r' && w[1] == '\n' {
      ReplaceCrlfWhitespace(w[2..]);
    } else if w != [] {
      ReplaceCrlfWhitespace(w[1..]);
    }
  }

  /** Trailing whitespace, of any kind and with any line endings, does not change `norm`. */
  lemma NormIgnoresTrailingWhitespace(s: string, w: string)
    requires AllWhitespace(w)
    ensures Norm(s + w) == Norm(s)
  {
    ReplaceCrlfWhitespace(w);
    if s != [] && w != [] && s[|s| - 1] == '\r' && w[0] == '\n' {
      // The `\r` that ends `s` pairs with the `\n` that starts `w`.
      var s', w' := s[..|s| - 1], w[1..];
      assert AllWhitespace(w') by {
        forall i | 0 <= i < |w'| ensures IsJsWhitespace(w'[i]) { assert w'[i] == w[i + 1]; }
      }
      ReplaceCrlfWhitespace(w');
      assert s + w == s' + ("\r\n" + w');
      ReplaceCrlfAppend(s', "\r\n" + w');
      assert ReplaceCrlf("\r\n" + w') == "\n" + ReplaceCrlf(w');
      assert AllWhitespace("\n" + ReplaceCrlf(w'));
      TrimEndAppendWhitespace(ReplaceCrlf(s'), "\n" + ReplaceCrlf(w'));
      assert s == s' + "\r";
      ReplaceCrlfAppend(s', "\r");
      assert ReplaceCrlf("\r") == "\r";
      TrimEndAppendWhitespace(ReplaceCrlf(s'), "\r");
    } else {
      ReplaceCrlfAppend(s, w);
      TrimEndAppendWhitespace(ReplaceCrlf(s), ReplaceCrlf(w));
    }
  }

  /**
   * Two texts without stray `\r` that differ only in `\r\n` versus `\n` line
   * endings normalise to the same string.
   */
  lemma NormLineEndingInsensitive(a: string, b: string)
    requires NoStrayCr(a) && NoStrayCr(b) && DropCr(a) == DropCr(b)
    ensures Norm(a) == Norm(b)
  {
    ReplaceCrlfDropsCr(a);
    ReplaceCrlfDropsCr(b);
  }

  /** Text without `\r` and without trailing whitespace is its own normal form. */
  lemma NormFixesCanonical(s: string)
    requires NoCr(s) && (s == [] || !IsJsWhitespace(s[|s| - 1]))
    ensures Norm(s) == s
  {
    ReplaceCrlfNoCr(s);
    TrimEndUnique(s, s);
  }

  /** The replace on `a\r\r\nb` pairs only the second `\r` with the `\n`. */
  lemma ReplaceCrlfExample()
    ensures ReplaceCrlf("a\r\r\nb") == "a\r\nb"
    ensures ReplaceCrlf("a\r\nb") == "a\nb"
  {
    assert ReplaceCrlf("b") == "b";
    assert ReplaceCrlf("\r\nb") == "\nb";
    assert ReplaceCrlf("\r\r\nb") == "\r\nb";
  }

  /**
   * `norm` is not idempotent: in `a\r\r\nb` only the second `\r` pairs with
   * the `\n`, so one pass leaves `a\r\nb`, which a second pass turns into `a\nb`.
   */
  lemma NormNotIdempotent()
    ensures Norm("a\r\r\nb") == "a\r\nb"
    ensures Norm(Norm("a\r\r\nb")) == "a\nb"
    ensures Norm(Norm("a\r\r\nb")) != Norm("a\r\r\nb")
  {
    ReplaceCrlfExample();
    assert "a\r\nb"[3] == 'b';
    TrimEndUnique("a\r\nb", "a\r\nb");
    assert "a\nb"[2] == 'b';
    TrimEndUnique("a\nb", "a\nb");
  }
}
