/**
 * The runner's test preparation: the field defaulting applied to the test
 * records fetched from the frontend, the test-name sanitiser and the
 * collision-free renamer that gives every test of one job a distinct,
 * filesystem-safe `safeName`.
 */
module TestPrep {
  import opened Common
  import opened JsText
  import opened Collections

  /** A test record as the frontend's tests endpoint returns it; `None` is a missing or null field. */
  datatype ApiTest = ApiTest(
    name: Option<string>,
    input: Option<string>,
    expectedOutput: Option<string>,
    isHidden: Option<bool>,
    dataFileName: Option<string>,
    dataFileContent: Option<string>)

  /** A test after the runner's field defaulting. */
  datatype TestCase = TestCase(
    name: Option<string>,
    input: string,
    expected: string,
    hidden: bool,
    dataFileName: Option<string>,
    dataFileContent: Option<string>)

  /** A prepared test: the test itself, its on-disk identifier and its original name. */
  datatype SafeTest = SafeTest(test: TestCase, safeName: string, originalName: Option<string>)

  /** The `??` defaulting of one fetched record. */
  function FromApi(t: ApiTest): (c: TestCase)
    ensures c.name == t.name
    ensures c.input == t.input.GetOr("") && c.expected == t.expectedOutput.GetOr("")
    ensures c.hidden <==> t.isHidden == Some(true)
    ensures c.dataFileName == t.dataFileName && c.dataFileContent == t.dataFileContent
  {
    TestCase(t.name, t.input.GetOr(""), t.expectedOutput.GetOr(""), t.isHidden.GetOr(false),
             t.dataFileName, t.dataFileContent)
  }

  /** The fetched list, record by record and in order. */
  function FromApiAll(ts: seq<ApiTest>): (cs: seq<TestCase>)
    ensures |cs| == |ts|
    ensures forall i :: 0 <= i < |ts| ==> cs[i] == FromApi(ts[i])
  {
    seq(|ts|, i requires 0 <= i < |ts| => FromApi(ts[i]))
  }

  // ---------------------------------------------------------------------
  // The sanitiser.

  /** The identifier charset `[A-Za-z0-9_-]`. */
  predicate IsSafeChar(c: char) {
    ('a' <= c <= 'z') || ('A' <= c <= 'Z') || ('0' <= c <= '9') || c == '_' || c == '-'
  }

  /** A letter, digit or hyphen: a character of the charset other than the separator `_`. */
  predicate IsUsable(c: char) {
    IsSafeChar(c) && c != '_'
  }

  predicate AllSafe(s: string) {
    forall i :: 0 <= i < |s| ==> IsSafeChar(s[i])
  }

  /** What every sanitised name is: non-empty, over the charset, neither starting nor ending with `_`. */
  predicate IsSafeName(s: string) {
    s != [] && AllSafe(s) && s[0] != '_' && s[|s| - 1] != '_'
  }

  /** The usable characters of `s`, in order. */
  function Usable(s: string): string {
    if s == [] then [] else (if IsUsable(s[0]) then [s[0]] else []) + Usable(s[1..])
  }

  /** `s` without its leading run of characters outside the charset. */
  function DropUnsafe(s: string): (r: string)
    ensures |r| <= |s| && r == s[|s| - |r|..]
    ensures r == [] || IsSafeChar(r[0])
    ensures forall i :: 0 <= i < |s| - |r| ==> !IsSafeChar(s[i])
  {
    if s == [] || IsSafeChar(s[0]) then s else DropUnsafe(s[1..])
  }

  lemma {:induction false} UsableOfDropped(s: string)
    ensures Usable(DropUnsafe(s)) == Usable(s)
  {
    if s != [] && !IsSafeChar(s[0]) {
      UsableOfDropped(s[1..]);
    }
  }

  /** `replace(/[^a-zA-Z0-9_-]+/g, "_")`: every maximal run of characters outside the charset becomes one `_`. */
  function ReplaceUnsafeRuns(s: string): (r: string)
    ensures AllSafe(r)
    ensures AllSafe(s) ==> r == s
    ensures s != [] && IsSafeChar(s[0]) ==> r != [] && r[0] == s[0]
    decreases |s|
  {
    if s == [] then []
    else if IsSafeChar(s[0]) then [s[0]] + ReplaceUnsafeRuns(s[1..])
    else "_" + ReplaceUnsafeRuns(DropUnsafe(s[1..]))
  }

  /** Replacing the unsafe runs keeps the usable characters. */
  lemma {:induction false} ReplaceUnsafeRunsUsable(s: string)
    ensures Usable(ReplaceUnsafeRuns(s)) == Usable(s)
    decreases |s|
  {
    if s == [] {
    } else if IsSafeChar(s[0]) {
      var r := ReplaceUnsafeRuns(s);
      assert r[1..] == ReplaceUnsafeRuns(s[1..]);
      ReplaceUnsafeRunsUsable(s[1..]);
    } else {
      var r := ReplaceUnsafeRuns(s);
      assert r[1..] == ReplaceUnsafeRuns(DropUnsafe(s[1..]));
      ReplaceUnsafeRunsUsable(DropUnsafe(s[1..]));
      UsableOfDropped(s[1..]);
    }
  }

  /** Text made only of characters outside the charset. */
  predicate AllUnsafe(w: string) {
    forall i :: 0 <= i < |w| ==> !IsSafeChar(w[i])
  }

  /** A run of unsafe characters followed by a safe one (or nothing) is dropped whole. */
  lemma {:induction false} DropUnsafeRun(w: string, b: string)
    requires AllUnsafe(w)
    requires b == [] || IsSafeChar(b[0])
    ensures DropUnsafe(w + b) == b
    decreases |w|
  {
    if w != [] {
      assert (w + b)[1..] == w[1..] + b;
      DropUnsafeRun(w[1..], b);
    }
  }

  /** Dropping the leading unsafe run of text that ends safe stays inside that text. */
  lemma {:induction false} DropUnsafeAppend(x: string, y: string)
    requires x != [] && IsSafeChar(x[|x| - 1])
    ensures DropUnsafe(x + y) == DropUnsafe(x) + y
    decreases |x|
  {
    if !IsSafeChar(x[0]) {
      assert (x + y)[1..] == x[1..] + y;
      DropUnsafeAppend(x[1..], y);
    }
  }

  /** `ReplaceUnsafeRuns` of text starting with a safe character. */
  lemma ReplaceSafeHead(c: char, t: string)
    requires IsSafeChar(c)
    ensures ReplaceUnsafeRuns([c] + t) == [c] + ReplaceUnsafeRuns(t)
  {
    ConsParts(c, t);
  }

  /** `ReplaceUnsafeRuns` of text starting with an unsafe character. */
  lemma ReplaceUnsafeHead(c: char, t: string)
    requires !IsSafeChar(c)
    ensures ReplaceUnsafeRuns([c] + t) == "_" + ReplaceUnsafeRuns(DropUnsafe(t))
  {
    ConsParts(c, t);
  }

  /** The base case: a leading unsafe run becomes one `_`. */
  lemma ReplaceRunAtStart(w: string, b: string)
    requires w != [] && AllUnsafe(w)
    requires b == [] || IsSafeChar(b[0])
    ensures ReplaceUnsafeRuns(w + b) == "_" + ReplaceUnsafeRuns(b)
  {
    HeadTail(w);
    AppendAssoc([w[0]], w[1..], b);
    ReplaceUnsafeHead(w[0], w[1..] + b);
    DropUnsafeRun(w[1..], b);
  }

  /** The step of `ReplaceUnsafeRunsSplit` for a safe first character. */
  lemma SplitSafeStep(x: string, y: string)
    requires x != [] && IsSafeChar(x[0])
    requires ReplaceUnsafeRuns(x[1..] + y) == ReplaceUnsafeRuns(x[1..]) + ReplaceUnsafeRuns(y)
    ensures ReplaceUnsafeRuns(x + y) == ReplaceUnsafeRuns(x) + ReplaceUnsafeRuns(y)
  {
    var t := x[1..];
    HeadTail(x);
    AppendAssoc([x[0]], t, y);
    ReplaceSafeHead(x[0], t + y);
    ReplaceSafeHead(x[0], t);
    AppendAssoc([x[0]], ReplaceUnsafeRuns(t), ReplaceUnsafeRuns(y));
  }

  /** The step of `ReplaceUnsafeRunsSplit` for an unsafe first character, whose run ends inside `x`. */
  lemma SplitUnsafeStep(x: string, y: string)
    requires x != [] && !IsSafeChar(x[0]) && IsSafeChar(x[|x| - 1])
    requires ReplaceUnsafeRuns(DropUnsafe(x[1..]) + y) == ReplaceUnsafeRuns(DropUnsafe(x[1..])) + ReplaceUnsafeRuns(y)
    ensures ReplaceUnsafeRuns(x + y) == ReplaceUnsafeRuns(x) + ReplaceUnsafeRuns(y)
  {
    var t := x[1..];
    HeadTail(x);
    AppendAssoc([x[0]], t, y);
    ReplaceUnsafeHead(x[0], t + y);
    ReplaceUnsafeHead(x[0], t);
    DropUnsafeAppend(t, y);
    AppendAssoc("_", ReplaceUnsafeRuns(DropUnsafe(t)), ReplaceUnsafeRuns(y));
  }

  /** No run of unsafe characters crosses a boundary just after a safe character, so the replacement splits there. */
  lemma {:induction false} ReplaceUnsafeRunsSplit(x: string, y: string)
    requires x == [] || IsSafeChar(x[|x| - 1])
    ensures ReplaceUnsafeRuns(x + y) == ReplaceUnsafeRuns(x) + ReplaceUnsafeRuns(y)
    decreases |x|
  {
    if x == [] {
      assert x + y == y;
    } else if IsSafeChar(x[0]) {
      ReplaceUnsafeRunsSplit(x[1..], y);
      SplitSafeStep(x, y);
    } else {
      var d := DropUnsafe(x[1..]);
      assert d != [] && d[|d| - 1] == x[|x| - 1];
      ReplaceUnsafeRunsSplit(d, y);
      SplitUnsafeStep(x, y);
    }
  }

  /**
   * One maximal run of unsafe characters, between text that does not end
   * unsafe and text that does not start unsafe, becomes exactly one `_`.
   */
  lemma ReplaceUnsafeRunsOneUnderscore(a: string, w: string, b: string)
    requires a == [] || IsSafeChar(a[|a| - 1])
    requires w != [] && AllUnsafe(w)
    requires b == [] || IsSafeChar(b[0])
    ensures ReplaceUnsafeRuns(a + w + b) == ReplaceUnsafeRuns(a) + "_" + ReplaceUnsafeRuns(b)
  {
    AppendAssoc(a, w, b);
    ReplaceUnsafeRunsSplit(a, w + b);
    ReplaceRunAtStart(w, b);
    AppendAssoc(ReplaceUnsafeRuns(a), "_", ReplaceUnsafeRuns(b));
  }

  /** `s` without its leading underscores. */
  function TrimLeadingUnderscores(s: string): (r: string)
    ensures |r| <= |s| && r == s[|s| - |r|..]
    ensures r == [] || r[0] != '_'
    ensures forall i :: 0 <= i < |s| - |r| ==> s[i] == '_'
  {
    if s != [] && s[0] == '_' then TrimLeadingUnderscores(s[1..]) else s
  }

  lemma {:induction false} TrimLeadingUsable(s: string)
    ensures Usable(TrimLeadingUnderscores(s)) == Usable(s)
  {
    if s != [] && s[0] == '_' {
      TrimLeadingUsable(s[1..]);
    }
  }

  lemma {:induction false} UsableAppend(a: string, b: string)
    ensures Usable(a + b) == Usable(a) + Usable(b)
  {
    if a != [] {
      assert (a + b)[1..] == a[1..] + b;
      UsableAppend(a[1..], b);
    } else {
      assert a + b == b;
    }
  }

  /** `s` without its trailing underscores. */
  function TrimTrailingUnderscores(s: string): (r: string)
    ensures r <= s
    ensures r == [] || r[|r| - 1] != '_'
    ensures forall i :: |r| <= i < |s| ==> s[i] == '_'
  {
    if s != [] && s[|s| - 1] == '_' then TrimTrailingUnderscores(s[..|s| - 1]) else s
  }

  lemma {:induction false} TrimTrailingUsable(s: string)
    ensures Usable(TrimTrailingUnderscores(s)) == Usable(s)
  {
    if s != [] && s[|s| - 1] == '_' {
      assert s == s[..|s| - 1] + [s[|s| - 1]];
      UsableAppend(s[..|s| - 1], [s[|s| - 1]]);
      TrimTrailingUsable(s[..|s| - 1]);
    }
  }

  /**
   * `sanitizeTestName(name)` on a present name: unsafe runs become `_`,
   * leading and trailing underscores are removed, and an empty result
   * becomes `"test"`. Unicode NFKD normalisation is taken as the identity.
   */
  function SanitizeTestName(name: string): (r: string)
    ensures IsSafeName(r)
  {
    var trimmed := TrimTrailingUnderscores(TrimLeadingUnderscores(ReplaceUnsafeRuns(name)));
    if trimmed == [] then "test" else trimmed
  }

  /**
   * The sanitiser keeps exactly the letters, digits and hyphens of the
   * name, in order, falling back to `"test"` when there are none; an
   * already safe name is returned unchanged, and a leading `-` survives.
   */
  lemma SanitizeSpec(name: string)
    ensures Usable(name) != [] ==> Usable(SanitizeTestName(name)) == Usable(name)
    ensures Usable(name) == [] ==> SanitizeTestName(name) == "test"
    ensures IsSafeName(name) ==> SanitizeTestName(name) == name
    ensures name != [] && name[0] == '-' ==> SanitizeTestName(name)[0] == '-'
  {
    var replaced := ReplaceUnsafeRuns(name);
    ReplaceUnsafeRunsUsable(name);
    TrimLeadingUsable(replaced);
    TrimTrailingUsable(TrimLeadingUnderscores(replaced));
  }

  /** The sanitiser leaves its own output unchanged. */
  lemma SanitizeIdempotent(name: string)
    ensures SanitizeTestName(SanitizeTestName(name)) == SanitizeTestName(name)
  {
    SanitizeSpec(SanitizeTestName(name));
  }

  // ---------------------------------------------------------------------
  // The renamer.

  /** The name a test is known by before sanitising: its own, or `test-<index+1>` when that is missing or empty. */
  function FallbackName(t: TestCase, index: nat): string {
    if t.name.Some? && t.name.value != "" then t.name.value else "test-" + NatToString(index + 1)
  }

  /** The name a test starts from: its fallback name, sanitised. */
  function BaseName(t: TestCase, index: nat): (b: string)
    ensures IsSafeName(b)
  {
    SanitizeTestName(FallbackName(t, index))
  }

  /** The k-th name the renamer tries for `base`: `base` itself, then `base_2`, `base_3`, ... */
  function Candidate(base: string, k: nat): (c: string)
    requires k >= 1
  {
    if k == 1 then base else base + "_" + NatToString(k)
  }

  lemma CandidateSafe(base: string, k: nat)
    requires k >= 1 && IsSafeName(base)
    ensures IsSafeName(Candidate(base, k))
  {
    if k > 1 {
      var c := Candidate(base, k);
      var digits := NatToString(k);
      assert c[|c| - 1] == digits[|digits| - 1];
      forall i | 0 <= i < |c| ensures IsSafeChar(c[i]) {
        if i > |base| { assert c[i] == digits[i - |base| - 1]; }
      }
    }
  }

  /** Distinct attempts are distinct names. */
  lemma CandidateInjective(base: string, j: nat, k: nat)
    requires j >= 1 && k >= 1
    requires Candidate(base, j) == Candidate(base, k)
    ensures j == k
  {
    if j > 1 && k > 1 {
      var cj, ck := Candidate(base, j), Candidate(base, k);
      assert cj[|base| + 1..] == NatToString(j);
      assert ck[|base| + 1..] == NatToString(k);
      NatToStringInjective(j, k);
    }
  }

  /** The names tried before the k-th attempt. */
  function Tried(base: string, k: nat): set<string>
    requires k >= 1
  {
    set j: nat | 1 <= j < k :: Candidate(base, j)
  }

  lemma CandidateNotTried(base: string, k: nat)
    requires k >= 1
    ensures Candidate(base, k) !in Tried(base, k)
    ensures Tried(base, k + 1) == Tried(base, k) + {Candidate(base, k)}
  {
    if Candidate(base, k) in Tried(base, k) {
      var j: nat :| 1 <= j < k && Candidate(base, j) == Candidate(base, k);
      CandidateInjective(base, j, k);
    }
  }

  /**
   * The first attempt, from the k-th on, whose name is not in `used`. It
   * terminates because every attempt that fails removes one more name of
   * the finite set `used` from the names still untried.
   */
  function FirstFree(base: string, used: set<string>, k: nat): (r: nat)
    requires k >= 1
    ensures r >= k && Candidate(base, r) !in used
    decreases used - Tried(base, k)
  {
    if Candidate(base, k) !in used then k
    else
      CandidateNotTried(base, k);
      FirstFree(base, used, k + 1)
  }

  /** The name the renamer's `while (used.has(safeName))` loop settles on. */
  function ChooseName(base: string, used: set<string>): string {
    Candidate(base, FirstFree(base, used, 1))
  }

  /** Every attempt before the one `FirstFree` settles on is taken. */
  lemma {:induction false} FirstFreeMinimal(base: string, used: set<string>, k: nat, j: nat)
    requires k >= 1 && k <= j < FirstFree(base, used, k)
    ensures Candidate(base, j) in used
    decreases used - Tried(base, k)
  {
    if j > k {
      CandidateNotTried(base, k);
      FirstFreeMinimal(base, used, k + 1, j);
    }
  }

  /** Any first free attempt is the one `FirstFree` finds. */
  lemma FirstFreeUnique(base: string, used: set<string>, k: nat)
    requires k >= 1 && Candidate(base, k) !in used
    requires forall j :: 1 <= j < k ==> Candidate(base, j) in used
    ensures FirstFree(base, used, 1) == k
  {
    if k < FirstFree(base, used, 1) {
      FirstFreeMinimal(base, used, 1, k);
    }
  }

  /** The base names of the tests, in order. */
  function Bases(tests: seq<TestCase>): (bs: seq<string>)
    ensures |bs| == |tests|
    ensures forall i :: 0 <= i < |tests| ==> bs[i] == BaseName(tests[i], i) && IsSafeName(bs[i])
  {
    seq(|tests|, i requires 0 <= i < |tests| => BaseName(tests[i], i))
  }

  /** The renaming pass: each base name in turn gets the first free attempt, which is then taken. */
  function AssignNames(bases: seq<string>, used: set<string>): seq<string>
    decreases |bases|
  {
    if bases == [] then []
    else
      var name := ChooseName(bases[0], used);
      [name] + AssignNames(bases[1..], used + {name})
  }

  /** `prepareTests(rawTests)`: the tests, in order, each with its assigned name and its original name. */
  function Prepare(tests: seq<TestCase>): (ps: seq<SafeTest>)
  {
    var names := AssignNames(Bases(tests), {});
    AssignNamesLength(Bases(tests), {});
    seq(|tests|, i requires 0 <= i < |tests| => SafeTest(tests[i], names[i], tests[i].name))
  }

  /** The names in `names` before position `i`. */
  function NamesBefore(names: seq<string>, i: nat): set<string>
    requires i <= |names|
  {
    set j | 0 <= j < i :: names[j]
  }

  lemma {:induction false} AssignNamesLength(bases: seq<string>, used: set<string>)
    ensures |AssignNames(bases, used)| == |bases|
    decreases |bases|
  {
    if bases != [] {
      AssignNamesLength(bases[1..], used + {ChooseName(bases[0], used)});
    }
  }

  lemma NamesBeforeShift(names: seq<string>, i: nat)
    requires 1 <= i <= |names|
    ensures NamesBefore(names, i) == {names[0]} + NamesBefore(names[1..], i - 1)
  {
    forall x | x in NamesBefore(names, i) ensures x in {names[0]} + NamesBefore(names[1..], i - 1) {
      var j :| 0 <= j < i && names[j] == x;
      if j > 0 { assert names[1..][j - 1] == x; }
    }
  }

  /**
   * Name `i` of the renaming pass is the first free attempt for base `i`
   * given `used` and the names handed out before it.
   */
  lemma {:induction false} AssignNamesAt(bases: seq<string>, used: set<string>, i: nat)
    requires i < |bases|
    ensures |AssignNames(bases, used)| == |bases|
    ensures var names := AssignNames(bases, used);
      names[i] == ChooseName(bases[i], used + NamesBefore(names, i))
    decreases |bases|
  {
    AssignNamesLength(bases, used);
    var names := AssignNames(bases, used);
    var name := ChooseName(bases[0], used);
    if i == 0 {
      assert NamesBefore(names, 0) == {};
      assert used + {} == used;
    } else {
      AssignNamesAt(bases[1..], used + {name}, i - 1);
      NamesBeforeShift(names, i);
      assert used + {name} + NamesBefore(names[1..], i - 1) == used + NamesBefore(names, i);
    }
  }

  /** The names `prepareTests` gives are those of the renaming pass over the base names. */
  lemma PrepareNames(tests: seq<TestCase>)
    ensures |AssignNames(Bases(tests), {})| == |tests|
    ensures |Prepare(tests)| == |tests|
    ensures forall m :: 0 <= m < |tests| ==>
      Prepare(tests)[m] == SafeTest(tests[m], AssignNames(Bases(tests), {})[m], tests[m].name)
  {
    AssignNamesLength(Bases(tests), {});
  }

  /** One step of the renaming pass. */
  lemma AssignNamesStep(bases: seq<string>, i: nat, used: set<string>)
    requires i < |bases|
    ensures AssignNames(bases[i..], used)
      == [ChooseName(bases[i], used)] + AssignNames(bases[i + 1..], used + {ChooseName(bases[i], used)})
  {
    assert bases[i..][1..] == bases[i + 1..];
  }

  /** Handing out the name for base `i` advances the renaming pass by one test. */
  lemma AssignNamesAdvance(bases: seq<string>, i: nat, names: seq<string>, used: set<string>)
    requires i < |bases|
    requires names + AssignNames(bases[i..], used) == AssignNames(bases, {})
    ensures var name := ChooseName(bases[i], used);
      (names + [name]) + AssignNames(bases[i + 1..], used + {name}) == AssignNames(bases, {})
  {
    AssignNamesStep(bases, i, used);
    var name := ChooseName(bases[i], used);
    assert names + ([name] + AssignNames(bases[i + 1..], used + {name}))
      == (names + [name]) + AssignNames(bases[i + 1..], used + {name});
  }

  /** Name `i` of the renaming pass is safe and differs from every name handed out before it. */
  lemma AssignedNameFresh(bases: seq<string>, i: nat)
    requires i < |bases| && IsSafeName(bases[i])
    ensures |AssignNames(bases, {})| == |bases|
    ensures var names := AssignNames(bases, {});
      IsSafeName(names[i]) && forall m :: 0 <= m < i ==> names[m] != names[i]
  {
    var names := AssignNames(bases, {});
    AssignNamesAt(bases, {}, i);
    var used := NamesBefore(names, i);
    assert {} + used == used;
    CandidateSafe(bases[i], FirstFree(bases[i], used, 1));
    forall m | 0 <= m < i ensures names[m] != names[i] {
      assert names[m] in used;
    }
  }

  /**
   * Name `i` of `names` is `base` when no earlier name is `base`; otherwise it
   * is `base_k` for a k >= 2 such that `base_2` ... `base_(k-1)` all occur earlier.
   * Either way no earlier name equals it.
   */
  ghost predicate SuffixRule(names: seq<string>, i: nat, base: string)
    requires i < |names|
  {
    && names[i] !in names[..i]
    && (base !in names[..i] ==> names[i] == base)
    && (base in names[..i] ==>
          exists k: nat :: k >= 2 && names[i] == base + "_" + NatToString(k)
            && forall j: nat :: 2 <= j < k ==> base + "_" + NatToString(j) in names[..i])
  }

  /**
   * Name `i` of the renaming pass is its base when no earlier name is that
   * base; otherwise it is `base_k` for the smallest k >= 2 not handed out before.
   */
  lemma AssignedNameSuffix(bases: seq<string>, i: nat)
    requires i < |bases|
    ensures |AssignNames(bases, {})| == |bases|
    ensures SuffixRule(AssignNames(bases, {}), i, bases[i])
  {
    var names := AssignNames(bases, {});
    AssignNamesAt(bases, {}, i);
    var base := bases[i];
    var used := NamesBefore(names, i);
    assert {} + used == used;
    var k := FirstFree(base, used, 1);
    if base in names[..i] {
      assert base in used;
      forall j: nat | 2 <= j < k ensures base + "_" + NatToString(j) in names[..i] {
        FirstFreeMinimal(base, used, 1, j);
      }
      assert names[i] == base + "_" + NatToString(k);
    }
  }

  /** The properties of `prepareTests` as a whole. */
  lemma PrepareSpec(tests: seq<TestCase>)
    ensures |Prepare(tests)| == |tests|
    ensures forall i :: 0 <= i < |tests| ==>
      && Prepare(tests)[i].test == tests[i]
      && Prepare(tests)[i].originalName == tests[i].name
      && IsSafeName(Prepare(tests)[i].safeName)
    ensures forall i, j :: 0 <= i < j < |tests| ==> Prepare(tests)[i].safeName != Prepare(tests)[j].safeName
  {
    var bases := Bases(tests);
    PrepareNames(tests);
    forall i | 0 <= i < |tests| ensures IsSafeName(Prepare(tests)[i].safeName) {
      AssignedNameFresh(bases, i);
    }
    forall i, j | 0 <= i < j < |tests| ensures Prepare(tests)[i].safeName != Prepare(tests)[j].safeName {
      AssignedNameFresh(bases, j);
    }
  }

  /** The names the tests were given, in order. */
  function SafeNames(ps: seq<SafeTest>): (names: seq<string>)
    ensures |names| == |ps| && forall i :: 0 <= i < |ps| ==> names[i] == ps[i].safeName
  {
    seq(|ps|, i requires 0 <= i < |ps| => ps[i].safeName)
  }

  /**
   * A test keeps its base name when no earlier test took it; otherwise it
   * gets `base_k` for the smallest k >= 2 whose name an earlier test did not take.
   * Either way no earlier test has its name.
   */
  lemma PrepareSuffix(tests: seq<TestCase>, i: nat)
    requires i < |tests|
    ensures |SafeNames(Prepare(tests))| == |tests|
    ensures SuffixRule(SafeNames(Prepare(tests)), i, BaseName(tests[i], i))
  {
    AssignedNameSuffix(Bases(tests), i);
    PrepareSafeNames(tests);
  }

  lemma PrepareSafeNames(tests: seq<TestCase>)
    ensures SafeNames(Prepare(tests)) == AssignNames(Bases(tests), {})
  {
    PrepareNames(tests);
  }

  /** `prepared` holds the first `|names|` tests, each with its assigned name and its original name. */
  ghost predicate PreparedPrefix(prepared: seq<SafeTest>, tests: seq<TestCase>, names: seq<string>)
  {
    |prepared| == |names| <= |tests|
    && forall j {:trigger prepared[j]} :: 0 <= j < |names| ==> prepared[j] == SafeTest(tests[j], names[j], tests[j].name)
  }

  lemma PreparedPrefixExtend(prepared: seq<SafeTest>, tests: seq<TestCase>, names: seq<string>, name: string)
    requires PreparedPrefix(prepared, tests, names) && |names| < |tests|
    ensures PreparedPrefix(prepared + [SafeTest(tests[|names|], name, tests[|names|].name)], tests, names + [name])
  {
    var p' := prepared + [SafeTest(tests[|names|], name, tests[|names|].name)];
    var n' := names + [name];
    forall j | 0 <= j < |n'| ensures p'[j] == SafeTest(tests[j], n'[j], tests[j].name) {
      if j < |names| { assert p'[j] == prepared[j]; assert n'[j] == names[j]; }
    }
  }

  lemma PreparedPrefixComplete(prepared: seq<SafeTest>, tests: seq<TestCase>)
    requires PreparedPrefix(prepared, tests, AssignNames(Bases(tests), {})) && |prepared| == |tests|
    ensures prepared == Prepare(tests)
  {
    PrepareNames(tests);
  }

  /** The `while (used.has(safeName))` loop of `prepareTests`: try `base`, then `base_2`, `base_3`, ... */
  method FreeName(base: string, used: set<string>) returns (safeName: string)
    ensures safeName == ChooseName(base, used)
    ensures safeName !in used
  {
    safeName := base;
    var suffix := 2;
    ghost var untried := used;
    while safeName in used
      invariant suffix >= 2
      invariant safeName == Candidate(base, suffix - 1)
      invariant forall j :: 1 <= j < suffix - 1 ==> Candidate(base, j) in used
      invariant untried == used - Tried(base, suffix - 1)
      decreases untried
    {
      CandidateNotTried(base, suffix - 1);
      untried := untried - {safeName};
      safeName := base + "_" + NatToString(suffix);
      suffix := suffix + 1;
    }
    FirstFreeUnique(base, used, suffix - 1);
  }

  /**
   * `prepareTests`: one pass over the tests with the set `used` of names
   * taken so far.
   */
  method PrepareTests(tests: seq<TestCase>) returns (prepared: seq<SafeTest>)
    ensures prepared == Prepare(tests)
  {
    ghost var bases := Bases(tests);
    ghost var names: seq<string> := [];
    prepared := [];
    var used: set<string> := {};
    var index := 0;
    while index < |tests|
      invariant 0 <= index <= |tests| && |names| == index
      invariant names + AssignNames(bases[index..], used) == AssignNames(bases, {})
      invariant PreparedPrefix(prepared, tests, names)
    {
      var safeName := FreeName(BaseName(tests[index], index), used);
      AssignNamesAdvance(bases, index, names, used);
      PreparedPrefixExtend(prepared, tests, names, safeName);
      prepared := prepared + [SafeTest(tests[index], safeName, tests[index].name)];
      names := names + [safeName];
      used := used + {safeName};
      index := index + 1;
    }
    assert bases[index..] == [];
    assert names == AssignNames(bases, {});
    PreparedPrefixComplete(prepared, tests);
  }
}
