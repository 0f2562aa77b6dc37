/**
 * The descriptive keys of the interactive-element map: the key derived from an element's tag
 * and text, its sanitisation to `[a-z0-9_]`, and the numeric suffix that keeps keys unique.
 */
module ElementKeys {
  import opened Strings

  /** The characters a sanitised key may hold. */
  predicate IsKeyChar(c: char) {
    'a' <= c <= 'z' || IsDigit(c) || c == '_'
  }

  predicate KeyChars(k: string) {
    forall i :: 0 <= i < |k| ==> IsKeyChar(k[i])
  }

  /** A non-empty key of key characters that neither starts nor ends with `_`. */
  predicate WellFormedKey(k: string) {
    k != [] && KeyChars(k) && k[0] != '_' && k[|k| - 1] != '_'
  }

  /**
   * The unsanitised key: the tag, `_`, and the first three whitespace-separated words of the
   * text joined by `_`; or, when the text is blank, the tag and the element's enumeration index.
   */
  function KeyBase(tag: string, text: string, index: nat): (r: string)
    ensures !AllWhitespace(text) ==> r == tag + "_" + Join("_", Take(Words(text), 3))
    ensures AllWhitespace(text) ==> r == tag + "_no_text_idx_" + NatToString(index)
  {
    var trimmed := Trim(text);
    var descriptive := if trimmed != [] then Join("_", Take(Words(trimmed), 3)) else [];
    WordsOfTrim(text);
    assert trimmed != [] ==> IsWord(Words(trimmed)[0]);
    if descriptive != [] then tag + "_" + descriptive else tag + "_no_text_idx_" + NatToString(index)
  }

  /** Keeps the ASCII letters, digits and underscores of `s`, in order. */
  function KeepKeyChars(s: string): (r: string)
    ensures forall i :: 0 <= i < |r| ==> (IsAsciiAlphanumeric(r[i]) || r[i] == '_') && r[i] in s
    decreases |s|
  {
    if s == [] then []
    else
      var rest := KeepKeyChars(s[1..]);
      assert forall x :: x in s[1..] ==> x in s;
      if IsAsciiAlphanumeric(s[0]) || s[0] == '_' then [s[0]] + rest else rest
  }

  /** The filter works character by character: a character is kept exactly when it is a key character. */
  lemma KeepKeyCharsSingle(c: char)
    ensures KeepKeyChars([c]) == if IsAsciiAlphanumeric(c) || c == '_' then [c] else []
  {
  }

  /** The filter of a concatenation is the concatenation of the filters. */
  lemma {:induction false} KeepKeyCharsAppend(a: string, b: string)
    ensures KeepKeyChars(a + b) == KeepKeyChars(a) + KeepKeyChars(b)
    decreases |a|
  {
    if a != [] {
      assert (a + b)[0] == a[0] && (a + b)[1..] == a[1..] + b;
      KeepKeyCharsAppend(a[1..], b);
    } else {
      assert a + b == b;
    }
  }

  /**
   * Sanitisation: lower-case, keep `[A-Za-z0-9_]`, replace `__` by `_` in one left-to-right
   * pass, then strip `_` from both ends.
   */
  function Sanitize(base: string): (r: string)
    ensures KeyChars(r)
    ensures r != [] ==> WellFormedKey(r)
  {
    var lowered := Lower(base);
    var kept := KeepKeyChars(lowered);
    assert KeyChars(kept) by {
      forall i | 0 <= i < |kept| ensures IsKeyChar(kept[i]) {
        var j :| 0 <= j < |lowered| && lowered[j] == kept[i];
      }
    }
    var collapsed := ReplaceAll(kept, "__", "_");
    ReplaceAllChars(kept, "__", "_");
    assert KeyChars(collapsed) by {
      forall i | 0 <= i < |collapsed| ensures IsKeyChar(collapsed[i]) {
        if collapsed[i] in kept {
          var j :| 0 <= j < |kept| && kept[j] == collapsed[i];
        }
      }
    }
    var r := TrimMatches(collapsed, '_');
    assert KeyChars(r) by {
      forall i | 0 <= i < |r| ensures IsKeyChar(r[i]) {
        var j :| 0 <= j < |collapsed| && collapsed[j] == r[i];
      }
    }
    r
  }

  /** The key stored for an element: the sanitised base, or a positional placeholder when it is empty. */
  function ElementKey(tag: string, text: string, index: nat): (r: string)
    ensures WellFormedKey(r)
    ensures Sanitize(KeyBase(tag, text, index)) != [] ==> r == Sanitize(KeyBase(tag, text, index))
    ensures Sanitize(KeyBase(tag, text, index)) == [] ==> r == "unknown_element_" + NatToString(index)
  {
    var key := Sanitize(KeyBase(tag, text, index));
    if key == [] then
      PlaceholderWellFormed(index);
      "unknown_element_" + NatToString(index)
    else
      key
  }

  lemma PlaceholderWellFormed(index: nat)
    ensures WellFormedKey("unknown_element_" + NatToString(index))
  {
    var digits := NatToString(index);
    var r := "unknown_element_" + digits;
    forall i | 0 <= i < |r| ensures IsKeyChar(r[i]) {
      if i >= 16 {
        assert r[i] == digits[i - 16];
      }
    }
    assert r[|r| - 1] == digits[|digits| - 1];
  }

  // ----------------------------------------------------- sanitisation facts

  /** A run of `n` underscores. */
  function Underscores(n: nat): (r: string)
    ensures |r| == n
    ensures forall i :: 0 <= i < n ==> r[i] == '_'
  {
    seq(n, i => '_')
  }

  /** One pass of `replace("__", "_")` turns a run of `n` underscores into `ceil(n / 2)` of them. */
  lemma {:induction false} CollapseRun(n: nat)
    ensures ReplaceAll(Underscores(n), "__", "_") == Underscores((n + 1) / 2)
    decreases n
  {
    if n >= 2 {
      assert Underscores(n) == "__" + Underscores(n - 2);
      ReplaceLeading("__", Underscores(n - 2), "_");
      CollapseRun(n - 2);
      assert "_" + Underscores((n - 1) / 2) == Underscores((n + 1) / 2);
    } else {
      assert |Underscores(n)| < 2;
    }
  }

  /**
   * The same for a run followed by another character: the run collapses to `ceil(n / 2)`
   * underscores, the character is kept, and the pass goes on after it.
   */
  lemma {:induction false} CollapseRunBefore(n: nat, c: char, s: string)
    requires c != '_'
    ensures ReplaceAll(Underscores(n) + [c] + s, "__", "_") == Underscores((n + 1) / 2) + [c] + ReplaceAll(s, "__", "_")
    decreases n
  {
    var tail := [c] + s;
    if n >= 2 {
      var shorter := Underscores(n - 2) + tail;
      assert Underscores(n) + [c] + s == "__" + shorter;
      assert shorter == Underscores(n - 2) + [c] + s;
      ReplaceLeading("__", shorter, "_");
      CollapseRunBefore(n - 2, c, s);
      var run := Underscores((n - 1) / 2);
      assert "_" + run == Underscores((n + 1) / 2);
      assert "_" + (run + [c] + ReplaceAll(s, "__", "_")) == ("_" + run) + [c] + ReplaceAll(s, "__", "_");
    } else {
      CollapseShortBefore(n, c, s);
    }
  }

  /** The base cases of `CollapseRunBefore`: no underscore, or a single one, before `c`. */
  lemma CollapseShortBefore(n: nat, c: char, s: string)
    requires n < 2 && c != '_'
    ensures ReplaceAll(Underscores(n) + [c] + s, "__", "_") == Underscores(n) + [c] + ReplaceAll(s, "__", "_")
  {
    var tail := [c] + s;
    assert !StartsWith(tail, "__") by { assert tail[0] == c; }
    ReplaceSkip(c, s, "__", "_");
    if n == 1 {
      assert Underscores(n) + [c] + s == ['_'] + tail;
      assert !StartsWith(['_'] + tail, "__") by { assert (['_'] + tail)[1] == c; }
      ReplaceSkip('_', tail, "__", "_");
    } else {
      assert Underscores(n) + [c] + s == tail;
    }
  }

  /** A key that is already clean (well formed, no `__`) is left unchanged by sanitisation. */
  lemma SanitizeClean(k: string)
    requires WellFormedKey(k)
    requires !Contains(k, "__")
    ensures Sanitize(k) == k
  {
    SanitizeKeyChars(k);
    ReplaceAbsent(k, "__", "_");
    TrimMatchesNoop(k, '_');
  }

  /** On a string of key characters, sanitisation reduces to the collapse and the trim. */
  lemma SanitizeKeyChars(k: string)
    requires KeyChars(k)
    ensures Sanitize(k) == TrimMatches(ReplaceAll(k, "__", "_"), '_')
  {
    assert Lower(k) == k;
    KeepKeyCharsClean(k);
  }

  lemma TrimMatchesNoop(x: string, c: char)
    requires x != [] && x[0] != c && x[|x| - 1] != c
    ensures TrimMatches(x, c) == x
  {
    assert TrimStartBy(x, y => y == c) == x;
    assert TrimEndBy(x, y => y == c) == x;
  }

  lemma {:induction false} KeepKeyCharsClean(k: string)
    requires KeyChars(k)
    ensures KeepKeyChars(k) == k
    decreases |k|
  {
    if k != [] {
      KeepKeyCharsClean(k[1..]);
      assert [k[0]] + k[1..] == k;
    }
  }

  /** The single pass leaves double underscores behind: three underscores in a row survive as two. */
  lemma TripleUnderscoreSurvives()
    ensures Sanitize("a___b") == "a__b"
  {
    CollapseTriple();
    SanitizeKeyChars("a___b");
    TrimMatchesNoop("a__b", '_');
  }

  /** Sanitising is therefore not idempotent: a second pass still changes `a__b`. */
  lemma SanitizeNotIdempotent()
    ensures Sanitize(Sanitize("a___b")) != Sanitize("a___b")
  {
    TripleUnderscoreSurvives();
    CollapseDouble();
    SanitizeKeyChars("a__b");
    TrimMatchesNoop("a_b", '_');
  }

  lemma CollapseTail()
    ensures ReplaceAll("_b", "__", "_") == "_b"
  {
    assert ReplaceAll("b", "__", "_") == "b";
    assert !StartsWith("_b", "__") by { assert "_b"[1] != "__"[1]; }
    assert "_b" == ['_'] + "b";
    ReplaceSkip('_', "b", "__", "_");
  }

  lemma CollapseTriple()
    ensures ReplaceAll("a___b", "__", "_") == "a__b"
  {
    CollapseTail();
    assert "___b" == "__" + "_b";
    ReplaceLeading("__", "_b", "_");
    assert !StartsWith("a___b", "__") by { assert "a___b"[0] != "__"[0]; }
    assert "a___b" == ['a'] + "___b";
    ReplaceSkip('a', "___b", "__", "_");
  }

  lemma CollapseDouble()
    ensures ReplaceAll("a__b", "__", "_") == "a_b"
  {
    assert ReplaceAll("b", "__", "_") == "b";
    assert "__b" == "__" + "b";
    ReplaceLeading("__", "b", "_");
    assert !StartsWith("a__b", "__") by { assert "a__b"[0] != "__"[0]; }
    assert "a__b" == ['a'] + "__b";
    ReplaceSkip('a', "__b", "__", "_");
  }

  // ---------------------------------------------------------------- suffixes

  /** The `j`-th candidate for a key: the key itself, then `key_1`, `key_2`, ... */
  function Candidate(key: string, j: nat): string {
    if j == 0 then key else key + "_" + NatToString(j)
  }

  lemma CandidateInjective(key: string, i: nat, j: nat)
    requires Candidate(key, i) == Candidate(key, j)
    ensures i == j
  {
    if i > 0 && j > 0 {
      var a := Candidate(key, i);
      assert a[|key| + 1..] == NatToString(i);
      assert Candidate(key, j)[|key| + 1..] == NatToString(j);
      NatToStringInjective(i, j);
    }
  }

  function Candidates(key: string, n: nat): set<string> {
    set j | 0 <= j < n :: Candidate(key, j)
  }

  /** The first `n` candidates are pairwise distinct. */
  lemma {:induction false} CandidatesSize(key: string, n: nat)
    ensures |Candidates(key, n)| == n
    decreases n
  {
    if n > 0 {
      CandidatesSize(key, n - 1);
      assert Candidates(key, n) == Candidates(key, n - 1) + {Candidate(key, n - 1)};
      if Candidate(key, n - 1) in Candidates(key, n - 1) {
        var j :| 0 <= j < n - 1 && Candidate(key, j) == Candidate(key, n - 1);
        CandidateInjective(key, j, n - 1);
      }
    }
  }

  /** Suffixing keeps a key well formed. */
  lemma CandidateWellFormed(key: string, j: nat)
    requires WellFormedKey(key)
    ensures WellFormedKey(Candidate(key, j))
  {
    if j > 0 {
      var c := Candidate(key, j);
      var digits := NatToString(j);
      forall i | 0 <= i < |c| ensures IsKeyChar(c[i]) {
        if i > |key| {
          assert c[i] == digits[i - |key| - 1];
        }
      }
      assert c[|c| - 1] == digits[|digits| - 1];
    }
  }

  /**
   * The key inserted for a new element: the key itself when it is free, otherwise `key_k` for the
   * least `k >= 1` that is free.
   */
  method UniqueKey(taken: set<string>, key: string) returns (r: string, suffix: nat)
    ensures r == Candidate(key, suffix)
    ensures r !in taken
    ensures forall j :: 0 <= j < suffix ==> Candidate(key, j) in taken
  {
    r := key;
    suffix := 0;
    while r in taken
      invariant r == Candidate(key, suffix)
      invariant forall j :: 0 <= j < suffix ==> Candidate(key, j) in taken
      invariant suffix <= |taken|
      decreases |taken| - suffix
    {
      assert Candidates(key, suffix + 1) <= taken;
      CandidatesSize(key, suffix + 1);
      SubsetCardinality(Candidates(key, suffix + 1), taken);
      suffix := suffix + 1;
      r := key + "_" + NatToString(suffix);
    }
  }

  lemma SubsetCardinality<T>(a: set<T>, b: set<T>)
    requires a <= b
    ensures |a| <= |b|
  {
    if a != {} {
      var x :| x in a;
      SubsetCardinality(a - {x}, b - {x});
    }
  }
}
