/** The parts of Rust's `str` API the system relies on, over `seq<char>`. */
module Strings {

  /** Rust's `char::is_whitespace`: the Unicode `White_Space` property. */
  predicate IsWhitespace(c: char) {
    || c == ' '
    || '\t' <= c <= '\r'
    || c == '\U{0085}' || c == '\U{00A0}' || c == '\U{1680}'
    || '\U{2000}' <= c <= '\U{200A}'
    || c == '\U{2028}' || c == '\U{2029}' || c == '\U{202F}' || c == '\U{205F}' || c == '\U{3000}'
  }

  predicate AllWhitespace(s: string) {
    forall i :: 0 <= i < |s| ==> IsWhitespace(s[i])
  }

  predicate NoWhitespace(s: string) {
    forall i :: 0 <= i < |s| ==> !IsWhitespace(s[i])
  }

  predicate IsDigit(c: char) {
    '0' <= c <= '9'
  }

  predicate IsAsciiAlphanumeric(c: char) {
    'a' <= c <= 'z' || 'A' <= c <= 'Z' || IsDigit(c)
  }

  predicate StartsWith(s: string, prefix: string) {
    |prefix| <= |s| && s[..|prefix|] == prefix
  }

  /** `s` holds `t` at some position. */
  predicate Contains(s: string, t: string)
    decreases |s|
  {
    StartsWith(s, t) || (|s| > 0 && Contains(s[1..], t))
  }

  /** `t` occurs in `s` starting at index `i`. */
  predicate OccursAt(s: string, t: string, i: nat) {
    i + |t| <= |s| && s[i..i + |t|] == t
  }

  /** `Contains` holds exactly when `t` occurs at some index of `s`. */
  lemma {:induction false} ContainsAt(s: string, t: string)
    ensures Contains(s, t) <==> exists i: nat :: OccursAt(s, t, i)
    decreases |s|
  {
    if StartsWith(s, t) {
      assert OccursAt(s, t, 0);
    }
    if OccursAt(s, t, 0) {
      assert StartsWith(s, t);
    }
    if |s| > 0 {
      ContainsAt(s[1..], t);
      if exists i: nat :: OccursAt(s, t, i) {
        var i: nat :| OccursAt(s, t, i);
        if i > 0 {
          assert s[1..][i - 1..i - 1 + |t|] == t;
          assert OccursAt(s[1..], t, i - 1);
        }
      }
      if Contains(s[1..], t) {
        var i: nat :| OccursAt(s[1..], t, i);
        assert s[i + 1..i + 1 + |t|] == t;
        assert OccursAt(s, t, i + 1);
      }
    } else {
      if exists i: nat :: OccursAt(s, t, i) {
        var i: nat :| OccursAt(s, t, i);
        assert i == 0;
      }
    }
  }

  /** A slice of a string that does not contain `t` does not contain it either. */
  lemma NotContainsSlice(s: string, t: string, a: nat, b: nat)
    requires a <= b <= |s|
    requires !Contains(s, t)
    ensures !Contains(s[a..b], t)
  {
    ContainsAt(s, t);
    ContainsAt(s[a..b], t);
    forall i: nat | OccursAt(s[a..b], t, i)
      ensures OccursAt(s, t, a + i)
    {
      var u, v := s[a..b][i..i + |t|], s[a + i..a + i + |t|];
      assert |u| == |v|;
      assert forall k :: 0 <= k < |u| ==> u[k] == v[k];
      assert u == v;
    }
  }

  /** A string holding a non-empty `t` holds its first character. */
  lemma ContainsHead(s: string, t: string)
    requires t != [] && Contains(s, t)
    ensures t[0] in s
  {
    ContainsAt(s, t);
    var i: nat :| OccursAt(s, t, i);
    assert s[i] == s[i..i + |t|][0];
  }

  /** A string holding a character that `s` lacks does not occur in `s`. */
  lemma LetterMissing(s: string, t: string, c: char)
    requires c in t && c !in s
    ensures !Contains(s, t)
  {
    ContainsAt(s, t);
    var k :| 0 <= k < |t| && t[k] == c;
    forall i: nat | i + |t| <= |s|
      ensures !OccursAt(s, t, i)
    {
      assert s[i..i + |t|][k] == s[i + k] != c;
    }
  }

  // ---------------------------------------------------------------- trimming

  /** Drops the longest prefix whose characters all satisfy `strip`. */
  function TrimStartBy(s: string, strip: char -> bool): (r: string)
    ensures |r| <= |s| && r == s[|s| - |r|..]
    ensures r == [] || !strip(r[0])
    ensures forall i :: 0 <= i < |s| - |r| ==> strip(s[i])
    decreases |s|
  {
    if |s| > 0 && strip(s[0]) then TrimStartBy(s[1..], strip) else s
  }

  /** Drops the longest suffix whose characters all satisfy `strip`. */
  function TrimEndBy(s: string, strip: char -> bool): (r: string)
    ensures |r| <= |s| && r == s[..|r|]
    ensures r == [] || !strip(r[|r| - 1])
    ensures forall i :: |r| <= i < |s| ==> strip(s[i])
    decreases |s|
  {
    if |s| > 0 && strip(s[|s| - 1]) then TrimEndBy(s[..|s| - 1], strip) else s
  }

  /** No whitespace at either end. */
  predicate Trimmed(s: string) {
    s == [] || (!IsWhitespace(s[0]) && !IsWhitespace(s[|s| - 1]))
  }

  /** Rust's `str::trim`. */
  function Trim(s: string): (r: string)
    ensures r == [] <==> AllWhitespace(s)
    ensures Trimmed(r)
  {
    var t := TrimStartBy(s, IsWhitespace);
    var r := TrimEndBy(t, IsWhitespace);
    assert r == [] ==> t == [];
    assert t != [] ==> s[|s| - |t|] == t[0];
    r
  }

  /** `Trim` returns a slice of its argument. */
  lemma TrimIsSlice(s: string) returns (a: nat)
    ensures a + |Trim(s)| <= |s| && Trim(s) == s[a..a + |Trim(s)|]
  {
    var t := TrimStartBy(s, IsWhitespace);
    a := |s| - |t|;
    assert Trim(s) == t[..|Trim(s)|];
  }

  /** Trimming only removes characters. */
  lemma TrimSubsequence(s: string)
    ensures Subsequence(Trim(s), s)
  {
    var a := TrimIsSlice(s);
    SliceSubsequence(s, a, a + |Trim(s)|);
  }

  /** Trimming cannot create an occurrence. */
  lemma TrimKeepsAbsent(s: string, t: string)
    requires !Contains(s, t)
    ensures !Contains(Trim(s), t)
  {
    var a := TrimIsSlice(s);
    NotContainsSlice(s, t, a, a + |Trim(s)|);
  }

  /** Rust's `str::trim_matches(c)` for a single character. */
  function TrimMatches(s: string, c: char): (r: string)
    ensures r != [] ==> r[0] != c && r[|r| - 1] != c
    ensures forall i :: 0 <= i < |r| ==> r[i] in s
  {
    var t := TrimStartBy(s, x => x == c);
    var r := TrimEndBy(t, x => x == c);
    assert forall i :: 0 <= i < |r| ==> r[i] == s[|s| - |t| + i];
    r
  }

  // ------------------------------------------------------------- words/join

  /** The longest prefix of `s` that holds no whitespace. */
  function TakeWord(s: string): (w: string)
    ensures |w| <= |s| && w == s[..|w|]
    ensures NoWhitespace(w)
    ensures |w| < |s| ==> IsWhitespace(s[|w|])
    decreases |s|
  {
    if |s| > 0 && !IsWhitespace(s[0]) then [s[0]] + TakeWord(s[1..]) else []
  }

  /** Rust's `str::split_whitespace`: the maximal runs of non-whitespace characters, in order. */
  function Words(s: string): (ws: seq<string>)
    ensures AllWords(ws)
    ensures ws == [] <==> AllWhitespace(s)
    decreases |s|
  {
    var t := TrimStartBy(s, IsWhitespace);
    if t == [] then
      []
    else
      assert s[|s| - |t|] == t[0];
      var w := TakeWord(t);
      assert w != [] && w[0] == t[0];
      var rest := Words(t[|w|..]);
      AllWordsCons(w, rest);
      [w] + rest
  }

  /** A word: a non-empty run of non-whitespace characters. */
  predicate IsWord(w: string) {
    w != [] && NoWhitespace(w)
  }

  predicate AllWords(ws: seq<string>) {
    forall k :: 0 <= k < |ws| ==> IsWord(ws[k])
  }

  lemma AllWordsCons(w: string, ws: seq<string>)
    requires IsWord(w) && AllWords(ws)
    ensures AllWords([w] + ws)
  {
    forall k | 0 <= k < |ws| + 1 ensures IsWord(([w] + ws)[k]) {
      if k > 0 {
        assert ([w] + ws)[k] == ws[k - 1];
      }
    }
  }

  lemma {:induction false} TrimStartAppend(s: string, u: string)
    requires !AllWhitespace(s)
    ensures TrimStartBy(s + u, IsWhitespace) == TrimStartBy(s, IsWhitespace) + u
    decreases |s|
  {
    if IsWhitespace(s[0]) {
      assert (s + u)[1..] == s[1..] + u;
      assert !AllWhitespace(s[1..]) by {
        var i :| 0 <= i < |s| && !IsWhitespace(s[i]);
        assert s[1..][i - 1] == s[i];
      }
      TrimStartAppend(s[1..], u);
    }
  }

  lemma {:induction false} TakeWordAppend(t: string, u: string)
    requires AllWhitespace(u)
    ensures TakeWord(t + u) == TakeWord(t)
    decreases |t|
  {
    if |t| > 0 && !IsWhitespace(t[0]) {
      assert (t + u)[1..] == t[1..] + u;
      TakeWordAppend(t[1..], u);
    } else if |t| == 0 {
      assert t + u == u;
    }
  }

  /** Trailing whitespace does not change the words of a string. */
  lemma {:induction false} WordsTrailing(s: string, u: string)
    requires AllWhitespace(u)
    ensures Words(s + u) == Words(s)
    decreases |s|
  {
    if AllWhitespace(s) {
      WhitespaceAppend(s, u);
    } else {
      var t := TrimStartBy(s, IsWhitespace);
      assert t != [] by {
        var i :| 0 <= i < |s| && !IsWhitespace(s[i]);
      }
      var w := TakeWord(t);
      assert 0 < |w| && Words(s) == [w] + Words(t[|w|..]) by {
        WordsStep(s);
      }
      assert Words(s + u) == [w] + Words(t[|w|..] + u) by {
        TrimStartAppend(s, u);
        TakeWordAppend(t, u);
        WordsStep(s + u);
        DropAppend(t, u, |w|);
      }
      WordsTrailing(t[|w|..], u);
    }
  }

  lemma DropAppend(t: string, u: string, k: nat)
    requires k <= |t|
    ensures (t + u)[k..] == t[k..] + u
  {
  }

  /** One unfolding of `Words` on a string whose trimmed start is not empty. */
  lemma WordsStep(s: string)
    requires TrimStartBy(s, IsWhitespace) != []
    ensures var t := TrimStartBy(s, IsWhitespace);
      0 < |TakeWord(t)| && Words(s) == [TakeWord(t)] + Words(t[|TakeWord(t)|..])
  {
  }

  lemma WhitespaceAppend(s: string, u: string)
    requires AllWhitespace(s) && AllWhitespace(u)
    ensures AllWhitespace(s + u) && Words(s + u) == [] && Words(s) == []
  {
    forall i | 0 <= i < |s + u| ensures IsWhitespace((s + u)[i]) {
      if i >= |s| {
        assert (s + u)[i] == u[i - |s|];
      }
    }
  }

  /** Trimming does not change the words of a string. */
  lemma {:induction false} WordsOfTrim(s: string)
    ensures Words(Trim(s)) == Words(s)
  {
    var t := TrimStartBy(s, IsWhitespace);
    WordsSkipLeading(s);
    var u := TrimmedTail(t);
    WordsTrailing(TrimEndBy(t, IsWhitespace), u);
  }

  /** The whitespace that `TrimEndBy` removes from `t`. */
  lemma TrimmedTail(t: string) returns (u: string)
    ensures AllWhitespace(u)
    ensures t == TrimEndBy(t, IsWhitespace) + u
  {
    var r := TrimEndBy(t, IsWhitespace);
    u := t[|r|..];
    assert t == t[..|r|] + t[|r|..];
    forall i | 0 <= i < |u| ensures IsWhitespace(u[i]) {
      assert u[i] == t[|r| + i];
    }
  }

  lemma WordsSkipLeading(s: string)
    ensures Words(TrimStartBy(s, IsWhitespace)) == Words(s)
  {
    var t := TrimStartBy(s, IsWhitespace);
    assert TrimStartBy(t, IsWhitespace) == t;
  }

  /** The first `n` elements of `xs` (Rust's `Iterator::take`). */
  function Take<T>(xs: seq<T>, n: nat): (r: seq<T>)
    ensures |r| == if |xs| <= n then |xs| else n
    ensures r == xs[..|r|]
  {
    if |xs| <= n then xs else xs[..n]
  }

  /** Rust's `[String]::join(sep)`. */
  function Join(sep: string, parts: seq<string>): (r: string)
    ensures |parts| > 0 && parts[0] != [] ==> r != []
    ensures forall i :: 0 <= i < |r| ==> r[i] in sep || exists k :: 0 <= k < |parts| && r[i] in parts[k]
    decreases |parts|
  {
    if |parts| == 0 then []
    else if |parts| == 1 then parts[0]
    else
      var rest := Join(sep, parts[1..]);
      var r := parts[0] + sep + rest;
      assert forall i :: |parts[0] + sep| <= i < |r| ==> r[i] == rest[i - |parts[0] + sep|];
      r
  }

  /** Splits `s` at every occurrence of `c`; the inverse of joining with `c`. */
  function Split(s: string, c: char): (parts: seq<string>)
    ensures |parts| >= 1
    decreases |s|
  {
    if |s| == 0 then [[]]
    else
      var rest := Split(s[1..], c);
      if s[0] == c then [[]] + rest else [[s[0]] + rest[0]] + rest[1..]
  }

  lemma {:induction false} SplitWithoutSeparator(x: string, c: char)
    requires c !in x
    ensures Split(x, c) == [x]
    decreases |x|
  {
    if |x| > 0 {
      SplitWithoutSeparator(x[1..], c);
      assert [x[0]] + x[1..] == x;
    }
  }

  lemma {:induction false} SplitAfterSeparator(x: string, c: char, y: string)
    requires c !in x
    ensures Split(x + [c] + y, c) == [x] + Split(y, c)
    decreases |x|
  {
    if |x| == 0 {
      assert x + [c] + y == [c] + y;
      assert ([c] + y)[1..] == y;
    } else {
      assert (x + [c] + y)[1..] == x[1..] + [c] + y;
      SplitAfterSeparator(x[1..], c, y);
      assert [x[0]] + x[1..] == x;
    }
  }

  /** Splitting at `c` undoes joining with `c`, when no part holds `c`. */
  lemma {:induction false} SplitJoin(parts: seq<string>, c: char)
    requires |parts| >= 1
    requires forall k :: 0 <= k < |parts| ==> c !in parts[k]
    ensures Split(Join([c], parts), c) == parts
    decreases |parts|
  {
    if |parts| == 1 {
      SplitWithoutSeparator(parts[0], c);
    } else {
      SplitJoin(parts[1..], c);
      SplitAfterSeparator(parts[0], c, Join([c], parts[1..]));
      assert [parts[0]] + parts[1..] == parts;
    }
  }

  // -------------------------------------------------------------- replacing

  /** Rust's `str::replace(pat, rep)`: every leftmost, non-overlapping occurrence of `pat` is replaced. */
  function ReplaceAll(s: string, pat: string, rep: string): (r: string)
    requires |pat| > 0
    decreases |s|
  {
    if |s| < |pat| then s
    else if s[..|pat|] == pat then rep + ReplaceAll(s[|pat|..], pat, rep)
    else [s[0]] + ReplaceAll(s[1..], pat, rep)
  }

  /** Every character of a replacement result comes from the input or from the replacement. */
  lemma {:induction false} ReplaceAllChars(s: string, pat: string, rep: string)
    requires |pat| > 0
    ensures forall i :: 0 <= i < |ReplaceAll(s, pat, rep)| ==> ReplaceAll(s, pat, rep)[i] in s || ReplaceAll(s, pat, rep)[i] in rep
    decreases |s|
  {
    if |s| >= |pat| {
      if s[..|pat|] == pat {
        ReplaceAllChars(s[|pat|..], pat, rep);
        assert forall x :: x in s[|pat|..] ==> x in s;
      } else {
        ReplaceAllChars(s[1..], pat, rep);
        assert forall x :: x in s[1..] ==> x in s;
      }
    }
  }

  /** A string without `pat` is left untouched by replacing `pat`. */
  lemma {:induction false} ReplaceAbsent(s: string, pat: string, rep: string)
    requires |pat| > 0
    requires !Contains(s, pat)
    ensures ReplaceAll(s, pat, rep) == s
    decreases |s|
  {
    if |s| >= |pat| {
      assert !StartsWith(s, pat);
      ReplaceAbsent(s[1..], pat, rep);
    }
  }

  /** Removing a single character removes every occurrence of it. */
  lemma {:induction false} RemoveCharLeavesNone(s: string, c: char)
    ensures c !in ReplaceAll(s, [c], [])
    decreases |s|
  {
    if |s| >= 1 {
      RemoveCharLeavesNone(s[1..], c);
    }
  }

  /** Removing a pattern that starts the string removes it and continues after it. */
  lemma ReplaceLeading(pat: string, s: string, rep: string)
    requires |pat| > 0
    ensures ReplaceAll(pat + s, pat, rep) == rep + ReplaceAll(s, pat, rep)
  {
    assert (pat + s)[..|pat|] == pat;
    assert (pat + s)[|pat|..] == s;
  }

  /** A character that does not start `pat` is kept, and replacing continues after it. */
  lemma ReplaceSkip(c: char, s: string, pat: string, rep: string)
    requires |pat| > 0
    requires !StartsWith([c] + s, pat)
    ensures ReplaceAll([c] + s, pat, rep) == [c] + ReplaceAll(s, pat, rep)
  {
    assert ([c] + s)[1..] == s;
  }

  /** Removing a single character: the reference filter that drops every `c` and keeps the rest in order. */
  function DropChar(s: string, c: char): (r: string)
    decreases |s|
  {
    if s == [] then [] else (if s[0] == c then [] else [s[0]]) + DropChar(s[1..], c)
  }

  /** `str::replace` of a one-character pattern by nothing is that filter. */
  lemma {:induction false} ReplaceCharIsDrop(s: string, c: char)
    ensures ReplaceAll(s, [c], []) == DropChar(s, c)
    decreases |s|
  {
    if s != [] {
      ReplaceCharIsDrop(s[1..], c);
      assert s[..1] == [s[0]];
    }
  }

  /** Text before `y` that cannot start `pat` is copied, and replacing continues in `y`. */
  lemma {:induction false} ReplacePrefixAbsent(x: string, y: string, pat: string, rep: string)
    requires |pat| > 0 && pat[0] !in x
    ensures ReplaceAll(x + y, pat, rep) == x + ReplaceAll(y, pat, rep)
    decreases |x|
  {
    if x != [] {
      var rest := x[1..] + y;
      assert x + y == [x[0]] + rest;
      assert !StartsWith([x[0]] + rest, pat) by { assert ([x[0]] + rest)[0] == x[0] != pat[0]; }
      ReplaceSkip(x[0], rest, pat, rep);
      ReplacePrefixAbsent(x[1..], y, pat, rep);
      assert [x[0]] + (x[1..] + ReplaceAll(y, pat, rep)) == x + ReplaceAll(y, pat, rep);
    } else {
      assert x + y == y;
    }
  }

  /** Removing an opening marker from `open + x + close`, where neither `x` nor `close` can hold it. */
  lemma ReplaceOpening(open: string, x: string, close: string)
    requires |open| > 0 && open[0] !in x && |close| < |open|
    ensures ReplaceAll(open + x + close, open, []) == x + close
  {
    assert open + x + close == open + (x + close);
    ReplaceLeading(open, x + close, []);
    ReplacePrefixAbsent(x, close, open, []);
    assert ReplaceAll(close, open, []) == close;
  }

  /** Removing a closing marker from `x + close`, where `x` cannot hold it. */
  lemma ReplaceClosing(x: string, close: string)
    requires |close| > 0 && close[0] !in x
    ensures ReplaceAll(x + close, close, []) == x
  {
    ReplacePrefixAbsent(x, close, close, []);
    ReplaceLeading(close, [], []);
    assert close + [] == close;
  }

  // ------------------------------------------------------------ subsequences

  /** `r` is `s` with some characters removed: its characters occur in `s` in the same order. */
  predicate Subsequence(r: string, s: string)
    decreases |s|
  {
    r == [] || (s != [] && ((r[0] == s[0] && Subsequence(r[1..], s[1..])) || Subsequence(r, s[1..])))
  }

  lemma {:induction false} SubsequenceTrans(a: string, b: string, c: string)
    requires Subsequence(a, b) && Subsequence(b, c)
    ensures Subsequence(a, c)
    decreases |c|
  {
    if a != [] {
      if Subsequence(b, c[1..]) {
        SubsequenceTrans(a, b, c[1..]);
      } else if a[0] == b[0] && Subsequence(a[1..], b[1..]) {
        SubsequenceTrans(a[1..], b[1..], c[1..]);
      } else {
        SubsequenceTrans(a, b[1..], c[1..]);
      }
    }
  }

  /** A slice is a subsequence. */
  lemma {:induction false} SliceSubsequence(s: string, a: nat, b: nat)
    requires a <= b <= |s|
    ensures Subsequence(s[a..b], s)
    decreases |s|
  {
    if a < b {
      if a > 0 {
        assert s[1..][a - 1..b - 1] == s[a..b];
        SliceSubsequence(s[1..], a - 1, b - 1);
      } else {
        assert s[a..b][1..] == s[1..][0..b - 1];
        SliceSubsequence(s[1..], 0, b - 1);
      }
    }
  }

  /** Replacing by nothing only removes characters. */
  lemma {:induction false} ReplaceRemoves(s: string, pat: string)
    requires |pat| > 0
    ensures Subsequence(ReplaceAll(s, pat, []), s)
    decreases |s|
  {
    if |s| < |pat| {
      SliceSubsequence(s, 0, |s|);
      assert s[0..|s|] == s;
    } else if s[..|pat|] == pat {
      ReplaceRemoves(s[|pat|..], pat);
      assert ReplaceAll(s, pat, []) == ReplaceAll(s[|pat|..], pat, []);
      SliceSubsequence(s, |pat|, |s|);
      assert s[|pat|..|s|] == s[|pat|..];
      SubsequenceTrans(ReplaceAll(s, pat, []), s[|pat|..], s);
    } else {
      ReplaceRemoves(s[1..], pat);
    }
  }

  // ------------------------------------------------------------ case mapping

  function LowerChar(c: char): (r: char)
    ensures !('A' <= r <= 'Z')
  {
    if 'A' <= c <= 'Z' then (c as int + 32) as char else c
  }

  function UpperChar(c: char): char {
    if 'a' <= c <= 'z' then (c as int - 32) as char else c
  }

  /** Rust's `str::to_lowercase`, restricted to ASCII letters. */
  function Lower(s: string): (r: string)
    ensures |r| == |s|
    ensures forall i :: 0 <= i < |s| ==> r[i] == LowerChar(s[i])
  {
    seq(|s|, i requires 0 <= i < |s| => LowerChar(s[i]))
  }

  /** Rust's `str::to_uppercase`, restricted to ASCII letters. */
  function Upper(s: string): (r: string)
    ensures |r| == |s|
    ensures forall i :: 0 <= i < |s| ==> r[i] == UpperChar(s[i])
  {
    seq(|s|, i requires 0 <= i < |s| => UpperChar(s[i]))
  }

  // ---------------------------------------------------------------- numbers

  function DigitChar(d: nat): (c: char)
    requires d < 10
    ensures IsDigit(c)
  {
    ('0' as int + d) as char
  }

  /** The decimal rendering of `n` (Rust's `Display` for unsigned integers). */
  function NatToString(n: nat): (s: string)
    ensures |s| >= 1
    ensures forall i :: 0 <= i < |s| ==> IsDigit(s[i])
    decreases n
  {
    if n < 10 then [DigitChar(n)] else NatToString(n / 10) + [DigitChar(n % 10)]
  }

  function DigitValue(c: char): nat
    requires IsDigit(c)
  {
    c as int - '0' as int
  }

  /** The value of a string of decimal digits. */
  function DecimalValue(s: string): nat
    requires forall i :: 0 <= i < |s| ==> IsDigit(s[i])
    decreases |s|
  {
    if s == [] then 0 else DecimalValue(s[..|s| - 1]) * 10 + DigitValue(s[|s| - 1])
  }

  /** Reading back a rendered number gives the number. */
  lemma {:induction false} DecimalRoundTrip(n: nat)
    ensures DecimalValue(NatToString(n)) == n
    decreases n
  {
    if n >= 10 {
      var s := NatToString(n);
      assert s[..|s| - 1] == NatToString(n / 10);
      DecimalRoundTrip(n / 10);
    }
  }

  /** Distinct numbers render differently. */
  lemma NatToStringInjective(a: nat, b: nat)
    requires NatToString(a) == NatToString(b)
    ensures a == b
  {
    DecimalRoundTrip(a);
    DecimalRoundTrip(b);
  }
}
