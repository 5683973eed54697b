/**
  String helpers shared by the extraction, topic-splitting and UI code:
  Python's `str.strip`, the run-collapsing regular-expression substitutions,
  `str.split("\n")`, joining, and ASCII case mapping.

  Whitespace is the set of characters Python's `str.isspace()` accepts, which
  is also what `str.strip()`, `str.split()` and the regex class `\s` use.
*/
module TextUtil {

  /**
    Whitespace: tab, LF, VT, FF, CR, the four information separators
    U+001C..U+001F, space, NEL, no-break space, and the Unicode space
    separators and line and paragraph separators.
  */
  predicate IsSpace(c: char) {
    || ('\t' <= c <= '\r')
    || ('\U{1C}' <= c <= ' ')
    || c == '\U{85}' || c == '\U{A0}' || c == '\U{1680}'
    || ('\U{2000}' <= c <= '\U{200A}')
    || c == '\U{2028}' || c == '\U{2029}' || c == '\U{202F}' || c == '\U{205F}' || c == '\U{3000}'
  }

  /** The regex class `[ \t]`. */
  predicate IsSpaceOrTab(c: char) {
    c == ' ' || c == '\t'
  }

  predicate IsNewline(c: char) {
    c == '\n'
  }

  /** Every character of `s` is in the class `p`. */
  predicate AllIn(s: string, p: char -> bool) {
    forall i :: 0 <= i < |s| ==> p(s[i])
  }

  /** No character of `s` is in the class `p`. */
  predicate NoneIn(s: string, p: char -> bool) {
    forall i :: 0 <= i < |s| ==> !p(s[i])
  }

  predicate StartsWith(s: string, prefix: string) {
    |prefix| <= |s| && s[..|prefix|] == prefix
  }

  predicate EndsWith(s: string, suffix: string) {
    |suffix| <= |s| && s[|s| - |suffix|..] == suffix
  }

  // ---------------------------------------------------------------------------
  // str.strip
  // ---------------------------------------------------------------------------

  /** `s.lstrip(chars)`: the longest suffix of `s` that does not start with a class character. */
  function StripLeft(s: string, p: char -> bool): (r: string)
    ensures |r| <= |s| && r == s[|s| - |r|..]
    ensures AllIn(s[..|s| - |r|], p)
    ensures r == [] || !p(r[0])
  {
    if s != [] && p(s[0]) then
      var r := StripLeft(s[1..], p);
      assert forall i :: 1 <= i < |s| - |r| ==> s[i] == s[1..][..|s| - 1 - |r|][i - 1];
      r
    else s
  }

  /** `s.rstrip(chars)`: the longest prefix of `s` that does not end with a class character. */
  function StripRight(s: string, p: char -> bool): (r: string)
    ensures |r| <= |s| && r == s[..|r|]
    ensures AllIn(s[|r|..], p)
    ensures r == [] || !p(r[|r| - 1])
  {
    if s != [] && p(s[|s| - 1]) then
      var r := StripRight(s[..|s| - 1], p);
      assert forall i :: |r| <= i < |s| - 1 ==> s[i] == s[..|s| - 1][|r|..][i - |r|];
      r
    else s
  }

  /** `s.strip(chars)`: both ends trimmed of class characters. */
  function StripChars(s: string, p: char -> bool): (r: string)
    ensures |r| <= |s|
    ensures r == [] || (!p(r[0]) && !p(r[|r| - 1]))
  {
    StripRight(StripLeft(s, p), p)
  }

  /** Stripping leaves nothing exactly when every character is of the class. */
  lemma StripCharsEmpty(s: string, p: char -> bool)
    ensures StripChars(s, p) == [] <==> AllIn(s, p)
  {
    var l := StripLeft(s, p);
    var r := StripRight(l, p);
    AllInConcat(s[..|s| - |l|], l, p);
    AllInConcat(r, l[|r|..], p);
    StripLeftSplits(s, p);
    StripRightSplits(l, p);
  }

  lemma AllInConcat(a: string, b: string, p: char -> bool)
    ensures AllIn(a + b, p) <==> AllIn(a, p) && AllIn(b, p)
  {
    if AllIn(a, p) && AllIn(b, p) {
      forall i | 0 <= i < |a + b| ensures p((a + b)[i]) {
        if i >= |a| { assert (a + b)[i] == b[i - |a|]; }
      }
    }
    if AllIn(a + b, p) {
      forall i | 0 <= i < |a| ensures p(a[i]) { assert a[i] == (a + b)[i]; }
      forall i | 0 <= i < |b| ensures p(b[i]) { assert b[i] == (a + b)[|a| + i]; }
    }
  }

  /** `s.strip()`: leading and trailing whitespace removed. */
  function Strip(s: string): (r: string)
    ensures |r| <= |s|
    ensures r == [] || (!IsSpace(r[0]) && !IsSpace(r[|r| - 1]))
    decreases |s|
  {
    if s != [] && IsSpace(s[0]) then Strip(s[1..])
    else if s != [] && IsSpace(s[|s| - 1]) then Strip(s[..|s| - 1])
    else s
  }

  /** `s.strip()` is `s.strip(chars)` with the whitespace class. */
  lemma {:induction false} StripIsStripChars(s: string)
    ensures Strip(s) == StripChars(s, IsSpace)
    decreases |s|
  {
    if s != [] && IsSpace(s[0]) {
      StripIsStripChars(s[1..]);
    } else if s != [] && IsSpace(s[|s| - 1]) {
      var t := s[..|s| - 1];
      StripIsStripChars(t);
      assert t != [] && t[0] == s[0];
    }
  }

  /** Stripping removes only whitespace: erasing a class that holds it, nothing changes. */
  lemma StripKeepsNonSpace(s: string, q: char -> bool)
    requires SubClass(IsSpace, q)
    ensures Erase(Strip(s), q) == Erase(s, q)
  {
    StripIsStripChars(s);
    StripKeepsOthers(s, IsSpace, q);
  }

  /** Stripping never creates a run. */
  lemma StripKeepsRunsBelowSpace(s: string, p: char -> bool, n: nat)
    requires RunsBelow(s, p, n)
    ensures RunsBelow(Strip(s), p, n)
  {
    StripIsStripChars(s);
    StripKeepsRunsBelow(s, IsSpace, p, n);
  }

  // ---------------------------------------------------------------------------
  // Runs of a character class and the substitution re.sub(C{m,}, rep, s)
  // ---------------------------------------------------------------------------

  /** Length of the run of class characters at the front of `s`. */
  function RunLen(s: string, p: char -> bool): (n: nat)
    ensures n <= |s|
    ensures AllIn(s[..n], p)
    ensures n == |s| || !p(s[n])
    ensures s != [] && p(s[0]) ==> n >= 1
  {
    if s != [] && p(s[0]) then 1 + RunLen(s[1..], p) else 0
  }

  /**
    `re.sub(C{minLen,}, rep, s)` for a character class C: scanning left to right,
    every maximal run of at least `minLen` class characters becomes `rep`; shorter
    runs and all other characters are copied.
  */
  function ReplaceRuns(s: string, p: char -> bool, minLen: nat, rep: string): string
    requires minLen >= 1
    decreases |s|
  {
    if s == [] then []
    else if p(s[0]) then
      var n := RunLen(s, p);
      (if n >= minLen then rep else s[..n]) + ReplaceRuns(s[n..], p, minLen, rep)
    else [s[0]] + ReplaceRuns(s[1..], p, minLen, rep)
  }

  /** `s` holds no run of `n` or more consecutive characters of class `p`. */
  predicate RunsBelow(s: string, p: char -> bool, n: nat)
    decreases |s|
  {
    s == [] ||
    if p(s[0]) then RunLen(s, p) < n && RunsBelow(s[RunLen(s, p)..], p, n)
    else RunsBelow(s[1..], p, n)
  }

  /** `s` with every character of class `p` removed. */
  function Erase(s: string, p: char -> bool): (r: string)
    ensures NoneIn(r, p)
    ensures |r| <= |s|
  {
    if s == [] then []
    else (if p(s[0]) then [] else [s[0]]) + Erase(s[1..], p)
  }

  lemma {:induction false} EraseConcat(a: string, b: string, p: char -> bool)
    ensures Erase(a + b, p) == Erase(a, p) + Erase(b, p)
  {
    if a != [] {
      var head := if p(a[0]) then [] else [a[0]];
      assert Erase(a + b, p) == head + Erase(a[1..] + b, p) by {
        assert (a + b)[0] == a[0] && (a + b)[1..] == a[1..] + b;
      }
      EraseConcat(a[1..], b, p);
      var t, u := Erase(a[1..], p), Erase(b, p);
      assert head + (t + u) == (head + t) + u;
    } else {
      assert a + b == b;
    }
  }

  lemma {:induction false} EraseAllIn(a: string, p: char -> bool)
    requires AllIn(a, p)
    ensures Erase(a, p) == []
  {
    if a != [] {
      EraseAllIn(a[1..], p);
    }
  }

  lemma RunLenOfConcat(a: string, b: string, p: char -> bool)
    requires AllIn(a, p)
    requires b == [] || !p(b[0])
    ensures RunLen(a + b, p) == |a|
    decreases |a|
  {
    if a != [] {
      assert (a + b)[1..] == a[1..] + b;
      RunLenOfConcat(a[1..], b, p);
    }
  }

  /** A short run of class characters in front of a text with no long runs that starts elsewhere. */
  lemma RunsBelowPrependRun(a: string, b: string, p: char -> bool, n: nat)
    requires AllIn(a, p) && |a| < n
    requires b == [] || !p(b[0])
    requires RunsBelow(b, p, n)
    ensures RunsBelow(a + b, p, n)
  {
    if a != [] {
      RunLenOfConcat(a, b, p);
      assert (a + b)[|a|..] == b;
    } else {
      assert a + b == b;
    }
  }

  /** Characters outside the class in front of `b` do not change whether `b` has long runs. */
  lemma {:induction false} RunsBelowPrependOther(a: string, b: string, p: char -> bool, n: nat)
    requires NoneIn(a, p)
    ensures RunsBelow(a + b, p, n) <==> RunsBelow(b, p, n)
  {
    if a != [] {
      assert (a + b)[1..] == a[1..] + b;
      RunsBelowPrependOther(a[1..], b, p, n);
    } else {
      assert a + b == b;
    }
  }

  lemma {:induction false} RunsBelowSuffix(s: string, p: char -> bool, n: nat, i: nat)
    requires RunsBelow(s, p, n) && i <= |s|
    ensures RunsBelow(s[i..], p, n)
    decreases i
  {
    if i > 0 {
      RunsBelowSuffix(s, p, n, i - 1);
      var t := s[i - 1..];
      assert t[1..] == s[i..];
      if p(t[0]) {
        var k := RunLen(t, p);
        assert t[..k] == [t[0]] + t[1..][..k - 1];
        RunLenOfConcat(t[1..][..k - 1], t[k..], p);
        assert t[1..] == t[1..][..k - 1] + t[k..];
        assert t[1..][k - 1..] == t[k..];
      }
    }
  }

  lemma {:induction false} RunsBelowPrefix(s: string, p: char -> bool, n: nat, j: nat)
    requires RunsBelow(s, p, n) && j <= |s|
    ensures RunsBelow(s[..j], p, n)
    decreases |s|
  {
    if j > 0 {
      var t := s[..j];
      if p(s[0]) {
        var k := RunLen(s, p);
        if j <= k {
          RunLenOfConcat(t, [], p);
          assert t + [] == t;
          assert t[|t|..] == [];
        } else {
          assert t == s[..k] + s[k..][..j - k];
          assert s[k..][..j - k] == [] || !p(s[k..][..j - k][0]);
          RunsBelowPrefix(s[k..], p, n, j - k);
          RunsBelowPrependRun(s[..k], s[k..][..j - k], p, n);
        }
      } else {
        assert t[1..] == s[1..][..j - 1];
        RunsBelowPrefix(s[1..], p, n, j - 1);
      }
    }
  }

  /** Stripping never creates a run. */
  lemma StripKeepsRunsBelow(s: string, q: char -> bool, p: char -> bool, n: nat)
    requires RunsBelow(s, p, n)
    ensures RunsBelow(StripChars(s, q), p, n)
  {
    var l := StripLeft(s, q);
    RunsBelowSuffix(s, p, n, |s| - |l|);
    RunsBelowPrefix(l, p, n, |StripRight(l, q)|);
  }

  /** Class characters in front of a text vanish when erased. */
  lemma EraseClassPrefix(a: string, b: string, p: char -> bool, q: char -> bool)
    requires AllIn(a, p) && SubClass(p, q)
    ensures Erase(a + b, q) == Erase(b, q)
  {
    EraseConcat(a, b, q);
    AllInSubClass(a, p, q);
    EraseAllIn(a, q);
  }

  /** Class characters after a text vanish when erased. */
  lemma EraseClassSuffix(a: string, b: string, p: char -> bool, q: char -> bool)
    requires AllIn(b, p) && SubClass(p, q)
    ensures Erase(a + b, q) == Erase(a, q)
  {
    EraseConcat(a, b, q);
    AllInSubClass(b, p, q);
    EraseAllIn(b, q);
    assert Erase(a, q) + [] == Erase(a, q);
  }

  /** Stripping class-`p` characters, with `p` inside `q`, removes only class-`q` characters. */
  lemma StripKeepsOthers(s: string, p: char -> bool, q: char -> bool)
    requires SubClass(p, q)
    ensures Erase(StripChars(s, p), q) == Erase(s, q)
  {
    var l := StripLeft(s, p);
    var r := StripRight(l, p);
    StripCharsIs(s, p);
    StripLeftSplits(s, p);
    StripRightSplits(l, p);
    EraseClassPrefix(s[..|s| - |l|], l, p, q);
    EraseClassSuffix(r, l[|r|..], p, q);
  }

  lemma StripCharsIs(s: string, p: char -> bool)
    ensures StripChars(s, p) == StripRight(StripLeft(s, p), p)
  {
  }

  /** `s` is the prefix `lstrip` removes followed by what it keeps. */
  lemma StripLeftSplits(s: string, p: char -> bool)
    ensures s == s[..|s| - |StripLeft(s, p)|] + StripLeft(s, p)
  {
  }

  /** `s` is what `rstrip` keeps followed by the suffix it removes. */
  lemma StripRightSplits(s: string, p: char -> bool)
    ensures s == StripRight(s, p) + s[|StripRight(s, p)|..]
  {
  }

  lemma NoneInConcat(a: string, b: string, p: char -> bool)
    requires NoneIn(a, p) && NoneIn(b, p)
    ensures NoneIn(a + b, p)
  {
    forall i | 0 <= i < |a + b| ensures !p((a + b)[i]) {
      if i >= |a| { assert (a + b)[i] == b[i - |a|]; }
    }
  }

  /** Characters outside the class are copied by the substitution. */
  lemma {:induction false} ReplaceRunsCopies(a: string, b: string, p: char -> bool, minLen: nat, rep: string)
    requires minLen >= 1 && NoneIn(a, p)
    ensures ReplaceRuns(a + b, p, minLen, rep) == a + ReplaceRuns(b, p, minLen, rep)
  {
    if a != [] {
      assert (a + b)[1..] == a[1..] + b;
      ReplaceRunsCopies(a[1..], b, p, minLen, rep);
    } else {
      assert a + b == b;
    }
  }

  /** The substitution keeps the class of the first character. */
  lemma ReplaceRunsHead(s: string, p: char -> bool, minLen: nat, rep: string)
    requires minLen >= 1 && rep != [] && AllIn(rep, p) && s != []
    ensures ReplaceRuns(s, p, minLen, rep) != []
    ensures p(s[0]) ==> p(ReplaceRuns(s, p, minLen, rep)[0])
    ensures !p(s[0]) ==> ReplaceRuns(s, p, minLen, rep)[0] == s[0]
  {
  }

  /**
    With a replacement of fewer than `n` class characters and a threshold of at
    most `n`, the substitution leaves no run of `n` class characters.
  */
  lemma {:induction false} ReplaceRunsBound(s: string, p: char -> bool, minLen: nat, rep: string, n: nat)
    requires 1 <= minLen <= n
    requires AllIn(rep, p) && |rep| < n
    ensures RunsBelow(ReplaceRuns(s, p, minLen, rep), p, n)
    decreases |s|
  {
    var r := ReplaceRuns(s, p, minLen, rep);
    if s == [] {
    } else if p(s[0]) {
      var k := RunLen(s, p);
      var piece := if k >= minLen then rep else s[..k];
      var rest := s[k..];
      ReplaceRunsBound(rest, p, minLen, rep, n);
      var tail := ReplaceRuns(rest, p, minLen, rep);
      assert rest != [] ==> tail[0] == rest[0];
      RunsBelowPrependRun(piece, tail, p, n);
    } else {
      ReplaceRunsBound(s[1..], p, minLen, rep, n);
      RunsBelowPrependOther([s[0]], ReplaceRuns(s[1..], p, minLen, rep), p, n);
    }
  }

  /**
    Replacing runs of one class by a non-empty text of that class cannot join or
    lengthen the runs of a disjoint class.
  */
  lemma {:induction false} ReplaceRunsKeepsOtherRuns(s: string, p: char -> bool, minLen: nat, rep: string,
                                                     q: char -> bool, n: nat)
    requires minLen >= 1 && rep != [] && AllIn(rep, p)
    requires forall c :: p(c) ==> !q(c)
    requires RunsBelow(s, q, n)
    ensures RunsBelow(ReplaceRuns(s, p, minLen, rep), q, n)
    decreases |s|
  {
    if s == [] {
    } else if p(s[0]) {
      var k := RunLen(s, p);
      var piece := if k >= minLen then rep else s[..k];
      var rest := s[k..];
      assert s == s[..k] + rest;
      RunsBelowPrependOther(s[..k], rest, q, n);
      ReplaceRunsKeepsOtherRuns(rest, p, minLen, rep, q, n);
      RunsBelowPrependOther(piece, ReplaceRuns(rest, p, minLen, rep), q, n);
    } else if !q(s[0]) {
      ReplaceRunsKeepsOtherRuns(s[1..], p, minLen, rep, q, n);
      RunsBelowPrependOther([s[0]], ReplaceRuns(s[1..], p, minLen, rep), q, n);
    } else {
      var k := RunLen(s, q);
      var rest := s[k..];
      assert s == s[..k] + rest;
      ReplaceRunsCopies(s[..k], rest, p, minLen, rep);
      ReplaceRunsKeepsOtherRuns(rest, p, minLen, rep, q, n);
      var tail := ReplaceRuns(rest, p, minLen, rep);
      if rest != [] {
        ReplaceRunsHead(rest, p, minLen, rep);
      }
      RunsBelowPrependRun(s[..k], tail, q, n);
    }
  }

  /** Every character of class `p` is also of class `q`. */
  predicate SubClass(p: char -> bool, q: char -> bool) {
    forall c :: p(c) ==> q(c)
  }

  lemma AllInSubClass(s: string, p: char -> bool, q: char -> bool)
    requires AllIn(s, p) && SubClass(p, q)
    ensures AllIn(s, q)
  {
    forall i | 0 <= i < |s| ensures q(s[i]) {
      assert p(s[i]);
    }
  }

  /**
    A substitution of runs of class-`p` characters by class-`q` characters, with
    `p` inside `q`, changes only class-`q` characters: erasing them, the text is
    the same before and after.
  */
  lemma {:induction false} ReplaceRunsKeepsOthers(s: string, p: char -> bool, minLen: nat, rep: string, q: char -> bool)
    requires minLen >= 1 && SubClass(p, q) && AllIn(rep, q)
    ensures Erase(ReplaceRuns(s, p, minLen, rep), q) == Erase(s, q)
    decreases |s|
  {
    if s == [] {
    } else if p(s[0]) {
      var k := RunLen(s, p);
      var piece := if k >= minLen then rep else s[..k];
      assert s == s[..k] + s[k..];
      AllInSubClass(s[..k], p, q);
      ReplaceRunsKeepsOthers(s[k..], p, minLen, rep, q);
      EraseConcat(piece, ReplaceRuns(s[k..], p, minLen, rep), q);
      EraseAllIn(piece, q);
      EraseConcat(s[..k], s[k..], q);
      EraseAllIn(s[..k], q);
    } else {
      ReplaceRunsKeepsOthers(s[1..], p, minLen, rep, q);
    }
  }

  // ---------------------------------------------------------------------------
  // Literal replacement: str.replace(pat, rep) and re.sub with a literal pattern
  // ---------------------------------------------------------------------------

  /** `s` holds `pat` at position `i`. */
  predicate OccursAt(s: string, pat: string, i: nat) {
    i + |pat| <= |s| && s[i..i + |pat|] == pat
  }

  /** Non-overlapping occurrences of `pat`, found left to right, each replaced by `rep`. */
  function ReplaceAll(s: string, pat: string, rep: string): string
    requires pat != []
    decreases |s|
  {
    if |s| < |pat| then s
    else if s[..|pat|] == pat then rep + ReplaceAll(s[|pat|..], pat, rep)
    else [s[0]] + ReplaceAll(s[1..], pat, rep)
  }

  /** Without an occurrence of the pattern, the text is unchanged. */
  lemma {:induction false} ReplaceAllAbsent(s: string, pat: string, rep: string)
    requires pat != [] && forall i: nat :: !OccursAt(s, pat, i)
    ensures ReplaceAll(s, pat, rep) == s
    decreases |s|
  {
    if |s| >= |pat| {
      assert !OccursAt(s, pat, 0);
      forall i: nat ensures !OccursAt(s[1..], pat, i) {
        if OccursAt(s[1..], pat, i) {
          assert s[1..][i..i + |pat|] == s[i + 1..i + 1 + |pat|];
          assert OccursAt(s, pat, i + 1);
        }
      }
      ReplaceAllAbsent(s[1..], pat, rep);
    }
  }

  /** Removing the pattern leaves no text shorter than before. */
  lemma {:induction false} RemoveAllShorter(s: string, pat: string)
    requires pat != []
    ensures |ReplaceAll(s, pat, "")| <= |s|
    decreases |s|
  {
    if |s| >= |pat| {
      if s[..|pat|] == pat {
        RemoveAllShorter(s[|pat|..], pat);
      } else {
        RemoveAllShorter(s[1..], pat);
      }
    }
  }

  /** A replacement of class-`q` text by class-`q` text changes only class-`q` characters. */
  lemma {:induction false} ReplaceAllKeepsOthers(s: string, pat: string, rep: string, q: char -> bool)
    requires pat != [] && AllIn(pat, q) && AllIn(rep, q)
    ensures Erase(ReplaceAll(s, pat, rep), q) == Erase(s, q)
    decreases |s|
  {
    if |s| < |pat| {
    } else if s[..|pat|] == pat {
      ReplaceAllKeepsOthers(s[|pat|..], pat, rep, q);
      EraseConcat(rep, ReplaceAll(s[|pat|..], pat, rep), q);
      EraseAllIn(rep, q);
      assert s == s[..|pat|] + s[|pat|..];
      EraseConcat(s[..|pat|], s[|pat|..], q);
      EraseAllIn(s[..|pat|], q);
    } else {
      ReplaceAllKeepsOthers(s[1..], pat, rep, q);
    }
  }

  // ---------------------------------------------------------------------------
  // Subsequences
  // ---------------------------------------------------------------------------

  /** `a` is a subsequence of `b`: it keeps some of `b`'s elements, in their order. */
  predicate IsSubseq<T(==)>(a: seq<T>, b: seq<T>)
    decreases |b|
  {
    a == [] || (b != [] && ((a[0] == b[0] && IsSubseq(a[1..], b[1..])) || IsSubseq(a, b[1..])))
  }

  lemma {:induction false} SubseqLength<T>(a: seq<T>, b: seq<T>)
    requires IsSubseq(a, b)
    ensures |a| <= |b|
    decreases |b|
  {
    if a != [] {
      if a[0] == b[0] && IsSubseq(a[1..], b[1..]) {
        SubseqLength(a[1..], b[1..]);
      } else {
        SubseqLength(a, b[1..]);
      }
    }
  }

  lemma {:induction false} SubseqSkip<T>(a: seq<T>, b: seq<T>, x: T)
    requires IsSubseq(a, b)
    ensures IsSubseq(a, [x] + b)
  {
    assert ([x] + b)[1..] == b;
  }

  lemma {:induction false} SubseqKeep<T>(a: seq<T>, b: seq<T>, x: T)
    requires IsSubseq(a, b)
    ensures IsSubseq([x] + a, [x] + b)
  {
    assert ([x] + b)[1..] == b;
    assert ([x] + a)[1..] == a;
  }

  /** Dropping elements at the end of the longer sequence keeps a subsequence. */
  lemma {:induction false} SubseqExtend<T>(a: seq<T>, b: seq<T>, c: seq<T>)
    requires IsSubseq(a, b)
    ensures IsSubseq(a, b + c)
    decreases |b|
  {
    if a != [] {
      assert (b + c)[0] == b[0] && (b + c)[1..] == b[1..] + c;
      if a[0] == b[0] && IsSubseq(a[1..], b[1..]) {
        SubseqExtend(a[1..], b[1..], c);
      } else {
        SubseqExtend(a, b[1..], c);
      }
    }
  }

  /** A sequence's last element is a subsequence of it. */
  lemma {:induction false} SubseqLast<T>(b: seq<T>, x: T)
    ensures IsSubseq([x], b + [x])
    decreases |b|
  {
    if b != [] {
      assert (b + [x])[1..] == b[1..] + [x];
      SubseqLast(b[1..], x);
    } else {
      assert ([x])[1..] == [];
    }
  }

  /** Appending the same element to both keeps a subsequence. */
  lemma {:induction false} SubseqSnoc<T>(a: seq<T>, b: seq<T>, x: T)
    requires IsSubseq(a, b)
    ensures IsSubseq(a + [x], b + [x])
    decreases |b|
  {
    if a == [] {
      SubseqLast(b, x);
      assert a + [x] == [x];
    } else {
      assert (b + [x])[0] == b[0] && (b + [x])[1..] == b[1..] + [x];
      assert (a + [x])[0] == a[0] && (a + [x])[1..] == a[1..] + [x];
      if a[0] == b[0] && IsSubseq(a[1..], b[1..]) {
        SubseqSnoc(a[1..], b[1..], x);
      } else {
        SubseqSnoc(a, b[1..], x);
      }
    }
  }

  // ---------------------------------------------------------------------------
  // Splitting and joining
  // ---------------------------------------------------------------------------

  /** `s.split("\n")`: always at least one piece, none containing a newline. */
  function Split(s: string): (r: seq<string>)
    ensures |r| >= 1
    ensures forall i :: 0 <= i < |r| ==> '\n' !in r[i]
  {
    if s == [] then [""]
    else if s[0] == '\n' then [""] + Split(s[1..])
    else
      var t := Split(s[1..]);
      [[s[0]] + t[0]] + t[1..]
  }

  /** `sep.join(parts)` */
  function Join(parts: seq<string>, sep: string): string {
    if parts == [] then ""
    else if |parts| == 1 then parts[0]
    else parts[0] + sep + Join(parts[1..], sep)
  }

  /** `"".join(parts)` */
  function Concat(parts: seq<string>): string {
    if parts == [] then "" else parts[0] + Concat(parts[1..])
  }

  lemma {:induction false} ConcatAppend(parts: seq<string>, last: string)
    ensures Concat(parts + [last]) == Concat(parts) + last
  {
    if parts != [] {
      assert (parts + [last])[1..] == parts[1..] + [last];
      ConcatAppend(parts[1..], last);
    }
  }

  lemma ConcatLast(parts: seq<string>)
    requires parts != []
    ensures Concat(parts) == Concat(parts[..|parts| - 1]) + parts[|parts| - 1]
  {
    assert parts == parts[..|parts| - 1] + [parts[|parts| - 1]];
    ConcatAppend(parts[..|parts| - 1], parts[|parts| - 1]);
  }

  lemma Assoc3<T>(a: seq<T>, b: seq<T>, c: seq<T>)
    ensures (a + b) + c == a + (b + c)
  {
  }

  lemma Assoc4<T>(a: seq<T>, b: seq<T>, c: seq<T>, d: seq<T>)
    ensures a + b + c + d == a + (b + (c + d))
  {
  }

  /** Joining one more part adds the separator and the part, unless it is the first. */
  lemma {:induction false} JoinSnoc(parts: seq<string>, sep: string, x: string)
    ensures Join(parts + [x], sep) == if parts == [] then x else Join(parts, sep) + sep + x
  {
    if |parts| >= 2 {
      assert (parts + [x])[1..] == parts[1..] + [x];
      JoinSnoc(parts[1..], sep, x);
    } else if |parts| == 1 {
      assert (parts + [x])[1..] == [x];
    }
  }

  /** Leading whitespace does not survive stripping. */
  lemma {:induction false} StripSpacePrefix(pad: string, s: string)
    requires AllIn(pad, IsSpace)
    ensures Strip(pad + s) == Strip(s)
  {
    if pad != [] {
      assert IsSpace((pad + s)[0]) && (pad + s)[1..] == pad[1..] + s;
      assert AllIn(pad[1..], IsSpace) by {
        forall i | 0 <= i < |pad[1..]| ensures IsSpace(pad[1..][i]) { assert pad[1..][i] == pad[i + 1]; }
      }
      StripSpacePrefix(pad[1..], s);
    } else {
      assert pad + s == s;
    }
  }

  /** Joining the pieces of a split with newlines gives the text back. */
  lemma {:induction false} SplitJoin(s: string)
    ensures Join(Split(s), "\n") == s
  {
    if s != [] {
      SplitJoin(s[1..]);
      var t := Split(s[1..]);
      if s[0] != '\n' {
        if |t| == 1 {
        } else {
          assert ([[s[0]] + t[0]] + t[1..])[1..] == t[1..];
        }
      }
    }
  }

  /** A newline in the text separates the pieces of the parts before and after it. */
  lemma {:induction false} SplitAt(a: string, b: string)
    ensures Split(a + "\n" + b) == Split(a) + Split(b)
  {
    if a == [] {
      assert a + "\n" + b == "\n" + b;
      assert ("\n" + b)[1..] == b;
    } else {
      var s := a + "\n" + b;
      assert s[0] == a[0] && s[1..] == a[1..] + "\n" + b;
      SplitAt(a[1..], b);
    }
  }

  // ---------------------------------------------------------------------------
  // ASCII case mapping and word counting
  // ---------------------------------------------------------------------------

  predicate IsLower(c: char) {
    'a' <= c <= 'z'
  }

  predicate IsUpper(c: char) {
    'A' <= c <= 'Z'
  }

  function UpperChar(c: char): char {
    if IsLower(c) then (c as int - 'a' as int + 'A' as int) as char else c
  }

  function LowerChar(c: char): char {
    if IsUpper(c) then (c as int - 'A' as int + 'a' as int) as char else c
  }

  /** `s.upper()` restricted to ASCII letters. */
  function Upper(s: string): (r: string)
    ensures |r| == |s|
    ensures NoneIn(r, IsLower)
    ensures forall i :: 0 <= i < |s| && !IsLower(s[i]) ==> r[i] == s[i]
  {
    seq(|s|, i requires 0 <= i < |s| => UpperChar(s[i]))
  }

  /** Upper-casing leaves a stripped string stripped. */
  lemma UpperKeepsStripped(s: string)
    requires s == [] || (!IsSpace(s[0]) && !IsSpace(s[|s| - 1]))
    ensures var r := Upper(s); r == [] || (!IsSpace(r[0]) && !IsSpace(r[|r| - 1]))
  {
    if s != [] {
      var r := Upper(s);
      assert r[0] == UpperChar(s[0]) && r[|r| - 1] == UpperChar(s[|s| - 1]);
    }
  }

  /** `s.lower()` restricted to ASCII letters. */
  function Lower(s: string): (r: string)
    ensures |r| == |s|
    ensures NoneIn(r, IsUpper)
    ensures forall i :: 0 <= i < |s| && !IsUpper(s[i]) ==> r[i] == s[i]
  {
    seq(|s|, i requires 0 <= i < |s| => LowerChar(s[i]))
  }

  /** `len(s.split())`: the number of maximal runs of non-whitespace characters. */
  function WordCount(s: string): nat {
    if s == [] then 0
    else (if !IsSpace(s[0]) && (|s| == 1 || IsSpace(s[1])) then 1 else 0) + WordCount(s[1..])
  }
}
