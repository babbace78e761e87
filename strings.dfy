/**
 * The Python string operations the scaffolder relies on: `str.replace`,
 * `str.split`, `str.join`, `str.endswith`, the substring test `x in s` and
 * `os.path.basename`, on strings as sequences of characters.
 */
module Strings {

  /** Python's `pat in s`: `pat` occurs in `s` as a contiguous substring. */
  predicate Contains(s: string, pat: string)
    decreases |s|
  {
    pat <= s || (s != [] && Contains(s[1..], pat))
  }

  /** Python's `s.endswith(suffix)`. */
  predicate EndsWith(s: string, suffix: string) {
    |suffix| <= |s| && s[|s| - |suffix|..] == suffix
  }

  /**
   * Python's `s.replace(pat, rep)` for a non-empty `pat`: scanning left to
   * right, every occurrence of `pat` that does not overlap an earlier
   * replaced one is replaced by `rep`.
   */
  function ReplaceAll(s: string, pat: string, rep: string): string
    requires pat != []
    decreases |s|
  {
    if s == [] then []
    else if pat <= s then rep + ReplaceAll(s[|pat|..], pat, rep)
    else [s[0]] + ReplaceAll(s[1..], pat, rep)
  }

  /** Python's `s.split(sep)` for a non-empty separator. */
  function Split(s: string, sep: string): (parts: seq<string>)
    requires sep != []
    ensures |parts| >= 1
    decreases |s|
  {
    if s == [] then [[]]
    else if sep <= s then [[]] + Split(s[|sep|..], sep)
    else
      var rest := Split(s[1..], sep);
      [[s[0]] + rest[0]] + rest[1..]
  }

  /** Python's `sep.join(parts)`. */
  function Join(parts: seq<string>, sep: string): string
    decreases |parts|
  {
    if parts == [] then []
    else if |parts| == 1 then parts[0]
    else parts[0] + sep + Join(parts[1..], sep)
  }

  /** Python's `os.path.basename(p)`: what follows the last `/`. */
  function Basename(p: string): string
    decreases |p|
  {
    if p == [] then []
    else if p[|p| - 1] == '/' then []
    else Basename(p[..|p| - 1]) + [p[|p| - 1]]
  }

  /**
   * The basename is the end of the path and holds no `/`; it is the whole
   * path or is preceded by a `/`.
   */
  lemma {:induction false} BasenameIsLastComponent(p: string)
    ensures '/' !in Basename(p)
    ensures EndsWith(p, Basename(p))
    ensures Basename(p) == p || p[|p| - |Basename(p)| - 1] == '/'
    decreases |p|
  {
    if p != [] && p[|p| - 1] != '/' {
      var n := |p|;
      var c := p[n - 1];
      var init := p[..n - 1];
      BasenameIsLastComponent(init);
      var b := Basename(init);
      var k := n - 1 - |b|;
      assert Basename(p) == b + [c];
      assert init[k..] == b;
      assert p[k..] == b + [c] by {
        assert p[k..] == init[k..] + [c];
      }
      if b != init {
        assert p[k - 1] == init[k - 1];
      } else {
        assert p == init + [c];
      }
    }
  }

  /** A helper fact: joining a part glued to the front of the first part. */
  lemma {:induction false} JoinConsFirst(c: char, parts: seq<string>, sep: string)
    requires |parts| >= 1
    ensures Join([[c] + parts[0]] + parts[1..], sep) == [c] + Join(parts, sep)
  {
    var glued := [[c] + parts[0]] + parts[1..];
    assert glued[0] == [c] + parts[0];
    assert glued[1..] == parts[1..];
  }

  /**
   * The replacement is the reference definition `rep.join(s.split(pat))`:
   * `s` is cut at every occurrence of `pat` and the pieces are glued back
   * together with `rep`.
   */
  lemma {:induction false} ReplaceAllIsJoinOfSplit(s: string, pat: string, rep: string)
    requires pat != []
    ensures ReplaceAll(s, pat, rep) == Join(Split(s, pat), rep)
    decreases |s|
  {
    if s == [] {
    } else if pat <= s {
      ReplaceAllIsJoinOfSplit(s[|pat|..], pat, rep);
      var rest := Split(s[|pat|..], pat);
      assert Split(s, pat) == [[]] + rest;
      assert ([[]] + rest)[1..] == rest;
    } else {
      ReplaceAllIsJoinOfSplit(s[1..], pat, rep);
      JoinConsFirst(s[0], Split(s[1..], pat), rep);
    }
  }

  /** Splitting at `sep` and joining with `sep` gives the string back. */
  lemma {:induction false} JoinSplitRoundTrip(s: string, sep: string)
    requires sep != []
    ensures Join(Split(s, sep), sep) == s
    decreases |s|
  {
    if s == [] {
    } else if sep <= s {
      JoinSplitRoundTrip(s[|sep|..], sep);
      JoinSplitAtSeparator(s, sep);
    } else {
      JoinSplitRoundTrip(s[1..], sep);
      JoinSplitAtCharacter(s, sep);
    }
  }

  /** The round trip over a string that starts with the separator, from the one over the rest. */
  lemma {:induction false} JoinSplitAtSeparator(s: string, sep: string)
    requires sep != [] && sep <= s
    requires Join(Split(s[|sep|..], sep), sep) == s[|sep|..]
    ensures Join(Split(s, sep), sep) == s
  {
    var t := s[|sep|..];
    var rest := Split(t, sep);
    assert s == s[..|sep|] + t;
    assert s[..|sep|] == sep;
    assert Split(s, sep) == [[]] + rest;
    assert ([[]] + rest)[1..] == rest;
  }

  /** The round trip over a string that does not start with the separator, from the one over its tail. */
  lemma {:induction false} JoinSplitAtCharacter(s: string, sep: string)
    requires sep != [] && s != [] && !(sep <= s)
    requires Join(Split(s[1..], sep), sep) == s[1..]
    ensures Join(Split(s, sep), sep) == s
  {
    var rest := Split(s[1..], sep);
    assert Split(s, sep) == [[s[0]] + rest[0]] + rest[1..];
    JoinConsFirst(s[0], rest, sep);
    assert Join(Split(s, sep), sep) == [s[0]] + s[1..];
    assert [s[0]] + s[1..] == s;
  }

  /** The first piece of a split is a prefix of the string. */
  lemma {:induction false} SplitHeadIsPrefix(s: string, sep: string)
    requires sep != []
    ensures Split(s, sep)[0] <= s
    decreases |s|
  {
    if s != [] && !(sep <= s) {
      SplitHeadIsPrefix(s[1..], sep);
    }
  }

  /** No piece of a split still contains the separator: every occurrence was cut. */
  lemma {:induction false} SplitPiecesAvoidSeparator(s: string, sep: string)
    requires sep != []
    ensures forall i :: 0 <= i < |Split(s, sep)| ==> !Contains(Split(s, sep)[i], sep)
    decreases |s|
  {
    if s == [] {
      assert Split(s, sep) == [[]];
    } else if sep <= s {
      SplitPiecesAvoidSeparator(s[|sep|..], sep);
      var rest := Split(s[|sep|..], sep);
      assert Split(s, sep) == [[]] + rest;
      forall i | 0 <= i < |Split(s, sep)| ensures !Contains(Split(s, sep)[i], sep) {
        if i > 0 {
          assert Split(s, sep)[i] == rest[i - 1];
        }
      }
    } else {
      SplitPiecesAvoidSeparator(s[1..], sep);
      SplitHeadIsPrefix(s[1..], sep);
      var rest := Split(s[1..], sep);
      var head := [s[0]] + rest[0];
      assert Split(s, sep) == [head] + rest[1..];
      assert head <= s;
      assert head[1..] == rest[0];
      assert !Contains(head, sep);
      forall i | 0 <= i < |Split(s, sep)| ensures !Contains(Split(s, sep)[i], sep) {
        if i > 0 {
          assert Split(s, sep)[i] == rest[i];
        }
      }
    }
  }

  /** A string that does not contain `pat` is returned unchanged by the replacement. */
  lemma {:induction false} ReplaceAbsentIsIdentity(s: string, pat: string, rep: string)
    requires pat != []
    ensures !Contains(s, pat) ==> ReplaceAll(s, pat, rep) == s
    decreases |s|
  {
    if s != [] && !Contains(s, pat) {
      ReplaceAbsentIsIdentity(s[1..], pat, rep);
      assert s == [s[0]] + s[1..];
    }
  }

  /** A string containing `a + b` contains `a`. */
  lemma {:induction false} ContainsPrefixOfPattern(s: string, a: string, b: string)
    requires Contains(s, a + b)
    ensures Contains(s, a)
    decreases |s|
  {
    if a + b <= s {
      assert a <= s;
    } else {
      ContainsPrefixOfPattern(s[1..], a, b);
    }
  }

  /** A leading run without the pattern's first character is copied through unchanged. */
  lemma {:induction false} ReplaceAllSkipsLiteralRun(a: string, b: string, pat: string, rep: string)
    requires pat != [] && pat[0] !in a
    ensures ReplaceAll(a + b, pat, rep) == a + ReplaceAll(b, pat, rep)
    decreases |a|
  {
    if a != [] {
      var s := a + b;
      assert s[0] == a[0] && s[1..] == a[1..] + b;
      assert !(pat <= s);
      assert ReplaceAll(s, pat, rep) == [s[0]] + ReplaceAll(s[1..], pat, rep);
      ReplaceAllSkipsLiteralRun(a[1..], b, pat, rep);
      assert a == [a[0]] + a[1..];
    } else {
      assert a + b == b;
    }
  }

  /** A string splits into two or more pieces exactly when it contains the separator. */
  lemma {:induction false} SplitCountsSeparator(s: string, sep: string)
    requires sep != []
    ensures Contains(s, sep) <==> |Split(s, sep)| >= 2
    decreases |s|
  {
    if s != [] && !(sep <= s) {
      SplitCountsSeparator(s[1..], sep);
    }
  }
}
