/**
 * The string operations the scripts rely on, written out as Python defines
 * them: `str.strip()`, `str.split(sep)`, the `in` substring test,
 * `str.endswith`, `str.replace(pattern, '')` and `os.path.basename`.
 */
module Text {

  /** Python's `str.isspace()` for one character. */
  predicate IsSpace(c: char)
  {
    || ('\U{0009}' <= c <= '\U{000D}')
    || ('\U{001C}' <= c <= '\U{0020}')
    || c == '\U{0085}' || c == '\U{00A0}' || c == '\U{1680}'
    || ('\U{2000}' <= c <= '\U{200A}')
    || c == '\U{2028}' || c == '\U{2029}' || c == '\U{202F}'
    || c == '\U{205F}' || c == '\U{3000}'
  }

  predicate AllSpace(s: string)
  {
    forall i :: 0 <= i < |s| ==> IsSpace(s[i])
  }

  /** Neither end of `s` is whitespace. */
  predicate Trimmed(s: string)
  {
    s == [] || (!IsSpace(s[0]) && !IsSpace(s[|s| - 1]))
  }

  /** How many whitespace characters `s` starts with. */
  function LeadingSpace(s: string): (n: nat)
    ensures n <= |s|
    ensures forall i :: 0 <= i < n ==> IsSpace(s[i])
    ensures n == |s| || !IsSpace(s[n])
  {
    if s == [] || !IsSpace(s[0]) then 0
    else
      var m := LeadingSpace(s[1..]);
      assert forall i :: 1 <= i <= m ==> IsSpace(s[i]) by {
        forall i | 1 <= i <= m ensures IsSpace(s[i]) {
          assert s[i] == s[1..][i - 1];
        }
      }
      assert m < |s| - 1 ==> s[m + 1] == s[1..][m];
      m + 1
  }

  /** How many whitespace characters `s` ends with. */
  function TrailingSpace(s: string): (n: nat)
    ensures n <= |s|
    ensures forall i :: |s| - n <= i < |s| ==> IsSpace(s[i])
    ensures n == |s| || !IsSpace(s[|s| - n - 1])
  {
    if s == [] || !IsSpace(s[|s| - 1]) then 0
    else
      var p := s[..|s| - 1];
      var m := TrailingSpace(p);
      assert forall i :: |p| - m <= i < |p| ==> IsSpace(s[i]) by {
        forall i | |p| - m <= i < |p| ensures IsSpace(s[i]) {
          assert s[i] == p[i];
        }
      }
      assert m < |p| ==> s[|s| - (m + 1) - 1] == p[|p| - m - 1];
      m + 1
  }

  /** `str.lstrip()`: drops the leading whitespace. */
  function StripLeft(s: string): (r: string)
    ensures |r| <= |s| && r == s[|s| - |r|..]
    ensures AllSpace(s[..|s| - |r|])
    ensures r == [] || !IsSpace(r[0])
  {
    s[LeadingSpace(s)..]
  }

  /** `str.rstrip()`: drops the trailing whitespace. */
  function StripRight(s: string): (r: string)
    ensures |r| <= |s| && r == s[..|r|]
    ensures AllSpace(s[|r|..])
    ensures r == [] || !IsSpace(r[|r| - 1])
  {
    s[..|s| - TrailingSpace(s)]
  }

  /** `str.strip()`: drops whitespace at both ends. */
  function Strip(s: string): string
  {
    StripRight(StripLeft(s))
  }

  lemma AllSpaceAppend(a: string, b: string)
    requires AllSpace(a) && AllSpace(b)
    ensures AllSpace(a + b)
  {
    forall i | 0 <= i < |a + b| ensures IsSpace((a + b)[i]) {
      if i >= |a| {
        assert (a + b)[i] == b[i - |a|];
      }
    }
  }

  /** Whitespace followed by text that does not start with whitespace: lstrip keeps exactly that text. */
  lemma {:induction false} StripLeftUnique(a: string, r: string)
    requires AllSpace(a) && (r == [] || !IsSpace(r[0]))
    ensures StripLeft(a + r) == r
  {
    var s := a + r;
    var n := LeadingSpace(s);
    assert forall i :: 0 <= i < |a| ==> s[i] == a[i];
    assert r != [] ==> s[|a|] == r[0];
    assert n == |a|;
    assert s[|a|..] == r;
  }

  /** Text that does not end with whitespace, followed by whitespace: rstrip keeps exactly that text. */
  lemma {:induction false} StripRightUnique(r: string, b: string)
    requires AllSpace(b) && (r == [] || !IsSpace(r[|r| - 1]))
    ensures StripRight(r + b) == r
  {
    var s := r + b;
    var n := TrailingSpace(s);
    assert forall i :: |r| <= i < |s| ==> s[i] == b[i - |r|];
    assert r != [] ==> s[|r| - 1] == r[|r| - 1];
    assert n == |b|;
    assert s[..|r|] == r;
  }

  /**
   * Whatever whitespace surrounds a trimmed core, stripping gives back
   * exactly that core: Strip is the unique such decomposition.
   */
  lemma {:induction false} StripRecoversCore(pre: string, core: string, post: string)
    requires AllSpace(pre) && AllSpace(post) && Trimmed(core)
    ensures Strip(pre + core + post) == core
  {
    if core == [] {
      assert pre + core + post == (pre + post) + [];
      AllSpaceAppend(pre, post);
      StripLeftUnique(pre + post, []);
      StripRightUnique([], []);
    } else {
      assert pre + core + post == pre + (core + post);
      assert (core + post)[0] == core[0];
      StripLeftUnique(pre, core + post);
      StripRightUnique(core, post);
    }
  }

  /** Stripping twice is stripping once. */
  lemma {:induction false} StripIdempotent(s: string)
    ensures Strip(Strip(s)) == Strip(s)
  {
    var r := Strip(s);
    assert Trimmed(r);
    StripRecoversCore([], r, []);
    assert [] + r + [] == r;
  }

  /** Index of the first occurrence of `c` in `s`. */
  function IndexOf(s: string, c: char): (i: nat)
    requires c in s
    ensures i < |s| && s[i] == c && c !in s[..i]
  {
    if s[0] == c then 0 else IndexOf(s[1..], c) + 1
  }

  /** `s.split(sep)` for a one-character separator. */
  function Split(s: string, sep: char): (parts: seq<string>)
    ensures |parts| >= 1
    ensures |parts| >= 2 <==> sep in s
    ensures forall k :: 0 <= k < |parts| ==> sep !in parts[k]
    decreases |s|
  {
    if sep !in s then [s]
    else
      var i := IndexOf(s, sep);
      [s[..i]] + Split(s[i + 1..], sep)
  }

  /** `sep.join(parts)`. */
  function Join(parts: seq<string>, sep: char): string
    requires |parts| >= 1
  {
    if |parts| == 1 then parts[0] else parts[0] + [sep] + Join(parts[1..], sep)
  }

  /** Split loses nothing: joining the parts with the separator gives `s` back. */
  lemma {:induction false} JoinSplit(s: string, sep: char)
    ensures Join(Split(s, sep), sep) == s
    decreases |s|
  {
    if sep in s {
      var i := IndexOf(s, sep);
      var parts := Split(s, sep);
      assert parts[1..] == Split(s[i + 1..], sep);
      JoinSplit(s[i + 1..], sep);
      assert s == s[..i] + [sep] + s[i + 1..];
    }
  }

  lemma {:induction false} IndexOfAfter(a: string, t: string, sep: char)
    requires sep !in a
    ensures sep in a + [sep] + t && IndexOf(a + [sep] + t, sep) == |a|
    decreases |a|
  {
    var s := a + [sep] + t;
    assert s[|a|] == sep;
    if a != [] {
      assert s[0] == a[0];
      assert s[1..] == a[1..] + [sep] + t;
      IndexOfAfter(a[1..], t, sep);
    }
  }

  lemma {:induction false} SplitAtFirst(a: string, t: string, sep: char)
    requires sep !in a
    ensures Split(a + [sep] + t, sep) == [a] + Split(t, sep)
  {
    var s := a + [sep] + t;
    IndexOfAfter(a, t, sep);
    assert s[..|a|] == a;
    assert s[|a| + 1..] == t;
  }

  /**
   * The second field of a split is the text between the first separator and
   * the next one (or the end): `a` and `b` hold no separator.
   */
  lemma {:induction false} SecondFieldBetweenSeparators(a: string, b: string, rest: string, sep: char)
    requires sep !in a && sep !in b
    requires rest == [] || rest[0] == sep
    ensures Split(a + [sep] + b + rest, sep)[1] == b
  {
    var t := b + rest;
    assert a + [sep] + b + rest == a + [sep] + t;
    SplitAtFirst(a, t, sep);
    FirstField(b, rest, sep);
  }

  /** The first field of a split is the text up to the first separator. */
  lemma {:induction false} FirstField(b: string, rest: string, sep: char)
    requires sep !in b
    requires rest == [] || rest[0] == sep
    ensures Split(b + rest, sep)[0] == b
  {
    if rest == [] {
      assert b + rest == b;
    } else {
      assert b + rest == b + [sep] + rest[1..];
      SplitAtFirst(b, rest[1..], sep);
    }
  }

  /** `s.startswith(prefix)`. */
  predicate StartsWith(s: string, prefix: string)
  {
    |prefix| <= |s| && s[..|prefix|] == prefix
  }

  /** Python's `sub in s`: `sub` occurs somewhere in `s`. */
  predicate Contains(s: string, sub: string)
    decreases |s|
  {
    StartsWith(s, sub) || (s != [] && Contains(s[1..], sub))
  }

  /** `s.endswith(suffix)`. */
  predicate EndsWith(s: string, suffix: string)
  {
    |suffix| <= |s| && s[|s| - |suffix|..] == suffix
  }

  /** Appending the same text to a string and to one of its suffixes keeps it a suffix. */
  lemma {:induction false} EndsWithAppend(s: string, suffix: string, tail: string)
    requires EndsWith(s, suffix)
    ensures EndsWith(s + tail, suffix + tail)
  {
    assert (s + tail)[|s + tail| - |suffix + tail|..] == s[|s| - |suffix|..] + tail;
  }

  /**
   * `s.replace(pat, '')`: deletes the non-overlapping occurrences of `pat`
   * found scanning left to right. An empty pattern leaves `s` unchanged, as
   * in Python.
   */
  function RemoveAll(s: string, pat: string): (r: string)
    ensures |r| <= |s|
    decreases |s|
  {
    if pat == [] || |s| < |pat| then s
    else if s[..|pat|] == pat then RemoveAll(s[|pat|..], pat)
    else [s[0]] + RemoveAll(s[1..], pat)
  }

  /** Removal changes the name exactly when the pattern occurs in it. */
  lemma {:induction false} RemoveAllUnchangedIff(s: string, pat: string)
    ensures RemoveAll(s, pat) == s <==> (pat == [] || !Contains(s, pat))
  {
    if pat != [] && Contains(s, pat) {
      RemoveAllShrinks(s, pat);
    } else {
      RemoveAllAbsent(s, pat);
    }
  }

  lemma {:induction false} RemoveAllAbsent(s: string, pat: string)
    requires pat == [] || !Contains(s, pat)
    ensures RemoveAll(s, pat) == s
    decreases |s|
  {
    if pat != [] && |s| >= |pat| {
      RemoveAllAbsent(s[1..], pat);
      assert s == [s[0]] + s[1..];
    }
  }

  lemma {:induction false} RemoveAllShrinks(s: string, pat: string)
    requires pat != [] && Contains(s, pat)
    ensures |RemoveAll(s, pat)| + |pat| <= |s|
    decreases |s|
  {
    if !StartsWith(s, pat) {
      RemoveAllShrinks(s[1..], pat);
    }
  }

  /** No occurrence of `pat` starts in `s` before position `n`. */
  predicate NoMatchBefore(s: string, pat: string, n: nat)
  {
    forall q :: 0 <= q < n && q <= |s| ==> !StartsWith(s[q..], pat)
  }

  /**
   * Removal cuts the pattern out at its first occurrence and goes on
   * scanning after it: with `RemoveAllAbsent`, this fixes the result on
   * every input.
   */
  lemma {:induction false} RemoveAllAtFirst(a: string, b: string, pat: string)
    requires pat != []
    requires NoMatchBefore(a + pat + b, pat, |a|)
    ensures RemoveAll(a + pat + b, pat) == a + RemoveAll(b, pat)
    decreases |a|
  {
    if a == [] {
      assert a + pat + b == pat + b;
      RemoveAllCutsAtStart(pat, b);
    } else {
      var s := a + pat + b;
      assert s[0..] == s;
      assert s[1..] == a[1..] + pat + b;
      NoMatchShift(s, pat, |a|);
      calc {
        RemoveAll(s, pat);
        == { RemoveAllKeepsHead(s, pat); }
        [s[0]] + RemoveAll(s[1..], pat);
        == { RemoveAllAtFirst(a[1..], b, pat); }
        [a[0]] + (a[1..] + RemoveAll(b, pat));
        == { assert a == [a[0]] + a[1..]; }
        a + RemoveAll(b, pat);
      }
    }
  }

  lemma {:induction false} RemoveAllCutsAtStart(pat: string, b: string)
    requires pat != []
    ensures RemoveAll(pat + b, pat) == RemoveAll(b, pat)
  {
    assert (pat + b)[..|pat|] == pat && (pat + b)[|pat|..] == b;
  }

  lemma {:induction false} RemoveAllKeepsHead(s: string, pat: string)
    requires pat != [] && s != [] && !StartsWith(s, pat)
    ensures RemoveAll(s, pat) == [s[0]] + RemoveAll(s[1..], pat)
  {
  }

  lemma {:induction false} NoMatchShift(s: string, pat: string, n: nat)
    requires s != [] && n >= 1 && NoMatchBefore(s, pat, n)
    ensures NoMatchBefore(s[1..], pat, n - 1)
  {
    forall q | 0 <= q < n - 1 && q <= |s[1..]| ensures !StartsWith(s[1..][q..], pat) {
      assert s[1..][q..] == s[q + 1..];
    }
  }

  /** The number of characters after the last '/' of `p`; all of `p` when it has none. */
  function NameLength(p: string): (n: nat)
    ensures n <= |p|
    ensures forall i :: |p| - n <= i < |p| ==> p[i] != '/'
    ensures n == |p| || p[|p| - n - 1] == '/'
  {
    if p == [] || p[|p| - 1] == '/' then 0
    else
      var q := p[..|p| - 1];
      var m := NameLength(q);
      assert forall i :: |q| - m <= i < |q| ==> p[i] != '/' by {
        forall i | |q| - m <= i < |q| ensures p[i] != '/' {
          assert p[i] == q[i];
        }
      }
      assert m < |q| ==> p[|p| - (m + 1) - 1] == q[|q| - m - 1];
      m + 1
  }

  /** `os.path.basename` on a POSIX path: the text after the last '/'. */
  function Basename(p: string): (b: string)
    ensures '/' !in b
  {
    p[|p| - NameLength(p)..]
  }

  /** The base name is the end of the path: all of it, or what follows its last '/'. */
  lemma {:induction false} BasenameIsLastComponent(p: string)
    ensures |Basename(p)| <= |p| && Basename(p) == p[|p| - |Basename(p)|..]
    ensures |Basename(p)| < |p| ==> p[|p| - |Basename(p)| - 1] == '/'
  {
  }
}
