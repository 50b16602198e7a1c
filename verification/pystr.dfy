/**
 * The Python `str` methods the test tool applies to keyboard input:
 * `strip()`, `upper()` and `replace(old, new)`.
 */
module PyStr {

  /** The characters for which Python's `str.isspace()` holds; `strip()` removes them. */
  predicate IsPySpace(c: char) {
    || '\t' <= c <= '\r'
    || '\U{001C}' <= c <= '\U{001F}'
    || c == ' '
    || c == '\U{0085}'
    || c == '\U{00A0}'
    || c == '\U{1680}'
    || '\U{2000}' <= c <= '\U{200A}'
    || c == '\U{2028}'
    || c == '\U{2029}'
    || c == '\U{202F}'
    || c == '\U{205F}'
    || c == '\U{3000}'
  }

  /**
   * `s.strip()`: whitespace is dropped from the front, then from the back, until neither
   * end is whitespace. The result is never longer than `s`.
   */
  function Strip(s: string): (r: string)
    ensures |r| <= |s|
    ensures |r| > 0 ==> !IsPySpace(r[0]) && !IsPySpace(r[|r| - 1])
    decreases |s|
  {
    if |s| == 0 then s
    else if IsPySpace(s[0]) then Strip(s[1..])
    else if IsPySpace(s[|s| - 1]) then Strip(s[..|s| - 1])
    else s
  }

  /** `s.strip()` is empty exactly when `s` is all whitespace. */
  lemma {:induction false} StripEmpty(s: string)
    ensures |Strip(s)| == 0 <==> forall k :: 0 <= k < |s| ==> IsPySpace(s[k])
    decreases |s|
  {
    if |s| > 0 && IsPySpace(s[0]) {
      StripEmpty(s[1..]);
      assert forall k :: 1 <= k < |s| ==> s[k] == s[1..][k - 1];
    } else if |s| > 0 && IsPySpace(s[|s| - 1]) {
      StripEmpty(s[..|s| - 1]);
      assert s[..|s| - 1][0] == s[0];
    }
  }

  /** Everything of `s` before index `i` and from index `j` on is whitespace. */
  predicate OuterSpace(s: string, i: int, j: int) {
    && 0 <= i <= j <= |s|
    && (forall k :: 0 <= k < i ==> IsPySpace(s[k]))
    && (forall k :: j <= k < |s| ==> IsPySpace(s[k]))
  }

  /** Whitespace in front of `s[1..]`'s outer whitespace is outer whitespace of `s`. */
  lemma OuterSpaceFront(s: string, i: int, j: int)
    requires |s| > 0 && IsPySpace(s[0]) && OuterSpace(s[1..], i, j)
    ensures OuterSpace(s, i + 1, j + 1) && s[1..][i..j] == s[i + 1..j + 1]
  {
    assert forall k :: 1 <= k < |s| ==> s[k] == s[1..][k - 1];
  }

  /** Whitespace behind `s[..|s| - 1]`'s outer whitespace is outer whitespace of `s`. */
  lemma OuterSpaceBack(s: string, i: int, j: int)
    requires |s| > 0 && IsPySpace(s[|s| - 1]) && OuterSpace(s[..|s| - 1], i, j)
    ensures OuterSpace(s, i, j) && s[..|s| - 1][i..j] == s[i..j]
  {
    assert forall k :: 0 <= k < |s| - 1 ==> s[k] == s[..|s| - 1][k];
  }

  /**
   * `s.strip()` is the piece of `s` left once its leading and trailing whitespace is cut
   * off: everything before the piece and everything after it is whitespace.
   */
  lemma {:induction false} StripSlice(s: string)
    ensures exists i, j :: OuterSpace(s, i, j) && Strip(s) == s[i..j]
    decreases |s|
  {
    if |s| == 0 {
      assert OuterSpace(s, 0, 0) && Strip(s) == s[0..0];
    } else if IsPySpace(s[0]) {
      StripSlice(s[1..]);
      var i, j :| OuterSpace(s[1..], i, j) && Strip(s[1..]) == s[1..][i..j];
      OuterSpaceFront(s, i, j);
      assert OuterSpace(s, i + 1, j + 1) && Strip(s) == s[i + 1..j + 1];
    } else if IsPySpace(s[|s| - 1]) {
      StripSlice(s[..|s| - 1]);
      var i, j :| OuterSpace(s[..|s| - 1], i, j) && Strip(s[..|s| - 1]) == s[..|s| - 1][i..j];
      OuterSpaceBack(s, i, j);
      assert OuterSpace(s, i, j) && Strip(s) == s[i..j];
    } else {
      assert OuterSpace(s, 0, |s|) && Strip(s) == s[0..|s|];
    }
  }

  /** Stripping twice is stripping once: the result has no whitespace left at either end. */
  lemma StripIdempotent(s: string)
    ensures Strip(Strip(s)) == Strip(s)
  {
  }

  /** `c.upper()` for the ASCII letters; every other character is kept. */
  function UpperChar(c: char): char {
    if 'a' <= c <= 'z' then (c as int - 'a' as int + 'A' as int) as char else c
  }

  /**
   * `s.upper()`, one character at a time: the same length, no lower-case ASCII letter left,
   * each lower-case letter replaced by its capital and every other character kept.
   */
  function Upper(s: string): (r: string)
    ensures |r| == |s|
    ensures forall i :: 0 <= i < |r| ==> !('a' <= r[i] <= 'z')
    ensures forall i :: 0 <= i < |s| && 'a' <= s[i] <= 'z' ==> r[i] as int == s[i] as int - 32
    ensures forall i :: 0 <= i < |s| && !('a' <= s[i] <= 'z') ==> r[i] == s[i]
  {
    seq(|s|, i requires 0 <= i < |s| => UpperChar(s[i]))
  }

  /** `pat` occurs at the front of `s`. */
  predicate StartsWith(s: string, pat: string)
    ensures StartsWith(s, pat) ==> |pat| <= |s|
    decreases |pat|
  {
    |pat| == 0 || (|s| > 0 && s[0] == pat[0] && StartsWith(s[1..], pat[1..]))
  }

  /**
   * `s.replace(pat, rep)`: every non-overlapping occurrence of `pat`, found left to right,
   * is replaced. A replacement no longer than the pattern never lengthens the string.
   */
  function ReplaceAll(s: string, pat: string, rep: string): (r: string)
    requires |pat| > 0
    ensures |rep| <= |pat| ==> |r| <= |s|
    decreases |s|
  {
    if |s| == 0 then s
    else if StartsWith(s, pat) then rep + ReplaceAll(s[|pat|..], pat, rep)
    else [s[0]] + ReplaceAll(s[1..], pat, rep)
  }

  /** Upper-casing works piece by piece. */
  lemma UpperConcat(a: string, b: string)
    ensures Upper(a + b) == Upper(a) + Upper(b)
  {
  }

  /** Upper-casing twice is upper-casing once. */
  lemma UpperIdempotent(s: string)
    ensures Upper(Upper(s)) == Upper(s)
  {
    assert forall i :: 0 <= i < |s| ==> UpperChar(UpperChar(s[i])) == UpperChar(s[i]);
  }

  /** A string with no ASCII lower-case letter is its own upper case. */
  lemma UpperFixesNonLower(s: string)
    requires forall i :: 0 <= i < |s| ==> !('a' <= s[i] <= 'z')
    ensures Upper(s) == s
  {
  }

  /** An occurrence at the front matches `pat` character by character. */
  lemma {:induction false} StartsWithAt(s: string, pat: string)
    requires StartsWith(s, pat)
    ensures |pat| <= |s| && forall i :: 0 <= i < |pat| ==> s[i] == pat[i]
    decreases |pat|
  {
    if |pat| > 0 {
      StartsWithAt(s[1..], pat[1..]);
      assert forall i :: 1 <= i < |pat| ==> s[i] == s[1..][i - 1] && pat[i] == pat[1..][i - 1];
    }
  }

  /** Every string starts with itself. */
  lemma {:induction false} StartsWithPrefix(pat: string, rest: string)
    ensures StartsWith(pat + rest, pat)
    decreases |pat|
  {
    if |pat| > 0 {
      StartsWithPrefix(pat[1..], rest);
      assert (pat + rest)[1..] == pat[1..] + rest;
    }
  }

  /** A string in which some character of `pat` never occurs holds no occurrence to replace. */
  lemma {:induction false} ReplaceAllAbsent(s: string, pat: string, rep: string, k: nat)
    requires |pat| > 0 && k < |pat|
    requires forall i :: 0 <= i < |s| ==> s[i] != pat[k]
    ensures ReplaceAll(s, pat, rep) == s
    decreases |s|
  {
    if |s| > 0 {
      if k < |s| {
        StartsWithMismatch(s, pat, k);
      }
      ReplaceAllAbsent(s[1..], pat, rep, k);
      assert [s[0]] + s[1..] == s;
    }
  }

  /**
   * Deleting a single character `c` keeps every other character with its multiplicity,
   * and leaves no `c` behind.
   */
  lemma {:induction false} RemoveCharSpec(s: string, c: char)
    ensures forall i :: 0 <= i < |ReplaceAll(s, [c], [])| ==> ReplaceAll(s, [c], [])[i] != c
    ensures multiset(ReplaceAll(s, [c], [])) == multiset(s)[c := 0]
    decreases |s|
  {
    if |s| > 0 {
      RemoveCharSpec(s[1..], c);
      assert s == [s[0]] + s[1..];
      assert multiset(s) == multiset{s[0]} + multiset(s[1..]);
      assert StartsWith(s, [c]) <==> s[0] == c;
    }
  }

  /** A deletion (`rep` empty) keeps only characters of `s`. */
  lemma {:induction false} DeleteKeepsCharacters(s: string, pat: string)
    requires |pat| > 0
    ensures forall i :: 0 <= i < |ReplaceAll(s, pat, [])| ==> ReplaceAll(s, pat, [])[i] in s
    decreases |s|
  {
    if |s| > 0 {
      if StartsWith(s, pat) {
        DeleteKeepsCharacters(s[|pat|..], pat);
        assert forall x :: x in s[|pat|..] ==> x in s;
        assert ReplaceAll(s, pat, []) == ReplaceAll(s[|pat|..], pat, []);
      } else {
        DeleteKeepsCharacters(s[1..], pat);
        assert forall x :: x in s[1..] ==> x in s;
      }
    }
  }

  /** An occurrence at the front is replaced, and the search resumes after it. */
  lemma ReplaceAllAtFront(pat: string, rest: string, rep: string)
    requires |pat| > 0
    ensures ReplaceAll(pat + rest, pat, rep) == rep + ReplaceAll(rest, pat, rep)
  {
    StartsWithPrefix(pat, rest);
    assert (pat + rest)[|pat|..] == rest;
  }

  /** A string that differs from `pat` at some position does not start with `pat`. */
  lemma StartsWithMismatch(s: string, pat: string, k: nat)
    requires k < |pat| && k < |s| && s[k] != pat[k]
    ensures !StartsWith(s, pat)
  {
    if StartsWith(s, pat) {
      StartsWithAt(s, pat);
    }
  }

  /** A character that does not open an occurrence is kept, and the search moves on. */
  lemma ReplaceAllMiss(x: char, rest: string, pat: string, rep: string)
    requires |pat| > 0 && !StartsWith([x] + rest, pat)
    ensures ReplaceAll([x] + rest, pat, rep) == [x] + ReplaceAll(rest, pat, rep)
  {
    assert ([x] + rest)[0] == x;
    assert ([x] + rest)[1..] == rest;
  }

  /** A lone occurrence of a one-character pattern is deleted entirely. */
  lemma RemoveCharSelf(c: char)
    ensures ReplaceAll([c], [c], []) == []
  {
    assert StartsWith([c], [c]);
    assert [c][1..] == [];
  }

  /** Deleting a single character works piece by piece: no occurrence spans two pieces. */
  lemma {:induction false} RemoveCharConcat(a: string, b: string, c: char)
    ensures ReplaceAll(a + b, [c], []) == ReplaceAll(a, [c], []) + ReplaceAll(b, [c], [])
    decreases |a|
  {
    if |a| == 0 {
      assert a + b == b;
    } else {
      RemoveCharConcat(a[1..], b, c);
      assert (a + b)[1..] == a[1..] + b;
      assert StartsWith(a + b, [c]) <==> a[0] == c;
      assert StartsWith(a, [c]) <==> a[0] == c;
    }
  }
}
