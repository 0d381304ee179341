/** The JavaScript string operations the pipeline and the search code use:
    `trim`, `toLowerCase`, `toUpperCase`, `includes`, `join` and the
    string `||` fallback. */
module JsText {
  import opened Wrappers

  /** ECMAScript WhiteSpace and LineTerminator code points, the set that
      `String.prototype.trim` strips. */
  predicate IsWhitespace(c: char) {
    || c == '\t' || c == '\n' || c == '\U{000B}' || c == '\U{000C}' || c == '\r'
    || c == ' ' || c == '\U{00A0}' || c == '\U{1680}'
    || ('\U{2000}' <= c <= '\U{200A}')
    || c == '\U{2028}' || c == '\U{2029}' || c == '\U{202F}' || c == '\U{205F}'
    || c == '\U{3000}' || c == '\U{FEFF}'
  }

  /** Every character of `s` at an index in `[lo, hi)` is whitespace. */
  ghost predicate BlankBetween(s: string, lo: int, hi: int)
    requires 0 <= lo && hi <= |s|
  {
    forall k :: lo <= k < hi ==> IsWhitespace(s[k])
  }

  /** Drops the leading whitespace: the result is the suffix of `s` from
      the first non-whitespace character, and everything dropped was
      whitespace. */
  function TrimStart(s: string): (r: string)
    ensures |r| <= |s| && r == s[|s| - |r|..]
    ensures BlankBetween(s, 0, |s| - |r|)
    ensures |r| > 0 ==> !IsWhitespace(r[0])
  {
    if |s| > 0 && IsWhitespace(s[0]) then TrimStart(s[1..]) else s
  }

  /** Drops the trailing whitespace: the result is the prefix of `s` up to
      the last non-whitespace character, and everything dropped was
      whitespace. */
  function TrimEnd(s: string): (r: string)
    ensures |r| <= |s| && r == s[..|r|]
    ensures BlankBetween(s, |r|, |s|)
    ensures |r| > 0 ==> !IsWhitespace(r[|r| - 1])
  {
    if |s| > 0 && IsWhitespace(s[|s| - 1]) then TrimEnd(s[..|s| - 1]) else s
  }

  /** `String.prototype.trim`. */
  function Trim(s: string): string {
    TrimEnd(TrimStart(s))
  }

  /** The slice `s[i..j]` is the core of `s`: whitespace on both sides of
      it and, when it is not empty, a non-whitespace character at each end.
      `Trim` returns exactly that core. */
  ghost predicate IsCore(s: string, i: int, j: int) {
    && 0 <= i <= j <= |s|
    && BlankBetween(s, 0, i) && BlankBetween(s, j, |s|)
    && (i < j ==> !IsWhitespace(s[i]) && !IsWhitespace(s[j - 1]))
  }

  lemma TrimIsCore(s: string, i: int, j: int)
    requires IsCore(s, i, j)
    ensures Trim(s) == s[i..j]
  {
    var t := TrimStart(s);
    if i < j {
      assert |s| - |t| == i;
      var u := TrimEnd(t);
      assert t == s[i..];
      assert |u| == j - i;
    } else {
      assert |t| == 0;
    }
  }

  /** Every string has a core, and `Trim` returns it. */
  lemma TrimHasCore(s: string) returns (i: int, j: int)
    ensures IsCore(s, i, j) && Trim(s) == s[i..j]
  {
    var t := TrimStart(s);
    var u := TrimEnd(t);
    i := |s| - |t|;
    j := i + |u|;
    assert t == s[i..];
    assert u == s[i..j] by {
      assert u == t[..|u|];
    }
    assert BlankBetween(s, j, |s|) by {
      forall k | j <= k < |s| ensures IsWhitespace(s[k]) {
        assert s[k] == t[k - i];
      }
    }
    if i < j {
      assert s[i] == t[0] && s[j - 1] == u[|u| - 1];
    }
  }

  /** Padding `s` with whitespace moves its core by `|a|`, or makes it
      the empty core at 0 when `s` is blank. */
  lemma CoreOfPadded(a: string, s: string, b: string, i: int, j: int) returns (i': int, j': int)
    requires BlankBetween(a, 0, |a|) && BlankBetween(b, 0, |b|)
    requires IsCore(s, i, j)
    ensures IsCore(a + s + b, i', j') && (a + s + b)[i'..j'] == s[i..j]
  {
    var w := a + s + b;
    if i < j {
      i', j' := |a| + i, |a| + j;
    } else {
      i', j' := 0, 0;
    }
    forall k | 0 <= k < i' ensures IsWhitespace(w[k]) {
      if k >= |a| { assert w[k] == s[k - |a|]; } else { assert w[k] == a[k]; }
    }
    forall k | j' <= k < |w| ensures IsWhitespace(w[k]) {
      if k < |a| {
        assert w[k] == a[k];
      } else if k < |a| + |s| {
        assert w[k] == s[k - |a|];
      } else {
        assert w[k] == b[k - |a| - |s|];
      }
    }
    if i < j {
      assert w[i'] == s[i] && w[j' - 1] == s[j - 1];
      assert w[i'..j'] == s[i..j] by {
        forall k | 0 <= k < j - i ensures w[i'..j'][k] == s[i..j][k] {
          assert w[i' + k] == s[i + k];
        }
      }
    }
  }

  /** Padding a string with whitespace on either side does not change what
      `trim` returns. */
  lemma TrimIgnoresPadding(a: string, s: string, b: string)
    requires BlankBetween(a, 0, |a|) && BlankBetween(b, 0, |b|)
    ensures Trim(a + s + b) == Trim(s)
  {
    var i, j := TrimHasCore(s);
    var i', j' := CoreOfPadded(a, s, b, i, j);
    TrimIsCore(a + s + b, i', j');
  }

  /** `toLowerCase` on one character. Only the ASCII letters are mapped;
      every other character is left unchanged. */
  function LowerChar(c: char): char {
    if 'A' <= c <= 'Z' then (c as int + 32) as char else c
  }

  /** `toUpperCase` on one character, ASCII letters only. */
  function UpperChar(c: char): char {
    if 'a' <= c <= 'z' then (c as int - 32) as char else c
  }

  predicate IsUpperAscii(c: char) {
    'A' <= c <= 'Z'
  }

  /** `String.prototype.toLowerCase`, applied character by character. */
  function Lower(s: string): (r: string)
    ensures |r| == |s|
    ensures forall i :: 0 <= i < |s| ==> r[i] == LowerChar(s[i])
  {
    seq(|s|, i requires 0 <= i < |s| => LowerChar(s[i]))
  }

  /** `String.prototype.toUpperCase`, applied character by character. */
  function Upper(s: string): (r: string)
    ensures |r| == |s|
    ensures forall i :: 0 <= i < |s| ==> r[i] == UpperChar(s[i])
  {
    seq(|s|, i requires 0 <= i < |s| => UpperChar(s[i]))
  }

  /** A lower-cased string holds no upper-case letter, so lower-casing
      twice is lower-casing once. */
  lemma LowerIsIdempotent(s: string)
    ensures forall i :: 0 <= i < |s| ==> !IsUpperAscii(Lower(s)[i])
    ensures Lower(Lower(s)) == Lower(s)
  {
  }

  /** Upper-casing is idempotent: an upper-cased file name stays the same
      when upper-cased again. */
  lemma UpperIsIdempotent(s: string)
    ensures Upper(Upper(s)) == Upper(s)
  {
  }

  /** Upper-casing first loses nothing that lower-casing keeps: two strings
      that differ only in letter case lower-case to the same string. */
  lemma LowerOfUpper(s: string)
    ensures Lower(Upper(s)) == Lower(s)
  {
  }

  /** Case mapping never creates or removes whitespace, so trimming and
      lower-casing commute. */
  lemma LowerCommutesWithTrim(s: string)
    ensures Lower(Trim(s)) == Trim(Lower(s))
  {
    var i, j := TrimHasCore(s);
    var l := Lower(s);
    assert IsCore(l, i, j) by {
      forall k | 0 <= k < |s| && IsWhitespace(s[k]) ensures IsWhitespace(l[k]) {
        LowerCharKeepsBlank(s[k]);
      }
      if i < j {
        LowerCharKeepsBlank(s[i]);
        LowerCharKeepsBlank(s[j - 1]);
      }
    }
    TrimIsCore(l, i, j);
    LowerOfSlice(s, i, j);
  }

  lemma LowerOfSlice(s: string, i: int, j: int)
    requires 0 <= i <= j <= |s|
    ensures Lower(s[i..j]) == Lower(s)[i..j]
  {
  }

  /** Whitespace is not a letter: case mapping leaves it as it is and
      never turns a non-whitespace character into whitespace. */
  lemma LowerCharKeepsBlank(c: char)
    ensures IsWhitespace(LowerChar(c)) <==> IsWhitespace(c)
  {
  }

  /** `String.prototype.includes`: whether `t` occurs in `s` as a
      contiguous substring. */
  function Includes(s: string, t: string): bool
    decreases |s|
  {
    if |t| > |s| then false
    else if t <= s then true
    else Includes(s[1..], t)
  }

  /** Reference reading of `includes`: `t` occurs at position `i` of `s`. */
  ghost predicate OccursAt(s: string, t: string, i: int) {
    0 <= i && i + |t| <= |s| && s[i..i + |t|] == t
  }

  /** `t` occurs somewhere in `s`. */
  ghost predicate Occurs(s: string, t: string) {
    exists i :: OccursAt(s, t, i)
  }

  /** `Includes` answers yes exactly when `t` occurs somewhere in `s`. */
  lemma {:induction false} IncludesIffOccurs(s: string, t: string)
    ensures Includes(s, t) <==> Occurs(s, t)
    decreases |s|
  {
    if |t| > |s| {
      assert forall i :: !OccursAt(s, t, i);
    } else if t <= s {
      assert s[0..|t|] == t;
      assert OccursAt(s, t, 0);
    } else {
      IncludesIffOccurs(s[1..], t);
      if Includes(s[1..], t) {
        var i :| OccursAt(s[1..], t, i);
        assert s[i + 1..i + 1 + |t|] == s[1..][i..i + |t|];
        assert OccursAt(s, t, i + 1);
      } else {
        var s' := s[1..];
        assert !Occurs(s', t);
        forall i | 0 <= i && i + |t| <= |s| ensures !OccursAt(s, t, i) {
          if i > 0 {
            assert !OccursAt(s', t, i - 1);
            assert s[1..][i - 1..i - 1 + |t|] == s[i..i + |t|] by {
              forall m | i - 1 <= m < i - 1 + |t| ensures s[1..][m] == s[m + 1] {}
            }
          }
        }
      }
    }
  }

  /** The empty string occurs in every string. */
  lemma IncludesEmpty(s: string)
    ensures Includes(s, [])
  {
  }

  /** The string `||` fallback: the value when it is present and non-empty
      (truthy), otherwise `fallback`. */
  function OrElse(o: Option<string>, fallback: string): string {
    if o.Some? && o.value != "" then o.value else fallback
  }

  /** `Array.prototype.join(sep)`. */
  function Join(parts: seq<string>, sep: string): string
    decreases |parts|
  {
    if |parts| == 0 then ""
    else if |parts| == 1 then parts[0]
    else parts[0] + sep + Join(parts[1..], sep)
  }

  /** Joining never loses the last part: a non-empty list joins to a string
      that ends with its last part. */
  lemma {:induction false} JoinEndsWithLast(parts: seq<string>, sep: string)
    requires |parts| > 0
    ensures var j := Join(parts, sep);
      |j| >= |parts[|parts| - 1]| && j[|j| - |parts[|parts| - 1]|..] == parts[|parts| - 1]
    decreases |parts|
  {
    if |parts| > 1 {
      JoinEndsWithLast(parts[1..], sep);
      var rest := Join(parts[1..], sep);
      var last := parts[|parts| - 1];
      assert parts[1..][|parts| - 2] == last;
      var j := parts[0] + sep + rest;
      assert j[|j| - |last|..] == rest[|rest| - |last|..];
    }
  }
}
