/** JavaScript string primitives as the installer scripts use them.
    A JavaScript string is a `seq<char>`; each primitive below is the
    built-in method or regular-expression class of the same meaning. */
module Strings {

  /** A character matched by the regular-expression class `\s`, and removed by
      `String.prototype.trim`: ECMAScript's WhiteSpace and LineTerminator. */
  predicate IsJsWhitespace(c: char) {
    c == ' ' || c == '\t' || c == '\n' || c == '\r' || c == '\U{B}' || c == '\U{C}'
    || c == '\U{A0}' || c == '\U{1680}' || ('\U{2000}' <= c <= '\U{200A}')
    || c == '\U{2028}' || c == '\U{2029}' || c == '\U{202F}' || c == '\U{205F}'
    || c == '\U{3000}' || c == '\U{FEFF}'
  }

  /** A character that ends a line for `^` in multi-line mode and that `.` refuses to match. */
  predicate IsLineTerminator(c: char) {
    c == '\n' || c == '\r' || c == '\U{2028}' || c == '\U{2029}'
  }

  /** `p` occurs in `s` starting at index `i`. */
  predicate StartsAt(s: string, p: string, i: nat) {
    i + |p| <= |s| && s[i..i + |p|] == p
  }

  /** `s.includes(p)` */
  predicate Contains(s: string, p: string) {
    exists i | 0 <= i <= |s| - |p| :: StartsAt(s, p, i)
  }

  /** `s.startsWith(p)` */
  predicate StartsWith(s: string, p: string) {
    StartsAt(s, p, 0)
  }

  /** `s.endsWith(p)` */
  predicate EndsWith(s: string, p: string) {
    |p| <= |s| && s[|s| - |p|..] == p
  }

  /** `s.indexOf(p, from)`: the first occurrence of `p` at or after `from`, or -1. */
  function IndexOfFrom(s: string, p: string, from: nat): (r: int)
    requires from <= |s|
    ensures r == -1 || (from <= r && StartsAt(s, p, r))
    ensures r == -1 ==> forall i: nat :: from <= i ==> !StartsAt(s, p, i)
    ensures r >= 0 ==> forall i: nat :: from <= i < r ==> !StartsAt(s, p, i)
    decreases |s| - from
  {
    if from + |p| > |s| then -1
    else if StartsAt(s, p, from) then from
    else IndexOfFrom(s, p, from + 1)
  }

  /** `s.indexOf(p)` */
  function IndexOf(s: string, p: string): (r: int)
    ensures -1 <= r && (r == -1 <==> !Contains(s, p))
    ensures r >= 0 ==> StartsAt(s, p, r) && forall i: nat :: i < r ==> !StartsAt(s, p, i)
  {
    IndexOfFrom(s, p, 0)
  }

  /** `s.replace(p, rep)` with a string pattern: only the first occurrence of
      `p` is replaced, and `s` is returned unchanged when there is none. */
  function ReplaceFirst(s: string, p: string, rep: string): (r: string)
    ensures !Contains(s, p) ==> r == s
    ensures Contains(s, p) ==>
      var i := IndexOf(s, p);
      0 <= i && i + |p| <= |s| && r == s[..i] + rep + s[i + |p|..]
  {
    var i := IndexOf(s, p);
    if i < 0 then s else s[..i] + rep + s[i + |p|..]
  }

  /** Replacing the first `p` by `p + tail` puts `tail` right after that `p`. */
  lemma ReplaceKeepsPattern(s: string, p: string, tail: string)
    requires Contains(s, p)
    ensures var i := IndexOf(s, p);
      0 <= i && i + |p| <= |s| && ReplaceFirst(s, p, p + tail) == s[..i + |p|] + tail + s[i + |p|..]
  {
    var i := IndexOf(s, p);
    assert ReplaceFirst(s, p, p + tail) == s[..i] + (p + tail) + s[i + |p|..];
    assert s[..i + |p|] == s[..i] + s[i..i + |p|];
    assert s[..i] + (p + tail) == s[..i] + p + tail;
  }

  /** The end of the run of `\s` characters that starts at `i`. */
  function SkipWs(s: string, i: nat): (j: nat)
    requires i <= |s|
    ensures i <= j <= |s|
    ensures forall k :: i <= k < j ==> IsJsWhitespace(s[k])
    ensures j < |s| ==> !IsJsWhitespace(s[j])
    decreases |s| - i
  {
    if i == |s| || !IsJsWhitespace(s[i]) then i else SkipWs(s, i + 1)
  }

  /** A run of white space from `i` that stops at a non-space character
      at `q` is the run `SkipWs` finds. */
  lemma {:induction false} SkipWsStopsAt(s: string, i: nat, q: nat)
    requires i <= q < |s| && !IsJsWhitespace(s[q])
    requires forall k :: i <= k < q ==> IsJsWhitespace(s[k])
    ensures SkipWs(s, i) == q
    decreases q - i
  {
    if i < q {
      SkipWsStopsAt(s, i + 1, q);
    }
  }

  /** On a suffix of `s`, `SkipWs` finds the same run, shifted. */
  lemma {:induction false} SkipWsShift(s: string, d: nat, j: nat)
    requires d <= j <= |s|
    ensures SkipWs(s, j) == d + SkipWs(s[d..], j - d)
    decreases |s| - j
  {
    if j < |s| {
      assert s[d..][j - d] == s[j];
      if IsJsWhitespace(s[j]) {
        SkipWsShift(s, d, j + 1);
      }
    }
  }

  /** The index of the first line terminator at or after `i`, or `|s|`:
      where a greedy `.+` or `.*` that starts at `i` stops. */
  function LineEnd(s: string, i: nat): (j: nat)
    requires i <= |s|
    ensures i <= j <= |s|
    ensures forall k :: i <= k < j ==> !IsLineTerminator(s[k])
    ensures j < |s| ==> IsLineTerminator(s[j])
    decreases |s| - i
  {
    if i == |s| || IsLineTerminator(s[i]) then i else LineEnd(s, i + 1)
  }

  /** A run of non-terminators from `i` that stops at a line terminator at
      `q` ends where `LineEnd` says. */
  lemma {:induction false} LineEndStopsAt(s: string, i: nat, q: nat)
    requires i <= q < |s| && IsLineTerminator(s[q])
    requires forall k :: i <= k < q ==> !IsLineTerminator(s[k])
    ensures LineEnd(s, i) == q
    decreases q - i
  {
    if i < q {
      LineEndStopsAt(s, i + 1, q);
    }
  }

  /** With no line terminator from `i` on, a line that starts at `i` runs to the end. */
  lemma LineEndAtEnd(s: string, i: nat)
    requires i <= |s|
    requires forall k :: i <= k < |s| ==> !IsLineTerminator(s[k])
    ensures LineEnd(s, i) == |s|
  {
  }

  /** The start of the run of `\s` characters that ends at `j`. */
  function SkipWsBack(s: string, j: nat): (i: nat)
    requires j <= |s|
    ensures i <= j
    ensures forall k :: i <= k < j ==> IsJsWhitespace(s[k])
    ensures 0 < i ==> !IsJsWhitespace(s[i - 1])
  {
    if j == 0 || !IsJsWhitespace(s[j - 1]) then j else SkipWsBack(s, j - 1)
  }

  /** `s.trim()`: `s` without its leading and trailing white space. */
  function Trim(s: string): (r: string)
    ensures |r| <= |s|
    ensures SkipWs(s, 0) + |r| <= |s| && r == s[SkipWs(s, 0)..SkipWs(s, 0) + |r|]
    ensures forall k :: SkipWs(s, 0) + |r| <= k < |s| ==> IsJsWhitespace(s[k])
    ensures r == [] || (!IsJsWhitespace(r[0]) && !IsJsWhitespace(r[|r| - 1]))
    ensures r == [] <==> forall k :: 0 <= k < |s| ==> IsJsWhitespace(s[k])
  {
    var i := SkipWs(s, 0);
    var j := SkipWsBack(s, |s|);
    if i < j then s[i..j] else []
  }

  /** A substring of a substring of `s` is a substring of `s`. */
  lemma ContainsTransitive(s: string, t: string, p: string)
    requires Contains(s, t) && Contains(t, p)
    ensures Contains(s, p)
  {
    var i :| 0 <= i <= |s| - |t| && StartsAt(s, t, i);
    var j :| 0 <= j <= |t| - |p| && StartsAt(t, p, j);
    forall k | 0 <= k < |p| ensures s[i + j + k] == p[k] {
      assert s[i + j + k] == t[j + k];
    }
    assert StartsAt(s, p, i + j);
  }

  /** What occurs in a part of a concatenation occurs in the whole. */
  lemma ContainsConcat(a: string, b: string, p: string)
    requires Contains(a, p) || Contains(b, p)
    ensures Contains(a + b, p)
  {
    if Contains(a, p) {
      var i :| 0 <= i <= |a| - |p| && StartsAt(a, p, i);
      assert (a + b)[i..i + |p|] == a[i..i + |p|];
      assert StartsAt(a + b, p, i);
    } else {
      var i :| 0 <= i <= |b| - |p| && StartsAt(b, p, i);
      assert (a + b)[|a| + i..|a| + i + |p|] == b[i..i + |p|];
      assert StartsAt(a + b, p, |a| + i);
    }
  }

  /** `b` occurs in `a + b + c` right after `a`. */
  lemma StartsAtMiddle(a: string, b: string, c: string)
    ensures StartsAt(a + b + c, b, |a|)
  {
    assert (a + b + c)[|a|..|a| + |b|] == b;
  }

  /** A white-space run `ws` between `a` and a non-space character is
      skipped exactly. */
  lemma SkipWsOverRun(a: string, ws: string, c: string)
    requires forall k :: 0 <= k < |ws| ==> IsJsWhitespace(ws[k])
    requires |c| > 0 && !IsJsWhitespace(c[0])
    ensures SkipWs(a + ws + c, |a|) == |a| + |ws|
  {
    var t := a + ws + c;
    SliceThree(a, ws, c);
    forall k | |a| <= k < |a| + |ws| ensures IsJsWhitespace(t[k]) {
      assert t[k] == ws[k - |a|];
    }
    assert t[|a| + |ws|] == c[0];
    SkipWsStopsAt(t, |a|, |a| + |ws|);
  }

  /** The three parts of `a + b + c`, sliced back out. */
  lemma SliceThree(a: string, b: string, c: string)
    ensures (a + b + c)[..|a|] == a
    ensures (a + b + c)[|a|..|a| + |b|] == b
    ensures (a + b + c)[|a|..] == b + c
    ensures (a + b + c)[|a| + |b|..] == c
  {
  }

  /** Concatenation regrouped. */
  lemma Regroup(a: string, b: string, c: string, d: string)
    ensures a + b + c + d == a + (b + c + d)
    ensures a + (b + c) == a + b + c
  {
  }

  /** An occurrence inside a copy of `t` placed at `o` is an occurrence in `s`. */
  lemma StartsAtShift(s: string, t: string, o: nat, p: string, j: nat)
    requires o + |t| <= |s| && s[o..o + |t|] == t && StartsAt(t, p, j)
    ensures StartsAt(s, p, o + j)
  {
    assert forall k :: 0 <= k < |t| ==> s[o + k] == t[k] by {
      forall k | 0 <= k < |t| ensures s[o + k] == t[k] {
        assert s[o..o + |t|][k] == s[o + k];
      }
    }
    assert s[o + j..o + j + |p|] == t[j..j + |p|];
  }

  /** A slice inside the right part of a concatenation is a slice of that part. */
  lemma SliceRight(a: string, b: string, i: nat, j: nat)
    requires |a| <= i <= j <= |a| + |b|
    ensures (a + b)[i..j] == b[i - |a|..j - |a|]
  {
  }

  /** A string that does not contain `p` has no occurrence of it anywhere. */
  lemma NoOccurrence(s: string, p: string, i: nat)
    requires !Contains(s, p)
    ensures !StartsAt(s, p, i)
  {
  }

  /** A string without a character of `p` does not contain `p`. */
  lemma NotContainsByChar(s: string, p: string, k: nat)
    requires k < |p| && p[k] !in s
    ensures !Contains(s, p)
  {
    forall i | 0 <= i <= |s| - |p| ensures !StartsAt(s, p, i) {
      assert s[i + k] in s;
    }
  }
}
