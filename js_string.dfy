/**
  The JavaScript string primitives the ingestion pipeline and the client
  rely on, over an explicit character model:

  - `IsSpace` is the ECMAScript white-space set (WhiteSpace plus
    LineTerminator), which `String.prototype.trim` strips and the regular
    expression class `\s` matches;
  - `Lower` lower-cases the ASCII letters A-Z only;
  - a `char` is one Unicode scalar value, so a length here equals the
    JavaScript length (UTF-16 code units) for text in the Basic
    Multilingual Plane.
*/
module JsString {
  import opened Wrappers

  /** Regrouping a concatenation, as a fact to call where a larger proof
      context would otherwise have to find it. */
  lemma ConcatAssoc<T>(a: seq<T>, b: seq<T>, c: seq<T>)
    ensures a + (b + c) == (a + b) + c
  {
  }

  /** Regrouping the pieces after a common prefix. */
  lemma ConcatAssoc4<T>(p: seq<T>, a: seq<T>, b: seq<T>, c: seq<T>)
    ensures p + a + b + c == p + (a + b + c)
  {
  }

  lemma ConcatAssoc6<T>(p: seq<T>, a: seq<T>, b: seq<T>, c: seq<T>, d: seq<T>, e: seq<T>)
    ensures p + a + b + c + d + e == p + (a + b + c + d + e)
  {
  }

  /** The ECMAScript white-space and line-terminator code points. */
  predicate IsSpace(c: char) {
    || c == '\t' || c == '\n' || c == '\U{B}' || c == '\U{C}' || c == '\r' || c == ' '
    || c == '\U{A0}' || c == '\U{1680}' || ('\U{2000}' <= c <= '\U{200A}')
    || c == '\U{2028}' || c == '\U{2029}' || c == '\U{202F}' || c == '\U{205F}'
    || c == '\U{3000}' || c == '\U{FEFF}'
  }

  predicate AllSpace(s: string) {
    forall i :: 0 <= i < |s| ==> IsSpace(s[i])
  }

  /** Neither the first nor the last character is white space. */
  predicate IsTrimmed(s: string) {
    |s| == 0 || (!IsSpace(s[0]) && !IsSpace(s[|s| - 1]))
  }

  /** The first position at or after `i` that does not hold white space,
      or the length when there is none. */
  function SkipSpace(s: string, i: nat): (j: nat)
    requires i <= |s|
    ensures i <= j <= |s|
    ensures forall k :: i <= k < j ==> IsSpace(s[k])
    ensures j == |s| || !IsSpace(s[j])
    decreases |s| - i
  {
    if i == |s| || !IsSpace(s[i]) then i else SkipSpace(s, i + 1)
  }

  /** The position just after the last character before `j` that is not
      white space, or 0 when there is none. */
  function SkipSpaceBack(s: string, j: nat): (i: nat)
    requires j <= |s|
    ensures i <= j
    ensures forall k :: i <= k < j ==> IsSpace(s[k])
    ensures i == 0 || !IsSpace(s[i - 1])
  {
    if j == 0 || !IsSpace(s[j - 1]) then j else SkipSpaceBack(s, j - 1)
  }

  /** Leading white space removed: what is dropped is all white space and
      what is kept is a suffix that does not start with white space. */
  function TrimStart(s: string): (r: string)
    ensures |r| <= |s| && r == s[|s| - |r|..]
    ensures forall i :: 0 <= i < |s| - |r| ==> IsSpace(s[i])
    ensures |r| == 0 || !IsSpace(r[0])
  {
    s[SkipSpace(s, 0)..]
  }

  /** Trailing white space removed: what is dropped is all white space and
      what is kept is a prefix that does not end with white space. */
  function TrimEnd(s: string): (r: string)
    ensures |r| <= |s| && r == s[..|r|]
    ensures forall i :: |r| <= i < |s| ==> IsSpace(s[i])
    ensures |r| == 0 || !IsSpace(r[|r| - 1])
  {
    s[..SkipSpaceBack(s, |s|)]
  }

  /** The leading white space is determined by its three properties. */
  lemma TrimStartUnique(s: string, r: string)
    requires |r| <= |s| && r == s[|s| - |r|..]
    requires forall i :: 0 <= i < |s| - |r| ==> IsSpace(s[i])
    requires |r| == 0 || !IsSpace(r[0])
    ensures TrimStart(s) == r
  {
  }

  lemma TrimEndUnique(s: string, r: string)
    requires |r| <= |s| && r == s[..|r|]
    requires forall i :: |r| <= i < |s| ==> IsSpace(s[i])
    requires |r| == 0 || !IsSpace(r[|r| - 1])
    ensures TrimEnd(s) == r
  {
  }

  /** `trimStart` drops one leading white-space character at a time. */
  lemma TrimStartStep(s: string)
    ensures TrimStart(s) == if |s| > 0 && IsSpace(s[0]) then TrimStart(s[1..]) else s
  {
    if |s| > 0 && IsSpace(s[0]) {
      var r := TrimStart(s[1..]);
      assert s[1..][|s| - 1 - |r|..] == s[|s| - |r|..];
      forall i | 0 <= i < |s| - |r|
        ensures IsSpace(s[i])
      {
        if i > 0 {
          assert s[i] == s[1..][i - 1];
        }
      }
      TrimStartUnique(s, r);
    } else {
      TrimStartUnique(s, s);
    }
  }

  /** `trimEnd` drops one trailing white-space character at a time. */
  lemma TrimEndStep(s: string)
    ensures TrimEnd(s) == if |s| > 0 && IsSpace(s[|s| - 1]) then TrimEnd(s[..|s| - 1]) else s
  {
    if |s| > 0 && IsSpace(s[|s| - 1]) {
      var r := TrimEnd(s[..|s| - 1]);
      assert s[..|s| - 1][..|r|] == s[..|r|];
      forall i | |r| <= i < |s|
        ensures IsSpace(s[i])
      {
        if i < |s| - 1 {
          assert s[i] == s[..|s| - 1][i];
        }
      }
      TrimEndUnique(s, r);
    } else {
      TrimEndUnique(s, s);
    }
  }

  /** `String.prototype.trim`. */
  function Trim(s: string): string {
    TrimEnd(TrimStart(s))
  }

  /** Trim keeps a contiguous slice of its input, which starts after the
      leading white space and is followed only by white space, and the
      slice it keeps is trimmed. */
  lemma TrimSlice(s: string)
    ensures |s| - |TrimStart(s)| + |Trim(s)| <= |s|
    ensures Trim(s) == s[|s| - |TrimStart(s)|..|s| - |TrimStart(s)| + |Trim(s)|]
    ensures AllSpace(s[..|s| - |TrimStart(s)|])
    ensures AllSpace(s[|s| - |TrimStart(s)| + |Trim(s)|..])
    ensures IsTrimmed(Trim(s))
  {
    var t := TrimStart(s);
    var r := Trim(s);
    PrefixTrimmed(t, r);
    InnerSlice(s, t, r);
  }

  /** A prefix that does not end with white space, of a text that does not
      start with white space, is trimmed. */
  lemma PrefixTrimmed(t: string, r: string)
    requires |t| == 0 || !IsSpace(t[0])
    requires |r| <= |t| && r == t[..|r|] && (|r| == 0 || !IsSpace(r[|r| - 1]))
    ensures IsTrimmed(r)
  {
    if |r| > 0 {
      assert r[0] == t[0];
    }
  }

  /** A prefix `r` of a suffix `t` of `s`, with white space cut off on both
      sides, is the slice of `s` between the two cuts. */
  lemma InnerSlice(s: string, t: string, r: string)
    requires |t| <= |s| && t == s[|s| - |t|..] && forall i :: 0 <= i < |s| - |t| ==> IsSpace(s[i])
    requires |r| <= |t| && r == t[..|r|] && forall i :: |r| <= i < |t| ==> IsSpace(t[i])
    ensures var i := |s| - |t|;
      && r == s[i..i + |r|] && AllSpace(s[..i]) && AllSpace(s[i + |r|..])
  {
    var i := |s| - |t|;
    assert forall j :: |r| <= j < |t| ==> s[i + j] == t[j];
  }

  /** Trim changes exactly the strings that are not trimmed already. */
  lemma TrimFixpoint(s: string)
    ensures Trim(s) == s <==> IsTrimmed(s)
  {
    if IsTrimmed(s) {
      TrimStartOfTrimmed(s);
      TrimEndOfTrimmed(s);
    } else {
      TrimSlice(s);
    }
  }

  lemma TrimStartOfTrimmed(s: string)
    requires IsTrimmed(s)
    ensures TrimStart(s) == s
  {
    assert s[|s| - |s|..] == s;
    TrimStartUnique(s, s);
  }

  lemma TrimEndOfTrimmed(s: string)
    requires IsTrimmed(s)
    ensures TrimEnd(s) == s
  {
    assert s[..|s|] == s;
    TrimEndUnique(s, s);
  }

  /** Trim yields the empty string exactly for all-white-space input. */
  lemma TrimEmpty(s: string)
    ensures Trim(s) == "" <==> AllSpace(s)
  {
    TrimSlice(s);
  }

  /** White space around a trimmed text is exactly what `trim` removes. */
  lemma {:induction false} TrimPadded(x: string, t: string, y: string)
    requires AllSpace(x) && AllSpace(y) && IsTrimmed(t) && t != ""
    ensures Trim(x + t + y) == t
  {
    var s := x + t + y;
    assert s == x + (t + y);
    assert (t + y)[0] == t[0];
    TrimStartPadded(x, t + y);
    TrimEndPadded(t, y);
    assert Trim(s) == TrimEnd(t + y);
  }

  lemma {:induction false} TrimStartPadded(x: string, s: string)
    requires AllSpace(x) && |s| > 0 && !IsSpace(s[0])
    ensures TrimStart(x + s) == s
  {
    if |x| > 0 {
      assert (x + s)[1..] == x[1..] + s;
      TrimStartPadded(x[1..], s);
    }
  }

  lemma {:induction false} TrimEndPadded(s: string, y: string)
    requires AllSpace(y) && |s| > 0 && !IsSpace(s[|s| - 1])
    ensures TrimEnd(s + y) == s
  {
    if |y| > 0 {
      assert (s + y)[..|s + y| - 1] == s + y[..|y| - 1];
      TrimEndPadded(s, y[..|y| - 1]);
    } else {
      assert s + y == s;
    }
  }

  /** `k` occurs in `s` starting at index `i`. */
  predicate OccursAt(s: string, k: string, i: int) {
    0 <= i <= |s| - |k| && s[i..i + |k|] == k
  }

  /** `String.prototype.includes`. */
  predicate Contains(s: string, k: string) {
    exists i :: 0 <= i <= |s| - |k| && OccursAt(s, k, i)
  }

  lemma ContainsEmpty(s: string)
    ensures Contains(s, "")
  {
    assert OccursAt(s, "", 0);
  }

  function LowerChar(c: char): char {
    if 'A' <= c <= 'Z' then (c as int + 32) as char else c
  }

  /** `String.prototype.toLowerCase` restricted to ASCII letters: no
      capital is left, each capital becomes its small letter, and every
      other character stays where it was. */
  function Lower(s: string): (r: string)
    ensures |r| == |s|
    ensures forall i :: 0 <= i < |r| ==> !('A' <= r[i] <= 'Z')
    ensures forall i :: 0 <= i < |s| && 'A' <= s[i] <= 'Z' ==> r[i] == (s[i] as int + 32) as char
    ensures forall i :: 0 <= i < |s| && !('A' <= s[i] <= 'Z') ==> r[i] == s[i]
  {
    seq(|s|, i requires 0 <= i < |s| => LowerChar(s[i]))
  }

  lemma LowerIdempotent(s: string)
    ensures Lower(Lower(s)) == Lower(s)
  {
  }

  lemma LowerConcat(a: string, b: string)
    ensures Lower(a + b) == Lower(a) + Lower(b)
  {
  }

  function DigitChar(d: nat): char
    requires d < 10
  {
    ('0' as int + d) as char
  }

  /** The decimal numeral of `n`, as a template literal writes it. */
  function NatToString(n: nat): (s: string)
    ensures |s| >= 1
    ensures (|s| == 1) == (n < 10)
    ensures s[|s| - 1] == DigitChar(n % 10)
  {
    if n < 10 then [DigitChar(n)] else NatToString(n / 10) + [DigitChar(n % 10)]
  }

  /** Different numbers have different numerals. */
  lemma {:induction false} NatToStringInjective(m: nat, n: nat)
    requires NatToString(m) == NatToString(n)
    ensures m == n
  {
    var sm, sn := NatToString(m), NatToString(n);
    assert m % 10 == n % 10 by {
      assert DigitChar(m % 10) == DigitChar(n % 10);
    }
    if m >= 10 {
      assert n >= 10;
      assert sm[..|sm| - 1] == NatToString(m / 10);
      assert sn[..|sn| - 1] == NatToString(n / 10);
      NatToStringInjective(m / 10, n / 10);
    }
  }

  /** The first position at or after `from` where `k` occurs, if any. */
  function IndexFrom(s: string, k: string, from: nat): (r: Option<nat>)
    requires from <= |s| + 1
    ensures r.Some? ==> from <= r.value && OccursAt(s, k, r.value)
    ensures forall i :: from <= i && (r.None? || i < r.value) ==> !OccursAt(s, k, i)
    decreases |s| + 1 - from
  {
    if from + |k| > |s| then None
    else if OccursAt(s, k, from) then Some(from)
    else IndexFrom(s, k, from + 1)
  }

  /** `String.prototype.indexOf`, with no match as `None`. */
  function IndexOf(s: string, k: string): (r: Option<nat>)
    ensures r.Some? <==> Contains(s, k)
    ensures r.Some? ==> OccursAt(s, k, r.value) && forall i :: 0 <= i < r.value ==> !OccursAt(s, k, i)
  {
    IndexFrom(s, k, 0)
  }

  /** `String.prototype.replace` with a string pattern: only the first
      occurrence is replaced, and a string without one is kept. */
  function ReplaceFirst(s: string, pattern: string, replacement: string): string {
    match IndexOf(s, pattern)
    case None => s
    case Some(i) => s[..i] + replacement + s[i + |pattern|..]
  }

  /** What `ReplaceFirst` leaves: the text around the first occurrence of
      the pattern, with the replacement between; and the text itself when
      the pattern does not occur. */
  lemma ReplaceFirstSpec(s: string, pattern: string, replacement: string)
    ensures !Contains(s, pattern) ==> ReplaceFirst(s, pattern, replacement) == s
    ensures Contains(s, pattern) ==>
      exists i :: && OccursAt(s, pattern, i)
                  && (forall j :: 0 <= j < i ==> !OccursAt(s, pattern, j))
                  && ReplaceFirst(s, pattern, replacement) == s[..i] + replacement + s[i + |pattern|..]
    ensures Contains(s, pattern) ==>
      |ReplaceFirst(s, pattern, replacement)| == |s| - |pattern| + |replacement|
  {
    if Contains(s, pattern) {
      var i := IndexOf(s, pattern).value;
      assert OccursAt(s, pattern, i);
    }
  }
}
