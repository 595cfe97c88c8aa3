/**
  `cleanText` of server/parsers.ts: the whitespace normalisation applied to
  pasted text. Four stages, in the source's order:
  1. every run of two or more U+0020 spaces becomes one space (tabs and
     other white space are left alone);
  2. every run of three or more newlines becomes two newlines;
  3. the text is split at each newline, every line is trimmed, the lines
     that became empty are dropped and the rest are joined with newlines;
  4. the whole result is trimmed.
*/
module TextNormalizer {
  import opened JsString

  /** No two neighbouring characters are both `c`. */
  predicate NoAdjacent(s: string, c: char) {
    forall i :: 0 <= i < |s| - 1 ==> !(s[i] == c && s[i + 1] == c)
  }

  /** No three neighbouring characters are all newlines. */
  predicate NoTripleNewline(s: string) {
    forall i :: 0 <= i < |s| - 2 ==> !(s[i] == '\n' && s[i + 1] == '\n' && s[i + 2] == '\n')
  }

  /** Stage 1: `replace(/  +/g, ' ')`. */
  function CollapseSpaces(s: string): (r: string)
    ensures |r| <= |s|
    ensures |s| > 0 ==> |r| > 0 && r[0] == s[0]
  {
    if |s| == 0 then ""
    else if |s| >= 2 && s[0] == ' ' && s[1] == ' ' then CollapseSpaces(s[1..])
    else [s[0]] + CollapseSpaces(s[1..])
  }

  /** Stage 2: `replace(/\n\n\n+/g, '\n\n')`. */
  function CapNewlines(s: string): (r: string)
    ensures |r| <= |s|
    ensures |s| > 0 ==> |r| > 0 && r[0] == s[0]
    ensures |s| >= 2 && !(s[0] == '\n' && s[1] == '\n') ==> |r| >= 2 && r[1] == s[1]
  {
    if |s| == 0 then ""
    else if |s| >= 3 && s[0] == '\n' && s[1] == '\n' && s[2] == '\n' then CapNewlines(s[1..])
    else [s[0]] + CapNewlines(s[1..])
  }

  /** Stage 1 leaves no two neighbouring spaces. */
  lemma {:induction false} CollapseSpacesNoDouble(s: string)
    ensures NoAdjacent(CollapseSpaces(s), ' ')
  {
    if |s| > 0 {
      CollapseSpacesNoDouble(s[1..]);
    }
  }

  /** Stage 2 leaves no run of three newlines and creates no doubled space. */
  lemma {:induction false} CapNewlinesShape(s: string)
    ensures NoTripleNewline(CapNewlines(s))
    ensures NoAdjacent(s, ' ') ==> NoAdjacent(CapNewlines(s), ' ')
  {
    if |s| > 0 {
      CapNewlinesShape(s[1..]);
    }
  }

  /** `split('\n')`: the pieces between newlines, always at least one. */
  function SplitLines(s: string): (lines: seq<string>)
    ensures |lines| >= 1
    ensures lines[0] <= s
    ensures forall l :: l in lines ==> '\n' !in l
  {
    if |s| == 0 then [""]
    else
      var rest := SplitLines(s[1..]);
      if s[0] == '\n' then [""] + rest
      else [[s[0]] + rest[0]] + rest[1..]
  }

  /** `join('\n')`. */
  function JoinLines(lines: seq<string>): string {
    if |lines| == 0 then ""
    else if |lines| == 1 then lines[0]
    else lines[0] + "\n" + JoinLines(lines[1..])
  }

  /** `map((line) => line.trim())`. */
  function TrimEach(lines: seq<string>): (r: seq<string>)
    ensures |r| == |lines|
  {
    seq(|lines|, i requires 0 <= i < |lines| => Trim(lines[i]))
  }

  /** `filter((line) => line.length > 0)`. */
  function DropEmpty(lines: seq<string>): (r: seq<string>)
    ensures forall l :: l in r ==> l in lines && l != ""
    ensures forall l :: l in lines && l != "" ==> l in r
  {
    if |lines| == 0 then []
    else if lines[0] == "" then DropEmpty(lines[1..])
    else [lines[0]] + DropEmpty(lines[1..])
  }

  /** The lines stage 3 keeps. */
  function CleanLines(text: string): seq<string> {
    DropEmpty(TrimEach(SplitLines(CapNewlines(CollapseSpaces(text)))))
  }

  /** `cleanText`. */
  function CleanText(text: string): string {
    Trim(JoinLines(CleanLines(text)))
  }

  // ---------------------------------------------------------------------
  // Splitting and joining lines are inverse to each other.

  /** Splitting undoes joining: the lines come back unchanged. */
  lemma {:induction false} JoinThenSplit(lines: seq<string>)
    requires |lines| >= 1
    requires forall l :: l in lines ==> '\n' !in l
    ensures SplitLines(JoinLines(lines)) == lines
  {
    if |lines| == 1 {
      SplitAfterLine(lines[0], "");
      assert lines[0] + "" == lines[0];
    } else {
      var tail := JoinLines(lines[1..]);
      assert forall l :: l in lines[1..] ==> l in lines;
      assert lines[0] in lines;
      JoinThenSplit(lines[1..]);
      assert ("\n" + tail)[1..] == tail;
      assert SplitLines("\n" + tail) == [""] + lines[1..];
      SplitAfterLine(lines[0], "\n" + tail);
      assert lines[0] + "\n" + tail == lines[0] + ("\n" + tail);
      assert ([""] + lines[1..])[1..] == lines[1..];
      assert lines[0] + "" == lines[0];
      assert [lines[0]] + lines[1..] == lines;
    }
  }

  /** A newline-free prefix glues onto the first line of what follows. */
  lemma {:induction false} SplitAfterLine(a: string, t: string)
    requires '\n' !in a
    ensures SplitLines(a + t) == [a + SplitLines(t)[0]] + SplitLines(t)[1..]
  {
    if |a| > 0 {
      assert a[0] in a;
      assert (a + t)[1..] == a[1..] + t;
      SplitAfterLine(a[1..], t);
      var lines := SplitLines(t);
      var x := a[1..] + lines[0];
      assert ([x] + lines[1..])[1..] == lines[1..];
      assert [a[0]] + x == a + lines[0] by {
        ConcatAssoc([a[0]], a[1..], lines[0]);
        assert [a[0]] + a[1..] == a;
      }
    } else {
      assert a + t == t;
      assert a + SplitLines(t)[0] == SplitLines(t)[0];
      assert SplitLines(t) == [SplitLines(t)[0]] + SplitLines(t)[1..];
    }
  }

  /** Joining undoes splitting: the text comes back unchanged. */
  lemma {:induction false} SplitThenJoin(s: string)
    ensures JoinLines(SplitLines(s)) == s
  {
    if |s| > 0 {
      var rest := SplitLines(s[1..]);
      SplitThenJoin(s[1..]);
      if s[0] != '\n' && |rest| > 1 {
        assert rest == [rest[0]] + rest[1..];
        assert JoinLines(rest) == rest[0] + "\n" + JoinLines(rest[1..]);
      }
    }
  }

  // ---------------------------------------------------------------------
  // The shape of the result.

  /** A line as `cleanText` emits it. */
  predicate CleanLine(l: string) {
    l != "" && '\n' !in l && IsTrimmed(l) && NoAdjacent(l, ' ')
  }

  /** The result's own characterisation, with no reference to the input:
      no doubled space, no blank line, and no line that begins or ends with
      white space. */
  predicate IsClean(t: string) {
    && NoAdjacent(t, ' ')
    && NoAdjacent(t, '\n')
    && IsTrimmed(t)
    && (forall i :: 0 <= i < |t| && t[i] == '\n' ==>
          0 < i < |t| - 1 && !IsSpace(t[i - 1]) && !IsSpace(t[i + 1]))
  }

  lemma {:induction false} SplitKeepsNoAdjacent(s: string, c: char)
    requires NoAdjacent(s, c)
    ensures forall l :: l in SplitLines(s) ==> NoAdjacent(l, c)
  {
    if |s| > 0 {
      var rest := SplitLines(s[1..]);
      SplitKeepsNoAdjacent(s[1..], c);
      if s[0] != '\n' {
        var first := [s[0]] + rest[0];
        assert first == s[..|first|];
      }
    }
  }

  /** Every line stage 3 keeps is non-empty, newline-free, trimmed and has
      no doubled space. */
  lemma {:induction false} CleanLinesAreClean(text: string)
    ensures forall l :: l in CleanLines(text) ==> CleanLine(l)
  {
    var x := CapNewlines(CollapseSpaces(text));
    assert NoAdjacent(x, ' ') by {
      CollapseSpacesNoDouble(text);
      CapNewlinesShape(CollapseSpaces(text));
    }
    var split := SplitLines(x);
    SplitKeepsNoAdjacent(x, ' ');
    TrimEachClean(split);
    var trimmed := TrimEach(split);
    assert CleanLines(text) == DropEmpty(trimmed);
  }

  /** Trimming lines without newlines or doubled spaces gives trimmed
      lines without newlines or doubled spaces. */
  lemma TrimEachClean(lines: seq<string>)
    requires forall l :: l in lines ==> '\n' !in l && NoAdjacent(l, ' ')
    ensures forall l :: l in TrimEach(lines) ==> '\n' !in l && NoAdjacent(l, ' ') && IsTrimmed(l)
  {
    var trimmed := TrimEach(lines);
    forall i | 0 <= i < |lines|
      ensures '\n' !in trimmed[i] && NoAdjacent(trimmed[i], ' ') && IsTrimmed(trimmed[i])
    {
      assert lines[i] in lines;
      TrimSlice(lines[i]);
    }
  }

  /** A clean line, a newline and non-empty clean text make clean text. */
  lemma JoinTwoClean(head: string, tail: string)
    requires CleanLine(head) && IsClean(tail) && tail != ""
    ensures IsClean(head + "\n" + tail)
  {
    var t := head + "\n" + tail;
    assert forall i :: 0 <= i < |head| ==> t[i] == head[i] && head[i] in head;
    assert forall i :: |head| < i < |t| ==> t[i] == tail[i - |head| - 1];
    assert NoAdjacent(t, ' ') && NoAdjacent(t, '\n') by {
      forall i | 0 <= i < |t| - 1
        ensures !(t[i] == ' ' && t[i + 1] == ' ') && !(t[i] == '\n' && t[i + 1] == '\n')
      {
        if i < |head| - 1 {
          assert t[i + 1] == head[i + 1];
        } else if i > |head| {
          assert t[i + 1] == tail[i - |head|];
        }
      }
    }
    forall i | 0 <= i < |t| && t[i] == '\n'
      ensures 0 < i < |t| - 1 && !IsSpace(t[i - 1]) && !IsSpace(t[i + 1])
    {
      if i > |head| {
        var k := i - |head| - 1;
        assert tail[k] == '\n';
        assert 0 < k < |tail| - 1;
        assert t[i - 1] == tail[k - 1] && t[i + 1] == tail[k + 1];
      }
    }
  }

  /** Joining clean lines gives clean text, empty only for no lines. */
  lemma {:induction false} JoinCleanLines(lines: seq<string>)
    requires forall l :: l in lines ==> CleanLine(l)
    ensures IsClean(JoinLines(lines))
    ensures (JoinLines(lines) == "") == (|lines| == 0)
    ensures |lines| > 0 ==> JoinLines(lines)[0] == lines[0][0]
  {
    if |lines| == 1 {
      assert lines[0] in lines;
    } else if |lines| > 1 {
      assert lines[0] in lines;
      assert forall l :: l in lines[1..] ==> l in lines;
      JoinCleanLines(lines[1..]);
      JoinTwoClean(lines[0], JoinLines(lines[1..]));
    }
  }

  /** What `cleanText` returns is clean, and its lines are exactly the
      lines stage 3 kept. */
  lemma CleanTextShape(text: string)
    ensures IsClean(CleanText(text))
    ensures CleanText(text) == JoinLines(CleanLines(text))
    ensures CleanText(text) != "" ==> SplitLines(CleanText(text)) == CleanLines(text)
    ensures CleanText(text) != "" ==> forall l :: l in SplitLines(CleanText(text)) ==> CleanLine(l)
  {
    var lines := CleanLines(text);
    CleanLinesAreClean(text);
    JoinCleanLines(lines);
    TrimFixpoint(JoinLines(lines));
    if |lines| > 0 {
      JoinThenSplit(lines);
    }
  }

  // ---------------------------------------------------------------------
  // Idempotence.

  lemma {:induction false} CollapseSpacesFixpoint(s: string)
    requires NoAdjacent(s, ' ')
    ensures CollapseSpaces(s) == s
  {
    if |s| > 0 {
      CollapseSpacesFixpoint(s[1..]);
    }
  }

  lemma {:induction false} CapNewlinesFixpoint(s: string)
    requires NoAdjacent(s, '\n')
    ensures CapNewlines(s) == s
  {
    if |s| > 0 {
      CapNewlinesFixpoint(s[1..]);
    }
  }

  lemma TrimEachFixpoint(lines: seq<string>)
    requires forall l :: l in lines ==> IsTrimmed(l)
    ensures TrimEach(lines) == lines
  {
    forall i | 0 <= i < |lines| ensures TrimEach(lines)[i] == lines[i] {
      assert lines[i] in lines;
      TrimFixpoint(lines[i]);
    }
  }

  lemma {:induction false} DropEmptyFixpoint(lines: seq<string>)
    requires forall l :: l in lines ==> l != ""
    ensures DropEmpty(lines) == lines
  {
    if |lines| > 0 {
      assert lines[0] in lines;
      assert forall l :: l in lines[1..] ==> l in lines;
      DropEmptyFixpoint(lines[1..]);
    }
  }

  /** Clean text passes through `cleanText` unchanged. */
  lemma CleanTextOfClean(t: string)
    requires t == "" || forall l :: l in SplitLines(t) ==> CleanLine(l)
    ensures CleanText(t) == t
  {
    if t == "" {
      assert CleanLines(t) == [] by {
        assert SplitLines("") == [""];
      }
    } else {
      var lines := SplitLines(t);
      assert IsClean(t) by {
        SplitThenJoin(t);
        JoinCleanLines(lines);
      }
      assert CapNewlines(CollapseSpaces(t)) == t by {
        CollapseSpacesFixpoint(t);
        CapNewlinesFixpoint(t);
      }
      assert DropEmpty(TrimEach(lines)) == lines by {
        TrimEachFixpoint(lines);
        DropEmptyFixpoint(lines);
      }
      assert Trim(JoinLines(lines)) == t by {
        SplitThenJoin(t);
        TrimFixpoint(t);
      }
    }
  }

  /** `cleanText(cleanText(s)) == cleanText(s)`. */
  lemma CleanTextIdempotent(text: string)
    ensures CleanText(CleanText(text)) == CleanText(text)
  {
    CleanTextShape(text);
    CleanTextOfClean(CleanText(text));
  }

  // ---------------------------------------------------------------------
  // Cleaning works line by line; the cases of server/documents.test.ts.

  /** `n` spaces. */
  function Spaces(n: nat): (s: string)
    ensures |s| == n && AllSpace(s)
    ensures forall i :: 0 <= i < n ==> s[i] == ' '
  {
    if n == 0 then "" else " " + Spaces(n - 1)
  }

  /** A run of spaces collapses to one space. */
  lemma {:induction false} CollapseSpacesRun(n: nat)
    requires n >= 1
    ensures CollapseSpaces(Spaces(n)) == " "
  {
    if n > 1 {
      CollapseSpacesRun(n - 1);
      assert Spaces(n)[1..] == Spaces(n - 1);
    } else {
      assert Spaces(n)[1..] == "";
    }
  }

  /** Stage 1 only drops characters. */
  lemma {:induction false} CollapseSpacesChars(s: string)
    ensures forall c :: c in CollapseSpaces(s) ==> c in s
  {
    if |s| > 0 {
      CollapseSpacesChars(s[1..]);
      assert forall c :: c in s[1..] ==> c in s;
    }
  }

  /** Stage 1 works piece by piece, as long as no run of spaces straddles
      the border between the pieces. */
  lemma {:induction false} CollapseSpacesAppend(a: string, b: string)
    requires |a| == 0 || |b| == 0 || a[|a| - 1] != ' ' || b[0] != ' '
    ensures CollapseSpaces(a + b) == CollapseSpaces(a) + CollapseSpaces(b)
  {
    if |a| > 0 {
      assert (a + b)[1..] == a[1..] + b;
      CollapseSpacesAppend(a[1..], b);
      if |a| == 1 {
        assert CollapseSpaces(a) == [a[0]];
      }
    } else {
      assert a + b == b;
    }
  }

  /** Stage 2 passes a newline-free prefix through. */
  lemma {:induction false} CapNewlinesPrefix(a: string, b: string)
    requires '\n' !in a
    ensures CapNewlines(a + b) == a + CapNewlines(b)
  {
    if |a| > 0 {
      assert (a + b)[1..] == a[1..] + b;
      CapNewlinesPrefix(a[1..], b);
      assert [a[0]] + a[1..] == a;
    } else {
      assert a + b == b;
    }
  }

  /** A text without newlines is a single line. */
  lemma {:induction false} SplitWithoutNewline(s: string)
    requires '\n' !in s
    ensures SplitLines(s) == [s]
  {
    if |s| > 0 {
      SplitWithoutNewline(s[1..]);
      assert [s[0]] + s[1..] == s;
    }
  }

  /** A line followed by a newline is split off whole. */
  lemma SplitLine(a: string, rest: string)
    requires '\n' !in a
    ensures SplitLines(a + "\n" + rest) == [a] + SplitLines(rest)
  {
    var t := "\n" + rest;
    assert t[1..] == rest;
    assert SplitLines(t) == [""] + SplitLines(rest);
    SplitAfterLine(a, t);
    assert a + "" == a;
    assert ([""] + SplitLines(rest))[1..] == SplitLines(rest);
    assert a + "\n" + rest == a + t;
  }

  lemma TrimEachAppend(x: seq<string>, y: seq<string>)
    ensures TrimEach(x + y) == TrimEach(x) + TrimEach(y)
  {
  }

  lemma {:induction false} DropEmptyAppend(x: seq<string>, y: seq<string>)
    ensures DropEmpty(x + y) == DropEmpty(x) + DropEmpty(y)
  {
    if |x| > 0 {
      assert (x + y)[1..] == x[1..] + y;
      DropEmptyAppend(x[1..], y);
    } else {
      assert x + y == y;
    }
  }

  /** A text without newlines keeps at most one line: itself, with runs of
      spaces collapsed and trimmed. */
  lemma CleanLinesSingle(s: string)
    requires '\n' !in s
    ensures var line := Trim(CollapseSpaces(s));
      CleanLines(s) == if line == "" then [] else [line]
  {
    var c := CollapseSpaces(s);
    assert '\n' !in c by {
      CollapseSpacesChars(s);
    }
    assert CapNewlines(c) == c by {
      CapNewlinesPrefix(c, "");
      assert c + "" == c;
    }
    assert SplitLines(c) == [c] by {
      SplitWithoutNewline(c);
    }
    assert TrimEach([c]) == [Trim(c)];
    var t := Trim(c);
    assert DropEmpty([t]) == (if t == "" then [] else [t]) by {
      assert [t][1..] == [];
    }
  }

  /** Lines separated by a single newline are cleaned independently. */
  lemma CleanLinesCons(a: string, rest: string)
    requires '\n' !in a && (|rest| == 0 || rest[0] != '\n')
    ensures CleanLines(a + "\n" + rest) == CleanLines(a) + CleanLines(rest)
  {
    var ca := CollapseSpaces(a);
    var nr := CapNewlines(CollapseSpaces(rest));
    assert CapNewlines(CollapseSpaces(a + "\n" + rest)) == ca + "\n" + nr && '\n' !in ca by {
      PrepareCons(a, rest);
    }
    assert CapNewlines(ca) == ca by {
      CapNewlinesPrefix(ca, "");
      assert ca + "" == ca;
    }
    assert SplitLines(ca + "\n" + nr) == [ca] + SplitLines(nr) by {
      SplitLine(ca, nr);
    }
    var lines := SplitLines(nr);
    assert CleanLines(a + "\n" + rest) == DropEmpty(TrimEach([ca] + lines));
    assert CleanLines(a) == DropEmpty(TrimEach([ca])) by {
      SplitWithoutNewline(ca);
    }
    assert CleanLines(rest) == DropEmpty(TrimEach(lines));
    TrimEachAppend([ca], lines);
    DropEmptyAppend(TrimEach([ca]), TrimEach(lines));
  }

  /** The first two stages keep a single newline after a newline-free
      line in place. */
  lemma PrepareCons(a: string, rest: string)
    requires '\n' !in a && (|rest| == 0 || rest[0] != '\n')
    ensures var ca := CollapseSpaces(a);
      && CapNewlines(CollapseSpaces(a + "\n" + rest)) == ca + "\n" + CapNewlines(CollapseSpaces(rest))
      && '\n' !in ca
  {
    var ca, cr := CollapseSpaces(a), CollapseSpaces(rest);
    assert CollapseSpaces(a + "\n" + rest) == ca + "\n" + cr by {
      ConcatAssoc(a, "\n", rest);
      CollapseSpacesAppend(a, "\n" + rest);
      CollapseNewlineHead(rest);
      ConcatAssoc(ca, "\n", cr);
    }
    assert '\n' !in ca by {
      CollapseSpacesChars(a);
    }
    assert CapNewlines(ca + "\n" + cr) == ca + "\n" + CapNewlines(cr) by {
      ConcatAssoc(ca, "\n", cr);
      CapNewlinesPrefix(ca, "\n" + cr);
      CapNewlineHead(cr);
      ConcatAssoc(ca, "\n", CapNewlines(cr));
    }
  }

  lemma CollapseNewlineHead(s: string)
    ensures CollapseSpaces("\n" + s) == "\n" + CollapseSpaces(s)
  {
    assert ("\n" + s)[1..] == s;
  }

  lemma CapNewlineHead(s: string)
    requires |s| == 0 || s[0] != '\n'
    ensures CapNewlines("\n" + s) == "\n" + CapNewlines(s)
  {
    assert ("\n" + s)[1..] == s;
  }

  /** A text without newlines is cleaned to itself with runs of spaces
      collapsed and trimmed. */
  lemma CleanTextSingleLine(s: string)
    requires '\n' !in s
    ensures CleanText(s) == Trim(CollapseSpaces(s))
  {
    CleanLinesSingle(s);
    var line := Trim(CollapseSpaces(s));
    if line != "" {
      TrimSlice(CollapseSpaces(s));
      TrimFixpoint(line);
    }
  }

  /** A non-empty run of non-white-space characters. */
  predicate IsWord(w: string) {
    w != "" && forall i :: 0 <= i < |w| ==> !IsSpace(w[i])
  }

  /** A run of spaces between two pieces that do not touch it with a space
      of their own collapses to one space. */
  lemma CollapseGap(a: string, n: nat, b: string)
    requires n >= 1 && |a| > 0 && |b| > 0 && a[|a| - 1] != ' ' && b[0] != ' '
    ensures CollapseSpaces(a + Spaces(n) + b) == CollapseSpaces(a) + " " + CollapseSpaces(b)
  {
    var sp := Spaces(n);
    assert CollapseSpaces(a + sp + b) == CollapseSpaces(a) + CollapseSpaces(sp + b) by {
      ConcatAssoc(a, sp, b);
      CollapseSpacesAppend(a, sp + b);
    }
    assert CollapseSpaces(sp + b) == " " + CollapseSpaces(b) by {
      CollapseSpacesAppend(sp, b);
      CollapseSpacesRun(n);
    }
    ConcatAssoc(CollapseSpaces(a), " ", CollapseSpaces(b));
  }

  /** Three words separated by runs of spaces come out separated by single
      spaces (the first case of the test file is `Hello`, `world`, `test`
      with four spaces between them). */
  lemma CleanTextSpacedWords(w1: string, n: nat, w2: string, m: nat, w3: string)
    requires IsWord(w1) && IsWord(w2) && IsWord(w3) && n >= 1 && m >= 1
    ensures CleanText(w1 + Spaces(n) + w2 + Spaces(m) + w3) == w1 + " " + w2 + " " + w3
  {
    var s := w1 + Spaces(n) + w2 + Spaces(m) + w3;
    var t := w1 + " " + w2 + " " + w3;
    assert CollapseSpaces(s) == t by {
      CollapseSpacedWords(w1, n, w2, m, w3);
    }
    assert '\n' !in s by {
      NoNewlineSpacedWords(w1, n, w2, m, w3);
    }
    assert IsTrimmed(t) by {
      assert t[0] == w1[0] && t[|t| - 1] == w3[|w3| - 1];
    }
    CleanTextCollapsesTo(s, t);
  }

  /** A text without newlines that collapses to a trimmed text is cleaned
      to it. */
  lemma CleanTextCollapsesTo(s: string, t: string)
    requires '\n' !in s && CollapseSpaces(s) == t && IsTrimmed(t)
    ensures CleanText(s) == t
  {
    CleanTextSingleLine(s);
    TrimFixpoint(t);
  }

  lemma CollapseSpacedWords(w1: string, n: nat, w2: string, m: nat, w3: string)
    requires IsWord(w1) && IsWord(w2) && IsWord(w3) && n >= 1 && m >= 1
    ensures CollapseSpaces(w1 + Spaces(n) + w2 + Spaces(m) + w3) == w1 + " " + w2 + " " + w3
  {
    var tail := w2 + Spaces(m) + w3;
    assert CollapseSpaces(w1) == w1 && CollapseSpaces(w2) == w2 && CollapseSpaces(w3) == w3 by {
      CollapseSpacesFixpoint(w1);
      CollapseSpacesFixpoint(w2);
      CollapseSpacesFixpoint(w3);
    }
    assert CollapseSpaces(tail) == w2 + " " + w3 by {
      CollapseGap(w2, m, w3);
    }
    assert CollapseSpaces(w1 + Spaces(n) + tail) == w1 + " " + (w2 + " " + w3) by {
      CollapseGap(w1, n, tail);
    }
    ConcatAssoc4(w1 + Spaces(n), w2, Spaces(m), w3);
    ConcatAssoc4(w1 + " ", w2, " ", w3);
  }

  lemma NoNewlineSpacedWords(w1: string, n: nat, w2: string, m: nat, w3: string)
    requires IsWord(w1) && IsWord(w2) && IsWord(w3)
    ensures '\n' !in w1 + Spaces(n) + w2 + Spaces(m) + w3
  {
    assert '\n' !in w1 && '\n' !in w2 && '\n' !in w3;
    assert '\n' !in Spaces(n) && '\n' !in Spaces(m);
  }

  /** Spaces collapse to at most one space. */
  lemma CollapseSpacesOfSpaces(n: nat)
    ensures AllSpace(CollapseSpaces(Spaces(n)))
  {
    CollapseSpacesChars(Spaces(n));
    forall i | 0 <= i < |CollapseSpaces(Spaces(n))|
      ensures IsSpace(CollapseSpaces(Spaces(n))[i])
    {
      assert CollapseSpaces(Spaces(n))[i] in Spaces(n);
    }
  }

  /** A line padded with spaces collapses to the line padded with at most
      one space on each side. */
  lemma CollapsePaddedLine(j: nat, l: string, k: nat)
    requires CleanLine(l)
    ensures CollapseSpaces(Spaces(j) + l + Spaces(k))
      == CollapseSpaces(Spaces(j)) + l + CollapseSpaces(Spaces(k))
  {
    ConcatAssoc(Spaces(j), l, Spaces(k));
    CollapseSpacesAppend(Spaces(j), l + Spaces(k));
    CollapseSpacesAppend(l, Spaces(k));
    CollapseSpacesFixpoint(l);
    ConcatAssoc(CollapseSpaces(Spaces(j)), l, CollapseSpaces(Spaces(k)));
  }

  /** A line padded with spaces is cleaned to the line itself. */
  lemma CleanLinesPaddedLine(j: nat, l: string, k: nat)
    requires CleanLine(l)
    ensures CleanLines(Spaces(j) + l + Spaces(k)) == [l]
  {
    var mid := Spaces(j) + l + Spaces(k);
    assert Trim(CollapseSpaces(mid)) == l by {
      CollapsePaddedLine(j, l, k);
      CollapseSpacesOfSpaces(j);
      CollapseSpacesOfSpaces(k);
      TrimPadded(CollapseSpaces(Spaces(j)), l, CollapseSpaces(Spaces(k)));
    }
    assert '\n' !in mid by {
      assert '\n' !in Spaces(j) && '\n' !in Spaces(k) && '\n' !in l;
    }
    CleanLinesSingle(mid);
  }

  /** A text of only spaces is no line at all. */
  lemma CleanLinesBlank(n: nat)
    ensures CleanLines(Spaces(n)) == []
  {
    CollapseSpacesOfSpaces(n);
    TrimEmpty(CollapseSpaces(Spaces(n)));
    assert '\n' !in Spaces(n);
    CleanLinesSingle(Spaces(n));
  }

  /** Three pieces separated by single newlines are cleaned one by one. */
  lemma CleanLinesThree(a: string, mid: string, b: string)
    requires '\n' !in a && '\n' !in mid && mid != "" && mid[0] != '\n'
    requires |b| == 0 || b[0] != '\n'
    ensures CleanLines(a + "\n" + mid + "\n" + b) == CleanLines(a) + CleanLines(mid) + CleanLines(b)
  {
    var rest := mid + "\n" + b;
    assert a + "\n" + mid + "\n" + b == a + "\n" + rest by {
      ConcatAssoc4(a + "\n", mid, "\n", b);
    }
    assert CleanLines(a + "\n" + rest) == CleanLines(a) + CleanLines(rest) by {
      assert rest[0] == mid[0];
      CleanLinesCons(a, rest);
    }
    assert CleanLines(rest) == CleanLines(mid) + CleanLines(b) by {
      CleanLinesCons(mid, b);
    }
    ConcatAssoc(CleanLines(a), CleanLines(mid), CleanLines(b));
  }

  /** A text cleaned to a single trimmed line is that line. */
  lemma CleanTextOneLine(text: string, l: string)
    requires CleanLines(text) == [l] && IsTrimmed(l)
    ensures CleanText(text) == l
  {
    assert JoinLines([l]) == l;
    TrimFixpoint(l);
  }

  /** A padded line is one line that does not start with a newline. */
  lemma PaddedLineShape(j: nat, l: string, k: nat)
    requires CleanLine(l)
    ensures var mid := Spaces(j) + l + Spaces(k);
      mid != "" && '\n' !in mid && mid[0] != '\n'
  {
    var mid := Spaces(j) + l + Spaces(k);
    assert '\n' !in Spaces(j) && '\n' !in Spaces(k) && '\n' !in l;
    assert mid[0] in mid;
  }

  /** Blank lines around a line leave only that line. */
  lemma CleanLinesBetweenBlanks(a: string, mid: string, b: string, l: string)
    requires '\n' !in a && '\n' !in mid && mid != "" && mid[0] != '\n'
    requires |b| == 0 || b[0] != '\n'
    requires CleanLines(a) == [] && CleanLines(mid) == [l] && CleanLines(b) == []
    ensures CleanLines(a + "\n" + (mid + "\n" + b)) == [l]
  {
    CleanLinesBlankTail(mid, b, l);
    CleanLinesBlankHead(a, mid + "\n" + b);
  }

  /** A blank line in front of the rest of a text adds no line. */
  lemma CleanLinesBlankHead(a: string, rest: string)
    requires '\n' !in a && rest != "" && rest[0] != '\n'
    requires CleanLines(a) == []
    ensures CleanLines(a + "\n" + rest) == CleanLines(rest)
  {
    CleanLinesCons(a, rest);
  }

  /** A blank line after a line adds no line. */
  lemma CleanLinesBlankTail(mid: string, b: string, l: string)
    requires '\n' !in mid && (|b| == 0 || b[0] != '\n')
    requires CleanLines(mid) == [l] && CleanLines(b) == []
    ensures CleanLines(mid + "\n" + b) == [l]
  {
    CleanLinesCons(mid, b);
  }

  /** A line padded with spaces between two blank lines is cleaned to the
      line itself (the last case of the test file is `Content here` with
      two spaces everywhere else). */
  lemma CleanTextPaddedLine(i: nat, j: nat, l: string, k: nat, m: nat)
    requires CleanLine(l)
    ensures CleanText(Spaces(i) + "\n" + Spaces(j) + l + Spaces(k) + "\n" + Spaces(m)) == l
  {
    var mid := Spaces(j) + l + Spaces(k);
    var text := Spaces(i) + "\n" + (mid + "\n" + Spaces(m));
    assert Spaces(i) + "\n" + Spaces(j) + l + Spaces(k) + "\n" + Spaces(m) == text by {
      ConcatAssoc6(Spaces(i) + "\n", Spaces(j), l, Spaces(k), "\n", Spaces(m));
    }
    assert CleanLines(text) == [l] by {
      assert '\n' !in Spaces(i);
      PaddedLineShape(j, l, k);
      CleanLinesBlank(i);
      CleanLinesBlank(m);
      CleanLinesPaddedLine(j, l, k);
      CleanLinesBetweenBlanks(Spaces(i), mid, Spaces(m), l);
    }
    CleanTextOneLine(text, l);
  }

  /** Two one-line results put together are the two lines in order. */
  lemma ConcatSingletons(x: seq<string>, y: seq<string>, l1: string, l2: string)
    requires x == [l1] && y == [l2]
    ensures x + y == [l1, l2]
  {
  }

  /** Two lines padded with spaces are cleaned to the two lines, one
      newline apart. */
  lemma CleanTextTwoPaddedLines(j1: nat, l1: string, k1: nat, j2: nat, l2: string, k2: nat)
    requires CleanLine(l1) && CleanLine(l2)
    ensures CleanText(Spaces(j1) + l1 + Spaces(k1) + "\n" + Spaces(j2) + l2 + Spaces(k2)) == l1 + "\n" + l2
  {
    var a := Spaces(j1) + l1 + Spaces(k1);
    var b := Spaces(j2) + l2 + Spaces(k2);
    assert Spaces(j1) + l1 + Spaces(k1) + "\n" + Spaces(j2) + l2 + Spaces(k2) == a + "\n" + b by {
      ConcatAssoc4(a + "\n", Spaces(j2), l2, Spaces(k2));
    }
    CleanLinesTwoPadded(j1, l1, k1, j2, l2, k2);
    CleanTextTwoLines(a + "\n" + b, l1, l2);
  }

  lemma CleanLinesTwoPadded(j1: nat, l1: string, k1: nat, j2: nat, l2: string, k2: nat)
    requires CleanLine(l1) && CleanLine(l2)
    ensures CleanLines(Spaces(j1) + l1 + Spaces(k1) + "\n" + (Spaces(j2) + l2 + Spaces(k2))) == [l1, l2]
  {
    PaddedLineShape(j1, l1, k1);
    PaddedLineShape(j2, l2, k2);
    CleanLinesPaddedLine(j1, l1, k1);
    CleanLinesPaddedLine(j2, l2, k2);
    CleanLinesTwo(Spaces(j1) + l1 + Spaces(k1), Spaces(j2) + l2 + Spaces(k2), l1, l2);
  }

  lemma CleanLinesTwo(a: string, b: string, l1: string, l2: string)
    requires '\n' !in a && b != "" && b[0] != '\n'
    requires CleanLines(a) == [l1] && CleanLines(b) == [l2]
    ensures CleanLines(a + "\n" + b) == [l1, l2]
  {
    CleanLinesCons(a, b);
    ConcatSingletons(CleanLines(a), CleanLines(b), l1, l2);
  }

  /** A text cleaned to two clean lines is those lines, one newline
      apart. */
  lemma CleanTextTwoLines(text: string, l1: string, l2: string)
    requires CleanLines(text) == [l1, l2] && CleanLine(l1) && CleanLine(l2)
    ensures CleanText(text) == l1 + "\n" + l2
  {
    var t := l1 + "\n" + l2;
    assert JoinLines([l1, l2]) == t by {
      assert [l1, l2][1..] == [l2];
    }
    assert IsTrimmed(t) by {
      assert t[0] == l1[0] && t[|t| - 1] == l2[|l2| - 1];
    }
    TrimFixpoint(t);
  }

  // Three cases of server/documents.test.ts, as instances of the lemmas
  // above.

  lemma HelloWords()
    ensures IsWord("Hello") && IsWord("world") && IsWord("test")
  {
  }

  lemma HelloPieces()
    ensures "Hello" + Spaces(4) + "world" + Spaces(4) + "test" == "Hello    world    test"
    ensures "Hello" + " " + "world" + " " + "test" == "Hello world test"
  {
    assert Spaces(4) == "    ";
  }

  lemma ContentLine()
    ensures CleanLine("Content here")
  {
  }

  lemma ContentPieces()
    ensures Spaces(2) + "\n" + Spaces(2) + "Content here" + Spaces(2) + "\n" + Spaces(2)
      == "  \n  Content here  \n  "
  {
    var p := Spaces(2) + "\n" + Spaces(2);
    assert p == "  \n  ";
    assert p + "Content here" == "  \n  Content here";
    assert p + "Content here" + Spaces(2) == "  \n  Content here  ";
    assert p + "Content here" + Spaces(2) + "\n" == "  \n  Content here  \n";
  }

  lemma LinePieces()
    ensures CleanLine("Line 1") && CleanLine("Line 2")
    ensures Spaces(2) + "Line 1" + Spaces(2) + "\n" + Spaces(2) + "Line 2" + Spaces(2)
      == "  Line 1  \n  Line 2  "
    ensures "Line 1" + "\n" + "Line 2" == "Line 1\nLine 2"
  {
    var p := Spaces(2) + "Line 1" + Spaces(2);
    assert p == "  Line 1  ";
    assert p + "\n" + Spaces(2) == "  Line 1  \n  ";
    assert p + "\n" + Spaces(2) + "Line 2" == "  Line 1  \n  Line 2";
  }

  lemma CleanTextExamples()
    ensures CleanText("Hello    world    test") == "Hello world test"
    ensures CleanText("  \n  Content here  \n  ") == "Content here"
    ensures CleanText("  Line 1  \n  Line 2  ") == "Line 1\nLine 2"
  {
    HelloWords();
    HelloPieces();
    CleanTextSpacedWords("Hello", 4, "world", 4, "test");
    ContentLine();
    ContentPieces();
    CleanTextPaddedLine(2, 2, "Content here", 2, 2);
    LinePieces();
    CleanTextTwoPaddedLines(2, "Line 1", 2, 2, "Line 2", 2);
  }
}
