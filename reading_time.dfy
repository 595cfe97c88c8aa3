/**
  `estimateReadingTime` of server/parsers.ts: the number of words (the
  non-empty pieces of `text.split(/\s+/)`) divided by a reading speed of
  225 words per minute, rounded up, and never less than one minute.
*/
module ReadingTime {
  import opened JsString
  import opened TextNormalizer

  const WordsPerMinute: nat := 225

  /** The maximal runs of non-white-space characters, in order; this is what
      `text.split(/\s+/).filter((word) => word.length > 0)` returns. */
  function Words(s: string): (ws: seq<string>)
    ensures |s| > 0 && !IsSpace(s[0]) ==> |ws| > 0
  {
    if |s| == 0 then []
    else
      var rest := Words(s[1..]);
      if IsSpace(s[0]) then rest
      else if |s| > 1 && !IsSpace(s[1]) then [[s[0]] + rest[0]] + rest[1..]
      else [[s[0]]] + rest
  }

  function WordCount(s: string): nat {
    |Words(s)|
  }

  /** `Math.max(1, Math.ceil(wordCount / 225))`: the fewest whole minutes,
      at least one, in which all the words can be read. */
  function MinutesFor(wordCount: nat): (minutes: int)
    ensures minutes >= 1
    ensures wordCount <= minutes * WordsPerMinute
    ensures minutes == 1 || (minutes - 1) * WordsPerMinute < wordCount
  {
    var ceiling := (wordCount + WordsPerMinute - 1) / WordsPerMinute;
    if ceiling > 1 then ceiling else 1
  }

  /** `estimateReadingTime`. */
  function EstimateReadingTime(text: string): int {
    MinutesFor(WordCount(text))
  }

  // ---------------------------------------------------------------------
  // Words.

  /** Every word is non-empty and holds no white space. */
  lemma {:induction false} WordsAreWords(s: string)
    ensures forall w :: w in Words(s) ==> w != "" && forall i :: 0 <= i < |w| ==> !IsSpace(w[i])
  {
    if |s| > 0 {
      WordsAreWords(s[1..]);
      var rest := Words(s[1..]);
      if !IsSpace(s[0]) && |s| > 1 && !IsSpace(s[1]) {
        assert rest[0] in rest;
      }
    }
  }

  /** One character in front of a text: white space adds nothing, a
      non-white-space character starts a word or extends the first one. */
  lemma WordsCons(x: char, t: string)
    ensures Words([x] + t) ==
      if IsSpace(x) then Words(t)
      else if |t| > 0 && !IsSpace(t[0]) then [[x] + Words(t)[0]] + Words(t)[1..]
      else [[x]] + Words(t)
  {
    assert ([x] + t)[1..] == t;
  }

  /** The inductive step of `WordsAcrossSpace`: a character in front of
      the left part. */
  lemma WordsAcrossSpaceStep(x: char, a: string, t: string, right: seq<string>)
    requires |t| > 0 && (|a| > 0 ==> t[0] == a[0]) && (|a| == 0 ==> IsSpace(t[0]))
    requires Words(t) == Words(a) + right
    ensures Words([x] + t) == Words([x] + a) + right
  {
    if IsSpace(x) {
      WordsCons(x, t);
      WordsCons(x, a);
    } else if |a| == 0 || IsSpace(a[0]) {
      StepStartsWord(x, a, t, right);
    } else {
      StepExtendsWord(x, a, t, right);
    }
  }

  /** The step when `x` starts a word of its own. */
  lemma StepStartsWord(x: char, a: string, t: string, right: seq<string>)
    requires |t| > 0 && !IsSpace(x) && IsSpace(t[0]) && (|a| == 0 || IsSpace(a[0]))
    requires Words(t) == Words(a) + right
    ensures Words([x] + t) == Words([x] + a) + right
  {
    WordsCons(x, t);
    WordsCons(x, a);
    ConcatAssoc([[x]], Words(a), right);
  }

  /** The step when `x` extends the first word. */
  lemma StepExtendsWord(x: char, a: string, t: string, right: seq<string>)
    requires |t| > 0 && !IsSpace(x) && |a| > 0 && t[0] == a[0] && !IsSpace(a[0])
    requires Words(t) == Words(a) + right
    ensures Words([x] + t) == Words([x] + a) + right
  {
    WordsCons(x, t);
    WordsCons(x, a);
    ExtendFirst([x], Words(a), right);
  }

  /** Extending the first word commutes with appending more words. */
  lemma ExtendFirst(p: string, left: seq<string>, right: seq<string>)
    requires |left| > 0
    ensures [p + (left + right)[0]] + (left + right)[1..] == ([p + left[0]] + left[1..]) + right
  {
    assert (left + right)[1..] == left[1..] + right;
    ConcatAssoc([p + left[0]], left[1..], right);
  }

  /** A white-space character separates: the words on either side of it do
      not run together. */
  lemma {:induction false} WordsAcrossSpace(a: string, c: char, b: string)
    requires IsSpace(c)
    ensures Words(a + [c] + b) == Words(a) + Words(b)
  {
    if |a| == 0 {
      assert a + [c] + b == [c] + b;
      WordsCons(c, b);
    } else {
      var t := a[1..] + [c] + b;
      assert a + [c] + b == [a[0]] + t;
      assert a == [a[0]] + a[1..];
      WordsAcrossSpace(a[1..], c, b);
      WordsAcrossSpaceStep(a[0], a[1..], t, Words(b));
    }
  }

  /** A non-empty run without white space is one word. */
  lemma {:induction false} WordsOfWord(w: string)
    requires w != "" && forall i :: 0 <= i < |w| ==> !IsSpace(w[i])
    ensures Words(w) == [w]
  {
    if |w| > 1 {
      WordsOfWord(w[1..]);
      assert [w[0]] + w[1..] == w;
    } else {
      assert w == [w[0]] + [];
      WordsCons(w[0], []);
      assert Words([]) == [];
      assert [w[0]] == w;
    }
  }

  lemma {:induction false} WordsTrimStart(s: string)
    ensures Words(TrimStart(s)) == Words(s)
  {
    TrimStartStep(s);
    if |s| > 0 && IsSpace(s[0]) {
      WordsTrimStart(s[1..]);
    }
  }

  lemma {:induction false} WordsTrimEnd(s: string)
    ensures Words(TrimEnd(s)) == Words(s)
  {
    TrimEndStep(s);
    if |s| > 0 && IsSpace(s[|s| - 1]) {
      var a := s[..|s| - 1];
      WordsTrimEnd(a);
      WordsAcrossSpace(a, s[|s| - 1], "");
      assert a + [s[|s| - 1]] + "" == s;
    }
  }

  /** Trimming loses no word. */
  lemma WordsTrim(s: string)
    ensures Words(Trim(s)) == Words(s)
  {
    WordsTrimStart(s);
    WordsTrimEnd(TrimStart(s));
  }

  lemma {:induction false} WordsCollapseSpaces(s: string)
    ensures Words(CollapseSpaces(s)) == Words(s)
  {
    if |s| > 0 {
      WordsCollapseSpaces(s[1..]);
      var r := CollapseSpaces(s[1..]);
      if !(|s| >= 2 && s[0] == ' ' && s[1] == ' ') {
        assert ([s[0]] + r)[1..] == r;
      }
    }
  }

  lemma {:induction false} WordsCapNewlines(s: string)
    ensures Words(CapNewlines(s)) == Words(s)
  {
    if |s| > 0 {
      WordsCapNewlines(s[1..]);
      var r := CapNewlines(s[1..]);
      if !(|s| >= 3 && s[0] == '\n' && s[1] == '\n' && s[2] == '\n') {
        assert ([s[0]] + r)[1..] == r;
      }
    }
  }

  /** The words of several lines, line after line. */
  function WordsOfLines(lines: seq<string>): seq<string> {
    if |lines| == 0 then [] else Words(lines[0]) + WordsOfLines(lines[1..])
  }

  lemma {:induction false} WordsJoinLines(lines: seq<string>)
    ensures Words(JoinLines(lines)) == WordsOfLines(lines)
  {
    if |lines| == 1 {
      assert WordsOfLines(lines[1..]) == [];
    } else if |lines| > 1 {
      WordsJoinLines(lines[1..]);
      WordsAcrossSpace(lines[0], '\n', JoinLines(lines[1..]));
      assert lines[0] + "\n" + JoinLines(lines[1..]) == lines[0] + ['\n'] + JoinLines(lines[1..]);
    }
  }

  lemma {:induction false} WordsTrimEach(lines: seq<string>)
    ensures WordsOfLines(TrimEach(lines)) == WordsOfLines(lines)
  {
    if |lines| > 0 {
      assert TrimEach(lines)[1..] == TrimEach(lines[1..]);
      WordsTrimEach(lines[1..]);
      WordsTrim(lines[0]);
    }
  }

  lemma {:induction false} WordsDropEmpty(lines: seq<string>)
    ensures WordsOfLines(DropEmpty(lines)) == WordsOfLines(lines)
  {
    if |lines| > 0 {
      WordsDropEmpty(lines[1..]);
    }
  }

  /** `cleanText` changes white space only: the words, and so the word
      count, are those of the raw text. */
  lemma CleanTextKeepsWords(text: string)
    ensures Words(CleanText(text)) == Words(text)
  {
    var x := CapNewlines(CollapseSpaces(text));
    WordsCollapseSpaces(text);
    WordsCapNewlines(CollapseSpaces(text));
    var split := SplitLines(x);
    SplitThenJoin(x);
    WordsJoinLines(split);
    WordsTrimEach(split);
    WordsDropEmpty(TrimEach(split));
    WordsJoinLines(CleanLines(text));
    WordsTrim(JoinLines(CleanLines(text)));
  }

  /** Hence the reading time of the cleaned text equals that of the raw
      text. */
  lemma CleanTextKeepsReadingTime(text: string)
    ensures EstimateReadingTime(CleanText(text)) == EstimateReadingTime(text)
  {
    CleanTextKeepsWords(text);
  }

  // ---------------------------------------------------------------------
  // Minutes.

  /** More words never take less time. */
  lemma MinutesMonotone(m: nat, n: nat)
    requires m <= n
    ensures MinutesFor(m) <= MinutesFor(n)
  {
  }

  /** Up to one minute's worth of words reads in one minute. */
  lemma MinutesFloor(n: nat)
    ensures MinutesFor(n) == 1 <==> n <= WordsPerMinute
  {
  }

  /** `'word '.repeat(n)`. */
  function RepeatWord(n: nat): string {
    if n == 0 then "" else "word " + RepeatWord(n - 1)
  }

  lemma {:induction false} RepeatWordCount(n: nat)
    ensures WordCount(RepeatWord(n)) == n
  {
    if n > 0 {
      RepeatWordCount(n - 1);
      WordsAcrossSpace("word", ' ', RepeatWord(n - 1));
      assert "word " + RepeatWord(n - 1) == "word" + [' '] + RepeatWord(n - 1);
      WordsOfWord("word");
    }
  }

  /** 225 words read in one minute, 1000 words in five. */
  lemma ReadingTimeExamples()
    ensures EstimateReadingTime(RepeatWord(225)) == 1
    ensures EstimateReadingTime(RepeatWord(1000)) == 5
    ensures EstimateReadingTime("") == 1
  {
    RepeatWordCount(225);
    RepeatWordCount(1000);
  }
}
