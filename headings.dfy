/**
  `extractHeadings` of server/parsers.ts: the table of contents of an HTML
  document. The HTML parse is not modelled; the document is given as its
  elements in document order, and `querySelectorAll('h1, h2, h3, h4, h5,
  h6')` keeps those whose tag name is a heading tag. A heading without an
  `id` attribute gets `heading-<n>`, where a counter numbers those
  headings from 0.
*/
module Headings {
  import opened JsString
  import opened Wrappers

  /** An element as the DOM reports it: its upper-case tag name, its `id`
      attribute (empty when absent) and its `textContent`. */
  datatype Element = Element(tagName: string, id: string, textContent: Option<string>)

  datatype TocEntry = TocEntry(level: int, text: string, id: string)

  predicate IsHeadingTag(tagName: string) {
    |tagName| == 2 && tagName[0] == 'H' && '1' <= tagName[1] <= '6'
  }

  /** The elements `querySelectorAll` returns, in document order. */
  function SelectHeadings(elements: seq<Element>): (hs: seq<Element>)
    ensures |hs| <= |elements|
    ensures forall k :: 0 <= k < |hs| ==> IsHeadingTag(hs[k].tagName)
  {
    if |elements| == 0 then []
    else
      var init := SelectHeadings(elements[..|elements| - 1]);
      var last := elements[|elements| - 1];
      if IsHeadingTag(last.tagName) then init + [last] else init
  }

  /** Exactly the heading elements are selected. */
  lemma {:induction false} SelectHeadingsMembership(elements: seq<Element>)
    ensures forall e :: e in SelectHeadings(elements) <==> e in elements && IsHeadingTag(e.tagName)
  {
    if |elements| > 0 {
      var init := elements[..|elements| - 1];
      SelectHeadingsMembership(init);
      assert elements == init + [elements[|elements| - 1]];
    }
  }

  /** `parseInt(heading.tagName[1])` on a heading tag. */
  function Level(tagName: string): int
    requires IsHeadingTag(tagName)
  {
    tagName[1] as int - '0' as int
  }

  function TextOf(e: Element): string {
    match e.textContent
    case Some(t) => t
    case None => ""
  }

  /** How many of the headings have no `id`: the value of the counter
      after them. */
  function MissingIds(hs: seq<Element>): nat {
    if |hs| == 0 then 0
    else MissingIds(hs[..|hs| - 1]) + (if hs[|hs| - 1].id == "" then 1 else 0)
  }

  function SyntheticId(n: nat): string {
    "heading-" + NatToString(n)
  }

  /** The entry for the `k`-th heading: its level, its text, and its own
      `id` or else the synthetic one numbered by the headings without an
      `id` before it. */
  function Entry(hs: seq<Element>, k: nat): TocEntry
    requires k < |hs| && IsHeadingTag(hs[k].tagName)
  {
    var h := hs[k];
    TocEntry(Level(h.tagName), TextOf(h), if h.id != "" then h.id else SyntheticId(MissingIds(hs[..k])))
  }

  /** `extractHeadings`: one entry per heading, in document order. */
  method ExtractHeadings(elements: seq<Element>) returns (headings: seq<TocEntry>)
    ensures var hs := SelectHeadings(elements);
      && |headings| == |hs|
      && forall k :: 0 <= k < |hs| ==> headings[k] == Entry(hs, k)
  {
    var hs := SelectHeadings(elements);
    headings := [];
    var headingCount: nat := 0;
    for k := 0 to |hs|
      invariant |headings| == k
      invariant headingCount == MissingIds(hs[..k])
      invariant forall m :: 0 <= m < k ==> headings[m] == Entry(hs, m)
    {
      var heading := hs[k];
      EntryStep(hs, k, headingCount);
      var level := Level(heading.tagName);
      var text := TextOf(heading);
      var id: string;
      if heading.id != "" {
        id := heading.id;
      } else {
        id := SyntheticId(headingCount);
        headingCount := headingCount + 1;
      }
      headings := headings + [TocEntry(level, text, id)];
    }
  }

  /** One step of the loop: the entry of the `k`-th heading, and the
      counter after it. */
  lemma EntryStep(hs: seq<Element>, k: nat, count: nat)
    requires k < |hs| && IsHeadingTag(hs[k].tagName) && count == MissingIds(hs[..k])
    ensures Entry(hs, k) == TocEntry(Level(hs[k].tagName), TextOf(hs[k]),
      if hs[k].id != "" then hs[k].id else SyntheticId(count))
    ensures MissingIds(hs[..k + 1]) == count + (if hs[k].id == "" then 1 else 0)
  {
    assert hs[..k + 1][..k] == hs[..k];
  }

  // ---------------------------------------------------------------------
  // Properties.

  /** Selection keeps document order: the headings of two consecutive
      parts of a document are those of the first part, then those of the
      second. */
  lemma {:induction false} SelectHeadingsAppend(a: seq<Element>, b: seq<Element>)
    ensures SelectHeadings(a + b) == SelectHeadings(a) + SelectHeadings(b)
  {
    if |b| > 0 {
      var b' := b[..|b| - 1];
      SelectHeadingsAppend(a, b');
      assert (a + b)[..|a + b| - 1] == a + b';
    } else {
      assert a + b == a;
    }
  }

  /** Every level is between 1 and 6, and is the digit of the tag name. */
  lemma EntryLevel(hs: seq<Element>, k: nat)
    requires k < |hs| && IsHeadingTag(hs[k].tagName)
    ensures 1 <= Entry(hs, k).level <= 6
    ensures hs[k].tagName == ['H', ('0' as int + Entry(hs, k).level) as char]
  {
  }

  /** The counter never decreases along the headings, and steps past every
      heading without an `id`. */
  lemma {:induction false} MissingIdsGrow(hs: seq<Element>, i: nat, j: nat)
    requires i <= j <= |hs|
    ensures MissingIds(hs[..i]) <= MissingIds(hs[..j])
    ensures i < j && hs[i].id == "" ==> MissingIds(hs[..i]) < MissingIds(hs[..j])
  {
    if i < j {
      MissingIdsGrow(hs, i, j - 1);
      assert hs[..j][..j - 1] == hs[..j - 1];
      if i == j - 1 {
        assert hs[..j][j - 1] == hs[i];
      }
    }
  }

  /** Two headings without an `id` never get the same synthetic id. */
  lemma SyntheticIdsDistinct(hs: seq<Element>, i: nat, j: nat)
    requires i < j < |hs| && IsHeadingTag(hs[i].tagName) && IsHeadingTag(hs[j].tagName)
    requires hs[i].id == "" && hs[j].id == ""
    ensures Entry(hs, i).id != Entry(hs, j).id
  {
    MissingIdsGrow(hs, i, j);
    var m, n := MissingIds(hs[..i]), MissingIds(hs[..j]);
    if SyntheticId(m) == SyntheticId(n) {
      assert NatToString(m) == SyntheticId(m)[8..];
      assert NatToString(n) == SyntheticId(n)[8..];
      NatToStringInjective(m, n);
    }
  }

  /** The synthetic numbers have no gap: each of 0, 1, ..., up to the number
      of headings without an `id`, is given to one of them. */
  lemma {:induction false} SyntheticNumbersGapless(hs: seq<Element>, n: nat)
    requires n < MissingIds(hs)
    ensures exists k :: 0 <= k < |hs| && hs[k].id == "" && MissingIds(hs[..k]) == n
  {
    var init := hs[..|hs| - 1];
    assert hs[..|hs| - 1] == init;
    if n < MissingIds(init) {
      SyntheticNumbersGapless(init, n);
      var k :| 0 <= k < |init| && init[k].id == "" && MissingIds(init[..k]) == n;
      assert init[..k] == hs[..k];
    } else {
      assert hs[|hs| - 1].id == "" && MissingIds(hs[..|hs| - 1]) == n;
    }
  }
}
