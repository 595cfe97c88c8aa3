/**
  The library page of client/src/pages/Library.tsx: the search filter over
  the user's documents, and the preview and reading time shown on each
  document card.
*/
module Library {
  import opened Wrappers
  import opened JsString

  /** A stored document, as far as the library page uses it. */
  datatype Document = Document(title: string, content: string, readingTime: Option<int>)

  /** The query occurs, ignoring case, in the title or in the content. */
  predicate MatchesSearch(doc: Document, searchQuery: string) {
    Contains(Lower(doc.title), Lower(searchQuery)) || Contains(Lower(doc.content), Lower(searchQuery))
  }

  /** `documents.filter(...)`. */
  function Filter(docs: seq<Document>, searchQuery: string): seq<Document> {
    if |docs| == 0 then []
    else
      var last := docs[|docs| - 1];
      Filter(docs[..|docs| - 1], searchQuery) + (if MatchesSearch(last, searchQuery) then [last] else [])
  }

  /** `filteredDocuments`: the documents still loading are `undefined`,
      which `|| []` turns into the empty list. The selected tag is part of
      the page's state but is not consulted. */
  function FilteredDocuments(documents: Option<seq<Document>>, searchQuery: string, selectedTag: Option<string>): seq<Document> {
    if documents.None? then [] else Filter(documents.value, searchQuery)
  }

  /** A document is kept exactly when it matches, and nothing else is
      added. */
  lemma {:induction false} FilterMembership(docs: seq<Document>, searchQuery: string)
    ensures forall d :: d in Filter(docs, searchQuery) <==> d in docs && MatchesSearch(d, searchQuery)
    ensures |Filter(docs, searchQuery)| <= |docs|
  {
    if |docs| > 0 {
      var init := docs[..|docs| - 1];
      FilterMembership(init, searchQuery);
      assert docs == init + [docs[|docs| - 1]];
    }
  }

  /** Filtering keeps the original order: the kept documents of two
      consecutive runs are those of the first run, then those of the
      second. */
  lemma {:induction false} FilterAppend(a: seq<Document>, b: seq<Document>, searchQuery: string)
    ensures Filter(a + b, searchQuery) == Filter(a, searchQuery) + Filter(b, searchQuery)
  {
    if |b| > 0 {
      var b' := b[..|b| - 1];
      FilterAppend(a, b', searchQuery);
      assert (a + b)[..|a + b| - 1] == a + b';
    } else {
      assert a + b == a;
    }
  }

  /** The empty query keeps every document. */
  lemma {:induction false} FilterEmptyQuery(docs: seq<Document>)
    ensures Filter(docs, "") == docs
  {
    if |docs| > 0 {
      FilterEmptyQuery(docs[..|docs| - 1]);
      ContainsEmpty(Lower(docs[|docs| - 1].title));
    }
  }

  /** The list is empty while the documents are undefined; the selected tag
      changes nothing; and the query's case does not matter. */
  lemma FilteredDocumentsSpec(documents: Option<seq<Document>>, searchQuery: string, tag1: Option<string>, tag2: Option<string>)
    ensures documents.None? ==> FilteredDocuments(documents, searchQuery, tag1) == []
    ensures FilteredDocuments(documents, searchQuery, tag1) == FilteredDocuments(documents, searchQuery, tag2)
    ensures FilteredDocuments(documents, Lower(searchQuery), tag1) == FilteredDocuments(documents, searchQuery, tag1)
  {
    if documents.Some? {
      FilterLowerQuery(documents.value, searchQuery);
    }
  }

  lemma {:induction false} FilterLowerQuery(docs: seq<Document>, searchQuery: string)
    ensures Filter(docs, Lower(searchQuery)) == Filter(docs, searchQuery)
  {
    LowerIdempotent(searchQuery);
    if |docs| > 0 {
      FilterLowerQuery(docs[..|docs| - 1], searchQuery);
    }
  }

  // ---------------------------------------------------------------------
  // The document card.

  const PreviewLength: nat := 150
  const DefaultReadingTime: int := 5

  /** `{doc.content.substring(0, 150)}...`: the ellipsis is always shown. */
  function Preview(content: string): string {
    (if |content| <= PreviewLength then content else content[..PreviewLength]) + "..."
  }

  /** The preview is the first 150 characters of the content, or all of a
      shorter content, followed by the ellipsis. */
  lemma PreviewSpec(content: string)
    ensures var p := Preview(content);
      && |p| == (if |content| <= PreviewLength then |content| else PreviewLength) + 3
      && p[..|p| - 3] <= content
      && p[|p| - 3..] == "..."
  {
  }

  /** `{doc.readingTime || 5}`: a missing or zero reading time shows 5. */
  function DisplayedReadingTime(readingTime: Option<int>): int {
    if readingTime.Some? && readingTime.value != 0 then readingTime.value else DefaultReadingTime
  }

  lemma DisplayedReadingTimeSpec(readingTime: Option<int>)
    ensures readingTime.None? || readingTime.value == 0 ==> DisplayedReadingTime(readingTime) == 5
    ensures readingTime.Some? && readingTime.value != 0 ==> DisplayedReadingTime(readingTime) == readingTime.value
    ensures DisplayedReadingTime(readingTime) != 0
  {
  }
}
