# readItLater: the ingestion and annotation core in Dafny

readItLater is a read-it-later service. A user saves an article from a URL,
an uploaded PDF or pasted text. The server cleans the text, estimates a
reading time, tags the document by keywords and builds a table of contents.
The client lets the user highlight passages, write notes and search the
library.

This project models the deterministic part of that pipeline and proves
properties of it:

- `server/parsers.ts`:
  - `cleanText` (module `TextNormalizer`) is a chain of functions, one per
    stage: collapse runs of spaces, cap runs of newlines, split into lines,
    trim each line, drop the empty lines, join, trim.
  - `estimateReadingTime` (module `ReadingTime`) counts the maximal runs of
    non-white-space characters.
  - `autoTag` (module `Tagger`) is a method with a loop. It is proved
    against a function that lists the matching categories of the keyword
    table.
  - `extractHeadings` (module `Headings`) is a method with a loop and the
    synthetic-id counter. It is proved against a function that gives the
    entry of each heading.
- `server/api-routes.ts` (module `ApiRoutes`): the three upload endpoints,
  each a function from the request to a response datatype (`Ok`,
  `BadRequest` with status 400, `ServerError` with status 500). The
  `parseUrl` and `parsePdf` wrappers are modelled here too. What the fetch,
  Readability and the PDF extractor produce is an input value.
- `client/src/components/TextHighlighter.tsx` (module `TextHighlighter`):
  a class holding the selected colour, and the highlight request built
  from the current selection.
- `client/src/components/HighlightsAndNotes.tsx` (module
  `HighlightsAndNotes`): a class holding the note editor's state
  (`newNoteText`, `editingNoteId`), with the save, edit, cancel and
  mutation-success transitions, plus the highlight colour classes.
- `client/src/pages/Library.tsx` (module `Library`): the search filter, the
  card preview and the default reading time.

JavaScript's string built-ins are modelled in module `JsString` over one
explicit character model:

- `IsSpace` is the ECMAScript set of white-space and line-terminator
  characters. Both `String.prototype.trim` and the `\s` class use that set.
- `Lower` lower-cases the ASCII letters `A`–`Z` only.
- `Contains` and `IndexOf` are substring search.
- `ReplaceFirst` is `String.prototype.replace` with a string pattern, which
  replaces only the first occurrence.

Results of modelling that are worth knowing:

- `cleanText` never leaves a blank line. The `\n\n\n+` to `\n\n` step is
  undone by the later split and filter, so the result joins its non-empty
  lines with a single `\n` (`TextNormalizer.CleanTextShape`).
- The reading time `/parse-text` reports is computed from the cleaned text.
  It always equals the reading time of the raw text, because cleaning
  changes white space only (`ReadingTime.CleanTextKeepsWords`).
- The highlighter's pre-caret root is always the document body, because
  `contentRef` is never attached to an element. `startOffset` is not
  clamped.
- A note whose id is `0` is falsy, so saving it creates a new note instead
  of updating it.
- A PDF title has no fallback: a file named `.pdf` gets the empty title
  (`server/api-routes.ts:86`).
- `autoTag` returns the category names in table order.
- The `/parse-text` title `Untitled Document` does not mean the text was
  empty: pasting those two words gives the same title
  (`ApiRoutes.UntitledDocumentText`).

## Model

| member | source | states |
|---|---|---|
| JsString.TrimStart | server/parsers.ts:75 | the result is a suffix of the input; everything cut off is white space; the result does not start with white space |
| JsString.TrimEnd | server/parsers.ts:75 | the result is a prefix of the input; everything cut off is white space; the result does not end with white space |
| JsString.TrimSlice | server/parsers.ts:75 | `trim` keeps one contiguous slice of the input, only white space lies on either side of it, and the slice is trimmed |
| JsString.TrimFixpoint | server/parsers.ts:79 | trimming leaves a string unchanged exactly when it neither begins nor ends with white space |
| JsString.TrimEmpty | server/parsers.ts:76 | a trimmed line is empty exactly when the line is all white space |
| JsString.TrimPadded | server/parsers.ts:79 | a trimmed text between runs of white space is recovered by trimming |
| JsString.Lower | client/src/pages/Library.tsx:31-32 | no capital letter is left; each capital becomes its small letter; every other character is unchanged; the length is kept |
| JsString.LowerIdempotent | client/src/pages/Library.tsx:31-32 | lower-casing twice is lower-casing once |
| JsString.LowerConcat | server/parsers.ts:97 | lower-casing a concatenation lower-cases each part |
| JsString.NatToStringInjective | server/parsers.ts:131 | distinct counters give distinct decimal strings in the template literal |
| JsString.IndexOf | server/api-routes.ts:86 | the position returned holds the pattern and no earlier position does; none exactly when the pattern does not occur |
| JsString.ReplaceFirstSpec | server/api-routes.ts:86 | `replace` with a string pattern cuts out only the first occurrence, and changes nothing when the pattern is absent |
| TextNormalizer.CollapseSpacesNoDouble | server/parsers.ts:70 | after `replace(/  +/g, ' ')` no two spaces are adjacent |
| ReadingTime.WordsCollapseSpaces | server/parsers.ts:70 | collapsing spaces changes no word |
| TextNormalizer.CapNewlinesShape | server/parsers.ts:72 | after `replace(/\n\n\n+/g, '\n\n')` there are never three newlines in a row, and no doubled space is introduced |
| TextNormalizer.SplitLines | server/parsers.ts:74 | `split('\n')` gives at least one piece, none holding a newline, the first being a prefix of the text |
| TextNormalizer.SplitThenJoin | server/parsers.ts:74-77 | joining the pieces of a split with `\n` rebuilds the text |
| TextNormalizer.JoinThenSplit | server/parsers.ts:74-77 | splitting a join of newline-free lines gives the lines back |
| TextNormalizer.DropEmpty | server/parsers.ts:76 | the filter keeps exactly the non-empty lines (their order is fixed by `DropEmptyAppend`) |
| TextNormalizer.DropEmptyAppend | server/parsers.ts:76 | filtering two runs of lines gives the kept lines of the first, then those of the second, so the kept lines stay in their order |
| TextNormalizer.CleanLinesAreClean | server/parsers.ts:70-76 | every line that survives is non-empty, has no newline, no doubled space and no white space at either end |
| TextNormalizer.CleanTextShape | server/parsers.ts:67-80 | the result has no doubled space, no blank line, no line beginning or ending with white space, and its lines are the cleaned lines |
| TextNormalizer.CleanTextOfClean | server/parsers.ts:67-80 | text that is already clean passes through unchanged |
| TextNormalizer.CleanTextIdempotent | server/parsers.ts:67-80 | cleaning the cleaned text changes nothing |
| TextNormalizer.CleanLinesCons | server/parsers.ts:70-76 | a text is cleaned line by line: a newline-free line followed by a newline and the rest contributes its own cleaned line before those of the rest |
| TextNormalizer.CleanTextSingleLine | server/parsers.ts:67-80 | a text without newlines is cleaned to itself with runs of spaces collapsed, then trimmed |
| TextNormalizer.CleanTextSpacedWords | server/documents.test.ts:7-11 | three words separated by runs of spaces are cleaned to the words separated by single spaces |
| TextNormalizer.CleanTextTwoPaddedLines | server/documents.test.ts:20-25 | two space-padded lines are cleaned to the two lines, one newline apart |
| TextNormalizer.CleanTextPaddedLine | server/documents.test.ts:34-38 | a padded line between two blank lines is cleaned to the line itself |
| TextNormalizer.CleanTextExamples | server/documents.test.ts:7-38 | the exact results of the first, third and fifth cleaning cases of the test file |
| ReadingTime.MinutesFor | server/parsers.ts:88-90 | at least one minute; the fewest whole minutes in which the words can be read at 225 per minute |
| ReadingTime.MinutesMonotone | server/parsers.ts:88-90 | more words never take less time |
| ReadingTime.MinutesFloor | server/parsers.ts:88-90 | the estimate is one minute exactly when there are at most 225 words |
| ReadingTime.WordsAreWords | server/parsers.ts:87 | every counted word is non-empty and holds no white space |
| ReadingTime.WordsAcrossSpace | server/parsers.ts:87 | a white-space character separates words: the words of the two sides are listed one after the other |
| ReadingTime.WordsTrim | server/parsers.ts:87 | trimming changes no word |
| ReadingTime.CleanTextKeepsWords | server/parsers.ts:67-87 | cleaning keeps exactly the words of the raw text, in order |
| ReadingTime.CleanTextKeepsReadingTime | server/api-routes.ts:51-52 | the reading time of the cleaned text equals that of the raw text |
| ReadingTime.RepeatWordCount | server/documents.test.ts:43 | `'word '.repeat(n)` has `n` words |
| ReadingTime.ReadingTimeExamples | server/documents.test.ts:42-63 | 225 words take one minute, 1000 words five, the empty text one |
| Tagger.AutoTag | server/parsers.ts:96-118 | the loop filling the set yields the matched category names in table order, or `General` when none matched |
| Tagger.MatchedIndicesSpec | server/parsers.ts:111-115 | the matched names are the names of exactly the matching categories, at increasing table positions |
| Tagger.MatchedNamesMember | server/parsers.ts:111-115 | a name is matched exactly when some category of that name matches |
| Tagger.MatchedNamesNoDuplicates | server/parsers.ts:98-115 | with distinct category names, no name is added twice |
| Tagger.TableNamesDistinct | server/parsers.ts:100-109 | the eight category names are distinct and none is `General` |
| Tagger.NameNotYetMatched | server/parsers.ts:111-114 | when the loop reaches a category, its name is not yet in the set |
| Tagger.TagsMembership | server/parsers.ts:97-117 | a category is a tag exactly when one of its keywords occurs in the lower-cased `title + " " + content`; `General` is a tag exactly when no category matches |
| Tagger.TagsFallback | server/parsers.ts:117 | the result is never empty, and is exactly `["General"]` when no category matches |
| Tagger.TagsOrdered | server/parsers.ts:98-117 | no tag appears twice and the tags follow the table order |
| Tagger.TagsCaseInsensitive | server/parsers.ts:97 | only the lower-cased title and content matter |
| Tagger.KeywordAt | server/parsers.ts:112 | a keyword occurring at any position makes its category a tag |
| Tagger.TechnologyExample | server/documents.test.ts:67-70 | the machine-learning article is tagged `Technology` |
| Tagger.ScienceExample | server/documents.test.ts:72-75 | the physics study is tagged `Science` |
| Tagger.BusinessExample | server/documents.test.ts:77-80 | the market report is tagged `Business` |
| Tagger.HealthExample | server/documents.test.ts:82-85 | the health tips are tagged `Health` |
| Tagger.EntertainmentExample | server/documents.test.ts:87-90 | the movie review is tagged `Entertainment` |
| Tagger.MultipleTagsExample | server/documents.test.ts:97-100 | the text about technology in medicine gets more than one tag |
| Tagger.TagsCaseExample | server/documents.test.ts:102-106 | upper- and lower-case inputs get the same tags |
| Headings.SelectHeadings | server/parsers.ts:128 | the selection is no longer than the document and holds only `H1`–`H6` elements |
| Headings.SelectHeadingsMembership | server/parsers.ts:128 | exactly the heading elements are selected |
| Headings.SelectHeadingsAppend | server/parsers.ts:128 | selection keeps document order |
| Headings.ExtractHeadings | server/parsers.ts:123-137 | one entry per heading, in document order, with the tag's level, the text content (empty when null) and the own id or `heading-<n>` numbered over the headings without an id |
| Headings.EntryStep | server/parsers.ts:129-133 | one iteration produces the entry of its heading and advances the counter only for a heading without an id |
| Headings.EntryLevel | server/parsers.ts:129 | every level is between 1 and 6 and is the digit of the tag name |
| Headings.MissingIdsGrow | server/parsers.ts:126-131 | the counter never decreases and steps past every heading without an id |
| Headings.SyntheticIdsDistinct | server/parsers.ts:131 | two headings without an id never get the same synthetic id |
| Headings.SyntheticNumbersGapless | server/parsers.ts:126-131 | the synthetic numbers run from 0 with no gap |
| ApiRoutes.ParseTextStatus | server/api-routes.ts:47-49 | the request is refused with 400 exactly when the text is absent, not a string or empty; otherwise it succeeds with status 200 |
| ApiRoutes.ParseTextContent | server/api-routes.ts:51-65 | the content is the cleaned text and the title is `TextTitle` of it; the content is already clean and unchanged by cleaning again, and the tags are those of the title and the cleaned text |
| ApiRoutes.ParseTextReadingTime | server/api-routes.ts:51-63 | the reading time is that of the cleaned text, equal to that of the raw text, and at least one |
| ApiRoutes.TextTitleSpec | server/api-routes.ts:54-56 | the fallback `Untitled Document` is used when the cleaned text is empty; otherwise the title is a non-empty, newline-free prefix of the first cleaned line, its first 100 characters or all of a shorter line |
| ApiRoutes.UntitledDocumentText | server/api-routes.ts:54-56 | the fallback is not a sign of an empty text: the text `Untitled Document` cleans to a non-empty content whose title is that same string |
| ApiRoutes.TitleOfLines | server/api-routes.ts:55-56 | the same title rule for any text that is empty or whose first line is clean |
| ApiRoutes.ParsePdfRouteSpec | server/api-routes.ts:77-102 | 400 without a file; 500 with the prefixed message when extraction fails; otherwise the file-name title, the extracted text (empty when missing), its reading time and the tags of title and text |
| ApiRoutes.PdfTitleSpec | server/api-routes.ts:86 | the title is the file name with its first `.pdf` cut out wherever it stands, and the whole name when there is none |
| ApiRoutes.PdfTitleExamples | server/api-routes.ts:86 | `.pdf` gives the empty title and `a.pdf.pdf` gives `a.pdf` |
| ApiRoutes.PdfTitleCaseExample | server/api-routes.ts:86 | `.PDF` is not removed |
| ApiRoutes.ParseUrlRouteSpec | server/api-routes.ts:15-38 | 400 without a URL; 500 with `Failed to parse URL: ` followed by the fetch error's own message, or by `Could not parse article` when no article is found; otherwise the article's title (default `Untitled`), its HTML content, the reading time of its plain text and the tags of title and content |
| TextHighlighter.OffsetsSpec | client/src/components/TextHighlighter.tsx:37-38 | the span is as long as the selection and ends at the end of the pre-caret text; the start is negative exactly when the selection is longer than the pre-caret text |
| TextHighlighter.OffsetsOfBodyRange | client/src/components/TextHighlighter.tsx:35-38 | selecting characters `start` to `end` of the body gives exactly those offsets |
| TextHighlighter.TextHighlighter.constructor | client/src/components/TextHighlighter.tsx:16 | the colour starts as yellow |
| TextHighlighter.TextHighlighter.OnValueChange | client/src/components/TextHighlighter.tsx:59-61 | a non-empty value becomes the colour; the empty value keeps it |
| TextHighlighter.TextHighlighter.HandleTextSelection | client/src/components/TextHighlighter.tsx:25-50 | a missing or empty selection is refused with its message and nothing else; otherwise the request carries the document, the selected text, the current colour and the offsets |
| TextHighlighter.ColorScenario | client/src/components/TextHighlighter.tsx:16-61 | a fresh highlighter sends yellow; after choosing red and deselecting it sends red |
| HighlightsAndNotes.NoteEditor.constructor | client/src/components/HighlightsAndNotes.tsx:26-27 | the editor starts with no text and no note being edited |
| HighlightsAndNotes.NoteEditor.SetNoteText | client/src/components/HighlightsAndNotes.tsx:157 | typing replaces the text and nothing else |
| HighlightsAndNotes.NoteEditor.SaveNote | client/src/components/HighlightsAndNotes.tsx:68-86 | blank text is refused exactly when it trims to empty; a truthy edited id gets an update with the untrimmed text; otherwise a note is created at offset 0; the state is not changed |
| HighlightsAndNotes.NoteEditor.Edit | client/src/components/HighlightsAndNotes.tsx:221-224 | editing a note takes its id and its content |
| HighlightsAndNotes.NoteEditor.Cancel | client/src/components/HighlightsAndNotes.tsx:201-204 | cancelling clears both the id and the text |
| HighlightsAndNotes.NoteEditor.OnUpdateSuccess | client/src/components/HighlightsAndNotes.tsx:43-50 | a confirmed update clears both the id and the text |
| HighlightsAndNotes.NoteEditor.OnCreateSuccess | client/src/components/HighlightsAndNotes.tsx:52-58 | a confirmed creation clears only the text |
| HighlightsAndNotes.EditThenSave | client/src/components/HighlightsAndNotes.tsx:68-86 | saving right after Edit sends the note back as an update, unless its content is blank or its id is 0, which creates a note |
| HighlightsAndNotes.EditCancelThenSave | client/src/components/HighlightsAndNotes.tsx:201-204 | after Cancel, a new text is created, not sent as an update |
| HighlightsAndNotes.CreateThenSaveAgain | client/src/components/HighlightsAndNotes.tsx:52-58 | after a confirmed creation, saving again is refused |
| HighlightsAndNotes.UpdateThenNewNote | client/src/components/HighlightsAndNotes.tsx:43-50 | after a confirmed update, the next note is created |
| HighlightsAndNotes.HighlightColorSpec | client/src/components/HighlightsAndNotes.tsx:88-99 | yellow, red and green get the classes of their own name; every other value gets gray |
| Library.FilterMembership | client/src/pages/Library.tsx:30-33 | a document is kept exactly when it matches the query, and no document is added |
| Library.FilterAppend | client/src/pages/Library.tsx:30-34 | filtering keeps the original order |
| Library.FilterEmptyQuery | client/src/pages/Library.tsx:30-33 | the empty query keeps every document |
| Library.FilteredDocumentsSpec | client/src/pages/Library.tsx:19-34 | no documents while they are undefined; the selected tag changes nothing; the query's case does not matter |
| Library.FilterLowerQuery | client/src/pages/Library.tsx:31-32 | lower-casing the query first gives the same list |
| Library.PreviewSpec | client/src/pages/Library.tsx:132 | the preview is the first 150 characters, or all of a shorter content, followed by `...` |
| Library.DisplayedReadingTimeSpec | client/src/pages/Library.tsx:138 | a missing or zero reading time shows 5, any other is shown as it is, and 0 is never shown |

## Left out

- Network and foreign libraries: the HTTP fetch (axios), JSDOM, Readability and pdf-parse are not modelled. Their outcome is an input value (`Fetched`, `PdfExtraction`), and the HTML parse inside `extractHeadings` is replaced by the document's elements in order.
- Persistence and plumbing: `server/db.ts`, `server/routers.ts`, the tRPC mutations and queries, toasts and `console.error` are not modelled. The note and highlight mutations are modelled only as the request they would send.
- UI: `removeAllRanges`, rendering, the delete buttons and their mutations, tab switching, the reading-progress badge (`Math.round` over a floating-point percentage), and the reading interfaces are not modelled.
- Character semantics: lengths are counted in Unicode scalar values, while JavaScript counts UTF-16 code units. The two agree for text in the Basic Multilingual Plane.
- JsString.Lower: lower-cases ASCII letters only, not the full Unicode case mapping of `toLowerCase`.
- TextNormalizer.CleanTextExamples: the second and fourth cleaning cases of the test file (blank lines between two lines, and mixed formatting) are not stated as instances. They are covered only by the general shape and word-preservation lemmas.
- Tagger: the test case expecting `General` for `Random Title` / `xyz abc 123` is not proved, because it needs every keyword to be absent from every position of the text.
- Headings.ExtractHeadings: a synthetic id `heading-<n>` may coincide with an explicit id of another heading. The model keeps that behaviour and proves distinctness only among synthetic ids.
- ApiRoutes: the handlers' `catch` blocks are modelled for the errors the extractors raise. Exceptions from `cleanText`, `estimateReadingTime` or `autoTag` cannot occur in the model, because those functions are total.
