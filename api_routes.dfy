/**
  The ingestion endpoints of server/api-routes.ts, each as a function from
  the request to the response it sends, together with the `parseUrl` and
  `parsePdf` wrappers of server/parsers.ts. What the network fetch with
  Readability, and the PDF text extraction, produce is an input: a value
  of `Fetched` or `PdfExtraction`.
*/
module ApiRoutes {
  import opened Wrappers
  import opened JsString
  import opened TextNormalizer
  import opened ReadingTime
  import opened Tagger

  /** A field of the JSON request body. */
  datatype BodyField = Absent | NonString | Str(s: string)

  /** The JSON response: the document metadata, or an error with status
      400 or 500. */
  datatype Response =
    | Ok(title: string, content: string, readingTime: int, tags: seq<string>)
    | BadRequest(error: string)
    | ServerError(error: string)

  /** The HTTP status code each kind of response is sent with. */
  function Status(r: Response): int {
    match r
    case Ok(_, _, _, _) => 200
    case BadRequest(_) => 400
    case ServerError(_) => 500
  }

  /** `!field || typeof field !== 'string'`: absent, not a string, or the
      empty string. */
  predicate Missing(field: BodyField) {
    !field.Str? || field.s == ""
  }

  const TitleLength: nat := 100
  const UntitledDocument: string := "Untitled Document"

  // ---------------------------------------------------------------------
  // POST /parse-text

  /** `lines[0]?.substring(0, 100) || 'Untitled Document'`. */
  function TextTitle(cleaned: string): string {
    var first := SplitLines(cleaned)[0];
    var cut := if |first| <= TitleLength then first else first[..TitleLength];
    if cut != "" then cut else UntitledDocument
  }

  function ParseText(text: BodyField): Response {
    if Missing(text) then BadRequest("Text is required")
    else
      var cleaned := CleanText(text.s);
      var readingTime := EstimateReadingTime(cleaned);
      var title := TextTitle(cleaned);
      Ok(title, cleaned, readingTime, Tags(title, cleaned))
  }

  /** The request is refused exactly when the text is missing, and a
      present text is never answered with a server error. */
  lemma ParseTextStatus(text: BodyField)
    ensures ParseText(text) == BadRequest("Text is required") <==> Missing(text)
    ensures ParseText(text).Ok? <==> !Missing(text)
    ensures Status(ParseText(text)) == (if Missing(text) then 400 else 200)
  {
  }

  /** The content is the cleaned text, already in its cleaned form, and
      the tags are those of the title and the cleaned text. */
  lemma ParseTextContent(s: string)
    requires s != ""
    ensures var r := ParseText(Str(s));
      && r.Ok?
      && r.content == CleanText(s)
      && r.title == TextTitle(r.content)
      && IsClean(r.content)
      && CleanText(r.content) == r.content
      && r.tags == Tags(r.title, r.content)
  {
    var cleaned := CleanText(s);
    var title := TextTitle(cleaned);
    assert ParseText(Str(s)) == Ok(title, cleaned, EstimateReadingTime(cleaned), Tags(title, cleaned));
    assert IsClean(cleaned) by {
      CleanTextShape(s);
    }
    assert CleanText(cleaned) == cleaned by {
      CleanTextIdempotent(s);
    }
  }

  /** The reading time is that of the cleaned text, which equals that of
      the raw text. */
  lemma ParseTextReadingTime(s: string)
    requires s != ""
    ensures var r := ParseText(Str(s));
      && r.Ok?
      && r.readingTime == EstimateReadingTime(CleanText(s))
      && r.readingTime == EstimateReadingTime(s)
      && r.readingTime >= 1
  {
    var cleaned := CleanText(s);
    var title := TextTitle(cleaned);
    assert ParseText(Str(s)) == Ok(title, cleaned, EstimateReadingTime(cleaned), Tags(title, cleaned));
    assert EstimateReadingTime(cleaned) == EstimateReadingTime(s) by {
      CleanTextKeepsReadingTime(s);
    }
  }

  /** The title is the start, at most 100 characters, of the first line of
      the cleaned text, and `Untitled Document` when the cleaned text is
      empty. */
  lemma TextTitleSpec(s: string)
    ensures var cleaned, title := CleanText(s), TextTitle(CleanText(s));
      && (cleaned == "" ==> title == UntitledDocument)
      && (cleaned != "" ==>
            && title != ""
            && title <= SplitLines(cleaned)[0]
            && title <= cleaned
            && |title| == (if |SplitLines(cleaned)[0]| <= TitleLength then |SplitLines(cleaned)[0]| else TitleLength)
            && '\n' !in title)
  {
    var cleaned := CleanText(s);
    if cleaned != "" {
      FirstLineClean(s);
    }
    TitleOfLines(cleaned);
  }

  /** The title of a text that is empty or whose first line is clean. */
  lemma TitleOfLines(cleaned: string)
    requires cleaned != "" ==> CleanLine(SplitLines(cleaned)[0])
    ensures var title := TextTitle(cleaned);
      && (cleaned == "" ==> title == UntitledDocument)
      && (cleaned != "" ==>
            && title != ""
            && title <= SplitLines(cleaned)[0]
            && title <= cleaned
            && |title| == (if |SplitLines(cleaned)[0]| <= TitleLength then |SplitLines(cleaned)[0]| else TitleLength)
            && '\n' !in title)
  {
    var first := SplitLines(cleaned)[0];
    if cleaned != "" {
      var cut := if |first| <= TitleLength then first else first[..TitleLength];
      assert cut <= first && cut != "";
      assert TextTitle(cleaned) == cut;
      assert '\n' !in cut;
    } else {
      assert SplitLines(cleaned) == [""];
    }
  }

  /** The fallback title does not tell an empty text apart: pasting the
      words `Untitled Document` gives a non-empty content with that same
      title. */
  lemma UntitledDocumentText()
    ensures CleanText(UntitledDocument) != ""
    ensures TextTitle(CleanText(UntitledDocument)) == UntitledDocument
  {
    UntitledDocumentLine();
    CleanTextOfLine(UntitledDocument);
    TitleOfShortLine(UntitledDocument);
  }

  lemma UntitledDocumentLine()
    ensures CleanLine(UntitledDocument) && |UntitledDocument| <= TitleLength
  {
  }

  /** A clean line is cleaned to itself. */
  lemma CleanTextOfLine(l: string)
    requires CleanLine(l)
    ensures CleanText(l) == l
  {
    SplitWithoutNewline(l);
    CleanTextOfClean(l);
  }

  /** A single line of at most 100 characters is its own title. */
  lemma TitleOfShortLine(s: string)
    requires s != "" && '\n' !in s && |s| <= TitleLength
    ensures TextTitle(s) == s
  {
    SplitWithoutNewline(s);
  }

  /** The first line of a non-empty cleaned text is a clean line. */
  lemma FirstLineClean(s: string)
    requires CleanText(s) != ""
    ensures CleanLine(SplitLines(CleanText(s))[0])
  {
    CleanTextShape(s);
    assert SplitLines(CleanText(s))[0] in SplitLines(CleanText(s));
  }

  // ---------------------------------------------------------------------
  // parsePdf and POST /parse-pdf

  /** What the PDF text extraction gives for the uploaded buffer: an error
      message, or a result whose `text` may be missing. */
  datatype PdfExtraction = PdfError(message: string) | PdfText(text: Option<string>)

  datatype ParsedPdf = ParsedPdf(text: string, estimatedReadingTime: int)

  /** The uploaded file; its buffer is what the extraction reads. */
  datatype UploadedFile = UploadedFile(originalName: string)

  const PdfErrorPrefix: string := "Failed to parse PDF: "

  /** `parsePdf`: a missing text is the empty string, and an error is
      rethrown with a prefix. */
  function ParsePdf(extraction: PdfExtraction): Result<ParsedPdf> {
    match extraction
    case PdfError(message) => Failure(PdfErrorPrefix + message)
    case PdfText(text) =>
      var t := if text.Some? then text.value else "";
      Success(ParsedPdf(t, EstimateReadingTime(t)))
  }

  /** `originalname.replace('.pdf', '')`. */
  function PdfTitle(originalName: string): string {
    ReplaceFirst(originalName, ".pdf", "")
  }

  function ParsePdfRoute(file: Option<UploadedFile>, extraction: PdfExtraction): Response {
    if file.None? then BadRequest("PDF file is required")
    else
      match ParsePdf(extraction)
      case Failure(e) => ServerError(e)
      case Success(parsed) =>
        var title := PdfTitle(file.value.originalName);
        Ok(title, parsed.text, parsed.estimatedReadingTime, Tags(title, parsed.text))
  }

  /** Without a file the request is refused; a failed extraction gives a
      500 carrying the prefixed message and no metadata; otherwise the
      content and reading time pass through from the extraction and the
      tags are those of the title and the text. */
  lemma ParsePdfRouteSpec(file: Option<UploadedFile>, extraction: PdfExtraction)
    ensures file.None? <==> ParsePdfRoute(file, extraction) == BadRequest("PDF file is required")
    ensures Status(ParsePdfRoute(file, extraction)) ==
      (if file.None? then 400 else if extraction.PdfError? then 500 else 200)
    ensures file.Some? && extraction.PdfError? ==>
      ParsePdfRoute(file, extraction) == ServerError(PdfErrorPrefix + extraction.message)
    ensures file.Some? && extraction.PdfText? ==>
      var r, text := ParsePdfRoute(file, extraction), extraction.text;
      && r.Ok?
      && r.title == PdfTitle(file.value.originalName)
      && (text.Some? ==> r.content == text.value)
      && (text.None? ==> r.content == "")
      && r.readingTime == EstimateReadingTime(r.content)
      && r.readingTime >= 1
      && r.tags == Tags(r.title, r.content)
  {
  }

  /** The title is the file name with its first `.pdf` cut out, wherever
      it stands; a name without `.pdf` is kept whole. */
  lemma PdfTitleSpec(name: string)
    ensures !Contains(name, ".pdf") ==> PdfTitle(name) == name
    ensures Contains(name, ".pdf") ==>
      && |PdfTitle(name)| == |name| - 4
      && exists i :: && OccursAt(name, ".pdf", i)
                     && (forall j :: 0 <= j < i ==> !OccursAt(name, ".pdf", j))
                     && PdfTitle(name) == name[..i] + name[i + 4..]
  {
    ReplaceFirstSpec(name, ".pdf", "");
    if Contains(name, ".pdf") {
      var i :| && OccursAt(name, ".pdf", i)
               && (forall j :: 0 <= j < i ==> !OccursAt(name, ".pdf", j))
               && ReplaceFirst(name, ".pdf", "") == name[..i] + "" + name[i + 4..];
      assert name[..i] + "" + name[i + 4..] == name[..i] + name[i + 4..];
    }
  }

  /** A name does not hold `.pdf` at a position where it has no dot. */
  lemma NoPdfAt(name: string, i: nat)
    requires i < |name| && name[i] != '.'
    ensures !OccursAt(name, ".pdf", i)
  {
    if i + 4 <= |name| {
      assert name[i..i + 4][0] == name[i];
    }
  }

  /** The title may be empty, and only the first `.pdf` goes. */
  lemma PdfTitleExamples()
    ensures PdfTitle(".pdf") == ""
    ensures PdfTitle("a.pdf.pdf") == "a.pdf"
  {
    assert OccursAt(".pdf", ".pdf", 0);
    assert OccursAt("a.pdf.pdf", ".pdf", 1);
    NoPdfAt("a.pdf.pdf", 0);
  }

  /** The match is case-sensitive. */
  lemma PdfTitleCaseExample()
    ensures PdfTitle("notes.PDF") == "notes.PDF"
  {
    var name := "notes.PDF";
    assert !Contains(name, ".pdf") by {
      forall i | 0 <= i <= 5
        ensures !OccursAt(name, ".pdf", i)
      {
        if i < 5 {
          NoPdfAt(name, i);
        } else {
          assert name[5..9][1] == 'P';
        }
      }
    }
    PdfTitleSpec(name);
  }

  // ---------------------------------------------------------------------
  // parseUrl and POST /parse-url

  /** What fetching the page and running Readability on it gives: an
      error message, no article, or an article whose fields may be
      missing. */
  datatype Fetched =
    | FetchError(message: string)
    | NoArticle
    | Article(title: Option<string>, content: Option<string>, textContent: Option<string>)

  datatype ParsedUrl = ParsedUrl(title: string, content: string, estimatedReadingTime: int)

  const UrlErrorPrefix: string := "Failed to parse URL: "

  function OrElse(o: Option<string>, default: string): string {
    if o.Some? then o.value else default
  }

  /** `parseUrl`: the missing article is an error raised inside the `try`,
      so it is prefixed like every other error. */
  function ParseUrl(fetched: Fetched): Result<ParsedUrl> {
    match fetched
    case FetchError(message) => Failure(UrlErrorPrefix + message)
    case NoArticle => Failure(UrlErrorPrefix + "Could not parse article")
    case Article(title, content, textContent) =>
      Success(ParsedUrl(OrElse(title, "Untitled"), OrElse(content, ""),
                        EstimateReadingTime(OrElse(textContent, ""))))
  }

  function ParseUrlRoute(url: BodyField, fetched: Fetched): Response {
    if Missing(url) then BadRequest("URL is required")
    else
      match ParseUrl(fetched)
      case Failure(e) => ServerError(e)
      case Success(parsed) =>
        Ok(parsed.title, parsed.content, parsed.estimatedReadingTime, Tags(parsed.title, parsed.content))
  }

  /** A missing URL is refused; a page that cannot be fetched or holds no
      article gives a 500 with the prefixed message; otherwise the tags
      are those of the article's title and HTML content, and the reading
      time is that of its plain text. */
  lemma ParseUrlRouteSpec(url: BodyField, fetched: Fetched)
    ensures Missing(url) <==> ParseUrlRoute(url, fetched) == BadRequest("URL is required")
    ensures Status(ParseUrlRoute(url, fetched)) ==
      (if Missing(url) then 400 else if !fetched.Article? then 500 else 200)
    ensures !Missing(url) && !fetched.Article? ==>
      var r := ParseUrlRoute(url, fetched);
      && r.ServerError?
      && UrlErrorPrefix <= r.error
      && (fetched.FetchError? ==> r.error == UrlErrorPrefix + fetched.message)
      && (fetched.NoArticle? ==> r.error == UrlErrorPrefix + "Could not parse article")
    ensures !Missing(url) && fetched.Article? ==>
      var r := ParseUrlRoute(url, fetched);
      && r.Ok?
      && r.title == (if fetched.title.Some? then fetched.title.value else "Untitled")
      && r.content == (if fetched.content.Some? then fetched.content.value else "")
      && r.readingTime == EstimateReadingTime(if fetched.textContent.Some? then fetched.textContent.value else "")
      && r.readingTime >= 1
      && r.tags == Tags(r.title, r.content)
  {
  }
}
