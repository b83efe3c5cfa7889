/** `extract_text_from_pdf` and `extract_text_from_docx`: turning a resume URL
    into plain text, or into a warning string when nothing usable comes back.

    Fetching (`requests.get`) and parsing (PyPDF2, python-docx) are outside the
    model: a reader maps the URL to fetch onto what parsing its bytes produced,
    the items (pages or paragraphs) in document order or the exception raised. */
module Extraction {
  import opened Outcomes
  import opened PyStr
  import opened DriveUrl

  /** The outcome of fetching a URL and parsing the bytes with a document reader. */
  datatype Reading<T> = Parsed(items: seq<T>) | Raised(message: string)

  const NewLine: string := "\n"
  const NoPdfText: string := "\U{26A0}\U{FE0F} No text could be extracted from the PDF."
  const PdfErrorPrefix: string := "\U{26A0}\U{FE0F} Error reading PDF: "
  const NoDocxText: string := "\U{26A0}\U{FE0F} No text found in DOCX."
  const DocxErrorPrefix: string := "\U{26A0}\U{FE0F} Error reading DOCX: "

  /** The first steps of the `try` block: convert the URL, then fetch and parse
      it. An `IndexError` from the conversion is raised like any later failure. */
  function Load<T>(url: string, read: string -> Reading<T>): (r: Reading<T>)
    ensures !IsShareLink(url) ==> r == read(url)
    ensures IsShareLink(url) && !Contains(url, IdMarker) ==> r == Raised(IndexErrorMessage)
    ensures ConvertDriveUrl(url).Ok? ==> r == read(ConvertDriveUrl(url).value)
  {
    match ConvertDriveUrl(url)
    case Err(m) => Raised(m)
    case Ok(u) => read(u)
  }

  /** The text of each item, in document order. */
  function Texts<T>(items: seq<T>, text: T -> string): seq<string>
  {
    seq(|items|, i requires 0 <= i < |items| => text(items[i]))
  }

  /** A document whose joined text is empty: no items, or one item with no text. */
  predicate EmptyDocument(texts: seq<string>)
  {
    |texts| == 0 || (|texts| == 1 && texts[0] == "")
  }

  /** What an extractor returns for a reading: the newline-joined item texts,
      the no-text marker in place of an empty join, and the error prefix in
      front of the message of whatever was raised. */
  function DocumentText<T>(reading: Reading<T>, text: T -> string, noText: string,
                           errorPrefix: string): (r: string)
    ensures reading.Raised? ==> r == errorPrefix + reading.message
    ensures reading.Parsed? ==>
      var texts := Texts(reading.items, text);
      r == if EmptyDocument(texts) then noText else Join(NewLine, texts)
  {
    match reading
    case Raised(m) => errorPrefix + m
    case Parsed(items) =>
      var joined := Join(NewLine, Texts(items, text));
      JoinEmptyIff(NewLine, Texts(items, text));
      if joined == "" then noText else joined
  }

  /** `page.extract_text() or ""`: a page without a text layer counts as empty. */
  function PageText(page: Option<string>): string
  {
    match page
    case None => ""
    case Some(t) => t
  }

  /** `p.text`: a paragraph's text as it stands. */
  function ParagraphText(paragraph: string): string
  {
    paragraph
  }

  /** The paragraph texts of a DOCX document are its paragraphs, unchanged. */
  lemma ParagraphsAreTexts(paragraphs: seq<string>)
    ensures Texts(paragraphs, ParagraphText) == paragraphs
  {
    var ts := Texts(paragraphs, ParagraphText);
    assert |ts| == |paragraphs|;
    forall i | 0 <= i < |paragraphs|
      ensures ts[i] == paragraphs[i]
    {
      assert ts[i] == ParagraphText(paragraphs[i]);
    }
  }

  /** `HiringAgent.extract_text_from_pdf`. */
  function ExtractTextFromPdf(url: string, readPdf: string -> Reading<Option<string>>): (r: string)
    ensures Load(url, readPdf).Raised? ==> r == PdfErrorPrefix + Load(url, readPdf).message
    ensures Load(url, readPdf).Parsed? ==>
      var texts := Texts(Load(url, readPdf).items, PageText);
      r == if EmptyDocument(texts) then NoPdfText else Join(NewLine, texts)
  {
    DocumentText(Load(url, readPdf), PageText, NoPdfText, PdfErrorPrefix)
  }

  /** `HiringAgent.extract_text_from_docx`. */
  function ExtractTextFromDocx(url: string, readDocx: string -> Reading<string>): (r: string)
    ensures Load(url, readDocx).Raised? ==> r == DocxErrorPrefix + Load(url, readDocx).message
    ensures Load(url, readDocx).Parsed? ==>
      var texts := Load(url, readDocx).items;
      r == if EmptyDocument(texts) then NoDocxText else Join(NewLine, texts)
  {
    var r := DocumentText(Load(url, readDocx), ParagraphText, NoDocxText, DocxErrorPrefix);
    if Load(url, readDocx).Parsed? then
      ParagraphsAreTexts(Load(url, readDocx).items);
      r
    else r
  }

  /** A share link without "/d/" never reaches the network: both extractors
      report the `IndexError` of the conversion under their own prefix. */
  lemma ConversionFailureReported(url: string, readPdf: string -> Reading<Option<string>>,
                                  readDocx: string -> Reading<string>)
    requires IsShareLink(url) && !Contains(url, IdMarker)
    ensures ExtractTextFromPdf(url, readPdf) == PdfErrorPrefix + IndexErrorMessage
    ensures ExtractTextFromDocx(url, readDocx) == DocxErrorPrefix + IndexErrorMessage
  {
  }

  /** A document of n >= 2 items yields at least n - 1 newlines, and so is
      never replaced by the no-text marker (which holds no newline). */
  lemma MultiItemText<T>(items: seq<T>, text: T -> string, noText: string, errorPrefix: string)
    requires |items| >= 2
    requires '\n' !in noText
    ensures Count(DocumentText(Parsed(items), text, noText, errorPrefix), '\n') >= |items| - 1
    ensures DocumentText(Parsed(items), text, noText, errorPrefix) != noText
  {
    var texts := Texts(items, text);
    JoinCount('\n', texts);
    if Join(NewLine, texts) == noText {
      NoCharNoCount(noText, '\n');
      assert false;
    }
  }

  /** A PDF of n >= 2 pages none of which has text extracts to n - 1 newlines
      (two blank pages give "\n"), not to the no-text marker. */
  lemma BlankPagesGiveNewlines(pages: seq<Option<string>>)
    requires |pages| >= 2
    requires forall i :: 0 <= i < |pages| ==> PageText(pages[i]) == ""
    ensures DocumentText(Parsed(pages), PageText, NoPdfText, PdfErrorPrefix) == seq(|pages| - 1, _ => '\n')
  {
    assert Texts(pages, PageText) == seq(|pages|, _ => "");
    JoinOfEmpties('\n', |pages|);
  }

  /** When no item's text holds a newline, the extracted text splits back into
      exactly the item texts, in document order. */
  lemma ItemsRecoverable<T>(items: seq<T>, text: T -> string, noText: string, errorPrefix: string)
    requires !EmptyDocument(Texts(items, text))
    requires forall i :: 0 <= i < |items| ==> '\n' !in text(items[i])
    ensures Split(DocumentText(Parsed(items), text, noText, errorPrefix), NewLine) == Texts(items, text)
  {
    SplitJoin('\n', Texts(items, text));
  }
}
