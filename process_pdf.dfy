/**
 * `utils.ProcessPDF`: open the statement, decrypt it when a password is
 * given, collect the text of every page that can be read, and hand that
 * text to the AI completion service.
 *
 * The PDF library is modelled by the outcomes of its calls: opening the
 * file, creating the reader, `Decrypt`, `GetNumPages`, and for each page the
 * three steps `GetPage`, `extractor.New` and `ExtractText`. The AI service
 * is an oracle from the assembled text to its reply (the fixed instruction
 * prompt is part of the oracle).
 */
module ProcessPdf {
  import opened Results
  import opened GoStrings

  /** Outcome of a library call that returns only an error. */
  datatype Step = Done | Err(cause: Bytes)

  /** Outcome of `pdfReader.Decrypt(password)`: an error, or the `auth` flag. */
  datatype DecryptOutcome = DecryptErr(cause: Bytes) | Decrypted(auth: bool)

  /** The fate of one page in the loop: the first of the three steps that
      fails, or the extracted text. */
  datatype PageOutcome =
    | PageLoadFailed        // pdfReader.GetPage(i) returned an error
    | ExtractorFailed       // extractor.New(page) returned an error
    | TextFailed            // ex.ExtractText() returned an error
    | Extracted(text: Bytes)

  /** Outcome of `pdfReader.GetNumPages()`: an error, or the pages 1..numPages in order. */
  datatype PageCount = CountErr(cause: Bytes) | Pages(pages: seq<PageOutcome>)

  /** What the library does with one particular file and password. */
  datatype PdfLibrary = PdfLibrary(
    open: Step,               // os.Open(pdfPath)
    newReader: Step,          // model.NewPdfReader(f)
    decrypt: DecryptOutcome,  // pdfReader.Decrypt([]byte(password)), if it is called
    pageCount: PageCount)     // pdfReader.GetNumPages() and the pages behind it

  /** The errors ProcessPDF returns, one per early return. */
  datatype PdfError =
    | OpenError(cause: Bytes)
    | ReaderError(cause: Bytes)
    | DecryptError(cause: Bytes)
    | InvalidPassword
    | PageCountError(cause: Bytes)

  /** `err.Error()` for each of them, as built by `fmt.Errorf`. */
  function Message(e: PdfError): Bytes {
    match e
    case OpenError(c) => Ascii("error opening PDF: ") + c
    case ReaderError(c) => Ascii("error creating reader: ") + c
    case DecryptError(c) => Ascii("error decrypting PDF: ") + c
    case InvalidPassword => Ascii("invalid password")
    case PageCountError(c) => Ascii("error getting page count: ") + c
  }

  // ---------------------------------------------------------------------
  // The assembled text
  // ---------------------------------------------------------------------

  /** What one page adds to the builder: its text and a newline, or nothing. */
  function PageContribution(p: PageOutcome): Bytes {
    if p.Extracted? then p.text + [NL] else []
  }

  /** The builder's contents after the loop has visited `pages`, in order. */
  function AssembledText(pages: seq<PageOutcome>): Bytes
    decreases |pages|
  {
    if pages == [] then []
    else AssembledText(pages[..|pages| - 1]) + PageContribution(pages[|pages| - 1])
  }

  /** The texts of the pages all three of whose steps succeed, in page order. */
  function ExtractedTexts(pages: seq<PageOutcome>): seq<Bytes> {
    if pages == [] then []
    else if pages[0].Extracted? then [pages[0].text] + ExtractedTexts(pages[1..])
    else ExtractedTexts(pages[1..])
  }

  /** Each text followed by a newline, concatenated. */
  function Lines(texts: seq<Bytes>): Bytes {
    if texts == [] then [] else texts[0] + [NL] + Lines(texts[1..])
  }

  /** Sum of len(text) + 1 over `texts`. */
  function LinesLength(texts: seq<Bytes>): nat {
    if texts == [] then 0 else |texts[0]| + 1 + LinesLength(texts[1..])
  }

  // ---------------------------------------------------------------------
  // ProcessPDF
  // ---------------------------------------------------------------------

  /** `strings.Builder`: a buffer that is only ever appended to. */
  class StringBuilder {
    var buf: Bytes

    constructor ()
      ensures buf == []
    {
      buf := [];
    }

    method WriteString(s: Bytes)
      modifies this
      ensures buf == old(buf) + s
    {
      buf := buf + s;
    }
  }

  /** The first of open, reader creation, decryption (only with a non-empty
      password) and page count that fails, if one does. */
  function FirstError(password: Bytes, lib: PdfLibrary): Option<PdfError> {
    if lib.open.Err? then Some(OpenError(lib.open.cause))
    else if lib.newReader.Err? then Some(ReaderError(lib.newReader.cause))
    else if password != [] && lib.decrypt.DecryptErr? then Some(DecryptError(lib.decrypt.cause))
    else if password != [] && !lib.decrypt.auth then Some(InvalidPassword)
    else if lib.pageCount.CountErr? then Some(PageCountError(lib.pageCount.cause))
    else None
  }

  /** The page loop of ProcessPDF: the text of each page whose three steps
      succeed, followed by "\n", written to a fresh builder in page order. */
  method AssemblePages(pages: seq<PageOutcome>) returns (text: Bytes)
    ensures text == AssembledText(pages)
  {
    var numPages := |pages|;
    var allText := new StringBuilder();
    for i := 1 to numPages + 1
      invariant allText.buf == AssembledText(pages[..i - 1])
    {
      assert pages[..i] == pages[..i - 1] + [pages[i - 1]];
      var page := pages[i - 1];
      if page.PageLoadFailed? {
        continue;
      }
      if page.ExtractorFailed? {
        continue;
      }
      if page.TextFailed? {
        continue;
      }
      allText.WriteString(page.text);
      allText.WriteString([NL]);
    }
    assert pages[..numPages] == pages;
    text := allText.buf;
  }

  /** ProcessPDF: the first failing step's error, or else the AI's reply to the
      text of the readable pages. */
  method ProcessPDF(password: Bytes, lib: PdfLibrary, analyze: Bytes -> Bytes)
    returns (r: Result<Bytes, PdfError>)
    ensures FirstError(password, lib).Some? ==> r == Failure(FirstError(password, lib).value)
    ensures FirstError(password, lib).None? ==> r == Success(analyze(AssembledText(lib.pageCount.pages)))
  {
    if lib.open.Err? {
      return Failure(OpenError(lib.open.cause));
    }
    if lib.newReader.Err? {
      return Failure(ReaderError(lib.newReader.cause));
    }
    if password != [] {
      if lib.decrypt.DecryptErr? {
        return Failure(DecryptError(lib.decrypt.cause));
      }
      if !lib.decrypt.auth {
        return Failure(InvalidPassword);
      }
    }
    if lib.pageCount.CountErr? {
      return Failure(PageCountError(lib.pageCount.cause));
    }
    var pages := lib.pageCount.pages;
    var allText := AssemblePages(pages);
    var result := analyze(allText);
    return Success(result);
  }

  // ---------------------------------------------------------------------
  // What ProcessPDF promises
  // ---------------------------------------------------------------------

  /** The steps before the page loop are tried in order and the first failure
      decides the error; once the page count is known there is no error. */
  lemma ErrorPrecedence(password: Bytes, lib: PdfLibrary)
    ensures lib.open.Err? ==> FirstError(password, lib) == Some(OpenError(lib.open.cause))
    ensures lib.open.Done? && lib.newReader.Err? ==>
              FirstError(password, lib) == Some(ReaderError(lib.newReader.cause))
    ensures lib.open.Done? && lib.newReader.Done? && password != [] && lib.decrypt.DecryptErr? ==>
              FirstError(password, lib) == Some(DecryptError(lib.decrypt.cause))
    ensures lib.open.Done? && lib.newReader.Done? && password != [] && lib.decrypt == Decrypted(false) ==>
              FirstError(password, lib) == Some(InvalidPassword)
    ensures lib.open.Done? && lib.newReader.Done? && (password == [] || lib.decrypt == Decrypted(true))
              && lib.pageCount.CountErr? ==>
              FirstError(password, lib) == Some(PageCountError(lib.pageCount.cause))
    ensures FirstError(password, lib) == None <==>
              && lib.open.Done? && lib.newReader.Done?
              && (password == [] || lib.decrypt == Decrypted(true))
              && lib.pageCount.Pages?
  {
  }

  /** An empty password means Decrypt is never called: what it would have
      returned makes no difference. */
  lemma EmptyPasswordSkipsDecrypt(lib: PdfLibrary, other: DecryptOutcome)
    ensures FirstError([], lib) == FirstError([], lib.(decrypt := other))
    ensures FirstError([], lib) != Some(InvalidPassword)
    ensures FirstError([], lib).Some? ==> !FirstError([], lib).value.DecryptError?
  {
  }

  /** Builder contents distribute over a split of the page list. */
  lemma {:induction false} AssembledTextAppend(a: seq<PageOutcome>, b: seq<PageOutcome>)
    ensures AssembledText(a + b) == AssembledText(a) + AssembledText(b)
    decreases |b|
  {
    if b == [] {
      assert a + b == a;
    } else {
      var b' := b[..|b| - 1];
      var last := PageContribution(b[|b| - 1]);
      assert (a + b)[..|a + b| - 1] == a + b';
      assert (a + b)[|a + b| - 1] == b[|b| - 1];
      assert AssembledText(a + b) == AssembledText(a + b') + last;
      AssembledTextAppend(a, b');
      assert AssembledText(b) == AssembledText(b') + last;
      assert AssembledText(a) + AssembledText(b') + last == AssembledText(a) + (AssembledText(b') + last);
    }
  }

  lemma {:induction false} ExtractedTextsAppend(a: seq<PageOutcome>, b: seq<PageOutcome>)
    ensures ExtractedTexts(a + b) == ExtractedTexts(a) + ExtractedTexts(b)
    decreases |a|
  {
    if a == [] {
      assert a + b == b;
    } else {
      assert (a + b)[1..] == a[1..] + b;
      ExtractedTextsAppend(a[1..], b);
    }
  }

  lemma {:induction false} LinesAppend(a: seq<Bytes>, b: seq<Bytes>)
    ensures Lines(a + b) == Lines(a) + Lines(b)
    decreases |a|
  {
    if a == [] {
      assert a + b == b;
    } else {
      assert (a + b)[1..] == a[1..] + b;
      LinesAppend(a[1..], b);
    }
  }

  /** The assembled text is, in page order, text_i + "\n" for exactly the pages
      whose GetPage, extractor.New and ExtractText all succeed. */
  lemma {:induction false} AssembledTextIsExtractedLines(pages: seq<PageOutcome>)
    ensures AssembledText(pages) == Lines(ExtractedTexts(pages))
    decreases |pages|
  {
    if pages != [] {
      var init, last := pages[..|pages| - 1], pages[|pages| - 1];
      assert pages == init + [last];
      AssembledTextIsExtractedLines(init);
      ExtractedTextsAppend(init, [last]);
      LinesAppend(ExtractedTexts(init), ExtractedTexts([last]));
      assert ExtractedTexts([last]) == if last.Extracted? then [last.text] else [];
    }
  }

  /** A page that fails at any of the three steps contributes nothing and does
      not stop the pages after it from contributing. */
  lemma {:induction false} FailedPageContributesNothing(before: seq<PageOutcome>, p: PageOutcome, after: seq<PageOutcome>)
    requires !p.Extracted?
    ensures AssembledText(before + [p] + after) == AssembledText(before + after)
    ensures AssembledText(before + [p] + after) == AssembledText(before) + AssembledText(after)
  {
    AssembledTextAppend(before + [p], after);
    AssembledTextAppend(before, [p]);
    AssembledTextAppend(before, after);
    assert [p][..0] == [];
    assert AssembledText([p]) == AssembledText([]) + PageContribution(p) == [];
    assert AssembledText(before + [p]) == AssembledText(before);
  }

  lemma {:induction false} LinesLengthIsSum(texts: seq<Bytes>)
    ensures |Lines(texts)| == LinesLength(texts)
    decreases |texts|
  {
    if texts != [] {
      LinesLengthIsSum(texts[1..]);
    }
  }

  /** The assembled length is the sum of len(text_i) + 1 over the successful
      pages; with no successful page (in particular with no page) it is "". */
  lemma AssembledLength(pages: seq<PageOutcome>)
    ensures |AssembledText(pages)| == LinesLength(ExtractedTexts(pages))
    ensures (forall i | 0 <= i < |pages| :: !pages[i].Extracted?) ==> AssembledText(pages) == []
  {
    AssembledTextIsExtractedLines(pages);
    LinesLengthIsSum(ExtractedTexts(pages));
    if forall i | 0 <= i < |pages| :: !pages[i].Extracted? {
      NoExtractedTexts(pages);
    }
  }

  lemma {:induction false} NoExtractedTexts(pages: seq<PageOutcome>)
    requires forall i | 0 <= i < |pages| :: !pages[i].Extracted?
    ensures ExtractedTexts(pages) == []
    decreases |pages|
  {
    if pages != [] {
      assert forall i | 0 <= i < |pages[1..]| :: pages[1..][i] == pages[i + 1];
      NoExtractedTexts(pages[1..]);
    }
  }
}
