# Credit-card statement parser: a Dafny model

This project models the core of a Go service that parses password-protected
credit-card statements in PDF form:

- **`api.parsePDFHandler`** handles `POST /api/parse-pdf`.
  - It validates the multipart upload, in order: password present, file present, `.pdf` extension.
  - It stores the file under `./tmp` with a name derived from `filepath.Base`.
  - It runs `ProcessPDF`, then strips Markdown code fences from the AI service's reply.
  - It answers with the decoded JSON object, or with the cleaned reply as a string when the reply does not decode.
- **`utils.ProcessPDF`** opens and decrypts the PDF and concatenates the text of every page that extracts, each followed by a newline. Pages that fail are skipped. It passes the result to the AI service.
- **`utils.ExtractCreditCardInfo`** is the regular-expression fallback.
  - It normalises white space.
  - It takes each field from the first pattern of that field's list that matches.
  - It post-processes the capture: upper-case, trim, `"A to B"`, comma removal.
- **`utils.getValueOrNA`** and the `models` records.

## Modelling choices

- **Strings.** Go strings are byte sequences (`GoStrings.Bytes`).
  - `strings.TrimSpace` is modelled at byte level. It strips whole UTF-8 encodings of the runes `unicode.IsSpace` accepts: the six ASCII ones plus U+0085, U+00A0, U+1680, U+2000–U+200A, U+2028, U+2029, U+202F, U+205F and U+3000.
  - RE2's `\s` (tab, newline, form feed, carriage return, space) is kept distinct from it. In particular `\s` does not include the vertical tab.
  - `filepath.Base` is the Unix version.
- **External libraries.** The PDF library (unipdf) is replaced by a value that records the outcome of each step and one outcome per page. `GetNumPages` is the length of that page list.
- **Other I/O.** Each of these becomes a parameter:
  - the AI service is a function from prompt text to reply;
  - `json.Unmarshal` is a decoding oracle;
  - the three file-system steps of the handler are one `Storage` outcome;
  - multipart parsing is its two results (the `password` form value, and the uploaded file's name or `None`).
- **Regular expressions.** Each regular expression is an abstract `Matcher`, standing for `FindStringSubmatch`: `[]` for no match, otherwise the whole match followed by the groups.
  - Each pattern's capture class is a predicate on matchers, for example `CapturesDigits(p, 2, 4)` for `(\d{2,4})`.
  - Only the lemmas about field shapes assume those predicates. The extractor itself works for any matchers.
- **Quirks of the code that the model keeps:**
  - Fence stripping is not case-insensitive. Only the exact prefixes "```json" and "```JSON" are removed, in that order, once each. A bare "```" opening fence stays (`BareFenceSurvives`).
  - The debug print in `ExtractCreditCardInfo` slices `text[:900]` whenever `len(text) > 500`. Texts of 501 to 899 bytes therefore panic (`Extraction.SliceOutOfRange`).
  - Each extracted page is followed by "\n", so the text sent to the AI service ends with a newline when any page extracted. The newline is a terminator, not a separator.
  - Cleaning is not idempotent: "``````" cleans to "```", which cleans to "" (`CleanNotIdempotent`).
  - A decoded JSON `null` counts as a successful decode, because `json.Unmarshal` of `null` into a map succeeds. The decoding oracle is free to return `Some` for it.

## Model

| member | source | states |
|---|---|---|
| GoStrings.TrimSpace | api/server.go:103-107 | The result starts and ends with no Unicode white space and is no longer than the input. The input is returned unchanged when it had nothing to trim. |
| GoStrings.TrimSpaceBounds | api/server.go:103-107 | The trimmed string is the part of the input between the two cuts TrimStart and TrimEnd. |
| GoStrings.TrimSpaceRemovesSpace | api/server.go:103-107 | What TrimSpace cuts off in front is a run of whole white-space runes read from the front; what it cuts off at the back is a run read from the back. |
| GoStrings.TrimSpaceIsSlice | api/server.go:103-107 | The trimmed string is a contiguous part of the input: a prefix of the left-trimmed suffix. |
| GoStrings.TrimLeftSpace | api/server.go:103 | The result is no longer than the input and does not start with white space. It is the input itself when the input did not start with white space. |
| GoStrings.TrimLeftSpaceIsSuffix | api/server.go:103 | Left trimming returns a suffix of the input. |
| GoStrings.TrimLeftSpaceRemovesSpace | api/server.go:103 | The prefix that left trimming removes consists of whole white-space runes. |
| GoStrings.TrimRightSpace | api/server.go:107 | The result is no longer than the input and does not end with white space. It keeps "no leading white space". It is the input itself when the input did not end with white space. |
| GoStrings.TrimRightSpaceIsPrefix | api/server.go:107 | Right trimming returns a prefix of the input. |
| GoStrings.TrimRightSpaceRemovesSpace | api/server.go:107 | The suffix that right trimming removes consists of whole white-space runes. |
| GoStrings.TrailingWidthAfterAscii | api/server.go:107 | After a non-space ASCII byte, the trailing white space of a concatenation lies wholly in its right part. |
| GoStrings.TrimRightSpaceAppend | api/server.go:106-107 | Right trimming a concatenation whose left part ends in a non-space ASCII byte only trims the right part. |
| GoStrings.HasPrefix | api/server.go:104-105 | Definition of `strings.HasPrefix`: the string starts with the given bytes. Used by TrimPrefix. |
| GoStrings.HasSuffix | api/server.go:46 | Definition of `strings.HasSuffix`: the string ends with the given bytes. Used by HasPdfExtension and TrimSuffix. |
| GoStrings.TrimPrefix | api/server.go:104-105 | With the prefix present, prefix + result is the input. Without it, the result is the input. |
| GoStrings.TrimSuffix | api/server.go:106 | With the suffix present, result + suffix is the input. Without it, the result is the input. |
| GoStrings.ToLower | api/server.go:46 | Lower-casing keeps the length, turns each ASCII capital into its lower-case letter and keeps every other byte. |
| GoStrings.ToUpper | utils/extract_info.go:34 | Upper-casing keeps the length, turns each ASCII lower-case letter into its capital and keeps every other byte. |
| GoStrings.RemoveAll | utils/extract_info.go:99 | The result has no occurrence of the byte. Every byte of the result comes from the input. Every other byte occurs as often as in the input. |
| GoStrings.RemoveAllAppend | utils/extract_info.go:99 | Removal distributes over concatenation, so the kept bytes stay in their original order. |
| GoStrings.RemoveAllAbsent | utils/extract_info.go:99 | A string without the byte is returned unchanged. |
| GoStrings.StripTrailingSlashes | api/server.go:63 | The result is a prefix of the path that does not end in '/', and every byte removed is '/'. It is the path itself when the path did not end in '/'. |
| GoStrings.AfterLastSlash | api/server.go:63 | The result is a '/'-free suffix of the path. The byte just before it is '/' unless it is the whole path. |
| GoStrings.Base | api/server.go:63 | Definition of `filepath.Base`: "." for "", "/" for slashes only, otherwise AfterLastSlash of StripTrailingSlashes. Its properties on accepted names are Server.AcceptedSafeName and Server.SafeNameIsLastComponent. |
| ProcessPdf.Message | utils/process_pdf.go:18-39 | Definition of the error texts that `fmt.Errorf` builds for each failing step, as they appear after "Failed to process PDF: ". |
| ProcessPdf.FirstError | utils/process_pdf.go:16-40 | Definition of the first failing step before the page loop; its order is proved by ErrorPrecedence. |
| ProcessPdf.AssembledText | utils/process_pdf.go:42-65 | Definition of the builder's contents after the loop; AssembledTextIsExtractedLines relates it to the independent form. |
| ProcessPdf.StringBuilder.constructor | utils/process_pdf.go:42 | A new builder is empty. |
| ProcessPdf.StringBuilder.WriteString | utils/process_pdf.go:63-64 | Appends the string to the buffer. |
| ProcessPdf.AssemblePages | utils/process_pdf.go:42-65 | The page loop's builder ends holding exactly AssembledText of the pages; the loop invariant ties the builder to the pages seen so far. |
| ProcessPdf.ProcessPDF | utils/process_pdf.go:14-105 | Returns the first error of the open / reader / decrypt / password / page-count chain. Otherwise it returns the AI reply for exactly AssembledText of the pages. |
| ProcessPdf.ErrorPrecedence | utils/process_pdf.go:16-40 | The reported error is the first failing step, in source order: open, reader, decrypt error, failed authentication, page count. Decryption is consulted only for a non-empty password. There is no error if and only if every step succeeds. |
| ProcessPdf.EmptyPasswordSkipsDecrypt | utils/process_pdf.go:27-35 | With an empty password the decrypt outcome is irrelevant. "invalid password" and decrypt errors cannot occur. |
| ProcessPdf.AssembledTextAppend | utils/process_pdf.go:44-65 | The assembled text of two runs of pages is the concatenation of their assembled texts. |
| ProcessPdf.ExtractedTextsAppend | utils/process_pdf.go:57-61 | The successfully extracted texts of two runs of pages are concatenated. |
| ProcessPdf.LinesAppend | utils/process_pdf.go:63-64 | Newline-terminating two lists of texts is concatenation. |
| ProcessPdf.AssembledTextIsExtractedLines | utils/process_pdf.go:44-65 | The assembled text is the extracted page texts, in page order, each followed by "\n". |
| ProcessPdf.FailedPageContributesNothing | utils/process_pdf.go:45-61 | A page whose load, extractor or extraction fails can be removed without changing the text. |
| ProcessPdf.LinesLengthIsSum | utils/process_pdf.go:63-64 | The length of the newline-terminated texts is the sum of their lengths plus one per text. |
| ProcessPdf.AssembledLength | utils/process_pdf.go:44-65 | The text's length is the total over extracted pages of text length + 1. When no page extracts, the text is "". |
| ProcessPdf.NoExtractedTexts | utils/process_pdf.go:44-65 | Without successful pages there are no extracted texts. |
| Server.Rejection | api/server.go:27-52 | Definition of the three 400 checks in order; ValidationOrder states their order and messages. |
| Server.HasPdfExtension | api/server.go:46 | Definition of the extension test; PdfExtensionIff characterises it byte by byte. |
| Server.ValidationOrder | api/server.go:27-52 | Rejection order: a missing password first, then a missing file, then a non-".pdf" name (400). Every rejection carries one of the three messages. |
| Server.PdfExtensionIff | api/server.go:46 | A name is accepted if and only if its last four bytes are '.', then p, d and f in either case. |
| Server.SafeName | api/server.go:63 | Definition of the safe name as `filepath.Base` of the uploaded name. |
| Server.TempPattern | api/server.go:64 | Definition of the `os.CreateTemp` pattern "upload_*_" + safe name; SafeNameKeepsExtension shows it has no '/'. |
| Server.AfterLastSlashKeepsTail | api/server.go:63 | A '/'-free tail of the path survives AfterLastSlash. |
| Server.AcceptedSafeName | api/server.go:46-63 | For an accepted name, Base does not strip trailing slashes, so the safe name is the part after the last '/', of at least four bytes. |
| Server.ExtensionOfSuffix | api/server.go:46 | A name and a suffix of it of four bytes or more are accepted together or rejected together. |
| Server.SafeNameIsLastComponent | api/server.go:63 | For an accepted name, the safe name is a suffix of it, preceded by '/' unless it is the whole name, and has no '/'. |
| Server.SafeNameKeepsExtension | api/server.go:46-64 | For an accepted name, the safe name keeps the ".pdf" extension and the temp-file pattern has no '/'. |
| Server.CleanOutput | api/server.go:103-107 | The cleaned reply starts and ends with no white space. |
| Server.CleanLeavesPlainText | api/server.go:103-107 | A trimmed reply without either opening fence or a closing fence is left unchanged. |
| Server.BacktickEndsAreTrimmed | api/server.go:106-107 | A string that starts and ends with a backtick has nothing to trim. |
| Server.CleanStripsJsonFence | api/server.go:103-107 | "```json" + b + "```" cleans to TrimSpace(b), when b does not itself start with "```JSON". |
| Server.CleanStripsUpperJsonFence | api/server.go:103-107 | "```JSON" + b + "```" cleans to TrimSpace(b). |
| Server.BareFenceSurvives | api/server.go:104-107 | "```" + b + "```" cleans to "```" + b right-trimmed. The opening fence is not removed when no "json"/"JSON" tag follows it. |
| Server.TrimmedAfterPlainAscii | api/server.go:104-107 | A printable-ASCII prefix of two or more bytes followed by a trimmed body is trimmed. |
| Server.TrailingWidthOfTail | api/server.go:107 | Trailing white space is decided by the last three bytes. |
| Server.LowerThenUpperFenceRemoved | api/server.go:104-105 | "```json```JSON" + body loses both tags. |
| Server.UpperThenLowerFenceKept | api/server.go:104-105 | "```JSON```json" + body keeps the "```json" that follows. The two prefixes are tried in that order, once each. |
| Server.CleanNotIdempotent | api/server.go:103-107 | Cleaning "``````" gives "```", and cleaning that gives "". |
| Server.Reply | api/server.go:109-120 | Definition of the 200 response: the decoded object when the cleaned text decodes, otherwise the cleaned text. |
| Server.ReplyIsSuccess | api/server.go:109-120 | A reply always gives 200 with data. The data is the decoded object exactly when the cleaned text decodes, and otherwise the trimmed cleaned text. A reply with no fences that does not decode is relayed as its trimmed self. |
| Server.ParsePdfHandler | api/server.go:24-121 | The complete response: a 400 for a rejection; otherwise a 500 with the message of the failing storage step; otherwise a 500 "Failed to process PDF: " + the ProcessPDF error; otherwise the reply response. |
| Server.WrongPasswordIsServerError | api/server.go:27-32 | A request that passed validation has a non-empty password, so decryption is always attempted; a failed authentication is then the invalid-password error, which ParsePdfHandler answers with a 500. |
| ExtractInfo.DropRegexSpaces | utils/extract_info.go:24 | The result is a suffix of the input that does not start with `\s`. It is shorter when the input starts with `\s`. |
| ExtractInfo.CollapseSpaces | utils/extract_info.go:24 | Collapsing keeps emptiness. The first byte is a space exactly when the input starts with `\s`. |
| ExtractInfo.NonSpaceOfDropped | utils/extract_info.go:24 | Dropping leading `\s` removes only `\s` bytes: the other bytes are those of the input. |
| ExtractInfo.CollapseKeepsNonSpace | utils/extract_info.go:24 | Collapsing changes only white space: the other bytes stay, in order. |
| ExtractInfo.DropSpaceRun | utils/extract_info.go:24 | A run of `\s` before a byte that is not `\s` is dropped whole, and nothing after it. |
| ExtractInfo.DropBeforeNonSpace | utils/extract_info.go:24 | Dropping leading `\s` never reaches past a byte that is not `\s`. |
| ExtractInfo.CollapseAppend | utils/extract_info.go:24 | A text that does not end in `\s` and what follows it collapse independently, since no run crosses the boundary. |
| ExtractInfo.CollapseLeadingRun | utils/extract_info.go:24 | A non-empty run of `\s` at the front becomes exactly one space. |
| ExtractInfo.CollapseRun | utils/extract_info.go:24 | Every maximal run of `\s` becomes exactly one space: x + run + y collapses to the collapse of x, " ", and the collapse of y. |
| ExtractInfo.NonSpaceKeepsCount | utils/extract_info.go:24 | A byte that is not `\s` occurs in NonSpace as often as in the text. |
| ExtractInfo.CollapseKeepsCount | utils/extract_info.go:24 | Collapsing keeps every occurrence of each byte that is not `\s`, such as the vertical tab. |
| ExtractInfo.CollapseCollapses | utils/extract_info.go:24 | After collapsing, every `\s` byte is a space and no two are adjacent. |
| ExtractInfo.CollapseStep | utils/extract_info.go:24 | On collapsed text, collapsing keeps the first byte and continues with the rest. |
| ExtractInfo.CollapseFixesCollapsed | utils/extract_info.go:24 | Collapsing leaves already collapsed text unchanged. |
| ExtractInfo.SliceKeepsCollapsed | utils/extract_info.go:24-25 | A slice of collapsed text is collapsed. |
| ExtractInfo.Normalize | utils/extract_info.go:23-25 | Definition of normalisation: TrimSpace of the collapsed text. |
| ExtractInfo.NormalizeNormalizes | utils/extract_info.go:23-25 | Normalised text is collapsed and has no leading or trailing Unicode white space. |
| ExtractInfo.NormalizeKeepsText | utils/extract_info.go:23-25 | Normalisation keeps the collapsed text between TrimSpace's two cuts, and what it cuts off at each end is white space. |
| ExtractInfo.NormalizeIdempotent | utils/extract_info.go:23-25 | Normalising is the identity on normalised text, hence idempotent. |
| ExtractInfo.VerticalTabSurvives | utils/extract_info.go:24-25 | An illustration of CollapseKeepsCount: a vertical tab between spaces survives normalisation, because `\s` does not match it. |
| ExtractInfo.FirstMatchIndex | utils/extract_info.go:32-38 | The chosen pattern's submatch has more than `groups` entries, and all earlier patterns' do not. There is no choice if and only if no pattern matches. |
| ExtractInfo.FirstMatch | utils/extract_info.go:33 | A found submatch has more than `groups` entries. |
| ExtractInfo.LaterPatternsIgnored | utils/extract_info.go:32-38 | Once a pattern matches, appending further patterns changes nothing. |
| ExtractInfo.FindFirstMatch | utils/extract_info.go:32-38 | The range-and-break loop returns the submatch of the first matching pattern, or none. |
| ExtractInfo.VariantOf | utils/extract_info.go:34 | Definition of the post-processing of a card-variant capture: upper-casing. |
| ExtractInfo.BillingCycleOf | utils/extract_info.go:68 | Definition of the billing-cycle formatting: the two trimmed captures joined by " to ". |
| ExtractInfo.DueDateOf | utils/extract_info.go:83 | Definition of the due-date post-processing: TrimSpace. |
| ExtractInfo.BalanceOf | utils/extract_info.go:99 | Definition of the balance post-processing: TrimSpace, then comma removal. |
| ExtractInfo.ExtractedInfo | utils/extract_info.go:11-106 | Definition of the record the extractor returns, field by field; ExtractedInfoWellFormed states the fields' shapes. |
| ExtractInfo.FindCardVariant | utils/extract_info.go:32-38 | The card variant is the upper-cased first group of the first matching pattern, or "" when none matches. |
| ExtractInfo.FindCardLast4Digits | utils/extract_info.go:49-55 | The last digits are the first group of the first matching pattern, or "" when none matches. |
| ExtractInfo.FindBillingCycle | utils/extract_info.go:66-72 | The billing cycle is the two trimmed groups, joined by " to ", of the first pattern with two groups, or "". |
| ExtractInfo.FindPaymentDueDate | utils/extract_info.go:81-87 | The due date is the trimmed first group of the first matching pattern, or "". |
| ExtractInfo.FindTotalBalance | utils/extract_info.go:97-103 | The balance is the trimmed first group of the first matching pattern with its commas removed, or "". |
| ExtractInfo.ExtractCreditCardInfo | utils/extract_info.go:11-106 | Panics exactly for 500 < len(text) < 900. Otherwise it returns the record built field by field from the normalised text. |
| ExtractInfo.UpperOfCaseVariant | utils/extract_info.go:34 | Upper-casing a case variant of an upper-case name gives the name. |
| ExtractInfo.VariantIsCardName | utils/extract_info.go:27-38 | The card variant is "" exactly when no pattern matches, and otherwise one of VISA, MASTERCARD, AMEX, AMERICAN EXPRESS, DISCOVER, RUPAY. |
| ExtractInfo.LastDigitsAreDigits | utils/extract_info.go:40-55 | The last digits are "" exactly when no pattern matches. Otherwise they are 2 to 4 digits, and exactly 4 when the match comes from the third pattern or later. |
| ExtractInfo.DateIsTrimmed | utils/extract_info.go:68 | A capture that starts and ends with a digit is unchanged by TrimSpace. |
| ExtractInfo.BillingCycleOfDates | utils/extract_info.go:68 | For two date captures the billing cycle is "A to B", starting and ending with a digit. |
| ExtractInfo.BillingCycleIsRange | utils/extract_info.go:57-72 | The billing cycle is "" exactly when no pattern matches, and otherwise the two captured dates joined by " to ". |
| ExtractInfo.DueDateIsDate | utils/extract_info.go:74-87 | The due date is "" exactly when no pattern matches, and otherwise the captured date itself. |
| ExtractInfo.BalanceIsNumber | utils/extract_info.go:89-103 | The balance is "" without a match, and otherwise the capture without commas. Either way it has only digits and at most one '.'. |
| ExtractInfo.ExtractedInfoWellFormed | utils/extract_info.go:11-106 | With the source's pattern shapes, every field is empty or has the shape its patterns capture, and there are no transactions. |
| ExtractInfo.AllCommasGiveEmptyBalance | utils/extract_info.go:99 | A capture ",," is a possible amount and gives an empty balance. |
| ExtractInfo.GetValueOrNA | utils/extract_info.go:126-131 | "" becomes "N/A"; any other value is returned unchanged; the result is never empty. |

## Left out

- GoStrings.TrimSpace: its own ensures give the shape of the result only. That the two ends it cuts off are whole white-space runes is stated separately by GoStrings.TrimSpaceRemovesSpace, kept as a lemma so that the proofs of every caller stay small.
- GoStrings.TrimLeftSpace: likewise, that the removed prefix is white space is stated by GoStrings.TrimLeftSpaceRemovesSpace.
- GoStrings.TrimRightSpace: likewise, that the removed suffix is white space is stated by GoStrings.TrimRightSpaceRemovesSpace.
- HTTP framework (Gin routing, `c.JSON` serialisation, the `Content-Type` header, `StartServer`): the model stops at the status code and the body value.
- Multipart parsing and the 32 MB `MaxBytesReader` limit: modelled only by their results. An oversized body makes `PostForm` return "", which the model's `password == []` case covers. Any `FormFile` failure is a `None` file name.
- File-system internals of the handler (directory creation, temp-name randomisation, copying, the deferred `os.Remove`): one `Storage` outcome. The removal is registered only after a successful save, so a failed save leaves its temporary file in place; nothing in the model depends on it.
- Server.TempPattern: where `os.CreateTemp` puts its random part is not modelled. It replaces the last '*' of the pattern, which can lie inside the safe name ("a*.pdf") rather than in "upload_*_".
- unipdf: PDF parsing, decryption and text extraction are step outcomes. A negative page count cannot be expressed, because the page count is a list length. The loop runs zero times for it in Go too.
- The Gemini client (`gemini/ai_model.go`), the fixed prompt text and its `log.Fatalf` exits: the AI service is a function parameter.
- JSON grammar and `encoding/json`: a decoding oracle.
- RE2 matching semantics: the patterns are abstract matchers with stated capture classes. Leftmost-first match selection inside one pattern is not modelled.
- ExtractInfo.IsCardName: folds ASCII case only. RE2's `(?i)` also folds "s" with U+017F and "k" with U+212A, and such a capture would not upper-case to one of the six names under the ASCII-only `ToUpper` of this model.
- GoStrings.ToLower, GoStrings.ToUpper: ASCII letters only; Go's Unicode case mapping of other runes is not modelled. This does not change the ".pdf" decision, whose bytes are ASCII.
- Debug and log output (`fmt.Println`, `fmt.Printf`, `log.Printf`), `DisplayCreditCardInfo` and `DebugRegexMatches`: printing only, with no result. The one debug statement with an effect, the `text[:900]` slice, is modelled.
- `utils/decrypt_pdf.go` is not part of this model: the core does not call it.
- `main.go` is not part of this model. It is the service's entry point: `init` loads `.env` (returning early when that fails) and sets the UniDoc licence key, panicking when that is refused, and `main` calls `api.StartServer`. Its earlier command-line flow is commented out.
