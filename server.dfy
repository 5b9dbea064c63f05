/**
 * `api.parsePDFHandler`: the checks on an upload, the name the temporary
 * copy is derived from, the cleaning of the AI service's reply and the
 * choice between relaying it as a decoded JSON object or as a string.
 *
 * Multipart parsing is represented by its two results (the `password` form
 * value, "" when absent, and the uploaded file's name, `None` when
 * `FormFile` fails); the three file-system steps by their outcome; JSON
 * decoding by an oracle that says whether, and to what, `json.Unmarshal`
 * into a `map[string]interface{}` decodes the cleaned text.
 */
module Server {
  import opened Results
  import opened GoStrings
  import opened ProcessPdf

  /** What goes under "data" in a successful response. */
  datatype Payload<O> = Parsed(obj: O) | Raw(text: Bytes)

  /** `{"success": false, "error": ...}` or `{"success": true, "data": ...}`. */
  datatype Body<O> = ErrorBody(error: Bytes) | DataBody(data: Payload<O>)

  datatype Response<O> = Response(status: int, body: Body<O>)

  /** The outcome of `os.MkdirAll`, `os.CreateTemp` and `c.SaveUploadedFile`. */
  datatype Storage = MkdirFailed | CreateTempFailed | SaveFailed(cause: Bytes) | Saved

  const StatusOK := 200
  const StatusBadRequest := 400
  const StatusInternalServerError := 500

  const PasswordRequired := Ascii("Password is required")
  const FileRequired := Ascii("PDF file is required")
  const OnlyPdfAllowed := Ascii("Only PDF files are allowed")
  const TmpDirFailed := Ascii("Failed to create tmp directory")
  const TempFileFailed := Ascii("Failed to create temporary file")
  const SaveFailedPrefix := Ascii("Failed to save uploaded file: ")
  const ProcessFailedPrefix := Ascii("Failed to process PDF: ")

  const Backtick: Byte := 0x60
  const PdfSuffix: Bytes := [DOT, 0x70, 0x64, 0x66]      // ".pdf"
  const Fence: Bytes := [Backtick, Backtick, Backtick]   // "```"
  const JsonTag: Bytes := [0x6A, 0x73, 0x6F, 0x6E]       // "json"
  const UpperJsonTag: Bytes := [0x4A, 0x53, 0x4F, 0x4E]  // "JSON"
  const JsonFence: Bytes := Fence + JsonTag              // "```json"
  const UpperJsonFence: Bytes := Fence + UpperJsonTag    // "```JSON"

  // ---------------------------------------------------------------------
  // Validation
  // ---------------------------------------------------------------------

  /** `strings.HasSuffix(strings.ToLower(filename), ".pdf")`. */
  predicate HasPdfExtension(filename: Bytes) {
    HasSuffix(ToLower(filename), PdfSuffix)
  }

  /** The message of the 400 response, if the upload is rejected. */
  function Rejection(password: Bytes, filename: Option<Bytes>): Option<Bytes> {
    if password == [] then Some(PasswordRequired)
    else if filename.None? then Some(FileRequired)
    else if !HasPdfExtension(filename.value) then Some(OnlyPdfAllowed)
    else None
  }

  /** The checks run in a fixed order: the password before the file is looked
      at, the file's presence before its name. */
  lemma ValidationOrder(password: Bytes, filename: Option<Bytes>)
    ensures password == [] ==> Rejection(password, filename) == Some(PasswordRequired)
    ensures password != [] && filename.None? ==> Rejection(password, filename) == Some(FileRequired)
    ensures password != [] && filename.Some? ==>
              (Rejection(password, filename) == None <==> HasPdfExtension(filename.value))
    ensures Rejection(password, filename).Some? ==>
              Rejection(password, filename).value in {PasswordRequired, FileRequired, OnlyPdfAllowed}
  {
  }

  /** The extension check holds exactly when the last four bytes are '.', then
      'p' or 'P', 'd' or 'D', 'f' or 'F'. */
  lemma PdfExtensionIff(filename: Bytes)
    ensures HasPdfExtension(filename) <==>
              var n := |filename|;
              && n >= 4
              && filename[n - 4] == '.' as int
              && filename[n - 3] in {'p' as int, 'P' as int}
              && filename[n - 2] in {'d' as int, 'D' as int}
              && filename[n - 1] in {'f' as int, 'F' as int}
  {
    var n := |filename|;
    assert PdfSuffix == ['.' as int, 'p' as int, 'd' as int, 'f' as int];
    if n >= 4 {
      var tail := ToLower(filename)[n - 4..];
      assert tail == [LowerByte(filename[n - 4]), LowerByte(filename[n - 3]),
                      LowerByte(filename[n - 2]), LowerByte(filename[n - 1])];
    }
  }

  // ---------------------------------------------------------------------
  // The temporary file's name
  // ---------------------------------------------------------------------

  /** `filepath.Base(file.Filename)`. */
  function SafeName(filename: Bytes): Bytes {
    Base(filename)
  }

  /** The fixed part of the pattern handed to `os.CreateTemp`. */
  const UploadPrefix := Ascii("upload_*_")

  /** The pattern handed to `os.CreateTemp`. */
  function TempPattern(filename: Bytes): Bytes {
    UploadPrefix + SafeName(filename)
  }

  lemma {:induction false} AfterLastSlashKeepsTail(path: Bytes, k: nat)
    requires k <= |path|
    requires forall i | |path| - k <= i < |path| :: path[i] != SLASH
    ensures |AfterLastSlash(path)| >= k
    decreases |path|
  {
    if k > 0 {
      AfterLastSlashKeepsTail(path[..|path| - 1], k - 1);
    }
  }

  /** An accepted name ends in "f" or "F", so Base only cuts at its last '/',
      and keeps at least the four bytes of the extension. */
  lemma AcceptedSafeName(filename: Bytes)
    requires HasPdfExtension(filename)
    ensures SafeName(filename) == AfterLastSlash(filename)
    ensures |SafeName(filename)| >= 4
  {
    PdfExtensionIff(filename);
    assert StripTrailingSlashes(filename) == filename;
    AfterLastSlashKeepsTail(filename, 4);
  }

  /** A name and a suffix of it of four bytes or more have the same extension. */
  lemma ExtensionOfSuffix(name: Bytes, tail: Bytes)
    requires HasSuffix(name, tail) && |tail| >= 4
    ensures HasPdfExtension(name) <==> HasPdfExtension(tail)
  {
    var n := |name|;
    var m := |tail|;
    assert forall j | m - 4 <= j < m :: tail[j] == name[n - m + j] by {
      assert tail == name[n - m..];
    }
    PdfExtensionIff(name);
    PdfExtensionIff(tail);
  }

  /** For an accepted file name, the safe name is its last '/'-separated
      component: a tail of the name, preceded by '/' unless it is all of it,
      and free of '/'. */
  lemma SafeNameIsLastComponent(filename: Bytes)
    requires HasPdfExtension(filename)
    ensures var safe := SafeName(filename);
      && HasSuffix(filename, safe)
      && (|safe| < |filename| ==> filename[|filename| - |safe| - 1] == SLASH)
      && SLASH !in safe
  {
    AcceptedSafeName(filename);
  }

  /** The safe name of an accepted file still has a ".pdf" extension, and the
      temp-file pattern built from it has no separator in it. */
  lemma SafeNameKeepsExtension(filename: Bytes)
    requires HasPdfExtension(filename)
    ensures HasPdfExtension(SafeName(filename))
    ensures SLASH !in TempPattern(filename)
  {
    AcceptedSafeName(filename);
    var safe := SafeName(filename);
    ExtensionOfSuffix(filename, safe);
    NoSlashInPattern(safe);
  }

  lemma NoSlashInPattern(safe: Bytes)
    requires SLASH !in safe
    ensures SLASH !in UploadPrefix + safe
  {
    assert forall i | 0 <= i < |UploadPrefix| :: UploadPrefix[i] != SLASH;
  }

  // ---------------------------------------------------------------------
  // Cleaning the AI reply
  // ---------------------------------------------------------------------

  /** TrimSpace, TrimPrefix "```json", TrimPrefix "```JSON", TrimSuffix "```",
      TrimSpace. */
  function CleanOutput(reply: Bytes): (clean: Bytes)
    ensures IsTrimmed(clean)
  {
    var trimmed := TrimSpace(reply);
    var noLower := TrimPrefix(trimmed, JsonFence);
    var noUpper := TrimPrefix(noLower, UpperJsonFence);
    var noClosing := TrimSuffix(noUpper, Fence);
    TrimSpace(noClosing)
  }

  /** A reply that is already trimmed and carries neither an opening "```json"
      or "```JSON" nor a closing "```" is left as it is. */
  lemma CleanLeavesPlainText(s: Bytes)
    requires IsTrimmed(s)
    requires !HasPrefix(s, JsonFence) && !HasPrefix(s, UpperJsonFence) && !HasSuffix(s, Fence)
    ensures CleanOutput(s) == s
  {
  }

  /** Bytes starting and ending with a backtick have no white space to trim. */
  lemma BacktickEndsAreTrimmed(s: Bytes)
    requires |s| >= 1 && s[0] == Backtick && s[|s| - 1] == Backtick
    ensures IsTrimmed(s)
  {
  }

  /** "```json" + b + "```" is cleaned to TrimSpace(b), unless b itself starts
      with a second, upper-case, opening fence. */
  lemma CleanStripsJsonFence(b: Bytes)
    requires !HasPrefix(b, UpperJsonFence)
    ensures CleanOutput(JsonFence + b + Fence) == TrimSpace(b)
  {
    var s := JsonFence + b + Fence;
    BacktickEndsAreTrimmed(s);
    assert s[..7] == JsonFence;
    assert s[7..] == b + Fence;
    var rest := b + Fence;
    if |rest| >= 7 {
      if |b| < 7 {
        // "```JSON" has a letter where the closing fence puts a backtick
        assert rest[|b|] == Backtick;
        assert UpperJsonFence[|b|] != Backtick;
      } else {
        assert rest[..7] == b[..7];
      }
    }
    assert !HasPrefix(rest, UpperJsonFence);
    assert HasSuffix(rest, Fence);
    assert TrimSuffix(rest, Fence) == b;
  }

  /** "```JSON" + b + "```" is cleaned to TrimSpace(b). */
  lemma CleanStripsUpperJsonFence(b: Bytes)
    ensures CleanOutput(UpperJsonFence + b + Fence) == TrimSpace(b)
  {
    var s := UpperJsonFence + b + Fence;
    BacktickEndsAreTrimmed(s);
    assert s[..7] == UpperJsonFence;
    assert s[3] != JsonFence[3];
    assert !HasPrefix(s, JsonFence);
    assert s[7..] == b + Fence;
    assert TrimSuffix(b + Fence, Fence) == b;
  }

  /** A bare "```" opening fence is not removed, nor is the white space after
      it; only the closing fence and the trailing white space go. */
  lemma BareFenceSurvives(b: Bytes)
    requires !HasPrefix(b, JsonTag) && !HasPrefix(b, UpperJsonTag)
    ensures CleanOutput(Fence + b + Fence) == Fence + TrimRightSpace(b)
  {
    var s := Fence + b + Fence;
    BacktickEndsAreTrimmed(s);
    var unclosed := Fence + b;
    assert s == unclosed + Fence;
    if |s| >= 7 {
      var head := (b + Fence)[..4];
      assert s[..7] == Fence + head;
      if |b| >= 4 {
        assert head == b[..4];
      } else {
        assert head[3] == Backtick;
      }
      assert head != JsonTag && head != UpperJsonTag;
      FenceHeadsDiffer(head, JsonTag);
      FenceHeadsDiffer(head, UpperJsonTag);
    }
    assert TrimSuffix(s, Fence) == unclosed;
    assert TrimLeftSpace(unclosed) == unclosed;
    TrimRightSpaceAppend(Fence, b);
  }

  /** Two fences with different four-byte heads differ. */
  lemma FenceHeadsDiffer(x: Bytes, y: Bytes)
    requires |x| == 4 && |y| == 4 && x != y
    ensures Fence + x != Fence + y
  {
    assert (Fence + x)[3..] == x;
    assert (Fence + y)[3..] == y;
  }

  /** Printable ASCII: bytes that are neither white space nor part of a
      multi-byte encoding. */
  predicate IsPlainAscii(p: Bytes) {
    forall i | 0 <= i < |p| :: 0x20 < p[i] < 0x80
  }

  lemma FencesArePlainAscii()
    ensures IsPlainAscii(JsonFence) && IsPlainAscii(UpperJsonFence) && IsPlainAscii(Fence)
  {
  }

  /** Putting plain ASCII bytes in front of a trimmed string keeps it trimmed. */
  lemma TrimmedAfterPlainAscii(prefix: Bytes, body: Bytes)
    requires |prefix| >= 2 && IsPlainAscii(prefix)
    requires IsTrimmed(body)
    ensures IsTrimmed(prefix + body)
  {
    var s := prefix + body;
    var n, m, k := |s|, |body|, |prefix|;
    var first, last1, last2 := prefix[0], prefix[k - 1], prefix[k - 2];
    assert 0x20 < first < 0x80 && 0x20 < last1 < 0x80 && 0x20 < last2 < 0x80;
    assert s[0] == first;
    if m >= 3 {
      TrailingWidthOfTail(s, body);
    } else if m == 2 {
      assert s[n - 1] == body[1] && s[n - 2] == body[0] && s[n - 3] == last1;
    } else if m == 1 {
      assert s[n - 1] == body[0] && s[n - 2] == last1;
      assert n >= 3 ==> s[n - 3] == last2;
    } else {
      assert s[n - 1] == last1 && s[n - 2] == last2;
    }
  }

  /** The trailing white space of a string depends on its last three bytes only. */
  lemma TrailingWidthOfTail(s: Bytes, tail: Bytes)
    requires |tail| >= 3 && HasSuffix(s, tail)
    ensures TrailingSpaceWidth(s) == TrailingSpaceWidth(tail)
  {
    var n, m := |s|, |tail|;
    assert s[n - 1] == tail[m - 1] && s[n - 2] == tail[m - 2] && s[n - 3] == tail[m - 3];
  }

  /** The two opening fences are each removed once, "```json" first. */
  lemma LowerThenUpperFenceRemoved(body: Bytes)
    requires IsTrimmed(body) && !HasSuffix(body, Fence)
    ensures CleanOutput(JsonFence + UpperJsonFence + body) == body
  {
    var s := JsonFence + UpperJsonFence + body;
    FencesArePlainAscii();
    TrimmedAfterPlainAscii(JsonFence + UpperJsonFence, body);
    assert TrimSpace(s) == s;
    assert s[..7] == JsonFence && s[7..] == UpperJsonFence + body;
    var a := TrimPrefix(s, JsonFence);
    assert a == UpperJsonFence + body;
    assert a[..7] == UpperJsonFence && a[7..] == body;
    assert TrimPrefix(a, UpperJsonFence) == body;
  }

  /** In the other order only "```JSON" is removed: the "```json" that it
      uncovers stays. */
  lemma UpperThenLowerFenceKept(body: Bytes)
    requires IsTrimmed(body) && !HasSuffix(body, Fence)
    ensures CleanOutput(UpperJsonFence + JsonFence + body) == JsonFence + body
  {
    var s := UpperJsonFence + JsonFence + body;
    FencesArePlainAscii();
    TrimmedAfterPlainAscii(UpperJsonFence + JsonFence, body);
    TrimmedAfterPlainAscii(JsonFence, body);
    assert TrimSpace(s) == s;
    assert s[3] != JsonFence[3];
    assert TrimPrefix(s, JsonFence) == s;
    assert s[..7] == UpperJsonFence && s[7..] == JsonFence + body;
    var b := JsonFence + body;
    assert TrimPrefix(s, UpperJsonFence) == b;
    if |body| >= 3 {
      assert b[|b| - 3..] == body[|body| - 3..];
    } else {
      assert b[|b| - 3] == JsonFence[4 + |body|];
    }
    assert TrimSuffix(b, Fence) == b;
  }

  /** Cleaning is not idempotent: a second pass can remove a fence that the
      first pass uncovered. */
  lemma CleanNotIdempotent()
    ensures CleanOutput(Fence + Fence) == Fence
    ensures CleanOutput(CleanOutput(Fence + Fence)) == []
  {
    var s := Fence + Fence;
    assert IsTrimmed(s);
    assert s[..3] == Fence && s[3..] == Fence;
    assert TrimSuffix(s, Fence) == Fence;
    assert IsTrimmed(Fence);
    assert TrimSuffix(Fence, Fence) == [];
  }

  // ---------------------------------------------------------------------
  // The response
  // ---------------------------------------------------------------------

  /** The 200 response for the AI's reply: the decoded object when the cleaned
      text decodes, else the cleaned text itself. */
  function Reply<O>(reply: Bytes, decode: Bytes -> Option<O>): Response<O> {
    var clean := CleanOutput(reply);
    match decode(clean)
    case Some(obj) => Response(StatusOK, DataBody(Parsed(obj)))
    case None => Response(StatusOK, DataBody(Raw(clean)))
  }

  /** A reply always yields success with status 200; the payload is the decoded
      cleaned text when it decodes, and otherwise a string with nothing to trim
      at either end; for a reply without fences, that string is the trimmed
      reply. */
  lemma ReplyIsSuccess<O>(reply: Bytes, decode: Bytes -> Option<O>)
    ensures Reply(reply, decode).status == StatusOK && Reply(reply, decode).body.DataBody?
    ensures var data := Reply(reply, decode).body.data;
      && (data.Parsed? <==> decode(CleanOutput(reply)).Some?)
      && (data.Parsed? ==> Some(data.obj) == decode(CleanOutput(reply)))
      && (data.Raw? ==> data.text == CleanOutput(reply) && IsTrimmed(data.text))
    ensures var t := TrimSpace(reply);
      (!HasPrefix(t, JsonFence) && !HasPrefix(t, UpperJsonFence) && !HasSuffix(t, Fence) && decode(t).None?)
        ==> Reply(reply, decode).body.data == Raw(t)
  {
    var t := TrimSpace(reply);
    if !HasPrefix(t, JsonFence) && !HasPrefix(t, UpperJsonFence) && !HasSuffix(t, Fence) {
      CleanLeavesPlainText(t);
      assert CleanOutput(reply) == CleanOutput(t);
    }
  }

  /** The handler after multipart parsing: reject, store, process, reply. */
  method ParsePdfHandler<O>(password: Bytes, filename: Option<Bytes>, storage: Storage,
                            lib: PdfLibrary, analyze: Bytes -> Bytes, decode: Bytes -> Option<O>)
    returns (resp: Response<O>)
    ensures Rejection(password, filename).Some? ==>
              resp == Response(StatusBadRequest, ErrorBody(Rejection(password, filename).value))
    ensures Rejection(password, filename).None? ==>
              match storage
              case MkdirFailed => resp == Response(StatusInternalServerError, ErrorBody(TmpDirFailed))
              case CreateTempFailed => resp == Response(StatusInternalServerError, ErrorBody(TempFileFailed))
              case SaveFailed(cause) =>
                resp == Response(StatusInternalServerError, ErrorBody(SaveFailedPrefix + cause))
              case Saved =>
                match FirstError(password, lib)
                case Some(e) =>
                  resp == Response(StatusInternalServerError, ErrorBody(ProcessFailedPrefix + Message(e)))
                case None => resp == Reply(analyze(AssembledText(lib.pageCount.pages)), decode)
  {
    var rejection := Rejection(password, filename);
    if rejection.Some? {
      return Response(StatusBadRequest, ErrorBody(rejection.value));
    }
    if storage.MkdirFailed? {
      return Response(StatusInternalServerError, ErrorBody(TmpDirFailed));
    }
    if storage.CreateTempFailed? {
      return Response(StatusInternalServerError, ErrorBody(TempFileFailed));
    }
    if storage.SaveFailed? {
      return Response(StatusInternalServerError, ErrorBody(SaveFailedPrefix + storage.cause));
    }
    var result := ProcessPDF(password, lib, analyze);
    if result.Failure? {
      return Response(StatusInternalServerError, ErrorBody(ProcessFailedPrefix + Message(result.error)));
    }
    resp := Reply(result.value, decode);
  }

  /** Through the handler, a stored upload with a wrong password gets a 500
      "Failed to process PDF: invalid password", and Decrypt is always reached
      with a non-empty password. */
  lemma WrongPasswordIsServerError(password: Bytes, filename: Bytes, lib: PdfLibrary)
    requires Rejection(password, Some(filename)).None?
    requires lib.open.Done? && lib.newReader.Done? && lib.decrypt == Decrypted(false)
    ensures password != []
    ensures FirstError(password, lib) == Some(InvalidPassword)
  {
  }
}
