/**
 * The upload server's own decisions: which declared MIME types the file
 * filter lets through, how an upload error becomes a response, what the
 * `POST /api/upload-pc` route answers, and the application-wide error
 * handler.  A response is modelled as the status code and the JSON body the
 * handler passes to `res.status(...).json(...)`.
 */
module UploadServer {
  import opened Wrappers
  import StoredNames

  // ---------------------------------------------------------------------------
  // Errors and responses
  // ---------------------------------------------------------------------------

  /**
   * A truthy error value handed to the next middleware.  `MulterError` is an
   * instance of the upload library's error class, with its `code` and
   * `message`; `OtherError` is anything else, whose `message` property may be
   * absent (a thrown string, say).
   */
  datatype Error =
    | MulterError(code: string, multerMessage: string)
    | OtherError(message: Option<string>)

  /** The `message` property of an error, `None` when it has none. */
  function MessageOf(e: Error): (m: Option<string>)
    ensures e.MulterError? ==> m == Some(e.multerMessage)
    ensures e.OtherError? ==> m == e.message
  {
    match e
    case MulterError(_, m) => Some(m)
    case OtherError(m) => m
  }

  /** The file fields the route echoes back: exactly these five. */
  datatype FileSummary = FileSummary(
    filename: string, originalName: string, size: nat, mimetype: string, path: string)

  /**
   * A JSON response body.  `ErrorBody(None)` is `{ error: undefined }`, which
   * serialises as `{}`.
   */
  datatype Body =
    | ErrorBody(error: Option<string>)
    | UploadedBody(message: string, file: FileSummary)

  datatype Response = Response(status: nat, body: Body)

  /** The file record the upload library attaches to the request. */
  datatype UploadedFile = UploadedFile(
    fieldname: string, originalname: string, encoding: string, mimetype: string,
    destination: string, filename: string, path: string, size: nat)

  // ---------------------------------------------------------------------------
  // The file filter
  // ---------------------------------------------------------------------------

  /** The declared MIME types the server accepts: PDF, JPEG, PNG, Word. */
  const AllowedTypes: seq<string> := [
    "application/pdf",
    "image/jpeg",
    "image/png",
    "application/msword",
    "application/vnd.openxmlformats-officedocument.wordprocessingml.document"
  ]

  const InvalidTypeMessage: string :=
    "Invalid file type. Only PDF, JPEG, PNG, and Word documents are allowed."

  /** The two arguments the filter passes to its callback: an error, and whether to accept. */
  datatype FilterVerdict = FilterVerdict(err: Option<Error>, accept: bool)

  /**
   * The file filter: a file is accepted exactly when its declared MIME string
   * is one of the allowed ones, character for character; otherwise the
   * callback gets the fixed invalid-type error and `false`.
   */
  function FileFilter(mimetype: string): (v: FilterVerdict)
    ensures v.accept <==> mimetype in AllowedTypes
    ensures v.accept ==> v.err.None?
    ensures !v.accept ==> v.err == Some(OtherError(Some(InvalidTypeMessage)))
  {
    if mimetype in AllowedTypes then FilterVerdict(None, true)
    else FilterVerdict(Some(OtherError(Some(InvalidTypeMessage))), false)
  }

  /** The allowed set, spelled out: five exact strings and nothing else. */
  lemma AcceptedTypesExactly(mimetype: string)
    ensures FileFilter(mimetype).accept <==>
      mimetype == "application/pdf" || mimetype == "image/jpeg" || mimetype == "image/png" ||
      mimetype == "application/msword" ||
      mimetype == "application/vnd.openxmlformats-officedocument.wordprocessingml.document"
  {
  }

  /**
   * Matching is case-sensitive; for example, upper-case spellings of two
   * allowed types are refused.
   */
  lemma FilterIsCaseSensitive()
    ensures !FileFilter("APPLICATION/PDF").accept
    ensures !FileFilter("Image/PNG").accept
  {
    assert "APPLICATION/PDF"[0] != "application/pdf"[0];
    assert "Image/PNG"[0] != "image/png"[0];
  }

  // ---------------------------------------------------------------------------
  // The size limit
  // ---------------------------------------------------------------------------

  /** The largest file the upload library is told to accept, in bytes. */
  const MaxFileSize: nat := 10 * 1024 * 1024

  lemma MaxFileSizeIsTenMiB()
    ensures MaxFileSize == 10_485_760
  {
  }

  // ---------------------------------------------------------------------------
  // The upload error handler
  // ---------------------------------------------------------------------------

  const FileSizeCode: string := "LIMIT_FILE_SIZE"
  const FileTooLargeMessage: string := "File size too large. Maximum size is 10MB."

  /**
   * The upload error handler.  `None` for `err` is a falsy error, and a
   * `None` result is the call to `next()`.  Every error is answered with 400:
   * an oversize error from the upload library with the fixed 10MB message,
   * any other error with its own message.  Only a falsy error is passed on.
   */
  function HandleUploadError(err: Option<Error>): (r: Option<Response>)
    ensures r.None? <==> err.None?
    ensures r.Some? ==> r.value.status == 400 && r.value.body.ErrorBody?
    ensures err.Some? && err.value.MulterError? && err.value.code == FileSizeCode ==>
      r.value.body.error == Some(FileTooLargeMessage)
    ensures err.Some? && !(err.value.MulterError? && err.value.code == FileSizeCode) ==>
      r.value.body.error == MessageOf(err.value)
  {
    match err
    case None => None
    case Some(MulterError(code, message)) =>
      if code == FileSizeCode then Some(Response(400, ErrorBody(Some(FileTooLargeMessage))))
      else Some(Response(400, ErrorBody(Some(message))))
    case Some(OtherError(message)) => Some(Response(400, ErrorBody(message)))
  }

  // ---------------------------------------------------------------------------
  // The upload route
  // ---------------------------------------------------------------------------

  const NoFileMessage: string := "No file was uploaded."
  const UploadedMessage: string := "File uploaded successfully!"

  /** The five fields of the uploaded file the route echoes, copied unchanged. */
  function Summary(f: UploadedFile): (s: FileSummary)
    ensures s.filename == f.filename && s.originalName == f.originalname
    ensures s.size == f.size && s.mimetype == f.mimetype && s.path == f.path
  {
    FileSummary(f.filename, f.originalname, f.size, f.mimetype, f.path)
  }

  /**
   * Two uploads get the same echo exactly when they agree on the five echoed
   * fields: the field name, encoding and destination are never echoed.
   */
  lemma SummaryDependsOnlyOnEchoedFields(f: UploadedFile, g: UploadedFile)
    ensures Summary(f) == Summary(g) <==>
      && f.filename == g.filename && f.originalname == g.originalname
      && f.size == g.size && f.mimetype == g.mimetype && f.path == g.path
  {
  }

  /**
   * The route's own handler: 400 with the no-file message when the request
   * carries no file, otherwise 200 with the success message and the file's
   * name, original name, size, MIME type and path.
   */
  function UploadRoute(file: Option<UploadedFile>): (r: Response)
    ensures r.status == 200 <==> file.Some?
    ensures file.None? ==> r == Response(400, ErrorBody(Some(NoFileMessage)))
    ensures file.Some? ==> r.body.UploadedBody? && r.body.message == UploadedMessage
    ensures file.Some? ==>
      && r.body.file.filename == file.value.filename
      && r.body.file.originalName == file.value.originalname
      && r.body.file.size == file.value.size
      && r.body.file.mimetype == file.value.mimetype
      && r.body.file.path == file.value.path
  {
    match file
    case None => Response(400, ErrorBody(Some(NoFileMessage)))
    case Some(f) => Response(200, UploadedBody(UploadedMessage, Summary(f)))
  }

  // ---------------------------------------------------------------------------
  // The route's middleware chain
  // ---------------------------------------------------------------------------

  /**
   * How the upload middleware finishes: with an error handed to `next(err)`,
   * or by calling `next()` with the request's file set or not set.
   */
  datatype UploadOutcome =
    | Failed(err: Error)
    | Passed(file: Option<UploadedFile>)

  /**
   * The chain `upload.single('file')`, then the upload error handler, then
   * the route handler.  Express hands an error only to error-handling
   * middleware and a plain `next()` only to ordinary middleware, so the error
   * handler sees the error (if any) and, should it pass on, the route sees
   * the request's file.
   */
  function UploadChain(outcome: UploadOutcome): (r: Response)
    ensures r.status == 200 || r.status == 400
    ensures r.status == 200 <==> outcome.Passed? && outcome.file.Some?
    ensures outcome.Failed? ==> r.body.ErrorBody?
  {
    var err := if outcome.Failed? then Some(outcome.err) else None;
    var file := if outcome.Passed? then outcome.file else None;
    match HandleUploadError(err)
    case Some(response) => response
    case None => UploadRoute(file)
  }

  /** A file the filter refuses is answered with 400 and the invalid-type message. */
  lemma RefusedTypeAnswer(mimetype: string)
    requires mimetype !in AllowedTypes
    ensures FileFilter(mimetype).err.Some?
    ensures UploadChain(Failed(FileFilter(mimetype).err.value))
         == Response(400, ErrorBody(Some(InvalidTypeMessage)))
  {
  }

  /**
   * An oversize upload is answered with 400 and the fixed 10MB message,
   * whatever message the upload library put on its error.
   */
  lemma OversizeAnswer(libraryMessage: string)
    ensures UploadChain(Failed(MulterError(FileSizeCode, libraryMessage)))
         == Response(400, ErrorBody(Some(FileTooLargeMessage)))
  {
  }

  /**
   * A stored file's name, as echoed in the success response, gives back the
   * clock reading, the random draw and the sanitised original name the
   * response also carries.
   */
  lemma EchoedNameReadsBack(now: StoredNames.ClockMillis, draw: StoredNames.RandomDraw, f: UploadedFile)
    requires f.filename == StoredNames.StoredName(now, draw, f.originalname)
    ensures UploadChain(Passed(Some(f))).status == 200
    ensures StoredNames.ParseStoredName(UploadChain(Passed(Some(f))).body.file.filename)
         == Some(StoredNames.StoredNameParts(
              now, draw, StoredNames.Sanitize(UploadChain(Passed(Some(f))).body.file.originalName)))
  {
    StoredNames.StoredNameRoundTrip(now, draw, f.originalname);
  }

  // ---------------------------------------------------------------------------
  // The application-wide error handler
  // ---------------------------------------------------------------------------

  const GenericFailureMessage: string := "Something went wrong!"

  /**
   * The last error handler: every error that reaches it is answered with 500
   * and the same generic message, which says nothing of the error itself.
   */
  function CatchAll(err: Error): (r: Response)
    ensures r.status == 500
    ensures r.body == ErrorBody(Some(GenericFailureMessage))
  {
    Response(500, ErrorBody(Some(GenericFailureMessage)))
  }

  /** The generic answer does not depend on the error: nothing of it leaks. */
  lemma CatchAllHidesError(e1: Error, e2: Error)
    ensures CatchAll(e1) == CatchAll(e2)
  {
  }
}
