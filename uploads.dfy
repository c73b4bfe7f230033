/**
 * What both servers share about `POST /upload`: multer's single-file
 * reception with its 200 MiB limit, and the reply the handler sends.
 * The multipart stream itself is not modelled; a request is what multer
 * makes of it: at most one part named `file`, with its declared name, type
 * and byte count, and possibly a fault (malformed multipart, unexpected
 * field, storage write error) multer reports instead of a file.
 */
module Uploads {
  import opened Wrappers

  /** `limits: { fileSize: 200 * 1024 * 1024 }`. */
  const MaxFileSize: nat := 200 * 1024 * 1024

  /** The message multer gives the LIMIT_FILE_SIZE error. */
  const FileTooLarge: string := "File too large"

  /** An error multer passes on: its message and the numeric `status` and
      `statusCode` properties it carries, if any. Multer's own errors carry
      neither; an error from the storage engine (an S3 client error, say)
      may carry one. */
  datatype Fault = Fault(message: string, status: Option<int>, statusCode: Option<int>)

  /** The LIMIT_FILE_SIZE error. */
  const LimitFileSize: Fault := Fault(FileTooLarge, None, None)

  datatype FilePart = FilePart(originalName: string, mimeType: string, size: nat)

  datatype Request = Request(fault: Option<Fault>, file: Option<FilePart>)

  /** What `upload.single('file')` hands on: an error, no file, or a stored file. */
  datatype Reception = Failed(fault: Fault) | NoFile | Received(file: FilePart)

  /** Multer's verdict on a request. A file part with an empty file name is
      skipped, as if it were absent. A file of exactly the limit is accepted;
      one byte more is refused with LIMIT_FILE_SIZE. */
  function Receive(req: Request): (r: Reception)
    ensures req.fault.Some? ==> r == Failed(req.fault.value)
    ensures r.Received? <==>
      && req.fault.None? && req.file.Some?
      && req.file.value.originalName != "" && req.file.value.size <= MaxFileSize
    ensures r.Received? ==> r.file == req.file.value
    ensures r.NoFile? <==> req.fault.None? && (req.file.None? || req.file.value.originalName == "")
    ensures r.Failed? && req.fault.None? ==> r.fault == LimitFileSize
  {
    match req.fault
    case Some(fault) => Failed(fault)
    case None =>
      match req.file
      case None => NoFile
      case Some(part) =>
        if part.originalName == "" then NoFile
        else if part.size > MaxFileSize then Failed(LimitFileSize)
        else Received(part)
  }

  predicate IsErrorStatus(code: int) {
    400 <= code < 600
  }

  /** The status Express's default error handler answers with: the error's
      `status` when that is an error status, else its `statusCode` when that
      is one, else 500. */
  function DefaultHandlerStatus(fault: Fault): (code: nat)
    ensures IsErrorStatus(code)
    ensures fault.status.Some? && IsErrorStatus(fault.status.value) ==> code == fault.status.value
    ensures !(fault.status.Some? && IsErrorStatus(fault.status.value))
            && fault.statusCode.Some? && IsErrorStatus(fault.statusCode.value)
            ==> code == fault.statusCode.value
    ensures code != 500 ==>
      || (fault.status.Some? && fault.status.value == code)
      || (fault.statusCode.Some? && fault.statusCode.value == code)
  {
    if fault.status.Some? && IsErrorStatus(fault.status.value) then fault.status.value
    else if fault.statusCode.Some? && IsErrorStatus(fault.statusCode.value) then fault.statusCode.value
    else 500
  }

  /** The reply to `POST /upload`: `{ link }` with 200, a JSON error with its
      status, or an error passed to Express's default handler, which answers
      with the status it picks. `Unhandled` keeps the error's message for
      reference; it is not the response body, which the default handler
      writes itself (the status text, or the stack trace in development). */
  datatype UploadReply = Linked(link: string) | Rejected(status: nat, error: string) | Unhandled(status: nat, message: string)

  function UploadStatus(reply: UploadReply): nat {
    match reply
    case Linked(_) => 200
    case Rejected(status, _) => status
    case Unhandled(status, _) => status
  }
}
