/**
 * server.js: the local-disk variant. Multer writes the upload into
 * `uploadDir` under its storage name, the handler records it in the sqlite
 * `files` table under a fresh token, and `GET /file/:token` serves the file
 * from disk with its recorded type.
 */
module LocalServer {
  import opened Wrappers
  import opened Naming
  import opened Uploads
  import Catalog

  /** A row of `files`: the columns the handlers write and read. */
  datatype FileRow = FileRow(originalName: string, filename: string, mime: string, size: nat, path: string)

  const OctetStream: string := "application/octet-stream"

  /** The row recorded for a file received at `now`: its disk name is the
      timestamped, sanitised client name, and its path names a direct child
      of `uploadDir`. */
  function NewRow(file: FilePart, uploadDir: string, now: nat): (row: FileRow)
    ensures row.originalName == file.originalName && row.mime == file.mimeType && row.size == file.size
    ensures row.filename == StoredName(now, file.originalName)
    ensures IsPathComponent(row.filename) && AllAllowed(row.filename)
    ensures SplitStoredName(row.filename) == Some((now, Sanitize(file.originalName)))
    ensures row.path == JoinPath(uploadDir, row.filename)
    ensures BaseName(row.path) == row.filename && DirName(row.path) == uploadDir
  {
    var filename := StoredName(now, file.originalName);
    StoredNameShape(now, file.originalName);
    StoredNameRoundTrip(now, file.originalName);
    JoinIsDirectChild(uploadDir, filename);
    FileRow(file.originalName, filename, file.mimeType, file.size, JoinPath(uploadDir, filename))
  }

  /** Every row is one the upload handler can write: a token without `-`,
      a disk name that is one path component, and a path inside `uploadDir`. */
  predicate Consistent(rows: map<string, FileRow>, uploadDir: string) {
    forall token :: token in rows ==>
      && '-' !in token
      && IsPathComponent(rows[token].filename)
      && rows[token].path == JoinPath(uploadDir, rows[token].filename)
  }

  /** `POST /upload`. A multer error or a missing file gives 400 and inserts
      nothing; otherwise one row is inserted under `uuid.split('-')[0]`, and
      the reply is the link, or 500 when the insert fails (a token already
      in the table or an engine fault) and the table is left as it was. */
  method Upload(files: Catalog.Table<FileRow>, req: Request, uploadDir: string, now: nat, uuid: string, dbFault: bool)
    returns (reply: UploadReply)
    modifies files
    ensures match Receive(req)
      case Failed(fault) =>
        && reply == Rejected(400, if fault.message == "" then "Upload error" else fault.message)
        && files.rows == old(files.rows)
      case NoFile =>
        reply == Rejected(400, "No file") && files.rows == old(files.rows)
      case Received(file) =>
        var token := HeadField(uuid);
        if !dbFault && token !in old(files.rows) then
          && reply == Linked(Link(token))
          && files.rows == old(files.rows)[token := NewRow(file, uploadDir, now)]
        else
          reply == Rejected(500, "DB error") && files.rows == old(files.rows)
    ensures reply.Linked? <==> |files.rows| == |old(files.rows)| + 1
    ensures UploadStatus(reply) == 200 <==> reply.Linked?
    ensures UploadStatus(reply) in {200, 400, 500}
    ensures Consistent(old(files.rows), uploadDir) ==> Consistent(files.rows, uploadDir)
  {
    match Receive(req)
    case Failed(fault) =>
      reply := Rejected(400, if fault.message == "" then "Upload error" else fault.message);
    case NoFile =>
      reply := Rejected(400, "No file");
    case Received(file) =>
      var token := HeadField(uuid);
      var row := NewRow(file, uploadDir, now);
      var ok := files.Insert(token, row, dbFault);
      if ok {
        reply := Linked(Link(token));
      } else {
        reply := Rejected(500, "DB error");
      }
  }

  /** The outcome of `GET /file/:token`. */
  datatype FileReply = ServerError | NotFound | Gone | Serve(contentType: string, path: string)

  function FileStatus(reply: FileReply): nat {
    match reply
    case ServerError => 500
    case NotFound => 404
    case Gone => 410
    case Serve(_, _) => 200
  }

  /** `row.mime || 'application/octet-stream'`: the value handed to `res.type`. */
  function ContentType(mime: string): (t: string)
    ensures t != ""
    ensures mime != "" ==> t == mime
    ensures mime == "" ==> t == OctetStream
  {
    if mime == "" then OctetStream else mime
  }

  /** `GET /file/:token` against the table's rows, with `present` the set of
      paths that exist on disk and `lookupFault` a failed query. The checks
      come in order: query error, unknown token, missing file, serve. */
  function Retrieve(rows: map<string, FileRow>, token: string, lookupFault: bool, present: set<string>): (r: FileReply)
    ensures r == ServerError <==> lookupFault
    ensures r == NotFound <==> !lookupFault && token !in rows
    ensures r == Gone <==> !lookupFault && token in rows && rows[token].path !in present
    ensures r.Serve? <==> !lookupFault && token in rows && rows[token].path in present
    ensures r.Serve? ==> r.path == rows[token].path && r.contentType == ContentType(rows[token].mime)
    ensures FileStatus(r) in {200, 404, 410, 500}
  {
    if lookupFault then ServerError
    else if token !in rows then NotFound
    else if rows[token].path !in present then Gone
    else Serve(ContentType(rows[token].mime), rows[token].path)
  }

  /** What a consistent table serves lies directly inside `uploadDir`, under
      the row's own disk name. */
  lemma ServedInsideUploadDir(rows: map<string, FileRow>, uploadDir: string, token: string,
                              present: set<string>, contentType: string, path: string)
    requires Consistent(rows, uploadDir)
    requires Retrieve(rows, token, false, present) == Serve(contentType, path)
    ensures DirName(path) == uploadDir
    ensures BaseName(path) == rows[token].filename
  {
    JoinIsDirectChild(uploadDir, rows[token].filename);
  }

  /** After a row is inserted, its token serves that row's file with its
      type while the file exists, and every other token answers as before. */
  lemma InsertThenRetrieve(rows: map<string, FileRow>, token: string, row: FileRow, present: set<string>, other: string)
    ensures row.path in present ==>
      Retrieve(rows[token := row], token, false, present) == Serve(ContentType(row.mime), row.path)
    ensures row.path !in present ==> Retrieve(rows[token := row], token, false, present) == Gone
    ensures other != token ==>
      Retrieve(rows[token := row], other, false, present) == Retrieve(rows, other, false, present)
  {
  }
}
