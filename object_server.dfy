/**
 * api/index.js: the object-store variant. multer-s3 uploads the file to the
 * bucket under its storage name (the object key), the handler saves a
 * `File` document under a fresh token, and `GET /file/:token` redirects to
 * a signed `getObject` URL for the recorded key. Signing is the S3 client's
 * business: here it is a function the caller supplies.
 */
module ObjectServer {
  import opened Wrappers
  import opened Naming
  import opened Uploads
  import Catalog

  /** A `File` document: the fields the handlers write and read. */
  datatype FileDoc = FileDoc(originalName: string, filename: string, mime: string, size: nat, s3Key: string)

  /** `Expires: 3600`: signed links are valid for one hour. */
  const SignedUrlExpiry: nat := 3600

  /** The request handed to `s3.getSignedUrl('getObject', ...)`. */
  datatype SignRequest = GetObject(bucket: string, key: string, expires: nat)

  /** The document saved for a file received at `now`: multer-s3's key, the
      timestamped sanitised client name, is stored both as `filename` and as
      `s3Key`. */
  function NewDoc(file: FilePart, now: nat): (doc: FileDoc)
    ensures doc.originalName == file.originalName && doc.mime == file.mimeType && doc.size == file.size
    ensures doc.filename == doc.s3Key && doc.s3Key == StoredName(now, file.originalName)
    ensures IsPathComponent(doc.s3Key) && AllAllowed(doc.s3Key)
    ensures |doc.s3Key| > |file.originalName|
    ensures SplitStoredName(doc.s3Key) == Some((now, Sanitize(file.originalName)))
  {
    var key := StoredName(now, file.originalName);
    StoredNameShape(now, file.originalName);
    StoredNameRoundTrip(now, file.originalName);
    FileDoc(file.originalName, key, file.mimeType, file.size, key)
  }

  /** Every document is one the upload handler can save: a token without
      `-`, and one key, a single path component, in both key fields. */
  predicate Consistent(docs: map<string, FileDoc>) {
    forall token :: token in docs ==>
      && '-' !in token
      && docs[token].filename == docs[token].s3Key
      && IsPathComponent(docs[token].s3Key)
  }

  /** `POST /upload`. A multer error (the size limit included) is passed on
      to Express's default handler, which answers with the error's own
      status when it carries one and 500 otherwise; a missing file gives
      400 `No file`; otherwise one document is saved under
      `uuid.split('-')[0]` and the reply is the link, or 500 `DB error` when
      the save fails (a duplicate token or an engine fault) and the
      collection is left as it was. */
  method Upload(files: Catalog.Table<FileDoc>, req: Request, now: nat, uuid: string, saveFault: bool)
    returns (reply: UploadReply)
    modifies files
    ensures match Receive(req)
      case Failed(fault) =>
        reply == Unhandled(DefaultHandlerStatus(fault), fault.message) && files.rows == old(files.rows)
      case NoFile => reply == Rejected(400, "No file") && files.rows == old(files.rows)
      case Received(file) =>
        var token := HeadField(uuid);
        if !saveFault && token !in old(files.rows) then
          && reply == Linked(Link(token))
          && files.rows == old(files.rows)[token := NewDoc(file, now)]
        else
          reply == Rejected(500, "DB error") && files.rows == old(files.rows)
    ensures reply.Linked? <==> |files.rows| == |old(files.rows)| + 1
    ensures UploadStatus(reply) == 200 <==> reply.Linked?
    ensures 200 <= UploadStatus(reply) < 600
    ensures Consistent(old(files.rows)) ==> Consistent(files.rows)
  {
    match Receive(req)
    case Failed(fault) =>
      reply := Unhandled(DefaultHandlerStatus(fault), fault.message);
    case NoFile =>
      reply := Rejected(400, "No file");
    case Received(file) =>
      var token := HeadField(uuid);
      var doc := NewDoc(file, now);
      var ok := files.Insert(token, doc, saveFault);
      if ok {
        reply := Linked(Link(token));
      } else {
        reply := Rejected(500, "DB error");
      }
  }

  /** The outcome of `GET /file/:token`: there is no 410 in this variant. */
  datatype FileReply = ServerError | NotFound | Redirect(url: string)

  function FileStatus(reply: FileReply): nat {
    match reply
    case ServerError => 500
    case NotFound => 404
    case Redirect(_) => 302
  }

  /** `GET /file/:token` against the collection's documents, with
      `lookupFault` a failed query or signing call and `sign` the S3
      client's URL signer. A known token redirects to a URL signed for
      exactly its document's key, in `bucket`, for one hour. */
  function Retrieve(docs: map<string, FileDoc>, token: string, lookupFault: bool, bucket: string,
                    sign: SignRequest -> string): (r: FileReply)
    ensures r == ServerError <==> lookupFault
    ensures r == NotFound <==> !lookupFault && token !in docs
    ensures r.Redirect? <==> !lookupFault && token in docs
    ensures r.Redirect? ==> r.url == sign(GetObject(bucket, docs[token].s3Key, SignedUrlExpiry))
    ensures FileStatus(r) in {302, 404, 500}
  {
    if lookupFault then ServerError
    else if token !in docs then NotFound
    else Redirect(sign(GetObject(bucket, docs[token].s3Key, SignedUrlExpiry)))
  }

  /** After a document is saved, its token redirects to a URL signed for the
      key that was uploaded, and every other token answers as before. */
  lemma SaveThenRetrieve(docs: map<string, FileDoc>, token: string, file: FilePart, now: nat,
                         bucket: string, sign: SignRequest -> string, other: string)
    ensures Retrieve(docs[token := NewDoc(file, now)], token, false, bucket, sign)
         == Redirect(sign(GetObject(bucket, StoredName(now, file.originalName), SignedUrlExpiry)))
    ensures other != token ==>
      Retrieve(docs[token := NewDoc(file, now)], other, false, bucket, sign)
        == Retrieve(docs, other, false, bucket, sign)
  {
  }
}
