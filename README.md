# File-sharing service: verified model of its naming, upload and retrieval logic

The service accepts one uploaded file per `POST /upload`, stores it, records
it in a catalog under a short token and answers with the link
`/file/<token>`; `GET /file/:token` resolves the token again. It comes in two
variants with the same shape:

- `server.js` stores files on local disk under `uploads/` and records them in
  a sqlite table `files` whose `token` column is `UNIQUE`; retrieval answers
  404 for an unknown token, 410 when the recorded file has disappeared from
  disk, and otherwise serves the file, passing its recorded MIME type to
  `res.type`.
- `api/index.js` stores files in an S3 bucket and records them through the
  mongoose model `File` (collection `files`), whose `token` field is unique; retrieval answers 404 for
  an unknown token and otherwise redirects to a signed `getObject` URL for
  the recorded key, valid for 3600 seconds.

Both build the storage name (disk file name or object key) as
`Date.now() + '-' + originalname.replace(/[^a-zA-Z0-9.\-\_]/g, '_')`, cut the
token as `uuidv4().split('-')[0]`, and refuse files over 200 MiB through
multer's `fileSize` limit.

Files:

- `wrappers.dfy` — `Option`.
- `decimal.dfy` (module `Decimals`) — the decimal text of a millisecond
  timestamp and its parse-back.
- `naming.dfy` (module `Naming`) — the sanitiser, the storage name, joining a
  name to the upload directory, `split('-')[0]`, UUID text, the link and the
  `/file/:token` route.
- `uploads.dfy` (module `Uploads`) — multer's verdict on a request (error, no
  file, or a file within the limit) and the upload reply.
- `catalog.dfy` (module `Catalog`) — class `Table<Row>`: a map from token to
  row, with an insert that fails on a token already present.
- `local_server.dfy` (module `LocalServer`) — the handlers of `server.js`.
- `object_server.dfy` (module `ObjectServer`) — the handlers of `api/index.js`.

The clock (`now`), the UUID text (`uuid`), file presence on disk (`present`),
the S3 bucket and signer (`bucket`, `sign`) and database faults (`dbFault`,
`saveFault`, `lookupFault`) are parameters.

Behaviour of the code worth knowing before reading the model:

- The sanitiser replaces each disallowed character with `_`; it removes nothing.
- A token already in the catalog makes the upload fail with 500 `DB error`,
  and nothing retries with a fresh token.
- In `api/index.js` a multer error, the size limit included, is passed to
  Express's default error handler. That handler answers with the error's own
  `status` or `statusCode` when it is between 400 and 599 (as an S3 client
  error may carry), and with 500 otherwise (multer's own errors).
- `api/index.js` never checks that the object still exists, so its retrieval
  has no 410 outcome.
- The storage name is not unique. Two uploads in the same millisecond whose
  client names sanitise alike (the same name twice, or `a b.txt` and
  `a?b.txt`) get the same disk file name or object key; the later write
  overwrites the earlier, and both rows then name the later file.
- Multer skips a file part whose file name is empty, so such a request gets
  400 `No file`.

## Model

| member | source | states |
|---|---|---|
| `Naming.Sanitize` | server.js:29 | the result has the input's length; each character in `[A-Za-z0-9._-]` stays in place and every other becomes `_`; so every character of the result is allowed |
| `Naming.SanitizeFixes` | server.js:29 | a name is unchanged by sanitising if and only if all its characters are allowed |
| `Naming.SanitizeIdempotent` | server.js:29 | sanitising an already sanitised name returns it unchanged |
| `Decimals.Decimal` | server.js:29 | the timestamp's text is non-empty, all decimal digits, and starts with `0` only for the number 0 |
| `Decimals.DecimalRoundTrip` | server.js:29 | reading the timestamp's text back as a number gives the timestamp |
| `Naming.StoredNameShape` | server.js:27-30 | the storage name uses only allowed characters, so sanitising it changes nothing; it is a single path component (no `/`, no `\`, never `.` or `..`, never empty); its length is the timestamp's plus one plus the client name's |
| `Naming.StoredName` | server.js:29 | the storage name `Date.now() + '-' + sanitised` uses only allowed characters, is a single path component, and is one character longer than the timestamp and the client name together |
| `Naming.StoredNameEq` | server.js:29 | two storage names are equal if and only if their timestamps are equal and the client names sanitise to the same text |
| `Naming.DistinctNamesCollide` | server.js:29 | the different names `a b.txt` and `a?b.txt`, stored at the same millisecond, get the same storage name |
| `Naming.StoredNameRoundTrip` | server.js:29 | the storage name is the decimal timestamp, a `-`, and the sanitised client name: splitting at the first `-` gives back exactly the timestamp and the sanitised name |
| `Naming.JoinIsDirectChild` | server.js:23-30 | joining a single path component to the upload directory names a direct child: its base name is the component and its directory is the upload directory |
| `Naming.HeadField` | server.js:61 | `s.split('-')[0]`: the result is a prefix of `s` with no `-`, and either it is all of `s` or the next character of `s` is `-` |
| `Naming.HeadFieldBeforeDash` | server.js:61 | for any text without `-` followed by `-`, the first field is exactly that text |
| `Naming.UuidToken` | server.js:61 | for a canonical UUID text, the token is its first 8 characters, all hex digits |
| `Naming.Link` | server.js:68 | the link is the prefix `/file/` followed by exactly the token |
| `Naming.RouteToken` | server.js:74-75 | a path not starting with `/file/` (in any letter case) binds no token; a bound token is a non-empty segment without `/`, and what follows the prefix is that token, possibly with one trailing `/` |
| `Naming.LinkRoutes` | server.js:68-75 | the link `/file/` + token resolves on the `/file/:token` route to that token when the token is a non-empty segment; a path resolving to a token is that token's link, up to the letter case of the `/file/` prefix (Express matches routes ignoring case) and one trailing `/` |
| `Naming.UuidLinkResolves` | server.js:61-75 | the link returned for a fresh UUID resolves back to the same token |
| `Uploads.Receive` | server.js:34 | a multer fault is reported as such; a file over 200*1024*1024 bytes fails with `File too large`; a request without a file part, or whose file part has an empty file name, gives "no file"; a file is received if and only if there is no fault, a file part with a non-empty name, and its size is within the limit |
| `Uploads.DefaultHandlerStatus` | api/index.js:59 | an error passed on by the upload middleware gets an error status (400-599): its own `status` if that is one, else its own `statusCode` if that is one, else 500; any status other than 500 is one the error carried |
| `Catalog.Table.constructor` | server.js:38-49 | a new table holds no rows |
| `Catalog.Table.Insert` | server.js:62-67 | the insert succeeds if and only if there is no engine fault and the token is not present; on success the table gains exactly that one row and is otherwise unchanged; on failure it is unchanged |
| `LocalServer.NewRow` | server.js:62-63 | the row keeps the client's name, MIME type and size; its `filename` is the storage name of the client's name at that time, a single path component made of allowed characters that splits into the timestamp and the sanitised name; its `path` is that name joined to the upload directory, a direct child of it |
| `LocalServer.Upload` | server.js:52-72 | a multer error gives 400 with its message (or `Upload error`) and a missing file 400 `No file`, both leaving the table unchanged; otherwise the token is `uuid.split('-')[0]` and either the one new row is inserted under it and the reply is the link `/file/<token>`, or, on a duplicate token or engine fault, 500 `DB error` with the table unchanged; a row is added exactly when the reply is the link, which is exactly when the status is 200, and every status is 200, 400 or 500; the table's consistency (tokens without `-`, paths inside the upload directory) is preserved |
| `LocalServer.ContentType` | server.js:81 | the type passed to `res.type` is the recorded MIME type when that is non-empty and `application/octet-stream` when it is empty, so it is never empty |
| `LocalServer.Retrieve` | server.js:74-84 | in order: a query error gives 500, an unknown token 404, a known token whose file is absent 410, and otherwise the file at the recorded path is served, with the type passed to `res.type` given by `LocalServer.ContentType`; each outcome holds if and only if its condition does; the status is 200, 404, 410 or 500 |
| `LocalServer.ServedInsideUploadDir` | server.js:79-82 | in a table every row of which the upload handler could have written, a served file's path is a direct child of the upload directory whose base name is the row's disk name |
| `LocalServer.InsertThenRetrieve` | server.js:62-82 | after a row is inserted, its token serves that file with its type while the file exists and gives 410 once it is gone; every other token answers as before |
| `ObjectServer.NewDoc` | api/index.js:63-70 | the document keeps the client's name, MIME type and size and stores the same key, the storage name of the client's name at that time, as `filename` and `s3Key`; the key is a single path component of allowed characters, longer than the client's name, that splits into the timestamp and the sanitised name |
| `ObjectServer.Upload` | api/index.js:59-78 | a multer error goes to Express's default handler, which answers with the status it picks (the error's own error status, else 500), and a missing file gives 400 `No file`, both leaving the collection unchanged; otherwise the token is `uuid.split('-')[0]` and either the one new document is saved under it and the reply is the link `/file/<token>`, or, on a duplicate token or engine fault, 500 `DB error` with the collection unchanged; the status is 200 exactly when the reply is the link; the collection's consistency is preserved |
| `ObjectServer.Retrieve` | api/index.js:80-98 | a query or signing error gives 500, an unknown token 404, and a known token a redirect to the URL signed for `getObject` on exactly the document's `s3Key` in the bucket with expiry 3600; there is no 410: the status is 302, 404 or 500 |
| `ObjectServer.SaveThenRetrieve` | api/index.js:63-93 | after a document is saved, its token redirects to the URL signed for the key that was uploaded; every other token answers as before |

## Left out

- Express application setup, helmet, CORS, the rate limiter, static serving,
  `app.listen`, the generic error middleware of `server.js` and the markup of
  Express's default error page: framework plumbing. Only the status the
  default handler picks is modelled; the message `Unhandled` keeps is the
  error's own, not the body that handler sends.
- Multipart parsing and streaming, and multer's removal of a partly written
  file after an error: the model takes multer's result as input. When a
  multipart fault and an oversized file occur in one request, the model
  reports the fault; which one multer meets first depends on the stream.
- Overwriting stored bytes: file contents are not modelled, so when two
  uploads share a storage name (see `Naming.StoredNameEq`), nothing records
  that the earlier token now serves, or redirects to, the later upload's
  bytes. `LocalServer.InsertThenRetrieve` and
  `ObjectServer.SaveThenRetrieve` speak of the path and key, not of the
  bytes behind them.
- Engine behaviour of sqlite and mongoose: the `id` and `created_at`
  columns (assigned by the engine, never read by the handlers), connections
  and callbacks. Query and insert failures other than the unique constraint
  are boolean parameters. Mongoose builds its unique index in the
  background; duplicates saved before it exists are not modelled.
- The S3 client: uploads to the bucket are part of multer's result, and URL
  signing is a function parameter of the bucket, key and expiry. Whether the
  object still exists is never checked by the code, so it is not modelled.
- `uuidv4()` and `Date.now()` are inputs; collision probabilities are not
  modelled.
- The file system: presence is a set of paths. Paths are POSIX paths:
  `JoinPath`, `BaseName` and `DirName` use `/` only, where `path.join` on
  Windows uses `\`. `path.resolve` is taken as the identity on the absolute
  path multer recorded, and `JoinPath` assumes an upload directory that is
  normalised and has no trailing separator.
  Writing and streaming the file bytes (`sendFile`) is not modelled.
- LocalServer.ContentType: states the value passed to `res.type`, not the
  `Content-Type` header Express then sends. `res.type` appends
  `; charset=utf-8` to `text/*`, `application/json` and
  `application/javascript` types, and it treats a value without `/` as a
  file extension and looks it up (`png` gives `image/png`, an unknown one
  `application/octet-stream`); neither step is modelled.
- Characters: JavaScript's `replace` works on UTF-16 code units, while a
  Dafny `char` is a Unicode scalar value. A character outside the Basic
  Multilingual Plane therefore becomes `__` in the service and `_` in the
  model, and a lone surrogate, which JavaScript strings can hold, cannot be
  represented.
- `Decimals.Decimal`: timestamps from 10^21 ms up, which JavaScript would
  print in exponent form, are rendered as plain digits.
- `Naming.RouteToken`: Express's percent-decoding of the parameter is not
  modelled (letter case of the prefix and a trailing `/` are).
- `public/script.js`: browser UI code, no service logic.
