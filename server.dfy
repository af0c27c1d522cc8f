/**
 * The Flask server: one object holding the registry (`FILES`) and the upload
 * folder, with one method per route. Each method runs the route's checks in
 * the order the handler does and returns the status code and body.
 */
module Server {
  import opened Wrappers
  import opened Wire
  import opened Registry

  /** The `file` part of a multipart request: its client-declared name and bytes. */
  datatype FilePart = FilePart(filename: string, content: seq<byte>)

  datatype Body =
    | JsonError(error: string)
    | JsonUploaded(message: string, fileId: Id, filename: string, size: nat)
    | JsonFiles(files: seq<Entry>)
    | JsonMessage(message: string)
    | Text(text: string)
    | Attachment(content: seq<byte>, contentDisposition: string)
    | RedirectToIndex

  datatype Response = Response(status: nat, body: Body)

  const OK: nat := 200
  const Found: nat := 302
  const BadRequest: nat := 400
  const Forbidden: nat := 403
  const NotFound: nat := 404
  const InternalError: nat := 500

  /**
   * The API routes' check: a header that is absent or empty, or differs from
   * `Bearer <key>`, is refused.
   */
  function ApiAuthorized(authorization: Option<string>, apiKey: string): (ok: bool)
    ensures ok <==> authorization == Some(BearerHeader(apiKey))
  {
    authorization.Some? && authorization.value != "" && authorization.value == BearerHeader(apiKey)
  }

  /** The message of the `FileNotFoundError` that opening or removing a missing file raises. */
  function MissingFileMessage(path: string): (m: string)
    ensures |m| == |path| + 39
    ensures m[38..38 + |path|] == path
  {
    "[Errno 2] No such file or directory: '" + path + "'"
  }

  /**
   * The failure, if any, of opening or removing the blob at `path`: a missing
   * file, or else an I/O error the environment injects.
   */
  function OsFailure(path: string, blobs: BlobStore, ioError: Option<string>): (f: Option<string>)
    ensures path !in blobs ==> f.Some?
    ensures f.None? <==> path in blobs && ioError.None?
  {
    if path !in blobs then Some(MissingFileMessage(path)) else ioError
  }

  class FileServer {
    /** `API_KEY`, fixed for the life of the process. */
    const apiKey: string
    /** `werkzeug.utils.secure_filename`, taken as given. */
    const secureFilename: string -> string
    /** `FILES`, in insertion order. */
    var files: seq<Record>
    /** The upload folder. */
    var blobs: BlobStore

    /** A fresh process: an empty registry over whatever the upload folder already holds. */
    constructor (apiKey: string, secureFilename: string -> string, uploadFolder: BlobStore)
      ensures this.apiKey == apiKey && this.secureFilename == secureFilename
      ensures files == [] && blobs == uploadFolder
      ensures Consistent(files, blobs)
    {
      this.apiKey := apiKey;
      this.secureFilename := secureFilename;
      files := [];
      blobs := uploadFolder;
    }

    /** The record an accepted upload appends. */
    function UploadedRecord(part: FilePart, newId: Id, now: string): Record
    {
      Record(newId, secureFilename(part.filename), UploadPath(newId), |part.content|, now)
    }

    /** `get_file_info`: a search of the registry from the front. */
    method GetFileInfo(fileId: Id) returns (r: Option<Record>)
      ensures r == FirstWithId(files, fileId)
    {
      var i := 0;
      while i < |files|
        invariant 0 <= i <= |files|
        invariant FirstWithId(files[i..], fileId) == FirstWithId(files, fileId)
      {
        if files[i].id == fileId {
          return Some(files[i]);
        }
        assert files[i..][1..] == files[i + 1..];
        i := i + 1;
      }
      return None;
    }

    /**
     * The common tail of both upload routes: save the blob under the new id,
     * then append the record, its size taken from the stored blob.
     */
    method SaveAndRecord(part: FilePart, newId: Id, now: string) returns (rec: Record)
      modifies this
      ensures rec == UploadedRecord(part, newId, now)
      ensures blobs == old(blobs)[UploadPath(newId) := part.content]
      ensures files == old(files) + [rec]
      ensures old(Consistent(files, blobs)) && IdFree(old(files), newId) ==> Consistent(files, blobs)
    {
      var filename := secureFilename(part.filename);
      var path := UploadPath(newId);
      blobs := blobs[path := part.content];
      rec := Record(newId, filename, path, |blobs[path]|, now);
      if Consistent(files, old(blobs)) && IdFree(files, newId) {
        ConsistentAfterUpload(files, old(blobs), rec, part.content);
      }
      files := files + [rec];
    }

    /** `POST /api/upload`. */
    method ApiUpload(authorization: Option<string>, part: Option<FilePart>, newId: Id, now: string)
      returns (resp: Response)
      modifies this
      ensures !ApiAuthorized(authorization, apiKey) ==> resp == Response(Forbidden, JsonError("Unauthorized"))
      ensures ApiAuthorized(authorization, apiKey) && part.None? ==>
        resp == Response(BadRequest, JsonError("No file part in the request"))
      ensures ApiAuthorized(authorization, apiKey) && part.Some? && part.value.filename == "" ==>
        resp == Response(BadRequest, JsonError("No file selected"))
      ensures resp.status != OK ==> files == old(files) && blobs == old(blobs)
      ensures ApiAuthorized(authorization, apiKey) && part.Some? && part.value.filename != "" ==>
        && files == old(files) + [UploadedRecord(part.value, newId, now)]
        && blobs == old(blobs)[UploadPath(newId) := part.value.content]
        && resp == Response(OK, JsonUploaded("File uploaded successfully", newId,
                                             secureFilename(part.value.filename), |part.value.content|))
      ensures old(Consistent(files, blobs)) && IdFree(old(files), newId) ==> Consistent(files, blobs)
    {
      if !ApiAuthorized(authorization, apiKey) {
        return Response(Forbidden, JsonError("Unauthorized"));
      }
      if part.None? {
        return Response(BadRequest, JsonError("No file part in the request"));
      }
      if part.value.filename == "" {
        return Response(BadRequest, JsonError("No file selected"));
      }
      var rec := SaveAndRecord(part.value, newId, now);
      resp := Response(OK, JsonUploaded("File uploaded successfully", newId, rec.filename, rec.sizeBytes));
    }

    /** `POST /upload-web`, authorized by the `api_key` form field. */
    method WebUpload(apiKeyField: Option<string>, part: Option<FilePart>, newId: Id, now: string)
      returns (resp: Response)
      modifies this
      ensures apiKeyField != Some(apiKey) ==> resp == Response(Forbidden, Text("Unauthorized"))
      ensures apiKeyField == Some(apiKey) && part.None? ==>
        resp == Response(BadRequest, Text("No file part in the request"))
      ensures apiKeyField == Some(apiKey) && part.Some? && part.value.filename == "" ==>
        resp == Response(BadRequest, Text("No file selected"))
      ensures resp.status != Found ==> files == old(files) && blobs == old(blobs)
      ensures apiKeyField == Some(apiKey) && part.Some? && part.value.filename != "" ==>
        && files == old(files) + [UploadedRecord(part.value, newId, now)]
        && blobs == old(blobs)[UploadPath(newId) := part.value.content]
        && resp == Response(Found, RedirectToIndex)
      ensures old(Consistent(files, blobs)) && IdFree(old(files), newId) ==> Consistent(files, blobs)
    {
      if apiKeyField != Some(apiKey) {
        return Response(Forbidden, Text("Unauthorized"));
      }
      if part.None? {
        return Response(BadRequest, Text("No file part in the request"));
      }
      if part.value.filename == "" {
        return Response(BadRequest, Text("No file selected"));
      }
      var _ := SaveAndRecord(part.value, newId, now);
      resp := Response(Found, RedirectToIndex);
    }

    /** `GET /api/files`: no blob is touched. */
    method ApiListFiles(authorization: Option<string>) returns (resp: Response)
      ensures !ApiAuthorized(authorization, apiKey) ==> resp == Response(Forbidden, JsonError("Unauthorized"))
      ensures ApiAuthorized(authorization, apiKey) ==> resp == Response(OK, JsonFiles(Listing(files)))
    {
      if !ApiAuthorized(authorization, apiKey) {
        return Response(Forbidden, JsonError("Unauthorized"));
      }
      resp := Response(OK, JsonFiles(Listing(files)));
    }

    /** `GET /api/download/<file_id>`: the whole blob, named by the record's filename. */
    method ApiDownloadFile(authorization: Option<string>, fileId: Id, ioError: Option<string>)
      returns (resp: Response)
      ensures !ApiAuthorized(authorization, apiKey) ==> resp == Response(Forbidden, JsonError("Unauthorized"))
      ensures ApiAuthorized(authorization, apiKey) && IdFree(files, fileId) ==>
        resp == Response(NotFound, JsonError("File not found"))
      ensures ApiAuthorized(authorization, apiKey) && FirstWithId(files, fileId).Some? ==>
        var rec := FirstWithId(files, fileId).value;
        var failure := OsFailure(rec.path, blobs, ioError);
        resp == if failure.None?
                then Response(OK, Attachment(blobs[rec.path], Disposition(rec.filename)))
                else Response(InternalError, JsonError("Error downloading file: " + failure.value))
      ensures Consistent(files, blobs) && ioError.None? ==> resp.status != InternalError
    {
      if !ApiAuthorized(authorization, apiKey) {
        return Response(Forbidden, JsonError("Unauthorized"));
      }
      var info := GetFileInfo(fileId);
      if info.None? {
        return Response(NotFound, JsonError("File not found"));
      }
      var rec := info.value;
      var failure := OsFailure(rec.path, blobs, ioError);
      if failure.Some? {
        StoredWhenConsistent(rec);
        return Response(InternalError, JsonError("Error downloading file: " + failure.value));
      }
      resp := Response(OK, Attachment(blobs[rec.path], Disposition(rec.filename)));
    }

    /** `GET /download/<file_id>`, authorized by the `api_key` query parameter. */
    method WebDownloadFile(apiKeyParam: Option<string>, fileId: Id, ioError: Option<string>)
      returns (resp: Response)
      ensures apiKeyParam != Some(apiKey) ==> resp == Response(Forbidden, Text("Unauthorized"))
      ensures apiKeyParam == Some(apiKey) && IdFree(files, fileId) ==>
        resp == Response(NotFound, Text("File not found"))
      ensures apiKeyParam == Some(apiKey) && FirstWithId(files, fileId).Some? ==>
        var rec := FirstWithId(files, fileId).value;
        var failure := OsFailure(rec.path, blobs, ioError);
        resp == if failure.None?
                then Response(OK, Attachment(blobs[rec.path], Disposition(rec.filename)))
                else Response(InternalError, Text("Error downloading file: " + failure.value))
      ensures Consistent(files, blobs) && ioError.None? ==> resp.status != InternalError
    {
      if apiKeyParam != Some(apiKey) {
        return Response(Forbidden, Text("Unauthorized"));
      }
      var info := GetFileInfo(fileId);
      if info.None? {
        return Response(NotFound, Text("File not found"));
      }
      var rec := info.value;
      var failure := OsFailure(rec.path, blobs, ioError);
      if failure.Some? {
        StoredWhenConsistent(rec);
        return Response(InternalError, Text("Error downloading file: " + failure.value));
      }
      resp := Response(OK, Attachment(blobs[rec.path], Disposition(rec.filename)));
    }

    /** A record of a consistent registry has its blob. */
    lemma StoredWhenConsistent(rec: Record)
      requires rec in files
      ensures Consistent(files, blobs) ==> Stored(rec, blobs)
    {
    }

    /**
     * The common tail of both delete routes: remove the blob, then drop every
     * record with the id; if the removal fails, nothing changes.
     */
    method RemoveAndFilter(rec: Record, ioError: Option<string>) returns (failure: Option<string>)
      requires rec in files
      modifies this
      ensures failure == old(OsFailure(rec.path, blobs, ioError))
      ensures failure.Some? ==> files == old(files) && blobs == old(blobs)
      ensures failure.None? ==> blobs == old(blobs) - {rec.path} && files == WithoutId(old(files), rec.id)
      ensures old(Consistent(files, blobs)) ==> Consistent(files, blobs)
    {
      failure := OsFailure(rec.path, blobs, ioError);
      if failure.Some? {
        return;
      }
      if Consistent(files, blobs) {
        StoredWhenConsistent(rec);
        ConsistentAfterDelete(files, blobs, rec.id);
      }
      blobs := blobs - {rec.path};
      files := WithoutId(files, rec.id);
    }

    /** `DELETE /api/files/<file_id>`. */
    method ApiDeleteFile(authorization: Option<string>, fileId: Id, ioError: Option<string>)
      returns (resp: Response)
      modifies this
      ensures !ApiAuthorized(authorization, apiKey) ==> resp == Response(Forbidden, JsonError("Unauthorized"))
      ensures ApiAuthorized(authorization, apiKey) && IdFree(old(files), fileId) ==>
        resp == Response(NotFound, JsonError("File not found"))
      ensures resp.status != OK ==> files == old(files) && blobs == old(blobs)
      ensures ApiAuthorized(authorization, apiKey) && FirstWithId(old(files), fileId).Some? ==>
        var rec := FirstWithId(old(files), fileId).value;
        var failure := old(OsFailure(rec.path, blobs, ioError));
        if failure.None? then
          && resp == Response(OK, JsonMessage("File deleted successfully"))
          && blobs == old(blobs) - {rec.path}
          && files == WithoutId(old(files), fileId)
        else
          resp == Response(InternalError, JsonError("Error deleting file: " + failure.value))
      ensures old(Consistent(files, blobs)) ==> Consistent(files, blobs)
    {
      if !ApiAuthorized(authorization, apiKey) {
        return Response(Forbidden, JsonError("Unauthorized"));
      }
      var info := GetFileInfo(fileId);
      if info.None? {
        return Response(NotFound, JsonError("File not found"));
      }
      var failure := RemoveAndFilter(info.value, ioError);
      if failure.Some? {
        return Response(InternalError, JsonError("Error deleting file: " + failure.value));
      }
      resp := Response(OK, JsonMessage("File deleted successfully"));
    }

    /** `GET /delete/<file_id>`, authorized by the `api_key` query parameter. */
    method WebDeleteFile(apiKeyParam: Option<string>, fileId: Id, ioError: Option<string>)
      returns (resp: Response)
      modifies this
      ensures apiKeyParam != Some(apiKey) ==> resp == Response(Forbidden, Text("Unauthorized"))
      ensures apiKeyParam == Some(apiKey) && IdFree(old(files), fileId) ==>
        resp == Response(NotFound, Text("File not found"))
      ensures resp.status != Found ==> files == old(files) && blobs == old(blobs)
      ensures apiKeyParam == Some(apiKey) && FirstWithId(old(files), fileId).Some? ==>
        var rec := FirstWithId(old(files), fileId).value;
        var failure := old(OsFailure(rec.path, blobs, ioError));
        if failure.None? then
          && resp == Response(Found, RedirectToIndex)
          && blobs == old(blobs) - {rec.path}
          && files == WithoutId(old(files), fileId)
        else
          resp == Response(InternalError, Text("Error deleting file: " + failure.value))
      ensures old(Consistent(files, blobs)) ==> Consistent(files, blobs)
    {
      if apiKeyParam != Some(apiKey) {
        return Response(Forbidden, Text("Unauthorized"));
      }
      var info := GetFileInfo(fileId);
      if info.None? {
        return Response(NotFound, Text("File not found"));
      }
      var failure := RemoveAndFilter(info.value, ioError);
      if failure.Some? {
        return Response(InternalError, Text("Error deleting file: " + failure.value));
      }
      resp := Response(Found, RedirectToIndex);
    }
  }
}
