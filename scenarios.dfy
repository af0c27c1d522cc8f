/**
 * Request sequences against a fresh server, proved from the handlers'
 * contracts alone: what a client observes across upload, list, download and
 * delete.
 */
module Scenarios {
  import opened Wrappers
  import opened Wire
  import opened Registry
  import opened Server

  /**
   * Upload one file, list, download it, delete it, then list and download
   * again: the listing shows the upload's fields, the download returns the
   * uploaded bytes, and once deleted the id is gone from both.
   */
  method Lifecycle(apiKey: string, secureFilename: string -> string, uploadFolder: BlobStore,
                   part: FilePart, newId: Id, now: string)
    returns (uploaded: Response, listed: Response, downloaded: Response,
             deleted: Response, listedAfter: Response, downloadedAfter: Response)
    requires part.filename != ""
    ensures uploaded == Response(OK, JsonUploaded("File uploaded successfully", newId,
                                                  secureFilename(part.filename), |part.content|))
    ensures listed == Response(OK, JsonFiles([Entry(newId, secureFilename(part.filename), |part.content|, now)]))
    ensures downloaded == Response(OK, Attachment(part.content, Disposition(secureFilename(part.filename))))
    ensures deleted == Response(OK, JsonMessage("File deleted successfully"))
    ensures listedAfter == Response(OK, JsonFiles([]))
    ensures downloadedAfter == Response(NotFound, JsonError("File not found"))
  {
    var server := new FileServer(apiKey, secureFilename, uploadFolder);
    var auth := Some(BearerHeader(apiKey));
    var rec := server.UploadedRecord(part, newId, now);
    var path := UploadPath(newId);
    uploaded := server.ApiUpload(auth, Some(part), newId, now);
    assert server.files == [rec];
    assert server.blobs == uploadFolder[path := part.content];
    FirstWithIdAppended([], rec);
    assert Listing(server.files) == [EntryOf(rec)];
    listed := server.ApiListFiles(auth);
    downloaded := server.ApiDownloadFile(auth, newId, None);
    deleted := server.ApiDeleteFile(auth, newId, None);
    assert server.files == [];
    listedAfter := server.ApiListFiles(auth);
    downloadedAfter := server.ApiDownloadFile(auth, newId, None);
  }

  /**
   * On any registry, uploading under an id it does not hold and then
   * downloading that id returns exactly the uploaded bytes, named by the
   * sanitized filename, and the upload reports their count as the size.
   */
  method UploadThenDownload(server: FileServer, part: FilePart, newId: Id, now: string)
    returns (uploaded: Response, downloaded: Response)
    requires part.filename != ""
    requires IdFree(server.files, newId)
    modifies server
    ensures uploaded == Response(OK, JsonUploaded("File uploaded successfully", newId,
                                                  server.secureFilename(part.filename), |part.content|))
    ensures downloaded == Response(OK, Attachment(part.content, Disposition(server.secureFilename(part.filename))))
    ensures server.files == old(server.files) + [server.UploadedRecord(part, newId, now)]
  {
    var auth := Some(BearerHeader(server.apiKey));
    var rec := server.UploadedRecord(part, newId, now);
    FirstWithIdAppended(server.files, rec);
    uploaded := server.ApiUpload(auth, Some(part), newId, now);
    assert server.blobs[rec.path] == part.content;
    downloaded := server.ApiDownloadFile(auth, newId, None);
  }

  /**
   * Upload a file, download it, and upload the downloaded copy again: the
   * second upload has the same size and the same bytes under its own id.
   */
  method Reupload(apiKey: string, secureFilename: string -> string, uploadFolder: BlobStore,
                  part: FilePart, firstId: Id, secondId: Id, now: string)
    returns (first: Response, second: Response, firstCopy: Response, secondCopy: Response)
    requires part.filename != ""
    requires firstId != secondId
    ensures first.status == OK && second.status == OK
    ensures first.body.JsonUploaded? && second.body.JsonUploaded?
    ensures first.body.fileId == firstId && second.body.fileId == secondId
    ensures first.body.size == second.body.size == |part.content|
    ensures firstCopy.body.Attachment? && secondCopy.body.Attachment?
    ensures firstCopy.body.content == secondCopy.body.content == part.content
  {
    var server := new FileServer(apiKey, secureFilename, uploadFolder);
    first, firstCopy := UploadThenDownload(server, part, firstId, now);
    var copy := FilePart(part.filename, firstCopy.body.content);
    assert IdFree(server.files, secondId);
    second, secondCopy := UploadThenDownload(server, copy, secondId, now);
  }

  /** A request without the right credential changes neither the registry nor the blobs. */
  method DeniedRequestsChangeNothing(server: FileServer, authorization: Option<string>, apiKeyField: Option<string>,
                                     part: Option<FilePart>, fileId: Id, newId: Id, now: string,
                                     ioError: Option<string>)
    requires !ApiAuthorized(authorization, server.apiKey)
    requires apiKeyField != Some(server.apiKey)
    modifies server
    ensures server.files == old(server.files) && server.blobs == old(server.blobs)
  {
    var r1 := server.ApiUpload(authorization, part, newId, now);
    var r2 := server.WebUpload(apiKeyField, part, newId, now);
    var r3 := server.ApiDeleteFile(authorization, fileId, ioError);
    var r4 := server.WebDeleteFile(apiKeyField, fileId, ioError);
  }
}
