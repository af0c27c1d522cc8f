/**
 * How the client's requests and the server's responses fit together: the
 * header the client sends is exactly what the server's check accepts, and the
 * file name the server declares is the one the client saves under.
 */
module Interop {
  import opened Wrappers
  import opened Wire
  import PosixPath
  import opened Server
  import opened ClientText
  import opened ClientDownload

  /** Every client request passes the API check exactly when the configured key is the server's. */
  lemma ClientRequestsAuthorized(config: Config, serverKey: string, fileId: string)
    ensures ApiAuthorized(Some(UploadRequest(config).authorization), serverKey) <==> config.apiKey == serverKey
    ensures ApiAuthorized(Some(ListRequest(config).authorization), serverKey) <==> config.apiKey == serverKey
    ensures ApiAuthorized(Some(DownloadRequest(config, fileId).authorization), serverKey) <==> config.apiKey == serverKey
    ensures ApiAuthorized(Some(DeleteRequest(config, fileId).authorization), serverKey) <==> config.apiKey == serverKey
  {
    if BearerHeader(config.apiKey) == BearerHeader(serverKey) {
      BearerHeaderInjective(config.apiKey, serverKey);
    }
  }

  /** The server's header names `filename=` first at the end of its fixed prefix. */
  lemma DispositionKeyAt(filename: string)
    ensures IndexOf(Disposition(filename), FilenameKey) == Some(|DispositionPrefix| - |FilenameKey|)
  {
    var h := Disposition(filename);
    var at := |DispositionPrefix| - |FilenameKey|;
    assert h[at..at + |FilenameKey|] == FilenameKey;
    forall j | 0 <= j < at
      ensures !OccursAt(h, FilenameKey, j)
    {
      assert h[j] == DispositionPrefix[j] != 'f';
      assert h[j..j + |FilenameKey|][0] == h[j];
    }
    assert OccursAt(h, FilenameKey, at);
  }

  /**
   * A name without quotes at its ends and without `filename=` inside comes
   * back unchanged from the client's parse of the server's header.
   */
  lemma DispositionRoundTrip(filename: string)
    requires !Contains(filename, FilenameKey)
    requires filename == [] || (filename[0] !in QuoteChars && filename[|filename| - 1] !in QuoteChars)
    ensures ExtractFilename(Some(Disposition(filename))) == Some(filename)
  {
    var h := Disposition(filename);
    DispositionKeyAt(filename);
    assert h[|DispositionPrefix|..] == filename;
    StripUnchanged(filename, QuoteChars);
  }

  /**
   * Downloading into a directory saves the file under the name the server's
   * record carries, or under `download_<id>` when that name is empty.
   */
  lemma DownloadSavedUnderRecordName(directory: string, filename: string, fileId: string)
    requires !Contains(filename, FilenameKey)
    requires filename == [] || (filename[0] !in QuoteChars && filename[|filename| - 1] !in QuoteChars)
    ensures ResolvePath(directory, true, ExtractFilename(Some(Disposition(filename))), fileId)
            == PosixPath.Join(directory, if filename == [] then "download_" + fileId else filename)
  {
    DispositionRoundTrip(filename);
  }
}
