/**
 * The client's requests and its download: every request carries the bearer
 * header built from the configured key, and a successful download writes the
 * response's non-empty chunks, in order, to the resolved destination.
 */
module ClientDownload {
  import opened Wrappers
  import opened Wire
  import opened Seqs
  import opened ClientText

  /** The saved configuration. */
  datatype Config = Config(serverUrl: string, apiKey: string)

  /** The configuration written on first use, from the two answers typed in. */
  function FirstTimeConfig(serverUrlAnswer: string, apiKeyAnswer: string): (c: Config)
    ensures c.apiKey == apiKeyAnswer
    ensures c.serverUrl == [] || c.serverUrl[|c.serverUrl| - 1] != '/'
  {
    Config(NormalizeServerUrl(serverUrlAnswer), apiKeyAnswer)
  }

  /** The saved URL is the typed one without the run of `/` that ends it. */
  lemma FirstTimeConfigUrl(serverUrlAnswer: string, apiKeyAnswer: string)
    ensures var url := FirstTimeConfig(serverUrlAnswer, apiKeyAnswer).serverUrl;
      && |url| <= |serverUrlAnswer| && url + serverUrlAnswer[|url|..] == serverUrlAnswer
      && forall k | |url| <= k < |serverUrlAnswer| :: serverUrlAnswer[k] == '/'
  {
    var url := NormalizeServerUrl(serverUrlAnswer);
    assert url + serverUrlAnswer[|url|..] == serverUrlAnswer;
  }

  datatype Verb = HttpGet | HttpPost | HttpDelete

  datatype Request = Request(verb: Verb, url: string, authorization: string)

  function UploadRequest(config: Config): (r: Request)
    ensures r.verb == HttpPost && r.authorization == BearerHeader(config.apiKey)
    ensures |config.serverUrl| < |r.url| && r.url[..|config.serverUrl|] == config.serverUrl
    ensures r.url[|config.serverUrl|..] == "/api/upload"
  {
    Request(HttpPost, config.serverUrl + "/api/upload", BearerHeader(config.apiKey))
  }

  function ListRequest(config: Config): (r: Request)
    ensures r.verb == HttpGet && r.authorization == BearerHeader(config.apiKey)
    ensures |config.serverUrl| < |r.url| && r.url[..|config.serverUrl|] == config.serverUrl
    ensures r.url[|config.serverUrl|..] == "/api/files"
  {
    Request(HttpGet, config.serverUrl + "/api/files", BearerHeader(config.apiKey))
  }

  function DownloadRequest(config: Config, fileId: string): (r: Request)
    ensures r.verb == HttpGet && r.authorization == BearerHeader(config.apiKey)
    ensures |config.serverUrl| < |r.url| && r.url[..|config.serverUrl|] == config.serverUrl
    ensures r.url[|config.serverUrl|..] == "/api/download/" + fileId
  {
    Request(HttpGet, config.serverUrl + "/api/download/" + fileId, BearerHeader(config.apiKey))
  }

  function DeleteRequest(config: Config, fileId: string): (r: Request)
    ensures r.verb == HttpDelete && r.authorization == BearerHeader(config.apiKey)
    ensures |config.serverUrl| < |r.url| && r.url[..|config.serverUrl|] == config.serverUrl
    ensures r.url[|config.serverUrl|..] == "/api/files/" + fileId
  {
    Request(HttpDelete, config.serverUrl + "/api/files/" + fileId, BearerHeader(config.apiKey))
  }

  /** The parts of a download response the client reads. */
  datatype HttpResponse = HttpResponse(status: nat, contentDisposition: Option<string>, text: string,
                                       chunks: seq<seq<byte>>)

  datatype DownloadResult =
    | Saved(path: string, content: seq<byte>, downloaded: nat)
    | Reported(message: string)

  /**
   * `download_file` after the request: on status 200, the destination is
   * resolved from the declared name and every non-empty chunk is written in
   * order while `downloaded` counts its bytes; any other status is reported.
   */
  method DownloadFile(fileId: string, outputPath: string, isDirectory: bool, response: HttpResponse)
    returns (result: DownloadResult)
    ensures response.status != 200 ==> result == Reported(response.text)
    ensures response.status == 200 ==>
      && result.Saved?
      && result.path == ResolvePath(outputPath, isDirectory, ExtractFilename(response.contentDisposition), fileId)
      && result.content == Concat(NonEmpty(response.chunks)) == Concat(response.chunks)
      && result.downloaded == TotalLength(response.chunks) == |result.content|
  {
    if response.status != 200 {
      return Reported(response.text);
    }
    var filename := ExtractFilename(response.contentDisposition);
    var path := ResolvePath(outputPath, isDirectory, filename, fileId);
    var chunks := response.chunks;
    var written: seq<byte> := [];
    var downloaded: nat := 0;
    var i := 0;
    while i < |chunks|
      invariant 0 <= i <= |chunks|
      invariant written == Concat(NonEmpty(chunks[..i]))
      invariant downloaded == |written|
    {
      var chunk := chunks[i];
      assert chunks[..i + 1] == chunks[..i] + [chunk];
      Snoc(chunks[..i], chunk);
      if chunk != [] {
        written := written + chunk;
        downloaded := downloaded + |chunk|;
      }
      i := i + 1;
    }
    assert chunks[..i] == chunks;
    ConcatNonEmpty(chunks);
    ConcatLength(chunks);
    result := Saved(path, written, downloaded);
  }
}
