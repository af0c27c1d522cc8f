# File transfer service: registry, handlers and client logic in Dafny

This project models the core of a small file-transfer service. A Flask server
keeps an in-memory, insertion-ordered registry of file records (`FILES`) and
stores each upload's bytes in an `uploads/` folder under a server-generated
id. Its routes upload, list, download and delete files. Every upload, list,
download and delete route is gated by one shared API key: the JSON API checks
an `Authorization: Bearer <key>` header, and the web routes check an `api_key`
form field or query parameter. The index page `/` is not gated, and it shows
the key.
A companion command-line client parses download responses, resolves where to
save them, writes the streamed chunks, normalises the configured server URL,
and dispatches typed or command-line commands.

The model is organised by component:

- `wire.dfy` (`Wire`): bytes, the bearer header, the Content-Disposition header.
- `posix_path.dfy` (`PosixPath`): two-argument `os.path.join`.
- `registry.dfy` (`Registry`): records, lookup, the delete filter, the listing.
  It also holds the invariant tying the registry to the blob store: ids are
  unique, and every record has its blob at `uploads/<id>` with the recorded
  size.
- `server.dfy` (`Server`): class `FileServer`, with a `seq<Record>` registry
  field, a `map` from path to bytes for the upload folder, the key as a
  constant, and one method per route.
- `scenarios.dfy` (`Scenarios`): sequences of requests proved from the
  handlers' contracts.
- `size_format.dfy` (`SizeFormat`): the unit choice of `format_size`.
- `client_text.dfy` (`ClientText`): header parsing, destination path, URL
  normalisation.
- `seqs.dfy` (`Seqs`): concatenation helpers.
- `client_download.dfy` (`ClientDownload`): the requests and the download
  loop.
- `client_commands.dfy` (`ClientCommands`): tokenising, dispatch, and the
  shell loop.
- `interop.dfy` (`Interop`): client/server agreement.

Inputs from the environment are parameters:

- the id `uuid4` would generate;
- the timestamp string;
- the sanitizer `secure_filename`, as a function fixed at construction;
- the initial contents of the upload folder;
- an optional injected I/O error for opening or removing a blob;
- whether the client's output path is a directory;
- the client's HTTP response (status, Content-Disposition header, text,
  chunks);
- the answers to the configuration prompt.

## Model

| member | source | states |
|---|---|---|
| `Server.ApiAuthorized` | app.py:214-216 | The API check accepts a request exactly when the Authorization header is present and equals `"Bearer " + API_KEY`. An absent or empty header is refused. |
| `Server.MissingFileMessage` | app.py:321-322 | The error text for a missing blob embeds the path between fixed quoting. |
| `Server.OsFailure` | app.py:321-331 | Opening (and, at app.py:373-380, removing) a blob fails whenever the path is missing. It succeeds exactly when the blob exists and no I/O error is injected. |
| `Registry.FirstWithId` | app.py:176-180 | Lookup returns a record of the registry that carries the id. It returns None exactly when no record carries the id. |
| `Registry.FirstWithIdAt` | app.py:176-180 | The record returned is the one at the first index carrying the id. |
| `Registry.FirstWithIdUnique` | app.py:176-180 | With unique ids, lookup returns the one record with that id. |
| `Registry.FirstWithIdAppended` | app.py:176-180 | After an upload under a fresh id, lookup of that id finds the new record. |
| `Server.FileServer.GetFileInfo` | app.py:176-180 | The loop scans from the front and returns exactly the first record with the id, or None. |
| `Registry.WithoutId` | app.py:377 | The delete filter never grows the list, and no survivor carries the id. |
| `Registry.WithoutIdMembers` | app.py:377 | A record survives the filter exactly when it was in the registry and its id differs. |
| `Registry.WithoutAbsentId` | app.py:377 | Filtering an id that no record carries leaves the registry unchanged. |
| `Registry.WithoutIdAppend` | app.py:377 | The filter distributes over concatenation, so survivors keep their relative order. |
| `Registry.WithoutIdRemovesAt` | app.py:374-377 | With unique ids, deleting the id of record i gives exactly `files[..i] + files[i+1..]`. |
| `Registry.UniqueIdsWithoutId` | app.py:377 | Deleting keeps ids unique. |
| `Registry.UploadPath` | app.py:231 | `os.path.join(UPLOAD_FOLDER, file_id)`: a relative id is stored at `uploads/<id>`, and an absolute one replaces the folder. |
| `Registry.UploadPathInjective` | app.py:231 | Distinct ids get distinct blob paths `os.path.join("uploads", id)`. |
| `PosixPath.Join` | client.py:121 | `os.path.join` ends with its second part. An absolute second part replaces the first. Otherwise the result is the first part plus the second, with one `/` between them. The `/` is added exactly when the first part is non-empty and does not already end in `/`. |
| `PosixPath.JoinInjective` | app.py:231 | Under a relative directory, different names give different paths. |
| `Registry.EntryOf` | app.py:299-304 | The entry listed for a record: its id, filename, size and timestamp, without its path. `Listing`'s contract ties each entry to its record. |
| `Registry.Listing` | app.py:298-305 | The list has one entry per record, in registry order, with that record's id, filename, size and timestamp. |
| `Registry.ListingAppend` | app.py:243 | After an append, the listing gains exactly the new record's entry at the end. |
| `Registry.ListingWithoutId` | app.py:298-305 | After the delete filter, no listed entry carries the deleted id. |
| `Registry.ConsistentAfterUpload` | app.py:229-243 | Writing a blob under a fresh id, then appending its record with the blob's size, preserves the invariant. |
| `Registry.ConsistentAfterDelete` | app.py:374-377 | Removing the blob, then filtering the id out, preserves the invariant. |
| `Server.FileServer.constructor` | app.py:11-23 | A fresh process has an empty registry over whatever the upload folder already holds. This state satisfies the invariant. |
| `Server.FileServer.UploadedRecord` | app.py:236-242 | The record an accepted upload appends: the new id, the sanitized filename, `uploads/<id>`, the byte count and the timestamp. `SaveAndRecord` states what it appends in these terms. |
| `Server.FileServer.SaveAndRecord` | app.py:229-243 | The blob is stored at `uploads/<id>`. Exactly one record is appended, with the sanitized name, that path, the stored blob's length and the timestamp. Earlier records are unchanged. The invariant is kept when the id is fresh. |
| `Server.FileServer.ApiUpload` | app.py:212-250 | 403 when unauthorized. 400 when there is no file part or the filename is empty. On these paths neither the registry nor the blobs change. Otherwise the store and the append happen, and the response carries the id, sanitized name and size. |
| `Server.FileServer.WebUpload` | app.py:254-287 | Same as `ApiUpload`, gated by the `api_key` form field. Errors are plain text; success redirects (302). |
| `Server.FileServer.ApiListFiles` | app.py:291-305 | 403 when unauthorized, otherwise 200 with the listing of the registry. It changes nothing. |
| `Server.FileServer.ApiDownloadFile` | app.py:309-331 | 403 when unauthorized, 404 for an unknown id. For a found record: 200 with exactly the stored bytes, and Content-Disposition naming the record's filename. When the blob is missing or reading fails: 500. Under the invariant with no I/O error, the status is never 500. |
| `Server.FileServer.WebDownloadFile` | app.py:335-357 | Same as `ApiDownloadFile`, gated by the `api_key` query parameter, with plain-text errors. |
| `Server.FileServer.RemoveAndFilter` | app.py:373-377 | The blob is removed first. Only if that succeeds does the registry become the old one without the id. If removal fails, nothing changes. The invariant is kept. |
| `Server.FileServer.ApiDeleteFile` | app.py:361-380 | 403 when unauthorized, 404 for an unknown id, 500 with nothing changed when removal fails. Otherwise 200: the blob is gone and the registry is the ordered filter. The invariant is kept. |
| `Server.FileServer.WebDeleteFile` | app.py:384-403 | Same as `ApiDeleteFile`, gated by the `api_key` query parameter. Success redirects (302). |
| `Scenarios.Lifecycle` | app.py:212-380 | On a fresh server, upload one file, list it, download it, delete it, then list and download again. The list shows one matching entry, and the download returns the uploaded bytes. After the delete, the list is empty and the download is 404. |
| `Scenarios.UploadThenDownload` | app.py:229-331 | On any registry not holding the id, upload followed by download returns exactly the uploaded bytes. The reported size equals their count. |
| `Scenarios.Reupload` | app.py:229-331 | Re-uploading a downloaded copy gives a second id with the same size and identical bytes. |
| `Scenarios.DeniedRequestsChangeNothing` | app.py:214-216 | Uploads and deletes refused by either check leave the registry and the blobs unchanged. |
| `SizeFormat.UnitOf` | app.py:183-191 | Bytes exactly below 1024, KB below 1024², MB below 1024³, GB otherwise. |
| `SizeFormat.FormatSize` | app.py:183-191 | The unit is the one `UnitOf` picks, and the magnitude times the unit's scale is exactly the byte count. |
| `SizeFormat.FormatSizeInRange` | app.py:183-191 | Bytes are shown exactly. Every other unit shows a magnitude of at least 1, and every unit but GB a magnitude below 1024. |
| `SizeFormat.UnitOfMonotonic` | app.py:183-191 | A larger size never uses a smaller unit. |
| `ClientText.IndexFrom` | client.py:114-115 | Returns the first occurrence of the pattern at or after a position, or None when there is none. |
| `ClientText.TrimRight` | client.py:17 | `rstrip`: the result is a prefix of the input, does not end in a stripped character, and everything removed was a stripped character. |
| `ClientText.Leading` | client.py:115 | The length of the leading run of stripped characters: every character before it is stripped, and the next one is not. |
| `ClientText.Strip` | client.py:115 | `strip`: the result is the input's slice starting right after the leading run of stripped characters. Everything after the slice is a stripped character, and the result has no stripped character at either end. |
| `ClientText.StripUnchanged` | client.py:115 | A string with no stripped character at either end is its own `strip`. |
| `ClientText.SecondField` | client.py:115 | `split('filename=')[1]`: the slice that starts right after the first `filename=` and runs to the next occurrence of `filename=`, or to the end when there is none. It contains no `filename=`. |
| `ClientText.ExtractFilename` | client.py:112-115 | A name is found exactly when the header is present and contains `filename=`. The name is then the `strip` of quotes of the field after the first `filename=`. It has no quote at either end and contains no `filename=`. |
| `ClientText.SaveName` | client.py:119-120 | The declared name when non-empty, otherwise `download_<id>`. Never empty. |
| `ClientText.ResolvePath` | client.py:118-123 | Any output path that is not a directory is used unchanged. A directory gives exactly `PosixPath.Join(dir, save name)`, whose contract fixes the result, including when the `/` is added. |
| `ClientText.NormalizeServerUrl` | client.py:17 | The saved URL is the input without its trailing `/` run. It never ends with `/`. |
| `ClientText.NormalizeServerUrlIdempotent` | client.py:17 | Normalising a saved URL again changes nothing. |
| `ClientDownload.FirstTimeConfig` | client.py:16-19 | The saved key is the typed key. The saved URL does not end with `/`. |
| `ClientDownload.FirstTimeConfigUrl` | client.py:16-19 | The saved URL is the typed URL with a run of trailing `/` removed, and nothing else changed. |
| `ClientDownload.UploadRequest` | client.py:48-49 | A POST to the configured server URL followed by `/api/upload`, the server's route for it, with `"Bearer " + api_key` as Authorization. |
| `ClientDownload.ListRequest` | client.py:77-78 | A GET to the configured server URL followed by `/api/files`, the server's route for it, with `"Bearer " + api_key` as Authorization. |
| `ClientDownload.DownloadRequest` | client.py:103-104 | A GET to the configured server URL followed by `/api/download/<id>`, the server's route for it, with `"Bearer " + api_key` as Authorization. |
| `ClientDownload.DeleteRequest` | client.py:152-153 | A DELETE to the configured server URL followed by `/api/files/<id>`, the server's route for it, with `"Bearer " + api_key` as Authorization. |
| `Seqs.ConcatNonEmpty` | client.py:130-133 | Skipping empty chunks does not change what is written. |
| `Seqs.ConcatLength` | client.py:133 | The byte count of a concatenation is the sum of the chunk lengths. |
| `ClientDownload.DownloadFile` | client.py:100-145 | A non-200 status is reported. On 200, the destination is resolved from the declared name. The file then holds the non-empty chunks concatenated in order, which equals all chunks concatenated. `downloaded` is the sum of their lengths, equal to the file's length. |
| `Interop.ClientRequestsAuthorized` | client.py:49 | Upload, list, download and delete requests all carry `"Bearer " + api_key`. The server's API check accepts them exactly when the client's key is the server's. |
| `Interop.DispositionKeyAt` | app.py:327 | In the header the server builds, the first `filename=` is the one right after `attachment; `. |
| `Interop.DispositionRoundTrip` | client.py:112-115 | The client's parse of the server's header returns the record's filename, when that name has no quote at its ends and no `filename=`. |
| `Interop.DownloadSavedUnderRecordName` | client.py:118-123 | Downloading into a directory saves under the server record's filename, or `download_<id>` when it is empty. |
| `Wire.BearerHeader` | client.py:49 | The header is `"Bearer "` followed by exactly the key. |
| `Wire.BearerHeaderInjective` | app.py:215 | Different keys give different headers, so the API check singles out one key. |
| `Wire.Disposition` | app.py:327 | The header is `"attachment; filename="` followed by exactly the filename. |
| `ClientCommands.Word` | client.py:215 | The longest prefix without whitespace. |
| `ClientCommands.Tokenize` | client.py:215 | `split()` yields only non-empty words without whitespace. |
| `ClientCommands.WordOf` | client.py:215 | A word without whitespace followed by the end of the line or by whitespace is the word read at that point. |
| `ClientCommands.TokenizeFirstWord` | client.py:215 | Whitespace, then a word, then the end or whitespace: `split()` gives that word first and then the words of the rest. |
| `ClientCommands.TokenizeBlank` | client.py:210-215 | A line has no words exactly when it is all whitespace, the `if not command: continue` case. |
| `ClientCommands.TokenizeKeepsText` | client.py:215 | The words, joined, are the line's non-whitespace characters in order. |
| `ClientCommands.Lower` | client.py:216 | Lower-cases letter by letter, keeping the length. |
| `ClientCommands.Dispatch` | client.py:218-238 | `upload`, `download` and `delete` are chosen exactly when there is an argument. The argument is the word after the command. `download`'s output path is the next word, else `"."`. `list`, `web`, `config` and `help` choose listing, the browser, reconfiguration and help. `exit`/`quit` end the shell and only the shell. |
| `ClientCommands.DispatchInvalid` | client.py:218-238 | "Invalid command" is chosen exactly when the word is not a command, or is `upload`/`download`/`delete` without an argument, or is `exit`/`quit` on the command line. |
| `ClientCommands.InteractiveAction` | client.py:210-238 | A line is skipped exactly when it is blank. Otherwise its first word, lower-cased, is dispatched with the remaining words. |
| `ClientCommands.InteractiveActionFirstWord` | client.py:210-238 | For leading whitespace, a word, then the end or whitespace, the action is the lower-cased word dispatched with the words of the rest. |
| `ClientCommands.CommandLineAction` | client.py:247-272 | With fewer than two argv entries the shell starts. Otherwise `argv[1]`, lower-cased, is dispatched with `argv[2..]` as a command-line command. |
| `ClientCommands.CommandLineMatchesShell` | client.py:256-272 | Passing a line's words as arguments chooses the same action as typing the line, except that `exit`/`quit` fall through to "Invalid command". |
| `ClientCommands.Answered` | client.py:165-170 | The configuration `update_config` produces: the file is removed and `load_config` runs its first-time branch on the k-th answers. Its facts are those of `FirstTimeConfig` and `FirstTimeConfigUrl`, and `RunConfig` proves its URL has no trailing `/`. |
| `ClientCommands.HandleLine` | client.py:218-238 | A dispatched action is recorded with the configuration in force, except skip and quit. Quit ends the shell. `config` replaces the configuration with the next prompt answer, normalised as on first setup, and counts one reconfiguration. Nothing else changes. |
| `ClientCommands.Step` | client.py:208-243 | Once ended, nothing changes. End of input changes nothing in the loop as written. Each step adds at most one dispatched action and keeps the earlier ones. The configuration changes only with a reconfiguration, to the next prompt answer. No skip or quit is ever recorded as dispatched. |
| `ClientCommands.Run` | client.py:208-243 | The session after the loop has read the input, as written or corrected. Its facts are stated by `RunCounts`, `RunConfig`, `RunAfterEnd` and the two end-of-input lemmas. |
| `ClientCommands.StepEffects` | client.py:208-243 | A step ends a running shell exactly on an interrupt, on `exit`/`quit`, or at end of input in the corrected loop. It reconfigures exactly on a `config` line. |
| `ClientCommands.RunCounts` | client.py:208-243 | Over any input, the reconfigurations number at most the dispatched actions, which number at most the lines read. No skip or quit is recorded. |
| `ClientCommands.EndOfInputNeverEndsAsWritten` | client.py:208-243 | As written, after end of input every further read fails the same way. The state never changes and the loop never ends. |
| `ClientCommands.EndOfInputEnds` | client.py:208-243 | With the correction, end of input ends the shell. |
| `ClientCommands.RunAfterEnd` | client.py:234-241 | Once `exit`, `quit` or an interrupt ends the shell, later input changes nothing. |
| `ClientCommands.RunConfig` | client.py:229-230 | The configuration in force is the initial one, or the latest answer to the `config` prompt built as on first setup. After any reconfiguration the URL is empty or does not end with `/`. |
| `ClientCommands.InteractiveMode` | client.py:208-243 | The loop as written: end of input leaves the state unchanged and the loop goes on reading. The final state is the as-written run of the session over the input. |

## Left out

- Flask routing, `HTML_TEMPLATE`, `render_template_string` and the page `index()` renders (with its `size_formatted` decoration): presentation only. A redirect is the `RedirectToIndex` body with status 302.
- `secure_filename` is a function fixed at construction; its behaviour belongs to an external library.
- `uuid.uuid4()` is a parameter. The source never checks it against the registry, so upload does not require freshness. The invariant is preserved only when the id is fresh, and a colliding id breaks it.
- `datetime.now().strftime(...)` is a timestamp string parameter.
- `os.path.getsize` is the length of the stored blob.
- A failing `file.save` is not modelled. The handler does not catch it, and what it leaves behind depends on the file system.
- Exception text for a missing blob is `[Errno 2] No such file or directory: '<path>'`. Python's `repr` can pick other quoting for unusual paths. Any other I/O error is an injected message.
- `Server.FileServer.constructor`: its invariant is one-way. The source keeps the upload folder across restarts while `FILES` starts empty, so blobs without a record can exist. "Every blob has a record" is not an invariant of this code.
- `MAX_CONTENT_LENGTH` (100 MB): a larger request is refused with 413 by the framework when the handler first reads the body. In `api_upload` that is the file-part check at app.py:219, after the 403 check. In `web_upload` it is the form read at app.py:256, before the key check. The 413 path is not modelled.
- Download responses are the whole blob at once, as the source reads it. No streaming is modelled.
- `SizeFormat.FormatSize`: gives the exact quotient, not its one-decimal rounding or its text.
- Client progress output, percentages, `content-length`, and transfer rates from `time.time()`: floating point and printing.
- The client's `upload_file`, `list_files` and `delete_file` bodies are modelled only as the requests they send (`ClientDownload.UploadRequest` and its siblings). Their output and their `os.path.exists` check are printing and local I/O.
- `requests` transport failures and the `except Exception` reports around each client operation.
- The JSON config file: reading and writing it, and the re-prompt when it is corrupt, are left out. A configuration loaded from an existing file is used as stored, without normalisation. For `update_config` the file I/O is left out: it removes the file and prompts again, and its effect on the configuration is `ClientCommands.Answered`, the first-time setup applied to the next answers of the `prompt` parameter.
- `ClientCommands.HandleLine`: assumes a `config` command completes, meaning the prompt is answered and the config file is written. When `update_config` raises instead, the source does not assign at client.py:230. End of input at the prompt, or a failing file write, is caught at client.py:242 and the old configuration stays, with the file already removed. An interrupt at the prompt ends the shell at client.py:239. `StepEffects` and `RunConfig` inherit this assumption.
- `open_web_interface`, `show_help`, `input` and `print`: I/O. `Web` and `Help` are only chosen, not run.
- `ClientCommands.Lower`: lower-cases ASCII letters only, not Python's full Unicode `lower()`. The one non-ASCII letter whose lower case is an ASCII letter is the Kelvin sign, which becomes `k`. No command word contains `k`, so the action chosen is the same.
- `ClientCommands.IsSpace`: the whitespace set of Python's `str.split()` and `str.strip()` is written out as a fixed list.
- Concurrency: the source has no locking and is modelled as sequential requests.
- Upload has no duplicate-id check and no blob rollback, and the web routes answer with a 302 redirect.

## Findings

| source | as written | input that shows it | evidently intended | confidence | as-written member | corrected member |
|---|---|---|---|---|---|---|
| client.py:208-243 | `input()` raising `EOFError` at end of standard input is caught by `except Exception`. The loop prints an error and reads again. | Standard input that stays closed: a redirected file or a pipe that ends without `exit`. Every later `input()` raises `EOFError` again, so the shell loops forever. `InteractiveMode` models this loop as written. | End of input ends the shell, as an interrupt does. | high, not executed | `ClientCommands.EndOfInputNeverEndsAsWritten` | `ClientCommands.EndOfInputEnds` |
