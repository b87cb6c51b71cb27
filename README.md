# pdf-mcp page-to-URL pipeline, modelled in Dafny

This project models the core of pdf-mcp, a small tool server that renders a
page of a PDF to a PNG, uploads it to Tencent Cloud Object Storage (COS), and
returns the page's public URL. Two pieces of the repository carry its logic:

- the `pdf_to_images` tool (`src/pdf_mcp_server.py`). It checks that the file
  exists and that the page number lies in `[1, total_pages]`, and renders the
  page to a temporary PNG. The file stem is sanitized in three passes: unsafe
  characters become `_`, runs of `_` collapse, and edge `_` are stripped. The
  tool then uploads the PNG under the hint `pdf_images/{stem}_page_{n}.png`,
  builds the success or failure record, and deletes the temporary file in a
  `finally` block;
- the `COSClient` class (`src/cos_client.py`). Its constructor checks the
  credentials and the bucket. `upload_file` derives the key (the hint or the
  local base name, prefixed with a `YYYYMMDD_HHMMSS_` timestamp), builds the
  SDK parameters and turns every exception into a `{success: False, error}`
  record classified by origin. `_build_url`/`get_file_url` give
  `https://{bucket}.cos.{region}.myqcloud.com/{key}`, and `check_file_exists`
  probes an object's metadata.

Modules:

- `Sanitize` (sanitize.dfy): the three passes as functions, and the sanitized
  stem's invariants. Its alphabet is `\w`, `一-鿿` and `-`; it never holds `__`
  and never starts or ends with `_`. Its kept characters are exactly the
  stem's, in order. It is empty exactly when the stem has no kept character.
  Sanitizing is idempotent and never lengthens the stem.
- `Text`, `Timestamp` (text.dfy, timestamp.dfy): Python's `str(int)` and the
  `%Y%m%d_%H%M%S` token, each with the parser that inverts it.
- `Cos` (cos_client.dfy): the configuration check, the key and URL builders,
  the upload as a specification function `UploadSpec`, and the `CosClient`
  class. `CosClient.UploadFile` mirrors the source's reassignments of
  `remote_key` and of the parameter dictionary, and is proved equal to
  `UploadSpec`.
- `LocalFs` (local_fs.dfy): the local filesystem as a set of existing paths.
- `PdfServer` (pdf_server.dfy): `PdfToImages` is the tool as a method over the
  filesystem with its try/except/finally structure; `TryRenderAndUpload` is
  its `try` block. It is proved equal to the
  specification function `PdfToImagesSpec` and to `FilesAfter`, and the lemmas
  state the tool's promises about those functions.

Inputs from outside the model:

- the PDF library gives a page count or an error (`PdfDocument`);
- a failure before the temporary file exists (rendering the page, or
  `NamedTemporaryFile` itself) is an optional message, and so is a failure
  of `img.save` into the created file;
- the temporary name is chosen by `tempfile` (`Externals.tempBase`), and
  names no existing file (`PdfServer.FreshTemp`);
- the clock reading is a `Timestamp.DateTime`;
- constructing the SDK's `CosConfig` and `CosS3Client` either works or
  raises with a message (`Externals.sdkInitError`);
- the SDK reports a completed upload (with or without ETag), a service error,
  a client error or another error (`Cos.SdkOutcome`), and a metadata probe
  gives `Cos.HeadOutcome`;
- `os.unlink` either succeeds or fails.

Behaviours of the code that the model keeps as they are:

- The sanitized stem has no placeholder fallback. A stem with no kept
  character gives the empty string (`SanitizeEmptyIff`), and the hint is then
  `pdf_images/_page_{n}.png`.
- `check_file_exists` catches only service errors. A client error propagates,
  and is modelled as `Failure`.
- The error a missing local file gives in `upload_file` is returned, not raised.

## Model

| member | source | states |
|---|---|---|
| Sanitize.ReplaceUnsafe | src/pdf_mcp_server.py:95-96 | one-for-one: same length, each safe character kept in place and each other character replaced by `_`; the result is all safe |
| Sanitize.CollapseUnderscores | src/pdf_mcp_server.py:97-98 | never longer than its input, keeps the first and last character, and the result has no two consecutive `_` |
| Sanitize.CollapseDropsRepeats | src/pdf_mcp_server.py:97-98 | the collapse equals an independent index-by-index definition: every character is kept in place except an `_` directly after another `_` |
| Sanitize.CollapseRun | src/pdf_mcp_server.py:97-98 | a run of `k >= 1` underscores between two non-`_` characters (or the ends) leaves exactly one `_`, and the two sides collapse independently |
| Sanitize.CollapseAppend | src/pdf_mcp_server.py:98 | collapsing a concatenation whose seam is not `__` collapses each part separately |
| Sanitize.CollapseUnderscoreRun | src/pdf_mcp_server.py:98 | a run of one or more `_` becomes a single `_` |
| Sanitize.CollapseIdentity | src/pdf_mcp_server.py:98 | a string with no `__` is left unchanged by the collapse |
| Sanitize.CollapsePreservesSafe | src/pdf_mcp_server.py:98 | collapsing introduces no unsafe character |
| Sanitize.TrimLeading | src/pdf_mcp_server.py:100 | the result is a suffix of the input, everything removed is `_`, and the result does not start with `_` |
| Sanitize.TrimTrailing | src/pdf_mcp_server.py:100 | the result is a prefix of the input, everything removed is `_`, and the result does not end with `_` |
| Sanitize.StripUnderscores | src/pdf_mcp_server.py:100 | no edge `_` in the result; a string without edge `_` is unchanged |
| Sanitize.SanitizeStem | src/pdf_mcp_server.py:92-100 | the sanitized stem is no longer than the stem, is all safe (`\w`, U+4E00–U+9FFF, `-`), has no `__` and no edge `_` |
| Sanitize.SanitizeKeepsLetters | src/pdf_mcp_server.py:96-100 | the safe non-`_` characters of the stem survive, all of them and in order, and no other character survives |
| Sanitize.SanitizeEmptyIff | src/pdf_mcp_server.py:96-100 | the sanitized stem is empty exactly when the stem has no safe character other than `_` (no placeholder) |
| Sanitize.SanitizeIdempotent | src/pdf_mcp_server.py:96-100 | sanitizing a sanitized stem returns it unchanged |
| Text.NatToDecimal | src/pdf_mcp_server.py:112 | `str(n)`: non-empty, all digits, no leading zero unless `n == 0`, one digit exactly when `n < 10` |
| Text.NatToDecimalRoundTrip | src/pdf_mcp_server.py:112 | the page number can be read back from its decimal text |
| Text.NatToDecimalInjective | src/pdf_mcp_server.py:112 | different page numbers have different decimal texts |
| Text.IntToDecimal | src/pdf_mcp_server.py:75 | `str(i)` of a possibly negative page number: digits denoting `i` when `i >= 0`, and `-` followed by digits denoting `-i` otherwise |
| Text.IntToDecimalInjective | src/pdf_mcp_server.py:75 | different page numbers give different texts |
| Text.FixedDigits | src/cos_client.py:91 | a zero-padded field has exactly the requested width and only digits |
| Text.FixedDigitsRoundTrip | src/cos_client.py:91 | a zero-padded field reads back as the value it was made from |
| Timestamp.Format | src/cos_client.py:91 | the timestamp token has 15 characters: 8 digits, `_`, 6 digits |
| Timestamp.ParseFormat | src/cos_client.py:91 | the token reads back as the clock reading it came from |
| Timestamp.FormatInjective | src/cos_client.py:90-92 | two different seconds give two different tokens |
| Cos.ResolveSettings | src/cos_client.py:31-41 | configuration succeeds exactly when `SECRET_ID` and `SECRET_KEY` are non-empty and the bucket (argument first, then `BUCKET_NAME`) is non-empty; the region defaults to `ap-beijing`; each failure gives its own message |
| Cos.CosClient.Create | src/cos_client.py:23-53 | the constructor fails exactly when the configuration is incomplete or the SDK's client construction raises, with the configuration error first and the SDK's message otherwise; on success it yields a fresh client whose fields are the resolved settings |
| Cos.KeyHint | src/cos_client.py:87-88 | the key before the timestamp is the given key when it is non-empty, otherwise a `/`-free suffix of the local path (its base name) |
| Cos.FinalKey | src/cos_client.py:90-92 | the stored key is 16 characters longer than the hint, has `_` at position 15, and ends with the hint |
| Cos.Basename | src/cos_client.py:87-88 | `os.path.basename`: the longest suffix of the path without `/` |
| Cos.ObjectUrl | src/cos_client.py:147-158 | the URL is `https://{bucket}.cos.{region}.myqcloud.com/` followed by the key |
| Cos.UrlKeyRoundTrip | src/cos_client.py:158 | the key can be read back from the URL built from it |
| Cos.KeyOfUrlSound | src/cos_client.py:158 | a URL of the bucket's base is the URL of the key read off it |
| Cos.CosClient.GetFileUrl | src/cos_client.py:160-170 | `get_file_url` returns the `_build_url` value, from which the key reads back |
| Cos.FinalKeyShape | src/cos_client.py:90-92 | the stored key is the 15-character timestamp token, `_`, then the hint, and both parts read back |
| Cos.FinalKeyInjective | src/cos_client.py:90-92 | two uploads share a key only when the second and the hint coincide |
| Cos.FinalKeyStartsWithDigit | src/cos_client.py:91-92 | every stored key starts with a digit of the year |
| Cos.ErrorMessage | src/cos_client.py:125-145 | the message of an SDK exception is exactly its origin's prefix (`COS服务错误: `, `COS客户端错误: ` or `未知错误: `) followed by the exception's own text |
| Cos.UploadSpec | src/cos_client.py:59-145 | the SDK is called exactly when the local file exists, with that file and the client's bucket; the upload succeeds exactly when the file exists and the SDK completes, and then reports the key it sent |
| Cos.ErrorMessageOrigin | src/cos_client.py:125-145 | the message of a service, client or other error is prefixed so that its origin reads back |
| Cos.ErrorMessageReadsBack | src/cos_client.py:125-145 | splitting the message of an SDK exception at its prefix gives back the origin and exactly the exception's text |
| Cos.CosClient.UploadFile | src/cos_client.py:59-145 | `upload_file` returns what `UploadSpec` gives and hands the SDK the request `UploadSpec` gives |
| Cos.UploadSucceedsIff | src/cos_client.py:109-123 | upload succeeds exactly when the local file exists and the SDK completes; then the key is the timestamped hint, the URL names that key, and the ETag defaults to empty |
| Cos.UploadFailureClassified | src/cos_client.py:78-145 | a missing local file gives `文件不存在: {path}` and no SDK call; an SDK exception gives exactly its classified message, from which the origin and the exception's text read back |
| Cos.UploadRequestShape | src/cos_client.py:86-107 | the SDK request holds the bucket, the local path, the key (the hint, or the base name when the hint is `None` or empty, after the timestamp), part size 10, 10 threads, and a content type exactly when one was given, equal to the given one; the key is exactly the timestamp token, `_`, then that hint, whatever the SDK then does |
| Cos.CosClient.CheckFileExists | src/cos_client.py:172-186 | true exactly on a metadata hit, false exactly on a service error, and a client error propagates |
| LocalFs.FileSystem.Exists | src/pdf_mcp_server.py:66 | `os.path.exists` answers membership in the set of existing paths |
| LocalFs.FileSystem.CreateFile | src/pdf_mcp_server.py:101-103 | creating the temporary file, at a path that did not exist, adds exactly that path |
| LocalFs.FileSystem.Unlink | src/pdf_mcp_server.py:139-143 | a successful unlink removes exactly the path; a failed one changes nothing |
| PdfServer.RangeMessage | src/pdf_mcp_server.py:74-75 | the out-of-range message is `页码超出范围: `, then the requested page as `str` renders it, and ends with the decimal page count |
| PdfServer.RangeMessageInjective | src/pdf_mcp_server.py:75 | the out-of-range message determines both the requested page and the page count |
| PdfServer.PageKeyHint | src/pdf_mcp_server.py:108-113 | the remote-key hint lies under `pdf_images/` and, below it, names the same file the temporary file's suffix ends with |
| PdfServer.TempSuffix | src/pdf_mcp_server.py:101 | the temporary file's suffix is `_`, the sanitized stem, and ends with `.png` |
| PdfServer.FailureRecord | src/pdf_mcp_server.py:127-136 | the failure record carries the error prefix followed by exactly the exception's message, the given PDF name, zero totals, no next page and an empty URL |
| PdfServer.RenderStage | src/pdf_mcp_server.py:64-90 | the steps before the temporary file exists succeed exactly when the PDF exists and opens, the page is in `[1, total_pages]` and renders, and then yield the page count |
| PdfServer.UploadStage | src/pdf_mcp_server.py:101-126 | once the temporary file exists it is always reported; any upload sends that file; the stage succeeds exactly when the image is saved, the client is configured and constructed and the upload completes |
| PdfServer.UploadStageRequest | src/pdf_mcp_server.py:108-114 | once the image is saved and the client is configured and constructed, the SDK receives the timestamped page key and content type `image/png` |
| PdfServer.PdfToImagesSpec | src/pdf_mcp_server.py:47-136 | whenever an upload is requested, a temporary file was created and it is the file uploaded |
| PdfServer.FilesAfter | src/pdf_mcp_server.py:137-143 | with no temporary file nothing changes; a temporary file remains exactly when its unlink failed; no other path changes |
| PdfServer.PdfToImages | src/pdf_mcp_server.py:47-143 | given a fresh temporary name, the tool returns the record and sends the request that `PdfToImagesSpec` gives, and leaves the files `FilesAfter` gives |
| PdfServer.TryRenderAndUpload | src/pdf_mcp_server.py:64-126 | the `try` block leaves `temp_image_path` and the created file as the specification says, creates the file only once the PDF exists, the page is in range and renders (a later `img.save` failure still leaves it created), and yields either the success record or the message that the `except` branch turns into the failure record |
| PdfServer.InvalidRequestFails | src/pdf_mcp_server.py:66-75 | a missing file or a page outside `[1, total_pages]` gives the failure record (totals 0, no next page, empty URL) with the message naming the cause, and creates no temporary file and sends no upload |
| PdfServer.FailureRecordShape | src/pdf_mcp_server.py:128-136 | every failure carries the error prefix, zero totals, no next page and an empty URL |
| PdfServer.SucceedsIff | src/pdf_mcp_server.py:64-126 | success exactly when the file exists and opens, the page is in range and renders, the image is saved, the client is configured and constructed and the upload completes |
| PdfServer.SuccessShape | src/pdf_mcp_server.py:119-126 | when the PDF exists, the page is in range, rendering and saving work, the bucket settings resolve, the SDK client is constructed and the upload completes, the record has no error, keeps the given PDF name, `current_page` is the requested page, `total_pages` the page count, `has_next_page` holds exactly when the page is not the last, and the URL and the upload request name the key `timestamp_pdf_images/{sanitized}_page_{n}.png` with content type `image/png` |
| PdfServer.UploadFailureReported | src/pdf_mcp_server.py:116-117 | an upload that returns `success == False` gives the failure record carrying the classified storage message and an empty URL |
| PdfServer.TempFileCreatedIff | src/pdf_mcp_server.py:91-102 | the temporary file is created exactly when the page passed validation and rendered, whether or not saving the image into it then fails, and its name ends with `_{sanitized}_page_{n}.png` |
| PdfServer.SaveFailureReported | src/pdf_mcp_server.py:101-143 | when `img.save` fails into the created temporary file, the failure record carries its message, nothing is uploaded, and the file remains exactly when its unlink fails |
| PdfServer.OriginalFilesKept | src/pdf_mcp_server.py:101-143 | with a fresh temporary name, every file that existed before the call exists after it, and the temporary file is the only one that may be added |
| PdfServer.TempFileRemoved | src/pdf_mcp_server.py:137-143 | a created temporary file no longer exists at return unless its unlink failed; no other file changes |
| PdfServer.PageKeyHintInjective | src/pdf_mcp_server.py:112 | the key hint determines the sanitized stem and the page |
| PdfServer.PageNameInjective | src/pdf_mcp_server.py:101-112 | `{sanitized}_page_{n}` determines the sanitized stem and the page |
| PdfServer.StoredKeyNotUnderImageFolder | src/pdf_mcp_server.py:110-114 | whenever rendering and saving succeed, the bucket settings resolve and the SDK client is constructed, an upload is requested and its key is the timestamp token (which parses back to the clock reading), `_`, then `pdf_images/...`, so `pdf_images/` is never its leading segment |

## Left out

- Sanitize.IsWordChar: Python's Unicode `\w` is modelled only for ASCII and Latin-1 (letters, digits, numeric characters, `_`). Letters and digits of other scripts outside U+4E00–U+9FFF are treated as unsafe here, because the Unicode character database is not part of this model.
- Rasterization with PyMuPDF (`load_page`, `get_pixmap`, `tobytes`), the PIL re-encode, `NamedTemporaryFile` and `img.save` are foreign library calls. The document is reduced to its page count. A failure before the temporary file exists (in rendering, or in `NamedTemporaryFile` itself, e.g. a name too long for the filesystem) is the optional `renderError`; a failure of `img.save` after the file was created is the optional `saveError`, and the file then exists and is unlinked in `finally`.
- The `dpi` argument and `zoom = dpi / 72.0` only feed the rasterizer, a floating-point scale with nothing else depending on it.
- The document handle is not modelled. The code closes it only on the path that reaches line 106, and the validation and render failures leave it to the garbage collector.
- `Path(pdf_path).name` and `.stem` are inputs. `tempfile`'s choice of a fresh name is an input too: `Externals.tempBase`, to which the modelled suffix is appended; that the name is new is the precondition `FreshTemp`.
- `datetime.now()` is an input. Clock readings before the year 1000 are excluded, since `%Y` does not render them as four digits on every platform.
- The COS network transfer (`CosS3Client.upload_file`, `head_object`), `CosConfig`, `CosS3Client`, the `client` field and the multi-part tunables' effect are the SDK's. Their outcome is an input (`SdkOutcome`, `HeadOutcome`, and `sdkInitError` for the two constructors), so a later `check_file_exists` on an uploaded key is not tied to that upload.
- `extract_pdf_content` and `get_pdf_info` are passthroughs to markitdown and PyMuPDF metadata.
- FastMCP server setup and transport selection, the `Config` class, `load_dotenv`, logging and the `main()` manual test in `src/cos_client.py` are plumbing.
