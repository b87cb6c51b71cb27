/** The `pdf_to_images` tool: validate the page, render it to a temporary
    PNG, upload it under a key built from the sanitized file stem, report the
    page and its URL, and delete the temporary file on every exit path. */
module PdfServer {
  import opened Wrappers
  import opened Text
  import opened Sanitize
  import Timestamp
  import Cos
  import opened LocalFs

  /** What opening the file with the PDF library yields: its page count, or
      the message of the exception it raised. */
  datatype PdfDocument = Unreadable(message: string) | Pages(count: nat)

  /** Everything the tool receives from outside the model: the document, a
      failure before the temporary file exists (rendering the page, or
      `NamedTemporaryFile` itself), a failure of `img.save` into the created
      file, a failure of the storage SDK's client construction, the path
      tempfile chooses without its suffix, the clock, the SDK's upload
      outcome and whether the final unlink succeeds. */
  datatype Externals = Externals(
    doc: PdfDocument,
    renderError: Option<string>,
    saveError: Option<string>,
    sdkInitError: Option<string>,
    tempBase: string,
    now: Timestamp.DateTime,
    upload: Cos.SdkOutcome,
    unlinkSucceeds: bool)

  /** The dictionary the tool returns; `error` is absent on success. */
  datatype PageResult = PageResult(
    error: Option<string>,
    pdfName: string,
    totalPages: nat,
    currentPage: int,
    hasNextPage: bool,
    imageUrl: string)

  /** The tool's result, the temporary file it created (if any) and the
      request the storage SDK received (if any). */
  datatype Run = Run(result: PageResult, tempFile: Option<string>, request: Option<Cos.UploadRequest>)

  const ErrorPrefix := "处理PDF时发生错误: "
  const MissingPdfPrefix := "PDF文件不存在: "
  const UploadFailedPrefix := "上传图片到COS失败: "
  const UnknownName := "未知"
  const ImageFolder := "pdf_images/"
  const ContentType := "image/png"

  const RangePrefix := "页码超出范围: "
  const RangeSeparator := "，总页数: "

  /** The message of the `ValueError` for a page outside the document: the
      requested page right after the prefix, the page count at the end. */
  function RangeMessage(page: int, total: nat): (r: string)
    ensures RangePrefix <= r
    ensures |RangePrefix| + |IntToDecimal(page)| <= |r|
    ensures r[|RangePrefix|..|RangePrefix| + |IntToDecimal(page)|] == IntToDecimal(page)
    ensures |NatToDecimal(total)| <= |r| && r[|r| - |NatToDecimal(total)|..] == NatToDecimal(total)
  {
    var digits := NatToDecimal(total);
    var r := RangePrefix + IntToDecimal(page) + RangeSeparator + digits;
    assert r[|r| - |digits|..] == digits;
    r
  }

  /** The remote-key hint `pdf_images/{safe}_page_{n}.png`: under the image
      folder, the same name the temporary file ends with. */
  function PageKeyHint(safeName: string, page: nat): (r: string)
    ensures ImageFolder <= r
    ensures r[|ImageFolder|..] == TempSuffix(safeName, page)[1..]
  {
    ImageFolder + safeName + "_page_" + NatToDecimal(page) + ".png"
  }

  /** The suffix given to the temporary file: `_{safe}_page_{n}.png`. */
  function TempSuffix(safeName: string, page: nat): (r: string)
    ensures |r| > |safeName| + 10 && r[0] == '_' && r[1..|safeName| + 1] == safeName
    ensures r[|r| - 4..] == ".png"
  {
    "_" + safeName + "_page_" + NatToDecimal(page) + ".png"
  }

  /** The record the `except` branch returns. */
  function FailureRecord(message: string, pdfName: string): (r: PageResult)
    ensures r.error.Some? && ErrorPrefix <= r.error.value && r.error.value[|ErrorPrefix|..] == message
    ensures r.pdfName == pdfName
    ensures r.totalPages == 0 && r.currentPage == 0 && !r.hasNextPage && r.imageUrl == ""
  {
    PageResult(Some(ErrorPrefix + message), pdfName, 0, 0, false, "")
  }

  /** The steps before the temporary file is created: the page count, or
      the message of the exception one of them raises. */
  function RenderStage(files: set<string>, pdfPath: string, page: int, ext: Externals): (r: Result<nat, string>)
    ensures r.Success? <==>
      pdfPath in files && ext.doc.Pages? && 1 <= page <= ext.doc.count && ext.renderError.None?
    ensures r.Success? ==> r.value == ext.doc.count
  {
    if pdfPath !in files then Failure(MissingPdfPrefix + pdfPath)
    else match ext.doc
      case Unreadable(m) => Failure(m)
      case Pages(total) =>
        if page < 1 || page > total then Failure(RangeMessage(page, total))
        else if ext.renderError.Some? then Failure(ext.renderError.value)
        else Success(total)
  }

  /** The steps once the file `temp` exists: save the image into it,
      construct the client (configuration check, then the SDK objects),
      upload, and build the record. */
  function UploadStage(
    files: set<string>, env: Cos.Environment, pdfName: string, safe: string, temp: string,
    page: nat, total: nat, ext: Externals): (r: Run)
    requires Timestamp.Valid(ext.now)
    ensures r.tempFile == Some(temp)
    ensures r.request.Some? ==> r.request.value.localFilePath == temp
    ensures r.result.error.None? <==>
      ext.saveError.None? && Cos.ResolveSettings(env, None).Success? && ext.sdkInitError.None?
      && ext.upload.Completed?
  {
    if ext.saveError.Some? then Run(FailureRecord(ext.saveError.value, pdfName), Some(temp), None)
    else match Cos.ResolveSettings(env, None)
    case Failure(m) => Run(FailureRecord(m, pdfName), Some(temp), None)
    case Success(s) =>
      if ext.sdkInitError.Some? then Run(FailureRecord(ext.sdkInitError.value, pdfName), Some(temp), None)
      else
        var up := Cos.UploadSpec(s, temp, Some(PageKeyHint(safe, page)), Some(ContentType),
                                 files + {temp}, ext.now, ext.upload);
        var result :=
          if up.result.Uploaded? then PageResult(None, pdfName, total, page, page < total, up.result.url)
          else FailureRecord(UploadFailedPrefix + up.result.error, pdfName);
        Run(result, Some(temp), up.request)
  }

  /** `pdf_to_images` as a function of the files that exist when it starts. */
  function PdfToImagesSpec(
    files: set<string>, env: Cos.Environment, pdfPath: string, pdfName: string, stem: string,
    page: int, ext: Externals): (r: Run)
    requires Timestamp.Valid(ext.now)
    ensures r.request.Some? ==> r.tempFile.Some? && r.request.value.localFilePath == r.tempFile.value
  {
    match RenderStage(files, pdfPath, page, ext)
    case Failure(m) => Run(FailureRecord(m, if pdfPath in files then pdfName else UnknownName), None, None)
    case Success(total) =>
      var safe := SanitizeStem(stem);
      UploadStage(files, env, pdfName, safe, ext.tempBase + TempSuffix(safe, page), page, total, ext)
  }

  /** The files that exist when the tool returns. */
  function FilesAfter(files: set<string>, tempFile: Option<string>, unlinkSucceeds: bool): (r: set<string>)
    ensures tempFile.None? ==> r == files
    ensures tempFile.Some? ==> (tempFile.value in r <==> !unlinkSucceeds)
    ensures forall p :: (tempFile.None? || p != tempFile.value) ==> (p in r <==> p in files)
  {
    match tempFile
    case None => files
    case Some(t) => if unlinkSucceeds then files - {t} else files + {t}
  }

  /** `NamedTemporaryFile` picks a name that does not exist yet. */
  predicate FreshTemp(files: set<string>, stem: string, page: int, ext: Externals) {
    page >= 1 ==> ext.tempBase + TempSuffix(SanitizeStem(stem), page) !in files
  }

  /** `pdf_to_images(pdf_path, page_number)`; `pdfName` and `stem` are
      `Path(pdf_path).name` and `Path(pdf_path).stem`. The steps of
      `PdfToImagesSpec` and `FilesAfter`, on which the lemmas below are stated. */
  method PdfToImages(
    fs: FileSystem, env: Cos.Environment, pdfPath: string, pdfName: string, stem: string,
    page: int, ext: Externals)
    returns (r: PageResult, ghost request: Option<Cos.UploadRequest>)
    requires Timestamp.Valid(ext.now)
    requires FreshTemp(fs.paths, stem, page, ext)
    modifies fs
    ensures var run := PdfToImagesSpec(old(fs.paths), env, pdfPath, pdfName, stem, page, ext);
      && r == run.result
      && request == run.request
      && fs.paths == FilesAfter(old(fs.paths), run.tempFile, ext.unlinkSucceeds)
  {
    ghost var files := fs.paths;
    var outcome, tempImagePath;
    outcome, tempImagePath, request := TryRenderAndUpload(fs, env, pdfPath, pdfName, stem, page, ext);
    // The `except` branch.
    if outcome.Success? {
      r := outcome.value;
    } else {
      var stillThere := fs.Exists(pdfPath);
      r := FailureRecord(outcome.error, if stillThere then pdfName else UnknownName);
    }
    // The `finally` branch; a failed unlink is swallowed.
    if tempImagePath.Some? && tempImagePath.value != "" {
      var present := fs.Exists(tempImagePath.value);
      if present {
        fs.Unlink(tempImagePath.value, ext.unlinkSucceeds);
      }
    }
  }

  /** The `try` block of `pdf_to_images`: the success record or the message
      of the exception raised, the value `temp_image_path` holds at that
      point, and the request the SDK received. The steps of `RenderStage`
      followed by `UploadStage`. */
  method TryRenderAndUpload(
    fs: FileSystem, env: Cos.Environment, pdfPath: string, pdfName: string, stem: string,
    page: int, ext: Externals)
    returns (outcome: Result<PageResult, string>, tempImagePath: Option<string>,
             ghost request: Option<Cos.UploadRequest>)
    requires Timestamp.Valid(ext.now)
    requires FreshTemp(fs.paths, stem, page, ext)
    modifies fs
    ensures var run := PdfToImagesSpec(old(fs.paths), env, pdfPath, pdfName, stem, page, ext);
      && tempImagePath == run.tempFile
      && request == run.request
      && (tempImagePath.Some? ==> tempImagePath.value != "" && fs.paths == old(fs.paths) + {tempImagePath.value})
      && (tempImagePath.None? ==> fs.paths == old(fs.paths))
      && (pdfPath !in old(fs.paths) ==> tempImagePath.None?)
      && (outcome.Success? ==> run.result == outcome.value)
      && (outcome.Failure? ==>
            run.result == FailureRecord(outcome.error, if pdfPath in old(fs.paths) then pdfName else UnknownName))
  {
    ghost var files := fs.paths;
    ghost var run := PdfToImagesSpec(files, env, pdfPath, pdfName, stem, page, ext);
    tempImagePath := None;
    request := None;
    var pdfExists := fs.Exists(pdfPath);
    if !pdfExists {
      outcome := Failure(MissingPdfPrefix + pdfPath);
    } else if ext.doc.Unreadable? {
      outcome := Failure(ext.doc.message);
    } else {
      var totalPages := ext.doc.count;
      if page < 1 || page > totalPages {
        outcome := Failure(RangeMessage(page, totalPages));
      } else if ext.renderError.Some? {
        outcome := Failure(ext.renderError.value);
      } else {
        var safeName := ReplaceUnsafe(stem);
        safeName := CollapseUnderscores(safeName);
        safeName := StripUnderscores(safeName);
        var path := ext.tempBase + TempSuffix(safeName, page);
        assert safeName == SanitizeStem(stem);
        assert run == UploadStage(files, env, pdfName, safeName, path, page, totalPages, ext);
        fs.CreateFile(path);
        tempImagePath := Some(path);
        if ext.saveError.Some? {
          outcome := Failure(ext.saveError.value);
        } else {
          var client := Cos.CosClient.Create(env, None, ext.sdkInitError);
          if client.Failure? {
            outcome := Failure(client.error);
          } else {
            var upload, sent := client.value.UploadFile(
              path, Some(PageKeyHint(safeName, page)), Some(ContentType), fs.paths, ext.now, ext.upload);
            request := sent;
            if !upload.Uploaded? {
              outcome := Failure(UploadFailedPrefix + upload.error);
            } else {
              outcome := Success(PageResult(None, pdfName, totalPages, page, page < totalPages, upload.url));
            }
          }
        }
      }
    }
  }

  // Properties of the tool.

  /** A missing file or a page outside `[1, total_pages]` gives the failure
      record; no temporary file is created and nothing is uploaded. */
  lemma InvalidRequestFails(
    files: set<string>, env: Cos.Environment, pdfPath: string, pdfName: string, stem: string,
    page: int, ext: Externals)
    requires Timestamp.Valid(ext.now)
    requires pdfPath !in files || (ext.doc.Pages? && (page < 1 || page > ext.doc.count))
    ensures var run := PdfToImagesSpec(files, env, pdfPath, pdfName, stem, page, ext);
      && run.result.error.Some?
      && run.result.totalPages == 0 && run.result.currentPage == 0
      && !run.result.hasNextPage && run.result.imageUrl == ""
      && run.tempFile.None? && run.request.None?
      && (pdfPath !in files ==>
            run.result.error == Some(ErrorPrefix + MissingPdfPrefix + pdfPath) && run.result.pdfName == UnknownName)
      && (pdfPath in files ==>
            run.result.error == Some(ErrorPrefix + RangeMessage(page, ext.doc.count)) && run.result.pdfName == pdfName)
  {
    assert ErrorPrefix + (MissingPdfPrefix + pdfPath) == ErrorPrefix + MissingPdfPrefix + pdfPath;
  }

  /** Every failure, whatever its cause, has the same shape. */
  lemma FailureRecordShape(
    files: set<string>, env: Cos.Environment, pdfPath: string, pdfName: string, stem: string,
    page: int, ext: Externals)
    requires Timestamp.Valid(ext.now)
    ensures var r := PdfToImagesSpec(files, env, pdfPath, pdfName, stem, page, ext).result;
      r.error.Some? ==>
        && ErrorPrefix <= r.error.value
        && r.totalPages == 0 && r.currentPage == 0 && !r.hasNextPage && r.imageUrl == ""
  {
    var stage := RenderStage(files, pdfPath, page, ext);
    if stage.Failure? {
      ErrorPrefixLeads(stage.error);
    } else {
      var safe := SanitizeStem(stem);
      var temp := ext.tempBase + TempSuffix(safe, page);
      var settings := Cos.ResolveSettings(env, None);
      if ext.saveError.Some? {
        ErrorPrefixLeads(ext.saveError.value);
      } else if settings.Failure? {
        ErrorPrefixLeads(settings.error);
      } else if ext.sdkInitError.Some? {
        ErrorPrefixLeads(ext.sdkInitError.value);
      } else {
        var up := Cos.UploadSpec(settings.value, temp, Some(PageKeyHint(safe, page)), Some(ContentType),
                                 files + {temp}, ext.now, ext.upload);
        if up.result.UploadFailed? {
          ErrorPrefixLeads(UploadFailedPrefix + up.result.error);
        }
      }
    }
  }

  lemma ErrorPrefixLeads(message: string)
    ensures ErrorPrefix <= ErrorPrefix + message
  {
    assert (ErrorPrefix + message)[..|ErrorPrefix|] == ErrorPrefix;
  }

  /** The tool succeeds exactly when the file exists, opens, the page is in
      range and renders, the image is saved, the client is configured and
      the upload completes. */
  lemma SucceedsIff(
    files: set<string>, env: Cos.Environment, pdfPath: string, pdfName: string, stem: string,
    page: int, ext: Externals)
    requires Timestamp.Valid(ext.now)
    ensures PdfToImagesSpec(files, env, pdfPath, pdfName, stem, page, ext).result.error.None? <==>
      && pdfPath in files
      && ext.doc.Pages? && 1 <= page <= ext.doc.count
      && ext.renderError.None? && ext.saveError.None?
      && Cos.ResolveSettings(env, None).Success? && ext.sdkInitError.None?
      && ext.upload.Completed?
  {
    if pdfPath in files && ext.doc.Pages? && 1 <= page <= ext.doc.count && ext.renderError.None?
       && ext.saveError.None? && Cos.ResolveSettings(env, None).Success? && ext.sdkInitError.None?
    {
      var safe := SanitizeStem(stem);
      var temp := ext.tempBase + TempSuffix(safe, page);
      Cos.UploadSucceedsIff(Cos.ResolveSettings(env, None).value, temp, Some(PageKeyHint(safe, page)),
                            Some(ContentType), files + {temp}, ext.now, ext.upload);
    }
  }

  /** On success the record reports the requested page of the document, says
      whether a later page exists, and links the object stored under
      `YYYYMMDD_HHMMSS_pdf_images/{safe}_page_{n}.png`. */
  lemma SuccessShape(
    files: set<string>, env: Cos.Environment, pdfPath: string, pdfName: string, stem: string,
    page: int, ext: Externals)
    requires Timestamp.Valid(ext.now)
    requires pdfPath in files && ext.doc.Pages? && 1 <= page <= ext.doc.count && ext.renderError.None?
    requires ext.saveError.None? && Cos.ResolveSettings(env, None).Success? && ext.sdkInitError.None?
    requires ext.upload.Completed?
    ensures var run := PdfToImagesSpec(files, env, pdfPath, pdfName, stem, page, ext);
      var s := Cos.ResolveSettings(env, None).value;
      var key := Cos.FinalKey(ext.now, PageKeyHint(SanitizeStem(stem), page));
      && run.result.error.None?
      && run.result.pdfName == pdfName
      && run.result.currentPage == page
      && run.result.totalPages == ext.doc.count
      && (run.result.hasNextPage <==> page < ext.doc.count)
      && run.result.imageUrl == Cos.ObjectUrl(s.bucketName, s.region, key)
      && run.request.Some? && run.request.value.key == key
      && run.request.value.contentType == Some(ContentType)
  {
    var run := PdfToImagesSpec(files, env, pdfPath, pdfName, stem, page, ext);
    var safe := SanitizeStem(stem);
    var temp := ext.tempBase + TempSuffix(safe, page);
    assert run == UploadStage(files, env, pdfName, safe, temp, page, ext.doc.count, ext);
  }

  /** A failed upload is reported with the storage client's classified
      message and an empty URL. */
  lemma UploadFailureReported(
    files: set<string>, env: Cos.Environment, pdfPath: string, pdfName: string, stem: string,
    page: int, ext: Externals)
    requires Timestamp.Valid(ext.now)
    requires pdfPath in files && ext.doc.Pages? && 1 <= page <= ext.doc.count && ext.renderError.None?
    requires ext.saveError.None? && Cos.ResolveSettings(env, None).Success? && ext.sdkInitError.None?
    requires !ext.upload.Completed?
    ensures var r := PdfToImagesSpec(files, env, pdfPath, pdfName, stem, page, ext).result;
      && r.error == Some(ErrorPrefix + UploadFailedPrefix + Cos.ErrorMessage(ext.upload))
      && r.imageUrl == "" && r.pdfName == pdfName
  {
    var run := PdfToImagesSpec(files, env, pdfPath, pdfName, stem, page, ext);
    var safe := SanitizeStem(stem);
    var temp := ext.tempBase + TempSuffix(safe, page);
    assert run == UploadStage(files, env, pdfName, safe, temp, page, ext.doc.count, ext);
    UploadStageFailure(files, env, pdfName, safe, temp, page, ext.doc.count, ext);
  }

  lemma UploadStageFailure(
    files: set<string>, env: Cos.Environment, pdfName: string, safe: string, temp: string,
    page: nat, total: nat, ext: Externals)
    requires Timestamp.Valid(ext.now)
    requires ext.saveError.None? && Cos.ResolveSettings(env, None).Success? && ext.sdkInitError.None?
    requires !ext.upload.Completed?
    ensures UploadStage(files, env, pdfName, safe, temp, page, total, ext).result ==
      PageResult(Some(ErrorPrefix + UploadFailedPrefix + Cos.ErrorMessage(ext.upload)), pdfName, 0, 0, false, "")
  {
    var message := Cos.ErrorMessage(ext.upload);
    assert ErrorPrefix + (UploadFailedPrefix + message) == ErrorPrefix + UploadFailedPrefix + message;
  }

  /** Once a temporary file has been created, it is gone when the tool
      returns unless the unlink itself failed; no other file changes. */
  lemma TempFileRemoved(
    files: set<string>, env: Cos.Environment, pdfPath: string, pdfName: string, stem: string,
    page: int, ext: Externals)
    requires Timestamp.Valid(ext.now)
    ensures var run := PdfToImagesSpec(files, env, pdfPath, pdfName, stem, page, ext);
      var after := FilesAfter(files, run.tempFile, ext.unlinkSucceeds);
      && (run.tempFile.Some? && ext.unlinkSucceeds ==> run.tempFile.value !in after)
      && (run.tempFile.None? ==> after == files)
      && (forall p :: (run.tempFile.None? || p != run.tempFile.value) ==> (p in after <==> p in files))
  {
  }

  /** Every file that existed before the call still exists after it, and the
      only file that may be added is the temporary one. */
  lemma OriginalFilesKept(
    files: set<string>, env: Cos.Environment, pdfPath: string, pdfName: string, stem: string,
    page: int, ext: Externals)
    requires Timestamp.Valid(ext.now)
    requires FreshTemp(files, stem, page, ext)
    ensures var run := PdfToImagesSpec(files, env, pdfPath, pdfName, stem, page, ext);
      var after := FilesAfter(files, run.tempFile, ext.unlinkSucceeds);
      && files <= after
      && (run.tempFile.None? ==> after == files)
      && (run.tempFile.Some? ==> after - files <= {run.tempFile.value})
  {
    var run := PdfToImagesSpec(files, env, pdfPath, pdfName, stem, page, ext);
    if run.tempFile.Some? {
      TempFileCreatedIff(files, env, pdfPath, pdfName, stem, page, ext);
    }
  }

  /** The temporary file is created exactly when the page passed validation
      and rendered, whatever happens to it afterwards; it is named after the
      sanitized stem and the page. */
  lemma TempFileCreatedIff(
    files: set<string>, env: Cos.Environment, pdfPath: string, pdfName: string, stem: string,
    page: int, ext: Externals)
    requires Timestamp.Valid(ext.now)
    ensures var run := PdfToImagesSpec(files, env, pdfPath, pdfName, stem, page, ext);
      && (run.tempFile.Some? <==>
            pdfPath in files && ext.doc.Pages? && 1 <= page <= ext.doc.count && ext.renderError.None?)
      && (run.tempFile.Some? ==> run.tempFile.value == ext.tempBase + TempSuffix(SanitizeStem(stem), page))
  {
    var run := PdfToImagesSpec(files, env, pdfPath, pdfName, stem, page, ext);
    if pdfPath in files && ext.doc.Pages? && 1 <= page <= ext.doc.count && ext.renderError.None? {
      var temp := ext.tempBase + TempSuffix(SanitizeStem(stem), page);
      assert run.tempFile == Some(temp);
    } else {
      assert run.tempFile.None?;
    }
  }

  /** A failure to save the image into the created file is reported, nothing
      is uploaded, and the file stays behind exactly when its unlink fails. */
  lemma SaveFailureReported(
    files: set<string>, env: Cos.Environment, pdfPath: string, pdfName: string, stem: string,
    page: int, ext: Externals)
    requires Timestamp.Valid(ext.now)
    requires pdfPath in files && ext.doc.Pages? && 1 <= page <= ext.doc.count && ext.renderError.None?
    requires ext.saveError.Some?
    ensures var run := PdfToImagesSpec(files, env, pdfPath, pdfName, stem, page, ext);
      var temp := ext.tempBase + TempSuffix(SanitizeStem(stem), page);
      && run.result == FailureRecord(ext.saveError.value, pdfName)
      && run.tempFile == Some(temp)
      && run.request.None?
      && (temp in FilesAfter(files, run.tempFile, ext.unlinkSucceeds) <==> !ext.unlinkSucceeds)
  {
    var run := PdfToImagesSpec(files, env, pdfPath, pdfName, stem, page, ext);
    var safe := SanitizeStem(stem);
    var temp := ext.tempBase + TempSuffix(safe, page);
    assert run == UploadStage(files, env, pdfName, safe, temp, page, ext.doc.count, ext);
  }

  /** The out-of-range message names the requested page and the page count
      unambiguously. */
  lemma RangeMessageInjective(p: int, t: nat, q: int, u: nat)
    requires RangeMessage(p, t) == RangeMessage(q, u)
    ensures p == q && t == u
  {
    var m := RangeMessage(p, t);
    var a, b := IntToDecimal(p), IntToDecimal(q);
    var n := |RangePrefix|;
    assert m == RangePrefix + a + RangeSeparator + NatToDecimal(t);
    assert m == RangePrefix + b + RangeSeparator + NatToDecimal(u);
    if |a| < |b| {
      assert m[n + |a|] == RangeSeparator[0];
      NoSeparatorInDecimal(q, |a|);
      assert false;
    } else if |b| < |a| {
      assert m[n + |b|] == RangeSeparator[0];
      NoSeparatorInDecimal(p, |b|);
      assert false;
    }
    assert a == m[n..n + |a|] == b;
    IntToDecimalInjective(p, q);
    assert NatToDecimal(t) == m[n + |a| + |RangeSeparator|..] == NatToDecimal(u);
    NatToDecimalInjective(t, u);
  }

  /** `str(i)` never holds the full-width comma that follows it. */
  lemma NoSeparatorInDecimal(i: int, k: nat)
    requires k < |IntToDecimal(i)|
    ensures IntToDecimal(i)[k] != RangeSeparator[0]
  {
    var r := IntToDecimal(i);
    if i < 0 && k > 0 {
      assert r[k] == r[1..][k - 1];
    }
  }

  /** The key hint names the sanitized stem and the page unambiguously. */
  lemma PageKeyHintInjective(a: string, n: nat, b: string, m: nat)
    requires PageKeyHint(a, n) == PageKeyHint(b, m)
    ensures a == b && n == m
  {
    HintName(a, n);
    HintName(b, m);
    PageNameInjective(a, n, b, m);
  }

  /** The name part of the hint, between the folder and `.png`. */
  lemma HintName(a: string, n: nat)
    ensures var k := PageKeyHint(a, n);
      |k| >= |ImageFolder| + 4 && k[|ImageFolder|..|k| - 4] == a + "_page_" + NatToDecimal(n)
  {
    var x := a + "_page_" + NatToDecimal(n);
    assert PageKeyHint(a, n) == ImageFolder + x + ".png";
  }

  /** `{safe}_page_{n}` determines the stem and the page. */
  lemma PageNameInjective(a: string, n: nat, b: string, m: nat)
    requires a + "_page_" + NatToDecimal(n) == b + "_page_" + NatToDecimal(m)
    ensures a == b && n == m
  {
    var x := a + "_page_" + NatToDecimal(n);
    var y := b + "_page_" + NatToDecimal(m);
    if |a| < |b| {
      UnderscoreNotInDigits(a, n, |b| + 5, x);
      assert false;
    } else if |b| < |a| {
      UnderscoreNotInDigits(b, m, |a| + 5, y);
      assert false;
    }
    assert a == x[..|a|] && b == y[..|b|];
    assert NatToDecimal(n) == x[|a| + 6..];
    assert NatToDecimal(m) == y[|b| + 6..];
    NatToDecimalInjective(n, m);
  }

  /** Past the last `_` of `safe_page_`, the hint holds only digits. */
  lemma UnderscoreNotInDigits(a: string, n: nat, i: int, x: string)
    requires x == a + "_page_" + NatToDecimal(n)
    requires |a| + 5 < i < |x|
    ensures x[i] != '_'
  {
    assert x[i] == NatToDecimal(n)[i - |a| - 6];
  }

  /** The double naming: the object is stored under the timestamp token, so
      `pdf_images/` is the second segment of the key, never the first. */
  lemma StoredKeyNotUnderImageFolder(
    files: set<string>, env: Cos.Environment, pdfPath: string, pdfName: string, stem: string,
    page: int, ext: Externals)
    requires Timestamp.Valid(ext.now)
    requires pdfPath in files && ext.doc.Pages? && 1 <= page <= ext.doc.count && ext.renderError.None?
    requires ext.saveError.None? && Cos.ResolveSettings(env, None).Success? && ext.sdkInitError.None?
    ensures var run := PdfToImagesSpec(files, env, pdfPath, pdfName, stem, page, ext);
      && run.request.Some?
      && !(ImageFolder <= run.request.value.key)
      && ImageFolder <= run.request.value.key[16..]
      && Timestamp.Parse(run.request.value.key[..15]) == Some(ext.now)
  {
    var run := PdfToImagesSpec(files, env, pdfPath, pdfName, stem, page, ext);
    var safe := SanitizeStem(stem);
    var temp := ext.tempBase + TempSuffix(safe, page);
    assert run == UploadStage(files, env, pdfName, safe, temp, page, ext.doc.count, ext);
    UploadStageRequest(files, env, pdfName, safe, temp, page, ext.doc.count, ext);
    TimestampedHintShape(ext.now, safe, page);
  }

  /** Once the image is saved and the client is configured, the SDK receives
      the timestamped page key and the PNG content type. */
  lemma UploadStageRequest(
    files: set<string>, env: Cos.Environment, pdfName: string, safe: string, temp: string,
    page: nat, total: nat, ext: Externals)
    requires Timestamp.Valid(ext.now)
    requires ext.saveError.None? && Cos.ResolveSettings(env, None).Success? && ext.sdkInitError.None?
    ensures var request := UploadStage(files, env, pdfName, safe, temp, page, total, ext).request;
      && request.Some?
      && request.value.key == Cos.FinalKey(ext.now, PageKeyHint(safe, page))
      && request.value.contentType == Some(ContentType)
  {
    var hint := PageKeyHint(safe, page);
    assert hint[0] == ImageFolder[0];
    Cos.UploadRequestShape(Cos.ResolveSettings(env, None).value, temp, Some(hint), Some(ContentType),
                           files + {temp}, ext.now, ext.upload);
  }

  lemma TimestampedHintShape(now: Timestamp.DateTime, safe: string, page: nat)
    requires Timestamp.Valid(now)
    ensures var key := Cos.FinalKey(now, PageKeyHint(safe, page));
      && !(ImageFolder <= key)
      && ImageFolder <= key[16..]
      && Timestamp.Parse(key[..15]) == Some(now)
  {
    var hint := PageKeyHint(safe, page);
    var key := Cos.FinalKey(now, hint);
    Cos.FinalKeyShape(now, hint);
    Cos.FinalKeyStartsWithDigit(now, hint);
    assert key[0] != ImageFolder[0];
    assert hint[..|ImageFolder|] == ImageFolder;
  }
}
