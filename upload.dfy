/**
 * The serverless upload endpoint: each file of a multipart form is stored in
 * R2 under the name the client chose, and the reply lists the public URLs
 * and keys of the files that were stored. Parsing the form, reading the
 * temporary files and the storage service are outside the model: what they
 * produce is an input.
 */
module Upload {
  import opened Wrappers
  import opened JsString
  import opened Http
  import Cors

  const DefaultContentType := "application/octet-stream"
  const PublicRead := "public-read"
  const MissingBucketMessage := "La variable " + "R2_BUCKET_NAME " + "no está " + "configurada."
  const FileTooLargeMessage := "El tamaño de uno o más archivos excede el límite permitido (4MB por archivo)."

  /** A file as the form parser hands it over. */
  datatype FormFile = FormFile(filepath: string, originalFilename: Option<string>, mimetype: Option<string>)

  /** The `files` field of the parsed form: absent, one file, or several. */
  datatype FilesField = NoField | OneFile(file: FormFile) | FileList(files: seq<FormFile>)

  /** The form parser's result: the `files` field, or the error it rejected the request with. */
  datatype ParseResult = Parsed(field: FilesField) | ParseError(message: Option<string>)

  /** What happened to one file once its key was known. */
  datatype PutOutcome =
    | Stored
    | ReadFailed(message: Option<string>)   // the temporary file could not be read
    | SendFailed(message: Option<string>)   // the storage service rejected the command

  datatype PutCommand = PutCommand(bucket: string, key: string, contentType: string, acl: string)

  datatype UploadedResult = UploadedResult(url: string, key: string)

  datatype UploadBody =
    | Failure(error: string)
    | NoneUploaded(error: string, warnings: seq<string>)
    | Uploaded(urls: seq<string>, r2Keys: seq<string>, message: string, optionalWarnings: Option<seq<string>>)

  /** `Array.isArray(files.files) ? files.files : [files.files]`, or `[]` without the field. */
  function CollectFiles(field: FilesField): (files: seq<FormFile>)
    ensures field.NoField? ==> files == []
    ensures field.OneFile? ==> files == [field.file]
    ensures field.FileList? ==> files == field.files
  {
    match field
    case NoField => []
    case OneFile(f) => [f]
    case FileList(fs) => fs
  }

  /** A file the loop skips: it has no usable key. */
  predicate Skipped(f: FormFile)
    ensures f.originalFilename.None? || f.originalFilename == Some("") ==> Skipped(f)
    ensures Skipped(f) ==> f.originalFilename.None? || f.originalFilename == Some("")
  {
    !Truthy(f.originalFilename)
  }

  /** `https://${R2_CUSTOM_DOMAIN}/${r2Key}` */
  function PublicUrl(domain: Option<string>, key: string): (u: string)
    ensures StartsWith(u, "https://")
    ensures |u| > |key| && u[|u| - |key| - 1..] == "/" + key
  {
    "https://" + Interpolate(domain) + "/" + key
  }

  // What one iteration of the loop contributes to each of its outputs.

  function ResultOf(f: FormFile, o: PutOutcome, domain: Option<string>): seq<UploadedResult> {
    if !Skipped(f) && o.Stored? then [UploadedResult(PublicUrl(domain, f.originalFilename.value), f.originalFilename.value)] else []
  }

  /** The warning for a file sent without a key. */
  function SkipWarning(tempPath: string): string {
    "Archivo omitido: Missing R2 Key para archivo temporal en " + tempPath
  }

  /** The warning for a file whose reading or storing failed. */
  function FailWarning(r2Key: string, message: Option<string>): string {
    "Fallo al subir " + r2Key + ". Error: " + Interpolate(message)
  }

  function ErrorOf(f: FormFile, o: PutOutcome): seq<string> {
    if Skipped(f) then [SkipWarning(f.filepath)]
    else if o.Stored? then []
    else [FailWarning(f.originalFilename.value, o.message)]
  }

  function CommandOf(f: FormFile, o: PutOutcome, bucket: string): seq<PutCommand> {
    if Skipped(f) || o.ReadFailed? then []
    else [PutCommand(bucket, f.originalFilename.value, OrElse(f.mimetype, DefaultContentType), PublicRead)]
  }

  function CleanupOf(f: FormFile): seq<string> {
    if Skipped(f) then [] else [f.filepath]
  }

  // The loop's outputs after the files `fs`, whose outcomes are `os`.

  function Results(fs: seq<FormFile>, os: seq<PutOutcome>, domain: Option<string>): seq<UploadedResult>
    requires |fs| == |os|
  {
    if fs == [] then [] else Results(fs[..|fs| - 1], os[..|os| - 1], domain) + ResultOf(fs[|fs| - 1], os[|os| - 1], domain)
  }

  function Errors(fs: seq<FormFile>, os: seq<PutOutcome>): seq<string>
    requires |fs| == |os|
  {
    if fs == [] then [] else Errors(fs[..|fs| - 1], os[..|os| - 1]) + ErrorOf(fs[|fs| - 1], os[|os| - 1])
  }

  function Commands(fs: seq<FormFile>, os: seq<PutOutcome>, bucket: string): seq<PutCommand>
    requires |fs| == |os|
  {
    if fs == [] then [] else Commands(fs[..|fs| - 1], os[..|os| - 1], bucket) + CommandOf(fs[|fs| - 1], os[|os| - 1], bucket)
  }

  function Cleanups(fs: seq<FormFile>): seq<string> {
    if fs == [] then [] else Cleanups(fs[..|fs| - 1]) + CleanupOf(fs[|fs| - 1])
  }

  /**
   * One iteration of the loop: a file without a key is skipped with a
   * warning; otherwise it is read, sent and its temporary file removed.
   */
  method UploadOne(file: FormFile, outcome: PutOutcome, bucket: string, domain: Option<string>)
    returns (result: seq<UploadedResult>, error: seq<string>, command: seq<PutCommand>, cleanup: seq<string>)
    ensures result == ResultOf(file, outcome, domain) && error == ErrorOf(file, outcome)
    ensures command == CommandOf(file, outcome, bucket) && cleanup == CleanupOf(file)
  {
    result, error, command, cleanup := [], [], [], [];
    var tempPath := file.filepath;
    var r2Key := file.originalFilename;
    if !Truthy(r2Key) {
      error := [SkipWarning(tempPath)];
      return;
    }
    match outcome {
      case ReadFailed(message) =>
        error := [FailWarning(r2Key.value, message)];
      case SendFailed(message) =>
        command := [PutCommand(bucket, r2Key.value, OrElse(file.mimetype, DefaultContentType), PublicRead)];
        error := [FailWarning(r2Key.value, message)];
      case Stored =>
        command := [PutCommand(bucket, r2Key.value, OrElse(file.mimetype, DefaultContentType), PublicRead)];
        result := [UploadedResult(PublicUrl(domain, r2Key.value), r2Key.value)];
    }
    cleanup := [tempPath];
  }

  /** The per-file loop of the handler. */
  method UploadEach(files: seq<FormFile>, outcomes: seq<PutOutcome>, bucket: string, domain: Option<string>)
    returns (results: seq<UploadedResult>, errors: seq<string>, commands: seq<PutCommand>, cleanups: seq<string>)
    requires |outcomes| == |files|
    ensures results == Results(files, outcomes, domain)
    ensures errors == Errors(files, outcomes)
    ensures commands == Commands(files, outcomes, bucket)
    ensures cleanups == Cleanups(files)
  {
    results, errors, commands, cleanups := [], [], [], [];
    var i := 0;
    while i < |files|
      invariant 0 <= i <= |files|
      invariant results == Results(files[..i], outcomes[..i], domain)
      invariant errors == Errors(files[..i], outcomes[..i])
      invariant commands == Commands(files[..i], outcomes[..i], bucket)
      invariant cleanups == Cleanups(files[..i])
    {
      UploadStep(files, outcomes, i, bucket, domain);
      var result, error, command, cleanup := UploadOne(files[i], outcomes[i], bucket, domain);
      results, errors, commands, cleanups := results + result, errors + error, commands + command, cleanups + cleanup;
      i := i + 1;
    }
    assert files[..|files|] == files;
    assert outcomes[..|outcomes|] == outcomes;
  }

  /** What the loop's outputs gain from file `i`. */
  lemma UploadStep(fs: seq<FormFile>, os: seq<PutOutcome>, i: nat, bucket: string, domain: Option<string>)
    requires |fs| == |os| && i < |fs|
    ensures Results(fs[..i + 1], os[..i + 1], domain) == Results(fs[..i], os[..i], domain) + ResultOf(fs[i], os[i], domain)
    ensures Errors(fs[..i + 1], os[..i + 1]) == Errors(fs[..i], os[..i]) + ErrorOf(fs[i], os[i])
    ensures Commands(fs[..i + 1], os[..i + 1], bucket) == Commands(fs[..i], os[..i], bucket) + CommandOf(fs[i], os[i], bucket)
    ensures Cleanups(fs[..i + 1]) == Cleanups(fs[..i]) + CleanupOf(fs[i])
  {
    assert fs[..i + 1][..i] == fs[..i];
    assert os[..i + 1][..i] == os[..i];
  }

  /** Every file ends up either among the results or among the warnings, never both. */
  lemma {:induction false} EachFileAccounted(fs: seq<FormFile>, os: seq<PutOutcome>, domain: Option<string>)
    requires |fs| == |os|
    ensures |Results(fs, os, domain)| + |Errors(fs, os)| == |fs|
  {
    if fs != [] {
      EachFileAccounted(fs[..|fs| - 1], os[..|os| - 1], domain);
    }
  }

  /** Each result is a stored file: its key is the client's file name and its URL the custom domain's. */
  lemma {:induction false} ResultsAreStoredFiles(fs: seq<FormFile>, os: seq<PutOutcome>, domain: Option<string>)
    requires |fs| == |os|
    ensures forall r | r in Results(fs, os, domain) ::
      r.url == PublicUrl(domain, r.key) && r.key != ""
      && exists i | 0 <= i < |fs| :: fs[i].originalFilename == Some(r.key) && os[i] == Stored
  {
    if fs != [] {
      var n := |fs| - 1;
      ResultsAreStoredFiles(fs[..n], os[..n], domain);
      forall r | r in Results(fs, os, domain)
        ensures exists i | 0 <= i < |fs| :: fs[i].originalFilename == Some(r.key) && os[i] == Stored
      {
        if r in Results(fs[..n], os[..n], domain) {
          var i :| 0 <= i < n && fs[..n][i].originalFilename == Some(r.key) && os[..n][i] == Stored;
          assert fs[i] == fs[..n][i];
        } else {
          assert fs[n].originalFilename == Some(r.key) && os[n] == Stored;
        }
      }
    }
  }

  /** Only files with a key are sent, only those that were read, and each one is cleaned up afterwards. */
  lemma {:induction false} CommandsOnlyForKeyedFiles(fs: seq<FormFile>, os: seq<PutOutcome>, bucket: string, domain: Option<string>)
    requires |fs| == |os|
    ensures |Results(fs, os, domain)| <= |Commands(fs, os, bucket)| <= |Cleanups(fs)|
    ensures forall c | c in Commands(fs, os, bucket) :: c.bucket == bucket && c.acl == PublicRead && c.key != ""
  {
    if fs != [] {
      CommandsOnlyForKeyedFiles(fs[..|fs| - 1], os[..|os| - 1], bucket, domain);
    }
  }

  /** A file skipped for its missing name leaves its temporary file behind. */
  lemma {:induction false} SkippedFilesNotCleaned(fs: seq<FormFile>)
    ensures forall p | p in Cleanups(fs) :: exists i | 0 <= i < |fs| :: fs[i].filepath == p && !Skipped(fs[i])
  {
    if fs != [] {
      var n := |fs| - 1;
      SkippedFilesNotCleaned(fs[..n]);
      forall p | p in Cleanups(fs)
        ensures exists i | 0 <= i < |fs| :: fs[i].filepath == p && !Skipped(fs[i])
      {
        if p in Cleanups(fs[..n]) {
          var i :| 0 <= i < n && fs[..n][i].filepath == p && !Skipped(fs[..n][i]);
          assert fs[i] == fs[..n][i];
        } else {
          assert fs[n].filepath == p && !Skipped(fs[n]);
        }
      }
    }
  }

  /** The `catch` block's message: formidable's size error is rephrased, others passed on. */
  function ErrorMessage(message: Option<string>): (m: string)
    ensures Truthy(message) && Contains(message.value, "maxFileSize") ==> m == FileTooLargeMessage
    ensures !(Truthy(message) && Contains(message.value, "maxFileSize")) ==> m == OrElse(message, "Error interno del servidor.")
    ensures m != ""
  {
    if Truthy(message) && Contains(message.value, "maxFileSize") then FileTooLargeMessage
    else OrElse(message, "Error interno del servidor.")
  }

  function Urls(results: seq<UploadedResult>): (urls: seq<string>)
    ensures |urls| == |results| && forall i | 0 <= i < |results| :: urls[i] == results[i].url
  {
    seq(|results|, i requires 0 <= i < |results| => results[i].url)
  }

  function Keys(results: seq<UploadedResult>): (keys: seq<string>)
    ensures |keys| == |results| && forall i | 0 <= i < |results| :: keys[i] == results[i].key
  {
    seq(|results|, i requires 0 <= i < |results| => results[i].key)
  }

  /** The reply once the loop has run over `fileCount` files. */
  function Summary(results: seq<UploadedResult>, errors: seq<string>, fileCount: nat): (r: (int, UploadBody))
    ensures results == [] ==> r == (500, NoneUploaded("Ningún archivo pudo ser subido a R2.", errors))
    ensures results != [] ==> r.0 == 200 && r.1.Uploaded?
    ensures results != [] ==> r.1.urls == Urls(results) && r.1.r2Keys == Keys(results)
    ensures results != [] ==> (r.1.optionalWarnings.Some? <==> errors != []) && (r.1.optionalWarnings.Some? ==> r.1.optionalWarnings.value == errors)
  {
    if results == [] then (500, NoneUploaded("Ningún archivo pudo ser subido a R2.", errors))
    else
      var message := "Subidos " + DecimalString(|results|) + " de " + DecimalString(fileCount) + " archivos a R2.";
      (200, Uploaded(Urls(results), Keys(results), message, if |errors| > 0 then Some(errors) else None))
  }

  /**
   * The handler. `outcomes` gives, file by file, what reading and storing it
   * came to; `bucket` and `domain` are `R2_BUCKET_NAME` and `R2_CUSTOM_DOMAIN`.
   * The returned commands and temporary paths are the effects on R2 and on
   * the file system.
   */
  method Handle(method_: string, originHeader: Option<string>, codespaces: Option<string>, parsed: ParseResult,
                bucket: Option<string>, domain: Option<string>, outcomes: seq<PutOutcome>, res: Response<UploadBody>)
    returns (commands: seq<PutCommand>, cleanups: seq<string>)
    requires parsed.Parsed? ==> |outcomes| == |CollectFiles(parsed.field)|
    modifies res
    ensures res.headers == old(res.headers) + Cors.CorsHeaders(Cors.RequestOrigin(originHeader), Cors.AllowedOrigins(codespaces))
    ensures method_ == "OPTIONS" ==> res.statusCode == 204 && res.ended && res.body == old(res.body) && commands == [] && cleanups == []
    ensures method_ != "OPTIONS" ==> res.ended && res.body.Some?
    ensures method_ != "OPTIONS" && method_ != "POST" ==>
      res.statusCode == 405 && res.body == Some(Failure("Method not allowed")) && commands == []
    ensures method_ == "POST" && parsed.ParseError? ==>
      res.statusCode == 500 && res.body == Some(Failure(ErrorMessage(parsed.message))) && commands == []
    ensures method_ == "POST" && parsed.Parsed? && CollectFiles(parsed.field) == [] ==>
      res.statusCode == 400 && res.body == Some(Failure("No files found in the request.")) && commands == []
    ensures method_ == "POST" && parsed.Parsed? && CollectFiles(parsed.field) != [] && !Truthy(bucket) ==>
      res.statusCode == 500 && res.body == Some(Failure(MissingBucketMessage)) && commands == []
    ensures method_ == "POST" && parsed.Parsed? && CollectFiles(parsed.field) != [] && Truthy(bucket) ==>
      var files := CollectFiles(parsed.field);
      && commands == Commands(files, outcomes, bucket.value)
      && cleanups == Cleanups(files)
      && (res.statusCode, res.body.value) == Summary(Results(files, outcomes, domain), Errors(files, outcomes), |files|)
  {
    commands, cleanups := [], [];
    Cors.SetCors(originHeader, codespaces, res);
    var handled := Cors.HandlePreflight(method_, originHeader, codespaces, res);
    if handled {
      return;
    }
    if method_ != "POST" {
      res.Json(405, Failure("Method not allowed"));
      return;
    }
    if parsed.ParseError? {
      res.Json(500, Failure(ErrorMessage(parsed.message)));
      return;
    }
    var allFiles := CollectFiles(parsed.field);
    if |allFiles| == 0 {
      res.Json(400, Failure("No files found in the request."));
      return;
    }
    if !Truthy(bucket) {
      MissingBucketMessageKept();
      res.Json(500, Failure(ErrorMessage(Some(MissingBucketMessage))));
      return;
    }
    var results, errors;
    results, errors, commands, cleanups := UploadEach(allFiles, outcomes, bucket.value, domain);
    var (status, body) := Summary(results, errors, |allFiles|);
    res.Json(status, body);
  }

  /** With a successful reply the i-th URL is the public URL of the i-th key, and every file is counted. */
  lemma SuccessReply(fs: seq<FormFile>, os: seq<PutOutcome>, domain: Option<string>)
    requires |fs| == |os|
    requires Summary(Results(fs, os, domain), Errors(fs, os), |fs|).0 == 200
    ensures var body := Summary(Results(fs, os, domain), Errors(fs, os), |fs|).1;
      && |body.urls| == |body.r2Keys| > 0
      && (forall i | 0 <= i < |body.urls| :: body.urls[i] == PublicUrl(domain, body.r2Keys[i]))
      && |body.urls| + (if body.optionalWarnings.Some? then |body.optionalWarnings.value| else 0) == |fs|
  {
    var results := Results(fs, os, domain);
    ResultsAreStoredFiles(fs, os, domain);
    EachFileAccounted(fs, os, domain);
    forall i | 0 <= i < |results|
      ensures results[i].url == PublicUrl(domain, results[i].key)
    {
      assert results[i] in results;
    }
  }

  /** The missing-bucket error text contains no `maxFileSize`, so it reaches the client unchanged. */
  lemma MissingBucketMessageKept()
    ensures ErrorMessage(Some(MissingBucketMessage)) == MissingBucketMessage
  {
    assert 'x' in "maxFileSize" && 'x' !in MissingBucketMessage;
    AbsentCharNotContained(MissingBucketMessage, "maxFileSize", 'x');
  }
}
