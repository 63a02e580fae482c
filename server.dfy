/**
 * The express upload server: the image filter applied to incoming files,
 * the check of its R2 configuration, the naming of stored objects, the
 * `/upload` route and the final error handler. The multipart parser, the
 * clock, the random generator and the storage service are outside the
 * model: what they produce is an input.
 */
module Server {
  import opened Wrappers
  import opened JsString
  import opened Http

  const ImageTypes := ["jpeg", "jpg", "png", "gif", "webp"]
  const RequiredVars := ["R2_ACCOUNT_ID", "R2_ACCESS_KEY", "R2_SECRET_KEY", "R2_BUCKET", "R2_DEV_URL"]
  const OnlyImagesMessage := "Solo se permiten imágenes"

  /** A file as multer hands it over. */
  datatype MulterFile = MulterFile(originalname: string, mimetype: string)

  /** `/jpeg|jpg|png|gif|webp/.test(s)` */
  predicate NamesImageType(s: string) {
    exists t | t in ImageTypes :: Contains(s, t)
  }

  /**
   * multer's `fileFilter`: `None` accepts the file (`cb(null, true)`), and
   * otherwise the error it is rejected with.
   */
  function FileFilter(f: MulterFile): (r: Option<string>)
    ensures r.None? <==> NamesImageType(Lower(f.originalname)) && NamesImageType(f.mimetype)
    ensures r.Some? ==> r.value == OnlyImagesMessage
  {
    var extname := NamesImageType(Lower(f.originalname));
    var mimetype := NamesImageType(f.mimetype);
    if mimetype && extname then None else Some(OnlyImagesMessage)
  }

  /** The file name is compared without regard to ASCII case. */
  lemma FileFilterIgnoresNameCase(f: MulterFile)
    ensures FileFilter(f.(originalname := Lower(f.originalname))) == FileFilter(f)
  {
    LowerIdempotent(f.originalname);
  }

  /** The type names may occur anywhere in the file name, not only as its extension. */
  lemma FileFilterMatchesAnywhere()
    ensures FileFilter(MulterFile("png-notes.txt", "image/png")).None?
  {
    var low := Lower("png-notes.txt");
    assert low[0] == 'p' && low[1] == 'n' && low[2] == 'g';
    assert OccursAt(low, "png", 0);
    assert "png" in ImageTypes;
    assert OccursAt("image/png", "png", 6);
  }

  /** The MIME type, unlike the name, is compared with its case. */
  lemma FileFilterMimeCaseSensitive()
    ensures FileFilter(MulterFile("photo.png", "IMAGE/PNG")) == Some(OnlyImagesMessage)
  {
    var m := "IMAGE/PNG";
    AbsentCharNotContained(m, "jpeg", 'j');
    AbsentCharNotContained(m, "jpg", 'j');
    AbsentCharNotContained(m, "png", 'p');
    AbsentCharNotContained(m, "gif", 'g');
    AbsentCharNotContained(m, "webp", 'w');
  }

  /** A character `/[^a-zA-Z0-9.-]/` leaves alone. */
  predicate SafeChar(c: char) {
    ('a' <= c <= 'z') || ('A' <= c <= 'Z') || ('0' <= c <= '9') || c == '.' || c == '-'
  }

  /** `name.replace(/[^a-zA-Z0-9.-]/g, '_')` */
  function Sanitize(name: string): (r: string)
    ensures |r| == |name|
    ensures forall i | 0 <= i < |name| :: r[i] == (if SafeChar(name[i]) then name[i] else '_')
  {
    seq(|name|, i requires 0 <= i < |name| => if SafeChar(name[i]) then name[i] else '_')
  }

  /** The sanitized name is made of safe characters and `_` only. */
  lemma SanitizeClean(name: string)
    ensures forall c | c in Sanitize(name) :: SafeChar(c) || c == '_'
  {
    var r := Sanitize(name);
    forall c | c in r
      ensures SafeChar(c) || c == '_'
    {
      var i :| 0 <= i < |r| && r[i] == c;
    }
  }

  /** Sanitizing twice is sanitizing once, and a name of safe characters is kept as it is. */
  lemma SanitizeIdempotent(name: string)
    ensures Sanitize(Sanitize(name)) == Sanitize(name)
    ensures (forall i | 0 <= i < |name| :: SafeChar(name[i])) ==> Sanitize(name) == name
  {
  }

  /** `malim-${Date.now()}-${rand}-${sanitized name}` */
  function ObjectKey(now: nat, rand: string, originalname: string): (k: string)
    ensures StartsWith(k, "malim-")
    ensures |k| >= |Sanitize(originalname)| && k[|k| - |Sanitize(originalname)|..] == Sanitize(originalname)
  {
    "malim-" + DecimalString(now) + "-" + rand + "-" + Sanitize(originalname)
  }

  /** `${R2_DEV_URL}/${fileName}` */
  function PublicUrl(devUrl: string, key: string): (u: string)
    ensures |u| == |devUrl| + 1 + |key|
    ensures u[..|devUrl|] == devUrl && u[|devUrl|] == '/' && u[|devUrl| + 1..] == key
  {
    devUrl + "/" + key
  }

  /** At the same instant, keys with random parts of one length differ when the random parts or the names do. */
  lemma ObjectKeyInjective(now: nat, rand1: string, name1: string, rand2: string, name2: string)
    requires |rand1| == |rand2|
    requires ObjectKey(now, rand1, name1) == ObjectKey(now, rand2, name2)
    ensures rand1 == rand2 && Sanitize(name1) == Sanitize(name2)
  {
    var a := "malim-" + DecimalString(now) + "-";
    var k1, k2 := ObjectKey(now, rand1, name1), ObjectKey(now, rand2, name2);
    assert k1 == a + rand1 + "-" + Sanitize(name1);
    assert k2 == a + rand2 + "-" + Sanitize(name2);
    assert k1[|a|..|a| + |rand1|] == rand1;
    assert k2[|a|..|a| + |rand2|] == rand2;
    assert k1[|a| + |rand1| + 1..] == Sanitize(name1);
    assert k2[|a| + |rand2| + 1..] == Sanitize(name2);
  }

  /** `requiredVars.filter(v => !process.env[v])`, for the names `vars`. */
  function Missing(vars: seq<string>, env: map<string, string>): (r: seq<string>)
    ensures forall v | v in r :: v in vars
    ensures forall v {:trigger v in vars} | v in vars :: v in r <==> !(v in env && env[v] != "")
    ensures |r| <= |vars|
  {
    if vars == [] then []
    else
      var rest := Missing(vars[1..], env);
      assert vars == [vars[0]] + vars[1..];
      if vars[0] in env && env[vars[0]] != "" then rest else [vars[0]] + rest
  }

  /** Filtering a concatenation filters each part in turn, so `Missing` keeps the order of `vars`. */
  lemma {:induction false} MissingAppend(a: seq<string>, b: seq<string>, env: map<string, string>)
    ensures Missing(a + b, env) == Missing(a, env) + Missing(b, env)
  {
    if a == [] {
      assert a + b == b;
    } else {
      var x, t := a[0], a[1..];
      assert a == [x] + t;
      assert a + b == [x] + (t + b);
      MissingCons(x, t, env);
      MissingCons(x, t + b, env);
      MissingAppend(t, b, env);
    }
  }

  lemma MissingCons(x: string, t: seq<string>, env: map<string, string>)
    ensures Missing([x] + t, env) == Missing([x], env) + Missing(t, env)
  {
    var s := [x] + t;
    assert s[0] == x && s[1..] == t && [x][1..] == [];
  }

  /** A single variable is reported exactly when it is unset or empty. */
  lemma MissingSingle(v: string, env: map<string, string>)
    ensures Missing([v], env) == if v in env && env[v] != "" then [] else [v]
  {
    assert [v][1..] == [];
  }

  datatype FileError = FileError(file: string, error: Option<string>)

  /** The JSON bodies the server sends. */
  datatype ServerBody =
    | ConfigError(error: string, missing: seq<string>)
    | RouteError(error: string)
    | UploadSummary(urls: seq<string>, message: string, warnings: Option<seq<FileError>>)
    | HandlerError(errorText: Option<string>)   // `error`, left out of the JSON when undefined

  /** `validateEnvVars`: `None` lets the request through (`next()`). */
  function ValidateEnvVars(env: map<string, string>): (r: Option<(int, ServerBody)>)
    ensures r.None? <==> forall v | v in RequiredVars :: v in env && env[v] != ""
    ensures r.Some? ==>
      && r.value.0 == 500 && r.value.1.ConfigError?
      && r.value.1.error == "Configuración incompleta del servidor"
      && (forall v | v in r.value.1.missing :: v in RequiredVars && !(v in env && env[v] != ""))
      && (forall v | v in RequiredVars && !(v in env && env[v] != "") :: v in r.value.1.missing)
      && r.value.1.missing == Missing(RequiredVars, env)
  {
    var missing := Missing(RequiredVars, env);
    if |missing| > 0 then
      assert missing[0] in missing;
      Some((500, ConfigError("Configuración incompleta del servidor", missing))) else None
  }

  /** The storage service's answer to one put. */
  datatype PutOutcome = Sent | Failed(message: Option<string>)

  datatype PutCommand = PutCommand(bucket: string, key: string, contentType: string)

  // One file's part in the route: its command, its URL on success, its error on failure.

  function CommandFor(f: MulterFile, now: nat, rand: string, bucket: string): PutCommand {
    PutCommand(bucket, ObjectKey(now, rand, f.originalname), f.mimetype)
  }

  function UrlsOf(fs: seq<MulterFile>, nows: seq<nat>, rands: seq<string>, os: seq<PutOutcome>, devUrl: string): seq<string>
    requires |nows| == |fs| && |rands| == |fs| && |os| == |fs|
  {
    if fs == [] then []
    else
      var n := |fs| - 1;
      UrlsOf(fs[..n], nows[..n], rands[..n], os[..n], devUrl)
      + (if os[n].Sent? then [PublicUrl(devUrl, ObjectKey(nows[n], rands[n], fs[n].originalname))] else [])
  }

  function ErrorsOf(fs: seq<MulterFile>, os: seq<PutOutcome>): seq<FileError>
    requires |os| == |fs|
  {
    if fs == [] then []
    else
      var n := |fs| - 1;
      ErrorsOf(fs[..n], os[..n]) + (if os[n].Failed? then [FileError(fs[n].originalname, os[n].message)] else [])
  }

  function CommandsOf(fs: seq<MulterFile>, nows: seq<nat>, rands: seq<string>, bucket: string): (cs: seq<PutCommand>)
    requires |nows| == |fs| && |rands| == |fs|
    ensures |cs| == |fs|
  {
    if fs == [] then []
    else
      var n := |fs| - 1;
      CommandsOf(fs[..n], nows[..n], rands[..n], bucket) + [CommandFor(fs[n], nows[n], rands[n], bucket)]
  }

  /**
   * The uploads of the route, file by file. The source runs them
   * concurrently and records URLs and errors as they complete, so only
   * their multisets are promised; the commands go out in file order.
   */
  method UploadAll(files: seq<MulterFile>, nows: seq<nat>, rands: seq<string>, outcomes: seq<PutOutcome>,
                   bucket: string, devUrl: string)
    returns (urls: seq<string>, errors: seq<FileError>, commands: seq<PutCommand>)
    requires |nows| == |files| && |rands| == |files| && |outcomes| == |files|
    ensures commands == CommandsOf(files, nows, rands, bucket)
    ensures multiset(urls) == multiset(UrlsOf(files, nows, rands, outcomes, devUrl))
    ensures multiset(errors) == multiset(ErrorsOf(files, outcomes))
  {
    urls, errors, commands := [], [], [];
    var i := 0;
    while i < |files|
      invariant 0 <= i <= |files|
      invariant commands == CommandsOf(files[..i], nows[..i], rands[..i], bucket)
      invariant urls == UrlsOf(files[..i], nows[..i], rands[..i], outcomes[..i], devUrl)
      invariant errors == ErrorsOf(files[..i], outcomes[..i])
    {
      assert files[..i + 1][..i] == files[..i];
      assert nows[..i + 1][..i] == nows[..i];
      assert rands[..i + 1][..i] == rands[..i];
      assert outcomes[..i + 1][..i] == outcomes[..i];
      var file := files[i];
      var fileName := ObjectKey(nows[i], rands[i], file.originalname);
      commands := commands + [PutCommand(bucket, fileName, file.mimetype)];
      match outcomes[i] {
        case Sent =>
          urls := urls + [PublicUrl(devUrl, fileName)];
        case Failed(message) =>
          errors := errors + [FileError(file.originalname, message)];
      }
      i := i + 1;
    }
    assert files[..|files|] == files;
    assert nows[..|nows|] == nows;
    assert rands[..|rands|] == rands;
    assert outcomes[..|outcomes|] == outcomes;
  }

  /** Every file is either uploaded or reported, never both. */
  lemma {:induction false} EachFileReported(fs: seq<MulterFile>, nows: seq<nat>, rands: seq<string>, os: seq<PutOutcome>, devUrl: string)
    requires |nows| == |fs| && |rands| == |fs| && |os| == |fs|
    ensures |UrlsOf(fs, nows, rands, os, devUrl)| + |ErrorsOf(fs, os)| == |fs|
  {
    if fs != [] {
      var n := |fs| - 1;
      EachFileReported(fs[..n], nows[..n], rands[..n], os[..n], devUrl);
    }
  }

  /** Each URL points below `R2_DEV_URL` at the key of a file whose put was sent. */
  lemma {:induction false} UrlsNameSentFiles(fs: seq<MulterFile>, nows: seq<nat>, rands: seq<string>, os: seq<PutOutcome>, devUrl: string)
    requires |nows| == |fs| && |rands| == |fs| && |os| == |fs|
    ensures forall u | u in UrlsOf(fs, nows, rands, os, devUrl) ::
      exists i | 0 <= i < |fs| :: os[i] == Sent && u == PublicUrl(devUrl, ObjectKey(nows[i], rands[i], fs[i].originalname))
  {
    if fs != [] {
      var n := |fs| - 1;
      UrlsNameSentFiles(fs[..n], nows[..n], rands[..n], os[..n], devUrl);
      forall u | u in UrlsOf(fs, nows, rands, os, devUrl)
        ensures exists i | 0 <= i < |fs| :: os[i] == Sent && u == PublicUrl(devUrl, ObjectKey(nows[i], rands[i], fs[i].originalname))
      {
        if u in UrlsOf(fs[..n], nows[..n], rands[..n], os[..n], devUrl) {
          var i :| 0 <= i < n && os[..n][i] == Sent
            && u == PublicUrl(devUrl, ObjectKey(nows[..n][i], rands[..n][i], fs[..n][i].originalname));
          assert os[i] == os[..n][i] && nows[i] == nows[..n][i] && rands[i] == rands[..n][i] && fs[i] == fs[..n][i];
        } else {
          assert os[n] == Sent && u == PublicUrl(devUrl, ObjectKey(nows[n], rands[n], fs[n].originalname));
        }
      }
    }
  }

  /** The `/upload` summary message. */
  function UploadMessage(uploaded: nat, total: nat): string {
    "Subidos " + DecimalString(uploaded) + " de " + DecimalString(total) + " archivos"
  }

  /**
   * The `/upload` route once multer has accepted `files` (`None` when
   * `req.files` is not set). `nows` and `rands` are the clock reading and
   * the random part taken for each file, `outcomes` the storage service's
   * answers; the returned commands are the puts sent.
   */
  method Route(files: Option<seq<MulterFile>>, nows: seq<nat>, rands: seq<string>, outcomes: seq<PutOutcome>,
               bucket: string, devUrl: string, res: Response<ServerBody>)
    returns (commands: seq<PutCommand>)
    requires files.Some? ==> |nows| == |files.value| && |rands| == |files.value| && |outcomes| == |files.value|
    modifies res
    ensures res.headers == old(res.headers) && res.ended
    ensures files.None? || files.value == [] ==>
      res.statusCode == 400 && res.body == Some(RouteError("No se recibieron archivos")) && commands == []
    ensures files.Some? && files.value != [] ==>
      var fs := files.value;
      && commands == CommandsOf(fs, nows, rands, bucket)
      && res.statusCode == 200 && res.body.Some? && res.body.value.UploadSummary?
      && multiset(res.body.value.urls) == multiset(UrlsOf(fs, nows, rands, outcomes, devUrl))
      && res.body.value.message == UploadMessage(|UrlsOf(fs, nows, rands, outcomes, devUrl)|, |fs|)
      && (res.body.value.warnings.Some? <==> ErrorsOf(fs, outcomes) != [])
      && (res.body.value.warnings.Some? ==> multiset(res.body.value.warnings.value) == multiset(ErrorsOf(fs, outcomes)))
  {
    if files.None? || |files.value| == 0 {
      res.Json(400, RouteError("No se recibieron archivos"));
      return [];
    }
    var urls, errors;
    urls, errors, commands := UploadAll(files.value, nows, rands, outcomes, bucket, devUrl);
    assert |urls| == |multiset(urls)|;
    assert |errors| == |multiset(errors)|;
    assert |ErrorsOf(files.value, outcomes)| == |multiset(ErrorsOf(files.value, outcomes))|;
    var warnings := if |errors| > 0 then Some(errors) else None;
    res.Json(200, UploadSummary(urls, UploadMessage(|urls|, |files.value|), warnings));
  }

  /** The error a request fails with before the route answers. */
  datatype ServerError = MulterError(code: string, message: Option<string>) | OtherError(message: Option<string>)

  /** The final error handler; `nodeEnv` is `NODE_ENV`. */
  function HandleError(err: ServerError, nodeEnv: Option<string>): (r: (int, ServerBody))
    ensures err.MulterError? && err.code == "LIMIT_FILE_SIZE" ==> r == (400, RouteError("Archivo demasiado grande (máximo 10MB)"))
    ensures err.MulterError? && err.code == "LIMIT_FILE_COUNT" ==> r == (400, RouteError("Demasiados archivos (máximo 10)"))
    ensures !(err.MulterError? && err.code in {"LIMIT_FILE_SIZE", "LIMIT_FILE_COUNT"}) ==>
      r.0 == 500 && r.1 == HandlerError(if nodeEnv == Some("production") then Some("Error interno del servidor") else err.message)
  {
    if err.MulterError? && err.code == "LIMIT_FILE_SIZE" then (400, RouteError("Archivo demasiado grande (máximo 10MB)"))
    else if err.MulterError? && err.code == "LIMIT_FILE_COUNT" then (400, RouteError("Demasiados archivos (máximo 10)"))
    else (500, HandlerError(if nodeEnv == Some("production") then Some("Error interno del servidor") else err.message))
  }

  /** In production no error message of the program reaches the client. */
  lemma ProductionHidesMessages(err: ServerError)
    ensures var r := HandleError(err, Some("production"));
      r.1 in {RouteError("Archivo demasiado grande (máximo 10MB)"), RouteError("Demasiados archivos (máximo 10)"),
              HandlerError(Some("Error interno del servidor"))}
  {
  }

  /** A file the filter rejects reaches the client as a 500 carrying the filter's message outside production. */
  lemma FilterRejectionReply(f: MulterFile)
    requires FileFilter(f).Some?
    ensures HandleError(OtherError(FileFilter(f)), None) == (500, HandlerError(Some(OnlyImagesMessage)))
  {
  }
}
