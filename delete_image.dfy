/**
 * The image-deletion endpoint: it derives an R2 object key from a public
 * image URL and decides whether to send a delete command for it, and with
 * which status the request is answered. The URL parser and the storage
 * service are outside the model: the parsed pathname (or the parser's
 * failure) and the outcome of the delete command are inputs.
 */
module DeleteImage {
  import opened Wrappers
  import opened JsString
  import opened Http
  import Cors

  /** `key.startsWith('/') ? key.substring(1) : key`, also `key.replace(/^\//, '')` */
  function StripLeadingSlash(p: string): (r: string)
    ensures StartsWith(p, "/") ==> r == p[1..]
    ensures !StartsWith(p, "/") ==> r == p
  {
    if |p| >= 1 && p[0] == '/' then p[1..] else p
  }

  /** What follows the first `d` of `s` (empty when there is none). */
  function AfterFirst(s: string, d: char): string {
    if s == [] then []
    else if s[0] == d then s[1..]
    else AfterFirst(s[1..], d)
  }

  /**
   * `extractR2Key(url)` given `new URL(url).pathname`; `None` for a URL the
   * parser rejects, which the source turns into `Error("URL inválida")`.
   */
  function ExtractR2Key(url: string, pathname: Option<string>): (r: Option<string>)
    ensures r.None? <==> pathname.None?
  {
    match pathname
    case None => None
    case Some(p) =>
      if Contains(url, ".r2.dev") then Some(StripLeadingSlash(p))
      else if Contains(p, "/") then
        var parts := Split(p, '/');
        if |parts| > 1 then Some(Join(parts[1..], '/')) else Some(StripLeadingSlash(p))
      else Some(StripLeadingSlash(p))
  }

  lemma ContainsChar(s: string, c: char)
    ensures Contains(s, [c]) <==> c in s
  {
    if c in s {
      var i :| 0 <= i < |s| && s[i] == c;
      assert OccursAt(s, [c], i);
    }
    if Contains(s, [c]) {
      var i :| 0 <= i <= |s| && OccursAt(s, [c], i);
      assert s[i] == s[i..i + 1][0];
    }
  }

  /** Splitting at a separator that occurs gives at least two pieces, and the tail joins to what follows it. */
  lemma {:induction false} SplitTail(s: string, d: char)
    requires d in s
    ensures |Split(s, d)| > 1
    ensures Join(Split(s, d)[1..], d) == AfterFirst(s, d)
  {
    var rest := Split(s[1..], d);
    if s[0] == d {
      assert Split(s, d)[1..] == rest;
      JoinSplit(s[1..], d);
    } else {
      assert d in s[1..];
      SplitTail(s[1..], d);
      assert Split(s, d)[1..] == rest[1..];
    }
  }

  /** The key is the pathname without its first `/`, or everything after its first `/`. */
  lemma ExtractR2KeyMeaning(url: string, p: string)
    ensures Contains(url, ".r2.dev") ==> ExtractR2Key(url, Some(p)) == Some(StripLeadingSlash(p))
    ensures !Contains(url, ".r2.dev") && '/' in p ==> ExtractR2Key(url, Some(p)) == Some(AfterFirst(p, '/'))
    ensures !Contains(url, ".r2.dev") && '/' !in p ==> ExtractR2Key(url, Some(p)) == Some(p)
  {
    ContainsChar(p, '/');
    if '/' in p {
      SplitTail(p, '/');
    }
  }

  /** For a hierarchical URL, whose pathname starts with `/`, every branch drops just that slash. */
  lemma KeyOfHierarchicalUrl(url: string, p: string)
    requires StartsWith(p, "/")
    ensures ExtractR2Key(url, Some(p)) == Some(p[1..])
  {
    ExtractR2KeyMeaning(url, p);
    assert p[0] == '/';
  }

  /** The error a failed delete command is rejected with. */
  datatype StoreError = StoreError(name: string, message: Option<string>)

  datatype DeleteBody =
    | NoContent
    | Failure(error: string)
    | Deleted(message: string, key: string)
    | NotR2(message: string)

  /**
   * The answer: status, CORS headers, JSON body, and the key a delete
   * command was sent for, if any.
   */
  datatype DeleteReply = DeleteReply(status: int, headers: map<string, string>, body: DeleteBody, sent: Option<string>)

  /** A URL the endpoint treats as an R2 URL. */
  predicate LooksLikeR2(url: string)
    ensures Contains(url, ".r2.dev") ==> LooksLikeR2(url)
  {
    // An occurrence of `.r2.dev` is followed, one place on, by an occurrence of `r2.dev`.
    assert forall i | 0 <= i <= |url| && OccursAt(url, ".r2.dev", i) :: OccursAt(url, "r2.dev", i + 1);
    Contains(url, "r2.dev") || Contains(url, "pub-")
  }

  /** Status and body for a delete command that was rejected (the `catch` block). */
  function StoreFailure(e: StoreError): (r: (int, string))
    ensures e.name == "NoSuchKey" || e.name == "NotFound" ==> r == (404, "La imagen no fue encontrada en R2")
    ensures e.name != "NoSuchKey" && e.name != "NotFound" ==>
      r == (500, if Truthy(e.message) then e.message.value else "Error interno del servidor")
  {
    if e.name == "NoSuchKey" || e.name == "NotFound" then (404, "La imagen no fue encontrada en R2")
    else (500, OrElse(e.message, "Error interno del servidor"))
  }

  /**
   * The R2 branch of the handler, given the key extracted from the URL (if
   * the URL parsed) and the storage service's answer to a delete command.
   */
  function DeleteR2(headers: map<string, string>, extracted: Option<string>, outcome: Option<StoreError>): (r: DeleteReply)
    ensures r.headers == headers
    ensures extracted.None? ==> r == DeleteReply(500, headers, Failure("URL inválida"), None)
    ensures extracted.Some? && Blank(extracted.value) ==> r.status == 400 && r.sent == None
    ensures r.sent.Some? <==> extracted.Some? && !Blank(extracted.value)
    ensures r.sent.Some? ==> r.sent == extracted
    ensures r.sent.Some? && outcome.None? ==>
      r.status == 200 && r.body == Deleted("Imagen eliminada de R2 correctamente", r.sent.value)
    ensures r.sent.Some? && outcome.Some? ==>
      (r.status, r.body) == (StoreFailure(outcome.value).0, Failure(StoreFailure(outcome.value).1))
  {
    match extracted
    case None => DeleteReply(500, headers, Failure("URL inválida"), None)
    case Some(key) =>
      if key == "" then DeleteReply(400, headers, Failure("No se pudo extraer la key de la URL"), None)
      else if Trim(key) == "" then
        TrimEmptyIffBlank(key);
        DeleteReply(400, headers, Failure("Key vacía"), None)
      else
        TrimEmptyIffBlank(key);
        DeleteKey(headers, key, outcome)
  }

  /** Sending the delete command for a key that is not blank, and reporting its outcome. */
  function DeleteKey(headers: map<string, string>, key: string, outcome: Option<StoreError>): (r: DeleteReply)
    ensures r.headers == headers && r.sent == Some(key)
    ensures outcome.None? ==> r.status == 200 && r.body == Deleted("Imagen eliminada de R2 correctamente", key)
    ensures outcome.Some? ==>
      (r.status, r.body) == (StoreFailure(outcome.value).0, Failure(StoreFailure(outcome.value).1))
  {
    match outcome
    case None => DeleteReply(200, headers, Deleted("Imagen eliminada de R2 correctamente", key), Some(key))
    case Some(e) =>
      var (status, message) := StoreFailure(e);
      DeleteReply(status, headers, Failure(message), Some(key))
  }

  /**
   * The handler. `pathname` is the parser's result for the `url` query
   * value and `outcome` the storage service's answer to a delete command.
   */
  function Handle(method_: string, originHeader: Option<string>, codespaces: Option<string>,
                  url: QueryValue, pathname: Option<string>, outcome: Option<StoreError>): (r: DeleteReply)
    ensures r.headers == Cors.CorsHeaders(Cors.RequestOrigin(originHeader), Cors.AllowedOrigins(codespaces))
    ensures method_ == "OPTIONS" ==> r.status == 204 && r.body == NoContent
    ensures method_ != "OPTIONS" && method_ != "DELETE" ==> r.status == 405 && r.sent == None
    ensures method_ == "DELETE" && (!url.One? || url.s == "") ==> r.status == 400 && r.sent == None
    ensures method_ == "DELETE" && url.One? && url.s != "" && !LooksLikeR2(url.s) ==> r.status == 200 && r.sent == None
    // For an R2 URL: an unparsable URL is a 500, a blank key a 400, and neither sends a delete.
    ensures method_ == "DELETE" && url.One? && url.s != "" && LooksLikeR2(url.s) ==>
      r == DeleteR2(r.headers, ExtractR2Key(url.s, pathname), outcome)
    // A delete is sent exactly for an R2 URL whose key is not blank, and for that key.
    ensures r.sent.Some? <==>
      method_ == "DELETE" && url.One? && url.s != "" && LooksLikeR2(url.s)
      && ExtractR2Key(url.s, pathname).Some? && !Blank(ExtractR2Key(url.s, pathname).value)
    ensures r.sent.Some? ==> r.sent == ExtractR2Key(url.s, pathname)
    // Success with a key is reported only when the delete command succeeded; a failure maps as `catch` does.
    ensures r.body.Deleted? <==> r.sent.Some? && outcome.None?
    ensures r.body.Deleted? ==> r.status == 200 && r.body.key == r.sent.value
    ensures r.sent.Some? && outcome.Some? ==>
      (r.status, r.body) == (StoreFailure(outcome.value).0, Failure(StoreFailure(outcome.value).1))
    ensures r.status in {200, 204, 400, 404, 405, 500}
  {
    var headers := Cors.CorsHeaders(Cors.RequestOrigin(originHeader), Cors.AllowedOrigins(codespaces));
    if method_ == "OPTIONS" then DeleteReply(204, headers, NoContent, None)
    else if method_ != "DELETE" then DeleteReply(405, headers, Failure("Método no permitido"), None)
    else if !url.One? || url.s == "" then DeleteReply(400, headers, Failure("URL válida requerida"), None)
    else if LooksLikeR2(url.s) then DeleteR2(headers, ExtractR2Key(url.s, pathname), outcome)
    else DeleteReply(200, headers, NotR2("URL no es de R2, no se requiere eliminación"), None)
  }

  /** A URL the parser rejects is answered with 500 and nothing is deleted. */
  lemma UnparsableR2Url(method_: string, originHeader: Option<string>, codespaces: Option<string>,
                        u: string, outcome: Option<StoreError>)
    requires method_ == "DELETE" && u != "" && LooksLikeR2(u)
    ensures var r := Handle(method_, originHeader, codespaces, One(u), None, outcome);
      r.status == 500 && r.body == Failure("URL inválida") && r.sent == None
  {
  }

  /** On a public `r2.dev` URL the object deleted is the pathname without its leading `/`. */
  lemma PublicUrlDeletesPath(originHeader: Option<string>, codespaces: Option<string>,
                             u: string, p: string, outcome: Option<StoreError>)
    requires Contains(u, ".r2.dev") && StartsWith(p, "/") && !Blank(p[1..])
    ensures Handle("DELETE", originHeader, codespaces, One(u), Some(p), outcome).sent == Some(p[1..])
  {
    KeyOfHierarchicalUrl(u, p);
  }
}
