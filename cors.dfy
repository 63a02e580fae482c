/**
 * The shared CORS helper: which origins are echoed back, the headers every
 * API response then carries, and the answer to a preflight request. The
 * response object is a `Response` whose header map and status the helpers
 * update in place.
 */
module Cors {
  import opened Wrappers
  import opened JsString
  import opened Http

  const GithubPagesOrigin := "https://ecaballerocode.github.io"
  const GithubAppOrigin := "https://ecaballerocode.github.io/malim-app"
  const LocalOrigin := "http://localhost:3000"
  const AllowMethods := "GET,POST,OPTIONS"
  const AllowHeaders := "Content-Type, Authorization"

  /** `values.filter(Boolean)` over strings that may be `undefined`. */
  function FilterTruthy(values: seq<Option<string>>): (r: seq<string>)
    ensures forall s :: s in r <==> Some(s) in values && s != ""
    ensures |r| <= |values|
  {
    if values == [] then []
    else
      var rest := FilterTruthy(values[1..]);
      assert values == [values[0]] + values[1..];
      if Truthy(values[0]) then [values[0].value] + rest else rest
  }

  /** Filtering a concatenation filters each part, so the survivors keep their order. */
  lemma {:induction false} FilterTruthyAppend(a: seq<Option<string>>, b: seq<Option<string>>)
    ensures FilterTruthy(a + b) == FilterTruthy(a) + FilterTruthy(b)
  {
    if a != [] {
      assert (a + b)[0] == a[0];
      assert (a + b)[1..] == a[1..] + b;
      FilterTruthyAppend(a[1..], b);
    } else {
      assert a + b == b;
    }
  }

  /** A single value survives exactly when it is a non-empty string. */
  lemma FilterTruthySingle(v: Option<string>)
    ensures FilterTruthy([v]) == if Truthy(v) then [v.value] else []
  {
    assert [v][1..] == [];
  }

  /** The allow-list, with the optional `CODESPACES_ORIGIN` last. */
  function AllowedOrigins(codespaces: Option<string>): seq<string> {
    FilterTruthy([Some(GithubPagesOrigin), Some(GithubAppOrigin), Some(LocalOrigin), codespaces])
  }

  /** `req.headers.origin || ""` */
  function RequestOrigin(header: Option<string>): string {
    OrElse(header, "")
  }

  /** `allowed.some(a => origin.startsWith(a))` */
  predicate IsAllowed(origin: string, allowed: seq<string>)
    ensures origin in allowed ==> IsAllowed(origin, allowed)
    ensures allowed == [] ==> !IsAllowed(origin, allowed)
  {
    assert origin in allowed ==> StartsWith(origin, origin);
    exists a | a in allowed :: StartsWith(origin, a)
  }

  /** The allow-list in order: the three fixed origins, then `CODESPACES_ORIGIN` when set. */
  lemma AllowedOriginsOrder(codespaces: Option<string>)
    ensures AllowedOrigins(codespaces)
      == [GithubPagesOrigin, GithubAppOrigin, LocalOrigin] + (if Truthy(codespaces) then [codespaces.value] else [])
  {
    FilterFixedThenOptional(GithubPagesOrigin, GithubAppOrigin, LocalOrigin, codespaces);
  }

  lemma FilterFixedThenOptional(a: string, b: string, c: string, d: Option<string>)
    requires a != "" && b != "" && c != ""
    ensures FilterTruthy([Some(a), Some(b), Some(c), d]) == [a, b, c] + (if Truthy(d) then [d.value] else [])
  {
    FilterTwo(b, c, d);
    FilterTruthyCons(Some(a), [Some(b), Some(c), d]);
    assert [Some(a), Some(b), Some(c), d] == [Some(a)] + [Some(b), Some(c), d];
  }

  lemma FilterTwo(b: string, c: string, d: Option<string>)
    requires b != "" && c != ""
    ensures FilterTruthy([Some(b), Some(c), d]) == [b, c] + (if Truthy(d) then [d.value] else [])
  {
    FilterOne(c, d);
    FilterTruthyCons(Some(b), [Some(c), d]);
    assert [Some(b), Some(c), d] == [Some(b)] + [Some(c), d];
  }

  lemma FilterOne(c: string, d: Option<string>)
    requires c != ""
    ensures FilterTruthy([Some(c), d]) == [c] + (if Truthy(d) then [d.value] else [])
  {
    FilterTruthySingle(d);
    FilterTruthyCons(Some(c), [d]);
    assert [Some(c), d] == [Some(c)] + [d];
  }

  /** A non-empty string in front survives in front. */
  lemma FilterTruthyCons(v: Option<string>, rest: seq<Option<string>>)
    ensures FilterTruthy([v] + rest) == (if Truthy(v) then [v.value] else []) + FilterTruthy(rest)
  {
    assert ([v] + rest)[0] == v;
    assert ([v] + rest)[1..] == rest;
  }

  /** The headers `setCORS` writes for this origin. */
  function CorsHeaders(origin: string, allowed: seq<string>): (h: map<string, string>)
    ensures "Access-Control-Allow-Methods" in h && h["Access-Control-Allow-Methods"] == AllowMethods
    ensures "Access-Control-Allow-Headers" in h && h["Access-Control-Allow-Headers"] == AllowHeaders
    ensures "Access-Control-Allow-Origin" in h <==> IsAllowed(origin, allowed)
    ensures "Access-Control-Allow-Origin" in h ==> h["Access-Control-Allow-Origin"] == origin
    ensures "Access-Control-Allow-Credentials" in h <==> IsAllowed(origin, allowed)
    ensures "Access-Control-Allow-Credentials" in h ==> h["Access-Control-Allow-Credentials"] == "true"
    ensures "Vary" in h <==> IsAllowed(origin, allowed)
    ensures "Vary" in h ==> h["Vary"] == "Origin"
    ensures h.Keys <= {"Access-Control-Allow-Origin", "Vary", "Access-Control-Allow-Credentials",
                       "Access-Control-Allow-Methods", "Access-Control-Allow-Headers"}
  {
    if IsAllowed(origin, allowed) then
      var h := map["Access-Control-Allow-Origin" := origin, "Vary" := "Origin", "Access-Control-Allow-Credentials" := "true",
                   "Access-Control-Allow-Methods" := AllowMethods, "Access-Control-Allow-Headers" := AllowHeaders];
      h
    else
      var h := map["Access-Control-Allow-Methods" := AllowMethods, "Access-Control-Allow-Headers" := AllowHeaders];
      h
  }

  /** `setCORS(req, res)`: adds the CORS headers and nothing else. */
  method SetCors<B>(originHeader: Option<string>, codespaces: Option<string>, res: Response<B>)
    modifies res
    ensures res.headers == old(res.headers) + CorsHeaders(RequestOrigin(originHeader), AllowedOrigins(codespaces))
    ensures res.statusCode == old(res.statusCode) && res.ended == old(res.ended) && res.body == old(res.body)
  {
    var allowed := AllowedOrigins(codespaces);
    var origin := RequestOrigin(originHeader);
    WriteCorsHeaders(origin, allowed, res);
  }

  /** The header writes of `setCORS` once the origin and the allow-list are known. */
  method WriteCorsHeaders<B>(origin: string, allowed: seq<string>, res: Response<B>)
    modifies res
    ensures res.headers == old(res.headers) + CorsHeaders(origin, allowed)
    ensures res.statusCode == old(res.statusCode) && res.ended == old(res.ended) && res.body == old(res.body)
  {
    var isAllowed := IsAllowed(origin, allowed);
    if isAllowed {
      res.SetHeader("Access-Control-Allow-Origin", origin);
      res.SetHeader("Vary", "Origin");
      res.SetHeader("Access-Control-Allow-Credentials", "true");
    }
    res.SetHeader("Access-Control-Allow-Methods", AllowMethods);
    res.SetHeader("Access-Control-Allow-Headers", AllowHeaders);
  }

  /** `handlePreflight(req, res)`: an OPTIONS request is answered with 204 and ended. */
  method HandlePreflight<B>(method_: string, originHeader: Option<string>, codespaces: Option<string>, res: Response<B>)
    returns (handled: bool)
    modifies res
    ensures handled <==> method_ == "OPTIONS"
    ensures res.headers == old(res.headers) + CorsHeaders(RequestOrigin(originHeader), AllowedOrigins(codespaces))
    ensures handled ==> res.statusCode == 204 && res.ended
    ensures !handled ==> res.statusCode == old(res.statusCode) && res.ended == old(res.ended)
    ensures res.body == old(res.body)
  {
    SetCors(originHeader, codespaces, res);
    if method_ == "OPTIONS" {
      res.statusCode := 204;
      res.End();
      return true;
    }
    return false;
  }

  /** Calling `setCORS` a second time leaves the headers as they were. */
  lemma CorsHeadersIdempotent(h: map<string, string>, origin: string, allowed: seq<string>)
    ensures var c := CorsHeaders(origin, allowed); (h + c) + c == h + c
  {
  }

  /** A request without an `Origin` header is never granted an origin. */
  lemma NoOriginNotAllowed(codespaces: Option<string>)
    ensures !IsAllowed(RequestOrigin(None), AllowedOrigins(codespaces))
  {
    var allowed := AllowedOrigins(codespaces);
    forall a | a in allowed
      ensures !StartsWith("", a)
    {
      assert a != "";
    }
  }

  /** Each configured origin is allowed, `CODESPACES_ORIGIN` only when set. */
  lemma ConfiguredOriginsAllowed(codespaces: Option<string>)
    ensures IsAllowed(GithubPagesOrigin, AllowedOrigins(codespaces))
    ensures IsAllowed(LocalOrigin, AllowedOrigins(codespaces))
    ensures Truthy(codespaces) ==> IsAllowed(codespaces.value, AllowedOrigins(codespaces))
  {
    var allowed := AllowedOrigins(codespaces);
    assert GithubPagesOrigin in allowed && StartsWith(GithubPagesOrigin, GithubPagesOrigin);
    assert LocalOrigin in allowed && StartsWith(LocalOrigin, LocalOrigin);
    if Truthy(codespaces) {
      var c := codespaces.value;
      assert c in allowed && StartsWith(c, c);
    }
  }

  /** The check is by prefix: anything extending an allowed origin is allowed too. */
  lemma AllowedByPrefix(origin: string, suffix: string, allowed: seq<string>)
    requires IsAllowed(origin, allowed)
    ensures IsAllowed(origin + suffix, allowed)
  {
    var a :| a in allowed && StartsWith(origin, a);
    assert (origin + suffix)[..|a|] == origin[..|a|];
  }

  /** So a host name that merely begins like the GitHub Pages host is echoed back. */
  lemma LookalikeHostAllowed(codespaces: Option<string>)
    ensures IsAllowed(GithubPagesOrigin + ".example.net", AllowedOrigins(codespaces))
  {
    ConfiguredOriginsAllowed(codespaces);
    AllowedByPrefix(GithubPagesOrigin, ".example.net", AllowedOrigins(codespaces));
  }

  /** The `/malim-app` entry adds nothing: the GitHub Pages entry already covers it. */
  lemma AppEntryRedundant(origin: string, codespaces: Option<string>)
    ensures IsAllowed(origin, AllowedOrigins(codespaces))
        <==> IsAllowed(origin, FilterTruthy([Some(GithubPagesOrigin), Some(LocalOrigin), codespaces]))
  {
    var shorter := FilterTruthy([Some(GithubPagesOrigin), Some(LocalOrigin), codespaces]);
    assert GithubPagesOrigin in shorter;
    if StartsWith(origin, GithubAppOrigin) {
      assert origin[..|GithubPagesOrigin|] == GithubAppOrigin[..|GithubPagesOrigin|];
    }
  }
}
