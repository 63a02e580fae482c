/**
 * The product link-preview endpoint: social-media crawlers receive an HTML
 * page with Open Graph tags, browsers are redirected to the shop page.
 * The page itself is represented by the escaped values it interpolates.
 */
module ProductPreview {
  import opened Wrappers
  import opened JsString

  const FallbackDomain := "https://malim-shop.vercel.app/"
  const DefaultDescription := "Consulta los detalles " + "de este increíble " + "artículo de " + "nuestra tienda."
  const HtmlContentType := "text/html; charset=utf-8"
  const PreviewCacheControl := "public, max-age=86400, stale-while-revalidate=3600"
  const CrawlerUserAgents := ["facebookexternalhit", "Facebot", "Twitterbot", "Slackbot", "WhatsApp", "LinkedInBot", "telegrambot"]

  /** The query parameters of a preview request; `None` is an absent parameter. */
  datatype PreviewQuery = PreviewQuery(
    name: Option<string>, desc: Option<string>, image: Option<string>,
    spaUrl: Option<string>, selfUrl: Option<string>)

  /** `!name || !image || !spa_url || name.trim() === "" || ...` */
  predicate IsInvalid(q: PreviewQuery)
    ensures q.name.None? || q.image.None? || q.spaUrl.None? ==> IsInvalid(q)
  {
    !Truthy(q.name) || !Truthy(q.image) || !Truthy(q.spaUrl)
    || Trim(q.name.value) == "" || Trim(q.image.value) == "" || Trim(q.spaUrl.value) == ""
  }

  /** A parameter that is absent or made of white space only. */
  predicate MissingOrBlank(v: Option<string>) {
    v.None? || Blank(v.value)
  }

  /** The request is rejected exactly when one of the three required parameters is absent or blank. */
  lemma InvalidIffMissingOrBlank(q: PreviewQuery)
    ensures IsInvalid(q) <==> MissingOrBlank(q.name) || MissingOrBlank(q.image) || MissingOrBlank(q.spaUrl)
  {
    if q.name.Some? { TrimEmptyIffBlank(q.name.value); }
    if q.image.Some? { TrimEmptyIffBlank(q.image.value); }
    if q.spaUrl.Some? { TrimEmptyIffBlank(q.spaUrl.value); }
  }

  /** `String(self_url || spaUrl)` */
  function OgUrl(q: PreviewQuery): (u: string)
    requires q.spaUrl.Some?
    ensures Truthy(q.selfUrl) ==> u == q.selfUrl.value
    ensures !Truthy(q.selfUrl) ==> u == q.spaUrl.value
  {
    if Truthy(q.selfUrl) then q.selfUrl.value else q.spaUrl.value
  }

  /** `crawlerUserAgents.some(s => ua.includes(s.toLowerCase()))` with `ua` the lower-cased header or "". */
  predicate IsCrawler(userAgent: Option<string>) {
    var ua := Lower(userAgent.GetOr(""));
    exists k | 0 <= k < |CrawlerUserAgents| :: Contains(ua, Lower(CrawlerUserAgents[k]))
  }

  /** A request without a User-Agent header is never taken for a crawler. */
  lemma NoUserAgentIsNotCrawler()
    ensures !IsCrawler(None)
  {
    forall k | 0 <= k < |CrawlerUserAgents|
      ensures !Contains(Lower(""), Lower(CrawlerUserAgents[k]))
    {
      assert CrawlerUserAgents[k] != [];
      EmptyContainsNothing(Lower(CrawlerUserAgents[k]));
    }
  }

  /** Detection ignores ASCII case: the lower-cased header gives the same answer. */
  lemma CrawlerCaseInsensitive(ua: string)
    ensures IsCrawler(Some(ua)) <==> IsCrawler(Some(Lower(ua)))
  {
    LowerIdempotent(ua);
  }

  /** Any header containing a listed token, in any ASCII casing, is a crawler's. */
  lemma TokenMakesCrawler(pre: string, token: string, post: string, k: nat)
    requires k < |CrawlerUserAgents| && Lower(token) == Lower(CrawlerUserAgents[k])
    ensures IsCrawler(Some(pre + token + post))
  {
    LowerAppend(pre + token, post);
    LowerAppend(pre, token);
    var low := Lower(token);
    assert OccursAt(low, low, 0);
    ContainsShift(low, low, Lower(pre));
    ContainsExtend(Lower(pre) + low, low, Lower(post));
  }

  /** The HTML replacement of one character. */
  function HtmlEntity(c: char): string {
    if c == '&' then "&amp;"
    else if c == '"' then "&quot;"
    else if c == '<' then "&lt;"
    else if c == '>' then "&gt;"
    else [c]
  }

  /** `escapeHtml`: four chained replace-alls. */
  function EscapeHtml(s: string): string {
    ReplaceAll(ReplaceAll(ReplaceAll(ReplaceAll(s, "&", "&amp;"), "\"", "&quot;"), "<", "&lt;"), ">", "&gt;")
  }

  /** The character-by-character reference for `EscapeHtml`. */
  function EscapeHtmlRef(s: string): string {
    if s == [] then [] else HtmlEntity(s[0]) + EscapeHtmlRef(s[1..])
  }

  lemma EscapeHtmlAppend(a: string, b: string)
    ensures EscapeHtml(a + b) == EscapeHtml(a) + EscapeHtml(b)
  {
    var a1, b1 := ReplaceAll(a, "&", "&amp;"), ReplaceAll(b, "&", "&amp;");
    ReplaceCharAppend(a, b, '&', "&amp;");
    var a2, b2 := ReplaceAll(a1, "\"", "&quot;"), ReplaceAll(b1, "\"", "&quot;");
    ReplaceCharAppend(a1, b1, '"', "&quot;");
    var a3, b3 := ReplaceAll(a2, "<", "&lt;"), ReplaceAll(b2, "<", "&lt;");
    ReplaceCharAppend(a2, b2, '<', "&lt;");
    ReplaceCharAppend(a3, b3, '>', "&gt;");
  }

  lemma EscapeHtmlChar(c: char)
    ensures EscapeHtml([c]) == HtmlEntity(c)
  {
    assert [c] + [] == [c];
    ReplaceCharCons(c, [], '&', "&amp;");
    var s1 := ReplaceAll([c], "&", "&amp;");
    assert s1 == (if c == '&' then "&amp;" else [c]);
    if c == '&' {
      ReplaceCharMissing(s1, '"', "&quot;");
      ReplaceCharMissing(s1, '<', "&lt;");
      ReplaceCharMissing(s1, '>', "&gt;");
    } else {
      ReplaceCharCons(c, [], '"', "&quot;");
      var s2 := ReplaceAll(s1, "\"", "&quot;");
      assert s2 == (if c == '"' then "&quot;" else [c]);
      if c == '"' {
        ReplaceCharMissing(s2, '<', "&lt;");
        ReplaceCharMissing(s2, '>', "&gt;");
      } else {
        ReplaceCharCons(c, [], '<', "&lt;");
        var s3 := ReplaceAll(s2, "<", "&lt;");
        assert s3 == (if c == '<' then "&lt;" else [c]);
        if c == '<' {
          ReplaceCharMissing(s3, '>', "&gt;");
        } else {
          ReplaceCharCons(c, [], '>', "&gt;");
        }
      }
    }
  }

  /** The chained replace-alls escape each character independently. */
  lemma {:induction false} EscapeHtmlIsRef(s: string)
    ensures EscapeHtml(s) == EscapeHtmlRef(s)
  {
    if s == [] {
      assert EscapeHtml(s) == [];
    } else {
      assert s == [s[0]] + s[1..];
      EscapeHtmlAppend([s[0]], s[1..]);
      EscapeHtmlChar(s[0]);
      EscapeHtmlIsRef(s[1..]);
    }
  }

  /** `s` has one of the four entities at its start. */
  predicate StartsWithEntity(s: string) {
    StartsWith(s, "&amp;") || StartsWith(s, "&quot;") || StartsWith(s, "&lt;") || StartsWith(s, "&gt;")
  }

  lemma StartsWithEntityAppend(a: string, b: string)
    requires StartsWithEntity(a)
    ensures StartsWithEntity(a + b)
  {
    assert forall p :: StartsWith(a, p) ==> (a + b)[..|p|] == a[..|p|];
  }

  /** The escaped text has no `<`, `>` or `"`, and each `&` in it opens an entity. */
  lemma {:induction false} EscapeHtmlSafe(s: string)
    ensures var r := EscapeHtml(s);
      '<' !in r && '>' !in r && '"' !in r
      && forall i :: 0 <= i < |r| && r[i] == '&' ==> StartsWithEntity(r[i..])
  {
    EscapeHtmlIsRef(s);
    RefSafe(s);
  }

  lemma {:induction false} RefSafe(s: string)
    ensures var r := EscapeHtmlRef(s);
      '<' !in r && '>' !in r && '"' !in r
      && forall i :: 0 <= i < |r| && r[i] == '&' ==> StartsWithEntity(r[i..])
  {
    if s != [] {
      var e, rest := HtmlEntity(s[0]), EscapeHtmlRef(s[1..]);
      RefSafe(s[1..]);
      var r := e + rest;
      forall i | 0 <= i < |r| && r[i] == '&'
        ensures StartsWithEntity(r[i..])
      {
        if i < |e| {
          assert i == 0 && StartsWithEntity(e);
          StartsWithEntityAppend(e, rest);
        } else {
          assert r[i..] == rest[i - |e|..];
        }
      }
    }
  }

  /** Decoding of the four entities that `EscapeHtml` produces. */
  function UnescapeHtml(s: string): string
    decreases |s|
  {
    if s == [] then []
    else if StartsWith(s, "&amp;") then "&" + UnescapeHtml(s[5..])
    else if StartsWith(s, "&quot;") then "\"" + UnescapeHtml(s[6..])
    else if StartsWith(s, "&lt;") then "<" + UnescapeHtml(s[4..])
    else if StartsWith(s, "&gt;") then ">" + UnescapeHtml(s[4..])
    else [s[0]] + UnescapeHtml(s[1..])
  }

  lemma Mismatch(s: string, p: string, i: nat)
    requires i < |p| && i < |s| && s[i] != p[i]
    ensures !StartsWith(s, p)
  {
  }

  lemma Prefix(e: string, t: string)
    ensures StartsWith(e + t, e) && (e + t)[|e|..] == t
  {
    assert (e + t)[..|e|] == e;
  }

  lemma UnescapeEntity(c: char, t: string)
    ensures UnescapeHtml(HtmlEntity(c) + t) == [c] + UnescapeHtml(t)
  {
    var e := HtmlEntity(c);
    var s := e + t;
    Prefix(e, t);
    assert s[0] == e[0];
    if c == '&' {
    } else if c == '"' {
      Mismatch(s, "&amp;", 1);
    } else if c == '<' {
      Mismatch(s, "&amp;", 1);
      Mismatch(s, "&quot;", 1);
    } else if c == '>' {
      Mismatch(s, "&amp;", 1);
      Mismatch(s, "&quot;", 1);
      Mismatch(s, "&lt;", 1);
    } else {
      Mismatch(s, "&amp;", 0);
      Mismatch(s, "&quot;", 0);
      Mismatch(s, "&lt;", 0);
      Mismatch(s, "&gt;", 0);
    }
  }

  /** Decoding the entities gives back the original text. */
  lemma {:induction false} UnescapeEscapeHtml(s: string)
    ensures UnescapeHtml(EscapeHtml(s)) == s
  {
    EscapeHtmlIsRef(s);
    UnescapeRef(s);
  }

  lemma {:induction false} UnescapeRef(s: string)
    ensures UnescapeHtml(EscapeHtmlRef(s)) == s
  {
    if s != [] {
      UnescapeEntity(s[0], EscapeHtmlRef(s[1..]));
      UnescapeRef(s[1..]);
      assert s == [s[0]] + s[1..];
    }
  }

  /** Text without `&`, `"`, `<` and `>` is left as it is. */
  lemma {:induction false} EscapeHtmlPlain(s: string)
    requires '&' !in s && '"' !in s && '<' !in s && '>' !in s
    ensures EscapeHtml(s) == s
  {
    ReplaceCharMissing(s, '&', "&amp;");
    ReplaceCharMissing(s, '"', "&quot;");
    ReplaceCharMissing(s, '<', "&lt;");
    ReplaceCharMissing(s, '>', "&gt;");
  }

  /** The JavaScript string-literal replacement of one character. */
  function JsEscape(c: char): string {
    if c == '\\' then "\\\\"
    else if c == '\'' then "\\'"
    else if c == '"' then "\\\""
    else [c]
  }

  /** `escapeForJs`: three chained replace-alls, backslash first. */
  function EscapeForJs(s: string): string {
    ReplaceAll(ReplaceAll(ReplaceAll(s, "\\", "\\\\"), "'", "\\'"), "\"", "\\\"")
  }

  /** The character-by-character reference for `EscapeForJs`. */
  function EscapeForJsRef(s: string): string {
    if s == [] then [] else JsEscape(s[0]) + EscapeForJsRef(s[1..])
  }

  lemma EscapeForJsAppend(a: string, b: string)
    ensures EscapeForJs(a + b) == EscapeForJs(a) + EscapeForJs(b)
  {
    var a1, b1 := ReplaceAll(a, "\\", "\\\\"), ReplaceAll(b, "\\", "\\\\");
    ReplaceCharAppend(a, b, '\\', "\\\\");
    var a2, b2 := ReplaceAll(a1, "'", "\\'"), ReplaceAll(b1, "'", "\\'");
    ReplaceCharAppend(a1, b1, '\'', "\\'");
    ReplaceCharAppend(a2, b2, '"', "\\\"");
  }

  lemma EscapeForJsChar(c: char)
    ensures EscapeForJs([c]) == JsEscape(c)
  {
    assert [c] + [] == [c];
    ReplaceCharCons(c, [], '\\', "\\\\");
    var s1 := ReplaceAll([c], "\\", "\\\\");
    assert s1 == (if c == '\\' then "\\\\" else [c]);
    if c == '\\' {
      ReplaceCharMissing(s1, '\'', "\\'");
      ReplaceCharMissing(s1, '"', "\\\"");
    } else {
      ReplaceCharCons(c, [], '\'', "\\'");
      var s2 := ReplaceAll(s1, "'", "\\'");
      assert s2 == (if c == '\'' then "\\'" else [c]);
      if c == '\'' {
        ReplaceCharMissing(s2, '"', "\\\"");
      } else {
        ReplaceCharCons(c, [], '"', "\\\"");
      }
    }
  }

  lemma {:induction false} EscapeForJsIsRef(s: string)
    ensures EscapeForJs(s) == EscapeForJsRef(s)
  {
    if s == [] {
      assert EscapeForJs(s) == [];
    } else {
      assert s == [s[0]] + s[1..];
      EscapeForJsAppend([s[0]], s[1..]);
      EscapeForJsChar(s[0]);
      EscapeForJsIsRef(s[1..]);
    }
  }

  predicate IsQuote(c: char) {
    c == '\'' || c == '"'
  }

  /** Every quote, single or double, follows a backslash. */
  predicate QuotesEscaped(r: string) {
    forall i :: 0 <= i < |r| && IsQuote(r[i]) ==> i > 0 && r[i - 1] == '\\'
  }

  /** In the escaped text every quote, single or double, follows a backslash. */
  lemma {:induction false} EscapeForJsQuotes(s: string)
    ensures QuotesEscaped(EscapeForJs(s))
  {
    EscapeForJsIsRef(s);
    JsRefQuotes(s);
  }

  lemma {:induction false} JsRefQuotes(s: string)
    ensures QuotesEscaped(EscapeForJsRef(s))
  {
    if s != [] {
      var e, rest := JsEscape(s[0]), EscapeForJsRef(s[1..]);
      JsRefQuotes(s[1..]);
      var r := e + rest;
      forall i | 0 <= i < |r| && IsQuote(r[i])
        ensures i > 0 && r[i - 1] == '\\'
      {
        if i < |e| {
          assert r[0] == e[0] && r[i] == e[i];
        } else {
          var j := i - |e|;
          assert r[i] == rest[j];
          assert j > 0 && rest[j - 1] == '\\';
          assert r[i - 1] == rest[j - 1];
        }
      }
    }
  }

  /** Decoding of the three backslash escapes that `EscapeForJs` produces. */
  function UnescapeJs(s: string): string
    decreases |s|
  {
    if s == [] then []
    else if |s| >= 2 && s[0] == '\\' && (s[1] == '\\' || s[1] == '\'' || s[1] == '"') then [s[1]] + UnescapeJs(s[2..])
    else [s[0]] + UnescapeJs(s[1..])
  }

  lemma {:induction false} UnescapeJsRef(s: string)
    ensures UnescapeJs(EscapeForJsRef(s)) == s
  {
    if s != [] {
      var e, rest := JsEscape(s[0]), EscapeForJsRef(s[1..]);
      var r := e + rest;
      assert r[|e|..] == rest;
      UnescapeJsRef(s[1..]);
      assert s == [s[0]] + s[1..];
    }
  }

  /** Decoding the backslash escapes gives back the original text. */
  lemma {:induction false} UnescapeEscapeForJs(s: string)
    ensures UnescapeJs(EscapeForJs(s)) == s
  {
    EscapeForJsIsRef(s);
    UnescapeJsRef(s);
  }

  /** The values the Open Graph page interpolates, each already escaped. */
  datatype OgPage = OgPage(
    title: string, description: string, image: string,
    ogUrl: string, canonical: string, redirectTarget: string)

  /** A response: status, the headers written, and the page when one is sent. */
  datatype PreviewReply = PreviewReply(status: int, headers: map<string, string>, page: Option<OgPage>)

  /** The `Link` header naming the canonical URL. */
  function CanonicalLink(url: string): string {
    "<" + url + ">; rel=\"canonical\""
  }

  /** The headers both preview endpoints write before deciding. */
  function BaseHeaders(): (h: map<string, string>)
    ensures "Content-Type" in h && h["Content-Type"] == HtmlContentType
    ensures "Cache-Control" in h && h["Cache-Control"] == PreviewCacheControl
  {
    map["Content-Type" := HtmlContentType, "Cache-Control" := PreviewCacheControl]
  }

  /** The page for a valid query, whichever `og:url` value the endpoint chose. */
  function Page(q: PreviewQuery, ogUrl: string, escapeHtml: string -> string): OgPage
    requires !IsInvalid(q)
  {
    var spaUrl := q.spaUrl.value;
    var description := OrElse(q.desc, DefaultDescription);
    OgPage(escapeHtml(q.name.value), escapeHtml(description), escapeHtml(q.image.value),
           escapeHtml(ogUrl), escapeHtml(spaUrl), EscapeForJs(spaUrl))
  }

  /** The crawler/browser decision shared by both preview endpoints. */
  function Respond(q: PreviewQuery, crawler: bool, page: OgPage): (r: PreviewReply)
    requires !IsInvalid(q)
    ensures "Content-Type" in r.headers && r.headers["Content-Type"] == HtmlContentType
    ensures "Cache-Control" in r.headers && r.headers["Cache-Control"] == PreviewCacheControl
    ensures crawler ==>
      && r.status == 200 && "Location" !in r.headers && r.page == Some(page)
      && "Content-Location" in r.headers && r.headers["Content-Location"] == q.spaUrl.value
      && "Link" in r.headers && r.headers["Link"] == CanonicalLink(q.spaUrl.value)
    ensures !crawler ==>
      && r.status == 302 && r.page.None?
      && "Location" in r.headers && r.headers["Location"] == q.spaUrl.value
  {
    var spaUrl := q.spaUrl.value;
    if crawler then
      PreviewReply(200, BaseHeaders()["Content-Location" := spaUrl]["Link" := CanonicalLink(spaUrl)], Some(page))
    else
      PreviewReply(302, BaseHeaders()["Location" := spaUrl], None)
  }

  /** The product preview handler. */
  function Handle(q: PreviewQuery, userAgent: Option<string>): (r: PreviewReply)
    ensures IsInvalid(q) ==> r == PreviewReply(302, map["Location" := FallbackDomain], None)
    ensures !IsInvalid(q) ==>
      && "Content-Type" in r.headers && r.headers["Content-Type"] == HtmlContentType
      && "Cache-Control" in r.headers && r.headers["Cache-Control"] == PreviewCacheControl
    ensures !IsInvalid(q) && IsCrawler(userAgent) ==>
      && r.status == 200 && "Location" !in r.headers
      && "Content-Location" in r.headers && r.headers["Content-Location"] == q.spaUrl.value
      && "Link" in r.headers && r.headers["Link"] == CanonicalLink(q.spaUrl.value)
      && r.page == Some(Page(q, OgUrl(q), EscapeHtml))
    ensures !IsInvalid(q) && !IsCrawler(userAgent) ==>
      && r.status == 302 && r.page.None?
      && "Location" in r.headers && r.headers["Location"] == q.spaUrl.value
  {
    if IsInvalid(q) then PreviewReply(302, map["Location" := FallbackDomain], None)
    else Respond(q, IsCrawler(userAgent), Page(q, OgUrl(q), EscapeHtml))
  }

  /** Text that can neither open a tag nor close an attribute value. */
  predicate HtmlSafe(r: string) {
    '<' !in r && '>' !in r && '"' !in r
  }

  /** Decoding each field of a page gives back the value it was made from. */
  lemma PageDecodes(q: PreviewQuery, ogUrl: string)
    requires !IsInvalid(q)
    ensures var page := Page(q, ogUrl, EscapeHtml);
      && UnescapeHtml(page.title) == q.name.value
      && UnescapeHtml(page.description) == OrElse(q.desc, DefaultDescription)
      && UnescapeHtml(page.image) == q.image.value
      && UnescapeHtml(page.ogUrl) == ogUrl
      && UnescapeHtml(page.canonical) == q.spaUrl.value
      && UnescapeJs(page.redirectTarget) == q.spaUrl.value
  {
    var description := OrElse(q.desc, DefaultDescription);
    UnescapeEscapeHtml(q.name.value);
    UnescapeEscapeHtml(description);
    UnescapeEscapeHtml(q.image.value);
    UnescapeEscapeHtml(ogUrl);
    UnescapeEscapeHtml(q.spaUrl.value);
    UnescapeEscapeForJs(q.spaUrl.value);
  }

  /** No HTML field of a page holds `<`, `>` or `"`, and the script's literal has every quote escaped. */
  lemma PageSafe(q: PreviewQuery, ogUrl: string)
    requires !IsInvalid(q)
    ensures var page := Page(q, ogUrl, EscapeHtml);
      && HtmlSafe(page.title) && HtmlSafe(page.description) && HtmlSafe(page.image)
      && HtmlSafe(page.ogUrl) && HtmlSafe(page.canonical)
      && QuotesEscaped(page.redirectTarget)
  {
    var description := OrElse(q.desc, DefaultDescription);
    EscapeHtmlSafe(q.name.value);
    EscapeHtmlSafe(description);
    EscapeHtmlSafe(q.image.value);
    EscapeHtmlSafe(ogUrl);
    EscapeHtmlSafe(q.spaUrl.value);
    EscapeForJsQuotes(q.spaUrl.value);
  }

  /** Decoding each field of the crawler page gives back the query value it came from. */
  lemma CrawlerPageRoundTrip(q: PreviewQuery, userAgent: Option<string>)
    requires !IsInvalid(q) && IsCrawler(userAgent)
    ensures var page := Handle(q, userAgent).page.value;
      && UnescapeHtml(page.title) == q.name.value
      && UnescapeHtml(page.description) == OrElse(q.desc, DefaultDescription)
      && UnescapeHtml(page.image) == q.image.value
      && UnescapeHtml(page.ogUrl) == OgUrl(q)
      && UnescapeHtml(page.canonical) == q.spaUrl.value
      && UnescapeJs(page.redirectTarget) == q.spaUrl.value
  {
    PageDecodes(q, OgUrl(q));
  }

  /** No field of the crawler page can open a tag or close an attribute or the script's string. */
  lemma CrawlerPageSafe(q: PreviewQuery, userAgent: Option<string>)
    requires !IsInvalid(q) && IsCrawler(userAgent)
    ensures var page := Handle(q, userAgent).page.value;
      && HtmlSafe(page.title) && HtmlSafe(page.description) && HtmlSafe(page.image)
      && HtmlSafe(page.ogUrl) && HtmlSafe(page.canonical)
      && QuotesEscaped(page.redirectTarget)
  {
    PageSafe(q, OgUrl(q));
  }

  /** The page carries `self_url` as `og:url` whenever it is given. */
  lemma OgUrlPrefersSelfUrl(q: PreviewQuery, userAgent: Option<string>)
    requires !IsInvalid(q) && IsCrawler(userAgent) && Truthy(q.selfUrl)
    ensures Handle(q, userAgent).page.value.ogUrl == EscapeHtml(q.selfUrl.value)
  {
  }
}
