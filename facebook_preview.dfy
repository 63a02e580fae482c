/**
 * The Facebook-tuned preview endpoint. It validates, detects crawlers and
 * answers like the product preview, except that `og:url` is always the shop
 * URL; its own `escapeHtml` rewrites `>` to `>gt;`, which `Handle` keeps
 * and `HandleCorrected` replaces by the product preview's escaping.
 */
module FacebookPreview {
  import opened Wrappers
  import opened JsString
  import PP = ProductPreview

  /** This endpoint's HTML replacement of one character. */
  function FbEntity(c: char): string {
    if c == '&' then "&amp;"
    else if c == '"' then "&quot;"
    else if c == '<' then "&lt;"
    else if c == '>' then ">gt;"
    else [c]
  }

  /** This endpoint's `escapeHtml`, with its last replacement as written. */
  function EscapeHtml(s: string): string {
    ReplaceAll(ReplaceAll(ReplaceAll(ReplaceAll(s, "&", "&amp;"), "\"", "&quot;"), "<", "&lt;"), ">", ">gt;")
  }

  /** The character-by-character reference for `EscapeHtml`. */
  function EscapeHtmlRef(s: string): string {
    if s == [] then [] else FbEntity(s[0]) + EscapeHtmlRef(s[1..])
  }

  lemma EscapeHtmlAppend(a: string, b: string)
    ensures EscapeHtml(a + b) == EscapeHtml(a) + EscapeHtml(b)
  {
    var a1, b1 := ReplaceAll(a, "&", "&amp;"), ReplaceAll(b, "&", "&amp;");
    ReplaceCharAppend(a, b, '&', "&amp;");
    var a2, b2 := ReplaceAll(a1, "\"", "&quot;"), ReplaceAll(b1, "\"", "&quot;");
    ReplaceCharAppend(a1, b1, '"', "&quot;");
    var a3, b3 := ReplaceAll(a2, "<", "&lt;"), ReplaceAll(b2, "<", "&lt;");
    ReplaceCharAppend(a2, b2, '<', "&lt;");
    ReplaceCharAppend(a3, b3, '>', ">gt;");
  }

  lemma EscapeHtmlChar(c: char)
    ensures EscapeHtml([c]) == FbEntity(c)
  {
    assert [c] + [] == [c];
    ReplaceCharCons(c, [], '&', "&amp;");
    var s1 := ReplaceAll([c], "&", "&amp;");
    assert s1 == (if c == '&' then "&amp;" else [c]);
    if c == '&' {
      ReplaceCharMissing(s1, '"', "&quot;");
      ReplaceCharMissing(s1, '<', "&lt;");
      ReplaceCharMissing(s1, '>', ">gt;");
    } else {
      ReplaceCharCons(c, [], '"', "&quot;");
      var s2 := ReplaceAll(s1, "\"", "&quot;");
      assert s2 == (if c == '"' then "&quot;" else [c]);
      if c == '"' {
        ReplaceCharMissing(s2, '<', "&lt;");
        ReplaceCharMissing(s2, '>', ">gt;");
      } else {
        ReplaceCharCons(c, [], '<', "&lt;");
        var s3 := ReplaceAll(s2, "<", "&lt;");
        assert s3 == (if c == '<' then "&lt;" else [c]);
        if c == '<' {
          ReplaceCharMissing(s3, '>', ">gt;");
        } else {
          ReplaceCharCons(c, [], '>', ">gt;");
        }
      }
    }
  }

  lemma {:induction false} EscapeHtmlIsRef(s: string)
    ensures EscapeHtml(s) == EscapeHtmlRef(s)
  {
    if s == [] {
      assert EscapeHtml(s) == [];
    } else {
      assert s == [s[0]] + s[1..];
      EscapeHtmlAppend([s[0]], s[1..]);
      EscapeHtmlChar(s[0]);
      EscapeHtmlIsRef(s[1..]);
    }
  }

  /** No `<` and no `"` survive, but every `>` of the input is still there. */
  lemma {:induction false} EscapeHtmlKeepsGt(s: string)
    ensures var r := EscapeHtml(s);
      '<' !in r && '"' !in r && Count(r, '>') == Count(s, '>')
  {
    EscapeHtmlIsRef(s);
    RefKeepsGt(s);
  }

  lemma {:induction false} RefKeepsGt(s: string)
    ensures var r := EscapeHtmlRef(s);
      '<' !in r && '"' !in r && Count(r, '>') == Count(s, '>')
  {
    if s != [] {
      var e := FbEntity(s[0]);
      RefKeepsGt(s[1..]);
      CountAppend(e, EscapeHtmlRef(s[1..]), '>');
      FbEntityGt(s[0]);
      CountAppend([s[0]], s[1..], '>');
      assert [s[0]] + s[1..] == s;
    }
  }

  /** One replacement holds no `<` and no `"`, and a `>` exactly when the character was one. */
  lemma FbEntityGt(c: char)
    ensures var e := FbEntity(c);
      '<' !in e && '"' !in e && Count(e, '>') == Count([c], '>')
  {
    var e := FbEntity(c);
    if c == '>' {
      assert e == [c] + "gt;";
      CountAppend([c], "gt;", '>');
    } else if c == '&' || c == '"' || c == '<' {
      assert e[0] == '&' && e[1..] in {"amp;", "quot;", "lt;"};
    }
  }

  /** A raw `>` in the input yields a raw `>` in the page. */
  lemma GtSurvives()
    ensures EscapeHtml(">") == ">gt;"
  {
    EscapeHtmlChar('>');
  }

  /** On text without `>` this `escapeHtml` agrees with the product preview's. */
  lemma {:induction false} AgreesWithoutGt(s: string)
    requires '>' !in s
    ensures EscapeHtml(s) == PP.EscapeHtml(s)
  {
    EscapeHtmlIsRef(s);
    PP.EscapeHtmlIsRef(s);
    RefAgrees(s);
  }

  lemma {:induction false} RefAgrees(s: string)
    requires '>' !in s
    ensures EscapeHtmlRef(s) == PP.EscapeHtmlRef(s)
  {
    if s != [] {
      assert s[0] in s;
      assert forall c :: c in s[1..] ==> c in s;
      RefAgrees(s[1..]);
    }
  }

  /** `ogUrl = spaUrl` */
  function OgUrl(q: PP.PreviewQuery): (u: string)
    requires q.spaUrl.Some?
    ensures u == q.spaUrl.value
  {
    q.spaUrl.value
  }

  /**
   * The Facebook preview handler as the source writes it: the crawler page
   * is escaped with this endpoint's own `escapeHtml`.
   */
  function Handle(q: PP.PreviewQuery, userAgent: Option<string>): (r: PP.PreviewReply)
    ensures PP.IsInvalid(q) ==> r == PP.PreviewReply(302, map["Location" := PP.FallbackDomain], None)
    ensures !PP.IsInvalid(q) ==>
      && "Content-Type" in r.headers && r.headers["Content-Type"] == PP.HtmlContentType
      && "Cache-Control" in r.headers && r.headers["Cache-Control"] == PP.PreviewCacheControl
    ensures !PP.IsInvalid(q) && PP.IsCrawler(userAgent) ==>
      && r.status == 200 && "Location" !in r.headers
      && "Content-Location" in r.headers && r.headers["Content-Location"] == q.spaUrl.value
      && "Link" in r.headers && r.headers["Link"] == PP.CanonicalLink(q.spaUrl.value)
      && r.page == Some(PP.Page(q, q.spaUrl.value, EscapeHtml))
    ensures !PP.IsInvalid(q) && !PP.IsCrawler(userAgent) ==>
      && r.status == 302 && r.page.None?
      && "Location" in r.headers && r.headers["Location"] == q.spaUrl.value
  {
    if PP.IsInvalid(q) then PP.PreviewReply(302, map["Location" := PP.FallbackDomain], None)
    else PP.Respond(q, PP.IsCrawler(userAgent), PP.Page(q, OgUrl(q), EscapeHtml))
  }

  /**
   * The handler with the HTML escaping the product preview uses (the one its
   * `og:` tags need); it differs from `Handle` only in the crawler page.
   */
  function HandleCorrected(q: PP.PreviewQuery, userAgent: Option<string>): (r: PP.PreviewReply)
    ensures !PP.IsInvalid(q) && PP.IsCrawler(userAgent) ==> r.page == Some(PP.Page(q, q.spaUrl.value, PP.EscapeHtml))
    ensures r.status == Handle(q, userAgent).status && r.headers == Handle(q, userAgent).headers
    ensures !(!PP.IsInvalid(q) && PP.IsCrawler(userAgent)) ==> r == Handle(q, userAgent)
  {
    if PP.IsInvalid(q) then PP.PreviewReply(302, map["Location" := PP.FallbackDomain], None)
    else PP.Respond(q, PP.IsCrawler(userAgent), PP.Page(q, OgUrl(q), PP.EscapeHtml))
  }

  /** `self_url` has no influence on the reply, in the source's handler and in the corrected one. */
  lemma SelfUrlIgnored(q: PP.PreviewQuery, selfUrl: Option<string>, userAgent: Option<string>)
    ensures Handle(q, userAgent) == Handle(q.(selfUrl := selfUrl), userAgent)
    ensures HandleCorrected(q, userAgent) == HandleCorrected(q.(selfUrl := selfUrl), userAgent)
  {
    var q' := q.(selfUrl := selfUrl);
    assert PP.IsInvalid(q) == PP.IsInvalid(q');
    if !PP.IsInvalid(q) {
      assert OgUrl(q') == OgUrl(q);
      var crawler := PP.IsCrawler(userAgent);
      var page := PP.Page(q, OgUrl(q), EscapeHtml);
      assert PP.Page(q', OgUrl(q'), EscapeHtml) == page;
      assert PP.Respond(q', crawler, page) == PP.Respond(q, crawler, page);
      var page' := PP.Page(q, OgUrl(q), PP.EscapeHtml);
      assert PP.Page(q', OgUrl(q'), PP.EscapeHtml) == page';
      assert PP.Respond(q', crawler, page') == PP.Respond(q, crawler, page');
    }
  }

  /** Without `self_url` the corrected handler sends the product preview's reply. */
  lemma SameReplyAsProduct(q: PP.PreviewQuery, userAgent: Option<string>)
    requires !Truthy(q.selfUrl)
    ensures HandleCorrected(q, userAgent) == PP.Handle(q, userAgent)
  {
    if !PP.IsInvalid(q) {
      assert PP.Page(q, OgUrl(q), PP.EscapeHtml) == PP.Page(q, PP.OgUrl(q), PP.EscapeHtml);
    }
  }

  /** A product named `>` shows a crawler a title that is no HTML entity, unlike the corrected handler. */
  lemma GtReachesPage(q: PP.PreviewQuery, userAgent: Option<string>)
    requires !PP.IsInvalid(q) && PP.IsCrawler(userAgent) && q.name == Some(">")
    ensures Handle(q, userAgent).page.value.title == ">gt;"
    ensures HandleCorrected(q, userAgent).page.value.title == "&gt;"
    ensures Handle(q, userAgent) != HandleCorrected(q, userAgent)
  {
    GtSurvives();
    PP.EscapeHtmlChar('>');
  }

  /** The corrected handler's crawler page has no `<`, `>` or `"` in any HTML field. */
  lemma CorrectedPageSafe(q: PP.PreviewQuery, userAgent: Option<string>)
    requires !PP.IsInvalid(q) && PP.IsCrawler(userAgent)
    ensures var page := HandleCorrected(q, userAgent).page.value;
      && PP.HtmlSafe(page.title) && PP.HtmlSafe(page.description) && PP.HtmlSafe(page.image)
      && PP.HtmlSafe(page.ogUrl) && PP.HtmlSafe(page.canonical)
  {
    PP.PageSafe(q, q.spaUrl.value);
  }

  predicate NoGt(v: Option<string>) {
    v.None? || '>' !in v.value
  }

  lemma AgreesOnDefault()
    ensures EscapeHtml(PP.DefaultDescription) == PP.EscapeHtml(PP.DefaultDescription)
  {
    AgreesWithoutGt(PP.DefaultDescription);
  }

  /** The source's handler differs from the corrected one only on values holding a `>`. */
  lemma AsWrittenAgreesWithoutGt(q: PP.PreviewQuery, userAgent: Option<string>)
    requires NoGt(q.name) && NoGt(q.desc) && NoGt(q.image) && NoGt(q.spaUrl)
    ensures Handle(q, userAgent) == HandleCorrected(q, userAgent)
  {
    if !PP.IsInvalid(q) {
      AgreesWithoutGt(q.name.value);
      AgreesWithoutGt(q.image.value);
      AgreesWithoutGt(q.spaUrl.value);
      if Truthy(q.desc) {
        AgreesWithoutGt(q.desc.value);
      } else {
        AgreesOnDefault();
      }
      assert PP.Page(q, OgUrl(q), EscapeHtml) == PP.Page(q, OgUrl(q), PP.EscapeHtml);
    }
  }
}
